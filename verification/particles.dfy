/** The player's trails of js/particles.js: the bubble trail (`TrailEffect` of `Particle`s), the
    polyline trails (`Tracer` and its `FireTrail` and `GoldenTrail` variants) and the glowing
    rectangle trail (`Rect_Tracer`). Random draws are parameters; real powers such as
    `friction ** loopFactor` go through an uninterpreted `pow` parameter. */
module Particles {
  import opened Geometry
  import opened Wrappers
  import opened Seqs
  import Utils

  /** The player fields the trails read. */
  datatype Mover = Mover(x: real, y: real, size: real, speedX: real, speedY: real, baseSpeed: real)

  // ---------------------------------------------------------------------------------------------
  // Particle
  // ---------------------------------------------------------------------------------------------

  const Friction: real := 0.98

  /** The `Math.random()` results one particle consumes: its offset from the player, the jitter
      of its speed and its growth rate. */
  datatype ParticleDraw = ParticleDraw(dx: real, dy: real, sx: real, sy: real, grow: real)

  datatype Particle = Particle(x: real, y: real, defaultSize: real, size: real, maxSize: real,
                               hue: real, speedX: real, speedY: real, friction: real,
                               sizeSpeed: real, offscreen: bool)

  /** The constructor: the particle dies when it has doubled in size (the earlier `maxSize = 5`
      is overwritten at once). */
  function NewParticle(x: real, y: real, size: real, hue: real, playerSpeed: Point,
                       d: ParticleDraw): (p: Particle)
    ensures p.maxSize == 2.0 * size && p.size == size && p.defaultSize == size
    ensures p.x == x && p.y == y && p.hue == hue && !p.offscreen && p.friction == Friction
    ensures 0.0 <= d.grow < 1.0 ==> 1.015 <= p.sizeSpeed < 1.025
  {
    Particle(x, y, size, size, size * 2.0, hue,
             playerSpeed.x * 0.1 + (d.sx - 0.5), playerSpeed.y * 0.1 + (d.sy - 0.5),
             Friction, d.grow * 0.01 + 1.015, false)
  }

  /** `Particle.update(loopFactor)`: slow down by `friction ** loopFactor`, move, grow by
      `sizeSpeed ** loopFactor`, and die once at least `maxSize`. */
  function StepParticle(p: Particle, loopFactor: real, pow: Power): (r: Particle)
    ensures p.offscreen ==> r.offscreen
    ensures r.offscreen <==> p.offscreen || r.size >= p.maxSize
    ensures r.maxSize == p.maxSize && r.defaultSize == p.defaultSize && r.hue == p.hue
  {
    var speedX := p.speedX * pow(p.friction, loopFactor);
    var speedY := p.speedY * pow(p.friction, loopFactor);
    var size := p.size * pow(p.sizeSpeed, loopFactor);
    p.(x := p.x + speedX * loopFactor, y := p.y + speedY * loopFactor,
       speedX := speedX, speedY := speedY, size := size,
       offscreen := p.offscreen || size >= p.maxSize)
  }

  /** The particle after the frames `factors`, in order. */
  function StepMany(p: Particle, factors: seq<real>, pow: Power): Particle
    decreases |factors|
  {
    if factors == [] then p else StepMany(StepParticle(p, factors[0], pow), factors[1..], pow)
  }

  /** A dead particle stays dead: no later frame revives it. */
  lemma {:induction false} OffscreenSticky(p: Particle, factors: seq<real>, pow: Power)
    requires p.offscreen
    ensures StepMany(p, factors, pow).offscreen
    decreases |factors|
  {
    if factors != [] {
      OffscreenSticky(StepParticle(p, factors[0], pow), factors[1..], pow);
    }
  }

  // ---------------------------------------------------------------------------------------------
  // TrailEffect
  // ---------------------------------------------------------------------------------------------

  const BubbleInterval: real := 50.0

  /** A `TrailEffect`: live particles, spawn timer and the configurable properties. */
  datatype TrailEffect = TrailEffect(particles: seq<Particle>, timer: real, trailHue: real,
                                     particleSize: real, particleCount: nat, maxParticles: int)

  /** The constructor; a missing option takes its default (185, 9, 10, 100). */
  function NewTrailEffect(trailHue: Option<real>, particleSize: Option<real>,
                          particleCount: Option<nat>, maxParticles: Option<int>): (e: TrailEffect)
    ensures e.particles == [] && e.timer == 0.0
    ensures e.trailHue == trailHue.GetOr(185.0) && e.particleSize == particleSize.GetOr(9.0)
    ensures e.particleCount == particleCount.GetOr(10) && e.maxParticles == maxParticles.GetOr(100)
  {
    TrailEffect([], 0.0, trailHue.GetOr(185.0), particleSize.GetOr(9.0), particleCount.GetOr(10),
                maxParticles.GetOr(100))
  }

  /** The particle `#addParticles` creates for the draw `d`, around the player. */
  function Spawned(e: TrailEffect, m: Mover, d: ParticleDraw): Particle {
    NewParticle(m.x + (d.dx - 0.5) * m.size, m.y + (d.dy * 1.2 - 0.5) * m.size,
                e.particleSize, e.trailHue, Point(m.speedX, m.speedY), d)
  }

  /** `#addParticles(count)`: one new particle per draw, appended. */
  function AddParticles(e: TrailEffect, m: Mover, draws: seq<ParticleDraw>): (s: seq<Particle>)
    ensures |s| == |e.particles| + |draws| && s[..|e.particles|] == e.particles
    ensures forall k | 0 <= k < |draws| :: s[|e.particles| + k] == Spawned(e, m, draws[k])
  {
    e.particles + seq(|draws|, k requires 0 <= k < |draws| => Spawned(e, m, draws[k]))
  }

  function StepAll(s: seq<Particle>, loopFactor: real, pow: Power): (r: seq<Particle>)
    ensures |r| == |s|
    ensures forall k | 0 <= k < |s| :: r[k] == StepParticle(s[k], loopFactor, pow)
  {
    seq(|s|, k requires 0 <= k < |s| => StepParticle(s[k], loopFactor, pow))
  }

  function Alive(p: Particle): bool {
    !p.offscreen
  }

  /** Whether this update spawns: the timer has reached the interval and there are at most
      `maxParticles` particles. */
  predicate SpawnsBubbles(e: TrailEffect, deltaTime: real) {
    |e.particles| <= e.maxParticles && e.timer + deltaTime >= BubbleInterval
  }

  /** `TrailEffect.update`: maybe spawn `particleCount` particles (one draw each) and restart the
      timer, advance every particle, then drop the dead ones. */
  function UpdateTrail(e: TrailEffect, deltaTime: real, loopFactor: real, pow: Power, m: Mover,
                       draws: seq<ParticleDraw>): (r: TrailEffect)
    requires |draws| == e.particleCount
    ensures forall k | 0 <= k < |r.particles| :: !r.particles[k].offscreen
    ensures SpawnsBubbles(e, deltaTime) ==> r.timer == 0.0
    ensures !SpawnsBubbles(e, deltaTime) ==> r.timer == e.timer + deltaTime
    ensures |r.particles| <= |e.particles| + (if SpawnsBubbles(e, deltaTime) then e.particleCount else 0)
    ensures r.particleCount == e.particleCount && r.maxParticles == e.maxParticles
    ensures var grown := if SpawnsBubbles(e, deltaTime) then AddParticles(e, m, draws) else e.particles;
            r.particles == Filter(StepAll(grown, loopFactor, pow), Alive)
  {
    var grown := if SpawnsBubbles(e, deltaTime) then AddParticles(e, m, draws) else e.particles;
    var stepped := StepAll(grown, loopFactor, pow);
    var kept := Filter(stepped, Alive);
    assert forall k | 0 <= k < |kept| :: kept[k] in kept;
    e.(particles := kept,
       timer := if SpawnsBubbles(e, deltaTime) then 0.0 else e.timer + deltaTime)
  }

  /** The particle count never exceeds `maxParticles + particleCount`: a spawn happens only at
      or below `maxParticles`, and culling only removes. */
  predicate Bounded(e: TrailEffect) {
    |e.particles| <= e.maxParticles + e.particleCount
  }

  lemma UpdateTrailBounded(e: TrailEffect, deltaTime: real, loopFactor: real, pow: Power, m: Mover,
                           draws: seq<ParticleDraw>)
    requires |draws| == e.particleCount && Bounded(e)
    ensures Bounded(UpdateTrail(e, deltaTime, loopFactor, pow, m, draws))
  {
  }

  /** The survivors are exactly the advanced particles that are still alive, in their order: the
      new list reads the advanced list at strictly increasing positions, which are precisely the
      positions of the particles that are not off screen. */
  lemma UpdateTrailSurvivors(e: TrailEffect, deltaTime: real, loopFactor: real, pow: Power, m: Mover,
                             draws: seq<ParticleDraw>, p: Particle)
    requires |draws| == e.particleCount
    ensures var grown := if SpawnsBubbles(e, deltaTime) then AddParticles(e, m, draws) else e.particles;
            p in UpdateTrail(e, deltaTime, loopFactor, pow, m, draws).particles <==>
            p in StepAll(grown, loopFactor, pow) && !p.offscreen
    ensures var grown := if SpawnsBubbles(e, deltaTime) then AddParticles(e, m, draws) else e.particles;
            var stepped := StepAll(grown, loopFactor, pow);
            var idx := KeptIndices(stepped, Alive);
            ReadAt(UpdateTrail(e, deltaTime, loopFactor, pow, m, draws).particles, stepped, idx) &&
            Increasing(idx) && PassingAt(stepped, Alive, idx)
  {
    var grown := if SpawnsBubbles(e, deltaTime) then AddParticles(e, m, draws) else e.particles;
    FilterKeepsOrder(StepAll(grown, loopFactor, pow), Alive);
    if p in StepAll(grown, loopFactor, pow) && !p.offscreen {
      FilterKeeps(StepAll(grown, loopFactor, pow), Alive, p);
    }
  }

  // ---------------------------------------------------------------------------------------------
  // Tracer
  // ---------------------------------------------------------------------------------------------

  const TracerInterval: real := 30.0

  /** A `Tracer`: the recorded path, the timer, the length bound and `pointOffset`, the shift
      towards the front of the player applied on a positive speed. */
  datatype Tracer = Tracer(points: seq<Point>, timer: real, maxPoints: int, pointOffset: Point)

  /** The path is never empty and its bound admits at least one point: otherwise the next
      `#addPoint` would read the last point of an empty path. */
  predicate ValidTracer(tr: Tracer) {
    |tr.points| >= 1 && tr.maxPoints >= 1 && |tr.points| <= tr.maxPoints + 2
  }

  /** The constructor: the path starts at the player. */
  function NewTracer(m: Mover, maxPoints: int, pointOffset: Point): (tr: Tracer)
    requires maxPoints >= 1
    ensures ValidTracer(tr) && tr.points == [Point(m.x, m.y)] && tr.timer == 0.0
  {
    Tracer([Point(m.x, m.y)], 0.0, maxPoints, pointOffset)
  }

  /** The point `#addPoint` records. */
  function NextPoint(tr: Tracer, m: Mover): Point {
    Point(m.x + (if m.speedX > 0.0 then tr.pointOffset.x else 0.0),
          m.y + (if m.speedY > 0.0 then tr.pointOffset.y else 0.0))
  }

  /** The corner between the previous and the new point: the previous point's coordinate on
      each axis the player moves along, the new point's otherwise. */
  function CornerPoint(prev: Point, next: Point, m: Mover): Point {
    Point(if m.speedX > 0.0 then prev.x else next.x, if m.speedY > 0.0 then prev.y else next.y)
  }

  /** Two points on one horizontal or vertical line. */
  predicate AxisAligned(a: Point, b: Point) {
    a.x == b.x || a.y == b.y
  }

  /** `#addPoint`: append the new point, preceded by a corner when it differs from the previous
      point on both axes. */
  function AddPoint(tr: Tracer, m: Mover): (r: seq<Point>)
    requires |tr.points| >= 1
    ensures |r| > |tr.points| && r[..|tr.points|] == tr.points && r[|r| - 1] == NextPoint(tr, m)
    ensures var prev := tr.points[|tr.points| - 1];
            var next := NextPoint(tr, m);
            if prev.x != next.x && prev.y != next.y
            then |r| == |tr.points| + 2 && r[|tr.points|] == CornerPoint(prev, next, m)
            else |r| == |tr.points| + 1
  {
    var prev := tr.points[|tr.points| - 1];
    var next := NextPoint(tr, m);
    if prev.x != next.x && prev.y != next.y then tr.points + [CornerPoint(prev, next, m), next]
    else tr.points + [next]
  }

  /** While the player moves along exactly one axis, every step `#addPoint` adds to the path is
      horizontal or vertical: the corner shares one coordinate with each neighbour. */
  lemma AddPointAxisAligned(tr: Tracer, m: Mover)
    requires |tr.points| >= 1 && (m.speedX > 0.0 <==> !(m.speedY > 0.0))
    ensures var r := AddPoint(tr, m);
            forall k | |tr.points| - 1 <= k < |r| - 1 :: AxisAligned(r[k], r[k + 1])
  {
    var r := AddPoint(tr, m);
    var prev := tr.points[|tr.points| - 1];
    assert r[|tr.points| - 1] == prev;
  }

  /** The oldest points dropped until at most `maxPoints` remain. */
  function DropOldest(s: seq<Point>, maxPoints: nat): (r: seq<Point>)
    ensures |r| == if |s| <= maxPoints then |s| else maxPoints
    ensures r == s[|s| - |r|..]
  {
    if |s| <= maxPoints then s else s[|s| - maxPoints..]
  }

  /** The source's `while (points.length > maxPoints) points.shift()`, which computes
      `DropOldest`. */
  method ShiftWhileLong(s: seq<Point>, maxPoints: nat) returns (r: seq<Point>)
    ensures r == DropOldest(s, maxPoints)
  {
    r := s;
    while |r| > maxPoints
      invariant r == s[|s| - |r|..]
      invariant |s| <= maxPoints ==> r == s
      invariant |r| >= maxPoints || |r| == |s|
      decreases |r|
    {
      r := r[1..];
    }
  }

  /** Whether this update records a point. */
  predicate RecordsPoint(tr: Tracer, deltaTime: real) {
    |tr.points| <= tr.maxPoints && tr.timer + deltaTime >= TracerInterval
  }

  /** `Tracer.update`: maybe record a point and restart the timer, then drop the oldest points
      beyond `maxPoints`. */
  function UpdateTracer(tr: Tracer, deltaTime: real, m: Mover): (r: Tracer)
    requires ValidTracer(tr)
    ensures ValidTracer(r) && |r.points| <= r.maxPoints
    ensures r.maxPoints == tr.maxPoints && r.pointOffset == tr.pointOffset
    ensures RecordsPoint(tr, deltaTime) ==> r.timer == 0.0
    ensures !RecordsPoint(tr, deltaTime) ==> r.timer == tr.timer + deltaTime
    ensures var grown := if RecordsPoint(tr, deltaTime) then AddPoint(tr, m) else tr.points;
            r.points == DropOldest(grown, tr.maxPoints as nat)
  {
    var grown := if RecordsPoint(tr, deltaTime) then AddPoint(tr, m) else tr.points;
    tr.(points := DropOldest(grown, tr.maxPoints as nat),
        timer := if RecordsPoint(tr, deltaTime) then 0.0 else tr.timer + deltaTime)
  }

  /** The newest point always survives the trimming, and nothing is dropped while the path fits. */
  lemma UpdateKeepsNewest(tr: Tracer, deltaTime: real, m: Mover)
    requires ValidTracer(tr) && RecordsPoint(tr, deltaTime)
    ensures var r := UpdateTracer(tr, deltaTime, m);
            r.points[|r.points| - 1] == NextPoint(tr, m)
  {
  }

  // ---------------------------------------------------------------------------------------------
  // Trail point simplification (FireTrail and GoldenTrail #createTrailPoints)
  // ---------------------------------------------------------------------------------------------

  /** Whether two points lie on a common horizontal or vertical line. */
  predicate SharesAxis(p: Point, q: Point) {
    p.x == q.x || p.y == q.y
  }

  /** The first index compared with corner `k` of the scan: the scan starts at index 1 with
      corner 0, and a corner found at step `i` (index `i - 1`) is compared from step `i + 1`. */
  function FirstCompared(scan: seq<nat>, k: nat): nat
    requires k < |scan|
  {
    if k == 0 then 1 else scan[k] + 2
  }

  /** Whether the points at indices `c` and `i` share an axis. */
  predicate Aligned(points: seq<Point>, c: nat, i: nat) {
    c < |points| && i < |points| && SharesAxis(points[i], points[c])
  }

  /** Whether every index in `s` is below `n`. */
  predicate IndicesBelow(s: seq<nat>, n: nat) {
    forall k | 0 <= k < |s| :: s[k] < n
  }

  /** Corner `k` of the scan follows corner `k - 1` by the rule of `#createTrailPoints`' loop,
      which has looked at the indices below `upTo`: it is the index just before the first point,
      from `FirstCompared(k - 1)` on, that shares no axis with corner `k - 1`. */
  predicate Picked(points: seq<Point>, scan: seq<nat>, upTo: nat, k: nat) {
    0 < k < |scan| && upTo <= |points| && scan[k - 1] < |points| &&
    FirstCompared(scan, k - 1) <= scan[k] + 1 < upTo &&
    var previous := scan[k - 1];
    !Aligned(points, previous, scan[k] + 1) &&
    forall i | FirstCompared(scan, k - 1) <= i <= scan[k] :: Aligned(points, previous, i)
  }

  /** Every index from `FirstCompared(last)` below `upTo` shares an axis with the latest corner. */
  predicate Pending(points: seq<Point>, scan: seq<nat>, upTo: nat) {
    |scan| >= 1 && upTo <= |points| && scan[|scan| - 1] < |points| &&
    var latest := scan[|scan| - 1];
    forall i | FirstCompared(scan, |scan| - 1) <= i < upTo :: Aligned(points, latest, i)
  }

  /** The selection rule of `#createTrailPoints`' loop once it has looked at the indices below
      `upTo`: the scan starts at corner 0, each further corner follows the one before it by
      `Picked`, and the points compared with the latest corner share an axis with it. */
  predicate CornerRuleUpTo(points: seq<Point>, scan: seq<nat>, upTo: nat) {
    upTo <= |points| && |scan| >= 1 && scan[0] == 0 && IndicesBelow(scan, upTo) &&
    (forall k | 0 < k < |scan| :: Picked(points, scan, upTo, k)) &&
    Pending(points, scan, upTo)
  }

  /** The rule over the whole path. */
  predicate CornerRule(points: seq<Point>, scan: seq<nat>) {
    CornerRuleUpTo(points, scan, |points|)
  }

  /** The scan closed at the last of `n` indices: `n - 1` appended unless it already ends there. */
  function EndAt(scan: seq<nat>, n: nat): (r: seq<nat>)
    requires |scan| >= 1 && n >= 1
    ensures |scan| <= |r| && r[|r| - 1] == n - 1
    ensures forall k | 0 <= k < |scan| :: r[k] == scan[k]
    ensures |r| == |scan| || (|r| == |scan| + 1 && scan[|scan| - 1] != n - 1)
    ensures IndicesBelow(scan, n) ==> IndicesBelow(r, n)
  {
    if scan[|scan| - 1] != n - 1 then scan + [n - 1] else scan
  }

  /** The corners `#createTrailPoints`' loop has picked once it has looked at the indices
      below `upTo`: step `i` compares point `i` with the latest corner and, when they share no
      axis, makes index `i - 1` the next corner. */
  function Scan(points: seq<Point>, upTo: nat): (scan: seq<nat>)
    requires 1 <= upTo <= |points|
    ensures |scan| >= 1 && scan[0] == 0 && IndicesBelow(scan, upTo)
    decreases upTo
  {
    if upTo == 1 then [0]
    else
      var before := Scan(points, upTo - 1);
      if Aligned(points, before[|before| - 1], upTo - 1) then before else before + [upTo - 2]
  }

  /** The indices of `#createTrailPoints`' simplified path: the scanned corners, then the last
      index unless the path already ends on it (the source compares point objects, so by
      index). */
  method CornerIndices(points: seq<Point>) returns (picked: seq<nat>)
    requires |points| >= 1
    ensures picked == EndAt(Scan(points, |points|), |points|)
    ensures |picked| >= 1 && picked[0] == 0 && picked[|picked| - 1] == |points| - 1
    ensures IndicesBelow(picked, |points|)
    ensures forall k | 0 < k < |picked| :: picked[k - 1] <= picked[k]
    ensures |points| >= 2 ==> |picked| >= 2
  {
    var current := 0;
    var scan: seq<nat> := [0];
    var i := 1;
    while i < |points|
      invariant 1 <= i <= |points|
      invariant scan == Scan(points, i) && current == scan[|scan| - 1]
    {
      var point := points[i];
      if !(point.x == points[current].x || point.y == points[current].y) {
        scan := scan + [i - 1];
        current := i - 1;
      }
      i := i + 1;
    }
    picked := EndAt(scan, |points|);
    ClosedScan(points);
  }

  /** The closed scan starts at 0, ends at the last index and runs in index order. */
  lemma ClosedScan(points: seq<Point>)
    requires |points| >= 1
    ensures var picked := EndAt(Scan(points, |points|), |points|);
            picked[0] == 0 && (|points| >= 2 ==> |picked| >= 2) &&
            forall k | 0 < k < |picked| :: picked[k - 1] <= picked[k]
  {
    ScanFollowsRule(points, |points|);
    CornersOrdered(points, Scan(points, |points|));
  }

  /** The scan follows `CornerRuleUpTo` at every point of the loop. */
  lemma {:induction false} ScanFollowsRule(points: seq<Point>, upTo: nat)
    requires 1 <= upTo <= |points|
    ensures var scan := Scan(points, upTo);
            CornerRuleUpTo(points, scan, upTo) && FirstCompared(scan, |scan| - 1) <= upTo
    decreases upTo
  {
    if upTo > 1 {
      var i := upTo - 1;
      var before := Scan(points, i);
      ScanFollowsRule(points, i);
      if Aligned(points, before[|before| - 1], i) {
        assert Pending(points, before, upTo);
        PickedGrows(points, before, i, upTo);
      } else {
        ScanStep(points, before, i);
      }
    }
  }

  /** Any scan that follows the rule over the whole path is the loop's scan. */
  lemma RuleIsScan(points: seq<Point>, scan: seq<nat>)
    requires |points| >= 1 && CornerRule(points, scan)
    ensures scan == Scan(points, |points|)
  {
    ScanFollowsRule(points, |points|);
    CornerRuleUnique(points, scan, Scan(points, |points|));
  }

  /** The corners the rule picks come in index order, and so does the closed scan. */
  lemma CornersOrdered(points: seq<Point>, scan: seq<nat>)
    requires CornerRule(points, scan)
    ensures var picked := EndAt(scan, |points|);
            forall k | 0 < k < |picked| :: picked[k - 1] <= picked[k]
  {
    var picked := EndAt(scan, |points|);
    forall k | 0 < k < |picked|
      ensures picked[k - 1] <= picked[k]
    {
      if k < |scan| {
        assert Picked(points, scan, |points|, k);
        assert picked[k - 1] == scan[k - 1] && picked[k] == scan[k];
      } else {
        assert picked[k - 1] == scan[k - 1];
      }
    }
  }

  /** A corner found at step `i` extends the rule to index `i + 1`. */
  lemma ScanStep(points: seq<Point>, scan: seq<nat>, i: nat)
    requires 1 <= i < |points| && CornerRuleUpTo(points, scan, i)
    requires FirstCompared(scan, |scan| - 1) <= i
    requires !Aligned(points, scan[|scan| - 1], i)
    ensures CornerRuleUpTo(points, scan + [i - 1], i + 1)
  {
    var next := scan + [i - 1];
    var upTo := i + 1;
    assert Pending(points, scan, i);
    forall k | 0 < k < |next|
      ensures Picked(points, next, upTo, k)
    {
      if k < |scan| {
        assert Picked(points, scan, i, k);
        assert next[k] == scan[k] && next[k - 1] == scan[k - 1];
      }
    }
  }

  /** Looking at one more index that shares an axis keeps every earlier corner's rule. */
  lemma PickedGrows(points: seq<Point>, scan: seq<nat>, i: nat, upTo: nat)
    requires upTo == i + 1 && i < |points| && CornerRuleUpTo(points, scan, i)
    ensures forall k | 0 < k < |scan| :: Picked(points, scan, upTo, k)
  {
    forall k | 0 < k < |scan|
      ensures Picked(points, scan, upTo, k)
    {
      assert Picked(points, scan, i, k);
    }
  }

  /** The rule leaves no choice: two scans that both follow it are the same. */
  lemma CornerRuleUnique(points: seq<Point>, a: seq<nat>, b: seq<nat>)
    requires CornerRule(points, a) && CornerRule(points, b)
    ensures a == b
  {
    SameLength(points, a, b);
    SamePrefix(points, a, b, |a| - 1);
    assert a[..|a|] == a && b[..|b|] == b;
  }

  /** Two scans following the rule agree on their common indices. */
  lemma {:induction false} SamePrefix(points: seq<Point>, a: seq<nat>, b: seq<nat>, k: nat)
    requires CornerRule(points, a) && CornerRule(points, b) && k < |a| && k < |b|
    ensures a[..k + 1] == b[..k + 1] && a[k] == b[k]
  {
    if k > 0 {
      SamePrefix(points, a, b, k - 1);
      assert a[k - 1] == a[..k][k - 1] == b[..k][k - 1] == b[k - 1];
      assert Picked(points, a, |points|, k) && Picked(points, b, |points|, k);
      if a[k] < b[k] {
        assert false;
      } else if b[k] < a[k] {
        assert false;
      }
      assert a[..k + 1] == a[..k] + [a[k]];
      assert b[..k + 1] == b[..k] + [b[k]];
    }
  }

  /** Two scans following the rule have the same length: where the shorter one stops, every
      later point shares an axis with its last corner, so the longer one cannot find another. */
  lemma SameLength(points: seq<Point>, a: seq<nat>, b: seq<nat>)
    requires CornerRule(points, a) && CornerRule(points, b)
    ensures |a| == |b|
  {
    if |a| < |b| {
      ShorterStops(points, a, b);
    } else if |b| < |a| {
      ShorterStops(points, b, a);
    }
  }

  /** The longer scan's next corner would share an axis with the shorter scan's last one. */
  lemma ShorterStops(points: seq<Point>, a: seq<nat>, b: seq<nat>)
    requires CornerRule(points, a) && CornerRule(points, b)
    ensures |a| >= |b|
  {
    if |a| < |b| {
      var n := |a|;
      CornerLeaves(points, b, n);
      SamePrefix(points, a, b, n - 1);
      assert false;
    }
  }

  /** The point after corner `k` shares no axis with corner `k - 1`. */
  lemma CornerLeaves(points: seq<Point>, scan: seq<nat>, k: nat)
    requires CornerRule(points, scan) && 0 < k < |scan|
    ensures FirstCompared(scan, k - 1) <= scan[k] + 1 < |points|
    ensures !Aligned(points, scan[k - 1], scan[k] + 1)
  {
    assert Picked(points, scan, |points|, k);
  }

  /** The points at `picked`: a subsequence of `points` in index order. */
  function PickAll(points: seq<Point>, picked: seq<nat>): (s: seq<Point>)
    requires forall k | 0 <= k < |picked| :: picked[k] < |points|
    ensures |s| == |picked|
    ensures forall k | 0 <= k < |picked| :: s[k] == points[picked[k]]
  {
    seq(|picked|, k requires 0 <= k < |picked| => points[picked[k]])
  }

  /** The simplified path of `points`: the points at the scanned corners, with the last point
      appended unless the path already ends on it. */
  function Simplified(points: seq<Point>): (corners: seq<Point>)
    requires |points| >= 1
  {
    PickAll(points, EndAt(Scan(points, |points|), |points|))
  }

  /** `#createTrailPoints`' simplification: the corners of the path by the loop's rule, in
      index order, from the first recorded point to the last. */
  method SimplifyPath(points: seq<Point>) returns (corners: seq<Point>)
    requires |points| >= 1
    ensures corners == Simplified(points)
    ensures |corners| >= 1 && corners[0] == points[0] && corners[|corners| - 1] == points[|points| - 1]
    ensures forall c | c in corners :: c in points
  {
    var picked := CornerIndices(points);
    corners := PickAll(points, picked);
  }

  // ---------------------------------------------------------------------------------------------
  // FireTrail resampling
  // ---------------------------------------------------------------------------------------------

  /** `start + step * i`. */
  function Offset(start: real, step: real, i: nat): real {
    start + step * i as real
  }

  /** Whether a line runs along x (`p1.x !== p2.x`). */
  predicate AlongX(line: Utils.Line) {
    line.p1.x != line.p2.x
  }

  function LineLength(line: Utils.Line): real {
    if AlongX(line) then line.p2.x - line.p1.x else line.p2.y - line.p1.y
  }

  /** How many points a line is resampled into: `i` runs from 1 below `ceil(length / step)`. */
  function SampleCount(line: Utils.Line, step: real): nat
    requires step > 0.0
  {
    var n := Ceil(LineLength(line) / step) - 1;
    if n <= 0 then 0 else n
  }

  /** Sample `i` of a line, clamped at the end point. */
  function Sample(line: Utils.Line, step: real, i: nat): Point {
    if AlongX(line) then
      var x := Offset(line.p1.x, step, i);
      Point(if x < line.p2.x then x else line.p2.x, line.p1.y)
    else
      var y := Offset(line.p1.y, step, i);
      Point(line.p1.x, if y < line.p2.y then y else line.p2.y)
  }

  /** The inner loop of `#createTrailPoints` for one line. */
  function Resample(line: Utils.Line, step: real): (pts: seq<Point>)
    requires step > 0.0
    ensures |pts| == SampleCount(line, step)
    ensures forall k | 0 <= k < |pts| :: pts[k] == Sample(line, step, k + 1)
  {
    seq(SampleCount(line, step), k requires 0 <= k < SampleCount(line, step) => Sample(line, step, k + 1))
  }

  /** Every sample lies strictly between the line's end points, on the line: `i` stays below
      `length / step`, so the clamp at the end point never bites. */
  lemma SampleBetween(line: Utils.Line, step: real, i: nat)
    requires step > 0.0 && 1 <= i <= SampleCount(line, step)
    ensures AlongX(line) ==> Sample(line, step, i) == Point(Offset(line.p1.x, step, i), line.p1.y) &&
                             line.p1.x < Sample(line, step, i).x < line.p2.x
    ensures !AlongX(line) ==> Sample(line, step, i) == Point(line.p1.x, Offset(line.p1.y, step, i)) &&
                              line.p1.y < Sample(line, step, i).y < line.p2.y
  {
    var q := LineLength(line) / step;
    assert i as real < q;
    BelowLength(LineLength(line), step, i);
  }

  /** `i < length / step` means `step * i < length`. */
  lemma BelowLength(length: real, step: real, i: nat)
    requires step > 0.0 && 1 <= i && i as real < length / step
    ensures 0.0 < step * i as real < length
  {
    var q := length / step;
    assert q * step == length;
    assert step * i as real < step * q;
  }

  /** All lines' samples, in order. */
  function SamplesOf(lines: seq<Utils.Line>, step: real): seq<Point>
    requires step > 0.0
    decreases |lines|
  {
    if lines == [] then [] else Resample(lines[0], step) + SamplesOf(lines[1..], step)
  }

  /** `#getTrailWidth(i)`: the width of trail line `i` of `count`, tapering from
      `minTrailWidth * trailWidth` towards the full width at the newest line. */
  function TrailWidth(i: nat, count: nat, trailWidth: real, minTrailWidth: real): real
    requires count > 0
  {
    trailWidth * ((((i + 1) as real / count as real) * (1.0 - minTrailWidth)) + minTrailWidth)
  }

  /** The newest line is drawn at the full trail width. */
  lemma TrailWidthNewest(count: nat, trailWidth: real, minTrailWidth: real)
    requires count > 0
    ensures TrailWidth(count - 1, count, trailWidth, minTrailWidth) == trailWidth
  {
    assert (count - 1 + 1) as real / count as real == 1.0;
  }

  /** A `FireTrail`: its path, the lines it draws and its drawing properties. */
  datatype FireTrail = FireTrail(tracer: Tracer, trailLines: seq<Utils.Line>, trailBlurness: real,
                                 trailWidth: real, minTrailWidth: real, lineResolution: real)

  /** The constructor; a missing option takes its default (hue 60 is drawing-only, 20 points,
      blur 2, width 12, tail 0.3, resolution 5). The recorded point is a quarter of the player's
      size ahead of its corner. */
  function NewFireTrail(m: Mover, maxPoints: Option<int>, trailBlurness: Option<real>,
                        trailWidth: Option<real>, minTrailWidth: Option<real>,
                        lineResolution: Option<real>): (f: FireTrail)
    requires maxPoints.GetOr(20) >= 1
    ensures ValidTracer(f.tracer) && f.trailLines == []
    ensures f.tracer.pointOffset == Point(m.size * 0.25, m.size * 0.25)
    ensures f.tracer.maxPoints == maxPoints.GetOr(20) && f.trailWidth == trailWidth.GetOr(12.0)
    ensures f.minTrailWidth == minTrailWidth.GetOr(0.3) && f.lineResolution == lineResolution.GetOr(5.0)
  {
    FireTrail(NewTracer(m, maxPoints.GetOr(20), Point(m.size * 0.25, m.size * 0.25)), [],
              trailBlurness.GetOr(2.0), trailWidth.GetOr(12.0), minTrailWidth.GetOr(0.3),
              lineResolution.GetOr(5.0))
  }

  /** `FireTrail.update`: the tracer's update, then the simplified path resampled every
      `lineResolution` along each of its lines, joined into the lines to draw. */
  method UpdateFireTrail(f: FireTrail, deltaTime: real, m: Mover) returns (r: FireTrail, corners: seq<Point>)
    requires ValidTracer(f.tracer) && f.lineResolution > 0.0
    ensures r.tracer == UpdateTracer(f.tracer, deltaTime, m)
    ensures corners == Simplified(r.tracer.points)
    ensures |corners| >= 1 && corners[0] == r.tracer.points[0]
    ensures corners[|corners| - 1] == r.tracer.points[|r.tracer.points| - 1]
    ensures var samples := SamplesOf(Lines(corners), f.lineResolution);
            |r.trailLines| == (if |samples| == 0 then 0 else |samples| - 1) &&
            forall k | 0 <= k < |r.trailLines| :: r.trailLines[k] == Utils.Line(samples[k], samples[k + 1])
    ensures r.lineResolution == f.lineResolution && r.trailWidth == f.trailWidth
  {
    var tracer := UpdateTracer(f.tracer, deltaTime, m);
    var lines;
    corners, lines := CornerLines(tracer.points);
    var samples := SamplesOf(lines, f.lineResolution);
    var trailLines := Utils.ConsecutiveLines(samples);
    r := f.(tracer := tracer, trailLines := trailLines);
  }

  /** `createConsecutiveLines` as a function. */
  function Lines(points: seq<Point>): (lines: seq<Utils.Line>)
    ensures |lines| == if |points| == 0 then 0 else |points| - 1
    ensures forall i | 0 <= i < |lines| :: lines[i] == Utils.Line(points[i], points[i + 1])
  {
    if |points| <= 1 then []
    else seq(|points| - 1, i requires 0 <= i < |points| - 1 => Utils.Line(points[i], points[i + 1]))
  }

  /** A `GoldenTrail`: its path and the lines it draws. */
  datatype GoldenTrail = GoldenTrail(tracer: Tracer, trailLines: seq<Utils.Line>, trailHue: real,
                                     trailBlurness: real, trailWidth: real)

  /** The constructor; a missing option takes set-up 2 of `setUps`: hue 60, 15 points, no blur,
      width 15. The recorded point has no offset. */
  function NewGoldenTrail(m: Mover, trailHue: Option<real>, maxPoints: Option<int>,
                          trailBlurness: Option<real>, trailWidth: Option<real>): (g: GoldenTrail)
    requires maxPoints.GetOr(15) >= 1
    ensures ValidTracer(g.tracer) && g.trailLines == [] && g.tracer.pointOffset == Point(0.0, 0.0)
    ensures g.trailHue == trailHue.GetOr(60.0) && g.tracer.maxPoints == maxPoints.GetOr(15)
    ensures g.trailBlurness == trailBlurness.GetOr(0.0) && g.trailWidth == trailWidth.GetOr(15.0)
  {
    GoldenTrail(NewTracer(m, maxPoints.GetOr(15), Point(0.0, 0.0)), [], trailHue.GetOr(60.0),
                trailBlurness.GetOr(0.0), trailWidth.GetOr(15.0))
  }

  /** `GoldenTrail.update`: the tracer's update, then the lines of the simplified path. */
  method UpdateGoldenTrail(g: GoldenTrail, deltaTime: real, m: Mover) returns (r: GoldenTrail, corners: seq<Point>)
    requires ValidTracer(g.tracer)
    ensures r.tracer == UpdateTracer(g.tracer, deltaTime, m)
    ensures |corners| >= 1 && corners[0] == r.tracer.points[0]
    ensures corners[|corners| - 1] == r.tracer.points[|r.tracer.points| - 1]
    ensures corners == Simplified(r.tracer.points)
    ensures forall c | c in corners :: c in r.tracer.points
    ensures r.trailLines == Lines(corners)
  {
    var tracer := UpdateTracer(g.tracer, deltaTime, m);
    var lines;
    corners, lines := CornerLines(tracer.points);
    r := g.(tracer := tracer, trailLines := lines);
  }

  /** The simplified path of `points` and the lines joining its corners. */
  method CornerLines(points: seq<Point>) returns (corners: seq<Point>, lines: seq<Utils.Line>)
    requires |points| >= 1
    ensures corners == Simplified(points)
    ensures |corners| >= 1 && corners[0] == points[0] && corners[|corners| - 1] == points[|points| - 1]
    ensures forall c | c in corners :: c in points
    ensures lines == Lines(corners)
  {
    corners := SimplifyPath(points);
    lines := Utils.ConsecutiveLines(corners);
  }

  // ---------------------------------------------------------------------------------------------
  // Rect_Tracer
  // ---------------------------------------------------------------------------------------------

  const RectMaxPoints: nat := 30
  const RectInterval: real := 20.0
  const TrailThickness: real := 5.0

  /** A `GlowRectangle`, fading by `0.98 ** loopFactor` per frame. */
  datatype Glow = Glow(x: real, y: real, hue: real, width: real, height: real, alpha: real)

  datatype RectTracer = RectTracer(points: seq<Glow>, timer: real)

  /** The constructor: no glow rectangles yet and the timer at zero, so the bound holds. */
  function NewRectTracer(): (rt: RectTracer)
    ensures rt.points == [] && rt.timer == 0.0
    ensures |rt.points| <= RectMaxPoints
  {
    RectTracer([], 0.0)
  }

  /** Rectangle `i` of a spawn: a `baseSpeed * loopFactor` long strip `i` strips behind the
      player along its axis of motion, `trailThickness` across. */
  function GlowAt(m: Mover, loopFactor: real, i: nat): Glow {
    var movingX := m.speedX > 0.0;
    Glow(m.x - (if movingX then m.baseSpeed * i as real * loopFactor else TrailThickness * 0.5),
         m.y - (if !movingX then m.baseSpeed * i as real * loopFactor else TrailThickness * 0.5),
         60.0,
         if movingX then m.baseSpeed * loopFactor else TrailThickness,
         if !movingX then m.baseSpeed * loopFactor else TrailThickness,
         1.0)
  }

  /** Keep the first `n` elements (`points.length = n`). */
  function Truncate(s: seq<Glow>, n: nat): (r: seq<Glow>)
    ensures |r| <= n && |r| <= |s| && r == s[..|r|]
    ensures |s| <= n ==> r == s
  {
    if |s| > n then s[..n] else s
  }

  predicate RecordsGlow(rt: RectTracer, deltaTime: real) {
    |rt.points| <= RectMaxPoints && rt.timer + deltaTime >= RectInterval
  }

  /** The spawning half of `Rect_Tracer.update`: `#addPoint` unshifts rectangles 0 and 1 (so 1
      ends up first), then the list is cut to `maxPoints`. */
  function Placed(rt: RectTracer, deltaTime: real, loopFactor: real, m: Mover): (s: seq<Glow>)
  {
    if RecordsGlow(rt, deltaTime)
    then Truncate([GlowAt(m, loopFactor, 1), GlowAt(m, loopFactor, 0)] + rt.points, RectMaxPoints)
    else rt.points
  }

  /** `Rect_Tracer.update`: place, restart the timer on a spawn, then fade every rectangle by
      `0.98 ** loopFactor`. */
  function UpdateRectTracer(rt: RectTracer, deltaTime: real, loopFactor: real, pow: Power,
                            m: Mover): (r: RectTracer)
    ensures |r.points| == |Placed(rt, deltaTime, loopFactor, m)|
    ensures forall k | 0 <= k < |r.points| ::
              r.points[k] == Placed(rt, deltaTime, loopFactor, m)[k].(alpha := r.points[k].alpha)
    ensures forall k | 0 <= k < |r.points| ::
              r.points[k].alpha == Placed(rt, deltaTime, loopFactor, m)[k].alpha * pow(0.98, loopFactor)
    ensures RecordsGlow(rt, deltaTime) ==> r.timer == 0.0
    ensures !RecordsGlow(rt, deltaTime) ==> r.timer == rt.timer + deltaTime
  {
    var placed := Placed(rt, deltaTime, loopFactor, m);
    var faded := seq(|placed|, k requires 0 <= k < |placed| =>
                       placed[k].(alpha := placed[k].alpha * pow(0.98, loopFactor)));
    RectTracer(faded, if RecordsGlow(rt, deltaTime) then 0.0 else rt.timer + deltaTime)
  }

  /** The list never holds more than `maxPoints` rectangles. */
  lemma RectTracerBounded(rt: RectTracer, deltaTime: real, loopFactor: real, pow: Power, m: Mover)
    requires |rt.points| <= RectMaxPoints
    ensures |UpdateRectTracer(rt, deltaTime, loopFactor, pow, m).points| <= RectMaxPoints
  {
  }

  /** A spawn puts the two new rectangles in front, farther one first, and keeps the older
      ones behind them in order, minus any cut off at the end. */
  lemma PlacedPrepends(rt: RectTracer, deltaTime: real, loopFactor: real, m: Mover)
    requires RecordsGlow(rt, deltaTime)
    ensures var s := Placed(rt, deltaTime, loopFactor, m);
            2 <= |s| <= |rt.points| + 2 && s[0] == GlowAt(m, loopFactor, 1) && s[1] == GlowAt(m, loopFactor, 0) &&
            s[2..] == rt.points[..|s| - 2]
  {
    var all := [GlowAt(m, loopFactor, 1), GlowAt(m, loopFactor, 0)] + rt.points;
    var s := Placed(rt, deltaTime, loopFactor, m);
    assert s == all[..|s|];
    assert all[2..] == rt.points;
  }
}
