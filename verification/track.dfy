/** The track of js/track.js: an endless zig-zag of overlapping segments, generated ahead of the
    player, styled by the distance milestone reached so far, and culled once far behind. The
    `Math.random()` draw behind each segment's length is a parameter. */
module Tracks {
  import opened Geometry
  import opened Wrappers
  import opened Seqs
  import opened Rectangles
  import Powers

  /** The per-milestone styles; entry `k` is used once `k` milestones are behind. */
  const TrackHues: seq<real> := [197.0, 344.0, 160.0, 35.0, 330.0, 180.0]
  const BorderHues: seq<string> := ["skyblue", "crimson", "lightgreen", "hsl(30, 100%, 75%)",
                                    "hsl(330, 100%, 70%)", "hsl(175, 100%, 40%)"]
  const GradientTypesIndex: seq<nat> := [0, 0, 0, 1, 1, 0]
  const GradientTypes: seq<GradientStyle> := [DarkToDarkest, Dark35ToDarkest]

  /** `distanceMilestone`: the distances, in units of 100 pixels, that earn a star. */
  const DistanceMilestone: seq<real> := [200.0, 500.0, 1000.0, 1500.0, 2000.0]

  /** The style a new segment takes. */
  datatype SegmentStyle = SegmentStyle(hue: real, border: string, gradient: GradientStyle)

  /** A `Track`: segment width, player size, the live segments, how many to keep alive, the
      index of the next segment, the difficulty pair, the generation cursor `(trackX, trackY)`,
      the milestone index and whether milestones are checked, and the power-up handler. */
  datatype Track = Track(width: real, playerSize: real, rects: seq<Rect>, maxTrackRectsGen: int,
                         currentRectIndex: nat, difficulty: real, maxDifficulty: real,
                         trackX: real, trackY: real, milestoneIndex: nat,
                         checkMilestones: bool, powers: Powers.PowerUps)

  /** The state every operation keeps: a positive width and a milestone index that selects one
      of the six styles. */
  predicate Valid(t: Track) {
    t.width > 0.0 && t.milestoneIndex <= |DistanceMilestone|
  }

  /** `Math.floor(innerHeight / width) * 2`: an even, non-negative number of segments. */
  function MaxRectsGen(innerHeight: nat, width: real): (n: int)
    requires width > 0.0
    ensures n >= 0 && n % 2 == 0
  {
    var q := innerHeight as real / width;
    assert q >= 0.0;
    q.Floor * 2
  }

  function StyleAt(milestoneIndex: nat): (s: SegmentStyle)
    requires milestoneIndex <= |DistanceMilestone|
  {
    SegmentStyle(TrackHues[milestoneIndex], BorderHues[milestoneIndex],
                 GradientTypes[GradientTypesIndex[milestoneIndex]])
  }

  /** `#getTrackLength` for the draw `Math.random()`. */
  function TrackLength(t: Track, draw: real): real {
    t.width * (2.0 + draw * t.difficulty + (t.maxDifficulty - t.difficulty))
  }

  /** For a draw in `[0, 1)` the length lies in `[width * (2 + max - difficulty),
      width * (2 + max))`: `[3 * width, 5 * width)` for the built-in difficulty 2 of 3. */
  lemma TrackLengthBounds(t: Track, draw: real)
    requires t.width > 0.0 && t.difficulty > 0.0 && 0.0 <= draw < 1.0
    ensures t.width * (2.0 + t.maxDifficulty - t.difficulty) <= TrackLength(t, draw)
    ensures TrackLength(t, draw) < t.width * (2.0 + t.maxDifficulty)
  {
    var spread := draw * t.difficulty;
    assert 0.0 <= spread < t.difficulty by {
      assert draw * t.difficulty < 1.0 * t.difficulty;
    }
    var low, high := 2.0 + t.maxDifficulty - t.difficulty, 2.0 + t.maxDifficulty;
    assert low <= low + spread < high;
    MulLeft(t.width, low, low + spread);
    MulLeftStrict(t.width, low + spread, high);
  }

  lemma MulLeft(w: real, a: real, b: real)
    requires w > 0.0 && a <= b
    ensures w * a <= w * b
  {
  }

  lemma MulLeftStrict(w: real, a: real, b: real)
    requires w > 0.0 && a < b
    ensures w * a < w * b
  {
  }

  /** Whether, with the cursor where `t` has it, the next milestone counts as reached. */
  predicate MilestoneReached(t: Track, startDistance: real)
    requires t.milestoneIndex <= |DistanceMilestone|
  {
    t.checkMilestones && t.milestoneIndex < |DistanceMilestone| &&
    ((t.trackX + t.trackY) - startDistance) * 0.01 >= DistanceMilestone[t.milestoneIndex]
  }

  /** `#addRect`: an even-numbered segment runs right (`length` wide, `width` high), an odd one
      runs down (`width` wide, `length` high); both start at the cursor and move it along by
      `length - playerSize`, so the next segment overlaps this one by the player's size. The
      player's `startDistance` is read only when milestones are checked. */
  function AddRect(t: Track, draw: real, startDistance: real): (r: Track)
    requires Valid(t)
    ensures Valid(r)
    ensures |r.rects| == |t.rects| + 1 && r.rects[..|t.rects|] == t.rects
    ensures r.currentRectIndex == t.currentRectIndex + 1
    ensures Origin(r.rects[|t.rects|]) == Point(t.trackX, t.trackY)
    ensures var s := StyleAt(t.milestoneIndex);
            var added := r.rects[|t.rects|];
            added.colorHue == s.hue && added.strokeColor == Some(s.border) &&
            added.gradientStyle == s.gradient && !added.offScreen
    ensures t.currentRectIndex % 2 == 0 ==>
              r.rects[|t.rects|].width == TrackLength(t, draw) && r.rects[|t.rects|].height == t.width &&
              r.trackX == t.trackX + TrackLength(t, draw) - t.playerSize && r.trackY == t.trackY
    ensures t.currentRectIndex % 2 == 1 ==>
              r.rects[|t.rects|].width == t.width && r.rects[|t.rects|].height == TrackLength(t, draw) &&
              r.trackX == t.trackX && r.trackY == t.trackY + TrackLength(t, draw) - t.playerSize
    ensures t.milestoneIndex <= r.milestoneIndex <= t.milestoneIndex + 1
    ensures r.milestoneIndex == t.milestoneIndex + 1 <==> MilestoneReached(r.(milestoneIndex := t.milestoneIndex), startDistance)
    ensures r.(rects := t.rects, currentRectIndex := t.currentRectIndex, trackX := t.trackX,
               trackY := t.trackY, milestoneIndex := t.milestoneIndex) == t
  {
    var length := TrackLength(t, draw);
    var style := StyleAt(t.milestoneIndex);
    var across := t.currentRectIndex % 2 == 0;
    var rect := NewRect(t.trackX, t.trackY, if across then length else t.width,
                        if across then t.width else length,
                        Some(style.hue), Some(style.border), Some(style.gradient));
    var moved := t.(rects := t.rects + [rect],
                    trackX := if across then t.trackX + length - t.playerSize else t.trackX,
                    trackY := if across then t.trackY else t.trackY + length - t.playerSize,
                    currentRectIndex := t.currentRectIndex + 1);
    if MilestoneReached(moved, startDistance) then moved.(milestoneIndex := moved.milestoneIndex + 1)
    else moved
  }

  /** `#generateTrack`'s loop: one segment per draw, milestones still unchecked. */
  function Generate(t: Track, draws: seq<real>): (r: Track)
    requires Valid(t) && !t.checkMilestones
    ensures Valid(r) && !r.checkMilestones
    ensures |r.rects| == |t.rects| + |draws| && r.rects[..|t.rects|] == t.rects
    ensures r.currentRectIndex == t.currentRectIndex + |draws|
    ensures r.milestoneIndex == t.milestoneIndex && r.width == t.width
    ensures r.playerSize == t.playerSize && r.difficulty == t.difficulty
    ensures r.maxDifficulty == t.maxDifficulty && r.maxTrackRectsGen == t.maxTrackRectsGen
    ensures r.powers == t.powers
    decreases |draws|
  {
    if draws == [] then t
    else
      var next := AddRect(t, draws[0], 0.0);
      var r := Generate(next, draws[1..]);
      assert r.rects[..|t.rects|] == next.rects[..|next.rects|][..|t.rects|];
      r
  }

  /** The constructor: `maxTrackRectsGen` segments from the origin at difficulty 2 of 3 with
      milestone 1, then milestone checks switched on. It takes one draw per segment; a
      non-positive width makes the generation loop in the source unbounded or empty. */
  function NewTrack(width: real, playerSize: real, innerHeight: nat, draws: seq<real>): (t: Track)
    requires width > 0.0 && |draws| == MaxRectsGen(innerHeight, width)
    ensures Valid(t) && t.checkMilestones && t.milestoneIndex == 1
    ensures |t.rects| == MaxRectsGen(innerHeight, width) == t.maxTrackRectsGen
    ensures t.currentRectIndex == |t.rects|
    ensures t.width == width && t.playerSize == playerSize
    ensures t.difficulty == 2.0 && t.maxDifficulty == 3.0
    ensures Powers.Valid(t.powers) && t.powers.powers == []
  {
    var empty := Track(width, playerSize, [], MaxRectsGen(innerHeight, width), 0, 2.0, 3.0,
                       0.0, 0.0, 1, false, Powers.NewPowerUps());
    Generate(empty, draws).(checkMilestones := true)
  }

  /** Closed containment of a point in a segment. */
  predicate Touches(r: Rect, p: Point) {
    Covers(Bounds(r), p)
  }

  /** Each segment starts on the previous one: the track is one connected path. */
  predicate Linked(rects: seq<Rect>) {
    forall k | 0 < k < |rects| :: Touches(rects[k - 1], Origin(rects[k]))
  }

  /** The path is linked and the cursor lies on its last segment. */
  predicate Chained(t: Track) {
    Linked(t.rects) && (|t.rects| > 0 ==> Touches(t.rects[|t.rects| - 1], Point(t.trackX, t.trackY)))
  }

  /** A segment no shorter than the player keeps the track connected. */
  lemma AddRectLinks(t: Track, draw: real, startDistance: real)
    requires Valid(t) && Chained(t) && 0.0 <= t.playerSize <= TrackLength(t, draw)
    ensures Chained(AddRect(t, draw, startDistance))
  {
    var r := AddRect(t, draw, startDistance);
    assert forall k | 0 <= k < |t.rects| :: r.rects[k] == t.rects[k] by {
      forall k | 0 <= k < |t.rects| ensures r.rects[k] == t.rects[k] {
        assert r.rects[..|t.rects|][k] == r.rects[k];
      }
    }
  }

  /** With a player no longer than three widths, every length drawn at the built-in difficulty
      is at least the player's size. */
  lemma LengthFitsPlayer(t: Track, draw: real)
    requires t.width > 0.0 && t.difficulty == 2.0 && t.maxDifficulty == 3.0 && 0.0 <= draw < 1.0
    requires 0.0 <= t.playerSize <= 3.0 * t.width
    ensures t.playerSize <= TrackLength(t, draw)
  {
    TrackLengthBounds(t, draw);
  }

  /** Each draw in `[0, 1)`. */
  predicate Draws(draws: seq<real>) {
    forall k | 0 <= k < |draws| :: 0.0 <= draws[k] < 1.0
  }

  lemma {:induction false} GenerateLinks(t: Track, draws: seq<real>)
    requires Valid(t) && !t.checkMilestones && Chained(t) && Draws(draws)
    requires t.difficulty == 2.0 && t.maxDifficulty == 3.0 && 0.0 <= t.playerSize <= 3.0 * t.width
    ensures Chained(Generate(t, draws))
    decreases |draws|
  {
    if draws != [] {
      LengthFitsPlayer(t, draws[0]);
      AddRectLinks(t, draws[0], 0.0);
      GenerateLinks(AddRect(t, draws[0], 0.0), draws[1..]);
    }
  }

  /** A freshly built track is one connected path, for a player no longer than three widths. */
  lemma NewTrackLinked(width: real, playerSize: real, innerHeight: nat, draws: seq<real>)
    requires width > 0.0 && |draws| == MaxRectsGen(innerHeight, width) && Draws(draws)
    requires 0.0 <= playerSize <= 3.0 * width
    ensures Linked(NewTrack(width, playerSize, innerHeight, draws).rects)
  {
    var empty := Track(width, playerSize, [], MaxRectsGen(innerHeight, width), 0, 2.0, 3.0,
                       0.0, 0.0, 1, false, Powers.NewPowerUps());
    GenerateLinks(empty, draws);
  }

  /** Segments alternate: even positions run right (their height is the track width), odd
      positions run down (their width is the track width). */
  predicate Alternates(rects: seq<Rect>, width: real) {
    forall k | 0 <= k < |rects| ::
      (k % 2 == 0 ==> rects[k].height == width) && (k % 2 == 1 ==> rects[k].width == width)
  }

  lemma {:induction false} GenerateAlternates(t: Track, draws: seq<real>)
    requires Valid(t) && !t.checkMilestones
    requires t.currentRectIndex == |t.rects| && Alternates(t.rects, t.width)
    ensures Alternates(Generate(t, draws).rects, t.width)
    decreases |draws|
  {
    if draws != [] {
      var next := AddRect(t, draws[0], 0.0);
      assert forall k | 0 <= k < |t.rects| :: next.rects[k] == t.rects[k] by {
        forall k | 0 <= k < |t.rects| ensures next.rects[k] == t.rects[k] {
          assert next.rects[..|t.rects|][k] == next.rects[k];
        }
      }
      GenerateAlternates(next, draws[1..]);
    }
  }

  /** A freshly built track alternates right and down, starting to the right. */
  lemma NewTrackAlternates(width: real, playerSize: real, innerHeight: nat, draws: seq<real>)
    requires width > 0.0 && |draws| == MaxRectsGen(innerHeight, width)
    ensures Alternates(NewTrack(width, playerSize, innerHeight, draws).rects, width)
  {
    var empty := Track(width, playerSize, [], MaxRectsGen(innerHeight, width), 0, 2.0, 3.0,
                       0.0, 0.0, 1, false, Powers.NewPowerUps());
    GenerateAlternates(empty, draws);
  }

  /** `resize`: the segment budget follows the window height. */
  function Resize(t: Track, innerHeight: nat): (r: Track)
    requires Valid(t)
    ensures Valid(r) && r.maxTrackRectsGen == MaxRectsGen(innerHeight, t.width)
    ensures r.(maxTrackRectsGen := t.maxTrackRectsGen) == t
  {
    t.(maxTrackRectsGen := MaxRectsGen(innerHeight, t.width))
  }

  /** A segment is evicted when it lies more than a screen width behind the player in x, or
      more than a screen height behind in y. */
  predicate Behind(r: Rect, player: Point, offscreen: Box) {
    player.x - (r.x + r.width) > offscreen.w || player.y - (r.y + r.height) > offscreen.h
  }

  /** `update`'s first loop: mark every segment that is behind. */
  function MarkOffscreen(rects: seq<Rect>, player: Point, offscreen: Box): (m: seq<Rect>)
    ensures |m| == |rects|
    decreases |rects|
  {
    if rects == [] then []
    else
      var r := rects[0];
      [if Behind(r, player, offscreen) then r.(offScreen := true) else r] +
      MarkOffscreen(rects[1..], player, offscreen)
  }

  function OnScreen(r: Rect): bool {
    !r.offScreen
  }

  /** The segments a player at `player` keeps. */
  function Evict(rects: seq<Rect>, player: Point, offscreen: Box): seq<Rect> {
    Filter(MarkOffscreen(rects, player, offscreen), OnScreen)
  }

  function Stays(player: Point, offscreen: Box): Rect -> bool {
    (r: Rect) => !r.offScreen && !Behind(r, player, offscreen)
  }

  /** Marking and then dropping the marked is the filter "not marked before, and not behind":
      exactly the segments behind on either axis go, and the rest keep their order. */
  lemma {:induction false} EvictIsFilter(rects: seq<Rect>, player: Point, offscreen: Box)
    ensures Evict(rects, player, offscreen) == Filter(rects, Stays(player, offscreen))
    decreases |rects|
  {
    if rects != [] {
      var marked := MarkOffscreen(rects, player, offscreen);
      assert marked[1..] == MarkOffscreen(rects[1..], player, offscreen);
      EvictIsFilter(rects[1..], player, offscreen);
    }
  }

  /** A segment survives eviction exactly when it was not marked and is not behind. */
  lemma EvictExactly(rects: seq<Rect>, player: Point, offscreen: Box, r: Rect)
    ensures r in Evict(rects, player, offscreen) <==>
            r in rects && !r.offScreen && !Behind(r, player, offscreen)
  {
    EvictIsFilter(rects, player, offscreen);
    if r in rects && !r.offScreen && !Behind(r, player, offscreen) {
      FilterKeeps(rects, Stays(player, offscreen), r);
    }
  }

  /** `update(deltaTime, playerPos)`: evict, then add one segment if fewer than
      `maxTrackRectsGen` are left (using `draw` for its length), then tick the power-ups. */
  function Update(t: Track, deltaTime: real, player: Point, offscreen: Box, draw: real,
                  startDistance: real): (r: Track)
    requires Valid(t)
    ensures Valid(r)
    ensures var kept := Evict(t.rects, player, offscreen);
            |kept| <= |r.rects| && r.rects[..|kept|] == kept &&
            (|kept| < t.maxTrackRectsGen ==> |r.rects| == |kept| + 1) &&
            (|kept| >= t.maxTrackRectsGen ==> r.rects == kept)
    ensures t.milestoneIndex <= r.milestoneIndex <= t.milestoneIndex + 1
    ensures r.powers == Powers.Update(t.powers, deltaTime)
    ensures r.maxTrackRectsGen == t.maxTrackRectsGen && r.width == t.width
    ensures var kept := Evict(t.rects, player, offscreen);
            |kept| < t.maxTrackRectsGen ==>
              r.(powers := t.powers) == AddRect(t.(rects := kept), draw, startDistance)
    ensures var kept := Evict(t.rects, player, offscreen);
            |kept| >= t.maxTrackRectsGen ==> r == t.(rects := kept, powers := r.powers)
  {
    var kept := Evict(t.rects, player, offscreen);
    var culled := t.(rects := kept);
    var refilled := if |kept| < t.maxTrackRectsGen then AddRect(culled, draw, startDistance) else culled;
    refilled.(powers := Powers.Update(t.powers, deltaTime))
  }

  /** When eviction drops only the oldest segments, an update keeps the track connected: the
      survivors are still linked and end at the cursor, and the refill starts there. */
  lemma UpdateKeepsChained(t: Track, deltaTime: real, player: Point, offscreen: Box, draw: real,
                           startDistance: real, n: nat)
    requires Valid(t) && Chained(t) && 0.0 <= t.playerSize <= TrackLength(t, draw)
    requires n <= |t.rects| && Evict(t.rects, player, offscreen) == t.rects[n..]
    ensures Chained(Update(t, deltaTime, player, offscreen, draw, startDistance))
  {
    var culled := t.(rects := t.rects[n..]);
    LinkedSuffix(t.rects, n);
    assert Chained(culled);
    if |culled.rects| < t.maxTrackRectsGen {
      assert TrackLength(culled, draw) == TrackLength(t, draw);
      AddRectLinks(culled, draw, startDistance);
    }
  }

  /** Dropping the oldest segments keeps a path linked. */
  lemma LinkedSuffix(rects: seq<Rect>, n: nat)
    requires n <= |rects| && Linked(rects)
    ensures Linked(rects[n..])
  {
    var rest := rects[n..];
    forall k | 0 < k < |rest|
      ensures Touches(rest[k - 1], Origin(rest[k]))
    {
      assert rest[k - 1] == rects[n + k - 1];
    }
  }

  /** An update never adds more than one segment. */
  lemma UpdateAddsAtMostOne(t: Track, deltaTime: real, player: Point, offscreen: Box,
                            draw: real, startDistance: real)
    requires Valid(t)
    ensures |Update(t, deltaTime, player, offscreen, draw, startDistance).rects| <= |t.rects| + 1
  {
    var kept := Evict(t.rects, player, offscreen);
    assert |kept| <= |MarkOffscreen(t.rects, player, offscreen)|;
  }
}
