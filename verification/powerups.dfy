/** The power-up handler of js/powerups.js: a timer that wraps every 100 ms and the placement of a
    power-up on a random track segment. The spawn call in `update` is commented out in the game,
    so `update` never places one; `AddPowerUp` models the placement on its own. */
module Powers {
  import opened Geometry
  import opened Wrappers
  import opened Rectangles

  /** `timeInterval`. */
  const TimeInterval: real := 100.0

  /** Side of a power-up square. */
  const PowerUpSize: real := 20.0

  datatype PowerUps = PowerUps(timer: real, powers: seq<Rect>)

  /** The timer never reaches the interval between updates. */
  predicate Valid(p: PowerUps) {
    p.timer < TimeInterval
  }

  function NewPowerUps(): (p: PowerUps)
    ensures Valid(p) && p.powers == []
  {
    PowerUps(0.0, [])
  }

  /** `update(deltaTime)`: the timer accumulates and restarts from 0 once it reaches the
      interval; the power-ups are left alone. */
  function Update(p: PowerUps, deltaTime: real): (r: PowerUps)
    ensures Valid(r) && r.powers == p.powers
    ensures p.timer + deltaTime < TimeInterval ==> r.timer == p.timer + deltaTime
    ensures p.timer + deltaTime >= TimeInterval ==> r.timer == 0.0
  {
    var timer := p.timer + deltaTime;
    if timer >= TimeInterval then p.(timer := 0.0) else p.(timer := timer)
  }

  /** Over any run of updates the power-ups never change and the timer stays below the
      interval. */
  lemma {:induction false} UpdatesKeepPowers(p: PowerUps, deltas: seq<real>)
    ensures UpdateAll(p, deltas).powers == p.powers
    ensures deltas != [] ==> Valid(UpdateAll(p, deltas))
    decreases |deltas|
  {
    if deltas != [] {
      UpdatesKeepPowers(Update(p, deltas[0]), deltas[1..]);
    }
  }

  function UpdateAll(p: PowerUps, deltas: seq<real>): PowerUps
    decreases |deltas|
  {
    if deltas == [] then p else UpdateAll(Update(p, deltas[0]), deltas[1..])
  }

  /** The segment index `min(floor(draw * count) + 5, count - 1)` for a draw in `[0, 1)`. */
  function SpawnIndex(count: nat, draw: real): (k: nat)
    requires count > 0 && 0.0 <= draw < 1.0
    ensures k < count
    ensures k == count - 1 || k == (draw * count as real).Floor + 5
    ensures k <= (draw * count as real).Floor + 5 && (k == count - 1 || k >= 5)
  {
    assert 0.0 <= draw * count as real;
    var skip := (draw * count as real).Floor + 5;
    if skip <= count - 1 then skip else count - 1
  }

  /** `start + draw * span`: a coordinate drawn uniformly from a span. */
  function Along(start: real, span: real, draw: real): real {
    start + draw * span
  }

  /** For a draw in `[0, 1)` and `span >= 0` the coordinate lies in `[start, start + span]`. */
  lemma Spread(start: real, span: real, draw: real)
    requires 0.0 <= draw < 1.0 && span >= 0.0
    ensures start <= Along(start, span, draw) <= start + span
  {
    assert draw * span <= 1.0 * span;
  }

  /** `#addPowerUpToMap`: on the chosen segment, a 20 x 20 power-up whose corner is drawn
      uniformly from the segment inset by half the player size. An empty track makes the
      source read a field of `undefined`. */
  function AddPowerUp(p: PowerUps, rects: seq<Rect>, playerSize: real,
                      indexDraw: real, xDraw: real, yDraw: real): (r: PowerUps)
    requires |rects| > 0 && 0.0 <= indexDraw < 1.0
    ensures r.timer == p.timer && |r.powers| == |p.powers| + 1 && r.powers[..|p.powers|] == p.powers
    ensures Bounds(r.powers[|p.powers|]).w == PowerUpSize && Bounds(r.powers[|p.powers|]).h == PowerUpSize
    ensures r.powers[|p.powers|].colorHue == 0.0 && !r.powers[|p.powers|].offScreen
    ensures Origin(r.powers[|p.powers|]) == Corner(rects[SpawnIndex(|rects|, indexDraw)], playerSize, xDraw, yDraw)
  {
    var corner := Corner(rects[SpawnIndex(|rects|, indexDraw)], playerSize, xDraw, yDraw);
    p.(powers := p.powers + [NewRect(corner.x, corner.y, PowerUpSize, PowerUpSize, Some(0.0), None, None)])
  }

  /** The corner drawn on `selected`: `half = playerSize * 0.5` in from the edge plus a draw
      times the width (height) less twice that margin. */
  function Corner(selected: Rect, playerSize: real, xDraw: real, yDraw: real): Point {
    var half := playerSize * 0.5;
    Point(Along(selected.x + half, selected.width - half * 2.0, xDraw),
          Along(selected.y + half, selected.height - half * 2.0, yDraw))
  }

  /** The drawn corner lies on the segment inset by half the player size, when the segment is
      at least as wide and as high as the player: so does every power-up `AddPowerUp` places. */
  lemma CornerInset(selected: Rect, playerSize: real, xDraw: real, yDraw: real)
    requires 0.0 <= xDraw < 1.0 && 0.0 <= yDraw < 1.0
    requires selected.width >= playerSize && selected.height >= playerSize
    ensures Covers(DrawPath(selected, playerSize * 0.5), Corner(selected, playerSize, xDraw, yDraw))
  {
    var half := playerSize * 0.5;
    Spread(selected.x + half, selected.width - half * 2.0, xDraw);
    Spread(selected.y + half, selected.height - half * 2.0, yDraw);
  }
}
