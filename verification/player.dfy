/** The player of js/player.js: the Space-key steering, the speed ramp, the distance score, the
    frame-rate counter and the rotation easing of the `Star` player. The collision check against
    the track and the trail effect's own update are not part of this module. */
module Players {
  import opened Geometry
  import opened Wrappers
  import Rectangles

  const StartMaxSpeed: int := 10
  const MaxedOutSpeed: int := 15
  const SpeedIncrease: int := 2
  /** `distanceMark`: the score distance between two raises of the top speed. */
  const DistanceMark: int := 500
  const UpdateFrameRateInterval: real := 500.0
  /** Per-frame growth base of `baseSpeed` while below the top speed. */
  const Acceleration: real := 1.0002

  /** Which subclass: `Ball` and `Star` only differ here in their default size and hue. */
  datatype Kind = BallPlayer | StarPlayer

  datatype Player = Player(x: real, y: real, size: real, start: bool, baseSpeed: real,
                           maxSpeed: int, speedX: real, speedY: real, startDistance: real,
                           distanceMarked: int, keyPressed: bool, iterations: nat,
                           timeElapsed: real, frameRate: int)

  function DefaultSize(kind: Kind): real {
    match kind
    case BallPlayer => 35.0
    case StarPlayer => 60.0
  }

  /** The constructor. Without a start position the player starts at the centre of the track's
      third segment's first `width x width` square, which the source reads without checking
      that it exists. */
  function NewPlayer(kind: Kind, rects: seq<Rectangles.Rect>, trackWidth: real,
                     baseSpeed: Option<real>, size: Option<real>, startPos: Option<Point>): (p: Player)
    requires startPos.None? ==> |rects| > 2
    ensures !p.start && !p.keyPressed && p.speedX == 0.0 && p.speedY == 0.0
    ensures p.maxSpeed == StartMaxSpeed && p.distanceMarked == 0
    ensures p.baseSpeed == baseSpeed.GetOr(5.0) && p.size == size.GetOr(DefaultSize(kind))
    ensures startPos.Some? ==> p.x == startPos.value.x && p.y == startPos.value.y
    ensures startPos.None? ==> p.x == rects[2].x + trackWidth * 0.5 && p.y == rects[2].y + trackWidth * 0.5
    ensures p.iterations == 0 && p.timeElapsed == 0.0 && p.frameRate == 0
    ensures DistanceCovered(p) == 0
  {
    var x := if startPos.Some? then startPos.value.x else rects[2].x + trackWidth * 0.5;
    var y := if startPos.Some? then startPos.value.y else rects[2].y + trackWidth * 0.5;
    Player(x, y, size.GetOr(DefaultSize(kind)), false, baseSpeed.GetOr(5.0), StartMaxSpeed, 0.0, 0.0,
           x + y, 0, false, 0, 0.0, 0)
  }

  /** `getDistanceCovered`: `Math.ceil((x + y - startDistance) * 0.01)`. */
  function DistanceCovered(p: Player): int {
    Ceil((p.x + p.y - p.startDistance) * 0.01)
  }

  /** A key press (`e.code`). Only an unrepeated Space does anything: it starts the run along x,
      and afterwards swaps each axis between stopped and `baseSpeed`. */
  function KeyDown(p: Player, code: string): (r: Player)
    ensures code != "Space" || p.keyPressed ==> r == p
    ensures code == "Space" && !p.keyPressed ==> r.keyPressed && r.start
    ensures code == "Space" && !p.keyPressed && !p.start ==>
              r.speedX == p.baseSpeed && r.speedY == p.speedY
    ensures code == "Space" && !p.keyPressed && p.start ==>
              r.speedX == (if p.speedX > 0.0 then 0.0 else p.baseSpeed) &&
              r.speedY == (if p.speedY > 0.0 then 0.0 else p.baseSpeed)
    ensures r.(speedX := p.speedX, speedY := p.speedY, start := p.start, keyPressed := p.keyPressed) == p
  {
    if code == "Space" && !p.keyPressed then
      if p.start then
        p.(keyPressed := true, speedX := if p.speedX > 0.0 then 0.0 else p.baseSpeed,
           speedY := if p.speedY > 0.0 then 0.0 else p.baseSpeed)
      else p.(keyPressed := true, speedX := p.baseSpeed, start := true)
    else p
  }

  /** The key-up listener: the next Space counts again. */
  function KeyUp(p: Player): (r: Player)
    ensures !r.keyPressed && r.(keyPressed := p.keyPressed) == p
  {
    p.(keyPressed := false)
  }

  /** Exactly one axis is moving. */
  predicate OneAxis(p: Player) {
    (p.speedX > 0.0) != (p.speedY > 0.0)
  }

  /** The first Space with a positive base speed makes the player move along x only, when it
      was standing still. */
  lemma FirstSpaceStartsAlongX(p: Player)
    requires !p.start && !p.keyPressed && p.baseSpeed > 0.0 && p.speedY == 0.0
    ensures OneAxis(KeyDown(p, "Space")) && KeyDown(p, "Space").speedX > 0.0
  {
  }

  /** Later Spaces turn the player: the moving axis stops and the stopped one takes up the
      base speed, so exactly one axis stays active. */
  lemma SpaceKeepsOneAxis(p: Player)
    requires p.start && !p.keyPressed && p.baseSpeed > 0.0 && OneAxis(p)
    ensures OneAxis(KeyDown(p, "Space"))
  {
  }

  /** Two Spaces with a key-up between them turn the player back, when both speeds were 0 or
      the base speed. */
  lemma SpaceTwiceRestores(p: Player)
    requires p.start && !p.keyPressed && p.baseSpeed > 0.0
    requires p.speedX == 0.0 || p.speedX == p.baseSpeed
    requires p.speedY == 0.0 || p.speedY == p.baseSpeed
    ensures KeyDown(KeyUp(KeyDown(p, "Space")), "Space") == p.(keyPressed := true)
  {
  }

  /** `Math.round`: the nearest integer, halves rounding up. */
  function Round(v: real): int {
    (v + 0.5).Floor
  }

  /** The frame-rate bookkeeping at the start of `update`: every 500 ms the rate becomes the
      frames counted per second and the count restarts; every call counts one frame. */
  function CountFrame(p: Player, deltaTime: real): (r: Player)
    ensures p.timeElapsed + deltaTime >= UpdateFrameRateInterval ==>
              r.frameRate == 2 * p.iterations && r.iterations == 1 &&
              r.timeElapsed == p.timeElapsed + deltaTime - UpdateFrameRateInterval
    ensures p.timeElapsed + deltaTime < UpdateFrameRateInterval ==>
              r.frameRate == p.frameRate && r.iterations == p.iterations + 1 &&
              r.timeElapsed == p.timeElapsed + deltaTime
    ensures r.(iterations := p.iterations, timeElapsed := p.timeElapsed, frameRate := p.frameRate) == p
  {
    var elapsed := p.timeElapsed + deltaTime;
    if elapsed >= UpdateFrameRateInterval then
      RoundDoubled(p.iterations);
      p.(frameRate := Round(p.iterations as real / (UpdateFrameRateInterval * 0.001)),
         timeElapsed := elapsed - UpdateFrameRateInterval, iterations := 1)
    else p.(timeElapsed := elapsed, iterations := p.iterations + 1)
  }

  /** Counting over half a second, `round(n / 0.5)` is exactly `2 n`. */
  lemma RoundDoubled(n: nat)
    ensures Round(n as real / (UpdateFrameRateInterval * 0.001)) == 2 * n
  {
    assert n as real / (UpdateFrameRateInterval * 0.001) == (2 * n) as real;
  }

  /** For a non-negative frame time the elapsed time stays below the interval plus one frame:
      each time the interval is reached it is subtracted once. */
  lemma CountFrameBounded(p: Player, deltaTime: real)
    requires 0.0 <= deltaTime && 0.0 <= p.timeElapsed < UpdateFrameRateInterval
    ensures 0.0 <= CountFrame(p, deltaTime).timeElapsed < UpdateFrameRateInterval + deltaTime
  {
  }

  /** The top-speed ramp after a move: once the score has grown by another `distanceMark`
      beyond the last mark, raise the top speed by 2 (to at most 15) and advance the mark. The
      mark advances even when the top speed is already 15. */
  function Ramp(p: Player): (r: Player)
    ensures r.(maxSpeed := p.maxSpeed, distanceMarked := p.distanceMarked) == p
    ensures r.distanceMarked == p.distanceMarked || r.distanceMarked == p.distanceMarked + DistanceMark
    ensures r.distanceMarked == p.distanceMarked + DistanceMark ==>
              r.maxSpeed == Min((p.maxSpeed + SpeedIncrease) as real, MaxedOutSpeed as real) as int
    ensures r.distanceMarked == p.distanceMarked ==> r.maxSpeed == p.maxSpeed
    ensures p.maxSpeed <= MaxedOutSpeed ==> r.maxSpeed <= MaxedOutSpeed
    ensures p.maxSpeed <= r.maxSpeed
    ensures r.distanceMarked == p.distanceMarked + DistanceMark <==>
              p.maxSpeed <= MaxedOutSpeed && DistanceCovered(p) - p.distanceMarked >= DistanceMark
  {
    if p.maxSpeed <= MaxedOutSpeed && DistanceCovered(p) - p.distanceMarked >= DistanceMark then
      var raised := p.maxSpeed + SpeedIncrease;
      p.(maxSpeed := if raised > MaxedOutSpeed then MaxedOutSpeed else raised,
         distanceMarked := p.distanceMarked + DistanceMark)
    else p
  }

  /** The moving part of `update` while `start` holds: advance by speed times `loopFactor`,
      clamp the base speed to the top speed or grow it by `1.0002 ** loopFactor`, then ramp. */
  function Move(p: Player, loopFactor: real, pow: Power): (r: Player)
  {
    Ramp(Accelerate(p, loopFactor, pow))
  }

  /** The move and the base-speed step, before the ramp. */
  function Accelerate(p: Player, loopFactor: real, pow: Power): (r: Player)
    ensures r.maxSpeed == p.maxSpeed && r.distanceMarked == p.distanceMarked
  {
    var moved := p.(x := p.x + p.speedX * loopFactor, y := p.y + p.speedY * loopFactor);
    if moved.baseSpeed >= moved.maxSpeed as real then moved.(baseSpeed := moved.maxSpeed as real)
    else moved.(baseSpeed := moved.baseSpeed * pow(Acceleration, loopFactor))
  }

  /** `Player.update(deltaTime, loopFactor)` without the collision check and the trail: count
      the frame; only a started player moves. */
  function Update(p: Player, deltaTime: real, loopFactor: real, pow: Power): (r: Player)
    ensures !p.start ==> r == CountFrame(p, deltaTime)
    ensures r.speedX == p.speedX && r.speedY == p.speedY && r.start == p.start
    ensures p.start ==> r.x == p.x + p.speedX * loopFactor && r.y == p.y + p.speedY * loopFactor
    ensures p.start && p.baseSpeed >= p.maxSpeed as real ==> r.baseSpeed == p.maxSpeed as real
    ensures p.start && p.baseSpeed < p.maxSpeed as real ==> r.baseSpeed == p.baseSpeed * pow(Acceleration, loopFactor)
  {
    var counted := CountFrame(p, deltaTime);
    if p.start then Move(counted, loopFactor, pow) else counted
  }

  /** Below the top speed the base speed never shrinks, since `1.0002 ** loopFactor >= 1` for
      a non-negative `loopFactor`; at or above it, it is pulled back to exactly the top speed. */
  lemma BaseSpeedClamp(p: Player, deltaTime: real, loopFactor: real, pow: Power)
    requires p.start && p.baseSpeed >= 0.0 && pow(Acceleration, loopFactor) >= 1.0
    ensures var r := Update(p, deltaTime, loopFactor, pow);
            if p.baseSpeed < p.maxSpeed as real then r.baseSpeed >= p.baseSpeed
            else r.baseSpeed == p.maxSpeed as real
  {
    var r := Update(p, deltaTime, loopFactor, pow);
    if p.baseSpeed < p.maxSpeed as real {
      assert p.baseSpeed * pow(Acceleration, loopFactor) >= p.baseSpeed * 1.0;
    }
  }

  /** The ramp's bookkeeping: the top speed is 10 plus 2 per mark passed, capped at 15, and the
      mark is a non-negative multiple of 500. */
  predicate RampInvariant(p: Player) {
    p.distanceMarked >= 0 && p.distanceMarked % DistanceMark == 0 &&
    p.maxSpeed == Min((StartMaxSpeed + SpeedIncrease * (p.distanceMarked / DistanceMark)) as real,
                      MaxedOutSpeed as real) as int
  }

  lemma NewPlayerRamp(kind: Kind, rects: seq<Rectangles.Rect>, trackWidth: real,
                      baseSpeed: Option<real>, size: Option<real>, startPos: Option<Point>)
    requires startPos.None? ==> |rects| > 2
    ensures RampInvariant(NewPlayer(kind, rects, trackWidth, baseSpeed, size, startPos))
  {
  }

  /** Every update keeps the ramp's bookkeeping, so the top speed never leaves `[10, 15]` and
      only grows. */
  lemma UpdateKeepsRamp(p: Player, deltaTime: real, loopFactor: real, pow: Power)
    requires RampInvariant(p)
    ensures RampInvariant(Update(p, deltaTime, loopFactor, pow))
    ensures StartMaxSpeed <= Update(p, deltaTime, loopFactor, pow).maxSpeed <= MaxedOutSpeed
    ensures p.maxSpeed <= Update(p, deltaTime, loopFactor, pow).maxSpeed
  {
    if p.start {
      RampStep(Accelerate(CountFrame(p, deltaTime), loopFactor, pow));
    }
  }

  /** The mark keeps pace with the score: if it lags by less than two marks before the ramp, it
      lags by less than one after, so the top speed rises once per 500 units travelled as long
      as no single frame covers 500 or more. */
  lemma RampKeepsPace(p: Player)
    requires RampInvariant(p) && 0 <= DistanceCovered(p) - p.distanceMarked < 2 * DistanceMark
    ensures 0 <= DistanceCovered(Ramp(p)) - Ramp(p).distanceMarked < DistanceMark
    ensures DistanceCovered(p) - p.distanceMarked >= DistanceMark ==>
              Ramp(p).maxSpeed == Min((p.maxSpeed + SpeedIncrease) as real, MaxedOutSpeed as real) as int
  {
  }

  lemma RampStep(p: Player)
    requires RampInvariant(p)
    ensures RampInvariant(Ramp(p)) && StartMaxSpeed <= Ramp(p).maxSpeed
  {
    var marks := p.distanceMarked / DistanceMark;
    assert p.distanceMarked == marks * DistanceMark;
    if Ramp(p).distanceMarked != p.distanceMarked {
      assert (p.distanceMarked + DistanceMark) / DistanceMark == marks + 1;
    }
  }

  /** A started player's score is the distance travelled along `x + y`, in hundredths rounded
      up: it starts at 0 and grows with every forward move. */
  lemma DistanceMonotone(p: Player, q: Player)
    requires p.startDistance == q.startDistance && p.x + p.y <= q.x + q.y
    ensures DistanceCovered(p) <= DistanceCovered(q)
  {
  }

  // ---------------------------------------------------------------------------------------------
  // Star rotation
  // ---------------------------------------------------------------------------------------------

  const RotationSpeed: real := 0.2

  /** The angle the star turns towards: upright while moving along x or not moving down, a
      quarter turn (`rotationOffset = Math.PI * 0.5`, a parameter here) while moving down. */
  function TargetAngle(p: Player, rotationOffset: real): real {
    if p.speedX > 0.0 || p.speedY == 0.0 then 0.0 else rotationOffset
  }

  function Abs(v: real): real {
    if v < 0.0 then -v else v
  }

  /** The easing step of `Star.update`: snap when within one step, else move one step
      `rotationSpeed * loopFactor` towards the target; frozen after game over. */
  function EaseAngle(angle: real, target: real, loopFactor: real, gameOver: bool): (r: real)
    ensures gameOver ==> r == angle
    ensures !gameOver && loopFactor >= 0.0 ==> Abs(r - target) <= Abs(angle - target)
    ensures !gameOver && loopFactor >= 0.0 ==>
              (angle <= target ==> angle <= r <= target) && (target <= angle ==> target <= r <= angle)
  {
    var step := RotationSpeed * loopFactor;
    if gameOver then angle
    else if Abs(angle - target) <= step then target
    else if target > angle then angle + step
    else if target < angle then angle - step
    else angle
  }

  /** For a non-negative frame factor the distance to the target shrinks by one step or to 0:
      the angle never overshoots. */
  lemma EaseApproaches(angle: real, target: real, loopFactor: real)
    requires loopFactor >= 0.0
    ensures var step := RotationSpeed * loopFactor;
            Abs(EaseAngle(angle, target, loopFactor, false) - target) ==
              Max(Abs(angle - target) - step, 0.0)
  {
  }

  /** `Star.update`: the player update, then the easing towards the target of the new speeds. */
  function UpdateStar(p: Player, angle: real, rotationOffset: real, deltaTime: real,
                      loopFactor: real, pow: Power, gameOver: bool): (r: (Player, real))
    ensures r.0 == Update(p, deltaTime, loopFactor, pow)
    ensures gameOver ==> r.1 == angle
    ensures loopFactor >= 0.0 && !gameOver ==>
              Abs(r.1 - TargetAngle(p, rotationOffset)) <= Abs(angle - TargetAngle(p, rotationOffset))
    ensures r.1 == EaseAngle(angle, TargetAngle(p, rotationOffset), loopFactor, gameOver)
  {
    var moved := Update(p, deltaTime, loopFactor, pow);
    (moved, EaseAngle(angle, TargetAngle(moved, rotationOffset), loopFactor, gameOver))
  }
}
