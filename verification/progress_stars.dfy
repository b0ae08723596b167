/** The star-reveal animation of js/progressStars.js shown after game over: a row of star
    outlines, and one star after another shrinking from size 300 onto its place while spinning. */
module StarAnimations {
  import opened Geometry
  import Utils

  const StarPadding: real := 10.0
  const StarStartingSize: real := 300.0
  const SizeReduceSpeed: real := 0.96
  const RotationAmp: real := 2.5
  const TimeInterval: real := 50.0

  datatype StarAnimation = StarAnimation(starSize: real, starCount: nat, starShowCount: int,
                                         starShownCounter: int, pivot: Point, starPivots: seq<Point>,
                                         currentStarSize: real, currentAngle: real, timer: real)

  /** The gap between the centres of neighbouring stars. */
  function Spacing(starSize: real): real {
    starSize * 2.0 + StarPadding
  }

  /** The centre of the star `i` places right of the middle (`i` may be negative or half). */
  function PivotX(pivot: Point, spacing: real, i: real): real {
    pivot.x + spacing * i
  }

  /** The `k`-th of `count` star centres, `k - (count - 1) / 2` places from the middle. */
  function Pivots(pivot: Point, starSize: real, count: nat): (s: seq<Point>)
    ensures |s| == count
    ensures forall k | 0 <= k < count ::
              s[k] == Point(PivotX(pivot, Spacing(starSize), k as real - (count - 1) as real * 0.5), pivot.y)
  {
    seq(count, k => Point(PivotX(pivot, Spacing(starSize), k as real - (count - 1) as real * 0.5), pivot.y))
  }

  /** `#createStarPivots`: the loop over `i` from `-(starCount - 1) / 2` to `(starCount - 1) / 2`
      in steps of 1, one centre per step. */
  method CreateStarPivots(pivot: Point, starSize: real, starCount: nat) returns (pivots: seq<Point>)
    ensures pivots == Pivots(pivot, starSize, starCount)
  {
    var half := (starCount - 1) as real * 0.5;
    pivots := [];
    var i := -half;
    while i <= half
      invariant |pivots| <= starCount
      invariant i == |pivots| as real - half
      invariant forall k | 0 <= k < |pivots| ::
                  pivots[k] == Point(PivotX(pivot, Spacing(starSize), k as real - half), pivot.y)
      decreases starCount - |pivots|
    {
      pivots := pivots + [Point(PivotX(pivot, Spacing(starSize), i), pivot.y)];
      i := i + 1.0;
    }
  }

  /** The row is centred: the `k`-th centre from the left and the `k`-th from the right lie
      equally far either side of the pivot; all are on the pivot's line and neighbours are
      `starSize * 2 + starPadding` apart. */
  lemma PivotsLayout(pivot: Point, starSize: real, count: nat, k: nat)
    requires k < count
    ensures var s := Pivots(pivot, starSize, count);
            s[k].y == pivot.y &&
            s[k].x - pivot.x == pivot.x - s[count - 1 - k].x &&
            (k + 1 < count ==> s[k + 1].x - s[k].x == Spacing(starSize))
  {
    var half := (count - 1) as real * 0.5;
    var sp := Spacing(starSize);
    Mirror(pivot, sp, k as real - half);
    assert (count - 1 - k) as real - half == -(k as real - half);
    if k + 1 < count {
      Neighbour(pivot, sp, k as real - half);
      assert (k + 1) as real - half == k as real - half + 1.0;
    }
  }

  lemma Mirror(pivot: Point, spacing: real, i: real)
    ensures PivotX(pivot, spacing, i) - pivot.x == pivot.x - PivotX(pivot, spacing, -i)
  {
  }

  lemma Neighbour(pivot: Point, spacing: real, i: real)
    ensures PivotX(pivot, spacing, i + 1.0) - PivotX(pivot, spacing, i) == spacing
  {
  }

  /** The constructor (`starSize = 30`, `starShowCount = 3`, `starCount = 3` by default): at
      most `starCount` stars are ever revealed. */
  function NewStarAnimation(pivot: Point, starSize: real, starShowCount: int, starCount: nat): (a: StarAnimation)
    ensures a.starShowCount == Min(starShowCount as real, starCount as real) as int
    ensures a.starShowCount <= starCount && (a.starShowCount == starShowCount || a.starShowCount == starCount)
    ensures a.starShownCounter == 0 && a.timer == 0.0
    ensures a.currentStarSize == StarStartingSize && a.currentAngle == 0.0
    ensures a.starPivots == Pivots(pivot, starSize, starCount) && a.pivot == pivot
    ensures Valid(a)
  {
    StarAnimation(starSize, starCount, if starShowCount < starCount then starShowCount else starCount, 0,
                  pivot, Pivots(pivot, starSize, starCount), StarStartingSize, 0.0, 0.0)
  }

  /** What every update keeps: the shown count stays within `[0, max(starShowCount, 0)]`
      and the animated star keeps a positive size. */
  predicate Valid(a: StarAnimation) {
    0 <= a.starShownCounter && (a.starShownCounter <= a.starShowCount || a.starShownCounter == 0) &&
    a.currentStarSize > 0.0
  }

  /** `resize(pivot)`: new centres around the new pivot, the animation untouched. */
  function Resize(a: StarAnimation, pivot: Point): (r: StarAnimation)
    ensures r.pivot == pivot && r.starPivots == Pivots(pivot, a.starSize, a.starCount)
    ensures r.(pivot := a.pivot, starPivots := a.starPivots) == a
  {
    a.(pivot := pivot, starPivots := Pivots(pivot, a.starSize, a.starCount))
  }

  /** Whether `update` animates this frame: the interval has passed and stars remain. */
  predicate Animating(a: StarAnimation) {
    a.timer >= TimeInterval && a.starShownCounter < a.starShowCount
  }

  /** `update(deltaTime)` with `loopFactor = roundOff(deltaTime * 0.125, 1)`: while animating,
      shrink the current star by `0.96 ** loopFactor` and turn it by how far it still is from
      its final size; once it is no larger than a placed star, count it and start the next
      one from size 300, angle 0 and timer 0. */
  function Update(a: StarAnimation, deltaTime: real, loopFactor: real, pow: Power): (r: StarAnimation)
    requires Valid(a) && pow(SizeReduceSpeed, loopFactor) > 0.0
    ensures Valid(r)
    ensures r.starShownCounter == a.starShownCounter || r.starShownCounter == a.starShownCounter + 1
    ensures r.starShownCounter == a.starShownCounter + 1 <==>
              a.timer + deltaTime >= TimeInterval && a.starShownCounter < a.starShowCount &&
              a.currentStarSize <= a.starSize
    ensures r.starShownCounter == a.starShownCounter + 1 ==>
              r.currentStarSize == StarStartingSize && r.currentAngle == 0.0 && r.timer == 0.0
    ensures r.starShownCounter == a.starShownCounter && a.timer + deltaTime >= TimeInterval &&
            a.starShownCounter < a.starShowCount ==>
              r.currentStarSize == a.currentStarSize * pow(SizeReduceSpeed, loopFactor) &&
              r.currentAngle * r.currentStarSize == (a.starSize - r.currentStarSize) * RotationAmp
    ensures r.(starShownCounter := a.starShownCounter, currentStarSize := a.currentStarSize,
               currentAngle := a.currentAngle, timer := a.timer) == a
  {
    var timed := a.(timer := a.timer + deltaTime);
    if Animating(timed) then
      if timed.currentStarSize > timed.starSize then
        var size := timed.currentStarSize * pow(SizeReduceSpeed, loopFactor);
        Turn(a.starSize, size);
        timed.(currentStarSize := size, currentAngle := (timed.starSize / size - 1.0) * RotationAmp)
      else
        timed.(starShownCounter := timed.starShownCounter + 1, currentStarSize := StarStartingSize,
               currentAngle := 0.0, timer := 0.0)
    else timed
  }

  lemma Turn(starSize: real, size: real)
    requires size > 0.0
    ensures (starSize / size - 1.0) * RotationAmp * size == (starSize - size) * RotationAmp
  {
    assert starSize / size * size == starSize;
  }

  /** Until the interval has passed (or once every star is shown) only the timer moves. */
  lemma WaitingOnlyTimes(a: StarAnimation, deltaTime: real, loopFactor: real, pow: Power)
    requires Valid(a) && pow(SizeReduceSpeed, loopFactor) > 0.0
    requires a.timer + deltaTime < TimeInterval || a.starShownCounter >= a.starShowCount
    ensures Update(a, deltaTime, loopFactor, pow) == a.(timer := a.timer + deltaTime)
  {
  }

  /** `loopFactor` as the animation computes it from the frame time. */
  function StarLoopFactor(deltaTime: real): real {
    Utils.RoundOff(deltaTime * 0.125, 1)
  }

  /** Over any run of frames the shown count never decreases and never passes
      `starShowCount`. */
  lemma {:induction false} CounterMonotone(a: StarAnimation, deltas: seq<real>, pow: Power)
    requires Valid(a) && forall e: real :: pow(SizeReduceSpeed, e) > 0.0
    ensures Valid(UpdateAll(a, deltas, pow))
    ensures a.starShownCounter <= UpdateAll(a, deltas, pow).starShownCounter
    ensures a.starShownCounter <= a.starShowCount ==> UpdateAll(a, deltas, pow).starShownCounter <= a.starShowCount
    decreases |deltas|
  {
    if deltas != [] {
      var next := Update(a, deltas[0], StarLoopFactor(deltas[0]), pow);
      CounterMonotone(next, deltas[1..], pow);
    }
  }

  function UpdateAll(a: StarAnimation, deltas: seq<real>, pow: Power): StarAnimation
    requires Valid(a) && forall e: real :: pow(SizeReduceSpeed, e) > 0.0
    decreases |deltas|
  {
    if deltas == [] then a
    else UpdateAll(Update(a, deltas[0], StarLoopFactor(deltas[0]), pow), deltas[1..], pow)
  }
}
