/** The scrolling background of js/ex-background.js (`Background`) and of the `WorleyHandler` in
    js/worleyNoiseGen.js: an image twice the screen height drawn twice, one copy above the other,
    whose offset `y` creeps downwards and jumps back up by the image height once it passes the
    bottom of the screen. */
module Scroll {
  import Worley

  /** `windSpeed`: the drift even a standing player sees. */
  const WindSpeed: real := 10.0

  /** The scroll state: screen height, image height (`totalHeight` / `totalImageHeight`), the
      offset `y`, and whether the image has loaded (`backgroundImage` set / `loaded`). */
  datatype Scroller = Scroller(height: real, total: real, y: real, loaded: bool)

  /** The player fields `update` reads. */
  datatype Motion = Motion(speedX: real, speedY: real, baseSpeed: real)

  /** `speedX || speedY`: a zero speed is falsy. */
  predicate Moving(m: Motion) {
    m.speedX != 0.0 || m.speedY != 0.0
  }

  /** `Background`'s constructor: the image is twice the screen height and starts one image
      height above the screen's bottom edge. */
  function NewBackground(height: real): (s: Scroller)
    ensures s.total == 2.0 * height && s.y == height - s.total && s.y == -height
    ensures s.height == height && !s.loaded
  {
    Scroller(height, height * 2.0, height - height * 2.0, false)
  }

  /** `setImageHeight(value)`: only the image height changes. */
  function SetImageHeight(s: Scroller, value: real): (r: Scroller)
    ensures r.total == value
    ensures r.height == s.height && r.y == s.y && r.loaded == s.loaded
  {
    s.(total := value)
  }

  /** `WorleyHandler`'s constructor: `setImageHeight(2 * height)`, then `y = height - total`. */
  function NewHandler(height: real): (s: Scroller)
    ensures s.total == 2.0 * height && s.y == height - s.total
    ensures s.height == height && !s.loaded
  {
    var s0 := Scroller(height, 0.0, 0.0, false);
    var s1 := SetImageHeight(s0, height * 2.0);
    s1.(y := s1.height - s1.total)
  }

  /** The image's `onload`: from now on `update` moves it. */
  function Load(s: Scroller): (r: Scroller)
    ensures r.loaded && r == s.(loaded := true)
  {
    s.(loaded := true)
  }

  /** The distance one update moves the image: wind plus, while the player moves, its base
      speed, times the frame multiplier. */
  function Step(m: Motion, frameMultiplier: real): real {
    (WindSpeed + (if Moving(m) then m.baseSpeed else 0.0)) * frameMultiplier
  }

  /** `Background.update`'s multiplier `deltaTime * 0.001 * 20`. */
  function BackgroundMultiplier(deltaTime: real): real {
    deltaTime * 0.001 * 20.0
  }

  /** `WorleyHandler.update`'s multiplier `deltaTime * 0.02`. */
  function HandlerMultiplier(deltaTime: real): real {
    deltaTime * 0.02
  }

  /** Both classes move the image by the same amount per frame. */
  lemma SameMultiplier(deltaTime: real)
    ensures BackgroundMultiplier(deltaTime) == HandlerMultiplier(deltaTime)
  {
  }

  /** The shared body of both `update`s: nothing until loaded; then advance by `step` and, if
      the image has passed the bottom of the screen, move it up by one image height. */
  function Advance(s: Scroller, step: real): (r: Scroller)
    ensures !s.loaded ==> r == s
    ensures r.height == s.height && r.total == s.total && r.loaded == s.loaded
    ensures s.loaded ==> r.y == s.y + step || r.y == s.y + step - s.total
    ensures s.loaded && s.y + step > s.height ==> r.y == s.y + step - s.total
    ensures s.loaded && s.y + step <= s.height ==> r.y == s.y + step
  {
    if !s.loaded then s
    else
      var y := s.y + step;
      if y > s.height then s.(y := y - s.total) else s.(y := y)
  }

  function UpdateBackground(s: Scroller, m: Motion, deltaTime: real): (r: Scroller)
    ensures !s.loaded ==> r == s
    ensures s.loaded ==> r == Advance(s, Step(m, deltaTime * 0.02))
  {
    SameMultiplier(deltaTime);
    Advance(s, Step(m, BackgroundMultiplier(deltaTime)))
  }

  function UpdateHandler(s: Scroller, m: Motion, deltaTime: real): (r: Scroller)
    ensures !s.loaded ==> r == s
    ensures s.loaded ==> r == Advance(s, Step(m, deltaTime * 0.02))
  {
    Advance(s, Step(m, HandlerMultiplier(deltaTime)))
  }

  /** The band the offset stays in: the upper copy's top edge is never below the screen's top
      and the lower copy never leaves a gap under the screen's bottom. */
  predicate InBand(s: Scroller) {
    s.height - s.total <= s.y <= s.height
  }

  /** Both constructors start inside the band for a non-negative screen height. */
  lemma StartsInBand(height: real)
    requires height >= 0.0
    ensures InBand(NewBackground(height)) && InBand(NewHandler(height))
  {
  }

  /** A step no longer than the image keeps the offset inside the band: the jump back happens
      at most once and lands inside it. */
  lemma AdvanceKeepsBand(s: Scroller, step: real)
    requires InBand(s) && 0.0 <= step <= s.total
    ensures InBand(Advance(s, step))
  {
  }

  /** A non-negative base speed and frame time give a non-negative step. */
  lemma StepNonNegative(m: Motion, frameMultiplier: real)
    requires m.baseSpeed >= 0.0 && frameMultiplier >= 0.0
    ensures Step(m, frameMultiplier) >= 0.0
  {
  }

  /** Taken over many frames, the band is an invariant of the scroll: any sequence of steps,
      each between 0 and the image height, keeps the offset inside it. */
  lemma {:induction false} ScrollStaysInBand(s: Scroller, steps: seq<real>)
    requires InBand(s)
    requires forall i :: 0 <= i < |steps| ==> 0.0 <= steps[i] <= s.total
    ensures InBand(AdvanceAll(s, steps))
    ensures AdvanceAll(s, steps).total == s.total && AdvanceAll(s, steps).height == s.height
    decreases |steps|
  {
    if steps != [] {
      AdvanceKeepsBand(s, steps[0]);
      ScrollStaysInBand(Advance(s, steps[0]), steps[1..]);
    }
  }

  /** The state after the frames `steps`, in order. */
  function AdvanceAll(s: Scroller, steps: seq<real>): Scroller
    decreases |steps|
  {
    if steps == [] then s else AdvanceAll(Advance(s, steps[0]), steps[1..])
  }

  /** The handler's `start` configures the generator for a `width` by `2 * height` image, a
      search distance of 350 and an exponent of 1.5, whatever it held before. */
  function ConfigureGenerator(n: Worley.Noise, width: nat, height: nat): (r: Worley.Noise)
    ensures r.width == width && r.height == 2 * height
    ensures r.pointCount == Worley.DefaultPointCount(width, 2 * height)
    ensures r.maxDistForRatio == 350.0 && r.maxDistForRatioSq == 122500.0 && r.ratioPower == 1.5
    ensures Worley.Consistent(r)
    ensures r.points == n.points && r.distances == n.distances
  {
    var sized := Worley.SetSize(n, width, 2 * height);
    Worley.SetRatioPower(Worley.SetMaxDistForRatio(sized, 350.0), 1.5)
  }
}
