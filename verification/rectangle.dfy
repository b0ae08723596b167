/** The axis-aligned rectangles of js/rectangle.js: track segments and power-ups. */
module Rectangles {
  import opened Wrappers
  import opened Geometry

  /** The radial gradient painter a rectangle is filled with. Only its identity matters here. */
  datatype GradientStyle = DarkToDarkest | Dark35ToDarkest

  const DefaultHue: real := 197.0

  /** A `Rectangle`: top-left corner, size, hue, border colour (possibly `undefined`), gradient
      painter and the `offScreen` mark the track sets before culling. */
  datatype Rect = Rect(x: real, y: real, width: real, height: real, colorHue: real,
                       strokeColor: Option<string>, gradientStyle: GradientStyle, offScreen: bool)

  /** A plain box `(x, y, width, height)` as handed to `context.rect`. */
  datatype Box = Box(x: real, y: real, w: real, h: real)

  /** The constructor. A missing hue is 197; a missing (`null` or `undefined`) painter is
      `darkToDarkest`; a new rectangle is on screen. */
  function NewRect(x: real, y: real, width: real, height: real, colorHue: Option<real>,
                   strokeColor: Option<string>, gradientStyle: Option<GradientStyle>): (r: Rect)
    ensures Bounds(r) == Box(x, y, width, height)
    ensures colorHue.Some? ==> r.colorHue == colorHue.value
    ensures colorHue.None? ==> r.colorHue == DefaultHue
    ensures gradientStyle.None? ==> r.gradientStyle == DarkToDarkest
    ensures gradientStyle.Some? ==> r.gradientStyle == gradientStyle.value
    ensures r.strokeColor == strokeColor && !r.offScreen
  {
    Rect(x, y, width, height, colorHue.GetOr(DefaultHue), strokeColor,
         gradientStyle.GetOr(DarkToDarkest), false)
  }

  /** `ColorRect`'s constructor passes `colorHue=197` to its parent: an assignment, so the hue
      is 197 whatever the caller asked for. */
  function NewColorRect(x: real, y: real, width: real, height: real, colorHue: Option<real>,
                        strokeColor: Option<string>): (r: Rect)
    ensures r.colorHue == DefaultHue && Bounds(r) == Box(x, y, width, height)
    ensures r.gradientStyle == DarkToDarkest && !r.offScreen
  {
    NewRect(x, y, width, height, Some(DefaultHue), strokeColor, None)
  }

  function Bounds(r: Rect): Box {
    Box(r.x, r.y, r.width, r.height)
  }

  function Origin(r: Rect): Point {
    Point(r.x, r.y)
  }

  /** `b` shrunk by `o` on every side. */
  function Inset(b: Box, o: real): (r: Box)
    ensures r.w == b.w - 2.0 * o && r.h == b.h - 2.0 * o
    ensures r.x + r.w / 2.0 == b.x + b.w / 2.0 && r.y + r.h / 2.0 == b.y + b.h / 2.0
  {
    Box(b.x + o, b.y + o, b.w - o * 2.0, b.h - o * 2.0)
  }

  /** `drawPath(context, offset)`: the outline `offset` inside the rectangle. */
  function DrawPath(r: Rect, offset: real): (b: Box)
    ensures b == Inset(Bounds(r), offset)
  {
    Box(r.x + offset, r.y + offset, r.width - offset * 2.0, r.height - offset * 2.0)
  }

  /** Closed containment of a point. */
  predicate Covers(b: Box, p: Point) {
    b.x <= p.x <= b.x + b.w && b.y <= p.y <= b.y + b.h
  }

  /** `inner` is a box of non-negative size lying inside `outer`. */
  predicate Within(inner: Box, outer: Box) {
    0.0 <= inner.w && 0.0 <= inner.h &&
    outer.x <= inner.x && inner.x + inner.w <= outer.x + outer.w &&
    outer.y <= inner.y && inner.y + inner.h <= outer.y + outer.h
  }

  /** With no offset the outline is the rectangle itself. */
  lemma DrawPathZero(r: Rect)
    ensures DrawPath(r, 0.0) == Bounds(r)
  {
  }

  /** An offset of at most half the shorter side keeps the outline inside the rectangle. */
  lemma DrawPathWithin(r: Rect, offset: real)
    requires 0.0 <= 2.0 * offset <= Min(r.width, r.height)
    ensures Within(DrawPath(r, offset), Bounds(r))
  {
  }

  /** Insets add up: shrinking by `a` and then by `b` is shrinking by `a + b`. */
  lemma InsetTwice(box: Box, a: real, b: real)
    ensures Inset(Inset(box, a), b) == Inset(box, a + b)
  {
  }

  /** A box covers every point of a box inside it. */
  lemma WithinCovers(inner: Box, outer: Box, p: Point)
    requires Within(inner, outer) && Covers(inner, p)
    ensures Covers(outer, p)
  {
  }
}
