/** The quadtree spatial index of js/quadtree.js: closed centre/half-extent rectangles,
    capacity-based subdivision that never pushes older points down, and a top-level range
    query that folds the part of the range outside the root boundary back onto the
    opposite edge. */
module QuadTree {
  import opened Wrappers
  import opened Geometry

  /** `CenterRect`: centre `(x, y)` and half-extents `(w, h)`. */
  datatype CenterRect = CenterRect(x: real, y: real, w: real, h: real)

  /** `contains`: closed on all four edges. */
  predicate Contains(r: CenterRect, p: Point) {
    r.x - r.w <= p.x && r.x + r.w >= p.x && r.y - r.h <= p.y && r.y + r.h >= p.y
  }

  /** `intersects`: the negation of "strictly separated on some axis". */
  predicate Intersects(a: CenterRect, b: CenterRect) {
    !(a.x - a.w > b.x + b.w || a.x + a.w < b.x - b.w ||
      a.y - a.h > b.y + b.h || a.y + a.h < b.y - b.h)
  }

  /** A rectangle with non-negative extents contains its centre and all four of its corners,
      so the boundary is closed. */
  lemma ContainsIsClosed(r: CenterRect)
    requires r.w >= 0.0 && r.h >= 0.0
    ensures Contains(r, Point(r.x, r.y))
    ensures Contains(r, Point(r.x - r.w, r.y - r.h)) && Contains(r, Point(r.x + r.w, r.y - r.h))
    ensures Contains(r, Point(r.x - r.w, r.y + r.h)) && Contains(r, Point(r.x + r.w, r.y + r.h))
  {
  }

  function Gap(a: real, b: real): real {
    if a < b then b - a else a - b
  }

  /** `contains` measures from the centre: a point is inside exactly when it is within the
      half-width of the centre along x and within the half-height along y. */
  lemma ContainsWithinHalfExtents(r: CenterRect, p: Point)
    ensures Contains(r, p) <==> Gap(p.x, r.x) <= r.w && Gap(p.y, r.y) <= r.h
  {
  }

  /** `intersects` is symmetric, and for rectangles with non-negative extents it holds exactly
      when the two closed rectangles share a point (so rectangles touching along an edge or at a
      corner intersect). */
  lemma IntersectsIffCommonPoint(a: CenterRect, b: CenterRect)
    requires a.w >= 0.0 && a.h >= 0.0 && b.w >= 0.0 && b.h >= 0.0
    ensures Intersects(a, b) <==> Intersects(b, a)
    ensures Intersects(a, b) <==> exists p :: Contains(a, p) && Contains(b, p)
  {
    if Intersects(a, b) {
      var p := Point(Max(a.x - a.w, b.x - b.w), Max(a.y - a.h, b.y - b.h));
      assert Contains(a, p) && Contains(b, p);
    }
  }

  /** A point inside two rectangles witnesses that they intersect (no extent condition). */
  lemma CommonPointIntersects(a: CenterRect, b: CenterRect, p: Point)
    requires Contains(a, p) && Contains(b, p)
    ensures Intersects(a, b) && Intersects(b, a)
  {
  }

  /** What `insert` returns: `false`, `true`, or nothing (`undefined`). */
  datatype InsertResult = ReturnedFalse | ReturnedTrue | ReturnedUndefined

  /** A node: boundary, capacity, its own points, and (once `divided`) four branches. */
  datatype Tree = Node(boundary: CenterRect, capacity: nat, points: seq<Point>, branches: Branches)

  datatype Branches =
    | Undivided
    | Divided(topLeft: Tree, topRight: Tree, bottomLeft: Tree, bottomRight: Tree)

  /** The constructor: an empty, undivided node. */
  function Empty(boundary: CenterRect, capacity: nat): Tree {
    Node(boundary, capacity, [], Undivided)
  }

  function Size(t: Tree): nat {
    match t.branches
    case Undivided => 1
    case Divided(a, b, c, d) => 1 + Size(a) + Size(b) + Size(c) + Size(d)
  }

  /** The boundary `subdivide` gives one quadrant: half the extents, centred at (x±w/2, y±h/2). */
  function QuadrantOf(b: CenterRect, right: bool, bottom: bool): CenterRect {
    var w := b.w * 0.5;
    var h := b.h * 0.5;
    CenterRect(if right then b.x + w else b.x - w, if bottom then b.y + h else b.y - h, w, h)
  }

  /** `subdivide`: four empty branches, top-left, top-right, bottom-left, bottom-right. */
  function Subdivide(b: CenterRect, capacity: nat): (r: Branches)
    ensures r.Divided?
    ensures r.topLeft == Empty(QuadrantOf(b, false, false), capacity)
    ensures r.topRight == Empty(QuadrantOf(b, true, false), capacity)
    ensures r.bottomLeft == Empty(QuadrantOf(b, false, true), capacity)
    ensures r.bottomRight == Empty(QuadrantOf(b, true, true), capacity)
  {
    Divided(Empty(QuadrantOf(b, false, false), capacity), Empty(QuadrantOf(b, true, false), capacity),
            Empty(QuadrantOf(b, false, true), capacity), Empty(QuadrantOf(b, true, true), capacity))
  }

  /** The four quadrants cover the parent, and each lies inside it. */
  lemma QuadrantsCoverParent(b: CenterRect, p: Point)
    ensures Contains(b, p) <==>
      (Contains(QuadrantOf(b, false, false), p) || Contains(QuadrantOf(b, true, false), p) ||
       Contains(QuadrantOf(b, false, true), p) || Contains(QuadrantOf(b, true, true), p))
  {
  }

  /** Every point stored anywhere in the tree, own points first, then the branches in order. */
  function Stored(t: Tree): seq<Point> {
    t.points + BranchStored(t.branches)
  }

  function BranchStored(bs: Branches): seq<Point> {
    match bs
    case Undivided => []
    case Divided(a, b, c, d) => Stored(a) + Stored(b) + Stored(c) + Stored(d)
  }

  /** The shape every tree built by the constructor and `insert` has. */
  predicate Valid(t: Tree) {
    && t.capacity > 0
    && |t.points| <= t.capacity
    && (forall i :: 0 <= i < |t.points| ==> Contains(t.boundary, t.points[i]))
    && match t.branches
       case Undivided => true
       case Divided(_, _, _, _) =>
         && |t.points| == t.capacity
         && BranchesFit(t.branches, t.boundary, t.capacity)
  }

  /** Each branch is a valid tree over its quadrant with the parent's capacity. */
  predicate BranchesFit(bs: Branches, parent: CenterRect, capacity: nat)
    requires bs.Divided?
  {
    && bs.topLeft.boundary == QuadrantOf(parent, false, false)
    && bs.topRight.boundary == QuadrantOf(parent, true, false)
    && bs.bottomLeft.boundary == QuadrantOf(parent, false, true)
    && bs.bottomRight.boundary == QuadrantOf(parent, true, true)
    && bs.topLeft.capacity == capacity && bs.topRight.capacity == capacity
    && bs.bottomLeft.capacity == capacity && bs.bottomRight.capacity == capacity
    && Valid(bs.topLeft) && Valid(bs.topRight) && Valid(bs.bottomLeft) && Valid(bs.bottomRight)
  }

  /** Termination measure of `insert`: a full leaf is worth more than the four empty
      branches it is about to create. */
  function Potential(t: Tree): nat {
    match t.branches
    case Undivided => if |t.points| < t.capacity then 1 else 6
    case Divided(a, b, c, d) => 1 + Potential(a) + Potential(b) + Potential(c) + Potential(d)
  }

  function BranchPotential(bs: Branches): nat {
    match bs
    case Undivided => 0
    case Divided(a, b, c, d) => Potential(a) + Potential(b) + Potential(c) + Potential(d)
  }

  /** The branches a full node offers a point to: its own, made by `subdivide` if it has none. */
  function Kids(t: Tree): (kids: Branches)
    requires Valid(t)
    ensures kids.Divided? && BranchesFit(kids, t.boundary, t.capacity)
    ensures BranchStored(kids) == BranchStored(t.branches)
  {
    if t.branches.Undivided? then
      SubdivideFits(t.boundary, t.capacity);
      Subdivide(t.boundary, t.capacity)
    else t.branches
  }

  /** `insert`. A point outside the boundary gives `false` and changes nothing. A node with room
      keeps the point itself and returns `undefined`. A full node subdivides once and offers the
      point to its branches (see `InsertIntoBranches`); its own points never move. */
  function Insert(t: Tree, p: Point): (r: (Tree, InsertResult))
    requires Valid(t)
    ensures Valid(r.0)
    ensures r.0.boundary == t.boundary && r.0.capacity == t.capacity
    ensures r.1 == ReturnedFalse <==> !Contains(t.boundary, p)
    ensures r.1 == ReturnedFalse ==> r.0 == t
    ensures r.1 != ReturnedTrue
    decreases Potential(t), 1
  {
    if !Contains(t.boundary, p) then (t, ReturnedFalse)
    else if |t.points| < t.capacity then (t.(points := t.points + [p]), ReturnedUndefined)
    else
      var kids := Kids(t);
      QuadrantsCoverParent(t.boundary, p);
      var (kids', res) := InsertIntoBranches(kids, p, t.boundary, t.capacity);
      (t.(branches := kids'), res)
  }

  /** The loop `for (const branch of this.branches) if (branch.insert(point)) return true`.
      No branch ever returns `true`, so the early exits are dead and the point is offered to all
      four branches; every branch whose boundary contains it keeps a copy. */
  function InsertIntoBranches(kids: Branches, p: Point, ghost parent: CenterRect, ghost capacity: nat)
    : (r: (Branches, InsertResult))
    requires kids.Divided? && BranchesFit(kids, parent, capacity)
    ensures r.0.Divided? && BranchesFit(r.0, parent, capacity)
    ensures r.1 == ReturnedUndefined
    decreases BranchPotential(kids), 0
  {
    var a, b, c, d := kids.topLeft, kids.topRight, kids.bottomLeft, kids.bottomRight;
    var (a', ra) := Insert(a, p);
    if ra == ReturnedTrue then assert false; (kids, ra)
    else
      var (b', rb) := Insert(b, p);
      if rb == ReturnedTrue then assert false; (kids, rb)
      else
        var (c', rc) := Insert(c, p);
        if rc == ReturnedTrue then assert false; (kids, rc)
        else
          var (d', rd) := Insert(d, p);
          if rd == ReturnedTrue then assert false; (kids, rd)
          else
            (Divided(a', b', c', d'), ReturnedUndefined)
  }

  /** What `insert` does to the stored points: its own points only grow at the end, a divided node
      stays divided, every other point keeps its count, and a point inside the boundary gains at
      least one copy. */
  lemma {:induction false} InsertKeeps(t: Tree, p: Point)
    requires Valid(t)
    ensures var t' := Insert(t, p).0;
      && t.points <= t'.points
      && (t.branches.Divided? ==> t'.branches.Divided?)
      && (forall q :: q != p ==> multiset(Stored(t'))[q] == multiset(Stored(t))[q])
      && (Contains(t.boundary, p) ==> multiset(Stored(t'))[p] > multiset(Stored(t))[p])
    decreases Potential(t), 2
  {
    if Contains(t.boundary, p) && |t.points| < t.capacity {
      KeptByLeaf(t, p);
    } else if Contains(t.boundary, p) {
      KeptByBranches(t, p);
    }
  }

  /** A node with room appends the point to its own list. */
  lemma KeptByLeaf(t: Tree, p: Point)
    requires Valid(t) && Contains(t.boundary, p) && |t.points| < t.capacity
    ensures var t' := Insert(t, p).0;
      && t.points <= t'.points
      && (t.branches.Divided? ==> t'.branches.Divided?)
      && multiset(Stored(t')) == multiset(Stored(t)) + multiset{p}
  {
    var t' := Insert(t, p).0;
    assert Stored(t') == t.points + [p] + BranchStored(t.branches);
  }

  /** A full node passes the point on to its branches. */
  lemma {:induction false} KeptByBranches(t: Tree, p: Point)
    requires Valid(t) && Contains(t.boundary, p) && |t.points| >= t.capacity
    ensures var t' := Insert(t, p).0;
      && t.points == t'.points
      && t'.branches.Divided?
      && (forall q :: q != p ==> multiset(Stored(t'))[q] == multiset(Stored(t))[q])
      && multiset(Stored(t'))[p] > multiset(Stored(t))[p]
    decreases Potential(t), 1
  {
    var kids := Kids(t);
    var t' := t.(branches := InsertIntoBranches(kids, p, t.boundary, t.capacity).0);
    assert Insert(t, p).0 == t';
    QuadrantsCoverParent(t.boundary, p);
    BranchesKeep(kids, p, t.boundary, t.capacity);
    BagGrows(t.points, BranchStored(kids), BranchStored(t'.branches), p);
  }

  /** The same counts for the four branches together: a point of the parent lies in some quadrant,
      so some branch keeps a copy. */
  lemma {:induction false} BranchesKeep(kids: Branches, p: Point, parent: CenterRect, capacity: nat)
    requires kids.Divided? && BranchesFit(kids, parent, capacity)
    ensures var r := InsertIntoBranches(kids, p, parent, capacity).0;
      && (forall q :: q != p ==> multiset(BranchStored(r))[q] == multiset(BranchStored(kids))[q])
      && ((Contains(QuadrantOf(parent, false, false), p) || Contains(QuadrantOf(parent, true, false), p) ||
           Contains(QuadrantOf(parent, false, true), p) || Contains(QuadrantOf(parent, true, true), p))
          ==> multiset(BranchStored(r))[p] > multiset(BranchStored(kids))[p])
    decreases BranchPotential(kids), 0
  {
    InsertKeeps(kids.topLeft, p);
    InsertKeeps(kids.topRight, p);
    InsertKeeps(kids.bottomLeft, p);
    InsertKeeps(kids.bottomRight, p);
    var r := InsertIntoBranches(kids, p, parent, capacity).0;
    CombineBranchCounts(kids, r, p);
  }

  /** Point counts of four branches add up: per-branch "unchanged except `p`, `p` not fewer"
      facts lift to the concatenation, and one strict gain for `p` makes the total strictly larger. */
  lemma CombineBranchCounts(old_: Branches, new_: Branches, p: Point)
    requires old_.Divided? && new_.Divided?
    requires forall q :: q != p ==> multiset(Stored(new_.topLeft))[q] == multiset(Stored(old_.topLeft))[q]
    requires forall q :: q != p ==> multiset(Stored(new_.topRight))[q] == multiset(Stored(old_.topRight))[q]
    requires forall q :: q != p ==> multiset(Stored(new_.bottomLeft))[q] == multiset(Stored(old_.bottomLeft))[q]
    requires forall q :: q != p ==> multiset(Stored(new_.bottomRight))[q] == multiset(Stored(old_.bottomRight))[q]
    requires multiset(Stored(new_.topLeft))[p] >= multiset(Stored(old_.topLeft))[p]
    requires multiset(Stored(new_.topRight))[p] >= multiset(Stored(old_.topRight))[p]
    requires multiset(Stored(new_.bottomLeft))[p] >= multiset(Stored(old_.bottomLeft))[p]
    requires multiset(Stored(new_.bottomRight))[p] >= multiset(Stored(old_.bottomRight))[p]
    ensures forall q :: q != p ==> multiset(BranchStored(new_))[q] == multiset(BranchStored(old_))[q]
    ensures multiset(BranchStored(new_))[p] >= multiset(BranchStored(old_))[p]
    ensures (multiset(Stored(new_.topLeft))[p] > multiset(Stored(old_.topLeft))[p] ||
             multiset(Stored(new_.topRight))[p] > multiset(Stored(old_.topRight))[p] ||
             multiset(Stored(new_.bottomLeft))[p] > multiset(Stored(old_.bottomLeft))[p] ||
             multiset(Stored(new_.bottomRight))[p] > multiset(Stored(old_.bottomRight))[p])
            ==> multiset(BranchStored(new_))[p] > multiset(BranchStored(old_))[p]
  {
    var o1, o2, o3, o4 := Stored(old_.topLeft), Stored(old_.topRight), Stored(old_.bottomLeft), Stored(old_.bottomRight);
    var n1, n2, n3, n4 := Stored(new_.topLeft), Stored(new_.topRight), Stored(new_.bottomLeft), Stored(new_.bottomRight);
    BagJoin(o1, n1, o2, n2, p);
    BagJoin(o1 + o2, n1 + n2, o3, n3, p);
    BagJoin(o1 + o2 + o3, n1 + n2 + n3, o4, n4, p);
  }

  /** "Only `p` changed, and `p` did not lose copies" survives concatenation; a strict gain on
      either side is a strict gain of the whole. */
  lemma BagJoin(a: seq<Point>, a': seq<Point>, b: seq<Point>, b': seq<Point>, p: Point)
    requires forall q :: q != p ==> multiset(a')[q] == multiset(a)[q]
    requires forall q :: q != p ==> multiset(b')[q] == multiset(b)[q]
    requires multiset(a')[p] >= multiset(a)[p] && multiset(b')[p] >= multiset(b)[p]
    ensures forall q :: q != p ==> multiset(a' + b')[q] == multiset(a + b)[q]
    ensures multiset(a' + b')[p] >= multiset(a + b)[p]
    ensures multiset(a')[p] > multiset(a)[p] || multiset(b')[p] > multiset(b)[p] ==>
      multiset(a' + b')[p] > multiset(a + b)[p]
  {
    assert multiset(a + b) == multiset(a) + multiset(b);
    assert multiset(a' + b') == multiset(a') + multiset(b');
  }

  /** Prefixing the same points keeps "only `p` changed, and `p` grew". */
  lemma BagGrows(a: seq<Point>, b: seq<Point>, b': seq<Point>, p: Point)
    requires forall q :: q != p ==> multiset(b')[q] == multiset(b)[q]
    requires multiset(b')[p] > multiset(b)[p]
    ensures forall q :: q != p ==> multiset(a + b')[q] == multiset(a + b)[q]
    ensures multiset(a + b')[p] > multiset(a + b)[p]
  {
    assert multiset(a + b) == multiset(a) + multiset(b);
    assert multiset(a + b') == multiset(a) + multiset(b');
  }

  /** `subdivide` with a positive capacity produces four valid empty branches. */
  lemma SubdivideFits(b: CenterRect, capacity: nat)
    requires capacity > 0
    ensures BranchesFit(Subdivide(b, capacity), b, capacity)
  {
    var s := Subdivide(b, capacity);
    assert Valid(s.topLeft) && Valid(s.topRight) && Valid(s.bottomLeft) && Valid(s.bottomRight);
  }

  // ---------------------------------------------------------------------------------------------
  // Range query
  // ---------------------------------------------------------------------------------------------

  /** The stored points inside `range`, in order and with multiplicity (`rangeRect.contains`).
      This is `Seqs.Filter` specialised to a range, kept first-order so that the wrap-around
      proofs below do not have to reason about a function value. */
  function Filter(s: seq<Point>, range: CenterRect): (r: seq<Point>)
    ensures |r| <= |s|
    ensures forall i :: 0 <= i < |r| ==> Contains(range, r[i])
  {
    if s == [] then []
    else (if Contains(range, s[0]) then [s[0]] else []) + Filter(s[1..], range)
  }

  /** Every point shifted by `(dx, dy)`, the `rect.change` applied to the hits of a strip. */
  function TranslateAll(s: seq<Point>, dx: real, dy: real): (r: seq<Point>)
    ensures |r| == |s|
    ensures forall i :: 0 <= i < |s| ==> r[i] == Translate(s[i], dx, dy)
  {
    seq(|s|, i requires 0 <= i < |s| => Translate(s[i], dx, dy))
  }

  /** `query(rangeRect, foundPoints, true)`, the branch-level walk: nothing when the boundary
      misses the range, otherwise the node's own points in the range, then each branch's. */
  function QueryLocal(t: Tree, range: CenterRect): (r: seq<Point>)
    ensures forall i :: 0 <= i < |r| ==> Contains(range, r[i])
  {
    if !Intersects(t.boundary, range) then []
    else
      Filter(t.points, range) +
      match t.branches
      case Undivided => []
      case Divided(a, b, c, d) =>
        QueryLocal(a, range) + QueryLocal(b, range) + QueryLocal(c, range) + QueryLocal(d, range)
  }

  /** An overflow strip and the `change` that maps its hits back into the range's coordinates. */
  datatype Strip = Strip(rect: CenterRect, dx: real, dy: real)

  /** The horizontal overflow strip of a top-level query: the part of the range left of the
      boundary, re-centred at the right edge, or else the part right of it, centred at `newW`. */
  function HorizontalStrip(b: CenterRect, range: CenterRect): (r: Option<Strip>)
    ensures r.Some? ==> r.value.rect.y == range.y && r.value.rect.h == range.h && r.value.dy == 0.0
    ensures r.Some? ==> r.value.dx == -b.w * 2.0 || r.value.dx == b.w * 2.0
  {
    var leftX := range.x - range.w;
    var rightX := range.x + range.w;
    if b.x - b.w > leftX then
      var newW := ((b.x - b.w) - leftX) * 0.5;
      Some(Strip(CenterRect(b.x + b.w - newW, range.y, newW, range.h), -b.w * 2.0, 0.0))
    else if b.x + b.w < rightX then
      var newW := (rightX - (b.x + b.w)) * 0.5;
      Some(Strip(CenterRect(newW, range.y, newW, range.h), b.w * 2.0, 0.0))
    else None
  }

  /** The vertical overflow strip, the same construction on the y axis. */
  function VerticalStrip(b: CenterRect, range: CenterRect): (r: Option<Strip>)
    ensures r.Some? ==> r.value.rect.x == range.x && r.value.rect.w == range.w && r.value.dx == 0.0
    ensures r.Some? ==> r.value.dy == -b.h * 2.0 || r.value.dy == b.h * 2.0
  {
    var topY := range.y - range.h;
    var bottomY := range.y + range.h;
    if b.y - b.h > topY then
      var newH := ((b.y - b.h) - topY) * 0.5;
      Some(Strip(CenterRect(range.x, b.y + b.h - newH, range.w, newH), 0.0, -b.h * 2.0))
    else if b.y + b.h < bottomY then
      var newH := (bottomY - (b.y + b.h)) * 0.5;
      Some(Strip(CenterRect(range.x, newH, range.w, newH), 0.0, b.h * 2.0))
    else None
  }

  /** The shape of the root the game builds, `[0, 2w] x [0, 2h]`: the strips centred at
      `newW`/`newH` land on the opposite edge only when the minimum corner is the origin.
      Elsewhere the absolute centre can hand back the very strip it was given, so the wrapped
      query would recurse forever (`OffsetRootStripRepeats`); this is why `Query` needs the
      shape to terminate. */
  predicate RootShaped(b: CenterRect) {
    b.x == b.w && b.y == b.h && b.w > 0.0 && b.h > 0.0
  }

  /** For the boundary `[-2, 0] x [0, 2]`, a range over `x` in `[0, 0.5]` overflows to the right
      and its strip is that same range again. */
  lemma OffsetRootStripRepeats()
    ensures var b, q := CenterRect(-1.0, 1.0, 1.0, 1.0), CenterRect(0.25, 1.0, 0.25, 0.5);
            !RootShaped(b) && HorizontalStrip(b, q).Some? && HorizontalStrip(b, q).value.rect == q
  {
  }

  /** How many more times an interval `[lo, hi]` must be folded back onto `[0, size]`
      (left overflow first, as in the `else if`). */
  function Wraps(lo: real, hi: real, size: real): nat
    requires size > 0.0
  {
    if lo < 0.0 then ((-lo) / size).Floor + 1
    else if hi > size then ((hi - size) / size).Floor + 1
    else 0
  }

  function WrapMeasure(b: CenterRect, range: CenterRect): nat
    requires RootShaped(b)
  {
    Wraps(range.x - range.w, range.x + range.w, 2.0 * b.w) +
    Wraps(range.y - range.h, range.y + range.h, 2.0 * b.h)
  }

  /** One fold removes one wrap: a left overflow becomes `[size + lo, size]`, a right one `[0, hi - size]`. */
  lemma WrapsShrink(lo: real, hi: real, size: real)
    requires size > 0.0
    ensures lo < 0.0 ==> Wraps(size + lo, size, size) < Wraps(lo, hi, size)
    ensures lo >= 0.0 && hi > size ==> Wraps(0.0, hi - size, size) < Wraps(lo, hi, size)
  {
    if lo < 0.0 && size + lo < 0.0 {
      DivShift(-lo, size);
      assert -(size + lo) == -lo - size;
    }
    if lo >= 0.0 && hi > size && hi - size > size {
      DivShift(hi - size, size);
    }
  }

  /** Folding by one period lowers the quotient by exactly one, and its floor with it. */
  lemma DivShift(a: real, size: real)
    requires size > 0.0
    ensures (a - size) / size == a / size - 1.0
    ensures ((a - size) / size).Floor == (a / size).Floor - 1
  {
    var q, q' := a / size, (a - size) / size;
    assert q * size == a;
    assert q' * size == a - size;
    var d := q' - (q - 1.0);
    assert d * size == 0.0;
    assert d == (d * size) / size;
  }

  /** Each strip of a top-level query over a root-shaped boundary is strictly closer to the
      boundary, which is why the strip sub-queries (themselves top-level) terminate. */
  lemma StripsShrink(b: CenterRect, range: CenterRect)
    requires RootShaped(b)
    ensures HorizontalStrip(b, range).Some? ==>
      WrapMeasure(b, HorizontalStrip(b, range).value.rect) < WrapMeasure(b, range)
    ensures VerticalStrip(b, range).Some? ==>
      WrapMeasure(b, VerticalStrip(b, range).value.rect) < WrapMeasure(b, range)
  {
    WrapsShrink(range.x - range.w, range.x + range.w, 2.0 * b.w);
    WrapsShrink(range.y - range.h, range.y + range.h, 2.0 * b.h);
  }

  /** `query(rangeRect)` at the top level (`childBranch = false`): nothing unless the boundary
      intersects the range; otherwise the hits of the horizontal strip, then of the vertical
      strip, each queried again at the top level and translated by its `change`, then the
      branch walk. */
  function Query(t: Tree, range: CenterRect): (r: seq<Point>)
    requires RootShaped(t.boundary)
    ensures !Intersects(t.boundary, range) ==> r == []
    decreases WrapMeasure(t.boundary, range)
  {
    if !Intersects(t.boundary, range) then []
    else
      var hs := HorizontalStrip(t.boundary, range);
      var vs := VerticalStrip(t.boundary, range);
      StripsShrink(t.boundary, range);
      (if hs.Some? then TranslateAll(Query(t, hs.value.rect), hs.value.dx, hs.value.dy) else []) +
      (if vs.Some? then TranslateAll(Query(t, vs.value.rect), vs.value.dx, vs.value.dy) else []) +
      QueryLocal(t, range)
  }

  /** A strip's points, moved by its `change`, land in the range. */
  lemma StripsMapIntoRange(b: CenterRect, range: CenterRect)
    requires RootShaped(b) && Intersects(b, range)
    ensures HorizontalStrip(b, range).Some? ==> var h := HorizontalStrip(b, range).value;
      forall q :: Contains(h.rect, q) ==> Contains(range, Translate(q, h.dx, h.dy))
    ensures VerticalStrip(b, range).Some? ==> var v := VerticalStrip(b, range).value;
      forall q :: Contains(v.rect, q) ==> Contains(range, Translate(q, v.dx, v.dy))
  {
  }

  /** Everything a query returns lies in the range, once mapped back by the strips' `change`. */
  lemma {:induction false} QueryContained(t: Tree, range: CenterRect)
    requires RootShaped(t.boundary)
    ensures forall i :: 0 <= i < |Query(t, range)| ==> Contains(range, Query(t, range)[i])
    decreases WrapMeasure(t.boundary, range)
  {
    if Intersects(t.boundary, range) {
      var hs, vs := HorizontalStrip(t.boundary, range), VerticalStrip(t.boundary, range);
      StripsShrink(t.boundary, range);
      StripsMapIntoRange(t.boundary, range);
      var a := if hs.Some? then TranslateAll(Query(t, hs.value.rect), hs.value.dx, hs.value.dy) else [];
      var c := if vs.Some? then TranslateAll(Query(t, vs.value.rect), vs.value.dx, vs.value.dy) else [];
      if hs.Some? {
        QueryContained(t, hs.value.rect);
      }
      if vs.Some? {
        QueryContained(t, vs.value.rect);
      }
      assert forall i :: 0 <= i < |a| ==> Contains(range, a[i]);
      assert forall i :: 0 <= i < |c| ==> Contains(range, c[i]);
      AllContained(a, c, QueryLocal(t, range), range);
    }
  }

  lemma AllContained(a: seq<Point>, b: seq<Point>, c: seq<Point>, range: CenterRect)
    requires forall i :: 0 <= i < |a| ==> Contains(range, a[i])
    requires forall i :: 0 <= i < |b| ==> Contains(range, b[i])
    requires forall i :: 0 <= i < |c| ==> Contains(range, c[i])
    ensures forall i :: 0 <= i < |a + b + c| ==> Contains(range, (a + b + c)[i])
  {
  }

  // ---------------------------------------------------------------------------------------------
  // What a query returns
  // ---------------------------------------------------------------------------------------------

  lemma {:induction false} FilterConcat(a: seq<Point>, b: seq<Point>, range: CenterRect)
    ensures Filter(a + b, range) == Filter(a, range) + Filter(b, range)
  {
    if a == [] {
      assert a + b == b;
    } else {
      assert (a + b)[1..] == a[1..] + b;
      FilterConcat(a[1..], b, range);
    }
  }

  lemma {:induction false} FilterNone(s: seq<Point>, range: CenterRect)
    requires forall q :: q in s ==> !Contains(range, q)
    ensures Filter(s, range) == []
  {
    if s != [] {
      assert forall q :: q in s[1..] ==> q in s;
      FilterNone(s[1..], range);
    }
  }

  lemma {:induction false} TranslateConcat(a: seq<Point>, b: seq<Point>, dx: real, dy: real)
    ensures TranslateAll(a + b, dx, dy) == TranslateAll(a, dx, dy) + TranslateAll(b, dx, dy)
  {
    var l, r := TranslateAll(a + b, dx, dy), TranslateAll(a, dx, dy) + TranslateAll(b, dx, dy);
    forall i | 0 <= i < |l|
      ensures l[i] == r[i]
    {
      if i < |a| {
        assert r[i] == TranslateAll(a, dx, dy)[i];
      } else {
        assert r[i] == TranslateAll(b, dx, dy)[i - |a|];
      }
    }
  }

  /** Translating the hits of `rect` is filtering the translated points by `range`, provided
      the translation maps exactly the points of `rect` into `range`. */
  lemma {:induction false} TranslateFilter(s: seq<Point>, rect: CenterRect, range: CenterRect, dx: real, dy: real)
    requires forall q :: q in s ==> (Contains(rect, q) <==> Contains(range, Translate(q, dx, dy)))
    ensures TranslateAll(Filter(s, rect), dx, dy) == Filter(TranslateAll(s, dx, dy), range)
  {
    if s != [] {
      assert forall q :: q in s[1..] ==> q in s;
      TranslateFilter(s[1..], rect, range, dx, dy);
      assert TranslateAll(s, dx, dy)[1..] == TranslateAll(s[1..], dx, dy);
      TranslateConcat(if Contains(rect, s[0]) then [s[0]] else [], Filter(s[1..], rect), dx, dy);
    }
  }

  /** Every point stored anywhere in a valid tree lies inside its boundary. */
  lemma {:induction false} StoredInBoundary(t: Tree)
    requires Valid(t)
    ensures forall q :: q in Stored(t) ==> Contains(t.boundary, q)
    decreases t
  {
    match t.branches
    case Undivided =>
      assert Stored(t) == t.points + [];
    case Divided(a, b, c, d) =>
      StoredInBoundary(a);
      StoredInBoundary(b);
      StoredInBoundary(c);
      StoredInBoundary(d);
      forall q | q in BranchStored(t.branches) ensures Contains(t.boundary, q) {
        QuadrantsCoverParent(t.boundary, q);
      }
  }

  /** The branch walk of a valid tree returns exactly the stored points inside the range, in
      storage order and with multiplicity: pruning a branch whose boundary misses the range
      loses nothing. */
  lemma {:induction false} QueryLocalIsFilter(t: Tree, range: CenterRect)
    requires Valid(t)
    ensures QueryLocal(t, range) == Filter(Stored(t), range)
    decreases t
  {
    if !Intersects(t.boundary, range) {
      StoredInBoundary(t);
      forall q | q in Stored(t) ensures !Contains(range, q) {
        if Contains(range, q) {
          CommonPointIntersects(t.boundary, range, q);
        }
      }
      FilterNone(Stored(t), range);
    } else {
      match t.branches
      case Undivided =>
        assert Stored(t) == t.points;
      case Divided(a, b, c, d) =>
        QueryLocalIsFilter(a, range);
        QueryLocalIsFilter(b, range);
        QueryLocalIsFilter(c, range);
        QueryLocalIsFilter(d, range);
        FilterConcat(t.points, BranchStored(t.branches), range);
        FilterConcat(Stored(a) + Stored(b) + Stored(c), Stored(d), range);
        FilterConcat(Stored(a) + Stored(b), Stored(c), range);
        FilterConcat(Stored(a), Stored(b), range);
    }
  }

  /** A range that lies within the root boundary needs no wrapping: the query returns exactly
      the stored points it contains, with multiplicity. */
  lemma QueryInsideBoundary(t: Tree, range: CenterRect)
    requires Valid(t) && RootShaped(t.boundary)
    requires 0.0 <= range.x - range.w && range.x + range.w <= 2.0 * t.boundary.w
    requires 0.0 <= range.y - range.h && range.y + range.h <= 2.0 * t.boundary.h
    ensures Query(t, range) == Filter(Stored(t), range)
  {
    QueryLocalIsFilter(t, range);
  }

  /** The stored points shifted by one period `(dx, dy)` of the tiling that fall in `range`. */
  function Tiled(t: Tree, range: CenterRect, dx: real, dy: real): seq<Point> {
    Filter(TranslateAll(Stored(t), dx, dy), range)
  }

  /** The rectangle where the two overflow strips of a range meet. */
  function Corner(h: Strip, v: Strip): CenterRect {
    CenterRect(h.rect.x, v.rect.y, h.rect.w, v.rect.h)
  }

  /** For a range no larger than the boundary that intersects it, the strips are folded back
      completely: neither strip overflows along its own axis again, the horizontal strip's
      vertical strip and the vertical strip's horizontal strip are the same corner, and the
      corner overflows nowhere. */
  lemma StripsSettle(b: CenterRect, range: CenterRect)
    requires RootShaped(b) && Intersects(b, range)
    requires 0.0 <= range.w <= b.w && 0.0 <= range.h <= b.h
    ensures HorizontalStrip(b, range).Some? ==>
      var h := HorizontalStrip(b, range).value;
      && Intersects(b, h.rect) && HorizontalStrip(b, h.rect).None?
      && VerticalStrip(b, h.rect) ==
         (if VerticalStrip(b, range).Some?
          then Some(Strip(Corner(h, VerticalStrip(b, range).value), 0.0, VerticalStrip(b, range).value.dy))
          else None)
    ensures VerticalStrip(b, range).Some? ==>
      var v := VerticalStrip(b, range).value;
      && Intersects(b, v.rect) && VerticalStrip(b, v.rect).None?
      && HorizontalStrip(b, v.rect) ==
         (if HorizontalStrip(b, range).Some?
          then Some(Strip(Corner(HorizontalStrip(b, range).value, v), HorizontalStrip(b, range).value.dx, 0.0))
          else None)
    ensures HorizontalStrip(b, range).Some? && VerticalStrip(b, range).Some? ==>
      var c := Corner(HorizontalStrip(b, range).value, VerticalStrip(b, range).value);
      Intersects(b, c) && HorizontalStrip(b, c).None? && VerticalStrip(b, c).None?
  {
  }

  /** Inside the boundary, a strip (or the corner) holds exactly the points that its `change`
      moves into the range. */
  lemma StripsFold(b: CenterRect, range: CenterRect, q: Point)
    requires RootShaped(b) && Intersects(b, range) && Contains(b, q)
    requires 0.0 <= range.w <= b.w && 0.0 <= range.h <= b.h
    ensures HorizontalStrip(b, range).Some? ==>
      var h := HorizontalStrip(b, range).value;
      Contains(h.rect, q) <==> Contains(range, Translate(q, h.dx, 0.0))
    ensures VerticalStrip(b, range).Some? ==>
      var v := VerticalStrip(b, range).value;
      Contains(v.rect, q) <==> Contains(range, Translate(q, 0.0, v.dy))
    ensures HorizontalStrip(b, range).Some? && VerticalStrip(b, range).Some? ==>
      var h, v := HorizontalStrip(b, range).value, VerticalStrip(b, range).value;
      Contains(Corner(h, v), q) <==> Contains(range, Translate(q, h.dx, v.dy))
  {
  }


  lemma {:induction false} TranslateTwice(s: seq<Point>, dx1: real, dy1: real, dx2: real, dy2: real)
    ensures TranslateAll(TranslateAll(s, dx1, dy1), dx2, dy2) == TranslateAll(s, dx1 + dx2, dy1 + dy2)
  {
    var a, b := TranslateAll(TranslateAll(s, dx1, dy1), dx2, dy2), TranslateAll(s, dx1 + dx2, dy1 + dy2);
    assert |a| == |b|;
    forall i | 0 <= i < |a| ensures a[i] == b[i] {
      assert a[i] == Translate(Translate(s[i], dx1, dy1), dx2, dy2);
    }
  }

  /** One level of a top-level query, as a separate fact. */
  lemma QueryUnfold(t: Tree, range: CenterRect)
    requires RootShaped(t.boundary) && Intersects(t.boundary, range)
    ensures var hs, vs := HorizontalStrip(t.boundary, range), VerticalStrip(t.boundary, range);
      Query(t, range) ==
        (if hs.Some? then TranslateAll(Query(t, hs.value.rect), hs.value.dx, hs.value.dy) else []) +
        (if vs.Some? then TranslateAll(Query(t, vs.value.rect), vs.value.dx, vs.value.dy) else []) +
        QueryLocal(t, range)
  {
  }

  /** Without strips a top-level query is the branch walk alone. */
  lemma QueryNoStrips(t: Tree, range: CenterRect)
    requires RootShaped(t.boundary) && Intersects(t.boundary, range)
    requires HorizontalStrip(t.boundary, range).None? && VerticalStrip(t.boundary, range).None?
    ensures Query(t, range) == QueryLocal(t, range)
  {
    assert [] + [] + QueryLocal(t, range) == QueryLocal(t, range);
  }

  /** The hits of a rectangle inside a valid root, moved by a `change` that maps exactly the
      rectangle's points into the range, are that period's tile of the range. */
  lemma FoldedHits(t: Tree, rect: CenterRect, range: CenterRect, dx: real, dy: real)
    requires Valid(t) && RootShaped(t.boundary)
    requires forall q :: Contains(t.boundary, q) ==> (Contains(rect, q) <==> Contains(range, Translate(q, dx, dy)))
    ensures TranslateAll(QueryLocal(t, rect), dx, dy) == Tiled(t, range, dx, dy)
  {
    QueryLocalIsFilter(t, rect);
    StoredInBoundary(t);
    TranslateFilter(Stored(t), rect, range, dx, dy);
  }

  /** A strip's hits when its own sub-strip is the corner `c`, reached by `(cdx, cdy)`. */
  lemma CornerThenStrip(t: Tree, rect: CenterRect, c: CenterRect, range: CenterRect,
                        cdx: real, cdy: real, dx: real, dy: real)
    requires Valid(t) && RootShaped(t.boundary)
    requires forall q :: Contains(t.boundary, q) ==> (Contains(rect, q) <==> Contains(range, Translate(q, dx, dy)))
    requires forall q :: Contains(t.boundary, q) ==> (Contains(c, q) <==> Contains(range, Translate(q, cdx + dx, cdy + dy)))
    ensures TranslateAll(TranslateAll(QueryLocal(t, c), cdx, cdy) + QueryLocal(t, rect), dx, dy)
            == Tiled(t, range, cdx + dx, cdy + dy) + Tiled(t, range, dx, dy)
  {
    TranslateConcat(TranslateAll(QueryLocal(t, c), cdx, cdy), QueryLocal(t, rect), dx, dy);
    TranslateTwice(QueryLocal(t, c), cdx, cdy, dx, dy);
    FoldedHits(t, c, range, cdx + dx, cdy + dy);
    FoldedHits(t, rect, range, dx, dy);
  }

  /** `StripsFold` for every point of the boundary at once. */
  lemma StripsFoldAll(b: CenterRect, range: CenterRect)
    requires RootShaped(b) && Intersects(b, range)
    requires 0.0 <= range.w <= b.w && 0.0 <= range.h <= b.h
    ensures HorizontalStrip(b, range).Some? ==>
      var h := HorizontalStrip(b, range).value;
      forall q :: Contains(b, q) ==> (Contains(h.rect, q) <==> Contains(range, Translate(q, h.dx, 0.0)))
    ensures VerticalStrip(b, range).Some? ==>
      var v := VerticalStrip(b, range).value;
      forall q :: Contains(b, q) ==> (Contains(v.rect, q) <==> Contains(range, Translate(q, 0.0, v.dy)))
    ensures HorizontalStrip(b, range).Some? && VerticalStrip(b, range).Some? ==>
      var h, v := HorizontalStrip(b, range).value, VerticalStrip(b, range).value;
      forall q :: Contains(b, q) ==> (Contains(Corner(h, v), q) <==> Contains(range, Translate(q, h.dx, v.dy)))
  {
    forall q | Contains(b, q)
      ensures HorizontalStrip(b, range).Some? ==>
        var h := HorizontalStrip(b, range).value;
        Contains(h.rect, q) <==> Contains(range, Translate(q, h.dx, 0.0))
      ensures VerticalStrip(b, range).Some? ==>
        var v := VerticalStrip(b, range).value;
        Contains(v.rect, q) <==> Contains(range, Translate(q, 0.0, v.dy))
      ensures HorizontalStrip(b, range).Some? && VerticalStrip(b, range).Some? ==>
        var h, v := HorizontalStrip(b, range).value, VerticalStrip(b, range).value;
        Contains(Corner(h, v), q) <==> Contains(range, Translate(q, h.dx, v.dy))
    {
      StripsFold(b, range, q);
    }
  }

  /** The translated hits of the horizontal strip: the corner tile (when there is a vertical
      strip too), then the horizontal tile. */
  lemma HorizontalPart(t: Tree, range: CenterRect)
    requires Valid(t) && RootShaped(t.boundary) && Intersects(t.boundary, range)
    requires 0.0 <= range.w <= t.boundary.w && 0.0 <= range.h <= t.boundary.h
    requires HorizontalStrip(t.boundary, range).Some?
    ensures var h, vs := HorizontalStrip(t.boundary, range).value, VerticalStrip(t.boundary, range);
      TranslateAll(Query(t, h.rect), h.dx, h.dy) ==
      (if vs.Some? then Tiled(t, range, h.dx, vs.value.dy) else []) + Tiled(t, range, h.dx, 0.0)
  {
    if VerticalStrip(t.boundary, range).Some? {
      HorizontalCornered(t, range);
    } else {
      HorizontalAlone(t, range);
    }
  }

  lemma HorizontalAlone(t: Tree, range: CenterRect)
    requires Valid(t) && RootShaped(t.boundary) && Intersects(t.boundary, range)
    requires 0.0 <= range.w <= t.boundary.w && 0.0 <= range.h <= t.boundary.h
    requires HorizontalStrip(t.boundary, range).Some? && VerticalStrip(t.boundary, range).None?
    ensures var h := HorizontalStrip(t.boundary, range).value;
      TranslateAll(Query(t, h.rect), h.dx, h.dy) == [] + Tiled(t, range, h.dx, 0.0)
  {
    var h := HorizontalStrip(t.boundary, range).value;
    StripsSettle(t.boundary, range);
    StripsFoldAll(t.boundary, range);
    QueryNoStrips(t, h.rect);
    FoldedHits(t, h.rect, range, h.dx, 0.0);
  }

  lemma HorizontalCornered(t: Tree, range: CenterRect)
    requires Valid(t) && RootShaped(t.boundary) && Intersects(t.boundary, range)
    requires 0.0 <= range.w <= t.boundary.w && 0.0 <= range.h <= t.boundary.h
    requires HorizontalStrip(t.boundary, range).Some? && VerticalStrip(t.boundary, range).Some?
    ensures var h, v := HorizontalStrip(t.boundary, range).value, VerticalStrip(t.boundary, range).value;
      TranslateAll(Query(t, h.rect), h.dx, h.dy) == Tiled(t, range, h.dx, v.dy) + Tiled(t, range, h.dx, 0.0)
  {
    var h, v := HorizontalStrip(t.boundary, range).value, VerticalStrip(t.boundary, range).value;
    StripsSettle(t.boundary, range);
    StripsFoldAll(t.boundary, range);
    QueryUnfold(t, h.rect);
    HorizontalWithCorner(t, range, h, v);
  }

  lemma HorizontalWithCorner(t: Tree, range: CenterRect, h: Strip, v: Strip)
    requires Valid(t) && RootShaped(t.boundary)
    requires Query(t, h.rect) == TranslateAll(Query(t, Corner(h, v)), 0.0, v.dy) + QueryLocal(t, h.rect)
    requires Intersects(t.boundary, Corner(h, v))
    requires HorizontalStrip(t.boundary, Corner(h, v)).None? && VerticalStrip(t.boundary, Corner(h, v)).None?
    requires h.dy == 0.0
    requires forall q :: Contains(t.boundary, q) ==> (Contains(h.rect, q) <==> Contains(range, Translate(q, h.dx, 0.0)))
    requires forall q :: Contains(t.boundary, q) ==> (Contains(Corner(h, v), q) <==> Contains(range, Translate(q, h.dx, v.dy)))
    ensures TranslateAll(Query(t, h.rect), h.dx, h.dy) == Tiled(t, range, h.dx, v.dy) + Tiled(t, range, h.dx, 0.0)
  {
    var c := Corner(h, v);
    QueryNoStrips(t, c);
    assert h.dx == 0.0 + h.dx && v.dy == v.dy + 0.0;
    CornerThenStrip(t, h.rect, c, range, 0.0, v.dy, h.dx, 0.0);
  }

  /** The translated hits of the vertical strip: the corner tile (when there is a horizontal
      strip too), then the vertical tile. */
  lemma VerticalPart(t: Tree, range: CenterRect)
    requires Valid(t) && RootShaped(t.boundary) && Intersects(t.boundary, range)
    requires 0.0 <= range.w <= t.boundary.w && 0.0 <= range.h <= t.boundary.h
    requires VerticalStrip(t.boundary, range).Some?
    ensures var hs, v := HorizontalStrip(t.boundary, range), VerticalStrip(t.boundary, range).value;
      TranslateAll(Query(t, v.rect), v.dx, v.dy) ==
      (if hs.Some? then Tiled(t, range, hs.value.dx, v.dy) else []) + Tiled(t, range, 0.0, v.dy)
  {
    if HorizontalStrip(t.boundary, range).Some? {
      VerticalCornered(t, range);
    } else {
      VerticalAlone(t, range);
    }
  }

  lemma VerticalAlone(t: Tree, range: CenterRect)
    requires Valid(t) && RootShaped(t.boundary) && Intersects(t.boundary, range)
    requires 0.0 <= range.w <= t.boundary.w && 0.0 <= range.h <= t.boundary.h
    requires VerticalStrip(t.boundary, range).Some? && HorizontalStrip(t.boundary, range).None?
    ensures var v := VerticalStrip(t.boundary, range).value;
      TranslateAll(Query(t, v.rect), v.dx, v.dy) == [] + Tiled(t, range, 0.0, v.dy)
  {
    var v := VerticalStrip(t.boundary, range).value;
    StripsSettle(t.boundary, range);
    StripsFoldAll(t.boundary, range);
    QueryNoStrips(t, v.rect);
    FoldedHits(t, v.rect, range, 0.0, v.dy);
  }

  lemma VerticalCornered(t: Tree, range: CenterRect)
    requires Valid(t) && RootShaped(t.boundary) && Intersects(t.boundary, range)
    requires 0.0 <= range.w <= t.boundary.w && 0.0 <= range.h <= t.boundary.h
    requires VerticalStrip(t.boundary, range).Some? && HorizontalStrip(t.boundary, range).Some?
    ensures var h, v := HorizontalStrip(t.boundary, range).value, VerticalStrip(t.boundary, range).value;
      TranslateAll(Query(t, v.rect), v.dx, v.dy) == Tiled(t, range, h.dx, v.dy) + Tiled(t, range, 0.0, v.dy)
  {
    var h, v := HorizontalStrip(t.boundary, range).value, VerticalStrip(t.boundary, range).value;
    StripsSettle(t.boundary, range);
    StripsFoldAll(t.boundary, range);
    QueryUnfold(t, v.rect);
    VerticalWithCorner(t, range, h, v);
  }

  lemma VerticalWithCorner(t: Tree, range: CenterRect, h: Strip, v: Strip)
    requires Valid(t) && RootShaped(t.boundary)
    requires Query(t, v.rect) == TranslateAll(Query(t, Corner(h, v)), h.dx, 0.0) + QueryLocal(t, v.rect)
    requires Intersects(t.boundary, Corner(h, v))
    requires HorizontalStrip(t.boundary, Corner(h, v)).None? && VerticalStrip(t.boundary, Corner(h, v)).None?
    requires v.dx == 0.0
    requires forall q :: Contains(t.boundary, q) ==> (Contains(v.rect, q) <==> Contains(range, Translate(q, 0.0, v.dy)))
    requires forall q :: Contains(t.boundary, q) ==> (Contains(Corner(h, v), q) <==> Contains(range, Translate(q, h.dx, v.dy)))
    ensures TranslateAll(Query(t, v.rect), v.dx, v.dy) == Tiled(t, range, h.dx, v.dy) + Tiled(t, range, 0.0, v.dy)
  {
    var c := Corner(h, v);
    QueryNoStrips(t, c);
    assert h.dx == h.dx + 0.0 && v.dy == 0.0 + v.dy;
    CornerThenStrip(t, v.rect, c, range, h.dx, 0.0, 0.0, v.dy);
  }

  /** The wraparound query on a torus: for a range no larger than the root that intersects it,
      `query` returns, in this order, the corner tile and the horizontal tile, the corner tile
      again and the vertical tile, and finally the stored points in the range itself. Every
      point of every tile appears with its multiplicity; corner points appear twice. */
  lemma QueryTiles(t: Tree, range: CenterRect)
    requires Valid(t) && RootShaped(t.boundary) && Intersects(t.boundary, range)
    requires 0.0 <= range.w <= t.boundary.w && 0.0 <= range.h <= t.boundary.h
    ensures var hs, vs := HorizontalStrip(t.boundary, range), VerticalStrip(t.boundary, range);
      Query(t, range) ==
        (if hs.Some? then (if vs.Some? then Tiled(t, range, hs.value.dx, vs.value.dy) else [])
                          + Tiled(t, range, hs.value.dx, 0.0) else []) +
        (if vs.Some? then (if hs.Some? then Tiled(t, range, hs.value.dx, vs.value.dy) else [])
                          + Tiled(t, range, 0.0, vs.value.dy) else []) +
        Tiled(t, range, 0.0, 0.0)
  {
    var hs, vs := HorizontalStrip(t.boundary, range), VerticalStrip(t.boundary, range);
    QueryUnfold(t, range);
    if hs.Some? {
      HorizontalPart(t, range);
    }
    if vs.Some? {
      VerticalPart(t, range);
    }
    QueryLocalIsFilter(t, range);
    assert TranslateAll(Stored(t), 0.0, 0.0) == Stored(t);
  }

  /** An empty node keeps a point inside its boundary as its only point and returns `undefined`. */
  lemma InsertIntoEmpty(r: CenterRect, capacity: nat, p: Point)
    requires capacity > 0 && Contains(r, p)
    ensures Insert(Empty(r, capacity), p) == (Node(r, capacity, [p], Undivided), ReturnedUndefined)
  {
    assert [] + [p] == [p];
  }

  /** The centre of a full leaf over `[0, 2] x [0, 2]` with capacity 1 lands in all four new
      branches. */
  lemma CentreIntoFullLeaf(p0: Point)
    requires Contains(CenterRect(1.0, 1.0, 1.0, 1.0), p0)
    ensures var b, c := CenterRect(1.0, 1.0, 1.0, 1.0), Point(1.0, 1.0);
      Insert(Node(b, 1, [p0], Undivided), c) ==
      (Node(b, 1, [p0], Divided(Node(QuadrantOf(b, false, false), 1, [c], Undivided),
                                Node(QuadrantOf(b, true, false), 1, [c], Undivided),
                                Node(QuadrantOf(b, false, true), 1, [c], Undivided),
                                Node(QuadrantOf(b, true, true), 1, [c], Undivided))),
       ReturnedUndefined)
  {
    var b, c := CenterRect(1.0, 1.0, 1.0, 1.0), Point(1.0, 1.0);
    InsertIntoEmpty(QuadrantOf(b, false, false), 1, c);
    InsertIntoEmpty(QuadrantOf(b, true, false), 1, c);
    InsertIntoEmpty(QuadrantOf(b, false, true), 1, c);
    InsertIntoEmpty(QuadrantOf(b, true, true), 1, c);
  }

  /** A point on the edge shared by the quadrants is stored once per quadrant: with capacity 1
      over `[0, 2] x [0, 2]`, inserting `(0.5, 0.5)` and then the centre `(1, 1)` stores the
      centre in all four branches. */
  lemma SharedEdgeStoredInEveryQuadrant()
    ensures var t1 := Insert(Empty(CenterRect(1.0, 1.0, 1.0, 1.0), 1), Point(0.5, 0.5)).0;
            var (t2, res) := Insert(t1, Point(1.0, 1.0));
            res == ReturnedUndefined && multiset(Stored(t2))[Point(1.0, 1.0)] == 4
  {
    var b, c := CenterRect(1.0, 1.0, 1.0, 1.0), Point(1.0, 1.0);
    InsertIntoEmpty(b, 1, Point(0.5, 0.5));
    CentreIntoFullLeaf(Point(0.5, 0.5));
    var t2 := Insert(Node(b, 1, [Point(0.5, 0.5)], Undivided), c).0;
    var leaf := Node(QuadrantOf(b, false, false), 1, [c], Undivided);
    assert Stored(leaf) == [c];
    assert BranchStored(t2.branches) == [c, c, c, c];
    assert Stored(t2) == [Point(0.5, 0.5), c, c, c, c];
  }
}
