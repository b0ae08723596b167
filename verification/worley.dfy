/** The Worley-noise background of js/worleyNoise.js and its near-duplicate js/worleyNoiseGen.js:
    seed points, the quadtree over the canvas, the per-pixel squared distance to the nearest
    cached candidate, and the RGBA pixel buffer. */
module Worley {
  import opened Wrappers
  import opened Geometry
  import opened QuadTree
  import Utils
  import opened Arith
  import opened Grids

  // ---------------------------------------------------------------------------------------------
  // Distances
  // ---------------------------------------------------------------------------------------------

  /** `Number.MAX_SAFE_INTEGER` as a distance: the value of a pixel with no candidate. */
  const NoDistance: real := MaxSafeInteger as real

  /** `distSquare(x, y)`: the squared length of the offset `(x, y)`. */
  function DistSquare(x: real, y: real): (r: real)
    ensures r >= 0.0
    ensures r >= x * x && r >= y * y
  {
    SquareNonNegative(x);
    SquareNonNegative(y);
    x * x + y * y
  }

  lemma SquareNonNegative(x: real)
    ensures x * x >= 0.0
  {
  }

  /** `lowestValue(arr)`: the smallest element, or `MAX_SAFE_INTEGER` when no element is smaller. */
  method LowestValue(arr: seq<real>) returns (lowest: real)
    ensures lowest <= NoDistance
    ensures forall i :: 0 <= i < |arr| ==> lowest <= arr[i]
    ensures lowest == NoDistance || exists i :: 0 <= i < |arr| && lowest == arr[i]
    ensures arr == [] ==> lowest == NoDistance
  {
    lowest := NoDistance;
    var k := 0;
    while k < |arr|
      invariant 0 <= k <= |arr|
      invariant lowest <= NoDistance
      invariant forall i :: 0 <= i < k ==> lowest <= arr[i]
      invariant lowest == NoDistance || exists i :: 0 <= i < k && lowest == arr[i]
    {
      if lowest > arr[k] {
        lowest := arr[k];
      }
      k := k + 1;
    }
  }

  /** The squared distance from pixel `(x, y)` to `p`, as the pixel loop computes it. */
  function PointDist(p: Point, x: real, y: real): real {
    DistSquare(p.x - x, p.y - y)
  }

  /** The pixel loop's `closestDist`: starting from `MAX_SAFE_INTEGER`, every candidate strictly
      closer replaces it, in list order. */
  function Closest(cands: seq<Point>, x: real, y: real): (r: real)
    ensures 0.0 <= r <= NoDistance
  {
    if cands == [] then NoDistance
    else
      var r := Closest(cands[..|cands| - 1], x, y);
      var d := PointDist(cands[|cands| - 1], x, y);
      if d < r then d else r
  }

  /** `closestDist` is the smallest candidate distance, or `MAX_SAFE_INTEGER` when no candidate is
      closer than that. */
  lemma {:induction false} ClosestIsMinimum(cands: seq<Point>, x: real, y: real)
    ensures forall k :: 0 <= k < |cands| ==> Closest(cands, x, y) <= PointDist(cands[k], x, y)
    ensures Closest(cands, x, y) == NoDistance ||
      exists k :: 0 <= k < |cands| && Closest(cands, x, y) == PointDist(cands[k], x, y)
  {
    if cands != [] {
      var init := cands[..|cands| - 1];
      ClosestIsMinimum(init, x, y);
      assert forall k :: 0 <= k < |cands| - 1 ==> cands[k] == init[k];
      if Closest(init, x, y) != NoDistance && Closest(cands, x, y) == Closest(init, x, y) {
        var k :| 0 <= k < |init| && Closest(init, x, y) == PointDist(init[k], x, y);
        assert cands[k] == init[k];
      }
    }
  }

  // ---------------------------------------------------------------------------------------------
  // The generator's state
  // ---------------------------------------------------------------------------------------------

  datatype Colour = Colour(r: int, g: int, b: int)

  /** The constructor's option object; a missing `pointCount` is `None`. */
  datatype Options = Options(startColor: Colour, endColor: Colour, pointCount: Option<int>,
                             ratioPower: real, maxDistForRatio: real)

  const DefaultOptions: Options :=
    Options(Colour(255, 197, 185), Colour(255, 0, 0), None, 2.0, 200.0)

  /** A `WorleyNoise` object: canvas size, seed points, the distance field and the colour ramp's
      end points. */
  datatype Noise = Noise(width: nat, height: nat, pointCount: int,
                         maxDistForRatio: real, maxDistForRatioSq: real, ratioPower: real,
                         points: seq<Point>, distances: seq<real>,
                         start: Colour, end: Colour)

  /** The field invariant every operation keeps: the squared search distance is the square. */
  predicate Consistent(n: Noise) {
    n.maxDistForRatioSq == n.maxDistForRatio * n.maxDistForRatio
  }

  /** `Math.floor(40 * height * width / 1524196)`: 40 points for a 1234 x 1234 canvas. */
  function DefaultPointCount(width: nat, height: nat): nat {
    40 * height * width / 1524196
  }

  /** JavaScript's `a || b` on a decoded channel: `NaN` (here `None`) and 0 are falsy. */
  function ChannelOr(c: Option<int>, fallback: int): int {
    if c.Some? && c.value != 0 then c.value else fallback
  }

  /** The constructor's `hexToRgb(hex).r || fallback[0]` and so on for one colour. */
  function DecodedColour(hex: string, fallback: Colour): Colour {
    var c := Utils.HexToRgb(hex);
    Colour(ChannelOr(c.r, fallback.r), ChannelOr(c.g, fallback.g), ChannelOr(c.b, fallback.b))
  }

  /** The fixed palette of the background ramp. */
  const StartHex: string := "#aaa8d7"
  const EndHex: string := "#7c7c9d"

  const StartColour: Colour := Colour(170, 168, 215)
  const EndColour: Colour := Colour(124, 124, 157)

  /** Both palette colours decode to non-zero channels, so the fallbacks are never used. */
  lemma PaletteIgnoresFallback(fallback: Colour)
    ensures DecodedColour(StartHex, fallback) == StartColour
    ensures DecodedColour(EndHex, fallback) == EndColour
  {
    Utils.PaletteStart();
    Utils.PaletteEnd();
  }

  /** The constructor. The ramp colours are the decoded palette `#aaa8d7` to `#7c7c9d`; every
      channel decodes to a non-zero number, so the colour options are never used (`NewNoisePalette`). */
  function NewNoise(width: nat, height: nat, o: Options): (n: Noise)
    ensures n.width == width && n.height == height
    ensures n.pointCount == if o.pointCount.Some? && o.pointCount.value != 0 then o.pointCount.value
                            else DefaultPointCount(width, height)
    ensures Consistent(n) && n.maxDistForRatio == o.maxDistForRatio && n.ratioPower == o.ratioPower
    ensures n.points == [] && n.distances == []
  {
    Noise(width, height,
          if o.pointCount.Some? && o.pointCount.value != 0 then o.pointCount.value
          else DefaultPointCount(width, height),
          o.maxDistForRatio, o.maxDistForRatio * o.maxDistForRatio, o.ratioPower, [], [],
          StartColour, EndColour)
  }

  /** The constructor's colour expressions, `hexToRgb(palette).r || option[0]` per channel, give
      the palette colours whatever colours the options hold: `NewNoise` stores those values. */
  lemma NewNoisePalette(width: nat, height: nat, o: Options)
    ensures NewNoise(width, height, o).start == DecodedColour(StartHex, o.startColor)
    ensures NewNoise(width, height, o).end == DecodedColour(EndHex, o.endColor)
  {
    PaletteIgnoresFallback(o.startColor);
    PaletteIgnoresFallback(o.endColor);
  }

  /** The module-level `new WorleyNoise()` of the generator file: a 400 x 400 canvas with 4 points. */
  lemma DefaultGenerator()
    ensures NewNoise(400, 400, DefaultOptions).pointCount == 4
    ensures NewNoise(400, 400, DefaultOptions).maxDistForRatioSq == 40000.0
  {
  }

  /** `setSize`: the new canvas, and the point count recomputed for it. */
  function SetSize(n: Noise, width: nat, height: nat): (r: Noise)
    ensures r.width == width && r.height == height && r.pointCount == DefaultPointCount(width, height)
    ensures Consistent(n) ==> Consistent(r)
    ensures r.points == n.points && r.distances == n.distances && r.maxDistForRatio == n.maxDistForRatio
  {
    n.(width := width, height := height, pointCount := DefaultPointCount(width, height))
  }

  /** `setMaxDistForRatio`: the distance and its square change together. */
  function SetMaxDistForRatio(n: Noise, v: real): (r: Noise)
    ensures Consistent(r) && r.maxDistForRatio == v
    ensures r.(maxDistForRatio := n.maxDistForRatio, maxDistForRatioSq := n.maxDistForRatioSq) == n
  {
    n.(maxDistForRatio := v, maxDistForRatioSq := v * v)
  }

  /** `setRatioPower`: only the ramp's exponent changes. */
  function SetRatioPower(n: Noise, v: real): (r: Noise)
    ensures r.ratioPower == v && r.(ratioPower := n.ratioPower) == n
    ensures Consistent(n) ==> Consistent(r)
  {
    n.(ratioPower := v)
  }

  /** A seed point has integer coordinates inside `[0, width) x [0, height)`. */
  predicate SeedPoint(p: Point, width: nat, height: nat) {
    p.x == p.x.Floor as real && p.y == p.y.Floor as real &&
    0.0 <= p.x < width as real && 0.0 <= p.y < height as real
  }

  /** `createRandomPoints`, for the `Math.random()` draws `(x, y)` the loop makes per point. */
  method CreateRandomPoints(n: Noise, draws: seq<(real, real)>) returns (r: Noise)
    requires n.pointCount <= |draws|
    ensures r == n.(points := r.points)
    ensures |r.points| == if n.pointCount < 0 then 0 else n.pointCount
    ensures forall i :: 0 <= i < |r.points| ==>
      r.points[i] == Point(Utils.RandomInteger(0, n.width, draws[i].0) as real,
                           Utils.RandomInteger(0, n.height, draws[i].1) as real)
    ensures n.width > 0 && n.height > 0 && (forall i :: 0 <= i < |draws| ==> 0.0 <= draws[i].0 < 1.0 && 0.0 <= draws[i].1 < 1.0)
      ==> forall i :: 0 <= i < |r.points| ==> SeedPoint(r.points[i], n.width, n.height)
  {
    var points: seq<Point> := [];
    var i := 0;
    while i < n.pointCount
      invariant 0 <= i <= |draws| && |points| == i
      invariant i == 0 || i <= n.pointCount
      invariant forall k :: 0 <= k < i ==>
        points[k] == Point(Utils.RandomInteger(0, n.width, draws[k].0) as real,
                           Utils.RandomInteger(0, n.height, draws[k].1) as real)
    {
      points := points + [Point(Utils.RandomInteger(0, n.width, draws[i].0) as real,
                                Utils.RandomInteger(0, n.height, draws[i].1) as real)];
      i := i + 1;
    }
    r := n.(points := points);
  }

  // ---------------------------------------------------------------------------------------------
  // The tree over the canvas
  // ---------------------------------------------------------------------------------------------

  /** `centerRect(width * 0.5, height * 0.5, width * 0.5, height * 0.5)`: the canvas. */
  function CanvasRect(width: nat, height: nat): (b: CenterRect)
    ensures width > 0 && height > 0 ==> RootShaped(b)
  {
    CenterRect(width as real * 0.5, height as real * 0.5, width as real * 0.5, height as real * 0.5)
  }

  /** Every seed point lies on the canvas, so the root accepts it. */
  lemma SeedPointAccepted(t: Tree, p: Point, width: nat, height: nat)
    requires Valid(t) && t.boundary == CanvasRect(width, height) && SeedPoint(p, width, height)
    ensures Insert(t, p).1 != ReturnedFalse
    ensures multiset(Stored(Insert(t, p).0))[p] > multiset(Stored(t))[p]
  {
    InsertKeeps(t, p);
  }

  /** The tree of capacity 7 over the canvas after inserting `points` in order. */
  function BuildTree(points: seq<Point>, width: nat, height: nat): (t: Tree)
    ensures Valid(t) && t.boundary == CanvasRect(width, height) && t.capacity == 7
  {
    if points == [] then Empty(CanvasRect(width, height), 7)
    else Insert(BuildTree(points[..|points| - 1], width, height), points[|points| - 1]).0
  }

  /** The tree holds every point that lies on the canvas at least as often as it was inserted. */
  lemma {:induction false} BuildTreeHolds(points: seq<Point>, width: nat, height: nat)
    ensures var t := BuildTree(points, width, height);
      forall q :: Contains(t.boundary, q) ==> multiset(Stored(t))[q] >= multiset(points)[q]
  {
    if points != [] {
      var init, p := points[..|points| - 1], points[|points| - 1];
      assert points == init + [p];
      assert multiset(points) == multiset(init) + multiset{p};
      BuildTreeHolds(init, width, height);
      InsertKeeps(BuildTree(init, width, height), p);
    }
  }

  /** The tree holds nothing that was not inserted. */
  lemma {:induction false} BuildTreeOnlyInserted(points: seq<Point>, width: nat, height: nat)
    ensures forall q :: q !in points ==> q !in multiset(Stored(BuildTree(points, width, height)))
  {
    if points != [] {
      var init, p := points[..|points| - 1], points[|points| - 1];
      assert points == init + [p];
      BuildTreeOnlyInserted(init, width, height);
      InsertKeeps(BuildTree(init, width, height), p);
    }
  }

  // ---------------------------------------------------------------------------------------------
  // The distance field
  // ---------------------------------------------------------------------------------------------

  /** `checkMultiple = Math.floor(maxDistForRatio * 0.1)`: the block size of the candidate cache. */
  function CheckMultiple(maxDistForRatio: real): int {
    (maxDistForRatio * 0.1).Floor
  }

  /** `Math.floor(checkMultiple * 0.5)`. */
  function HalfCheck(k: int): int {
    (k as real * 0.5).Floor
  }

  /** The distance between refreshes: JavaScript's `n % k === 0` holds, for `n >= 0`, exactly at
      the multiples of `|k|`. */
  function Period(k: int): nat {
    if k >= 0 then k else -k
  }

  /** `n % k === 0` in JavaScript for `n >= 0`; `n % 0` is `NaN`, which equals nothing. */
  predicate Refreshes(n: nat, k: int) {
    k != 0 && n % Period(k) == 0
  }

  /** The last refresh position at or before `n`: where the cache that pixel `n` reads was filled. */
  function BlockStart(n: nat, k: int): (s: int)
    requires k != 0
    ensures 0 <= s <= n && n - s < Period(k)
  {
    n - n % Period(k)
  }

  /** Between two refreshes the block start stays put; at a refresh it is the position itself;
      and the block start is itself a refresh position. */
  lemma BlockStep(n: nat, k: int)
    requires k != 0
    ensures Refreshes(BlockStart(n, k), k)
    ensures Refreshes(n, k) ==> BlockStart(n, k) == n
    ensures n > 0 && !Refreshes(n, k) ==> BlockStart(n, k) == BlockStart(n - 1, k)
  {
    var a := Period(k);
    DivUnique(n - n % a, a, n / a, 0);
    if n > 0 && n % a != 0 {
      DivUnique(n - 1, a, n / a, n % a - 1);
    }
  }

  /** The search rectangle once its centre has been moved to `(blockX + half, blockY + half)`: the full
      canvas width wide and `1.2 * maxDistForRatio` above and below. */
  function SearchRect(n: Noise, blockX: int, blockY: int): CenterRect {
    var half := HalfCheck(CheckMultiple(n.maxDistForRatio));
    CenterRect((blockX + half) as real, (blockY + half) as real, n.width as real * 0.5, n.maxDistForRatio * 1.2)
  }

  /** The candidate list pixel `(i, j)` reads: the query made at the start of its block, or the
      initial empty list when `checkMultiple` is 0 (then no query ever runs). */
  function Candidates(n: Noise, i: nat, j: nat): (c: seq<Point>)
    requires i < n.width && j < n.height
    ensures CheckMultiple(n.maxDistForRatio) == 0 ==> c == []
  {
    var k := CheckMultiple(n.maxDistForRatio);
    if k == 0 then []
    else Query(BuildTree(n.points, n.width, n.height), SearchRect(n, BlockStart(i, k), BlockStart(j, k)))
  }

  /** The distance pixel `(i, j)` receives. */
  function PixelDistance(n: Noise, i: nat, j: nat): real
    requires i < n.width && j < n.height
  {
    Closest(Candidates(n, i, j), i as real, j as real)
  }

  /** Row-major position of pixel `(i, j)`. */
  function Index(width: nat, height: nat, i: nat, j: nat): (idx: nat)
    requires i < width && j < height
    ensures idx < width * height
  {
    RowBelow(width, i, j, height);
    j * width + i
  }

  /** `generatePixelDistances`: fills `distances` row by row. The candidate list is a cache: it is
      refreshed by a query only where the column (or row) is a multiple of `checkMultiple`, and
      every pixel in between reads the list left by the last refresh. */
  method GeneratePixelDistances(n: Noise) returns (r: Noise)
    ensures r == n.(distances := r.distances)
    ensures |r.distances| == n.width * n.height
    ensures forall j, i :: 0 <= j < n.height && 0 <= i < n.width ==>
      r.distances[Index(n.width, n.height, i, j)] == PixelDistance(n, i, j)
  {
    var w, h := n.width, n.height;
    var tree := BuildTree(n.points, w, h);
    var k := CheckMultiple(n.maxDistForRatio);
    var distances: seq<real> := [];
    var points: seq<Point> := [];
    var searchY: int := 0;
    var j := 0;
    while j < h
      invariant 0 <= j <= h
      invariant distances == Grid(w, j, Cell(n))
      invariant k == 0 ==> points == []
      invariant k != 0 && j > 0 ==> searchY == BlockStart(j - 1, k)
    {
      if k != 0 {
        BlockStep(j, k);
      }
      if Refreshes(j, k) {
        searchY := j;
      }
      var row;
      row, points := FillRow(n, tree, j, searchY, points);
      distances := distances + row;
      j := j + 1;
    }
    FieldLayout(n, distances);
    r := n.(distances := distances);
  }

  /** The distance field as a table indexed `(column, row)`. */
  function Cell(n: Noise): (f: (nat, nat) --> real)
    ensures forall i: nat, j: nat | i < n.width && j < n.height :: f.requires(i, j) && f(i, j) == PixelDistance(n, i, j)
  {
    (i: nat, j: nat) requires i < n.width && j < n.height => PixelDistance(n, i, j)
  }

  /** The finished table holds pixel `(i, j)`'s distance at its row-major index. */
  lemma FieldLayout(n: Noise, distances: seq<real>)
    requires distances == Grid(n.width, n.height, Cell(n))
    ensures |distances| == n.width * n.height
    ensures forall j, i :: 0 <= j < n.height && 0 <= i < n.width ==>
      distances[Index(n.width, n.height, i, j)] == PixelDistance(n, i, j)
  {
    forall j, i | 0 <= j < n.height && 0 <= i < n.width
      ensures distances[Index(n.width, n.height, i, j)] == PixelDistance(n, i, j)
    {
      GridAt(n.width, n.height, Cell(n), i, j);
    }
  }

  /** The inner loop of `generatePixelDistances` over row `j`. */
  method FillRow(n: Noise, tree: Tree, j: nat, searchY: int, points0: seq<Point>)
    returns (row: seq<real>, points: seq<Point>)
    requires j < n.height && tree == BuildTree(n.points, n.width, n.height)
    requires CheckMultiple(n.maxDistForRatio) == 0 ==> points0 == []
    requires CheckMultiple(n.maxDistForRatio) != 0 ==> searchY == BlockStart(j, CheckMultiple(n.maxDistForRatio))
    ensures |row| == n.width
    ensures forall i :: 0 <= i < n.width ==> row[i] == PixelDistance(n, i, j)
    ensures row == Tabulate(n.width, RowOf(Cell(n), j))
    ensures CheckMultiple(n.maxDistForRatio) == 0 ==> points == []
  {
    var k := CheckMultiple(n.maxDistForRatio);
    row, points := [], points0;
    var searchX: int := 0;
    var i := 0;
    while i < n.width
      invariant 0 <= i <= n.width && row == Tabulate(i, RowOf(Cell(n), j))
      invariant k == 0 ==> points == []
      invariant k != 0 && i > 0 ==> searchX == BlockStart(i - 1, k) && points == Query(tree, SearchRect(n, searchX, searchY))
    {
      searchX, points := SearchStep(n, tree, i, j, searchX, searchY, points);
      TabulateSnoc(i, RowOf(Cell(n), j));
      row := row + [Closest(points, i as real, j as real)];
      i := i + 1;
    }
  }

  /** One pixel of the inner loop: re-query at a refresh position, else keep the cache; either
      way the cache then holds the pixel's candidates. */
  method SearchStep(n: Noise, tree: Tree, i: nat, j: nat, searchX0: int, searchY: int, points0: seq<Point>)
    returns (searchX: int, points: seq<Point>)
    requires i < n.width && j < n.height && tree == BuildTree(n.points, n.width, n.height)
    requires CheckMultiple(n.maxDistForRatio) == 0 ==> points0 == []
    requires CheckMultiple(n.maxDistForRatio) != 0 ==> searchY == BlockStart(j, CheckMultiple(n.maxDistForRatio))
    requires CheckMultiple(n.maxDistForRatio) != 0 && i > 0 ==>
               searchX0 == BlockStart(i - 1, CheckMultiple(n.maxDistForRatio)) &&
               points0 == Query(tree, SearchRect(n, searchX0, searchY))
    ensures points == Candidates(n, i, j)
    ensures CheckMultiple(n.maxDistForRatio) != 0 ==> searchX == BlockStart(i, CheckMultiple(n.maxDistForRatio))
  {
    var k := CheckMultiple(n.maxDistForRatio);
    searchX, points := searchX0, points0;
    if k != 0 {
      BlockStep(i, k);
      CandidatesStep(n, i, j);
    }
    if Refreshes(i, k) {
      searchX := i;
      points := Query(tree, SearchRect(n, searchX, searchY));
    }
  }

  /** How the candidates move along a row: a refresh position queries afresh, any other position
      reads what its left neighbour read. */
  lemma CandidatesStep(n: Noise, i: nat, j: nat)
    requires i < n.width && j < n.height && CheckMultiple(n.maxDistForRatio) != 0
    ensures var k := CheckMultiple(n.maxDistForRatio);
      Refreshes(i, k) ==>
        Candidates(n, i, j) == Query(BuildTree(n.points, n.width, n.height), SearchRect(n, i, BlockStart(j, k)))
    ensures var k := CheckMultiple(n.maxDistForRatio);
      i > 0 && !Refreshes(i, k) ==> BlockStart(i, k) == BlockStart(i - 1, k)
    ensures var k := CheckMultiple(n.maxDistForRatio);
      Candidates(n, i, j) == Query(BuildTree(n.points, n.width, n.height), SearchRect(n, BlockStart(i, k), BlockStart(j, k)))
  {
    BlockStep(i, CheckMultiple(n.maxDistForRatio));
  }

  /** With `checkMultiple = 0` no query runs and every pixel keeps `MAX_SAFE_INTEGER`. */
  lemma NoRefreshNoDistance(n: Noise, i: nat, j: nat)
    requires i < n.width && j < n.height && CheckMultiple(n.maxDistForRatio) == 0
    ensures PixelDistance(n, i, j) == NoDistance
  {
  }

  /** A pixel's value is the squared distance to a seed point translated by whole canvas sizes
      (the wraparound), or `MAX_SAFE_INTEGER`; it is never larger than the distance to any
      candidate. */
  lemma PixelDistanceAttained(n: Noise, i: nat, j: nat)
    requires i < n.width && j < n.height
    ensures var d := PixelDistance(n, i, j);
      d == NoDistance || exists p :: p in Candidates(n, i, j) && d == PointDist(p, i as real, j as real)
  {
    var d := PixelDistance(n, i, j);
    var c := Candidates(n, i, j);
    ClosestIsMinimum(c, i as real, j as real);
    if d != NoDistance {
      var k :| 0 <= k < |c| && d == PointDist(c[k], i as real, j as real);
      assert c[k] in c;
    }
  }

  // ---------------------------------------------------------------------------------------------
  // The pixel buffer
  // ---------------------------------------------------------------------------------------------

  /** A `Uint8ClampedArray` element receiving an integer. */
  function ToByte(v: int): (b: int)
    ensures 0 <= b <= 255
    ensures 0 <= v <= 255 ==> b == v
  {
    Utils.ClampInt(v, 0, 255)
  }

  /** One colour channel: `Math.floor(start + ratio * (end - start))`, stored as a byte. */
  function Mix(start: int, end: int, ratio: real): int {
    ToByte((start as real + ratio * (end - start) as real).Floor)
  }

  /** The four bytes of one pixel. `ratio` is `(distance / maxDistForRatioSq) ** (ratioPower * 0.5)`
      (a power with a real exponent); a missing distance reads `undefined`, which makes every
      colour channel `NaN` and stores 0. */
  function PixelBytes(n: Noise, ratio: real -> real, distance: Option<real>): (px: seq<int>)
    ensures |px| == 4 && px[3] == 255
    ensures forall c :: 0 <= c < 4 ==> 0 <= px[c] <= 255
  {
    match distance
    case None => [0, 0, 0, 255]
    case Some(d) =>
      var t := ratio(d);
      [Mix(n.start.r, n.end.r, t), Mix(n.start.g, n.end.g, t), Mix(n.start.b, n.end.b, t), 255]
  }

  /** `distances[p]`, or `undefined` past the end. */
  function DistanceAt(n: Noise, p: nat): Option<real> {
    if p < |n.distances| then Some(n.distances[p]) else None
  }

  /** The bytes of the first `count` pixels, pixel after pixel. */
  function ImageBytes(n: Noise, ratio: real -> real, count: nat): (bytes: seq<int>)
    ensures |bytes| == 4 * count
  {
    if count == 0 then [] else ImageBytes(n, ratio, count - 1) + PixelBytes(n, ratio, DistanceAt(n, count - 1))
  }

  /** Pixel `p` occupies bytes `4p` to `4p + 3`; every byte is in `[0, 255]`. */
  lemma {:induction false} ImageLayout(n: Noise, ratio: real -> real, count: nat)
    ensures forall p :: 0 <= p < count ==>
      ImageBytes(n, ratio, count)[4 * p..4 * p + 4] == PixelBytes(n, ratio, DistanceAt(n, p))
    ensures forall b :: 0 <= b < 4 * count ==> 0 <= ImageBytes(n, ratio, count)[b] <= 255
  {
    if count > 0 {
      ImageLayout(n, ratio, count - 1);
      var prev, px := ImageBytes(n, ratio, count - 1), PixelBytes(n, ratio, DistanceAt(n, count - 1));
      assert ImageBytes(n, ratio, count) == prev + px;
      forall p | 0 <= p < count
        ensures (prev + px)[4 * p..4 * p + 4] == PixelBytes(n, ratio, DistanceAt(n, p))
      {
        if p < count - 1 {
          assert (prev + px)[4 * p..4 * p + 4] == prev[4 * p..4 * p + 4];
        } else {
          assert (prev + px)[4 * p..4 * p + 4] == px;
        }
      }
      forall b | 0 <= b < 4 * count ensures 0 <= (prev + px)[b] <= 255 {
        if b >= |prev| {
          assert (prev + px)[b] == px[b - |prev|];
        }
      }
    }
  }

  /** `createImageData`: `width * height` pixels of four bytes each, alpha always 255. The bytes of
      pixel `p` depend on `distances[p]` alone. */
  method CreateImageData(n: Noise, ratio: real -> real) returns (pixels: seq<int>)
    ensures |pixels| == 4 * (n.width * n.height)
    ensures forall p :: 0 <= p < n.width * n.height ==>
      pixels[4 * p..4 * p + 4] == PixelBytes(n, ratio, DistanceAt(n, p))
    ensures forall p :: 0 <= p < n.width * n.height ==> pixels[4 * p + 3] == 255
    ensures forall b :: 0 <= b < |pixels| ==> 0 <= pixels[b] <= 255
  {
    var count := n.width * n.height;
    pixels := [];
    var p := 0;
    while p < count
      invariant 0 <= p <= count && pixels == ImageBytes(n, ratio, p)
    {
      pixels := pixels + PixelBytes(n, ratio, DistanceAt(n, p));
      p := p + 1;
    }
    ImageLayout(n, ratio, count);
    forall q | 0 <= q < count ensures pixels[4 * q + 3] == 255 {
      var px := PixelBytes(n, ratio, DistanceAt(n, q));
      assert pixels[4 * q..4 * q + 4] == px;
      assert pixels[4 * q + 3] == px[3];
    }
  }
}
