/** Failure-compatible optional values, used wherever the game reads a value that may be
    `undefined` or `null`. */
module Wrappers {

  datatype Option<+T> = None | Some(value: T) {

    /** The value, or `default` when there is none (JavaScript's `??`). */
    function GetOr(default: T): T {
      match this
      case Some(v) => v
      case None => default
    }
  }
}

/** Plane geometry shared by every component: points and real arithmetic helpers. */
module Geometry {

  /** `Number.MAX_SAFE_INTEGER`, the game's "no value yet" sentinel. */
  const MaxSafeInteger: int := 9007199254740991

  /** A point `{x, y}` in world or pixel coordinates. */
  datatype Point = Point(x: real, y: real)

  function Translate(p: Point, dx: real, dy: real): Point {
    Point(p.x + dx, p.y + dy)
  }

  function Min(a: real, b: real): real {
    if a <= b then a else b
  }

  function Max(a: real, b: real): real {
    if a >= b then a else b
  }

  /** Real exponentiation `base ** exponent` (`Math.pow`), left uninterpreted: the game only
      raises constants to frame-time powers. */
  type Power = (real, real) -> real

  /** `Math.ceil`, expressed through Dafny's floor. */
  function Ceil(x: real): int {
    -((-x).Floor)
  }
}

/** Facts of integer multiplication and division the solver does not find on its own. */
module Arith {

  lemma MulLe(a: int, b: int, c: nat)
    requires a <= b
    ensures a * c <= b * c
  {
  }

  lemma MulSucc(x: int, a: int)
    ensures (x + 1) * a == x * a + a
  {
  }

  /** Quotient and remainder are unique. */
  lemma DivUnique(n: int, a: int, q: int, r: int)
    requires a > 0 && n == q * a + r && 0 <= r < a
    ensures n / a == q && n % a == r
  {
    var q', r' := n / a, n % a;
    MulSucc(q', a);
    MulSucc(q, a);
    if q' < q {
      MulLe(q' + 1, q, a);
    } else if q < q' {
      MulLe(q + 1, q', a);
    }
  }

  /** Row-major positions of earlier rows come before row `rows`. */
  lemma RowBelow(width: nat, i: nat, j: nat, rows: nat)
    requires i < width && j < rows
    ensures j * width + i < rows * width
  {
    MulLe(j + 1, rows, width);
    MulSucc(j, width);
  }
}

/** Row-major tables of values computed per cell, as the game's pixel buffers lay them out. */
module Grids {
  import opened Arith

  /** The values `f(0), ..., f(count - 1)`. */
  function Tabulate<T>(count: nat, f: nat --> T): (s: seq<T>)
    requires forall i | 0 <= i < count :: f.requires(i)
    ensures |s| == count
    ensures forall i | 0 <= i < count :: s[i] == f(i)
  {
    seq(count, i requires 0 <= i < count && f.requires(i) => f(i))
  }

  lemma TabulateSnoc<T>(count: nat, f: nat --> T)
    requires forall i | 0 <= i <= count :: f.requires(i)
    ensures Tabulate(count + 1, f) == Tabulate(count, f) + [f(count)]
  {
    assert forall i | 0 <= i < count :: Tabulate(count + 1, f)[i] == Tabulate(count, f)[i];
  }

  /** Row `j` of a table indexed `(column, row)`. */
  function RowOf<T>(f: (nat, nat) --> T, j: nat): (g: nat --> T)
    ensures forall i | f.requires(i, j) :: g.requires(i) && g(i) == f(i, j)
  {
    (i: nat) requires f.requires(i, j) => f(i, j)
  }

  /** The first `rows` rows of a table `width` cells wide, row after row. */
  function Grid<T>(width: nat, rows: nat, f: (nat, nat) --> T): (s: seq<T>)
    requires forall i, j | 0 <= i < width && 0 <= j < rows :: f.requires(i, j)
    ensures |s| == rows * width
  {
    if rows == 0 then []
    else
      MulSucc(rows - 1, width);
      Grid(width, rows - 1, f) + Tabulate(width, RowOf(f, rows - 1))
  }

  /** Cell `(i, j)` sits at position `j * width + i`. */
  lemma {:induction false} GridAt<T>(width: nat, rows: nat, f: (nat, nat) --> T, i: nat, j: nat)
    requires forall i, j | 0 <= i < width && 0 <= j < rows :: f.requires(i, j)
    requires i < width && j < rows
    ensures j * width + i < |Grid(width, rows, f)|
    ensures Grid(width, rows, f)[j * width + i] == f(i, j)
  {
    var prev, row := Grid(width, rows - 1, f), Tabulate(width, RowOf(f, rows - 1));
    assert Grid(width, rows, f) == prev + row;
    if j < rows - 1 {
      GridAt(width, rows - 1, f, i, j);
      ConcatLeft(prev, row, j * width + i);
    } else {
      ConcatRight(prev, row, i);
    }
  }

  lemma ConcatLeft<T>(a: seq<T>, b: seq<T>, k: nat)
    requires k < |a|
    ensures (a + b)[k] == a[k]
  {
  }

  lemma ConcatRight<T>(a: seq<T>, b: seq<T>, k: nat)
    requires k < |b|
    ensures (a + b)[|a| + k] == b[k]
  {
  }
}

/** `Array.prototype.filter` and the facts about it the game relies on. */
module Seqs {

  /** The elements of `s` that satisfy `keep`, in their original order. */
  function Filter<T>(s: seq<T>, keep: T -> bool): (r: seq<T>)
    ensures |r| <= |s|
    ensures forall x | x in r :: x in s && keep(x)
  {
    if s == [] then [] else (if keep(s[0]) then [s[0]] else []) + Filter(s[1..], keep)
  }

  /** Nothing that passes the test is dropped. */
  lemma {:induction false} FilterKeeps<T>(s: seq<T>, keep: T -> bool, x: T)
    requires x in s && keep(x)
    ensures x in Filter(s, keep)
  {
    if s[0] != x {
      assert x in s[1..];
      FilterKeeps(s[1..], keep, x);
      var head := if keep(s[0]) then [s[0]] else [];
      assert Filter(s, keep) == head + Filter(s[1..], keep);
      assert x in head + Filter(s[1..], keep);
    } else {
      assert Filter(s, keep) == [x] + Filter(s[1..], keep);
    }
  }

  /** Filtering distributes over concatenation, so survivors keep their relative order. */
  lemma {:induction false} FilterConcat<T>(a: seq<T>, b: seq<T>, keep: T -> bool)
    ensures Filter(a + b, keep) == Filter(a, keep) + Filter(b, keep)
  {
    if a != [] {
      assert (a + b)[0] == a[0] && (a + b)[1..] == a[1..] + b;
      FilterConcat(a[1..], b, keep);
      var head := if keep(a[0]) then [a[0]] else [];
      assert Filter(a + b, keep) == head + Filter(a[1..] + b, keep);
      assert Filter(a, keep) == head + Filter(a[1..], keep);
    } else {
      assert a + b == b;
    }
  }

  /** The positions in `s` whose elements pass `keep`, in increasing order. */
  function KeptIndices<T>(s: seq<T>, keep: T -> bool): (idx: seq<nat>)
    ensures forall j | 0 <= j < |idx| :: idx[j] < |s|
  {
    if s == [] then []
    else
      var rest := KeptIndices(s[1..], keep);
      (if keep(s[0]) then [0] else []) + Shifted(rest)
  }

  /** `idx` is strictly increasing. */
  predicate Increasing(idx: seq<nat>) {
    forall i, j | 0 <= i < j < |idx| :: idx[i] < idx[j]
  }

  /** `r` is `s` read at the positions `idx`. */
  ghost predicate ReadAt<T>(r: seq<T>, s: seq<T>, idx: seq<nat>) {
    |idx| == |r| && forall j | 0 <= j < |idx| :: idx[j] < |s| && r[j] == s[idx[j]]
  }

  /** `idx` holds exactly the positions of `s` whose elements pass `keep`. */
  predicate PassingAt<T>(s: seq<T>, keep: T -> bool, idx: seq<nat>) {
    forall k | 0 <= k < |s| :: keep(s[k]) <==> k in idx
  }

  /** `Filter` keeps relative order: its result is `s` read at a strictly increasing sequence of
      positions, and those positions are exactly the ones whose elements pass. */
  lemma {:induction false} FilterKeepsOrder<T>(s: seq<T>, keep: T -> bool)
    ensures var idx := KeptIndices(s, keep);
            ReadAt(Filter(s, keep), s, idx) && Increasing(idx) && PassingAt(s, keep, idx)
  {
    FilterReadAt(s, keep);
    KeptIncreasing(s, keep);
    KeptPassing(s, keep);
  }

  function Shifted(rest: seq<nat>): (r: seq<nat>)
    ensures |r| == |rest| && forall j | 0 <= j < |rest| :: r[j] == rest[j] + 1
  {
    seq(|rest|, j requires 0 <= j < |rest| => rest[j] + 1)
  }

  lemma KeptUnfold<T>(s: seq<T>, keep: T -> bool)
    requires s != []
    ensures KeptIndices(s, keep) == (if keep(s[0]) then [0] else []) + Shifted(KeptIndices(s[1..], keep))
  {
  }

  lemma {:induction false} FilterReadAt<T>(s: seq<T>, keep: T -> bool)
    ensures ReadAt(Filter(s, keep), s, KeptIndices(s, keep))
  {
    if s != [] {
      FilterReadAt(s[1..], keep);
      KeptUnfold(s, keep);
      var rest := KeptIndices(s[1..], keep);
      var tail := Filter(s[1..], keep);
      var idx := KeptIndices(s, keep);
      var r := Filter(s, keep);
      var d := if keep(s[0]) then 1 else 0;
      assert r == (if keep(s[0]) then [s[0]] else []) + tail;
      forall j | d <= j < |idx|
        ensures idx[j] < |s| && r[j] == s[idx[j]]
      {
        assert idx[j] == rest[j - d] + 1 && r[j] == tail[j - d];
        assert s[1..][rest[j - d]] == s[idx[j]];
      }
    }
  }

  lemma {:induction false} KeptIncreasing<T>(s: seq<T>, keep: T -> bool)
    ensures Increasing(KeptIndices(s, keep))
  {
    if s != [] {
      KeptIncreasing(s[1..], keep);
      KeptUnfold(s, keep);
      var shifted := Shifted(KeptIndices(s[1..], keep));
      ShiftedIncreasing(KeptIndices(s[1..], keep));
      if keep(s[0]) {
        ZeroFirstIncreasing(shifted);
      } else {
        assert KeptIndices(s, keep) == shifted;
      }
    }
  }

  lemma ShiftedIncreasing(rest: seq<nat>)
    requires Increasing(rest)
    ensures Increasing(Shifted(rest)) && forall j | 0 <= j < |rest| :: Shifted(rest)[j] > 0
  {
  }

  lemma ZeroFirstIncreasing(t: seq<nat>)
    requires Increasing(t) && forall j | 0 <= j < |t| :: t[j] > 0
    ensures Increasing([0] + t)
  {
    var idx := [0] + t;
    forall i, j | 0 <= i < j < |idx|
      ensures idx[i] < idx[j]
    {
      assert idx[j] == t[j - 1];
      if i > 0 {
        assert idx[i] == t[i - 1];
      }
    }
  }

  lemma {:induction false} KeptPassing<T>(s: seq<T>, keep: T -> bool)
    ensures PassingAt(s, keep, KeptIndices(s, keep))
  {
    if s != [] {
      KeptPassing(s[1..], keep);
      KeptUnfold(s, keep);
      var rest := KeptIndices(s[1..], keep);
      var head: seq<nat> := if keep(s[0]) then [0] else [];
      var idx := KeptIndices(s, keep);
      ShiftedMembers(rest);
      forall k | 0 <= k < |s|
        ensures keep(s[k]) <==> k in idx
      {
        assert k in idx <==> k in head || k in Shifted(rest);
        if k > 0 {
          assert s[k] == s[1..][k - 1];
        }
      }
    }
  }

  lemma ShiftedMembers(rest: seq<nat>)
    ensures forall k: nat :: k in Shifted(rest) <==> k > 0 && k - 1 in rest
  {
    forall k: nat
      ensures k in Shifted(rest) <==> k > 0 && k - 1 in rest
    {
      if k > 0 && k - 1 in rest {
        var j :| 0 <= j < |rest| && rest[j] == k - 1;
        assert Shifted(rest)[j] == k;
      }
    }
  }

  /** A sequence whose every element passes is returned unchanged. */
  lemma {:induction false} FilterAllPass<T>(s: seq<T>, keep: T -> bool)
    requires forall k | 0 <= k < |s| :: keep(s[k])
    ensures Filter(s, keep) == s
  {
    if s != [] {
      FilterAllPass(s[1..], keep);
    }
  }
}
