/** The numeric and colour helpers of js/utils.js: `getRandomInteger`, `clamp`,
    `createConsecutiveLines`, and the `#rrggbb` colour codec `rgbToHex` / `hexToRgb`
    (the hexadecimal notation of section 5.2 of CSS Color Module Level 4). */
module Utils {
  import opened Wrappers
  import opened Geometry
  import opened Arith

  // ---------------------------------------------------------------------------------------------
  // Numbers
  // ---------------------------------------------------------------------------------------------

  /** `getRandomInteger(lo, hi)` for the draw `Math.random()` returned. */
  function RandomInteger(lo: int, hi: int, draw: real): (r: int)
    ensures 0.0 <= draw < 1.0 && lo < hi ==> lo <= r < hi
  {
    RandomIntegerBounds(lo, hi, draw);
    (draw * (hi - lo) as real + lo as real).Floor
  }

  lemma RandomIntegerBounds(lo: int, hi: int, draw: real)
    ensures 0.0 <= draw < 1.0 && lo < hi ==>
      lo as real <= draw * (hi - lo) as real + lo as real < hi as real
  {
    if 0.0 <= draw < 1.0 && lo < hi {
      var span := (hi - lo) as real;
      assert draw * span <= 1.0 * span - (1.0 - draw) * span;
      assert (1.0 - draw) * span > 0.0;
    }
  }

  /** `clamp(value, min, max) = max(min, min(value, max))`. */
  function Clamp(value: real, lo: real, hi: real): (r: real)
    ensures r >= lo
    ensures lo <= hi ==> lo <= r <= hi
    ensures lo <= value <= hi ==> r == value
    ensures value < lo ==> r == lo
    ensures lo <= hi < value ==> r == hi
  {
    Max(lo, Min(value, hi))
  }

  /** The integer clamp `Math.max(lo, Math.min(hi, v))` that `rgbToHex` applies to a channel. */
  function ClampInt(value: int, lo: int, hi: int): (r: int)
    ensures lo <= hi ==> lo <= r <= hi
    ensures lo <= value <= hi ==> r == value
    ensures value < lo ==> r == lo
    ensures lo <= hi < value ==> r == hi
  {
    if value > hi then (if lo > hi then lo else hi) else if value < lo then lo else value
  }

  function Pow10(digits: nat): (p: nat)
    ensures p >= 1
  {
    if digits == 0 then 1 else 10 * Pow10(digits - 1)
  }

  /** `roundOff(value, digits) = Number(value.toFixed(digits))`: the nearest multiple of
      `10^-digits`, a tie going away from zero. */
  function RoundOff(value: real, digits: nat): (r: real)
    ensures IsMultiple(r, Pow10(digits) as real)
    ensures value - 0.5 / Pow10(digits) as real <= r <= value + 0.5 / Pow10(digits) as real
    ensures value >= 0.0 ==> value - 0.5 / Pow10(digits) as real < r
    ensures value < 0.0 ==> r < value + 0.5 / Pow10(digits) as real
    ensures value >= 0.0 ==> r >= 0.0
  {
    RoundAt(value, Pow10(digits) as real)
  }

  /** Rounding to the nearest multiple of `1 / scale`: the magnitude is rounded, a tie going
      up, and the sign put back. */
  function RoundAt(value: real, scale: real): (r: real)
    requires scale >= 1.0
    ensures IsMultiple(r, scale)
    ensures value - 0.5 / scale <= r <= value + 0.5 / scale
    ensures value >= 0.0 ==> value - 0.5 / scale < r && r >= 0.0
    ensures value < 0.0 ==> r < value + 0.5 / scale
  {
    var n := Rounded(if value >= 0.0 then value else -value, scale);
    RoundedSigned(value, scale, n);
    ScaledWhole(if value >= 0.0 then n / scale else -(n / scale), n, scale);
    if value >= 0.0 then n / scale else -(n / scale)
  }

  /** `RoundOff`'s contract for the magnitude rounded at `scale`, with the sign put back. */
  lemma RoundedSigned(value: real, scale: real, n: real)
    requires scale >= 1.0 && n == Rounded(if value >= 0.0 then value else -value, scale)
    ensures var r := if value >= 0.0 then n / scale else -(n / scale);
            value - 0.5 / scale <= r <= value + 0.5 / scale &&
            (value >= 0.0 ==> value - 0.5 / scale < r && r >= 0.0) &&
            (value < 0.0 ==> r < value + 0.5 / scale)
  {
  }

  /** `±(n / scale)` for a whole `n` is a multiple of `1 / scale`. */
  lemma ScaledWhole(r: real, n: real, scale: real)
    requires scale >= 1.0 && Whole(n) && (r == n / scale || r == -(n / scale))
    ensures IsMultiple(r, scale)
  {
    Unscale(n, scale);
    var i := n.Floor;
    if r == n / scale {
      assert r * scale == i as real;
    } else {
      assert r * scale == -(n / scale * scale);
      assert r * scale == (-i) as real;
    }
  }

  /** Whether a real is a whole number. */
  predicate Whole(x: real) {
    x.Floor as real == x
  }

  /** Whether `r` is a whole multiple of `1 / scale`. */
  predicate IsMultiple(r: real, scale: real) {
    Whole(r * scale)
  }

  /** The rounding is the only multiple of `10^-digits` within half a unit of `value`, a tie
      taken away from zero: so `RoundOff` is `toFixed`'s nearest-multiple rule. */
  lemma RoundOffIsNearest(value: real, digits: nat, k: int)
    requires value >= 0.0 ==> value - 0.5 / Pow10(digits) as real < k as real / Pow10(digits) as real <=
                                value + 0.5 / Pow10(digits) as real
    requires value < 0.0 ==> value - 0.5 / Pow10(digits) as real <= k as real / Pow10(digits) as real <
                               value + 0.5 / Pow10(digits) as real
    ensures RoundOff(value, digits) == k as real / Pow10(digits) as real
  {
    var scale := Pow10(digits) as real;
    var r := RoundOff(value, digits);
    NearestMultiple(value, scale, r, k);
  }

  /** Halves round away from zero, as `toFixed` does: `0.25` to `0.3` and `-0.25` to `-0.3`. */
  lemma RoundOffTiesAway()
    ensures RoundOff(0.25, 1) == 0.3 && RoundOff(-0.25, 1) == -0.3
  {
    assert Pow10(1) == 10;
    RoundOffIsNearest(0.25, 1, 3);
    RoundOffIsNearest(-0.25, 1, -3);
  }

  /** The argument of `RoundOffIsNearest` for any `r` with `RoundOff`'s contract. */
  lemma NearestMultiple(value: real, scale: real, r: real, k: int)
    requires scale >= 1.0 && IsMultiple(r, scale)
    requires value >= 0.0 ==> value - 0.5 / scale < r <= value + 0.5 / scale
    requires value < 0.0 ==> value - 0.5 / scale <= r < value + 0.5 / scale
    requires value >= 0.0 ==> value - 0.5 / scale < k as real / scale <= value + 0.5 / scale
    requires value < 0.0 ==> value - 0.5 / scale <= k as real / scale < value + 0.5 / scale
    ensures r == k as real / scale
  {
    var m := (r * scale).Floor;
    Rescale(r, scale);
    assert r == m as real / scale;
    assert value - 0.5 / scale + 1.0 / scale == value + 0.5 / scale;
    CloseMultiplesEqual(m, k, scale, value - 0.5 / scale, value >= 0.0);
  }

  lemma Rescale(r: real, scale: real)
    requires scale >= 1.0
    ensures r * scale / scale == r
  {
  }

  /** Multiplying by a positive number keeps a strict order. */
  lemma ScaleBelow(a: real, b: real, scale: real)
    requires scale > 0.0 && a < b
    ensures a * scale < b * scale
  {
    assert (b - a) * scale > 0.0;
  }

  /** Two multiples of `1 / scale` inside one half-open interval of width `1 / scale` agree. */
  lemma CloseMultiplesEqual(m: int, k: int, scale: real, lo: real, openBelow: bool)
    requires scale >= 1.0
    requires openBelow ==> lo < m as real / scale <= lo + 1.0 / scale && lo < k as real / scale <= lo + 1.0 / scale
    requires !openBelow ==> lo <= m as real / scale < lo + 1.0 / scale && lo <= k as real / scale < lo + 1.0 / scale
    ensures m == k
  {
    var d := (m - k) as real;
    assert d / scale == m as real / scale - k as real / scale;
    assert -1.0 / scale < d / scale < 1.0 / scale;
    Unscale(d, scale);
    Unscale(1.0, scale);
    Unscale(-1.0, scale);
    ScaleBelow(d / scale, 1.0 / scale, scale);
    ScaleBelow(-1.0 / scale, d / scale, scale);
  }

  /** The integer nearest to `magnitude * scale`, a tie rounding up, and within half of it. */
  function Rounded(magnitude: real, scale: real): (n: real)
    requires scale >= 1.0
    ensures n == n.Floor as real && (magnitude >= 0.0 ==> n >= 0.0)
    ensures magnitude - 0.5 / scale < n / scale <= magnitude + 0.5 / scale
  {
    NearMultiple(magnitude, (magnitude * scale + 0.5).Floor as real, scale);
    (magnitude * scale + 0.5).Floor as real
  }

  /** An integer within half of `v * scale` gives a multiple of `1 / scale` within
      `0.5 / scale` of `v`. */
  lemma NearMultiple(value: real, n: real, scale: real)
    requires scale >= 1.0 && value * scale - 0.5 < n <= value * scale + 0.5
    ensures value - 0.5 / scale < n / scale <= value + 0.5 / scale
  {
    assert n / scale - value == (n - value * scale) / scale;
  }

  /** Rounding is idempotent: a multiple of `10^-digits` is already rounded. */
  lemma RoundOffIdempotent(value: real, digits: nat)
    ensures RoundOff(RoundOff(value, digits), digits) == RoundOff(value, digits)
  {
    var scale := Pow10(digits) as real;
    var n := Rounded(if value >= 0.0 then value else -value, scale);
    RoundedExact(n, scale);
    if value < 0.0 && n != 0.0 {
      assert RoundOff(value, digits) < 0.0;
    }
  }

  /** `k / scale` for a whole `k >= 0` rounds back to `k`. */
  lemma RoundedExact(k: real, scale: real)
    requires scale >= 1.0 && k == k.Floor as real && k >= 0.0
    ensures Rounded(k / scale, scale) == k
  {
    Unscale(k, scale);
    var i := k.Floor;
    assert (i as real + 0.5).Floor == i;
    var m := k / scale;
    RoundedIs(m, scale);
    assert m * scale + 0.5 == i as real + 0.5;
  }

  /** Unfolds `Rounded` once. */
  lemma RoundedIs(m: real, scale: real)
    requires scale >= 1.0
    ensures Rounded(m, scale) == (m * scale + 0.5).Floor as real
  {
  }

  lemma Unscale(n: real, scale: real)
    requires scale >= 1.0
    ensures n / scale * scale == n
  {
  }

  /** A segment `{p1, p2}` of a polyline. */
  datatype Line = Line(p1: Point, p2: Point)

  /** `createConsecutiveLines`: the segments joining each point to the next. */
  method ConsecutiveLines(points: seq<Point>) returns (lines: seq<Line>)
    ensures |lines| == if |points| == 0 then 0 else |points| - 1
    ensures forall i :: 0 <= i < |lines| ==> lines[i] == Line(points[i], points[i + 1])
  {
    lines := [];
    var i := 1;
    while i < |points|
      invariant 1 <= i <= |points| || (|points| == 0 && i == 1)
      invariant |lines| == i - 1
      invariant forall k :: 0 <= k < |lines| ==> lines[k] == Line(points[k], points[k + 1])
    {
      lines := lines + [Line(points[i - 1], points[i])];
      i := i + 1;
    }
  }

  // ---------------------------------------------------------------------------------------------
  // Hexadecimal digits
  // ---------------------------------------------------------------------------------------------

  predicate IsHexDigit(c: char) {
    '0' <= c <= '9' || 'a' <= c <= 'f' || 'A' <= c <= 'F'
  }

  predicate IsLowerHexDigit(c: char) {
    '0' <= c <= '9' || 'a' <= c <= 'f'
  }

  /** The value of one hexadecimal digit, either case. */
  function DigitValue(c: char): (v: nat)
    requires IsHexDigit(c)
    ensures v < 16
  {
    if '0' <= c <= '9' then c as int - '0' as int
    else if 'a' <= c <= 'f' then c as int - 'a' as int + 10
    else c as int - 'A' as int + 10
  }

  /** The lower-case digit `Number.prototype.toString(16)` writes for `d`. */
  function HexDigit(d: nat): (c: char)
    requires d < 16
    ensures IsLowerHexDigit(c) && IsHexDigit(c) && DigitValue(c) == d
  {
    if d < 10 then ('0' as int + d) as char else ('a' as int + d - 10) as char
  }

  /** A digit re-written by `HexDigit` is the digit in lower case. */
  lemma HexDigitOfValue(c: char)
    requires IsHexDigit(c)
    ensures HexDigit(DigitValue(c)) == Lower(c)
  {
  }

  function Lower(c: char): char {
    if 'A' <= c <= 'Z' then (c as int - 'A' as int + 'a' as int) as char else c
  }

  /** `n.toString(16)`: lower-case digits, no leading zero, `"0"` for zero. */
  function ToHex(n: nat): (s: string)
    ensures |s| >= 1
    ensures forall i :: 0 <= i < |s| ==> IsLowerHexDigit(s[i]) && IsHexDigit(s[i])
  {
    if n < 16 then [HexDigit(n)] else ToHex(n / 16) + [HexDigit(n % 16)]
  }

  /** `s.padStart(2, '0')`. */
  function PadStart2(s: string): (r: string)
    ensures |r| == if |s| >= 2 then |s| else 2
    ensures |s| < 2 ==> r[2 - |s|..] == s && forall i :: 0 <= i < 2 - |s| ==> r[i] == '0'
    ensures |s| >= 2 ==> r == s
  {
    if |s| >= 2 then s else seq(2 - |s|, _ => '0') + s
  }

  /** A channel in `[0, 255]` written by `toString(16).padStart(2, '0')`: its two digits. */
  lemma TwoDigits(n: nat)
    requires n < 256
    ensures PadStart2(ToHex(n)) == [HexDigit(n / 16), HexDigit(n % 16)]
  {
    if n < 16 {
      assert ToHex(n) == [HexDigit(n)];
    } else {
      assert ToHex(n / 16) == [HexDigit(n / 16)];
    }
  }

  // ---------------------------------------------------------------------------------------------
  // parseInt(s, 16)
  // ---------------------------------------------------------------------------------------------

  /** The white space and line terminators `parseInt` skips (ECMAScript `TrimString`). */
  predicate IsJsSpace(c: char) {
    || c == ' ' || c == '\t' || c == '\n' || c == '\r' || c == '\U{0B}' || c == '\U{0C}'
    || c == '\U{A0}' || c == '\U{1680}' || '\U{2000}' <= c <= '\U{200A}'
    || c == '\U{2028}' || c == '\U{2029}' || c == '\U{202F}' || c == '\U{205F}'
    || c == '\U{3000}' || c == '\U{FEFF}'
  }

  /** `parseInt(s, 16)`: skip leading white space, read an optional sign and an optional
      `0x`/`0X` prefix, then the longest run of hexadecimal digits; `NaN` (here `None`) when
      that run is empty. Trailing characters are ignored. */
  function ParseHexInt(s: string): Option<int> {
    if s != [] && IsJsSpace(s[0]) then ParseHexInt(s[1..]) else ParseSigned(s)
  }

  /** `parseInt` after the white space: an optional sign, then the magnitude. */
  function ParseSigned(t: string): Option<int> {
    if t != [] && t[0] == '-' then
      var m := ParseMagnitude(t[1..]);
      if m.None? then None else Some(-(m.value as int))
    else if t != [] && t[0] == '+' then ParseMagnitude(t[1..])
    else ParseMagnitude(t)
  }

  predicate HasHexPrefix(u: string) {
    |u| >= 2 && u[0] == '0' && (u[1] == 'x' || u[1] == 'X')
  }

  /** `parseInt` after the sign: an optional `0x`/`0X`, then at least one digit. */
  function ParseMagnitude(u: string): Option<nat> {
    var v := if HasHexPrefix(u) then u[2..] else u;
    if v != [] && IsHexDigit(v[0]) then Some(ReadDigits(v, 0)) else None
  }

  /** Reads the leading run of hexadecimal digits of `v`, most significant first, onto `acc`. */
  function ReadDigits(v: string, acc: nat): nat {
    if v != [] && IsHexDigit(v[0]) then ReadDigits(v[1..], acc * 16 + DigitValue(v[0])) else acc
  }

  /** Reading stops at the first character that is not a digit. */
  lemma {:induction false} ReadDigitsAppend(a: string, b: string, acc: nat)
    requires forall i :: 0 <= i < |a| ==> IsHexDigit(a[i])
    ensures ReadDigits(a + b, acc) == ReadDigits(b, ReadDigits(a, acc))
  {
    if a != [] {
      assert (a + b)[0] == a[0] && (a + b)[1..] == a[1..] + b;
      ReadDigitsAppend(a[1..], b, acc * 16 + DigitValue(a[0]));
    } else {
      assert a + b == b;
    }
  }

  /** `toString(16)` is read back by its digits' value, and writes a leading zero only for 0. */
  lemma {:induction false} ToHexRoundTrip(n: nat)
    ensures ReadDigits(ToHex(n), 0) == n
    ensures n > 0 ==> ToHex(n)[0] != '0'
  {
    var d := [HexDigit(n % 16)];
    assert ReadDigits(d, n / 16) == n by {
      assert d[1..] == [];
    }
    if n >= 16 {
      ToHexRoundTrip(n / 16);
      ReadDigitsAppend(ToHex(n / 16), d, 0);
    } else {
      assert ToHex(n) == d;
    }
  }

  /** A string of digits that does not start with `0x` is read as its digits' value. */
  lemma ParseDigitString(s: string)
    requires s != [] && !HasHexPrefix(s)
    requires forall i :: 0 <= i < |s| ==> IsHexDigit(s[i])
    ensures ParseHexInt(s) == Some(ReadDigits(s, 0))
  {
    assert IsHexDigit(s[0]);
  }

  /** `parseInt(n.toString(16), 16) == n` for every natural `n`. */
  lemma ParseToHexRoundTrip(n: nat)
    ensures ParseHexInt(ToHex(n)) == Some(n)
  {
    var s := ToHex(n);
    assert !HasHexPrefix(s) by {
      if |s| >= 2 {
        assert IsHexDigit(s[1]);
      }
    }
    ToHexRoundTrip(n);
    ParseDigitString(s);
  }

  // ---------------------------------------------------------------------------------------------
  // rgbToHex / hexToRgb
  // ---------------------------------------------------------------------------------------------

  /** The `{r, g, b}` object `hexToRgb` returns; a `NaN` channel is `None`. */
  datatype Rgb = Rgb(r: Option<int>, g: Option<int>, b: Option<int>)

  /** `String.prototype.replace('#', '')`: removes the first `#` only. */
  function RemoveFirstHash(s: string): (r: string)
    ensures '#' !in s ==> r == s
    ensures s != [] && s[0] == '#' ==> r == s[1..]
  {
    if s == [] then [] else if s[0] == '#' then s[1..] else [s[0]] + RemoveFirstHash(s[1..])
  }

  /** `s.substring(start, end)` for `0 <= start <= end`: both indices are clamped to the length. */
  function Substring(s: string, start: nat, end: nat): (r: string)
    requires start <= end
    ensures end <= |s| ==> r == s[start..end]
  {
    var e := if end <= |s| then end else |s|;
    var b := if start <= e then start else e;
    s[b..e]
  }

  /** `hexToRgb`: drop the first `#`, then read characters 0-1, 2-3 and 4-5 as base-16 numbers. */
  function HexToRgb(hex: string): Rgb {
    var h := RemoveFirstHash(hex);
    Rgb(ParseHexInt(Substring(h, 0, 2)), ParseHexInt(Substring(h, 2, 4)), ParseHexInt(Substring(h, 4, 6)))
  }

  /** One channel of `rgbToHex`: clamped to `[0, 255]`, then two lower-case hex digits. */
  function ChannelHex(v: int): (s: string)
    ensures |s| == 2 && IsLowerHexDigit(s[0]) && IsLowerHexDigit(s[1])
    ensures IsHexDigit(s[0]) && IsHexDigit(s[1])
    ensures DigitValue(s[0]) * 16 + DigitValue(s[1]) == ClampInt(v, 0, 255)
  {
    var c := ClampInt(v, 0, 255);
    TwoDigits(c);
    PadStart2(ToHex(c))
  }

  /** `rgbToHex(r, g, b)`: `#` followed by two lower-case hex digits per clamped channel. */
  function RgbToHex(r: int, g: int, b: int): (s: string)
    ensures |s| == 7 && s[0] == '#'
    ensures s[1..3] == ChannelHex(r) && s[3..5] == ChannelHex(g) && s[5..7] == ChannelHex(b)
  {
    "#" + ChannelHex(r) + ChannelHex(g) + ChannelHex(b)
  }

  /** Two hexadecimal digits (never a `0x` prefix, since `x` is not a digit) are read back as
      their value. */
  lemma ParsePair(s: string)
    requires |s| == 2 && IsHexDigit(s[0]) && IsHexDigit(s[1])
    ensures ParseHexInt(s) == Some(DigitValue(s[0]) * 16 + DigitValue(s[1]))
  {
    ParseDigitString(s);
    var t := s[1..];
    assert t[0] == s[1] && t[1..] == [];
    assert ReadDigits(t, DigitValue(s[0])) == DigitValue(s[0]) * 16 + DigitValue(s[1]);
  }

  /** `hexToRgb` of a seven-character string starting with `#` reads characters 1-2, 3-4, 5-6. */
  lemma HexToRgbOfHashed(s: string)
    requires |s| == 7 && s[0] == '#'
    ensures HexToRgb(s) == Rgb(ParseHexInt(s[1..3]), ParseHexInt(s[3..5]), ParseHexInt(s[5..7]))
  {
    var h := RemoveFirstHash(s);
    assert h == s[1..];
    assert Substring(h, 0, 2) == s[1..3];
    assert Substring(h, 2, 4) == s[3..5];
    assert Substring(h, 4, 6) == s[5..7];
  }

  /** A channel written by `rgbToHex` is read back by `parseInt(_, 16)` as its clamped value. */
  lemma ParseChannel(v: int)
    ensures ParseHexInt(ChannelHex(v)) == Some(ClampInt(v, 0, 255))
  {
    ParsePair(ChannelHex(v));
  }

  /** Colour round trip: `hexToRgb(rgbToHex(r, g, b))` gives back every channel, clamped to
      `[0, 255]`. */
  lemma HexOfRgbRoundTrip(r: int, g: int, b: int)
    ensures HexToRgb(RgbToHex(r, g, b)) ==
      Rgb(Some(ClampInt(r, 0, 255)), Some(ClampInt(g, 0, 255)), Some(ClampInt(b, 0, 255)))
  {
    HexToRgbOfHashed(RgbToHex(r, g, b));
    ParseChannel(r);
    ParseChannel(g);
    ParseChannel(b);
  }

  /** One channel of the reverse round trip: two digits, read and written again, come back in
      lower case. */
  lemma ChannelRoundTrip(c1: char, c2: char)
    requires IsHexDigit(c1) && IsHexDigit(c2)
    ensures ChannelHex(DigitValue(c1) * 16 + DigitValue(c2)) == [Lower(c1), Lower(c2)]
  {
    var v := DigitValue(c1) * 16 + DigitValue(c2);
    DivUnique(v, 16, DigitValue(c1), DigitValue(c2));
    TwoDigits(v);
    HexDigitOfValue(c1);
    HexDigitOfValue(c2);
  }

  /** `hexToRgb` of `#` and six hexadecimal digits: each channel is the value of its pair. */
  lemma HexToRgbOfDigits(s: string)
    requires |s| == 7 && s[0] == '#' && forall i :: 1 <= i < 7 ==> IsHexDigit(s[i])
    ensures HexToRgb(s) == Rgb(Some(DigitValue(s[1]) * 16 + DigitValue(s[2])),
                               Some(DigitValue(s[3]) * 16 + DigitValue(s[4])),
                               Some(DigitValue(s[5]) * 16 + DigitValue(s[6])))
  {
    HexToRgbOfHashed(s);
    ParsePairAt(s, 1);
    ParsePairAt(s, 3);
    ParsePairAt(s, 5);
  }

  /** `ParsePair` for the two characters of `s` at `k` and `k + 1`. */
  lemma ParsePairAt(s: string, k: nat)
    requires k + 2 <= |s| && IsHexDigit(s[k]) && IsHexDigit(s[k + 1])
    ensures ParseHexInt(s[k..k + 2]) == Some(DigitValue(s[k]) * 16 + DigitValue(s[k + 1]))
  {
    ParsePair(s[k..k + 2]);
  }

  /** The other direction: any `#rrggbb` colour, read by `hexToRgb` and written again by
      `rgbToHex`, comes back with its digits in lower case. */
  lemma RgbOfHexRoundTrip(s: string)
    requires |s| == 7 && s[0] == '#' && forall i :: 1 <= i < 7 ==> IsHexDigit(s[i])
    ensures HexToRgb(s).r.Some? && HexToRgb(s).g.Some? && HexToRgb(s).b.Some?
    ensures RgbToHex(HexToRgb(s).r.value, HexToRgb(s).g.value, HexToRgb(s).b.value) ==
      seq(7, i requires 0 <= i < 7 => Lower(s[i]))
  {
    HexToRgbOfDigits(s);
    RewriteDecoded(s, HexToRgb(s));
  }

  lemma RewriteDecoded(s: string, c: Rgb)
    requires |s| == 7 && s[0] == '#' && forall i :: 1 <= i < 7 ==> IsHexDigit(s[i])
    requires c == Rgb(Some(DigitValue(s[1]) * 16 + DigitValue(s[2])),
                      Some(DigitValue(s[3]) * 16 + DigitValue(s[4])),
                      Some(DigitValue(s[5]) * 16 + DigitValue(s[6])))
    ensures RgbToHex(c.r.value, c.g.value, c.b.value) == seq(7, i requires 0 <= i < 7 => Lower(s[i]))
  {
    RgbToHexOfDigits(s);
  }

  /** Writing back the pair values of `#` and six digits gives the digits in lower case. */
  lemma RgbToHexOfDigits(s: string)
    requires |s| == 7 && s[0] == '#' && forall i :: 1 <= i < 7 ==> IsHexDigit(s[i])
    ensures RgbToHex(DigitValue(s[1]) * 16 + DigitValue(s[2]), DigitValue(s[3]) * 16 + DigitValue(s[4]),
                     DigitValue(s[5]) * 16 + DigitValue(s[6])) ==
      seq(7, i requires 0 <= i < 7 => Lower(s[i]))
  {
    var r, g, b := DigitValue(s[1]) * 16 + DigitValue(s[2]), DigitValue(s[3]) * 16 + DigitValue(s[4]),
                   DigitValue(s[5]) * 16 + DigitValue(s[6]);
    ChannelRoundTrip(s[1], s[2]);
    ChannelRoundTrip(s[3], s[4]);
    ChannelRoundTrip(s[5], s[6]);
    LowerPairs(s, ChannelHex(r), ChannelHex(g), ChannelHex(b));
  }

  lemma LowerPairs(s: string, red: string, green: string, blue: string)
    requires |s| == 7 && s[0] == '#'
    requires red == [Lower(s[1]), Lower(s[2])] && green == [Lower(s[3]), Lower(s[4])]
    requires blue == [Lower(s[5]), Lower(s[6])]
    ensures "#" + red + green + blue == seq(7, i requires 0 <= i < 7 => Lower(s[i]))
  {
    assert Lower('#') == '#';
  }

  /** The two palette colours the Worley noise uses, decoded. */
  lemma PaletteStart()
    ensures HexToRgb("#aaa8d7") == Rgb(Some(170), Some(168), Some(215))
  {
    HexToRgbOfDigits("#aaa8d7");
  }

  lemma PaletteEnd()
    ensures HexToRgb("#7c7c9d") == Rgb(Some(124), Some(124), Some(157))
  {
    HexToRgbOfDigits("#7c7c9d");
  }
}
