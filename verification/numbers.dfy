/** The number <-> text conversions the pages rely on: `String(n)`, `Number(s)`,
    `parseFloat(s)`, `parseInt(s, 10)` and `Number.isInteger`, over the plain
    decimal notation `[+-]digits[.digits]`. A JavaScript `NaN` is `None`. */
module Numbers {
  import opened Common
  import Text

  predicate IsDigit(c: char) {
    '0' <= c <= '9'
  }

  predicate AllDigits(s: string) {
    forall i :: 0 <= i < |s| ==> IsDigit(s[i])
  }

  function DigitChar(d: nat): (c: char)
    requires d < 10
    ensures IsDigit(c)
  {
    ('0' as int + d) as char
  }

  /** The value of a digit character (a non-digit counts as 0; the scanner
      only applies it to digit runs). */
  function DigitOf(c: char): nat {
    if IsDigit(c) then c as int - '0' as int else 0
  }

  function DigitsValue(s: string): nat
    decreases |s|
  {
    if |s| == 0 then 0 else DigitsValue(s[..|s| - 1]) * 10 + DigitOf(s[|s| - 1])
  }

  function Pow10(k: nat): (p: nat)
    ensures p >= 1
  {
    if k == 0 then 1 else 10 * Pow10(k - 1)
  }

  /** Decimal digits of a natural number, without leading zeros. */
  function NatText(n: nat): (r: string)
    ensures |r| >= 1 && AllDigits(r)
    ensures DigitsValue(r) == n
    decreases n
  {
    if n < 10 then [DigitChar(n)]
    else
      var r := NatText(n / 10) + [DigitChar(n % 10)];
      assert r[..|r| - 1] == NatText(n / 10);
      r
  }

  /** `String(n)` for an integer. */
  function IntText(n: int): (r: string)
    ensures r != ""
  {
    if n < 0 then "-" + NatText(-n) else NatText(n)
  }

  /** Different integers are written differently. */
  lemma IntTextInjective(a: int, b: int)
    requires IntText(a) == IntText(b)
    ensures a == b
  {
    assert IsDigit(NatText(if a < 0 then -a else a)[0]);
    assert IsDigit(NatText(if b < 0 then -b else b)[0]);
    assert a < 0 <==> IntText(a)[0] == '-';
    assert b < 0 <==> IntText(b)[0] == '-';
    if a < 0 {
      assert NatText(-a) == IntText(a)[1..];
      assert NatText(-b) == IntText(b)[1..];
    }
  }

  /** Exactly `w` digits of `k`, with leading zeros. */
  function PadDigits(k: nat, w: nat): (r: string)
    requires k < Pow10(w)
    ensures |r| == w && AllDigits(r)
    ensures DigitsValue(r) == k
    decreases w
  {
    if w == 0 then ""
    else
      var r := PadDigits(k / 10, w - 1) + [DigitChar(k % 10)];
      assert r[..|r| - 1] == PadDigits(k / 10, w - 1);
      r
  }

  /** Drops trailing zeros of a fraction's digits; `zeros` counts them. */
  function StripZeros(s: string): (r: string)
    requires AllDigits(s)
    ensures AllDigits(r) && |r| <= |s|
    ensures DigitsValue(r) * Pow10(|s| - |r|) == DigitsValue(s)
    ensures |r| > 0 ==> r[|r| - 1] != '0'
    decreases |s|
  {
    if |s| > 0 && s[|s| - 1] == '0' then
      var r := StripZeros(s[..|s| - 1]);
      StripStep(s, r);
      r
    else s
  }

  /** Dropping one more trailing zero divides the value by ten. */
  lemma StripStep(s: string, r: string)
    requires |s| > 0 && s[|s| - 1] == '0' && |r| <= |s| - 1
    requires DigitsValue(r) * Pow10(|s| - 1 - |r|) == DigitsValue(s[..|s| - 1])
    ensures DigitsValue(r) * Pow10(|s| - |r|) == DigitsValue(s)
  {
    MulTen(DigitsValue(r), Pow10(|s| - 1 - |r|), Pow10(|s| - |r|));
  }

  lemma MulTen(a: int, p: int, q: int)
    requires q == 10 * p
    ensures a * q == (a * p) * 10
  {
  }

  const FractionDigits: nat := 6

  /** The first six decimals of a non-negative value, as a whole number of
      millionths. */
  function Micro(a: real): (m: nat)
    requires a >= 0.0
    ensures m < Pow10(FractionDigits)
  {
    ((a - a.Floor as real) * Pow10(FractionDigits) as real).Floor
  }

  /** `String(a)` for `a >= 0`. */
  function UnsignedText(a: real): string
    requires a >= 0.0
  {
    var n: nat := a.Floor;
    if Micro(a) == 0 then NatText(n)
    else PointText(NatText(n), FractionText(Micro(a)))
  }

  /** The fraction digits written for `micro` millionths: six places with
      the trailing zeros dropped. */
  function FractionText(micro: nat): string
    requires micro < Pow10(FractionDigits)
  {
    StripZeros(PadDigits(micro, FractionDigits))
  }

  /** The literal `whole.frac`. */
  function PointText(whole: string, frac: string): string {
    whole + "." + frac
  }

  /** `String(x)`: integers as plain decimals; other values with their
      fraction written to six places and trailing zeros dropped. */
  function NumText(x: real): (r: string)
    ensures r != ""
  {
    if x < 0.0 then "-" + UnsignedText(-x) else UnsignedText(x)
  }

  /** Length of the run of digits at the start of `s`. */
  function DigitRun(s: string): (k: nat)
    ensures k <= |s| && AllDigits(s[..k])
    ensures k < |s| ==> !IsDigit(s[k])
  {
    DigitsFrom(s, 0)
  }

  /** End of the run of digits of `s` that starts at `i`. */
  function DigitsFrom(s: string, i: nat): (k: nat)
    requires i <= |s|
    ensures i <= k <= |s|
    ensures forall m :: i <= m < k ==> IsDigit(s[m])
    ensures k < |s| ==> !IsDigit(s[k])
    decreases |s| - i
  {
    if i < |s| && IsDigit(s[i]) then DigitsFrom(s, i + 1) else i
  }

  /** The digit run is the only prefix of digits not followed by a digit. */
  lemma DigitRunUnique(s: string, k: nat)
    requires k <= |s| && AllDigits(s[..k])
    requires k < |s| ==> !IsDigit(s[k])
    ensures DigitRun(s) == k
  {
  }

  lemma DigitRunPrefix(a: string, b: string)
    requires AllDigits(a)
    requires |b| > 0 ==> !IsDigit(b[0])
    ensures DigitRun(a + b) == |a|
  {
    assert (a + b)[..|a|] == a;
    DigitRunUnique(a + b, |a|);
  }

  /** The value of a fraction's digits: `0.d1d2...`. */
  function FracValue(s: string): real {
    DigitsValue(s) as real / Pow10(|s|) as real
  }

  /** A number read from the start of a string, and how many characters it took. */
  datatype Scan = Scan(value: real, len: nat)

  /** Reads `digits[.digits]` (at least one digit) from the start of `b`. */
  function ScanUnsigned(b: string): (r: Option<Scan>)
    ensures r.Some? ==> 0 < r.value.len <= |b| && r.value.value >= 0.0
  {
    var i := DigitRun(b);
    if i < |b| && b[i] == '.' then PointScan(b, i, DigitRun(b[i + 1..]))
    else if i == 0 then None
    else Some(Scan(DigitsValue(b[..i]) as real, i))
  }

  /** The literal `digits.digits` of `b` with `i` digits before the point
      and `j` after it. */
  function PointScan(b: string, i: nat, j: nat): (r: Option<Scan>)
    requires i + 1 + j <= |b|
    ensures r.Some? ==> 0 < r.value.len <= |b| && r.value.value >= 0.0
  {
    if i + j == 0 then None
    else Some(Scan(DigitsValue(b[..i]) as real + FracValue(b[i + 1..][..j]), i + 1 + j))
  }

  /** Reads `[+-]digits[.digits]` from the start of `t`. */
  function ScanDecimal(t: string): (r: Option<Scan>)
    ensures r.Some? ==> r.value.len <= |t|
  {
    if |t| > 0 && (t[0] == '+' || t[0] == '-') then
      match ScanUnsigned(t[1..])
      case None => None
      case Some(sc) => Some(Scan(if t[0] == '-' then -sc.value else sc.value, sc.len + 1))
    else ScanUnsigned(t)
  }

  /** What `ScanUnsigned` reads when the digit run ends at `i` without a point. */
  lemma ScanWholeAt(b: string, i: nat)
    requires 0 < i && DigitRun(b) == i && (i < |b| ==> b[i] != '.')
    ensures ScanUnsigned(b) == Some(Scan(DigitsValue(b[..i]) as real, i))
  {
  }

  /** What `ScanUnsigned` reads when a point follows the digit run at `i`. */
  lemma ScanFractionAt(b: string, i: nat, j: nat)
    requires i < |b| && DigitRun(b) == i && b[i] == '.' && i + j > 0
    requires DigitRun(b[i + 1..]) == j
    ensures ScanUnsigned(b) == PointScan(b, i, j)
  {
  }

  /** A digit run followed by something that is not part of a number. */
  lemma ScanWhole(d: string, w: string)
    requires |d| > 0 && AllDigits(d)
    requires |w| > 0 ==> !IsDigit(w[0]) && w[0] != '.'
    ensures ScanUnsigned(d + w) == Some(Scan(DigitsValue(d) as real, |d|))
  {
    DigitRunPrefix(d, w);
    assert (d + w)[..|d|] == d;
    ScanWholeAt(d + w, |d|);
  }

  /** `digits.digits` followed by something that is not a digit. */
  lemma ScanFraction(d: string, f: string, w: string)
    requires AllDigits(d) && AllDigits(f) && |d| + |f| > 0
    requires |w| > 0 ==> !IsDigit(w[0])
    ensures ScanUnsigned(PointText(d, f) + w) == Some(Scan(DigitsValue(d) as real + FracValue(f), |d| + 1 + |f|))
  {
    ScanFractionParts(d, f, w);
    ScanPointValue(PointText(d, f) + w, d, f);
  }

  /** `b` starts with the point literal `d.f`, and what follows cannot
      extend it. */
  predicate PointAt(b: string, d: string, f: string) {
    var i, j := |d|, |f|;
    i < |b| && i + j > 0 && DigitRun(b) == i && b[i] == '.' && DigitRun(b[i + 1..]) == j
    && b[..i] == d && b[i + 1..][..j] == f
  }

  /** `ScanUnsigned` on a string that starts with the point literal `d.f`. */
  lemma ScanPointValue(b: string, d: string, f: string)
    requires PointAt(b, d, f)
    ensures ScanUnsigned(b) == Some(Scan(DigitsValue(d) as real + FracValue(f), |d| + 1 + |f|))
  {
    ScanFractionAt(b, |d|, |f|);
  }

  lemma ScanFractionParts(d: string, f: string, w: string)
    requires AllDigits(d) && AllDigits(f) && |d| + |f| > 0
    requires |w| > 0 ==> !IsDigit(w[0])
    ensures PointAt(PointText(d, f) + w, d, f)
  {
    var rest := f + w;
    var b := PointText(d, f) + w;
    assert d + ("." + rest) == b;
    DigitRunPrefix(d, "." + rest);
    assert b[|d| + 1..] == rest;
    DigitRunPrefix(f, w);
  }

  /** `Number(s)`: surrounding white space ignored, a blank string is 0, and
      anything but one whole decimal literal is `NaN`. */
  function NumberOf(s: string): Option<real> {
    var t := Text.Trim(s);
    if t == "" then Some(0.0)
    else match ScanDecimal(t)
      case Some(sc) => if sc.len == |t| then Some(sc.value) else None
      case None => None
  }

  /** `parseFloat(s)`: the decimal literal at the start of `s` (after white
      space); what follows it is ignored. */
  function ParseFloat(s: string): Option<real> {
    match ScanDecimal(Text.TrimStart(s))
    case Some(sc) => Some(sc.value)
    case None => None
  }

  /** `parseInt(s, 10)`: the signed digit run at the start of `s` (after
      white space); what follows it is ignored. */
  function ParseInt(s: string): Option<int> {
    var t := Text.TrimStart(s);
    var signLen := if |t| > 0 && (t[0] == '+' || t[0] == '-') then 1 else 0;
    var body := t[signLen..];
    var i := DigitRun(body);
    if i == 0 then None
    else
      var v: int := DigitsValue(body[..i]);
      Some(if signLen == 1 && t[0] == '-' then -v else v)
  }

  /** `Number.isInteger`. */
  predicate IsIntegral(x: real) {
    x == x.Floor as real
  }

  /** A whole literal, optionally preceded by a minus sign. */
  lemma ScanSigned(neg: bool, body: string, v: real)
    requires ScanUnsigned(body) == Some(Scan(v, |body|))
    ensures var t := if neg then "-" + body else body;
            ScanDecimal(t) == Some(Scan(if neg then -v else v, |t|))
  {
    var t := if neg then "-" + body else body;
    if neg {
      assert t[1..] == body;
    }
  }

  /** A string that is one complete literal with no surrounding white space
      is read the same way by `Number` and `parseFloat`. */
  lemma CompleteLiteral(t: string, v: real)
    requires |t| > 0 && !Text.IsSpace(t[0]) && !Text.IsSpace(t[|t| - 1])
    requires ScanDecimal(t) == Some(Scan(v, |t|))
    ensures NumberOf(t) == Some(v)
    ensures ParseFloat(t) == Some(v)
  {
    Text.TrimNoEdgeSpace(t);
  }

  /** `String` then `Number` gives back any integer. */
  lemma NumberOfIntText(n: int)
    ensures NumberOf(IntText(n)) == Some(n as real)
    ensures ParseFloat(IntText(n)) == Some(n as real)
    ensures ParseInt(IntText(n)) == Some(n)
  {
    var m: nat := if n < 0 then -n else n;
    var d := NatText(m);
    var t := IntText(n);
    ScanDigits(d);
    ScanSigned(n < 0, d, m as real);
    assert ScanDecimal(t) == Some(Scan(n as real, |t|));
    CompleteLiteral(t, n as real);
    ParseIntIntText(n);
  }

  lemma ParseIntIntText(n: int)
    ensures ParseInt(IntText(n)).Some? && ParseInt(IntText(n)).value == n
  {
    var m: nat := if n < 0 then -n else n;
    var d := NatText(m);
    var t := IntText(n);
    assert Text.TrimStart(t) == t by {
      Text.TrimNoEdgeSpace(t);
    }
    var signLen := if n < 0 then 1 else 0;
    assert |t| > 0 && (t[0] == '+' || t[0] == '-' <==> n < 0) by {
      assert IsDigit(d[0]);
    }
    assert t[signLen..] == d;
    assert DigitRun(d) == |d| by {
      DigitRunPrefix(d, "");
      assert d + "" == d;
    }
    assert d[..|d|] == d;
  }

  /** `x` has at most six decimals, so `String` writes it exactly. */
  predicate SixDecimals(x: real) {
    IsIntegral(x * Pow10(FractionDigits) as real)
  }

  /** For a value with at most six decimals, the six-place fraction of
      `NumText` is exact. */
  lemma SixPlaces(a: real)
    requires a >= 0.0 && IsIntegral(a * Pow10(FractionDigits) as real)
    ensures a == a.Floor as real + Micro(a) as real / Pow10(FractionDigits) as real
  {
    var Q := Pow10(FractionDigits);
    var P := Q as real;
    var m := (a * P).Floor;
    var n := a.Floor;
    assert a * P == m as real;
    assert a == m as real / P by { DivideBack(a, P, m as real); }
    assert (n * Q) as real == n as real * P;
    assert (a - n as real) * P == (m - n * Q) as real;
    assert Micro(a) == m - n * Q;
  }

  lemma NegateIntegral(x: real, p: real)
    requires IsIntegral(x * p)
    ensures IsIntegral(-x * p)
  {
    var m := (x * p).Floor;
    assert -x * p == (-m) as real;
  }

  lemma DivideBack(a: real, p: real, m: real)
    requires p > 0.0 && a * p == m
    ensures a == m / p
  {
  }

  /** `String` then `Number` gives back every value with at most six decimals. */
  lemma NumberOfNumText(x: real)
    requires SixDecimals(x)
    ensures NumberOf(NumText(x)) == Some(x)
    ensures ParseFloat(NumText(x)) == Some(x)
  {
    ScanNumText(x);
    NumTextEdges(x);
    CompleteLiteral(NumText(x), x);
  }

  /** `NumText` is one whole literal whose value is `x`. */
  lemma ScanNumText(x: real)
    requires SixDecimals(x)
    ensures ScanDecimal(NumText(x)) == Some(Scan(x, |NumText(x)|))
  {
    if x < 0.0 {
      NegateIntegral(x, Pow10(FractionDigits) as real);
      ScanNegativeText(-x);
    } else {
      ScanUnsignedText(x);
      ScanSigned(false, UnsignedText(x), x);
    }
  }

  lemma ScanNegativeText(a: real)
    requires a > 0.0 && IsIntegral(a * Pow10(FractionDigits) as real)
    ensures ScanDecimal(NumText(-a)) == Some(Scan(-a, |NumText(-a)|))
  {
    var u := UnsignedText(a);
    assert NumText(-a) == "-" + u;
    ScanUnsignedText(a);
    ScanSigned(true, u, a);
  }

  /** `NumText` starts with a sign or a digit and ends with a digit. */
  lemma NumTextEdges(x: real)
    ensures var t := NumText(x);
            !Text.IsSpace(t[0]) && !Text.IsSpace(t[|t| - 1])
  {
    var a := if x < 0.0 then -x else x;
    UnsignedEdges(a);
  }

  /** `UnsignedText` starts and ends with a digit. */
  lemma UnsignedEdges(a: real)
    requires a >= 0.0
    ensures var u := UnsignedText(a);
            |u| > 0 && IsDigit(u[0]) && IsDigit(u[|u| - 1])
  {
    var n := NatText(a.Floor);
    assert IsDigit(n[0]) && IsDigit(n[|n| - 1]);
    if Micro(a) != 0 {
      MicroDigits(Micro(a));
      PointEdges(n, FractionText(Micro(a)));
    }
  }

  lemma PointEdges(d: string, f: string)
    requires |d| > 0 && |f| > 0
    ensures var p := PointText(d, f);
            |p| > 0 && p[0] == d[0] && p[|p| - 1] == f[|f| - 1]
  {
  }

  /** `UnsignedText` is read back exactly. */
  lemma ScanUnsignedText(a: real)
    requires a >= 0.0 && IsIntegral(a * Pow10(FractionDigits) as real)
    ensures ScanUnsigned(UnsignedText(a)) == Some(Scan(a, |UnsignedText(a)|))
  {
    SixPlaces(a);
    if Micro(a) == 0 {
      ScanWholeText(a);
    } else {
      ScanMicro(a.Floor, Micro(a));
    }
  }

  lemma ScanWholeText(a: real)
    requires a >= 0.0 && Micro(a) == 0 && a == a.Floor as real + Micro(a) as real / Pow10(FractionDigits) as real
    ensures ScanUnsigned(UnsignedText(a)) == Some(Scan(a, |UnsignedText(a)|))
  {
    assert a == a.Floor as real;
    ScanDigits(NatText(a.Floor));
  }

  /** A digit string read on its own. */
  lemma ScanDigits(d: string)
    requires |d| > 0 && AllDigits(d)
    ensures ScanUnsigned(d) == Some(Scan(DigitsValue(d) as real, |d|))
  {
    ScanWhole(d, "");
    assert d + "" == d;
  }

  /** A point literal read on its own. */
  lemma ScanPointText(d: string, f: string)
    requires AllDigits(d) && AllDigits(f) && |d| + |f| > 0
    ensures ScanUnsigned(PointText(d, f)) == Some(Scan(DigitsValue(d) as real + FracValue(f), |PointText(d, f)|))
  {
    PointAlone(d, f);
    ScanPointValue(PointText(d, f), d, f);
    assert |PointText(d, f)| == |d| + 1 + |f|;
  }

  lemma PointAlone(d: string, f: string)
    requires AllDigits(d) && AllDigits(f) && |d| + |f| > 0
    ensures PointAt(PointText(d, f), d, f)
  {
    var b := PointText(d, f);
    assert d + ("." + f) == b;
    DigitRunPrefix(d, "." + f);
    assert b[|d| + 1..] == f;
    assert f[..|f|] == f;
    DigitRunPrefix(f, "");
    assert f + "" == f;
  }

  /** What `ScanUnsigned` reads from `n.FractionText(micro)`. */
  lemma ScanMicro(n: nat, micro: nat)
    requires 0 < micro < Pow10(FractionDigits)
    ensures var p := PointText(NatText(n), FractionText(micro));
            ScanUnsigned(p) == Some(Scan(n as real + micro as real / Pow10(FractionDigits) as real, |p|))
  {
    MicroDigits(micro);
    ScanPointText(NatText(n), FractionText(micro));
  }

  /** The fraction digits `NumText` writes for `micro` millionths. */
  lemma MicroDigits(micro: nat)
    requires 0 < micro < Pow10(FractionDigits)
    ensures var f := FractionText(micro);
            |f| > 0 && AllDigits(f) && FracValue(f) == micro as real / Pow10(FractionDigits) as real
  {
    var g := PadDigits(micro, FractionDigits);
    var f := StripZeros(g);
    var z := FractionDigits - |f|;
    var D := DigitsValue(f);
    assert D * Pow10(z) == micro;
    Pow10Add(|f|, z);
    ScaleFraction(D, Pow10(|f|), Pow10(z));
  }

  /** Scaling numerator and denominator alike leaves a quotient unchanged. */
  lemma ScaleFraction(d: int, a: int, b: int)
    requires a > 0 && b > 0
    ensures d as real / a as real == (d * b) as real / (a * b) as real
  {
    assert (d * b) as real == d as real * b as real;
    assert (a * b) as real == a as real * b as real;
  }

  /** For an integral value `String` writes no fraction: the text is `IntText`. */
  lemma IntegralNumText(x: real)
    requires IsIntegral(x)
    ensures NumText(x) == IntText(x.Floor)
  {
    var n := x.Floor;
    if x < 0.0 {
      NegIntegral(x);
      UnsignedIntegral(-x);
      assert NumText(x) == "-" + UnsignedText(-x);
      assert IntText(n) == "-" + NatText(-n);
    } else {
      assert n >= 0;
      UnsignedIntegral(x);
      assert NumText(x) == UnsignedText(x);
      assert IntText(n) == NatText(n);
    }
  }

  lemma NegIntegral(x: real)
    requires x < 0.0 && IsIntegral(x)
    ensures IsIntegral(-x) && (-x).Floor == -x.Floor && x.Floor < 0
  {
  }

  lemma UnsignedIntegral(a: real)
    requires a >= 0.0 && IsIntegral(a)
    ensures UnsignedText(a) == NatText(a.Floor)
  {
    assert Micro(a) == 0;
  }

  lemma {:induction false} Pow10Add(a: nat, b: nat)
    ensures Pow10(a + b) == Pow10(a) * Pow10(b)
    decreases a
  {
    if a > 0 {
      Pow10Add(a - 1, b);
    }
  }

  /** Wherever `Number` accepts a non-blank string, `parseFloat` reads the
      same value from it. */
  lemma ParseFloatAgrees(s: string, v: real)
    requires NumberOf(s) == Some(v) && !Text.Blank(s)
    ensures ParseFloat(s) == Some(v)
  {
    var a := Text.TrimStart(s);
    var t := Text.Trim(s);
    assert a == t + a[|t|..];
    var rest := a[|t|..];
    assert forall k :: 0 <= k < |rest| ==> Text.IsSpace(rest[k]);
    ScanExtends(t, rest);
  }

  /** Trailing white space after a complete literal does not change what is read. */
  lemma ScanExtends(t: string, w: string)
    requires ScanDecimal(t).Some? && ScanDecimal(t).value.len == |t|
    requires forall k :: 0 <= k < |w| ==> Text.IsSpace(w[k])
    ensures ScanDecimal(t + w) == ScanDecimal(t)
  {
    if |t| > 0 && (t[0] == '+' || t[0] == '-') {
      assert (t + w)[1..] == t[1..] + w;
      ScanUnsignedExtends(t[1..], w);
    } else {
      ScanUnsignedExtends(t, w);
    }
  }

  lemma ScanUnsignedExtends(b: string, w: string)
    requires ScanUnsigned(b).Some? && ScanUnsigned(b).value.len == |b|
    requires forall k :: 0 <= k < |w| ==> Text.IsSpace(w[k])
    ensures ScanUnsigned(b + w) == ScanUnsigned(b)
  {
    var i := DigitRun(b);
    if i < |b| && b[i] == '.' {
      var j := DigitRun(b[i + 1..]);
      assert ScanUnsigned(b) == PointScan(b, i, j);
      PointParts(b, i, j);
      FractionExtends(b[..i], b[i + 1..], w);
    } else {
      ScanWholeAt(b, i);
      WholeExtends(b, w);
    }
  }

  /** A scan that ends exactly at the end of `b` splits `b` at its point. */
  lemma PointParts(b: string, i: nat, j: nat)
    requires i < |b| && DigitRun(b) == i && b[i] == '.' && i + j > 0
    requires DigitRun(b[i + 1..]) == j && i + 1 + j == |b|
    ensures AllDigits(b[..i]) && AllDigits(b[i + 1..]) && i + |b[i + 1..]| > 0
    ensures PointText(b[..i], b[i + 1..]) == b
  {
    assert b[i + 1..][..j] == b[i + 1..];
  }

  lemma FractionExtends(d: string, f: string, w: string)
    requires AllDigits(d) && AllDigits(f) && |d| + |f| > 0
    requires |w| > 0 ==> !IsDigit(w[0])
    ensures ScanUnsigned(PointText(d, f) + w) == ScanUnsigned(PointText(d, f))
  {
    ScanFraction(d, f, w);
    ScanPointText(d, f);
  }

  lemma WholeExtends(b: string, w: string)
    requires 0 < DigitRun(b) == |b|
    requires |w| > 0 ==> !IsDigit(w[0]) && w[0] != '.'
    ensures ScanUnsigned(b + w) == ScanUnsigned(b)
  {
    assert b[..|b|] == b;
    ScanWhole(b, w);
    ScanWholeAt(b, |b|);
  }
}
