/** A JSON scalar as the back end sends it, what the pages do with one
    (`Number(v)`, `String(v ?? '')`, truthiness and `a || b`), and column
    sums in which one `NaN` entry makes the whole sum `NaN`. */
module Values {
  import opened Common
  import Numbers
  import Text

  /** `null`, a number, or text (numeric columns may arrive as text). */
  datatype Value = Null | Num(n: real) | Txt(t: string)

  /** `Number(v)`, `None` standing for `NaN`. `Number(null)` and `Number('')`
      are 0, so this is also `Number(v || 0)`. */
  function NumberValue(v: Value): (r: Option<real>)
    ensures v.Null? ==> r == Some(0.0)
    ensures v.Num? ==> r == Some(v.n)
    ensures v.Txt? ==> r == Numbers.NumberOf(v.t)
  {
    match v
    case Null => Some(0.0)
    case Num(x) => Some(x)
    case Txt(t) => Numbers.NumberOf(t)
  }

  /** `String(v ?? '')`. */
  function Display(v: Value): (s: string)
    ensures v.Null? ==> s == ""
    ensures v.Txt? ==> s == v.t
    ensures v.Num? ==> s == Numbers.NumText(v.n)
  {
    match v
    case Null => ""
    case Num(x) => Numbers.NumText(x)
    case Txt(t) => t
  }

  /** JavaScript truthiness: `null`, `0` and `''` are falsy. */
  predicate Truthy(v: Value) {
    match v
    case Null => false
    case Num(x) => x != 0.0
    case Txt(s) => s != ""
  }

  /** `a || b`. */
  function Or(a: Value, b: Value): (r: Value)
    ensures Truthy(r) <==> Truthy(a) || Truthy(b)
    ensures Truthy(a) ==> r == a
    ensures !Truthy(a) ==> r == b
  {
    if Truthy(a) then a else b
  }

  /** A falsy value reads as the number 0, so `Number(v || 0)` is `Number(v)`. */
  lemma OrZeroSameNumber(v: Value)
    ensures NumberValue(Or(v, Num(0.0))) == NumberValue(v)
  {
    if v.Txt? && v.t == "" {
      assert Text.Trim(v.t) == "";
    }
  }

  /** A number written out is read back as the same number, when it has at
      most six decimals. */
  lemma DisplayNumberRoundTrip(x: real)
    requires Numbers.SixDecimals(x)
    ensures NumberValue(Txt(Display(Num(x)))) == NumberValue(Num(x))
  {
    Numbers.NumberOfNumText(x);
  }

  /** `xs.reduce((s, x) => s + f(x), 0)` where any `NaN` term makes the
      whole sum `NaN`. */
  function NaNSum<R>(f: R -> Option<real>, xs: seq<R>): Option<real>
    decreases |xs|
  {
    if |xs| == 0 then Some(0.0)
    else
      var s := NaNSum(f, xs[..|xs| - 1]);
      var x := f(xs[|xs| - 1]);
      if s.Some? && x.Some? then Some(s.value + x.value) else None
  }

  function Value0<R>(f: R -> Option<real>): R -> real {
    (x: R) => f(x).GetOr(0.0)
  }

  /** A column total: a number exactly when every entry is one, and then the
      ordinary sum of the entries. */
  function Total<R>(f: R -> Option<real>, xs: seq<R>): (t: Option<real>)
    ensures t.Some? <==> forall i :: 0 <= i < |xs| ==> f(xs[i]).Some?
    ensures t.Some? ==> t.value == Sum(Value0(f), xs)
  {
    NaNSumSpec(f, xs);
    NaNSum(f, xs)
  }

  /** A sum is a number exactly when every term is, and it is then the
      ordinary sum of the terms. */
  lemma {:induction false} NaNSumSpec<R>(f: R -> Option<real>, xs: seq<R>)
    ensures NaNSum(f, xs).Some? <==> forall i :: 0 <= i < |xs| ==> f(xs[i]).Some?
    ensures NaNSum(f, xs).Some? ==> NaNSum(f, xs).value == Sum(Value0(f), xs)
    decreases |xs|
  {
    if |xs| > 0 {
      var n := |xs| - 1;
      NaNSumSpec(f, xs[..n]);
      assert forall i :: 0 <= i < n ==> xs[..n][i] == xs[i];
    }
  }
}
