/** Sequence helpers shared by every page model: an optional value, the
    order-preserving sub-list relation, `filter`, `reduce`-style sums and the
    "distinct values in first-occurrence order" of `Array.from(new Set(...))`. */
module Common {

  /** A JavaScript value that may be `null`/`undefined` (or `NaN` for numbers). */
  datatype Option<T> = None | Some(value: T) {
    function GetOr(default: T): T {
      match this
      case Some(v) => v
      case None => default
    }
  }

  /** `xs` is an order-preserving sub-list of `ys`: it is `ys` with some
      elements deleted and the rest kept in their original order. */
  predicate SubseqOf<T(==)>(xs: seq<T>, ys: seq<T>)
    decreases |ys|
  {
    if |xs| == 0 then true
    else if |ys| == 0 then false
    else (xs[0] == ys[0] && SubseqOf(xs[1..], ys[1..])) || SubseqOf(xs, ys[1..])
  }

  lemma {:induction false} SubseqOfRefl<T>(xs: seq<T>)
    ensures SubseqOf(xs, xs)
    decreases |xs|
  {
    if |xs| > 0 {
      SubseqOfRefl(xs[1..]);
    }
  }

  /** `Array.prototype.filter`: the elements satisfying `p`, in order. */
  function Filter<T(==,!new)>(p: T -> bool, xs: seq<T>): (r: seq<T>)
    ensures SubseqOf(r, xs)
    ensures forall i :: 0 <= i < |r| ==> p(r[i])
    ensures forall x :: multiset(r)[x] == if p(x) then multiset(xs)[x] else 0
    ensures forall x :: x in r <==> x in xs && p(x)
    ensures (forall i :: 0 <= i < |xs| ==> p(xs[i])) ==> r == xs
    decreases |xs|
  {
    if |xs| == 0 then []
    else
      var rest := Filter(p, xs[1..]);
      var r := if p(xs[0]) then [xs[0]] + rest else rest;
      FilterStep(p, xs, rest, r);
      r
  }

  /** One step of `Filter`: its contract for `xs` from the contract for the tail. */
  lemma FilterStep<T(!new)>(p: T -> bool, xs: seq<T>, rest: seq<T>, r: seq<T>)
    requires |xs| > 0
    requires SubseqOf(rest, xs[1..])
    requires forall x :: multiset(rest)[x] == if p(x) then multiset(xs[1..])[x] else 0
    requires forall i :: 0 <= i < |rest| ==> p(rest[i])
    requires (forall i :: 0 <= i < |xs| - 1 ==> p(xs[1..][i])) ==> rest == xs[1..]
    requires r == if p(xs[0]) then [xs[0]] + rest else rest
    ensures SubseqOf(r, xs)
    ensures forall i :: 0 <= i < |r| ==> p(r[i])
    ensures forall x :: multiset(r)[x] == if p(x) then multiset(xs)[x] else 0
    ensures forall x :: x in r <==> x in xs && p(x)
    ensures (forall i :: 0 <= i < |xs| ==> p(xs[i])) ==> r == xs
  {
    StepSub(p, xs, rest, r);
    StepCount(p, xs, rest, r);
    CountMembers(p, xs, r);
    StepAllPass(p, xs, rest, r);
  }

  lemma StepSub<T(!new)>(p: T -> bool, xs: seq<T>, rest: seq<T>, r: seq<T>)
    requires |xs| > 0
    requires SubseqOf(rest, xs[1..])
    requires forall i :: 0 <= i < |rest| ==> p(rest[i])
    requires r == if p(xs[0]) then [xs[0]] + rest else rest
    ensures SubseqOf(r, xs)
    ensures forall i :: 0 <= i < |r| ==> p(r[i])
  {
    if p(xs[0]) {
      assert r[1..] == rest;
    }
  }

  lemma StepAllPass<T(!new)>(p: T -> bool, xs: seq<T>, rest: seq<T>, r: seq<T>)
    requires |xs| > 0
    requires (forall i :: 0 <= i < |xs| - 1 ==> p(xs[1..][i])) ==> rest == xs[1..]
    requires r == if p(xs[0]) then [xs[0]] + rest else rest
    ensures (forall i :: 0 <= i < |xs| ==> p(xs[i])) ==> r == xs
  {
    if forall i :: 0 <= i < |xs| ==> p(xs[i]) {
      TailHolds(p, xs, |xs|);
      assert xs == [xs[0]] + xs[1..];
    }
  }

  lemma StepCount<T(!new)>(p: T -> bool, xs: seq<T>, rest: seq<T>, r: seq<T>)
    requires |xs| > 0
    requires forall x :: multiset(rest)[x] == if p(x) then multiset(xs[1..])[x] else 0
    requires r == if p(xs[0]) then [xs[0]] + rest else rest
    ensures forall x :: multiset(r)[x] == if p(x) then multiset(xs)[x] else 0
  {
    assert xs == [xs[0]] + xs[1..];
    assert multiset(xs) == multiset{xs[0]} + multiset(xs[1..]);
  }

  lemma CountMembers<T(!new)>(p: T -> bool, xs: seq<T>, r: seq<T>)
    requires forall x :: multiset(r)[x] == if p(x) then multiset(xs)[x] else 0
    ensures forall x :: x in r <==> x in xs && p(x)
  {
    forall x ensures x in r <==> x in xs && p(x) {
      assert x in r <==> multiset(r)[x] > 0;
      assert x in xs <==> multiset(xs)[x] > 0;
    }
  }

  /** An order-preserving sub-list never holds a value more often than the
      list it comes from. */
  lemma {:induction false} SubseqCounts<T>(xs: seq<T>, ys: seq<T>)
    requires SubseqOf(xs, ys)
    ensures multiset(xs) <= multiset(ys)
    decreases |ys|
  {
    if |xs| > 0 {
      assert ys == [ys[0]] + ys[1..];
      if xs[0] == ys[0] && SubseqOf(xs[1..], ys[1..]) {
        SubseqCounts(xs[1..], ys[1..]);
        assert xs == [xs[0]] + xs[1..];
      } else {
        SubseqCounts(xs, ys[1..]);
      }
    }
  }

  /** The contract of `Filter` pins its result: an order-preserving sub-list
      of `xs` holding every value `p` accepts as often as `xs` does, and no
      other value, is `Filter(p, xs)`. */
  lemma {:induction false} FilterPinned<T(!new)>(p: T -> bool, xs: seq<T>, r: seq<T>)
    requires SubseqOf(r, xs)
    requires forall x :: multiset(r)[x] == if p(x) then multiset(xs)[x] else 0
    ensures r == Filter(p, xs)
    decreases |xs|
  {
    if |xs| == 0 {
      assert |r| == 0;
    } else {
      var x0 := xs[0];
      assert xs == [x0] + xs[1..];
      if |r| > 0 && r[0] == x0 && SubseqOf(r[1..], xs[1..]) {
        assert r == [x0] + r[1..];
        if !p(x0) {
          assert false;
        }
        FilterPinned(p, xs[1..], r[1..]);
      } else {
        assert SubseqOf(r, xs[1..]);
        if p(x0) {
          SubseqCounts(r, xs[1..]);
          assert false;
        }
        FilterPinned(p, xs[1..], r);
      }
    }
  }

  /** Filtering by a conjunction is filtering by one conjunct and then by
      the other. */
  lemma {:induction false} FilterAnd<T(!new)>(p: T -> bool, q: T -> bool, pq: T -> bool, xs: seq<T>)
    requires forall x :: pq(x) == (p(x) && q(x))
    ensures Filter(pq, xs) == Filter(q, Filter(p, xs))
    decreases |xs|
  {
    if |xs| > 0 {
      FilterAnd(p, q, pq, xs[1..]);
    }
  }

  /** Filtering distributes over concatenation. */
  lemma {:induction false} FilterConcat<T(!new)>(p: T -> bool, xs: seq<T>, ys: seq<T>)
    ensures Filter(p, xs + ys) == Filter(p, xs) + Filter(p, ys)
    decreases |xs|
  {
    if |xs| > 0 {
      assert (xs + ys)[1..] == xs[1..] + ys;
      FilterConcat(p, xs[1..], ys);
    } else {
      assert xs + ys == ys;
    }
  }

  /** Filtering out the one element that fails `p` is deleting it. */
  lemma {:induction false} FilterDropOne<T(!new)>(p: T -> bool, xs: seq<T>, k: nat)
    requires k < |xs| && !p(xs[k])
    requires forall i :: 0 <= i < |xs| && i != k ==> p(xs[i])
    ensures Filter(p, xs) == xs[..k] + xs[k + 1..]
    decreases k
  {
    var tail := xs[1..];
    TailHolds(p, xs, k);
    if k == 0 {
      assert Filter(p, xs) == Filter(p, tail);
      assert xs[..k] + xs[k + 1..] == tail;
    } else {
      assert Filter(p, xs) == [xs[0]] + Filter(p, tail);
      FilterDropOne(p, tail, k - 1);
      ConsSlices(xs, k);
    }
  }

  /** Two tests that agree on every element select the same elements. */
  lemma {:induction false} SameFilter<T(!new)>(p: T -> bool, q: T -> bool, xs: seq<T>)
    requires forall i :: 0 <= i < |xs| ==> p(xs[i]) == q(xs[i])
    ensures Filter(p, xs) == Filter(q, xs)
    decreases |xs|
  {
    if |xs| > 0 {
      assert forall i :: 0 <= i < |xs| - 1 ==> xs[1..][i] == xs[i + 1];
      SameFilter(p, q, xs[1..]);
    }
  }

  /** A test that is the exclusive union of two others selects as many
      elements as the two together. */
  lemma {:induction false} FilterCountSplit<T(!new)>(p: T -> bool, q: T -> bool, pq: T -> bool, xs: seq<T>)
    requires forall i :: 0 <= i < |xs| ==> pq(xs[i]) == (p(xs[i]) || q(xs[i]))
    requires forall i :: 0 <= i < |xs| ==> !(p(xs[i]) && q(xs[i]))
    ensures |Filter(pq, xs)| == |Filter(p, xs)| + |Filter(q, xs)|
    decreases |xs|
  {
    if |xs| > 0 {
      assert forall i :: 0 <= i < |xs| - 1 ==> xs[1..][i] == xs[i + 1];
      FilterCountSplit(p, q, pq, xs[1..]);
    }
  }

  lemma TailHolds<T>(p: T -> bool, xs: seq<T>, k: nat)
    requires 0 < |xs|
    requires forall i :: 0 <= i < |xs| && i != k ==> p(xs[i])
    ensures forall i :: 0 <= i < |xs| - 1 && i + 1 != k ==> p(xs[1..][i])
  {
    forall i | 0 <= i < |xs| - 1 && i + 1 != k ensures p(xs[1..][i]) {
      assert xs[1..][i] == xs[i + 1];
    }
  }

  lemma ConsSlices<T>(xs: seq<T>, k: nat)
    requires 0 < k < |xs|
    ensures xs[..k] + xs[k + 1..] == [xs[0]] + (xs[1..][..k - 1] + xs[1..][k..])
  {
    assert xs[..k] == [xs[0]] + xs[1..][..k - 1];
    assert xs[k + 1..] == xs[1..][k..];
  }

  /** `xs` cut around position `k`. */
  lemma SplitAround<T>(xs: seq<T>, k: nat)
    requires k < |xs|
    ensures xs[..k + 1] + xs[k + 1..] == xs
    ensures xs[..k + 1] == xs[..k] + [xs[k]]
  {
  }

  /** `xs.reduce((s, x) => s + f(x), 0)`: a left fold from the first element. */
  function Sum<T>(f: T -> real, xs: seq<T>): real
    decreases |xs|
  {
    if |xs| == 0 then 0.0 else Sum(f, xs[..|xs| - 1]) + f(xs[|xs| - 1])
  }

  lemma {:induction false} SumConcat<T>(f: T -> real, xs: seq<T>, ys: seq<T>)
    ensures Sum(f, xs + ys) == Sum(f, xs) + Sum(f, ys)
    decreases |ys|
  {
    if |ys| == 0 {
      assert xs + ys == xs;
    } else {
      var n := |ys| - 1;
      assert (xs + ys)[..|xs + ys| - 1] == xs + ys[..n];
      SumConcat(f, xs, ys[..n]);
    }
  }

  /** Changing one element changes the sum by exactly the difference. */
  lemma SumUpdate<T>(f: T -> real, xs: seq<T>, i: nat, y: T)
    requires i < |xs|
    ensures Sum(f, xs[i := y]) == Sum(f, xs) - f(xs[i]) + f(y)
  {
    assert xs == xs[..i] + [xs[i]] + xs[i + 1..];
    assert xs[i := y] == xs[..i] + [y] + xs[i + 1..];
    SumConcat(f, xs[..i] + [xs[i]], xs[i + 1..]);
    SumConcat(f, xs[..i] + [y], xs[i + 1..]);
    SumConcat(f, xs[..i], [xs[i]]);
    SumConcat(f, xs[..i], [y]);
  }

  /** Deleting one element takes exactly its value off the sum. */
  lemma SumDropOne<T>(f: T -> real, xs: seq<T>, k: nat)
    requires k < |xs|
    ensures Sum(f, xs[..k] + xs[k + 1..]) == Sum(f, xs) - f(xs[k])
  {
    SplitAround(xs, k);
    SumConcat(f, xs[..k + 1], xs[k + 1..]);
    SumConcat(f, xs[..k], [xs[k]]);
    SumConcat(f, xs[..k], xs[k + 1..]);
  }

  /** Two sequences of the same length that agree under `f` everywhere have
      the same sum. */
  lemma {:induction false} SumPointwise<T, U>(f: T -> real, xs: seq<T>, g: U -> real, ys: seq<U>)
    requires |xs| == |ys|
    requires forall i :: 0 <= i < |xs| ==> f(xs[i]) == g(ys[i])
    ensures Sum(f, xs) == Sum(g, ys)
    decreases |xs|
  {
    if |xs| > 0 {
      SumPointwise(f, xs[..|xs| - 1], g, ys[..|ys| - 1]);
    }
  }

  /** `Array.prototype.reverse`. */
  function Reverse<T>(s: seq<T>): (r: seq<T>)
    ensures |r| == |s|
    ensures forall i :: 0 <= i < |r| ==> r[i] == s[|s| - 1 - i]
    ensures multiset(r) == multiset(s)
    decreases |s|
  {
    if |s| == 0 then []
    else
      assert s == [s[0]] + s[1..];
      Reverse(s[1..]) + [s[0]]
  }

  /** No element occurs twice. */
  predicate NoDup<T(==)>(xs: seq<T>) {
    forall i, j :: 0 <= i < j < |xs| ==> xs[i] != xs[j]
  }

  /** Index of the first occurrence of `x` in `xs`. */
  function FirstIndex<T(==)>(xs: seq<T>, x: T): (k: nat)
    requires x in xs
    ensures k < |xs| && xs[k] == x && x !in xs[..k]
  {
    if xs[0] == x then 0 else 1 + FirstIndex(xs[1..], x)
  }

  lemma FirstIndexPrefix<T>(xs: seq<T>, n: nat, x: T)
    requires n <= |xs| && x in xs[..n]
    ensures FirstIndex(xs, x) == FirstIndex(xs[..n], x)
  {
    var k := FirstIndex(xs[..n], x);
    var m := FirstIndex(xs, x);
    assert xs[..n][..k] == xs[..k];
  }

  /** `Array.from(new Set(xs))`: the distinct values of `xs`, each once, in
      the order of their first occurrence. */
  function Dedup<T(==,!new)>(xs: seq<T>): (r: seq<T>)
    ensures NoDup(r)
    ensures forall x :: x in r <==> x in xs
    ensures forall i, j :: 0 <= i < j < |r| ==> FirstIndex(xs, r[i]) < FirstIndex(xs, r[j])
    decreases |xs|
  {
    if |xs| == 0 then []
    else
      var n := |xs| - 1;
      var d := Dedup(xs[..n]);
      assert xs == xs[..n] + [xs[n]];
      forall y | y in d
        ensures FirstIndex(xs, y) == FirstIndex(xs[..n], y) < n
      {
        FirstIndexPrefix(xs, n, y);
      }
      if xs[n] in d then d
      else
        assert FirstIndex(xs, xs[n]) == n;
        d + [xs[n]]
  }

  /** `Array.from(new Set(col.filter(Boolean)))` on a column of text: the
      distinct non-empty values, each once, in the order in which they first
      appear in the column. */
  function DistinctFilled(col: seq<string>): (r: seq<string>)
    ensures NoDup(r)
    ensures forall c :: c in r <==> c != "" && c in col
    ensures forall i, j :: 0 <= i < j < |r| ==> FirstIndex(col, r[i]) < FirstIndex(col, r[j])
  {
    var named := Filter((c: string) => c != "", col);
    var r := Dedup(named);
    forall i, j | 0 <= i < j < |r| ensures FirstIndex(col, r[i]) < FirstIndex(col, r[j]) {
      FilterFirstIndex((c: string) => c != "", col, r[i], r[j]);
    }
    r
  }

  /** Filtering keeps the order in which values first appear. */
  lemma {:induction false} FilterFirstIndex<T(!new)>(p: T -> bool, xs: seq<T>, a: T, b: T)
    requires a in Filter(p, xs) && b in Filter(p, xs)
    requires FirstIndex(Filter(p, xs), a) < FirstIndex(Filter(p, xs), b)
    ensures a in xs && b in xs && FirstIndex(xs, a) < FirstIndex(xs, b)
    decreases |xs|
  {
    var f, rest := Filter(p, xs), Filter(p, xs[1..]);
    if p(xs[0]) {
      assert f == [xs[0]] + rest;
      if a != xs[0] {
        assert b != xs[0];
        assert f[1..] == rest;
        FilterFirstIndex(p, xs[1..], a, b);
      }
    } else {
      assert f == rest;
      FilterFirstIndex(p, xs[1..], a, b);
    }
  }
}
