/** The monthly reports page: the date-range check, the totals over the
    sales and profit series, the month-over-month change column and the CSV
    export text. */
module Reports {
  import opened Common
  import Text
  import Sorting
  import opened Values

  datatype SalesRow = SalesRow(month: string, orders: Value, totalSales: Value, totalItems: Value)

  datatype ProfitRow = ProfitRow(month: string, revenue: Value, cogs: Value, profit: Value)

  // ---------------------------------------------------------------- range

  const RangeMissing := "Seleccioná rango válido"
  const RangeReversed := "El rango \"desde\" no puede ser mayor que \"hasta\""

  /** `onApply`: the message shown instead of fetching, `None` when the
      reports are fetched. `time` is the `Date` conversion of an input
      value, `None` for an invalid date (every comparison with it is false). */
  function OnApply(from: string, to: string, time: string -> Option<int>): (r: Option<string>)
    ensures r == Some(RangeMissing) <==> from == "" || to == ""
    ensures r == Some(RangeReversed) <==>
              from != "" && to != "" && time(from).Some? && time(to).Some? && time(from).value > time(to).value
    ensures r.None? <==>
              from != "" && to != "" && !(time(from).Some? && time(to).Some? && time(from).value > time(to).value)
  {
    if from == "" || to == "" then Some(RangeMissing)
    else if time(from).Some? && time(to).Some? && time(from).value > time(to).value then Some(RangeReversed)
    else None
  }

  // ---------------------------------------------------------------- totals

  /** `a / n * n == a` for a positive count `n`. */
  lemma DivideCount(a: real, n: nat)
    requires n > 0
    ensures (a / n as real) * n as real == a
  {
  }

  function SaleAmount(r: SalesRow): Option<real> { NumberValue(r.totalSales) }
  function SaleOrders(r: SalesRow): Option<real> { NumberValue(r.orders) }
  function SaleItems(r: SalesRow): Option<real> { NumberValue(r.totalItems) }
  function Revenue(r: ProfitRow): Option<real> { NumberValue(r.revenue) }
  function Cogs(r: ProfitRow): Option<real> { NumberValue(r.cogs) }
  function Profit(r: ProfitRow): Option<real> { NumberValue(r.profit) }

  /** `a > b` (or `a < b` when `wantMax` is false) on numbers that may be `NaN`. */
  predicate Beats(a: Option<real>, b: Option<real>, wantMax: bool) {
    a.Some? && b.Some? && (if wantMax then a.value > b.value else a.value < b.value)
  }

  /** `xs.reduce((best, cur) => cur beats best ? cur : best, xs[0])`, as the
      index of the row kept. */
  function Pick(vals: seq<Option<real>>, wantMax: bool): (k: nat)
    requires |vals| > 0
    ensures k < |vals|
    decreases |vals|
  {
    if |vals| == 1 then 0
    else
      var n := |vals| - 1;
      var b := Pick(vals[..n], wantMax);
      if Beats(vals[n], vals[b], wantMax) then n else b
  }

  /** On a series with no `NaN`, the row kept is the first one holding the
      maximum (or minimum): nothing beats it, and everything before it is
      strictly beaten by it. */
  lemma {:induction false} PickSpec(vals: seq<Option<real>>, wantMax: bool)
    requires |vals| > 0
    requires forall i :: 0 <= i < |vals| ==> vals[i].Some?
    ensures var k := Pick(vals, wantMax);
            (forall i :: 0 <= i < |vals| ==> !Beats(vals[i], vals[k], wantMax))
            && (forall i :: 0 <= i < k ==> Beats(vals[k], vals[i], wantMax))
    decreases |vals|
  {
    if |vals| > 1 {
      var n := |vals| - 1;
      var pre := vals[..n];
      assert forall i :: 0 <= i < n ==> pre[i] == vals[i];
      PickSpec(pre, wantMax);
    }
  }

  function SalesAmounts(rows: seq<SalesRow>): (r: seq<Option<real>>)
    ensures |r| == |rows|
    ensures forall i :: 0 <= i < |r| ==> r[i] == SaleAmount(rows[i])
  {
    seq(|rows|, i requires 0 <= i < |rows| => SaleAmount(rows[i]))
  }

  datatype Totals = Totals(
    totalSales: Option<real>,
    totalOrders: Option<real>,
    totalItems: Option<real>,
    totalRevenue: Option<real>,
    totalCogs: Option<real>,
    totalProfit: Option<real>,
    avgPerMonth: Option<real>,
    bestMonth: Option<SalesRow>,
    worstMonth: Option<SalesRow>)

  /** `avgPerMonth`: the mean monthly sales, 0 with no months. */
  function AvgPerMonth(sales: seq<SalesRow>): (avg: Option<real>)
    ensures |sales| == 0 ==> avg == Some(0.0)
    ensures |sales| > 0 ==> (avg.Some? <==> Total(SaleAmount, sales).Some?)
    ensures |sales| > 0 && avg.Some? ==> avg.value * |sales| as real == Total(SaleAmount, sales).value
  {
    var total := Total(SaleAmount, sales);
    if |sales| == 0 then Some(0.0)
    else if total.Some? then
      DivideCount(total.value, |sales|);
      Some(total.value / |sales| as real)
    else None
  }

  /** `bestMonth` / `worstMonth`: one of the rows, `null` with no rows. */
  function Extreme(sales: seq<SalesRow>, wantMax: bool): (m: Option<SalesRow>)
    ensures m.None? <==> |sales| == 0
    ensures m.Some? ==> m.value == sales[Pick(SalesAmounts(sales), wantMax)]
  {
    if |sales| == 0 then None else Some(sales[Pick(SalesAmounts(sales), wantMax)])
  }

  /** `totals`. */
  function TotalsOf(sales: seq<SalesRow>, profit: seq<ProfitRow>): (t: Totals)
    ensures t.totalSales == Total(SaleAmount, sales) && t.avgPerMonth == AvgPerMonth(sales)
    ensures t.totalOrders == Total(SaleOrders, sales) && t.totalItems == Total(SaleItems, sales)
    ensures t.totalRevenue == Total(Revenue, profit) && t.totalCogs == Total(Cogs, profit)
    ensures t.totalProfit == Total(Profit, profit)
    ensures t.bestMonth == Extreme(sales, true) && t.worstMonth == Extreme(sales, false)
  {
    Totals(
      Total(SaleAmount, sales),
      Total(SaleOrders, sales),
      Total(SaleItems, sales),
      Total(Revenue, profit),
      Total(Cogs, profit),
      Total(Profit, profit),
      AvgPerMonth(sales),
      Extreme(sales, true),
      Extreme(sales, false))
  }

  /** With every amount a number, the best month has the largest amount and
      no earlier month ties it; the worst month likewise for the smallest. */
  lemma BestAndWorstMonth(sales: seq<SalesRow>, profit: seq<ProfitRow>)
    requires |sales| > 0
    requires forall i :: 0 <= i < |sales| ==> SaleAmount(sales[i]).Some?
    ensures var t := TotalsOf(sales, profit);
            var best := Pick(SalesAmounts(sales), true);
            var worst := Pick(SalesAmounts(sales), false);
            t.bestMonth == Some(sales[best]) && t.worstMonth == Some(sales[worst])
            && (forall i :: 0 <= i < |sales| ==>
                  SaleAmount(sales[i]).value <= SaleAmount(sales[best]).value
                  && SaleAmount(sales[worst]).value <= SaleAmount(sales[i]).value)
            && (forall i :: 0 <= i < best ==> SaleAmount(sales[i]).value < SaleAmount(sales[best]).value)
            && (forall i :: 0 <= i < worst ==> SaleAmount(sales[worst]).value < SaleAmount(sales[i]).value)
  {
    BestMonth(sales);
    WorstMonth(sales);
  }

  lemma BestMonth(sales: seq<SalesRow>)
    requires |sales| > 0
    requires forall i :: 0 <= i < |sales| ==> SaleAmount(sales[i]).Some?
    ensures var best := Pick(SalesAmounts(sales), true);
            (forall i :: 0 <= i < |sales| ==> SaleAmount(sales[i]).value <= SaleAmount(sales[best]).value)
            && (forall i :: 0 <= i < best ==> SaleAmount(sales[i]).value < SaleAmount(sales[best]).value)
  {
    var amounts := SalesAmounts(sales);
    PickSpec(amounts, true);
    var k := Pick(amounts, true);
    forall i | 0 <= i < |sales| ensures SaleAmount(sales[i]).value <= SaleAmount(sales[k]).value {
      assert !Beats(amounts[i], amounts[k], true);
    }
    forall i | 0 <= i < k ensures SaleAmount(sales[i]).value < SaleAmount(sales[k]).value {
      assert Beats(amounts[k], amounts[i], true);
    }
  }

  lemma WorstMonth(sales: seq<SalesRow>)
    requires |sales| > 0
    requires forall i :: 0 <= i < |sales| ==> SaleAmount(sales[i]).Some?
    ensures var worst := Pick(SalesAmounts(sales), false);
            (forall i :: 0 <= i < |sales| ==> SaleAmount(sales[worst]).value <= SaleAmount(sales[i]).value)
            && (forall i :: 0 <= i < worst ==> SaleAmount(sales[worst]).value < SaleAmount(sales[i]).value)
  {
    var amounts := SalesAmounts(sales);
    PickSpec(amounts, false);
    var k := Pick(amounts, false);
    forall i | 0 <= i < |sales| ensures SaleAmount(sales[k]).value <= SaleAmount(sales[i]).value {
      assert !Beats(amounts[i], amounts[k], false);
    }
    forall i | 0 <= i < k ensures SaleAmount(sales[k]).value < SaleAmount(sales[i]).value {
      assert Beats(amounts[k], amounts[i], false);
    }
  }

  // ---------------------------------------------------------------- change

  /** The `_changePct` column: `null` with no base to compare against, `NaN`
      when a term is `NaN`, else a percentage. */
  datatype Change = NoBase | NotANumber | Pct(p: real)

  /** The change from `prev` to `cur`, in percent of `|prev|`. */
  function ChangeOf(prev: Option<real>, cur: Option<real>): (c: Change)
    ensures c.NoBase? <==> prev == Some(0.0)
    ensures c.NotANumber? <==> prev != Some(0.0) && (prev.None? || cur.None?)
  {
    if prev == Some(0.0) then NoBase
    else if prev.None? || cur.None? then NotANumber
    else Pct((cur.value - prev.value) / Abs(prev.value) * 100.0)
  }

  function Abs(x: real): real {
    if x < 0.0 then -x else x
  }

  /** A percentage, scaled back by the size of the base, is the difference;
      its sign is the direction of the move. */
  lemma ChangeOfPct(prev: real, cur: real)
    requires prev != 0.0
    ensures ChangeOf(Some(prev), Some(cur)).Pct?
    ensures ChangeOf(Some(prev), Some(cur)).p * Abs(prev) == (cur - prev) * 100.0
    ensures ChangeOf(Some(prev), Some(cur)).p > 0.0 <==> cur > prev
    ensures ChangeOf(Some(prev), Some(cur)).p == 0.0 <==> cur == prev
  {
    var a := Abs(prev);
    var d := cur - prev;
    assert a > 0.0;
    assert (d / a * 100.0) * a == d * 100.0;
    assert d / a > 0.0 <==> d > 0.0;
  }

  /** `(a, b) => a.month <= b.month`. */
  function ByMonth<R>(month: R -> string): (R, R) -> bool {
    (a: R, b: R) => Text.StrLe(month(a), month(b))
  }

  lemma ByMonthPreorder<R(!new)>(month: R -> string)
    ensures Sorting.TotalPreorder(ByMonth(month))
  {
    var le := ByMonth(month);
    forall a: R, b: R ensures le(a, b) || le(b, a) {
      Text.StrLeTotalPreorder(month(a), month(b), month(a));
    }
    forall a: R, b: R, c: R | le(a, b) && le(b, c) ensures le(a, c) {
      Text.StrLeTotalPreorder(month(a), month(b), month(c));
    }
  }

  /** The change of row `i` of an ascending series from the row before it;
      the first row has none. */
  function ChangeAt<R>(asc: seq<R>, value: R -> Value, i: nat): Change
    requires i < |asc|
  {
    if i == 0 then NoBase else ChangeOf(NumberValue(value(asc[i - 1])), NumberValue(value(asc[i])))
  }

  /** Each row of an ascending series paired with its change from the row
      before it. */
  function Annotate<R>(asc: seq<R>, value: R -> Value): (r: seq<(R, Change)>)
    ensures |r| == |asc|
    ensures forall i :: 0 <= i < |r| ==> r[i] == (asc[i], ChangeAt(asc, value, i))
  {
    seq(|asc|, i requires 0 <= i < |asc| => (asc[i], ChangeAt(asc, value, i)))
  }

  function RowsOf<R>(r: seq<(R, Change)>): (rows: seq<R>)
    ensures |rows| == |r|
    ensures forall i :: 0 <= i < |r| ==> rows[i] == r[i].0
  {
    seq(|r|, i requires 0 <= i < |r| => r[i].0)
  }

  /** `withChange(arr, valueKey)`: the rows sorted by month, each with its
      change from the previous month, latest month first. */
  function WithChange<R(!new)>(arr: seq<R>, month: R -> string, value: R -> Value): (r: seq<(R, Change)>)
    ensures |r| == |arr|
    ensures multiset(RowsOf(r)) == multiset(arr)
    ensures forall i, j :: 0 <= i < j < |r| ==> Text.StrLe(month(r[j].0), month(r[i].0))
    ensures |r| > 0 ==> r[|r| - 1].1 == NoBase
  {
    var asc := SortByMonth(arr, month);
    var r := Reverse(Annotate(asc, value));
    ReversedRows(asc, value);
    LastHasNoBase(asc, value);
    ReverseDescending(asc, RowsOf(r), month);
    r
  }

  /** Reversing an ascending order gives a descending one. */
  lemma ReverseDescending<R>(asc: seq<R>, rows: seq<R>, month: R -> string)
    requires rows == Reverse(asc)
    requires forall i, j :: 0 <= i < j < |asc| ==> Text.StrLe(month(asc[i]), month(asc[j]))
    ensures forall i, j :: 0 <= i < j < |rows| ==> Text.StrLe(month(rows[j]), month(rows[i]))
  {
    forall i, j | 0 <= i < j < |rows| ensures Text.StrLe(month(rows[j]), month(rows[i])) {
      assert rows[j] == asc[|asc| - 1 - j] && rows[i] == asc[|asc| - 1 - i];
    }
  }

  lemma LastHasNoBase<R>(asc: seq<R>, value: R -> Value)
    ensures |asc| > 0 ==> Reverse(Annotate(asc, value))[|asc| - 1].1 == NoBase
  {
  }

  lemma ReversedRows<R>(asc: seq<R>, value: R -> Value)
    ensures RowsOf(Reverse(Annotate(asc, value))) == Reverse(asc)
  {
    RowsOfReverse(Annotate(asc, value));
    RowsOfAnnotate(asc, value);
  }

  lemma RowsOfReverse<R>(r: seq<(R, Change)>)
    ensures RowsOf(Reverse(r)) == Reverse(RowsOf(r))
  {
    var a, b := RowsOf(Reverse(r)), Reverse(RowsOf(r));
    forall i | 0 <= i < |a| ensures a[i] == b[i] {
      assert a[i] == Reverse(r)[i].0 == r[|r| - 1 - i].0;
    }
  }

  lemma RowsOfAnnotate<R>(asc: seq<R>, value: R -> Value)
    ensures RowsOf(Annotate(asc, value)) == asc
  {
    var a := RowsOf(Annotate(asc, value));
    forall i | 0 <= i < |a| ensures a[i] == asc[i] {
      assert a[i] == Annotate(asc, value)[i].0;
    }
  }

  /** `[...arr].sort(...)` by ascending month. */
  function SortByMonth<R(!new)>(arr: seq<R>, month: R -> string): (asc: seq<R>)
    ensures |asc| == |arr| && multiset(asc) == multiset(arr)
    ensures forall i, j :: 0 <= i < j < |asc| ==> Text.StrLe(month(asc[i]), month(asc[j]))
  {
    ByMonthPreorder(month);
    Sorting.InsertionSort(arr, ByMonth(month))
  }

  /** Each change is taken against the row just after it in the list, that
      is, the month before it. */
  lemma WithChangeAgainstPrevious<R(!new)>(arr: seq<R>, month: R -> string, value: R -> Value)
    ensures var r := WithChange(arr, month, value);
            forall i :: 0 <= i < |r| - 1 ==>
              r[i].1 == ChangeOf(NumberValue(value(r[i + 1].0)), NumberValue(value(r[i].0)))
  {
    var asc := SortByMonth(arr, month);
    var ann := Annotate(asc, value);
    var r := WithChange(arr, month, value);
    assert r == Reverse(ann);
    var n := |r|;
    forall i | 0 <= i < n - 1
      ensures r[i].1 == ChangeOf(NumberValue(value(r[i + 1].0)), NumberValue(value(r[i].0)))
    {
      var k := n - 1 - i;
      assert r[i] == ann[k] == (asc[k], ChangeAt(asc, value, k));
      assert r[i + 1] == ann[k - 1] == (asc[k - 1], ChangeAt(asc, value, k - 1));
    }
  }

  /** The sales series with the change of `total_sales`. */
  function SalesWithChange(sales: seq<SalesRow>): (r: seq<(SalesRow, Change)>)
    ensures |r| == |sales| && multiset(RowsOf(r)) == multiset(sales)
  {
    WithChange(sales, (s: SalesRow) => s.month, (s: SalesRow) => s.totalSales)
  }

  /** The profit series with the change of `profit`. */
  function ProfitWithChange(profit: seq<ProfitRow>): (r: seq<(ProfitRow, Change)>)
    ensures |r| == |profit| && multiset(RowsOf(r)) == multiset(profit)
  {
    WithChange(profit, (p: ProfitRow) => p.month, (p: ProfitRow) => p.profit)
  }

  /** A series already in ascending month order comes back reversed, and
      each change is taken against the row that preceded it. */
  lemma WithChangeOfSorted<R(!new)>(arr: seq<R>, month: R -> string, value: R -> Value)
    requires forall i, j :: 0 <= i < j < |arr| ==> Text.StrLess(month(arr[i]), month(arr[j]))
    ensures var r := WithChange(arr, month, value);
            RowsOf(r) == Reverse(arr)
            && forall i :: 0 < i < |arr| ==>
                 r[|arr| - 1 - i].1 == ChangeOf(NumberValue(value(arr[i - 1])), NumberValue(value(arr[i])))
  {
    SortedInputKept(arr, month);
    ReversedRows(arr, value);
    ReversedChanges(arr, value);
  }

  lemma SortedInputKept<R(!new)>(arr: seq<R>, month: R -> string)
    requires forall i, j :: 0 <= i < j < |arr| ==> Text.StrLess(month(arr[i]), month(arr[j]))
    ensures SortByMonth(arr, month) == arr
  {
    DistinctMonthsSorted(SortByMonth(arr, month), arr, month);
  }

  lemma ReversedChanges<R>(arr: seq<R>, value: R -> Value)
    ensures var r := Reverse(Annotate(arr, value));
            forall i :: 0 < i < |arr| ==>
              r[|arr| - 1 - i].1 == ChangeOf(NumberValue(value(arr[i - 1])), NumberValue(value(arr[i])))
  {
    forall i | 0 < i < |arr|
      ensures Reverse(Annotate(arr, value))[|arr| - 1 - i].1
              == ChangeOf(NumberValue(value(arr[i - 1])), NumberValue(value(arr[i])))
    {
      ReversedChangeAt(arr, value, i);
    }
  }

  lemma ReversedChangeAt<R>(arr: seq<R>, value: R -> Value, i: nat)
    requires 0 < i < |arr|
    ensures Reverse(Annotate(arr, value))[|arr| - 1 - i].1
            == ChangeOf(NumberValue(value(arr[i - 1])), NumberValue(value(arr[i])))
  {
    var ann := Annotate(arr, value);
    var k := |arr| - 1 - i;
    assert Reverse(ann)[k] == ann[|ann| - 1 - k];
    assert ann[i] == (arr[i], ChangeAt(arr, value, i));
  }

  /** Two ascending orders of the same rows with strictly increasing months
      are the same sequence. */
  lemma {:induction false} DistinctMonthsSorted<R>(a: seq<R>, b: seq<R>, month: R -> string)
    requires multiset(a) == multiset(b)
    requires forall i, j :: 0 <= i < j < |a| ==> Text.StrLe(month(a[i]), month(a[j]))
    requires forall i, j :: 0 <= i < j < |b| ==> Text.StrLess(month(b[i]), month(b[j]))
    ensures a == b
    decreases |a|
  {
    assert |a| == |multiset(a)| == |multiset(b)| == |b|;
    if |a| > 0 {
      SameFirst(a, b, month);
      var a', b' := a[1..], b[1..];
      TailMultiset(a);
      TailMultiset(b);
      forall x, y | 0 <= x < y < |a'| ensures Text.StrLe(month(a'[x]), month(a'[y])) {
        assert a'[x] == a[x + 1] && a'[y] == a[y + 1];
      }
      forall x, y | 0 <= x < y < |b'| ensures Text.StrLess(month(b'[x]), month(b'[y])) {
        assert b'[x] == b[x + 1] && b'[y] == b[y + 1];
      }
      DistinctMonthsSorted(a', b', month);
    }
  }

  lemma TailMultiset<R>(a: seq<R>)
    requires |a| > 0
    ensures multiset(a[1..]) == multiset(a) - multiset{a[0]}
  {
    assert a == [a[0]] + a[1..];
  }

  /** Both orders start with the row of the earliest month. */
  lemma SameFirst<R>(a: seq<R>, b: seq<R>, month: R -> string)
    requires |a| > 0 && |b| > 0 && multiset(a) == multiset(b)
    requires forall i, j :: 0 <= i < j < |a| ==> Text.StrLe(month(a[i]), month(a[j]))
    requires forall i, j :: 0 <= i < j < |b| ==> Text.StrLess(month(b[i]), month(b[j]))
    ensures a[0] == b[0]
  {
    assert a[0] in multiset(b) && b[0] in multiset(a);
    var j :| 0 <= j < |b| && b[j] == a[0];
    var i :| 0 <= i < |a| && a[i] == b[0];
    var first, other := month(b[0]), month(a[0]);
    Text.StrLessIrreflexive(first);
    assert j > 0 ==> Text.StrLess(first, other);
    assert i > 0 ==> Text.StrLe(other, first);
    assert j == 0;
  }

  // ---------------------------------------------------------------- CSV

  /** Which export button was pressed. */
  datatype Which = SalesCsv | ProfitCsv

  /** A value wrapped in double quotes. */
  function Quoted(t: string): (c: string)
    ensures |c| == |t| + 2 && c[0] == '"' && c[|c| - 1] == '"' && c[1..|c| - 1] == t
  {
    "\"" + t + "\""
  }

  function SalesCells(r: SalesRow): seq<string> {
    [r.month, Display(r.orders), Display(r.totalSales), Display(r.totalItems)]
  }

  function ProfitCells(r: ProfitRow): seq<string> {
    [r.month, Display(r.revenue), Display(r.cogs), Display(r.profit)]
  }

  const SalesHeader := "month,orders,total_sales,total_items"
  const ProfitHeader := "month,revenue,cogs,profit"

  /** One CSV line: every cell quoted, separated by commas. */
  function CsvLine(cells: seq<string>): (line: string) {
    Text.Join(QuoteAll(cells), ',')
  }

  function QuoteAll(cells: seq<string>): (r: seq<string>)
    ensures |r| == |cells|
    ensures forall i :: 0 <= i < |r| ==> r[i] == Quoted(cells[i])
  {
    seq(|cells|, i requires 0 <= i < |cells| => Quoted(cells[i]))
  }

  function SalesLines(rows: seq<SalesRow>): (r: seq<string>)
    ensures |r| == |rows|
    ensures forall i :: 0 <= i < |r| ==> r[i] == CsvLine(SalesCells(rows[i]))
  {
    seq(|rows|, i requires 0 <= i < |rows| => CsvLine(SalesCells(rows[i])))
  }

  function ProfitLines(rows: seq<ProfitRow>): (r: seq<string>)
    ensures |r| == |rows|
    ensures forall i :: 0 <= i < |r| ==> r[i] == CsvLine(ProfitCells(rows[i]))
  {
    seq(|rows|, i requires 0 <= i < |rows| => CsvLine(ProfitCells(rows[i])))
  }

  /** `csvFor(which)`: `None` when there is nothing to export, else the
      header line and one line per row, separated by newlines. */
  function CsvFor(which: Which, sales: seq<SalesRow>, profit: seq<ProfitRow>): (csv: Option<string>)
    ensures csv.None? <==> (if which == SalesCsv then |sales| == 0 else |profit| == 0)
    ensures csv.Some? && which == SalesCsv ==>
              csv.value == Text.Join([SalesHeader] + SalesLines(sales), '\n')
    ensures csv.Some? && which == ProfitCsv ==>
              csv.value == Text.Join([ProfitHeader] + ProfitLines(profit), '\n')
  {
    var header := if which == SalesCsv then SalesHeader else ProfitHeader;
    var lines := if which == SalesCsv then SalesLines(sales) else ProfitLines(profit);
    if |lines| == 0 then None
    else
      assert ([header] + lines)[1..] == lines;
      Some(header + "\n" + Text.Join(lines, '\n'))
  }

  /** No cell holds a comma or a line break. */
  predicate PlainCells(cells: seq<string>) {
    forall i :: 0 <= i < |cells| ==> ',' !in cells[i] && '\n' !in cells[i]
  }

  /** A line of plain cells splits at its commas back into the quoted cells,
      and has no line break of its own. */
  lemma LineRoundTrip(cells: seq<string>)
    requires |cells| >= 1 && PlainCells(cells)
    ensures Text.Split(CsvLine(cells), ',') == QuoteAll(cells)
    ensures '\n' !in CsvLine(cells)
  {
    var q := QuoteAll(cells);
    forall i | 0 <= i < |q| ensures ',' !in q[i] && '\n' !in q[i] {
      assert q[i] == "\"" + cells[i] + "\"";
    }
    Text.SplitJoin(q, ',');
    Text.JoinAvoids(q, ',', '\n');
  }

  /** The export text splits at its line breaks into the header and one line
      per row, and each row line splits at its commas into the quoted cells,
      as long as no cell holds a comma or a line break. */
  lemma SalesCsvRoundTrip(sales: seq<SalesRow>, profit: seq<ProfitRow>)
    requires |sales| > 0
    requires forall i :: 0 <= i < |sales| ==> PlainCells(SalesCells(sales[i]))
    ensures var csv := CsvFor(SalesCsv, sales, profit);
            csv.Some?
            && Text.Split(csv.value, '\n') == [SalesHeader] + SalesLines(sales)
            && forall i :: 0 <= i < |sales| ==>
                 Text.Split(Text.Split(csv.value, '\n')[i + 1], ',') == QuoteAll(SalesCells(sales[i]))
  {
    var lines := SalesLines(sales);
    forall i | 0 <= i < |sales|
      ensures Text.Split(lines[i], ',') == QuoteAll(SalesCells(sales[i])) && '\n' !in lines[i]
    {
      LineRoundTrip(SalesCells(sales[i]));
    }
    DocumentRoundTrip(SalesHeader, lines);
  }

  /** The same for the profit export. */
  lemma ProfitCsvRoundTrip(sales: seq<SalesRow>, profit: seq<ProfitRow>)
    requires |profit| > 0
    requires forall i :: 0 <= i < |profit| ==> PlainCells(ProfitCells(profit[i]))
    ensures var csv := CsvFor(ProfitCsv, sales, profit);
            csv.Some?
            && Text.Split(csv.value, '\n') == [ProfitHeader] + ProfitLines(profit)
            && forall i :: 0 <= i < |profit| ==>
                 Text.Split(Text.Split(csv.value, '\n')[i + 1], ',') == QuoteAll(ProfitCells(profit[i]))
  {
    var lines := ProfitLines(profit);
    forall i | 0 <= i < |profit|
      ensures Text.Split(lines[i], ',') == QuoteAll(ProfitCells(profit[i])) && '\n' !in lines[i]
    {
      LineRoundTrip(ProfitCells(profit[i]));
    }
    DocumentRoundTrip(ProfitHeader, lines);
  }

  lemma DocumentRoundTrip(header: string, lines: seq<string>)
    requires '\n' !in header
    requires forall i :: 0 <= i < |lines| ==> '\n' !in lines[i]
    ensures Text.Split(Text.Join([header] + lines, '\n'), '\n') == [header] + lines
  {
    var parts := [header] + lines;
    forall i | 0 <= i < |parts| ensures '\n' !in parts[i] {
      if i > 0 {
        assert parts[i] == lines[i - 1];
      }
    }
    Text.SplitJoin(parts, '\n');
  }
}
