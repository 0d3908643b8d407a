/** The sales-history page: the search over the loaded sales and the
    "+N más" count of items beyond the first one shown. */
module Historial {
  import opened Common
  import opened Values
  import Text
  import Numbers

  /** An item of a sale; only its name is searched. */
  datatype SaleItem = SaleItem(nombre: Option<string>)

  /** A sale as `/api/sales` returns it; `items` may be missing. */
  datatype Sale = Sale(id: int, total: Value, items: Option<seq<SaleItem>>)

  /** `String(sale.total || '')`: a falsy total (missing, 0, '') shows as
      nothing. */
  function TotalText(total: Value): (s: string)
    ensures !Truthy(total) ==> s == ""
    ensures Truthy(total) ==> s == Display(total)
  {
    Display(Or(total, Txt("")))
  }

  /** `item.nombre && item.nombre.toLowerCase().includes(term)`. */
  predicate ItemMatches(it: SaleItem, term: string) {
    it.nombre.Some? && it.nombre.value != "" && Text.Contains(Text.Lower(it.nombre.value), term)
  }

  /** A sale matches a (trimmed, lower-cased) term through its total, written
      out, or through the name of one of its items. */
  predicate Matches(sale: Sale, term: string) {
    Text.Contains(TotalText(sale.total), term)
    || (sale.items.Some? && exists i :: 0 <= i < |sale.items.value| && ItemMatches(sale.items.value[i], term))
  }

  function Term(searchTerm: string): string {
    Text.Lower(Text.Trim(searchTerm))
  }

  /** `filtered`: a blank search shows the sales as loaded; otherwise the
      matching sales, in their order. */
  function Filtered(sales: seq<Sale>, searchTerm: string): (r: seq<Sale>)
    ensures Term(searchTerm) == "" ==> r == sales
    ensures SubseqOf(r, sales)
    ensures Term(searchTerm) != "" ==>
      forall s :: multiset(r)[s] == if Matches(s, Term(searchTerm)) then multiset(sales)[s] else 0
    ensures Term(searchTerm) != "" ==> forall s :: s in r <==> s in sales && Matches(s, Term(searchTerm))
  {
    var term := Term(searchTerm);
    if term == "" then
      SubseqOfRefl(sales);
      sales
    else Filter((s: Sale) => Matches(s, term), sales)
  }

  /** Searching the results again with the same term changes nothing. */
  lemma FilteredIdempotent(sales: seq<Sale>, searchTerm: string)
    ensures Filtered(Filtered(sales, searchTerm), searchTerm) == Filtered(sales, searchTerm)
  {
    var r := Filtered(sales, searchTerm);
    if Term(searchTerm) != "" {
      assert forall i :: 0 <= i < |r| ==> r[i] in r;
    }
  }

  /** Typing (part of) the total finds the sale: a sale whose written-out
      total contains the term is kept. A total of 0 is never found this way. */
  lemma TotalFindsSale(sales: seq<Sale>, searchTerm: string, s: Sale)
    requires s in sales && Term(searchTerm) != ""
    ensures Text.Contains(TotalText(s.total), Term(searchTerm)) ==> s in Filtered(sales, searchTerm)
    ensures s.total == Num(0.0) && (s.items.None? || |s.items.value| == 0) ==> s !in Filtered(sales, searchTerm)
  {
    if s.total == Num(0.0) {
      Text.ContainsIff("", Term(searchTerm));
    }
  }

  /** `Math.max(0, items.length - 1)`: how many items the list line leaves
      out after showing the first. */
  function Remaining(items: seq<SaleItem>): (n: nat)
    ensures |items| > 0 ==> n + 1 == |items|
    ensures |items| == 0 ==> n == 0
  {
    if |items| - 1 > 0 then |items| - 1 else 0
  }

  /** The summary under a sale: its first item and, when there are more,
      the `+N más` label; nothing when the sale has no items. */
  datatype Summary = NoSummary | FirstItem(item: SaleItem, more: Option<string>)

  function SummaryOf(sale: Sale): (r: Summary)
    ensures r.NoSummary? <==> sale.items.None? || |sale.items.value| == 0
    ensures r.FirstItem? ==> r.item == sale.items.value[0]
    ensures r.FirstItem? ==> (r.more.Some? <==> |sale.items.value| > 1)
  {
    match sale.items
    case None => NoSummary
    case Some(xs) =>
      if |xs| == 0 then NoSummary
      else
        var n := Remaining(xs);
        FirstItem(xs[0], if n > 0 then Some("+" + Numbers.IntText(n) + " más") else None)
  }

  /** The label counts exactly the items not shown: reading the number back
      from `+N más` and adding the first item gives the item count. */
  lemma MoreLabelCountsRest(sale: Sale)
    requires SummaryOf(sale).FirstItem? && SummaryOf(sale).more.Some?
    ensures var shown := SummaryOf(sale).more.value;
            exists digits :: shown == "+" + digits + " más"
              && Numbers.ParseInt(digits) == Some(|sale.items.value| - 1)
  {
    var n := |sale.items.value| - 1;
    Numbers.NumberOfIntText(n);
    assert SummaryOf(sale).more.value == "+" + Numbers.IntText(n) + " más";
  }
}
