/** A customer's current-account page: the account balance over the
    customer's sales, the amount due with an optional interest percentage,
    the full-payment flow that wipes the history, and the lines of the sale
    detail view. */
module Account {
  import opened Common
  import opened Values
  import Numbers

  /** A sale of the account; only its `total` matters here. */
  datatype Sale = Sale(id: int, total: Value)

  function SaleTotal(s: Sale): Option<real> {
    NumberValue(s.total)
  }

  /** `totalCuenta`: the sum of `Number(total || 0)` over the sales. It is a
      number exactly when every total reads as one, and then it is their
      ordinary sum; a sale without a total adds nothing. */
  function TotalCuenta(sales: seq<Sale>): (t: Option<real>)
    ensures t.Some? <==> forall i :: 0 <= i < |sales| ==> NumberValue(Or(sales[i].total, Num(0.0))).Some?
    ensures t.Some? ==> t.value == Sum(Value0(SaleTotal), sales)
  {
    forall i | 0 <= i < |sales| ensures NumberValue(Or(sales[i].total, Num(0.0))) == SaleTotal(sales[i]) {
      OrZeroSameNumber(sales[i].total);
    }
    Total(SaleTotal, sales)
  }

  /** The amount due for an interest input: an empty or non-numeric input
      leaves the balance as it is; otherwise `parseFloat` reads a
      percentage `p`, and a `p >= 0` raises the balance by `p` percent while a
      negative `p` leaves it as it is. A `NaN` balance stays `NaN`. */
  function FinalAmount(total: Option<real>, interest: string): (r: Option<real>)
    ensures interest == "" || Numbers.NumberOf(interest).None? ==> r == total
    ensures interest != "" && Numbers.NumberOf(interest).Some? ==>
      var p := Numbers.ParseFloat(interest);
      if p.Some? && p.value >= 0.0 && total.Some? then r == Some(WithInterest(total.value, p.value))
      else if p.Some? && p.value >= 0.0 then r.None?
      else r == total
  {
    if interest == "" || Numbers.NumberOf(interest).None? then total
    else
      var p := Numbers.ParseFloat(interest);
      if p.Some? && p.value >= 0.0 then
        if total.Some? then Some(WithInterest(total.value, p.value)) else None
      else total
  }

  /** `t * (1 + p / 100)`. */
  function WithInterest(t: real, p: real): real {
    t * (1.0 + p / 100.0)
  }

  /** Typing a percentage `p` (as the number input writes it) charges `p`
      percent on top of the balance, never less than the balance for a
      non-negative balance, and a negative percentage charges nothing. */
  lemma TypedInterest(t: real, p: real)
    requires Numbers.SixDecimals(p)
    ensures p >= 0.0 ==> FinalAmount(Some(t), Numbers.NumText(p)) == Some(t + t * p / 100.0)
    ensures p >= 0.0 && t >= 0.0 ==> FinalAmount(Some(t), Numbers.NumText(p)).value >= t
    ensures p < 0.0 ==> FinalAmount(Some(t), Numbers.NumText(p)) == Some(t)
  {
    Numbers.NumberOfNumText(p);
    var s := Numbers.NumText(p);
    assert s != "" by {
      assert Numbers.NumberOf("") == Some(0.0);
      if p != 0.0 {
        assert Numbers.NumberOf(s) != Some(0.0);
      }
    }
    if p >= 0.0 {
      InterestAdds(t, p);
    }
  }

  lemma InterestAdds(t: real, p: real)
    requires p >= 0.0
    ensures WithInterest(t, p) == t + t * p / 100.0
    ensures t >= 0.0 ==> WithInterest(t, p) >= t
  {
    assert t * (1.0 + p / 100.0) == t + t * p / 100.0;
    if t >= 0.0 {
      assert t * p >= 0.0;
    }
  }

  /** The page state the full-payment flow touches. */
  datatype Page = Page(sales: seq<Sale>, interest: string, fullPaymentOpen: bool)

  /** The amount shown in the full-payment modal. */
  function Due(page: Page): Option<real> {
    FinalAmount(TotalCuenta(page.sales), page.interest)
  }

  /** `openFullPaymentModal`: the modal opens with the interest cleared, so
      the amount shown is the plain balance. */
  function OpenFullPayment(page: Page): (r: Page)
    ensures r.fullPaymentOpen && r.interest == "" && r.sales == page.sales
    ensures Due(r) == TotalCuenta(page.sales)
  {
    Page(page.sales, "", true)
  }

  /** The outcome of `handleFullPayment`: the state afterwards and whether
      the history-wiping request went out. */
  datatype Outcome = Outcome(page: Page, requested: bool)

  /** `handleFullPayment`: the request is sent only when both confirmations
      are accepted; on success the history is gone, the interest is cleared
      and the modal closes; a decline or a failure leaves the page as it was. */
  function HandleFullPayment(page: Page, firstOk: bool, secondOk: bool, ok: bool): (r: Outcome)
    ensures r.requested <==> firstOk && secondOk
    ensures r.requested && ok ==> r.page == Page([], "", false)
    ensures !(r.requested && ok) ==> r.page == page
  {
    if !firstOk || !secondOk then Outcome(page, false)
    else if ok then Outcome(Page([], "", false), true)
    else Outcome(page, true)
  }

  /** After a full payment the account starts again from zero. */
  lemma PaidAccountIsZero(page: Page)
    ensures var r := HandleFullPayment(page, true, true, true).page;
            TotalCuenta(r.sales) == Some(0.0) && Due(r) == Some(0.0)
  {
    var r := HandleFullPayment(page, true, true, true).page;
    assert Sum(Value0(SaleTotal), r.sales) == 0.0;
  }

  /** An item of the sale-detail view, each field as the back end sends it. */
  datatype DetailItem = DetailItem(nombre: Value, precioUnitario: Value, unitPrice: Value,
                                   qty: Value, lineTotal: Value)

  /** A rendered detail line: name, quantity, unit price and subtotal
      (`None` standing for `NaN`). */
  datatype DetailLine = DetailLine(nombre: Value, qty: Value, unit: Value, subtotal: Option<real>)

  /** `a * b` on numbers that may be `NaN`. */
  function Times(a: Option<real>, b: Option<real>): Option<real> {
    if a.Some? && b.Some? then Some(a.value * b.value) else None
  }

  /** A detail line: the unit price is `precio_unitario`, else `unit_price`,
      else 0; the quantity defaults to 0; the subtotal is `line_total` unless
      that is falsy (0 included), in which case it is price times quantity. */
  function DetailOf(it: DetailItem): (d: DetailLine)
    ensures Truthy(it.nombre) ==> d.nombre == it.nombre
    ensures !Truthy(it.nombre) ==> d.nombre == Txt("Item sin nombre")
    ensures Truthy(it.precioUnitario) ==> d.unit == it.precioUnitario
    ensures !Truthy(it.precioUnitario) && Truthy(it.unitPrice) ==> d.unit == it.unitPrice
    ensures !Truthy(it.precioUnitario) && !Truthy(it.unitPrice) ==> d.unit == Num(0.0)
    ensures NumberValue(d.qty) == NumberValue(it.qty)
    ensures Truthy(it.lineTotal) ==> d.subtotal == NumberValue(it.lineTotal)
  {
    OrZeroSameNumber(it.qty);
    var unit := Or(Or(it.precioUnitario, it.unitPrice), Num(0.0));
    var qty := Or(it.qty, Num(0.0));
    var subtotal := if Truthy(it.lineTotal) then NumberValue(it.lineTotal)
                    else Times(NumberValue(unit), NumberValue(qty));
    DetailLine(Or(it.nombre, Txt("Item sin nombre")), qty, unit, subtotal)
  }

  /** Without a usable `line_total` (missing, empty or 0) the subtotal is the
      unit price times the quantity; a line with no price at all costs 0. */
  lemma SubtotalFallsBack(it: DetailItem)
    requires !Truthy(it.lineTotal)
    ensures DetailOf(it).subtotal == Times(NumberValue(DetailOf(it).unit), NumberValue(it.qty))
    ensures !Truthy(it.precioUnitario) && !Truthy(it.unitPrice) && NumberValue(it.qty).Some?
            ==> DetailOf(it).subtotal == Some(0.0)
  {
    OrZeroSameNumber(it.qty);
  }
}
