/** The modal that records a payment against one sale bought on credit:
    the amount it proposes, the check on the amount typed, and the payment
    it sends. */
module RegisterPayment {
  import opened Common
  import opened Values
  import Catalog
  import Numbers

  /** The sale the modal is opened for; `outstanding` may be missing. */
  datatype CreditSale = CreditSale(id: int, outstanding: Value)

  /** The body of `POST /api/payments`. */
  datatype Payment = Payment(saleId: int, customerId: Option<int>, amount: real)

  const BadAmount := "Monto inválido"
  const PaymentFailed := "Error al registrar pago"

  /** `String(sale?.outstanding ?? '')`: the amount field starts with the
      outstanding balance written out, or empty when there is none. */
  function InitialAmount(sale: Option<CreditSale>): (s: string)
    ensures sale.None? || sale.value.outstanding.Null? ==> s == ""
    ensures sale.Some? && sale.value.outstanding.Num? ==> s == Numbers.NumText(sale.value.outstanding.n)
    ensures sale.Some? && sale.value.outstanding.Txt? ==> s == sale.value.outstanding.t
  {
    if sale.None? then "" else Display(sale.value.outstanding)
  }

  /** `!amt || amt <= 0` with `amt = Number(amount)`: `NaN`, 0 and
      negative amounts are refused. */
  predicate AmountOk(amount: string) {
    Numbers.NumberOf(amount).Some? && Numbers.NumberOf(amount).value > 0.0
  }

  /** What `handleSubmit` leads to: the payment sent (if any), whether the
      page was told it was saved, and the message shown on refusal or
      failure. */
  datatype Outcome = Outcome(sent: Option<Payment>, saved: bool, error: Option<string>)

  /** `handleSubmit`. `ok` is the outcome of the request and `serverMsg` the
      message of a failed one. */
  function HandleSubmit(sale: CreditSale, customerId: Option<int>, amount: string, ok: bool,
                        serverMsg: Option<string>): (r: Outcome)
    ensures r.sent.Some? <==> AmountOk(amount)
    ensures r.sent.Some? ==> r.sent.value.amount > 0.0
    ensures r.sent.Some? ==> Numbers.NumberOf(amount) == Some(r.sent.value.amount)
    ensures r.sent.Some? ==> r.sent.value.saleId == sale.id && r.sent.value.customerId == customerId
    ensures r.saved <==> AmountOk(amount) && ok
    ensures !AmountOk(amount) ==> r.error == Some(BadAmount)
    ensures AmountOk(amount) && !ok ==> r.error == Some(Catalog.ErrorText(serverMsg, PaymentFailed))
    ensures r.saved ==> r.error.None?
  {
    var amt := Numbers.NumberOf(amount);
    if amt.None? || amt.value == 0.0 || amt.value <= 0.0 then Outcome(None, false, Some(BadAmount))
    else
      var p := Payment(sale.id, customerId, amt.value);
      if ok then Outcome(Some(p), true, None)
      else Outcome(Some(p), false, Some(Catalog.ErrorText(serverMsg, PaymentFailed)))
  }

  /** Accepting the proposed amount pays off the whole balance: a positive
      outstanding amount (with at most six decimals) is sent back exactly,
      while a sale with nothing outstanding, or with no figure at all, sends
      nothing. */
  lemma ProposedAmountPaysBalance(sale: CreditSale, customerId: Option<int>, ok: bool, serverMsg: Option<string>)
    requires sale.outstanding.Num? ==> Numbers.SixDecimals(sale.outstanding.n)
    ensures sale.outstanding.Num? && sale.outstanding.n > 0.0 ==>
      HandleSubmit(sale, customerId, InitialAmount(Some(sale)), ok, serverMsg).sent
        == Some(Payment(sale.id, customerId, sale.outstanding.n))
    ensures sale.outstanding.Null? || sale.outstanding == Num(0.0) ==>
      HandleSubmit(sale, customerId, InitialAmount(Some(sale)), ok, serverMsg).sent.None?
  {
    if sale.outstanding.Num? {
      Numbers.NumberOfNumText(sale.outstanding.n);
    }
    if sale.outstanding.Null? {
      assert Numbers.NumberOf("") == Some(0.0);
    }
  }
}
