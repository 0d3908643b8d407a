/** The product detail modal of the warehouse page: the edit form built from
    a product, the checks run before saving, the update request it sends, the
    close guard and the outcome of a delete. */
module ProductModal {
  import opened Common
  import opened Catalog
  import Text
  import Numbers

  /** The form fields, all text as typed into the inputs. */
  datatype Form = Form(
    nombre: string,
    marca: string,
    descripcion: string,
    precio: string,
    imagen: string,
    vencimiento: string,
    stock: string)

  /** The body of `PUT /api/products/:id`. */
  datatype Payload = Payload(
    nombre: string,
    marca: string,
    descripcion: string,
    precio: Option<real>,
    imagen: string,
    vencimiento: Option<string>,
    stock: Option<int>)

  /** What pressing "Guardar cambios" does: stop with a message, or send an update. */
  datatype SaveStep = Rejected(error: string) | Update(productId: int, body: Payload)

  /** The form a product opens with: missing text becomes `''`, numbers are
      written with `String`, missing numbers become `''`. */
  function InitForm(p: Product, toInputDate: string -> string): (f: Form)
    ensures f.nombre == OrEmpty(p.nombre) && f.marca == OrEmpty(p.marca)
    ensures f.descripcion == OrEmpty(p.descripcion) && f.imagen == OrEmpty(p.imagen)
    ensures p.precio.None? <==> f.precio == ""
    ensures p.stock.None? <==> f.stock == ""
    ensures f.vencimiento == InputDate(p.vencimiento, toInputDate)
  {
    Form(
      OrEmpty(p.nombre),
      OrEmpty(p.marca),
      OrEmpty(p.descripcion),
      if p.precio.Some? then Numbers.NumText(p.precio.value) else "",
      OrEmpty(p.imagen),
      InputDate(p.vencimiento, toInputDate),
      if p.stock.Some? then Numbers.NumText(p.stock.value) else "")
  }

  const NameRequired := "El nombre es requerido"
  const BadPrice := "Precio inválido"
  const BadStock := "Stock inválido"

  /** `Number(s)` is not `NaN`. */
  predicate Numeric(s: string) {
    Numbers.NumberOf(s).Some?
  }

  /** `Number.isInteger(Number(s)) && Number(s) >= 0`. */
  predicate WholeCount(s: string) {
    Numbers.NumberOf(s).Some? && Numbers.IsIntegral(Numbers.NumberOf(s).value)
    && Numbers.NumberOf(s).value >= 0.0
  }

  /** The checks of `handleSave`, first failure wins. */
  function Validate(f: Form): (r: Option<string>)
    ensures r == Some(NameRequired) <==> Text.Blank(f.nombre)
    ensures r == Some(BadPrice) <==> !Text.Blank(f.nombre) && f.precio != "" && !Numeric(f.precio)
    ensures r == Some(BadStock) <==>
              !Text.Blank(f.nombre) && (f.precio == "" || Numeric(f.precio))
              && f.stock != "" && !WholeCount(f.stock)
    ensures r.None? <==>
              !Text.Blank(f.nombre) && (f.precio == "" || Numeric(f.precio))
              && (f.stock == "" || WholeCount(f.stock))
  {
    if Text.Blank(f.nombre) then Some(NameRequired)
    else if f.precio != "" && !Numeric(f.precio) then Some(BadPrice)
    else if f.stock != "" && !WholeCount(f.stock) then Some(BadStock)
    else None
  }

  /** The request body: empty number fields and an empty date become `null`,
      the rest is passed through as typed. */
  function PayloadOf(f: Form): (b: Payload)
    ensures b.nombre == f.nombre && b.marca == f.marca
    ensures b.descripcion == f.descripcion && b.imagen == f.imagen
    ensures f.precio == "" ==> b.precio.None?
    ensures f.stock == "" ==> b.stock.None?
    ensures f.precio != "" ==> b.precio == Numbers.ParseFloat(f.precio)
    ensures f.stock != "" ==> b.stock == Numbers.ParseInt(f.stock)
    ensures b.vencimiento.None? <==> f.vencimiento == ""
    ensures b.vencimiento.Some? ==> b.vencimiento.value == f.vencimiento
  {
    Payload(
      f.nombre, f.marca, f.descripcion,
      if f.precio == "" then None else Numbers.ParseFloat(f.precio),
      f.imagen,
      if f.vencimiento == "" then None else Some(f.vencimiento),
      if f.stock == "" then None else Numbers.ParseInt(f.stock))
  }

  /** `handleSave`: a rejected form sends nothing; an accepted one sends the
      payload to the product's own address. */
  function HandleSave(productId: int, f: Form): (s: SaveStep)
    ensures s.Rejected? <==> Validate(f).Some?
    ensures s.Rejected? ==> s.error == Validate(f).value
    ensures s.Update? ==> s.productId == productId && s.body == PayloadOf(f)
  {
    match Validate(f)
    case Some(msg) => Rejected(msg)
    case None => Update(productId, PayloadOf(f))
  }

  /** A product opened and saved untouched goes through validation and comes
      back with the same price and stock, provided its price has at most six
      decimals, its stock is a whole non-negative number and it has a name. */
  lemma InitSaveRoundTrip(p: Product, toInputDate: string -> string)
    requires !Text.Blank(OrEmpty(p.nombre))
    requires p.precio.Some? ==> Numbers.SixDecimals(p.precio.value)
    requires p.stock.Some? ==> Numbers.IsIntegral(p.stock.value) && p.stock.value >= 0.0
    ensures Validate(InitForm(p, toInputDate)).None?
    ensures PayloadOf(InitForm(p, toInputDate)).precio == p.precio
    ensures PayloadOf(InitForm(p, toInputDate)).stock.Some? <==> p.stock.Some?
    ensures p.stock.Some? ==> PayloadOf(InitForm(p, toInputDate)).stock.value as real == p.stock.value
  {
    var f := InitForm(p, toInputDate);
    PriceRoundTrip(p.precio, f.precio);
    StockRoundTrip(p.stock, f.stock);
  }

  lemma PriceRoundTrip(x: Option<real>, text: string)
    requires x.Some? ==> Numbers.SixDecimals(x.value)
    requires text == if x.Some? then Numbers.NumText(x.value) else ""
    ensures text == "" || Numeric(text)
    ensures (if text == "" then None else Numbers.ParseFloat(text)) == x
  {
    if x.Some? {
      Numbers.NumberOfNumText(x.value);
    }
  }

  lemma StockRoundTrip(x: Option<real>, text: string)
    requires x.Some? ==> Numbers.IsIntegral(x.value) && x.value >= 0.0
    requires text == if x.Some? then Numbers.NumText(x.value) else ""
    ensures text == "" || WholeCount(text)
    ensures text == "" <==> x.None?
    ensures x.Some? ==> Numbers.ParseInt(text) == Some(x.value.Floor)
  {
    if x.Some? {
      Numbers.IntegralNumText(x.value);
      Numbers.NumberOfIntText(x.value.Floor);
    }
  }

  /** A stock with a fraction, once written into the form, blocks saving. */
  lemma FractionalStockRejected(p: Product, toInputDate: string -> string)
    requires !Text.Blank(OrEmpty(p.nombre))
    requires p.precio.None?
    requires p.stock.Some? && Numbers.SixDecimals(p.stock.value)
    requires !Numbers.IsIntegral(p.stock.value)
    ensures HandleSave(p.id, InitForm(p, toInputDate)) == Rejected(BadStock)
  {
    Numbers.NumberOfNumText(p.stock.value);
  }

  /** `handleClose`: ignored while a save or a delete is in flight. */
  function HandleClose(saving: bool, deleting: bool): (closes: bool)
    ensures closes <==> !saving && !deleting
  {
    !(saving || deleting)
  }

  const UpdateFailed := "Error al actualizar"
  const DeleteFailed := "Error al eliminar"

  /** What is left after a save or a delete request: whether the modal
      closed, the error it shows, and whether the page's callback
      (`onSaved` / `onDeleted`) completed. */
  datatype ModalOutcome = ModalOutcome(closed: bool, error: Option<string>, notified: bool)

  /** The end of `handleSave` once the update was sent: success hands the
      server's product to the page and closes the modal; failure keeps the
      modal open with the server's message or "Error al actualizar". */
  function AfterSave(requestOk: bool, serverMsg: Option<string>): (o: ModalOutcome)
    ensures o.closed <==> requestOk
    ensures o.notified <==> requestOk
    ensures o.closed <==> o.error.None?
    ensures !requestOk ==> o.error == Some(ErrorText(serverMsg, UpdateFailed))
  {
    if requestOk then ModalOutcome(true, None, true)
    else ModalOutcome(false, Some(ErrorText(serverMsg, UpdateFailed)), false)
  }

  /** `handleDelete`. `requestOk` is the outcome of the delete request and
      `serverMsg` the message of a failed one; `callbackThrows` says whether
      the page's `onDeleted` throws. A throw lands in the same `catch` as a
      failed request, and carries no server response. */
  function HandleDelete(requestOk: bool, serverMsg: Option<string>, callbackThrows: bool): (o: ModalOutcome)
    ensures o.closed <==> requestOk && !callbackThrows
    ensures o.notified <==> requestOk && !callbackThrows
    ensures o.closed <==> o.error.None?
    ensures !requestOk ==> o.error == Some(ErrorText(serverMsg, DeleteFailed))
    ensures requestOk && callbackThrows ==> o.error == Some(DeleteFailed)
  {
    if !requestOk then ModalOutcome(false, Some(ErrorText(serverMsg, DeleteFailed)), false)
    else if callbackThrows then ModalOutcome(false, Some(ErrorText(None, DeleteFailed)), false)
    else ModalOutcome(true, None, true)
  }
}
