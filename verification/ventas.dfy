/** The point-of-sale page: the cart of product and service lines, its
    totals, the customer / "on credit" coupling, the checks before a sale is
    sent and the body of the sale request, and the list of items offered. */
module Ventas {
  import opened Common
  import Text
  import Numbers

  datatype Kind = ProductKind | ServiceKind

  /** The `stock` property of a catalogue item: services have none at all;
      products carry one, possibly `null`. */
  datatype StockField = NoStockField | StockValue(value: Option<real>)

  /** An item offered for sale, as the catalogue endpoints return it. */
  datatype Item = Item(id: int, nombre: string, precio: Option<real>, stock: StockField)

  /** How many units a line may reach: `Infinity` for services. */
  datatype Limit = Unlimited | Finite(n: real)

  /** A cart line. */
  datatype Line = Line(key: string, id: int, kind: Kind, nombre: string, precio: real, qty: real, limit: Limit)

  function KindOf(item: Item): Kind {
    if item.stock.StockValue? then ProductKind else ServiceKind
  }

  /** `Number(item.stock || 0)` for products, `Infinity` for services: a
      product's limit is its stock, and a `null` stock allows nothing. */
  function LimitOf(item: Item): (l: Limit)
    ensures l.Unlimited? <==> KindOf(item) == ServiceKind
    ensures item.stock.StockValue? && item.stock.value.Some? ==> l == Finite(item.stock.value.value)
    ensures item.stock == StockValue(None) ==> l == Finite(0.0)
  {
    match item.stock
    case NoStockField => Unlimited
    case StockValue(v) => Finite(v.GetOr(0.0))
  }

  /** The cart key `p-<id>` / `s-<id>`. */
  function LineKey(kind: Kind, id: int): string {
    (if kind == ProductKind then "p-" else "s-") + Numbers.IntText(id)
  }

  /** Keys tell lines apart: a key determines the kind and the id. */
  lemma LineKeyInjective(k1: Kind, id1: int, k2: Kind, id2: int)
    requires LineKey(k1, id1) == LineKey(k2, id2)
    ensures k1 == k2 && id1 == id2
  {
    var a, b := LineKey(k1, id1), LineKey(k2, id2);
    assert a[0] == b[0];
    assert a[2..] == Numbers.IntText(id1) && b[2..] == Numbers.IntText(id2);
    Numbers.IntTextInjective(id1, id2);
  }

  function Keys(cart: seq<Line>): seq<string> {
    seq(|cart|, i requires 0 <= i < |cart| => cart[i].key)
  }

  predicate HasKey(cart: seq<Line>, key: string) {
    exists i :: 0 <= i < |cart| && cart[i].key == key
  }

  /** No two lines share a key. */
  predicate UniqueKeys(cart: seq<Line>) {
    forall i, j :: 0 <= i < j < |cart| ==> cart[i].key != cart[j].key
  }

  /** `prev.find(i => i.key === key)`, as an index. */
  function FindKey(cart: seq<Line>, key: string): (k: nat)
    requires HasKey(cart, key)
    ensures k < |cart| && cart[k].key == key
    ensures forall i :: 0 <= i < k ==> cart[i].key != key
  {
    if cart[0].key == key then 0
    else
      assert HasKey(cart[1..], key) by {
        var i :| 0 <= i < |cart| && cart[i].key == key;
        assert cart[1..][i - 1].key == key;
      }
      1 + FindKey(cart[1..], key)
  }

  /** `Math.min(q, stock)`, where `Infinity` never clamps. */
  function Clamp(q: real, l: Limit): (r: real)
    ensures l.Unlimited? ==> r == q
    ensures l.Finite? ==> r <= q && r <= l.n && (r == q || r == l.n)
  {
    match l
    case Unlimited => q
    case Finite(n) => if q <= n then q else n
  }

  /** The line a first `addToCart` of `item` appends. */
  function NewLine(item: Item, qty: real): (line: Line)
    ensures line.key == LineKey(KindOf(item), item.id) && line.id == item.id
    ensures line.precio == item.precio.GetOr(0.0) && line.qty == qty && line.limit == LimitOf(item)
  {
    Line(LineKey(KindOf(item), item.id), item.id, KindOf(item), item.nombre,
         item.precio.GetOr(0.0), qty, LimitOf(item))
  }

  /** `addToCart(item, qty)`. A product with no positive stock is refused.
      Otherwise a line with the same key has its quantity raised, clamped
      to the stock; a new key appends a line with the quantity as given. */
  function AddToCart(cart: seq<Line>, item: Item, qty: real): (r: seq<Line>)
    ensures LimitOf(item).Finite? && LimitOf(item).n <= 0.0 ==> r == cart
    ensures !(LimitOf(item).Finite? && LimitOf(item).n <= 0.0) && HasKey(cart, LineKey(KindOf(item), item.id)) ==>
              var key := LineKey(KindOf(item), item.id);
              var merged := Clamp(cart[FindKey(cart, key)].qty + qty, LimitOf(item));
              |r| == |cart|
              && forall i :: 0 <= i < |r| ==>
                   r[i] == if cart[i].key == key then cart[i].(qty := merged) else cart[i]
    ensures !(LimitOf(item).Finite? && LimitOf(item).n <= 0.0) && !HasKey(cart, LineKey(KindOf(item), item.id)) ==>
              r == cart + [NewLine(item, qty)]
  {
    var limit := LimitOf(item);
    if limit.Finite? && limit.n <= 0.0 then cart
    else
      var key := LineKey(KindOf(item), item.id);
      if HasKey(cart, key) then
        var merged := Clamp(cart[FindKey(cart, key)].qty + qty, limit);
        SetQty(cart, key, merged)
      else cart + [NewLine(item, qty)]
  }

  /** Every line with `key` gets quantity `q`; the others stay as they are. */
  function SetQty(cart: seq<Line>, key: string, q: real): (r: seq<Line>)
    ensures |r| == |cart| && Keys(r) == Keys(cart)
    ensures forall i :: 0 <= i < |r| ==> r[i] == if cart[i].key == key then cart[i].(qty := q) else cart[i]
  {
    seq(|cart|, i requires 0 <= i < |cart| => if cart[i].key == key then cart[i].(qty := q) else cart[i])
  }

  /** `updateCartQty(key, value)`: `value` is what the number input holds,
      `None` when it is empty. The quantity becomes `max(1, value)`, or 1
      for an empty input, with no stock check. */
  function UpdateCartQty(cart: seq<Line>, key: string, value: Option<real>): (r: seq<Line>)
    ensures |r| == |cart| && Keys(r) == Keys(cart)
    ensures forall i :: 0 <= i < |r| && cart[i].key != key ==> r[i] == cart[i]
    ensures forall i :: 0 <= i < |r| && cart[i].key == key ==>
              r[i] == cart[i].(qty := r[i].qty) && r[i].qty >= 1.0
              && (value.None? ==> r[i].qty == 1.0)
              && (value.Some? ==> r[i].qty == if value.value >= 1.0 then value.value else 1.0)
  {
    var n := value.GetOr(1.0);
    SetQty(cart, key, if n >= 1.0 then n else 1.0)
  }

  /** `removeFromCart(key)`. */
  function RemoveFromCart(cart: seq<Line>, key: string): (r: seq<Line>)
    ensures SubseqOf(r, cart)
    ensures forall line :: line in r <==> line in cart && line.key != key
    ensures !HasKey(cart, key) ==> r == cart
  {
    Filter(KeyOtherThan(key), cart)
  }

  function KeyOtherThan(key: string): Line -> bool {
    (line: Line) => line.key != key
  }

  function LineAmount(line: Line): real {
    line.precio * line.qty
  }

  function LineQty(line: Line): real {
    line.qty
  }

  /** `subtotal`: the sum of price times quantity over the lines. */
  function Subtotal(cart: seq<Line>): real {
    Sum(LineAmount, cart)
  }

  /** `itemsCount`: the sum of the quantities. */
  function ItemsCount(cart: seq<Line>): real {
    Sum(LineQty, cart)
  }

  /** Adding never breaks the one-line-per-key invariant. */
  lemma AddKeepsUniqueKeys(cart: seq<Line>, item: Item, qty: real)
    requires UniqueKeys(cart)
    ensures UniqueKeys(AddToCart(cart, item, qty))
  {
    var r := AddToCart(cart, item, qty);
    var key := LineKey(KindOf(item), item.id);
    if !(LimitOf(item).Finite? && LimitOf(item).n <= 0.0) && !HasKey(cart, key) {
      forall i, j | 0 <= i < j < |r| ensures r[i].key != r[j].key {
        if j == |cart| {
          assert r[i] == cart[i];
        }
      }
    } else {
      forall i, j | 0 <= i < j < |r| ensures r[i].key != r[j].key {
        assert r[i].key == cart[i].key && r[j].key == cart[j].key;
      }
    }
  }

  /** Adding a new item grows the totals by exactly the new line. */
  lemma AddNewLineTotals(cart: seq<Line>, item: Item, qty: real)
    requires !(LimitOf(item).Finite? && LimitOf(item).n <= 0.0)
    requires !HasKey(cart, LineKey(KindOf(item), item.id))
    ensures ItemsCount(AddToCart(cart, item, qty)) == ItemsCount(cart) + qty
    ensures Subtotal(AddToCart(cart, item, qty)) == Subtotal(cart) + item.precio.GetOr(0.0) * qty
  {
    var r := AddToCart(cart, item, qty);
    assert r[..|r| - 1] == cart;
  }

  /** Setting the quantity of the one line with `key` moves the totals by
      that line's change alone. */
  lemma SetQtyTotals(cart: seq<Line>, key: string, q: real)
    requires UniqueKeys(cart) && HasKey(cart, key)
    ensures var k := FindKey(cart, key);
            ItemsCount(SetQty(cart, key, q)) == ItemsCount(cart) - cart[k].qty + q
            && Subtotal(SetQty(cart, key, q)) == Subtotal(cart) - cart[k].precio * cart[k].qty + cart[k].precio * q
  {
    var k := FindKey(cart, key);
    SetQtyIsUpdate(cart, key, q);
    UpdateQtyTotals(cart, k, q);
  }

  /** Changing the quantity of line `k` moves the totals by that line's change. */
  lemma UpdateQtyTotals(cart: seq<Line>, k: nat, q: real)
    requires k < |cart|
    ensures var r := cart[k := cart[k].(qty := q)];
            ItemsCount(r) == ItemsCount(cart) - cart[k].qty + q
            && Subtotal(r) == Subtotal(cart) - cart[k].precio * cart[k].qty + cart[k].precio * q
  {
    var line := cart[k].(qty := q);
    SumUpdate(LineQty, cart, k, line);
    SumUpdate(LineAmount, cart, k, line);
    assert LineAmount(cart[k]) == cart[k].precio * cart[k].qty;
    assert LineAmount(line) == cart[k].precio * q;
  }

  /** With unique keys, `SetQty` changes the one line with `key`. */
  lemma SetQtyIsUpdate(cart: seq<Line>, key: string, q: real)
    requires UniqueKeys(cart) && HasKey(cart, key)
    ensures var k := FindKey(cart, key);
            SetQty(cart, key, q) == cart[k := cart[k].(qty := q)]
  {
    var k := FindKey(cart, key);
    var r := SetQty(cart, key, q);
    forall i | 0 <= i < |cart| ensures r[i] == cart[k := cart[k].(qty := q)][i] {
      if i != k {
        assert cart[i].key != cart[k].key;
      }
    }
  }

  /** Merging into an existing service line never clamps: the quantities
      simply add up, and so does the count. */
  lemma AddServiceNeverClamped(cart: seq<Line>, item: Item, qty: real)
    requires KindOf(item) == ServiceKind
    requires UniqueKeys(cart) && HasKey(cart, LineKey(ServiceKind, item.id))
    ensures var key := LineKey(ServiceKind, item.id);
            var r := AddToCart(cart, item, qty);
            r[FindKey(cart, key)].qty == cart[FindKey(cart, key)].qty + qty
            && ItemsCount(r) == ItemsCount(cart) + qty
  {
    var key := LineKey(ServiceKind, item.id);
    var k := FindKey(cart, key);
    SetQtyTotals(cart, key, cart[k].qty + qty);
  }

  /** A merged product line never exceeds the product's stock. */
  lemma AddProductClamped(cart: seq<Line>, item: Item, qty: real)
    requires KindOf(item) == ProductKind && LimitOf(item).n > 0.0
    requires HasKey(cart, LineKey(ProductKind, item.id))
    ensures var key := LineKey(ProductKind, item.id);
            var r := AddToCart(cart, item, qty);
            r[FindKey(cart, key)].qty <= LimitOf(item).n
  {
  }

  /** Removing the one line with `key` takes exactly its amount and
      quantity off the totals. */
  lemma RemoveTotals(cart: seq<Line>, key: string)
    requires UniqueKeys(cart) && HasKey(cart, key)
    ensures var k := FindKey(cart, key);
            ItemsCount(RemoveFromCart(cart, key)) == ItemsCount(cart) - cart[k].qty
            && Subtotal(RemoveFromCart(cart, key)) == Subtotal(cart) - LineAmount(cart[k])
  {
    var k := FindKey(cart, key);
    var p := KeyOtherThan(key);
    assert forall i :: 0 <= i < |cart| && i != k ==> p(cart[i]) by {
      forall i | 0 <= i < |cart| && i != k ensures p(cart[i]) {
        assert cart[i].key != cart[k].key by {
          if i < k {} else {}
        }
      }
    }
    FilterDropOne(p, cart, k);
    assert RemoveFromCart(cart, key) == cart[..k] + cart[k + 1..];
    SumDropOne(LineQty, cart, k);
    SumDropOne(LineAmount, cart, k);
  }

  /** The checkout state of the page. */
  datatype Pos = Pos(cart: seq<Line>, q: string, onCredit: bool, customerId: Option<string>)

  /** `handleCustomerChange`: choosing a customer turns "on credit" on,
      choosing the empty option turns it off. */
  function CustomerChange(s: Pos, value: string): (r: Pos)
    ensures r.cart == s.cart && r.q == s.q
    ensures r.onCredit <==> value != ""
    ensures r.customerId.Some? <==> value != ""
    ensures r.customerId.Some? ==> r.customerId.value == value
  {
    s.(customerId := if value == "" then None else Some(value), onCredit := value != "")
  }

  /** The "Anotar a cuenta" checkbox. */
  function SetOnCredit(s: Pos, checked: bool): (r: Pos)
    ensures r == s.(onCredit := checked)
  {
    s.(onCredit := checked)
  }

  /** The customer reference sent with a sale: a number when the selected
      value reads as one, the raw text otherwise. */
  datatype CustomerRef = NullRef | NumRef(n: real) | TextRef(t: string)

  datatype PayloadLine = PayloadLine(id: int, qty: real, precio: real, kind: Kind)

  /** The body of `POST /api/sales`. */
  datatype SaleBody = SaleBody(cart: seq<PayloadLine>, customerId: CustomerRef, onCredit: bool, paidAmount: real)

  datatype SaleStep = EmptyCart | NeedCustomer | Declined | Send(body: SaleBody)

  function PayloadLines(cart: seq<Line>): (r: seq<PayloadLine>)
    ensures |r| == |cart|
    ensures forall i :: 0 <= i < |r| ==>
              r[i] == PayloadLine(cart[i].id, cart[i].qty, cart[i].precio, cart[i].kind)
  {
    seq(|cart|, i requires 0 <= i < |cart| => PayloadLine(cart[i].id, cart[i].qty, cart[i].precio, cart[i].kind))
  }

  /** `isNaN(Number(c)) ? c : Number(c)`. */
  function CustomerRefOf(c: string): (r: CustomerRef)
    ensures r.NumRef? <==> Numbers.NumberOf(c).Some?
    ensures r.NumRef? ==> r.n == Numbers.NumberOf(c).value
    ensures r.TextRef? ==> r.t == c
    ensures !r.NullRef?
  {
    match Numbers.NumberOf(c)
    case Some(v) => NumRef(v)
    case None => TextRef(c)
  }

  /** `confirmSale` up to the request: an empty cart, or "on credit" with no
      customer, stops before asking; a declined confirmation stops after. */
  function ConfirmSale(s: Pos, confirmed: bool): (st: SaleStep)
    ensures st == EmptyCart <==> |s.cart| == 0
    ensures st == NeedCustomer <==> |s.cart| > 0 && s.onCredit && OrEmptyId(s.customerId) == ""
    ensures st == Declined <==>
              |s.cart| > 0 && !(s.onCredit && OrEmptyId(s.customerId) == "") && !confirmed
    ensures st.Send? ==>
              st.body.cart == PayloadLines(s.cart)
              && st.body.onCredit == s.onCredit
              && (s.onCredit ==> st.body.paidAmount == 0.0
                                 && st.body.customerId == CustomerRefOf(s.customerId.value))
              && (!s.onCredit ==> st.body.paidAmount == Subtotal(s.cart) && st.body.customerId == NullRef)
  {
    if |s.cart| == 0 then EmptyCart
    else if s.onCredit && OrEmptyId(s.customerId) == "" then NeedCustomer
    else if !confirmed then Declined
    else
      Send(SaleBody(
        PayloadLines(s.cart),
        if s.onCredit then CustomerRefOf(s.customerId.value) else NullRef,
        s.onCredit,
        if s.onCredit then 0.0 else Subtotal(s.cart)))
  }

  function OrEmptyId(c: Option<string>): string {
    c.GetOr("")
  }

  /** The state after the sale request: success clears the cart, the search,
      the credit flag and the customer; failure leaves everything as it was. */
  function AfterSale(s: Pos, ok: bool): (r: Pos)
    ensures ok ==> r == Pos([], "", false, None)
    ensures !ok ==> r == s
  {
    if ok then Pos([], "", false, None) else s
  }

  /** The sale body sent when the customer was just chosen from the
      selector: it goes on credit, pays nothing now, and names the customer. */
  lemma ChosenCustomerGoesOnCredit(s: Pos, value: string)
    requires |s.cart| > 0 && value != ""
    ensures var st := ConfirmSale(CustomerChange(s, value), true);
            st.Send? && st.body.onCredit && st.body.paidAmount == 0.0
            && st.body.customerId == CustomerRefOf(value)
  {
  }

  /** A cash sale pays the whole subtotal, and the amount paid equals the sum
      of the amounts of the lines it sends. */
  lemma CashSalePaysSubtotal(s: Pos)
    requires |s.cart| > 0 && !s.onCredit
    ensures var st := ConfirmSale(s, true);
            st.Send? && st.body.paidAmount == Sum((l: PayloadLine) => l.precio * l.qty, st.body.cart)
  {
    var body := ConfirmSale(s, true).body;
    SumPointwise(LineAmount, s.cart, (l: PayloadLine) => l.precio * l.qty, body.cart);
  }

  /** Which items the grid shows when the search box is empty. */
  datatype Mode = ProductMode | ServiceMode | BothMode

  /** Which endpoints the live search asks. */
  datatype SearchMode = SearchProducts | SearchServices | SearchBoth

  function Tag<T>(items: seq<T>, k: Kind): (r: seq<(T, Kind)>)
    ensures |r| == |items|
    ensures forall i :: 0 <= i < |r| ==> r[i] == (items[i], k)
  {
    seq(|items|, i requires 0 <= i < |items| => (items[i], k))
  }

  /** `listItems`: with a blank query the top items of the chosen mode, else
      the search results of the chosen search mode; products come first. */
  function ListItems<T>(q: string, mode: Mode, searchMode: SearchMode,
                        topProducts: seq<T>, topServices: seq<T>,
                        foundProducts: seq<T>, foundServices: seq<T>): (r: seq<(T, Kind)>)
    ensures Text.Blank(q) ==>
              r == (if mode == ServiceMode then [] else Tag(topProducts, ProductKind))
                   + (if mode == ProductMode then [] else Tag(topServices, ServiceKind))
    ensures !Text.Blank(q) ==>
              r == (if searchMode == SearchServices then [] else Tag(foundProducts, ProductKind))
                   + (if searchMode == SearchProducts then [] else Tag(foundServices, ServiceKind))
  {
    var ps := if Text.Blank(q) then topProducts else foundProducts;
    var ss := if Text.Blank(q) then topServices else foundServices;
    var wantP := if Text.Blank(q) then mode != ServiceMode else searchMode != SearchServices;
    var wantS := if Text.Blank(q) then mode != ProductMode else searchMode != SearchProducts;
    (if wantP then Tag(ps, ProductKind) else []) + (if wantS then Tag(ss, ServiceKind) else [])
  }

  /** Every product entry of the list comes before every service entry. */
  lemma ListItemsProductsFirst<T>(q: string, mode: Mode, searchMode: SearchMode,
                                  tp: seq<T>, ts: seq<T>, fp: seq<T>, fs: seq<T>)
    ensures var r := ListItems(q, mode, searchMode, tp, ts, fp, fs);
            forall i, j :: 0 <= i < j < |r| && r[j].1 == ProductKind ==> r[i].1 == ProductKind
  {
  }
}
