/** The product administration page: the brand and product pickers fed
    from a cached product list and the selected category group, the resets
    when the category changes, the prefill from a picked product, and the
    validation, payload and request of "save", with the reset that follows
    a successful save. */
module Admin {
  import opened Common
  import opened Catalog
  import Text
  import Numbers

  /** The form fields, as text (the prefill writes numbers with `String`). */
  datatype Form = Form(
    categoria: string,
    marca: string,
    productoId: string,
    nombre: string,
    descripcion: string,
    precio: string,
    imagen: string,
    vencimiento: string,
    stock: string,
    cost: string)

  /** The page state: the form, the brand and product pickers, and the cache
      of every product. */
  datatype State = State(form: Form, marcas: seq<string>, productos: seq<Product>, cache: seq<Product>)

  /** `categorias[0]`. */
  function FirstGroup(): string {
    Groups[0].0
  }

  /** The form the page starts from and returns to after a save. */
  function DefaultForm(): Form {
    Form(FirstGroup(), "", "", "", "", "", "", "", "", "")
  }

  /** `CATEGORIES_GROUPS[categoria] || []`. */
  function Allowed(categoria: string): seq<string> {
    SubsOf(categoria).GetOr([])
  }

  /** `allowed.includes(p.categoria)`. */
  predicate InGroup(categoria: string, p: Product) {
    p.categoria.Some? && p.categoria.value in Allowed(categoria)
  }

  function BrandColumn(ps: seq<Product>): (r: seq<string>)
    ensures |r| == |ps|
    ensures forall i :: 0 <= i < |r| ==> r[i] == OrEmpty(ps[i].marca)
  {
    seq(|ps|, i requires 0 <= i < |ps| => OrEmpty(ps[i].marca))
  }

  /** The brands offered for a category group: each non-empty `marca` of a
      cached product of the group, once, in the order of first appearance
      among the group's products. */
  function Brands(cache: seq<Product>, categoria: string): (r: seq<string>)
    ensures NoDup(r)
    ensures forall b :: b in r <==>
      b != "" && exists p :: p in cache && InGroup(categoria, p) && p.marca == Some(b)
    ensures forall b :: b in r ==> b in GroupBrandColumn(cache, categoria)
    ensures forall i, j :: 0 <= i < j < |r| ==>
      FirstIndex(GroupBrandColumn(cache, categoria), r[i]) < FirstIndex(GroupBrandColumn(cache, categoria), r[j])
  {
    GroupBrandMember(cache, categoria);
    DistinctFilled(GroupBrandColumn(cache, categoria))
  }

  /** The `marca` column of the group's products, in cache order. */
  function GroupBrandColumn(cache: seq<Product>, categoria: string): seq<string> {
    BrandColumn(Filter((p: Product) => InGroup(categoria, p), cache))
  }

  lemma GroupBrandMember(cache: seq<Product>, categoria: string)
    ensures forall b :: b in GroupBrandColumn(cache, categoria) && b != "" <==>
      b != "" && exists p :: p in cache && InGroup(categoria, p) && p.marca == Some(b)
  {
    var inGroup := Filter((p: Product) => InGroup(categoria, p), cache);
    forall b ensures b in GroupBrandColumn(cache, categoria) && b != "" <==>
      b != "" && exists p :: p in cache && InGroup(categoria, p) && p.marca == Some(b)
    {
      BrandColumnMember(inGroup, b);
    }
  }

  lemma BrandColumnMember(ps: seq<Product>, b: string)
    ensures b != "" ==> (b in BrandColumn(ps) <==> exists p :: p in ps && p.marca == Some(b))
  {
    var col := BrandColumn(ps);
    if b != "" {
      if b in col {
        var i :| 0 <= i < |col| && col[i] == b;
        assert ps[i].marca == Some(b);
      }
      if exists p :: p in ps && p.marca == Some(b) {
        var p :| p in ps && p.marca == Some(b);
        var i :| 0 <= i < |ps| && ps[i] == p;
        assert col[i] == b;
      }
    }
  }

  /** The products offered for a brand: the cached products of the group
      whose `marca` is exactly that brand, in cache order. */
  function ProductsOf(cache: seq<Product>, categoria: string, marca: string): (r: seq<Product>)
    ensures SubseqOf(r, cache)
    ensures forall p :: multiset(r)[p] == if InGroup(categoria, p) && p.marca == Some(marca)
                                           then multiset(cache)[p] else 0
    ensures forall p :: p in r <==> p in cache && InGroup(categoria, p) && p.marca == Some(marca)
  {
    Filter((p: Product) => InGroup(categoria, p) && p.marca == Some(marca), cache)
  }

  /** The two pickers agree: a non-empty brand is offered exactly when it
      has products to offer. */
  lemma BrandOfferedIffProducts(cache: seq<Product>, categoria: string, marca: string)
    requires marca != ""
    ensures marca in Brands(cache, categoria) <==> |ProductsOf(cache, categoria, marca)| > 0
  {
    var r := ProductsOf(cache, categoria, marca);
    if marca in Brands(cache, categoria) {
      var p :| p in cache && InGroup(categoria, p) && p.marca == Some(marca);
      assert p in r;
    }
    if |r| > 0 {
      assert r[0] in r;
    }
  }

  /** The category effect: brands recomputed for the group, every field that
      depends on the category cleared, and the product picker emptied. */
  function CategoryEffect(st: State): (r: State)
    ensures r.form == Form(st.form.categoria, "", "", "", "", "", "", "", "", "")
    ensures r.marcas == Brands(st.cache, st.form.categoria)
    ensures r.productos == [] && r.cache == st.cache
  {
    State(Form(st.form.categoria, "", "", "", "", "", "", "", "", ""),
          Brands(st.cache, st.form.categoria), [], st.cache)
  }

  /** The brand effect: nothing without a brand; otherwise the product picker
      lists the group's products of that brand and the product choice is
      cleared. */
  function ProductEffect(st: State): (r: State)
    ensures st.form.marca == "" ==> r == st
    ensures st.form.marca != "" ==> r.form == st.form.(productoId := "")
    ensures st.form.marca != "" ==> r.productos == ProductsOf(st.cache, st.form.categoria, st.form.marca)
    ensures r.marcas == st.marcas && r.cache == st.cache
  {
    if st.form.marca == "" then st
    else st.(form := st.form.(productoId := ""),
             productos := ProductsOf(st.cache, st.form.categoria, st.form.marca))
  }

  /** Choosing a category. A new category runs both effects in the same
      commit, the category effect first, and both read the form as it was
      rendered: the product effect still sees the old brand, so its list (of
      the new group's products of the old brand) replaces the empty one,
      while the form loses the brand. Choosing the category already selected
      runs no effect. */
  function ChangeCategory(st: State, categoria: string): (r: State)
    ensures categoria == st.form.categoria ==> r == st
    ensures categoria != st.form.categoria ==>
              r.form == Form(categoria, "", "", "", "", "", "", "", "", "")
              && r.marcas == Brands(st.cache, categoria) && r.cache == st.cache
    ensures categoria != st.form.categoria && st.form.marca == "" ==> r.productos == []
    ensures categoria != st.form.categoria && st.form.marca != "" ==>
              r.productos == ProductsOf(st.cache, categoria, st.form.marca)
  {
    if categoria == st.form.categoria then st
    else
      var rendered := st.(form := st.form.(categoria := categoria));
      var cleared := CategoryEffect(rendered);
      if rendered.form.marca == "" then cleared
      else cleared.(productos := ProductEffect(rendered).productos)
  }

  /** The product picker is on screen only for a brand of the offered list. */
  predicate PickerShown(st: State) {
    st.form.marca in st.marcas
  }

  /** After a category change the product picker is hidden and no product is
      chosen, so a list left over from the old brand is never offered. */
  lemma ChangeCategoryHidesPicker(st: State, categoria: string)
    requires categoria != st.form.categoria
    ensures !PickerShown(ChangeCategory(st, categoria))
    ensures ChangeCategory(st, categoria).form.productoId == ""
  {
  }

  /** Choosing a brand after a category change lists exactly that brand's
      products of the new group, whatever was listed before. */
  lemma BrandAfterCategory(st: State, categoria: string, marca: string)
    requires categoria != st.form.categoria && marca != ""
    ensures ChangeBrand(ChangeCategory(st, categoria), marca).productos == ProductsOf(st.cache, categoria, marca)
  {
  }

  /** A second category change forgets the first: the page depends only on
      the last category, and, the brand being gone, the product list is
      empty. */
  lemma ChangeCategoryForgetsEarlier(st: State, c1: string, c2: string)
    requires c1 != st.form.categoria && c2 != c1
    ensures var r := ChangeCategory(ChangeCategory(st, c1), c2);
            r.form == Form(c2, "", "", "", "", "", "", "", "", "") && r.marcas == Brands(st.cache, c2)
            && r.productos == [] && r.cache == st.cache
  {
  }

  /** Choosing a brand runs the brand effect on the new brand: an empty
      choice only updates the field; otherwise the product picker is
      refilled for the brand and the product choice is cleared. Typing that
      leaves the brand as it was runs no effect. */
  function ChangeBrand(st: State, marca: string): (r: State)
    ensures marca == st.form.marca ==> r == st
    ensures r.form.marca == marca && r.cache == st.cache && r.marcas == st.marcas
    ensures marca != st.form.marca && marca == "" ==> r.form == st.form.(marca := "") && r.productos == st.productos
    ensures marca != st.form.marca && marca != "" ==> r.form == st.form.(marca := marca, productoId := "")
    ensures marca != st.form.marca && marca != "" ==> r.productos == ProductsOf(st.cache, st.form.categoria, marca)
  {
    if marca == st.form.marca then st
    else ProductEffect(st.(form := st.form.(marca := marca)))
  }

  /** `productos.find(p => String(p.id) === String(productoId))`: the first
      product with that id. */
  function FindById(ps: seq<Product>, pid: string): (r: Option<Product>)
    ensures r.Some? ==> r.value in ps && Numbers.IntText(r.value.id) == pid
    ensures r.Some? ==> exists i :: 0 <= i < |ps| && ps[i] == r.value
                                    && forall j :: 0 <= j < i ==> Numbers.IntText(ps[j].id) != pid
    ensures r.None? ==> forall i :: 0 <= i < |ps| ==> Numbers.IntText(ps[i].id) != pid
    decreases |ps|
  {
    if |ps| == 0 then None
    else if Numbers.IntText(ps[0].id) == pid then Some(ps[0])
    else
      var r := FindById(ps[1..], pid);
      FindSkipsFirst(ps, pid, r);
      r
  }

  lemma FindSkipsFirst(ps: seq<Product>, pid: string, r: Option<Product>)
    requires |ps| > 0 && Numbers.IntText(ps[0].id) != pid
    requires r.Some? ==> exists i :: 0 <= i < |ps[1..]| && ps[1..][i] == r.value
                                     && forall j :: 0 <= j < i ==> Numbers.IntText(ps[1..][j].id) != pid
    ensures r.Some? ==> exists i :: 0 <= i < |ps| && ps[i] == r.value
                                    && forall j :: 0 <= j < i ==> Numbers.IntText(ps[j].id) != pid
  {
    if r.Some? {
      var i :| 0 <= i < |ps[1..]| && ps[1..][i] == r.value
               && forall j :: 0 <= j < i ==> Numbers.IntText(ps[1..][j].id) != pid;
      forall j | 0 <= j < i + 1 ensures Numbers.IntText(ps[j].id) != pid {
        if j > 0 {
          assert ps[j] == ps[1..][j - 1];
        }
      }
      assert ps[i + 1] == r.value;
    }
  }

  /** `String(x)` of a number that may be `null`, `''` for `null`. */
  function NumberField(x: Option<real>): (s: string)
    ensures x.None? <==> s == ""
  {
    if x.Some? then Numbers.NumText(x.value) else ""
  }

  /** The fields a picked product writes into the form. */
  function Prefilled(f: Form, p: Product, toInputDate: string -> string): (g: Form)
    ensures g.categoria == f.categoria && g.marca == f.marca && g.productoId == f.productoId
    ensures g.nombre == OrEmpty(p.nombre) && g.descripcion == OrEmpty(p.descripcion)
    ensures g.imagen == OrEmpty(p.imagen)
    ensures g.precio == NumberField(p.precio) && g.stock == NumberField(p.stock)
    ensures g.cost == NumberField(p.cost)
    ensures g.vencimiento == InputDate(p.vencimiento, toInputDate)
  {
    f.(nombre := OrEmpty(p.nombre), descripcion := OrEmpty(p.descripcion),
       precio := NumberField(p.precio), imagen := OrEmpty(p.imagen),
       vencimiento := InputDate(p.vencimiento, toInputDate),
       stock := NumberField(p.stock), cost := NumberField(p.cost))
  }

  /** Choosing a product: the id is stored, and when it names a product of
      the picker that product's fields are copied into the form. */
  function PickProduct(st: State, pid: string, toInputDate: string -> string): (r: State)
    ensures r.form.productoId == pid
    ensures r.marcas == st.marcas && r.productos == st.productos && r.cache == st.cache
    ensures pid == "" || FindById(st.productos, pid).None? ==> r.form == st.form.(productoId := pid)
    ensures pid != "" && FindById(st.productos, pid).Some? ==>
      r.form == Prefilled(st.form.(productoId := pid), FindById(st.productos, pid).value, toInputDate)
  {
    var f := st.form.(productoId := pid);
    if pid == "" then st.(form := f)
    else match FindById(st.productos, pid)
      case None => st.(form := f)
      case Some(p) => st.(form := Prefilled(f, p, toInputDate))
  }

  const NameRequired := "El nombre es requerido"
  const BadPrice := "Precio inválido"
  const BadStock := "Stock inválido (debe ser 0 o mayor)"
  const BadCost := "Costo inválido"
  const SaveFailed := "Error al guardar el producto"

  /** `parseInt(stock, 10)` is a number and not negative. */
  predicate CountOk(s: string) {
    Numbers.ParseInt(s).Some? && Numbers.ParseInt(s).value >= 0
  }

  /** The checks of `handleSubmit`, first failure wins. */
  function Validate(f: Form): (r: Option<string>)
    ensures r == Some(NameRequired) <==> Text.Blank(f.nombre)
    ensures r == Some(BadPrice) <==>
      !Text.Blank(f.nombre) && f.precio != "" && Numbers.ParseFloat(f.precio).None?
    ensures r == Some(BadStock) <==>
      !Text.Blank(f.nombre) && (f.precio == "" || Numbers.ParseFloat(f.precio).Some?)
      && f.stock != "" && !CountOk(f.stock)
    ensures r == Some(BadCost) <==>
      !Text.Blank(f.nombre) && (f.precio == "" || Numbers.ParseFloat(f.precio).Some?)
      && (f.stock == "" || CountOk(f.stock))
      && f.cost != "" && Numbers.ParseFloat(f.cost).None?
    ensures r.None? <==>
      !Text.Blank(f.nombre) && (f.precio == "" || Numbers.ParseFloat(f.precio).Some?)
      && (f.stock == "" || CountOk(f.stock)) && (f.cost == "" || Numbers.ParseFloat(f.cost).Some?)
  {
    if Text.Blank(f.nombre) then Some(NameRequired)
    else if f.precio != "" && Numbers.ParseFloat(f.precio).None? then Some(BadPrice)
    else if f.stock != "" && !CountOk(f.stock) then Some(BadStock)
    else if f.cost != "" && Numbers.ParseFloat(f.cost).None? then Some(BadCost)
    else None
  }

  /** The body of the save request. */
  datatype Payload = Payload(
    nombre: string,
    marca: string,
    descripcion: string,
    precio: Option<real>,
    categoria: string,
    imagen: string,
    vencimiento: Option<string>,
    stock: Option<int>,
    cost: Option<real>)

  /** The request body: empty number fields and an empty date become `null`,
      the text fields are sent as typed. */
  function PayloadOf(f: Form): (b: Payload)
    ensures b.nombre == f.nombre && b.marca == f.marca && b.descripcion == f.descripcion
    ensures b.categoria == f.categoria && b.imagen == f.imagen
    ensures f.precio == "" ==> b.precio.None?
    ensures f.precio != "" ==> b.precio == Numbers.ParseFloat(f.precio)
    ensures f.stock == "" ==> b.stock.None?
    ensures f.stock != "" ==> b.stock == Numbers.ParseInt(f.stock)
    ensures f.cost == "" ==> b.cost.None?
    ensures f.cost != "" ==> b.cost == Numbers.ParseFloat(f.cost)
    ensures b.vencimiento.None? <==> f.vencimiento == ""
    ensures b.vencimiento.Some? ==> b.vencimiento.value == f.vencimiento
  {
    Payload(
      f.nombre, f.marca, f.descripcion,
      if f.precio == "" then None else Numbers.ParseFloat(f.precio),
      f.categoria, f.imagen,
      if f.vencimiento == "" then None else Some(f.vencimiento),
      if f.stock == "" then None else Numbers.ParseInt(f.stock),
      if f.cost == "" then None else Numbers.ParseFloat(f.cost))
  }

  /** An accepted form yields a payload whose numbers are all real numbers
      (never `NaN`) and whose stock is not negative. */
  lemma AcceptedPayloadIsClean(f: Form)
    requires Validate(f).None?
    ensures f.precio != "" ==> PayloadOf(f).precio.Some?
    ensures f.stock != "" ==> PayloadOf(f).stock.Some? && PayloadOf(f).stock.value >= 0
    ensures f.cost != "" ==> PayloadOf(f).cost.Some?
  {
  }

  /** The request `handleSubmit` sends: an update of the chosen product, or
      a new product when none is chosen. */
  datatype Request = Put(productoId: string, body: Payload) | Post(body: Payload)

  /** Everything `handleSubmit` leaves behind. */
  datatype Submitted = Submitted(state: State, request: Option<Request>, error: Option<string>, success: bool)

  /** `handleSubmit`. `saveOk` is the outcome of the PUT/POST, `reloaded`
      the product list fetched afterwards (`None` when that fetch fails),
      `serverMsg` the message of whichever request failed. A successful save
      returns the form to its defaults; the category effect then runs on
      the new cache. A failure after the save (the reload) is reported like a
      failed save and leaves the form as it was. */
  function HandleSubmit(st: State, saveOk: bool, reloaded: Option<seq<Product>>, serverMsg: Option<string>): (r: Submitted)
    ensures Validate(st.form).Some? ==> r == Submitted(st, None, Validate(st.form), false)
    ensures Validate(st.form).None? && st.form.productoId != "" ==>
      r.request == Some(Put(st.form.productoId, PayloadOf(st.form)))
    ensures Validate(st.form).None? && st.form.productoId == "" ==>
      r.request == Some(Post(PayloadOf(st.form)))
    ensures r.success <==> Validate(st.form).None? && saveOk && reloaded.Some?
    ensures r.success ==> r.error.None? && r.state == CategoryEffect(State(DefaultForm(), [], [], reloaded.value))
    ensures !r.success ==> r.state == st && r.error.Some?
    ensures Validate(st.form).None? && !r.success ==> r.error == Some(ErrorText(serverMsg, SaveFailed))
  {
    match Validate(st.form)
    case Some(msg) => Submitted(st, None, Some(msg), false)
    case None =>
      var body := PayloadOf(st.form);
      var req := if st.form.productoId != "" then Put(st.form.productoId, body) else Post(body);
      if saveOk && reloaded.Some? then
        Submitted(CategoryEffect(State(DefaultForm(), [], [], reloaded.value)), Some(req), None, true)
      else
        Submitted(st, Some(req), Some(ErrorText(serverMsg, SaveFailed)), false)
  }

  /** After a successful save the page is back at its start: the first
      group selected, every other field empty, and the brands of that group
      in the refreshed cache on offer. */
  lemma SavedFormIsDefault(st: State, reloaded: seq<Product>, serverMsg: Option<string>)
    requires Validate(st.form).None?
    ensures var r := HandleSubmit(st, true, Some(reloaded), serverMsg).state;
            r.form == DefaultForm() && r.productos == [] && r.cache == reloaded
            && r.marcas == Brands(reloaded, FirstGroup())
  {
  }

  /** A product picked from the list and saved untouched is sent back as an
      update of itself with the same name, price, stock and cost, provided
      it has a name, its price and cost have at most six decimals and its
      stock is a whole non-negative number. */
  lemma PickSaveRoundTrip(st: State, p: Product, toInputDate: string -> string, reloaded: Option<seq<Product>>)
    requires FindById(st.productos, Numbers.IntText(p.id)) == Some(p)
    requires !Text.Blank(OrEmpty(p.nombre))
    requires p.precio.Some? ==> Numbers.SixDecimals(p.precio.value)
    requires p.cost.Some? ==> Numbers.SixDecimals(p.cost.value)
    requires p.stock.Some? ==> Numbers.IsIntegral(p.stock.value) && p.stock.value >= 0.0
    ensures var f := PickProduct(st, Numbers.IntText(p.id), toInputDate).form;
            var r := HandleSubmit(PickProduct(st, Numbers.IntText(p.id), toInputDate), true, reloaded, None);
            r.request.Some? && r.request.value.Put? && r.request.value.productoId == Numbers.IntText(p.id)
            && r.request.value.body.nombre == OrEmpty(p.nombre)
            && r.request.value.body.precio == p.precio && r.request.value.body.cost == p.cost
            && (r.request.value.body.stock.Some? <==> p.stock.Some?)
            && (p.stock.Some? ==> r.request.value.body.stock.value as real == p.stock.value)
  {
    var pid := Numbers.IntText(p.id);
    var f := PickProduct(st, pid, toInputDate).form;
    DecimalRoundTrip(p.precio);
    DecimalRoundTrip(p.cost);
    CountRoundTrip(p.stock);
  }

  /** A number written with `String` and read with `parseFloat` is itself. */
  lemma DecimalRoundTrip(x: Option<real>)
    requires x.Some? ==> Numbers.SixDecimals(x.value)
    ensures NumberField(x) != "" ==> Numbers.ParseFloat(NumberField(x)) == x
  {
    if x.Some? {
      Numbers.NumberOfNumText(x.value);
    }
  }

  /** A whole count written with `String` and read with `parseInt` is itself. */
  lemma CountRoundTrip(x: Option<real>)
    requires x.Some? ==> Numbers.IsIntegral(x.value) && x.value >= 0.0
    ensures NumberField(x) != "" ==>
      CountOk(NumberField(x)) && Numbers.ParseInt(NumberField(x)).value as real == x.value
  {
    if x.Some? {
      Numbers.IntegralNumText(x.value);
      Numbers.NumberOfIntText(x.value.Floor);
    }
  }
}
