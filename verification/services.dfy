/** The services page: the category options, the filtered and sorted list,
    the create/edit drawer, the form checks and the save request. */
module Services {
  import opened Common
  import opened Values
  import Text
  import Numbers
  import Sorting

  /** The `activo` column: a boolean, or some other scalar read as a number. */
  datatype Activo = Flag(b: bool) | Raw(v: Value)

  datatype Service = Service(
    id: int,
    nombre: Option<string>,
    descripcion: Option<string>,
    precio: Value,
    duracionMin: Value,
    categoria: Option<string>,
    activo: Activo)

  /** `typeof activo === 'boolean' ? activo : Boolean(Number(activo))`. */
  predicate IsActive(a: Activo) {
    match a
    case Flag(b) => b
    case Raw(v) => NumberValue(v).Some? && NumberValue(v).value != 0.0
  }

  /** `categories`: the distinct non-empty categories, in order of first
      appearance: a category whose first service comes earlier is offered
      earlier. */
  function Categories(services: seq<Service>): (r: seq<string>)
    ensures NoDup(r)
    ensures forall c :: c in r <==> c != "" && exists s :: s in services && s.categoria == Some(c)
    ensures forall c :: c in r ==> c in CategoryColumn(services)
    ensures forall i, j :: 0 <= i < j < |r| ==>
              FirstIndex(CategoryColumn(services), r[i]) < FirstIndex(CategoryColumn(services), r[j])
  {
    forall c ensures c in CategoryColumn(services) && c != "" <==>
                     c != "" && exists s :: s in services && s.categoria == Some(c) {
      CategoryColumnMember(services, c);
    }
    DistinctFilled(CategoryColumn(services))
  }

  lemma CategoryColumnMember(services: seq<Service>, c: string)
    ensures c != "" ==> (c in CategoryColumn(services) <==> exists s :: s in services && s.categoria == Some(c))
  {
    var col := CategoryColumn(services);
    if c != "" {
      if c in col {
        var i :| 0 <= i < |col| && col[i] == c;
        assert services[i].categoria == Some(c);
      }
      if exists s :: s in services && s.categoria == Some(c) {
        var s :| s in services && s.categoria == Some(c);
        var i :| 0 <= i < |services| && services[i] == s;
        assert col[i] == c;
      }
    }
  }

  function CategoryColumn(services: seq<Service>): (r: seq<string>)
    ensures |r| == |services|
    ensures forall i :: 0 <= i < |r| ==> r[i] == services[i].categoria.GetOr("")
  {
    seq(|services|, i requires 0 <= i < |services| => services[i].categoria.GetOr(""))
  }

  // ---------------------------------------------------------------- filters

  datatype Status = AllStatus | ActiveOnly | InactiveOnly

  /** The sort keys offered by the page (`categoria` is handled by the
      comparator as well). */
  datatype OrderBy = ByNombre | ByPrecio | ByDuracion | ByCategoria

  datatype View = View(q: string, status: Status, category: string, orderBy: OrderBy, ascending: bool)

  /** The text fields the search looks at, with the empty ones dropped. */
  function SearchFields(s: Service): seq<string> {
    Filter((t: string) => t != "",
           [s.nombre.GetOr(""), s.descripcion.GetOr(""), s.categoria.GetOr(""),
            Display(s.precio), Display(s.duracionMin)])
  }

  predicate StatusOk(v: View, s: Service) {
    v.status == AllStatus || (IsActive(s.activo) <==> v.status == ActiveOnly)
  }

  predicate CategoryOk(v: View, s: Service) {
    v.category == "all" || Text.Lower(s.categoria.GetOr("")) == Text.Lower(v.category)
  }

  predicate QueryOk(v: View, s: Service) {
    var needle := Text.Lower(Text.Trim(v.q));
    needle == "" || exists t :: t in SearchFields(s) && Text.Contains(Text.Lower(t), needle)
  }

  predicate Keep(v: View, s: Service) {
    StatusOk(v, s) && CategoryOk(v, s) && QueryOk(v, s)
  }

  /** Where an entry falls in the order: 0 for a comparable key, 1 for a
      number field that reads as `NaN`, 2 for a missing field. */
  function Rank(s: Service, key: OrderBy): nat {
    match key
    case ByNombre => if s.nombre.None? then 2 else 0
    case ByCategoria => if s.categoria.None? then 2 else 0
    case ByPrecio => NumRank(s.precio)
    case ByDuracion => NumRank(s.duracionMin)
  }

  function NumRank(v: Value): nat {
    if v.Null? then 2 else if NumberValue(v).None? then 1 else 0
  }

  function TextKey(s: Service, key: OrderBy): string {
    if key == ByNombre then s.nombre.GetOr("") else s.categoria.GetOr("")
  }

  function NumKey(s: Service, key: OrderBy): real {
    NumberValue(if key == ByPrecio then s.precio else s.duracionMin).GetOr(0.0)
  }

  /** "`a` may come before `b`": the comparator of the page returns a value
      `<= 0`. Missing keys go last and `NaN` just before them, whatever the
      direction; comparable keys go in the chosen direction. */
  predicate KeyLe(key: OrderBy, ascending: bool, a: Service, b: Service) {
    var ra, rb := Rank(a, key), Rank(b, key);
    if ra != rb then ra < rb
    else if ra > 0 then true
    else if key == ByNombre || key == ByCategoria then
      (if ascending then Text.StrLe(TextKey(a, key), TextKey(b, key)) else Text.StrLe(TextKey(b, key), TextKey(a, key)))
    else
      (if ascending then NumKey(a, key) <= NumKey(b, key) else NumKey(b, key) <= NumKey(a, key))
  }

  /** The page's comparator as written: nulls last, then (for number keys)
      `NaN` last, then `localeCompare` or the difference, times the direction. */
  function Compare(key: OrderBy, ascending: bool, a: Service, b: Service): real {
    var dir := if ascending then 1.0 else -1.0;
    var an, bn := Rank(a, key) == 2, Rank(b, key) == 2;
    if an && bn then 0.0
    else if an then 1.0
    else if bn then -1.0
    else if key == ByNombre || key == ByCategoria then
      var ta, tb := TextKey(a, key), TextKey(b, key);
      (if Text.StrLess(ta, tb) then -1.0 else if ta == tb then 0.0 else 1.0) * dir
    else
      var na, nb := Rank(a, key) == 1, Rank(b, key) == 1;
      if na && nb then 0.0
      else if na then 1.0
      else if nb then -1.0
      else (NumKey(a, key) - NumKey(b, key)) * dir
  }

  /** The order used for sorting is exactly "the comparator gives at most 0". */
  lemma CompareAgrees(key: OrderBy, ascending: bool, a: Service, b: Service)
    ensures KeyLe(key, ascending, a, b) <==> Compare(key, ascending, a, b) <= 0.0
  {
    var ta, tb := TextKey(a, key), TextKey(b, key);
    Text.StrLessTrichotomy(ta, tb);
    Text.StrLessIrreflexive(ta);
    if Text.StrLess(ta, tb) && Text.StrLess(tb, ta) {
      Text.StrLessTransitive(ta, tb, ta);
    }
  }

  function Order(key: OrderBy, ascending: bool): (Service, Service) -> bool {
    (a: Service, b: Service) => KeyLe(key, ascending, a, b)
  }

  lemma OrderIsPreorder(key: OrderBy, ascending: bool)
    ensures Sorting.TotalPreorder(Order(key, ascending))
  {
    var le := Order(key, ascending);
    forall a: Service, b: Service ensures le(a, b) || le(b, a) {
      Text.StrLeTotalPreorder(TextKey(a, key), TextKey(b, key), TextKey(a, key));
    }
    forall a: Service, b: Service, c: Service | le(a, b) && le(b, c) ensures le(a, c) {
      Text.StrLeTotalPreorder(TextKey(a, key), TextKey(b, key), TextKey(c, key));
      Text.StrLeTotalPreorder(TextKey(c, key), TextKey(b, key), TextKey(a, key));
    }
  }

  /** `filtered`: the services passing the status, category and search
      filters, sorted by the chosen key and direction. */
  function Filtered(services: seq<Service>, v: View): (r: seq<Service>)
    ensures multiset(r) <= multiset(services)
    ensures forall s :: multiset(r)[s] == if Keep(v, s) then multiset(services)[s] else 0
    ensures forall s :: s in r <==> s in services && Keep(v, s)
    ensures Sorting.Sorted(r, Order(v.orderBy, v.ascending))
  {
    var kept := Filter((s: Service) => Keep(v, s), services);
    OrderIsPreorder(v.orderBy, v.ascending);
    var r := Sorting.InsertionSort(kept, Order(v.orderBy, v.ascending));
    assert forall s :: s in r <==> s in kept by {
      forall s ensures s in r <==> s in kept {
        assert s in r <==> s in multiset(r);
        assert s in kept <==> s in multiset(kept);
      }
    }
    r
  }

  /** Entries missing the sort key come after every entry that has it, in
      either direction. */
  lemma MissingKeysLast(services: seq<Service>, v: View)
    ensures var r := Filtered(services, v);
            forall i, j :: 0 <= i < j < |r| && Rank(r[i], v.orderBy) == 2 ==> Rank(r[j], v.orderBy) == 2
  {
    SortedMissingLast(Filtered(services, v), v.orderBy, v.ascending);
  }

  lemma SortedMissingLast(r: seq<Service>, key: OrderBy, ascending: bool)
    requires Sorting.Sorted(r, Order(key, ascending))
    ensures forall i, j :: 0 <= i < j < |r| && Rank(r[i], key) == 2 ==> Rank(r[j], key) == 2
  {
    forall i, j | 0 <= i < j < |r| && Rank(r[i], key) == 2 ensures Rank(r[j], key) == 2 {
      assert Order(key, ascending)(r[i], r[j]);
    }
  }

  /** Between entries that both have a readable key, the list is ordered by
      that key in the chosen direction. */
  lemma NumericOrder(services: seq<Service>, v: View)
    requires v.orderBy == ByPrecio || v.orderBy == ByDuracion
    ensures var r := Filtered(services, v);
            forall i, j :: 0 <= i < j < |r| && Rank(r[i], v.orderBy) == 0 && Rank(r[j], v.orderBy) == 0 ==>
              if v.ascending then NumKey(r[i], v.orderBy) <= NumKey(r[j], v.orderBy)
              else NumKey(r[j], v.orderBy) <= NumKey(r[i], v.orderBy)
  {
    SortedNumeric(Filtered(services, v), v.orderBy, v.ascending);
  }

  lemma SortedNumeric(r: seq<Service>, key: OrderBy, ascending: bool)
    requires key == ByPrecio || key == ByDuracion
    requires Sorting.Sorted(r, Order(key, ascending))
    ensures forall i, j :: 0 <= i < j < |r| && Rank(r[i], key) == 0 && Rank(r[j], key) == 0 ==>
              if ascending then NumKey(r[i], key) <= NumKey(r[j], key) else NumKey(r[j], key) <= NumKey(r[i], key)
  {
    forall i, j | 0 <= i < j < |r| && Rank(r[i], key) == 0 && Rank(r[j], key) == 0
      ensures if ascending then NumKey(r[i], key) <= NumKey(r[j], key) else NumKey(r[j], key) <= NumKey(r[i], key)
    {
      assert Order(key, ascending)(r[i], r[j]);
    }
  }

  /** With no filter set, nothing is dropped: the list is a reordering of
      all services. */
  lemma NoFilterKeepsAll(services: seq<Service>, key: OrderBy, ascending: bool)
    ensures multiset(Filtered(services, View("", AllStatus, "all", key, ascending))) == multiset(services)
  {
    var v := View("", AllStatus, "all", key, ascending);
    assert Text.Trim("") == "";
    assert forall s :: Keep(v, s);
    var kept := Filter((s: Service) => Keep(v, s), services);
    assert multiset(kept) == multiset(services) by {
      forall x ensures multiset(kept)[x] == multiset(services)[x] {
      }
    }
    OrderIsPreorder(key, ascending);
    assert Filtered(services, v) == Sorting.InsertionSort(kept, Order(key, ascending));
  }

  // ---------------------------------------------------------------- drawer

  /** The drawer form. Number fields hold typed text, or the number the
      service was loaded with. */
  datatype Form = Form(nombre: string, descripcion: string, precio: Value, duracionMin: Value,
                       categoria: string, activo: bool)

  const DefaultForm := Form("", "", Txt(""), Txt(""), "", true)

  datatype Drawer = Drawer(open: bool, editingId: Option<int>, form: Form, saving: bool)

  /** `openCreate`. */
  function OpenCreate(d: Drawer): (r: Drawer)
    ensures r.open && r.editingId.None? && r.form == DefaultForm && r.saving == d.saving
  {
    Drawer(true, None, DefaultForm, d.saving)
  }

  /** `x ?? ''` for a number field. */
  function OrBlank(v: Value): (r: Value)
    ensures r != Null
    ensures v != Null ==> r == v
  {
    if v.Null? then Txt("") else v
  }

  /** `openEdit`: the service's values, missing ones blank, and always active. */
  function OpenEdit(d: Drawer, s: Service): (r: Drawer)
    ensures r.open && r.editingId == Some(s.id) && r.saving == d.saving
    ensures r.form.nombre == s.nombre.GetOr("") && r.form.descripcion == s.descripcion.GetOr("")
    ensures r.form.categoria == s.categoria.GetOr("")
    ensures r.form.precio == OrBlank(s.precio) && r.form.duracionMin == OrBlank(s.duracionMin)
    ensures r.form.activo
  {
    Drawer(true, Some(s.id),
           Form(s.nombre.GetOr(""), s.descripcion.GetOr(""), OrBlank(s.precio), OrBlank(s.duracionMin),
                s.categoria.GetOr(""), true),
           d.saving)
  }

  /** What `closeDrawer` leaves behind: the drawer, and whether it set the
      timer that later forgets the edited service. */
  datatype Closing = Closing(drawer: Drawer, resetScheduled: bool)

  /** `closeDrawer`: ignored while saving; otherwise the drawer closes at
      once, still holding the edited service, and a timer is set to forget
      it 200 ms later. */
  function CloseDrawer(d: Drawer): (r: Closing)
    ensures d.saving ==> r == Closing(d, false)
    ensures !d.saving ==> r.resetScheduled && !r.drawer.open
    ensures !d.saving ==> r.drawer.editingId == d.editingId && r.drawer.form == d.form && !r.drawer.saving
  {
    if d.saving then Closing(d, false) else Closing(d.(open := false), true)
  }

  /** The timer set by `closeDrawer`, when it fires: the edited service and
      the form are forgotten, whether or not the drawer has been opened
      again in the meantime. */
  function ClearDrawer(d: Drawer): (r: Drawer)
    ensures r.open == d.open && r.saving == d.saving
    ensures r.editingId.None? && r.form == DefaultForm
  {
    d.(editingId := None, form := DefaultForm)
  }

  /** Closing and letting the timer fire leaves a closed drawer in create
      mode on the default form. */
  lemma CloseThenClear(d: Drawer)
    requires !d.saving
    ensures ClearDrawer(CloseDrawer(d).drawer) == Drawer(false, None, DefaultForm, false)
  {
  }

  /** A service opened for editing before the timer of an earlier close
      fires loses its values: the drawer stays open, but in create mode on
      the default form. */
  lemma EditOpenedBeforeClearIsLost(d: Drawer, s: Service)
    requires !d.saving
    ensures var r := ClearDrawer(OpenEdit(CloseDrawer(d).drawer, s));
            r.open && r.editingId.None? && r.form == DefaultForm
    ensures OpenEdit(CloseDrawer(d).drawer, s).editingId == Some(s.id)
  {
  }

  const NameRequired := "El nombre es requerido"
  const BadPrice := "Precio inválido"
  const BadDuration := "Duración inválida"

  predicate Blank(v: Value) {
    v == Txt("")
  }

  /** A price the form accepts: a number, not negative. */
  predicate PriceOk(v: Value) {
    NumberValue(v).Some? && NumberValue(v).value >= 0.0
  }

  /** A duration the form accepts: a whole number, not negative. */
  predicate DurationOk(v: Value) {
    NumberValue(v).Some? && Numbers.IsIntegral(NumberValue(v).value) && NumberValue(v).value >= 0.0
  }

  /** `validate`: the first failing check, `None` when all pass. */
  function Validate(f: Form): (r: Option<string>)
    ensures r == Some(NameRequired) <==> Text.Blank(f.nombre)
    ensures r == Some(BadPrice) <==> !Text.Blank(f.nombre) && !Blank(f.precio) && !PriceOk(f.precio)
    ensures r == Some(BadDuration) <==>
              !Text.Blank(f.nombre) && (Blank(f.precio) || PriceOk(f.precio))
              && !Blank(f.duracionMin) && !DurationOk(f.duracionMin)
    ensures r.None? <==>
              !Text.Blank(f.nombre) && (Blank(f.precio) || PriceOk(f.precio))
              && (Blank(f.duracionMin) || DurationOk(f.duracionMin))
  {
    if Text.Blank(f.nombre) then Some(NameRequired)
    else if !Blank(f.precio) && !PriceOk(f.precio) then Some(BadPrice)
    else if !Blank(f.duracionMin) && !DurationOk(f.duracionMin) then Some(BadDuration)
    else None
  }

  /** The body of the save request. */
  datatype Payload = Payload(nombre: string, descripcion: Option<string>, precio: Option<real>,
                             duracionMin: Option<real>, categoria: Option<string>, activo: bool)

  /** `x?.trim() || null`. */
  function TrimOrNull(s: string): (r: Option<string>)
    ensures r.None? <==> Text.Blank(s)
    ensures r.Some? ==> r.value == Text.Trim(s)
  {
    if Text.Trim(s) == "" then None else Some(Text.Trim(s))
  }

  /** `x === '' ? null : Number(x)`. */
  function NumberOrNull(v: Value): Option<real> {
    if Blank(v) then None else NumberValue(v)
  }

  datatype SaveStep = Rejected(error: string) | Put(id: int, body: Payload) | Post(body: Payload)

  /** `saveService`: a failed check sends nothing; otherwise the payload
      updates the edited service, or creates one when no service (or the
      falsy id 0) is being edited. */
  function SaveService(editingId: Option<int>, f: Form): (s: SaveStep)
    ensures s.Rejected? <==> Validate(f).Some?
    ensures s.Rejected? ==> s.error == Validate(f).value
    ensures s.Put? <==> Validate(f).None? && editingId.Some? && editingId.value != 0
    ensures s.Put? ==> s.id == editingId.value
    ensures !s.Rejected? ==>
              var b := if s.Put? then s.body else s.body;
              b.nombre == Text.Trim(f.nombre) && b.activo
              && b.descripcion == TrimOrNull(f.descripcion) && b.categoria == TrimOrNull(f.categoria)
              && (b.precio.None? <==> Blank(f.precio))
              && (b.precio.Some? ==> b.precio.value >= 0.0 && Some(b.precio.value) == NumberValue(f.precio))
              && (b.duracionMin.None? <==> Blank(f.duracionMin))
              && (b.duracionMin.Some? ==> Numbers.IsIntegral(b.duracionMin.value) && b.duracionMin.value >= 0.0
                                          && Some(b.duracionMin.value) == NumberValue(f.duracionMin))
  {
    match Validate(f)
    case Some(msg) => Rejected(msg)
    case None =>
      var body := Payload(Text.Trim(f.nombre), TrimOrNull(f.descripcion), NumberOrNull(f.precio),
                          NumberOrNull(f.duracionMin), TrimOrNull(f.categoria), true);
      if editingId.Some? && editingId.value != 0 then Put(editingId.value, body) else Post(body)
  }

  /** Opening a service for editing and saving it untouched sends its own
      values back, when its name is not blank and its numbers are valid. */
  lemma EditSaveRoundTrip(d: Drawer, s: Service)
    requires !Text.Blank(s.nombre.GetOr(""))
    requires s.id != 0
    requires s.precio.Num? && s.precio.n >= 0.0
    requires s.duracionMin.Num? && Numbers.IsIntegral(s.duracionMin.n) && s.duracionMin.n >= 0.0
    ensures var st := SaveService(Some(s.id), OpenEdit(d, s).form);
            st.Put? && st.id == s.id
            && st.body.precio == Some(s.precio.n) && st.body.duracionMin == Some(s.duracionMin.n)
            && st.body.activo
  {
    var f := OpenEdit(d, s).form;
    assert f.precio == s.precio && f.duracionMin == s.duracionMin;
    assert Validate(f).None? by {
      assert !Blank(f.precio) && PriceOk(f.precio);
      assert !Blank(f.duracionMin) && DurationOk(f.duracionMin);
    }
  }

  /** `removeService`: the list loses the service only once the user has
      confirmed and the delete request succeeded. */
  function RemoveService(services: seq<Service>, id: int, confirmed: bool, ok: bool): (r: seq<Service>)
    ensures !(confirmed && ok) ==> r == services
    ensures confirmed && ok ==> forall s :: multiset(r)[s] == if s.id != id then multiset(services)[s] else 0
    ensures confirmed && ok ==> forall s :: s in r <==> s in services && s.id != id
    ensures SubseqOf(r, services)
  {
    SubseqOfRefl(services);
    if confirmed && ok then Filter((s: Service) => s.id != id, services) else services
  }
}
