/** The warehouse page: which categories a selection admits, the product
    filter, the expiry badge and the list updates after the product modal
    saves or deletes. */
module Almacen {
  import opened Common
  import opened Catalog
  import Text
  import Numbers
  import ProductModal

  const AllCategories := "Todas"

  /** `categorias`: "Todas" followed by the group names, the options of the
      category selector. */
  function CategoryOptions(): (r: seq<string>)
    ensures |r| == |Groups| + 1 && r[0] == AllCategories
    ensures forall i :: 0 <= i < |Groups| ==> r[i + 1] == Groups[i].0
  {
    [AllCategories] + GroupNames()
  }

  /** The first group whose sub-categories list `sub`. */
  function GroupOfSub(gs: seq<(string, seq<string>)>, sub: string): Option<(string, seq<string>)>
    decreases |gs|
  {
    if |gs| == 0 then None
    else if sub in gs[0].1 then Some(gs[0])
    else GroupOfSub(gs[1..], sub)
  }

  /** `GroupOfSub` returns the first group listing `sub`, if any does. */
  lemma {:induction false} GroupOfSubSpec(gs: seq<(string, seq<string>)>, sub: string)
    ensures GroupOfSub(gs, sub).Some? <==> exists i :: 0 <= i < |gs| && sub in gs[i].1
    ensures GroupOfSub(gs, sub).Some? ==>
              exists i :: 0 <= i < |gs| && gs[i] == GroupOfSub(gs, sub).value && sub in gs[i].1
                          && forall k :: 0 <= k < i ==> sub !in gs[k].1
    decreases |gs|
  {
    if |gs| > 0 && sub !in gs[0].1 {
      GroupOfSubSpec(gs[1..], sub);
      assert forall i :: 0 < i < |gs| ==> gs[i] == gs[1..][i - 1];
      if GroupOfSub(gs, sub).Some? {
        var i :| 0 <= i < |gs[1..]| && gs[1..][i] == GroupOfSub(gs, sub).value && sub in gs[1..][i].1
                 && forall k :: 0 <= k < i ==> sub !in gs[1..][k].1;
        assert gs[i + 1] == GroupOfSub(gs, sub).value;
        assert forall k :: 0 <= k < i + 1 ==> sub !in gs[k].1 by {
          forall k | 0 <= k < i + 1 ensures sub !in gs[k].1 {
            if k > 0 { assert gs[k] == gs[1..][k - 1]; }
          }
        }
      }
    }
  }

  /** `getAllowedCategories`: `None` admits every category. */
  function AllowedCategories(selected: string): (r: Option<seq<string>>)
    ensures r.None? <==> selected == "" || selected == AllCategories
    ensures r.Some? && SubsOf(selected).Some? ==> r.value == [selected] + SubsOf(selected).value
    ensures r.Some? && SubsOf(selected).None? && GroupOfSub(Groups, selected).Some? ==>
              r.value == [GroupOfSub(Groups, selected).value.0] + GroupOfSub(Groups, selected).value.1
    ensures r.Some? && SubsOf(selected).None? && GroupOfSub(Groups, selected).None? ==>
              r.value == [selected]
  {
    if selected == "" || selected == AllCategories then None
    else match SubsOf(selected)
      case Some(subs) => Some([selected] + subs)
      case None =>
        match GroupOfSub(Groups, selected)
        case Some(g) => Some([g.0] + g.1)
        case None => Some([selected])
  }

  /** Whatever is selected, products of exactly that category pass. */
  lemma SelectedIsAllowed(selected: string)
    requires AllowedCategories(selected).Some?
    ensures selected in AllowedCategories(selected).value
  {
    if SubsOf(selected).None? {
      var g := GroupOfSub(Groups, selected);
      if g.Some? {
        GroupOfSubSpec(Groups, selected);
        var i :| 0 <= i < |Groups| && Groups[i] == g.value && selected in Groups[i].1;
      }
    }
  }

  /** Choosing a sub-category admits the same categories as choosing its group. */
  lemma SubcategoryLikeGroup(i: nat, j: nat)
    requires i < |Groups| && j < |Groups[i].1|
    ensures AllowedCategories(Groups[i].1[j]) == AllowedCategories(Groups[i].0)
  {
    if i == 2 {
      SnacksLikeGroup(j);
    } else if i == 5 {
      AccessoriesLikeGroup(j);
    } else if i == 6 {
      ClothesLikeGroup(j);
    } else {
      assert Groups[i].1[j] == Groups[i].0;
    }
  }

  lemma SnacksLikeGroup(j: nat)
    requires j < |Groups[2].1|
    ensures AllowedCategories(Groups[2].1[j]) == AllowedCategories(Groups[2].0)
  {
    ListedFirstAt(Groups[2].1[j], 2);
    SameAsGroup(Groups[2].1[j], 2);
  }

  lemma AccessoriesLikeGroup(j: nat)
    requires j < |Groups[5].1|
    ensures AllowedCategories(Groups[5].1[j]) == AllowedCategories(Groups[5].0)
  {
    ListedFirstAt(Groups[5].1[j], 5);
    SameAsGroup(Groups[5].1[j], 5);
  }

  lemma ClothesLikeGroup(j: nat)
    requires j < |Groups[6].1|
    ensures AllowedCategories(Groups[6].1[j]) == AllowedCategories(Groups[6].0)
  {
    ListedFirstAt(Groups[6].1[j], 6);
    SameAsGroup(Groups[6].1[j], 6);
  }

  /** The sub-categories of the groups that stand for several: none of them
      is a group name, and none is listed under an earlier group. */
  lemma ListedFirstAt(sub: string, i: nat)
    requires i == 2 || i == 5 || i == 6
    requires sub in Groups[i].1
    ensures SubsOf(sub).None? && GroupOfSub(Groups, sub) == Some(Groups[i])
  {
    NotAGroupName(sub, i);
    SubsInSpec(Groups, sub);
    NotListedBefore(sub, i);
    GroupOfSubAt(Groups, sub, i);
  }

  lemma NotAGroupName(sub: string, i: nat)
    requires i == 2 || i == 5 || i == 6
    requires sub in Groups[i].1
    ensures forall k :: 0 <= k < |Groups| ==> Groups[k].0 != sub
  {
  }

  lemma NotListedBefore(sub: string, i: nat)
    requires i == 2 || i == 5 || i == 6
    requires sub in Groups[i].1
    ensures forall k :: 0 <= k < i ==> sub !in Groups[k].1
  {
  }

  /** `GroupOfSub` stops at the first group listing `sub`. */
  lemma {:induction false} GroupOfSubAt(gs: seq<(string, seq<string>)>, sub: string, i: nat)
    requires i < |gs| && sub in gs[i].1
    requires forall k :: 0 <= k < i ==> sub !in gs[k].1
    ensures GroupOfSub(gs, sub) == Some(gs[i])
    decreases i
  {
    if i > 0 {
      assert forall k :: 0 <= k < i - 1 ==> gs[1..][k] == gs[k + 1];
      GroupOfSubAt(gs[1..], sub, i - 1);
    }
  }

  /** A sub-category that is not itself a group and is first listed under
      group `i` expands like group `i`. */
  lemma SameAsGroup(sub: string, i: nat)
    requires i < |Groups|
    requires sub != "" && sub != AllCategories && SubsOf(sub).None?
    requires GroupOfSub(Groups, sub) == Some(Groups[i])
    requires Groups[i].0 != "" && Groups[i].0 != AllCategories
    requires SubsOf(Groups[i].0) == Some(Groups[i].1)
    ensures AllowedCategories(sub) == AllowedCategories(Groups[i].0)
  {
  }

  /** The non-empty text fields the search looks at. */
  function SearchFields(p: Product): (r: seq<string>)
    ensures forall s :: s in r <==> s != "" && s in [OrEmpty(p.nombre), OrEmpty(p.marca),
                                                      OrEmpty(p.descripcion), OrEmpty(p.categoria)]
  {
    Filter((s: string) => s != "",
           [OrEmpty(p.nombre), OrEmpty(p.marca), OrEmpty(p.descripcion), OrEmpty(p.categoria)])
  }

  /** The filter criteria of the page. */
  datatype Criteria = Criteria(q: string, categoria: string, onlyStockZero: bool)

  predicate Keep(c: Criteria, p: Product) {
    var allowed := AllowedCategories(c.categoria);
    var needle := Text.Lower(Text.Trim(c.q));
    (allowed.None? || OrEmpty(p.categoria) in allowed.value)
    && !(c.onlyStockZero && OrZero(p.stock) > 0.0)
    && (needle == "" || exists s :: s in SearchFields(p) && Text.Contains(Text.Lower(s), needle))
  }

  /** `filtered`: the products that pass the category, stock and search
      criteria, in their original order. */
  function Filtered(products: seq<Product>, c: Criteria): (r: seq<Product>)
    ensures SubseqOf(r, products)
    ensures forall p :: multiset(r)[p] == if Keep(c, p) then multiset(products)[p] else 0
    ensures forall p :: p in r <==> p in products && Keep(c, p)
  {
    Filter((p: Product) => Keep(c, p), products)
  }

  /** With a category restriction, a product of a category outside the
      allowed list is never shown. */
  lemma FilteredRespectsCategory(products: seq<Product>, c: Criteria, p: Product)
    requires AllowedCategories(c.categoria).Some?
    requires p in Filtered(products, c)
    ensures OrEmpty(p.categoria) in AllowedCategories(c.categoria).value
  {
  }

  /** With "Sin stock" on, every product shown has no positive stock. */
  lemma FilteredOnlyStockZero(products: seq<Product>, c: Criteria, p: Product)
    requires c.onlyStockZero && p in Filtered(products, c)
    ensures OrZero(p.stock) <= 0.0
  {
  }

  /** "Limpiar" (empty query, "Todas", stock filter off) shows every product. */
  lemma ClearedShowsAll(products: seq<Product>)
    ensures Filtered(products, Criteria("", AllCategories, false)) == products
  {
    assert Text.Trim("") == "";
  }

  /** Turning "Sin stock" on only narrows the list: the result is exactly the
      products of the unrestricted result that have no positive stock. */
  lemma StockZeroNarrows(products: seq<Product>, q: string, categoria: string)
    ensures Filtered(products, Criteria(q, categoria, true))
         == Filter((p: Product) => OrZero(p.stock) <= 0.0, Filtered(products, Criteria(q, categoria, false)))
  {
    FilterAnd((p: Product) => Keep(Criteria(q, categoria, false), p),
              (p: Product) => OrZero(p.stock) <= 0.0,
              (p: Product) => Keep(Criteria(q, categoria, true), p),
              products);
  }

  /** The state of a product's expiry date, as the badge shows it. */
  datatype Expiry = NoDate | BadDate | Expired(daysAgo: nat) | Expiring(daysLeft: nat) | Valid(daysLeft: nat)

  /** `getVencimientoState`: `dayDiff` turns the trimmed date text into the
      number of days from today (`None` for an unreadable date). */
  function ExpiryOf(vencimiento: Option<string>, dayDiff: string -> Option<int>): (e: Expiry)
    ensures e == NoDate <==> OrEmpty(vencimiento) == ""
    ensures e == BadDate <==> OrEmpty(vencimiento) != "" && dayDiff(Text.Trim(vencimiento.value)).None?
    ensures e.Expired? || e.Expiring? || e.Valid? ==>
              var d := dayDiff(Text.Trim(vencimiento.value)).value;
              (e.Expired? <==> d < 0) && (e.Expiring? <==> 0 <= d <= 30) && (e.Valid? <==> d > 30)
              && (e.Expired? ==> e.daysAgo == -d) && (!e.Expired? ==> e.daysLeft == d)
  {
    if OrEmpty(vencimiento) == "" then NoDate
    else match dayDiff(Text.Trim(vencimiento.value))
      case None => BadDate
      case Some(d) =>
        if d < 0 then Expired(-d)
        else if d <= 30 then Expiring(d)
        else Valid(d)
  }

  /** The text before the day count of a dated state. */
  function DayPrefix(e: Expiry): string
    requires e.Expired? || e.Expiring? || e.Valid?
  {
    if e.Expired? then "Vencido (" else if e.Expiring? then "Por vencer (" else "VTO ("
  }

  /** The day count a dated state shows. */
  function DayCount(e: Expiry): nat
    requires e.Expired? || e.Expiring? || e.Valid?
  {
    if e.Expired? then e.daysAgo else e.daysLeft
  }

  /** The badge text. */
  function ExpiryLabel(e: Expiry): string {
    match e
    case NoDate => "Sin venc."
    case BadDate => "Fecha inválida"
    case _ => DayPrefix(e) + Numbers.IntText(DayCount(e)) + "d)"
  }

  /** The badge colour classes. */
  function ExpiryColor(e: Expiry): string {
    match e
    case NoDate => "bg-gray-200 text-gray-700"
    case BadDate => "bg-gray-200 text-gray-700"
    case Expired(_) => "bg-red-100 text-red-700"
    case Expiring(_) => "bg-yellow-100 text-yellow-800"
    case Valid(_) => "bg-green-100 text-green-700"
  }

  /** Different states never show the same text: the badge identifies the
      state and its day count. */
  lemma ExpiryLabelInjective(e1: Expiry, e2: Expiry)
    requires ExpiryLabel(e1) == ExpiryLabel(e2)
    ensures e1 == e2
  {
    var l := ExpiryLabel(e1);
    var dated1 := e1.Expired? || e1.Expiring? || e1.Valid?;
    var dated2 := e2.Expired? || e2.Expiring? || e2.Valid?;
    assert dated1 <==> l[|l| - 1] == ')';
    assert dated2 <==> l[|l| - 1] == ')';
    if dated1 {
      DatedLabelInjective(e1, e2);
    } else {
      assert |"Sin venc."| != |"Fecha inválida"|;
    }
  }

  lemma DatedLabelInjective(e1: Expiry, e2: Expiry)
    requires e1.Expired? || e1.Expiring? || e1.Valid?
    requires e2.Expired? || e2.Expiring? || e2.Valid?
    requires ExpiryLabel(e1) == ExpiryLabel(e2)
    ensures e1 == e2
  {
    var p1, p2 := DayPrefix(e1), DayPrefix(e2);
    var t1, t2 := Numbers.IntText(DayCount(e1)), Numbers.IntText(DayCount(e2));
    assert ExpiryLabel(e1) == p1 + t1 + "d)";
    assert ExpiryLabel(e2) == p2 + t2 + "d)";
    SplitDated(p1, t1, p2, t2);
    Numbers.IntTextInjective(DayCount(e1), DayCount(e2));
  }

  /** The three dated prefixes differ in their second character, so a dated
      label splits back into its prefix and its count. */
  lemma SplitDated(p1: string, t1: string, p2: string, t2: string)
    requires p1 in ["Vencido (", "Por vencer (", "VTO ("] && p2 in ["Vencido (", "Por vencer (", "VTO ("]
    requires p1 + t1 + "d)" == p2 + t2 + "d)"
    ensures p1 == p2 && t1 == t2
  {
    var l := p1 + t1 + "d)";
    assert l[1] == p1[1] && l[1] == p2[1];
    Middle(p1, t1, "d)");
    Middle(p2, t2, "d)");
  }

  lemma Middle(a: string, b: string, c: string)
    ensures (a + b + c)[|a|..|a + b + c| - |c|] == b
  {
  }

  /** `handleSaved`: every product with the saved product's id is replaced
      by it; nothing else moves. */
  function HandleSaved(products: seq<Product>, updated: Product): (r: seq<Product>)
    ensures |r| == |products|
    ensures forall i :: 0 <= i < |r| ==>
              r[i] == (if products[i].id == updated.id then updated else products[i])
  {
    seq(|products|, i requires 0 <= i < |products| =>
          if products[i].id == updated.id then updated else products[i])
  }

  /** Saving the same product twice leaves the list as saving it once, and the
      ids of the list never change. */
  lemma HandleSavedIdempotent(products: seq<Product>, updated: Product)
    ensures HandleSaved(HandleSaved(products, updated), updated) == HandleSaved(products, updated)
    ensures forall i :: 0 <= i < |products| ==> HandleSaved(products, updated)[i].id == products[i].id
  {
  }

  /** The page state the modal works on. */
  datatype Page = Page(products: seq<Product>, selected: Option<Product>, showModal: bool)

  /** `openModal` / `handleCloseModal`. */
  function OpenModal(s: Page, p: Product): (r: Page)
    ensures r.showModal && r.selected == Some(p) && r.products == s.products
  {
    s.(selected := Some(p), showModal := true)
  }

  function CloseModal(s: Page): (r: Page)
    ensures !r.showModal && r.selected.None? && r.products == s.products
  {
    s.(selected := None, showModal := false)
  }

  /** The page after the modal's delete of the selected product, as written:
      `handleDeleted` lives outside the component and calls a `setProductos`
      that is not in scope, so it throws; the modal reports the throw as a
      failed delete and the list is never updated. */
  function DeleteAsWritten(s: Page, requestOk: bool, serverMsg: Option<string>): (r: (Page, ProductModal.ModalOutcome))
    requires s.selected.Some?
    ensures r.0.products == s.products
    ensures !r.1.closed && r.1.error.Some?
  {
    var o := ProductModal.HandleDelete(requestOk, serverMsg, true);
    (s, o)
  }

  /** A successful delete on the server still shows "Error al eliminar" and
      keeps the deleted product listed. */
  lemma DeleteAsWrittenKeepsDeleted(s: Page)
    requires s.selected.Some? && s.selected.value in s.products
    ensures var (r, o) := DeleteAsWritten(s, true, None);
            s.selected.value in r.products && r.showModal == s.showModal
            && o.error == Some(ProductModal.DeleteFailed)
  {
  }

  /** The delete as intended: a successful request removes every product with
      the deleted id and closes the modal; a failed one changes nothing. */
  function DeleteCorrected(s: Page, requestOk: bool, serverMsg: Option<string>): (r: (Page, ProductModal.ModalOutcome))
    requires s.selected.Some?
    ensures var id := s.selected.value.id;
            requestOk ==> r.0.products == Filter((p: Product) => p.id != id, s.products)
                          && !r.0.showModal && r.1.closed
    ensures !requestOk ==> r.0 == s && !r.1.closed
  {
    var o := ProductModal.HandleDelete(requestOk, serverMsg, false);
    var id := s.selected.value.id;
    if o.notified then
      (CloseModal(s.(products := Filter((p: Product) => p.id != id, s.products))), o)
    else (s, o)
  }

  /** After a successful corrected delete the id is gone and every other
      product is still listed, in order. */
  lemma DeleteCorrectedRemoves(s: Page)
    requires s.selected.Some?
    ensures var r := DeleteCorrected(s, true, None).0;
            var id := s.selected.value.id;
            SubseqOf(r.products, s.products)
            && (forall p :: p in r.products ==> p.id != id)
            && (forall p :: p in s.products && p.id != id ==> p in r.products)
  {
  }
}
