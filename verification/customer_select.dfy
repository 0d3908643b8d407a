/** The customer picker used on the point-of-sale page: the search over the
    loaded customers, and what picking or clearing a customer does. */
module CustomerSelect {
  import opened Common
  import Text

  /** A customer as `/api/customers` returns it. */
  datatype Customer = Customer(id: int, nombre: Option<string>, email: Option<string>, telefono: Option<string>)

  /** `(x || '').toLowerCase().includes(t)`. */
  predicate FieldHas(x: Option<string>, t: string) {
    Text.Contains(Text.Lower(x.GetOr("")), t)
  }

  /** The list filter: an empty query keeps everyone; otherwise the lower-cased
      query (not trimmed) must occur in the lower-cased name, email or phone. */
  predicate Matches(c: Customer, q: string) {
    q == "" || FieldHas(c.nombre, Text.Lower(q)) || FieldHas(c.email, Text.Lower(q))
    || FieldHas(c.telefono, Text.Lower(q))
  }

  /** `filtered`: the matching customers, in list order. */
  function Filtered(list: seq<Customer>, q: string): (r: seq<Customer>)
    ensures q == "" ==> r == list
    ensures SubseqOf(r, list)
    ensures forall c :: multiset(r)[c] == if Matches(c, q) then multiset(list)[c] else 0
    ensures forall c :: c in r <==> c in list && Matches(c, q)
  {
    Filter((c: Customer) => Matches(c, q), list)
  }

  /** Every customer is found by their own name, email or phone. */
  lemma OwnFieldFinds(list: seq<Customer>, c: Customer, field: Option<string>)
    requires c in list
    requires field == c.nombre || field == c.email || field == c.telefono
    requires field.Some?
    ensures c in Filtered(list, field.value)
  {
    var t := Text.Lower(field.value);
    assert Text.OccursAt(t, t, 0) by {
      assert t[0..|t|] == t;
    }
    Text.OccursContains(t, t, 0);
  }

  /** The dropdown's own state. */
  datatype Picker = Picker(q: string, open: bool)

  /** What a pick or a clear reports to the page (`onChange`), and the
      dropdown state afterwards. */
  datatype Change = Change(selected: Option<Customer>, picker: Picker)

  /** `handleSelect`: the customer is reported, the query cleared and the
      dropdown closed. */
  function HandleSelect(c: Customer): (r: Change)
    ensures r.selected == Some(c) && r.picker.q == "" && !r.picker.open
  {
    Change(Some(c), Picker("", false))
  }

  /** `clearSelected`: `null` is reported, the query cleared and the dropdown
      closed. */
  function ClearSelected(): (r: Change)
    ensures r.selected.None? && r.picker.q == "" && !r.picker.open
  {
    Change(None, Picker("", false))
  }

  /** After a pick or a clear the dropdown, when reopened, offers the whole
      list again. */
  lemma AfterChangeListIsFull(list: seq<Customer>, c: Customer)
    ensures Filtered(list, HandleSelect(c).picker.q) == list
    ensures Filtered(list, ClearSelected().picker.q) == list
  {
  }
}
