/** The product record shared by the warehouse page, the admin page and the
    product modal, and the fixed grouping of shop categories that the
    warehouse and admin pages both declare. */
module Catalog {
  import opened Common

  /** A product as the `/api/products` endpoint returns it. Text fields may be
      missing (`None`); numbers may be missing too. */
  datatype Product = Product(
    id: int,
    nombre: Option<string>,
    marca: Option<string>,
    descripcion: Option<string>,
    categoria: Option<string>,
    precio: Option<real>,
    stock: Option<real>,
    imagen: Option<string>,
    vencimiento: Option<string>,
    cost: Option<real>)

  /** `x || ''` for an optional text field. */
  function OrEmpty(x: Option<string>): string {
    x.GetOr("")
  }

  /** `Number(x || 0)` for an optional numeric field (`0 || 0` is 0 as well). */
  function OrZero(x: Option<real>): real {
    x.GetOr(0.0)
  }

  /** `err?.response?.data?.message || fallback`, the error text the pages
      show when a request fails. */
  function ErrorText(serverMsg: Option<string>, fallback: string): (m: string)
    ensures serverMsg.Some? && serverMsg.value != "" ==> m == serverMsg.value
    ensures OrEmpty(serverMsg) == "" ==> m == fallback
  {
    if OrEmpty(serverMsg) == "" then fallback else serverMsg.value
  }

  /** `formatToInputDate` (declared by both the modal and the admin page): an
      empty value gives `''`; any other value goes
      through the date conversion `toInputDate` (a parameter here). */
  function InputDate(v: Option<string>, toInputDate: string -> string): (r: string)
    ensures OrEmpty(v) == "" ==> r == ""
    ensures OrEmpty(v) != "" ==> r == toInputDate(v.value)
  {
    if OrEmpty(v) == "" then "" else toInputDate(v.value)
  }

  /** The visible category groups, in declaration order, each with the
      historical sub-categories it stands for. */
  const Groups: seq<(string, seq<string>)> := [
    ("Alimento para Perro", ["Alimento para Perro"]),
    ("Alimento para Gato", ["Alimento para Gato"]),
    ("Snacks y Golosinas", ["Golosinas", "Premios", "Snack y Bocaditos"]),
    ("Estética y Aseo", ["Estética y Aseo"]),
    ("Medicamentos", ["Medicamentos"]),
    ("Accesorios y Juguetes", ["Correas", "Collares", "Pretales", "Comederos", "Juguetes"]),
    ("Ropa y Descanso", ["Ropita", "Colchonetas", "Cuchas y Mantas"])
  ]

  /** `Object.keys(CATEGORIES_GROUPS)`. */
  function GroupNames(): (r: seq<string>)
    ensures |r| == |Groups|
    ensures forall i :: 0 <= i < |r| ==> r[i] == Groups[i].0
  {
    seq(|Groups|, i requires 0 <= i < |Groups| => Groups[i].0)
  }

  /** `CATEGORIES_GROUPS[name]`, `None` when `name` is not a group. */
  function SubsOf(name: string): Option<seq<string>> {
    SubsIn(Groups, name)
  }

  /** The sub-categories of the first entry of `gs` named `name`. */
  function SubsIn(gs: seq<(string, seq<string>)>, name: string): Option<seq<string>>
    decreases |gs|
  {
    if |gs| == 0 then None
    else if gs[0].0 == name then Some(gs[0].1)
    else SubsIn(gs[1..], name)
  }

  /** `SubsIn` finds exactly the names of the table, and returns the entry
      stored under the name. */
  lemma {:induction false} SubsInSpec(gs: seq<(string, seq<string>)>, name: string)
    ensures SubsIn(gs, name).Some? <==> exists i :: 0 <= i < |gs| && gs[i].0 == name
    ensures SubsIn(gs, name).Some? ==> exists i :: 0 <= i < |gs| && gs[i] == (name, SubsIn(gs, name).value)
    decreases |gs|
  {
    if |gs| > 0 && gs[0].0 != name {
      SubsInSpec(gs[1..], name);
      assert forall i :: 0 < i < |gs| ==> gs[i] == gs[1..][i - 1];
    }
  }
}
