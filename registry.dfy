/** The two fixed vocabularies of the CWRU loader: operating conditions
    (domain id -> load label) and fault classes (name -> class id). */
module Registry {
  import opened Wrappers
  import opened Text

  /** `DOMAIN_MAP`: domain id -> motor-load label. */
  const DomainMap: map<int, string> := map[0 := "0HP", 1 := "1HP", 2 := "2HP", 3 := "3HP"]

  /** `CLASS_MAP`, as the ordered list of its items: the loader walks the
      fault classes in exactly this order. */
  const ClassMap: seq<(string, int)> := [("normal", 0), ("inner", 1), ("ball", 2), ("outer", 3)]

  /** `DOMAIN_MAP[d]`; `None` where Python raises `KeyError`. The label of a
      known domain is its id written in decimal followed by "HP". */
  function DomainLabel(d: int): (r: Option<string>)
    ensures r.Some? <==> 0 <= d <= 3
    ensures r.Some? ==> r.value == NatToString(d) + "HP"
  {
    if d in DomainMap then Some(DomainMap[d]) else None
  }

  /** `CLASS_MAP[name]`; `None` where Python raises `KeyError`. */
  function ClassId(name: string): (r: Option<int>)
    ensures r.Some? <==> name in {"normal", "inner", "ball", "outer"}
    ensures r.Some? ==> 0 <= r.value < 4 && ClassMap[r.value] == (name, r.value)
  {
    ClassIdIn(ClassMap, name)
  }

  function ClassIdIn(items: seq<(string, int)>, name: string): (r: Option<int>)
    ensures r.Some? ==> (name, r.value) in items
    ensures r.None? ==> forall i :: 0 <= i < |items| ==> items[i].0 != name
  {
    if items == [] then None
    else if items[0].0 == name then Some(items[0].1)
    else ClassIdIn(items[1..], name)
  }

  /** The first class name whose id is `id`, as the per-class report looks it
      up (`[k for k, v in CLASS_MAP.items() if v == label_id][0]`); `None`
      where that list is empty and indexing it raises. */
  function ClassName(id: int): (r: Option<string>)
    ensures r.Some? <==> 0 <= id < 4
    ensures r.Some? ==> ClassMap[id] == (r.value, id)
  {
    if 0 <= id < |ClassMap| then Some(ClassMap[id].0) else None
  }

  /** The registered class names are pairwise distinct, and so are the ids. */
  lemma ClassMapInjective()
    ensures forall i, j :: 0 <= i < j < |ClassMap| ==> ClassMap[i].0 != ClassMap[j].0
    ensures forall i, j :: 0 <= i < j < |ClassMap| ==> ClassMap[i].1 != ClassMap[j].1
  {
  }

  /** No two domains share a label. */
  lemma DomainMapInjective()
    ensures forall d, e :: d in DomainMap && e in DomainMap && d != e ==> DomainMap[d] != DomainMap[e]
  {
  }

  /** Looking a class up by name and then by id gives the name back, and the
      other way round. */
  lemma ClassRoundTrip(name: string, id: int)
    ensures ClassId(name) == Some(id) ==> ClassName(id) == Some(name)
    ensures ClassName(id) == Some(name) ==> ClassId(name) == Some(id)
  {
  }
}
