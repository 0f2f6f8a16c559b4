/**
 The gateway's in-memory API configuration: a list of resources with their
 methods, maintained event by event from the watched key-value store, or rebuilt
 from the whole key-value list.
 */
module ApiConfigView {
  import opened Options

  datatype Body = Body(path: string, rest: string)

  datatype Info = Info(verb: string, resourcePath: string, rest: string)

  // The published keys: resources by ID, methods by resource ID and method ID.
  datatype Store = Store(resources: map<int, Body>, methods: map<(int, int), Info>)

  datatype Row = Row(body: Body, methods: map<int, Info>)

  type Table = map<int, Row>

  datatype Event =
    | PutResource(rid: int, body: Body)
    | PutMethod(rid: int, mid: int, info: Info)
    | DeleteResource(rid: int)
    | DeleteMethod(rid: int, mid: int)

  function Write(s: Store, e: Event): Store {
    match e
    case PutResource(rid, body) => s.(resources := s.resources[rid := body])
    case PutMethod(rid, mid, info) => s.(methods := s.methods[(rid, mid) := info])
    case DeleteResource(rid) => s.(resources := s.resources - {rid})
    case DeleteMethod(rid, mid) => s.(methods := s.methods - {(rid, mid)})
  }

  function MethodsOf(methods: map<(int, int), Info>, rid: int): map<int, Info> {
    map k | k in methods && k.0 == rid :: k.1 := methods[k]
  }

  // What the store means: each resource with its methods. Methods of a missing resource are not part of it.
  function Meaning(s: Store): Table {
    map rid | rid in s.resources :: Row(s.resources[rid], MethodsOf(s.methods, rid))
  }

  // What one event makes of a table.
  function Handle(t: Table, e: Event): Table {
    match e
    case PutResource(rid, body) => t[rid := Row(body, if rid in t then t[rid].methods else map[])]
    case PutMethod(rid, mid, info) => if rid in t then t[rid := t[rid].(methods := t[rid].methods[mid := info])] else t
    case DeleteResource(rid) => t - {rid}
    case DeleteMethod(rid, mid) => if rid in t then t[rid := t[rid].(methods := t[rid].methods - {mid})] else t
  }

  // A resource comes back while methods of it are still in the store.
  ghost predicate Resurrects(s: Store, e: Event) {
    e.PutResource? && e.rid !in s.resources && exists k | k in s.methods :: k.0 == e.rid
  }

  lemma MethodsOfPut(methods: map<(int, int), Info>, rid: int, mid: int, info: Info, other: int)
    ensures MethodsOf(methods[(rid, mid) := info], other)
      == if other == rid then MethodsOf(methods, rid)[mid := info] else MethodsOf(methods, other)
  {}

  lemma MethodsOfDelete(methods: map<(int, int), Info>, rid: int, mid: int, other: int)
    ensures MethodsOf(methods - {(rid, mid)}, other)
      == if other == rid then MethodsOf(methods, rid) - {mid} else MethodsOf(methods, other)
  {}

  lemma NoMethods(methods: map<(int, int), Info>, rid: int)
    ensures MethodsOf(methods, rid) == map[] <==> forall k | k in methods :: k.0 != rid
  {
    if k :| k in methods && k.0 == rid {
      assert k.1 in MethodsOf(methods, rid);
    }
  }

  lemma PutResourceIff(s: Store, rid: int, body: Body)
    ensures Handle(Meaning(s), PutResource(rid, body)) == Meaning(Write(s, PutResource(rid, body)))
      <==> !Resurrects(s, PutResource(rid, body))
  {
    var e := PutResource(rid, body);
    var t, u := Handle(Meaning(s), e), Meaning(Write(s, e));
    assert t.Keys == u.Keys;
    assert forall r | r in t && r != rid :: t[r] == u[r];
    NoMethods(s.methods, rid);
    assert u[rid].methods == MethodsOf(s.methods, rid);
    assert t == u <==> t[rid] == u[rid];
  }

  lemma PutMethodKeeps(s: Store, rid: int, mid: int, info: Info)
    ensures Handle(Meaning(s), PutMethod(rid, mid, info)) == Meaning(Write(s, PutMethod(rid, mid, info)))
  {
    var e := PutMethod(rid, mid, info);
    var t, u := Handle(Meaning(s), e), Meaning(Write(s, e));
    assert t.Keys == u.Keys;
    forall r | r in t ensures t[r] == u[r] {
      MethodsOfPut(s.methods, rid, mid, info, r);
    }
  }

  lemma DeleteMethodKeeps(s: Store, rid: int, mid: int)
    ensures Handle(Meaning(s), DeleteMethod(rid, mid)) == Meaning(Write(s, DeleteMethod(rid, mid)))
  {
    var e := DeleteMethod(rid, mid);
    var t, u := Handle(Meaning(s), e), Meaning(Write(s, e));
    assert t.Keys == u.Keys;
    forall r | r in t ensures t[r] == u[r] {
      MethodsOfDelete(s.methods, rid, mid, r);
    }
  }

  /** Handling one event keeps a right table right, except exactly when it resurrects a resource. */
  lemma EventKeepsMeaningIff(s: Store, e: Event)
    ensures Handle(Meaning(s), e) == Meaning(Write(s, e)) <==> !Resurrects(s, e)
  {
    match e
    case PutResource(rid, body) => PutResourceIff(s, rid, body);
    case PutMethod(rid, mid, info) => PutMethodKeeps(s, rid, mid, info);
    case DeleteResource(rid) => assert Handle(Meaning(s), e) == Meaning(Write(s, e));
    case DeleteMethod(rid, mid) => DeleteMethodKeeps(s, rid, mid);
  }

  function WriteAll(s: Store, log: seq<Event>): Store {
    if log == [] then s else Write(WriteAll(s, log[..|log| - 1]), log[|log| - 1])
  }

  function HandleAll(t: Table, log: seq<Event>): Table {
    if log == [] then t else Handle(HandleAll(t, log[..|log| - 1]), log[|log| - 1])
  }

  // One key-value pair of the method list.
  datatype MethodEntry = MethodEntry(rid: int, mid: int, info: Info)

  // Methods with another verb.
  function WithoutVerb(methods: map<int, Info>, verb: string): map<int, Info> {
    map m | m in methods && methods[m].verb != verb :: methods[m]
  }

  // A rebuild lets a method take the place of one with the same verb, and
  // makes up a resource for a method that has none.
  function AddMethod(t: Table, e: MethodEntry): Table {
    if e.rid in t then t[e.rid := t[e.rid].(methods := WithoutVerb(t[e.rid].methods, e.info.verb)[e.mid := e.info])]
    else t[e.rid := Row(Body(e.info.resourcePath, ""), map[e.mid := e.info])]
  }

  function AddMethods(t: Table, list: seq<MethodEntry>): Table {
    if list == [] then t else AddMethod(AddMethods(t, list[..|list| - 1]), list[|list| - 1])
  }

  function Bare(resources: map<int, Body>): Table {
    map rid | rid in resources :: Row(resources[rid], map[])
  }

  predicate IsFirst(list: seq<MethodEntry>, i: nat)
    requires i < |list|
  {
    (list[i].rid, list[i].mid) !in Listed(list[..i])
  }

  // The list holds each method of the store once.
  ghost predicate Lists(list: seq<MethodEntry>, methods: map<(int, int), Info>) {
    Listed(list) == methods && forall i: nat | i < |list| :: IsFirst(list, i)
  }

  ghost predicate DistinctVerbs(methods: map<int, Info>) {
    forall m, n | m in methods && n in methods && m != n :: methods[m].verb != methods[n].verb
  }

  ghost predicate NoOrphans(s: Store) {
    forall k | k in s.methods :: k.0 in s.resources
  }

  ghost predicate AllVerbsDistinct(s: Store) {
    forall rid | rid in s.resources :: DistinctVerbs(MethodsOf(s.methods, rid))
  }

  // The methods that a list holds.
  function Listed(list: seq<MethodEntry>): map<(int, int), Info> {
    if list == [] then map[]
    else var e := list[|list| - 1]; Listed(list[..|list| - 1])[(e.rid, e.mid) := e.info]
  }

  // A rebuilt table never has two methods of one verb, and has a row for every method.
  lemma {:induction false} RebuiltRows(resources: map<int, Body>, list: seq<MethodEntry>)
    ensures forall rid | rid in AddMethods(Bare(resources), list) :: DistinctVerbs(AddMethods(Bare(resources), list)[rid].methods)
    ensures forall k | k in Listed(list) :: k.0 in AddMethods(Bare(resources), list)
  {
    if list != [] {
      RebuiltRows(resources, list[..|list| - 1]);
    }
  }

  lemma NoVerbToDrop(methods: map<(int, int), Info>, e: MethodEntry)
    requires (e.rid, e.mid) !in methods && DistinctVerbs(MethodsOf(methods[(e.rid, e.mid) := e.info], e.rid))
    ensures WithoutVerb(MethodsOf(methods, e.rid), e.info.verb) == MethodsOf(methods, e.rid)
  {
    var before, after := MethodsOf(methods, e.rid), MethodsOf(methods[(e.rid, e.mid) := e.info], e.rid);
    MethodsOfPut(methods, e.rid, e.mid, e.info, e.rid);
    forall m | m in before ensures before[m].verb != e.info.verb {
      assert m != e.mid && after[m] == before[m] && after[e.mid] == e.info;
    }
  }

  lemma AddMethodKeeps(resources: map<int, Body>, methods: map<(int, int), Info>, e: MethodEntry)
    requires (e.rid, e.mid) !in methods && e.rid in resources
    requires DistinctVerbs(MethodsOf(methods[(e.rid, e.mid) := e.info], e.rid))
    ensures AddMethod(Meaning(Store(resources, methods)), e) == Meaning(Store(resources, methods[(e.rid, e.mid) := e.info]))
  {
    NoVerbToDrop(methods, e);
    PutMethodKeeps(Store(resources, methods), e.rid, e.mid, e.info);
  }

  lemma VerbsOfFewer(methods: map<(int, int), Info>, k: (int, int), info: Info, rid: int)
    requires k !in methods && DistinctVerbs(MethodsOf(methods[k := info], rid))
    ensures DistinctVerbs(MethodsOf(methods, rid))
  {
    var more, few := MethodsOf(methods[k := info], rid), MethodsOf(methods, rid);
    forall m | m in few ensures m in more && more[m] == few[m] {
      assert (rid, m) in methods && (rid, m) != k;
    }
  }

  lemma {:induction false} RebuildIsMeaning(resources: map<int, Body>, list: seq<MethodEntry>)
    requires forall i: nat | i < |list| :: IsFirst(list, i)
    requires NoOrphans(Store(resources, Listed(list))) && AllVerbsDistinct(Store(resources, Listed(list)))
    ensures AddMethods(Bare(resources), list) == Meaning(Store(resources, Listed(list)))
  {
    if list == [] {
      assert Bare(resources) == Meaning(Store(resources, map[]));
    } else {
      var before, e := list[..|list| - 1], list[|list| - 1];
      assert IsFirst(list, |before|);
      forall i: nat | i < |before| ensures IsFirst(before, i) {
        assert IsFirst(list, i) && before[..i] == list[..i];
      }
      forall rid | rid in resources ensures DistinctVerbs(MethodsOf(Listed(before), rid)) {
        VerbsOfFewer(Listed(before), (e.rid, e.mid), e.info, rid);
      }
      assert (e.rid, e.mid) in Listed(list);
      RebuildIsMeaning(resources, before);
      AddMethodKeeps(resources, Listed(before), e);
    }
  }

  /**
   A rebuild gives what the store means exactly when every method has its
   resource and no resource has two methods of one verb.
   */
  lemma RebuildIsMeaningIff(s: Store, list: seq<MethodEntry>)
    requires Lists(list, s.methods)
    ensures AddMethods(Bare(s.resources), list) == Meaning(s) <==> NoOrphans(s) && AllVerbsDistinct(s)
  {
    if NoOrphans(s) && AllVerbsDistinct(s) {
      RebuildIsMeaning(s.resources, list);
    } else {
      RebuiltRows(s.resources, list);
    }
  }

  // A list of values by ID, as the code keeps resources and methods.
  datatype Entry<V> = Entry(id: int, value: V)

  function Entries<V>(list: seq<Entry<V>>): map<int, V> {
    if list == [] then map[] else Entries(list[..|list| - 1])[list[|list| - 1].id := list[|list| - 1].value]
  }

  predicate IsNewId<V>(list: seq<Entry<V>>, i: nat)
    requires i < |list|
  {
    list[i].id !in Entries(list[..i])
  }

  predicate DistinctIds<V>(list: seq<Entry<V>>) {
    forall i: nat | i < |list| :: IsNewId(list, i)
  }

  lemma AppendEntry<V>(list: seq<Entry<V>>, m: Entry<V>)
    requires DistinctIds(list) && m.id !in Entries(list)
    ensures Entries(list + [m]) == Entries(list)[m.id := m.value] && DistinctIds(list + [m])
  {
    var more := list + [m];
    assert more[..|list|] == list;
    forall i: nat | i < |more| ensures IsNewId(more, i) {
      if i < |list| {
        assert IsNewId(list, i) && more[..i] == list[..i];
      }
    }
  }

  // An entry is found in the map where it is in the list.
  lemma {:induction false} EntryAt<V>(list: seq<Entry<V>>, i: nat)
    requires DistinctIds(list) && i < |list|
    ensures list[i].id in Entries(list) && Entries(list)[list[i].id] == list[i].value
  {
    var before := list[..|list| - 1];
    assert IsNewId(list, |before|);
    if i < |before| {
      forall j: nat | j < |before| ensures IsNewId(before, j) {
        assert IsNewId(list, j) && before[..j] == list[..j];
      }
      EntryAt(before, i);
    }
  }

  lemma {:induction false} EntryMissing<V>(list: seq<Entry<V>>, id: int)
    ensures id !in Entries(list) <==> forall i | 0 <= i < |list| :: list[i].id != id
  {
    if list != [] {
      EntryMissing(list[..|list| - 1], id);
    }
  }

  lemma DistinctPrefix<V>(list: seq<Entry<V>>, n: nat)
    requires DistinctIds(list) && n <= |list|
    ensures DistinctIds(list[..n])
  {
    forall j: nat | j < n ensures IsNewId(list[..n], j) {
      assert IsNewId(list, j) && list[..n][..j] == list[..j];
    }
  }

  lemma {:induction false} UpdateEntry<V>(list: seq<Entry<V>>, i: nat, m: Entry<V>)
    requires DistinctIds(list) && i < |list| && list[i].id == m.id
    ensures Entries(list[i := m]) == Entries(list)[m.id := m.value] && DistinctIds(list[i := m])
    decreases |list|
  {
    var n := |list| - 1;
    var next := list[i := m];
    DistinctPrefix(list, n);
    assert IsNewId(list, n);
    if i < n {
      UpdateEntry(list[..n], i, m);
      assert next[..n] == list[..n][i := m];
      EntryAt(list[..n], i);
      AppendEntry(next[..n], list[n]);
      assert next == next[..n] + [list[n]];
    } else {
      assert next == list[..n] + [m];
      AppendEntry(list[..n], m);
    }
  }

  function Remove<V>(list: seq<Entry<V>>, i: nat): seq<Entry<V>>
    requires i < |list|
  {
    list[..i] + list[i + 1..]
  }

  lemma RemoveBeforeLast<V>(list: seq<Entry<V>>, i: nat)
    requires i + 1 < |list|
    ensures Remove(list, i) == Remove(list[..|list| - 1], i) + [list[|list| - 1]]
  {}

  lemma DeleteBeforeLast<V>(init: seq<Entry<V>>, i: nat, last: Entry<V>)
    requires i < |init| && last.id !in Entries(init) && init[i].id in Entries(init)
    requires Entries(Remove(init, i)) == Entries(init) - {init[i].id} && DistinctIds(Remove(init, i))
    ensures Entries(Remove(init, i) + [last]) == Entries(init)[last.id := last.value] - {init[i].id}
    ensures DistinctIds(Remove(init, i) + [last])
  {
    AppendEntry(Remove(init, i), last);
  }

  lemma {:induction false} DeleteEntry<V>(list: seq<Entry<V>>, i: nat)
    requires DistinctIds(list) && i < |list|
    ensures Entries(Remove(list, i)) == Entries(list) - {list[i].id} && DistinctIds(Remove(list, i))
    decreases |list|
  {
    var n := |list| - 1;
    var init := list[..n];
    DistinctPrefix(list, n);
    assert IsNewId(list, n);
    if i < n {
      DeleteEntry(init, i);
      EntryAt(init, i);
      RemoveBeforeLast(list, i);
      DeleteBeforeLast(init, i, list[n]);
    } else {
      assert Remove(list, i) == init;
    }
  }

  lemma {:induction false} ReplaceEntry<V>(list: seq<Entry<V>>, i: nat, m: Entry<V>)
    requires DistinctIds(list) && i < |list| && m.id !in Entries(list)
    ensures Entries(list[i := m]) == (Entries(list) - {list[i].id})[m.id := m.value] && DistinctIds(list[i := m])
    decreases |list|
  {
    var n := |list| - 1;
    var next := list[i := m];
    DistinctPrefix(list, n);
    assert IsNewId(list, n);
    if i < n {
      ReplaceEntry(list[..n], i, m);
      assert next[..n] == list[..n][i := m];
      EntryAt(list[..n], i);
      AppendEntry(next[..n], list[n]);
      assert next == next[..n] + [list[n]];
    } else {
      assert next == list[..n] + [m];
      AppendEntry(list[..n], m);
    }
  }

  method FindEntry<V>(list: seq<Entry<V>>, id: int) returns (r: Option<nat>)
    ensures r.Some? ==> r.value < |list| && list[r.value].id == id
    ensures r.None? <==> id !in Entries(list)
  {
    EntryMissing(list, id);
    for i := 0 to |list|
      invariant forall j | 0 <= j < i :: list[j].id != id
    {
      if list[i].id == id {
        return Some(i);
      }
    }
    r := None;
  }

  datatype Contents = Contents(body: Body, methods: seq<Entry<Info>>)

  function RowOf(c: Contents): Row {
    Row(c.body, Entries(c.methods))
  }

  function Rows(m: map<int, Contents>): Table {
    map rid | rid in m :: RowOf(m[rid])
  }

  lemma RowsUpdate(m: map<int, Contents>, rid: int, c: Contents)
    ensures Rows(m[rid := c]) == Rows(m)[rid := RowOf(c)]
  {}

  lemma RowsDelete(m: map<int, Contents>, rid: int)
    ensures Rows(m - {rid}) == Rows(m) - {rid}
  {}

  // Every resource once, and every method of a resource once.
  ghost predicate IsView(resources: seq<Entry<Contents>>) {
    DistinctIds(resources) && forall rid | rid in Entries(resources) :: DistinctIds(Entries(resources)[rid].methods)
  }

  // Every method of a rebuilt table comes from the list.
  lemma {:induction false} RebuiltIsListed(resources: map<int, Body>, list: seq<MethodEntry>, rid: int, mid: int)
    requires var t := AddMethods(Bare(resources), list); rid in t && mid in t[rid].methods
    ensures (rid, mid) in Listed(list)
  {
    if list != [] {
      var before, e := list[..|list| - 1], list[|list| - 1];
      var t := AddMethods(Bare(resources), before);
      if rid in t && mid in t[rid].methods {
        RebuiltIsListed(resources, before, rid, mid);
      }
    }
  }

  // The first method of the list with that ID or that verb.
  method FindMethod(methods: seq<Entry<Info>>, mid: int, verb: string) returns (r: Option<nat>)
    ensures r.Some? ==> r.value < |methods| && (methods[r.value].id == mid || methods[r.value].value.verb == verb)
    ensures r.None? ==> forall j | 0 <= j < |methods| :: methods[j].id != mid && methods[j].value.verb != verb
  {
    for i := 0 to |methods|
      invariant forall j | 0 <= j < i :: methods[j].id != mid && methods[j].value.verb != verb
    {
      if methods[i].id == mid || methods[i].value.verb == verb {
        return Some(i);
      }
    }
    r := None;
  }

  lemma {:induction false} PlaceOf<V>(list: seq<Entry<V>>, id: int) returns (i: nat)
    requires DistinctIds(list) && id in Entries(list)
    ensures i < |list| && list[i].id == id && list[i].value == Entries(list)[id]
  {
    EntryMissing(list, id);
    i :| 0 <= i < |list| && list[i].id == id;
    EntryAt(list, i);
  }

  // The method list with one more method, which takes the place of one with its verb.
  method InsertMethod(methods: seq<Entry<Info>>, mid: int, info: Info) returns (next: seq<Entry<Info>>)
    requires DistinctIds(methods) && DistinctVerbs(Entries(methods)) && mid !in Entries(methods)
    ensures DistinctIds(next) && Entries(next) == WithoutVerb(Entries(methods), info.verb)[mid := info]
  {
    EntryMissing(methods, mid);
    var at := FindMethod(methods, mid, info.verb);
    var e := Entry(mid, info);
    if at.Some? {
      next := methods[at.value := e];
      ReplaceEntry(methods, at.value, e);
      EntryAt(methods, at.value);
      OneVerb(Entries(methods), methods[at.value].id);
    } else {
      next := methods + [e];
      AppendEntry(methods, e);
      NoVerb(methods, info.verb);
    }
  }

  lemma OneVerb(m: map<int, Info>, id: int)
    requires DistinctVerbs(m) && id in m
    ensures WithoutVerb(m, m[id].verb) == m - {id}
  {
    forall k | k in m ensures m[k].verb == m[id].verb <==> k == id {}
  }

  lemma NoVerb(methods: seq<Entry<Info>>, verb: string)
    requires DistinctIds(methods) && forall j | 0 <= j < |methods| :: methods[j].value.verb != verb
    ensures WithoutVerb(Entries(methods), verb) == Entries(methods)
  {
    forall m | m in Entries(methods) ensures Entries(methods)[m].verb != verb {
      var i := PlaceOf(methods, m);
    }
  }

  class View {
    var resources: seq<Entry<Contents>>

    ghost predicate Valid()
      reads this
    {
      IsView(resources)
    }

    // The resource and method table the list stands for.
    function Table(): Table
      reads this
    {
      Rows(Entries(resources))
    }

    constructor ()
      ensures Valid() && resources == [] && Table() == map[]
    {
      resources := [];
    }

    // Replaces the resource at i.
    method PutAt(i: nat, c: Contents)
      requires Valid() && i < |resources| && DistinctIds(c.methods)
      modifies this
      ensures Valid() && Table() == old(Table())[old(resources)[i].id := RowOf(c)]
    {
      var e := Entry(resources[i].id, c);
      UpdateEntry(resources, i, e);
      RowsUpdate(Entries(resources), e.id, c);
      resources := resources[i := e];
    }

    method Append(rid: int, c: Contents)
      requires Valid() && rid !in Table() && DistinctIds(c.methods)
      modifies this
      ensures Valid() && Table() == old(Table())[rid := RowOf(c)]
    {
      AppendEntry(resources, Entry(rid, c));
      RowsUpdate(Entries(resources), rid, c);
      resources := resources + [Entry(rid, c)];
    }

    // A resource put replaces all but the methods of a known resource.
    method MergeResource(rid: int, body: Body)
      requires Valid()
      modifies this
      ensures Valid() && Table() == Handle(old(Table()), PutResource(rid, body))
    {
      var found := FindEntry(resources, rid);
      if found.Some? {
        EntryAt(resources, found.value);
        PutAt(found.value, Contents(body, resources[found.value].value.methods));
      } else {
        Append(rid, Contents(body, []));
      }
    }

    // A method put replaces the method with its ID, or adds one; without a resource it is dropped.
    method MergeMethod(rid: int, mid: int, info: Info)
      requires Valid()
      modifies this
      ensures Valid() && Table() == Handle(old(Table()), PutMethod(rid, mid, info))
    {
      var found := FindEntry(resources, rid);
      if found.None? {
        return;
      }
      var i := found.value;
      EntryAt(resources, i);
      var c := resources[i].value;
      var at := FindEntry(c.methods, mid);
      if at.Some? {
        UpdateEntry(c.methods, at.value, Entry(mid, info));
        PutAt(i, c.(methods := c.methods[at.value := Entry(mid, info)]));
      } else {
        AppendEntry(c.methods, Entry(mid, info));
        PutAt(i, c.(methods := c.methods + [Entry(mid, info)]));
      }
    }

    method RemoveResource(rid: int)
      requires Valid()
      modifies this
      ensures Valid() && Table() == Handle(old(Table()), DeleteResource(rid))
    {
      var found := FindEntry(resources, rid);
      if found.Some? {
        var i := found.value;
        DeleteEntry(resources, i);
        RowsDelete(Entries(resources), rid);
        resources := resources[..i] + resources[i + 1..];
      }
    }

    method RemoveMethod(rid: int, mid: int)
      requires Valid()
      modifies this
      ensures Valid() && Table() == Handle(old(Table()), DeleteMethod(rid, mid))
    {
      var found := FindEntry(resources, rid);
      if found.None? {
        return;
      }
      var i := found.value;
      EntryAt(resources, i);
      var c := resources[i].value;
      var at := FindEntry(c.methods, mid);
      if at.Some? {
        var k := at.value;
        DeleteEntry(c.methods, k);
        PutAt(i, c.(methods := c.methods[..k] + c.methods[k + 1..]));
      } else {
        assert Entries(c.methods) - {mid} == Entries(c.methods);
        assert Table()[rid] == RowOf(c);
        assert Handle(Table(), DeleteMethod(rid, mid)) == Table();
      }
    }

    // One method of the key-value list, during a rebuild.
    method LoadMethod(e: MethodEntry)
      requires Valid()
      requires e.rid in Table() ==> DistinctVerbs(Table()[e.rid].methods) && e.mid !in Table()[e.rid].methods
      modifies this
      ensures Valid() && Table() == AddMethod(old(Table()), e)
    {
      var found := FindEntry(resources, e.rid);
      if found.Some? {
        var i := found.value;
        EntryAt(resources, i);
        var c := resources[i].value;
        var methods := InsertMethod(c.methods, e.mid, e.info);
        PutAt(i, c.(methods := methods));
      } else {
        AppendEntry([], Entry(e.mid, e.info));
        assert [] + [Entry(e.mid, e.info)] == [Entry(e.mid, e.info)];
        Append(e.rid, Contents(Body(e.info.resourcePath, ""), [Entry(e.mid, e.info)]));
      }
    }

    // The resources of the key-value list, into an empty configuration.
    method LoadResources(list: seq<Entry<Body>>)
      requires resources == []
      modifies this
      ensures Valid() && Table() == Bare(Entries(list))
    {
      for i := 0 to |list|
        invariant Valid() && Table() == Bare(Entries(list[..i]))
      {
        assert list[..i + 1][..i] == list[..i];
        MergeResource(list[i].id, list[i].value);
      }
      assert list[..|list|] == list;
    }

    /** A rebuild from the key-value list: resources first, then methods. */
    method Rebuild(resourceList: seq<Entry<Body>>, list: seq<MethodEntry>)
      requires forall i: nat | i < |list| :: IsFirst(list, i)
      modifies this
      ensures Valid() && Table() == AddMethods(Bare(Entries(resourceList)), list)
    {
      resources := [];
      LoadResources(resourceList);
      ghost var bodies := Entries(resourceList);
      for i := 0 to |list|
        invariant Valid() && Table() == AddMethods(Bare(bodies), list[..i])
      {
        assert IsFirst(list, i) && list[..i + 1][..i] == list[..i];
        RebuiltRows(bodies, list[..i]);
        assert list[i].rid in Table() && list[i].mid in Table()[list[i].rid].methods ==> false by {
          if list[i].rid in Table() && list[i].mid in Table()[list[i].rid].methods {
            RebuiltIsListed(bodies, list[..i], list[i].rid, list[i].mid);
          }
        }
        LoadMethod(list[i]);
      }
      assert list[..|list|] == list;
    }

    /** One watch event, on the list as on the table. */
    method HandleEvent(e: Event)
      requires Valid()
      modifies this
      ensures Valid() && Table() == Handle(old(Table()), e)
    {
      match e
      case PutResource(rid, body) => MergeResource(rid, body);
      case PutMethod(rid, mid, info) => MergeMethod(rid, mid, info);
      case DeleteResource(rid) => RemoveResource(rid);
      case DeleteMethod(rid, mid) => RemoveMethod(rid, mid);
    }
  }
}
