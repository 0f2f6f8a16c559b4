/**
 Keys and values of the Admin etcd namespace, and the transactions that the
 four publishing operations build from what they read: publish and delete of an
 AdminRouteBinding, and publish and delete of legacy Resources and Methods.
 */
module RouteStore {
  import opened Options
  import opened Etcd

  datatype AdminObject = AdminObject(name: string, spec: string)

  datatype Binding = Binding(obj: AdminObject, resourceId: int, methodId: int)

  datatype Resource = Resource(path: string, body: string)

  datatype Method = Method(path: string, verb: string, body: string)

  datatype History = History(generation: int, binding: Option<Binding>)

  datatype Key =
    | DraftBinding(name: string)
    | PublishedBinding(name: string)
    | ResourceKey(rid: int)
    | MethodKey(rid: int, mid: int)
    | HistoryKey(name: string, generation: int)
    | Marker
    | DraftKey(path: string)

  datatype Value =
    | BindingValue(binding: Binding)
    | ResourceValue(resource: Resource)
    | MethodValue(m: Method)
    | HistoryValue(history: History)
    | Number(n: int)
    | Text(text: string)

  type KV = Store<Key, Value>
  type Change = Txn<Key, Value>
  type Read = Option<Entry<Value>>
  // Stored values without their revisions.
  type Table = map<Key, Value>

  datatype Compiled = Compiled(resource: Resource, m: Method)

  // What lives in the schema package and in the string helpers, and the order
  // of keys as strings; every result holds for every choice that meets Sound.
  datatype Schema = Schema(
    normalize: AdminObject -> Option<AdminObject>,
    compile: AdminObject -> Option<Compiled>,
    trim: string -> string,
    routeKey: (string, string) -> string,
    before: (Key, Key) -> bool)

  // A Method with a path of its own, which is what it is served under.
  predicate HasPath(s: Schema, m: Method) {
    s.trim(m.path) != ""
  }

  // A Resource whose path does not start with a slash does not enter the path table.
  predicate HasRoot(r: Resource) {
    r.path != "" && r.path[0] == '/'
  }

  // Normalising keeps the name; a compiled Method has its Resource's path, which
  // starts with a slash and is not all space; the key order is strict and total.
  ghost predicate Sound(s: Schema) {
    && (forall o: AdminObject :: s.normalize(o).Some? ==> s.normalize(o).value.name == o.name)
    && (forall o: AdminObject :: s.compile(o).Some? ==>
          var c := s.compile(o).value; c.m.path == c.resource.path && HasRoot(c.resource) && HasPath(s, c.m))
    && (forall k: Key, l: Key | k != l :: s.before(k, l) <==> !s.before(l, k))
  }

  // The keys that only a transaction which also moves the generation marker writes.
  predicate Guarded(k: Key) {
    k.PublishedBinding? || k.ResourceKey? || k.MethodKey? || k.HistoryKey? || k.Marker?
  }

  function Part(s: KV): map<Key, Entry<Value>> {
    map k | k in s.kvs && Guarded(k) :: s.kvs[k]
  }

  function Values(s: KV): Table {
    map k | k in s.kvs :: s.kvs[k].value
  }

  function PublishedTable(s: KV): Table {
    map k | k in s.kvs && k.PublishedBinding? :: s.kvs[k].value
  }

  function RuntimeTable(s: KV): Table {
    map k | k in s.kvs && (k.ResourceKey? || k.MethodKey?) :: s.kvs[k].value
  }

  // The Resource key and everything below it.
  ghost function Tree(rid: int): iset<Key> {
    iset k: Key | (k.ResourceKey? || k.MethodKey?) && k.rid == rid
  }

  datatype Decoded = Missing | Malformed | Found(binding: Binding, revision: nat)

  function Decode(e: Read, name: string): Decoded {
    if e.None? then Missing
    else if e.value.value.BindingValue? && e.value.value.binding.obj.name == name
    then Found(e.value.value.binding, e.value.modRevision)
    else Malformed
  }

  const MAX_GENERATION := 0x7fff_ffff_ffff_ffff

  function NextGeneration(e: Read): Option<int> {
    if e.None? then Some(1)
    else if e.value.value.Number? && 0 <= e.value.value.n != MAX_GENERATION then Some(e.value.value.n + 1)
    else None
  }

  predicate BindingsDecode(bindings: Table) {
    forall k | k in bindings ::
      k.PublishedBinding? && bindings[k].BindingValue? && bindings[k].binding.obj.name == k.name
  }

  predicate RuntimeDecodes(runtime: Table) {
    forall k | k in runtime ::
      (k.ResourceKey? ==> runtime[k].ResourceValue?) && (k.MethodKey? ==> runtime[k].MethodValue?)
  }

  // What one read of each kind returned, for the operations that perform it.
  datatype Reads = Reads(
    marker: Read,
    generation: Read,
    draft: Read,
    published: Read,
    bindings: Table,
    runtime: Table)

  function MarkerUnchanged(marker: Read): Compare<Key> {
    if marker.Some? then ModRevisionIs(Marker, marker.value.modRevision) else IsAbsent(Marker)
  }

  function PublishCompares(name: string, r: Reads): set<Compare<Key>> {
    (match r.draft
     case Some(d) =>
       {ModRevisionIs(DraftBinding(name), d.modRevision),
        if r.published.Some? then ModRevisionIs(PublishedBinding(name), r.published.value.modRevision)
        else IsAbsent(PublishedBinding(name))}
     case None =>
       if r.published.Some? then {ModRevisionIs(PublishedBinding(name), r.published.value.modRevision)} else {})
    + {MarkerUnchanged(r.marker)}
  }

  datatype CompiledBinding = CompiledBinding(obj: AdminObject, rid: int, mid: int, route: Compiled)

  function CompileBinding(s: Schema, b: Binding): Option<CompiledBinding> {
    if b.resourceId <= 0 || b.methodId <= 0 then None
    else
      match s.normalize(b.obj)
      case None => None
      case Some(o) =>
        match s.compile(o)
        case None => None
        case Some(c) => Some(CompiledBinding(o, b.resourceId, b.methodId, c))
  }

  predicate SameRoute(s: Schema, a: CompiledBinding, b: CompiledBinding) {
    s.routeKey(a.route.m.verb, a.route.resource.path) == s.routeKey(b.route.m.verb, b.route.resource.path)
  }

  // Two bindings that can be published together.
  predicate Compatible(s: Schema, a: Binding, b: Binding) {
    && CompileBinding(s, a).Some? && CompileBinding(s, b).Some?
    && !SameRoute(s, CompileBinding(s, a).value, CompileBinding(s, b).value)
    && a.resourceId != b.resourceId
  }

  // The published bindings with this one replaced by its draft all compile and do not collide.
  predicate SnapshotCompiles(s: Schema, name: string, draft: Binding, bindings: Table)
    requires BindingsDecode(bindings)
  {
    && CompileBinding(s, draft).Some?
    && (forall k | k in bindings && k.name != name :: Compatible(s, bindings[k].binding, draft))
    && (forall k, l | k in bindings && l in bindings && k.name != name && l.name != name && k != l ::
          Compatible(s, bindings[k].binding, bindings[l].binding))
  }

  datatype Route = Route(path: string, verb: string)

  // The path a runtime Method is served under: its own, or its Resource's.
  function RuntimePath(s: Schema, m: Method, resource: Option<Resource>): string {
    if s.trim(m.path) != "" then s.trim(m.path)
    else if resource.Some? && HasRoot(resource.value) then resource.value.path
    else ""
  }

  predicate Conflicts(s: Schema, candidate: Route, existing: Route) {
    s.routeKey(existing.verb, existing.path) == s.routeKey(s.trim(candidate.verb), candidate.path)
  }

  function ResourceOf(runtime: Table, rid: int): Option<Resource>
    requires RuntimeDecodes(runtime)
  {
    if ResourceKey(rid) in runtime then Some(runtime[ResourceKey(rid)].resource) else None
  }

  // The routes of the Methods in a table, keyed by their etcd key.
  function RuntimeRoutes(s: Schema, runtime: Table): map<Key, Route>
    requires RuntimeDecodes(runtime)
  {
    map k | k in runtime && k.MethodKey? && RuntimePath(s, runtime[k].m, ResourceOf(runtime, k.rid)) != "" ::
      Route(RuntimePath(s, runtime[k].m, ResourceOf(runtime, k.rid)), runtime[k].m.verb)
  }

  predicate RouteIsFree(s: Schema, c: CompiledBinding, published: Decoded, runtime: Table)
    requires RuntimeDecodes(runtime)
  {
    var routes := RuntimeRoutes(s, runtime);
    forall k | k in routes ::
      (published.Found? && k == MethodKey(published.binding.resourceId, published.binding.methodId))
      || !Conflicts(s, Route(c.route.resource.path, c.route.m.verb), routes[k])
  }

  function PublishPuts(name: string, c: CompiledBinding, generation: int): Table {
    var binding := Binding(c.obj, c.rid, c.mid);
    map[ResourceKey(c.rid) := ResourceValue(c.route.resource),
        MethodKey(c.rid, c.mid) := MethodValue(c.route.m),
        PublishedBinding(name) := BindingValue(binding),
        HistoryKey(name, generation) := HistoryValue(History(generation, Some(binding))),
        Marker := Number(generation)]
  }

  // The runtime keys of the previous publication that the new one does not overwrite.
  ghost function Superseded(published: Decoded, c: CompiledBinding): iset<Key> {
    if !published.Found? then iset{}
    else if published.binding.resourceId != c.rid then Tree(published.binding.resourceId)
    else if published.binding.methodId != c.mid then iset{MethodKey(published.binding.resourceId, published.binding.methodId)}
    else iset{}
  }

  function Tombstone(name: string, generation: int): Table {
    map[HistoryKey(name, generation) := HistoryValue(History(generation, None)), Marker := Number(generation)]
  }

  ghost function PublishTxn(s: Schema, name: string, expected: int, r: Reads): Option<Change> {
    var draft, published, generation := Decode(r.draft, name), Decode(r.published, name), NextGeneration(r.generation);
    if expected < 0 || generation.None? || draft.Malformed? || published.Malformed? || (draft.Missing? && published.Missing?)
      || (expected > 0 && (draft.Missing? || draft.revision != expected)) || !BindingsDecode(r.bindings)
    then None
    else if draft.Missing? then
      Some(Txn(PublishCompares(name, r),
               Tree(published.binding.resourceId) + iset{PublishedBinding(name)},
               Tombstone(name, generation.value)))
    else if !SnapshotCompiles(s, name, draft.binding, r.bindings) || !RuntimeDecodes(r.runtime) then None
    else
      var c := CompileBinding(s, draft.binding).value;
      if !RouteIsFree(s, c, published, r.runtime) then None
      else Some(Txn(PublishCompares(name, r), Superseded(published, c), PublishPuts(name, c, generation.value)))
  }

  ghost function DeleteTxn(name: string, expected: int, r: Reads): Option<Change> {
    var draft, published, generation := Decode(r.draft, name), Decode(r.published, name), NextGeneration(r.generation);
    if expected < 0 || generation.None? || draft.Malformed? || published.Malformed? || (draft.Missing? && published.Missing?)
      || (expected > 0 && (draft.Missing? || draft.revision != expected))
      || (published.Found? && (published.binding.resourceId <= 0 || published.binding.methodId <= 0))
    then None
    else
      Some(Txn(PublishCompares(name, r),
               (if draft.Found? then iset{DraftBinding(name)} else iset{})
               + (if published.Found? then Tree(published.binding.resourceId) + iset{PublishedBinding(name)} else iset{}),
               Tombstone(name, generation.value)))
  }

  predicate RuntimeWrites(puts: Table) {
    forall k | k in puts ::
      (k.ResourceKey? && puts[k].ResourceValue?) || (k.MethodKey? && puts[k].MethodValue?)
  }

  // Staged Methods, and the existing Methods of every Resource the transaction writes to.
  function LegacyMethods(puts: Table, runtime: Table): map<Key, Method>
    requires RuntimeWrites(puts) && RuntimeDecodes(runtime)
  {
    var affected := set k | k in puts :: k.rid;
    map k | k in puts.Keys + runtime.Keys && k.MethodKey? && k.rid in affected ::
      if k in puts then puts[k].m else runtime[k].m
  }

  function LegacyCandidates(s: Schema, puts: Table, runtime: Table): map<Key, Route>
    requires RuntimeWrites(puts) && RuntimeDecodes(runtime)
  {
    var methods := LegacyMethods(puts, runtime);
    map k | k in methods && RuntimePath(s, methods[k], StagedResource(puts, runtime, k.rid)) != "" ::
      Route(RuntimePath(s, methods[k], StagedResource(puts, runtime, k.rid)), methods[k].verb)
  }

  function StagedResource(puts: Table, runtime: Table, rid: int): Option<Resource>
    requires RuntimeWrites(puts) && RuntimeDecodes(runtime)
  {
    if ResourceKey(rid) in puts && HasRoot(puts[ResourceKey(rid)].resource) then Some(puts[ResourceKey(rid)].resource)
    else ResourceOf(runtime, rid)
  }

  predicate Owned(bindings: Table, k: Key)
    requires BindingsDecode(bindings)
  {
    exists b | b in bindings ::
      k == MethodKey(bindings[b].binding.resourceId, bindings[b].binding.methodId)
  }

  // No candidate conflicts with an existing route, or with a candidate whose key comes before its own.
  predicate NoLegacyConflict(s: Schema, candidates: map<Key, Route>, existing: map<Key, Route>) {
    && (forall k, l | k in candidates && l in existing && k != l :: !Conflicts(s, candidates[k], existing[l]))
    && (forall k, l | k in candidates && l in candidates && k != l && s.before(l, k) :: !Conflicts(s, candidates[k], candidates[l]))
  }

  ghost function LegacyPublishTxn(
    s: Schema, puts: Table, additional: Table, compares: set<Compare<Key>>, r: Reads): Option<Change>
  {
    var generation := NextGeneration(r.generation);
    if puts == map[] || generation.None? || !RuntimeDecodes(r.runtime) || !RuntimeWrites(puts) || !BindingsDecode(r.bindings)
    then None
    else
      var candidates := LegacyCandidates(s, puts, r.runtime);
      if (exists k | k in candidates :: Owned(r.bindings, k))
        || !NoLegacyConflict(s, candidates, RuntimeRoutes(s, r.runtime))
      then None
      else Some(Txn(compares + {MarkerUnchanged(r.marker)}, iset{},
                    additional + puts + map[Marker := Number(generation.value)]))
  }

  ghost function LegacyDeleteTxn(rid: int, mid: Option<int>, r: Reads): Option<Change> {
    var generation := NextGeneration(r.generation);
    if generation.None? || !BindingsDecode(r.bindings) then None
    else if exists b | b in r.bindings ::
              r.bindings[b].binding.resourceId == rid
              && (mid.None? || r.bindings[b].binding.methodId == mid.value)
    then None
    else Some(Txn({MarkerUnchanged(r.marker)},
                  if mid.None? then Tree(rid) else iset{MethodKey(rid, mid.value)},
                  map[Marker := Number(generation.value)]))
  }
}
