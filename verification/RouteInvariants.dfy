/**
 What every reachable store satisfies: every published binding has the runtime
 it compiles to, under a Resource of its own, and the history tells the published
 state. This module proves that each committed transaction keeps these;
 RouteTheorems draws the conclusions for whole runs. Conflict freedom of the
 served routes has its own module, RouteConflicts.
 */
module RouteInvariants {
  import opened Options
  import opened Etcd
  import opened RouteStore
  import opened RouteProtocol

  ghost function Update(v: Table, deletes: iset<Key>, puts: Table): Table {
    map k | k in v.Keys + puts.Keys && (k in puts || k !in deletes) :: if k in puts then puts[k] else v[k]
  }

  lemma ValuesAfter(st: KV, t: Change)
    ensures Values(Write(st, t)) == Update(Values(st), t.deletes, t.puts)
  {
  }

  ghost predicate Typed(v: Table) {
    && (forall k | k in v && k.ResourceKey? :: v[k].ResourceValue?)
    && (forall k | k in v && k.MethodKey? :: v[k].MethodValue?)
    && (forall k | k in v && k.HistoryKey? :: v[k].HistoryValue?)
    && (forall k | k in v && k.PublishedBinding? :: v[k].BindingValue? && v[k].binding.obj.name == k.name)
    && (Marker in v ==> v[Marker].Number?)
  }

  // The runtime keys of a published binding hold exactly what its record compiles to.
  ghost predicate RuntimeMatches(s: Schema, v: Table, b: Binding) {
    && b.resourceId > 0 && b.methodId > 0
    && s.compile(b.obj).Some?
    && Lookup(v, ResourceKey(b.resourceId)) == Some(ResourceValue(s.compile(b.obj).value.resource))
    && Lookup(v, MethodKey(b.resourceId, b.methodId)) == Some(MethodValue(s.compile(b.obj).value.m))
  }

  ghost predicate AllMatch(s: Schema, v: Table)
    requires Typed(v)
  {
    forall k | k in v && k.PublishedBinding? :: RuntimeMatches(s, v, v[k].binding)
  }

  ghost predicate DistinctIds(v: Table)
    requires Typed(v)
  {
    forall k, l | k in v && l in v && k.PublishedBinding? && l.PublishedBinding? && k != l ::
      v[k].binding.resourceId != v[l].binding.resourceId
  }

  ghost function Generation(v: Table): int
    requires Typed(v)
  {
    if Marker in v then v[Marker].n else 0
  }

  ghost function PublishedAs(v: Table, name: string): Option<Binding>
    requires Typed(v)
  {
    if PublishedBinding(name) in v then Some(v[PublishedBinding(name)].binding) else None
  }

  ghost predicate IsNewest(v: Table, name: string, g: int) {
    && HistoryKey(name, g) in v
    && forall h | HistoryKey(name, h) in v :: h <= g
  }

  ghost predicate HistoryBounded(v: Table)
    requires Typed(v)
  {
    && Generation(v) >= 0
    && forall k | k in v && k.HistoryKey? :: 0 < k.generation <= Generation(v) && v[k].history.generation == k.generation
  }

  // The newest history entry of a name is its published record, or a tombstone if it has none.
  ghost predicate HistoryTells(v: Table)
    requires Typed(v)
  {
    forall name, g | IsNewest(v, name, g) :: v[HistoryKey(name, g)].history.binding == PublishedAs(v, name)
  }

  ghost predicate PublishedHaveHistory(v: Table) {
    forall k | k in v && k.PublishedBinding? :: exists g :: IsNewest(v, k.name, g)
  }

  ghost predicate HistoryInvariant(v: Table)
    requires Typed(v)
  {
    HistoryBounded(v) && HistoryTells(v) && PublishedHaveHistory(v)
  }

  ghost predicate TableInvariant(s: Schema, v: Table) {
    Typed(v) && AllMatch(s, v) && DistinctIds(v) && HistoryInvariant(v)
  }

  // ------------------------------------------------------------------ history

  // What a publishing transaction does to binding records and history.
  ghost predicate Records(v: Table, deletes: iset<Key>, puts: Table, name: string, binding: Option<Binding>)
    requires Typed(v)
  {
    var g := Generation(v) + 1;
    && Lookup(puts, HistoryKey(name, g)) == Some(HistoryValue(History(g, binding)))
    && Lookup(puts, Marker) == Some(Number(g))
    && (forall k | k in puts && k.HistoryKey? :: k == HistoryKey(name, g))
    && (forall k: Key | k in deletes :: !k.HistoryKey? && !k.Marker?)
    && (forall k | k in puts && k.PublishedBinding? :: k.name == name)
    && (forall k: Key | k in deletes && k.PublishedBinding? :: k.name == name)
    && Lookup(Update(v, deletes, puts), PublishedBinding(name))
       == (if binding.Some? then Some(BindingValue(binding.value)) else None)
  }

  lemma HistoryAdvances(v: Table, deletes: iset<Key>, puts: Table, name: string, binding: Option<Binding>)
    requires Typed(v) && HistoryInvariant(v) && Records(v, deletes, puts, name, binding) && Typed(Update(v, deletes, puts))
    ensures HistoryInvariant(Update(v, deletes, puts))
  {
    var g, next := Generation(v) + 1, Update(v, deletes, puts);
    assert IsNewest(next, name, g);
    assert HistoryBounded(next);
    forall other, h | other != name ensures IsNewest(next, other, h) <==> IsNewest(v, other, h) {
      assert forall j :: HistoryKey(other, j) in next <==> HistoryKey(other, j) in v;
    }
    forall k | k in next && k.PublishedBinding? ensures exists h :: IsNewest(next, k.name, h) {
      if k.name != name {
        assert k in v;
        var h :| IsNewest(v, k.name, h);
        assert IsNewest(next, k.name, h);
      }
    }
  }

  lemma HistoryStays(v: Table, next: Table)
    requires Typed(v) && HistoryInvariant(v) && Typed(next) && Generation(v) <= Generation(next)
    requires forall k: Key | k.HistoryKey? || k.PublishedBinding? :: Lookup(next, k) == Lookup(v, k)
    ensures HistoryInvariant(next)
  {
    assert forall k: Key | k.HistoryKey? || k.PublishedBinding? :: k in next <==> k in v;
    forall name, h ensures IsNewest(next, name, h) <==> IsNewest(v, name, h) {}
    forall k | k in next && k.PublishedBinding? ensures exists h :: IsNewest(next, k.name, h) {
      var h :| IsNewest(v, k.name, h);
      assert IsNewest(next, k.name, h);
    }
  }

  // ---------------------------------------------------------- owned runtime keys

  // The two runtime keys that a published binding writes.
  predicate Owns(b: Binding, k: Key) {
    k == ResourceKey(b.resourceId) || k == MethodKey(b.resourceId, b.methodId)
  }

  predicate Runtime(k: Key) {
    k.ResourceKey? || k.MethodKey?
  }

  // The transaction keeps clear of the runtime keys of all bindings but `name`.
  ghost predicate KeepsClear(v: Table, deletes: iset<Key>, puts: Table, name: Option<string>)
    requires Typed(v)
  {
    forall b, k: Key | b in v && b.PublishedBinding? && Some(b.name) != name && (k in puts || k in deletes) ::
      !Owns(v[b].binding, k)
  }

  lemma OthersStillMatch(s: Schema, v: Table, deletes: iset<Key>, puts: Table, name: Option<string>, b: Key)
    requires Typed(v) && AllMatch(s, v) && KeepsClear(v, deletes, puts, name)
    requires b in v && b.PublishedBinding? && Some(b.name) != name
    ensures RuntimeMatches(s, Update(v, deletes, puts), v[b].binding)
  {
    assert RuntimeMatches(s, v, v[b].binding);
  }

  lemma OthersStayIntact(s: Schema, v: Table, deletes: iset<Key>, puts: Table, name: Option<string>)
    requires Typed(v) && AllMatch(s, v) && KeepsClear(v, deletes, puts, name)
    requires forall k: Key | k.PublishedBinding? && (k in puts || k in deletes) :: Some(k.name) == name
    ensures var next := Update(v, deletes, puts);
            forall k | k in next && k.PublishedBinding? && Some(k.name) != name ::
              k in v && next[k] == v[k] && RuntimeMatches(s, next, v[k].binding)
  {
    var next := Update(v, deletes, puts);
    forall k | k in next && k.PublishedBinding? && Some(k.name) != name
      ensures k in v && next[k] == v[k] && RuntimeMatches(s, next, v[k].binding)
    {
      assert k !in puts;
      OthersStillMatch(s, v, deletes, puts, name, k);
    }
  }

  // ------------------------------------------------------------- the operations

  lemma TombstoneIsTyped(v: Table, deletes: iset<Key>, name: string, g: int)
    requires Typed(v)
    ensures Typed(Update(v, deletes, Tombstone(name, g)))
  {
  }

  ghost predicate Unpublishes(v: Table, deletes: iset<Key>, name: string)
    requires Typed(v)
  {
    && (forall k: Key | k in deletes :: !k.HistoryKey? && !k.Marker? && (k.PublishedBinding? ==> k.name == name))
    && (PublishedBinding(name) in v ==> PublishedBinding(name) in deletes)
    && (forall k: Key | k in deletes && Runtime(k) ::
          PublishedBinding(name) in v && k.rid == v[PublishedBinding(name)].binding.resourceId)
  }

  lemma TombstoneKeepsRuntime(s: Schema, v: Table, deletes: iset<Key>, name: string, g: int)
    requires Typed(v) && AllMatch(s, v) && DistinctIds(v) && Unpublishes(v, deletes, name)
    requires Typed(Update(v, deletes, Tombstone(name, g)))
    ensures AllMatch(s, Update(v, deletes, Tombstone(name, g))) && DistinctIds(Update(v, deletes, Tombstone(name, g)))
  {
    assert KeepsClear(v, deletes, Tombstone(name, g), Some(name));
    OthersStayIntact(s, v, deletes, Tombstone(name, g), Some(name));
    assert forall k | k in Update(v, deletes, Tombstone(name, g)) && k.PublishedBinding? :: k.name != name;
  }

  lemma TombstoneKeepsInvariant(s: Schema, v: Table, deletes: iset<Key>, name: string)
    requires TableInvariant(s, v) && Unpublishes(v, deletes, name)
    ensures TableInvariant(s, Update(v, deletes, Tombstone(name, Generation(v) + 1)))
  {
    var puts := Tombstone(name, Generation(v) + 1);
    TombstoneIsTyped(v, deletes, name, Generation(v) + 1);
    HistoryAdvances(v, deletes, puts, name, None);
    TombstoneKeepsRuntime(s, v, deletes, name, Generation(v) + 1);
  }

  lemma PublishIsTyped(v: Table, published: Decoded, c: CompiledBinding, name: string, g: int)
    requires Typed(v) && c.obj.name == name
    ensures Typed(Update(v, Superseded(published, c), PublishPuts(name, c, g)))
  {
  }

  lemma PublishKeepsClear(v: Table, published: Decoded, c: CompiledBinding, name: string, g: int)
    requires Typed(v) && DistinctIds(v)
    requires published.Found? ==> PublishedAs(v, name) == Some(published.binding)
    requires forall k | k in v && k.PublishedBinding? && k.name != name :: v[k].binding.resourceId != c.rid
    ensures KeepsClear(v, Superseded(published, c), PublishPuts(name, c, g), Some(name))
  {
  }

  lemma PublishKeepsRuntime(s: Schema, v: Table, published: Decoded, c: CompiledBinding, name: string, g: int)
    requires Typed(v) && AllMatch(s, v) && DistinctIds(v)
    requires c.obj.name == name && s.compile(c.obj) == Some(c.route) && c.rid > 0 && c.mid > 0
    requires published.Found? ==> PublishedAs(v, name) == Some(published.binding)
    requires forall k | k in v && k.PublishedBinding? && k.name != name :: v[k].binding.resourceId != c.rid
    ensures var next := Update(v, Superseded(published, c), PublishPuts(name, c, g));
            Typed(next) && AllMatch(s, next) && DistinctIds(next)
  {
    PublishIsTyped(v, published, c, name, g);
    PublishKeepsClear(v, published, c, name, g);
    var deletes, puts := Superseded(published, c), PublishPuts(name, c, g);
    OthersStayIntact(s, v, deletes, puts, Some(name));
    var next := Update(v, deletes, puts);
    assert next[PublishedBinding(name)].binding == Binding(c.obj, c.rid, c.mid);
    assert RuntimeMatches(s, next, Binding(c.obj, c.rid, c.mid));
    assert forall k | k in next && k.PublishedBinding? && k.name == name :: k == PublishedBinding(name);
  }

  lemma PublishKeepsHistory(v: Table, published: Decoded, c: CompiledBinding, name: string)
    requires Typed(v) && HistoryInvariant(v) && c.obj.name == name
    ensures var next := Update(v, Superseded(published, c), PublishPuts(name, c, Generation(v) + 1));
            Typed(next) && HistoryInvariant(next)
  {
    PublishIsTyped(v, published, c, name, Generation(v) + 1);
    HistoryAdvances(v, Superseded(published, c), PublishPuts(name, c, Generation(v) + 1), name, Some(Binding(c.obj, c.rid, c.mid)));
  }

  lemma PublishKeepsInvariant(s: Schema, v: Table, published: Decoded, c: CompiledBinding, name: string)
    requires TableInvariant(s, v)
    requires c.obj.name == name && s.compile(c.obj) == Some(c.route) && c.rid > 0 && c.mid > 0
    requires published.Found? ==> PublishedAs(v, name) == Some(published.binding)
    requires forall k | k in v && k.PublishedBinding? && k.name != name :: v[k].binding.resourceId != c.rid
    ensures TableInvariant(s, Update(v, Superseded(published, c), PublishPuts(name, c, Generation(v) + 1)))
  {
    var g := Generation(v) + 1;
    PublishKeepsRuntime(s, v, published, c, name, g);
    PublishKeepsHistory(v, published, c, name);
  }

  // The keys of a legacy publish outside the runtime namespace: drafts, and the marker.
  ghost predicate Aside(v: Table, puts: Table)
    requires Typed(v)
  {
    && Lookup(puts, Marker) == Some(Number(Generation(v) + 1))
    && forall k | k in puts :: k.Marker? || !Guarded(k)
  }

  lemma LegacyPublishIsTyped(v: Table, puts: Table, aside: Table)
    requires Typed(v) && RuntimeWrites(puts) && Aside(v, aside)
    ensures Typed(Update(v, iset{}, puts + aside))
  {
  }

  lemma LegacyPublishKeepsRuntime(s: Schema, v: Table, puts: Table, aside: Table)
    requires Typed(v) && AllMatch(s, v) && DistinctIds(v) && RuntimeWrites(puts) && Aside(v, aside)
    requires KeepsClear(v, iset{}, puts, None) && Typed(Update(v, iset{}, puts + aside))
    ensures AllMatch(s, Update(v, iset{}, puts + aside)) && DistinctIds(Update(v, iset{}, puts + aside))
  {
    assert KeepsClear(v, iset{}, puts + aside, None);
    OthersStayIntact(s, v, iset{}, puts + aside, None);
  }

  lemma LegacyPublishKeepsInvariant(s: Schema, v: Table, puts: Table, aside: Table)
    requires TableInvariant(s, v) && RuntimeWrites(puts) && Aside(v, aside)
    requires KeepsClear(v, iset{}, puts, None)
    ensures TableInvariant(s, Update(v, iset{}, puts + aside))
  {
    LegacyPublishIsTyped(v, puts, aside);
    HistoryStays(v, Update(v, iset{}, puts + aside));
    LegacyPublishKeepsRuntime(s, v, puts, aside);
  }

  lemma RemovalKeepsRuntime(s: Schema, v: Table, deletes: iset<Key>, g: int)
    requires Typed(v) && AllMatch(s, v) && DistinctIds(v) && KeepsClear(v, deletes, map[], None)
    requires forall k: Key | k in deletes :: Runtime(k)
    ensures var next := Update(v, deletes, map[Marker := Number(g)]); Typed(next) && AllMatch(s, next) && DistinctIds(next)
  {
    assert KeepsClear(v, deletes, map[Marker := Number(g)], None);
    OthersStayIntact(s, v, deletes, map[Marker := Number(g)], None);
  }

  lemma RemovalKeepsInvariant(s: Schema, v: Table, deletes: iset<Key>)
    requires TableInvariant(s, v) && KeepsClear(v, deletes, map[], None)
    requires forall k: Key | k in deletes :: Runtime(k)
    ensures TableInvariant(s, Update(v, deletes, map[Marker := Number(Generation(v) + 1)]))
  {
    var next := Update(v, deletes, map[Marker := Number(Generation(v) + 1)]);
    RemovalKeepsRuntime(s, v, deletes, Generation(v) + 1);
    HistoryStays(v, next);
  }

  lemma GuardedAlikeKeepsInvariant(s: Schema, v: Table, next: Table)
    requires TableInvariant(s, v)
    requires forall k | Guarded(k) :: Lookup(next, k) == Lookup(v, k)
    ensures TableInvariant(s, next)
  {
    assert forall k | Guarded(k) :: (k in next <==> k in v) && (k in v ==> next[k] == v[k]);
    HistoryStays(v, next);
    forall k | k in next && k.PublishedBinding? ensures RuntimeMatches(s, next, next[k].binding) {
      assert RuntimeMatches(s, v, v[k].binding);
    }
  }
}
