/**
 The legacy conflict check trims the verb of a route it is about to write and
 leaves the verbs it finds in etcd alone. This module says exactly when that
 keeps two Methods from serving one route.
 */
module RouteVerbs {
  import opened Options
  import opened Etcd
  import opened RouteStore
  import opened RouteProtocol
  import opened RouteInvariants
  import opened RouteTheorems
  import opened RouteConflicts

  predicate OwnPaths(s: Schema, v: Table) {
    forall k | k in v && k.MethodKey? && v[k].MethodValue? :: HasPath(s, v[k].m)
  }

  // A store in order: every Method has a path of its own, and no two serve one route.
  ghost predicate InOrder(s: Schema, st: KV) {
    WellFormed(st) && Typed(Values(st)) && OwnPaths(s, Values(st)) && Clear(s, st)
  }

  function RouteOf(s: Schema, m: Method): Route {
    Route(s.trim(m.path), m.verb)
  }

  // ------------------------------------------------------------------- a publish alone

  function Staging(puts: Table): Operation {
    LegacyPublish(puts, map[], {})
  }

  // The store after one client published these writes with nobody else around.
  ghost function Published(s: Schema, puts: Table, st: KV): KV {
    AfterAlone(s, Staging(puts), st)
  }

  ghost predicate KeepsFrom(s: Schema, puts: Table, st: KV) {
    InOrder(s, st) ==> Clear(s, Published(s, puts, st))
  }

  predicate StagedPaths(s: Schema, puts: Table)
    requires RuntimeWrites(puts)
  {
    forall k | k in puts && k.MethodKey? :: HasPath(s, puts[k].m)
  }

  // The routes of the staged Methods.
  function StagedRoutes(s: Schema, puts: Table): map<Key, Route>
    requires RuntimeWrites(puts)
  {
    map k | k in puts && k.MethodKey? :: RouteOf(s, puts[k].m)
  }

  // The scan finds no staged route in the way of one that comes after it.
  predicate PassesScan(s: Schema, routes: map<Key, Route>) {
    forall k, l | k in routes && l in routes && k != l && s.before(l, k) :: CheckedKey(s, routes[k]) != KeyOf(s, routes[l])
  }

  // The key that the route is stored with is one that the check looks up for some route.
  predicate IsLookedUp(s: Schema, routes: map<Key, Route>, k: Key)
    requires k in routes
  {
    exists l | l in routes :: CheckedKey(s, routes[l]) == KeyOf(s, routes[k])
  }

  predicate Covered(s: Schema, routes: map<Key, Route>) {
    forall k {:trigger IsLookedUp(s, routes, k)} | k in routes :: IsLookedUp(s, routes, k)
  }

  lemma PublishedShape(s: Schema, puts: Table, st: KV)
    ensures var plan := Plan(s, Staging(puts), ReadsAt(Staging(puts), st));
            Published(s, puts, st) == if plan.Some? then Write(st, plan.value) else st
  {
    var plan := Plan(s, Staging(puts), ReadsAt(Staging(puts), st));
    if plan.Some? {
      assert plan.value.compares == {MarkerUnchanged(Lookup(st.kvs, Marker))};
    }
  }

  lemma UpdateDecodes(v: Table, puts: Table, next: Table)
    requires RuntimeDecodes(v) && RuntimeWrites(puts) && RuntimeUpdate(v, iset{}, puts, next) && forall k | k in next :: Runtime(k)
    ensures RuntimeDecodes(next)
  {
    forall k | k in next ensures (k.ResourceKey? ==> next[k].ResourceValue?) && (k.MethodKey? ==> next[k].MethodValue?) {
      assert Runtime(k);
      assert Lookup(next, k) == if k in puts then Some(puts[k]) else Lookup(v, k);
    }
  }

  lemma StagedPuts(s: Schema, puts: Table, st: KV)
    requires Plan(s, Staging(puts), ReadsAt(Staging(puts), st)).Some?
    ensures var t := Plan(s, Staging(puts), ReadsAt(Staging(puts), st)).value;
            t.deletes == iset{} && RuntimeWrites(puts)
            && forall k | Runtime(k) :: Lookup(t.puts, k) == Lookup(puts, k)
  {
  }

  lemma PublishedRuntime(s: Schema, puts: Table, st: KV)
    requires Typed(Values(st)) && Plan(s, Staging(puts), ReadsAt(Staging(puts), st)).Some?
    ensures RuntimeWrites(puts) && RuntimeDecodes(RuntimeTable(Published(s, puts, st)))
    ensures RuntimeUpdate(RuntimeTable(st), iset{}, puts, RuntimeTable(Published(s, puts, st)))
  {
    var t := Plan(s, Staging(puts), ReadsAt(Staging(puts), st)).value;
    StagedPuts(s, puts, st);
    assert Published(s, puts, st) == Write(st, t) by { PublishedShape(s, puts, st); }
    WriteUpdatesRuntime(st, t);
    var v, next := RuntimeTable(st), RuntimeTable(Write(st, t));
    forall k | Runtime(k) ensures Lookup(next, k) == if k in puts then Some(puts[k]) else Lookup(v, k) {
      assert Lookup(t.puts, k) == Lookup(puts, k);
    }
    assert RuntimeDecodes(v) by { TablesFollowValues(st); }
    UpdateDecodes(v, puts, next);
  }

  lemma StagedIsCandidate(s: Schema, puts: Table, runtime: Table, k: Key)
    requires RuntimeWrites(puts) && StagedPaths(s, puts) && RuntimeDecodes(runtime) && k in StagedRoutes(s, puts)
    ensures Lookup(LegacyCandidates(s, puts, runtime), k) == Some(StagedRoutes(s, puts)[k])
  {
    assert k.rid in (set l | l in puts :: l.rid);
    assert k in LegacyMethods(puts, runtime);
  }

  // --------------------------------------------------------- when the routes stay apart

  lemma ScanRefuses(s: Schema, puts: Table, st: KV)
    requires RuntimeWrites(puts) && StagedPaths(s, puts) && Typed(Values(st)) && !PassesScan(s, StagedRoutes(s, puts))
    ensures Plan(s, Staging(puts), ReadsAt(Staging(puts), st)).None?
  {
    var routes := StagedRoutes(s, puts);
    TablesFollowValues(st);
    var k, l :| k in routes && l in routes && k != l && s.before(l, k) && CheckedKey(s, routes[k]) == KeyOf(s, routes[l]);
    StagedIsCandidate(s, puts, RuntimeTable(st), k);
    StagedIsCandidate(s, puts, RuntimeTable(st), l);
    var candidates := LegacyCandidates(s, puts, RuntimeTable(st));
    assert Conflicts(s, candidates[k], candidates[l]);
    assert !NoLegacyConflict(s, candidates, RuntimeRoutes(s, RuntimeTable(st)));
  }

  // With every stored key looked up, nothing that is already there can have the key of a staged route.
  lemma CoveredIsNew(s: Schema, staged: map<Key, Route>, candidates: map<Key, Route>, existing: map<Key, Route>, k: Key, l: Key)
    requires NoLegacyConflict(s, candidates, existing) && Covered(s, staged) && k in staged && l in existing && l !in staged
    requires forall j | j in staged :: Lookup(candidates, j) == Some(staged[j])
    ensures KeyOf(s, staged[k]) != KeyOf(s, existing[l])
  {
    assert IsLookedUp(s, staged, k);
    var j :| j in staged && CheckedKey(s, staged[j]) == KeyOf(s, staged[k]);
    assert Lookup(candidates, j) == Some(staged[j]);
    assert !Conflicts(s, candidates[j], existing[l]);
  }

  lemma CoveredStaysApart(s: Schema, staged: map<Key, Route>, candidates: map<Key, Route>, existing: map<Key, Route>, after: map<Key, Route>)
    requires NoLegacyConflict(s, candidates, existing) && Covered(s, staged) && Apart(s, staged) && Apart(s, existing)
    requires forall j | j in staged :: Lookup(candidates, j) == Some(staged[j])
    requires Merges(existing, staged, after)
    ensures Apart(s, after)
  {
    forall k, l | k in after && l in after && k != l && k in staged ensures KeyOf(s, after[k]) != KeyOf(s, after[l]) {
      if l in staged {
        assert KeyOf(s, staged[k]) != KeyOf(s, staged[l]);
      } else {
        CoveredIsNew(s, staged, candidates, existing, k, l);
      }
    }
    StayApart(s, existing, after, staged.Keys);
  }

  // The routes after the publish: the staged ones, and what else was there.
  lemma RoutesAfter(s: Schema, puts: Table, v: Table, next: Table, k: Key)
    requires RuntimeWrites(puts) && StagedPaths(s, puts) && RuntimeDecodes(v) && RuntimeDecodes(next) && OwnPaths(s, v)
    requires RuntimeUpdate(v, iset{}, puts, next)
    ensures k in StagedRoutes(s, puts) ==> Lookup(RuntimeRoutes(s, next), k) == Some(StagedRoutes(s, puts)[k])
    ensures k !in puts ==> Lookup(RuntimeRoutes(s, next), k) == Lookup(RuntimeRoutes(s, v), k)
  {
    if Runtime(k) {
      assert Lookup(next, k) == if k in puts then Some(puts[k]) else Lookup(v, k);
    }
  }

  lemma RoutesMerge(s: Schema, puts: Table, v: Table, next: Table)
    requires RuntimeWrites(puts) && StagedPaths(s, puts) && RuntimeDecodes(v) && RuntimeDecodes(next) && OwnPaths(s, v)
    requires RuntimeUpdate(v, iset{}, puts, next)
    ensures Merges(RuntimeRoutes(s, v), StagedRoutes(s, puts), RuntimeRoutes(s, next))
  {
    var staged, before, after := StagedRoutes(s, puts), RuntimeRoutes(s, v), RuntimeRoutes(s, next);
    forall k | k in after ensures Some(after[k]) == if k in staged then Some(staged[k]) else Lookup(before, k) {
      RoutesAfter(s, puts, v, next, k);
    }
  }

  lemma CoveredKeeps(s: Schema, puts: Table, st: KV)
    requires RuntimeWrites(puts) && StagedPaths(s, puts) && InOrder(s, st)
    requires Covered(s, StagedRoutes(s, puts)) && Apart(s, StagedRoutes(s, puts))
    ensures Clear(s, Published(s, puts, st))
  {
    PublishedShape(s, puts, st);
    if Plan(s, Staging(puts), ReadsAt(Staging(puts), st)).Some? {
      LegacyPublishChecked(s, st, Staging(puts));
      PublishedRuntime(s, puts, st);
      var v, next := RuntimeTable(st), RuntimeTable(Published(s, puts, st));
      RoutesMerge(s, puts, v, next);
      forall j | j in StagedRoutes(s, puts) ensures Lookup(LegacyCandidates(s, puts, v), j) == Some(StagedRoutes(s, puts)[j]) {
        StagedIsCandidate(s, puts, v, j);
      }
      CoveredStaysApart(s, StagedRoutes(s, puts), LegacyCandidates(s, puts, v), RuntimeRoutes(s, v), RuntimeRoutes(s, next));
    }
  }

  // ------------------------------------------------------------- the failing inputs

  lemma {:induction false} FreshRid(puts: Table) returns (rid: int)
    requires RuntimeWrites(puts)
    ensures rid > 0 && forall k | k in puts :: k.rid < rid
    decreases |puts|
  {
    rid := 1;
    if puts != map[] {
      var k :| k in puts;
      rid := FreshRid(puts - {k});
      assert forall l | l in puts :: l == k || l in puts - {k};
      if rid <= k.rid {
        rid := k.rid + 1;
      }
    }
  }

  // An empty namespace, and one that holds one Method and nothing else.
  const EMPTY: KV := Store(map[], 0)

  function Only(k: Key, m: Method): KV {
    Store(map[k := Entry(MethodValue(m), 1, 1)], 1)
  }

  lemma EmptyIsInOrder(s: Schema)
    ensures InOrder(s, EMPTY) && RuntimeRoutes(s, RuntimeTable(EMPTY)) == map[]
  {
  }

  lemma OnlyIsInOrder(s: Schema, k: Key, m: Method)
    requires k.MethodKey? && HasPath(s, m)
    ensures InOrder(s, Only(k, m)) && RuntimeRoutes(s, RuntimeTable(Only(k, m))) == map[k := RouteOf(s, m)]
    ensures Initial(System(Only(k, m), map[]))
  {
  }

  // The candidates of a publish that touches no Resource in the store are its staged routes.
  lemma FreshCandidates(s: Schema, puts: Table, runtime: Table)
    requires RuntimeWrites(puts) && StagedPaths(s, puts) && RuntimeDecodes(runtime)
    requires forall k, l | k in puts && l in runtime && Runtime(l) :: k.rid != l.rid
    ensures LegacyCandidates(s, puts, runtime) == StagedRoutes(s, puts)
  {
    forall k ensures Lookup(LegacyCandidates(s, puts, runtime), k) == Lookup(StagedRoutes(s, puts), k) {
      if k in StagedRoutes(s, puts) {
        StagedIsCandidate(s, puts, runtime, k);
      }
    }
    assert forall k :: k in LegacyCandidates(s, puts, runtime) <==> k in StagedRoutes(s, puts);
    assert forall k | k in StagedRoutes(s, puts) ::
        Lookup(LegacyCandidates(s, puts, runtime), k) == Lookup(StagedRoutes(s, puts), k);
  }

  /**
   A publish is accepted when it touches no Resource in the store, no binding
   owns what it writes, and the check finds none of its routes served.
   */
  lemma FreshIsAccepted(s: Schema, puts: Table, st: KV)
    requires Typed(Values(st)) && AllMatch(s, Values(st)) && RuntimeDecodes(RuntimeTable(st))
    requires RuntimeWrites(puts) && puts != map[] && StagedPaths(s, puts) && PassesScan(s, StagedRoutes(s, puts))
    requires NextGeneration(Lookup(st.kvs, Marker)).Some?
    requires forall k, l | k in puts && l in RuntimeTable(st) && Runtime(l) :: k.rid != l.rid
    requires forall k, l | k in StagedRoutes(s, puts) && l in RuntimeRoutes(s, RuntimeTable(st)) ::
               CheckedKey(s, StagedRoutes(s, puts)[k]) != KeyOf(s, RuntimeRoutes(s, RuntimeTable(st))[l])
    ensures Plan(s, Staging(puts), ReadsAt(Staging(puts), st)).Some?
  {
    var runtime := RuntimeTable(st);
    TablesFollowValues(st);
    FreshCandidates(s, puts, runtime);
    var candidates := LegacyCandidates(s, puts, runtime);
    assert NoLegacyConflict(s, candidates, RuntimeRoutes(s, runtime));
    forall k | k in candidates ensures !Owned(PublishedTable(st), k) {
      NotOwned(s, puts, st, k);
    }
  }

  lemma NotOwned(s: Schema, puts: Table, st: KV, k: Key)
    requires Typed(Values(st)) && AllMatch(s, Values(st)) && BindingsDecode(PublishedTable(st)) && RuntimeWrites(puts) && k in puts
    requires forall k, l | k in puts && l in RuntimeTable(st) && Runtime(l) :: k.rid != l.rid
    ensures !Owned(PublishedTable(st), k)
  {
    forall b | b in PublishedTable(st)
      ensures k != MethodKey(PublishedTable(st)[b].binding.resourceId, PublishedTable(st)[b].binding.methodId)
    {
      var owned := MethodKey(Values(st)[b].binding.resourceId, Values(st)[b].binding.methodId);
      assert RuntimeMatches(s, Values(st), Values(st)[b].binding);
      assert owned in RuntimeTable(st) && Runtime(owned);
    }
  }

  // Two staged routes of one key that the scan lets through clash in an empty namespace.
  lemma ClashingStagingBreaks(s: Schema, puts: Table)
    requires RuntimeWrites(puts) && StagedPaths(s, puts) && PassesScan(s, StagedRoutes(s, puts)) && !Apart(s, StagedRoutes(s, puts))
    ensures !KeepsFrom(s, puts, EMPTY)
  {
    var staged := StagedRoutes(s, puts);
    var k, l :| k in staged && l in staged && k != l && KeyOf(s, staged[k]) == KeyOf(s, staged[l]);
    EmptyIsInOrder(s);
    FreshIsAccepted(s, puts, EMPTY);
    PublishedRuntime(s, puts, EMPTY);
    RoutesAfter(s, puts, RuntimeTable(EMPTY), RuntimeTable(Published(s, puts, EMPTY)), k);
    RoutesAfter(s, puts, RuntimeTable(EMPTY), RuntimeTable(Published(s, puts, EMPTY)), l);
  }

  lemma CopyIsServedTwice(s: Schema, puts: Table, k: Key, other: Key)
    requires RuntimeWrites(puts) && StagedPaths(s, puts) && PassesScan(s, StagedRoutes(s, puts))
    requires k in StagedRoutes(s, puts) && other.MethodKey? && forall l | l in puts :: l.rid != other.rid
    requires !IsLookedUp(s, StagedRoutes(s, puts), k)
    ensures !KeepsFrom(s, puts, Only(other, puts[k].m))
  {
    var st := Only(other, puts[k].m);
    OnlyIsInOrder(s, other, puts[k].m);
    assert AllMatch(s, Values(st));
    assert Plan(s, Staging(puts), ReadsAt(Staging(puts), st)).Some? by { FreshIsAccepted(s, puts, st); }
    PublishedRuntime(s, puts, st);
    SameKeyTwice(s, puts, RuntimeTable(st), RuntimeTable(Published(s, puts, st)), k, other);
  }

  lemma SameKeyTwice(s: Schema, puts: Table, v: Table, next: Table, k: Key, other: Key)
    requires RuntimeWrites(puts) && StagedPaths(s, puts) && RuntimeDecodes(v) && RuntimeDecodes(next) && OwnPaths(s, v)
    requires RuntimeUpdate(v, iset{}, puts, next) && k in StagedRoutes(s, puts) && other !in puts
    requires Lookup(RuntimeRoutes(s, v), other) == Some(StagedRoutes(s, puts)[k])
    ensures !ConflictFree(s, next)
  {
    RoutesAfter(s, puts, v, next, k);
    RoutesAfter(s, puts, v, next, other);
    assert Lookup(RuntimeRoutes(s, next), k) == Lookup(RuntimeRoutes(s, next), other);
  }

  /** Beside a copy of a staged Method whose stored key nobody looks up, the publish slips through and serves one route twice. */
  lemma UncoveredStagingBreaks(s: Schema, puts: Table) returns (st: KV)
    requires RuntimeWrites(puts) && StagedPaths(s, puts) && PassesScan(s, StagedRoutes(s, puts)) && !Covered(s, StagedRoutes(s, puts))
    ensures Initial(System(st, map[])) && !KeepsFrom(s, puts, st)
  {
    var staged := StagedRoutes(s, puts);
    var k :| k in staged && !IsLookedUp(s, staged, k);
    var rid := FreshRid(puts);
    st := Only(MethodKey(rid, 1), puts[k].m);
    OnlyIsInOrder(s, MethodKey(rid, 1), puts[k].m);
    CopyIsServedTwice(s, puts, k, MethodKey(rid, 1));
  }

  /**
   Exactly when the check protects the routes: publishing these writes keeps
   every store in order free of conflicts if and only if the scan refuses them
   everywhere, or the keys they are stored with are distinct and each of them is
   looked up by the check.
   */
  lemma PublishesKeepRoutesApartIff(s: Schema, puts: Table)
    requires RuntimeWrites(puts) && StagedPaths(s, puts)
    ensures var routes := StagedRoutes(s, puts);
            (forall st :: KeepsFrom(s, puts, st)) <==> !PassesScan(s, routes) || (Covered(s, routes) && Apart(s, routes))
  {
    var routes := StagedRoutes(s, puts);
    if !PassesScan(s, routes) {
      forall st ensures KeepsFrom(s, puts, st) {
        if InOrder(s, st) {
          PublishedShape(s, puts, st);
          ScanRefuses(s, puts, st);
        }
      }
    } else if Covered(s, routes) && Apart(s, routes) {
      forall st ensures KeepsFrom(s, puts, st) {
        if InOrder(s, st) { CoveredKeeps(s, puts, st); }
      }
    } else if !Apart(s, routes) {
      ClashingStagingBreaks(s, puts);
    } else {
      var st := UncoveredStagingBreaks(s, puts);
    }
  }

  /**
   Where only a stable route has a key that the check looks up, as it is with
   verbs that contain no slash, the condition is that every staged route is stable.
   */
  lemma StableStagingIsExact(s: Schema, puts: Table)
    requires Sound(s) && RuntimeWrites(puts) && StagedPaths(s, puts)
    requires var routes := StagedRoutes(s, puts);
             forall k, l | k in routes && l in routes && CheckedKey(s, routes[l]) == KeyOf(s, routes[k]) :: Stable(s, routes[k])
    ensures var routes := StagedRoutes(s, puts);
            (forall st :: KeepsFrom(s, puts, st)) <==> !PassesScan(s, routes) || AllStable(s, routes)
  {
    var routes := StagedRoutes(s, puts);
    PublishesKeepRoutesApartIff(s, puts);
    if PassesScan(s, routes) {
      if AllStable(s, routes) {
        StableIsCovered(s, routes);
        StableIsApart(s, routes);
      } else if Covered(s, routes) {
        CoveredIsStable(s, routes);
      }
    }
  }

  predicate AllStable(s: Schema, routes: map<Key, Route>) {
    forall k | k in routes :: Stable(s, routes[k])
  }

  lemma StableIsCovered(s: Schema, routes: map<Key, Route>)
    requires AllStable(s, routes)
    ensures Covered(s, routes)
  {
    forall k | k in routes ensures IsLookedUp(s, routes, k) {
      assert Stable(s, routes[k]);
    }
  }

  lemma StableIsApart(s: Schema, routes: map<Key, Route>)
    requires Sound(s) && PassesScan(s, routes) && AllStable(s, routes)
    ensures Apart(s, routes)
  {
    forall k, l | k in routes && l in routes && k != l ensures KeyOf(s, routes[k]) != KeyOf(s, routes[l]) {
      assert Stable(s, routes[k]) && Stable(s, routes[l]);
      assert s.before(l, k) <==> !s.before(k, l);
    }
  }

  lemma CoveredIsStable(s: Schema, routes: map<Key, Route>)
    requires Covered(s, routes)
    requires forall k, l | k in routes && l in routes && CheckedKey(s, routes[l]) == KeyOf(s, routes[k]) :: Stable(s, routes[k])
    ensures AllStable(s, routes)
  {
    forall k | k in routes ensures Stable(s, routes[k]) {
      assert IsLookedUp(s, routes, k);
    }
  }

  // ------------------------------------------------------------------ a failing run

  /**
   From any state of the invariant that serves a Method with an unstable verb,
   publishing a copy of that Method under an unused Resource is accepted, and two
   Methods then serve its route.
   */
  lemma UnstableVerbBreaksRoutes(s: Schema, sys: System, c: nat, k: Key, rid: int, mid: int)
    requires Invariant(s, sys) && c !in sys.clients && k in RuntimeTable(sys.store) && k.MethodKey?
    requires RuntimeDecodes(RuntimeTable(sys.store)) && NextGeneration(Lookup(sys.store.kvs, Marker)).Some?
    requires var m := RuntimeTable(sys.store)[k].m; HasPath(s, m) && !Stable(s, RouteOf(s, m))
    requires forall l | l in RuntimeTable(sys.store) && Runtime(l) :: l.rid != rid
    requires var routes := RuntimeRoutes(s, RuntimeTable(sys.store));
             forall l | l in routes :: KeyOf(s, routes[l]) != CheckedKey(s, RouteOf(s, RuntimeTable(sys.store)[k].m))
    ensures var copy := MethodKey(rid, mid);
            var v := RuntimeTable(Run(s, sys, Alone(c, Staging(map[copy := RuntimeTable(sys.store)[k]]))).store);
            && copy != k && RuntimeDecodes(v)
            && Lookup(RuntimeRoutes(s, v), k) == Lookup(RuntimeRoutes(s, v), copy) == Some(RouteOf(s, RuntimeTable(sys.store)[k].m))
  {
    var st, copy := sys.store, MethodKey(rid, mid);
    var puts := map[copy := RuntimeTable(st)[k]];
    assert copy in puts && RuntimeWrites(puts) && StagedPaths(s, puts);
    AloneRuns(s, sys, c, Staging(puts));
    assert Plan(s, Staging(puts), ReadsAt(Staging(puts), st)).Some? by { FreshIsAccepted(s, puts, st); }
    PublishedRuntime(s, puts, st);
    var v := RuntimeTable(Published(s, puts, st));
    assert Runtime(k) && Runtime(copy);
    assert Lookup(v, k) == Lookup(RuntimeTable(st), k) && Lookup(v, copy) == Some(puts[copy]);
  }
}
