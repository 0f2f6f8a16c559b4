/**
 No two runtime Methods are one route to the router. The conflict checks compare
 a candidate whose verb is trimmed with stored routes whose paths are; a commit is
 steady when that makes no difference to the routes it changes.
 */
module RouteConflicts {
  import opened Options
  import opened Etcd
  import opened RouteStore
  import opened RouteProtocol
  import opened RouteInvariants
  import opened RouteTheorems

  function KeyOf(s: Schema, r: Route): string {
    s.routeKey(r.verb, r.path)
  }

  // The key that the conflict check looks a candidate up by.
  function CheckedKey(s: Schema, r: Route): string {
    s.routeKey(s.trim(r.verb), r.path)
  }

  // Trimming the verb leaves the route's key alone.
  predicate Stable(s: Schema, r: Route) {
    CheckedKey(s, r) == KeyOf(s, r)
  }

  ghost predicate Apart(s: Schema, routes: map<Key, Route>) {
    forall k, l | k in routes && l in routes && k != l :: KeyOf(s, routes[k]) != KeyOf(s, routes[l])
  }

  ghost predicate ConflictFree(s: Schema, v: Table)
    requires RuntimeDecodes(v)
  {
    Apart(s, RuntimeRoutes(s, v))
  }

  // What a transaction does to the runtime keys.
  ghost predicate RuntimeUpdate(v: Table, deletes: iset<Key>, puts: Table, next: Table) {
    forall k | Runtime(k) ::
      Lookup(next, k) == if k in puts then Some(puts[k]) else if k in deletes then None else Lookup(v, k)
  }

  lemma WriteUpdatesRuntime(st: KV, t: Change)
    ensures RuntimeUpdate(RuntimeTable(st), t.deletes, t.puts, RuntimeTable(Write(st, t)))
  {
  }

  /** Routes stay apart when those that changed are apart from all. */
  lemma StayApart(s: Schema, before: map<Key, Route>, after: map<Key, Route>, changed: set<Key>)
    requires Apart(s, before)
    requires forall k | k in after && k !in changed :: Lookup(before, k) == Some(after[k])
    requires forall k, l | k in after && l in after && k != l && k in changed :: KeyOf(s, after[k]) != KeyOf(s, after[l])
    ensures Apart(s, after)
  {
    forall k, l | k in after && l in after && k != l ensures KeyOf(s, after[k]) != KeyOf(s, after[l]) {
      if k !in changed && l !in changed {
        assert Lookup(before, k) == Some(after[k]) && Lookup(before, l) == Some(after[l]);
      } else if k in changed {
        assert KeyOf(s, after[k]) != KeyOf(s, after[l]);
      } else {
        assert KeyOf(s, after[l]) != KeyOf(s, after[k]);
      }
    }
  }

  // Every Method that is left, and its Resource, is as it was.
  ghost predicate Untouched(v: Table, next: Table) {
    forall k | k in next && k.MethodKey? ::
      Lookup(v, k) == Some(next[k]) && Lookup(v, ResourceKey(k.rid)) == Lookup(next, ResourceKey(k.rid))
  }

  lemma UntouchedKeeps(s: Schema, v: Table, next: Table)
    requires RuntimeDecodes(v) && RuntimeDecodes(next) && ConflictFree(s, v) && Untouched(v, next)
    ensures ConflictFree(s, next)
  {
    var before, after := RuntimeRoutes(s, v), RuntimeRoutes(s, next);
    forall k | k in after ensures Lookup(before, k) == Some(after[k]) {
      assert Lookup(v, k) == Some(next[k]) && ResourceOf(v, k.rid) == ResourceOf(next, k.rid);
    }
    StayApart(s, before, after, {});
  }

  // A Resource is deleted with all its Methods only.
  ghost predicate WholeTrees(deletes: iset<Key>) {
    forall k: Key | k.MethodKey? && ResourceKey(k.rid) in deletes :: k in deletes
  }

  lemma RemovalIsUntouched(v: Table, deletes: iset<Key>, puts: Table, next: Table)
    requires WholeTrees(deletes) && (forall k | k in puts :: !Runtime(k)) && RuntimeUpdate(v, deletes, puts, next)
    ensures Untouched(v, next)
  {
    forall k | k in next && k.MethodKey?
      ensures Lookup(v, k) == Some(next[k]) && Lookup(v, ResourceKey(k.rid)) == Lookup(next, ResourceKey(k.rid))
    {
      assert Runtime(k) && Runtime(ResourceKey(k.rid));
    }
  }

  // ---------------------------------------------------------------- binding publish

  // The Methods under the binding's Resource that its publication leaves there.
  predicate StaysBeside(c: CompiledBinding, published: Decoded, k: Key) {
    && k.MethodKey? && k.rid == c.rid && k != MethodKey(c.rid, c.mid)
    && !(published.Found? && k == MethodKey(published.binding.resourceId, published.binding.methodId))
  }

  // The candidate is checked by the key it will be stored with.
  predicate StableBinding(s: Schema, c: CompiledBinding) {
    s.routeKey(s.trim(c.route.m.verb), c.route.resource.path) == s.routeKey(c.route.m.verb, s.trim(c.route.m.path))
  }

  // And no Method that lives on its Resource's path is moved along.
  predicate SteadyBinding(s: Schema, c: CompiledBinding, published: Decoded, runtime: Table)
    requires RuntimeDecodes(runtime)
  {
    && StableBinding(s, c)
    && forall k | k in runtime && StaysBeside(c, published, k) ::
         HasPath(s, runtime[k].m)
         || (ResourceKey(c.rid) in runtime && runtime[ResourceKey(c.rid)].resource.path == c.route.resource.path)
  }

  lemma PublishKeepsOtherRoutes(s: Schema, v: Table, published: Decoded, c: CompiledBinding, name: string, g: int, next: Table, k: Key)
    requires RuntimeDecodes(v) && SteadyBinding(s, c, published, v)
    requires RuntimeDecodes(next) && RuntimeUpdate(v, Superseded(published, c), PublishPuts(name, c, g), next)
    requires k in RuntimeRoutes(s, next) && k != MethodKey(c.rid, c.mid)
    ensures Lookup(RuntimeRoutes(s, v), k) == Some(RuntimeRoutes(s, next)[k])
    ensures published.Found? ==> k != MethodKey(published.binding.resourceId, published.binding.methodId)
  {
    var res := ResourceKey(k.rid);
    assert Runtime(k) && Runtime(res);
    assert k in v && next[k] == v[k];
    if k.rid != c.rid {
      assert res !in PublishPuts(name, c, g);
      assert ResourceOf(next, k.rid) == ResourceOf(v, k.rid);
    } else {
      assert StaysBeside(c, published, k);
      assert ResourceOf(next, k.rid) == Some(c.route.resource);
    }
  }

  /** An accepted and steady publication of a binding keeps the routes apart. */
  lemma PublishKeepsRoutes(s: Schema, v: Table, published: Decoded, c: CompiledBinding, name: string, g: int, next: Table)
    requires RuntimeDecodes(v) && ConflictFree(s, v) && SteadyBinding(s, c, published, v) && HasPath(s, c.route.m)
    requires RouteIsFree(s, c, published, v)
    requires RuntimeDecodes(next) && RuntimeUpdate(v, Superseded(published, c), PublishPuts(name, c, g), next)
    ensures ConflictFree(s, next)
  {
    var own := MethodKey(c.rid, c.mid);
    var before, after := RuntimeRoutes(s, v), RuntimeRoutes(s, next);
    forall k | k in after && k != own
      ensures Lookup(before, k) == Some(after[k]) && KeyOf(s, after[k]) != s.routeKey(c.route.m.verb, s.trim(c.route.m.path))
    {
      PublishKeepsOtherRoutes(s, v, published, c, name, g, next, k);
      assert !Conflicts(s, Route(c.route.resource.path, c.route.m.verb), before[k]);
    }
    assert Runtime(own) && own in next && next[own] == MethodValue(c.route.m);
    assert own in after ==> after[own] == Route(s.trim(c.route.m.path), c.route.m.verb);
    StayApart(s, before, after, {own});
  }

  // ----------------------------------------------------------------- legacy publish

  // Every candidate is served as before, or the check sees the key it will be stored with.
  predicate SteadyCandidates(s: Schema, candidates: map<Key, Route>, existing: map<Key, Route>) {
    forall k | k in candidates :: Lookup(existing, k) == Some(candidates[k]) || Stable(s, candidates[k])
  }

  predicate SteadyStaging(s: Schema, puts: Table, runtime: Table)
    requires RuntimeWrites(puts) && RuntimeDecodes(runtime)
  {
    SteadyCandidates(s, LegacyCandidates(s, puts, runtime), RuntimeRoutes(s, runtime))
  }

  // The routes are the candidates and, for the rest, those that were there.
  ghost predicate Merges(existing: map<Key, Route>, candidates: map<Key, Route>, after: map<Key, Route>) {
    forall k | k in after :: Some(after[k]) == if k in candidates then Some(candidates[k]) else Lookup(existing, k)
  }

  lemma StagedRouteIsCandidate(s: Schema, v: Table, puts: Table, next: Table)
    requires RuntimeDecodes(v) && RuntimeWrites(puts) && RuntimeDecodes(next)
    requires RuntimeUpdate(v, iset{}, puts, next)
    ensures Merges(RuntimeRoutes(s, v), LegacyCandidates(s, puts, v), RuntimeRoutes(s, next))
  {
    var affected := set l | l in puts :: l.rid;
    forall k | k in RuntimeRoutes(s, next)
      ensures Some(RuntimeRoutes(s, next)[k]) == if k in LegacyCandidates(s, puts, v) then Some(LegacyCandidates(s, puts, v)[k])
                                                 else Lookup(RuntimeRoutes(s, v), k)
    {
      var res := ResourceKey(k.rid);
      assert Runtime(k) && Runtime(res);
      assert Lookup(next, k) == if k in puts then Some(puts[k]) else Lookup(v, k);
      assert Lookup(next, res) == if res in puts then Some(puts[res]) else Lookup(v, res);
      if k.rid in affected {
        assert k in LegacyMethods(puts, v) && LegacyMethods(puts, v)[k] == next[k].m;
      } else {
        assert k !in puts && res !in puts && k !in LegacyMethods(puts, v);
        assert ResourceOf(next, k.rid) == ResourceOf(v, k.rid);
      }
    }
  }

  lemma CandidatesApart(s: Schema, candidates: map<Key, Route>, existing: map<Key, Route>, k: Key, l: Key)
    requires Sound(s) && NoLegacyConflict(s, candidates, existing) && k != l && k in candidates && Stable(s, candidates[k])
    ensures l in existing ==> KeyOf(s, candidates[k]) != KeyOf(s, existing[l])
    ensures l in candidates && Stable(s, candidates[l]) ==> KeyOf(s, candidates[k]) != KeyOf(s, candidates[l])
  {
    if l in existing {
      assert !Conflicts(s, candidates[k], existing[l]);
    }
    if l in candidates && Stable(s, candidates[l]) {
      if s.before(l, k) {
        assert !Conflicts(s, candidates[k], candidates[l]);
      } else {
        assert s.before(k, l);
        assert !Conflicts(s, candidates[l], candidates[k]);
      }
    }
  }

  /** Where the check accepts steady candidates, the routes after the publish are apart. */
  lemma AcceptedCandidatesStayApart(s: Schema, candidates: map<Key, Route>, existing: map<Key, Route>, after: map<Key, Route>)
    requires Sound(s) && Apart(s, existing) && NoLegacyConflict(s, candidates, existing) && SteadyCandidates(s, candidates, existing)
    requires Merges(existing, candidates, after)
    ensures Apart(s, after)
  {
    var changed := set k | k in candidates && Lookup(existing, k) != Some(candidates[k]);
    forall k, l | k in after && l in after && k != l && k in changed ensures KeyOf(s, after[k]) != KeyOf(s, after[l]) {
      CandidatesApart(s, candidates, existing, k, l);
    }
    StayApart(s, existing, after, changed);
  }

  /** An accepted and steady legacy publish keeps the routes apart. */
  lemma LegacyPublishKeepsRoutes(s: Schema, v: Table, puts: Table, next: Table)
    requires Sound(s) && RuntimeDecodes(v) && ConflictFree(s, v) && RuntimeWrites(puts) && RuntimeDecodes(next)
    requires NoLegacyConflict(s, LegacyCandidates(s, puts, v), RuntimeRoutes(s, v)) && SteadyStaging(s, puts, v)
    requires RuntimeUpdate(v, iset{}, puts, next)
    ensures ConflictFree(s, next)
  {
    StagedRouteIsCandidate(s, v, puts, next);
    AcceptedCandidatesStayApart(s, LegacyCandidates(s, puts, v), RuntimeRoutes(s, v), RuntimeRoutes(s, next));
  }

  // --------------------------------------------------------------------- whole runs

  // What a commit must not do, said of what the client has read.
  ghost predicate Steady(s: Schema, op: Operation, r: Reads) {
    match op
    case Publish(name, _) =>
      var draft := Decode(r.draft, name);
      draft.Found? && CompileBinding(s, draft.binding).Some? && RuntimeDecodes(r.runtime) ==>
        SteadyBinding(s, CompileBinding(s, draft.binding).value, Decode(r.published, name), r.runtime)
    case LegacyPublish(puts, _, _) => RuntimeWrites(puts) && RuntimeDecodes(r.runtime) ==> SteadyStaging(s, puts, r.runtime)
    case _ => true
  }

  ghost predicate SteadyAction(s: Schema, sys: System, a: Action) {
    a.CommitTxn? && a.client in sys.clients && |sys.clients[a.client].seen| == ReadCount(sys.clients[a.client].op) ==>
      Steady(s, sys.clients[a.client].op, ReadsOf(sys.clients[a.client].op, sys.clients[a.client].seen))
  }

  // Every commit of the run is steady.
  ghost predicate SteadyRun(s: Schema, sys: System, actions: seq<Action>)
    decreases |actions|
  {
    actions != [] ==> SteadyAction(s, sys, actions[0]) && SteadyRun(s, Next(s, sys, actions[0]), actions[1..])
  }

  ghost predicate Clear(s: Schema, st: KV) {
    RuntimeDecodes(RuntimeTable(st)) && ConflictFree(s, RuntimeTable(st))
  }

  lemma RemovalKeepsClear(s: Schema, st: KV, t: Change)
    requires Clear(s, st) && Typed(Values(Write(st, t))) && WholeTrees(t.deletes) && forall k | k in t.puts :: !Runtime(k)
    ensures Clear(s, Write(st, t))
  {
    TablesFollowValues(Write(st, t));
    WriteUpdatesRuntime(st, t);
    RemovalIsUntouched(RuntimeTable(st), t.deletes, t.puts, RuntimeTable(Write(st, t)));
    UntouchedKeeps(s, RuntimeTable(st), RuntimeTable(Write(st, t)));
  }

  lemma BindingCommitKeepsClear(s: Schema, st: KV, published: Decoded, c: CompiledBinding, name: string, g: int, t: Change)
    requires Clear(s, st) && Typed(Values(Write(st, t))) && HasPath(s, c.route.m)
    requires t.deletes == Superseded(published, c) && t.puts == PublishPuts(name, c, g)
    requires RouteIsFree(s, c, published, RuntimeTable(st)) && SteadyBinding(s, c, published, RuntimeTable(st))
    ensures Clear(s, Write(st, t))
  {
    TablesFollowValues(Write(st, t));
    WriteUpdatesRuntime(st, t);
    PublishKeepsRoutes(s, RuntimeTable(st), published, c, name, g, RuntimeTable(Write(st, t)));
  }

  lemma UnpublishKeepsClear(s: Schema, st: KV, op: Operation, draft: Read)
    requires Clear(s, st) && op.Publish? && Decode(draft, op.name).Missing?
    requires PublishTxn(s, op.name, op.expected, ReadsAt(op, st).(draft := draft)).Some?
    requires Typed(Values(Write(st, PublishTxn(s, op.name, op.expected, ReadsAt(op, st).(draft := draft)).value)))
    ensures Clear(s, Write(st, PublishTxn(s, op.name, op.expected, ReadsAt(op, st).(draft := draft)).value))
  {
    RemovalKeepsClear(s, st, PublishTxn(s, op.name, op.expected, ReadsAt(op, st).(draft := draft)).value);
  }

  lemma PublishCommitKeepsClear(s: Schema, st: KV, op: Operation, draft: Read)
    requires Sound(s) && Typed(Values(st)) && Clear(s, st) && op.Publish?
    requires PublishTxn(s, op.name, op.expected, ReadsAt(op, st).(draft := draft)).Some?
    requires Steady(s, op, ReadsAt(op, st).(draft := draft))
    requires Typed(Values(Write(st, PublishTxn(s, op.name, op.expected, ReadsAt(op, st).(draft := draft)).value)))
    ensures Clear(s, Write(st, PublishTxn(s, op.name, op.expected, ReadsAt(op, st).(draft := draft)).value))
  {
    if Decode(draft, op.name).Missing? {
      UnpublishKeepsClear(s, st, op, draft);
    } else {
      PublishShape(s, st, op, draft);
      BindingCommitKeepsClear(s, st, Decode(Lookup(st.kvs, PublishedBinding(op.name)), op.name),
                              CompileBinding(s, Decode(draft, op.name).binding).value, op.name, Generation(Values(st)) + 1,
                              PublishTxn(s, op.name, op.expected, ReadsAt(op, st).(draft := draft)).value);
    }
  }

  lemma DeleteCommitKeepsClear(s: Schema, st: KV, op: Operation, r: Reads)
    requires Clear(s, st) && (op.Delete? || op.LegacyDelete?) && Plan(s, op, r).Some?
    requires Typed(Values(Write(st, Plan(s, op, r).value)))
    ensures Clear(s, Write(st, Plan(s, op, r).value))
  {
    RemovalKeepsClear(s, st, Plan(s, op, r).value);
  }

  lemma LegacyCommitKeepsClear(s: Schema, st: KV, op: Operation)
    requires Sound(s) && Typed(Values(st)) && Clear(s, st) && op.LegacyPublish? && Acceptable(op)
    requires Plan(s, op, ReadsAt(op, st)).Some? && Steady(s, op, ReadsAt(op, st))
    requires Typed(Values(Write(st, Plan(s, op, ReadsAt(op, st)).value)))
    ensures Clear(s, Write(st, Plan(s, op, ReadsAt(op, st)).value))
  {
    var t := Plan(s, op, ReadsAt(op, st)).value;
    LegacyPublishWrites(s, st, op);
    LegacyPublishChecked(s, st, op);
    TablesFollowValues(Write(st, t));
    WriteUpdatesRuntime(st, t);
    var v, next := RuntimeTable(st), RuntimeTable(Write(st, t));
    assert RuntimeUpdate(v, iset{}, op.puts, next) by {
      forall k | Runtime(k) ensures Lookup(next, k) == if k in op.puts then Some(op.puts[k]) else Lookup(v, k) {
        assert Guarded(k) && k !in op.additional;
      }
    }
    LegacyPublishKeepsRoutes(s, v, op.puts, next);
  }

  /** Whatever the interleaving, a steady commit keeps the routes apart. */
  lemma CommitKeepsClear(s: Schema, c: Client, st: KV)
    requires Sound(s) && WellFormed(st) && TableInvariant(s, Values(st)) && Clear(s, st)
    requires ClientInvariant(c, st) && |c.seen| == ReadCount(c.op) && Steady(s, c.op, ReadsOf(c.op, c.seen))
    ensures Clear(s, AfterCommit(s, c, st))
  {
    var r := ReadsOf(c.op, c.seen);
    var txn := Plan(s, c.op, r);
    if txn.Some? && AllHold(st, txn.value.compares) {
      ReadsAreCurrent(s, c, st);
      assert Typed(Values(Write(st, txn.value))) by { CommitKeepsTable(s, c, st); }
      match c.op
      case Publish(_, _) => PublishCommitKeepsClear(s, st, c.op, r.draft);
      case LegacyPublish(_, _, _) => LegacyCommitKeepsClear(s, st, c.op);
      case _ => DeleteCommitKeepsClear(s, st, c.op, r);
    }
  }

  lemma DraftWriteKeepsClear(s: Schema, st: KV, t: Change)
    requires Clear(s, st) && DraftOnly(t)
    ensures Clear(s, Commit(st, t))
  {
    assert RuntimeTable(Commit(st, t)) == RuntimeTable(st);
  }

  lemma NextKeepsClear(s: Schema, sys: System, a: Action)
    requires Sound(s) && Invariant(s, sys) && Clear(s, sys.store) && SteadyAction(s, sys, a)
    ensures Clear(s, Next(s, sys, a).store)
  {
    match a
    case CommitTxn(c) =>
      if c in sys.clients && |sys.clients[c].seen| == ReadCount(sys.clients[c].op) {
        CommitKeepsClear(s, sys.clients[c], sys.store);
      }
    case DraftWrite(t) => if DraftOnly(t) { DraftWriteKeepsClear(s, sys.store, t); }
    case _ =>
  }

  lemma {:induction false} RunKeepsClear(s: Schema, sys: System, actions: seq<Action>)
    requires Sound(s) && Invariant(s, sys) && Clear(s, sys.store) && SteadyRun(s, sys, actions)
    ensures Clear(s, Run(s, sys, actions).store)
    decreases |actions|
  {
    if actions != [] {
      NextKeepsInvariant(s, sys, actions[0]);
      NextKeepsClear(s, sys, actions[0]);
      RunKeepsClear(s, Next(s, sys, actions[0]), actions[1..]);
    }
  }

  /** No interleaving of steady commits ever leaves two runtime Methods serving one route. */
  lemma RoutesNeverConflict(s: Schema, sys: System, actions: seq<Action>)
    requires Sound(s) && Initial(sys) && Clear(s, sys.store) && SteadyRun(s, sys, actions)
    ensures var v := RuntimeTable(Run(s, sys, actions).store);
            && RuntimeDecodes(v)
            && var routes := RuntimeRoutes(s, v);
               forall k, l | k in routes && l in routes && k != l ::
                 s.routeKey(routes[k].verb, routes[k].path) != s.routeKey(routes[l].verb, routes[l].path)
  {
    InitialIsInvariant(s, sys);
    RunKeepsClear(s, sys, actions);
    var routes := RuntimeRoutes(s, RuntimeTable(Run(s, sys, actions).store));
    assert forall k, l | k in routes && l in routes && k != l :: KeyOf(s, routes[k]) != KeyOf(s, routes[l]);
  }
}
