/** The publication protocol's guarantees for every run of any number of clients. */
module RouteTheorems {
  import opened Options
  import opened Etcd
  import opened RouteStore
  import opened RouteProtocol
  import opened RouteInvariants

  ghost predicate Invariant(s: Schema, sys: System) {
    && WellFormed(sys.store) && TableInvariant(s, Values(sys.store))
    && forall c | c in sys.clients :: ClientInvariant(sys.clients[c], sys.store)
  }

  // A namespace with legacy routes only, before the first AdminRouteBinding is published.
  ghost predicate Initial(sys: System) {
    var v := Values(sys.store);
    && sys.clients == map[] && WellFormed(sys.store)
    && Typed(v) && Generation(v) >= 0
    && forall k | k in v :: !k.PublishedBinding? && !k.HistoryKey?
  }

  // -------------------------------------------- from the checks to what they establish

  lemma TablesFollowValues(st: KV)
    requires Typed(Values(st))
    ensures RuntimeDecodes(RuntimeTable(st)) && BindingsDecode(PublishedTable(st))
    ensures forall k | Runtime(k) :: (k in RuntimeTable(st) <==> k in Values(st)) && (k in Values(st) ==> RuntimeTable(st)[k] == Values(st)[k])
    ensures forall k: Key | k.PublishedBinding? ::
              (k in PublishedTable(st) <==> k in Values(st)) && (k in Values(st) ==> PublishedTable(st)[k] == Values(st)[k])
  {
  }

  lemma GenerationAdvances(st: KV)
    requires Typed(Values(st)) && NextGeneration(Lookup(st.kvs, Marker)).Some?
    ensures NextGeneration(Lookup(st.kvs, Marker)).value == Generation(Values(st)) + 1
  {
    assert Marker in st.kvs <==> Marker in Values(st);
  }

  lemma PublishedDecodes(st: KV, name: string)
    requires Typed(Values(st))
    ensures var d := Decode(Lookup(st.kvs, PublishedBinding(name)), name);
            !d.Malformed? && (d.Found? <==> PublishedBinding(name) in Values(st))
            && (d.Found? ==> PublishedAs(Values(st), name) == Some(d.binding))
  {
    assert PublishedBinding(name) in st.kvs <==> PublishedBinding(name) in Values(st);
  }

  // The transaction of a publish that found no draft.
  lemma UnpublishShape(s: Schema, st: KV, op: Operation, draft: Read)
    requires Typed(Values(st)) && op.Publish? && Decode(draft, op.name).Missing?
    requires PublishTxn(s, op.name, op.expected, ReadsAt(op, st).(draft := draft)).Some?
    ensures var t := PublishTxn(s, op.name, op.expected, ReadsAt(op, st).(draft := draft)).value;
            Unpublishes(Values(st), t.deletes, op.name) && t.puts == Tombstone(op.name, Generation(Values(st)) + 1)
  {
    GenerationAdvances(st);
    PublishedDecodes(st, op.name);
  }

  lemma CandidateIdIsNew(s: Schema, st: KV, name: string, b: Binding)
    requires Typed(Values(st)) && BindingsDecode(PublishedTable(st)) && SnapshotCompiles(s, name, b, PublishedTable(st))
    ensures var v := Values(st); forall k | k in v && k.PublishedBinding? && k.name != name :: v[k].binding.resourceId != b.resourceId
  {
    var v := Values(st);
    TablesFollowValues(st);
    forall k | k in v && k.PublishedBinding? && k.name != name ensures v[k].binding.resourceId != b.resourceId {
      assert Compatible(s, PublishedTable(st)[k].binding, b);
    }
  }

  // The transaction of a publish that found a draft.
  lemma PublishShape(s: Schema, st: KV, op: Operation, draft: Read)
    requires Sound(s) && Typed(Values(st)) && op.Publish? && Decode(draft, op.name).Found?
    requires PublishTxn(s, op.name, op.expected, ReadsAt(op, st).(draft := draft)).Some?
    ensures var t := PublishTxn(s, op.name, op.expected, ReadsAt(op, st).(draft := draft)).value;
            var published := Decode(Lookup(st.kvs, PublishedBinding(op.name)), op.name);
            var b := Decode(draft, op.name).binding;
            && CompileBinding(s, b).Some? && RuntimeDecodes(RuntimeTable(st)) && BindingsDecode(PublishedTable(st))
            && var c := CompileBinding(s, b).value;
            && t.deletes == Superseded(published, c) && t.puts == PublishPuts(op.name, c, Generation(Values(st)) + 1)
            && SnapshotCompiles(s, op.name, b, PublishedTable(st))
            && RouteIsFree(s, c, published, RuntimeTable(st))
  {
    GenerationAdvances(st);
    TablesFollowValues(st);
  }

  lemma DraftPublishKeeps(s: Schema, st: KV, op: Operation, published: Decoded, b: Binding)
    requires Sound(s) && TableInvariant(s, Values(st)) && op.Publish? && b.obj.name == op.name && CompileBinding(s, b).Some?
    requires published == Decode(Lookup(st.kvs, PublishedBinding(op.name)), op.name)
    requires BindingsDecode(PublishedTable(st)) && SnapshotCompiles(s, op.name, b, PublishedTable(st))
    ensures TableInvariant(s, Update(Values(st), Superseded(published, CompileBinding(s, b).value),
                                     PublishPuts(op.name, CompileBinding(s, b).value, Generation(Values(st)) + 1)))
  {
    PublishedDecodes(st, op.name);
    CandidateIdIsNew(s, st, op.name, b);
    PublishKeepsInvariant(s, Values(st), published, CompileBinding(s, b).value, op.name);
  }

  lemma PublishCommitKeeps(s: Schema, st: KV, op: Operation, draft: Read)
    requires Sound(s) && TableInvariant(s, Values(st)) && op.Publish?
    requires PublishTxn(s, op.name, op.expected, ReadsAt(op, st).(draft := draft)).Some?
    ensures var t := PublishTxn(s, op.name, op.expected, ReadsAt(op, st).(draft := draft)).value;
            TableInvariant(s, Update(Values(st), t.deletes, t.puts))
  {
    if Decode(draft, op.name).Missing? {
      UnpublishShape(s, st, op, draft);
      TombstoneKeepsInvariant(s, Values(st), PublishTxn(s, op.name, op.expected, ReadsAt(op, st).(draft := draft)).value.deletes, op.name);
    } else {
      PublishShape(s, st, op, draft);
      DraftPublishKeeps(s, st, op, Decode(Lookup(st.kvs, PublishedBinding(op.name)), op.name), Decode(draft, op.name).binding);
    }
  }

  lemma DeleteCommitKeeps(s: Schema, st: KV, op: Operation, draft: Read)
    requires TableInvariant(s, Values(st)) && op.Delete?
    requires DeleteTxn(op.name, op.expected, ReadsAt(op, st).(draft := draft)).Some?
    ensures var t := DeleteTxn(op.name, op.expected, ReadsAt(op, st).(draft := draft)).value;
            TableInvariant(s, Update(Values(st), t.deletes, t.puts))
  {
    var v, r := Values(st), ReadsAt(op, st).(draft := draft);
    var t := DeleteTxn(op.name, op.expected, r).value;
    assert PublishedBinding(op.name) in st.kvs <==> PublishedBinding(op.name) in v;
    assert NextGeneration(r.generation).value == Generation(v) + 1;
    TombstoneKeepsInvariant(s, v, t.deletes, op.name);
  }

  // The Method of a published binding is a candidate of every publish that touches its Resource.
  lemma OwnedMethodIsCandidate(s: Schema, st: KV, puts: Table, b: Binding, k: Key)
    requires Sound(s) && Typed(Values(st)) && RuntimeMatches(s, Values(st), b) && RuntimeWrites(puts)
    requires RuntimeDecodes(RuntimeTable(st)) && k in puts && k.rid == b.resourceId
    ensures MethodKey(b.resourceId, b.methodId) in LegacyCandidates(s, puts, RuntimeTable(st))
  {
    var owned, runtime := MethodKey(b.resourceId, b.methodId), RuntimeTable(st);
    TablesFollowValues(st);
    assert k.rid in (set l | l in puts :: l.rid);
    assert owned in runtime && ResourceKey(owned.rid) in runtime;
    assert StagedResource(puts, runtime, owned.rid).Some? && HasRoot(StagedResource(puts, runtime, owned.rid).value);
  }

  /** A legacy publish that passes the ownership check writes to no Resource that a binding owns. */
  lemma AcceptedStagingKeepsClear(s: Schema, st: KV, puts: Table)
    requires Sound(s) && Typed(Values(st)) && AllMatch(s, Values(st)) && RuntimeWrites(puts)
    requires RuntimeDecodes(RuntimeTable(st)) && BindingsDecode(PublishedTable(st))
    requires forall l | l in LegacyCandidates(s, puts, RuntimeTable(st)) :: !Owned(PublishedTable(st), l)
    ensures KeepsClear(Values(st), iset{}, puts, None)
  {
    var v := Values(st);
    TablesFollowValues(st);
    forall b, k: Key | b in v && b.PublishedBinding? && k in puts ensures !Owns(v[b].binding, k) {
      var owned := MethodKey(v[b].binding.resourceId, v[b].binding.methodId);
      assert b in PublishedTable(st) && Owned(PublishedTable(st), owned);
      if k.rid == owned.rid {
        OwnedMethodIsCandidate(s, st, puts, v[b].binding, k);
        assert false;
      }
    }
  }

  lemma DraftsApartFromRuntime(puts: Table, additional: Table, g: int)
    requires RuntimeWrites(puts) && forall k | k in additional :: !Guarded(k)
    ensures additional + puts + map[Marker := Number(g)] == puts + (additional + map[Marker := Number(g)])
  {
    assert Marker !in puts && puts.Keys !! additional.Keys;
  }

  lemma LegacyPublishWrites(s: Schema, st: KV, op: Operation)
    requires Typed(Values(st)) && op.LegacyPublish? && Acceptable(op)
    requires LegacyPublishTxn(s, op.puts, op.additional, op.compares, ReadsAt(op, st)).Some?
    ensures var v, t := Values(st), LegacyPublishTxn(s, op.puts, op.additional, op.compares, ReadsAt(op, st)).value;
            var aside := op.additional + map[Marker := Number(Generation(v) + 1)];
            t.puts == op.puts + aside && t.deletes == iset{} && Aside(v, aside)
  {
    GenerationAdvances(st);
    DraftsApartFromRuntime(op.puts, op.additional, Generation(Values(st)) + 1);
  }

  lemma LegacyPublishChecked(s: Schema, st: KV, op: Operation)
    requires op.LegacyPublish? && LegacyPublishTxn(s, op.puts, op.additional, op.compares, ReadsAt(op, st)).Some?
    ensures RuntimeWrites(op.puts) && RuntimeDecodes(RuntimeTable(st)) && BindingsDecode(PublishedTable(st))
    ensures NoLegacyConflict(s, LegacyCandidates(s, op.puts, RuntimeTable(st)), RuntimeRoutes(s, RuntimeTable(st)))
    ensures forall l | l in LegacyCandidates(s, op.puts, RuntimeTable(st)) :: !Owned(PublishedTable(st), l)
  {
  }

  lemma LegacyPublishShape(s: Schema, st: KV, op: Operation)
    requires Sound(s) && Typed(Values(st)) && AllMatch(s, Values(st))
    requires op.LegacyPublish? && Acceptable(op)
    requires LegacyPublishTxn(s, op.puts, op.additional, op.compares, ReadsAt(op, st)).Some?
    ensures RuntimeWrites(op.puts) && KeepsClear(Values(st), iset{}, op.puts, None)
  {
    LegacyPublishChecked(s, st, op);
    AcceptedStagingKeepsClear(s, st, op.puts);
  }

  lemma LegacyPublishCommitKeeps(s: Schema, st: KV, op: Operation)
    requires Sound(s) && TableInvariant(s, Values(st)) && op.LegacyPublish? && Acceptable(op)
    requires LegacyPublishTxn(s, op.puts, op.additional, op.compares, ReadsAt(op, st)).Some?
    ensures var t := LegacyPublishTxn(s, op.puts, op.additional, op.compares, ReadsAt(op, st)).value;
            TableInvariant(s, Update(Values(st), t.deletes, t.puts))
  {
    LegacyPublishWrites(s, st, op);
    LegacyPublishShape(s, st, op);
    LegacyPublishKeepsInvariant(s, Values(st), op.puts, op.additional + map[Marker := Number(Generation(Values(st)) + 1)]);
  }

  lemma LegacyDeleteShape(st: KV, op: Operation)
    requires Typed(Values(st)) && op.LegacyDelete? && LegacyDeleteTxn(op.rid, op.mid, ReadsAt(op, st)).Some?
    ensures var v, t := Values(st), LegacyDeleteTxn(op.rid, op.mid, ReadsAt(op, st)).value;
            && t.puts == map[Marker := Number(Generation(v) + 1)]
            && (forall k: Key | k in t.deletes :: Runtime(k))
            && KeepsClear(v, t.deletes, map[], None)
  {
    GenerationAdvances(st);
    TablesFollowValues(st);
  }

  lemma LegacyDeleteCommitKeeps(s: Schema, st: KV, op: Operation)
    requires TableInvariant(s, Values(st)) && op.LegacyDelete?
    requires LegacyDeleteTxn(op.rid, op.mid, ReadsAt(op, st)).Some?
    ensures var t := LegacyDeleteTxn(op.rid, op.mid, ReadsAt(op, st)).value;
            TableInvariant(s, Update(Values(st), t.deletes, t.puts))
  {
    LegacyDeleteShape(st, op);
    RemovalKeepsInvariant(s, Values(st), LegacyDeleteTxn(op.rid, op.mid, ReadsAt(op, st)).value.deletes);
  }

  // ------------------------------------------------------------------- whole runs

  /** Whatever the interleaving, a commit keeps the table invariant. */
  lemma CommitKeepsTable(s: Schema, c: Client, st: KV)
    requires Sound(s) && WellFormed(st) && TableInvariant(s, Values(st))
    requires ClientInvariant(c, st) && |c.seen| == ReadCount(c.op)
    ensures TableInvariant(s, Values(AfterCommit(s, c, st)))
  {
    var r := ReadsOf(c.op, c.seen);
    var txn := Plan(s, c.op, r);
    if txn.Some? && AllHold(st, txn.value.compares) {
      ReadsAreCurrent(s, c, st);
      ValuesAfter(st, txn.value);
      match c.op
      case Publish(_, _) => PublishCommitKeeps(s, st, c.op, r.draft);
      case Delete(_, _) => DeleteCommitKeeps(s, st, c.op, r.draft);
      case LegacyPublish(_, _, _) => LegacyPublishCommitKeeps(s, st, c.op);
      case LegacyDelete(_, _) => LegacyDeleteCommitKeeps(s, st, c.op);
    }
  }

  lemma DraftWriteKeepsTable(s: Schema, st: KV, t: Change)
    requires TableInvariant(s, Values(st)) && DraftOnly(t)
    ensures TableInvariant(s, Values(Commit(st, t)))
  {
    ValuesAfter(st, t);
    if AllHold(st, t.compares) {
      GuardedAlikeKeepsInvariant(s, Values(st), Values(Write(st, t)));
    }
  }

  lemma ClientsKeepUp(s: Schema, sys: System, a: Action, c: nat)
    requires WellFormed(sys.store) && (forall d | d in sys.clients :: ClientInvariant(sys.clients[d], sys.store))
    requires c in Next(s, sys, a).clients
    ensures ClientInvariant(Next(s, sys, a).clients[c], Next(s, sys, a).store)
  {
    var next := Next(s, sys, a);
    NextIsAhead(s, sys, a);
    if c in sys.clients {
      var seen := sys.clients[c].seen;
      forall i | 0 <= i < |seen| ensures Behind(seen[i], next.store) {
        BehindTransitive(seen[i], sys.store, next.store);
      }
    }
  }

  lemma NextKeepsInvariant(s: Schema, sys: System, a: Action)
    requires Sound(s) && Invariant(s, sys)
    ensures Invariant(s, Next(s, sys, a))
  {
    NextIsAhead(s, sys, a);
    forall c | c in Next(s, sys, a).clients
      ensures ClientInvariant(Next(s, sys, a).clients[c], Next(s, sys, a).store)
    {
      ClientsKeepUp(s, sys, a, c);
    }
    match a
    case CommitTxn(c) =>
      if c in sys.clients && |sys.clients[c].seen| == ReadCount(sys.clients[c].op) {
        CommitKeepsTable(s, sys.clients[c], sys.store);
      }
    case DraftWrite(t) => if DraftOnly(t) { DraftWriteKeepsTable(s, sys.store, t); }
    case _ =>
  }

  lemma {:induction false} RunKeepsInvariant(s: Schema, sys: System, actions: seq<Action>)
    requires Sound(s) && Invariant(s, sys)
    ensures Invariant(s, Run(s, sys, actions))
    decreases |actions|
  {
    if actions != [] {
      NextKeepsInvariant(s, sys, actions[0]);
      RunKeepsInvariant(s, Next(s, sys, actions[0]), actions[1..]);
    }
  }

  lemma InitialIsInvariant(s: Schema, sys: System)
    requires Initial(sys)
    ensures Invariant(s, sys)
  {
    var v := Values(sys.store);
    assert AllMatch(s, v) && DistinctIds(v) && HistoryInvariant(v);
  }

  /** Every published binding is served by exactly what it compiles to, under a Resource of its own. */
  lemma PublishedBindingsAreServed(s: Schema, sys: System, actions: seq<Action>, name: string)
    requires Sound(s) && Initial(sys)
    requires PublishedBinding(name) in Values(Run(s, sys, actions).store)
    ensures var v := Values(Run(s, sys, actions).store);
            var record := v[PublishedBinding(name)];
            && record.BindingValue? && record.binding.obj.name == name
            && RuntimeMatches(s, v, record.binding)
            && forall other | PublishedBinding(other) in v && other != name ::
                 v[PublishedBinding(other)].BindingValue?
                 && v[PublishedBinding(other)].binding.resourceId != record.binding.resourceId
  {
    InitialIsInvariant(s, sys);
    RunKeepsInvariant(s, sys, actions);
    var v := Values(Run(s, sys, actions).store);
    assert Typed(v) && AllMatch(s, v) && DistinctIds(v);
  }

  /** The newest history entry of a name is its published record, and a tombstone exactly when it has none. */
  lemma NewestHistoryIsPublished(s: Schema, sys: System, actions: seq<Action>, name: string, g: int)
    requires Sound(s) && Initial(sys)
    requires IsNewest(Values(Run(s, sys, actions).store), name, g)
    ensures var v := Values(Run(s, sys, actions).store);
            && v[HistoryKey(name, g)].HistoryValue?
            && (v[HistoryKey(name, g)].history.binding.None? <==> PublishedBinding(name) !in v)
            && (PublishedBinding(name) in v ==>
                  v[PublishedBinding(name)] == BindingValue(v[HistoryKey(name, g)].history.binding.value))
  {
    InitialIsInvariant(s, sys);
    RunKeepsInvariant(s, sys, actions);
    var v := Values(Run(s, sys, actions).store);
    assert Typed(v) && HistoryTells(v);
  }

  // ------------------------------------------------------------------- single steps

  // What every plan writes to the marker and to the history.
  lemma PlanMarks(s: Schema, op: Operation, r: Reads)
    requires Acceptable(op) && Plan(s, op, r).Some?
    ensures NextGeneration(r.generation).Some?
    ensures var g, t := NextGeneration(r.generation).value, Plan(s, op, r).value;
            && Lookup(t.puts, Marker) == Some(Number(g))
            && (forall k | k in t.puts && k.HistoryKey? :: k.generation == g)
            && (forall k: Key | k in t.deletes :: !k.HistoryKey?)
  {
  }

  lemma CurrentGeneration(s: Schema, c: Client, st: KV)
    requires Typed(Values(st)) && ClientInvariant(c, st) && |c.seen| == ReadCount(c.op)
    requires Plan(s, c.op, ReadsOf(c.op, c.seen)).Some?
    requires AllHold(st, Plan(s, c.op, ReadsOf(c.op, c.seen)).value.compares)
    ensures NextGeneration(ReadsOf(c.op, c.seen).generation) == Some(Generation(Values(st)) + 1)
  {
    var r := ReadsOf(c.op, c.seen);
    ReadsAreCurrent(s, c, st);
    assert r.generation == Lookup(st.kvs, Marker);
    PlanMarks(s, c.op, r);
    GenerationAdvances(st);
  }

  /** Every commit of either API moves the generation by exactly one; no other action moves it. */
  lemma GenerationCountsCommits(s: Schema, sys: System, a: Action)
    requires Sound(s) && Invariant(s, sys)
    ensures var before, after := Values(sys.store), Values(Next(s, sys, a).store);
            && Typed(before) && Typed(after)
            && Generation(after) == Generation(before)
               + if a.CommitTxn? && Next(s, sys, a).store != sys.store then 1 else 0
  {
    NextKeepsInvariant(s, sys, a);
    var next := Next(s, sys, a);
    match a
    case CommitTxn(c) =>
      if next.store != sys.store {
        CurrentGeneration(s, sys.clients[c], sys.store);
        PlanMarks(s, sys.clients[c].op, ReadsOf(sys.clients[c].op, sys.clients[c].seen));
        ValuesAfter(sys.store, Plan(s, sys.clients[c].op, ReadsOf(sys.clients[c].op, sys.clients[c].seen)).value);
      }
    case DraftWrite(t) => ValuesAfter(sys.store, t);
    case _ =>
  }

  // A transaction that writes no history key that is already there, and deletes none.
  ghost predicate OnlyAddsHistory(st: KV, t: Change) {
    (forall k | k in t.puts && k.HistoryKey? :: k !in st.kvs) && (forall k: Key | k in t.deletes :: !k.HistoryKey?)
  }

  lemma PlansOnlyAddHistory(s: Schema, c: Client, st: KV)
    requires Typed(Values(st)) && HistoryBounded(Values(st))
    requires ClientInvariant(c, st) && |c.seen| == ReadCount(c.op)
    requires Plan(s, c.op, ReadsOf(c.op, c.seen)).Some?
    requires AllHold(st, Plan(s, c.op, ReadsOf(c.op, c.seen)).value.compares)
    ensures OnlyAddsHistory(st, Plan(s, c.op, ReadsOf(c.op, c.seen)).value)
  {
    CurrentGeneration(s, c, st);
    PlanMarks(s, c.op, ReadsOf(c.op, c.seen));
    var g, t := Generation(Values(st)) + 1, Plan(s, c.op, ReadsOf(c.op, c.seen)).value;
    forall k | k in t.puts && k.HistoryKey? ensures k !in st.kvs {
      assert k.generation == g;
      assert k in st.kvs ==> k in Values(st);
    }
  }

  lemma NextKeepsHistory(s: Schema, sys: System, a: Action, k: Key)
    requires Sound(s) && Invariant(s, sys) && k.HistoryKey? && k in sys.store.kvs
    ensures Lookup(Next(s, sys, a).store.kvs, k) == Lookup(sys.store.kvs, k)
  {
    match a
    case CommitTxn(c) =>
      if Next(s, sys, a).store != sys.store {
        PlansOnlyAddHistory(s, sys.clients[c], sys.store);
      }
    case _ =>
  }

  /** History is append-only: an entry, once written, is never rewritten or removed in any run. */
  lemma {:induction false} HistoryIsAppendOnly(s: Schema, sys: System, actions: seq<Action>, k: Key)
    requires Sound(s) && Invariant(s, sys) && k.HistoryKey? && k in sys.store.kvs
    ensures Lookup(Run(s, sys, actions).store.kvs, k) == Lookup(sys.store.kvs, k)
    decreases |actions|
  {
    if actions != [] {
      NextKeepsInvariant(s, sys, actions[0]);
      NextKeepsHistory(s, sys, actions[0], k);
      HistoryIsAppendOnly(s, Next(s, sys, actions[0]), actions[1..], k);
    }
  }

  // k is the record or a runtime key of the published binding `name`.
  ghost predicate BelongsTo(v: Table, name: string, k: Key)
    requires Typed(v)
  {
    PublishedBinding(name) in v && (k == PublishedBinding(name) || Owns(v[PublishedBinding(name)].binding, k))
  }

  lemma ClearMeansAbsent(v: Table, puts: Table, aside: Table, name: string, k: Key)
    requires Typed(v) && RuntimeWrites(puts) && Aside(v, aside) && KeepsClear(v, iset{}, puts, None) && BelongsTo(v, name, k)
    ensures k !in puts + aside
  {
    assert Guarded(k) && !k.Marker?;
    assert k !in aside;
  }

  lemma LegacyPublishSpares(s: Schema, st: KV, op: Operation, t: Change, name: string, k: Key)
    requires Sound(s) && Typed(Values(st)) && AllMatch(s, Values(st))
    requires op.LegacyPublish? && Acceptable(op)
    requires LegacyPublishTxn(s, op.puts, op.additional, op.compares, ReadsAt(op, st)) == Some(t)
    requires BelongsTo(Values(st), name, k)
    ensures k !in t.puts && k !in t.deletes
  {
    LegacyPublishWrites(s, st, op);
    LegacyPublishShape(s, st, op);
    ClearMeansAbsent(Values(st), op.puts, op.additional + map[Marker := Number(Generation(Values(st)) + 1)], name, k);
  }

  lemma LegacyDeleteSpares(st: KV, op: Operation, t: Change, name: string, k: Key)
    requires Typed(Values(st)) && op.LegacyDelete? && LegacyDeleteTxn(op.rid, op.mid, ReadsAt(op, st)) == Some(t)
    requires BelongsTo(Values(st), name, k)
    ensures k !in t.puts && k !in t.deletes
  {
    LegacyDeleteShape(st, op);
  }

  /** A legacy write or delete, however interleaved, leaves every published binding and its runtime keys as they are. */
  lemma LegacySparesOwnedKeys(s: Schema, c: Client, st: KV, name: string, k: Key)
    requires Sound(s) && TableInvariant(s, Values(st))
    requires ClientInvariant(c, st) && |c.seen| == ReadCount(c.op)
    requires c.op.LegacyPublish? || c.op.LegacyDelete?
    requires BelongsTo(Values(st), name, k)
    ensures Lookup(AfterCommit(s, c, st).kvs, k) == Lookup(st.kvs, k)
  {
    var txn := Plan(s, c.op, ReadsOf(c.op, c.seen));
    if txn.Some? && AllHold(st, txn.value.compares) {
      ReadsAreCurrent(s, c, st);
      assert txn == Plan(s, c.op, ReadsAt(c.op, st));
      if c.op.LegacyPublish? {
        LegacyPublishSpares(s, st, c.op, txn.value, name, k);
      } else {
        LegacyDeleteSpares(st, c.op, txn.value, name, k);
      }
    }
  }
}
