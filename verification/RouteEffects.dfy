/**
 What a committed operation does to the store, key by key: what is there
 afterwards, what is gone, and that everything else is untouched. An operation
 has committed when the store is no longer the one it was, since every
 transaction moves the revision.
 */
module RouteEffects {
  import opened Options
  import opened Etcd
  import opened RouteStore
  import opened RouteProtocol
  import opened RouteInvariants
  import opened RouteTheorems

  function ValueAt(st: KV, k: Key): Option<Value> {
    if k in st.kvs then Some(st.kvs[k].value) else None
  }

  // The published record of a name.
  ghost function Record(st: KV, name: string): Option<Binding> {
    match ValueAt(st, PublishedBinding(name))
    case Some(BindingValue(b)) => Some(b)
    case _ => None
  }

  // The draft record of a name.
  ghost function Draft(st: KV, name: string): Option<Binding> {
    match ValueAt(st, DraftBinding(name))
    case Some(BindingValue(b)) => Some(b)
    case _ => None
  }

  // k is the Resource of the published record of a name, or a Method below it.
  ghost predicate Serves(st: KV, name: string, k: Key) {
    Runtime(k) && Record(st, name).Some? && Record(st, name).value.resourceId == k.rid
  }

  // The entry of the next generation: a record, or a tombstone.
  ghost predicate Logged(before: KV, after: KV, name: string, record: Option<Binding>)
    requires Typed(Values(before))
  {
    var g := Generation(Values(before)) + 1;
    && ValueAt(after, HistoryKey(name, g)) == Some(HistoryValue(History(g, record)))
    && ValueAt(after, Marker) == Some(Number(g))
  }

  // The keys besides drafts and runtime that a publish or delete of a name may change.
  ghost predicate Bookkeeping(before: KV, name: string, k: Key)
    requires Typed(Values(before))
  {
    k == PublishedBinding(name) || k == Marker || k == HistoryKey(name, Generation(Values(before)) + 1)
  }

  // The publication of a name is gone with its whole Resource, and nothing else but the bookkeeping and the draft has changed.
  ghost predicate Withdrawn(before: KV, after: KV, name: string)
    requires Typed(Values(before))
  {
    && PublishedBinding(name) !in after.kvs
    && Logged(before, after, name, None)
    && (forall k: Key | Serves(before, name, k) :: k !in after.kvs)
    && (forall k: Key | !Serves(before, name, k) && !Bookkeeping(before, name, k) && k != DraftBinding(name) :: SameAt(before, after, k))
  }

  // The two runtime keys of a record.
  ghost predicate Installed(after: KV, b: Binding, route: Compiled) {
    && ValueAt(after, ResourceKey(b.resourceId)) == Some(ResourceValue(route.resource))
    && ValueAt(after, MethodKey(b.resourceId, b.methodId)) == Some(MethodValue(route.m))
  }

  // k served the previous record of the name, and the new record does not go there.
  ghost predicate Abandoned(before: KV, name: string, b: Binding, k: Key) {
    && Serves(before, name, k)
    && (k.rid != b.resourceId || (k == MethodKey(k.rid, Record(before, name).value.methodId) && k.mid != b.methodId))
  }

  // b is published: its record and runtime are there, those of the previous
  // record are gone, and nothing else but the bookkeeping has changed.
  ghost predicate Replaced(before: KV, after: KV, name: string, b: Binding, route: Compiled)
    requires Typed(Values(before))
  {
    && ValueAt(after, PublishedBinding(name)) == Some(BindingValue(b))
    && Logged(before, after, name, Some(b))
    && Installed(after, b, route)
    && (forall k: Key | Abandoned(before, name, b, k) :: k !in after.kvs)
    && (forall k: Key | !Abandoned(before, name, b, k) && !Owns(b, k) && !Bookkeeping(before, name, k) :: SameAt(before, after, k))
  }

  // ------------------------------------------------------------------ one transaction

  lemma Committed(s: Schema, c: Client, st: KV) returns (t: Change)
    requires |c.seen| == ReadCount(c.op) && AfterCommit(s, c, st) != st
    ensures Plan(s, c.op, ReadsOf(c.op, c.seen)) == Some(t) && AllHold(st, t.compares) && AfterCommit(s, c, st) == Write(st, t)
  {
    t := Plan(s, c.op, ReadsOf(c.op, c.seen)).value;
  }

  lemma WriteAt(st: KV, t: Change, k: Key)
    ensures k in t.puts ==> ValueAt(Write(st, t), k) == Some(t.puts[k])
    ensures k !in t.puts && k in t.deletes ==> k !in Write(st, t).kvs
    ensures k !in t.puts && k !in t.deletes ==> SameAt(st, Write(st, t), k)
  {
  }

  lemma RecordDecodes(st: KV, name: string)
    requires Typed(Values(st))
    ensures var d := Decode(Lookup(st.kvs, PublishedBinding(name)), name);
            (d.Found? <==> Record(st, name).Some?) && (d.Found? ==> Record(st, name) == Some(d.binding)) && !d.Malformed?
  {
    PublishedDecodes(st, name);
    assert PublishedBinding(name) in st.kvs ==> PublishedBinding(name) in Values(st);
  }

  // A transaction that withdraws a name, told by what it deletes and puts.
  ghost predicate Withdraws(st: KV, t: Change, name: string)
    requires Typed(Values(st))
  {
    && t.puts == Tombstone(name, Generation(Values(st)) + 1)
    && forall k: Key | k != DraftBinding(name) ::
         k in t.deletes <==> Serves(st, name, k) || (k == PublishedBinding(name) && Record(st, name).Some?)
  }

  lemma WithdrawnBy(st: KV, t: Change, name: string)
    requires Typed(Values(st)) && Withdraws(st, t, name)
    ensures Withdrawn(st, Write(st, t), name)
  {
    var after := Write(st, t);
    assert PublishedBinding(name) in st.kvs ==> PublishedBinding(name) in Values(st);
    forall k: Key ensures Serves(st, name, k) ==> k !in after.kvs {
      WriteAt(st, t, k);
    }
    forall k: Key | !Serves(st, name, k) && !Bookkeeping(st, name, k) && k != DraftBinding(name) ensures SameAt(st, after, k) {
      WriteAt(st, t, k);
    }
  }

  lemma DeleteWithdraws(st: KV, op: Operation, draft: Read, t: Change)
    requires Typed(Values(st)) && op.Delete? && DeleteTxn(op.name, op.expected, ReadsAt(op, st).(draft := draft)) == Some(t)
    ensures Withdraws(st, t, op.name)
    ensures DraftBinding(op.name) !in t.puts && (DraftBinding(op.name) in t.deletes <==> draft.Some?)
  {
    RecordDecodes(st, op.name);
    GenerationAdvances(st);
  }

  lemma PublishWithoutDraftWithdraws(s: Schema, st: KV, op: Operation, t: Change)
    requires Typed(Values(st)) && op.Publish? && PublishTxn(s, op.name, op.expected, ReadsAt(op, st).(draft := None)) == Some(t)
    ensures Withdraws(st, t, op.name) && Record(st, op.name).Some?
    ensures DraftBinding(op.name) !in t.puts && DraftBinding(op.name) !in t.deletes
  {
    RecordDecodes(st, op.name);
    GenerationAdvances(st);
  }

  // A draft is found where it decodes.
  lemma DraftDecodes(s: Schema, st: KV, op: Operation)
    requires op.Publish? && DraftBinding(op.name) in st.kvs && PublishTxn(s, op.name, op.expected, ReadsAt(op, st)).Some?
    ensures var d := Decode(Lookup(st.kvs, DraftBinding(op.name)), op.name); d.Found? && Draft(st, op.name) == Some(d.binding)
  {
  }

  lemma CompiledParts(s: Schema, b: Binding)
    requires CompileBinding(s, b).Some?
    ensures b.resourceId > 0 && b.methodId > 0 && s.normalize(b.obj).Some? && s.compile(s.normalize(b.obj).value).Some?
    ensures var o := s.normalize(b.obj).value;
            CompileBinding(s, b).value == CompiledBinding(o, b.resourceId, b.methodId, s.compile(o).value)
  {
  }

  lemma DraftPublishReplaces(s: Schema, st: KV, op: Operation, t: Change)
    requires Sound(s) && Typed(Values(st)) && op.Publish? && DraftBinding(op.name) in st.kvs
    requires PublishTxn(s, op.name, op.expected, ReadsAt(op, st)) == Some(t)
    ensures Draft(st, op.name).Some?
    ensures var d := Draft(st, op.name).value;
            && d.resourceId > 0 && d.methodId > 0 && s.normalize(d.obj).Some?
            && var o := s.normalize(d.obj).value;
            && s.compile(o).Some?
            && Replaced(st, Write(st, t), op.name, d.(obj := o), s.compile(o).value)
  {
    var published := Decode(Lookup(st.kvs, PublishedBinding(op.name)), op.name);
    DraftDecodes(s, st, op);
    var d := Draft(st, op.name).value;
    assert CompileBinding(s, d).Some? && t.deletes == Superseded(published, CompileBinding(s, d).value)
           && t.puts == PublishPuts(op.name, CompileBinding(s, d).value, Generation(Values(st)) + 1) by {
      assert ReadsAt(op, st) == ReadsAt(op, st).(draft := Lookup(st.kvs, DraftBinding(op.name)));
      PublishShape(s, st, op, Lookup(st.kvs, DraftBinding(op.name)));
    }
    CompiledParts(s, d);
    RecordDecodes(st, op.name);
    ReplacedBy(st, t, op.name, published, CompileBinding(s, d).value);
  }

  lemma StagedIsStored(st: KV, t: Change, puts: Table, additional: Table, g: int)
    requires t.puts == puts + (additional + map[Marker := Number(g)]) && t.deletes == iset{}
    requires RuntimeWrites(puts) && forall k | k in additional :: !Guarded(k)
    ensures var after := Write(st, t);
            && (forall k | k in puts :: ValueAt(after, k) == Some(puts[k]))
            && (forall k | k in additional :: ValueAt(after, k) == Some(additional[k]))
            && ValueAt(after, Marker) == Some(Number(g))
            && (forall k: Key | k !in puts && k !in additional && k != Marker :: SameAt(st, after, k))
  {
    forall k: Key | k !in puts && k !in additional && k != Marker ensures SameAt(st, Write(st, t), k) {
      WriteAt(st, t, k);
    }
  }

  // ------------------------------------------------------------------- the operations

  /**
   A committed delete takes away the published record, its Resource and every
   Method below it, and the draft it found. A draft created after the operation
   found none stays. Every other key is as it was, but for the tombstone and
   the marker.
   */
  lemma DeleteRemovesPublication(s: Schema, c: Client, st: KV)
    requires Typed(Values(st)) && ClientInvariant(c, st) && c.op.Delete? && |c.seen| == 4
    requires AfterCommit(s, c, st) != st
    ensures var after, draft := AfterCommit(s, c, st), DraftBinding(c.op.name);
            && Withdrawn(st, after, c.op.name)
            && if draft in c.seen[2].kvs then draft in st.kvs && draft !in after.kvs else SameAt(st, after, draft)
  {
    var t := Committed(s, c, st);
    ReadsAreCurrent(s, c, st);
    DeleteWithdraws(st, c.op, ReadsOf(c.op, c.seen).draft, t);
    WithdrawnBy(st, t, c.op.name);
    WriteAt(st, t, DraftBinding(c.op.name));
  }

  /** A committed publish that found no draft takes the publication away likewise, and leaves drafts alone. */
  lemma PublishWithoutDraftRemovesPublication(s: Schema, c: Client, st: KV)
    requires Typed(Values(st)) && ClientInvariant(c, st) && c.op.Publish? && |c.seen| == 6
    requires AfterCommit(s, c, st) != st && DraftBinding(c.op.name) !in c.seen[2].kvs
    ensures PublishedBinding(c.op.name) in st.kvs
    ensures Withdrawn(st, AfterCommit(s, c, st), c.op.name) && SameAt(st, AfterCommit(s, c, st), DraftBinding(c.op.name))
  {
    var t := Committed(s, c, st);
    ReadsAreCurrent(s, c, st);
    PublishWithoutDraftWithdraws(s, st, c.op, t);
    WithdrawnBy(st, t, c.op.name);
    WriteAt(st, t, DraftBinding(c.op.name));
  }

  lemma ReplacedBy(st: KV, t: Change, name: string, published: Decoded, c: CompiledBinding)
    requires Typed(Values(st)) && t.puts == PublishPuts(name, c, Generation(Values(st)) + 1) && t.deletes == Superseded(published, c)
    requires published.Found? <==> Record(st, name).Some?
    requires published.Found? ==> Record(st, name) == Some(published.binding)
    ensures Replaced(st, Write(st, t), name, Binding(c.obj, c.rid, c.mid), c.route)
  {
    var after, b := Write(st, t), Binding(c.obj, c.rid, c.mid);
    forall k: Key | Abandoned(st, name, b, k) ensures k !in after.kvs {
      WriteAt(st, t, k);
    }
    forall k: Key | !Abandoned(st, name, b, k) && !Owns(b, k) && !Bookkeeping(st, name, k) ensures SameAt(st, after, k) {
      WriteAt(st, t, k);
    }
  }

  /**
   A committed publish that found a draft publishes the draft as it is stored at
   that instant: the normalised record, and the Resource and Method it compiles to.
   If the draft moved to another Resource, the previous Resource is gone with
   everything below it; if only to another Method, the previous Method is gone.
   Every other key is as it was, but for the history entry and the marker.
   */
  lemma PublishInstallsDraft(s: Schema, c: Client, st: KV)
    requires Sound(s) && Typed(Values(st)) && ClientInvariant(c, st) && c.op.Publish? && |c.seen| == 6
    requires AfterCommit(s, c, st) != st && DraftBinding(c.op.name) in c.seen[2].kvs
    ensures Draft(st, c.op.name).Some?
    ensures var d := Draft(st, c.op.name).value;
            && d.resourceId > 0 && d.methodId > 0 && s.normalize(d.obj).Some?
            && var o := s.normalize(d.obj).value;
            && s.compile(o).Some?
            && Replaced(st, AfterCommit(s, c, st), c.op.name, d.(obj := o), s.compile(o).value)
  {
    var t := Committed(s, c, st);
    assert PublishTxn(s, c.op.name, c.op.expected, ReadsAt(c.op, st)) == Some(t) && DraftBinding(c.op.name) in st.kvs by {
      ReadsAreCurrent(s, c, st);
    }
    DraftPublishReplaces(s, st, c.op, t);
  }

  /** An operation sent with an expected revision commits only while the stored draft has that revision. */
  lemma ExpectedRevisionIsStored(s: Schema, c: Client, st: KV)
    requires ClientInvariant(c, st) && (c.op.Publish? || c.op.Delete?) && |c.seen| == ReadCount(c.op)
    requires AfterCommit(s, c, st) != st
    ensures c.op.expected >= 0
    ensures c.op.expected > 0 ==> ModRevision(st, DraftBinding(c.op.name)) == c.op.expected
  {
    var t := Committed(s, c, st);
    ReadsAreCurrent(s, c, st);
  }

  /** A committed legacy publish stores what was staged beside the next generation, and changes nothing else. */
  lemma LegacyPublishStoresStaged(s: Schema, c: Client, st: KV)
    requires Typed(Values(st)) && ClientInvariant(c, st) && c.op.LegacyPublish? && |c.seen| == 4
    requires AfterCommit(s, c, st) != st
    ensures var after := AfterCommit(s, c, st);
            && (forall k | k in c.op.puts :: ValueAt(after, k) == Some(c.op.puts[k]))
            && (forall k | k in c.op.additional :: ValueAt(after, k) == Some(c.op.additional[k]))
            && ValueAt(after, Marker) == Some(Number(Generation(Values(st)) + 1))
            && (forall k: Key | k !in c.op.puts && k !in c.op.additional && k != Marker :: SameAt(st, after, k))
  {
    var t := Committed(s, c, st);
    var aside := c.op.additional + map[Marker := Number(Generation(Values(st)) + 1)];
    assert t.puts == c.op.puts + aside && t.deletes == iset{} && RuntimeWrites(c.op.puts) by {
      ReadsAreCurrent(s, c, st);
      LegacyPublishWrites(s, st, c.op);
      LegacyPublishChecked(s, st, c.op);
    }
    StagedIsStored(st, t, c.op.puts, c.op.additional, Generation(Values(st)) + 1);
  }

  // The Resource and what lies below it, or one Method.
  ghost predicate Targeted(rid: int, mid: Option<int>, k: Key) {
    Runtime(k) && k.rid == rid && (mid.Some? ==> k == MethodKey(rid, mid.value))
  }

  lemma LegacyDeleteTargets(st: KV, op: Operation, t: Change, k: Key)
    requires Typed(Values(st)) && op.LegacyDelete? && LegacyDeleteTxn(op.rid, op.mid, ReadsAt(op, st)) == Some(t)
    ensures t.puts == map[Marker := Number(Generation(Values(st)) + 1)] && (k in t.deletes <==> Targeted(op.rid, op.mid, k))
  {
    GenerationAdvances(st);
  }

  /**
   A committed legacy delete of a Resource takes the Resource and every Method
   below it away, that of a Method only the Method; nothing else changes but the marker.
   */
  lemma LegacyDeleteRemovesTarget(s: Schema, c: Client, st: KV, k: Key)
    requires Typed(Values(st)) && ClientInvariant(c, st) && c.op.LegacyDelete? && |c.seen| == 3
    requires AfterCommit(s, c, st) != st
    ensures var after := AfterCommit(s, c, st);
            && ValueAt(after, Marker) == Some(Number(Generation(Values(st)) + 1))
            && (Targeted(c.op.rid, c.op.mid, k) ==> k !in after.kvs)
            && (!Targeted(c.op.rid, c.op.mid, k) && k != Marker ==> SameAt(st, after, k))
  {
    var t := Committed(s, c, st);
    assert LegacyDeleteTxn(c.op.rid, c.op.mid, ReadsAt(c.op, st)) == Some(t) by { ReadsAreCurrent(s, c, st); }
    LegacyDeleteTargets(st, c.op, t, k);
    WriteAt(st, t, k);
    WriteAt(st, t, Marker);
  }

  // ------------------------------------------------------------ when operations go through

  // The marker leaves room for one more generation.
  ghost predicate HasRoom(st: KV)
    requires Typed(Values(st))
  {
    0 <= Generation(Values(st)) && Generation(Values(st)) != 0x7fff_ffff_ffff_ffff
  }

  // A generation that 64 bits hold.
  ghost predicate InRange(st: KV) {
    Typed(Values(st)) && 0 <= Generation(Values(st)) <= 0x7fff_ffff_ffff_ffff
  }

  lemma RoomForNext(st: KV)
    requires Typed(Values(st))
    ensures NextGeneration(Lookup(st.kvs, Marker)).Some? <==> HasRoom(st)
  {
    assert Marker in st.kvs <==> Marker in Values(st);
  }

  lemma ComparesHoldAtOnce(name: string, r: Reads, st: KV)
    requires r.marker == Lookup(st.kvs, Marker)
    requires r.draft == Lookup(st.kvs, DraftBinding(name)) && r.published == Lookup(st.kvs, PublishedBinding(name))
    ensures AllHold(st, PublishCompares(name, r))
  {}

  // The draft of a name is stored as a record of that name.
  ghost predicate DraftIsIntact(st: KV, name: string) {
    Draft(st, name).Some? && Draft(st, name).value.obj.name == name
  }

  lemma AloneWrites(s: Schema, op: Operation, st: KV)
    requires Plan(s, op, ReadsAt(op, st)).Some? ==> AllHold(st, Plan(s, op, ReadsAt(op, st)).value.compares)
    ensures AfterAlone(s, op, st) != st <==> Plan(s, op, ReadsAt(op, st)).Some?
  {
    var c := Client(op, seq(ReadCount(op), _ => st));
    assert ReadsOf(c.op, c.seen) == ReadsAt(op, st);
  }

  /**
   Undisturbed, a delete goes through exactly when the name has a draft or a
   publication, its draft can be read, the expected revision, if one is given, is
   the draft's, and a generation is left.
   */
  lemma DeleteGoesThroughIff(s: Schema, st: KV, name: string, expected: int)
    requires TableInvariant(s, Values(st))
    ensures AfterAlone(s, Delete(name, expected), st) != st <==>
      && HasRoom(st) && expected >= 0
      && (DraftBinding(name) in st.kvs || PublishedBinding(name) in st.kvs)
      && (DraftBinding(name) in st.kvs ==> DraftIsIntact(st, name))
      && (expected > 0 ==> ModRevision(st, DraftBinding(name)) == expected && DraftBinding(name) in st.kvs)
  {
    var op := Delete(name, expected);
    RoomForNext(st);
    RecordDecodes(st, name);
    assert PublishedBinding(name) in st.kvs ==> RuntimeMatches(s, Values(st), Record(st, name).value) by {
      assert PublishedBinding(name) in st.kvs ==> PublishedBinding(name) in Values(st);
    }
    ComparesHoldAtOnce(name, ReadsAt(op, st), st);
    AloneWrites(s, op, st);
  }

  /** Undisturbed, a publish without a draft goes through exactly when the name is published, no revision is expected and a generation is left. */
  lemma WithdrawalGoesThroughIff(s: Schema, st: KV, name: string, expected: int)
    requires Typed(Values(st)) && DraftBinding(name) !in st.kvs
    ensures AfterAlone(s, Publish(name, expected), st) != st <==> HasRoom(st) && expected == 0 && PublishedBinding(name) in st.kvs
  {
    var op := Publish(name, expected);
    RoomForNext(st);
    RecordDecodes(st, name);
    TablesFollowValues(st);
    ComparesHoldAtOnce(name, ReadsAt(op, st), st);
    AloneWrites(s, op, st);
  }

  // The binding is served from what a legacy delete of (rid, mid) removes.
  ghost predicate Targets(rid: int, mid: Option<int>, b: Binding) {
    b.resourceId == rid && (mid.Some? ==> b.methodId == mid.value)
  }

  /** Undisturbed, a legacy delete goes through exactly when no published binding is served from what it removes and a generation is left. */
  lemma LegacyDeleteGoesThroughIff(s: Schema, st: KV, rid: int, mid: Option<int>)
    requires Typed(Values(st))
    ensures AfterAlone(s, LegacyDelete(rid, mid), st) != st <==>
      HasRoom(st) && forall name | Record(st, name).Some? :: !Targets(rid, mid, Record(st, name).value)
  {
    var op := LegacyDelete(rid, mid);
    var r := ReadsAt(op, st);
    RoomForNext(st);
    TablesFollowValues(st);
    assert (exists b | b in r.bindings :: Targets(rid, mid, r.bindings[b].binding))
           <==> exists name :: Record(st, name).Some? && Targets(rid, mid, Record(st, name).value) by {
      if b :| b in r.bindings && Targets(rid, mid, r.bindings[b].binding) {
        assert Record(st, b.name) == Some(r.bindings[b].binding);
      }
      if name :| Record(st, name).Some? && Targets(rid, mid, Record(st, name).value) {
        assert PublishedBinding(name) in r.bindings;
      }
    }
    AloneWrites(s, op, st);
  }

  /** A legacy publish commits only with something staged, while what its caller compared holds. */
  lemma LegacyPublishIsChecked(s: Schema, c: Client, st: KV)
    requires c.op.LegacyPublish? && |c.seen| == 4 && AfterCommit(s, c, st) != st
    ensures c.op.puts != map[] && AllHold(st, c.op.compares)
  {
    var t := Committed(s, c, st);
    assert c.op.compares <= t.compares;
  }

  lemma NextStaysInRange(s: Schema, sys: System, a: Action)
    requires Sound(s) && Invariant(s, sys) && InRange(sys.store)
    ensures InRange(Next(s, sys, a).store)
  {
    GenerationCountsCommits(s, sys, a);
    if a.CommitTxn? && Next(s, sys, a).store != sys.store {
      var c := sys.clients[a.client];
      var t := Committed(s, c, sys.store);
      CurrentGeneration(s, c, sys.store);
    }
  }

  /** The generation never overflows its 64 bits: in every run it stays in range if it starts there. */
  lemma {:induction false} GenerationStaysInRange(s: Schema, sys: System, actions: seq<Action>)
    requires Sound(s) && Invariant(s, sys) && InRange(sys.store)
    ensures InRange(Run(s, sys, actions).store)
    decreases |actions|
  {
    if actions != [] {
      NextStaysInRange(s, sys, actions[0]);
      NextKeepsInvariant(s, sys, actions[0]);
      GenerationStaysInRange(s, Next(s, sys, actions[0]), actions[1..]);
    }
  }
}
