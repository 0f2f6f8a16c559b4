/**
 Any number of Admin clients run publishing operations against one etcd. Each
 operation is a series of separate reads followed by one transaction, and other
 clients take steps in between.
 */
module RouteProtocol {
  import opened Options
  import opened Etcd
  import opened RouteStore

  datatype Operation =
    | Publish(name: string, expected: int)
    | Delete(name: string, expected: int)
    | LegacyPublish(puts: Table, additional: Table, compares: set<Compare<Key>>)
    | LegacyDelete(rid: int, mid: Option<int>)

  // `seen[i]` is the store that the operation's i-th read was answered from.
  datatype Client = Client(op: Operation, seen: seq<KV>)

  datatype System = System(store: KV, clients: map<nat, Client>)

  datatype Action =
    | Start(client: nat, op: Operation)
    | ReadNext(client: nat)
    | CommitTxn(client: nat)
    | Abandon(client: nat)
    | DraftWrite(txn: Change)

  function ReadCount(op: Operation): nat {
    match op
    case Publish(_, _) => 6
    case Delete(_, _) => 4
    case LegacyPublish(_, _, _) => 4
    case LegacyDelete(_, _) => 3
  }

  // Each read looks only at its own keys, in the store it was answered from.
  function ReadsOf(op: Operation, seen: seq<KV>): Reads
    requires |seen| == ReadCount(op)
  {
    var marker, generation := Lookup(seen[0].kvs, Marker), Lookup(seen[1].kvs, Marker);
    match op
    case Publish(name, _) =>
      Reads(marker, generation, Lookup(seen[2].kvs, DraftBinding(name)), Lookup(seen[3].kvs, PublishedBinding(name)),
            PublishedTable(seen[4]), RuntimeTable(seen[5]))
    case Delete(name, _) =>
      Reads(marker, generation, Lookup(seen[2].kvs, DraftBinding(name)), Lookup(seen[3].kvs, PublishedBinding(name)), map[], map[])
    case LegacyPublish(_, _, _) =>
      Reads(marker, generation, None, None, PublishedTable(seen[3]), RuntimeTable(seen[2]))
    case LegacyDelete(_, _) =>
      Reads(marker, generation, None, None, PublishedTable(seen[2]), map[])
  }

  // The same operation with all its reads answered from one store.
  function ReadsAt(op: Operation, s: KV): Reads {
    ReadsOf(op, seq(ReadCount(op), _ => s))
  }

  ghost function Plan(s: Schema, op: Operation, r: Reads): Option<Change> {
    match op
    case Publish(name, expected) => PublishTxn(s, name, expected, r)
    case Delete(name, expected) => DeleteTxn(name, expected, r)
    case LegacyPublish(puts, additional, compares) => LegacyPublishTxn(s, puts, additional, compares, r)
    case LegacyDelete(rid, mid) => LegacyDeleteTxn(rid, mid, r)
  }

  // What a legacy publish writes beside the runtime are draft keys.
  ghost predicate Acceptable(op: Operation) {
    op.LegacyPublish? ==> forall k | k in op.additional :: !Guarded(k)
  }

  ghost predicate DraftOnly(t: Change) {
    (forall k | k in t.puts :: !Guarded(k)) && (forall k: Key | k in t.deletes :: !Guarded(k))
  }

  ghost function Next(s: Schema, sys: System, a: Action): System {
    match a
    case Start(c, op) =>
      if c in sys.clients || !Acceptable(op) then sys
      else sys.(clients := sys.clients[c := Client(op, [])])
    case ReadNext(c) =>
      if c !in sys.clients || |sys.clients[c].seen| >= ReadCount(sys.clients[c].op) then sys
      else sys.(clients := sys.clients[c := sys.clients[c].(seen := sys.clients[c].seen + [sys.store])])
    case CommitTxn(c) =>
      if c !in sys.clients || |sys.clients[c].seen| != ReadCount(sys.clients[c].op) then sys
      else System(AfterCommit(s, sys.clients[c], sys.store), sys.clients - {c})
    case Abandon(c) => sys.(clients := sys.clients - {c})
    case DraftWrite(t) => if DraftOnly(t) then sys.(store := Commit(sys.store, t)) else sys
  }

  ghost function AfterCommit(s: Schema, c: Client, store: KV): KV
    requires |c.seen| == ReadCount(c.op)
  {
    var txn := Plan(s, c.op, ReadsOf(c.op, c.seen));
    if txn.Some? then Commit(store, txn.value) else store
  }

  ghost function Run(s: Schema, sys: System, actions: seq<Action>): System
    decreases |actions|
  {
    if actions == [] then sys else Run(s, Next(s, sys, actions[0]), actions[1..])
  }

  // ------------------------------------------------------------------ a client alone

  // One client starts, reads what it needs and commits, and nobody else takes a step.
  function Alone(c: nat, op: Operation): seq<Action> {
    [Start(c, op)] + (seq(ReadCount(op), _ => ReadNext(c)) + [CommitTxn(c)])
  }

  ghost function AfterAlone(s: Schema, op: Operation, st: KV): KV {
    AfterCommit(s, Client(op, seq(ReadCount(op), _ => st)), st)
  }

  lemma RunFirst(s: Schema, sys: System, a: Action, rest: seq<Action>)
    ensures Run(s, sys, [a] + rest) == Run(s, Next(s, sys, a), rest)
  {
    assert ([a] + rest)[1..] == rest;
  }

  lemma ReadFirst(s: Schema, st: KV, clients: map<nat, Client>, c: nat, op: Operation, seen: seq<KV>, rest: seq<Action>)
    requires |seen| < ReadCount(op)
    ensures Run(s, System(st, clients[c := Client(op, seen)]), [ReadNext(c)] + rest)
            == Run(s, System(st, clients[c := Client(op, seen + [st])]), rest)
  {
    var sys := System(st, clients[c := Client(op, seen)]);
    RunFirst(s, sys, ReadNext(c), rest);
    assert sys.clients[c := Client(op, seen + [st])] == clients[c := Client(op, seen + [st])];
  }

  lemma {:induction false} ReadsInTurn(s: Schema, st: KV, clients: map<nat, Client>, c: nat, op: Operation, n: nat, rest: seq<Action>)
    requires n <= ReadCount(op)
    ensures Run(s, System(st, clients[c := Client(op, seq(ReadCount(op) - n, _ => st))]), seq(n, _ => ReadNext(c)) + rest)
            == Run(s, System(st, clients[c := Client(op, seq(ReadCount(op), _ => st))]), rest)
    decreases n
  {
    if n == 0 {
      assert seq(0, _ => ReadNext(c)) + rest == rest;
    } else {
      var seen := seq(ReadCount(op) - n, _ => st);
      assert seq(n, _ => ReadNext(c)) + rest == [ReadNext(c)] + (seq(n - 1, _ => ReadNext(c)) + rest);
      ReadFirst(s, st, clients, c, op, seen, seq(n - 1, _ => ReadNext(c)) + rest);
      assert seen + [st] == seq(ReadCount(op) - (n - 1), _ => st);
      ReadsInTurn(s, st, clients, c, op, n - 1, rest);
    }
  }

  lemma AloneRuns(s: Schema, sys: System, c: nat, op: Operation)
    requires Acceptable(op) && c !in sys.clients
    ensures Run(s, sys, Alone(c, op)).store == AfterAlone(s, op, sys.store)
  {
    var st, queries, commit := sys.store, seq(ReadCount(op), _ => ReadNext(c)), CommitTxn(c);
    RunFirst(s, sys, Start(c, op), queries + [commit]);
    assert seq(0, _ => st) == [];
    ReadsInTurn(s, st, sys.clients, c, op, ReadCount(op), [commit]);
    assert [commit] == [commit] + [];
    RunFirst(s, System(st, sys.clients[c := Client(op, seq(ReadCount(op), _ => st))]), commit, []);
  }

  // ---------------------------------------------------------------- observation

  function MarkerRevision(s: KV): nat {
    ModRevision(s, Marker)
  }

  /**
   `seen` is a store from which `now` was reached, and as long as the marker has
   not moved in between no published or runtime key has changed either.
   */
  ghost predicate Behind(seen: KV, now: KV) {
    && WellFormed(seen) && WellFormed(now) && Precedes(seen, now)
    && MarkerRevision(seen) <= MarkerRevision(now)
    && (MarkerRevision(seen) == MarkerRevision(now) ==> Part(seen) == Part(now))
  }

  ghost predicate ClientInvariant(c: Client, now: KV) {
    && Acceptable(c.op)
    && |c.seen| <= ReadCount(c.op)
    && (forall i | 0 <= i < |c.seen| :: Behind(c.seen[i], now))
    && (forall i, j | 0 <= i <= j < |c.seen| :: Behind(c.seen[i], c.seen[j]))
  }

  // A transaction of this protocol: it writes the marker, or it writes no guarded key.
  ghost predicate Disciplined(t: Change) {
    (Marker in t.puts && Marker !in t.deletes) || DraftOnly(t)
  }

  lemma BehindTransitive(a: KV, b: KV, c: KV)
    requires Behind(a, b) && Behind(b, c)
    ensures Behind(a, c)
  {
    PrecedesTransitive(a, b, c);
  }

  lemma WriteIsAhead(s: KV, t: Change)
    requires WellFormed(s) && Disciplined(t)
    ensures Behind(s, Write(s, t))
  {
    WriteKeepsWellFormed(s, t);
    if DraftOnly(t) {
      assert Part(s) == Part(Write(s, t));
    }
  }

  lemma PlansAreDisciplined(s: Schema, op: Operation, r: Reads)
    requires Plan(s, op, r).Some?
    ensures Disciplined(Plan(s, op, r).value)
  {
  }

  /** The store only moves forward under every action, so what clients saw stays behind it. */
  lemma NextIsAhead(s: Schema, sys: System, a: Action)
    requires WellFormed(sys.store)
    ensures Behind(sys.store, Next(s, sys, a).store)
  {
    match a
    case CommitTxn(c) =>
      if c in sys.clients && |sys.clients[c].seen| == ReadCount(sys.clients[c].op) {
        var client := sys.clients[c];
        var txn := Plan(s, client.op, ReadsOf(client.op, client.seen));
        if txn.Some? {
          PlansAreDisciplined(s, client.op, ReadsOf(client.op, client.seen));
          WriteIsAhead(sys.store, txn.value);
        }
      }
    case DraftWrite(t) => if DraftOnly(t) { WriteIsAhead(sys.store, t); }
    case _ =>
  }

  lemma MarkerComparePresent(s: Schema, op: Operation, r: Reads, now: KV)
    requires Plan(s, op, r).Some? && AllHold(now, Plan(s, op, r).value.compares)
    ensures Holds(now, MarkerUnchanged(r.marker))
  {
    assert MarkerUnchanged(r.marker) in Plan(s, op, r).value.compares;
  }

  /** If the marker comparison succeeds, every read since the marker read is still current. */
  lemma SeenIsCurrent(c: Client, now: KV, i: nat)
    requires ClientInvariant(c, now) && |c.seen| == ReadCount(c.op) && i < |c.seen|
    requires Holds(now, MarkerUnchanged(Lookup(c.seen[0].kvs, Marker)))
    ensures Part(c.seen[i]) == Part(now)
  {
    UnchangedMeansSameEntry(c.seen[0], now, Marker);
    assert Behind(c.seen[0], c.seen[i]) && Behind(c.seen[i], now);
  }

  // The two stores answer every read of a guarded key alike.
  ghost predicate SameGuarded(a: KV, b: KV) {
    && (forall k | Guarded(k) :: Lookup(a.kvs, k) == Lookup(b.kvs, k))
    && PublishedTable(a) == PublishedTable(b) && RuntimeTable(a) == RuntimeTable(b)
  }

  lemma PartDetermines(a: KV, b: KV)
    requires Part(a) == Part(b)
    ensures SameGuarded(a, b)
  {
    forall k | Guarded(k) ensures Lookup(a.kvs, k) == Lookup(b.kvs, k) {
      assert Lookup(Part(a), k) == Lookup(a.kvs, k) && Lookup(Part(b), k) == Lookup(b.kvs, k);
    }
    forall k | Guarded(k) ensures (k in a.kvs <==> k in b.kvs) && (k in a.kvs ==> a.kvs[k] == b.kvs[k]) {
      assert Lookup(a.kvs, k) == Lookup(b.kvs, k);
    }
    assert PublishedTable(a) == PublishedTable(b);
    assert RuntimeTable(a) == RuntimeTable(b);
  }

  lemma SameAnswers(op: Operation, seen: seq<KV>, now: KV)
    requires |seen| == ReadCount(op) && forall i: nat | i < |seen| :: SameGuarded(seen[i], now)
    ensures ReadsOf(op, seen) == ReadsAt(op, now).(draft := ReadsOf(op, seen).draft)
  {
    assert SameGuarded(seen[0], now) && SameGuarded(seen[1], now) && SameGuarded(seen[2], now);
    if !op.LegacyDelete? {
      assert SameGuarded(seen[3], now);
    }
    if op.Publish? {
      assert SameGuarded(seen[4], now) && SameGuarded(seen[5], now);
    }
  }

  lemma GuardedReadsAreCurrent(c: Client, now: KV)
    requires ClientInvariant(c, now) && |c.seen| == ReadCount(c.op)
    requires Holds(now, MarkerUnchanged(Lookup(c.seen[0].kvs, Marker)))
    ensures ReadsOf(c.op, c.seen) == ReadsAt(c.op, now).(draft := ReadsOf(c.op, c.seen).draft)
  {
    forall i: nat | i < |c.seen| ensures SameGuarded(c.seen[i], now) {
      SeenIsCurrent(c, now, i);
      PartDetermines(c.seen[i], now);
    }
    SameAnswers(c.op, c.seen, now);
  }

  lemma FoundDraftIsCurrent(s: Schema, c: Client, now: KV)
    requires ClientInvariant(c, now) && |c.seen| == ReadCount(c.op) && ReadsOf(c.op, c.seen).draft.Some?
    requires Plan(s, c.op, ReadsOf(c.op, c.seen)).Some?
    requires AllHold(now, Plan(s, c.op, ReadsOf(c.op, c.seen)).value.compares)
    ensures ReadsOf(c.op, c.seen).draft == ReadsAt(c.op, now).draft
  {
    var draft := DraftBinding(c.op.name);
    assert Behind(c.seen[2], now);
    assert Holds(now, Unchanged(c.seen[2], draft)) by {
      assert Unchanged(c.seen[2], draft) in Plan(s, c.op, ReadsOf(c.op, c.seen)).value.compares;
    }
    UnchangedMeansSameEntry(c.seen[2], now, draft);
  }

  /**
   What a committing operation read is what it would read at the instant of its
   commit, except that it may not have seen a draft created since.
   */
  lemma ReadsAreCurrent(s: Schema, c: Client, now: KV)
    requires ClientInvariant(c, now) && |c.seen| == ReadCount(c.op)
    requires Plan(s, c.op, ReadsOf(c.op, c.seen)).Some?
    requires AllHold(now, Plan(s, c.op, ReadsOf(c.op, c.seen)).value.compares)
    ensures var r := ReadsOf(c.op, c.seen);
            r == ReadsAt(c.op, now).(draft := r.draft) && (r.draft.Some? ==> r == ReadsAt(c.op, now))
  {
    var r := ReadsOf(c.op, c.seen);
    assert r == ReadsAt(c.op, now).(draft := r.draft) by {
      assert Holds(now, MarkerUnchanged(r.marker)) by { MarkerComparePresent(s, c.op, r, now); }
      GuardedReadsAreCurrent(c, now);
    }
    if r.draft.Some? {
      FoundDraftIsCurrent(s, c, now);
    }
  }

  lemma DraftCompared(s: Schema, op: Operation, r: Reads, revision: nat)
    requires (op.Publish? || op.Delete?) && Plan(s, op, r).Some?
    ensures ModRevisionIs(DraftBinding(op.name), revision) in Plan(s, op, r).value.compares
            <==> r.draft.Some? && r.draft.value.modRevision == revision
  {
  }

  /**
   Every committed operation acts as if all of it had happened at the instant of
   its commit, unless a draft was created after the operation found none. That
   exception is exact: with such a draft the operation would have acted otherwise.
   */
  lemma CommitIsAtomic(s: Schema, c: Client, now: KV)
    requires ClientInvariant(c, now) && |c.seen| == ReadCount(c.op)
    requires Plan(s, c.op, ReadsOf(c.op, c.seen)).Some?
    requires AllHold(now, Plan(s, c.op, ReadsOf(c.op, c.seen)).value.compares)
    ensures Plan(s, c.op, ReadsOf(c.op, c.seen)) == Plan(s, c.op, ReadsAt(c.op, now)) <==>
            ((c.op.Publish? || c.op.Delete?) && DraftBinding(c.op.name) in now.kvs ==>
               DraftBinding(c.op.name) in c.seen[2].kvs)
  {
    ReadsAreCurrent(s, c, now);
    var r, at := ReadsOf(c.op, c.seen), ReadsAt(c.op, now);
    if (c.op.Publish? || c.op.Delete?) && DraftBinding(c.op.name) in now.kvs && DraftBinding(c.op.name) !in c.seen[2].kvs {
      if Plan(s, c.op, at).Some? {
        DraftCompared(s, c.op, r, now.kvs[DraftBinding(c.op.name)].modRevision);
        DraftCompared(s, c.op, at, now.kvs[DraftBinding(c.op.name)].modRevision);
      }
    }
  }
}
