/**
 Draft Resources and Methods of the legacy API. A Method carries a copy of its
 Resource's path, and the operations that write either of them read first and
 commit later, so the copies agree only because of the revisions they compare.
 */
module DraftMethods {
  import opened Options
  import opened Etcd

  datatype Key =
    | ResourceKey(rid: int)
    | MethodKey(rid: int, mid: int)
    | RevisionKey(rid: int)

  datatype Value = Item(path: string, body: string) | Touched

  type KV = Store<Key, Value>
  type Change = Txn<Key, Value>
  type Read = Option<Entry<Value>>

  datatype Operation =
    | SaveMethod(rid: int, mid: int, body: string, created: bool)
    | DeleteMethod(rid: int, mid: int)
    | UpdatePath(rid: int, path: string, body: string)
    | DeleteResource(rid: int)
    | CreateResource(rid: int, path: string, body: string, methods: map<int, string>)
    | SamePathUpdate(rid: int, path: string, body: string)

  datatype Client = Client(op: Operation, seen: seq<KV>)

  datatype System = System(store: KV, clients: map<nat, Client>)

  datatype Action =
    | Start(client: nat, op: Operation)
    | ReadNext(client: nat)
    | CommitTxn(client: nat)
    | Abandon(client: nat)

  function ReadCount(op: Operation): nat {
    match op
    case SaveMethod(_, _, _, _) => 3
    case DeleteMethod(_, _) => 3
    case UpdatePath(_, _, _) => 2
    case DeleteResource(_) => 0
    case CreateResource(_, _, _, _) => 0
    case SamePathUpdate(_, _, _) => 1
  }

  function MethodsOf(s: KV, rid: int): map<Key, Entry<Value>> {
    map k | k in s.kvs && k.MethodKey? && k.rid == rid :: s.kvs[k]
  }

  ghost function Tree(rid: int): iset<Key> {
    iset k: Key | (k.ResourceKey? || k.MethodKey?) && k.rid == rid
  }

  function PathOf(v: Value): string {
    if v.Item? then v.path else ""
  }

  function BodyOf(v: Value): string {
    if v.Item? then v.body else ""
  }

  // A Method is stored with the path of the Resource that was read.
  ghost function SaveMethodTxn(op: Operation, seen: seq<KV>): Option<Change>
    requires op.SaveMethod? && |seen| == 3
  {
    var resource, m := ResourceKey(op.rid), MethodKey(op.rid, op.mid);
    if resource !in seen[0].kvs || (!op.created && m !in seen[2].kvs) then None
    else Some(Txn(
      {Unchanged(seen[0], resource), Unchanged(seen[1], RevisionKey(op.rid)),
       if op.created then IsAbsent(m) else Unchanged(seen[2], m)},
      iset{},
      map[m := Item(PathOf(seen[0].kvs[resource].value), op.body), RevisionKey(op.rid) := Touched]))
  }

  ghost function DeleteMethodTxn(op: Operation, seen: seq<KV>): Option<Change>
    requires op.DeleteMethod? && |seen| == 3
  {
    var m := MethodKey(op.rid, op.mid);
    Some(Txn(
      {Unchanged(seen[0], ResourceKey(op.rid)), Unchanged(seen[1], m), Unchanged(seen[2], RevisionKey(op.rid))},
      iset{m},
      map[RevisionKey(op.rid) := Touched]))
  }

  // The Resource is read first; its Methods and their revision key are read together afterwards.
  ghost function UpdatePathTxn(op: Operation, seen: seq<KV>): Option<Change>
    requires op.UpdatePath? && |seen| == 2
  {
    var resource, methods := ResourceKey(op.rid), MethodsOf(seen[1], op.rid);
    if resource !in seen[0].kvs then None
    else Some(Txn(
      {Unchanged(seen[0], resource), Unchanged(seen[1], RevisionKey(op.rid))} + (set k | k in methods :: Unchanged(seen[1], k)),
      iset{},
      (map k | k in methods :: Item(op.path, BodyOf(methods[k].value))) + map[resource := Item(op.path, op.body)]))
  }

  ghost function CreateResourceTxn(op: Operation): Option<Change>
    requires op.CreateResource?
  {
    Some(Txn(
      {IsAbsent(ResourceKey(op.rid))} + (set mid | mid in op.methods :: IsAbsent(MethodKey(op.rid, mid))),
      iset{},
      (map mid | mid in op.methods :: MethodKey(op.rid, mid) := Item(op.path, op.methods[mid]))
      + map[ResourceKey(op.rid) := Item(op.path, op.body)]))
  }

  ghost function Plan(op: Operation, seen: seq<KV>): Option<Change>
    requires |seen| == ReadCount(op)
  {
    match op
    case SaveMethod(_, _, _, _) => SaveMethodTxn(op, seen)
    case DeleteMethod(_, _) => DeleteMethodTxn(op, seen)
    case UpdatePath(_, _, _) => UpdatePathTxn(op, seen)
    case DeleteResource(rid) => Some(Txn({}, Tree(rid), map[]))
    case CreateResource(_, _, _, _) => CreateResourceTxn(op)
    case SamePathUpdate(rid, path, body) =>
      // The caller compares the path it read with the new one, and writes without a revision check.
      if ResourceKey(rid) in seen[0].kvs && PathOf(seen[0].kvs[ResourceKey(rid)].value) == path
      then Some(Txn({}, iset{}, map[ResourceKey(rid) := Item(path, body)])) else None
  }

  ghost function AfterCommit(c: Client, store: KV): KV
    requires |c.seen| == ReadCount(c.op)
  {
    var txn := Plan(c.op, c.seen);
    if txn.Some? then Commit(store, txn.value) else store
  }

  ghost function Next(sys: System, a: Action): System {
    match a
    case Start(c, op) => if c in sys.clients then sys else sys.(clients := sys.clients[c := Client(op, [])])
    case ReadNext(c) =>
      if c !in sys.clients || |sys.clients[c].seen| >= ReadCount(sys.clients[c].op) then sys
      else sys.(clients := sys.clients[c := sys.clients[c].(seen := sys.clients[c].seen + [sys.store])])
    case CommitTxn(c) =>
      if c !in sys.clients || |sys.clients[c].seen| != ReadCount(sys.clients[c].op) then sys
      else System(AfterCommit(sys.clients[c], sys.store), sys.clients - {c})
    case Abandon(c) => sys.(clients := sys.clients - {c})
  }

  ghost function Run(sys: System, actions: seq<Action>): System
    decreases |actions|
  {
    if actions == [] then sys else Run(Next(sys, actions[0]), actions[1..])
  }

  // Every draft Method has a Resource, and carries its path.
  ghost predicate PathsAgree(s: KV) {
    && (forall k | k in s.kvs && !k.RevisionKey? :: s.kvs[k].value.Item?)
    && (forall k | k in s.kvs && k.MethodKey? ::
          ResourceKey(k.rid) in s.kvs && s.kvs[k].value.path == PathOf(s.kvs[ResourceKey(k.rid)].value))
  }

  // ---------------------------------------------------------------- observation

  // As long as neither the Resource nor the revision key has changed, its Methods have not either.
  ghost predicate MethodsFollow(seen: KV, now: KV, rid: int) {
    && ModRevision(seen, RevisionKey(rid)) <= ModRevision(now, RevisionKey(rid))
    && (ResourceKey(rid) in seen.kvs && Lookup(seen.kvs, ResourceKey(rid)) == Lookup(now.kvs, ResourceKey(rid))
        && ModRevision(seen, RevisionKey(rid)) == ModRevision(now, RevisionKey(rid))
        ==> MethodsOf(seen, rid) == MethodsOf(now, rid))
  }

  ghost predicate Behind(seen: KV, now: KV) {
    && WellFormed(seen) && WellFormed(now) && Precedes(seen, now)
    && forall rid :: MethodsFollow(seen, now, rid)
  }

  ghost predicate ClientInvariant(c: Client, now: KV) {
    && |c.seen| <= ReadCount(c.op)
    && (forall i | 0 <= i < |c.seen| :: Behind(c.seen[i], now))
    && (forall i, j | 0 <= i <= j < |c.seen| :: Behind(c.seen[i], c.seen[j]))
  }

  ghost predicate Invariant(sys: System) {
    && WellFormed(sys.store) && PathsAgree(sys.store)
    && forall c | c in sys.clients :: ClientInvariant(sys.clients[c], sys.store)
  }

  // An entry that is in an early and a late store was there throughout.
  lemma EntryInBetween(a: KV, b: KV, c: KV, k: Key)
    requires WellFormed(a) && Precedes(a, b) && Precedes(b, c)
    requires k in a.kvs && Lookup(a.kvs, k) == Lookup(c.kvs, k)
    ensures Lookup(b.kvs, k) == Lookup(a.kvs, k)
  {
    assert k in c.kvs && c.kvs[k] == a.kvs[k] && c.kvs[k].modRevision <= a.revision <= b.revision;
  }

  lemma BehindTransitive(a: KV, b: KV, c: KV)
    requires Behind(a, b) && Behind(b, c)
    ensures Behind(a, c)
  {
    PrecedesTransitive(a, b, c);
    forall rid ensures MethodsFollow(a, c, rid) {
      assert MethodsFollow(a, b, rid) && MethodsFollow(b, c, rid);
      if ResourceKey(rid) in a.kvs && Lookup(a.kvs, ResourceKey(rid)) == Lookup(c.kvs, ResourceKey(rid)) {
        EntryInBetween(a, b, c, ResourceKey(rid));
      }
    }
  }

  // What every transaction here respects.
  ghost predicate Disciplined(s: KV, t: Change) {
    && (forall rid :: RevisionKey(rid) !in t.deletes)
    && (forall rid | ResourceKey(rid) in s.kvs && RevisionKey(rid) !in t.puts && ResourceKey(rid) !in t.puts && ResourceKey(rid) !in t.deletes ::
          forall mid :: MethodKey(rid, mid) !in t.puts && MethodKey(rid, mid) !in t.deletes)
  }

  lemma WriteIsAhead(s: KV, t: Change)
    requires WellFormed(s) && Disciplined(s, t)
    ensures Behind(s, Write(s, t))
  {
    WriteKeepsWellFormed(s, t);
    var now := Write(s, t);
    forall rid ensures MethodsFollow(s, now, rid) {
      if ResourceKey(rid) in s.kvs && Lookup(s.kvs, ResourceKey(rid)) == Lookup(now.kvs, ResourceKey(rid))
        && ModRevision(s, RevisionKey(rid)) == ModRevision(now, RevisionKey(rid)) {
        assert ResourceKey(rid) !in t.puts && ResourceKey(rid) !in t.deletes && RevisionKey(rid) !in t.puts;
        assert forall mid :: MethodKey(rid, mid) !in t.puts && MethodKey(rid, mid) !in t.deletes;
        assert MethodsOf(s, rid) == MethodsOf(now, rid);
      }
    }
  }

  lemma PlansAreDisciplined(c: Client, s: KV)
    requires |c.seen| == ReadCount(c.op)
    requires Plan(c.op, c.seen).Some? && AllHold(s, Plan(c.op, c.seen).value.compares)
    ensures Disciplined(s, Plan(c.op, c.seen).value)
  {
    var t := Plan(c.op, c.seen).value;
    if c.op.CreateResource? {
      assert IsAbsent(ResourceKey(c.op.rid)) in t.compares;
    }
  }

  lemma AfterCommitIsAhead(c: Client, s: KV)
    requires WellFormed(s) && |c.seen| == ReadCount(c.op)
    ensures Behind(s, AfterCommit(c, s))
  {
    var txn := Plan(c.op, c.seen);
    if txn.Some? && AllHold(s, txn.value.compares) {
      PlansAreDisciplined(c, s);
      WriteIsAhead(s, txn.value);
    }
  }

  // ------------------------------------------------------------- the operations

  lemma SaveMethodKeeps(c: Client, s: KV)
    requires ClientInvariant(c, s) && c.op.SaveMethod? && |c.seen| == 3 && PathsAgree(s)
    requires Plan(c.op, c.seen).Some? && AllHold(s, Plan(c.op, c.seen).value.compares)
    ensures PathsAgree(Write(s, Plan(c.op, c.seen).value))
  {
    var t := Plan(c.op, c.seen).value;
    assert Unchanged(c.seen[0], ResourceKey(c.op.rid)) in t.compares;
    UnchangedMeansSameEntry(c.seen[0], s, ResourceKey(c.op.rid));
  }

  /** A path update writes every Method that exists at its commit, not only those it read. */
  lemma UpdatePathCoversMethods(c: Client, s: KV)
    requires ClientInvariant(c, s) && c.op.UpdatePath? && |c.seen| == 2
    requires Plan(c.op, c.seen).Some? && AllHold(s, Plan(c.op, c.seen).value.compares)
    ensures MethodsOf(c.seen[1], c.op.rid) == MethodsOf(s, c.op.rid)
  {
    var t, resource, revision := Plan(c.op, c.seen).value, ResourceKey(c.op.rid), RevisionKey(c.op.rid);
    assert Unchanged(c.seen[0], resource) in t.compares && Unchanged(c.seen[1], revision) in t.compares;
    UnchangedMeansSameEntry(c.seen[0], s, resource);
    assert Behind(c.seen[0], c.seen[1]) && Behind(c.seen[1], s);
    EntryInBetween(c.seen[0], c.seen[1], s, resource);
    UnchangedMeansSameEntry(c.seen[1], s, revision);
    assert MethodsFollow(c.seen[1], s, c.op.rid);
  }

  lemma RepathedAgrees(s: KV, now: KV, rid: int, path: string)
    requires PathsAgree(s)
    requires forall k: Key | k.rid != rid && !k.RevisionKey? :: Lookup(now.kvs, k) == Lookup(s.kvs, k)
    requires forall k | k in now.kvs && k.rid == rid && !k.RevisionKey? :: now.kvs[k].value.Item? && now.kvs[k].value.path == path
    requires ResourceKey(rid) in now.kvs
    ensures PathsAgree(now)
  {
    assert forall k: Key | k.rid != rid && !k.RevisionKey? :: (k in now.kvs <==> k in s.kvs) && (k in s.kvs ==> now.kvs[k] == s.kvs[k]);
  }

  // Writes the Resource and every Method of it, all with one path.
  ghost predicate Repaths(s: KV, t: Change, rid: int, path: string) {
    && t.deletes == iset{} && ResourceKey(rid) in t.puts
    && (forall k | k in t.puts :: k.rid == rid && !k.RevisionKey? && t.puts[k].Item? && t.puts[k].path == path)
    && (forall k | k in s.kvs && k.MethodKey? && k.rid == rid :: k in t.puts)
  }

  lemma RepathKeeps(s: KV, t: Change, rid: int, path: string)
    requires PathsAgree(s) && Repaths(s, t, rid, path)
    ensures PathsAgree(Write(s, t))
  {
    RepathedAgrees(s, Write(s, t), rid, path);
  }

  lemma UpdatePathKeeps(c: Client, s: KV)
    requires ClientInvariant(c, s) && c.op.UpdatePath? && |c.seen| == 2 && PathsAgree(s)
    requires Plan(c.op, c.seen).Some? && AllHold(s, Plan(c.op, c.seen).value.compares)
    ensures PathsAgree(Write(s, Plan(c.op, c.seen).value))
  {
    var t := Plan(c.op, c.seen).value;
    assert Repaths(s, t, c.op.rid, c.op.path) by {
      UpdatePathCoversMethods(c, s);
      forall k | k in s.kvs && k.MethodKey? && k.rid == c.op.rid ensures k in t.puts {
        assert k in MethodsOf(s, c.op.rid);
      }
    }
    RepathKeeps(s, t, c.op.rid, c.op.path);
  }

  lemma CreateResourceKeeps(c: Client, s: KV)
    requires c.op.CreateResource? && |c.seen| == 0 && PathsAgree(s)
    requires AllHold(s, Plan(c.op, c.seen).value.compares)
    ensures PathsAgree(Write(s, Plan(c.op, c.seen).value))
  {
    var t := Plan(c.op, c.seen).value;
    assert Repaths(s, t, c.op.rid, c.op.path) by {
      assert IsAbsent(ResourceKey(c.op.rid)) in t.compares;
    }
    RepathKeeps(s, t, c.op.rid, c.op.path);
  }

  // ------------------------------------------------------- what a commit leaves behind

  // The key holds this path and body.
  ghost predicate HoldsItem(s: KV, k: Key, path: string, body: string) {
    k in s.kvs && s.kvs[k].value == Item(path, body)
  }

  // The Resource and each of its Methods have the new path, each Method with the body it had.
  ghost predicate Repathed(before: KV, after: KV, rid: int, path: string, body: string) {
    && HoldsItem(after, ResourceKey(rid), path, body)
    && (forall k | k in before.kvs && k.MethodKey? && k.rid == rid && before.kvs[k].value.Item? ::
          HoldsItem(after, k, path, before.kvs[k].value.body))
    && (forall k | k in after.kvs :: k in before.kvs)
    && (forall k: Key | k != ResourceKey(rid) && !(k.MethodKey? && k.rid == rid) :: SameAt(before, after, k))
  }

  lemma Committed(c: Client, s: KV) returns (t: Change)
    requires |c.seen| == ReadCount(c.op) && AfterCommit(c, s) != s
    ensures Plan(c.op, c.seen) == Some(t) && AllHold(s, t.compares) && AfterCommit(c, s) == Write(s, t)
  {
    t := Plan(c.op, c.seen).value;
  }

  lemma RepathedBy(s: KV, t: Change, rid: int, path: string, body: string)
    requires t.deletes == iset{} && ResourceKey(rid) in s.kvs
    requires t.puts == (map k | k in MethodsOf(s, rid) :: Item(path, BodyOf(MethodsOf(s, rid)[k].value))) + map[ResourceKey(rid) := Item(path, body)]
    ensures Repathed(s, Write(s, t), rid, path, body)
  {
    forall k | k in s.kvs && k.MethodKey? && k.rid == rid && s.kvs[k].value.Item?
      ensures HoldsItem(Write(s, t), k, path, s.kvs[k].value.body)
    {
      assert k in MethodsOf(s, rid);
    }
  }

  /** A committed path update moves the Resource and every Method of it to the new path, and changes nothing else. */
  lemma UpdatePathMovesMethods(c: Client, s: KV)
    requires ClientInvariant(c, s) && c.op.UpdatePath? && |c.seen| == 2 && AfterCommit(c, s) != s
    ensures Repathed(s, AfterCommit(c, s), c.op.rid, c.op.path, c.op.body)
  {
    var t := Committed(c, s);
    assert MethodsOf(c.seen[1], c.op.rid) == MethodsOf(s, c.op.rid) by { UpdatePathCoversMethods(c, s); }
    assert ResourceKey(c.op.rid) in s.kvs by {
      assert Unchanged(c.seen[0], ResourceKey(c.op.rid)) in t.compares;
      UnchangedMeansSameEntry(c.seen[0], s, ResourceKey(c.op.rid));
    }
    RepathedBy(s, t, c.op.rid, c.op.path, c.op.body);
  }

  /**
   A committed save stores the Method with the body it was given and the path its
   Resource has at that instant, and changes nothing but the revision key beside
   it. A creation finds no Method there; an update finds one.
   */
  lemma SaveMethodStores(c: Client, s: KV)
    requires ClientInvariant(c, s) && c.op.SaveMethod? && |c.seen| == 3 && AfterCommit(c, s) != s
    ensures var after, m := AfterCommit(c, s), MethodKey(c.op.rid, c.op.mid);
            && ResourceKey(c.op.rid) in s.kvs && (m in s.kvs <==> !c.op.created)
            && (s.kvs[ResourceKey(c.op.rid)].value.Item? ==> HoldsItem(after, m, s.kvs[ResourceKey(c.op.rid)].value.path, c.op.body))
            && ModRevision(after, RevisionKey(c.op.rid)) == after.revision > s.revision
            && forall k: Key | k != m && k != RevisionKey(c.op.rid) :: SameAt(s, after, k)
  {
    var t := Committed(c, s);
    var resource, m := ResourceKey(c.op.rid), MethodKey(c.op.rid, c.op.mid);
    assert Unchanged(c.seen[0], resource) in t.compares;
    UnchangedMeansSameEntry(c.seen[0], s, resource);
    if c.op.created {
      assert IsAbsent(m) in t.compares;
    } else {
      assert Unchanged(c.seen[2], m) in t.compares;
      UnchangedMeansSameEntry(c.seen[2], s, m);
    }
  }

  /** A committed deletion of a Method takes away the Method that was read, and changes nothing but the revision key beside it. */
  lemma DeleteMethodRemoves(c: Client, s: KV)
    requires ClientInvariant(c, s) && c.op.DeleteMethod? && |c.seen| == 3 && AfterCommit(c, s) != s
    ensures var after, m := AfterCommit(c, s), MethodKey(c.op.rid, c.op.mid);
            && m !in after.kvs && SameAt(c.seen[1], s, m) && SameAt(c.seen[0], s, ResourceKey(c.op.rid))
            && ModRevision(after, RevisionKey(c.op.rid)) == after.revision > s.revision
            && forall k: Key | k != m && k != RevisionKey(c.op.rid) :: SameAt(s, after, k)
  {
    var t := Committed(c, s);
    var resource, m := ResourceKey(c.op.rid), MethodKey(c.op.rid, c.op.mid);
    assert Unchanged(c.seen[0], resource) in t.compares && Unchanged(c.seen[1], m) in t.compares;
    UnchangedMeansSameEntry(c.seen[0], s, resource);
    UnchangedMeansSameEntry(c.seen[1], s, m);
  }

  /** Creating a Resource stores it and its Methods under its path where there was none of them, and changes nothing else. */
  lemma CreateResourceStores(c: Client, s: KV)
    requires c.op.CreateResource? && c.seen == [] && AfterCommit(c, s) != s
    ensures var after, rid := AfterCommit(c, s), c.op.rid;
            && ResourceKey(rid) !in s.kvs && HoldsItem(after, ResourceKey(rid), c.op.path, c.op.body)
            && (forall mid | mid in c.op.methods ::
                  MethodKey(rid, mid) !in s.kvs && HoldsItem(after, MethodKey(rid, mid), c.op.path, c.op.methods[mid]))
            && (forall k: Key | k != ResourceKey(rid) && !(k.MethodKey? && k.rid == rid && k.mid in c.op.methods) :: SameAt(s, after, k))
  {
    var t := Committed(c, s);
    assert IsAbsent(ResourceKey(c.op.rid)) in t.compares;
    forall mid | mid in c.op.methods ensures MethodKey(c.op.rid, mid) !in s.kvs {
      assert IsAbsent(MethodKey(c.op.rid, mid)) in t.compares;
    }
  }

  /** Deleting a Resource takes it and all its Methods away, and changes nothing else. */
  lemma DeleteResourceRemoves(c: Client, s: KV)
    requires c.op.DeleteResource? && c.seen == [] && AfterCommit(c, s) != s
    ensures forall k: Key | !k.RevisionKey? && k.rid == c.op.rid :: k !in AfterCommit(c, s).kvs
    ensures forall k: Key | k.RevisionKey? || k.rid != c.op.rid :: SameAt(s, AfterCommit(c, s), k)
  {
    var t := Committed(c, s);
  }

  /** An update that keeps the path stores the Resource as given and changes nothing else, whatever is there. */
  lemma SamePathUpdateStores(c: Client, s: KV)
    requires c.op.SamePathUpdate? && |c.seen| == 1 && AfterCommit(c, s) != s
    ensures HoldsItem(AfterCommit(c, s), ResourceKey(c.op.rid), c.op.path, c.op.body)
    ensures ResourceKey(c.op.rid) in c.seen[0].kvs
    ensures c.seen[0].kvs[ResourceKey(c.op.rid)].value.Item? ==> c.seen[0].kvs[ResourceKey(c.op.rid)].value.path == c.op.path
    ensures forall k: Key | k != ResourceKey(c.op.rid) :: SameAt(s, AfterCommit(c, s), k)
  {
    var t := Committed(c, s);
  }

  // The stored Resource still has the path the caller compared with, or has no Methods.
  ghost predicate Benign(c: Client, s: KV) {
    c.op.SamePathUpdate? && |c.seen| == 1 && Plan(c.op, c.seen).Some? ==>
      || MethodsOf(s, c.op.rid) == map[]
      || (ResourceKey(c.op.rid) in s.kvs && PathOf(s.kvs[ResourceKey(c.op.rid)].value) == c.op.path)
  }

  /** The update without a revision check keeps the paths in agreement exactly when it does not change the path. */
  lemma SamePathUpdateKeepsIff(c: Client, s: KV)
    requires c.op.SamePathUpdate? && |c.seen| == 1 && PathsAgree(s) && Plan(c.op, c.seen).Some?
    ensures PathsAgree(Write(s, Plan(c.op, c.seen).value)) <==> Benign(c, s)
  {
    var t := Plan(c.op, c.seen).value;
    var now := Write(s, t);
    if !Benign(c, s) {
      var k :| k in MethodsOf(s, c.op.rid);
      assert k in now.kvs && now.kvs[k] == s.kvs[k];
    } else {
      forall k | k in now.kvs && k.MethodKey?
        ensures ResourceKey(k.rid) in now.kvs && now.kvs[k].value.Item?
                && now.kvs[k].value.path == PathOf(now.kvs[ResourceKey(k.rid)].value)
      {
        assert k in s.kvs;
        if k.rid == c.op.rid {
          assert k in MethodsOf(s, c.op.rid);
        }
      }
    }
  }

  lemma CommitKeepsPaths(c: Client, s: KV)
    requires ClientInvariant(c, s) && |c.seen| == ReadCount(c.op) && PathsAgree(s) && Benign(c, s)
    ensures PathsAgree(AfterCommit(c, s))
  {
    var txn := Plan(c.op, c.seen);
    if txn.Some? && AllHold(s, txn.value.compares) {
      match c.op
      case SaveMethod(_, _, _, _) => SaveMethodKeeps(c, s);
      case DeleteMethod(_, _) =>
      case UpdatePath(_, _, _) => UpdatePathKeeps(c, s);
      case DeleteResource(_) =>
      case CreateResource(_, _, _, _) => CreateResourceKeeps(c, s);
      case SamePathUpdate(_, _, _) => SamePathUpdateKeepsIff(c, s);
    }
  }

  // ------------------------------------------------------------------- whole runs

  ghost predicate BenignAction(sys: System, a: Action) {
    a.CommitTxn? && a.client in sys.clients ==> Benign(sys.clients[a.client], sys.store)
  }

  ghost predicate BenignRun(sys: System, actions: seq<Action>)
    decreases |actions|
  {
    actions == [] || (BenignAction(sys, actions[0]) && BenignRun(Next(sys, actions[0]), actions[1..]))
  }

  lemma NextKeepsInvariant(sys: System, a: Action)
    requires Invariant(sys) && BenignAction(sys, a)
    ensures Invariant(Next(sys, a))
  {
    var next := Next(sys, a);
    if a.CommitTxn? && a.client in sys.clients && |sys.clients[a.client].seen| == ReadCount(sys.clients[a.client].op) {
      AfterCommitIsAhead(sys.clients[a.client], sys.store);
      CommitKeepsPaths(sys.clients[a.client], sys.store);
    }
    assert Behind(sys.store, next.store);
    forall c | c in next.clients ensures ClientInvariant(next.clients[c], next.store) {
      if c in sys.clients {
        forall i | 0 <= i < |sys.clients[c].seen| ensures Behind(sys.clients[c].seen[i], next.store) {
          BehindTransitive(sys.clients[c].seen[i], sys.store, next.store);
        }
      }
    }
  }

  /**
   In every interleaving of saves, deletes, creations and path updates, every
   draft Method carries the path of its Resource, provided the update that
   skips the revision check never overwrites a changed path.
   */
  lemma {:induction false} DraftPathsAlwaysAgree(sys: System, actions: seq<Action>)
    requires Invariant(sys) && BenignRun(sys, actions)
    ensures Invariant(Run(sys, actions))
    decreases |actions|
  {
    if actions != [] {
      NextKeepsInvariant(sys, actions[0]);
      DraftPathsAlwaysAgree(Next(sys, actions[0]), actions[1..]);
    }
  }

  /**
   The proviso is needed: whenever a client that read the path commits its
   unchecked update after another client has changed the path, every Method of
   the Resource is left with the other client's path.
   */
  lemma StaleUpdateBreaksAgreement(s: KV, rid: int, mid: int, path: string, body: string)
    requires WellFormed(s) && PathsAgree(s) && MethodKey(rid, mid) in s.kvs
    requires path != s.kvs[ResourceKey(rid)].value.path
    ensures var stale := SamePathUpdate(rid, s.kvs[ResourceKey(rid)].value.path, body);
            var sys := System(s, map[0 := Client(stale, []), 1 := Client(UpdatePath(rid, path, body), [])]);
            !PathsAgree(Run(sys, [ReadNext(0), ReadNext(1), ReadNext(1), CommitTxn(1), CommitTxn(0)]).store)
  {
    var was := s.kvs[ResourceKey(rid)].value.path;
    var stale, repath := SamePathUpdate(rid, was, body), UpdatePath(rid, path, body);
    var sys := System(s, map[0 := Client(stale, []), 1 := Client(repath, [])]);
    var first := UpdatePathTxn(repath, [s, s]).value;
    var second := Txn({}, iset{}, map[ResourceKey(rid) := Item(was, body)]);
    assert Run(sys, [ReadNext(0), ReadNext(1), ReadNext(1), CommitTxn(1), CommitTxn(0)]).store == Write(Write(s, first), second) by {
      RunFive(sys, ReadNext(0), ReadNext(1), ReadNext(1), CommitTxn(1), CommitTxn(0));
      BothRead(s, stale, repath);
      CommitsInTurn(s, stale, repath);
    }
    assert MethodKey(rid, mid) in MethodsOf(s, rid);
    StaleWriteBreaks(Write(s, first), second, rid, mid, was, path, body);
  }

  lemma StaleWriteBreaks(s: KV, t: Change, rid: int, mid: int, was: string, path: string, body: string)
    requires MethodKey(rid, mid) in s.kvs && s.kvs[MethodKey(rid, mid)].value.Item? && s.kvs[MethodKey(rid, mid)].value.path == path != was
    requires t.deletes == iset{} && t.puts == map[ResourceKey(rid) := Item(was, body)]
    ensures !PathsAgree(Write(s, t))
  {
    var now := Write(s, t);
    assert now.kvs[ResourceKey(rid)].value == Item(was, body) && now.kvs[MethodKey(rid, mid)] == s.kvs[MethodKey(rid, mid)];
  }

  lemma CommitsInTurn(s: KV, stale: Operation, repath: Operation)
    requires stale.SamePathUpdate? && repath.UpdatePath? && repath.rid == stale.rid && ResourceKey(repath.rid) in s.kvs
    requires PathOf(s.kvs[ResourceKey(stale.rid)].value) == stale.path
    ensures var first := UpdatePathTxn(repath, [s, s]).value;
            var second := Txn({}, iset{}, map[ResourceKey(stale.rid) := Item(stale.path, stale.body)]);
            Next(Next(System(s, map[0 := Client(stale, [s]), 1 := Client(repath, [s, s])]), CommitTxn(1)), CommitTxn(0)).store
            == Write(Write(s, first), second)
  {
    AllHoldAtOnce(s, repath);
    var first := UpdatePathTxn(repath, [s, s]).value;
    var sys := System(s, map[0 := Client(stale, [s]), 1 := Client(repath, [s, s])]);
    assert Next(sys, CommitTxn(1)) == System(Write(s, first), map[0 := Client(stale, [s])]);
  }

  lemma BothRead(s: KV, a: Operation, b: Operation)
    requires ReadCount(a) == 1 && ReadCount(b) == 2
    ensures Next(Next(Next(System(s, map[0 := Client(a, []), 1 := Client(b, [])]), ReadNext(0)), ReadNext(1)), ReadNext(1))
            == System(s, map[0 := Client(a, [s]), 1 := Client(b, [s, s])])
  {
    var sys := System(s, map[0 := Client(a, []), 1 := Client(b, [])]);
    assert [] + [s] == [s] && [s] + [s] == [s, s];
    var sys1 := Next(sys, ReadNext(0));
    assert sys1 == System(s, map[0 := Client(a, [s]), 1 := Client(b, [])]);
    var sys2 := Next(sys1, ReadNext(1));
    assert sys2 == System(s, map[0 := Client(a, [s]), 1 := Client(b, [s])]);
  }

  lemma AllHoldAtOnce(s: KV, op: Operation)
    requires op.UpdatePath? && ResourceKey(op.rid) in s.kvs
    ensures AllHold(s, UpdatePathTxn(op, [s, s]).value.compares)
  {
  }

  lemma RunFive(sys: System, a: Action, b: Action, c: Action, d: Action, e: Action)
    ensures Run(sys, [a, b, c, d, e]) == Next(Next(Next(Next(Next(sys, a), b), c), d), e)
  {
    RunFirst(sys, a, [b, c, d, e]);
    RunFirst(Next(sys, a), b, [c, d, e]);
    RunFirst(Next(Next(sys, a), b), c, [d, e]);
    RunFirst(Next(Next(Next(sys, a), b), c), d, [e]);
    RunFirst(Next(Next(Next(Next(sys, a), b), c), d), e, []);
    assert [a, b, c, d, e] == [a] + [b, c, d, e] && [b, c, d, e] == [b] + [c, d, e];
    assert [c, d, e] == [c] + [d, e] && [d, e] == [d] + [e] && [e] == [e] + [];
  }

  lemma RunFirst(sys: System, a: Action, rest: seq<Action>)
    ensures Run(sys, [a] + rest) == Run(Next(sys, a), rest)
  {
    assert ([a] + rest)[1..] == rest;
  }
}
