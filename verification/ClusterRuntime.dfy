/**
 A cluster's runtime: snapshots published by compare-and-swap, health verdicts
 under a mutex, a freeze, and replacement by a new runtime that inherits the
 frozen snapshot. Every load and swap is one step, in any interleaving.
 */
module ClusterRuntime {
  import opened Options
  import opened Endpoints
  import opened EndpointIdentity
  import opened EndpointSnapshot

  // A health verdict on one endpoint, or on every endpoint of an address.
  datatype Verdict = ById(id: string, address: string, healthy: bool) | ByAddress(address: string, healthy: bool)

  predicate Affects(v: Verdict, id: string, address: string) {
    v.address == address && (v.ById? ==> v.id == id)
  }

  // `previous` and `seen` name snapshots by their place in the history, as pointers do.
  datatype Thread =
    | Refreshing
    | Refreshed(seen: nat, next: Snapshot)
    | Updating(verdict: Verdict)
    | Updated(verdict: Verdict, seen: nat, next: Snapshot)

  datatype Event =
    | Accepted(verdict: Verdict)
    | Published(snapshot: Snapshot, checked: bool)
    | Frozen
    | Replaced

  // `checked` says whether health checks are configured; `log` is never read by the code.
  datatype Runtime = Runtime(history: seq<Snapshot>, checked: bool, accepting: bool, frozen: Option<Snapshot>,
                             threads: map<nat, Thread>, log: seq<Event>)

  function Current(r: Runtime): Snapshot
    requires r.history != []
  {
    r.history[|r.history| - 1]
  }

  predicate IsUpdating(t: Thread) {
    t.Updating? || t.Updated?
  }

  // Nobody holds the health mutex.
  ghost predicate Unlocked(r: Runtime) {
    forall t | t in r.threads :: !IsUpdating(r.threads[t])
  }

  // The endpoint list with the verdict written in, if the verdict names an endpoint of it.
  function Apply(s: Snapshot, v: Verdict): Option<seq<Endpoint>> {
    match v
    case ById(id, address, healthy) =>
      if id in s.addressById && s.addressById[id] == address then Some(Flagged(s.all, {id}, healthy)) else None
    case ByAddress(address, healthy) =>
      if address in Addresses(s.all) then Some(FlaggedAt(s.all, address, healthy)) else None
  }

  predicate StartRefresh(r: Runtime, t: nat, r': Runtime) {
    t !in r.threads && r' == r.(threads := r.threads[t := Refreshing])
  }

  // The configuration in force when the list is rebuilt.
  datatype Source = Source(cluster: string, endpoints: seq<Endpoint>, digest: Digest)

  ghost predicate RefreshLoad(r: Runtime, t: nat, source: Source, next: Snapshot, r': Runtime)
    requires r.history != []
  {
    && t in r.threads && r.threads[t].Refreshing?
    && IsIndex(next) && IsRebuild(source.cluster, source.endpoints, Some(Current(r)), r.checked, source.digest, next.all)
    && r' == r.(threads := r.threads[t := Refreshed(|r.history| - 1, next)])
  }

  predicate RefreshSwap(r: Runtime, t: nat, r': Runtime) {
    && t in r.threads && r.threads[t].Refreshed?
    && r' == if r.threads[t].seen == |r.history| - 1
             then r.(history := r.history + [r.threads[t].next], threads := r.threads - {t},
                     log := r.log + [Published(r.threads[t].next, r.checked)])
             else r.(threads := r.threads[t := Refreshing])
  }

  ghost predicate StartUpdate(r: Runtime, t: nat, v: Verdict, r': Runtime) {
    && t !in r.threads && Unlocked(r)
    && r' == if r.accepting then r.(threads := r.threads[t := Updating(v)]) else r
  }

  ghost predicate UpdateLoad(r: Runtime, t: nat, next: Snapshot, r': Runtime)
    requires r.history != []
  {
    && t in r.threads && r.threads[t].Updating?
    && var v := r.threads[t].verdict;
      if Apply(Current(r), v).None? then r' == r.(threads := r.threads - {t})
      else
        && IsIndex(next) && next.all == Apply(Current(r), v).value
        && next.policy == Current(r).policy && next.hashConfig == Current(r).hashConfig
        && r' == if next == Current(r) then r.(threads := r.threads - {t}, log := r.log + [Accepted(v)])
                 else r.(threads := r.threads[t := Updated(v, |r.history| - 1, next)])
  }

  predicate UpdateSwap(r: Runtime, t: nat, r': Runtime) {
    && t in r.threads && r.threads[t].Updated?
    && r' == if r.threads[t].seen == |r.history| - 1
             then r.(history := r.history + [r.threads[t].next], threads := r.threads - {t},
                     log := r.log + [Accepted(r.threads[t].verdict), Published(r.threads[t].next, r.checked)])
             else r.(threads := r.threads[t := Updating(r.threads[t].verdict)])
  }

  // SnapshotForRuntimeReplacement
  ghost predicate Freeze(r: Runtime, r': Runtime)
    requires r.history != []
  {
    Unlocked(r) && r' == r.(accepting := false, frozen := Some(Current(r)), log := r.log + [Frozen])
  }

  // A new runtime built from the frozen snapshot. Threads of the old one publish
  // into a history nobody reads any more.
  ghost predicate Replace(r: Runtime, source: Source, checked: bool, next: Snapshot, r': Runtime) {
    && r.frozen.Some?
    && IsIndex(next) && IsRebuild(source.cluster, source.endpoints, r.frozen, checked, source.digest, next.all)
    && r' == Runtime([next], checked, true, None, map[], r.log + [Replaced, Published(next, checked)])
  }

  ghost predicate ThreadStep(r: Runtime, t: nat, source: Source, v: Verdict, next: Snapshot, r': Runtime)
    requires r.history != []
  {
    || StartRefresh(r, t, r') || RefreshLoad(r, t, source, next, r') || RefreshSwap(r, t, r')
    || StartUpdate(r, t, v, r') || UpdateLoad(r, t, next, r') || UpdateSwap(r, t, r')
  }

  ghost predicate Step(r: Runtime, r': Runtime)
    requires r.history != []
  {
    || (exists t, source, v, next :: ThreadStep(r, t, source, v, next, r'))
    || Freeze(r, r')
    || (exists source, checked, next :: Replace(r, source, checked, next, r'))
  }

  predicate Has(s: Snapshot, id: string, address: string) {
    id in s.addressById && s.addressById[id] == address
  }

  // Whether the last published snapshot has the endpoint, health checks being configured.
  function Present(log: seq<Event>, id: string, address: string): bool {
    if log == [] then false
    else
      var last := log[|log| - 1];
      if last.Published? then last.checked && Has(last.snapshot, id, address) else Present(log[..|log| - 1], id, address)
  }

  // The last accepted verdict on an endpoint that has kept its ID and address since.
  function LastVerdict(log: seq<Event>, id: string, address: string): Option<bool> {
    if log == [] then None
    else
      var last, before := log[|log| - 1], log[..|log| - 1];
      match last
      case Accepted(v) =>
        if Affects(v, id, address) && Present(before, id, address) then Some(v.healthy) else LastVerdict(before, id, address)
      case Published(s, checked) => if checked && Has(s, id, address) then LastVerdict(before, id, address) else None
      case _ => LastVerdict(before, id, address)
  }

  ghost predicate Carries(s: Snapshot, id: string, address: string, verdict: Option<bool>) {
    verdict.Some? ==> Has(s, id, address) && HealthOf(s, id) == verdict.value
  }

  // The snapshot carries the last verdict on every endpoint.
  ghost predicate CarriesAll(s: Snapshot, log: seq<Event>) {
    forall id, address :: Carries(s, id, address, LastVerdict(log, id, address))
  }

  // Endpoints that both snapshots have at the same address have the same health.
  ghost predicate Inherits(s: Snapshot, t: Snapshot) {
    forall id | id in s.addressById && Has(t, id, s.addressById[id]) :: HealthOf(t, id) == HealthOf(s, id)
  }

  ghost predicate WrittenId(s: Snapshot, v: Verdict, t: Snapshot, id: string)
    requires id in s.addressById
  {
    && id in t.addressById && t.addressById[id] == s.addressById[id]
    && HealthOf(t, id) == if Affects(v, id, s.addressById[id]) then v.healthy else HealthOf(s, id)
  }

  // t is s with the verdict written in.
  ghost predicate Written(s: Snapshot, v: Verdict, t: Snapshot) {
    (forall id | id in s.addressById :: WrittenId(s, v, t, id)) && t.addressById.Keys <= s.addressById.Keys
  }

  lemma RebuildInherits(source: Source, s: Snapshot, t: Snapshot)
    requires IsIndex(t) && IsRebuild(source.cluster, source.endpoints, Some(s), true, source.digest, t.all)
    ensures Inherits(s, t)
  {
    forall id | id in s.addressById && Has(t, id, s.addressById[id]) ensures HealthOf(t, id) == HealthOf(s, id) {
      var i :| 0 <= i < |t.all| && t.all[i].id == id;
      assert t.all[i].address == s.addressById[id];
    }
  }

  lemma HealthAt(s: Snapshot, i: nat)
    requires IsIndex(s) && i < |s.all|
    ensures s.all[i].id in s.addressById && s.addressById[s.all[i].id] == s.all[i].address
    ensures HealthOf(s, s.all[i].id) == !s.all[i].unhealthy
  {}

  lemma PlaceOf(s: Snapshot, id: string) returns (i: nat)
    requires IsIndex(s) && id in s.addressById
    ensures i < |s.all| && s.all[i].id == id
  {
    i :| 0 <= i < |s.all| && s.all[i].id == id;
  }

  lemma ApplyAt(s: Snapshot, v: Verdict, i: nat)
    requires IsIndex(s) && Apply(s, v).Some? && i < |s.all|
    ensures |Apply(s, v).value| == |s.all|
    ensures Apply(s, v).value[i]
      == if Affects(v, s.all[i].id, s.all[i].address) then s.all[i].(unhealthy := !v.healthy) else s.all[i]
  {
    HealthAt(s, i);
  }

  lemma WrittenAt(s: Snapshot, v: Verdict, t: Snapshot, id: string)
    requires IsIndex(s) && IsIndex(t) && Apply(s, v) == Some(t.all) && id in s.addressById
    ensures WrittenId(s, v, t, id)
  {
    var i := PlaceOf(s, id);
    ApplyAt(s, v, i);
    HealthAt(s, i);
    HealthAt(t, i);
  }

  lemma ApplyLength(s: Snapshot, v: Verdict)
    requires Apply(s, v).Some?
    ensures |Apply(s, v).value| == |s.all|
  {}

  lemma WrittenOnly(s: Snapshot, v: Verdict, t: Snapshot, id: string)
    requires IsIndex(s) && IsIndex(t) && Apply(s, v) == Some(t.all) && id in t.addressById
    ensures id in s.addressById
  {
    ApplyLength(s, v);
    var i := PlaceOf(t, id);
    ApplyAt(s, v, i);
    HealthAt(s, i);
  }

  lemma ApplyWrites(s: Snapshot, v: Verdict, t: Snapshot)
    requires IsIndex(s) && IsIndex(t) && Apply(s, v) == Some(t.all)
    ensures Written(s, v, t)
  {
    forall id | id in s.addressById ensures WrittenId(s, v, t, id) {
      WrittenAt(s, v, t, id);
    }
    forall id | id in t.addressById ensures id in s.addressById {
      WrittenOnly(s, v, t, id);
    }
  }

  ghost predicate AllIndexed(r: Runtime) {
    forall i | 0 <= i < |r.history| :: IsIndex(r.history[i])
  }

  // What a thread computed, it computed from the snapshot it saw.
  ghost predicate ThreadsKnow(r: Runtime) {
    forall t | t in r.threads ::
      && (r.threads[t].Refreshed? ==>
          && r.threads[t].seen < |r.history| && IsIndex(r.threads[t].next)
          && (r.checked ==> Inherits(r.history[r.threads[t].seen], r.threads[t].next)))
      && (r.threads[t].Updated? ==>
          && r.threads[t].seen < |r.history| && IsIndex(r.threads[t].next)
          && Written(r.history[r.threads[t].seen], r.threads[t].verdict, r.threads[t].next))
  }

  function AcceptingAfter(log: seq<Event>): bool {
    if log == [] then true
    else match log[|log| - 1]
      case Frozen => false
      case Replaced => true
      case _ => AcceptingAfter(log[..|log| - 1])
  }

  // The last published snapshot.
  function LastPublished(log: seq<Event>): Option<Event> {
    if log == [] then None
    else if log[|log| - 1].Published? then Some(log[|log| - 1])
    else LastPublished(log[..|log| - 1])
  }

  // At every point of the log, what was accepted had not been frozen out, and
  // what was published carried the last verdicts.
  ghost predicate LogIsSound(log: seq<Event>) {
    forall i | 0 <= i < |log| ::
      && (log[i].Accepted? ==> AcceptingAfter(log[..i]))
      && (log[i].Published? ==> CarriesAll(log[i].snapshot, log[..i + 1]))
  }

  // The log agrees with the state, and the current and the frozen snapshot carry the last verdicts.
  ghost predicate LogAgrees(s: Snapshot, checked: bool, accepting: bool, frozen: Option<Snapshot>, log: seq<Event>) {
    && LogIsSound(log) && accepting == AcceptingAfter(log)
    && LastPublished(log) == Some(Published(s, checked)) && CarriesAll(s, log)
    && (frozen.Some? ==> !accepting && CarriesAll(frozen.value, log))
  }

  ghost predicate ThreadsAgree(r: Runtime) {
    AllIndexed(r) && ThreadsKnow(r) && (!r.accepting ==> Unlocked(r)) && (r.frozen.Some? ==> IsIndex(r.frozen.value))
  }

  ghost predicate Invariant(r: Runtime) {
    r.history != [] && ThreadsAgree(r) && LogAgrees(Current(r), r.checked, r.accepting, r.frozen, r.log)
  }

  lemma PresentIsCurrent(log: seq<Event>, s: Snapshot, checked: bool, id: string, address: string)
    requires LastPublished(log) == Some(Published(s, checked))
    ensures Present(log, id, address) == (checked && Has(s, id, address))
  {}

  // Publishing a snapshot that inherits keeps every verdict.
  lemma InheritedCarries(s: Snapshot, log: seq<Event>, t: Snapshot, checked: bool)
    requires CarriesAll(s, log) && (checked ==> Inherits(s, t))
    ensures CarriesAll(t, log + [Published(t, checked)])
  {
    var more := log + [Published(t, checked)];
    assert more[..|log|] == log;
    forall id, address ensures Carries(t, id, address, LastVerdict(more, id, address)) {
      assert Carries(s, id, address, LastVerdict(log, id, address));
    }
  }

  // Publishing a written verdict makes it the last one.
  lemma WrittenCarries(s: Snapshot, log: seq<Event>, v: Verdict, t: Snapshot, checked: bool)
    requires CarriesAll(s, log) && Written(s, v, t) && LastPublished(log) == Some(Published(s, checked))
    ensures CarriesAll(t, log + [Accepted(v), Published(t, checked)])
  {
    var accepted := log + [Accepted(v)];
    var more := log + [Accepted(v), Published(t, checked)];
    assert accepted[..|log|] == log && more[..|log| + 1] == accepted;
    forall id, address ensures Carries(t, id, address, LastVerdict(more, id, address)) {
      PresentIsCurrent(log, s, checked, id, address);
      assert Carries(s, id, address, LastVerdict(log, id, address));
      assert id in s.addressById ==> WrittenId(s, v, t, id);
    }
  }

  // Accepting a verdict that changes nothing: the snapshot already carries it.
  lemma UnchangedCarries(s: Snapshot, log: seq<Event>, v: Verdict, checked: bool)
    requires CarriesAll(s, log) && Written(s, v, s) && LastPublished(log) == Some(Published(s, checked))
    ensures CarriesAll(s, log + [Accepted(v)])
  {
    var accepted := log + [Accepted(v)];
    assert accepted[..|log|] == log;
    forall id, address ensures Carries(s, id, address, LastVerdict(accepted, id, address)) {
      PresentIsCurrent(log, s, checked, id, address);
      assert Carries(s, id, address, LastVerdict(log, id, address));
      assert id in s.addressById ==> WrittenId(s, v, s, id);
    }
  }

  lemma LogExtends(log: seq<Event>, e: Event)
    requires LogIsSound(log)
    requires e.Accepted? ==> AcceptingAfter(log)
    requires e.Published? ==> CarriesAll(e.snapshot, log + [e])
    ensures LogIsSound(log + [e])
    ensures AcceptingAfter(log + [e]) == if e.Frozen? then false else if e.Replaced? then true else AcceptingAfter(log)
    ensures LastPublished(log + [e]) == if e.Published? then Some(e) else LastPublished(log)
  {
    var more := log + [e];
    assert more[..|log|] == log;
    forall i | 0 <= i < |more|
      ensures (more[i].Accepted? ==> AcceptingAfter(more[..i])) && (more[i].Published? ==> CarriesAll(more[i].snapshot, more[..i + 1]))
    {
      if i < |log| {
        assert more[..i] == log[..i] && more[..i + 1] == log[..i + 1] && more[i] == log[i];
      } else {
        assert more[..i + 1] == more;
      }
    }
  }

  lemma QuietEventCarries(s: Snapshot, log: seq<Event>, e: Event)
    requires CarriesAll(s, log) && (e.Frozen? || e.Replaced?)
    ensures CarriesAll(s, log + [e])
  {
    assert (log + [e])[..|log|] == log;
    forall id, address ensures Carries(s, id, address, LastVerdict(log + [e], id, address)) {
      assert Carries(s, id, address, LastVerdict(log, id, address));
    }
  }

  // Whatever the old runtime publishes after the freeze, the frozen snapshot still carries the verdicts.
  lemma FrozenCarries(s: Snapshot, log: seq<Event>, t: Snapshot, checked: bool)
    requires CarriesAll(s, log)
    ensures CarriesAll(s, log + [Published(t, checked)])
  {
    var more := log + [Published(t, checked)];
    assert more[..|log|] == log;
    forall id, address ensures Carries(s, id, address, LastVerdict(more, id, address)) {
      assert Carries(s, id, address, LastVerdict(log, id, address));
    }
  }

  lemma PublishInherited(s: Snapshot, checked: bool, accepting: bool, frozen: Option<Snapshot>, log: seq<Event>, t: Snapshot)
    requires LogAgrees(s, checked, accepting, frozen, log) && (checked ==> Inherits(s, t))
    ensures LogAgrees(t, checked, accepting, frozen, log + [Published(t, checked)])
  {
    InheritedCarries(s, log, t, checked);
    LogExtends(log, Published(t, checked));
    if frozen.Some? {
      FrozenCarries(frozen.value, log, t, checked);
    }
  }

  lemma PublishWritten(s: Snapshot, checked: bool, log: seq<Event>, v: Verdict, t: Snapshot)
    requires LogAgrees(s, checked, true, None, log) && Written(s, v, t)
    ensures LogAgrees(t, checked, true, None, log + [Accepted(v), Published(t, checked)])
  {
    WrittenCarries(s, log, v, t, checked);
    var accepted := log + [Accepted(v)];
    assert log + [Accepted(v), Published(t, checked)] == accepted + [Published(t, checked)];
    LogExtends(log, Accepted(v));
    LogExtends(accepted, Published(t, checked));
  }

  lemma AcceptUnchanged(s: Snapshot, checked: bool, log: seq<Event>, v: Verdict)
    requires LogAgrees(s, checked, true, None, log) && Written(s, v, s)
    ensures LogAgrees(s, checked, true, None, log + [Accepted(v)])
  {
    UnchangedCarries(s, log, v, checked);
    LogExtends(log, Accepted(v));
  }

  // A thread that updates holds the mutex, so the runtime is not frozen.
  lemma UpdatingIsAccepting(r: Runtime, t: nat)
    requires Invariant(r) && t in r.threads && IsUpdating(r.threads[t])
    ensures r.accepting && r.frozen == None
  {}

  lemma PublishKeepsThreads(r: Runtime, t: nat, r': Runtime)
    requires ThreadsAgree(r) && t in r.threads && (r.threads[t].Refreshed? || r.threads[t].Updated?)
    requires r'.history == r.history + [r.threads[t].next] && r'.threads == r.threads - {t}
    requires r'.checked == r.checked && r'.accepting == r.accepting && r'.frozen == r.frozen
    ensures ThreadsAgree(r')
  {
    forall q | q in r'.threads && (r'.threads[q].Refreshed? || r'.threads[q].Updated?)
      ensures r.threads[q].seen < |r.history| && r'.history[r'.threads[q].seen] == r.history[r'.threads[q].seen]
    {}
  }

  // A thread moves on without publishing.
  lemma MoveKeepsThreads(r: Runtime, t: nat, th: Thread, r': Runtime)
    requires ThreadsAgree(r) && ThreadsKnow(r.(threads := map[t := th]))
    requires IsUpdating(th) ==> r.accepting
    requires r'.history == r.history && r'.checked == r.checked && r'.accepting == r.accepting && r'.frozen == r.frozen
    requires r'.threads == r.threads[t := th]
    ensures ThreadsAgree(r')
  {
    var one := r.(threads := map[t := th]);
    assert t in one.threads && one.threads[t] == th;
  }

  lemma SeenIsKnown(r: Runtime, t: nat)
    requires r.history != [] && ThreadsKnow(r) && t in r.threads
    ensures r.threads[t].Refreshed? && r.threads[t].seen == |r.history| - 1 && r.checked ==> Inherits(Current(r), r.threads[t].next)
    ensures r.threads[t].Updated? && r.threads[t].seen == |r.history| - 1 ==>
      Written(Current(r), r.threads[t].verdict, r.threads[t].next)
  {}

  // A successful swap: the log agrees with the swapped snapshot, the other threads still know what they saw.
  lemma SwapKeeps(r: Runtime, t: nat, more: seq<Event>, r': Runtime)
    requires Invariant(r) && t in r.threads && (r.threads[t].Refreshed? || r.threads[t].Updated?)
    requires LogAgrees(r.threads[t].next, r.checked, r.accepting, r.frozen, r.log + more)
    requires r' == r.(history := r.history + [r.threads[t].next], threads := r.threads - {t}, log := r.log + more)
    ensures Invariant(r')
  {
    PublishKeepsThreads(r, t, r');
  }

  lemma RefreshSwapKeeps(r: Runtime, t: nat, r': Runtime)
    requires Invariant(r) && RefreshSwap(r, t, r')
    ensures Invariant(r')
  {
    var th := r.threads[t];
    if th.seen == |r.history| - 1 {
      SeenIsKnown(r, t);
      PublishInherited(Current(r), r.checked, r.accepting, r.frozen, r.log, th.next);
      SwapKeeps(r, t, [Published(th.next, r.checked)], r');
    } else {
      MoveKeepsThreads(r, t, Refreshing, r');
    }
  }

  lemma UpdateSwapKeeps(r: Runtime, t: nat, r': Runtime)
    requires Invariant(r) && UpdateSwap(r, t, r')
    ensures Invariant(r')
  {
    var th := r.threads[t];
    UpdatingIsAccepting(r, t);
    if th.seen == |r.history| - 1 {
      SeenIsKnown(r, t);
      PublishWritten(Current(r), r.checked, r.log, th.verdict, th.next);
      SwapKeeps(r, t, [Accepted(th.verdict), Published(th.next, r.checked)], r');
    } else {
      MoveKeepsThreads(r, t, Updating(th.verdict), r');
    }
  }

  lemma LeaveKeepsThreads(r: Runtime, t: nat, r': Runtime)
    requires ThreadsAgree(r)
    requires r'.history == r.history && r'.checked == r.checked && r'.accepting == r.accepting && r'.frozen == r.frozen
    requires r'.threads == r.threads - {t}
    ensures ThreadsAgree(r')
  {}

  lemma UnchangedUpdateKeeps(r: Runtime, t: nat, v: Verdict, r': Runtime)
    requires Invariant(r) && r.accepting && r.frozen == None && Written(Current(r), v, Current(r))
    requires r' == r.(threads := r.threads - {t}, log := r.log + [Accepted(v)])
    ensures Invariant(r')
  {
    AcceptUnchanged(Current(r), r.checked, r.log, v);
    LeaveKeepsThreads(r, t, r');
  }

  lemma ComputedUpdateKeeps(r: Runtime, t: nat, v: Verdict, next: Snapshot, r': Runtime)
    requires Invariant(r) && r.accepting && Written(Current(r), v, next) && IsIndex(next)
    requires r' == r.(threads := r.threads[t := Updated(v, |r.history| - 1, next)])
    ensures Invariant(r')
  {
    MoveKeepsThreads(r, t, Updated(v, |r.history| - 1, next), r');
  }

  lemma UpdateLoadKeeps(r: Runtime, t: nat, next: Snapshot, r': Runtime)
    requires Invariant(r) && UpdateLoad(r, t, next, r')
    ensures Invariant(r')
  {
    var v, s := r.threads[t].verdict, Current(r);
    UpdatingIsAccepting(r, t);
    if Apply(s, v).None? {
      LeaveKeepsThreads(r, t, r');
    } else {
      assert IsIndex(s);
      ApplyWrites(s, v, next);
      if next == s {
        UnchangedUpdateKeeps(r, t, v, r');
      } else {
        ComputedUpdateKeeps(r, t, v, next, r');
      }
    }
  }

  lemma RefreshLoadKeeps(r: Runtime, t: nat, source: Source, next: Snapshot, r': Runtime)
    requires Invariant(r) && RefreshLoad(r, t, source, next, r')
    ensures Invariant(r')
  {
    if r.checked {
      RebuildInherits(source, Current(r), next);
    }
    MoveKeepsThreads(r, t, Refreshed(|r.history| - 1, next), r');
  }

  lemma StartKeeps(r: Runtime, t: nat, v: Verdict, r': Runtime)
    requires Invariant(r) && (StartRefresh(r, t, r') || StartUpdate(r, t, v, r'))
    ensures Invariant(r')
  {
    if StartRefresh(r, t, r') {
      MoveKeepsThreads(r, t, Refreshing, r');
    } else if r.accepting {
      MoveKeepsThreads(r, t, Updating(v), r');
    }
  }

  lemma FreezeKeeps(r: Runtime, r': Runtime)
    requires Invariant(r) && Freeze(r, r')
    ensures Invariant(r')
  {
    QuietEventCarries(Current(r), r.log, Frozen);
    LogExtends(r.log, Frozen);
  }

  lemma ReplaceKeeps(r: Runtime, source: Source, checked: bool, next: Snapshot, r': Runtime)
    requires Invariant(r) && Replace(r, source, checked, next, r')
    ensures Invariant(r')
  {
    var frozen := r.frozen.value;
    if checked {
      RebuildInherits(source, frozen, next);
    }
    var replaced := r.log + [Replaced];
    assert r'.log == replaced + [Published(next, checked)];
    QuietEventCarries(frozen, r.log, Replaced);
    InheritedCarries(frozen, replaced, next, checked);
    LogExtends(r.log, Replaced);
    LogExtends(replaced, Published(next, checked));
  }

  lemma ThreadStepKeeps(r: Runtime, t: nat, source: Source, v: Verdict, next: Snapshot, r': Runtime)
    requires Invariant(r) && ThreadStep(r, t, source, v, next, r')
    ensures Invariant(r')
  {
    if RefreshLoad(r, t, source, next, r') {
      RefreshLoadKeeps(r, t, source, next, r');
    } else if RefreshSwap(r, t, r') {
      RefreshSwapKeeps(r, t, r');
    } else if UpdateLoad(r, t, next, r') {
      UpdateLoadKeeps(r, t, next, r');
    } else if UpdateSwap(r, t, r') {
      UpdateSwapKeeps(r, t, r');
    } else {
      StartKeeps(r, t, v, r');
    }
  }

  lemma StepKeepsInvariant(r: Runtime, r': Runtime)
    requires Invariant(r) && Step(r, r')
    ensures Invariant(r')
  {
    if t, source, v, next :| ThreadStep(r, t, source, v, next, r') {
      ThreadStepKeeps(r, t, source, v, next, r');
    } else if Freeze(r, r') {
      FreezeKeeps(r, r');
    } else {
      var source, checked, next :| Replace(r, source, checked, next, r');
      ReplaceKeeps(r, source, checked, next, r');
    }
  }

  // A new runtime has published its first snapshot and nothing else.
  ghost predicate Initial(r: Runtime) {
    && |r.history| == 1 && IsIndex(r.history[0]) && r.accepting && r.frozen == None && r.threads == map[]
    && r.log == [Published(r.history[0], r.checked)]
  }

  ghost predicate StepAt(run: seq<Runtime>, i: nat)
    requires 0 < i < |run|
  {
    run[i - 1].history != [] && Step(run[i - 1], run[i])
  }

  ghost predicate Run(run: seq<Runtime>) {
    run != [] && Initial(run[0]) && forall i: nat | 0 < i < |run| :: StepAt(run, i)
  }

  lemma InitialInvariant(r: Runtime)
    requires Initial(r)
    ensures Invariant(r)
  {
    assert r.log[..0] == [] && r.log[..1] == r.log;
    forall id, address ensures LastVerdict(r.log, id, address) == None {}
  }

  lemma {:induction false} RunKeepsInvariant(run: seq<Runtime>, i: nat)
    requires Run(run) && i < |run|
    ensures Invariant(run[i])
  {
    if i == 0 {
      InitialInvariant(run[0]);
    } else {
      RunKeepsInvariant(run, i - 1);
      assert StepAt(run, i);
      StepKeepsInvariant(run[i - 1], run[i]);
    }
  }

  /**
   An accepted verdict is never lost. In every run, every snapshot ever
   published, and the current one, carries the last verdict accepted before it
   on each endpoint that has kept its ID and address, through racing refreshes,
   freezes and replacements, as long as health checks stay configured.
   */
  lemma VerdictsAreNeverLost(run: seq<Runtime>, n: nat, m: nat, id: string, address: string)
    requires Run(run) && n < |run|
    ensures run[n].history != [] && Carries(Current(run[n]), id, address, LastVerdict(run[n].log, id, address))
    ensures m < |run[n].log| && run[n].log[m].Published? ==>
      Carries(run[n].log[m].snapshot, id, address, LastVerdict(run[n].log[..m + 1], id, address))
  {
    RunKeepsInvariant(run, n);
  }

  /** Once frozen, a runtime accepts no verdict: an accepted one is preceded by a replacement. */
  lemma {:induction false} NothingIsAcceptedWhileFrozen(run: seq<Runtime>, n: nat, k: nat, m: nat)
    requires Run(run) && n < |run| && k < m < |run[n].log|
    requires run[n].log[k].Frozen? && run[n].log[m].Accepted?
    ensures exists j | k < j < m :: run[n].log[j].Replaced?
  {
    RunKeepsInvariant(run, n);
    ReplacedSinceFreeze(run[n].log, k, m);
  }

  lemma {:induction false} ReplacedSinceFreeze(log: seq<Event>, k: nat, m: nat)
    requires k < m <= |log| && log[k].Frozen? && AcceptingAfter(log[..m])
    ensures exists j | k < j < m :: log[j].Replaced?
    decreases m
  {
    assert log[..m][..m - 1] == log[..m - 1] && log[..m][m - 1] == log[m - 1];
    if !log[m - 1].Replaced? {
      ReplacedSinceFreeze(log, k, m - 1);
    }
  }
}
