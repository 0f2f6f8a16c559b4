/**
 The immutable endpoint snapshots that requests pick from: several indexes over
 one endpoint list. A snapshot is built from configuration and the snapshot
 before it, and a health verdict derives a successor without rebuilding.
 */
module EndpointSnapshot {
  import opened Options
  import opened Endpoints
  import opened EndpointIdentity

  datatype HashConfig = HashConfig(replicaNum: int, maxVnodeNum: int, maglevTableSize: int, other: int)

  datatype Snapshot = Snapshot(
    all: seq<Endpoint>, healthy: seq<Endpoint>,
    byId: map<string, Endpoint>, healthyById: map<string, Endpoint>,
    addressById: map<string, string>, healthById: map<string, bool>, healthByAddress: map<string, bool>,
    policy: string, hashConfig: HashConfig)

  function Ids(all: seq<Endpoint>): set<string> {
    set i | 0 <= i < |all| :: all[i].id
  }

  function Addresses(all: seq<Endpoint>): set<string> {
    set i | 0 <= i < |all| :: all[i].address
  }

  predicate IsNew(all: seq<Endpoint>, i: nat)
    requires i < |all|
  {
    all[i].id !in Ids(all[..i])
  }

  // No endpoint has the ID of one before it.
  predicate UniqueIds(all: seq<Endpoint>) {
    forall i: nat | i < |all| :: IsNew(all, i)
  }

  // IDs that are not empty and not shared.
  predicate OwnIds(es: seq<Endpoint>) {
    UniqueIds(es) && forall i | 0 <= i < |es| :: es[i].id != ""
  }

  // The same endpoints up to their runtime health.
  ghost predicate SameEndpoints(all: seq<Endpoint>, es: seq<Endpoint>) {
    |all| == |es| && forall i | 0 <= i < |es| :: all[i] == es[i].(unhealthy := all[i].unhealthy)
  }

  // The healthy endpoints, in order.
  function Healthy(all: seq<Endpoint>): seq<Endpoint> {
    if all == [] then []
    else var last := all[|all| - 1];
      if last.unhealthy then Healthy(all[..|all| - 1]) else Healthy(all[..|all| - 1]) + [last]
  }

  // An address is healthy when every endpoint there is.
  ghost predicate HealthyAt(all: seq<Endpoint>, address: string) {
    forall i | 0 <= i < |all| && all[i].address == address :: !all[i].unhealthy
  }

  function Itself(e: Endpoint): Endpoint {
    e
  }

  function AddressOf(e: Endpoint): string {
    e.address
  }

  function IsHealthy(e: Endpoint): bool {
    !e.unhealthy
  }

  // A map from the endpoint IDs to f of each endpoint.
  ghost predicate Indexes<V>(all: seq<Endpoint>, m: map<string, V>, f: Endpoint -> V) {
    m.Keys == Ids(all) && forall i | 0 <= i < |all| :: all[i].id in m && m[all[i].id] == f(all[i])
  }

  ghost predicate HealthyByIdIndex(all: seq<Endpoint>, m: map<string, Endpoint>) {
    m.Keys <= Ids(all)
    && forall i | 0 <= i < |all| :: (all[i].id in m <==> !all[i].unhealthy) && (all[i].id in m ==> m[all[i].id] == all[i])
  }

  ghost predicate AddressHealthIndex(all: seq<Endpoint>, m: map<string, bool>) {
    m.Keys == Addresses(all) && forall a | a in m :: m[a] == HealthyAt(all, a)
  }

  // Every index says what the endpoint list says.
  ghost predicate IsIndex(s: Snapshot) {
    && s.healthy == Healthy(s.all)
    && Indexes(s.all, s.byId, Itself) && HealthyByIdIndex(s.all, s.healthyById)
    && Indexes(s.all, s.addressById, AddressOf) && Indexes(s.all, s.healthById, IsHealthy)
    && AddressHealthIndex(s.all, s.healthByAddress)
  }

  lemma IndexesUnique<V>(all: seq<Endpoint>, m: map<string, V>, n: map<string, V>, f: Endpoint -> V)
    requires Indexes(all, m, f) && Indexes(all, n, f)
    ensures m == n
  {
    forall id | id in m ensures id in n && m[id] == n[id] {
      var i :| 0 <= i < |all| && all[i].id == id;
    }
  }

  lemma HealthyByIdUnique(all: seq<Endpoint>, m: map<string, Endpoint>, n: map<string, Endpoint>)
    requires HealthyByIdIndex(all, m) && HealthyByIdIndex(all, n)
    ensures m == n
  {
    forall id | id in m.Keys + n.Keys ensures id in m && id in n && m[id] == n[id] {
      var i :| 0 <= i < |all| && all[i].id == id;
    }
  }

  lemma AddressHealthUnique(all: seq<Endpoint>, m: map<string, bool>, n: map<string, bool>)
    requires AddressHealthIndex(all, m) && AddressHealthIndex(all, n)
    ensures m == n
  {}

  /** The indexes are determined by the list: an indexed snapshot is the rebuilt one. */
  lemma IndexIsUnique(s: Snapshot, t: Snapshot)
    requires IsIndex(s) && IsIndex(t) && s.all == t.all && s.policy == t.policy && s.hashConfig == t.hashConfig
    ensures s == t
  {
    assert s.byId == t.byId by { IndexesUnique(s.all, s.byId, t.byId, Itself); }
    assert s.healthyById == t.healthyById by { HealthyByIdUnique(s.all, s.healthyById, t.healthyById); }
    assert s.addressById == t.addressById by { IndexesUnique(s.all, s.addressById, t.addressById, AddressOf); }
    assert s.healthById == t.healthById by { IndexesUnique(s.all, s.healthById, t.healthById, IsHealthy); }
    assert s.healthByAddress == t.healthByAddress by { AddressHealthUnique(s.all, s.healthByAddress, t.healthByAddress); }
  }

  function Empty(policy: string, hashConfig: HashConfig): Snapshot {
    Snapshot([], [], map[], map[], map[], map[], map[], policy, hashConfig)
  }

  function AddAddressHealth(m: map<string, bool>, address: string, healthy: bool): map<string, bool> {
    m[address := if address in m then m[address] && healthy else healthy]
  }

  // addEndpoint, with the endpoint's flag set to the verdict.
  function Add(s: Snapshot, e: Endpoint): Snapshot {
    var healthy := !e.unhealthy;
    s.(all := s.all + [e],
       healthy := if healthy then s.healthy + [e] else s.healthy,
       byId := s.byId[e.id := e],
       healthyById := if healthy then s.healthyById[e.id := e] else s.healthyById,
       addressById := s.addressById[e.id := e.address],
       healthById := s.healthById[e.id := healthy],
       healthByAddress := AddAddressHealth(s.healthByAddress, e.address, healthy))
  }

  lemma IdsExtend(all: seq<Endpoint>, e: Endpoint)
    ensures Ids(all + [e]) == Ids(all) + {e.id} && Addresses(all + [e]) == Addresses(all) + {e.address}
  {
    var more := all + [e];
    assert more[|all|] == e;
    forall x | x in Ids(all) ensures x in Ids(more) {
      var i :| 0 <= i < |all| && all[i].id == x;
      assert more[i].id == x;
    }
    forall x | x in Addresses(all) ensures x in Addresses(more) {
      var i :| 0 <= i < |all| && all[i].address == x;
      assert more[i].address == x;
    }
  }

  lemma IndexesExtend<V>(all: seq<Endpoint>, m: map<string, V>, f: Endpoint -> V, e: Endpoint)
    requires Indexes(all, m, f) && e.id !in Ids(all)
    ensures Indexes(all + [e], m[e.id := f(e)], f)
  {
    IdsExtend(all, e);
  }

  lemma HealthyByIdExtends(all: seq<Endpoint>, m: map<string, Endpoint>, e: Endpoint)
    requires HealthyByIdIndex(all, m) && e.id !in Ids(all)
    ensures HealthyByIdIndex(all + [e], if e.unhealthy then m else m[e.id := e])
  {
    IdsExtend(all, e);
  }

  lemma AddressHealthExtends(all: seq<Endpoint>, m: map<string, bool>, e: Endpoint)
    requires AddressHealthIndex(all, m)
    ensures AddressHealthIndex(all + [e], AddAddressHealth(m, e.address, !e.unhealthy))
  {
    IdsExtend(all, e);
    var more, n := all + [e], AddAddressHealth(m, e.address, !e.unhealthy);
    forall a | a in n ensures n[a] == HealthyAt(more, a) {
      assert more[|all|] == e;
      assert HealthyAt(more, a) == (HealthyAt(all, a) && (e.address == a ==> !e.unhealthy)) by {
        if HealthyAt(more, a) {
          forall i | 0 <= i < |all| && all[i].address == a ensures !all[i].unhealthy {
            assert more[i] == all[i];
          }
        }
      }
      if a == e.address && a !in m {
        assert HealthyAt(all, a);
      }
    }
  }

  lemma HealthyExtends(all: seq<Endpoint>, e: Endpoint)
    ensures Healthy(all + [e]) == if e.unhealthy then Healthy(all) else Healthy(all) + [e]
  {
    assert (all + [e])[..|all|] == all;
  }

  lemma UniqueIdsExtend(all: seq<Endpoint>, e: Endpoint)
    requires UniqueIds(all) && e.id !in Ids(all)
    ensures UniqueIds(all + [e])
  {
    var more := all + [e];
    forall i: nat | i < |more| ensures IsNew(more, i) {
      if i < |all| {
        assert IsNew(all, i) && more[..i] == all[..i];
      } else {
        assert more[..i] == all;
      }
    }
  }

  lemma AddKeepsIndex(s: Snapshot, e: Endpoint)
    requires IsIndex(s) && e.id !in Ids(s.all)
    ensures IsIndex(Add(s, e))
  {
    var t := Add(s, e);
    assert t.healthy == Healthy(t.all) by { HealthyExtends(s.all, e); }
    assert Indexes(t.all, t.byId, Itself) by { IndexesExtend(s.all, s.byId, Itself, e); }
    assert HealthyByIdIndex(t.all, t.healthyById) by { HealthyByIdExtends(s.all, s.healthyById, e); }
    assert Indexes(t.all, t.addressById, AddressOf) by { IndexesExtend(s.all, s.addressById, AddressOf, e); }
    assert Indexes(t.all, t.healthById, IsHealthy) by { IndexesExtend(s.all, s.healthById, IsHealthy, e); }
    assert AddressHealthIndex(t.all, t.healthByAddress) by { AddressHealthExtends(s.all, s.healthByAddress, e); }
  }

  // The health a rebuilt endpoint starts with: while health checks are
  // configured, the last verdict on its ID and address, then on its address.
  function SnapshotHealth(e: Endpoint, previous: Option<Snapshot>, inherit: bool): bool {
    if previous.None? || !inherit then !e.unhealthy
    else
      var p := previous.value;
      if e.id in p.addressById && p.addressById[e.id] == e.address then e.id in p.healthById && p.healthById[e.id]
      else if e.address in p.healthByAddress then p.healthByAddress[e.address]
      else !e.unhealthy
  }

  function WithVerdict(e: Endpoint, id: string, previous: Option<Snapshot>, inherit: bool): Endpoint {
    e.(id := id, unhealthy := !SnapshotHealth(e.(id := id), previous, inherit))
  }

  function Present(slots: Slots): seq<Endpoint> {
    if slots == [] then []
    else
      var last := slots[|slots| - 1];
      Present(slots[..|slots| - 1]) + if last.Some? then [last.value] else []
  }

  // The endpoints of a rebuild: IDs resolved in order, health inherited.
  ghost predicate IsRebuild(cluster: string, endpoints: seq<Endpoint>, previous: Option<Snapshot>, inherit: bool, digest: Digest, all: seq<Endpoint>) {
    && |all| == |endpoints|
    && (forall i | 0 <= i < |all| ::
          && IsResolved(BaseId(cluster, endpoints[i], digest), Ids(all[..i]), all[i].id)
          && all[i] == WithVerdict(endpoints[i], all[i].id, previous, inherit))
  }

  lemma RebuildExtends(cluster: string, endpoints: seq<Endpoint>, previous: Option<Snapshot>, inherit: bool, digest: Digest,
                       all: seq<Endpoint>, e: Endpoint, id: string)
    requires IsRebuild(cluster, endpoints, previous, inherit, digest, all)
    requires IsResolved(BaseId(cluster, e, digest), Ids(all), id)
    ensures IsRebuild(cluster, endpoints + [e], previous, inherit, digest, all + [WithVerdict(e, id, previous, inherit)])
  {
    var more := all + [WithVerdict(e, id, previous, inherit)];
    forall i | 0 <= i <= |all| ensures more[..i] == all[..i] {}
    assert all[..|all|] == all;
  }

  method AddResolved(cluster: string, s: Snapshot, e: Endpoint, previous: Option<Snapshot>, inherit: bool, digest: Digest)
    returns (id: string, t: Snapshot)
    requires IsIndex(s) && UniqueIds(s.all)
    ensures IsIndex(t) && UniqueIds(t.all) && t.policy == s.policy && t.hashConfig == s.hashConfig
    ensures IsResolved(BaseId(cluster, e, digest), Ids(s.all), id) && t.all == s.all + [WithVerdict(e, id, previous, inherit)]
  {
    id := StableUniqueId(cluster, e, s.addressById.Keys, digest);
    var added := WithVerdict(e, id, previous, inherit);
    AddKeepsIndex(s, added);
    UniqueIdsExtend(s.all, added);
    t := Add(s, added);
  }

  lemma PresentExtends(slots: Slots, i: nat)
    requires i < |slots|
    ensures Present(slots[..i + 1]) == Present(slots[..i]) + if slots[i].Some? then [slots[i].value] else []
  {
    assert slots[..i + 1][..i] == slots[..i];
  }

  function AsSlots(es: seq<Endpoint>): (slots: Slots)
    ensures |slots| == |es| && forall i | 0 <= i < |es| :: slots[i] == Some(es[i])
  {
    seq(|es|, i requires 0 <= i < |es| => Some(es[i]))
  }

  lemma {:induction false} PresentSlots(es: seq<Endpoint>)
    ensures Present(AsSlots(es)) == es
  {
    if es != [] {
      PresentSlots(es[..|es| - 1]);
      assert AsSlots(es)[..|es| - 1] == AsSlots(es[..|es| - 1]);
    }
  }

  // A rebuild moves no ID of endpoints whose IDs are their own.
  lemma {:induction false} RebuildKeepsIds(cluster: string, es: seq<Endpoint>, previous: Option<Snapshot>, inherit: bool, digest: Digest,
                                          all: seq<Endpoint>, n: nat)
    requires OwnIds(es) && IsRebuild(cluster, es, previous, inherit, digest, all) && n <= |es|
    ensures forall i | 0 <= i < n :: all[i].id == es[i].id
  {
    if n > 0 {
      RebuildKeepsIds(cluster, es, previous, inherit, digest, all, n - 1);
      assert IsNew(es, n - 1);
      var id := es[n - 1].id;
      forall i | 0 <= i < n - 1 ensures all[i].id != id {
        assert es[..n - 1][i].id in Ids(es[..n - 1]);
      }
      assert id !in Ids(all[..n - 1]);
      FreeBaseIsKept(id, Ids(all[..n - 1]));
      ResolvedIsUnique(id, Ids(all[..n - 1]), id, all[n - 1].id);
    }
  }

  lemma RebuildOwnsIds(cluster: string, endpoints: seq<Endpoint>, previous: Option<Snapshot>, inherit: bool, digest: Digest, all: seq<Endpoint>)
    requires IsRebuild(cluster, endpoints, previous, inherit, digest, all) && UniqueIds(all)
    ensures OwnIds(all)
  {
    forall i | 0 <= i < |all| ensures all[i].id != "" {
      assert IsResolved(BaseId(cluster, endpoints[i], digest), Ids(all[..i]), all[i].id);
    }
  }

  // Every endpoint that kept its ID and address kept its verdict.
  ghost predicate KeepsVerdicts(before: seq<Endpoint>, after: seq<Endpoint>) {
    forall i, j | 0 <= i < |before| && 0 <= j < |after| && before[i].id == after[j].id && before[i].address == after[j].address ::
      after[j].unhealthy == before[i].unhealthy
  }

  lemma RebuildKeepsVerdicts(cluster: string, es: seq<Endpoint>, previous: Snapshot, digest: Digest, all: seq<Endpoint>)
    requires IsRebuild(cluster, es, Some(previous), true, digest, all)
    requires Indexes(previous.all, previous.addressById, AddressOf) && Indexes(previous.all, previous.healthById, IsHealthy)
    ensures KeepsVerdicts(previous.all, all)
  {
    forall i, j | 0 <= i < |previous.all| && 0 <= j < |all| && previous.all[i].id == all[j].id && previous.all[i].address == all[j].address
      ensures all[j].unhealthy == previous.all[i].unhealthy
    {
      assert all[j] == WithVerdict(es[j], all[j].id, Some(previous), true);
      assert previous.addressById[all[j].id] == AddressOf(previous.all[i]) && previous.healthById[all[j].id] == IsHealthy(previous.all[i]);
    }
  }

  // The endpoint was in the list, under the same ID and address.
  ghost predicate WasThere(before: seq<Endpoint>, e: Endpoint) {
    exists i :: 0 <= i < |before| && before[i].id == e.id && before[i].address == e.address
  }

  // Health inherited from a list: the endpoint's own, else that of all endpoints at
  // its address together, else the configured one.
  ghost predicate InheritsHealth(before: seq<Endpoint>, configured: seq<Endpoint>, after: seq<Endpoint>)
    requires |configured| == |after|
  {
    && KeepsVerdicts(before, after)
    && forall j | 0 <= j < |after| && !WasThere(before, after[j]) ::
         after[j].unhealthy == if after[j].address in Addresses(before) then !HealthyAt(before, after[j].address) else configured[j].unhealthy
  }

  // The configured endpoints, but for the ID and the health they start with.
  ghost predicate StartsFrom(previous: Option<seq<Endpoint>>, configured: seq<Endpoint>, all: seq<Endpoint>) {
    && |all| == |configured|
    && (forall j | 0 <= j < |all| :: all[j] == configured[j].(id := all[j].id, unhealthy := all[j].unhealthy))
    && match previous
       case None => forall j | 0 <= j < |all| :: all[j].unhealthy == configured[j].unhealthy
       case Some(before) => InheritsHealth(before, configured, all)
  }

  lemma AddressDecides(cluster: string, es: seq<Endpoint>, previous: Snapshot, digest: Digest, all: seq<Endpoint>, j: nat)
    requires IsRebuild(cluster, es, Some(previous), true, digest, all) && j < |all| && !WasThere(previous.all, all[j])
    requires Indexes(previous.all, previous.addressById, AddressOf) && AddressHealthIndex(previous.all, previous.healthByAddress)
    ensures all[j].unhealthy
            == if all[j].address in Addresses(previous.all) then !HealthyAt(previous.all, all[j].address) else es[j].unhealthy
  {
    var id, address := all[j].id, all[j].address;
    assert all[j] == WithVerdict(es[j], id, Some(previous), true);
    if id in previous.addressById {
      var i :| 0 <= i < |previous.all| && previous.all[i].id == id;
      assert previous.addressById[id] == previous.all[i].address != address;
    }
  }

  /** The health every rebuilt endpoint starts with, told by the lists alone. */
  lemma RebuildStartsFrom(cluster: string, es: seq<Endpoint>, previous: Option<Snapshot>, inherit: bool, digest: Digest, all: seq<Endpoint>)
    requires IsRebuild(cluster, es, previous, inherit, digest, all) && (previous.Some? ==> IsIndex(previous.value))
    ensures StartsFrom(if previous.Some? && inherit then Some(previous.value.all) else None, es, all)
  {
    assert forall j | 0 <= j < |all| :: all[j] == WithVerdict(es[j], all[j].id, previous, inherit);
    if previous.Some? && inherit {
      RebuildKeepsVerdicts(cluster, es, previous.value, digest, all);
      forall j: nat | j < |all| && !WasThere(previous.value.all, all[j])
        ensures all[j].unhealthy == if all[j].address in Addresses(previous.value.all)
                                    then !HealthyAt(previous.value.all, all[j].address) else es[j].unhealthy
      {
        AddressDecides(cluster, es, previous.value, digest, all, j);
      }
    }
  }

  lemma IdsDiffer(all: seq<Endpoint>, i: nat, j: nat)
    requires UniqueIds(all) && i < j < |all|
    ensures all[i].id != all[j].id
  {
    assert IsNew(all, j) && all[..j][i].id in Ids(all[..j]);
  }

  lemma KeepsOwnVerdicts(all: seq<Endpoint>)
    requires UniqueIds(all)
    ensures KeepsVerdicts(all, all)
  {
    forall i: nat, j: nat | i < |all| && j < |all| && i != j ensures all[i].id != all[j].id {
      if i < j {
        IdsDiffer(all, i, j);
      } else {
        IdsDiffer(all, j, i);
      }
    }
  }

  // The snapshot that newEndpointSnapshot makes of a configuration.
  ghost predicate IsBuilt(cluster: string, slots: Slots, previous: Option<Snapshot>, inherit: bool, policy: string, hashConfig: HashConfig,
                          digest: Digest, s: Snapshot)
  {
    && IsIndex(s) && OwnIds(s.all) && s.policy == policy && s.hashConfig == hashConfig
    && IsRebuild(cluster, Present(slots), previous, inherit, digest, s.all)
  }

  /** newEndpointSnapshot: every index agrees with the rebuilt list. */
  method Build(cluster: string, slots: Slots, previous: Option<Snapshot>, inherit: bool, policy: string, hashConfig: HashConfig, digest: Digest)
    returns (s: Snapshot)
    ensures IsBuilt(cluster, slots, previous, inherit, policy, hashConfig, digest, s)
    ensures (previous.Some? ==> IsIndex(previous.value)) ==>
      StartsFrom(if previous.Some? && inherit then Some(previous.value.all) else None, Present(slots), s.all)
  {
    s := Empty(policy, hashConfig);
    for i := 0 to |slots|
      invariant IsIndex(s) && UniqueIds(s.all) && s.policy == policy && s.hashConfig == hashConfig
      invariant IsRebuild(cluster, Present(slots[..i]), previous, inherit, digest, s.all)
    {
      PresentExtends(slots, i);
      if slots[i].Some? {
        ghost var before := s.all;
        var id;
        id, s := AddResolved(cluster, s, slots[i].value, previous, inherit, digest);
        RebuildExtends(cluster, Present(slots[..i]), previous, inherit, digest, before, slots[i].value, id);
      }
    }
    assert slots[..|slots|] == slots;
    RebuildOwnsIds(cluster, Present(slots), previous, inherit, digest, s.all);
    if previous.Some? ==> IsIndex(previous.value) {
      RebuildStartsFrom(cluster, Present(slots), previous, inherit, digest, s.all);
    }
  }

  function Flag(e: Endpoint, ids: set<string>, healthy: bool): Endpoint {
    if e.id in ids then e.(unhealthy := !healthy) else e
  }

  function Flagged(all: seq<Endpoint>, ids: set<string>, healthy: bool): (flagged: seq<Endpoint>)
    ensures |flagged| == |all| && forall i | 0 <= i < |all| :: flagged[i] == Flag(all[i], ids, healthy)
  {
    seq(|all|, i requires 0 <= i < |all| => Flag(all[i], ids, healthy))
  }

  lemma SameIds(a: seq<Endpoint>, b: seq<Endpoint>)
    requires |a| == |b| && forall i | 0 <= i < |a| :: a[i].id == b[i].id && a[i].address == b[i].address
    ensures Ids(a) == Ids(b) && Addresses(a) == Addresses(b)
  {
    forall x | x in Ids(b) ensures x in Ids(a) {
      var i :| 0 <= i < |b| && b[i].id == x;
      assert a[i].id == x;
    }
    forall x | x in Addresses(b) ensures x in Addresses(a) {
      var i :| 0 <= i < |b| && b[i].address == x;
      assert a[i].address == x;
    }
  }

  // An index that flagging leaves right: f does not change, or m follows it.
  lemma FlaggedIndex<V>(all: seq<Endpoint>, ids: set<string>, healthy: bool, m: map<string, V>, f: Endpoint -> V)
    requires m.Keys == Ids(all)
    requires forall i | 0 <= i < |all| :: all[i].id in m && m[all[i].id] == f(Flag(all[i], ids, healthy))
    ensures Indexes(Flagged(all, ids, healthy), m, f)
  {
    SameIds(Flagged(all, ids, healthy), all);
  }

  function HealthOf(s: Snapshot, id: string): bool {
    id in s.healthById && s.healthById[id]
  }

  function NextHealth(s: Snapshot, ids: set<string>, healthy: bool, id: string): bool {
    if id in ids then healthy else HealthOf(s, id)
  }

  function AddressesOf(s: Snapshot, done: set<string>): set<string>
    requires done <= s.addressById.Keys
  {
    set id | id in done :: s.addressById[id]
  }

  // Every one of these IDs with that address gets a healthy verdict.
  ghost predicate VerdictAt(s: Snapshot, ids: set<string>, healthy: bool, done: set<string>, a: string)
    requires done <= s.addressById.Keys
  {
    forall id | id in done && s.addressById[id] == a :: NextHealth(s, ids, healthy, id)
  }

  // The per-address conjunction over some of the IDs.
  ghost predicate AddressHealthOver(s: Snapshot, ids: set<string>, healthy: bool, done: set<string>, m: map<string, bool>)
    requires done <= s.addressById.Keys
  {
    m.Keys == AddressesOf(s, done) && forall a | a in m :: m[a] == VerdictAt(s, ids, healthy, done, a)
  }

  // The new verdicts, folded over the ID map in any order.
  method Verdicts(s: Snapshot, ids: set<string>, healthy: bool) returns (healthById: map<string, bool>, healthByAddress: map<string, bool>)
    requires s.healthById.Keys == s.addressById.Keys
    ensures healthById == map id | id in s.healthById :: NextHealth(s, ids, healthy, id)
    ensures AddressHealthOver(s, ids, healthy, s.addressById.Keys, healthByAddress)
  {
    healthById, healthByAddress := map[], map[];
    var rest := s.healthById.Keys;
    ghost var done := {};
    while rest != {}
      invariant rest + done == s.addressById.Keys && rest !! done
      invariant healthById.Keys == done && forall id | id in done :: healthById[id] == NextHealth(s, ids, healthy, id)
      invariant AddressHealthOver(s, ids, healthy, done, healthByAddress)
    {
      var id :| id in rest;
      var next := if id in ids then healthy else s.healthById[id];
      AddressHealthGrows(s, ids, healthy, done, healthByAddress, id);
      healthById := healthById[id := next];
      healthByAddress := AddAddressHealth(healthByAddress, s.addressById[id], next);
      rest, done := rest - {id}, done + {id};
    }
  }

  lemma VerdictAtGrows(s: Snapshot, ids: set<string>, healthy: bool, done: set<string>, id: string, a: string)
    requires done <= s.addressById.Keys && id in s.addressById
    ensures VerdictAt(s, ids, healthy, done + {id}, a)
      <==> VerdictAt(s, ids, healthy, done, a) && (s.addressById[id] == a ==> NextHealth(s, ids, healthy, id))
  {
    assert id in done + {id};
  }

  lemma AddressHealthGrows(s: Snapshot, ids: set<string>, healthy: bool, done: set<string>, m: map<string, bool>, id: string)
    requires done <= s.addressById.Keys && id in s.addressById && AddressHealthOver(s, ids, healthy, done, m)
    ensures AddressHealthOver(s, ids, healthy, done + {id}, AddAddressHealth(m, s.addressById[id], NextHealth(s, ids, healthy, id)))
  {
    var n := AddAddressHealth(m, s.addressById[id], NextHealth(s, ids, healthy, id));
    assert AddressesOf(s, done + {id}) == AddressesOf(s, done) + {s.addressById[id]};
    forall a | a in n ensures n[a] == VerdictAt(s, ids, healthy, done + {id}, a) {
      VerdictAtGrows(s, ids, healthy, done, id, a);
      if a !in m {
        assert VerdictAt(s, ids, healthy, done, a);
      }
    }
  }

  lemma FlagFollowsVerdict(s: Snapshot, ids: set<string>, healthy: bool, i: nat)
    requires Indexes(s.all, s.healthById, IsHealthy) && i < |s.all|
    ensures NextHealth(s, ids, healthy, s.all[i].id) == !Flag(s.all[i], ids, healthy).unhealthy
  {}

  // Order does not matter: the folded conjunction is the one over the flagged list.
  lemma VerdictsAtAddress(s: Snapshot, ids: set<string>, healthy: bool, a: string)
    requires Indexes(s.all, s.healthById, IsHealthy) && Indexes(s.all, s.addressById, AddressOf)
    ensures HealthyAt(Flagged(s.all, ids, healthy), a) <==> VerdictAt(s, ids, healthy, s.addressById.Keys, a)
  {
    var flagged := Flagged(s.all, ids, healthy);
    forall i | 0 <= i < |s.all| ensures NextHealth(s, ids, healthy, s.all[i].id) == !flagged[i].unhealthy {
      FlagFollowsVerdict(s, ids, healthy, i);
    }
    if HealthyAt(flagged, a) {
      forall id | id in s.addressById && s.addressById[id] == a ensures NextHealth(s, ids, healthy, id) {
        var i :| 0 <= i < |s.all| && s.all[i].id == id;
        assert flagged[i].address == a;
      }
    }
  }

  lemma AddressesOfAll(s: Snapshot)
    requires Indexes(s.all, s.addressById, AddressOf)
    ensures AddressesOf(s, s.addressById.Keys) == Addresses(s.all)
  {
    forall a | a in AddressesOf(s, s.addressById.Keys) ensures a in Addresses(s.all) {
      var id :| id in s.addressById && s.addressById[id] == a;
      var i :| 0 <= i < |s.all| && s.all[i].id == id;
      assert s.all[i].address == a;
    }
    forall a | a in Addresses(s.all) ensures a in AddressesOf(s, s.addressById.Keys) {
      var i :| 0 <= i < |s.all| && s.all[i].address == a;
      assert s.addressById[s.all[i].id] == a;
    }
  }

  lemma VerdictsIndexAddresses(s: Snapshot, ids: set<string>, healthy: bool, m: map<string, bool>)
    requires Indexes(s.all, s.healthById, IsHealthy) && Indexes(s.all, s.addressById, AddressOf)
    requires AddressHealthOver(s, ids, healthy, s.addressById.Keys, m)
    ensures AddressHealthIndex(Flagged(s.all, ids, healthy), m)
  {
    assert m.Keys == Addresses(Flagged(s.all, ids, healthy)) by {
      AddressesOfAll(s);
      SameIds(Flagged(s.all, ids, healthy), s.all);
    }
    forall a | a in m ensures m[a] == HealthyAt(Flagged(s.all, ids, healthy), a) {
      VerdictsAtAddress(s, ids, healthy, a);
    }
  }

  // The endpoint views of a snapshot: the list, its healthy part, and both by ID.
  datatype Views = Views(all: seq<Endpoint>, healthy: seq<Endpoint>, byId: map<string, Endpoint>, healthyById: map<string, Endpoint>)

  ghost predicate AreViews(v: Views) {
    v.healthy == Healthy(v.all) && Indexes(v.all, v.byId, Itself) && HealthyByIdIndex(v.all, v.healthyById)
  }

  function AddView(v: Views, e: Endpoint, healthy: bool): Views {
    Views(v.all + [e], if healthy then v.healthy + [e] else v.healthy,
          v.byId[e.id := e], if healthy then v.healthyById[e.id := e] else v.healthyById)
  }

  lemma AddViewKeeps(v: Views, e: Endpoint)
    requires AreViews(v) && e.id !in Ids(v.all)
    ensures AreViews(AddView(v, e, !e.unhealthy))
  {
    HealthyExtends(v.all, e);
    IndexesExtend(v.all, v.byId, Itself, e);
    HealthyByIdExtends(v.all, v.healthyById, e);
  }

  // Changed endpoints are cloned, the rest shared.
  method FlagAll(all: seq<Endpoint>, ids: set<string>, healthy: bool, healthById: map<string, bool>) returns (v: Views)
    requires UniqueIds(Flagged(all, ids, healthy))
    requires forall i | 0 <= i < |all| :: all[i].id in healthById && healthById[all[i].id] == !Flag(all[i], ids, healthy).unhealthy
    ensures AreViews(v) && v.all == Flagged(all, ids, healthy)
  {
    v := Views([], [], map[], map[]);
    ghost var flagged := Flagged(all, ids, healthy);
    for i := 0 to |all|
      invariant AreViews(v) && v.all == flagged[..i]
    {
      var e := Flag(all[i], ids, healthy);
      assert IsNew(flagged, i);
      AddViewKeeps(v, e);
      assert flagged[..i + 1] == flagged[..i] + [e];
      v := AddView(v, e, healthById[e.id]);
    }
    assert flagged[..|all|] == flagged;
  }

  lemma FlaggedIsUnique(all: seq<Endpoint>, ids: set<string>, healthy: bool)
    requires UniqueIds(all)
    ensures UniqueIds(Flagged(all, ids, healthy))
  {
    var flagged := Flagged(all, ids, healthy);
    forall i: nat | i < |all| ensures IsNew(flagged, i) {
      assert IsNew(all, i);
      SameIds(flagged[..i], all[..i]);
    }
  }

  lemma FlaggedIsSame(s: Snapshot, ids: set<string>, healthy: bool)
    requires Indexes(s.all, s.healthById, IsHealthy) && forall id | id in ids :: HealthOf(s, id) == healthy
    ensures Flagged(s.all, ids, healthy) == s.all
  {}

  lemma FlaggedAddresses(s: Snapshot, ids: set<string>, healthy: bool)
    requires Indexes(s.all, s.addressById, AddressOf)
    ensures Indexes(Flagged(s.all, ids, healthy), s.addressById, AddressOf)
  {
    FlaggedIndex(s.all, ids, healthy, s.addressById, AddressOf);
  }

  lemma FlagVerdicts(s: Snapshot, ids: set<string>, healthy: bool, m: map<string, bool>)
    requires Indexes(s.all, s.healthById, IsHealthy)
    requires m == map id | id in s.healthById :: NextHealth(s, ids, healthy, id)
    ensures forall i | 0 <= i < |s.all| :: s.all[i].id in m && m[s.all[i].id] == !Flag(s.all[i], ids, healthy).unhealthy
  {
    forall i | 0 <= i < |s.all| ensures s.all[i].id in m && m[s.all[i].id] == !Flag(s.all[i], ids, healthy).unhealthy {
      FlagFollowsVerdict(s, ids, healthy, i);
    }
  }

  lemma FlaggedHealth(s: Snapshot, ids: set<string>, healthy: bool, m: map<string, bool>)
    requires Indexes(s.all, s.healthById, IsHealthy)
    requires m == map id | id in s.healthById :: NextHealth(s, ids, healthy, id)
    ensures Indexes(Flagged(s.all, ids, healthy), m, IsHealthy)
  {
    assert m.Keys == Ids(s.all);
    FlagVerdicts(s, ids, healthy, m);
    FlaggedIndex(s.all, ids, healthy, m, IsHealthy);
  }

  // Reusing the address map, and with the folded verdicts, every index is right.
  lemma SuccessorIsIndex(s: Snapshot, ids: set<string>, healthy: bool, v: Views, m: map<string, bool>, n: map<string, bool>)
    requires IsIndex(s) && AreViews(v) && v.all == Flagged(s.all, ids, healthy)
    requires m == map id | id in s.healthById :: NextHealth(s, ids, healthy, id)
    requires AddressHealthOver(s, ids, healthy, s.addressById.Keys, n)
    ensures IsIndex(Snapshot(v.all, v.healthy, v.byId, v.healthyById, s.addressById, m, n, s.policy, s.hashConfig))
  {
    assert Indexes(v.all, s.addressById, AddressOf) by { FlaggedAddresses(s, ids, healthy); }
    assert Indexes(v.all, m, IsHealthy) by { FlaggedHealth(s, ids, healthy, m); }
    assert AddressHealthIndex(v.all, n) by { VerdictsIndexAddresses(s, ids, healthy, n); }
  }

  method Changes(s: Snapshot, ids: set<string>, healthy: bool) returns (changed: bool)
    ensures !changed <==> forall id | id in ids :: HealthOf(s, id) == healthy
  {
    var rest := ids;
    while rest != {}
      invariant rest <= ids && forall id | id in ids && id !in rest :: HealthOf(s, id) == healthy
    {
      var id :| id in rest;
      if HealthOf(s, id) != healthy {
        return true;
      }
      rest := rest - {id};
    }
    changed := false;
  }

  method Successor(s: Snapshot, ids: set<string>, healthy: bool) returns (next: Snapshot)
    requires IsIndex(s) && UniqueIds(s.all)
    ensures IsIndex(next) && UniqueIds(next.all)
    ensures next.all == Flagged(s.all, ids, healthy) && next.policy == s.policy && next.hashConfig == s.hashConfig
  {
    var healthById, healthByAddress := Verdicts(s, ids, healthy);
    assert UniqueIds(Flagged(s.all, ids, healthy)) by { FlaggedIsUnique(s.all, ids, healthy); }
    FlagVerdicts(s, ids, healthy, healthById);
    var v := FlagAll(s.all, ids, healthy, healthById);
    SuccessorIsIndex(s, ids, healthy, v, healthById, healthByAddress);
    next := Snapshot(v.all, v.healthy, v.byId, v.healthyById, s.addressById, healthById, healthByAddress, s.policy, s.hashConfig);
  }

  // The fully indexed snapshot of the list with the verdict written in.
  ghost predicate IsHealthUpdate(s: Snapshot, ids: set<string>, healthy: bool, next: Snapshot) {
    && IsIndex(next) && UniqueIds(next.all)
    && next.all == Flagged(s.all, ids, healthy) && next.policy == s.policy && next.hashConfig == s.hashConfig
  }

  /**
   withEndpointHealthForIDs: the successor is the fully indexed snapshot of the
   list with the verdict written into the named endpoints, and nothing else changed.
   */
  method WithHealthForIds(s: Snapshot, ids: set<string>, healthy: bool) returns (r: Option<Snapshot>)
    requires IsIndex(s) && UniqueIds(s.all)
    ensures r.None? <==> ids == {}
    ensures r.Some? ==> IsHealthUpdate(s, ids, healthy, r.value)
  {
    if ids == {} {
      return None;
    }
    var changed := Changes(s, ids, healthy);
    if !changed {
      FlaggedIsSame(s, ids, healthy);
      return Some(s);
    }
    var next := Successor(s, ids, healthy);
    r := Some(next);
  }

  function IdsAt(s: Snapshot, address: string): set<string> {
    set id | id in s.addressById && s.addressById[id] == address
  }

  lemma IdsAtAddress(s: Snapshot, address: string)
    requires Indexes(s.all, s.addressById, AddressOf)
    ensures forall i | 0 <= i < |s.all| :: s.all[i].id in IdsAt(s, address) <==> s.all[i].address == address
    ensures IdsAt(s, address) != {} <==> address in Addresses(s.all)
  {
    if IdsAt(s, address) != {} {
      var id :| id in IdsAt(s, address);
      var i :| 0 <= i < |s.all| && s.all[i].id == id;
      assert s.all[i].address == address;
    }
  }

  method WithHealth(s: Snapshot, id: string, address: string, healthy: bool) returns (r: Option<Snapshot>)
    requires IsIndex(s) && UniqueIds(s.all)
    ensures r.Some? <==> exists i | 0 <= i < |s.all| :: s.all[i].id == id && s.all[i].address == address
    ensures r.Some? ==> IsHealthUpdate(s, {id}, healthy, r.value)
  {
    if id !in s.addressById || s.addressById[id] != address {
      return None;
    }
    assert id in Ids(s.all);
    r := WithHealthForIds(s, {id}, healthy);
  }

  // A probe of an address speaks for every endpoint there.
  function FlaggedAt(all: seq<Endpoint>, address: string, healthy: bool): (flagged: seq<Endpoint>)
    ensures |flagged| == |all| && forall i | 0 <= i < |all| ::
      flagged[i] == if all[i].address == address then all[i].(unhealthy := !healthy) else all[i]
  {
    seq(|all|, i requires 0 <= i < |all| => if all[i].address == address then all[i].(unhealthy := !healthy) else all[i])
  }

  lemma FlaggedByAddress(s: Snapshot, address: string, healthy: bool)
    requires Indexes(s.all, s.addressById, AddressOf)
    ensures Flagged(s.all, IdsAt(s, address), healthy) == FlaggedAt(s.all, address, healthy)
  {
    IdsAtAddress(s, address);
  }

  method WithAddressHealth(s: Snapshot, address: string, healthy: bool) returns (r: Option<Snapshot>)
    requires IsIndex(s) && UniqueIds(s.all)
    ensures r.Some? <==> address in Addresses(s.all)
    ensures r.Some? ==> IsIndex(r.value) && UniqueIds(r.value.all)
    ensures r.Some? ==> r.value.all == FlaggedAt(s.all, address, healthy) && r.value.policy == s.policy && r.value.hashConfig == s.hashConfig
  {
    FlaggedByAddress(s, address, healthy);
    r := WithHealthForIds(s, IdsAt(s, address), healthy);
    assert IdsAt(s, address) != {} <==> address in Addresses(s.all) by { IdsAtAddress(s, address); }
  }

  // Built from scratch, endpoints with IDs of their own come out as they went in.
  lemma FreshRebuildIsSame(cluster: string, es: seq<Endpoint>, digest: Digest, all: seq<Endpoint>)
    requires OwnIds(es) && IsRebuild(cluster, es, None, false, digest, all)
    ensures all == es
  {
    RebuildKeepsIds(cluster, es, None, false, digest, all, |es|);
  }

  lemma FlaggedOwnIds(all: seq<Endpoint>, ids: set<string>, healthy: bool)
    requires OwnIds(all)
    ensures OwnIds(Flagged(all, ids, healthy))
  {
    FlaggedIsUnique(all, ids, healthy);
  }

  /**
   The incremental update refines a rebuild: what withEndpointHealthForIDs
   derives is what newEndpointSnapshot makes from scratch of the updated list.
   */
  lemma HealthUpdateIsRebuild(s: Snapshot, ids: set<string>, healthy: bool, next: Snapshot, cluster: string, digest: Digest, rebuilt: Snapshot)
    requires OwnIds(s.all) && IsHealthUpdate(s, ids, healthy, next)
    requires IsBuilt(cluster, AsSlots(Flagged(s.all, ids, healthy)), None, false, s.policy, s.hashConfig, digest, rebuilt)
    ensures next == rebuilt
  {
    assert rebuilt.all == next.all by {
      var updated := Flagged(s.all, ids, healthy);
      assert Present(AsSlots(updated)) == updated by { PresentSlots(updated); }
      FlaggedOwnIds(s.all, ids, healthy);
      FreshRebuildIsSame(cluster, updated, digest, rebuilt.all);
    }
    IndexIsUnique(next, rebuilt);
  }

  // Endpoints rebuilt over an indexed list of them take that list's health.
  lemma InheritsEverything(cluster: string, es: seq<Endpoint>, previous: Snapshot, digest: Digest, all: seq<Endpoint>)
    requires OwnIds(es) && SameEndpoints(previous.all, es) && IsRebuild(cluster, es, Some(previous), true, digest, all)
    requires Indexes(previous.all, previous.addressById, AddressOf) && Indexes(previous.all, previous.healthById, IsHealthy)
    ensures all == previous.all
  {
    RebuildKeepsIds(cluster, es, Some(previous), true, digest, all, |es|);
    forall i | 0 <= i < |es| ensures all[i] == previous.all[i] {
      assert previous.all[i].id == es[i].id && previous.addressById[es[i].id] == AddressOf(previous.all[i]);
    }
  }

  lemma FlaggedSameEndpoints(all: seq<Endpoint>, ids: set<string>, healthy: bool, es: seq<Endpoint>)
    requires SameEndpoints(all, es)
    ensures SameEndpoints(Flagged(all, ids, healthy), es)
  {
  }

  lemma RefreshIsSame(cluster: string, es: seq<Endpoint>, previous: Snapshot, digest: Digest, refreshed: Snapshot)
    requires OwnIds(es) && SameEndpoints(previous.all, es) && IsIndex(previous)
    requires IsBuilt(cluster, AsSlots(es), Some(previous), true, previous.policy, previous.hashConfig, digest, refreshed)
    ensures refreshed == previous
  {
    assert refreshed.all == previous.all by {
      assert Present(AsSlots(es)) == es by { PresentSlots(es); }
      InheritsEverything(cluster, es, previous, digest, refreshed.all);
    }
    IndexIsUnique(previous, refreshed);
  }

  /**
   A refresh loses no verdict and adds none: while health checks are on, building
   the same configured endpoints again after an update gives the update back.
   */
  lemma RefreshKeepsUpdate(s: Snapshot, ids: set<string>, healthy: bool, next: Snapshot,
                           cluster: string, configured: seq<Endpoint>, digest: Digest, refreshed: Snapshot)
    requires OwnIds(configured) && SameEndpoints(s.all, configured) && IsHealthUpdate(s, ids, healthy, next)
    requires IsBuilt(cluster, AsSlots(configured), Some(next), true, s.policy, s.hashConfig, digest, refreshed)
    ensures refreshed == next
  {
    FlaggedSameEndpoints(s.all, ids, healthy, configured);
    RefreshIsSame(cluster, configured, next, digest, refreshed);
  }
}
