/**
 The cluster store: the configured clusters, a runtime for each, and which
 clusters xDS owns. Sequential: every operation runs under the manager's lock.
 */
module ClusterStore {
  import opened Options
  import opened Endpoints
  import opened EndpointIdentity
  import opened EndpointSnapshot

  // `id` is the identity of the configuration object.
  datatype Config = Config(name: string, id: nat, endpoints: seq<Endpoint>, checked: bool, policy: string, hashConfig: HashConfig)

  datatype Runtime = Runtime(configId: nat, endpoints: seq<Endpoint>, checked: bool, snapshot: Snapshot)

  // A runtime serves exactly the endpoints of its configuration.
  ghost predicate Serves(r: Runtime, c: Config) {
    && r.configId == c.id && r.endpoints == c.endpoints && r.checked == c.checked
    && r.snapshot.policy == c.policy && r.snapshot.hashConfig == c.hashConfig
    && IsIndex(r.snapshot) && UniqueIds(r.snapshot.all) && SameEndpoints(r.snapshot.all, c.endpoints)
  }

  lemma AssembledOwnIds(cluster: string, es: seq<Endpoint>, digest: Digest, out: seq<Endpoint>)
    requires IsAssembly(cluster, AsSlots(es), digest, AsSlots(out))
    ensures OwnIds(out)
  {
    AssemblyIsDistinct(cluster, AsSlots(es), digest, AsSlots(out));
    forall i: nat | i < |out| ensures IsNew(out, i) {
      assert AsSlots(out)[i] == Some(out[i]);
      forall j | 0 <= j < i ensures out[j].id != out[i].id {
        assert AsSlots(out)[j] == Some(out[j]);
      }
    }
    forall i | 0 <= i < |out| ensures out[i].id != "" {
      assert AsSlots(out)[i] == Some(out[i]);
    }
  }

  method AssembleEndpoints(cluster: string, es: seq<Endpoint>, digest: Digest) returns (out: seq<Endpoint>)
    ensures IsAssembly(cluster, AsSlots(es), digest, AsSlots(out)) && OwnIds(out)
  {
    var slots := Assemble(cluster, AsSlots(es), digest);
    assert forall i | 0 <= i < |es| :: AsSlots(es)[i].Some?;
    assert forall i | 0 <= i < |slots| :: slots[i].Some?;
    out := seq(|slots|, i requires 0 <= i < |slots| => slots[i].value);
    assert AsSlots(out) == slots;
    AssembledOwnIds(cluster, es, digest, out);
  }

  lemma KeptEndpoints(cluster: string, es: seq<Endpoint>, previous: Option<Snapshot>, inherit: bool, digest: Digest, all: seq<Endpoint>)
    requires OwnIds(es) && IsRebuild(cluster, es, previous, inherit, digest, all)
    ensures SameEndpoints(all, es) && (previous.None? || !inherit ==> all == es)
  {
    RebuildKeepsIds(cluster, es, previous, inherit, digest, all, |es|);
  }

  /**
   A runtime built for a configuration serves its endpoints under its policy.
   With health checks on it inherits health from the previous snapshot; without,
   or with nothing to inherit, the endpoints start as they are configured.
   */
  method BuildRuntime(c: Config, previous: Option<Snapshot>, digest: Digest) returns (r: Runtime)
    requires OwnIds(c.endpoints)
    ensures Serves(r, c)
    ensures previous.Some? && c.checked && IsIndex(previous.value) ==> InheritsHealth(previous.value.all, c.endpoints, r.snapshot.all)
    ensures previous.None? || !c.checked ==> r.snapshot.all == c.endpoints
  {
    var s := Build(c.name, AsSlots(c.endpoints), previous, c.checked, c.policy, c.hashConfig, digest);
    assert Present(AsSlots(c.endpoints)) == c.endpoints by { PresentSlots(c.endpoints); }
    KeptEndpoints(c.name, c.endpoints, previous, c.checked, digest, s.all);
    r := Runtime(c.id, c.endpoints, c.checked, s);
  }

  // Endpoints the store has assembled: IDs of their own and a name each.
  predicate Assembled(es: seq<Endpoint>) {
    OwnIds(es) && forall i | 0 <= i < |es| :: es[i].name != ""
  }

  function Named(e: Endpoint, i: nat): Endpoint {
    e.(name := DefaultName(e, i))
  }

  lemma AssembledIsAssembled(cluster: string, es: seq<Endpoint>, digest: Digest, out: seq<Endpoint>)
    requires IsAssembly(cluster, AsSlots(es), digest, AsSlots(out))
    ensures Assembled(out)
  {
    AssembledOwnIds(cluster, es, digest, out);
    forall i | 0 <= i < |out| ensures out[i].name != "" {
      assert AsSlots(out)[i] == Some(out[i]) && AsSlots(es)[i] == Some(es[i]);
    }
  }

  lemma OwnIdsAreDistinct(es: seq<Endpoint>)
    requires OwnIds(es)
    ensures DistinctIds(AsSlots(es))
  {
    var slots := AsSlots(es);
    forall i, j | 0 <= i < j < |slots| && slots[i].Some? && slots[j].Some? ensures slots[i].value.id != slots[j].value.id {
      assert IsNew(es, j) && es[..j][i].id in Ids(es[..j]);
    }
  }

  // Assembly moves nothing where IDs are already their own; it only fills in names.
  lemma AssemblyNames(cluster: string, es: seq<Endpoint>, digest: Digest, out: seq<Endpoint>)
    requires OwnIds(es) && IsAssembly(cluster, AsSlots(es), digest, AsSlots(out))
    ensures |out| == |es| && forall i | 0 <= i < |es| :: out[i] == Named(es[i], i)
  {
    OwnIdsAreDistinct(es);
    DistinctIdsAreKept(cluster, AsSlots(es), digest, AsSlots(out));
    forall i | 0 <= i < |es| ensures out[i] == Named(es[i], i) {
      assert AsSlots(out)[i] == Some(out[i]) && AsSlots(es)[i] == Some(es[i]);
    }
  }

  lemma AssemblyPrefix(cluster: string, es: seq<Endpoint>, digest: Digest, out: seq<Endpoint>, n: nat)
    requires n <= |es| && IsAssembly(cluster, AsSlots(es), digest, AsSlots(out))
    ensures |out| == |es| && IsAssembly(cluster, AsSlots(es[..n]), digest, AsSlots(out[..n]))
  {
    var slots, made := AsSlots(es), AsSlots(out);
    assert AsSlots(es[..n]) == slots[..n] && AsSlots(out[..n]) == made[..n];
    forall i | 0 <= i < n ensures IsReady(cluster, slots[..n][i], EndpointIdentity.IdsOf(made[..n][..i]), i, digest, made[..n][i]) {
      assert made[..n][..i] == made[..i];
    }
  }

  lemma SlotIds(es: seq<Endpoint>)
    ensures EndpointIdentity.IdsOf(AsSlots(es)) == Ids(es)
  {
    var slots := AsSlots(es);
    forall id | id in Ids(es) ensures id in EndpointIdentity.IdsOf(slots) {
      var i :| 0 <= i < |es| && es[i].id == id;
      assert slots[i] == Some(es[i]);
    }
  }

  // Assembling a list the store already assembled, with one endpoint appended.
  lemma AssemblyAppends(cluster: string, es: seq<Endpoint>, e: Endpoint, digest: Digest, out: seq<Endpoint>)
    requires Assembled(es) && IsAssembly(cluster, AsSlots(es + [e]), digest, AsSlots(out))
    ensures |out| == |es| + 1 && out[..|es|] == es
    ensures out[|es|] == e.(id := out[|es|].id, name := DefaultName(e, |es|))
    ensures IsResolved(BaseId(cluster, e, digest), Ids(es), out[|es|].id)
  {
    var n := |es|;
    AssemblyPrefix(cluster, es + [e], digest, out, n);
    assert (es + [e])[..n] == es;
    AssemblyNames(cluster, es, digest, out[..n]);
    assert out[..n] == es;
    var slots, made := AsSlots(es + [e]), AsSlots(out);
    assert slots[n] == Some(e) && made[n] == Some(out[n]) && made[..n] == AsSlots(es);
    SlotIds(es);
    assert IsReady(cluster, slots[n], EndpointIdentity.IdsOf(made[..n]), n, digest, made[n]);
  }

  // Routing-relevant content: the ID, the name and the runtime health are not part of it.
  predicate ContentEqual(a: Endpoint, b: Endpoint) {
    a.host == b.host && a.port == b.port && a.address == b.address && a.metadata == b.metadata && a.llm == b.llm
  }

  // Whether slot x decides what happens to the incoming endpoint e: by its
  // ID if it has one, else by the hash of its identity.
  predicate Decides(cluster: string, x: Endpoint, e: Endpoint, digest: Digest) {
    if e.id != "" then x.id == e.id else GenerateId(cluster, x, digest) == GenerateId(cluster, e, digest)
  }

  // The first deciding slot from position i on.
  function DecidingSlot(cluster: string, es: seq<Endpoint>, e: Endpoint, digest: Digest, i: nat): (r: Option<nat>)
    requires i <= |es|
    ensures r.Some? ==> i <= r.value < |es| && Decides(cluster, es[r.value], e, digest)
    ensures r.Some? ==> forall j | i <= j < r.value :: !Decides(cluster, es[j], e, digest)
    ensures r.None? ==> forall j | i <= j < |es| :: !Decides(cluster, es[j], e, digest)
    decreases |es| - i
  {
    if i == |es| then None
    else if Decides(cluster, es[i], e, digest) then Some(i)
    else DecidingSlot(cluster, es, e, digest, i + 1)
  }

  datatype Outcome = Idempotent | Replace(index: nat) | Append(id: string)

  /** resolveSetEndpointSlot: the first deciding slot settles the outcome. */
  method ResolveSlot(cluster: string, e: Endpoint, es: seq<Endpoint>, digest: Digest) returns (o: Outcome)
    ensures var slot := DecidingSlot(cluster, es, e, digest, 0);
      && (o.Idempotent? <==> slot.Some? && ContentEqual(es[slot.value], e))
      && (o.Replace? <==> slot.Some? && !ContentEqual(es[slot.value], e) && e.id != "")
      && (o.Replace? ==> o.index == slot.value)
      && (o.Append? && slot.None? ==> o.id == BaseId(cluster, e, digest))
      && (o.Append? && slot.Some? ==> IsResolved(BaseId(cluster, e, digest), Ids(es), o.id))
  {
    for i := 0 to |es|
      invariant DecidingSlot(cluster, es, e, digest, 0) == DecidingSlot(cluster, es, e, digest, i)
    {
      if Decides(cluster, es[i], e, digest) {
        if ContentEqual(es[i], e) {
          return Idempotent;
        } else if e.id != "" {
          return Replace(i);
        }
        var id := StableUniqueId(cluster, e, Ids(es), digest);
        return Append(id);
      }
    }
    o := Append(BaseId(cluster, e, digest));
  }

  /** What one SetEndpoint makes of a cluster's endpoints. */
  ghost predicate IsSet(cluster: string, es: seq<Endpoint>, e: Endpoint, digest: Digest, es': seq<Endpoint>) {
    var slot := DecidingSlot(cluster, es, e, digest, 0);
    if slot.Some? && ContentEqual(es[slot.value], e) then es' == es
    else if slot.Some? && e.id != "" then es' == es[slot.value := Named(e, slot.value)]
    else
      && |es'| == |es| + 1 && es'[..|es|] == es
      && es'[|es|] == e.(id := es'[|es|].id, name := DefaultName(e, |es|))
      && IsResolved(BaseId(cluster, e, digest), Ids(es), es'[|es|].id)
  }

  /**
   An endpoint set under the ID of a slot, with any routing field different from
   the slot's, takes that slot over with the content it came with; the other
   slots and their order stay. Without a difference nothing changes.
   */
  lemma SetUnderIdUpdatesSlot(cluster: string, es: seq<Endpoint>, e: Endpoint, digest: Digest, es': seq<Endpoint>, i: nat)
    requires e.id != "" && IsSet(cluster, es, e, digest, es') && i < |es| && es[i].id == e.id
    requires forall j | 0 <= j < i :: es[j].id != e.id
    ensures |es'| == |es| && forall j | 0 <= j < |es| && j != i :: es'[j] == es[j]
    ensures if es[i].host != e.host || es[i].port != e.port || es[i].address != e.address || es[i].metadata != e.metadata || es[i].llm != e.llm
            then es'[i] == e.(name := es'[i].name) && es'[i].name != "" && (e.name != "" ==> es'[i].name == e.name)
            else es'[i] == es[i]
  {
    DecidingSlotAt(cluster, es, e, digest, i, 0);
  }

  // The deciding slot is the one at i, if no slot before it decides.
  lemma {:induction false} DecidingSlotAt(cluster: string, es: seq<Endpoint>, e: Endpoint, digest: Digest, i: nat, from: nat)
    requires from <= i < |es| && Decides(cluster, es[i], e, digest)
    requires forall j | from <= j < i :: !Decides(cluster, es[j], e, digest)
    ensures DecidingSlot(cluster, es, e, digest, from) == Some(i)
    decreases i - from
  {
    if from < i {
      DecidingSlotAt(cluster, es, e, digest, i, from + 1);
    }
  }

  lemma AppendedIdIsKept(cluster: string, es: seq<Endpoint>, e: Endpoint, digest: Digest, id: string)
    requires e.id != "" && DecidingSlot(cluster, es, e, digest, 0).None?
    requires IsResolved(BaseId(cluster, e, digest), Ids(es), id)
    ensures id == e.id
  {
    FreeBaseIsKept(e.id, Ids(es));
    ResolvedIsUnique(e.id, Ids(es), e.id, id);
  }

  /** Replaying a SetEndpoint that names its endpoint by ID changes nothing. */
  lemma ReplayWithIdIsNoOp(cluster: string, es: seq<Endpoint>, e: Endpoint, digest: Digest, es': seq<Endpoint>, es'': seq<Endpoint>)
    requires e.id != "" && IsSet(cluster, es, e, digest, es') && IsSet(cluster, es', e, digest, es'')
    ensures es'' == es'
  {
    var slot := DecidingSlot(cluster, es, e, digest, 0);
    var i := if slot.Some? then slot.value else |es|;
    if slot.None? {
      AppendedIdIsKept(cluster, es, e, digest, es'[|es|].id);
    }
    assert forall j | 0 <= j < i :: es'[j] == es[j];
    assert Decides(cluster, es'[i], e, digest) && ContentEqual(es'[i], e);
    DecidingSlotAt(cluster, es', e, digest, i, 0);
  }

  /**
   Replaying a SetEndpoint without an ID changes nothing exactly when no slot
   had that hash before, or the first one that did has the same content;
   otherwise every replay adds an endpoint.
   */
  lemma ReplayWithoutIdIsNoOpIff(cluster: string, es: seq<Endpoint>, e: Endpoint, digest: Digest, es': seq<Endpoint>, es'': seq<Endpoint>)
    requires e.id == "" && IsSet(cluster, es, e, digest, es') && IsSet(cluster, es', e, digest, es'')
    ensures var slot := DecidingSlot(cluster, es, e, digest, 0);
      es'' == es' <==> slot.None? || ContentEqual(es[slot.value], e)
  {
    var slot := DecidingSlot(cluster, es, e, digest, 0);
    var i := if slot.Some? then slot.value else |es|;
    assert forall j | 0 <= j < |es| :: es'[j] == es[j];
    if slot.None? {
      assert Decides(cluster, es'[i], e, digest) && ContentEqual(es'[i], e);
    }
    DecidingSlotAt(cluster, es', e, digest, i, 0);
  }

  function Names(configs: seq<Config>): set<string> {
    set i | 0 <= i < |configs| :: configs[i].name
  }

  predicate IsNewName(configs: seq<Config>, i: nat)
    requires i < |configs|
  {
    configs[i].name !in Names(configs[..i])
  }

  // No cluster has the name of one before it.
  predicate DistinctNames(configs: seq<Config>) {
    forall i: nat | i < |configs| :: IsNewName(configs, i)
  }

  lemma NamesDiffer(configs: seq<Config>, i: nat, j: nat)
    requires DistinctNames(configs) && i < |configs| && j < |configs| && i != j
    ensures configs[i].name != configs[j].name
  {
    var a, b := if i < j then i else j, if i < j then j else i;
    assert IsNewName(configs, b);
    assert configs[..b][a].name in Names(configs[..b]);
  }

  // The cluster has a runtime, which serves its endpoints.
  ghost predicate Fits(c: Config, runtimes: map<string, Runtime>) {
    c.name in runtimes && Assembled(c.endpoints) && Serves(runtimes[c.name], c)
  }

  ghost predicate FitsAt(configs: seq<Config>, runtimes: map<string, Runtime>, i: nat)
    requires i < |configs|
  {
    Fits(configs[i], runtimes)
  }

  ghost predicate AllFit(configs: seq<Config>, runtimes: map<string, Runtime>) {
    forall i: nat | i < |configs| :: FitsAt(configs, runtimes, i)
  }

  // Each configured cluster has one runtime, and each runtime a cluster.
  ghost predicate Consistent(configs: seq<Config>, runtimes: map<string, Runtime>) {
    DistinctNames(configs) && runtimes.Keys == Names(configs) && AllFit(configs, runtimes)
  }

  lemma NamesExtend(configs: seq<Config>, c: Config)
    ensures Names(configs + [c]) == Names(configs) + {c.name}
  {
    var more := configs + [c];
    assert more[|configs|] == c;
    forall n | n in Names(configs) ensures n in Names(more) {
      var i :| 0 <= i < |configs| && configs[i].name == n;
      assert more[i].name == n;
    }
  }

  lemma FitsElsewhere(c: Config, runtimes: map<string, Runtime>, name: string, r: Runtime)
    requires Fits(c, runtimes) && c.name != name
    ensures Fits(c, runtimes[name := r])
  {}

  lemma FitsHere(c: Config, runtimes: map<string, Runtime>, r: Runtime)
    requires Assembled(c.endpoints) && Serves(r, c)
    ensures Fits(c, runtimes[c.name := r])
  {}

  lemma AppendFits(configs: seq<Config>, runtimes: map<string, Runtime>, c: Config, r: Runtime)
    requires AllFit(configs, runtimes) && c.name !in Names(configs) && Assembled(c.endpoints) && Serves(r, c)
    ensures AllFit(configs + [c], runtimes[c.name := r])
  {
    var more, running := configs + [c], runtimes[c.name := r];
    forall i: nat | i < |more| ensures FitsAt(more, running, i) {
      if i < |configs| {
        assert FitsAt(configs, runtimes, i);
        assert more[i] == configs[i] && configs[i].name in Names(configs);
        FitsElsewhere(configs[i], runtimes, c.name, r);
      } else {
        FitsHere(c, runtimes, r);
      }
    }
  }

  lemma AppendIsDistinct(configs: seq<Config>, c: Config)
    requires DistinctNames(configs) && c.name !in Names(configs)
    ensures DistinctNames(configs + [c])
  {
    var more := configs + [c];
    forall i: nat | i < |more| ensures IsNewName(more, i) {
      if i < |configs| {
        assert IsNewName(configs, i) && more[..i] == configs[..i];
      } else {
        assert more[..i] == configs;
      }
    }
  }

  lemma AppendIsConsistent(configs: seq<Config>, runtimes: map<string, Runtime>, c: Config, r: Runtime)
    requires Consistent(configs, runtimes) && c.name !in Names(configs) && Assembled(c.endpoints) && Serves(r, c)
    ensures Consistent(configs + [c], runtimes[c.name := r])
  {
    NamesExtend(configs, c);
    AppendIsDistinct(configs, c);
    AppendFits(configs, runtimes, c, r);
  }

  lemma UpdateFits(configs: seq<Config>, runtimes: map<string, Runtime>, i: nat, c: Config, r: Runtime)
    requires AllFit(configs, runtimes) && DistinctNames(configs) && i < |configs| && c.name == configs[i].name
    requires Assembled(c.endpoints) && Serves(r, c)
    ensures AllFit(configs[i := c], runtimes[c.name := r])
  {
    var next, running := configs[i := c], runtimes[c.name := r];
    forall j: nat | j < |next| ensures FitsAt(next, running, j) {
      if j != i {
        assert FitsAt(configs, runtimes, j);
        NamesDiffer(configs, i, j);
        FitsElsewhere(configs[j], runtimes, c.name, r);
      } else {
        FitsHere(c, runtimes, r);
      }
    }
  }

  lemma SameNames(a: seq<Config>, b: seq<Config>)
    requires |a| == |b| && forall i | 0 <= i < |a| :: a[i].name == b[i].name
    ensures Names(a) == Names(b)
  {
    forall n | n in Names(b) ensures n in Names(a) {
      var i :| 0 <= i < |b| && b[i].name == n;
      assert a[i].name == n;
    }
  }

  lemma UpdateKeepsNames(configs: seq<Config>, i: nat, c: Config)
    requires i < |configs| && c.name == configs[i].name
    ensures Names(configs[i := c]) == Names(configs)
    ensures DistinctNames(configs) ==> DistinctNames(configs[i := c])
  {
    var next := configs[i := c];
    SameNames(next, configs);
    if DistinctNames(configs) {
      forall j: nat | j < |next| ensures IsNewName(next, j) {
        assert IsNewName(configs, j);
        SameNames(next[..j], configs[..j]);
      }
    }
  }

  lemma UpdateIsConsistent(configs: seq<Config>, runtimes: map<string, Runtime>, i: nat, c: Config, r: Runtime)
    requires Consistent(configs, runtimes) && i < |configs| && c.name == configs[i].name && Assembled(c.endpoints) && Serves(r, c)
    ensures Consistent(configs[i := c], runtimes[c.name := r])
  {
    assert configs[i].name in Names(configs);
    UpdateKeepsNames(configs, i, c);
    UpdateFits(configs, runtimes, i, c, r);
  }

  lemma ReplaceKeepsOwnIds(es: seq<Endpoint>, k: nat, e: Endpoint)
    requires OwnIds(es) && k < |es| && e.id == es[k].id
    ensures OwnIds(es[k := e])
  {
    var next := es[k := e];
    forall i: nat | i < |next| ensures IsNew(next, i) {
      assert IsNew(es, i);
      SameIdSets(next[..i], es[..i]);
    }
  }

  lemma SameIdSets(a: seq<Endpoint>, b: seq<Endpoint>)
    requires |a| == |b| && forall i | 0 <= i < |a| :: a[i].id == b[i].id
    ensures Ids(a) == Ids(b)
  {
    forall x | x in Ids(b) ensures x in Ids(a) {
      var i :| 0 <= i < |b| && b[i].id == x;
      assert a[i].id == x;
    }
  }

  lemma AssemblyReplaces(cluster: string, es: seq<Endpoint>, k: nat, e: Endpoint, digest: Digest, out: seq<Endpoint>)
    requires Assembled(es) && k < |es| && e.id == es[k].id
    requires IsAssembly(cluster, AsSlots(es[k := e]), digest, AsSlots(out))
    ensures out == es[k := Named(e, k)]
  {
    ReplaceKeepsOwnIds(es, k, e);
    AssemblyNames(cluster, es[k := e], digest, out);
    forall i | 0 <= i < |es| ensures out[i] == es[k := Named(e, k)][i] {}
  }

  // The ID an appended endpoint was given is free, or is the base that assembly resolves anyway.
  lemma AppendResolves(cluster: string, es: seq<Endpoint>, e: Endpoint, digest: Digest, given: string, id: string)
    requires given == BaseId(cluster, e, digest) || IsResolved(BaseId(cluster, e, digest), Ids(es), given)
    requires given != "" && IsResolved(given, Ids(es), id)
    ensures IsResolved(BaseId(cluster, e, digest), Ids(es), id)
  {
    if given != BaseId(cluster, e, digest) {
      FreeBaseIsKept(given, Ids(es));
      ResolvedIsUnique(given, Ids(es), given, id);
    }
  }

  lemma ResolvedIsNotEmpty(base: string, taken: set<string>, id: string)
    requires base != "" && IsResolved(base, taken, id)
    ensures id != ""
  {
    var n: nat :| id == Candidate(base, n);
  }

  /** SetEndpoint on the endpoints of one cluster. */
  method SetIn(cluster: string, es: seq<Endpoint>, e: Endpoint, digest: Digest) returns (es': seq<Endpoint>)
    requires Assembled(es)
    ensures Assembled(es') && IsSet(cluster, es, e, digest, es')
  {
    var o := ResolveSlot(cluster, e, es, digest);
    match o
    case Idempotent =>
      es' := es;
    case Replace(k) =>
      es' := AssembleEndpoints(cluster, es[k := e], digest);
      AssembledIsAssembled(cluster, es[k := e], digest, es');
      AssemblyReplaces(cluster, es, k, e, digest, es');
    case Append(id) =>
      var given := e.(id := id);
      es' := AssembleEndpoints(cluster, es + [given], digest);
      AssembledIsAssembled(cluster, es + [given], digest, es');
      AssemblyAppends(cluster, es, given, digest, es');
      if id != BaseId(cluster, e, digest) {
        ResolvedIsNotEmpty(BaseId(cluster, e, digest), Ids(es), id);
      }
      AppendResolves(cluster, es, e, digest, id, es'[|es|].id);
  }

  lemma DeleteKeepsOwnIds(es: seq<Endpoint>, k: nat)
    requires OwnIds(es) && k < |es|
    ensures OwnIds(es[..k] + es[k + 1..])
  {
    var next := es[..k] + es[k + 1..];
    forall i: nat | i < |next| ensures IsNew(next, i) {
      var j := if i < k then i else i + 1;
      assert IsNew(es, j) && next[i] == es[j];
      forall m | 0 <= m < i ensures next[m].id != next[i].id {
        assert es[..j][if m < k then m else m + 1].id in Ids(es[..j]);
      }
    }
  }

  lemma IdIsOnce(es: seq<Endpoint>, k: nat)
    requires OwnIds(es) && k < |es|
    ensures forall j: nat | k < j < |es| :: es[j].id != es[k].id
  {
    forall j: nat | k < j < |es| ensures es[j].id != es[k].id {
      assert IsNew(es, j) && es[..j][k].id in Ids(es[..j]);
    }
  }

  /** DeleteEndpoint on the endpoints of one cluster: the first one with the ID goes, and nothing else changes. */
  method DeleteIn(cluster: string, es: seq<Endpoint>, id: string, digest: Digest) returns (es': seq<Endpoint>)
    requires Assembled(es)
    ensures Assembled(es')
    ensures id !in Ids(es) ==> es' == es
    ensures forall k: nat | k < |es| && es[k].id == id :: es' == es[..k] + es[k + 1..]
  {
    for k := 0 to |es|
      invariant forall j | 0 <= j < k :: es[j].id != id
    {
      if es[k].id == id {
        DeleteKeepsOwnIds(es, k);
        es' := AssembleEndpoints(cluster, es[..k] + es[k + 1..], digest);
        AssemblyNames(cluster, es[..k] + es[k + 1..], digest, es');
        assert es' == es[..k] + es[k + 1..];
        IdIsOnce(es, k);
        return;
      }
    }
    es' := es;
  }

  // The clusters whose name is not given, in order.
  function Without(configs: seq<Config>, names: set<string>): seq<Config> {
    if configs == [] then []
    else
      var last := configs[|configs| - 1];
      if last.name in names then Without(configs[..|configs| - 1], names) else Without(configs[..|configs| - 1], names) + [last]
  }

  lemma {:induction false} WithoutNames(configs: seq<Config>, names: set<string>)
    ensures Names(Without(configs, names)) == Names(configs) - names
  {
    if configs != [] {
      var before, last := configs[..|configs| - 1], configs[|configs| - 1];
      WithoutNames(before, names);
      assert configs == before + [last];
      NamesExtend(before, last);
      NamesExtend(Without(before, names), last);
    }
  }

  lemma {:induction false} WithoutIsDistinct(configs: seq<Config>, names: set<string>)
    requires DistinctNames(configs)
    ensures DistinctNames(Without(configs, names))
  {
    if configs != [] {
      var before, last := configs[..|configs| - 1], configs[|configs| - 1];
      forall i: nat | i < |before| ensures IsNewName(before, i) {
        assert IsNewName(configs, i) && before[..i] == configs[..i];
      }
      WithoutIsDistinct(before, names);
      assert IsNewName(configs, |before|);
      WithoutNames(before, names);
      if last.name !in names {
        AppendIsDistinct(Without(before, names), last);
      }
    }
  }

  lemma FitsAppend(configs: seq<Config>, runtimes: map<string, Runtime>, c: Config)
    requires AllFit(configs, runtimes) && Fits(c, runtimes)
    ensures AllFit(configs + [c], runtimes)
  {
    var more := configs + [c];
    forall i: nat | i < |more| ensures FitsAt(more, runtimes, i) {
      if i < |configs| {
        assert FitsAt(configs, runtimes, i);
      }
    }
  }

  lemma {:induction false} WithoutFits(configs: seq<Config>, names: set<string>, runtimes: map<string, Runtime>)
    requires AllFit(configs, runtimes)
    ensures AllFit(Without(configs, names), runtimes - names)
  {
    if configs != [] {
      var before, last := configs[..|configs| - 1], configs[|configs| - 1];
      forall i: nat | i < |before| ensures FitsAt(before, runtimes, i) {
        assert FitsAt(configs, runtimes, i);
      }
      WithoutFits(before, names, runtimes);
      assert FitsAt(configs, runtimes, |before|);
      if last.name !in names {
        FitsAppend(Without(before, names), runtimes - names, last);
      }
    }
  }

  /** Dropping clusters with their runtimes leaves the others as they were. */
  lemma WithoutIsConsistent(configs: seq<Config>, names: set<string>, runtimes: map<string, Runtime>)
    requires Consistent(configs, runtimes)
    ensures Consistent(Without(configs, names), runtimes - names)
  {
    WithoutNames(configs, names);
    WithoutIsDistinct(configs, names);
    WithoutFits(configs, names, runtimes);
  }

  // A runtime that has the health its predecessor leaves it.
  ghost predicate Succeeds(before: Runtime, r: Runtime) {
    |r.endpoints| == |r.snapshot.all| && InheritsHealth(before.snapshot.all, r.endpoints, r.snapshot.all)
  }

  // Every runtime with health checks has inherited from the one of the same name before it: no verdict
  // on an endpoint that kept its ID and address is lost, and others go by their address.
  ghost predicate VerdictsCarry(before: map<string, Runtime>, after: map<string, Runtime>) {
    forall n | n in before && n in after && after[n].checked :: Succeeds(before[n], after[n])
  }

  lemma RunningIdsAreUnique(configs: seq<Config>, runtimes: map<string, Runtime>, n: string)
    requires Consistent(configs, runtimes) && n in runtimes
    ensures UniqueIds(runtimes[n].snapshot.all) && IsIndex(runtimes[n].snapshot) && |runtimes[n].endpoints| == |runtimes[n].snapshot.all|
  {
    var i: nat :| i < |configs| && configs[i].name == n;
    assert FitsAt(configs, runtimes, i);
  }

  lemma SucceedsItself(configs: seq<Config>, runtimes: map<string, Runtime>, n: string)
    requires Consistent(configs, runtimes) && n in runtimes
    ensures Succeeds(runtimes[n], runtimes[n])
  {
    RunningIdsAreUnique(configs, runtimes, n);
    var all := runtimes[n].snapshot.all;
    KeepsOwnVerdicts(all);
    forall j | 0 <= j < |all| ensures WasThere(all, all[j]) {}
  }

  // Replacing one runtime by a successor of it carries all verdicts.
  lemma SuccessorCarries(configs: seq<Config>, runtimes: map<string, Runtime>, name: string, r: Runtime)
    requires Consistent(configs, runtimes)
    requires name in runtimes && r.checked ==> Succeeds(runtimes[name], r)
    ensures VerdictsCarry(runtimes, runtimes[name := r])
  {
    var after := runtimes[name := r];
    forall n | n in runtimes && n in after && after[n].checked ensures Succeeds(runtimes[n], after[n]) {
      if n != name {
        SucceedsItself(configs, runtimes, n);
      }
    }
  }

  lemma RestCarries(configs: seq<Config>, runtimes: map<string, Runtime>, names: set<string>)
    requires Consistent(configs, runtimes)
    ensures VerdictsCarry(runtimes, runtimes - names)
  {
    forall n | n in runtimes && n !in names ensures Succeeds(runtimes[n], runtimes[n]) {
      SucceedsItself(configs, runtimes, n);
    }
  }

  lemma SameCarries(configs: seq<Config>, runtimes: map<string, Runtime>)
    requires Consistent(configs, runtimes)
    ensures VerdictsCarry(runtimes, runtimes)
  {
    RestCarries(configs, runtimes, {});
    assert runtimes - {} == runtimes;
  }

  lemma CarryExtends(before: map<string, Runtime>, after: map<string, Runtime>, name: string, r: Runtime)
    requires VerdictsCarry(before, after)
    requires name in before && r.checked ==> Succeeds(before[name], r)
    ensures VerdictsCarry(before, after[name := r])
  {
  }

  // Builds the runtime of a configuration from the one it replaces.
  method BuildSuccessor(c: Config, ghost configs: seq<Config>, runtimes: map<string, Runtime>, digest: Digest) returns (r: Runtime)
    requires Consistent(configs, runtimes) && OwnIds(c.endpoints)
    ensures Serves(r, c)
    ensures c.name in runtimes && r.checked ==> Succeeds(runtimes[c.name], r)
  {
    if c.name in runtimes {
      RunningIdsAreUnique(configs, runtimes, c.name);
    }
    r := BuildRuntime(c, if c.name in runtimes then Some(runtimes[c.name].snapshot) else None, digest);
  }
}
