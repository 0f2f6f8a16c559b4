/** The cluster manager: store mutations, xDS ownership, and endpoint notifications. */
module ClusterManager {
  import opened Options
  import opened Decimals
  import opened Endpoints
  import opened EndpointIdentity
  import opened EndpointSnapshot
  import opened ClusterStore
  import opened EndpointEvents

  function KeysOf(c: Config): set<Key> {
    set a | a in Addresses(c.endpoints) :: (c.name, a)
  }

  // The addresses of every configured cluster.
  function KeysOfAll(configs: seq<Config>): set<Key> {
    if configs == [] then {} else KeysOfAll(configs[..|configs| - 1]) + KeysOf(configs[|configs| - 1])
  }

  lemma {:induction false} KeyIsOfSome(configs: seq<Config>, k: Key)
    ensures k in KeysOfAll(configs) <==> exists i | 0 <= i < |configs| :: k in KeysOf(configs[i])
  {
    if configs != [] {
      KeyIsOfSome(configs[..|configs| - 1], k);
    }
  }

  lemma KeysAppend(configs: seq<Config>, c: Config)
    ensures KeysOfAll(configs + [c]) == KeysOfAll(configs) + KeysOf(c)
  {
    assert (configs + [c])[..|configs|] == configs;
  }

  lemma KeysOfNew(configs: seq<Config>, c: Config)
    requires c.name !in Names(configs)
    ensures KeysOfAll(configs) !! KeysOf(c)
  {
    forall k | k in KeysOfAll(configs) ensures k !in KeysOf(c) {
      KeyIsOfSome(configs, k);
      var i :| 0 <= i < |configs| && k in KeysOf(configs[i]);
      assert configs[i].name in Names(configs);
    }
  }

  // Replacing one configuration changes the addresses of that cluster alone.
  lemma KeysUpdate(configs: seq<Config>, i: nat, c: Config)
    requires DistinctNames(configs) && i < |configs| && c.name == configs[i].name
    ensures KeysOfAll(configs[i := c]) == (KeysOfAll(configs) - KeysOf(configs[i])) + KeysOf(c)
    ensures KeysOf(configs[i]) <= KeysOfAll(configs)
  {
    var next := configs[i := c];
    forall k ensures k in KeysOfAll(next) <==> (k in KeysOfAll(configs) && k !in KeysOf(configs[i])) || k in KeysOf(c) {
      KeyIsOfSome(next, k);
      KeyIsOfSome(configs, k);
      if j: nat :| j < |configs| && j != i && k in KeysOf(configs[j]) {
        NamesDiffer(configs, j, i);
        assert next[j] == configs[j];
      }
      if k in KeysOf(c) {
        assert next[i] == c;
      }
    }
    forall k | k in KeysOf(configs[i]) ensures k in KeysOfAll(configs) {
      KeyIsOfSome(configs, k);
    }
  }

  // Replacing the part by part' in `before` gives `after`, and touches nothing else.
  ghost predicate Splices(part: set<Key>, part': set<Key>, before: set<Key>, after: set<Key>) {
    part <= before && (before - part) !! part' && after == (before - part) + part'
  }

  lemma SplicesChange(part: set<Key>, part': set<Key>, before: set<Key>, after: set<Key>)
    requires Splices(part, part', before, after)
    ensures after == before <==> part == part'
  {
    if after == before {
      assert part' == after - (before - part);
      assert part == before - (before - part);
    }
  }

  // The difference of two partial snapshots is that of the whole store.
  lemma DiffOfPart(changes: seq<Change>, part: set<Key>, part': set<Key>, before: set<Key>, after: set<Key>, version: nat)
    requires IsDiff(changes, part, part', version) && Splices(part, part', before, after)
    ensures IsDiff(changes, before, after, version)
  {
    assert before - after == part - part';
    assert after - before == part' - part;
  }

  // The name that an unnamed cluster is given.
  function Generated(index: nat): (name: string)
    ensures name != ""
  {
    "cluster-" + Dec(index)
  }

  /** Names made up for different numbers differ, and are numbered as they are counted. */
  lemma GeneratedNamesDiffer(i: nat, j: nat)
    ensures Generated(i) == Generated(j) <==> i == j
    ensures Generated(1) == "cluster-1"
  {
    if Generated(i) == Generated(j) {
      assert Generated(i)[8..] == Dec(i) && Generated(j)[8..] == Dec(j);
      DecInjective(i, j);
    }
  }

  function EffectiveName(name: string, index: nat): string {
    if name == "" then Generated(index) else name
  }

  // One endpoint set in the named cluster, which is the last one if it is new.
  ghost predicate IsSetCluster(before: seq<Config>, running: map<string, Runtime>, name: string, e: Endpoint, digest: Digest,
                               after: seq<Config>, runtimes: map<string, Runtime>, i: nat)
  {
    && i < |after| && after[i].name == name && name in runtimes && runtimes == running[name := runtimes[name]]
    && (name in Names(before) ==>
        && i < |before| && after == before[i := before[i].(endpoints := after[i].endpoints)]
        && IsSet(name, before[i].endpoints, e, digest, after[i].endpoints)
        && (after[i].endpoints == before[i].endpoints ==> runtimes == running))
    && (name !in Names(before) ==> after == before + [after[i]] && IsSet(name, [], e, digest, after[i].endpoints))
  }

  // A cluster under a generated name whose runtime has no endpoints, and a runtime with its endpoint under no name.
  ghost predicate IsStray(before: seq<Config>, running: map<string, Runtime>, generated: string, e: Endpoint, digest: Digest,
                          after: seq<Config>, runtimes: map<string, Runtime>, i: nat)
  {
    && i == |before| < |after| && after == before + [after[i]] && after[i].name == generated
    && IsSet("", [], e, digest, after[i].endpoints)
    && generated in runtimes && "" in runtimes && runtimes == running[generated := runtimes[generated]]["" := runtimes[""]]
    && runtimes[generated].endpoints == [] && Serves(runtimes[""], after[i])
  }

  function NameSet(names: seq<string>): set<string> {
    set i | 0 <= i < |names| :: names[i]
  }

  // The last configuration of a name is the one that the name's runtime serves.
  ghost predicate LastIsServed(configs: seq<Config>, runtimes: map<string, Runtime>, i: nat)
    requires i < |configs|
  {
    configs[i].name != "" && configs[i].name !in Names(configs[i + 1..]) ==>
      configs[i].name in runtimes && Serves(runtimes[configs[i].name], configs[i])
  }

  ghost predicate PreparedAt(candidate: seq<Config>, digest: Digest, configs: seq<Config>, i: nat)
    requires i < |configs| == |candidate|
  {
    IsPrepared(candidate[i], digest, configs[i])
  }

  ghost predicate AllPrepared(candidate: seq<Config>, digest: Digest, configs: seq<Config>)
    requires |configs| == |candidate|
  {
    forall i: nat | i < |configs| :: PreparedAt(candidate, digest, configs, i)
  }

  ghost predicate AllServed(configs: seq<Config>, runtimes: map<string, Runtime>) {
    forall i: nat | i < |configs| :: LastIsServed(configs, runtimes, i)
  }

  // A cluster appended under the name, with a runtime built for it.
  ghost predicate IsAdded(before: seq<Config>, running: map<string, Runtime>, c: Config, name: string, digest: Digest,
                          p: Config, after: seq<Config>, runtimes: map<string, Runtime>)
  {
    && IsPrepared(c.(name := name), digest, p) && after == before + [p]
    && name in runtimes && Serves(runtimes[name], p) && runtimes == running[name := runtimes[name]]
  }

  // The candidate, prepared in order, with a runtime for each name that is not empty.
  ghost predicate IsInstalled(candidate: seq<Config>, digest: Digest, configs: seq<Config>, runtimes: map<string, Runtime>) {
    && |configs| == |candidate| && runtimes.Keys == Names(configs) - {""}
    && AllPrepared(candidate, digest, configs) && AllServed(configs, runtimes)
  }

  // One runtime for each cluster, xDS owns none but configured ones, and every cluster has a name.
  ghost predicate InOrder(configs: seq<Config>, runtimes: map<string, Runtime>, xds: set<string>) {
    Consistent(configs, runtimes) && xds <= Names(configs) && "" !in Names(configs)
  }

  class Manager {
    var configs: seq<Config>
    var runtimes: map<string, Runtime>
    var xds: set<string>
    // The endpoint event counter and the notifications sent so far.
    var version: nat
    var sent: seq<Change>
    var nextConfigId: nat
    // Numbers the unnamed clusters.
    var clusterIndex: nat
    // Counts the mutations of the store, for compare-and-set.
    var storeVersion: nat
    const initial: set<Key>
    const digest: Digest

    ghost predicate Valid()
      reads this`configs, this`runtimes, this`xds
    {
      InOrder(configs, runtimes, xds)
    }

    // The notifications sent so far tell the store's addresses.
    ghost predicate Told()
      reads this`configs, this`version, this`sent
    {
      Tells(initial, sent, version, KeysOfAll(configs))
    }

    constructor (digest: Digest)
      ensures Valid() && Told() && configs == [] && runtimes == map[] && xds == {}
    {
      configs, runtimes, xds, version, sent, nextConfigId, clusterIndex, storeVersion := [], map[], {}, 0, [], 1, 1, 0;
      initial, this.digest := {}, digest;
      new;
      assert forall k :: Latest(sent, k) == None;
    }

    method Find(name: string) returns (r: Option<nat>)
      ensures r.Some? ==> r.value < |configs| && configs[r.value].name == name
      ensures r.None? <==> name !in Names(configs)
    {
      for i := 0 to |configs|
        invariant forall j | 0 <= j < i :: configs[j].name != name
      {
        if configs[i].name == name {
          return Some(i);
        }
      }
      r := None;
    }

    // Stable IDs and default names for the endpoints, and an identity for the configuration.
    method PrepareConfig(c: Config) returns (p: Config)
      modifies `nextConfigId
      ensures IsPrepared(c, digest, p)
      ensures if c.id == 0 then p.id == old(nextConfigId) && nextConfigId == old(nextConfigId) + 1 else nextConfigId == old(nextConfigId)
    {
      var endpoints := AssembleEndpoints(c.name, c.endpoints, digest);
      AssembledIsAssembled(c.name, c.endpoints, digest, endpoints);
      if c.id != 0 {
        return c.(endpoints := endpoints);
      }
      p := c.(id := nextConfigId, endpoints := endpoints);
      nextConfigId := nextConfigId + 1;
    }

    // Builds the runtime of a configuration from the runtime it replaces.
    method ReplaceRuntime(c: Config) returns (r: Runtime)
      requires Consistent(configs, runtimes) && Assembled(c.endpoints)
      ensures Serves(r, c) && VerdictsCarry(runtimes, runtimes[c.name := r])
    {
      r := BuildSuccessor(c, configs, runtimes, digest);
      SuccessorCarries(configs, runtimes, c.name, r);
    }

    // Sends the difference of two snapshots under a new version.
    method Notify(part: set<Key>, part': set<Key>, ghost before: set<Key>)
      requires Splices(part, part', before, KeysOfAll(configs))
      modifies `version, `sent
      ensures version == old(version) + 1
      ensures Tells(initial, old(sent), old(version), before) ==> Told()
    {
      var changes := StateChanges(part, part', version + 1);
      DiffOfPart(changes, part, part', before, KeysOfAll(configs), version + 1);
      if Tells(initial, sent, version, before) {
        NotifyKeepsTelling(initial, sent, version, before, KeysOfAll(configs), changes);
      }
      version, sent := version + 1, sent + changes;
    }

    // Announces addresses without looking at what was there.
    method Announce(added: set<Key>, ghost before: set<Key>)
      requires KeysOfAll(configs) == before + added
      modifies `version, `sent
      ensures version == old(version) + 1
      ensures Tells(initial, old(sent), old(version), before) ==> Told()
    {
      var changes := StateChanges({}, added, version + 1);
      if Tells(initial, sent, version, before) {
        AnnounceKeepsTelling(initial, sent, version, before, added, changes);
      }
      version, sent := version + 1, sent + changes;
    }

    method InstallNew(p: Config)
      requires Consistent(configs, runtimes) && p.name !in Names(configs) && Assembled(p.endpoints)
      modifies `configs, `runtimes
      ensures Consistent(configs, runtimes)
      ensures configs == old(configs) + [p] && p.name in runtimes && runtimes == old(runtimes)[p.name := runtimes[p.name]]
      ensures VerdictsCarry(old(runtimes), runtimes)
    {
      var r := ReplaceRuntime(p);
      AppendIsConsistent(configs, runtimes, p, r);
      configs, runtimes := configs + [p], runtimes[p.name := r];
    }

    // Puts a new configuration of a cluster in place of the one at i.
    method InstallAt(i: nat, p: Config)
      requires Consistent(configs, runtimes) && i < |configs| && p.name == configs[i].name && Assembled(p.endpoints)
      modifies `configs, `runtimes
      ensures Consistent(configs, runtimes)
      ensures configs == old(configs)[i := p] && p.name in runtimes && runtimes == old(runtimes)[p.name := runtimes[p.name]]
      ensures VerdictsCarry(old(runtimes), runtimes)
    {
      var r := ReplaceRuntime(p);
      UpdateIsConsistent(configs, runtimes, i, p, r);
      configs, runtimes := configs[i := p], runtimes[p.name := r];
    }

    // Appends an assembled cluster.
    method StoreConfig(p: Config)
      requires Valid() && p.name != "" && p.name !in Names(configs) && Assembled(p.endpoints)
      modifies `configs, `runtimes
      ensures Valid() && configs == old(configs) + [p]
      ensures p.name in runtimes && runtimes == old(runtimes)[p.name := runtimes[p.name]]
      ensures VerdictsCarry(old(runtimes), runtimes)
    {
      NamesExtend(configs, p);
      InstallNew(p);
    }

    // The configuration under the name it is stored with.
    method NameConfig(c: Config) returns (named: Config)
      modifies `clusterIndex
      ensures named == c.(name := EffectiveName(c.name, old(clusterIndex)))
      ensures clusterIndex == old(clusterIndex) + if c.name == "" then 1 else 0
    {
      named := c;
      if c.name == "" {
        named := c.(name := Generated(clusterIndex));
        clusterIndex := clusterIndex + 1;
      }
    }

    // Appends an assembled cluster under a name that may be in use.
    method Append(p: Config)
      requires Valid() && p.name != "" && Assembled(p.endpoints)
      modifies `configs, `runtimes
      ensures Valid() <==> p.name !in Names(old(configs))
      ensures configs == old(configs) + [p]
      ensures p.name in runtimes && Serves(runtimes[p.name], p) && runtimes == old(runtimes)[p.name := runtimes[p.name]]
      ensures VerdictsCarry(old(runtimes), runtimes)
    {
      var r := ReplaceRuntime(p);
      AppendIsInOrderIff(configs, runtimes, xds, p, r);
      configs, runtimes := configs + [p], runtimes[p.name := r];
    }

    method Release(name: string)
      requires Valid()
      modifies `xds
      ensures Valid() && xds == old(xds) - {name}
    {
      xds := xds - {name};
    }

    method StoreAdded(c: Config) returns (p: Config)
      requires Valid()
      modifies `configs, `runtimes, `nextConfigId, `clusterIndex
      ensures Valid() <==> EffectiveName(c.name, old(clusterIndex)) !in Names(old(configs))
      ensures IsAdded(old(configs), old(runtimes), c, EffectiveName(c.name, old(clusterIndex)), digest, p, configs, runtimes)
      ensures KeysOfAll(configs) == KeysOfAll(old(configs)) + KeysOf(p)
      ensures VerdictsCarry(old(runtimes), runtimes)
    {
      var named := NameConfig(c);
      p := PrepareConfig(named);
      Append(p);
      KeysAppend(old(configs), p);
    }

    method AddAndTell(c: Config) returns (p: Config)
      requires Valid()
      modifies `configs, `runtimes, `nextConfigId, `clusterIndex, `version, `sent
      ensures Valid() <==> EffectiveName(c.name, old(clusterIndex)) !in Names(old(configs))
      ensures old(Told()) ==> Told()
      ensures IsAdded(old(configs), old(runtimes), c, EffectiveName(c.name, old(clusterIndex)), digest, p, configs, runtimes)
      ensures VerdictsCarry(old(runtimes), runtimes)
    {
      p := StoreAdded(c);
      Announce(KeysOf(p), KeysOfAll(old(configs)));
    }

    /**
     A new cluster is appended, with a runtime built for it; the others are as
     they were. Only a name that is in use breaks the store, which then has two
     configurations and one runtime of that name. Consumers are told either way.
     */
    method AddCluster(c: Config) returns (p: Config)
      requires Valid()
      modifies this
      ensures Valid() <==> EffectiveName(c.name, old(clusterIndex)) !in Names(old(configs))
      ensures old(Told()) ==> Told()
      ensures IsAdded(old(configs), old(runtimes), c, EffectiveName(c.name, old(clusterIndex)), digest, p, configs, runtimes)
      ensures xds == old(xds) - {c.name} && storeVersion == old(storeVersion) + 1
      ensures VerdictsCarry(old(runtimes), runtimes)
    {
      storeVersion := storeVersion + 1;
      Release(c.name);
      p := AddAndTell(c);
    }

    method StoreAt(i: nat, p: Config)
      requires Valid() && i < |configs| && p.name == configs[i].name && Assembled(p.endpoints)
      modifies `configs, `runtimes
      ensures Valid() && configs == old(configs)[i := p]
      ensures p.name in runtimes && runtimes == old(runtimes)[p.name := runtimes[p.name]]
      ensures VerdictsCarry(old(runtimes), runtimes)
    {
      UpdateKeepsNames(configs, i, p);
      InstallAt(i, p);
    }

    // Notifies that the configuration at i took the place of another.
    method NotifyUpdate(i: nat, was: Config, ghost before: seq<Config>)
      requires DistinctNames(before) && i < |before| && was == before[i]
      requires |configs| == |before| && configs == before[i := configs[i]] && configs[i].name == was.name
      modifies `version, `sent
      ensures Tells(initial, old(sent), old(version), KeysOfAll(before)) ==> Told()
    {
      UpdatedKeys(before, i, configs[i]);
      Notify(KeysOf(was), KeysOf(configs[i]), KeysOfAll(before));
    }

    // A mutation that leaves the configurations alone still takes a version.
    method NotifyNothing()
      modifies `version, `sent
      ensures old(Told()) ==> Told()
    {
      Notify({}, {}, KeysOfAll(configs));
    }

    /** An existing cluster gets the new configuration; a missing one changes nothing but ownership. */
    method UpdateCluster(c: Config) returns (found: Option<nat>, p: Config)
      requires Valid()
      modifies this
      ensures Valid() && (old(Told()) ==> Told()) && xds == old(xds) - {c.name} && storeVersion == old(storeVersion) + 1
      ensures found.None? ==> c.name !in Names(configs) && configs == old(configs) && runtimes == old(runtimes)
      ensures found.Some? ==>
        && found.value < |old(configs)| && old(configs)[found.value].name == c.name
        && IsPrepared(c, digest, p) && configs == old(configs)[found.value := p]
        && c.name in runtimes && runtimes == old(runtimes)[c.name := runtimes[c.name]]
      ensures VerdictsCarry(old(runtimes), runtimes)
    {
      storeVersion := storeVersion + 1;
      xds := xds - {c.name};
      p := c;
      found := Find(c.name);
      if found.None? {
        SameCarries(configs, runtimes);
        NotifyNothing();
        return;
      }
      p := PrepareConfig(c);
      var was := configs[found.value];
      StoreAt(found.value, p);
      NotifyUpdate(found.value, was, old(configs));
    }

    method StoreSetNew(name: string, e: Endpoint) returns (c: Config)
      requires Valid() && name != "" && name !in Names(configs)
      modifies `configs, `runtimes, `nextConfigId
      ensures Valid() && configs == old(configs) + [c] && c.name == name && IsSet(name, [], e, digest, c.endpoints)
      ensures c.id == old(nextConfigId) && nextConfigId == old(nextConfigId) + 1
      ensures name in runtimes && runtimes == old(runtimes)[name := runtimes[name]]
      ensures VerdictsCarry(old(runtimes), runtimes)
    {
      var es := SetIn(name, [], e, digest);
      c := Config(name, nextConfigId, es, false, ROUND_ROBIN, HashConfig(0, 0, 0, 0));
      nextConfigId := nextConfigId + 1;
      StoreConfig(c);
    }

    // A cluster created by its first endpoint.
    method SetInNew(name: string, e: Endpoint) returns (c: Config)
      requires Valid() && name != "" && name !in Names(configs)
      modifies `configs, `runtimes, `nextConfigId, `version, `sent
      ensures Valid() && (old(Told()) ==> Told())
      ensures configs == old(configs) + [c] && c.name == name && IsSet(name, [], e, digest, c.endpoints)
      ensures name in runtimes && runtimes == old(runtimes)[name := runtimes[name]]
      ensures VerdictsCarry(old(runtimes), runtimes)
    {
      c := StoreSetNew(name, e);
      AddedKeys(old(configs), c);
      Notify({}, KeysOf(c), KeysOfAll(old(configs)));
    }

    // A new endpoint list for the cluster at i; an unchanged one leaves the runtime alone.
    method PutEndpoints(i: nat, es: seq<Endpoint>)
      requires Valid() && i < |configs| && Assembled(es)
      modifies `configs, `runtimes, `version, `sent
      ensures Valid() && (old(Told()) ==> Told())
      ensures configs == old(configs)[i := old(configs)[i].(endpoints := es)]
      ensures var n := old(configs)[i].name; n in runtimes && runtimes == old(runtimes)[n := runtimes[n]]
      ensures es == old(configs)[i].endpoints ==> runtimes == old(runtimes)
      ensures VerdictsCarry(old(runtimes), runtimes)
    {
      if es == configs[i].endpoints {
        SameCarries(configs, runtimes);
        RunningServes(configs, runtimes, i);
        NotifyNothing();
        return;
      }
      var was := configs[i];
      StoreAt(i, was.(endpoints := es));
      NotifyUpdate(i, was, old(configs));
    }

    method SetNamed(name: string, e: Endpoint) returns (i: nat)
      requires Valid() && name != ""
      modifies `configs, `runtimes, `nextConfigId, `version, `sent
      ensures Valid() && (old(Told()) ==> Told())
      ensures IsSetCluster(old(configs), old(runtimes), name, e, digest, configs, runtimes, i)
      ensures VerdictsCarry(old(runtimes), runtimes)
    {
      var found := Find(name);
      if found.None? {
        var c := SetInNew(name, e);
        i := |configs| - 1;
      } else {
        i := found.value;
        ConfiguredIsAssembled(configs, runtimes, i);
        var es := SetIn(name, configs[i].endpoints, e, digest);
        PutEndpoints(i, es);
      }
    }

    // The cluster is added under a generated name, and its endpoint goes to a runtime under the empty one.
    method StoreStray(e: Endpoint) returns (i: nat)
      requires Valid()
      modifies `configs, `runtimes, `nextConfigId, `clusterIndex
      ensures !Valid() && IsStray(old(configs), old(runtimes), Generated(old(clusterIndex)), e, digest, configs, runtimes, i)
      ensures KeysOfAll(configs) == KeysOfAll(old(configs)) + {(Generated(old(clusterIndex)), e.address)}
      ensures clusterIndex == old(clusterIndex) + 1 && configs[i].id == old(nextConfigId) && nextConfigId == old(nextConfigId) + 1
      ensures VerdictsCarry(old(runtimes), runtimes)
    {
      var added := Config(Generated(clusterIndex), nextConfigId, [], false, ROUND_ROBIN, HashConfig(0, 0, 0, 0));
      nextConfigId, clusterIndex := nextConfigId + 1, clusterIndex + 1;
      var empty := ReplaceRuntime(added);
      var es := SetIn("", [], e, digest);
      var c := added.(endpoints := es);
      var stray := BuildRuntime(c, None, digest);
      CarryExtends(runtimes, runtimes[c.name := empty], "", stray);
      NamesExtend(configs, c);
      StrayKeys(configs, e, digest, c);
      configs, runtimes, i := configs + [c], runtimes[c.name := empty]["" := stray], |configs|;
      assert "" in runtimes && "" !in Names(configs);
    }

    method SetUnnamed(e: Endpoint) returns (i: nat)
      requires Valid()
      modifies `configs, `runtimes, `nextConfigId, `clusterIndex, `version
      ensures version == old(version) + 1 && clusterIndex == old(clusterIndex) + 1
      ensures !Valid() && IsStray(old(configs), old(runtimes), Generated(old(clusterIndex)), e, digest, configs, runtimes, i)
      ensures old(Told()) ==> (Told() <==> (Generated(old(clusterIndex)), e.address) in KeysOfAll(old(configs)))
      ensures VerdictsCarry(old(runtimes), runtimes)
    {
      i := StoreStray(e);
      // Both address snapshots look up the empty name and find nothing.
      version := version + 1;
      if old(Told()) {
        TellsOneSet(initial, sent, old(version), version, KeysOfAll(old(configs)), KeysOfAll(configs));
      }
    }

    /**
     Sets one endpoint of a cluster, which is created if it does not exist. With
     an empty name the store breaks, and consumers are not told of the address.
     */
    method SetEndpoint(name: string, e: Endpoint) returns (i: nat)
      requires Valid()
      modifies this
      ensures Valid() <==> name != ""
      ensures xds == old(xds) - {name} && storeVersion == old(storeVersion) + 1
      ensures name != "" ==> (old(Told()) ==> Told())
      ensures name != "" ==> IsSetCluster(old(configs), old(runtimes), name, e, digest, configs, runtimes, i)
      ensures name == "" ==> IsStray(old(configs), old(runtimes), Generated(old(clusterIndex)), e, digest, configs, runtimes, i)
      ensures name == "" && old(Told()) ==> (Told() <==> (Generated(old(clusterIndex)), e.address) in KeysOfAll(old(configs)))
      ensures VerdictsCarry(old(runtimes), runtimes)
    {
      storeVersion := storeVersion + 1;
      xds := xds - {name};
      if name == "" {
        i := SetUnnamed(e);
      } else {
        i := SetNamed(name, e);
      }
    }

    /** Deletes one endpoint of a cluster by its ID; a missing cluster or ID changes nothing but ownership. */
    method DeleteEndpoint(name: string, id: string) returns (found: Option<nat>)
      requires Valid()
      modifies this
      ensures Valid() && (old(Told()) ==> Told()) && xds == old(xds) - {name} && storeVersion == old(storeVersion) + 1
      ensures found.None? ==> name !in Names(configs) && configs == old(configs) && runtimes == old(runtimes)
      ensures found.Some? ==> found.value < |old(configs)| && old(configs)[found.value].name == name
      ensures found.Some? ==>
        var c := old(configs)[found.value];
        && |configs| == |old(configs)| && configs == old(configs)[found.value := c.(endpoints := configs[found.value].endpoints)]
        && (id !in Ids(c.endpoints) ==> configs[found.value].endpoints == c.endpoints && runtimes == old(runtimes))
        && (forall k: nat | k < |c.endpoints| && c.endpoints[k].id == id ::
              configs[found.value].endpoints == c.endpoints[..k] + c.endpoints[k + 1..])
      ensures VerdictsCarry(old(runtimes), runtimes)
    {
      storeVersion := storeVersion + 1;
      xds := xds - {name};
      found := Find(name);
      if found.None? {
        SameCarries(configs, runtimes);
        NotifyNothing();
      } else {
        ConfiguredIsAssembled(configs, runtimes, found.value);
        var es := DeleteIn(name, configs[found.value].endpoints, id, digest);
        PutEndpoints(found.value, es);
      }
    }

    // Keeps the clusters whose name is not given. The source nils the others
    // out and then closes the gaps.
    method KeepWithout(names: set<string>) returns (kept: seq<Config>, running: map<string, Runtime>)
      ensures kept == Without(configs, names) && running == runtimes - names * Names(configs)
    {
      kept, running := [], runtimes;
      ghost var dropped := {};
      for i := 0 to |configs|
        invariant kept == Without(configs[..i], names)
        invariant dropped == names * Names(configs[..i]) && running == runtimes - dropped
      {
        assert configs[..i + 1] == configs[..i] + [configs[i]];
        NamesExtend(configs[..i], configs[i]);
        if configs[i].name in names {
          running := running - {configs[i].name};
          dropped := dropped + {configs[i].name};
        } else {
          kept := kept + [configs[i]];
        }
      }
      assert configs[..|configs|] == configs;
    }

    method KeepStore(names: set<string>) returns (kept: seq<Config>, running: map<string, Runtime>)
      requires Valid()
      ensures kept == Without(configs, names) && running == runtimes - names && Consistent(kept, running)
      ensures Names(kept) == Names(configs) - names && VerdictsCarry(runtimes, running)
    {
      RestCarries(configs, runtimes, names);
      kept, running := KeepWithout(names);
      assert running == runtimes - names;
      WithoutNames(configs, names);
      WithoutIsConsistent(configs, names, runtimes);
    }

    // Puts another consistent store in place.
    method Swap(kept: seq<Config>, running: map<string, Runtime>, owned: set<string>)
      requires Consistent(kept, running) && owned <= Names(kept) && "" !in Names(kept)
      modifies `configs, `runtimes, `xds, `version, `sent
      ensures Valid() && (old(Told()) ==> Told()) && configs == kept && runtimes == running && xds == owned
    {
      var before := KeysOfAll(configs);
      configs, runtimes, xds := kept, running, owned;
      Notify(before, KeysOfAll(configs), before);
    }

    /**
     Removes the named clusters with their runtimes and their xDS ownership, and
     nothing else. A configured name given twice is dereferenced after it was cleared.
     */
    method RemoveClusters(names: seq<string>)
      requires Valid()
      requires forall i, j | 0 <= i < j < |names| && names[i] == names[j] :: names[i] !in Names(configs)
      modifies this
      ensures Valid() && (old(Told()) ==> Told())
      ensures configs == Without(old(configs), NameSet(names)) && runtimes == old(runtimes) - NameSet(names)
      ensures xds == old(xds) - NameSet(names) && storeVersion == old(storeVersion) + 1
      ensures VerdictsCarry(old(runtimes), runtimes)
    {
      storeVersion := storeVersion + 1;
      var kept, running := KeepStore(NameSet(names));
      Swap(kept, running, xds - NameSet(names));
    }

    // The list names every cluster once and no cluster outside xDS.
    method CheckXdsList(list: seq<Option<Config>>, others: set<string>) returns (ok: bool, names: set<string>)
      ensures ok <==> IsXdsList(list, others)
      ensures ok ==> names == ListNames(list) && "" !in names
    {
      names := {};
      for i := 0 to |list|
        invariant IsXdsList(list[..i], others) && names == ListNames(list[..i]) && "" !in names
      {
        assert list[..i + 1][..i] == list[..i];
        if list[i].None? || list[i].value.name == "" || list[i].value.name in names || list[i].value.name in others {
          ListPrefix(list, i, others);
          return false, names;
        }
        ListExtends(list, i, others);
        names := names + {list[i].value.name};
      }
      assert list[..|list|] == list;
      ok := true;
    }

    // Prepares every cluster of the list and builds its runtime, beside the kept ones.
    method StageXds(list: seq<Option<Config>>, kept: seq<Config>, running: map<string, Runtime>)
      returns (all: seq<Config>, next: map<string, Runtime>)
      requires Valid() && Consistent(kept, running) && IsXdsList(list, Names(kept)) && VerdictsCarry(runtimes, running)
      modifies `nextConfigId
      ensures Consistent(all, next) && IsStaged(kept, running, list, digest, all, next)
      ensures VerdictsCarry(runtimes, next)
    {
      all, next := kept, running;
      for i := 0 to |list|
        invariant Consistent(all, next) && IsStaged(kept, running, list[..i], digest, all, next)
        invariant VerdictsCarry(runtimes, next)
      {
        assert IsXdsItem(list, i, Names(kept));
        var p := PrepareConfig(list[i].value);
        var r := BuildSuccessor(p, configs, runtimes, digest);
        CarryExtends(runtimes, next, p.name, r);
        AppendIsConsistent(all, next, p, r);
        StageExtends(kept, running, list, i, digest, all, next, p, r);
        all, next := all + [p], next[p.name := r];
      }
      assert list[..|list|] == list;
    }

    /**
     Replaces the clusters xDS owns. A rejected list changes nothing at all; an
     accepted one leaves every other cluster, its place and its runtime alone.
     */
    method ReplaceXdsClusters(list: seq<Option<Config>>) returns (ok: bool)
      requires Valid()
      modifies this
      ensures Valid() && (old(Told()) ==> Told())
      ensures ok <==> IsXdsList(list, Names(Without(old(configs), old(xds))))
      ensures !ok ==> configs == old(configs) && runtimes == old(runtimes) && xds == old(xds) && version == old(version) && sent == old(sent)
      ensures storeVersion == old(storeVersion) + if ok then 1 else 0
      ensures ok ==> xds == ListNames(list)
      ensures ok ==> IsStaged(Without(old(configs), old(xds)), old(runtimes) - old(xds), list, digest, configs, runtimes)
      ensures VerdictsCarry(old(runtimes), runtimes)
    {
      var kept, running := KeepStore(xds);
      var names;
      ok, names := CheckXdsList(list, Names(kept));
      if !ok {
        SameCarries(configs, runtimes);
        return;
      }
      storeVersion := storeVersion + 1;
      var all, next := StageXds(list, kept, running);
      Swap(all, next, names);
    }

    method InstallCandidate(candidate: seq<Config>) returns (all: seq<Config>, next: map<string, Runtime>)
      requires Valid()
      modifies `nextConfigId
      ensures IsInstalled(candidate, digest, all, next) && VerdictsCarry(runtimes, next)
    {
      all, next := [], map[];
      for i := 0 to |candidate|
        invariant IsInstalled(candidate[..i], digest, all, next) && VerdictsCarry(runtimes, next)
      {
        var p := PrepareConfig(candidate[i]);
        var r := BuildSuccessor(p, configs, runtimes, digest);
        CarryExtends(runtimes, next, p.name, r);
        InstallExtends(candidate, i, digest, all, next, p, r);
        all := all + [p];
        if p.name != "" {
          next := next[p.name := r];
        }
      }
      assert candidate[..|candidate|] == candidate;
    }

    method StoreCandidate(candidate: seq<Config>)
      requires Valid()
      modifies `configs, `runtimes, `xds, `nextConfigId
      ensures xds == {} && IsInstalled(candidate, digest, configs, runtimes) && VerdictsCarry(old(runtimes), runtimes)
      ensures Valid() <==> DistinctNames(candidate) && "" !in Names(candidate)
    {
      var all, next := InstallCandidate(candidate);
      InstalledIsConsistentIff(candidate, digest, all, next);
      configs, runtimes, xds := all, next, {};
    }

    /**
     Puts a store authored elsewhere in place. A stale one changes nothing at
     all; a current one is installed in order, inheriting the health of the
     runtimes it replaces, and nothing in it is owned by xDS. Names that are
     empty or repeated are exactly what makes the installed store inconsistent.
     */
    method CompareAndSetStore(candidate: seq<Config>, candidateVersion: nat) returns (ok: bool)
      requires Valid()
      modifies this
      ensures (old(Told()) ==> Told()) && storeVersion == old(storeVersion)
      ensures ok <==> candidateVersion == old(storeVersion)
      ensures !ok ==> configs == old(configs) && runtimes == old(runtimes) && xds == old(xds) && version == old(version) && sent == old(sent)
      ensures ok ==> xds == {} && IsInstalled(candidate, digest, configs, runtimes)
      ensures Valid() <==> (ok ==> DistinctNames(candidate) && "" !in Names(candidate))
      ensures VerdictsCarry(old(runtimes), runtimes)
    {
      if candidateVersion != storeVersion {
        SameCarries(configs, runtimes);
        return false;
      }
      var before := KeysOfAll(configs);
      StoreCandidate(candidate);
      Notify(before, KeysOfAll(configs), before);
      ok := true;
    }

    method UpsertPrepared(found: Option<nat>, ghost c: Config, p: Config)
      requires Valid() && c.name != "" && IsPrepared(c, digest, p)
      requires if found.Some? then found.value < |configs| && configs[found.value].name == c.name else c.name !in Names(configs)
      modifies `configs, `runtimes
      ensures Valid() && c.name in Names(configs) && c.name in runtimes && runtimes == old(runtimes)[c.name := runtimes[c.name]]
      ensures found.None? ==> configs == old(configs) + [p]
      ensures found.Some? ==> IsReplaced(old(configs), p, configs)
      ensures KeysOfAll(configs) == KeysOfAll(old(configs)) <==> Addresses(c.endpoints) == ConfiguredAt(old(configs), c.name)
      ensures VerdictsCarry(old(runtimes), runtimes)
    {
      if found.Some? {
        StoreAt(found.value, p);
        UpdatedKeys(old(configs), found.value, p);
        ConfiguredAtOne(old(configs), found.value);
        UntoldIff(old(configs), configs, KeysOf(old(configs)[found.value]), c, digest, p);
      } else {
        StoreConfig(p);
        AddedKeys(old(configs), p);
        ConfiguredAtNone(old(configs), c.name);
        UntoldIff(old(configs), configs, {}, c, digest, p);
      }
    }

    method UpsertAllowed(found: Option<nat>, c: Config) returns (p: Config)
      requires Valid() && c.name != ""
      requires if found.Some? then found.value < |configs| && configs[found.value].name == c.name else c.name !in Names(configs)
      modifies `configs, `runtimes, `nextConfigId
      ensures IsPrepared(c, digest, p)
      ensures Valid() && c.name in Names(configs) && c.name in runtimes && runtimes == old(runtimes)[c.name := runtimes[c.name]]
      ensures found.None? ==> configs == old(configs) + [p]
      ensures found.Some? ==> IsReplaced(old(configs), p, configs)
      ensures old(Told()) ==> (Told() <==> Addresses(c.endpoints) == ConfiguredAt(old(configs), c.name))
      ensures VerdictsCarry(old(runtimes), runtimes)
    {
      p := PrepareConfig(c);
      UpsertPrepared(found, c, p);
      if old(Told()) {
        TellsOneSet(initial, sent, version, version, KeysOfAll(old(configs)), KeysOfAll(configs));
      }
    }

    /**
     Adds or updates one cluster for xDS. Refused, and without effect, for a
     cluster that xDS does not own. Consumers are not notified, so what they were
     told stays true exactly when the cluster's addresses stay the same.
     */
    method UpsertXdsCluster(c: Config) returns (ok: bool, p: Config)
      requires Valid()
      modifies `configs, `runtimes, `xds, `nextConfigId, `storeVersion
      ensures Valid() && storeVersion == old(storeVersion) + if ok then 1 else 0
      ensures ok <==> c.name != "" && (c.name in Names(old(configs)) ==> c.name in old(xds))
      ensures !ok ==> configs == old(configs) && runtimes == old(runtimes) && xds == old(xds)
      ensures ok ==> xds == old(xds) + {c.name} && c.name in runtimes && runtimes == old(runtimes)[c.name := runtimes[c.name]]
      ensures ok ==> IsPrepared(c, digest, p)
      ensures ok && c.name !in Names(old(configs)) ==> configs == old(configs) + [p]
      ensures ok && c.name in Names(old(configs)) ==> IsReplaced(old(configs), p, configs)
      ensures old(Told()) && ok ==> (Told() <==> Addresses(c.endpoints) == ConfiguredAt(old(configs), c.name))
      ensures VerdictsCarry(old(runtimes), runtimes)
    {
      var found := Find(c.name);
      if c.name == "" || (found.Some? && c.name !in xds) {
        SameCarries(configs, runtimes);
        return false, c;
      }
      p := UpsertAllowed(found, c);
      xds, storeVersion := xds + {c.name}, storeVersion + 1;
      ok := true;
    }

    method PutRuntime(i: nat, r: Runtime)
      requires Valid() && i < |configs| && Serves(r, configs[i])
      modifies `runtimes
      ensures Valid() && runtimes == old(runtimes)[configs[i].name := r]
    {
      RunningIsConsistent(configs, runtimes, i, r);
      runtimes := runtimes[configs[i].name := r];
    }

    method ProbeAt(i: nat, address: string, healthy: bool) returns (ok: bool)
      requires Valid() && i < |configs| && configs[i].name in runtimes
      modifies `runtimes
      ensures Valid() && configs[i].name in runtimes
      ensures ok <==> address in Addresses(old(runtimes)[configs[i].name].snapshot.all)
      ensures runtimes == if ok then old(runtimes)[configs[i].name := runtimes[configs[i].name]] else old(runtimes)
      ensures ok ==> runtimes[configs[i].name].snapshot.all == FlaggedAt(old(runtimes)[configs[i].name].snapshot.all, address, healthy)
    {
      RunningServes(configs, runtimes, i);
      var r;
      ok, r := ApplyHealth(runtimes[configs[i].name], configs[i], address, healthy);
      if ok {
        PutRuntime(i, r);
      }
    }

    /** A health verdict on an address reaches the runtime's snapshot and nothing else. */
    method UpdateAddressHealth(name: string, address: string, healthy: bool) returns (ok: bool)
      requires Valid()
      modifies `runtimes
      ensures Valid()
      ensures ok <==> name in old(runtimes) && address in Addresses(old(runtimes)[name].snapshot.all)
      ensures !ok ==> runtimes == old(runtimes)
      ensures ok ==> name in runtimes && runtimes == old(runtimes)[name := runtimes[name]]
      ensures ok ==> runtimes[name].snapshot.all == FlaggedAt(old(runtimes)[name].snapshot.all, address, healthy)
    {
      var found := Find(name);
      if found.None? {
        return false;
      }
      ok := ProbeAt(found.value, address, healthy);
    }
  }

  // The addresses configured under a name.
  function ConfiguredAt(configs: seq<Config>, name: string): set<string> {
    set k | k in KeysOfAll(configs) && k.0 == name :: k.1
  }

  lemma ConfiguredAtOne(configs: seq<Config>, i: nat)
    requires DistinctNames(configs) && i < |configs|
    ensures ConfiguredAt(configs, configs[i].name) == Addresses(configs[i].endpoints)
  {
    var name := configs[i].name;
    forall a ensures (name, a) in KeysOfAll(configs) <==> a in Addresses(configs[i].endpoints) {
      KeyIsOfSome(configs, (name, a));
      if j: nat :| j < |configs| && (name, a) in KeysOf(configs[j]) {
        if j != i {
          NamesDiffer(configs, i, j);
        }
      }
    }
    forall a | a in Addresses(configs[i].endpoints) ensures a in ConfiguredAt(configs, name) {
      assert (name, a) in KeysOfAll(configs);
    }
  }

  lemma ConfiguredAtNone(configs: seq<Config>, name: string)
    requires name !in Names(configs)
    ensures ConfiguredAt(configs, name) == {}
  {
    forall k | k in KeysOfAll(configs) ensures k.0 != name {
      KeyIsOfSome(configs, k);
      var i :| 0 <= i < |configs| && k in KeysOf(configs[i]);
      assert configs[i].name in Names(configs);
    }
  }

  lemma PreparedAddresses(c: Config, digest: Digest, p: Config)
    requires IsPrepared(c, digest, p)
    ensures Addresses(p.endpoints) == Addresses(c.endpoints)
  {
    var before, after := AsSlots(c.endpoints), AsSlots(p.endpoints);
    forall i | 0 <= i < |c.endpoints| ensures |p.endpoints| == |c.endpoints| && p.endpoints[i].address == c.endpoints[i].address {
      assert |after| == |before| && before[i] == Some(c.endpoints[i]) && after[i] == Some(p.endpoints[i]);
    }
    assert |p.endpoints| == |c.endpoints|;
    forall a | a in Addresses(c.endpoints) ensures a in Addresses(p.endpoints) {
      var i :| 0 <= i < |c.endpoints| && c.endpoints[i].address == a;
      assert p.endpoints[i].address == a;
    }
  }

  // The keys of the whole store stay the same exactly when the cluster's addresses do.
  lemma UntoldIff(before: seq<Config>, after: seq<Config>, part: set<Key>, c: Config, digest: Digest, p: Config)
    requires IsPrepared(c, digest, p) && Splices(part, KeysOf(p), KeysOfAll(before), KeysOfAll(after))
    requires part == set a | a in ConfiguredAt(before, c.name) :: (c.name, a)
    ensures KeysOfAll(before) == KeysOfAll(after) <==> Addresses(c.endpoints) == ConfiguredAt(before, c.name)
  {
    PreparedAddresses(c, digest, p);
    SplicesChange(part, KeysOf(p), KeysOfAll(before), KeysOfAll(after));
    var name, known := c.name, ConfiguredAt(before, c.name);
    if part == KeysOf(p) {
      forall a | a in Addresses(p.endpoints) ensures a in known {
        assert (name, a) in KeysOf(p) && (name, a) in part;
      }
      forall a | a in known ensures a in Addresses(p.endpoints) {
        assert (name, a) in part && (name, a) in KeysOf(p);
      }
    }
  }

  lemma StrayKeys(configs: seq<Config>, e: Endpoint, digest: Digest, c: Config)
    requires IsSet("", [], e, digest, c.endpoints)
    ensures KeysOfAll(configs + [c]) == KeysOfAll(configs) + {(c.name, e.address)}
  {
    KeysAppend(configs, c);
    assert |c.endpoints| == 1 && c.endpoints[0].address == e.address;
    assert Addresses(c.endpoints) == {e.address};
    assert KeysOf(c) == {(c.name, e.address)};
  }

  lemma AppendIsConsistentIff(configs: seq<Config>, runtimes: map<string, Runtime>, c: Config, r: Runtime)
    requires Consistent(configs, runtimes) && Assembled(c.endpoints) && Serves(r, c)
    ensures Consistent(configs + [c], runtimes[c.name := r]) <==> c.name !in Names(configs)
  {
    if c.name !in Names(configs) {
      AppendIsConsistent(configs, runtimes, c, r);
    } else {
      var more := configs + [c];
      assert more[..|configs|] == configs;
      assert !IsNewName(more, |configs|);
    }
  }

  lemma PreparedExtends(candidate: seq<Config>, n: nat, digest: Digest, all: seq<Config>, p: Config)
    requires n < |candidate| && |all| == n && AllPrepared(candidate[..n], digest, all)
    requires IsPrepared(candidate[n], digest, p)
    ensures AllPrepared(candidate[..n + 1], digest, all + [p])
  {
    var first, more := candidate[..n + 1], all + [p];
    forall i: nat | i < |more| ensures PreparedAt(first, digest, more, i) {
      assert first[i] == candidate[i];
      if i < n {
        assert PreparedAt(candidate[..n], digest, all, i) && candidate[..n][i] == candidate[i];
      }
    }
  }

  lemma ServedExtends(all: seq<Config>, next: map<string, Runtime>, p: Config, r: Runtime)
    requires Serves(r, p) && AllServed(all, next)
    ensures AllServed(all + [p], if p.name == "" then next else next[p.name := r])
  {
    var more, running := all + [p], if p.name == "" then next else next[p.name := r];
    forall i: nat | i < |more| ensures LastIsServed(more, running, i) {
      if i < |all| {
        assert LastIsServed(all, next, i);
        assert more[i + 1..] == all[i + 1..] + [p];
        NamesExtend(all[i + 1..], p);
      }
    }
  }

  lemma AppendIsInOrderIff(configs: seq<Config>, runtimes: map<string, Runtime>, xds: set<string>, c: Config, r: Runtime)
    requires InOrder(configs, runtimes, xds) && c.name != "" && Assembled(c.endpoints) && Serves(r, c)
    ensures InOrder(configs + [c], runtimes[c.name := r], xds) <==> c.name !in Names(configs)
  {
    AppendIsConsistentIff(configs, runtimes, c, r);
    NamesExtend(configs, c);
  }

  lemma InstallExtends(candidate: seq<Config>, n: nat, digest: Digest, all: seq<Config>, next: map<string, Runtime>, p: Config, r: Runtime)
    requires n < |candidate| && IsInstalled(candidate[..n], digest, all, next)
    requires IsPrepared(candidate[n], digest, p) && Serves(r, p)
    ensures IsInstalled(candidate[..n + 1], digest, all + [p], if p.name == "" then next else next[p.name := r])
  {
    NamesExtend(all, p);
    PreparedExtends(candidate, n, digest, all, p);
    ServedExtends(all, next, p, r);
  }

  lemma InstalledFits(candidate: seq<Config>, digest: Digest, configs: seq<Config>, runtimes: map<string, Runtime>, i: nat)
    requires IsInstalled(candidate, digest, configs, runtimes) && i < |configs| && DistinctNames(configs) && "" !in Names(configs)
    ensures FitsAt(configs, runtimes, i)
  {
    assert PreparedAt(candidate, digest, configs, i) && LastIsServed(configs, runtimes, i);
    assert configs[i].name in Names(configs);
    forall j: nat | i < j < |configs| ensures configs[j].name != configs[i].name {
      NamesDiffer(configs, i, j);
    }
  }

  /** An installed store is consistent exactly when its names are distinct and none is empty. */
  lemma InstalledIsConsistentIff(candidate: seq<Config>, digest: Digest, configs: seq<Config>, runtimes: map<string, Runtime>)
    requires IsInstalled(candidate, digest, configs, runtimes)
    ensures Consistent(configs, runtimes) && "" !in Names(configs) <==> DistinctNames(candidate) && "" !in Names(candidate)
  {
    assert Names(configs) == Names(candidate) && (DistinctNames(configs) <==> DistinctNames(candidate)) by {
      forall i: nat | i < |configs| ensures configs[i].name == candidate[i].name {
        assert PreparedAt(candidate, digest, configs, i);
      }
      SameNames(configs, candidate);
      SameDistinctNames(configs, candidate);
    }
    if DistinctNames(configs) && "" !in Names(configs) {
      forall i: nat | i < |configs| ensures FitsAt(configs, runtimes, i) {
        InstalledFits(candidate, digest, configs, runtimes, i);
      }
    }
  }

  lemma SameDistinctNames(a: seq<Config>, b: seq<Config>)
    requires |a| == |b| && forall i | 0 <= i < |a| :: a[i].name == b[i].name
    ensures DistinctNames(a) <==> DistinctNames(b)
  {
    forall i: nat | i < |a| ensures IsNewName(a, i) <==> IsNewName(b, i) {
      SameNames(a[..i], b[..i]);
    }
  }

  // The kept clusters and their runtimes as they were, then the list, prepared.
  ghost predicate IsStaged(kept: seq<Config>, running: map<string, Runtime>, list: seq<Option<Config>>, digest: Digest,
                           all: seq<Config>, next: map<string, Runtime>)
  {
    && |all| == |kept| + |list| && all[..|kept|] == kept && Names(all) == Names(kept) + ListNames(list)
    && (forall i | 0 <= i < |list| :: list[i].Some? && IsPrepared(list[i].value, digest, all[|kept| + i]))
    && (forall n | n in running :: n in next && next[n] == running[n])
  }

  lemma StageExtends(kept: seq<Config>, running: map<string, Runtime>, list: seq<Option<Config>>, n: nat, digest: Digest,
                     all: seq<Config>, next: map<string, Runtime>, p: Config, r: Runtime)
    requires n < |list| && IsStaged(kept, running, list[..n], digest, all, next)
    requires list[n].Some? && IsPrepared(list[n].value, digest, p) && p.name !in running
    ensures IsStaged(kept, running, list[..n + 1], digest, all + [p], next[p.name := r])
  {
    NamesExtend(all, p);
    NamesOfPrefix(list, n);
    var more := all + [p];
    assert more[..|kept|] == all[..|kept|];
    forall i | 0 <= i < n + 1 ensures list[i].Some? && IsPrepared(list[i].value, digest, more[|kept| + i]) {
      if i < n {
        assert list[..n][i] == list[i] && more[|kept| + i] == all[|kept| + i];
      }
    }
  }

  lemma ConfiguredIsAssembled(configs: seq<Config>, runtimes: map<string, Runtime>, i: nat)
    requires Consistent(configs, runtimes) && i < |configs|
    ensures Assembled(configs[i].endpoints)
  {
    assert FitsAt(configs, runtimes, i);
  }

  lemma RunningServes(configs: seq<Config>, runtimes: map<string, Runtime>, i: nat)
    requires Consistent(configs, runtimes) && i < |configs|
    ensures configs[i].name in runtimes && Serves(runtimes[configs[i].name], configs[i])
  {
    assert FitsAt(configs, runtimes, i);
  }

  lemma FlaggedAtSame(all: seq<Endpoint>, address: string, healthy: bool, es: seq<Endpoint>)
    requires SameEndpoints(all, es)
    ensures SameEndpoints(FlaggedAt(all, address, healthy), es)
  {
  }

  method ApplyHealth(r: Runtime, ghost c: Config, address: string, healthy: bool) returns (ok: bool, r': Runtime)
    requires Serves(r, c)
    ensures ok <==> address in Addresses(r.snapshot.all)
    ensures ok ==> Serves(r', c) && r'.snapshot.all == FlaggedAt(r.snapshot.all, address, healthy)
  {
    var next := WithAddressHealth(r.snapshot, address, healthy);
    if next.None? {
      return false, r;
    }
    assert SameEndpoints(next.value.all, c.endpoints) by { FlaggedAtSame(r.snapshot.all, address, healthy, c.endpoints); }
    ok, r' := true, r.(snapshot := next.value);
  }

  lemma RunningIsConsistent(configs: seq<Config>, runtimes: map<string, Runtime>, i: nat, r: Runtime)
    requires Consistent(configs, runtimes) && i < |configs| && Serves(r, configs[i])
    ensures Consistent(configs, runtimes[configs[i].name := r])
  {
    ConfiguredIsAssembled(configs, runtimes, i);
    UpdateIsConsistent(configs, runtimes, i, configs[i], r);
    assert configs[i := configs[i]] == configs;
  }

  function ListNames(list: seq<Option<Config>>): set<string> {
    set i | 0 <= i < |list| && list[i].Some? :: list[i].value.name
  }

  predicate IsXdsItem(list: seq<Option<Config>>, i: nat, others: set<string>)
    requires i < |list|
  {
    list[i].Some? && list[i].value.name != "" && list[i].value.name !in ListNames(list[..i]) && list[i].value.name !in others
  }

  predicate IsXdsList(list: seq<Option<Config>>, others: set<string>) {
    forall i: nat | i < |list| :: IsXdsItem(list, i, others)
  }

  lemma ListPrefix(list: seq<Option<Config>>, n: nat, others: set<string>)
    requires n < |list| && !IsXdsItem(list, n, others)
    ensures !IsXdsList(list, others)
  {}

  lemma NamesOfPrefix(list: seq<Option<Config>>, n: nat)
    requires n < |list| && list[n].Some?
    ensures ListNames(list[..n + 1]) == ListNames(list[..n]) + {list[n].value.name}
  {
    var more := list[..n + 1];
    assert more[n] == list[n];
    forall x | x in ListNames(list[..n]) ensures x in ListNames(more) {
      var i :| 0 <= i < n && list[..n][i].Some? && list[..n][i].value.name == x;
      assert more[i] == list[..n][i];
    }
  }

  lemma ListExtends(list: seq<Option<Config>>, n: nat, others: set<string>)
    requires n < |list| && IsXdsList(list[..n], others) && IsXdsItem(list, n, others)
    ensures IsXdsList(list[..n + 1], others) && ListNames(list[..n + 1]) == ListNames(list[..n]) + {list[n].value.name}
  {
    var more := list[..n + 1];
    forall i: nat | i < n + 1 ensures IsXdsItem(more, i, others) {
      assert more[..i] == list[..i] && more[i] == list[i];
      if i < n {
        assert IsXdsItem(list[..n], i, others) && list[..n][..i] == list[..i];
      }
    }
    NamesOfPrefix(list, n);
  }

  const ROUND_ROBIN := "RoundRobin"

  // The configuration of p's cluster is p, and the others are as they were.
  ghost predicate IsReplaced(before: seq<Config>, p: Config, after: seq<Config>) {
    exists i: nat | i < |before| :: before[i].name == p.name && after == before[i := p]
  }

  /**
   A consumer of the manager's notifications that keeps the highest version per
   key ends with the addresses of the store, whatever the order of delivery.
   */
  lemma ConsumersConverge(m: Manager, deliveries: seq<Change>, k: Key)
    requires m.Told() && forall c :: c in deliveries <==> c in m.sent
    ensures Holds(m.initial, Lookup(Consume(deliveries), k), k)
      <==> exists i | 0 <= i < |m.configs| :: m.configs[i].name == k.0 && k.1 in Addresses(m.configs[i].endpoints)
  {
    DeliveriesConverge(m.initial, m.sent, m.version, KeysOfAll(m.configs), deliveries, k);
    KeyIsOfSome(m.configs, k);
    forall i | 0 <= i < |m.configs|
      ensures k in KeysOf(m.configs[i]) <==> m.configs[i].name == k.0 && k.1 in Addresses(m.configs[i].endpoints)
    {
      assert k == (k.0, k.1);
    }
  }

  // p is c with IDs and names for its endpoints and an identity.
  ghost predicate IsPrepared(c: Config, digest: Digest, p: Config) {
    && p == c.(id := p.id, endpoints := p.endpoints) && (c.id != 0 ==> p.id == c.id)
    && IsAssembly(c.name, AsSlots(c.endpoints), digest, AsSlots(p.endpoints)) && Assembled(p.endpoints)
  }

  lemma AddedKeys(configs: seq<Config>, p: Config)
    requires p.name !in Names(configs)
    ensures Splices({}, KeysOf(p), KeysOfAll(configs), KeysOfAll(configs + [p]))
  {
    KeysAppend(configs, p);
    KeysOfNew(configs, p);
  }

  lemma UpdatedKeys(configs: seq<Config>, i: nat, p: Config)
    requires DistinctNames(configs) && i < |configs| && p.name == configs[i].name
    ensures Splices(KeysOf(configs[i]), KeysOf(p), KeysOfAll(configs), KeysOfAll(configs[i := p]))
  {
    KeysUpdate(configs, i, p);
    OthersKeepOut(configs, i, p);
  }

  lemma OthersKeepOut(configs: seq<Config>, i: nat, c: Config)
    requires DistinctNames(configs) && i < |configs| && c.name == configs[i].name
    ensures (KeysOfAll(configs) - KeysOf(configs[i])) !! KeysOf(c)
  {
    forall k | k in KeysOfAll(configs) - KeysOf(configs[i]) ensures k !in KeysOf(c) {
      KeyIsOfSome(configs, k);
      var j: nat :| j < |configs| && k in KeysOf(configs[j]);
      NamesDiffer(configs, j, i);
    }
  }
}
