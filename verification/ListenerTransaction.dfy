/**
 The xDS listener transaction of the listener manager: prepare every chain and
 service, hand sockets over, then publish the whole change or undo it. Calls
 that may fail (building a chain, creating, starting or stopping a service)
 are answered by an Environment.
 */
module ListenerTransaction {
  import opened Options

  datatype Protocol = Http | Http2 | OtherProtocol(id: nat)

  // `key` is the management key, made of address, port and protocol name.
  datatype Config = Config(key: string, address: string, port: nat, protocol: Protocol)

  // An HTTP listener and an HTTP2 listener that cannot bind their socket at once.
  predicate IsProtocolHandoff(before: Config, next: Config) {
    && before.protocol != next.protocol
    && (before.protocol.Http? || before.protocol.Http2?) && (next.protocol.Http? || next.protocol.Http2?)
    && before.port > 0 && before.address == next.address && before.port == next.port
  }

  // Services and chains are numbered in the order they are built.
  datatype Service = Service(id: nat, config: Config, active: bool, chain: nat)

  datatype Environment = Environment(
    prepares: (nat, Config) -> bool, creates: Config -> bool, canStop: nat -> bool, starts: nat -> bool, stops: nat -> bool)

  type Services = map<string, Service>

  function KeysOf(list: seq<Config>): set<string> {
    set i | 0 <= i < |list| :: list[i].key
  }

  predicate DistinctKeys(list: seq<Config>) {
    forall i, j | 0 <= i < j < |list| :: list[i].key != list[j].key
  }

  // One listener of the list can be kept or created.
  predicate Obtainable(config: Config, active: Services, managed: set<string>, env: Environment) {
    if config.key in active then config.key in managed && env.prepares(active[config.key].id, config) else env.creates(config)
  }

  // The list is well-formed, free of conflicts, and everything in it can be built.
  predicate Acceptable(configs: seq<Option<Config>>, active: Services, managed: set<string>, env: Environment) {
    && (forall i | 0 <= i < |configs| :: configs[i].Some? && Obtainable(configs[i].value, active, managed, env))
    && (forall i, j | 0 <= i < j < |configs| && configs[i].Some? && configs[j].Some? :: configs[i].value.key != configs[j].value.key)
  }

  // The first configurations of the list, all of them obtained.
  predicate Obtained(list: seq<Config>, configs: seq<Option<Config>>, active: Services, managed: set<string>) {
    && |list| <= |configs| && DistinctKeys(list)
    && (forall i | 0 <= i < |list| :: configs[i] == Some(list[i]) && (list[i].key in active ==> list[i].key in managed))
  }

  // The service of a configuration whose chain has the number n.
  function Published(active: Services, config: Config, n: nat): Service {
    if config.key in active then active[config.key].(config := config, chain := n) else Service(n, config, true, n)
  }

  // Each of the n chains built from `base` on is closed once, and nothing else.
  ghost predicate ClosesChains(before: multiset<nat>, after: multiset<nat>, base: nat, n: nat) {
    forall c :: after[c] == before[c] + if base <= c < base + n then 1 else 0
  }

  // Of the first n listeners of the list, those kept (or those created) are
  // closed once each, and nothing else.
  ghost predicate ClosesListed(before: multiset<nat>, after: multiset<nat>, base: nat, n: nat,
                               list: seq<Config>, active: Services, kept: bool)
    requires n <= |list|
  {
    forall c :: after[c] == before[c] + if base <= c < base + n && (list[c - base].key in active <==> kept) then 1 else 0
  }

  function ChainsOf(active: Services, keys: set<string>): set<nat> {
    set k | k in keys && k in active :: active[k].chain
  }

  function IdsOf(active: Services, keys: set<string>): set<nat> {
    set k | k in keys && k in active :: active[k].id
  }

  predicate OwnNumbers(active: Services) {
    forall k, l | k in active && l in active && k != l :: active[k].chain != active[l].chain && active[k].id != active[l].id
  }

  // The two maps differ only in the active flag of dropped xDS listeners.
  ghost predicate Reflagged(before: Services, managed: set<string>, list: seq<Config>, after: Services) {
    && after.Keys == before.Keys
    && (forall k | k in before :: after[k] == before[k].(active := after[k].active))
    && (forall k | k in before && after[k] != before[k] :: k in managed && k !in KeysOf(list))
  }

  // A rejected transaction leaves the active map as it was, except that a
  // dropped listener stopped for a hand-off is active again only if it restarts.
  ghost predicate Undone(before: Services, managed: set<string>, list: seq<Config>, env: Environment, after: Services) {
    && Reflagged(before, managed, list, after)
    && (forall k | k in before && after[k] != before[k] :: after[k].active == env.starts(before[k].id))
  }

  // A committed transaction drops the unwanted xDS listeners, installs the list, and touches nothing else.
  ghost predicate Done(before: Services, managed: set<string>, list: seq<Config>, base: nat, after: Services) {
    && (forall k :: k in after <==> (k in before && k !in managed) || k in KeysOf(list))
    && (forall i | 0 <= i < |list| :: list[i].key in after && after[list[i].key] == Published(before, list[i], base + i))
    && (forall k | k in after && k !in KeysOf(list) :: after[k] == before[k])
  }

  function Stopped(active: Services, keys: set<string>): Services {
    map k | k in active :: if k in keys then active[k].(active := false) else active[k]
  }

  lemma StoppedExtends(active: Services, keys: set<string>, k: string)
    requires k in active
    ensures Stopped(active, keys + {k}) == Stopped(active, keys)[k := Stopped(active, keys)[k].(active := false)]
  {}

  // Field by field: every listed configuration has a service with that configuration and the chain
  // built for it. A service that was there keeps its ID and state; a new one is active under a new ID.
  ghost predicate Installed(before: Services, list: seq<Config>, base: nat, after: Services) {
    forall i | 0 <= i < |list| ::
      && list[i].key in after
      && var service := after[list[i].key];
      && service.config == list[i] && service.chain == base + i
      && (list[i].key in before ==> service.id == before[list[i].key].id && service.active == before[list[i].key].active)
      && (list[i].key !in before ==> service.id == base + i && service.active)
  }

  lemma DoneInstalls(before: Services, managed: set<string>, list: seq<Config>, base: nat, after: Services)
    requires Done(before, managed, list, base, after)
    ensures Installed(before, list, base, after)
  {
    forall i | 0 <= i < |list| ensures after[list[i].key] == Published(before, list[i], base + i) {}
  }

  // Active services and their chains are their own, open, and numbered below `next`.
  ghost predicate InUse(active: Services, closedServices: multiset<nat>, closedChains: multiset<nat>, next: nat) {
    && OwnNumbers(active)
    && (forall k | k in active :: active[k].config.key == k)
    && (forall k | k in active :: active[k].id < next && active[k].id !in closedServices)
    && (forall k | k in active :: active[k].chain < next && active[k].chain !in closedChains)
    && (forall c | c in closedServices :: c < next)
    && (forall c | c in closedChains :: c < next)
  }

  class ListenerManager {
    var active: Services
    var managed: set<string>
    // The services closed and the chains given up to be closed so far.
    var closedServices: multiset<nat>
    var closedChains: multiset<nat>
    var next: nat

    ghost predicate Valid()
      reads this
    {
      InUse(active, closedServices, closedChains, next)
    }

    constructor ()
      ensures Valid() && active == map[] && managed == {}
    {
      active, managed, closedServices, closedChains, next := map[], {}, multiset{}, multiset{}, 0;
    }

    // Prepares each chain and creates each new service, until one cannot be had.
    method Prepare(configs: seq<Option<Config>>, env: Environment) returns (ok: bool, list: seq<Config>)
      modifies `next
      ensures next == old(next) + |list|
      ensures Obtained(list, configs, active, managed)
      ensures ok <==> Acceptable(configs, active, managed, env)
      ensures ok ==> |list| == |configs|
    {
      list := [];
      var keys := {};
      for i := 0 to |configs|
        invariant |list| == i && next == old(next) + i && keys == KeysOf(list)
        invariant Obtained(list, configs, active, managed)
        invariant forall j | 0 <= j < i :: Obtainable(list[j], active, managed, env)
      {
        if configs[i].None? {
          return false, list;
        }
        var config := configs[i].value;
        if config.key in keys {
          assert exists j | 0 <= j < i :: list[j].key == config.key && configs[j] == Some(list[j]);
          return false, list;
        }
        if !Obtainable(config, active, managed, env) {
          return false, list;
        }
        KeysOfExtends(list, config);
        list, keys := list + [config], keys + {config.key};
        next := next + 1;
      }
      ok := true;
    }

    // The dropped listeners whose socket a new listener takes over, each with that listener.
    method FindHandoffs(list: seq<Config>, base: nat, env: Environment) returns (ok: bool, handoffs: map<string, nat>)
      ensures AreHandoffs(list, active, managed, handoffs, |list|)
      ensures ok ==> forall i: nat | i < |list| :: Covers(list, active, managed, env, base, handoffs, managed, i)
      ensures !ok ==> !HandoffsAreClear(list, active, managed, env, base)
    {
      handoffs := map[];
      for i := 0 to |list|
        invariant AreHandoffs(list, active, managed, handoffs, i)
        invariant forall j: nat | j < i :: Covers(list, active, managed, env, base, handoffs, managed, j)
      {
        if list[i].key !in active {
          ghost var found := handoffs;
          ok, handoffs := FindHandoffsTo(list, base, i, handoffs, env);
          if !ok {
            return;
          }
          forall j: nat | j < i ensures Covers(list, active, managed, env, base, handoffs, managed, j) {
            assert Covers(list, active, managed, env, base, found, managed, j);
          }
        }
      }
      ok := true;
    }

    method FindHandoffsTo(list: seq<Config>, base: nat, i: nat, found: map<string, nat>, env: Environment)
      returns (ok: bool, handoffs: map<string, nat>)
      requires i < |list| && AreHandoffs(list, active, managed, found, i)
      ensures AreHandoffs(list, active, managed, handoffs, i + 1)
      ensures found.Keys <= handoffs.Keys && forall k | k in found :: handoffs[k] == found[k]
      ensures ok ==> Covers(list, active, managed, env, base, handoffs, managed, i)
      ensures !ok ==> !HandoffsAreClear(list, active, managed, env, base)
    {
      handoffs := found;
      var rest := managed;
      while rest != {}
        invariant rest <= managed
        invariant AreHandoffs(list, active, managed, handoffs, i + 1)
        invariant found.Keys <= handoffs.Keys && forall k | k in found :: handoffs[k] == found[k]
        invariant forall k | k in rest && k in handoffs :: k in found
        invariant Covers(list, active, managed, env, base, handoffs, managed - rest, i)
      {
        var k :| k in rest;
        rest := rest - {k};
        if IsHandoff(list, active, managed, k, i) {
          if !env.canStop(active[k].id) || !env.canStop(base + i) || k in handoffs {
            assert k in handoffs ==> handoffs[k] != i && IsHandoff(list, active, managed, k, handoffs[k]);
            return false, handoffs;
          }
          handoffs := handoffs[k := i];
        }
      }
      ok := true;
    }

    // Binds the new listeners that wait for no other socket.
    method StartStaged(list: seq<Config>, base: nat, handoffs: map<string, nat>, env: Environment) returns (ok: bool)
      ensures ok <==> forall i: nat | i < |list| && list[i].key !in active && i !in handoffs.Values :: env.starts(base + i)
    {
      for i := 0 to |list|
        invariant forall j | 0 <= j < i && list[j].key !in active && j !in handoffs.Values :: env.starts(base + j)
      {
        if list[i].key !in active && i !in handoffs.Values && !env.starts(base + i) {
          return false;
        }
      }
      ok := true;
    }

    // Stops each old listener and starts the one that takes its socket over;
    // when either fails, restarts the old ones.
    method HandOver(base: nat, handoffs: map<string, nat>, env: Environment) returns (ok: bool)
      requires handoffs.Keys <= active.Keys
      modifies `active
      ensures ok <==> forall k | k in handoffs :: env.stops(old(active)[k].id) && env.starts(base + handoffs[k])
      ensures active.Keys == old(active).Keys
      ensures ok ==> forall k | k in active ::
        active[k] == if k in handoffs then old(active)[k].(active := false) else old(active)[k]
      ensures !ok ==> forall k | k in active ::
        active[k] == old(active)[k] || (k in handoffs && active[k] == old(active)[k].(active := env.starts(active[k].id)))
    {
      var rest, closed := handoffs.Keys, {};
      while rest != {}
        invariant rest <= handoffs.Keys && closed == handoffs.Keys - rest
        invariant active == Stopped(old(active), closed)
        invariant forall k | k in closed :: env.stops(old(active)[k].id) && env.starts(base + handoffs[k])
      {
        var k :| k in rest;
        StoppedExtends(old(active), closed, k);
        rest, closed := rest - {k}, closed + {k};
        active := active[k := active[k].(active := false)];
        if !env.stops(active[k].id) || !env.starts(base + handoffs[k]) {
          RollBack(closed, env);
          return false;
        }
      }
      ok := true;
    }

    method RollBack(closed: set<string>, env: Environment)
      requires closed <= active.Keys && forall k | k in closed :: !active[k].active
      modifies `active
      ensures active.Keys == old(active).Keys
      ensures forall k | k in active ::
        active[k] == if k in closed then old(active)[k].(active := env.starts(old(active)[k].id)) else old(active)[k]
    {
      var rest := closed;
      while rest != {}
        invariant rest <= closed && active.Keys == old(active).Keys
        invariant forall k | k in active ::
          active[k] == if k in closed && k !in rest then old(active)[k].(active := env.starts(old(active)[k].id)) else old(active)[k]
      {
        var k :| k in rest;
        rest := rest - {k};
        if env.starts(active[k].id) {
          active := active[k := active[k].(active := true)];
        }
      }
    }

    method ClosePrepared(list: seq<Config>, base: nat)
      modifies `closedChains
      ensures ClosesListed(old(closedChains), closedChains, base, |list|, list, active, true)
    {
      for i := 0 to |list|
        invariant ClosesListed(old(closedChains), closedChains, base, i, list, active, true)
      {
        if list[i].key in active {
          closedChains := closedChains + multiset{base + i};
        }
      }
    }

    method CloseStaged(list: seq<Config>, base: nat)
      modifies `closedServices, `closedChains
      ensures ClosesListed(old(closedServices), closedServices, base, |list|, list, active, false)
      ensures ClosesListed(old(closedChains), closedChains, base, |list|, list, active, false)
    {
      for i := 0 to |list|
        invariant ClosesListed(old(closedServices), closedServices, base, i, list, active, false)
        invariant ClosesListed(old(closedChains), closedChains, base, i, list, active, false)
      {
        if list[i].key !in active {
          closedServices, closedChains := closedServices + multiset{base + i}, closedChains + multiset{base + i};
        }
      }
    }

    // Closes what a rejected transaction had prepared and created.
    method Discard(list: seq<Config>, base: nat)
      modifies `closedServices, `closedChains
      ensures ClosesChains(old(closedChains), closedChains, base, |list|)
      ensures ClosesListed(old(closedServices), closedServices, base, |list|, list, active, false)
    {
      ClosePrepared(list, base);
      CloseStaged(list, base);
    }

    // Takes the listeners that are no longer wanted out of the active map.
    method DropListeners(dropped: set<string>) returns (removed: Services)
      modifies `active
      ensures active == old(active) - dropped
      ensures removed == map k | k in old(active) && k in dropped :: old(active)[k].(active := false)
    {
      var rest := dropped;
      removed := map[];
      while rest != {}
        invariant rest <= dropped
        invariant active == old(active) - (dropped - rest)
        invariant removed == map k | k in old(active) && k in dropped && k !in rest :: old(active)[k].(active := false)
      {
        var k :| k in rest;
        if k in active {
          removed := removed[k := active[k].(active := false)];
        }
        active := active - {k};
        rest := rest - {k};
      }
    }

    // Installs every prepared chain and adds every new listener.
    method InstallListeners(list: seq<Config>, base: nat) returns (retired: multiset<nat>)
      requires DistinctKeys(list) && OwnNumbers(active)
      modifies `active
      ensures forall k :: k in active <==> k in old(active) || k in KeysOf(list)
      ensures forall i | 0 <= i < |list| :: list[i].key in active && active[list[i].key] == Published(old(active), list[i], base + i)
      ensures forall k | k in active && k !in KeysOf(list) :: active[k] == old(active)[k]
      ensures retired == multiset(ChainsOf(old(active), KeysOf(list)))
    {
      retired := multiset{};
      for i := 0 to |list|
        invariant forall k :: k in active <==> k in old(active) || k in KeysOf(list[..i])
        invariant forall j | 0 <= j < i :: list[j].key in active && active[list[j].key] == Published(old(active), list[j], base + j)
        invariant forall k | k in active && k !in KeysOf(list[..i]) :: active[k] == old(active)[k]
        invariant retired == multiset(ChainsOf(old(active), KeysOf(list[..i])))
      {
        var key := list[i].key;
        assert list[..i + 1] == list[..i] + [list[i]];
        KeysOfExtends(list[..i], list[i]);
        assert key !in KeysOf(list[..i]);
        ChainsOfExtends(old(active), KeysOf(list[..i]), key);
        if key in active {
          retired := retired + multiset{active[key].chain};
        }
        active := active[key := Published(active, list[i], base + i)];
      }
      assert list[..|list|] == list;
    }

    // After publication: gives up the replaced chains, then closes the dropped services.
    method CloseReplaced(retired: multiset<nat>, removed: Services)
      requires OwnNumbers(removed)
      modifies `closedServices, `closedChains
      ensures closedChains == old(closedChains) + (retired + multiset(ChainsOf(removed, removed.Keys)))
      ensures closedServices == old(closedServices) + multiset(IdsOf(removed, removed.Keys))
    {
      closedChains := closedChains + retired;
      var rest := removed.Keys;
      while rest != {}
        invariant rest <= removed.Keys
        invariant closedChains == old(closedChains) + retired + multiset(ChainsOf(removed, removed.Keys - rest))
        invariant closedServices == old(closedServices) + multiset(IdsOf(removed, removed.Keys - rest))
      {
        var k :| k in rest;
        ChainsOfExtends(removed, removed.Keys - rest, k);
        IdsOfExtends(removed, removed.Keys - rest, k);
        assert removed.Keys - (rest - {k}) == removed.Keys - rest + {k};
        closedServices, closedChains := closedServices + multiset{removed[k].id}, closedChains + multiset{removed[k].chain};
        rest := rest - {k};
      }
      assert removed.Keys - {} == removed.Keys;
    }

    method Publish(list: seq<Config>, base: nat) returns (retired: multiset<nat>, removed: Services)
      requires OwnNumbers(active) && DistinctKeys(list)
      requires forall i | 0 <= i < |list| && list[i].key in active :: list[i].key in managed
      modifies `active, `managed
      ensures managed == KeysOf(list)
      ensures Done(old(active), old(managed), list, base, active) && Installed(old(active), list, base, active)
      ensures retired + multiset(ChainsOf(removed, removed.Keys)) == multiset(ChainsOf(old(active), old(managed)))
      ensures OwnNumbers(removed) && IdsOf(removed, removed.Keys) == IdsOf(old(active), old(managed) - KeysOf(list))
    {
      ghost var before, owned := active, managed;
      removed := DropListeners(managed - KeysOf(list));
      ghost var kept := active;
      KeptNumbers(before, owned - KeysOf(list), kept);
      retired := InstallListeners(list, base);
      managed := KeysOf(list);
      InstallIsDone(before, owned, list, base, kept, active);
      DoneInstalls(before, owned, list, base, active);
      RemovedNumbers(before, owned - KeysOf(list), removed);
      ChainsSplit(before, owned, list, kept, removed);
    }

    method Commit(list: seq<Config>, base: nat)
      requires InUse(active, closedServices, closedChains, base) && next == base + |list| && DistinctKeys(list)
      requires forall i | 0 <= i < |list| && list[i].key in active :: list[i].key in managed
      modifies `active, `managed, `closedServices, `closedChains
      ensures Valid() && managed == KeysOf(list)
      ensures Done(old(active), old(managed), list, base, active)
      ensures closedChains == old(closedChains) + multiset(ChainsOf(old(active), old(managed)))
      ensures closedServices == old(closedServices) + multiset(IdsOf(old(active), old(managed) - KeysOf(list)))
    {
      var retired, removed := Publish(list, base);
      CloseReplaced(retired, removed);
      CommitIsInUse(old(active), old(managed), list, base, active, old(closedServices), old(closedChains), closedServices, closedChains);
    }

    method Reject(list: seq<Config>, base: nat)
      requires InUse(active, closedServices, closedChains, base) && next == base + |list|
      modifies `closedServices, `closedChains
      ensures Valid()
      ensures ClosesChains(old(closedChains), closedChains, base, |list|)
      ensures ClosesListed(old(closedServices), closedServices, base, |list|, list, active, false)
    {
      Discard(list, base);
      RejectionIsInUse(active, list, old(closedServices), closedServices, old(closedChains), closedChains, base);
    }

    // Everything before publication. On failure the old listeners are restarted.
    method Attempt(configs: seq<Option<Config>>, env: Environment) returns (ok: bool, list: seq<Config>)
      modifies `next, `active
      ensures Obtained(list, configs, old(active), managed) && next == old(next) + |list|
      ensures ok <==> Acceptable(configs, old(active), managed, env) && Publishable(list, old(active), managed, env, old(next))
      ensures ok ==> |list| == |configs|
      ensures Reflagged(old(active), managed, list, active)
      ensures !ok ==> Undone(old(active), managed, list, env, active)
    {
      var base := next;
      ok, list := Prepare(configs, env);
      if !ok {
        return;
      }
      var handoffs;
      ok, handoffs := FindHandoffs(list, base, env);
      if !ok {
        return;
      }
      HandoffsDecide(list, active, managed, env, base, handoffs);
      ok := StartStaged(list, base, handoffs, env);
      if !ok {
        return;
      }
      assert forall k | k in handoffs :: k in active && k in managed && k !in KeysOf(list);
      ok := HandOver(base, handoffs, env);
    }

    /**
     All or nothing. A rejected list leaves active listeners, ownership and
     current chains as they were and closes each prepared chain and each staged
     service exactly once. An accepted list replaces the xDS listeners, and each
     chain they had and each service dropped is closed exactly once.
     */
    method ReplaceXdsListeners(configs: seq<Option<Config>>, env: Environment) returns (ok: bool, list: seq<Config>)
      requires Valid()
      modifies this
      ensures Valid()
      ensures Obtained(list, configs, old(active), old(managed)) && next == old(next) + |list|
      ensures ok <==> Acceptable(configs, old(active), old(managed), env) && Publishable(list, old(active), old(managed), env, old(next))
      ensures ok ==> |list| == |configs|
      ensures !ok ==> managed == old(managed) && Undone(old(active), managed, list, env, active)
      ensures !ok ==> ClosesChains(old(closedChains), closedChains, old(next), |list|)
      ensures !ok ==> ClosesListed(old(closedServices), closedServices, old(next), |list|, list, active, false)
      ensures ok ==> managed == KeysOf(list) && Done(old(active), old(managed), list, old(next), active)
      ensures ok ==> Installed(old(active), list, old(next), active)
      ensures ok ==> EachIsBuilt(list, old(active), old(managed), env, old(next))
      ensures ok ==> closedChains == old(closedChains) + multiset(ChainsOf(old(active), old(managed)))
      ensures ok ==> closedServices == old(closedServices) + multiset(IdsOf(old(active), old(managed) - KeysOf(list)))
    {
      var base := next;
      ok, list := Attempt(configs, env);
      ReflaggedIsInUse(old(active), managed, list, active, closedServices, closedChains, base);
      if !ok {
        Reject(list, base);
      } else {
        ghost var stopped := active;
        Commit(list, base);
        ReflaggedIsDone(old(active), old(managed), list, base, stopped, active);
        DoneInstalls(old(active), old(managed), list, base, active);
        AcceptedIsBuilt(configs, list, old(active), old(managed), env, base);
      }
    }
  }

  lemma ReflaggedIsInUse(before: Services, managed: set<string>, list: seq<Config>, after: Services,
                         closedServices: multiset<nat>, closedChains: multiset<nat>, next: nat)
    requires InUse(before, closedServices, closedChains, next) && Reflagged(before, managed, list, after)
    ensures InUse(after, closedServices, closedChains, next)
  {
    forall k | k in after ensures after[k].id == before[k].id && after[k].chain == before[k].chain && after[k].config == before[k].config {
      assert after[k] == before[k].(active := after[k].active);
    }
  }

  lemma RejectionIsInUse(active: Services, list: seq<Config>, services: multiset<nat>, services': multiset<nat>,
                         chains: multiset<nat>, chains': multiset<nat>, base: nat)
    requires InUse(active, services, chains, base)
    requires ClosesChains(chains, chains', base, |list|) && ClosesListed(services, services', base, |list|, list, active, false)
    ensures InUse(active, services', chains', base + |list|)
  {
    forall k | k in active ensures active[k].id !in services' && active[k].chain !in chains' {
      assert services'[active[k].id] == services[active[k].id];
      assert chains'[active[k].chain] == chains[active[k].chain];
    }
  }

  lemma ReflaggedIsDone(before: Services, managed: set<string>, list: seq<Config>, base: nat, stopped: Services, after: Services)
    requires Reflagged(before, managed, list, stopped) && Done(stopped, managed, list, base, after)
    ensures Done(before, managed, list, base, after)
    ensures ChainsOf(stopped, managed) == ChainsOf(before, managed)
    ensures IdsOf(stopped, managed - KeysOf(list)) == IdsOf(before, managed - KeysOf(list))
  {
    forall i | 0 <= i < |list| ensures Published(stopped, list[i], base + i) == Published(before, list[i], base + i) {
      assert list[i].key in KeysOf(list);
    }
    forall k | k in before ensures stopped[k].chain == before[k].chain && stopped[k].id == before[k].id {
      assert stopped[k] == before[k].(active := stopped[k].active);
    }
    assert ChainsOf(stopped, managed) == ChainsOf(before, managed);
    assert IdsOf(stopped, managed - KeysOf(list)) == IdsOf(before, managed - KeysOf(list));
  }

  // Where the service behind a key comes from after a commit.
  lemma ServiceAfter(before: Services, managed: set<string>, list: seq<Config>, base: nat, after: Services, k: string) returns (i: nat)
    requires Done(before, managed, list, base, after) && k in after
    ensures if i < |list| then list[i].key == k && after[k] == Published(before, list[i], base + i)
            else k in before && k !in managed && k !in KeysOf(list) && after[k] == before[k]
  {
    if k in KeysOf(list) {
      i :| 0 <= i < |list| && list[i].key == k;
    } else {
      i := |list|;
    }
  }

  lemma CommitHasOwnNumbers(before: Services, managed: set<string>, list: seq<Config>, base: nat, after: Services)
    requires OwnNumbers(before) && Done(before, managed, list, base, after)
    requires forall k | k in before :: before[k].id < base && before[k].chain < base
    ensures OwnNumbers(after)
  {
    forall k, l | k in after && l in after && k != l ensures after[k].chain != after[l].chain && after[k].id != after[l].id {
      var i := ServiceAfter(before, managed, list, base, after, k);
      var j := ServiceAfter(before, managed, list, base, after, l);
    }
  }

  lemma CommitServices(before: Services, managed: set<string>, list: seq<Config>, base: nat, after: Services, services: multiset<nat>)
    requires OwnNumbers(before) && Done(before, managed, list, base, after)
    requires forall k | k in before :: before[k].id < base && before[k].id !in services
    requires forall c | c in services :: c < base
    ensures var closed := services + multiset(IdsOf(before, managed - KeysOf(list)));
      && (forall k | k in after :: after[k].id < base + |list| && after[k].id !in closed)
      && (forall c | c in closed :: c < base + |list|)
  {
    forall k | k in after
      ensures after[k].id < base + |list| && after[k].id !in services && after[k].id !in IdsOf(before, managed - KeysOf(list))
    {
      var i := ServiceAfter(before, managed, list, base, after, k);
      assert i < |list| ==> k in KeysOf(list);
    }
  }

  lemma CommitChains(before: Services, managed: set<string>, list: seq<Config>, base: nat, after: Services, chains: multiset<nat>)
    requires OwnNumbers(before) && Done(before, managed, list, base, after)
    requires forall k | k in before :: before[k].chain < base && before[k].chain !in chains
    requires forall c | c in chains :: c < base
    ensures var closed := chains + multiset(ChainsOf(before, managed));
      && (forall k | k in after :: after[k].chain < base + |list| && after[k].chain !in closed)
      && (forall c | c in closed :: c < base + |list|)
  {
    forall k | k in after
      ensures after[k].chain < base + |list| && after[k].chain !in chains && after[k].chain !in ChainsOf(before, managed)
    {
      var i := ServiceAfter(before, managed, list, base, after, k);
    }
  }

  lemma CommitIsInUse(before: Services, managed: set<string>, list: seq<Config>, base: nat, after: Services,
                      services: multiset<nat>, chains: multiset<nat>, services': multiset<nat>, chains': multiset<nat>)
    requires InUse(before, services, chains, base) && Done(before, managed, list, base, after)
    requires services' == services + multiset(IdsOf(before, managed - KeysOf(list)))
    requires chains' == chains + multiset(ChainsOf(before, managed))
    ensures InUse(after, services', chains', base + |list|)
  {
    CommitHasOwnNumbers(before, managed, list, base, after);
    CommitServices(before, managed, list, base, after, services);
    CommitChains(before, managed, list, base, after, chains);
    forall k | k in after ensures after[k].config.key == k {
      var i := ServiceAfter(before, managed, list, base, after, k);
    }
  }

  lemma InstallIsDone(before: Services, managed: set<string>, list: seq<Config>, base: nat, kept: Services, after: Services)
    requires kept == before - (managed - KeysOf(list))
    requires forall i | 0 <= i < |list| && list[i].key in before :: list[i].key in managed
    requires forall k :: k in after <==> k in kept || k in KeysOf(list)
    requires forall i | 0 <= i < |list| :: list[i].key in after && after[list[i].key] == Published(kept, list[i], base + i)
    requires forall k | k in after && k !in KeysOf(list) :: after[k] == kept[k]
    ensures Done(before, managed, list, base, after)
  {
    forall i | 0 <= i < |list| ensures Published(kept, list[i], base + i) == Published(before, list[i], base + i) {
      assert list[i].key in KeysOf(list);
    }
  }

  lemma ChainsSplit(before: Services, managed: set<string>, list: seq<Config>, kept: Services, removed: Services)
    requires OwnNumbers(before) && kept == before - (managed - KeysOf(list))
    requires removed == map k | k in before && k in managed - KeysOf(list) :: before[k].(active := false)
    requires forall i | 0 <= i < |list| && list[i].key in before :: list[i].key in managed
    ensures multiset(ChainsOf(kept, KeysOf(list))) + multiset(ChainsOf(removed, removed.Keys)) == multiset(ChainsOf(before, managed))
  {
    var a, b := ChainsOf(kept, KeysOf(list)), ChainsOf(removed, removed.Keys);
    forall c | c in a ensures c !in b && c in ChainsOf(before, managed) {
      var k :| k in KeysOf(list) && k in kept && kept[k].chain == c;
      assert k in before && before[k].chain == c;
    }
    forall c | c in b ensures c in ChainsOf(before, managed) {
      var k :| k in removed && removed[k].chain == c;
      assert k in before && before[k].chain == c;
    }
    forall c | c in ChainsOf(before, managed) ensures c in a || c in b {
      var k :| k in managed && k in before && before[k].chain == c;
      if k in KeysOf(list) {
        assert k in kept && kept[k].chain == c;
      } else {
        assert k in removed && removed[k].chain == c;
      }
    }
    assert ChainsOf(before, managed) == a + b && a !! b;
  }

  lemma KeptNumbers(before: Services, dropped: set<string>, kept: Services)
    requires OwnNumbers(before) && kept == before - dropped
    ensures OwnNumbers(kept)
  {}

  lemma RemovedNumbers(before: Services, dropped: set<string>, removed: Services)
    requires OwnNumbers(before)
    requires removed == map k | k in before && k in dropped :: before[k].(active := false)
    ensures OwnNumbers(removed)
    ensures IdsOf(removed, removed.Keys) == IdsOf(before, dropped)
  {
    forall c | c in IdsOf(before, dropped) ensures c in IdsOf(removed, removed.Keys) {
      var k :| k in dropped && k in before && before[k].id == c;
      assert k in removed && removed[k].id == c;
    }
    forall c | c in IdsOf(removed, removed.Keys) ensures c in IdsOf(before, dropped) {
      var k :| k in removed && removed[k].id == c;
      assert k in dropped && k in before && before[k].id == c;
    }
  }

  lemma IdsOfExtends(active: Services, keys: set<string>, k: string)
    requires OwnNumbers(active) && k !in keys && k in active
    ensures multiset(IdsOf(active, keys + {k})) == multiset(IdsOf(active, keys)) + multiset{active[k].id}
  {
    assert active[k].id !in IdsOf(active, keys);
    assert IdsOf(active, keys + {k}) == IdsOf(active, keys) + {active[k].id};
  }

  lemma ChainsOfExtends(active: Services, keys: set<string>, k: string)
    requires OwnNumbers(active) && k !in keys
    ensures multiset(ChainsOf(active, keys + {k}))
      == if k in active then multiset(ChainsOf(active, keys)) + multiset{active[k].chain} else multiset(ChainsOf(active, keys))
  {
    if k in active {
      assert active[k].chain !in ChainsOf(active, keys);
      assert ChainsOf(active, keys + {k}) == ChainsOf(active, keys) + {active[k].chain};
    } else {
      assert ChainsOf(active, keys + {k}) == ChainsOf(active, keys);
    }
  }

  lemma KeysOfExtends(list: seq<Config>, config: Config)
    ensures KeysOf(list + [config]) == KeysOf(list) + {config.key}
  {
    var more := list + [config];
    assert more[|list|].key == config.key;
    forall k | k in KeysOf(list) ensures k in KeysOf(more) {
      var i :| 0 <= i < |list| && list[i].key == k;
      assert more[i].key == k;
    }
  }

  // No socket has two takers, and both sides of every hand-off support it.
  ghost predicate HandoffsAreClear(list: seq<Config>, active: Services, managed: set<string>, env: Environment, base: nat) {
    && (forall k, i: nat | IsHandoff(list, active, managed, k, i) :: env.canStop(active[k].id) && env.canStop(base + i))
    && (forall k, i: nat, j: nat | IsHandoff(list, active, managed, k, i) && IsHandoff(list, active, managed, k, j) :: i == j)
  }

  // Nothing fails after preparation: every new listener starts and every handed-off one stops.
  ghost predicate Publishable(list: seq<Config>, active: Services, managed: set<string>, env: Environment, base: nat) {
    && HandoffsAreClear(list, active, managed, env, base)
    && (forall i: nat | i < |list| && list[i].key !in active :: env.starts(base + i))
    && (forall k, i: nat | IsHandoff(list, active, managed, k, i) :: env.stops(active[k].id))
  }

  lemma CoveredIsClear(list: seq<Config>, active: Services, managed: set<string>, env: Environment, base: nat, handoffs: map<string, nat>)
    requires forall i: nat | i < |list| :: Covers(list, active, managed, env, base, handoffs, managed, i)
    ensures HandoffsAreClear(list, active, managed, env, base)
    ensures forall k, i: nat | IsHandoff(list, active, managed, k, i) :: k in handoffs && handoffs[k] == i
  {
    forall k, i: nat | IsHandoff(list, active, managed, k, i)
      ensures k in handoffs && handoffs[k] == i && env.canStop(active[k].id) && env.canStop(base + i)
    {
      assert Covers(list, active, managed, env, base, handoffs, managed, i);
    }
  }

  lemma HandoffsDecide(list: seq<Config>, active: Services, managed: set<string>, env: Environment, base: nat, handoffs: map<string, nat>)
    requires AreHandoffs(list, active, managed, handoffs, |list|)
    requires forall i: nat | i < |list| :: Covers(list, active, managed, env, base, handoffs, managed, i)
    ensures Publishable(list, active, managed, env, base) <==>
      && (forall i: nat | i < |list| && list[i].key !in active && i !in handoffs.Values :: env.starts(base + i))
      && (forall k | k in handoffs :: env.stops(active[k].id) && env.starts(base + handoffs[k]))
  {
    CoveredIsClear(list, active, managed, env, base, handoffs);
  }

  // Every hand-off found is one, to one of the first n listeners.
  ghost predicate AreHandoffs(list: seq<Config>, active: Services, managed: set<string>, handoffs: map<string, nat>, n: nat) {
    forall k | k in handoffs :: handoffs[k] < n && IsHandoff(list, active, managed, k, handoffs[k])
  }

  // Every hand-off from these keys to listener i was found, and both sides support it.
  ghost predicate Covers(list: seq<Config>, active: Services, managed: set<string>, env: Environment, base: nat,
                         handoffs: map<string, nat>, keys: set<string>, i: nat)
  {
    forall k | k in keys && IsHandoff(list, active, managed, k, i) ::
      k in handoffs && handoffs[k] == i && env.canStop(active[k].id) && env.canStop(base + i)
  }

  // Listener k is dropped and the new listener at position i takes its socket over.
  predicate IsHandoff(list: seq<Config>, active: Services, managed: set<string>, k: string, i: nat) {
    && k in managed && k in active && i < |list| && list[i].key !in active
    && (forall j | 0 <= j < |list| :: list[j].key != k)
    && IsProtocolHandoff(active[k].config, list[i])
  }

  // Every listed listener that was there is xDS-owned and its chain was prepared; every other was created and started.
  ghost predicate EachIsBuilt(list: seq<Config>, active: Services, managed: set<string>, env: Environment, base: nat) {
    forall i | 0 <= i < |list| ::
      if list[i].key in active then list[i].key in managed && env.prepares(active[list[i].key].id, list[i])
      else env.creates(list[i]) && env.starts(base + i)
  }

  lemma AcceptedIsBuilt(configs: seq<Option<Config>>, list: seq<Config>, active: Services, managed: set<string>, env: Environment, base: nat)
    requires Obtained(list, configs, active, managed) && |list| == |configs|
    requires Acceptable(configs, active, managed, env) && Publishable(list, active, managed, env, base)
    ensures EachIsBuilt(list, active, managed, env, base)
  {
    forall i | 0 <= i < |list|
      ensures if list[i].key in active then list[i].key in managed && env.prepares(active[list[i].key].id, list[i])
              else env.creates(list[i]) && env.starts(base + i)
    {
      assert configs[i] == Some(list[i]) && Obtainable(configs[i].value, active, managed, env);
    }
  }

  // A dropped xDS listener and a new listener of the list.
  ghost predicate Succession(list: seq<Config>, active: Services, managed: set<string>, k: string, i: nat) {
    k in managed && k in active && k !in KeysOf(list) && i < |list| && list[i].key !in active
  }

  /** Between HTTP and HTTP2 on one socket: the dropped listener must stop, and both must support it, for the list to go through. */
  lemma SharedSocketIsHandedOver(list: seq<Config>, active: Services, managed: set<string>, env: Environment, base: nat, k: string, i: nat)
    requires Succession(list, active, managed, k, i) && Publishable(list, active, managed, env, base)
    requires active[k].config.address == list[i].address && active[k].config.port == list[i].port > 0
    requires (active[k].config.protocol == Http && list[i].protocol == Http2) || (active[k].config.protocol == Http2 && list[i].protocol == Http)
    ensures env.canStop(active[k].id) && env.canStop(base + i) && env.stops(active[k].id) && env.starts(base + i)
  {
    assert forall j | 0 <= j < |list| :: list[j].key in KeysOf(list);
    assert IsHandoff(list, active, managed, k, i);
  }

  /**
   When no new listener goes to the socket of a dropped one, has no fixed port,
   or both do not differ between HTTP and HTTP2, the list goes through exactly
   when every new listener starts.
   */
  lemma FreeSocketsOnlyStart(list: seq<Config>, active: Services, managed: set<string>, env: Environment, base: nat)
    requires forall k, i: nat | Succession(list, active, managed, k, i) ::
      || active[k].config.address != list[i].address || active[k].config.port != list[i].port || list[i].port == 0
      || active[k].config.protocol == list[i].protocol || active[k].config.protocol.OtherProtocol? || list[i].protocol.OtherProtocol?
    ensures Publishable(list, active, managed, env, base) <==> forall i: nat | i < |list| && list[i].key !in active :: env.starts(base + i)
  {
    forall k, i: nat | IsHandoff(list, active, managed, k, i) ensures Succession(list, active, managed, k, i) {}
  }
}
