/**
 The consistent-hash ring of a snapshot's healthy endpoints: built once, on
 first use, or taken over from the previous snapshot when nothing it depends on
 has changed.
 */
module HashCache {
  import opened Options
  import opened Endpoints
  import opened EndpointSnapshot

  // The registered ring builders, by load-balancing policy.
  type Factories<H> = map<string, (HashConfig, seq<Endpoint>) -> H>

  predicate SameConfig(a: HashConfig, b: HashConfig) {
    a.replicaNum == b.replicaNum && a.maxVnodeNum == b.maxVnodeNum && a.maglevTableSize == b.maglevTableSize
  }

  predicate SameHost(a: Endpoint, b: Endpoint) {
    a.host == b.host && a.port == b.port
  }

  predicate SameHosts(a: seq<Endpoint>, b: seq<Endpoint>) {
    |a| == |b| && forall i | 0 <= i < |a| :: SameHost(a[i], b[i])
  }

  function HostsOf(es: seq<Endpoint>): (hosts: seq<(string, int)>)
    ensures |hosts| == |es| && forall i | 0 <= i < |es| :: hosts[i] == (es[i].host, es[i].port)
  {
    seq(|es|, i requires 0 <= i < |es| => (es[i].host, es[i].port))
  }

  // A ring depends on the compared parameters and on the hosts in order.
  ghost predicate Regular<H>(factories: Factories<H>) {
    forall p, c, d, a, b | p in factories && SameConfig(c, d) && SameHosts(a, b) :: factories[p](c, a) == factories[p](d, b)
  }

  // The ring a build from the healthy endpoints gives, if there is one.
  function Rebuilt<H>(factories: Factories<H>, s: Snapshot): Option<H> {
    if s.healthy == [] || s.policy !in factories then None else Some(factories[s.policy](s.hashConfig, s.healthy))
  }

  method HaveSameHosts(a: seq<Endpoint>, b: seq<Endpoint>) returns (same: bool)
    ensures same <==> SameHosts(a, b)
  {
    if |a| != |b| {
      return false;
    }
    for i := 0 to |a|
      invariant forall j | 0 <= j < i :: SameHost(a[j], b[j])
    {
      if !SameHost(a[i], b[i]) {
        return false;
      }
    }
    same := true;
  }

  predicate CanReuse<H>(factories: Factories<H>, previous: Snapshot, next: Snapshot) {
    && previous.policy == next.policy && next.policy in factories
    && SameConfig(previous.hashConfig, next.hashConfig) && SameHosts(previous.healthy, next.healthy)
  }

  /** When reuse is allowed, the previous ring is the one a rebuild would give. */
  lemma ReuseIsRebuild<H>(factories: Factories<H>, previous: Snapshot, next: Snapshot)
    requires Regular(factories) && CanReuse(factories, previous, next)
    ensures Rebuilt(factories, previous) == Rebuilt(factories, next)
  {
    assert previous.healthy == [] <==> next.healthy == [];
  }

  /** A ring is taken over exactly when policy, ring parameters and the hosts and ports in order are the same. */
  lemma ReuseIff<H>(factories: Factories<H>, previous: Snapshot, next: Snapshot)
    requires next.policy in factories
    ensures CanReuse(factories, previous, next) <==>
      && previous.policy == next.policy
      && previous.hashConfig == next.hashConfig.(other := previous.hashConfig.other)
      && HostsOf(previous.healthy) == HostsOf(next.healthy)
  {
    if CanReuse(factories, previous, next) {
      assert forall i | 0 <= i < |next.healthy| :: SameHost(previous.healthy[i], next.healthy[i]);
    } else if HostsOf(previous.healthy) == HostsOf(next.healthy) {
      assert forall i | 0 <= i < |next.healthy| :: HostsOf(previous.healthy)[i] == HostsOf(next.healthy)[i];
    }
  }

  class RingCache<H> {
    const snapshot: Snapshot
    // Whether the once-guarded initialization ran, and the ring it left.
    var done: bool
    var ring: Option<H>

    ghost predicate Valid(factories: Factories<H>)
      reads this
    {
      (ring.Some? ==> done) && (done ==> ring == Rebuilt(factories, snapshot))
    }

    // A snapshot derived by a health update starts without a ring.
    constructor Empty(s: Snapshot, ghost factories: Factories<H>)
      ensures Valid(factories) && snapshot == s
    {
      snapshot, done, ring := s, false, None;
    }

    // A rebuilt snapshot takes the previous ring over when it can.
    constructor ReusingFrom(s: Snapshot, previous: RingCache<H>, factories: Factories<H>)
      requires previous.Valid(factories) && Regular(factories)
      ensures Valid(factories) && snapshot == s
      ensures ring.Some? <==> previous.ring.Some? && CanReuse(factories, previous.snapshot, s)
    {
      snapshot, done, ring := s, false, None;
      new;
      var same := HaveSameHosts(previous.snapshot.healthy, s.healthy);
      if previous.snapshot.policy == s.policy && s.policy in factories && SameConfig(previous.snapshot.hashConfig, s.hashConfig) && same
         && previous.ring.Some?
      {
        ReuseIsRebuild(factories, previous.snapshot, s);
        done, ring := true, previous.ring;
      }
    }

    /** Cached, reused or new: the ring is the one rebuilt from the healthy endpoints. */
    method HealthyRing(factories: Factories<H>) returns (r: Option<H>)
      requires Valid(factories)
      modifies this
      ensures Valid(factories) && r == Rebuilt(factories, snapshot) == ring
    {
      if !done {
        if snapshot.healthy != [] && snapshot.policy in factories {
          ring := Some(factories[snapshot.policy](snapshot.hashConfig, snapshot.healthy));
        }
        done := true;
      }
      r := ring;
    }
  }
}
