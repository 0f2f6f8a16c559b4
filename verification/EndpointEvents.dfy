/**
 The notifications of endpoint additions and removals. Callbacks run outside the
 manager's lock, so they may arrive in any order; versions let a consumer tell
 which one is the latest.
 */
module EndpointEvents {
  import opened Options

  // A cluster name and an address.
  type Key = (string, string)

  datatype Change = Change(key: Key, present: bool, version: nat)

  // The changes are the difference between the two address sets, each key once.
  ghost predicate IsDiff(changes: seq<Change>, before: set<Key>, after: set<Key>, version: nat) {
    && (forall i, j | 0 <= i < j < |changes| :: changes[i].key != changes[j].key)
    && (forall c | c in changes :: c.version == version && (if c.present then c.key in after - before else c.key in before - after))
    && (forall k | k in before - after :: Change(k, false, version) in changes)
    && (forall k | k in after - before :: Change(k, true, version) in changes)
  }

  method Removals(before: set<Key>, after: set<Key>, version: nat) returns (changes: seq<Change>)
    ensures forall i, j | 0 <= i < j < |changes| :: changes[i].key != changes[j].key
    ensures forall c | c in changes :: c.key in before - after && c == Change(c.key, false, version)
    ensures forall k | k in before - after :: Change(k, false, version) in changes
  {
    changes := [];
    var rest := before;
    while rest != {}
      invariant rest <= before
      invariant forall i, j | 0 <= i < j < |changes| :: changes[i].key != changes[j].key
      invariant forall c | c in changes :: c.key in before - after && c.key !in rest && c == Change(c.key, false, version)
      invariant forall k | k in before - after && k !in rest :: Change(k, false, version) in changes
    {
      var k :| k in rest;
      rest := rest - {k};
      if k !in after {
        ghost var sofar := changes;
        changes := changes + [Change(k, false, version)];
        assert changes[|sofar|] == Change(k, false, version);
        assert forall c | c in sofar :: c in changes;
        assert forall i | 0 <= i < |sofar| :: sofar[i] in sofar;
      }
    }
  }

  method Additions(before: set<Key>, after: set<Key>, version: nat, removals: seq<Change>) returns (changes: seq<Change>)
    requires forall i, j | 0 <= i < j < |removals| :: removals[i].key != removals[j].key
    requires forall c | c in removals :: c.key in before - after && c == Change(c.key, false, version)
    requires forall k | k in before - after :: Change(k, false, version) in removals
    ensures IsDiff(changes, before, after, version)
  {
    changes := removals;
    var rest := after;
    while rest != {}
      invariant rest <= after
      invariant forall i, j | 0 <= i < j < |changes| :: changes[i].key != changes[j].key
      invariant forall c | c in changes :: c.version == version && c.key !in rest
      invariant forall c | c in changes :: if c.present then c.key in after - before else c.key in before - after
      invariant forall k | k in before - after :: Change(k, false, version) in changes
      invariant forall k | k in after - before && k !in rest :: Change(k, true, version) in changes
    {
      var k :| k in rest;
      rest := rest - {k};
      if k !in before {
        ghost var sofar := changes;
        changes := changes + [Change(k, true, version)];
        assert changes[|sofar|] == Change(k, true, version);
        assert forall c | c in sofar :: c in changes;
        assert forall i | 0 <= i < |sofar| :: sofar[i] in sofar;
      }
    }
  }

  /** endpointStateChanges */
  method StateChanges(before: set<Key>, after: set<Key>, version: nat) returns (changes: seq<Change>)
    ensures IsDiff(changes, before, after, version)
  {
    var removals := Removals(before, after, version);
    changes := Additions(before, after, version, removals);
  }

  // The last change of a key in a log.
  function Latest(log: seq<Change>, k: Key): Option<Change> {
    if log == [] then None
    else if log[|log| - 1].key == k then Some(log[|log| - 1])
    else Latest(log[..|log| - 1], k)
  }

  function Holds(initial: set<Key>, latest: Option<Change>, k: Key): bool {
    if latest.Some? then latest.value.present else k in initial
  }

  // No version is newer than the counter, and changes of one key have increasing versions.
  ghost predicate Versioned(log: seq<Change>, version: nat) {
    && (forall i | 0 <= i < |log| :: log[i].version <= version)
    && (forall i, j | 0 <= i < j < |log| && log[i].key == log[j].key :: log[i].version < log[j].version)
  }

  // The log tells what the store holds now.
  ghost predicate Tells(initial: set<Key>, log: seq<Change>, version: nat, current: set<Key>) {
    Versioned(log, version) && forall k :: k in current <==> Holds(initial, Latest(log, k), k)
  }

  lemma {:induction false} LatestOfConcat(log: seq<Change>, more: seq<Change>, k: Key)
    ensures Latest(log + more, k) == if Latest(more, k).Some? then Latest(more, k) else Latest(log, k)
  {
    if more == [] {
      assert log + more == log;
    } else {
      var all := log + more;
      assert all[|all| - 1] == more[|more| - 1] && all[..|all| - 1] == log + more[..|more| - 1];
      LatestOfConcat(log, more[..|more| - 1], k);
    }
  }

  lemma {:induction false} LatestIsThere(log: seq<Change>, k: Key)
    ensures Latest(log, k).Some? ==> Latest(log, k).value in log && Latest(log, k).value.key == k
    ensures Latest(log, k).None? ==> forall i | 0 <= i < |log| :: log[i].key != k
  {
    if log != [] && log[|log| - 1].key != k {
      LatestIsThere(log[..|log| - 1], k);
    }
  }

  lemma DiffTells(before: set<Key>, after: set<Key>, changes: seq<Change>, version: nat, k: Key)
    requires IsDiff(changes, before, after, version)
    ensures k in after <==> if Latest(changes, k).Some? then Latest(changes, k).value.present else k in before
  {
    LatestIsThere(changes, k);
    assert k in before - after ==> Change(k, false, version) in changes;
    assert k in after - before ==> Change(k, true, version) in changes;
    assert Latest(changes, k).None? ==> forall c | c in changes :: c.key != k;
  }

  lemma VersionsGrow(log: seq<Change>, version: nat, before: set<Key>, after: set<Key>, changes: seq<Change>)
    requires Versioned(log, version) && IsDiff(changes, before, after, version + 1)
    ensures Versioned(log + changes, version + 1)
  {
    var all := log + changes;
    forall i, j | |log| <= i < j < |all| ensures all[i].key != all[j].key {
      assert changes[i - |log|].key != changes[j - |log|].key;
    }
    forall i, j | 0 <= i < j < |all| && all[i].key == all[j].key ensures all[i].version < all[j].version {
      if j >= |log| {
        assert changes[j - |log|] in changes;
      }
    }
    forall i | 0 <= i < |all| ensures all[i].version <= version + 1 {
      if i >= |log| {
        assert changes[i - |log|] in changes;
      }
    }
  }

  /** A mutation that notifies its exact difference, under a new version, keeps the log telling the store. */
  lemma NotifyKeepsTelling(initial: set<Key>, log: seq<Change>, version: nat, before: set<Key>, after: set<Key>, changes: seq<Change>)
    requires Tells(initial, log, version, before) && IsDiff(changes, before, after, version + 1)
    ensures Tells(initial, log + changes, version + 1, after)
  {
    VersionsGrow(log, version, before, after, changes);
    forall k ensures k in after <==> Holds(initial, Latest(log + changes, k), k) {
      LatestOfConcat(log, changes, k);
      DiffTells(before, after, changes, version + 1, k);
    }
  }

  /** Announcing addresses keeps the log telling the store, even where they were announced before. */
  lemma AnnounceKeepsTelling(initial: set<Key>, log: seq<Change>, version: nat, before: set<Key>, added: set<Key>, changes: seq<Change>)
    requires Tells(initial, log, version, before) && IsDiff(changes, {}, added, version + 1)
    ensures Tells(initial, log + changes, version + 1, before + added)
  {
    VersionsGrow(log, version, {}, added, changes);
    forall k ensures k in before + added <==> Holds(initial, Latest(log + changes, k), k) {
      LatestOfConcat(log, changes, k);
      LatestIsThere(changes, k);
      DiffTells({}, added, changes, version + 1, k);
    }
  }

  /** While nothing is sent, a log keeps telling the addresses exactly as long as they stay the same. */
  lemma TellsOneSet(initial: set<Key>, log: seq<Change>, version: nat, later: nat, a: set<Key>, b: set<Key>)
    requires Tells(initial, log, version, a) && version <= later
    ensures Tells(initial, log, later, b) <==> a == b
  {
    if Tells(initial, log, later, b) {
      forall k ensures k in a <==> k in b {
        assert k in a <==> Holds(initial, Latest(log, k), k);
      }
    }
  }

  // What a consumer that keeps the highest version per key knows after some deliveries.
  function Consume(deliveries: seq<Change>): map<Key, Change> {
    if deliveries == [] then map[]
    else
      var known, c := Consume(deliveries[..|deliveries| - 1]), deliveries[|deliveries| - 1];
      if c.key in known && known[c.key].version >= c.version then known else known[c.key := c]
  }

  lemma {:induction false} ConsumeKeepsNewest(deliveries: seq<Change>, k: Key)
    ensures k in Consume(deliveries) ==> Consume(deliveries)[k] in deliveries && Consume(deliveries)[k].key == k
    ensures forall c | c in deliveries && c.key == k :: k in Consume(deliveries) && c.version <= Consume(deliveries)[k].version
  {
    if deliveries != [] {
      var before, last := deliveries[..|deliveries| - 1], deliveries[|deliveries| - 1];
      ConsumeKeepsNewest(before, k);
      assert deliveries == before + [last];
    }
  }

  lemma LatestIsNewest(log: seq<Change>, version: nat, c: Change)
    requires Versioned(log, version) && c in log
    ensures Latest(log, c.key).Some? && c.version <= Latest(log, c.key).value.version
    ensures c.version == Latest(log, c.key).value.version ==> c == Latest(log, c.key).value
  {
    LatestIsThere(log, c.key);
    var latest := Latest(log, c.key).value;
    var i :| 0 <= i < |log| && log[i] == c;
    LatestIsLast(log, c.key, i);
    var j :| i <= j < |log| && log[j] == latest;
  }

  lemma {:induction false} LatestIsLast(log: seq<Change>, k: Key, i: nat)
    requires i < |log| && log[i].key == k
    ensures exists j | i <= j < |log| :: Latest(log, k) == Some(log[j])
  {
    if log[|log| - 1].key != k {
      LatestIsLast(log[..|log| - 1], k, i);
    }
  }

  /**
   Convergence: whatever the order in which the sent changes arrive, and even
   if some arrive twice, the consumer ends with exactly the store's addresses.
   */
  lemma DeliveriesConverge(initial: set<Key>, log: seq<Change>, version: nat, current: set<Key>, deliveries: seq<Change>, k: Key)
    requires Tells(initial, log, version, current)
    requires forall c :: c in deliveries <==> c in log
    ensures k in current <==> Holds(initial, Lookup(Consume(deliveries), k), k)
  {
    ConsumeKeepsNewest(deliveries, k);
    LatestIsThere(log, k);
    if Latest(log, k).Some? {
      var latest := Latest(log, k).value;
      assert latest in deliveries;
      LatestIsNewest(log, version, Consume(deliveries)[k]);
    }
  }
}
