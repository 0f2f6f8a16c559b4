/**
 The part of etcd that the Admin process relies on: keys carry the revision
 that created them and the revision that last wrote them, and a transaction
 checks revisions and then applies all its deletes and puts as one revision.
 */
module Etcd {
  import opened Options

  datatype Entry<+V> = Entry(value: V, createRevision: nat, modRevision: nat)

  datatype Store<!K, +V> = Store(kvs: map<K, Entry<V>>, revision: nat)

  datatype Compare<+K> =
    | ModRevisionIs(key: K, revision: nat)
    | IsAbsent(key: K)

  // Deletes and puts of one transaction never name the same key; etcd refuses
  // a request in which they do, so their order does not matter.
  datatype Txn<!K(==), +V> = Txn(compares: set<Compare<K>>, deletes: iset<K>, puts: map<K, V>)

  ghost predicate WellFormed<K(!new), V>(s: Store<K, V>) {
    forall k | k in s.kvs :: 0 < s.kvs[k].createRevision <= s.kvs[k].modRevision <= s.revision
  }

  function ModRevision<K, V>(s: Store<K, V>, k: K): nat {
    if k in s.kvs then s.kvs[k].modRevision else 0
  }

  predicate Holds<K, V>(s: Store<K, V>, c: Compare<K>) {
    match c
    case ModRevisionIs(k, r) => ModRevision(s, k) == r
    case IsAbsent(k) => k !in s.kvs
  }

  predicate AllHold<K, V>(s: Store<K, V>, cs: set<Compare<K>>) {
    forall c | c in cs :: Holds(s, c)
  }

  // The key has the same entry, or none, in both.
  ghost predicate SameAt<K, V>(before: Store<K, V>, after: Store<K, V>, k: K) {
    Lookup(after.kvs, k) == Lookup(before.kvs, k)
  }

  // The store after a transaction whose comparisons held.
  ghost function Write<K(!new), V>(s: Store<K, V>, t: Txn<K, V>): Store<K, V> {
    var next := s.revision + 1;
    Store(
      map k | k in s.kvs.Keys + t.puts.Keys && (k in t.puts || k !in t.deletes) ::
        if k !in t.puts then s.kvs[k]
        else Entry(t.puts[k], if k in s.kvs && k !in t.deletes then s.kvs[k].createRevision else next, next),
      next)
  }

  ghost function Commit<K(!new), V>(s: Store<K, V>, t: Txn<K, V>): Store<K, V> {
    if AllHold(s, t.compares) then Write(s, t) else s
  }

  // The comparison a client sends to make sure that what it read is still there.
  function Unchanged<K, V>(seen: Store<K, V>, k: K): Compare<K> {
    if k in seen.kvs then ModRevisionIs(k, seen.kvs[k].modRevision) else IsAbsent(k)
  }

  /**
   `later` can be reached from `earlier`: anything in it that is not newer than
   `earlier` was already there, unchanged.
   */
  ghost predicate Precedes<K(!new), V>(earlier: Store<K, V>, later: Store<K, V>) {
    && earlier.revision <= later.revision
    && forall k | k in later.kvs && later.kvs[k].modRevision <= earlier.revision ::
         k in earlier.kvs && earlier.kvs[k] == later.kvs[k]
  }

  lemma WriteKeepsWellFormed<K(!new), V>(s: Store<K, V>, t: Txn<K, V>)
    requires WellFormed(s)
    ensures WellFormed(Write(s, t)) && Precedes(s, Write(s, t))
  {
  }

  lemma PrecedesTransitive<K(!new), V>(a: Store<K, V>, b: Store<K, V>, c: Store<K, V>)
    requires Precedes(a, b) && Precedes(b, c)
    ensures Precedes(a, c)
  {
    forall k | k in c.kvs && c.kvs[k].modRevision <= a.revision
      ensures k in a.kvs && a.kvs[k] == c.kvs[k]
    {
      assert k in b.kvs && b.kvs[k] == c.kvs[k];
    }
  }

  /** A revision comparison that succeeds proves that the whole entry is as it was read. */
  lemma UnchangedMeansSameEntry<K(!new), V>(seen: Store<K, V>, now: Store<K, V>, k: K)
    requires WellFormed(seen) && WellFormed(now) && Precedes(seen, now)
    requires Holds(now, Unchanged(seen, k))
    ensures Lookup(seen.kvs, k) == Lookup(now.kvs, k)
  {
    if k in seen.kvs {
      assert 0 < seen.kvs[k].modRevision <= seen.revision;
      assert k in now.kvs;
    }
  }
}
