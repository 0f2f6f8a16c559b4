/** Upstream endpoints, as the cluster configuration and the runtime snapshots hold them. */
module Endpoints {
  import opened Options

  datatype Llm = Llm(provider: string, apiKey: string)

  // `address` is the network address: the first domain if there is one, else host:port.
  datatype Endpoint = Endpoint(id: string, name: string, host: string, port: int, address: string,
                               llm: Option<Llm>, metadata: map<string, string>, unhealthy: bool)
}

/** How endpoints get the stable IDs that key their runtime health. */
module EndpointIdentity {
  import opened Options
  import opened Decimals
  import opened Endpoints

  function Field(name: string, value: string): string {
    name + (":" + (Dec(|value|) + (":" + (value + "\n"))))
  }

  function Material(cluster: string, address: string, provider: string, apiKey: string): string {
    Field("cluster", cluster) + (Field("address", address) + (Field("llm_provider", provider) + Field("llm_api_key", apiKey)))
  }

  // Nothing that could continue a number.
  predicate EndsNumber(s: string) {
    s == "" || s[0] < '0' || s[0] > '9'
  }

  // A number is not longer than another that ends there.
  lemma NumberEnds(m: nat, n: nat, a: string, b: string)
    requires Dec(m) + a == Dec(n) + b && EndsNumber(a)
    ensures |Dec(n)| <= |Dec(m)|
  {
    var s := Dec(m) + a;
    assert forall i | 0 <= i < |Dec(n)| :: s[i] == Dec(n)[i];
    if |Dec(m)| < |s| {
      assert s[|Dec(m)|] == a[0];
    }
  }

  lemma LengthIsUnique(m: nat, n: nat, a: string, b: string)
    requires Dec(m) + (":" + a) == Dec(n) + (":" + b)
    ensures m == n && a == b
  {
    NumberEnds(m, n, ":" + a, ":" + b);
    NumberEnds(n, m, ":" + b, ":" + a);
    var s, k := Dec(m) + (":" + a), |Dec(m)|;
    assert s[..k] == Dec(m) && s[..k] == Dec(n);
    assert s[k + 1..] == a && s[k + 1..] == b;
    DecInjective(m, n);
  }

  // A tagged, length-prefixed field can be read back, whatever its value contains.
  lemma FieldIsUnique(name: string, v: string, w: string, a: string, b: string)
    requires Field(name, v) + a == Field(name, w) + b
    ensures v == w && a == b
  {
    var s, k := Field(name, v) + a, |name|;
    var p, q := v + "\n" + a, w + "\n" + b;
    assert s[k + 1..] == Dec(|v|) + (":" + p);
    assert s[k + 1..] == Dec(|w|) + (":" + q);
    LengthIsUnique(|v|, |w|, p, q);
    assert v == p[..|v|] && w == q[..|w|];
    assert a == p[|v| + 1..] && b == q[|w| + 1..];
  }

  /** The material hashed into a generated ID determines all four components. */
  lemma MaterialIsInjective(c: string, a: string, p: string, k: string, c': string, a': string, p': string, k': string)
    requires Material(c, a, p, k) == Material(c', a', p', k')
    ensures c == c' && a == a' && p == p' && k == k'
  {
    FieldIsUnique("cluster", c, c',
                  Field("address", a) + (Field("llm_provider", p) + Field("llm_api_key", k)),
                  Field("address", a') + (Field("llm_provider", p') + Field("llm_api_key", k')));
    FieldIsUnique("address", a, a',
                  Field("llm_provider", p) + Field("llm_api_key", k), Field("llm_provider", p') + Field("llm_api_key", k'));
    FieldIsUnique("llm_provider", p, p', Field("llm_api_key", k), Field("llm_api_key", k'));
    assert Field("llm_api_key", k) + [] == Field("llm_api_key", k') + [];
    FieldIsUnique("llm_api_key", k, k', [], []);
  }

  const GENERATED := "generated-"

  // The digest of the material, in hexadecimal.
  type Digest = string -> string

  function GenerateId(cluster: string, e: Endpoint, digest: Digest): string {
    GENERATED + digest(Material(cluster, e.address,
                                if e.llm.Some? then e.llm.value.provider else "",
                                if e.llm.Some? then e.llm.value.apiKey else ""))
  }

  // What tells two endpoints of a cluster apart: the provider and the key of an LLM endpoint; no LLM counts as both empty.
  function Provider(e: Endpoint): string {
    if e.llm.Some? then e.llm.value.provider else ""
  }

  function ApiKey(e: Endpoint): string {
    if e.llm.Some? then e.llm.value.apiKey else ""
  }

  /**
   Where the digest has no collisions, two generated IDs are equal exactly for
   one cluster, address, provider and key: the name, the metadata and the
   health never move an ID.
   */
  lemma GeneratedIdsAgreeIff(c: string, e: Endpoint, d: string, f: Endpoint, digest: Digest)
    requires forall s, t | digest(s) == digest(t) :: s == t
    ensures GenerateId(c, e, digest) == GenerateId(d, f, digest)
            <==> c == d && e.address == f.address && Provider(e) == Provider(f) && ApiKey(e) == ApiKey(f)
  {
    var m, n := Material(c, e.address, Provider(e), ApiKey(e)), Material(d, f.address, Provider(f), ApiKey(f));
    if GenerateId(c, e, digest) == GenerateId(d, f, digest) {
      assert digest(m) == GenerateId(c, e, digest)[|GENERATED|..] && digest(n) == GenerateId(d, f, digest)[|GENERATED|..];
      MaterialIsInjective(c, e.address, Provider(e), ApiKey(e), d, f.address, Provider(f), ApiKey(f));
    }
  }

  function BaseId(cluster: string, e: Endpoint, digest: Digest): (id: string)
    ensures id != ""
  {
    if e.id != "" then e.id else GenerateId(cluster, e, digest)
  }

  // The candidates tried in turn: the base itself, base-2, base-3, ...
  function Candidate(base: string, n: nat): string {
    if n < 2 then base else base + ("-" + Dec(n))
  }

  function Tried(base: string, n: nat): set<string> {
    set i: nat | 1 <= i <= n :: Candidate(base, i)
  }

  lemma CandidateIsInjective(base: string, m: nat, n: nat)
    requires 1 <= m && 1 <= n && Candidate(base, m) == Candidate(base, n)
    ensures m == n
  {
    if m >= 2 && n >= 2 {
      assert Dec(m) == Candidate(base, m)[|base| + 1..] && Dec(n) == Candidate(base, n)[|base| + 1..];
      DecInjective(m, n);
    } else {
      assert |Candidate(base, m)| == |base| <==> m < 2;
      assert |Candidate(base, n)| == |base| <==> n < 2;
    }
  }

  lemma {:induction false} TriedSize(base: string, n: nat)
    ensures |Tried(base, n)| == n
  {
    if n == 0 {
      assert Tried(base, 0) == {};
    } else {
      TriedSize(base, n - 1);
      forall i: nat | 1 <= i <= n - 1 ensures Candidate(base, i) != Candidate(base, n) {
        if Candidate(base, i) == Candidate(base, n) {
          CandidateIsInjective(base, i, n);
        }
      }
      assert Candidate(base, n) !in Tried(base, n - 1);
      assert Tried(base, n) == Tried(base, n - 1) + {Candidate(base, n)};
    }
  }

  lemma SubsetSize(a: set<string>, b: set<string>)
    requires a <= b
    ensures |a| <= |b|
  {
    assert b == a + (b - a);
  }

  // The candidates up to n are all taken, so n is at most the number of taken IDs.
  lemma TriedAreTaken(base: string, taken: set<string>, n: nat)
    requires forall i: nat | 1 <= i <= n :: Candidate(base, i) in taken
    ensures n <= |taken|
  {
    TriedSize(base, n);
    SubsetSize(Tried(base, n), taken);
  }

  // The n-th candidate is the first that is not taken.
  ghost predicate IsFirstFree(base: string, taken: set<string>, n: nat) {
    1 <= n && Candidate(base, n) !in taken && forall i: nat | 1 <= i < n :: Candidate(base, i) in taken
  }

  ghost predicate IsResolved(base: string, taken: set<string>, id: string) {
    exists n: nat :: IsFirstFree(base, taken, n) && id == Candidate(base, n)
  }

  /** The search ends within |taken| + 1 candidates, at the first one that is free. */
  method StableUniqueId(cluster: string, e: Endpoint, taken: set<string>, digest: Digest) returns (id: string)
    ensures IsResolved(BaseId(cluster, e, digest), taken, id)
    ensures id !in taken
    ensures exists n: nat | n <= |taken| + 1 :: id == Candidate(BaseId(cluster, e, digest), n)
  {
    var base := BaseId(cluster, e, digest);
    assert Candidate(base, 1) == base;
    if base !in taken {
      assert IsFirstFree(base, taken, 1);
      return base;
    }
    var suffix := 2;
    TriedAreTaken(base, taken, 1);
    while Candidate(base, suffix) in taken
      invariant suffix >= 2 && suffix - 1 <= |taken|
      invariant forall i: nat | 1 <= i < suffix :: Candidate(base, i) in taken
      decreases |taken| + 1 - suffix
    {
      TriedAreTaken(base, taken, suffix);
      suffix := suffix + 1;
    }
    assert IsFirstFree(base, taken, suffix);
    id := Candidate(base, suffix);
  }

  lemma ResolvedIsUnique(base: string, taken: set<string>, a: string, b: string)
    requires IsResolved(base, taken, a) && IsResolved(base, taken, b)
    ensures a == b
  {
    var m: nat :| IsFirstFree(base, taken, m) && a == Candidate(base, m);
    var n: nat :| IsFirstFree(base, taken, n) && b == Candidate(base, n);
    assert m == n;
  }

  lemma FreeBaseIsKept(base: string, taken: set<string>)
    requires base !in taken
    ensures IsResolved(base, taken, base)
  {
    assert Candidate(base, 1) == base;
    assert IsFirstFree(base, taken, 1);
  }

  /** The first endpoint with a base keeps it; the next ones are numbered from 2. */
  lemma ResolvedInTurn(base: string, taken: set<string>, id: string)
    requires IsResolved(base, taken, id)
    ensures base !in taken ==> id == base
    ensures base in taken && base + "-2" !in taken ==> id == base + "-2"
    ensures base in taken && base + "-2" in taken && base + "-3" !in taken ==> id == base + "-3"
  {
    var n: nat :| IsFirstFree(base, taken, n) && id == Candidate(base, n);
    assert Candidate(base, 1) == base && Candidate(base, 2) == base + "-2" && Candidate(base, 3) == base + "-3";
  }

  type Slots = seq<Option<Endpoint>>

  function IdsOf(slots: Slots): set<string> {
    set i | 0 <= i < |slots| && slots[i].Some? :: slots[i].value.id
  }

  function DefaultName(e: Endpoint, i: nat): string {
    if e.name != "" then e.name
    else if e.llm.Some? then "endpoint-" + Dec(i + 1) + "#" + e.llm.value.provider
    else "endpoint-" + Dec(i + 1)
  }

  lemma NumberIsUnique(m: nat, n: nat, a: string, b: string)
    requires Dec(m) + a == Dec(n) + b && EndsNumber(a) && EndsNumber(b)
    ensures m == n
  {
    NumberEnds(m, n, a, b);
    NumberEnds(n, m, b, a);
    assert (Dec(m) + a)[..|Dec(m)|] == Dec(m) && (Dec(n) + b)[..|Dec(n)|] == Dec(n);
    DecInjective(m, n);
  }

  lemma DefaultPrefix(e: Endpoint, i: nat) returns (tail: string)
    requires e.name == ""
    ensures DefaultName(e, i) == "endpoint-" + (Dec(i + 1) + tail) && EndsNumber(tail)
  {
    tail := if e.llm.Some? then "#" + Provider(e) else "";
  }

  /** A given name stays; the names made up for two places differ, and the first place is number 1. */
  lemma DefaultNamesDiffer(e: Endpoint, i: nat, f: Endpoint, j: nat)
    ensures e.name != "" ==> DefaultName(e, i) == e.name
    ensures e.name == "" && e.llm.None? ==> DefaultName(e, 0) == "endpoint-1"
    ensures e.name == "" && f.name == "" && i != j ==> DefaultName(e, i) != DefaultName(f, j)
  {
    assert Dec(1) == "1";
    if e.name == "" && f.name == "" && DefaultName(e, i) == DefaultName(f, j) {
      var a := DefaultPrefix(e, i);
      var b := DefaultPrefix(f, j);
      assert DefaultName(e, i)[9..] == Dec(i + 1) + a && DefaultName(f, j)[9..] == Dec(j + 1) + b;
      NumberIsUnique(i + 1, j + 1, a, b);
    }
  }

  // Each slot resolved against the IDs before it; empty slots are skipped.
  ghost predicate IsAssembly(cluster: string, slots: Slots, digest: Digest, out: Slots) {
    |out| == |slots| && forall i | 0 <= i < |slots| :: IsReady(cluster, slots[i], IdsOf(out[..i]), i, digest, out[i])
  }

  // One slot made ready: its ID resolved against the taken ones, its name filled in.
  ghost predicate IsReady(cluster: string, slot: Option<Endpoint>, taken: set<string>, i: nat, digest: Digest, made: Option<Endpoint>) {
    && (slot.Some? <==> made.Some?)
    && (slot.Some? ==>
        && IsResolved(BaseId(cluster, slot.value, digest), taken, made.value.id)
        && made.value == slot.value.(id := made.value.id, name := DefaultName(slot.value, i)))
  }

  method AssembleSlot(cluster: string, slot: Option<Endpoint>, taken: set<string>, i: nat, digest: Digest) returns (made: Option<Endpoint>)
    ensures IsReady(cluster, slot, taken, i, digest, made)
  {
    if slot.None? {
      return None;
    }
    var e := slot.value;
    var id := e.id;
    if id == "" || id in taken {
      id := StableUniqueId(cluster, e, taken, digest);
    } else {
      FreeBaseIsKept(id, taken);
    }
    made := Some(e.(id := id, name := DefaultName(e, i)));
  }

  method Assemble(cluster: string, slots: Slots, digest: Digest) returns (out: Slots)
    ensures IsAssembly(cluster, slots, digest, out)
  {
    out := [];
    var taken := {};
    for i := 0 to |slots|
      invariant |out| == i && IsAssembly(cluster, slots[..i], digest, out) && taken == IdsOf(out)
    {
      var made := AssembleSlot(cluster, slots[i], taken, i, digest);
      AssemblyExtends(cluster, slots[..i], digest, out, slots[i], made);
      assert slots[..i + 1] == slots[..i] + [slots[i]];
      out := out + [made];
      if made.Some? {
        taken := taken + {made.value.id};
      }
    }
    assert slots[..|slots|] == slots;
  }

  lemma AssemblyExtends(cluster: string, slots: Slots, digest: Digest, out: Slots, slot: Option<Endpoint>, made: Option<Endpoint>)
    requires IsAssembly(cluster, slots, digest, out)
    requires IsReady(cluster, slot, IdsOf(out), |slots|, digest, made)
    ensures IsAssembly(cluster, slots + [slot], digest, out + [made])
    ensures IdsOf(out + [made]) == if made.Some? then IdsOf(out) + {made.value.id} else IdsOf(out)
  {
    var slots', out' := slots + [slot], out + [made];
    forall i | 0 <= i < |slots'| ensures out'[..i] == if i < |slots| then out[..i] else out {}
    assert out'[|out|] == made;
    forall id | id in IdsOf(out) ensures id in IdsOf(out') {
      var i :| 0 <= i < |out| && out[i].Some? && out[i].value.id == id;
      assert out'[i] == out[i];
    }
  }

  ghost predicate DistinctIds(slots: Slots) {
    && (forall i | 0 <= i < |slots| && slots[i].Some? :: slots[i].value.id != "")
    && (forall i, j | 0 <= i < j < |slots| && slots[i].Some? && slots[j].Some? :: slots[i].value.id != slots[j].value.id)
  }

  /** Assembled endpoints have IDs that are distinct and not empty. */
  lemma AssemblyIsDistinct(cluster: string, slots: Slots, digest: Digest, out: Slots)
    requires IsAssembly(cluster, slots, digest, out)
    ensures DistinctIds(out)
  {
    forall i, j | 0 <= i < j < |out| && out[i].Some? && out[j].Some? ensures out[i].value.id != out[j].value.id {
      assert slots[j].Some?;
      assert out[j].value.id !in IdsOf(out[..j]);
      assert out[..j][i] == out[i];
      assert out[i].value.id in IdsOf(out[..j]);
    }
    forall i | 0 <= i < |out| && out[i].Some? ensures out[i].value.id != "" {
      assert slots[i].Some?;
      var n: nat :| out[i].value.id == Candidate(BaseId(cluster, slots[i].value, digest), n);
    }
  }

  /** Distinct, non-empty IDs resolve to themselves, under any cluster name: a rebuild moves none. */
  lemma DistinctIdsAreKept(cluster: string, slots: Slots, digest: Digest, out: Slots)
    requires DistinctIds(slots) && IsAssembly(cluster, slots, digest, out)
    ensures forall i | 0 <= i < |slots| && slots[i].Some? :: out[i].value.id == slots[i].value.id
  {
    DistinctIdsKeptBefore(cluster, slots, digest, out, |slots|);
  }

  lemma {:induction false} DistinctIdsKeptBefore(cluster: string, slots: Slots, digest: Digest, out: Slots, n: nat)
    requires DistinctIds(slots) && IsAssembly(cluster, slots, digest, out) && n <= |slots|
    ensures forall i | 0 <= i < n && slots[i].Some? :: out[i].value.id == slots[i].value.id
  {
    if n > 0 {
      DistinctIdsKeptBefore(cluster, slots, digest, out, n - 1);
      if slots[n - 1].Some? {
        var id := slots[n - 1].value.id;
        forall i | 0 <= i < n - 1 && out[i].Some? ensures out[i].value.id != id {
          assert slots[i].Some?;
        }
        assert id !in IdsOf(out[..n - 1]);
        FreeBaseIsKept(id, IdsOf(out[..n - 1]));
        ResolvedIsUnique(id, IdsOf(out[..n - 1]), id, out[n - 1].value.id);
      }
    }
  }

  /** Assembling again changes nothing. */
  lemma AssemblyIsIdempotent(cluster: string, slots: Slots, digest: Digest, out: Slots, again: Slots)
    requires IsAssembly(cluster, slots, digest, out) && IsAssembly(cluster, out, digest, again)
    ensures again == out
  {
    AssemblyIsDistinct(cluster, slots, digest, out);
    DistinctIdsAreKept(cluster, out, digest, again);
    forall i | 0 <= i < |out| ensures again[i] == out[i] {
      if out[i].Some? {
        assert slots[i].Some? && out[i].value.name != "";
      }
    }
  }

  lemma SameSlot(cluster: string, slots: Slots, digest: Digest, a: Slots, b: Slots, i: nat)
    requires |a| == |b| == |slots| && i < |slots| && a[..i] == b[..i]
    requires IsReady(cluster, slots[i], IdsOf(a[..i]), i, digest, a[i])
    requires IsReady(cluster, slots[i], IdsOf(b[..i]), i, digest, b[i])
    ensures a[..i + 1] == b[..i + 1]
  {
    if slots[i].Some? {
      ResolvedIsUnique(BaseId(cluster, slots[i].value, digest), IdsOf(a[..i]), a[i].value.id, b[i].value.id);
    }
    assert a[..i + 1] == a[..i] + [a[i]];
    assert b[..i + 1] == b[..i] + [b[i]];
  }

  /** Assembly is a function of its input. */
  lemma AssemblyIsUnique(cluster: string, slots: Slots, digest: Digest, a: Slots, b: Slots)
    requires IsAssembly(cluster, slots, digest, a) && IsAssembly(cluster, slots, digest, b)
    ensures a == b
  {
    for i := 0 to |slots|
      invariant a[..i] == b[..i]
    {
      SameSlot(cluster, slots, digest, a, b, i);
    }
    assert a[..|slots|] == a && b[..|slots|] == b;
  }
}
