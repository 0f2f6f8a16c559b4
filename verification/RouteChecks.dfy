/**
 The loops that check a publication, over the lists that etcd returns, and the
 proof that they decide the order-free conditions the protocol model uses.
 */
module RouteChecks {
  import opened Options
  import opened Etcd
  import opened RouteStore

  // ----------------------------------------------------------- binding snapshots

  // What two bindings of one snapshot must not share.
  datatype Claim = Claim(route: string, resourceId: int, name: string)

  predicate Clashing(a: Claim, b: Claim) {
    a.route == b.route || (a.resourceId == b.resourceId && a.name != b.name)
  }

  ghost predicate Apart(claims: seq<Claim>) {
    forall i, j | 0 <= i < j < |claims| :: !Clashing(claims[i], claims[j])
  }

  // The tables the snapshot loop fills: the routes claimed so far, and the name behind each Resource ID.
  function Routes(claims: seq<Claim>): set<string> {
    if claims == [] then {} else Routes(claims[..|claims| - 1]) + {claims[|claims| - 1].route}
  }

  function Owners(claims: seq<Claim>): map<int, string> {
    if claims == [] then map[]
    else Owners(claims[..|claims| - 1])[claims[|claims| - 1].resourceId := claims[|claims| - 1].name]
  }

  ghost predicate ClearOf(claims: seq<Claim>, c: Claim) {
    forall i | 0 <= i < |claims| :: !Clashing(claims[i], c)
  }

  lemma {:induction false} TablesDecide(claims: seq<Claim>, c: Claim)
    requires Apart(claims)
    ensures ClearOf(claims, c) <==>
            c.route !in Routes(claims) && (c.resourceId in Owners(claims) ==> Owners(claims)[c.resourceId] == c.name)
  {
    if claims != [] {
      var init, last := claims[..|claims| - 1], claims[|claims| - 1];
      assert claims == init + [last];
      ApartPrefix(claims, |init|);
      TablesDecide(init, c);
      TablesDecide(init, last);
      assert ClearOf(claims, c) <==> ClearOf(init, c) && !Clashing(last, c);
      assert ClearOf(init, last);
      if c.resourceId == last.resourceId && c.name == last.name {
        assert forall i | 0 <= i < |init| :: Clashing(init[i], c) ==> init[i].route == c.route;
      }
    }
  }

  lemma ApartSnoc(claims: seq<Claim>, c: Claim)
    requires Apart(claims)
    ensures Apart(claims + [c]) <==> ClearOf(claims, c)
  {
    var all := claims + [c];
    assert all[|claims|] == c && forall i | 0 <= i < |claims| :: all[i] == claims[i];
    if Apart(all) {
      assert forall i | 0 <= i < |claims| :: !Clashing(all[i], all[|claims|]);
    }
  }

  lemma ApartPrefix(claims: seq<Claim>, n: nat)
    requires n <= |claims| && Apart(claims)
    ensures Apart(claims[..n])
  {
  }

  function ClaimOf(s: Schema, b: Binding): Claim
    requires CompileBinding(s, b).Some?
  {
    var c := CompileBinding(s, b).value.route;
    Claim(s.routeKey(c.m.verb, c.resource.path), b.resourceId, b.obj.name)
  }

  ghost predicate AllCompile(s: Schema, entries: seq<Binding>) {
    forall i | 0 <= i < |entries| :: CompileBinding(s, entries[i]).Some?
  }

  ghost function ClaimsOf(s: Schema, entries: seq<Binding>): (claims: seq<Claim>)
    requires AllCompile(s, entries)
    ensures |claims| == |entries| && forall i | 0 <= i < |entries| :: claims[i] == ClaimOf(s, entries[i])
  {
    seq(|entries|, i requires 0 <= i < |entries| => ClaimOf(s, entries[i]))
  }

  ghost predicate Consistent(s: Schema, entries: seq<Binding>) {
    AllCompile(s, entries) && Apart(ClaimsOf(s, entries))
  }

  method CompileSnapshot(s: Schema, entries: seq<Binding>) returns (r: Option<seq<CompiledBinding>>)
    ensures r.Some? <==> Consistent(s, entries)
    ensures r.Some? ==> |r.value| == |entries|
                        && forall i | 0 <= i < |entries| :: Some(r.value[i]) == CompileBinding(s, entries[i])
  {
    var result: seq<CompiledBinding> := [];
    var routes: set<string> := {};
    var owners: map<int, string> := map[];
    ghost var claims: seq<Claim> := [];
    for n := 0 to |entries|
      invariant |result| == |claims| == n && Apart(claims) && routes == Routes(claims) && owners == Owners(claims)
      invariant forall i | 0 <= i < n :: Some(result[i]) == CompileBinding(s, entries[i])
      invariant forall i | 0 <= i < n :: claims[i] == ClaimOf(s, entries[i])
    {
      var compiled := CompileBinding(s, entries[n]);
      if compiled.None? {
        return None;
      }
      var claim := ClaimOf(s, entries[n]);
      TablesDecide(claims, claim);
      ApartSnoc(claims, claim);
      if claim.route in routes || (claim.resourceId in owners && owners[claim.resourceId] != claim.name) {
        return None;
      }
      assert (claims + [claim])[..n] == claims;
      claims := claims + [claim];
      routes := routes + {claim.route};
      owners := owners[claim.resourceId := claim.name];
      result := result + [compiled.value];
    }
    assert AllCompile(s, entries) && ClaimsOf(s, entries) == claims;
    r := Some(result);
  }

  // The published bindings other than `name`, in any order.
  ghost predicate Lists(entries: seq<Binding>, bindings: Table, name: string)
    requires BindingsDecode(bindings)
  {
    && (forall i | 0 <= i < |entries| ::
          entries[i].obj.name != name && PublishedBinding(entries[i].obj.name) in bindings
          && bindings[PublishedBinding(entries[i].obj.name)].binding == entries[i])
    && (forall i, j | 0 <= i < j < |entries| :: entries[i].obj.name != entries[j].obj.name)
    && (forall k | k in bindings && k.name != name :: exists i | 0 <= i < |entries| :: entries[i] == bindings[k].binding)
  }

  lemma CompatibleIffApart(s: Schema, a: Binding, b: Binding)
    requires CompileBinding(s, a).Some? && CompileBinding(s, b).Some? && a.obj.name != b.obj.name
    ensures Compatible(s, a, b) <==> !Clashing(ClaimOf(s, a), ClaimOf(s, b))
  {
  }

  lemma SnapshotImpliesConsistent(s: Schema, entries: seq<Binding>, bindings: Table, name: string, draft: Binding)
    requires BindingsDecode(bindings) && Lists(entries, bindings, name) && draft.obj.name == name
    requires SnapshotCompiles(s, name, draft, bindings)
    ensures Consistent(s, entries + [draft])
  {
    var all := entries + [draft];
    forall i | 0 <= i < |entries| ensures Compatible(s, entries[i], draft) {
      assert Compatible(s, bindings[PublishedBinding(entries[i].obj.name)].binding, draft);
    }
    assert AllCompile(s, all);
    forall i, j | 0 <= i < j < |all| ensures !Clashing(ClaimOf(s, all[i]), ClaimOf(s, all[j])) {
      if j < |entries| {
        assert Compatible(s, bindings[PublishedBinding(entries[i].obj.name)].binding,
                          bindings[PublishedBinding(entries[j].obj.name)].binding);
      }
      CompatibleIffApart(s, all[i], all[j]);
    }
  }

  lemma ConsistentPair(s: Schema, entries: seq<Binding>, i: nat, j: nat)
    requires Consistent(s, entries) && i < |entries| && j < |entries| && entries[i].obj.name != entries[j].obj.name
    ensures Compatible(s, entries[i], entries[j])
  {
    var claims := ClaimsOf(s, entries);
    assert i < j ==> !Clashing(claims[i], claims[j]);
    assert j < i ==> !Clashing(claims[j], claims[i]);
    CompatibleIffApart(s, entries[i], entries[j]);
  }

  lemma ConsistentImpliesSnapshot(s: Schema, entries: seq<Binding>, bindings: Table, name: string, draft: Binding)
    requires BindingsDecode(bindings) && Lists(entries, bindings, name) && draft.obj.name == name
    requires Consistent(s, entries + [draft])
    ensures SnapshotCompiles(s, name, draft, bindings)
  {
    var all := entries + [draft];
    assert all[|entries|] == draft && forall i | 0 <= i < |entries| :: all[i] == entries[i];
    forall k | k in bindings && k.name != name ensures Compatible(s, bindings[k].binding, draft) {
      var i :| 0 <= i < |entries| && entries[i] == bindings[k].binding;
      ConsistentPair(s, all, i, |entries|);
    }
    forall k, l | k in bindings && l in bindings && k.name != name && l.name != name && k != l
      ensures Compatible(s, bindings[k].binding, bindings[l].binding)
    {
      var i :| 0 <= i < |entries| && entries[i] == bindings[k].binding;
      var j :| 0 <= j < |entries| && entries[j] == bindings[l].binding;
      ConsistentPair(s, all, i, j);
    }
    assert CompileBinding(s, all[|entries|]).Some?;
  }

  // The published namespace in the order etcd lists it.
  ghost predicate ListsAll(published: seq<Binding>, bindings: Table)
    requires BindingsDecode(bindings)
  {
    && (forall b | b in published :: PublishedBinding(b.obj.name) in bindings && bindings[PublishedBinding(b.obj.name)].binding == b)
    && (forall k | k in bindings :: bindings[k].binding in published)
    && (forall i, j | 0 <= i < j < |published| :: published[i].obj.name != published[j].obj.name)
  }

  method OtherBindings(published: seq<Binding>, name: string, ghost bindings: Table) returns (entries: seq<Binding>)
    requires BindingsDecode(bindings) && ListsAll(published, bindings)
    ensures Lists(entries, bindings, name)
  {
    entries := [];
    for n := 0 to |published|
      invariant forall i | 0 <= i < |entries| :: entries[i].obj.name != name && entries[i] in published[..n]
      invariant forall i, j | 0 <= i < j < |entries| :: entries[i].obj.name != entries[j].obj.name
      invariant forall b | b in published[..n] && b.obj.name != name :: b in entries
    {
      assert published[..n + 1] == published[..n] + [published[n]];
      ghost var earlier := entries;
      if published[n].obj.name != name {
        assert forall i | 0 <= i < |entries| :: entries[i].obj.name != published[n].obj.name;
        entries := entries + [published[n]];
        assert entries[|earlier|] == published[n];
      }
      assert forall b | b in earlier :: b in entries;
    }
    forall k | k in bindings && k.name != name
      ensures exists i | 0 <= i < |entries| :: entries[i] == bindings[k].binding
    {
      assert bindings[k].binding in published[..|published|];
      assert bindings[k].binding in entries;
    }
  }

  /**
   The candidate of a publish: the published bindings with this one replaced by
   its draft are compiled together, and the draft's entry is the candidate.
   */
  method CompilePublishCandidate(s: Schema, name: string, draft: Binding, published: seq<Binding>, ghost bindings: Table)
    returns (candidate: Option<CompiledBinding>)
    requires Sound(s) && draft.obj.name == name && BindingsDecode(bindings) && ListsAll(published, bindings)
    ensures candidate.Some? <==> SnapshotCompiles(s, name, draft, bindings)
    ensures candidate.Some? ==> candidate == CompileBinding(s, draft)
  {
    var entries := OtherBindings(published, name, bindings);
    if SnapshotCompiles(s, name, draft, bindings) {
      SnapshotImpliesConsistent(s, entries, bindings, name, draft);
    }
    var compiled := CompileSnapshot(s, entries + [draft]);
    if compiled.None? {
      return None;
    }
    ConsistentImpliesSnapshot(s, entries, bindings, name, draft);
    for n := 0 to |compiled.value|
      invariant n <= |entries|
    {
      assert Some(compiled.value[n]) == CompileBinding(s, (entries + [draft])[n]);
      if compiled.value[n].obj.name == name {
        return Some(compiled.value[n]);
      }
    }
    assert false;
  }

  // -------------------------------------------------------------- legacy conflicts

  datatype Keyed = Keyed(key: Key, route: Route)

  predicate Clash(s: Schema, candidate: Keyed, other: Keyed) {
    candidate.key != other.key && Conflicts(s, candidate.route, other.route)
  }

  method FindLegacyRuntimeRouteConflict(s: Schema, candidates: seq<Keyed>, existing: seq<Keyed>) returns (conflict: bool)
    ensures conflict <==>
            || (exists i, j | 0 <= i < |candidates| && 0 <= j < |existing| :: Clash(s, candidates[i], existing[j]))
            || (exists i, j | 0 <= j < i < |candidates| :: Clash(s, candidates[i], candidates[j]))
  {
    var seen := existing;
    for n := 0 to |candidates|
      invariant seen == existing + candidates[..n]
      invariant forall i, j | 0 <= i < n && 0 <= j < |existing| :: !Clash(s, candidates[i], existing[j])
      invariant forall i, j | 0 <= j < i < n :: !Clash(s, candidates[i], candidates[j])
    {
      for m := 0 to |seen|
        invariant forall j | 0 <= j < m :: !Clash(s, candidates[n], seen[j])
      {
        if Clash(s, candidates[n], seen[m]) {
          assert m < |existing| ==> seen[m] == existing[m];
          assert m >= |existing| ==> seen[m] == candidates[m - |existing|];
          return true;
        }
      }
      assert forall j | 0 <= j < |existing| :: seen[j] == existing[j];
      assert forall j | 0 <= j < n :: seen[|existing| + j] == candidates[j];
      seen := seen + [candidates[n]];
    }
    return false;
  }

  ghost predicate ListsRoutes(list: seq<Keyed>, routes: map<Key, Route>) {
    && (forall i | 0 <= i < |list| :: Lookup(routes, list[i].key) == Some(list[i].route))
    && (forall k | k in routes :: exists i | 0 <= i < |list| :: list[i] == Keyed(k, routes[k]))
    && (forall i, j | 0 <= i < j < |list| :: list[i].key != list[j].key)
  }

  // The candidates come in the order of their keys.
  ghost predicate Sorted(s: Schema, list: seq<Keyed>) {
    forall i, j | 0 <= i < j < |list| :: s.before(list[i].key, list[j].key)
  }

  ghost predicate ListFree(s: Schema, cs: seq<Keyed>, es: seq<Keyed>) {
    && (forall i, j | 0 <= i < |cs| && 0 <= j < |es| :: !Clash(s, cs[i], es[j]))
    && (forall i, j | 0 <= j < i < |cs| :: !Clash(s, cs[i], cs[j]))
  }

  lemma FreeListHasNoConflict(s: Schema, candidates: map<Key, Route>, existing: map<Key, Route>, cs: seq<Keyed>, es: seq<Keyed>)
    requires Sound(s) && ListsRoutes(cs, candidates) && ListsRoutes(es, existing) && Sorted(s, cs) && ListFree(s, cs, es)
    ensures NoLegacyConflict(s, candidates, existing)
  {
    forall k, l | k in candidates && l in existing && k != l ensures !Conflicts(s, candidates[k], existing[l]) {
      var i :| 0 <= i < |cs| && cs[i] == Keyed(k, candidates[k]);
      var j :| 0 <= j < |es| && es[j] == Keyed(l, existing[l]);
      assert !Clash(s, cs[i], es[j]);
    }
    forall k, l | k in candidates && l in candidates && k != l && s.before(l, k) ensures !Conflicts(s, candidates[k], candidates[l]) {
      var i :| 0 <= i < |cs| && cs[i] == Keyed(k, candidates[k]);
      var j :| 0 <= j < |cs| && cs[j] == Keyed(l, candidates[l]);
      assert i < j ==> s.before(k, l);
      assert j < i ==> !Clash(s, cs[i], cs[j]);
    }
  }

  lemma NoConflictIsFree(s: Schema, candidates: map<Key, Route>, existing: map<Key, Route>, cs: seq<Keyed>, es: seq<Keyed>)
    requires ListsRoutes(cs, candidates) && ListsRoutes(es, existing) && Sorted(s, cs) && NoLegacyConflict(s, candidates, existing)
    ensures ListFree(s, cs, es)
  {
    forall i, j | 0 <= i < |cs| && 0 <= j < |es| ensures !Clash(s, cs[i], es[j]) {
      assert Lookup(candidates, cs[i].key).Some? && Lookup(existing, es[j].key).Some?;
    }
    forall i, j | 0 <= j < i < |cs| ensures !Clash(s, cs[i], cs[j]) {
      assert Lookup(candidates, cs[i].key).Some? && Lookup(candidates, cs[j].key).Some?;
      assert s.before(cs[j].key, cs[i].key);
    }
  }

  /** The nested scan over the sorted candidates decides the condition of the protocol, whatever order the existing routes are in. */
  lemma ScanDecidesConflict(s: Schema, candidates: map<Key, Route>, existing: map<Key, Route>, cs: seq<Keyed>, es: seq<Keyed>)
    requires Sound(s) && ListsRoutes(cs, candidates) && ListsRoutes(es, existing) && Sorted(s, cs)
    ensures NoLegacyConflict(s, candidates, existing) <==> ListFree(s, cs, es)
  {
    if ListFree(s, cs, es) {
      FreeListHasNoConflict(s, candidates, existing, cs, es);
    } else if NoLegacyConflict(s, candidates, existing) {
      NoConflictIsFree(s, candidates, existing, cs, es);
    }
  }

  /** So the loop as the code runs it refuses exactly what the protocol's transaction refuses. */
  method CheckLegacyConflict(s: Schema, cs: seq<Keyed>, es: seq<Keyed>, ghost candidates: map<Key, Route>, ghost existing: map<Key, Route>)
    returns (free: bool)
    requires Sound(s) && ListsRoutes(cs, candidates) && ListsRoutes(es, existing) && Sorted(s, cs)
    ensures free <==> NoLegacyConflict(s, candidates, existing)
  {
    var conflict := FindLegacyRuntimeRouteConflict(s, cs, es);
    ScanDecidesConflict(s, candidates, existing, cs, es);
    free := !conflict;
  }
}
