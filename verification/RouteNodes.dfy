/**
 What conflict freedom means for the gateway's router. The Admin's conflict key
 is the trie key with the verb in upper case and every variable replaced; the
 router puts each Method on the node that its trie key walks to.
 */
module RouteNodes {
  import opened Options
  import opened Etcd
  import opened RouteStore
  import opened RouteProtocol
  import opened RouteTheorems
  import opened RouteConflicts
  import RouteIdentity
  import RouteTrie
  import RouteSnapshot

  // Case folding, and the removal of query, scheme and authority from a path.
  datatype Text = Text(upper: string -> string, lower: string -> string, clean: string -> string)

  function RouterKey(t: Text, verb: string, path: string): string {
    RouteSnapshot.TrieKey(verb, t.clean(t.lower(path)))
  }

  function ConflictKey(t: Text, verb: string, path: string): string {
    RouteIdentity.ConflictForm(RouterKey(t, t.upper(verb), path))
  }

  ghost predicate UsesConflictKey(s: Schema, t: Text) {
    forall verb: string, path: string :: s.routeKey(verb, path) == ConflictKey(t, verb, path)
  }

  // The node of the router's trie that a route is put on, and the segments behind a match-all that the put never sees.
  function NodeOf(t: Text, r: Route): seq<RouteTrie.Edge> {
    RouteTrie.Walk(RouteIdentity.Split(RouterKey(t, r.verb, r.path)))
  }

  function UnseenOf(t: Text, r: Route): seq<string> {
    RouteTrie.Unseen(RouteIdentity.Split(RouterKey(t, r.verb, r.path)))
  }

  // ------------------------------------------------------------------ segments of a key

  // The path with one slash in front and without one at the end.
  function Bare(path: string): string {
    var rooted := if path != "" && path[0] == '/' then path else "/" + path;
    if rooted[|rooted| - 1] == '/' then rooted[..|rooted| - 1] else rooted
  }

  function Segments(path: string): seq<string> {
    if Bare(path) == "" then [] else RouteIdentity.Split(Bare(path)[1..])
  }

  lemma KeyIsBare(m: string, path: string)
    ensures RouteSnapshot.TrieKey(m, path) == m + Bare(path)
    ensures Bare(path) != "" ==> Bare(path)[0] == '/'
  {
    var rooted := if path != "" && path[0] == '/' then path else "/" + path;
    var long := if path != "" && path[0] == '/' then m + path else m + "/" + path;
    assert long == m + rooted && long[|long| - 1] == rooted[|rooted| - 1];
    assert long[..|long| - 1] == m + rooted[..|rooted| - 1];
  }

  lemma KeySegments(m: string, path: string)
    requires RouteIdentity.NoSlash(m)
    ensures RouteIdentity.Split(RouteSnapshot.TrieKey(m, path)) == [m] + Segments(path)
  {
    KeyIsBare(m, path);
    var bare, key := Bare(path), RouteSnapshot.TrieKey(m, path);
    if bare == "" {
      assert key == m;
      RouteIdentity.SplitNoSlash(m);
    } else {
      assert key[..|m|] == m && key[|m|] == '/' && key[|m| + 1..] == bare[1..];
      RouteIdentity.SplitAtSlash(key, |m|);
    }
  }

  lemma TailsDecideEdges(m: string, n: string, p: seq<string>, q: seq<string>)
    ensures RouteTrie.SameEdges([m] + p, [m] + q) <==> RouteTrie.SameEdges([n] + p, [n] + q)
  {
    assert forall i | 0 <= i < |p| :: ([m] + p)[i + 1] == p[i] && ([n] + p)[i + 1] == p[i];
    assert forall i | 0 <= i < |q| :: ([m] + q)[i + 1] == q[i] && ([n] + q)[i + 1] == q[i];
    assert RouteTrie.SameEdges([m] + p, [m] + q) <==> RouteTrie.SameEdges(p, q) by { EdgesOfTail(m, p, q); }
    assert RouteTrie.SameEdges([n] + p, [n] + q) <==> RouteTrie.SameEdges(p, q) by { EdgesOfTail(n, p, q); }
  }

  lemma EdgesOfTail(m: string, p: seq<string>, q: seq<string>)
    ensures RouteTrie.SameEdges([m] + p, [m] + q) <==> RouteTrie.SameEdges(p, q)
  {
    var a, b := [m] + p, [m] + q;
    if RouteTrie.SameEdges(a, b) {
      forall i | 0 <= i < |p| ensures |p| == |q| && RouteTrie.EdgeOf(p[i]) == RouteTrie.EdgeOf(q[i]) {
        assert a[i + 1] == p[i] && b[i + 1] == q[i];
      }
    }
  }

  /** Two routes of one verb have one conflict key exactly when their trie keys have the same edges throughout. */
  lemma ConflictIsSameEdges(t: Text, verb: string, path: string, other: string)
    requires RouteIdentity.NoSlash(verb) && RouteIdentity.NoSlash(t.upper(verb))
    ensures ConflictKey(t, verb, path) == ConflictKey(t, verb, other) <==>
            RouteTrie.SameEdges(RouteIdentity.Split(RouterKey(t, verb, path)), RouteIdentity.Split(RouterKey(t, verb, other)))
  {
    var up := t.upper(verb);
    var a, b := RouterKey(t, up, path), RouterKey(t, up, other);
    var x, y := Segments(t.clean(t.lower(path))), Segments(t.clean(t.lower(other)));
    KeySegments(verb, t.clean(t.lower(path)));
    KeySegments(verb, t.clean(t.lower(other)));
    KeySegments(up, t.clean(t.lower(path)));
    KeySegments(up, t.clean(t.lower(other)));
    RouteIdentity.IdentityDecidesSegments(a, b);
    RouteTrie.IdentityDecidesEdges(a, b);
    TailsDecideEdges(verb, up, x, y);
  }

  // --------------------------------------------------------------------- nodes in runs

  /**
   In every run of steady commits, two runtime Methods of one verb are put on
   different nodes of the router's trie, unless their keys differ only behind a
   match-all segment.
   */
  lemma RoutesHaveTheirOwnNodes(s: Schema, t: Text, sys: System, actions: seq<Action>, k: Key, l: Key)
    requires Sound(s) && Initial(sys) && Clear(s, sys.store) && SteadyRun(s, sys, actions) && UsesConflictKey(s, t)
    requires RuntimeDecodes(RuntimeTable(Run(s, sys, actions).store)) && k != l
    requires var routes := RuntimeRoutes(s, RuntimeTable(Run(s, sys, actions).store));
             && k in routes && l in routes && routes[k].verb == routes[l].verb
             && RouteIdentity.NoSlash(routes[k].verb) && RouteIdentity.NoSlash(t.upper(routes[k].verb))
    ensures var routes := RuntimeRoutes(s, RuntimeTable(Run(s, sys, actions).store));
            NodeOf(t, routes[k]) != NodeOf(t, routes[l]) || !RouteTrie.SameEdges(UnseenOf(t, routes[k]), UnseenOf(t, routes[l]))
    ensures var routes := RuntimeRoutes(s, RuntimeTable(Run(s, sys, actions).store));
            UnseenOf(t, routes[k]) == [] && UnseenOf(t, routes[l]) == [] ==> NodeOf(t, routes[k]) != NodeOf(t, routes[l])
  {
    RoutesNeverConflict(s, sys, actions);
    var routes := RuntimeRoutes(s, RuntimeTable(Run(s, sys, actions).store));
    var a, b := routes[k], routes[l];
    ConflictIsSameEdges(t, a.verb, a.path, b.path);
    RouteTrie.EdgesDecideWalk(RouteIdentity.Split(RouterKey(t, a.verb, a.path)), RouteIdentity.Split(RouterKey(t, b.verb, b.path)));
  }

  /**
   A match-all segment in the middle does escape: routes that continue such a key
   with different segments share a node and have different conflict keys.
   */
  lemma ContinuedRoutesShareNode(t: Text, r: Route, q: Route, key: string, x: string, y: string)
    requires r.verb == q.verb && RouteIdentity.NoSlash(r.verb) && RouteIdentity.NoSlash(t.upper(r.verb))
    requires RouterKey(t, r.verb, r.path) == key + "/" + x && RouterKey(t, q.verb, q.path) == key + "/" + y
    requires RouteTrie.MatchAll in RouteTrie.Walk(RouteIdentity.Split(key))
    requires RouteIdentity.NoSlash(x) && RouteIdentity.NoSlash(y) && RouteTrie.EdgeOf(x) != RouteTrie.EdgeOf(y)
    ensures NodeOf(t, r) == NodeOf(t, q) && ConflictKey(t, r.verb, r.path) != ConflictKey(t, q.verb, q.path)
    ensures UnseenOf(t, r) != [] && UnseenOf(t, q) != []
  {
    RouteTrie.ContinuedMatchAllSharesNode(key, x, y);
    ConflictIsSameEdges(t, r.verb, r.path, q.path);
    RouteTrie.IdentityDecidesEdges(key + "/" + x, key + "/" + y);
    RouteTrie.SplitAppend(key, x);
    RouteTrie.SplitAppend(key, y);
    RouteTrie.WalkOfLonger(RouteIdentity.Split(key), [x]);
    RouteTrie.WalkOfLonger(RouteIdentity.Split(key), [y]);
  }

  // ------------------------------------------------------------------------- verbs

  /**
   With this key, a route whose verb has no slash is stored with a key that the
   check looks up only if it is stable, which is what StableStagingIsExact asks.
   */
  lemma LookedUpVerbIsTrimmed(s: Schema, t: Text, candidate: Route, stored: Route)
    requires UsesConflictKey(s, t) && CheckedKey(s, candidate) == KeyOf(s, stored)
    requires RouteIdentity.NoSlash(t.upper(s.trim(candidate.verb))) && RouteIdentity.NoSlash(t.upper(stored.verb))
    requires forall v: string :: s.trim(t.upper(v)) == t.upper(s.trim(v)) && s.trim(s.trim(v)) == s.trim(v)
    ensures Stable(s, stored)
  {
    var v, w := s.trim(candidate.verb), stored.verb;
    var a, b := RouterKey(t, t.upper(v), candidate.path), RouterKey(t, t.upper(w), stored.path);
    assert RouteIdentity.ConflictForm(a) == RouteIdentity.ConflictForm(b);
    RouteIdentity.IdentityDecidesSegments(a, b);
    KeySegments(t.upper(v), t.clean(t.lower(candidate.path)));
    KeySegments(t.upper(w), t.clean(t.lower(stored.path)));
    assert RouteIdentity.Split(a)[0] == RouteIdentity.Split(b)[0];
    assert t.upper(v) == t.upper(w);
    assert t.upper(s.trim(w)) == s.trim(t.upper(w)) == s.trim(t.upper(v)) == t.upper(s.trim(v)) == t.upper(v);
  }
}
