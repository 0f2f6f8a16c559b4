/**
 Building a route snapshot: one trie per method, and one candidate list per
 route identity that the trie nodes point to.
 */
module RouteSnapshot {
  import opened Options
  import opened RouteIdentity
  import opened RouteTrie

  // A configured route; `action` stands for what it does, `headers` for its compiled header matchers.
  datatype Router = Router(path: string, prefix: string, methods: seq<string>, headers: nat, action: nat)

  datatype Candidate = Candidate(headers: nat, action: nat)

  // The first candidate is kept apart from the others, which most routes do not have.
  datatype Candidates = Candidates(first: Option<Candidate>, additional: seq<Candidate>, count: nat)

  const NO_CANDIDATES := Candidates(None, [], 0)

  ghost predicate Counts(c: Candidates) {
    c.count == (if c.first.Some? then 1 + |c.additional| else 0) && (c.first.None? ==> c.additional == [])
  }

  function Add(c: Candidates, x: Candidate): Candidates {
    if c.count == 0 then Candidates(Some(x), c.additional, 1) else c.(additional := c.additional + [x], count := c.count + 1)
  }

  // The candidates in the order ForEach visits them.
  function Visited(c: Candidates): seq<Candidate> {
    if c.first.Some? then [c.first.value] + c.additional else []
  }

  lemma AddVisitsLast(c: Candidates, x: Candidate)
    requires Counts(c)
    ensures Counts(Add(c, x)) && Visited(Add(c, x)) == Visited(c) + [x]
  {}

  predicate IsHeaderOnly(r: Router) {
    r.path == "" && r.prefix == "" && r.headers > 0
  }

  const METHODS := ["GET", "POST", "PUT", "DELETE", "PATCH", "OPTIONS", "HEAD"]

  function MethodsOf(r: Router): seq<string> {
    if r.methods == [] then METHODS else r.methods
  }

  // ------------------------------------------------------------------- trie keys

  // A path without its query, scheme and authority.
  type Clean = string -> string

  function TrieKey(m: string, path: string): string {
    var key := if path != "" && path[0] == '/' then m + path else m + "/" + path;
    if key[|key| - 1] == '/' then key[..|key| - 1] else key
  }

  function AllBelow(prefix: string): string
    requires prefix != ""
  {
    (if prefix[|prefix| - 1] == '/' then prefix else prefix + "/") + "**"
  }

  function KeyOf(clean: Clean, m: string, r: Router): string {
    TrieKey(m, clean(if r.prefix != "" then AllBelow(r.prefix) else r.path))
  }

  // The segments that the trie splits a key into: leading slashes do not count.
  function TrieParts(key: string): seq<string> {
    Split(TrimSlashes(key))
  }

  function TrimSlashes(s: string): string {
    if s != "" && s[0] == '/' then TrimSlashes(s[1..]) else s
  }

  predicate Named(m: string) {
    m != "" && NoSlash(m)
  }

  /** A key starts with its method, so keys of different methods never have one identity. */
  lemma KeyStartsWithMethod(m: string, path: string)
    requires Named(m)
    ensures Split(TrieKey(m, path))[0] == m && TrieParts(TrieKey(m, path)) == Split(TrieKey(m, path))
  {
    var key := TrieKey(m, path);
    assert key == m || (|m| < |key| && key[..|m|] == m && key[|m|] == '/');
    if key == m {
      SplitNoSlash(key);
    } else {
      SplitAtSlash(key, |m|);
    }
    assert key[0] == m[0];
  }

  // ---------------------------------------------------------------- what is filed

  // One route under one of its methods.
  datatype Entry = Entry(m: string, key: string, candidate: Candidate)

  function EntriesOf(r: Router, clean: Clean, methods: seq<string>): (es: seq<Entry>)
    ensures |es| == |methods|
    ensures forall i | 0 <= i < |methods| :: es[i] == Entry(methods[i], KeyOf(clean, methods[i], r), Candidate(r.headers, r.action))
  {
    seq(|methods|, i requires 0 <= i < |methods| => Entry(methods[i], KeyOf(clean, methods[i], r), Candidate(r.headers, r.action)))
  }

  // All entries, in configuration order.
  function Entries(routes: seq<Router>, clean: Clean): seq<Entry> {
    if routes == [] then []
    else
      var r := routes[|routes| - 1];
      Entries(routes[..|routes| - 1], clean) + if IsHeaderOnly(r) then [] else EntriesOf(r, clean, MethodsOf(r))
  }

  // The candidates whose keys have the identity.
  function Filed(es: seq<Entry>, identity: string): seq<Candidate> {
    if es == [] then []
    else
      var e, before := es[|es| - 1], Filed(es[..|es| - 1], identity);
      if Identity(e.key) == identity then before + [e.candidate] else before
  }

  // The entry's key leads to this node of this method's trie.
  predicate IsOn(e: Entry, m: string, w: seq<Edge>) {
    e.m == m && Walk(Split(e.key)) == w && Whole(Split(e.key))
  }

  // The candidates whose keys lead to the node.
  function OnNode(es: seq<Entry>, m: string, w: seq<Edge>): seq<Candidate> {
    if es == [] then []
    else
      var e, before := es[|es| - 1], OnNode(es[..|es| - 1], m, w);
      if IsOn(e, m, w) then before + [e.candidate] else before
  }

  // The identity of the entries on the node.
  function NodeId(es: seq<Entry>, m: string, w: seq<Edge>): Option<string> {
    if es == [] then None
    else if IsOn(es[|es| - 1], m, w) then Some(Identity(es[|es| - 1].key))
    else NodeId(es[..|es| - 1], m, w)
  }

  predicate Keyed(e: Entry) {
    Named(e.m) && Split(e.key)[0] == e.m && TrieParts(e.key) == Split(e.key)
  }

  predicate AllKeyed(es: seq<Entry>) {
    forall i | 0 <= i < |es| :: Keyed(es[i])
  }

  // Beside an entry on a node, the entries of its identity are those on the node.
  lemma SameIdentityIsSameNode(e: Entry, f: Entry, m: string, w: seq<Edge>)
    requires Keyed(e) && Keyed(f) && IsOn(e, m, w)
    ensures Identity(f.key) == Identity(e.key) <==> IsOn(f, m, w)
  {
    IdentityDecidesSegments(f.key, e.key);
    if Split(f.key)[0] == Split(e.key)[0] {
      IdentityIsWalkAndRest(f.key, e.key);
    }
  }

  lemma {:induction false} NodeIdIsOfEntry(es: seq<Entry>, m: string, w: seq<Edge>) returns (i: nat)
    requires NodeId(es, m, w).Some?
    ensures i < |es| && IsOn(es[i], m, w) && NodeId(es, m, w) == Some(Identity(es[i].key))
  {
    if IsOn(es[|es| - 1], m, w) {
      i := |es| - 1;
    } else {
      i := NodeIdIsOfEntry(es[..|es| - 1], m, w);
    }
  }

  lemma {:induction false} NodeIdIff(es: seq<Entry>, m: string, w: seq<Edge>)
    ensures NodeId(es, m, w).Some? <==> OnNode(es, m, w) != []
  {
    if es != [] {
      NodeIdIff(es[..|es| - 1], m, w);
    }
  }

  lemma {:induction false} FiledIsOnNode(es: seq<Entry>, e: Entry, m: string, w: seq<Edge>)
    requires AllKeyed(es) && Keyed(e) && IsOn(e, m, w)
    ensures Filed(es, Identity(e.key)) == OnNode(es, m, w)
  {
    if es != [] {
      FiledIsOnNode(es[..|es| - 1], e, m, w);
      SameIdentityIsSameNode(e, es[|es| - 1], m, w);
    }
  }

  /** The list that a node points to holds exactly the routes whose keys lead to the node, in configuration order. */
  lemma CandidatesAreOnNode(es: seq<Entry>, m: string, w: seq<Edge>)
    requires AllKeyed(es)
    ensures NodeId(es, m, w).Some? <==> OnNode(es, m, w) != []
    ensures NodeId(es, m, w).Some? ==> Filed(es, NodeId(es, m, w).value) == OnNode(es, m, w)
  {
    NodeIdIff(es, m, w);
    if NodeId(es, m, w).Some? {
      var i := NodeIdIsOfEntry(es, m, w);
      FiledIsOnNode(es, es[i], m, w);
    }
  }

  /** A route with a match-all segment before its end is on no node: requests never reach its candidates. */
  lemma BrokenKeyIsOnNoNode(es: seq<Entry>, e: Entry, m: string, w: seq<Edge>)
    requires AllKeyed(es) && Keyed(e)
    requires exists i | 0 <= i < |Split(e.key)| - 1 :: EdgeOf(Split(e.key)[i]).MatchAll?
    ensures NodeId(es, m, w) != Some(Identity(e.key))
  {
    WholeIff(Split(e.key));
    if NodeId(es, m, w) == Some(Identity(e.key)) {
      var i := NodeIdIsOfEntry(es, m, w);
      SameIdentityIsSameNode(es[i], e, m, w);
    }
  }

  // -------------------------------------------------------------------- building

  function At(table: map<string, Candidates>, identity: string): Candidates {
    if identity in table then table[identity] else NO_CANDIDATES
  }

  ghost predicate GroupIs(table: map<string, Candidates>, identity: string, list: seq<Candidate>) {
    Counts(At(table, identity)) && Visited(At(table, identity)) == list
  }

  ghost predicate TableIs(table: map<string, Candidates>, es: seq<Entry>) {
    forall identity :: GroupIs(table, identity, Filed(es, identity))
  }

  function TrieOf(tries: map<string, Node>, m: string): Node {
    if m in tries then tries[m] else EMPTY
  }

  // One method's trie with its entries put one after the other.
  function Folded(es: seq<Entry>, m: string): Node {
    if es == [] then EMPTY
    else
      var e, before := es[|es| - 1], Folded(es[..|es| - 1], m);
      if e.m == m then Put(before, TrieParts(e.key), Identity(e.key)).0 else before
  }

  ghost predicate TriesFold(tries: map<string, Node>, es: seq<Entry>) {
    forall m :: TrieOf(tries, m) == Folded(es, m)
  }

  // The node points to its entries' list, and no put ended there without leaving one.
  ghost predicate NodeIs(trie: Node, es: seq<Entry>, m: string, w: seq<Edge>) {
    InfoAt(trie, w) == NodeId(es, m, w) && (EndAt(trie, w) ==> NodeId(es, m, w).Some?)
  }

  ghost predicate TriesAre(tries: map<string, Node>, es: seq<Entry>) {
    forall m, w :: NodeIs(TrieOf(tries, m), es, m, w)
  }

  lemma TableGrows(table: map<string, Candidates>, es: seq<Entry>, e: Entry)
    requires TableIs(table, es)
    ensures TableIs(table[Identity(e.key) := Add(At(table, Identity(e.key)), e.candidate)], es + [e])
  {
    var id := Identity(e.key);
    var next := table[id := Add(At(table, id), e.candidate)];
    var more := es + [e];
    assert more[..|es|] == es;
    forall identity ensures GroupIs(next, identity, Filed(more, identity)) {
      assert GroupIs(table, identity, Filed(es, identity));
      if identity == id {
        AddVisitsLast(At(table, id), e.candidate);
      }
    }
  }

  lemma NodeGrows(trie: Node, es: seq<Entry>, e: Entry, m: string, w: seq<Edge>)
    requires AllKeyed(es) && Keyed(e) && NodeIs(trie, es, m, w)
    ensures NodeIs(if m == e.m then Put(trie, Split(e.key), Identity(e.key)).0 else trie, es + [e], m, w)
  {
    var more := es + [e];
    assert more[..|es|] == es;
    if m == e.m {
      PutWritesOneNode(trie, Split(e.key), Identity(e.key), w);
      if IsOn(e, m, w) && EndAt(trie, w) {
        var i := NodeIdIsOfEntry(es, m, w);
        SameIdentityIsSameNode(es[i], e, m, w);
      }
    }
  }

  lemma FoldGrows(tries: map<string, Node>, es: seq<Entry>, e: Entry)
    requires TriesFold(tries, es)
    ensures TriesFold(tries[e.m := Put(TrieOf(tries, e.m), TrieParts(e.key), Identity(e.key)).0], es + [e])
  {
    assert (es + [e])[..|es|] == es;
    assert TrieOf(tries, e.m) == Folded(es, e.m);
    forall m | m != e.m
      ensures TrieOf(tries[e.m := Put(TrieOf(tries, e.m), TrieParts(e.key), Identity(e.key)).0], m) == Folded(es + [e], m)
    {
      assert TrieOf(tries, m) == Folded(es, m);
    }
  }

  lemma TriesGrow(tries: map<string, Node>, es: seq<Entry>, e: Entry)
    requires AllKeyed(es) && Keyed(e) && TriesAre(tries, es)
    ensures TriesAre(tries[e.m := Put(TrieOf(tries, e.m), TrieParts(e.key), Identity(e.key)).0], es + [e])
  {
    var next := tries[e.m := Put(TrieOf(tries, e.m), TrieParts(e.key), Identity(e.key)).0];
    forall m, w ensures NodeIs(TrieOf(next, m), es + [e], m, w) {
      assert NodeIs(TrieOf(tries, m), es, m, w);
      NodeGrows(TrieOf(tries, m), es, e, m, w);
    }
  }

  function HeaderOnly(routes: seq<Router>): seq<Router> {
    if routes == [] then []
    else
      var r := routes[|routes| - 1];
      if IsHeaderOnly(r) then HeaderOnly(routes[..|routes| - 1]) + [r] else HeaderOnly(routes[..|routes| - 1])
  }

  /**
   Every route is filed under each of its methods, or under the seven usual ones
   if it names none; a route with headers but neither path nor prefix is kept apart instead.
   */
  lemma {:induction false} RouteIsFiled(routes: seq<Router>, clean: Clean, r: Router, m: string)
    requires r in routes
    requires m in r.methods || (r.methods == [] && m in ["GET", "POST", "PUT", "DELETE", "PATCH", "OPTIONS", "HEAD"])
    ensures if r.path == "" && r.prefix == "" && r.headers > 0 then r in HeaderOnly(routes)
            else Entry(m, KeyOf(clean, m, r), Candidate(r.headers, r.action)) in Entries(routes, clean)
  {
    var init, last := routes[..|routes| - 1], routes[|routes| - 1];
    assert routes == init + [last];
    if r in init {
      RouteIsFiled(init, clean, r, m);
    } else if !IsHeaderOnly(r) {
      var j :| 0 <= j < |MethodsOf(r)| && MethodsOf(r)[j] == m;
      assert EntriesOf(r, clean, MethodsOf(r))[j] in Entries(routes, clean);
    }
  }

  /** Nothing else is filed. */
  lemma {:induction false} FiledIsRoute(routes: seq<Router>, clean: Clean, e: Entry) returns (r: Router)
    requires e in Entries(routes, clean)
    ensures r in routes && (r.path != "" || r.prefix != "" || r.headers == 0) && (r.methods != [] ==> e.m in r.methods) && e.m in MethodsOf(r)
    ensures e == Entry(e.m, KeyOf(clean, e.m, r), Candidate(r.headers, r.action))
  {
    var init, last := routes[..|routes| - 1], routes[|routes| - 1];
    if e in Entries(init, clean) {
      r := FiledIsRoute(init, clean, e);
    } else {
      var es := EntriesOf(last, clean, MethodsOf(last));
      var j :| 0 <= j < |es| && es[j] == e;
      assert MethodsOf(last)[j] == e.m;
      r := last;
    }
  }

  predicate NamedMethods(routes: seq<Router>) {
    forall i, j | 0 <= i < |routes| && 0 <= j < |MethodsOf(routes[i])| :: Named(MethodsOf(routes[i])[j])
  }

  // What the loops have built from the entries so far.
  ghost predicate Built(table: map<string, Candidates>, tries: map<string, Node>, es: seq<Entry>) {
    TableIs(table, es) && TriesFold(tries, es) && (AllKeyed(es) ==> TriesAre(tries, es))
  }

  lemma BuiltGrows(table: map<string, Candidates>, tries: map<string, Node>, es: seq<Entry>, e: Entry)
    requires Built(table, tries, es)
    ensures var id := Identity(e.key);
            Built(table[id := Add(At(table, id), e.candidate)],
                  tries[e.m := Put(TrieOf(tries, e.m), TrieParts(e.key), id).0], es + [e])
  {
    TableGrows(table, es, e);
    FoldGrows(tries, es, e);
    if AllKeyed(es + [e]) {
      assert Keyed((es + [e])[|es|]);
      assert forall i | 0 <= i < |es| :: (es + [e])[i] == es[i];
      TriesGrow(tries, es, e);
    }
  }

  method AddEntry(e: Entry, table: map<string, Candidates>, tries: map<string, Node>, ghost es: seq<Entry>)
    returns (nextTable: map<string, Candidates>, nextTries: map<string, Node>)
    requires Built(table, tries, es)
    ensures Built(nextTable, nextTries, es + [e])
  {
    var identity := TrieRouteIdentity(e.key);
    BuiltGrows(table, tries, es, e);
    nextTries := tries[e.m := Put(TrieOf(tries, e.m), TrieParts(e.key), identity).0];
    nextTable := table[identity := Add(At(table, identity), e.candidate)];
  }

  method AddRoute(r: Router, clean: Clean, table: map<string, Candidates>, tries: map<string, Node>, ghost es: seq<Entry>)
    returns (nextTable: map<string, Candidates>, nextTries: map<string, Node>)
    requires Built(table, tries, es)
    ensures Built(nextTable, nextTries, es + EntriesOf(r, clean, MethodsOf(r)))
  {
    nextTable, nextTries := table, tries;
    var methods := MethodsOf(r);
    var added := EntriesOf(r, clean, methods);
    assert es + added[..0] == es;
    for i := 0 to |methods|
      invariant Built(nextTable, nextTries, es + added[..i])
    {
      nextTable, nextTries := AddEntry(added[i], nextTable, nextTries, es + added[..i]);
      assert (es + added[..i]) + [added[i]] == es + added[..i + 1];
    }
    assert added[..|methods|] == added;
  }

  lemma EmptyIsBuilt()
    ensures Built(map[], map[], [])
  {
    forall m, w ensures NodeIs(TrieOf(map[], m), [], m, w) {
      if w != [] {
        NothingBelowEmpty(EMPTY, w);
      }
    }
  }

  lemma {:induction false} EntriesAreKeyed(routes: seq<Router>, clean: Clean)
    requires NamedMethods(routes)
    ensures AllKeyed(Entries(routes, clean))
  {
    if routes != [] {
      var init, r := routes[..|routes| - 1], routes[|routes| - 1];
      EntriesAreKeyed(init, clean);
      var es := EntriesOf(r, clean, MethodsOf(r));
      forall i | 0 <= i < |es| ensures Keyed(es[i]) {
        KeyStartsWithMethod(MethodsOf(r)[i], clean(if r.prefix != "" then AllBelow(r.prefix) else r.path));
      }
    }
  }

  // A node without routes points nowhere; any other points to the list of exactly its routes, in configuration order.
  ghost predicate ServesNode(table: map<string, Candidates>, trie: Node, es: seq<Entry>, m: string, w: seq<Edge>) {
    && InfoAt(trie, w) == NodeId(es, m, w)
    && (InfoAt(trie, w).Some? <==> OnNode(es, m, w) != [])
    && (InfoAt(trie, w).Some? ==> Visited(At(table, InfoAt(trie, w).value)) == OnNode(es, m, w))
  }

  lemma BuiltServes(table: map<string, Candidates>, tries: map<string, Node>, es: seq<Entry>)
    requires Built(table, tries, es) && AllKeyed(es)
    ensures forall m, w :: ServesNode(table, TrieOf(tries, m), es, m, w)
  {
    forall m, w ensures ServesNode(table, TrieOf(tries, m), es, m, w) {
      assert NodeIs(TrieOf(tries, m), es, m, w);
      CandidatesAreOnNode(es, m, w);
      if NodeId(es, m, w).Some? {
        assert GroupIs(table, NodeId(es, m, w).value, Filed(es, NodeId(es, m, w).value));
      }
    }
  }

  /** ToSnapshot: every node of every method's trie serves exactly the routes that lead to it, in configuration order. */
  method ToSnapshot(routes: seq<Router>, clean: Clean)
    returns (table: map<string, Candidates>, tries: map<string, Node>, headerOnly: seq<Router>)
    ensures TableIs(table, Entries(routes, clean)) && TriesFold(tries, Entries(routes, clean))
    ensures NamedMethods(routes) ==> forall m, w :: ServesNode(table, TrieOf(tries, m), Entries(routes, clean), m, w)
    ensures headerOnly == HeaderOnly(routes)
  {
    table, tries, headerOnly := map[], map[], [];
    EmptyIsBuilt();
    for i := 0 to |routes|
      invariant Built(table, tries, Entries(routes[..i], clean))
      invariant headerOnly == HeaderOnly(routes[..i])
    {
      assert routes[..i + 1][..i] == routes[..i];
      if IsHeaderOnly(routes[i]) {
        headerOnly := headerOnly + [routes[i]];
        assert Entries(routes[..i], clean) + [] == Entries(routes[..i], clean);
      } else {
        table, tries := AddRoute(routes[i], clean, table, tries, Entries(routes[..i], clean));
      }
    }
    assert routes[..|routes|] == routes;
    if NamedMethods(routes) {
      EntriesAreKeyed(routes, clean);
      BuiltServes(table, tries, Entries(routes, clean));
    }
  }
}
