/**
 Finding the route of a request: the search in the tries of a route snapshot,
 against the patterns it tries in turn and the routes that were configured.
 */
module RouteMatch {
  import opened Options
  import opened RouteIdentity
  import opened RouteTrie
  import opened RouteSnapshot

  // ------------------------------------------------------------------ the search

  // A node that a predicate accepts.
  function Accepted(n: Option<Node>, accepts: Node -> bool): Option<Node> {
    if n.Some? && accepts(n.value) then n else None
  }

  // The same, if a key ends there.
  function AcceptedEnd(n: Option<Node>, accepts: Node -> bool): Option<Node> {
    if n.Some? && n.value.endOfPath then Accepted(n, accepts) else None
  }

  // Node.matchAll: the match-all node of the segment's child, then the node's own.
  function AcceptedAll(n: Node, key: string, accepts: Node -> bool): Option<Node> {
    var child := Lookup(n.children, key);
    Or(if child.Some? then Accepted(child.value.matchAll, accepts) else None, Accepted(n.matchAll, accepts))
  }

  /** Node.match: literal before variable before match-all, at every level, until a node is accepted. */
  function Match(n: Node, parts: seq<string>, accepts: Node -> bool): Option<Node>
    requires parts != []
    decreases |parts|
  {
    var child := Lookup(n.children, parts[0]);
    if |parts| == 1 then
      Or(AcceptedEnd(child, accepts), Or(AcceptedEnd(n.variable, accepts), AcceptedAll(n, parts[0], accepts)))
    else
      Or(if child.Some? then Match(child.value, parts[1..], accepts) else None,
         Or(if n.variable.Some? then Match(n.variable.value, parts[1..], accepts) else None,
            AcceptedAll(n, parts[0], accepts)))
  }

  // ---------------------------------------------------------- the patterns in turn

  type Pattern = seq<Edge>

  function Under(e: Edge, ps: seq<Pattern>): (under: seq<Pattern>)
    ensures |under| == |ps| && forall i | 0 <= i < |ps| :: under[i] == [e] + ps[i]
  {
    seq(|ps|, i requires 0 <= i < |ps| => [e] + ps[i])
  }

  // The patterns that the segments of a request are tried with, in order.
  function Patterns(parts: seq<string>): (ps: seq<Pattern>)
    requires parts != []
    ensures forall i | 0 <= i < |ps| :: ps[i] != []
    decreases |parts|
  {
    var literal := Literal(parts[0]);
    (if |parts| == 1 then [[literal], [Variable]]
     else Under(literal, Patterns(parts[1..])) + Under(Variable, Patterns(parts[1..])))
    + [[literal, MatchAll], [MatchAll]]
  }

  function NodeAt(n: Node, w: Pattern): Option<Node> {
    if w == [] then Some(n) else if Below(n, w[0]).Some? then NodeAt(Below(n, w[0]).value, w[1..]) else None
  }

  // The node of a pattern, if a key ends there and it is accepted; a match-all node needs no key to end there.
  function Yield(n: Node, w: Pattern, accepts: Node -> bool): Option<Node>
    requires w != []
  {
    if w[|w| - 1].MatchAll? then Accepted(NodeAt(n, w), accepts) else AcceptedEnd(NodeAt(n, w), accepts)
  }

  function FirstYield(n: Node, ps: seq<Pattern>, accepts: Node -> bool): Option<Node>
    requires forall i | 0 <= i < |ps| :: ps[i] != []
  {
    if ps == [] then None else Or(Yield(n, ps[0], accepts), FirstYield(n, ps[1..], accepts))
  }

  lemma {:induction false} FirstYieldConcat(n: Node, ps: seq<Pattern>, qs: seq<Pattern>, accepts: Node -> bool)
    requires forall i | 0 <= i < |ps| :: ps[i] != []
    requires forall i | 0 <= i < |qs| :: qs[i] != []
    ensures FirstYield(n, ps + qs, accepts) == Or(FirstYield(n, ps, accepts), FirstYield(n, qs, accepts))
  {
    if ps == [] {
      assert ps + qs == qs;
    } else {
      assert (ps + qs)[1..] == ps[1..] + qs;
      FirstYieldConcat(n, ps[1..], qs, accepts);
    }
  }

  lemma YieldUnder(n: Node, e: Edge, w: Pattern, accepts: Node -> bool)
    requires w != []
    ensures Yield(n, [e] + w, accepts) == if Below(n, e).Some? then Yield(Below(n, e).value, w, accepts) else None
  {
    assert ([e] + w)[1..] == w;
  }

  lemma {:induction false} FirstYieldUnder(n: Node, e: Edge, ps: seq<Pattern>, accepts: Node -> bool)
    requires forall i | 0 <= i < |ps| :: ps[i] != []
    ensures FirstYield(n, Under(e, ps), accepts) == if Below(n, e).Some? then FirstYield(Below(n, e).value, ps, accepts) else None
  {
    if ps != [] {
      YieldUnder(n, e, ps[0], accepts);
      assert Under(e, ps)[1..] == Under(e, ps[1..]);
      FirstYieldUnder(n, e, ps[1..], accepts);
    }
  }

  lemma FirstYieldTwo(n: Node, v: Pattern, w: Pattern, accepts: Node -> bool)
    requires v != [] && w != []
    ensures FirstYield(n, [v, w], accepts) == Or(Yield(n, v, accepts), Yield(n, w, accepts))
  {
    assert [v, w][1..] == [w];
    assert FirstYield(n, [w], accepts) == Yield(n, w, accepts);
  }

  lemma YieldOne(n: Node, e: Edge, accepts: Node -> bool)
    ensures Yield(n, [e], accepts) == if e.MatchAll? then Accepted(Below(n, e), accepts) else AcceptedEnd(Below(n, e), accepts)
  {
    assert NodeAt(n, [e]) == Below(n, e);
  }

  lemma YieldAll(n: Node, key: string, accepts: Node -> bool)
    ensures FirstYield(n, [[Literal(key), MatchAll], [MatchAll]], accepts) == AcceptedAll(n, key, accepts)
  {
    FirstYieldTwo(n, [Literal(key), MatchAll], [MatchAll], accepts);
    assert [Literal(key), MatchAll] == [Literal(key)] + [MatchAll];
    YieldUnder(n, Literal(key), [MatchAll], accepts);
    YieldOne(n, MatchAll, accepts);
    if Below(n, Literal(key)).Some? {
      YieldOne(Below(n, Literal(key)).value, MatchAll, accepts);
    }
  }

  /** The search returns the node of the first pattern, in the fixed order, that leads to an accepted one. */
  lemma {:induction false} MatchIsFirstYield(n: Node, parts: seq<string>, accepts: Node -> bool)
    requires parts != []
    ensures Match(n, parts, accepts) == FirstYield(n, Patterns(parts), accepts)
    decreases |parts|
  {
    var key := parts[0];
    var literal, all := Literal(key), [[Literal(key), MatchAll], [MatchAll]];
    YieldAll(n, key, accepts);
    if |parts| == 1 {
      FirstYieldConcat(n, [[literal], [Variable]], all, accepts);
      FirstYieldTwo(n, [literal], [Variable], accepts);
      YieldOne(n, literal, accepts);
      YieldOne(n, Variable, accepts);
    } else {
      var ps := Patterns(parts[1..]);
      FirstYieldConcat(n, Under(literal, ps) + Under(Variable, ps), all, accepts);
      FirstYieldConcat(n, Under(literal, ps), Under(Variable, ps), accepts);
      FirstYieldUnder(n, literal, ps, accepts);
      FirstYieldUnder(n, Variable, ps, accepts);
      if Lookup(n.children, key).Some? {
        MatchIsFirstYield(Lookup(n.children, key).value, parts[1..], accepts);
      }
      if n.variable.Some? {
        MatchIsFirstYield(n.variable.value, parts[1..], accepts);
      }
    }
  }

  // ------------------------------------------------------------ which patterns fit

  // An edge that one segment can take.
  predicate Takes(e: Edge, part: string) {
    e == Variable || e == Literal(part)
  }

  /**
   A pattern fits segments that it takes one by one. A match-all edge takes
   whatever is left, and behind a literal also nothing at all.
   */
  predicate Fits(w: Pattern, parts: seq<string>) {
    if w == [] then false
    else if w[|w| - 1].MatchAll? then
      var k := |w| - 1;
      && k <= |parts| && (forall i | 0 <= i < k :: Takes(w[i], parts[i]))
      && (k == |parts| ==> k > 0 && w[k - 1].Literal?)
    else |w| == |parts| && forall i | 0 <= i < |w| :: Takes(w[i], parts[i])
  }

  lemma FitsUnder(e: Edge, w: Pattern, parts: seq<string>)
    requires w != [] && |parts| > 1
    ensures Fits([e] + w, parts) <==> Takes(e, parts[0]) && Fits(w, parts[1..])
  {
    var v, rest := [e] + w, parts[1..];
    assert forall i | 0 <= i < |w| :: v[i + 1] == w[i];
    assert forall i | 0 < i < |v| :: v[i] == w[i - 1];
    assert forall i | 0 <= i < |rest| :: rest[i] == parts[i + 1];
    assert forall i | 0 < i < |parts| :: parts[i] == rest[i - 1];
  }

  lemma InUnder(e: Edge, ps: seq<Pattern>, w: Pattern)
    ensures w in Under(e, ps) <==> w != [] && w[0] == e && w[1..] in ps
  {
    if w in Under(e, ps) {
      var i :| 0 <= i < |ps| && Under(e, ps)[i] == w;
      assert w[1..] == ps[i];
    }
    if w != [] && w[0] == e && w[1..] in ps {
      var i :| 0 <= i < |ps| && ps[i] == w[1..];
      assert Under(e, ps)[i] == w;
    }
  }

  lemma FitsOne(w: Pattern, part: string)
    ensures Fits(w, [part]) <==> w in [[Literal(part)], [Variable], [Literal(part), MatchAll], [MatchAll]]
  {
    if Fits(w, [part]) {
      if |w| == 1 {
        assert w == [w[0]];
      } else {
        assert w == [w[0], w[1]];
      }
    }
  }

  /** The patterns tried are exactly those that fit. */
  lemma {:induction false} PatternsFit(parts: seq<string>, w: Pattern)
    requires parts != []
    ensures w in Patterns(parts) <==> Fits(w, parts)
    decreases |parts|
  {
    if |parts| == 1 {
      assert parts == [parts[0]];
      FitsOne(w, parts[0]);
    } else {
      var literal, ps := Literal(parts[0]), Patterns(parts[1..]);
      InUnder(literal, ps, w);
      InUnder(Variable, ps, w);
      if |w| > 1 {
        assert w == [w[0]] + w[1..];
        FitsUnder(w[0], w[1..], parts);
        PatternsFit(parts[1..], w[1..]);
      } else if |w| == 1 {
        assert w == [w[0]];
        assert [] !in ps;
      }
    }
  }

  // ------------------------------------------------------------- what puts leave to find

  lemma PassedNodes(was: Option<Node>, e: Edge, isReal: bool, info: string, w: Pattern)
    requires w != []
    ensures NodeAt(Passed(was, e, isReal, info), w).Some? <==> was.Some? && NodeAt(was.value, w).Some?
  {
    assert Below(EMPTY, w[0]).None?;
  }

  // A put makes a key end on the node that its whole key walks to, match-all nodes apart.
  lemma {:induction false} PutEnds(n: Node, parts: seq<string>, info: string, w: Pattern)
    requires w != [] && !w[|w| - 1].MatchAll?
    ensures EndAt(Put(n, parts, info).0, w) <==> EndAt(n, w) || (parts != [] && w == Walk(parts) && Whole(parts))
    decreases |parts|
  {
    if parts != [] {
      var e, isReal := EdgeOf(parts[0]), |parts| == 1;
      var was := Below(n, e);
      WalkHead(parts, w);
      if was.Some? && was.value.endOfPath && isReal {
        RealWalk(parts);
        EndOneStep(n, e);
      } else {
        var c := Passed(was, e, isReal, info);
        var d := if e.MatchAll? then c else Put(c, parts[1..], info).0;
        assert Put(n, parts, info).0 == WithBelow(n, e, d);
        if w[0] == e && |w| == 1 {
          assert w == [e];
          EndOneStep(n, e);
          EndOneStep(WithBelow(n, e, d), e);
        } else if w[0] == e {
          PassedBelow(was, e, isReal, info, w[1..]);
          if !e.MatchAll? {
            PutEnds(c, parts[1..], info, w[1..]);
          }
        }
      }
    }
  }

  // A put makes the match-all node that its key walks to, even if the key goes on behind it.
  lemma {:induction false} PutNodes(n: Node, parts: seq<string>, info: string, w: Pattern)
    requires w != [] && w[|w| - 1].MatchAll?
    ensures NodeAt(Put(n, parts, info).0, w).Some? <==> NodeAt(n, w).Some? || (parts != [] && w == Walk(parts))
    decreases |parts|
  {
    if parts != [] {
      var e, isReal := EdgeOf(parts[0]), |parts| == 1;
      var was := Below(n, e);
      if was.Some? && was.value.endOfPath && isReal {
        RealWalk(parts);
        assert w == [e] ==> NodeAt(n, w) == was;
      } else {
        var c := Passed(was, e, isReal, info);
        var d := if e.MatchAll? then c else Put(c, parts[1..], info).0;
        assert Put(n, parts, info).0 == WithBelow(n, e, d);
        if w[0] == e {
          assert w == [e] + w[1..];
          if |w| > 1 {
            PassedNodes(was, e, isReal, info, w[1..]);
            if !e.MatchAll? {
              PutNodes(c, parts[1..], info, w[1..]);
            }
          }
        }
      }
    }
  }

  // Some entry's key walks to the node, whether or not it ends there.
  ghost predicate Walked(es: seq<Entry>, m: string, w: Pattern) {
    exists i | 0 <= i < |es| :: es[i].m == m && Walk(Split(es[i].key)) == w
  }

  lemma WalkedGrows(es: seq<Entry>, m: string, w: Pattern)
    requires es != []
    ensures Walked(es, m, w) <==>
      Walked(es[..|es| - 1], m, w) || (es[|es| - 1].m == m && Walk(Split(es[|es| - 1].key)) == w)
  {
    var init := es[..|es| - 1];
    if i :| 0 <= i < |init| && init[i].m == m && Walk(Split(init[i].key)) == w {
      assert es[i] == init[i];
    }
    if i :| 0 <= i < |es| && es[i].m == m && Walk(Split(es[i].key)) == w {
      assert i < |init| ==> init[i] == es[i];
    }
  }

  lemma {:induction false} FoldedEnds(es: seq<Entry>, m: string, w: Pattern)
    requires AllKeyed(es) && w != [] && !w[|w| - 1].MatchAll?
    ensures EndAt(Folded(es, m), w) <==> NodeId(es, m, w).Some?
  {
    if es == [] {
      NothingBelowEmpty(EMPTY, w);
    } else {
      var init, e := es[..|es| - 1], es[|es| - 1];
      FoldedEnds(init, m, w);
      assert Keyed(e);
      PutEnds(Folded(init, m), Split(e.key), Identity(e.key), w);
    }
  }

  lemma {:induction false} FoldedNodes(es: seq<Entry>, m: string, w: Pattern)
    requires AllKeyed(es) && w != [] && w[|w| - 1].MatchAll?
    ensures NodeAt(Folded(es, m), w).Some? <==> Walked(es, m, w)
  {
    if es == [] {
      assert Below(EMPTY, w[0]).None?;
    } else {
      var init, e := es[..|es| - 1], es[|es| - 1];
      FoldedNodes(init, m, w);
      WalkedGrows(es, m, w);
      assert Keyed(e);
      PutNodes(Folded(init, m), Split(e.key), Identity(e.key), w);
    }
  }

  lemma {:induction false} FoldedIs(es: seq<Entry>, m: string, w: Pattern)
    requires AllKeyed(es)
    ensures NodeIs(Folded(es, m), es, m, w)
  {
    if es == [] {
      if w != [] {
        NothingBelowEmpty(EMPTY, w);
      }
    } else {
      var init, e := es[..|es| - 1], es[|es| - 1];
      FoldedIs(init, m, w);
      assert Keyed(e) && es == init + [e];
      NodeGrows(Folded(init, m), init, e, m, w);
    }
  }

  lemma {:induction false} AtNode(n: Node, w: Pattern)
    ensures InfoAt(n, w) == if NodeAt(n, w).Some? then NodeAt(n, w).value.info else None
    ensures EndAt(n, w) <==> NodeAt(n, w).Some? && NodeAt(n, w).value.endOfPath
  {
    if w != [] && Below(n, w[0]).Some? {
      AtNode(Below(n, w[0]).value, w[1..]);
    }
  }

  // -------------------------------------------------------------- candidates of a request

  // Whether the request's headers meet compiled header matchers.
  type HeadersMatch = nat -> bool

  // firstMatchingCandidate
  function FirstMatching(list: seq<Candidate>, meets: HeadersMatch): Option<Candidate> {
    if list == [] then None
    else if meets(list[0].headers) then Some(list[0])
    else FirstMatching(list[1..], meets)
  }

  // What a node holds for the request.
  function CandidateOn(table: map<string, Candidates>, n: Node, meets: HeadersMatch): Option<Candidate> {
    if n.info.None? then None else FirstMatching(Visited(At(table, n.info.value)), meets)
  }

  // The search stops at a node with a matching candidate, and at a node that holds no candidates at all.
  function Stops(table: map<string, Candidates>, meets: HeadersMatch): Node -> bool {
    (n: Node) => n.info.None? || CandidateOn(table, n, meets).Some?
  }

  function CandidateOf(table: map<string, Candidates>, n: Option<Node>, meets: HeadersMatch): Option<Candidate> {
    if n.None? then None else CandidateOn(table, n.value, meets)
  }

  // matchInTrie
  function MatchInTrie(table: map<string, Candidates>, tries: map<string, Node>, m: string, parts: seq<string>, meets: HeadersMatch): Option<Candidate>
    requires parts != []
  {
    if m !in tries then None else CandidateOf(table, Match(tries[m], parts, Stops(table, meets)), meets)
  }

  // A match-all node that only keys going on behind it have made: no route is there, but the search stops.
  ghost predicate Blocks(es: seq<Entry>, m: string, w: Pattern)
    requires w != []
  {
    w[|w| - 1].MatchAll? && Walked(es, m, w) && OnNode(es, m, w) == []
  }

  // Told by the routes: the first pattern with a matching candidate, unless one before it blocks.
  ghost function Routed(es: seq<Entry>, m: string, ps: seq<Pattern>, meets: HeadersMatch): Option<Candidate>
    requires forall i | 0 <= i < |ps| :: ps[i] != []
  {
    if ps == [] || Blocks(es, m, ps[0]) then None
    else Or(FirstMatching(OnNode(es, m, ps[0]), meets), Routed(es, m, ps[1..], meets))
  }

  ghost predicate Serving(table: map<string, Candidates>, es: seq<Entry>) {
    AllKeyed(es) && TableIs(table, es)
  }

  lemma CandidatesOnNode(table: map<string, Candidates>, es: seq<Entry>, m: string, w: Pattern, meets: HeadersMatch)
    requires Serving(table, es) && NodeAt(Folded(es, m), w).Some?
    ensures var n := NodeAt(Folded(es, m), w).value;
            && (n.info.None? <==> OnNode(es, m, w) == [])
            && CandidateOn(table, n, meets) == FirstMatching(OnNode(es, m, w), meets)
  {
    FoldedIs(es, m, w);
    AtNode(Folded(es, m), w);
    CandidatesAreOnNode(es, m, w);
    if NodeId(es, m, w).Some? {
      assert GroupIs(table, NodeId(es, m, w).value, Filed(es, NodeId(es, m, w).value));
    }
  }

  lemma YieldIsRoute(table: map<string, Candidates>, es: seq<Entry>, m: string, w: Pattern, meets: HeadersMatch)
    requires Serving(table, es) && w != []
    ensures var y := Yield(Folded(es, m), w, Stops(table, meets));
            && (y.Some? <==> FirstMatching(OnNode(es, m, w), meets).Some? || Blocks(es, m, w))
            && CandidateOf(table, y, meets) == FirstMatching(OnNode(es, m, w), meets)
  {
    var n := NodeAt(Folded(es, m), w);
    if n.Some? {
      CandidatesOnNode(table, es, m, w, meets);
    }
    CandidatesAreOnNode(es, m, w);
    AtNode(Folded(es, m), w);
    FoldedIs(es, m, w);
    if w[|w| - 1].MatchAll? {
      FoldedNodes(es, m, w);
    } else {
      FoldedEnds(es, m, w);
    }
  }

  lemma {:induction false} FirstYieldIsRouted(table: map<string, Candidates>, es: seq<Entry>, m: string, ps: seq<Pattern>, meets: HeadersMatch)
    requires Serving(table, es) && forall i | 0 <= i < |ps| :: ps[i] != []
    ensures CandidateOf(table, FirstYield(Folded(es, m), ps, Stops(table, meets)), meets) == Routed(es, m, ps, meets)
  {
    if ps != [] {
      YieldIsRoute(table, es, m, ps[0], meets);
      FirstYieldIsRouted(table, es, m, ps[1..], meets);
    }
  }

  /** The search in a method's trie finds what the routes say, for every list of routes and every request. */
  lemma MatchInTrieIsRouted(table: map<string, Candidates>, tries: map<string, Node>, es: seq<Entry>, m: string, parts: seq<string>, meets: HeadersMatch)
    requires Serving(table, es) && TriesFold(tries, es) && parts != []
    ensures MatchInTrie(table, tries, m, parts, meets) == Routed(es, m, Patterns(parts), meets)
  {
    assert TrieOf(tries, m) == Folded(es, m);
    MatchIsFirstYield(Folded(es, m), parts, Stops(table, meets));
    FirstYieldIsRouted(table, es, m, Patterns(parts), meets);
  }

  // ------------------------------------------------------------------- the exact law

  ghost predicate Answers(es: seq<Entry>, m: string, w: Pattern, meets: HeadersMatch) {
    FirstMatching(OnNode(es, m, w), meets).Some?
  }

  // The pattern at i is the first that answers, and none before it blocks.
  ghost predicate AnswersFirst(es: seq<Entry>, m: string, ps: seq<Pattern>, meets: HeadersMatch, i: nat)
    requires forall j | 0 <= j < |ps| :: ps[j] != []
  {
    && i < |ps| && Answers(es, m, ps[i], meets)
    && forall j | 0 <= j < i :: !Answers(es, m, ps[j], meets) && !Blocks(es, m, ps[j])
  }

  lemma {:induction false} RoutedAt(es: seq<Entry>, m: string, ps: seq<Pattern>, meets: HeadersMatch, i: nat)
    requires (forall j | 0 <= j < |ps| :: ps[j] != []) && AnswersFirst(es, m, ps, meets, i)
    ensures Routed(es, m, ps, meets) == FirstMatching(OnNode(es, m, ps[i]), meets)
  {
    if i > 0 {
      assert !Answers(es, m, ps[0], meets) && !Blocks(es, m, ps[0]);
      assert forall j | 0 <= j < |ps| - 1 :: ps[1..][j] == ps[j + 1];
      RoutedAt(es, m, ps[1..], meets, i - 1);
    }
  }

  lemma {:induction false} RoutedIsAt(es: seq<Entry>, m: string, ps: seq<Pattern>, meets: HeadersMatch) returns (i: nat)
    requires (forall j | 0 <= j < |ps| :: ps[j] != []) && Routed(es, m, ps, meets).Some?
    ensures AnswersFirst(es, m, ps, meets, i)
  {
    if Answers(es, m, ps[0], meets) {
      i := 0;
    } else {
      var k := RoutedIsAt(es, m, ps[1..], meets);
      i := k + 1;
      assert forall j | 0 < j < |ps| :: ps[j] == ps[1..][j - 1];
    }
  }

  /** A request gets a route exactly when some fitting pattern answers and no pattern before it blocks; it gets that pattern's first candidate. */
  lemma RoutedIff(es: seq<Entry>, m: string, parts: seq<string>, meets: HeadersMatch)
    requires parts != []
    ensures Routed(es, m, Patterns(parts), meets).Some? <==> exists i: nat :: AnswersFirst(es, m, Patterns(parts), meets, i)
    ensures forall i: nat | AnswersFirst(es, m, Patterns(parts), meets, i) ::
      Routed(es, m, Patterns(parts), meets) == FirstMatching(OnNode(es, m, Patterns(parts)[i]), meets)
  {
    var ps := Patterns(parts);
    forall i: nat | AnswersFirst(es, m, ps, meets, i) ensures Routed(es, m, ps, meets) == FirstMatching(OnNode(es, m, ps[i]), meets) {
      RoutedAt(es, m, ps, meets, i);
    }
    if Routed(es, m, ps, meets).Some? {
      var i := RoutedIsAt(es, m, ps, meets);
    }
  }

  lemma {:induction false} MatchingIsThere(list: seq<Candidate>, meets: HeadersMatch)
    ensures FirstMatching(list, meets).Some? <==> exists c | c in list :: meets(c.headers)
    ensures FirstMatching(list, meets).Some? ==> FirstMatching(list, meets).value in list && meets(FirstMatching(list, meets).value.headers)
  {
    if list != [] && !meets(list[0].headers) {
      MatchingIsThere(list[1..], meets);
      assert list == [list[0]] + list[1..];
    }
  }

  lemma {:induction false} OnNodeHolds(es: seq<Entry>, m: string, w: Pattern, c: Candidate)
    ensures c in OnNode(es, m, w) <==> exists e | e in es :: IsOn(e, m, w) && e.candidate == c
  {
    if es != [] {
      var init, last := es[..|es| - 1], es[|es| - 1];
      OnNodeHolds(init, m, w, c);
      assert es == init + [last];
    }
  }

  // The entry's pattern fits the segments and its headers the request.
  ghost predicate Applies(e: Entry, m: string, parts: seq<string>, meets: HeadersMatch) {
    e.m == m && Fits(Walk(Split(e.key)), parts) && meets(e.candidate.headers)
  }

  lemma AnswersIff(es: seq<Entry>, m: string, w: Pattern, meets: HeadersMatch)
    ensures Answers(es, m, w, meets) <==> exists e | e in es :: IsOn(e, m, w) && meets(e.candidate.headers)
  {
    MatchingIsThere(OnNode(es, m, w), meets);
    if c :| c in OnNode(es, m, w) && meets(c.headers) {
      OnNodeHolds(es, m, w, c);
    }
    if e :| e in es && IsOn(e, m, w) && meets(e.candidate.headers) {
      OnNodeHolds(es, m, w, e.candidate);
    }
  }

  ghost predicate AllWhole(es: seq<Entry>) {
    forall e | e in es :: Whole(Split(e.key))
  }

  lemma WholeNeverBlocks(es: seq<Entry>, m: string, w: Pattern)
    requires AllWhole(es) && w != []
    ensures !Blocks(es, m, w)
  {
    if Walked(es, m, w) {
      var i :| 0 <= i < |es| && es[i].m == m && Walk(Split(es[i].key)) == w;
      assert es[i] in es && IsOn(es[i], m, w);
      OnNodeHolds(es, m, w, es[i].candidate);
    }
  }

  lemma LeastAnswer(es: seq<Entry>, m: string, ps: seq<Pattern>, meets: HeadersMatch, k: nat) returns (i: nat)
    requires (forall j | 0 <= j < |ps| :: ps[j] != []) && AllWhole(es) && k < |ps| && Answers(es, m, ps[k], meets)
    ensures AnswersFirst(es, m, ps, meets, i)
  {
    i := 0;
    while !Answers(es, m, ps[i], meets)
      invariant i <= k && forall j | 0 <= j < i :: !Answers(es, m, ps[j], meets)
      decreases k - i
    {
      i := i + 1;
    }
    forall j | 0 <= j < i ensures !Blocks(es, m, ps[j]) {
      WholeNeverBlocks(es, m, ps[j]);
    }
  }

  /** Where match-all segments stand at the end of keys only, a request gets a route exactly when some route applies, and then one that applies. */
  lemma RoutesAreFound(es: seq<Entry>, m: string, parts: seq<string>, meets: HeadersMatch)
    requires AllWhole(es) && parts != []
    ensures Routed(es, m, Patterns(parts), meets).Some? <==> exists e | e in es :: Applies(e, m, parts, meets)
    ensures Routed(es, m, Patterns(parts), meets).Some? ==>
      exists e | e in es :: Applies(e, m, parts, meets) && e.candidate == Routed(es, m, Patterns(parts), meets).value
  {
    var ps := Patterns(parts);
    if Routed(es, m, ps, meets).Some? {
      var i := RoutedIsAt(es, m, ps, meets);
      RoutedAt(es, m, ps, meets, i);
      MatchingIsThere(OnNode(es, m, ps[i]), meets);
      OnNodeHolds(es, m, ps[i], Routed(es, m, ps, meets).value);
      PatternsFit(parts, ps[i]);
    }
    if e :| e in es && Applies(e, m, parts, meets) {
      PatternsFit(parts, Walk(Split(e.key)));
      var k :| 0 <= k < |ps| && ps[k] == Walk(Split(e.key));
      assert IsOn(e, m, ps[k]);
      AnswersIff(es, m, ps[k], meets);
      var i := LeastAnswer(es, m, ps, meets, k);
      RoutedAt(es, m, ps, meets, i);
    }
  }

  lemma {:induction false} RoutedBlocked(es: seq<Entry>, m: string, ps: seq<Pattern>, meets: HeadersMatch, i: nat)
    requires (forall j | 0 <= j < |ps| :: ps[j] != []) && i < |ps| && Blocks(es, m, ps[i])
    requires forall j | 0 <= j < i :: !Answers(es, m, ps[j], meets)
    ensures Routed(es, m, ps, meets) == None
  {
    if i > 0 && !Blocks(es, m, ps[0]) {
      assert !Answers(es, m, ps[0], meets);
      assert forall j | 0 <= j < |ps| - 1 :: ps[1..][j] == ps[j + 1];
      RoutedBlocked(es, m, ps[1..], meets, i - 1);
    }
  }

  lemma NobodyThere(es: seq<Entry>, m: string, w: Pattern, meets: HeadersMatch)
    requires forall e | e in es :: !IsOn(e, m, w)
    ensures OnNode(es, m, w) == [] && !Answers(es, m, w, meets)
  {
    if OnNode(es, m, w) != [] {
      OnNodeHolds(es, m, w, OnNode(es, m, w)[0]);
    }
  }

  // The patterns of three segments start with the literal two and what the third takes below them.
  lemma ThreeSegments(m: string, a: string, b: string)
    ensures var ps := Patterns([m, a, b]);
            && |ps| > 4 && ps[0] == [Literal(m), Literal(a), Literal(b)] && ps[1] == [Literal(m), Literal(a), Variable]
            && ps[2] == [Literal(m), Literal(a), Literal(b), MatchAll] && ps[3] == [Literal(m), Literal(a), MatchAll]
  {
    assert [m, a, b][1..] == [a, b] && [a, b][1..] == [b];
    var one, two := Patterns([b]), Patterns([a, b]);
    assert one == [[Literal(b)], [Variable], [Literal(b), MatchAll], [MatchAll]];
    assert forall i | 0 <= i < 4 :: two[i] == [Literal(a)] + one[i];
    assert forall i | 0 <= i < 4 :: Patterns([m, a, b])[i] == [Literal(m)] + two[i];
  }

  /**
   Otherwise it can fail: a route that goes on behind a match-all segment leaves
   a node without candidates, and a request that reaches the node is refused
   although a route for everything applies to it.
   */
  lemma BrokenKeyHidesRoute(m: string, a: string, b: string, e: Entry, f: Entry, meets: HeadersMatch)
    requires e.m == f.m == m && meets(f.candidate.headers)
    requires Walk(Split(e.key)) == [Literal(m), Literal(a), MatchAll] && !Whole(Split(e.key))
    requires Walk(Split(f.key)) == [Literal(m), MatchAll] && Whole(Split(f.key))
    ensures Applies(f, m, [m, a, b], meets) && Routed([e, f], m, Patterns([m, a, b]), meets) == None
  {
    var es, ps := [e, f], Patterns([m, a, b]);
    ThreeSegments(m, a, b);
    forall j | 0 <= j <= 3 ensures OnNode(es, m, ps[j]) == [] && !Answers(es, m, ps[j], meets) {
      NobodyThere(es, m, ps[j], meets);
    }
    assert Walked(es, m, ps[3]) by { assert es[0] == e; }
    RoutedBlocked(es, m, ps, meets, 3);
  }

  // The route is served under the method and takes the request by its path or prefix.
  ghost predicate TakesByPath(r: Router, clean: Clean, m: string, parts: seq<string>, meets: HeadersMatch) {
    && !IsHeaderOnly(r) && m in MethodsOf(r)
    && Fits(Walk(Split(KeyOf(clean, m, r))), parts) && meets(r.headers)
  }

  lemma RouteOfEntry(routes: seq<Router>, clean: Clean, e: Entry, m: string, parts: seq<string>, meets: HeadersMatch) returns (r: Router)
    requires e in Entries(routes, clean) && Applies(e, m, parts, meets)
    ensures r in routes && TakesByPath(r, clean, m, parts, meets)
  {
    r := FiledIsRoute(routes, clean, e);
  }

  lemma EntryOfRoute(routes: seq<Router>, clean: Clean, r: Router, m: string, parts: seq<string>, meets: HeadersMatch) returns (e: Entry)
    requires r in routes && TakesByPath(r, clean, m, parts, meets)
    ensures e in Entries(routes, clean) && Applies(e, m, parts, meets)
  {
    e := Entry(m, KeyOf(clean, m, r), Candidate(r.headers, r.action));
    RouteIsFiled(routes, clean, r, m);
  }

  /**
   From configuration to request: in the snapshot built of routes whose match-all
   segments stand at the end, the search for a method finds a candidate exactly
   when one of the routes takes the request.
   */
  lemma SnapshotServesIff(routes: seq<Router>, clean: Clean, table: map<string, Candidates>, tries: map<string, Node>,
                          m: string, parts: seq<string>, meets: HeadersMatch)
    requires NamedMethods(routes) && AllWhole(Entries(routes, clean)) && parts != []
    requires TableIs(table, Entries(routes, clean)) && TriesFold(tries, Entries(routes, clean))
    ensures MatchInTrie(table, tries, m, parts, meets).Some? <==> exists r | r in routes :: TakesByPath(r, clean, m, parts, meets)
  {
    var es := Entries(routes, clean);
    EntriesAreKeyed(routes, clean);
    MatchInTrieIsRouted(table, tries, es, m, parts, meets);
    RoutesAreFound(es, m, parts, meets);
    if e :| e in es && Applies(e, m, parts, meets) {
      var r := RouteOfEntry(routes, clean, e, m, parts, meets);
    }
    if r :| r in routes && TakesByPath(r, clean, m, parts, meets) {
      var e := EntryOfRoute(routes, clean, r, m, parts, meets);
    }
  }

  // ------------------------------------------------------------------- a whole request

  method MethodAllowed(methods: seq<string>, m: string) returns (ok: bool)
    ensures ok <==> methods == [] || "*" in methods || m in methods
  {
    if methods == [] {
      return true;
    }
    for i := 0 to |methods|
      invariant forall j | 0 <= j < i :: methods[j] != "*" && methods[j] != m
    {
      if methods[i] == "*" || methods[i] == m {
        return true;
      }
    }
    ok := false;
  }

  function ActionOf(c: Option<Candidate>): Option<nat> {
    if c.Some? then Some(c.value.action) else None
  }

  // A route that matches by headers alone.
  predicate TakesByHeaders(r: Router, m: string, meets: HeadersMatch) {
    (r.methods == [] || "*" in r.methods || m in r.methods) && meets(r.headers)
  }

  /**
   A request goes to the first configured header-only route that takes it; if
   there is none, to what the routes of its own method say, and then to what
   those of the method "*" say.
   */
  method RouteRequest(table: map<string, Candidates>, tries: map<string, Node>, headerOnly: seq<Router>, ghost es: seq<Entry>,
                      m: string, parts: seq<string>, meets: HeadersMatch) returns (action: Option<nat>)
    requires Serving(table, es) && TriesFold(tries, es) && parts != []
    ensures forall i | 0 <= i < |headerOnly| && TakesByHeaders(headerOnly[i], m, meets)
                      && (forall j | 0 <= j < i :: !TakesByHeaders(headerOnly[j], m, meets)) ::
              action == Some(headerOnly[i].action)
    ensures (forall i | 0 <= i < |headerOnly| :: !TakesByHeaders(headerOnly[i], m, meets)) ==>
      action == ActionOf(Or(Routed(es, m, Patterns(parts), meets), Routed(es, "*", Patterns(parts), meets)))
  {
    for i := 0 to |headerOnly|
      invariant forall j | 0 <= j < i :: !TakesByHeaders(headerOnly[j], m, meets)
    {
      var allowed := MethodAllowed(headerOnly[i].methods, m);
      if allowed && meets(headerOnly[i].headers) {
        return Some(headerOnly[i].action);
      }
    }
    MatchInTrieIsRouted(table, tries, es, m, parts, meets);
    MatchInTrieIsRouted(table, tries, es, "*", parts, meets);
    var found := MatchInTrie(table, tries, m, parts, meets);
    if found.None? && m != "*" {
      found := MatchInTrie(table, tries, "*", parts, meets);
    }
    action := ActionOf(found);
  }
}
