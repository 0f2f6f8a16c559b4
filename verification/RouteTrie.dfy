/**
 The tries that a route snapshot serves requests from. A node is reached over
 literal edges, one shared edge for all variables, and a match-all edge that
 ends the walk; the node holds the candidate list of the routes put there.
 */
module RouteTrie {
  import opened Options
  import opened RouteIdentity

  datatype Edge = Literal(s: string) | Variable | MatchAll

  function EdgeOf(part: string): Edge {
    if IsVariable(part) then Variable else if part == "**" then MatchAll else Literal(part)
  }

  // The edges a put follows: the first match-all segment ends the walk.
  function Walk(parts: seq<string>): (w: seq<Edge>)
    ensures |w| <= |parts| && (parts != [] ==> w != [] && w[0] == EdgeOf(parts[0]))
  {
    if parts == [] then []
    else if EdgeOf(parts[0]).MatchAll? then [MatchAll]
    else [EdgeOf(parts[0])] + Walk(parts[1..])
  }

  // The segments that the walk never looks at.
  function Unseen(parts: seq<string>): seq<string> {
    if parts == [] then [] else if EdgeOf(parts[0]).MatchAll? then parts[1..] else Unseen(parts[1..])
  }

  // A match-all segment stands at the end of the key or nowhere.
  predicate Whole(parts: seq<string>) {
    Unseen(parts) == []
  }

  lemma {:induction false} WholeIff(parts: seq<string>)
    ensures Whole(parts) <==> forall i | 0 <= i < |parts| - 1 :: !EdgeOf(parts[i]).MatchAll?
  {
    if parts != [] && !EdgeOf(parts[0]).MatchAll? {
      WholeIff(parts[1..]);
      assert forall i | 0 <= i < |parts[1..]| - 1 :: parts[1..][i] == parts[i + 1];
      assert forall i | 0 < i < |parts| - 1 :: parts[i] == parts[1..][i - 1];
    } else if |parts| > 1 {
      assert EdgeOf(parts[0]).MatchAll?;
    }
  }

  // ------------------------------------------------- identity against the walk

  predicate SameEdges(p: seq<string>, q: seq<string>) {
    |p| == |q| && forall i | 0 <= i < |p| :: EdgeOf(p[i]) == EdgeOf(q[i])
  }

  lemma IdentityDecidesEdges(a: string, b: string)
    requires Split(a)[0] == Split(b)[0]
    ensures Identity(a) == Identity(b) <==> SameEdges(Split(a), Split(b))
  {
    var p, q := Split(a), Split(b);
    IdentityDecidesSegments(a, b);
    if SameEdges(p, q) {
      forall i | 0 <= i < |p| ensures p[i] == q[i] || (i > 0 && IsVariable(p[i]) && IsVariable(q[i])) {
        assert EdgeOf(p[i]) == EdgeOf(q[i]);
      }
    }
  }

  lemma {:induction false} EdgesDecideWalk(p: seq<string>, q: seq<string>)
    ensures SameEdges(p, q) <==> Walk(p) == Walk(q) && SameEdges(Unseen(p), Unseen(q))
  {
    if p != [] && q != [] {
      assert SameEdges(p, q) <==> EdgeOf(p[0]) == EdgeOf(q[0]) && SameEdges(p[1..], q[1..]) by {
        assert forall i | 0 <= i < |p| - 1 :: p[1..][i] == p[i + 1];
        assert forall i | 0 <= i < |q| - 1 :: q[1..][i] == q[i + 1];
        assert forall i | 0 < i < |p| :: p[i] == p[1..][i - 1];
        assert forall i | 0 < i < |q| :: q[i] == q[1..][i - 1];
      }
      if EdgeOf(p[0]) == EdgeOf(q[0]) && !EdgeOf(p[0]).MatchAll? {
        EdgesDecideWalk(p[1..], q[1..]);
        assert Walk(p)[1..] == Walk(p[1..]) && Walk(q)[1..] == Walk(q[1..]);
      }
    }
  }

  /**
   Keys of one method have one identity exactly when they walk the same edges
   and the segments behind a match-all segment agree as well.
   */
  lemma IdentityIsWalkAndRest(a: string, b: string)
    requires Split(a)[0] == Split(b)[0]
    ensures Identity(a) == Identity(b) <==>
            Walk(Split(a)) == Walk(Split(b)) && SameEdges(Unseen(Split(a)), Unseen(Split(b)))
  {
    IdentityDecidesEdges(a, b);
    EdgesDecideWalk(Split(a), Split(b));
  }

  /** Where match-all segments stand at the end only, one identity means one walk and one walk one identity. */
  lemma IdentityIsWalk(a: string, b: string)
    requires Split(a)[0] == Split(b)[0] && Whole(Split(a)) && Whole(Split(b))
    ensures Identity(a) == Identity(b) <==> Walk(Split(a)) == Walk(Split(b))
  {
    IdentityIsWalkAndRest(a, b);
  }

  lemma {:induction false} WalkOfLonger(p: seq<string>, q: seq<string>)
    requires MatchAll in Walk(p)
    ensures Walk(p + q) == Walk(p) && Unseen(p + q) == Unseen(p) + q
  {
    assert p != [];
    if !EdgeOf(p[0]).MatchAll? {
      assert (p + q)[1..] == p[1..] + q;
      assert MatchAll in Walk(p[1..]) by { assert Walk(p)[1..] == Walk(p[1..]); }
      WalkOfLonger(p[1..], q);
    } else {
      assert (p + q)[1..] == p[1..] + q;
    }
  }

  lemma SplitAppend(a: string, part: string)
    requires NoSlash(part)
    ensures Split(a + "/" + part) == Split(a) + [part]
  {
    SplitConcat(a, part);
    SplitNoSlash(part);
  }

  /**
   Behind a match-all segment the law fails for every key: continue it with any
   two different literals and both keys walk to the same node, while their
   identities and the admin's conflict keys differ.
   */
  lemma ContinuedMatchAllSharesNode(a: string, x: string, y: string)
    requires MatchAll in Walk(Split(a)) && NoSlash(x) && NoSlash(y) && EdgeOf(x) != EdgeOf(y)
    ensures var b, c := a + "/" + x, a + "/" + y;
            && Split(b)[0] == Split(c)[0] == Split(a)[0] && Walk(Split(b)) == Walk(Split(c)) == Walk(Split(a))
            && Identity(b) != Identity(c) && ConflictForm(b) != ConflictForm(c)
  {
    var b, c := a + "/" + x, a + "/" + y;
    SplitAppend(a, x);
    SplitAppend(a, y);
    WalkOfLonger(Split(a), [x]);
    WalkOfLonger(Split(a), [y]);
    assert Split(b)[|Split(a)|] == x && Split(c)[|Split(a)|] == y;
    IdentityDecidesEdges(b, c);
    IdentityDecidesSegments(b, c);
  }

  // ------------------------------------------------------------------ the trie

  // `info` is the identity of the candidate list that the node was given.
  datatype Node = Node(children: map<string, Node>, variable: Option<Node>, matchAll: Option<Node>, endOfPath: bool, info: Option<string>)

  const EMPTY := Node(map[], None, None, false, None)

  function Below(n: Node, e: Edge): Option<Node> {
    match e
    case Literal(s) => Lookup(n.children, s)
    case Variable => n.variable
    case MatchAll => n.matchAll
  }

  function WithBelow(n: Node, e: Edge, c: Node): (r: Node)
    ensures r.info == n.info && r.endOfPath == n.endOfPath
    ensures forall f :: Below(r, f) == if f == e then Some(c) else Below(n, f)
  {
    match e
    case Literal(s) => n.(children := n.children[s := c])
    case Variable => n.(variable := Some(c))
    case MatchAll => n.(matchAll := Some(c))
  }

  // The node one step down after a put passed it; a match-all node keeps the flag it was created with.
  function Passed(was: Option<Node>, e: Edge, isReal: bool, info: string): Node {
    var n := if was.Some? then was.value else EMPTY;
    n.(info := if isReal then Some(info) else n.info,
       endOfPath := if e.MatchAll? && was.Some? then n.endOfPath else n.endOfPath || isReal)
  }

  /** Node.internalPut: the trie afterwards, and whether the put was accepted. */
  function Put(n: Node, parts: seq<string>, info: string): (Node, bool)
    decreases |parts|
  {
    if parts == [] then (n, true)
    else
      var e, isReal := EdgeOf(parts[0]), |parts| == 1;
      var was := Below(n, e);
      if was.Some? && was.value.endOfPath && isReal then (n, false)
      else
        var c := Passed(was, e, isReal, info);
        if e.MatchAll? then (WithBelow(n, e, c), true)
        else var (d, ok) := Put(c, parts[1..], info); (WithBelow(n, e, d), ok)
  }

  function InfoAt(n: Node, w: seq<Edge>): Option<string> {
    if w == [] then n.info
    else if Below(n, w[0]).Some? then InfoAt(Below(n, w[0]).value, w[1..])
    else None
  }

  predicate EndAt(n: Node, w: seq<Edge>) {
    if w == [] then n.endOfPath
    else Below(n, w[0]).Some? && EndAt(Below(n, w[0]).value, w[1..])
  }

  lemma {:induction false} NothingBelowEmpty(n: Node, w: seq<Edge>)
    requires w != [] && n.children == map[] && n.variable == None && n.matchAll == None
    ensures InfoAt(n, w) == None && !EndAt(n, w)
  {
    assert Below(n, w[0]).None?;
  }

  // What a put leaves on the node it stops at.
  predicate Lands(n: Node, parts: seq<string>, w: seq<Edge>) {
    parts != [] && w == Walk(parts) && Whole(parts) && !EndAt(n, w)
  }

  // Passing a node leaves everything below it alone.
  lemma PassedBelow(was: Option<Node>, e: Edge, isReal: bool, info: string, w: seq<Edge>)
    requires w != []
    ensures var c := Passed(was, e, isReal, info);
            && InfoAt(c, w) == (if was.Some? then InfoAt(was.value, w) else None)
            && (EndAt(c, w) <==> was.Some? && EndAt(was.value, w))
  {
    if was.None? {
      NothingBelowEmpty(Passed(was, e, isReal, info), w);
    }
  }

  lemma WalkHead(parts: seq<string>, w: seq<Edge>)
    requires parts != [] && w != []
    ensures w == Walk(parts) && Whole(parts) <==>
            && w[0] == EdgeOf(parts[0])
            && (if EdgeOf(parts[0]).MatchAll? then w == [MatchAll] && |parts| == 1 else w[1..] == Walk(parts[1..]) && Whole(parts[1..]))
  {
    if w[0] == EdgeOf(parts[0]) {
      assert w == [w[0]] + w[1..];
    }
  }

  lemma EndOneStep(n: Node, e: Edge)
    ensures EndAt(n, [e]) <==> Below(n, e).Some? && Below(n, e).value.endOfPath
  {
    assert [e][1..] == [];
  }

  /** A put writes its candidate list on the node that its whole key walks to, unless a put already ended there, and nowhere else. */
  lemma {:induction false} PutWritesOneNode(n: Node, parts: seq<string>, info: string, w: seq<Edge>)
    ensures InfoAt(Put(n, parts, info).0, w) == if Lands(n, parts, w) then Some(info) else InfoAt(n, w)
    ensures EndAt(Put(n, parts, info).0, w) ==> EndAt(n, w) || Lands(n, parts, w)
    decreases |parts|
  {
    if parts != [] && w != [] {
      var e, isReal := EdgeOf(parts[0]), |parts| == 1;
      var was := Below(n, e);
      EndOneStep(n, e);
      if isReal {
        RealWalk(parts);
      }
      if !(was.Some? && was.value.endOfPath && isReal) {
        var c := Passed(was, e, isReal, info);
        var d := if e.MatchAll? then c else Put(c, parts[1..], info).0;
        assert Put(n, parts, info).0 == WithBelow(n, e, d);
        WalkHead(parts, w);
        if w[0] != e {
          assert Below(WithBelow(n, e, d), w[0]) == Below(n, w[0]);
        } else {
          assert Below(WithBelow(n, e, d), e) == Some(d);
          if !e.MatchAll? {
            PutWritesOneNode(c, parts[1..], info, w[1..]);
          }
          if w[1..] != [] {
            PassedBelow(was, e, isReal, info, w[1..]);
          } else {
            assert w == [e];
            EndOneStep(WithBelow(n, e, d), e);
          }
        }
      }
    }
  }

  /** A put is refused exactly when an earlier one ended on the node that its whole key walks to. */
  lemma {:induction false} PutIsRefusedIff(n: Node, parts: seq<string>, info: string)
    requires parts != []
    ensures !Put(n, parts, info).1 <==> Whole(parts) && EndAt(n, Walk(parts))
    decreases |parts|
  {
    var e, isReal := EdgeOf(parts[0]), |parts| == 1;
    var was := Below(n, e);
    if isReal {
      RealWalk(parts);
      EndOneStep(n, e);
    } else if !e.MatchAll? {
      var rest := parts[1..];
      PutIsRefusedIff(Passed(was, e, isReal, info), rest, info);
      PassedBelow(was, e, isReal, info, Walk(rest));
      assert Walk(parts)[1..] == Walk(rest);
    }
  }

  lemma RealWalk(parts: seq<string>)
    requires |parts| == 1
    ensures Walk(parts) == [EdgeOf(parts[0])] && Whole(parts)
  {
    assert parts[1..] == [];
  }
}
