/**
 The field diff between a route's draft and its published object. Both are
 flattened to a map from paths to leaves, and the maps are compared path by path.
 */
module FieldDiff {
  import opened Options
  import opened Decimals

  datatype Atom = Null | Bool(b: bool) | Num(n: int) | Str(s: string)

  datatype Tree = Scalar(atom: Atom) | Obj(fields: map<string, Tree>) | List(items: seq<Tree>)

  datatype AdminObject = AdminObject(kind: string, name: string, spec: map<string, Tree>)

  function ToTree(o: AdminObject): Tree {
    Obj(map["kind" := Scalar(Str(o.kind)), "metadata" := Obj(map["name" := Scalar(Str(o.name))]), "spec" := Obj(o.spec)])
  }

  function Child(path: string, key: string): string {
    if path == "" then key else path + "." + key
  }

  function Index(i: nat): string {
    "[" + Dec(i) + "]"
  }

  function Element(path: string, i: nat): string {
    path + Index(i)
  }

  predicate IsLeaf(t: Tree) {
    t.Scalar? || t == Obj(map[]) || t == List([])
  }

  // Flattening t at `path` yields the leaf at the path q.
  ghost predicate Emits(path: string, t: Tree, q: string, leaf: Tree)
    decreases t
  {
    if IsLeaf(t) then q == path && leaf == t
    else match t
      case Obj(fields) => exists k | k in fields :: Emits(Child(path, k), fields[k], q, leaf)
      case List(items) => exists i: nat | i < |items| :: Emits(Element(path, i), items[i], q, leaf)
  }

  // The key ends like a list element.
  ghost predicate EndsWithIndex(k: string) {
    exists i: nat :: |Index(i)| <= |k| && k[|k| - |Index(i)|..] == Index(i)
  }

  // A key that cannot be taken for a step into a nested object or list.
  ghost predicate PlainKey(k: string) {
    '.' !in k && !EndsWithIndex(k)
  }

  ghost predicate Plain(t: Tree)
    decreases t
  {
    match t
    case Scalar(_) => true
    case Obj(fields) => forall k | k in fields :: PlainKey(k) && Plain(fields[k])
    case List(items) => forall i | 0 <= i < |items| :: Plain(items[i])
  }

  // What can follow a key in a path: nothing, a further key, or indexes and then one of these.
  ghost predicate Tail(s: string)
    decreases |s|
  {
    s == "" || s[0] == '.' || exists i: nat :: Index(i) <= s && Tail(s[|Index(i)|..])
  }

  // The path q is `a`, or continues it with a further key or index.
  ghost predicate Starts(q: string, a: string) {
    |a| <= |q| && q[..|a|] == a && Tail(q[|a|..])
  }

  lemma FieldStarts(q: string, path: string, k: string)
    requires path != "" && Starts(q, Child(path, k))
    ensures Starts(q, path) && |path| < |q| && q[|path|] == '.'
  {
    var a := Child(path, k);
    assert q[..|path|] == a[..|path|] == path;
    assert q[|path|] == q[..|a|][|path|] == '.';
    assert q[|path|..][0] == '.';
  }

  lemma ItemStarts(q: string, path: string, i: nat)
    requires Starts(q, Element(path, i))
    ensures Starts(q, path) && |path| < |q| && q[|path|] == '['
  {
    var a, rest := Element(path, i), q[|path|..];
    assert q[..|path|] == a[..|path|] == path;
    assert rest[..|Index(i)|] == q[..|a|][|path|..] == Index(i);
    assert rest[|Index(i)|..] == q[|a|..];
    assert Index(i) <= rest && Tail(rest[|Index(i)|..]);
    assert q[|path|] == rest[0];
  }

  // Every path of a tree continues the path the tree is at, with a dot below an object and a bracket below a list.
  lemma {:induction false} EmitsBelow(path: string, t: Tree, q: string, leaf: Tree)
    requires path != "" && Plain(t) && Emits(path, t, q, leaf)
    ensures Starts(q, path)
    ensures !IsLeaf(t) ==> |path| < |q| && q[|path|] == if t.Obj? then '.' else '['
    decreases t
  {
    if IsLeaf(t) {
      assert q == path;
    } else if t.Obj? {
      var k :| k in t.fields && Emits(Child(path, k), t.fields[k], q, leaf);
      assert Plain(t.fields[k]) && Child(path, k) != "";
      EmitsBelow(Child(path, k), t.fields[k], q, leaf);
      FieldStarts(q, path, k);
    } else {
      var i: nat :| i < |t.items| && Emits(Element(path, i), t.items[i], q, leaf);
      assert Plain(t.items[i]) && Element(path, i) != "";
      EmitsBelow(Element(path, i), t.items[i], q, leaf);
      ItemStarts(q, path, i);
    }
  }

  lemma {:induction false} EmitsSomething(path: string, t: Tree) returns (q: string, leaf: Tree)
    ensures Emits(path, t, q, leaf)
    decreases t
  {
    if IsLeaf(t) {
      q, leaf := path, t;
    } else {
      match t
      case Obj(fields) =>
        assert fields != map[];
        var k :| k in fields;
        q, leaf := EmitsSomething(Child(path, k), fields[k]);
      case List(items) =>
        q, leaf := EmitsSomething(Element(path, 0), items[0]);
    }
  }

  lemma TailHead(s: string)
    requires Tail(s) && s != ""
    ensures s[0] == '.' || s[0] == '['
  {
    if s[0] != '.' {
      var i: nat :| Index(i) <= s && Tail(s[|Index(i)|..]);
      assert s[0] == Index(i)[0];
    }
  }

  // An index at the front of a path is not cut short by what can follow a key.
  lemma IndexIsWhole(x: string, rest: string, i: nat)
    requires x != "" && Tail(rest) && Index(i) <= x + rest
    ensures |Index(i)| <= |x|
  {
    if rest != "" {
      TailHead(rest);
      assert (x + rest)[|x|] == rest[0];
    }
  }

  lemma FirstIndex(x: string, rest: string) returns (i: nat)
    requires x != "" && x[0] != '.' && Tail(x + rest) && Tail(rest)
    ensures |Index(i)| <= |x| && x[..|Index(i)|] == Index(i) && Tail(x[|Index(i)|..] + rest)
  {
    var s := x + rest;
    i :| Index(i) <= s && Tail(s[|Index(i)|..]);
    IndexIsWhole(x, rest, i);
    assert x[..|Index(i)|] == s[..|Index(i)|];
    assert s[|Index(i)|..] == x[|Index(i)|..] + rest;
  }

  lemma EndOfLonger(a: string, b: string)
    ensures EndsWithIndex(b) ==> EndsWithIndex(a + b)
    ensures '.' in b ==> '.' in a + b
  {
    if EndsWithIndex(b) {
      var i: nat :| |Index(i)| <= |b| && b[|b| - |Index(i)|..] == Index(i);
      assert (a + b)[|a + b| - |Index(i)|..] == Index(i);
    }
  }

  // What lies between a key and a longer one that reads the same path is a step of the path.
  lemma {:induction false} BetweenKeys(x: string, rest: string)
    requires x != "" && Tail(x + rest) && Tail(rest)
    ensures '.' in x || EndsWithIndex(x)
    decreases |x|
  {
    if x[0] != '.' {
      var i := FirstIndex(x, rest);
      var a, y := x[..|Index(i)|], x[|Index(i)|..];
      assert a + y == x;
      if y == "" {
        assert x[|x| - |Index(i)|..] == Index(i);
      } else {
        BetweenKeys(y, rest);
        EndOfLonger(a, y);
      }
    }
  }

  lemma KeyIsNotLonger(q: string, prefix: string, k: string, l: string)
    requires PlainKey(l) && Starts(q, prefix + k) && Starts(q, prefix + l)
    ensures |l| <= |k|
  {
    if |k| < |l| {
      var a, b := prefix + k, prefix + l;
      var x, rest := l[|k|..], q[|b|..];
      assert l[..|k|] == b[|prefix|..|a|] == q[..|b|][|prefix|..|a|] == q[..|a|][|prefix|..] == k;
      assert l == k + x;
      assert q[|a|..] == x + rest by { assert q == b + rest; }
      EndOfLonger(k, x);
      BetweenKeys(x, rest);
    }
  }

  // Below a common prefix, a path names one key only.
  lemma KeyIsUnique(q: string, prefix: string, k: string, l: string)
    requires PlainKey(k) && PlainKey(l) && Starts(q, prefix + k) && Starts(q, prefix + l)
    ensures k == l
  {
    KeyIsNotLonger(q, prefix, k, l);
    KeyIsNotLonger(q, prefix, l, k);
    assert k == (prefix + k)[|prefix|..] && l == (prefix + l)[|prefix|..];
  }

  // The closing bracket of an index is not a digit of another.
  lemma IndexIsNotLonger(q: string, path: string, i: nat, j: nat)
    requires Element(path, i) <= q && Element(path, j) <= q
    ensures |Dec(j)| <= |Dec(i)|
  {
    var n := |path| + 1;
    var a, b := Element(path, i), Element(path, j);
    assert q[|a| - 1] == a[|a| - 1] == ']';
    forall c | n <= c < |b| - 1 ensures q[c] != ']' {
      assert q[c] == b[c] == Dec(j)[c - n];
    }
  }

  lemma IndexIsUnique(q: string, path: string, i: nat, j: nat)
    requires Element(path, i) <= q && Element(path, j) <= q
    ensures i == j
  {
    IndexIsNotLonger(q, path, i, j);
    IndexIsNotLonger(q, path, j, i);
    var n := |path| + 1;
    var a, b := Element(path, i), Element(path, j);
    assert a == q[..|a|] == q[..|b|] == b;
    assert Dec(i) == a[n..|a| - 1] && Dec(j) == b[n..|b| - 1];
    DecInjective(i, j);
  }

  ghost predicate SameFlattening(path: string, t: Tree, u: Tree) {
    forall q, leaf :: Emits(path, t, q, leaf) <==> Emits(path, u, q, leaf)
  }

  // Every path below these fields starts with a key that is not empty.
  predicate Rooted(path: string, fields: map<string, Tree>) {
    path != "" || "" !in fields
  }

  lemma StartsWithField(path: string, prefix: string, k: string, v: Tree, q: string, leaf: Tree)
    requires prefix == (if path == "" then "" else path + ".") && Child(path, k) != ""
    requires Plain(v) && Emits(Child(path, k), v, q, leaf)
    ensures Starts(q, prefix + k)
  {
    assert Child(path, k) == prefix + k;
    EmitsBelow(prefix + k, v, q, leaf);
  }

  // The key of an object that a flattened path belongs to.
  lemma OwnerOfField(path: string, fields: map<string, Tree>, q: string, leaf: Tree, k: string, v: Tree, other: Tree)
    requires fields != map[] && Rooted(path, fields) && Plain(Obj(fields))
    requires PlainKey(k) && Plain(v) && Child(path, k) != ""
    requires Emits(path, Obj(fields), q, leaf) && Emits(Child(path, k), v, q, other)
    ensures k in fields && Emits(Child(path, k), fields[k], q, leaf)
  {
    var l :| l in fields && Emits(Child(path, l), fields[l], q, leaf);
    var prefix := if path == "" then "" else path + ".";
    StartsWithField(path, prefix, l, fields[l], q, leaf);
    StartsWithField(path, prefix, k, v, q, other);
    KeyIsUnique(q, prefix, k, l);
  }

  lemma OwnerOfItem(path: string, items: seq<Tree>, q: string, leaf: Tree, i: nat, v: Tree, other: Tree)
    requires path != "" && items != [] && Plain(List(items)) && Plain(v)
    requires Emits(path, List(items), q, leaf) && Emits(Element(path, i), v, q, other)
    ensures i < |items| && Emits(Element(path, i), items[i], q, leaf)
  {
    var j: nat :| j < |items| && Emits(Element(path, j), items[j], q, leaf);
    EmitsBelow(Element(path, j), items[j], q, leaf);
    EmitsBelow(Element(path, i), v, q, other);
    IndexIsUnique(q, path, i, j);
  }

  lemma FieldsCarryOver(path: string, f: map<string, Tree>, g: map<string, Tree>, k: string)
    requires f != map[] && g != map[] && Plain(Obj(f)) && Plain(Obj(g)) && k in f
    requires Rooted(path, f) && Rooted(path, g)
    requires SameFlattening(path, Obj(f), Obj(g))
    ensures k in g && SameFlattening(Child(path, k), f[k], g[k])
  {
    var q0, leaf0 := EmitsSomething(Child(path, k), f[k]);
    assert Emits(path, Obj(f), q0, leaf0);
    OwnerOfField(path, g, q0, leaf0, k, f[k], leaf0);
    forall q, leaf ensures Emits(Child(path, k), f[k], q, leaf) <==> Emits(Child(path, k), g[k], q, leaf) {
      if Emits(Child(path, k), f[k], q, leaf) {
        assert Emits(path, Obj(f), q, leaf);
        OwnerOfField(path, g, q, leaf, k, f[k], leaf);
      } else if Emits(Child(path, k), g[k], q, leaf) {
        assert Emits(path, Obj(g), q, leaf);
        OwnerOfField(path, f, q, leaf, k, g[k], leaf);
      }
    }
  }

  lemma ItemsCarryOver(path: string, f: seq<Tree>, g: seq<Tree>, i: nat)
    requires path != "" && f != [] && g != [] && Plain(List(f)) && Plain(List(g)) && i < |f|
    requires SameFlattening(path, List(f), List(g))
    ensures i < |g| && SameFlattening(Element(path, i), f[i], g[i])
  {
    var q0, leaf0 := EmitsSomething(Element(path, i), f[i]);
    assert Emits(path, List(f), q0, leaf0);
    OwnerOfItem(path, g, q0, leaf0, i, f[i], leaf0);
    forall q, leaf ensures Emits(Element(path, i), f[i], q, leaf) <==> Emits(Element(path, i), g[i], q, leaf) {
      if Emits(Element(path, i), f[i], q, leaf) {
        assert Emits(path, List(f), q, leaf);
        OwnerOfItem(path, g, q, leaf, i, f[i], leaf);
      } else if Emits(Element(path, i), g[i], q, leaf) {
        assert Emits(path, List(g), q, leaf);
        OwnerOfItem(path, f, q, leaf, i, g[i], leaf);
      }
    }
  }

  lemma SameShape(path: string, t: Tree, u: Tree)
    requires path != "" && Plain(t) && Plain(u) && SameFlattening(path, t, u)
    ensures if IsLeaf(t) || IsLeaf(u) then t == u else t.Obj? == u.Obj?
  {
    var q, leaf := EmitsSomething(path, t);
    var q', leaf' := EmitsSomething(path, u);
    EmitsBelow(path, t, q, leaf);
    EmitsBelow(path, u, q, leaf);
    EmitsBelow(path, t, q', leaf');
    EmitsBelow(path, u, q', leaf');
  }

  /** Flattening is injective: trees that flatten alike are equal. */
  lemma {:induction false} FlatteningIsInjective(path: string, t: Tree, u: Tree)
    requires path != "" && Plain(t) && Plain(u) && SameFlattening(path, t, u)
    ensures t == u
    decreases t
  {
    SameShape(path, t, u);
    if !IsLeaf(t) && !IsLeaf(u) {
      if t.Obj? {
        FieldsAreEqual(path, t.fields, u.fields);
      } else {
        var f, g := t.items, u.items;
        ItemsCarryOver(path, f, g, |f| - 1);
        ItemsCarryOver(path, g, f, |g| - 1);
        forall i: nat | i < |f| ensures f[i] == g[i] {
          ItemsCarryOver(path, f, g, i);
          FlatteningIsInjective(Element(path, i), f[i], g[i]);
        }
        assert f == g;
      }
    }
  }

  lemma {:induction false} FieldsAreEqual(path: string, f: map<string, Tree>, g: map<string, Tree>)
    requires f != map[] && g != map[] && Plain(Obj(f)) && Plain(Obj(g))
    requires Rooted(path, f) && Rooted(path, g) && SameFlattening(path, Obj(f), Obj(g))
    ensures f == g
    decreases Obj(f), 0
  {
    forall k | k in f ensures k in g && f[k] == g[k] {
      FieldsCarryOver(path, f, g, k);
      FlatteningIsInjective(Child(path, k), f[k], g[k]);
    }
    forall k | k in g ensures k in f {
      FieldsCarryOver(path, g, f, k);
    }
    assert f == g;
  }

  /** No path of a flattened tree holds two leaves. */
  lemma {:induction false} LeafIsUnique(path: string, t: Tree, q: string, a: Tree, b: Tree)
    requires (if path == "" then t.Obj? && t.fields != map[] && "" !in t.fields else true) && Plain(t)
    requires Emits(path, t, q, a) && Emits(path, t, q, b)
    ensures a == b
    decreases t
  {
    if !IsLeaf(t) {
      match t
      case Obj(fields) =>
        var k :| k in fields && Emits(Child(path, k), fields[k], q, a);
        OwnerOfField(path, fields, q, b, k, fields[k], a);
        LeafIsUnique(Child(path, k), fields[k], q, a, b);
      case List(items) =>
        var i: nat :| i < |items| && Emits(Element(path, i), items[i], q, a);
        OwnerOfItem(path, items, q, b, i, items[i], a);
        LeafIsUnique(Element(path, i), items[i], q, a, b);
    }
  }

  // A set of leaves, as a relation between paths and the leaves found there.
  type Leaves = (string, Tree) -> bool

  // Every path of `leaves` has one of its leaves in `out`; elsewhere `out` is `result`.
  ghost predicate Overwrites(leaves: Leaves, result: map<string, Tree>, out: map<string, Tree>) {
    && (forall q, leaf :: leaves(q, leaf) ==> q in out && leaves(q, out[q]))
    && (forall q | q in out :: leaves(q, out[q]) || (q in result && out[q] == result[q]))
    && (forall q | q in result :: q in out)
  }

  lemma OverwritesBoth(a: Leaves, b: Leaves, both: Leaves, first: map<string, Tree>, second: map<string, Tree>, third: map<string, Tree>)
    requires Overwrites(a, first, second) && Overwrites(b, second, third)
    requires forall q, leaf :: both(q, leaf) <==> a(q, leaf) || b(q, leaf)
    ensures Overwrites(both, first, third)
  {
    forall q, leaf | both(q, leaf) ensures q in third && both(q, third[q]) {
      assert a(q, leaf) || b(q, leaf);
    }
  }

  ghost function LeavesOf(path: string, t: Tree): Leaves {
    (q, leaf) => Emits(path, t, q, leaf)
  }

  // The leaves of the given fields, and of the first items.
  ghost function LeavesOfFields(path: string, fields: map<string, Tree>, keys: set<string>): Leaves {
    (q, leaf) => exists k | k in keys && k in fields :: Emits(Child(path, k), fields[k], q, leaf)
  }

  ghost function LeavesOfItems(path: string, items: seq<Tree>, n: nat): Leaves {
    (q, leaf) => exists i: nat | i < n && i < |items| :: Emits(Element(path, i), items[i], q, leaf)
  }

  lemma SameLeaves(a: Leaves, b: Leaves, result: map<string, Tree>, out: map<string, Tree>)
    requires forall q, leaf :: a(q, leaf) <==> b(q, leaf)
    requires Overwrites(a, result, out)
    ensures Overwrites(b, result, out)
  {}

  // ---------------------------------------------------------------- ordered paths

  // The order of sort.Strings. UTF-8 keeps the order of code points.
  predicate Less(a: string, b: string) {
    b != "" && (a == "" || a[0] < b[0] || (a[0] == b[0] && Less(a[1..], b[1..])))
  }

  lemma {:induction false} LessIsTransitive(a: string, b: string, c: string)
    requires Less(a, b) && Less(b, c)
    ensures Less(a, c)
  {
    if a != "" && a[0] == b[0] == c[0] {
      LessIsTransitive(a[1..], b[1..], c[1..]);
    }
  }

  lemma {:induction false} LessIsTotal(a: string, b: string)
    ensures Less(a, b) || Less(b, a) || a == b
    ensures Less(a, b) ==> a != b && !Less(b, a)
  {
    if a != "" && b != "" && a[0] == b[0] {
      LessIsTotal(a[1..], b[1..]);
      assert a == [a[0]] + a[1..] && b == [b[0]] + b[1..];
    }
  }

  /** The order is that of the first difference; a path comes before its continuations. */
  lemma {:induction false} FirstDifferenceDecides(p: string, x: char, s: string, y: char, t: string)
    requires x < y
    ensures Less(p + ([x] + s), p + ([y] + t)) && Less(p, p + ([x] + s))
  {
    var a, b := p + ([x] + s), p + ([y] + t);
    if p == "" {
      assert a[0] == x && b[0] == y;
    } else {
      assert a[1..] == p[1..] + ([x] + s) && b[1..] == p[1..] + ([y] + t);
      FirstDifferenceDecides(p[1..], x, s, y, t);
    }
  }

  predicate Ascending(paths: seq<string>) {
    forall i, j | 0 <= i < j < |paths| :: Less(paths[i], paths[j])
  }

  method LeastPath(paths: set<string>) returns (least: string)
    requires paths != {}
    ensures least in paths && forall q | q in paths && q != least :: Less(least, q)
  {
    least :| least in paths;
    var rest := paths - {least};
    while rest != {}
      invariant rest <= paths && least in paths
      invariant forall q | q in paths && q !in rest && q != least :: Less(least, q)
    {
      var q :| q in rest;
      LessIsTotal(least, q);
      if Less(q, least) {
        forall p | p in paths && p !in rest && p != least ensures Less(q, p) {
          LessIsTransitive(q, least, p);
        }
        least := q;
      }
      rest := rest - {q};
    }
  }

  function First(paths: seq<string>, n: nat): set<string>
    requires n <= |paths|
  {
    set i | 0 <= i < n :: paths[i]
  }

  lemma FirstExtends(paths: seq<string>, n: nat)
    requires n < |paths| && Ascending(paths)
    ensures First(paths, n + 1) == First(paths, n) + {paths[n]}
    ensures forall q | q in First(paths, n) :: Less(q, paths[n])
  {
  }

  method SortedPaths(paths: set<string>) returns (sorted: seq<string>)
    ensures Ascending(sorted) && First(sorted, |sorted|) == paths
  {
    sorted := [];
    var rest := paths;
    while rest != {}
      invariant rest <= paths && Ascending(sorted)
      invariant forall q :: q in sorted <==> q in paths && q !in rest
      invariant forall i, q | 0 <= i < |sorted| && q in rest :: Less(sorted[i], q)
    {
      var q := LeastPath(rest);
      sorted := sorted + [q];
      rest := rest - {q};
    }
  }

  ghost predicate IsLeast(keys: set<string>, least: string) {
    least in keys && forall q | q in keys && q != least :: Less(least, q)
  }

  lemma {:induction false} LeastExists(keys: set<string>) returns (least: string)
    requires keys != {}
    ensures IsLeast(keys, least)
    decreases |keys|
  {
    var k :| k in keys;
    var rest := keys - {k};
    least := k;
    if rest != {} {
      var l := LeastExists(rest);
      LessIsTotal(k, l);
      if Less(l, k) {
        least := l;
      } else {
        forall q | q in keys && q != k ensures Less(k, q) {
          if q != l {
            LessIsTransitive(k, l, q);
          }
        }
      }
    }
  }

  // The keys in ascending order.
  ghost function Ordered(keys: set<string>): seq<string>
    decreases |keys|
  {
    if keys == {} then []
    else
      assert exists least :: IsLeast(keys, least) by { var least := LeastExists(keys); }
      var least :| IsLeast(keys, least);
      [least] + Ordered(keys - {least})
  }

  lemma AscendingIsLeast(list: seq<string>)
    requires Ascending(list) && list != []
    ensures IsLeast(First(list, |list|), list[0])
  {
    assert list[0] in First(list, |list|);
  }

  lemma LeastIsUnique(keys: set<string>, a: string, b: string)
    requires IsLeast(keys, a) && IsLeast(keys, b)
    ensures a == b
  {
    LessIsTotal(a, b);
  }

  lemma FirstOfRest(list: seq<string>)
    requires Ascending(list) && list != []
    ensures First(list[1..], |list| - 1) == First(list, |list|) - {list[0]}
  {
    var rest := list[1..];
    forall q | q in First(list, |list|) - {list[0]} ensures q in First(rest, |rest|) {
      var i :| 0 <= i < |list| && list[i] == q;
      assert rest[i - 1] == q;
    }
    forall q | q in First(rest, |rest|) ensures q in First(list, |list|) && q != list[0] {
      var i :| 0 <= i < |rest| && rest[i] == q;
      assert list[i + 1] == q;
      LessIsTotal(list[0], list[i + 1]);
    }
  }

  lemma AscendingRest(list: seq<string>)
    requires Ascending(list) && list != []
    ensures Ascending(list[1..])
  {
    var rest := list[1..];
    forall i, j | 0 <= i < j < |rest| ensures Less(rest[i], rest[j]) {
      assert rest[i] == list[i + 1] && rest[j] == list[j + 1];
    }
  }

  lemma OrderedStartsWithLeast(keys: set<string>, least: string)
    requires IsLeast(keys, least)
    ensures Ordered(keys) == [least] + Ordered(keys - {least})
  {
    var first :| IsLeast(keys, first) && Ordered(keys) == [first] + Ordered(keys - {first});
    LeastIsUnique(keys, first, least);
  }

  lemma {:induction false} AscendingIsOrdered(list: seq<string>)
    requires Ascending(list)
    ensures list == Ordered(First(list, |list|))
    decreases |list|
  {
    var keys := First(list, |list|);
    if list == [] {
      assert keys == {};
    } else {
      var rest := list[1..];
      assert Ascending(rest) by { AscendingRest(list); }
      assert rest == Ordered(keys - {list[0]}) by {
        AscendingIsOrdered(rest);
        FirstOfRest(list);
      }
      assert Ordered(keys) == [list[0]] + rest by {
        AscendingIsLeast(list);
        OrderedStartsWithLeast(keys, list[0]);
      }
    }
  }

  // ---------------------------------------------------------------------- flattening

  // The last leaf that the tree has at a path, with the keys of an object in ascending order.
  ghost function LastLeaf(path: string, t: Tree, q: string): Option<Tree>
    decreases t
  {
    if IsLeaf(t) then (if q == path then Some(t) else None)
    else match t
      case Obj(fields) => LastOfFields(path, fields, Ordered(fields.Keys), q)
      case List(items) => LastOfItems(path, items, |items|, q)
  }

  ghost function LastOfFields(path: string, fields: map<string, Tree>, keys: seq<string>, q: string): Option<Tree>
    decreases Obj(fields), 0, |keys|
  {
    if keys == [] then None
    else
      var k := keys[|keys| - 1];
      Or(if k in fields then LastLeaf(Child(path, k), fields[k], q) else None, LastOfFields(path, fields, keys[..|keys| - 1], q))
  }

  ghost function LastOfItems(path: string, items: seq<Tree>, n: nat, q: string): Option<Tree>
    requires n <= |items|
    decreases List(items), 0, n
  {
    if n == 0 then None
    else Or(LastLeaf(Element(path, n - 1), items[n - 1], q), LastOfItems(path, items, n - 1, q))
  }

  // Where the function has a leaf it is in `out`; elsewhere `out` is `result`.
  ghost predicate Puts(last: string -> Option<Tree>, result: map<string, Tree>, out: map<string, Tree>) {
    forall q :: Lookup(out, q) == Or(last(q), Lookup(result, q))
  }

  lemma PutsBoth(a: string -> Option<Tree>, b: string -> Option<Tree>, both: string -> Option<Tree>,
                 first: map<string, Tree>, second: map<string, Tree>, third: map<string, Tree>)
    requires Puts(a, first, second) && Puts(b, second, third) && forall q :: both(q) == Or(b(q), a(q))
    ensures Puts(both, first, third)
  {
    forall q ensures Lookup(third, q) == Or(both(q), Lookup(first, q)) {
      assert Lookup(third, q) == Or(b(q), Lookup(second, q)) && Lookup(second, q) == Or(a(q), Lookup(first, q));
    }
  }

  ghost function LastIn(path: string, t: Tree): string -> Option<Tree> {
    q => LastLeaf(path, t, q)
  }

  ghost function LastInFields(path: string, fields: map<string, Tree>, keys: seq<string>): string -> Option<Tree> {
    q => LastOfFields(path, fields, keys, q)
  }

  ghost function LastInItems(path: string, items: seq<Tree>, n: nat): string -> Option<Tree>
    requires n <= |items|
  {
    q => LastOfItems(path, items, n, q)
  }

  lemma SamePuts(a: string -> Option<Tree>, b: string -> Option<Tree>, result: map<string, Tree>, out: map<string, Tree>)
    requires (forall q :: a(q) == b(q)) && Puts(a, result, out)
    ensures Puts(b, result, out)
  {}

  /** Writes the leaves of t over `result`: each path of t gets the last leaf that t has there, and no other path changes. */
  method Flatten(path: string, t: Tree, result: map<string, Tree>) returns (out: map<string, Tree>)
    ensures Overwrites(LeavesOf(path, t), result, out)
    ensures Puts(LastIn(path, t), result, out)
    decreases t
  {
    if IsLeaf(t) {
      return result[path := t];
    }
    match t
    case Obj(fields) =>
      out := FlattenFields(path, fields, result);
      SameLeaves(LeavesOfFields(path, fields, fields.Keys), LeavesOf(path, t), result, out);
      SamePuts(LastInFields(path, fields, Ordered(fields.Keys)), LastIn(path, t), result, out);
    case List(items) =>
      out := FlattenItems(path, items, result);
      SameLeaves(LeavesOfItems(path, items, |items|), LeavesOf(path, t), result, out);
      SamePuts(LastInItems(path, items, |items|), LastIn(path, t), result, out);
  }

  lemma NextField(path: string, fields: map<string, Tree>, keys: seq<string>, n: nat,
                  result: map<string, Tree>, out: map<string, Tree>, next: map<string, Tree>)
    requires n < |keys| && Ascending(keys) && forall k | k in keys :: k in fields
    requires Overwrites(LeavesOfFields(path, fields, First(keys, n)), result, out)
    requires Overwrites(LeavesOf(Child(path, keys[n]), fields[keys[n]]), out, next)
    ensures Overwrites(LeavesOfFields(path, fields, First(keys, n + 1)), result, next)
  {
    var k := keys[n];
    FirstExtends(keys, n);
    OverwritesBoth(LeavesOfFields(path, fields, First(keys, n)), LeavesOf(Child(path, k), fields[k]),
                   LeavesOfFields(path, fields, First(keys, n + 1)), result, out, next);
  }

  lemma NextFieldPuts(path: string, fields: map<string, Tree>, keys: seq<string>, n: nat,
                      result: map<string, Tree>, out: map<string, Tree>, next: map<string, Tree>)
    requires n < |keys| && forall k | k in keys :: k in fields
    requires Puts(LastInFields(path, fields, keys[..n]), result, out) && Puts(LastIn(Child(path, keys[n]), fields[keys[n]]), out, next)
    ensures Puts(LastInFields(path, fields, keys[..n + 1]), result, next)
  {
    assert keys[..n + 1][..n] == keys[..n] && keys[..n + 1][n] == keys[n];
    PutsBoth(LastInFields(path, fields, keys[..n]), LastIn(Child(path, keys[n]), fields[keys[n]]),
             LastInFields(path, fields, keys[..n + 1]), result, out, next);
  }

  method FlattenFields(path: string, fields: map<string, Tree>, result: map<string, Tree>) returns (out: map<string, Tree>)
    ensures Overwrites(LeavesOfFields(path, fields, fields.Keys), result, out)
    ensures Puts(LastInFields(path, fields, Ordered(fields.Keys)), result, out)
    decreases Obj(fields), 0
  {
    out := result;
    var keys := SortedPaths(fields.Keys);
    assert forall k | k in keys :: k in First(keys, |keys|);
    for n := 0 to |keys|
      invariant Overwrites(LeavesOfFields(path, fields, First(keys, n)), result, out)
      invariant Puts(LastInFields(path, fields, keys[..n]), result, out)
    {
      var next := Flatten(Child(path, keys[n]), fields[keys[n]], out);
      NextField(path, fields, keys, n, result, out, next);
      NextFieldPuts(path, fields, keys, n, result, out, next);
      out := next;
    }
    AscendingIsOrdered(keys);
    assert keys[..|keys|] == keys == Ordered(fields.Keys);
  }

  method FlattenItems(path: string, items: seq<Tree>, result: map<string, Tree>) returns (out: map<string, Tree>)
    ensures Overwrites(LeavesOfItems(path, items, |items|), result, out)
    ensures Puts(LastInItems(path, items, |items|), result, out)
    decreases List(items), 0
  {
    out := result;
    for i := 0 to |items|
      invariant Overwrites(LeavesOfItems(path, items, i), result, out)
      invariant Puts(LastInItems(path, items, i), result, out)
    {
      var next := Flatten(Element(path, i), items[i], out);
      OverwritesBoth(LeavesOfItems(path, items, i), LeavesOf(Element(path, i), items[i]),
                     LeavesOfItems(path, items, i + 1), result, out, next);
      PutsBoth(LastInItems(path, items, i), LastIn(Element(path, i), items[i]), LastInItems(path, items, i + 1), result, out, next);
      out := next;
    }
  }

  // The flattening of an object that may be missing.
  ghost predicate IsFlattening(o: Option<AdminObject>, values: map<string, Tree>) {
    if o.None? then values == map[]
    else forall q, leaf :: Emits("", ToTree(o.value), q, leaf) <==> q in values && values[q] == leaf
  }

  ghost predicate PlainObject(o: Option<AdminObject>) {
    o.Some? ==> Plain(Obj(o.value.spec))
  }

  lemma IndexEnds(k: string)
    requires EndsWithIndex(k)
    ensures k != "" && k[|k| - 1] == ']'
  {
    var i: nat :| |Index(i)| <= |k| && k[|k| - |Index(i)|..] == Index(i);
    assert k[|k| - 1] == k[|k| - |Index(i)|..][|Index(i)| - 1];
  }

  lemma UnbracketedIsPlain(k: string)
    requires '.' !in k && ']' !in k
    ensures PlainKey(k)
  {
    if EndsWithIndex(k) {
      IndexEnds(k);
    }
  }

  lemma AdminObjectIsPlain(o: AdminObject)
    requires Plain(Obj(o.spec))
    ensures Plain(ToTree(o)) && ToTree(o).fields != map[] && "" !in ToTree(o).fields
  {
    UnbracketedIsPlain("kind");
    UnbracketedIsPlain("metadata");
    UnbracketedIsPlain("name");
    UnbracketedIsPlain("spec");
    assert Plain(Obj(map["name" := Scalar(Str(o.name))]));
    assert "kind" in ToTree(o).fields;
  }

  // No path of the object holds two leaves.
  ghost predicate Unambiguous(o: Option<AdminObject>) {
    o.Some? ==> forall q, a, b :: Emits("", ToTree(o.value), q, a) && Emits("", ToTree(o.value), q, b) ==> a == b
  }

  lemma PlainIsUnambiguous(o: Option<AdminObject>)
    requires PlainObject(o)
    ensures Unambiguous(o)
  {
    if o.Some? {
      AdminObjectIsPlain(o.value);
      forall q, a, b | Emits("", ToTree(o.value), q, a) && Emits("", ToTree(o.value), q, b) ensures a == b {
        LeafIsUnique("", ToTree(o.value), q, a, b);
      }
    }
  }

  lemma OverwritesNothing(o: AdminObject, values: map<string, Tree>)
    requires Unambiguous(Some(o)) && Overwrites(LeavesOf("", ToTree(o)), map[], values)
    ensures IsFlattening(Some(o), values)
  {
    var t := ToTree(o);
    forall q, leaf ensures Emits("", t, q, leaf) <==> q in values && values[q] == leaf {
      if Emits("", t, q, leaf) {
        assert LeavesOf("", t)(q, leaf);
        assert Emits("", t, q, values[q]);
      } else if q in values {
        assert LeavesOf("", t)(q, values[q]);
      }
    }
  }

  // The leaf that the diff sees at a path of an object that may be missing.
  ghost function LeafSeen(o: Option<AdminObject>, q: string): Option<Tree> {
    if o.None? then None else LastLeaf("", ToTree(o.value), q)
  }

  method FlattenObject(o: Option<AdminObject>) returns (values: map<string, Tree>)
    ensures forall q :: Lookup(values, q) == LeafSeen(o, q)
    ensures Unambiguous(o) ==> IsFlattening(o, values)
  {
    if o.None? {
      return map[];
    }
    values := Flatten("", ToTree(o.value), map[]);
    assert forall q :: Lookup(values, q) == Or(LastIn("", ToTree(o.value))(q), None);
    if Unambiguous(o) {
      OverwritesNothing(o.value, values);
    }
  }

  lemma FlatteningIsUnique(o: Option<AdminObject>, v: map<string, Tree>, w: map<string, Tree>)
    requires IsFlattening(o, v) && IsFlattening(o, w)
    ensures v == w
  {
    if o.Some? {
      forall q | q in v ensures q in w && v[q] == w[q] {
        assert Emits("", ToTree(o.value), q, v[q]);
      }
      forall q | q in w ensures q in v {
        assert Emits("", ToTree(o.value), q, w[q]);
      }
    }
  }

  lemma FlatteningOfSome(o: AdminObject, v: map<string, Tree>)
    requires IsFlattening(Some(o), v)
    ensures v != map[]
  {
    var q, leaf := EmitsSomething("", ToTree(o));
    assert q in v;
  }

  lemma ObjectIsDetermined(a: AdminObject, b: AdminObject, v: map<string, Tree>)
    requires Plain(Obj(a.spec)) && Plain(Obj(b.spec))
    requires IsFlattening(Some(a), v) && IsFlattening(Some(b), v)
    ensures a == b
  {
    var t, u := ToTree(a), ToTree(b);
    AdminObjectIsPlain(a);
    AdminObjectIsPlain(b);
    FieldsAreEqual("", t.fields, u.fields);
    assert t.fields["kind"] == u.fields["kind"] && t.fields["spec"] == u.fields["spec"];
    assert t.fields["metadata"].fields["name"] == u.fields["metadata"].fields["name"];
  }

  /** Two objects flatten to the same map exactly when they are the same object. */
  lemma FlatteningDecidesEquality(before: Option<AdminObject>, after: Option<AdminObject>,
                                  beforeValues: map<string, Tree>, afterValues: map<string, Tree>)
    requires PlainObject(before) && PlainObject(after)
    requires IsFlattening(before, beforeValues) && IsFlattening(after, afterValues)
    ensures beforeValues == afterValues <==> before == after
  {
    if before == after {
      FlatteningIsUnique(before, beforeValues, afterValues);
    } else if before.Some? && after.Some? {
      if beforeValues == afterValues {
        ObjectIsDetermined(before.value, after.value, beforeValues);
      }
    } else if before.Some? {
      FlatteningOfSome(before.value, beforeValues);
    } else {
      FlatteningOfSome(after.value, afterValues);
    }
  }

  ghost predicate FlattenAlike(before: Option<AdminObject>, after: Option<AdminObject>) {
    && before.Some? == after.Some?
    && (before.Some? ==> SameFlattening("", ToTree(before.value), ToTree(after.value)))
  }

  lemma FlattenAlikeIff(before: Option<AdminObject>, after: Option<AdminObject>,
                        beforeValues: map<string, Tree>, afterValues: map<string, Tree>)
    requires IsFlattening(before, beforeValues) && IsFlattening(after, afterValues)
    ensures beforeValues == afterValues <==> FlattenAlike(before, after)
  {
    if before.Some? && after.Some? {
      if FlattenAlike(before, after) {
        forall q, leaf ensures Emits("", ToTree(before.value), q, leaf) <==> q in afterValues && afterValues[q] == leaf {
          assert Emits("", ToTree(before.value), q, leaf) <==> Emits("", ToTree(after.value), q, leaf);
        }
        FlatteningIsUnique(before, beforeValues, afterValues);
      }
    } else if before.Some? {
      FlatteningOfSome(before.value, beforeValues);
    } else if after.Some? {
      FlatteningOfSome(after.value, afterValues);
    }
  }

  datatype Change = Change(path: string, before: Tree, after: Tree)

  function ValueOrNil(v: Option<Tree>): Tree {
    if v.Some? then v.value else Scalar(Null)
  }

  // The change list holds the paths whose values differ, in order, with both values.
  ghost predicate IsDiff(changes: seq<Change>, beforeValues: map<string, Tree>, afterValues: map<string, Tree>, paths: set<string>) {
    && (forall i, j | 0 <= i < j < |changes| :: Less(changes[i].path, changes[j].path))
    && (forall c | c in changes ::
      && c.path in paths && Lookup(beforeValues, c.path) != Lookup(afterValues, c.path)
      && c.before == ValueOrNil(Lookup(beforeValues, c.path)) && c.after == ValueOrNil(Lookup(afterValues, c.path)))
    && (forall q | q in paths && Lookup(beforeValues, q) != Lookup(afterValues, q) :: exists c | c in changes :: c.path == q)
  }

  lemma EmptyDiff(changes: seq<Change>, v: map<string, Tree>, w: map<string, Tree>)
    requires IsDiff(changes, v, w, v.Keys + w.Keys)
    ensures changes == [] <==> v == w
  {
    if changes == [] {
      forall q | q in v.Keys + w.Keys ensures Lookup(v, q) == Lookup(w, q) {}
      forall q | q in v ensures q in w && v[q] == w[q] {
        assert Lookup(v, q) == Lookup(w, q);
      }
      forall q | q in w ensures q in v {
        assert Lookup(v, q) == Lookup(w, q);
      }
    } else {
      assert changes[0] in changes;
    }
  }

  lemma DiffExtends(changes: seq<Change>, v: map<string, Tree>, w: map<string, Tree>, paths: set<string>, q: string)
    requires IsDiff(changes, v, w, paths) && forall p | p in paths :: Less(p, q)
    ensures var more := if Lookup(v, q) == Lookup(w, q) then changes
                        else changes + [Change(q, ValueOrNil(Lookup(v, q)), ValueOrNil(Lookup(w, q)))];
            IsDiff(more, v, w, paths + {q})
  {
    if Lookup(v, q) != Lookup(w, q) {
      var more := changes + [Change(q, ValueOrNil(Lookup(v, q)), ValueOrNil(Lookup(w, q)))];
      assert more[|changes|].path == q && forall c | c in changes :: c in more;
      forall i, j | 0 <= i < j < |more| ensures Less(more[i].path, more[j].path) {
        assert changes[i] in changes && changes[i].path in paths;
      }
    }
  }

  method DiffValues(beforeValues: map<string, Tree>, afterValues: map<string, Tree>) returns (changes: seq<Change>)
    ensures IsDiff(changes, beforeValues, afterValues, beforeValues.Keys + afterValues.Keys)
    ensures changes == [] <==> beforeValues == afterValues
  {
    changes := [];
    var paths := SortedPaths(beforeValues.Keys + afterValues.Keys);
    for n := 0 to |paths|
      invariant IsDiff(changes, beforeValues, afterValues, First(paths, n))
    {
      var before, after := Lookup(beforeValues, paths[n]), Lookup(afterValues, paths[n]);
      FirstExtends(paths, n);
      DiffExtends(changes, beforeValues, afterValues, First(paths, n), paths[n]);
      if before != after {
        changes := changes + [Change(paths[n], ValueOrNil(before), ValueOrNil(after))];
      }
    }
    EmptyDiff(changes, beforeValues, afterValues);
  }

  // The change list is the difference of what is seen of the two objects.
  ghost predicate IsObjectDiff(changes: seq<Change>, before: Option<AdminObject>, after: Option<AdminObject>) {
    && (forall i, j | 0 <= i < j < |changes| :: Less(changes[i].path, changes[j].path))
    && (forall c | c in changes ::
      && LeafSeen(before, c.path) != LeafSeen(after, c.path)
      && c.before == (match LeafSeen(before, c.path) case Some(leaf) => leaf case None => Scalar(Null))
      && c.after == (match LeafSeen(after, c.path) case Some(leaf) => leaf case None => Scalar(Null)))
    && (forall q | LeafSeen(before, q) != LeafSeen(after, q) :: exists c | c in changes :: c.path == q)
  }

  lemma DiffOfObjects(changes: seq<Change>, before: Option<AdminObject>, after: Option<AdminObject>, v: map<string, Tree>, w: map<string, Tree>)
    requires IsDiff(changes, v, w, v.Keys + w.Keys)
    requires forall q :: Lookup(v, q) == LeafSeen(before, q)
    requires forall q :: Lookup(w, q) == LeafSeen(after, q)
    ensures IsObjectDiff(changes, before, after)
  {
    forall q | LeafSeen(before, q) != LeafSeen(after, q) ensures exists c | c in changes :: c.path == q {
      assert Lookup(v, q) != Lookup(w, q);
      assert q in v.Keys + w.Keys;
    }
  }

  /**
   The diff of two objects lists, in order, the paths at which their last leaves
   differ. Where no path has two leaves it is empty exactly when they flatten
   alike, and for plain keys exactly when they are the same object.
   */
  method DiffObjects(before: Option<AdminObject>, after: Option<AdminObject>) returns (changes: seq<Change>)
    ensures IsObjectDiff(changes, before, after)
    ensures Unambiguous(before) && Unambiguous(after) ==> (changes == [] <==> FlattenAlike(before, after))
    ensures PlainObject(before) && PlainObject(after) ==> (changes == [] <==> before == after)
  {
    var beforeValues := FlattenObject(before);
    var afterValues := FlattenObject(after);
    changes := DiffValues(beforeValues, afterValues);
    DiffOfObjects(changes, before, after, beforeValues, afterValues);
    if Unambiguous(before) && Unambiguous(after) {
      FlattenAlikeIff(before, after, beforeValues, afterValues);
    }
    if PlainObject(before) && PlainObject(after) {
      PlainIsUnambiguous(before);
      PlainIsUnambiguous(after);
      FlatteningDecidesEquality(before, after, beforeValues, afterValues);
    }
  }
}
