/**
 Which keys of a route spec can make two different objects flatten alike, so
 that their field diff is empty.
 */
module FieldCollisions {
  import opened Options
  import opened Decimals
  import opened FieldDiff

  // All keys of the tree are plain, with the possible exception of k.
  ghost predicate PlainBut(t: Tree, k: string)
    decreases t
  {
    match t
    case Scalar(_) => true
    case Obj(fields) => forall l | l in fields :: (PlainKey(l) || l == k) && PlainBut(fields[l], k)
    case List(items) => forall i | 0 <= i < |items| :: PlainBut(items[i], k)
  }

  lemma {:induction false} PlainButPlain(t: Tree, k: string)
    ensures Plain(t) ==> PlainBut(t, k)
    ensures PlainKey(k) && PlainBut(t, k) ==> Plain(t)
    decreases t
  {
    match t
    case Scalar(_) =>
    case Obj(fields) =>
      forall l | l in fields
        ensures (Plain(fields[l]) ==> PlainBut(fields[l], k)) && (PlainKey(k) && PlainBut(fields[l], k) ==> Plain(fields[l]))
      {
        PlainButPlain(fields[l], k);
      }
    case List(items) =>
      forall i | 0 <= i < |items|
        ensures (Plain(items[i]) ==> PlainBut(items[i], k)) && (PlainKey(k) && PlainBut(items[i], k) ==> Plain(items[i]))
      {
        PlainButPlain(items[i], k);
      }
  }

  // Two different objects that flatten alike, with no key but k to blame.
  ghost predicate Collide(k: string, before: AdminObject, after: AdminObject) {
    && before != after && k in before.spec
    && PlainBut(Obj(before.spec), k) && PlainBut(Obj(after.spec), k)
    && Unambiguous(Some(before)) && Unambiguous(Some(after)) && FlattenAlike(Some(before), Some(after))
  }

  // The fields hold everything that t would emit under the key k.
  ghost predicate Spells(fields: map<string, Tree>, k: string, t: Tree) {
    && fields != map[] && Plain(Obj(fields))
    && forall path, q, leaf | path != "" && Emits(Child(path, k), t, q, leaf) :: Emits(path, Obj(fields), q, leaf)
  }

  lemma PlainSpelling(k: string, t: Tree)
    requires PlainKey(k) && Plain(t)
    ensures Spells(map[k := t], k, t)
  {
    var fields := map[k := t];
    assert k in fields;
  }

  lemma DottedSpelling(a: string, b: string, t: Tree, inner: map<string, Tree>, fields: map<string, Tree>)
    requires Spells(inner, b, t) && Spells(fields, a, Obj(inner))
    ensures Spells(fields, a + "." + b, t)
  {
    forall path, q, leaf | path != "" && Emits(Child(path, a + "." + b), t, q, leaf) ensures Emits(path, Obj(fields), q, leaf) {
      assert Child(path, a + "." + b) == Child(Child(path, a), b);
      assert Emits(Child(path, a), Obj(inner), q, leaf);
    }
  }

  lemma ItemEmits(path: string, items: seq<Tree>, i: nat, q: string, leaf: Tree)
    requires i < |items| && Emits(Element(path, i), items[i], q, leaf)
    ensures Emits(path, List(items), q, leaf)
  {
  }

  lemma IndexedSpelling(a: string, i: nat, t: Tree, items: seq<Tree>, fields: map<string, Tree>)
    requires i < |items| && items[i] == t && Spells(fields, a, List(items))
    ensures Spells(fields, a + Index(i), t)
  {
    forall path, q, leaf | path != "" && Emits(Child(path, a + Index(i)), t, q, leaf) ensures Emits(path, Obj(fields), q, leaf) {
      assert Child(path, a + Index(i)) == Element(Child(path, a), i);
      ItemEmits(Child(path, a), items, i, q, leaf);
    }
  }

  // Whatever the key, nested objects and lists under plain keys emit the same paths.
  lemma {:induction false} Spelled(k: string, t: Tree) returns (fields: map<string, Tree>)
    requires Plain(t)
    ensures Spells(fields, k, t)
    decreases |k|
  {
    if '.' in k {
      var n :| 0 <= n < |k| && k[n] == '.';
      var a, b := k[..n], k[n + 1..];
      assert k == a + "." + b;
      var inner := Spelled(b, t);
      fields := Spelled(a, Obj(inner));
      DottedSpelling(a, b, t, inner, fields);
    } else if EndsWithIndex(k) {
      var i: nat :| |Index(i)| <= |k| && k[|k| - |Index(i)|..] == Index(i);
      var a := k[..|k| - |Index(i)|];
      assert k == a + Index(i);
      var items := seq(i + 1, _ => t);
      assert Plain(List(items));
      fields := Spelled(a, List(items));
      IndexedSpelling(a, i, t, items, fields);
    } else {
      fields := map[k := t];
      PlainSpelling(k, t);
    }
  }

  // Where every field of f emits no more than the same field of g, f emits no more than g.
  lemma FieldsEmit(path: string, f: map<string, Tree>, g: map<string, Tree>, q: string, leaf: Tree)
    requires f != map[] && f.Keys <= g.Keys && Emits(path, Obj(f), q, leaf)
    requires forall k | k in f :: Emits(Child(path, k), f[k], q, leaf) ==> Emits(Child(path, k), g[k], q, leaf)
    ensures Emits(path, Obj(g), q, leaf)
  {
    var k :| k in f && Emits(Child(path, k), f[k], q, leaf);
    assert k in g && Emits(Child(path, k), g[k], q, leaf);
    assert g != map[];
  }

  lemma ExtraKeyChangesNothing(path: string, fields: map<string, Tree>, k: string, t: Tree)
    requires path != "" && Spells(fields, k, t) && k !in fields
    ensures SameFlattening(path, Obj(fields[k := t]), Obj(fields))
  {
    var more := fields[k := t];
    assert k in more;
    forall q, leaf | Emits(path, Obj(more), q, leaf) ensures Emits(path, Obj(fields), q, leaf) {
      var l :| l in more && Emits(Child(path, l), more[l], q, leaf);
      if l != k {
        assert l in fields;
      }
    }
    forall q, leaf | Emits(path, Obj(fields), q, leaf) ensures Emits(path, Obj(more), q, leaf) {
      FieldsEmit(path, fields, more, q, leaf);
    }
  }

  lemma SpecEmits(a: AdminObject, b: AdminObject, q: string, leaf: Tree)
    requires a.kind == b.kind && a.name == b.name && SameFlattening("spec", Obj(a.spec), Obj(b.spec))
    requires Emits("", ToTree(a), q, leaf)
    ensures Emits("", ToTree(b), q, leaf)
  {
    var f, g := ToTree(a).fields, ToTree(b).fields;
    assert "kind" in f;
    forall k | k in f ensures k in g && (Emits(Child("", k), f[k], q, leaf) ==> Emits(Child("", k), g[k], q, leaf)) {
      if k == "spec" {
        assert f[k] == Obj(a.spec) && g[k] == Obj(b.spec);
      } else {
        assert f[k] == g[k];
      }
    }
    FieldsEmit("", f, g, q, leaf);
  }

  lemma SpecsDecide(a: AdminObject, b: AdminObject)
    requires a.kind == b.kind && a.name == b.name && SameFlattening("spec", Obj(a.spec), Obj(b.spec))
    ensures FlattenAlike(Some(a), Some(b))
  {
    forall q, leaf | Emits("", ToTree(a), q, leaf) ensures Emits("", ToTree(b), q, leaf) {
      SpecEmits(a, b, q, leaf);
    }
    forall q, leaf | Emits("", ToTree(b), q, leaf) ensures Emits("", ToTree(a), q, leaf) {
      SpecEmits(b, a, q, leaf);
    }
  }

  /** For every key that is not plain there are two objects with an empty diff that differ in that key alone. */
  lemma UnplainKeyCollides(kind: string, name: string, k: string, v: Atom) returns (fields: map<string, Tree>)
    requires !PlainKey(k)
    ensures k !in fields
    ensures Collide(k, AdminObject(kind, name, fields[k := Scalar(v)]), AdminObject(kind, name, fields))
  {
    fields := Spelled(k, Scalar(v));
    var before, after := AdminObject(kind, name, fields[k := Scalar(v)]), AdminObject(kind, name, fields);
    ExtraKeyChangesNothing("spec", fields, k, Scalar(v));
    SpecsDecide(before, after);
    PlainIsUnambiguous(Some(after));
    PlainButPlain(Obj(fields), k);
    assert k in before.spec;
  }

  /**
   Exactly the keys that contain a dot or end with an index can collide: with
   any other key, and otherwise plain ones, objects that flatten alike are equal.
   */
  lemma KeyCollidesIff(k: string)
    ensures (exists before, after :: Collide(k, before, after)) <==> !PlainKey(k)
  {
    if !PlainKey(k) {
      var fields := UnplainKeyCollides("", "", k, Null);
    } else {
      forall before, after ensures !Collide(k, before, after) {
        if Collide(k, before, after) {
          PlainButPlain(Obj(before.spec), k);
          PlainButPlain(Obj(after.spec), k);
          AlikeIsEqual(before, after);
        }
      }
    }
  }

  lemma AlikeIsEqual(a: AdminObject, b: AdminObject)
    requires Plain(Obj(a.spec)) && Plain(Obj(b.spec)) && FlattenAlike(Some(a), Some(b))
    ensures a == b
  {
    var t, u := ToTree(a), ToTree(b);
    AdminObjectIsPlain(a);
    AdminObjectIsPlain(b);
    FieldsAreEqual("", t.fields, u.fields);
    assert t.fields["kind"] == u.fields["kind"] && t.fields["spec"] == u.fields["spec"];
    assert t.fields["metadata"].fields["name"] == u.fields["metadata"].fields["name"];
  }

  /** A bracket that no index ends is harmless, whatever stands before it. */
  lemma OpenBracketIsPlain(a: string, i: nat, b: string)
    requires '.' !in a && '.' !in b && b != "" && b[|b| - 1] != ']'
    ensures PlainKey(a + Index(i) + b)
  {
    var k := a + Index(i) + b;
    assert k[|k| - 1] == b[|b| - 1];
    if EndsWithIndex(k) {
      IndexEnds(k);
    }
  }
}
