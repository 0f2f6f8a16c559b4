/**
 The identity under which route candidates are filed. Parameters and
 single-segment wildcards count as the same segment, so routes that differ only
 in how they spell them end up in one candidate list.
 */
module RouteIdentity {
  import opened Options

  // The parts between slashes.
  function Split(s: string): (parts: seq<string>)
    ensures parts != []
  {
    if s == "" then [""]
    else
      var rest := Split(s[1..]);
      if s[0] == '/' then [""] + rest else [[s[0]] + rest[0]] + rest[1..]
  }

  function Join(parts: seq<string>): string {
    if parts == [] then "" else if |parts| == 1 then parts[0] else parts[0] + "/" + Join(parts[1..])
  }

  predicate NoSlash(s: string) {
    forall i | 0 <= i < |s| :: s[i] != '/'
  }

  lemma {:induction false} SplitHasNoSlash(s: string)
    ensures forall i | 0 <= i < |Split(s)| :: NoSlash(Split(s)[i])
  {
    if s != "" {
      SplitHasNoSlash(s[1..]);
    }
  }

  /** Joining the parts gives the string back. */
  lemma {:induction false} JoinSplit(s: string)
    ensures Join(Split(s)) == s
  {
    if s != "" {
      var rest := Split(s[1..]);
      JoinSplit(s[1..]);
      if s[0] == '/' {
        assert ([""] + rest)[1..] == rest;
      } else {
        var parts := [[s[0]] + rest[0]] + rest[1..];
        assert parts[1..] == rest[1..];
        assert Join(parts) == [s[0]] + Join(rest);
      }
    }
  }

  lemma {:induction false} SplitNoSlash(s: string)
    requires NoSlash(s)
    ensures Split(s) == [s]
  {
    if s != "" {
      SplitNoSlash(s[1..]);
      assert [s[0]] + s[1..] == s;
    }
  }

  lemma {:induction false} SplitAtSlash(s: string, i: nat)
    requires i < |s| && s[i] == '/' && NoSlash(s[..i])
    ensures Split(s) == [s[..i]] + Split(s[i + 1..])
  {
    if i > 0 {
      assert s[1..][..i - 1] == s[..i][1..] && s[1..][i..] == s[i + 1..];
      SplitAtSlash(s[1..], i - 1);
      assert s[..i][0] == s[0];
      assert [s[0]] + s[1..][..i - 1] == s[..i];
    }
  }

  /** Splitting joined parts gives the parts back. */
  lemma {:induction false} SplitJoin(parts: seq<string>)
    requires parts != [] && forall i | 0 <= i < |parts| :: NoSlash(parts[i])
    ensures Split(Join(parts)) == parts
  {
    if |parts| == 1 {
      SplitNoSlash(parts[0]);
    } else {
      var s, n := Join(parts), |parts[0]|;
      assert s[..n] == parts[0] && s[n] == '/' && s[n + 1..] == Join(parts[1..]);
      SplitAtSlash(s, n);
      SplitJoin(parts[1..]);
    }
  }

  predicate IsVariable(part: string) {
    part != "" && (part[0] == ':' || part == "*")
  }

  // The parts after the first with every variable or wildcard replaced.
  function Replace(parts: seq<string>, token: string): (r: seq<string>)
    ensures |r| == |parts| && forall i | 0 <= i < |parts| :: r[i] == if i > 0 && IsVariable(parts[i]) then token else parts[i]
  {
    seq(|parts|, i requires 0 <= i < |parts| => if i > 0 && IsVariable(parts[i]) then token else parts[i])
  }

  // What trieRouteIdentity is meant to compute.
  function Identity(key: string): string {
    Join(Replace(Split(key), "*"))
  }

  // The admin's conflict key has a colon in the place of every variable.
  function ConflictForm(key: string): string {
    Join(Replace(Split(key), ":"))
  }

  // The two keys have the same segments up to the spelling of variables.
  predicate SameSegments(a: string, b: string) {
    var p, q := Split(a), Split(b);
    |p| == |q| && forall i | 0 <= i < |p| :: p[i] == q[i] || (i > 0 && IsVariable(p[i]) && IsVariable(q[i]))
  }

  lemma ReplacedKeepsParts(key: string, token: string)
    requires NoSlash(token)
    ensures Split(Join(Replace(Split(key), token))) == Replace(Split(key), token)
  {
    SplitHasNoSlash(key);
    SplitJoin(Replace(Split(key), token));
  }

  lemma FormDecidesSegments(a: string, b: string, token: string)
    requires NoSlash(token) && IsVariable(token)
    ensures Join(Replace(Split(a), token)) == Join(Replace(Split(b), token)) <==> SameSegments(a, b)
  {
    ReplacedKeepsParts(a, token);
    ReplacedKeepsParts(b, token);
    var p, q := Split(a), Split(b);
    if SameSegments(a, b) {
      assert Replace(p, token) == Replace(q, token);
    } else if Replace(p, token) == Replace(q, token) {
      forall i | 0 <= i < |p| ensures p[i] == q[i] || (i > 0 && IsVariable(p[i]) && IsVariable(q[i])) {
        assert Replace(p, token)[i] == Replace(q, token)[i];
      }
    }
  }

  /** Two keys have one identity exactly when their segments agree up to variables, and exactly when the admin sees a conflict. */
  lemma IdentityDecidesSegments(a: string, b: string)
    ensures Identity(a) == Identity(b) <==> SameSegments(a, b)
    ensures ConflictForm(a) == ConflictForm(b) <==> SameSegments(a, b)
  {
    FormDecidesSegments(a, b, "*");
    FormDecidesSegments(a, b, ":");
  }

  // r has the segments of key in their order, with "*" for each parameter and wildcard after the first.
  predicate Generalises(key: string, r: string) {
    var p, q := Split(key), Split(r);
    && |q| == |p| && q[0] == p[0]
    && forall i | 0 < i < |p| :: q[i] == if p[i] == "*" || (p[i] != "" && p[i][0] == ':') then "*" else p[i]
  }

  lemma IdentityGeneralises(key: string)
    ensures Generalises(key, Identity(key))
  {
    ReplacedKeepsParts(key, "*");
  }

  lemma {:induction false} SplitConcat(a: string, b: string)
    ensures Split(a + "/" + b) == Split(a) + Split(b)
  {
    var s := a + "/" + b;
    if a != "" {
      assert s[1..] == a[1..] + "/" + b;
      SplitConcat(a[1..], b);
    } else {
      assert s[1..] == b;
    }
  }

  // A segment between slashes, in the middle of a key or at its end.
  lemma SplitAround(before: string, segment: string, tail: string)
    requires NoSlash(segment) && (tail == "" || tail[0] == '/')
    ensures Split(before + "/" + segment + tail) == Split(before) + [segment] + if tail == "" then [] else Split(tail[1..])
  {
    SplitNoSlash(segment);
    if tail == "" {
      assert before + "/" + segment + tail == before + "/" + segment;
      SplitConcat(before, segment);
    } else {
      assert before + "/" + segment + tail == before + "/" + segment + "/" + tail[1..];
      SplitConcat(before + "/" + segment, tail[1..]);
      SplitConcat(before, segment);
    }
  }

  lemma OneSegmentApart(before: string, m: string, n: string, tail: string)
    requires NoSlash(m) && NoSlash(n) && IsVariable(m) && IsVariable(n) && (tail == "" || tail[0] == '/')
    ensures Identity(before + "/" + m + tail) == Identity(before + "/" + n + tail)
  {
    var a, b := before + "/" + m + tail, before + "/" + n + tail;
    assert SameSegments(a, b) by {
      SplitAround(before, m, tail);
      SplitAround(before, n, tail);
    }
    IdentityDecidesSegments(a, b);
  }

  /** The name of a parameter never matters: keys that differ only in it, or have a wildcard there, have one identity. */
  lemma ParameterNamesDoNotMatter(before: string, m: string, n: string, tail: string)
    requires NoSlash(m) && NoSlash(n) && (tail == "" || tail[0] == '/')
    ensures Identity(before + "/" + (":" + m) + tail) == Identity(before + "/" + (":" + n) + tail)
    ensures Identity(before + "/" + (":" + m) + tail) == Identity(before + "/" + "*" + tail)
  {
    OneSegmentApart(before, ":" + m, ":" + n, tail);
    OneSegmentApart(before, ":" + m, "*", tail);
  }

  method IndexSlash(s: string) returns (r: Option<nat>)
    ensures r.Some? ==> r.value < |s| && s[r.value] == '/' && NoSlash(s[..r.value])
    ensures r.None? ==> NoSlash(s)
  {
    for i := 0 to |s|
      invariant NoSlash(s[..i])
    {
      if s[i] == '/' {
        return Some(i);
      }
    }
    assert s[..|s|] == s;
    r := None;
  }

  method ReplaceAndJoin(key: string) returns (r: string)
    ensures r == Identity(key)
  {
    var parts := Split(key);
    for i := 1 to |parts|
      invariant |parts| == |Split(key)| && parts[0] == Split(key)[0]
      invariant forall j | 0 < j < |parts| ::
        parts[j] == if j < i && IsVariable(Split(key)[j]) then "*" else Split(key)[j]
    {
      if IsVariable(parts[i]) {
        parts := parts[i := "*"];
      }
    }
    assert parts == Replace(Split(key), "*");
    r := Join(parts);
  }

  lemma NothingToReplace(key: string)
    requires forall i | 0 < i < |Split(key)| :: !IsVariable(Split(key)[i])
    ensures Identity(key) == key
  {
    JoinSplit(key);
    assert Replace(Split(key), "*") == Split(key);
  }

  // The parts before `start` are done and none of them, after the first, is a variable.
  ghost predicate Scanned(key: string, start: nat, done: seq<string>) {
    && start <= |key| && done != [] && Split(key) == done + Split(key[start..])
    && (forall i | 0 < i < |done| :: !IsVariable(done[i]))
  }

  lemma LastSegment(key: string, start: nat, done: seq<string>)
    requires Scanned(key, start, done) && NoSlash(key[start..]) && !IsVariable(key[start..])
    ensures Identity(key) == key
  {
    SplitNoSlash(key[start..]);
    NothingToReplace(key);
  }

  lemma NextSegment(key: string, start: nat, end: nat, done: seq<string>)
    requires Scanned(key, start, done) && start <= end < |key| && key[end] == '/'
    requires NoSlash(key[start..end]) && !IsVariable(key[start..end])
    ensures Scanned(key, end + 1, done + [key[start..end]])
  {
    var rest, n := key[start..], end - start;
    assert rest[..n] == key[start..end] && rest[n + 1..] == key[end + 1..];
    SplitAtSlash(rest, n);
    assert done + ([key[start..end]] + Split(key[end + 1..])) == (done + [key[start..end]]) + Split(key[end + 1..]);
  }

  /** The scan that keeps literal keys as they are computes the identity of every key. */
  method TrieRouteIdentity(key: string) returns (r: string)
    ensures r == Identity(key) && Generalises(key, r)
  {
    IdentityGeneralises(key);
    var first := IndexSlash(key);
    if first.None? {
      SplitNoSlash(key);
      NothingToReplace(key);
      return key;
    }
    SplitAtSlash(key, first.value);
    var start: nat := first.value + 1;
    ghost var done := [key[..first.value]];
    while true
      invariant Scanned(key, start, done)
      decreases |key| - start
    {
      var next := IndexSlash(key[start..]);
      var end: nat := if next.None? then |key| else start + next.value;
      assert key[start..][..end - start] == key[start..end];
      if IsVariable(key[start..end]) {
        break;
      }
      if end == |key| {
        LastSegment(key, start, done);
        return key;
      }
      NextSegment(key, start, end, done);
      done := done + [key[start..end]];
      start := end + 1;
    }
    r := ReplaceAndJoin(key);
  }
}
