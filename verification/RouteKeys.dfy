/** The trie keys of routes, from the characters of the path or prefix they are configured with. */
module RouteKeys {
  import opened Options
  import opened RouteIdentity
  import opened RouteSnapshot

  function BeforeQuery(s: string): string {
    if s == "" || s[0] == '?' then "" else [s[0]] + BeforeQuery(s[1..])
  }

  predicate IsLetter(c: char) {
    'a' <= c <= 'z' || 'A' <= c <= 'Z'
  }

  predicate IsSchemeChar(c: char) {
    IsLetter(c) || '0' <= c <= '9' || c == '+' || c == '.' || c == '-'
  }

  // Where "://" ends, if nothing but scheme characters comes before it from i on.
  function SchemeEnd(s: string, i: nat): Option<nat>
    requires i <= |s|
    decreases |s| - i
  {
    if i < |s| && IsSchemeChar(s[i]) then SchemeEnd(s, i + 1)
    else if i + 3 <= |s| && s[i..i + 3] == "://" then Some(i + 3)
    else None
  }

  function Scheme(s: string): Option<nat> {
    if s != "" && IsLetter(s[0]) then SchemeEnd(s, 1) else None
  }

  function AfterSlash(s: string): string {
    if s == "" then "" else if s[0] == '/' then s[1..] else AfterSlash(s[1..])
  }

  // The path without its query, and without scheme and authority if it has them.
  function CleanPath(path: string): string {
    var p := BeforeQuery(path);
    match Scheme(p)
    case Some(n) => (if n <= |p| then AfterSlash(p[n..]) else p)
    case None => p
  }

  predicate EndsInSlash(s: string) {
    s != "" && s[|s| - 1] == '/'
  }

  // ------------------------------------------------------------------ plain paths

  function WithoutFirstSlash(path: string): string {
    if path != "" && path[0] == '/' then path[1..] else path
  }

  lemma KeyCharacters(m: string, path: string)
    requires Named(m)
    ensures var p := WithoutFirstSlash(path);
            TrieKey(m, path) == if p == "" then m else if EndsInSlash(p) then m + "/" + p[..|p| - 1] else m + "/" + p
  {
    var full := m + "/" + WithoutFirstSlash(path);
    assert path != "" && path[0] == '/' ==> m + path == full;
  }

  /** A key has its method, then the segments of the path; one slash at either end of the path does not count. */
  lemma KeySegments(m: string, path: string)
    requires Named(m)
    ensures var p := WithoutFirstSlash(path);
            Split(TrieKey(m, path)) == [m] + if p == "" then [] else if EndsInSlash(p) then Split(p[..|p| - 1]) else Split(p)
  {
    var p := WithoutFirstSlash(path);
    KeyCharacters(m, path);
    SplitNoSlash(m);
    if p != "" {
      SplitConcat(m, if EndsInSlash(p) then p[..|p| - 1] else p);
    }
  }

  // --------------------------------------------------------------------- prefixes

  lemma {:induction false} NothingToCut(s: string)
    requires '?' !in s
    ensures BeforeQuery(s) == s
  {
    if s != "" {
      NothingToCut(s[1..]);
    }
  }

  lemma {:induction false} SchemeEndIsAfter(s: string, i: nat)
    requires i <= |s| && SchemeEnd(s, i).Some?
    ensures var n := SchemeEnd(s, i).value; i + 3 <= n <= |s| && s[n - 3..n] == "://"
    decreases |s| - i
  {
    if i < |s| && IsSchemeChar(s[i]) {
      SchemeEndIsAfter(s, i + 1);
    }
  }

  // What comes after a scheme does not matter for finding it, unless it completes it.
  lemma {:induction false} SchemeEndExtends(s: string, tail: string, i: nat)
    requires i <= |s| && (tail == "" || !IsSchemeChar(tail[0]))
    ensures var n := SchemeEnd(s + tail, i);
            if n.Some? && n.value > |s| then SchemeEnd(s, i).None? else n == SchemeEnd(s, i)
    decreases |s| - i
  {
    var t := s + tail;
    if i < |s| {
      assert t[i] == s[i];
      if IsSchemeChar(s[i]) {
        SchemeEndExtends(s, tail, i + 1);
      } else if i + 3 <= |s| {
        assert t[i..i + 3] == s[i..i + 3];
      }
    }
  }

  lemma {:induction false} AfterSlashExtends(s: string, tail: string)
    requires s != "" && s[|s| - 1] == '/'
    ensures AfterSlash(s + tail) == AfterSlash(s) + tail && (AfterSlash(s) == "" || AfterSlash(s)[|AfterSlash(s)| - 1] == '/')
  {
    var t := s + tail;
    if s[0] == '/' {
      assert t[1..] == s[1..] + tail;
    } else {
      assert t[1..] == s[1..] + tail;
      AfterSlashExtends(s[1..], tail);
    }
  }

  lemma {:induction false} NoSlashAfter(s: string)
    requires NoSlash(s)
    ensures AfterSlash(s) == ""
  {
    if s != "" {
      NoSlashAfter(s[1..]);
    }
  }

  lemma NotCompleted(prefix: string, n: nat)
    requires prefix != "" && |prefix| < n <= |AllBelow(prefix)| && n >= 3
    ensures AllBelow(prefix)[n - 3..n] != "://"
  {
    var path := AllBelow(prefix);
    var end := path[n - 3..n];
    assert end[1] == path[n - 2] && end[2] == path[n - 1];
    assert path[|path| - 1] == '*' && path[|path| - 2] == '*';
    assert path[|prefix| - 1] == prefix[|prefix| - 1];
  }

  // A scheme is found in what is below a prefix where it is found in the prefix.
  lemma SchemeOfBelow(prefix: string)
    requires prefix != ""
    ensures Scheme(AllBelow(prefix)) == Scheme(prefix)
  {
    var tail := if EndsInSlash(prefix) then "**" else "/**";
    var path := prefix + tail;
    assert AllBelow(prefix) == path;
    if IsLetter(prefix[0]) {
      SchemeEndExtends(prefix, tail, 1);
      if SchemeEnd(path, 1).Some? {
        SchemeEndIsAfter(path, 1);
        if SchemeEnd(path, 1).value > |prefix| {
          NotCompleted(prefix, SchemeEnd(path, 1).value);
        }
      }
    }
  }

  lemma {:induction false} SplitEndsInAll(q: string)
    requires q == "" || EndsInSlash(q)
    ensures var parts := Split(q + "**"); parts[|parts| - 1] == "**"
  {
    SplitNoSlash("**");
    if q == "" {
      assert q + "**" == "**";
    } else {
      assert q + "**" == q[..|q| - 1] + "/" + "**";
      SplitConcat(q[..|q| - 1], "**");
    }
  }

  // The last segment of a key whose path ends in "/**", or is "**".
  lemma KeyEndsInAll(m: string, c: string)
    requires Named(m) && (c == "" || EndsInSlash(c))
    ensures var parts := Split(TrieKey(m, c + "**")); |parts| > 1 && parts[|parts| - 1] == "**"
  {
    var q := if c != "" && c[0] == '/' then c[1..] else c;
    var path := c + "**";
    assert WithoutFirstSlash(path) == q + "**" && (q + "**")[|q| + 1] == '*';
    KeySegments(m, path);
    SplitEndsInAll(q);
  }

  // What is left of a path below a prefix that is more than a scheme.
  lemma CleanBelow(prefix: string) returns (c: string)
    requires prefix != "" && '?' !in prefix && Scheme(prefix) != Some(|prefix|)
    ensures CleanPath(AllBelow(prefix)) == c + "**" && (c == "" || EndsInSlash(c))
  {
    var p := if EndsInSlash(prefix) then prefix else prefix + "/";
    var path := AllBelow(prefix);
    assert path == p + "**" && '?' !in path;
    NothingToCut(path);
    SchemeOfBelow(prefix);
    c := p;
    if Scheme(prefix).Some? {
      var n := Scheme(prefix).value;
      SchemeEndIsAfter(prefix, 1);
      assert path[n..] == p[n..] + "**" && EndsInSlash(p[n..]);
      AfterSlashExtends(p[n..], "**");
      c := AfterSlash(p[n..]);
    }
  }

  lemma CleanBelowScheme(prefix: string)
    requires prefix != "" && '?' !in prefix && Scheme(prefix) == Some(|prefix|)
    ensures CleanPath(AllBelow(prefix)) == ""
  {
    var n := |prefix|;
    SchemeEndIsAfter(prefix, 1);
    assert prefix[n - 1] == prefix[n - 3..n][2] == '/';
    var path := AllBelow(prefix);
    assert path == prefix + "**" && '?' !in path;
    NothingToCut(path);
    SchemeOfBelow(prefix);
    assert path[n..] == "**";
    NoSlashAfter("**");
  }

  /**
   The key of a prefix route ends in a match-all segment, so that the route is
   found for everything below its prefix. The one exception among prefixes
   without a query is a prefix that is a scheme and nothing else.
   */
  lemma PrefixKeyEndsInAll(m: string, r: Router)
    requires Named(m) && r.prefix != "" && '?' !in r.prefix
    ensures var parts := Split(KeyOf(CleanPath, m, r));
            |parts| > 1 && parts[|parts| - 1] == "**" <==> Scheme(r.prefix) != Some(|r.prefix|)
  {
    if Scheme(r.prefix) == Some(|r.prefix|) {
      CleanBelowScheme(r.prefix);
      KeySegments(m, "");
    } else {
      var c := CleanBelow(r.prefix);
      KeyEndsInAll(m, c);
    }
  }
}
