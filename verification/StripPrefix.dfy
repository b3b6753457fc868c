/**
 `PathPrefixStrip`: the matcher (rules/rules.go) and the middleware that strips the longest
 configured prefix (middlewares/stripPrefix.go).
 */
module StripPrefix {
  import opened Text
  import opened Sequences
  import Rules
  import opened Wrappers

  // ---------- the middleware ----------

  function TrimPrefix(s: string, prefix: string): string {
    if prefix <= s then s[|prefix|..] else s
  }

  function EnsureLeadingSlash(s: string): string {
    "/" + TrimPrefix(s, "/")
  }

  function Strip(s: string, prefix: string): string {
    EnsureLeadingSlash(TrimPrefix(s, prefix))
  }

  class Request {
    var path: string
    var rawPath: string
    var forwardedPrefixes: seq<string>

    constructor (path: string, rawPath: string)
      ensures this.path == path && this.rawPath == rawPath && forwardedPrefixes == []
    {
      this.path, this.rawPath, forwardedPrefixes := path, rawPath, [];
    }
  }

  /** The first prefix of the list that the path has. */
  function FirstPrefix(prefixes: seq<string>, path: string): Option<string> {
    if prefixes == [] then None
    else if prefixes[0] <= path then Some(prefixes[0])
    else FirstPrefix(prefixes[1..], path)
  }

  class StripPrefixHandler {
    const prefixes: seq<string>

    constructor (prefixes: seq<string>)
      ensures this.prefixes == prefixes
    {
      this.prefixes := prefixes;
    }

    /** `ServeHTTP`: the rewritten request goes on, or the answer is not-found. */
    method ServeHTTP(r: Request) returns (forwarded: bool)
      modifies r
      ensures forwarded <==> FirstPrefix(prefixes, old(r.path)).Some?
      ensures !forwarded ==> unchanged(r)
      ensures forwarded ==>
                var prefix := FirstPrefix(prefixes, old(r.path)).value;
                && r.path == Strip(old(r.path), prefix)
                && r.rawPath == (if old(r.rawPath) == "" then "" else Strip(old(r.rawPath), prefix))
                && r.forwardedPrefixes == old(r.forwardedPrefixes) + [TrimSpace(prefix)]
    {
      for i := 0 to |prefixes|
        invariant unchanged(r)
        invariant FirstPrefix(prefixes[i..], r.path) == FirstPrefix(prefixes, r.path)
      {
        var prefix := prefixes[i];
        assert prefixes[i..][1..] == prefixes[i + 1..];
        if prefix <= r.path {
          r.path := Strip(r.path, prefix);
          if r.rawPath != "" {
            r.rawPath := Strip(r.rawPath, prefix);
          }
          r.forwardedPrefixes := r.forwardedPrefixes + [TrimSpace(prefix)];
          return true;
        }
      }
      return false;
    }
  }

  // ---------- the matcher and the sort ----------

  /** Without a brace, `buildPath` installs `prefixMatcher`; with one, the path goes to the router. */
  predicate BraceFree(paths: seq<string>) {
    AllFree(paths, '{')
  }

  /** `prefixMatcher.Match` for the cleaned path. */
  predicate MatcherAccepts(prefix: string, path: string) {
    prefix <= path || prefix + "/" <= path
  }

  ghost predicate Accepts(paths: seq<string>, path: string)
    requires BraceFree(paths)
  {
    exists i :: 0 <= i < |paths| && MatcherAccepts(TrimSpace(paths[i]), path)
  }

  /** A result of `sort.Sort(bySize(paths))`, whatever it does with prefixes of equal length. */
  predicate SortedBySize(sorted: seq<string>, paths: seq<string>) {
    && multiset(sorted) == multiset(paths)
    && forall i, j :: 0 <= i < j < |sorted| ==> |sorted[i]| >= |sorted[j]|
  }

  ghost predicate HasSomePrefix(paths: seq<string>, path: string) {
    exists i :: 0 <= i < |paths| && paths[i] <= path
  }

  /** Position `i` holds the first prefix of the list that the path has. */
  ghost predicate FirstAt(prefixes: seq<string>, path: string, i: nat) {
    i < |prefixes| && prefixes[i] <= path && forall k :: 0 <= k < i ==> !(prefixes[k] <= path)
  }

  lemma {:induction false} FirstPrefixFound(prefixes: seq<string>, path: string) returns (i: nat)
    requires HasSomePrefix(prefixes, path)
    ensures FirstAt(prefixes, path, i) && FirstPrefix(prefixes, path) == Some(prefixes[i])
  {
    if prefixes[0] <= path {
      i := 0;
    } else {
      var k :| 0 <= k < |prefixes| && prefixes[k] <= path;
      assert prefixes[1..][k - 1] == prefixes[k];
      i := FirstPrefixFound(prefixes[1..], path);
      i := i + 1;
    }
  }

  lemma {:induction false} FirstPrefixMissing(prefixes: seq<string>, path: string)
    requires !HasSomePrefix(prefixes, path)
    ensures FirstPrefix(prefixes, path) == None
  {
    if prefixes != [] {
      assert !(prefixes[0] <= path);
      forall k | 0 <= k < |prefixes[1..]| ensures !(prefixes[1..][k] <= path) {
        assert prefixes[1..][k] == prefixes[k + 1];
      }
      FirstPrefixMissing(prefixes[1..], path);
    }
  }

  predicate LongestOf(prefix: string, paths: seq<string>, path: string) {
    && prefix in paths && prefix <= path
    && forall q :: q in paths && q <= path ==> |q| <= |prefix|
  }

  /** The first prefix in any order by size is the longest one the path has. */
  lemma FirstIsLongest(paths: seq<string>, sorted: seq<string>, path: string)
    requires SortedBySize(sorted, paths)
    ensures FirstPrefix(sorted, path).Some? <==> HasSomePrefix(paths, path)
    ensures FirstPrefix(sorted, path).Some? ==> LongestOf(FirstPrefix(sorted, path).value, paths, path)
  {
    PermutationMembers(sorted, paths);
    if HasSomePrefix(sorted, path) {
      var i := FirstPrefixFound(sorted, path);
      assert sorted[i] in paths;
      forall q | q in paths && q <= path ensures |q| <= |sorted[i]| {
        var j :| 0 <= j < |sorted| && sorted[j] == q;
        assert j >= i;
      }
    } else {
      FirstPrefixMissing(sorted, path);
      forall k | 0 <= k < |paths| ensures !(paths[k] <= path) {
        assert paths[k] in sorted;
      }
    }
  }

  /**
   For trimmed prefixes every accepted path is stripped of the longest prefix it has, the rest follows one
   leading slash, and no order of equally long prefixes makes a difference.
   */
  lemma LongestPrefixStripped(paths: seq<string>, sorted: seq<string>, path: string)
    requires BraceFree(paths) && (forall i :: 0 <= i < |paths| ==> Trimmed(paths[i]))
    requires SortedBySize(sorted, paths) && Accepts(paths, path)
    ensures FirstPrefix(sorted, path).Some?
    ensures LongestOf(FirstPrefix(sorted, path).value, paths, path)
    ensures forall p :: LongestOf(p, paths, path) ==> p == FirstPrefix(sorted, path).value
    ensures
      var rest := path[|FirstPrefix(sorted, path).value|..];
      Strip(path, FirstPrefix(sorted, path).value) == if rest != "" && rest[0] == '/' then rest else "/" + rest
    ensures forall other :: SortedBySize(other, paths) ==> FirstPrefix(other, path) == FirstPrefix(sorted, path)
  {
    var i :| 0 <= i < |paths| && MatcherAccepts(TrimSpace(paths[i]), path);
    TrimSpaceTrims(paths[i]);
    assert paths[i] <= path;
    FirstIsLongest(paths, sorted, path);
    var first := FirstPrefix(sorted, path).value;
    SlashOnce(path[|first|..]);
    forall p | LongestOf(p, paths, path) ensures p == first {
      assert p == path[..|p|] && first == path[..|first|];
    }
    forall other | SortedBySize(other, paths) ensures FirstPrefix(other, path) == FirstPrefix(sorted, path) {
      FirstIsLongest(paths, other, path);
    }
  }

  /** Stripping takes the prefix off and leaves the rest as it is, behind one slash; what has no prefix keeps all of itself. */
  lemma StripExactly(prefix: string, rest: string, other: string)
    requires !(prefix <= other)
    ensures Strip(prefix + rest, prefix) == (if rest != "" && rest[0] == '/' then rest else "/" + rest)
    ensures Strip(other, prefix) == if other != "" && other[0] == '/' then other else "/" + other
  {
    assert (prefix + rest)[|prefix|..] == rest;
    SlashOnce(rest);
    SlashOnce(other);
  }

  lemma SlashOnce(s: string)
    ensures EnsureLeadingSlash(s) == if s != "" && s[0] == '/' then s else "/" + s
  {
    if "/" <= s {
      assert s == "/" + s[1..];
    }
  }

  /** The path is stripped of the longest prefix it has, in the order `sorted` of the prefixes. */
  ghost predicate StripsLongest(paths: seq<string>, sorted: seq<string>, path: string) {
    FirstPrefix(sorted, path).Some? && LongestOf(FirstPrefix(sorted, path).value, paths, path)
  }

  /** The prefixes of a parsed rule are trimmed, so this holds for every rule text. */
  lemma ParsedPrefixesStripped(known: set<string>, rules: seq<string>, path: string)
    ensures forall c, sorted ::
              c in Rules.ParseAll(known, rules).calls && SortedBySize(sorted, c.args)
              && BraceFree(c.args) && Accepts(c.args, path)
              ==> StripsLongest(c.args, sorted, path)
  {
    Rules.ParsedWellFormed(known, rules);
    forall c, sorted |
      c in Rules.ParseAll(known, rules).calls && SortedBySize(sorted, c.args)
      && BraceFree(c.args) && Accepts(c.args, path)
      ensures StripsLongest(c.args, sorted, path)
    {
      assert Rules.WellFormed(known, c);
      LongestPrefixStripped(c.args, sorted, path);
    }
  }

  /** For prefixes of any origin, untrimmed ones too: when no accepted path falls through to not-found. */
  lemma NeverFallsThroughExactly(paths: seq<string>, sorted: seq<string>)
    requires BraceFree(paths) && SortedBySize(sorted, paths)
    ensures (forall path :: Accepts(paths, path) ==> FirstPrefix(sorted, path).Some?)
            <==> forall i :: 0 <= i < |paths| ==> HasSomePrefix(paths, TrimSpace(paths[i]))
  {
    if forall i :: 0 <= i < |paths| ==> HasSomePrefix(paths, TrimSpace(paths[i])) {
      forall path | Accepts(paths, path) ensures FirstPrefix(sorted, path).Some? {
        AcceptedHasPrefix(paths, path);
        FirstIsLongest(paths, sorted, path);
      }
    }
    if forall path :: Accepts(paths, path) ==> FirstPrefix(sorted, path).Some? {
      forall i | 0 <= i < |paths| ensures HasSomePrefix(paths, TrimSpace(paths[i])) {
        var path := TrimSpace(paths[i]);
        assert MatcherAccepts(TrimSpace(paths[i]), path);
        assert Accepts(paths, path);
        FirstIsLongest(paths, sorted, path);
      }
    }
  }

  lemma AcceptedHasPrefix(paths: seq<string>, path: string)
    requires BraceFree(paths) && Accepts(paths, path)
    requires forall i :: 0 <= i < |paths| ==> HasSomePrefix(paths, TrimSpace(paths[i]))
    ensures HasSomePrefix(paths, path)
  {
    var i :| 0 <= i < |paths| && MatcherAccepts(TrimSpace(paths[i]), path);
    var clean := TrimSpace(paths[i]);
    assert HasSomePrefix(paths, clean);
    var k :| 0 <= k < |paths| && paths[k] <= clean;
    MatcherIsPrefix(clean, path);
    PrefixTransitive(paths[k], clean, path);
  }

  /** The second test of the matcher adds nothing. */
  lemma MatcherIsPrefix(prefix: string, path: string)
    ensures MatcherAccepts(prefix, path) <==> prefix <= path
  {
    if prefix + "/" <= path {
      PrefixTransitive(prefix, prefix + "/", path);
    }
  }

  lemma PrefixTransitive(a: string, b: string, c: string)
    requires a <= b && b <= c
    ensures a <= c
  {
  }
}
