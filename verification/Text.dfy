/**
 The string functions of the Go standard library that the modelled code relies on:
 `strings.Split`, `strings.Join`, `strings.FieldsFunc`, `strings.TrimSpace`.
 */
module Text {

  /** `strings.Split(s, sep)` for a one-character separator: never empty, "" gives [""]. */
  function Split(s: string, sep: char): (r: seq<string>)
    ensures |r| >= 1
  {
    if s == "" then [""]
    else
      var rest := Split(s[1..], sep);
      if s[0] == sep then [""] + rest else [[s[0]] + rest[0]] + rest[1..]
  }

  function Join(parts: seq<string>, sep: char): string {
    if |parts| == 0 then ""
    else if |parts| == 1 then parts[0]
    else parts[0] + [sep] + Join(parts[1..], sep)
  }

  predicate Free(s: string, c: char) {
    c !in s
  }

  predicate AllFree(parts: seq<string>, c: char) {
    forall i :: 0 <= i < |parts| ==> Free(parts[i], c)
  }

  lemma {:induction false} JoinSplit(s: string, sep: char)
    ensures Join(Split(s, sep), sep) == s
  {
    if s != "" {
      JoinSplit(s[1..], sep);
      var rest := Split(s[1..], sep);
      var r := Split(s, sep);
      if s[0] == sep {
        assert r[1..] == rest;
      } else if |rest| > 1 {
        assert r[1..] == rest[1..];
      }
    }
  }

  lemma {:induction false} SplitPiecesFree(s: string, sep: char)
    ensures AllFree(Split(s, sep), sep)
  {
    if s != "" {
      SplitPiecesFree(s[1..], sep);
      assert Free(Split(s[1..], sep)[0], sep);
    }
  }

  lemma {:induction false} SplitFree(p: string, sep: char)
    requires Free(p, sep)
    ensures Split(p, sep) == [p]
  {
    if p != "" {
      SplitFree(p[1..], sep);
      assert [p[0]] + p[1..] == p;
    }
  }

  lemma {:induction false} SplitFirst(p: string, s: string, sep: char)
    requires Free(p, sep)
    ensures Split(p + [sep] + s, sep) == [p] + Split(s, sep)
  {
    var whole := p + [sep] + s;
    if p == "" {
      assert whole[1..] == s;
    } else {
      assert whole[1..] == p[1..] + [sep] + s;
      SplitFirst(p[1..], s, sep);
      assert [p[0]] + p[1..] == p;
    }
  }

  /** Splitting undoes joining as long as no part holds the separator. */
  lemma {:induction false} SplitJoin(parts: seq<string>, sep: char)
    requires |parts| >= 1 && AllFree(parts, sep)
    ensures Split(Join(parts, sep), sep) == parts
  {
    assert Free(parts[0], sep);
    if |parts| == 1 {
      SplitFree(parts[0], sep);
    } else {
      assert AllFree(parts[1..], sep);
      SplitJoin(parts[1..], sep);
      SplitFirst(parts[0], Join(parts[1..], sep), sep);
    }
  }

  lemma JoinInjective(a: seq<string>, b: seq<string>, sep: char)
    requires |a| >= 1 && AllFree(a, sep)
    requires |b| >= 1 && AllFree(b, sep)
    requires Join(a, sep) == Join(b, sep)
    ensures a == b
  {
    SplitJoin(a, sep);
    SplitJoin(b, sep);
  }

  function NonEmpty(parts: seq<string>): seq<string> {
    if parts == [] then []
    else (if parts[0] == "" then [] else [parts[0]]) + NonEmpty(parts[1..])
  }

  /** `strings.FieldsFunc(s, c => c == sep)`: the maximal separator-free runs of `s`. */
  function Fields(s: string, sep: char): seq<string> {
    NonEmpty(Split(s, sep))
  }

  lemma {:induction false} NonEmptyAll(parts: seq<string>)
    requires forall i :: 0 <= i < |parts| ==> parts[i] != ""
    ensures NonEmpty(parts) == parts
  {
    if parts != [] {
      NonEmptyAll(parts[1..]);
    }
  }

  lemma {:induction false} NonEmptyPieces(parts: seq<string>, x: string)
    ensures x in NonEmpty(parts) <==> x in parts && x != ""
  {
    if parts != [] {
      NonEmptyPieces(parts[1..], x);
      assert parts == [parts[0]] + parts[1..];
    }
  }

  /** Fields are taken piece by piece, in order. */
  lemma {:induction false} NonEmptyConcat(a: seq<string>, b: seq<string>)
    ensures NonEmpty(a + b) == NonEmpty(a) + NonEmpty(b)
  {
    if a == [] {
      assert a + b == b;
    } else {
      assert (a + b)[1..] == a[1..] + b;
      NonEmptyConcat(a[1..], b);
    }
  }

  /** A separator ends a field, or nothing. */
  lemma FieldsFirst(p: string, s: string, sep: char)
    requires Free(p, sep)
    ensures Fields(p + [sep] + s, sep) == (if p == "" then [] else [p]) + Fields(s, sep)
  {
    SplitFirst(p, s, sep);
    NonEmptyConcat([p], Split(s, sep));
    assert NonEmpty([p]) == if p == "" then [] else [p];
  }

  lemma FieldsOfFree(p: string, sep: char)
    requires Free(p, sep)
    ensures Fields(p, sep) == if p == "" then [] else [p]
  {
    SplitFree(p, sep);
    assert NonEmpty([p]) == if p == "" then [] else [p];
  }

  predicate Only(s: string, c: char) {
    forall i :: 0 <= i < |s| ==> s[i] == c
  }

  lemma {:induction false} FieldsSkip(seps: string, s: string, sep: char)
    requires Only(seps, sep)
    ensures Fields(seps + s, sep) == Fields(s, sep)
  {
    if seps == "" {
      assert seps + s == s;
    } else {
      var rest := seps[1..] + s;
      assert seps + s == "" + [sep] + rest;
      FieldsFirst("", rest, sep);
      FieldsSkip(seps[1..], s, sep);
    }
  }

  /** A run that a separator or the end follows is a field. */
  lemma FieldsNext(p: string, s: string, sep: char)
    requires p != "" && Free(p, sep) && (s == "" || s[0] == sep)
    ensures Fields(p + s, sep) == [p] + Fields(s, sep)
  {
    if s == "" {
      assert p + s == p && Split("", sep) == [""];
      FieldsOfFree(p, sep);
      FieldsOfFree("", sep);
    } else {
      assert p + s == p + [sep] + s[1..] && s == "" + [sep] + s[1..];
      FieldsFirst(p, s[1..], sep);
      FieldsFirst("", s[1..], sep);
    }
  }

  lemma OnlyHasNoFields(s: string, sep: char)
    requires Only(s, sep)
    ensures Fields(s, sep) == []
  {
    FieldsSkip(s, "", sep);
    assert s + "" == s;
    FieldsOfFree("", sep);
  }

  /** Any text is a run of separators, a run without, and a rest that begins with a separator. */
  lemma {:induction false} FirstRun(s: string, sep: char) returns (seps: string, p: string, rest: string)
    ensures s == seps + p + rest && Only(seps, sep) && Free(p, sep)
    ensures (rest == "" || rest[0] == sep) && (p == "" ==> rest == "")
    ensures |rest| <= |s| && (p != "" ==> |rest| < |s|)
  {
    if s == "" {
      seps, p, rest := "", "", "";
    } else if s[0] == sep {
      seps, p, rest := FirstRun(s[1..], sep);
      seps := [sep] + seps;
      assert s == [s[0]] + s[1..];
    } else {
      var more, q, r := FirstRun(s[1..], sep);
      assert s == [s[0]] + s[1..];
      if more == "" {
        seps, p, rest := "", [s[0]] + q, r;
      } else {
        seps, p, rest := "", [s[0]], more + q + r;
        assert more[0] == sep;
      }
    }
  }

  /** There are no fields exactly in text that consists of separators. */
  lemma NoFieldsExactly(s: string, sep: char)
    ensures Fields(s, sep) == [] <==> Only(s, sep)
  {
    if Only(s, sep) {
      OnlyHasNoFields(s, sep);
    } else {
      var seps, p, rest := FirstRun(s, sep);
      if p != "" {
        assert s == seps + (p + rest);
        FieldsSkip(seps, p + rest, sep);
        FieldsNext(p, rest, sep);
      }
    }
  }

  lemma FieldsPieces(s: string, sep: char, x: string)
    requires x in Fields(s, sep)
    ensures x != "" && Free(x, sep)
  {
    NonEmptyPieces(Split(s, sep), x);
    SplitPiecesFree(s, sep);
  }

  /** The length of the joined parts, with one more for a separator after the last. */
  function Weight(parts: seq<string>): nat {
    if parts == [] then 0 else |parts[0]| + 1 + Weight(parts[1..])
  }

  lemma {:induction false} JoinWeight(parts: seq<string>, sep: char)
    requires parts != []
    ensures |Join(parts, sep)| + 1 == Weight(parts)
  {
    if |parts| > 1 {
      JoinWeight(parts[1..], sep);
    }
  }

  lemma {:induction false} NonEmptyWeight(parts: seq<string>)
    ensures Weight(NonEmpty(parts)) <= Weight(parts)
    ensures Weight(NonEmpty(parts)) == Weight(parts) ==> NonEmpty(parts) == parts
  {
    if parts != [] {
      NonEmptyWeight(parts[1..]);
      assert parts == [parts[0]] + parts[1..];
      var rest := NonEmpty(parts[1..]);
      assert ([parts[0]] + rest)[1..] == rest;
      assert [] + rest == rest;
    }
  }

  /** Fields take no more room than the text, and as much only when no run was empty. */
  lemma FieldsWeight(s: string, sep: char)
    ensures Weight(Fields(s, sep)) <= |s| + 1
    ensures Weight(Fields(s, sep)) == |s| + 1 ==> Join(Fields(s, sep), sep) == s
  {
    JoinSplit(s, sep);
    JoinWeight(Split(s, sep), sep);
    NonEmptyWeight(Split(s, sep));
  }

  /** The white space of `unicode.IsSpace`. */
  predicate IsSpace(c: char) {
    c in "\t\n \r\U{0B}\U{0C}\U{85}\U{A0}\U{1680}\U{2028}\U{2029}\U{202F}\U{205F}\U{3000}"
    || '\U{2000}' <= c <= '\U{200A}'
  }

  /** These are the code points with the property White_Space of the Unicode standard. */
  lemma SpaceCodePoints(c: char)
    ensures
      var n := c as int;
      IsSpace(c) <==> || 0x9 <= n <= 0xD || n in {0x20, 0x85, 0xA0, 0x1680, 0x202F, 0x205F, 0x3000}
                      || 0x2000 <= n <= 0x200A || 0x2028 <= n <= 0x2029
  {
  }

  predicate AllSpace(s: string) {
    forall i :: 0 <= i < |s| ==> IsSpace(s[i])
  }

  function TrimLeft(s: string): string {
    if s != "" && IsSpace(s[0]) then TrimLeft(s[1..]) else s
  }

  function TrimRight(s: string): string {
    if s != "" && IsSpace(s[|s| - 1]) then TrimRight(s[..|s| - 1]) else s
  }

  function TrimSpace(s: string): string {
    TrimRight(TrimLeft(s))
  }

  predicate Trimmed(s: string) {
    s == "" || (!IsSpace(s[0]) && !IsSpace(s[|s| - 1]))
  }

  lemma {:induction false} TrimLeftStart(s: string)
    ensures TrimLeft(s) == "" || !IsSpace(TrimLeft(s)[0])
    ensures exists k :: 0 <= k <= |s| && TrimLeft(s) == s[k..]
  {
    if s != "" && IsSpace(s[0]) {
      TrimLeftStart(s[1..]);
      var k :| 0 <= k <= |s[1..]| && TrimLeft(s[1..]) == s[1..][k..];
      assert s[1..][k..] == s[k + 1..];
    } else {
      assert s == s[0..];
    }
  }

  lemma PrefixOfPrefix(s: string, n: nat, k: nat)
    requires k <= n <= |s|
    ensures s[..n][..k] == s[..k]
  {
  }

  lemma {:induction false} TrimRightEnd(s: string)
    ensures TrimRight(s) == "" || !IsSpace(TrimRight(s)[|TrimRight(s)| - 1])
    ensures exists k :: 0 <= k <= |s| && TrimRight(s) == s[..k]
  {
    if s != "" && IsSpace(s[|s| - 1]) {
      TrimRightEnd(s[..|s| - 1]);
      var k :| 0 <= k <= |s| - 1 && TrimRight(s[..|s| - 1]) == s[..|s| - 1][..k];
      PrefixOfPrefix(s, |s| - 1, k);
    } else {
      PrefixOfPrefix(s, |s|, |s|);
    }
  }

  /** Trimming yields trimmed text and leaves trimmed text alone. */
  lemma TrimSpaceTrims(s: string)
    ensures Trimmed(TrimSpace(s))
    ensures Trimmed(s) ==> TrimSpace(s) == s
  {
    TrimLeftStart(s);
    var t := TrimLeft(s);
    TrimRightEnd(t);
    var l :| 0 <= l <= |t| && TrimRight(t) == t[..l];
    assert l > 0 ==> t[..l][0] == t[0];
  }

  lemma TrimSpaceShrinks(s: string)
    ensures |TrimSpace(s)| <= |s|
    ensures |TrimSpace(s)| == |s| ==> TrimSpace(s) == s
  {
    TrimLeftStart(s);
    var t := TrimLeft(s);
    TrimRightEnd(t);
    var k :| 0 <= k <= |s| && t == s[k..];
    var l :| 0 <= l <= |t| && TrimRight(t) == t[..l];
    assert k == 0 ==> t == s;
    assert l == |t| ==> t[..l] == t;
  }

  lemma {:induction false} TrimLeftMembers(s: string, c: char)
    requires c in TrimLeft(s)
    ensures c in s
  {
    if s != "" && IsSpace(s[0]) {
      TrimLeftMembers(s[1..], c);
    }
  }

  lemma {:induction false} TrimRightMembers(s: string, c: char)
    requires c in TrimRight(s)
    ensures c in s
  {
    if s != "" && IsSpace(s[|s| - 1]) {
      TrimRightMembers(s[..|s| - 1], c);
    }
  }

  /** Trimming adds no character. */
  lemma TrimSpaceMembers(s: string, c: char)
    requires c in TrimSpace(s)
    ensures c in s
  {
    TrimRightMembers(TrimLeft(s), c);
    TrimLeftMembers(s, c);
  }

  lemma {:induction false} TrimLeftPad(a: string, s: string)
    requires AllSpace(a) && (s == "" || !IsSpace(s[0]))
    ensures TrimLeft(a + s) == s
  {
    if a == "" {
      assert a + s == s;
    } else {
      assert (a + s)[1..] == a[1..] + s;
      TrimLeftPad(a[1..], s);
    }
  }

  lemma {:induction false} TrimRightPad(s: string, b: string)
    requires AllSpace(b) && (s == "" || !IsSpace(s[|s| - 1]))
    ensures TrimRight(s + b) == s
  {
    if b == "" {
      assert s + b == s;
    } else {
      var n := |b| - 1;
      assert (s + b)[..|s + b| - 1] == s + b[..n] && (s + b)[|s + b| - 1] == b[n];
      TrimRightPad(s, b[..n]);
    }
  }

  /** Trimming takes off exactly the spaces on both sides. */
  lemma TrimSpacePad(a: string, s: string, b: string)
    requires AllSpace(a) && AllSpace(b) && Trimmed(s)
    ensures TrimSpace(a + s + b) == s
  {
    assert a + s + b == a + (s + b);
    if s == "" {
      assert a + (s + b) == (a + b) + "" && AllSpace(a + b);
      TrimLeftPad(a + b, "");
    } else {
      TrimLeftPad(a, s + b);
      TrimRightPad(s, b);
    }
  }

  lemma {:induction false} TrimLeftCut(s: string) returns (a: string)
    ensures AllSpace(a) && s == a + TrimLeft(s)
  {
    if s != "" && IsSpace(s[0]) {
      var rest := TrimLeftCut(s[1..]);
      a := [s[0]] + rest;
      assert s == [s[0]] + s[1..];
    } else {
      a := "";
    }
  }

  lemma LastApart(s: string, a: string, b: string)
    requires s != "" && s[..|s| - 1] == a + b
    ensures s == a + (b + [s[|s| - 1]])
  {
    assert s == s[..|s| - 1] + [s[|s| - 1]];
  }

  lemma {:induction false} TrimRightCut(s: string) returns (b: string)
    ensures AllSpace(b) && s == TrimRight(s) + b
  {
    if s != "" && IsSpace(s[|s| - 1]) {
      var n := |s| - 1;
      var rest := TrimRightCut(s[..n]);
      b := rest + [s[n]];
      LastApart(s, TrimRight(s[..n]), rest);
    } else {
      b := "";
    }
  }

  /** What trimming takes off any text is spaces only, and what it leaves begins and ends with none. */
  lemma TrimSpaceExactly(s: string) returns (a: string, b: string)
    ensures AllSpace(a) && AllSpace(b) && s == a + TrimSpace(s) + b && Trimmed(TrimSpace(s))
  {
    a := TrimLeftCut(s);
    b := TrimRightCut(TrimLeft(s));
    TrimSpaceTrims(s);
  }
}
