/**
 Domain entries and certificate-name matching (types/domains.go).
 */
module Domains {
  import opened Text

  /** A Go slice of names: `nil` and the empty slice differ under `reflect.DeepEqual`. */
  datatype Sans = NilSans | Sans(names: seq<string>)
  {
    function Elems(): seq<string> {
      if NilSans? then [] else names
    }
  }

  datatype Domain = Domain(main: string, sans: Sans)

  /** `ToStrArray`: the names of an entry, without an empty Main. */
  function Names(d: Domain): seq<string> {
    (if |d.main| > 0 then [d.main] else []) + d.sans.Elems()
  }

  /** `Domain.Set`: the entry that holds `names`, or the entry itself when there are none. */
  function Set(d: Domain, names: seq<string>): Domain {
    if |names| > 0 then Domain(names[0], Sans(names[1..])) else d
  }

  /**
   `Set` and `ToStrArray` are inverse exactly on non-empty lists that start with a non-empty name; `Set` never
   leaves a `nil` list of SANs, and without names it changes nothing.
   */
  lemma SetRoundTrip(d: Domain, names: seq<string>)
    ensures if names == [] then Set(d, names) == d else Set(d, names).sans.Sans?
    ensures |names| > 0 ==> (Names(Set(d, names)) == names <==> names[0] != "")
    ensures Names(d) != [] && d.main != "" ==> Names(Set(d, Names(d))) == Names(d)
  {
    if |names| > 0 {
      assert [names[0]] + names[1..] == names;
      assert |names[1..]| < |names|;
    }
    if Names(d) != [] && d.main != "" {
      var n := Names(d);
      assert [n[0]] + n[1..] == n;
    }
  }

  /** The names of an entry: its Main unless that is empty, and every SAN, as often as it is given. */
  lemma NamesCount(d: Domain, n: string)
    ensures multiset(Names(d))[n] == multiset(d.sans.Elems())[n] + if n == d.main && n != "" then 1 else 0
    ensures d.main != "" ==> Names(d) != [] && Names(d)[0] == d.main
  {
  }

  // ---------- matching ----------

  function TrimDots(s: string): string {
    if |s| > 0 && s[|s| - 1] == '.' then TrimDots(s[..|s| - 1]) else s
  }

  predicate TrailingDot(s: string) {
    |s| > 0 && s[|s| - 1] == '.'
  }

  function Labels(s: string): seq<string> {
    Split(s, '.')
  }

  /** `labels` with its first `k` labels replaced by `*`. */
  function Starred(labels: seq<string>, k: nat): (r: seq<string>)
    requires k <= |labels|
    ensures |r| == |labels|
    ensures forall i :: 0 <= i < |r| ==> r[i] == if i < k then "*" else labels[i]
  {
    seq(k, _ => "*") + labels[k..]
  }

  /** What a match means: equality, or a non-empty leading run of labels starred. */
  ghost predicate Matches(domain: string, certDomain: string) {
    || domain == certDomain
    || exists k :: 1 <= k <= |Labels(domain)| && TrimDots(certDomain) == Join(Starred(Labels(domain), k), '.')
  }

  /** `MatchDomain`, loop by loop, decides `Matches`. */
  method MatchDomain(domain: string, certDomain: string) returns (r: bool)
    ensures r <==> Matches(domain, certDomain)
  {
    if domain == certDomain {
      return true;
    }
    var cert := certDomain;
    while |cert| > 0 && cert[|cert| - 1] == '.'
      invariant TrimDots(cert) == TrimDots(certDomain)
    {
      cert := cert[..|cert| - 1];
    }
    var split := Labels(domain);
    r := SomeCandidate(split, cert);
    assert forall k :: 1 <= k <= |split| ==> (IsCandidate(split, cert, k) <==> cert == Join(Starred(split, k), '.'));
  }

  /** `cert` is the candidate with the first `k` labels starred. */
  predicate IsCandidate(split: seq<string>, cert: string, k: nat)
    requires k <= |split|
  {
    cert == Join(Starred(split, k), '.')
  }

  /** The second loop of `MatchDomain`: one label more is starred in each round. */
  method SomeCandidate(split: seq<string>, cert: string) returns (r: bool)
    ensures r <==> exists k :: 1 <= k <= |split| && IsCandidate(split, cert, k)
  {
    var labels := new string[|split|](i requires 0 <= i < |split| => split[i]);
    StarNone(split, labels[..]);
    for i := 0 to labels.Length
      invariant labels[..] == Starred(split, i)
      invariant forall k :: 1 <= k <= i ==> !IsCandidate(split, cert, k)
    {
      StarOneMore(split, i);
      ghost var before := labels[..];
      labels[i] := "*";
      assert labels[..] == before[i := "*"];
      var candidate := Join(labels[..], '.');
      if cert == candidate {
        assert IsCandidate(split, cert, i + 1);
        return true;
      }
    }
    return false;
  }

  lemma StarNone(split: seq<string>, labels: seq<string>)
    requires |labels| == |split| && forall i :: 0 <= i < |split| ==> labels[i] == split[i]
    ensures labels == Starred(split, 0)
  {
  }

  lemma StarOneMore(labels: seq<string>, k: nat)
    requires k < |labels|
    ensures Starred(labels, k)[k := "*"] == Starred(labels, k + 1)
  {
  }

  // ---------- order theory of matching ----------

  lemma {:induction false} TrimDotsNoDot(s: string)
    ensures !TrailingDot(s) ==> TrimDots(s) == s
    ensures !TrailingDot(TrimDots(s))
    ensures TrailingDot(s) ==> |TrimDots(s)| < |s|
    ensures TrimDots(s) <= s
  {
    if TrailingDot(s) {
      TrimDotsNoDot(s[..|s| - 1]);
    }
  }

  /** What goes from the end of a name is dots only, and all of them. */
  lemma {:induction false} TrimDotsExactly(s: string) returns (dots: string)
    ensures s == TrimDots(s) + dots && (forall i :: 0 <= i < |dots| ==> dots[i] == '.')
    ensures !TrailingDot(TrimDots(s))
  {
    if TrailingDot(s) {
      var n := |s| - 1;
      var rest := TrimDotsExactly(s[..n]);
      dots := rest + ".";
      assert s == s[..n] + [s[n]];
    } else {
      dots := "";
    }
  }

  lemma StarredFree(labels: seq<string>, k: nat)
    requires k <= |labels| && AllFree(labels, '.')
    ensures AllFree(Starred(labels, k), '.')
  {
  }

  lemma LabelsOfStarred(s: string, k: nat)
    requires k <= |Labels(s)|
    ensures Labels(Join(Starred(Labels(s), k), '.')) == Starred(Labels(s), k)
  {
    SplitPiecesFree(s, '.');
    StarredFree(Labels(s), k);
    SplitJoin(Starred(Labels(s), k), '.');
  }

  /** A match by a different name that has no trailing dot: the labels are those of the domain, starred. */
  lemma MatchLabels(domain: string, cert: string) returns (k: nat)
    requires Matches(domain, cert) && !TrailingDot(cert)
    ensures k <= |Labels(domain)| && Labels(cert) == Starred(Labels(domain), k)
    ensures domain != cert ==> k >= 1
  {
    if domain == cert {
      k := 0;
      assert Starred(Labels(domain), 0) == Labels(domain);
    } else {
      TrimDotsNoDot(cert);
      k :| 1 <= k <= |Labels(domain)| && TrimDots(cert) == Join(Starred(Labels(domain), k), '.');
      LabelsOfStarred(domain, k);
    }
  }

  lemma MatchFromLabels(domain: string, cert: string, trimmed: string, k: nat)
    requires trimmed == TrimDots(cert)
    requires 1 <= k <= |Labels(domain)| && Labels(trimmed) == Starred(Labels(domain), k)
    ensures Matches(domain, cert)
  {
    JoinSplit(trimmed, '.');
    assert trimmed == Join(Starred(Labels(domain), k), '.');
  }

  /** As many labels, of which the first `k` are `*` and the others the same. */
  predicate StarredUpTo(domain: seq<string>, cert: seq<string>, k: nat) {
    && |cert| == |domain|
    && forall i :: 0 <= i < |domain| ==> cert[i] == if i < k then "*" else domain[i]
  }

  /**
   Label by label: names match when they are equal, or a non-empty leading run of the certificate's labels,
   without its trailing dots, is `*` and the others are those of the domain.
   */
  lemma MatchesByLabel(domain: string, cert: string)
    ensures
      var d, c := Labels(domain), Labels(TrimDots(cert));
      Matches(domain, cert) <==> domain == cert || exists k :: 1 <= k <= |d| && StarredUpTo(d, c, k)
  {
    var d, c := Labels(domain), Labels(TrimDots(cert));
    if Matches(domain, cert) && domain != cert {
      var k :| 1 <= k <= |d| && TrimDots(cert) == Join(Starred(d, k), '.');
      LabelsOfStarred(domain, k);
      assert StarredUpTo(d, c, k);
    }
    if k :| 1 <= k <= |d| && StarredUpTo(d, c, k) {
      assert c == Starred(d, k);
      MatchFromLabels(domain, cert, TrimDots(cert), k);
    }
  }

  lemma StarredTwice(labels: seq<string>, k: nat, j: nat)
    requires k <= |labels| && j <= |labels|
    ensures Starred(Starred(labels, k), j) == Starred(labels, if k < j then j else k)
  {
  }

  lemma MatchTransitive(a: string, b: string, c: string)
    requires Matches(a, b) && Matches(b, c) && !TrailingDot(b)
    ensures Matches(a, c)
  {
    if a != b && b != c {
      var k := MatchLabels(a, b);
      var j :| 1 <= j <= |Labels(b)| && TrimDots(c) == Join(Starred(Labels(b), j), '.');
      LabelsOfStarred(b, j);
      var m := if k < j then j else k;
      StarredTwice(Labels(a), k, j);
      MatchFromLabels(a, c, TrimDots(c), m);
    }
  }

  lemma MatchAntisymmetric(a: string, b: string)
    requires Matches(a, b) && Matches(b, a) && !TrailingDot(a) && !TrailingDot(b)
    ensures a == b
  {
    var k := MatchLabels(a, b);
    var j := MatchLabels(b, a);
    assert Labels(a) == Labels(b);
    JoinSplit(a, '.');
    JoinSplit(b, '.');
  }

  /** A wildcard written with trailing dots, such as `*.com.`: what breaks transitivity. */
  predicate DottedWildcard(s: string) {
    TrailingDot(s) && Labels(TrimDots(s))[0] == "*"
  }

  lemma {:induction false} FirstLabel(domain: string, cert: string, k: nat)
    requires 1 <= k <= |Labels(domain)| && TrimDots(cert) == Join(Starred(Labels(domain), k), '.')
    ensures Labels(TrimDots(cert))[0] == "*"
  {
    LabelsOfStarred(domain, k);
  }

  lemma {:induction false} DotAddsLabel(s: string)
    requires TrailingDot(s)
    ensures |Labels(TrimDots(s))| < |Labels(s)|
  {
    var t := s[..|s| - 1];
    SplitTrailing(t);
    assert s == t + ".";
    if TrailingDot(t) {
      DotAddsLabel(t);
    }
  }

  lemma {:induction false} SplitTrailing(t: string)
    ensures Split(t + ".", '.') == Split(t, '.') + [""]
  {
    var s := t + ".";
    if t == "" {
      assert s[1..] == "";
    } else {
      SplitTrailing(t[1..]);
      assert s[1..] == t[1..] + ".";
    }
  }

  lemma {:induction false} StarsHaveNoTrailingDot(parts: seq<string>)
    requires |parts| >= 1 && forall i :: 0 <= i < |parts| ==> parts[i] == "*"
    ensures Join(parts, '.') != "" && !TrailingDot(Join(parts, '.'))
    ensures forall x :: x in Join(parts, '.') ==> x == '*' || x == '.'
  {
    if |parts| > 1 {
      StarsHaveNoTrailingDot(parts[1..]);
    }
  }

  ghost predicate TransitiveThrough(b: string) {
    forall a, c :: Matches(a, b) && Matches(b, c) ==> Matches(a, c)
  }

  lemma DottedWildcardBreaks(b: string) returns (a: string, c: string)
    requires DottedWildcard(b)
    ensures Matches(a, b) && Matches(b, c) && !Matches(a, c) && !Matches(c, a) && !Matches(c, b)
    ensures a == TrimDots(b) && a != "" && !TrailingDot(a)
    ensures c != "" && !TrailingDot(c) && forall x :: x in c ==> x == '*' || x == '.'
  {
    a := TrimDots(b);
    TrimDotsNoDot(b);
    assert Starred(Labels(a), 1) == Labels(a);
    JoinSplit(a, '.');
    assert TrimDots(b) == Join(Starred(Labels(a), 1), '.');
    c := AllStars(b);
    DotAddsLabel(b);
    TrimDotsNoDot(c);
    TrimDotsNoDot(a);
    if Matches(a, c) { SameLabelCount(a, c); }
    if Matches(c, a) { SameLabelCount(c, a); }
    if Matches(c, b) { SameLabelCount(c, b); }
  }

  /** The name with every label starred. */
  lemma AllStars(b: string) returns (c: string)
    ensures Matches(b, c) && |Labels(c)| == |Labels(b)|
    ensures c != "" && !TrailingDot(c) && forall x :: x in c ==> x == '*' || x == '.'
  {
    var n := |Labels(b)|;
    var stars := Starred(Labels(b), n);
    c := Join(stars, '.');
    StarsHaveNoTrailingDot(stars);
    TrimDotsNoDot(c);
    LabelsOfStarred(b, n);
    assert TrimDots(c) == Join(Starred(Labels(b), n), '.');
  }

  lemma SameLabelCount(domain: string, cert: string)
    requires Matches(domain, cert) && domain != cert
    ensures |Labels(TrimDots(cert))| == |Labels(domain)|
  {
    var k :| 1 <= k <= |Labels(domain)| && TrimDots(cert) == Join(Starred(Labels(domain), k), '.');
    LabelsOfStarred(domain, k);
  }

  /** Matching is transitive through a name exactly when that name is no wildcard with trailing dots. */
  lemma TransitiveExactly(b: string)
    ensures TransitiveThrough(b) <==> !DottedWildcard(b)
  {
    if DottedWildcard(b) {
      var a, c := DottedWildcardBreaks(b);
    } else {
      forall a, c | Matches(a, b) && Matches(b, c) ensures Matches(a, c) {
        if !TrailingDot(b) {
          MatchTransitive(a, b, c);
        } else if a != b {
          var k :| 1 <= k <= |Labels(a)| && TrimDots(b) == Join(Starred(Labels(a), k), '.');
          FirstLabel(a, b, k);
          assert false;
        }
      }
    }
  }

  /** On names without trailing dots matching is a partial order. */
  lemma MatchIsPartialOrder(a: string, b: string, c: string)
    requires !TrailingDot(a) && !TrailingDot(b) && !TrailingDot(c)
    ensures Matches(a, a)
    ensures Matches(a, b) && Matches(b, a) ==> a == b
    ensures Matches(a, b) && Matches(b, c) ==> Matches(a, c)
  {
    if Matches(a, b) && Matches(b, a) { MatchAntisymmetric(a, b); }
    if Matches(a, b) && Matches(b, c) { MatchTransitive(a, b, c); }
  }

  // ---------- the measure under which a match makes progress ----------

  function PlainLabels(labels: seq<string>): nat {
    if labels == [] then 0
    else (if labels[0] == "*" then 0 else 1) + PlainLabels(labels[1..])
  }

  /** The number of labels of a name that are not `*`. */
  function Rank(s: string): nat {
    PlainLabels(Labels(s))
  }

  lemma {:induction false} StarredRank(labels: seq<string>, k: nat)
    requires k <= |labels|
    ensures PlainLabels(Starred(labels, k)) <= PlainLabels(labels)
    ensures Starred(labels, k) != labels ==> PlainLabels(Starred(labels, k)) < PlainLabels(labels)
  {
    var r := Starred(labels, k);
    if k == 0 {
      assert r == labels;
    } else {
      StarredRank(labels[1..], k - 1);
      assert r[1..] == Starred(labels[1..], k - 1);
      if r[1..] == labels[1..] && labels[0] == "*" {
        assert r == labels;
      }
    }
  }

  /** A different name that matches has strictly fewer plain labels. */
  lemma MatchLowersRank(domain: string, cert: string)
    requires Matches(domain, cert) && domain != cert && !DottedWildcard(cert)
    ensures Rank(cert) < Rank(domain)
  {
    var j :| 1 <= j <= |Labels(domain)| && TrimDots(cert) == Join(Starred(Labels(domain), j), '.');
    FirstLabel(domain, cert, j);
    assert !TrailingDot(cert);
    var k := MatchLabels(domain, cert);
    JoinSplit(domain, '.');
    JoinSplit(cert, '.');
    StarredRank(Labels(domain), k);
  }
}
