/**
 The certificate list of an ACME account (acme/account.go): the order given by `Less`
 and the removal of duplicates after sorting.
 */
module AccountCertificates {
  import opened Text
  import opened Domains
  import opened Sequences

  /** A stored certificate: its domains, the expiry of its leaf, and the rest as an identity. */
  datatype Cert = Cert(domains: Domain, notAfter: int, id: nat)

  // ---------- the order ----------

  /** Go's `<` on strings. */
  predicate StrLess(a: string, b: string) {
    b != "" && (a == "" || a[0] < b[0] || (a[0] == b[0] && StrLess(a[1..], b[1..])))
  }

  function Joined(c: Cert): string {
    Join(c.domains.sans.Elems(), ',')
  }

  /** `DomainsCertificates.Less` on two entries. */
  predicate Less(x: Cert, y: Cert) {
    if x.domains == y.domains then x.notAfter > y.notAfter
    else if x.domains.main == y.domains.main then StrLess(Joined(x), Joined(y))
    else StrLess(x.domains.main, y.domains.main)
  }

  predicate SameKey(x: Cert, y: Cert) {
    x.domains.main == y.domains.main && Joined(x) == Joined(y)
  }

  predicate KeyLess(x: Cert, y: Cert) {
    StrLess(x.domains.main, y.domains.main) || (x.domains.main == y.domains.main && StrLess(Joined(x), Joined(y)))
  }

  /** Position `k` is the first where the strings differ, or where `a` ends. */
  predicate LessAt(a: string, b: string, k: nat) {
    k <= |a| && k < |b| && a[..k] == b[..k] && (k == |a| || a[k] < b[k])
  }

  /** `<` on strings: a proper prefix, or the smaller character where they first differ. */
  lemma {:induction false} StrLessExactly(a: string, b: string)
    ensures StrLess(a, b) <==> exists k :: LessAt(a, b, k)
  {
    if a == "" || b == "" || a[0] != b[0] {
      assert (StrLess(a, b) ==> LessAt(a, b, 0)) && forall k: nat :: LessAt(a, b, k) && k > 0 ==> a[..k][0] == b[..k][0];
    } else {
      StrLessExactly(a[1..], b[1..]);
      if StrLess(a, b) {
        var k: nat :| LessAt(a[1..], b[1..], k);
        assert a[..k + 1] == [a[0]] + a[1..][..k] && b[..k + 1] == [b[0]] + b[1..][..k];
        assert LessAt(a, b, k + 1);
      }
      if k: nat :| LessAt(a, b, k) {
        assert k > 0 && a[1..][..k - 1] == a[..k][1..] && b[1..][..k - 1] == b[..k][1..];
        assert LessAt(a[1..], b[1..], k - 1);
      }
    }
  }

  lemma {:induction false} StrLessTransitive(a: string, b: string, c: string)
    requires StrLess(a, b) && StrLess(b, c)
    ensures StrLess(a, c)
  {
    if a != "" && a[0] == b[0] == c[0] {
      StrLessTransitive(a[1..], b[1..], c[1..]);
    }
  }

  lemma {:induction false} StrLessTrichotomy(a: string, b: string)
    ensures StrLess(a, b) ==> a != b && !StrLess(b, a)
    ensures a != b ==> StrLess(a, b) || StrLess(b, a)
  {
    if a != "" && b != "" && a[0] == b[0] {
      StrLessTrichotomy(a[1..], b[1..]);
      assert a == [a[0]] + a[1..] && b == [b[0]] + b[1..];
    }
  }

  lemma KeyLessTransitive(x: Cert, y: Cert, z: Cert)
    requires KeyLess(x, y) && KeyLess(y, z)
    ensures KeyLess(x, z)
  {
    if StrLess(x.domains.main, y.domains.main) && StrLess(y.domains.main, z.domains.main) {
      StrLessTransitive(x.domains.main, y.domains.main, z.domains.main);
    }
    if StrLess(Joined(x), Joined(y)) && StrLess(Joined(y), Joined(z)) {
      StrLessTransitive(Joined(x), Joined(y), Joined(z));
    }
  }

  lemma KeyLessTrichotomy(x: Cert, y: Cert)
    ensures KeyLess(x, y) ==> !SameKey(x, y) && !KeyLess(y, x)
    ensures KeyLess(x, y) || SameKey(x, y) || KeyLess(y, x)
    ensures Less(x, y) <==> KeyLess(x, y) || (x.domains == y.domains && x.notAfter > y.notAfter)
  {
    StrLessTrichotomy(x.domains.main, y.domains.main);
    StrLessTrichotomy(Joined(x), Joined(y));
  }

  lemma LessTransitive(x: Cert, y: Cert, z: Cert)
    requires Less(x, y) && Less(y, z)
    ensures Less(x, z)
  {
    KeyLessTrichotomy(x, y);
    KeyLessTrichotomy(y, z);
    KeyLessTrichotomy(x, z);
    if KeyLess(x, y) && KeyLess(y, z) {
      KeyLessTransitive(x, y, z);
    }
  }

  ghost predicate Tied(x: Cert, y: Cert) {
    !Less(x, y) && !Less(y, x)
  }

  /** What `sort.Sort` asks of `Less` on the certificates it sorts. */
  ghost predicate StrictWeakOrder(s: set<Cert>) {
    && (forall x :: x in s ==> !Less(x, x))
    && (forall x, y, z :: x in s && y in s && z in s && Less(x, y) && Less(y, z) ==> Less(x, z))
    && (forall x, y, z :: x in s && y in s && z in s && Tied(x, y) && Tied(y, z) ==> Tied(x, z))
  }

  /** Two expiries for one domain, and another domain that reads the same once its SANs are joined. */
  ghost predicate Ambiguity(x: Cert, y: Cert, z: Cert) {
    x.domains == z.domains && x.domains != y.domains && SameKey(x, y) && x.notAfter < z.notAfter
  }

  ghost predicate Ambiguous(s: set<Cert>) {
    exists x, y, z :: x in s && y in s && z in s && Ambiguity(x, y, z)
  }

  lemma TiedExactly(x: Cert, y: Cert)
    ensures Tied(x, y) <==> SameKey(x, y) && (x.domains == y.domains ==> x.notAfter == y.notAfter)
  {
    KeyLessTrichotomy(x, y);
    KeyLessTrichotomy(y, x);
  }

  /** `Less` is a strict weak order on a list exactly when the list is not ambiguous. */
  lemma LessIsWeakOrderExactly(s: set<Cert>)
    ensures StrictWeakOrder(s) <==> !Ambiguous(s)
  {
    forall x, y | x in s && y in s
      ensures Tied(x, y) <==> SameKey(x, y) && (x.domains == y.domains ==> x.notAfter == y.notAfter)
    {
      TiedExactly(x, y);
    }
    forall x, y, z | x in s && y in s && z in s && Less(x, y) && Less(y, z) ensures Less(x, z) {
      LessTransitive(x, y, z);
    }
    if Ambiguous(s) {
      var x, y, z :| x in s && y in s && z in s && Ambiguity(x, y, z);
      assert Tied(x, y) && Tied(y, z) && !Tied(x, z);
    } else {
      forall x, y, z | x in s && y in s && z in s && Tied(x, y) && Tied(y, z) ensures Tied(x, z) {
        assert !Ambiguity(x, y, z) && !Ambiguity(z, y, x);
      }
    }
  }

  /** Lists with one kind of empty SAN list and comma-free, non-empty SANs are never ambiguous. */
  lemma CommaFreeSansNotAmbiguous(s: set<Cert>)
    requires forall c :: c in s ==> c.domains.sans.Sans? && AllFree(c.domains.sans.names, ',') && "" !in c.domains.sans.names
    ensures !Ambiguous(s)
  {
    forall x, y | x in s && y in s && SameKey(x, y) ensures x.domains == y.domains {
      var a, b := x.domains.sans.names, y.domains.sans.names;
      if a != [] && b != [] {
        JoinInjective(a, b, ',');
      } else if a != [] {
        JoinNotEmpty(a);
      } else if b != [] {
        JoinNotEmpty(b);
      }
    }
  }

  lemma JoinNotEmpty(a: seq<string>)
    requires a != [] && "" !in a
    ensures Join(a, ',') != ""
  {
    assert a[0] in a;
  }

  // ---------- sorting ----------

  /** `sort.IsSorted`: what any sorting leaves behind, whatever it does with ties. */
  predicate IsSorted(s: seq<Cert>) {
    forall i :: 0 < i < |s| ==> !Less(s[i], s[i - 1])
  }

  /** Under a strict weak order neighbours in order means all pairs in order. */
  lemma {:induction false} SortedPairs(s: seq<Cert>, i: nat, j: nat)
    requires IsSorted(s) && StrictWeakOrder(ToSet(s)) && i < j < |s|
    ensures !Less(s[j], s[i])
    decreases j
  {
    assert !Less(s[j], s[j - 1]);
    if i < j - 1 {
      SortedPairs(s, i, j - 1);
      var x, y, z := s[i], s[j - 1], s[j];
      assert x in ToSet(s) && y in ToSet(s) && z in ToSet(s);
      assert Less(z, x) && Less(x, y) ==> Less(z, y);
      assert Less(y, z) && Less(z, x) ==> Less(y, x);
      assert Tied(x, y) && Tied(y, z) ==> Tied(x, z);
    }
  }

  /** A sorted list is in order of Main, then of the joined SANs, then latest expiry first. */
  lemma SortedOrder(s: seq<Cert>, i: nat, j: nat)
    requires IsSorted(s) && !Ambiguous(ToSet(s)) && i < j < |s|
    ensures
      var x, y := s[i], s[j];
      && !StrLess(y.domains.main, x.domains.main)
      && (x.domains.main == y.domains.main ==> !StrLess(Joined(y), Joined(x)))
      && (x.domains == y.domains ==> x.notAfter >= y.notAfter)
  {
    LessIsWeakOrderExactly(ToSet(s));
    SortedPairs(s, i, j);
    var x, y := s[i], s[j];
    KeyLessTrichotomy(y, x);
    StrLessTrichotomy(x.domains.main, y.domains.main);
  }

  // ---------- removing duplicates ----------

  function Without(s: seq<Cert>, d: Domain): (r: seq<Cert>)
    ensures |r| <= |s|
  {
    if s == [] then []
    else (if s[0].domains == d then [] else [s[0]]) + Without(s[1..], d)
  }

  /** The first certificate of every domain. */
  function KeepFirst(s: seq<Cert>): seq<Cert>
    decreases |s|
  {
    if s == [] then [] else [s[0]] + KeepFirst(Without(s[1..], s[0].domains))
  }

  /** Deleting the first element of `tail` in place, or moving on past it. */
  lemma DropStep(head: seq<Cert>, kept: seq<Cert>, tail: seq<Cert>, d: Domain)
    requires head != [] && tail != []
    ensures
      var s, i2 := head + kept + tail, |head| + |kept|;
      && s[|head| - 1] == head[|head| - 1] && s[i2] == tail[0]
      && s[..i2] + s[i2 + 1..] == head + kept + tail[1..]
      && s == head + (kept + [tail[0]]) + tail[1..]
    ensures kept + Without(tail, d)
            == (if tail[0].domains == d then kept else kept + [tail[0]]) + Without(tail[1..], d)
  {
    var s, i2 := head + kept + tail, |head| + |kept|;
    assert s[..i2] == head + kept && s[i2 + 1..] == tail[1..];
    assert tail == [tail[0]] + tail[1..];
    Assoc(head, kept, [tail[0]]);
    Assoc(head + kept, [tail[0]], tail[1..]);
    Assoc(kept, [tail[0]], Without(tail[1..], d));
  }

  class DomainsCertificates {
    var certs: seq<Cert>

    constructor (certs: seq<Cert>)
      ensures this.certs == certs
    {
      this.certs := certs;
    }

    /** The inner loop of `removeDuplicates`: the list shrinks under the index `i2`. */
    method DropLater(i: nat)
      requires i < |certs|
      modifies this
      ensures certs == old(certs)[..i + 1] + Without(old(certs)[i + 1..], old(certs)[i].domains)
    {
      var i2 := i + 1;
      ghost var head, kept, tail := certs[..i + 1], [], certs[i + 1..];
      while i2 < |certs|
        invariant head == old(certs)[..i + 1] && certs == head + kept + tail
        invariant i2 == |head| + |kept|
        invariant kept + Without(tail, head[i].domains) == Without(old(certs)[i + 1..], head[i].domains)
        decreases |tail|
      {
        DropStep(head, kept, tail, head[i].domains);
        if certs[i].domains == certs[i2].domains {
          certs := certs[..i2] + certs[i2 + 1..];
          i2 := i2 - 1;
        } else {
          kept := kept + [tail[0]];
        }
        tail := tail[1..];
        i2 := i2 + 1;
      }
    }

    /** `removeDuplicates`; `sorted` is what `sort.Sort` made of the list, any order when it is ambiguous. */
    method RemoveDuplicates(sorted: seq<Cert>)
      requires multiset(sorted) == multiset(certs)
      requires !Ambiguous(ToSet(certs)) ==> IsSorted(sorted)
      modifies this
      ensures certs == KeepFirst(sorted)
      ensures !Ambiguous(ToSet(old(certs))) ==> KeepsLatest(old(certs), certs)
    {
      if !Ambiguous(ToSet(certs)) {
        DeduplicationKeepsLatest(certs, sorted);
      }
      certs := sorted;
      RemoveEqualDomains();
    }

    /** The two loops of `removeDuplicates`. */
    method RemoveEqualDomains()
      modifies this
      ensures certs == KeepFirst(old(certs))
    {
      ghost var goal := KeepFirst(certs);
      assert certs[0..] == certs;
      var i := 0;
      while i < |certs|
        invariant 0 <= i <= |certs|
        invariant certs[..i] + KeepFirst(certs[i..]) == goal
        decreases |certs| - i
      {
        ghost var head, first, rest := certs[..i], certs[i], certs[i + 1..];
        assert certs[i..] == [first] + rest;
        DropLater(i);
        assert certs[i + 1..] == Without(rest, first.domains);
        assert certs[..i + 1] == head + [first];
        Assoc(head, [first], KeepFirst(certs[i + 1..]));
        i := i + 1;
      }
      assert certs[i..] == [] && certs[..i] == certs;
    }
  }

  // ---------- what the deduplicated list means ----------

  /** One certificate per domain of `s`, none foreign, each with the latest expiry `s` has for that domain. */
  ghost predicate KeepsLatest(s: seq<Cert>, r: seq<Cert>) {
    && (forall i, j :: 0 <= i < j < |r| ==> r[i].domains != r[j].domains)
    && (forall c :: c in r ==> c in s)
    && (forall c :: c in s ==> StandsFor(r, c))
  }

  lemma {:induction false} WithoutMembers(s: seq<Cert>, d: Domain, c: Cert)
    ensures c in Without(s, d) <==> c in s && c.domains != d
  {
    if s != [] {
      WithoutMembers(s[1..], d, c);
      assert s == [s[0]] + s[1..];
    }
  }

  lemma {:induction false} WithoutSub(s: seq<Cert>, d: Domain)
    ensures Sub(Without(s, d), s)
  {
    if s != [] {
      WithoutSub(s[1..], d);
      SubConcat(if s[0].domains == d then [] else [s[0]], [s[0]], Without(s[1..], d), s[1..]);
      assert s == [s[0]] + s[1..];
    }
  }

  /** Later certificates of the same domain never expire later. */
  ghost predicate LatestFirst(s: seq<Cert>) {
    forall i, j :: 0 <= i < j < |s| && s[i].domains == s[j].domains ==> s[i].notAfter >= s[j].notAfter
  }

  lemma {:induction false} SubLatestFirst(a: seq<Cert>, b: seq<Cert>)
    requires Sub(a, b) && LatestFirst(b)
    ensures LatestFirst(a)
  {
    if a != [] {
      assert LatestFirst(b[1..]);
      if a[0] == b[0] && Sub(a[1..], b[1..]) {
        SubLatestFirst(a[1..], b[1..]);
        forall j | 0 < j < |a| && a[0].domains == a[j].domains ensures a[0].notAfter >= a[j].notAfter {
          SubMember(a[1..], b[1..], a[j]);
        }
      } else {
        SubLatestFirst(a, b[1..]);
      }
    }
  }

  /** The certificate that stands for `c` in `r`. */
  ghost predicate StandsFor(r: seq<Cert>, c: Cert) {
    exists k :: 0 <= k < |r| && r[k].domains == c.domains && r[k].notAfter >= c.notAfter
  }

  lemma {:induction false} KeepFirstKeepsLatest(s: seq<Cert>)
    requires LatestFirst(s)
    ensures KeepsLatest(s, KeepFirst(s))
    decreases |s|
  {
    if s != [] {
      var d := s[0].domains;
      var rest := Without(s[1..], d);
      assert LatestFirst(s[1..]);
      WithoutSub(s[1..], d);
      SubLatestFirst(rest, s[1..]);
      KeepFirstKeepsLatest(rest);
      forall c ensures c in rest <==> c in s[1..] && c.domains != d {
        WithoutMembers(s[1..], d, c);
      }
      ConsKeepsLatest(s, rest, KeepFirst(rest));
    }
  }

  lemma StandsForCons(x: Cert, kept: seq<Cert>, c: Cert)
    requires (x.domains == c.domains && x.notAfter >= c.notAfter) || StandsFor(kept, c)
    ensures StandsFor([x] + kept, c)
  {
    var r := [x] + kept;
    if x.domains == c.domains && x.notAfter >= c.notAfter {
      assert r[0] == x;
    } else {
      var k :| 0 <= k < |kept| && kept[k].domains == c.domains && kept[k].notAfter >= c.notAfter;
      assert r[k + 1] == kept[k];
    }
  }

  lemma ConsKeepsLatest(s: seq<Cert>, rest: seq<Cert>, kept: seq<Cert>)
    requires s != [] && LatestFirst(s) && KeepsLatest(rest, kept)
    requires forall c :: c in rest <==> c in s[1..] && c.domains != s[0].domains
    ensures KeepsLatest(s, [s[0]] + kept)
  {
    assert forall k :: 0 <= k < |kept| ==> kept[k] in rest;
    forall c | c in s ensures StandsFor([s[0]] + kept, c) {
      var i :| 0 <= i < |s| && s[i] == c;
      assert c.domains != s[0].domains ==> i > 0 && s[1..][i - 1] == c;
      StandsForCons(s[0], kept, c);
    }
  }

  lemma DeduplicationKeepsLatest(s: seq<Cert>, sorted: seq<Cert>)
    requires multiset(sorted) == multiset(s) && IsSorted(sorted) && !Ambiguous(ToSet(s))
    ensures KeepsLatest(s, KeepFirst(sorted))
  {
    PermutationMembers(s, sorted);
    assert ToSet(s) == ToSet(sorted);
    LessIsWeakOrderExactly(ToSet(sorted));
    forall i, j | 0 <= i < j < |sorted| && sorted[i].domains == sorted[j].domains
      ensures sorted[i].notAfter >= sorted[j].notAfter
    {
      SortedPairs(sorted, i, j);
    }
    KeepFirstKeepsLatest(sorted);
  }

  // ---------- and when it does not hold ----------

  /** Ties broken so that an older certificate comes first in its block, shielded by `y`. */
  function Shield(u: Cert, x: Cert, y: Cert): nat {
    if u == x then 0 else if u == y then 1 else 2
  }

  predicate Before(u: Cert, v: Cert, x: Cert, y: Cert) {
    || KeyLess(u, v)
    || (SameKey(u, v) && (Shield(u, x, y) < Shield(v, x, y)
                          || (Shield(u, x, y) == Shield(v, x, y) && u.notAfter >= v.notAfter)))
  }

  predicate Ordered(s: seq<Cert>, x: Cert, y: Cert) {
    forall i, j :: 0 <= i < j < |s| ==> Before(s[i], s[j], x, y)
  }

  lemma BeforeTotal(u: Cert, v: Cert, x: Cert, y: Cert)
    ensures Before(u, v, x, y) || Before(v, u, x, y)
  {
    KeyLessTrichotomy(u, v);
  }

  lemma BeforeTransitive(u: Cert, v: Cert, w: Cert, x: Cert, y: Cert)
    requires Before(u, v, x, y) && Before(v, w, x, y)
    ensures Before(u, w, x, y)
  {
    if KeyLess(u, v) && KeyLess(v, w) {
      KeyLessTransitive(u, v, w);
    }
  }

  lemma {:induction false} Insert(c: Cert, s: seq<Cert>, x: Cert, y: Cert) returns (r: seq<Cert>)
    requires Ordered(s, x, y)
    ensures Ordered(r, x, y) && multiset(r) == multiset(s) + multiset{c}
  {
    if s == [] {
      r := [c];
    } else if Before(c, s[0], x, y) {
      r := [c] + s;
      forall j | 0 < j < |s| ensures Before(c, s[j], x, y) {
        assert Before(s[0], s[j], x, y);
        BeforeTransitive(c, s[0], s[j], x, y);
      }
    } else {
      BeforeTotal(c, s[0], x, y);
      var rest := s[1..];
      assert s == [s[0]] + rest;
      assert Ordered(rest, x, y) by {
        forall i, j | 0 <= i < j < |rest| ensures Before(rest[i], rest[j], x, y) {
          assert rest[i] == s[i + 1] && rest[j] == s[j + 1];
        }
      }
      var t := Insert(c, rest, x, y);
      r := [s[0]] + t;
      forall j | 0 <= j < |t| ensures Before(s[0], t[j], x, y) {
        assert t[j] in multiset(t);
        assert t[j] == c || t[j] in s[1..];
      }
    }
  }

  lemma {:induction false} Arrange(s: seq<Cert>, x: Cert, y: Cert) returns (r: seq<Cert>)
    ensures Ordered(r, x, y) && multiset(r) == multiset(s)
  {
    if s == [] {
      r := [];
    } else {
      var t := Arrange(s[1..], x, y);
      r := Insert(s[0], t, x, y);
      assert s == [s[0]] + s[1..];
    }
  }

  lemma {:induction false} LatestOf(s: seq<Cert>, y: Cert) returns (m: Cert)
    requires y in s
    ensures m in s && m.domains == y.domains
    ensures forall c :: c in s && c.domains == y.domains ==> c.notAfter <= m.notAfter
  {
    m := y;
    for i := 0 to |s|
      invariant m in s && m.domains == y.domains
      invariant forall k :: 0 <= k < i && s[k].domains == y.domains ==> s[k].notAfter <= m.notAfter
    {
      if s[i].domains == y.domains && s[i].notAfter > m.notAfter {
        m := s[i];
      }
    }
  }

  /** The arrangement counts as sorted, although `x` comes before the later `z`. */
  lemma ArrangedIsSorted(r: seq<Cert>, x: Cert, y: Cert)
    requires Ordered(r, x, y) && x in r && y in r && x.domains != y.domains && SameKey(x, y)
    requires forall c :: c in r && c.domains == y.domains ==> c.notAfter <= y.notAfter
    ensures IsSorted(r)
  {
    forall i | 0 < i < |r| ensures !Less(r[i], r[i - 1]) {
      var u, v := r[i - 1], r[i];
      assert Before(u, v, x, y);
      KeyLessTrichotomy(v, u);
      var p :| 0 <= p < |r| && r[p] == y;
      assert p < i - 1 ==> Before(r[p], u, x, y);
      assert p > i ==> Before(v, r[p], x, y);
      KeyLessTrichotomy(x, y);
      KeyLessTrichotomy(v, y);
    }
  }

  lemma {:induction false} FirstIsKept(s: seq<Cert>, i: nat)
    requires i < |s| && forall k :: 0 <= k < i ==> s[k].domains != s[i].domains
    ensures s[i] in KeepFirst(s)
    decreases |s|
  {
    if i > 0 {
      var d := s[0].domains;
      var j := WithoutFirst(s[1..], d, i - 1);
      FirstIsKept(Without(s[1..], d), j);
    }
  }

  lemma {:induction false} WithoutFirst(s: seq<Cert>, d: Domain, i: nat) returns (j: nat)
    requires i < |s| && s[i].domains != d && forall k :: 0 <= k < i ==> s[k].domains != s[i].domains
    ensures j < |Without(s, d)| && Without(s, d)[j] == s[i]
    ensures forall k :: 0 <= k < j ==> Without(s, d)[k].domains != s[i].domains
  {
    if i == 0 {
      j := 0;
    } else {
      j := WithoutFirst(s[1..], d, i - 1);
      if s[0].domains != d {
        j := j + 1;
      }
    }
  }

  /** What is kept stays in order. */
  lemma {:induction false} KeepFirstInOrder(s: seq<Cert>)
    ensures Sub(KeepFirst(s), s)
    decreases |s|
  {
    if s != [] {
      var rest := Without(s[1..], s[0].domains);
      KeepFirstInOrder(rest);
      WithoutSub(s[1..], s[0].domains);
      SubTrans(KeepFirst(rest), rest, s[1..]);
      SubRefl([s[0]]);
      SubConcat([s[0]], [s[0]], KeepFirst(rest), s[1..]);
      assert s == [s[0]] + s[1..];
    }
  }

  lemma AmbiguousKeepsOlder(s: seq<Cert>) returns (sorted: seq<Cert>)
    requires Ambiguous(ToSet(s))
    ensures multiset(sorted) == multiset(s) && IsSorted(sorted) && !KeepsLatest(s, KeepFirst(sorted))
  {
    var x, y0, z :| x in ToSet(s) && y0 in ToSet(s) && z in ToSet(s) && Ambiguity(x, y0, z);
    var y := LatestOf(s, y0);
    sorted := Arrange(s, x, y);
    PermutationMembers(s, sorted);
    assert SameKey(x, y);
    ArrangedIsSorted(sorted, x, y);
    var i := FirstOf(sorted, x);
    forall k | 0 <= k < i ensures sorted[k].domains != x.domains {
      assert Before(sorted[k], sorted[i], x, y);
      KeyLessTrichotomy(sorted[k], x);
    }
    FirstIsKept(sorted, i);
    OlderKept(s, KeepFirst(sorted), x, z);
  }

  lemma OlderKept(s: seq<Cert>, r: seq<Cert>, x: Cert, z: Cert)
    requires x in r && z in s && x.domains == z.domains && x.notAfter < z.notAfter
    ensures !KeepsLatest(s, r)
  {
    var m :| 0 <= m < |r| && r[m] == x;
    if forall a, b :: 0 <= a < b < |r| ==> r[a].domains != r[b].domains {
      assert forall k :: 0 <= k < |r| && r[k].domains == z.domains ==> k == m;
      assert !StandsFor(r, z);
    }
  }

  lemma {:induction false} FirstOf(s: seq<Cert>, x: Cert) returns (i: nat)
    requires x in s
    ensures i < |s| && s[i] == x && forall k :: 0 <= k < i ==> s[k] != x
  {
    if s[0] == x {
      i := 0;
    } else {
      var j := FirstOf(s[1..], x);
      i := j + 1;
    }
  }

  /**
   Removing duplicates keeps, for every domain, one certificate with the latest expiry, whatever the
   sort does with ties, exactly when the list is not ambiguous.
   */
  lemma DeduplicationExactly(s: seq<Cert>)
    ensures (forall sorted :: multiset(sorted) == multiset(s) && IsSorted(sorted) ==> KeepsLatest(s, KeepFirst(sorted)))
            <==> !Ambiguous(ToSet(s))
  {
    if Ambiguous(ToSet(s)) {
      var sorted := AmbiguousKeepsOlder(s);
    } else {
      forall sorted | multiset(sorted) == multiset(s) && IsSorted(sorted) ensures KeepsLatest(s, KeepFirst(sorted)) {
        DeduplicationKeepsLatest(s, sorted);
      }
    }
  }

  /** In the order of an ambiguity the list counts as sorted, and the older of the two expiries is what is kept. */
  lemma AmbiguityLosesLatest(x: Cert, y: Cert, z: Cert)
    requires Ambiguity(x, y, z)
    ensures IsSorted([x, y, z]) && KeepFirst([x, y, z]) == [x, y] && !KeepsLatest([x, y, z], [x, y])
  {
    TiedExactly(x, y);
    TiedExactly(z, y);
    assert [x, y, z][1..] == [y, z];
    assert Without([z], x.domains) == [];
    assert Without([y, z], x.domains) == [y];
    assert KeepFirst([y]) == [y];
    OlderKept([x, y, z], [x, y], x, z);
  }

  /** The stored forms `nil` and `[]` of an empty SAN list are enough to lose the later certificate. */
  lemma NilAndEmptySansLoseLatest()
    ensures
      var x, y := Cert(Domain("a", NilSans), 1, 0), Cert(Domain("a", Sans([])), 1, 1);
      var z := Cert(Domain("a", NilSans), 2, 2);
      && Ambiguous(ToSet([x, y, z])) && IsSorted([x, y, z])
      && KeepFirst([x, y, z]) == [x, y] && !KeepsLatest([x, y, z], [x, y])
  {
    var x, y := Cert(Domain("a", NilSans), 1, 0), Cert(Domain("a", Sans([])), 1, 1);
    var z := Cert(Domain("a", NilSans), 2, 2);
    assert Ambiguity(x, y, z);
    assert x in ToSet([x, y, z]) && y in ToSet([x, y, z]) && z in ToSet([x, y, z]);
    AmbiguityLosesLatest(x, y, z);
  }
}
