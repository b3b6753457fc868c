/**
 The certificates held by the ACME provider (provider/acme/provider.go): concurrent resolves and
 renewals hand their certificates to one goroutine, which upserts them into the list.
 */
module CertificateList {
  import opened Text
  import opened Domains
  import opened Sequences
  import opened DomainReducer

  datatype Entry = Entry(domain: Domain, certificate: string, key: string)

  // ---------- the upsert of `watchCertificate` ----------

  /** The first entry with the domain of `e` takes its certificate and key; without one, `e` is appended. */
  function Upsert(list: seq<Entry>, e: Entry): seq<Entry> {
    if list == [] then [e]
    else if list[0].domain == e.domain then [list[0].(certificate := e.certificate, key := e.key)] + list[1..]
    else [list[0]] + Upsert(list[1..], e)
  }

  function DomainsOf(list: seq<Entry>): seq<Domain> {
    seq(|list|, i requires 0 <= i < |list| => list[i].domain)
  }

  lemma {:induction false} UpsertAt(list: seq<Entry>, e: Entry, i: nat)
    requires i < |list| && list[i].domain == e.domain
    requires forall k :: 0 <= k < i ==> list[k].domain != e.domain
    ensures Upsert(list, e) == list[i := list[i].(certificate := e.certificate, key := e.key)]
  {
    if i > 0 {
      UpsertAt(list[1..], e, i - 1);
    }
  }

  lemma {:induction false} UpsertNew(list: seq<Entry>, e: Entry)
    requires forall k :: 0 <= k < |list| ==> list[k].domain != e.domain
    ensures Upsert(list, e) == list + [e]
  {
    if list != [] {
      UpsertNew(list[1..], e);
    }
  }

  lemma {:induction false} FirstWith(list: seq<Entry>, d: Domain) returns (i: nat)
    requires d in DomainsOf(list)
    ensures i < |list| && list[i].domain == d && forall k :: 0 <= k < i ==> list[k].domain != d
  {
    i := 0;
    while list[i].domain != d
      invariant i < |list| && forall k :: 0 <= k < i ==> list[k].domain != d
      invariant exists k :: i <= k < |list| && DomainsOf(list)[k] == d
      decreases |list| - i
    {
      i := i + 1;
    }
  }

  /** An upsert leaves the domains alone or appends a new one. */
  lemma UpsertDomains(list: seq<Entry>, e: Entry)
    ensures DomainsOf(Upsert(list, e)) ==
            if e.domain in DomainsOf(list) then DomainsOf(list) else DomainsOf(list) + [e.domain]
  {
    if e.domain in DomainsOf(list) {
      var i := FirstWith(list, e.domain);
      UpsertAt(list, e, i);
      DomainsAfterReplace(list, list[i].(certificate := e.certificate, key := e.key), i);
    } else {
      forall k | 0 <= k < |list| ensures list[k].domain != e.domain {
        assert DomainsOf(list)[k] == list[k].domain;
      }
      UpsertNew(list, e);
      DomainsAfterAppend(list, e);
    }
  }

  lemma DomainsAfterReplace(list: seq<Entry>, e: Entry, i: nat)
    requires i < |list| && list[i].domain == e.domain
    ensures DomainsOf(list[i := e]) == DomainsOf(list)
  {
    var a, b := DomainsOf(list[i := e]), DomainsOf(list);
    assert forall k :: 0 <= k < |b| ==> a[k] == b[k];
  }

  lemma DomainsAfterAppend(list: seq<Entry>, e: Entry)
    ensures DomainsOf(list + [e]) == DomainsOf(list) + [e.domain]
  {
    var a, b := DomainsOf(list + [e]), DomainsOf(list) + [e.domain];
    assert forall k :: 0 <= k < |b| ==> a[k] == b[k];
  }

  /** After an upsert the entry is held, and every entry for another domain is as it was. */
  lemma {:induction false} UpsertHolds(list: seq<Entry>, e: Entry)
    ensures e in Upsert(list, e)
    ensures forall o :: o in list && o.domain != e.domain ==> o in Upsert(list, e)
  {
    if list != [] && list[0].domain != e.domain {
      UpsertHolds(list[1..], e);
      assert list == [list[0]] + list[1..];
    } else if list != [] {
      assert list == [list[0]] + list[1..];
      assert Upsert(list, e)[0] == e;
    }
  }

  class Certificate {
    var domain: Domain
    var certificate: string
    var key: string

    constructor (domain: Domain, certificate: string, key: string)
      ensures this.domain == domain && this.certificate == certificate && this.key == key
    {
      this.domain, this.certificate, this.key := domain, certificate, key;
    }

    ghost function Value(): Entry
      reads this
    {
      Entry(domain, certificate, key)
    }
  }

  class Provider {
    var certificates: seq<Certificate>
    var staticCerts: set<string>
    var dynamicCerts: set<string>
    var domains: seq<Domain>

    constructor (staticCerts: set<string>, dynamicCerts: set<string>, domains: seq<Domain>)
      ensures Valid() && View() == []
      ensures this.staticCerts == staticCerts && this.dynamicCerts == dynamicCerts && this.domains == domains
    {
      certificates := [];
      this.staticCerts, this.dynamicCerts, this.domains := staticCerts, dynamicCerts, domains;
    }

    ghost predicate Valid()
      reads this
    {
      Distinct(certificates)
    }

    ghost function View(): (v: seq<Entry>)
      reads this, certificates
    {
      seq(|certificates|, i requires 0 <= i < |certificates| reads this, certificates => certificates[i].Value())
    }

    /** One delivery to the loop of `watchCertificate`. */
    method Deliver(cert: Certificate)
      requires Valid() && cert !in certificates
      modifies this`certificates, certificates
      ensures Valid()
      ensures View() == Upsert(old(View()), old(cert.Value()))
    {
      ghost var e, before := cert.Value(), View();
      for i := 0 to |certificates|
        invariant certificates == old(certificates) && View() == before && cert.Value() == e
        invariant forall k :: 0 <= k < i ==> certificates[k].domain != cert.domain
      {
        var held := certificates[i];
        if cert.domain == held.domain {
          UpsertAt(before, e, i);
          held.certificate := cert.certificate;
          held.key := cert.key;
          assert View() == before[i := Entry(e.domain, e.certificate, e.key)];
          return;
        }
      }
      UpsertNew(before, e);
      certificates := certificates + [cert];
      assert View() == before + [e];
    }

    method CertificateGroups() returns (groups: set<string>)
      ensures groups == AcmeGroups(View())
    {
      groups := {};
      ghost var view := View();
      for i := 0 to |certificates|
        invariant groups == AcmeGroups(view[..i])
      {
        assert view[..i + 1] == view[..i] + [view[i]];
        AcmeGroupsAppend(view[..i], view[i]);
        groups := groups + {Group(certificates[i].domain)};
      }
      assert view[..|certificates|] == view;
    }

    method DomainGroups() returns (groups: set<string>)
      ensures groups == ConfiguredGroups(domains)
    {
      groups := {};
      for i := 0 to |domains|
        invariant groups == ConfiguredGroups(domains[..i])
      {
        assert domains[..i + 1] == domains[..i] + [domains[i]];
        ConfiguredGroupsAppend(domains[..i], domains[i]);
        groups := groups + {Group(domains[i])};
      }
      assert domains[..|domains|] == domains;
    }

    /** `getUncheckedDomains`. */
    method GetUncheckedDomains(domainsToCheck: seq<string>, checkConfigurationDomains: bool) returns (r: seq<string>)
      ensures r == Unchecked(domainsToCheck,
                             staticCerts + dynamicCerts + AcmeGroups(View())
                             + if checkConfigurationDomains then ConfiguredGroups(domains) else {})
    {
      var held := CertificateGroups();
      var configured := {};
      if checkConfigurationDomains {
        configured := DomainGroups();
      }
      r := SearchUncheckedDomains(domainsToCheck, staticCerts + dynamicCerts + held + configured);
    }
  }

  // ---------- what still needs a certificate ----------

  /** The comma-joined names under which an entry is looked up. */
  function Group(d: Domain): string {
    Join(Names(d), ',')
  }

  ghost function AcmeGroups(list: seq<Entry>): set<string> {
    set e | e in list :: Group(e.domain)
  }

  ghost function ConfiguredGroups(domains: seq<Domain>): set<string> {
    set d | d in domains :: Group(d)
  }

  lemma ConfiguredGroupsAppend(domains: seq<Domain>, d: Domain)
    ensures ConfiguredGroups(domains + [d]) == ConfiguredGroups(domains) + {Group(d)}
  {
    assert d in domains + [d];
    forall g ensures g in ConfiguredGroups(domains + [d]) <==> g in ConfiguredGroups(domains) + {Group(d)} {
      if g in ConfiguredGroups(domains) {
        var o :| o in domains && Group(o) == g;
        assert o in domains + [d];
      }
    }
  }

  lemma AcmeGroupsAppend(list: seq<Entry>, e: Entry)
    ensures AcmeGroups(list + [e]) == AcmeGroups(list) + {Group(e.domain)}
  {
    assert e in list + [e];
    forall g ensures g in AcmeGroups(list + [e]) <==> g in AcmeGroups(list) + {Group(e.domain)} {
      if g in AcmeGroups(list) {
        var o :| o in list && Group(o.domain) == g;
        assert o in list + [e];
      }
    }
  }

  ghost function Unchecked(names: seq<string>, groups: set<string>): seq<string> {
    if names == [] then []
    else (if Checked(names[0], groups) then [] else [names[0]]) + Unchecked(names[1..], groups)
  }

  lemma {:induction false} UncheckedMembers(names: seq<string>, groups: set<string>, n: string)
    ensures n in Unchecked(names, groups) <==> n in names && !Checked(n, groups)
  {
    if names != [] {
      UncheckedMembers(names[1..], groups, n);
      assert names == [names[0]] + names[1..];
    }
  }

  lemma UncheckedStep(names: seq<string>, groups: set<string>, k: nat, sofar: seq<string>)
    requires k < |names|
    ensures sofar + Unchecked(names[k..], groups)
            == (if Checked(names[k], groups) then sofar else sofar + [names[k]]) + Unchecked(names[k + 1..], groups)
  {
    assert names[k..][1..] == names[k + 1..];
    var rest := Unchecked(names[k + 1..], groups);
    Assoc(sofar, [names[k]], rest);
    assert [] + rest == rest;
  }

  /** A name that needs a certificate stays as often as it was asked for. */
  lemma {:induction false} UncheckedCounts(names: seq<string>, groups: set<string>, n: string)
    ensures multiset(Unchecked(names, groups))[n] == if Checked(n, groups) then 0 else multiset(names)[n]
  {
    if names != [] {
      UncheckedCounts(names[1..], groups, n);
      CountFirst(names, n);
      var rest := Unchecked(names[1..], groups);
      if Checked(names[0], groups) {
        assert [] + rest == rest;
      } else {
        CountFirst([names[0]] + rest, n);
        assert ([names[0]] + rest)[1..] == rest;
      }
    }
  }

  lemma {:induction false} UncheckedInOrder(names: seq<string>, groups: set<string>)
    ensures Sub(Unchecked(names, groups), names)
  {
    if names != [] {
      UncheckedInOrder(names[1..], groups);
      var head := if Checked(names[0], groups) then [] else [names[0]];
      SubConcat(head, [names[0]], Unchecked(names[1..], groups), names[1..]);
      assert names == [names[0]] + names[1..];
    }
  }

  /** An entry whose names hold no comma and are not empty. */
  predicate CleanEntry(d: Domain) {
    Names(d) != [] && Clean(Names(d))
  }

  predicate Clean(names: seq<string>) {
    AllFree(names, ',') && "" !in names
  }

  /** The key of an entry stands for its names: it checks what one of them matches. */
  lemma GroupChecks(d: Domain, n: string)
    requires CleanEntry(d)
    ensures CheckedBy(n, Group(d)) <==> exists k :: 0 <= k < |Names(d)| && Matches(n, Names(d)[k])
  {
    SplitJoin(Names(d), ',');
  }

  lemma HeldExactly(view: seq<Entry>, n: string)
    requires forall e :: e in view ==> CleanEntry(e.domain)
    ensures Checked(n, AcmeGroups(view))
       <==> exists e, k :: e in view && 0 <= k < |Names(e.domain)| && Matches(n, Names(e.domain)[k])
  {
    forall e | e in view ensures CheckedBy(n, Group(e.domain)) <==> exists k :: 0 <= k < |Names(e.domain)| && Matches(n, Names(e.domain)[k]) {
      GroupChecks(e.domain, n);
    }
    if Checked(n, AcmeGroups(view)) {
      var g :| g in AcmeGroups(view) && CheckedBy(n, g);
      var e :| e in view && Group(e.domain) == g;
      var k :| 0 <= k < |Names(e.domain)| && Matches(n, Names(e.domain)[k]);
    }
    if e, k :| e in view && 0 <= k < |Names(e.domain)| && Matches(n, Names(e.domain)[k]) {
      assert Group(e.domain) in AcmeGroups(view);
    }
  }

  lemma ConfiguredExactly(ds: seq<Domain>, n: string)
    requires forall d :: d in ds ==> CleanEntry(d)
    ensures Checked(n, ConfiguredGroups(ds))
       <==> exists d, k :: d in ds && 0 <= k < |Names(d)| && Matches(n, Names(d)[k])
  {
    forall d | d in ds ensures CheckedBy(n, Group(d)) <==> exists k :: 0 <= k < |Names(d)| && Matches(n, Names(d)[k]) {
      GroupChecks(d, n);
    }
    if Checked(n, ConfiguredGroups(ds)) {
      var g :| g in ConfiguredGroups(ds) && CheckedBy(n, g);
      var d :| d in ds && Group(d) == g;
      var k :| 0 <= k < |Names(d)| && Matches(n, Names(d)[k]);
    }
    if d, k :| d in ds && 0 <= k < |Names(d)| && Matches(n, Names(d)[k]) {
      assert Group(d) in ConfiguredGroups(ds);
    }
  }

  lemma CheckedUnion(n: string, a: set<string>, b: set<string>)
    ensures Checked(n, a + b) <==> Checked(n, a) || Checked(n, b)
  {
    if Checked(n, a + b) {
      var g :| g in a + b && CheckedBy(n, g);
    }
    if Checked(n, a) {
      var g :| g in a && CheckedBy(n, g);
      assert g in a + b;
    }
    if Checked(n, b) {
      var g :| g in b && CheckedBy(n, g);
      assert g in a + b;
    }
  }

  /** Part `j` of a comma-joined key matches. */
  ghost predicate PartMatches(n: string, key: string, j: nat) {
    j < |Split(key, ',')| && Matches(n, Split(key, ',')[j])
  }

  lemma KeysExactly(keys: set<string>, n: string)
    ensures Checked(n, keys) <==> exists g, j: nat :: g in keys && PartMatches(n, g, j)
  {
    if Checked(n, keys) {
      var g :| g in keys && CheckedBy(n, g);
      var j :| 0 <= j < |Split(g, ',')| && Matches(n, Split(g, ',')[j]);
      assert PartMatches(n, g, j);
    } else {
      forall g, j: nat | g in keys ensures !PartMatches(n, g, j) {
        assert !CheckedBy(n, g);
      }
    }
  }

  lemma UncheckedBySource(names: seq<string>, keys: set<string>, view: seq<Entry>, configured: set<string>, n: string)
    ensures n in Unchecked(names, keys + AcmeGroups(view) + configured)
       <==> n in names && !Checked(n, keys) && !Checked(n, AcmeGroups(view)) && !Checked(n, configured)
  {
    UncheckedMembers(names, keys + AcmeGroups(view) + configured, n);
    CheckedUnion(n, keys + AcmeGroups(view), configured);
    CheckedUnion(n, keys, AcmeGroups(view));
  }

  /**
   What `getUncheckedDomains` answers with: the names asked for that no part of a static or dynamic key, no
   name of a held certificate and, on request, no configured name matches.
   */
  lemma UncheckedExactly(names: seq<string>, keys: set<string>, view: seq<Entry>, domains: seq<Domain>,
                         checkConfiguration: bool, n: string)
    requires (forall e :: e in view ==> CleanEntry(e.domain)) && (forall d :: d in domains ==> CleanEntry(d))
    ensures n in Unchecked(names, keys + AcmeGroups(view) + if checkConfiguration then ConfiguredGroups(domains) else {})
       <==> && n in names
            && (forall g, j: nat :: g in keys ==> !PartMatches(n, g, j))
            && (forall e, k :: e in view && 0 <= k < |Names(e.domain)| ==> !Matches(n, Names(e.domain)[k]))
            && (checkConfiguration ==> forall d, k :: d in domains && 0 <= k < |Names(d)| ==> !Matches(n, Names(d)[k]))
  {
    UncheckedBySource(names, keys, view, if checkConfiguration then ConfiguredGroups(domains) else {}, n);
    KeysExactly(keys, n);
    HeldExactly(view, n);
    ConfiguredExactly(domains, n);
    assert !Checked(n, {});
  }

  /** `searchUncheckedDomains`. */
  method SearchUncheckedDomains(domainsToCheck: seq<string>, existentDomains: set<string>)
    returns (unchecked: seq<string>)
    ensures unchecked == Unchecked(domainsToCheck, existentDomains)
  {
    unchecked := [];
    assert domainsToCheck[0..] == domainsToCheck;
    for i := 0 to |domainsToCheck|
      invariant unchecked + Unchecked(domainsToCheck[i..], existentDomains)
          == Unchecked(domainsToCheck, existentDomains)
    {
      UncheckedStep(domainsToCheck, existentDomains, i, unchecked);
      var checked := IsDomainAlreadyCheckedInMap(domainsToCheck[i], existentDomains);
      if !checked {
        unchecked := unchecked + [domainsToCheck[i]];
      }
    }
  }

  /** An entry the reducer has compared with another holds an empty SAN list where a resolve leaves `nil`. */
  lemma ResolvedSingleIsAnother(d: Domain, n: string)
    requires n != ""
    ensures Names(Requested([n])) == Names(Set(d, [n])) == [n] && Requested([n]) != Set(d, [n])
    ensures forall a: Entry, b: Entry :: a.domain == Set(d, [n]) && b.domain == Requested([n]) ==> Upsert([a], b) == [a, b]
  {
    forall a: Entry, b: Entry | a.domain == Set(d, [n]) && b.domain == Requested([n]) ensures Upsert([a], b) == [a, b] {
      assert [a][1..] == [];
      assert Upsert([], b) == [b];
    }
  }

  /** Several names give the same entry as in the reducer. */
  lemma ResolvedManyIsSame(d: Domain, unchecked: seq<string>)
    requires |unchecked| > 1
    ensures Requested(unchecked) == Set(d, unchecked)
  {
  }

  /** The entry `resolveCertificate` asks for: the first unchecked name and the others as SANs. */
  function Requested(unchecked: seq<string>): Domain
    requires unchecked != []
  {
    Domain(unchecked[0], if |unchecked| > 1 then Sans(unchecked[1..]) else NilSans)
  }

  // ---------- all interleavings ----------

  /** A resolve that found names without a certificate, or the renewal of a held certificate. */
  datatype Task =
    | Resolve(names: seq<string>, others: set<string>, seen: set<string>, unchecked: seq<string>)
    | Renewal(domain: Domain)

  datatype State = State(certs: seq<Entry>, tasks: map<nat, Task>, served: set<Task>)

  function TaskDomain(t: Task): Domain
    requires t.Resolve? ==> t.unchecked != []
  {
    if t.Resolve? then Requested(t.unchecked) else t.domain
  }

  /**
   `names` are the requested names, `others` the keys of the static and dynamic certificates and,
   for a domain that comes from a rule, the configured domains, all as they are at the check; what is
   seen is these and the held certificates.
   */
  ghost predicate StartResolve(s: State, s': State, id: nat, names: seq<string>, others: set<string>) {
    var seen := others + AcmeGroups(s.certs);
    var unchecked := Unchecked(names, seen);
    && id !in s.tasks
    && s' == if unchecked == [] then s else s.(tasks := s.tasks[id := Resolve(names, others, seen, unchecked)])
  }

  ghost predicate StartRenewal(s: State, s': State, id: nat, k: nat) {
    && id !in s.tasks && k < |s.certs|
    && s' == s.(tasks := s.tasks[id := Renewal(s.certs[k].domain)])
  }

  ghost predicate Abandon(s: State, s': State, id: nat) {
    id in s.tasks && s' == s.(tasks := s.tasks - {id})
  }

  ghost predicate Deliver(s: State, s': State, id: nat, certificate: string, key: string) {
    && id in s.tasks && (s.tasks[id].Resolve? ==> s.tasks[id].unchecked != [])
    && s' == State(Upsert(s.certs, Entry(TaskDomain(s.tasks[id]), certificate, key)),
                   s.tasks - {id}, s.served + {s.tasks[id]})
  }

  datatype Step =
    | AStartResolve(id: nat, names: seq<string>, others: set<string>)
    | AStartRenewal(id: nat, k: nat)
    | AAbandon(id: nat)
    | ADeliver(id: nat, certificate: string, key: string)

  ghost predicate Next(s: State, s': State, step: Step) {
    match step
    case AStartResolve(id, names, others) => StartResolve(s, s', id, names, others)
    case AStartRenewal(id, k) => StartRenewal(s, s', id, k)
    case AAbandon(id) => Abandon(s, s', id)
    case ADeliver(id, certificate, key) => Deliver(s, s', id, certificate, key)
  }

  predicate RenewalDelivered(s: State, step: Step) {
    step.ADeliver? && step.id in s.tasks && s.tasks[step.id].Renewal?
  }

  ghost predicate IsRun(run: seq<State>, steps: seq<Step>) {
    && |run| == |steps| + 1
    && run[0].tasks == map[] && run[0].served == {}
    && forall i :: 0 <= i < |steps| ==> Next(run[i], run[i + 1], steps[i])
  }

  /** `n` is matched by a name of a held certificate. */
  ghost predicate Held(n: string, certs: seq<Entry>) {
    Checked(n, AcmeGroups(certs))
  }

  /** The entry requested for `unchecked` is held, and `n` matches one of its names. */
  ghost predicate HeldAsRequested(n: string, unchecked: seq<string>, certs: seq<Entry>) {
    && unchecked != [] && n in unchecked
    && Requested(unchecked) in DomainsOf(certs) && Checked(n, {Group(Requested(unchecked))})
  }

  /** What a check saw is a static, dynamic or configured group, or one that is held to this day. */
  ghost predicate SeenLasts(t: Task, certs: seq<Entry>) {
    t.Resolve? ==> t.seen <= t.others + AcmeGroups(certs)
  }

  /**
   Each requested name is matched by what was seen at the check or by the entry delivered for it, and none
   was delivered that had been matched at the check.
   */
  ghost predicate Answered(t: Task, certs: seq<Entry>) {
    && SeenLasts(t, certs)
    && (t.Resolve? ==> forall n :: n in t.unchecked ==> n in t.names && !Checked(n, t.seen))
    && (t.Resolve? && Clean(t.names) ==>
          forall n :: n in t.names ==> Checked(n, t.seen) || HeldAsRequested(n, t.unchecked, certs))
  }

  ghost predicate TaskOk(t: Task, certs: seq<Entry>) {
    match t
    case Resolve(names, others, seen, unchecked) =>
      && unchecked != [] && SeenLasts(t, certs)
      && (forall n :: n in unchecked <==> n in names && !Checked(n, seen))
    case Renewal(d) => d in DomainsOf(certs)
  }

  ghost predicate Inv(s: State) {
    && (forall id :: id in s.tasks ==> TaskOk(s.tasks[id], s.certs))
    && (forall t :: t in s.served ==> Answered(t, s.certs))
  }

  lemma GroupsGrow(certs: seq<Entry>, certs': seq<Entry>)
    requires DomainsOf(certs) <= DomainsOf(certs')
    ensures AcmeGroups(certs) <= AcmeGroups(certs')
  {
    forall g | g in AcmeGroups(certs) ensures g in AcmeGroups(certs') {
      var e :| e in certs && Group(e.domain) == g;
      var i :| 0 <= i < |certs| && certs[i] == e;
      assert DomainsOf(certs)[i] == DomainsOf(certs')[i];
      assert certs'[i] in certs' && Group(certs'[i].domain) == g;
    }
  }

  lemma HeldGrows(certs: seq<Entry>, certs': seq<Entry>, n: string)
    requires DomainsOf(certs) <= DomainsOf(certs') && Held(n, certs)
    ensures Held(n, certs')
  {
    GroupsGrow(certs, certs');
    var g :| g in AcmeGroups(certs) && CheckedBy(n, g);
    assert g in AcmeGroups(certs');
  }

  lemma TaskOkGrows(t: Task, certs: seq<Entry>, certs': seq<Entry>)
    requires DomainsOf(certs) <= DomainsOf(certs')
    ensures TaskOk(t, certs) ==> TaskOk(t, certs')
    ensures Answered(t, certs) ==> Answered(t, certs')
  {
    GroupsGrow(certs, certs');
  }

  lemma NamesOfRequested(unchecked: seq<string>)
    requires unchecked != [] && "" !in unchecked
    ensures Names(Requested(unchecked)) == unchecked
  {
    assert unchecked[0] in unchecked;
    assert [unchecked[0]] + unchecked[1..] == unchecked;
  }

  lemma RequestedMatches(unchecked: seq<string>, n: string)
    requires unchecked != [] && Clean(unchecked) && n in unchecked
    ensures CheckedBy(n, Group(Requested(unchecked)))
  {
    NamesOfRequested(unchecked);
    SplitJoin(unchecked, ',');
    var k :| 0 <= k < |unchecked| && unchecked[k] == n;
    assert Matches(n, Split(Group(Requested(unchecked)), ',')[k]);
  }

  /** A delivered entry is held under each of the names it was requested for. */
  lemma DeliveredIsHeld(unchecked: seq<string>, certs: seq<Entry>, n: string)
    requires Clean(unchecked) && n in unchecked && Requested(unchecked) in DomainsOf(certs)
    ensures HeldAsRequested(n, unchecked, certs) && Held(n, certs)
  {
    RequestedMatches(unchecked, n);
    var i :| 0 <= i < |certs| && DomainsOf(certs)[i] == Requested(unchecked);
    assert certs[i] in certs && Group(certs[i].domain) in AcmeGroups(certs);
  }

  lemma ResolveStarts(s: State, s': State, id: nat, names: seq<string>, others: set<string>)
    requires Inv(s) && StartResolve(s, s', id, names, others)
    ensures Inv(s')
  {
    var groups := others + AcmeGroups(s.certs);
    var unchecked := Unchecked(names, groups);
    forall n ensures n in unchecked <==> n in names && !Checked(n, groups) {
      UncheckedMembers(names, groups, n);
    }
  }

  lemma DeliveryKeepsInv(s: State, s': State, id: nat, certificate: string, key: string)
    requires Inv(s) && Deliver(s, s', id, certificate, key)
    ensures Inv(s')
    ensures DomainsOf(s.certs) <= DomainsOf(s'.certs)
    ensures Distinct(DomainsOf(s.certs)) ==> Distinct(DomainsOf(s'.certs))
    ensures s.tasks[id].Renewal? ==> DomainsOf(s'.certs) == DomainsOf(s.certs)
  {
    var t := s.tasks[id];
    var e := Entry(TaskDomain(t), certificate, key);
    assert TaskOk(t, s.certs);
    UpsertDomains(s.certs, e);
    forall o ensures TaskOk(o, s.certs) ==> TaskOk(o, s'.certs)
             ensures Answered(o, s.certs) ==> Answered(o, s'.certs) {
      TaskOkGrows(o, s.certs, s'.certs);
    }
    if t.Resolve? && Clean(t.names) {
      forall i | 0 <= i < |t.unchecked| ensures Free(t.unchecked[i], ',') && t.unchecked[i] != "" {
        assert t.unchecked[i] in t.names;
      }
      assert Clean(t.unchecked);
      forall n | n in t.unchecked ensures HeldAsRequested(n, t.unchecked, s'.certs) {
        DeliveredIsHeld(t.unchecked, s'.certs, n);
      }
      assert Answered(t, s'.certs);
    }
  }

  lemma StepKeepsInv(s: State, s': State, step: Step)
    requires Inv(s) && Next(s, s', step)
    ensures Inv(s')
    ensures DomainsOf(s.certs) <= DomainsOf(s'.certs)
    ensures Distinct(DomainsOf(s.certs)) ==> Distinct(DomainsOf(s'.certs))
    ensures RenewalDelivered(s, step) ==> DomainsOf(s'.certs) == DomainsOf(s.certs)
    ensures s.served <= s'.served
  {
    match step
    case AStartResolve(id, names, others) => ResolveStarts(s, s', id, names, others);
    case AStartRenewal(id, k) =>
      assert DomainsOf(s.certs)[k] == s.certs[k].domain;
    case AAbandon(id) =>
    case ADeliver(id, certificate, key) => DeliveryKeepsInv(s, s', id, certificate, key);
  }

  lemma {:induction false} RunKeepsInv(run: seq<State>, steps: seq<Step>, i: nat, j: nat)
    requires IsRun(run, steps) && i <= j < |run|
    ensures Inv(run[j])
    ensures DomainsOf(run[i].certs) <= DomainsOf(run[j].certs)
    ensures Distinct(DomainsOf(run[0].certs)) ==> Distinct(DomainsOf(run[j].certs))
    ensures run[i].served <= run[j].served
    decreases j
  {
    if j > 0 {
      var m := if i == j then j - 1 else i;
      RunKeepsInv(run, steps, m, j - 1);
      assert Next(run[j - 1], run[j], steps[j - 1]);
      StepKeepsInv(run[j - 1], run[j], steps[j - 1]);
    }
  }

  /**
   In every run of resolves and renewals: entries keep pairwise distinct domains, a name matched by
   a held certificate stays matched, a renewal never grows the list, and every name of an answered
   request is, from then on, matched by a group seen at its check or by the entry delivered for it,
   where each group seen is still held unless it was static, dynamic or configured.
   */
  lemma CertificateListSafe(run: seq<State>, steps: seq<Step>)
    requires IsRun(run, steps)
    ensures Distinct(DomainsOf(run[0].certs)) ==> forall j :: 0 <= j < |run| ==> Distinct(DomainsOf(run[j].certs))
    ensures forall i, j, n :: 0 <= i <= j < |run| && Held(n, run[i].certs) ==> Held(n, run[j].certs)
    ensures forall i :: 0 <= i < |steps| && RenewalDelivered(run[i], steps[i])
                        ==> |run[i + 1].certs| == |run[i].certs|
    ensures forall i, j, t :: 0 <= i <= j < |run| && t in run[i].served ==> Answered(t, run[j].certs)
  {
    forall j | 0 <= j < |run| ensures Distinct(DomainsOf(run[0].certs)) ==> Distinct(DomainsOf(run[j].certs)) {
      RunKeepsInv(run, steps, j, j);
    }
    forall i, j, n | 0 <= i <= j < |run| && Held(n, run[i].certs) ensures Held(n, run[j].certs) {
      RunKeepsInv(run, steps, i, j);
      HeldGrows(run[i].certs, run[j].certs, n);
    }
    forall i | 0 <= i < |steps| && RenewalDelivered(run[i], steps[i])
      ensures |run[i + 1].certs| == |run[i].certs|
    {
      RunKeepsInv(run, steps, i, i);
      assert Next(run[i], run[i + 1], steps[i]);
      StepKeepsInv(run[i], run[i + 1], steps[i]);
      assert |DomainsOf(run[i].certs)| == |DomainsOf(run[i + 1].certs)|;
    }
    forall i, j, t | 0 <= i <= j < |run| && t in run[i].served ensures Answered(t, run[j].certs) {
      RunKeepsInv(run, steps, i, j);
    }
  }
}
