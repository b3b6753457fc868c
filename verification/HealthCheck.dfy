/**
 The health check of a backend (healthcheck/healthcheck.go): servers move between the load
 balancer and the list of disabled servers as their probes answer.
 */
module HealthCheck {
  import opened Sequences

  type URL = string

  /** The servers of `s` that answer `good`, in order. */
  function Those(s: seq<URL>, passes: URL -> bool, good: bool): seq<URL> {
    if s == [] then []
    else
      var last := s[|s| - 1];
      Those(s[..|s| - 1], passes, good) + if passes(last) == good then [last] else []
  }

  function Remove(s: seq<URL>, u: URL): seq<URL> {
    if s == [] then [] else if s[0] == u then s[1..] else [s[0]] + Remove(s[1..], u)
  }

  lemma {:induction false} ThoseMembers(s: seq<URL>, passes: URL -> bool, good: bool, u: URL)
    ensures u in Those(s, passes, good) <==> u in s && passes(u) == good
  {
    if s != [] {
      assert s == s[..|s| - 1] + [s[|s| - 1]];
      ThoseMembers(s[..|s| - 1], passes, good, u);
    }
  }

  lemma {:induction false} ThoseInOrder(s: seq<URL>, passes: URL -> bool, good: bool)
    ensures Sub(Those(s, passes, good), s)
  {
    if s != [] {
      var n := |s| - 1;
      ThoseInOrder(s[..n], passes, good);
      var tail := if passes(s[n]) == good then [s[n]] else [];
      SubConcat(Those(s[..n], passes, good), s[..n], tail, [s[n]]);
      assert s == s[..n] + [s[n]];
    }
  }

  lemma {:induction false} RemoveMiddle(a: seq<URL>, u: URL, b: seq<URL>)
    requires u !in a
    ensures Remove(a + [u] + b, u) == a + b
  {
    var s := a + [u] + b;
    if a == [] {
      assert s[1..] == b;
    } else {
      assert s[1..] == a[1..] + [u] + b;
      RemoveMiddle(a[1..], u, b);
    }
  }

  lemma {:induction false} RemoveAbsent(s: seq<URL>, u: URL)
    requires u !in s
    ensures Remove(s, u) == s
  {
    if s != [] {
      RemoveAbsent(s[1..], u);
    }
  }

  // ---------- one pass ----------

  class LoadBalancer {
    var servers: seq<URL>

    constructor ()
      ensures servers == []
    {
      servers := [];
    }

    method UpsertServer(u: URL)
      modifies this
      ensures servers == if u in old(servers) then old(servers) else old(servers) + [u]
    {
      if u !in servers {
        servers := servers + [u];
      }
    }

    method RemoveServer(u: URL)
      modifies this
      ensures servers == Remove(old(servers), u)
    {
      for i := 0 to |servers|
        invariant servers == old(servers) && u !in servers[..i]
      {
        if servers[i] == u {
          RemoveMiddle(servers[..i], u, servers[i + 1..]);
          assert servers == servers[..i] + [u] + servers[i + 1..];
          servers := servers[..i] + servers[i + 1..];
          return;
        }
      }
      assert servers[..|servers|] == servers;
      RemoveAbsent(servers, u);
    }
  }

  class BackendHealthCheck {
    const lb: LoadBalancer
    var disabledURLs: seq<URL>
    /** The server-up gauge of each URL, and the probes sent so far. */
    var gauges: map<URL, int>
    var probes: seq<URL>

    constructor (lb: LoadBalancer)
      ensures this.lb == lb && disabledURLs == [] && gauges == map[] && probes == []
    {
      this.lb, disabledURLs, gauges, probes := lb, [], map[], [];
    }

    ghost predicate Valid()
      reads this, lb
    {
      Distinct(lb.servers + disabledURLs)
    }

    ghost function Value(): Pool
      reads this, lb
    {
      Pool(lb.servers, disabledURLs)
    }

    /** `checkHealth`, whose answer comes from the network. */
    method Probe(u: URL, passes: URL -> bool) returns (healthy: bool)
      modifies this`probes
      ensures healthy == passes(u) && probes == old(probes) + [u]
    {
      probes := probes + [u];
      healthy := passes(u);
    }

    /** The probe of a disabled server. */
    method RecheckServer(url: URL, passes: URL -> bool) returns (healthy: bool)
      modifies this`probes, this`gauges, lb
      ensures healthy == passes(url)
      ensures lb.servers == if passes(url) && url !in old(lb.servers) then old(lb.servers) + [url] else old(lb.servers)
      ensures probes == old(probes) + [url]
      ensures gauges == old(gauges)[url := if passes(url) then 1 else 0]
    {
      var serverUp := 0;
      healthy := Probe(url, passes);
      if healthy {
        lb.UpsertServer(url);
        serverUp := 1;
      }
      gauges := gauges[url := serverUp];
    }

    /** The probe of an enabled server. */
    method CheckServer(url: URL, passes: URL -> bool)
      modifies this, lb
      ensures lb.servers == if passes(url) then old(lb.servers) else Remove(old(lb.servers), url)
      ensures disabledURLs == old(disabledURLs) + if passes(url) then [] else [url]
      ensures probes == old(probes) + [url]
      ensures gauges == old(gauges)[url := if passes(url) then 1 else 0]
    {
      var serverUp := 1;
      var healthy := Probe(url, passes);
      if !healthy {
        lb.RemoveServer(url);
        disabledURLs := disabledURLs + [url];
        serverUp := 0;
      }
      gauges := gauges[url := serverUp];
    }

    /** The first loop of `checkBackend`: disabled servers that pass return to the load balancer. */
    method CheckDisabled(passes: URL -> bool)
      requires Valid()
      modifies this, lb
      ensures lb.servers == old(lb.servers) + Those(old(disabledURLs), passes, true)
      ensures disabledURLs == Those(old(disabledURLs), passes, false)
      ensures probes == old(probes) + old(disabledURLs)
      ensures gauges == SetGauges(old(gauges), old(disabledURLs), passes)
    {
      var urls := disabledURLs;
      ghost var enabled := lb.servers;
      disabledURLs := RecheckAll(urls, enabled, passes);
    }

    method RecheckAll(urls: seq<URL>, ghost enabled: seq<URL>, passes: URL -> bool) returns (failed: seq<URL>)
      requires lb.servers == enabled && Distinct(enabled + urls)
      modifies this`probes, this`gauges, lb
      ensures lb.servers == enabled + Those(urls, passes, true)
      ensures failed == Those(urls, passes, false)
      ensures probes == old(probes) + urls
      ensures gauges == SetGauges(old(gauges), urls, passes)
    {
      failed := [];
      for i := 0 to |urls|
        invariant lb.servers == enabled + Those(urls[..i], passes, true)
        invariant failed == Those(urls[..i], passes, false)
        invariant probes == old(probes) + urls[..i]
        invariant gauges == SetGauges(old(gauges), urls[..i], passes)
      {
        DisabledStep(enabled, urls, i, passes);
        Assoc(old(probes), urls[..i], [urls[i]]);
        GaugeStep(old(gauges), urls, i, passes);
        var healthy := RecheckServer(urls[i], passes);
        if !healthy {
          failed := failed + [urls[i]];
        }
      }
      assert urls[..|urls|] == urls;
    }

    /** The second loop: servers that were enabled when the pass began leave when they fail. */
    method CheckEnabled(enabledURLs: seq<URL>, ghost returned: seq<URL>, passes: URL -> bool)
      requires lb.servers == enabledURLs + returned && Distinct(enabledURLs)
      modifies this, lb
      ensures lb.servers == Those(enabledURLs, passes, true) + returned
      ensures disabledURLs == old(disabledURLs) + Those(enabledURLs, passes, false)
      ensures probes == old(probes) + enabledURLs
      ensures gauges == SetGauges(old(gauges), enabledURLs, passes)
    {
      NoneChecked(enabledURLs, returned, passes);
      AllChecked(enabledURLs, returned, passes);
      ghost var disabled, sent := disabledURLs, probes;
      for i := 0 to |enabledURLs|
        invariant lb.servers == InProgress(enabledURLs, i, returned, passes)
        invariant disabledURLs == disabled + Those(enabledURLs[..i], passes, false)
        invariant probes == sent + enabledURLs[..i]
        invariant gauges == SetGauges(old(gauges), enabledURLs[..i], passes)
      {
        var url := enabledURLs[i];
        EnabledStep(enabledURLs, i, returned, passes);
        Assoc(sent, enabledURLs[..i], [url]);
        Assoc(disabled, Those(enabledURLs[..i], passes, false), if passes(url) then [] else [url]);
        GaugeStep(old(gauges), enabledURLs, i, passes);
        CheckServer(url, passes);
      }
    }

    /** `checkBackend`: every server is probed once, and each gauge shows the answer. */
    method CheckBackend(passes: URL -> bool)
      requires Valid()
      modifies this, lb
      ensures Valid()
      ensures Value() == Pass(old(Value()), passes)
      ensures probes == old(probes) + old(disabledURLs) + old(lb.servers)
      ensures gauges == SetGauges(SetGauges(old(gauges), old(disabledURLs), passes), old(lb.servers), passes)
    {
      PassKeepsDistinct(Value(), passes);
      var enabledURLs := lb.servers;
      ghost var disabled := disabledURLs;
      assert Distinct(enabledURLs) by {
        forall i, j | 0 <= i < j < |enabledURLs| ensures enabledURLs[i] != enabledURLs[j] {
          assert (lb.servers + disabledURLs)[i] != (lb.servers + disabledURLs)[j];
        }
      }
      CheckDisabled(passes);
      CheckEnabled(enabledURLs, Those(disabled, passes, true), passes);
    }
  }

  /** The load balancer's servers when the first `i` of `urls` have been checked. */
  function InProgress(urls: seq<URL>, i: nat, returned: seq<URL>, passes: URL -> bool): seq<URL>
    requires i <= |urls|
  {
    Those(urls[..i], passes, true) + urls[i..] + returned
  }

  lemma NoneChecked(urls: seq<URL>, returned: seq<URL>, passes: URL -> bool)
    ensures urls[..0] == [] && InProgress(urls, 0, returned, passes) == urls + returned
  {
    assert urls[0..] == urls && [] + urls == urls;
  }

  lemma AllChecked(urls: seq<URL>, returned: seq<URL>, passes: URL -> bool)
    ensures urls[..|urls|] == urls && InProgress(urls, |urls|, returned, passes) == Those(urls, passes, true) + returned
  {
    assert urls[|urls|..] == [] && urls[..|urls|] == urls;
    assert Those(urls, passes, true) + [] == Those(urls, passes, true);
  }

  /** Keeping or removing the server at `i` extends the checked part of the list by one. */
  lemma EnabledStep(urls: seq<URL>, i: nat, returned: seq<URL>, passes: URL -> bool)
    requires Distinct(urls) && i < |urls|
    ensures
      var servers := InProgress(urls, i, returned, passes);
      (if passes(urls[i]) then servers else Remove(servers, urls[i])) == InProgress(urls, i + 1, returned, passes)
    ensures Those(urls[..i + 1], passes, false)
            == Those(urls[..i], passes, false) + if passes(urls[i]) then [] else [urls[i]]
    ensures urls[..i + 1] == urls[..i] + [urls[i]] && urls[..i + 1][..i] == urls[..i]
  {
    var before, rest := Those(urls[..i], passes, true), urls[i + 1..];
    assert urls[..i + 1][..i] == urls[..i];
    assert urls[i..] == [urls[i]] + rest;
    Assoc(before, [urls[i]], rest);
    Assoc(before + [urls[i]], rest, returned);
    Assoc(before, rest, returned);
    ThoseMembers(urls[..i], passes, true, urls[i]);
    RemoveMiddle(before, urls[i], rest + returned);
    assert before + [] == before;
  }

  lemma DisabledStep(enabled: seq<URL>, disabled: seq<URL>, i: nat, passes: URL -> bool)
    requires Distinct(enabled + disabled) && i < |disabled|
    ensures
      var servers := enabled + Those(disabled[..i], passes, true);
      && disabled[i] !in servers
      && (if passes(disabled[i]) then servers + [disabled[i]] else servers)
          == enabled + Those(disabled[..i + 1], passes, true)
    ensures Those(disabled[..i + 1], passes, false)
            == Those(disabled[..i], passes, false) + if passes(disabled[i]) then [] else [disabled[i]]
    ensures disabled[..i + 1] == disabled[..i] + [disabled[i]] && disabled[..i + 1][..i] == disabled[..i]
  {
    assert disabled[..i + 1][..i] == disabled[..i];
    NotYet(enabled, disabled, i, passes);
    Assoc(enabled, Those(disabled[..i], passes, true), [disabled[i]]);
  }

  lemma NotYet(enabled: seq<URL>, disabled: seq<URL>, i: nat, passes: URL -> bool)
    requires Distinct(enabled + disabled) && i < |disabled|
    ensures disabled[i] !in enabled + Those(disabled[..i], passes, true)
  {
    var all := enabled + disabled;
    ThoseMembers(disabled[..i], passes, true, disabled[i]);
    forall k | 0 <= k < |enabled| ensures enabled[k] != disabled[i] {
      assert all[k] == enabled[k] && all[|enabled| + i] == disabled[i];
    }
    forall k | 0 <= k < i ensures disabled[k] != disabled[i] {
      assert all[|enabled| + k] == disabled[k] && all[|enabled| + i] == disabled[i];
    }
  }

  function SetGauges(gauges: map<URL, int>, urls: seq<URL>, passes: URL -> bool): map<URL, int> {
    if urls == [] then gauges
    else
      var last := urls[|urls| - 1];
      SetGauges(gauges, urls[..|urls| - 1], passes)[last := if passes(last) then 1 else 0]
  }

  lemma GaugeStep(gauges: map<URL, int>, urls: seq<URL>, i: nat, passes: URL -> bool)
    requires i < |urls|
    ensures SetGauges(gauges, urls[..i + 1], passes)
            == SetGauges(gauges, urls[..i], passes)[urls[i] := if passes(urls[i]) then 1 else 0]
  {
    assert urls[..i + 1][..i] == urls[..i];
  }

  lemma {:induction false} GaugesMatch(gauges: map<URL, int>, urls: seq<URL>, passes: URL -> bool, u: URL)
    ensures u in urls ==> u in SetGauges(gauges, urls, passes)
                          && SetGauges(gauges, urls, passes)[u] == if passes(u) then 1 else 0
    ensures u !in urls ==> (u in SetGauges(gauges, urls, passes) <==> u in gauges)
    ensures u !in urls && u in gauges ==> SetGauges(gauges, urls, passes)[u] == gauges[u]
  {
    if urls != [] {
      assert urls == urls[..|urls| - 1] + [urls[|urls| - 1]];
      GaugesMatch(gauges, urls[..|urls| - 1], passes, u);
    }
  }

  // ---------- any number of passes ----------

  datatype Pool = Pool(enabled: seq<URL>, disabled: seq<URL>)

  function Pass(p: Pool, passes: URL -> bool): Pool {
    Pool(Those(p.enabled, passes, true) + Those(p.disabled, passes, true),
         Those(p.disabled, passes, false) + Those(p.enabled, passes, false))
  }

  function Passes(p: Pool, answers: seq<URL -> bool>): Pool {
    if answers == [] then p
    else Pass(Passes(p, answers[..|answers| - 1]), answers[|answers| - 1])
  }

  function Servers(p: Pool): multiset<URL> {
    multiset(p.enabled) + multiset(p.disabled)
  }

  lemma {:induction false} Partition(s: seq<URL>, passes: URL -> bool)
    ensures multiset(Those(s, passes, true)) + multiset(Those(s, passes, false)) == multiset(s)
  {
    if s != [] {
      assert s == s[..|s| - 1] + [s[|s| - 1]];
      Partition(s[..|s| - 1], passes);
    }
  }

  lemma PassConserves(p: Pool, passes: URL -> bool)
    ensures Servers(Pass(p, passes)) == Servers(p)
  {
    Partition(p.enabled, passes);
    Partition(p.disabled, passes);
  }

  lemma {:induction false} DistinctByCount(s: seq<URL>)
    ensures Distinct(s) <==> forall u :: u in s ==> multiset(s)[u] == 1
  {
    if s != [] {
      var t := s[..|s| - 1];
      var x := s[|s| - 1];
      assert s == t + [x];
      DistinctByCount(t);
      if Distinct(s) {
        assert Distinct(t);
        forall u | u in s ensures multiset(s)[u] == 1 {
          if u == x {
            assert x !in t;
            assert x !in multiset(t);
          } else {
            assert u in t;
          }
        }
      }
      if forall u :: u in s ==> multiset(s)[u] == 1 {
        forall u | u in t ensures multiset(t)[u] == 1 {
          assert u in s && u in multiset(t);
        }
        assert multiset(s)[x] == 1;
        assert x !in multiset(t);
        assert x !in t;
      }
    }
  }

  lemma PassKeepsDistinct(p: Pool, passes: URL -> bool)
    requires Distinct(p.enabled + p.disabled)
    ensures Distinct(Pass(p, passes).enabled + Pass(p, passes).disabled)
  {
    var q := Pass(p, passes);
    PassConserves(p, passes);
    DistinctByCount(p.enabled + p.disabled);
    DistinctByCount(q.enabled + q.disabled);
    assert multiset(q.enabled + q.disabled) == multiset(p.enabled + p.disabled);
    forall u | u in q.enabled + q.disabled ensures u in p.enabled + p.disabled {
      assert u in multiset(q.enabled + q.disabled);
      assert u in multiset(p.enabled + p.disabled);
    }
  }

  lemma {:induction false} PassesConserve(configured: seq<URL>, answers: seq<URL -> bool>)
    requires Distinct(configured)
    ensures
      var p := Passes(Pool(configured, []), answers);
      Distinct(p.enabled + p.disabled) && Servers(p) == multiset(configured)
  {
    if answers == [] {
      assert configured + [] == configured;
    } else {
      var n := |answers| - 1;
      PassesConserve(configured, answers[..n]);
      var p := Passes(Pool(configured, []), answers[..n]);
      PassConserves(p, answers[n]);
      PassKeepsDistinct(p, answers[n]);
    }
  }

  /**
   After any number of passes with any answers the enabled and the disabled servers are disjoint and
   together exactly the configured ones, none twice; and after a pass exactly those are enabled that
   passed in it.
   */
  lemma ServersConserved(configured: seq<URL>, answers: seq<URL -> bool>)
    requires Distinct(configured)
    ensures
      var p := Passes(Pool(configured, []), answers);
      && Distinct(p.enabled + p.disabled)
      && (forall u :: u in configured <==> u in p.enabled || u in p.disabled)
      && (forall u :: !(u in p.enabled && u in p.disabled))
      && (answers != [] ==> forall u :: u in p.enabled <==> u in configured && answers[|answers| - 1](u))
  {
    PassesConserve(configured, answers);
    var p := Passes(Pool(configured, []), answers);
    forall u ensures u in configured <==> u in p.enabled || u in p.disabled {
      InPool(p, configured, u);
    }
    forall u ensures !(u in p.enabled && u in p.disabled) {
      NotInBoth(p, u);
    }
    if answers != [] {
      forall u ensures u in p.enabled <==> u in configured && answers[|answers| - 1](u) {
        EnabledPassed(configured, answers, u);
      }
    }
  }

  lemma NotInBoth(p: Pool, u: URL)
    requires Distinct(p.enabled + p.disabled)
    ensures !(u in p.enabled && u in p.disabled)
  {
    forall i, j | 0 <= i < |p.enabled| && 0 <= j < |p.disabled| ensures p.enabled[i] != p.disabled[j] {
      assert (p.enabled + p.disabled)[i] != (p.enabled + p.disabled)[|p.enabled| + j];
    }
  }

  lemma EnabledPassed(configured: seq<URL>, answers: seq<URL -> bool>, u: URL)
    requires Distinct(configured) && answers != []
    ensures u in Passes(Pool(configured, []), answers).enabled <==> u in configured && answers[|answers| - 1](u)
  {
    var n := |answers| - 1;
    var q := Passes(Pool(configured, []), answers[..n]);
    PassesConserve(configured, answers[..n]);
    InPool(q, configured, u);
    ThoseMembers(q.enabled, answers[n], true, u);
    ThoseMembers(q.disabled, answers[n], true, u);
  }

  lemma InPool(p: Pool, configured: seq<URL>, u: URL)
    requires Servers(p) == multiset(configured)
    ensures u in configured <==> u in p.enabled || u in p.disabled
  {
    assert u in configured <==> u in multiset(configured);
    assert u in p.enabled <==> u in multiset(p.enabled);
    assert u in p.disabled <==> u in multiset(p.disabled);
  }
}
