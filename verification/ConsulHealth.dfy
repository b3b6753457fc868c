/**
 The health state of the Consul catalog provider (provider/consulcatalog/consul_catalog.go): the fold
 of the checks of all services, and the comparison with the state seen before.
 */
module ConsulHealth {
  import opened Sequences
  import opened Text

  datatype Check = Check(node: string, serviceID: string, status: string, checkID: string)

  /** Healthy instances: the nodes of the passing checks, by key. */
  type Health = map<string, seq<string>>

  function Key(c: Check): string {
    c.node + "-" + c.serviceID
  }

  predicate Passes(c: Check) {
    c.status == "passing"
  }

  predicate Maintenance(c: Check) {
    "_service_maintenance" <= c.checkID || "_node_maintenance" <= c.checkID
  }

  predicate Fails(c: Check) {
    !Passes(c) && !Maintenance(c)
  }

  ghost predicate SomeFails(checks: seq<Check>, key: string) {
    exists i :: 0 <= i < |checks| && Key(checks[i]) == key && Fails(checks[i])
  }

  ghost predicate SomePasses(checks: seq<Check>, key: string) {
    exists i :: 0 <= i < |checks| && Key(checks[i]) == key && Passes(checks[i])
  }

  /** The nodes of the passing checks of a key, in order. */
  function PassingNodes(checks: seq<Check>, key: string): seq<string> {
    if checks == [] then []
    else
      var last := checks[|checks| - 1];
      PassingNodes(checks[..|checks| - 1], key) + if Key(last) == key && Passes(last) then [last.node] else []
  }

  /** What the fold makes of the checks, for every key. */
  ghost predicate IsHealthOf(checks: seq<Check>, current: Health) {
    forall key :: HealthAt(checks, current, key)
  }

  ghost predicate HealthAt(checks: seq<Check>, current: Health, key: string) {
    && (key in current <==> SomePasses(checks, key) && !SomeFails(checks, key))
    && (key in current ==> current[key] == PassingNodes(checks, key))
  }

  ghost predicate IsFailingOf(checks: seq<Check>, failing: set<string>) {
    forall key :: FailingAt(checks, failing, key)
  }

  ghost predicate FailingAt(checks: seq<Check>, failing: set<string>, key: string) {
    key in failing <==> SomeFails(checks, key)
  }

  /** A maintenance check is listed when it does not count as passing. */
  ghost predicate Listed(checks: seq<Check>, i: nat)
    requires i < |checks|
  {
    Maintenance(checks[i]) && (!Passes(checks[i]) || SomeFails(checks[..i], Key(checks[i])))
  }

  /** The IDs listed among the first `n` checks. */
  ghost predicate IsMaintenanceOf(checks: seq<Check>, n: nat, maintenance: seq<string>)
    requires n <= |checks|
  {
    forall id :: id in maintenance <==> exists i :: 0 <= i < n && Listed(checks, i) && checks[i].checkID == id
  }

  lemma MaintenanceStep(checks: seq<Check>, i: nat, maintenance: seq<string>)
    requires i < |checks| && IsMaintenanceOf(checks, i, maintenance)
    ensures Listed(checks, i) ==> IsMaintenanceOf(checks, i + 1, maintenance + [checks[i].checkID])
    ensures !Listed(checks, i) ==> IsMaintenanceOf(checks, i + 1, maintenance)
  {
  }

  lemma ExtendChecks(checks: seq<Check>, i: nat, key: string)
    requires i < |checks|
    ensures SomeFails(checks[..i + 1], key)
            <==> SomeFails(checks[..i], key) || (Key(checks[i]) == key && Fails(checks[i]))
    ensures SomePasses(checks[..i + 1], key)
            <==> SomePasses(checks[..i], key) || (Key(checks[i]) == key && Passes(checks[i]))
    ensures PassingNodes(checks[..i + 1], key)
            == PassingNodes(checks[..i], key) + if Key(checks[i]) == key && Passes(checks[i]) then [checks[i].node] else []
  {
    var a, b := checks[..i], checks[..i + 1];
    assert |a| == i && |b| == i + 1 && b[..i] == a && b[i] == checks[i];
    if SomeFails(a, key) {
      var k :| 0 <= k < |a| && Key(a[k]) == key && Fails(a[k]);
      assert b[k] == a[k];
    }
    if SomePasses(a, key) {
      var k :| 0 <= k < |a| && Key(a[k]) == key && Passes(a[k]);
      assert b[k] == a[k];
    }
    assert forall k :: 0 <= k < |b| ==> k == i || b[k] == a[k];
  }

  lemma {:induction false} NoPassNoNodes(checks: seq<Check>, key: string)
    requires !SomePasses(checks, key)
    ensures PassingNodes(checks, key) == []
  {
    if checks != [] {
      var n := |checks| - 1;
      ExtendChecks(checks, n, key);
      assert checks[..n + 1] == checks;
      NoPassNoNodes(checks[..n], key);
    }
  }

  /** The loop of `watchHealthState` over the checks of one answer. */
  method FoldChecks(checks: seq<Check>) returns (current: Health, maintenance: seq<string>)
    ensures IsHealthOf(checks, current)
    ensures IsMaintenanceOf(checks, |checks|, maintenance)
  {
    current, maintenance := map[], [];
    var currentFailing: set<string> := {};
    for i := 0 to |checks|
      invariant IsHealthOf(checks[..i], current)
      invariant IsFailingOf(checks[..i], currentFailing)
      invariant IsMaintenanceOf(checks, i, maintenance)
    {
      var healthy := checks[i];
      var key := Key(healthy);
      ghost var before, failingBefore := current, currentFailing;
      MaintenanceStep(checks, i, maintenance);
      assert FailingAt(checks[..i], currentFailing, key);
      if healthy.status == "passing" && key !in currentFailing {
        current := current[key := (if key in current then current[key] else []) + [healthy.node]];
      } else if "_service_maintenance" <= healthy.checkID || "_node_maintenance" <= healthy.checkID {
        maintenance := maintenance + [healthy.checkID];
      } else {
        currentFailing := currentFailing + {key};
        if key in current {
          current := current - {key};
        }
      }
      FoldStep(checks, i, before, current, failingBefore, currentFailing);
    }
    assert checks[..|checks|] == checks;
  }

  /** One check keeps the description of the fold. */
  lemma FoldStep(checks: seq<Check>, i: nat, before: Health, after: Health, failingBefore: set<string>, failingAfter: set<string>)
    requires i < |checks| && IsHealthOf(checks[..i], before) && IsFailingOf(checks[..i], failingBefore)
    requires
      var c := checks[i];
      var key := Key(c);
      if Passes(c) && key !in failingBefore then
        failingAfter == failingBefore
        && after == before[key := (if key in before then before[key] else []) + [c.node]]
      else if Maintenance(c) then failingAfter == failingBefore && after == before
      else failingAfter == failingBefore + {key} && after == before - {key}
    ensures IsHealthOf(checks[..i + 1], after) && IsFailingOf(checks[..i + 1], failingAfter)
  {
    var next := checks[..i + 1];
    forall key ensures FailingAt(next, failingAfter, key) {
      assert FailingAt(checks[..i], failingBefore, key);
      ExtendChecks(checks, i, key);
    }
    forall key ensures HealthAt(next, after, key) {
      assert HealthAt(checks[..i], before, key) && FailingAt(checks[..i], failingBefore, key);
      ExtendChecks(checks, i, key);
      if !SomePasses(checks[..i], key) {
        NoPassNoNodes(checks[..i], key);
      }
    }
  }

  // ---------- what a key and a check stand for ----------

  /** The health after a single check: a passing one makes its instance healthy, a maintenance check is listed. */
  lemma SingleCheck(c: Check, current: Health, maintenance: seq<string>)
    requires IsHealthOf([c], current) && IsMaintenanceOf([c], 1, maintenance)
    ensures current == if c.status == "passing" then map[c.node + "-" + c.serviceID := [c.node]] else map[]
    ensures forall id :: id in maintenance <==>
              && id == c.checkID && c.status != "passing"
              && ("_service_maintenance" <= id || "_node_maintenance" <= id)
  {
    var key := c.node + "-" + c.serviceID;
    assert [c][0] == c && [c][..0] == [];
    assert PassingNodes([], key) == [] && [] + [c.node] == [c.node];
    forall k ensures k in current <==> k == key && Passes(c) {
      assert HealthAt([c], current, k);
    }
    assert HealthAt([c], current, key);
    assert Listed([c], 0) <==> Maintenance(c) && !Passes(c);
  }

  lemma KeyCut(c: Check, d: Check)
    requires Key(c) == Key(d) && |d.node| < |c.node|
    ensures c.node[|d.node|] == '-' && '-' in c.node && '-' in d.serviceID
  {
    var w, k := Key(c), |d.node|;
    assert w[k] == c.node[k] && w[k] == Key(d)[k];
    var l := |c.node| - k - 1;
    assert w[|c.node|] == '-' && Key(d)[|c.node|] == d.serviceID[l];
  }

  /** A key belongs to one node and one service exactly when neither name holds a dash; on one node always. */
  lemma KeyUniqueExactly(c: Check)
    ensures Free(c.node, '-') && Free(c.serviceID, '-')
       <==> forall d :: Key(d) == Key(c) ==> d.node == c.node && d.serviceID == c.serviceID
    ensures forall d :: Key(d) == Key(c) && d.node == c.node ==> d.serviceID == c.serviceID
  {
    forall d | Key(d) == Key(c) && |d.node| == |c.node| ensures d.node == c.node && d.serviceID == c.serviceID {
      var n := |c.node|;
      assert Key(c)[..n] == c.node && Key(d)[..n] == d.node;
      assert Key(c)[n + 1..] == c.serviceID && Key(d)[n + 1..] == d.serviceID;
    }
    if Free(c.node, '-') && Free(c.serviceID, '-') {
      forall d | Key(d) == Key(c) ensures |d.node| == |c.node| {
        if |d.node| < |c.node| {
          KeyCut(c, d);
        } else if |c.node| < |d.node| {
          KeyCut(d, c);
        }
      }
    } else {
      var d := OtherWithKey(c);
    }
  }

  lemma OtherWithKey(c: Check) returns (d: Check)
    requires !Free(c.node, '-') || !Free(c.serviceID, '-')
    ensures Key(d) == Key(c) && d.node != c.node
  {
    if !Free(c.node, '-') {
      var k :| 0 <= k < |c.node| && c.node[k] == '-';
      d := c.(node := c.node[..k], serviceID := c.node[k + 1..] + "-" + c.serviceID);
      assert c.node == c.node[..k] + "-" + c.node[k + 1..];
      assert |d.node| < |c.node|;
    } else {
      var k :| 0 <= k < |c.serviceID| && c.serviceID[k] == '-';
      d := c.(node := c.node + "-" + c.serviceID[..k], serviceID := c.serviceID[k + 1..]);
      assert c.serviceID == c.serviceID[..k] + "-" + c.serviceID[k + 1..];
      assert |d.node| > |c.node|;
    }
  }

  // ---------- the order of the checks does not matter ----------

  /** Equal as maps from keys to node sets. */
  predicate SameHealth(a: Health, b: Health) {
    a.Keys == b.Keys && forall key :: key in a && key in b ==> ToSet(a[key]) == ToSet(b[key])
  }

  lemma {:induction false} PassingNode(checks: seq<Check>, key: string, node: string)
    ensures node in PassingNodes(checks, key)
            <==> exists c :: c in checks && Key(c) == key && Passes(c) && c.node == node
  {
    if checks != [] {
      var n := |checks| - 1;
      PassingNode(checks[..n], key, node);
      assert checks == checks[..n] + [checks[n]];
      assert checks[n] in checks;
    }
  }

  /** The same checks in any order give the same health state. */
  lemma OrderDoesNotMatter(checks: seq<Check>, permuted: seq<Check>, a: Health, b: Health)
    requires multiset(checks) == multiset(permuted) && IsHealthOf(checks, a) && IsHealthOf(permuted, b)
    ensures SameHealth(a, b)
  {
    PermutationMembers(checks, permuted);
    forall key ensures key in a <==> key in b {
      assert HealthAt(checks, a, key) && HealthAt(permuted, b, key);
      AsMembership(checks, key);
      AsMembership(permuted, key);
    }
    forall key | key in a && key in b ensures ToSet(a[key]) == ToSet(b[key]) {
      assert HealthAt(checks, a, key) && HealthAt(permuted, b, key);
      forall node ensures node in a[key] <==> node in b[key] {
        PassingNode(checks, key, node);
        PassingNode(permuted, key, node);
      }
    }
  }

  lemma AsMembership(checks: seq<Check>, key: string)
    ensures SomeFails(checks, key) <==> exists c :: c in checks && Key(c) == key && Fails(c)
    ensures SomePasses(checks, key) <==> exists c :: c in checks && Key(c) == key && Passes(c)
  {
    if c :| c in checks && Key(c) == key && Fails(c) {
      var i :| 0 <= i < |checks| && checks[i] == c;
    }
    if c :| c in checks && Key(c) == key && Passes(c) {
      var i :| 0 <= i < |checks| && checks[i] == c;
    }
  }

  // ---------- change detection ----------

  /** `getChangedStringKeys` and `getChangedIntKeys`. */
  function Changed<T(==)>(curr: seq<T>, prev: seq<T>): (set<T>, set<T>) {
    var c, p := ToSet(curr), ToSet(prev);
    (c - p, p - c)
  }

  ghost predicate SameElements<T>(a: seq<T>, b: seq<T>) {
    (forall x :: x in a ==> x in b) && (forall x :: x in b ==> x in a)
  }

  lemma ChangedNothing<T>(curr: seq<T>, prev: seq<T>)
    ensures Changed(curr, prev) == ({}, {}) <==> SameElements(curr, prev)
  {
    var c, p := ToSet(curr), ToSet(prev);
    if Changed(curr, prev) == ({}, {}) {
      forall x ensures x in curr <==> x in prev {
        assert x in c - p <==> x in curr && x !in prev;
        assert x in p - c <==> x in prev && x !in curr;
      }
    } else {
      assert c - p != {} || p - c != {};
      if c - p != {} {
        var x :| x in c - p;
        assert x in curr && x !in prev;
      } else {
        var x :| x in p - c;
        assert x in prev && x !in curr;
      }
    }
  }

  /** `getChangedHealth`: it reports nothing exactly when both states are the same health. */
  method GetChangedHealth(current: Health, previous: Health)
    returns (added: set<string>, removed: set<string>, changed: seq<string>)
    ensures added == current.Keys - previous.Keys && removed == previous.Keys - current.Keys
    ensures forall key :: key in changed <==> key in current && key in previous && ToSet(current[key]) != ToSet(previous[key])
    ensures added == {} && removed == {} && changed == [] <==> SameHealth(current, previous)
  {
    added, removed, changed := current.Keys - previous.Keys, previous.Keys - current.Keys, [];
    var todo := current.Keys;
    while todo != {}
      invariant todo <= current.Keys
      invariant forall key :: key in changed <==>
                  key in current && key !in todo && key in previous && ToSet(current[key]) != ToSet(previous[key])
      decreases |todo|
    {
      var key :| key in todo;
      if key in previous {
        var (addedNodes, removedNodes) := Changed(current[key], previous[key]);
        SameSets(current[key], previous[key]);
        if |addedNodes| > 0 || |removedNodes| > 0 {
          changed := changed + [key];
        }
      }
      todo := todo - {key};
    }
    if added == {} && removed == {} && changed == [] {
      assert current.Keys == previous.Keys;
    }
    assert changed == [] <==> forall key :: key !in changed by {
      assert changed != [] ==> changed[0] in changed;
    }
  }

  lemma SameSets(a: seq<string>, b: seq<string>)
    ensures Changed(a, b) == ({}, {}) <==> ToSet(a) == ToSet(b)
  {
    ChangedNothing(a, b);
    if ToSet(a) == ToSet(b) {
      forall x ensures x in a <==> x in b {
        assert x in a <==> x in ToSet(a);
        assert x in b <==> x in ToSet(b);
      }
    }
  }

  datatype Service = Service(nodes: seq<string>, tags: seq<string>, addresses: seq<string>, ports: seq<int>)

  ghost predicate SameService(a: Service, b: Service) {
    && SameElements(a.nodes, b.nodes) && SameElements(a.tags, b.tags)
    && SameElements(a.addresses, b.addresses) && SameElements(a.ports, b.ports)
  }

  function DiffersIn<T(==)>(curr: seq<T>, prev: seq<T>): bool {
    |Changed(curr, prev).0| > 0 || |Changed(curr, prev).1| > 0
  }

  lemma DiffersExactly<T>(curr: seq<T>, prev: seq<T>)
    ensures !DiffersIn(curr, prev) <==> SameElements(curr, prev)
  {
    ChangedNothing(curr, prev);
  }

  /** Two states of a service are the same when no node, tag, address or port is in one of them only. */
  lemma SameServiceExactly(a: Service, b: Service)
    ensures SameService(a, b)
       <==> && ToSet(a.nodes) == ToSet(b.nodes) && ToSet(a.tags) == ToSet(b.tags)
            && ToSet(a.addresses) == ToSet(b.addresses) && ToSet(a.ports) == ToSet(b.ports)
  {
    SameAsSets(a.nodes, b.nodes);
    SameAsSets(a.tags, b.tags);
    SameAsSets(a.addresses, b.addresses);
    SameAsSets(a.ports, b.ports);
  }

  lemma SameAsSets<T>(a: seq<T>, b: seq<T>)
    ensures SameElements(a, b) <==> ToSet(a) == ToSet(b)
  {
    assert forall x :: x in a <==> x in ToSet(a);
    assert forall x :: x in b <==> x in ToSet(b);
  }

  /** `hasServiceChanged`. */
  method HasServiceChanged(current: map<string, Service>, previous: map<string, Service>) returns (r: bool)
    ensures r <==> exists key :: key in current && key in previous && !SameService(current[key], previous[key])
  {
    var todo := current.Keys;
    while todo != {}
      invariant todo <= current.Keys
      invariant forall key :: key in current && key !in todo && key in previous ==> SameService(current[key], previous[key])
      decreases |todo|
    {
      var key :| key in todo;
      if key in previous {
        var value, prevValue := current[key], previous[key];
        DiffersExactly(value.nodes, prevValue.nodes);
        DiffersExactly(value.tags, prevValue.tags);
        DiffersExactly(value.addresses, prevValue.addresses);
        DiffersExactly(value.ports, prevValue.ports);
        if DiffersIn(value.nodes, prevValue.nodes) {
          return true;
        }
        if DiffersIn(value.tags, prevValue.tags) {
          return true;
        }
        if DiffersIn(value.addresses, prevValue.addresses) {
          return true;
        }
        if DiffersIn(value.ports, prevValue.ports) {
          return true;
        }
      }
      todo := todo - {key};
    }
    return false;
  }

  /** `hasChanged`: false exactly when both states have the same services with the same contents. */
  method HasChanged(current: map<string, Service>, previous: map<string, Service>) returns (r: bool)
    ensures !r <==> current.Keys == previous.Keys
                    && forall key :: key in current && key in previous ==> SameService(current[key], previous[key])
  {
    if |current| != |previous| {
      assert |current.Keys| != |previous.Keys|;
      return true;
    }
    var addedKeys, removedKeys := current.Keys - previous.Keys, previous.Keys - current.Keys;
    if |removedKeys| > 0 || |addedKeys| > 0 {
      return true;
    }
    assert current.Keys == previous.Keys;
    r := HasServiceChanged(current, previous);
  }
}
