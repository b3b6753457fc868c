/**
 `deleteUnnecessaryDomains`: what it keeps and drops, stated once for both of its
 implementations, the list-based one (provider/acme/provider.go) and the one that
 goes through a map with comma-joined keys (acme/acme.go).
 */
module DomainReducer {
  import opened Text
  import opened Domains
  import opened Sequences
  import opened Wrappers

  datatype Variant = ListBased | MapBased

  // ---------- the drop decision ----------

  /** Some name of a comma-joined group matches `n`. */
  ghost predicate CheckedBy(n: string, group: string) {
    exists j :: 0 <= j < |Split(group, ',')| && Matches(n, Split(group, ',')[j])
  }

  ghost predicate Checked(n: string, groups: set<string>) {
    exists g :: g in groups && CheckedBy(n, g)
  }

  /** The groups an entry offers to `isDomainAlreadyChecked`. */
  function Groups(v: Variant, d: Domain): set<string> {
    match v
    case ListBased => ToSet(Names(d))
    case MapBased => {d.main} + (if |d.sans.Elems()| > 0 then {Join(d.sans.Elems(), ',')} else {})
  }

  ghost predicate WildcardChecks(v: Variant, n: string, main: string) {
    match v
    case ListBased => Checked(n, {main})
    case MapBased => Matches(n, main)
  }

  predicate Starts(s: string) {
    |s| > 0 && s[0] == '*'
  }

  /** Entry `j` removes name `n` from entry `i`. */
  ghost predicate Drops(v: Variant, ds: seq<Domain>, i: int, j: int, n: string)
    requires 0 <= j < |ds|
  {
    || (j < i && Checked(n, Groups(v, ds[j])))
    || (ds[j].main != n && Starts(ds[j].main) && WildcardChecks(v, n, ds[j].main))
  }

  ghost function Remaining(v: Variant, ds: seq<Domain>, i: int, j: int, names: seq<string>): seq<string>
    requires 0 <= j < |ds|
  {
    if names == [] then []
    else (if Drops(v, ds, i, j, names[0]) then [] else [names[0]]) + Remaining(v, ds, i, j, names[1..])
  }

  /** The fate of entry `i`, shrunk to `cur` so far, against entries `j`, `j + 1`, ... */
  ghost function Process(v: Variant, ds: seq<Domain>, i: int, j: nat, cur: Domain): Option<Domain>
    requires j <= |ds|
    decreases |ds| - j
  {
    if j == |ds| then Some(cur)
    else if j == i then Process(v, ds, i, j + 1, cur)
    else if ds[j] == cur then (if i > j then None else Some(cur))
    else
      var rest := Remaining(v, ds, i, j, Names(cur));
      if rest == [] then None else Process(v, ds, i, j + 1, Set(cur, rest))
  }

  ghost function Fate(v: Variant, ds: seq<Domain>, i: nat): Option<Domain>
    requires i < |ds|
  {
    Process(v, ds, i, 0, ds[i])
  }

  /** The entries kept among the first `n`. */
  ghost function KeptUpTo(v: Variant, ds: seq<Domain>, n: nat): seq<Domain>
    requires n <= |ds|
  {
    if n == 0 then []
    else KeptUpTo(v, ds, n - 1) + (match Fate(v, ds, n - 1) case None => [] case Some(d) => [d])
  }

  ghost function Kept(v: Variant, ds: seq<Domain>): seq<Domain> {
    KeptUpTo(v, ds, |ds|)
  }

  // ---------- coverage survives ----------

  /** A name as it may be configured. */
  predicate Plain(n: string) {
    n != "" && Free(n, ',') && !DottedWildcard(n)
  }

  predicate AllPlain(ds: seq<Domain>) {
    forall i, k :: 0 <= i < |ds| && 0 <= k < |Names(ds[i])| ==> Plain(Names(ds[i])[k])
  }

  ghost predicate CoveredBy(n: string, ds: seq<Domain>) {
    exists i, k :: 0 <= i < |ds| && 0 <= k < |Names(ds[i])| && Matches(n, Names(ds[i])[k])
  }

  lemma {:induction false} RemainingMembers(v: Variant, ds: seq<Domain>, i: int, j: int, names: seq<string>, n: string)
    requires 0 <= j < |ds|
    ensures n in Remaining(v, ds, i, j, names) <==> n in names && !Drops(v, ds, i, j, n)
  {
    if names != [] {
      RemainingMembers(v, ds, i, j, names[1..], n);
      assert names == [names[0]] + names[1..];
    }
  }

  /** Nothing else is lost: an undropped name stays as often as it was there. */
  lemma {:induction false} RemainingCounts(v: Variant, ds: seq<Domain>, i: int, j: int, names: seq<string>, n: string)
    requires 0 <= j < |ds|
    ensures multiset(Remaining(v, ds, i, j, names))[n] == if Drops(v, ds, i, j, n) then 0 else multiset(names)[n]
  {
    if names != [] {
      RemainingCounts(v, ds, i, j, names[1..], n);
      CountFirst(names, n);
      var rest := Remaining(v, ds, i, j, names[1..]);
      if Drops(v, ds, i, j, names[0]) {
        assert [] + rest == rest;
      } else {
        CountFirst([names[0]] + rest, n);
        assert ([names[0]] + rest)[1..] == rest;
      }
    }
  }

  lemma {:induction false} RemainingSub(v: Variant, ds: seq<Domain>, i: int, j: int, names: seq<string>)
    requires 0 <= j < |ds|
    ensures Sub(Remaining(v, ds, i, j, names), names)
  {
    if names != [] {
      RemainingSub(v, ds, i, j, names[1..]);
      var head := if Drops(v, ds, i, j, names[0]) then [] else [names[0]];
      SubConcat(head, [names[0]], Remaining(v, ds, i, j, names[1..]), names[1..]);
      assert names == [names[0]] + names[1..];
    }
  }

  /** Entry `who` removes `n` from entry `i`, or is an earlier one that has it too. */
  ghost predicate TakenOver(v: Variant, ds: seq<Domain>, i: int, who: nat, n: string) {
    who < |ds| && ((who != i && Drops(v, ds, i, who, n)) || (who < i && n in Names(ds[who])))
  }

  ghost predicate StillThere(r: Option<Domain>, n: string) {
    r.Some? && n in Names(r.value)
  }

  lemma NextNames(v: Variant, ds: seq<Domain>, i: int, j: nat, cur: Domain, n: string)
    requires j < |ds| && n in Names(cur) && "" !in Names(cur)
    ensures
      var rest := Remaining(v, ds, i, j, Names(cur));
      if Drops(v, ds, i, j, n) then n !in rest else rest != [] && n in Names(Set(cur, rest)) && "" !in Names(Set(cur, rest))
  {
    var rest := Remaining(v, ds, i, j, Names(cur));
    RemainingMembers(v, ds, i, j, Names(cur), n);
    RemainingMembers(v, ds, i, j, Names(cur), "");
    SetRoundTrip(cur, rest);
  }

  /** A name is still there at the end, or some other entry took it over. */
  lemma {:induction false} NameFate(v: Variant, ds: seq<Domain>, i: int, j: nat, cur: Domain, n: string)
    returns (who: nat)
    requires j <= |ds| && n in Names(cur) && "" !in Names(cur)
    ensures StillThere(Process(v, ds, i, j, cur), n) || TakenOver(v, ds, i, who, n)
    decreases |ds| - j
  {
    who := j;
    if j < |ds| && (j == i || ds[j] != cur) {
      if j != i {
        NextNames(v, ds, i, j, cur, n);
      }
      if j == i || !Drops(v, ds, i, j, n) {
        var next := MovesOn(v, ds, i, j, cur);
        who := NameFate(v, ds, i, j + 1, next, n);
      }
    }
  }

  lemma CheckedPlain(n: string, groups: set<string>) returns (m: string)
    requires Checked(n, groups) && forall g :: g in groups ==> Free(g, ',')
    ensures m in groups && Matches(n, m)
  {
    m :| m in groups && CheckedBy(n, m);
    SplitFree(m, ',');
  }

  /** A drop in the list-based reducer names a matching name, closer to the top of the order. */
  lemma DropWitness(ds: seq<Domain>, i: nat, j: nat, n: string) returns (m: string)
    requires AllPlain(ds) && i < |ds| && j < |ds| && j != i
    requires Drops(ListBased, ds, i, j, n) || (j < i && n in Names(ds[j]))
    ensures m in Names(ds[j]) && Matches(n, m) && Plain(m)
    ensures Rank(m) < Rank(n) || (m == n && j < i)
  {
    if j < i && n in Names(ds[j]) {
      m := n;
    } else if j < i && Checked(n, ToSet(Names(ds[j]))) {
      m := CheckedPlain(n, ToSet(Names(ds[j])));
    } else {
      m := ds[j].main;
      assert Names(ds[j])[0] == m;
      var m' := CheckedPlain(n, {m});
    }
    assert Plain(m);
    if m != n {
      MatchLowersRank(n, m);
    }
  }

  lemma {:induction false} FateIsKept(v: Variant, ds: seq<Domain>, i: nat, n: nat) returns (k: nat)
    requires i < n <= |ds| && Fate(v, ds, i).Some?
    ensures k < |KeptUpTo(v, ds, n)| && KeptUpTo(v, ds, n)[k] == Fate(v, ds, i).value
  {
    if i == n - 1 {
      k := |KeptUpTo(v, ds, n - 1)|;
    } else {
      k := FateIsKept(v, ds, i, n - 1);
    }
  }

  /**
   Every configured name is still matched by a kept name. The name that caused the drop may be
   dropped in turn, so this recurses on (number of plain labels, entry index).
   */
  lemma {:induction false} NameStaysCovered(ds: seq<Domain>, i: nat, n: string)
    requires AllPlain(ds) && i < |ds| && n in Names(ds[i])
    ensures CoveredBy(n, Kept(ListBased, ds))
    decreases Rank(n), i
  {
    var fate := Fate(ListBased, ds, i);
    var who := NameFate(ListBased, ds, i, 0, ds[i], n);
    if fate.Some? && n in Names(fate.value) {
      var k := FateIsKept(ListBased, ds, i, |ds|);
      var l :| 0 <= l < |Names(fate.value)| && Names(fate.value)[l] == n;
      assert Matches(n, Names(Kept(ListBased, ds)[k])[l]);
    } else {
      var m := DropWitness(ds, i, who, n);
      NameStaysCovered(ds, who, m);
      var kept := Kept(ListBased, ds);
      var k, l :| 0 <= k < |kept| && 0 <= l < |Names(kept[k])| && Matches(m, Names(kept[k])[l]);
      TransitiveExactly(m);
      assert Matches(n, Names(kept[k])[l]);
    }
  }

  // ---------- the shape of the result ----------

  lemma {:induction false} ProcessSub(v: Variant, ds: seq<Domain>, i: int, j: nat, cur: Domain)
    requires j <= |ds| && Process(v, ds, i, j, cur).Some?
    ensures Sub(Names(Process(v, ds, i, j, cur).value), Names(cur))
    decreases |ds| - j
  {
    if j < |ds| && j == i {
      ProcessSub(v, ds, i, j + 1, cur);
    } else if j < |ds| && ds[j] != cur {
      var rest := Remaining(v, ds, i, j, Names(cur));
      var next := Set(cur, rest);
      ProcessSub(v, ds, i, j + 1, next);
      NamesOfSet(cur, rest);
      RemainingSub(v, ds, i, j, Names(cur));
      SubTrans(Names(next), rest, Names(cur));
      SubTrans(Names(Process(v, ds, i, j + 1, next).value), Names(next), Names(cur));
    } else {
      SubRefl(Names(cur));
    }
  }

  /** What survives the whole pass was not matched by the earlier entry `b`. */
  lemma {:induction false} ProcessClear(v: Variant, ds: seq<Domain>, i: int, j: nat, cur: Domain, b: nat, n: string)
    requires j <= b < i && b < |ds| && Process(v, ds, i, j, cur).Some?
    requires n in Names(Process(v, ds, i, j, cur).value)
    ensures !Checked(n, Groups(v, ds[b]))
    decreases |ds| - j
  {
    var rest := Remaining(v, ds, i, j, Names(cur));
    var next := Set(cur, rest);
    if j < b {
      ProcessClear(v, ds, i, j + 1, next, b, n);
    } else {
      ProcessSub(v, ds, i, j + 1, next);
      SubMember(Names(Process(v, ds, i, j + 1, next).value), Names(next), n);
      NamesOfSet(cur, rest);
      SubMember(Names(next), rest, n);
      RemainingMembers(v, ds, i, j, Names(cur), n);
    }
  }

  lemma NamesOfSet(d: Domain, names: seq<string>)
    requires names != []
    ensures Sub(Names(Set(d, names)), names)
  {
    SubRefl(names[1..]);
    SubRefl(names);
    assert [names[0]] + names[1..] == names;
    assert Names(Set(d, names)) == names || Names(Set(d, names)) == names[1..];
  }

  /** The positions of the kept entries in the configured list. */
  ghost function KeptIndices(v: Variant, ds: seq<Domain>, n: nat): (r: seq<nat>)
    requires n <= |ds|
    ensures forall k :: 0 <= k < |r| ==> r[k] < n
  {
    if n == 0 then []
    else KeptIndices(v, ds, n - 1) + (if Fate(v, ds, n - 1).Some? then [n - 1] else [])
  }

  lemma {:induction false} KeptInOrder(v: Variant, ds: seq<Domain>, n: nat)
    requires n <= |ds|
    ensures
      var at := KeptIndices(v, ds, n);
      var kept := KeptUpTo(v, ds, n);
      && |at| == |kept|
      && (forall k, l :: 0 <= k < l < |at| ==> at[k] < at[l])
      && (forall k :: 0 <= k < |at| ==> Fate(v, ds, at[k]) == Some(kept[k]))
  {
    if n > 0 {
      KeptInOrder(v, ds, n - 1);
    }
  }

  /**
   Kept entries stay in order, each holds a subsequence of its own names, and no kept name is
   matched by a name of an earlier configured entry.
   */
  lemma ReducerShape(v: Variant, ds: seq<Domain>)
    ensures
      var at := KeptIndices(v, ds, |ds|);
      var kept := Kept(v, ds);
      && |at| == |kept|
      && (forall k, l :: 0 <= k < l < |at| ==> at[k] < at[l])
      && (forall k :: 0 <= k < |at| ==> Sub(Names(kept[k]), Names(ds[at[k]])))
      && (forall k, b, n :: 0 <= k < |at| && 0 <= b < at[k] && n in Names(kept[k])
                            ==> !Checked(n, Groups(v, ds[b])))
  {
    KeptInOrder(v, ds, |ds|);
    var at := KeptIndices(v, ds, |ds|);
    forall k | 0 <= k < |at|
      ensures Sub(Names(Kept(v, ds)[k]), Names(ds[at[k]]))
      ensures forall b, n :: 0 <= b < at[k] && n in Names(Kept(v, ds)[k]) ==> !Checked(n, Groups(v, ds[b]))
    {
      ProcessSub(v, ds, at[k], 0, ds[at[k]]);
      forall b, n | 0 <= b < at[k] && n in Names(Kept(v, ds)[k]) ensures !Checked(n, Groups(v, ds[b])) {
        ProcessClear(v, ds, at[k], 0, ds[at[k]], b, n);
      }
    }
  }

  /** No name occurs in two kept entries. */
  lemma KeptEntriesDisjoint(ds: seq<Domain>, k: nat, l: nat, n: string)
    requires k < l < |Kept(ListBased, ds)| && Free(n, ',')
    requires n in Names(Kept(ListBased, ds)[k])
    ensures n !in Names(Kept(ListBased, ds)[l])
  {
    ReducerShape(ListBased, ds);
    var at := KeptIndices(ListBased, ds, |ds|);
    SubMember(Names(Kept(ListBased, ds)[k]), Names(ds[at[k]]), n);
    OwnNameChecked(ds[at[k]], n);
  }

  lemma OwnNameChecked(d: Domain, n: string)
    requires n in Names(d) && Free(n, ',')
    ensures Checked(n, Groups(ListBased, d))
  {
    CheckedByFree(n, n);
    assert n in Groups(ListBased, d);
  }

  // ---------- exactly which names are kept ----------

  /** The first other entry equal to entry `i` as shrunk to `cur` so far, where the loop is left; or |ds|. */
  ghost function Stop(v: Variant, ds: seq<Domain>, i: int, j: nat, cur: Domain): (r: nat)
    requires j <= |ds|
    ensures j <= r <= |ds|
    decreases |ds| - j
  {
    if j == |ds| then j
    else if j == i then Stop(v, ds, i, j + 1, cur)
    else if ds[j] == cur then j
    else
      var rest := Remaining(v, ds, i, j, Names(cur));
      if rest == [] then |ds| else Stop(v, ds, i, j + 1, Set(cur, rest))
  }

  /** No entry from `lo` up to `hi`, other than `i`, drops `n` from entry `i`. */
  ghost predicate DroppedByNone(v: Variant, ds: seq<Domain>, i: int, lo: nat, hi: nat, n: string)
    requires hi <= |ds|
  {
    forall b :: lo <= b < hi && b != i ==> !Drops(v, ds, i, b, n)
  }

  /** An entry that does not drop `n` may be left out of the range. */
  lemma NoneFromNext(v: Variant, ds: seq<Domain>, i: int, lo: nat, hi: nat, n: string)
    requires lo < hi <= |ds| && (lo == i || !Drops(v, ds, i, lo, n))
    ensures DroppedByNone(v, ds, i, lo, hi, n) <==> DroppedByNone(v, ds, i, lo + 1, hi, n)
  {
    if DroppedByNone(v, ds, i, lo + 1, hi, n) {
      forall b | lo <= b < hi && b != i ensures !Drops(v, ds, i, b, n) {
        assert b == lo || lo + 1 <= b;
      }
    }
  }

  lemma MovesOn(v: Variant, ds: seq<Domain>, i: int, j: nat, cur: Domain) returns (next: Domain)
    requires j < |ds| && (j == i || (ds[j] != cur && Remaining(v, ds, i, j, Names(cur)) != []))
    ensures next == if j == i then cur else Set(cur, Remaining(v, ds, i, j, Names(cur)))
    ensures Process(v, ds, i, j, cur) == Process(v, ds, i, j + 1, next)
    ensures Stop(v, ds, i, j, cur) == Stop(v, ds, i, j + 1, next)
  {
    next := if j == i then cur else Set(cur, Remaining(v, ds, i, j, Names(cur)));
  }

  ghost predicate KeptBeforeStop(v: Variant, ds: seq<Domain>, i: int, j: nat, stop: nat, n: string)
    requires stop <= |ds|
  {
    !(stop < i && stop < |ds|) && DroppedByNone(v, ds, i, j, stop, n)
  }

  lemma {:induction false} KeptFrom(v: Variant, ds: seq<Domain>, i: int, j: nat, cur: Domain, n: string)
    requires j <= |ds| && n in Names(cur) && "" !in Names(cur)
    ensures StillThere(Process(v, ds, i, j, cur), n) <==> KeptBeforeStop(v, ds, i, j, Stop(v, ds, i, j, cur), n)
    decreases |ds| - j
  {
    if j == |ds| || (j != i && ds[j] == cur) {
      assert Stop(v, ds, i, j, cur) == j;
    } else {
      if j != i {
        NextNames(v, ds, i, j, cur, n);
      }
      if j == i || !Drops(v, ds, i, j, n) {
        var next := MovesOn(v, ds, i, j, cur);
        KeptFrom(v, ds, i, j + 1, next, n);
        StopsLater(v, ds, i, j, next, n);
      } else {
        DroppedAtOnce(v, ds, i, j, cur, n);
      }
    }
  }

  lemma StopsLater(v: Variant, ds: seq<Domain>, i: int, j: nat, next: Domain, n: string)
    requires j < |ds| && (j == i || !Drops(v, ds, i, j, n))
    ensures
      var stop := Stop(v, ds, i, j + 1, next);
      KeptBeforeStop(v, ds, i, j, stop, n) <==> KeptBeforeStop(v, ds, i, j + 1, stop, n)
  {
    NoneFromNext(v, ds, i, j, Stop(v, ds, i, j + 1, next), n);
  }

  /** A name that entry `j` drops is gone from then on. */
  lemma DroppedAtOnce(v: Variant, ds: seq<Domain>, i: int, j: nat, cur: Domain, n: string)
    requires j < |ds| && j != i && ds[j] != cur && n in Names(cur) && "" !in Names(cur) && Drops(v, ds, i, j, n)
    ensures !StillThere(Process(v, ds, i, j, cur), n) && j < Stop(v, ds, i, j, cur)
  {
    var rest := Remaining(v, ds, i, j, Names(cur));
    NextNames(v, ds, i, j, cur, n);
    if rest != [] {
      var next := Set(cur, rest);
      NamesOfSet(cur, rest);
      var p := Process(v, ds, i, j + 1, next);
      if StillThere(p, n) {
        ProcessSub(v, ds, i, j + 1, next);
        SubMember(Names(p.value), Names(next), n);
        SubMember(Names(next), rest, n);
      }
    }
  }

  /**
   A name of an entry is kept exactly when the loop is not left at an earlier duplicate and no entry before
   the point where it is left drops the name.
   */
  lemma KeptNamesExactly(v: Variant, ds: seq<Domain>, i: nat, n: string)
    requires i < |ds| && n in Names(ds[i]) && "" !in Names(ds[i])
    ensures
      var stop := Stop(v, ds, i, 0, ds[i]);
      StillThere(Fate(v, ds, i), n) <==> stop >= i && DroppedByNone(v, ds, i, 0, stop, n)
  {
    KeptFrom(v, ds, i, 0, ds[i], n);
  }

  /** No name that is kept of entry `i` is dropped by another entry. */
  ghost predicate KeptUndroppable(v: Variant, ds: seq<Domain>, i: nat)
    requires i < |ds|
  {
    forall n :: StillThere(Fate(v, ds, i), n) ==> DroppedByNone(v, ds, i, 0, |ds|, n)
  }

  /** The entries where the loop for entry `i` is left, and after it, drop no name of the entry that was not dropped before. */
  ghost predicate StopHidesNothing(v: Variant, ds: seq<Domain>, i: nat)
    requires i < |ds|
  {
    var stop := Stop(v, ds, i, 0, ds[i]);
    forall n :: n in Names(ds[i]) && stop >= i && DroppedByNone(v, ds, i, 0, stop, n)
                ==> DroppedByNone(v, ds, i, stop, |ds|, n)
  }

  lemma StillThereIsOwn(v: Variant, ds: seq<Domain>, i: nat, n: string)
    requires i < |ds| && StillThere(Fate(v, ds, i), n)
    ensures n in Names(ds[i])
  {
    ProcessSub(v, ds, i, 0, ds[i]);
    SubMember(Names(Fate(v, ds, i).value), Names(ds[i]), n);
  }

  lemma NoneInBoth(v: Variant, ds: seq<Domain>, i: int, mid: nat, n: string)
    requires mid <= |ds|
    ensures DroppedByNone(v, ds, i, 0, |ds|, n) <==> DroppedByNone(v, ds, i, 0, mid, n) && DroppedByNone(v, ds, i, mid, |ds|, n)
  {
  }

  /** Nothing that some other entry drops is kept of entry `i`, exactly when leaving its loop hides no drop. */
  lemma KeptUndroppableExactly(v: Variant, ds: seq<Domain>, i: nat)
    requires i < |ds| && "" !in Names(ds[i])
    ensures KeptUndroppable(v, ds, i) <==> StopHidesNothing(v, ds, i)
  {
    var stop := Stop(v, ds, i, 0, ds[i]);
    forall n | n in Names(ds[i])
      ensures StillThere(Fate(v, ds, i), n) <==> stop >= i && DroppedByNone(v, ds, i, 0, stop, n)
    {
      KeptNamesExactly(v, ds, i, n);
    }
    forall n | StillThere(Fate(v, ds, i), n) ensures n in Names(ds[i]) {
      StillThereIsOwn(v, ds, i, n);
    }
    forall n ensures DroppedByNone(v, ds, i, 0, |ds|, n)
                     <==> DroppedByNone(v, ds, i, 0, stop, n) && DroppedByNone(v, ds, i, stop, |ds|, n) {
      NoneInBoth(v, ds, i, stop, n);
    }
  }

  lemma {:induction false} KeptIndexOf(v: Variant, ds: seq<Domain>, i: nat, n: nat) returns (k: nat)
    requires i < n <= |ds| && Fate(v, ds, i).Some?
    ensures k < |KeptIndices(v, ds, n)| && KeptIndices(v, ds, n)[k] == i
  {
    if i == n - 1 {
      k := |KeptIndices(v, ds, n - 1)|;
    } else {
      k := KeptIndexOf(v, ds, i, n - 1);
    }
  }

  /** The kept list is minimal: no configured entry other than its own drops a kept name. */
  ghost predicate Minimal(v: Variant, ds: seq<Domain>) {
    var at, kept := KeptIndices(v, ds, |ds|), Kept(v, ds);
    && |at| == |kept|
    && forall k, n :: 0 <= k < |at| && n in Names(kept[k]) ==> DroppedByNone(v, ds, at[k], 0, |ds|, n)
  }

  /** The kept list is minimal exactly when leaving the loop hides no drop from any entry. */
  lemma MinimalExactly(v: Variant, ds: seq<Domain>)
    requires forall i :: 0 <= i < |ds| ==> "" !in Names(ds[i])
    ensures Minimal(v, ds) <==> forall i :: 0 <= i < |ds| ==> StopHidesNothing(v, ds, i)
  {
    KeptInOrder(v, ds, |ds|);
    var at, kept := KeptIndices(v, ds, |ds|), Kept(v, ds);
    forall i | 0 <= i < |ds| ensures KeptUndroppable(v, ds, i) <==> StopHidesNothing(v, ds, i) {
      KeptUndroppableExactly(v, ds, i);
    }
    if Minimal(v, ds) {
      forall i | 0 <= i < |ds| ensures KeptUndroppable(v, ds, i) {
        if Fate(v, ds, i).Some? {
          var k := KeptIndexOf(v, ds, i, |ds|);
          assert kept[k] == Fate(v, ds, i).value;
        }
      }
    } else if forall i :: 0 <= i < |ds| ==> StopHidesNothing(v, ds, i) {
      forall k, n | 0 <= k < |at| && n in Names(kept[k]) ensures DroppedByNone(v, ds, at[k], 0, |ds|, n) {
        assert KeptUndroppable(v, ds, at[k]) && StillThere(Fate(v, ds, at[k]), n);
      }
    }
  }

  /** Of two equal entries at the head of a list the first is kept as it is, whatever follows, and the second is dropped. */
  lemma DuplicateEndsLoop(v: Variant, ds: seq<Domain>)
    requires |ds| >= 2 && ds[0] == ds[1]
    ensures Fate(v, ds, 0) == Some(ds[0]) && Stop(v, ds, 0, 0, ds[0]) == 1
    ensures Fate(v, ds, 1) == None
  {
    assert Process(v, ds, 0, 1, ds[0]) == Some(ds[0]) && Stop(v, ds, 0, 1, ds[0]) == 1;
  }

  /** So `a.com`, configured twice, is kept although the wildcard `*.com` after it drops it. */
  lemma DuplicateHidesWildcard()
    ensures
      var d, w := Domain("a.com", NilSans), Domain("*.com", NilSans);
      && Fate(ListBased, [d, d, w], 0) == Some(d)
      && Drops(ListBased, [d, d, w], 0, 2, "a.com")
  {
    var d, w := Domain("a.com", NilSans), Domain("*.com", NilSans);
    DuplicateEndsLoop(ListBased, [d, d, w]);
    StarMatches();
    CheckedByFree("a.com", "*.com");
  }

  lemma StarMatches()
    ensures Matches("a.com", "*.com")
  {
    SplitFirst("a", "com", '.');
    SplitFree("com", '.');
    assert "a.com" == "a" + "." + "com" && "*.com" == "*" + "." + "com";
    StarFirst("a", "com");
  }

  lemma StarFirst(a: string, b: string)
    requires Labels(a + "." + b) == [a] + [b] && !TrailingDot(b) && b != ""
    ensures Matches(a + "." + b, "*" + "." + b)
  {
    var starred := Starred([a] + [b], 1);
    assert starred == ["*"] + [b];
    assert starred[1..] == [b];
    TrimDotsNoDot("*" + "." + b);
    assert Join(starred, '.') == "*" + "." + b;
  }

  // ---------- the two reducers agree ----------

  /** SANs non-empty, every name comma-free; Main may be missing. */
  predicate CommaFree(d: Domain) {
    && Free(d.main, ',')
    && forall k :: 0 <= k < |d.sans.Elems()| ==> Free(d.sans.Elems()[k], ',') && d.sans.Elems()[k] != ""
  }

  predicate AllCommaFree(ds: seq<Domain>) {
    forall i :: 0 <= i < |ds| ==> CommaFree(ds[i])
  }

  lemma EmptyMatchesNothing(n: string)
    requires n != ""
    ensures !Matches(n, "")
  {
    if Matches(n, "") {
      var k :| 1 <= k <= |Labels(n)| && TrimDots("") == Join(Starred(Labels(n), k), '.');
      FirstLabel(n, "", k);
      assert false;
    }
  }

  lemma CheckedByFree(n: string, g: string)
    requires Free(g, ',')
    ensures CheckedBy(n, g) <==> Matches(n, g)
  {
    SplitFree(g, ',');
    assert Split(g, ',')[0] == g;
  }

  lemma CheckedByJoined(n: string, names: seq<string>)
    requires names != [] && AllFree(names, ',')
    ensures CheckedBy(n, Join(names, ',')) <==> exists k :: 0 <= k < |names| && Matches(n, names[k])
  {
    SplitJoin(names, ',');
  }

  ghost predicate SomeMatches(n: string, names: seq<string>) {
    exists k :: 0 <= k < |names| && Matches(n, names[k])
  }

  lemma ListGroups(n: string, d: Domain)
    requires n != "" && CommaFree(d)
    ensures Checked(n, Groups(ListBased, d)) <==> (Matches(n, d.main) || SomeMatches(n, d.sans.Elems()))
  {
    var names := Names(d);
    EmptyMatchesNothing(n);
    if Checked(n, Groups(ListBased, d)) {
      var g :| g in ToSet(names) && CheckedBy(n, g);
      CheckedByFree(n, g);
      assert g == d.main || g in d.sans.Elems();
    }
    if Matches(n, d.main) {
      assert names[0] == d.main;
      CheckedByFree(n, d.main);
      assert d.main in Groups(ListBased, d);
    }
    if SomeMatches(n, d.sans.Elems()) {
      var k :| 0 <= k < |d.sans.Elems()| && Matches(n, d.sans.Elems()[k]);
      CheckedByFree(n, d.sans.Elems()[k]);
      assert d.sans.Elems()[k] in Groups(ListBased, d);
    }
  }

  lemma MapGroups(n: string, d: Domain)
    requires n != "" && CommaFree(d)
    ensures Checked(n, Groups(MapBased, d)) <==> (Matches(n, d.main) || SomeMatches(n, d.sans.Elems()))
  {
    var sans := d.sans.Elems();
    CheckedByFree(n, d.main);
    assert d.main in Groups(MapBased, d);
    if |sans| > 0 {
      assert AllFree(sans, ',');
      CheckedByJoined(n, sans);
      assert Join(sans, ',') in Groups(MapBased, d);
    }
  }

  lemma DropsAgree(ds: seq<Domain>, i: int, j: nat, n: string)
    requires AllCommaFree(ds) && j < |ds| && n != ""
    ensures Drops(ListBased, ds, i, j, n) <==> Drops(MapBased, ds, i, j, n)
  {
    assert CommaFree(ds[j]);
    ListGroups(n, ds[j]);
    MapGroups(n, ds[j]);
    CheckedByFree(n, ds[j].main);
  }

  ghost predicate SomeNameMatches(n: string, d: Domain) {
    exists k :: 0 <= k < |Names(d)| && Matches(n, Names(d)[k])
  }

  lemma SomeNameMatchesParts(n: string, d: Domain)
    requires n != ""
    ensures SomeNameMatches(n, d) <==> Matches(n, d.main) || SomeMatches(n, d.sans.Elems())
  {
    EmptyMatchesNothing(n);
    var at := if |d.main| > 0 then 1 else 0;
    assert at == 1 ==> Names(d)[0] == d.main;
    assert forall k :: 0 <= k < |d.sans.Elems()| ==> Names(d)[k + at] == d.sans.Elems()[k];
    forall k | at <= k < |Names(d)| ensures Names(d)[k] == d.sans.Elems()[k - at] {
    }
  }

  /**
   What makes entry `j` remove a name from entry `i`, in both reducers: a name of an earlier entry matches
   it, or the Main of any entry is another name that begins with `*` and matches it.
   */
  lemma DropsExactly(v: Variant, ds: seq<Domain>, i: nat, j: nat, n: string)
    requires AllCommaFree(ds) && j < |ds| && n != ""
    ensures
      var main := ds[j].main;
      Drops(v, ds, i, j, n)
      <==> || (j < i && exists k :: 0 <= k < |Names(ds[j])| && Matches(n, Names(ds[j])[k]))
           || (main != n && main != "" && main[0] == '*' && Matches(n, main))
  {
    DropsAgree(ds, i, j, n);
    ListGroups(n, ds[j]);
    SomeNameMatchesParts(n, ds[j]);
    CheckedByFree(n, ds[j].main);
  }

  // ---------- which names are kept, told by matching alone ----------

  /** The names of entry `k` are among those of entry `i`, in their order: what it takes to end the loop for `i`. */
  predicate Within(ds: seq<Domain>, i: nat, k: nat)
    requires i < |ds| && k < |ds|
  {
    k != i && Names(ds[k]) != [] && Sub(Names(ds[k]), Names(ds[i]))
  }

  lemma {:induction false} StopIsWithin(v: Variant, ds: seq<Domain>, i: nat, j: nat, cur: Domain)
    requires i < |ds| && j <= |ds| && Stop(v, ds, i, j, cur) < |ds|
    requires Names(cur) != [] && "" !in Names(cur) && Sub(Names(cur), Names(ds[i]))
    ensures Within(ds, i, Stop(v, ds, i, j, cur))
    decreases |ds| - j
  {
    if j == i || ds[j] != cur {
      var next := MovesOn(v, ds, i, j, cur);
      if j != i {
        var rest := Remaining(v, ds, i, j, Names(cur));
        NoEmptyNames(v, ds, i, j, cur);
        RemainingMembers(v, ds, i, j, Names(cur), "");
        assert rest[0] in rest;
        SetRoundTrip(cur, rest);
        RemainingSub(v, ds, i, j, Names(cur));
        SubTrans(rest, Names(cur), Names(ds[i]));
      }
      StopIsWithin(v, ds, i, j + 1, next);
    }
  }

  lemma StopAfter(v: Variant, ds: seq<Domain>, i: nat, j: nat)
    requires i < |ds| && j < |ds| && Names(ds[i]) != [] && "" !in Names(ds[i])
    requires forall k :: 0 <= k <= j ==> !Within(ds, i, k)
    ensures Stop(v, ds, i, 0, ds[i]) > j
  {
    SubRefl(Names(ds[i]));
    if Stop(v, ds, i, 0, ds[i]) < |ds| {
      StopIsWithin(v, ds, i, 0, ds[i]);
    }
  }

  /** While no entry has ended the loop, a wildcard that matches a name prunes it, earlier or later in the list. */
  lemma WildcardPrunes(v: Variant, ds: seq<Domain>, i: nat, j: nat, n: string)
    requires AllCommaFree(ds) && i < |ds| && j < |ds| && i != j && "" !in Names(ds[i])
    requires forall k :: 0 <= k <= j ==> !Within(ds, i, k)
    requires ds[j].main != "" && ds[j].main[0] == '*' && ds[j].main != n && Matches(n, ds[j].main)
    ensures !StillThere(Fate(v, ds, i), n)
  {
    if StillThere(Fate(v, ds, i), n) {
      StillThereIsOwn(v, ds, i, n);
      StopAfter(v, ds, i, j);
      KeptNamesExactly(v, ds, i, n);
      DropsExactly(v, ds, i, j, n);
    }
  }

  /** Entry `k` speaks against keeping `n` in entry `i`. */
  ghost predicate Against(ds: seq<Domain>, i: nat, k: nat, n: string)
    requires k < |ds|
  {
    || (k < i && exists l :: 0 <= l < |Names(ds[k])| && Matches(n, Names(ds[k])[l]))
    || (k != i && ds[k].main != n && ds[k].main != "" && ds[k].main[0] == '*' && Matches(n, ds[k].main))
  }

  /**
   Where no other entry lies within entry `i`, a name of it is kept exactly when no earlier entry has a name
   that matches it and no other entry has a different Main that begins with `*` and matches it.
   */
  lemma KeptByMatchesExactly(v: Variant, ds: seq<Domain>, i: nat, n: string)
    requires AllCommaFree(ds) && i < |ds| && "" !in Names(ds[i])
    requires forall k :: 0 <= k < |ds| ==> !Within(ds, i, k)
    ensures StillThere(Fate(v, ds, i), n) <==> n in Names(ds[i]) && forall k :: 0 <= k < |ds| ==> !Against(ds, i, k, n)
  {
    if StillThere(Fate(v, ds, i), n) {
      StillThereIsOwn(v, ds, i, n);
    }
    if n in Names(ds[i]) {
      StopAfter(v, ds, i, |ds| - 1);
      KeptNamesExactly(v, ds, i, n);
      forall k | 0 <= k < |ds| && k != i ensures Drops(v, ds, i, k, n) <==> Against(ds, i, k, n) {
        DropsExactly(v, ds, i, k, n);
      }
    }
  }

  lemma {:induction false} RemainingAgree(ds: seq<Domain>, i: int, j: nat, names: seq<string>)
    requires AllCommaFree(ds) && j < |ds| && "" !in names
    ensures Remaining(ListBased, ds, i, j, names) == Remaining(MapBased, ds, i, j, names)
  {
    if names != [] {
      DropsAgree(ds, i, j, names[0]);
      RemainingAgree(ds, i, j, names[1..]);
    }
  }

  lemma NoEmptyNames(v: Variant, ds: seq<Domain>, i: int, j: nat, cur: Domain)
    requires j < |ds| && "" !in Names(cur) && Remaining(v, ds, i, j, Names(cur)) != []
    ensures "" !in Names(Set(cur, Remaining(v, ds, i, j, Names(cur))))
  {
    var rest := Remaining(v, ds, i, j, Names(cur));
    RemainingMembers(v, ds, i, j, Names(cur), "");
    assert rest[0] in rest;
    SetRoundTrip(cur, rest);
  }

  lemma {:induction false} ProcessAgree(ds: seq<Domain>, i: int, j: nat, cur: Domain)
    requires AllCommaFree(ds) && j <= |ds| && "" !in Names(cur)
    ensures Process(ListBased, ds, i, j, cur) == Process(MapBased, ds, i, j, cur)
    decreases |ds| - j
  {
    if j == |ds| || (j != i && ds[j] == cur) {
      EndsHere(ds, i, j, cur);
    } else {
      RemainingAgree(ds, i, j, Names(cur));
      var rest := Remaining(ListBased, ds, i, j, Names(cur));
      if j == i || rest != [] {
        var next := MovesOn(ListBased, ds, i, j, cur);
        var same := MovesOn(MapBased, ds, i, j, cur);
        if j != i {
          NoEmptyNames(ListBased, ds, i, j, cur);
        }
        ProcessAgree(ds, i, j + 1, next);
      } else {
        NothingRemains(ListBased, ds, i, j, cur);
        NothingRemains(MapBased, ds, i, j, cur);
      }
    }
  }

  lemma EndsHere(ds: seq<Domain>, i: int, j: nat, cur: Domain)
    requires j <= |ds| && (j == |ds| || (j != i && ds[j] == cur))
    ensures Process(ListBased, ds, i, j, cur) == Process(MapBased, ds, i, j, cur)
  {
  }

  lemma NothingRemains(v: Variant, ds: seq<Domain>, i: int, j: nat, cur: Domain)
    requires j < |ds| && j != i && ds[j] != cur && Remaining(v, ds, i, j, Names(cur)) == []
    ensures Process(v, ds, i, j, cur) == None
  {
  }

  lemma {:induction false} KeptUpToAgree(ds: seq<Domain>, n: nat)
    requires AllCommaFree(ds) && n <= |ds|
    ensures KeptUpTo(ListBased, ds, n) == KeptUpTo(MapBased, ds, n)
  {
    if n > 0 {
      KeptUpToAgree(ds, n - 1);
      assert CommaFree(ds[n - 1]);
      ProcessAgree(ds, n - 1, 0, ds[n - 1]);
    }
  }

  /** The list-based and the map-based reducer give the same list. */
  lemma ReducersAgree(ds: seq<Domain>)
    requires AllCommaFree(ds)
    ensures Kept(ListBased, ds) == Kept(MapBased, ds)
  {
    KeptUpToAgree(ds, |ds|);
  }

  // ---------- the main theorem and the limits of its condition ----------

  lemma PlainIsCommaFree(ds: seq<Domain>)
    requires AllPlain(ds)
    ensures AllCommaFree(ds)
  {
    forall i | 0 <= i < |ds| ensures CommaFree(ds[i]) {
      var d := ds[i];
      var at := if |d.main| > 0 then 1 else 0;
      assert at == 1 ==> Names(d)[0] == d.main;
      forall k | 0 <= k < |d.sans.Elems()| ensures Plain(d.sans.Elems()[k]) {
        assert Names(d)[k + at] == d.sans.Elems()[k];
      }
    }
  }

  /** Both reducers leave every configured name matched by some kept name. */
  lemma CoveragePreserved(v: Variant, ds: seq<Domain>)
    requires AllPlain(ds)
    ensures forall i, n :: 0 <= i < |ds| && n in Names(ds[i]) ==> CoveredBy(n, Kept(v, ds))
  {
    PlainIsCommaFree(ds);
    ReducersAgree(ds);
    forall i, n | 0 <= i < |ds| && n in Names(ds[i]) ensures CoveredBy(n, Kept(v, ds)) {
      NameStaysCovered(ds, i, n);
    }
  }

  lemma SingleName(n: string, x: string)
    requires Free(x, ',')
    ensures Checked(n, Groups(ListBased, Domain(x, NilSans))) <==> (x != "" && Matches(n, x))
    ensures WildcardChecks(ListBased, n, x) <==> Matches(n, x)
  {
    CheckedByFree(n, x);
    assert Names(Domain(x, NilSans)) == if x == "" then [] else [x];
    assert x != "" ==> x in Groups(ListBased, Domain(x, NilSans));
  }

  /**
   No wildcard with trailing dots can be allowed: each one loses the cover of another name in
   some list whose other names are plain.
   */
  lemma DottedWildcardLosesCoverage(b: string) returns (a: string, c: string)
    requires DottedWildcard(b) && Free(b, ',')
    ensures Plain(a) && Plain(c)
    ensures !CoveredBy(a, Kept(ListBased, [Domain(c, NilSans), Domain(b, NilSans), Domain(a, NilSans)]))
  {
    a, c := DottedWildcardBreaks(b);
    TrimDotsNoDot(b);
    assert Free(a, ',') && Free(c, ',');
    var ds := [Domain(c, NilSans), Domain(b, NilSans), Domain(a, NilSans)];
    SingleFates(ds, a, b, c);
    OnlyFirstKept(ds, Domain(c, Sans([])));
    assert Names(Domain(c, Sans([]))) == [c];
  }

  lemma OnlyFirstKept(ds: seq<Domain>, d: Domain)
    requires |ds| == 3 && Fate(ListBased, ds, 0) == Some(d)
    requires Fate(ListBased, ds, 1) == None && Fate(ListBased, ds, 2) == None
    ensures Kept(ListBased, ds) == [d]
  {
    assert KeptUpTo(ListBased, ds, 0) == [];
    assert KeptUpTo(ListBased, ds, 1) == [d];
    assert KeptUpTo(ListBased, ds, 2) == [d];
  }

  lemma SingleFates(ds: seq<Domain>, a: string, b: string, c: string)
    requires ds == [Domain(c, NilSans), Domain(b, NilSans), Domain(a, NilSans)]
    requires Free(a, ',') && Free(b, ',') && Free(c, ',') && a != "" && b != "" && c != "" && b != c
    requires Matches(a, b) && Matches(b, c) && !Matches(a, c) && !Matches(c, a) && !Matches(c, b)
    ensures Fate(ListBased, ds, 0) == Some(Domain(c, Sans([])))
    ensures Fate(ListBased, ds, 1) == None && Fate(ListBased, ds, 2) == None
  {
    SingleName(b, c);
    ProcessSingle(ds, 1, 0, b, NilSans);
    LastSingle(ds, a, b, c);
    FirstSingle(ds, a, b, c);
  }

  lemma LastSingle(ds: seq<Domain>, a: string, b: string, c: string)
    requires ds == [Domain(c, NilSans), Domain(b, NilSans), Domain(a, NilSans)]
    requires Free(b, ',') && Free(c, ',') && a != "" && b != "" && c != a
    requires Matches(a, b) && !Matches(a, c)
    ensures Fate(ListBased, ds, 2) == None
  {
    SingleName(a, b);
    SingleName(a, c);
    ProcessSingle(ds, 2, 0, a, NilSans);
    ProcessSingle(ds, 2, 1, a, Sans([]));
  }

  lemma FirstSingle(ds: seq<Domain>, a: string, b: string, c: string)
    requires ds == [Domain(c, NilSans), Domain(b, NilSans), Domain(a, NilSans)]
    requires Free(a, ',') && Free(b, ',') && c != "" && b != c && c != a
    requires !Matches(c, a) && !Matches(c, b)
    ensures Fate(ListBased, ds, 0) == Some(Domain(c, Sans([])))
  {
    SingleName(c, a);
    SingleName(c, b);
    ProcessSingle(ds, 0, 1, c, NilSans);
    ProcessSingle(ds, 0, 2, c, Sans([]));
    assert Process(ListBased, ds, 0, 0, Domain(c, NilSans)) == Process(ListBased, ds, 0, 1, Domain(c, NilSans));
  }

  /** One step of the pass for an entry that holds one name. */
  lemma ProcessSingle(ds: seq<Domain>, i: nat, j: nat, x: string, s: Sans)
    requires j < |ds| && j != i && ds[j] != Domain(x, s) && x != "" && s.Elems() == []
    ensures Process(ListBased, ds, i, j, Domain(x, s)) ==
            if Drops(ListBased, ds, i, j, x) then None
            else Process(ListBased, ds, i, j + 1, Domain(x, Sans([])))
  {
    assert Names(Domain(x, s)) == [x];
    var names := [x];
    assert names[1..] == [];
    var rest := Remaining(ListBased, ds, i, j, names);
    assert Remaining(ListBased, ds, i, j, names[1..]) == [];
    assert rest == if Drops(ListBased, ds, i, j, x) then [] else [x];
  }

  /** Every name is plain, or is `b`. */
  predicate PlainBut(b: string, ds: seq<Domain>) {
    forall i, k :: 0 <= i < |ds| && 0 <= k < |Names(ds[i])| ==> Plain(Names(ds[i])[k]) || Names(ds[i])[k] == b
  }

  ghost predicate KeepsCoverage(v: Variant, ds: seq<Domain>) {
    forall i, n :: 0 <= i < |ds| && n in Names(ds[i]) ==> CoveredBy(n, Kept(v, ds))
  }

  /** Beside plain names, a name is harmless in every list exactly when it is no wildcard with trailing dots. */
  lemma CoverageExactly(v: Variant, b: string)
    requires b != "" && Free(b, ',')
    ensures (forall ds :: PlainBut(b, ds) ==> KeepsCoverage(v, ds)) <==> !DottedWildcard(b)
  {
    if DottedWildcard(b) {
      var a, c := DottedWildcardLosesCoverage(b);
      var ds := [Domain(c, NilSans), Domain(b, NilSans), Domain(a, NilSans)];
      assert Names(ds[0]) == [c] && Names(ds[1]) == [b] && Names(ds[2]) == [a];
      assert a in Names(ds[2]);
      assert AllCommaFree(ds);
      ReducersAgree(ds);
      assert PlainBut(b, ds) && !KeepsCoverage(v, ds);
    } else {
      forall ds | PlainBut(b, ds) ensures KeepsCoverage(v, ds) {
        CoveragePreserved(v, ds);
      }
    }
  }

  // ---------- both imperative forms ----------

  /** `isDomainAlreadyChecked` over a list of comma-joined names. */
  method IsDomainAlreadyChecked(domainToCheck: string, existentDomains: seq<string>) returns (r: bool)
    ensures r <==> Checked(domainToCheck, ToSet(existentDomains))
  {
    for i := 0 to |existentDomains|
      invariant forall g :: g in existentDomains[..i] ==> !CheckedBy(domainToCheck, g)
    {
      var parts := Split(existentDomains[i], ',');
      for k := 0 to |parts|
        invariant forall l :: 0 <= l < k ==> !Matches(domainToCheck, parts[l])
      {
        var matched := MatchDomain(domainToCheck, parts[k]);
        if matched {
          assert CheckedBy(domainToCheck, existentDomains[i]);
          assert existentDomains[i] in ToSet(existentDomains);
          return true;
        }
      }
      assert !CheckedBy(domainToCheck, existentDomains[i]);
    }
    assert existentDomains[..|existentDomains|] == existentDomains;
    return false;
  }

  /** `isDomainAlreadyChecked` over the keys of a map, visited in any order. */
  method IsDomainAlreadyCheckedInMap(domainToCheck: string, existentDomains: set<string>) returns (r: bool)
    ensures r <==> Checked(domainToCheck, existentDomains)
  {
    var todo := existentDomains;
    while todo != {}
      invariant todo <= existentDomains
      invariant forall g :: g in existentDomains - todo ==> !CheckedBy(domainToCheck, g)
      decreases |todo|
    {
      var certDomains :| certDomains in todo;
      var parts := Split(certDomains, ',');
      for k := 0 to |parts|
        invariant forall l :: 0 <= l < k ==> !Matches(domainToCheck, parts[l])
      {
        var matched := MatchDomain(domainToCheck, parts[k]);
        if matched {
          assert CheckedBy(domainToCheck, certDomains);
          return true;
        }
      }
      todo := todo - {certDomains};
    }
    return false;
  }

  /** The test of one name in the list-based reducer. */
  method IsDropped(ds: seq<Domain>, i: nat, j: nat, name: string) returns (r: bool)
    requires i < |ds| && j < |ds|
    ensures r <==> Drops(ListBased, ds, i, j, name)
  {
    var domain := ds[j];
    if j < i {
      r := IsDomainAlreadyChecked(name, Names(domain));
      if r {
        return;
      }
    }
    r := false;
    if domain.main != name && Starts(domain.main) {
      assert ToSet([domain.main]) == {domain.main};
      r := IsDomainAlreadyChecked(name, [domain.main]);
    }
  }

  /** The same test in the map-based reducer. */
  method IsDroppedInMap(ds: seq<Domain>, i: nat, j: nat, name: string) returns (r: bool)
    requires i < |ds| && j < |ds|
    ensures r <==> Drops(MapBased, ds, i, j, name)
  {
    var domain := ds[j];
    var domainsMap := {domain.main};
    if |domain.sans.Elems()| > 0 {
      domainsMap := domainsMap + {Join(domain.sans.Elems(), ',')};
    }
    if j < i {
      r := IsDomainAlreadyCheckedInMap(name, domainsMap);
      if r {
        return;
      }
    }
    r := false;
    if domain.main != name && Starts(domain.main) {
      r := MatchDomain(name, domain.main);
    }
  }

  lemma RemainingStep(v: Variant, ds: seq<Domain>, i: int, j: int, names: seq<string>, k: nat, sofar: seq<string>)
    requires 0 <= j < |ds| && k < |names|
    ensures sofar + Remaining(v, ds, i, j, names[k..])
            == (if Drops(v, ds, i, j, names[k]) then sofar else sofar + [names[k]]) + Remaining(v, ds, i, j, names[k + 1..])
  {
    assert names[k..][1..] == names[k + 1..];
    var rest := Remaining(v, ds, i, j, names[k + 1..]);
    Assoc(sofar, [names[k]], rest);
    assert [] + rest == rest;
  }

  /** `newDomainsToCheck`: the names of `names` that entry `j` leaves in entry `i`. */
  method UncheckedNames(v: Variant, ds: seq<Domain>, i: nat, j: nat, names: seq<string>)
    returns (unchecked: seq<string>)
    requires i < |ds| && j < |ds|
    ensures unchecked == Remaining(v, ds, i, j, names)
  {
    unchecked := [];
    assert names[0..] == names;
    for k := 0 to |names|
      invariant unchecked + Remaining(v, ds, i, j, names[k..]) == Remaining(v, ds, i, j, names)
    {
      RemainingStep(v, ds, i, j, names, k, unchecked);
      var dropped;
      if v == ListBased {
        dropped := IsDropped(ds, i, j, names[k]);
      } else {
        dropped := IsDroppedInMap(ds, i, j, names[k]);
      }
      if dropped {
        continue;
      }
      unchecked := unchecked + [names[k]];
    }
  }

  /** The configured domains, held by the provider that reduces them. */
  class Configuration {
    var domains: seq<Domain>
    const variant: Variant

    constructor (domains: seq<Domain>, variant: Variant)
      ensures this.domains == domains && this.variant == variant
    {
      this.domains := domains;
      this.variant := variant;
    }

    /** The pass over all other entries for entry `i`. */
    method CheckEntry(i: nat) returns (keep: bool, domainToCheck: Domain)
      requires i < |domains|
      ensures Fate(variant, domains, i) == if keep then Some(domainToCheck) else None
    {
      ghost var fate := Fate(variant, domains, i);
      keep, domainToCheck := true, domains[i];
      for j := 0 to |domains|
        invariant keep
        invariant Process(variant, domains, i, j, domainToCheck) == fate
      {
        if i == j {
          continue;
        }
        if domains[j] == domainToCheck {
          keep := i <= j;
          return;
        }
        var rest := UncheckedNames(variant, domains, i, j, Names(domainToCheck));
        if rest == [] {
          keep := false;
          return;
        }
        domainToCheck := Set(domainToCheck, rest);
      }
    }

    /** `deleteUnnecessaryDomains`. */
    method DeleteUnnecessaryDomains()
      modifies this
      ensures domains == Kept(variant, old(domains))
      ensures AllPlain(old(domains)) ==>
                forall i, n :: 0 <= i < |old(domains)| && n in Names(old(domains)[i]) ==> CoveredBy(n, domains)
    {
      var newDomains := [];
      for i := 0 to |domains|
        invariant domains == old(domains)
        invariant newDomains == KeptUpTo(variant, domains, i)
      {
        var keep, domain := CheckEntry(i);
        if keep {
          newDomains := newDomains + [domain];
        }
      }
      if AllPlain(domains) {
        CoveragePreserved(variant, domains);
      }
      domains := newDomains;
    }
  }
}
