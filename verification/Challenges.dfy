/**
 The HTTP-01 challenges (section 8.3 of RFC 8555) of the ACME providers (acme/challenge_http_provider.go,
 provider/acme/challenge.go): a map from tokens to maps from domains to key authorizations.
 */
module Challenges {

  type Nested = map<string, map<string, string>>

  /** Challenges by token and domain. */
  type Flat = map<(string, string), string>

  datatype Op = Present(domain: string, token: string, keyAuth: string) | CleanUp(domain: string, token: string)

  function Presented(m: Nested, domain: string, token: string, keyAuth: string): Nested {
    var inner := if token in m then m[token] else map[];
    m[token := inner[domain := keyAuth]]
  }

  function CleanedUp(m: Nested, domain: string, token: string): Nested {
    if token !in m then m
    else
      var inner := m[token] - {domain};
      if |inner| == 0 then m - {token} else m[token := inner]
  }

  function Apply(m: Nested, op: Op): Nested {
    match op
    case Present(domain, token, keyAuth) => Presented(m, domain, token, keyAuth)
    case CleanUp(domain, token) => CleanedUp(m, domain, token)
  }

  /** The stored account's challenges, updated inside a transaction. */
  class ChallengeStore {
    var challenges: Nested

    constructor ()
      ensures challenges == map[]
    {
      challenges := map[];
    }

    /** `Present` and `presentHTTPChallenge`. */
    method Present(domain: string, token: string, keyAuth: string)
      modifies this
      ensures challenges == Presented(old(challenges), domain, token, keyAuth)
    {
      if token !in challenges {
        challenges := challenges[token := map[]];
      }
      challenges := challenges[token := challenges[token][domain := keyAuth]];
    }

    /** `CleanUp` and `cleanUpHTTPChallenge`. */
    method CleanUp(domain: string, token: string)
      modifies this
      ensures challenges == CleanedUp(old(challenges), domain, token)
    {
      if token in challenges {
        if domain in challenges[token] {
          challenges := challenges[token := challenges[token] - {domain}];
        }
        assert challenges[token] == old(challenges)[token] - {domain};
        if |challenges[token]| == 0 {
          challenges := challenges - {token};
        }
      }
    }

    /** The lookup of `getTokenValue`. */
    method TokenValue(token: string, domain: string) returns (found: bool, value: string)
      ensures found <==> (token, domain) in Flatten(challenges)
      ensures found ==> value == Flatten(challenges)[(token, domain)]
    {
      if token in challenges && domain in challenges[token] {
        return true, challenges[token][domain];
      }
      return false, "";
    }
  }

  // ---------- refinement of a flat map ----------

  /** `f` holds exactly the challenges of `m`. */
  ghost predicate Represents(m: Nested, f: Flat) {
    forall k: (string, string) ::
      && (k in f <==> k.0 in m && k.1 in m[k.0])
      && (k in f ==> f[k] == m[k.0][k.1])
  }

  ghost function Flatten(m: Nested): (f: Flat)
    ensures Represents(m, f)
  {
    FlatExists(m);
    var f :| Represents(m, f);
    f
  }

  lemma FlatExists(m: Nested)
    ensures exists f :: Represents(m, f)
  {
    var f := map t, d | t in m.Keys && d in m[t].Keys :: (t, d) := m[t][d];
    assert Represents(m, f);
  }

  predicate NoEmptyInner(m: Nested) {
    forall t :: t in m ==> m[t] != map[]
  }

  ghost function FlatApply(f: Flat, op: Op): Flat {
    match op
    case Present(domain, token, keyAuth) => f[(token, domain) := keyAuth]
    case CleanUp(domain, token) => f - {(token, domain)}
  }

  function Run(m: Nested, ops: seq<Op>): Nested
    decreases |ops|
  {
    if ops == [] then m else Run(Apply(m, ops[0]), ops[1..])
  }

  ghost function FlatRun(f: Flat, ops: seq<Op>): Flat
    decreases |ops|
  {
    if ops == [] then f else FlatRun(FlatApply(f, ops[0]), ops[1..])
  }

  lemma SameFlat(m: Nested, f: Flat, g: Flat)
    requires Represents(m, f) && Represents(m, g)
    ensures f == g
  {
    assert forall k :: k in f <==> k in g;
  }

  lemma PresentRepresents(m: Nested, f: Flat, domain: string, token: string, keyAuth: string)
    requires Represents(m, f)
    ensures Represents(Presented(m, domain, token, keyAuth), f[(token, domain) := keyAuth])
  {
  }

  lemma CleanUpRepresents(m: Nested, f: Flat, domain: string, token: string)
    requires Represents(m, f)
    ensures Represents(CleanedUp(m, domain, token), f - {(token, domain)})
  {
  }

  lemma ApplyLeavesNoEmptyInner(m: Nested, op: Op)
    requires NoEmptyInner(m)
    ensures NoEmptyInner(Apply(m, op))
  {
    if op.Present? {
      assert op.domain in Apply(m, op)[op.token];
    }
  }

  lemma ApplyRefines(m: Nested, op: Op)
    requires NoEmptyInner(m)
    ensures NoEmptyInner(Apply(m, op))
    ensures Flatten(Apply(m, op)) == FlatApply(Flatten(m), op)
  {
    ApplyLeavesNoEmptyInner(m, op);
    match op
    case Present(domain, token, keyAuth) =>
      PresentRepresents(m, Flatten(m), domain, token, keyAuth);
      SameFlat(Apply(m, op), Flatten(Apply(m, op)), FlatApply(Flatten(m), op));
    case CleanUp(domain, token) =>
      CleanUpRepresents(m, Flatten(m), domain, token);
      SameFlat(Apply(m, op), Flatten(Apply(m, op)), FlatApply(Flatten(m), op));
  }

  /** No sequence of operations leaves an empty inner map, and each acts as insert and remove on a flat map. */
  lemma {:induction false} RunRefines(m: Nested, ops: seq<Op>)
    requires NoEmptyInner(m)
    ensures NoEmptyInner(Run(m, ops))
    ensures Flatten(Run(m, ops)) == FlatRun(Flatten(m), ops)
    decreases |ops|
  {
    if ops != [] {
      ApplyRefines(m, ops[0]);
      RunRefines(Apply(m, ops[0]), ops[1..]);
    }
  }

  /** Nested maps without empty inner maps are determined by their flat form. */
  lemma FlattenInjective(a: Nested, b: Nested)
    requires NoEmptyInner(a) && NoEmptyInner(b) && Flatten(a) == Flatten(b)
    ensures a == b
  {
    forall t, d ensures t in a && d in a[t] <==> t in b && d in b[t] {
      assert (t, d) in Flatten(a) <==> (t, d) in Flatten(b);
    }
    forall t | t in a || t in b ensures t in a && t in b {
      var d :| if t in a then d in a[t] else d in b[t];
    }
    forall t | t in a ensures a[t] == b[t] {
      forall d | d in a[t] ensures a[t][d] == b[t][d] {
        assert Flatten(a)[(t, d)] == Flatten(b)[(t, d)];
      }
    }
  }

  lemma FlatUndone(m: Nested, domain: string, token: string, keyAuth: string)
    requires NoEmptyInner(m)
    ensures
      var c := CleanedUp(Presented(m, domain, token, keyAuth), domain, token);
      NoEmptyInner(c) && Flatten(c) == Flatten(m)[(token, domain) := keyAuth] - {(token, domain)}
  {
    ApplyRefines(m, Present(domain, token, keyAuth));
    ApplyRefines(Presented(m, domain, token, keyAuth), CleanUp(domain, token));
  }

  /** Cleaning up undoes a presentation exactly when the challenge was not there before. */
  lemma CleanUpUndoesPresent(m: Nested, domain: string, token: string, keyAuth: string)
    requires NoEmptyInner(m)
    ensures CleanedUp(Presented(m, domain, token, keyAuth), domain, token) == m <==> (token, domain) !in Flatten(m)
  {
    var c := CleanedUp(Presented(m, domain, token, keyAuth), domain, token);
    FlatUndone(m, domain, token, keyAuth);
    UndoneExactly(Flatten(m), (token, domain), keyAuth);
    if Flatten(c) == Flatten(m) {
      FlattenInjective(c, m);
    }
  }

  lemma UndoneExactly(f: Flat, k: (string, string), keyAuth: string)
    ensures f[k := keyAuth] - {k} == f <==> k !in f
  {
    if k !in f {
      assert f[k := keyAuth] - {k} == f;
    }
  }
}
