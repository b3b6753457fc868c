/**
 Challenges of a cluster (acme/challenge_http_provider.go): every presentation and clean-up is a transaction
 of the shared datastore, as is any other update of the account.
 */
module ChallengeTransactions {
  import opened Challenges
  import opened Wrappers
  import Datastore = ClusterDatastore

  /** What a transaction does to the challenges: one operation, or nothing when it updates something else. */
  type Update = Option<Op>

  function Performed(m: Nested, update: Update): Nested {
    if update.Some? then Apply(m, update.value) else m
  }

  predicate Concerns(update: Update, token: string, domain: string) {
    update.Some? && update.value.token == token && update.value.domain == domain
  }

  /** Update `k` is the last one of this challenge. */
  predicate LastUpdate(updates: seq<Update>, token: string, domain: string, k: nat) {
    && k < |updates| && Concerns(updates[k], token, domain)
    && forall l :: k < l < |updates| ==> !Concerns(updates[l], token, domain)
  }

  function After(m: Nested, updates: seq<Update>): Nested {
    Datastore.Folded(m, updates, Performed)
  }

  predicate SameChallenge(f: Flat, g: Flat, k: (string, string)) {
    (k in f <==> k in g) && (k in f && k in g ==> f[k] == g[k])
  }

  /** The challenge is as the operation left it. */
  predicate Decided(f: Flat, op: Op) {
    match op
    case Present(domain, token, keyAuth) => (token, domain) in f && f[(token, domain)] == keyAuth
    case CleanUp(domain, token) => (token, domain) !in f
  }

  lemma PerformedStep(m: Nested, update: Update, token: string, domain: string)
    requires NoEmptyInner(m)
    ensures NoEmptyInner(Performed(m, update))
    ensures if Concerns(update, token, domain) then Decided(Flatten(Performed(m, update)), update.value)
            else SameChallenge(Flatten(Performed(m, update)), Flatten(m), (token, domain))
  {
    if update.Some? {
      ApplyRefines(m, update.value);
    }
  }

  predicate NeverUpdated(updates: seq<Update>, token: string, domain: string) {
    forall k :: 0 <= k < |updates| ==> !Concerns(updates[k], token, domain)
  }

  /** The last update of a challenge decides it; without one it is as it was in `f`. */
  ghost predicate AsLastUpdated(f: Flat, updates: seq<Update>, f': Flat, token: string, domain: string) {
    && (forall k: nat :: LastUpdate(updates, token, domain, k) ==> Decided(f', updates[k].value))
    && (NeverUpdated(updates, token, domain) ==> SameChallenge(f', f, (token, domain)))
  }

  /** An update of another challenge changes nothing, one of this challenge decides it. */
  lemma OneMoreUpdate(f: Flat, updates: seq<Update>, g: Flat, u: Update, g': Flat, token: string, domain: string)
    requires AsLastUpdated(f, updates, g, token, domain)
    requires if Concerns(u, token, domain) then Decided(g', u.value) else SameChallenge(g', g, (token, domain))
    ensures AsLastUpdated(f, updates + [u], g', token, domain)
  {
    var all, n := updates + [u], |updates|;
    assert all[n] == u;
    forall k: nat | LastUpdate(all, token, domain, k) ensures Decided(g', all[k].value) {
      if k < n {
        assert all[k] == updates[k] && forall l :: k < l < n ==> all[l] == updates[l];
        assert LastUpdate(updates, token, domain, k);
      }
    }
    if NeverUpdated(all, token, domain) {
      assert forall k :: 0 <= k < n ==> updates[k] == all[k];
    }
  }

  lemma {:induction false} LastUpdateDecides(m: Nested, updates: seq<Update>, token: string, domain: string)
    requires NoEmptyInner(m)
    ensures NoEmptyInner(After(m, updates))
    ensures AsLastUpdated(Flatten(m), updates, Flatten(After(m, updates)), token, domain)
    decreases |updates|
  {
    if updates != [] {
      var n := |updates| - 1;
      var before, u := updates[..n], updates[n];
      LastUpdateDecides(m, before, token, domain);
      PerformedStep(After(m, before), u, token, domain);
      OneMoreUpdate(Flatten(m), before, Flatten(After(m, before)), u, Flatten(After(m, updates)), token, domain);
      assert before + [u] == updates;
    }
  }

  /**
   No presentation and no clean-up of any node is lost: in every run of the cluster the stored challenges
   are those that the updates leave in commit order, and each is as its last update left it.
   */
  lemma NoChallengeLost(run: seq<Datastore.State>, steps: seq<Datastore.Step>, i: nat,
                        challenges: string -> Nested, updates: seq<Update>, token: string, domain: string)
    requires Datastore.IsRun(run, steps) && i < |run|
    requires NoEmptyInner(challenges(Datastore.Current(run[0].kv)))
    requires Datastore.Performs(run[i].commits, challenges, updates, Performed)
    ensures
      var initial := challenges(Datastore.Current(run[0].kv));
      var stored := challenges(Datastore.Current(run[i].kv));
      && stored == After(initial, updates) && NoEmptyInner(stored)
      && AsLastUpdated(Flatten(initial), updates, Flatten(stored), token, domain)
  {
    Datastore.NoOperationLost(run, steps, i, challenges, updates, Performed);
    LastUpdateDecides(challenges(Datastore.Current(run[0].kv)), updates, token, domain);
  }
}
