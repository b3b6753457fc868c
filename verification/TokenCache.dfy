/**
 The token cache of the OSIO middleware (middlewares/osio/cache.go, osio.go): a map of promises
 that remembers successes only, and the keys under which requests share a promise.
 */
module TokenCache {
  import opened Text
  import opened Wrappers

  type Data = string

  /** What a resolver returns: cache data, or an error. */
  datatype Outcome = Ok(value: Data) | Err(error: string)

  datatype TokenType = UserToken | ServiceToken(name: string)

  /** The two closures of osio.go, identified by what they capture. */
  datatype Resolver =
    | ByToken(token: string, tokenType: TokenType)
    | ByID(token: string, tokenType: TokenType, userID: string, namespaceName: string)

  // ---------- promises and the cache ----------

  class ResolverPromise {
    const resolver: Resolver
    var resolved: bool
    var result: Option<Outcome>

    constructor (resolver: Resolver)
      ensures this.resolver == resolver && !resolved && result == None
    {
      this.resolver, resolved, result := resolver, false, None;
    }

    ghost predicate Valid()
      reads this
    {
      resolved ==> result.Some? && result.value.Ok?
    }

    /** `ResolverPromise.Get`; `answer` is what the resolver returns in case it is called. */
    method Get(answer: Outcome) returns (r: Outcome, called: bool)
      requires Valid()
      modifies this
      ensures Valid() && called == !old(resolved)
      ensures Promise(resolver, resolved, result, None)
              == (if called then Resolve(Promise(resolver, old(resolved), old(result), None), answer)
                  else Promise(resolver, old(resolved), old(result), None))
      ensures Some(r) == result
    {
      if resolved {
        return result.value, false;
      }
      result := Some(answer);
      if answer.Ok? {
        resolved := true;
      }
      return answer, true;
    }
  }

  class Cache {
    var m: map<string, ResolverPromise>

    constructor ()
      ensures m == map[]
    {
      m := map[];
    }

    /** `Cache.Get`: a key keeps the promise, and so the resolver, of its first request. */
    method Get(key: string, resolver: Resolver) returns (val: ResolverPromise)
      modifies this
      ensures key in old(m) ==> m == old(m) && val == old(m)[key]
      ensures key !in old(m) ==> m == old(m)[key := val] && fresh(val) && val.resolver == resolver && !val.resolved
    {
      if key in m {
        return m[key];
      }
      val := new ResolverPromise(resolver);
      m := m[key := val];
    }
  }

  // ---------- keys ----------

  /** `strings.Index`, with the length of `s` for "not there". */
  function IndexOf(s: string, pat: string): (r: nat)
    ensures r <= |s|
    ensures r < |s| && pat != "" ==> pat <= s[r..]
    ensures forall k :: 0 <= k < r ==> !(pat <= s[k..])
  {
    if s == "" || pat <= s then 0
    else
      var r := 1 + IndexOf(s[1..], pat);
      assert forall k :: 0 < k <= |s| ==> s[1..][k - 1..] == s[k..];
      r
  }

  const NS_PATH := "/namespaces/"

  /** The text between the first `marker` in `path` and the next slash. */
  function SegmentAfter(path: string, marker: string): string {
    var ind := IndexOf(path, marker);
    if ind == |path| || !(marker <= path[ind..]) then ""
    else
      var rest := path[ind..][|marker|..];
      rest[..IndexOf(rest, "/")]
  }

  /** `getNamespaceName`. */
  function NamespaceName(path: string): string {
    SegmentAfter(path, NS_PATH)
  }

  /** The segment is slash-free, and found right after the marker. */
  lemma SegmentIsWhole(path: string, marker: string)
    ensures Free(SegmentAfter(path, marker), '/')
    ensures SegmentAfter(path, marker) != "" ==>
              exists k :: 0 <= k <= |path| && marker + SegmentAfter(path, marker) <= path[k..]
  {
    var ind := IndexOf(path, marker);
    if ind != |path| && marker <= path[ind..] {
      var rest := path[ind..][|marker|..];
      var n := rest[..IndexOf(rest, "/")];
      forall k | 0 <= k < |n| ensures n[k] != '/' {
        assert !("/" <= rest[k..]);
      }
      assert path[ind..] == marker + rest;
      assert marker + n <= path[ind..];
    }
  }

  /** A namespace name is a whole segment of the path. */
  lemma NamespaceIsSegment(path: string)
    ensures Free(NamespaceName(path), '/')
    ensures NamespaceName(path) != "" ==>
              exists k :: 0 <= k <= |path| && NS_PATH + NamespaceName(path) <= path[k..]
  {
    SegmentIsWhole(path, NS_PATH);
  }

  /** `marker` is found in `path` at `k`. */
  predicate OccursAt(marker: string, path: string, k: nat) {
    k <= |path| && marker <= path[k..]
  }

  lemma NoSlashFirst(s: string)
    requires s != ""
    ensures s[0] != '/' ==> IndexOf(s, "/") == 1 + IndexOf(s[1..], "/")
  {
  }

  lemma {:induction false} FirstSlash(n: string, b: string)
    requires Free(n, '/') && (b == "" || b[0] == '/')
    ensures IndexOf(n + b, "/") == |n|
  {
    if n == "" {
      assert n + b == b;
    } else {
      FirstSlash(n[1..], b);
      NoSlashFirst(n + b);
      assert (n + b)[1..] == n[1..] + b && n[0] in n;
    }
  }

  /** The namespace is what stands between the first `/namespaces/` and the next slash, or the end. */
  lemma NamespaceExactly(a: string, n: string, b: string)
    requires Free(n, '/') && (b == "" || b[0] == '/')
    requires forall k: nat :: k < |a| ==> !OccursAt("/namespaces/", a + "/namespaces/" + n + b, k)
    ensures NamespaceName(a + "/namespaces/" + n + b) == n
  {
    var path := a + "/namespaces/" + n + b;
    assert NS_PATH == "/namespaces/";
    Assoc4(a, NS_PATH, n, b);
    FirstFoundAt(path, NS_PATH, |a|);
    SegmentAt(path, NS_PATH, |a|, n, b);
  }

  lemma Assoc4(a: string, marker: string, n: string, b: string)
    ensures a + marker + n + b == a + (marker + (n + b))
    ensures (a + marker + n + b)[|a|..] == marker + (n + b)
  {
  }

  lemma FirstFoundAt(path: string, marker: string, at: nat)
    requires marker != "" && OccursAt(marker, path, at) && forall k: nat :: k < at ==> !OccursAt(marker, path, k)
    ensures at < |path| && IndexOf(path, marker) == at
  {
    var ind := IndexOf(path, marker);
    assert ind < |path| ==> OccursAt(marker, path, ind);
  }

  lemma SegmentAt(path: string, marker: string, at: nat, n: string, b: string)
    requires at < |path| && path[at..] == marker + (n + b) && IndexOf(path, marker) == at
    requires Free(n, '/') && (b == "" || b[0] == '/')
    ensures SegmentAfter(path, marker) == n
  {
    assert path[at..][|marker|..] == n + b;
    FirstSlash(n, b);
    assert (n + b)[..|n|] == n;
  }

  lemma NoNamespace(path: string)
    requires forall k: nat :: !OccursAt("/namespaces/", path, k)
    ensures NamespaceName(path) == ""
  {
    var ind := IndexOf(path, NS_PATH);
    assert !OccursAt(NS_PATH, path, ind);
  }

  function Composite(token: string, userID: string, namespaceName: string): string {
    token + "_" + userID + "_" + namespaceName
  }

  function PlainKey(r: Resolver): string {
    match r
    case ByToken(token, _) => token
    case ByID(token, _, userID, namespaceName) => Composite(token, userID, namespaceName)
  }

  lemma UnderscoreAt(a: string, s: string)
    requires Free(s, '_')
    ensures var w := a + "_" + s; w[|a|] == '_' && forall k :: |a| < k < |w| ==> w[k] != '_'
  {
    var w := a + "_" + s;
    forall k | |a| < k < |w| ensures w[k] != '_' {
      assert w[k] == s[k - |a| - 1];
    }
  }

  lemma LastUnderscore(a: string, s: string, b: string, t: string)
    requires Free(s, '_') && Free(t, '_') && a + "_" + s == b + "_" + t
    ensures a == b && s == t
  {
    UnderscoreAt(a, s);
    UnderscoreAt(b, t);
    assert |a| == |b|;
    assert (a + "_" + s)[..|a|] == a && (a + "_" + s)[|a| + 1..] == s;
    assert (b + "_" + t)[..|b|] == b && (b + "_" + t)[|b| + 1..] == t;
  }

  /** The composite key determines token, user and namespace when the last two hold no underscore. */
  lemma CompositeInjective(t: string, u: string, n: string, t': string, u': string, n': string)
    requires Free(u, '_') && Free(n, '_') && Free(u', '_') && Free(n', '_')
    requires Composite(t, u, n) == Composite(t', u', n')
    ensures t == t' && u == u' && n == n'
  {
    LastUnderscore(t + "_" + u, n, t' + "_" + u', n');
    LastUnderscore(t, u, t', u');
  }

  /** Moving text between user id and namespace at an underscore leaves the key alone. */
  lemma UnderscoreMoves(t: string, a: string, b: string, n: string)
    ensures Composite(t, a + "_" + b, n) == Composite(t, a, b + "_" + n)
  {
    assert t + "_" + (a + "_" + b) + "_" + n == t + "_" + a + "_" + (b + "_" + n);
  }

  predicate UnderscoreFree(u: string, n: string) {
    Free(u, '_') && Free(n, '_')
  }

  lemma CutAt(s: string, k: nat)
    requires k < |s| && s[k] == '_'
    ensures s == s[..k] + "_" + s[k + 1..]
  {
  }

  lemma SamePrefix(t: string, a: string, b: string)
    requires t + "_" + a == t + "_" + b
    ensures a == b
  {
    assert (t + "_" + a)[|t| + 1..] == a;
    assert (t + "_" + b)[|t| + 1..] == b;
  }

  lemma CompositeTail(t: string, u: string, n: string)
    ensures Composite(t, u, n) == t + "_" + (u + "_" + n)
  {
  }

  lemma SameLengthSplit(u: string, n: string, u': string, n': string)
    requires u + "_" + n == u' + "_" + n' && |u| == |u'|
    ensures u == u' && n == n'
  {
    assert (u + "_" + n)[..|u|] == u && (u + "_" + n)[|u| + 1..] == n;
    assert (u' + "_" + n')[..|u'|] == u' && (u' + "_" + n')[|u'| + 1..] == n';
  }

  /** A split of the same text further left cuts the user id at an underscore. */
  lemma LeftSplit(u: string, n: string, u': string, n': string)
    requires u + "_" + n == u' + "_" + n' && |u'| < |u|
    ensures u[|u'|] == '_' && u[..|u'|] == u' && u[|u'| + 1..] + "_" + n == n'
  {
    var w, k := u + "_" + n, |u'|;
    assert w[k] == u[k] && w[k] == (u' + "_" + n')[k];
    assert w[..k] == u[..k] && (u' + "_" + n')[..k] == u';
    assert w[k + 1..] == u[k + 1..] + "_" + n && (u' + "_" + n')[k + 1..] == n';
  }

  /** Under one token the key belongs to one pair of user id and namespace exactly when neither holds an underscore. */
  lemma TokenKeyUniqueExactly(t: string, u: string, n: string)
    ensures UnderscoreFree(u, n)
       <==> forall u', n' :: Composite(t, u', n') == Composite(t, u, n) ==> u' == u && n' == n
  {
    if UnderscoreFree(u, n) {
      forall u', n' | Composite(t, u', n') == Composite(t, u, n) ensures u' == u && n' == n {
        CompositeTail(t, u, n);
        CompositeTail(t, u', n');
        SamePrefix(t, u + "_" + n, u' + "_" + n');
        if |u'| < |u| {
          LeftSplit(u, n, u', n');
        } else if |u| < |u'| {
          LeftSplit(u', n', u, n);
          assert false;
        } else {
          SameLengthSplit(u, n, u', n');
        }
      }
    } else if !Free(u, '_') {
      var k :| 0 <= k < |u| && u[k] == '_';
      CutAt(u, k);
      UnderscoreMoves(t, u[..k], u[k + 1..], n);
      assert |u[..k]| < |u|;
    } else {
      var k :| 0 <= k < |n| && n[k] == '_';
      CutAt(n, k);
      UnderscoreMoves(t, u, n[..k], n[k + 1..]);
      assert |n[k + 1..]| < |n|;
    }
  }

  // ---------- requests ----------

  datatype Request = Request(token: string, userID: string, path: string)

  /** The hash of the key, and the type that a valid token has. */
  datatype Env = Env(hash: string -> string, typeOf: string -> Option<TokenType>)

  function Extended(token: string, x: string): string {
    token + "_" + x
  }

  /** The hash is injective, and no valid token is another one with an underscore and more after its signature. */
  ghost predicate Sound(env: Env) {
    && (forall a, b :: env.hash(a) == env.hash(b) ==> a == b)
    && (forall token, x :: env.typeOf(token).Some? ==> env.typeOf(Extended(token, x)).None?)
  }

  /** How `ServeHTTP` resolves a request: refused, straight through the resolver, or through the cache. */
  datatype Plan = Refuse | Direct(resolver: Resolver) | Cached(resolver: Resolver)

  function PlanOf(env: Env, token: string, userID: string, path: string): Plan {
    if env.typeOf(token).None? then Refuse
    else
      var tokenType := env.typeOf(token).value;
      if tokenType != UserToken then
        if userID == "" then Refuse
        else
          var namespaceName := NamespaceName(path);
          var resolver := ByID(token, tokenType, userID, namespaceName);
          if namespaceName == "" then Direct(resolver) else Cached(resolver)
      else Cached(ByToken(token, tokenType))
  }

  /** The resolver of a valid service token's request with a user id: cached under the namespace in the path, if there is one. */
  lemma ServicePlan(env: Env, token: string, userID: string, a: string, n: string, b: string)
    requires env.typeOf(token).Some? && env.typeOf(token).value != UserToken && userID != ""
    requires Free(n, '/') && (b == "" || b[0] == '/')
    requires forall k: nat :: k < |a| ==> !OccursAt("/namespaces/", a + "/namespaces/" + n + b, k)
    ensures
      var r := ByID(token, env.typeOf(token).value, userID, n);
      PlanOf(env, token, userID, a + "/namespaces/" + n + b) == if n == "" then Direct(r) else Cached(r)
  {
    NamespaceExactly(a, n, b);
  }

  lemma ServicePlanWithoutNamespace(env: Env, token: string, userID: string, path: string)
    requires env.typeOf(token).Some? && env.typeOf(token).value != UserToken && userID != ""
    requires forall k: nat :: !OccursAt("/namespaces/", path, k)
    ensures PlanOf(env, token, userID, path) == Direct(ByID(token, env.typeOf(token).value, userID, ""))
  {
    NoNamespace(path);
  }

  /** Refused are invalid tokens and service tokens without a user; a user token is resolved by itself, whatever the path. */
  lemma RefusedExactly(env: Env, token: string, userID: string, path: string)
    ensures PlanOf(env, token, userID, path) == Refuse
       <==> env.typeOf(token) == None || (userID == "" && env.typeOf(token) != Some(UserToken))
    ensures env.typeOf(token) == Some(UserToken) ==> PlanOf(env, token, userID, path) == Cached(ByToken(token, UserToken))
  {
  }

  /** A resolver that some request brings to the cache. */
  predicate Cacheable(env: Env, r: Resolver) {
    && env.typeOf(r.token) == Some(r.tokenType)
    && (r.ByToken? <==> r.tokenType == UserToken)
    && (r.ByID? ==> r.userID != "" && r.namespaceName != "" && Free(r.namespaceName, '/'))
  }

  lemma NamespaceOfPath(n: string)
    requires Free(n, '/')
    ensures NamespaceName(NS_PATH + n) == n
  {
    var path := NS_PATH + n;
    assert NS_PATH <= path && path[0..] == path;
    assert path[|NS_PATH|..] == n;
    forall k | 0 <= k < |n| ensures !("/" <= n[k..]) {
      assert n[k..][0] == n[k] && n[k] in n;
    }
  }

  function RequestFor(r: Resolver): Request {
    match r
    case ByToken(token, _) => Request(token, "", "")
    case ByID(token, _, userID, namespaceName) => Request(token, userID, NS_PATH + namespaceName)
  }

  lemma RequestIsCached(env: Env, r: Resolver)
    requires Cacheable(env, r)
    ensures var q := RequestFor(r); PlanOf(env, q.token, q.userID, q.path) == Cached(r)
  {
    if r.ByID? {
      NamespaceOfPath(r.namespaceName);
    }
  }

  lemma CachedIsCacheable(env: Env, q: Request)
    requires PlanOf(env, q.token, q.userID, q.path).Cached?
    ensures Cacheable(env, PlanOf(env, q.token, q.userID, q.path).resolver)
  {
    NamespaceIsSegment(q.path);
  }

  function Key(env: Env, r: Resolver): string {
    env.hash(PlainKey(r))
  }

  /** What is hashed: a user token as it is, a service token with the user id and the namespace. */
  lemma KeyExactly(env: Env, token: string, tokenType: TokenType, u: string, n: string)
    ensures Key(env, ByToken(token, tokenType)) == env.hash(token)
    ensures Key(env, ByID(token, tokenType, u, n)) == env.hash(token + "_" + u + "_" + n)
  {
  }

  /** No other resolver reaches the cache under the key of `r`. */
  ghost predicate Unshared(env: Env, r: Resolver) {
    forall o :: Cacheable(env, o) && Key(env, o) == Key(env, r) ==> o == r
  }

  /**
   The user id has no underscore after its first character, unless a slash follows, and the namespace
   none but as its last character.
   */
  predicate Unmistakable(u: string, n: string) {
    && (forall k :: 0 < k < |u| && u[k] == '_' ==> !Free(u[k + 1..], '/'))
    && (forall k :: 0 <= k < |n| - 1 ==> n[k] != '_')
  }

  predicate Distinctive(r: Resolver) {
    r.ByID? ==> Unmistakable(r.userID, r.namespaceName)
  }

  lemma LongerIsInvalid(env: Env, token: string, longer: string)
    requires Sound(env) && env.typeOf(token).Some?
    requires |token| < |longer| && longer[..|token|] == token && longer[|token|] == '_'
    ensures env.typeOf(longer).None?
  {
    CutAt(longer, |token|);
    assert longer == Extended(token, longer[|token| + 1..]);
  }

  lemma ValidTokensApart(env: Env, t: string, a: string, t': string, b: string)
    requires Sound(env) && env.typeOf(t).Some? && env.typeOf(t').Some? && t + "_" + a == t' + "_" + b
    ensures t == t' && a == b
  {
    if |t| < |t'| {
      LeftSplit(t', b, t, a);
      LongerIsInvalid(env, t, t');
    } else if |t'| < |t| {
      LeftSplit(t, a, t', b);
      LongerIsInvalid(env, t', t);
    } else {
      SameLengthSplit(t, a, t', b);
    }
  }

  lemma SlashInTail(tail: string, n: string)
    ensures !Free(tail, '/') ==> !Free(tail + "_" + n, '/')
  {
    if '/' in tail {
      assert '/' in tail + "_" + n;
    }
  }

  lemma CompositeIsInvalid(env: Env, r: Resolver)
    requires Sound(env) && Cacheable(env, r) && r.ByID?
    ensures env.typeOf(PlainKey(r)).None?
  {
    CompositeTail(r.token, r.userID, r.namespaceName);
    assert PlainKey(r) == Extended(r.token, r.userID + "_" + r.namespaceName);
  }

  lemma UnderscoreBefore(head: string, tail: string, n: string)
    requires n == head + "_" + tail && tail != ""
    ensures |head| < |n| - 1 && n[|head|] == '_'
  {
  }

  lemma SplitOfUnmistakable(u: string, n: string, u': string, n': string)
    requires Unmistakable(u, n) && u + "_" + n == u' + "_" + n' && u' != "" && n' != "" && Free(n', '/')
    ensures u == u' && n == n'
  {
    if |u'| < |u| {
      LeftSplit(u, n, u', n');
      SlashInTail(u[|u'| + 1..], n);
    } else if |u| < |u'| {
      LeftSplit(u', n', u, n);
      UnderscoreBefore(u'[|u| + 1..], n', n);
    } else {
      SameLengthSplit(u, n, u', n');
    }
  }

  /** Requests share a key only if they share the resolver, if one of them has no underscore in a harmful place. */
  lemma KeyInjective(env: Env, r: Resolver, r': Resolver)
    requires Sound(env) && Cacheable(env, r) && Cacheable(env, r') && Key(env, r) == Key(env, r')
    requires Distinctive(r)
    ensures r == r'
  {
    assert PlainKey(r) == PlainKey(r');
    if r.ByID? && r'.ByID? {
      CompositeTail(r.token, r.userID, r.namespaceName);
      CompositeTail(r'.token, r'.userID, r'.namespaceName);
      var a, b := r.userID + "_" + r.namespaceName, r'.userID + "_" + r'.namespaceName;
      ValidTokensApart(env, r.token, a, r'.token, b);
      SplitOfUnmistakable(r.userID, r.namespaceName, r'.userID, r'.namespaceName);
    } else if r.ByID? {
      CompositeIsInvalid(env, r);
    } else if r'.ByID? {
      CompositeIsInvalid(env, r');
    }
  }

  /** Another user id and namespace that the cache takes for these, under the same token. */
  lemma MistakenFor(u: string, n: string) returns (u': string, n': string)
    requires !Unmistakable(u, n) && u != "" && n != "" && Free(n, '/')
    ensures u' != "" && n' != "" && Free(n', '/') && u' != u
    ensures forall t :: Composite(t, u', n') == Composite(t, u, n)
  {
    if k :| 0 < k < |u| && u[k] == '_' && Free(u[k + 1..], '/') {
      CutAt(u, k);
      u', n' := u[..k], u[k + 1..] + "_" + n;
      forall t ensures Composite(t, u', n') == Composite(t, u, n) {
        UnderscoreMoves(t, u[..k], u[k + 1..], n);
      }
    } else {
      var k :| 0 <= k < |n| - 1 && n[k] == '_';
      CutAt(n, k);
      u', n' := u + "_" + n[..k], n[k + 1..];
      forall t ensures Composite(t, u', n') == Composite(t, u, n) {
        UnderscoreMoves(t, u, n[..k], n[k + 1..]);
      }
    }
  }

  /** Exactly the distinctive resolvers have a key of their own. */
  lemma UnsharedExactly(env: Env, r: Resolver)
    requires Sound(env) && Cacheable(env, r)
    ensures Unshared(env, r) <==> Distinctive(r)
  {
    if Distinctive(r) {
      forall o | Cacheable(env, o) && Key(env, o) == Key(env, r) ensures o == r {
        KeyInjective(env, r, o);
      }
    } else {
      var u, n := MistakenFor(r.userID, r.namespaceName);
      var o := r.(userID := u, namespaceName := n);
      assert Cacheable(env, o) && Key(env, o) == Key(env, r);
    }
  }

  // ---------- all interleavings ----------

  /** A promise; `running` is the request that holds its mutex while the resolver runs. */
  datatype Promise = Promise(resolver: Resolver, resolved: bool, result: Option<Outcome>, running: Option<nat>)

  function Resolve(p: Promise, answer: Outcome): Promise {
    Promise(p.resolver, answer.Ok?, Some(answer), None)
  }

  /** Histories: every resolver call and every answer, with the request that caused it. */
  datatype Call = Call(id: nat, key: Option<string>, resolver: Resolver, outcome: Outcome)

  datatype Answer = Answer(id: nat, key: Option<string>, resolver: Resolver, outcome: Outcome)

  datatype State = State(promises: map<string, Promise>, waiting: map<nat, Resolver>, calls: seq<Call>, answers: seq<Answer>)

  datatype Step =
    | ALookup(id: nat, request: Request)
    | AEnter(id: nat)
    | AFinish(id: nat, outcome: Outcome)
    | ADirect(id: nat, request: Request, outcome: Outcome)

  const INITIAL := State(map[], map[], [], [])

  /** `Cache.Get` under the cache's mutex. */
  predicate Lookup(env: Env, s: State, s': State, id: nat, request: Request) {
    && id !in s.waiting
    && var plan := PlanOf(env, request.token, request.userID, request.path);
    && plan.Cached? && LookedUp(s, s', id, plan.resolver, Key(env, plan.resolver))
  }

  predicate LookedUp(s: State, s': State, id: nat, resolver: Resolver, key: string) {
    s' == s.(waiting := s.waiting[id := resolver],
             promises := if key in s.promises then s.promises
                         else s.promises[key := Promise(resolver, false, None, None)])
  }

  /** `ResolverPromise.Get` takes the promise's mutex: it answers at once, or starts the promise's resolver. */
  predicate Enter(env: Env, s: State, s': State, id: nat) {
    && id in s.waiting
    && var key := Key(env, s.waiting[id]);
    && key in s.promises && s.promises[key].running == None
    && var p := s.promises[key];
    && s' == if p.resolved && p.result.Some?
             then s.(waiting := s.waiting - {id},
                     answers := s.answers + [Answer(id, Some(key), s.waiting[id], p.result.value)])
             else s.(promises := s.promises[key := p.(running := Some(id))])
  }

  predicate Finish(env: Env, s: State, s': State, id: nat, outcome: Outcome) {
    && id in s.waiting
    && var key := Key(env, s.waiting[id]);
    && key in s.promises && s.promises[key].running == Some(id)
    && var p := s.promises[key];
    && s' == State(s.promises[key := Resolve(p, outcome)], s.waiting - {id},
                   s.calls + [Call(id, Some(key), p.resolver, outcome)],
                   s.answers + [Answer(id, Some(key), s.waiting[id], outcome)])
  }

  /** `resolveByIDWithoutCache`. */
  predicate Uncached(env: Env, s: State, s': State, id: nat, request: Request, outcome: Outcome) {
    && var plan := PlanOf(env, request.token, request.userID, request.path);
    && plan.Direct?
    && s' == s.(calls := s.calls + [Call(id, None, plan.resolver, outcome)],
                answers := s.answers + [Answer(id, None, plan.resolver, outcome)])
  }

  predicate Next(env: Env, s: State, s': State, step: Step) {
    match step
    case ALookup(id, request) => Lookup(env, s, s', id, request)
    case AEnter(id) => Enter(env, s, s', id)
    case AFinish(id, outcome) => Finish(env, s, s', id, outcome)
    case ADirect(id, request, outcome) => Uncached(env, s, s', id, request, outcome)
  }

  ghost predicate IsRun(env: Env, run: seq<State>, steps: seq<Step>) {
    && |run| == |steps| + 1 && run[0] == INITIAL
    && forall i :: 0 <= i < |steps| ==> Next(env, run[i], run[i + 1], steps[i])
  }

  // ---------- what the cache promises on its own ----------

  /** A success is the last call for its key, and what the promise then holds. */
  ghost predicate SuccessIsLast(s: State) {
    forall i, key :: 0 <= i < |s.calls| && s.calls[i].key == Some(key) && s.calls[i].outcome.Ok? ==>
      && key in s.promises && s.promises[key].resolved && s.promises[key].result == Some(s.calls[i].outcome)
      && forall j :: i < j < |s.calls| ==> s.calls[j].key != Some(key)
  }

  predicate PromisesOk(s: State) {
    forall key :: key in s.promises ==>
      && (s.promises[key].resolved
          ==> s.promises[key].running == None && s.promises[key].result.Some? && s.promises[key].result.value.Ok?)
  }

  /** A resolved promise came from a call of its own resolver. */
  ghost predicate ResultsFromCalls(s: State) {
    forall key :: key in s.promises && s.promises[key].resolved && s.promises[key].result.Some? ==>
      exists c :: c in s.calls && c.resolver == s.promises[key].resolver && c.outcome == s.promises[key].result.value
  }

  ghost predicate CacheInv(s: State) {
    PromisesOk(s) && SuccessIsLast(s) && ResultsFromCalls(s)
  }

  lemma CacheStep(env: Env, s: State, s': State, step: Step)
    requires CacheInv(s) && Next(env, s, s', step)
    ensures CacheInv(s')
  {
    match step
    case ALookup(id, request) =>
      var resolver := PlanOf(env, request.token, request.userID, request.path).resolver;
      LookupStep(s, s', id, resolver, Key(env, resolver));
    case AEnter(id) => EnterStep(env, s, s', id);
    case AFinish(id, outcome) => FinishStep(env, s, s', id, outcome);
    case ADirect(id, request, outcome) => UncachedStep(env, s, s', id, request, outcome);
  }

  lemma LookupStep(s: State, s': State, id: nat, resolver: Resolver, key: string)
    requires CacheInv(s) && LookedUp(s, s', id, resolver, key)
    ensures CacheInv(s')
  {
  }

  lemma EnterStep(env: Env, s: State, s': State, id: nat)
    requires CacheInv(s) && Enter(env, s, s', id)
    ensures CacheInv(s')
  {
  }

  lemma UncachedStep(env: Env, s: State, s': State, id: nat, request: Request, outcome: Outcome)
    requires CacheInv(s) && Uncached(env, s, s', id, request, outcome)
    ensures CacheInv(s')
  {
    var c := s'.calls[|s.calls|];
    UncachedLeavesLast(s, s', c);
    ResultsStay(s, s', c);
  }

  lemma UncachedLeavesLast(s: State, s': State, c: Call)
    requires SuccessIsLast(s) && s'.promises == s.promises && s'.calls == s.calls + [c] && c.key == None
    ensures SuccessIsLast(s')
  {
  }

  lemma ResultsStay(s: State, s': State, c: Call)
    requires ResultsFromCalls(s) && s'.promises == s.promises && s'.calls == s.calls + [c]
    ensures ResultsFromCalls(s')
  {
    CallsGrow(s.calls, c);
    forall k | k in s'.promises && s'.promises[k].resolved && s'.promises[k].result.Some?
      ensures exists d :: d in s'.calls && d.resolver == s'.promises[k].resolver && d.outcome == s'.promises[k].result.value
    {
      var d :| d in s.calls && d.resolver == s.promises[k].resolver && d.outcome == s.promises[k].result.value;
      assert d in s'.calls;
    }
  }

  lemma CallsGrow(calls: seq<Call>, c: Call)
    ensures forall d :: d in calls ==> d in calls + [c]
    ensures c in calls + [c]
  {
  }

  lemma FinishStep(env: Env, s: State, s': State, id: nat, outcome: Outcome)
    requires CacheInv(s) && Finish(env, s, s', id, outcome)
    ensures CacheInv(s')
  {
    var key := Key(env, s.waiting[id]);
    var p := s.promises[key];
    CallsGrow(s.calls, Call(id, Some(key), p.resolver, outcome));
    assert !p.resolved;
    forall k | k in s'.promises && s'.promises[k].resolved && s'.promises[k].result.Some?
      ensures exists d :: d in s'.calls && d.resolver == s'.promises[k].resolver && d.outcome == s'.promises[k].result.value
    {
      if k != key {
        var d :| d in s.calls && d.resolver == s.promises[k].resolver && d.outcome == s.promises[k].result.value;
        assert d in s'.calls;
      }
    }
  }

  /** Between the two states the resolved promise was left alone, not called again, and answered with its value. */
  predicate Settled(s: State, s': State, key: string) {
    && key in s.promises && key in s'.promises && s'.promises[key] == s.promises[key]
    && s.calls <= s'.calls && (forall j :: |s.calls| <= j < |s'.calls| ==> s'.calls[j].key != Some(key))
    && s.answers <= s'.answers
    && (forall j :: |s.answers| <= j < |s'.answers| && s'.answers[j].key == Some(key)
                    ==> Some(s'.answers[j].outcome) == s.promises[key].result)
  }

  lemma SettledTransitive(a: State, b: State, c: State, key: string)
    requires Settled(a, b, key) && Settled(b, c, key)
    ensures Settled(a, c, key)
  {
  }

  lemma ResolvedStep(env: Env, s: State, s': State, step: Step, key: string)
    requires PromisesOk(s) && Next(env, s, s', step)
    requires key in s.promises && s.promises[key].resolved
    ensures Settled(s, s', key)
  {
  }

  lemma {:induction false} RunCacheInv(env: Env, run: seq<State>, steps: seq<Step>, i: nat)
    requires IsRun(env, run, steps) && i < |run|
    ensures CacheInv(run[i])
    decreases i
  {
    if i > 0 {
      RunCacheInv(env, run, steps, i - 1);
      assert Next(env, run[i - 1], run[i], steps[i - 1]);
      CacheStep(env, run[i - 1], run[i], steps[i - 1]);
    }
  }

  lemma RunStepSettles(env: Env, run: seq<State>, steps: seq<Step>, i: nat, key: string)
    requires IsRun(env, run, steps) && i < |steps|
    requires key in run[i].promises && run[i].promises[key].resolved
    ensures Settled(run[i], run[i + 1], key)
  {
    RunCacheInv(env, run, steps, i);
    assert Next(env, run[i], run[i + 1], steps[i]);
    ResolvedStep(env, run[i], run[i + 1], steps[i], key);
  }

  lemma {:induction false} ResolvedForever(env: Env, run: seq<State>, steps: seq<Step>, i: nat, j: nat, key: string)
    requires IsRun(env, run, steps) && i <= j < |run|
    requires key in run[i].promises && run[i].promises[key].resolved
    ensures Settled(run[i], run[j], key)
    decreases j
  {
    if i < j {
      ResolvedForever(env, run, steps, i, j - 1, key);
      RunStepSettles(env, run, steps, j - 1, key);
      SettledTransitive(run[i], run[j - 1], run[j], key);
    }
  }

  /**
   For every key and interleaving, with any hash: the calls are failures followed by at most one
   success, and from that success on every answer is its value and the resolver is not called again.
   */
  lemma SuccessRemembered(env: Env, run: seq<State>, steps: seq<Step>, i: nat, j: nat, k: nat, key: string)
    requires IsRun(env, run, steps) && i <= j < |run|
    requires k < |run[i].calls| && run[i].calls[k].key == Some(key) && run[i].calls[k].outcome.Ok?
    ensures run[i].calls <= run[j].calls
    ensures forall l :: 0 <= l < |run[j].calls| && run[j].calls[l].key == Some(key) ==>
              l <= k && (run[j].calls[l].outcome.Ok? <==> l == k)
    ensures forall l :: |run[i].answers| <= l < |run[j].answers| && run[j].answers[l].key == Some(key)
                        ==> run[j].answers[l].outcome == run[i].calls[k].outcome
  {
    RunCacheInv(env, run, steps, i);
    RunCacheInv(env, run, steps, j);
    ResolvedForever(env, run, steps, i, j, key);
    assert run[j].calls[k] == run[i].calls[k];
  }

  // ---------- failures and transparency ----------

  /** An answer is a result of the request's own resolver; a failure moreover of the request's own call. */
  ghost predicate Explained(a: Answer, calls: seq<Call>) {
    exists c :: c in calls && c.resolver == a.resolver && c.outcome == a.outcome && (a.outcome.Err? ==> c.id == a.id)
  }

  ghost predicate KeysOk(env: Env, s: State) {
    && (forall key :: key in s.promises ==> Cacheable(env, s.promises[key].resolver) && Key(env, s.promises[key].resolver) == key)
    && (forall id :: id in s.waiting ==> Cacheable(env, s.waiting[id]))
  }

  /** Whoever asks under a key of its own, or without the cache, is answered by its own resolver. */
  ghost predicate AnswerOk(env: Env, a: Answer, calls: seq<Call>) {
    && (a.key.Some? ==> Cacheable(env, a.resolver))
    && (a.key.None? || Unshared(env, a.resolver) ==> Explained(a, calls))
  }

  ghost predicate AnswersOk(env: Env, s: State) {
    forall a :: a in s.answers ==> AnswerOk(env, a, s.calls)
  }

  lemma KeysStep(env: Env, s: State, s': State, step: Step)
    requires KeysOk(env, s) && Next(env, s, s', step)
    ensures KeysOk(env, s')
  {
    if step.ALookup? {
      CachedIsCacheable(env, step.request);
    }
  }

  lemma ExplainedGrows(a: Answer, calls: seq<Call>, calls': seq<Call>)
    requires Explained(a, calls) && calls <= calls'
    ensures Explained(a, calls')
  {
    var c :| c in calls && c.resolver == a.resolver && c.outcome == a.outcome && (a.outcome.Err? ==> c.id == a.id);
    assert c in calls';
  }

  /** The answer that a step gives. */
  lemma NewAnswer(env: Env, s: State, s': State, step: Step)
    requires CacheInv(s) && KeysOk(env, s) && Next(env, s, s', step) && |s'.answers| > |s.answers|
    ensures s.calls <= s'.calls && s'.answers == s.answers + [s'.answers[|s.answers|]]
    ensures AnswerOk(env, s'.answers[|s.answers|], s'.calls)
  {
    var a, m := s'.answers[|s.answers|], |s.calls|;
    if step.ADirect? {
      assert s'.calls[m] in s'.calls;
    } else {
      var r, key := s.waiting[step.id], Key(env, s.waiting[step.id]);
      assert Unshared(env, r) ==> s.promises[key].resolver == r;
      if step.AFinish? {
        assert s'.calls[m] in s'.calls;
      }
    }
  }

  lemma AnswersStep(env: Env, s: State, s': State, step: Step)
    requires CacheInv(s) && KeysOk(env, s) && AnswersOk(env, s) && Next(env, s, s', step)
    ensures AnswersOk(env, s')
  {
    assert s.calls <= s'.calls;
    forall a | a in s.answers ensures AnswerOk(env, a, s'.calls) {
      if Explained(a, s.calls) {
        ExplainedGrows(a, s.calls, s'.calls);
      }
    }
    if |s'.answers| > |s.answers| {
      NewAnswer(env, s, s', step);
    }
  }

  lemma {:induction false} RunAnswers(env: Env, run: seq<State>, steps: seq<Step>, i: nat)
    requires IsRun(env, run, steps) && i < |run|
    ensures KeysOk(env, run[i]) && AnswersOk(env, run[i])
    decreases i
  {
    if i > 0 {
      RunAnswers(env, run, steps, i - 1);
      RunCacheInv(env, run, steps, i - 1);
      assert Next(env, run[i - 1], run[i], steps[i - 1]);
      KeysStep(env, run[i - 1], run[i], steps[i - 1]);
      AnswersStep(env, run[i - 1], run[i], steps[i - 1]);
    }
  }

  /**
   Transparency, whatever the interleaving and whatever else is requested: a request without harmful
   underscores is only ever answered with a result of the resolver for its own token, user and namespace,
   and with a failure only if its own call failed. Without the cache so is any request.
   */
  lemma CacheTransparent(env: Env, run: seq<State>, steps: seq<Step>, i: nat)
    requires Sound(env) && IsRun(env, run, steps) && i < |run|
    ensures forall a :: a in run[i].answers && (Distinctive(a.resolver) || a.key == None) ==> Explained(a, run[i].calls)
  {
    RunAnswers(env, run, steps, i);
    forall a | a in run[i].answers && (Distinctive(a.resolver) || a.key == None) ensures Explained(a, run[i].calls) {
      assert AnswerOk(env, a, run[i].calls);
      if a.key.Some? {
        UnsharedExactly(env, a.resolver);
      }
    }
  }

  /** Requests without any underscore are among them. */
  lemma UnderscoreFreeIsDistinctive(r: Resolver)
    requires r.ByID? ==> UnderscoreFree(r.userID, r.namespaceName)
    ensures Distinctive(r)
  {
  }

  // ---------- where transparency ends ----------

  lemma Extend(env: Env, run: seq<State>, steps: seq<Step>, step: Step, next: State)
    returns (run': seq<State>, steps': seq<Step>)
    requires IsRun(env, run, steps) && Next(env, run[|steps|], next, step)
    ensures IsRun(env, run', steps') && steps' == steps + [step] && run' == run + [next]
  {
    run', steps' := run + [next], steps + [step];
    forall i | 0 <= i < |steps'| ensures Next(env, run'[i], run'[i + 1], steps'[i]) {
      if i < |steps| {
        assert Next(env, run[i], run[i + 1], steps[i]);
      }
    }
  }

  /** The first request for a key succeeds. */
  lemma FirstSucceeds(env: Env, r: Resolver, value: Data) returns (run: seq<State>, steps: seq<Step>)
    requires Cacheable(env, r)
    ensures IsRun(env, run, steps) && steps == [ALookup(0, RequestFor(r)), AEnter(0), AFinish(0, Ok(value))]
    ensures
      var key := Key(env, r);
      run[3] == State(map[key := Promise(r, true, Some(Ok(value)), None)], map[],
                      [Call(0, Some(key), r, Ok(value))], [Answer(0, Some(key), r, Ok(value))])
  {
    RequestIsCached(env, r);
    var key := Key(env, r);
    var asked := State(map[key := Promise(r, false, None, None)], map[0 := r], [], []);
    var running := State(map[key := Promise(r, false, None, Some(0))], map[0 := r], [], []);
    var done := State(map[key := Promise(r, true, Some(Ok(value)), None)], map[],
                      [Call(0, Some(key), r, Ok(value))], [Answer(0, Some(key), r, Ok(value))]);
    run, steps := Extend(env, [INITIAL], [], ALookup(0, RequestFor(r)), asked);
    run, steps := Extend(env, run, steps, AEnter(0), running);
    run, steps := Extend(env, run, steps, AFinish(0, Ok(value)), done);
  }

  /** A request under the same key is then answered with a value that its own resolver never gave. */
  lemma SharedKeyLeaks(env: Env, r: Resolver, r': Resolver, value: Data) returns (run: seq<State>, steps: seq<Step>)
    requires Cacheable(env, r) && Cacheable(env, r') && Key(env, r) == Key(env, r') && r != r'
    ensures IsRun(env, run, steps) && |run| == 6
    ensures steps == [ALookup(0, RequestFor(r)), AEnter(0), AFinish(0, Ok(value)), ALookup(1, RequestFor(r')), AEnter(1)]
    ensures
      var a := Answer(1, Some(Key(env, r')), r', Ok(value));
      a in run[5].answers && !Explained(a, run[5].calls)
  {
    run, steps := FirstSucceeds(env, r, value);
    var s := run[3];
    RequestIsCached(env, r');
    var a := Answer(1, Some(Key(env, r')), r', Ok(value));
    run, steps := Extend(env, run, steps, ALookup(1, RequestFor(r')), s.(waiting := map[1 := r']));
    run, steps := Extend(env, run, steps, AEnter(1), s.(answers := s.answers + [a]));
    assert forall c :: c in s.calls ==> c.resolver == r;
  }

  /** In every run every answer to `r` is a result of `r`. */
  ghost predicate AlwaysOwn(env: Env, r: Resolver) {
    forall run: seq<State>, steps: seq<Step>, i: nat, a ::
      IsRun(env, run, steps) && i < |run| && a in run[i].answers && a.resolver == r ==> Explained(a, run[i].calls)
  }

  /** With any hash and any tokens: always its own answer, exactly when no other request has its key. */
  lemma OwnAnswersExactly(env: Env, r: Resolver)
    requires Cacheable(env, r)
    ensures AlwaysOwn(env, r) <==> Unshared(env, r)
  {
    if Unshared(env, r) {
      forall run: seq<State>, steps: seq<Step>, i: nat, a | IsRun(env, run, steps) && i < |run| && a in run[i].answers && a.resolver == r
        ensures Explained(a, run[i].calls)
      {
        RunAnswers(env, run, steps, i);
        assert AnswerOk(env, a, run[i].calls);
      }
    } else {
      var o :| Cacheable(env, o) && Key(env, o) == Key(env, r) && o != r;
      var run, steps := SharedKeyLeaks(env, o, r, "");
    }
  }

  /** A cached request always gets its own answer exactly when its user id and namespace are unmistakable. */
  lemma TransparentExactly(env: Env, r: Resolver)
    requires Sound(env) && Cacheable(env, r)
    ensures AlwaysOwn(env, r) <==> Distinctive(r)
  {
    OwnAnswersExactly(env, r);
    UnsharedExactly(env, r);
  }

  /** One service token `t`, and an identity hash. */
  function OneToken(service: TokenType): Env {
    Env(s => s, token => if token == "t" then Some(service) else None)
  }

  /** User `a_b` asks for namespace `c`; then user `a` gets that answer for namespace `b_c`, under the same token. */
  lemma UnderscoreLeaks(value: Data) returns (run: seq<State>, steps: seq<Step>)
    ensures
      var service := ServiceToken("s");
      var env, r := OneToken(service), ByID("t", service, "a", "b_c");
      var a := Answer(1, Some(Key(env, r)), r, Ok(value));
      && Sound(env) && IsRun(env, run, steps) && |run| == 6
      && steps[0] == ALookup(0, Request("t", "a_b", "/namespaces/c"))
      && steps[2] == AFinish(0, Ok(value))
      && steps[3] == ALookup(1, Request("t", "a", "/namespaces/b_c"))
      && a in run[5].answers && !Explained(a, run[5].calls)
  {
    var service := ServiceToken("s");
    var env := OneToken(service);
    assert Sound(env) by {
      forall token, x | env.typeOf(token).Some? ensures env.typeOf(Extended(token, x)).None? {
        assert |Extended(token, x)| > |"t"|;
      }
    }
    var r, r' := ByID("t", service, "a_b", "c"), ByID("t", service, "a", "b_c");
    UnderscoreMoves("t", "a", "b", "c");
    assert "a" + "_" + "b" == "a_b" && "b" + "_" + "c" == "b_c";
    run, steps := SharedKeyLeaks(env, r, r', value);
    assert NS_PATH + "c" == "/namespaces/c" && NS_PATH + "b_c" == "/namespaces/b_c";
  }

  /** Where a resolver's successes always have one value, the cache gives that value, as a direct call would. */
  lemma CachedAgreesWithUncached(env: Env, run: seq<State>, steps: seq<Step>, i: nat, value: Resolver -> Data)
    requires Sound(env) && IsRun(env, run, steps) && i < |run|
    requires forall c :: c in run[i].calls && c.outcome.Ok? ==> c.outcome.value == value(c.resolver)
    ensures forall a :: a in run[i].answers && a.outcome.Ok? && (Distinctive(a.resolver) || a.key == None)
                        ==> a.outcome.value == value(a.resolver)
  {
    CacheTransparent(env, run, steps, i);
    forall a | a in run[i].answers && a.outcome.Ok? && (Distinctive(a.resolver) || a.key == None)
      ensures a.outcome.value == value(a.resolver)
    {
      assert Explained(a, run[i].calls);
    }
  }
}
