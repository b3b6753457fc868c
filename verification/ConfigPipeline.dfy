/**
 The configuration reload pipeline (server/server.go): providers' messages pass a per-provider
 throttle with a one-slot ring, then a shared queue, and are loaded one at a time.
 */
module ConfigPipeline {
  import opened Sequences
  import opened Wrappers

  type Provider = string

  /** An identity for a configuration; `NoConfiguration` has neither backends nor frontends nor TLS. */
  datatype Configuration = NoConfiguration | Configuration(id: nat)

  datatype Message = Message(provider: Provider, config: Configuration)

  /** The capacity of `configurationValidatedChan`. */
  const QUEUE_CAPACITY: nat := 100

  // ---------- loading, copy on write ----------

  class Server {
    var currentConfigurations: map<Provider, Configuration>

    constructor ()
      ensures currentConfigurations == map[]
    {
      currentConfigurations := map[];
    }

    /** The checks of `preLoadConfiguration`: whether the message is sent on. */
    method PreLoadConfiguration(msg: Message) returns (forward: bool)
      ensures forward <==> !Skipped(currentConfigurations, msg)
      ensures forward <==>
                && msg.config != NoConfiguration
                && (msg.provider in currentConfigurations ==> currentConfigurations[msg.provider] != msg.config)
    {
      if msg.config == NoConfiguration {
        return false;
      } else if msg.provider in currentConfigurations && currentConfigurations[msg.provider] == msg.config {
        return false;
      }
      return true;
    }

    /** `loadConfiguration`; `loads` says whether `loadConfig` accepts the new map. */
    method LoadConfiguration(msg: Message, loads: map<Provider, Configuration> -> bool) returns (ok: bool)
      modifies this
      ensures ok == loads(old(currentConfigurations)[msg.provider := msg.config])
      ensures currentConfigurations == AfterLoad(old(currentConfigurations), msg, ok)
    {
      var newConfigurations: map<Provider, Configuration> := map[];
      var todo := currentConfigurations.Keys;
      while todo != {}
        invariant todo <= currentConfigurations.Keys
        invariant currentConfigurations == old(currentConfigurations)
        invariant newConfigurations.Keys == currentConfigurations.Keys - todo
        invariant forall k :: k in newConfigurations ==> newConfigurations[k] == currentConfigurations[k]
        decreases |todo|
      {
        var k :| k in todo;
        newConfigurations := newConfigurations[k := currentConfigurations[k]];
        todo := todo - {k};
      }
      assert newConfigurations == currentConfigurations;
      newConfigurations := newConfigurations[msg.provider := msg.config];
      ok := loads(newConfigurations);
      if ok {
        currentConfigurations := newConfigurations;
      }
    }
  }

  /** An empty configuration and the one already loaded are skipped, any other is forwarded. */
  predicate Skipped(current: map<Provider, Configuration>, msg: Message) {
    msg.config == NoConfiguration || (msg.provider in current && current[msg.provider] == msg.config)
  }

  /** The ring channel of one slot: a value is added, and the oldest goes when there are two. */
  class RingChannel {
    var buffer: seq<Configuration>

    constructor ()
      ensures buffer == []
    {
      buffer := [];
    }

    method In(c: Configuration)
      requires |buffer| <= 1
      modifies this
      ensures buffer == [c]
    {
      buffer := buffer + [c];
      if |buffer| > 1 {
        buffer := buffer[1..];
      }
    }
  }

  function AfterLoad(current: map<Provider, Configuration>, msg: Message, ok: bool): map<Provider, Configuration> {
    if ok then current[msg.provider := msg.config] else current
  }

  // ---------- the stages ----------

  /**
   One provider's throttle: the message its goroutine received, the ring, and the message its
   publishing goroutine took out of the ring.
   */
  datatype Throttle = Throttle(received: Option<Configuration>, ring: Option<Configuration>, publishing: Option<Configuration>)

  datatype Attempt = Attempt(msg: Message, ok: bool)

  /**
   `loading` is the message that `listenConfigurations` took out of the queue and has not finished loading.
   `forwarded` and `attempts` are histories: what passed the checks, and what was tried.
   */
  datatype State = State(
    offered: Option<Message>,
    throttles: map<Provider, Throttle>,
    queue: seq<Message>,
    loading: Option<Message>,
    current: map<Provider, Configuration>,
    forwarded: seq<Message>,
    attempts: seq<Attempt>)

  datatype Step =
    | APreLoad(msg: Message)
    | AHandOver
    | ARingIn(provider: Provider)
    | ARingOut(provider: Provider)
    | APublish(provider: Provider)
    | ATake
    | ALoad(ok: bool)

  const INITIAL := State(None, map[], [], None, map[], [], [])

  function ThrottleOf(s: State, p: Provider): Throttle {
    if p in s.throttles then s.throttles[p] else Throttle(None, None, None)
  }

  /** `preLoadConfiguration`, up to the send; `listenProviders` runs one at a time. */
  predicate PreLoad(s: State, s': State, msg: Message) {
    && s.offered == None
    && s' == if Skipped(s.current, msg) then s else s.(offered := Some(msg), forwarded := s.forwarded + [msg])
  }

  /** The send on the provider's unbuffered channel, whose goroutine exists from its first message on. */
  predicate HandOver(s: State, s': State) {
    && s.offered.Some?
    && var msg := s.offered.value;
    && var t := ThrottleOf(s, msg.provider);
    && t.received == None
    && s' == s.(offered := None, throttles := s.throttles[msg.provider := t.(received := Some(msg.config))])
  }

  /** A ring of one slot: the newer message replaces the one that is still there. */
  predicate RingIn(s: State, s': State, p: Provider) {
    && ThrottleOf(s, p).received.Some?
    && var t := ThrottleOf(s, p);
    && s' == s.(throttles := s.throttles[p := t.(received := None, ring := t.received)])
  }

  predicate RingOut(s: State, s': State, p: Provider) {
    && ThrottleOf(s, p).ring.Some? && ThrottleOf(s, p).publishing == None
    && var t := ThrottleOf(s, p);
    && s' == s.(throttles := s.throttles[p := t.(ring := None, publishing := t.ring)])
  }

  predicate Publish(s: State, s': State, p: Provider) {
    && ThrottleOf(s, p).publishing.Some? && |s.queue| < QUEUE_CAPACITY
    && var t := ThrottleOf(s, p);
    && s' == s.(throttles := s.throttles[p := t.(publishing := None)],
                queue := s.queue + [Message(p, t.publishing.value)])
  }

  predicate Take(s: State, s': State) {
    && s.queue != [] && s.loading == None
    && s' == s.(queue := s.queue[1..], loading := Some(s.queue[0]))
  }

  /** The end of a load; until then `preLoadConfiguration` sees the old map. */
  predicate Load(s: State, s': State, ok: bool) {
    && s.loading.Some?
    && var msg := s.loading.value;
    && s' == s.(loading := None, current := AfterLoad(s.current, msg, ok), attempts := s.attempts + [Attempt(msg, ok)])
  }

  predicate Next(s: State, s': State, step: Step) {
    match step
    case APreLoad(msg) => PreLoad(s, s', msg)
    case AHandOver => HandOver(s, s')
    case ARingIn(p) => RingIn(s, s', p)
    case ARingOut(p) => RingOut(s, s', p)
    case APublish(p) => Publish(s, s', p)
    case ATake => Take(s, s')
    case ALoad(ok) => Load(s, s', ok)
  }

  predicate IsRun(run: seq<State>, steps: seq<Step>) {
    && |run| == |steps| + 1 && run[0] == INITIAL
    && forall i :: 0 <= i < |steps| ==> Next(run[i], run[i + 1], steps[i])
  }

  // ---------- one provider's view ----------

  function Of(p: Provider, msgs: seq<Message>): seq<Configuration> {
    if msgs == [] then []
    else (if msgs[0].provider == p then [msgs[0].config] else []) + Of(p, msgs[1..])
  }

  function Tried(attempts: seq<Attempt>): seq<Message> {
    seq(|attempts|, i requires 0 <= i < |attempts| => attempts[i].msg)
  }

  function Slot(o: Option<Configuration>): seq<Configuration> {
    if o.Some? then [o.value] else []
  }

  function OfferedTo(p: Provider, s: State): seq<Configuration> {
    if s.offered.Some? then Of(p, [s.offered.value]) else []
  }

  function Stages(t: Throttle): seq<Configuration> {
    Slot(t.publishing) + (Slot(t.ring) + Slot(t.received))
  }

  /** The messages that are published and have not been tried. */
  function Untried(s: State): seq<Message> {
    if s.loading.Some? then [s.loading.value] + s.queue else s.queue
  }

  function Published(p: Provider, s: State): seq<Configuration> {
    Of(p, Tried(s.attempts)) + Of(p, Untried(s))
  }

  /** What has been tried, is being loaded, is queued, is being published, is in the ring, is received or offered: oldest first. */
  function Pipeline(p: Provider, s: State): seq<Configuration> {
    Published(p, s) + Stages(ThrottleOf(s, p)) + OfferedTo(p, s)
  }

  /** A subsequence that ends in the same element. */
  predicate EndsAlike(a: seq<Configuration>, b: seq<Configuration>) {
    Sub(a, b) && (b != [] ==> a != [] && a[|a| - 1] == b[|b| - 1])
  }

  predicate Good(p: Provider, s: State) {
    EndsAlike(Pipeline(p, s), Of(p, s.forwarded))
  }

  lemma {:induction false} OfAppend(p: Provider, a: seq<Message>, b: seq<Message>)
    ensures Of(p, a + b) == Of(p, a) + Of(p, b)
  {
    if a == [] {
      assert a + b == b && [] + Of(p, b) == Of(p, b);
    } else {
      var rest := a[1..];
      assert (a + b)[0] == a[0] && (a + b)[1..] == rest + b;
      OfAppend(p, rest, b);
      Assoc(if a[0].provider == p then [a[0].config] else [], Of(p, rest), Of(p, b));
    }
  }

  lemma EndsAlikeSkips(a: seq<Configuration>, c: seq<Configuration>, d: seq<Configuration>, b: seq<Configuration>)
    requires EndsAlike(a + c + d, b) && d != []
    ensures EndsAlike(a + d, b)
  {
    SubRefl(a);
    SubRefl(d);
    SubPrepend(d, c, d);
    SubConcat(a, a, d, c + d);
    assert a + (c + d) == a + c + d;
    SubTrans(a + d, a + c + d, b);
  }

  lemma EndsAlikeGrows(a: seq<Configuration>, b: seq<Configuration>, c: Configuration)
    requires EndsAlike(a, b)
    ensures EndsAlike(a + [c], b + [c])
  {
    SubRefl([c]);
    SubConcat(a, b, [c], [c]);
  }

  lemma OfOne(p: Provider, msg: Message)
    ensures Of(p, [msg]) == if msg.provider == p then [msg.config] else []
  {
    assert [msg][1..] == [];
  }

  lemma PreLoadKeeps(s: State, s': State, msg: Message, p: Provider)
    requires PreLoad(s, s', msg) && Good(p, s)
    ensures Good(p, s')
  {
    if !Skipped(s.current, msg) {
      OfAppend(p, s.forwarded, [msg]);
      OfOne(p, msg);
      var before := Published(p, s) + Stages(ThrottleOf(s, p));
      assert Pipeline(p, s) == before && Pipeline(p, s') == before + Of(p, [msg]);
      if msg.provider == p {
        EndsAlikeGrows(Pipeline(p, s), Of(p, s.forwarded), msg.config);
      } else {
        assert before + [] == before && Of(p, s.forwarded) + [] == Of(p, s.forwarded);
      }
    }
  }

  lemma HandOverMoves(s: State, s': State, p: Provider)
    requires HandOver(s, s')
    ensures Pipeline(p, s') == Pipeline(p, s)
  {
    var msg := s.offered.value;
    OfOne(p, msg);
    var t := ThrottleOf(s, p);
    if msg.provider == p {
      assert ThrottleOf(s', p) == t.(received := Some(msg.config));
      ReceivedLast(Published(p, s), t, msg.config);
    } else {
      assert ThrottleOf(s', p) == t;
    }
  }

  lemma ReceivedLast(published: seq<Configuration>, t: Throttle, c: Configuration)
    requires t.received == None
    ensures published + Stages(t.(received := Some(c))) + [] == published + Stages(t) + [c]
  {
    assert Stages(t.(received := Some(c))) == Stages(t) + [c];
  }

  lemma RingInKeeps(s: State, s': State, q: Provider, p: Provider)
    requires RingIn(s, s', q) && Good(p, s)
    ensures Good(p, s')
  {
    var t := ThrottleOf(s, p);
    assert Published(p, s') == Published(p, s) && OfferedTo(p, s') == OfferedTo(p, s);
    if p == q {
      assert ThrottleOf(s', p) == t.(received := None, ring := t.received);
      Overwrite(Published(p, s), t, OfferedTo(p, s), Of(p, s.forwarded));
    } else {
      assert ThrottleOf(s', p) == t;
    }
  }

  /** Dropping what was in the ring skips an element that is not the last one. */
  lemma Overwrite(published: seq<Configuration>, t: Throttle, offered: seq<Configuration>, b: seq<Configuration>)
    requires t.received.Some? && EndsAlike(published + Stages(t) + offered, b)
    ensures EndsAlike(published + Stages(t.(received := None, ring := t.received)) + offered, b)
  {
    var a, c, d := published + Slot(t.publishing), Slot(t.ring), Slot(t.received) + offered;
    assert published + Stages(t) + offered == a + c + d;
    assert published + Stages(t.(received := None, ring := t.received)) + offered == a + d;
    EndsAlikeSkips(a, c, d, b);
  }

  lemma RingOutMoves(s: State, s': State, q: Provider, p: Provider)
    requires RingOut(s, s', q)
    ensures Pipeline(p, s') == Pipeline(p, s)
  {
    var t := ThrottleOf(s, p);
    assert Published(p, s') == Published(p, s) && OfferedTo(p, s') == OfferedTo(p, s);
    if p == q {
      assert ThrottleOf(s', p) == t.(ring := None, publishing := t.ring);
      assert Stages(t.(ring := None, publishing := t.ring)) == Stages(t);
    } else {
      assert ThrottleOf(s', p) == t;
    }
  }

  lemma PublishMoves(s: State, s': State, q: Provider, p: Provider)
    requires Publish(s, s', q)
    ensures Pipeline(p, s') == Pipeline(p, s)
  {
    var t := ThrottleOf(s, p);
    PublishedGrows(s, s', q, p);
    if p == q {
      assert ThrottleOf(s', p) == t.(publishing := None);
      MoveOut(Published(p, s), Slot(t.publishing), Slot(t.ring) + Slot(t.received));
    } else {
      assert ThrottleOf(s', p) == t && Published(p, s') == Published(p, s);
    }
  }

  lemma PublishedGrows(s: State, s': State, q: Provider, p: Provider)
    requires Publish(s, s', q)
    ensures Published(p, s') == Published(p, s) + if p == q then Slot(ThrottleOf(s, q).publishing) else []
  {
    var msg := Message(q, ThrottleOf(s, q).publishing.value);
    assert Untried(s') == Untried(s) + [msg];
    OfAppend(p, Untried(s), [msg]);
    OfOne(p, msg);
    Assoc(Of(p, Tried(s.attempts)), Of(p, Untried(s)), Of(p, [msg]));
  }

  lemma MoveOut<T>(published: seq<T>, next: seq<T>, rest: seq<T>)
    ensures published + next + ([] + rest) == published + (next + rest)
  {
    assert [] + rest == rest;
    Assoc(published, next, rest);
  }

  lemma TakeMoves(s: State, s': State, p: Provider)
    requires Take(s, s')
    ensures Pipeline(p, s') == Pipeline(p, s)
  {
    assert Untried(s') == Untried(s);
    assert ThrottleOf(s', p) == ThrottleOf(s, p) && OfferedTo(p, s') == OfferedTo(p, s);
  }

  lemma LoadMoves(s: State, s': State, ok: bool, p: Provider)
    requires Load(s, s', ok)
    ensures Pipeline(p, s') == Pipeline(p, s)
  {
    PublishedLoads(s, s', ok, p);
    assert ThrottleOf(s', p) == ThrottleOf(s, p) && OfferedTo(p, s') == OfferedTo(p, s);
  }

  lemma PublishedLoads(s: State, s': State, ok: bool, p: Provider)
    requires Load(s, s', ok)
    ensures Published(p, s') == Published(p, s)
  {
    var msg := s.loading.value;
    assert Tried(s'.attempts) == Tried(s.attempts) + [msg];
    OfAppend(p, Tried(s.attempts), [msg]);
    OfAppend(p, [msg], s.queue);
    Assoc(Of(p, Tried(s.attempts)), Of(p, [msg]), Of(p, s.queue));
  }

  /** Only a forwarded message and an overwritten one change what is under way. */
  lemma StepMoves(s: State, s': State, step: Step, p: Provider)
    requires Next(s, s', step) && !step.APreLoad? && !step.ARingIn?
    ensures Pipeline(p, s') == Pipeline(p, s) && s'.forwarded == s.forwarded
  {
    match step
    case AHandOver => HandOverMoves(s, s', p);
    case ARingOut(q) => RingOutMoves(s, s', q, p);
    case APublish(q) => PublishMoves(s, s', q, p);
    case ATake => TakeMoves(s, s', p);
    case ALoad(ok) => LoadMoves(s, s', ok, p);
  }

  lemma StepKeeps(s: State, s': State, step: Step, p: Provider)
    requires Next(s, s', step) && Good(p, s)
    ensures Good(p, s')
  {
    match step
    case APreLoad(msg) => PreLoadKeeps(s, s', msg, p);
    case ARingIn(q) => RingInKeeps(s, s', q, p);
    case _ => StepMoves(s, s', step, p);
  }

  // ---------- what is loaded ----------

  /** The configurations that result from the attempts: each provider's last successful one. */
  function Replayed(attempts: seq<Attempt>): map<Provider, Configuration> {
    if attempts == [] then map[]
    else
      var last := attempts[|attempts| - 1];
      AfterLoad(Replayed(attempts[..|attempts| - 1]), last.msg, last.ok)
  }

  /** Position `k` holds the last attempt for provider `p`. */
  predicate LastAttempt(attempts: seq<Attempt>, p: Provider, k: nat) {
    && k < |attempts| && attempts[k].msg.provider == p
    && forall l :: k < l < |attempts| ==> attempts[l].msg.provider != p
  }

  /** A failed attempt changes no entry, and a provider's attempt changes no other provider's entry. */
  lemma {:induction false} ReplayedLast(attempts: seq<Attempt>, p: Provider, k: nat)
    requires LastAttempt(attempts, p, k)
    ensures attempts[k].ok ==> p in Replayed(attempts) && Replayed(attempts)[p] == attempts[k].msg.config
    ensures !attempts[k].ok ==> SameEntry(p, Replayed(attempts), Replayed(attempts[..k]))
    decreases |attempts|
  {
    var n := |attempts| - 1;
    if k < n {
      assert LastAttempt(attempts[..n], p, k);
      ReplayedLast(attempts[..n], p, k);
      assert attempts[..n][..k] == attempts[..k];
    }
  }

  lemma {:induction false} LastTried(attempts: seq<Attempt>, p: Provider) returns (k: nat)
    requires Of(p, Tried(attempts)) != []
    ensures LastAttempt(attempts, p, k)
    ensures attempts[k].msg.config == Of(p, Tried(attempts))[|Of(p, Tried(attempts))| - 1]
  {
    var n := |attempts| - 1;
    assert attempts != [];
    var last := attempts[n].msg;
    assert Tried(attempts) == Tried(attempts[..n]) + [last];
    OfAppend(p, Tried(attempts[..n]), [last]);
    if last.provider == p {
      k := n;
    } else {
      assert Of(p, [last]) == [];
      k := LastTried(attempts[..n], p);
    }
  }

  predicate Drained(p: Provider, s: State) {
    Of(p, Untried(s)) == [] && ThrottleOf(s, p) == Throttle(None, None, None) && OfferedTo(p, s) == []
  }

  lemma NextKeepsGood(run: seq<State>, steps: seq<Step>, i: nat, p: Provider)
    requires IsRun(run, steps) && i < |steps| && Good(p, run[i])
    ensures Good(p, run[i + 1])
  {
    var s, s' := run[i], run[i + 1];
    assert Next(s, s', steps[i]);
    StepKeeps(s, s', steps[i], p);
  }

  lemma {:induction false} GoodAt(run: seq<State>, steps: seq<Step>, i: nat, p: Provider)
    requires IsRun(run, steps) && i < |run|
    ensures Good(p, run[i])
    decreases i
  {
    if i == 0 {
      InitialGood(p, run[0]);
    } else {
      GoodAt(run, steps, i - 1, p);
      NextKeepsGood(run, steps, i - 1, p);
    }
  }

  lemma {:induction false} RunReplays(run: seq<State>, steps: seq<Step>, i: nat)
    requires IsRun(run, steps) && i < |run|
    ensures run[i].current == Replayed(run[i].attempts)
    decreases i
  {
    if i == 0 {
      InitialReplays(run[0]);
    } else {
      RunReplays(run, steps, i - 1);
      NextReplays(run, steps, i - 1);
    }
  }

  lemma InitialReplays(s: State)
    requires s == INITIAL
    ensures s.current == Replayed(s.attempts)
  {
  }

  lemma NextReplays(run: seq<State>, steps: seq<Step>, i: nat)
    requires IsRun(run, steps) && i < |steps| && run[i].current == Replayed(run[i].attempts)
    ensures run[i + 1].current == Replayed(run[i + 1].attempts)
  {
    assert Next(run[i], run[i + 1], steps[i]);
    StepReplays(run[i], run[i + 1], steps[i]);
  }

  lemma StepReplays(s: State, s': State, step: Step)
    requires Next(s, s', step) && s.current == Replayed(s.attempts)
    ensures s'.current == Replayed(s'.attempts)
  {
    if step.ALoad? {
      assert s'.attempts[..|s'.attempts| - 1] == s.attempts;
    }
  }

  lemma InitialGood(p: Provider, s: State)
    requires s == INITIAL
    ensures Good(p, s)
  {
  }

  /**
   Last forwarded wins, in every interleaving and for every provider: what is under way is a subsequence
   of what was forwarded and ends in the last of it; once nothing is under way that one has been tried
   last, and it is the loaded one if its load succeeded; if not, the entry is the one before the attempt.
   */
  lemma LastForwardedWins(run: seq<State>, steps: seq<Step>, i: nat, p: Provider)
    requires IsRun(run, steps) && i < |run|
    ensures EndsAlike(Pipeline(p, run[i]), Of(p, run[i].forwarded))
    ensures run[i].current == Replayed(run[i].attempts)
    ensures Drained(p, run[i]) && Of(p, run[i].forwarded) != [] ==> exists k: nat :: LastWins(p, run[i], k)
  {
    GoodAt(run, steps, i, p);
    RunReplays(run, steps, i);
    var s := run[i];
    if Drained(p, s) && Of(p, s.forwarded) != [] {
      DrainedPipeline(p, s);
      var k := LastTried(s.attempts, p);
      ReplayedLast(s.attempts, p, k);
      assert LastWins(p, s, k);
    }
  }

  /** Attempt `k` is the provider's last, tried its last forwarded configuration, and decided its entry. */
  predicate LastWins(p: Provider, s: State, k: nat) {
    var f := Of(p, s.forwarded);
    && f != [] && LastAttempt(s.attempts, p, k)
    && s.attempts[k].msg.config == f[|f| - 1]
    && (if s.attempts[k].ok then p in s.current && s.current[p] == f[|f| - 1]
        else SameEntry(p, s.current, Replayed(s.attempts[..k])))
  }

  predicate SameEntry(p: Provider, a: map<Provider, Configuration>, b: map<Provider, Configuration>) {
    (p in a <==> p in b) && (p in a && p in b ==> a[p] == b[p])
  }

  lemma DrainedPipeline(p: Provider, s: State)
    requires Drained(p, s)
    ensures Pipeline(p, s) == Of(p, Tried(s.attempts))
  {
    var tried := Of(p, Tried(s.attempts));
    assert tried + [] == tried;
  }

  /** A provider that forwarded nothing has no entry, whatever the others do. */
  lemma NothingForwardedNothingLoaded(run: seq<State>, steps: seq<Step>, i: nat, p: Provider)
    requires IsRun(run, steps) && i < |run| && Of(p, run[i].forwarded) == []
    ensures p !in run[i].current
  {
    GoodAt(run, steps, i, p);
    RunReplays(run, steps, i);
    var s := run[i];
    assert Pipeline(p, s) == [];
    NeverTried(s.attempts, p);
  }

  lemma {:induction false} NeverTried(attempts: seq<Attempt>, p: Provider)
    requires Of(p, Tried(attempts)) == []
    ensures p !in Replayed(attempts)
  {
    if attempts != [] {
      var n := |attempts| - 1;
      var last := attempts[n].msg;
      assert Tried(attempts) == Tried(attempts[..n]) + [last];
      OfAppend(p, Tried(attempts[..n]), [last]);
      NeverTried(attempts[..n], p);
    }
  }

  // ---------- everything under way gets through ----------

  function One<T>(o: Option<T>): nat {
    if o.Some? then 1 else 0
  }

  /** The steps that the messages in a throttle have ahead of them, at most. */
  function ThrottleWork(t: Throttle): nat {
    5 * One(t.received) + 4 * One(t.ring) + 3 * One(t.publishing)
  }

  ghost function ThrottlesWork(throttles: map<Provider, Throttle>): nat
    decreases |throttles|
  {
    if throttles == map[] then 0
    else
      var p :| p in throttles;
      ThrottleWork(throttles[p]) + ThrottlesWork(throttles - {p})
  }

  /** The steps ahead of all messages under way, at most. */
  ghost function Work(s: State): nat {
    6 * One(s.offered) + ThrottlesWork(s.throttles) + 2 * |s.queue| + One(s.loading)
  }

  /** Any provider may be counted first. */
  lemma {:induction false} WorkWithout(throttles: map<Provider, Throttle>, p: Provider)
    requires p in throttles
    ensures ThrottlesWork(throttles) == ThrottleWork(throttles[p]) + ThrottlesWork(throttles - {p})
    decreases |throttles|
  {
    var q :| q in throttles && ThrottlesWork(throttles) == ThrottleWork(throttles[q]) + ThrottlesWork(throttles - {q});
    if q != p {
      WorkWithout(throttles - {q}, p);
      WorkWithout(throttles - {p}, q);
      assert throttles - {q} - {p} == throttles - {p} - {q};
    }
  }

  lemma WorkUpdated(s: State, p: Provider, t: Throttle)
    ensures ThrottlesWork(s.throttles[p := t]) + ThrottleWork(ThrottleOf(s, p)) == ThrottlesWork(s.throttles) + ThrottleWork(t)
  {
    WorkWithout(s.throttles[p := t], p);
    if p in s.throttles {
      WorkWithout(s.throttles, p);
      assert s.throttles[p := t] - {p} == s.throttles - {p};
    } else {
      assert s.throttles[p := t] - {p} == s.throttles;
    }
  }

  /** Every step but the receipt of a message brings some message nearer to its load, or out of the way. */
  lemma StepWorks(s: State, s': State, step: Step)
    requires Next(s, s', step) && !step.APreLoad?
    ensures Work(s') < Work(s)
  {
    match step
    case AHandOver =>
      var msg := s.offered.value;
      WorkUpdated(s, msg.provider, ThrottleOf(s, msg.provider).(received := Some(msg.config)));
    case ARingIn(p) =>
      var t := ThrottleOf(s, p);
      WorkUpdated(s, p, t.(received := None, ring := t.received));
    case ARingOut(p) =>
      var t := ThrottleOf(s, p);
      WorkUpdated(s, p, t.(ring := None, publishing := t.ring));
    case APublish(p) => WorkUpdated(s, p, ThrottleOf(s, p).(publishing := None));
    case ATake =>
    case ALoad(ok) =>
  }

  /** Nothing is under way anywhere. */
  predicate Idle(s: State) {
    && s.offered == None && s.queue == [] && s.loading == None
    && forall p :: p in s.throttles ==> s.throttles[p] == Throttle(None, None, None)
  }

  lemma {:induction false} NoThrottleWork(throttles: map<Provider, Throttle>)
    requires forall p :: p in throttles ==> throttles[p] == Throttle(None, None, None)
    ensures ThrottlesWork(throttles) == 0
    decreases |throttles|
  {
    if throttles != map[] {
      var p :| p in throttles;
      WorkWithout(throttles, p);
      NoThrottleWork(throttles - {p});
    }
  }

  lemma IdleExactly(s: State)
    ensures Idle(s) <==> Work(s) == 0
    ensures Idle(s) ==> forall p :: Drained(p, s)
  {
    if Idle(s) {
      NoThrottleWork(s.throttles);
    } else if p :| p in s.throttles && s.throttles[p] != Throttle(None, None, None) {
      WorkWithout(s.throttles, p);
    }
  }

  /** No deadlock, although the queue is bounded and two sends wait for their receiver. */
  lemma SomeStepEnabled(s: State) returns (step: Step, s': State)
    requires !Idle(s)
    ensures !step.APreLoad? && Next(s, s', step)
  {
    if s.loading.Some? {
      var msg := s.loading.value;
      step := ALoad(true);
      s' := s.(loading := None, current := AfterLoad(s.current, msg, true), attempts := s.attempts + [Attempt(msg, true)]);
    } else if s.queue != [] {
      step, s' := ATake, s.(queue := s.queue[1..], loading := Some(s.queue[0]));
    } else if p :| p in s.throttles && s.throttles[p] != Throttle(None, None, None) {
      step, s' := ThrottleStep(s, p);
    } else {
      var msg := s.offered.value;
      var t := ThrottleOf(s, msg.provider);
      step := AHandOver;
      s' := s.(offered := None, throttles := s.throttles[msg.provider := t.(received := Some(msg.config))]);
    }
  }

  ghost predicate Enabled(s: State, step: Step) {
    exists s' :: Next(s, s', step)
  }

  /** A stage can go on exactly when it has something and the next one has room. */
  lemma StagesEnabledExactly(s: State, p: Provider, ok: bool)
    ensures
      var t := ThrottleOf(s, p);
      && (Enabled(s, ARingIn(p)) <==> t.received.Some?)
      && (Enabled(s, ARingOut(p)) <==> t.ring.Some? && t.publishing == None)
      && (Enabled(s, APublish(p)) <==> t.publishing.Some? && |s.queue| < 100)
    ensures Enabled(s, AHandOver) <==> s.offered.Some? && ThrottleOf(s, s.offered.value.provider).received == None
    ensures Enabled(s, ATake) <==> s.queue != [] && s.loading == None
    ensures Enabled(s, ALoad(ok)) <==> s.loading.Some?
  {
    var t := ThrottleOf(s, p);
    if t.received.Some? {
      assert Next(s, s.(throttles := s.throttles[p := t.(received := None, ring := t.received)]), ARingIn(p));
    }
    if t.ring.Some? && t.publishing == None {
      assert Next(s, s.(throttles := s.throttles[p := t.(ring := None, publishing := t.ring)]), ARingOut(p));
    }
    if t.publishing.Some? && |s.queue| < 100 {
      var queue := s.queue + [Message(p, t.publishing.value)];
      assert Next(s, s.(throttles := s.throttles[p := t.(publishing := None)], queue := queue), APublish(p));
    }
    LoaderEnabled(s, ok);
    HandOverEnabled(s);
  }

  lemma LoaderEnabled(s: State, ok: bool)
    ensures Enabled(s, ATake) <==> s.queue != [] && s.loading == None
    ensures Enabled(s, ALoad(ok)) <==> s.loading.Some?
  {
    if s.queue != [] && s.loading == None {
      assert Next(s, s.(queue := s.queue[1..], loading := Some(s.queue[0])), ATake);
    }
    if s.loading.Some? {
      var msg := s.loading.value;
      var attempts := s.attempts + [Attempt(msg, ok)];
      assert Next(s, s.(loading := None, current := AfterLoad(s.current, msg, ok), attempts := attempts), ALoad(ok));
    }
  }

  lemma HandOverEnabled(s: State)
    ensures Enabled(s, AHandOver) <==> s.offered.Some? && ThrottleOf(s, s.offered.value.provider).received == None
  {
    if s.offered.Some? && ThrottleOf(s, s.offered.value.provider).received == None {
      var msg := s.offered.value;
      var t := ThrottleOf(s, msg.provider).(received := Some(msg.config));
      assert Next(s, s.(offered := None, throttles := s.throttles[msg.provider := t]), AHandOver);
    }
  }

  lemma ThrottleStep(s: State, p: Provider) returns (step: Step, s': State)
    requires p in s.throttles && s.throttles[p] != Throttle(None, None, None) && s.queue == []
    ensures !step.APreLoad? && Next(s, s', step)
  {
    var t := s.throttles[p];
    if t.publishing.Some? {
      step := APublish(p);
      s' := s.(throttles := s.throttles[p := t.(publishing := None)], queue := [Message(p, t.publishing.value)]);
    } else if t.ring.Some? {
      step, s' := ARingOut(p), s.(throttles := s.throttles[p := t.(ring := None, publishing := t.ring)]);
    } else {
      step, s' := ARingIn(p), s.(throttles := s.throttles[p := t.(received := None, ring := t.received)]);
    }
  }

  /**
   When no more messages come in, the pipeline drains, whatever the order of its steps: from state `i` on
   at most Work(run[i]) steps are left, and until the last one another is always possible.
   */
  lemma {:induction false} DrainsInTime(run: seq<State>, steps: seq<Step>, i: nat, j: nat)
    requires IsRun(run, steps) && i <= j < |run|
    requires forall k :: i <= k < j ==> !steps[k].APreLoad?
    ensures j - i + Work(run[j]) <= Work(run[i])
    ensures if Work(run[j]) == 0 then forall p :: Drained(p, run[j])
            else exists step: Step, next :: !step.APreLoad? && Next(run[j], next, step)
    decreases j
  {
    IdleExactly(run[j]);
    if !Idle(run[j]) {
      var step, next := SomeStepEnabled(run[j]);
    }
    if i < j {
      DrainsInTime(run, steps, i, j - 1);
      assert Next(run[j - 1], run[j], steps[j - 1]);
      StepWorks(run[j - 1], run[j], steps[j - 1]);
    }
  }

  // ---------- the last message received ----------

  /** A message for `p` that is not empty. */
  predicate Receipt(step: Step, p: Provider) {
    step.APreLoad? && step.msg.provider == p && step.msg.config != NoConfiguration
  }

  /** Step `k` is the last receipt for `p` before state `i`. */
  predicate LastReceipt(steps: seq<Step>, i: nat, p: Provider, k: nat) {
    && k < i <= |steps| && Receipt(steps[k], p)
    && forall l :: k < l < i ==> !Receipt(steps[l], p)
  }

  predicate IsLoaded(s: State, p: Provider, c: Configuration) {
    p in s.current && s.current[p] == c
  }

  predicate EndsIn(configs: seq<Configuration>, c: Configuration) {
    configs != [] && configs[|configs| - 1] == c
  }

  /**
   What the receipt of any message does when the one before has been handed over: a configuration that
   differs from its provider's loaded one, or whose provider has none, is forwarded; no other message
   changes anything.
   */
  lemma ReceiptForwardsExactly(s: State, s': State, msg: Message)
    requires s.offered == None && Next(s, s', APreLoad(msg))
    ensures msg.config == NoConfiguration ==> s' == s
    ensures msg.config != NoConfiguration ==>
              (s'.forwarded == s.forwarded + [msg] <==> (msg.provider in s.current ==> s.current[msg.provider] != msg.config))
    ensures s'.forwarded != s.forwarded ==> s'.forwarded == s.forwarded + [msg] && s'.offered == Some(msg)
    ensures s' == s.(forwarded := s'.forwarded, offered := s'.offered) && (s'.forwarded == s.forwarded ==> s' == s)
  {
    assert |s.forwarded + [msg]| > |s.forwarded|;
  }

  lemma ReceiptIsPossible(s: State, msg: Message) returns (s': State)
    requires s.offered == None
    ensures Next(s, s', APreLoad(msg))
  {
    s' := if Skipped(s.current, msg) then s else s.(offered := Some(msg), forwarded := s.forwarded + [msg]);
  }

  lemma ForwardedStep(s: State, s': State, step: Step, p: Provider)
    requires Next(s, s', step)
    ensures Of(p, s'.forwarded) ==
            Of(p, s.forwarded)
            + if Receipt(step, p) && (p in s.current ==> s.current[p] != step.msg.config) then [step.msg.config] else []
  {
    if step.APreLoad? {
      OfAppend(p, s.forwarded, [step.msg]);
      OfOne(p, step.msg);
    }
  }

  lemma {:induction false} ForwardedStays(run: seq<State>, steps: seq<Step>, k: nat, i: nat, p: Provider)
    requires IsRun(run, steps) && k <= i < |run|
    requires forall l :: k <= l < i ==> !Receipt(steps[l], p)
    ensures Of(p, run[i].forwarded) == Of(p, run[k].forwarded)
    decreases i
  {
    if k < i {
      ForwardedStays(run, steps, k, i - 1, p);
      assert Next(run[i - 1], run[i], steps[i - 1]);
      ForwardedStep(run[i - 1], run[i], steps[i - 1], p);
    }
  }

  /** What was forwarded when nothing is received after step `k`. */
  lemma ForwardedAtLast(run: seq<State>, steps: seq<Step>, i: nat, p: Provider, k: nat)
    requires IsRun(run, steps) && LastReceipt(steps, i, p, k)
    ensures Of(p, run[i].forwarded) == Of(p, run[k].forwarded)
                                       + if IsLoaded(run[k], p, steps[k].msg.config) then [] else [steps[k].msg.config]
  {
    assert Next(run[k], run[k + 1], steps[k]);
    ForwardedStep(run[k], run[k + 1], steps[k], p);
    ForwardedStays(run, steps, k + 1, i, p);
  }

  /**
   Once nothing is under way and the last load succeeded, the entry is the last configuration received
   exactly when on its arrival it was not the one loaded, or was the last one forwarded. One that equals what
   is loaded on its arrival is skipped, and a message under way may still replace it.
   */
  lemma LastReceivedExactly(run: seq<State>, steps: seq<Step>, i: nat, p: Provider, k: nat, a: nat)
    requires IsRun(run, steps) && LastReceipt(steps, i, p, k) && Drained(p, run[i])
    requires LastAttempt(run[i].attempts, p, a) && run[i].attempts[a].ok
    ensures p in run[i].current
    ensures run[i].current[p] == steps[k].msg.config
       <==> || p !in run[k].current || run[k].current[p] != steps[k].msg.config
            || EndsIn(Of(p, run[k].forwarded), steps[k].msg.config)
  {
    var f := Of(p, run[k].forwarded);
    ForwardedAtLast(run, steps, i, p, k);
    if f == [] {
      NothingForwardedNothingLoaded(run, steps, k, p);
    } else {
      assert f + [] == f;
    }
    LastForwardedWins(run, steps, i, p);
    var b: nat :| LastWins(p, run[i], b);
    assert a == b;
  }

  // ---------- a run that ends in another configuration ----------

  /** A state with one provider `p`, an idle loader and nothing offered. */
  function Single(p: Provider, t: Throttle, current: map<Provider, Configuration>,
                  forwarded: seq<Message>, attempts: seq<Attempt>): State
  {
    State(None, map[p := t], [], None, current, forwarded, attempts)
  }

  lemma Extend(run: seq<State>, steps: seq<Step>, step: Step, next: State)
    returns (run': seq<State>, steps': seq<Step>)
    requires IsRun(run, steps) && Next(run[|steps|], next, step)
    ensures IsRun(run', steps') && steps' == steps + [step] && run' == run + [next]
  {
    run', steps' := run + [next], steps + [step];
    forall i | 0 <= i < |steps'| ensures Next(run'[i], run'[i + 1], steps'[i]) {
      if i < |steps| {
        assert Next(run[i], run[i + 1], steps[i]);
      }
    }
  }

  /** A message is received, forwarded and handed to the provider's goroutine. */
  lemma Arrive(run: seq<State>, steps: seq<Step>, msg: Message) returns (run': seq<State>, steps': seq<Step>)
    requires IsRun(run, steps)
    requires run[|steps|].offered == None && ThrottleOf(run[|steps|], msg.provider).received == None
    requires !Skipped(run[|steps|].current, msg)
    ensures IsRun(run', steps') && steps' == steps + [APreLoad(msg), AHandOver]
    ensures
      var s := run[|steps|];
      var t := ThrottleOf(s, msg.provider);
      run'[|steps'|] == s.(forwarded := s.forwarded + [msg],
                           throttles := s.throttles[msg.provider := t.(received := Some(msg.config))])
    ensures run <= run'
  {
    var s := run[|steps|];
    var t := ThrottleOf(s, msg.provider);
    var offered := s.(offered := Some(msg), forwarded := s.forwarded + [msg]);
    run', steps' := Extend(run, steps, APreLoad(msg), offered);
    var next := s.(forwarded := s.forwarded + [msg],
                   throttles := s.throttles[msg.provider := t.(received := Some(msg.config))]);
    run', steps' := Extend(run', steps', AHandOver, next);
  }

  function ThroughRing(p: Provider): seq<Step> {
    [ARingIn(p), ARingOut(p), APublish(p)]
  }

  lemma PassRing(run: seq<State>, steps: seq<Step>, p: Provider, c: Configuration, idle: State)
    returns (run': seq<State>, steps': seq<Step>)
    requires IsRun(run, steps)
    requires idle.throttles == map[p := Throttle(None, None, None)] && idle.queue == []
    requires run[|steps|] == idle.(throttles := map[p := Throttle(Some(c), None, None)])
    ensures IsRun(run', steps') && steps' == steps + ThroughRing(p) && run <= run'
    ensures run'[|steps'|] == idle.(queue := [Message(p, c)])
  {
    var inRing := idle.(throttles := map[p := Throttle(None, Some(c), None)]);
    var outOfRing := idle.(throttles := map[p := Throttle(None, None, Some(c))]);
    run', steps' := Extend(run, steps, ARingIn(p), inRing);
    run', steps' := Extend(run', steps', ARingOut(p), outOfRing);
    run', steps' := Extend(run', steps', APublish(p), idle.(queue := [Message(p, c)]));
  }

  lemma PassLoader(run: seq<State>, steps: seq<Step>, msg: Message, idle: State)
    returns (run': seq<State>, steps': seq<Step>)
    requires IsRun(run, steps)
    requires idle.queue == [] && idle.loading == None && run[|steps|] == idle.(queue := [msg])
    ensures IsRun(run', steps') && steps' == steps + [ATake, ALoad(true)] && run <= run'
    ensures run'[|steps'|] == idle.(current := idle.current[msg.provider := msg.config],
                                    attempts := idle.attempts + [Attempt(msg, true)])
  {
    run', steps' := Extend(run, steps, ATake, idle.(loading := Some(msg)));
    var loaded := idle.(current := idle.current[msg.provider := msg.config],
                        attempts := idle.attempts + [Attempt(msg, true)]);
    run', steps' := Extend(run', steps', ALoad(true), loaded);
  }

  /** A received configuration passes the ring and the queue and is loaded. */
  lemma Travel(run: seq<State>, steps: seq<Step>, p: Provider, c: Configuration, current: map<Provider, Configuration>,
               forwarded: seq<Message>, attempts: seq<Attempt>)
    returns (run': seq<State>, steps': seq<Step>)
    requires IsRun(run, steps)
    requires run[|steps|] == Single(p, Throttle(Some(c), None, None), current, forwarded, attempts)
    ensures IsRun(run', steps') && steps' == steps + ThroughRing(p) + [ATake, ALoad(true)] && run <= run'
    ensures run'[|steps'|] == Single(p, Throttle(None, None, None), current[p := c], forwarded,
                                     attempts + [Attempt(Message(p, c), true)])
  {
    var idle := Single(p, Throttle(None, None, None), current, forwarded, attempts);
    run', steps' := PassRing(run, steps, p, c, idle);
    run', steps' := PassLoader(run', steps', Message(p, c), idle);
  }

  /**
   The last message received may lose: configuration 1 is loaded, 2 is forwarded, 1 arrives again and is
   skipped because it is still the loaded one, and then 2 is loaded and stays.
   */
  lemma LastReceivedMayLose(p: Provider) returns (run: seq<State>, steps: seq<Step>, k: nat)
    ensures IsRun(run, steps) && LastReceipt(steps, |steps|, p, k) && Drained(p, run[|steps|])
    ensures steps[k] == APreLoad(Message(p, Configuration(1)))
    ensures run[|steps|].current == map[p := Configuration(2)]
  {
    var c1, c2 := Configuration(1), Configuration(2);
    var m1, m2 := Message(p, c1), Message(p, c2);
    run, steps := Arrive([INITIAL], [], m1);
    assert run[|steps|] == Single(p, Throttle(Some(c1), None, None), map[], [m1], []);
    run, steps := Travel(run, steps, p, c1, map[], [m1], []);
    run, steps := Arrive(run, steps, m2);
    k := |steps|;
    var s := run[k];
    var attempts := [Attempt(m1, true)];
    assert s == Single(p, Throttle(Some(c2), None, None), map[p := c1], [m1, m2], attempts);
    run, steps := Extend(run, steps, APreLoad(m1), s);
    run, steps := Travel(run, steps, p, c2, map[p := c1], [m1, m2], attempts);
    assert run[|steps|].current == map[p := c2];
  }
}
