/**
 The retry middleware (middlewares/retry.go), the error handler that records network errors
 (server/errorhandler.go) and the listener that logs the retry count (accesslog/save_retries.go).
 */
module Retry {
  import opened Sequences
  import opened Wrappers

  /** What a handler does during one attempt: record a network error, or write to its response writer. */
  datatype Action = Record | WriteHeader(code: int) | Write(body: string)

  // ---------- what an attempt lets through ----------

  predicate Recorded(actions: seq<Action>) {
    Record in actions
  }

  function Writes(actions: seq<Action>): seq<Action> {
    if actions == [] then []
    else (if actions[0].Record? then [] else [actions[0]]) + Writes(actions[1..])
  }

  /** The writes before the first recorded error. */
  function Leak(actions: seq<Action>): seq<Action> {
    if actions == [] || actions[0].Record? then [] else [actions[0]] + Leak(actions[1..])
  }

  /** What the suppressing writer passes on, starting with the error flag `occurred`. */
  function Passed(actions: seq<Action>, exhausted: bool, occurred: bool): seq<Action> {
    if actions == [] then []
    else if actions[0].Record? then Passed(actions[1..], exhausted, true)
    else (if occurred && !exhausted then [] else [actions[0]]) + Passed(actions[1..], exhausted, occurred)
  }

  /** The last attempt passes all its writes; another one leaks what it wrote before its error. */
  lemma {:induction false} PassedMeaning(actions: seq<Action>, exhausted: bool, occurred: bool)
    ensures exhausted ==> Passed(actions, exhausted, occurred) == Writes(actions)
    ensures !exhausted && occurred ==> Passed(actions, exhausted, occurred) == []
    ensures !exhausted && !occurred ==>
              Passed(actions, exhausted, occurred) == if Recorded(actions) then Leak(actions) else Writes(actions)
  {
    if actions != [] {
      assert actions == [actions[0]] + actions[1..];
      PassedMeaning(actions[1..], exhausted, occurred || actions[0].Record?);
    }
  }

  lemma WritesStep(actions: seq<Action>)
    requires actions != []
    ensures Writes(actions) == if actions[0].Record? then Writes(actions[1..]) else [actions[0]] + Writes(actions[1..])
  {
    var rest := Writes(actions[1..]);
    assert [] + rest == rest;
  }

  lemma {:induction false} WritesInOrder(actions: seq<Action>)
    ensures Sub(Writes(actions), actions)
  {
    if actions != [] {
      WritesInOrder(actions[1..]);
      WritesStep(actions);
      var rest := Writes(actions[1..]);
      if !actions[0].Record? {
        assert ([actions[0]] + rest)[1..] == rest;
      }
    }
  }

  lemma {:induction false} WritesCount(actions: seq<Action>, a: Action)
    ensures multiset(Writes(actions))[a] == if a.Record? then 0 else multiset(actions)[a]
  {
    if actions != [] {
      WritesCount(actions[1..], a);
      WritesStep(actions);
      CountFirst(actions, a);
      var rest := Writes(actions[1..]);
      if !actions[0].Record? {
        CountFirst([actions[0]] + rest, a);
        assert ([actions[0]] + rest)[1..] == rest;
      }
    }
  }

  /** The writes are all actions that are no records, in order. */
  lemma WritesExactly(actions: seq<Action>, a: Action)
    ensures Sub(Writes(actions), actions)
    ensures multiset(Writes(actions))[a] == if a.Record? then 0 else multiset(actions)[a]
  {
    WritesInOrder(actions);
    WritesCount(actions, a);
  }

  /** What leaks is the longest beginning of the actions without a record. */
  lemma {:induction false} LeakExactly(actions: seq<Action>)
    ensures Leak(actions) <= actions && Record !in Leak(actions)
    ensures |Leak(actions)| == |actions| || actions[|Leak(actions)|] == Record
  {
    if actions != [] && !actions[0].Record? {
      LeakExactly(actions[1..]);
      assert actions == [actions[0]] + actions[1..];
    }
  }

  // ---------- writers and the shared flag ----------

  class ResponseWriter {
    var out: seq<Action>

    constructor ()
      ensures out == []
    {
      out := [];
    }

    method Emit(a: Action)
      modifies this
      ensures out == old(out) + [a]
    {
      out := out + [a];
    }
  }

  /** The boolean behind the pointer in the request context. */
  class NetErrorFlag {
    var occurred: bool

    constructor ()
      ensures !occurred
    {
      occurred := false;
    }

    method Record()
      modifies this
      ensures occurred
    {
      occurred := true;
    }
  }

  class RetryResponseWriter {
    const responseWriter: ResponseWriter
    const attemptsExhausted: bool
    const netErrorOccurred: NetErrorFlag

    constructor (rw: ResponseWriter, attemptsExhausted: bool, netErrorOccurred: NetErrorFlag)
      ensures responseWriter == rw && this.attemptsExhausted == attemptsExhausted
      ensures this.netErrorOccurred == netErrorOccurred
    {
      responseWriter, this.attemptsExhausted, this.netErrorOccurred := rw, attemptsExhausted, netErrorOccurred;
    }

    predicate ShouldRetry()
      reads this, netErrorOccurred
    {
      netErrorOccurred.occurred && !attemptsExhausted
    }

    /** `Write` and `WriteHeader`. */
    method Emit(a: Action)
      requires !a.Record?
      modifies responseWriter
      ensures responseWriter.out == old(responseWriter.out) + Passed([a], attemptsExhausted, netErrorOccurred.occurred)
      ensures responseWriter.out == old(responseWriter.out) + if netErrorOccurred.occurred && !attemptsExhausted then [] else [a]
    {
      assert [a][1..] == [];
      if ShouldRetry() {
        return;
      }
      responseWriter.Emit(a);
    }
  }

  /** A handler at work: its actions one by one against the suppressing writer and the flag. */
  method Serve(actions: seq<Action>, w: RetryResponseWriter)
    modifies w.responseWriter, w.netErrorOccurred
    ensures w.responseWriter.out
            == old(w.responseWriter.out) + Passed(actions, w.attemptsExhausted, old(w.netErrorOccurred.occurred))
    ensures w.netErrorOccurred.occurred == (old(w.netErrorOccurred.occurred) || Recorded(actions))
  {
    ghost var exhausted, first := w.attemptsExhausted, w.netErrorOccurred.occurred;
    ghost var goal := w.responseWriter.out + Passed(actions, exhausted, first);
    assert actions[0..] == actions;
    for i := 0 to |actions|
      invariant w.responseWriter.out + Passed(actions[i..], exhausted, w.netErrorOccurred.occurred) == goal
      invariant w.netErrorOccurred.occurred == (first || Recorded(actions[..i]))
    {
      PassedStep(actions, i, exhausted, w.netErrorOccurred.occurred, w.responseWriter.out);
      if actions[i].Record? {
        w.netErrorOccurred.Record();
      } else {
        w.Emit(actions[i]);
      }
    }
    assert actions[..|actions|] == actions && actions[|actions|..] == [];
  }

  lemma PassedStep(actions: seq<Action>, i: nat, exhausted: bool, occurred: bool, out: seq<Action>)
    requires i < |actions|
    ensures actions[..i + 1] == actions[..i] + [actions[i]]
    ensures
      var a, rest := actions[i], actions[i + 1..];
      out + Passed(actions[i..], exhausted, occurred)
      == if a.Record? then out + Passed(rest, exhausted, true)
         else out + Passed([a], exhausted, occurred) + Passed(rest, exhausted, occurred)
  {
    var a, rest := actions[i], actions[i + 1..];
    assert actions[i..][1..] == rest && [a][1..] == [];
    if !a.Record? {
      assert Passed([a], exhausted, occurred) == if occurred && !exhausted then [] else [a];
      Assoc(out, Passed([a], exhausted, occurred), Passed(rest, exhausted, occurred));
    }
  }

  // ---------- the error handler ----------

  datatype Failure = Timeout | OtherNetError | Eof | OtherError

  const INTERNAL_SERVER_ERROR := 500
  const BAD_GATEWAY := 502
  const GATEWAY_TIMEOUT := 504

  function StatusOf(e: Failure): int {
    match e
    case Timeout => GATEWAY_TIMEOUT
    case OtherNetError => BAD_GATEWAY
    case Eof => BAD_GATEWAY
    case OtherError => INTERNAL_SERVER_ERROR
  }

  function StatusText(code: int): string {
    if code == GATEWAY_TIMEOUT then "Gateway Timeout"
    else if code == BAD_GATEWAY then "Bad Gateway"
    else "Internal Server Error"
  }

  /** `RecordingErrorHandler.ServeHTTP`, in its order: the error is recorded before anything is written. */
  method HandleError(e: Failure, w: RetryResponseWriter)
    modifies w.responseWriter, w.netErrorOccurred
    ensures w.responseWriter.out
            == old(w.responseWriter.out) + Passed(ErrorActions(e), w.attemptsExhausted, old(w.netErrorOccurred.occurred))
    ensures w.netErrorOccurred.occurred == (old(w.netErrorOccurred.occurred) || e != OtherError)
  {
    if e != OtherError {
      w.netErrorOccurred.Record();
    }
    var statusCode := StatusOf(e);
    var header, body := WriteHeader(statusCode), Write(StatusText(statusCode));
    PassedOfTwo(header, body, w.attemptsExhausted, w.netErrorOccurred.occurred);
    assert e != OtherError ==> ErrorActions(e)[1..] == [header, body];
    assert e == OtherError ==> ErrorActions(e) == [header, body];
    ghost var was, exhausted, occurred := w.responseWriter.out, w.attemptsExhausted, w.netErrorOccurred.occurred;
    w.Emit(header);
    w.Emit(body);
    assert w.responseWriter.out == was + (Passed([header], exhausted, occurred) + Passed([body], exhausted, occurred));
  }

  lemma PassedOfTwo(a: Action, b: Action, exhausted: bool, occurred: bool)
    requires !a.Record? && !b.Record?
    ensures Passed([a, b], exhausted, occurred) == Passed([a], exhausted, occurred) + Passed([b], exhausted, occurred)
  {
    assert [a, b][1..] == [b] && [a][1..] == [];
  }

  function ErrorActions(e: Failure): seq<Action> {
    (if e != OtherError then [Record] else []) + [WriteHeader(StatusOf(e)), Write(StatusText(StatusOf(e)))]
  }

  /** What the client is told: 504 for a timeout, 502 for another network error or EOF, 500 for any other error. */
  lemma ErrorAnswers(e: Failure)
    ensures
      Writes(ErrorActions(e)) ==
      match e
      case Timeout => [WriteHeader(504), Write("Gateway Timeout")]
      case OtherNetError => [WriteHeader(502), Write("Bad Gateway")]
      case Eof => [WriteHeader(502), Write("Bad Gateway")]
      case OtherError => [WriteHeader(500), Write("Internal Server Error")]
  {
    ErrorActionsRecordFirst(e);
  }

  /** The error handler never leaks, and exactly the network errors and EOF ask for a retry. */
  lemma ErrorActionsRecordFirst(e: Failure)
    ensures RecordsFirst(ErrorActions(e))
    ensures Recorded(ErrorActions(e)) <==> e != OtherError
    ensures Writes(ErrorActions(e)) == [WriteHeader(StatusOf(e)), Write(StatusText(StatusOf(e)))]
  {
    var header, body := WriteHeader(StatusOf(e)), Write(StatusText(StatusOf(e)));
    var tail := [header, body];
    assert tail[1..] == [body] && [body][1..] == [];
    assert Writes([body]) == [body] && Writes(tail) == tail;
    if e != OtherError {
      assert ErrorActions(e)[0] == Record && ErrorActions(e)[1..] == tail;
      assert Writes(ErrorActions(e)) == Writes(tail);
    } else {
      assert ErrorActions(e) == tail;
    }
  }

  // ---------- the retry loop ----------

  /** The actions of each attempt, counted from 1. */
  type Handler = nat -> seq<Action>

  /** The attempt after which the loop ends, when it has come to attempt `k`. */
  function Final(h: Handler, attempts: int, k: nat): nat
    decreases attempts - k
  {
    if Recorded(h(k)) && k < attempts then Final(h, attempts, k + 1) else k
  }

  /** What the client gets from attempt `k` on. */
  function Output(h: Handler, attempts: int, k: nat): seq<Action>
    decreases attempts - k
  {
    Passed(h(k), k >= attempts, false)
    + if Recorded(h(k)) && k < attempts then Output(h, attempts, k + 1) else []
  }

  function Range(from: nat, to: nat): seq<int> {
    if from <= to then seq(to + 1 - from, i => from + i) else []
  }

  class RetryListeners {
    /** The attempts each listener was told about. */
    var seen: seq<seq<int>>

    constructor (n: nat)
      ensures seen == seq(n, _ => [])
    {
      seen := seq(n, _ => []);
    }

    method Retried(attempt: int)
      modifies this
      ensures |seen| == |old(seen)|
      ensures forall i :: 0 <= i < |seen| ==> seen[i] == old(seen)[i] + [attempt]
    {
      for i := 0 to |seen|
        invariant |seen| == |old(seen)|
        invariant forall k :: 0 <= k < |seen| ==> seen[k] == old(seen)[k] + if k < i then [attempt] else []
      {
        seen := seen[i := seen[i] + [attempt]];
      }
    }
  }

  /** The access log entry of a request. */
  class LogDataTable {
    var retryAttempts: Option<int>

    constructor ()
      ensures retryAttempts == None
    {
      retryAttempts := None;
    }

    /** `SaveRetries.Retried`. */
    method Retried(attempt: int)
      modifies this
      ensures retryAttempts == Some(if attempt > 0 then attempt - 1 else attempt)
    {
      var count := attempt;
      if count > 0 {
        count := count - 1;
      }
      retryAttempts := Some(count);
    }
  }

  class RetryMiddleware {
    const attempts: int
    const listeners: RetryListeners
    const table: LogDataTable

    constructor (attempts: int, listeners: RetryListeners, table: LogDataTable)
      ensures this.attempts == attempts && this.listeners == listeners && this.table == table
    {
      this.attempts, this.listeners, this.table := attempts, listeners, table;
    }

    /** One round of the loop, with a fresh flag and writer; it says whether another one follows. */
    method Attempt(rw: ResponseWriter, actions: seq<Action>, attempt: nat) returns (again: bool)
      modifies rw
      ensures rw.out == old(rw.out) + Passed(actions, attempt >= attempts, false)
      ensures again <==> Recorded(actions) && attempt < attempts
    {
      var flag := new NetErrorFlag();
      var w := new RetryResponseWriter(rw, attempt >= attempts, flag);
      Serve(actions, w);
      again := w.ShouldRetry();
    }

    method ServeHTTP(rw: ResponseWriter, next: Handler) returns (last: nat)
      modifies rw, listeners, table
      ensures last == Final(next, attempts, 1)
      ensures rw.out == old(rw.out) + Output(next, attempts, 1)
      ensures Told(old(listeners.seen), listeners.seen, last)
      ensures table.retryAttempts == if last >= 2 then Some(last - 1) else old(table.retryAttempts)
    {
      ghost var goal, told := rw.out + Output(next, attempts, 1), listeners.seen;
      var attempt: nat := 1;
      while true
        invariant attempt >= 1
        invariant Final(next, attempts, attempt) == Final(next, attempts, 1)
        invariant rw.out + Output(next, attempts, attempt) == goal
        invariant Told(told, listeners.seen, attempt)
        invariant table.retryAttempts == if attempt >= 2 then Some(attempt - 1) else old(table.retryAttempts)
        decreases attempts - attempt
      {
        OutputStep(next, attempts, attempt, rw.out);
        var again := Attempt(rw, next(attempt), attempt);
        if !again {
          break;
        }
        attempt := attempt + 1;
        ghost var before := listeners.seen;
        listeners.Retried(attempt);
        ToldStep(told, before, listeners.seen, attempt);
        table.Retried(attempt);
      }
      last := attempt;
    }
  }

  /** Each listener was told about the attempts from 2 to `last`, in order. */
  ghost predicate Told(before: seq<seq<int>>, seen: seq<seq<int>>, last: nat) {
    |seen| == |before| && forall i :: 0 <= i < |seen| ==> seen[i] == before[i] + Range(2, last)
  }

  lemma ToldStep(before: seq<seq<int>>, seen: seq<seq<int>>, seen': seq<seq<int>>, attempt: nat)
    requires attempt >= 2 && Told(before, seen, attempt - 1) && |seen'| == |seen|
    requires forall i :: 0 <= i < |seen'| ==> seen'[i] == seen[i] + [attempt]
    ensures Told(before, seen', attempt)
  {
    assert Range(2, attempt) == Range(2, attempt - 1) + [attempt];
    forall i | 0 <= i < |seen'| ensures seen'[i] == before[i] + Range(2, attempt) {
      Assoc(before[i], Range(2, attempt - 1), [attempt]);
    }
  }

  lemma OutputStep(h: Handler, attempts: int, k: nat, out: seq<Action>)
    ensures out + Output(h, attempts, k)
            == out + Passed(h(k), k >= attempts, false)
               + if Recorded(h(k)) && k < attempts then Output(h, attempts, k + 1) else []
  {
    Assoc(out, Passed(h(k), k >= attempts, false), if Recorded(h(k)) && k < attempts then Output(h, attempts, k + 1) else []);
  }

  // ---------- what the client gets ----------

  /** A handler that records an error records it before its first write. */
  predicate RecordsFirst(actions: seq<Action>) {
    Recorded(actions) ==> Leak(actions) == []
  }

  /** The final attempt: at most max(1, attempts) run, each one before it recorded an error. */
  lemma {:induction false} FinalAttempt(h: Handler, attempts: int, k: nat)
    requires k >= 1
    ensures
      var last := Final(h, attempts, k);
      && k <= last && (last == k || last <= attempts)
      && (forall i :: k <= i < last ==> Recorded(h(i)))
      && (!Recorded(h(last)) || last >= attempts)
    decreases attempts - k
  {
    if Recorded(h(k)) && k < attempts {
      FinalAttempt(h, attempts, k + 1);
    }
  }

  /** What the attempts before the final one leaked, in order. */
  function Leaked(h: Handler, attempts: int, k: nat): seq<Action>
    decreases attempts - k
  {
    if Recorded(h(k)) && k < attempts then Leak(h(k)) + Leaked(h, attempts, k + 1) else []
  }

  lemma {:induction false} OutputOfFinal(h: Handler, attempts: int, k: nat)
    ensures Output(h, attempts, k) == Leaked(h, attempts, k) + Writes(h(Final(h, attempts, k)))
    decreases attempts - k
  {
    PassedMeaning(h(k), k >= attempts, false);
    if Recorded(h(k)) && k < attempts {
      OutputOfFinal(h, attempts, k + 1);
      Assoc(Leak(h(k)), Leaked(h, attempts, k + 1), Writes(h(Final(h, attempts, k + 1))));
    }
  }

  lemma {:induction false} LeakedNothing(h: Handler, attempts: int, k: nat)
    requires k >= 1
    ensures Leaked(h, attempts, k) == [] <==> forall i :: k <= i < Final(h, attempts, k) ==> Leak(h(i)) == []
    decreases attempts - k
  {
    if Recorded(h(k)) && k < attempts {
      LeakedNothing(h, attempts, k + 1);
      FinalAttempt(h, attempts, k + 1);
      assert Final(h, attempts, k) == Final(h, attempts, k + 1) > k;
    }
  }

  /**
   The client gets exactly the writes of the final attempt if and only if no attempt before it wrote
   anything ahead of its error.
   */
  lemma ClientSeesFinalAttempt(h: Handler, attempts: int)
    ensures
      var last := Final(h, attempts, 1);
      && 1 <= last && (last == 1 || last <= attempts)
      && (forall i :: 1 <= i < last ==> Recorded(h(i)))
      && (!Recorded(h(last)) || last >= attempts)
      && (Output(h, attempts, 1) == Writes(h(last)) <==> forall i :: 1 <= i < last ==> Leak(h(i)) == [])
  {
    FinalAttempt(h, attempts, 1);
    OutputOfFinal(h, attempts, 1);
    LeakedNothing(h, attempts, 1);
    assert Leaked(h, attempts, 1) == [] ==> Output(h, attempts, 1) == Writes(h(Final(h, attempts, 1)));
    assert |Output(h, attempts, 1)| == |Leaked(h, attempts, 1)| + |Writes(h(Final(h, attempts, 1)))|;
  }

  /** So it does for every handler that records first, such as one that fails through the error handler. */
  lemma RecordingHandlersNeverLeak(h: Handler, attempts: int)
    requires forall i :: i >= 1 ==> RecordsFirst(h(i))
    ensures Output(h, attempts, 1) == Writes(h(Final(h, attempts, 1)))
  {
    ClientSeesFinalAttempt(h, attempts);
  }
}
