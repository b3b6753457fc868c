/**
 Transactions of the clustered datastore (cluster/datastore.go): any number of nodes share one
 serialised object through a key-value store, and update it under a remote lock.
 */
module ClusterDatastore {
  import opened Wrappers

  /** A marshalled object. */
  type Bytes = string

  /** What the store holds under the datastore's prefix. */
  datatype KV = KV(content: Option<Bytes>, lock: Option<string>)

  /** The exported part of a node's `Metadata`. */
  datatype Meta = Meta(content: Bytes, lock: string)

  function Current(kv: KV): Bytes {
    if kv.content.Some? then kv.content.value else ""
  }

  /** `Load`: Object is cleared before it is filled; Lock keeps its value when the store has none. */
  function Loaded(meta: Meta, kv: KV): Meta {
    Meta(Current(kv), if kv.lock.Some? then kv.lock.value else meta.lock)
  }

  // ---------- the objects of one node ----------

  class KvStore {
    var content: Option<Bytes>
    var lock: Option<string>

    constructor (content: Option<Bytes>, lock: Option<string>)
      ensures this.content == content && this.lock == lock
    {
      this.content, this.lock := content, lock;
    }

    ghost function Value(): KV
      reads this
    {
      KV(content, lock)
    }
  }

  class Datastore {
    var content: Bytes
    var lock: string

    constructor ()
      ensures Value() == Meta("", "")
    {
      content, lock := "", "";
    }

    ghost function Value(): Meta
      reads this
    {
      Meta(content, lock)
    }

    method Load(kv: KvStore)
      modifies this
      ensures Value() == Loaded(old(Value()), kv.Value())
      ensures content == (if kv.content.Some? then kv.content.value else "")
      ensures lock == if kv.lock.Some? then kv.lock.value else old(lock)
    {
      content := "";
      if kv.content.Some? {
        content := kv.content.value;
      }
      if kv.lock.Some? {
        lock := kv.lock.value;
      }
    }

    /** The retry of Begin, once the lock is held: reload until the local Lock is the transaction's id. */
    method SyncWithStore(kv: KvStore, id: string) returns (begun: Bytes)
      requires kv.lock == Some(id)
      modifies this
      ensures lock == id && begun == content
      ensures Value() == if old(lock) == id then old(Value()) else Loaded(old(Value()), kv.Value())
      ensures old(lock) != id ==> begun == if kv.content.Some? then kv.content.value else ""
    {
      while lock != id
        invariant Value() == old(Value()) || (old(lock) != id && Value() == Loaded(old(Value()), kv.Value()))
        decreases lock != id
      {
        Load(kv);
      }
      begun := content;
    }
  }

  class Transaction {
    const datastore: Datastore
    const id: string
    var dirty: bool

    constructor (datastore: Datastore, id: string)
      ensures this.datastore == datastore && this.id == id && !dirty
    {
      this.datastore, this.id, dirty := datastore, id, false;
    }

    /** `Commit`, up to the release of the remote lock; a used transaction writes nothing. */
    method Commit(kv: KvStore, marshalled: Bytes) returns (ok: bool)
      modifies this`dirty, datastore, kv
      ensures ok <==> !old(dirty)
      ensures dirty
      ensures !ok ==> kv.Value() == old(kv.Value()) && datastore.Value() == old(datastore.Value())
      ensures ok ==> datastore.Value() == Meta(marshalled, old(datastore.lock))
                     && kv.Value() == KV(Some(marshalled), Some(old(datastore.lock)))
    {
      if dirty {
        return false;
      }
      datastore.content := marshalled;
      kv.content, kv.lock := Some(datastore.content), Some(datastore.lock);
      dirty := true;
      return true;
    }
  }

  // ---------- all nodes together ----------

  /** Begin asked for the lock; has it; returned; Commit stored; Commit released the lock. */
  datatype Phase = Waiting | Locked | Open | Stored | Done

  /** `base` is the serialised object the transaction began with, from phase Open on. */
  datatype Txn = Txn(node: nat, phase: Phase, base: Bytes)

  datatype Commit = Commit(id: string, base: Bytes, value: Bytes)

  /** `seen` are the lock values that exist or existed anywhere; fresh ids are outside of it. */
  datatype State = State(kv: KV, nodes: map<nat, Meta>, txns: map<string, Txn>, holder: Option<string>,
                         seen: set<string>, commits: seq<Commit>)

  datatype Step =
    | AJoin(node: nat)
    | AReload(node: nat)
    | ARequest(node: nat, id: string)
    | AAcquire(id: string)
    | ASync(id: string)
    | AStore(id: string, value: Bytes)
    | AUnlock(id: string, clear: bool)
    | ACommitAgain(id: string, value: Bytes)

  predicate Holding(t: Txn) {
    t.phase.Locked? || t.phase.Open? || t.phase.Stored?
  }

  predicate Init(s: State) {
    && s.txns == map[] && s.holder == None && s.commits == []
    && "" in s.seen
    && (s.kv.lock.Some? ==> s.kv.lock.value in s.seen)
    && (forall n :: n in s.nodes ==> s.nodes[n].lock in s.seen)
  }

  predicate Join(s: State, s': State, node: nat) {
    && node !in s.nodes
    && s' == s.(nodes := s.nodes[node := Meta("", "")])
  }

  /** A watch event or a retry of Begin; Commit keeps the local lock until it has unlocked the remote one. */
  predicate Reload(s: State, s': State, node: nat) {
    && node in s.nodes
    && (forall id :: id in s.txns && s.txns[id].node == node ==> s.txns[id].phase != Stored)
    && s' == s.(nodes := s.nodes[node := Loaded(s.nodes[node], s.kv)])
  }

  predicate Request(s: State, s': State, node: nat, id: string) {
    && node in s.nodes && id !in s.seen
    && s' == s.(txns := s.txns[id := Txn(node, Waiting, "")], seen := s.seen + {id})
  }

  /** The remote lock is exclusive, and taking it writes the id under the lock key. */
  predicate Acquire(s: State, s': State, id: string) {
    && id in s.txns && s.txns[id].phase == Waiting && s.holder == None
    && s' == s.(holder := Some(id), kv := s.kv.(lock := Some(id)),
                txns := s.txns[id := s.txns[id].(phase := Locked)])
  }

  /** Begin sees its own id in the local Lock and returns the local object. */
  predicate Sync(s: State, s': State, id: string) {
    && id in s.txns && s.txns[id].phase == Locked
    && var node := s.txns[id].node;
    && node in s.nodes && s.nodes[node].lock == id
    && s' == s.(txns := s.txns[id := Txn(node, Open, s.nodes[node].content)])
  }

  predicate Store(s: State, s': State, id: string, value: Bytes) {
    && id in s.txns && s.txns[id].phase == Open
    && var t := s.txns[id];
    && t.node in s.nodes
    && var meta := s.nodes[t.node].(content := value);
    && s' == s.(nodes := s.nodes[t.node := meta], kv := KV(Some(meta.content), Some(meta.lock)),
                txns := s.txns[id := t.(phase := Stored)], commits := s.commits + [Commit(id, t.base, value)])
  }

  /** Unlocking may leave or remove the value of the lock key. */
  predicate Unlock(s: State, s': State, id: string, clear: bool) {
    && id in s.txns && s.txns[id].phase == Stored
    && s' == s.(holder := None, kv := if clear then s.kv.(lock := None) else s.kv,
                txns := s.txns[id := s.txns[id].(phase := Done)])
  }

  /** A used transaction only reports an error. */
  predicate CommitAgain(s: State, s': State, id: string, value: Bytes) {
    id in s.txns && s.txns[id].phase == Done && s' == s
  }

  predicate Next(s: State, s': State, step: Step) {
    match step
    case AJoin(node) => Join(s, s', node)
    case AReload(node) => Reload(s, s', node)
    case ARequest(node, id) => Request(s, s', node, id)
    case AAcquire(id) => Acquire(s, s', id)
    case ASync(id) => Sync(s, s', id)
    case AStore(id, value) => Store(s, s', id, value)
    case AUnlock(id, clear) => Unlock(s, s', id, clear)
    case ACommitAgain(id, value) => CommitAgain(s, s', id, value)
  }

  predicate IsRun(run: seq<State>, steps: seq<Step>) {
    && |run| == |steps| + 1 && Init(run[0])
    && forall i :: 0 <= i < |steps| ==> Next(run[i], run[i + 1], steps[i])
  }

  // ---------- the invariant ----------

  /** The lock is held by the one transaction that is past its acquisition and before its release. */
  predicate OneHolder(s: State) {
    && (forall id :: id in s.txns ==> (Holding(s.txns[id]) <==> s.holder == Some(id)))
    && (s.holder.Some? ==> s.holder.value in s.txns && s.kv.lock == s.holder)
  }

  /** Lock values spread only from the store, so an id that waits is nowhere yet. */
  predicate LockValues(s: State) {
    && "" in s.seen
    && (forall id :: id in s.txns ==> id in s.seen && s.txns[id].node in s.nodes)
    && (s.kv.lock.Some? ==> s.kv.lock.value in s.seen)
    && (forall n :: n in s.nodes ==> s.nodes[n].lock in s.seen)
    && "" !in s.txns
    && (forall id :: id in s.txns && s.txns[id].phase == Waiting ==>
          s.kv.lock != Some(id) && forall n :: n in s.nodes ==> s.nodes[n].lock != id)
  }

  /** A node that shows the id of the transaction in progress has the current object. */
  predicate Synced(s: State) {
    forall id :: id in s.txns ==>
      && ((s.txns[id].phase == Locked || s.txns[id].phase == Open) ==>
            forall n :: n in s.nodes && s.nodes[n].lock == id ==> s.nodes[n].content == Current(s.kv))
      && (s.txns[id].phase == Open ==>
            s.txns[id].node in s.nodes && s.nodes[s.txns[id].node].lock == id && s.txns[id].base == Current(s.kv))
  }

  predicate Committed(t: Txn) {
    t.phase.Stored? || t.phase.Done?
  }

  predicate CommitsOnce(s: State) {
    && (forall k :: 0 <= k < |s.commits| ==> s.commits[k].id in s.txns && Committed(s.txns[s.commits[k].id]))
    && (forall k, l :: 0 <= k < l < |s.commits| ==> s.commits[k].id != s.commits[l].id)
  }

  function Latest(initial: Bytes, commits: seq<Commit>): Bytes {
    if commits == [] then initial else commits[|commits| - 1].value
  }

  /** Each commit was computed from the object that the commit before it stored. */
  predicate Chain(initial: Bytes, commits: seq<Commit>) {
    forall k :: 0 <= k < |commits| ==> commits[k].base == Latest(initial, commits[..k])
  }

  predicate Inv(s: State, initial: Bytes) {
    && OneHolder(s) && LockValues(s) && Synced(s) && CommitsOnce(s)
    && Chain(initial, s.commits) && Current(s.kv) == Latest(initial, s.commits)
  }

  /** A step that stores nothing leaves the commits and who committed alone. */
  lemma CommitsKept(s: State, s': State)
    requires CommitsOnce(s) && s'.commits == s.commits
    requires forall id :: id in s.txns && Committed(s.txns[id]) ==> id in s'.txns && Committed(s'.txns[id])
    ensures CommitsOnce(s')
  {
    forall k | 0 <= k < |s.commits| ensures s.commits[k].id in s'.txns && Committed(s'.txns[s.commits[k].id]) {
      assert Committed(s.txns[s.commits[k].id]);
    }
  }

  lemma JoinKeepsInv(s: State, s': State, node: nat, initial: Bytes)
    requires Inv(s, initial) && Join(s, s', node)
    ensures Inv(s', initial)
  {
    CommitsKept(s, s');
  }

  lemma RequestKeepsInv(s: State, s': State, node: nat, id: string, initial: Bytes)
    requires Inv(s, initial) && Request(s, s', node, id)
    ensures Inv(s', initial)
  {
    CommitsKept(s, s');
    RequestLocks(s, s', node, id);
  }

  lemma RequestLocks(s: State, s': State, node: nat, id: string)
    requires OneHolder(s) && LockValues(s) && Request(s, s', node, id)
    ensures OneHolder(s') && LockValues(s')
  {
    assert id !in s.txns && s.holder != Some(id);
  }

  lemma SyncKeepsInv(s: State, s': State, id: string, initial: Bytes)
    requires Inv(s, initial) && Sync(s, s', id)
    ensures Inv(s', initial)
  {
    CommitsKept(s, s');
    SyncLocks(s, s', id);
  }

  lemma SyncLocks(s: State, s': State, id: string)
    requires OneHolder(s) && LockValues(s) && Sync(s, s', id)
    ensures OneHolder(s') && LockValues(s')
  {
    assert s.holder == Some(id);
  }

  lemma ReloadKeepsInv(s: State, s': State, node: nat, initial: Bytes)
    requires Inv(s, initial) && Reload(s, s', node)
    ensures Inv(s', initial)
  {
    CommitsKept(s, s');
  }

  /** The id is nowhere yet, so no node counts as synced when it becomes the lock value. */
  lemma AcquireKeepsInv(s: State, s': State, id: string, initial: Bytes)
    requires Inv(s, initial) && Acquire(s, s', id)
    ensures Inv(s', initial)
  {
    CommitsKept(s, s');
    AcquireLocks(s, s', id);
    AcquireSynced(s, s', id);
  }

  lemma AcquireLocks(s: State, s': State, id: string)
    requires OneHolder(s) && LockValues(s) && Acquire(s, s', id)
    ensures OneHolder(s') && LockValues(s')
  {
    assert forall i :: i in s.txns ==> !Holding(s.txns[i]);
  }

  lemma AcquireSynced(s: State, s': State, id: string)
    requires OneHolder(s) && LockValues(s) && Acquire(s, s', id)
    ensures Synced(s')
  {
    assert forall i :: i in s'.txns && i != id ==> s'.txns[i] == s.txns[i] && !Holding(s'.txns[i]);
  }

  lemma ChainGrows(initial: Bytes, commits: seq<Commit>, c: Commit)
    requires Chain(initial, commits) && c.base == Latest(initial, commits)
    ensures Chain(initial, commits + [c]) && Latest(initial, commits + [c]) == c.value
  {
    var all := commits + [c];
    forall k | 0 <= k < |all| ensures all[k].base == Latest(initial, all[..k]) {
      assert all[..k] == commits[..k];
      assert commits[..|commits|] == commits;
    }
  }

  lemma StoreCommitsOnce(s: State, s': State, id: string, value: Bytes)
    requires CommitsOnce(s) && Store(s, s', id, value)
    ensures CommitsOnce(s')
  {
    assert forall k :: 0 <= k < |s.commits| ==> s'.commits[k] == s.commits[k] && s.commits[k].id != id;
  }

  lemma StoreOneHolder(s: State, s': State, id: string, value: Bytes)
    requires OneHolder(s) && Synced(s) && Store(s, s', id, value)
    ensures OneHolder(s')
  {
    assert s.holder == Some(id) == s.kv.lock;
  }

  lemma StoreLockValues(s: State, s': State, id: string, value: Bytes)
    requires OneHolder(s) && LockValues(s) && Synced(s) && Store(s, s', id, value)
    ensures LockValues(s')
  {
    assert s.holder == Some(id) == s'.kv.lock == s.kv.lock;
  }

  /** No other transaction is in progress, so nothing is asked of its node. */
  lemma StoreSynced(s: State, s': State, id: string, value: Bytes)
    requires OneHolder(s) && Store(s, s', id, value)
    ensures Synced(s')
  {
    assert s.holder == Some(id);
    assert forall i :: i in s'.txns && i != id ==> s'.txns[i] == s.txns[i] && !Holding(s'.txns[i]);
  }

  lemma StoreKeepsInv(s: State, s': State, id: string, value: Bytes, initial: Bytes)
    requires Inv(s, initial) && Store(s, s', id, value)
    ensures Inv(s', initial)
  {
    StoreOneHolder(s, s', id, value);
    StoreLockValues(s, s', id, value);
    StoreSynced(s, s', id, value);
    StoreCommitsOnce(s, s', id, value);
    ChainGrows(initial, s.commits, Commit(id, s.txns[id].base, value));
  }

  lemma UnlockKeepsInv(s: State, s': State, id: string, clear: bool, initial: Bytes)
    requires Inv(s, initial) && Unlock(s, s', id, clear)
    ensures Inv(s', initial)
  {
    CommitsKept(s, s');
    UnlockLocks(s, s', id, clear);
    UnlockSynced(s, s', id, clear);
  }

  lemma UnlockLocks(s: State, s': State, id: string, clear: bool)
    requires OneHolder(s) && LockValues(s) && Unlock(s, s', id, clear)
    ensures OneHolder(s') && LockValues(s')
  {
    assert s.holder == Some(id);
  }

  lemma UnlockSynced(s: State, s': State, id: string, clear: bool)
    requires OneHolder(s) && Unlock(s, s', id, clear)
    ensures Synced(s')
  {
    assert s.holder == Some(id);
    assert forall i :: i in s'.txns && i != id ==> s'.txns[i] == s.txns[i] && !Holding(s'.txns[i]);
  }

  lemma StepKeepsInv(s: State, s': State, step: Step, initial: Bytes)
    requires Inv(s, initial) && Next(s, s', step)
    ensures Inv(s', initial) && s.commits <= s'.commits
  {
    match step
    case AJoin(node) => JoinKeepsInv(s, s', node, initial);
    case AReload(node) => ReloadKeepsInv(s, s', node, initial);
    case ARequest(node, id) => RequestKeepsInv(s, s', node, id, initial);
    case AAcquire(id) => AcquireKeepsInv(s, s', id, initial);
    case ASync(id) => SyncKeepsInv(s, s', id, initial);
    case AStore(id, value) => StoreKeepsInv(s, s', id, value, initial);
    case AUnlock(id, clear) => UnlockKeepsInv(s, s', id, clear, initial);
    case ACommitAgain(id, value) =>
  }

  lemma InitInv(s: State)
    requires Init(s)
    ensures Inv(s, Current(s.kv))
  {
  }

  lemma {:induction false} RunKeepsInv(run: seq<State>, steps: seq<Step>, i: nat, j: nat)
    requires IsRun(run, steps) && i <= j < |run|
    ensures Inv(run[j], Current(run[0].kv))
    ensures run[i].commits <= run[j].commits
    decreases j
  {
    if j == 0 {
      InitInv(run[0]);
    } else {
      RunKeepsInv(run, steps, if i == j then j - 1 else i, j - 1);
      assert Next(run[j - 1], run[j], steps[j - 1]);
      StepKeepsInv(run[j - 1], run[j], steps[j - 1], Current(run[0].kv));
    }
  }

  /**
   No lost update. Whenever Begin returns, the node holds the object of the latest commit; the commits
   of every run form one chain, in which no transaction occurs twice, and none is ever taken back.
   */
  lemma NoLostUpdate(run: seq<State>, steps: seq<Step>)
    requires IsRun(run, steps)
    ensures forall i :: 0 <= i < |steps| && steps[i].ASync? ==>
              && steps[i].id in run[i + 1].txns
              && run[i + 1].txns[steps[i].id].base == Latest(Current(run[0].kv), run[i].commits) == Current(run[i].kv)
    ensures forall i :: 0 <= i < |run| ==> Chain(Current(run[0].kv), run[i].commits)
    ensures forall i, k, l :: 0 <= i < |run| && 0 <= k < l < |run[i].commits| ==> run[i].commits[k].id != run[i].commits[l].id
    ensures forall i, j :: 0 <= i <= j < |run| ==> run[i].commits <= run[j].commits
  {
    forall i | 0 <= i < |run| ensures Inv(run[i], Current(run[0].kv)) {
      RunKeepsInv(run, steps, i, i);
    }
    forall i, j | 0 <= i <= j < |run| ensures run[i].commits <= run[j].commits {
      RunKeepsInv(run, steps, i, j);
    }
    forall i | 0 <= i < |steps| && steps[i].ASync?
      ensures steps[i].id in run[i + 1].txns
      ensures run[i + 1].txns[steps[i].id].base == Latest(Current(run[0].kv), run[i].commits) == Current(run[i].kv)
    {
      assert Next(run[i], run[i + 1], steps[i]);
    }
  }

  // ---------- operations on the object ----------

  /** All operations, in order. */
  function Folded<T, Op>(x: T, ops: seq<Op>, apply: (T, Op) -> T): T {
    if ops == [] then x else apply(Folded(x, ops[..|ops| - 1], apply), ops[|ops| - 1])
  }

  /** Each commit performs its operation on the part of the object that `view` reads. */
  ghost predicate Performs<T(!new), Op(!new)>(commits: seq<Commit>, view: Bytes -> T, ops: seq<Op>, apply: (T, Op) -> T) {
    && |ops| == |commits|
    && forall k :: 0 <= k < |commits| ==> view(commits[k].value) == apply(view(commits[k].base), ops[k])
  }

  lemma {:induction false} ChainFolds<T(!new), Op(!new)>(initial: Bytes, commits: seq<Commit>, view: Bytes -> T,
                                                         ops: seq<Op>, apply: (T, Op) -> T)
    requires Chain(initial, commits) && Performs(commits, view, ops, apply)
    ensures view(Latest(initial, commits)) == Folded(view(initial), ops, apply)
    decreases |commits|
  {
    if commits != [] {
      var n := |commits| - 1;
      var before := commits[..n];
      forall k | 0 <= k < n ensures before[k].base == Latest(initial, before[..k]) {
        assert before[..k] == commits[..k];
      }
      ChainFolds(initial, before, view, ops[..n], apply);
    }
  }

  /** In every run the stored object is the first one with the operations of all nodes applied in commit order. */
  lemma NoOperationLost<T(!new), Op(!new)>(run: seq<State>, steps: seq<Step>, i: nat, view: Bytes -> T,
                                           ops: seq<Op>, apply: (T, Op) -> T)
    requires IsRun(run, steps) && i < |run| && Performs(run[i].commits, view, ops, apply)
    ensures view(Current(run[i].kv)) == Folded(view(Current(run[0].kv)), ops, apply)
  {
    RunKeepsInv(run, steps, i, i);
    ChainFolds(Current(run[0].kv), run[i].commits, view, ops, apply);
  }

  // ---------- progress of Begin ----------

  /** The transaction is past its wait, and while Begin waits for the reload its node already shows its id. */
  predicate Ready(s: State, id: string) {
    && id in s.txns && s.txns[id].phase != Waiting
    && (s.txns[id].phase == Locked ==> s.txns[id].node in s.nodes && s.nodes[s.txns[id].node].lock == id)
  }

  lemma StepKeepsReady(s: State, s': State, step: Step, id: string, initial: Bytes)
    requires Inv(s, initial) && Next(s, s', step) && Ready(s, id)
    ensures Ready(s', id)
  {
    assert s.txns[id].phase == Locked ==> s.holder == Some(id) == s.kv.lock;
    if step.AStore? {
      assert s.holder == Some(step.id);
    }
  }

  lemma {:induction false} StaysReady(run: seq<State>, steps: seq<Step>, i: nat, j: nat, id: string)
    requires IsRun(run, steps) && i <= j < |run| && Ready(run[i], id)
    ensures Ready(run[j], id)
    decreases j
  {
    if i < j {
      StaysReady(run, steps, i, j - 1, id);
      NextStaysReady(run, steps, j - 1, id);
    }
  }

  lemma NextStaysReady(run: seq<State>, steps: seq<Step>, j: nat, id: string)
    requires IsRun(run, steps) && j < |steps| && Ready(run[j], id)
    ensures Ready(run[j + 1], id)
  {
    RunKeepsInv(run, steps, j, j);
    assert Next(run[j], run[j + 1], steps[j]);
    StepKeepsReady(run[j], run[j + 1], steps[j], id, Current(run[0].kv));
  }

  /** One reload after the acquisition is enough: from then on Begin can return, whatever the others do, until it has. */
  lemma ReloadLetsBeginReturn(run: seq<State>, steps: seq<Step>, i: nat, j: nat, id: string) returns (next: State)
    requires IsRun(run, steps) && i < |steps| && id in run[i].txns && run[i].txns[id].phase == Locked
    requires steps[i] == AReload(run[i].txns[id].node)
    requires i < j < |run|
    ensures id in run[j].txns && run[j].txns[id].phase != Waiting
    ensures run[j].txns[id].phase == Locked ==> Sync(run[j], next, id)
  {
    RunKeepsInv(run, steps, i, i);
    assert Next(run[i], run[i + 1], steps[i]);
    assert run[i].kv.lock == Some(id);
    StaysReady(run, steps, i + 1, j, id);
    var s := run[j];
    next := s;
    if s.txns[id].phase == Locked {
      var node := s.txns[id].node;
      next := s.(txns := s.txns[id := Txn(node, Open, s.nodes[node].content)]);
    }
  }
}
