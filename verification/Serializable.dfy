/** Any number of workers running TxSerializable bodies against one store, as a step system.
    The database is taken to be a multi-version store whose COMMIT succeeds only if no transaction
    committed since the snapshot wrote a row this one read or wrote; otherwise it reports 40001. */
module Serializable {
  import opened Options

  type Key = nat
  type Store = map<Key, int>
  type WorkerId = nat

  /** What a body does next, given the results of the statements it has run. */
  datatype Action = Read(key: Key) | Write(key: Key, value: int) | Return | Fail

  /** A deterministic body: its next action as a function of what its statements returned. */
  type Body = seq<Option<int>> -> Action

  function Get(st: Store, k: Key): Option<int> { if k in st then Some(st[k]) else None }

  /** The body run alone from st, resumed after the statements whose results are hist; None when
      it fails or has not returned within n more statements. */
  function RunFrom(body: Body, hist: seq<Option<int>>, st: Store, n: nat): Option<Store>
    decreases n
  {
    match body(hist)
    case Return => Some(st)
    case Fail => None
    case Read(k) => if n == 0 then None else RunFrom(body, hist + [Get(st, k)], st, n - 1)
    case Write(k, v) => if n == 0 then None else RunFrom(body, hist + [None], st[k := v], n - 1)
  }

  /** Run alone from st, the body returns nil and leaves st'. */
  ghost predicate RunsTo(body: Body, st: Store, st': Store) {
    exists n: nat :: RunFrom(body, [], st, n) == Some(st')
  }

  /** A body has one outcome: more statements allowed never changes where it ends. */
  lemma {:induction false} RunFromUnique(body: Body, hist: seq<Option<int>>, st: Store, n: nat, m: nat)
    requires RunFrom(body, hist, st, n).Some? && RunFrom(body, hist, st, m).Some?
    ensures RunFrom(body, hist, st, n) == RunFrom(body, hist, st, m)
    decreases n
  {
    match body(hist)
    case Return =>
    case Fail =>
    case Read(k) => RunFromUnique(body, hist + [Get(st, k)], st, n - 1, m - 1);
    case Write(k, v) => RunFromUnique(body, hist + [None], st[k := v], n - 1, m - 1);
  }

  datatype Result = Nil | Err | LostAck   // LostAck: committed, but an error came back

  /** attempt counts from 0. An attempt works on the snapshot taken after the first `at` commits. */
  datatype Worker =
    | Idle(attempt: nat)
    | Running(attempt: nat, at: nat, hist: seq<Option<int>>, seen: set<Key>, writes: Store)
    | Done(result: Result)

  datatype Committed = Committed(worker: WorkerId, writes: Store)

  /** stores[i] is the store after the first i commits; the last one is the current store. */
  datatype State = State(stores: seq<Store>, history: seq<Committed>, workers: map<WorkerId, Worker>)

  datatype Event =
    | Begin(w: WorkerId)
    | Statement(w: WorkerId)
    | AttemptFails(w: WorkerId, retryable: bool, ctxDone: bool)
    | Commit(w: WorkerId, ctxDone: bool)
    | CommitLosesAck(w: WorkerId)

  const MAX_RETRIES := 3

  function Initial(st: Store, ws: set<WorkerId>): State {
    State([st], [], map w | w in ws :: Idle(0))
  }

  predicate Conflicts(s: State, w: Worker)
    requires w.Running?
  {
    exists i | 0 <= i < |s.history| :: w.at <= i && !(s.history[i].writes.Keys !! w.seen + w.writes.Keys)
  }

  predicate Enabled(bodies: WorkerId -> Body, s: State, e: Event) {
    && e.w in s.workers && s.stores != []
    && var w := s.workers[e.w];
       match e
       case Begin(_) => w.Idle?
       case Statement(_) => w.Running? && (bodies(e.w)(w.hist).Read? || bodies(e.w)(w.hist).Write?) && w.at < |s.stores|
       case AttemptFails(_, _, _) => !w.Done?
       case Commit(_, _) => w.Running? && bodies(e.w)(w.hist).Return?
       case CommitLosesAck(_) => w.Running? && bodies(e.w)(w.hist).Return? && !Conflicts(s, w)
  }

  /** After a failed attempt: another one, with a fresh transaction, or give up. */
  function AfterFailure(attempt: nat, retryable: bool, ctxDone: bool): Worker {
    if retryable && !ctxDone && attempt < MAX_RETRIES then Idle(attempt + 1) else Done(Err)
  }

  /** One statement: a read sees the transaction's own writes first, then its snapshot. */
  function AfterStatement(w: Worker, action: Action, snapshot: Store): Worker
    requires w.Running? && (action.Read? || action.Write?)
  {
    match action
    case Read(k) => w.(hist := w.hist + [Get(snapshot + w.writes, k)], seen := w.seen + {k})
    case Write(k, v) => w.(hist := w.hist + [None], writes := w.writes[k := v])
  }

  function Install(s: State, id: WorkerId, w: Worker, result: Result): State
    requires w.Running? && s.stores != []
  {
    State(s.stores + [s.stores[|s.stores| - 1] + w.writes],
          s.history + [Committed(id, w.writes)],
          s.workers[id := Done(result)])
  }

  function Apply(bodies: WorkerId -> Body, s: State, e: Event): State
    requires Enabled(bodies, s, e)
  {
    var w := s.workers[e.w];
    match e
    case Begin(id) => s.(workers := s.workers[id := Running(w.attempt, |s.history|, [], {}, map[])])
    case Statement(id) => s.(workers := s.workers[id := AfterStatement(w, bodies(id)(w.hist), s.stores[w.at])])
    case AttemptFails(id, retryable, ctxDone) =>
      s.(workers := s.workers[id := AfterFailure(w.attempt, retryable, ctxDone)])
    case Commit(id, ctxDone) =>
      if Conflicts(s, w) then s.(workers := s.workers[id := AfterFailure(w.attempt, true, ctxDone)])
      else Install(s, id, w, Nil)
    case CommitLosesAck(id) => Install(s, id, w, LostAck)
  }

  /** The state after the events, when each is enabled as it happens. */
  function Run(bodies: WorkerId -> Body, init: State, events: seq<Event>): Option<State> {
    if events == [] then Some(init)
    else
      var last := events[|events| - 1];
      var mid := Run(bodies, init, events[..|events| - 1]);
      if mid.Some? && Enabled(bodies, mid.value, last) then Some(Apply(bodies, mid.value, last)) else None
  }

  // ---- what every step keeps ----

  /** The i-th commit is its worker's body run alone on the store the commits before it left. */
  ghost predicate SerialSoFar(bodies: WorkerId -> Body, s: State) {
    && |s.stores| == |s.history| + 1
    && forall i | 0 <= i < |s.history| ::
         && s.stores[i + 1] == s.stores[i] + s.history[i].writes
         && RunsTo(bodies(s.history[i].worker), s.stores[i], s.stores[i + 1])
  }

  predicate Agree(a: Store, b: Store, keys: set<Key>) {
    forall k | k in keys :: Get(a, k) == Get(b, k)
  }

  /** Whatever the body would do from here, it would do from the start on any store that agrees
      with the snapshot on what it has read. */
  ghost predicate Replayable(body: Body, w: Worker, snapshot: Store)
    requires w.Running?
  {
    forall st: Store, n: nat, r: Store ::
      Agree(st, snapshot, w.seen) && RunFrom(body, w.hist, st + w.writes, n) == Some(r)
      ==> RunFrom(body, [], st, |w.hist| + n) == Some(r)
  }

  ghost predicate WorkerOk(bodies: WorkerId -> Body, s: State, id: WorkerId)
    requires id in s.workers && |s.stores| == |s.history| + 1
  {
    match s.workers[id]
    case Idle(attempt) => attempt <= MAX_RETRIES && !HasCommitted(s, id)
    case Running(attempt, at, _, _, _) =>
      && attempt <= MAX_RETRIES && !HasCommitted(s, id)
      && at <= |s.history| && Replayable(bodies(id), s.workers[id], s.stores[at])
    case Done(result) => HasCommitted(s, id) <==> result != Err
  }

  ghost predicate HasCommitted(s: State, id: WorkerId) {
    exists i :: 0 <= i < |s.history| && s.history[i].worker == id
  }

  ghost predicate OncePerWorker(s: State) {
    && (forall i | 0 <= i < |s.history| :: s.history[i].worker in s.workers)
    && forall i, j | 0 <= i < j < |s.history| :: s.history[i].worker != s.history[j].worker
  }

  ghost predicate Inv(bodies: WorkerId -> Body, s: State) {
    && SerialSoFar(bodies, s) && OncePerWorker(s)
    && forall id | id in s.workers :: WorkerOk(bodies, s, id)
  }

  /** Between a transaction's snapshot and now, rows nobody wrote are as the snapshot has them. */
  lemma {:induction false} UntouchedRowsAgree(bodies: WorkerId -> Body, s: State, at: nat, upto: nat, keys: set<Key>)
    requires SerialSoFar(bodies, s) && at <= upto <= |s.history|
    requires forall i | at <= i < upto :: s.history[i].writes.Keys !! keys
    ensures Agree(s.stores[upto], s.stores[at], keys)
  {
    if at < upto {
      UntouchedRowsAgree(bodies, s, at, upto - 1, keys);
      assert s.stores[upto] == s.stores[upto - 1] + s.history[upto - 1].writes;
    }
  }

  lemma StatementKeepsReplayable(body: Body, w: Worker, snapshot: Store)
    requires w.Running? && (body(w.hist).Read? || body(w.hist).Write?)
    requires Replayable(body, w, snapshot)
    ensures Replayable(body, AfterStatement(w, body(w.hist), snapshot), snapshot)
  {
    var w' := AfterStatement(w, body(w.hist), snapshot);
    forall st: Store, n: nat, r: Store |
      Agree(st, snapshot, w'.seen) && RunFrom(body, w'.hist, st + w'.writes, n) == Some(r)
      ensures RunFrom(body, [], st, |w'.hist| + n) == Some(r)
    {
      match body(w.hist)
      case Read(k) =>
        assert Get(st, k) == Get(snapshot, k);
        assert Get(st + w.writes, k) == Get(snapshot + w.writes, k);
        assert RunFrom(body, w.hist, st + w.writes, n + 1) == Some(r);
      case Write(k, v) =>
        assert st + w.writes[k := v] == (st + w.writes)[k := v];
        assert RunFrom(body, w.hist, st + w.writes, n + 1) == Some(r);
    }
  }

  /** A conflict-free commit writes what its body would have written run alone right now. */
  lemma CommitIsSerial(bodies: WorkerId -> Body, s: State, id: WorkerId)
    requires Inv(bodies, s) && id in s.workers
    requires s.workers[id].Running? && bodies(id)(s.workers[id].hist).Return? && !Conflicts(s, s.workers[id])
    ensures var now := s.stores[|s.history|]; RunsTo(bodies(id), now, now + s.workers[id].writes)
  {
    var w, now := s.workers[id], s.stores[|s.history|];
    assert WorkerOk(bodies, s, id);
    UntouchedRowsAgree(bodies, s, w.at, |s.history|, w.seen);
    assert RunFrom(bodies(id), w.hist, now + w.writes, 0) == Some(now + w.writes);
    assert RunFrom(bodies(id), [], now, |w.hist| + 0) == Some(now + w.writes);
  }

  lemma InstallKeepsInv(bodies: WorkerId -> Body, s: State, id: WorkerId, result: Result)
    requires Inv(bodies, s) && id in s.workers && result != Err
    requires s.workers[id].Running? && bodies(id)(s.workers[id].hist).Return? && !Conflicts(s, s.workers[id])
    ensures Inv(bodies, Install(s, id, s.workers[id], result))
  {
    var s' := Install(s, id, s.workers[id], result);
    CommitIsSerial(bodies, s, id);
    assert WorkerOk(bodies, s, id);
    forall i | 0 <= i < |s'.history|
      ensures s'.stores[i + 1] == s'.stores[i] + s'.history[i].writes
      ensures RunsTo(bodies(s'.history[i].worker), s'.stores[i], s'.stores[i + 1])
    {
      if i < |s.history| { assert s'.history[i] == s.history[i]; }
    }
    forall other | other in s'.workers ensures WorkerOk(bodies, s', other) {
      assert WorkerOk(bodies, s, other);
      assert s'.history[|s.history|].worker == id;
      if other != id {
        forall i | 0 <= i < |s.history| ensures s'.history[i] == s.history[i] { }
        assert HasCommitted(s', other) <==> HasCommitted(s, other);
      }
    }
  }

  lemma StepKeepsInv(bodies: WorkerId -> Body, s: State, e: Event)
    requires Inv(bodies, s) && Enabled(bodies, s, e)
    ensures Inv(bodies, Apply(bodies, s, e))
  {
    var w, s' := s.workers[e.w], Apply(bodies, s, e);
    assert WorkerOk(bodies, s, e.w);
    if (e.Commit? && !Conflicts(s, w)) || e.CommitLosesAck? {
      InstallKeepsInv(bodies, s, e.w, if e.Commit? then Nil else LostAck);
    } else {
      if e.Statement? { StatementKeepsReplayable(bodies(e.w), w, s.stores[w.at]); }
      if e.Begin? { FreshAttemptReplayable(bodies(e.w), w.attempt, |s.history|, s.stores[|s.history|]); }
      assert s'.history == s.history && s'.stores == s.stores;
      forall other | other in s'.workers ensures WorkerOk(bodies, s', other) {
        if other != e.w { assert WorkerOk(bodies, s, other); }
        assert HasCommitted(s', other) <==> HasCommitted(s, other);
      }
    }
  }

  lemma FreshAttemptReplayable(body: Body, attempt: nat, at: nat, snapshot: Store)
    ensures Replayable(body, Running(attempt, at, [], {}, map[]), snapshot)
  {
    forall st: Store ensures st + map[] == st { }
  }

  lemma {:induction false} RunKeepsInv(bodies: WorkerId -> Body, st: Store, ws: set<WorkerId>, events: seq<Event>,
                                       s: State)
    requires Run(bodies, Initial(st, ws), events) == Some(s)
    ensures Inv(bodies, s) && s.workers.Keys == ws && s.stores[0] == st
  {
    if events != [] {
      var mid := Run(bodies, Initial(st, ws), events[..|events| - 1]).value;
      RunKeepsInv(bodies, st, ws, events[..|events| - 1], mid);
      StepKeepsInv(bodies, mid, events[|events| - 1]);
    }
  }

  // ---- the whole-run theorems ----

  /** Over every interleaving: the current store is the initial one with the bodies of the
      committed workers run alone, one after another, in commit order; each worker is among them
      at most once, exactly when it returned nil or lost its acknowledgement; and no worker
      starts a fifth attempt. */
  lemma CommittedBodiesAreSerial(bodies: WorkerId -> Body, st: Store, ws: set<WorkerId>, events: seq<Event>, s: State)
    requires Run(bodies, Initial(st, ws), events) == Some(s)
    ensures |s.stores| == |s.history| + 1 && s.stores[0] == st
    ensures forall i | 0 <= i < |s.history| :: RunsTo(bodies(s.history[i].worker), s.stores[i], s.stores[i + 1])
    ensures OncePerWorker(s)
    ensures forall id | id in ws :: id in s.workers && (s.workers[id].Done? ==>
              (HasCommitted(s, id) <==> s.workers[id].result != Err))
    ensures forall id | id in ws :: id in s.workers && (!s.workers[id].Done? ==>
              !HasCommitted(s, id) && s.workers[id].attempt <= MAX_RETRIES)
  {
    RunKeepsInv(bodies, st, ws, events, s);
    forall id | id in ws ensures WorkerOk(bodies, s, id) { }
  }

  /** The body of the serializable example: read the counter, write it back plus one. */
  function Increment(row: Key): Body {
    (hist: seq<Option<int>>) =>
      if hist == [] then Read(row)
      else if |hist| == 1 then (if hist[0].None? then Fail else Write(row, hist[0].value + 1))
      else Return
  }

  lemma IncrementAddsOne(row: Key, st: Store, st': Store)
    requires RunsTo(Increment(row), st, st')
    ensures row in st && st' == st[row := st[row] + 1]
  {
    var n: nat :| RunFrom(Increment(row), [], st, n) == Some(st');
    assert n >= 1 && RunFrom(Increment(row), [] + [Get(st, row)], st, n - 1) == Some(st');
    assert [] + [Get(st, row)] == [Get(st, row)];
    assert row in st;
    assert n >= 2 && RunFrom(Increment(row), [Get(st, row)] + [None], st[row := st[row] + 1], n - 2) == Some(st');
    assert |[Get(st, row)] + [None]| == 2;
  }

  lemma {:induction false} CounterAfter(bodies: WorkerId -> Body, row: Key, s: State, n: nat)
    requires SerialSoFar(bodies, s) && n <= |s.history| && row in s.stores[0]
    requires forall id :: bodies(id) == Increment(row)
    ensures row in s.stores[n] && s.stores[n][row] == s.stores[0][row] + n
  {
    if n > 0 {
      CounterAfter(bodies, row, s, n - 1);
      IncrementAddsOne(row, s.stores[n - 1], s.stores[n]);
    }
  }

  /** The workers that committed, as a set, is as large as the history is long. */
  lemma {:induction false} CommittersCounted(s: State, n: nat)
    requires OncePerWorker(s) && n <= |s.history|
    ensures |set i | 0 <= i < n :: s.history[i].worker| == n
  {
    if n > 0 {
      CommittersCounted(s, n - 1);
      var before := set i | 0 <= i < n - 1 :: s.history[i].worker;
      assert (set i | 0 <= i < n :: s.history[i].worker) == before + {s.history[n - 1].worker};
    }
  }

  function WithResult(s: State, result: Result): set<WorkerId> {
    set id | id in s.workers && s.workers[id] == Done(result)
  }

  function Committers(s: State): set<WorkerId> {
    set i | 0 <= i < |s.history| :: s.history[i].worker
  }

  lemma CommittersByResult(bodies: WorkerId -> Body, s: State, id: WorkerId)
    requires Inv(bodies, s)
    ensures id in Committers(s) <==> id in WithResult(s, Nil) || id in WithResult(s, LostAck)
  {
    assert id in Committers(s) <==> HasCommitted(s, id);
    if id in s.workers { assert WorkerOk(bodies, s, id); }
  }

  lemma CommittersAreDone(bodies: WorkerId -> Body, s: State)
    requires Inv(bodies, s)
    ensures |s.history| == |WithResult(s, Nil)| + |WithResult(s, LostAck)|
  {
    CommittersCounted(s, |s.history|);
    forall id ensures id in Committers(s) <==> id in WithResult(s, Nil) + WithResult(s, LostAck) {
      CommittersByResult(bodies, s, id);
    }
    assert Committers(s) == WithResult(s, Nil) + WithResult(s, LostAck);
    assert WithResult(s, Nil) !! WithResult(s, LostAck);
  }

  /** The counter of the example ends at its start plus the number of workers that returned nil,
      and plus one more for each worker that committed but was told otherwise. */
  lemma CounterCountsNilReturns(bodies: WorkerId -> Body, row: Key, st: Store, ws: set<WorkerId>, events: seq<Event>,
                                s: State)
    requires Run(bodies, Initial(st, ws), events) == Some(s) && row in st
    requires forall id :: bodies(id) == Increment(row)
    ensures s.stores != [] && row in s.stores[|s.stores| - 1]
    ensures s.stores[|s.stores| - 1][row] == st[row] + |WithResult(s, Nil)| + |WithResult(s, LostAck)|
  {
    RunKeepsInv(bodies, st, ws, events, s);
    CounterAfter(bodies, row, s, |s.history|);
    CommittersAreDone(bodies, s);
  }
}
