/** The relay's loops (events/examples/outbox/outbox.go) as methods over the outbox's state. Each
    method is shown to be a run of the protocol; other sessions may act between any two steps. */
module OutboxRelay {
  import opened Options
  import opened Outbox
  import opened TxRunner

  function Waiting(s: State): set<Id> { set id | id in s.rows && id !in s.marked }

  /** e belongs to some other session than tx's, or is an insert the inner sink makes on tx. */
  predicate Around(e: Event, tx: TxId) {
    match e
    case Begin => true
    case BeginRelay(_) => true
    case InsertAlone(_) => true
    case Insert(_, _) => true
    case InsertFails(_) => true
    case Select(t) => t != tx
    case SelectFails(t) => t != tx
    case PublishOk(t) => t != tx
    case PublishFails(t, _) => t != tx
    case MarkOk(t) => t != tx
    case MarkFails(t) => t != tx
    case Commit(t) => t != tx
    case Abort(t) => t != tx
  }

  /** Same place in the loop, same rows: only the pending inserts and the poisoning may differ. */
  predicate SamePlace(x: Tx, y: Tx) {
    y == x.(inserts := y.inserts, poisoned := y.poisoned)
  }

  lemma AroundStepKeepsPlace(s: State, e: Event, tx: TxId)
    requires Inv(s) && Enabled(s, e) && Around(e, tx) && tx in s.open
    ensures tx in Apply(s, e).open && SamePlace(s.open[tx], Apply(s, e).open[tx])
  {
    OthersUntouched(s, e);
    if Owner(s, e) != tx { assert tx in s.open - {Owner(s, e)}; }
  }

  lemma {:induction false} AroundKeepsPlace(s: State, events: seq<Event>, s': State, tx: TxId)
    requires Inv(s) && Run(s, events) == Some(s') && tx in s.open
    requires forall i | 0 <= i < |events| :: Around(events[i], tx)
    ensures Inv(s') && tx in s'.open && SamePlace(s.open[tx], s'.open[tx])
    ensures forall id | id in s.rows :: id in s'.rows
    decreases |events|
  {
    RunKeepsInv(s, events, s');
    NothingIsLost(s, events, s');
    if events != [] {
      var mid := Run(s, events[..|events| - 1]).value;
      AroundKeepsPlace(s, events[..|events| - 1], mid, tx);
      AroundStepKeepsPlace(mid, events[|events| - 1], tx);
    }
  }

  /** How one call of the inner sink ends; Exits: a handler ended the goroutine (runtime.Goexit). */
  datatype SinkAnswer = Accepts | Refuses | Panics | Exits

  /** How one relayBatch ended. lost: the commit was applied but reported as an error. */
  datatype Batch = Batch(moved: nat, err: bool, lost: bool) | BatchPanics | BatchExits

  predicate Failing(b: Batch) { !b.Batch? || b.err }

  /** How the server answers an INSERT or a COMMIT that stands for itself. LostAck: it was done, but the
      client was told of an error. */
  datatype Reply = Acked | LostAck | Denied

  /** What relayBatch is answered. sink(k), taken(k) and updates(k) are about the k-th row of its batch:
      how Publish ends, whether the sink kept a row it did not accept, whether the UPDATE works. */
  datatype Replies = Replies(begins: bool, selects: bool, sink: nat -> SinkAnswer, taken: nat -> bool,
                             updates: nat -> bool, commit: Reply)

  /** A batch is selected: LIMIT refuses a negative number. */
  predicate Starts(a: Replies, limit: int) { a.begins && limit >= 0 && a.selects }

  predicate Fine(a: Replies, k: nat) { a.sink(k).Accepts? && a.updates(k) }

  predicate AllFine(a: Replies, n: nat) { forall k: nat | k < n :: Fine(a, k) }

  /** How relayBatch ends on a batch of n rows and how many of them, from the first, the sink took. */
  ghost predicate Owed(a: Replies, limit: int, n: nat, b: Batch, taken: nat) {
    && (!Starts(a, limit) ==> b == Batch(0, true, false) && taken == 0)
    && (Starts(a, limit) && AllFine(a, n) ==>
          taken == n && b == if a.commit.Acked? then Batch(n, false, false) else Batch(0, true, a.commit.LostAck?))
    && (forall k: nat | Starts(a, limit) && k < n && AllFine(a, k) && !Fine(a, k) ::
          match a.sink(k)
          case Accepts => b == Batch(0, true, false) && taken == k + 1
          case Refuses => b == Batch(0, true, false) && taken == k + if a.taken(k) then 1 else 0
          case Panics => b == BatchPanics && taken == k + if a.taken(k) then 1 else 0
          case Exits => b == BatchExits && taken == k + if a.taken(k) then 1 else 0)
  }

  /** The log entries of rows. */
  function Entries(table: map<Id, Envelope>, ids: seq<Id>): seq<Entry>
    requires forall id | id in ids :: id in table
  {
    seq(|ids|, i requires 0 <= i < |ids| => Entry(ids[i], table[ids[i]]))
  }

  /** The rows a select with this limit finds. */
  function Due(s: State, limit: int): seq<Id> { if limit < 0 then [] else Take(s, 0, limit) }

  // ---- what a select leaves behind ----

  lemma {:induction false} TakeFrame(s: State, s': State, from: Id, limit: nat)
    requires s'.nextId == s.nextId && forall id :: Available(s, id) <==> Available(s', id)
    ensures Take(s', from, limit) == Take(s, from, limit)
    decreases s.nextId - from
  {
    if from < s.nextId && limit > 0 {
      TakeFrame(s, s', from + 1, limit);
      TakeFrame(s, s', from + 1, limit - 1);
    }
  }

  lemma {:induction false} AscendingSize(ids: seq<Id>)
    requires Ascending(ids)
    ensures |Ids(ids)| == |ids|
  {
    if ids != [] {
      var front := ids[..|ids| - 1];
      AscendingSize(front);
      assert ids == front + [ids[|ids| - 1]];
      assert Ids(ids) == Ids(front) + {ids[|ids| - 1]};
    }
  }

  ghost predicate NothingLocked(s: State) {
    forall t | t in s.open :: s.open[t].batch == []
  }

  /** With no batch open, a select takes min(limit, backlog) rows. */
  lemma TakeSize(s: State, limit: nat)
    requires Inv(s) && NothingLocked(s)
    ensures var b := Take(s, 0, limit);
            && |b| == (if |Waiting(s)| < limit then |Waiting(s)| else limit)
            && Ids(b) <= Waiting(s) && |Waiting(s) - Ids(b)| == |Waiting(s)| - |b|
  {
    var b := Take(s, 0, limit);
    TakeSpec(s, 0, limit);
    AscendingSize(b);
    forall id ensures id in Waiting(s) <==> Available(s, id) { }
    if |b| < limit { assert Ids(b) == Waiting(s); }
    SubsetSize(Ids(b), Waiting(s));
  }

  lemma SubsetSize(a: set<Id>, b: set<Id>)
    requires a <= b
    ensures |a| <= |b| && |b - a| == |b| - |a|
  {
    assert b == (b - a) + a;
  }

  // ---- where relayBatch is, as its own session sees it ----

  /** About to publish rows[moved], or past the loop when moved == |rows|. */
  predicate AtRow(s: State, tx: TxId, rows: seq<Id>, moved: nat) {
    && tx in s.open && tx !in s.commits
    && s.open[tx].phase == Publishing && s.open[tx].batch == rows
    && s.open[tx].moved == s.open[tx].published == moved <= |rows|
    && forall id | id in rows :: id in s.rows && id !in s.marked
  }

  /** rows[moved] is published and about to be marked. */
  predicate AtMark(s: State, tx: TxId, rows: seq<Id>, moved: nat) {
    && tx in s.open && tx !in s.commits
    && s.open[tx].phase == Marking && s.open[tx].batch == rows
    && s.open[tx].moved == moved < s.open[tx].published == moved + 1 <= |rows|
    && forall id | id in rows :: id in s.rows && id !in s.marked
  }

  /** The loop was left at rows[moved] with neither a commit nor a rollback: the locks are still held. */
  predicate LeftOpen(s: State, tx: TxId, rows: seq<Id>) {
    && tx in s.open && tx !in s.commits
    && s.open[tx].phase == Failed && s.open[tx].batch == rows != []
    && forall id | id in rows :: id in s.rows && id !in s.marked
  }

  /** Closed without a commit. */
  predicate RolledBack(s: State, tx: TxId) { tx !in s.open && tx !in s.commits }

  /** Nothing but tx, the log and the record of aborted batches has changed. */
  predicate Undisturbed(s0: State, s: State, tx: TxId) {
    && s.rows == s0.rows && s.marked == s0.marked && s.commits == s0.commits && s.nextId == s0.nextId
    && s.open - {tx} == s0.open - {tx}
    && (tx in s.open ==> s.open[tx].inserts == map[] && !s.open[tx].poisoned)
  }

  lemma PublishLeft(s: State, tx: TxId, rows: seq<Id>, moved: nat, accepted: bool)
    requires AtRow(s, tx, rows, moved) && moved < |rows| && rows[moved] in rows
    ensures var e := PublishFails(tx, accepted);
            && Enabled(s, e) && LeftOpen(Apply(s, e), tx, rows) && Apply(s, e).marked == s.marked
            && (s.open[tx].inserts == map[] && !s.open[tx].poisoned ==> Undisturbed(s, Apply(s, e), tx))
  {
  }

  lemma OthersOpen(s: State, tx: TxId)
    requires tx !in s.open
    ensures s.open - {tx} == s.open
  {
  }

  /** Only a failed insert on tx poisons it while others act. */
  lemma {:induction false} PoisonedByInsert(s: State, events: seq<Event>, s': State, tx: TxId)
    requires Inv(s) && Run(s, events) == Some(s') && tx in s.open
    requires forall i | 0 <= i < |events| :: Around(events[i], tx)
    ensures tx in s'.open && (s'.open[tx].poisoned ==> s.open[tx].poisoned || InsertFails(tx) in events)
    decreases |events|
  {
    if events != [] {
      var before, e := events[..|events| - 1], events[|events| - 1];
      var mid := Run(s, before).value;
      assert events == before + [e];
      PoisonedByInsert(s, before, mid, tx);
      RunKeepsInv(s, before, mid);
      if e != InsertFails(tx) { PoisonStep(mid, e, tx); } else { AroundStepKeepsPlace(mid, e, tx); }
    }
  }

  lemma PoisonStep(s: State, e: Event, tx: TxId)
    requires Inv(s) && Enabled(s, e) && Around(e, tx) && tx in s.open && e != InsertFails(tx)
    ensures tx in Apply(s, e).open && Apply(s, e).open[tx].poisoned == s.open[tx].poisoned
  {
    OthersUntouched(s, e);
    if Owner(s, e) != tx { assert tx in s.open - {Owner(s, e)}; }
  }

  lemma AroundKeepsRow(s: State, events: seq<Event>, s': State, tx: TxId)
    requires Inv(s) && Run(s, events) == Some(s') && tx in s.open
    requires forall i | 0 <= i < |events| :: Around(events[i], tx)
    ensures forall rows, moved | AtRow(s, tx, rows, moved) :: AtRow(s', tx, rows, moved)
    ensures forall rows, moved | AtMark(s, tx, rows, moved) :: AtMark(s', tx, rows, moved)
    ensures tx in s'.open && SamePlace(s.open[tx], s'.open[tx]) && tx !in s'.commits
    ensures s.marked <= s'.marked
  {
    AroundKeepsPlace(s, events, s', tx);
    NothingIsLost(s, events, s');
    LockedRowsUnmarked(s', tx);
  }

  lemma LockedRowsUnmarked(s: State, tx: TxId)
    requires Inv(s) && tx in s.open
    ensures forall id | id in s.open[tx].batch :: id in s.rows && id !in s.marked
    ensures tx !in s.commits && TxOk(s.open[tx])
  {
  }

  class Database {
    var s: State
    ghost var trace: seq<Event>   // every step taken since construction

    ghost predicate Valid()
      reads this
    {
      Run(EMPTY, trace) == Some(s)
    }

    lemma Reached()
      requires Valid()
      ensures Inv(s)
    {
      EmptyInv();
      RunKeepsInv(EMPTY, trace, s);
    }

    lemma NextTxIsNew()
      requires Valid()
      ensures s.nextTx !in s.open && s.nextTx !in s.commits
    {
      Reached();
    }

    lemma LockedRows(tx: TxId)
      requires Valid() && tx in s.open
      ensures forall id | id in s.open[tx].batch :: id in s.rows && id !in s.marked
      ensures tx !in s.commits && TxOk(s.open[tx])
    {
      Reached();
      LockedRowsUnmarked(s, tx);
    }

    lemma BacklogTaken(limit: nat)
      requires Valid() && NothingLocked(s)
      ensures var b := Take(s, 0, limit);
              && |b| == (if |Waiting(s)| < limit then |Waiting(s)| else limit)
              && |Waiting(s) - Ids(b)| == |Waiting(s)| - |b|
    {
      Reached();
      TakeSize(s, limit);
    }

    constructor ()
      ensures Valid() && s == EMPTY && trace == []
    {
      s, trace := EMPTY, [];
    }

    /** One step. */
    method Do(e: Event)
      requires Valid() && Enabled(s, e)
      modifies this
      ensures Valid() && s == Apply(old(s), e) && trace == old(trace) + [e]
    {
      RunStep(EMPTY, trace, s, e);
      s, trace := Apply(s, e), trace + [e];
    }

    /** Publish: insert through GetQuerier, on the ambient transaction or on the pool. A failing insert is
        an error and leaves no row, unless on the pool its acknowledgement was lost; an insert on a
        transaction that is closed or already refused a statement fails whatever the server would say. */
    method Publish(ctx: Context, env: Envelope, reply: Reply) returns (err: bool)
      requires Valid()
      modifies this
      ensures Valid() && s.log == old(s).log && s.marked == old(s).marked
      ensures TxFromContext(ctx).None? ==>
                && (err <==> !reply.Acked?) && s.open == old(s).open
                && s.rows == if reply.Denied? then old(s).rows else old(s).rows[old(s).nextId := env]
      ensures TxFromContext(ctx).Some? ==>
                var t := TxFromContext(ctx).value;
                && (err <==> !reply.Acked? || !MayInsert(old(s), t)) && s.rows == old(s).rows
                && (!err ==> s.open == old(s).open[t := old(s).open[t].(
                                 inserts := old(s).open[t].inserts[old(s).nextId := env])])
                && (err ==> forall u | u in s.open :: u in old(s).open && s.open[u].inserts == old(s).open[u].inserts)
    {
      err := !reply.Acked?;
      match GetQuerier(ctx, OnPool)
      case OnPool =>
        if !reply.Denied? { Do(InsertAlone(env)); }
      case OnTx(t) =>
        if !MayInsert(s, t) { err := true; }
        else if err { Do(InsertFails(t)); }
        else { Do(Insert(t, env)); }
    }

    /** A statement of tx is refused only after a failed one, a handler's insert. */
    ghost predicate Clean(tx: TxId)
      reads this
    {
      tx in s.open && s.open[tx].poisoned ==> InsertFails(tx) in trace
    }

    /** Any other sessions' steps, and inserts made on tx by the inner sink's handlers; none when
        alone. */
    method Meanwhile(tx: TxId, alone: bool)
      requires Valid() && tx in s.open && Clean(tx)
      modifies this
      ensures Valid() && old(trace) <= trace && old(s).marked <= s.marked && Clean(tx)
      ensures tx in s.open && SamePlace(old(s).open[tx], s.open[tx]) && tx !in s.commits
      ensures forall rows, moved | AtRow(old(s), tx, rows, moved) :: AtRow(s, tx, rows, moved)
      ensures forall rows, moved | AtMark(old(s), tx, rows, moved) :: AtMark(s, tx, rows, moved)
      ensures alone ==> s == old(s)
    {
      Reached();
      LockedRowsUnmarked(s, tx);
      if !alone {
        assert Run(s, []) == Some(s);
        var events: seq<Event>, s': State :|
          Run(s, events) == Some(s') && forall i | 0 <= i < |events| :: Around(events[i], tx);
        RunConcat(EMPTY, trace, s, events);
        AroundKeepsRow(s, events, s', tx);
        PoisonedByInsert(s, events, s', tx);
        s, trace := s', trace + events;
      }
    }

    /** The deferred rollback, once the body or the commit has failed. */
    method Rollback(tx: TxId)
      requires Valid() && tx in s.open
      modifies this
      ensures Valid() && trace == old(trace) + [Abort(tx)]
      ensures RolledBack(s, tx) && Undisturbed(old(s), s, tx) && s.marked == old(s).marked && s.log == old(s).log
    {
      LockedRows(tx);
      Do(Abort(tx));
    }

    /** BeginTx, for a relay. */
    method BeginBatch(limit: int, begins: bool) returns (tx: TxId)
      requires Valid()
      modifies this
      ensures Valid() && old(trace) <= trace && s.marked == old(s).marked && tx == old(s).nextTx
      ensures tx !in old(s).commits && tx !in old(s).open
      ensures if begins then s == Apply(old(s), BeginRelay(if limit < 0 then 0 else limit)) else s == old(s)
    {
      NextTxIsNew();
      tx := s.nextTx;
      if begins {
        Do(BeginRelay(if limit < 0 then 0 else limit));
      }
    }

    /** The select that locks the batch; LIMIT refuses a negative number. */
    method SelectBatch(tx: TxId, limit: int, selects: bool, alone: bool) returns (ok: bool, rows: seq<Id>)
      requires Valid() && tx in s.open && s.open[tx].phase == Selecting && (limit >= 0 ==> s.open[tx].limit == limit)
      requires Clean(tx)
      modifies this
      ensures Valid() && old(trace) <= trace && old(s).marked <= s.marked && Clean(tx)
      ensures ok <==> limit >= 0 && selects
      ensures if ok then AtRow(s, tx, rows, 0) && |rows| <= limit else RolledBack(s, tx)
      ensures alone ==> Undisturbed(old(s), s, tx) && s.log == old(s).log && (ok ==> rows == Take(old(s), 0, limit))
    {
      Meanwhile(tx, alone);
      LockedRows(tx);
      if limit < 0 || !selects {
        Do(SelectFails(tx));
        Rollback(tx);
        return false, [];
      }
      Do(Select(tx));
      LockedRows(tx);
      return true, s.open[tx].batch;
    }

    /** BeginTx and the select. ok is false when either failed. */
    method LockBatch(limit: int, a: Replies, alone: bool) returns (ok: bool, tx: TxId, rows: seq<Id>)
      requires Valid() && (alone ==> NothingLocked(s))
      modifies this
      ensures Valid() && old(trace) <= trace && old(s).marked <= s.marked && Clean(tx)
      ensures tx !in old(s).commits && tx !in old(s).open
      ensures ok <==> Starts(a, limit)
      ensures if ok then AtRow(s, tx, rows, 0) && |rows| <= limit else RolledBack(s, tx)
      ensures alone ==> Undisturbed(old(s), s, tx) && s.log == old(s).log && (ok ==> rows == Due(old(s), limit))
    {
      ok, rows := false, [];
      tx := BeginBatch(limit, a.begins);
      if a.begins {
        if alone { SelectAlone(old(s), s, tx, if limit < 0 then 0 else limit); }
        ok, rows := SelectBatch(tx, limit, a.selects, alone);
      }
    }

    /** The inner sink is handed rows[moved]. It may refuse it or panic, having taken it or not, and then
        the deferred rollback runs; or a handler may end the goroutine, and then it does not. */
    method PublishRow(tx: TxId, rows: seq<Id>, moved: nat, answer: SinkAnswer, taken: bool, alone: bool)
      requires Valid() && AtRow(s, tx, rows, moved) && moved < |rows| && Clean(tx)
      requires alone ==> s.open[tx].inserts == map[] && !s.open[tx].poisoned
      modifies this
      ensures Valid() && old(trace) <= trace && old(s).marked <= s.marked && Clean(tx)
      ensures if answer.Accepts? then AtMark(s, tx, rows, moved)
              else if answer.Exits? then LeftOpen(s, tx, rows) else RolledBack(s, tx)
      ensures alone ==> Undisturbed(old(s), s, tx)
      ensures alone ==> s.log == old(s).log
                                 + if answer.Accepts? || taken then Entries(old(s).rows, [rows[moved]]) else []
    {
      Meanwhile(tx, alone);
      assert rows[moved] in rows;
      if answer.Accepts? {
        Do(PublishOk(tx));
      } else {
        PublishLeft(s, tx, rows, moved, taken);
        Do(PublishFails(tx, taken));
        if !answer.Exits? {
          Rollback(tx);
        }
      }
    }

    /** The UPDATE that marks rows[moved]; the server refuses it on a transaction that had a failure. */
    method MarkRow(tx: TxId, rows: seq<Id>, moved: nat, updates: bool, alone: bool) returns (ok: bool)
      requires Valid() && AtMark(s, tx, rows, moved) && Clean(tx)
      requires alone ==> s.open[tx].inserts == map[] && !s.open[tx].poisoned
      modifies this
      ensures Valid() && old(trace) <= trace && old(s).marked <= s.marked && Clean(tx)
      ensures ok ==> updates
      ensures updates && !ok ==> !alone && InsertFails(tx) in trace
      ensures if ok then AtRow(s, tx, rows, moved + 1) else RolledBack(s, tx)
      ensures alone ==> Undisturbed(old(s), s, tx) && s.log == old(s).log
    {
      Meanwhile(tx, alone);
      ok := updates && !s.open[tx].poisoned;
      if ok {
        Do(MarkOk(tx));
      } else {
        Do(MarkFails(tx));
        Rollback(tx);
      }
    }

    /** COMMIT. applied: the rows are marked. */
    method CommitBatch(tx: TxId, rows: seq<Id>, reply: Reply, alone: bool) returns (applied: bool)
      requires Valid() && AtRow(s, tx, rows, |rows|) && Clean(tx)
      requires alone ==> s.open[tx].inserts == map[] && !s.open[tx].poisoned
      modifies this
      ensures Valid() && old(trace) <= trace && old(s).marked <= s.marked
      ensures applied ==> !reply.Denied?
      ensures !reply.Denied? && !applied ==> !alone && InsertFails(tx) in trace
      ensures !applied ==> RolledBack(s, tx)
      ensures applied ==> tx !in s.open && tx in s.commits && s.commits[tx] == rows && Ids(rows) <= s.marked
      ensures applied ==> Ids(rows) !! old(s).marked
      ensures alone ==> s.rows == old(s).rows && s.open - {tx} == old(s).open - {tx} && s.nextId == old(s).nextId
      ensures alone ==> s.marked == old(s).marked + (if applied then Ids(rows) else {}) && s.log == old(s).log
    {
      Meanwhile(tx, alone);
      applied := !reply.Denied? && !s.open[tx].poisoned;
      if applied {
        Do(Commit(tx));
      } else {
        Rollback(tx);
      }
    }

    /** One turn of the loop: publish rows[moved] and mark it. */
    method RelayRow(tx: TxId, rows: seq<Id>, moved: nat, a: Replies, alone: bool) returns (stopped: Option<Batch>)
      requires Valid() && AtRow(s, tx, rows, moved) && moved < |rows| && Clean(tx)
      requires alone ==> s.open[tx].inserts == map[] && !s.open[tx].poisoned
      modifies this
      ensures Valid() && old(trace) <= trace && old(s).marked <= s.marked && Clean(tx)
      ensures match stopped
              case None => Fine(a, moved) && AtRow(s, tx, rows, moved + 1)
              case Some(b) => if b.BatchExits? then LeftOpen(s, tx, rows) else RolledBack(s, tx)
      ensures stopped.Some? ==>
                || (!Fine(a, moved) && stopped.value == FailedRow(a, moved))
                || (!alone && InsertFails(tx) in trace && stopped.value == Batch(0, true, false))
      ensures alone ==> Undisturbed(old(s), s, tx)
      ensures alone ==> s.log == old(s).log + if Took(a, moved) then Entries(old(s).rows, [rows[moved]]) else []
    {
      PublishRow(tx, rows, moved, a.sink(moved), a.taken(moved), alone);
      if !a.sink(moved).Accepts? {
        return Some(FailedPublish(a.sink(moved)));
      }
      var ok := MarkRow(tx, rows, moved, a.updates(moved), alone);
      return if ok then None else Some(Batch(0, true, false));
    }

    /** The loop over the batch: how relayBatch ends if it does not get through, and the row it got to. */
    method RelayRows(tx: TxId, rows: seq<Id>, a: Replies, alone: bool) returns (stopped: Option<Batch>, moved: nat)
      requires Valid() && AtRow(s, tx, rows, 0) && Clean(tx)
      requires alone ==> s.open[tx].inserts == map[] && !s.open[tx].poisoned
      modifies this
      ensures Valid() && old(trace) <= trace && old(s).marked <= s.marked && Clean(tx)
      ensures moved <= |rows| && AllFine(a, moved)
      ensures match stopped
              case None => moved == |rows| && AtRow(s, tx, rows, |rows|)
              case Some(b) => moved < |rows| && if b.BatchExits? then LeftOpen(s, tx, rows) else RolledBack(s, tx)
      ensures stopped.Some? ==>
                || (!Fine(a, moved) && stopped.value == FailedRow(a, moved))
                || (!alone && InsertFails(tx) in trace && stopped.value == Batch(0, true, false))
      ensures alone ==> Undisturbed(old(s), s, tx) && forall id | id in rows :: id in old(s).rows
      ensures alone ==> s.log == old(s).log + Entries(old(s).rows, rows[..Taken(a, stopped, moved)])
    {
      moved, stopped := 0, None;
      while moved < |rows|
        invariant Valid() && old(trace) <= trace && old(s).marked <= s.marked && Clean(tx)
        invariant stopped == None && moved <= |rows| && AtRow(s, tx, rows, moved) && AllFine(a, moved)
        invariant alone ==> Undisturbed(old(s), s, tx)
        invariant alone ==> s.log == old(s).log + Entries(old(s).rows, rows[..moved])
      {
        OneMoreEntry(old(s).rows, rows, moved);
        stopped := RelayRow(tx, rows, moved, a, alone);
        if stopped.Some? {
          return;
        }
        assert AllFine(a, moved + 1);
        moved := moved + 1;
      }
    }

    /** relayBatch, with any end the database or the inner sink can give each call. alone: no other
        session acts and no handler inserts while it runs. taken counts the rows the sink took. */
    method RelayBatch(limit: int, a: Replies, alone: bool)
      returns (b: Batch, tx: TxId, ghost rows: seq<Id>, ghost taken: nat)
      requires Valid() && (alone ==> NothingLocked(s))
      modifies this
      ensures Valid() && old(trace) <= trace
      ensures tx !in old(s).commits && tx !in old(s).open
      ensures Owed(a, limit, |rows|, b, taken)
              || (!alone && InsertFails(tx) in trace && b == Batch(0, true, false))
      ensures !Failing(b) ==> Starts(a, limit) && AllFine(a, |rows|) && a.commit.Acked? && b.moved == |rows| <= limit
      ensures b.BatchExits? <==> tx in s.open
      ensures b.BatchExits? ==> LeftOpen(s, tx, rows) && |rows| <= limit
      ensures Failing(b) && b.Batch? ==> b.moved == 0
      ensures tx in s.commits <==> b.Batch? && (!b.err || b.lost)
      ensures tx in s.commits ==> s.commits[tx] == rows && Ids(rows) <= s.marked && Ids(rows) !! old(s).marked
      ensures alone ==> s.rows == old(s).rows && s.open - {tx} == old(s).open
      ensures alone ==> rows == Due(old(s), limit)
      ensures alone ==> s.marked == old(s).marked + if tx in s.commits then Ids(rows) else {}
      ensures alone ==> taken <= |rows| && forall id | id in rows :: id in s.rows
      ensures alone ==> s.log == old(s).log + Entries(s.rows, rows[..taken])
    {
      var ok, batch;
      ok, tx, batch := LockBatch(limit, a, alone);
      OthersOpen(old(s), tx);
      rows, taken := batch, 0;
      if !ok {
        if alone {
          rows := Due(old(s), limit);
          DueRows(old(s), limit);
        }
        return Batch(0, true, false), tx, rows, 0;
      }
      var stopped, moved := RelayRows(tx, batch, a, alone);
      taken := Taken(a, stopped, moved);
      if stopped.Some? {
        if !Fine(a, moved) { OwedStopped(a, limit, |rows|, moved); }
        return stopped.value, tx, rows, taken;
      }
      OwedThrough(a, limit, |rows|);
      var applied := CommitBatch(tx, batch, a.commit, alone);
      if !a.commit.Acked? || !applied {
        return Batch(0, true, applied), tx, rows, taken;
      }
      return Batch(moved, false, false), tx, rows, taken;
    }

    /** One pass of drain. What a pass that did not fail moved is no longer waiting. */
    method DrainPass(batch: int, a: Replies) returns (b: Batch)
      requires Valid() && NothingLocked(s)
      modifies this
      ensures Valid() && old(trace) <= trace && s.rows == old(s).rows
      ensures b.BatchExits? <==> !NothingLocked(s)
      ensures !Failing(b) <==> Succeeds(a, batch, |Waiting(old(s))|)
      ensures !Failing(b) ==> b.moved == (if |Waiting(old(s))| < batch then |Waiting(old(s))| else batch)
      ensures !Failing(b) ==> |Waiting(s)| == |Waiting(old(s))| - b.moved
    {
      if batch >= 0 { BacklogTaken(batch); }
      ghost var before := s;
      var tx;
      ghost var rows, taken;
      b, tx, rows, taken := RelayBatch(batch, a, true);
      if !Failing(b) {
        assert Waiting(s) == Waiting(before) - Ids(s.commits[tx]);
      }
      if !b.BatchExits? { OthersOpen(s, tx); }
      OwedFails(a, batch, |rows|, b, taken);
    }

    /** drain, alone with the database: it makes the passes of DrainPasses. Every pass but the last moves
        a full batch. replies(k) is what the k-th pass is answered; a pass it fails on ends it. */
    method Drain(batch: int, replies: nat -> Replies) returns (passes: nat, last: Batch)
      requires Valid() && NothingLocked(s) && batch != 0
      modifies this
      ensures Valid() && old(trace) <= trace && s.rows == old(s).rows
      ensures !Failing(last) <==> batch > 0 && PassesSucceed(replies, batch, |Waiting(old(s))|, 0)
      ensures !Failing(last) ==> batch >= 1 && passes == |Waiting(old(s))| / batch + 1 && Waiting(s) == {}
      ensures !Failing(last) ==>
                forall fuel: nat | fuel >= passes :: DrainPasses(|Waiting(old(s))|, batch, fuel) == Some(passes)
      ensures Failing(last) ==> 1 <= passes <= (if batch < 0 then 1 else |Waiting(old(s))| / batch + 1)
    {
      passes := 0;
      ghost var backlog := |Waiting(s)|;
      if batch > 0 { FullBatchesIsQuotient(backlog, batch); }
      while true
        invariant Valid() && old(trace) <= trace && NothingLocked(s) && s.rows == old(s).rows
        invariant if batch < 0 then passes == 0
                  else FullBatches(|Waiting(s)|, batch) + passes == FullBatches(backlog, batch)
                       && (PassesSucceed(replies, batch, |Waiting(s)|, passes)
                           <==> PassesSucceed(replies, batch, backlog, 0))
        decreases |Waiting(s)|
      {
        last := DrainPass(batch, replies(passes));
        passes := passes + 1;
        if Failing(last) {
          return;
        }
        if last.moved < batch {
          forall fuel: nat | fuel >= passes ensures DrainPasses(backlog, batch, fuel) == Some(passes) {
            DrainEndsAfter(backlog, batch, fuel);
          }
          return;
        }
      }
    }
  }

  /** A pass over this many waiting rows meets no failure. */
  predicate Succeeds(a: Replies, limit: int, waiting: nat) {
    Starts(a, limit) && AllFine(a, if waiting < limit then waiting else limit) && a.commit.Acked?
  }

  /** The passes from number k on, over this many waiting rows, one by one. */
  predicate PassesSucceed(replies: nat -> Replies, batch: nat, waiting: nat, k: nat)
    requires batch > 0
    decreases waiting
  {
    Succeeds(replies(k), batch, waiting) && (waiting < batch || PassesSucceed(replies, batch, waiting - batch, k + 1))
  }

  lemma {:induction false} PassesSucceedIff(replies: nat -> Replies, batch: nat, waiting: nat, k: nat)
    requires batch > 0
    ensures PassesSucceed(replies, batch, waiting, k) <==>
              && (forall j: nat | k <= j < k + FullBatches(waiting, batch) :: Succeeds(replies(j), batch, batch))
              && Succeeds(replies(k + FullBatches(waiting, batch)), batch, waiting % batch)
    decreases waiting
  {
    if waiting >= batch {
      PassesSucceedIff(replies, batch, waiting - batch, k + 1);
      RemainderStep(waiting, batch);
    }
  }

  /** drain ends without a failure if and only if every pass over a full batch succeeds and so does the one
      over what is left then. */
  lemma DrainSucceedsIff(replies: nat -> Replies, batch: nat, backlog: nat)
    requires batch > 0
    ensures PassesSucceed(replies, batch, backlog, 0) <==>
              && (forall k: nat | k < backlog / batch :: Succeeds(replies(k), batch, batch))
              && Succeeds(replies(backlog / batch), batch, backlog % batch)
  {
    FullBatchesIsQuotient(backlog, batch);
    PassesSucceedIff(replies, batch, backlog, 0);
  }

  lemma RemainderStep(n: nat, d: nat)
    requires n >= d > 0
    ensures n % d == (n - d) % d
  {
    QuotientStep(n, d);
    assert n == d * (n / d) + n % d && n - d == d * ((n - d) / d) + (n - d) % d;
    assert d * ((n - d) / d + 1) == d * ((n - d) / d) + d;
  }

  /** Whether the sink has the k-th row after being handed it. */
  predicate Took(a: Replies, k: nat) { a.sink(k).Accepts? || a.taken(k) }

  /** How many rows the sink has taken when the loop is left. */
  function Taken(a: Replies, stopped: Option<Batch>, moved: nat): nat {
    moved + if stopped.Some? && Took(a, moved) then 1 else 0
  }

  /** How relayBatch ends on the first row that goes wrong. */
  function FailedRow(a: Replies, k: nat): Batch
    requires !Fine(a, k)
  {
    if a.sink(k).Accepts? then Batch(0, true, false) else FailedPublish(a.sink(k))
  }

  lemma OwedStopped(a: Replies, limit: int, n: nat, k: nat)
    requires Starts(a, limit) && k < n && AllFine(a, k) && !Fine(a, k)
    ensures Owed(a, limit, n, FailedRow(a, k), k + if Took(a, k) then 1 else 0)
  {
    forall j: nat | AllFine(a, j) && !Fine(a, j) ensures j == k {
      assert (j < k ==> Fine(a, j)) && (k < j ==> Fine(a, k));
    }
  }

  lemma OwedThrough(a: Replies, limit: int, n: nat)
    requires Starts(a, limit) && AllFine(a, n)
    ensures Owed(a, limit, n, if a.commit.Acked? then Batch(n, false, false) else Batch(0, true, a.commit.LostAck?), n)
  {
  }

  lemma OwedFails(a: Replies, limit: int, n: nat, b: Batch, taken: nat)
    requires Owed(a, limit, n, b, taken)
    ensures !Failing(b) <==> Starts(a, limit) && AllFine(a, n) && a.commit.Acked?
  {
    if Starts(a, limit) && !AllFine(a, n) {
      var k := FirstNotFine(a, n);
    }
  }

  lemma {:induction false} FirstNotFine(a: Replies, n: nat) returns (k: nat)
    requires !AllFine(a, n)
    ensures k < n && AllFine(a, k) && !Fine(a, k)
  {
    if AllFine(a, n - 1) { k := n - 1; } else { k := FirstNotFine(a, n - 1); }
  }

  lemma DueRows(s: State, limit: int)
    ensures forall id | id in Due(s, limit) :: id in s.rows
  {
    if limit >= 0 { TakeSpec(s, 0, limit); }
  }

  lemma OneMoreEntry(table: map<Id, Envelope>, ids: seq<Id>, k: nat)
    requires k < |ids| && forall id | id in ids :: id in table
    ensures Entries(table, ids[..k + 1]) == Entries(table, ids[..k]) + Entries(table, [ids[k]])
  {
  }

  /** What relayBatch comes back with, if it does, once the sink has not accepted a row. */
  function FailedPublish(answer: SinkAnswer): Batch
    requires !answer.Accepts?
  {
    match answer
    case Refuses => Batch(0, true, false)
    case Panics => BatchPanics
    case Exits => BatchExits
  }

  /** How many full batches fit into the backlog. */
  function FullBatches(backlog: nat, batch: nat): nat
    requires batch > 0
  {
    if backlog < batch then 0 else FullBatches(backlog - batch, batch) + 1
  }

  lemma {:induction false} FullBatchesIsQuotient(backlog: nat, batch: nat)
    requires batch > 0
    ensures FullBatches(backlog, batch) == backlog / batch
  {
    if backlog >= batch {
      FullBatchesIsQuotient(backlog - batch, batch);
      QuotientStep(backlog, batch);
    }
  }

  lemma QuotientStep(n: nat, d: nat)
    requires n >= d > 0
    ensures n / d == (n - d) / d + 1
  {
    var q, r := (n - d) / d, (n - d) % d;
    assert n - d == d * q + r;
    QuotientUnique(n, d, q + 1, r) by {
      assert d * (q + 1) == d * q + d;
    }
  }

  lemma QuotientUnique(n: nat, d: nat, q: nat, r: nat)
    requires d > 0 && n == d * q + r && r < d
    ensures n / d == q
  {
    assert n == d * (n / d) + n % d;
    assert d * (n / d - q) == d * (n / d) - d * q;
    MultiplesAreFarApart(d, n / d - q);
  }

  lemma MultiplesAreFarApart(d: nat, k: int)
    ensures k >= 1 ==> d * k >= d
    ensures k <= -1 ==> d * k <= 0 - d
  {
    if k >= 1 { assert d * k == d + d * (k - 1); }
    if k <= -1 { assert d * k == 0 - d + d * (k + 1); }
  }

  lemma SelectAlone(s0: State, s: State, tx: TxId, limit: nat)
    requires NothingLocked(s0) && s == Apply(s0, BeginRelay(limit)) && tx == s0.nextTx
    ensures Take(s, 0, limit) == Take(s0, 0, limit)
  {
    forall id ensures Available(s, id) <==> Available(s0, id) {
      assert forall t | t in s.open :: s.open[t].batch == [];
    }
    TakeFrame(s0, s, 0, limit);
  }

  // ---- when drain ends ----

  /** The passes drain makes over a backlog nobody adds to, or None if it is still going after fuel
      passes. No pass fails but for LIMIT rejecting a negative batch; each moves min(batch, backlog)
      rows. */
  function DrainPasses(backlog: nat, batch: int, fuel: nat): Option<nat>
    decreases fuel
  {
    if fuel == 0 then None
    else if batch < 0 then Some(1)
    else
      var moved := if backlog < batch then backlog else batch;
      if moved < batch then Some(1)
      else match DrainPasses(backlog - moved, batch, fuel - 1)
        case None => None
        case Some(n) => Some(n + 1)
  }

  lemma {:induction false} DrainEndsAfter(backlog: nat, batch: int, fuel: nat)
    requires batch >= 1 && fuel > backlog / batch
    ensures DrainPasses(backlog, batch, fuel) == Some(backlog / batch + 1)
    decreases fuel
  {
    if backlog >= batch {
      QuotientStep(backlog, batch);
      DrainEndsAfter(backlog - batch, batch, fuel - 1);
    }
  }

  lemma {:induction false} ZeroBatchNeverEnds(backlog: nat, fuel: nat)
    ensures DrainPasses(backlog, 0, fuel) == None
    decreases fuel
  {
    if fuel > 0 { ZeroBatchNeverEnds(backlog, fuel - 1); }
  }

  /** drain, on a backlog nobody adds to and with no pass failing, ends exactly when batch is not 0:
      LIMIT 0 moves nothing, and 0 < 0 never stops it. A pass that fails ends it at any batch size. */
  lemma DrainEndsIff(backlog: nat, batch: int)
    ensures (exists fuel: nat :: DrainPasses(backlog, batch, fuel).Some?) <==> batch != 0
  {
    if batch == 0 {
      forall fuel: nat ensures DrainPasses(backlog, batch, fuel).None? { ZeroBatchNeverEnds(backlog, fuel); }
    } else if batch > 0 {
      DrainEndsAfter(backlog, batch, backlog / batch + 1);
      assert DrainPasses(backlog, batch, backlog / batch + 1).Some?;
    } else {
      assert DrainPasses(backlog, batch, 1).Some?;
    }
  }
}
