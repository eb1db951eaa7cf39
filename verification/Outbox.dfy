/** The transactional outbox as a step system: producers inserting through the ambient transaction,
    relays locking, publishing and marking rows, and every failure that can come between
    (events/examples/outbox/outbox.go over db/pgxdb/pgxdb.go). A step happens in one session; a
    run is any interleaving of steps. SELECT .. FOR UPDATE SKIP LOCKED is one atomic step. */
module Outbox {
  import opened Options

  type Id = nat
  type TxId = nat

  datatype Envelope = Envelope(name: string, payload: string, headers: map<string, string>)

  /** Where the session that owns the transaction is. Publishing and Marking speak of the row
      batch[moved]; a relay with moved == |batch| has left its loop. */
  datatype Phase = Producing | Selecting | Publishing | Marking | Failed

  /** published counts the leading rows of batch the inner sink accepted from this transaction,
      moved those it marked. poisoned: a statement failed, so the server refuses all later ones. */
  datatype Tx = Tx(phase: Phase, inserts: map<Id, Envelope>, limit: nat, batch: seq<Id>,
                   published: nat, moved: nat, poisoned: bool)

  datatype Entry = Entry(id: Id, env: Envelope)

  /** rows: committed rows; marked: those with published_at set. log: every envelope the inner sink
      accepted, with the row it was read from. aborted: what each closed, unmarked batch had
      published. commits: the rows each committed batch marked. */
  datatype State = State(
    nextId: Id, nextTx: TxId,
    rows: map<Id, Envelope>, marked: set<Id>,
    open: map<TxId, Tx>,
    log: seq<Entry>, aborted: seq<seq<Id>>, commits: map<TxId, seq<Id>>)

  datatype Event =
    | Begin
    | BeginRelay(limit: nat)
    | Insert(tx: TxId, env: Envelope)
    | InsertFails(tx: TxId)
    | InsertAlone(env: Envelope)
    | Select(tx: TxId)
    | SelectFails(tx: TxId)
    | PublishOk(tx: TxId)
    | PublishFails(tx: TxId, accepted: bool)   // accepted: the sink took it and still said no
    | MarkOk(tx: TxId)
    | MarkFails(tx: TxId)
    | Commit(tx: TxId)
    | Abort(tx: TxId)                          // rollback, refused commit, panic or crash

  const EMPTY := State(0, 0, map[], {}, map[], [], [], map[])

  /** Rows a select may take: committed, unmarked, and locked by no open transaction. */
  predicate Available(s: State, id: Id) {
    id in s.rows && id !in s.marked && !exists t | t in s.open :: id in s.open[t].batch
  }

  /** The first `limit` available rows from `from` upward, in id order. */
  function Take(s: State, from: Id, limit: nat): seq<Id>
    decreases s.nextId - from
  {
    if from >= s.nextId || limit == 0 then []
    else if Available(s, from) then [from] + Take(s, from + 1, limit - 1)
    else Take(s, from + 1, limit)
  }

  predicate Enabled(s: State, e: Event) {
    match e
    case Begin | BeginRelay(_) | InsertAlone(_) => true
    case Insert(t, _) => MayInsert(s, t)
    case InsertFails(t) => MayInsert(s, t)
    case Select(t) => t in s.open && s.open[t].phase == Selecting
    case SelectFails(t) => t in s.open && s.open[t].phase == Selecting
    case PublishOk(t) => AtPublish(s, t)
    case PublishFails(t, _) => AtPublish(s, t)
    case MarkOk(t) =>
      t in s.open && s.open[t].phase == Marking && !s.open[t].poisoned && s.open[t].moved < |s.open[t].batch|
    case MarkFails(t) => t in s.open && s.open[t].phase == Marking
    case Commit(t) => t in s.open && !s.open[t].poisoned && BodyReturnedNil(s.open[t])
    case Abort(t) => t in s.open && s.open[t].published <= |s.open[t].batch|
  }

  /** A producer inserts through GetQuerier; so may the inner sink a relay publishes to, since the
      relay hands it the context that carries its own transaction. */
  predicate MayInsert(s: State, t: TxId) {
    t in s.open && s.open[t].phase != Selecting && !s.open[t].poisoned
  }

  /** The loop of relayBatch is about to publish batch[moved]. */
  predicate AtPublish(s: State, t: TxId) {
    && t in s.open && s.open[t].phase == Publishing && s.open[t].moved < |s.open[t].batch|
    && s.open[t].batch[s.open[t].moved] in s.rows
  }

  /** A producer may commit when it likes; a relay only after its loop has run to the end. */
  predicate BodyReturnedNil(x: Tx) {
    x.phase == Producing || (x.phase == Publishing && x.moved == |x.batch|)
  }

  function Set(s: State, t: TxId, x: Tx): State { s.(open := s.open[t := x]) }

  function Accept(s: State, x: Tx): State
    requires x.moved < |x.batch| && x.batch[x.moved] in s.rows
  {
    s.(log := s.log + [Entry(x.batch[x.moved], s.rows[x.batch[x.moved]])])
  }

  function Apply(s: State, e: Event): State
    requires Enabled(s, e)
  {
    match e
    case Begin => Set(s, s.nextTx, Tx(Producing, map[], 0, [], 0, 0, false)).(nextTx := s.nextTx + 1)
    case BeginRelay(limit) => Set(s, s.nextTx, Tx(Selecting, map[], limit, [], 0, 0, false)).(nextTx := s.nextTx + 1)
    case Insert(t, env) =>
      Set(s, t, s.open[t].(inserts := s.open[t].inserts[s.nextId := env])).(nextId := s.nextId + 1)
    case InsertFails(t) => Set(s, t, s.open[t].(poisoned := true)).(nextId := s.nextId + 1)
    case InsertAlone(env) => s.(rows := s.rows[s.nextId := env], nextId := s.nextId + 1)
    case Select(t) => Set(s, t, s.open[t].(phase := Publishing, batch := Take(s, 0, s.open[t].limit)))
    case SelectFails(t) => Set(s, t, s.open[t].(phase := Failed, poisoned := true))
    case PublishOk(t) =>
      Set(Accept(s, s.open[t]), t, s.open[t].(phase := Marking, published := s.open[t].published + 1))
    case PublishFails(t, accepted) =>
      if accepted then Set(Accept(s, s.open[t]), t, s.open[t].(phase := Failed, published := s.open[t].published + 1))
      else Set(s, t, s.open[t].(phase := Failed))
    case MarkOk(t) => Set(s, t, s.open[t].(phase := Publishing, moved := s.open[t].moved + 1))
    case MarkFails(t) => Set(s, t, s.open[t].(phase := Failed, poisoned := true))
    case Commit(t) =>
      s.(rows := s.rows + s.open[t].inserts,
         marked := s.marked + Ids(s.open[t].batch),
         open := s.open - {t},
         commits := s.commits[t := s.open[t].batch])
    case Abort(t) =>
      s.(open := s.open - {t}, aborted := s.aborted + [s.open[t].batch[..s.open[t].published]])
  }

  function Ids(ids: seq<Id>): set<Id> { set i | i in ids }

  /** The state after the events, when each is enabled as it happens. */
  function Run(s: State, events: seq<Event>): Option<State>
    decreases |events|
  {
    if events == [] then Some(s)
    else
      var last := events[|events| - 1];
      var mid := Run(s, events[..|events| - 1]);
      if mid.Some? && Enabled(mid.value, last) then Some(Apply(mid.value, last)) else None
  }

  // ---- what is counted ----

  /** How often the inner sink accepted the row. */
  function Publishes(log: seq<Entry>, id: Id): nat {
    if log == [] then 0
    else Publishes(log[..|log| - 1], id) + if log[|log| - 1].id == id then 1 else 0
  }

  /** How many of the batches had published the row. */
  function BatchesWith(batches: seq<seq<Id>>, id: Id): nat {
    if batches == [] then 0
    else BatchesWith(batches[..|batches| - 1], id) + if id in batches[|batches| - 1] then 1 else 0
  }

  predicate PublishedBy(x: Tx, id: Id): (r: bool)
    ensures r ==> id in x.batch
  {
    x.published <= |x.batch| && id in x.batch[..x.published]
  }

  predicate OpenPublished(s: State, id: Id) {
    exists t | t in s.open :: PublishedBy(s.open[t], id)
  }

  // ---- the invariant ----

  predicate Ascending(ids: seq<Id>) {
    forall i, j | 0 <= i < j < |ids| :: ids[i] < ids[j]
  }

  predicate TxOk(x: Tx) {
    && Ascending(x.batch)
    && |x.batch| <= x.limit
    && x.moved <= x.published <= |x.batch|
    && match x.phase
       case Producing => x.batch == []
       case Selecting => x.batch == [] && x.inserts == map[] && !x.poisoned
       case Publishing => x.published == x.moved
       case Marking => x.published == x.moved + 1
       case Failed => x.published <= x.moved + 1
  }

  /** Every id handed out belongs to at most one row or pending insert. */
  ghost predicate IdsOk(s: State) {
    && (forall id | id in s.rows :: id < s.nextId)
    && (forall t | t in s.open :: t < s.nextTx)
    && (forall t | t in s.commits :: t < s.nextTx && t !in s.open)
    && (forall t, id | t in s.open && id in s.open[t].inserts :: id < s.nextId && id !in s.rows)
    && (forall t, u, id | t in s.open && u in s.open && t != u && id in s.open[t].inserts :: id !in s.open[u].inserts)
  }

  ghost predicate LocksOk(s: State) {
    && (forall t, id | t in s.open && id in s.open[t].batch :: id in s.rows && id !in s.marked)
    && (forall t, u, id | t in s.open && u in s.open && t != u && id in s.open[t].batch :: id !in s.open[u].batch)
  }

  ghost predicate LogOk(s: State) {
    forall i | 0 <= i < |s.log| :: s.log[i].id in s.rows && s.rows[s.log[i].id] == s.log[i].env
  }

  /** publishes of a row == (1 if marked) + aborted batches that published it
      + open batches that have. */
  ghost predicate CountOk(s: State, id: Id) {
    Publishes(s.log, id) == (if id in s.marked then 1 else 0) + BatchesWith(s.aborted, id)
                            + (if OpenPublished(s, id) then 1 else 0)
  }

  ghost predicate MarksOk(s: State) {
    && s.marked <= s.rows.Keys
    && (forall t, id | t in s.commits && id in s.commits[t] :: id in s.marked)
    && (forall id | id in s.marked :: exists t :: t in s.commits && id in s.commits[t])
    && (forall t, u, id | t in s.commits && u in s.commits && t != u && id in s.commits[t] :: id !in s.commits[u])
    && (forall t | t in s.commits :: Ascending(s.commits[t]))
  }

  ghost predicate TxsOk(s: State) {
    forall t | t in s.open :: TxOk(s.open[t])
  }

  ghost predicate CountsOk(s: State) {
    forall id :: CountOk(s, id)
  }

  ghost predicate Inv(s: State) {
    && TxsOk(s) && IdsOk(s) && LocksOk(s) && LogOk(s) && MarksOk(s) && CountsOk(s)
  }

  // ---- the select ----

  /** A select takes available rows only, oldest first; short of its limit it took them all, and
      at its limit it passed over none older than one it took. */
  lemma {:induction false} TakeSpec(s: State, from: Id, limit: nat)
    ensures var b := Take(s, from, limit);
            && |b| <= limit && Ascending(b)
            && (forall id | id in b :: from <= id < s.nextId && Available(s, id))
            && (|b| < limit ==> forall id | from <= id < s.nextId && Available(s, id) :: id in b)
            && (forall id, taken | from <= id < s.nextId && Available(s, id) && taken in b && id !in b :: taken < id)
    decreases s.nextId - from
  {
    if from < s.nextId && limit > 0 {
      if Available(s, from) {
        TakeSpec(s, from + 1, limit - 1);
        var rest := Take(s, from + 1, limit - 1);
        forall i, j | 0 <= i < j < |[from] + rest| ensures ([from] + rest)[i] < ([from] + rest)[j] {
          assert ([from] + rest)[j] == rest[j - 1] && rest[j - 1] in rest;
        }
        forall id, taken | from <= id < s.nextId && Available(s, id) && taken in [from] + rest && id !in [from] + rest
          ensures taken < id
        {
          assert id != from;
        }
      } else {
        TakeSpec(s, from + 1, limit);
      }
    }
  }

  // ---- every step keeps the invariant ----

  /** The transaction a step belongs to; for a session that has none, the next number. */
  function Owner(s: State, e: Event): TxId {
    match e
    case Begin => s.nextTx
    case BeginRelay(_) => s.nextTx
    case InsertAlone(_) => s.nextTx
    case Insert(t, _) => t
    case InsertFails(t) => t
    case Select(t) => t
    case SelectFails(t) => t
    case PublishOk(t) => t
    case PublishFails(t, _) => t
    case MarkOk(t) => t
    case MarkFails(t) => t
    case Commit(t) => t
    case Abort(t) => t
  }

  /** A step leaves every transaction but its own as it was. */
  lemma OthersUntouched(s: State, e: Event)
    requires Enabled(s, e)
    ensures Apply(s, e).open - {Owner(s, e)} == s.open - {Owner(s, e)}
  {
  }

  lemma PublishesAppend(log: seq<Entry>, e: Entry, id: Id)
    ensures Publishes(log + [e], id) == Publishes(log, id) + if e.id == id then 1 else 0
  {
    assert (log + [e])[..|log|] == log;
  }

  lemma BatchesAppend(batches: seq<seq<Id>>, b: seq<Id>, id: Id)
    ensures BatchesWith(batches + [b], id) == BatchesWith(batches, id) + if id in b then 1 else 0
  {
    assert (batches + [b])[..|batches|] == batches;
  }

  /** A step that leaves log, marks and batches alone leaves every count alone. */
  lemma CountFrame(s: State, s': State)
    requires CountsOk(s)
    requires s'.log == s.log && s'.marked == s.marked && s'.aborted == s.aborted
    requires forall t, id | t in s.open && PublishedBy(s.open[t], id) :: t in s'.open && PublishedBy(s'.open[t], id)
    requires forall t, id | t in s'.open && PublishedBy(s'.open[t], id) :: t in s.open && PublishedBy(s.open[t], id)
    ensures CountsOk(s')
  {
    forall id ensures CountOk(s', id) {
      assert CountOk(s, id);
      assert OpenPublished(s', id) <==> OpenPublished(s, id);
    }
  }

  lemma OnePublishMore(x: Tx, x': Tx)
    requires TxOk(x) && x.phase == Publishing && x.moved < |x.batch|
    requires x'.batch == x.batch && x'.published == x.published + 1
    ensures !PublishedBy(x, x.batch[x.moved])
    ensures forall id :: PublishedBy(x', id) <==> PublishedBy(x, id) || id == x.batch[x.moved]
  {
    assert x'.batch[..x'.published] == x.batch[..x.published] + [x.batch[x.moved]];
  }

  /** An acceptance adds the row to what its own open batch has published, where no open batch
      had published it. */
  lemma AcceptedRowIsNew(s: State, e: Event)
    requires TxsOk(s) && LocksOk(s) && Enabled(s, e)
    requires e.PublishOk? || (e.PublishFails? && e.accepted)
    ensures var row := s.open[e.tx].batch[s.open[e.tx].moved];
            && !OpenPublished(s, row)
            && forall id :: OpenPublished(Apply(s, e), id) <==> OpenPublished(s, id) || id == row
  {
    var t, s' := e.tx, Apply(s, e);
    var x, x' := s.open[t], s'.open[t];
    var row := x.batch[x.moved];
    OnePublishMore(x, x');
    assert row in x.batch;
    OthersUntouched(s, e);
    assert forall u | u in s.open && u != t :: u in s'.open - {t} && s'.open[u] == s.open[u];
    assert forall u | u in s'.open && u != t :: u in s.open - {t} && s'.open[u] == s.open[u];
    forall id ensures OpenPublished(s', id) <==> OpenPublished(s, id) || id == row {
      assert PublishedBy(x', id) <==> PublishedBy(x, id) || id == row;
    }
  }

  lemma AcceptKeepsCounts(s: State, e: Event)
    requires TxsOk(s) && LocksOk(s) && CountsOk(s) && Enabled(s, e)
    requires e.PublishOk? || (e.PublishFails? && e.accepted)
    ensures CountsOk(Apply(s, e))
  {
    var s', row := Apply(s, e), s.open[e.tx].batch[s.open[e.tx].moved];
    AcceptedRowIsNew(s, e);
    forall id ensures CountOk(s', id) {
      assert CountOk(s, id);
      PublishesAppend(s.log, Entry(row, s.rows[row]), id);
    }
  }

  lemma CommitKeepsCounts(s: State, e: Event)
    requires TxsOk(s) && LocksOk(s) && CountsOk(s) && Enabled(s, e) && e.Commit?
    ensures CountsOk(Apply(s, e))
  {
    var t, x, s' := e.tx, s.open[e.tx], Apply(s, e);
    assert TxOk(x);
    assert x.batch[..x.published] == x.batch;
    ClosedCounts(s, s', t);
    forall id ensures CountOk(s', id) { assert CountOk(s, id); }
  }

  lemma AbortKeepsCounts(s: State, e: Event)
    requires TxsOk(s) && LocksOk(s) && CountsOk(s) && Enabled(s, e) && e.Abort?
    ensures CountsOk(Apply(s, e))
  {
    var t, x, s' := e.tx, s.open[e.tx], Apply(s, e);
    ClosedCounts(s, s', t);
    forall id ensures CountOk(s', id) {
      assert CountOk(s, id);
      BatchesAppend(s.aborted, x.batch[..x.published], id);
    }
  }

  /** Once its transaction has closed, a row it had published is published by no open batch. */
  lemma ClosedCounts(s: State, s': State, t: TxId)
    requires LocksOk(s) && t in s.open && s'.open == s.open - {t}
    ensures forall id :: OpenPublished(s, id) <==> OpenPublished(s', id) || PublishedBy(s.open[t], id)
    ensures forall id | PublishedBy(s.open[t], id) :: !OpenPublished(s', id)
  {
    forall id ensures OpenPublished(s, id) <==> OpenPublished(s', id) || PublishedBy(s.open[t], id) {
      if u :| u in s'.open && PublishedBy(s'.open[u], id) { assert u in s.open && PublishedBy(s.open[u], id); }
      if u :| u in s.open && PublishedBy(s.open[u], id) {
        assert u == t || (u in s'.open && PublishedBy(s'.open[u], id));
      }
    }
    forall id | PublishedBy(s.open[t], id) ensures !OpenPublished(s', id) {
      assert id in s.open[t].batch;
    }
  }

  /** Locking available rows for a transaction that held none. */
  lemma TakenLocksOk(s: State, s': State, t: TxId)
    requires LocksOk(s) && t in s.open && t in s'.open && s'.open == s.open[t := s'.open[t]]
    requires s'.rows == s.rows && s'.marked == s.marked
    requires forall id | id in s'.open[t].batch :: Available(s, id)
    ensures LocksOk(s')
  {
  }

  lemma SelectKeepsLocks(s: State, e: Event)
    requires LocksOk(s) && Enabled(s, e) && e.Select?
    ensures LocksOk(Apply(s, e))
  {
    TakeSpec(s, 0, s.open[e.tx].limit);
    TakenLocksOk(s, Apply(s, e), e.tx);
  }

  lemma CommitKeepsMarks(s: State, e: Event)
    requires TxsOk(s) && LocksOk(s) && MarksOk(s) && IdsOk(s) && Enabled(s, e) && e.Commit?
    ensures MarksOk(Apply(s, e))
  {
    var t, s' := e.tx, Apply(s, e);
    assert TxOk(s.open[e.tx]);
    forall id | id in s'.marked ensures exists u :: u in s'.commits && id in s'.commits[u] {
      if id in s.marked {
        var u :| u in s.commits && id in s.commits[u];
        assert u in s'.commits && s'.commits[u] == s.commits[u];
      } else {
        assert t in s'.commits && id in s'.commits[t];
      }
    }
    forall u, v, id | u in s'.commits && v in s'.commits && u != v && id in s'.commits[u]
      ensures id !in s'.commits[v]
    {
      assert id in s.open[e.tx].batch ==> id !in s.marked;
      assert u != t ==> id in s.commits[u] && id in s.marked;
      assert v != t ==> (id in s.commits[v] ==> id in s.marked);
    }
  }

  lemma OwnTxKept(s: State, e: Event)
    requires Enabled(s, e) && (Owner(s, e) in s.open ==> TxOk(s.open[Owner(s, e)]))
    ensures var s', t := Apply(s, e), Owner(s, e); t in s'.open && !e.InsertAlone? ==> TxOk(s'.open[t])
  {
    if e.Select? { TakeSpec(s, 0, s.open[e.tx].limit); }
  }

  lemma StepKeepsTxs(s: State, e: Event)
    requires TxsOk(s) && Enabled(s, e)
    ensures TxsOk(Apply(s, e))
  {
    var s', t := Apply(s, e), Owner(s, e);
    OthersUntouched(s, e);
    OwnTxKept(s, e);
    forall u | u in s'.open ensures TxOk(s'.open[u]) {
      if u != t { assert u in s'.open - {t} && u in s.open; }
    }
  }

  /** One more pending insert, under the next id. */
  lemma PendingKeepsIds(s: State, s': State, t: TxId)
    requires IdsOk(s) && t in s.open
    requires s'.rows == s.rows && s'.commits == s.commits && s'.nextTx == s.nextTx && s'.nextId == s.nextId + 1
    requires s'.open.Keys == s.open.Keys
    requires forall u | u in s.open && u != t :: s'.open[u] == s.open[u]
    requires forall id | id in s'.open[t].inserts :: id in s.open[t].inserts || id == s.nextId
    ensures IdsOk(s')
  {
  }

  lemma InsertKeepsIds(s: State, e: Event)
    requires IdsOk(s) && Enabled(s, e) && e.Insert?
    ensures IdsOk(Apply(s, e))
  {
    PendingKeepsIds(s, Apply(s, e), e.tx);
  }

  lemma InsertAloneKeepsIds(s: State, e: Event)
    requires IdsOk(s) && e.InsertAlone?
    ensures IdsOk(Apply(s, e))
  {
    var s' := Apply(s, e);
    assert s'.open == s.open;
    forall t, id | t in s'.open && id in s'.open[t].inserts ensures id < s'.nextId && id !in s'.rows {
      assert id in s.open[t].inserts;
    }
  }

  lemma CommitKeepsIds(s: State, e: Event)
    requires IdsOk(s) && Enabled(s, e) && e.Commit?
    ensures IdsOk(Apply(s, e))
  {
    var t, s' := e.tx, Apply(s, e);
    assert forall u | u in s'.open :: u != t && s'.open[u] == s.open[u];
  }

  /** No insert is pending that was not, and no row or transaction number is taken back. */
  lemma IdsFrame(s: State, s': State)
    requires IdsOk(s) && s'.rows == s.rows && s'.commits == s.commits
    requires s.nextId <= s'.nextId && s.nextTx <= s'.nextTx
    requires forall t | t in s'.open :: t in s.open || t == s.nextTx < s'.nextTx
    requires forall t | t in s'.open :: s'.open[t].inserts == (if t in s.open then s.open[t].inserts else map[])
    ensures IdsOk(s')
  {
  }

  /** What most steps leave alone. */
  lemma StepShape(s: State, e: Event)
    requires Enabled(s, e) && s.nextTx !in s.open
    requires !e.Insert? && !e.Commit? && !e.InsertAlone?
    ensures var s', t := Apply(s, e), Owner(s, e);
            && s'.rows == s.rows && s'.commits == s.commits && s'.marked == s.marked
            && s.nextId <= s'.nextId && s.nextTx <= s'.nextTx
            && (t in s'.open ==> t in s.open || t == s.nextTx < s'.nextTx)
            && (t in s'.open ==> s'.open[t].inserts == (if t in s.open then s.open[t].inserts else map[]))
            && (t in s'.open && !e.Select? ==> s'.open[t].batch == (if t in s.open then s.open[t].batch else []))
  {
  }

  lemma QuietStepKeepsIds(s: State, e: Event)
    requires IdsOk(s) && Enabled(s, e) && !e.Insert? && !e.Commit? && !e.InsertAlone?
    ensures IdsOk(Apply(s, e))
  {
    StepShape(s, e);
    OthersUntouched(s, e);
    var s', t := Apply(s, e), Owner(s, e);
    assert forall u | u in s'.open && u != t :: u in s'.open - {t} && u in s.open && s'.open[u] == s.open[u];
    IdsFrame(s, s');
  }

  lemma StepKeepsIds(s: State, e: Event)
    requires IdsOk(s) && Enabled(s, e)
    ensures IdsOk(Apply(s, e))
  {
    if e.Insert? { InsertKeepsIds(s, e); }
    else if e.Commit? { CommitKeepsIds(s, e); }
    else if e.InsertAlone? { InsertAloneKeepsIds(s, e); }
    else { QuietStepKeepsIds(s, e); }
  }

  /** No row is locked that was not, and no locked row is marked or lost. */
  lemma LocksFrame(s: State, s': State)
    requires LocksOk(s) && s'.marked == s.marked
    requires forall id | id in s.rows :: id in s'.rows
    requires forall t | t in s'.open :: s'.open[t].batch == (if t in s.open then s.open[t].batch else [])
    ensures LocksOk(s')
  {
  }

  lemma CommitKeepsLocks(s: State, e: Event)
    requires LocksOk(s) && Enabled(s, e) && e.Commit?
    ensures LocksOk(Apply(s, e))
  {
    var t, s' := e.tx, Apply(s, e);
    assert forall u | u in s'.open :: u != t && s'.open[u] == s.open[u];
  }

  lemma StepKeepsLocks(s: State, e: Event)
    requires TxsOk(s) && s.nextTx !in s.open && LocksOk(s) && Enabled(s, e)
    ensures LocksOk(Apply(s, e))
  {
    if e.Select? { SelectKeepsLocks(s, e); }
    else if e.Commit? { CommitKeepsLocks(s, e); }
    else {
      OthersUntouched(s, e);
      if !e.Insert? && !e.InsertAlone? { StepShape(s, e); }
      LocksFrame(s, Apply(s, e));
    }
  }

  lemma StepKeepsLog(s: State, e: Event)
    requires IdsOk(s) && LogOk(s) && Enabled(s, e)
    ensures LogOk(Apply(s, e))
  {
  }

  lemma QuietStepKeepsMarks(s: State, e: Event)
    requires MarksOk(s) && Enabled(s, e) && !e.Commit?
    requires forall t | t in s.commits :: t !in s.open
    ensures MarksOk(Apply(s, e))
  {
    var s' := Apply(s, e);
    assert s'.commits == s.commits && s'.marked == s.marked;
    assert s.rows.Keys <= s'.rows.Keys;
  }

  lemma StepKeepsMarks(s: State, e: Event)
    requires TxsOk(s) && LocksOk(s) && MarksOk(s) && IdsOk(s) && Enabled(s, e)
    ensures MarksOk(Apply(s, e))
  {
    if e.Commit? { CommitKeepsMarks(s, e); } else { QuietStepKeepsMarks(s, e); }
  }

  /** The steps that accept nothing and close nothing. */
  lemma QuietStepKeepsCounts(s: State, e: Event)
    requires TxsOk(s) && IdsOk(s) && CountsOk(s) && Enabled(s, e)
    requires !e.PublishOk? && (e.PublishFails? ==> !e.accepted) && !e.Commit? && !e.Abort?
    ensures CountsOk(Apply(s, e))
  {
    if e.Select? { assert TxOk(s.open[e.tx]); }
    CountFrame(s, Apply(s, e));
  }

  lemma StepKeepsCounts(s: State, e: Event)
    requires TxsOk(s) && LocksOk(s) && CountsOk(s) && IdsOk(s) && Enabled(s, e)
    ensures CountsOk(Apply(s, e))
  {
    if e.Commit? { CommitKeepsCounts(s, e); }
    else if e.Abort? { AbortKeepsCounts(s, e); }
    else if e.PublishOk? || (e.PublishFails? && e.accepted) { AcceptKeepsCounts(s, e); }
    else { QuietStepKeepsCounts(s, e); }
  }

  lemma StepKeepsInv(s: State, e: Event)
    requires Inv(s) && Enabled(s, e)
    ensures Inv(Apply(s, e))
  {
    StepKeepsTxs(s, e);
    StepKeepsIds(s, e);
    StepKeepsLocks(s, e);
    StepKeepsLog(s, e);
    StepKeepsMarks(s, e);
    StepKeepsCounts(s, e);
  }

  // ---- the whole-run theorems ----

  lemma {:induction false} RunKeepsInv(s: State, events: seq<Event>, s': State)
    requires Inv(s) && Run(s, events) == Some(s')
    ensures Inv(s')
    decreases |events|
  {
    if events != [] {
      var mid := Run(s, events[..|events| - 1]).value;
      RunKeepsInv(s, events[..|events| - 1], mid);
      StepKeepsInv(mid, events[|events| - 1]);
    }
  }

  lemma EmptyInv()
    ensures Inv(EMPTY)
  {
    assert forall id :: CountOk(EMPTY, id);
  }

  /** Exact duplicates and no loss, over every interleaving of sessions and failures: a committed
      row is waiting or marked, never both; a marked row was marked by exactly one batch; and the
      inner sink accepted it once if marked, plus once for each aborted batch that had published
      it, plus once if the one open batch that holds it already has. Hence at least once. */
  lemma ExactlyOnceMarkedAtLeastOncePublished(events: seq<Event>, s: State, id: Id)
    requires Run(EMPTY, events) == Some(s)
    ensures CountOk(s, id)
    ensures id in s.marked ==> id in s.rows && Publishes(s.log, id) >= 1 && !OpenPublished(s, id)
    ensures id in s.marked ==> exists t :: t in s.commits && id in s.commits[t]
    ensures forall t, u | t in s.commits && u in s.commits && id in s.commits[t] && id in s.commits[u] :: t == u
    ensures id in s.rows ==> (id in s.marked || Available(s, id) || exists t :: t in s.open && id in s.open[t].batch)
    ensures id !in s.rows ==> Publishes(s.log, id) == 0
  {
    EmptyInv();
    RunKeepsInv(EMPTY, events, s);
    assert CountOk(s, id);
    if id in s.marked {
      forall t | t in s.open ensures !PublishedBy(s.open[t], id) { }
    }
    if id !in s.rows { UnknownRowNeverPublished(s.rows, s.log, id); }
  }

  lemma {:induction false} UnknownRowNeverPublished(rows: map<Id, Envelope>, log: seq<Entry>, id: Id)
    requires id !in rows && forall i | 0 <= i < |log| :: log[i].id in rows
    ensures Publishes(log, id) == 0
  {
    if log != [] { UnknownRowNeverPublished(rows, log[..|log| - 1], id); }
  }

  /** The rows open relay batches hold are committed, unmarked, at most limit many, published in
      strictly increasing id order as far as the batch has got, and held by no other batch. */
  lemma OpenBatchesAreDisjoint(events: seq<Event>, s: State, t: TxId)
    requires Run(EMPTY, events) == Some(s) && t in s.open
    ensures var x := s.open[t];
            && |x.batch| <= x.limit && Ascending(x.batch) && x.moved <= x.published <= |x.batch|
            && (forall id | id in x.batch :: id in s.rows && id !in s.marked)
            && (forall u | u in s.open && u != t :: Ids(x.batch) !! Ids(s.open[u].batch))
  {
    EmptyInv();
    RunKeepsInv(EMPTY, events, s);
    assert TxOk(s.open[t]);
  }

  // Where a row came from, read off the trace itself.

  ghost predicate InsertedAt(events: seq<Event>, i: nat, t: TxId, row: Entry) {
    && i < |events| && events[i] == Insert(t, row.env)
    && var before := Run(EMPTY, events[..i]);
       before.Some? && before.value.nextId == row.id
  }

  ghost predicate InsertedAlone(events: seq<Event>, i: nat, row: Entry) {
    && i < |events| && events[i] == InsertAlone(row.env)
    && var before := Run(EMPTY, events[..i]);
       before.Some? && before.value.nextId == row.id
  }

  ghost predicate CommittedAt(events: seq<Event>, j: nat, t: TxId) {
    j < |events| && events[j] == Commit(t)
  }

  /** The row was inserted on the pool, or on a transaction that committed afterwards. */
  ghost predicate FromCommittedInsert(events: seq<Event>, row: Entry) {
    || (exists i :: InsertedAlone(events, i, row))
    || (exists i, j, t :: i < j && InsertedAt(events, i, t, row) && CommittedAt(events, j, t))
  }

  ghost predicate Pending(events: seq<Event>, t: TxId, row: Entry) {
    exists i :: InsertedAt(events, i, t, row)
  }

  lemma OriginsExtend(events: seq<Event>, e: Event, row: Entry)
    ensures FromCommittedInsert(events, row) ==> FromCommittedInsert(events + [e], row)
    ensures forall t :: Pending(events, t, row) ==> Pending(events + [e], t, row)
    ensures forall t :: Pending(events, t, row) && e == Commit(t) ==> FromCommittedInsert(events + [e], row)
  {
    var all := events + [e];
    assert forall i | 0 <= i < |events| :: all[i] == events[i] && all[..i] == events[..i];
    if i :| InsertedAlone(events, i, row) { assert InsertedAlone(all, i, row); }
    forall i, t | InsertedAt(events, i, t, row) ensures InsertedAt(all, i, t, row) { }
    if i, j, t :| i < j && InsertedAt(events, i, t, row) && CommittedAt(events, j, t) {
      assert InsertedAt(all, i, t, row) && CommittedAt(all, j, t);
    }
    forall t | Pending(events, t, row) && e == Commit(t) ensures FromCommittedInsert(all, row) {
      var i: nat :| InsertedAt(events, i, t, row);
      assert i < |events| && InsertedAt(all, i, t, row) && CommittedAt(all, |events|, t);
    }
  }

  lemma {:induction false} RowsHaveOrigins(events: seq<Event>, s: State)
    requires Run(EMPTY, events) == Some(s)
    ensures forall id | id in s.rows :: FromCommittedInsert(events, Entry(id, s.rows[id]))
    ensures forall t, id | t in s.open && id in s.open[t].inserts ::
              Pending(events, t, Entry(id, s.open[t].inserts[id]))
    decreases |events|
  {
    if events != [] {
      var before, e := events[..|events| - 1], events[|events| - 1];
      var mid := Run(EMPTY, before).value;
      assert events == before + [e];
      RowsHaveOrigins(before, mid);
      OthersUntouched(mid, e);
      forall id | id in s.rows ensures FromCommittedInsert(events, Entry(id, s.rows[id])) {
        RowStep(before, mid, e, id);
      }
      forall t, id | t in s.open && id in s.open[t].inserts
        ensures Pending(events, t, Entry(id, s.open[t].inserts[id]))
      {
        PendingStep(before, mid, e, t, id);
      }
    }
  }

  lemma RowStep(before: seq<Event>, mid: State, e: Event, id: Id)
    requires Run(EMPTY, before) == Some(mid) && Enabled(mid, e) && id in Apply(mid, e).rows
    requires id in mid.rows ==> FromCommittedInsert(before, Entry(id, mid.rows[id]))
    requires e.Commit? && id in mid.open[e.tx].inserts ==> Pending(before, e.tx, Entry(id, mid.open[e.tx].inserts[id]))
    ensures FromCommittedInsert(before + [e], Entry(id, Apply(mid, e).rows[id]))
  {
    var row := Entry(id, Apply(mid, e).rows[id]);
    OriginsExtend(before, e, row);
    if e.InsertAlone? && id == mid.nextId {
      assert (before + [e])[..|before|] == before;
      assert InsertedAlone(before + [e], |before|, row);
    }
  }

  lemma PendingStep(before: seq<Event>, mid: State, e: Event, t: TxId, id: Id)
    requires Run(EMPTY, before) == Some(mid) && Enabled(mid, e)
    requires t in Apply(mid, e).open && id in Apply(mid, e).open[t].inserts
    requires t in mid.open && id in mid.open[t].inserts ==> Pending(before, t, Entry(id, mid.open[t].inserts[id]))
    ensures Pending(before + [e], t, Entry(id, Apply(mid, e).open[t].inserts[id]))
  {
    var row := Entry(id, Apply(mid, e).open[t].inserts[id]);
    OriginsExtend(before, e, row);
    OthersUntouched(mid, e);
    if e == Insert(t, row.env) && id == mid.nextId {
      assert (before + [e])[..|before|] == before;
      assert InsertedAt(before + [e], |before|, t, row);
    } else if t != Owner(mid, e) {
      assert t in Apply(mid, e).open - {Owner(mid, e)};
      assert t in mid.open - {Owner(mid, e)};
    }
  }

  /** No phantoms: every envelope the inner sink ever accepted is the very envelope of a row whose
      insert committed. A rolled back or still open transaction's events are never published. */
  lemma NoPhantoms(events: seq<Event>, s: State, i: nat)
    requires Run(EMPTY, events) == Some(s) && i < |s.log|
    ensures FromCommittedInsert(events, s.log[i])
  {
    EmptyInv();
    RunKeepsInv(EMPTY, events, s);
    RowsHaveOrigins(events, s);
    assert s.log[i] == Entry(s.log[i].id, s.rows[s.log[i].id]);
  }

  /** Nothing committed is taken back: rows, marks and accepted envelopes only grow. */
  lemma {:induction false} NothingIsLost(s: State, events: seq<Event>, s': State)
    requires Inv(s) && Run(s, events) == Some(s')
    ensures forall id | id in s.rows :: id in s'.rows && s'.rows[id] == s.rows[id]
    ensures s.marked <= s'.marked && s.log <= s'.log
    ensures forall t | t in s.commits :: t in s'.commits && s'.commits[t] == s.commits[t]
    decreases |events|
  {
    if events != [] {
      var before := events[..|events| - 1];
      var mid := Run(s, before).value;
      NothingIsLost(s, before, mid);
      RunKeepsInv(s, before, mid);
      StepLosesNothing(mid, events[|events| - 1]);
    }
  }

  lemma StepLosesNothing(s: State, e: Event)
    requires IdsOk(s) && Enabled(s, e)
    ensures var s' := Apply(s, e);
            && (forall id | id in s.rows :: id in s'.rows && s'.rows[id] == s.rows[id])
            && s.marked <= s'.marked && s.log <= s'.log
            && (forall t | t in s.commits :: t in s'.commits && s'.commits[t] == s.commits[t])
  {
  }

  lemma InsertStaysPending(s: State, e: Event, t: TxId, row: Entry)
    requires IdsOk(s) && Enabled(s, e) && t < s.nextTx
    requires t in s.open ==> row.id in s.open[t].inserts && s.open[t].inserts[row.id] == row.env
    ensures var s' := Apply(s, e);
            t < s'.nextTx && (t in s'.open ==> row.id in s'.open[t].inserts && s'.open[t].inserts[row.id] == row.env)
    ensures e == Commit(t) ==> row.id in Apply(s, e).rows && Apply(s, e).rows[row.id] == row.env
  {
    OthersUntouched(s, e);
    if t in Apply(s, e).open && t != Owner(s, e) { assert t in Apply(s, e).open - {Owner(s, e)} && t in s.open; }
  }

  /** An insert is pending while its transaction is open, and a row from the commit on. */
  lemma {:induction false} InsertSettles(events: seq<Event>, s: State, i: nat, t: TxId, row: Entry)
    requires Run(EMPTY, events) == Some(s) && InsertedAt(events, i, t, row)
    ensures t < s.nextTx && (t in s.open ==> row.id in s.open[t].inserts && s.open[t].inserts[row.id] == row.env)
    ensures forall j | i < j && CommittedAt(events, j, t) :: row.id in s.rows && s.rows[row.id] == row.env
    decreases |events|
  {
    var before, e := events[..|events| - 1], events[|events| - 1];
    var mid := Run(EMPTY, before).value;
    ReachedIds(before, mid);
    assert events[..i] == before[..i];
    if i < |before| {
      InsertSettles(before, mid, i, t, row);
      InsertStaysPending(mid, e, t, row);
      StepLosesNothing(mid, e);
      forall j | i < j && CommittedAt(events, j, t) ensures row.id in s.rows && s.rows[row.id] == row.env {
        if j < |before| { assert CommittedAt(before, j, t); }
      }
    } else {
      assert before[..i] == before;
    }
  }

  lemma {:induction false} AloneSettles(events: seq<Event>, s: State, i: nat, row: Entry)
    requires Run(EMPTY, events) == Some(s) && InsertedAlone(events, i, row)
    ensures row.id in s.rows && s.rows[row.id] == row.env
    decreases |events|
  {
    var before, e := events[..|events| - 1], events[|events| - 1];
    var mid := Run(EMPTY, before).value;
    ReachedIds(before, mid);
    assert events[..i] == before[..i];
    if i < |before| {
      AloneSettles(before, mid, i, row);
      StepLosesNothing(mid, e);
    } else {
      assert before[..i] == before;
    }
  }

  lemma ReachedIds(events: seq<Event>, s: State)
    requires Run(EMPTY, events) == Some(s)
    ensures IdsOk(s)
  {
    EmptyInv();
    RunKeepsInv(EMPTY, events, s);
  }

  /** "Commit together or not at all": over every run, the table holds exactly the envelopes inserted on the
      pool, or on a transaction that committed after the insert. */
  lemma CommittedTogetherIff(events: seq<Event>, s: State, row: Entry)
    requires Run(EMPTY, events) == Some(s)
    ensures row.id in s.rows && s.rows[row.id] == row.env <==> FromCommittedInsert(events, row)
  {
    RowsHaveOrigins(events, s);
    if i: nat :| InsertedAlone(events, i, row) { AloneSettles(events, s, i, row); }
    if i: nat, j: nat, t :| i < j && InsertedAt(events, i, t, row) && CommittedAt(events, j, t) {
      InsertSettles(events, s, i, t, row);
    }
  }

  /** A batch that ends without its commit gives every row back to the next select. */
  lemma AbortedBatchIsWaitingAgain(s: State, t: TxId, id: Id)
    requires Inv(s) && Enabled(s, Abort(t)) && id in s.open[t].batch
    ensures Available(Apply(s, Abort(t)), id)
  {
    var s' := Apply(s, Abort(t));
    assert forall u | u in s'.open :: u != t && s'.open[u] == s.open[u];
  }

  // Ids are handed out at insert, not at commit: a row committed late is published after a row
  // with a higher id, even by a single relay that never fails.

  function LateProducer(a: Envelope): Tx { Tx(Producing, map[0 := a], 0, [], 0, 0, false) }

  /** Row 1 is committed, row 0 is still pending, and a relay has begun. */
  function RelayBegun(a: Envelope, b: Envelope): State {
    State(2, 2, map[1 := b], {}, map[0 := LateProducer(a), 1 := Tx(Selecting, map[], 1, [], 0, 0, false)],
          [], [], map[])
  }

  /** That relay has published and marked row 1. */
  function NewerMarked(a: Envelope, b: Envelope): State {
    State(2, 2, map[1 := b], {1}, map[0 := LateProducer(a)], [Entry(1, b)], [], map[1 := [1]])
  }

  lemma ReachRelayBegun(a: Envelope, b: Envelope)
    ensures Run(EMPTY, [Begin, Insert(0, a), InsertAlone(b), BeginRelay(1)]) == Some(RelayBegun(a, b))
  {
    var es := [Begin, Insert(0, a), InsertAlone(b), BeginRelay(1)];
    var s1 := Apply(EMPTY, Begin);
    RunStep(EMPTY, [], EMPTY, Begin);
    assert es[..1] == [] + [Begin] && es[..2] == es[..1] + [es[1]] && es[..3] == es[..2] + [es[2]]
           && es == es[..3] + [es[3]];
    RunStep(EMPTY, es[..1], s1, es[1]);
    var s2 := Apply(s1, es[1]);
    RunStep(EMPTY, es[..2], s2, es[2]);
    var s3 := Apply(s2, es[2]);
    RunStep(EMPTY, es[..3], s3, es[3]);
    assert Apply(s3, es[3]) == RelayBegun(a, b);
  }

  lemma OnlyNewerAvailable(a: Envelope, b: Envelope)
    ensures Take(RelayBegun(a, b), 0, 1) == [1]
  {
    var s := RelayBegun(a, b);
    assert !Available(s, 0) && Available(s, 1);
    assert Take(s, 0, 1) == Take(s, 1, 1) == [1] + Take(s, 2, 0);
  }

  lemma OlderAvailable(a: Envelope, b: Envelope, s: State)
    requires s.rows == map[1 := b] + map[0 := a] && s.marked == {1} && s.nextId == 2
    requires forall t | t in s.open :: s.open[t].batch == []
    ensures Take(s, 0, 1) == [0]
  {
    assert Available(s, 0);
    assert Take(s, 0, 1) == [0] + Take(s, 1, 0);
  }

  function NewerPublished(a: Envelope, b: Envelope): State {
    RelayBegun(a, b).(open := map[0 := LateProducer(a), 1 := Tx(Marking, map[], 1, [1], 1, 0, false)],
                      log := [Entry(1, b)])
  }

  lemma TwoSteps(s: State, e: Event, mid: State, e': Event)
    requires Enabled(s, e) && Apply(s, e) == mid && Enabled(mid, e')
    ensures Run(s, [e, e']) == Some(Apply(mid, e'))
  {
    RunStep(s, [], s, e);
    RunStep(s, [e], mid, e');
    assert [e] + [e'] == [e, e'] && [] + [e] == [e];
  }

  lemma RelayPublishesNewer(a: Envelope, b: Envelope)
    ensures Run(RelayBegun(a, b), [Select(1), PublishOk(1)]) == Some(NewerPublished(a, b))
  {
    OnlyNewerAvailable(a, b);
    var mid := RelayBegun(a, b).(open := map[0 := LateProducer(a), 1 := Tx(Publishing, map[], 1, [1], 0, 0, false)]);
    assert Apply(RelayBegun(a, b), Select(1)) == mid;
    TwoSteps(RelayBegun(a, b), Select(1), mid, PublishOk(1));
    assert Apply(mid, PublishOk(1)) == NewerPublished(a, b);
  }

  lemma RelayMarksNewer(a: Envelope, b: Envelope)
    ensures Run(NewerPublished(a, b), [MarkOk(1), Commit(1)]) == Some(NewerMarked(a, b))
  {
    var s := NewerPublished(a, b);
    var mid := s.(open := map[0 := LateProducer(a), 1 := Tx(Publishing, map[], 1, [1], 1, 1, false)]);
    assert Enabled(s, MarkOk(1)) && Apply(s, MarkOk(1)) == mid;
    assert Ids([1]) == {1} && mid.open - {1} == map[0 := LateProducer(a)] && mid.rows + map[] == mid.rows;
    assert Apply(mid, Commit(1)) == NewerMarked(a, b);
    TwoSteps(s, MarkOk(1), mid, Commit(1));
  }

  /** The late row is committed, and a second batch has begun. */
  function OlderCommitted(a: Envelope, b: Envelope): State {
    NewerMarked(a, b).(rows := map[1 := b] + map[0 := a], nextTx := 3,
                       open := map[2 := Tx(Selecting, map[], 1, [], 0, 0, false)], commits := map[1 := [1], 0 := []])
  }

  lemma ReachOlderCommitted(a: Envelope, b: Envelope)
    ensures Run(NewerMarked(a, b), [Commit(0), BeginRelay(1)]) == Some(OlderCommitted(a, b))
  {
    var s := NewerMarked(a, b);
    TwoSteps(s, Commit(0), Apply(s, Commit(0)), BeginRelay(1));
    assert Apply(Apply(s, Commit(0)), BeginRelay(1)) == OlderCommitted(a, b);
  }

  lemma RelayPublishesOlder(a: Envelope, b: Envelope)
    ensures var end := Run(OlderCommitted(a, b), [Select(2), PublishOk(2)]);
            end.Some? && end.value.log == [Entry(1, b), Entry(0, a)]
  {
    var s := OlderCommitted(a, b);
    OlderAvailable(a, b, s);
    TwoSteps(s, Select(2), Apply(s, Select(2)), PublishOk(2));
  }

  lemma {:induction false} RunConcat(s: State, first: seq<Event>, mid: State, rest: seq<Event>)
    requires Run(s, first) == Some(mid)
    ensures Run(s, first + rest) == Run(mid, rest)
    decreases |rest|
  {
    if rest == [] {
      assert first + rest == first;
    } else {
      assert (first + rest)[..|first + rest| - 1] == first + rest[..|rest| - 1];
      RunConcat(s, first, mid, rest[..|rest| - 1]);
    }
  }

  lemma LateCommitIsPublishedOutOfOrder(a: Envelope, b: Envelope)
    ensures var events := [Begin, Insert(0, a), InsertAlone(b), BeginRelay(1)]
                          + [Select(1), PublishOk(1)] + [MarkOk(1), Commit(1)]
                          + ([Commit(0), BeginRelay(1)] + [Select(2), PublishOk(2)]);
            Run(EMPTY, events).Some? && Run(EMPTY, events).value.log == [Entry(1, b), Entry(0, a)]
  {
    var first := [Begin, Insert(0, a), InsertAlone(b), BeginRelay(1)];
    ReachRelayBegun(a, b);
    RelayPublishesNewer(a, b);
    RelayMarksNewer(a, b);
    ReachOlderCommitted(a, b);
    RelayPublishesOlder(a, b);
    RunConcat(NewerMarked(a, b), [Commit(0), BeginRelay(1)], OlderCommitted(a, b), [Select(2), PublishOk(2)]);
    RunConcat(EMPTY, first, RelayBegun(a, b), [Select(1), PublishOk(1)]);
    RunConcat(EMPTY, first + [Select(1), PublishOk(1)], NewerPublished(a, b), [MarkOk(1), Commit(1)]);
    RunConcat(EMPTY, first + [Select(1), PublishOk(1)] + [MarkOk(1), Commit(1)], NewerMarked(a, b),
              [Commit(0), BeginRelay(1)] + [Select(2), PublishOk(2)]);
  }

  lemma RunStep(init: State, events: seq<Event>, s: State, e: Event)
    requires Run(init, events) == Some(s) && Enabled(s, e)
    ensures Run(init, events + [e]) == Some(Apply(s, e))
  {
    assert (events + [e])[..|events|] == events;
  }
}
