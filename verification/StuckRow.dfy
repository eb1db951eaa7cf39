/** What one row can hold up (events/examples/outbox/outbox.go), over whole runs: a row the inner sink
    always refuses, and the rows of a batch whose transaction was left open. */
module StuckRow {
  import opened Options
  import opened Outbox
  import opened OutboxRelay

  // ---- a row the sink always refuses ----

  /** The waiting rows a select passes before p. */
  function Older(s: State, p: Id): set<Id> { set w | w in Waiting(s) && w < p }

  /** The step hands row p to the sink. */
  predicate Hands(s: State, e: Event, p: Id) {
    && (e.PublishOk? || e.PublishFails?)
    && AtPublish(s, e.tx) && s.open[e.tx].batch[s.open[e.tx].moved] == p
  }

  /** One relay at a time, and a sink that refuses p whenever it is handed it. */
  ghost predicate Refusing(s0: State, events: seq<Event>, p: Id)
    requires Run(s0, events).Some?
    decreases |events|
  {
    events == [] ||
    var before, e := events[..|events| - 1], events[|events| - 1];
    var s := Run(s0, before).value;
    && Refusing(s0, before, p)
    && (e.Select? ==> NothingLocked(s))
    && (e.PublishOk? ==> !Hands(s, e, p))
  }

  function Refusals(s0: State, events: seq<Event>, p: Id): nat
    requires Run(s0, events).Some?
    decreases |events|
  {
    if events == [] then 0
    else
      var before, e := events[..|events| - 1], events[|events| - 1];
      Refusals(s0, before, p) + if e.PublishFails? && Hands(Run(s0, before).value, e, p) then 1 else 0
  }

  /** Every select's limit reaches p past the given number of rows, and no row older than p turns up. */
  ghost predicate Reaching(s0: State, events: seq<Event>, p: Id, older: nat)
    requires Run(s0, events).Some?
    decreases |events|
  {
    events == [] ||
    var before, e := events[..|events| - 1], events[|events| - 1];
    var s := Run(s0, before).value;
    && Reaching(s0, before, p, older)
    && (e.Select? ==> s.open[e.tx].limit > older)
    && forall id | id in Apply(s, e).rows && id !in s.rows :: id > p
  }

  /** p is among the rows a select takes exactly when its limit is over the number of older ones, which it
      then takes too. */
  lemma RankIff(s: State, p: Id, limit: nat)
    requires IdsOk(s) && NothingLocked(s) && p in Waiting(s)
    ensures p in Take(s, 0, limit) <==> |Older(s, p)| < limit
    ensures p in Take(s, 0, limit) ==> forall w | w in Older(s, p) :: w in Take(s, 0, limit)
  {
    var b := Take(s, 0, limit);
    TakeSpec(s, 0, limit);
    AscendingSize(b);
    forall id ensures id in Waiting(s) <==> Available(s, id) { }
    if p in b {
      assert Older(s, p) + {p} <= Ids(b);
      SubsetSize(Older(s, p) + {p}, Ids(b));
    } else {
      assert Ids(b) <= Older(s, p);
      SubsetSize(Ids(b), Older(s, p));
    }
  }

  /** A batch that is still being published has not got p published, and has nothing newer without p. */
  predicate StuckAt(x: Tx, p: Id) {
    && x.published <= |x.batch|
    && (x.phase != Failed ==> p !in x.batch[..x.published] && forall id | id in x.batch && id > p :: p in x.batch)
  }

  ghost predicate Stuck(s: State, p: Id) {
    p in Waiting(s) && forall t | t in s.open :: StuckAt(s.open[t], p)
  }

  /** So the next row such a batch hands over is not newer than p, and it cannot have ended with p. */
  lemma NextIsNotNewer(x: Tx, p: Id)
    requires TxOk(x) && StuckAt(x, p) && x.phase == Publishing
    ensures x.moved < |x.batch| ==> x.batch[x.moved] <= p
    ensures x.moved == |x.batch| ==> forall id | id in x.batch :: id < p
  {
    assert forall i | 0 <= i < x.published :: x.batch[i] in x.batch[..x.published];
    if x.moved < |x.batch| {
      assert x.batch[x.moved] in x.batch;
      assert forall i | x.moved < i < |x.batch| :: x.batch[i] > x.batch[x.moved];
    } else {
      assert x.batch[..x.published] == x.batch;
    }
  }

  lemma OwnTxStuck(s: State, e: Event, p: Id)
    requires Enabled(s, e) && Owner(s, e) in s.open && TxOk(s.open[Owner(s, e)]) && StuckAt(s.open[Owner(s, e)], p)
    requires p in Waiting(s) && (forall id | id in s.rows :: id < s.nextId)
    requires (e.Select? ==> NothingLocked(s)) && (e.PublishOk? ==> !Hands(s, e, p))
    ensures var s', t := Apply(s, e), Owner(s, e); t in s'.open ==> StuckAt(s'.open[t], p)
  {
    var x := s.open[Owner(s, e)];
    if e.Select? {
      TakeSpec(s, 0, x.limit);
      assert Available(s, p);
    } else if e.PublishOk? {
      assert x.batch[..x.published + 1] == x.batch[..x.published] + [x.batch[x.moved]];
    }
  }

  lemma CommitMarksOlder(s: State, e: Event, p: Id)
    requires TxsOk(s) && Enabled(s, e) && Stuck(s, p) && e.Commit?
    ensures forall id | id in s.open[e.tx].batch :: id < p
  {
    var x := s.open[e.tx];
    assert TxOk(x);
    if x.phase == Publishing { NextIsNotNewer(x, p); }
  }

  lemma MarksStayOlder(s: State, e: Event, p: Id)
    requires TxsOk(s) && Enabled(s, e) && Stuck(s, p)
    ensures p in Waiting(Apply(s, e))
    ensures forall m | m in Apply(s, e).marked && m !in s.marked :: m < p
  {
    if e.Commit? { CommitMarksOlder(s, e, p); } else { assert Apply(s, e).marked == s.marked; }
    assert s.rows.Keys <= Apply(s, e).rows.Keys;
  }

  lemma StepKeepsStuck(s: State, e: Event, p: Id)
    requires TxsOk(s) && IdsOk(s) && Enabled(s, e) && Stuck(s, p)
    requires (e.Select? ==> NothingLocked(s)) && (e.PublishOk? ==> !Hands(s, e, p))
    ensures Stuck(Apply(s, e), p)
  {
    var s', o := Apply(s, e), Owner(s, e);
    OthersUntouched(s, e);
    MarksStayOlder(s, e, p);
    if o in s.open { OwnTxStuck(s, e, p); }
    forall t | t in s'.open ensures StuckAt(s'.open[t], p) {
      if t != o { assert t in s'.open - {o} && t in s.open - {o}; }
    }
  }

  /** Nothing newer than p is handed over. */
  lemma StepHandsOlder(s: State, e: Event, p: Id, m: Id)
    requires Inv(s) && Enabled(s, e) && Stuck(s, p) && m > p
    ensures Publishes(Apply(s, e).log, m) == Publishes(s.log, m)
  {
    if e.PublishOk? || e.PublishFails? {
      var x := s.open[e.tx];
      NextIsNotNewer(x, p);
      var row := x.batch[x.moved];
      PublishesAppend(s.log, Entry(row, s.rows[row]), m);
    }
  }

  /** With one relay, a row the sink always refuses is never marked and stops all newer rows for good:
      none is handed to the sink or marked. Older ones may still be. */
  lemma {:induction false} RefusedRowBlocksNewer(s0: State, events: seq<Event>, s: State, p: Id)
    requires Inv(s0) && NothingLocked(s0) && p in Waiting(s0)
    requires Run(s0, events) == Some(s) && Refusing(s0, events, p)
    ensures Stuck(s, p)
    ensures forall m | m in s.marked && m !in s0.marked :: m < p
    ensures forall m | m > p :: Publishes(s.log, m) == Publishes(s0.log, m)
    decreases |events|
  {
    if events == [] {
      forall t | t in s.open ensures StuckAt(s.open[t], p) { assert TxOk(s.open[t]); }
    } else {
      var before, e := events[..|events| - 1], events[|events| - 1];
      var mid := Run(s0, before).value;
      RefusedRowBlocksNewer(s0, before, mid, p);
      RunKeepsInv(s0, before, mid);
      StepKeepsStuck(mid, e, p);
      MarksStayOlder(mid, e, p);
      forall m | m > p ensures Publishes(s.log, m) == Publishes(s0.log, m) { StepHandsOlder(mid, e, p, m); }
    }
  }

  // ---- once every select reaches it ----

  /** Every batch open has p and all rows older than p. */
  ghost predicate Jammed(s: State, p: Id, older: set<Id>) {
    && Older(s, p) == older
    && forall t | t in s.open && s.open[t].batch != [] :: p in s.open[t].batch && older <= Ids(s.open[t].batch)
  }

  lemma StuckBatchNeverCommits(s: State, e: Event, p: Id, older: set<Id>)
    requires TxsOk(s) && Enabled(s, e) && Stuck(s, p) && Jammed(s, p, older)
    ensures Apply(s, e).marked == s.marked
  {
    if e.Commit? { CommitMarksOlder(s, e, p); }
  }

  lemma OwnTxJammed(s: State, e: Event, p: Id, older: set<Id>)
    requires IdsOk(s) && Enabled(s, e) && Owner(s, e) in s.open && p in Waiting(s) && Jammed(s, p, older)
    requires e.Select? ==> NothingLocked(s) && s.open[e.tx].limit > |older|
    ensures var s', t := Apply(s, e), Owner(s, e);
            t in s'.open && s'.open[t].batch != [] ==> p in s'.open[t].batch && older <= Ids(s'.open[t].batch)
  {
    if e.Select? { RankIff(s, p, s.open[e.tx].limit); }
  }

  lemma StepKeepsJammed(s: State, e: Event, p: Id, older: set<Id>)
    requires TxsOk(s) && IdsOk(s) && Enabled(s, e) && Stuck(s, p) && Jammed(s, p, older)
    requires e.Select? ==> NothingLocked(s) && s.open[e.tx].limit > |older|
    requires forall id | id in Apply(s, e).rows && id !in s.rows :: id > p
    ensures Jammed(Apply(s, e), p, older) && Apply(s, e).marked == s.marked
  {
    var s', o := Apply(s, e), Owner(s, e);
    OthersUntouched(s, e);
    StuckBatchNeverCommits(s, e, p, older);
    if o in s.open { OwnTxJammed(s, e, p, older); }
    assert s.rows.Keys <= s'.rows.Keys;
    assert Older(s', p) == older;
    forall t | t in s'.open && s'.open[t].batch != [] && t != o
      ensures p in s'.open[t].batch && older <= Ids(s'.open[t].batch)
    {
      assert t in s'.open - {o} && t in s.open - {o};
    }
  }

  /** A batch that has not failed has published w. */
  ghost predicate Live(s: State, w: Id) {
    exists t | t in s.open :: s.open[t].phase != Failed && PublishedBy(s.open[t], w)
  }

  lemma OwnTxLive(s: State, e: Event, w: Id)
    requires Enabled(s, e) && (Owner(s, e) in s.open ==> TxOk(s.open[Owner(s, e)]))
    requires var s', t := Apply(s, e), Owner(s, e);
             t in s'.open && s'.open[t].phase != Failed && PublishedBy(s'.open[t], w)
    ensures var t := Owner(s, e);
            || (t in s.open && s.open[t].phase != Failed && PublishedBy(s.open[t], w))
            || (e.PublishOk? && Hands(s, e, w))
  {
    if e.PublishOk? {
      var x := s.open[e.tx];
      assert x.batch[..x.published + 1] == x.batch[..x.published] + [x.batch[x.moved]];
    }
  }

  lemma LiveComesFrom(s: State, e: Event, w: Id)
    requires TxsOk(s) && Enabled(s, e) && Live(Apply(s, e), w)
    ensures Live(s, w) || (e.PublishOk? && Hands(s, e, w))
  {
    var s', o := Apply(s, e), Owner(s, e);
    OthersUntouched(s, e);
    var t :| t in s'.open && s'.open[t].phase != Failed && PublishedBy(s'.open[t], w);
    if t == o { OwnTxLive(s, e, w); } else { assert t in s'.open - {o} && t in s.open - {o}; }
  }

  /** A batch that comes to p has published all rows older than p, and then fails. */
  lemma RefusalSettles(s: State, e: Event, p: Id, w: Id)
    requires TxsOk(s) && LocksOk(s) && Enabled(s, e) && e.PublishFails? && Hands(s, e, p)
    requires w in s.open[e.tx].batch && w < p
    ensures Live(s, w) && !Live(Apply(s, e), w)
  {
    var x, s' := s.open[e.tx], Apply(s, e);
    assert TxOk(x);
    var i :| 0 <= i < |x.batch| && x.batch[i] == w;
    assert i < x.moved && x.batch[..x.published][i] == w;
    assert PublishedBy(x, w);
    OthersUntouched(s, e);
    forall t | t in s'.open ensures s'.open[t].phase == Failed || !PublishedBy(s'.open[t], w) {
      if t != e.tx { assert t in s'.open - {e.tx} && t in s.open - {e.tx}; }
    }
  }

  function Count(b: bool): nat { if b then 1 else 0 }

  /** Each refusal of p is paid for by a publish of w. */
  lemma StepPays(s: State, e: Event, p: Id, w: Id, older: set<Id>)
    requires Inv(s) && Enabled(s, e) && Jammed(s, p, older) && w in older
    ensures Publishes(Apply(s, e).log, w) + Count(Live(s, w))
            >= Publishes(s.log, w) + Count(Live(Apply(s, e), w)) + Count(e.PublishFails? && Hands(s, e, p))
  {
    var s' := Apply(s, e);
    if e.PublishFails? && Hands(s, e, p) {
      assert w in Ids(s.open[e.tx].batch);
      RefusalSettles(s, e, p, w);
    } else if Live(s', w) {
      LiveComesFrom(s, e, w);
    }
    LogGrows(s, e, w);
  }

  lemma LogGrows(s: State, e: Event, w: Id)
    requires Enabled(s, e)
    ensures Publishes(Apply(s, e).log, w) >= Publishes(s.log, w) + Count(e.PublishOk? && Hands(s, e, w))
  {
    if e.PublishOk? || e.PublishFails? {
      var row := s.open[e.tx].batch[s.open[e.tx].moved];
      PublishesAppend(s.log, Entry(row, s.rows[row]), w);
    }
  }

  /** With one relay, once a row the sink always refuses is within every select's limit and nothing older
      turns up, no row at all is marked any more, and each time it is refused every older waiting row has
      been published once more. */
  lemma {:induction false} RefusedRowStopsRelay(s0: State, events: seq<Event>, s: State, p: Id)
    requires Inv(s0) && NothingLocked(s0) && p in Waiting(s0)
    requires Run(s0, events) == Some(s) && Refusing(s0, events, p) && Reaching(s0, events, p, |Older(s0, p)|)
    ensures s.marked == s0.marked && Jammed(s, p, Older(s0, p))
    ensures forall w | w in Older(s0, p) ::
              Publishes(s.log, w) >= Publishes(s0.log, w) + Refusals(s0, events, p) + Count(Live(s, w))
    decreases |events|
  {
    if events == [] {
      forall w | w in Older(s0, p) ensures !Live(s, w) {
        forall t | t in s.open ensures !PublishedBy(s.open[t], w) { }
      }
    } else {
      var before, e := events[..|events| - 1], events[|events| - 1];
      var mid := Run(s0, before).value;
      RefusedRowStopsRelay(s0, before, mid, p);
      RefusedRowBlocksNewer(s0, before, mid, p);
      RunKeepsInv(s0, before, mid);
      StepKeepsJammed(mid, e, p, Older(s0, p));
      forall w | w in Older(s0, p)
        ensures Publishes(s.log, w) >= Publishes(s0.log, w) + Refusals(s0, events, p) + Count(Live(s, w))
      {
        StepPays(mid, e, p, w, Older(s0, p));
      }
    }
  }

  // ---- a batch left open ----

  /** A transaction whose body has failed, by an error, a panic or the end of its goroutine, and that has not
      been rolled back. */
  predicate Abandoned(s: State, t: TxId) { t in s.open && s.open[t].phase == Failed }

  lemma StepKeepsAbandoned(s: State, e: Event, t: TxId)
    requires IdsOk(s) && Enabled(s, e) && Abandoned(s, t) && e != Abort(t)
    ensures Abandoned(Apply(s, e), t) && Apply(s, e).open[t].batch == s.open[t].batch
  {
    OthersUntouched(s, e);
    if Owner(s, e) != t { assert t in s.open - {Owner(s, e)}; }
  }

  lemma AbandonedRowNotHanded(s: State, e: Event, t: TxId, id: Id)
    requires TxsOk(s) && LocksOk(s) && Enabled(s, e) && Abandoned(s, t) && id in s.open[t].batch
    ensures Publishes(Apply(s, e).log, id) == Publishes(s.log, id)
  {
    if e.PublishOk? || e.PublishFails? {
      var x := s.open[e.tx];
      var row := x.batch[x.moved];
      assert row in x.batch && e.tx != t;
      PublishesAppend(s.log, Entry(row, s.rows[row]), id);
    }
  }

  lemma RunKeepsShape(s0: State, events: seq<Event>, s: State)
    requires Inv(s0) && Run(s0, events) == Some(s)
    ensures TxsOk(s) && IdsOk(s) && LocksOk(s)
  {
    RunKeepsInv(s0, events, s);
  }

  /** Open with that batch, or closed for good. */
  ghost predicate KeepsBatch(s: State, t: TxId, batch: seq<Id>, aborted: bool) {
    && t < s.nextTx
    && if aborted then t !in s.open else Abandoned(s, t) && s.open[t].batch == batch
  }

  lemma StepKeepsBatch(s: State, e: Event, t: TxId, batch: seq<Id>, aborted: bool)
    requires IdsOk(s) && Enabled(s, e) && KeepsBatch(s, t, batch, aborted)
    ensures KeepsBatch(Apply(s, e), t, batch, aborted || e == Abort(t))
  {
    if !aborted && e != Abort(t) { StepKeepsAbandoned(s, e, t); }
  }

  /** It stays open, with its batch, until the server aborts it; then its number is never open again. */
  lemma {:induction false} AbandonedUntilAbort(s0: State, events: seq<Event>, s: State, t: TxId)
    requires Inv(s0) && Run(s0, events) == Some(s) && Abandoned(s0, t)
    ensures KeepsBatch(s, t, s0.open[t].batch, Abort(t) in events)
    decreases |events|
  {
    if events == [] {
      RunKeepsShape(s0, events, s);
    } else {
      var before, e := events[..|events| - 1], events[|events| - 1];
      var mid := Run(s0, before).value;
      assert events == before + [e];
      AbandonedUntilAbort(s0, before, mid, t);
      RunKeepsShape(s0, before, mid);
      StepKeepsBatch(mid, e, t, s0.open[t].batch, Abort(t) in before);
    }
  }

  lemma {:induction false} AbandonedRowUnpublished(s0: State, events: seq<Event>, s: State, t: TxId, id: Id)
    requires Inv(s0) && Run(s0, events) == Some(s) && Abandoned(s0, t) && id in s0.open[t].batch
    requires Abort(t) !in events
    ensures Publishes(s.log, id) == Publishes(s0.log, id)
    decreases |events|
  {
    if events != [] {
      var before, e := events[..|events| - 1], events[|events| - 1];
      var mid := Run(s0, before).value;
      assert events == before + [e];
      AbandonedRowUnpublished(s0, before, mid, t, id);
      AbandonedUntilAbort(s0, before, mid, t);
      RunKeepsShape(s0, before, mid);
      AbandonedRowNotHanded(mid, e, t, id);
    }
  }

  lemma HeldRow(s: State, t: TxId, id: Id)
    requires LocksOk(s) && t in s.open && id in s.open[t].batch
    ensures id in s.rows && id !in s.marked && !Available(s, id)
  {
  }

  /** A batch whose goroutine ended keeps its rows from every relay, unmarked, unavailable and not published
      again, exactly as long as the server has not aborted its transaction. */
  lemma AbandonedBatchIsStuck(s0: State, events: seq<Event>, s: State, t: TxId, id: Id)
    requires Inv(s0) && Run(s0, events) == Some(s) && Abandoned(s0, t) && id in s0.open[t].batch
    ensures t in s.open <==> Abort(t) !in events
    ensures Abort(t) !in events ==> id in s.rows && id !in s.marked && !Available(s, id)
    ensures Abort(t) !in events ==> Publishes(s.log, id) == Publishes(s0.log, id)
  {
    AbandonedUntilAbort(s0, events, s, t);
    if Abort(t) !in events {
      RunKeepsShape(s0, events, s);
      HeldRow(s, t, id);
      AbandonedRowUnpublished(s0, events, s, t, id);
    }
  }
}
