/** Emit order as the inner sink sees it (events/examples/outbox/outbox.go): exactly when one relay hands
    it rows in id order, over whole runs. A batch that aborts is handed over again, so the order is that
    of first acceptances. */
module EmitOrder {
  import opened Options
  import opened Outbox
  import opened OutboxRelay
  import opened OutboxOrder

  /** The rows the sink accepted, one by one, redeliveries included. */
  function Seen(log: seq<Entry>): seq<Id> {
    if log == [] then [] else Seen(log[..|log| - 1]) + [log[|log| - 1].id]
  }

  /** Each id once, where it first stands. */
  function FirstOf(ids: seq<Id>): seq<Id> {
    if ids == [] then []
    else
      var front, last := ids[..|ids| - 1], ids[|ids| - 1];
      FirstOf(front) + if last in front then [] else [last]
  }

  /** The rows in the order the sink first accepted them. */
  function AcceptOrder(s: State): seq<Id> { FirstOf(Seen(s.log)) }

  /** The row the step hands to the sink, if the sink accepts one. */
  function Accepted(s: State, e: Event): seq<Id>
    requires Enabled(s, e)
  {
    if e.PublishOk? || (e.PublishFails? && e.accepted) then [s.open[e.tx].batch[s.open[e.tx].moved]] else []
  }

  /** Every waiting row the sink has never accepted is newer than every row it has. */
  ghost predicate UnseenAreNewer(s: State) {
    forall seen, w | seen in Seen(s.log) && w in Waiting(s) && w !in Seen(s.log) :: seen < w
  }

  /** The state tx last selected in. */
  function SelectedFrom(events: seq<Event>, tx: TxId): Option<State>
    requires Run(EMPTY, events).Some?
    decreases |events|
  {
    if events == [] then None
    else if events[|events| - 1] == Select(tx) then Some(Before(events))
    else SelectedFrom(events[..|events| - 1], tx)
  }

  ghost predicate SelectedUnseenNewer(events: seq<Event>, tx: TxId)
    requires Run(EMPTY, events).Some?
  {
    var from := SelectedFrom(events, tx);
    from.Some? && UnseenAreNewer(from.value)
  }

  /** Every batch that hands the sink a row for the first time had been selected while no waiting row
      new to the sink was older than one it knew. */
  ghost predicate SelectsInOrder(events: seq<Event>)
    requires Run(EMPTY, events).Some?
    decreases |events|
  {
    events == [] ||
    var before, last := events[..|events| - 1], events[|events| - 1];
    && SelectsInOrder(before)
    && forall id | id in Accepted(Before(events), last) && id !in Seen(Before(events).log) ::
         SelectedUnseenNewer(before, last.tx)
  }

  // ---- first occurrences ----

  lemma FirstOfAppend(ids: seq<Id>, id: Id)
    ensures FirstOf(ids + [id]) == FirstOf(ids) + if id in ids then [] else [id]
  {
    assert (ids + [id])[..|ids|] == ids;
  }

  lemma {:induction false} FirstOfMembers(ids: seq<Id>, id: Id)
    ensures id in FirstOf(ids) <==> id in ids
  {
    if ids != [] {
      FirstOfMembers(ids[..|ids| - 1], id);
      assert ids == ids[..|ids| - 1] + [ids[|ids| - 1]];
    }
  }

  lemma {:induction false} FirstOfPrefix(a: seq<Id>, b: seq<Id>)
    ensures FirstOf(a) <= FirstOf(a + b)
    decreases |b|
  {
    if b == [] {
      assert a + b == a;
    } else {
      var front := b[..|b| - 1];
      assert a + b == (a + front) + [b[|b| - 1]];
      FirstOfPrefix(a, front);
      FirstOfAppend(a + front, b[|b| - 1]);
    }
  }

  /** What is first seen later comes later. */
  lemma LaterIsNewer(a: seq<Id>, b: seq<Id>, seen: Id, id: Id)
    requires Ascending(FirstOf(a + b)) && seen in a && id in b && id !in a
    ensures seen < id
  {
    var all := FirstOf(a + b);
    FirstOfPrefix(a, b);
    FirstOfMembers(a, seen);
    FirstOfMembers(a, id);
    FirstOfMembers(a + b, id);
    var i :| 0 <= i < |FirstOf(a)| && FirstOf(a)[i] == seen;
    var j :| 0 <= j < |all| && all[j] == id;
    assert all[i] == seen && j >= |FirstOf(a)|;
  }

  lemma AppendAscends(ids: seq<Id>, id: Id)
    requires Ascending(FirstOf(ids)) && (id in ids || forall x | x in ids :: x < id)
    ensures Ascending(FirstOf(ids + [id]))
  {
    var first := FirstOf(ids);
    FirstOfAppend(ids, id);
    forall i | 0 <= i < |first| ensures first[i] in ids { FirstOfMembers(ids, first[i]); }
  }

  lemma {:induction false} NewerBatchAscends(a: seq<Id>, b: seq<Id>)
    requires Ascending(FirstOf(a)) && Ascending(b)
    requires forall x, y | x in a && y in b && y !in a :: x < y
    ensures Ascending(FirstOf(a + b))
    decreases |b|
  {
    if b == [] {
      assert a + b == a;
    } else {
      var front, last := b[..|b| - 1], b[|b| - 1];
      NewerBatchAscends(a, front);
      assert a + b == (a + front) + [last];
      forall x | x in front ensures x < last {
        var i :| 0 <= i < |front| && front[i] == x;
        assert b[i] == x;
      }
      AppendAscends(a + front, last);
    }
  }

  /** A select hands over no row before an older one that waits. */
  lemma HandedFirst(s: State, limit: nat, k: nat, id: Id, w: Id)
    requires IdsOk(s) && NothingLocked(s) && k <= |Take(s, 0, limit)|
    requires id in Take(s, 0, limit)[..k] && w in Waiting(s) && w !in Take(s, 0, limit)[..k]
    ensures id < w
  {
    var b := Take(s, 0, limit);
    TakeSpec(s, 0, limit);
    assert Available(s, w);
    var j :| 0 <= j < k && b[j] == id;
    assert b[j] in b;
    if w in b {
      var i :| 0 <= i < |b| && b[i] == w;
      assert b[i] !in b[..k];
    }
  }

  /** The guard, at one select: handing over the first k rows of its batch keeps the order if and only
      if they are all known to the sink or every waiting row new to it is newer than all it knows. */
  lemma SelectKeepsOrderIff(s: State, limit: nat, k: nat)
    requires IdsOk(s) && NothingLocked(s) && k <= |Take(s, 0, limit)|
    ensures var handed := Take(s, 0, limit)[..k];
            Ascending(FirstOf(Seen(s.log) + handed))
            <==> Ascending(AcceptOrder(s)) && ((forall id | id in handed :: id in Seen(s.log)) || UnseenAreNewer(s))
  {
    var b, seen := Take(s, 0, limit), Seen(s.log);
    var handed := b[..k];
    TakeSpec(s, 0, limit);
    forall w ensures w in Waiting(s) <==> Available(s, w) { }
    if Ascending(FirstOf(seen + handed)) {
      FirstOfPrefix(seen, handed);
      if id :| id in handed && id !in seen {
        forall known, w | known in seen && w in Waiting(s) && w !in seen ensures known < w {
          LaterIsNewer(seen, handed, known, if w in handed then w else id);
          if w !in handed { HandedFirst(s, limit, k, id, w); }
        }
      }
    } else if Ascending(FirstOf(seen)) {
      if (forall id | id in handed :: id in seen) || UnseenAreNewer(s) {
        forall x, y | x in seen && y in handed && y !in seen ensures x < y { assert y in b; }
        NewerBatchAscends(seen, handed);
      }
    }
  }

  // ---- one relay at a time ----

  /** The open batch is the one selected from s0, and the log is s0's and what it has published. */
  ghost predicate BatchFrom(s: State, x: Tx, s0: State) {
    && x.batch == Take(s0, 0, x.limit) && x.published <= |x.batch|
    && Seen(s.log) == Seen(s0.log) + x.batch[..x.published]
  }

  ghost predicate Traced(events: seq<Event>, s: State)
    requires Run(EMPTY, events).Some?
  {
    forall t | t in s.open && s.open[t].batch != [] ::
      SelectedFrom(events, t).Some? && BatchFrom(s, s.open[t], SelectedFrom(events, t).value)
  }

  lemma SeenAppend(log: seq<Entry>, e: Entry)
    ensures Seen(log + [e]) == Seen(log) + [e.id]
  {
    assert (log + [e])[..|log|] == log;
  }

  lemma StepSees(s: State, e: Event)
    requires Enabled(s, e)
    ensures Seen(Apply(s, e).log) == Seen(s.log) + Accepted(s, e)
    ensures |Accepted(s, e)| <= 1
  {
    if Accepted(s, e) != [] {
      var row := s.open[e.tx].batch[s.open[e.tx].moved];
      SeenAppend(s.log, Entry(row, s.rows[row]));
    }
  }

  lemma AcceptStaysTraced(s: State, e: Event, s0: State)
    requires Enabled(s, e) && Accepted(s, e) != [] && TxOk(s.open[e.tx]) && BatchFrom(s, s.open[e.tx], s0)
    ensures BatchFrom(Apply(s, e), Apply(s, e).open[e.tx], s0)
    ensures s.open[e.tx].published < |s.open[e.tx].batch|
    ensures Accepted(s, e) == [s.open[e.tx].batch[s.open[e.tx].published]]
  {
    var x := s.open[e.tx];
    StepSees(s, e);
    assert x.batch[..x.published + 1] == x.batch[..x.published] + [x.batch[x.published]];
  }

  /** A step other than a select that hands nothing over leaves every open batch where it was. */
  lemma QuietKeepsBatches(s: State, e: Event)
    requires Enabled(s, e) && !e.Select? && Accepted(s, e) == [] && s.nextTx !in s.open
    ensures forall t | t in Apply(s, e).open && Apply(s, e).open[t].batch != [] ::
              && t in s.open && Apply(s, e).open[t].batch == s.open[t].batch
              && Apply(s, e).open[t].limit == s.open[t].limit && Apply(s, e).open[t].published == s.open[t].published
  {
    OthersUntouched(s, e);
    var s', o := Apply(s, e), Owner(s, e);
    forall t | t in s'.open && s'.open[t].batch != []
      ensures t in s.open && s'.open[t].batch == s.open[t].batch
      ensures s'.open[t].limit == s.open[t].limit && s'.open[t].published == s.open[t].published
    {
      if t != o { assert t in s'.open - {o}; assert t in s.open - {o}; }
    }
  }

  lemma SelectStaysTraced(events: seq<Event>, s: State)
    requires events != [] && Run(EMPTY, events) == Some(s) && events[|events| - 1].Select?
    requires var mid, e := Before(events), events[|events| - 1]; NothingLocked(mid) && TxOk(mid.open[e.tx])
    ensures Traced(events, s)
  {
    var mid, e := Before(events), events[|events| - 1];
    SelectOnly(mid, e);
    assert Seen(mid.log) + [] == Seen(mid.log);
  }

  lemma AcceptKeepsTraced(events: seq<Event>, s: State)
    requires events != [] && Run(EMPTY, events) == Some(s) && Accepted(Before(events), events[|events| - 1]) != []
    requires var mid, e := Before(events), events[|events| - 1];
             TxOk(mid.open[e.tx]) && OneBatch(mid) && Traced(events[..|events| - 1], mid)
    ensures Traced(events, s)
  {
    var mid, e := Before(events), events[|events| - 1];
    assert mid.open[e.tx].batch != [];
    AcceptStaysTraced(mid, e, SelectedFrom(events[..|events| - 1], e.tx).value);
    OthersUntouched(mid, e);
    forall t | t in s.open && t != e.tx ensures s.open[t].batch == [] {
      assert t in s.open - {e.tx};
      assert t in mid.open - {e.tx};
    }
  }

  lemma QuietStaysTraced(events: seq<Event>, s: State)
    requires events != [] && Run(EMPTY, events) == Some(s)
    requires var mid, e := Before(events), events[|events| - 1];
             !e.Select? && Accepted(mid, e) == [] && mid.nextTx !in mid.open && Traced(events[..|events| - 1], mid)
    ensures Traced(events, s)
  {
    var mid, e := Before(events), events[|events| - 1];
    StepSees(mid, e);
    assert Seen(mid.log) + [] == Seen(mid.log);
    QuietKeepsBatches(mid, e);
  }

  lemma {:induction false} RunStaysTraced(events: seq<Event>, s: State)
    requires Run(EMPTY, events) == Some(s) && SoleRelay(events)
    ensures Traced(events, s)
    decreases |events|
  {
    if events != [] {
      var before, e, mid := events[..|events| - 1], events[|events| - 1], Before(events);
      RunStaysTraced(before, mid);
      RunStaysSole(before, mid);
      Reached(before, mid);
      if e.Select? { SelectStaysTraced(events, s); }
      else if Accepted(mid, e) != [] { AcceptKeepsTraced(events, s); }
      else { QuietStaysTraced(events, s); }
    }
  }

  lemma {:induction false} SelectedFromIsReached(events: seq<Event>, s: State, tx: TxId)
    requires Run(EMPTY, events) == Some(s) && SoleRelay(events) && SelectedFrom(events, tx).Some?
    ensures var s0 := SelectedFrom(events, tx).value; IdsOk(s0) && NothingLocked(s0)
    decreases |events|
  {
    var before := events[..|events| - 1];
    Reached(before, Before(events));
    if events[|events| - 1] != Select(tx) { SelectedFromIsReached(before, Before(events), tx); }
  }

  /** Emit order, exactly: with one relay at a time, whatever fails, the sink first accepts rows in id
      order if and only if each batch that handed it a new row was selected while every waiting row new
      to it was newer than every row it had accepted. */
  lemma {:induction false} EmitOrderIff(events: seq<Event>, s: State)
    requires Run(EMPTY, events) == Some(s) && SoleRelay(events)
    ensures Ascending(AcceptOrder(s)) <==> SelectsInOrder(events)
    decreases |events|
  {
    if events != [] {
      var before, e, mid := events[..|events| - 1], events[|events| - 1], Before(events);
      EmitOrderIff(before, mid);
      StepSees(mid, e);
      if Accepted(mid, e) != [] {
        AcceptanceInOrderIff(before, mid, e);
      } else {
        assert Seen(mid.log) + [] == Seen(mid.log);
      }
    }
  }

  lemma AcceptanceInOrderIff(events: seq<Event>, s: State, e: Event)
    requires Run(EMPTY, events) == Some(s) && SoleRelay(events) && Enabled(s, e) && Accepted(s, e) != []
    ensures Ascending(AcceptOrder(Apply(s, e)))
            <==> Ascending(AcceptOrder(s)) && (Accepted(s, e)[0] in Seen(s.log) || SelectedUnseenNewer(events, e.tx))
  {
    RunStaysTraced(events, s);
    Reached(events, s);
    var x := s.open[e.tx];
    assert x.batch != [] && TxOk(x);
    var s0 := SelectedFrom(events, e.tx).value;
    SelectedFromIsReached(events, s, e.tx);
    AcceptStaysTraced(s, e, s0);
    StepSees(s, e);
    NextRowIff(s0, x.limit, x.published, Seen(s.log));
  }

  /** One row further into the batch selected from s0. */
  lemma NextRowIff(s0: State, limit: nat, p: nat, known: seq<Id>)
    requires IdsOk(s0) && NothingLocked(s0) && p < |Take(s0, 0, limit)|
    requires known == Seen(s0.log) + Take(s0, 0, limit)[..p]
    ensures var row := Take(s0, 0, limit)[p];
            Ascending(FirstOf(known + [row])) <==> Ascending(FirstOf(known)) && (row in known || UnseenAreNewer(s0))
  {
    var b := Take(s0, 0, limit);
    SelectKeepsOrderIff(s0, limit, p);
    SelectKeepsOrderIff(s0, limit, p + 1);
    FirstOfAppend(known, b[p]);
    assert FirstOf(known) + [] == FirstOf(known);
    assert b[..p + 1] == b[..p] + [b[p]];
    assert Seen(s0.log) + b[..p + 1] == known + [b[p]];
  }

  // ---- commits that follow id order ----

  /** The step shows only rows newer than every row the sink has seen or an open batch holds. */
  ghost predicate ShowsNewer(s: State, s': State) {
    Below(Ids(Seen(s.log)) + HeldRows(s), s'.rows.Keys - s.rows.Keys)
  }

  ghost predicate CommitsFollowIds(events: seq<Event>)
    requires Run(EMPTY, events).Some?
    decreases |events|
  {
    events == [] ||
    (CommitsFollowIds(events[..|events| - 1]) && ShowsNewer(Before(events), Run(EMPTY, events).value))
  }

  function FreeUnseen(s: State): set<Id> {
    set id | id in FreeRows(s) && id !in Seen(s.log)
  }

  /** What the sink has seen is older than what waits unseen, and held rows than free unseen ones. */
  ghost predicate SeenFirst(s: State) {
    UnseenAreNewer(s) && Below(HeldRows(s), FreeUnseen(s))
  }

  lemma ShowingKeepsSeenFirst(s: State, s': State)
    requires SeenFirst(s) && ShowsNewer(s, s') && s'.log == s.log && s.marked <= s'.marked
    requires HeldRows(s') == {}
             || (HeldRows(s') <= HeldRows(s) && FreeRows(s') <= FreeRows(s) + (s'.rows.Keys - s.rows.Keys))
    ensures SeenFirst(s')
  {
    var shown := s'.rows.Keys - s.rows.Keys;
    forall seen, w | seen in Seen(s.log) && w in Waiting(s') && w !in Seen(s.log) ensures seen < w {
      assert seen in Ids(Seen(s.log));
      assert w in shown || w in Waiting(s);
    }
    if HeldRows(s') != {} {
      forall h, w | h in HeldRows(s') && w in FreeUnseen(s') ensures h < w {
        assert w in shown || w in FreeUnseen(s);
      }
    }
  }

  lemma CloseKeepsSeenFirst(s: State, e: Event)
    requires TxsOk(s) && IdsOk(s) && LocksOk(s) && OneBatch(s) && Enabled(s, e) && (e.Commit? || e.Abort?)
    requires SeenFirst(s) && ShowsNewer(s, Apply(s, e))
    ensures SeenFirst(Apply(s, e))
  {
    var s' := Apply(s, e);
    ClosingLetsGo(s, e);
    if s.open[e.tx].batch == [] {
      forall w | w in FreeRows(s') && w in s.rows ensures w in FreeRows(s) { StillFree(s, s', e.tx, w); }
    }
    ShowingKeepsSeenFirst(s, s');
  }

  lemma SelectKeepsSeenFirst(s: State, e: Event)
    requires TxsOk(s) && IdsOk(s) && LocksOk(s) && Enabled(s, e) && e.Select? && NothingLocked(s) && SeenFirst(s)
    ensures SeenFirst(Apply(s, e))
  {
    var s', b := Apply(s, e), Take(s, 0, s.open[e.tx].limit);
    SelectOnly(s, e);
    forall h | h in HeldRows(s') ensures h in b { }
    forall w | w in FreeRows(s') ensures w in Waiting(s) && w !in b { assert e.tx in s'.open; }
    forall h, w | h in HeldRows(s') && w in FreeUnseen(s') ensures h < w {
      HandedFirst(s, s.open[e.tx].limit, |b|, h, w) by { assert b[..|b|] == b; }
    }
  }

  /** Batches, locks and rows after a step that is no select and closes nothing. */
  lemma HoldingsKept(s: State, e: Event)
    requires LocksOk(s) && s.nextTx !in s.open && Enabled(s, e) && !e.Commit? && !e.Abort? && !e.Select?
    ensures var s' := Apply(s, e);
            && HeldRows(s') == HeldRows(s) && s'.marked == s.marked
            && FreeRows(s') <= FreeRows(s) + (s'.rows.Keys - s.rows.Keys)
  {
    var s' := Apply(s, e);
    OtherStepsKeepBatches(s, e);
    HeldStaysHeld(s, e);
    forall h | h in HeldRows(s') ensures h in HeldRows(s) { }
    forall w | w in FreeRows(s') && w in s.rows ensures w in FreeRows(s) {
      assert w !in HeldRows(s);
    }
  }

  /** The row handed over is older than every other row the sink has not seen. */
  lemma AcceptedIsOldestUnseen(s: State, e: Event, w: Id)
    requires LocksOk(s) && OneBatch(s) && Enabled(s, e) && Accepted(s, e) != [] && SeenFirst(s)
    requires TxOk(s.open[e.tx]) && forall id | id in s.open[e.tx].batch[..s.open[e.tx].published] :: id in Seen(s.log)
    requires w in Waiting(s) && w !in Seen(s.log) && w != Accepted(s, e)[0]
    ensures Accepted(s, e)[0] in Waiting(s) && Accepted(s, e)[0] < w
  {
    var x, row := s.open[e.tx], Accepted(s, e)[0];
    assert row in x.batch && row in HeldRows(s);
    if w in x.batch {
      var i :| 0 <= i < |x.batch| && x.batch[i] == w;
      assert x.batch[i] !in x.batch[..x.published];
    } else {
      forall t | t in s.open ensures w !in s.open[t].batch { }
      assert w in FreeUnseen(s);
    }
  }

  lemma SeeingKeepsSeenFirst(s: State, s': State, row: Id)
    requires SeenFirst(s) && Seen(s'.log) == Seen(s.log) + [row] && Waiting(s') == Waiting(s)
    requires HeldRows(s') == HeldRows(s) && FreeRows(s') <= FreeRows(s)
    requires forall w | w in Waiting(s) && w !in Seen(s.log) && w != row :: row < w
    ensures SeenFirst(s')
  {
    forall w | w in FreeUnseen(s') ensures w in FreeUnseen(s) { }
  }

  lemma AcceptKeepsSeenFirst(s: State, e: Event)
    requires TxsOk(s) && IdsOk(s) && LocksOk(s) && OneBatch(s) && Enabled(s, e) && Accepted(s, e) != [] && SeenFirst(s)
    requires forall id | id in s.open[e.tx].batch[..s.open[e.tx].published] :: id in Seen(s.log)
    ensures SeenFirst(Apply(s, e))
  {
    HoldingsKept(s, e);
    StepSees(s, e);
    assert TxOk(s.open[e.tx]);
    forall w | w in Waiting(s) && w !in Seen(s.log) && w != Accepted(s, e)[0] ensures Accepted(s, e)[0] < w {
      AcceptedIsOldestUnseen(s, e, w);
    }
    SeeingKeepsSeenFirst(s, Apply(s, e), Accepted(s, e)[0]);
  }

  lemma StepKeepsSeenFirst(s: State, e: Event)
    requires TxsOk(s) && IdsOk(s) && LocksOk(s) && OneBatch(s) && Enabled(s, e) && (e.Select? ==> NothingLocked(s))
    requires SeenFirst(s) && ShowsNewer(s, Apply(s, e))
    requires Accepted(s, e) != []
             ==> forall id | id in s.open[e.tx].batch[..s.open[e.tx].published] :: id in Seen(s.log)
    ensures SeenFirst(Apply(s, e))
  {
    if e.Commit? || e.Abort? { CloseKeepsSeenFirst(s, e); }
    else if e.Select? { SelectKeepsSeenFirst(s, e); }
    else if Accepted(s, e) != [] { AcceptKeepsSeenFirst(s, e); }
    else { HoldingsKept(s, e); ShowingKeepsSeenFirst(s, Apply(s, e)); }
  }

  lemma {:induction false} FollowingIdsIsSeenFirst(events: seq<Event>, s: State)
    requires Run(EMPTY, events) == Some(s) && SoleRelay(events) && CommitsFollowIds(events)
    ensures SeenFirst(s) && forall t :: SelectedFrom(events, t).Some? ==> SelectedUnseenNewer(events, t)
    decreases |events|
  {
    if events != [] {
      var before, e, mid := events[..|events| - 1], events[|events| - 1], Before(events);
      FollowingIdsIsSeenFirst(before, mid);
      Reached(before, mid);
      RunStaysSole(before, mid);
      RunStaysTraced(before, mid);
      StepKeepsSeenFirst(mid, e);
    }
  }

  /** So emit order holds, whatever fails and however often a batch aborts, when no commit shows a row
      older than one the sink has accepted or a batch holds. */
  lemma {:induction false} EmitOrderWhenCommitsFollowIds(events: seq<Event>, s: State)
    requires Run(EMPTY, events) == Some(s) && SoleRelay(events) && CommitsFollowIds(events)
    ensures SelectsInOrder(events) && Ascending(AcceptOrder(s))
    decreases |events|
  {
    EmitOrderIff(events, s);
    if events != [] {
      var before, e, mid := events[..|events| - 1], events[|events| - 1], Before(events);
      EmitOrderWhenCommitsFollowIds(before, mid);
      FollowingIdsIsSeenFirst(before, mid);
      RunStaysTraced(before, mid);
      if Accepted(mid, e) != [] { assert mid.open[e.tx].batch != []; }
    }
  }
}
