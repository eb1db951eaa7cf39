/** The order of the final marks (events/examples/outbox/outbox.go): exactly when one relay marks rows in
    id order, over whole runs. Ids are handed out at insert, rows become visible at commit. The order in
    which the inner sink is handed rows is module EmitOrder's. */
module OutboxOrder {
  import opened Options
  import opened Outbox
  import opened OutboxRelay

  /** No row is waiting that is older than a row already marked. */
  ghost predicate InOrder(s: State) {
    forall m, w | m in s.marked && w in Waiting(s) :: m < w
  }

  /** The state before the last event. */
  function Before(events: seq<Event>): State
    requires events != [] && Run(EMPTY, events).Some?
  {
    Run(EMPTY, events[..|events| - 1]).value
  }

  /** The rows in the order they were marked for good. */
  function MarkOrder(events: seq<Event>): seq<Id>
    requires Run(EMPTY, events).Some?
    decreases |events|
  {
    if events == [] then []
    else
      var last := events[|events| - 1];
      MarkOrder(events[..|events| - 1]) + if last.Commit? then Before(events).open[last.tx].batch else []
  }

  /** One relay at a time: whoever selects finds no batch open. */
  ghost predicate SoleRelay(events: seq<Event>)
    requires Run(EMPTY, events).Some?
    decreases |events|
  {
    events == [] ||
    (SoleRelay(events[..|events| - 1]) && (events[|events| - 1].Select? ==> NothingLocked(Before(events))))
  }

  /** When tx last selected, nothing older than a marked row was waiting. */
  ghost predicate SelectedInOrder(events: seq<Event>, tx: TxId)
    requires Run(EMPTY, events).Some?
    decreases |events|
  {
    events == [] ||
    (if events[|events| - 1] == Select(tx) then InOrder(Before(events))
     else SelectedInOrder(events[..|events| - 1], tx))
  }

  /** Every batch that committed had been selected in order. */
  ghost predicate Orderly(events: seq<Event>)
    requires Run(EMPTY, events).Some?
    decreases |events|
  {
    events == [] ||
    var last := events[|events| - 1];
    Orderly(events[..|events| - 1])
    && (last.Commit? && Before(events).open[last.tx].batch != [] ==> SelectedInOrder(events[..|events| - 1], last.tx))
  }

  /** What every run says of its state, where a step needs it. */
  lemma Reached(events: seq<Event>, s: State)
    requires Run(EMPTY, events) == Some(s)
    ensures TxsOk(s) && IdsOk(s) && LocksOk(s)
  {
    EmptyInv();
    RunKeepsInv(EMPTY, events, s);
  }

  predicate Above(ids: seq<Id>, marked: set<Id>) {
    forall m, id | m in marked && id in ids :: m < id
  }

  /** A select starts with the oldest waiting row, so its batch is newer than all marked rows exactly
      when every waiting row is. */
  lemma BatchAboveIff(s: State, limit: nat)
    requires IdsOk(s) && NothingLocked(s) && Take(s, 0, limit) != []
    ensures Above(Take(s, 0, limit), s.marked) <==> InOrder(s)
  {
    var b := Take(s, 0, limit);
    TakeSpec(s, 0, limit);
    assert b[0] in b;
    forall w | w in Waiting(s) ensures Available(s, w) && b[0] <= w {
      assert Available(s, w);
      if w in b {
        var i :| 0 <= i < |b| && b[i] == w;
      }
    }
    forall id | id in b ensures id in Waiting(s) { assert Available(s, id); }
  }

  lemma AscendingConcat(a: seq<Id>, b: seq<Id>, marked: set<Id>)
    requires Ascending(b) && forall id :: id in a <==> id in marked
    ensures Ascending(a + b) <==> Ascending(a) && Above(b, marked)
  {
    var ab := a + b;
    if Ascending(ab) {
      assert forall i | 0 <= i < |a| :: ab[i] == a[i];
      forall m, id | m in marked && id in b ensures m < id {
        assert m in a;
        var i :| 0 <= i < |a| && a[i] == m;
        var j :| 0 <= j < |b| && b[j] == id;
        assert ab[i] == m && ab[|a| + j] == id;
      }
    }
    if Ascending(a) && Above(b, marked) {
      forall i, j | 0 <= i < j < |ab| ensures ab[i] < ab[j] {
        if i < |a| <= j { assert ab[i] in a && ab[j] in b; }
      }
    }
  }

  predicate OneBatch(s: State) {
    forall t, u | t in s.open && u in s.open && s.open[t].batch != [] && s.open[u].batch != [] :: t == u
  }

  /** What holds along a run with one relay at a time. */
  ghost predicate Sole(events: seq<Event>, s: State)
    requires Run(EMPTY, events).Some?
  {
    && OneBatch(s)
    && (forall t | t in s.open && s.open[t].batch != [] ::
          SelectedInOrder(events, t) <==> Above(s.open[t].batch, s.marked))
    && (forall id :: id in MarkOrder(events) <==> id in s.marked)
  }

  /** A step other than a select or a batch's commit changes no batch it does not close, and marks
      nothing. */
  lemma OtherStepsKeepBatches(s: State, e: Event)
    requires s.nextTx !in s.open && Enabled(s, e) && !e.Select?
    requires e.Commit? ==> s.open[e.tx].batch == []
    ensures var s' := Apply(s, e);
            && s'.marked == s.marked
            && forall t | t in s'.open && s'.open[t].batch != [] :: t in s.open && s'.open[t].batch == s.open[t].batch
  {
    OthersUntouched(s, e);
    var s', o := Apply(s, e), Owner(s, e);
    forall t | t in s'.open && s'.open[t].batch != [] ensures t in s.open && s'.open[t].batch == s.open[t].batch {
      if t != o { assert t in s'.open - {o}; assert t in s.open - {o}; }
    }
  }

  /** A select that finds nothing locked leaves its own batch as the only one. */
  lemma SelectOnly(s: State, e: Event)
    requires Enabled(s, e) && e.Select? && NothingLocked(s)
    ensures var s' := Apply(s, e);
            && s'.open[e.tx].batch == Take(s, 0, s.open[e.tx].limit)
            && s'.marked == s.marked && s'.rows == s.rows
            && forall t | t in s'.open && t != e.tx :: s'.open[t].batch == []
  {
    OthersUntouched(s, e);
    forall t | t in Apply(s, e).open && t != e.tx ensures Apply(s, e).open[t].batch == [] {
      assert t in s.open - {e.tx};
    }
  }

  lemma SelectStaysSole(events: seq<Event>, s: State)
    requires events != [] && Run(EMPTY, events) == Some(s) && events[|events| - 1].Select?
    requires IdsOk(Before(events)) && NothingLocked(Before(events)) && Sole(events[..|events| - 1], Before(events))
    ensures Sole(events, s)
  {
    var mid, e := Before(events), events[|events| - 1];
    SelectOnly(mid, e);
    if s.open[e.tx].batch != [] { BatchAboveIff(mid, mid.open[e.tx].limit); }
  }

  lemma CommitStaysSole(events: seq<Event>, s: State)
    requires events != [] && Run(EMPTY, events) == Some(s) && events[|events| - 1].Commit?
    requires Sole(events[..|events| - 1], Before(events))
    requires Before(events).open[events[|events| - 1].tx].batch != []
    ensures Sole(events, s)
  {
    var mid, e := Before(events), events[|events| - 1];
    assert forall t | t in s.open :: t in mid.open && t != e.tx && s.open[t] == mid.open[t];
  }

  lemma {:induction false} RunStaysSole(events: seq<Event>, s: State)
    requires Run(EMPTY, events) == Some(s) && SoleRelay(events)
    ensures Sole(events, s)
    decreases |events|
  {
    if events != [] {
      var before, e, mid := events[..|events| - 1], events[|events| - 1], Before(events);
      RunStaysSole(before, mid);
      Reached(before, mid);
      if e.Select? {
        SelectStaysSole(events, s);
      } else if e.Commit? && mid.open[e.tx].batch != [] {
        CommitStaysSole(events, s);
      } else {
        OtherStepsKeepBatches(mid, e);
      }
    }
  }

  /** Mark order, exactly: with one relay at a time, rows are marked in id order if and only if no
      committed batch was selected while a row older than a marked one was waiting. */
  lemma {:induction false} MarkOrderIff(events: seq<Event>, s: State)
    requires Run(EMPTY, events) == Some(s) && SoleRelay(events)
    ensures Ascending(MarkOrder(events)) <==> Orderly(events)
    decreases |events|
  {
    if events != [] {
      var before, e, mid := events[..|events| - 1], events[|events| - 1], Before(events);
      MarkOrderIff(before, mid);
      assert MarkOrder(before) + [] == MarkOrder(before);
      if e.Commit? {
        RunStaysSole(before, mid);
        Reached(before, mid);
        assert TxOk(mid.open[e.tx]);
        assert mid.open[e.tx].batch != [] ==>
            (SelectedInOrder(before, e.tx) <==> Above(mid.open[e.tx].batch, mid.marked));
        AscendingConcat(MarkOrder(before), mid.open[e.tx].batch, mid.marked);
      }
    }
  }

  // ---- commits past what is taken ----

  predicate Below(a: set<Id>, b: set<Id>) {
    forall x, y | x in a && y in b :: x < y
  }

  /** The rows in open batches, and those a select may take. */
  ghost function HeldRows(s: State): set<Id> {
    set id | id in s.rows && exists t :: t in s.open && id in s.open[t].batch
  }

  function FreeRows(s: State): set<Id> {
    set id | id in s.rows && Available(s, id)
  }

  /** The step shows only rows newer than every row marked or held so far. */
  ghost predicate ShowsPastTaken(s: State, s': State) {
    Below(s.marked + HeldRows(s), s'.rows.Keys - s.rows.Keys)
  }

  ghost predicate CommitsPassTaken(events: seq<Event>)
    requires Run(EMPTY, events).Some?
    decreases |events|
  {
    events == [] ||
    (CommitsPassTaken(events[..|events| - 1]) && ShowsPastTaken(Before(events), Run(EMPTY, events).value))
  }

  /** Marked rows are older than held ones, and those older than the free ones. */
  ghost predicate Tiered(s: State) {
    Below(s.marked, HeldRows(s)) && Below(s.marked + HeldRows(s), FreeRows(s))
  }

  lemma TieredInOrder(s: State)
    requires Tiered(s) && NothingLocked(s)
    ensures InOrder(s)
  {
    forall w | w in Waiting(s) ensures w in FreeRows(s) { }
  }

  /** What a step may do to the three tiers: mark held rows, let go of held rows, show new ones. */
  lemma TiersStep(s: State, s': State)
    requires Tiered(s) && ShowsPastTaken(s, s')
    requires s'.marked <= s.marked + HeldRows(s) && HeldRows(s') <= HeldRows(s)
    requires FreeRows(s') <= FreeRows(s) + (s'.rows.Keys - s.rows.Keys) + HeldRows(s)
    requires s'.marked <= s.marked || HeldRows(s') == {}
    requires FreeRows(s') !! HeldRows(s) || (HeldRows(s') == {} && s'.marked <= s.marked)
    ensures Tiered(s')
  {
  }

  lemma SelectKeepsTiers(s: State, e: Event)
    requires IdsOk(s) && LocksOk(s) && Enabled(s, e) && e.Select? && NothingLocked(s) && Tiered(s)
    ensures Tiered(Apply(s, e))
  {
    var s', b := Apply(s, e), Take(s, 0, s.open[e.tx].limit);
    TakeSpec(s, 0, s.open[e.tx].limit);
    SelectOnly(s, e);
    forall h | h in HeldRows(s') ensures h in b && h in FreeRows(s) { assert h in b; }
    assert e.tx in s'.open && s'.open[e.tx].batch == b;
    forall w | w in FreeRows(s') ensures w in FreeRows(s) && w !in b { }
  }

  /** A closing transaction lets go of its batch, and nobody else holds one. */
  lemma ClosingLetsGo(s: State, e: Event)
    requires LocksOk(s) && OneBatch(s) && Enabled(s, e) && (e.Commit? || e.Abort?)
    ensures Apply(s, e).open == s.open - {e.tx}
    ensures HeldRows(Apply(s, e)) <= HeldRows(s) && Ids(s.open[e.tx].batch) <= HeldRows(s)
    ensures s.open[e.tx].batch != [] ==> HeldRows(Apply(s, e)) == {}
  {
    LetsGo(s, Apply(s, e), e.tx);
  }

  lemma LetsGo(s: State, s': State, tx: TxId)
    requires LocksOk(s) && OneBatch(s) && tx in s.open && s'.open == s.open - {tx}
    ensures HeldRows(s') <= HeldRows(s) && Ids(s.open[tx].batch) <= HeldRows(s)
    ensures s.open[tx].batch != [] ==> HeldRows(s') == {}
  {
    forall h | h in HeldRows(s') ensures h in HeldRows(s) && s.open[tx].batch == [] {
      var t :| t in s'.open && h in s'.open[t].batch;
      assert t in s.open && t != tx && h in s.open[t].batch;
    }
  }

  lemma CommitKeepsTiers(s: State, e: Event)
    requires IdsOk(s) && LocksOk(s) && OneBatch(s) && Enabled(s, e) && e.Commit? && Tiered(s)
             && ShowsPastTaken(s, Apply(s, e))
    ensures Tiered(Apply(s, e))
  {
    var s' := Apply(s, e);
    ClosingLetsGo(s, e);
    forall w | w in FreeRows(s') ensures w !in HeldRows(s) && (w in s.rows ==> w in FreeRows(s)) {
      StillFree(s, s', e.tx, w);
    }
    TiersStep(s, s');
  }

  lemma AbortKeepsTiers(s: State, e: Event)
    requires IdsOk(s) && LocksOk(s) && OneBatch(s) && Enabled(s, e) && e.Abort? && Tiered(s)
    ensures Tiered(Apply(s, e))
  {
    var s' := Apply(s, e);
    ClosingLetsGo(s, e);
    forall w | w in FreeRows(s') ensures w in FreeRows(s) || w in Ids(s.open[e.tx].batch) {
      if w !in Ids(s.open[e.tx].batch) { StillFree(s, s', e.tx, w); }
    }
    TiersStep(s, s');
  }

  /** A row that is free once tx has closed, and was not in tx's batch, was free before. */
  lemma StillFree(s: State, s': State, tx: TxId, w: Id)
    requires tx in s.open && s'.open == s.open - {tx} && s.marked <= s'.marked
    requires Available(s', w) && (w in s.open[tx].batch ==> w in s'.marked)
    ensures w !in HeldRows(s) && (w in s.rows ==> w in FreeRows(s))
  {
    forall t | t in s.open ensures w !in s.open[t].batch {
      if t != tx { assert t in s'.open && s'.open[t] == s.open[t]; }
    }
  }

  lemma QuietKeepsTiers(s: State, e: Event)
    requires IdsOk(s) && LocksOk(s) && Enabled(s, e) && !e.Commit? && !e.Abort? && !e.Select? && Tiered(s)
             && ShowsPastTaken(s, Apply(s, e))
    ensures Tiered(Apply(s, e))
  {
    var s' := Apply(s, e);
    OtherStepsKeepBatches(s, e);
    HeldStaysHeld(s, e);
    forall h | h in HeldRows(s') ensures h in HeldRows(s) { }
    forall w | w in FreeRows(s') ensures w !in HeldRows(s) && (w in s.rows ==> w in FreeRows(s)) { }
    TiersStep(s, s');
  }

  lemma HeldStaysHeld(s: State, e: Event)
    requires s.nextTx !in s.open && Enabled(s, e) && !e.Commit? && !e.Abort? && !e.Select?
    ensures HeldRows(s) <= HeldRows(Apply(s, e))
  {
    var s', o := Apply(s, e), Owner(s, e);
    OthersUntouched(s, e);
    forall h | h in HeldRows(s) ensures h in HeldRows(s') {
      var t :| t in s.open && h in s.open[t].batch;
      if t != o { assert t in s'.open - {o}; }
      assert t in s'.open && h in s'.open[t].batch;
    }
  }

  /** When rows become visible past everything marked or held, one relay at a time selects in order,
      whatever fails. */
  lemma {:induction false} CommitsPastTakenAreOrderly(events: seq<Event>, s: State)
    requires Run(EMPTY, events) == Some(s) && SoleRelay(events) && CommitsPassTaken(events)
    ensures Tiered(s) && Orderly(events) && forall t :: SelectedInOrder(events, t)
    decreases |events|
  {
    if events != [] {
      var before, e, mid := events[..|events| - 1], events[|events| - 1], Before(events);
      CommitsPastTakenAreOrderly(before, mid);
      Reached(before, mid);
      RunStaysSole(before, mid);
      StepKeepsTiers(mid, e);
      if e.Select? { TieredInOrder(mid); }
    }
  }

  lemma StepKeepsTiers(s: State, e: Event)
    requires IdsOk(s) && LocksOk(s) && OneBatch(s) && Enabled(s, e) && (e.Select? ==> NothingLocked(s))
    requires Tiered(s) && ShowsPastTaken(s, Apply(s, e))
    ensures Tiered(Apply(s, e))
  {
    if e.Select? { SelectKeepsTiers(s, e); }
    else if e.Commit? { CommitKeepsTiers(s, e); }
    else if e.Abort? { AbortKeepsTiers(s, e); }
    else { QuietKeepsTiers(s, e); }
  }

  /** Marks are made in id order when no commit shows a row older than one marked or held. */
  lemma MarkOrderWhenCommitsPassTaken(events: seq<Event>, s: State)
    requires Run(EMPTY, events) == Some(s) && SoleRelay(events) && CommitsPassTaken(events)
    ensures Ascending(MarkOrder(events))
  {
    CommitsPastTakenAreOrderly(events, s);
    MarkOrderIff(events, s);
  }
}
