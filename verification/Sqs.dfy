/** At-least-once delivery over one SQS queue (events/aws/sqs/sqs.go) as a step system: any number
    of workers, visibility timeouts, failing deletes and abandoned batches. Handlers are subscribed
    before traffic, each through the bus and the retry middleware. */
module Sqs {
  import opened Options
  import opened Retry
  import opened Dispatch

  type MsgId = nat
  type WorkerId = nat

  /** The handlers subscribed to a name, in order. */
  type Subs = string -> seq<Policy>

  predicate Usable(subs: Subs, name: string) {
    forall i | 0 <= i < |subs(name)| :: subs(name)[i].attempts >= 1
  }

  datatype Status = Visible | InFlight | Deleted

  /** A worker in handle: message batch[pos], handler `next` to run; ok while none has failed. */
  datatype Work = Work(batch: seq<MsgId>, pos: nat, next: nat, ok: bool)

  /** settled: the handler runs that ended settled (succeeded, dropped or parked) for a message,
      by the handler's place in its name's subscriptions; succeeded: those that succeeded. */
  datatype State = State(name: map<MsgId, string>, status: map<MsgId, Status>, workers: map<WorkerId, Work>,
                         settled: set<(MsgId, nat)>, succeeded: set<(MsgId, nat)>)

  datatype Event =
    | Send(id: MsgId, name: string)
    | Receive(w: WorkerId, ids: seq<MsgId>)
    | RunHandler(w: WorkerId, sc: Script)
    | Leave(w: WorkerId)                                // some handler failed: left for redelivery
    | Delete(w: WorkerId, done: bool, acked: bool)      // every handler acked; the delete may fail, or
                                                        // be done without the worker being told
    | Expire(id: MsgId)                                 // the visibility timeout
    | Quit(w: WorkerId)                                 // batch done, ctx ended, or crash

  const EMPTY := State(map[], map[], map[], {}, {})

  predicate Busy(s: State, w: WorkerId) {
    && w in s.workers && s.workers[w].pos < |s.workers[w].batch|
    && s.workers[w].batch[s.workers[w].pos] in s.name
  }

  function Current(s: State, w: WorkerId): MsgId
    requires Busy(s, w)
  {
    s.workers[w].batch[s.workers[w].pos]
  }

  function Handlers(subs: Subs, s: State, w: WorkerId): seq<Policy>
    requires Busy(s, w)
  {
    subs(s.name[Current(s, w)])
  }

  predicate Enabled(subs: Subs, s: State, e: Event) {
    match e
    case Send(id, _) => id !in s.status
    case Receive(w, ids) => w !in s.workers && forall id | id in ids :: id in s.status && s.status[id] == Visible
    case RunHandler(w, _) =>
      && Busy(s, w) && s.workers[w].next < |Handlers(subs, s, w)|
      && Handlers(subs, s, w)[s.workers[w].next].attempts >= 1
    case Leave(w) => Busy(s, w) && s.workers[w].next >= |Handlers(subs, s, w)| && !s.workers[w].ok
    case Delete(w, done, acked) =>
      Busy(s, w) && s.workers[w].next >= |Handlers(subs, s, w)| && s.workers[w].ok && (acked ==> done)
    case Expire(id) => id in s.status && s.status[id] == InFlight
    case Quit(w) => w in s.workers
  }

  function NextMessage(k: Work): Work { Work(k.batch, k.pos + 1, 0, true) }

  function Apply(subs: Subs, s: State, e: Event): State
    requires Enabled(subs, s, e)
  {
    match e
    case Send(id, name) => s.(name := s.name[id := name], status := s.status[id := Visible])
    case Receive(w, ids) =>
      s.(status := s.status + (map id | id in ids :: InFlight), workers := s.workers[w := Work(ids, 0, 0, true)])
    case RunHandler(w, sc) =>
      var k, id := s.workers[w], Current(s, w);
      var p := Handlers(subs, s, w)[k.next];
      var fate := Retry.Deliver(p, sc).fate;
      s.(workers := s.workers[w := k.(next := k.next + 1, ok := k.ok && OnDeliver(p, sc).None?)],
         settled := if fate != Failing then s.settled + {(id, k.next)} else s.settled,
         succeeded := if fate == Succeeded then s.succeeded + {(id, k.next)} else s.succeeded)
    case Leave(w) => s.(workers := s.workers[w := NextMessage(s.workers[w])])
    case Delete(w, done, _) =>
      s.(workers := s.workers[w := NextMessage(s.workers[w])],
         status := if done then s.status[Current(s, w) := Deleted] else s.status)
    case Expire(id) => s.(status := s.status[id := Visible])
    case Quit(w) => s.(workers := s.workers - {w})
  }

  function Run(subs: Subs, s: State, events: seq<Event>): Option<State>
    decreases |events|
  {
    if events == [] then Some(s)
    else
      var last := events[|events| - 1];
      var mid := Run(subs, s, events[..|events| - 1]);
      if mid.Some? && Enabled(subs, mid.value, last) then Some(Apply(subs, mid.value, last)) else None
  }

  // ---- what every step keeps ----

  /** Every handler subscribed to the message's name has settled it. */
  predicate AllSettled(subs: Subs, s: State, id: MsgId)
    requires id in s.name
  {
    forall i | 0 <= i < |subs(s.name[id])| :: (id, i) in s.settled
  }

  ghost predicate MessagesOk(subs: Subs, s: State) {
    && s.name.Keys == s.status.Keys
    && (forall id | id in s.status && s.status[id] == Deleted :: AllSettled(subs, s, id))
    && (forall r | r in s.settled :: r.0 in s.name && r.1 < |subs(s.name[r.0])|)
    && (forall r | r in s.settled && subs(s.name[r.0])[r.1].exhausted == Nack :: r in s.succeeded)
  }

  ghost predicate WorkOk(subs: Subs, s: State, k: Work) {
    && k.pos <= |k.batch|
    && (forall id | id in k.batch :: id in s.name)
    && (k.pos < |k.batch| && k.ok && k.batch[k.pos] in s.name ==>
          forall i | 0 <= i < k.next && i < |subs(s.name[k.batch[k.pos]])| :: (k.batch[k.pos], i) in s.settled)
  }

  ghost predicate WorkersOk(subs: Subs, s: State) {
    forall w | w in s.workers :: WorkOk(subs, s, s.workers[w])
  }

  ghost predicate Inv(subs: Subs, s: State) {
    MessagesOk(subs, s) && WorkersOk(subs, s)
  }

  /** Names are fixed, messages stay, settled runs stay settled, and deleted stays deleted. */
  predicate Grows(s: State, s': State) {
    && (forall id | id in s.name :: id in s'.name && s'.name[id] == s.name[id])
    && s.settled <= s'.settled && s.succeeded <= s'.succeeded
    && (forall id | id in s.status :: id in s'.status && (s.status[id] == Deleted ==> s'.status[id] == Deleted))
  }

  lemma StepGrows(subs: Subs, s: State, e: Event)
    requires MessagesOk(subs, s) && Enabled(subs, s, e)
    ensures Grows(s, Apply(subs, s, e))
  {
  }

  lemma OthersUntouched(subs: Subs, s: State, e: Event, w: WorkerId)
    requires Enabled(subs, s, e) && !Concerns(e, w)
    ensures w in s.workers <==> w in Apply(subs, s, e).workers
    ensures w in s.workers ==> Apply(subs, s, e).workers[w] == s.workers[w]
  {
  }

  predicate Concerns(e: Event, w: WorkerId) {
    !e.Send? && !e.Expire? && e.w == w
  }

  /** What a worker has settled stays settled, whoever acts. */
  lemma WorkStaysOk(subs: Subs, s: State, s': State, k: Work)
    requires WorkOk(subs, s, k) && Grows(s, s')
    ensures WorkOk(subs, s', k)
  {
  }

  lemma OwnWorkOk(subs: Subs, s: State, e: Event)
    requires MessagesOk(subs, s) && Enabled(subs, s, e) && !e.Send? && !e.Expire?
    requires e.w in s.workers ==> WorkOk(subs, s, s.workers[e.w])
    ensures e.w in Apply(subs, s, e).workers ==> WorkOk(subs, Apply(subs, s, e), Apply(subs, s, e).workers[e.w])
  {
    match e
    case RunHandler(w, sc) => OnDeliverNilMeansSettled(Handlers(subs, s, w)[s.workers[w].next], sc);
    case Receive(w, ids) => assert forall id | id in ids :: id in s.name.Keys;
    case _ =>
  }

  lemma StepKeepsWorkers(subs: Subs, s: State, e: Event)
    requires Inv(subs, s) && Enabled(subs, s, e)
    ensures WorkersOk(subs, Apply(subs, s, e))
  {
    var s' := Apply(subs, s, e);
    StepGrows(subs, s, e);
    forall w | w in s'.workers ensures WorkOk(subs, s', s'.workers[w]) {
      if Concerns(e, w) {
        OwnWorkOk(subs, s, e);
      } else {
        OthersUntouched(subs, s, e, w);
        WorkStaysOk(subs, s, s', s.workers[w]);
      }
    }
  }

  lemma StepKeepsMessages(subs: Subs, s: State, e: Event)
    requires Inv(subs, s) && Enabled(subs, s, e)
    ensures MessagesOk(subs, Apply(subs, s, e))
  {
    var s' := Apply(subs, s, e);
    match e
    case RunHandler(w, sc) =>
      NilMeansSettled(Handlers(subs, s, w)[s.workers[w].next], sc);
    case Delete(w, done, _) =>
      assert WorkOk(subs, s, s.workers[w]);
    case Receive(w, ids) =>
      assert forall id | id in ids :: id in s.status && s.status[id] == Visible;
    case _ =>
  }

  lemma {:induction false} RunKeepsInv(subs: Subs, s: State, events: seq<Event>, s': State)
    requires Inv(subs, s) && Run(subs, s, events) == Some(s')
    ensures Inv(subs, s') && Grows(s, s')
    decreases |events|
  {
    if events != [] {
      var e := events[|events| - 1];
      var mid := Run(subs, s, events[..|events| - 1]).value;
      RunKeepsInv(subs, s, events[..|events| - 1], mid);
      StepGrows(subs, mid, e);
      StepKeepsMessages(subs, mid, e);
      StepKeepsWorkers(subs, mid, e);
    }
  }

  // ---- the whole-run theorems ----

  /** At least once, end to end, over every interleaving of workers, redeliveries, failing deletes
      and crashes: a message still known to the queue is visible, in flight or deleted; if it is
      deleted, every handler subscribed to its name has settled it; and a handler whose policy is
      Nack settled it by succeeding. */
  lemma DeletedMeansSettledByEveryHandler(subs: Subs, events: seq<Event>, s: State, id: MsgId)
    requires Run(subs, EMPTY, events) == Some(s) && id in s.name
    ensures id in s.status
    ensures s.status[id] == Deleted ==> forall i | 0 <= i < |subs(s.name[id])| ::
              (id, i) in s.settled && (subs(s.name[id])[i].exhausted == Nack ==> (id, i) in s.succeeded)
  {
    RunKeepsInv(subs, EMPTY, events, s);
  }

  /** Nothing sent is forgotten, and a deleted message never comes back. */
  lemma SentStaysKnown(subs: Subs, before: seq<Event>, s: State, after: seq<Event>, s': State, id: MsgId)
    requires Run(subs, EMPTY, before) == Some(s) && Run(subs, s, after) == Some(s') && id in s.name
    ensures id in s'.name && s'.name[id] == s.name[id] && id in s.status && id in s'.status
    ensures s.status[id] == Deleted ==> s'.status[id] == Deleted
  {
    RunKeepsInv(subs, EMPTY, before, s);
    RunKeepsInv(subs, s, after, s');
  }

  /** While some handler has not settled it, the message is still there to be delivered: visible,
      or in flight and visible again once its timeout passes. */
  lemma UnsettledIsRedelivered(subs: Subs, events: seq<Event>, s: State, id: MsgId, i: nat)
    requires Run(subs, EMPTY, events) == Some(s) && id in s.name
    requires i < |subs(s.name[id])| && (id, i) !in s.settled
    ensures id in s.status
    ensures s.status[id] == Visible
            || (Enabled(subs, s, Expire(id)) && Apply(subs, s, Expire(id)).status[id] == Visible)
  {
    RunKeepsInv(subs, EMPTY, events, s);
  }

  /** Step k of the trace ran handler h of message id, and it ended settled. */
  ghost predicate SettlingRun(subs: Subs, events: seq<Event>, k: nat, id: MsgId, h: nat) {
    && k < |events| && events[k].RunHandler?
    && var before := Run(subs, EMPTY, events[..k]);
       && before.Some? && Enabled(subs, before.value, events[k])
       && Current(before.value, events[k].w) == id && before.value.workers[events[k].w].next == h
       && Retry.Deliver(Handlers(subs, before.value, events[k].w)[h], events[k].sc).fate != Failing
  }

  /** The record of settled handlers is the trace's own: each entry is a handler run in it. */
  lemma {:induction false} SettledHasARun(subs: Subs, events: seq<Event>, s: State, id: MsgId, h: nat)
    requires Run(subs, EMPTY, events) == Some(s) && (id, h) in s.settled
    ensures exists k: nat :: SettlingRun(subs, events, k, id, h)
    decreases |events|
  {
    if events != [] {
      var before, e := events[..|events| - 1], events[|events| - 1];
      var mid := Run(subs, EMPTY, before).value;
      if (id, h) in mid.settled {
        SettledHasARun(subs, before, mid, id, h);
        var k: nat :| SettlingRun(subs, before, k, id, h);
        assert events[..k] == before[..k] && events[k] == before[k];
        assert SettlingRun(subs, events, k, id, h);
      } else {
        assert SettlingRun(subs, events, |events| - 1, id, h);
      }
    }
  }

  lemma RunStep(subs: Subs, init: State, events: seq<Event>, s: State, e: Event)
    requires Run(subs, init, events) == Some(s) && Enabled(subs, s, e)
    ensures Run(subs, init, events + [e]) == Some(Apply(subs, s, e))
  {
    assert (events + [e])[..|events|] == events;
  }

  lemma {:induction false} RunConcat(subs: Subs, s: State, first: seq<Event>, mid: State, rest: seq<Event>)
    requires Run(subs, s, first) == Some(mid)
    ensures Run(subs, s, first + rest) == Run(subs, mid, rest)
    decreases |rest|
  {
    if rest == [] {
      assert first + rest == first;
    } else {
      assert (first + rest)[..|first + rest| - 1] == first + rest[..|rest| - 1];
      RunConcat(subs, s, first, mid, rest[..|rest| - 1]);
    }
  }
}
