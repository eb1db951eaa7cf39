/** The worker's methods (events/aws/sqs/sqs.go), run against the queue of module Sqs while other
    workers, senders and timeouts act between any two of their steps. */
module SqsWorker {
  import opened Options
  import opened Backoff
  import opened Retry
  import opened Dispatch
  import opened Sqs

  /** Poll, filled in through a pointer by handle. */
  class Poll {
    var received: nat
    var handled: nat
    var failed: nat
    var undeleted: nat

    constructor (n: nat)
      ensures received == n && handled == failed == undeleted == 0
    {
      received, handled, failed, undeleted := n, 0, 0, 0;
    }
  }

  /** How a ReceiveOnce ended: nil, ctx.Err(), or the error of the poll itself. */
  datatype PollEnd = Finished | CtxEnded | PollFailed

  /** What became of a message: left for redelivery, deleted, or handled without a delete the worker was
      told of. */
  datatype Outcome = Left | Gone | Undeleted

  datatype Ended = Ended(id: MsgId, how: Outcome)

  /** What DeleteMessage does: it works, it works and is reported as an error, or it fails. */
  datatype DeleteReply = Confirmed | Unconfirmed | NotDone

  /** What one ReceiveOnce is answered: how the poll itself ends, whether ctx has ended when it comes to
      the k-th message, what the handlers of that message return, and what its delete does. */
  datatype Replies = Replies(poll: PollEnd, ctxEnded: nat -> bool, handlers: nat -> nat -> Script,
                             delete: nat -> DeleteReply)

  /** Some of the first n handlers hands an error to the sink. */
  predicate SomeFails(handlers: seq<Policy>, scripts: nat -> Script, n: nat)
    requires n <= |handlers| && forall i | 0 <= i < |handlers| :: handlers[i].attempts >= 1
  {
    n > 0 && (SomeFails(handlers, scripts, n - 1) || OnDeliver(handlers[n - 1], scripts(n - 1)).Some?)
  }

  lemma {:induction false} SomeFailsIff(handlers: seq<Policy>, scripts: nat -> Script, n: nat)
    requires n <= |handlers| && forall i | 0 <= i < |handlers| :: handlers[i].attempts >= 1
    ensures SomeFails(handlers, scripts, n) <==> exists i: nat :: i < n && OnDeliver(handlers[i], scripts(i)).Some?
  {
    if n > 0 { SomeFailsIff(handlers, scripts, n - 1); }
  }

  /** A message is left exactly when some handler of its name fails, and is otherwise deleted, as far as
      the worker is told. */
  predicate HowOwed(subs: Subs, name: string, scripts: nat -> Script, reply: DeleteReply, how: Outcome)
    requires Usable(subs, name)
  {
    && (how == Left <==> SomeFails(subs(name), scripts, |subs(name)|))
    && (how == Gone ==> reply.Confirmed?) && (how == Undeleted ==> !reply.Confirmed?)
  }

  /** The endings are those the answers call for. */
  ghost predicate AsAnswered(subs: Subs, s: State, a: Replies, ends: seq<Ended>)
    requires forall name: string :: Usable(subs, name)
  {
    forall k: nat | k < |ends| ::
      ends[k].id in s.name && HowOwed(subs, s.name[ends[k].id], a.handlers(k), a.delete(k), ends[k].how)
  }

  /** ctx had not ended when it came to each of the first n messages. */
  predicate Uncut(a: Replies, n: nat) { forall k: nat | k < n :: !a.ctxEnded(k) }

  lemma AnsweredStays(subs: Subs, s: State, s': State, a: Replies, ends: seq<Ended>)
    requires (forall name: string :: Usable(subs, name)) && Grows(s, s') && AsAnswered(subs, s, a, ends)
    ensures AsAnswered(subs, s', a, ends)
  {
  }

  lemma AnsweredOneMore(subs: Subs, s: State, a: Replies, ends: seq<Ended>, last: Ended)
    requires (forall name: string :: Usable(subs, name)) && AsAnswered(subs, s, a, ends) && last.id in s.name
    requires HowOwed(subs, s.name[last.id], a.handlers(|ends|), a.delete(|ends|), last.how)
    ensures AsAnswered(subs, s, a, ends + [last])
  {
  }

  predicate Ends(e: Event, w: WorkerId) { (e.Leave? || e.Delete?) && e.w == w }

  function How(e: Event): Outcome
    requires e.Leave? || e.Delete?
  {
    if e.Leave? then Left else if e.acked then Gone else Undeleted
  }

  /** The messages w was done with, in order, read off the trace. */
  ghost function Endings(subs: Subs, events: seq<Event>, w: WorkerId): seq<Ended> {
    if events == [] then []
    else
      var front, last := events[..|events| - 1], events[|events| - 1];
      var s := Run(subs, EMPTY, front);
      Endings(subs, front, w)
      + if Ends(last, w) && s.Some? && Busy(s.value, w) then [Ended(Current(s.value, w), How(last))] else []
  }

  lemma EndingsStep(subs: Subs, events: seq<Event>, s: State, e: Event, w: WorkerId)
    requires Run(subs, EMPTY, events) == Some(s) && Enabled(subs, s, e)
    ensures Endings(subs, events + [e], w)
            == Endings(subs, events, w) + if Ends(e, w) then [Ended(Current(s, w), How(e))] else []
  {
    assert (events + [e])[..|events|] == events;
  }

  lemma {:induction false} EndingsForeign(subs: Subs, events: seq<Event>, more: seq<Event>, w: WorkerId)
    requires forall i | 0 <= i < |more| :: !Concerns(more[i], w)
    ensures Endings(subs, events + more, w) == Endings(subs, events, w)
    decreases |more|
  {
    if more == [] {
      assert events + more == events;
    } else {
      assert (events + more)[..|events + more| - 1] == events + more[..|more| - 1];
      EndingsForeign(subs, events, more[..|more| - 1], w);
    }
  }

  function HowMany(ends: seq<Ended>, how: Outcome): nat {
    if ends == [] then 0
    else HowMany(ends[..|ends| - 1], how) + if ends[|ends| - 1].how == how then 1 else 0
  }

  /** The poll counts what the endings show. */
  ghost predicate Counts(poll: Poll, ends: seq<Ended>)
    reads poll
  {
    && poll.failed == HowMany(ends, Left) && poll.undeleted == HowMany(ends, Undeleted)
    && poll.handled - poll.undeleted == HowMany(ends, Gone)
  }

  lemma {:induction false} ForeignRunKeepsWork(subs: Subs, s: State, events: seq<Event>, s': State, w: WorkerId)
    requires Run(subs, s, events) == Some(s') && w in s.workers
    requires forall i | 0 <= i < |events| :: !Concerns(events[i], w)
    ensures w in s'.workers && s'.workers[w] == s.workers[w]
    decreases |events|
  {
    if events != [] {
      var mid := Run(subs, s, events[..|events| - 1]).value;
      ForeignRunKeepsWork(subs, s, events[..|events| - 1], mid, w);
      OthersUntouched(subs, mid, events[|events| - 1], w);
    }
  }

  /** Worker w is at message pos of batch, with `next` handlers of it run. */
  ghost predicate At(s: State, w: WorkerId, batch: seq<MsgId>, pos: nat, next: nat, ok: bool) {
    && w in s.workers && s.workers[w] == Work(batch, pos, next, ok) && pos <= |batch|
    && forall id | id in batch :: id in s.name
  }

  /** ends[k] is what became of batch[k], for a prefix of the batch; an acknowledged delete is one. */
  ghost predicate PrefixDone(s: State, batch: seq<MsgId>, ends: seq<Ended>) {
    && |ends| <= |batch| && (forall k | 0 <= k < |ends| :: ends[k].id == batch[k])
    && forall k | 0 <= k < |ends| && ends[k].how == Gone :: batch[k] in s.status && s.status[batch[k]] == Deleted
  }

  lemma OneMoreDone(s: State, s': State, batch: seq<MsgId>, ends: seq<Ended>, how: Outcome)
    requires PrefixDone(s, batch, ends) && |ends| < |batch| && Grows(s, s')
    requires how == Gone ==> batch[|ends|] in s'.status && s'.status[batch[|ends|]] == Deleted
    ensures var more := ends + [Ended(batch[|ends|], how)];
            && PrefixDone(s', batch, more)
            && forall o :: HowMany(more, o) == HowMany(ends, o) + if how == o then 1 else 0
  {
    var more := ends + [Ended(batch[|ends|], how)];
    assert more[..|ends|] == ends;
  }

  class Queue {
    const subs: Subs
    var s: State
    ghost var trace: seq<Event>

    constructor (subs: Subs)
      ensures this.subs == subs && Valid() && s == EMPTY && trace == []
    {
      this.subs := subs;
      s, trace := EMPTY, [];
    }

    ghost predicate Valid()
      reads this
    {
      Run(subs, EMPTY, trace) == Some(s)
    }

    lemma Reached()
      requires Valid()
      ensures Inv(subs, s)
    {
      RunKeepsInv(subs, EMPTY, trace, s);
    }

    method Do(e: Event)
      requires Valid() && Enabled(subs, s, e)
      modifies this
      ensures Valid() && s == Apply(subs, old(s), e) && trace == old(trace) + [e]
    {
      RunStep(subs, EMPTY, trace, s, e);
      s, trace := Apply(subs, s, e), trace + [e];
    }

    /** Steps of other workers, senders and timeouts. */
    method Meanwhile(w: WorkerId)
      requires Valid()
      modifies this
      ensures Valid() && Grows(old(s), s)
      ensures w in old(s).workers ==> w in s.workers && s.workers[w] == old(s).workers[w]
      ensures old(trace) <= trace && Endings(subs, trace, w) == Endings(subs, old(trace), w)
    {
      assert Run(subs, s, []) == Some(s);
      var events: seq<Event>, s': State :|
        Run(subs, s, events) == Some(s') && forall i | 0 <= i < |events| :: !Concerns(events[i], w);
      RunConcat(subs, EMPTY, trace, s, events);
      Reached();
      RunKeepsInv(subs, s, events, s');
      if w in s.workers { ForeignRunKeepsWork(subs, s, events, s', w); }
      EndingsForeign(subs, trace, events, w);
      s, trace := s', trace + events;
    }

    /** One step of the worker's own. */
    method Step(e: Event, ghost w: WorkerId)
      requires Valid() && Enabled(subs, s, e) && Concerns(e, w)
      modifies this
      ensures Valid() && s == Apply(subs, old(s), e) && Grows(old(s), s) && old(trace) <= trace
      ensures Endings(subs, trace, w)
              == Endings(subs, old(trace), w) + if Ends(e, w) then [Ended(Current(old(s), w), How(e))] else []
    {
      Reached();
      StepGrows(subs, s, e);
      EndingsStep(subs, trace, s, e, w);
      Do(e);
    }

    /** One handler of the message, after whatever others do. */
    method RunNext(w: WorkerId, batch: seq<MsgId>, pos: nat, next: nat, ok: bool, sc: Script) returns (acked: bool)
      requires Valid() && At(s, w, batch, pos, next, ok) && pos < |batch|
      requires Usable(subs, s.name[batch[pos]]) && next < |subs(s.name[batch[pos]])|
      modifies this
      ensures Valid() && old(trace) <= trace && Grows(old(s), s)
      ensures acked <==> OnDeliver(subs(old(s).name[batch[pos]])[next], sc).None?
      ensures At(s, w, batch, pos, next + 1, ok && acked)
      ensures Endings(subs, trace, w) == Endings(subs, old(trace), w)
    {
      Meanwhile(w);
      acked := OnDeliver(subs(s.name[batch[pos]])[next], sc).None?;
      Step(RunHandler(w, sc), w);
    }

    /** The fan-out of one message over its name's handlers: err is false when all acked. */
    method Dispatch(w: WorkerId, batch: seq<MsgId>, pos: nat, scripts: nat -> Script) returns (err: bool)
      requires Valid() && At(s, w, batch, pos, 0, true) && pos < |batch|
      requires Usable(subs, s.name[batch[pos]])
      modifies this
      ensures Valid() && old(trace) <= trace && Grows(old(s), s)
      ensures batch[pos] in s.name && At(s, w, batch, pos, |subs(s.name[batch[pos]])|, !err)
      ensures err == SomeFails(subs(old(s).name[batch[pos]]), scripts, |subs(old(s).name[batch[pos]])|)
      ensures Endings(subs, trace, w) == Endings(subs, old(trace), w)
    {
      var handlers := subs(s.name[batch[pos]]);
      err := false;
      for i := 0 to |handlers|
        invariant Valid() && old(trace) <= trace && Grows(old(s), s)
        invariant At(s, w, batch, pos, i, !err)
        invariant err == SomeFails(handlers, scripts, i)
        invariant Endings(subs, trace, w) == Endings(subs, old(trace), w)
      {
        var acked := RunNext(w, batch, pos, i, !err, scripts(i));
        err := err || !acked;
      }
    }

    /** The DeleteMessage call, which may be done without its answer arriving. */
    method DeleteMessage(w: WorkerId, batch: seq<MsgId>, pos: nat, reply: DeleteReply) returns (how: Outcome)
      requires Valid() && pos < |batch| && batch[pos] in s.name
      requires At(s, w, batch, pos, |subs(s.name[batch[pos]])|, true)
      modifies this
      ensures Valid() && old(trace) <= trace && Grows(old(s), s) && At(s, w, batch, pos + 1, 0, true)
      ensures how == if reply.Confirmed? then Gone else Undeleted
      ensures Endings(subs, trace, w) == Endings(subs, old(trace), w) + [Ended(batch[pos], how)]
      ensures !reply.NotDone? ==> batch[pos] in s.status && s.status[batch[pos]] == Deleted
    {
      Meanwhile(w);
      Step(Delete(w, !reply.NotDone?, reply.Confirmed?), w);
      return if reply.Confirmed? then Gone else Undeleted;
    }

    /** handle: dispatch, then delete if that worked, whatever ctx has done since. */
    method Handle(w: WorkerId, batch: seq<MsgId>, pos: nat, scripts: nat -> Script, reply: DeleteReply, poll: Poll)
      returns (how: Outcome)
      requires Valid() && At(s, w, batch, pos, 0, true) && pos < |batch|
      requires Usable(subs, s.name[batch[pos]])
      modifies this, poll
      ensures HowOwed(subs, old(s).name[batch[pos]], scripts, reply, how)
      ensures Valid() && old(trace) <= trace && Grows(old(s), s) && At(s, w, batch, pos + 1, 0, true)
      ensures Endings(subs, trace, w) == Endings(subs, old(trace), w) + [Ended(batch[pos], how)]
      ensures how == Gone ==> batch[pos] in s.status && s.status[batch[pos]] == Deleted
      ensures poll.received == old(poll.received)
      ensures poll.handled == old(poll.handled) + (if how == Left then 0 else 1)
      ensures poll.failed == old(poll.failed) + (if how == Left then 1 else 0)
      ensures poll.undeleted == old(poll.undeleted) + (if how == Undeleted then 1 else 0)
    {
      var err := Dispatch(w, batch, pos, scripts);
      if err {
        poll.failed := poll.failed + 1;
        Step(Leave(w), w);
        return Left;
      }
      poll.handled := poll.handled + 1;
      how := DeleteMessage(w, batch, pos, reply);
      if how == Undeleted {
        poll.undeleted := poll.undeleted + 1;
      }
    }

    /** The ReceiveMessage call, unless ctx has ended already; which visible messages it leases is the
        server's choice. A call that fails may have leased messages all the same: they stay in flight until
        their timeout. */
    method ReceiveMessage(w: WorkerId, end: PollEnd) returns (batch: seq<MsgId>)
      requires Valid() && w !in s.workers
      modifies this
      ensures Valid() && old(trace) <= trace && Endings(subs, trace, w) == Endings(subs, old(trace), w)
      ensures if end == Finished then At(s, w, batch, 0, 0, true) else w !in s.workers && batch == []
    {
      batch := [];
      if * {
        batch :| forall id | id in batch :: id in s.status && s.status[id] == Visible;
      }
      Reached();
      assert forall id | id in batch :: id in s.name.Keys;
      Step(Event.Receive(w, batch), w);
      if end != Finished {
        Step(Quit(w), w);
        batch := [];
      }
    }

    /** w has done the first |ends| messages of its batch: ends says what became of them, as the answers
        call for and the trace shows, and poll counts it. */
    ghost predicate Handled(w: WorkerId, batch: seq<MsgId>, a: Replies, poll: Poll, before: seq<Ended>,
                            ends: seq<Ended>)
      reads this, poll
      requires forall name: string :: Usable(subs, name)
    {
      && Valid() && At(s, w, batch, |ends|, 0, true)
      && PrefixDone(s, batch, ends) && AsAnswered(subs, s, a, ends)
      && Endings(subs, trace, w) == before + ends
      && Counts(poll, ends) && poll.handled + poll.failed == |ends|
    }

    /** The next message of the batch. */
    method HandleNext(w: WorkerId, batch: seq<MsgId>, a: Replies, poll: Poll, ghost before: seq<Ended>,
                      ends: seq<Ended>) returns (more: seq<Ended>)
      requires forall name: string :: Usable(subs, name)
      requires Handled(w, batch, a, poll, before, ends) && |ends| < |batch|
      modifies this, poll
      ensures old(trace) <= trace && poll.received == old(poll.received)
      ensures |more| == |ends| + 1 && ends <= more && Handled(w, batch, a, poll, before, more)
    {
      var how := Handle(w, batch, |ends|, a.handlers(|ends|), a.delete(|ends|), poll);
      OneMoreDone(old(s), s, batch, ends, how);
      var last := Ended(batch[|ends|], how);
      AnsweredStays(subs, old(s), s, a, ends);
      AnsweredOneMore(subs, s, a, ends, last);
      assert before + ends + [last] == before + (ends + [last]);
      return ends + [last];
    }

    /** The loop over the batch; ctx may end between any two messages. */
    method HandleBatch(w: WorkerId, batch: seq<MsgId>, a: Replies, poll: Poll) returns (cut: bool, ends: seq<Ended>)
      requires Valid() && At(s, w, batch, 0, 0, true) && Counts(poll, []) && poll.handled == poll.failed == 0
      requires forall name: string :: Usable(subs, name)
      modifies this, poll
      ensures old(trace) <= trace && poll.received == old(poll.received)
      ensures Handled(w, batch, a, poll, Endings(subs, old(trace), w), ends)
      ensures Uncut(a, |ends|) && (cut <==> |ends| < |batch|) && (cut ==> a.ctxEnded(|ends|))
    {
      ends := [];
      ghost var before := Endings(subs, trace, w);
      while |ends| < |batch|
        invariant old(trace) <= trace && poll.received == old(poll.received)
        invariant Handled(w, batch, a, poll, before, ends) && Uncut(a, |ends|)
        decreases |batch| - |ends|
      {
        if a.ctxEnded(|ends|) {
          return true, ends;
        }
        assert Uncut(a, |ends| + 1);
        ends := HandleNext(w, batch, a, poll, before, ends);
      }
      return false, ends;
    }

    /** ReceiveOnce: one poll. ctx may end before it, during it, or between any two messages; ends is what
        became of the messages it was done with by then, in the order of the batch. */
    method ReceiveOnce(w: WorkerId, a: Replies)
      returns (poll: Poll, end: PollEnd, batch: seq<MsgId>, ends: seq<Ended>)
      requires Valid() && w !in s.workers
      requires forall name: string :: Usable(subs, name)
      modifies this
      ensures fresh(poll) && Valid() && old(trace) <= trace && w !in s.workers
      ensures PrefixDone(s, batch, ends) && Endings(subs, trace, w) == Endings(subs, old(trace), w) + ends
      ensures Counts(poll, ends)
      ensures poll.received == |batch| && poll.handled + poll.failed == |ends| && poll.undeleted <= poll.handled
      ensures AsAnswered(subs, s, a, ends) && Uncut(a, |ends|)
      ensures a.poll != Finished ==> end == a.poll && batch == []
      ensures a.poll == Finished && |ends| == |batch| ==> end == Finished
      ensures |ends| < |batch| ==> end == CtxEnded && a.ctxEnded(|ends|)
    {
      end, ends := a.poll, [];
      batch := ReceiveMessage(w, end);
      poll := new Poll(|batch|);
      if end == Finished {
        var cut;
        cut, ends := HandleBatch(w, batch, a, poll);
        if cut {
          end := CtxEnded;
        }
        Step(Quit(w), w);
      }
    }
  }

  // ---- the receive loop ----

  /** Poll i is the k-th failure in a row: no good poll came between. */
  ghost predicate InARow(polls: nat -> PollEnd, i: nat, k: nat) {
    && 1 <= k <= i + 1
    && (forall j: nat | i - k < j <= i :: polls(j) == PollFailed)
    && (k <= i ==> polls(i - k) != PollFailed)
  }

  /** The wait begun after each poll: none unless it failed, and the backoff of k after the k-th failure
      in a row. */
  ghost predicate WaitsOwed(polls: nat -> PollEnd, backoff: int -> int, waits: seq<Option<int>>) {
    && (forall i: nat | i < |waits| && polls(i) != PollFailed :: waits[i] == None)
    && (forall i: nat, k: nat | i < |waits| && InARow(polls, i, k) :: waits[i] == Some(backoff(k)))
  }

  /** Receive. polls(i) is how its i-th ReceiveOnce ends, cut(i) whether ctx ends in the wait after
      it; ctx ends by the time of poll `last`. waits[i] is the wait begun after poll i, if any. */
  method Receive(polls: nat -> PollEnd, cut: nat -> bool, last: nat, backoff: int -> int)
    returns (waits: seq<Option<int>>)
    requires polls(last) == CtxEnded
    ensures 1 <= |waits| <= last + 1
    ensures WaitsOwed(polls, backoff, waits)
    ensures forall i | 0 <= i < |waits| - 1 :: !EndsAt(polls, cut, i)
    ensures EndsAt(polls, cut, |waits| - 1)
  {
    var failures := 0;
    waits := [];
    while true
      invariant |waits| <= last
      invariant forall i | 0 <= i < |waits| :: !EndsAt(polls, cut, i)
      invariant WaitsOwed(polls, backoff, waits)
      invariant if failures == 0 then |waits| == 0 || polls(|waits| - 1) != PollFailed
                else |waits| > 0 && InARow(polls, |waits| - 1, failures)
      decreases last - |waits|
    {
      var n := |waits|;
      if polls(n) == Finished {
        failures := 0;
        waits := waits + [None];
        continue;
      }
      if polls(n) == CtxEnded {
        waits := waits + [None];
        return;
      }
      failures := failures + 1;
      NextWait(polls, backoff, waits, failures);
      waits := waits + [Some(backoff(failures))];
      if cut(n) {
        return;
      }
    }
  }

  lemma NextWait(polls: nat -> PollEnd, backoff: int -> int, waits: seq<Option<int>>, k: nat)
    requires WaitsOwed(polls, backoff, waits) && InARow(polls, |waits|, k)
    ensures WaitsOwed(polls, backoff, waits + [Some(backoff(k))])
  {
    forall n: nat | InARow(polls, |waits|, n) ensures n == k { OneStreak(polls, |waits|, n, k); }
  }

  /** Receive returns after poll i: ctx had ended, or ended during the wait. */
  predicate EndsAt(polls: nat -> PollEnd, cut: nat -> bool, i: nat) {
    polls(i) == CtxEnded || (polls(i) == PollFailed && cut(i))
  }

  lemma OneStreak(polls: nat -> PollEnd, i: nat, k: nat, k': nat)
    requires InARow(polls, i, k) && InARow(polls, i, k')
    ensures k == k'
  {
  }

  /** Every failed poll is the k-th in a row for exactly one k: one more than the poll before it, or 1. */
  lemma {:induction false} EveryFailureHasItsPlace(polls: nat -> PollEnd, i: nat) returns (k: nat)
    requires polls(i) == PollFailed
    ensures forall n: nat :: InARow(polls, i, n) <==> n == k
    ensures k == 1 <==> i == 0 || polls(i - 1) != PollFailed
    decreases i
  {
    k := 1;
    if i > 0 && polls(i - 1) == PollFailed {
      var before := EveryFailureHasItsPlace(polls, i - 1);
      assert InARow(polls, i - 1, before);
      k := before + 1;
    }
    assert InARow(polls, i, k);
    forall n: nat | InARow(polls, i, n) ensures n == k { OneStreak(polls, i, n, k); }
  }

  /** With the default backoff the wait after the k-th failure in a row is min(2^(k-1), 30) seconds, and
      the waits of a row never shrink. */
  lemma DefaultWaits(polls: nat -> PollEnd, waits: seq<Option<int>>, i: nat, k: nat)
    requires WaitsOwed(polls, (n: int) => SqsDefault(n), waits) && i < |waits| && InARow(polls, i, k)
    ensures waits[i] == Some((if Pow2(k - 1) < 30 then Pow2(k - 1) else 30) * 1_000_000_000)
    ensures k > 1 ==> waits[i - 1].Some? && waits[i - 1].value <= waits[i].value
  {
    SqsDefaultIsCappedDoubling(k);
    if k > 1 {
      assert InARow(polls, i - 1, k - 1);
      SqsDefaultNondecreasing(k - 1, k);
    }
  }
}
