/** The workers of module Serializable are the retry loop of module TxRunner: in any run of the protocol,
    what a worker does is what RetrySerializable does when the server and the body answer accordingly. */
module SerializableRetry {
  import opened Options
  import opened GoErrors
  import opened PgErrors
  import opened TxRunner
  import S = Serializable

  type Bodies = S.WorkerId -> S.Body

  /** The attempt ended in an error the loop retries when ctx and the budget allow. */
  predicate Retryable(a: Answers) {
    var end := TxEnd(a);
    end.Returned? && end.err.Some? && IsSerializationFailure(end.err.value)
  }

  /** Where the worker is after an attempt that was answered this way. */
  function AfterAttempt(attempt: nat, a: Answers, ctxDone: bool): S.Worker {
    if Applies(a) then S.Done(if a.commit.Applied? then S.Nil else S.LostAck)
    else S.AfterFailure(attempt, Retryable(a), ctxDone)
  }

  /** The answers fit the worker's attempt as it stands in s: an attempt that has begun, a body that has
      returned nil only if the worker's has, and a commit applied only without a conflict. */
  predicate Meets(bodies: Bodies, s: S.State, w: S.WorkerId, a: Answers)
    requires w in s.workers
  {
    match s.workers[w]
    case Idle(_) => a.beginErr.Some?
    case Running(_, _, hist, _, _) =>
      && a.beginErr.None? && (a.body == Returned(None) ==> bodies(w)(hist).Return?)
      && (Applies(a) ==> !S.Conflicts(s, s.workers[w]))
    case Done(_) => false
  }

  /** The protocol's step for the end of an attempt. A refused commit is its Commit where a conflict is
      the reason, and a failing attempt otherwise. */
  function EndEvent(s: S.State, w: S.WorkerId, a: Answers, ctxDone: bool): S.Event
    requires w in s.workers
  {
    if Applies(a) then (if a.commit.Applied? then S.Commit(w, ctxDone) else S.CommitLosesAck(w))
    else if a.beginErr.None? && a.body == Returned(None) && Retryable(a)
            && s.workers[w].Running? && S.Conflicts(s, s.workers[w]) then S.Commit(w, ctxDone)
    else S.AttemptFails(w, Retryable(a), ctxDone)
  }

  /** Answers that fit the state make a step of the protocol, and it takes the worker where the loop goes. */
  lemma AttemptEnds(bodies: Bodies, s: S.State, w: S.WorkerId, a: Answers, ctxDone: bool)
    requires w in s.workers && s.stores != [] && Meets(bodies, s, w, a)
    ensures S.Enabled(bodies, s, EndEvent(s, w, a, ctxDone))
    ensures S.Apply(bodies, s, EndEvent(s, w, a, ctxDone)).workers[w] == AfterAttempt(s.workers[w].attempt, a, ctxDone)
  {
  }

  predicate EndsAttempt(e: S.Event, w: S.WorkerId) {
    e.w == w && !e.Begin? && !e.Statement?
  }

  function ErrorLike(retryable: bool): Error {
    Error(0, if retryable then PgError(SERIALIZATION_FAILURE, "") else Plain, [])
  }

  /** The answers behind a step of the protocol that ends an attempt. */
  function AnswersFor(s: S.State, e: S.Event): Answers
    requires e.w in s.workers
  {
    match e
    case Commit(w, _) =>
      Answers(None, Returned(None),
              if s.workers[w].Running? && S.Conflicts(s, s.workers[w]) then Refused(ErrorLike(true)) else Applied, 0)
    case CommitLosesAck(_) => Answers(None, Returned(None), Lost(ErrorLike(false)), 0)
    case AttemptFails(w, retryable, _) =>
      if s.workers[w].Idle? then Answers(Some(ErrorLike(retryable)), Returned(None), Applied, 0)
      else Answers(None, Returned(Some(ErrorLike(retryable))), Applied, 0)
    case Begin(_) => Answers(None, Returned(None), Applied, 0)
    case Statement(_) => Answers(None, Returned(None), Applied, 0)
  }

  function CtxDoneIn(e: S.Event): bool {
    match e
    case Commit(_, done) => done
    case AttemptFails(_, _, done) => done
    case _ => false
  }

  /** Conversely no step of the protocol ends an attempt as the loop could not: there are answers, which
      an honest server may give, whose step it is. */
  lemma StepHasAnswers(bodies: Bodies, s: S.State, e: S.Event)
    requires S.Enabled(bodies, s, e) && EndsAttempt(e, e.w)
    ensures var a := AnswersFor(s, e);
            Honest(a) && Meets(bodies, s, e.w, a) && EndEvent(s, e.w, a, CtxDoneIn(e)) == e
  {
  }

  // ---- whole runs ----

  /** How many attempts w has ended. */
  function EndedAttempts(events: seq<S.Event>, w: S.WorkerId): nat {
    if events == [] then 0
    else EndedAttempts(events[..|events| - 1], w) + if EndsAttempt(events[|events| - 1], w) then 1 else 0
  }

  /** The k-th time w ends an attempt, the state meets the k-th answers and the step is theirs. */
  ghost predicate Follows(bodies: Bodies, init: S.State, events: seq<S.Event>, w: S.WorkerId,
                          ask: nat -> Answers, ctxDone: nat -> bool)
    requires S.Run(bodies, init, events).Some?
  {
    events == [] ||
    var before, last := events[..|events| - 1], events[|events| - 1];
    var mid, k := S.Run(bodies, init, before).value, EndedAttempts(before, w);
    && Follows(bodies, init, before, w, ask, ctxDone)
    && (EndsAttempt(last, w)
       ==> w in mid.workers && Meets(bodies, mid, w, ask(k)) && last == EndEvent(mid, w, ask(k), ctxDone(k)))
  }

  /** Where w is after n answered attempts: about to make another, or done with the last. */
  ghost predicate InStep(w: S.Worker, n: nat, ask: nat -> Answers, ctxDone: nat -> bool) {
    && (forall k: nat | k + 1 < n :: AfterAttempt(k, ask(k), ctxDone(k)).Idle?)
    && if w.Done? then n >= 1 && w == AfterAttempt(n - 1, ask(n - 1), ctxDone(n - 1))
       else w.attempt == n && (n >= 1 ==> AfterAttempt(n - 1, ask(n - 1), ctxDone(n - 1)).Idle?)
  }

  /** A step that ends no attempt of w leaves w in its attempt. */
  lemma OtherSteps(bodies: Bodies, s: S.State, e: S.Event, w: S.WorkerId)
    requires w in s.workers && S.Enabled(bodies, s, e) && !EndsAttempt(e, w)
    ensures var w' := S.Apply(bodies, s, e).workers;
            w in w'
            && (w'[w] == s.workers[w]
                || (!s.workers[w].Done? && !w'[w].Done? && w'[w].attempt == s.workers[w].attempt))
  {
  }

  lemma NextInStep(w: S.Worker, n: nat, ask: nat -> Answers, ctxDone: nat -> bool)
    requires InStep(w, n, ask, ctxDone) && !w.Done?
    ensures InStep(AfterAttempt(n, ask(n), ctxDone(n)), n + 1, ask, ctxDone)
  {
  }

  lemma StepInStep(bodies: Bodies, s: S.State, e: S.Event, w: S.WorkerId, n: nat, ask: nat -> Answers,
                   ctxDone: nat -> bool)
    requires w in s.workers && s.stores != [] && S.Enabled(bodies, s, e) && InStep(s.workers[w], n, ask, ctxDone)
    requires EndsAttempt(e, w) ==> Meets(bodies, s, w, ask(n)) && e == EndEvent(s, w, ask(n), ctxDone(n))
    ensures var s' := S.Apply(bodies, s, e);
            w in s'.workers && s'.stores != []
            && InStep(s'.workers[w], n + if EndsAttempt(e, w) then 1 else 0, ask, ctxDone)
  {
    if EndsAttempt(e, w) {
      AttemptEnds(bodies, s, w, ask(n), ctxDone(n));
      NextInStep(s.workers[w], n, ask, ctxDone);
    } else {
      OtherSteps(bodies, s, e, w);
    }
  }

  lemma {:induction false} FollowerInStep(bodies: Bodies, st: S.Store, ws: set<S.WorkerId>, events: seq<S.Event>,
                                          s: S.State, w: S.WorkerId, ask: nat -> Answers, ctxDone: nat -> bool)
    requires S.Run(bodies, S.Initial(st, ws), events) == Some(s) && w in ws
    requires Follows(bodies, S.Initial(st, ws), events, w, ask, ctxDone)
    ensures w in s.workers && s.stores != [] && InStep(s.workers[w], EndedAttempts(events, w), ask, ctxDone)
    decreases |events|
  {
    if events != [] {
      var before, e := events[..|events| - 1], events[|events| - 1];
      var mid := S.Run(bodies, S.Initial(st, ws), before).value;
      FollowerInStep(bodies, st, ws, before, mid, w, ask, ctxDone);
      StepInStep(bodies, mid, e, w, EndedAttempts(before, w), ask, ctxDone);
    }
  }

  /** What RetrySerializable's end is to the worker. */
  function ResultOf(end: End, last: Answers): S.Result {
    if end == Returned(None) then S.Nil else if Applies(last) then S.LostAck else S.Err
  }

  lemma IdleMeansRetried(k: nat, a: Answers, ctxDone: bool)
    requires Honest(a)
    ensures AfterAttempt(k, a, ctxDone).Idle? <==> RetriesAfter(a, ctxDone) && k < S.MAX_RETRIES
    ensures AfterAttempt(k, a, ctxDone).Done? ==> AfterAttempt(k, a, ctxDone).result == ResultOf(TxEnd(a), a)
  {
    if RetriesAfter(a, ctxDone) { RetriedMeansNotApplied(a, ctxDone); }
  }

  lemma DoneIsRuns(w: S.Worker, n: nat, ask: nat -> Answers, ctxDone: nat -> bool)
    requires InStep(w, n, ask, ctxDone) && w.Done? && forall k: nat :: Honest(ask(k))
    ensures n >= 1 && Runs(S.MAX_RETRIES, ask, ctxDone, TxEnd(ask(n - 1)), n)
    ensures w.result == ResultOf(TxEnd(ask(n - 1)), ask(n - 1))
  {
    forall k: nat
      ensures AfterAttempt(k, ask(k), ctxDone(k)).Idle? <==> RetriesAfter(ask(k), ctxDone(k)) && k < S.MAX_RETRIES
    {
      IdleMeansRetried(k, ask(k), ctxDone(k));
    }
    IdleMeansRetried(n - 1, ask(n - 1), ctxDone(n - 1));
    if n >= 2 { assert AfterAttempt(n - 2, ask(n - 2), ctxDone(n - 2)).Idle?; }
  }

  /** A worker that is done has made the loop's attempts, no more and no fewer, and is Done with what the
      loop returns: Nil for nil, LostAck for a commit whose acknowledgement was lost, Err for any other
      error, a panic or an exit. One that is not done is in an attempt the loop makes. */
  lemma WorkerIsRetryLoop(bodies: Bodies, st: S.Store, ws: set<S.WorkerId>, events: seq<S.Event>, s: S.State,
                          w: S.WorkerId, ask: nat -> Answers, ctxDone: nat -> bool, end: End, runs: nat)
    requires S.Run(bodies, S.Initial(st, ws), events) == Some(s) && w in ws
    requires Follows(bodies, S.Initial(st, ws), events, w, ask, ctxDone) && forall k: nat :: Honest(ask(k))
    requires Runs(S.MAX_RETRIES, ask, ctxDone, end, runs)
    ensures w in s.workers && EndedAttempts(events, w) <= runs
    ensures s.workers[w].Done? <==> EndedAttempts(events, w) == runs
    ensures s.workers[w].Done? ==> s.workers[w].result == ResultOf(end, ask(runs - 1))
    ensures !s.workers[w].Done? ==> s.workers[w].attempt == EndedAttempts(events, w)
  {
    FollowerInStep(bodies, st, ws, events, s, w, ask, ctxDone);
    var n := EndedAttempts(events, w);
    forall k: nat
      ensures AfterAttempt(k, ask(k), ctxDone(k)).Idle? <==> RetriesAfter(ask(k), ctxDone(k)) && k < S.MAX_RETRIES
    {
      IdleMeansRetried(k, ask(k), ctxDone(k));
    }
    if s.workers[w].Done? {
      DoneIsRuns(s.workers[w], n, ask, ctxDone);
      RunsUnique(S.MAX_RETRIES, ask, ctxDone, end, runs, TxEnd(ask(n - 1)), n);
    }
  }

  /** Answers for later attempts do not matter to the ones already made. */
  lemma {:induction false} FollowsFrame(bodies: Bodies, init: S.State, events: seq<S.Event>, w: S.WorkerId,
                                        ask: nat -> Answers, ctxDone: nat -> bool,
                                        ask': nat -> Answers, ctxDone': nat -> bool)
    requires S.Run(bodies, init, events).Some? && Follows(bodies, init, events, w, ask, ctxDone)
    requires forall k: nat | k < EndedAttempts(events, w) :: ask'(k) == ask(k) && ctxDone'(k) == ctxDone(k)
    ensures Follows(bodies, init, events, w, ask', ctxDone')
  {
    if events != [] { FollowsFrame(bodies, init, events[..|events| - 1], w, ask, ctxDone, ask', ctxDone'); }
  }

  /** Every run is so answered: whatever happens in the store, what each worker does is what the loop does
      given some answers of an honest server. */
  lemma {:induction false} EveryWorkerIsAnswered(bodies: Bodies, st: S.Store, ws: set<S.WorkerId>,
                                                 events: seq<S.Event>, s: S.State, w: S.WorkerId)
    returns (ask: nat -> Answers, ctxDone: nat -> bool)
    requires S.Run(bodies, S.Initial(st, ws), events) == Some(s) && w in ws
    ensures Follows(bodies, S.Initial(st, ws), events, w, ask, ctxDone) && forall k: nat :: Honest(ask(k))
    decreases |events|
  {
    if events == [] {
      ask, ctxDone := (k: nat) => Answers(None, Returned(None), Applied, 0), (k: nat) => false;
    } else {
      var before, e := events[..|events| - 1], events[|events| - 1];
      var mid, n := S.Run(bodies, S.Initial(st, ws), before).value, EndedAttempts(before, w);
      var ask0, ctxDone0 := EveryWorkerIsAnswered(bodies, st, ws, before, mid, w);
      if EndsAttempt(e, w) {
        StepHasAnswers(bodies, mid, e);
        var a, done := AnswersFor(mid, e), CtxDoneIn(e);
        ask, ctxDone := (k: nat) => if k == n then a else ask0(k), (k: nat) => if k == n then done else ctxDone0(k);
        FollowsFrame(bodies, S.Initial(st, ws), before, w, ask0, ctxDone0, ask, ctxDone);
      } else {
        ask, ctxDone := ask0, ctxDone0;
      }
    }
  }

  /** So every worker that is done, in any run, was a run of the retry loop with as many attempts. */
  lemma DoneWorkerWasALoop(bodies: Bodies, st: S.Store, ws: set<S.WorkerId>, events: seq<S.Event>, s: S.State,
                           w: S.WorkerId)
    returns (ask: nat -> Answers, ctxDone: nat -> bool, end: End)
    requires S.Run(bodies, S.Initial(st, ws), events) == Some(s) && w in ws && w in s.workers && s.workers[w].Done?
    ensures forall k: nat :: Honest(ask(k))
    ensures var runs := EndedAttempts(events, w);
            && Runs(S.MAX_RETRIES, ask, ctxDone, end, runs) && runs >= 1
            && s.workers[w].result == ResultOf(end, ask(runs - 1))
  {
    ask, ctxDone := EveryWorkerIsAnswered(bodies, st, ws, events, s, w);
    FollowerInStep(bodies, st, ws, events, s, w, ask, ctxDone);
    DoneIsRuns(s.workers[w], EndedAttempts(events, w), ask, ctxDone);
    end := TxEnd(ask(EndedAttempts(events, w) - 1));
  }
}
