/** The retry middleware (events/retry.go). What the handler returns on each call, whether ctx ends
    during a wait, and whether parking works are a script. */
module Retry {
  import opened Options
  import opened GoErrors
  import opened EventErrors
  import opened Backoff

  datatype Exhausted = Nack | Drop | DeadLetter

  /** RetryPolicy as written; None is a nil field. */
  datatype RetryPolicy = RetryPolicy(attempts: int, backoff: Option<int -> int>,
                                     retryable: Option<Error -> bool>, exhausted: Option<Exhausted>)

  datatype Policy = Policy(attempts: nat, backoff: int -> int, retryable: Error -> bool, exhausted: Exhausted)

  const DEFAULT_ATTEMPTS := 3
  const DEFAULT_BACKOFF_BASE := 50_000_000

  function WithDefaults(p: RetryPolicy): (q: Policy)
    ensures q.attempts >= 1
  {
    Policy(if p.attempts < 1 then DEFAULT_ATTEMPTS else p.attempts,
           if p.backoff.Some? then p.backoff.value else (a: int) => Exponential(DEFAULT_BACKOFF_BASE, a),
           if p.retryable.Some? then p.retryable.value else (e: Error) => IsNotFound(e),
           if p.exhausted.Some? then p.exhausted.value else Nack)
  }

  /** results(k): what call k of the handler returns, k from 1. cut(k): ctx's error if it ends
      while waiting after call k. park: what parking the envelope returns. */
  datatype Script = Script(results: nat -> Option<Error>, cut: nat -> Option<Error>, park: Option<Error>, node: nat)

  datatype Fate = Succeeded | Dropped | Parked | Failing

  datatype Delivery = Delivery(err: Option<Error>, fate: Fate)

  /** wait: a non-positive duration is a no-op, whatever ctx. */
  function Wait(d: int, cut: Option<Error>): Option<Error> { if d <= 0 then None else cut }

  /** Call k failed with an error worth another go. */
  predicate WorthRetrying(p: Policy, sc: Script, k: nat) {
    sc.results(k).Some? && p.retryable(sc.results(k).value)
  }

  /** Call k failed retryably and the wait after it ran its course. */
  predicate GoesOn(p: Policy, sc: Script, k: nat) {
    WorthRetrying(p, sc, k) && Wait(p.backoff(k), sc.cut(k)).None?
  }

  /** The call the loop stops at, counting from call k. */
  function StopsAt(p: Policy, sc: Script, k: nat): (n: nat)
    requires 1 <= k <= p.attempts
    ensures k <= n <= p.attempts
    ensures forall j: nat | k <= j < n :: GoesOn(p, sc, j)
    ensures n == p.attempts || !GoesOn(p, sc, n)
    decreases p.attempts - k
  {
    if k == p.attempts || !GoesOn(p, sc, k) then k else StopsAt(p, sc, k + 1)
  }

  /** What the delivery returns when the loop stops at call n, and what became of the event. */
  function Outcome(p: Policy, sc: Script, n: nat): Delivery {
    if sc.results(n).None? then Delivery(None, Succeeded)
    else
      var err := sc.results(n).value;
      if !p.retryable(err) then Delivery(Some(err), Failing)
      else if n < p.attempts then
        match sc.cut(n)
        case Some(ended) => Delivery(Join([err, ended], sc.node), Failing)
        case None => Delivery(Some(err), Failing)
      else match p.exhausted
        case Nack => Delivery(Some(err), Failing)
        case Drop => Delivery(None, Dropped)
        case DeadLetter =>
          match sc.park
          case None => Delivery(None, Parked)
          case Some(parkErr) => Delivery(Join([err, parkErr], sc.node), Failing)
  }

  function Deliver(p: Policy, sc: Script): Delivery
    requires p.attempts >= 1
  {
    Outcome(p, sc, StopsAt(p, sc, 1))
  }

  /** The time waited after calls 1 to n - 1. */
  function Slept(p: Policy, n: nat): int {
    if n <= 1 then 0 else Slept(p, n - 1) + if p.backoff(n - 1) > 0 then p.backoff(n - 1) else 0
  }

  // ---- what is promised, over the policy as written ----

  function AttemptsOf(policy: RetryPolicy): nat { if policy.attempts < 1 then 3 else policy.attempts }

  function BackoffOf(policy: RetryPolicy, k: nat): int {
    match policy.backoff
    case Some(f) => f(k)
    case None => Exponential(50_000_000, k)
  }

  /** Call k failed in a way the policy retries. */
  predicate FailsRetryably(policy: RetryPolicy, sc: Script, k: nat) {
    && sc.results(k).Some?
    && match policy.retryable
       case Some(f) => f(sc.results(k).value)
       case None => IsNotFound(sc.results(k).value)
  }

  /** ctx ends during the wait after call k. */
  predicate CutShort(policy: RetryPolicy, sc: Script, k: nat) { BackoffOf(policy, k) > 0 && sc.cut(k).Some? }

  /** Call k is reached: all before it failed retryably, and no wait was cut short. */
  predicate Reaches(policy: RetryPolicy, sc: Script, k: nat) {
    && 1 <= k <= AttemptsOf(policy)
    && forall j: nat | 1 <= j < k :: FailsRetryably(policy, sc, j) && !CutShort(policy, sc, j)
  }

  /** The delivery a policy promises and the number of calls it takes, case by case. */
  ghost predicate Promised(policy: RetryPolicy, sc: Script, d: Delivery, calls: nat) {
    && (forall k: nat | Reaches(policy, sc, k) && !FailsRetryably(policy, sc, k) ::
          calls == k && d == Delivery(sc.results(k), if sc.results(k).None? then Succeeded else Failing))
    && (forall k: nat | Reaches(policy, sc, k) && FailsRetryably(policy, sc, k) && k < AttemptsOf(policy)
                        && CutShort(policy, sc, k) ::
          calls == k && d == Delivery(Join([sc.results(k).value, sc.cut(k).value], sc.node), Failing))
    && (forall k: nat | Reaches(policy, sc, k) && FailsRetryably(policy, sc, k) && k == AttemptsOf(policy) ::
          calls == k
          && match policy.exhausted
             case None => d == Delivery(sc.results(k), Failing)
             case Some(Nack) => d == Delivery(sc.results(k), Failing)
             case Some(Drop) => d == Delivery(None, Dropped)
             case Some(DeadLetter) =>
               d == if sc.park.None? then Delivery(None, Parked)
                    else Delivery(Join([sc.results(k).value, sc.park.value], sc.node), Failing))
  }

  lemma SameWords(policy: RetryPolicy, sc: Script, k: nat)
    ensures var p := WithDefaults(policy);
            && p.attempts == AttemptsOf(policy)
            && (FailsRetryably(policy, sc, k) <==> WorthRetrying(p, sc, k))
            && (FailsRetryably(policy, sc, k) && !CutShort(policy, sc, k) <==> GoesOn(p, sc, k))
  {
  }

  lemma ReachesOnlyTo(policy: RetryPolicy, sc: Script, k: nat)
    requires Reaches(policy, sc, k)
    ensures k <= StopsAt(WithDefaults(policy), sc, 1)
    ensures k == AttemptsOf(policy) || !FailsRetryably(policy, sc, k) || CutShort(policy, sc, k)
            ==> k == StopsAt(WithDefaults(policy), sc, 1)
  {
    var n := StopsAt(WithDefaults(policy), sc, 1);
    SameWords(policy, sc, n);
    SameWords(policy, sc, k);
    if k < n { assert GoesOn(WithDefaults(policy), sc, k); }
  }

  lemma StopIsReached(policy: RetryPolicy, sc: Script)
    ensures Reaches(policy, sc, StopsAt(WithDefaults(policy), sc, 1))
  {
    forall j: nat | 1 <= j < StopsAt(WithDefaults(policy), sc, 1)
      ensures FailsRetryably(policy, sc, j) && !CutShort(policy, sc, j)
    {
      SameWords(policy, sc, j);
    }
  }

  /** Deliver keeps the promise, and the promise covers every script: some call is the last. */
  lemma DeliverIsPromised(policy: RetryPolicy, sc: Script)
    ensures Promised(policy, sc, Deliver(WithDefaults(policy), sc), StopsAt(WithDefaults(policy), sc, 1))
    ensures exists k: nat :: Reaches(policy, sc, k)
                             && (k == AttemptsOf(policy) || !FailsRetryably(policy, sc, k) || CutShort(policy, sc, k))
  {
    var n := StopsAt(WithDefaults(policy), sc, 1);
    StopIsReached(policy, sc);
    SameWords(policy, sc, n);
    forall k: nat | Reaches(policy, sc, k)
      ensures k == AttemptsOf(policy) || !FailsRetryably(policy, sc, k) || CutShort(policy, sc, k) ==> k == n
    {
      ReachesOnlyTo(policy, sc, k);
    }
  }

  /** The handler Retry returns. calls counts the handler's runs; slept is the time its completed
      waits took. */
  method RunWithRetry(policy: RetryPolicy, sc: Script) returns (d: Delivery, calls: nat, slept: int)
    ensures var p := WithDefaults(policy);
            && calls == StopsAt(p, sc, 1)
            && d == Deliver(p, sc)
            && slept == Slept(p, calls)
    ensures Promised(policy, sc, d, calls)
  {
    DeliverIsPromised(policy, sc);
    var p := WithDefaults(policy);
    var err: Option<Error> := None;
    var attempt := 1;
    calls, slept := 0, 0;
    while attempt <= p.attempts
      invariant 1 <= attempt <= p.attempts
      invariant calls == attempt - 1 && slept == Slept(p, attempt)
      invariant StopsAt(p, sc, attempt) == StopsAt(p, sc, 1)
      decreases p.attempts - attempt
    {
      err := sc.results(attempt);
      calls := calls + 1;
      if err.None? {
        return Delivery(None, Succeeded), calls, slept;
      }
      if !p.retryable(err.value) {
        return Delivery(err, Failing), calls, slept;
      }
      if attempt == p.attempts {
        break;
      }
      var waitErr := Wait(p.backoff(attempt), sc.cut(attempt));
      if waitErr.Some? {
        return Delivery(Join([err.value, waitErr.value], sc.node), Failing), calls, slept;
      }
      slept := slept + if p.backoff(attempt) > 0 then p.backoff(attempt) else 0;
      attempt := attempt + 1;
    }
    match p.exhausted
    case Nack => d := Delivery(err, Failing);
    case Drop => d := Delivery(None, Dropped);
    case DeadLetter =>
      if sc.park.Some? {
        d := Delivery(Join([err.value, sc.park.value], sc.node), Failing);
      } else {
        d := Delivery(None, Parked);
      }
  }

  /** Call k settled the matter: it succeeded, or failed in a way not worth retrying. */
  predicate Settles(p: Policy, sc: Script, k: nat) { !WorthRetrying(p, sc, k) }

  /** Unless a wait is cut short, the handler runs min(attempts, the first call that settles the
      matter) times; when a wait is, it runs up to the first such call at most. */
  lemma CallsAreMinimum(p: Policy, sc: Script, first: nat)
    requires p.attempts >= 1 && first >= 1
    requires forall k: nat | 1 <= k < first :: !Settles(p, sc, k)
    requires Settles(p, sc, first) || first >= p.attempts
    ensures StopsAt(p, sc, 1) <= if first < p.attempts then first else p.attempts
    ensures (forall k: nat | 1 <= k < p.attempts :: sc.cut(k).None?)
            ==> StopsAt(p, sc, 1) == if first < p.attempts then first else p.attempts
  {
    var n := StopsAt(p, sc, 1);
    forall k: nat | 1 <= k < n ensures !Settles(p, sc, k) { assert GoesOn(p, sc, k); }
    if n < first && n < p.attempts {
      assert !Settles(p, sc, n) && sc.cut(n).Some?;
    }
  }

  /** The sink sees nil exactly when the event is settled; nothing else acks it. */
  lemma NilMeansSettled(p: Policy, sc: Script)
    requires p.attempts >= 1
    ensures var d := Deliver(p, sc); d.err.None? <==> d.fate != Failing
    ensures p.exhausted == Nack ==> (Deliver(p, sc).err.None? <==> Deliver(p, sc).fate == Succeeded)
    ensures Deliver(p, sc).fate == Succeeded <==> sc.results(StopsAt(p, sc, 1)).None?
    ensures Deliver(p, sc).fate == Parked ==> p.exhausted == DeadLetter && sc.park.None?
    ensures Deliver(p, sc).fate in {Dropped, Parked} ==>
              StopsAt(p, sc, 1) == p.attempts && forall k: nat | 1 <= k <= p.attempts :: WorthRetrying(p, sc, k)
    ensures var n := StopsAt(p, sc, 1);
            && (Deliver(p, sc).fate == Dropped <==> n == p.attempts && WorthRetrying(p, sc, n) && p.exhausted == Drop)
            && (Deliver(p, sc).fate == Parked <==>
                  n == p.attempts && WorthRetrying(p, sc, n) && p.exhausted == DeadLetter && sc.park.None?)
  {
    var n := StopsAt(p, sc, 1);
    if n < p.attempts && WorthRetrying(p, sc, n) {
      assert sc.cut(n).Some?;
    }
    forall k: nat | 1 <= k < n ensures WorthRetrying(p, sc, k) { assert GoesOn(p, sc, k); }
  }

  /** A cut wait or a failed park still reports the handler's own error to the transport. */
  lemma FailureKeepsHandlerError(p: Policy, sc: Script, target: nat)
    requires p.attempts >= 1 && Deliver(p, sc).err.Some?
    ensures var n := StopsAt(p, sc, 1);
            sc.results(n).Some? && (Is(sc.results(n).value, target) ==> Is(Deliver(p, sc).err.value, target))
  {
    var err, d := sc.results(StopsAt(p, sc, 1)).value, Deliver(p, sc).err.value;
    if d != err {
      IsAnyMember(d.causes, target);
      assert d.causes[0] == err;
    }
  }

  /** With exponential backoff the completed waits are those of the closed form. */
  lemma {:induction false} SleptIsTotalWait(p: Policy, base: int, n: nat)
    requires 0 <= base < 0x1_0000_0000_0000 && forall a: int :: p.backoff(a) == Exponential(base, a)
    ensures Slept(p, n) == TotalWait(base, n)
  {
    if n > 1 {
      SleptIsTotalWait(p, base, n - 1);
      ShiftFits(base, Doublings(n - 1));
    }
  }

  /** The zero policy: at most three calls, retried only on not-found, at most 150ms of waiting,
      and the error handed back. */
  lemma ZeroPolicy(sc: Script)
    ensures var p := WithDefaults(RetryPolicy(0, None, None, None));
            && StopsAt(p, sc, 1) <= 3
            && Slept(p, StopsAt(p, sc, 1)) <= 150_000_000
            && (forall k: nat | 1 <= k < StopsAt(p, sc, 1) :: sc.results(k).Some? && IsNotFound(sc.results(k).value))
            && (Deliver(p, sc).err.None? <==> Deliver(p, sc).fate == Succeeded)
    ensures var p := WithDefaults(RetryPolicy(0, None, None, None));
            (forall k: nat | 1 <= k <= 3 ::
               sc.results(k).Some? && IsNotFound(sc.results(k).value) && sc.cut(k).None?) ==>
              StopsAt(p, sc, 1) == 3 && Slept(p, 3) == 150_000_000 && Deliver(p, sc) == Delivery(sc.results(3), Failing)
  {
    var p := WithDefaults(RetryPolicy(0, None, None, None));
    SleptIsTotalWait(p, DEFAULT_BACKOFF_BASE, 3);
    TotalWaitClosedForm(DEFAULT_BACKOFF_BASE, 3);
    NilMeansSettled(p, sc);
    var n := StopsAt(p, sc, 1);
    SleptIsTotalWait(p, DEFAULT_BACKOFF_BASE, n);
    TotalWaitClosedForm(DEFAULT_BACKOFF_BASE, n);
    assert Pow2(0) == 1 && Pow2(1) == 2 && Pow2(2) == 4;
  }
}
