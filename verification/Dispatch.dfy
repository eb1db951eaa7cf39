/** The synchronous registry (events/dispatcher.go) and the deliver callback the bus subscribes
    (events/events.go). */
module Dispatch {
  import opened Options
  import opened GoErrors
  import opened EventErrors
  import opened Retry

  type HandlerId = nat

  /** The errors among the first n handlers' returns, in order. */
  function Failures(ask: nat -> Option<Error>, n: nat): seq<Error> {
    if n == 0 then []
    else Failures(ask, n - 1) + if ask(n - 1).Some? then [ask(n - 1).value] else []
  }

  class Dispatcher {
    var subs: map<string, seq<HandlerId>>

    constructor ()
      ensures subs == map[]
    {
      subs := map[];
    }

    function Subscribed(name: string): seq<HandlerId>
      reads this
    {
      if name in subs then subs[name] else []
    }

    /** Subscribe: the next dispatch of name runs deliver last; no other name is affected. */
    method Subscribe(name: string, deliver: HandlerId)
      modifies this
      ensures Subscribed(name) == old(Subscribed(name)) + [deliver]
      ensures forall other | other != name :: Subscribed(other) == old(Subscribed(other))
    {
      subs := subs[name := Subscribed(name) + [deliver]];
    }

    /** Dispatch. ask(i) is what the i-th handler it runs returns; a handler may subscribe another
        while it runs, which this dispatch does not see. ran lists the handlers run, in order. */
    method Dispatch(name: string, ask: nat -> Option<Error>, node: nat)
      returns (err: Option<Error>, ran: seq<HandlerId>)
      modifies this
      ensures ran == old(Subscribed(name))
      ensures err == Join(Failures(ask, |ran|), node)
      ensures forall n :: old(Subscribed(n)) <= Subscribed(n)
    {
      var handlers := Subscribed(name);
      var errs: seq<Error> := [];
      ran := [];
      for i := 0 to |handlers|
        invariant ran == handlers[..i] && errs == Failures(ask, i)
        invariant forall n :: old(Subscribed(n)) <= Subscribed(n)
      {
        ran := ran + [handlers[i]];
        if * {
          var late: string, handler: HandlerId := *, *;
          Subscribe(late, handler);
        }
        if ask(i).Some? {
          errs := errs + [ask(i).value];
        }
      }
      err := Join(errs, node);
    }
  }

  /** A fan-out acks only when every handler did. */
  lemma {:induction false} NilIffEveryHandlerNil(ask: nat -> Option<Error>, n: nat, node: nat)
    ensures Join(Failures(ask, n), node).None? <==> forall i: nat | i < n :: ask(i).None?
  {
    if n > 0 { NilIffEveryHandlerNil(ask, n - 1, node); }
  }

  lemma {:induction false} FailuresAnswer(ask: nat -> Option<Error>, n: nat, target: nat)
    ensures IsAny(Failures(ask, n), target) <==> exists i: nat :: i < n && ask(i).Some? && Is(ask(i).value, target)
  {
    if n > 0 {
      FailuresAnswer(ask, n - 1, target);
      var last := if ask(n - 1).Some? then [ask(n - 1).value] else [];
      IsAnyConcat(Failures(ask, n - 1), last, target);
      assert IsAny(last, target) <==> ask(n - 1).Some? && Is(ask(n - 1).value, target) by {
        if last != [] { assert last[1..] == []; }
      }
      if i: nat :| i < n && ask(i).Some? && Is(ask(i).value, target) {
        assert i == n - 1 || (i < n - 1 && ask(i).Some? && Is(ask(i).value, target));
      }
    }
  }

  lemma {:induction false} IsAnyConcat(a: seq<Error>, b: seq<Error>, target: nat)
    ensures IsAny(a + b, target) <==> IsAny(a, target) || IsAny(b, target)
  {
    if a == [] {
      assert a + b == b;
    } else {
      assert (a + b)[1..] == a[1..] + b;
      IsAnyConcat(a[1..], b, target);
    }
  }

  /** The joined error answers errors.Is for exactly what some failing handler's error does. */
  lemma JoinedErrorAnswersForEach(ask: nat -> Option<Error>, n: nat, node: nat, target: nat)
    requires Join(Failures(ask, n), node).Some? && target != node
    ensures Is(Join(Failures(ask, n), node).value, target)
            <==> exists i: nat :: i < n && ask(i).Some? && Is(ask(i).value, target)
  {
    FailuresAnswer(ask, n, target);
  }

  lemma {:induction false} AsAnyConcat(a: seq<Error>, b: seq<Error>, t: Target)
    ensures AsAny(a + b, t) == if AsAny(a, t).Some? then AsAny(a, t) else AsAny(b, t)
  {
    if a == [] {
      assert a + b == b;
    } else {
      assert (a + b)[1..] == a[1..] + b;
      AsAnyConcat(a[1..], b, t);
    }
  }

  /** errors.As on the joined error finds what the first failing handler to have such an error returned. */
  lemma {:induction false} JoinedErrorFindsFirst(ask: nat -> Option<Error>, n: nat, t: Target, k: nat)
    requires k < n && ask(k).Some? && As(ask(k).value, t).Some?
    requires forall j: nat | j < k :: ask(j).None? || As(ask(j).value, t).None?
    ensures AsAny(Failures(ask, n), t) == As(ask(k).value, t)
  {
    var last := if ask(n - 1).Some? then [ask(n - 1).value] else [];
    AsAnyConcat(Failures(ask, n - 1), last, t);
    if last != [] { assert last[1..] == []; }
    if k < n - 1 {
      JoinedErrorFindsFirst(ask, n - 1, t, k);
    } else {
      NothingFound(ask, n - 1, t);
    }
  }

  lemma {:induction false} NothingFound(ask: nat -> Option<Error>, n: nat, t: Target)
    requires forall j: nat | j < n :: ask(j).None? || As(ask(j).value, t).None?
    ensures AsAny(Failures(ask, n), t) == None
  {
    if n > 0 {
      NothingFound(ask, n - 1, t);
      var last := if ask(n - 1).Some? then [ask(n - 1).value] else [];
      AsAnyConcat(Failures(ask, n - 1), last, t);
      if last != [] { assert last[1..] == []; }
    }
  }

  /** What the deliver callback of On returns to the sink: the retrying handler's error, coerced.
      A handler On registered without Retry is one with a single attempt and Nack. */
  function OnDeliver(p: Policy, sc: Script): Option<Error>
    requires p.attempts >= 1
  {
    DefaultCoercer(Retry.Deliver(p, sc).err, sc.node)
  }

  /** Through the bus, too, nil means settled and every failure stays an error. */
  lemma OnDeliverNilMeansSettled(p: Policy, sc: Script)
    requires p.attempts >= 1
    ensures OnDeliver(p, sc).None? <==> Retry.Deliver(p, sc).fate != Failing
    ensures p.exhausted == Nack ==> (OnDeliver(p, sc).None? <==> Retry.Deliver(p, sc).fate == Succeeded)
    ensures OnDeliver(p, sc).Some? ==> OnDeliver(p, sc).value.kind.EventError?
  {
    NilMeansSettled(p, sc);
    DefaultCoercerNeverLosesAnError(Retry.Deliver(p, sc).err, sc.node, 0);
  }
}
