/** The bus's canonical error (events/eventerr.go) and the not-found test of events/retry.go. */
module EventErrors {
  import opened Options
  import opened GoErrors

  const NOT_FOUND_CODE := "not_found"
  const NOT_FOUND := Error(10, EventError(NOT_FOUND_CODE, ""), [])

  /** Identities are pointers: only the sentinel has the sentinel's. */
  predicate SentinelIsUnique(e: Error) {
    forall x | x in Walk(e) :: x.id == NOT_FOUND.id ==> x == NOT_FOUND
  }

  function Wrap(err: Error, code: string, causes: seq<Error>, node: nat): Error {
    Error(node, EventError(code, ""), [err] + causes)
  }

  predicate IsNotFound(e: Error) {
    || Is(e, NOT_FOUND.id)
    || (var found := As(e, EventTarget);
        found.Some? && found.value.kind.EventError? && found.value.kind.eventCode == NOT_FOUND_CODE)
  }

  /** withEvent: a stamped copy at a new address, or e itself when it is stamped already. */
  function WithEvent(e: Error, name: string, node: nat): Error
    requires e.kind.EventError?
  {
    if e.kind.event != "" then e else e.(id := node, kind := EventError(e.kind.eventCode, name))
  }

  function DefaultCoercer(err: Option<Error>, node: nat): Option<Error> {
    if err.None? then None
    else
      var found := As(err.value, EventTarget);
      if found.Some? then found else Some(Wrap(err.value, "unknown", [], node))
  }

  /** Nil in, nil out, and only then; what comes back is always an EventError: the first one in
      the tree, or a new one that still answers errors.Is for everything the error did. */
  lemma DefaultCoercerNeverLosesAnError(err: Option<Error>, node: nat, target: nat)
    ensures var c := DefaultCoercer(err, node);
            && (c.None? <==> err.None?)
            && (c.Some? ==> c.value.kind.EventError?)
            && (c.Some? ==> FirstMatch(Walk(err.value), EventTarget, c)
                            || (FirstMatch(Walk(err.value), EventTarget, None)
                                && c.value.kind == EventError("unknown", "") && c.value.causes == [err.value]
                                && (Is(c.value, target) <==> target == node || Is(err.value, target))))
  {
    if err.Some? {
      AsIsFirstInWalk(err.value, EventTarget);
      var c := DefaultCoercer(err, node).value;
      if As(err.value, EventTarget).None? {
        assert c.causes == [err.value] && c.causes[1..] == [];
        assert IsAny(c.causes, target) <==> Is(err.value, target);
      } else {
        AsMatches(err.value, EventTarget);
      }
    }
  }

  lemma AsMatches(e: Error, t: Target)
    requires As(e, t).Some?
    ensures Matches(As(e, t).value, t)
  {
    AsIsFirstInWalk(e, t);
  }

  /** Stamping copies: the copy is no longer the sentinel, yet still reads as not-found; and a
      second stamp does not overwrite the first. */
  lemma StampedCopyStillNotFound(e: Error, name: string, other: string, node: nat, node': nat)
    requires e.kind.EventError? && SentinelIsUnique(e) && node != NOT_FOUND.id && name != ""
    ensures var c := WithEvent(e, name, node);
            && (IsNotFound(c) <==> IsNotFound(e))
            && (e == NOT_FOUND ==> !Is(c, NOT_FOUND.id))
            && c.kind.EventError? && WithEvent(c, other, node') == c
  {
    assert e in Walk(e);
  }

  predicate CodedNotFound(e: Error) {
    e.kind.EventError? && e.kind.eventCode == "not_found"
  }

  ghost predicate HoldsSentinel(e: Error) {
    exists x :: x in Walk(e) && x.id == NOT_FOUND.id
  }

  ghost predicate HoldsCoded(e: Error) {
    exists x :: x in Walk(e) && CodedNotFound(x)
  }

  /** The first EventError of the tree, in pre-order, is coded not_found. */
  ghost predicate FirstIsCoded(e: Error) {
    exists i :: 0 <= i < |Walk(e)| && CodedNotFound(Walk(e)[i])
                && forall j | 0 <= j < i :: !Walk(e)[j].kind.EventError?
  }

  lemma FirstMatchUnique(walk: seq<Error>, t: Target, r: Option<Error>, i: nat)
    requires FirstMatch(walk, t, r) && i < |walk| && Matches(walk[i], t)
    requires forall j | 0 <= j < i :: !Matches(walk[j], t)
    ensures r == Some(walk[i])
  {
  }

  /** What IsNotFound answers, for every error tree. */
  lemma IsNotFoundIff(e: Error)
    ensures IsNotFound(e) <==> HoldsSentinel(e) || FirstIsCoded(e)
  {
    IsMeansInWalk(e, NOT_FOUND.id);
    AsIsFirstInWalk(e, EventTarget);
    if i :| 0 <= i < |Walk(e)| && CodedNotFound(Walk(e)[i]) && forall j | 0 <= j < i :: !Walk(e)[j].kind.EventError? {
      assert forall j | 0 <= j < i :: !Matches(Walk(e)[j], EventTarget);
      FirstMatchUnique(Walk(e), EventTarget, As(e, EventTarget), i);
    }
    var found := As(e, EventTarget);
    if found.Some? && CodedNotFound(found.value) {
      var i :| 0 <= i < |Walk(e)| && Walk(e)[i] == found.value
          && forall j | 0 <= j < i :: !Matches(Walk(e)[j], EventTarget);
      forall j | 0 <= j < i ensures !Walk(e)[j].kind.EventError? { assert !Matches(Walk(e)[j], EventTarget); }
    }
  }

  /** The promise, the sentinel anywhere on the chain or an EventError coded not_found, is kept if and
      only if the tree holds no such coded error, or holds the sentinel, or its first EventError is so
      coded. It never errs the other way. */
  lemma NotFoundAsPromisedIff(e: Error)
    ensures IsNotFound(e) ==> HoldsSentinel(e) || HoldsCoded(e)
    ensures (IsNotFound(e) <==> HoldsSentinel(e) || HoldsCoded(e))
            <==> (!HoldsCoded(e) || HoldsSentinel(e) || FirstIsCoded(e))
  {
    IsNotFoundIff(e);
    if i :| 0 <= i < |Walk(e)| && CodedNotFound(Walk(e)[i]) && forall j | 0 <= j < i :: !Walk(e)[j].kind.EventError? {
      assert Walk(e)[i] in Walk(e);
    }
  }

  /** Two trees that miss it: joined behind another EventError or wrapped in one, an error coded
      not_found is missed, unless it is the sentinel itself. */
  lemma CodedNotFoundBehindAnotherIsMissed(a: Error, b: Error, node: nat)
    requires a.kind.EventError? && a.kind.eventCode != NOT_FOUND_CODE && a.causes == []
    requires b.kind.EventError? && b.kind.eventCode == NOT_FOUND_CODE && b.causes == []
    requires node != NOT_FOUND.id && a.id != NOT_FOUND.id
    ensures IsNotFound(b)
    ensures IsNotFound(Error(node, Plain, [a, b])) <==> b.id == NOT_FOUND.id
    ensures IsNotFound(Wrap(b, a.kind.eventCode, [], node)) <==> b.id == NOT_FOUND.id
  {
    var wrapped := Wrap(b, a.kind.eventCode, [], node);
    assert wrapped.causes == [b] && As(wrapped, EventTarget) == Some(wrapped);
    var pair := [a, b];
    assert pair[1..] == [b] && [b][1..] == [];
    assert Is(b, NOT_FOUND.id) <==> b.id == NOT_FOUND.id;
    assert Is(a, NOT_FOUND.id) <==> a.id == NOT_FOUND.id;
    assert IsAny(pair, NOT_FOUND.id) <==> Is(a, NOT_FOUND.id) || IsAny([b], NOT_FOUND.id);
    assert IsAny([b], NOT_FOUND.id) <==> Is(b, NOT_FOUND.id);
    assert AsAny(pair, EventTarget) == Some(a);
  }
}
