/** Constraint-error classification (db/pgxdb/errors.go) and retry eligibility. */
module PgErrors {
  import opened Options
  import opened GoErrors

  const UNIQUE_VIOLATION := "23505"
  const FOREIGN_KEY_VIOLATION := "23503"
  const CHECK_VIOLATION := "23514"
  const NOT_NULL_VIOLATION := "23502"
  const EXCLUSION_VIOLATION := "23P01"
  const SERIALIZATION_FAILURE := "40001"
  const DEADLOCK_DETECTED := "40P01"

  // The package-level sentinels: leaves whose identities are reserved.
  const ERR_UNIQUE_VIOLATION := Error(1, Plain, [])
  const ERR_FOREIGN_KEY_VIOLATION := Error(2, Plain, [])
  const ERR_CHECK_VIOLATION := Error(3, Plain, [])
  const ERR_NOT_NULL_VIOLATION := Error(4, Plain, [])
  const ERR_EXCLUSION_VIOLATION := Error(5, Plain, [])
  const ERR_SERIALIZATION_FAILURE := Error(6, Plain, [])

  function SentinelFor(code: string): Option<Error> {
    if code == UNIQUE_VIOLATION then Some(ERR_UNIQUE_VIOLATION)
    else if code == FOREIGN_KEY_VIOLATION then Some(ERR_FOREIGN_KEY_VIOLATION)
    else if code == CHECK_VIOLATION then Some(ERR_CHECK_VIOLATION)
    else if code == NOT_NULL_VIOLATION then Some(ERR_NOT_NULL_VIOLATION)
    else if code == EXCLUSION_VIOLATION then Some(ERR_EXCLUSION_VIOLATION)
    else if code == SERIALIZATION_FAILURE || code == DEADLOCK_DETECTED then Some(ERR_SERIALIZATION_FAILURE)
    else None
  }

  /** The sentinel of the driver error err carries, if its SQLSTATE has one. */
  function OwnSentinel(e: Error): Option<Error> {
    var pg := As(e, PgTarget);
    if pg.Some? && pg.value.kind.PgError? then SentinelFor(pg.value.kind.code) else None
  }

  /** classify; node is the identity of the node fmt.Errorf allocates. */
  function Classify(err: Option<Error>, node: nat): Option<Error> {
    if err.None? then None
    else
      var sentinel := OwnSentinel(err.value);
      if sentinel.None? || Is(err.value, sentinel.value.id) then err
      else Some(Error(node, Plain, [sentinel.value, err.value]))
  }

  function ConstraintName(e: Error): string {
    var pg := As(e, PgTarget);
    if pg.Some? && pg.value.kind.PgError? then pg.value.kind.constraint else ""
  }

  predicate IsViolation(e: Error, code: string, constraint: string) {
    var pg := As(e, PgTarget);
    && pg.Some? && pg.value.kind.PgError? && pg.value.kind.code == code
    && (constraint == "" || pg.value.kind.constraint == constraint)
  }

  /** isSerializationFailure: retry-eligible. */
  predicate IsSerializationFailure(e: Error) {
    var pg := As(e, PgTarget);
    && pg.Some? && pg.value.kind.PgError?
    && (pg.value.kind.code == SERIALIZATION_FAILURE || pg.value.kind.code == DEADLOCK_DETECTED)
  }

  lemma WrappedWalk(sentinel: Error, e: Error, node: nat, t: Target, x: nat)
    requires sentinel.kind == Plain && sentinel.causes == []
    ensures var w := Error(node, Plain, [sentinel, e]);
            && As(w, t) == As(e, t)
            && (Is(w, x) <==> x == node || x == sentinel.id || Is(e, x))
  {
    var pair := [sentinel, e];
    assert pair[1..] == [e] && [e][1..] == [];
    assert As(sentinel, t) == AsAny([], t) == None;
    assert AsAny(pair, t) == AsAny([e], t) == As(e, t);
    assert Is(sentinel, x) <==> x == sentinel.id;
    assert IsAny(pair, x) <==> Is(sentinel, x) || IsAny([e], x);
    assert IsAny([e], x) <==> Is(e, x);
  }

  /** Classification never changes what errors.As finds, for any target type. */
  lemma ClassifyKeepsAs(e: Error, node: nat, t: Target)
    ensures Classify(Some(e), node).Some?
    ensures As(Classify(Some(e), node).value, t) == As(e, t)
  {
    var s := OwnSentinel(e);
    if s.Some? { WrappedWalk(s.value, e, node, t, 0); }
  }

  /** Hence the constraint name, the violation class and the retry decision survive it. */
  lemma ClassifyKeepsDriverFacts(e: Error, node: nat, code: string, constraint: string)
    ensures var c := Classify(Some(e), node);
            && c.Some?
            && ConstraintName(c.value) == ConstraintName(e)
            && IsViolation(c.value, code, constraint) == IsViolation(e, code, constraint)
            && IsSerializationFailure(c.value) == IsSerializationFailure(e)
  {
    ClassifyKeepsAs(e, node, PgTarget);
  }

  /** Nothing is lost and at most the error's own sentinel is gained (beside the new node itself). */
  lemma ClassifyTargets(e: Error, node: nat, x: nat)
    requires x != node
    ensures var c := Classify(Some(e), node);
            && c.Some?
            && (Is(c.value, x) <==> Is(e, x) || (OwnSentinel(e).Some? && x == OwnSentinel(e).value.id))
  {
    var s := OwnSentinel(e);
    if s.Some? { WrappedWalk(s.value, e, node, PgTarget, x); }
  }

  /** An error already carrying its sentinel is never wrapped twice. */
  lemma ClassifyIdempotent(err: Option<Error>, node: nat, node': nat)
    ensures Classify(Classify(err, node), node') == Classify(err, node)
  {
    if err.Some? {
      ClassifyKeepsAs(err.value, node, PgTarget);
      var s := OwnSentinel(err.value);
      if s.Some? { WrappedWalk(s.value, err.value, node, PgTarget, s.value.id); }
    }
  }

  /** "errors.Is(classified, ErrSerializationFailure)" and the retry loop's own test agree exactly on the
      errors that do not wrap the sentinel without being retry-eligible themselves. */
  lemma RetryTestAgreesWithSentinel(e: Error, node: nat)
    requires node != ERR_SERIALIZATION_FAILURE.id
    ensures var c := Classify(Some(e), node);
            && c.Some?
            && ((Is(c.value, ERR_SERIALIZATION_FAILURE.id) <==> IsSerializationFailure(c.value))
                <==> (Is(e, ERR_SERIALIZATION_FAILURE.id) ==> IsSerializationFailure(e)))
  {
    ClassifyTargets(e, node, ERR_SERIALIZATION_FAILURE.id);
    ClassifyKeepsAs(e, node, PgTarget);
  }

  /** Where they differ: a body returning the bare sentinel is not retried. */
  lemma BareSentinelIsNotRetried()
    ensures Is(ERR_SERIALIZATION_FAILURE, ERR_SERIALIZATION_FAILURE.id)
    ensures !IsSerializationFailure(ERR_SERIALIZATION_FAILURE)
  {
  }

  /** Which errors a classified error answers for, by SQLSTATE: each package sentinel is found exactly when the
      first driver error of the tree has its code, or the error held it before; other codes gain nothing. */
  lemma ClassifiedByCode(e: Error, node: nat)
    requires node > 6
    ensures Classify(Some(e), node).Some?
    ensures var c, pg := Classify(Some(e), node).value, As(e, PgTarget);
            && (Is(c, ERR_UNIQUE_VIOLATION.id) <==> HasCode(pg, "23505") || Is(e, ERR_UNIQUE_VIOLATION.id))
            && (Is(c, ERR_FOREIGN_KEY_VIOLATION.id) <==> HasCode(pg, "23503") || Is(e, ERR_FOREIGN_KEY_VIOLATION.id))
            && (Is(c, ERR_CHECK_VIOLATION.id) <==> HasCode(pg, "23514") || Is(e, ERR_CHECK_VIOLATION.id))
            && (Is(c, ERR_NOT_NULL_VIOLATION.id) <==> HasCode(pg, "23502") || Is(e, ERR_NOT_NULL_VIOLATION.id))
            && (Is(c, ERR_EXCLUSION_VIOLATION.id) <==> HasCode(pg, "23P01") || Is(e, ERR_EXCLUSION_VIOLATION.id))
            && (Is(c, ERR_SERIALIZATION_FAILURE.id) <==>
                  HasCode(pg, "40001") || HasCode(pg, "40P01") || Is(e, ERR_SERIALIZATION_FAILURE.id))
    ensures IsSerializationFailure(e) <==> HasCode(As(e, PgTarget), "40001") || HasCode(As(e, PgTarget), "40P01")
  {
    forall x: nat | 1 <= x <= 6
      ensures Is(Classify(Some(e), node).value, x)
              <==> Is(e, x) || (OwnSentinel(e).Some? && x == OwnSentinel(e).value.id)
    {
      ClassifyTargets(e, node, x);
    }
  }

  predicate HasCode(pg: Option<Error>, code: string) {
    pg.Some? && pg.value.kind.PgError? && pg.value.kind.code == code
  }
}
