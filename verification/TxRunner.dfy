/** The transaction runner and the serializable retry loop (db/pgxdb/pgxdb.go), with the ambient
    transaction of db/pgxdb/context.go. What the server and the caller's function answer is a
    parameter of each call. */
module TxRunner {
  import opened Options
  import opened GoErrors
  import opened GoInts
  import opened PgErrors

  /** How a call ended: a returned error (None is nil), a panic unwinding through it, or the end of its
      goroutine (runtime.Goexit), which runs the deferred calls and which recover does not see. */
  datatype End = Returned(err: Option<Error>) | Panicked(payload: int) | Exited

  /** What COMMIT did. Lost: the server applied it, but the client was told of an error. */
  datatype CommitAnswer = Applied | Refused(refusal: Error) | Lost(loss: Error)

  /** The world's answers to one run of tx. node is the identity classify may allocate. */
  datatype Answers = Answers(beginErr: Option<Error>, body: End, commit: CommitAnswer, node: nat)

  /** A server never reports a serialization failure or a deadlock for a commit it applied. */
  predicate Honest(a: Answers) {
    a.commit.Lost? ==> !IsSerializationFailure(a.commit.loss)
  }

  predicate Begins(a: Answers) { a.beginErr.None? }

  /** Whether this run of tx left its writes in the database. */
  predicate Applies(a: Answers) {
    Begins(a) && a.body == Returned(None) && !a.commit.Refused?
  }

  /** Whether it called Rollback: an error or a panic was seen after begin. */
  predicate RollsBack(a: Answers) {
    Begins(a) && TxEnd(a) != Returned(None) && !TxEnd(a).Exited?
  }

  /** Whether it ended with neither a commit nor a rollback. */
  predicate LeavesOpen(a: Answers) {
    Begins(a) && a.body.Exited?
  }

  /** The end of tx, read off the answers. */
  function TxEnd(a: Answers): (end: End)
    ensures end == Returned(None) <==> Applies(a) && !a.commit.Lost?
    ensures end.Panicked? <==> Begins(a) && a.body.Panicked?
    ensures end.Exited? <==> LeavesOpen(a)
  {
    if a.beginErr.Some? then Returned(a.beginErr)
    else if a.body != Returned(None) then a.body
    else match a.commit
      case Applied => Returned(None)
      case Refused(e) => Returned(Classify(Some(e), a.node))
      case Lost(e) => Returned(Classify(Some(e), a.node))
  }

  /** What a pool knows of its transactions, as a value. */
  datatype Books = Books(next: nat, open: set<nat>, applied: seq<nat>, rolledBack: seq<nat>)

  function AfterTx(b: Books, a: Answers): Books {
    Books(b.next + if Begins(a) then 1 else 0,
          b.open + if LeavesOpen(a) then {b.next} else {},
          b.applied + if Applies(a) then [b.next] else [],
          b.rolledBack + if RollsBack(a) then [b.next] else [])
  }

  function AfterRuns(b: Books, ask: nat -> Answers, n: nat): Books {
    if n == 0 then b else AfterTx(AfterRuns(b, ask, n - 1), ask(n - 1))
  }

  class Pool {
    var next: nat             // identities of transactions, in the order they begin
    var open: set<nat>        // begun and neither committed nor rolled back
    var applied: seq<nat>     // transactions whose writes are in the database
    var rolledBack: seq<nat>  // transactions rollback was called on

    ghost predicate Valid()
      reads this
    {
      forall t | t in open :: t < next
    }

    ghost function Contents(): Books
      reads this
    {
      Books(next, open, applied, rolledBack)
    }

    constructor ()
      ensures Valid() && open == {} && applied == [] && rolledBack == []
    {
      next, open, applied, rolledBack := 0, {}, [], [];
    }

    method Rollback(tx: nat)
      requires Valid() && tx < next
      modifies this
      ensures Valid() && next == old(next) && applied == old(applied)
      ensures open == old(open) - {tx} && rolledBack == old(rolledBack) + [tx]
    {
      open := open - {tx};
      rolledBack := rolledBack + [tx];
    }

    /** tx: begin, run the body, commit; the deferred call sees the named return and panics, but a body
        that ends its goroutine leaves it neither. */
    method Tx(a: Answers) returns (end: End)
      requires Valid()
      modifies this
      ensures Valid() && end == TxEnd(a)
      ensures Contents() == AfterTx(old(Contents()), a)
    {
      if a.beginErr.Some? {
        return Returned(a.beginErr);
      }
      var tx := next;
      next, open := next + 1, open + {tx};

      match a.body {
        case Exited =>
          end := Exited;
        case Panicked(p) =>
          Rollback(tx);
          end := Panicked(p);
        case Returned(bodyErr) =>
          var err := bodyErr;
          if err.None? {
            match a.commit {
              case Applied =>
                open, applied := open - {tx}, applied + [tx];
              case Refused(e) =>
                err := Classify(Some(e), a.node);
              case Lost(e) =>
                applied := applied + [tx];
                err := Classify(Some(e), a.node);
            }
          }
          if err.Some? {
            Rollback(tx);
          }
          end := Returned(err);
      }
    }

    /** retrySerializable around tx. ask(k) answers attempt k, ctxDone(k) is ctx.Err() after it;
        runs is the number of times op ran. */
    method RetrySerializable(maxRetries: Int, ask: nat -> Answers, ctxDone: nat -> bool)
      returns (end: End, runs: nat)
      requires Valid()
      modifies this
      ensures Runs(maxRetries, ask, ctxDone, end, runs)
      ensures Valid() && Contents() == AfterRuns(old(Contents()), ask, runs)
    {
      ghost var before := Contents();
      var err: Option<Error> := None;
      var attempt := 0;
      runs := 0;
      var budget := Budget(maxRetries);
      while attempt < budget
        invariant 0 <= attempt && runs == attempt && (attempt == 0 ==> err == None)
        invariant attempt < budget || attempt == 0
        invariant Valid() && Contents() == AfterRuns(before, ask, runs)
        invariant forall k: nat | k < attempt :: RetriesAfter(ask(k), ctxDone(k))
      {
        end := Tx(ask(attempt));
        ghost var retried := RetriesAfter(ask(attempt), ctxDone(attempt));
        runs := runs + 1;
        assert Contents() == AfterRuns(before, ask, runs);
        if !end.Returned? {
          return;
        }
        err := end.err;
        if err.None? {
          return Returned(None), runs;
        }
        if ctxDone(attempt) || !IsSerializationFailure(err.value) {
          return Returned(err), runs;
        }
        assert retried;
        if attempt == maxRetries {
          break;
        }
        attempt := attempt + 1;
      }
      end := Returned(err);
    }
  }

  /** maxRetries + 1 in an int. */
  function Budget(maxRetries: Int): (b: Int)
    ensures b == if maxRetries == MAX_INT then -TWO_63 else maxRetries + 1
  {
    assert IsInt(maxRetries);
    Wrap(maxRetries + 1)
  }

  /** The loop goes round again: the attempt failed retry-eligibly and ctx had not ended. */
  predicate RetriesAfter(a: Answers, done: bool) {
    var end := TxEnd(a);
    && end.Returned? && end.err.Some?
    && IsSerializationFailure(end.err.value) && !done
  }

  /** What the retry loop promises: op ran runs times, within the budget; every run but the last
      failed retry-eligibly; it stopped because the last run did not, or the budget was spent; and
      its end is the last run's end. A budget that is negative, or the largest int, whose successor is,
      allows no run. */
  ghost predicate Runs(maxRetries: Int, ask: nat -> Answers, ctxDone: nat -> bool, end: End, runs: nat) {
    if Budget(maxRetries) <= 0 then runs == 0 && end == Returned(None)
    else
      && 1 <= runs <= maxRetries + 1
      && (forall k: nat | k < runs - 1 :: RetriesAfter(ask(k), ctxDone(k)))
      && (runs == maxRetries + 1 || !RetriesAfter(ask(runs - 1), ctxDone(runs - 1)))
      && end == TxEnd(ask(runs - 1))
  }

  /** How many of the first n runs began a transaction. */
  function Begun(ask: nat -> Answers, n: nat): nat {
    if n == 0 then 0 else Begun(ask, n - 1) + if Begins(ask(n - 1)) then 1 else 0
  }

  /** The transactions of those among the first n runs that did `what`, numbered from first. */
  function Numbers(ask: nat -> Answers, n: nat, first: nat, what: Answers -> bool): seq<nat> {
    if n == 0 then []
    else Numbers(ask, n - 1, first, what) + if what(ask(n - 1)) then [first + Begun(ask, n - 1)] else []
  }

  function Set(xs: seq<nat>): set<nat> { set x | x in xs }

  lemma {:induction false} BooksAfterRuns(b: Books, ask: nat -> Answers, n: nat)
    ensures AfterRuns(b, ask, n).next == b.next + Begun(ask, n)
    ensures AfterRuns(b, ask, n).open == b.open + Set(Numbers(ask, n, b.next, a => LeavesOpen(a)))
    ensures AfterRuns(b, ask, n).applied == b.applied + Numbers(ask, n, b.next, a => Applies(a))
    ensures AfterRuns(b, ask, n).rolledBack == b.rolledBack + Numbers(ask, n, b.next, a => RollsBack(a))
  {
    if n > 0 { BooksAfterRuns(b, ask, n - 1); }
  }

  /** The loop's outcome is determined: no other number of runs or end meets the promise. */
  lemma RunsUnique(max: Int, ask: nat -> Answers, ctxDone: nat -> bool, end: End, runs: nat, end': End, runs': nat)
    requires Runs(max, ask, ctxDone, end, runs) && Runs(max, ask, ctxDone, end', runs')
    ensures runs == runs' && end == end'
  {
  }

  /** A retried attempt left nothing behind, so retrying can never apply a body twice. */
  lemma RetriedMeansNotApplied(a: Answers, done: bool)
    requires Honest(a) && RetriesAfter(a, done)
    ensures !Applies(a)
  {
    if Applies(a) {
      ClassifyKeepsDriverFacts(a.commit.loss, a.node, "", "");
    }
  }

  lemma {:induction false} NoneBefore(ask: nat -> Answers, n: nat, first: nat, what: Answers -> bool)
    requires forall k: nat | k < n :: !what(ask(k))
    ensures Numbers(ask, n, first, what) == []
  {
    if n > 0 { NoneBefore(ask, n - 1, first, what); }
  }

  /** At most one run's writes are in the database, and only the last run's. nil means exactly that
      they are (and were acknowledged); an error means they are not, unless the acknowledgement
      was lost. A budget below zero, and the largest int, return nil without running op at all. */
  lemma NilMeansCommittedOnce(max: Int, ask: nat -> Answers, ctxDone: nat -> bool, end: End, runs: nat, first: nat)
    requires Runs(max, ask, ctxDone, end, runs)
    requires forall k: nat :: Honest(ask(k))
    ensures |Numbers(ask, runs, first, a => Applies(a))| == if runs > 0 && Applies(ask(runs - 1)) then 1 else 0
    ensures runs > 0 ==> (end == Returned(None) <==> Applies(ask(runs - 1)) && ask(runs - 1).commit.Applied?)
    ensures (end == Returned(None) ==> |Numbers(ask, runs, first, a => Applies(a))| == 1) <==> 0 <= max < MAX_INT
  {
    if runs > 0 {
      forall k: nat | k < runs - 1 ensures !Applies(ask(k)) { RetriedMeansNotApplied(ask(k), ctxDone(k)); }
      NoneBefore(ask, runs - 1, first, a => Applies(a));
    }
  }

  /** "Rolled back or committed on every exit", exactly: the loop leaves a transaction open if and only if
      its body ended the goroutine, and then that one only. */
  lemma ClosedOnExitIff(max: Int, ask: nat -> Answers, ctxDone: nat -> bool, end: End, runs: nat, first: nat)
    requires Runs(max, ask, ctxDone, end, runs)
    ensures Numbers(ask, runs, first, a => LeavesOpen(a)) == [] <==> !end.Exited?
    ensures end.Exited? ==> Numbers(ask, runs, first, a => LeavesOpen(a)) == [first + Begun(ask, runs - 1)]
  {
    if runs > 0 { NoneBefore(ask, runs - 1, first, a => LeavesOpen(a)); }
  }

  /** A begun transaction is committed, rolled back or left open; left open excludes the other two, and a
      rollback of what was committed comes only after a lost acknowledgement. */
  lemma BegunEnds(a: Answers)
    requires Begins(a)
    ensures Applies(a) || RollsBack(a) || LeavesOpen(a)
    ensures LeavesOpen(a) ==> !Applies(a) && !RollsBack(a)
    ensures Applies(a) && RollsBack(a) <==> a.body == Returned(None) && a.commit.Lost?
  {
  }

  /** The witness: begin works and the body calls runtime.Goexit, as t.FailNow does. */
  lemma GoexitLeavesOpen(ask: nat -> Answers, ctxDone: nat -> bool, first: nat)
    requires ask(0) == Answers(None, Exited, Applied, 0)
    ensures Runs(0, ask, ctxDone, Exited, 1)
    ensures Numbers(ask, 1, first, a => LeavesOpen(a)) == [first] && Numbers(ask, 1, first, a => RollsBack(a)) == []
  {
    assert Runs(0, ask, ctxDone, Exited, 1);
    ClosedOnExitIff(0, ask, ctxDone, Exited, 1, first);
    NoneBefore(ask, 1, first, a => RollsBack(a));
  }

  /** A conflict that surfaces at COMMIT is seen by the retry loop through classify. */
  lemma CommitConflictIsRetried(a: Answers, done: bool)
    requires a.beginErr.None? && a.body == Returned(None) && a.commit.Refused?
    ensures RetriesAfter(a, done) <==> IsSerializationFailure(a.commit.refusal) && !done
  {
    ClassifyKeepsDriverFacts(a.commit.refusal, a.node, "", "");
  }

  // The ambient transaction: a context is the chain of values attached to it, innermost first.

  datatype Context = Background | WithTx(tx: nat, parent: Context) | WithOther(parent: Context)

  /** TxFromContext: the innermost attached transaction. */
  function TxFromContext(ctx: Context): Option<nat> {
    match ctx
    case Background => None
    case WithTx(tx, _) => Some(tx)
    case WithOther(parent) => TxFromContext(parent)
  }

  datatype Querier = OnTx(tx: nat) | OnPool

  function GetQuerier(ctx: Context, fallback: Querier): Querier {
    match TxFromContext(ctx)
    case Some(tx) => OnTx(tx)
    case None => fallback
  }

  /** Whatever values are layered on after TxCtx attached tx, helpers still find that transaction,
      until a nested TxCtx attaches its own. */
  lemma {:induction false} AmbientTransactionIsFound(ctx: Context, tx: nat, depth: nat, fallback: Querier)
    ensures GetQuerier(Layered(WithTx(tx, ctx), depth), fallback) == OnTx(tx)
  {
    if depth > 0 { AmbientTransactionIsFound(ctx, tx, depth - 1, fallback); }
  }

  function Layered(ctx: Context, depth: nat): Context {
    if depth == 0 then ctx else WithOther(Layered(ctx, depth - 1))
  }

  /** What GetQuerier answers, for every context: the innermost attached transaction under any other values,
      and the fallback when none is attached at all. */
  lemma {:induction false} QuerierOf(ctx: Context, fallback: Querier) returns (base: Context, depth: nat)
    ensures ctx == Layered(base, depth) && !base.WithOther?
    ensures GetQuerier(ctx, fallback) == if base.WithTx? then OnTx(base.tx) else fallback
  {
    base, depth := ctx, 0;
    if ctx.WithOther? {
      base, depth := QuerierOf(ctx.parent, fallback);
      depth := depth + 1;
    }
  }

  /** The error tx returns is the first one met: begin's or the body's own, as it is, or the commit's,
      classified. */
  lemma ErrorIsTheFirst(a: Answers, target: nat)
    requires TxEnd(a).Returned? && TxEnd(a).err.Some? && target != a.node
    ensures a.beginErr.Some? ==> TxEnd(a).err == a.beginErr
    ensures Begins(a) && a.body != Returned(None) ==> TxEnd(a) == a.body
    ensures Begins(a) && a.body == Returned(None) ==>
              !a.commit.Applied?
              && var e := if a.commit.Lost? then a.commit.loss else a.commit.refusal;
                 && As(TxEnd(a).err.value, PgTarget) == As(e, PgTarget)
                 && (Is(e, target) ==> Is(TxEnd(a).err.value, target))
  {
    if Begins(a) && a.body == Returned(None) {
      var e := if a.commit.Lost? then a.commit.loss else a.commit.refusal;
      ClassifyKeepsAs(e, a.node, PgTarget);
      ClassifyTargets(e, a.node, target);
    }
  }
}
