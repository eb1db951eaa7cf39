# Verification of the dfl protocols and builders

A Dafny model of the stateful parts of `dfl`, with proofs. Four areas are covered.

**A. Transactions and the outbox.** `TxRunner` is the transaction runner and the serializable retry
loop, `Serializable` any number of workers running retried bodies against one multi-version store
(`SerializableRetry` shows that in any run of it each worker is that loop under some answers of the
server), `Outbox` the outbox protocol as a step system (producers, relays, publish and commit failures,
crashes, in any interleaving), `EmitOrder` the order in which its runs hand rows to the sink and
`OutboxOrder` the order in which they mark them, `StuckRow` what one refused row or one abandoned batch
holds up, and `OutboxRelay` the relay's loops, each proved to be a run of that protocol.
`GoErrors` and `PgErrors` are error trees with `errors.Is`/`errors.As` and the classification of driver
errors.

**B. At-least-once delivery.** `GoInts` is the 64-bit int, `Backoff` the duration arithmetic in it, `EventErrors` the bus's
errors, `Retry` the retry middleware, `Dispatch` the synchronous registry and the bus's deliver
callback, `Sqs` the queue with its workers as a step system, and `SqsWorker` the worker's methods, again
each proved to be a run.

**C. Versioned dispatch.** `VersionTable` is the sorted variant table over an abstract total order,
`Resolver` the wiring-time builder and request-time resolution, `Endpoint` the registration calls and
`Serve`, `SeqScheme` the counted version format, `SeqEndpoint` what an endpoint over it serves.

**D. Binding, middleware and errors over HTTP.** `Binder` and `IntSetters` are the request parser,
`Router` middleware chains on the heap, `ReqErrors` the decoration of shared errors, `GoSlices` Go's
slices as windows on shared arrays, `CodeNormaliser` the message-to-code rewrite, `GoStrings` and
`StringOrder` the string functions and `Sequences` the sequence facts these need.

Two shapes recur. A protocol is a datatype of states with `Enabled`, `Apply` and `Run`, an invariant kept
by every step, and theorems about every run from the empty state. A Go method that loops or assigns is a
Dafny method proved against a function of its inputs or against a run of the protocol; between any two of
its steps other sessions may take any steps of theirs.

## Assumptions

- PostgreSQL: `SELECT .. FOR UPDATE SKIP LOCKED` takes its row locks in one atomic step; a failed
  statement makes the server refuse the rest of the transaction; ids come from a sequence at insert.
  The serializable store commits a transaction only if nothing committed since its snapshot wrote a row
  it read or wrote, and then equals the commits in commit order; section 13.2.3 of the PostgreSQL
  documentation promises some serial order.
- SQS: a received message is in flight until its visibility timeout passes; a delete is final. Any call,
  to SQS or to the database, may take effect and still be reported as an error.
- A transaction body does not itself commit or roll back its transaction; a rollback ends it, whatever the
  call reports.
- What a statement, a handler, a sink, `ctx` or a setter answers is a parameter; what other sessions do in
  between and which messages a poll leases is any choice. A wait is a duration, and `ctx` may end at any
  point where the code looks at it.
- Reflection, JSON decoding and SQL text are functions of what they are given.
- A user error has no `Is` or `As` method of its own, and no custom coercer turns an error into nil.

## Where the code says less than its comments

- Ids are allocated at insert, so "emit order" (events/examples/outbox/outbox.go:82) can break across
  batches: `Outbox.LateCommitIsPublishedOutOfOrder`. Within a batch rows go out in id order, and
  `EmitOrder.EmitOrderIff` says exactly when the sink first sees them in id order across batches.
- `drain` never ends on a batch size of 0 unless a pass fails: `OutboxRelay.DrainEndsIff`.
- A relay publishes with its own transaction in the context, so inner handlers that insert join that
  transaction. The model lets them.
- A body that ends its goroutine (`runtime.Goexit`, which `t.FailNow` and `t.Fatalf` call) runs the deferred
  function with no panic and a nil error, so the transaction is neither committed nor rolled back and its
  connection and row locks stay held: `TxRunner.ClosedOnExitIff`, `TxRunner.GoexitLeavesOpen`. If a handler of
  the outbox's inner sink does that, the batch's rows are out of every relay's reach until the server ends
  the transaction, although "after commit the relay will get to it"
  (events/examples/outbox/outbox.go:50-51): `StuckRow.AbandonedBatchIsStuck`.
- With one relay, a row the inner sink always refuses stops all newer rows for good, and all marking once it
  is within the limit: `StuckRow.RefusedRowBlocksNewer`, `StuckRow.RefusedRowStopsRelay`.
- A retry budget that is negative, or the largest int, whose successor is, returns nil without running the
  body: `TxRunner.NilMeansCommittedOnce`.
- A lost commit acknowledgement is an error although the writes are in the database:
  `TxRunner.NilMeansCommittedOnce`, `Serializable.CounterCountsNilReturns`.
- `base << (attempt-1)` wraps for a base beyond 2^48 ns: `Backoff.ExactIffShiftFits`.
- "Withdrawn onward" (http/version/endpoint.go:119-121): under MatchCompatible it lasts only to the next
  handler registered past the marker; under MatchExact a later pin gets 400 version_unsupported, not 410,
  unless it has a marker of its own: `Endpoint.WithdrawnRepliesIff`, `Endpoint.LoneMarkerReplies`.
- A content type refused as 415 hides the path and query failures found before it, so not every response
  names every bad input: `Binder.FailureIsNamedIff`.
- A number too wide for its field is stored truncated, without an error: `IntSetters.SetIntExactIff`.
- An error coded `not_found` (events/retry.go:23-25) is seen only if it is the first `EventError` of the
  tree: `EventErrors.NotFoundAsPromisedIff`, with two trees that miss it in
  `EventErrors.CodedNotFoundBehindAnotherIsMissed`.

## Model

| member | source | states |
|---|---|---|
| `Outbox.NoPhantoms` | events/examples/outbox/outbox.go:46-63 | over every interleaving, each envelope the inner sink accepted is the envelope of a row inserted on the pool or in a transaction that committed later in the run |
| `Outbox.CommittedTogetherIff` | events/examples/outbox/outbox.go:32-63 | over every interleaving, an envelope is in the table under an id if and only if it was inserted under that id on the pool or in a transaction that committed after the insert: it commits with its transaction or not at all |
| `Outbox.ExactlyOnceMarkedAtLeastOncePublished` | events/examples/outbox/outbox.go:73-125 | over every interleaving, a row's publishes are one if marked, plus one per aborted batch that had published it, plus one if an open batch has; a committed row is marked, available or held by an open batch; a marked row was marked by exactly one committed batch and published at least once |
| `Outbox.OpenBatchesAreDisjoint` | events/examples/outbox/outbox.go:91-98 | in every reachable state an open batch is committed, unmarked, at most limit long, strictly ascending by id, and shares no row with another open batch |
| `Outbox.NothingIsLost` | events/examples/outbox/outbox.go:144-148 | rows, marks, accepted envelopes and the record of commits only grow |
| `Outbox.AbortedBatchIsWaitingAgain` | events/examples/outbox/outbox.go:78-83 | a batch closed without its commit gives every row back to the next select |
| `Outbox.LateCommitIsPublishedOutOfOrder` | events/examples/outbox/outbox.go:81-82 | a concrete run of one relay that never fails in which id 1 is published before id 0: emit order does not hold across commits |
| `EmitOrder.EmitOrderIff` | events/examples/outbox/outbox.go:81-82 | over every run with one relay at a time, whatever fails, the inner sink first accepts rows in id order if and only if each batch that handed it a new row was selected while every waiting row new to the sink was newer than every row it had accepted |
| `EmitOrder.SelectKeepsOrderIff` | events/examples/outbox/outbox.go:91-98 | the guard at one select: handing over the first k rows of the batch keeps that order if and only if the sink knows them all or every waiting row new to it is newer than all it knows |
| `OutboxOrder.MarkOrderIff` | events/examples/outbox/outbox.go:110-115 | the order of the final marks: over every run with one relay at a time, rows are marked in id order if and only if no committed batch was selected while a row older than a marked one was waiting |
| `EmitOrder.EmitOrderWhenCommitsFollowIds` | events/examples/outbox/outbox.go:81-82 | so emit order holds, whatever fails and however often a batch aborts, when no commit shows a row older than one the sink has accepted or an open batch holds |
| `OutboxOrder.MarkOrderWhenCommitsPassTaken` | events/examples/outbox/outbox.go:110-115 | marks are made in id order, whatever fails, when no commit shows a row older than one marked or held |
| `OutboxOrder.BatchAboveIff` | events/examples/outbox/outbox.go:91-98 | a batch is newer than every marked row exactly when every waiting row is |
| `OutboxOrder.StepKeepsTiers` | events/examples/outbox/outbox.go:81-98 | under such commits each step keeps marked rows older than held ones and held ones older than free ones |
| `Outbox.TakeSpec` | events/examples/outbox/outbox.go:91-98 | a select takes available rows only, ascending, at most limit; short of the limit all of them; and none is passed over for a newer one |
| `Outbox.StepKeepsInv` | events/examples/outbox/outbox.go:85-125 | every step of every session keeps the protocol's invariant |
| `Outbox.RunKeepsInv` | events/examples/outbox/outbox.go:85-125 | so does every run |
| `Outbox.OthersUntouched` | db/pgxdb/pgxdb.go:215-244 | a step changes no transaction but its own |
| `Outbox.AcceptedRowIsNew` | events/examples/outbox/outbox.go:103-108 | when the sink accepts a row, no open batch had published it, and afterwards exactly that row is added to what open batches have published |
| `Outbox.RowsHaveOrigins` | events/examples/outbox/outbox.go:52-63 | each committed row and each pending insert is traced to the insert that made it and, if committed, to the commit after it |
| `OutboxRelay.Database.Publish` | events/examples/outbox/outbox.go:52-63 | the insert goes to the ambient transaction when the context carries one, else straight to the table; it fails exactly when the server says so or the transaction takes no more statements; an error leaves no pending insert, and no row unless a pool insert was committed and its acknowledgement lost; no publish or mark happens |
| `OutboxRelay.Database.LockBatch` | events/examples/outbox/outbox.go:88-98 | begin and select succeed exactly when both are answered well and the limit is not negative: then the transaction holds a batch of at most limit unmarked rows, and otherwise it is rolled back; alone, the batch is the oldest rows |
| `OutboxRelay.Database.PublishRow` | events/examples/outbox/outbox.go:103-108 | one publish under interference: accepted, it is on to the mark of the same row; refused or panicking, rolled back with nothing marked; a handler that ends the goroutine leaves the transaction open with the whole batch locked and unmarked |
| `OutboxRelay.Database.MarkRow` | events/examples/outbox/outbox.go:110-115 | one mark under interference: on to the next row, or rolled back; a well answered UPDATE fails only on a transaction a handler's insert has failed on |
| `OutboxRelay.Database.CommitBatch` | db/pgxdb/pgxdb.go:239-243 | the commit marks exactly the batch, none of which was marked before; it is applied unless refused, or unless a handler's insert has failed on the transaction |
| `OutboxRelay.Database.RelayBatch` | events/examples/outbox/outbox.go:85-125 | whatever other sessions do, the batch ends as the answers call for, case by case in Owed: all answered well, no error and exactly the batch marked; else the first answer that is not decides between an error, a panic and the end of the goroutine, and how many rows the sink took; only a handler's failed insert on the same transaction can turn that into an error. A lost acknowledgement is the one error with marks; the transaction stays open if and only if a handler ended the goroutine, and then holds the whole batch; alone, the batch is the limit oldest waiting rows, all of them newly marked on success and each once more in the log |
| `OutboxRelay.Database.Meanwhile` | events/examples/outbox/outbox.go:73-83 | whatever other sessions and the sink's handlers do, the relay finds its batch and its place in it as it left them |
| `OutboxRelay.AroundKeepsPlace` | events/examples/outbox/outbox.go:73-83 | the same over any list of steps that are not the relay's own |
| `OutboxRelay.Database.DrainPass` | events/examples/outbox/outbox.go:149-160 | alone, a pass succeeds exactly when it is answered well for min(batch, backlog) rows, and then moves that many out of the backlog; a batch stays locked if and only if the pass ended its goroutine |
| `OutboxRelay.Database.Drain` | events/examples/outbox/outbox.go:148-161 | alone, for every batch size but 0: it ends without a failure exactly when its passes are answered well one after the other, and then after exactly the passes of DrainPasses, which are floor(backlog/batch)+1, with nothing left waiting; if a pass fails or unwinds, no more passes than that |
| `OutboxRelay.DrainSucceedsIff` | events/examples/outbox/outbox.go:148-161 | those passes are floor(backlog/batch) over full batches and one over what is left: drain ends without a failure if and only if each of them is answered well |
| `OutboxRelay.DrainEndsIff` | events/examples/outbox/outbox.go:157 | on a backlog nobody adds to, and with no pass failing, drain ends if and only if batch is not 0; a pass that fails ends it at any batch size |
| `OutboxRelay.DrainEndsAfter` | events/examples/outbox/outbox.go:148-161 | for batch of at least 1 it ends after floor(backlog/batch)+1 passes |
| `OutboxRelay.TakeSize` | events/examples/outbox/outbox.go:91-98 | with no batch open a select takes min(limit, backlog) rows |
| `StuckRow.RefusedRowBlocksNewer` | events/examples/outbox/outbox.go:91-108 | over every run with one relay at a time, a waiting row the sink always refuses is never marked, no newer row is ever handed to the sink again, and only older ones are still marked |
| `StuckRow.RefusedRowStopsRelay` | events/examples/outbox/outbox.go:73-125 | over such a run, when every select's limit is over the number of rows waiting before it and no older row turns up, nothing at all is marked any more, and every older waiting row is published at least once more for each time the row is refused |
| `StuckRow.RankIff` | events/examples/outbox/outbox.go:91-98 | with nothing locked, a select takes a waiting row if and only if its limit is over the number of older waiting rows, and takes those with it |
| `StuckRow.AbandonedBatchIsStuck` | db/pgxdb/pgxdb.go:223-237 | over every run, the rows of a batch whose body failed or was left stay unmarked, unavailable and unpublished exactly as long as the server has not aborted its transaction |
| `TxRunner.Pool.Tx` | db/pgxdb/pgxdb.go:215-244 | begin, body, commit and the deferred call: the writes are applied exactly when begin worked, the body returned nil and the commit was not refused; rollback is called exactly on an error or a panic after begin; the transaction stays open exactly when the body ended its goroutine, and no other transaction is touched |
| `TxRunner.TxEnd` | db/pgxdb/pgxdb.go:215-244 | tx returns nil exactly when the transaction was applied and acknowledged, panics exactly when the body did, and ends the goroutine exactly when the body did |
| `TxRunner.ErrorIsTheFirst` | db/pgxdb/pgxdb.go:215-244 | the error tx returns is begin's or the body's own as it is, or the commit's classified, whichever came first |
| `TxRunner.Pool.RetrySerializable` | db/pgxdb/pgxdb.go:175-199 | the loop's number of runs and end are those of Runs, budget wrap-around included, and the pool is what that many runs of tx make of it |
| `TxRunner.BooksAfterRuns` | db/pgxdb/pgxdb.go:175-199 | what n runs of tx make of the pool: exactly the transactions of the runs that applied, rolled back or left open are in those records, numbered in the order they began |
| `TxRunner.ClosedOnExitIff` | db/pgxdb/pgxdb.go:223-233 | the retry loop leaves no transaction open if and only if it did not end by the end of its goroutine; then it leaves exactly its last one open |
| `TxRunner.BegunEnds` | db/pgxdb/pgxdb.go:215-244 | every begun transaction is applied, rolled back or left open; one left open is neither of the others, and one both applied and rolled back had its acknowledgement lost |
| `TxRunner.GoexitLeavesOpen` | db/pgxdb/pgxdb.go:223-237 | the witness: begin works and the body calls runtime.Goexit; one run, no rollback, and the transaction is open |
| `TxRunner.RunsUnique` | db/pgxdb/pgxdb.go:175-199 | at most maxRetries+1 runs, every one but the last failing retry-eligibly: no other number of runs and no other end meets that promise |
| `TxRunner.RetriedMeansNotApplied` | db/pgxdb/pgxdb.go:182-190 | an attempt that is retried left nothing in the database |
| `TxRunner.NilMeansCommittedOnce` | db/pgxdb/pgxdb.go:170-199 | at most one run is applied and only the last; nil from a loop that ran means exactly that the last run committed and was acknowledged; nil always means that one run was applied if and only if the budget is from 0 to 2^63-2 |
| `TxRunner.CommitConflictIsRetried` | db/pgxdb/pgxdb.go:239-243 | a conflict that surfaces at COMMIT is seen by the retry loop through classify |
| `TxRunner.AmbientTransactionIsFound` | db/pgxdb/context.go:20-46 | GetQuerier under any number of values layered on after TxCtx finds TxCtx's transaction |
| `TxRunner.QuerierOf` | db/pgxdb/context.go:20-46 | for every context: the innermost attached transaction, under any other values, and the fallback exactly when none is attached |
| `Serializable.CommittedBodiesAreSerial` | db/pgxdb/pgxdb.go:163-199 | over every interleaving of any number of workers, the store is the bodies of the committed workers run alone in commit order; a worker commits at most once, exactly when it returned nil or lost its acknowledgement; none starts a fifth attempt |
| `SerializableRetry.DoneWorkerWasALoop` | db/pgxdb/pgxdb.go:163-199 | in any run of the protocol, whatever conflicts arise, a worker that is done made exactly the attempts retrySerializable makes with the package's budget under some answers of an honest server, and is done with what it returns |
| `SerializableRetry.WorkerIsRetryLoop` | db/pgxdb/pgxdb.go:163-199 | conversely, in any run in which a worker's attempts are answered so, it is done exactly after as many attempts as the loop makes, with the loop's result, and until then is in an attempt the loop makes |
| `SerializableRetry.AttemptEnds` | db/pgxdb/pgxdb.go:182-244 | answers that fit the state are an enabled step of the protocol, and that step takes the worker where the loop goes |
| `SerializableRetry.StepHasAnswers` | db/pgxdb/pgxdb.go:182-244 | every step of the protocol that ends an attempt is the step of some answers an honest server may give |
| `SerializableRetry.EveryWorkerIsAnswered` | db/pgxdb/pgxdb.go:163-199 | over every run there are answers each of a worker's attempts follows, in order |
| `Serializable.CounterCountsNilReturns` | db/pgxdb/examples/serializable/main.go:48-82 | the example's counter ends at its start plus the nil returns plus the lost acknowledgements |
| `Serializable.CommitIsSerial` | db/pgxdb/pgxdb.go:163-168 | a conflict-free commit writes what its body would have written run alone at that moment |
| `Serializable.StatementKeepsReplayable` | db/pgxdb/context.go:60-68 | after each statement the rest of the body would go the same way on any store that agrees with what it has read |
| `Serializable.StepKeepsInv` | db/pgxdb/pgxdb.go:163-199 | every step of every worker keeps the serial history and one commit per worker |
| `Serializable.RunFromUnique` | db/pgxdb/pgxdb.go:163-168 | a body run alone from a store has one outcome |
| `Serializable.IncrementAddsOne` | db/pgxdb/examples/serializable/main.go:49-65 | the example's body run alone adds one to the row and touches nothing else |
| `Serializable.CommittersAreDone` | db/pgxdb/pgxdb.go:163-199 | the number of commits is the number of workers that returned nil plus those that lost the acknowledgement |
| `GoErrors.AsIsFirstInWalk` | db/pgxdb/errors.go:56-59 | errors.As answers with the first match of the pre-order listing of the tree |
| `GoErrors.IsMeansInWalk` | db/pgxdb/errors.go:61-64 | errors.Is holds exactly when the target occurs in the listing |
| `PgErrors.ClassifyKeepsAs` | db/pgxdb/errors.go:51-67 | classify never changes what errors.As finds, for any target type |
| `PgErrors.ClassifyKeepsDriverFacts` | db/pgxdb/errors.go:71-103 | so ConstraintName, isViolation and isSerializationFailure survive it |
| `PgErrors.ClassifyTargets` | db/pgxdb/errors.go:51-67 | classify adds at most the error's own sentinel to what errors.Is matches and removes nothing |
| `PgErrors.ClassifiedByCode` | db/pgxdb/errors.go:13-67 | each package sentinel is found in a classified error exactly when the driver error has that sentinel's SQLSTATE or the error held the sentinel before; retry-eligible are exactly 40001 and 40P01 |
| `PgErrors.ClassifyIdempotent` | db/pgxdb/errors.go:51-67 | an error already carrying its sentinel is never wrapped twice |
| `PgErrors.RetryTestAgreesWithSentinel` | db/pgxdb/pgxdb.go:204-211 | matching ErrSerializationFailure after classify and being retry-eligible agree exactly on the errors that do not wrap the sentinel without being retry-eligible themselves |
| `PgErrors.BareSentinelIsNotRetried` | db/pgxdb/pgxdb.go:204-211 | a body that returns the bare sentinel is not retried |
| `Backoff.ExactIffShiftFits` | events/retry.go:115-127 | every wait is exactly base doubled if and only if base << 15 fits 64 bits |
| `Backoff.ExponentialNondecreasing` | events/retry.go:115-127 | the waits never shrink |
| `Backoff.TotalWaitClosedForm` | events/retry.go:115-127 | the waits over n attempts sum to base*(2^(n-1)-1) for n up to 17 and to base*(2^16-1)+(n-17)*base*2^15 beyond |
| `Backoff.SqsDefaultIsCappedDoubling` | events/aws/sqs/sqs.go:126-128 | the k-th wait is min(2^(k-1), 30) seconds for every k |
| `Backoff.SqsDefaultNondecreasing` | events/aws/sqs/sqs.go:126-128 | it never shrinks and stays between one second and the ceiling |
| `EventErrors.DefaultCoercerNeverLosesAnError` | events/eventerr.go:82-92 | nil comes out exactly for nil; otherwise the first EventError of the tree, or a new one coded unknown that wraps the whole error |
| `EventErrors.StampedCopyStillNotFound` | events/eventerr.go:68-77 | stamping copies: the copy is not the sentinel, still reads as not-found, and keeps its first stamp |
| `EventErrors.IsNotFoundIff` | events/retry.go:26-34 | for every error tree: not-found if and only if the sentinel occurs in it or its first EventError is coded not_found |
| `EventErrors.NotFoundAsPromisedIff` | events/retry.go:23-34 | the documented test, the sentinel anywhere or an EventError coded not_found, is what the code answers if and only if the tree holds no EventError so coded, or holds the sentinel, or its first EventError is so coded; the code never answers yes where the documentation says no |
| `EventErrors.CodedNotFoundBehindAnotherIsMissed` | events/retry.go:26-34 | two trees that miss it: joined behind another EventError, or wrapped in one, an error coded not_found counts exactly if it is the sentinel |
| `Retry.RunWithRetry` | events/retry.go:142-170 | over the policy as written, for every script: the first call that returns nil or a non-retryable error ends it with that result; a wait cut short ends it with both errors; and after all attempts have failed retryably Nack returns the last error, Drop returns nil, and DeadLetter nil exactly when parking worked and both errors otherwise; in that many calls and with that much waiting |
| `Retry.DeliverIsPromised` | events/retry.go:47-78 | the same of the function that the deliver callback and the queue use, with the cases shown to cover every script |
| `Retry.StopsAt` | events/retry.go:148-166 | the call the loop stops at: every earlier call failed retryably and its wait ran out, and this one did not or was the last |
| `Retry.CallsAreMinimum` | events/retry.go:142-170 | the handler runs min(attempts, first nil or non-retryable result) times when no wait is cut, and no more when one is |
| `Retry.NilMeansSettled` | events/retry.go:47-78 | the sink sees nil exactly when the event succeeded, was dropped, or was parked; dropped or parked exactly when all attempts failed retryably under that policy and, for parking, park worked |
| `Retry.FailureKeepsHandlerError` | events/retry.go:159-164 | a cut wait or a failed park still reports the handler's error |
| `Retry.SleptIsTotalWait` | events/retry.go:115-127 | with exponential backoff the time slept is the closed form's |
| `Retry.ZeroPolicy` | events/retry.go:172-190 | the zero policy: at most three runs and 150ms of waiting, retried only on not-found, nil only on success; on not-found throughout, exactly three runs, 150ms and the last error |
| `Retry.WithDefaults` | events/retry.go:172-190 | a policy with defaults has at least one attempt |
| `Dispatch.Dispatcher.Subscribe` | events/dispatcher.go:27-32 | the handler joins the end of its own name's list; every other name's list is as it was |
| `Dispatch.Dispatcher.Dispatch` | events/dispatcher.go:37-51 | runs exactly the handlers subscribed at the start, in order, even when handlers subscribe others, and joins exactly their errors |
| `Dispatch.NilIffEveryHandlerNil` | events/dispatcher.go:37-51 | the fan-out acks exactly when every handler did |
| `Dispatch.JoinedErrorAnswersForEach` | events/dispatcher.go:50 | the joined error answers errors.Is for exactly what some handler's error does |
| `Dispatch.JoinedErrorFindsFirst` | events/dispatcher.go:37-51 | errors.As over the joined errors finds what the first handler to return such an error returned |
| `Dispatch.OnDeliverNilMeansSettled` | events/events.go:210-229 | through the bus and the coercer, nil still means settled (under Nack: succeeded) and a failure is an EventError |
| `Sqs.DeletedMeansSettledByEveryHandler` | events/aws/sqs/sqs.go:237-283 | end to end over every run of any number of workers: a sent message is visible, in flight or deleted, and a deleted one was settled by every handler of its name, by succeeding where the policy is Nack |
| `Sqs.SettledHasARun` | events/aws/sqs/sqs.go:258-276 | each settled handler is a handler run in the trace whose delivery ended settled |
| `Sqs.SentStaysKnown` | events/aws/sqs/sqs.go:237-283 | nothing sent is forgotten and a deleted message never comes back |
| `Sqs.UnsettledIsRedelivered` | events/aws/sqs/sqs.go:258-268 | a message some handler has not settled is visible, or in flight and visible after its timeout |
| `Sqs.RunKeepsInv` | events/aws/sqs/sqs.go:203-283 | every run keeps the queue's invariant and only adds settled runs |
| `Sqs.StepKeepsMessages` | events/aws/sqs/sqs.go:237-283 | every step keeps: deleted only when all handlers settled, settled by success under Nack |
| `SqsWorker.Queue.Handle` | events/aws/sqs/sqs.go:237-283 | one message under interference: it is left exactly when some handler of its name fails, else deleted as the delete is answered; the trace gains that one ending, and the poll's counters move by it |
| `SqsWorker.Queue.Dispatch` | events/dispatcher.go:37-51 | the fan-out under interference runs every handler of the message's name, also after one has failed, and reports an error exactly when some handler does |
| `SqsWorker.SomeFailsIff` | events/dispatcher.go:37-51 | that test is the existence of a handler whose deliver callback returns an error |
| `SqsWorker.Queue.ReceiveOnce` | events/aws/sqs/sqs.go:203-233 | whatever others do, the poll ends as it is answered: ctx ended cuts the batch exactly before the first message it is seen at, and each message before that is left, deleted or undeleted as its handlers and its delete are answered, in order, in the trace and in the counts |
| `SqsWorker.Queue.HandleNext` | events/aws/sqs/sqs.go:224-230 | the next message of the batch, and no other, is done with as it is answered, and counted as what became of it |
| `SqsWorker.Queue.DeleteMessage` | events/aws/sqs/sqs.go:268-283 | a confirmed delete deleted the message; one reported as an error may have too, and counts as undeleted |
| `SqsWorker.Receive` | events/aws/sqs/sqs.go:168-195 | returns exactly when ctx has ended; no wait after a poll that did not fail, and after the k-th failure in a row, counted over the polls themselves, a wait of backoff(k) |
| `SqsWorker.EveryFailureHasItsPlace` | events/aws/sqs/sqs.go:172-183 | every failed poll is the k-th in a row for exactly one k, and the first exactly after a poll that did not fail |
| `SqsWorker.DefaultWaits` | events/aws/sqs/sqs.go:126-195 | with the default backoff the wait Receive makes after the k-th failure in a row is min(2^(k-1), 30) seconds, and the waits of a row never shrink |
| `VersionTable.Search` | http/version/endpoint.go:275-279 | binary search gives the linear scan's insertion point, and found exactly when an equal version is there |
| `VersionTable.LowerBoundSplits` | http/version/endpoint.go:275-279 | the insertion point separates the older versions from the rest |
| `VersionTable.RegisterKeepsSorted` | http/version/endpoint.go:135-147 | insert keeps the variants strictly ascending and adds exactly the new one |
| `VersionTable.RegisterAllSucceedsIffDistinct` | http/version/endpoint.go:135-147 | a wiring succeeds exactly when no two versions compare equal, and leaves exactly what was registered in strictly ascending order |
| `VersionTable.RegistrationOrderIrrelevant` | http/version/endpoint.go:135-147 | any permutation of the registrations panics or succeeds alike and leaves the same table |
| `VersionTable.PickBySearch` | http/version/endpoint.go:259-270 | pick through the binary search is pick over the linear scan |
| `VersionTable.PickMeaning` | http/version/endpoint.go:259-270 | MatchCompatible: the greatest declared version not newer than the pin, none exactly when all are newer; MatchExact: a variant at the pin, none exactly when there is none |
| `VersionTable.PinStability` | http/version/endpoint.go:125-147 | registering or withdrawing at w changes what a pin gets exactly for pins from w up to the next declared version; under MatchExact exactly for the pin w |
| `VersionTable.OlderPinsKeepTheirVariant` | http/version/endpoint.go:119-131 | after any sequence of registrations and withdrawals at later versions, an older pin gets what it got |
| `VersionTable.WithdrawnOnwardIff` | http/version/endpoint.go:119-131 | under either rule: every pin from a marker on picks a marker if and only if, under MatchCompatible, every later variant is a marker, and under MatchExact, each of those pins has a marker at it |
| `Resolver.Builder.AllowLiterals` | http/version/resolver.go:99-121 | enables a prefix of the literals, all of them unless it panics at the first that may not be enabled, and keeps the wiring well formed |
| `Resolver.Builder.Fallback` | http/version/resolver.go:129-147 | panics exactly when blank, set already, or not resolvable; otherwise only the fallback changes |
| `Resolver.Builder.SetHeader` | http/version/resolver.go:172-182 | panics exactly when blank or set already; otherwise only that header changes |
| `Resolver.Builder.Resolve` | http/version/resolver.go:199-225 | the first source with a non-blank value decides, else the fallback, else missing; unpinned exactly when no source did |
| `Resolver.FirstOfferIff` | http/version/resolver.go:199-215 | the deciding source is the first, in the order configured, whose value is not blank, and its value is trimmed; none decides exactly when all are absent or blank |
| `Resolver.EnabledKeepsWellWired` | http/version/resolver.go:99-121 | latest, preview and parseable strings stay pairwise disjoint and the fallback resolvable |
| `Resolver.CheckOrderIrrelevant` | http/version/resolver.go:229-247 | in a well-formed wiring the three checks can be made in any order |
| `Resolver.FallbackNeverInvalid` | http/version/resolver.go:217-222 | the fallback never yields version_invalid or version_missing |
| `Resolver.WiringOnlyAddsMeaning` | http/version/resolver.go:99-121 | enabling a literal changes the meaning of that string only, and it had none |
| `Endpoint.Endpoint.Insert` | http/version/endpoint.go:135-147 | panics exactly on an unparseable or duplicate version, changing nothing; else the table is Register's |
| `Endpoint.Endpoint.HandleFunc` | http/version/endpoint.go:105-117 | a preview literal declares the one overlay, anything else a dated variant |
| `Endpoint.Endpoint.Withdraw` | http/version/endpoint.go:125-131 | a channel literal panics; otherwise a marker at the version |
| `Endpoint.Endpoint.Serve` | http/version/endpoint.go:155-234 | the reply is the one the decision table Decides owes the request, headers included, and no marker is ever called |
| `Endpoint.OneReply` | http/version/endpoint.go:155-234 | the decision table owes each request exactly one reply |
| `Endpoint.ServedHeaders` | http/version/endpoint.go:187-234 | what a served request finds: the channel it asked for, the version served unless it is the undated overlay, the status header saying both, and the warning header exactly when no source carried a version |
| `Endpoint.RefusalSays` | http/version/endpoint.go:187-210 | a 410 names the channel asked for and a declared marker; a 400 names what was pinned and what is supported |
| `Endpoint.NeverOwed` | http/version/endpoint.go:155-234 | a preview pin is never answered version_unsupported, a request without a version never version_invalid, and version_missing needs an unset fallback |
| `Endpoint.OfferedVersionsAreServed` | http/version/endpoint.go:238-243 | a version offered by version_unsupported, when pinned, is served by that very variant, under either rule |
| `Endpoint.WithdrawnRepliesIff` | http/version/endpoint.go:119-131 | the documented promise, 410 to every concrete pin from a marker on, is kept under exactly that condition on the table, for either rule |
| `Endpoint.PinPastMarkerReply` | http/version/endpoint.go:194-210 | a concrete pin from a marker on gets 410 exactly when pick gives it a marker, naming one between the two; 400 only under MatchExact, exactly where nothing is declared |
| `Endpoint.RequestPastMarkerReply` | http/version/endpoint.go:155-210 | so does every request that resolves to such a version |
| `Endpoint.NewestPinReply` | http/version/endpoint.go:187-210 | a latest pin, and a preview pin without an overlay, gets 410 exactly when the newest variant is a marker, under either rule |
| `Endpoint.LoneMarkerReplies` | http/version/endpoint.go:119-131 | with one marker declared, a later pin gets 410 under MatchCompatible and 400 under MatchExact |
| `Endpoint.SupportedMeans` | http/version/endpoint.go:295-307 | the offered versions are exactly the formats of the variants that are not markers |
| `Endpoint.PickIsOwed` | http/version/endpoint.go:259-270 | the variant pick chooses is the one the Match rule owes the pin, stated without the table's order |
| `SeqScheme.ParseFormat` | http/version/version.go:72-98 | Parse(Format(n)) is n for every n from 0 to 2^63-1 |
| `SeqScheme.SameVersionIff` | http/version/version.go:72-90 | two accepted strings parse equal exactly when they agree without the v and leading zeros |
| `SeqScheme.AcceptsIff` | http/version/version.go:72-90 | Parse accepts exactly an optional v or V and at least one digit, within 64 bits |
| `SeqScheme.FormatParse` | http/version/version.go:72-98 | formatting a parsed string gives its canonical spelling |
| `SeqScheme.SequentialIsLawful` | http/version/version.go:21-34 | the scheme meets the laws the endpoint relies on: a total order, and a Format that parses back; which order, CompareIsSpellingOrder says |
| `SeqScheme.CompareIsSpellingOrder` | http/version/version.go:28-98 | of two accepted strings the older version is the one that, without its v and leading zeros, has fewer digits, or as many and the smaller one where they first differ; equal exactly when those agree |
| `SeqEndpoint.CompatiblePin` | http/version/endpoint.go:259-270 | over that scheme a MatchCompatible pin is answered by the variant spelled newest among those not spelled newer than it, and refused exactly when all are |
| `SeqEndpoint.LatestPin` | http/version/endpoint.go:187-192 | a latest pin is answered by the variant spelled newest |
| `SeqEndpoint.PinBeyondNewest` | http/version/endpoint.go:194-210 | with handlers at v1 and v2, a pin of v3 is served by v2 under MatchCompatible, and under MatchExact refused with v1, v2 on offer, in that order |
| `Binder.Binder.BindParams` | http/parser.go:209-237 | the loop over path (or query) fields: fields given text hold what was parsed, all others are untouched, and the reasons are one per refused value in field order |
| `Binder.Binder.BindFields` | http/parser.go:282-296 | the loop over body fields, likewise |
| `Binder.Binder.BindBody` | http/parser.go:261-303 | 415 exactly on a foreign content type, before anything is written; otherwise the reasons of the body and the writes of its fields |
| `Binder.Binder.UnknownKeyReasons` | http/parser.go:309-326 | whatever order the map is walked in, the reasons are the unclaimed keys in sorted order |
| `Binder.Binder.Bind` | http/parser.go:195-254 | the verdict is VerdictOf's, paths before queries before body, and every field ends as its own source alone says |
| `Binder.FinalByTags` | http/parser.go:207-303 | off the tags: a field ends as its own tag's value parses, or as it was when given none |
| `Binder.ReasonsByTags` | http/parser.go:195-326 | off the tags, word for word: a reason is in the reply exactly when it is the one some refused value, the malformed body, or an unclaimed key of a strict body calls for |
| `Binder.ReasonsInOrder` | http/parser.go:209-246 | path reasons come first, then query reasons, then the body's |
| `Binder.FailsByTags` | http/parser.go:207-303 | off the tags: which values are refused |
| `Binder.MediaOkIff` | http/parser.go:261-272 | a content type binds when it is absent or is application/json up to its parameters |
| `Binder.Build` | http/parser.go:133-190 | fails exactly at the first path or query field whose type has no setter, or on a non-struct; else each list of the plan holds, once and in field order, exactly the exported fields with that tag and none before it, the body fields under their json tag up to its comma, "-" and the lenient marker left out |
| `Binder.SourceByTags` | http/parser.go:146-187 | what each tag makes of a field: path before query before json, the json key cut at its comma |
| `Binder.Binder.Plan` | http/parser.go:146-187 | one more field turns the plan for a prefix into the plan for the longer prefix |
| `Binder.ClaimsExact` | http/parser.go:146-187 | each field is bound by exactly the tag it draws from, once, in field order |
| `Binder.PassesGiveFinal` | http/parser.go:195-254 | the three passes in sequence leave each field as its own source alone says |
| `Binder.ReasonsNameExactly` | http/parser.go:195-326 | a reason is in the list exactly when some field's present value calls for it, or the body is malformed, or it names an unclaimed key of a strict body |
| `Binder.FailsIff` | http/parser.go:195-303 | binding fails if and only if some present value is refused, or the request has body fields and the body is not JSON, malformed, or (not lenient) has an unclaimed key |
| `Binder.FailureIsNamedIff` | http/parser.go:207-244 | a refused value is named in the reply if and only if the reply is not a 415 |
| `Binder.BodyCannotReach` | http/parser.go:239-246 | no body or content type changes a path or query field, nor, without body fields, the verdict |
| `Binder.AnyOrderSortsAlike` | http/parser.go:309-318 | any listing of a key set sorts to the same list |
| `StringOrder.SortSpec` | http/parser.go:318 | the sort is sorted and a permutation |
| `StringOrder.SortIgnoresOrder` | http/parser.go:318 | permutations sort alike |
| `StringOrder.LeqIff` | http/parser.go:318 | the order is the dictionary's: a prefix first, else the smaller character at the first difference |
| `IntSetters.SetIntExactIff` | http/parser.go:393-402 | an accepted number is stored exactly if and only if it fits the field; otherwise it is off by a multiple of the field's range, and no error is given |
| `IntSetters.SetUintExactIff` | http/parser.go:404-413 | the same for unsigned fields, the multiple of the range included |
| `IntSetters.IntRoundTrip` | http/parser.go:393-402 | every number a field can hold arrives unchanged from its decimal form |
| `IntSetters.UintRoundTrip` | http/parser.go:404-413 | the same for unsigned fields |
| `IntSetters.WideValueIsTruncated` | http/parser.go:393-402 | 300 in an 8-bit field is accepted and becomes 44 |
| `GoSlices.Append` | http/http.go:231-233 | append writes in place exactly when there is room, touching only the cells behind the slice, and otherwise copies |
| `Router.CombineChain` | http/http.go:249-259 | the chain is the group's followed by the route's, in a new array unless the group's is empty |
| `Router.ApplyMiddleware` | http/http.go:261-267 | the handler is the right fold of the chain over the base |
| `Router.ChainedRunsInOrder` | http/http.go:261-267 | a chained handler runs exactly its chain, outermost first, then the base |
| `Router.Router.Use` | http/http.go:231-233 | the chain grows at its end, in place when the slice has room |
| `Router.Router.Group` | http/http.go:216-227 | a new router with the parent's chain of that moment in an array of its own |
| `Router.Router.HandleFunc` | http/http.go:188-210 | adds one route whose handler is the fold of the router's chain and the route's own over the base |
| `Router.UseOn` | http/http.go:231-233 | Use on one router leaves the chain of every other as it was |
| `Router.Make` | http/http.go:188-233 | any one call on any router of a wiring does to the heap what AfterCall does to the values |
| `Router.WireStep` | http/http.go:188-233 | one call of a wiring writes only to the wiring's own objects and keeps heap and values in step |
| `Router.Wire` | http/http.go:188-233 | after any sequence of Use, Group and HandleFunc on a router and its descendants, every chain, prefix and route on the heap is the value functions' |
| `Router.GroupChainIsSnapshotPlusOwn` | http/http.go:212-227 | a group's chain is its parent's at Group time followed by what the group itself was given, whatever happened elsewhere |
| `Router.GroupRouteIsLayered` | http/http.go:188-267 | a group's route runs through what the group inherited at Group time, around what was Used on the group, around the route's own middleware, around the handler |
| `Router.RoutesNeverChange` | http/http.go:188-210 | no later call changes a registered route |
| `Router.PlansAreOwnPaths` | http/http.go:188-233 | the step-by-step values are those read off each router's own path of calls |
| `ReqErrors.ReqError.WithReasons` | http/reqerr.go:114-119 | a fresh error with the reasons appended; nothing that existed is written |
| `ReqErrors.ReqError.WithStatus` | http/reqerr.go:103-108 | a fresh error that differs in its status only |
| `ReqErrors.Derive` | http/reqerr.go:99-119 | for any tree of decorations of one sentinel, each error says exactly what its own path makes it say, and nothing that existed before is written |
| `ReqErrors.ViewsFollowPaths` | http/reqerr.go:99-119 | what the errors say in order of creation is what their derivation paths say |
| `ReqErrors.PathsIgnoreLaterCalls` | http/reqerr.go:110-119 | later decorations never reach an earlier error |
| `CodeNormaliser.CodeFromMessageSpec` | http/oops/oops.go:86-100 | any message becomes an empty string or words of letters and digits joined by single underscores, with the letter and digit sequence of the lowered message |
| `CodeNormaliser.CodeIff` | http/oops/oops.go:86-100 | a string is the message's code if and only if it is a well-formed code with the letters and digits of the lowered message and an underscore between two of them exactly where a space or an underscore stands between them there |
| `CodeNormaliser.BreaksIff` | http/oops/oops.go:92-100 | a break is a separator, told by how many letters and digits stand before it |
| `CodeNormaliser.CodesAreFixed` | http/oops/oops.go:92-100 | a well-formed code is its own code |
| `CodeNormaliser.Idempotent` | http/oops/oops.go:92-100 | the rewrite is idempotent |
| `CodeNormaliser.EmptyIffNothingToSpell` | http/oops/oops.go:92-100 | the code is empty exactly when the message has no letter or digit |
| `GoStrings.TrimSpaceTrims` | http/oops/oops.go:93 | trimming removes exactly the outer white space |

## Left out

- OutboxRelay.Database.Drain: stated for a relay alone with the database; with inserts arriving between passes the number of passes has no bound, and the interleaved case is `OutboxRelay.Database.RelayBatch`.
- SqsWorker.Queue.ReceiveOnce: a handler that panics or ends its goroutine is not a branch of this method; in the protocol it is the worker's Quit step, which may come at any point.
- Retry.RunWithRetry: Exhausted is one of the package's three; an ExhaustedFunc of the caller's own is not modelled.
- Panics of the database driver itself; only a transaction's body may panic or end its goroutine.
- EmitOrder.EmitOrderIff: for one relay at a time; several relays on disjoint rows promise no order between their batches. A row handed over again after an abort counts at its first acceptance.
- Serializable.CommittedBodiesAreSerial: bodies are deterministic functions of what their statements returned; a statement that fails ends the attempt through its own event.
- Sqs.DeletedMeansSettledByEveryHandler: handlers are subscribed before traffic, and of the middleware only Retry can sit between the bus and the handler.
- SqsWorker.Receive: the failure counter is unbounded here, while the source's is an int.
- Binder.Binder.Bind: dst is the struct itself; the allocation behind a pointer Req is not modelled, nor are the DecodeBody and Setters hooks.
- Relay's ticker (it repeats drain until ctx ends), real clocks and real cancellation.
- The SNS, EventBridge and Pub/Sub adapters and the tracing plugin: calls into SDKs.
- MemSink: a fan-out whose registry repeats Dispatcher; the outbox's inner sink is abstract.
- The middleware chain of events.go and its publish twin: the same code as the router's chain.
- StatusCode, the code-to-status table, http's DefaultCoercer, the registrar and the cher coercer: table lookups, a maximum, or the shape already proved for the bus's coercer.
- dateScheme and Ordered: any scheme with a total order is covered by the theorems of VersionTable.
- Event codecs, validation, wire encoding, header-name canonicalisation, loggers and panic recovery.
- Bool and float setters and TextUnmarshaler: part of the abstract parse function.
- Concurrent registration under the dispatcher's lock: a handler may subscribe others mid-dispatch, but the lock itself is not modelled.
