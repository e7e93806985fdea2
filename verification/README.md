# quackapi, modelled in Dafny

quackapi is a DuckDB extension that serves SQL over HTTP. This project models the parts of it that hold state machines,
a query transformation, or a parser with an exact specification, and proves what they promise. `dafny verify
dfyconfig.toml` checks all of it (Dafny 4.11).

Each part has the same shape. A pure specification says what an operation does; lemmas prove the promises about it,
over every input or every run; and, where the C++ works by changing things step by step, a class or a method with
loops is proved against that specification. Clocks, the engine's outcome of a statement, scheduling order and iteration
order of hash tables are parameters. Clock readings are ordered only as far as a mutex orders them: within the job
queue's lock they do not go back, an enqueue, which takes no lock, may read any time, and the rate limiter's readings,
which are made before its mutex is taken, are only bounded in how far they are out of order.

| files | part |
|---|---|
| `PolicySyntax`, `PolicySemantics`, `PolicyRewriter`, `PolicyMeaning`, `PolicyCapture`, `PolicyCoverage`, `PolicyPlaces`, `PolicyNames`, `PolicyRows`, `PolicyRewriterState`, `Identifiers` | row-access and masking policies put into a handler's query |
| `JobQueue`, `JobQueueRuns`, `JobQueueTheorems`, `JobQueueInterleaving`, `JobQueueState` | the durable job queue with leases and generations |
| `SelfDispatch`, `SelfDispatchRuns`, `SelfDispatchState`, `ExecOperation` | rows of SQL dispatched to scheduler tasks |
| `Telemetry` | the table telemetry sink |
| `FlatJson`, `FlatJsonScanner` | the fast path for JSON bodies |
| `GraphQL`, `GraphQLProofs`, `GraphQLParser` | the thin GraphQL parser |
| `GraphQLSpec`, `GraphQLSpecDocuments`, `GraphQLSpecExact` | the parser against the ignorable text of the GraphQL specification |
| `Csv` | CSV bodies and a reader for them |
| `RateLimit`, `RateLimitExact` | the rate limiter |
| `Routing`, `RouteSelection` | path patterns and the choice of a route |
| `RouteRegistry`, `AuthRegistry`, `GraphQLMounts` | the registries |
| `ConnectionPool` | idle outbound connections |
| `Collections`, `Decimals` | shared facts about sequences, sets, maps and numbers in decimal |

## How the policy theorem is stated

A query is a tree of CTE lists, selects, set operations, sources and expressions with nested subqueries. Its meaning is
compositional over operators that are left open: filter, project, join, group and so on are arbitrary functions, so the
theorem does not rest on what they do. A row is a map from column names to values, because masked columns move to the
end of `SELECT * EXCLUDE (...)`. A rewritten query run on the raw tables is compared with the original query run on
tables where each protected one has been filtered by its first matching row policy and then masked. For the "only if"
half the operators are instantiated with ones that remember their arguments, so that two results agree only if every
part agrees.

## Where the code and its promise part

- A policy expression may hold a subquery. The secure subquery is put in the place of the table reference, inside the
  handler's CTE scopes, so a CTE of the handler that has the name of a table the policy reads bare replaces that table.
  Meaning is preserved exactly when no such CTE is in scope at a protected reference
  (`PolicyCapture.RewritePreservesMeaningIffNoCapture`); `PolicyCapture.CaptureChangesMeaning` gives a query.
- A row that runs as a scheduler task answers without the final size check that the inline path makes
  (`src/quackapi_server.cpp:2265-2278`). The responses are equal exactly when the error the script ends in fits the limit
  once formatted and, for a script that succeeds with typed rows over the limit, the 59 bytes that say so fit too
  (`ExecOperation.SameResponseIff`, `ExecOperation.LongErrorDiffers`).
- The GraphQL parser ends a comment only at a line feed and does not skip byte order marks. Sections 2.1.1 and 2.1.4 of
  the GraphQL specification (October 2021) ignore byte order marks and end a comment at a carriage return too. The two
  skip the same text exactly when `GraphQLSpec.SkipsAlike`; a document of the specification is read as specified exactly
  when none of its gaps holds a comment ended by a carriage return with no line feed before the next token, or a byte
  order mark outside such a comment (`GraphQLSpecExact.ParsesAsSpecifiedIff`). `#<CR>{a{b}}` and `<BOM>{a{b}}` are
  documents that are refused.
- The limiter promises a limit per window. It reads the clock before it takes its mutex
  (`src/quackapi_server.cpp:3516-3519`), so a late reading can be counted in a window it does not belong to. With
  readings at most `slack` out of order, 2 * limit holds for intervals up to `period - slack` as long as the table is
  never full, and for no longer ones; once a full table is swept the window ahead may be forgotten and the length falls
  to `period - 2 * slack` (`RateLimitExact.RoomyIff`, `RateLimitExact.TwiceTheLimitIff`). For a whole period it holds
  exactly when readings come in the order of the mutex (`RateLimitExact.TwicePerPeriodIff`).
- The header-phase body limit ignores streams while the handler lets a stream of the request's own method stop the
  fallback from HEAD to GET. The limits agree exactly when that does not matter (`RouteSelection.LimitsAgreeIff`); with
  the streams that can be registered it never does (`RouteSelection.LimitsAgree`).
- The comment above the rate limiter describes buckets by `floor(now / window)`. The code opens a window at the first
  request of a bucket and renews it at the first request after it has expired; the model follows the code.
- A record queued after the telemetry worker has left stays pending, and a flush called while the sink is stopping
  returns at once; the theorems say so in their hypotheses.

## Model

| member | source | states |
|---|---|---|
| PolicyCapture.RewritePreservesMeaningIffNoCapture | src/quackapi_policy.cpp:1143-1343 | for every query and bindings: the rewritten query on the raw tables equals the original on the secured tables, under all operators and all tables, if and only if no CTE in scope at a protected reference captures a name its policies read |
| PolicyCapture.CaptureChangesMeaning | src/quackapi_policy.cpp:1143-1290 | a concrete handler whose CTE replaces the table a row policy meant, so that meaning changes |
| PolicyCapture.ObserveQuery | src/quackapi_policy.cpp:1290-1343 | a query whose remembered result does not change with extra CTEs in scope reads none of them |
| PolicyCapture.CompleteQuery | src/quackapi_policy.cpp:1290-1343 | under remembering operators, equal results of rewritten and original query rule out every capture, at any place in a query |
| PolicyMeaning.SoundQuery | src/quackapi_policy.cpp:1290-1343 | without capture the rewrite preserves meaning in any CTE scope and below any correlated row |
| PolicyMeaning.SecureRefIsSecuredTable | src/quackapi_policy.cpp:205-237 | one secure subquery evaluates to the table filtered by its first row policy and then masked, under the reference's own alias |
| PolicyMeaning.AgreeQuery | src/quackapi_policy.cpp:1290-1343 | a query's result depends on the CTEs in scope only through the bare names it reads |
| PolicyMeaning.KeyPolicies | src/quackapi_policy.cpp:879-905 | whether and how a table is protected depends only on its case-folded identity |
| Identifiers.SameIdentifierIff | src/quackapi_policy.cpp:878-880 | two identifiers are the same if and only if they are one name up to the case of its ASCII letters, 32 codes apart |
| Identifiers.SameTableIff | src/quackapi_policy.cpp:902-905 | two identities are one table if and only if catalog, schema and table agree up to case, and then they have one key |
| Identifiers.IdentityIs | src/quackapi_policy.cpp:882-888 | an omitted schema means "main" and an omitted catalog the default one; what is given is kept |
| Identifiers.DifferentPlacesDiffer | src/quackapi_policy.cpp:882-905 | different explicit catalogs or schemas never mean one table |
| PolicyNames.ProtectedIff | src/quackapi_policy.cpp:1171-1195 | a table is protected if and only if some binding names it, in any spelling |
| PolicyNames.AnySpellingIsCovered | src/quackapi_policy.cpp:1148-1245 | a reference to a bound table in any spelling that no CTE shadows is refused before authentication and replaced by its secure subquery |
| PolicyNames.ShadowedIff | src/quackapi_policy.cpp:1151-1157 | a CTE shadows a name if and only if that is bare and the CTE's own, in any spelling |
| PolicyNames.SecureRefIs | src/quackapi_policy.cpp:1201-1244 | the secure subquery reads the table under its full name, filters by the first row binding's expression, and has the reference's alias or else the table's name |
| PolicyNames.HandlerIsHonest | src/quackapi_policy.cpp:1347-1384 | without bindings nothing is refused; with one, text that is not one SELECT is; a refusal denies exactly the unauthenticated and gives the others a reason |
| PolicyRows.SeenRowIs | src/quackapi_policy.cpp:205-237 | with SQL's WHERE and EXCLUDE, a row seen of a filtered table is a raw row for which the policy is true, and is that row outside the masked columns |
| PolicyRows.AllowedRowIsSeen | src/quackapi_policy.cpp:205-237 | every raw row for which the policy is true is seen |
| PolicyRows.MaskedColumnIs | src/quackapi_policy.cpp:218-237 | a masked column holds the value of its mask over the kept raw rows |
| PolicyCoverage.CoveredQuery | src/quackapi_policy.cpp:1143-1343 | no unshadowed reference to a protected table survives outside the secure subqueries |
| PolicyCoverage.EraseQuery | src/quackapi_policy.cpp:1143-1343 | erasing the secure subqueries from a rewrite gives the original back |
| PolicyCoverage.VerdictOfQuery | src/quackapi_policy.cpp:1074-1343 | a rewrite is refused if and only if some site in the query is a view, a macro, an uninspectable source, a table met with a binding whose name does not parse, or a protected table whose policies cannot be applied for the caller |
| PolicyCoverage.RowFilterIsFirst | src/quackapi_policy.cpp:1173-1213 | the rows are filtered by the expression of the first binding for the table |
| PolicyCoverage.MasksAreThoseBound | src/quackapi_policy.cpp:1215-1231 | a mask is applied if and only if it is bound to the table |
| PolicyCoverage.MasksInOrder | src/quackapi_policy.cpp:1215-1231 | masks keep the order of their bindings |
| PolicyCoverage.TableVerdict | src/quackapi_policy.cpp:1148-1245 | exactly when a single base table passes, for any bindings |
| PolicyCoverage.TouchesIffReadsProtected | src/quackapi_policy.cpp:1347-1392 | where everything can be inspected, `HandlerTouchesPoliciedTable` is true if and only if a protected table, or one met with an unreadable binding, is read somewhere, in expressions, join conditions, set operations and CTE bodies too |
| PolicyPlaces.RewriteIsPlaceByPlace | src/quackapi_policy.cpp:1143-1343 | the references of a rewritten query are those of the original, one by one and in order at every place: an unshadowed one to a protected table has become its secure subquery, any other is unchanged |
| PolicyPlaces.LaterDefinitions | src/quackapi_policy.cpp:1290-1306 | a CTE definition stands in the scope of the definitions before it and of no others |
| PolicyPlaces.CteNameIsSecuredInItsDefinitionOnly | src/quackapi_policy.cpp:1290-1306 | for any CTE list, a protected name that a CTE takes is secured in that CTE's own definition and left alone in every later definition and the body |
| PolicyRewriterState.Rewriter.RewriteQueryNode | src/quackapi_policy.cpp:1290-1343 | the recursive rewriter, which pushes and truncates its scope and records its error in place, computes the specified image and refusal of a query node and leaves the scope as it found it |
| PolicyRewriterState.Rewriter.RewriteCtes | src/quackapi_policy.cpp:1290-1306 | definitions are rewritten in order, each in the scope of those before it |
| PolicyRewriterState.Rewriter.RewriteBody | src/quackapi_policy.cpp:1307-1343 | every clause of a select and both sides of a set operation are rewritten, in the order the code visits them |
| PolicyRewriterState.Rewriter.RewriteTableRef | src/quackapi_policy.cpp:1143-1290 | the image and refusal of each kind of source |
| PolicyRewriterState.Rewriter.RewriteBase | src/quackapi_policy.cpp:1148-1245 | a base table is replaced by its secure subquery exactly when a policy is bound to it |
| PolicyRewriterState.Rewriter.CollectMasks | src/quackapi_policy.cpp:1215-1231 | the masks collected are those bound to the table, in order, and a malformed one is noticed |
| PolicyRewriterState.Rewriter.RewriteExpression | src/quackapi_policy.cpp:1074-1133 | expressions are rewritten through nested subqueries, and macros refused |
| PolicyRewriterState.Rewriter.Reject | src/quackapi_policy.cpp:1020-1027 | the first reason stays; an unauthenticated caller is denied |
| JobQueueRuns.StepKeepsGood | src/quackapi_queue.cpp:451-848 | every operation keeps: attempts = generation <= max_attempts, a lease per delivery, and leases in order; an enqueue may have any clock reading |
| JobQueueRuns.RunIsGood | src/quackapi_queue.cpp:451-848 | so it holds in every state of every run from an empty table |
| JobQueueRuns.WorkerEffect | src/quackapi_queue.cpp:666-848 | an ack, nack or renewal that is not of the current generation within its lease changes nothing; an accepted one changes that one job only |
| JobQueueTheorems.AtMostOneCompletion | src/quackapi_queue.cpp:666-779 | for each job and generation at most one ack or nack is ever accepted |
| JobQueueTheorems.FinishedForever | src/quackapi_queue.cpp:548-779 | done and dead jobs never change again |
| JobQueueTheorems.AcceptedWithinLease | src/quackapi_queue.cpp:666-848 | what is accepted comes from the latest delivery, within its lease |
| JobQueueTheorems.LeasesNeverOverlap | src/quackapi_queue.cpp:548-619 | leases of successive deliveries of one job are disjoint and in order, one per generation |
| JobQueueTheorems.QueuesAreIsolated | src/quackapi_queue.cpp:548-848 | an operation on one queue leaves every job of every other queue as it was |
| JobQueueTheorems.StepConserves | src/quackapi_queue.cpp:451-619 | each claim uses up exactly one attempt; nothing else does |
| JobQueueTheorems.DeliveriesConserved | src/quackapi_queue.cpp:451-619 | over every run, deliveries made plus attempts left are the attempts allowed at enqueue, so claims are bounded |
| JobQueueTheorems.DequeueIsExact | src/quackapi_queue.cpp:548-646 | with four clock readings in order, a dequeue of n returns in ascending order exactly the min(n, eligible) lowest ids |
| JobQueueTheorems.DequeueEffect | src/quackapi_queue.cpp:582-646 | a returned row is leased to the next generation until t4 plus the lease; any other job is only recovered |
| JobQueueTheorems.ExpiredIsDelivered | src/quackapi_queue.cpp:548-646 | a job with attempts left whose lease is over by t3 is among the rows of the dequeue, under its next generation, whatever else is leased, unless n jobs with lower ids fill it |
| JobQueueTheorems.RecoveryByFields | src/quackapi_queue.cpp:548-580 | a job that a dequeue does not claim, field by field: a timed-out last attempt is dead with its reason, another timed-out delivery waits from t3 on, used-up waiting jobs are dead, and what is leased, finished or of another queue is untouched |
| JobQueueTheorems.UsedUpIsDead | src/quackapi_queue.cpp:560-570 | in every run, after a dequeue no job of its queue is running with its lease over and its attempts used up |
| JobQueueTheorems.EnqueueAdds | src/quackapi_queue.cpp:451-473 | an enqueue adds exactly one waiting job with the given payload and attempts, eligible from its reading on, and is refused exactly for an unknown queue |
| JobQueueTheorems.AcceptedIff | src/quackapi_queue.cpp:666-848 | an ack, nack or renewal is accepted if and only if it names the latest delivery of a running job of its queue before that lease ends |
| JobQueueTheorems.AcceptedByFields | src/quackapi_queue.cpp:666-848 | what an accepted one leaves of the job, field by field |
| JobQueueTheorems.DequeueRefusedIff | src/quackapi_queue.cpp:523-546 | a dequeue is refused exactly for a count outside 1 to 1000 or an unknown queue |
| JobQueueTheorems.QueueDdlKeepsJobs | src/quackapi_queue.cpp:621-624 | registering and dropping queues changes no job |
| JobQueueTheorems.CountsMean | src/quackapi_queue.cpp:897-937 | in_flight is what could still be renewed, depth what is neither that nor finished |
| JobQueueTheorems.BackoffIs | src/quackapi_queue.cpp:735-749 | each attempt up to the sixth waits base times as long as the one before, up to an hour |
| JobQueueTheorems.NackedWaitsItsBackoff | src/quackapi_queue.cpp:733-772 | a job given back for another attempt is eligible again if and only if its backoff, never above an hour, is over |
| JobQueueTheorems.BackoffGrows | src/quackapi_queue.cpp:735-749 | the backoff never falls with more attempts, never passes an hour, and is zero only for a base of zero |
| JobQueueTheorems.CountsPartition | src/quackapi_queue.cpp:897-937 | depth, in_flight, dead and done partition the jobs of a queue at any time |
| JobQueueInterleaving.DequeueAbsorbsEnqueues | src/quackapi_queue.cpp:548-646 | a dequeue with any enqueues between its four statements is those enqueues followed by the dequeue: same table, same rows, same ids |
| JobQueueInterleaving.NackAbsorbsEnqueues | src/quackapi_queue.cpp:710-779 | a nack with enqueues between its read and its update likewise |
| JobQueueInterleaving.InterleavingIsARun | src/quackapi_queue.cpp:451-779 | so every such interleaving ends in a state of a run, and all that is proved of runs holds of it |
| JobQueue.RecoverIsThreeSweeps | src/quackapi_queue.cpp:548-580 | the three updates of recovery, each with its own clock reading, are one change per job |
| JobQueue.LowestCorrect | src/quackapi_queue.cpp:582-603 | ORDER BY id LIMIT n: ascending, all from the set, as many as asked for, nothing smaller left out |
| JobQueueState.Queues.EnqueueJob | src/quackapi_queue.cpp:451-473 | the table and reply after an enqueue |
| JobQueueState.Queues.RecoverExpiredJobs | src/quackapi_queue.cpp:548-580 | the table after recovery |
| JobQueueState.Queues.ClaimPendingJobs | src/quackapi_queue.cpp:582-619 | the lowest claimable ids are leased, and no others |
| JobQueueState.Queues.SortIds | src/quackapi_queue.cpp:642-644 | claimed ids in ascending order, which is unique |
| JobQueueState.Queues.DequeueJobs | src/quackapi_queue.cpp:621-646 | recovery, claim and collection together are the specified dequeue |
| JobQueueState.Queues.AckJob | src/quackapi_queue.cpp:666-680 | the table and reply after an ack |
| JobQueueState.Queues.NackJob | src/quackapi_queue.cpp:710-779 | the table and reply after a nack: retried after a backoff, or dead |
| JobQueueState.Queues.RenewJob | src/quackapi_queue.cpp:833-848 | the table and reply after a renewal |
| SelfDispatchRuns.ActKeeps | src/quackapi_http_fetch.cpp:1238-1423 | every action of every thread, failed submission and cancellation included, keeps a call's invariant and changes the counter by exactly the units it takes or gives back |
| SelfDispatchRuns.ReservationsConserved | src/quackapi_http_fetch.cpp:966-978 | under every interleaving of compare-and-swap the counter is the units reserved and not released, and never passes the cap |
| SelfDispatchRuns.NothingLeaks | src/quackapi_http_fetch.cpp:1243-1289 | in every run, when all calls are over and those abandoned have had theirs settled, the counter is zero |
| SelfDispatchRuns.NoRowStartsTwice | src/quackapi_http_fetch.cpp:1246-1294 | no row's SQL is started twice, inline fallback included |
| SelfDispatchRuns.OneReceiptPerRow | src/quackapi_http_fetch.cpp:1301-1423 | a call that arrived with given rows and has returned has one receipt per non-NULL row at its own index: what that row's own SQL gave, or a timeout only if the call was abandoned |
| SelfDispatchRuns.CollectGivesAnswers | src/quackapi_http_fetch.cpp:1412-1423 | when a call collects, a non-NULL row gets its own answer if and only if it has been answered, abandoned or not, and a timeout otherwise |
| SelfDispatchRuns.AnsweredNeverTimesOut | src/quackapi_http_fetch.cpp:1246-1423 | a row that any earlier step answered is never a timeout |
| SelfDispatchRuns.TaskStepDoes | src/quackapi_http_fetch.cpp:1246-1271 | a task's step: it finishes the row it holds, goes on with it, takes the first remaining row, or settles |
| SelfDispatchRuns.CancelledTaskSettles | src/quackapi_http_fetch.cpp:1251-1255 | after the call was given up a task's next step only settles it |
| SelfDispatchRuns.SwapTakes | src/quackapi_http_fetch.cpp:966-978 | a successful swap takes all that is wanted and fits under the cap |
| SelfDispatchRuns.NextRowAdvances | src/quackapi_http_fetch.cpp:1364-1409 | the caller goes through the rows one by one and answers each that is neither NULL nor answered |
| SelfDispatchRuns.NewCallWants | src/quackapi_http_fetch.cpp:1003-1013 | a call wants a unit per non-NULL row, up to 32 |
| SelfDispatchRuns.NeverStuck | src/quackapi_http_fetch.cpp:1337-1423 | until a call has returned or thrown, its own thread or one of its tasks can go on |
| SelfDispatchState.ExecCall.TakeRow | src/quackapi_http_fetch.cpp:1256-1266 | the shared cursor yields the next row that is not NULL |
| SelfDispatchState.ExecCall.ExecuteTaskStep | src/quackapi_http_fetch.cpp:1246-1294 | one step of a scheduler task as the step relation has it |
| SelfDispatchState.ExecCall.SettleTask | src/quackapi_http_fetch.cpp:1280-1289 | a unit is released the first time only |
| SelfDispatchState.ExecCall.RunUnanswered | src/quackapi_http_fetch.cpp:1402-1409 | the caller runs the rows nobody answered |
| SelfDispatchState.ExecCall.CollectResults | src/quackapi_http_fetch.cpp:1412-1423 | the result vector of a call |
| ExecOperation.StepStaysOnTrack | src/quackapi_http_fetch.cpp:1146-1236 | after any number of steps what ran is a prefix of what the synchronous loop runs, in order |
| ExecOperation.StepMakesProgress | src/quackapi_http_fetch.cpp:1146-1236 | (statements left, engine tasks left) falls with every step that does not finish |
| ExecOperation.Operation.Step | src/quackapi_http_fetch.cpp:1146-1236 | one step on the operation's fields |
| ExecOperation.Operation.Drive | src/quackapi_http_fetch.cpp:1136-1236 | stepping to the end terminates, runs the same statements and gives the same response as the loop |
| ExecOperation.LoopStopsAtFirstFailure | src/quackapi_server.cpp:1147-1187 | the loop runs a prefix, stops at the first failure and names that statement in its message |
| ExecOperation.OutcomeIs | src/quackapi_server.cpp:1147-1187 | the loop ends in the first failure, by index, or in the last result |
| ExecOperation.ResponseIs | src/quackapi_server.cpp:1147-1263 | the response in so many words: a 422 with "Statement i of n failed" counted from one, the encoded result, or one of the two 507s |
| ExecOperation.SameResponseIff | src/quackapi_server.cpp:2156-2278 | a scheduler task's answer equals the inline one if and only if the error that the script ends in, of a NUL, of the parser, of an empty script or of its first failing statement, fits the limit once formatted, and the notice for typed rows over the limit does |
| ExecOperation.LongErrorDiffers | src/quackapi_server.cpp:2156-2278 | two scripts for which they differ, one failing and one succeeding |
| Telemetry.FlushIsSafe | src/quackapi_server.cpp:2576-2584 | when a flush returns from its wait every record queued before the call has been exported or printed, under any interleaving |
| Telemetry.ImmediateFlushIsSafe | src/quackapi_server.cpp:2576-2580 | a flush that does not wait had nothing to wait for, unless the sink is stopping |
| Telemetry.NoWaiterIsStranded | src/quackapi_server.cpp:2688-2748 | a worker that leaves lets every waiting flush return |
| Telemetry.FlushCompletes | src/quackapi_server.cpp:2688-2748 | if no record arrives, at most five steps of the worker let a waiting flush return, whatever the writes do |
| Telemetry.ArrivalProlongsFlush | src/quackapi_server.cpp:2739-2746 | a record that arrives while a batch is in hand keeps every flush waiting beyond that batch |
| Telemetry.TableSink.BeginWork | src/quackapi_server.cpp:2688-2693 | the worker's start, which may already mark the sink failed |
| Telemetry.RecordsConserved | src/quackapi_server.cpp:2539-2575 | records queued are those exported or printed, in hand, and pending, in that order; at most 10000 are pending |
| Telemetry.QueuedIff | src/quackapi_server.cpp:2539-2560 | a record is queued, last, if and only if the sink has not failed or a retry is due and fewer than 10000 are pending; overflow rises exactly when the queue is full |
| Telemetry.OverflowNeedsFullQueue | src/quackapi_server.cpp:2548-2556 | in every run a record overflows only if 10000 were once pending |
| Telemetry.HealthySinkQueuesAll | src/quackapi_server.cpp:2539-2560 | in a run without failure or full queue every record is queued, in order |
| Telemetry.NeverHeldUp | src/quackapi_server.cpp:2539-2748 | requests and the stop are never held up, nor is the worker until it leaves |
| Telemetry.ShutdownLosesNothing | src/quackapi_server.cpp:2604-2614 | when the worker has left, every record queued before the stop has been exported or printed |
| Telemetry.ExitedForever | src/quackapi_server.cpp:2688-2748 | after that no record's fate changes |
| Telemetry.TableSink.EnqueueRecord | src/quackapi_server.cpp:2539-2575 | queued last, or printed if and only if the sink waits after a failure or 10000 are pending; the overflow count |
| Telemetry.TableSink.RequestFlush | src/quackapi_server.cpp:2576-2584 | the request a flush leaves, and whether it waits |
| Telemetry.TableSink.TakeBatch | src/quackapi_server.cpp:2694-2715 | the worker's first critical section |
| Telemetry.TableSink.WriteBatch | src/quackapi_server.cpp:2716-2738 | what becomes of a batch that is written, fails, or is not tried |
| Telemetry.TableSink.FinishBatch | src/quackapi_server.cpp:2739-2746 | the worker's second critical section |
| Telemetry.TableSink.RequestStop | src/quackapi_server.cpp:2604-2612 | the stop request, and what was queued before it |
| FlatJson.ExtractAcceptsFlatObjects | src/quackapi_server.cpp:540-682 | accepted if and only if the body is an object in the sense of RFC 8259, sections 2, 4, 6 and 7, of scalars with no escapes; the fields are its decoding, however it is read |
| FlatJson.ExtractTakes | src/quackapi_server.cpp:540-682 | any printing of a flat object decodes to it |
| FlatJson.ExtractIs | src/quackapi_server.cpp:540-682 | whatever is accepted is such a printing |
| FlatJson.DecodeIsLastWins | src/quackapi_server.cpp:642-668 | case-insensitive names, the last member wins, with its exact token or a null flag |
| FlatJson.BoundByText | src/quackapi_server.cpp:642-668 | for the last member of a name: the exact text of its value, a null if and only if that text is null, and as value the text between the quotes, nothing, or the token |
| FlatJson.FoundIff | src/quackapi_server.cpp:540-682 | a name finds a field if and only if a member has that name in any spelling |
| FlatJson.ValueStands | src/quackapi_server.cpp:627-668 | that text stands in the body behind the member's colon |
| FlatJson.CharacterCodes | src/quackapi_server.cpp:543-564 | whitespace, digits and unescaped characters by the codes of RFC 8259 |
| FlatJsonScanner.NumberAt | src/quackapi_server.cpp:572-614 | the number loop accepts what the grammar of section 6 of RFC 8259 does, and stops where it does |
| FlatJsonScanner.MemberAt | src/quackapi_server.cpp:627-669 | one member, up to the comma or brace after it |
| FlatJsonScanner.MembersAt | src/quackapi_server.cpp:627-681 | the member loop computes the specified fields |
| FlatJsonScanner.TryExtractFlatJsonObject | src/quackapi_server.cpp:540-682 | the scanner with its moving cursor computes the specified extraction |
| GraphQLProofs.ParseInvertsPrinting | src/quackapi_graphql.cpp:113-252 | valid distinct roots and columns within the limits, printed with any text the parser ignores between tokens, parse back to themselves |
| GraphQLProofs.ParseAcceptsOnlyPrintings | src/quackapi_graphql.cpp:113-252 | whatever is accepted is such a printing of what is returned |
| GraphQLProofs.ParseIff | src/quackapi_graphql.cpp:113-252 | accepted if and only if so printed, and the result does not depend on how |
| GraphQLProofs.RefusalsSay | src/quackapi_graphql.cpp:114-124 | what is said of a document over 65536 bytes and of one without a token |
| GraphQLProofs.OtherOperationsRefused | src/quackapi_graphql.cpp:127-157 | mutations and subscriptions are refused, and told so |
| GraphQL.CharacterCodes | src/quackapi_graphql.cpp:42-55 | name characters and blanks by their codes |
| GraphQL.TotalColumnsAre | src/quackapi_graphql.cpp:231-238 | the limited total is that of the columns of all roots |
| GraphQLSpec.SkipsAlikeIff | src/quackapi_graphql.cpp:50-67 | the parser skips what the specification ignores if and only if no byte order mark is reached and a comment ended by a carriage return has only ignorable text behind it up to the next line feed |
| GraphQLSpecDocuments.HarmlessIsAlike | src/quackapi_graphql.cpp:50-67 | the same for a gap of a printed document, piece by piece |
| GraphQLSpecDocuments.HarmlessDocumentParses | src/quackapi_graphql.cpp:113-252 | a document of the specification without a harmful gap parses to its roots |
| GraphQLSpecExact.ParsesAsSpecifiedIff | src/quackapi_graphql.cpp:113-252 | a document of the specification parses to its roots, with no name of its header lost, if and only if it has no harmful gap |
| GraphQLSpecExact.ShorthandParsesIff | src/quackapi_graphql.cpp:113-252 | a document without a header parses to its roots if and only if it has no harmful gap |
| GraphQLSpecExact.NeverMore | src/quackapi_graphql.cpp:50-90 | the parser never sees more names and braces in a text than the specification does |
| GraphQLSpecExact.CommentedButRefused | src/quackapi_graphql.cpp:50-67 | `#<CR>{a{b}}` is a document of the specification and is refused |
| GraphQLSpecExact.MarkedButRefused | src/quackapi_graphql.cpp:50-67 | so is `<BOM>{a{b}}` |
| GraphQLSpecExact.CarriageReturnKeepsComment | src/quackapi_graphql.cpp:50-67 | nothing behind a comment that only a carriage return ends is seen |
| GraphQLSpecExact.BomRefused | src/quackapi_graphql.cpp:113-252 | a document with a byte order mark in front is refused, whatever it holds |
| GraphQLParser.SkipWsAt | src/quackapi_graphql.cpp:50-67 | the cursor skips exactly the ignorable text |
| GraphQLParser.ReadNameAt | src/quackapi_graphql.cpp:78-90 | the cursor reads exactly one name |
| GraphQLParser.ParseThinGraphql | src/quackapi_graphql.cpp:113-252 | the cursor loops compute the specified parse, errors included |
| RateLimit.AtMostTwiceTheLimit | src/quackapi_server.cpp:3514-3551 | over every run with readings at most `slack` out of order, any interval two slacks shorter than the period admits at most 2 * limit requests of a bucket, whatever other buckets do |
| RateLimit.AtMostTwiceTheLimitRoomy | src/quackapi_server.cpp:3514-3551 | one slack shorter suffices while the table is never full |
| RateLimitExact.TwicePerPeriodIff | src/quackapi_server.cpp:3516-3519 | 2 * limit per period holds over all runs if and only if the slack is zero |
| RateLimitExact.AllLimitsIff | src/quackapi_server.cpp:3516-3519 | it holds for all limits and periods if and only if the slack is zero |
| RateLimitExact.RoomyIff | src/quackapi_server.cpp:3514-3551 | with the table never full, the bound holds for an interval length if and only if it is at most the period less one slack |
| RateLimitExact.TwiceTheLimitIff | src/quackapi_server.cpp:3521-3551 | over all runs, if and only if it is at most the period less two slacks |
| RateLimitExact.LateReading | src/quackapi_server.cpp:3540-3550 | the run in which a late reading is counted in the window after its own |
| RateLimitExact.LateAfterSweep | src/quackapi_server.cpp:3521-3538 | the run in which a sweep of the full table lets a late reading open a window early |
| RateLimit.TableNeverOverfull | src/quackapi_server.cpp:3522-3534 | the table never has more than 100000 entries |
| RateLimit.RetryAfterIsEnough | src/quackapi_server.cpp:3540-3551 | a caller refused on count that waits Retry-After, with no request of its bucket between, is admitted unless its bucket is gone and the table is full of live ones |
| RateLimit.RetryAfterIsTight | src/quackapi_server.cpp:3518-3547 | Retry-After is the whole second in which the window ends and none later, or the period when the table is full |
| RateLimit.NewClientIsAdmitted | src/quackapi_server.cpp:3521-3550 | with fewer than 100000 entries a new client is let in, for one period |
| Decimals.DecimalValue | src/quackapi_server.cpp:3517-3517 | a number's digits give it back, without leading zeros |
| RateLimit.BucketKeyInjective | src/quackapi_server.cpp:3517-3517 | keys are injective in route and client, whatever characters they hold |
| RateLimit.PrefixIffRoute | src/quackapi_server.cpp:3553-3563 | a key has a route's prefix if and only if it was made for that route |
| RateLimit.ClearRemovesExactlyTheRoute | src/quackapi_server.cpp:3553-3563 | clearing a route removes its buckets and no others |
| RateLimit.RateLimiter.AllowRateLimit | src/quackapi_server.cpp:3514-3551 | the table and answer after a request, the sweep in any order |
| RateLimit.RateLimiter.ClearRouteRateLimit | src/quackapi_server.cpp:3553-3563 | the table after clearing a route |
| Csv.CsvRoundTripIff | src/quackapi_server.cpp:1686-1712 | an RFC 4180 reader gets the header and the cells of every row back if and only if there is a data column |
| Csv.ReadInvertsText | src/quackapi_server.cpp:1608-1633 | any cells, whatever quotes, commas and line ends they hold, read back |
| Csv.CellsComeBack | src/quackapi_server.cpp:1686-1712 | the cells read back are those of the data columns, names first, empty where a row is too short |
| Csv.QuotedIff | src/quackapi_server.cpp:1609-1633 | a cell is quoted if and only if it holds a quote, a comma or a line end |
| Csv.CsvEscapeField | src/quackapi_server.cpp:1609-1633 | the two loops quote and double as specified |
| Csv.SerializeRowsCsv | src/quackapi_server.cpp:1686-1712 | the nested loops print the header and the rows, short rows with empty cells |
| Routing.MatchInvertsInstantiation | src/quackapi_server.cpp:1342-1365 | a pattern filled with non-empty slash-free values matches and returns exactly those values, in order, under their names |
| Routing.MatchIffFilled | src/quackapi_server.cpp:1342-1365 | a path matches with given captures if and only if it has the pattern's trailing slash and is the pattern filled with them |
| Routing.CapturesAreSegments | src/quackapi_server.cpp:1342-1365 | a captured value is never empty and never holds a slash |
| Routing.CaptureForms | src/quackapi_server.cpp:1356-1362 | `:name` and `{name}` capture under that name, and nothing else does |
| Routing.TrailingSlashMatters | src/quackapi_server.cpp:1328-1348 | no pattern matches a path both with and without a slash at its end |
| Routing.SplitInvertsLayout | src/quackapi_server.cpp:1308-1325 | splitting gives back the segments, whatever runs of slashes lie between them |
| Routing.LayoutOfSplit | src/quackapi_server.cpp:1308-1325 | every path is its segments with runs of slashes between them |
| Routing.SplitPath | src/quackapi_server.cpp:1308-1325 | the character loop computes the segments |
| Routing.MatchPattern | src/quackapi_server.cpp:1342-1365 | the segment loop computes the specified match |
| RouteSelection.LimitsAgreeIff | src/quackapi_server.cpp:2782-2823 | the header-phase and handler limits are equal if and only if no HEAD stream stands between a HEAD request and a GET route with a limit of its own |
| RouteSelection.LimitsAgree | src/quackapi_server.cpp:4165-4250 | with the streams that can be registered they are equal for every registry and request |
| RouteSelection.CreatedStreamsAreRegistered | src/quackapi_stream.cpp:152-186 | CREATE STREAM makes GET event streams and WebSocket streams, and no others |
| RouteSelection.HeadStreamSeparates | src/quackapi_server.cpp:4216-4250 | a registry and request for which they would differ |
| RouteSelection.LastServingIsLast | src/quackapi_server.cpp:2788-2797 | the route chosen is the last registered that serves the request |
| RouteSelection.FirstStreamingIsFirst | src/quackapi_server.cpp:4192-4214 | the stream chosen is the first registered that serves the request |
| RouteSelection.LimitIs | src/quackapi_server.cpp:4246-4250 | the limit is the route's own or 8 MiB, and never above the server's, which is at least one byte |
| RouteSelection.SetRequestPayloadLimit | src/quackapi_server.cpp:2782-2823 | the limit set when the headers have arrived |
| RouteSelection.ScanRoutes | src/quackapi_server.cpp:4173-4190 | the last matching route, its captures, and each method of the path listed once |
| RouteSelection.ScanStreams | src/quackapi_server.cpp:4191-4214 | the first matching stream if no route was taken, and the methods it adds |
| RouteSelection.SelectHandler | src/quackapi_server.cpp:4165-4242 | route before stream, never both, neither only if nothing serves the request, and the exact Allow list |
| RouteSelection.HandlerLimit | src/quackapi_server.cpp:4243-4255 | the limit recomputed in the handler |
| RouteRegistry.RegistryStaysUnique | src/quackapi_registry.cpp:32-101 | after any sequence of statements, names and (method, pattern) pairs are unique and the published snapshot is the registry |
| RouteRegistry.ApplyKeepsConsistent | src/quackapi_registry.cpp:46-101 | each statement keeps that; one that is refused changes nothing; a reader always gets the registry |
| RouteRegistry.CreateSucceedsIff | src/quackapi_registry.cpp:46-75 | a plain batch succeeds if and only if all names and endpoints are new and different, and is then appended |
| RouteRegistry.ReplaceSucceedsIff | src/quackapi_registry.cpp:46-75 | a replacing batch succeeds if and only if no prefix of it leaves duplicates |
| RouteRegistry.BatchIsLastWins | src/quackapi_registry.cpp:46-75 | each name then has the batch's last definition, or the one it had |
| RouteRegistry.BatchKeepsPlaces | src/quackapi_registry.cpp:64-68 | what was registered keeps its place under its name, and what is new comes behind |
| RouteRegistry.ClashesIff | src/quackapi_registry.cpp:52-63 | a route is kept out by one of its name that it may not replace, or by one of another name with its method and pattern |
| RouteRegistry.BatchForgetsWindows | src/quackapi_registry.cpp:71-75 | exactly the registered routes lose their rate-limit windows |
| RouteRegistry.DropKeepsUnique | src/quackapi_registry.cpp:77-88 | a drop removes exactly the named route |
| RouteRegistry.Registry.AddRoutes | src/quackapi_registry.cpp:46-75 | the copied proposal committed at the end is the specified batch, all or nothing |
| RouteRegistry.Registry.DropRoute | src/quackapi_registry.cpp:77-88 | the registry, snapshot and windows after a drop |
| RouteRegistry.Registry.LiveRoutes | src/quackapi_registry.cpp:95-101 | what a server reads is the registry |
| AuthRegistry.KeysAreOwned | src/quackapi_registry.cpp:204-318 | after any sequence of statements every stored key carries the exact name of a live API_KEY scheme, and no scheme has a key twice |
| AuthRegistry.NoKeyOutlivesItsScheme | src/quackapi_registry.cpp:204-318 | a stored key was added by a statement since which its scheme has been live as API_KEY, neither dropped nor changed in kind |
| AuthRegistry.RespellingKeepsKeys | src/quackapi_registry.cpp:222-229 | a change of spelling alone keeps the keys under the new spelling |
| AuthRegistry.DropTakes | src/quackapi_registry.cpp:237-259 | a drop takes the scheme of that name in any spelling with exactly its keys |
| AuthRegistry.CreateGives | src/quackapi_registry.cpp:204-235 | refused exactly for a taken name without OR REPLACE; otherwise the scheme is there, and other schemes and their keys are as they were |
| AuthRegistry.AddKeyGives | src/quackapi_registry.cpp:280-318 | a key is added exactly for a live API_KEY scheme, under its own spelling, and replaces that scheme's entry with its hash |
| AuthRegistry.ApplyKeepsConsistent | src/quackapi_registry.cpp:204-318 | each statement keeps that, and a refused one changes nothing |
| AuthRegistry.Registry.AddAuth | src/quackapi_registry.cpp:204-235 | schemes and keys after CREATE AUTH |
| AuthRegistry.Registry.DropAuth | src/quackapi_registry.cpp:237-259 | schemes and keys after DROP AUTH |
| AuthRegistry.Registry.AddApiKey | src/quackapi_registry.cpp:280-318 | keys after a key is added or given a new subject |
| GraphQLMounts.OneAnswerPerPath | src/quackapi_registry.cpp:821-908 | after any sequence of statements a path is answered by one mount at most, in one role, and the built-in paths by none |
| GraphQLMounts.CreateSucceedsIff | src/quackapi_registry.cpp:821-872 | a mount is registered if and only if the registry with it stays consistent and its name is free or replaceable |
| GraphQLMounts.AcceptableIff | src/quackapi_registry.cpp:821-846 | what a mount must be like on its own: named, absolute, over a table, POST in any spelling, not on a built-in path |
| GraphQLMounts.CollidesIff | src/quackapi_registry.cpp:848-861 | another mount keeps it out exactly when they share a path or one lies on the other's schema |
| GraphQLMounts.MountsStayConsistent | src/quackapi_registry.cpp:821-883 | over all sequences of statements |
| GraphQLMounts.NormalizePath | src/quackapi_registry.cpp:807-813 | trailing slashes go, and nothing else |
| GraphQLMounts.Registry.AddGraphqlRoute | src/quackapi_registry.cpp:821-872 | the mounts after CREATE GRAPHQL ROUTE |
| GraphQLMounts.Registry.DropGraphqlRoute | src/quackapi_registry.cpp:874-883 | the mounts after DROP GRAPHQL ROUTE |
| ConnectionPool.PoolIsSound | src/quackapi_http_fetch.cpp:384-567 | over every interleaving: at most 256 hosts, 256 idle clients and 64 per free list; each live client in exactly one free list or held by one call, and only where its own host and protocol look for it |
| ConnectionPool.StepKeepsGood | src/quackapi_http_fetch.cpp:384-567 | each step keeps that and makes at most one client live, a freshly dialed one |
| ConnectionPool.GoneForever | src/quackapi_http_fetch.cpp:467-567 | a client that is closed never comes back |
| ConnectionPool.BrokenNeverReused | src/quackapi_http_fetch.cpp:500-522 | a client whose call did not end healthy is never handed out again |
| ConnectionPool.CheckoutIsExclusive | src/quackapi_http_fetch.cpp:467-485 | a checkout hands out a client of the host and protocol asked for, held by no other call |
| ConnectionPool.PoolBounds | src/quackapi_http_fetch.cpp:314-316 | the bounds in numbers |
| ConnectionPool.PreparedIs | src/quackapi_http_fetch.cpp:384-403 | exactly which hosts go when room is made, and that the host's entry is stamped |
| ConnectionPool.TakeIs | src/quackapi_http_fetch.cpp:474-484 | a checkout takes the client returned last and counts a reuse, or counts a dial |
| ConnectionPool.GiveIs | src/quackapi_http_fetch.cpp:513-521 | a returned client is kept, last, if and only if its list has fewer than 64 and the pool fewer than 256 |
| ConnectionPool.StampIsLastUse | src/quackapi_http_fetch.cpp:384-403 | in every run a host's stamp is the time of the last step that used it |
| ConnectionPool.HostLeaves | src/quackapi_http_fetch.cpp:384-403 | a host leaves only by a reset, after five minutes, or as the one used longest ago among 256 |
| ConnectionPool.TotalWithout | src/quackapi_http_fetch.cpp:405-410 | the total of idle clients does not depend on the order of visiting hosts |
| ConnectionPool.Pool.PoolHost | src/quackapi_http_fetch.cpp:384-403 | expired hosts go; a full table gives up a least recently used host, and only then |
| ConnectionPool.Pool.TotalIdleClients | src/quackapi_http_fetch.cpp:405-410 | the loop computes the total |
| ConnectionPool.Pool.TakeClient | src/quackapi_http_fetch.cpp:467-485 | the pool and client after a checkout, within the bounds |
| ConnectionPool.Pool.ReturnClient | src/quackapi_http_fetch.cpp:513-521 | the pool after a healthy return, within the bounds |
| ConnectionPool.Pool.ResetPool | src/quackapi_http_fetch.cpp:628-647 | nothing idle is left |

## Left out

- DuckDB's parser, binder, catalog and transactions: a statement is one atomic step with a given outcome.
- Text of policies: a policy is an expression tree; placeholder substitution and quoting (`src/quackapi_policy.cpp:160-204`) are not modelled.
- PolicyRewriterState.Rewriter.RewriteTableRef: refuses a PIVOT source like any source that cannot be inspected, although the code walks its source and aggregates; and returns new trees where the code replaces nodes of the old one, so aliasing of nodes is not captured.
- The caches of view, macro and binding lookups: the model looks up each time.
- Two bindings that spell one table differently, and policies whose arity changed under OR REPLACE: bindings are taken as canonical.
- Columns of a policy expression that refer to a query around it: a policy sees the protected row, the tables and the CTEs in scope.
- Definitions of CTEs that nothing reads count towards a query's meaning, since an engine may evaluate them.
- Legacy rows of the jobs table and the eight retries on a write conflict: the table starts empty and a claim is serialized.
- Overflow of timestamps and 64-bit ids: integers are unbounded.
- Races inside one `ExecOperation::Step`, allocation failure and executor errors: a step is atomic. A scheduler task that the executor retires in the middle of a row before the call is cancelled is not modelled.
- PolicyCoverage.EraseQuery: compares with table names spelled out in full, because a secure subquery holds the qualified name and not how the handler wrote it.
- RateLimit.AtMostTwiceTheLimit: assumes a positive period and that the route is not registered anew, as the source's windows are only meant for that.
- RateLimitExact.TwicePerPeriodIff: is about limits of three and more (`TwiceTheLimitIff` of four and more); for smaller ones only the sufficient half is stated, because three windows then hold too few requests to pass 2 * limit in this way.
- CREATE and DROP QUEUE racing a delivery operation: that operation's look-up of its queue and its statements are one step.
- The deadline watchdog, SSE and WebSocket transport, compression, Arrow and Parquet encoding: I/O, or loops that only assemble text. Of CSV only the conversion of a value to its cell text is left out.
- JWT, HMAC, SHA-256 and base64: a key's hash is a given value.
- Registration of streams, groups, policies and queues as DDL: the same shape as the registries here.
- Lock order and memory of the C++ objects: each critical section is one step.
- The typed row byte predictor, OpenAPI documents, importers and the keyword parsers of the DDL: long but shallow.
