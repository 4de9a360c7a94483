# EventFlow: verified model

EventFlow publishes events to Kafka, runs sagas over them, retries what fails, dead-letters what
keeps failing and replays what was dead-lettered. This project models the parts that make it
reliable and proves what every run of them keeps.

| module | models |
|---|---|
| `Prelude` | sums over tables, and what counts as an answer to an ordered, limited query |
| `Redis` | the shared key space: set-if-absent with expiry, unconditional delete |
| `Saga` | a single workflow run, one loop iteration at a time, and its exact traces and effects |
| `WorkflowRows` | the workflow row as a run writes it, from the copy it read before its lock, any update dropped |
| `WorkflowEngine` | the engine object: loops, tables, lock, and what others do between its read and its lock |
| `Serial` | many runs at once, each reading its row, taking its lease and writing, with clock ticks and crashes |
| `Backoff` | retry delays and the delays of one record from scheduling to exhaustion |
| `Retry` | the retry engine as a step machine: schedules, polls taken record by record, crashes |
| `RetryEngine` | the retry engine object, proved to take those steps |
| `Pipeline` | one partition's consumer over the retry tables: delivery, commit, audit, crash, restart |
| `Worker` | the handler and the poll loop as an object |
| `Events` | the events table: insertion, and the time-range query |
| `Replay` | replay of dead letters and of time ranges |
| `Admission` | idempotency keys and the events table |
| `Topics` | topic creation and deletion across Kafka and the metadata table |

How to read it. Calls to Kafka, Postgres and Redis are steps whose success is a parameter, so every
result holds for every pattern of failures; where a result depends on a write having succeeded, the
lost writes are counted in a history field (`dlqLost`, `updatesLost`, `marksLost`, ...) and appear in
the statement. A query is any answer `Prelude.Answers` allows: rows that tie may come in any order.
`Prelude.AnswerExists` shows there always is one, and `Retry.PendingRetriesAnswered`,
`Replay.ListDLQAnswered` and `Events.EventsInRangeAnswered` that each query of the system has one.
The functions `Next`, `Apply`, `HandleNext`, `ReplayRows` and their like are the meaning of the
loops; the classes carry the loops themselves and are proved equal to them.

Where the code does less than its documentation says, the model follows the code, and a lemma says
exactly when the documented property holds:

- Rollback is LIFO (docs/system-design.md:43) exactly when step names are owned: `Saga.LifoExactlyWhenNamesAreOwned`, `Saga.SharedNameBreaksLifo`.
- A failed run compensates exactly when it fails at a step whose row, like those before it, is stored; at the first row that cannot be stored it stops and undoes nothing: `Saga.VerdictExactly`, `Saga.UnstoredStepLeavesEffects`.
- The lock excludes exactly while leases last: `Serial.SecondHolderExactlyWhenLate`, `Serial.LateUnlockFreesAnothersLock`, `Serial.LateHolderIsJoined`.
- An offset is not committed after dead-lettering (docs/interview-guide.md:44 says it is): one that cannot be processed is passed exactly when a strictly later message succeeds and its commit goes through, `Pipeline.FailedOffsetPassedExactlyByLaterCommit`, `Pipeline.DeadLetteredThenPassed`. It is then lost exactly when no record of its event is pending or completed and every dead letter due for it was lost: `Pipeline.LostExactly`, `Pipeline.LostWriteLosesTheEvent`.
- A limit of retry records per event holds up to the times a consumer schedules at less than the attempt reached: `Pipeline.RecordsPerEvent`, `Pipeline.RacingReadsExceedTheLimit`.
- A request turned away as a duplicate repeats a published one exactly if the one request of its key admitted in the last TTL was published; a failed publish keeps its key: `Admission.TurnedAwayExactly`, `Admission.FailedPublishTurnsRetryAway`.
- A completion time is shown only by completed rows exactly if the completing update went through, or some update did and the run had read no completion time: `WorkflowRows.CompletedAtOnlyWithCompletedExactly`, `WorkflowRows.RerunLeavesCompletedAt`.
- The row is read before the lock, so a run can erase the completion time of one that finished in between; exactly when is `WorkflowRows.CompletedAtSurvivesExactly` and `Serial.ErasedExactlyByStaleRead`, and `Serial.StaleReadErasesCompletion` is such an execution. Id, name and input are never affected: `Serial.ReadingEarlyIsHarmlessForInput`.
- A replay is sure to drain a topic exactly if every unreplayed dead letter has at most 1000 rows not older than itself, and one with 1000 newer ones is never replayed again: `Replay.DrainedExactlyWithinWindow`, `Replay.BeyondIsNeverReplayed`, `Replay.ArrivalsBury`.
- Repairing a topic can record sizes that are not the broker's: `Topics.AgreementLostExactlyByRepair`, `Topics.RepairRecordsWrongSizes`.
- A topic requested with zero partitions passes validation and never gets a metadata row: `Topics.CreateCompletesExactlyForPositiveSizes`, `Topics.ZeroPartitionsNeverComplete`.

## Model

| member | source | states |
|---|---|---|
| Saga.VerdictExactly | internal/workflow/engine.go:101-137 | completed, rolled back at k, or stopped uncompensated at k: each if and only if a condition on the step functions, the injected failures and the inserts alone |
| Saga.UnstoredStepLeavesEffects | internal/workflow/engine.go:120-122 | a run of reversible steps that stops at an unstored row and leaves the world changed |
| Saga.RunOutcome | internal/workflow/engine.go:98-137 | every run: rows are the executed prefix, every one of them stored, chained output to input with at most one failed row, last; the calls are fixed by rows and verdict, whatever compensations return |
| Saga.RunEffects | internal/workflow/engine.go:101-200 | each row records what its step returned in the world the earlier steps made; a completed run has all effects; a failed row insert undoes nothing; a run rolled back at k leaves what the compensations make of the effects of steps 0..k, the failed one's own included |
| Saga.ExecutedExactlyUnlessInjected | internal/workflow/engine.go:152-160 | a step that is reached is executed if and only if neither the engine's nor the input's injected failure names it; one that is named fails |
| Saga.ExactRollback | internal/workflow/engine.go:179-200 | a run failing at k makes executions in order (not of an injected failure), then exactly the non-nil compensations of steps k-1..0, each on its step's own input, if and only if the steps before k own their names, as distinct names do |
| Saga.LifoExactlyWhenNamesAreOwned | internal/workflow/engine.go:184-200 | rollback through the name map equals the LIFO rollback if and only if every earlier step owns its name or neither it nor the owner compensates |
| Saga.SharedNameBreaksLifo | internal/workflow/engine.go:185-188 | a run of two reversible steps of one name and a failing third compensates the later twice and the earlier never, and leaves the world changed |
| Saga.SagaUndo | internal/workflow/engine.go:98-128 | with owned names, inverting compensations and clean failures, a rolled-back run leaves the world as it found it |
| Saga.Lookup | internal/workflow/engine.go:185-188 | the last definition of a name is the one kept |
| WorkflowRows.StatusesInOrder | internal/workflow/engine.go:94-134 | whatever updates are dropped, persisted statuses are running*, then completed, or compensating and then failed |
| WorkflowRows.LogLeft | internal/workflow/engine.go:94-207 | the persisted statuses are those of the updates that go through, each in its turn: running once and once per step, then completed, or compensating and failed |
| WorkflowRows.RowLeft | internal/storage/postgres.go:349-355 | status, current step and completion time of the row left are those of the last update that went through, on the id, name and input found; with none dropped the current step is the last one, or the one the run stopped at |
| WorkflowRows.CompletedAtSurvivesExactly | internal/storage/postgres.go:349-355 | with the row read and the row found under the lock told apart: id, name and input stay, and the completion time found survives, or is erased, if and only if a condition on what was read and which updates went through |
| WorkflowRows.CompletedAtOnlyWithCompletedExactly | internal/workflow/engine.go:78-134 | the row shows a completion time only as completed if and only if the completing update went through, or some update did and none was read, or none did and it was so before |
| WorkflowRows.IssuedAdvances | internal/workflow/engine.go:94-134 | the updates issued iteration by iteration add up to those of the whole run |
| WorkflowRows.RerunLeavesCompletedAt | internal/workflow/engine.go:78-96 | a rerun of a completed workflow that fails leaves a failed row with a completion time |
| WorkflowEngine.Engine.Run | internal/workflow/engine.go:77-138 | for whatever other workers leave between the read and the lock: the errors before the lock change nothing; otherwise world, calls, step rows, lock and error are those of the undisturbed run, and every column of the row and the statuses are those of the updates that went through, issued from the row read |
| WorkflowEngine.RunIsExecution | internal/workflow/engine.go:77-138 | what `Run` makes of what it found is an execution of the many-run machine, from the row read to the lock deleted |
| WorkflowEngine.Engine.RunSteps | internal/workflow/engine.go:98-128 | the forward loop stops where the step machine does, with the announced row |
| WorkflowEngine.Engine.ExecuteStep | internal/workflow/engine.go:140-177 | an injected failure touches nothing; otherwise the step acts once on its input |
| WorkflowEngine.Engine.CompensateAll | internal/workflow/engine.go:184-200 | the reverse loop through the map has the calls and effects of the step machine |
| WorkflowEngine.Engine.StepMap | internal/workflow/engine.go:185-188 | the map holds for each name the position `Lookup` gives |
| WorkflowEngine.Engine.Compensate | internal/workflow/engine.go:179-208 | compensating, rollback, failed, in that order, with the two updates either of which may be lost |
| WorkflowEngine.Engine.Create | internal/workflow/engine.go:57-75 | a pending row exactly for a registered name that could be stored |
| Serial.Serialisable | internal/workflow/engine.go:78-137 | if holders leave before their leases end, at most one run per id is between lock and unlock, and each id's world, row and trace are those of its runs one after the other |
| Serial.UndisturbedRunIsExecution | internal/workflow/engine.go:87-137 | a run alone under a free lock is an execution that leaves the whole run's world and row, the clock, and the keys without its own, and touches nothing else |
| Serial.RolledBackRunsLeaveNoTrace | internal/workflow/engine.go:179-200 | so a run rolled back at k undoes itself even among others, if the steps before k are reversible and step k fails cleanly |
| Serial.ReadingEarlyIsHarmlessForInput | internal/workflow/engine.go:78-98 | in every execution, late holders included, id, name and input of a row never change and every run works on them |
| Serial.CompletionTimesSurvive | internal/workflow/engine.go:87-134 | while leases last and no run lacks the completion time it finds under its lock, no completion time is ever erased |
| Serial.ErasedExactlyByStaleRead | internal/workflow/engine.go:78-96 | a run taking the lock erases a completion time if and only if it had read none and its first update goes through |
| Serial.StaleReadErasesCompletion | internal/workflow/engine.go:78-96 | an execution that keeps all leases and erases a completion time |
| Serial.CompletedAtOnlyWithCompleted | internal/workflow/engine.go:130-134 | in every execution in which no run has read a completion time, only completed rows show one |
| Serial.SecondHolderExactlyWhenLate | internal/storage/redis.go:49-51 | a second run of the same workflow gets the lock if and only if the holder's lease has ended |
| Serial.DeadHoldersLockLasts | internal/storage/redis.go:49-51 | after a holder's process dies no run of its id is under the lock before the lease ends, and the first to ask gets it if and only if the lease has ended |
| Serial.HolderStory | internal/workflow/engine.go:78-91 | a run under the lock read its row at one step, and at a later one found its place and took the lock for 300 seconds |
| Serial.RefusedWithoutEffect | internal/workflow/engine.go:87-90 | a run refused the lock, or that cannot ask for it, is over and has touched nothing |
| Serial.LateUnlockFreesAnothersLock | internal/storage/redis.go:53-55 | of two holders, the first to leave deletes the other's lock |
| Serial.LateHolderIsJoined | internal/storage/redis.go:49-55 | an execution in which a late holder is joined by a second run and frees its lock |
| Redis.KeysAreSeparate | internal/storage/redis.go:34-54 | lock keys, idempotency keys and queue depth keys never collide, and neither do ids |
| Redis.RedisCache.CheckIdempotency | internal/storage/redis.go:30-39 | the empty key is never a duplicate; any other is exactly while it is held |
| Redis.RedisCache.LockWorkflow | internal/storage/redis.go:49-51 | taken exactly when not held, for the given lease |
| Redis.RedisCache.UnlockWorkflow | internal/storage/redis.go:53-55 | deletes whoever's key it is |
| Redis.RedisCache.SetQueueDepth | internal/storage/redis.go:41-43 | overwrites the gauge's key with a new expiry |
| Backoff.CappedIterates | internal/retry/engine.go:89-95 | for multiplier at least 1 the capped power is iterated capped multiplication |
| Backoff.DelayMonotone | internal/retry/engine.go:89-95 | delays never shrink, never pass the maximum, and stay at it once reached |
| Backoff.DelayTruncates | internal/retry/engine.go:89-95 | the first delay is the smaller configured duration, and each the capped power without its fraction |
| Backoff.PositiveDelays | internal/retry/engine.go:89-95 | all delays are positive if and only if both configured durations are |
| Backoff.WaitsShape | internal/retry/engine.go:32-76 | a record scheduled at a waits max(1, max-a-1) times, at indices a, a+2, ..., max-1, together at most that many maximum delays |
| Backoff.DoublingTotal | internal/retry/engine.go:89-95 | with multiplier 2 below the cap these sum to initial * (2^max - 3*2^a) |
| Retry.RecordsLiveAsScheduled | internal/retry/engine.go:32-85 | in every run: attempt bounds per status; a record that fails has had exactly the calls and waits of `Waits` |
| Retry.RecordsChangeExactly | internal/retry/engine.go:32-80 | in every run: when a record is made and every column of it; and that it changes only by a stored update after its handler returned, to which attempt, error, status and due time |
| Retry.PendingDueExactly | internal/retry/engine.go:32-76 | a pending record with no lost update is due exactly its last wait after the step that wrote it; if not yet handled, the delay of its origin after its schedule |
| Retry.DeadLettersWrittenExactly | internal/retry/engine.go:63-119 | in every run: when a dead letter is written and every column of it, type and payload those stored for the record's own event if they can be read |
| Retry.CrashLosesOnlyTheBatch | internal/retry/engine.go:53-58 | a crash leaves the tables alone, and what was left of the batch is still pending and due |
| Retry.HandleMeasure | internal/retry/engine.go:58-85 | the sum of max(1, max - attempt) over pending records drops by one per failing call, by the record's share per success, not at all when the update is lost |
| Retry.CallsAreBounded | internal/retry/engine.go:53-87 | in every run handler calls never exceed what scheduling issued plus lost updates, with equality to the remainder if all fail |
| Retry.CallsWithinMeasure | internal/retry/engine.go:53-87 | from any reachable state, with nothing more scheduled, the handler calls made plus the measure left are at most the measure before plus the updates lost, and equal to it if all fail |
| Retry.DlqConservation | internal/retry/engine.go:28-119 | in every run, per event and in total, dead letters = failed records + over-limit schedules if and only if equally many of the two kinds of write were lost |
| Retry.DeadLettersAreExhausted | internal/retry/engine.go:97-119 | no dead letter is written before the limit, with an empty payload, or already marked |
| Retry.NoStarvation | internal/storage/postgres.go:249-269 | a due record with k pending records at or before its time is handled before ceil(k/100) polls complete, polls and lost updates counted from the steps themselves, whatever is returned or scheduled, crashes included |
| RetryEngine.Engine.Schedule | internal/retry/engine.go:26-51 | record or dead letter, and the error, as the step machine has them |
| RetryEngine.Engine.ProcessPending | internal/retry/engine.go:53-87 | a failed query changes nothing; otherwise the whole batch is handled in order |
| RetryEngine.Engine.HandleOne | internal/retry/engine.go:59-84 | one handler call and its three outcomes |
| RetryEngine.Engine.MoveToDLQ | internal/retry/engine.go:101-119 | an empty payload becomes {}, and the error is the store's |
| RetryEngine.DrainIsExecution | internal/retry/engine.go:58-87 | an undisturbed poll is a run of the step machine and leaves no batch |
| Prelude.AnswerExists | internal/storage/postgres.go:249-339 | every ordered, limited query over a table has an answer |
| Pipeline.HeaderValue | cmd/consumer-worker/main.go:172-179 | the first header with the key, else empty |
| Pipeline.GetMaxRetryAttempt | internal/storage/postgres.go:162-168 | an upper bound of the event's attempts that is attained, or 0 |
| Pipeline.DeliveredExactly | cmd/consumer-worker/main.go:45-77 | what a delivery leaves: one message further; in hand, and audited if stored, if it can be processed; else its event scheduled at the attempt read, at 0 if the read failed |
| Pipeline.OtherStepsExactly | pkg/kafka/consumer.go:60-84 | only deliveries and restarts move the position, and only a commit that goes through the committed offset, to one past the message in hand |
| Pipeline.RestartsAtCommitted | pkg/kafka/consumer.go:24-76 | the first message delivered after a restart is the one at the committed offset of the crash |
| Pipeline.UncommittedIsRedelivered | pkg/kafka/consumer.go:24-76 | after a crash no offset uncommitted then is passed before it has been delivered again, further crashes included |
| Pipeline.NoSilentLoss | pkg/kafka/consumer.go:60-84 | every offset below the committed one succeeded, has a pending or completed retry, or a dead letter, unless a write recording that event was lost |
| Pipeline.CommittedExactly | pkg/kafka/consumer.go:72-76 | in every run an offset is below the committed one if and only if a message at or after it was in hand at a commit that went through |
| Pipeline.FailedOffsetPassedExactlyByLaterCommit | pkg/kafka/consumer.go:73-76 | an offset that cannot be processed never counts as succeeded, and is passed if and only if a strictly later message's commit went through |
| Pipeline.LostExactly | cmd/consumer-worker/main.go:49-61 | a committed offset is nowhere to be found if and only if it did not succeed, all records of its event failed, and as many dead letters of it were lost as were due |
| Pipeline.DeadLetteredThenPassed | pkg/kafka/consumer.go:73-76 | whatever the limit, a run that dead-letters an event, leaves its offset uncommitted, and passes it with the next message |
| Pipeline.NoSilentLossInWorker | cmd/consumer-worker/main.go:98-101 | with the worker's own retry handler the retry is pending, never completed |
| Pipeline.LostWriteLosesTheEvent | pkg/kafka/consumer.go:73-76 | one lost insert and a later commit leave an event nowhere |
| Pipeline.OffsetAudit | cmd/consumer-worker/main.go:63-67 | the committed offset never decreases and is at most the audited one plus one while no audit is lost |
| Pipeline.RecordsPerEvent | cmd/consumer-worker/main.go:51-57 | at most maxAttempts retry records per event however often redelivered, plus one for each schedule at less than the attempt reached, by a failed read or a race with another consumer |
| Pipeline.RacingReadsExceedTheLimit | cmd/consumer-worker/main.go:51-57 | two consumers that read before either writes make two records where one is allowed |
| Pipeline.AttemptNeverDecreases | internal/storage/postgres.go:162-168 | the attempt an event's records have reached never decreases |
| Worker.ConsumerGroup.Handle | cmd/consumer-worker/main.go:45-77 | the handler takes the delivery step and reports its error |
| Worker.ConsumerGroup.PollLoop | pkg/kafka/consumer.go:60-84 | the loop handles each message, commits after success only, goes on after failure, stops at a fatal error |
| Worker.PollLoopIsRun | pkg/kafka/consumer.go:60-84 | the loop is a run of the pipeline's step machine, from its start to its end |
| Worker.PollLoopExactly | pkg/kafka/consumer.go:60-84 | what each answer of Poll adds: a message handled, and committed if without error; failures, empty answers and other errors passed over; nothing after a fatal one |
| Worker.PollLoopLosesNothing | pkg/kafka/consumer.go:60-84 | after whatever run, the loop only moves the committed offset on, loses nothing silently and keeps the audit in step |
| Replay.CountsAgree | internal/replay/service.go:65-88 | the count, also on error, is the rows published and the drop in the unreplayed count but for lost marks; other rows are untouched |
| Replay.PublishesInOrder | internal/replay/service.go:70-87 | a call publishes, after what was there, the type and payload of the rows still to be replayed one by one to the target, up to the first error, which is reported exactly if some remain |
| Replay.TodoExactly | internal/replay/service.go:71-74 | the rows still to be replayed are the unreplayed ones in the order of the listing |
| Replay.MarkedWhenPublished | internal/storage/postgres.go:301-306 | a published row whose mark was stored carries the time of the mark |
| Replay.NoRowTwice | internal/replay/service.go:65-88 | over any calls and arrivals no row is published twice unless its mark was lost, nor marked unpublished |
| Replay.DrainedExactlyWithinWindow | internal/storage/postgres.go:279-299 | a fault-free call drains the topic whatever it is answered if and only if every unreplayed row has at most 1000 rows not older; it never does if one has 1000 newer |
| Replay.DrainedExactlyWhenListed | internal/replay/service.go:65-88 | an error-free call leaves nothing unreplayed if and only if all of it was listed, as it is up to 1000 rows |
| Replay.BeyondIsNeverReplayed | internal/replay/service.go:65-88 | over any arrivals and calls, a row with 1000 newer ones of its topic is never published or marked again |
| Replay.ArrivalsBury | internal/storage/postgres.go:279-299 | 1000 newer arrivals bring any row, unreplayed ones included, to where that holds |
| Replay.SecondCallReturnsZero | internal/replay/service.go:65-88 | on a drained topic a call returns 0 and changes nothing |
| Replay.NothingToReplay | internal/replay/service.go:71-74 | with only replayed rows listed a call does nothing, whatever lies beyond |
| Events.EventsInRangeExactly | internal/storage/postgres.go:308-339 | a listing holds just the events of the topic, in the range with both ends, on the partition if given, each once, by time and then offset |
| Replay.RangesJoin | internal/storage/postgres.go:308-339 | replaying [s,m] then [m+1,e] is a replay of [s,e] |
| Replay.RangeSplits | internal/storage/postgres.go:308-339 | every replay of [s,e] is one of [s,m] followed by one of [m+1,e] |
| Replay.PartitionOfReplay | internal/storage/postgres.go:314-318 | a partition's replay is the unfiltered one cut down to it |
| Replay.PartitionsTogether | internal/storage/postgres.go:314-318 | the partitions' replays together are a permutation of the unfiltered one |
| Replay.RepeatedReplay | internal/replay/service.go:43-60 | repeating a range publishes a permutation, and the same sequence when no two events tie |
| Replay.Service.Replay | internal/replay/service.go:24-63 | publishes type, payload and id of the listed events one by one to the target up to the first error, counts them, and touches no table |
| Replay.Service.ReplayDLQ | internal/replay/service.go:65-88 | the loop over the listing is `ReplayRows` |
| Admission.AdmissionsApart | internal/api/handlers.go:81-98 | over any interleaving, admissions of a key are a TTL apart, the table has one row per key, and the rows of every earlier moment are still there unchanged |
| Admission.AdmittedExactlyWhenClear | internal/storage/redis.go:30-39 | a request is admitted if and only if none of its key was in the last TTL |
| Admission.TurnedAwayExactly | internal/api/handlers.go:81-98 | a request is turned away if and only if one, and only one, of its key was admitted in the last TTL, and the key was published in that time if and only if that one's publish succeeded |
| Admission.FailedPublishTurnsRetryAway | internal/grpc/event_server.go:31-45 | after a failed publish a retry within the TTL is turned away, with nothing published or stored |
| Admission.StoresExactly | internal/storage/postgres.go:205-212 | in every run an insert that goes through adds exactly its row if no row has its id or non-empty key, and changes nothing otherwise |
| Admission.StoreAllExactly | internal/api/handlers.go:113-117 | of a batch of new events exactly those whose inserts go through are added, in order |
| Admission.Gateway.PublishEvent | internal/grpc/event_server.go:31-53 | check, publish, store, with the four outcomes; an accepted, stored publish of a new id and key is the last row |
| Admission.Gateway.PublishBatch | internal/api/handlers.go:103-119 | no check; nothing is stored unless all were published; a batch of new events is added in order |
| Topics.CreateCompletesExactlyForPositiveSizes | internal/topic/service.go:34-82 | a fault-free Create brings a topic without metadata into both stores if and only if the request is valid and its sizes are positive |
| Topics.CreatesExactly | internal/topic/service.go:39-78 | sizes, retention and policy of the row, and the sizes of the Kafka topic, that a fault-free Create leaves, and nothing else |
| Topics.RejectedRequests | internal/topic/service.go:117-132 | names, partition counts and policies that are turned away without asking either store, and some that are not |
| Topics.DeletesOnlyItsOwn | internal/topic/service.go:103-115 | a Delete leaves every other topic as it was in both stores |
| Topics.ZeroPartitionsNeverComplete | internal/topic/service.go:121-126 | zero partitions are accepted and leave a Kafka topic without a row, however often repeated |
| Topics.DeleteClearsExactlyWhatHasMetadata | internal/topic/service.go:103-115 | a fault-free Delete leaves neither store unless the topic is in Kafka alone |
| Topics.OnlyInterruptionsDiverge | internal/topic/service.go:34-115 | over any calls a topic is in one store only after an interrupted call on it, and one fault-free call repairs it |
| Topics.AgreementLostExactlyByRepair | pkg/kafka/admin.go:38-74 | agreement on sizes is lost if and only if a completed Create meets a Kafka topic without a row, or one that could not read the row a topic missing in Kafka, of other sizes |
| Topics.RepairRecordsWrongSizes | internal/topic/service.go:34-82 | a cut-off Create and a second one of other sizes leave a row that is wrong about the broker |
| Topics.Service.Create | internal/topic/service.go:34-82 | the order of the two stores, each exit and its error |
| Topics.Service.Get | internal/topic/service.go:84-97 | a topic exactly when it is in both stores and both answer |
| Topics.Service.Delete | internal/topic/service.go:103-115 | Kafka first, then the row |

## Left out

- Kafka, Postgres and Redis themselves: log with position and committed offset, tables with filter, sort and limit, and keys with expiry stand for them; rebalancing and producer retries are not modelled.
- Several pollers or several replayers at once: one of each is assumed, as pending rows are read without locks.
- HTTP and gRPC routing, JSON binding, metrics, logging, configuration, the demo generator and the workflow the handler triggers over HTTP.
- Payload contents: opaque, but for the two keys the code looks at.
- Identifiers: fresh UUIDs are row positions; an event id that is not a UUID appears only as a write that fails.
- Lost replies: a call that returns an error is taken to have had no effect. A set-if-absent or a topic creation that took effect and whose reply was lost is outside the model, and `Admission.AdmittedExactlyWhenClear` and `Topics.OnlyInterruptionsDiverge` do not hold across one.
- Changes of the registry or of the failure injection during a run: the source reads the registry again on compensation and the injected step at every step (internal/workflow/engine.go:152, 184); both are the same for the whole of a modelled run.
- Step timeouts: a step that times out is one that returns an error.
- created_at, updated_at, started_at and error texts of workflow rows and steps.
- Clock during one `WorkflowEngine.Engine.Run`: it stands still from the lock on; time passing inside a run is modelled in `Serial`.
- Serial.Serialisable: each id has a world of its own, or the part of a common one that only its own steps touch, so runs of different ids do not interfere there by construction: two workflows charging one account are outside the model.
- Atomicity in `Serial`: an iteration's execution, the insert of its row and its updates are one step, so a process dies between iterations; a death inside one is covered only where it looks like an unstored row or a dropped update followed by a crash.
- A crash between the update of an exhausted retry and its dead letter (internal/retry/engine.go:65-71) appears as a lost dead-letter write.
- Backoff.DoublingTotal: floating-point rounding is not modelled; the multiplier is a real and the result is truncated.
- Replay.Service.Replay: dead letters that arrive during a call are taken to arrive before or after it, since the call works on its listing.
- Topics: retention, cleanup policy and compression of the Kafka topic are not compared with the row; `List` is left out.
- Kafka dead letter topics, resuming a running workflow after a crash and cancellation are described in the documentation but not done by the code.
