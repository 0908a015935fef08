# Hazelcast test-support core, modelled in Dafny

This project models five small pieces of logic from Hazelcast's test support. It proves what their tests and their code promise.

- **InboundStream** (`inbound_stream.dfy`) is the Jet `MockInboundStream`. It holds a FIFO deque of items, which `drainTo` hands out in chunks of at most `chunkSize`. The `DONE_ITEM` sentinel ends the stream. A special broadcast item is either forwarded alone or held back as a pending item for the next call. Each call reports one of four progress states. `DrainTo` is `drainTo`, `Push` is `push`, `Sizes` is `sizes()` and `IsDone` is `isDone()`.
- **DummyOperations** (`dummy_operation.dfy`) holds the dummy operations of the operation-executor tests: their partition ids, the `durationMs` field, its `writeInternal`/`readInternal` serialization (`WriteInternal`/`ReadInternal`) as a big-endian 32-bit int, and what `run()` does.
- **OperationRunners** (`operation_runner.dfy`) covers two classes:
  - The dummy operation runner records every task, packet and operation it is given. It keeps `currentTask` set while an operation runs and clears it in `finally`. It catches and prints an Exception an operation throws, but a `java.lang.Error` passes through to the caller.
  - The runner factory creates partition runners and generic runners, and at most one ad-hoc runner.
- **InvocationFutures** (`invocation_future.dfy`) is the invocation future as its join tests fix it:
  - The future is a single completion slot, and the first writer wins.
  - `join()` returns the value, or throws exactly one `CompletionException` around the original cause.
  - An interrupted joiner leaves the future failed with an `InterruptedException` and keeps its interrupt flag set.
- **MutableLongs** (`mutable_long.dfy`) is `MutableLong`: `valueOf`, the default value, `addAndGet` and `getAndInc` with Java's 64-bit wrap-around, `toString` (`ToString`), `equals` and `hashCode`.
- **PartitionIndexing** (`partition_indexing.dfy`) covers two pieces of the partition-indexing tests:
  - The `assertPartitionsIndexedCorrectly` coverage validator (`Validate`) passes only if, per index name, the partitions indexed across all members are pairwise disjoint and cover `[0, expectedPartitions)`.
  - The `MigrationFailingService` makes migrations fail until the first rollback.

`wrappers.dfy` holds the `Option` and `Result` types shared by the modules. `java_ints.dfy` holds Java's `int` and `long` ranges.

Every operation is a pure function over an immutable datatype. Threads, clocks and callbacks become parameters:
- the outcome of an operation's or task's `run()`;
- the deserializer of `run(Packet)`;
- a joining thread's interrupt flag.

`InboundStream.DrainLoop` and `InboundStream.ChunkLoop` repeat `drainTo` as the loop it is written as, and are proved equal to the functional definition.

## Model

| member | source | states |
|---|---|---|
| InboundStream.Create | hazelcast/src/test/java/com/hazelcast/jet/impl/execution/MockInboundStream.java:43-47 | a new stream has exactly the given items in its deque, holds no pending item, is not done, and keeps the given priority and chunk size |
| InboundStream.Push | hazelcast/src/test/java/com/hazelcast/jet/impl/execution/MockInboundStream.java:49-51 | what the stream owes grows by the pushed items at its tail; flags and chunk size are kept |
| InboundStream.PushThenSizes | hazelcast/src/test/java/com/hazelcast/jet/impl/execution/MockInboundStream.java:49-51 | `sizes()` grows by the number of pushed items, the old deque is a prefix of the new one, and pushing does not change whether the stream is done |
| InboundStream.ScanFrom | hazelcast/src/test/java/com/hazelcast/jet/impl/execution/MockInboundStream.java:72-90 | the chunk loop polls at most `chunkSize` items, hands out only data before its stop, and stops at `DONE_ITEM` or a broadcast item (forwarded only as the first item, held back otherwise); a run of data items goes on to the chunk limit or the end of the deque |
| InboundStream.ChunkOf | hazelcast/src/test/java/com/hazelcast/jet/impl/execution/MockInboundStream.java:72-90 | the loop removes at most `chunkSize` items, and at least one when `chunkSize` is positive and the deque is not empty |
| InboundStream.DrainTo | hazelcast/src/test/java/com/hazelcast/jet/impl/execution/MockInboundStream.java:58-92 | at most `chunkSize` items leave the deque; DONE is reported exactly when this call set `done`; a done stream stays done |
| InboundStream.DrainWhenDone | hazelcast/src/test/java/com/hazelcast/jet/impl/execution/MockInboundStream.java:59-61 | once done, a call reports WAS_ALREADY_DONE, emits nothing and changes nothing |
| InboundStream.DrainPendingFirst | hazelcast/src/test/java/com/hazelcast/jet/impl/execution/MockInboundStream.java:63-67 | a pending broadcast item is emitted alone and cleared, the call reports MADE_PROGRESS, and the deque is untouched |
| InboundStream.DrainWhenEmpty | hazelcast/src/test/java/com/hazelcast/jet/impl/execution/MockInboundStream.java:69-71 | with no pending item and an empty deque, a call reports NO_PROGRESS, emits nothing and changes nothing |
| InboundStream.DrainTakesPrefix | hazelcast/src/test/java/com/hazelcast/jet/impl/execution/MockInboundStream.java:72-73 | a call only ever removes items from the head of the deque |
| InboundStream.ChunkConserves | hazelcast/src/test/java/com/hazelcast/jet/impl/execution/MockInboundStream.java:72-90 | the deque equals, in order, the items handed out, then the sentinel if met, then the held-back item, then the rest |
| InboundStream.DrainToConserves | hazelcast/src/test/java/com/hazelcast/jet/impl/execution/MockInboundStream.java:58-92 | no item is lost or reordered by any call, on a live or a done stream: emitted + `DONE_ITEM` if met + pending + remaining deque equals what the stream owed |
| InboundStream.DrainToEmitsNoSentinel | hazelcast/src/test/java/com/hazelcast/jet/impl/execution/MockInboundStream.java:74-89 | `DONE_ITEM` is never emitted, and a call emits either only data items or a single broadcast item |
| InboundStream.DrainToKeepsWf | hazelcast/src/test/java/com/hazelcast/jet/impl/execution/MockInboundStream.java:74-86 | a stream never becomes done while holding a pending item |
| InboundStream.DrainMakesProgress | hazelcast/src/test/java/com/hazelcast/jet/impl/execution/MockInboundStream.java:63-91 | with a positive chunk size, a live stream that owes items owes fewer after a call, which reports MADE_PROGRESS or DONE |
| InboundStream.BroadcastFirstIsForwardedAlone | hazelcast/src/test/java/com/hazelcast/jet/impl/execution/MockInboundStream.java:78-81 | a broadcast item at the head is emitted alone, nothing is held back, and the call ends after it |
| InboundStream.ScanStopsAtFirstNonData | hazelcast/src/test/java/com/hazelcast/jet/impl/execution/MockInboundStream.java:72-90 | within the chunk, the loop stops right after the first non-data item, with the stop reason that item's kind and position dictate |
| InboundStream.BroadcastAfterDataIsHeldBack | hazelcast/src/test/java/com/hazelcast/jet/impl/execution/MockInboundStream.java:63-86 | a broadcast item after data items is not emitted but kept pending, and the next call emits exactly it |
| InboundStream.DoneItemEndsTheStream | hazelcast/src/test/java/com/hazelcast/jet/impl/execution/MockInboundStream.java:58-91 | the data before `DONE_ITEM` is emitted, the sentinel is consumed, the call reports DONE, and the next reports WAS_ALREADY_DONE |
| InboundStream.DrainTimesWhenDone | hazelcast/src/test/java/com/hazelcast/jet/impl/execution/MockInboundStream.java:59-61 | any number of calls on a done stream emits nothing and changes nothing |
| InboundStream.DrainTimesIsFifo | hazelcast/src/test/java/com/hazelcast/jet/impl/execution/MockInboundStream.java:58-92 | over any number of calls, the items are emitted in FIFO order and none is lost |
| InboundStream.DrainTimesNeverEmitsDone | hazelcast/src/test/java/com/hazelcast/jet/impl/execution/MockInboundStream.java:74-77 | over any number of calls, `DONE_ITEM` is never emitted |
| InboundStream.DrainLoop | hazelcast/src/test/java/com/hazelcast/jet/impl/execution/MockInboundStream.java:58-92 | the imperative `drainTo` computes exactly the functional `DrainTo` |
| InboundStream.ChunkLoop | hazelcast/src/test/java/com/hazelcast/jet/impl/execution/MockInboundStream.java:72-90 | the imperative poll-and-break loop computes exactly the functional chunk |
| DummyOperations.DummyGenericOperation | hazelcast/src/test/java/com/hazelcast/spi/impl/operationexecutor/impl/OperationExecutorImpl_AbstractTest.java:133-138 | a generic dummy operation has partition id GENERIC_PARTITION_ID and duration 0 |
| DummyOperations.DummyPartitionOperationOn | hazelcast/src/test/java/com/hazelcast/spi/impl/operationexecutor/impl/OperationExecutorImpl_AbstractTest.java:146-148 | a partition dummy operation targets the partition it was given |
| DummyOperations.DummyPartitionOperation | hazelcast/src/test/java/com/hazelcast/spi/impl/operationexecutor/impl/OperationExecutorImpl_AbstractTest.java:142-144 | the default partition dummy operation targets partition 0 |
| DummyOperations.UrgentDummyOperation | hazelcast/src/test/java/com/hazelcast/spi/impl/operationexecutor/impl/OperationExecutorImpl_AbstractTest.java:261-266 | an urgent dummy operation targets the partition it was given |
| DummyOperations.WithDuration | hazelcast/src/test/java/com/hazelcast/spi/impl/operationexecutor/impl/OperationExecutorImpl_AbstractTest.java:159-162 | `durationMs(d)` sets the duration and keeps the class and partition |
| DummyOperations.WriteInt | hazelcast/src/test/java/com/hazelcast/spi/impl/operationexecutor/impl/OperationExecutorImpl_AbstractTest.java:174-177 | an int is written as exactly four bytes |
| DummyOperations.WriteIntIsBigEndian | hazelcast/src/test/java/com/hazelcast/spi/impl/operationexecutor/impl/OperationExecutorImpl_AbstractTest.java:174-177 | `writeInt` puts the most significant byte first and writes negatives in two's complement (1, -1 and 0x01020304 as examples) |
| DummyOperations.ReadInt | hazelcast/src/test/java/com/hazelcast/spi/impl/operationexecutor/impl/OperationExecutorImpl_AbstractTest.java:180-183 | reading an int fails exactly when fewer than four bytes remain, and otherwise yields a Java int and consumes four bytes |
| DummyOperations.WriteReadRoundTrip | hazelcast/src/test/java/com/hazelcast/spi/impl/operationexecutor/impl/OperationExecutorImpl_AbstractTest.java:173-183 | `readInternal` after `writeInternal` restores `durationMs` and leaves the following bytes unread |
| DummyOperations.ReadWriteRoundTrip | hazelcast/src/test/java/com/hazelcast/spi/impl/operationexecutor/impl/OperationExecutorImpl_AbstractTest.java:173-183 | whatever `readInternal` accepts is the writing of the duration it read, followed by the unread rest |
| DummyOperations.DummyRun | hazelcast/src/test/java/com/hazelcast/spi/impl/operationexecutor/impl/OperationExecutorImpl_AbstractTest.java:164-171 | `run()` throws exactly for a negative duration, and leaves the thread's interrupt flag as it found it |
| OperationRunners.DummyRunIsSwallowed | hazelcast/src/test/java/com/hazelcast/spi/impl/operationexecutor/impl/OperationExecutorImpl_AbstractTest.java:246-258 | the IllegalArgumentException a negative sleep throws never reaches the runner's caller, and the runner ends as if the operation had returned |
| OperationRunners.NewRunner | hazelcast/src/test/java/com/hazelcast/spi/impl/operationexecutor/impl/OperationExecutorImpl_AbstractTest.java:218-226 | a new runner has its partition id, records nothing and runs nothing |
| OperationRunners.NewFactory | hazelcast/src/test/java/com/hazelcast/spi/impl/operationexecutor/impl/OperationExecutorImpl_AbstractTest.java:186-190 | a new factory holds no runners and no ad-hoc runner, so it satisfies the invariant the creation calls keep |
| OperationRunners.RunOperation | hazelcast/src/test/java/com/hazelcast/spi/impl/operationexecutor/impl/OperationExecutorImpl_AbstractTest.java:246-258 | `run(Operation)` appends the operation, ends with no current task and leaves tasks and packets alone; only a `java.lang.Error` reaches the caller, because the `catch` takes Exceptions only |
| OperationRunners.CurrentTaskWhileRunning | hazelcast/src/test/java/com/hazelcast/spi/impl/operationexecutor/impl/OperationExecutorImpl_AbstractTest.java:248-250 | while the operation runs, it is recorded last and is the current task |
| OperationRunners.RunOperationSwallowsFailures | hazelcast/src/test/java/com/hazelcast/spi/impl/operationexecutor/impl/OperationExecutorImpl_AbstractTest.java:251-257 | the runner ends in the same state whatever the operation throws; when what it throws is an Exception, the call is indistinguishable from one that returned normally |
| OperationRunners.RunTask | hazelcast/src/test/java/com/hazelcast/spi/impl/operationexecutor/impl/OperationExecutorImpl_AbstractTest.java:233-237 | `run(Runnable)` appends the task, then lets the task's own exception, and nothing else, reach the caller |
| OperationRunners.RunPacket | hazelcast/src/test/java/com/hazelcast/spi/impl/operationexecutor/impl/OperationExecutorImpl_AbstractTest.java:239-244 | `run(Packet)` appends the packet; a decoded operation is run, so operations grow by exactly it; a failing decode throws and runs nothing |
| OperationRunners.ServeAllLeavesNoCurrentTask | hazelcast/src/test/java/com/hazelcast/spi/impl/operationexecutor/impl/OperationExecutorImpl_AbstractTest.java:233-258 | after any sequence of calls, an idle runner is idle again and has appended exactly the operations the calls ran, in call order |
| OperationRunners.CreatePartitionRunner | hazelcast/src/test/java/com/hazelcast/spi/impl/operationexecutor/impl/OperationExecutorImpl_AbstractTest.java:192-197 | returns a fresh runner for the partition and appends it to the partition list only |
| OperationRunners.CreateGenericRunner | hazelcast/src/test/java/com/hazelcast/spi/impl/operationexecutor/impl/OperationExecutorImpl_AbstractTest.java:199-204 | returns a fresh runner with GENERIC_PARTITION_ID and appends it to the generic list only |
| OperationRunners.CreateAdHocRunner | hazelcast/src/test/java/com/hazelcast/spi/impl/operationexecutor/impl/OperationExecutorImpl_AbstractTest.java:206-215 | fails with IllegalStateException exactly when an ad-hoc runner exists; otherwise stores and returns a fresh runner with partition id -2 |
| OperationRunners.AdHocRunnerOnlyOnce | hazelcast/src/test/java/com/hazelcast/spi/impl/operationexecutor/impl/OperationExecutorImpl_AbstractTest.java:207-215 | the first ad-hoc creation succeeds, a second fails, and the first runner stays in place |
| OperationRunners.CreateAllPartitionRunners | hazelcast/src/test/java/com/hazelcast/spi/impl/operationexecutor/impl/OperationExecutorImpl_AbstractTest.java:186-197 | after any requests, the partition list is the old one followed by one fresh runner per partition request, in order |
| OperationRunners.CreateAllGenericAndAdHoc | hazelcast/src/test/java/com/hazelcast/spi/impl/operationexecutor/impl/OperationExecutorImpl_AbstractTest.java:186-215 | after any requests, the generic list is the old one followed by one fresh generic-id runner per generic request; every generic and ad-hoc runner keeps its partition id; an ad-hoc runner exists exactly when it existed or was requested, and the first one is kept |
| InvocationFutures.Settle | hazelcast/src/test/java/com/hazelcast/spi/impl/AbstractInvocationFuture_JoinTest.java:47-89 | a completion wins exactly on a future that is not done; a win installs the result and wakes every parked joiner; a loss changes nothing |
| InvocationFutures.Complete | hazelcast/src/test/java/com/hazelcast/spi/impl/AbstractInvocationFuture_JoinTest.java:48-49 | a winning `complete(value)` leaves the future holding that value |
| InvocationFutures.CompleteExceptionally | hazelcast/src/test/java/com/hazelcast/spi/impl/AbstractInvocationFuture_JoinTest.java:58-60 | a winning `completeExceptionally(cause)` leaves the future failed with that cause |
| InvocationFutures.WrapInCompletion | hazelcast/src/test/java/com/hazelcast/spi/impl/AbstractInvocationFuture_JoinTest.java:65-71 | the thrown exception is a CompletionException whose cause is the original, never wrapped twice |
| InvocationFutures.Resolve | hazelcast/src/test/java/com/hazelcast/spi/impl/AbstractInvocationFuture_JoinTest.java:47-89 | joining a done future returns exactly its value, or throws the CompletionException around its cause |
| InvocationFutures.Recheck | hazelcast/src/test/java/com/hazelcast/spi/impl/AbstractInvocationFuture_JoinTest.java:98-117 | a parked joiner returns once the future is done; interrupted, it fails the future with InterruptedException, throws the wrapped failure and keeps its flag set; otherwise it stays parked |
| InvocationFutures.Join | hazelcast/src/test/java/com/hazelcast/spi/impl/AbstractInvocationFuture_JoinTest.java:47-118 | a join either stays parked and registered on a future that is not done, or leaves the future done and returns its outcome; an interrupt flag is never lost |
| InvocationFutures.JoinAfterComplete | hazelcast/src/test/java/com/hazelcast/spi/impl/AbstractInvocationFuture_JoinTest.java:47-55 | after `complete(value)`, any join returns that same value and leaves the interrupt flag alone |
| InvocationFutures.JoinAfterCompleteExceptionally | hazelcast/src/test/java/com/hazelcast/spi/impl/AbstractInvocationFuture_JoinTest.java:57-89 | after `completeExceptionally` with a runtime or checked exception, any join throws a CompletionException whose direct cause is that exception |
| InvocationFutures.DoneIsFinal | hazelcast/src/test/java/com/hazelcast/spi/impl/AbstractInvocationFuture_JoinTest.java:112-117 | a done future ignores later completions, and every joiner sees the same outcome |
| InvocationFutures.DoneStaysDone | hazelcast/src/test/java/com/hazelcast/spi/impl/AbstractInvocationFuture_JoinTest.java:112-117 | from a done state, no sequence of completions, joins or rechecks changes the state |
| InvocationFutures.FirstWriterWins | hazelcast/src/test/java/com/hazelcast/spi/impl/AbstractInvocationFuture_JoinTest.java:47-55 | after uninterrupted joins, the first completion decides the value for good |
| InvocationFutures.InterruptedJoiner | hazelcast/src/test/java/com/hazelcast/spi/impl/AbstractInvocationFuture_JoinTest.java:91-118 | a joiner parks and moves the state off UNRESOLVED; interrupted, it returns with its flag set; a later join throws CompletionException caused by InterruptedException |
| MutableLongs.Default | hazelcast/src/test/java/com/hazelcast/internal/util/MutableLongTest.java:49-53 | a default-constructed MutableLong holds 0 |
| MutableLongs.ValueOf | hazelcast/src/test/java/com/hazelcast/internal/util/MutableLongTest.java:33-35 | `valueOf(v)` holds v |
| MutableLongs.AddAndGet | hazelcast/src/test/java/com/hazelcast/internal/util/MutableLongTest.java:33-39 | returns the new value and stores it; it is old + d modulo 2^64 in the long range, and exactly old + d when that fits |
| MutableLongs.GetAndInc | hazelcast/src/test/java/com/hazelcast/internal/util/MutableLongTest.java:41-47 | returns the old value and stores old + 1, wrapping from Long.MAX_VALUE to Long.MIN_VALUE |
| MutableLongs.ArithmeticExamples | hazelcast/src/test/java/com/hazelcast/internal/util/MutableLongTest.java:33-47 | 13 `addAndGet(11)` gives 24 and stores 24; 13 `getAndInc()` gives 13 and stores 14 |
| MutableLongs.IncrementsAddUp | hazelcast/src/test/java/com/hazelcast/internal/util/MutableLongTest.java:41-47 | n calls of `getAndInc` store the value plus n, wrapped as `addAndGet(n)` would |
| MutableLongs.DefaultToString | hazelcast/src/test/java/com/hazelcast/internal/util/MutableLongTest.java:49-54 | a default MutableLong renders as "MutableLong{value=0}" |
| MutableLongs.ParseLongOfLongToString | hazelcast/src/test/java/com/hazelcast/internal/util/MutableLongTest.java:49-54 | the decimal rendering of a long reads back as that long |
| MutableLongs.ToStringInjective | hazelcast/src/test/java/com/hazelcast/internal/util/MutableLongTest.java:49-54 | MutableLongs that render the same hold the same value |
| MutableLongs.Equals | hazelcast/src/test/java/com/hazelcast/internal/util/MutableLongTest.java:56-67 | equal exactly to another MutableLong with the same value; never to null or to another class |
| MutableLongs.EqualsContract | hazelcast/src/test/java/com/hazelcast/internal/util/MutableLongTest.java:56-67 | `equals` is reflexive and symmetric, holds exactly for equal values, and rejects null and a String |
| MutableLongs.HashCode | hazelcast/src/test/java/com/hazelcast/internal/util/MutableLongTest.java:69-72 | the hash is a Java int |
| MutableLongs.HashConsistentWithEquals | hazelcast/src/test/java/com/hazelcast/internal/util/MutableLongTest.java:69-72 | equal MutableLongs have equal hash codes |
| PartitionIndexing.ScanPartitions | hazelcast/src/test/java/com/hazelcast/query/impl/PartitionIndexingTest.java:215-221 | the partition loop succeeds exactly when no indexed partition in range was already seen, adding them all; otherwise it reports the smallest clashing partition |
| PartitionIndexing.Record | hazelcast/src/test/java/com/hazelcast/query/impl/PartitionIndexingTest.java:207-221 | the name's partitions start empty on first sight and gain the index's partitions in range; other names are untouched; a clash is reported under this name |
| PartitionIndexing.Tally | hazelcast/src/test/java/com/hazelcast/query/impl/PartitionIndexingTest.java:205-224 | the walk over all indexes fails only with a duplicate partition |
| PartitionIndexing.TallyMeaning | hazelcast/src/test/java/com/hazelcast/query/impl/PartitionIndexingTest.java:203-224 | the walk succeeds exactly when same-named indexes are pairwise disjoint in range, and then maps every name seen to the partitions it covers |
| PartitionIndexing.ValidateMeaning | hazelcast/src/test/java/com/hazelcast/query/impl/PartitionIndexingTest.java:202-234 | the validator passes exactly when same-named indexes are pairwise disjoint and every name covers `expectedPartitions` partitions |
| PartitionIndexing.AlreadyIndexedMeaning | hazelcast/src/test/java/com/hazelcast/query/impl/PartitionIndexingTest.java:216-218 | a duplicate failure names a partition in range that two indexes of that name both hold |
| PartitionIndexing.MissingPartitionsMeaning | hazelcast/src/test/java/com/hazelcast/query/impl/PartitionIndexingTest.java:226-232 | a count failure comes after a clean duplicate scan and names exactly the names whose count is off |
| PartitionIndexing.OnlyExpectedRangeExamined | hazelcast/src/test/java/com/hazelcast/query/impl/PartitionIndexingTest.java:215-216 | what an index claims outside `[0, expectedPartitions)` does not affect the verdict |
| PartitionIndexing.NamesIndependent | hazelcast/src/test/java/com/hazelcast/query/impl/PartitionIndexingTest.java:208-213 | an index of another name does not change what a name covers |
| PartitionIndexing.CompleteMeansCovering | hazelcast/src/test/java/com/hazelcast/query/impl/PartitionIndexingTest.java:230-232 | for a non-negative count, covering `expectedPartitions` partitions means covering exactly `[0, expectedPartitions)` |
| PartitionIndexing.NewMigrationFailingService | hazelcast/src/test/java/com/hazelcast/query/impl/PartitionIndexingTest.java:236-238 | the service starts neither failing nor rolled back |
| PartitionIndexing.RollbackMigration | hazelcast/src/test/java/com/hazelcast/query/impl/PartitionIndexingTest.java:256-259 | `rollbackMigration` sets `rolledBack` and keeps `fail` |
| PartitionIndexing.NoFailureAfterRollback | hazelcast/src/test/java/com/hazelcast/query/impl/PartitionIndexingTest.java:240-259 | once rolled back, no later `beforeMigration` throws, whatever else happens |
| PartitionIndexing.FailingPersists | hazelcast/src/test/java/com/hazelcast/query/impl/PartitionIndexingTest.java:245-250 | starting with `fail` set and no rollback, `beforeMigration` still throws after any events that neither roll back nor clear `fail` |
| PartitionIndexing.FailUntilRollback | hazelcast/src/test/java/com/hazelcast/query/impl/PartitionIndexingTest.java:245-259 | with `fail` set, a `beforeMigration` after any events that neither roll back nor clear `fail` throws, and none after a rollback does |

## Left out

- Real threading and timing are not modelled. This covers `Thread.sleep` in `DummyOperation.run`, the parking and waking of joiners, `spawn`, `assertTrueEventually`, and the thread-safety of the synchronized lists. Each becomes a sequential state transition, with the thread's interrupt flag as an explicit input and output.
- The operation executor, its partition and generic threads, urgent-operation lanes and response handling are not part of this model. Only the dummy runner, the runner factory and the dummy operations are.
- `serializationService.toObject` in `run(Packet)` is an abstract, total decode function passed as a parameter, which either yields an operation or throws.
- `Operation`'s own `writeInternal`/`readInternal` and the `Operation` base class are not part of this model. The base class is taken to write nothing before `durationMs`, and `GENERIC_PARTITION_ID` is taken to be -1.
- `run(Runnable)` catches nothing: a task's exception reaches the caller, after the task was recorded.
- The invocation future's production class is not part of this model. Its observable behaviour follows the join tests.
  - An interrupted joiner fails the future with an `InterruptedException`, because a later `join` on the same future throws a CompletionException caused by one.
  - `get`, `whenComplete` and callbacks are left out.
- MutableLongs.HashCode: `MutableLong`'s production class is not part of this model. The hash is taken to be Java's `Long.hashCode`, and the contract states only that it is an int that agrees with `equals`.
- MutableLongs.Equals: object identity is not modelled, so `equals(this)` holds because the values are equal. The outcome is the same.
- PartitionIndexing.Validate: for a partition-count failure, the code reports only the first failing entry of a HashMap, whose order is unspecified. The model reports the set of all failing names, and the message's missing-partition count is dropped.
- `assertPartitionsIndexedCorrectlyEventually`, the cluster setup and `getAllIndexes` are left out. The indexes are given as a sequence in iteration order, each with the set of partitions `hasPartitionIndexed` answers true for. A BitSet is modelled as a set of ints.
- `prepareReplicationOperation` returns null and `commitMigration` does nothing. Both appear only as events that leave the service unchanged.
- `MockInboundStream`'s `setOrdinal`, `ordinal`, `priority`, `remainingItems` and `capacities` are plain accessors and setters. `ordinal` and `priority` are kept as fields, and the others are left out.
- `executedOperationsCount()` of the dummy runner always returns 0 and is left out.
- Object sharing between the factory and its runners is not modelled. A runner is a value, so the factory's lists record each runner as it was created, not the object the executor later runs work on. The factory invariant `FactoryWf` therefore speaks only of partition ids, which running work never changes.
- Throwables are modelled as three kinds: the `IllegalArgumentException` from `Thread.sleep`, any other Exception a task or operation throws, and a `java.lang.Error`. Stack traces and printing are left out.
