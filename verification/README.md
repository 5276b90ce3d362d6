# Dremio CDC, modelled and proved in Dafny

Dremio CDC pulls change events out of a database, batches them, writes each batch to a target table
through one of two sinks, and commits a resume offset only after the write. This project models the
parts whose correctness lies in how they work together, and proves what they keep.

**Events and tables** (`Events`, `TargetTable`, `Batches`). An event carries an operation, images, a
schema and perhaps an offset. A target table is a *bag of rows*, so that unique primary keys are
something the sinks have to keep, not something the type gives away. `Replay`, which applies events one
by one to a map from key to row, is the reference every sink is measured against. Both sinks need the
same hypotheses, collected in `WellFormed` and `KeyedSchema`: one schema per table and batch, keys
present and non-null in every image, full after-images, updates that keep their key, deletes with a
before-image.

**The sinks** (`DremioSink`, `IcebergSink`, `SinkLaws`, `StoredRows`, `Masking`). Mode A merges the last upsert per
key and then deletes; Mode B deletes every touched key and then appends. Neither applies events in
order. For each there is an exact, per-key condition under which a batch leaves what one-by-one replay
leaves, and a batch that shows it fail. `StoredRows` says what the written rows hold column by column and
which rows the deletes take. Masking can be moved past either sink.

**The worker** (`Worker`, `WorkerPace`, `WorkerSafety`, `AckSafety`, `Convergence`, `Engine`,
`DeadLetters`, `RetryLaws`, `OffsetStore`, `PubSub`). One state machine covers pulling, heartbeats, batching, every way a flush can
end, stops, crashes at any point (also between two operations of one batch), restarts, re-read polling
windows and dead letter replays. `Engine.TableWorker` is the worker as a class over mutable objects;
each of its methods is proved to take exactly the machine's step, and `WorkerPace` says when that step
flushes and what each ending leaves behind. A source enters through a *resume
contract*: offsets strictly increase and reading resumes after the saved one, or offsets never decrease
and reading resumes from it. A source that delivers again what was not acknowledged enters as the
sequence of its deliveries, each with an acknowledgement of its own: a redelivery is a new position.
`AckSafety` says exactly which deliveries a run acknowledges without having written or parked them, and
what that means for the messages behind them.

**Snapshots, files, windows, batch size** (`Snapshot`, `SnapshotCycle`, `SnapshotLoops`, `Datastream`,
`Polling`, `Tuner`). The chunked snapshot and its stored marks, as a state machine over stops and crashes
and as the two loops of the worker, each turn of which is the machine's step; mid-file resume; log windows
closed at both ends, with polls that fail halfway; and the batch size controller.

**Decoders** (`Text`, `TextLaws`, `SqlScan`, `SqlFind`, `RedoSql`, `RedoKeys`, `RedoPrint`, `RedoLaws`,
`RedoInsert`, `InsertLaws`, `SqlPrinter`, `PgOutput`, `PgLaws`). The redo-SQL scanners, whose nested
loops are proved against a specification that only flips a flag at every quote, and exactly which printed
UPDATEs and INSERTs their parsers give back; the printer for SQL literals; and the pgoutput decoder with
its relation cache, proved to invert an encoder written from section 55.9 of the PostgreSQL 16
documentation.

## What the code does not do

- Insert then delete of one key in a batch leaves the row in Mode B; delete then insert loses it in
  Mode A (`SinkLaws`).
- A delivery in the worker's hand when it sees the stop flag is acknowledged by the last flush although
  it was neither written nor parked; the repository's README (line 357) promises otherwise. It happens
  exactly when the batch is not empty, the flush commits and the last ack request goes out
  (`AckSafety.StopAcksTheDeliveryInHand`), and those stops are the only way (`AckSafety.AckOnCommitIff`).
  The message is lost unless another of its deliveries was written, parked or undecodable
  (`AckSafety.MessagesSafeIff`); both happen (`AckSafety.SecondMessageIsLost`,
  `AckSafety.RedeliveredMessageIsSafe`).
- A snapshot cursor that is not unique, such as the first column of a composite key (the default),
  loses rows at chunk boundaries; chunk size zero loses the table and marks it done
  (`Snapshot.PaginationIff`, `EveryChunkSizeIff`), over all runs with restarts exactly when a boundary falls
  between equal cursors (`SnapshotCycle.MarkEarnedIff`).
- A dead letter entry discarded while its retry is under way comes back, pending or exhausted, when the
  retry fails (`DeadLetters.DiscardIsUndone`).
- A cursor column with a colon in its name makes the stored mark unreadable (`Snapshot.MarkRoundTripIff`).
- A change exactly at the polling start is not yielded until the database reports a newer position, and a
  start without a position, that is a missing LSN (sources/sqlserver.py:269) or an SCN of zero
  (sources/oracle.py:447), never opens a window at all (`Polling.CoverageIff`, `Polling.WindowOpensIff`).
- A batch size of one cannot grow (`Tuner.ReachesIdealIff`), and a step down is limited to a third
  although the comment at core/engine.py:39 speaks of half.
- An UPDATE whose last SET value is unquoted, or whose WHERE starts with a bare ROWID, is misread: the
  word-boundary test does not see the WHERE. A WHERE column with " and " in its name is lost
  (`RedoLaws.RoundTripIff`), and so is an inserted column with a comma or a closing parenthesis in its
  name (`InsertLaws.InsertRoundTripIff`).
- With a retry limit of zero a fresh dead letter entry is pending at its limit
  (`DeadLetters.ConsistentIffRetriesAllowed`).

## Model

| member | source | states |
|---|---|---|
| `Batches.GroupByTable` | core/dremio_sink.py:210-213 | every table of the batch is listed once, and its group is the batch at a strictly increasing list of indices, exactly those whose event names the table |
| `Events.PrimaryKeysInOrder` | core/event.py:41-42 | the key columns are exactly the flagged ones, in schema order |
| `Batches.DictDedupIsLast` | core/dremio_sink.py:226-232 | the overwritten dictionary holds exactly the last event of every key, keys distinct |
| `Batches.ScanDedupIsLast` | core/iceberg_sink.py:445-459 | of the events with an after-image the reversed scan keeps exactly the last one of every key, as a subsequence of the input |
| `Batches.DedupsAgreeIff` | core/iceberg_sink.py:445-459 | both deduplications keep the same events if and only if the last event of every key has an after-image |
| `TargetTable.DeleteSound` | core/dremio_sink.py:310-316 | deleting by a full key removes that key's row and no other, keys stay unique |
| `TargetTable.MergeSound` | core/dremio_sink.py:285-294 | after a merge every key of the source holds its source row, every other key its old row, keys stay unique |
| `TargetTable.ViewDeterminesBag` | core/iceberg_sink.py:405-463 | two tables with unique keys that answer every lookup alike are the same bag of rows |
| `DremioSink.Sink.WriteBatch` | core/dremio_sink.py:206-239 | every table of the batch runs its plan on its own events, a batch of one table on all of them; no other table changes, exactly the touched tables are created |
| `DremioSink.Sink.WriteUpserts` | core/dremio_sink.py:225-235 | one merge of the deduplicated upserts, or plain inserts without a key; the merge source never matches a row twice |
| `DremioSink.Sink.WriteDeletes` | core/dremio_sink.py:237-239 | one keyed delete per delete event with a before-image |
| `DremioSink.DedupByDict` | core/dremio_sink.py:228-232 | the dictionary loop computes the specified deduplication |
| `DremioSink.WritesEffectA` | core/dremio_sink.py:206-239 | after a batch each key is absent if any delete names it, else holds its last upsert, else is unchanged; keys stay unique |
| `StoredRows.WrittenRowA` | core/dremio_sink.py:262-272 | the row found where the last upsert decides has exactly the schema's columns, each with the after-image's value or null, and the operation's name, source and time |
| `StoredRows.InsertsUpserts` | core/dremio_sink.py:300-312 | without a key the table grows by one such row for every upsert, in order, and nothing is deleted |
| `StoredRows.DeletesAKeep` | core/dremio_sink.py:310-316 | for any delete events whatever, exactly the rows stay that no non-empty before-image names by a full key without a null |
| `StoredRows.NullKeyIsInserted` | core/dremio_sink.py:274-294 | a merge source row with a null in its key matches nothing and is inserted |
| `DremioSink.ReplaysExactlyA` | core/dremio_sink.py:206-239 | Mode A equals one-by-one replay if and only if no key whose last event upserts it was deleted |
| `DremioSink.RewriteIsIdempotentA` | core/dremio_sink.py:206-239 | writing a batch twice leaves the same bag of rows as writing it once |
| `IcebergSink.Sink.WriteBatch` | core/iceberg_sink.py:363-386 | every table of the batch runs its plan, merge or append, on its own events, a batch of one table on all of them; no other table changes |
| `IcebergSink.Table.WriteMerge` | core/iceberg_sink.py:405-463 | the row-level operations of a merge, in order, take the old rows to the new ones |
| `IcebergSink.Table.WriteAppend` | core/iceberg_sink.py:397-403 | append mode adds one enriched row per event with an image, in order |
| `IcebergSink.DedupByScan` | core/iceberg_sink.py:448-459 | the reversed loop with its seen set computes the specified deduplication |
| `IcebergSink.ClearsTouchedKeys` | core/iceberg_sink.py:421-443 | after the equality deletes no key of the batch is stored and no other key has changed |
| `IcebergSink.WritesEffectB` | core/iceberg_sink.py:405-463 | after a batch each key holds its last upsert if it has one, else is absent if deleted, else is unchanged; keys stay unique in the bag |
| `StoredRows.WrittenRowB` | core/iceberg_sink.py:388-395 | the row found at any upserted key has exactly the schema's columns, each with the after-image's value or null, and the operation's name, source and time |
| `StoredRows.AppendsImages` | core/iceberg_sink.py:397-403 | append mode, and merging without a key, adds one such row for every event with an image, the before-image for a delete, in order |
| `StoredRows.DeletesBKeep` | core/iceberg_sink.py:421-443 | for any events whatever, exactly the rows stay that no event names by its before-image, or without one by its after-image, on the key columns the image has |
| `IcebergSink.ReplaysExactlyB` | core/iceberg_sink.py:405-463 | Mode B equals one-by-one replay if and only if no key whose last event deletes it was upserted |
| `IcebergSink.RewriteIsIdempotentB` | core/iceberg_sink.py:405-463 | writing a batch twice leaves the same bag of rows as writing it once |
| `SinkLaws.SinksAgreeExceptOnMixedKeys` | core/iceberg_sink.py:405-463 | from equal tables the sinks agree at a key the batch does not both upsert and delete; at every other key A ends absent and B present |
| `SinkLaws.UnmixedBatchesReplay` | core/dremio_sink.py:206-239 | a batch that mixes upserts and deletes of no key is replayed exactly by both sinks |
| `SinkLaws.InsertThenDeleteSurvivesInB` | core/iceberg_sink.py:418-463 | a concrete batch on which Mode B departs from replay |
| `SinkLaws.DeleteThenInsertLostInA` | core/dremio_sink.py:222-239 | a concrete batch on which Mode A departs from replay |
| `Masking.MaskingEngine.MaskRowLoop` | core/masking.py:116-123 | the loop over the rules masks exactly the ruled columns the row has, in any order of the rules |
| `Masking.MaskingEngine.Apply` | core/masking.py:136-143 | in both images every ruled column holds what its rule's function gives, nulls and unruled columns stay, and nothing else of the event changes |
| `Masking.MaskingEngine.ApplyBatch` | core/masking.py:145-149 | the same for every event, in order; without rules the batch is returned as it is |
| `Masking.MaskedBatchShape` | core/masking.py:136-149 | length, order, operations, offsets, keys and well-formedness are kept if no key column is masked |
| `Masking.MaskingCommutesWithWriting` | core/engine.py:319-321 | writing the masked batch to the masked table equals masking the written table, as bags of rows, for both sinks |
| `Worker.ResumeContractIsExact` | sources/base.py:35-41 | restarting from any event's offset skips nothing after it if and only if the offsets meet the resume contract |
| `WorkerPace.NoFullBatchWaits` | core/engine.py:224-228 | over every run the batch waiting between two steps is empty or smaller than the batch size |
| `WorkerPace.NextFlushesWhenDue` | core/engine.py:214-228 | an event that fills the batch or comes after the timeout is flushed with it; any other joins the batch and changes nothing durable |
| `WorkerPace.HeartbeatFlushesWhenDue` | core/engine.py:207-212 | a heartbeat flushes what is waiting after the timeout, and otherwise changes nothing |
| `WorkerPace.LastFlushIsWhole` | core/engine.py:204-231 | leaving the loop flushes what is waiting, once, and nothing if nothing waits |
| `WorkerPace.FlushOutcomes` | core/engine.py:310-361 | for each way a flush can end: which operations have run, which offset is stored, whether the batch is parked, and the batch size |
| `WorkerPace.FlushAcks` | sources/pubsub.py:336-365 | acknowledgements go out only after the offset step, for what is pending and nothing else, and for all of it if no request fails |
| `WorkerPace.FlushRecords` | core/engine.py:310-361 | what counts as written and parked: a batch whose operations have all run, and one that is the newest entry of the queue |
| `WorkerPace.NewestOffsetIsNext` | core/engine.py:214-228 | over every run the offset that a flush would store is that of the newest event pulled so far that has one |
| `WorkerPace.BadIsSkipped` | sources/pubsub.py:286-298 | an undecodable message is acknowledged, joins no batch and counts as delivered |
| `WorkerPace.StartResumes` | core/engine.py:198-204 | a run starts at the first position that the stored offset does not rule out, with nothing in hand |
| `WorkerSafety.NoCommittedLoss` | core/engine.py:204-231 | over every run each event the stored offset makes a restart skip is written or is the payload of a dead letter entry |
| `WorkerSafety.NoCommittedLossIffContract` | core/engine.py:310-330 | no run loses a covered event if and only if the source's offsets meet the resume contract |
| `WorkerSafety.EveryPullIsAccountedFor` | core/engine.py:204-231 | within a run the events pulled are exactly the flushed batches, each written whole or parked as one entry, followed by the current batch |
| `WorkerSafety.AcksOnlyAfterCommit` | core/engine.py:318-361 | over every run each acknowledged delivery is written, parked, undecodable or was in hand at a stop, at most one per observed stop |
| `AckSafety.DroppedIsNeverSafe` | core/engine.py:204-231 | over every run a delivery in hand at a stop is neither written nor parked, then or later; its message may be delivered again, as a new position |
| `AckSafety.AckedUnsafeAreLosses` | core/engine.py:204-231 | over every run the deliveries acknowledged though not written, parked or undecodable are exactly those of its losing stops |
| `AckSafety.AckOnCommitIff` | core/engine.py:204-231 | every acknowledged delivery is written, parked or undecodable if and only if no action of the run is a losing stop: one on an event with a non-empty batch whose flush commits and whose last request goes out |
| `AckSafety.StopAcksTheDeliveryInHand` | core/engine.py:204-231 | at any stop a run can reach the delivery in hand is neither written nor parked, and it is acknowledged if and only if the batch was not empty, its flush committed and the last request went out |
| `AckSafety.MessagesSafeIff` | sources/pubsub.py:282-305 | for any assignment of messages to deliveries, every acknowledged message has a delivery written, parked or undecodable if and only if every message acknowledged at a losing stop has one |
| `AckSafety.DeliveredOnceIff` | core/engine.py:204-231 | when no message is delivered twice, every acknowledged message is written, parked or undecodable if and only if no action of the run is a losing stop |
| `AckSafety.RedeliveredMessageIsSafe` | sources/pubsub.py:353-363 | a concrete run with a losing stop after which every acknowledged message is safe: the lost delivery is a message's second, its first was written and its acknowledgement failed |
| `AckSafety.SecondMessageIsLost` | core/engine.py:204-231 | a concrete run that acknowledges a message, delivered once, which is neither written, parked nor undecodable |
| `Convergence.InterruptedBatch` | core/engine.py:322 | a batch cut short between any two table operations keeps unique keys and every key it does not name |
| `Convergence.CompletedBatch` | core/engine.py:322 | a completed batch in its sink's order leaves what replaying it leaves at every key |
| `Convergence.RunsKeepCatchingUp` | core/engine.py:204-231 | over every run without sink errors the table agrees with the fold of the processed prefix on each key not touched again up to the high-water mark |
| `Convergence.MarksWereReached` | core/engine.py:204-231 | no flush has touched anything past the furthest position the source has reached |
| `Convergence.CrashReplayConverges` | core/engine.py:204-231 | with crashes anywhere and every flushed batch meeting its sink's order condition, once a run passes every earlier flush, so at the furthest position reached and at the end, the table is the one-by-one fold of the stream so far, with unique keys |
| `Engine.Target.WriteBatch` | core/engine.py:322 | a sink that may stop after any number of operations leaves the prefix of its plan |
| `Engine.TableWorker.FlushBatch` | core/engine.py:310-361 | write, store the offset, acknowledge, adapt the batch size, park on failure: exactly the machine's flush, for every way it can end |
| `Engine.TableWorker.OnYield` | core/engine.py:206-228 | the loop body for an event takes exactly the machine's step |
| `Engine.TableWorker.OnStop` | core/engine.py:205-231 | leaving the loop at the stop flag and the last flush take exactly the machine's step |
| `Engine.TableWorker.RunStream` | core/engine.py:198-233 | the streaming loop, whatever the source and the environment do, ends in the state the machine reaches on those steps |
| `DeadLetters.ConsistentIffRetriesAllowed` | core/dlq.py:161-203 | under every interleaving pending implies retry count below the limit and exhausted implies at or above it, if and only if the limit is positive |
| `DeadLetters.EntriesAreKept` | core/dlq.py:116-232 | no statement removes an entry or changes its events |
| `DeadLetters.DeadLetterQueue.Push` | core/dlq.py:116-129 | the batch is stored as a new pending entry |
| `DeadLetters.DeadLetterQueue.GetPending` | core/dlq.py:131-138 | the first pending entries in id order, at most the limit |
| `DeadLetters.DeadLetterQueue.Fail` | core/dlq.py:161-175 | one more retry, exhausted at the limit |
| `DeadLetters.DeadLetterQueue.ResetOne` | core/dlq.py:177-184 | pending again with no retries counted |
| `DeadLetters.DeadLetterQueue.DiscardOpen` | core/dlq.py:189-195 | every pending or exhausted entry is discarded, the others stay |
| `DeadLetters.DeadLetterQueue.ResetExhausted` | core/dlq.py:197-203 | every exhausted entry is reset, the others stay |
| `DeadLetters.DeadLetterQueue.RetryPending` | core/dlq.py:271-289 | a pass over the first ten pending entries retries each once by its own batch, whatever statements of other threads fall between, and replays exactly those the sink takes |
| `DeadLetters.QuietRoundIsRound` | core/dlq.py:271-289 | with nothing in between, the pass changes exactly the first ten pending entries, each as its own retry says |
| `RetryLaws.RoundStatuses` | core/dlq.py:271-289 | of the first ten pending entries one without events is discarded, one the sink takes is replayed with its count unchanged, any other has one more retry and is exhausted at its limit, else pending; all other entries stay |
| `RetryLaws.ReplayedAre` | core/dlq.py:275-285 | the entries a pass counts as replayed are exactly those with events that the sink takes, in id order |
| `RetryLaws.OnlyWrittenIsReplayed` | core/dlq.py:282-285 | over every interleaving of passes and statements an entry becomes replayed only by a statement saying so or in a pass whose sink takes it |
| `RetryLaws.StatementsSay` | core/dlq.py:158-187 | each statement on one entry: its new status and count, its batch and every other entry as before |
| `RetryLaws.SweepsSay` | core/dlq.py:189-203 | the two statements on all entries: which are discarded, which reset, and that the others stay |
| `DeadLetters.DiscardsInRound` | core/dlq.py:161-175 | discards between the statements of a pass can only discard what the pass would have left |
| `DeadLetters.DiscardIsUndone` | core/dlq.py:161-175 | a retry that fails after its entry was discarded leaves the entry as if it had not been: pending, or exhausted at the limit |
| `DeadLetters.QueueDrains` | core/dlq.py:271-289 | without pushes or resets P pending entries are gone after P*max/10 + max rounds, whatever the sink answers and whatever is discarded between any two statements |
| `OffsetStore.SqliteOffsetStore.Lookup` | core/offset_store.py:37-43 | the last offset committed for the pair, none if there is none |
| `OffsetStore.SqliteOffsetStore.Commit` | core/offset_store.py:45-55 | the pair's offset is replaced, every other pair keeps its own |
| `OffsetStore.PostgresOffsetStore.Lookup` | core/offset_store.py:93-105 | the last offset committed for the pair, none if there is none |
| `OffsetStore.PostgresOffsetStore.Commit` | core/offset_store.py:107-131 | the pair's offset is replaced, or its row deleted for no offset; every other pair keeps its own |
| `OffsetStore.CommitToBoth` | core/offset_store.py:45-131 | equal commits keep the two backends' answers equal although they store "no offset" differently |
| `PubSub.ChunksCoverPending` | sources/pubsub.py:351-358 | the ack requests concatenate to the pending list, each with 1 to 1000 ids |
| `PubSub.RequestsAreFull` | sources/pubsub.py:351-358 | every request but the last carries a thousand ids |
| `PubSub.AckedOfPending` | sources/pubsub.py:353-363 | only pending ids are acknowledged, and all of them if no request fails |
| `PubSub.NewestIsAcked` | sources/pubsub.py:351-358 | the newest pending id is acknowledged if and only if the last request does not fail |
| `PubSub.PubSubSource.Receive` | sources/pubsub.py:284-305 | a decodable message becomes pending, a bad one is acknowledged at once |
| `PubSub.PubSubSource.OnBatchCommitted` | sources/pubsub.py:336-365 | everything pending is cleared and acknowledged in chunks, except what failing requests carried |
| `Snapshot.MarkRoundTripIff` | core/engine.py:271-288 | a stored mark is read back as its column and value, colons in the value included, if and only if the column has none; it is never taken for a finished snapshot |
| `Snapshot.MarksAsStored` | core/engine.py:268-304 | the stored texts character by character: none starts a snapshot, a chunk mark continues it, the finished mark or any other text streams |
| `Snapshot.ResumePointOfMark` | core/engine.py:299-301 | an integer cursor value survives being stored in a mark if and only if the column has no colon |
| `Snapshot.PaginationIff` | core/engine.py:289-306 | the chunk loop emits every row once and in order if and only if no chunk boundary falls between equal cursors |
| `Snapshot.EveryChunkSizeIff` | sources/base.py:48-58 | every positive chunk size works if and only if the cursor is unique |
| `SnapshotLoops.BeginReadsMark` | core/engine.py:168-202 | a starting worker reads its stored text as the state machine reads its mark, and continues at the same row exactly unless a chunk mark's column has a colon |
| `SnapshotLoops.SnapshotWorker.Turn` | core/engine.py:289-304 | one turn of the chunk loop is exactly the state machine's flush, also when the process dies in it or before the mark |
| `SnapshotLoops.SnapshotWorker.RunIncremental` | core/engine.py:268-308 | the loop ends in the state the machine reaches on its turns, stores a mark for the last row emitted, leaves exactly the rest when stopped or killed, and stores the finished mark only after the last chunk |
| `SnapshotLoops.SnapshotWorker.RunFull` | core/engine.py:183-196 | the loop ends in the state the machine reaches on its flushes, whose size each flush may change for the next: all rows in order and the finished mark, or, if stopped or killed, a prefix and no mark |
| `SnapshotCycle.MarksAreEarned` | core/engine.py:169-202 | over every run with stops and crashes, in full mode or when no chunk boundary falls between equal cursors, the finished mark or a stream offset is stored only once every row is written or parked, a chunk mark only once every row up to it is |
| `SnapshotCycle.MarkEarnedIff` | core/engine.py:289-308 | over all runs in incremental mode the finished mark is earned if and only if no chunk boundary, counted from the start of the table, falls between equal cursors; with chunk size zero only for an empty table |
| `SnapshotCycle.TriesAreBounded` | core/engine.py:289-308 | whatever the chunk size and the cursor, no row is flushed more than once plus the crashes, plus in full mode the stops |
| `SnapshotCycle.ExactlyOnceInOrder` | core/engine.py:289-308 | without crashes, and in full mode without stops, a finished snapshot flushed every row exactly once and in order, in incremental mode provided no chunk boundary falls between equal cursors |
| `SnapshotCycle.ExactlyOnceIff` | core/engine.py:289-308 | and in incremental mode it does so over all runs without crashes if and only if none does |
| `SnapshotCycle.ChunksRunOut` | core/engine.py:289-308 | from any place every sequence of completed flushes, whatever their sizes, that is as long as the rows left is followed by the finished mark |
| `Datastream.DecodeInvertsEncode` | sources/datastream.py:94-113 | decoding an offset gives back path and record, even when the path contains "#" |
| `Datastream.OffsetsAsStored` | sources/datastream.py:94-113 | the stored form, and that a bare path or one whose end is no number stands for a whole file |
| `Datastream.DatastreamSource.Stream` | sources/datastream.py:351-418 | the mid-file resume and the polling loop emit the specified events |
| `Datastream.NewFilesAreTheRest` | sources/datastream.py:251-263 | after the first files of a sorted listing the new ones are exactly the rest |
| `Datastream.FirstDifferenceDecides` | sources/datastream.py:260-262 | one name comes before another if and only if it is a proper beginning of it or has the smaller character where they first differ |
| `Datastream.FromNothingIsExact` | sources/datastream.py:351-418 | from nothing every well-formed record of the listed readable files, once and in order |
| `Datastream.EmissionSource` | sources/datastream.py:284-418 | every emitted event is a well-formed record of a readable file |
| `Datastream.ResumeIsExact` | sources/datastream.py:351-418 | from the offset of any emitted event exactly the events after it, once and in order, whatever is listed meanwhile |
| `Datastream.StreamsFromOffset` | sources/datastream.py:351-418 | from any offset whatever a record is emitted if and only if it follows the offset's record in its file, or is a well-formed one of a readable file after it that some poll listed; and all come in order, hence once |
| `Polling.PollingSource.RunPoll` | sources/sqlserver.py:259-311 | one poll yields the changes of its window in log order and moves the position to the window's end; a failing poll yields a prefix and does not move |
| `Polling.BatchIsWindow` | sources/sqlserver.py:268-304 | which changes that is: the visible ones from the position to the maximum, both included, none without a position or without a larger maximum |
| `Polling.WindowsLeaveNoGap` | sources/oracle.py:438-507 | over every sequence of polls each change up to the position is yielded, twice at an inner window boundary and once elsewhere, and once more by every failing poll that reached it |
| `Polling.WindowOpensIff` | sources/sqlserver.py:268-306 | the position leaves the start if and only if the start is not zero and some poll that ran to its end was told a larger maximum |
| `Polling.CoverageIff` | sources/sqlserver.py:268-306 | everything from the start to the position has been yielded if and only if a window has opened, or failing polls reached every change at the start |
| `Polling.CleanCoverageIff` | sources/sqlserver.py:268-306 | when failing polls yield nothing, that means a window has opened or nothing sits at the start |
| `Polling.YieldedIsClosed` | sources/oracle.py:460-495 | whatever has been yielded, every earlier change since the start has been too |
| `Polling.ResumeLeavesNoGap` | sources/sqlserver.py:231-258 | a restart from the position of any yielded change loses nothing once a window has opened, also when the poll that yielded it failed later |
| `Polling.BoundaryRewindAllowed` | sources/oracle.py:446-490 | re-reading from a window boundary is a step the worker's machine allows |
| `Tuner.AdaptiveBatchTuner.Tune` | core/engine.py:48-66 | the new size stays within the limits and between 67 % and 150 % of the old one; without a usable measurement it stays |
| `Tuner.IdealIsOneWindow` | core/engine.py:52-60 | the ideal is the number of events of one timeout window at the measured rate, rounded down, as far as the limits allow; while the stream is within two seconds, at most twice the lower limit |
| `Tuner.StepBounds` | core/engine.py:62-65 | one step moves toward the ideal, never past it, within the limits and the caps |
| `Tuner.NextIsNearest` | core/engine.py:62-65 | of all sizes within the limits and the caps the next one is nearest to the ideal |
| `Tuner.MovesMonotonically` | core/engine.py:48-66 | under constant inputs the size moves monotonically to the clamped ideal without overshoot |
| `Tuner.ConvergesLogarithmically` | core/engine.py:48-66 | for limits of at least two, an ideal within a factor 2^k is reached in 3k steps |
| `Tuner.ReachesIdealIff` | core/engine.py:48-66 | for any limits the ideal is reached if and only if the size need not grow or is at least two |
| `SqlScan.CsvSplit` | sources/oracle.py:105-127 | the nested loops cut exactly at the commas outside literals and strip the pieces |
| `SqlScan.TakeLiteral` | sources/oracle.py:114-122 | the inner loop takes one literal: every later character lies inside it or is one of its quotes, and it ends at a closing quote that no quote follows, or at the end of the text |
| `SqlScan.AndSplit` | sources/oracle.py:130-152 | the nested loops cut exactly at the ANDs outside literals, in any case, and strip the pieces |
| `SqlScan.CutOfJoin` | sources/oracle.py:105-152 | splitting a joined list of tokens gives the list back |
| `SqlScan.FieldsHoldNoSep` | sources/oracle.py:105-152 | no piece of any text holds a separator outside a literal |
| `SqlFind.FindKw` | sources/oracle.py:155-180 | the nested loops end and compute the specified search |
| `SqlFind.FindIsLeast` | sources/oracle.py:155-180 | the result is the least position outside literals where the keyword matches in any case with non-word neighbours, and -1 if and only if there is none |
| `TextLaws.FindMeans` | sources/oracle.py:155-180 | the same character by character: case by letter, literals by counting quotes, words as letters, digits and underscores |
| `TextLaws.StripMeans` | sources/oracle.py:183-184 | stripping takes the blanks at both ends, which are named one by one, and nothing else |
| `TextLaws.TrimMeans` | sources/oracle.py:204 | trimming takes every copy of the character at both ends and nothing else |
| `RedoSql.ParseSet` | sources/oracle.py:220-237 | the loop collects the assignments of the SET clause, the last one per column |
| `RedoSql.ParseWhere` | sources/oracle.py:240-261 | the loop collects the conditions of the WHERE clause, IS NULL as null |
| `TextLaws.AssignmentSpaced` | sources/oracle.py:228-236 | any blanks around the equals sign make the same assignment, and a row id in any case makes none |
| `TextLaws.NullCondition` | sources/oracle.py:248-252 | the first IS NULL standing alone, in any case, makes the text before it a null column, and none if that is the row id |
| `TextLaws.NothingWithoutKeyword` | sources/oracle.py:224-245 | without a SET outside literals there are no assignments, without a WHERE no conditions |
| `RedoKeys.SetKeyIsFree` | sources/oracle.py:220-237 | from any statement without a WHERE in front of its SET, no quote-free column read from SET holds a WHERE between word boundaries |
| `RedoKeys.WhereKeyIsFree` | sources/oracle.py:240-261 | from any statement whatever, no quote-free column read from WHERE holds an AND or a set-off IS NULL |
| `RedoLaws.SetRoundTripIff` | sources/oracle.py:220-237 | the SET values of a printed UPDATE come back exactly, whatever they contain, if and only if no SET column holds a set-off WHERE and the WHERE is absent or set off |
| `RedoLaws.WhereRoundTripIff` | sources/oracle.py:240-261 | where the SET columns hold no set-off WHERE, and the WHERE is set off or its columns hold none either, the WHERE conditions come back exactly, nulls included and the row id dropped, if and only if there are none, or the WHERE is set off and no column holds an AND or a set-off IS NULL |
| `RedoLaws.RoundTripIff` | sources/oracle.py:220-261 | an UPDATE comes back whole, SET values and WHERE conditions, if and only if no SET column holds a set-off WHERE, and the WHERE is absent, or set off with no WHERE column holding an AND or a set-off IS NULL |
| `RedoLaws.PlainNamesAreFree` | sources/oracle.py:155-180 | a name without blanks and commas is never mistaken for a keyword |
| `RedoLaws.AndInNameIsLost` | sources/oracle.py:130-152 | a concrete column name that is lost |
| `RedoLaws.NullBeforeWhereIsLost` | sources/oracle.py:155-180 | a concrete UPDATE whose SET clause is misread |
| `InsertLaws.InsertRoundTripIff` | sources/oracle.py:202-217 | the row of an INSERT comes back exactly, whatever its values contain and however its words, blanks and semicolon are written, if and only if no column's name holds a comma or a closing parenthesis |
| `InsertLaws.PrintedIsAStyle` | sources/oracle.py:207-210 | LogMiner's own form, spelled out, is one of the forms covered |
| `InsertLaws.InsertKeyIsFree` | sources/oracle.py:202-217 | no column read from any text at all as an INSERT holds a comma or a closing parenthesis |
| `SqlPrinter.SplitInvertsJoin` | core/dremio_sink.py:241-272 | splitting the printed list gives back exactly the printed values, for every list |
| `SqlPrinter.ReadInvertsEscape` | core/dremio_sink.py:241-259 | a reader of SQL literals gives every printed value back, bytes as the string of their hex digits |
| `SqlPrinter.EscapeIsInjective` | core/dremio_sink.py:241-259 | different values are printed differently, except bytes and the string of their hex digits |
| `SqlPrinter.ParseInvertsEscapeIff` | sources/oracle.py:183-199 | parsing a printed value gives it back if and only if it is null, an integer or a string |
| `SqlPrinter.HexCallIsKept` | sources/oracle.py:189-190 | a HEXTORAW call in any case is kept as text |
| `SqlPrinter.BareTextIsKept` | sources/oracle.py:191-199 | any other unquoted text that is no integer and not NULL is kept as text |
| `SqlPrinter.RowRoundTrip` | core/dremio_sink.py:272 | a printed row of nulls, integers and strings is read back value by value |
| `Text.UndoubledPrefix` | sources/oracle.py:188 | pairing quotes from the left undoes doubling them, whatever follows |
| `PgOutput.Decoder.ParseMessage` | sources/postgres.py:265-279 | one message changes the relation cache and yields changes as specified, or fails without touching the cache |
| `PgOutput.Decoder.ParseRelation` | sources/postgres.py:281-302 | the cursor loop reads the relation and caches it under its id |
| `PgOutput.Decoder.DecodeTuple` | sources/postgres.py:304-317 | the cursor loop reads one cell per column, at most as many as there are columns |
| `PgLaws.DecodeInvertsEncode` | sources/postgres.py:265-358 | decoding a message encoded with the documented letters never reads out of range and gives its meaning under the current relations, the name spelled namespace, dot, name and public.unknown by default |
| `PgLaws.RowHoldsCells` | sources/postgres.py:304-317 | a row holds each column's own cell, as many as both lists have, and nothing else |
| `PgLaws.ColumnMeans` | sources/postgres.py:281-301 | in a relation, whatever a column's flags, the lowest bit alone marks a key, and the name ends before the next zero byte |
| `PgLaws.CutChangeFails` | sources/postgres.py:304-358 | a change cut off before its cell count ends fails, whatever the cache holds |
| `PgLaws.CutTextIsShortened` | sources/postgres.py:312-316 | a text announced longer than the data is what is left of them |
| `PgLaws.UnknownCellIsSkipped` | sources/postgres.py:308-317 | a cell of an unknown kind takes one byte and leaves the row as it was |
| `PgLaws.DecodeAllInvertsEncodeAll` | sources/postgres.py:265-358 | over any interleaving of messages the decoder yields exactly the encoded changes under the latest relation for each id, unchanged TOAST values as null |

## Left out

- Drivers and transport (HTTP, SQL jobs, PyIceberg, GCS, Pub/Sub and database clients): they are operations that succeed, fail, or die halfway.
- The dashboard, alerts, secrets, metrics, Transform Studio and `main.py`: no state the claims depend on.
- `_cdc_ingest_ts` of Mode B is a wall clock reading and is not in the stored row; with it two rewrites would differ in that column.
- Column creation and evolution (`ensure_table`, `evolve_schema`) and the mapping of table names to target paths: tables are keyed by source table and have the batch's columns.
- Tables without a primary key and append mode are modelled as plans and methods; no refinement of replay is claimed for them.
- Swallowed errors of Mode B's row deletes, key-changing updates and partial images are excluded by `WellFormed`.
- What a dead letter replay does to the table: `RetryRound` lets the rows become anything, so `CrashReplayConverges` excludes it, since a parked batch may overwrite newer rows.
- `WorkerSafety.NoCommittedLoss`: has a dead letter queue present; without one a failed batch is not kept (core/engine.py:358-361). It takes a sink call that returns to have taken effect; an exception in the code is a SQL statement whose last attempt, the third, is answered with status 401: it returns without an error and without having run (core/dremio_sink.py:131-149), so that its batch counts as written.
- A masking function that raises parks the unmasked batch (core/engine.py:319-361); the masking functions themselves are uninterpreted and do not fail here.
- Events are values, so that masking leaves the caller's objects alone is not expressible.
- Offsets of one source are natural numbers in the worker's machine; their JSON form, and the JSON of parked events, are left out.
- MySQL, PostgreSQL and DynamoDB break both resume contracts (shared offsets, confirmation on receipt, one shard at a time), so the crash claims do not apply to them.
- `WorkerSafety.AcksOnlyAfterCommit`: excuses every delivery in hand at a stop; `AckSafety.AckedUnsafeAreLosses` says which of them are acknowledged.
- When a source delivers again, and which message a position carries, is not modelled: `AckSafety.MessagesSafeIff` holds for every assignment.
- A retry round that ends early because the queue's own database fails (core/dlq.py:264-269).
- `Engine.TableWorker.FlushBatch`: leaves out the masking, status and schema-drift calls around the write (core/engine.py:319-321, 326-345).
- `DremioSink.Sink.WriteBatch`: takes schemas without the three metadata names; a source column of such a name would stand twice in the column list (core/dremio_sink.py:263).
- `DremioSink.Sink.WriteUpserts`: takes schemas without the three metadata names, for the same reason.
- `IcebergSink.Table.WriteAppend`: the row added is without `_cdc_ingest_ts`.
- `IcebergSink.RewriteIsIdempotentB`: compares rows without `_cdc_ingest_ts`.
- `Snapshot.ResumePointOfMark` and the snapshot claims take a table that does not change meanwhile and integer cursor values; the fallback without a cursor column drops its rows and stores nothing (core/engine.py:261-266) and is excluded.
- The choice of the cursor column against the schema (core/engine.py:242-260, 276-286) is left out: the column is a parameter.
- Datastream records that carry a sequence number or log position, whose offsets are not file positions (sources/datastream.py:428-441); offsets naming a record before -1.
- LSNs and SCNs are natural numbers, zero standing for no position; a poll whose rows hold an unknown operation code.
- Python floats: measurements of the tuner are reals, 67 % is computed exactly, and `RedoSql.ParseVal` keeps decimal text as text.
- Non-ASCII case, blanks and word characters, and underscores in `int()`.
- The regular expression of a redo INSERT (sources/oracle.py:207-210) is written out as the reading it has: no part of it can backtrack, and the values end at the last closing parenthesis.
- `RedoLaws.SetRoundTripIff`: takes table names without set-off keywords; only UPDATEs in LogMiner's printed form are covered.
- `RedoLaws.WhereRoundTripIff`: says nothing where a SET column holds a set-off WHERE or, with the WHERE not set off, a WHERE column does; `RedoLaws.RoundTripIff` covers both.
- `RedoKeys.SetKeyIsFree`: says nothing of statements whose first WHERE stands before the SET; their SET clause runs to the end of the text.
- UTF-8 decoding and column types in pgoutput: names and values are bytes, a column keeps its type id.
