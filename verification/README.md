# zradar storage: verified model

A Dafny model of how zradar keeps telemetry from the moment it is accepted until its file is removed:

- the write-ahead log of the crate `zradar-wal`: bytes on disk, append, rotation, group commit, flush
  passes, checkpoint, janitor, crash, recovery and replay;
- the life of data files: read leases, soft deletion, reclaim, usage accounting, time-range pruning,
  compaction;
- the structures in front of them: partitioning of batches, write buffer, file cache, ingest limits.

`dafny verify dfyconfig.toml` checks everything. No proof assumes anything; the CRC is an arbitrary
function and the sink, the file system and the clock answer as they like through parameters.

## How the log is modelled

`WalModel` is a state machine over whole records: segment files, what an fsync has covered, the writer,
the offset counter, the checkpoint, a flush pass at every point of its loop, the janitor between reading
and removing, and what the sink has accepted. Its actions are single effects, so runs are arbitrary
interleavings of appenders, flusher and janitor, with a process crash or a power loss anywhere.
`WalSafety` proves the invariant, `WalExact` that its guards are exact, `WalOnce` order and multiplicity.
`WalLog` holds the methods with the source's loops (`WalLoops` has what these keep); each is proved equal to
a function of `WalSpec`, and each such function is proved to be a run of the machine. `WalSession` puts the
calls together: any sequence of them from an empty directory on, stops included. `WalAcks` runs the machine of
`GroupCommit` beside that of the log. `WalAhead` says which records later passes will read, `WalSink` puts
the write buffer behind the log, `WalShutdown` ends the server, and `WalServer` runs group commit, log and buffer
together. `Record`, `Segment` and `Envelope` are the byte level, and `Segment.RepresentsFile` ties file sizes and
offsets to the machine.

Methods are proved equal to functions; what these functions come to is stated beside them over the fields of
records, rows and files alone (`WalSpec.AppendFits`, `Retention.FileFate`, `Compaction.TurnExact`,
`MemoryCache.InsertExact`, `Partition.PartitionMeans`, the module `Verdicts`, and others).

Of the reclaimer, `Usage` has file rows and what one cycle takes, `Books` file list and usage ledger under
overlapping cycles, `Retention` the methods.

"Delivered" means accepted by the sink. With the default configuration the sink is the write buffer in memory
(`crates/core/zradar-models/src/config/ingestor.rs:347-349`, `crates/runtime/zradar-runtime/src/builder.rs:581`),
not a Parquet file; what follows from that is proved in `WalSink`.

What the code is proved to do and not to do:

- Appends that reserve and write in one step lose nothing on the way to the sink, process crashes included.
  The source reserves the offset before it takes the writer lock; a record written with an offset the flusher
  has passed is lost, and exactly then (`LateWriteExact`, reached by the run of `LateWriteReachable`).
- With the write buffer as sink, a crash keeps every record exactly if the rows of what the checkpoint has
  passed are in files by then (`StopExact`); otherwise they are lost for good (`StopLosesForGood`), and a run
  without any fault gets there (`EarlyStopReachable`). The comment at
  `crates/core/zradar-wal/src/checkpoint.rs:13` calls such records confirmed in Parquet. The same holds of rows
  the flush worker drops because they cannot be written (`DropExact`, reached by `DropReachable`). Without the
  buffer there is nothing to lose (`UnbufferedStops`).
- At a shutdown the flush worker empties the buffer and the flusher makes one more pass, in no order: both wait for
  the same token. Nothing is lost exactly if each record still pending when the worker takes its rows out has all
  its rows in buffer or files by then (`ShutdownExact`); a worker that turns first loses what the last pass
  delivers (`LatePassReachable`).
  No code of the server cancels that token (`crates/runtime/zradar-runtime/src/builder.rs:370` and `:765` hand it
  out), so today every stop of the server is a stop as in `StopExact`.
- After a power loss the log is safe exactly if the checkpoint is not ahead of what was synced in the last
  segment (`PowerLossExact`): `open` takes the next offset from that segment alone.
- A resolved append handle means that an fsync which started after the write has returned, with two exceptions. A
  handle registered between the start of a commit's fsync and the drain after it is resolved by that drain, although
  its record need not have been in the file when the fsync started (`RegisterExact` says exactly which, and
  `LateRegisterReachable` is a run). And after a restart that reuses a segment `current.seg` does not point to, the
  wrong file is synced, because only the branches that create a segment move that link (`OpenExact`,
  `StaleLinkReachable`).
- Otherwise a record whose append handle was resolved stays owed through power losses and is delivered or pending
  (`ResolvedIsKept`), and it waits in the log or has all its rows in buffer or files (`ResolvedIsServed`).
- Delivery is exactly once between clean actions and at least once otherwise (`OnceExact`,
  `RedeliveryReachable`); over calls one after the other it is exactly once unless a replay is refused
  (`SessionSafe`).
- The record reader can index past its input for declared lengths below 37, and only for those
  (`PanicBound`).
- An allowed request is within every limit in exact arithmetic, except that a negative quota reading can hide
  an estimate above 63 bits, in exactly the cases of `NoneMeansWithinExactly` (`HiddenUsageAllowed` is one).
- The first decision of `check_ingest` wins, so a limit exceeded within its grace hides a later limit that
  blocks, exactly if both percentages exceed 100 as the defaults do (`FailsClosedExactly`).
- Compaction looks at a group's rows once, when it lists them. Files that retention deletes before the merged
  file is registered come back with it, and only those (`LapsedRowsReturn`, `CompactionConserves`,
  `RetiredRowReturns`); files it deletes after that stay visible too (`RetiringTooLate`). Rows of other streams
  move into the stream of the group's first file (`StreamsExact`, `StreamsMerge`). With a minimum of zero files
  the scan panics at a group without small files, and only there (`PanicExact`).
- Recorded and listed usage together are conserved over any history of reclaim cycles exactly if each id of each
  commit is still listed when the commit runs (`HistoryExact`, `CycleExact`). The background loop and the
  administrator's call (`crates/services/api/src/retention/handlers.rs:98`) share one reclaimer and may overlap;
  then both record a file that both have listed, because missing bytes count as removed and the commit does not
  look at what it deletes (`CountedTwice`). A cycle alone counts nothing twice, retries after failed commits
  included (`UndisturbedCycle`).
- Spans that end before they start can be pruned away (`PruningExact`, `BackwardSpanMissed`); timestamps
  before 1970 in the last second of an hour are put under the wrong hour by the fast path
  (`HoursAgreeExactly`, `FastPathExact`); a buffer slot of another variant drops the rows pushed to it
  (`PushExact`).

The comment at `crates/core/zradar-wal/src/replay.rs:11` says replay stops at a torn write. The code leaves only
the loop over that segment and goes on with the next one; the model follows the code.

## Model

| member | source | states |
|---|---|---|
| `WalSafety.InvKept` | crates/core/zradar-wal/src/flusher.rs:98-194 | every action of appender, flusher, janitor, crash, open and replay keeps the invariant, given the guard of late writes and power losses |
| `WalSafety.NoLossOnRuns` | crates/core/zradar-wal/src/flusher.rs:117-184 | in every state of every guarded run each record written is delivered or waits, ahead of the checkpoint, in a live segment |
| `WalSafety.NoLossProcessCrash` | crates/core/zradar-wal/src/lib.rs:52-105 | the same with no guard at all when appends reserve and write in one step and only process crashes occur |
| `WalSafety.UnflushedMember` | crates/core/zradar-wal/src/flusher.rs:136-141 | what the next pass will deliver is exactly what lies in a live segment and is not behind the checkpoint |
| `WalSafety.ReadSplit` | crates/core/zradar-wal/src/flusher.rs:130-147 | a pass keeps of a segment what the stored checkpoint would, and nothing of it is pending after the save |
| `WalSafety.QueueSave` | crates/core/zradar-wal/src/flusher.rs:163-171 | saving the checkpoint passes over delivered records only |
| `WalSafety.QueueNext` | crates/core/zradar-wal/src/flusher.rs:117-120 | moving to the next listed segment steps over nothing pending |
| `WalSafety.JanitorSafe` | crates/core/zradar-wal/src/janitor.rs:56-95 | every segment the janitor may remove in a guarded run is not active and holds delivered records only |
| `WalExact.LateWriteExact` | crates/core/zradar-wal/src/lib.rs:169-187 | a late write keeps all continuations safe if and only if its offset is above everything of its segment recorded or held by the flusher |
| `WalExact.PowerLossExact` | crates/core/zradar-wal/src/lib.rs:61-105 | a power loss keeps all continuations safe if and only if the checkpoint is not ahead of the synced part of the last segment |
| `WalExact.LossIsForever` | crates/core/zradar-wal/src/replay.rs:49-168 | a record behind the checkpoint and undelivered is delivered by no continuation, replays included |
| `WalExact.LateWriteReachable` | crates/core/zradar-wal/src/lib.rs:166-187 | a crash-free run from an empty directory that loses a record to a late write |
| `WalExact.EarlyFlushReachable` | crates/core/zradar-wal/src/flusher.rs:163-171 | a run that flushes unsynced records and is unsafe after a power loss |
| `WalOnce.OffsetsAscend` | crates/core/zradar-wal/src/lib.rs:166-187 | over appends, rotations, crashes and reopens offsets ascend strictly in every segment |
| `WalOnce.ResumeSkipsPrefix` | crates/core/zradar-wal/src/flusher.rs:136-141 | on ascending offsets the resume test skips exactly a prefix of the checkpoint's segment, and nothing of a later one |
| `WalOnce.OnceExact` | crates/core/zradar-wal/src/flusher.rs:162-171 | delivered and pending together stay the written records, once each and in order, if and only if nothing comes between the sink's answer and the save |
| `WalOnce.ExactlyOnce` | crates/core/zradar-wal/src/flusher.rs:117-184 | after any clean run the delivered records are a prefix of the written ones and the rest is pending |
| `WalOnce.AscendingReplayClean` | crates/core/zradar-wal/src/replay.rs:143-163 | with ascending offsets the checkpoint of a replay covers everything it delivered |
| `WalOnce.RedeliveryReachable` | crates/core/zradar-wal/src/flusher.rs:163-171 | a run with a crash between the sink's answer and the save delivers one record twice |
| `WalSpec.ReachesKeepsInv` | crates/core/zradar-wal/src/lib.rs:49-193 | whatever calls lead from one state to another, the invariant and no loss hold |
| `WalSpec.AppendedReached` | crates/core/zradar-wal/src/lib.rs:166-193 | an append with its rotation is a run of the machine |
| `WalSpec.AppendFits` | crates/core/zradar-wal/src/lib.rs:176-187 | the record goes to the writer's segment if and only if size, header and payload fit the limit, else alone into the next; only a record that is alone exceeds the limit |
| `WalSpec.OpenReached` | crates/core/zradar-wal/src/lib.rs:61-105 | opening, with or without a new segment, is a run of the machine |
| `WalSpec.ReopenFits` | crates/core/zradar-wal/src/lib.rs:88-101 | the last segment is continued if and only if it is below the limit, else an empty one is started |
| `WalSpec.CleanedReached` | crates/core/zradar-wal/src/janitor.rs:69-87 | removing removable files, whichever removals succeed, is a run of the machine |
| `WalSpec.FlushConserves` | crates/core/zradar-wal/src/flusher.rs:117-184 | a pass moves records from the front of the queue to the sink, whatever the sink answers, and empties the queue if it accepts all |
| `WalSpec.FlushSucceeds` | crates/core/zradar-wal/src/flusher.rs:117-184 | a pass succeeds if and only if the sink accepts a batch for every segment with something ahead of the checkpoint |
| `WalSpec.FlushReached` | crates/core/zradar-wal/src/flusher.rs:98-184 | a pass is a run of the machine |
| `WalSpec.ReplayReached` | crates/core/zradar-wal/src/replay.rs:68-163 | a successful replay is a run of the machine |
| `WalSpec.ReplayFailReached` | crates/core/zradar-wal/src/replay.rs:109-112 | a replay the sink refuses ends as a stopped process that delivered a prefix of the queue |
| `WalSpec.ReplayRefinesFlush` | crates/core/zradar-wal/src/replay.rs:68-163 | with ascending offsets replay leaves the same deliveries and checkpoint as a flush pass |
| `WalSpec.WeightExact` | crates/core/zradar-wal/src/replay.rs:100-109 | the size that bounds a batch is its payload and 64 bytes for each record |
| `WalLog.Wal.Open` | crates/core/zradar-wal/src/lib.rs:61-105 | the recovery scan yields the state specified for the last segment, cuts off its torn tail before its size is taken, and continues it exactly if it is below the limit |
| `WalLog.Wal.Scan` | crates/core/zradar-wal/src/lib.rs:64-72 | the scan finds the largest offset, cuts off a torn tail, and gives the size of the whole records |
| `WalLog.Wal.Append` | crates/core/zradar-wal/src/lib.rs:166-187 | one record with the next offset; the segment stays if and only if file size, header and payload together are within the limit, and no file exceeds it unless the record is alone |
| `WalLog.Wal.CleanupOnce` | crates/core/zradar-wal/src/janitor.rs:56-95 | a file stays if and only if there is no checkpoint, it is at or above the active or the checkpoint's segment, or it cannot be removed; the count is right |
| `WalLog.Wal.ReadFresh` | crates/core/zradar-wal/src/flusher.rs:130-147 | the loop collects what is ahead of the checkpoint, with its largest offset |
| `WalLog.Wal.FlushOnce` | crates/core/zradar-wal/src/flusher.rs:98-184 | the loop over segments computes the specified pass for any point at which the sink refuses |
| `WalLog.Wal.ReplaySegment` | crates/core/zradar-wal/src/replay.rs:82-153 | the batches of a segment together are what is ahead of the checkpoint; one cut early meets the bound and is below it without its last record; a torn tail is cut off when the loop comes to it |
| `WalLog.Wal.Replay` | crates/core/zradar-wal/src/replay.rs:49-168 | a successful replay delivers the whole queue in such batches and saves the last batch's checkpoint; a refused one delivers a prefix and saves nothing; the torn tails of the segments read are cut off |
| `WalLog.ListSegments` | crates/core/zradar-wal/src/segment.rs:258-275 | all segment ids, ascending |
| `WalSession.SessionSafe` | crates/core/zradar-wal/src/lib.rs:52-193 | after any sequence of opens, appends, passes, cleanups, replays and stops no record is lost, and unless a replay was refused each was delivered exactly once, in order, or is pending |
| `WalSession.SessionFits` | crates/core/zradar-wal/src/lib.rs:176-184 | over any session no segment of more than one record exceeds the limit |
| `WalSession.Session` | crates/core/zradar-wal/src/lib.rs:52-193 | the object follows such a history, torn tails left by the stops included |
| `WalAcks.Matched` | crates/core/zradar-wal/src/lib.rs:166-193 | every step of writer and group commit is an action of the log on the same files |
| `WalAcks.LogFollows` | crates/core/zradar-wal/src/group_commit.rs:116-155 | the log allows whatever group commit may do under its guard |
| `WalAcks.ResolvedIsKept` | crates/core/zradar-wal/src/lib.rs:186-191 | over all joint runs, appends during an fsync and power losses included, a resolved handle belongs to a record that is still owed and delivered or pending |
| `WalSink.ReachedOnRuns` | crates/runtime/zradar-runtime/src/builder.rs:580-590 | in every guarded run of log, buffer and flush worker each record owed is pending or has all its rows in memory or in files |
| `WalSink.StopExact` | crates/core/zradar-wal/src/checkpoint.rs:10-14 | the end of the process keeps all continuations safe if and only if the rows of what the checkpoint has passed are in files |
| `WalSink.StopLosesForGood` | crates/core/zradar-wal/src/replay.rs:49-168 | a row that is in memory only at a stop, its record passed by the checkpoint, is in no file in any continuation |
| `WalSink.EarlyStopReachable` | crates/runtime/zradar-runtime/src/builder.rs:580-586 | a run without a fault ends in such a state |
| `WalSink.DropExact` | crates/core/zradar-parquet/src/flush_worker.rs:104-114 | dropping rows that cannot be written keeps all continuations safe if and only if each is elsewhere or its record stays ahead of the checkpoint about to be saved |
| `WalSink.DropReachable` | crates/core/zradar-parquet/src/flush_worker.rs:104-114 | an append, a pass, and a drained slot that cannot be written: a run that ends in an unsafe drop |
| `WalSink.UnbufferedStops` | crates/runtime/zradar-runtime/src/builder.rs:586-588 | a sink that writes before it answers never fails the condition |
| `WalShutdown.ShutdownExact` | crates/core/zradar-wal/src/flusher.rs:76-82 | worker's last turn and flusher's last pass in any interleaving: the server ends without loss, in all continuations, if and only if every record pending when the worker takes its rows out has its rows already |
| `WalShutdown.TurnLast` | crates/core/zradar-parquet/src/flush_worker.rs:78-83 | with no pass after the worker's turn nothing is lost, whatever is pending |
| `WalShutdown.LastPass` | crates/core/zradar-wal/src/flusher.rs:98-184 | from every state between two passes and outside a rotation the flusher alone can empty the queue |
| `WalShutdown.LatePassReachable` | crates/runtime/zradar-runtime/src/builder.rs:765 | a run in which the worker turns first and the last pass hands a record to the buffer nobody writes any more |
| `WalServer.ResolvedIsServed` | crates/core/zradar-wal/src/lib.rs:186-191 | over all joint runs of group commit, log and buffer, power losses included, a resolved handle belongs to a record that is pending or has all its rows in buffer or files, and in files once the process is gone |
| `Bytes.GetPutU32` | crates/core/zradar-wal/src/record.rs:91-95 | a big-endian length reads back as written |
| `Bytes.GetPutI64` | crates/core/zradar-wal/src/record.rs:100-101 | a signed timestamp reads back as written |
| `Bytes.PutU32Digits` | crates/core/zradar-wal/src/record.rs:91 | the bytes written are the digits of the length, highest first |
| `Bytes.PutU64Digits` | crates/core/zradar-wal/src/segment.rs:60 | the bytes written are the digits of the id, highest first |
| `Record.Serialize` | crates/core/zradar-wal/src/record.rs:83-110 | filling the buffer and overwriting the CRC yields the record's layout |
| `Record.Deserialize` | crates/core/zradar-wal/src/record.rs:114-176 | the cursor steps compute the specified outcome on any bytes, panics included |
| `Record.Layout` | crates/core/zradar-wal/src/record.rs:83-110 | the place of every field, what the length counts and what the CRC covers |
| `Record.FailsExactly` | crates/core/zradar-wal/src/record.rs:114-176 | each failure with its numbers if and only if the bytes are too short, the checksum is wrong, the tag unknown or the body too short for its fields |
| `Record.RoundTrip` | crates/core/zradar-wal/src/record.rs:83-176 | a record followed by anything reads back if and only if its length fits the 32-bit field |
| `Record.Sound` | crates/core/zradar-wal/src/record.rs:114-176 | whatever is read was printed: the bytes consumed are the record's encoding |
| `Record.DoneExactly` | crates/core/zradar-wal/src/record.rs:114-176 | reading succeeds exactly on inputs that begin with an encoding, and that record is unique |
| `Record.CutShort` | crates/core/zradar-wal/src/record.rs:115-130 | every strict prefix of a record is reported as torn, with the exact numbers of bytes |
| `Record.PanicBound` | crates/core/zradar-wal/src/record.rs:122-160 | some input with a declared length panics if and only if that length is below 37 |
| `Segment.TornTail` | crates/core/zradar-wal/src/segment.rs:184-201 | whole records and a strict prefix of one more read as exactly the whole records, stopping at their end |
| `Segment.ReadSound` | crates/core/zradar-wal/src/segment.rs:184-201 | on any bytes what was consumed is the print of the records read |
| `Segment.TruncateThenAppend` | crates/core/zradar-wal/src/segment.rs:216-222 | a file truncated where reading stopped and appended to reads as the old records and the new |
| `Segment.HeaderRoundTrip` | crates/core/zradar-wal/src/segment.rs:57-60 | a header is accepted and gives the id back |
| `Segment.HeaderSound` | crates/core/zradar-wal/src/segment.rs:143-164 | an accepted header is the print of its id |
| `Segment.HeaderLayout` | crates/core/zradar-wal/src/segment.rs:57-60 | magic, version and id in their places |
| `Segment.OpenReader` | crates/core/zradar-wal/src/segment.rs:138-171 | short file, wrong magic and unknown version are reported each exactly in its case |
| `Segment.SegmentReader.NextRecord` | crates/core/zradar-wal/src/segment.rs:184-201 | one step of the scan; the position moves over whole records only |
| `Segment.SegmentFile.Append` | crates/core/zradar-wal/src/segment.rs:72-77 | bytes go to the end and their start is returned |
| `Segment.Recover` | crates/core/zradar-wal/src/lib.rs:61-87 | the startup scan returns the largest offset and truncates a torn tail, and leaves the file alone on any other error |
| `Segment.GivesUpExactly` | crates/core/zradar-wal/src/lib.rs:71-86 | recovery gives up, and leaves the file alone, if and only if the first record it cannot read has an unknown tag or a body too short for its fields |
| `Segment.CrashRecovery` | crates/core/zradar-wal/src/lib.rs:61-87 | after a crash in the middle of an append recovery restores the image of the whole records |
| `Segment.RecoveryIsClean` | crates/core/zradar-wal/src/lib.rs:61-87 | recovery leaves the image of the records it read, and recovering again changes nothing |
| `Segment.RepresentsFile` | crates/core/zradar-wal/src/lib.rs:64-90 | file size and largest offset are those of the machine's entries |
| `Envelope.EncodeJsonRows` | crates/core/zradar-wal/src/batch.rs:69-88 | the loop writes the envelope of the rows |
| `Envelope.Decode` | crates/core/zradar-wal/src/batch.rs:104-142 | the cursor loop computes the specified outcome, errors with their numbers included |
| `Envelope.Layout` | crates/core/zradar-wal/src/batch.rs:69-88 | magic, tag and count in their places, and each row behind its length |
| `Envelope.FailsExactly` | crates/core/zradar-wal/src/batch.rs:104-142 | each outcome by the bytes: legacy, too short, unknown tag, the whole batch, or the numbers of the row where the bytes end |
| `Envelope.RoundTrip` | crates/core/zradar-wal/src/batch.rs:69-142 | rows come back, whatever follows, if and only if count and lengths fit 32 bits |
| `Envelope.Sound` | crates/core/zradar-wal/src/batch.rs:104-142 | a decoded payload begins with the encoding of its rows |
| `Envelope.CutShort` | crates/core/zradar-wal/src/batch.rs:104-142 | an envelope cut short never decodes to a batch, and reads as legacy only if cut inside the magic |
| `Envelope.LegacyExactly` | crates/core/zradar-wal/src/batch.rs:105-107 | a payload is legacy if and only if it does not begin with the magic |
| `GroupCommit.AckedMeansSynced` | crates/core/zradar-wal/src/group_commit.rs:116-155 | in every guarded run, with appends at any time while an fsync is under way, a resolved handle belongs to a record an fsync has covered |
| `GroupCommit.QueueConserved` | crates/core/zradar-wal/src/group_commit.rs:144-152 | resolved and pending handles together only change at a registration or a stop, and only a drain empties the queue |
| `GroupCommit.RegisterExact` | crates/core/zradar-wal/src/group_commit.rs:144-147 | registering keeps all continuations safe if and only if no commit is between the start of its fsync and its drain, or the record is synced, or it was in the file when the fsync under way started |
| `GroupCommit.OpenExact` | crates/core/zradar-wal/src/lib.rs:89-126 | reopening is safe if and only if `current.seg` points to the writer's segment or to nothing |
| `GroupCommit.StaleLinkReachable` | crates/core/zradar-wal/src/lib.rs:176-184 | a rotation that dies before it moves the link leads to such an unsafe reopen |
| `GroupCommit.LateRegisterReachable` | crates/core/zradar-wal/src/lib.rs:186-191 | a run that writes and registers a record while an fsync is under way and has its handle resolved uncovered |
| `GroupCommit.FsyncQueue.Register` | crates/core/zradar-wal/src/group_commit.rs:74-79 | a handle joins the end of the queue |
| `GroupCommit.FsyncQueue.DrainAndNotify` | crates/core/zradar-wal/src/group_commit.rs:82-87 | all pending handles are resolved in order |
| `GroupCommit.FsyncQueue.CommitOnce` | crates/core/zradar-wal/src/group_commit.rs:140-153 | no handle is lost; those registered during the fsync are resolved with the others, and a failed fsync leaves all of them queued and the count unchanged |
| `Lease.FileLeaseRegistry.Acquire` | crates/core/zradar-traits/src/file_lease.rs:50-60 | one guard per id, counted |
| `Lease.FileLeaseRegistry.IsLeased` | crates/core/zradar-traits/src/file_lease.rs:66-68 | a file is leased if and only if a guard for it lives |
| `Lease.FileLeaseRegistry.Decrement` | crates/core/zradar-traits/src/file_lease.rs:78-84 | the first step of a release drops one guard and keeps the counts exact |
| `Lease.FileLeaseRegistry.RemoveIfZero` | crates/core/zradar-traits/src/file_lease.rs:85-89 | the second step keeps the counts exact whoever acquired or dropped in between, and withdraws this dropper's claim only |
| `Lease.FileLeaseRegistry.Release` | crates/core/zradar-traits/src/file_lease.rs:77-90 | both steps together drop one guard and leave no step pending |
| `Lifecycle.CountsKept` | crates/core/zradar-traits/src/file_lease.rs:50-90 | every step of every reader keeps counts equal to live guards |
| `Lifecycle.LeasedMeansHeld` | crates/core/zradar-traits/src/file_lease.rs:66-90 | over every interleaving a file counts as leased exactly while a guard lives |
| `Lifecycle.NoLeasedFileReclaimed` | crates/core/zradar-retention/src/file_reclaimer.rs:103-197 | in every guarded run of readers and any number of overlapping reclaim cycles no file under a lease has lost its bytes |
| `Lifecycle.LateAcquireExact` | crates/core/zradar-parquet/src/reader.rs:154-183 | a lease taken after the listing is safe if and only if the bytes are there and no reclaim cycle has chosen the file |
| `Lifecycle.DeletedIsForever` | crates/core/zradar-retention/src/cleanup.rs:135-160 | a soft-deleted row stays deleted and removed bytes stay removed |
| `Lifecycle.RaceReachable` | crates/core/zradar-parquet/src/reader.rs:171-183 | a run in which list and lease are apart and a leased file is unlinked |
| `Retention.Store.DeletePhysicalFile` | crates/core/zradar-retention/src/file_reclaimer.rs:235-280 | it fails if and only if a delete that can be tried is refused; otherwise the bytes are gone, except those of an object no storage is configured for |
| `Retention.Store.Sweep` | crates/core/zradar-retention/src/file_reclaimer.rs:130-174 | by the fields of the rows: ids and bytes taken are those of deleted files of the workspace without a lease and without a refused delete; deltas and counts are theirs |
| `Retention.Store.Reclaim` | crates/core/zradar-retention/src/file_reclaimer.rs:97-210 | one listing, then per workspace the sweep and the commit, with any steps of other cycles, retention and writers in between: list, ledger, bytes and counts are those of the specified history |
| `Usage.Accounted` | crates/core/zradar-retention/src/file_reclaimer.rs:162-173 | every file is either still listed or accounted for |
| `Books.HistoryExact` | crates/plugins/zradar-plugin-postgres/src/repositories/storage_usage.rs:29-62 | over any history of commits, soft deletions and new files recorded plus listed usage is conserved if and only if each id of each commit is still listed when the commit runs |
| `Retention.CycleExact` | crates/core/zradar-retention/src/file_reclaimer.rs:97-210 | the same for one cycle with whatever others do before each of its commits |
| `Retention.CountedTwice` | crates/core/zradar-retention/src/file_reclaimer.rs:265-267 | two overlapping cycles that record the same five bytes as ten |
| `Retention.UndisturbedCycle` | crates/core/zradar-retention/src/file_reclaimer.rs:97-210 | alone, a cycle drops and records exactly the rows it took in the workspaces whose commit succeeds, and conserves recorded plus listed usage whichever commits fail |
| `Retention.TurnFate` | crates/core/zradar-retention/src/file_reclaimer.rs:120-195 | one workspace with anything done by others before its commit: which rows and bytes are left, and what is recorded, by the fields of the listed rows |
| `Retention.FileFate` | crates/core/zradar-retention/src/file_reclaimer.rs:97-280 | row and bytes of every file after an undisturbed cycle: untouched, row only, both kept for a refused delete, or both gone (the row if the commit succeeds), each exactly in its case |
| `Retention.CycleCounts` | crates/core/zradar-retention/src/file_reclaimer.rs:130-174 | the counts are the numbers of files removed and of deleted files held back by a lease |
| `Retention.Store.Cleanup` | crates/core/zradar-retention/src/cleanup.rs:103-171 | a row is marked if and only if it was not deleted, ends at or before the cutoff of its workspace, and the statement of that workspace succeeds; the count is the number of rows changed |
| `Compaction.FileList.Write` | crates/core/zradar-parquet/src/writer.rs:138-169 | the bounds registered are the least start and the greatest end in microseconds |
| `Catalog.WrittenFields` | crates/core/zradar-parquet/src/writer.rs:138-169 | start and hour of the earliest row, end of the latest, number of rows, all rows, live and local |
| `Catalog.PrunedEqualsFull` | crates/core/zradar-parquet/src/telemetry_reader.rs:1194-1215 | over sound bounds the pruned scan returns the rows of the full scan, in order |
| `Catalog.PruningExact` | crates/core/zradar-parquet/src/writer.rs:151-166 | pruning a written file is right for all ranges if and only if its latest end is not an earlier microsecond than its latest start |
| `Catalog.BackwardSpanMissed` | crates/core/zradar-parquet/src/writer.rs:151-166 | a span that ends before it starts, and a range whose pruned scan misses it |
| `Catalog.ForwardIsSound` | crates/core/zradar-parquet/src/writer.rs:151-156 | spans of non-negative duration and all other signals get sound bounds |
| `Catalog.MergedSound` | crates/core/zradar-parquet/src/compactor.rs:196-210 | the merged file's bounds are sound |
| `Catalog.MergedBounds` | crates/core/zradar-parquet/src/compactor.rs:197-208 | microseconds survive the way through nanoseconds without overflow |
| `Catalog.MergedFile` | crates/core/zradar-parquet/src/compactor.rs:188-210 | all rows of the members and their number, the least and greatest bound, the hour of the least, stream of the first member |
| `Compaction.LapsedRowsReturn` | crates/core/zradar-parquet/src/compactor.rs:180-223 | queries over a signal never miss a row, and after the merge see the same rows plus those of the members deleted since the listing |
| `Compaction.CompactionConserves` | crates/core/zradar-parquet/src/compactor.rs:200-223 | the live rows are conserved if and only if every listed member with rows is still live when the merged file is registered |
| `Compaction.MarkListed` | crates/core/zradar-parquet/src/compactor.rs:218-223 | marking a group, however old its listing, takes exactly its still live members out of sight |
| `Compaction.RetiredRowReturns` | crates/core/zradar-retention/src/cleanup.rs:135-160 | a file retention deletes between listing and merge, whose row is visible again afterwards |
| `Compaction.RetiringTooLate` | crates/core/zradar-parquet/src/compactor.rs:218-223 | a deletion between registering and marking leaves the rows visible |
| `Compaction.StreamsExact` | crates/core/zradar-parquet/src/compactor.rs:122-126 | every scope, streams included, sees the same rows if and only if all files with rows are of the first file's stream and still live |
| `Compaction.StreamsMerge` | crates/core/zradar-parquet/src/compactor.rs:178 | two files of one hour and two streams, and the query that loses a row |
| `Compaction.FileList.CompactGroup` | crates/core/zradar-parquet/src/compactor.rs:168-232 | what is left after success and after a failure at each step, with others changing the list in between |
| `Compaction.FileList.CompactTurn` | crates/core/zradar-parquet/src/compactor.rs:118-157 | too few small files, a merge, an error or a panic, each in its case; without a fault, as `TurnExact` says |
| `Compaction.TurnExact` | crates/core/zradar-parquet/src/compactor.rs:127-157 | with at least the minimum of files below the size limit, and at least one, the group counts; if some hold rows, exactly those files are marked and one live file with their rows is added; in all other cases the list is unchanged |
| `Compaction.GroupFaults` | crates/core/zradar-parquet/src/compactor.rs:168-232 | a fault is not counted; before registering it leaves the list alone, after it the merged file stays beside unmarked originals |
| `Compaction.FileList.CompactAll` | crates/core/zradar-parquet/src/compactor.rs:108-164 | each group with enough small files is compacted in turn and counted if it succeeds; the scan ends early exactly at the first group that panics |
| `Compaction.ScanExact` | crates/core/zradar-parquet/src/compactor.rs:108-164 | an undisturbed scan without fault: the old files marked are the small members of groups with enough of them, each such group has its live file, and the count is that of the groups with enough |
| `Compaction.PanicExact` | crates/core/zradar-parquet/src/compactor.rs:177-178 | the scan panics at a group if and only if the minimum is zero and the group has files but none below the size limit |
| `Compaction.ScanConserves` | crates/core/zradar-parquet/src/compactor.rs:108-164 | an undisturbed scan never hides a row, and keeps the live rows the same unless a marking statement fails |
| `Compaction.ScanPrunes` | crates/core/zradar-parquet/src/compactor.rs:196-210 | after any scan, with anything happening in between, the pruned scan still returns what the full scan does |
| `Partition.HoursAgreeExactly` | crates/core/zradar-parquet/src/writer.rs:484-490 | the hour of the path equals the hour bucket if and only if the timestamp is not negative or not inside the last second of an hour |
| `Partition.HourExact` | crates/core/zradar-parquet/src/writer.rs:484-490 | the timestamps of each path hour; before 1970 an hour begins and ends one second early |
| `Partition.PartitionByStorageKey` | crates/core/zradar-parquet/src/telemetry_writer.rs:423-446 | the loop with its index computes the stable grouping, or the fast path |
| `Partition.PartitionOwned` | crates/core/zradar-parquet/src/telemetry_writer.rs:483-506 | the moving version computes the same |
| `Partition.PartitionMeans` | crates/core/zradar-parquet/src/telemetry_writer.rs:404-446 | by the fields of the rows: distinct keys in the order first seen; each row under its workspace, its stream (or the default) and, from 1970 on, its hour; the rows are those of the batch, in its order |
| `Partition.KeysDistinct` | crates/core/zradar-parquet/src/telemetry_writer.rs:435-445 | group keys are distinct and every row has its group |
| `Partition.GroupsPermute` | crates/core/zradar-parquet/src/telemetry_writer.rs:435-445 | the groups together are a permutation of the rows |
| `Partition.FastPathExact` | crates/core/zradar-parquet/src/telemetry_writer.rs:429-433 | the result is the stable grouping if and only if the fast path was not taken on rows of different hours |
| `Partition.PartitionIsStableGrouping` | crates/core/zradar-parquet/src/telemetry_writer.rs:404-446 | for timestamps from 1970 on the result is always the stable grouping |
| `Partition.FastPathMisplaces` | crates/core/zradar-parquet/src/telemetry_writer.rs:452-471 | two rows before 1970 that the fast path puts into one partition wrongly |
| `WriteBuffer.WriteBuffer.Push` | crates/core/zradar-parquet/src/write_buffer.rs:121-142 | a push has the specified effect, leaves the age of a slot that is there, adds the bytes per record of its signal, and asks for a flush exactly at the size limit |
| `WriteBuffer.WriteBuffer.PushOwned` | crates/core/zradar-parquet/src/write_buffer.rs:227-252 | moving a batch in leaves the same slots |
| `WriteBuffer.WriteBuffer.DrainEligible` | crates/core/zradar-parquet/src/write_buffer.rs:346-369 | the keys of exactly the slots at the size limit or as old as the interval are collected, then removed one by one with any steps of others in between |
| `WriteBuffer.WriteBuffer.DrainAll` | crates/core/zradar-parquet/src/write_buffer.rs:372-381 | the same for the keys of all slots |
| `WriteBuffer.DrainAlone` | crates/core/zradar-parquet/src/write_buffer.rs:362-368 | a drain nobody disturbs returns and removes exactly the slots of its keys, unchanged |
| `WriteBuffer.WriteBuffer.RecordCount` | crates/core/zradar-parquet/src/write_buffer.rs:388-398 | the count is the number of rows held |
| `WriteBuffer.CountOne` | crates/core/zradar-parquet/src/write_buffer.rs:388-398 | the count is the rows of any one slot and the count of the others |
| `WriteBuffer.AgesFromFirstPush` | crates/core/zradar-parquet/src/write_buffer.rs:121-133 | over any run a slot is there, and as old as the first push since its last removal |
| `WriteBuffer.RunConserves` | crates/core/zradar-parquet/src/write_buffer.rs:121-381 | under every interleaving of pushes and slot removals, drained then held is pushed, per key and in order, and variants and sizes match their keys |
| `WriteBuffer.DrainConserves` | crates/core/zradar-parquet/src/write_buffer.rs:362-368 | a drain conserves rows, whatever others push or remove between its removals |
| `WriteBuffer.PushExact` | crates/core/zradar-parquet/src/write_buffer.rs:132-135 | a push keeps its rows if and only if the slot is absent or of its variant |
| `MemoryCache.Shard.Insert` | crates/core/zradar-parquet/src/memory_cache.rs:57-76 | the key answers with the value and is most recent; every other entry stays exactly if it fits beside the new one and all entries used after it; the running total stays exact and within budget |
| `MemoryCache.Shard.Get` | crates/core/zradar-parquet/src/memory_cache.rs:78-80 | a hit returns the value and becomes most recent, and no key answers differently afterwards |
| `MemoryCache.Shard.Remove` | crates/core/zradar-parquet/src/memory_cache.rs:117-123 | the entry goes, every other key answers as before, and the total stays exact |
| `MemoryCache.MemoryCache.Insert` | crates/core/zradar-parquet/src/memory_cache.rs:102-106 | only the key's shard changes, and there every other entry stays exactly if it fits |
| `MemoryCache.InsertedBudget` | crates/core/zradar-parquet/src/memory_cache.rs:57-76 | within budget after an insert unless the new entry alone exceeds it and is alone |
| `MemoryCache.EvictsOldestOnly` | crates/core/zradar-parquet/src/memory_cache.rs:60-67 | what stays is the most recent end, and nothing goes that could have stayed |
| `MemoryCache.InsertedLookup` | crates/core/zradar-parquet/src/memory_cache.rs:57-76 | an insert answers for its key and changes no other key except by dropping it |
| `MemoryCache.InsertExact` | crates/core/zradar-parquet/src/memory_cache.rs:57-76 | before and after an insert: an entry stays if and only if it, the new entry and all used after it fit the budget; with room for all every other key answers as before |
| `MemoryCache.HitIsLastInserted` | crates/core/zradar-parquet/src/memory_cache.rs:100-123 | after any history a hit is the value last inserted and not removed |
| `MemoryCache.ForgetsExactly` | crates/core/zradar-parquet/src/memory_cache.rs:57-76 | after any history an insert forgets another key if and only if its bytes, those used since and the new ones exceed the budget |
| `MemoryCache.NothingForgotten` | crates/core/zradar-parquet/src/memory_cache.rs:57-123 | over any history whose inserts fit every key answers with what was inserted last and not removed |
| `MemoryCache.EvictsLeastRecentlyUsed` | crates/core/zradar-parquet/src/memory_cache.rs:60-67 | in any history every evicted entry was used before every entry that stays |
| `Policy.SaturationExact` | crates/core/zradar-policy/src/enforcer.rs:509-537 | saturation never makes a decision milder, and changes it exactly when the scaled usage overflows and the ideal decision is not to block |
| `Policy.SeverityMonotone` | crates/core/zradar-policy/src/enforcer.rs:509-537 | severity is monotone in usage and antitone in the limit |
| `Policy.RateFailsClosed` | crates/core/zradar-policy/src/enforcer.rs:487-507 | unsigned sums and limits beyond 63 bits are judged at least as severely as exact arithmetic does |
| `Policy.SumFailsClosedExactly` | crates/core/zradar-policy/src/enforcer.rs:286-296 | the quota's saturating sum is never milder than the exact one if and only if the reading is not negative, the estimate fits 63 bits, or the scaled sum overflows |
| `Policy.NoneMeansWithinExactly` | crates/core/zradar-policy/src/enforcer.rs:286-296 | no decision means that the exact sum is within the limit, for every limit and percentage, if and only if the reading is not negative, the estimate fits 63 bits, the scaled sum overflows, or the exact sum is at most 1 |
| `Policy.HiddenUsageAllowed` | crates/core/zradar-policy/src/enforcer.rs:286-296 | a request of 2^64 - 1 bytes allowed under a quota of 100 |
| `Policy.CheckIngest` | crates/core/zradar-policy/src/enforcer.rs:68-142 | the loops return the first decision of the limits in order, which is the one of `Verdicts.DecisionExact` |
| `Verdicts.DecisionExact` | crates/core/zradar-policy/src/enforcer.rs:68-142 | in exact arithmetic on request, readings and limits: the first of records, bytes, quotas and size whose thresholds are reached decides, by the range its usage lies in and with its own code; below every threshold the request is allowed |
| `Verdicts.RecordsAlone` | crates/core/zradar-policy/src/enforcer.rs:509-537 | with only a record rate: block, throttle, grace or allow, each if and only if the usage is in its range of the grace and hard percentages |
| `Verdicts.BytesAlone` | crates/core/zradar-policy/src/enforcer.rs:509-537 | the same for a byte rate, which is not looked at without an estimate |
| `Verdicts.QuotaAlone` | crates/core/zradar-policy/src/enforcer.rs:286-296 | the same for a quota, on the reading and as much of the estimate as fits 63 bits |
| `Verdicts.SizeAlone` | crates/core/zradar-policy/src/enforcer.rs:509-537 | the same for the stored size, whatever the request |
| `Policy.AllowMeansWithin` | crates/core/zradar-policy/src/enforcer.rs:68-142 | a request is allowed only if it is not blocked and, in exact arithmetic, no limit with readable usage is exceeded; a quota sum outside the condition of `NoneMeansWithinExactly` is not covered |
| `Policy.FailsClosedExactly` | crates/core/zradar-policy/src/enforcer.rs:86-139 | whenever one limit rejects, the decision rejects: if and only if one of the percentages is at most 100 |
| `Policy.RetentionFailsClosed` | crates/core/zradar-policy/src/enforcer.rs:362-374 | a query beyond the retention limit is always rejected |
| `Policy.RetentionExact` | crates/core/zradar-policy/src/enforcer.rs:362-374 | a start is rejected if and only if it is before the cutoff, with at most 63 bits of retention |
| `Policy.WindowExact` | crates/core/zradar-policy/src/enforcer.rs:376-386 | a window is rejected if and only if it is too long, unless window and limit both exceed 64 bits |
| `Policy.EmitThresholds` | crates/core/zradar-policy/src/enforcer.rs:612-645 | one event for each of 70, 90, 100 and the hard limit that is reached, ascending |

## Left out

- The query for compactable groups is taken as given: groups of distinct live files of one workspace and signal, no file in two groups for `ScanConserves`. Two compactors at once.
- Retention.Store.Reclaim: the leases are fixed during a cycle, and what other cycles unlink counts as done before the sweep of a workspace; readers and cycles step by step are in `Lifecycle`.
- Partial failures of `write_all`, half-written segment headers and files that cannot be opened: appending and creating a segment are one step except for the torn tail of a crash.
- CRC-32 is an arbitrary function: detection of corruption other than a cut is not claimed.
- Saving the checkpoint is one step, as its write, fsync and rename make it; its JSON text is not modelled.
- A record the sink cannot decode has no rows in `WalSink`; which rows share a slot of the buffer, and that a slot leaves as a whole, is in `WriteBuffer` only. Parquet files are taken to survive a power loss.
- WalLog.Wal.Open: sees a valid header and torn tails only; the errors for other headers and for whole records that cannot be read are in `Segment.Recover`, the move of `current.seg` in `GroupCommit`.
- WalLog.Wal.Replay: sees valid headers; with a corrupt header the source returns an error, and it stops with a warning at a segment it cannot open.
- Power loss of directory entries, of the checkpoint and of `current.seg`: only records are lost. Power losses are in the machines, not in `WalSession`, whose calls come one after the other.
- Offsets and sizes of the log are unbounded integers; 64-bit overflow of the counters is not modelled.
- The janitor removing the segment a stale `current.seg` points to.
- The lag metric, log messages, backpressure, the disk-space guard, timers and notifications.
- The query side of the policy enforcer (`check_query_rate`, `check_query_quota`): the same comparison on other readings.
- Statistics other than reclaimed, skipped and marked files; the day under which usage is recorded.
- The file mover, disk cache and object storage beyond whether a delete succeeds.
- SQL, DataFusion, Arrow and Parquet: rows are values and files are sequences of rows; the order of rows inside a query result is the order of files.
- Date paths: an hour is its number; the formatting is taken to be injective.
- The value of the hash that routes a cache key to its shard, and the total of bytes over all shards.
