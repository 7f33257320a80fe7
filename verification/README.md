# cdDB: verified models of its storage engine

cdDB is a columnar store in which one writer thread per partition applies batches of commands, while
readers follow atomically swapped pointers that are protected by quiescent-state-based reclamation. This
project models the components that this design rests on and proves, for all inputs and all runs, what the
repository promises of them.

| module | source | what it models |
|---|---|---|
| `Bytes`, `Frames`, `Codec` | `src/core/commands.rs`, `src/io/storage.rs`, `src/io/wal.rs` | little-endian words, length-prefixed frames, the binary codec of commands and entities |
| `HashMap` | `src/core/map.rs` | the open-addressing hash map with tombstones, over an arbitrary hash function |
| `Column` | `src/core/column.rs` | packed column data with a 64-bit validity bitmap |
| `Qsbr`, `QsbrRuns`, `QsbrManager` | `src/core/qsbr.rs`, `src/core/rcu.rs`, `src/core/query.rs` | reclamation and worker registration, as interleaved atomic steps with their safety and their progress, and as the objects themselves |
| `Storage` | `src/io/storage.rs` | the append-only entity log, its disk index, growth, rebuild and two-phase compaction |
| `Wal` | `src/io/wal.rs` | the write-ahead log with its group-commit flusher |
| `Records`, `Engine`, `Query` | `src/engine/partition.rs`, `src/core/query.rs` | the batch engine with its write-back cache, what readers resolve, queries over published columns |
| `Recovery` | `src/engine/partition.rs`, `src/io/wal.rs` | log-then-apply, crash, replay, and whole sessions over one log file |
| `Limits` | `src/engine/partition.rs`, `src/io/storage.rs`, `src/io/wal.rs` | runs and inputs that show why the guarantees carry conditions |

## How the models are built

* Files are byte sequences. Every section that the source runs under its locks is one method, and the
  class invariants hold between any two methods, so interleavings of writers, flusher, compaction and
  readers are sequences of calls. `RunStore`, `RunWal`, `RunEngine` and `RunHistory` say so for arbitrary
  schedules. A batch takes, as a parameter, the steps that the compaction thread makes before each of
  its commands, before each item that it writes, before each record that it reads, and at its end.
* A database lives through sessions: `RunSessions` opens what the crash of the session before left, replays
  it, runs any turns of the writer thread and any steps of the flusher, and crashes at any byte.
* What readers rely on (`Engine.Partition.Coherent`) does not mention the storage: it survives any file
  content, any compaction, and the end of the writer thread by a panicking load.
* `Qsbr` is a state machine whose steps are the single atomic loads, stores, swaps and compare-exchanges.
  Memory is sequentially consistent there; the code itself uses Acquire and Release.
* A string is the sequence of its UTF-8 bytes, and `Value` has one constructor for each of the three kinds
  of attribute. The three typed column maps, and the three typed caches, are one map keyed by kind and name.
* The engine keeps, as ghost history, every moment at which something was published (`trace`), the steps
  taken (`log`), and the iteration order of every attribute map that was inserted (`orders`). A reader that
  loads the pointer map, then the columns map, then a column's data, is three indices into `trace`.
* A record is `strs + ints + blobs`, since one index per name serves all three kinds and the later loop
  overwrites the earlier one.
* Hash maps are iterated in an arbitrary order wherever the source iterates one.

Where the code and its documentation differ, the code is modelled. Findings:

* The attribute decoder is documented to return `None` on malformed input; its value decoders `unwrap`, so
  it panics exactly when, behind some entries that decode, a sound name is followed by a broken value
  (`Codec.AttributesPanic`, with a 17-byte command in `Limits.MalformedPanics`).
* `rebuild_disk_index` calls `swap_disk_index`, but the dirty flag is never set there, so nothing is
  published when a store is opened (`Storage.EntityStore.Open`).
* A rebuild that stops on a torn frame leaves the write offset behind the length prefix it has already
  read. The record written next is met by later scans if and only if no frame was torn
  (`Storage.WriteAfterOpen`, with a four-byte file in `Limits.TornFileLoses`).
* The write-ahead log is opened in append mode and never truncated. After a crash that cut a frame, the
  next session appends behind the cut: a replay meets what it logs if and only if the file was clean when
  the session started (`Frames.AppendedMet`, `Recovery.FirstCommandMet`). Otherwise synced commands that
  readers have seen are lost (`Limits.TornLogLoses`), and a record that nobody wrote can be replayed
  (`Limits.CutIsCompleted`).
* Between a compaction and the next index swap, reads go through offsets of the old file: they may panic
  (`Limits.StaleIndexPanics`) or return the record of another entity (`Limits.StaleIndexMisreads`).
* A cold load overwrites resident entities of its window with their disk records, tombstones included
  (`Engine.ColdLoadPreserves`, `Limits.TombstoneReturns`).

## Model

| member | source | states |
|---|---|---|
| Bytes.Le32RoundTrip | src/core/commands.rs:80-84 | a `u32` prefix reads back as the number modulo 2^32 |
| Bytes.Le64RoundTrip | src/io/storage.rs:52-52 | an id reads back from its eight bytes |
| Bytes.Utf8Exact | src/core/commands.rs:312-312 | the strings that decode are exactly the UTF-8 encodings of sequences of Unicode scalar values, in all four lengths and without surrogates |
| Codec.TextDecodes | src/core/commands.rs:312-312 | every text below 4 GiB survives as a string value |
| Codec.DecodeExact | src/core/commands.rs:298-417 | the command decoder accepts exactly the buffers that begin with an encoding, gives the command encoded there, and stops right behind it |
| Codec.DecodeEntityExact | src/io/storage.rs:81-112 | so does the entity decoder |
| Codec.CommandPanics | src/core/commands.rs:298-417 | a command panics in the decoder if and only if one of its attribute maps does; deletes, fast inserts and unknown types never do |
| Codec.CommandRoundTripIff | src/core/commands.rs:228-417 | decoding an encoded command gives it back, reading every byte, if and only if every count and length in it fits in a `u32`; for every iteration order of its maps |
| Codec.EntityRoundTripIff | src/io/storage.rs:50-112 | the same for `EntityData::encode` and `decode` |
| Codec.CommandRoundTrip | src/core/commands.rs:228-417 | no inner `unwrap` fails on an encoding that fits |
| Codec.DecodeCommandAt | src/core/commands.rs:298-417 | the round trip does not depend on what lies behind the encoding, nor on names being distinct |
| Codec.DecodeAttributesAt | src/core/commands.rs:79-116 | at any place of any buffer, `decode_from` gives the map back and advances the cursor by exactly the encoded length |
| Codec.DecodeItemAt | src/io/storage.rs:81-112 | an entity is decoded from wherever its bytes lie, and the cursor ends right behind them |
| Codec.DecodeItemsAt | src/core/commands.rs:298-417 | the items of a batch are decoded in order, and nothing behind them is read |
| Codec.AddAllHolds | src/core/commands.rs:107-115 | the decoded map has exactly the encoded entries, whatever order they came in |
| Codec.FitsOfOrder | src/core/commands.rs:79-88 | whether a map fits does not depend on the order it is iterated in |
| Codec.DecodedCommandFits | src/core/commands.rs:298-417 | whatever the decoder accepts has counts and lengths that fit |
| Codec.AttributesPanic | src/core/commands.rs:97-116 | `decode_from` panics if and only if, after some entries that decode and before the count is reached, there is one with a sound name and a value that is cut short or a string that is not UTF-8 |
| Codec.EntriesPanic | src/core/commands.rs:104-115 | the same for the loop over the entries, from any point of it |
| Codec.EncodeTo | src/core/commands.rs:79-86 | the loop appends exactly the bytes of the attribute map |
| Codec.EncodeItem | src/io/storage.rs:50-68 | the encoder appends id, strings, ints and blobs in that order |
| Codec.Encode | src/core/commands.rs:228-293 | the encoder gives the bytes that the round trip is about |
| Codec.DecodeFrom | src/core/commands.rs:97-116 | the cursor loop, with its early returns and panics, computes the specified parse |
| Codec.DecodeOneItem | src/io/storage.rs:81-112 | the entity decoder computes the specified parse |
| Codec.Decode | src/core/commands.rs:298-417 | the command decoder computes the specified parse, errors and panics included |
| Frames.ScanLog | src/engine/partition.rs:461-477 | a scan that starts on an intact log meets exactly its frames and goes on behind it |
| Frames.ScanCut | src/engine/partition.rs:461-477 | a log cut at any byte is scanned as exactly the frames that are complete |
| Frames.ScanCutLog | src/engine/partition.rs:461-477 | the payloads of a cut log are its first `Complete` payloads |
| Frames.CompleteIsMaximal | src/engine/partition.rs:464-475 | the complete frames are all those whose bytes fit before the cut, and no more |
| Frames.LogConcat | src/io/wal.rs:322-328 | a log written in parts is the concatenation of the parts |
| Frames.ScanIsLog | src/io/storage.rs:219-231 | whatever a file holds, the frames met are a log of its bytes, and the offset is right behind it if and only if no frame was torn |
| Frames.CleanIsLog | src/engine/partition.rs:461-477 | a file with no torn frame and no stray byte is the log of the payloads that a scan meets |
| Frames.FramesStay | src/engine/partition.rs:461-477 | whatever is appended to a file, the frames met before are met again, first |
| Frames.AppendedMet | src/io/wal.rs:171-176 | what is appended to an existing file is met, where it was appended, if and only if the file was clean |
| Frames.CleanCut | src/engine/partition.rs:464-475 | a crash leaves a clean file if and only if it cuts behind a whole frame |
| HashMap.MaskIsRemainder | src/core/map.rs:73-75 | `hash & mask` is `hash % capacity` when the capacity is a power of two |
| HashMap.HomeIsRemainder | src/core/map.rs:73-75 | a probe starts at the hash modulo the capacity |
| HashMap.StepUnderMask | src/core/map.rs:102-102 | `(idx + 1) & mask` is the cyclic successor |
| HashMap.KeyAbsent | src/core/map.rs:117-128 | meeting an Empty slot on the probe path proves that the key is in no slot |
| HashMap.WriteSlot | src/core/map.rs:79-99 | writing a free or matching slot on a key's clear path keeps every key reachable and unique and binds that key only |
| HashMap.StillReachable | src/core/map.rs:183-185 | a tombstone never hides another key from its probe path |
| HashMap.ContentsSize | src/core/map.rs:204-206 | the counter `len` is the size of the map |
| HashMap.EntriesExact | src/core/map.rs:224-257 | iteration yields each live pair, once |
| HashMap.AHashMap.WithCapacity | src/core/map.rs:33-45 | an empty table of at least eight slots that meets the load invariant for the capacity asked for |
| HashMap.AHashMap.InsertNoResize | src/core/map.rs:71-104 | the probe loop ends and keeps both counters exact; a present key is rebound in its slot, an absent one takes the first slot on its path that holds nothing, so the first tombstone if there is one |
| HashMap.AHashMap.Resize | src/core/map.rs:210-223 | a rehash keeps the map and drops every tombstone |
| HashMap.AHashMap.Insert | src/core/map.rs:63-70 | a map update with the previous value returned; the table stays below 7/10 full; a rehash happens exactly when the load asks for it, and before every rehash of a non-empty table, tombstones or not, at least a fifth of the capacity has been consumed since the one before |
| HashMap.AHashMap.Find | src/core/map.rs:105-129 | the probe loop ends, at the key's slot if the key is in the map and at an Empty slot otherwise |
| HashMap.AHashMap.Get | src/core/map.rs:105-129 | lookup in the finite map |
| HashMap.AHashMap.Update | src/core/map.rs:130-158 | a write through `get_mut` rebinds a present key and never adds one |
| HashMap.AHashMap.Remove | src/core/map.rs:159-191 | removes one key and returns its value |
| HashMap.AHashMap.Clear | src/core/map.rs:199-203 | leaves the empty map |
| HashMap.Iter.Next | src/core/map.rs:245-257 | yields the live pairs one by one and ends after the last |
| HashMap.RunHistory | src/core/map.rs:63-223 | over every history and every hash function the answers are those of a finite map, and all rehashes together move at most 3.5 entries per insert |
| Column.BitPlaces | src/core/column.rs:129-131 | row 0 is the lowest bit of its word and each next row is one place to the left |
| Column.WriteBit | src/core/column.rs:151-162 | setting or clearing one bit of a word changes no other bit |
| Column.MarkOne | src/core/column.rs:151-162 | marking one row, growing the bitmap if needed, leaves the mark of every other row alone |
| Column.ColumnData.SetValid | src/core/column.rs:151-162 | exactly one row's mark changes; the column stays free of stray marks exactly when the row is below `len` or is being unmarked |
| Column.ColumnData.Push | src/core/column.rs:222-226 | appends a present row to the sequence of options |
| Column.ColumnData.Set | src/core/column.rs:242-248 | writes one row of the sequence of options; gap rows read as absent if and only if no stray mark lies in the gap |
| Column.ColumnData.Get | src/core/column.rs:179-185 | reads the sequence of options, and nothing beyond its end |
| Column.ColumnDataIter.Next | src/core/column.rs:286-297 | yields the next row, absent rows included |
| Column.Collect | src/core/column.rs:267-297 | a full iteration gives the sequence of options |
| Column.StrayMark | src/core/column.rs:151-162 | a run in which a mark set beyond the end makes a gap row read as a value nobody wrote |
| Qsbr.StepInv | src/core/qsbr.rs:97-247 | every atomic step of readers, registrations, writer, pass and other managers keeps the invariant |
| Qsbr.RunInv | src/core/qsbr.rs:97-247 | so does every run |
| Qsbr.NoUseAfterDrop | src/core/qsbr.rs:197-247 | in no interleaving is an object dropped that some reader has loaded since it entered |
| Qsbr.LoadedIsSafe | src/core/qsbr.rs:97-113 | the object that a reader loads from a cell is not dropped before that reader's next `leave`, whatever happens meanwhile |
| Qsbr.DroppedOnce | src/core/rcu.rs:42-61 | no object is dropped twice, and none is dropped while it is published, pending or queued |
| Qsbr.PassRetains | src/core/qsbr.rs:229-247 | a pass, interleaved with anything, leaves exactly the entries at least as young as the minimum epoch it found, in order |
| Qsbr.QuiescentPassEmpties | src/core/qsbr.rs:229-247 | a pass that finds every online worker quiescent empties the queue |
| Qsbr.ListIsAcyclic | src/core/query.rs:711-737 | the worker list ends, meets no node twice, and meets every worker whose registration has completed |
| Qsbr.RegistrationsStay | src/core/query.rs:711-737 | the list only ever grows at its front |
| Qsbr.ScanVisitsAll | src/core/qsbr.rs:233-242 | a scan visits exactly the workers registered when it loaded the head, each once, whatever is registered meanwhile |
| Qsbr.MinEpochIsLeast | src/core/qsbr.rs:231-242 | the epoch the walk computes is the least of the current epoch and the non-zero samples |
| Qsbr.RetainOrDiscard | src/core/qsbr.rs:246-246 | what is retained and what is dropped together are the queue, split by the epoch |
| QsbrRuns.ReplacedIsFreed | src/core/qsbr.rs:197-247 | reclamation makes progress: in every run, an object that a writer has replaced before a pass begins has been dropped when that pass ends, provided that every worker from which the pass reads a non-zero epoch began its last `enter` during the pass |
| QsbrRuns.NothingLeaks | src/core/qsbr.rs:197-203 | in every run whatever was published is published still, pending, queued or dropped |
| QsbrRuns.EnterTakesEpoch | src/core/qsbr.rs:97-100 | among any interference, until it leaves, a worker pins exactly the epoch that was current when its `enter` loaded it |
| QsbrRuns.OfflineIsLastSet | src/core/qsbr.rs:114-123 | after every run a worker is offline if and only if that is the last it said |
| QsbrRuns.AttemptSucceeds | src/core/query.rs:718-735 | in every run one turn of `register_worker` puts the thread in front of the list if and only if nobody registered since it loaded the head; otherwise the list is unchanged and it tries again |
| QsbrRuns.UndisturbedRead | src/core/qsbr.rs:97-113 | `enter`, a load and `leave` are possible from every reachable state in which the worker is quiescent and online, and leave the state as it was |
| QsbrRuns.UndisturbedRegister | src/core/query.rs:711-737 | a registration on its own puts a quiescent, online worker in front of the list and changes nothing else |
| QsbrRuns.UndisturbedReplace | src/core/rcu.rs:42-61 | publishing a new object and retiring the old one on its own: the cell holds a fresh object, the old one waits with the current epoch |
| QsbrRuns.UndisturbedPass | src/core/qsbr.rs:229-247 | a pass whose steps nobody interrupts does exactly what `Manager.Maintenance` does: the same minimum, queue, drops and epoch |
| QsbrRuns.PassGoesOn | src/core/qsbr.rs:229-247 | inside a pass the writer can always take its next step, whatever the others have done |
| QsbrRuns.EpochRises | src/core/qsbr.rs:230-245 | over every run the epoch rises by one per pass and per move of another manager, by at most one more per scan that ends, and otherwise stays |
| QsbrManager.WorkerState.Enter | src/core/qsbr.rs:97-100 | the worker takes over the global epoch |
| QsbrManager.WorkerState.Leave | src/core/qsbr.rs:111-113 | the worker reads as quiescent |
| QsbrManager.WorkerList.Attempt | src/core/query.rs:718-735 | one turn of the compare-exchange loop succeeds exactly when nobody registered in between, and loses nobody who did |
| QsbrManager.WorkerList.Register | src/core/query.rs:711-737 | the list ends up with a fresh, quiescent, online worker at its head, behind it exactly the threads that made its attempts fail, and behind them all others |
| QsbrManager.Manager.DeferFree | src/core/qsbr.rs:197-203 | a non-null pointer is queued with the current epoch, a null pointer is ignored |
| QsbrManager.Manager.OldestEpoch | src/core/qsbr.rs:231-242 | the walk over the linked nodes computes the minimum over all online workers |
| QsbrManager.Manager.RetainFrom | src/core/qsbr.rs:246-246 | keeps the young entries in order and drops exactly the others |
| QsbrManager.Manager.Maintenance | src/core/qsbr.rs:229-247 | one pass: queue, drops and epoch afterwards, with the second increment exactly when nobody holds it back |
| Storage.ScanZeros | src/io/storage.rs:219-231 | zero padding scans as empty frames to less than four bytes before the end |
| Storage.BlanksIndexNothing | src/io/storage.rs:224-226 | empty frames never enter the index |
| Storage.ScanPadded | src/io/storage.rs:211-250 | a padded file scans as its log followed by empty frames |
| Storage.RebuildReproduces | src/io/storage.rs:211-250 | a rebuild of the padded file finds the same index and content, and stops where the file can be continued as a log |
| Frames.TornNeverMeets | src/io/storage.rs:226-230 | after a torn tail no later scan meets a frame at the rebuilt offset, whatever is written there |
| Storage.WriteAfterOpen | src/io/storage.rs:211-250 | after opening any file and writing one record, a scan meets that record at the rebuilt offset if and only if the file had no torn frame; otherwise the torn frame swallows it |
| Storage.PeekExact | src/io/storage.rs:224-226 | an id is found in exactly the records that begin with its eight bytes |
| Storage.RecordOutcome | src/io/storage.rs:532-549 | a record is read exactly when it begins with the encoding of an entity; reading it panics exactly when one of its attribute maps breaks |
| Storage.LastOf | src/io/storage.rs:224-226 | the index leads to an id's last record |
| Storage.IndexFrames | src/io/storage.rs:468-470 | every index entry frames exactly the latest record of its id |
| Storage.ContentSince | src/io/storage.rs:653-658 | the content of the log is what it was at a snapshot, overlaid with the records at or beyond the snapshot's offset |
| Storage.JobCopies | src/io/storage.rs:639-649 | one turn of the first copy loop copies one snapshot record, wherever later writes went, and never meets an offset to skip |
| Storage.DeltaCopies | src/io/storage.rs:664-671 | one turn of the second copy loop copies one record written since the snapshot |
| Storage.DeltaDone | src/io/storage.rs:664-698 | both loops together leave the content of the log, in a file that holds nothing else |
| Storage.ScanFile | src/io/storage.rs:217-231 | the scan loop computes the index of all frames and the offset where it stops |
| Storage.FirstByOffset | src/io/storage.rs:659-659 | the next record in offset order |
| Storage.EntityStore.Open | src/io/storage.rs:185-250 | index and offset after a rebuild; the index swap at its end publishes nothing; the file can be continued as a log if and only if no frame was torn, stray bytes behind the last frame included |
| Storage.EntityStore.Reopen | src/io/storage.rs:211-250 | reopening a file gives back the same index and the same latest records |
| Storage.EntityStore.EnsureRoom | src/io/storage.rs:440-459 | growth by the record or by a chunk, whichever is more, filled with zeros; the capacity is the file length |
| Storage.EntityStore.WriteEntity | src/io/storage.rs:425-472 | on any store, the bytes, the index entry and the offset after a write; on a sound store and below 4 GiB, the record becomes the latest of its id, no other id changes, readers' published records stay where they are and a compaction under way stays consistent |
| Storage.EntityStore.SwapDiskIndex | src/io/storage.rs:342-351 | publishes the latest records if and only if something changed since the last swap |
| Storage.EntityStore.ReadEntity | src/io/storage.rs:503-549 | returns whatever record the published span frames in the file, panics when the span runs beyond its end, and is thus right unless the file has been replaced since the index was published |
| Storage.EntityStore.ReadBlock | src/io/storage.rs:585-596 | the decoded records of the two blocks, in the order of their ids, unless a compaction replaces the file between two reads; whatever is returned has been decoded |
| Storage.EntityStore.CompactBegin | src/io/storage.rs:628-638 | the snapshot: everything is still to do |
| Storage.EntityStore.CompactCopy | src/io/storage.rs:639-649 | one snapshot record is copied, or dropped if the file does not reach that far; the store, and what was copied so far, stay consistent |
| Storage.EntityStore.CompactDelta | src/io/storage.rs:653-671 | the temporary file holds the snapshot's records and those written since, the latter in the order of their old offsets |
| Storage.EntityStore.CompactFinish | src/io/storage.rs:650-699 | the latest record of every id is the same after the swap as before it; the new log starts with what the first phase copied and has one record for each id of the snapshot and one for each id written since; the published index is stale from now on |
| Storage.EntityStore.Compact | src/io/storage.rs:623-702 | an enabled step snapshots, copies one record, or replaces the file; none, on any store, changes what is published, and on a sound store none changes the latest records |
| Storage.OneEach | src/io/storage.rs:650-699 | a log with as many records as ids holds one record for each id |
| Storage.CompactAll | src/io/storage.rs:623-702 | `Begin`, one `CopyOne` for each id and `Finish` leave one record for each id |
| Storage.EntityStore.CompactSome | src/io/storage.rs:623-702 | nor does any number of them |
| Storage.RunStore | src/io/storage.rs:425-702 | any interleaving of writes, index swaps and compaction steps does to the store what it does to two maps, two flags and a counter without any file: latest records, published records, dirty, replaced, and records still to copy |
| Storage.OnlyWritesMatter | src/io/storage.rs:425-702 | so the latest records are those of the writes alone |
| Wal.WholeQueued | src/io/wal.rs:340-345 | queueing a group keeps written, local and queued bytes equal to everything appended |
| Wal.WholeTaken | src/io/wal.rs:213-228 | swapping the queue out, and merging late arrivals behind it, loses and reorders nothing |
| Wal.WholeMoved | src/io/wal.rs:234-236 | handing over any part of a buffer loses and reorders nothing |
| Wal.CrashImage | src/io/wal.rs:231-240 | whatever prefix of the written bytes survives, a scan of a file that was clean when it was opened meets exactly the payloads, old and new, whose frames are complete |
| Wal.ReopenedImage | src/io/wal.rs:171-176 | whatever the file held, old frames are still met, and the first new one is met if and only if the file was clean |
| Wal.StdWal.constructor | src/io/wal.rs:167-253 | the file is opened for appending behind whatever it holds; a later scan can rely on it if and only if it is clean |
| Wal.StdWal.Flusher | src/io/wal.rs:204-243 | each step, exactly when it is enabled, collects, merges, hands over, spills or flushes; none loses or reorders anything |
| Wal.StdWal.AppendBatch | src/io/wal.rs:322-359 | the commands' frames are appended in order; an empty batch touches nothing; a synchronous append has reached the file |
| Wal.StdWal.Append | src/io/wal.rs:274-305 | the same for one command |
| Wal.StdWal.Collect | src/io/wal.rs:207-214 | the flusher takes the whole queue |
| Wal.StdWal.Merge | src/io/wal.rs:221-228 | what was queued during the pause goes behind what was taken before |
| Wal.StdWal.WriteSome | src/io/wal.rs:234-236 | the next buffer is handed over, in any portions |
| Wal.StdWal.FinishRound | src/io/wal.rs:237-239 | after a round everything written is in the file |
| Wal.StdWal.Checkpoint | src/io/wal.rs:375-386 | everything written is in the file; what is queued is not covered |
| Wal.StdWal.ReadAll | src/io/wal.rs:398-408 | a prefix of everything appended, and all of it once nothing is queued |
| Wal.RunWal | src/io/wal.rs:167-359 | over whatever file an earlier session left, in any interleaving of appenders, flusher and checkpoints nothing appended is lost, repeated or reordered |
| Wal.Drain | src/io/wal.rs:204-243 | the flusher left alone puts everything appended into the file |
| Records.LastWrite | src/engine/partition.rs:398-402 | an entity's record is that of the last step that wrote it: inserts replace and do not merge |
| Records.LastStep | src/engine/partition.rs:375-410 | the state of an entity is what the last step that touches its id made it: the last item under that id in a batch, a block or an insert, the three fields of a fast insert, or the tombstone of a delete |
| Records.FastRecord | src/engine/partition.rs:316-336 | a fast insert stores its payload under the bytes of "payload", its epoch under "epoch" and its record type under "type" |
| Records.RecordGives | src/engine/partition.rs:386-397 | an item's record gives a name its blob, else its int, else its string |
| Records.ResolvesGrows | src/core/rcu.rs:12-14 | a pointer map that resolves to a state still does against any later columns |
| Records.ResolvesInsert | src/engine/partition.rs:398-402 | pointing an entity at new indices replaces its whole record and no other |
| Records.BackedAdd | src/engine/partition.rs:386-397 | one more cell, noted under its name, replaces that attribute, of whatever kind it was |
| Records.DirectConcat | src/engine/partition.rs:532-603 | appending cells in parts is appending them all |
| Records.ReaderExact | src/core/query.rs:485-573 | a lookup whose loads fall on any three successive moments agrees with the state after a prefix of the steps, if and only if the attribute has not another kind there while the column asked for holds something at its index |
| Records.ReaderSeesPrefix | src/core/query.rs:485-573 | for a name used with one kind it always agrees, and successive pointer loads stand for longer prefixes |
| Records.RecordAtomicity | src/core/query.rs:605-625 | with "payload", "epoch" and "type" used with one kind each, the triple of `get_signed_record`, although read at six later moments, is that of one single write, the entity's last in the prefix |
| Records.SignedExact | src/core/query.rs:605-625 | `get_signed_record` succeeds if and only if the entity's record in the prefix of the pointer holds a blob under "payload" and ints under "epoch" and "type", and then gives these three values |
| Records.SignedFast | src/core/query.rs:605-625 | after a fast insert was the last to touch the entity it gives the payload, the epoch and the record type of that insert |
| Records.RecordFromOrder | src/engine/partition.rs:386-397 | the three insert loops build the item's record for every iteration order |
| Records.IterationOrder | src/core/commands.rs:123-131 | some order of a map's entries, each once |
| Records.ColumnsUsed | src/engine/partition.rs:478-531 | a column exists only if some inserted item names it with that kind |
| Engine.WrittenReads | src/io/storage.rs:50-112 | a stored record below 4 GiB is read back as it was |
| Engine.BlockReads | src/io/storage.rs:585-596 | `read_block` gives what the disk has of the window, and never panics on records that were written by the store |
| Engine.WindowIds | src/io/storage.rs:585-590 | the window is 64 ids from the aligned start |
| Engine.ColdLoadEffect | src/engine/partition.rs:349-356 | a cold load gives every id of its window that the published index holds its disk record, and touches no other id |
| Engine.ColdLoadPreserves | src/engine/partition.rs:338-361 | it leaves every resident entity as it was if and only if each resident id of the window that is on disk has the same record there |
| Engine.PlaceExact | src/engine/partition.rs:545-554 | a cell takes the last waiting row or a new one at the end, and no other row changes |
| Engine.CachePush | src/engine/partition.rs:545-554 | a cell pushed into the cache is a cell pushed to the column; it never goes to a waitlist row |
| Engine.CacheFlush | src/engine/partition.rs:37-43 | flushing a column changes what is published and not what the writer sees, and frees its guard |
| Engine.Partition.AcquireLock | src/core/column.rs:375-381 | panics exactly when the guard is held |
| Engine.Partition.GetOrCreateColumn | src/engine/partition.rs:480-495 | an existing column is kept; a new one is published empty |
| Engine.Partition.OpenColumn | src/engine/partition.rs:538-544 | `acquire_lock` never panics, and from now on the guard is held because the column is cached |
| Engine.Partition.InsertCached | src/engine/partition.rs:532-603 | the cell is appended to its column and its index returned; no row is ever reused |
| Engine.Partition.InsertEntries | src/engine/partition.rs:386-397 | one loop appends its cells and extends the record the indices lead to |
| Engine.Partition.InsertRecord | src/engine/partition.rs:413-439 | the entity's pointer leads to exactly the item's record and no other pointer changes |
| Engine.Partition.ProcessInsert | src/engine/partition.rs:375-410 | the same, whatever the storage holds; on a sound store the record is the latest on disk |
| Engine.Partition.ProcessDelete | src/engine/partition.rs:307-315 | the entity becomes a tombstone; the disk is not touched |
| Engine.Partition.FlushKind | src/engine/partition.rs:36-43 | every cached column of one kind is published, and no other |
| Engine.Partition.Flush | src/engine/partition.rs:35-60 | what is published is what was cached, and every guard is free |
| Engine.Partition.PublishPointers | src/engine/partition.rs:366-367 | from now on readers see every step so far |
| Engine.Partition.ProcessWrite | src/engine/partition.rs:279-337 | each write command is one step of the log, with its inserts on disk |
| Engine.Partition.LoadBlock | src/engine/partition.rs:349-349 | the block is what the published index leads to unless the file was replaced; whatever it is, its items are proper |
| Engine.Partition.ProcessLoad | src/engine/partition.rs:338-361 | a resident entity is only published; otherwise the block read is promoted; the response is the published pointer; a load panics only on a replaced or unsound file |
| Engine.Partition.RunBackground | src/engine/partition.rs:196-220 | the compaction thread touches nothing that readers see |
| Engine.Partition.RunCommands | src/engine/partition.rs:277-364 | command by command, with compaction steps in between, the log gets the steps that the commands and the blocks they read stand for; only a load can end it early |
| Engine.Partition.ApplyBatch | src/engine/partition.rs:274-372 | on any store and with any compaction steps meanwhile: the batch's steps are in the log, everything is published, the columns equal direct appends without any cache, the guards are free, and the disk index is published when it changed; without a compaction finishing, no load panics and each reads what the index leads to |
| Engine.Partition.ReplayWal | src/engine/partition.rs:461-477 | on any store, exactly the decodable commands of the complete frames are applied, in order, up to the first that makes a decoder panic |
| Engine.ReadersSeePrefix | src/core/query.rs:454-573 | every lookup at any moments of any run, including halfway through a flush, during a compaction and after the writer thread has died, sees the state after a prefix of the steps |
| Engine.SignedRecordsAreWhole | src/core/query.rs:605-625 | every signed record that a reader of the engine gets comes from one single write |
| Engine.SignedRecordsExact | src/core/query.rs:605-625 | the same equivalence for every reader of the engine, at any seven moments |
| Engine.FastInsertReads | src/engine/partition.rs:316-336 | any fast insert, applied to any partition that uses the three names with one kind each, is read back by `get_signed_record` as its payload, epoch and record type, in that order |
| Engine.RunLogConcat | src/engine/partition.rs:221-263 | the log of two batches is the log of one batch that holds both |
| Engine.RunEngine | src/engine/partition.rs:193-271 | in any interleaving of batches and compaction steps the log is what the executed commands and the blocks they read stand for, the disk holds the last item inserted under every id, and readers keep seeing prefixes; only a load can end the run, and only on a replaced or unsound file |
| Engine.CompactBetween | src/engine/partition.rs:193-271 | a compaction between two batches loses no command, and the index is right again after the second |
| Engine.DecodedAdmissible | src/core/commands.rs:298-417 | what the decoder accepts has the kinds and the UTF-8 that the types promise |
| Engine.ReadProper | src/io/storage.rs:81-112 | so has every entity that is read back |
| Query.GetNodeSeesOnePrefix | src/core/query.rs:325-335 | a `Get` node, whose three lookups load the pointers anew, gives the attribute as it was at one of these moments |
| Query.GetNodeExact | src/core/query.rs:325-335 | for names used with any kinds: a `Get` node whose lookups happen at the same moments gives the attribute of the prefix if and only if no column asked before the attribute's own, ints first and blobs last, holds a cell at its index |
| Query.IdleGet | src/core/query.rs:325-335 | between batches it gives the attribute as the last write left it |
| Query.CellKinds | src/engine/partition.rs:532-603 | a published row holds a value, and of the kind of its column |
| Query.ColumnIsHistory | src/engine/partition.rs:532-603 | a column holds everything ever written to it, in order |
| Query.ScanSeesHistory | src/core/query.rs:379-420 | a scan gives the first so many values ever written, superseded ones included, and later scans give no less |
| Query.Scan | src/core/query.rs:379-420 | the int column of that name, or else the string column, or else the blob column, or nothing; its loop gives the present rows in order |
| Query.PresentConcat | src/core/query.rs:382-382 | flattening distributes over concatenation |
| Query.Aggregate | src/core/query.rs:422-450 | one pass with running totals gives the sum, the count, the extremes or the exact quotient of the int column, and nothing when there is no such column or no row to average |
| Query.SumConcat | src/core/query.rs:427-427 | the total of no rows is 0, and totals of parts add up |
| Query.SumOne | src/core/query.rs:427-427 | one int counts with its value |
| Query.IntsConcat | src/core/query.rs:429-430 | the ints of two parts are those of the whole, in order |
| Query.TotalRises | src/core/query.rs:422-450 | inserting one int raises the total of its column by exactly that int, whether or not it replaces a value, and changes no other total |
| Query.AggregatesNeverShrink | src/core/query.rs:422-450 | `Sum` and `Count` never go down, whatever is replaced or deleted |
| Query.IdleAggregates | src/core/query.rs:422-450 | between batches the values and their total are those of everything ever written |
| Query.Least | src/core/query.rs:429-429 | the minimum, or 0 for an empty column |
| Query.Greatest | src/core/query.rs:430-430 | the maximum, or 0 for an empty column |
| Query.ExtremesWiden | src/core/query.rs:422-450 | `Min` never goes up and `Max` never goes down, whatever is replaced or deleted |
| Query.IdleExtremes | src/core/query.rs:422-450 | between batches they are the extremes of everything ever written |
| Query.RangeReadsOn | src/core/query.rs:356-378 | a range, loaded at any moments after the pointer, starts with the entity's own value and goes on with whatever was written to the column next |
| Query.RangeSplit | src/core/query.rs:366-372 | a longer range is a range followed by the next one, and a range of one row is its value or nothing |
| Query.RangeStarts | src/core/query.rs:361-364 | the index it starts from leads to the attribute's value in the prefix of the pointer |
| Recovery.LoggableFits | src/core/commands.rs:228-293 | a command that is shorter than 4 GiB when encoded has no count and no length beyond a `u32` |
| Recovery.ReplayRecords | src/engine/partition.rs:461-477 | replaying intact payloads gives the commands back |
| Recovery.CutReplays | src/engine/partition.rs:461-477 | a log cut at any byte replays as exactly the commands whose frames are complete, without a panic |
| Recovery.ReopenedReplays | src/engine/partition.rs:461-477 | a clean log that is appended to and cut at any byte replays as the old commands and those of the new ones whose frames are complete |
| Recovery.RecoveredStays | src/engine/partition.rs:461-477 | what one replay recovered, torn file or not, every later replay recovers again, first and in order |
| Recovery.Recover | src/engine/partition.rs:461-477 | replayed into an empty partition, over whatever entity file a crash left, a log of any number of sessions leaves exactly the state of those commands, which are all that fit before the cut |
| Recovery.BatchCommands | src/engine/partition.rs:228-257 | however commands are grouped into batches, the write commands take effect in order |
| Recovery.OrderWrites | src/engine/partition.rs:248-253 | the write commands of a batch, in order, as they are encoded |
| Recovery.Writer.LogBatch | src/engine/partition.rs:248-256 | the batch is in the log before anything of it is applied |
| Recovery.Writer.ApplyPending | src/engine/partition.rs:257-257 | the logged batch is applied, and only it; when a load panics halfway, what has taken effect is still in the log |
| Recovery.Writer.constructor | src/engine/dispatcher.rs:491-504 | a session goes on from the partition that has just been replayed from the same file |
| Recovery.CrashLeavesPrefix | src/io/wal.rs:204-243 | at every moment of a session over a clean file, whatever part of the file survives replays as the old commands and a prefix of those logged since |
| Recovery.NothingSeenIsLost | src/engine/partition.rs:248-257 | with a synchronous log that was clean when the session started, at every moment, the commands behind every pointer map that was ever published are among those that a replay applies |
| Recovery.FirstCommandMet | src/io/wal.rs:171-176 | that condition is exact: the first command of a session is met by a replay if and only if the file was clean |
| Recovery.DrainThenCrash | src/io/wal.rs:204-243 | with an asynchronous log the same holds for all commands once the flusher has drained its queue |
| Recovery.CommandsRebuild | src/engine/partition.rs:461-477 | the commands alone rebuild every entity that no cold load was the last to touch |
| Recovery.Restart | src/engine/partition.rs:461-477 | a replay after an orderly stop takes exactly the steps that were commands, and every entity that no cold load was the last to touch has the record it had |
| Recovery.StartSession | src/engine/dispatcher.rs:491-504 | opening the log and any entity file, and replaying; only a decoder that panics keeps the session from starting |
| Recovery.RunSession | src/engine/partition.rs:221-263 | one session: it starts unless a decoder panics, every turn is made unless a load panics, what it logged is what its turns wrote, and the crash leaves a cut of what the log's writer was handed |
| Recovery.SessionLeaves | src/io/wal.rs:274-359 | what a session leaves is a cut of the old file and what it logged; with a synchronous log a crash that cuts nothing leaves it all |
| Recovery.SessionsRecover | src/engine/partition.rs:461-477 | over any number of sessions, as long as none starts behind a torn frame, the log replays as exactly what each session added and its crash left complete |
| Recovery.RunSessions | src/engine/dispatcher.rs:491-504 | the same for whole runs over one log file, in which every session makes all its turns unless it did not start or a load panicked |
| Limits.MistypedRead | src/engine/partition.rs:386-397 | a run in which a name is used with two kinds and one entity's attribute reads as another entity's value |
| Limits.StaleIndexPanics | src/io/storage.rs:503-549 | a run in which a read that worked panics after a compaction, because the published offset lies beyond the end of the new file, and works again after the next index swap |
| Limits.StaleIndexMisreads | src/io/storage.rs:503-549 | a run in which a read after a compaction returns the record of another entity |
| Limits.TornFileLoses | src/io/storage.rs:211-250 | a four-byte file after which a record that was written and indexed is gone at the next rebuild |
| Limits.TornLogLoses | src/io/wal.rs:171-176 | a session over a four-byte log in which a synced delete that readers have seen is not replayed |
| Limits.CutIsCompleted | src/engine/partition.rs:464-475 | a cut insert is completed with the bytes of the next frame, and replays as a record that nobody wrote |
| Limits.MalformedPanics | src/core/commands.rs:298-417 | a 17-byte command that makes the decoder panic |
| Limits.TombstoneReturns | src/engine/partition.rs:342-356 | a run in which a deleted entity comes back because a neighbour was looked up |

## Left out

- Weak memory: atomics are sequentially consistent in `Qsbr`; reordering under Acquire and Release is not modelled.
- Qsbr.NoUseAfterDrop: assumes that `enter` is not nested, that a worker goes offline only when it is quiescent, and that it enters only while it is online; neither `enter` nor `force_offline` checks this, and nothing in the repository calls the latter.
- References kept by a session: a lookup of a cold entity leaves and enters again (`src/core/query.rs:454-483`), and only what is loaded after the last `enter` is protected, so values that a callback keeps from an earlier node are not covered.
- Qsbr.ScanVisitsAll: is about one manager's list; other managers appear only through the shared epoch.
- Unbounded numbers: offsets, counters, lengths and epochs do not overflow; the casts to `u32`, where the source truncates, are modelled.
- Storage.EntityStore.WriteEntity: keeps the log invariant only for records below 4 GiB, because the frame's length is cast to `u32`; the engine's contracts about the disk, and only those, carry the same condition.
- Engine.ReadersSeePrefix: requires that the name looked up is not used with two kinds; `Records.ReaderExact` has the exact condition.
- Codec.DecodeFrom: memory is unlimited; a sound header with a huge count makes the source reserve that many slots before it reads an entry.
- Recovery.NothingSeenIsLost: requires a log file that was clean when the session started; behind a torn frame the code loses commands, and `Recovery.FirstCommandMet` has the exact condition.
- Recovery.Writer.LogBatch: requires that each command is shorter than 4 GiB when encoded, because the frame's length is cast to `u32`.
- Recovery.Restart: requires the same, and an entity that a cold load was the last to touch may differ, because a promotion is not logged.
- Engine.Partition: the locals of `apply_batch_commands` are fields, and each column's data pointer, waitlist and guard are entries of three maps, so sharing of a column between several owners is not captured.
- Engine.Partition.InsertRecord: uses the specification of `push` and `set` on rows; that the packed column meets it is proved in `Column`.
- Storage.EntityStore.CompactCopy: a file operation fails only when it reads beyond the end of the file, which drops the record as in the source; one compaction runs at a time.
- Storage.EntityStore.ReadEntity: the reader's memory map always shows the file as it is.
- Storage.EntityStore.ReadBlock: the window wraps at the largest ids, as in a release build; a debug build panics there.
- Wal.StdWal: the writer is open and writing succeeds; timing of the pause and of the flush is arbitrary.
- Deadlock freedom: `write_entity` and `compact` take the offset and index locks in opposite orders; locked sections are single steps here.
- Records without a log: `Delete` never touches the storage, so deletes are recovered only from the write-ahead log.
- The hot index, the Bloom filter, the hit cache and the hot read path, which computes the same as the cold one.
- Raw reservations (`reserve_zero_copy_buffer`, `reserve_mmap_space`) and their commits, which hand memory to callers.
- `QueryNode::Link` composes two lookups, which may see two prefixes.
- Query.Aggregate: the average is the exact quotient, where the source divides two `f64`; totals stay below 2^64.
- The posting lists of `src/engine/index.rs`, the facade, dispatcher, archive and audit code.
