# LevelDB and nanopb, modelled and proved

The repository vendors two engines, LevelDB 1.20 and nanopb 0.3.8. This project models their logic and proves what they are
for. `dafny verify dfyconfig.toml` checks all of it.

**The store** (`Keys`, `Lsm`, `Compaction`, `CompactionLookup`, `Overlap`, `Pick`, `Engine*`, `KeySeparation`,
`Background`). The specification is a set of entries (user key, sequence number, put or delete); a read at a snapshot takes
the newest entry at or below it. The implementation is a memtable, an immutable memtable, overlapping level-0 files and six
sorted levels. `Engine` is the state machine of writes, memtable switches, flushes, compactions, trivial moves and
snapshots; in every run, every read at the latest sequence number or at a live snapshot is what the full history of writes
says (`RunReadsHistory`), which is to say the last write of the key, in the order of batches and of the operations inside
them (`LastWriteWins`, in `EngineReads`). The imperative code of lookup, flush and compaction is proved to take exactly the
machine's steps.

**What the code does not check.** `DBImpl::Get` stops at the first level with a hit. A compaction therefore changes an
answer in one of two ways: a key is *exposed* (a deletion marker is dropped while an older value stays outside the inputs)
or *misled* (a newer version moves down past an older one left behind in the upper level). No answer changes if and only if
no key is exposed or misled (`CompactionKeepsLookupsIff`); the reads of the union of all entries alone change exactly when a
key is exposed (`ReadsPreservedIff`). Lookups find the newest entry afterwards if and only if no file left in the upper
level has an older entry of an output's key (`CompactionIsExactIff`). The code chooses inputs in levels below 0 without
adding a neighbour that shares a boundary user key, and its outputs may be cut inside a user key, so all this can fail:
`EngineLimits` has a stale version that is read and a deleted value that comes back. The engine's theorem is for *closed*
choices of inputs. Every choice is closed while no two files of a sorted level share a user key, which holds in every run
whose outputs are cut only between user keys (`RunStaysClosed`).

Automatic compactions have no gap in their key range, which is what keeps a concurrent flush apart from their outputs. A
manual compaction may have one; flushing during it is safe if and only if the output level is too deep for a flush or every
key range free down to it has all kept entries on one side (`FlushIsSafeIff`).

**Durability** (`Durability`, `DurabilityProofs`, `DurabilityReads`) is a second state machine, of logs, tables and the
manifest, with crashes, failed manifest writes and reopening at any point. A compaction there keeps what the drop rule keeps
and exposes no key, as proved of the engine (`NothingExposed`); in every run, what the disk holds reads as the whole history
of logged batches, and reopening rebuilds it: every key then reads as the last operation ever logged on it left it. **Group
commit** (`GroupCommit`) is the machine of the writer queue; every operation of every writer that got OK is in log and
memtable, at the sequence number its place in the queue gives (`EveryWriteArrives`).

**Parts.** `SkipList` is the list itself, `SkipListRaces` its interleaving with readers, one load or one store at a time.
`Merger` and `DbIter` are the two iterators, in both directions. `Log*` is the log framing with torn tails, and `LogDamage`
reads files of any bytes: what is returned is exactly what stands intact in them. `Block*`, `Filter*`, `Separator` and
`Table*` are the table format, from bytes to point lookup. `WriteBatch`, `MemTable` and `BatchReads` are batches and
memtable entries as bytes. `Lru` and `LruCache` are the block cache, and `LruList` its circular lists pointer by pointer.
`VersionBuilder`, `VersionEdit` and `EditChecks` are the manifest; many edits at once do what they do one by one under an
exact condition (`BatchedIsStepwiseIff`).

**nanopb** (`Nanopb*`). A descriptor, a message, the wire format (sections "Base 128 Varints", "Signed Integers" and "Packed
Repeated Fields" of the Protocol Buffers Encoding specification), the functional decoder, the round trip, and the
stream-based encoder and decoder proved against them. What arrives of any message is stated exactly (`AnyMessageArrives`):
all of it, except that strings end at their first NUL and that an implicit submessage taken for zero is lost, as
`ArrayIsLost` shows of one that is not zero. `NanopbRequired` leaves fields out, and `NanopbEvolution` decodes what another
sender may write: fields in any order, fields the receiver does not know, fields that occur twice, values out of range.

## Conventions

- In the store and its iterators a user key is a position in the comparator's order, a real number. For the default
  comparator the embedding is written out and proved exact (`RankIsBytewiseOrder`). The table format works on the bytes.
- Files and memtables are sequences of entries except in the log, the tables, the batches, the memtable's own encoding, the
  manifest records and nanopb, where they are bytes.
- A section under a mutex is one step. Loads and stores of the skip list are single steps, sequentially consistent.
- The checksum is any fold of any step over the bytes; only masking is concrete. The hash of the Bloom filter and of the
  cache is any function. The height of a skip-list node is a parameter, as are file sizes, the file a compaction starts
  from, the answers of `ShouldStopBefore`, and the outcomes of input and output.
- `DoCompactionWork` needs the oldest snapshot to be below `kMaxSequenceNumber`: the sequence number before the first entry
  of a key is that constant, so at that snapshot the first entry would be dropped.
- `TableBuilder` files must be smaller than 4 GiB for the lookup theorem, since offsets inside blocks have 32 bits.
- nanopb messages must fit their descriptors: submessages under 4 GiB, and a required-field count that is zero or below 64 and
  no multiple of 32, because for a multiple of 32 the last shift of the bitmap check is undefined. Implicit (proto3) fields
  have zero defaults. The storage behind an unset field or an empty array is zero, as after initialisation.
- A version edit is decoded exactly when the target has no compaction pointers: `Clear` leaves them in place.

## Model

| member | source | states |
|---|---|---|
| Keys.RankIsBytewiseOrder | breakpoint/Pods/leveldb-library/util/comparator.cc:25-27 | Reading byte strings as positions on the real line is exact for the default comparator: order, equality and identity agree, so proofs about positions are proofs about keys |
| Coding.Fixed32RoundTrip | breakpoint/Pods/leveldb-library/util/coding.cc:9-19 | DecodeFixed32 undoes EncodeFixed32, whatever follows |
| Coding.Fixed64RoundTrip | breakpoint/Pods/leveldb-library/util/coding.cc:20-34 | DecodeFixed64 undoes EncodeFixed64, whatever follows |
| Coding.EncodeVarint32 | breakpoint/Pods/leveldb-library/util/coding.cc:47-73 | The unrolled encoder gives the same bytes as the recursive definition of a varint |
| Coding.EncodeVarint64 | breakpoint/Pods/leveldb-library/util/coding.cc:81-90 | The encoding loop gives the same bytes as the recursive definition of a varint |
| Coding.GetVarintPtr | breakpoint/Pods/leveldb-library/util/coding.cc:112-158 | The shifting loops of the 32-bit and 64-bit readers compute the recursive reader, truncated to the width, and fail on the same inputs |
| Coding.VarintRoundTrip | breakpoint/Pods/leveldb-library/util/coding.cc:81-158 | Reading back a varint gives the number and its length, whatever follows |
| Coding.VarintTruncated | breakpoint/Pods/leveldb-library/util/coding.cc:112-158 | A varint cut short is never taken for a number |
| Coding.VarintLengths | breakpoint/Pods/leveldb-library/util/coding.cc:103-110 | 32-bit numbers take at most 5 bytes and 64-bit numbers at most 10, so the byte limits of the readers lose nothing |
| Coding.VarintIsExact | breakpoint/Pods/leveldb-library/util/coding.cc:112-158 | For any bytes: a number is read if and only if bytes with the high bit set and a last one without it stand there within the limit, and it is what their groups of seven bits make, the first lowest |
| Coding.FixedIsLittleEndian | breakpoint/Pods/leveldb-library/util/coding.cc:9-34 | Fixed-width numbers are read as the number their bytes make, the first lowest |
| Lookup.FindFile | breakpoint/Pods/leveldb-library/db/version_set.cc:86-105 | The binary search returns the boundary: every file before it ends before the key, no file from it on does |
| Lookup.SeekTable | breakpoint/Pods/leveldb-library/db/version_set.cc:268-281 | The first entry at or after the lookup key, kept if its user key matches, is the newest visible one; otherwise there is none |
| Lookup.NewestFirst | breakpoint/Pods/leveldb-library/db/version_set.cc:359-373 | The level-0 candidates are exactly the files whose range holds the key, newest file first |
| Lookup.SearchLevel0 | breakpoint/Pods/leveldb-library/db/version_set.cc:355-427 | Searching level 0 file by file and stopping at the first hit gives the newest entry of the whole level |
| Lookup.SearchedFileHasNewest | breakpoint/Pods/leveldb-library/db/version_set.cc:374-390 | The one file searched in a sorted level has an entry at least as new as any later file's, also when a user key straddles two files |
| Lookup.SearchLevel | breakpoint/Pods/leveldb-library/db/version_set.cc:374-427 | Searching one file of a sorted level gives the newest entry of the whole level |
| Lookup.GetFromVersion | breakpoint/Pods/leveldb-library/db/version_set.cc:332-429 | Version::Get answers from the first level with a visible entry, or reports truly that no level has one; when the levels are in order of age, that is the newest visible entry of all of them |
| Lookup.FirstHitIsNewest | breakpoint/Pods/leveldb-library/db/version_set.cc:352-356 | With the levels in order of age, the first level with a hit has the newest entry of all levels |
| Lookup.Get | breakpoint/Pods/leveldb-library/db/db_impl.cc:1109-1154 | DBImpl::Get answers from the first of memtable, immutable memtable and levels that has a visible entry, whatever their order of age; in order of age that is the read of all their entries together |
| Searching.SearchIsRead | breakpoint/Pods/leveldb-library/db/db_impl.cc:1130-1140 | Searching layers of which each is newer than the next, and stopping at the first hit, is reading all of them together |
| DropRule.Compaction.IsBaseLevelForKey | breakpoint/Pods/leveldb-library/db/version_set.cc:1484-1503 | Asked in key order, the forward-only pointers answer exactly whether no deeper file's range holds the key |
| DropRule.DoCompactionWork | breakpoint/Pods/leveldb-library/db/db_impl.cc:887-1065 | However outputs are cut, together they hold exactly the entries the drop rule keeps, in order, and none is empty |
| DropRule.RuleA | breakpoint/Pods/leveldb-library/db/db_impl.cc:951-963 | Looking only at the previous entry of sorted input decides whether a newer version, already visible to the oldest snapshot, hides this one |
| DropRule.KeptIs | breakpoint/Pods/leveldb-library/db/db_impl.cc:951-980 | An entry is kept if and only if it is newer than the oldest snapshot or the version this snapshot reads, and is no deletion marker at or below the snapshot with no deeper file holding its key |
| DropRule.OneVersionLeft | breakpoint/Pods/leveldb-library/db/db_impl.cc:951-963 | Of the versions at or below the oldest snapshot at most one per key is kept |
| CompactionMeaning.ReadsPreservedIff | breakpoint/Pods/leveldb-library/db/db_impl.cc:912-1008 | As far as the set of all entries goes: for all keys and all snapshots in use, reads of the union are unchanged if and only if no key is exposed, that is, has a droppable deletion marker in the inputs as its newest version at the oldest snapshot while its newest version outside the inputs is a value |
| CompactionMeaning.UnexposedReadUnchanged | breakpoint/Pods/leveldb-library/db/db_impl.cc:951-980 | Key by key: an unexposed key reads the same at every snapshot in use |
| CompactionMeaning.ExposedReadChanges | breakpoint/Pods/leveldb-library/db/db_impl.cc:964-980 | Key by key: an exposed key was deleted and reads as present after the compaction |
| CompactionMeaning.DroppedNewest | breakpoint/Pods/leveldb-library/db/db_impl.cc:951-980 | The only entry dropped while some snapshot was reading it is a deletion marker, and then nothing older of its key is kept |
| CompactionLookup.CompactionKeepsLookupsIff | breakpoint/Pods/leveldb-library/db/db_impl.cc:887-1065 | For what DBImpl::Get returns: over all keys and all snapshots in use, a compaction changes no answer if and only if no key is exposed and none is misled, that is, has an entry some snapshot reads in the inputs while the newest older entry of the key left behind in the upper level has another answer |
| CompactionLookup.CompactionIsExactIff | breakpoint/Pods/leveldb-library/db/version_set.cc:1345-1389 | Whatever a compaction keeps of its inputs: afterwards every level-by-level lookup finds the newest entry if and only if no file left in the upper level has an older entry of a key of an output; input selection does not check it |
| CompactionLookup.LookupAfter | breakpoint/Pods/leveldb-library/db/version_set.cc:352-427 | After a compaction a lookup stops above the upper level, in what is left behind there, or below |
| CompactionLookup.MisledLookupChanges | breakpoint/Pods/leveldb-library/db/version_set.cc:1345-1389 | Key by key: a misled key gets another answer at some snapshot in use |
| CompactionLookup.ExposedLookupChanges | breakpoint/Pods/leveldb-library/db/db_impl.cc:964-980 | Key by key: an exposed key gets another answer at the oldest snapshot, also when the search stops in what is left behind |
| Overlap.GetOverlappingInputs | breakpoint/Pods/leveldb-library/db/version_set.cc:531-572 | At level 0 the restart-on-widen loop terminates at the least set closed under overlap that has every file meeting the range; at other levels it returns exactly the files meeting the range |
| Overlap.WideningDecreases | breakpoint/Pods/leveldb-library/db/version_set.cc:552-569 | The termination measure: each restart leaves fewer file ends that can widen the range |
| Overlap.ClosureReached | breakpoint/Pods/leveldb-library/db/version_set.cc:538-571 | When no chosen file widens the range any more, the choice is the least closure |
| Pick.GetRange | breakpoint/Pods/leveldb-library/db/version_set.cc:1224-1247 | The range returned has as ends the least and greatest user key of the files |
| Pick.HullKeepsNoGap | breakpoint/Pods/leveldb-library/db/version_set.cc:1249-1256 | Files that meet the hull of a connected choice leave it connected |
| Pick.ClosureKeepsNoGap | breakpoint/Pods/leveldb-library/db/version_set.cc:1331-1340 | The level-0 closure of a connected seed is connected |
| Pick.SizesAdd | breakpoint/Pods/leveldb-library/db/version_set.cc:58-64 | The bytes of two lists of files are the sum of theirs, and a file alone has its own size |
| Pick.BytesMeeting | breakpoint/Pods/leveldb-library/db/version_set.cc:58-64 | The bytes and the number of the files meeting a range are those of the list summed index by index over the files that meet it |
| Pick.SetupOtherInputs | breakpoint/Pods/leveldb-library/db/version_set.cc:1345-1389 | Exactly these inputs: all files of the next level that meet the hull, or the expansion, taken if and only if it adds files, brings no further file of the next level and the file sizes, summed over their indices, stay below 25 files' worth; they are a legal choice, and a connected first choice stays connected |
| Pick.PickCompaction | breakpoint/Pods/leveldb-library/db/version_set.cc:1329-1343 | An automatic compaction starts from the picked file, at level 0 from its least closure, and ends with the inputs SetupOtherInputs is specified to give; they have no gap in their key range |
| Pick.SomeFileOverlapsRange | breakpoint/Pods/leveldb-library/db/version_set.cc:121-160 | True exactly when some file meets the range, by scan or by binary search |
| Pick.OverlapInLevel | breakpoint/Pods/leveldb-library/db/version_set.cc:495-500 | True exactly when some file of that level of a version meets the range, which may be open at either end |
| Pick.PickLevelForMemTableOutput | breakpoint/Pods/leveldb-library/db/version_set.cc:502-529 | The level chosen is the deepest reachable: a level is passed if and only if it is clear of the range and the sizes of the files that meet the range one level below, summed over their indices, are at most ten files' worth |
| EngineProofs.WriteKeepsInv | breakpoint/Pods/leveldb-library/db/db_impl.cc:1211-1245 | A write keeps the invariant of the engine |
| EngineProofs.FlushKeepsWellOrdered | breakpoint/Pods/leveldb-library/db/db_impl.cc:534-565 | A flush to level 0, 1 or 2 keeps levels disjoint and recency decreasing with depth |
| EngineProofs.FlushKeepsJob | breakpoint/Pods/leveldb-library/db/version_set.cc:502-529 | A flush that lands during a compaction leaves the chosen inputs sound: the new file cannot lie between them, and base-level answers stay exact |
| EngineProofs.OutputLevelIsDisjoint | breakpoint/Pods/leveldb-library/db/version_set.cc:1345-1375 | Outputs and the files left in the output level are disjoint, flushed files included |
| EngineProofs.OutputRecency | breakpoint/Pods/leveldb-library/db/version_set.cc:1345-1411 | Outputs keep their place in the order of age between levels |
| EngineProofs.OlderOutsideInputs | breakpoint/Pods/leveldb-library/db/db_impl.cc:964-975 | When closed inputs contain a droppable deletion marker, no older entry of its key is outside them |
| EngineProofs.NothingExposed | breakpoint/Pods/leveldb-library/db/db_impl.cc:964-980 | A compaction of closed inputs exposes no key, in whatever state later writes and flushes have led to |
| EngineProofs.InstallKeepsReads | breakpoint/Pods/leveldb-library/db/db_impl.cc:887-1065 | A closed compaction preserves the read of every key at every snapshot from its oldest on, in whatever state later writes and flushes have led to |
| EngineProofs.InstallKeepsInv | breakpoint/Pods/leveldb-library/db/db_impl.cc:866-885 | Installing the results of a compaction keeps the invariant of the engine |
| EngineProofs.MoveKeepsInv | breakpoint/Pods/leveldb-library/db/db_impl.cc:719-735 | A trivial move of a closed input keeps the invariant of the engine |
| EngineProofs.NextKeepsInv | breakpoint/Pods/leveldb-library/db/db_impl.cc:686-769 | Every step of the engine keeps the invariant |
| EngineProofs.RunKeepsInv | breakpoint/Pods/leveldb-library/db/db_impl.cc:686-769 | The invariant of the engine holds in every state of every run |
| EngineProofs.RunReadsHistory | breakpoint/Pods/leveldb-library/db/db_impl.cc:1109-1154 | In every run, every key reads, at the latest sequence number and at every live snapshot, as the complete history of writes says |
| EngineReads.BatchInOrder | breakpoint/Pods/leveldb-library/db/write_batch.cc:116-124 | A batch takes effect operation by operation, in batch order, on top of what was there: at the sequence number of its k-th operation every key reads as the first k operations leave it |
| EngineReads.WriteThenRead | breakpoint/Pods/leveldb-library/db/db_impl.cc:1211-1245 | After a write, every key of the batch reads as the last operation on it says, the value put or nothing |
| EngineReads.WriteKeepsTheRest | breakpoint/Pods/leveldb-library/db/db_impl.cc:1211-1245 | After a write, every key outside the batch reads as before |
| EngineReads.WriteKeepsThePast | breakpoint/Pods/leveldb-library/db/db_impl.cc:1211-1245 | A write changes no read at an earlier sequence number |
| EngineReads.LastWriteWins | breakpoint/Pods/leveldb-library/db/db_impl.cc:1109-1154 | In every state of every run, every key reads as the last of all operations written left it, at the latest sequence number, or the last before the snapshot, at a live snapshot |
| EngineReads.GetInRun | breakpoint/Pods/leveldb-library/db/db_impl.cc:1109-1154 | DBImpl::Get executed in any reachable state answers with the last write of the key, of all writes or of those before the snapshot |
| EngineLimits.TrivialMoveIsExactIff | breakpoint/Pods/leveldb-library/db/version_set.cc:1466-1474 | A trivial move leaves level-by-level lookups exact if and only if no file left in the level has an older entry of a key of the moved file; input selection does not check it |
| EngineLimits.ClosedMisleadsNone | breakpoint/Pods/leveldb-library/db/version_set.cc:1345-1389 | A closed choice of inputs misleads no lookup |
| EngineLimits.BoundaryFileBreaksLookup | breakpoint/Pods/leveldb-library/db/version_set.cc:1305-1313 | Witness: two versions of a key straddling two files, the newer chosen alone; afterwards the lookup finds the stale one |
| EngineLimits.BoundaryFileRevivesDeletedKey | breakpoint/Pods/leveldb-library/db/version_set.cc:1413-1446 | Witness: with a deletion marker in place of the newer version, the deleted value comes back |
| EngineLimits.FlushIsSafeIff | breakpoint/Pods/leveldb-library/db/version_set.cc:1413-1446 | Whatever is flushed into the output level during a compaction, and wherever the outputs are cut, the level comes out disjoint if and only if it is too deep for a flush or every key range free down to it has all kept entries on one side |
| EngineLimits.NoGapIsOneSided | breakpoint/Pods/leveldb-library/db/version_set.cc:1329-1343 | Inputs without a gap, as automatic compactions choose them, meet that condition |
| EngineLimits.ManualGapIsUnsafe | breakpoint/Pods/leveldb-library/db/version_set.cc:1413-1446 | Witness: two files of a manual compaction with a gap between them do not |
| KeySeparation.SeparateIsClosed | breakpoint/Pods/leveldb-library/db/version_set.cc:1345-1389 | While no two files of a sorted level share a user key, every choice of inputs is closed |
| KeySeparation.NextKeepsSeparate | breakpoint/Pods/leveldb-library/db/db_impl.cc:686-769 | Every step of the engine keeps it so, if outputs are cut only between user keys |
| KeySeparation.RunStaysClosed | breakpoint/Pods/leveldb-library/db/db_impl.cc:686-769 | In every run whose outputs are cut only between user keys, every choice of inputs in every state is closed |
| Background.CompactMemTable | breakpoint/Pods/leveldb-library/db/db_impl.cc:534-565 | The flush code takes exactly a flush step of the engine |
| Background.StartCompaction | breakpoint/Pods/leveldb-library/db/db_impl.cc:710-712 | Automatic input selection is a legal start of a compaction whenever its choice is closed |
| Background.FinishCompaction | breakpoint/Pods/leveldb-library/db/db_impl.cc:887-1065 | The compaction loop and the installation take exactly an install step |
| Background.FilesOfPieces | breakpoint/Pods/leveldb-library/db/db_impl.cc:930-936 | Pieces cut at any points become sorted files, one before the other, that hold exactly the kept entries |
| DurabilityProofs.CommitFlushKeepsInv | breakpoint/Pods/leveldb-library/db/db_impl.cc:534-565 | Committing a flush keeps every entry either in a table the manifest names or in a log that will be replayed, and every read as the history has it, also when the manifest write fails or is lost |
| DurabilityProofs.CommitJobKeepsInv | breakpoint/Pods/leveldb-library/db/db_impl.cc:866-885 | Committing a compaction whose outputs are what the drop rule keeps leaves every key reading, from the tables and logs a reopening would use, as the history says, also when the manifest write fails or is lost |
| DurabilityProofs.InstallAgrees | breakpoint/Pods/leveldb-library/db/db_impl.cc:866-885 | Replacing the inputs by what the drop rule keeps leaves every read at or above the compaction's snapshot as the history has it |
| DurabilityProofs.DeleteLogKeepsInv | breakpoint/Pods/leveldb-library/db/db_impl.cc:218-272 | Obsolete-file deletion removes no log that is still needed |
| DurabilityProofs.DeleteTableKeepsInv | breakpoint/Pods/leveldb-library/db/db_impl.cc:218-272 | Obsolete-file deletion removes no table of the current version, of pending outputs, or of the manifest on disk |
| DurabilityProofs.CrashKeepsInv | breakpoint/Pods/leveldb-library/db/db_impl.cc:274-363 | A crash at any point leaves a sound disk |
| DurabilityProofs.ReplayKeepsInv | breakpoint/Pods/leveldb-library/db/db_impl.cc:365-456 | Replaying one log keeps the invariant |
| DurabilityProofs.ReplayedTablesInOrder | breakpoint/Pods/leveldb-library/db/db_impl.cc:365-456 | Tables written during replay are numbered in the order of age level 0 needs |
| DurabilityProofs.NextKeepsInv | breakpoint/Pods/leveldb-library/db/db_impl.cc:1318-1379 | Every step of writing, switching, flushing, compacting, deleting, crashing and reopening keeps the invariant |
| DurabilityProofs.RunKeepsInv | breakpoint/Pods/leveldb-library/db/db_impl.cc:1318-1379 | The durability invariant holds in every state of every run, with crashes and failed manifest writes anywhere |
| DurabilityProofs.DiskIsAlwaysComplete | breakpoint/Pods/leveldb-library/db/db_impl.cc:274-363 | In every run and at every moment, the tables the manifest names and the logs from its log number on hold exactly the logged entries no compaction discarded, none twice, and every key reads from them as in the whole history, at every sequence number no compaction has gone beyond |
| DurabilityProofs.MemoryIsComplete | breakpoint/Pods/leveldb-library/db/db_impl.cc:1318-1379 | While the process is healthy, memory and tables hold the same entries, every key reads from them at the last sequence number as in the whole history, and the next sequence numbers are unused |
| DurabilityProofs.ReopeningRebuilds | breakpoint/Pods/leveldb-library/db/db_impl.cc:274-363 | Reopening rebuilds the fold of all logged batches: every key reads from the tables, at a last sequence number at least any of theirs, as in the whole history, under a new log number |
| DurabilityReads.HistoryReads | breakpoint/Pods/leveldb-library/db/db_impl.cc:365-456 | The history of every run reads as the operations of its logged batches applied one after the other, batches in log order and operations in batch order |
| DurabilityReads.ReopenedReadsLastWrite | breakpoint/Pods/leveldb-library/db/db_impl.cc:274-363 | After reopening, whatever crashes came before, every key reads from the tables as the last operation logged on it left it |
| DurabilityReads.RunningReadsLastWrite | breakpoint/Pods/leveldb-library/db/db_impl.cc:1318-1379 | A healthy process reads every key, from memory and tables, as the last operation logged on it left it |
| WriteBatches.BatchReadBack | breakpoint/Pods/leveldb-library/db/write_batch.cc:42-80 | A batch read back gives its updates, in order, and OK |
| WriteBatches.BatchTruncated | breakpoint/Pods/leveldb-library/db/write_batch.cc:42-80 | A batch cut short anywhere is reported corrupt, and only a prefix of its updates has been handed over |
| WriteBatches.WriteBatch.Append1 | breakpoint/Pods/leveldb-library/db/write_batch.cc:98-109 | Put and Delete add one update at the end and keep the count right |
| WriteBatches.WriteBatch.Append | breakpoint/Pods/leveldb-library/db/write_batch.cc:141-145 | The updates of one batch after those of the other, under the first one's sequence number |
| WriteBatches.WriteBatch.SetSequence | breakpoint/Pods/leveldb-library/db/write_batch.cc:94-96 | Only the sequence number changes |
| WriteBatches.InsertInto | breakpoint/Pods/leveldb-library/db/write_batch.cc:42-134 | For any bytes: too short a header is reported corrupt and changes nothing; otherwise the memtable gets the updates up to the first bad record, numbered consecutively, and the status is OK exactly when all records are good and as many as the header says |
| MemTables.InternalKeyParts | breakpoint/Pods/leveldb-library/db/dbformat.cc:12-21 | An internal key is taken apart into the user key, sequence number and type it was made of |
| MemTables.MemEntryReadBack | breakpoint/Pods/leveldb-library/db/memtable.cc:82-106 | The key and the value of an encoded memtable entry are read back |
| MemTables.MemTable.FindGreaterOrEqual | breakpoint/Pods/leveldb-library/db/memtable.cc:33-39 | Comparing encoded entries as the memtable does finds the first entry not before a key |
| MemTables.MemTable.Add | breakpoint/Pods/leveldb-library/db/memtable.cc:82-106 | The encoded entry goes to its place in internal-key order |
| MemTables.MemTable.Get | breakpoint/Pods/leveldb-library/db/memtable.cc:108-143 | The answer is that of the newest entry of the user key at or below the snapshot: its value, deleted, or not here |
| BatchReads.StampedAt | breakpoint/Pods/leveldb-library/db/write_batch.cc:111-134 | The i-th update of a batch is stored under its own key, type and value with the i-th sequence number |
| BatchReads.LastUpdateAnswers | breakpoint/Pods/leveldb-library/db/write_batch.cc:116-134 | After a batch is inserted, the memtable answers for each of its keys with the last update of the batch: the value put, or deleted |
| BatchReads.OtherKeysAsBefore | breakpoint/Pods/leveldb-library/db/write_batch.cc:116-134 | For a key outside the batch the answer is one the memtable gave before |
| BatchReads.InsertThenGet | breakpoint/Pods/leveldb-library/db/write_batch.cc:128-134 | The bytes of a batch inserted and a key looked up: the last update of the batch answers, or for other keys what was there before |
| BatchReads.UnknownTypeIsCorrupt | breakpoint/Pods/leveldb-library/db/write_batch.cc:71-73 | A record of an unknown type makes the batch corrupt, after the updates before it |
| BatchReads.CountMustMatch | breakpoint/Pods/leveldb-library/db/write_batch.cc:75-79 | Good records are accepted if and only if they are as many as the header says |
| SkipList.List.Find | breakpoint/Pods/leveldb-library/db/skiplist.h:261-321 | One descent, for at-or-after, before and last queries, lands between the right neighbours and records the predecessor on every level |
| SkipList.FoundIsExact | breakpoint/Pods/leveldb-library/db/skiplist.h:261-321 | Landing there is exact: nothing skipped, nothing out of order, and a present key is found |
| SkipList.List.Insert | breakpoint/Pods/leveldb-library/db/skiplist.h:336-370 | Insertion adds the key to exactly the levels below its height, each still a sorted part of the one below |
| SkipList.List.Contains | breakpoint/Pods/leveldb-library/db/skiplist.h:372-380 | True exactly for the keys inserted |
| SkipList.PublishKeepsShape | breakpoint/Pods/leveldb-library/db/skiplist.h:362-369 | Linking one level, with the new node already pointing onward, keeps every level sorted and nested |
| SkipListRaces.PublishKeepsInv | breakpoint/Pods/leveldb-library/db/skiplist.h:362-369 | Linking one level keeps every level sorted and nested, and every search in progress sound |
| SkipListRaces.NextKeepsInv | breakpoint/Pods/leveldb-library/db/skiplist.h:336-370 | Every step of the writer and of any reader keeps the invariant: height bump, own pointer, publish, load |
| SkipListRaces.LevelsAlwaysNested | breakpoint/Pods/leveldb-library/db/skiplist.h:336-370 | In every run, at every intermediate state of an insertion, each level is a sorted part of the one below |
| SkipListRaces.ReadersNeverDangle | breakpoint/Pods/leveldb-library/db/skiplist.h:261-281 | A reader, also one that saw the new height early, never follows an unset pointer |
| SkipListRaces.SearchFindsPredecessors | breakpoint/Pods/leveldb-library/db/skiplist.h:337-352 | The predecessors a search records are those an insertion needs, the head for new levels |
| SkipListRaces.SearchesAreLinearizable | breakpoint/Pods/leveldb-library/db/skiplist.h:261-321 | A finished search is exact for the contents at its last load, and finds every key present when it began |
| Merger.LowerBound | breakpoint/Pods/leveldb-library/table/merger.cc:51-57 | Where a child's Seek lands |
| Merger.MergingIterator.FindSmallest | breakpoint/Pods/leveldb-library/table/merger.cc:155-168 | With all children at or after a rank, the smallest is the entry of that rank in the sorted union |
| Merger.MergingIterator.FindLargest | breakpoint/Pods/leveldb-library/table/merger.cc:170-183 | The mirror image, backward |
| Merger.MergingIterator.Seek | breakpoint/Pods/leveldb-library/table/merger.cc:51-57 | Lands on the first entry of the union at or after the target |
| Merger.MergingIterator.Next | breakpoint/Pods/leveldb-library/table/merger.cc:59-83 | Moves one place forward in the sorted union, also when it turns round |
| Merger.MergingIterator.Prev | breakpoint/Pods/leveldb-library/table/merger.cc:85-112 | Moves one place backward, also when it turns round |
| Merger.MergingIterator.SeekOther | breakpoint/Pods/leveldb-library/table/merger.cc:67-77 | Turning round puts every non-current child just after, or just before, the current key |
| Merger.HolderSteps | breakpoint/Pods/leveldb-library/table/merger.cc:59-112 | The current child steps over the current key in either direction |
| Merger.Drain | breakpoint/Pods/leveldb-library/table/merger.cc:35-83 | A whole pass visits exactly the sorted union |
| DbIter.LiveEntriesAreTheReads | breakpoint/Pods/leveldb-library/db/db_iter.cc:173-203 | The live entries are exactly the keys with a value at the snapshot, with that value |
| DbIter.LiveKeysAscend | breakpoint/Pods/leveldb-library/db/db_iter.cc:173-203 | One per key, in increasing key order |
| DbIter.DBIter.Next | breakpoint/Pods/leveldb-library/db/db_iter.cc:146-171 | Lands on the next live entry, also after moving backward |
| DbIter.DBIter.FindNextUserEntry | breakpoint/Pods/leveldb-library/db/db_iter.cc:173-203 | The forward scan finds the first live entry above the key to skip |
| DbIter.DBIter.Prev | breakpoint/Pods/leveldb-library/db/db_iter.cc:205-230 | Lands on the previous live entry, also after moving forward |
| DbIter.NextThenPrev | breakpoint/Pods/leveldb-library/db/db_iter.cc:146-230 | Next and then Prev lead back to the same key and value, exactly when there was a next live entry |
| DbIter.PrevThenNext | breakpoint/Pods/leveldb-library/db/db_iter.cc:146-230 | Prev and then Next lead back to the same key and value, exactly when there was a previous live entry |
| DbIter.DBIter.FindPrevUserEntry | breakpoint/Pods/leveldb-library/db/db_iter.cc:232-272 | The backward scan folds versions and deletion markers to the last live entry |
| DbIter.DBIter.Seek | breakpoint/Pods/leveldb-library/db/db_iter.cc:274-286 | Lands on the first live key at or after the target |
| DbIter.DBIter.SeekToFirst | breakpoint/Pods/leveldb-library/db/db_iter.cc:288-297 | Lands on the first live entry |
| DbIter.DBIter.SeekToLast | breakpoint/Pods/leveldb-library/db/db_iter.cc:299-304 | Lands on the last live entry |
| DbIter.DBIter.Current | breakpoint/Pods/leveldb-library/db/db_iter.cc:62-74 | In either direction, the key and value are those of the live entry |
| DbIter.ScanStep | breakpoint/Pods/leveldb-library/db/db_iter.cc:178-197 | What one entry does to the forward scan |
| DbIter.BackStep | breakpoint/Pods/leveldb-library/db/db_iter.cc:236-262 | What one entry does to the backward scan |
| DbIter.Collect | breakpoint/Pods/leveldb-library/db/db_iter.cc:146-304 | A whole pass yields exactly the pairs a read at the snapshot gives, in increasing key order |
| LogFormat.ExtendIsValue | breakpoint/Pods/leveldb-library/db/log_writer.cc:96-98 | The writer's checksum, started from the type byte, is the reader's over type and payload |
| LogFormat.UnmaskMask | breakpoint/Pods/leveldb-library/util/crc32c.h:31-40 | Unmasking undoes masking |
| LogFormat.MaskIsRotation | breakpoint/Pods/leveldb-library/util/crc32c.h:31-34 | A masked checksum is the checksum rotated, that is multiplied by a power of two modulo 2^32 - 1, plus the constant |
| LogFormat.MaskUnmask | breakpoint/Pods/leveldb-library/util/crc32c.h:29-41 | Masking undoes unmasking, so two checksums are equal exactly when they are equal masked |
| LogFormat.Take | breakpoint/Pods/leveldb-library/db/log_writer.cc:44-75 | A fragment fills its block unless it is the last |
| LogFormat.Writer.AddRecord | breakpoint/Pods/leveldb-library/db/log_writer.cc:36-82 | Appends exactly the framing of the record at the current block offset |
| LogFormat.Writer.SwitchBlock | breakpoint/Pods/leveldb-library/db/log_writer.cc:46-58 | Pads a block that has no room for a header |
| LogFormat.Writer.EmitPhysicalRecord | breakpoint/Pods/leveldb-library/db/log_writer.cc:84-109 | Appends one physical record |
| LogReader.Reader.ReadPhysicalRecord | breakpoint/Pods/leveldb-library/db/log_reader.cc:199-281 | The buffering loop computes the functional reader, corruption reports included |
| LogReader.Reader.ReadRecord | breakpoint/Pods/leveldb-library/db/log_reader.cc:60-182 | The loop that puts fragments together computes the functional reader, corruption reports included |
| LogReader.ReadWhole | breakpoint/Pods/leveldb-library/db/db_impl.cc:399-430 | Reading a log to its end |
| LogProofs.ParseStep | breakpoint/Pods/leveldb-library/db/log_reader.cc:231-280 | A physical record at the reader's place is read if complete, and is the quiet end of the file if cut off |
| LogProofs.PhysicalStep | breakpoint/Pods/leveldb-library/db/log_reader.cc:199-281 | From the end of the previous record, across padding and block boundaries, the next physical record is read if complete and is the quiet end of the file if cut off |
| LogProofs.RecordStep | breakpoint/Pods/leveldb-library/db/log_reader.cc:60-182 | A record in any number of fragments, zero-length ones included, is read whole or not at all |
| LogProofs.TornLogReads | breakpoint/Pods/leveldb-library/db/log_reader.cc:60-281 | A file cut at any byte reads as exactly its complete records, with no corruption report |
| LogProofs.WholeFile | breakpoint/Pods/leveldb-library/db/log_writer.cc:36-109 | A file that is not cut has all records complete |
| LogProofs.WholeIsMonotone | breakpoint/Pods/leveldb-library/db/log_reader.cc:60-281 | Cutting later loses no record an earlier cut keeps |
| LogProofs.SameFromBlockEnd | breakpoint/Pods/leveldb-library/db/log_writer.cc:28-31 | A log continued at a full block is framed as at a new one |
| LogProofs.WriteThenRead | breakpoint/Pods/leveldb-library/db/log_writer.cc:36-109 | Writer and reader together: records come back as the prefix of complete ones, all of them if nothing is cut |
| LogDamage.RecordIsExact | breakpoint/Pods/leveldb-library/db/log_reader.cc:225-280 | For any bytes: a physical record is returned if and only if exactly its bytes, checksum included, stand at the reader's place, and these bytes are used up; a record of no type and no bytes is filler |
| LogDamage.DamageIsReported | breakpoint/Pods/leveldb-library/db/log_reader.cc:231-267 | For any bytes: whatever is no such record empties the buffer; a complete one with another checksum is bad and its buffer's size reported; only filler and a record cut short by the end of the file go unreported |
| LogDamage.ReadsExactlyTheIntact | breakpoint/Pods/leveldb-library/db/log_reader.cc:60-182 | For any file: the records returned are, in order, exactly the runs of one whole fragment, or of a first, middle and last ones, that follow one another among the intact physical records, and each of these stands in the file byte for byte as the writer lays it out |
| LogDamage.SilenceMeansComplete | breakpoint/Pods/leveldb-library/db/log_reader.cc:60-281 | For any file read without a report: nothing in it was bad but filler, and every fragment that is not empty is part of a record returned or of one the end of the file cuts short |
| LogDamage.DamagedPayloadIsDropped | breakpoint/Pods/leveldb-library/db/log_reader.cc:254-266 | A payload changed so that the checksum tells: no record is returned, and the rest of the block is reported |
| LogDamage.ReadFile | breakpoint/Pods/leveldb-library/db/db_impl.cc:399-430 | Recovery's loop over a file of any bytes returns exactly the intact records, and without a report has lost none |
| Lru.HandleTable.FindPointer | breakpoint/Pods/leveldb-library/util/cache.cc:116-123 | Finds the place of the entry with key and hash, or the end of its chain exactly when the map has none |
| Lru.HandleTable.Lookup | breakpoint/Pods/leveldb-library/util/cache.cc:76-78 | The table is a finite map |
| Lru.HandleTable.Insert | breakpoint/Pods/leveldb-library/util/cache.cc:80-94 | Adds or replaces in the map and returns what was replaced, across a resize |
| Lru.HandleTable.Remove | breakpoint/Pods/leveldb-library/util/cache.cc:96-104 | Removes from the map and returns what was removed |
| Lru.HandleTable.Resize | breakpoint/Pods/leveldb-library/util/cache.cc:125-148 | Moving every chain to more buckets changes nothing in the map; afterwards there is a bucket for each entry |
| Lru.NextMoves | breakpoint/Pods/leveldb-library/util/cache.cc:134-144 | Each entry is moved once |
| Lru.WithoutKeepsOrder | breakpoint/Pods/leveldb-library/util/cache.cc:242-245 | What is left of a list after a removal is in the order it was |
| LruLists.Append | breakpoint/Pods/leveldb-library/util/cache.cc:247-253 | The pointers then lead round the old entries and, newest, the new one, in both directions |
| LruLists.Remove | breakpoint/Pods/leveldb-library/util/cache.cc:242-245 | The pointers then lead round the other entries in their order, in both directions; the entry's own pointers stay |
| LruLists.Move | breakpoint/Pods/leveldb-library/util/cache.cc:221-239 | Moving an entry from one list to the newest end of the other leaves both lists right |
| LruLists.Oldest | breakpoint/Pods/leveldb-library/util/cache.cc:293-294 | The next of the dummy is the oldest entry, and the dummy itself exactly when the list is empty |
| LruCaches.RefKeeps | breakpoint/Pods/leveldb-library/util/cache.cc:221-227 | Ref keeps the books for one more handle |
| LruCaches.UnrefKeeps | breakpoint/Pods/leveldb-library/util/cache.cc:229-240 | Unref keeps the books for one handle less |
| LruCaches.DetachKeeps | breakpoint/Pods/leveldb-library/util/cache.cc:307-316 | Taking an entry out of the cache turns the cache's reference into one to be given up |
| LruCaches.LookupKeeps | breakpoint/Pods/leveldb-library/util/cache.cc:255-262 | Lookup keeps reference counts, both lists, the usage, the table and the deleter log right |
| LruCaches.ReleaseKeeps | breakpoint/Pods/leveldb-library/util/cache.cc:264-267 | Release keeps reference counts, both lists, the usage, the table and the deleter log right |
| LruCaches.DropKeeps | breakpoint/Pods/leveldb-library/util/cache.cc:307-316 | Taking a name out of table and cache keeps reference counts, both lists, the usage and the deleter log right |
| LruCaches.AddReplaces | breakpoint/Pods/leveldb-library/util/cache.cc:269-294 | Insertion over an entry of the same name keeps everything right, and the entry replaced goes to its deleter now only if nobody holds it |
| LruCaches.AllUnused | breakpoint/Pods/leveldb-library/util/cache.cc:209-219 | Without handles outstanding, the entries left are exactly the unused list, each with one reference |
| LruCaches.LRUCache.Lookup | breakpoint/Pods/leveldb-library/util/cache.cc:255-262 | Returns the map's entry and gives the caller a handle; nobody else is affected |
| LruCaches.LRUCache.Release | breakpoint/Pods/leveldb-library/util/cache.cc:264-267 | The last handle of a cached entry makes it the newest unused one; of an uncached entry, runs its deleter |
| LruCaches.LRUCache.Erase | breakpoint/Pods/leveldb-library/util/cache.cc:318-321 | Removes the name from the map; the deleter runs now only if nobody holds the entry |
| LruCaches.LRUCache.Insert | breakpoint/Pods/leveldb-library/util/cache.cc:269-303 | The new entry replaces its namesake, then the oldest unused entries are evicted until the rest fits or none is unused, and not one more |
| LruCaches.LRUCache.Prune | breakpoint/Pods/leveldb-library/util/cache.cc:323-333 | Evicts exactly the unused entries, oldest first |
| LruCaches.LRUCache.Destroy | breakpoint/Pods/leveldb-library/util/cache.cc:209-219 | At the end every entry ever created has been given to its deleter exactly once |
| LruCaches.EvictedNext | breakpoint/Pods/leveldb-library/util/cache.cc:296-302 | Eviction takes the oldest first and stops as soon as the rest fits |
| Block.CommonPrefix | breakpoint/Pods/leveldb-library/table/block_builder.cc:79-85 | The longest common prefix of two keys |
| Block.SharedIsLongest | breakpoint/Pods/leveldb-library/table/block_builder.cc:73-89 | A restart point shares nothing with the key before; any other entry shares as much as the two keys have in common |
| Block.StartsAre | breakpoint/Pods/leveldb-library/table/block_builder.cc:80-90 | Restart points are entry 0 and every entry at a multiple of the interval |
| Block.BlockBuilder.Add | breakpoint/Pods/leveldb-library/table/block_builder.cc:73-107 | The buffer and restart points are those of the entries added so far |
| Block.BlockBuilder.Finish | breakpoint/Pods/leveldb-library/table/block_builder.cc:63-71 | The finished block is entries, restart points and their number, and as long as the size estimated |
| Block.EntryReadBack | breakpoint/Pods/leveldb-library/table/block.cc:53-74 | Decoding an entry gives its lengths back, on the fast path and the slow one |
| BlockIter.Iter.ParseNextKey | breakpoint/Pods/leveldb-library/table/block.cc:226-252 | From the end of one entry and its key, parsing gives the next entry, or none at the end |
| BlockIter.Iter.Next | breakpoint/Pods/leveldb-library/table/block.cc:139-142 | One entry forward |
| BlockIter.Iter.Prev | breakpoint/Pods/leveldb-library/table/block.cc:144-163 | Exactly the entry before, found by parsing forward from a restart point |
| BlockIter.Iter.SeekToFirst | breakpoint/Pods/leveldb-library/table/block.cc:205-208 | The first entry |
| BlockIter.Iter.SeekToLast | breakpoint/Pods/leveldb-library/table/block.cc:210-215 | The last entry |
| BlockIter.Iter.FindRestart | breakpoint/Pods/leveldb-library/table/block.cc:165-192 | The binary search ends at a restart point all of whose predecessors are before the target |
| BlockIter.Iter.Seek | breakpoint/Pods/leveldb-library/table/block.cc:165-203 | Lands on the first entry not before the target |
| BlockIter.Iter.Entry | breakpoint/Pods/leveldb-library/table/block.cc:125-137 | Being valid is standing at an entry, with its key and value |
| BlockRoundTrip.BlockIsLaid | breakpoint/Pods/leveldb-library/table/block_builder.cc:63-107 | Every block built, of any entries and any restart interval, can be read back entry by entry |
| BlockRoundTrip.BuildThenRead | breakpoint/Pods/leveldb-library/table/block.cc:139-215 | Reading a built block forward gives exactly the entries added, and backward their reversal |
| Filter.CreateFilter | breakpoint/Pods/leveldb-library/util/bloom.cc:35-61 | The filter has the size asked for and, of the bits, exactly those that some key's probes hit; every key of the filter may match |
| Filter.MayMatch | breakpoint/Pods/leveldb-library/util/bloom.cc:63-82 | The probing loop computes the predicate |
| Filter.SetBitSets | breakpoint/Pods/leveldb-library/util/bloom.cc:52-58 | Setting a bit sets that one and no other |
| Filter.DeltaIsRotation | breakpoint/Pods/leveldb-library/util/bloom.cc:49-51 | The distance of the probes is the hash rotated, that is multiplied by a power of two modulo 2^32 - 1 |
| Filter.ProbeIs | breakpoint/Pods/leveldb-library/util/bloom.cc:49-59 | The probes of a key are at equal distances from its hash, modulo 32 bits |
| Filter.PassesIff | breakpoint/Pods/leveldb-library/util/bloom.cc:63-82 | A filter made for some keys lets any key pass if and only if it shares each of its probes with one of them |
| FilterBlock.FilterBlockBuilder.GenerateFilter | breakpoint/Pods/leveldb-library/table/filter_block.cc:52-76 | The pending keys become the next group, covered by its filter |
| FilterBlock.FilterBlockBuilder.StartBlock | breakpoint/Pods/leveldb-library/table/filter_block.cc:22-28 | Groups are made up to the number of the new block's 2 KB; pending keys stay pending or are the group of the 2 KB they started in |
| FilterBlock.FilterBlockBuilder.Finish | breakpoint/Pods/leveldb-library/table/filter_block.cc:36-50 | The block is the filters, their offsets and the encoding parameter |
| FilterBlock.FilterBlockReader.MayMatchAt | breakpoint/Pods/leveldb-library/table/filter_block.cc:95-109 | The reader finds the filter of the block's 2 KB |
| FilterBlock.MayContain | breakpoint/Pods/leveldb-library/table/filter_block.cc:78-109 | No false negatives: a key turned down has the user key of no key in the group |
| Separator.UserOrder | breakpoint/Pods/leveldb-library/util/comparator.cc:25-27 | The byte order is a strict total order |
| Separator.LessOrder | breakpoint/Pods/leveldb-library/db/dbformat.cc:50-66 | The order of encoded internal keys is transitive and asymmetric |
| Separator.FindShortestSeparator | breakpoint/Pods/leveldb-library/util/comparator.cc:29-51 | The result is the start or strictly between start and limit, and is the shortened one exactly when the first byte that differs has room |
| Separator.FindShortSuccessor | breakpoint/Pods/leveldb-library/util/comparator.cc:53-65 | The result is the key or greater: the bytes up to the first that is not 255, this one raised, or the key itself when all are |
| Separator.InternalSeparator | breakpoint/Pods/leveldb-library/db/dbformat.cc:68-85 | The result is the start, or its user key is strictly between the two user keys |
| Separator.InternalSuccessor | breakpoint/Pods/leveldb-library/db/dbformat.cc:87-99 | The result is the key, or its user key is greater |
| TableFormat.HandleReadBack | breakpoint/Pods/leveldb-library/table/format.cc:15-30 | Decoding a block handle undoes encoding it |
| TableFormat.ReadBlockIsExact | breakpoint/Pods/leveldb-library/table/format.cc:65-144 | For any file: ReadBlock returns some contents if and only if they stand at the handle with the type and checksum WriteRawBlock puts behind them, so no damaged block is returned |
| TableFormat.IndexIsExact | breakpoint/Pods/leveldb-library/table/table.cc:226-255 | The block of the first index key not before a lookup key has the first entry not before it, or that entry starts the next block and belongs to another user key |
| TableFormat.PastTheIndex | breakpoint/Pods/leveldb-library/table/table.cc:226-231 | Past the last index key there is no entry |
| TableFormat.SepsIncrease | breakpoint/Pods/leveldb-library/table/table_builder.cc:92-106 | Index keys increase |
| TableFormat.FirstIsNewest | breakpoint/Pods/leveldb-library/table/table.cc:226-255 | The first entry not before a lookup key is the newest version at or below the sought sequence; if it has another user key there is none |
| TableBuilder.SepEmitted | breakpoint/Pods/leveldb-library/table/table_builder.cc:100-106 | The delayed index key separates the finished block from every later entry |
| TableBuilder.Appended | breakpoint/Pods/leveldb-library/table/table_builder.cc:112-114 | Later entries stay on their side of every index key |
| TableBuilder.BlockStarted | breakpoint/Pods/leveldb-library/table/table_builder.cc:134-136 | Flushing keeps every key of every block in the filter group of the block's offset |
| TableBuilder.TableBuilder.Add | breakpoint/Pods/leveldb-library/table/table_builder.cc:92-121 | Adding an entry, with or without a flush, keeps the blocks, index keys and filter groups right for the entries so far |
| TableBuilder.TableBuilder.Flush | breakpoint/Pods/leveldb-library/table/table_builder.cc:123-137 | A flush keeps the blocks, index keys and filter groups right for the entries so far |
| TableBuilder.TableBuilder.Finish | breakpoint/Pods/leveldb-library/table/table_builder.cc:199-254 | The finished table is complete: blocks, filter and index are stored, and every block has its index key |
| Table.SeekBlock | breakpoint/Pods/leveldb-library/table/table.cc:164-218 | Seeking a block finds its first entry not before the key |
| Table.InternalGet | breakpoint/Pods/leveldb-library/table/table.cc:226-255 | Hands over the first entry not before the key whenever it has the user key sought, and never any other entry, with or without the filter |
| TableBuilder.BuildThenGet | breakpoint/Pods/leveldb-library/table/table.cc:226-255 | Built from any increasing entries and looked up from the bytes, a table gives the first entry not before the key whenever it has the user key sought, and never any other, with or without the filter |
| VersionBuilder.InsertKeepsOrder | breakpoint/Pods/leveldb-library/db/version_set.cc:606-619 | The added-files set stays in the order of BySmallestKey and loses nothing |
| VersionBuilder.Builder.Apply | breakpoint/Pods/leveldb-library/db/version_set.cc:665-708 | Deletions, then additions, level by level |
| VersionBuilder.SaveLevel | breakpoint/Pods/leveldb-library/db/version_set.cc:711-738 | The merge of base and added files without the deleted ones |
| VersionBuilder.SavedList | breakpoint/Pods/leveldb-library/db/version_set.cc:711-772 | The saved list is the increasing list of the saved files |
| VersionBuilder.BatchedIsStepwiseIff | breakpoint/Pods/leveldb-library/db/version_set.cc:665-772 | For any edits: one builder leaves the files that applying the edits one by one leaves, if and only if it knows every file that is live at the end and every file it knows that shares its number with a live one is live itself |
| VersionBuilder.AfterAllIs | breakpoint/Pods/leveldb-library/db/version_set.cc:835-841 | A file is there at the end exactly when it is in the base and its number is never deleted, or some edit adds it and no later one deletes its number |
| VersionBuilder.DeletedIs | breakpoint/Pods/leveldb-library/db/version_set.cc:672-707 | A number ends up in deleted_files exactly when some edit deletes it and neither that edit nor a later one adds a file with it |
| VersionBuilder.AllInserted | breakpoint/Pods/leveldb-library/db/version_set.cc:606-619 | A file added ends up in the ordered set exactly when it is the first added of those that compare equal |
| VersionBuilder.BatchedIsStepwise | breakpoint/Pods/leveldb-library/db/version_set.cc:665-772 | Many edits applied to one builder leave the files that applying them one by one leaves, if no file number is added to a level twice |
| VersionBuilder.ReaddedComesBack | breakpoint/Pods/leveldb-library/db/version_set.cc:696-706 | Witness: a file deleted and added again comes back beside the new one |
| VersionBuilder.OneList | breakpoint/Pods/leveldb-library/db/version_set.cc:606-619 | A set of files has one increasing list |
| VersionBuilder.Recover | breakpoint/Pods/leveldb-library/db/version_set.cc:939-1000 | The recovered levels are the increasing lists of the files the edits leave |
| VersionBuilder.ApplyEach | breakpoint/Pods/leveldb-library/db/version_set.cc:835-841 | The versions installed edit by edit are the increasing lists of the files the edits leave |
| VersionBuilder.RecoverIsLastInstalled | breakpoint/Pods/leveldb-library/db/version_set.cc:939-1000 | Recovery rebuilds the version installed last |
| VersionEdits.BackItem | breakpoint/Pods/leveldb-library/db/version_edit.cc:109-205 | Each tagged item is read back |
| VersionEdits.EditReadBack | breakpoint/Pods/leveldb-library/db/version_edit.cc:41-210 | Decoding an encoded edit gives it back, after the compaction pointers the target had |
| VersionEdits.EditReadBackIff | breakpoint/Pods/leveldb-library/db/version_edit.cc:26-39 | Decoding gives back exactly the edit if and only if the target had no compaction pointers; Clear does not remove them |
| VersionEdits.Encode | breakpoint/Pods/leveldb-library/db/version_edit.cc:41-86 | The appending code writes the items of the edit |
| VersionEdits.Decode | breakpoint/Pods/leveldb-library/db/version_edit.cc:109-210 | The parsing loop computes the functional decoder |
| VersionEdits.EncodeThenDecode | breakpoint/Pods/leveldb-library/db/version_edit.cc:41-210 | What is written to the manifest is read back |
| EditChecks.DecodedIsStable | breakpoint/Pods/leveldb-library/db/version_edit.cc:88-210 | For any bytes: an edit that decodes has every level and number in range, and encoded again decodes to the same edit |
| EditChecks.UnknownTagIsCorrupt | breakpoint/Pods/leveldb-library/db/version_edit.cc:196-199 | An unknown tag anywhere makes the record corrupt |
| EditChecks.WrongLevelIsCorrupt | breakpoint/Pods/leveldb-library/db/version_edit.cc:98-107 | A level that does not exist makes the record corrupt, wherever it stands |
| GroupCommit.BuildBatchGroup | breakpoint/Pods/leveldb-library/db/db_impl.cc:1269-1314 | The group is as many writers as the sync and size rules allow and no fewer, and the result has the operations of each of them at the place the batches before give, and nothing else |
| GroupCommit.OpsJoin | breakpoint/Pods/leveldb-library/db/db_impl.cc:1298-1311 | No writer's operations are missing, moved or repeated in a group's batch |
| GroupCommit.GroupIsRight | breakpoint/Pods/leveldb-library/db/db_impl.cc:1289-1312 | The group has no sync writer behind a leader that is not, respects the size limit, and stops only where one of the two would be broken |
| GroupCommit.NextKeepsInv | breakpoint/Pods/leveldb-library/db/db_impl.cc:1194-1263 | Every step of every writer keeps the invariant, with arrivals between any two |
| GroupCommit.RunKeepsInv | breakpoint/Pods/leveldb-library/db/db_impl.cc:1194-1263 | The invariant of the writer queue holds in every state of every run |
| GroupCommit.FirstInFirstOut | breakpoint/Pods/leveldb-library/db/db_impl.cc:1200-1263 | In every run writers leave in the order they came, each once and with the status of its own group |
| GroupCommit.OneSerialOrder | breakpoint/Pods/leveldb-library/db/db_impl.cc:1211-1245 | In every run groups have consecutive sequence numbers in queue order, and log and memtable have the operations in that order |
| GroupCommit.EveryWriteArrives | breakpoint/Pods/leveldb-library/db/db_impl.cc:1211-1245 | In every run, every operation of every writer that left with OK is in the memtable and in its group's log record, at the sequence number that its place in the queue gives |
| GroupCommit.SyncMeansSynced | breakpoint/Pods/leveldb-library/db/db_impl.cc:1224-1243 | In every run a sync writer that got OK was in a group whose record was synced and has its batch, whole, at its place |
| GroupCommit.WriteQueue.Lead | breakpoint/Pods/leveldb-library/db/db_impl.cc:1211-1263 | The leader's code takes machine steps, and its status is that of its group |
| Nanopb.Find | breakpoint/Pods/nanopb/pb_common.c:78-97 | The field of a tag, if there is one |
| NanopbProofs.ValueReadBack | breakpoint/Pods/nanopb/pb_decode.c:1165-1379 | Decoding undoes encoding for every kind of value, whatever follows |
| NanopbProofs.NumberReadBack | breakpoint/Pods/nanopb/pb_decode.c:1165-1248 | Decoding undoes encoding for integers of every width, signed, unsigned and zigzag |
| NanopbProofs.TextReadBack | breakpoint/Pods/nanopb/pb_decode.c:1299-1332 | A string comes back up to its first NUL: unchanged if and only if it has none |
| NanopbProofs.PackedReadBack | breakpoint/Pods/nanopb/pb_decode.c:379-391 | Decoding undoes encoding for packed arrays that fit |
| NanopbProofs.Occurrence | breakpoint/Pods/nanopb/pb_decode.c:864-923 | One occurrence of a field is one turn of the decoding loop |
| NanopbProofs.ItemsStep | breakpoint/Pods/nanopb/pb_decode.c:399-407 | Decoding undoes encoding for arrays whose items each carry a tag |
| NanopbProofs.FieldStep | breakpoint/Pods/nanopb/pb_decode.c:852-923 | What is written for a field takes the decoder from that field to the next, required, optional, implicit, oneof or repeated, whatever required fields were seen before |
| NanopbProofs.FieldOnto | breakpoint/Pods/nanopb/pb_decode.c:852-923 | The same on any message in which the field is at its default and no other member of its oneof is chosen |
| NanopbProofs.MessageRoundTrip | breakpoint/Pods/nanopb/pb_decode.c:955-967 | pb_decode of pb_encode's output succeeds, uses every byte and returns the same message, nested and implicit messages included |
| NanopbRequired.DecodeWithout | breakpoint/Pods/nanopb/pb_decode.c:919-950 | Whatever fields are left out of an encoded message, pb_decode fails if and only if a required one is among them, and otherwise gives the message with those fields at their defaults |
| NanopbEvolution.DecodeChunks | breakpoint/Pods/nanopb/pb_decode.c:852-967 | Fields sent in any order, with fields among them that the receiver does not know: pb_decode fails if and only if a required field is not sent, and otherwise gives what was sent for every field the receiver has, and the defaults |
| NanopbEvolution.SkipUnknown | breakpoint/Pods/nanopb/pb_decode.c:277-287 | What a sender writes for a field the receiver does not know leaves no trace |
| NanopbEvolution.SkipValue | breakpoint/Pods/nanopb/pb_decode.c:231-287 | A value of any kind is skipped by its wire type alone, exactly to its end |
| NanopbEvolution.UnknownWireType | breakpoint/Pods/nanopb/pb_decode.c:277-287 | A wire type that does not exist is an error |
| NanopbEvolution.Overwrites | breakpoint/Pods/nanopb/pb_decode.c:356-429 | A later occurrence of a single field overwrites whatever was there |
| NanopbEvolution.LastOneWins | breakpoint/Pods/nanopb/pb_decode.c:356-429 | Of two occurrences of a single field the last one counts |
| NanopbEvolution.SubmessagesMerge | breakpoint/Pods/nanopb/pb_decode.c:1334-1356 | A later occurrence of a submessage is decoded on top of the earlier one; a member of a oneof starts from the defaults |
| NanopbEvolution.ArrayFitsIff | breakpoint/Pods/nanopb/pb_decode.c:369-408 | An array goes on behind the items already there, packed or with a tag on every item whatever the sender chose, if and only if all of them fit; otherwise the message is rejected |
| NanopbEvolution.RefusedAlike | breakpoint/Pods/nanopb/pb_encode.c:116-130 | The encoder refuses an array if and only if its own decoder would reject it |
| NanopbEvolution.BytesRefusedAlike | breakpoint/Pods/nanopb/pb_encode.c:718-737 | The encoder refuses bytes if and only if its own decoder would reject them |
| NanopbEvolution.SignedExact | breakpoint/Pods/nanopb/pb_decode.c:1165-1200 | Of a signed varint the low 64 or 32 bits count, and it is accepted if and only if the number is in the range of the field |
| NanopbEvolution.UnsignedExact | breakpoint/Pods/nanopb/pb_decode.c:1202-1224 | An unsigned varint is accepted if and only if the number is in the range of the field |
| NanopbEvolution.ZigZagExact | breakpoint/Pods/nanopb/pb_decode.c:1226-1248 | A zigzag number is the half of it or the complement of the half, and is accepted if and only if that is in the range of the field |
| NanopbEvolution.BlobExact | breakpoint/Pods/nanopb/pb_decode.c:1262-1379 | Bytes and strings are accepted if and only if there is room for them, and fixed-length bytes if and only if their length is right or zero |
| NanopbEvolution.ZeroEnds | breakpoint/Pods/nanopb/pb_decode.c:251-275 | A zero byte in place of a tag ends the message |
| NanopbEvolution.CutTagEnds | breakpoint/Pods/nanopb/pb_decode.c:251-275 | A tag cut off by the end of the stream ends the message without an error |
| NanopbProofs.AnyMessageArrives | breakpoint/Pods/nanopb/pb_decode.c:955-967 | For any message that fits its descriptor: decoding succeeds and gives the message with each string cut at its first NUL and each implicit value taken for zero replaced by its default; that is the message itself if and only if there is no such string and every such value is the default |
| NanopbProofs.SentValue | breakpoint/Pods/nanopb/pb_encode.c:205-265 | The encoder writes the same bytes for a value and for what arrives of it, and takes both or neither for zero |
| NanopbProofs.ScalarArrives | breakpoint/Pods/nanopb/pb_encode.c:205-265 | Of an implicit number, bytes or string nothing is lost but what follows a NUL: only an implicit submessage can be taken for zero when it is not its default |
| NanopbProofs.ArrayIsLost | breakpoint/Pods/nanopb/pb_encode.c:229-243 | Witness: an implicit submessage whose array begins with a zero is not written at all, and comes back empty |
| NanopbProofs.DecodedMessageStored | breakpoint/Pods/nanopb/pb_decode.c:356-429 | Whatever the bytes, a message that decodes has every number in its width, every string and array within its room and at most one member of each oneof |
| NanopbEncoder.FieldIter.Next | breakpoint/Pods/nanopb/pb_common.c:20-76 | One field forward, or back at the beginning, with the required-field index right |
| NanopbEncoder.FieldIter.FindTag | breakpoint/Pods/nanopb/pb_common.c:78-97 | Once round from anywhere: found if and only if the tag is there, and otherwise back where it was |
| NanopbEncoder.OStream.Write | breakpoint/Pods/nanopb/pb_encode.c:91-109 | Adds the bytes, or only counts them, or reports a full stream |
| NanopbEncoder.OStream.EncodeVarint | breakpoint/Pods/nanopb/pb_encode.c:494-514 | Writes the varint |
| NanopbEncoder.OStream.EncodeSvarint | breakpoint/Pods/nanopb/pb_encode.c:516-525 | Writes the zigzag form, the doubling wrapping at 64 bits |
| NanopbEncoder.OStream.EncodeArray | breakpoint/Pods/nanopb/pb_encode.c:116-201 | Writes exactly the array's wire form on either kind of stream, or fails exactly when an item cannot be encoded, the count is too large or there is no room |
| NanopbEncoder.OStream.PackedSize | breakpoint/Pods/nanopb/pb_encode.c:134-157 | The size announced is that of the items |
| NanopbEncoder.OStream.EncodeField | breakpoint/Pods/nanopb/pb_encode.c:271-349 | Writes exactly the wire form of the field on either kind of stream, or fails exactly when it cannot be encoded or there is no room |
| NanopbEncoder.CheckDefault | breakpoint/Pods/nanopb/pb_encode.c:205-265 | The recursive check over a submessage's fields computes the predicate: of an array it sees the first item only |
| NanopbEncoder.OStream.EncodeSubmessage | breakpoint/Pods/nanopb/pb_encode.c:600-648 | The sizing pass gives the size of the writing pass, so the length is exact and "submsg size changed" cannot happen |
| NanopbEncoder.OStream.Encode | breakpoint/Pods/nanopb/pb_encode.c:451-473 | Writes exactly the message's wire form, or fails exactly when something cannot be encoded or there is no room, having written a prefix |
| NanopbEncoder.FixedLength | breakpoint/Pods/nanopb/pb_encode.c:134-142 | The sizes taken for granted for fixed-width items are right |
| NanopbEncoder.FittingMessageIsEncodable | breakpoint/Pods/nanopb/pb_encode.c:116-201 | Nothing that fits its descriptor is rejected |
| NanopbDecoder.AllSeen | breakpoint/Pods/nanopb/pb_decode.c:938-947 | The bitmap check is the check that every required field was seen |
| NanopbDecoder.CountRequired | breakpoint/Pods/nanopb/pb_decode.c:925-936 | The count from the last field's index is the number of required fields |
| NanopbDecoder.IStream.DecodeVarint | breakpoint/Pods/nanopb/pb_decode.c:173-229 | The shifting loops compute the functional reader, and leave the stream where the end-of-message test expects |
| NanopbDecoder.IStream.DecodeNextTag | breakpoint/Pods/nanopb/pb_decode.c:251-275 | Computes the functional reader, end of message included |
| NanopbDecoder.IStream.SkipOverField | breakpoint/Pods/nanopb/pb_decode.c:277-287 | Skips exactly one unknown field |
| NanopbDecoder.IStream.DecodeValue | breakpoint/Pods/nanopb/pb_decode.c:1118-1379 | The field decoders compute the functional ones |
| NanopbDecoder.IStream.DecodeField | breakpoint/Pods/nanopb/pb_decode.c:356-429 | decode_static_field computes the functional one |
| NanopbDecoder.IStream.DecodeInto | breakpoint/Pods/nanopb/pb_decode.c:852-953 | pb_decode_noinit, with its iterator and bitmap, computes the functional decoder, the check of the required fields included |
| NanopbDecoder.EncodeThenDecode | breakpoint/Pods/nanopb/pb_encode.c:480-489 | For any message that fits its descriptor: encoding fails exactly when the buffer is smaller than the sizing stream says; otherwise decoding gives what arrives of the message, and the message itself exactly when nothing in it is lost |

## Left out

- The Swift application, Firebase, GTMSessionFetcher and GoogleToolbox code: user interface, network wrappers and declarations.
- `Env`, POSIX files, mutexes, condition variables and memory barriers: foreign calls; weaker memory orders than sequential consistency are not modelled.
- CRC32C tables and the murmur-style hash: any step and any hash will do for what is proved.
- Snappy: the uncompressed path only; a table block of another type is an error.
- Repair, dump, the C bindings, statistics, logging, file names, Arena and Random: tools and plumbing.
- Compaction scores, seek counts, write slow-downs and `MakeRoomForWrite`'s waiting: policy; its outcome is a parameter of the group-commit machine.
- Corrupt internal keys (the `ParseInternalKey` failures in compaction, lookup and DBIter): not modelled, since the writers produce none.
- `reuse_logs`: off by default.
- The sharding of the cache and its mutexes, and the table's hash chains, which are sequences.
- The two-level iterator, `NewMergingIterator`'s shortcuts for no or one child, and ApproximateOffsetOf: they add nothing to the theorems about their parts.
- nanopb callbacks, extensions and dynamically allocated fields: user code, or outside the default configuration.
- nanopb partially decoded messages: after an error the destination is not described.
- Engine.Next: the flush and the installation of a compaction are single steps; their intermediate disk states are in Durability instead.
- DropRule.DoCompactionWork: does not model the flush of the immutable memtable inside the loop, because the engine's steps interleave flushes anyway, nor unparsable keys, shutdown and write errors.
- Lookup.NewestFirst: does not model `std::sort`; the candidates are inserted in order, with the same result.
- Pick.SetupOtherInputs: does not model `grandparents_` and `compact_pointer_`, which only steer later choices.
- Pick.PickCompaction: the level and the file come from the caller, because scores and seek counts are policy.
- Background.StartCompaction: does not model manual compactions, whose inputs `FlushIsSafeIff` is about, nor the trivial move, which is a step of the engine of its own.
- DurabilityProofs.CommitJobKeepsInv: takes from the engine that the compaction exposes no key; the two machines are not one.
- LogReader.Reader.ReadPhysicalRecord: does not model an initial offset or a failing read, since recovery starts at zero and input errors are foreign.
- LogReader.Reader.ReadRecord: does not model resynchronisation and record offsets, which only an initial offset needs.
- BlockIter.Iter.ParseNextKey: blocks with corrupt entries are not modelled; on blocks the builder produced the branch is shown unreachable.
- BlockIter.Iter.FindRestart: blocks with corrupt restart entries are not modelled; on blocks the builder produced the branch is shown unreachable.
- TableBuilder.TableBuilder.Finish: does not model the metaindex block and the footer; the handles they would hold are returned.
- LruCaches.LRUCache.Insert: does not model `size_t` wrap-around of the usage.
- GroupCommit.WriteQueue.Lead: does not model `MakeRoomForWrite` and writers that arrive while the lock is released; the machine has both.
- NanopbEncoder.OStream.Write: does not model `size_t` wrap-around of the bytes written, nor a callback that fails.
