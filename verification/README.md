# MeteorDB in Dafny

MeteorDB is an embedded key-value store built as a log-structured merge tree: a write-ahead log, memory tables, sorted
table files in levels, a manifest of version edits, snapshots, compaction and crash recovery. This project models that
engine and proves what it promises, over all inputs, all interleavings and all power failures of the model.

Everything is stated against a few plain definitions. A database is the set of all versions ever committed; `Read` of
such a set at a sequence and a time is the newest version of the key at or below the sequence, unless it is a tombstone
or has expired. The store invariant (`Inv`, wrapped as `Histories`) says that memory tables, level zero and the deeper
levels are ordered by age and that every readable snapshot is answered as the full history answers it. The durability
invariant (`SAFE`, and `SANE` for a directory that is still being created) says that whatever a power failure leaves of
the files, the manifest replays to one of the two states it may hold, and that the logs and tables this state needs are
there, with all acknowledged batches.

The modules, from the bottom up:

- keys and versions: `Bytes`, `InternalKeys`, `Mvcc`, `MemTables`, `Iterators`, `Scans`;
- levels and compaction: `Versions`, `Acceptance`, `Layouts`, `Plans`, `Retention`, `Compactions`, `Install`, `Outputs`;
- the running engine: `PointReads`, `Snapshots`, `Stores`, `Runs`, `StoreScans`, `Engines`, `Leases`, `Signals`;
- table files: `Varints`, `Blocks`, `BlockChecks`, `BlockBuilding`, `Bloom`, `TableFormat`, `TableReading`,
  `TableBuilding`, `TableWriting`, `EngineValues`, `TableLookups`, `Routing`, `TableVisible`, `RowLimits`, `BlockLimits`,
  `Caches`;
- logs: `Codecs`, `BatchCodecs`, `EditCodecs`, `Framing`, `RecordLogs`, `LogIo`, `Logs`;
- durability: `Fs`, `VersionSets`, `Ledgers`, `Protocols`, `Durability`, `Steps`, `Edits`, `Worlds`, `Reopening`,
  `Recovered`, `Tears`, `Kills`, `KillWindows`;
- the inference cache's shared computations: `Singleflight`.

The checksum is a parameter of every statement that mentions one, and so is every clock reading.

## Model

| member | source | states |
|---|---|---|
| `Worlds.NothingAcknowledgedIsLost` | crates/meteordb/src/engine.rs:196-393 | Over every life of a database directory, with any number of writes, rotations, flushes, compactions, cleanups, closes, opens, power failures with any torn tail the file system allows, and process kills that find the durable manifest equal to the visible one, the batches acknowledged at one time are a prefix of those acknowledged at any later time. |
| `Worlds.LifeKeeps` | crates/meteordb/src/engine.rs:445-483 | Every single step, a power failure included, keeps the durability invariant and takes back or reorders no acknowledged batch. |
| `Worlds.OpenKeeps` | crates/meteordb/src/engine.rs:196-393 | Opening after a close, a power failure or a kill keeps the invariant: replay, the removal of unpublished tables and the choice of the next file number lose nothing. |
| `Worlds.CloseKeeps` | crates/meteordb/src/engine.rs:687-709 | A clean close keeps the invariant, whatever names are not yet durable. |
| `Worlds.KillKeeps` | crates/meteordb/src/engine.rs:196-393 | A kill that finds the manifest durable keeps the invariant: the next process starts from everything that was visible, with unsynced log records, half-done tables and removals that are not yet durable. |
| `Worlds.BootKeeps` | crates/meteordb/src/manifest.rs:482-563 | Each file system call of the creation of a database keeps its bootstrap invariant, so a crash in the middle leaves a directory that can be created again or opened. |
| `Worlds.BootCrash` | crates/meteordb/src/manifest.rs:751-801 | A crash during creation leaves files from which creation can be resumed. |
| `Durability.CrashSafe` | crates/meteordb/src/engine.rs:229-330 | From every state of the durability invariant and every set of files a power failure may leave, recovery finds a prefix of the issued batches that contains all acknowledged ones, and the invariant holds again. |
| `Durability.ManifestSurvives` | crates/meteordb/src/manifest.rs:655-713 | What survives of the manifest is exactly the published edits, with or without the one whose sync was pending. |
| `Steps.SyncDirectoryKeeps` | crates/meteordb/src/fs.rs:359-380 | A directory sync keeps everything recovery needs. |
| `Steps.SyncFileKeeps` | crates/meteordb/src/fs.rs:337-345 | A file sync keeps everything recovery needs. |
| `Steps.IssueKeeps` | crates/meteordb/src/wal.rs:188-230 | Appending the record of a batch to the active log keeps the invariant. |
| `Steps.AckKeeps` | crates/meteordb/src/wal.rs:188-230 | Acknowledging a batch after its log was synced keeps the invariant, and so does the sync of the recovered logs by an opening process. |
| `Steps.InstallTableKeeps` | crates/meteordb/src/engine.rs:1122-1152 | Renaming a finished table into place keeps the invariant. |
| `Steps.RemoveKeeps` | crates/meteordb/src/engine.rs:1186-1209 | Removing a log or table that the published state does not need keeps the invariant. |
| `Steps.CreateLogKeeps` | crates/meteordb/src/engine.rs:1154-1184 | Creating the next log keeps the invariant. |
| `Edits.AppendEditKeeps` | crates/meteordb/src/manifest.rs:655-713 | Appending a manifest record whose layout is prepared keeps the invariant, whichever of the two states a crash then reveals. |
| `Edits.PublishKeeps` | crates/meteordb/src/manifest.rs:655-713 | Publishing the edit after its sync keeps the invariant. |
| `Edits.RotateKeeps` | crates/meteordb/src/engine.rs:1154-1184 | The edit of a log rotation keeps the invariant. |
| `Edits.FlushKeeps` | crates/meteordb/src/engine.rs:1085-1111 | The edit of a flush, which drops the flushed logs, keeps the invariant. |
| `Edits.CompactKeeps` | crates/meteordb/src/engine.rs:634-683 | The edit of a compaction keeps the invariant. |
| `Edits.PersistKeeps` | crates/meteordb/src/engine.rs:1391-1420 | The edit that records how far the logs are synced keeps the invariant. |
| `Reopening.Reopen` | crates/meteordb/src/engine.rs:196-393 | On every closed or crashed directory the recovery code succeeds, returns the number of surviving batches, and rebuilds a store that satisfies the read invariant for exactly those batches. |
| `Reopening.RecoverLogs` | crates/meteordb/src/engine.rs:229-330 | One memory table per nonempty required log, newest first, together holding exactly the effects of the batches after the last flushed one. |
| `Reopening.ReplayLog` | crates/meteordb/src/engine.rs:262-300 | Replaying one log yields a sorted table with the effects of its batches, or an error on a sequence gap. |
| `Recovered.OpenAfter` | crates/meteordb/src/engine.rs:196-393 | At any point of any life at which no process runs, opening rebuilds a store that answers every read as the batches it still holds; these contain every batch acknowledged before, in order; right after a power failure they are a prefix of the batches issued, and right after a kill they are all of them. |
| `Tears.WalTear` | crates/meteordb/src/wal.rs:312-430 | A log torn at any byte of its unsynced tail replays to a content that the file system model allows to survive, and appending continues that content. |
| `Tears.ManifestTear` | crates/meteordb/src/manifest.rs:1129-1253 | The same for the manifest, which is truncated to the valid length first. |
| `Fs.CrashImage.RecordDirectorySync` | crates/meteordb/src/fs.rs:359-380 | The loop over tracked names leaves exactly the visible names durable with their synced contents. |
| `Fs.CrashImage.RecordRename` | crates/meteordb/src/fs.rs:347-357 | A rename moves visible and synced content but not the durable name. |
| `Fs.CrashImage.TrackNewFile` | crates/meteordb/src/fs.rs:320-325 | A new file is visible and empty, and nothing of it is synced or durable. |
| `Fs.CrashImage.RecordWrite` | crates/meteordb/src/fs.rs:327-335 | A write extends only the visible content. |
| `Fs.CrashImage.RecordFileSync` | crates/meteordb/src/fs.rs:337-345 | A file sync makes the content durable only under a name that is durable already. |
| `Fs.CrashImage.RecordRemove` | crates/meteordb/src/fs.rs:390-395 | A removal takes the file out of sight but leaves its durable name. |
| `Fs.CrashImage.RestoreDurableState` | crates/meteordb/src/fs.rs:397-426 | A crash leaves exactly the durable files. |
| `Fs.RestoredSurvives` | crates/meteordb/src/fs.rs:397-426 | The image the fault injector restores is one of the images a power failure may leave in this model. |
| `Kills.KillSafety` | crates/meteordb/src/engine.rs:1307-1337 | After a process kill with an unsynced manifest edit, removing a table that only the edit before needs is safe against a later power failure if and only if the edit is already durable. |
| `Kills.LostTable` | crates/meteordb/src/engine.rs:1307-1337 | If it is not, the durable manifest still replays to a state that needs the removed table. |
| `KillWindows.CompactionOpensWindow` | crates/meteordb/src/engine.rs:634-683 | Every compaction passes through such a window for each of its input files, between the append and the sync of its edit. |
| `KillWindows.WindowExample` | crates/meteordb/src/engine.rs:1307-1337 | A concrete state of the durability invariant in which the table is lost. |
| `Logs.WalTornTail` | crates/meteordb/src/wal.rs:312-430 | For every list of batches the log accepts and every cut of the file, replay returns exactly the batches that end at or before the cut, and appending at the reported length gives the log of those and the new batch. |
| `Logs.ManifestTornTail` | crates/meteordb/src/manifest.rs:1129-1253 | The same for manifests and edits. |
| `Logs.TornFile` | crates/meteordb/src/wal.rs:312-430 | The common statement over any record codec. |
| `Logs.AppendableIff` | crates/meteordb/src/wal.rs:489-504 | A batch within the payload limit fits the record limit if and only if payload plus per-operation overhead is at most nineteen times the limit. |
| `Logs.ManyEmptyOperations` | crates/meteordb/src/wal.rs:188-230 | Four deletions of the empty key pass a one-byte payload limit and are refused by the log. |
| `Logs.NonemptyOperations` | crates/meteordb/src/wal.rs:489-504 | Batches whose operations all carry a payload byte always fit. |
| `RecordLogs.TornLog` | crates/meteordb/src/wal.rs:240-278 | Framing level: any cut of a log replays to the records that end before it, and the log can be continued there. |
| `LogIo.LogWriter.Append` | crates/meteordb/src/wal.rs:240-278 | The fragmenting loop, with its zero-length first fragments and block padding, writes exactly the framing of the record at that position. |
| `LogIo.ReplayFile` | crates/meteordb/src/manifest.rs:1129-1253 | The block-by-block reader returns the records, error or valid length of the recursive definition. |
| `Framing.ReplayRendered` | crates/meteordb/src/wal.rs:312-430 | Rendered fragments are read back one by one, whatever follows. |
| `Framing.ReplayCut` | crates/meteordb/src/wal.rs:312-430 | A cut inside rendered fragments stops the replay after some of them, never after all, and never with an error. |
| `Framing.UnmaskMask` | crates/meteordb/src/wal.rs:510-518 | Unmasking inverts the masking of a checksum. |
| `Framing.MaskUnmask` | crates/meteordb/src/wal.rs:510-518 | Masking inverts unmasking. |
| `BatchCodecs.DecodeEncode` | crates/meteordb/src/batch.rs:190-237 | Decoding inverts encoding of every nonempty encodable batch. |
| `BatchCodecs.EncodeDecode` | crates/meteordb/src/batch.rs:190-237 | Only encodings are accepted: re-encoding a decoded record gives the same bytes. |
| `BatchCodecs.Encoded` | crates/meteordb/src/batch.rs:151-188 | Encoding succeeds exactly when all lengths and the count fit 32 bits. |
| `BatchCodecs.Decoded` | crates/meteordb/src/batch.rs:190-237 | The cursor-based decoder is the parser the round trip is proved about. |
| `EditCodecs.DecodeEncodeEdit` | crates/meteordb/src/manifest.rs:1310-1364 | Decoding inverts encoding of every edit within the size limit. |
| `EditCodecs.EncodeDecodeEdit` | crates/meteordb/src/manifest.rs:1281-1308 | Every accepted record of the current format is the canonical encoding of its edit. |
| `VersionSets.NumbersNeverReused` | crates/meteordb/src/manifest.rs:936-989 | No file number is added by two edits of one replayable manifest. |
| `VersionSets.ReplayCoherent` | crates/meteordb/src/manifest.rs:570-648 | Every state that replay reaches is well formed, with all live numbers used and below the next one. |
| `VersionSets.ReplayGrows` | crates/meteordb/src/manifest.rs:829-926 | Along a manifest all counters only grow and used numbers are never forgotten. |
| `VersionSets.VersionSet.Apply` | crates/meteordb/src/manifest.rs:655-713 | An edit is published exactly when the set is usable, the edit valid and its record synced; a failed write keeps the state and makes the set unusable. |
| `Versions.AppliedMeaning` | crates/meteordb/src/version.rs:97-125 | An accepted edit removes exactly the deleted files, adds exactly the added ones and keeps numbers unique, levels ordered and deeper levels disjoint. |
| `Versions.Apply` | crates/meteordb/src/version.rs:97-125 | The two loops and the per-level sorts compute the specified edit, errors included. |
| `Versions.ValidateNonOverlapping` | crates/meteordb/src/version.rs:150-164 | The pass over neighbours decides whether neighbouring ranges are disjoint. |
| `Versions.AdjacentIsDisjoint` | crates/meteordb/src/version.rs:150-164 | Disjoint neighbours make all ranges of a level disjoint. |
| `Acceptance.EditAccepted` | crates/meteordb/src/version.rs:97-164 | An edit is accepted if and only if its deletions are live, its additions fresh and levels below zero stay apart. |
| `InternalKeys.EncodingOrder` | crates/meteordb/src/internal_key.rs:191-212 | Byte order of encoded keys is exactly user key ascending, sequence descending, kind. |
| `InternalKeys.DecodeEncode` | crates/meteordb/src/internal_key.rs:125-158 | Decoding inverts encoding. |
| `InternalKeys.EncodeDecode` | crates/meteordb/src/internal_key.rs:125-158 | Only encodings are accepted. |
| `InternalKeys.EncodeInjective` | crates/meteordb/src/internal_key.rs:73-99 | Different keys have different encodings. |
| `InternalKeys.DecodeUserKey` | crates/meteordb/src/internal_key.rs:214-251 | The unescaping loop is the parser the round trip is proved about. |
| `InternalKeys.EncodeUserKey` | crates/meteordb/src/internal_key.rs:203-212 | The escaping loop appends the escaped key and terminator. |
| `MemTables.MemTable.Apply` | crates/meteordb/src/memtable.rs:209-259 | Applying a batch adds exactly the effects of its last operation per key at one sequence, or nothing when the sequence is invalid. |
| `MemTables.EffectsMeaning` | crates/meteordb/src/memtable.rs:209-259 | The effects of a batch are exactly the last operation on each of its keys. |
| `MemTables.MemTable.GetEntry` | crates/meteordb/src/memtable.rs:269-280 | One ordered range seek finds the newest visible version. |
| `Mvcc.LowerBoundIsNewest` | crates/meteordb/src/memtable.rs:269-280 | In table order the first entry at or after the seek key answers the lookup. |
| `Mvcc.SeekIsByteOrder` | crates/meteordb/src/engine.rs:776-823 | The order used for seeks is the byte order against the encoded seek key. |
| `Layouts.FirstHitIsNewest` | crates/meteordb/src/engine.rs:776-823 | With layers ordered by age, the first layer that answers holds the newest visible version of all. |
| `PointReads.Get` | crates/meteordb/src/engine.rs:776-823 | The early-stopping read over memory tables, level zero and deeper levels finds the newest visible version of the union of all of them if and only if no covering file has a block boundary that skips the read; otherwise it finds nothing or a strictly older version. |
| `PointReads.SkippedOutdated` | crates/meteordb/src/engine.rs:776-823 | Whatever layer the read stops in, a skipped file holds the newest visible version of all layers, and what was found is older. |
| `PointReads.PartitionPoint` | crates/meteordb/src/engine.rs:776-823 | The binary search finds the first file that does not end before the key. |
| `PointReads.OneCandidate` | crates/meteordb/src/engine.rs:776-823 | In a disjoint level only that file can hold the key. |
| `PointReads.LatestUnskipped` | crates/meteordb/src/engine.rs:776-823 | A read at or above every stored sequence of its key is never skipped. |
| `Routing.LookupExact` | crates/meteordb/src/sstable/reader.rs:520-551 | A lookup through the block index finds the newest visible version if and only if no block boundary is skipped, where the skip condition is arithmetic on the sequences at the boundary and of the read. |
| `Routing.SkipsIff` | crates/meteordb/src/sstable/builder.rs:424-439 | Between two versions of one key, the shortened separator passes over a read exactly under that condition. |
| `Routing.SkippedMisses` | crates/meteordb/src/sstable/reader.rs:520-551 | A skipped boundary loses the newest visible version. |
| `Routing.SkippedExample` | crates/meteordb/src/sstable/reader.rs:520-551 | Versions 784 and 5 of any key, cut between two blocks: a snapshot at 773 sees nothing. |
| `Routing.LatestNeverSkipped` | crates/meteordb/src/sstable/reader.rs:520-551 | Reads at the newest sequence are never affected. |
| `Routing.OneBlockNeverSkipped` | crates/meteordb/src/sstable/reader.rs:520-551 | Nor are tables of a single block. |
| `Routing.OtherKeyRoutes` | crates/meteordb/src/sstable/builder.rs:424-439 | Nor are boundaries between different user keys. |
| `Routing.SeparatorBetween` | crates/meteordb/src/sstable/builder.rs:424-439 | A separator is at or above the last key of its block and below the first of the next. |
| `Retention.RetainVersions` | crates/meteordb/src/compaction.rs:321-376 | The loop over one key's versions keeps exactly the specified ones. |
| `Retention.RetainedReads` | crates/meteordb/src/compaction.rs:321-376 | Dropping history, tombstones and expired values of one key changes no read at a served sequence, at or after the time of the compaction, over any older versions below. |
| `Compactions.Run` | crates/meteordb/src/compaction.rs:213-313 | The merge loop retains per key and splits into outputs that never share a key. |
| `Compactions.RunPreservesReads` | crates/meteordb/src/compaction.rs:213-313 | Replacing the merged input by its retained versions changes no served read. |
| `Install.CompactionPreservesReads` | crates/meteordb/src/engine.rs:634-683 | The same inside a whole store: memory, untouched files and all levels included. |
| `Install.OutsideSandwiches` | crates/meteordb/src/compaction.rs:378-391 | Every version outside a closed plan is newer than the plan's versions of its key, or older and reported by the check of deeper levels. |
| `Outputs.InstallAccepted` | crates/meteordb/src/engine.rs:655-683 | The edit of every compaction of a closed plan is accepted, so levels below zero stay disjoint. |
| `Outputs.InstallEntries` | crates/meteordb/src/engine.rs:655-683 | After the edit the disk holds exactly the untouched versions and the outputs. |
| `Outputs.InstallOrdered` | crates/meteordb/src/engine.rs:655-683 | Levels stay ordered by age. |
| `Plans.MakePlan` | crates/meteordb/src/compaction.rs:120-164 | The widening loop ends with a closed plan that contains its seed; there is none exactly when the level is empty. |
| `Plans.Pick` | crates/meteordb/src/compaction.rs:31-59 | A plan exists if and only if some level is overfull, and then it is for a fullest one. |
| `Plans.UserRangeMeaning` | crates/meteordb/src/compaction.rs:166-183 | The computed range is the smallest that holds all the files. |
| `Stores.CompactKeeps` | crates/meteordb/src/engine.rs:634-683 | A compaction keeps the store invariant: layers ordered by age, and every readable snapshot answered as the full history answers it. |
| `Stores.CommitFlushKeeps` | crates/meteordb/src/engine.rs:1085-1111 | A flush keeps it. |
| `Stores.WriteKeeps` | crates/meteordb/src/engine.rs:445-483 | A write keeps it for the history with the batch's effects. |
| `Stores.RotateKeeps` | crates/meteordb/src/engine.rs:1154-1184 | A rotation keeps it. |
| `Stores.AcquireKeeps` | crates/meteordb/src/engine.rs:530-551 | Taking a snapshot keeps it. |
| `Stores.ReleaseKeeps` | crates/meteordb/src/snapshot.rs:79-94 | Dropping a snapshot keeps it. |
| `Runs.RunKeeps` | crates/meteordb/src/engine.rs:445-483 | Every state of every interleaving of writes, rotations, flushes, compactions and snapshots keeps the store invariant for the history of committed batches. |
| `Runs.GetInRun` | crates/meteordb/src/engine.rs:776-823 | In every such state the read code finds the newest stored visible version if and only if no block boundary skips it, and then returns what the full history says; at the committed sequence that is always so. |
| `Snapshots.SnapshotRegistry.Acquire` | crates/meteordb/src/snapshot.rs:32-49 | Registers one guard more. |
| `Snapshots.SnapshotRegistry.Release` | crates/meteordb/src/snapshot.rs:79-94 | Removes one guard and forgets a sequence with none left. |
| `Snapshots.SnapshotRegistry.OldestActive` | crates/meteordb/src/snapshot.rs:51-56 | Returns the least registered sequence. |
| `Iterators.MergingIterator.Next` | crates/meteordb/src/iter.rs:117-130 | The heap step yields the head of the merge of the children, and an error is reported once. |
| `Iterators.MergeSorted` | crates/meteordb/src/iter.rs:83-130 | Merging sorted disjoint children gives one sorted stream. |
| `Iterators.MergeMembers` | crates/meteordb/src/iter.rs:83-130 | The merge holds exactly the children's entries. |
| `Iterators.KvIterator.Next` | crates/meteordb/src/iter.rs:214-262 | Each call yields the next row of the scan, skipping hidden and expired keys. |
| `Scans.ScanMeaning` | crates/meteordb/src/iter.rs:214-262 | A scan yields exactly the first keys, up to the limit, that are in bounds and visible, in order, with their visible values. |
| `Scans.PrefixBoundsExact` | crates/meteordb/src/iter.rs:288-303 | Prefix bounds hold exactly the keys that start with the prefix. |
| `Scans.ComputePrefixSuccessor` | crates/meteordb/src/iter.rs:297-303 | The search from the end finds the specified successor. |
| `StoreScans.ScanStore` | crates/meteordb/src/engine.rs:859-915 | The scan over memory tables and overlapping files yields the rows the union of all entries defines. |
| `Engines.Engine.Write` | crates/meteordb/src/engine.rs:445-483 | A batch is committed at the next sequence with exactly its effects, or refused with nothing stored; the refusals, failures of the log and a closed engine included, are characterised exactly, and so is when one ends all further writing. |
| `Engines.UnloggableIff` | crates/meteordb/src/engine.rs:1521-1557 | The batches that pass the limits but that the log refuses, as a condition on sizes. |
| `Engines.AcceptedAndRefused` | crates/meteordb/src/engine.rs:1521-1557 | Such batches exist. |
| `Engines.Engine.RotateMemtable` | crates/meteordb/src/engine.rs:1154-1184 | The mutable table joins the queue unless file numbers are exhausted or its log cannot be created, and the read invariant is kept. |
| `Engines.Engine.CommitFlush` | crates/meteordb/src/engine.rs:1085-1111 | The oldest queued table becomes a file, the edit is never refused, and the read invariant is kept. |
| `Engines.Engine.BeginFlush` | crates/meteordb/src/engine.rs:1040-1080 | A flush begins exactly when a table is queued, a number is left and nothing failed; exhausted numbers end writing and reading. |
| `Engines.Engine.AbandonFlush` | crates/meteordb/src/engine.rs:1112-1117 | A flush that fails keeps its table in memory and ends writing and reading. |
| `Engines.Engine.Compact` | crates/meteordb/src/engine.rs:595-683 | A compaction changes no history and keeps the read invariant; there is none exactly when no level is overfull; a failure, also in the removal of old files after the edit, ends writing and reading, while a refusal changes nothing. |
| `Engines.Engine.Get` | crates/meteordb/src/engine.rs:486-502 | A get returns the newest committed value of the history; it fails exactly for a long key, a closed engine or a background failure. |
| `Engines.Engine.GetAt` | crates/meteordb/src/engine.rs:762-823 | A read at a held snapshot finds the newest stored visible version if and only if no block boundary skips it, and then returns the value of the history; it fails exactly in the same cases. |
| `Engines.Engine.ScanAt` | crates/meteordb/src/engine.rs:841-915 | A scan returns the rows of the history; it fails exactly for a long bound, a background failure or, unless its limit is zero, a closed engine. |
| `Engines.Engine.TakeSnapshot` | crates/meteordb/src/engine.rs:530-551 | A snapshot registers the committed sequence, unless the engine is closed or failed in the background. |
| `Engines.Engine.DropSnapshot` | crates/meteordb/src/snapshot.rs:79-94 | Dropping a snapshot removes one registration and keeps the read invariant. |
| `Engines.Engine.Close` | crates/meteordb/src/engine.rs:687-709 | A close always closes, and reports exactly an earlier failure or a failed sync. |
| `Varints.ReadPut` | crates/meteordb/src/sstable/format.rs:141-166 | Reading inverts writing, whatever follows. |
| `Varints.PutRead` | crates/meteordb/src/sstable/format.rs:141-166 | Only the shortest form is accepted. |
| `Varints.ReadFits` | crates/meteordb/src/sstable/format.rs:141-166 | A number read fits 64 bits. |
| `Varints.ReadVarint` | crates/meteordb/src/sstable/format.rs:141-166 | The shifting loop is that reader. |
| `Varints.PutVarint` | crates/meteordb/src/sstable/format.rs:133-139 | The writing loop appends that form. |
| `BlockBuilding.BlockBuilder.Add` | crates/meteordb/src/sstable/block.rs:71-112 | A pair is added exactly when its key is above the last one and a due restart offset fits 32 bits; otherwise nothing changes. |
| `BlockBuilding.BlockBuilder.Finish` | crates/meteordb/src/sstable/block.rs:114-121 | A finished block passes every check of the decoder, holds exactly the pairs added, and stays within a computed bound. |
| `BlockBuilding.SoundAccepted` | crates/meteordb/src/sstable/block.rs:71-121 | Every buffer the builder can reach decodes to the entries it stands for. |
| `BlockChecks.Decode` | crates/meteordb/src/sstable/block.rs:151-244 | A block is accepted if and only if it is well formed, and then it is the block its bytes describe. |
| `BlockChecks.CountDecides` | crates/meteordb/src/sstable/block.rs:151-244 | Counting the restart offsets that were met decides whether all of them were. |
| `Blocks.Seek` | crates/meteordb/src/sstable/block.rs:276-297 | The binary search over restarts followed by a linear walk is the lower bound over all entries. |
| `Blocks.RestartPartition` | crates/meteordb/src/sstable/block.rs:276-297 | The binary search returns the last restart whose key is at most the target, or the first restart when there is none. |
| `Bloom.FromKeys` | crates/meteordb/src/bloom.rs:34-72 | A built filter contains every key it was built from. |
| `Bloom.SetKeyBits` | crates/meteordb/src/bloom.rs:134-138 | Sets exactly the probed bits of a key in the array. |
| `Bloom.MayContainKey` | crates/meteordb/src/bloom.rs:110-123 | The query tests exactly the probed bits. |
| `TableFormat.DecodeHandleOf` | crates/meteordb/src/sstable/format.rs:53-92 | Handles round-trip. |
| `TableFormat.ReadStoredOf` | crates/meteordb/src/sstable/format.rs:95-131 | A stored block unseals to its payload under any checksum. |
| `TableFormat.ReadFooterOf` | crates/meteordb/src/sstable/builder.rs:383-398 | A footer of contiguous parts decodes to its handles. |
| `TableFormat.DecodePropertiesOf` | crates/meteordb/src/sstable/reader.rs:887-944 | Properties round-trip. |
| `TableBuilding.SeparatorBounds` | crates/meteordb/src/sstable/builder.rs:264-316 | Each index key stands between its block and the next. |
| `TableBuilding.IndexOfArea` | crates/meteordb/src/sstable/reader.rs:185-353 | Reading the index of a data area gives back its separators and handles, contiguous from zero. |
| `TableBuilding.BuildIndex` | crates/meteordb/src/sstable/builder.rs:264-316 | The index loop writes a block that holds exactly the separators and handles. |
| `TableWriting.TableBuilder.Add` | crates/meteordb/src/sstable/builder.rs:204-262 | A row is added exactly when its key is above the last one; blocks are cut at the size limit. |
| `TableWriting.TableBuilder.FlushDataBlock` | crates/meteordb/src/sstable/builder.rs:318-346 | The open block is closed, described and appended; no row is lost or moved. |
| `TableWriting.TableBuilder.Finish` | crates/meteordb/src/sstable/builder.rs:264-316 | The file is a well-formed table of exactly the rows added; it fails only for no rows or when a size outgrows its encoding. |
| `TableReading.CheckIndex` | crates/meteordb/src/sstable/reader.rs:185-353 | The pass over index entries accepts exactly contiguous handles. |
| `TableLookups.TableOpens` | crates/meteordb/src/sstable/reader.rs:185-353 | Every finished file passes all open checks. |
| `TableLookups.TableIterates` | crates/meteordb/src/sstable/reader.rs:721-756 | Every finished file iterates back to exactly the rows that were added. |
| `TableLookups.Iterate` | crates/meteordb/src/sstable/reader.rs:721-756 | The block-by-block walk reads the rows, or stops at the first damage. |
| `TableVisible.GetVisible` | crates/meteordb/src/sstable/reader.rs:520-551 | The lookup code, through filter, index search and block read, errors included, is the lookup the exactness theorem speaks of. |
| `TableVisible.TableVisibleExact` | crates/meteordb/src/sstable/reader.rs:520-551 | On the bytes of a written file the lookup returns the newest visible version if and only if no block boundary skips it. |
| `TableVisible.FilterAgrees` | crates/meteordb/src/sstable/reader.rs:520-551 | The filter never hides an entry the index would find. |
| `EngineValues.DecodeEncodeRecord` | crates/meteordb/src/memtable.rs:75-102 | Stored values, expirations and tombstones round-trip. |
| `EngineValues.EncodeDecodeRecord` | crates/meteordb/src/memtable.rs:104-177 | Only encodings of the right kind are accepted. |
| `BlockLimits.EngineReadsItsTables` | crates/meteordb/src/engine.rs:1462-1470 | Every block of every table the engine writes is within the limit the engine opens it with. |
| `BlockLimits.EngineReadsItsBlocks` | crates/meteordb/src/engine.rs:1462-1470 | The same for one block. |
| `BlockLimits.CompactionReadsAllIff` | crates/meteordb/src/compaction.rs:492-497 | Compactions can read every block the engine writes if and only if a block of the one longest row that the key, value and batch limits admit fits their own limit. |
| `BlockLimits.CompactionRefuses` | crates/meteordb/src/compaction.rs:492-497 | With values and batches of up to a gigabyte it does not, while the engine reads such a block itself. |
| `BlockLimits.DefaultsRead` | crates/meteordb/src/options.rs:83-98 | With the default limits it does. |
| `BlockLimits.LargestIsLargest` | crates/meteordb/src/compaction.rs:492-497 | No row within the limits makes a longer block than that row. |
| `RowLimits.EngineEntryIff` | crates/meteordb/src/engine.rs:1521-1557 | The versions counted there are exactly those that some batch within the limits, accepted by the log, commits. |
| `Caches.BlockCache.Get` | crates/meteordb/src/cache.rs:108-133 | A hit returns the value of the ideal recency list and moves it to the recent end; the other partition is unchanged. |
| `Caches.BlockCache.Insert` | crates/meteordb/src/cache.rs:135-171 | A block is admitted exactly when it fits its partition, and the list afterwards is the ideal one: old copy dropped, least recent evicted until it fits. |
| `Caches.BlockCache.Renormalize` | crates/meteordb/src/cache.rs:196-224 | Replacing stamps by ranks before they overflow changes neither list. |
| `Caches.TrimmedSuffix` | crates/meteordb/src/cache.rs:273-293 | Eviction keeps the longest recent end that fits. |
| `Caches.Ranked` | crates/meteordb/src/cache.rs:196-224 | The ranking is order preserving and dense. |
| `Leases.ReaderNeverMisses` | crates/meteordb/src/engine.rs:1228-1305 | Over every interleaving of reads, number allocations for logs and tables, table writes, published edits, cleanups of refused compactions, reclaims and failed removals, a read that has not ended still holds its version and finds every file of it. |
| `Leases.TableFiles.Reclaim` | crates/meteordb/src/engine.rs:1228-1290 | Removes every queued file that no held version names, and on an error keeps the rest queued; nothing is forgotten. |
| `Leases.RemoveFiles` | crates/meteordb/src/engine.rs:1251-1276 | The nested loops split the queue into removed files and files still queued. |
| `Leases.TableFiles.Register` | crates/meteordb/src/engine.rs:1292-1305 | A read leases the current version; pruning forgets no live reader. |
| `Leases.TableFiles.Publish` | crates/meteordb/src/engine.rs:634-683 | A published version has its new files on disk and none of the queued ones; a refused edit removes the new files again, and one that may be visible keeps them. |
| `Leases.TableFiles.Allocate` | crates/meteordb/src/engine.rs:1368-1379 | Numbers are handed out once, to logs and tables alike, until they are exhausted. |
| `Leases.NoReaderNoneHeld` | crates/meteordb/src/engine.rs:1228-1290 | Without readers nothing is protected, so a reclaim without error empties the queue. |
| `Signals.WorkerSleepsIff` | crates/meteordb/src/background.rs:52-64 | In every interleaving a parked worker sleeps on exactly when a multiple of 2^64 wakes followed its last look at the generation; with fewer it never sleeps on queued work or a closed engine. |
| `Signals.StrandedIff` | crates/meteordb/src/engine.rs:567-590 | A waiting flush is left without a worker to wake it if and only if the worker has exited, and then a failure had been recorded without a wake. |
| `Signals.SilentFailureFate` | crates/meteordb/src/engine.rs:1040-1060 | After such a failure a worker that is building a table still wakes the callers; any other exits and leaves them waiting. |
| `Signals.SilentFailureWakesIff` | crates/meteordb/src/engine.rs:1040-1120 | In every run, after such a failure with callers waiting, the worker makes at most two more moves, and they wake the callers if and only if it was building a table; otherwise all of them wait on. |
| `Signals.StrandedExample` | crates/meteordb/src/engine.rs:460-466 | A run in which that happens. |
| `Signals.RunGood` | crates/meteordb/src/background.rs:26-64 | The invariant behind these, in every state of every interleaving. |
| `Singleflight.RunKeeps` | crates/meteordb/src/workloads/inference_cache.rs:223-299 | Every state of every interleaving of calls satisfies the invariant. |
| `Singleflight.NoOverlap` | crates/meteordb/src/workloads/inference_cache.rs:223-299 | Computations of one key never overlap. |
| `Singleflight.ComputesOnlyAfterMiss` | crates/meteordb/src/workloads/inference_cache.rs:223-299 | A computation starts only while its key is absent and only for the leader of its one flight. |
| `Singleflight.FollowerReturnsOutcome` | crates/meteordb/src/workloads/inference_cache.rs:422-435 | A follower returns what its leader returned, a panic included. |
| `Singleflight.NoLostWakeup` | crates/meteordb/src/workloads/inference_cache.rs:364-376 | A sleeping follower always has a leader that is still to notify. |

## Findings

Properties that are false of the code. Each has an exact condition, and all but the last a concrete witness.

- A snapshot read can miss a version that exists (`Routing.SkippedExample`, `Routing.LookupExact`,
  `TableVisible.TableVisibleExact`, `PointReads.Get`, `Runs.GetInRun`). When a block boundary falls between two versions
  of one key, the index separator is shortened inside the sequence bytes and can pass the seek key of a read between
  them. The read then finds nothing or an older version. Reads at the newest sequence are never affected
  (`Engines.Engine.Get`).
- A process kill followed by a power failure can lose a table (`Kills.KillSafety`, `KillWindows.CompactionOpensWindow`,
  `KillWindows.WindowExample`). If the kill falls between the append and the sync of a manifest edit, the next open sees
  the edit, removes the tables it dropped and syncs the directory, but not the manifest. Power failures alone are safe,
  and so are kills that find the manifest durable (`Worlds.NothingAcknowledgedIsLost`).
- The engine accepts batches that its log refuses, and then stops writing for good (`Logs.ManyEmptyOperations`,
  `Logs.AppendableIff`, `Engines.UnloggableIff`, `Engines.Engine.Write`). Operations with empty keys and values add record
  bytes that the payload limit does not count.
- A compaction can refuse to read a table that the engine wrote and reads itself (`BlockLimits.CompactionRefuses`,
  `BlockLimits.CompactionReadsAllIff`). Its block limit does not include the largest key and value. The default options
  are not affected (`BlockLimits.DefaultsRead`).
- A caller waiting in `flush` can be left waiting (`Signals.StrandedExample`, `Signals.StrandedIff`,
  `Signals.SilentFailureWakesIff`). A failed write or sync records the failure without a wake, and a worker that then finds it
  exits without one.
- The worker's generation counter wraps: exactly a multiple of 2^64 wakes between two looks goes unnoticed
  (`Signals.WorkerSleepsIff`).

## Left out

- Engines.Engine.Write: the time at which an expiration is computed is not part of the class; what a failed log write leaves on disk is stated in `Worlds`.
- Engines.Engine.GetAt: the value returned equals the history's value when no block boundary skips the read; that it differs otherwise is stated of the version found, since two versions may hold the same value.
- Runs.GetInRun: the same.
- PointReads.Get: memory tables are probed as sorted sequences; the table file's bytes enter through `TableVisible.TableVisibleExact`.
- Reopening.Reopen: works on log records; the bytes of a torn log enter through `Tears.WalTear` and `Tears.ManifestTear`.
- Worlds.NothingAcknowledgedIsLost: a kill between the append and the sync of a manifest edit is not part of a life, because the property is false then; see Findings. A kill during creation is covered once the pointer file is durable or not yet visible. Acknowledgement means synced; what the buffered durability mode may lose is not stated beyond keeping a prefix.
- Signals.StrandedIff: states which states are stuck; that every flush returns under fair scheduling is not stated.
- Leases.ReaderNeverMisses: reads of file contents are steps between the modelled ones; the contents themselves are never changed in place.
- Plans.Pick: scores are compared as exact fractions instead of floating point.
- Snappy compression, the CRC polynomial, and version-one table files: blocks are stored plain and the checksum is a parameter.
- Compaction plans that a caller keeps across other compactions, and level statistics.
- Database locks, symbolic links, file name parsing, inspection commands, statistics and the command line tools.
- The key encoding and hashing of the inference cache, and the embedding and feature stores.
