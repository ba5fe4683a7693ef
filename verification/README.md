# A verified model of a log-structured key-value store

The store keeps recent writes in a memory table over a write-ahead log, moves full tables to
sorted files in the background, merges those files, and can send its log to a backup.  The
project models each component as the program is built, the mutable ones as classes whose
methods update fields, arrays and linked nodes in place, and proves them against one plain
thing: a map from keys to live values.

The layers, from the bottom:

- **Order, lists, tables** (`Basics`, `SortedEntries`, `Tables`): keys are byte strings under
  one total order; a table maps keys to versions, and a stack of tables shows the newest.
- **Memory table** (`RedBlackTree`, `RedBlackHeap`, `SortedMap`, `MemTable`): the red-black
  tree with parent pointers.  `RedBlackTree` is about trees with a focus, `RedBlackHeap` about
  linked nodes that represent them, `SortedMap` is the program on the nodes.
- **Merge** (`MinHeap`, `MergeIterator`): the k-way merge over an array heap.
- **Table files** (`Buffers`, `PairFormat`, `BloomFilter`, `SSTableFormat`, `SSTableLayout`,
  `SSTableWriter`, `SSTableReader`, `TableFiles`): files as byte strings, from the writer's
  buffers to binary search and scan in the reader.
- **Log** (`LogEntries`, `Framing`, `Crc32`, `WalFormat`, `WriteAheadLog`, `GroupCommit`):
  record format, checksum, replay, the log's files, and group commit behind a FIFO mutex.
- **Store** (`Manifest`, `WriteEffects`, `StoreMachine`, `ReadableStore`, `Compaction`,
  `LSMStore`, `SuspendedReads`): `StoreMachine` is the store as a state machine (writes, the steps of a flush and
  of a compaction, crashes); the class `LSMStore` performs those steps on the real tables,
  readers, manifest, files and log, one method a step.
- **Replication** (`ReplicationProtocol`, `ReplicationSession`, `ReplicationManager`,
  `ReplicationServer`, `ReplicatedStores`): the messages, one session over two byte streams,
  the two ends, and the two stores behind them.

The store machine lets writes interleave with every step of a flush or a compaction, and a
crash come anywhere, also in the middle of an append, which leaves a part of a record behind.
A flush and a compaction do not overlap in it; the program does not enforce that, and the swap
with which an overlap would begin is an action of its own (`RecklessSwap`).

`SuspendedReads` is about reads that wait while all this goes on.  `ByteForms` fixes the formats by
byte strings.

## Findings

Where the code falls short of what its comments or its documentation promise, the code is
modelled as it is, an input is given, and the exact condition is proved.

- **Writes behind a torn record are lost.**  A crash in the middle of an append leaves a part of
  a record; after the restart the program appends behind it (`src/storage/wal/WAL.ts:63-82`),
  and replay stops there (`src/storage/wal/WAL.ts:188-217`), although the repository's README
  promises no data loss on a crash.  `StoreMachine.TornLogLosesWrites` is a run that loses an
  acknowledged write; `WalFormat.BehindTornRecord` says when bytes behind the first part of a
  record are found: only if they fill it up to a body that its checksum accepts.  Starting a new
  log file ends it.
- **Writes during a flush can be lost.**  The checkpoint at the end of a flush deletes the
  records of writes accepted after the swap (`src/storage/wal/WAL.ts:246-256`).
  `StoreMachine.WriteDuringFlushCanBeLost` is a run that loses a write;
  `StoreMachine.CheckpointIsSafeExactlyWhen` says when a checkpoint is harmless.
- **Log files may go in the wrong order.**  A crash between the checkpoint's rotation and its
  deletions leaves several log files.  The next checkpoint deletes them in the order in which the
  directory lists them and ignores deletions that fail (`src/storage/wal/WAL.ts:246-256`), so a
  later one can go while an earlier one stays; a crash then brings an overwritten value back
  (`StoreMachine.LaterLogFirstRevives`).  A deletion is harmless exactly if the file's records
  change only keys that later files write again (`StoreMachine.DropIsSafeExactlyWhen`); oldest
  first is (`StoreMachine.OldestFirstIsSafe`).
- **A failed flush loses its table at the next swap.**  The flag is cleared and the immutable table
  stays (`src/storage/LSMStore.ts:347-366`), and the next swap puts another in its place:
  `StoreMachine.FailedFlushIsOverwritten` is such a run.  A swap finds a table exactly if the last
  flush has failed (`StoreMachine.TableIsLeftExactlyAfterFailure`), and
  `StoreMachine.RecklessSwapShows` is what readers then see.
- **Rejected writes can come back.**  One entry that cannot be written rejects its whole batch, and
  the entries before it stay in the file (`src/storage/wal/WAL.ts:138-156`).
  `GroupCommit.FailedBatch` says which they are: exactly those written so far; and
  `GroupCommit.StraysComeFromFailedBatches` that there are no others.
- **The read window can be too small or too large.**  `readEntryAt` takes four bytes of the key for
  the length of the value (`src/storage/sstable/SSTableReader.ts:296-297`).  An entry comes back
  exactly if that number covers its value and the window can be read at once
  (`SSTableReaders.ReadEntryAt`).  `SSTableLayout.ZeroKeyIsNotCovered` is an entry that does not;
  no entry does whose key begins with a byte from 0x80 on, as in any key that begins outside
  ASCII (`SSTableLayout.HighKeyIsNeverCovered`); every lookup of such a key fails
  (`SSTableLayout.UncoveredIsNeverFound`), and so does every compaction of its file.
  `SSTableLayout.PrintableIsCovered` covers keys that begin with a printable ASCII character.
- **Replay skips empty keys** that the live path stores from a batch
  (`src/storage/LSMStore.ts:230-232` and `486`): replay agrees with the write exactly if no key
  is empty (`WriteEffects.ReplayAgrees`).
- **A delete takes a present entry's size off twice** (`src/storage/memtable/MemTable.ts:43-48`):
  the running size is the exact sum less those sizes, and exact exactly if no delete has hit
  (`MemTables.MemTable.Delete`).
- **A range limit of 0 acts like 1**, as the count is looked at after a pair is out
  (`src/storage/LSMStore.ts:298-304`; `LSMStores.LSMStore.ReadKeyRange`).
- **The length field is not covered by the checksum** (`src/storage/wal/WAL.ts:310-320`): one that
  points beyond the file hides its record and all behind it (`WalFormat.LongLengthHides`).
  Replay stops behind a record exactly if the next length field, damaged or not, points beyond
  the file or at a body that is not accepted (`WalFormat.ReplayStopsExactlyWhen`).
- **Malformed bytes at the backup** leave its whole buffer in place, so that messages it has
  handled are handled again (`src/replication/ReplicationServer.ts:104-115`;
  `ReplicationServers.ReplicationServer.HandleData`, which says exactly when;
  `ReplicationProtocol.UnknownOpcode` are such bytes, and `ReplicationProtocol.ParsedAgain` is why).
  In a session none arrive.

## Model

| member | source | states |
|---|---|---|
| Keys.LessIsFirstDifference | src/storage/memtable/SortedMap.ts:28-32 | a key is less exactly if, where the two first differ, it has ended or has the smaller byte |
| Keys.CompareLaws | src/storage/memtable/SortedMap.ts:28-32 | the comparison is negative, zero or positive exactly as the first differing byte, or the end of a key, says |
| RedBlackTree.LogarithmicHeight | src/storage/memtable/SortedMap.ts:1-20 | a red-black tree's height is at most twice the base-two logarithm of its entry count plus one, as the header promises |
| RedBlackTree.RotateOuterKeeps | src/storage/memtable/SortedMap.ts:252-255 | with the violation on the outside, recolouring and one rotation end it: black heights and key order are as before |
| RedBlackTree.InsertDone | src/storage/memtable/SortedMap.ts:277 | once the insertion loop has ended, painting the root black leaves a red-black tree |
| RedBlackTree.RotateSiblingKeeps | src/storage/memtable/SortedMap.ts:392-397 | turning a red sibling of the double-black node into a black one keeps the deletion's state and the key order |
| RedBlackTree.LastRotationEnds | src/storage/memtable/SortedMap.ts:415-425 | with a red outer nephew, the last rotation removes the missing black: the whole tree is red-black again |
| RedBlackTree.DeleteDone | src/storage/memtable/SortedMap.ts:468-470 | where the deletion loop ends, at the root or at a red node, painting that node black makes the whole tree red-black |
| RedBlackTree.SiblingExists | src/storage/memtable/SortedMap.ts:390-399 | a double-black node below the root has a sibling, so the exit for a missing sibling is never taken |
| RedBlackTree.SuccessorOrder | src/storage/memtable/SortedMap.ts:338-357 | replacing a node by its in-order successor removes exactly its entry from the order |
| RedBlackHeap.RotateShaped | src/storage/memtable/SortedMap.ts:280-322 | the rotation's pointer assignments, parent links included, turn linked nodes that represent a tree into ones that represent the rotated tree |
| RedBlackHeap.TookPlaceShaped | src/storage/memtable/SortedMap.ts:353-356 | after the successor has taken over parent, left child and colour, the nodes represent the tree with the node replaced |
| SortedMaps.SortedMap.FixInsert | src/storage/memtable/SortedMap.ts:228-278 | from the one possible red-red violation the loop restores every invariant, keeps the order, and ends |
| SortedMaps.SortedMap.FixDelete | src/storage/memtable/SortedMap.ts:385-471 | from the one missing black the loop restores every invariant, keeps the order, and ends, the double-black node possibly null |
| SortedMaps.SortedMap.DeleteNode | src/storage/memtable/SortedMap.ts:324-362 | exactly the node's entry leaves the in-order list, the tree is red-black, and exactly that node is unlinked |
| SortedMaps.SortedMap.Set | src/storage/memtable/SortedMap.ts:49-97 | the map is updated at that key and nowhere else; order, colours, black heights, parent links and count hold |
| SortedMaps.SortedMap.Delete | src/storage/memtable/SortedMap.ts:120-128 | the key is removed and nothing else; it tells whether the key was there; every invariant and the count hold |
| SortedMaps.SortedMap.Get | src/storage/memtable/SortedMap.ts:103-106 | lookup in the map the tree stands for |
| SortedMaps.SortedMap.Entries | src/storage/memtable/SortedMap.ts:145-149 | all pairs, one per entry, strictly ascending |
| SortedMaps.SortedMap.Range | src/storage/memtable/SortedMap.ts:155-224 | the pruned traversal yields exactly the pairs in the closed range, ascending |
| MemTables.MemTable.Put | src/storage/memtable/MemTable.ts:15-29 | one key gets the new version; the running size stays the exact sum less what deletes took off twice |
| MemTables.MemTable.Delete | src/storage/memtable/MemTable.ts:43-49 | the key gets a tombstone; the running size loses a present entry's size once more than it should |
| MemTables.MemTable.Clear | src/storage/memtable/MemTable.ts:68-71 | empty, with the size exact again |
| MemTables.EntrySizeLaw | src/storage/memtable/MemTable.ts:76-81 | an empty entry counts 49, and each byte of key or value one more |
| MinHeaps.MinHeap.Insert | src/common/MinHeap.ts:13-16 | the item joins the others and the heap order is restored by swaps upwards |
| MinHeaps.MinHeap.ExtractMin | src/common/MinHeap.ts:18-31 | the root leaves, all others stay, and swaps downwards restore the heap order |
| MinHeaps.RootIsLeast | src/common/MinHeap.ts:18-35 | in heap order the root is not above any item |
| MinHeaps.MinHeap.Peek | src/common/MinHeap.ts:33-35 | the root, or nothing exactly if the heap is empty, and no change |
| MergeIterators.MergeIterator.Round | src/storage/iterator/MergeIterator.ts:116-130 | one round takes the least pending key with the newest source's version, drops its older versions, and shortens what is unread |
| MergeIterators.MergeIterator.Next | src/storage/iterator/MergeIterator.ts:112-134 | each yield is the least visible key with its winning value; keys come in ascending order; none visible is left out |
| MergeIterators.MergeIterator.Collect | src/storage/iterator/MergeIterator.ts:112-134 | run to its end or to a limit, the merge yields the sorted list of what the overlay of all sources shows |
| MergeIterators.FirstOfIsPrefix | src/storage/LSMStore.ts:294-305 | a limit keeps that many pairs from the front, at least one, as far as there are any |
| BloomFilters.NoFalseNegatives | src/storage/sstable/BloomFilter.ts:49-66 | every added key may be held, whatever else is added |
| BloomFilters.FilterRoundTrip | src/storage/sstable/BloomFilter.ts:24-80 | a filter comes back from its bytes bit by bit |
| BloomFilters.Test | src/storage/sstable/BloomFilter.ts:57-66 | the loop over hash functions answers yes exactly if all the key's bits are set |
| BloomFilters.KnownHashes | src/storage/sstable/BloomFilter.ts:111-127 | both hash functions have their published values on short strings |
| BloomFilters.KnownPositions | src/storage/sstable/BloomFilter.ts:90-98 | positions start at the first hash and go on by the second, modulo 2^32 and then modulo the size |
| BloomFilters.BloomFilter.Add | src/storage/sstable/BloomFilter.ts:49-55 | in place, exactly the key's bits are set and no other changes |
| BloomFilters.BloomFilter.MightContain | src/storage/sstable/BloomFilter.ts:57-66 | yes exactly if all the key's bits are set |
| SSTableFormat.EntryRoundTrip | src/storage/sstable/SSTableSerializer.ts:11-65 | an entry is decoded exactly wherever its bytes stand |
| SSTableFormat.IndexEntryRoundTrip | src/storage/sstable/SSTableSerializer.ts:67-106 | an index entry is decoded exactly wherever its bytes stand |
| SSTableFormat.FooterRoundTrip | src/storage/sstable/SSTableSerializer.ts:108-171 | a footer read back gives the writer's metadata |
| SSTableFormat.SerializeFooter | src/storage/sstable/SSTableSerializer.ts:108-165 | the buffer filled at a moving offset is the footer's format, of the computed size |
| SSTableLayout.IndexSamples | src/storage/sstable/SSTableWriter.ts:77-89 | the sparse index holds every interval-th key with the offset of its entry |
| SSTableLayout.IndexLength | src/storage/sstable/SSTableWriter.ts:77-89 | it has one entry for every started interval, so it misses none |
| SSTableLayout.StartIndexIsLastSample | src/storage/sstable/SSTableReader.ts:307-333 | a scan begins at the last sampled entry that is not above the key, or at the first entry |
| SSTableLayout.StartIsEarlyEnough | src/storage/sstable/SSTableReader.ts:307-333 | that offset is an entry's, and all entries before it have smaller keys |
| SSTableLayout.FilterHoldsKeys | src/storage/sstable/SSTableWriter.ts:72-80 | the file's filter may hold every key of the file |
| SSTableLayout.WindowDecodes | src/storage/sstable/SSTableReader.ts:292-305 | a window sized by the claimed length yields the entry exactly if it covers the value |
| SSTableLayout.PrintableIsCovered | src/storage/sstable/SSTableReader.ts:292-305 | a first key byte from 0x20 to 0x7E makes the window cover any value below 2^29 bytes |
| SSTableLayout.ZeroKeyIsNotCovered | src/storage/sstable/SSTableReader.ts:292-305 | an entry that fits the format but cannot be read back |
| SSTableLayout.HighKeyIsNeverCovered | src/storage/sstable/SSTableReader.ts:292-305 | with a first key byte from 0x80 on no entry can be read back, whatever its value |
| SSTableLayout.UncoveredIsNeverFound | src/storage/sstable/SSTableReader.ts:84-112 | every lookup of the key of an entry that is not covered fails |
| SSTableWriters.SSTableWriter.Add | src/storage/sstable/SSTableWriter.ts:29-43 | an entry is accepted exactly if the file is not built and its key is above the last |
| SSTableWriters.SSTableWriter.Build | src/storage/sstable/SSTableWriter.ts:49-152 | it succeeds exactly once, with entries, if every number fits, and then yields data, index, filter and footer as laid out |
| SSTableReaders.FindStartOffset | src/storage/sstable/SSTableReader.ts:307-333 | the binary search finds the offset of the last index entry not above the key |
| SSTableReaders.ReadEntryAt | src/storage/sstable/SSTableReader.ts:292-305 | on an entry's offset it returns that entry exactly if the entry is covered, and fails otherwise |
| SSTableReaders.ReadFooter | src/storage/sstable/SSTableReader.ts:169-236 | the footer of a built file is found from its end and read exactly |
| SSTableReaders.LoadSparseIndex | src/storage/sstable/SSTableReader.ts:262-290 | the index that stands in the file is read back entry by entry |
| SSTableReaders.LoadBloomFilter | src/storage/sstable/SSTableReader.ts:238-260 | the filter that stands in the file is read back exactly |
| SSTableReaders.SSTableReader.OpenFile | src/storage/sstable/SSTableReader.ts:31-64 | opening a built file recovers metadata, index and filter of its entries |
| SSTableReaders.SSTableReader.MayContain | src/storage/sstable/SSTableReader.ts:114-127 | it denies exactly the keys outside the file's range or with a bit that is not set, and so no key of the file |
| SSTableReaders.SSTableReader.Get | src/storage/sstable/SSTableReader.ts:84-112 | on a built file: success exactly if every entry from the sampled start to where the scan stops is covered, and then lookup in the entry list |
| SSTableReaders.SSTableReader.Iterate | src/storage/sstable/SSTableReader.ts:135-167 | success exactly if every entry read is covered, and then exactly the entries in the range, in order |
| TableFiles.AddAll | src/storage/LSMStore.ts:400-408 | the writer rejects no entry of a sorted list |
| TableFiles.BuildTable | src/storage/LSMStore.ts:392-411 | a file appears under the number exactly if the list is not empty and fits, and no other file changes |
| LogEntries.PayloadRoundTrip | src/storage/wal/WAL.ts:324-452 | puts, deletes and batches of any length come back from their payload bytes |
| LogEntries.SerializePayload | src/storage/wal/WAL.ts:324-389 | the buffer filled at a moving offset is the payload format |
| LogEntries.DeserializeBatch | src/storage/wal/WAL.ts:434-449 | the decoding loop reads as many pairs as the count says, or fails |
| Crc32.CalculateChecksum | src/storage/wal/WAL.ts:454-465 | the two nested loops compute the fold of eight shifts a byte that the other rows are about |
| Crc32.ChecksumIsTableCrc | src/storage/wal/WAL.ts:454-465 | that checksum equals the table-driven CRC-32 of section 8 of RFC 1952 on every byte string |
| Crc32.CheckValue | src/storage/wal/WAL.ts:454-465 | the digits from 1 to 9 have the published check value |
| Crc32.DetectsWindow | src/storage/wal/WAL.ts:454-465 | every change confined to four consecutive bytes changes the checksum |
| WalFormat.SerializeEntry | src/storage/wal/WAL.ts:293-322 | a record is written exactly if the entry is accepted and fits, the checksum over what stands behind it |
| WalFormat.RecordRoundTrip | src/storage/wal/WAL.ts:293-322 | a record that was written passes its checksum and is read back as it was |
| WalFormat.ReadLogFile | src/storage/wal/WAL.ts:181-224 | the replay loop reads on to the first record that is incomplete, damaged or undecodable |
| WalFormat.ReplayWhole | src/storage/wal/WAL.ts:181-224 | a whole log is replayed entry by entry |
| WalFormat.ReplayTruncated | src/storage/wal/WAL.ts:181-224 | a log cut anywhere is replayed up to the entries that are whole |
| WalFormat.WholeEntriesIsGreatest | src/storage/wal/WAL.ts:188-201 | these are as many as fit before the cut |
| WalFormat.TornRecord | src/storage/wal/WAL.ts:188-201 | a proper part of a record behind whole ones adds nothing and hides none of them |
| WalFormat.BehindTornRecord | src/storage/wal/WAL.ts:188-217 | what is appended behind a part of a record is found only if it fills the record up to a body that is accepted |
| WalFormat.ReplayStopsExactlyWhen | src/storage/wal/WAL.ts:188-217 | whole records are replayed whatever follows, and nothing more exactly if the next length field or body is no good |
| WalFormat.LongLengthHides | src/storage/wal/WAL.ts:196-201 | a damaged length field that points beyond the file hides its record and all behind it |
| WalFormat.ReplayDamaged | src/storage/wal/WAL.ts:203-217 | damage within four consecutive bytes of checksummed data, or within the checksum field, hides that record and all behind it, and none before |
| WriteAheadLogs.ReadBackWhole | src/storage/wal/WAL.ts:167-179 | replaying the log's files, oldest first, gives the appended operations in order |
| WriteAheadLogs.ReadBackTorn | src/storage/wal/WAL.ts:167-224 | with the newest file torn anywhere, it gives all but the operations whose records are not whole |
| WriteAheadLogs.WriteAheadLog.Open | src/storage/wal/WAL.ts:65-82 | it goes on with the newest file as it is, torn or not, or with a first one, records what replay finds, and numbers on behind the newest file's last entry |
| WriteAheadLogs.NextIdIsAbove | src/storage/wal/WAL.ts:491-501 | where numbers increase that is above every number in the file |
| WriteAheadLogs.WriteAheadLog.Append | src/storage/wal/WAL.ts:90-105 | exactly a storable entry's record goes to the end of the newest file; if that is not torn, the operation goes to the end of what replay finds |
| WriteAheadLogs.WriteAheadLog.AppendPart | src/storage/wal/WAL.ts:159-165 | a part of a record at the end of a file that is not torn changes nothing that replay finds |
| WriteAheadLogs.WriteAheadLog.Unlink | src/storage/wal/WAL.ts:249-253 | exactly the records of that file are missing afterwards |
| WriteAheadLogs.WriteAheadLog.Checkpoint | src/storage/wal/WAL.ts:226-260 | in whatever order the files go, one empty file is left |
| WriteAheadLogs.WriteAheadLog.Replay | src/storage/wal/WAL.ts:167-179 | the entries that each file holds up to its first bad record, files in order |
| GroupCommit.StepKeeps | src/storage/wal/WAL.ts:90-157 | every step of appends, timer, batches, syncs, failures, checkpoints and lock keeps the invariant |
| GroupCommit.GroupCommitIsSafe | src/storage/wal/WAL.ts:21-157 | in every run one call is inside the lock, grants come in the order asked for, file ids increase, appends settle in order, none twice, and a resolved one was written and synced |
| GroupCommit.AllAppendsSettle | src/storage/wal/WAL.ts:84-157 | from every state that a run reaches, ticks and the steps of calls settle every unsettled append as resolved, written and synced |
| GroupCommit.OneFlush | src/storage/wal/WAL.ts:120-150 | a tick on a free lock writes exactly the pending entries in order, syncs and resolves them, and frees the lock |
| GroupCommit.OneAppend | src/storage/wal/WAL.ts:97-108 | with a sync for every write, an append on a free lock is written, synced and resolved on its own |
| GroupCommit.OneCheckpoint | src/storage/wal/WAL.ts:226-260 | a checkpoint resolves the pending entries first and then leaves an empty file |
| GroupCommit.FullBatchAsks | src/storage/wal/WAL.ts:109-116 | the hundredth pending entry asks for the lock without a tick, one before it does not |
| GroupCommit.AsyncMutex.Acquire | src/storage/wal/WAL.ts:25-34 | the lock is taken if free, else the caller queues at the end |
| GroupCommit.AsyncMutex.Release | src/storage/wal/WAL.ts:36-43 | the lock passes to the first waiter, or is free |
| GroupCommit.LogWriter.Append | src/storage/wal/WAL.ts:90-118 | the machine's append step on the real fields, a full batch asking for the lock at once |
| GroupCommit.LogWriter.FlushTimer | src/storage/wal/WAL.ts:84-87 | the machine's tick: with writes pending a flush asks for the lock |
| GroupCommit.LogWriter.GoOn | src/storage/wal/WAL.ts:120-136 | the machine's begin: once inside, a call takes all pending writes, or has nothing to do |
| GroupCommit.LogWriter.WriteEntry | src/storage/wal/WAL.ts:138-140 | the machine's write: the next entry of the batch goes to the end of the file |
| GroupCommit.LogWriter.SyncBatch | src/storage/wal/WAL.ts:142-150 | the machine's sync: the file is durable, the whole batch resolves, the lock passes on |
| GroupCommit.LogWriter.RejectBatch | src/storage/wal/WAL.ts:151-156 | the machine's failure: the whole batch is rejected and what it has written stays |
| GroupCommit.FailedBatch | src/storage/wal/WAL.ts:138-156 | of a rejected batch exactly the entries written before the failure are in the file |
| GroupCommit.StraysComeFromFailedBatches | src/storage/wal/WAL.ts:131-157 | in every run an append that is rejected and yet in the file was written in a batch that failed |
| Manifests.Manifest.ApplyEdit | src/storage/manifest/Manifest.ts:82-113 | removals, then additions, then one list sorted by number |
| Manifests.Manifest.AddSSTable | src/storage/manifest/Manifest.ts:115-120 | a file under the next number heads the list, order stays strict, the next number moves on |
| Manifests.Manifest.RemoveSSTables | src/storage/manifest/Manifest.ts:122-126 | exactly the named files go and the next number stays |
| Compactions.EntriesAreAccountedFor | src/engine/compaction/CompactionManager.ts:173-200 | entries read are those written, those shadowed, and winning tombstones |
| Compactions.CompactionManager.ExecuteCompaction | src/engine/compaction/CompactionManager.ts:143-232 | the one file left holds exactly the live pairs of all; with nothing live all go; counts add up; it fails exactly if an entry cannot be read back or the output does not fit, and then changes nothing |
| WriteEffects.ReplayAgrees | src/storage/LSMStore.ts:467-493 | replaying a write does what the write did, on every map, exactly if no key is empty |
| WriteEffects.EffectsTwice | src/storage/LSMStore.ts:104-109 | doing a list of writes again changes nothing, which makes replay over flushed tables harmless |
| WriteEffects.PutAllLast | src/storage/LSMStore.ts:230-232 | a batch binds each key to the last of its values |
| WriteEffects.LiveStored | src/storage/LSMStore.ts:143-237 | what readers see of a table on others changes as the plain map does |
| StoreMachine.StepKeepsView | src/storage/LSMStore.ts:143-449 | but for a reckless swap, only writes change what readers see, each as it changes the plain map; a swap finds no live immutable table |
| StoreMachine.ReadersSeeTheModel | src/storage/LSMStore.ts:143-449 | in every run of writes, flush steps, failed flushes and compaction steps without a reckless swap, readers see the plain map of the same writes |
| StoreMachine.TableIsLeftExactlyAfterFailure | src/storage/LSMStore.ts:333-366 | with no flush running, an immutable table is there exactly if the last flush has failed |
| StoreMachine.OnlyFailureFails | src/storage/LSMStore.ts:356-366 | no other step brings the store into that state |
| StoreMachine.RecklessSwapShows | src/storage/LSMStore.ts:347-350 | a swap then, or during a compaction, leaves readers the files under the active table, which is all they saw unless a flush has failed |
| StoreMachine.FailedFlushIsOverwritten | src/storage/LSMStore.ts:347-366 | a run in which readers no longer see an acknowledged write after a failed flush and a swap |
| StoreMachine.NumbersOnlyGrow | src/storage/manifest/Manifest.ts:77-120 | the next number is never taken back, and a new file heads the manifest under the old one |
| StoreMachine.RecoveryIsExact | src/storage/LSMStore.ts:96-112 | reopening gives exactly the applied writes followed by the logged ones in flight |
| StoreMachine.CrashesLoseNothing | src/storage/LSMStore.ts:379-493 | in every careful run with crashes anywhere, in the middle of an append and between two log deletions too, no acknowledged write is lost and none comes back |
| StoreMachine.CheckpointForgets | src/storage/wal/WAL.ts:246-256 | after a checkpoint a crash goes back to what was there without the writes since the swap |
| StoreMachine.CheckpointIsSafeExactlyWhen | src/storage/wal/WAL.ts:246-256 | so it is harmless exactly if those writes, done again, would change nothing there |
| StoreMachine.WriteDuringFlushCanBeLost | src/storage/wal/WAL.ts:246-256 | a run from the empty store in which an acknowledged write is lost |
| StoreMachine.BehindTornIsLost | src/storage/wal/WAL.ts:63-82 | a write whose record replay does not find behind a torn one is gone after the next crash |
| StoreMachine.TornLogLosesWrites | src/storage/wal/WAL.ts:63-82 | a run in which an acknowledged write after a crash in the middle of an append is lost in the next crash |
| StoreMachine.WithoutRecords | src/storage/wal/WAL.ts:246-256 | leaving records out of a log makes no difference exactly if they change only keys that are written again behind them |
| StoreMachine.DropIsSafeExactlyWhen | src/storage/wal/WAL.ts:246-256 | so deleting one log file is harmless exactly if its records change only keys that the files behind it write again |
| StoreMachine.OldestFirstIsSafe | src/storage/wal/WAL.ts:246-256 | deleting oldest first is, while only records of the flushed table go |
| StoreMachine.LaterLogFirstRevives | src/storage/wal/WAL.ts:246-256 | a run with a crash between rotation and deletion, and a later deletion in the wrong order, that brings an overwritten value back |
| ReadableStores.PrintableOps | src/storage/sstable/SSTableReader.ts:292-305 | writes of keys that start with a printable character can be read back |
| ReadableStores.StepReadable | src/storage/LSMStore.ts:143-493 | every step, crash included, keeps everything in tables, files and log readable if covered pairs are written |
| ReadableStores.RunsAreReadable | src/storage/LSMStore.ts:143-493 | so in every careful run of such writes every read can succeed |
| LSMStores.LSMStore.Initialize | src/storage/LSMStore.ts:96-112 | from manifest, files and log files, the newest torn or not, it reaches exactly the state the machine reopens in |
| LSMStores.LSMStore.Append | src/storage/wal/WAL.ts:90-118 | the awaited part of a write at any point of a flush or a compaction, behind a torn record too: exactly its record is at the end of the newest file, and the machine has taken its step |
| LSMStores.LSMStore.AppendPart | src/storage/wal/WAL.ts:159-165 | the machine's step of a crash in the middle of an append |
| LSMStores.LSMStore.Put | src/storage/LSMStore.ts:143-154 | an acknowledged write is one record more in the log, readers see the one key changed unless it sets off a reckless swap, it survives every crash from a durable state, and a table that is full by then is swapped out |
| LSMStores.WrittenDurable | src/storage/LSMStore.ts:143-154 | after a logged write that sets off no reckless swap, a durable store stays durable and reopens with the same view whenever it crashes |
| LSMStores.LSMStore.CountedSize | src/storage/memtable/MemTable.ts:51-53 | the size by which a table counts as full is the sum over its entries less what deletes took off twice |
| LSMStores.LSMStore.MaybeFlush | src/storage/LSMStore.ts:333-345 | a table that has reached the limit is swapped out exactly if no flush is running, and otherwise nothing happens |
| LSMStores.LSMStore.Delete | src/storage/LSMStore.ts:201-212 | as for a put: logged, durable, the one key gone, and a full table swapped out |
| LSMStores.LSMStore.BatchPutAll | src/storage/LSMStore.ts:214-237 | one record for the batch, readers see all pairs written in order, durable, and a full table swapped out; an empty batch logs and changes nothing |
| LSMStores.LSMStore.ApplyReplicatedEntry | src/storage/LSMStore.ts:529-553 | the entry is logged as it came, readers see what replaying it makes, it is durable, and a full table is swapped out |
| LSMStores.LSMStore.TriggerFlush | src/storage/LSMStore.ts:347-354 | the machine's swap whenever no flush is running: the active table becomes the immutable one, whatever was there, beside a fresh one with the store's limit |
| LSMStores.LSMStore.DoFlush | src/storage/LSMStore.ts:347-422 | readers see the same; a table that fits is in exactly one more file, manifest entry and reader, the log is one empty file, and with no write since the swap a crash loses nothing; an empty table just goes; else the flag goes and the table stays |
| LSMStores.LSMStore.DeleteLogFile | src/storage/wal/WAL.ts:249-253 | the machine's step that loses exactly one file's records |
| LSMStores.LSMStore.BuildOutputFile | src/engine/compaction/CompactionManager.ts:162-205 | the machine's step, while reads go on: a file of the live pairs, exactly if it fits |
| LSMStores.LSMStore.RemoveInputFiles | src/engine/compaction/CompactionManager.ts:207-222 | the machine's step: inputs leave manifest and disk, the output's file stays |
| LSMStores.LSMStore.HandleCompactionComplete | src/storage/LSMStore.ts:424-449 | the inputs' readers are closed, no others are, and the output's heads those that are left |
| LSMStores.LSMStore.Compact | src/storage/LSMStore.ts:424-449 | readers see the same and a crash still loses nothing; exactly the merged file is left in manifest, readers and on disk in place of its inputs, or nothing if nothing is live; it fails exactly if an entry cannot be read back or the output does not fit, and then changes nothing |
| LSMStores.LSMStore.Get | src/storage/LSMStore.ts:167-199 | the value of the plain map, at any point of a flush or a compaction, and an answer whenever the data is readable |
| LSMStores.LSMStore.ReadKeyRange | src/storage/LSMStore.ts:252-306 | the first live pairs of the plain map in the range, ascending, and an answer whenever the data is readable |
| SuspendedReads.PointRead.Begin | src/storage/LSMStore.ts:167-183 | a lookup takes what it needs before its first wait |
| SuspendedReads.PointRead.Resume | src/storage/LSMStore.ts:183-199 | whatever the store does between its steps, its answer is that of the moment it began; only a closed reader or an unreadable entry makes it fail |
| SuspendedReads.RangeRead.Begin | src/storage/LSMStore.ts:252-285 | a range read takes the memory tables' pairs and the readers at its start |
| SuspendedReads.RangeRead.Open | src/storage/LSMStore.ts:276-294 | what is to come is the sorted range of the map of that moment, unless a reader is closed or an entry unreadable |
| SuspendedReads.RangeRead.Next | src/storage/LSMStore.ts:296-305 | suspended between any two pairs, it yields the next of them, and ends exactly when none is left |
| ReplicationProtocol.SerializeReplicate | src/replication/ReplicationProtocol.ts:28-43 | the frame of an entry, or an error exactly if it does not fit |
| ReplicationProtocol.ParseBack | src/replication/ReplicationProtocol.ts:64-112 | a whole message at the front of a buffer is parsed as it was sent, whatever follows |
| ReplicationProtocol.ParsePart | src/replication/ReplicationProtocol.ts:64-86 | of a message that is not whole nothing is parsed |
| ReplicationProtocol.EntryBack | src/replication/ReplicationProtocol.ts:114-156 | an entry comes back from its bytes |
| ReplicationProtocol.ParsedAgain | src/replication/ReplicationServer.ts:104-115 | from a buffer that was kept, everything parsed before is parsed again, whatever is added |
| ReplicationProtocol.UnknownOpcode | src/replication/ReplicationProtocol.ts:64-86 | a frame that is no message |
| ReplicationSession.PiecesDoNotMatter | src/replication/ReplicationServer.ts:104-149 | however a stream is split into pieces, exactly the messages that are whole have been parsed, and the beginning of the next is left |
| ReplicationSession.StepKeeps | src/replication/ReplicationManager.ts:80-193 | sending and any arrival of bytes at either end keep requests, answers, queue and counters in step |
| ReplicationSession.PendingIsUnderWay | src/replication/ReplicationManager.ts:80-106 | at any point the pending numbers are those of the answers under way and then those of the requests under way |
| ReplicationSession.AnswersMeetTheirEntries | src/replication/ReplicationManager.ts:164-193 | every answer that arrives meets, at the head of the queue, the entry it answers, and tells whether the backup took it |
| ReplicationSession.BackupTakesThemInOrder | src/replication/ReplicationServer.ts:151-175 | what an accepting backup has taken is a first part of what was sent, and all of it once nothing is under way |
| ReplicationSession.DrainedSessionsAgree | src/replication/ReplicationManager.ts:182-193 | once nothing is under way, nothing is pending and both ends count and number the same |
| ReplicationManagers.ReplicationManager.Replicate | src/replication/ReplicationManager.ts:80-106 | connected, the message is written and the entry queued last; otherwise the entry is dropped and a new attempt scheduled |
| ReplicationManagers.ReplicationManager.HandleData | src/replication/ReplicationManager.ts:164-180 | exactly the whole messages are handled, in order, and the rest is kept; it throws exactly on bytes that are no message |
| ReplicationManagers.ReplicationManager.HandleAck | src/replication/ReplicationManager.ts:182-193 | the oldest pending entry is settled by the answer's status |
| ReplicationManagers.ReplicationManager.HandleConnectionError | src/replication/ReplicationManager.ts:195-201 | all pending entries and the connection count as failed, the half-received bytes stay, a new attempt is scheduled |
| ReplicationManagers.ReplicationManager.HandleConnectionClose | src/replication/ReplicationManager.ts:203-210 | the same without counting the connection, and nothing at all after an error |
| ReplicationServers.ReplicationServer.ProcessBuffer | src/replication/ReplicationServer.ts:130-149 | exactly the whole messages are handled, in order, each answered |
| ReplicationServers.ReplicationServer.HandleData | src/replication/ReplicationServer.ts:104-115 | the rest is kept, or everything if bytes are no message |
| ReplicatedStores.PrimaryView | src/storage/LSMStore.ts:143-237 | what the primary's readers see, with writes in flight, is what its log makes |
| ReplicatedStores.BackupView | src/storage/LSMStore.ts:529-553 | what the backup's readers see is what the entries it took make |
| ReplicatedStores.BackupFollows | src/replication/ReplicationServer.ts:151-175 | with both stores flushing and compacting at will, the backup's readers see what a first part of the primary's log makes, and the same as the primary's once nothing is under way or in flight |
| ByteForms.FourBytes | src/storage/sstable/SSTableSerializer.ts:11-38 | numbers stand most significant byte first |
| ByteForms.PutPayload | src/storage/wal/WAL.ts:326-342 | the bytes of a put: key length in two, value length in four |
| ByteForms.DeletePayload | src/storage/wal/WAL.ts:343-353 | the bytes of a delete |
| ByteForms.BatchPayload | src/storage/wal/WAL.ts:354-389 | the bytes of a batch: the count in four bytes, then its pairs in order |
| ByteForms.EntryData | src/storage/wal/WAL.ts:305-317 | number, time and code of an entry, eight, eight and one bytes, before its payload; codes 1, 2 and 3 |
| ByteForms.UnknownCodes | src/storage/wal/WAL.ts:482-489 | any other code is an error |
| ByteForms.PutRecord | src/storage/wal/WAL.ts:293-322 | length, checksum and data of a record, four bytes, four bytes and the rest |
| ByteForms.ReplicateFrame | src/replication/ReplicationProtocol.ts:28-43 | a frame's length does not count itself; opcode 0x10, then the entry |
| ByteForms.AckFrame | src/replication/ReplicationProtocol.ts:45-62 | opcode 0x11, the status, 0 or 1, and the number |
| ByteForms.TableEntry | src/storage/sstable/SSTableSerializer.ts:11-38 | an entry's bytes, a tombstone flagged by a last byte 1 |
| ByteForms.TableIndexEntry | src/storage/sstable/SSTableSerializer.ts:67-82 | an index entry's bytes |
| ByteForms.TableFooter | src/storage/sstable/SSTableSerializer.ts:108-165 | a footer's bytes, field by field, with version and magic number |
| ByteForms.FilterOfOneKey | src/storage/sstable/BloomFilter.ts:68-110 | a filter's bytes: sizes first, then bits, the lowest of each byte first |

## Left out

- I/O failures and retries outside a partly written record; a flush or compaction fails in the model only for sizes or unreadable entries.
- What follows a reckless swap: the program reads a file number without reserving it (`src/storage/manifest/Manifest.ts:77-80`), so a flush and a compaction that overlap can take the same one.
- LSMStores.LSMStore.Put: asks that no other write is between its log record and its table; such writes are its parts `Append` and `ApplyWrite`, which do not ask it.
- LSMStores.LSMStore.Delete: as for `Put`.
- LSMStores.LSMStore.BatchPutAll: as for `Put`.
- LSMStores.LSMStore.ApplyReplicatedEntry: as for `Put`; the server takes one entry at a time.
- LSMStores.LSMStore.Compact: takes the compaction manager's steps one at a time and does not keep its statistics; `ExecuteCompaction` does.
- LSMStores.LSMStore.Get: runs in one piece; with waits it is `SuspendedReads.PointRead`, which fails when a compaction closes a reader it still needs.
- LSMStores.LSMStore.ReadKeyRange: runs in one piece; with waits it is `SuspendedReads.RangeRead`, which reads each file at once when it opens.
- MergeIterators.MergeIterator.Next: sources are lists; waiting for an asynchronous source is not modelled.
- SSTableWriters.SSTableWriter.Build: the file appears under its name at once; the temporary file, its renaming and its clean-up are not modelled.
- Manifests.Manifest.ApplyEdit: the manifest is what its last edit made it; saving it as JSON and renaming it into place are not modelled.
- WriteAheadLogs.WriteAheadLog.Append: every write is synced before it returns; batching, sync policies and the lock are in `GroupCommit`, which knows entries by their ids.
- WriteAheadLogs.WriteAheadLog.Checkpoint: pending writes are flushed before, in `GroupCommit`; a deletion that fails is a file that `DeleteLogFile` has not deleted.
- WriteAheadLogs.WriteAheadLog.Rotate: a new file always has a new name; two rotations within one millisecond, which reuse it, are in `GroupCommit` only.
- WalFormat.ReplayDamaged: says nothing of damage that lies partly in the checksum field and partly in the data.
- Opening: a table file that cannot be opened is not dropped from the manifest, and a file shorter than eight bytes reads as an error.
- Bloom filter sizes and false-positive rates: the number of bits and of hash functions are parameters.
- Time stamps are parameters, one for all entries of a compaction's output.
- UTF-16 order and UTF-8 encoding of strings: keys and values are byte strings.
- Sessions: one session from empty buffers; what a reconnect makes of a half-received buffer is not modelled.
- ReplicationManagers.ReplicationManager.Replicate: counters of bytes and times are left out.
- Sequence numbers after a restart go on behind the newest file's last entry only; numbers of older files can come again, and nothing rests on them.
- HTTP and TCP servers, command line, status adapters and timers: wiring, with nothing of their own to prove.
