# ZenithDB, verified

A Dafny 4.11 model of ZenithDB: last-write-wins registers stamped with vector clocks, the messages that
replicate them, the LSM engine that stores them, and the data structures and file formats below the engine.
`dafny verify dfyconfig.toml` checks all of it.

## How it is laid out

Each operation of the program appears twice. As a function on values it is the specification; as a method
of a class with the program's own fields and loops it is proved to compute exactly that function. What the
program promises is then proved about the functions, over every input and every run.

| files | what they hold |
|---|---|
| `Bytes.dfy` | byte strings, their order, the rows of a map in key order, little-endian integers |
| `VectorClock.dfy`, `Crdt.dfy` | clocks, the register merge, both codecs |
| `MergeTrees.dfy`, `Confluence.dfy` | what any tree of merges yields, and exactly which writes converge |
| `Database.dfy`, `Replication.dfy` | one node's database as a map, nodes and the message bus |
| `ClusterRuns.dfy`, `Convergence.dfy`, `Divergence.dfy` | every run of put, gossip, delivery, duplication and loss over any number of nodes, when its nodes agree, and when they can end apart |
| `AntiEntropy.dfy`, `ClusterLife.dfy` | mutual gossip, and what runs without removals keep of the registers that gossip finds |
| `SSTableFormat.dfy`, `SSTable.dfy` | the file format as a function of the rows, and the writer |
| `SSTableReads.dfy`, `SSTableReader.dfy`, `SSTableRoundTrip.dfy` | what the reader's searches find, the reader itself, and write-open-read |
| `SkipList.dfy`, `MemTable.dfy` | the multi-level linked list, its iterator, and the range-tracked table on top |
| `Lsm.dfy`, `Compaction.dfy`, `EngineRuns.dfy`, `ZenithDB.dfy` | the engine state, compaction, every run of the engine, and the engine object |
| `EngineOrder.dfy`, `EngineScan.dfy`, `EngineFiles.dfy`, `EngineHistory.dfy` | the registers of a key and their order, scans, files, and scans as gossip sees them |
| `EngineDisk.dfy` | what flushes put on disk, what stays there, and what is read from the files alone |
| `Wal.dfy`, `Manifest.dfy`, `ManifestText.dfy` | the two logs, their text and their replay |
| `Arena.dfy`, `BlockCache.dfy` | the bump allocator and the LRU cache |

## Main results

* **Convergence, and where it stops.** `docs/README.md:15` promises that all nodes converge whatever the
  message order. The merge is not associative, and a node that merges one late message can return to an older
  value than its neighbour. The model follows the code and gives the exact condition. A set of writes comes to
  one register under every way of merging it if and only if it has a deciding layer: writes that each strictly
  dominate all the others together, and whose own greatest value is not covered by the clocks of the rest of the
  layer (`Confluence.ConfluentIff`; `YieldsIff` for a given value, `YieldsWriteIff` for a given write). In every
  run the clock of a register is the join of the client writes behind it, with no hypothesis at all
  (`SameWritesSameClock`). Two nodes that the same writes are on their way to can end apart if and only if those
  writes have no deciding layer (`Divergence.NodesEndApartIff`), and `StaleValueReturnsInARun` is a run in which
  they do. Independent writes and keys with one writer always have one (`IndependentWritesConvergeInRuns`,
  `SingleWriterConverges`).
* **Gossip.** A node sends the merge of all the registers it has stored for a key, old tables included, in any
  order. Mutual gossip always ends with one clock (`AntiEntropyAgrees`). It ends with one register, however the
  scans come out, if and only if all the values stored under the newest clocks agree when merged across
  (`AntiEntropyConvergesIff`); `TieUndoesAgreement` is an exchange that parts two nodes that agreed.
* **The engine is a map, for reads.** After every interleaving of local and replicated puts, removals, freezes,
  flushes and the three phases of a compaction, a read returns what a plain map holds, even if table files miss
  keys (`EngineRuns.ReadAfterRun`). With local writes only that is the last value put (`ReadIsLastPut`), and a
  scan returns the sorted live pairs of the range (`EngineScan.ScanIsLastPuts`).
* **What is written stays written.** A flush adds one file for every frozen table with rows, holding exactly its
  rows, and touches no other (`FlushAppends`, `FlushWrites`). After every run, whatever compactions did since, the
  files hold every key of every written table under clocks that cover the table's (`RunKeepsDurable`); after
  orderly runs they hold the newest register itself (`NewestIsOnDisk`). A compaction loses exactly the keys that
  are longer than four bytes and begin with four bytes 255 (`KeptKeys`). The worker's loop ends with every table
  written and every level within its bound (`WorkUntilIdle`).
* **Scans are exact exactly for settled keys.** A scan merges all tables and files, so an older register can
  win. Every scan of every range is exact if and only if for every key all orders of merging its registers come
  to the newest one (`EngineScan.ScansAreExactIff`). `ScansMissWhatIsRead` and `ScanReturnsTiedValue` are runs in
  which a read and a scan part.
* **Files lose keys exactly when a restart dangles.** The writer pushes a restart offset before it checks
  whether the row fits (`src/sstable.cpp:166-175`). A block that closes on a multiple of sixteen rows gets a
  restart that points at the restart array itself. `PointReadsExactIff` and `RangeReadsExactIff` say for every
  file when reads are right; `AWrittenKeyIsNotFound` is a file with a key that is written and not found. Full
  scans, and with them compaction, are always exact (`FullScanExact`).
* **The skip list is a sorted map for every choice of heights**, level by level (`LevelsNest`,
  `SpliceKeepsLinks`).
* **Logs.** A WAL record comes back if and only if key and value are free of separators and the value is not
  empty (`RecordReplaysIff`). Registers are logged in binary, so the tenth write of a node already holds a newline
  byte and is lost (`TenthWriteIsNotReplayed`). Loading the manifest gives the live files if and only if no
  compaction has finished (`LoadIsExactIff`), and any byte prefix of its text loads exactly the records that are
  whole in it (`PrefixLoads`).
* **Termination and bounds.** Compaction stops, with at most two files on the first level and three on each of
  the next five (`CompactUntilQuiet`); F flushed files pay for at most F/2 compactions
  (`FlushesPayForCompactions`).
* **The cache keeps what it can.** A block is lost exactly when it and those used at least as recently no longer
  fit together (`StepLosesIff`), so a key stays a hit while it and what was used since fit (`RecentKeysAreHeld`).

## Reading the model

* A vector clock is a map from node to counter; a missing entry reads as zero, and `Equiv` identifies registers
  that differ only in explicit zeros, which `merge` can insert. Counters wrap at 2^64; theorems over runs of the
  cluster assume fewer than 2^64 steps, and `IncrementAdvancesIff` says why.
* Choices the program leaves to chance are parameters or are quantified over: the height of a new skip-list node,
  the moment a memtable is frozen (`full`), the order `std::sort` leaves equal keys in, the size of each file
  read, where a new arena block lands, which messages are delivered, repeated or lost, which keys a table file
  misses (`missed`).
* Every section held under a mutex is one step, and so is every lock-free read.
* Removals are writes of the empty value. A read hides them and a remote write then overwrites them instead of
  merging; `RemotePutKeepsHistoryIff` and `StoresNeverGoBackIff` say exactly when that takes history back. Only
  the theorems of `ClusterLife` and `AntiEntropy` are about runs without removals.
* `Seen` is the set of client writes behind a stored register. Without removals it grows by exactly what each
  message brings, and a message brings all its sender has seen (`SeenGrowsByArrivals`, `MessagesBringAllSeen`).

## Model

| member | source | states |
|---|---|---|
| VectorClocks.LeqPointwise | src/vector_clock.h:39-64 | the order of clocks is the pointwise order of counters with missing entries read as zero |
| VectorClocks.JoinIsLeastUpperBound | src/vector_clock.h:32-36 | merging takes the maximum of every counter and is the least clock above both |
| VectorClocks.IncrementAdvancesIff | src/vector_clock.h:27-29 | a local event moves the clock strictly forward if and only if the counter does not wrap |
| VectorClocks.VectorClock.Increment | src/vector_clock.h:27-29 | adds one to the node's counter modulo 2^64 and changes no other |
| VectorClocks.VectorClock.Merge | src/vector_clock.h:32-36 | the loop over the other clock leaves the join in place |
| VectorClocks.VectorClock.Compare | src/vector_clock.h:39-64 | the two flags of the loop decide the causal order correctly in all four cases |
| VectorClocks.VectorClock.Serialize | src/vector_clock.h:67-79 | writes count, then each entry in node order |
| VectorClocks.VectorClock.Deserialize | src/vector_clock.h:81-104 | reads entries until the count or the bytes run out |
| VectorClocks.ClockRoundTrip | src/vector_clock.h:67-104 | decoding an encoded clock gives the clock back |
| VectorClocks.TruncatedClockDecodes | src/vector_clock.h:81-104 | any prefix of an encoding decodes to exactly the entries that lie wholly inside it |
| Crdt.MergeClock | src/crdt.h:23-43 | the merged clock is below a clock exactly when both inputs are: it is their join |
| Crdt.MergeRespectsEquiv | src/crdt.h:23-43 | explicit zero counters never influence a merge |
| Crdt.MergeIdempotent | src/crdt.h:23-43 | merging a register with itself changes nothing |
| Crdt.MergeCommutesIff | src/crdt.h:23-43 | the two sides are interchangeable if and only if equal clocks carry equal values |
| Crdt.RegisterRoundTrip | src/crdt.h:46-77 | decoding an encoded register gives it back, empty value included |
| Crdt.EncodingNeverEmpty | src/crdt.h:46-56 | a stored register is never the empty string, so the emptiness tests of the readers never hide one |
| Crdt.LWWRegister.Merge | src/crdt.h:23-43 | the in-place merge computes the merge function for every pair of registers, itself included |
| Crdt.LWWRegister.Serialize | src/crdt.h:46-56 | writes clock length, clock, value |
| Crdt.LWWRegister.Deserialize | src/crdt.h:58-77 | reads them back; too short an input becomes a bare value |
| MergeTrees.EvalClockIsJoin | src/crdt.h:23-43 | whatever the order and repetition of merges, the clock is the join of the leaf clocks |
| MergeTrees.SameLeavesSameClock | src/crdt.h:23-43 | two merge trees over the same writes end with the same clock |
| MergeTrees.EvalValueIsWritten | src/crdt.h:23-43 | the value of a merge tree is the value of one of its leaves |
| MergeTrees.GreatestValueWinsIff | src/crdt.h:23-43 | every merge tree over a set of writes yields its greatest value if and only if the writes of that value are not covered by the others |
| MergeTrees.DominatingWriteWins | src/crdt.h:33-36 | a write strictly above the join of the others is the result of every merge tree |
| MergeTrees.OnlyDominatingWriteWins | src/crdt.h:23-43 | when no other write carries its value, one write is the result of every merge tree if and only if it is such a write |
| MergeTrees.IndependentWritesKeepGreatest | src/crdt.h:37-39 | when no write is covered by the others every merge tree yields the greatest value |
| Confluence.ConfluentIff | docs/README.md:15 | a set of writes gives one register in every merge order, repeats included, if and only if it has a deciding layer; merging each write once, one after the other, is no easier |
| Confluence.YieldsIff | src/crdt.h:23-43 | every merge order yields a given value if and only if it is the value of a deciding layer |
| Confluence.YieldsWriteIff | src/crdt.h:23-43 | every merge order yields a given write if and only if its clock covers all others and its value is that of a deciding layer |
| Confluence.OrderedYieldsIff | src/crdt.h:23-43 | for writes ordered by their clocks: if and only if no other value stands under the newest clock |
| Confluence.TreeIsTied | src/crdt.h:23-43 | merging clock-ordered writes, the newest among them, comes to a write with the newest clock |
| Confluence.TiedIsReached | src/crdt.h:23-43 | and every write with the newest clock is what some order comes to |
| MergeTrees.IndependentWritesConverge | src/crdt.h:37-39 | independent writes give one register in every merge order |
| MergeTrees.DominatedWritesConverge | src/crdt.h:33-36 | so do writes one of which dominates the rest |
| MergeTrees.UncoveredGreatestConverges | src/crdt.h:23-43 | so do writes whose greatest value is not covered |
| MergeTrees.MergeOfRepresentatives | src/crdt.h:23-43 | merging the representatives of two sets of independent writes represents their union |
| MergeTrees.StaleValueReturns | src/crdt.h:23-43 | three writes whose merge order decides the value under the same clock |
| MergeTrees.MergeIsNotAssociative | docs/README.md:15 | the promise of convergence in any order is false of the merge: a concrete counterexample |
| Database.RemotePutKeepsHistoryIff | src/db.cpp:132-174 | a replicated write keeps the stored history if and only if it does not overwrite an unseen tombstone |
| Replication.Node.Put | src/node.cpp:19-28 | one local write, then one message per peer with the register just written, unless it is a tombstone |
| Replication.Node.PushToReplicas | src/node.cpp:34-46 | one message per peer, in peer order, appended to the queue |
| Replication.Node.TriggerAntiEntropy | src/node.cpp:48-62 | one message for each key that is the byte 0xFF or does not begin with it and whose scan result is live, in key order, carrying that result, and none for other keys; the result is any merge of the node's stored registers of the key with the newest among them |
| Replication.GossipSendsEach | src/node.cpp:48-62 | a key is gossiped exactly once, with what the scan found, if it is live and is the byte 0xFF or does not begin with it; otherwise not at all |
| Replication.Node.OnMessage | src/node.cpp:64-73 | the payload is merged into the node's database |
| Replication.MockTransport.Register | src/transport.h:39-42 | registers the node's handler under its name and touches nothing else |
| Replication.MockTransport.Send | src/transport.h:44-50 | appends to the queue |
| Replication.MockTransport.Partition | src/transport.h:74-77 | marks one node as cut off or reachable |
| Replication.MockTransport.DeliverAll | src/transport.h:53-72 | terminates with the queue empty and every node as if the messages had been applied front to back, those to cut-off nodes lost |
| Replication.DrainEach | src/transport.h:53-72 | draining leaves a cut-off node as it was, and any other merges exactly the messages addressed to it, in order |
| ClusterRuns.StepKeepsInv | src/node.cpp:19-73 | every put, gossip, delivery, duplication and loss keeps the cluster invariant |
| ClusterRuns.RunKeepsInv | src/node.cpp:19-73 | the invariant holds after every run |
| ClusterRuns.GossipStepSends | src/node.cpp:48-62 | a gossip step of a run sends each live key up to the byte 0xFF once and nothing else |
| ClusterRuns.PutStepSends | src/node.cpp:19-46 | a put step stores the value and sends the stored register to every peer, in order, unless it is a removal |
| ClusterRuns.LocalPutDominates | src/db.cpp:102-108 | a local write's clock is strictly above everything the node knew |
| Convergence.CausalityHolds | src/db.cpp:106-136 | in every run no clock runs ahead of its node's own counter, local clocks cover their stores, counters identify writes, and every stored value was put on that key |
| Convergence.WriteDominatesStore | src/db.cpp:102-108 | a local write strictly dominates whatever the node stored for any key |
| Convergence.StoresNeverGoBackIff | src/db.cpp:132-174 | the clock of a stored register goes back in a step if and only if the step overwrites a tombstone its register has not seen |
| Convergence.SameWritesSameClock | docs/README.md:15 | nodes whose registers have the same writes behind them hold the same clock, with no hypothesis |
| Convergence.ConfluentWritesConverge | docs/README.md:15 | they hold the same register whenever the writes are confluent |
| Convergence.IndependentWritesDecide | src/crdt.h:23-43 | for independent writes a node holds exactly the join of the clocks and the greatest value of what reached it |
| Convergence.IndependentWritesConvergeInRuns | docs/README.md:15 | nodes reached by equal sets of independent writes hold equal registers under any order, loss or duplication |
| Convergence.SingleWriterConverges | docs/README.md:15 | a key written by one node is everywhere exactly the owner's latest write that arrived |
| Divergence.DecidedWritesDecide | docs/README.md:15 | a node reached by writes with a deciding layer holds its value and the join of their clocks |
| Divergence.NeverTied | src/db.cpp:102-108 | no client write has the clock of a merge of other client writes |
| Divergence.NodesEndApartIff | docs/README.md:15 | two nodes to which the same writes are on their way can end with different registers, having seen exactly those writes, if and only if the writes have no deciding layer |
| Divergence.StaleValueReturnsInARun | docs/README.md:15 | a run in which two nodes have seen the same three writes, hold equivalent clocks, and read different values |
| ClusterLife.VersionsAreOrdered | src/node.cpp:19-73 | without removals all that a node has stored for a key is ordered by the clocks, with what it holds on top |
| ClusterLife.SeenGrowsByArrivals | src/db.cpp:132-174 | without removals the writes behind a register grow by exactly what a step brings |
| ClusterLife.MessagesBringAllSeen | src/node.cpp:34-62 | every message brings exactly the writes its sender has seen of the key |
| ClusterLife.FoldsAreScans | src/node.cpp:48-62 | the gossip of a run is a scan of the node's stored registers |
| ClusterLife.ScansAreFolds | src/node.cpp:48-62 | and every such scan can be gossiped |
| Convergence.DrainIsARun | src/transport.h:53-72 | delivering the whole queue is a run, so the theorems cover it |
| AntiEntropy.DrainGossip | src/node.cpp:48-73 | draining one node's gossip applies its rows to the target alone |
| AntiEntropy.ExchangeAbsorbs | src/node.cpp:48-73 | two nodes gossiping at once each absorb the other's rows |
| AntiEntropy.AntiEntropyAgrees | src/node.cpp:48-73 | afterwards both hold, for every gossiped key, the join of the clocks of what they held, whatever the scans find |
| AntiEntropy.AntiEntropyConvergesIff | src/node.cpp:48-73 | and equal registers, however the scans come out, if and only if all registers stored under the newest clocks agree when merged across |
| AntiEntropy.WithoutTiesConvergesIff | src/node.cpp:48-73 | when neither node stores another value under its newest clock: if and only if they did not hold different values under one clock |
| AntiEntropy.AnsweredGossipAgreesIff | src/node.cpp:48-73 | when the second node answers after merging, they agree however its scan comes out if and only if it has stored no other value under the clock it then holds |
| AntiEntropy.TieUndoesAgreement | src/db.cpp:292-305 | two nodes that read the same value before an exchange and different ones after it |
| SSTableFormat.BlocksTile | src/sstable.cpp:150-205 | each block's bytes stand at its index offset, end where the next begins, and the last ends the data region |
| SSTableFormat.BlockSizeBound | src/sstable.cpp:163-205 | a block of two or more rows is at most 4104 bytes |
| SSTableFormat.ClosedBlockIsFull | src/sstable.cpp:163-175 | a block is closed only when the next row would take it past 4096 bytes |
| SSTableFormat.FilterHasNoFalseNegatives | src/sstable.cpp:209-225 | no written key is ever rejected by the Bloom filter |
| SSTableFormat.FilterBitIff | src/sstable.cpp:209-225 | a bit of the filter is set if and only if one of the seven hashes of some key falls on it; the filter has ten bits a key, rounded up to bytes |
| SSTables.WriteBlock | src/sstable.cpp:152-202 | one turn of the writer loop emits a full greedy block, header patched, restarts appended |
| SSTables.ComputeBloomHash | src/sstable.cpp:20-32 | the hash loop with 64-bit wrap-around |
| SSTables.BuildFilter | src/sstable.cpp:209-225 | sets exactly the filter's bits |
| SSTables.BuildIndex | src/sstable.cpp:232-244 | one entry per block: first key and offset |
| SSTables.WriteBlocks | src/sstable.cpp:150-207 | the rows are split greedily and the data region is the blocks in order |
| SSTables.Create | src/sstable.cpp:141-260 | the file is the format function of the greedy split of the rows |
| SSTableReads.BlockGetExactIff | src/sstable.cpp:262-333 | point reads in a block are right for every key if and only if its dangling restart, if any, does not read as a key below the last one |
| SSTableReads.UnsearchableLosesLastKey | src/sstable.cpp:166-175 | otherwise the search for the last key starts past the rows |
| SSTableReads.FileGetIsLookup | src/sstable.cpp:398-411 | filter, index, restart search and decode together are list lookup when the file is searchable |
| SSTableReads.FileScanIsSelect | src/sstable.cpp:413-436 | and scans are the filter by range |
| SSTableReads.LastKeyIsMissed | src/sstable.cpp:262-333 | an unsearchable block hides its last key from the whole file |
| SSTableReads.LastKeyScanIsEmpty | src/sstable.cpp:335-396 | and from scans that start at it |
| SSTableReads.PointReadsExactIff | src/sstable.cpp:398-411 | point reads of a file are right for all keys if and only if every block is searchable |
| SSTableReads.RangeReadsExactIff | src/sstable.cpp:413-436 | the same for all ranges |
| SSTableReads.FullScanExact | src/sstable.cpp:357-395 | a scan from the empty key is exact for every file |
| SSTableReader.SSTable.constructor | src/sstable.cpp:73-139 | opening a written file recovers regions, filter and index |
| SSTableReader.SSTable.ParseFooter | src/sstable.cpp:74-87 | the footer gives back the three offsets |
| SSTableReader.SSTable.ParseIndex | src/sstable.cpp:111-138 | the index gives back each block's first key and offset |
| SSTableReader.SSTable.CheckBloom | src/sstable.cpp:34-43 | tests exactly the writer's bits under the same modulus |
| SSTableReader.SSTable.FindInBlock | src/sstable.cpp:262-333 | reading one block's bytes computes the block lookup |
| SSTableReader.SSTable.ScanBlock | src/sstable.cpp:335-396 | and the block scan |
| SSTableReader.SSTable.UpperBoundOfIndex | src/sstable.cpp:403-406 | the first index entry above the key |
| SSTableReader.SSTable.Get | src/sstable.cpp:398-411 | the file lookup, from bytes |
| SSTableReader.SSTable.Scan | src/sstable.cpp:413-436 | the file scan, from bytes |
| SSTableReader.Open | src/sstable.cpp:45-87 | refuses exactly the files that are too short or lack the magic number |
| SSTables.SplitIsUnique | src/sstable.cpp:150-205 | the rows determine the blocks |
| SSTableRoundTrip.WriteAndOpen | src/sstable.cpp:45-260 | every written file opens with the blocks that were written |
| SSTableRoundTrip.ScanBack | src/sstable.cpp:141-436 | write, open, scan from the empty key: exactly the rows up to the end key, no hypothesis on blocks |
| SSTableRoundTrip.ReadBack | src/sstable.cpp:141-436 | write, open, get and scan: list lookup and range filter, under the exact condition |
| SSTableRoundTrip.NoMultipleOfSixteenIsEnough | src/sstable.cpp:166-175 | the condition holds when no inner block closes on a multiple of sixteen rows |
| SSTableRoundTrip.AWrittenKeyIsNotFound | src/sstable.cpp:166-175 | a concrete file in which a written key is not found |
| SkipLists.UpsertIsMapUpdate | src/skiplist.h:177-205 | an insert changes the sorted map at its key and nowhere else |
| SkipLists.UpsertKeepsSorted | src/skiplist.h:177-205 | and keeps it strictly sorted |
| SkipLists.SpliceKeepsLinks | src/skiplist.h:200-204 | linking a new tower leaves every level a list of exactly the towers that reach it, for every height |
| SkipLists.ChainIsLevel | src/skiplist.h:128-144 | following the links of a level visits exactly the towers that reach it, in order |
| SkipLists.LevelsNest | src/skiplist.h:128-144 | each level is a subsequence of the one below |
| SkipLists.LinkIn | src/skiplist.h:201-204 | the linking loop: the new node takes over each predecessor's link |
| SkipLists.SkipList.FindGreaterOrEqual | src/skiplist.h:128-144 | terminates with the first node not below the key, and at each level the last node below it |
| SkipLists.SkipList.FindLessThan | src/skiplist.h:146-161 | the last node below the key, or the head |
| SkipLists.SkipList.FindLast | src/skiplist.h:163-175 | the last node, or the head of an empty list |
| SkipLists.SkipList.Insert | src/skiplist.h:177-205 | the list's rows become the upsert of the old rows, for every height in 1..12 |
| SkipLists.SkipList.Overwrite | src/skiplist.h:181-190 | an existing key changes only its value |
| SkipLists.SkipList.RaiseTo | src/skiplist.h:192-198 | levels never used before start at the head |
| SkipLists.SkipList.Contains | src/skiplist.h:207-210 | whether the key has a row |
| SkipLists.SkipList.Get | src/skiplist.h:212-219 | the key's value, if it has a row |
| SkipLists.Iterator.Next | src/skiplist.h:236-239 | one row further |
| SkipLists.Iterator.Prev | src/skiplist.h:241-245 | one row back, off the list at the front |
| SkipLists.Iterator.Seek | src/skiplist.h:247-249 | to the first row not below the target |
| SkipLists.Iterator.SeekToFirst | src/skiplist.h:251-253 | to the first row |
| SkipLists.Iterator.SeekToLast | src/skiplist.h:255-258 | to the last row |
| MemTables.MemTable.UpdateRange | src/memtable.cpp:6-15 | minimum and maximum widen to the key |
| MemTables.MemTable.Put | src/memtable.cpp:17-20 | upsert, with the cached range exactly first and last key |
| MemTables.MemTable.Remove | src/memtable.cpp:22-26 | upsert of the empty value |
| MemTables.MemTable.Get | src/memtable.cpp:28-34 | the key's value, if it has a row |
| MemTables.MemTable.Scan | src/memtable.cpp:36-54 | exactly the rows in the range |
| MemTables.MemTable.SortedEntries | src/memtable.cpp:56-66 | all rows, ascending |
| MemTables.RangeCoversKeys | src/db.cpp:207-217 | the range test in front of a lookup never hides a key |
| Lsm.ReadRefines | src/db.cpp:200-252 | searching tables, then files, reads the abstract database, whatever keys the files miss |
| Lsm.PutLocalRefines | src/db.cpp:102-129 | a local write, frozen or not, is a write to the abstract database |
| Lsm.PutRemoteRefines | src/db.cpp:132-174 | so is a replicated write |
| Compaction.MergedIsTree | src/compaction.cpp:26-52 | every row written by a compaction is a merge tree over exactly the input registers of its key |
| Compaction.KeptKeys | src/compaction.cpp:26-52 | a key of the inputs is in the output if and only if it has at most four bytes or does not begin with four bytes 0xFF |
| Compaction.TiesKeepFirst | src/compaction.cpp:30-51 | of registers under one clock the merge keeps the value of the first input that holds the key |
| Compaction.ChainMergesToTop | src/compaction.cpp:43-49 | on registers ordered by their clocks every merge order ends at the top one |
| Compaction.OtherFilesSurvive | src/compaction.cpp:91-100 | files of the level that were not inputs stay |
| Compaction.CompactionKeepsJoin | src/compaction.cpp:26-109 | the join of the clocks of every key survives, with no hypothesis |
| Compaction.CompactionInventsNoValue | src/compaction.cpp:26-52 | every value written is some input's value |
| Compaction.CompactionKeepsMeaning | src/compaction.cpp:26-109 | folding all files in any order gives the same register before and after, when registers are ordered by their clocks |
| Compaction.CompactionKeepsTop | src/compaction.cpp:26-109 | the newest register of a key stays the newest |
| Compaction.CompactionShrinks | src/compaction.cpp:70-89 | each compaction lowers the number of files by at least two |
| Compaction.PlanFindsFirst | src/compaction.cpp:7-24 | the planner picks the first level with its threshold of files, three on level 0 and four on the others, never the last level, and nothing exactly when no level has that many |
| Compaction.QuietMeansBounded | src/compaction.cpp:7-24 | nothing to plan means at most two files on the first level and three on each of the next five |
| EngineRuns.StepKeepsInv | src/db.cpp:323-382 | every step of the engine keeps its invariant |
| EngineRuns.RunKeepsInv | src/db.cpp:323-382 | after every run layout and metadata name the same files, a planned compaction still fits, and every key of a file is in some table |
| EngineRuns.RunRefines | src/db.cpp:102-174 | every run, with any replicated writes, refines the abstract database; flush and compaction are invisible |
| EngineRuns.ReadAfterRun | src/db.cpp:200-252 | after every run a read returns what the abstract database holds, whatever the files miss |
| EngineRuns.ReadIsLastPut | src/db.cpp:190-252 | with local writes only it is the last value put, none if there is none or it is empty |
| EngineDisk.FlushAppends | src/db.cpp:326-358 | a flush appends to the first level one new file per unwritten table with rows, in their order and with exactly their rows, touches no other file and marks every table |
| EngineDisk.FlushWrites | src/db.cpp:337-354 | so each unwritten table has its rows in a new file, and every file that was there stays |
| EngineDisk.RunKeepsDurable | src/db.cpp:323-382 | after every run the files hold every key of every written table, up to the scan bound, under clocks that together cover the table's |
| EngineDisk.NewestIsOnDisk | src/db.cpp:323-382 | after an orderly run, once the table with a key's newest register is written, the files hold an equivalent register |
| EngineDisk.RunKeepsMinKeys | src/compaction.cpp:57-68 | after every run each file has rows and its first key is the least of them |
| EngineDisk.FilesAnswer | src/db.cpp:228-245 | with no table holding the key a read returns the row of the first file that answers, newest level first, and nothing exactly when none does |
| EngineOrder.RunKeepsUp | src/db.cpp:102-174 | while every write keeps the history of its key, the newest register of a key covers all its others |
| EngineOrder.RunKeepsKeys | src/db.cpp:102-174 | after orderly runs the registers of a key form a chain |
| EngineOrder.LocalRunsAreOrderly | src/db.cpp:102-129 | runs of fewer than 2^64 steps with local writes only are orderly |
| EngineOrder.ViewIsTop | src/db.cpp:200-252 | the newest table entry of such a key is the top of all its registers in tables and files |
| EngineScan.FoldIsMerge | src/db.cpp:292-305 | the merge loop leaves one row per key, a merge of exactly the gathered rows of the key, for any order of equal keys |
| EngineScan.FoldIsTop | src/db.cpp:292-305 | it is above all of them when they are ordered by their clocks |
| EngineScan.GathersAllRegs | src/db.cpp:262-286 | with no file missing rows the gathered rows of a key are exactly its registers in tables and files |
| EngineScan.KeyScansExactlyIff | src/db.cpp:288-314 | scans of a key over given registers are exact in every order the sort may leave them in if and only if all orders of merging them come to the newest one |
| EngineScan.ScansAreExactIff | src/db.cpp:254-317 | every scan of every range lists exactly the live rows of the abstract database, in key order, if and only if every key is settled |
| EngineScan.SettledScanIsExact | src/db.cpp:254-317 | a scan of a range of settled keys is exact, whichever file rows were gathered |
| EngineScan.DominatedIsSettled | src/db.cpp:292-305 | a key is settled when its newest register strictly dominates all others that differ from it |
| EngineScan.ChainIsDominated | src/db.cpp:292-305 | so is a key whose registers form a chain |
| EngineScan.OrderlyRunsSettle | src/db.cpp:102-174 | after an orderly run every key is settled |
| EngineScan.ScanAfterRun | src/db.cpp:254-317 | after every run a scan of settled keys returns what the plain map holds there |
| EngineScan.ScanIsLastPuts | src/db.cpp:180-188 | with local writes only, exactly the sorted live pairs of the last values put |
| EngineHistory.RunKeepsSourced | src/compaction.cpp:26-52 | after every run a register in a table was stored by a write, and one in a file is a merge of registers that were |
| EngineHistory.EngineScanIsAScan | src/node.cpp:48-62 | what the engine's scan gives to gossip is what a scan of all registers ever stored may find |
| EngineHistory.ScansMissWhatIsRead | src/db.cpp:132-174 | put, remove, freeze, and a late replica of the put: reads return it, no scan does |
| EngineHistory.ScanReturnsTiedValue | src/db.cpp:292-305 | two replicas under one clock with a freeze between: reads return the second value, a scan may return the first |
| EngineFiles.LevelsStayRecent | src/db.cpp:337-356 | after every run in which each write keeps the history of its key, any register at a level is no older than the same key's registers further down, and metadata and layout name the same files |
| EngineFiles.FlushesPayForCompactions | src/compaction.cpp:70-109 | F flushed files allow at most F/2 compactions, and every row on level i was rewritten exactly i times |
| EngineFiles.FreezesPayForCompactions | src/db.cpp:323-382 | every frozen table is written at most once: the files there are and twice the finished compactions never outnumber the freezes |
| EngineFiles.QuietRunsCompactFinitely | src/db.cpp:361-379 | without flushes the number of compactions is at most half the number of files |
| Zenith.ZenithDB.Put | src/db.cpp:102-129 | advance the clock, store, freeze when full |
| Zenith.ZenithDB.PutCrdt | src/db.cpp:132-174 | absorb the clock, merge with what a read finds, store the winner |
| Zenith.ZenithDB.Remove | src/db.cpp:176-178 | a put of the empty value |
| Zenith.ZenithDB.GetCrdt | src/db.cpp:200-252 | the nested search loops compute the read function, for any keys the files miss |
| Zenith.ZenithDB.Gather | src/db.cpp:262-286 | every row of every table in the range, every row in the range that a file does not miss, and only registers that some table or file holds |
| Zenith.ZenithDB.ScanCrdt | src/db.cpp:254-317 | gather tables and files, sort, merge loop and filter, for some order of equal keys |
| Zenith.SortBy | src/db.cpp:288-290 | a sorted permutation; nothing said about equal keys |
| Zenith.ZenithDB.Flush | src/db.cpp:326-359 | every unwritten frozen table with rows becomes one new file of the first level, newest first, holding exactly its rows; all are marked and no other file is touched |
| Zenith.ZenithDB.PlanCompaction | src/compaction.cpp:7-24 | the loop finds the level the plan function names, with its files and a new name |
| Zenith.ZenithDB.MergeInput | src/compaction.cpp:30-51 | one input's rows join the map, merged where the key exists |
| Zenith.ZenithDB.ExecuteCompaction | src/compaction.cpp:26-68 | the output is the merge of the inputs in order, none if there are no rows |
| Zenith.ZenithDB.RemainingNames | src/compaction.cpp:76-84 | the names that were not inputs, in order |
| Zenith.ZenithDB.KeptEntries | src/compaction.cpp:91-99 | the entries that were not inputs, in order |
| Zenith.ZenithDB.ApplyCompaction | src/compaction.cpp:70-109 | inputs leave metadata and layout, the output joins the next level |
| Zenith.ZenithDB.SortLevels | src/db.cpp:355-356 | each level sorted by first key, nothing lost |
| Zenith.ZenithDB.CompactRound | src/db.cpp:361-379 | plan, execute, apply and sort is one compaction up to the order of files |
| Zenith.CompactedLevels | src/compaction.cpp:70-109 | a round empties the level it picked, adds the merge of all its files to the next if it has rows, and leaves the other levels alone |
| Zenith.TurnIsDurable | src/db.cpp:323-382 | a turn leaves every frozen table written, with its keys on disk under its clocks |
| Zenith.ZenithDB.CompactOnce | src/db.cpp:361-379 | one round of compaction, up to the order of files: no reading changes, the level it picked is empty and at least two files fewer are left, each level in key order; or there was nothing to do and nothing changed |
| Zenith.ZenithDB.FlushPending | src/db.cpp:326-359 | when a frozen table is unwritten, all are written and the levels sorted; otherwise nothing changes |
| Zenith.ZenithDB.WorkerTurn | src/db.cpp:323-382 | every frozen table is written, then one round of compaction, up to the order of files; no reading changes; it reports work exactly when a table was unwritten or a level over its bound, and otherwise changes nothing |
| Zenith.ZenithDB.WorkUntilIdle | src/db.cpp:323-382 | repeated turns terminate with every table written, the levels within their bounds, nothing lost from disk and every read as it was |
| Zenith.ZenithDB.CompactUntilQuiet | src/db.cpp:361-379 | repeated rounds terminate within the file bounds with every read as it was, whatever the files miss before and after |
| Wal.ChunksDoNotMatter | src/wal.cpp:44-73 | the updates found are the same however the file is split into reads, for all bytes |
| Wal.OpsAreClean | src/wal.cpp:64-71 | no replayed key or value holds a separator |
| Wal.RecordReplaysIff | src/wal.cpp:59-71 | a logged put comes back if and only if both parts are free of '\|' and newline and the value is not empty |
| Wal.LineBytes | src/db.cpp:115 | the bytes of a logged put: PUT, key and value with a bar before each, and a newline |
| Wal.DeletionReplaysIff | src/wal.cpp:59-71 | a deletion line removes its key if and only if the key is not empty and free of bars and newlines |
| Wal.PrefixReplays | src/wal.cpp:34-74 | replaying any byte prefix of a log of such records gives exactly the records whose newline lies in it |
| Wal.TenthWriteIsNotReplayed | src/db.cpp:115 | the record of a node's tenth write does not come back: its counter is a newline byte |
| Wal.Split | src/utils.h:27-36 | the fields between separators; an empty last field is not found |
| Wal.ReplayLine | src/wal.cpp:59-71 | one line is at most one update: a put with three fields or a delete with two |
| Wal.ReplayBuffer | src/wal.cpp:50-72 | all complete lines are played and the incomplete one is carried over |
| Wal.WAL.Append | src/wal.cpp:23-26 | record and newline at the end of the file |
| Wal.WAL.Replay | src/wal.cpp:34-74 | the table is left with exactly the updates of the file, for every way of reading it |
| ManifestText.Manifest.AddSSTable | src/manifest.cpp:11-17 | appends the line of one addition |
| ManifestText.Manifest.Replace | src/manifest.cpp:19-33 | appends the lines of the deletions, then of the additions |
| ManifestText.LineBytes | src/manifest.cpp:11-33 | the bytes of a line: ADD or DEL, a blank, the level digit, a blank, the file and a newline |
| ManifestText.Manifest.LoadLine | src/manifest.cpp:63-77 | one line adds at most one file: a word, a number and a word, the first word ADD and the number a level |
| ManifestText.Manifest.LoadBuffer | src/manifest.cpp:51-78 | all complete lines are read and the incomplete one is carried over |
| ManifestText.Manifest.Load | src/manifest.cpp:35-81 | the levels are those of all complete lines of the file, for every way of reading it |
| ManifestText.LineIsRead | src/manifest.cpp:65-77 | a written line reads back as its level and file when it is an addition, and as nothing when it is a deletion |
| ManifestText.PrefixLoads | src/manifest.cpp:35-81 | loading any byte prefix of a written manifest gives exactly the records whose newline lies in it |
| Manifests.RunLoadsLive | src/manifest.cpp:72-77 | after every run of the engine every live file is loaded, on its level |
| Manifests.LoadIsExactIff | src/manifest.cpp:72-77 | and exactly the live files are, if and only if no compaction has finished |
| Arenas.RunKeepsInv | src/arena.h:61-157 | over every sequence of calls: regions and free rest are disjoint and inside owned blocks, every byte is accounted for |
| Arenas.RunIsSound | src/arena.h:61-157 | no two results overlap, each lies in one block, and memory use is bounded by what was handed out plus 7 bytes a call, 1030 a retired block and 8 a block |
| Arenas.FewBlocks | src/arena.h:106-144 | apart from requests above 1024 bytes, every block but one has given out at least 3066 bytes of requests and padding |
| Arenas.AlignedResults | src/arena.h:85-104 | aligned results are multiples of eight as long as new blocks are |
| Arenas.Arena.AllocateNewBlock | src/arena.h:152-157 | one more block, usage up by its size and a pointer |
| Arenas.Arena.AllocateFallback | src/arena.h:128-144 | a block of its own above 1024 bytes, else the front of a new 4096-byte block |
| Arenas.Arena.Allocate | src/arena.h:61-73 | cut from the current block when it fits, else the fallback |
| Arenas.Arena.AllocateAligned | src/arena.h:85-104 | the same after padding, with an aligned result |
| BlockCaches.EvictKeepsLongestFit | src/block_cache.h:144-155 | eviction keeps the longest prefix of the recency order that fits |
| BlockCaches.RunKeepsInv | src/block_cache.h:53-155 | after every history: bytes within capacity, the keys a prefix of the recency order of all puts and hits, every block the last one put |
| BlockCaches.HitsAreFreshAndRecent | src/block_cache.h:53-100 | a hit returns the last block put, and every lost key was used less recently than every kept one |
| BlockCaches.StepLosesIff | src/block_cache.h:53-155 | a get loses no block; a put or a new capacity loses a block if and only if it and those used at least as recently no longer fit together |
| BlockCaches.RecentKeysAreHeld | src/block_cache.h:53-155 | a key is held with its block from its last put or hit on, as long as it and the largest blocks of the other keys used since have fitted in the capacity together |
| BlockCaches.BlockCache.EvictIfNeeded | src/block_cache.h:144-155 | the loop pops from the back until the rest fits, index and byte count exact |
| BlockCaches.BlockCache.Get | src/block_cache.h:53-63 | a hit moves the entry to the front and returns its block; hit or miss, every key keeps its block |
| BlockCaches.BlockCache.Put | src/block_cache.h:75-100 | insert or replace at the front, then evict exactly the blocks that no longer fit with those used more recently; a null block is ignored |
| BlockCaches.BlockCache.SetCapacity | src/block_cache.h:109-113 | the new capacity holds at once, at the cost of exactly the blocks that no longer fit with those used more recently |

## Left out

- Wal.PrefixReplays: stated for logs of puts whose parts are free of separators; what any other bytes replay to is `Wal.ChunksDoNotMatter` and `Wal.OpsAreClean`.
- Wal.WAL.Replay: acts on the sorted rows of a memtable; that each update is one `MemTables.MemTable.Put` on the object is by that method's contract.
- EngineScan.ScanIsLastPuts: assumes fewer than 2^64 steps, so that no counter wraps.
- AntiEntropy.AntiEntropyAgrees: about nodes that have stored no removals, which gossip never sends; after a removal a node overwrites its tombstone with whatever arrives.
- SSTableReader.Open: files are short, lack the magic number, or were written by `Create`; other bytes, hostile ones included, are not modelled, nor is the fallback for files without an index, which `Create` never writes.
- SSTableRoundTrip.ReadBack: sizes must fit the 32- and 64-bit fields of the format; wrap-around of sizes is not modelled.
- Arenas.Arena.AllocateAligned: sizes near 2^64, where adding the padding would wrap, are not modelled.
- Crdt.LWWRegister.Deserialize: adding 4 to a clock length near 2^32 would wrap in the program; only inputs that do not reach that are followed.
- Zenith.ZenithDB.Put: the line it appends to the log is not part of the engine state, nor in `PutCrdt`; module `Wal` says what such lines replay to.
- Zenith.ZenithDB.PutCrdt: as `Put`.
- Zenith.ZenithDB.Flush: the bytes of the file are `SSTables.Create`, the manifest line is `ManifestText.Manifest.AddSSTable`; the contract has the file as its rows.
- Zenith.ZenithDB.ApplyCompaction: likewise, the manifest lines are `Manifests.Records`.
- Message payloads and memtable values are carried as registers; the byte encoding between them is covered by the codec round trips.
- Which keys and rows a table file misses is left open in the engine; the table-file modules say exactly when real files miss none.
- The engine keeps memtables as maps; the skip list and memtable modules prove that the real ones are.
- A skip-list node holds its tower as a sequence of links; placement of nodes, keys and values in arena memory is not tied to the arena model.
- Manifest records name files by number in the engine; the text modules turn the numbers into any file names that are single words.
- Reopening a database: files of a level are then searched by first key rather than by age, the manifest brings deleted files back, and the clock is not restored.
- Failed file opens and writes, full disks and syncing; the program ignores or swallows them.
- Threads and memory ordering: every section under a mutex, and every lock-free read, is one step. A reader between publishing a fresh memtable and linking the frozen one is not modelled.
- Skip-list height distribution, Bloom false-positive rates, throughput, file-name timestamps.
- The environments, the command line, benchmarks and notebooks.
