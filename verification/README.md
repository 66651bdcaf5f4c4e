# horton, modelled and proved in Dafny

horton is a key-value store without allocation: a log-structured merge tree on a raw block device, written for
microcontrollers. This project models the parts of it whose correctness cannot be seen from any one function, and
proves what its documentation and models promise of them, for every input, every run and every reachable state.

`dafny verify dfyconfig.toml` checks everything. Each file is one module.

## What is proved

**Reading** (`Keys`, `Tombstones`, `Visibility`, `History`). What a read means is said twice: by the rule that picks
the newest version and asks for a newer covering tombstone, and by replaying the operations in the order of their
sequences. `History.SeesIsReplay` proves the two equal for every history, key, view and clock.

**Compaction preserves meaning** (`RdelMerge`, `RdelApart`, `Undominated`, `Coverage`, `Retention`, `Merging`,
`JobInputs`, `JobOutputs`, `CompactionJob`, `JobTables`, `JobExact`). A whole job runs as the source runs it: the key
merge with its per-key thresholds, the streaming coverage set of eight slots with eviction into at most four inexact
ranges, the range-tombstone merger, splitting, sealing and settling the inputs. `RunJob` ends with outputs of which
`JobPreserves` says that every protected reader sees exactly what it saw before: both directions, every key, the live
view, every snapshot, every clock at or past the purge cutoff, whichever mix of hidden-version drop, keep-set, expiry
conversion, whole-key drop and tombstone drop took place. `JobTables.TablesPreserve` says it of the tables with the
bounds the job gives them, `CommitPreserves` and `JobTables.CommittedTables` after every commit on the way, so of a
job that stops there too, and `JobCloses` that the tables a job leaves, a tombstone straddling a split included, are
valid targets of the next one. A job does not preserve by keeping everything: as long as no more than eight
undominated tombstones are open at once, `JobExact.JobExactly` proves that it writes exactly the versions some reader
can still get, and `JobExact.TombstonesReclaimed` which range tombstones go.

**Readers** (`Versions`, `Reading`, `Cursors`, `ForwardScan`, `BackwardScan`, `TableLookup`, `ReverseSearch`,
`Memtable`). Run to their end, the scans yield exactly the readable keys of their range, strictly ascending or
descending, each once with its winning value, whatever the order of the sources. In a database of one node that rule
is the simple one of `src/model.rs`. Point lookups and the backward search refine the flat table for any placement of
version runs across restarts and blocks.

**The admission ring and its drainer** (`Admission`, `Ring`, `RingRuns`, `RingSteps`, `RingProgress`, `PayloadCodec`,
`Draining`). Every interleaving of single atomic operations on 31-bit words refines a ring with unbounded tickets:
exactly once, in ticket order, with the exact bytes, across any number of wraps. `RingSteps` says of every operation
what it decides, in terms of that ring, and `RingProgress.NeverStuck` that from every state of every run the drainer
can reach the head. The watermark's compare-exchange never fails and never runs ahead of the database.

**The crash machine** (`WalLog`, `WalRecord`, `WalStage`, `Wal`, `WalRetry`, `WalLater`, `ManifestCommit`, `Slots`,
`Flushing`). Torn writes, crashes and recoveries in any order keep every acknowledged group and never replay part of
one; a failed write retried at once does so exactly when the two writes do not mix (`WalRetry.RetryExactly`); a
manifest commit is atomic over any number of copies; and power lost at any block write of a flush leaves every
acknowledged record in the recovered log or in an intact table of the recovered manifest.

**Fast forms and budgets** (`Crc`, `CrcNumbers`, `Lz77`, `LzRuns`, `BlockSeal`, `StagedEdit`, `EditMeaning`,
`ManifestBody`, `BodyDecode`, `SplitMargin`, `SplitFits`, `BlockPacking`, `RdelWeight`, `RdelBudget`, `JobBudget`,
`BudgetGap`, `Models`). Slicing-by-8 is the bitwise CRC-32, and that is the one RFC 1952 computes; the compressor
writes its greedy encoding exactly when that saves enough, and it is decompressed to its source; a staged manifest
edit encodes, block by block through its window, to what applying it leaves in memory, and that is what the edit
means, table by table and field by field; the split margin is enough for everything a job emits, and no output is
closed early. The dry run's tombstone budget is not always enough: outputs are sealed from inputs that commits have
narrowed, and a tombstone the dry run saw coalesced or dropped can be back. `BudgetGap.BudgetExactly` proves that what
the dry run counts vouches for it exactly when it emitted all it read, and `JobBudget.ReadBudgetHolds` that a budget
counted as tombstones are read always is enough.

## How the model reads

- Keys are byte strings; where only their order matters they are the reals that `Keys.RankOf` assigns them, which
  `Keys.RankOrder` proves to be the same order. Sequence numbers, tickets and counters are unbounded unless their
  width is the point: the ring's words wrap at 2^31 and 2^32, codec fields have their widths.
- A device is its blocks. A block write happens whole, or tears: the first records of the new contents, perhaps one
  that is neither, then what the block held from some record on. Checksums are ideal: a torn record or manifest block
  does not verify.
- What the writer's compression, a full block or another thread decides is a nondeterministic choice in the model.
- Updated objects are classes (`CoverStream`, `Merger`, `Merge`, `Drainer`, `WalWriter`, `Stage`, `ManifestStore`,
  `SlotMap`, `Db`, `Scan`, `RevScan`, `MemTable`, `CompressScratch`, `OpenEnds`, `Window`). The ring is a step
  relation over its atomic operations.

## Hypotheses

- Compaction: the database was written by one node, and outside the job no version of a key it merges has a sequence
  below the minimum captured at selection (`Retention.OutsideAbove`).
- Scans: no sequence of a node is live twice at one key, and where another node has live versions of the key too, the
  node's later ones have no lower walls (`Reading.Fair`); with one node walls are not compared (`Reading.FairAlone`).
  `Versions.OrderExactly` proves that monotone walls are exactly what makes the merge rule an order together with any
  other node's versions, and `Versions.Circle` gives three versions that beat each other in a circle without it,
  although src/version.rs:72-73 calls the rule a total order.
- Ring: the backlog plus a lap stays within 2^30 tickets, no claim stalls while 2^31 tickets are handed out
  (`RingRuns.Timely`), and a slot is forced free only by the one host, for a dead writer. `Ring.PastTooFar` proves
  that `gate_is_past` answers wrongly for every gate at that distance or past it, up to one whole round of tickets
  ahead.
- Log: a failed block write of more than one record is followed by a recovery. The code retries over it with the same
  sequences (src/db/mod.rs:877-893), and then a tear can make recovery replay part of a group: `WalRetry.RetryExactly`
  proves that some tear does exactly when a group that straddles the two writes is neither's (`WalRetry.Mixable`),
  which a caller can check before the retry. It never is when the failed write has one record (`RetryOne`), when the
  same write is made again (`RetrySame`), or when the retry's sequences start at or past the failed write's last
  (`RetryPast`); it is for a put over a batch whose first record is as long (`RetryReused`). What a torn retry leaves
  of the failed write is not counted by the recovery after it: `WalLater.LaterExactly` proves that some later write
  can then be completed by it, whatever the retry was, exactly when the failed write had more than one record.
  Recoveries run to their end, so that the stage is known to be dirty.
- Tombstone budget: an output's section fits the dry run's budget when the dry run coalesced and dropped nothing
  (`JobBudget.MergedBudgetHolds`); the source takes it to fit always (src/compact.rs:1534-1544).
- Manifest: blocks of a commit land in order, and a failed commit is followed by a recovery before the next.

## Model

| member | source | states |
|---|---|---|
| Keys.RankOrder | src/model.rs:168-171 | Ranks order keys exactly as their bytes do, so key order can be reasoned about as order of numbers |
| Keys.LexExactly | src/model.rs:168-171 | One byte string is below another exactly when at some place it is the first to end or has the lesser byte |
| Keys.Successor | src/manifest.rs:202-229 | The exclusive end of a key range: a key sorts below it exactly when it sorts at or below the given key; none only for the empty and the greatest key |
| Keys.SpaceOf | src/manifest.rs:202-229 | On ranks too: every key length has the function that gives the next key, none only after the greatest, and no key lies between |
| Tombstones.CoverSeq | src/model.rs:253-262 | The highest sequence of a tombstone that covers the key and is visible, 0 exactly when there is none |
| RdelMerge.Fill | src/compact.rs:1196-1267 | Reading a head changes nothing of what the section still yields: dead entries skipped, the others clipped to the live lower bound, target sections concatenated |
| RdelMerge.PickMin | src/compact.rs:1326-1339 | The least head by start, then newest |
| RdelMerge.Merger.NextMerged | src/compact.rs:1383-1429 | One call yields the next entry of the merged stream and leaves the rest of it |
| RdelMerge.DrainSorted | src/compact.rs:1341-1429 | Starts of the merged stream never decrease |
| RdelMerge.DrainKeeps | src/compact.rs:1354-1374 | Coalescing and the shadow drop lose no decisive cover for any reader they must serve |
| RdelMerge.DrainInvents | src/compact.rs:1398-1410 | Nothing in the merged stream covers a key that no input covered at that sequence |
| RdelMerge.MergedSection | src/compact.rs:1341-1429 | For every key and reader the merged section has the same highest cover as the inputs' live tombstones, whatever order ties on start arrive in |
| RdelMerge.DrainBounds | src/compact.rs:1383-1429 | A merged tombstone starts where an input starts and ends where one ends |
| RdelApart.DrainApart | src/compact.rs:1398-1410 | Where nothing is dropped as shadowed, no two entries in a row of the merged stream could still be joined |
| RdelApart.ShadowGoes | src/compact.rs:1354-1374 | An entry is dropped as shadowed exactly when a bottommost merge has just emitted the same range, newer and settled for every reader |
| Coverage.EvictCovers | src/compact.rs:502-527 | The recorded inexact ranges only widen, contain the evicted range, and stay within their cap |
| Coverage.EvictTight | src/compact.rs:502-527 | No key becomes inexact that the evicted tombstone does not reach, but for the gap the last range takes in when all four are taken; a range that meets the last extends it, another is new while there is room |
| Coverage.OldestGoes | src/compact.rs:612-638 | Of nine tombstones the one let go has the least sequence |
| Undominated.EdgeIs | src/compact.rs:581-611 | A complete active set is the set of open tombstones that nothing dominates, each once |
| Coverage.Expire | src/compact.rs:546-554 | Exactly the tombstones that end at or before the key leave the active set |
| Coverage.Prune | src/compact.rs:597-606 | Exactly the tombstones the new one dominates leave the active set |
| Coverage.CoverStream.Admit | src/compact.rs:579-638 | A pulled tombstone is out of sight or dominated and changes nothing, or replaces those it dominates; only when nine would be tracked the oldest is let go and its range becomes inexact. The first range becomes inexact exactly when more than eight open tombstones are undominated |
| Coverage.CoverStream.CoverKey | src/compact.rs:537-645 | The cover returned is never above the true highest settled cover, and equals it at every key outside the inexact ranges; there are none while at most eight undominated tombstones are open |
| Coverage.Tracked | src/compact.rs:587-594 | Why an undominated subset of the tombstones decides every key's cover |
| Visibility.VisibleValue | src/model.rs:267-293 | The two passes answer exactly as the visibility rule: the highest sequence at or below the view wins, and a winning deletion, tombstone or expired value is absence |
| Visibility.SeesUnique | src/model.rs:249-266 | A read has at most one answer |
| History.ReplayExactly | src/model.rs:249-293 | Replaying the operations up to a view leaves a key the value whose write nothing up to the view touched since |
| History.SeesIsReplay | src/model.rs:249-293 | The visibility rule is replay: a read gives what replaying the operations in sequence order up to its view leaves, unless that has expired |
| Retention.Emit | src/compact.rs:888-899 | An expired value leaves as a deletion at its own sequence; anything else leaves unchanged |
| Retention.LiveIsKept | src/compact.rs:856-886 | The version a protected reader gets from the inputs is emitted unchanged |
| Retention.StillSees | src/compact.rs:801-956 | Nothing a protected reader saw is lost |
| Retention.NothingReturns | src/compact.rs:1502-1517 | Nothing it could not see comes back, whatever was dropped |
| Merging.MinKeyCursor | src/compact.rs:747-760 | The first cursor on the least key, or none exactly when nothing is left |
| Merging.HeadCursor | src/compact.rs:766-775 | The newest version of the least key among all cursors |
| Merging.UnservedIsServing | src/compact.rs:861-877 | The streaming decision by served flags is the keep-set rule on the whole version chain |
| Merging.Wanted | src/compact.rs:862-876 | Whether an unserved threshold covers the version |
| Merging.Serve | src/compact.rs:904-915 | An emitted version serves every threshold it satisfies, and no other |
| Merging.TakeConsistent | src/compact.rs:849-927 | Treating the head version keeps the account of what was read, kept and written |
| Merging.Merge.BeginKey | src/compact.rs:823-842 | A new key starts with fresh thresholds, its drop decision and its cover, and the account holds |
| Merging.Merge.MergeStep | src/compact.rs:801-917 | A quantum ends at a sealed block, at a key boundary with a nonempty output, or with every input read, and keeps the account |
| JobInputs.ConcatOrdered | src/compact.rs:653-694 | The concatenating target cursor reads the targets' live entries in table order, all of them |
| JobOutputs.PiecesCover | src/db/compaction.rs:72-91 | Inside an output's range a missing cover was dropped by the drop rule, outside it there is none |
| JobOutputs.SealPieces | src/db/compaction.rs:1122-1130 | The pieces written are those of the whole merged section, clipped to the output and not dropped |
| JobInputs.SettleSame | src/db/compaction.rs:1227-1273 | Retiring and narrowing inputs past a committed key leaves every later key its cover |
| JobInputs.SettleHeld | src/db/compaction.rs:1227-1273 | It leaves every later key its live entries |
| JobInputs.LiveTargetsFrom | src/db/compaction.rs:1236-1257 | What is still live of the targets starts past the keys that are committed |
| JobInputs.LastOfLive | src/db/compaction.rs:1190-1208 | The greatest last key of the live inputs, none only when there is no input |
| CompactionJob.CutBetween | src/db/compaction.rs:1084-1090 | A full output has an exclusive end, the key after its last; it lies past its own keys and not past any key still to be merged |
| CompactionJob.Seal | src/db/compaction.rs:1074-1138 | A sealed output's tombstones stand for the inputs' over its range, for none outside it, and end by the inputs' last key |
| CompactionJob.RunJob | src/db/compaction.rs:348-384 | A job ends with outputs in key order over adjoining ranges, each key's versions in one of them, and every key treated as the retention rule says; after each commit, one for every output but the last, every key below the committed end |
| CompactionJob.CompactionPreserves | src/compact.rs:801-956 | At a key treated so, a protected reader sees the same from the outside tables and outputs as from the outside tables and inputs |
| CompactionJob.JobPreserves | src/compact.rs:801-956 | The same of everything `RunJob` leaves: every key, view and clock |
| CompactionJob.CommitPreserves | src/db/compaction.rs:1210-1220 | After every commit each key reads as before the job: below the committed end from the outputs alone, past it from the live inputs |
| JobOutputs.OutputsAreInputs | src/db/compaction.rs:1139-1187 | Outputs read as tables are valid and disjoint, within the bounds the table references give, also where a tombstone ends one key past the last |
| JobOutputs.FirstExactly | src/db/compaction.rs:1171-1171 | A table's first key is the least of its entries' keys and its tombstones' starts |
| JobOutputs.LastExactly | src/db/compaction.rs:1142-1176 | No key past its last key is held or covered; the last key is an entry's or reached by a tombstone, of a split output its last entry's |
| JobOutputs.TablesEntries | src/db/compaction.rs:1107-1176 | From their first keys on the tables hold exactly the outputs' entries |
| JobOutputs.TablesCover | src/db/compaction.rs:1107-1176 | At every key and view they cover as the outputs' tombstones do |
| JobTables.TablesPreserve | src/db/compaction.rs:1107-1188 | What a reader finds within the bounds of a finished job's tables is what the inputs gave, for every key and protected view |
| JobTables.CommittedTables | src/db/compaction.rs:1210-1220 | The same after every commit on the way, with the inputs still live |
| JobTables.BoundsExactly | src/db/compaction.rs:1165-1176 | A table's bounds are those of its contents: nothing lies outside them, and both are reached |
| JobExact.JobExactly | src/compact.rs:801-956 | A job that tracks its tombstones exactly writes exactly the versions some reader can still get: not forgotten, not buried, newest for the live view or a snapshot |
| JobExact.TombstonesReclaimed | src/compact.rs:1502-1516 | In a bottommost job with nothing older outside it keeps only range tombstones that some snapshot does not see |
| JobExact.DropsExactly | src/compact.rs:1502-1516 | A range tombstone is dropped exactly when the output is bottommost, every snapshot sees it, it hides nothing outside, and none of its keys was tracked inexactly |
| JobExact.ClearIsRule | src/compact.rs:946-956 | A version hides nothing outside the job exactly when its node's versions there are newer and the least foreign one beats it under the merge rule |
| CompactionJob.JobCloses | src/db/compaction.rs:1139-1187 | The tables a job leaves can be the targets of the next, in the key range the job covered |
| Models.KeepSet | src/model.rs:74-121 | The kept positions, ascending and each once, are exactly those the retention rule keeps, the dropped chain included |
| Models.DropsAsMerge | src/model.rs:159-165 | Where nothing outside can show through, the model drops a chain exactly when the merge does |
| Models.RunTightJob | src/model.rs:349-374 | With a slot free at the start no output finds the region full, and the job ends with no fewer free slots; it stops only for want of a free slot or of retired ones, and reports the least that was free |
| Versions.OrderExactly | src/version.rs:75-90 | The merge rule orders a database's versions together with any foreign one exactly when its walls are monotone per node |
| Versions.RuleExactly | src/version.rs:75-90 | The merge rule is the order by wall, node and sequence exactly when walls are monotone per node |
| Versions.AcrossNodes | src/version.rs:85-89 | Across nodes the later wall wins, and at one wall the greater node, whatever the sequences |
| Versions.ReservedLoses | src/version.rs:76-81 | The reserved sequence wins against nothing, and everything real wins against it |
| Versions.Circle | src/version.rs:75-90 | Three versions that beat each other in a circle |
| Versions.FoldOrder | src/scan.rs:364-381 | With monotone walls the fold over sources finds the greatest version by wall, node and sequence, in any order of the sources |
| Versions.FoldDepends | src/scan.rs:364-381 | In a circle the winner depends on the order |
| Reading.PickWinner | src/scan.rs:349-381 | The fold over the heads finds the winner of the key among all live versions of all sources, or that there is none |
| Reading.WinsExactly | src/scan.rs:349-381 | The winner of a key leads every other live version: by sequence within its node, by wall and then node across nodes |
| Reading.HidesExactly | src/db/read.rs:265-310 | A tombstone hides a version of its own node by sequence, one of another by its table's wall and node |
| Reading.RdelHides | src/db/read.rs:265-310 | Whether any source has a covering tombstone newer than the winner, with tables skipped by their bounds |
| Reading.PruneExact | src/db/read.rs:284-296 | A table skipped for want of tombstones, newer sequences or reach hides no key |
| Reading.ReadsUnique | src/version.rs:18-23 | A key has at most one answer |
| Reading.ReadsIsSees | src/model.rs:249-266 | With one node the scans' rule is the simple visibility rule |
| Reading.FairAlone | src/version.rs:75-90 | With one node the scans ask only that no sequence of a key be live twice |
| Cursors.ParkTable | src/scan.rs:642-730 | From a position the cursor goes on to the next entry to show, across any number of blocks, and stands there or at the end |
| Cursors.AdvanceMem | src/scan.rs:736-759 | The memtable head goes on to the next visible slot that is no range tombstone |
| Cursors.SeekCursor | src/scan.rs:547-635 | Sought through the index, a cursor stands where a walk over the whole source from its first entry would |
| Cursors.SkipKeeps | src/scan.rs:667-696 | Going on to the next entry to show passes none that is to be shown |
| Cursors.WholeOrdered | src/scan.rs:711-730 | Read block by block, or slot by slot without range tombstones, a source is ordered and complete |
| Cursors.RunDown | src/scan.rs:1928-1955 | The run a slot lies in: its first slot, and its newest visible point version |
| Cursors.AdvanceMemRev | src/scan.rs:1928-1973 | The greatest key at or below a slot that has a visible version, at its newest, and where its run starts |
| ForwardScan.Seek | src/scan.rs:271-297 | A source outside the range gets no cursor and needs none; any other is parked with everything to show ahead of it |
| ForwardScan.LeaveKey | src/scan.rs:466-489 | Past a key the cursor stands on its source's next visible entry of a later key |
| ForwardScan.Decide | src/scan.rs:349-419 | A key is yielded exactly when it reads, with its winning value |
| ForwardScan.Scan.Next | src/scan.rs:330-459 | Yields the least readable key ahead; ends only when there is none; a buffer too small consumes nothing |
| ForwardScan.ScanAll | src/scan.rs:320-459 | Run to the end: exactly the readable keys of the range, strictly ascending, each with its value |
| TableLookup.IndexLookup | src/sstable.rs:1617-1698 | Everything before the block found is below the key; everything is past it when there is no block |
| TableLookup.RestartSearch | src/sstable.rs:1868-1889 | Everything before the restart chosen is below the key |
| TableLookup.DataLookup | src/sstable.rs:1844-1952 | A block answers with the key's newest visible version in it, that the table has none, or that its run may go on |
| TableLookup.LookupAt | src/sstable.rs:2353-2446 | The key's newest visible version in the whole table, or that there is none |
| TableLookup.BuildFilter | src/sstable.rs:291-305 | The filter passes every key added, and holds no bit that is not a probe of one |
| TableLookup.ProbeSteps | src/sstable.rs:283-287 | The probes are the 64-bit words that adding the second hash to the first time and again gives |
| TableLookup.GatedLookup | src/sstable.rs:2362-2380 | A lookup behind the bloom gate answers as one without it |
| ReverseSearch.RegionBest | src/scan.rs:1829-1872 | The region's greatest qualifying key, at its newest visible version |
| ReverseSearch.LastQualifying | src/scan.rs:1756-1786 | Entries from the next restart on lie past the bound; none when all do |
| ReverseSearch.WithinExactly | src/scan.rs:1554-1556 | A bound takes in all keys, those below its key, or that one too |
| ReverseSearch.WalkRegions | src/scan.rs:1792-1892 | The block's answer, with the early break and ties resolved to the earlier region |
| ReverseSearch.ResolveRun | src/scan.rs:1661-1704 | The newest visible version of the run in the earlier blocks, or that there is none |
| ReverseSearch.ParkRev | src/scan.rs:1559-1650 | The greatest qualifying key up to this block, at its newest visible version, however its run lies across blocks |
| ReverseSearch.SeekRev | src/scan.rs:1445-1548 | The same for the whole table from the last block that can hold a match |
| BackwardScan.ParkFirst | src/scan.rs:1136-1180 | Each source, memtable or table, parks at its greatest qualifying key, at its newest visible version |
| BackwardScan.ParkBelow | src/scan.rs:1354-1385 | The re-park from the cursor's own block, or below its run's first slot, is the source's answer strictly below the key |
| BackwardScan.DecideRev | src/scan.rs:1215-1286 | A key is yielded exactly when it reads, with its winning value |
| BackwardScan.RevScan.Prev | src/scan.rs:1196-1326 | Yields the greatest readable key below; ends only when there is none; a buffer too small consumes nothing |
| BackwardScan.RevScanAll | src/scan.rs:1180-1326 | Run to the end: exactly the readable keys of the range, strictly descending, each with its value |
| Memtable.MemTable.FindRun | src/memtable.rs:253-260 | Where the key's run starts or would start, and whether it is there |
| Memtable.MemTable.Apply | src/memtable.rs:367-398 | The record goes to its run's start, every other record keeps its bytes, and the order holds |
| Memtable.MemTable.Insert | src/memtable.rs:265-310 | Refused exactly when key, value, table or arena is too large, each with its own reason, and then nothing changed; else one record more |
| Memtable.MemTable.InsertRangeDel | src/memtable.rs:314-365 | Refused exactly when a bound is empty or too large, the range is empty, or there is no room; else one range tombstone more |
| Memtable.MemTable.GetAt | src/memtable.rs:523-549 | The newest point version at or below the view, or that there is none |
| Memtable.MemTable.MaxCoveringRdel | src/memtable.rs:556-575 | The cover that the table's range tombstones give the key at the view, or that none covers it |
| Admission.ClaimSound | src/ring.rs:284-306 | Claiming the head keeps the ring's invariant |
| Admission.PublishSound | src/ring.rs:323-340 | Publishing a free ticket keeps it |
| Admission.FenceSound | src/ring.rs:464-485 | Fencing the cursor keeps it |
| Admission.ReleaseSound | src/ring.rs:499-513 | Freeing a lost ticket's slot for the next lap keeps it |
| Admission.TakeSound | src/ring.rs:390-397 | Freeing the cursor's slot after reading it keeps it |
| Admission.PassSound | src/ring.rs:396-408 | Moving the cursor past a read or lost ticket keeps it |
| Ring.PastExact | src/ring.rs:423-447 | `gate_is_past` is right for every gate less than half the ticket space ahead |
| Ring.PastTooFar | src/ring.rs:444-446 | It is wrong for every gate at or past that distance, up to one whole round of tickets ahead |
| Ring.GateWords | src/ring.rs:48-82 | A gate's word has its ticket in the low 31 bits, the next one when published, and bit 31 set when fenced |
| Ring.FreeWord | src/ring.rs:284-292 | A gate word equal to a near ticket's word is that ticket's free gate and no other |
| Ring.PublishedWord | src/ring.rs:61-63 | The same for published gates |
| Ring.ReleaseWord | src/ring.rs:73-75 | The released word is the word of the ticket one lap ahead, across the wrap |
| Ring.WordRoundTrip | src/ring.rs:176-202 | A payload cell is read back as the bytes written |
| RingRuns.WithHead | src/ring.rs:255-276 | A new ring has every slot free for the first ticket that maps to it, whatever the seed |
| RingRuns.ClaimSwapKeeps | src/ring.rs:284-306 | A claim wins only the head ticket, and only with its slot free |
| RingRuns.PublishSwapKeeps | src/ring.rs:323-368 | The publish arbitrates with the fence: exactly one wins |
| RingRuns.PollLoadKeeps | src/ring.rs:384-408 | The drainer reads only its published cursor ticket and skips only lost ones |
| RingRuns.StepKeeps | src/ring.rs:284-513 | Every atomic operation keeps the invariant that the words encode a sound ring |
| RingRuns.RunKeeps | src/ring.rs:284-513 | So does every run |
| RingRuns.ExactlyOnce | src/ring.rs:284-513 | The drainer's output over any run is the published tickets behind its cursor, ascending, each once with the bytes published; no fenced, freed or refused ticket is among them; none behind the cursor is lost |
| RingRuns.PublishVerdict | src/writer.rs:70-87 | A publish that returned Published is drained once the cursor passes it; one that returned Fenced never is |
| RingSteps.CheckExactly | src/ring.rs:284-292 | A claim that read the head goes on exactly when the head's slot is free for it |
| RingSteps.ClaimExactly | src/ring.rs:293-306 | A claim wins exactly when its ticket is still the head, and takes it |
| RingSteps.PublishExactly | src/ring.rs:330-337 | A publish wins exactly when its ticket is pending: the payload is published and nothing else changes |
| RingSteps.RereadExactly | src/ring.rs:338-345 | After a failed exchange it tries again exactly while its ticket is pending |
| RingSteps.SelfReleaseExactly | src/ring.rs:346-362 | The loser of a fence frees its slot for the next lap and reports the loss |
| RingSteps.PollExactly | src/ring.rs:384-405 | A resting drainer reads exactly when the cursor's ticket is published, passes exactly when it is lost, and else waits |
| RingSteps.ReleaseExactly | src/ring.rs:390-395 | The payload read is the one published, and its slot is freed for the next lap |
| RingSteps.CursorExactly | src/ring.rs:395-401 | The cursor moves past its ticket, and what was read is handed out |
| RingSteps.FenceLoadExactly | src/ring.rs:464-471 | The drainer goes to fence exactly when the cursor's ticket is claimed |
| RingSteps.FenceExactly | src/ring.rs:472-483 | A fence wins exactly when the ticket is pending, and then it is lost |
| RingSteps.HostLoadExactly | src/ring.rs:499-513 | The host releases a dead writer's ticket exactly when its slot is its own and nothing was published |
| RingSteps.HostStoreExactly | src/ring.rs:504-507 | Its store frees the slot for the next lap, and the ticket is lost |
| RingProgress.DrainOne | src/ring.rs:384-401 | A resting drainer at a published ticket hands its payload out and moves on; a lost one it passes |
| RingProgress.FenceOne | src/ring.rs:464-483 | At a ticket nobody publishes it can fence and move on |
| RingProgress.NeverStuck | src/ring.rs:362-405 | From every state of every run the drainer alone can reach the head, and then everything published was handed out |
| RingProgress.WriteOne | src/ring.rs:284-362 | A writer that finds room can claim the head ticket and publish its payload under it |
| PayloadCodec.RoundTrip | src/drainer.rs:140-222 | Encoding succeeds exactly on what fits a slot, and decoding gives it back |
| PayloadCodec.DecodedFits | src/drainer.rs:234-292 | What decodes fits, and encodes again to its own bytes |
| PayloadCodec.DecodeExactly | src/drainer.rs:60-90 | A slot decodes exactly to what its bytes say, field by field |
| PayloadCodec.FaultsExactly | src/drainer.rs:219-234 | Which error a slot that says nothing gives |
| PayloadCodec.EncodedSays | src/drainer.rs:60-90 | The encoder's bytes say the mutation |
| Draining.DurableExact | src/drainer.rs:319-325 | The watermark test is exact within half the ticket space |
| Draining.Drainer.AdvanceDurable | src/drainer.rs:571-577 | The compare-exchange never fails |
| Draining.Drainer.AckPending | src/drainer.rs:582-587 | Every buffered ticket is passed, in order |
| Draining.Drainer.Batch | src/drainer.rs:665-718 | The batch is the buffered tickets' effects in ticket order; there is none exactly when a payload is malformed or too large |
| Draining.EffectsExact | src/drainer.rs:665-711 | What tickets ask for is every put, deletion and non-empty range deletion they carry, in ticket order, and no other |
| Draining.QueueableExactly | src/batch.rs:178-230 | A batch takes a mutation exactly when its key is not empty and it fits |
| Draining.Drainer.Sweep | src/drainer.rs:610-756 | Watermark plus buffer is the cursor, each effect is in the database once and in order; a sweep is idle only after the ring had nothing at its cursor, and fences exactly when the stall budget is spent |
| Draining.Drainer.PollPut | src/writer.rs:42-50 | A put reported complete is dead, a no-op or in the database |
| WalRecord.RecordBack | src/wal.rs:99-145 | An encoded record is read back, whatever follows it |
| WalRecord.BlockBack | src/wal.rs:163-169 | A block of records and zero padding is scanned as its records |
| WalRecord.ScanExactly | src/wal.rs:161-232 | A record is taken exactly when magic, length, operation and checksum are right, for what its bytes say, offset by offset |
| WalStage.Stage.WriteStage | src/wal.rs:665-682 | The block written is the staged records and zeros, although only the dirty part is cleared |
| WalStage.Stage.Append | src/wal.rs:492-552 | Records go behind the staged ones or into a new block; a group never spreads over two; a refusal changes nothing |
| WalStage.Stage.Truncate | src/wal.rs:371-383 | Discarded records cannot come back in a later block |
| WalStage.Stage.Recovered | src/wal.rs:865-872 | After a recovery nothing read through the buffer can reach a later block |
| WalLog.WholeGroups | src/wal.rs:767-806 | What is complete of a cut-off write is a number of its groups |
| WalLog.StaleStep | src/wal.rs:807-858 | A block without live closing records replays nothing, wherever recovery stops |
| WalLog.TornComplete | src/wal.rs:767-806 | No record left behind a torn write closes one of its groups |
| WalLog.TornStep | src/wal.rs:767-864 | Recovery of a torn block replays a number of whole groups of the torn write, or none |
| Wal.ScanBlock | src/wal.rs:767-806 | Pass 1 finds the last complete group, and whether the block is torn |
| Wal.Replay | src/wal.rs:818-853 | Pass 2 replays exactly the complete groups' records above the floor |
| Wal.RecoverBlocks | src/wal.rs:737-874 | The loop is the walk over blocks, with its newer-than rule, and stops where that does |
| Wal.WalWriter.Commit | src/wal.rs:560-570 | Acknowledged groups are at the end of the live log; refused exactly when the region is full |
| Wal.WalWriter.CrashInWrite | src/wal.rs:665-682 | However the block tears, what recovery can reach is the log and whole groups of the write |
| Wal.WalWriter.Recover | src/wal.rs:737-874 | Replays every acknowledged group and otherwise only whole groups of the interrupted write, in sequence order, above the floor; later writes are found by the next recovery |
| Wal.WalWriter.Flushed | src/db/flush.rs:236-262 | The live log restarts empty, at the region's start when it is full, and nothing stale can replay |
| WalRetry.RetryExactly | src/db/mod.rs:877-893 | Some tear of a failed write and of its retry makes recovery replay part of a group exactly when a group straddling the two writes is neither's |
| WalRetry.SpliceGroups | src/wal.rs:767-806 | Records of the retry in front of the failed write's read as whole groups exactly when the straddling one is |
| WalRetry.RetryOne | src/db/mod.rs:877-893 | A failed write of one record mixes with no retry |
| WalRetry.RetrySame | src/db/mod.rs:877-893 | A write does not mix with itself made again |
| WalRetry.RetryPast | src/db/mod.rs:886-891 | A retry with sequences at or past the failed write's last does not mix |
| WalRetry.RetryReused | src/db/mod.rs:883-885 | A put that takes a failed batch's first sequence, and as many bytes as its first record, mixes with it |
| WalLater.LaterMixes | src/db/mod.rs:877-893 | Whatever the retry, what a failed write of several records left can close the open group of a write after the next recovery, which ends where the failed write's last record starts |
| WalLater.OneIsSafe | src/db/mod.rs:903-940 | After a failed write of one record every later write recovers as whole groups, whatever tears |
| WalLater.LaterExactly | src/db/mod.rs:877-893 | Some write after a torn retry and its recovery mixes exactly when the failed write had more than one record |
| WalRetry.FailWrite | src/db/mod.rs:883-885 | A write reported as failed, however much of it landed, leaves the writer where it was |
| WalRetry.FailThenCrash | src/wal.rs:665-682 | A recovery right after the failed write finds the log and whole groups of it |
| WalRetry.Retry | src/wal.rs:560-570 | A retry that succeeds leaves nothing of the failed write |
| WalRetry.CrashInRetry | src/wal.rs:665-682 | Any tear of a retry that does not mix recovers the log and whole groups of the two writes |
| WalRetry.RecoverRetry | src/wal.rs:737-874 | That recovery replays the log, then whole groups of the two writes |
| WalRetry.CrashInRetryOfOne | src/db/mod.rs:903-940 | After a failed write of one record a torn retry is as a torn first write: recovery finds one of the two, and later writes build on it |
| ManifestCommit.StillSound | src/manifest.rs:1158-1170 | Until its last block, a commit leaves the previous manifest the one recovered, over any leftovers |
| ManifestCommit.LastBlock | src/manifest.rs:1158-1176 | The last block makes the new one so |
| ManifestCommit.ProbeCopy | src/manifest.rs:1064-1102 | Intact exactly as all its blocks agree, blank exactly by its first block |
| ManifestCommit.IntactBelow | src/manifest.rs:1027-1040 | No intact copy is newer than the current manifest, and only its own is as new |
| ManifestCommit.RecoverFrom | src/manifest.rs:1018-1062 | Recovery returns exactly the current manifest |
| ManifestCommit.RecoverAny | src/manifest.rs:1003-1060 | On any device at all: the newest intact copy; without one a fresh manifest if some copy was never written, else an error |
| ManifestCommit.ManifestStore.Commit | src/manifest.rs:1150-1178 | After power fails at any block write the current manifest is the previous one, or the new one if all its blocks landed |
| ManifestCommit.FitsExactly | src/manifest.rs:700-706 | A body fits a copy exactly when it is no longer than the copy's blocks together |
| Slots.LayOut | src/slots.rs:73-92 | The slots laid out lie in the region |
| Slots.LayOutExactly | src/slots.rs:68-92 | A region is laid out exactly when every slot gets the blocks asked for, and each is as large as it can be |
| Slots.SlotOfExact | src/slots.rs:116-131 | A run's slot is the one that holds all of it |
| Slots.SlotsDisjoint | src/slots.rs:108-110 | Runs of different slots do not overlap |
| Slots.SlotMap.FindFree | src/slots.rs:159-170 | A free slot, or that every slot is taken, from any hint |
| Slots.SlotMap.Claim | src/slots.rs:174-179 | One free slot becomes used |
| Slots.SlotMap.Reserve | src/slots.rs:183-192 | One free slot becomes reserved, or none is free |
| Flushing.FreeSlotWrite | src/db/flush.rs:190-223 | A write into a free slot leaves every live table's blocks as they were |
| Flushing.WriteTable | src/db/flush.rs:193-223 | Power lost before any block of the table leaves live tables intact and acknowledged records kept |
| Flushing.TableJoins | src/db/flush.rs:228-246 | The table goes behind the others under a new id, and no number of the manifest goes back |
| Flushing.Db.Write | src/db/mod.rs:903-954 | An acknowledged group is kept |
| Flushing.Db.LosePowerInWrite | src/db/mod.rs:903-954 | Power lost in a write leaves every acknowledged record kept |
| Flushing.Db.WrapIfFull | src/db/flush.rs:27-51 | Wrapping an empty log is one atomic commit |
| Flushing.Db.Flush | src/db/flush.rs:148-262 | Power lost at any block write leaves every acknowledged record in the recovered log or an intact table of the recovered manifest; it is refused only for want of a slot, of blocks or of manifest room, and when done its table is the last of the manifest and the log is empty |
| Flushing.Db.FlushInto | src/db/flush.rs:200-262 | The table is written into the free slot and becomes the last of the manifest, or nothing changed |
| Flushing.Db.Open | src/db/mod.rs:811-865 | Every acknowledged record is in the memtable or a table, no slot is used twice, and the database runs on |
| Crc.MakeTables | src/crc.rs:16-44 | Table k holds a byte followed by k zero bytes |
| Crc.ByteSplit | src/crc.rs:82-84 | A byte step is a lookup of the low byte and a shift |
| Crc.Sliced | src/crc.rs:67-79 | Up to four bytes can be taken at once |
| Crc.Parts | src/crc.rs:70-77 | A word's step is the xor of its bytes' lookups |
| Crc.SliceEight | src/crc.rs:67-79 | Eight lookups take eight bytes |
| Crc.Crc32Fast | src/crc.rs:61-87 | For every byte string the result is the bit-at-a-time CRC-32 |
| CrcNumbers.PolyOf | src/crc.rs:26-26 | The polynomial's bits are those of 0xEDB88320 |
| CrcNumbers.CrcIsRfc | src/crc.rs:16-87 | On every byte string it is the CRC that section 8 of RFC 1952 computes on 32-bit numbers |
| CrcNumbers.CheckValue | tests/crc.rs:13-13 | Of the digits 1 to 9 it is 0xCBF43926 |
| Lz77.CopyMatch | src/compress.rs:420-436 | Copying a match back reproduces the source, overlapping or not |
| Lz77.EncodesToken | src/compress.rs:142-176 | A token takes the encoding on to the end of its match |
| Lz77.CopyWithin | src/compress.rs:414-434 | The bulk copy and the byte loop do the same |
| Lz77.Decompress | src/compress.rs:361-439 | Every stream is decoded, or refused, as it means |
| Lz77.CompressScratch.FindMatch | src/compress.rs:255-281 | The bucket's one candidate, if it lies within the window, and exactly how far it agrees |
| Lz77.CompressScratch.Compress | src/compress.rs:127-210 | A length is returned exactly when the greedy encoding saves 128 bytes and fits 15 bits; then that encoding is written, and it decodes to the source |
| Lz77.RoundTrip | src/compress.rs:127-210 | Whatever compression keeps is decompressed to the source |
| LzRuns.RunCompresses | src/compress.rs:127-210 | A run of one byte takes six bytes and one for every 255 past the first twenty |
| BlockSeal.Seal | src/sstable.rs:446-465 | The sealed body stands for the given one, and is the compressed one exactly when that saves enough |
| BlockSeal.Inflate | src/sstable.rs:1280-1301 | Any body is inflated, or refused, as it stands |
| StagedEdit.ViewLevel | src/manifest.rs:742-789 | The view of a level is what the edit leaves of it |
| StagedEdit.RemoveAll | src/manifest.rs:1349-1358 | Removing pool positions from the top takes exactly those tables out of their levels |
| StagedEdit.AddTable | src/manifest.rs:598-613 | One level gains the table where it belongs, the others keep theirs |
| StagedEdit.ApplyChecked | src/manifest.rs:1322-1364 | Every level is as the edit's view shows it |
| StagedEdit.StagedIsApplied | src/manifest.rs:736-789 | The view a commit encodes is the manifest that applying the edit leaves |
| StagedEdit.ScalarsMerge | src/manifest.rs:793-797 | The WAL head is the edit's if it has one, the other numbers are the greatest of old and edited, the highest sequence also of what is flushed |
| EditMeaning.EditLeaves | src/manifest.rs:730-790 | Every level keeps, in order, the tables not removed, narrowed and stamped field by field as asked, and the added one in its place |
| ManifestBody.BodyBack | src/manifest.rs:931-986 | A body decodes to the manifest it encodes |
| BodyDecode.DecodeExactly | src/manifest.rs:931-986 | A byte string decodes exactly when it is the body of a manifest within its limits, and then to that manifest |
| ManifestBody.NeverTooLarge | src/manifest.rs:698-724 | No manifest within its capacity needs more than `max_blocks` blocks |
| BodyDecode.MaxAttained | src/manifest.rs:696-698 | That bound is attained, by a full pool of tables with the longest keys |
| ManifestBody.Window.Put | src/manifest.rs:1554-1563 | The window keeps exactly the stream's bytes at its offsets |
| ManifestBody.EncodeChunk | src/manifest.rs:840-878 | Written through the window in whatever pieces, a block holds its chunk of the body |
| ManifestBody.BodyPiecesFlat | src/manifest.rs:793-822 | The fields written one after the other are the body |
| ManifestBody.EncodeCopy | src/manifest.rs:840-878 | The blocks of a copy, each encoded through its own window, are the body cut into blocks |
| ManifestBody.CheckedFits | src/manifest.rs:1273-1304 | An edit passes the check exactly when it names what there is and leaves the pool and level 0 within their limits |
| ManifestBody.CommitEdit | src/manifest.rs:1150-1178 | A refused edit changes nothing; otherwise the blocks of the staged edit decode to exactly the manifest applied in memory, with the numbers and tables the edit means, and fit a copy |
| SplitMargin.OneMoreSeal | src/compact.rs:719-741 | A key's entries seal no more blocks than the margin allows |
| SplitMargin.MarginIsEnough | src/compact.rs:707-741 | If an empty output can hold one key's worst case, no push of a key begun without splitting fails, and the output can be closed |
| SplitMargin.JobFits | src/compact.rs:700-741 | Over a whole job that splits only before keys no push and no seal fails, every output fits its blocks and index, and together they hold every entry |
| SplitMargin.SplitExactly | src/compact.rs:707-741 | An output ends before a key exactly when it holds entries and may lack room for another key, in the source's numbers |
| SplitMargin.OutputsFull | src/compact.rs:700-718 | A job closes no output early: all but the last may lack room for another key |
| BlockPacking.FitsExactly | src/sstable.rs:150-168 | An entry fits exactly when the block with it does, restart offsets, count and checksum included |
| BlockPacking.JobPacks | src/sstable.rs:636-742 | A job's outputs hold exactly the entries pushed, in order, in blocks that fit, each cut where the next entry did not fit or the output ended |
| SplitFits.FewPerKey | src/compact.rs:719-724 | Of every key a job emits at most one version for the live view and one for each snapshot |
| SplitFits.EmittedFits | src/compact.rs:700-741 | Over everything a job emits no push and no seal fails |
| SplitFits.EmittedPacks | src/sstable.rs:636-742 | The tables' blocks hold exactly what the job emits, in its order, and every block fits |
| SplitFits.ItemSizes | src/sstable.rs:123-148 | An entry takes its header and key, a value its bytes too, and eight more if it expires |
| RdelBudget.OpenEnds.Expire | src/compact.rs:1634-1645 | Forgetting ended tombstones loses no overlap from here on |
| RdelBudget.OpenEnds.Insert | src/compact.rs:1649-1673 | Overlap is never undercounted, and counted exactly while there is room; when full the latest end is the one no longer tracked |
| RdelBudget.CountMerge | src/compact.rs:1580-1613 | The depth found bounds every key's overlap in the counted stream, and some key attains it as long as there are slots for all that overlap |
| RdelBudget.PackedWithin | src/sstable.rs:180-199 | Greedy packing stays within both bounds |
| RdelWeight.DrainLight | src/compact.rs:1383-1429 | However a merge coalesces and drops, an output's share of it weighs no more than its share of what was merged |
| JobInputs.SettleLighter | src/db/compaction.rs:1227-1273 | Retiring and narrowing inputs makes no later output's share heavier |
| RdelBudget.CountCovers | src/compact.rs:1545-1566 | A count of tombstones bounds the blocks of what any output takes of them |
| JobBudget.ReadBudgetHolds | src/db/compaction.rs:1104-1131 | A budget counted from the tombstones as read is enough for every output a job seals |
| JobBudget.MergedBudgetHolds | src/compact.rs:1545-1566 | The dry run's budget is enough for every output of a job in which it coalesced and dropped nothing |
| JobBudget.CutsLive | src/db/compaction.rs:1107-1131 | After any commits the live inputs hold, cover and weigh what the job has yet to merge |
| BudgetGap.GapFails | src/db/compaction.rs:1104-1131 | For any numbers merged and dropped there is a job whose first commit brings a tombstone back and leaves the budget short |
| BudgetGap.CoalescingReturns | src/compact.rs:1398-1410 | Narrowing can also undo a coalescing, without any drop |
| BudgetGap.BudgetExactly | src/compact.rs:1534-1566 | What the dry run counts vouches for its budget, over all jobs, commits, sizes and drops, exactly when it emitted all it read |

## Left out

- Device traits, flash and register code, wakers and futures: each device call is one step that succeeds, fails or
  crashes.
- Weak memory orderings: the ring's operations interleave sequentially consistently.
- Compaction across nodes: seal walls are per table and an output inherits the greatest, so only one node's versions
  are compared.
- Job selection, tight-job estimates and writing the manifest at each commit: a commit is its outputs and its narrowed
  inputs.
- That the coverage stream never reads a retired input's blocks: sections are values.
- `evict` with a key longer than the maximum (src/compact.rs:508-514), which the source calls unreachable.
- The caches, write batches, archive and ingest, statistics, errors that carry sizes, and configuration checks.
- The point-read fan-out over tables (src/db/read.rs): the scans use the same fold.
- Cursors.SeekCursor: the memtable's first slot is any that `Memtable.MemTable.FindRun` may find; its binary search is
  proved there.
- ForwardScan.Scan: the buffer that cursors share, and re-reading a block into it, are not modelled; blocks are
  values.
- TableLookup.BuildFilter: the two hashes of a key are arbitrary functions, not `splitmix64`.
- Draining.Drainer.Sweep: the ring answers with any published or lost cursor ticket, as `RingRuns` proves it may, and
  `Db::write` with any outcome; sequence numbers it assigns are not modelled.
- Wal.WalWriter.Commit: that a group fits its block is left to `WalStage.Stage.Append`; the device flush is part of
  the write.
- Flushing.Db.Flush: a table is its blocks of records; planning, filters and indexes are not part of it, and
  compaction's own writes are not interleaved.
- Slots.SlotMap.FindFree: a bitmap is the set of its bits.
- Crc.Crc32Fast: a 32-bit word is its list of bits, least significant first.
- SplitFits.EmittedFits: the writer is its counters; `Merging` may split at any key boundary, so also where the margin
  makes it.
- RdelBudget.CountCovers: a block must hold the largest entry, which the source's sizes guarantee.
- WalRetry.CrashInRetry: for a failed write of several records only what recovery replays is proved, not that later
  writes are safe: `WalLater.LaterMixes` shows that they are not.
- WalRetry.Retry: the other branch of `rollback_commit`, a landed block whose flush failed, is not modelled.
- StagedEdit.ApplyChecked: deeper levels stay sorted by first key, as compaction keeps them, and table ids are unique.
