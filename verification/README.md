# Verified models of the database core

This project models, in Dafny 4.11, the parts of the database where reads take a fast
way to something that has a simple meaning, and proves that they agree with it.

- **CSTORE2 tables** (`internal/storage/mpart.go`). A table is a stack of a transaction
  overlay, a memory part and sorted parts on disk. `Versions` says what a stack of row
  versions means: full rows, tombstones, and partial rows that inherit column by column.
  `MpartModel`, `MpartSteps` and `MpartTx` give the steps as functions on the state,
  `MpartProofs` what each keeps, and `MpartRun` the refinement over whole runs of
  transactions, flushes, idle flushes and compactions cut at their lock boundaries.
  `MpartStore` and `MpartTxns` are the objects that take these steps, `MemParts`, `Disk`
  and `PointReads` the parts and the point reads. `MergeSpec`, `Merge`, `Sources`, `Walk`,
  `TableWalk` and `TableScan` are the k-way merge with all its shortcuts, and
  `MpartCompact` the merge that a compaction writes. `MpartLimits` and `MpartSwaps` have
  the exact extent of what does not hold.
- **The versioned key-value store** (`internal/kv/kv.go`): `KvKeys`, `KvModel`, `KvReads`,
  `KvDesc`, `KvStore`, `KvLimits`. Versions of a key lie newest first in one ordered key
  space; point reads, the two range loops, reverse reads, counting, batches and version
  compaction are proved against a history of writes.
- **The column store over it** (`internal/storage/cstore.go`): `CStore`, `CStoreTxns`.
- **Query pruning and merging**: `PkEncoding` and `PkRange` (WHERE to byte ranges),
  `Aggregates`, `AggPlans`, `AggGroups`, `AggWire` and `AggGroupWire` (aggregates over shards), `GroupBy`,
  `GroupPaths` and `GroupRun` (the three GROUP BY paths).
- **Sharding**: `Shards` and `ShardScan` (splits that move no rows, inserts, scans
  narrowest first), `Meta` and `MetaReplay` (the catalog log and its replay).
- **Two round trips**: the binary statement codec (`CodecPrims`, `CodecExpr`, `CodecStmt`,
  `CodecTrip`, `CodecRound`; `CodecIO` and `CodecStmtIO` are its writer and reader,
  `CodecWire` both in a row) and printing, lexing and parsing of expressions (`SqlLex`,
  `Lowering`, `SqlParse`, `SqlPrint`, `SqlRound`), with the fewest brackets and in any
  spelling as well (`SqlBare`, `SqlCase`), of whole SELECT statements (`SqlSelect`,
  `SqlClauses`) and of the one a shard is sent (`SqlShard`).

`Bytes` and `Endian` hold the byte order everything rests on, `Wrappers` the option type.

Modules that follow code which works by changing state are classes or loops, each tied by
its contract to a function of the old state; what the code is for is then proved about
these functions.

Where a promise fails, the project keeps the code as it is, gives an input for which it
fails, and proves exactly when it holds:

- A point read of the key-value store misses a live value if and only if a record of another
  key sorts between the version it seeks and the one it should find (`KvLimits`).
- `PKRangeFromWhere` reports `a = 5 AND b >= 5` exact, and the unit test named "eq then range"
  expects it to, although the range has no upper bound and holds `(6, 0)`
  (`PkRange.OpenRangeLeaks`). When exact is reported, and when it is true, is said of the
  clause (`PkRange.PKRangeFromWhere`, `PkRange.RangeExactIff`).
- At the latest revision a full range read is right if and only if the records are in key
  order (`KvLimits.LatestRunsIff`). At an older one the loop need not end when keys do not
  stand apart (`KvLimits.SeekLoops`); here the condition under which it is right is proved
  sufficient only (`KvReads.RangeSeek`).
- Merged groups are the groups of the table if and only if no NULL group meets the string
  `NULL` (`AggGroups.GroupedMerge`).
- A shard without rows sends NULL as text, which a minimum of strings takes for a value
  (`AggWire.MergeCarried` and `AggGroupWire.GroupedMergeCarried` say exactly when it shows).
- The statement codec is the identity if and only if every operator is in its tables; LIKE is
  not, and a DELETE loses its condition (`CodecRound`).
- Printing and parsing give back an expression if and only if its names are words and it has
  no cast to float. The lexer takes names byte by byte while lower case takes them rune by
  rune, so U+042A is a name and its lower case is none (`SqlRound`).
- A column named `distinct` at the head of a pushed-down SELECT is taken for the word
  (`SqlShard.ShardTextIff`).
- A replayed catalog log converges if and only if it leaves nothing to redo, and fails if and
  only if it sets the nodes of a shard that is missing on disk (`MetaReplay`). Tables created
  by the only proposer there is never fail (`MetaReplay.ProposedReplays`).
- Five windows and orders of writes in which a CSTORE2 table departs from a map: a clear during
  an idle flush, a delete after a put, a partial row over an uncommitted one (`MpartLimits`),
  a flush and a clear during a compaction (`MpartSwaps`). Each has the condition under which
  the table is not changed.

## Model

| member | source | states |
|---|---|---|
| MpartRun.RunsRefineTables | internal/storage/mpart.go:2191-2272 | For every run from the empty table, any interleaving of transactions, threshold and idle flushes, scans and the three phases of compaction: the visible table is the one a plain map would hold, an open transaction sees its own version of it, the live counter is its size, and a scan through the cached view reads the same rows. |
| MpartTx.PutUpdates | internal/storage/mpart.go:1772-1794 | A put, full or partial, is a map update of the table the transaction sees, and the count delta stays exact. |
| MpartTx.PutDrifts | internal/storage/mpart.go:1772-1794 | With or without the existence probe a put is the same map update; without it the live count misses exactly a key that was not live. |
| MpartTx.DeleteUpdates | internal/storage/mpart.go:1804-1814 | A delete removes exactly that key from what the transaction sees and lowers the delta only if the row was live. |
| MpartTx.ClearUpdates | internal/storage/mpart.go:2171-2182 | A clear leaves the transaction an empty table with an exact delta, and later puts start from it. |
| MpartTx.UpdateRangeUpdates | internal/storage/mpart_col.go:476-495 | A constant-range update assigns the given columns in exactly the rows of the window and leaves the others. |
| MpartTx.DeleteHint | internal/storage/mpart.go:1804-1814 | A delete keeps the insertion-order hint sound if and only if the hint is not live or does not list the key. |
| MpartProofs.CommitPublishes | internal/storage/mpart.go:2191-2272 | A commit publishes exactly what its transaction read, with or without a threshold flush and after a clear, and the counter becomes the size of that table. |
| MpartProofs.FlushQuiet | internal/storage/mpart.go:704-737 | Moving the memory rows to a new newest part changes no read, no count and no open transaction. |
| MpartProofs.CachedQuiet | internal/storage/mpart.go:2781-2809 | Building the sorted view changes no row; the cache it leaves reads like the rows. |
| MpartProofs.PublishQuiet | internal/storage/mpart.go:537-569 | Publishing an idle flush under the id reserved earlier, after whatever commits and flushes landed in between, loses, duplicates and reverts no row, and the cache that was not invalidated still reads right. |
| MpartProofs.SwapQuiet | internal/storage/mpart.go:3072-3100 | Swapping merged parts in shows the table that was there just before, with every commit since the snapshot, and the counter follows. |
| MpartProofs.JobUnderCommit | internal/storage/mpart.go:2191-2272 | A commit, flushing or not, keeps everything a flush or merge job in flight relies on. |
| MpartProofs.TxUnderQuiet | internal/storage/mpart.go:2191-2272 | An open transaction sees the same table before and after any background step. |
| MpartModel.ScanReadsCurrent | internal/storage/mpart.go:2823-2869 | A scan through a valid but stale sorted view reads every key as the current rows do. |
| Versions.InheritIsResolve | internal/storage/mpart.go:2630-2652 | Filling holes from older live versions while stepping over tombstones gives the row the version stack means. |
| Versions.FillEmptyCells | internal/storage/mpart.go:2908-2914 | In place, exactly the empty cells are taken from the older version. |
| Versions.HasEmptyCell | internal/storage/mpart.go:2895-2902 | True exactly when some column is still untouched. |
| MpartSteps.SortPublished | internal/storage/mpart.go:586-590 | A part with a reserved id sorts between the parts that were there before and those published since. |
| MpartSteps.SortMerged | internal/storage/mpart.go:3093-3094 | Merged parts sort below every part published after their ids were reserved. |
| MpartLimits.PublishAfterClear | internal/storage/mpart.go:537-569 | A flush published after a clear leaves the table unchanged if and only if every live row it took is hidden by something newer. |
| MpartLimits.DeletedRowsReturn | internal/storage/mpart.go:1804-1814 | Whatever a transaction puts and deletes, after its commit and the next flush the table is what it saw, unless the memory part was empty, the hint is as long as the overlay and ascending, and the overlay holds a deleted row: then and only then deleted rows are back. |
| MpartLimits.HintStaysKnown | internal/storage/mpart.go:1772-1814 | Every put, delete and clear keeps what that rests on: a hint as long as the overlay holds its keys, live. |
| MpartLimits.DeletedRowReturns | internal/storage/mpart.go:1804-1814 | The shortest such transaction: a key put into an empty table and deleted. |
| MpartLimits.PartialOverUncommitted | internal/storage/mpart.go:1772-1794 | A partial row over an uncommitted one is right if and only if the committed row has the uncommitted values in every untouched column. |
| MpartSwaps.SwapOverParts | internal/storage/mpart.go:3051-3101 | Over any parts published between the snapshot of a merge and the reservation of its ids, with any commits since, the swap shows the table that was there if and only if for every merged row whatever of these parts no newer row hides is alive and has no other values. |
| MpartSwaps.SwapAfterClear | internal/storage/mpart.go:3072-3101 | Over a table cleared since the snapshot, the swap shows the table that was there if and only if every merged row is hidden by a newer one and agrees with what was published before the ids were reserved; the counter does not change. |
| MpartSwaps.MovedAlike | internal/storage/mpart.go:3093-3094 | Moving a full row above versions it should lie below cannot be observed exactly if the two match. |
| MpartSwaps.FlushDuringMergeReverts | internal/storage/mpart.go:3010-3101 | An input: a row flushed between the snapshot of a merge and its id reservation is reverted by the swap. |
| MpartSwaps.ClearedRowReturns | internal/storage/mpart.go:3072-3101 | Another: a row compacted while its table was cleared is back after the swap, with a counter of 0. |
| Merge.WalkHeap | internal/storage/mpart.go:2621-2717 | The heap walk ends and hands the callback exactly the scan of its sources, cut where the callback stops. |
| Merge.Group | internal/storage/mpart.go:2622-2716 | One group yields the newest version, with full-row or single-column holes filled from older ones, and consumes every version of its key. |
| Merge.FillFromOlder | internal/storage/mpart.go:2637-2651 | Full-row inheritance over the rest of a group equals the inheritance of the version stack. |
| Merge.CellFromOlder | internal/storage/mpart.go:2669-2686 | Single-column inheritance over the rest of a group equals that of the version stack. |
| Merge.Drain | internal/storage/mpart.go:2657-2665 | Popping the rest of a group removes that key from every source and nothing else. |
| Merge.FillFrom | internal/storage/mpart.go:2908-2914 | A live older version fills the holes in place; a tombstone fills none. |
| Merge.Top | internal/storage/mpart.go:2366-2387 | The heap top is the first key in walking order and, among equal keys, the newest source. |
| Sources.StackWider | internal/storage/mpart.go:2366-2375 | A source with a higher priority adds its version on top of the stack of every key. |
| Sources.SameStacksSameScan | internal/storage/mpart.go:2359-2375 | Two sets of sources whose version stacks agree on every key give the same scan, in whatever order they are listed. |
| Walk.SliceRange | internal/storage/mpart.go:2391-2404 | The rows between the two positions are exactly those in the half-open key window. |
| Walk.AddSource | internal/storage/mpart.go:2722-2775 | A source adds its version on top of each stack, within the window, and is left out only when its window is empty. |
| Walk.SortDisjointSources | internal/storage/mpart.go:2921-2941 | Sorts the sources and reports disjoint exactly when no two of them overlap, in either direction. |
| Walk.WalkInTurn | internal/storage/mpart.go:2613-2620 | Walking disjoint sources one after the other emits what the heap would, with early stop. |
| Walk.CoveringNewest | internal/storage/mpart.go:2413-2450 | Under ten-byte bounds as the callers build them the covering shortcut never finds a source. |
| Walk.WalkGathered | internal/storage/mpart.go:2590-2718 | Whichever path is taken, single source, disjoint sources or heap, the callback sees the same sequence. |
| Disk.WalkPksDescGranules | internal/storage/mpart.go:2474-2512 | The descending granule walk emits what the merge would, and under early stop a prefix of it. |
| Disk.AddKey | internal/storage/mpart.go:3364-3368 | Setting a key makes it test positive and clears no bit. |
| Disk.BuildBloom | internal/storage/mpart.go:3344-3373 | A filter built over the keys of a part has no false negative. |
| Disk.GranuleFor | internal/storage/mpart.go:1109-1118 | Returns the only granule that can hold the key, or none when no row has it. |
| Disk.WritePart | internal/storage/mpart.go:742-930 | A written part holds exactly the given rows, with a filter and a granule index that fit them. |
| PointReads.FindInPart | internal/storage/mpart.go:1853-1888 | Filter, granule search and row search together find a key in a part exactly when it is there. |
| PointReads.ExistsInParts | internal/storage/mpart.go:1848-1890 | The part loop says whether the newest version over all parts is live. |
| PointReads.ColInParts | internal/storage/mpart.go:2090-2146 | The part loop gives the column of the version stack. |
| PointReads.LookupInParts | internal/storage/mpart.go:1940-2025 | The part loop continues a lookup over the version stack of the parts. |
| PointReads.SeekIsResolve | internal/storage/mpart.go:1895-2025 | For every sound version stack the point read reports the row the merged walk yields. |
| TableScan.ScanLists | internal/storage/mpart.go:2514-2718 | The live entries of a merged scan are the listing of the table: each key of the window once, in order, with its row. |
| TableScan.TakenLive | internal/storage/mpart_col.go:63-92 | A walk whose callback returns at once for deleted keys is a walk over the live entries. |
| TableWalk.WalkTable | internal/storage/mpart.go:2514-2718 | The sources gathered from parts, memory and overlay hold, key by key, the versions of the window, and the walk hands over the scan of them. |
| TableWalk.OutOfRange | internal/storage/mpart.go:255-263 | A part that the key-range test rejects has no row in the window. |
| TableWalk.BackwardStack | internal/storage/mpart.go:2474-2512 | Walking parts backward reads each key from the same version stack. |
| MemParts.SortRowsFastOK | internal/storage/mpart.go:667-676 | The integer comparison is chosen exactly when every key is an encoded integer. |
| MemParts.EarlierIsLess | internal/storage/mpart.go:667-688 | On such keys the integer comparison orders the keys as bytes do. |
| MemParts.SortMemRows | internal/storage/mpart.go:678-688 | Sorting lists every row of the map once in key order. |
| MemParts.MemRowsSorted | internal/storage/mpart.go:693-700 | True exactly when the hint is strictly increasing. |
| MemParts.MemPart.Sorted | internal/storage/mpart.go:704-720 | The rows in key order, whether from the hint or by sorting. |
| MemParts.MemPart.EnsureCached | internal/storage/mpart.go:2781-2809 | Rebuilds the sorted view only if its generation is not current. |
| MpartStore.SortPartsBySeq | internal/storage/mpart.go:586-590 | Sorts parts by sequence number. |
| MpartStore.WriteChunks | internal/storage/mpart.go:3058-3070 | Cuts the merged rows into consecutive parts under consecutive ids, losing none. |
| MpartStore.KeepOthers | internal/storage/mpart.go:3083-3092 | Keeps, in order, exactly the parts the merge did not read. |
| MpartStore.RemoveWritten | internal/storage/mpart.go:3076-3082 | Removes from memory exactly the rows that are still the very ones written. |
| MpartStore.TableStore.FlushLocked | internal/storage/mpart.go:704-737 | Updates the store object as the flush step of the model. |
| MpartStore.TableStore.TakeIdle | internal/storage/mpart.go:494-528 | Takes rows and reserves an id exactly when due, not sealing and large enough. |
| MpartStore.TableStore.PublishIdle | internal/storage/mpart.go:537-569 | Updates the store object as the publish step, also when the write failed or the memory part was replaced. |
| MpartStore.TableStore.CompactSnapshot | internal/storage/mpart.go:3011-3026 | Hands the merge the parts, a copy of the memory rows and the counter. |
| MpartStore.TableStore.CompactReserve | internal/storage/mpart.go:3051-3057 | Reserves as many ids as chunks will be written. |
| MpartStore.TableStore.CompactSwap | internal/storage/mpart.go:3072-3100 | Updates the store object as the swap step. |
| MpartTxns.TableTx.RowExists | internal/storage/mpart.go:1818-1891 | Live exactly when the newest version the transaction sees is. |
| MpartTxns.TableTx.LookupCol | internal/storage/mpart.go:2054-2146 | The column of the transaction's version stack, empty for a dead row. |
| MpartTxns.TableTx.Lookup | internal/storage/mpart.go:1895-2025 | The row the transaction's version stack resolves to. |
| MpartTxns.TableTx.CountFor | internal/storage/mpart.go:2291-2303 | Store counter plus delta, or the delta alone after a clear. |
| MpartTxns.TableTx.RowPutCells | internal/storage/mpart.go:1772-1794 | Updates the transaction object as the put step. |
| MpartTxns.TableTx.RowDelete | internal/storage/mpart.go:1804-1814 | Updates the transaction object as the delete step, the hint left alone. |
| MpartTxns.TableTx.RowDeleteAll | internal/storage/mpart.go:2171-2182 | Updates the transaction object as the clear step. |
| MpartTxns.FoldRows | internal/storage/mpart.go:2217-2232 | Overlay rows replace those in memory; a partial one inherits from the live row it replaces. |
| MpartTxns.TableTx.Commit | internal/storage/mpart.go:2191-2272 | Updates the store object as the commit step: drop, fold, flush over the threshold, adjust the counter. |
| MpartTxns.TableTx.WalkMerged | internal/storage/mpart.go:2959-2982 | Every scan shows its callback the live rows of the window as the transaction sees them, in order, until it stops. |
| MpartTxns.TableTx.UpdateConstRange | internal/storage/mpart_col.go:476-495 | Writes one partial row for every live key of the window and returns how many. |
| MpartCompact.CompactRead | internal/storage/mpart.go:3028-3050 | The rows a merge writes are the visible table of its snapshot, one full row per live key. |
| KvKeys.SameKeyOrder | internal/kv/kv.go:700-730 | Versions of one key sort newest first. |
| KvKeys.GroupBefore | internal/kv/kv.go:700-720 | Unless one key shadows another, the group of a smaller key sorts before every extension of a larger one. |
| KvReads.Get | internal/kv/kv.go:356-379 | Returns the first version found at the revision; it is the value as of the revision whenever stored keys stand apart. |
| KvReads.RangeLatest | internal/kv/kv.go:453-486 | On any store the latest-revision loop reports the first version of each run of equal keys in its window. |
| KvReads.RunsAreRange | internal/kv/kv.go:453-486 | If the records are in key order and the bounds cut them where the range ends, these runs are the range read. |
| KvLimits.LatestRunsIff | internal/kv/kv.go:453-486 | A read of the whole store at its latest revision is right if and only if its records are in key order. |
| KvReads.RangeSeek | internal/kv/kv.go:487-516 | Where every version key and upper bound it seeks sorts as its key and revision say, the seek loop ends and reports the range read as of its revision. |
| KvLimits.SeekLoops | internal/kv/kv.go:487-516 | Without that it need not end: two records between which the loop goes back and forth. |
| KvReads.RangeIter | internal/kv/kv.go:430-517 | At every revision the range read is produced, whichever loop runs. |
| KvReads.ApartIsReadable | internal/kv/kv.go:700-730 | What the loops rely on holds of all keys that stand apart from one another and from the bounds. |
| KvDesc.RangeDesc | internal/kv/kv.go:527-589 | The descending read is the ascending one backwards. |
| KvDesc.ApartIsDescReadable | internal/kv/kv.go:700-730 | What it relies on holds of all keys that stand apart from one another and from the bounds. |
| KvDesc.BelowGroup | internal/kv/kv.go:594-599 | Moves to the last record below the group, from anywhere inside it. |
| KvDesc.CountRuns | internal/kv/kv.go:173-211 | On any store the loop counts the runs of equal keys whose first version is live. |
| KvDesc.CountLatest | internal/kv/kv.go:173-211 | Counts exactly the keys of the range that are live at the latest revision. |
| KvDesc.RangeCount | internal/kv/kv.go:404-419 | Counts live keys at the latest revision, and keys with any version at an older one. |
| KvDesc.CountsAgree | internal/kv/kv.go:404-419 | The two counts agree exactly when no key of the range is deleted at that revision. |
| KvStore.ReadsAfterApply | internal/kv/kv.go:233-266 | After a batch, reads below its revision are untouched and reads from it on see the last operation on each key. |
| KvStore.KvStore.Apply | internal/kv/kv.go:224-266 | Refuses a revision that is not newer; otherwise the history gains exactly the batch. |
| KvStore.KvStore.CompareAndSwap | internal/kv/kv.go:605-623 | Swaps exactly when what a point read answers is what was expected, as one revision; for a key that stands apart the answer is the current value. |
| KvReads.AnswerRight | internal/kv/kv.go:356-379 | The answer of a point read is the value as of the revision for every key that stands apart. |
| KvStore.KvStore.Compact | internal/kv/kv.go:298-351 | On any store what each key was from the given revision on is unchanged, a point read answers as before or else with the right value, and the returned count is the number removed; with keys that stand apart at most one older version remains per key, and then a second run removes nothing. |
| KvStore.ThinnedAnswer | internal/kv/kv.go:298-379 | On any store a point read from the kept revision on answers after the thinning as before, or else with the right value. |
| KvStore.ThinnedReads | internal/kv/kv.go:298-351 | Dropping superseded versions changes no point read from the kept revision on. |
| KvStore.ThinnedRanges | internal/kv/kv.go:298-351 | Nor any range read. |
| KvLimits.AnswerMisses | internal/kv/kv.go:356-379 | A point read misses a live value if and only if a foreign record sorts between the version it seeks and the one it should find. |
| KvLimits.ShadowHides | internal/kv/kv.go:700-730 | Every key has such a neighbour: itself, a zero byte and a revision suffix. |
| KvLimits.ShadowedRead | internal/kv/kv.go:356-379 | A concrete store where a current value is not found. |
| PkEncoding.EncodeKeyInto | internal/storage/ops.go:681-707 | Appends the encoding of each value to the buffer. |
| PkEncoding.KeyEmbedding | internal/storage/ops.go:637-677 | The composite key encoding preserves and reflects the order of the values and is injective. |
| PkEncoding.KeyOrder | internal/storage/ops.go:637-677 | The order holds whatever bytes follow, so no key is a proper prefix of another. |
| PkEncoding.AtBound | internal/storage/cstore_col.go:22-44 | How a full key compares with an encoded prefix and with the prefix plus its guard byte. |
| PkRange.Visit | internal/sql/exec_columns.go:693-828 | The walk over the conjunction gives the constraints of the clause, and keeps the flag exactly if every leaf compares a key column with a literal that is not NULL. |
| PkRange.VisitReads | internal/sql/exec_columns.go:693-828 | These constraints lose no row that passes. |
| PkRange.ConsOfSays | internal/sql/exec_columns.go:693-828 | The constraint of a column is what the clause says of it: its last equality, a lower limit and an upper limit if there is a comparison of that kind. |
| PkRange.NarrowedMeets | internal/sql/exec_columns.go:804-827 | Except that a second equality replaces the first, narrowing a column adds exactly the comparison. |
| PkRange.Fold | internal/sql/exec_columns.go:834-884 | The loop folds the pinned front and the limits of the column behind it into a range, and keeps the flag exactly if every constrained column lies in the pinned front, without limits, or right behind it. |
| PkRange.FoldedKeeps | internal/sql/exec_columns.go:834-884 | The range holds every key that meets the constraints; if the flag is kept the only others are keys beyond a side open behind pinned columns. |
| PkRange.PKRangeFromWhere | internal/sql/exec_columns.go:659-885 | The range holds every row that passes, and exact is reported if and only if every leaf is a comparison of a key column with a literal, each mentioned column has only pinned columns before it, and no pinned column has limits. |
| PkRange.RangeExactIff | internal/sql/exec_columns.go:659-665 | Where exact is reported, the range is exactly the rows that pass if and only if no column behind pinned ones is open on a side on which the pinned values leave room, and all equalities and <> of the clause are consistent with its constraints or nothing meets these. |
| PkRange.PlainExactIff | internal/sql/exec_columns.go:659-665 | For plain comparisons with at most one equality per column it is exact if and only if no side is open in that way. |
| PkRange.SatisfiableByColumn | internal/sql/exec_columns.go:804-827 | Whether any key meets the constraints is a matter of each column on its own. |
| PkRange.PastIff | internal/sql/exec_columns.go:867-882 | The range takes in a key beyond an open side exactly if the clause leaves one open behind pinned values that are not all the greatest, or the least. |
| PkRange.AdmitsIff | internal/sql/exec_columns.go:804-827 | Every key that meets the constraints passes exactly if the equalities and <> are consistent with them or no key meets them. |
| PkRange.OpenRangeLeaks | internal/sql/exec_columns.go:867-882 | a = 5 AND b >= 5 is reported exact; its range has no upper bound and holds (6, 0). |
| PkRange.ExactNeedsPlain | internal/sql/exec_columns.go:804-827 | A doubled equality and a lone <> are reported exact although their ranges hold rows outside the clause. |
| Shards.OwningShard | internal/shard/manager.go:425-443 | Finds the owner: the shard with the greatest start not above the key. |
| Shards.OwnerUnique | internal/shard/meta.go:42-57 | Every key has exactly one owner. |
| Shards.SplitKeeps | internal/shard/split.go:176-208 | A split keeps every end unbounded and the starts distinct, and shows the same rows without moving any. |
| Shards.StoreShows | internal/shard/router.go:775-788 | A row stored with its owner is the one that shows from then on. |
| Shards.GroupByOwner | internal/shard/router.go:775-788 | Each row goes to the group of its owner, in order. |
| Shards.AppliedShows | internal/shard/router.go:775-822 | Applying the groups shard by shard, in whatever order, is inserting the rows one by one. |
| Shards.HasNarrowerSucc | internal/shard/split.go:97-107 | True exactly when another shard starts later. |
| Shards.SplitPointFor | internal/shard/split.go:144-172 | The key of the shard that half of its keys lie below, if there are two and it lies strictly above the start; none otherwise. |
| Shards.ShardedTable.SplitAt | internal/shard/split.go:112-141 | Splits unless a shard starts at the key already; the table shown does not change. |
| Shards.ShardedTable.AutoSplit | internal/shard/split.go:63-93 | Splits if and only if the shard is oversized, no shard starts later and its median lies above its start; the new shard starts there, holds nothing, and the table shown stays the same. |
| Shards.ShardedTable.Insert | internal/shard/router.go:755-822 | After any splits an insert shows exactly the last row per key. |
| ShardScan.SortByStart | internal/shard/router.go:980-983 | Orders the same shards narrowest first. |
| ShardScan.NarrowestHolder | internal/shard/router.go:1030-1040 | The first holder met has the current row of its key. |
| ShardScan.SkippedEmpty | internal/shard/router.go:984-988 | A shard skipped for its key range has no matching row. |
| ShardScan.GatherRows | internal/shard/router.go:1048-1083 | Collects the rows of all shards that can match, narrowest first. |
| ShardScan.Select | internal/shard/router.go:975-1042 | For a condition on the key the first row per key is the list of exactly the last inserted rows that match. |
| ShardScan.RowConditions | internal/shard/router.go:1030-1040 | For a condition on other columns the row found is the current one if and only if that one matches or no left-behind row does. |
| Meta.MetaFSM.Apply | internal/shard/meta.go:128-145 | Fails exactly where the table or the shard named is missing or the command is unknown, and then changes nothing; otherwise the version goes up by one and the catalog holds what the command names, entry by entry: a missing node with its two addresses, a missing table with its schema and its shards under its own name, each missing shard of a split with the bounds and nodes of its first naming, new nodes of the shard named, and everything else as before. |
| Meta.AppliedWrites | internal/shard/meta.go:147-204 | The catalog step writes just that. |
| Meta.AddedGrows | internal/shard/meta.go:183-197 | After a split the shards before it stand as they were, and behind them, in the order of the command, one for each missing id with the start, end and nodes of its first naming and the name of the table. |
| Meta.ReplacedPlaces | internal/shard/meta.go:159-170 | Only the first shard with the id gets the nodes, and of this one nothing else changes. |
| Meta.RemovedIs | internal/shard/meta.go:304-311 | The list without its first occurrence, in order; a list without one as it was. |
| Meta.AddShards | internal/shard/meta.go:183-197 | Appends the missing shards as the split of the catalog does, each id once, as first named, for this table. |
| Meta.SetNodes | internal/shard/meta.go:159-170 | Reports whether a shard has the id; the first one gets the nodes, and nothing else changes. |
| Meta.RemoveString | internal/shard/meta.go:304-311 | Removes the first occurrence and keeps the order. |
| MetaReplay.ReplayConvergesIff | internal/shard/meta.go:223-241 | Whatever follows and whichever commands fail, replaying a whole log over the catalog a prefix left gives the catalog of a replay from empty if and only if the prefix leaves nothing to redo: each table it never drops has every shard its splits name and the nodes it last sets. |
| MetaReplay.ReplayConverges | internal/shard/meta.go:223-241 | That is so for every prefix of a log in which no command fails. |
| MetaReplay.FailedSetReturns | internal/shard/meta.go:159-202 | A failed command can take effect in the replay: nodes set before the table is created. |
| MetaReplay.ReplaySucceedsIff | internal/shard/meta.go:147-202 | A log that did not fail at first is replayed without a failure if and only if no command of the prefix sets the nodes of a shard that the table on disk lacks and that nothing earlier in the log splits off, with no drop before it. |
| MetaReplay.TableReplayIff | internal/shard/meta.go:147-202 | The same for one table. |
| MetaReplay.ReplaySucceeds | internal/shard/meta.go:147-202 | With creations that agree on their shards no replayed command fails. |
| MetaReplay.ProposedReplays | internal/shard/meta.go:355-372 | So no replayed command fails if every table is created with the one shard its proposer names. |
| MetaReplay.ReplayCanFail | internal/shard/meta.go:147-202 | Other creations can fail: created, dropped, created with another shard. |
| MetaReplay.IdempotentIff | internal/shard/meta.go:147-202 | For one table, a log replayed over its own result gives its result if and only if the log leaves nothing to redo. |
| MetaReplay.RunByName | internal/shard/meta.go:147-202 | What a log does to a table or node depends on that table or node alone. |
| MetaReplay.AddedKeeps | internal/shard/meta.go:295-302 | Adding keeps what is there and brings in exactly the missing ids. |
| Aggregates.MergeIsWhole | internal/sql/exec_columns.go:601-657 | For any partition of the rows, some parts empty, merging the partial count, sum, min or max is the aggregate of all rows. |
| Aggregates.AvgMerges | internal/sql/exec_columns.go:441-462 | The average from merged sum and count is the average of all rows. |
| Aggregates.AnyOrder | internal/sql/exec_columns.go:601-657 | Aggregates do not depend on the order in which shards hold the rows. |
| Aggregates.EvalCount | internal/sql/exec_helpers.go:175-193 | Returns the number of positions that hold a value. |
| Aggregates.EvalSum | internal/sql/exec_helpers.go:194-222 | An error exactly if a value is no number; otherwise NULL exactly if there is no value, and the values added up, an integer exactly if all are. |
| Aggregates.EvalBest | internal/sql/exec_helpers.go:223-249 | For values of one class, numbers ordered by size, strings by bytes, false before true: NULL exactly if there is no value, otherwise the first of the values that none is below (minimum) or above (maximum). |
| Aggregates.BestIs | internal/sql/exec_helpers.go:223-249 | The minimum and maximum that the merge laws speak of are these values. |
| Aggregates.AvgDivides | internal/sql/exec_helpers.go:250-271 | An average is NULL exactly if there is no value; otherwise, times the number of values, it is their sum. |
| Aggregates.SumAdds | internal/sql/exec_helpers.go:194-222 | The sum of the merge laws is NULL, an integer or a float exactly for no value, only integers, or others, and adds the values up. |
| Aggregates.ColumnIs | internal/sql/exec_columns.go:601-657 | A column of partial rows long enough has one value of each row, in order. |
| Aggregates.MergeAggSub | internal/sql/exec_columns.go:601-657 | Folding one partial column of the shards combines their aggregates. |
| AggPlans.PlanItems | internal/sql/exec_columns.go:377-420 | Every select item finds its partials in the plan, an average its sum and its count. |
| AggPlans.Merge | internal/sql/exec_columns.go:441-462 | One partial row per shard merges to the row the statement asks of the whole table. |
| AggGroups.Collect | internal/sql/exec_columns.go:559-573 | The bucket loop collects partial rows by the printed form of their group value, an integer, a string or a boolean, in first-seen order. |
| AggGroups.TextClash | internal/sql/value.go:42-61 | Two values of a column print alike only if equal, or NULL and the string NULL. |
| AggGroups.NoClashMeans | internal/sql/value.go:42-61 | No two group values print alike if and only if NULL and the string NULL do not both occur. |
| AggGroups.GroupedMerge | internal/sql/exec_columns.go:554-599 | For a group column of integers, strings or booleans the merged groups are the groups of all rows, in first-seen order and with their aggregates, if and only if NULL and the string NULL do not both occur; otherwise groups are missing. |
| AggWire.MergeCarried | internal/shard/router.go:1437-1484 | Merging the partial rows as they are read back from their text gives each aggregate of the whole table if and only if it arrives: a minimum or maximum of strings or booleans needs a value on every shard, or a result that the text of NULL does not beat. |
| AggWire.BestArrives | internal/shard/manager.go:345-361 | The same for one partial column of a minimum or a maximum. |
| AggWire.EmptyShardWins | internal/shard/router.go:1466-1467 | A shard without rows turns the least of two strings into NULL. |
| AggGroupWire.GroupedMergeCarried | internal/shard/router.go:1437-1484 | Merging the partial groups as they are read back from their text gives the groups of all rows if and only if NULL and what it is read back as are not both group values, no group of NULL is reported by its value unless it is read back as NULL, and every aggregate of every group arrives; in the first case groups are missing. |
| AggGroupWire.CarriedSeen | internal/sql/value.go:42-61 | Group values that stay apart under their text are first seen in the same order. |
| GroupBy.ResultIs | internal/storage/cstore_col.go:1116-1153 | An accumulator reports the aggregate of the values it was given. |
| AggGroups.SeenInOrder | internal/sql/exec_columns.go:554-573 | Groups stand in the order in which their values are seen first. |
| AggGroups.GroupRowsAre | internal/sql/exec_columns.go:554-573 | The rows of a group are the rows with its value, each as often as it occurs. |
| GroupPaths.PickRowsAre | internal/storage/cstore_col.go:1356-1377 | A group has each value of a column as often as the two meet in a row. |
| GroupPaths.SplitAggs | internal/storage/cstore_col.go:1191-1217 | Groups the aggregates by column, every one exactly once. |
| GroupPaths.FoldColumn | internal/storage/cstore_col.go:1359-1377 | A row goes into every aggregate of a column, the lone-sum shortcut included. |
| GroupPaths.FoldRow | internal/storage/cstore_col.go:1356-1377 | A row goes into every aggregate of its group. |
| GroupRun.KeyRange | internal/storage/cstore_col.go:1306-1321 | The least and greatest non-null keys. |
| GroupRun.BucketPath | internal/storage/cstore_col.go:1322-1378 | With the wrapping range test, the bucket array builds the groups row by row in first-seen order. |
| GroupRun.HashPath | internal/storage/cstore_col.go:1379-1436 | The hash map, where NULL shares key 0, builds the same groups. |
| GroupRun.FastGroups | internal/storage/cstore_col.go:1301-1450 | Whichever one-pass path the range test picks, the rows are the grouping of the query. |
| GroupRun.ResolveGroups | internal/storage/cstore_col.go:1497-1529 | The first pass remembers for every row the group of its value. |
| GroupRun.StarPass | internal/storage/cstore_col.go:1559-1564 | count(*) goes to every group without touching other aggregates. |
| GroupRun.ColumnPass | internal/storage/cstore_col.go:1589-1600 | A column's values go to the groups remembered for their rows. |
| GroupRun.TwoPassGroups | internal/storage/cstore_col.go:1455-1628 | The two-pass path gives a grouping of the query as well. |
| GroupRun.GroupingUnique | internal/storage/cstore_col.go:1161-1633 | There is only one grouping, so all paths return the same rows. |
| CodecPrims.UvarintLength | internal/sql/bincodec.go:62-67 | An unsigned 64-bit value takes at most ten bytes, the tenth at most one. |
| CodecPrims.ReadsUvarint | internal/sql/bincodec.go:89-100 | A written unsigned value is read back, whatever follows it. |
| CodecPrims.ReadsVarint | internal/sql/bincodec.go:101-104 | So is a signed one, through its unsigned bits. |
| CodecPrims.ReadsStr | internal/sql/bincodec.go:115-126 | So is a string of any length. |
| CodecExpr.ExprRoundTrip | internal/sql/bincodec.go:303-344 | Reading the bytes of an expression gives the expression without whatever stands under an unlisted operator, and ends right behind it. |
| CodecExpr.SurvivesIff | internal/sql/bincodec.go:49-50 | Nothing is lost if and only if every operator is in its table. |
| CodecRound.DecodeEncode | internal/sql/bincodec.go:132-157 | Decoding an encoded list fails exactly if an INSERT loses a whole value; otherwise every statement comes back, except what stood under unlisted operators. |
| CodecRound.RoundTripIff | internal/sql/bincodec.go:132-157 | The round trip is the identity if and only if every operator in the list is in its table. |
| CodecRound.StmtIff | internal/sql/bincodec.go:159-274 | The same for one statement. |
| CodecRound.LostCondition | internal/sql/bincodec.go:411-416 | A DELETE whose condition has an unlisted operator on top, as LIKE and NOT LIKE are, decodes without error as a DELETE without a condition. |
| CodecIO.OpIndex | internal/sql/bincodec.go:52-59 | The index of the first match, or -1. |
| CodecIO.UvarintFrom | internal/sql/bincodec.go:89-100 | The byte loop computes the value and its length, or length 0 if cut short or too long. |
| CodecIO.BWriter.PutUvarint | internal/sql/bincodec.go:63-67 | Appends the seven-bit groups, least significant first. |
| CodecIO.BWriter.PutExpr | internal/sql/bincodec.go:303-344 | Appends exactly the bytes of an expression. |
| CodecIO.BReader.GetUvarint | internal/sql/bincodec.go:89-100 | Moves the cursor or sets the sticky error as the reading function says. |
| CodecIO.BReader.GetStr | internal/sql/bincodec.go:115-126 | The same for a string. |
| CodecIO.BReader.GetExpr | internal/sql/bincodec.go:466-513 | The recursive decoder is the reading function, cursor and error included. |
| CodecStmtIO.PutStmt | internal/sql/bincodec.go:159-274 | Appends exactly the bytes of a statement. |
| CodecStmtIO.EncodeStatements | internal/sql/bincodec.go:132-139 | Returns the bytes of the list. |
| CodecStmtIO.GetSelect | internal/sql/bincodec.go:440-464 | The SELECT decoder is the reading function. |
| CodecStmtIO.GetStmt | internal/sql/bincodec.go:346-438 | The statement decoder is the reading function. |
| CodecStmtIO.DecodeStatements | internal/sql/bincodec.go:142-157 | Returns what the decoding function says, with the error cases. |
| CodecWire.Forward | internal/shard/router.go:898-902 | A statement list that a node encodes and another decodes arrives unchanged if and only if every operator in it is in the operator tables; if its operators are ones the parser yields, if and only if none of them is LIKE or NOT LIKE. |
| CodecWire.OpsKnown | internal/sql/bincodec.go:49-50 | Of the operators that the parser yields the tables hold all but LIKE and NOT LIKE. |
| CodecWire.FromParserListed | internal/sql/bincodec.go:49-59 | An expression with the operators of the parser has all of them listed if and only if it has no LIKE. |
| SqlLex.TokensLexed | internal/sql/lexer.go:192-205 | Every token is well-formed, the end token comes last and only last. |
| SqlLex.Lexer.GetToken | internal/sql/lexer.go:56-115 | Returns the token the text at the cursor begins with and moves past it. |
| SqlLex.Lexer.LexString | internal/sql/lexer.go:131-151 | Reads a quoted text, a doubled quote standing for one. |
| SqlLex.Lexer.LexNumber | internal/sql/lexer.go:153-189 | Reads an integer within 64 bits. |
| SqlLex.Lexer.LexIdent | internal/sql/lexer.go:117-129 | Reads the longest word. |
| SqlLex.Tokenize | internal/sql/lexer.go:192-205 | Returns all tokens of the text or the error. |
| SqlParse.Parser.ParseOr | internal/sql/parser.go:651-665 | Reads what the OR level of the grammar says and leaves the cursor behind it. |
| SqlParse.Parser.ParseAnd | internal/sql/parser.go:667-681 | The same for AND. |
| SqlParse.Parser.ParseComparison | internal/sql/parser.go:683-728 | The same for comparisons, LIKE and NOT LIKE. |
| SqlParse.Parser.ParseAdditive | internal/sql/parser.go:730-749 | The same for sums. |
| SqlParse.Parser.ParseMultiplicative | internal/sql/parser.go:751-779 | The same for products. |
| SqlParse.Parser.ParseSigned | internal/sql/parser.go:781-800 | The same for signs and NOT. |
| SqlParse.Parser.ParseAtom | internal/sql/parser.go:802-884 | The same for literals, names, calls, casts and parentheses. |
| Lowering.LowerAscii | internal/sql/parser.go:80-83 | Inside ASCII the lower case of a name is taken byte by byte. |
| Lowering.LowerTwice | internal/sql/parser.go:80-83 | Lower case, taken rune by rune, is idempotent for every byte string. |
| SqlBare.BareReads | internal/sql/parser.go:646-884 | An expression written with the fewest brackets is read back: a left operand stands bare if it binds as tightly as its operator, a right one only if more tightly, over OR, AND, comparisons, sums, products, signs and NOT; with any blanks, either quote, words in any case, == for = and != for <>. |
| SqlBare.TwoOperators | internal/sql/parser.go:651-779 | Of two operators in a row the tighter one is applied first, of two of one level the left one. |
| SqlBare.ExprRead | internal/sql/parser.go:646-884 | Its tokens are read back wherever they stand, if no operator follows that could go on with them. |
| SqlBare.LevelRead | internal/sql/parser.go:730-779 | Where operators of the level follow, what stands before them becomes their left operand. |
| SqlBare.SpellLexes | internal/sql/lexer.go:56-189 | A text of tokens of every kind with any blanks between them has exactly these tokens. |
| SqlBare.ShortCastRead | internal/sql/parser.go:836-853 | A cast may leave out the word AS. |
| SqlBare.TypeWords | internal/sql/parser.go:390-404 | The words for the types, in any case; FLOAT64 is not one of them. |
| SqlCase.LevelAlike | internal/sql/parser.go:69-72 | Token lists that differ only in the case of their words are read as the same expression. |
| SqlClauses.SelectTextReads | internal/sql/parser.go:552-644 | The text of a SELECT, whichever of DISTINCT, aliases, FROM, WHERE, GROUP BY, HAVING, ORDER BY with DESC, ASC or neither, and LIMIT are in it, is read as that statement, and what is missing as absent. |
| SqlClauses.SelectReads | internal/sql/parser.go:552-644 | The same of its tokens, wherever they stand. |
| SqlSelect.ReadSelect | internal/sql/parser.go:552-644 | Reads the clauses of a SELECT as the grammar says and leaves the cursor behind them. |
| SqlSelect.ReadItems | internal/sql/parser.go:558-578 | The same for the select items with their aliases. |
| SqlSelect.ReadOrders | internal/sql/parser.go:614-634 | The same for the sort keys with their directions. |
| SqlPrint.DigitsRead | internal/sql/print.go:142-143 | Reading the digits of a number gives the number. |
| SqlPrint.QuotedBack | internal/sql/print.go:101-103 | Reading a quoted text undoes the doubling of its quotes, for every text. |
| SqlPrint.PrintLexes | internal/sql/print.go:136-172 | The text of an expression lexes to its tokens, whatever ends it. |
| SqlPrint.BrokenFails | internal/sql/print.go:136-172 | The text of an expression with a name that is no word has no tokens, whatever follows. |
| SqlRound.PrintThenParse | internal/sql/print.go:136-172 | The text of an expression whose names are lower-case words parses back to it, casts to float becoming casts to null. |
| SqlRound.PrintParseIff | internal/sql/print.go:136-172 | For every expression: printing and parsing give it back if and only if its names are lower-case words, the parser can produce it and it has no cast to float. |
| SqlRound.ParsedIsYielded | internal/sql/parser.go:647-884 | Whatever text is parsed, every name of the result is a lower-case word or is broken by a byte outside ASCII that is no letter. |
| SqlRound.PushedDown | internal/sql/parser.go:647-884 | For every text: the parsed condition, printed and parsed again, is that condition up to casts to float if its names are words, and a syntax error if not. |
| SqlRound.NamePushedDown | internal/sql/parser.go:876-880 | A column name survives if and only if its lower case is a word. |
| SqlRound.CyrillicLost | internal/sql/parser.go:876-880 | U+042A is a word, its lower case is none: the name is lost. |
| SqlRound.AsciiPushedDown | internal/sql/parser.go:647-884 | A condition in ASCII is never lost. |
| SqlRound.FloatCastLost | internal/sql/parser.go:390-404 | A cast to float arrives as a cast to null. |
| SqlShard.ShardLex | internal/shard/router.go:958-977 | The text of the SELECT sent to a shard, with WHERE, GROUP BY and ORDER BY .. LIMIT, has the tokens of its parts, or none if a name is no word. |
| SqlShard.ShardTextReads | internal/sql/exec_columns.go:429-437 | A shard reads of that text the columns, the table, the condition up to casts to float, the group column, the sort keys and the limit, or a syntax error if a name is no word. |
| SqlShard.ShardTextIff | internal/sql/exec_columns.go:523-533 | It reads the query that was meant if and only if every name is a word and the first column does not look like the word DISTINCT. |
| CStore.RowKeyApart | internal/storage/cstore.go:87-93 | Row keys of different tables or rows differ. |
| CStore.ColKeyApart | internal/storage/cstore.go:47-57 | So do cell keys. |
| CStore.BoundsArePrefix | internal/storage/cstore.go:103-108 | The two bounds of a prefix enclose exactly the keys that have it. |
| CStore.StoreReads | internal/kv/kv.go:233-266 | Applying a batch to the versioned store reads back as applying it to a map. |
| CStoreTxns.CStoreTx.Get | internal/storage/cstore.go:168-193 | Reads through the overlay what the transaction sees. |
| CStoreTxns.CStoreTx.RowPutCells | internal/storage/cstore.go:344-363 | A map update of one row: its marker and its cells hold the new values and every other key of the store reads as before; the counter stays exact if and only if the existence was checked or the row was live. |
| CStoreTxns.CStoreTx.RowGet | internal/storage/cstore.go:398-416 | The row its marker counts, none if a cell is missing. |
| CStoreTxns.CStoreTx.RowDelete | internal/storage/cstore.go:418-436 | The marker of the row and, if the row was live, every cell it counted leave the store, every other key reads as before, and the counter stays exact. |
| CStoreTxns.CStoreTx.EachKey | internal/storage/cstore.go:245-278 | Lists below a prefix every key the store holds or the transaction put, the deleted ones included. |
| CStoreTxns.CStoreTx.RowDeleteAll | internal/storage/cstore.go:732-755 | Removes every row and cell of one table and touches no key of another, even though its listing shows deleted keys, and keeps the counter exact. |
| CStoreTxns.CStoreTx.CountFor | internal/storage/cstore.go:390-396 | The number of rows the transaction sees plus any drift. |
| CStoreTxns.CStoreTx.Commit | internal/storage/cstore.go:764-793 | The store becomes what the transaction saw, and every counter its value plus the delta, in one batch. |

## Left out

Deliberately weaker, or under a condition the code does not enforce:

- MpartRun.RunsRefineTables: one background job and one transaction at a time, one table; a clear does not commit while a job is in flight, and nothing is published between the snapshot of a merge and its id reservation. `MpartLimits.PublishAfterClear`, `MpartSwaps.SwapAfterClear` and `MpartSwaps.SwapOverParts` say exactly what happens otherwise.
- MpartTx.PutUpdates: a partial row only over a live row this transaction has not written, and a put without the existence check only over a live row; `MpartLimits.PartialOverUncommitted` and `MpartTx.PutDrifts` have the exact extent.
- MpartTx.UpdateRangeUpdates: windows without rows this transaction has written, for the same reason.
- MpartTx.DeleteUpdates: not the delete of a key the transaction has put while the insertion-order hint is live; `MpartLimits.DeletedRowsReturn` has the exact extent.
- Walk.CoveringNewest: under ten-byte bounds, and if the first key of a source has ten bytes as well, its last key has at least ten and not 0xfe in the tenth, as no text in UTF-8 has; a shorter last key would be read past its end.
- Walk.WalkGathered: likewise.
- TableWalk.WalkTable: likewise.
- MpartTxns.TableTx.WalkMerged: likewise.
- MpartTxns.TableTx.UpdateConstRange: likewise.
- Disk.WalkPksDescGranules: parts are sorted once into descending order instead of being walked from the end of an ascending list.
- CStoreTxns.CStoreTx.EachKey: does not state the order or the number of times a key is listed, because a key deleted and put again by one transaction is listed twice.
- CStoreTxns.CStoreTx.Commit: counters are assumed to stay below 2^64.
- CStoreTxns.CStoreTx.RowPutCells: rows have fewer than 2^32 columns, cells are not empty, and table names contain no zero byte.
- KvReads.Get: the value as of the revision only when stored keys stand apart; without that, the exact condition is in `KvLimits.AnswerMisses`.
- KvReads.RangeSeek: at an older revision the version keys and upper bounds of the stored keys must sort as the keys do, which is sufficient; what else lets the loop end with the right answer is not stated.
- KvReads.RangeIter: under the same condition at an older revision; at the latest the records must be in key order.
- KvDesc.RangeDesc: the records are in key order and the version keys it seeks sort as the keys do; the branch that steps back one record and the check of the lower bound are then never reached.
- KvDesc.BelowGroup: under the same condition for revision 0.
- KvDesc.CountLatest: the records are in key order and the bounds cut them where the range ends.
- KvDesc.RangeCount: under the condition of `KvReads.RangeIter`.
- PkRange.PKRangeFromWhere: literals have the type of their column; LIKE on key columns and literals that need conversion are not modelled, and a comparison the planner cannot use is one condition among others.
- ShardScan.Select: conditions on the key, or none; for other conditions `ShardScan.RowConditions` gives the exact extent.
- MetaReplay.ReplaySucceeds: creations of one table agree on their shards; `MetaReplay.ReplaySucceedsIff` is the exact condition.
- GroupRun.TwoPassGroups: integer group and aggregate columns; float, timestamp and string columns are not modelled.
- CodecRound.RoundTripIff: lengths and numbers fit 64 bits, and an absent expression occurs only where the writer allows one; absent and empty lists are not told apart.
- CodecPrims.ReadStr: a negative length, which no writer produces, reads as an error.
- CodecPrims.ReadsStr: strings shorter than 2^63 bytes.
- SqlParse.Parser.ParseAtom: numbers with a point or an exponent are a lexing error here, so there are no float literals.
- SqlLex.Lexer.GetToken: a number with a point or an exponent is an error here, where the source returns a float.
- SqlLex.Lexer.LexNumber: likewise.
- SqlLex.Tokenize: likewise, so a text with a float literal has no tokens.
- SqlSelect.ReadSelect: HAVING is kept apart from WHERE, to which the source joins it by AND, with nothing on the left if there is no WHERE.
- SqlClauses.SelectTextReads: HAVING likewise; keywords in capitals, names in lower case, and every clause in its usual place.
- SqlBare.BareReads: numbers are integers within 64 bits.
- Meta.MetaFSM.Apply: the catalog is in memory; writing it to disk is not part of this model.
- SqlShard.ShardTextIff: column names are none of the words null, true, false, cast and not.
- AggGroups.Collect: group values are integers, strings, booleans or NULL; the text of floats and timestamps is not modelled.
- AggGroups.GroupedMerge: likewise, and the partial rows are merged as the shards compute them; `AggGroupWire.GroupedMergeCarried` merges them as they are read back from text.
- AggGroupWire.GroupedMergeCarried: group values are integers, strings, booleans or NULL.
- AggWire.MergeCarried: that numbers survive their text is part of the model, not proved.
- Aggregates.EvalBest: values of different classes are not compared, where the source compares their printed text; there are no timestamps.

Not modelled:

- Files, LZ4, checksums, granule encodings, caches of decoded columns and part retirement: a written part is its row sequence with its filter and its granule keys.
- Locks, goroutines, timers and clocks: a section under the lock is one atomic step, and whether an idle flush is due is a parameter.
- I/O errors, except that the write of an idle flush may fail.
- Memory rows are told apart by address stamps instead of pointers.
- CSTORE2 numeric reads and their in-place sorting of the parts.
- Snapshots pinned for readers, and the schema rows of both column stores.
- Tables without columns, for which a merge would drop every row.
- Sequence numbers are unbounded, and below 2^62 where they are used as priorities.
- Errors from callbacks of key-value range reads, leases, watches and the log-structured engine under the store.
- Floating-point sums: aggregates are over exact numbers, and comparisons across types are not modelled.
- ORDER BY with LIMIT on a shard as executed, only its text; DISTINCT, HAVING, UPDATE and DELETE routed by key.
- Aggregates pushed to shards that overlap after a split, which count left-behind rows.
- The `Size` field and the JSON form of the catalog.
- The parser of statements other than SELECT, and the printer of whole statements in `internal/sql/print.go`, which serves display and forwarding.
