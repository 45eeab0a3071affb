# LumoDB, modelled and proved in Dafny

LumoDB is an append-only store with two hash indexes.  Objects go to a log of
records indexed by a table whose buckets hold a 64-bit hash and a record offset.
Rows go to sharded files of self-indexed blocks, indexed by a table that many
threads update at once through an Empty, Writing, Filled protocol.

This project models that code and proves what it keeps: the indexes always agree
with the last-writer-wins map of the log, in sequence and under interleaving.
Every hash is an arbitrary function, so no result depends on how keys spread or
collide; the real hash and mixer are modelled separately, and the mixer is shown
to be a bijection.

`dafny verify dfyconfig.toml` checks the whole project.

## How the files fit together

| file | what it holds |
|---|---|
| `Bytes.dfy`, `Words.dfy`, `Load.dfy` | byte strings and headers, bit arithmetic on words, the load factor |
| `Hash.dfy` | the string hash and the mixer on 64-bit words with wrap-around |
| `Probing.dfy` | open addressing on any keys and any hash |
| `FileIO.dfy` | positioned reads and writes under an adversarial kernel |
| `RecordLog.dfy`, `Migration.dfy` | the object log and its migration from the legacy format |
| `ObjectIndex.dfy`, `ObjectStore.dfy` | the object index of a log, and the store as a class, under a system that may refuse any read or write |
| `RefusedRead.dfy` | what a read refused in the middle of a batch can cost |
| `Opening.dfy` | opening a value file of either format without an index |
| `RowBlock.dfy`, `RowBlockRead.dfy`, `RowCodec.dfy` | the row block, its two readers, and the loops that build and read it |
| `RowProtocol.dfy` | the concurrent row index as a state machine |
| `RowProtocolInv.dfy`, `RowProtocolSteps.dfy`, `RowProtocolWrites.dfy` | its invariant, and that every step keeps it |
| `RowProtocolResults.dfy`, `RowLinear.dfy` | buckets, publication, refinement to a map, and reads of rows written once |
| `RowReach.dfy`, `RowTorn.dfy` | building runs step by step, and runs with a torn and with a stale read |
| `RowAdmission.dfy`, `RowLimit.dfy` | the load bound under stale reads of the counters, and that it is reached |
| `RowResult.dfy`, `RowRefusal.dfy`, `RowSequence.dfy` | what the answer of a write means, when a write is refused for capacity, and sequence numbers |
| `RowSerial.dfy`, `RowAtomic.dfy` | rows that are rewritten: calls kept apart, and linearizability of every run |
| `RowOrder.dfy`, `RowUpdate.dfy` | the order of the log, `PutRowStruct` and the row count |
| `RowQuiescent.dfy`, `RowScan.dfy`, `RowIndex.dfy`, `RowReopen.dfy`, `RowOpen.dfy` | states with nothing in flight, scanning the files, the rebuild, and that closing and opening keeps the database |
| `ColumnStats.dfy` | the statistics of both indexes |

## The concurrent model

A state holds the item count, the pending counter, the sequence counter, the
append offsets and bytes of the shard files, the buckets, and one program counter
per thread.  Each atomic load, store, fetch-and-add and compare-and-swap is a step
of its own; so are each of the six field stores of a bucket, each of the six field
loads of a snapshot, each part of a block that reaches its file, and the header
and column reads of a match.  Steps interleave in any order, with sequentially
consistent memory.  A write may fail after any part of its block.

History fields (`owner`, `src`, `filled`, `holder`, `extents`, `index`) record who
claimed what.  No step acts on them, except that an update may begin only for a
row that a lookup could find.

Assumptions stand in the contracts.  `maxLoadFactor` is a real strictly between 0
and 0.95.  Reads linearize in every run (`RowAtomic.ReadsLinearise`) with no
assumption on the caller.  That a read answers as the map stands at its very
return, and that it reports no corruption, is proved when its row is stored once
(`WrittenOnce`) or all calls for one row are kept apart (`Serialised` with
`AllCalls`).  That the newest block of a row is the indexed one, which the rebuild
rests on, and that `PutRowStruct` is an update need only the writes of one row to
be kept apart (`Serialised` with `WritesOnly`); results about closed files also
need every claimed extent to have been written (`AllPublished`).

## What holds only under a condition

- Legacy migration measures a record by adding the two 32-bit lengths in 32 bits.
  The copy is right if and only if no record's column and key lengths together
  reach 2^32 (`Migration.MigrationIsExact`); `Migration.OverflowExample` is a
  well-formed legacy log that is refused.
- The second Filled load of a snapshot does not exclude a complete rewrite in
  between.  An operation reports corruption exactly when the block offset and the
  block size it loaded come from writes of different sizes
  (`RowLinear.ErrorsExplained`, `RowLinear.TornIsReported`), and
  `RowTorn.TornReadHappens` builds such a run.  It cannot happen to rows written
  once, and when calls for one row are kept apart it takes another row with the
  same column hash and row id (`RowSerial.TornIsCollision`); for two such rows the
  run that `RowTorn.TornReadHappens` builds does keep the calls apart.
- A read that overlaps a rewrite may return a value that is no longer current when
  it returns: `RowTorn.StaleReadHappens` builds such a run.  The value was current
  at some moment of the call (`RowAtomic.ReadsLinearise`), and a caller that keeps
  all calls for one row apart never sees it (`RowSerial.SerialisedCallsSucceed`).
- A read that the system refuses while a batch of objects is indexed leaves the
  entries before it in the index, and the append offset where it was.  The store is
  sound after the error if and only if no entry was placed
  (`ObjectStore.Store.WriteStructs`).  That is so for every reply of the system if
  and only if no entry after the first has the index hash of a name that is stored
  or comes before it (`ObjectIndex.RefusalIsHarmless`); unique batches and batches
  of one entry are always safe.  Otherwise the next batch may write over the record
  a placed bucket points at: every store with two keys can lose one so
  (`RefusedRead.RefusedReadLosesKey`).
- The two counters behind the load limit are read in separate steps, so the limit
  can be passed by at most one bucket for each further concurrent writer
  (`RowAdmission.AdmissionBound`), and it is passed by as many for any number of
  writers (`RowLimit.LimitIsReached`).  All runs of a new database stay within the
  limit if and only if it has one thread or the limit is zero
  (`RowLimit.LimitHoldsIff`).
- A write is counted before it gives its reservation back, so a write in between is
  counted twice by one that loads the counters then.  A write may therefore be
  refused for capacity although no more writes have begun than the limit admits
  (`RowRefusal.WithinLimitIsRefused`, for any two threads and a limit of two or
  more).  The first `n` writes of a new database with `k` threads are sure not to be
  refused if and only if `n` plus the smaller of `n` and `k`, less one, is within the
  limit (`RowRefusal.AdmitsFirstIff`).
- Sequence numbers are all different until 2^64 have been taken
  (`RowSequence.SequencesThroughout`); then the counter wraps to zero and they
  repeat (`RowSequence.CounterCountsTakes`).
- A rebuild doubles the row index at most once for each block, so it ends within the
  load factor whatever it scans if and only if the factor admits a row into twice
  the configured buckets (`RowIndex.RebuiltIsWithin`).

## Model

| member | source | states |
|---|---|---|
| `Words.RoundUpIsLeast` | src/lumodb/database.cpp:27-33 | rounding gives the least power of two that is at least 16 and the argument, and it fits a word whenever one does |
| `Words.RoundUpPowerOfTwo` | src/lumodb/database.cpp:27-33 | the doubling loop ends with that power |
| `Words.PowerTestIsExact` | src/lumodb/database.cpp:1476-1479 | the bit test of the validity checks accepts exactly the powers of two |
| `Words.MaskIsRemainder` | src/lumodb/database.cpp:2325-2333 | masking a hash with count - 1 is its remainder, for powers of two |
| `Hash.MixHashes` | src/lumodb/hash.cpp:21-29 | the mixer on words, with every wrap-around, is the function proved bijective |
| `Hash.HashString` | src/lumodb/hash.cpp:9-19 | the byte loop computes the string hash with 64-bit wrap-around |
| `Hash.StatesStayApart` | src/lumodb/hash.cpp:13-18 | hashing the same bytes from two states ends in one state only if they were the same |
| `Hash.OneByteApart` | src/lumodb/hash.cpp:9-19 | names of one length that differ in exactly one byte never share a hash |
| `Hash.MixIsBijective` | src/lumodb/hash.cpp:21-29 | from the mixed value and either argument the other argument is recovered |
| `Hash.MixIsOnto` | src/lumodb/hash.cpp:21-29 | every 64-bit value is reached, for any fixed other argument |
| `Hash.ObjectIndexHashMerges` | src/lumodb/database.cpp:47-50 | two keys of a column share an index hash if and only if they have equal key hashes or mix to 0 and 1 |
| `Probing.FindIsLookup` | src/lumodb/database.cpp:2325-2355 | in a chained table with room a probe ends at the key's slot, or at an empty slot exactly when the key is absent |
| `Probing.FillKeeps` | src/lumodb/database.cpp:1963-1976 | filling the slot a probe ended at keeps the table chained and its keys distinct, and adds exactly that key |
| `Probing.RehashKeeps` | src/lumodb/database.cpp:1921-1946 | placing all keys in a table with more slots keeps the keys, their number and every chain |
| `Probing.MaskedAt` | src/lumodb/database.cpp:2332-2333 | the masked probe step wraps round the table once |
| `Load.GrownIsLeast` | src/lumodb/database.cpp:1907-1920 | doubling ends at a power of two that is not over the load factor, while half of it is |
| `Load.FitsHasRoom` | src/lumodb/database.cpp:1907-1920 | items within the load factor leave an empty bucket |
| `FileIO.ReadAllAt` | src/lumodb/file.cpp:175-196 | success returns exactly the range asked for, however the reads are split; the end of the file is corruption; the replies of the system decide whether a range in the file is read |
| `FileIO.WriteAllAt` | src/lumodb/file.cpp:198-216 | success stores exactly the bytes at the offset, and failure a proper prefix of them |
| `FileIO.WriteVAllAt` | src/lumodb/file.cpp:218-266 | for any slices, vector limit and short writes, success stores the concatenation of the slices and failure a proper prefix; a reply that takes all of it is the only one used |
| `FileIO.Advance` | src/lumodb/file.cpp:251-263 | after a short write the pending vectors are what is left of the concatenation |
| `FileIO.PWriteMeaning` | src/lumodb/file.cpp:198-216 | a stored range reads back and every byte outside it is unchanged |
| `RecordLog.HeaderRoundTrip` | src/lumodb/storage_format.h:38-45 | a packed record header parses back to its fields |
| `RecordLog.ParseFile` | src/lumodb/database.cpp:1517-1577 | the bytes of a log parse back to exactly the records appended |
| `RecordLog.OffsetsPointAtRecords` | src/lumodb/database.cpp:326-376 | each indexed offset is the start of a record with that name and the value written last |
| `Migration.MigrateLegacyValueFile` | src/lumodb/database.cpp:1084-1184 | the chunked copy loop writes the header and the migrated records, and its final offset is the new file's length |
| `Migration.CopyRecord` | src/lumodb/database.cpp:1136-1155 | the chunks of one record append exactly its data |
| `Migration.MigrationIsExact` | src/lumodb/database.cpp:1119-1121 | a legacy log migrates to the new-format log of the same records if and only if every record's column and key lengths sum below 2^32 |
| `Migration.MigrationPreservesMeaning` | src/lumodb/database.cpp:1084-1184 | below that limit the migrated file parses to the same records |
| `Migration.WrappedIsWrong` | src/lumodb/database.cpp:1119-1121 | a record past the limit is never copied right, whatever follows it |
| `Migration.OverflowExample` | src/lumodb/database.cpp:1119-1121 | a concrete well-formed legacy log that migration refuses |
| `Opening.LegacyMeaning` | src/lumodb/database.cpp:1084-1184 | a legacy log and its records in the current format denote one last-write map |
| `Opening.OpenValueFile` | src/lumodb/database.cpp:1024-1082 | a new file gets its header, a legacy one is migrated, a current one is kept, and anything else is corruption; a read-only open changes nothing and accepts exactly a current file |
| `ObjectIndex.BatchMeaning` | src/lumodb/database.cpp:285-378 | after a batch each of its keys has its last value in the batch, and every other name what it had |
| `ObjectIndex.GrowthIsInvisible` | src/lumodb/database.cpp:1907-1946 | growth keeps every name and count and leaves room for the whole batch and one bucket over |
| `ObjectIndex.BucketsPlace` | src/lumodb/database.cpp:351-374 | pointing one name at a new record changes one bucket, the one a lookup of the name ends at |
| `ObjectIndex.OccupiedIsKeys` | src/lumodb/database.cpp:370-373 | the occupied buckets are as many as the distinct names ever written |
| `ObjectIndex.FilledIsOccupied` | src/lumodb/database.cpp:1487-1493 | counting non-zero hashes counts the names |
| `ObjectIndex.LogLookup` | src/lumodb/database.cpp:2325-2386 | on the bytes of the log and its buckets, a lookup ends at the name's bucket, or at the empty one it would take when the log has no such name |
| `ObjectIndex.LogReads` | src/lumodb/database.cpp:2340-2350 | a lookup reads the file if and only if a stored name has the index hash of the name |
| `ObjectIndex.RefusalIsHarmless` | src/lumodb/database.cpp:351-376 | a refused read leaves every batch all or nothing, whatever the replies, if and only if no entry after the first shares its index hash with a name stored or listed before it |
| `ObjectStore.Store.RecordMatches` | src/lumodb/database.cpp:2359-2386 | whatever the file holds, the reads at a bucket's offset tell whether its record has this name, is corrupt, or could not be read |
| `ObjectStore.Store.FindBucket` | src/lumodb/database.cpp:2325-2357 | whatever the buckets and the file hold, the probe ends where the lookup on them does, unless the system refuses one of its reads |
| `ObjectStore.Store.FindsInLog` | src/lumodb/database.cpp:2325-2357 | in an index of the log that is at the name's bucket if and only if the log has the name; corruption is unreachable |
| `ObjectStore.Store.GetStruct` | src/lumodb/database.cpp:380-413 | returns the value written last for the name, or NotFound exactly when there is none, or an error when the system refuses a read, and nothing else |
| `ObjectStore.Store.PlaceBucket` | src/lumodb/database.cpp:1948-1976 | a new name takes the bucket a lookup of it ends at; the table is never found full |
| `ObjectStore.Store.ResizeIndex` | src/lumodb/database.cpp:1921-1946 | the new array is the rehash of the old table, with the same count, sequence and record offsets |
| `ObjectStore.Store.EnsureCapacityForInsert` | src/lumodb/database.cpp:1907-1920 | the loop ends, and afterwards the batch fits with an empty bucket left |
| `ObjectStore.Store.IndexBatch` | src/lumodb/database.cpp:351-375 | the loop indexes a prefix of the batch, the whole of it unless a read is refused, and the replies decide how long a prefix |
| `ObjectStore.Store.WriteStructs` | src/lumodb/database.cpp:285-378 | success appends exactly the batch to log, file and table; a refusal by a check or by the append leaves the log and all lookups as they were; a refused read leaves a prefix of the batch indexed, and the store is sound if and only if that prefix is empty; each status is returned exactly when the checks say |
| `ObjectStore.UniqueEqualsGeneral` | src/lumodb/database.cpp:351-376 | for fresh distinct keys the unique path and the general path, when both succeed, end with the same log, bucket array, item count and append offset |
| `ObjectStore.Store.RebuildIndexFromValues` | src/lumodb/database.cpp:1517-1577 | scanning the file restores a store that stands for exactly the appended records, growing before each of them, unless the system refuses a read |
| `ObjectStore.SameLogSameIndex` | src/lumodb/database.cpp:1517-1577 | a live and a rebuilt index of one log have the same item count and the same buckets, though perhaps elsewhere |
| `RefusedRead.LostInLookup` | src/lumodb/database.cpp:351-376 | a key whose bucket points at a record written over by another name ends its lookup at an empty bucket |
| `RefusedRead.RefusedReadLosesKey` | src/lumodb/database.cpp:351-376 | for every sound store with two keys there are replies for which a batch of both fails after its first entry, the next batch succeeds, and the first key is not found |
| `ObjectStore.Store.ItemCountIsKeys` | src/lumodb/database.cpp:370-373 | the item count is the number of distinct names in the log |
| `ObjectStore.Store.HasValidIndexLayout` | src/lumodb/database.cpp:1465-1493 | the checks accept exactly a header, size and count that fit the bucket array |
| `ObjectStore.Store.ClosedLayoutIsValid` | src/lumodb/database.cpp:1465-1493 | what a store leaves behind passes those checks |
| `ObjectIndex.LayoutAccepts` | src/lumodb/database.cpp:1465-1493 | the checks refuse any other magic, version, sizes or bucket count, and any item count but the number of buckets with a hash |
| `ObjectIndex.RebuiltIsWithin` | src/lumodb/database.cpp:1546-1550 | a rebuilt table holds the names of the log within the load factor |
| `ObjectStore.Store.OpenFiles` | src/lumodb/database.cpp:1186-1228 | an index file that passes the checks is kept bucket for bucket, any other is created anew at the configured size, rounded up, and rebuilt |
| `Opening.OpenDatabase` | src/lumodb/database.cpp:1024-1228 | opening a new, current or legacy value file without an index gives a store that holds exactly the file's last-write map, in the table that growing from the configured size record by record ends with, and fails only when the system refuses a call |
| `RowBlock.BlockHeaderRoundTrip` | src/lumodb/storage_format.h:105-119 | a packed block header parses back to its fields |
| `RowBlock.BucketRoundTrip` | src/lumodb/storage_format.h:121-129 | a packed key bucket parses back to its fields |
| `RowBlock.FillGood` | src/lumodb/database.cpp:1763-1806 | for every entry list, duplicates and collisions included, the key table never fills and holds each key once, selecting its last entry |
| `RowBlock.SelectedIsLast` | src/lumodb/database.cpp:1796-1818 | the entry a bucket selects carries its key's last value |
| `RowBlock.LastMapIsLast` | src/lumodb/database.cpp:1742-1836 | the map of an entry list holds the value of the last entry of each listed key and no other key |
| `RowBlock.ExactQuotientWillDo` | src/lumodb/database.cpp:1750-1752 | the exact quotient by the load factor is a size the block results cover |
| `RowBlock.BucketCountIsLeast` | src/lumodb/database.cpp:1750-1752 | the key table has the least power of two of buckets that is at least 16 and more than the quotient |
| `RowBlockRead.HeaderReadBack` | src/lumodb/database.cpp:1608-1624 | a block's header reads back as written, passes the validity check, and gives the block's size |
| `RowBlockRead.LookupIsLast` | src/lumodb/database.cpp:1838-1905 | on a stored block the point lookup returns the last value of each listed key and misses every other key |
| `RowBlockRead.DecodeIsMap` | src/lumodb/database.cpp:1644-1704 | decoding a block lists exactly the map of its entries, each key once |
| `RowBlockRead.EditIsUpdate` | src/lumodb/database.cpp:436-447 | the edit loop changes one key of the map and nothing else |
| `RowBlockRead.PutRowStructIsUpdate` | src/lumodb/database.cpp:415-456 | decode, edit and rebuild give a block that answers the new value for the key and the old answer for every other key |
| `RowCodec.PlaceEntry` | src/lumodb/database.cpp:1763-1806 | the probe loop places one entry as the table insertion says, comparing the stored key bytes |
| `RowCodec.BuildRowBlockLayout` | src/lumodb/database.cpp:1742-1836 | both passes build the layout of the table, however the division by the load factor rounds, as long as the quotient is no less than the count; only counts that do not fit 32 bits are refused |
| `RowCodec.SlicesAreBlock` | src/lumodb/database.cpp:503-513 | the slices handed to the vectored write are, end to end, the block |
| `RowCodec.FindValueInRowBlockAt` | src/lumodb/database.cpp:1838-1905 | the sparse probe loop computes the lookup that LookupIsLast is about, on any bytes whose offset sums do not wrap |
| `RowCodec.DecodeRowBlockEntries` | src/lumodb/database.cpp:1644-1704 | the decode loop computes the decoding that DecodeIsMap is about, on any bytes whose offset sums do not wrap |
| `RowCodec.EditRow` | src/lumodb/database.cpp:436-447 | the loop over the keys performs the edit that EditIsUpdate is about |
| `RowProtocolInv.FreshIsGood` | src/lumodb/database.cpp:1378-1399 | a freshly created index of any size with any number of threads satisfies the protocol invariant, and its bucket count is a power of two |
| `RowProtocol.EveryShardIsUsed` | src/lumodb/database.cpp:2320-2323 | with the program's own hashes every shard takes rows of every column |
| `RowProtocolInv.OthersKeep` | src/lumodb/database.cpp:2161-2231 | what a thread knows survives every step of every other thread |
| `RowProtocolWrites.StepKeepsInvariant` | src/lumodb/database.cpp:463-545 | every step of every thread keeps the whole invariant: extents, files, blocks, buckets, index, table, threads and counters |
| `RowProtocolResults.RunKeepsInvariant` | src/lumodb/database.cpp:463-545 | the invariant holds in every state of every run |
| `RowProtocolResults.BucketsAreForever` | src/lumodb/database.cpp:2161-2231 | over any run a claimed bucket keeps its row and never becomes empty again |
| `RowProtocolResults.WritingHasOneOwner` | src/lumodb/database.cpp:2182-2194 | a bucket is Writing if and only if a thread is between its claim and its Filled store, and that thread is unique |
| `RowProtocolResults.BucketsFormATable` | src/lumodb/database.cpp:2161-2231 | no two occupied buckets hold one row, and every bucket from a row's start up to its bucket is occupied, even when threads insert the same row at once |
| `RowProtocolResults.ExtentsAreDisjoint` | src/lumodb/database.cpp:500-502 | over any run, extents of one shard claimed by any threads at any time never overlap |
| `RowProtocolResults.FilledPointsAtBlock` | src/lumodb/database.cpp:515-531 | a Filled bucket holds the six words of one write, which lead to its complete, valid block |
| `RowProtocolResults.PublishedBlocksAreStable` | src/lumodb/database.cpp:500-531 | a published block stays byte for byte in its file for the rest of the run |
| `RowProtocolResults.SnapshotsAreUntorn` | src/lumodb/database.cpp:2080-2112 | over any run, what a thread has loaded once it has all six words of a bucket whose rows were stored once is one write's six words, of the bucket's row |
| `RowProtocolResults.StepsRefineMap` | src/lumodb/database.cpp:463-545 | every step leaves the map of rows alone, except the Filled store, which sets exactly its row to exactly its entries |
| `RowProtocolResults.ReadsReturnWrites` | src/lumodb/database.cpp:547-564 | with no assumption on rewriting, a read misses only an unpublished row and otherwise answers from one complete write of its row |
| `RowLinear.ErrorsExplained` | src/lumodb/database.cpp:2161-2319 | a full table is reported only when no bucket is empty, and corruption only when offset and size come from writes of different sizes |
| `RowLinear.TornIsReported` | src/lumodb/database.cpp:2296-2302 | such a mixed snapshot, once used, always ends in corruption |
| `RowTorn.TornReadHappens` | src/lumodb/database.cpp:2080-2112 | from any state with two idle threads and a stored row there is a run in which a rewrite with a block of another size makes a read, of that row or of one with its column hash and id, report corruption; when the two rows differ the run keeps all calls for one row apart |
| `RowTorn.StaleReadHappens` | src/lumodb/database.cpp:547-564 | from any such state there is a run that keeps writes apart in which a read of the row returns the answer that a rewrite has replaced |
| `RowTorn.QuiescentIsStored` | src/lumodb/database.cpp:2233-2282 | with nothing in flight every row of the index is stored in that sense, wherever its bucket lies |
| `RowLinear.OnceWrittenReadsLinearise` | src/lumodb/database.cpp:547-564 | in any run where each row is written once, every read answers as the map of published rows stands when it returns, and nothing reports an error while an empty bucket remains |
| `RowLinear.PublishedRowsAreNeverMissed` | src/lumodb/database.cpp:547-564 | a read that returns after a row's Filled store returns exactly that write's answer |
| `RowAdmission.LoadIsLimit` | src/lumodb/database.cpp:2056-2078 | the division against the load factor is a comparison with a whole number of items |
| `RowAdmission.StepAdmits` | src/lumodb/database.cpp:2056-2078 | no step lets more items be counted than the limit and the other writers that read the counters before allow |
| `RowAdmission.AdmissionBound` | src/lumodb/database.cpp:2056-2078 | Writing and Filled buckets together never exceed the larger of the starting count and the limit plus the writers less one |
| `RowAdmission.TableNeverFills` | src/lumodb/database.cpp:2225-2228 | while that bound is below the bucket count an empty bucket remains and no operation reports a full table |
| `RowAdmission.ParallelPhaseIsSafe` | src/lumodb/database.cpp:463-564 | in the parallel phase nothing reports corruption or a full table, and every read answers from the map as it stands when it returns |
| `RowResult.WriteAdvances` | src/lumodb/database.cpp:463-545 | every step of a write moves it on through its phases: before the claim, before the publication, counting, and the end with a result |
| `RowResult.WriteAnswersTruly` | src/lumodb/database.cpp:463-545 | a write answers Stored if and only if it stored Filled in the call; then it did so once, set exactly its row to its entries, and its one extent is published; with any other answer it changed no row and its extent, if any, is abandoned |
| `RowRefusal.AnswersExplained` | src/lumodb/database.cpp:483-545 | each answer of a write comes from one place: capacity from the reservation, size from the layout, a failed write from the append, a full table or corruption only from its cause |
| `RowRefusal.ReadAnswersExplained` | src/lumodb/database.cpp:2233-2282 | a read answers that its row is missing at an Empty bucket of its probe path only, a value or a missing key from the row's block only, and a full table or corruption from the comparison with a Filled bucket only; with no Empty bucket left an absent row is a full table, not a missing row |
| `RowRefusal.ReserveAnswers` | src/lumodb/database.cpp:2056-2074 | a reservation is refused if and only if the loaded items and pending inserts, plus one, are over the limit |
| `RowRefusal.ClaimAnswers` | src/lumodb/database.cpp:493-499 | a block is refused for size if and only if its counts do not fit the format |
| `RowRefusal.CapacityAnswersTruly` | src/lumodb/database.cpp:2056-2074 | over any call, what decides is an item count and, after it, a pending count that the call itself loaded; an update of a found row is never refused for capacity |
| `RowRefusal.EarlyWritesAreAdmitted` | src/lumodb/database.cpp:2056-2074 | from a quiescent state no write is refused while the items, the writes begun, and one more for each thread but one are within the limit |
| `RowRefusal.AdmitsFirstIff` | src/lumodb/database.cpp:2056-2078 | the exact number of first writes of a new database that no run refuses for capacity |
| `RowRefusal.WithinLimitIsRefused` | src/lumodb/database.cpp:533-541 | with two threads and a limit of at least two, a write is refused although no more writes have begun than the limit |
| `RowSequence.FreshSequences` | src/lumodb/database.cpp:1393-1397 | a new database starts at one with no number in use |
| `RowSequence.SequencesThroughout` | src/lumodb/database.cpp:2051-2054 | until the counter wraps, all sequence numbers in use are different and below it, and it is the starting one plus the numbers taken |
| `RowSequence.CounterCountsTakes` | src/lumodb/database.cpp:2051-2054 | the counter moves by one for each number taken, modulo 2^64 |
| `RowSequence.RebuiltSequences` | src/lumodb/database.cpp:1450-1461 | the counter a rebuild leaves is above every stored number, no higher than the live one, and sound to go on with |
| `RowLimit.LimitIsReached` | src/lumodb/database.cpp:2056-2078 | from any quiescent state one item below the limit, any number of writers that the table has buckets for can all be admitted |
| `RowLimit.LimitHoldsIff` | src/lumodb/database.cpp:2056-2078 | all runs of a new database stay within the limit if and only if it has at most one thread or the limit is zero |
| `RowAtomic.StepKeepsSources` | src/lumodb/database.cpp:515-531 | every word of a bucket being rewritten comes from the published write of its row or from the one about to be published |
| `RowAtomic.SeenThroughout` | src/lumodb/database.cpp:2080-2112 | the write a read's block offset comes from was the published one during the read, or will be before the second Filled load succeeds |
| `RowAtomic.ReadsLinearise` | src/lumodb/database.cpp:547-564 | in every run, rewrites and overlaps included, a read that ends without an error answers as the map of published rows stood at one moment between its beginning and its end |
| `RowSerial.SnapsStayCurrent` | src/lumodb/database.cpp:2080-2112 | with the writes of a row kept apart, what a write has loaded from its own row's bucket is what is published; with all calls kept apart, what any call has |
| `RowSerial.TornIsCollision` | src/lumodb/database.cpp:2211-2215 | then a mixed snapshot can only be of another row with the same column hash and row id |
| `RowSerial.SerialisedCallsSucceed` | src/lumodb/database.cpp:463-564 | a call that no write of its row runs beside reports corruption only through such a collision and never a full table while a bucket is empty, and a read then answers as the map stands when it returns |
| `RowOrder.StepKeepsLog` | src/lumodb/database.cpp:500-531 | extents stay end to end in claim order, and the newest published extent of a row is the indexed one |
| `RowOrder.LogOkThroughout` | src/lumodb/database.cpp:500-531 | the same over every run in which the writes of a row are kept apart |
| `RowUpdate.LoadedIsRow` | src/lumodb/database.cpp:1644-1704 | a published block always decodes, to its row's map, each key once |
| `RowUpdate.LoadRowEntriesIsLoaded` | src/lumodb/database.cpp:1706-1740 | after the probe has matched, the second snapshot never waits, and each of its words and the block may be read at a moment of its own: while nobody writes the row they decode to its entries |
| `RowUpdate.NothingToLoad` | src/lumodb/database.cpp:1711-1720 | a probe that ends at an empty bucket finds nothing to load exactly because the row is not there |
| `RowUpdate.PutRowStructIsMapUpdate` | src/lumodb/database.cpp:415-456 | over a run that keeps the writes of a row apart, the row's map becomes the old one with the key set, and every other row is unchanged |
| `RowUpdate.PutRowStructUpdates` | src/lumodb/database.cpp:415-456 | the same for the whole call, its probe, second snapshot, block read, decoding, edit and write each at moments of their own |
| `RowUpdate.RowCountGrows` | src/lumodb/database.cpp:533-541 | between two states with nothing in flight the row count grows by exactly the number of rows published that were absent |
| `RowUpdate.PutRowStructCountsNewRows` | src/lumodb/database.cpp:415-456 | when only this call publishes, the row count grows by one if the row was absent and stays otherwise |
| `RowQuiescent.NothingIsStuck` | src/lumodb/database.cpp:2161-2282 | in every reachable state every thread has a step |
| `RowQuiescent.QuiescentIsClean` | src/lumodb/database.cpp:1343-1376 | with nothing in flight no insert is pending, no bucket is Writing, and the item count is the number of Filled buckets and of rows |
| `RowQuiescent.QuiescentFiles` | src/lumodb/database.cpp:1286 | each shard file is then its header and exactly the published blocks, and its size is the append offset |
| `RowScan.ScanIsLast` | src/lumodb/database.cpp:1401-1463 | scanning shard by shard keeps each row's last extent in claim order |
| `RowScan.ScanIsLive` | src/lumodb/database.cpp:1401-1463 | after a serialised run the scan finds exactly the rows of the live index at the places their buckets record |
| `RowIndex.Index.RowBlockMatches` | src/lumodb/database.cpp:2284-2319 | the header and column reads tell exactly whether the bucket is this row's |
| `RowIndex.Index.FindRowBucket` | src/lumodb/database.cpp:2233-2282 | found if and only if the row is indexed; the index is its bucket or the empty one it would take |
| `RowIndex.Index.PlaceExistingRowBucket` | src/lumodb/database.cpp:2016-2029 | the row takes the bucket a lookup of it ends at |
| `RowIndex.Index.ResizeRowIndex` | src/lumodb/database.cpp:1989-2014 | no row is lost and none moves in its file |
| `RowIndex.Index.EnsureRowCapacityForInsert` | src/lumodb/database.cpp:1978-1987 | the array stays as it is if one more row is within the load factor and is doubled once otherwise; either way there is room for the row and an empty bucket |
| `RowIndex.Index.RebuildShard` | src/lumodb/database.cpp:1411-1458 | the inner loop scans one shard file on top of what the shards before it gave |
| `RowIndex.Index.RebuildRowIndexFromValues` | src/lumodb/database.cpp:1401-1463 | the rebuilt index is the scan of the files, with their sizes as append offsets, the bucket count that making room before every block gives, and a next sequence of one or one more than a stored one, above every one that does not wrap |
| `RowIndex.RebuiltIsWithin` | src/lumodb/database.cpp:1978-1987 | a rebuilt row index is within the load factor, whatever was scanned, if and only if the factor admits a row into twice the buckets it was created with |
| `RowIndex.ScanAllSizeGrows` | src/lumodb/database.cpp:1378-1399 | its bucket count is a power of two no less than the one it was created with |
| `RowIndex.NoBlocksNoGrowth` | src/lumodb/database.cpp:1401-1463 | with no blocks in the shards it is that one |
| `RowIndex.Index.HasValidRowIndexLayout` | src/lumodb/database.cpp:1343-1376 | the checks accept exactly a fitting header, size, shard count and count of Filled buckets, with none Writing |
| `RowIndex.LayoutAccepts` | src/lumodb/database.cpp:1343-1376 | the checks refuse any other magic, version, sizes, shard count or bucket count, any Writing bucket, and any item count but the number of Filled buckets |
| `RowIndex.Index.OpenRowIndexFile` | src/lumodb/database.cpp:1299-1341 | an index file that passes the checks is kept unchanged and any other is created anew at the configured size, rounded up, and rebuilt; either way the index is the scan of the files |
| `RowReopen.RebuildEqualsLive` | src/lumodb/database.cpp:1401-1463 | rebuilding from the files of any quiescent state of a serialised run gives the live map, item count and append offsets |
| `RowReopen.QuiescentLayoutIsValid` | src/lumodb/database.cpp:1343-1376 | the index file that any quiescent state leaves behind passes the checks of opening |
| `RowReopen.ReopenIsIdentity` | src/lumodb/database.cpp:1230-1341 | so opening keeps it: every counter, bucket and append offset is the live one |
| `RowReopen.CreateUseReopen` | src/lumodb/database.cpp:1299-1399 | the same for every run of a newly created database, whatever calls overlapped |
| `RowReopen.RebuiltIsLive` | src/lumodb/database.cpp:1401-1463 | a rebuilt index satisfies the protocol invariant and the order of the log, with the same rows, places, count and offsets |
| `RowReopen.OpenedIsLive` | src/lumodb/database.cpp:1299-1341 | whatever header and size the index file is found with, opening gives a state of the protocol with the same database |
| `RowOpen.LiveTable` | src/lumodb/database.cpp:1343-1376 | with nothing in flight and an empty bucket left, the claimed buckets are a probe table of the live rows |
| `RowOpen.BucketsAreLive` | src/lumodb/database.cpp:1343-1376 | the bucket array in the mapped file is exactly the array of that table, zero words in empty buckets included |
| `RowOpen.UsedIsClosable` | src/lumodb/database.cpp:463-545 | every run of a new database that keeps writes of a row apart ends, once quiet, in a state whose files can be opened again |
| `RowOpen.OpenAfterRun` | src/lumodb/database.cpp:1299-1341 | opening the files such a state left gives the live rows, places, count and offsets, whatever header and size the index file is found with |
| `RowOpen.OpenNewDatabase` | src/lumodb/database.cpp:1230-1399 | opening in an empty directory gives the very state that results about a new database start in, bucket for bucket and counter for counter, with the least power of two of buckets from the configured size |
| `RowReopen.FreshIsReady` | src/lumodb/database.cpp:1378-1399 | a new database meets what every result about runs asks of the state they start in |
| `ColumnStats.HeaderCountsKeys` | src/lumodb/database.cpp:1820-1828 | the item count in a block's header is the number of distinct keys of its entries |
| `ColumnStats.ItemsAtIsKeys` | src/lumodb/database.cpp:620-648 | the header read through a live row's bucket gives the number of distinct keys of the row |
| `ColumnStats.ItemsInIsSum` | src/lumodb/database.cpp:620-648 | the running sum over the buckets in table order is the sum over the set of the column's rows, in any order |
| `ColumnStats.CountIfIsCardinality` | src/lumodb/database.cpp:587-661 | counting the buckets of a column counts a set: no name or row is counted twice, superseded ones not at all |
| `ColumnStats.SumSets` | src/lumodb/database.cpp:645-648 | setting one column's entry changes the total of the row counts by exactly its change |
| `ColumnStats.GetColumnStats` | src/lumodb/database.cpp:587-661 | for the row index of any state of the row protocol, each column's objects are its distinct names plus the distinct keys of each of its rows, its rows are its current rows, the row counts add up to the item count, and only columns that hold something are listed |
| `ColumnStats.StatsAfterOpening` | src/lumodb/database.cpp:587-661 | after closing and opening, the statistics are those of the rows that the run stored |

## Left out

- mmap, msync, fsync, ftruncate, rename, directories and descriptors: files are byte sequences, the mapped indexes are arrays, and these calls succeed.
- Durability over a crash or power loss: the code keeps no commit record.
- Weak memory orders: steps are sequentially consistent.  Fairness is left out too: retry loops may go on for ever, as an interrupted system call may.
- Reads of the row value files that the system refuses: in the row codec, index, statistics and protocol a read fails only past the end of a file.
- ObjectStore.Store.WriteStructs: on a store that a refused read has left unsound only unique batches are covered, because a lookup there may place a name a second time.
- RowOpen.OpenAfterRun: needs an empty bucket in the index file, which `RowAdmission.TableNeverFills` gives; a full table finds stored rows but reports a full table for every other.
- 64-bit overflow of file offsets, block sizes and bucket counts: files and tables that do not fit in 2^64 bytes.  Sequence numbers and the 32-bit fields do wrap.
- Division in doubles: the load factor check is on reals, which agrees for power-of-two bucket counts below 2^53.  A row block's size takes any division that gives no less than the number of entries (`RowBlock.Sizing`).
- RowProtocol.DoReadValue: the bucket, key and value reads of a point lookup are one step, because the block they read is published and `RowProtocolResults.PublishedBlocksAreStable` shows it never changes.
- The checks at the head of a row call (not open, read-only, a column over 32 bits, no entries): `RowProtocol.Begin` starts the calls that pass them.
- The quality of the hashes: outside `Hash.dfy` both are arbitrary functions.
- RowProtocolResults.ReadsReturnWrites: does not say when the write was current; `RowAtomic.ReadsLinearise` does, for runs that start with nothing in flight.
- RowCodec.DecodeRowBlockEntries: the sums of an offset and a size are unbounded, where the source's wrap at 64 bits on bytes that this code did not write.
- RowCodec.FindValueInRowBlockAt: the same sums are unbounded here too.
- Dump, the text formats, GetMany, the string wrappers, the pimpl layer and the status texts: reports and forwarding.
- ColumnStats.GetColumnStats: gives a map from column names where the source gives a list sorted by column name, and runs with no writer active.
- Read-only opening through memory maps, and files that hold anything but what this code wrote.
