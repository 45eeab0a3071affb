/**
 Opening the row index: the checks on an existing index file, and the rebuild
 from the row value files, growing the table on the way.  No other thread runs
 while a database is opened, so every bucket is Empty or Filled.

 The class keeps two ghost fields, the row each bucket stands for and where each
 row's block is; `Indexed` ties them to the bucket array and to the files.
 */
module RowIndex {
  import opened Wrappers
  import opened Bytes
  import opened Words
  import opened Load
  import opened Probing
  import opened FileIO
  import opened RowBlock
  import opened RowBlockRead
  import opened RowProtocol
  import opened RowProtocolSteps
  import opened RowQuiescent
  import opened RowScan

  datatype RowBucket = RowBucket(state: SlotState, columnHash: nat, rowId: nat, place: Location)

  const NO_BUCKET: RowBucket := RowBucket(Empty, 0, 0, Location(0, 0, 0, 0))

  /** `LUMRI002`. */
  const ROW_INDEX_MAGIC: seq<byte> := [76, 85, 77, 82, 73, 48, 48, 50]
  const ROW_INDEX_HEADER_SIZE: nat := 64
  const ROW_INDEX_BUCKET_SIZE: nat := 64

  // ---- What the index of a map of places is --------------------------------------------

  function BucketFor(c: Config, r: Row, p: Location): RowBucket {
    RowBucket(Filled, c.h.HashString(r.column), r.id, p)
  }

  function BucketOf(c: Config, slot: Option<Row>, places: map<Row, Location>): RowBucket {
    match slot
    case None => NO_BUCKET
    case Some(r) => BucketFor(c, r, if r in places then places[r] else NO_BUCKET.place)
  }

  function BucketsOf(c: Config, owner: seq<Option<Row>>, places: map<Row, Location>): (b: seq<RowBucket>)
    ensures |b| == |owner|
  {
    seq(|owner|, i requires 0 <= i < |owner| => BucketOf(c, owner[i], places))
  }

  /** These buckets stand for these rows, in this order. */
  ghost predicate StandFor(c: Config, buckets: seq<RowBucket>, rows: seq<Row>, places: map<Row, Location>) {
    |buckets| == |rows| && forall j :: 0 <= j < |rows| ==> buckets[j] == BucketOf(c, Some(rows[j]), places)
  }

  lemma StandForMore(c: Config, buckets: seq<RowBucket>, rows: seq<Row>, places: map<Row, Location>, r: Row)
    requires StandFor(c, buckets, rows, places)
    ensures StandFor(c, buckets + [BucketOf(c, Some(r), places)], rows + [r], places)
  {
  }

  lemma StandForCount(c: Config, buckets: seq<RowBucket>, rows: seq<Row>, places: map<Row, Location>)
    requires StandFor(c, buckets, rows, places)
    ensures |buckets| == |rows|
  {
  }

  lemma StandForAt(c: Config, buckets: seq<RowBucket>, rows: seq<Row>, places: map<Row, Location>, j: nat)
    requires StandFor(c, buckets, rows, places) && j < |rows|
    ensures j < |buckets| && buckets[j] == BucketOf(c, Some(rows[j]), places)
    ensures buckets[j].columnHash == c.h.HashString(rows[j].column) && buckets[j].rowId == rows[j].id
  {
  }

  lemma BucketsFilled(c: Config, owner: seq<Option<Row>>, places: map<Row, Location>)
    ensures forall i :: 0 <= i < |owner| ==> (BucketsOf(c, owner, places)[i].state == Empty <==> owner[i] == None)
  {
  }

  lemma NoneStand(c: Config, places: map<Row, Location>)
    ensures StandFor(c, [], [], places)
  {
  }

  ghost predicate RowTable(c: Config, owner: seq<Option<Row>>, places: map<Row, Location>) {
    IsTable(owner, c.RowHome(), places.Keys)
  }

  /** The reads a match makes find row `r`'s block at its place. */
  ghost predicate RowIsAt(c: Config, files: seq<seq<byte>>, r: Row, p: Location) {
    && p.shard < |files|
    && var b := PRead(files[p.shard], p.offset, BLOCK_HEADER_SIZE);
    && b.Some?
    && HeaderIsFor(c, ParseBlockHeader(b.value), r, p)
    && StoredColumn(files, p, ParseBlockHeader(b.value)) == Some(r.column)
  }

  ghost predicate HeaderIsFor(c: Config, hd: BlockHeader, r: Row, p: Location) {
    && IsValidRowBlockHeader(hd) && hd.columnHash == c.h.HashString(r.column) && hd.rowId == r.id
    && hd.columnSize == |r.column| && hd.blockSize == p.size && hd.sequence == p.sequence
  }

  function StoredColumn(files: seq<seq<byte>>, p: Location, hd: BlockHeader): Option<seq<byte>> {
    if p.shard >= |files| then None
    else PRead(files[p.shard], p.offset + (BLOCK_HEADER_SIZE + hd.bucketCount * KEY_BUCKET_SIZE), hd.columnSize)
  }

  lemma RowIsAtFacts(c: Config, files: seq<seq<byte>>, r: Row, p: Location)
    requires RowIsAt(c, files, r, p)
    ensures p.shard < |files|
    ensures var b := PRead(files[p.shard], p.offset, BLOCK_HEADER_SIZE);
      b.Some? && var hd := ParseBlockHeader(b.value);
      IsValidRowBlockHeader(hd) && hd.columnHash == c.h.HashString(r.column) && hd.rowId == r.id
      && hd.columnSize == |r.column| && hd.blockSize == p.size && hd.sequence == p.sequence
      && StoredColumn(files, p, hd) == Some(r.column)
  {
  }

  /** A complete block in its file reads as its row. */
  lemma BlockIsRow(c: Config, files: seq<seq<byte>>, x: Extent, p: Location)
    requires BlockFacts(c, x) && p.shard < |files| && BlockIsAt(files[p.shard], p.offset, x.bytes)
    requires p.size == |x.bytes| && p.sequence == x.sequence
    ensures RowIsAt(c, files, x.row, p)
  {
    var hd := ParseBlockHeader(x.bytes[..BLOCK_HEADER_SIZE]);
    ReadWithin(files[p.shard], p.offset, x.bytes, 0, BLOCK_HEADER_SIZE);
    ReadWithin(files[p.shard], p.offset, x.bytes, BLOCK_HEADER_SIZE + hd.bucketCount * KEY_BUCKET_SIZE, hd.columnSize);
  }

  ghost predicate AllAt(c: Config, files: seq<seq<byte>>, places: map<Row, Location>) {
    forall r :: r in places ==> RowIsAt(c, files, r, places[r])
  }

  lemma NowhereAt(c: Config, files: seq<seq<byte>>)
    ensures AllAt(c, files, map[])
  {
  }

  lemma AllAtMore(c: Config, files: seq<seq<byte>>, places: map<Row, Location>, r: Row, p: Location)
    requires AllAt(c, files, places) && RowIsAt(c, files, r, p)
    ensures AllAt(c, files, places[r := p])
  {
  }

  lemma BucketsPlace(c: Config, owner: seq<Option<Row>>, places: map<Row, Location>, r: Row, p: Location)
    requires RowTable(c, owner, places)
    ensures var i := Find(owner, c.RowHome(), r);
      i < |owner| && BucketsOf(c, Place(owner, c.RowHome(), r), places[r := p]) == BucketsOf(c, owner, places)[i := BucketFor(c, r, p)]
  {
    OccupiedRoom(owner);
    FindIsLookup(owner, c.RowHome(), r);
  }

  lemma BucketsMove(c: Config, owner: seq<Option<Row>>, places: map<Row, Location>, r: Row)
    requires |owner| > 0 && Chained(owner, c.RowHome()) && HasRoom(owner)
    ensures var i := Find(owner, c.RowHome(), r);
      i < |owner| && BucketsOf(c, Place(owner, c.RowHome(), r), places)
                     == BucketsOf(c, owner, places)[i := BucketOf(c, Some(r), places)]
  {
    FindIsLookup(owner, c.RowHome(), r);
  }

  lemma RowPlace(c: Config, owner: seq<Option<Row>>, places: map<Row, Location>, r: Row, p: Location)
    requires RowTable(c, owner, places) && Occupied(owner) + 1 < |owner|
    ensures RowTable(c, Place(owner, c.RowHome(), r), places[r := p])
    ensures Occupied(Place(owner, c.RowHome(), r)) == Occupied(owner) + (if r in places then 0 else 1)
  {
    hide Chained, Distinct;
    TablePlace(owner, c.RowHome(), places.Keys, r);
    assert places[r := p].Keys == places.Keys + {r};
  }

  lemma RowFacts(c: Config, owner: seq<Option<Row>>, places: map<Row, Location>)
    requires RowTable(c, owner, places)
    ensures |owner| > 0 && IsPowerOfTwo(|owner|) && Chained(owner, c.RowHome()) && HasRoom(owner)
    ensures Occupied(owner) == |places| < |owner|
    ensures forall r :: Probing.Holds(owner, r) <==> r in places
  {
    TableFacts(owner, c.RowHome(), places.Keys);
  }

  lemma NoRows(c: Config, n: nat)
    ensures RowTable(c, NoKeys(RoundUp(n)), map[]) && Occupied<Row>(NoKeys(RoundUp(n))) == 0
    ensures forall places :: BucketsOf(c, NoKeys(RoundUp(n)), places) == BucketsOf(c, NoKeys(RoundUp(n)), map[])
  {
    hide RoundUp;
    var none: map<Row, Location> := map[];
    Probing.EmptyTable(c.RowHome(), n);
    assert none.Keys == {};
    forall places ensures BucketsOf(c, NoKeys(RoundUp(n)), places) == BucketsOf(c, NoKeys(RoundUp(n)), map[]) {}
  }

  lemma HomeIs(c: Config, r: Row, n: nat)
    requires n > 0
    ensures Home(c.RowHome(), r, n) == Start(c.h.MixHashes(c.h.HashString(r.column), r.id), n)
  {
  }

  // ---- The log being scanned --------------------------------------------------------------

  /** A shard file: its header, then whole blocks. */
  ghost predicate IsLog(c: Config, file: seq<byte>, xs: seq<Extent>) {
    && |file| >= ROW_FILE_HEADER_SIZE && file[ROW_FILE_HEADER_SIZE..] == LogBytes(xs)
    && forall i :: 0 <= i < |xs| ==> BlockFacts(c, xs[i])
  }

  lemma {:induction false} LogBytesPrefix(xs: seq<Extent>, i: nat)
    requires i <= |xs|
    ensures LogBytes(xs[..i]) <= LogBytes(xs)
    decreases |xs| - i
  {
    if i == |xs| {
      assert xs[..i] == xs;
    } else {
      LogBytesPrefix(xs, i + 1);
      assert xs[..i + 1] == xs[..i] + [xs[i]];
      LogBytesAppend(xs[..i], xs[i]);
    }
  }

  lemma LogGoesOn(c: Config, file: seq<byte>, xs: seq<Extent>, i: nat)
    requires IsLog(c, file, xs) && i <= |xs| && ROW_FILE_HEADER_SIZE + |LogBytes(xs[..i])| < |file|
    ensures i < |xs| && BlockFacts(c, xs[i])
    ensures var offset := ROW_FILE_HEADER_SIZE + |LogBytes(xs[..i])|;
      BlockIsAt(file, offset, xs[i].bytes) && ROW_FILE_HEADER_SIZE + |LogBytes(xs[..i + 1])| == offset + |xs[i].bytes|
      && offset + |xs[i].bytes| <= |file|
    ensures xs[..i + 1] == xs[..i] + [xs[i]]
  {
    hide BlockFacts;
    assert xs[..|xs|] == xs;
    LogBytesPrefix(xs, i + 1);
    assert xs[..i + 1] == xs[..i] + [xs[i]];
    LogBytesAppend(xs[..i], xs[i]);
    BlockAtEnd(file, LogBytes(xs), LogBytes(xs[..i]), xs[i].bytes);
  }

  lemma BlockAtEnd(file: seq<byte>, all: seq<byte>, before: seq<byte>, bytes: seq<byte>)
    requires |file| >= ROW_FILE_HEADER_SIZE && file[ROW_FILE_HEADER_SIZE..] == all && before + bytes <= all
    ensures BlockIsAt(file, ROW_FILE_HEADER_SIZE + |before|, bytes)
  {
    var o := ROW_FILE_HEADER_SIZE + |before|;
    assert file[o..o + |bytes|] == all[|before|..|before| + |bytes|] == bytes;
  }

  lemma LogEnds(c: Config, file: seq<byte>, xs: seq<Extent>, i: nat)
    requires IsLog(c, file, xs) && i <= |xs| && ROW_FILE_HEADER_SIZE + |LogBytes(xs[..i])| >= |file|
    ensures xs[..i] == xs
  {
    hide BlockFacts;
    if i < |xs| {
      BlockNotEmpty(c, xs[i]);
      LogBytesPrefix(xs, i + 1);
      assert xs[..i + 1] == xs[..i] + [xs[i]];
      LogBytesAppend(xs[..i], xs[i]);
      assert false;
    }
  }

  lemma BlockNotEmpty(c: Config, x: Extent)
    requires BlockFacts(c, x)
    ensures |x.bytes| > 0
  {
  }

  function FilledBucketCount(buckets: seq<RowBucket>): nat {
    if buckets == [] then 0
    else FilledBucketCount(buckets[..|buckets| - 1]) + (if buckets[|buckets| - 1].state == Filled then 1 else 0)
  }

  lemma {:induction false} FilledBucketsAreOccupied(c: Config, owner: seq<Option<Row>>, places: map<Row, Location>)
    ensures FilledBucketCount(BucketsOf(c, owner, places)) == Occupied(owner)
    ensures forall i :: 0 <= i < |owner| ==> BucketsOf(c, owner, places)[i].state != Writing
  {
    if owner != [] {
      var n := |owner| - 1;
      FilledBucketsAreOccupied(c, owner[..n], places);
      assert BucketsOf(c, owner, places)[..n] == BucketsOf(c, owner[..n], places);
      OccupiedAppend(owner[..n], owner[n]);
      assert owner == owner[..n] + [owner[n]];
    }
  }

  datatype FileHeader = FileHeader(magic: seq<byte>, version: nat, headerSize: nat, shardCount: nat)

  ghost predicate LayoutIsValid(header: FileHeader, shardCount: nat, fileSize: nat, buckets: seq<RowBucket>, itemCount: nat) {
    && header == FileHeader(ROW_INDEX_MAGIC, STORAGE_VERSION, ROW_INDEX_HEADER_SIZE, shardCount)
    && IsPowerOfTwo(|buckets|) && fileSize == ROW_INDEX_HEADER_SIZE + |buckets| * ROW_INDEX_BUCKET_SIZE
    && (forall i :: 0 <= i < |buckets| ==> buckets[i].state != Writing)
    && itemCount == FilledBucketCount(buckets) <= |buckets|
  }

  /** The append offsets that opening the row value files takes from their sizes. */
  function SizesOf(files: seq<seq<byte>>): seq<nat> { seq(|files|, i requires 0 <= i < |files| => |files[i]|) }

  ghost function FilledIndices(buckets: seq<RowBucket>): set<nat> { set i: nat | i < |buckets| && buckets[i].state == Filled }

  lemma {:induction false} FilledBucketCountIs(buckets: seq<RowBucket>)
    ensures FilledBucketCount(buckets) == |FilledIndices(buckets)|
  {
    if buckets != [] {
      var n := |buckets| - 1;
      FilledBucketCountIs(buckets[..n]);
      FilledIndicesAppend(buckets);
    }
  }

  lemma FilledIndicesAppend(buckets: seq<RowBucket>)
    requires buckets != []
    ensures var n := |buckets| - 1;
      |FilledIndices(buckets)| == |FilledIndices(buckets[..n])| + if buckets[n].state == Filled then 1 else 0
  {
    var n := |buckets| - 1;
    var before := FilledIndices(buckets[..n]);
    assert n !in before;
    assert FilledIndices(buckets) == if buckets[n].state == Filled then before + {n} else before;
  }

  /**
   What the checks refuse, one by one: any other magic, version, header size or
   shard count, a bucket count that is no power of two, any other file size, any
   Writing bucket, and any count but that of the Filled buckets.
   */
  lemma LayoutAccepts(header: FileHeader, shardCount: nat, fileSize: nat, buckets: seq<RowBucket>, itemCount: nat)
    ensures LayoutIsValid(header, shardCount, fileSize, buckets, itemCount) <==>
      && header.magic == [76, 85, 77, 82, 73, 48, 48, 50] && header.version == 1 && header.headerSize == 64 && header.shardCount == shardCount
      && IsPowerOfTwo(|buckets|) && fileSize == 64 * (1 + |buckets|)
      && (forall i :: 0 <= i < |buckets| ==> buckets[i].state == Empty || buckets[i].state == Filled)
      && itemCount == |FilledIndices(buckets)|
  {
    assert ROW_INDEX_MAGIC == [76, 85, 77, 82, 73, 48, 48, 50];
    FilledBucketCountIs(buckets);
    FilledFit(buckets);
  }

  lemma {:induction false} FilledFit(buckets: seq<RowBucket>)
    ensures FilledBucketCount(buckets) <= |buckets|
  {
    if buckets != [] { FilledFit(buckets[..|buckets| - 1]); }
  }

  // ---- How large a rebuilt index is -----------------------------------------------------------

  /** The bucket count after room was made for one more than these rows. */
  function SizeFor(f: real, items: nat, n: nat): (m: nat)
    requires n > 0
    ensures m > 0
  {
    if Over(f, items + 1, n) then RoundUp(2 * n) else n
  }

  lemma SizeForIs(f: real, items: nat, n: nat)
    requires n > 0
    ensures SizeFor(f, items, n) == if Over(f, items + 1, n) then RoundUp(2 * n) else n
  {
  }

  /** The bucket count after one more shard was scanned: room is made before every block, new row or not. */
  function ScanSize(f: real, m: map<Row, Location>, n: nat, shard: nat, xs: seq<Extent>): (k: nat)
    requires n > 0
    ensures k > 0
  {
    if xs == [] then n
    else
      var init := xs[..|xs| - 1];
      SizeFor(f, |Scan(m, shard, init)|, ScanSize(f, m, n, shard, init))
  }

  function ScanAllSize(f: real, n: nat, logs: seq<seq<Extent>>): (k: nat)
    requires n > 0
    ensures k > 0
  {
    if logs == [] then n
    else
      var init := logs[..|logs| - 1];
      ScanSize(f, ScanAll(init), ScanAllSize(f, n, init), |init|, logs[|init|])
  }

  lemma ScanSizeStarts(f: real, m: map<Row, Location>, n: nat, shard: nat, xs: seq<Extent>)
    requires n > 0
    ensures ScanSize(f, m, n, shard, xs[..0]) == n
  {
  }

  lemma ScanSizeStep(f: real, m: map<Row, Location>, n: nat, shard: nat, xs: seq<Extent>, i: nat)
    requires n > 0 && i < |xs|
    ensures ScanSize(f, m, n, shard, xs[..i + 1]) == SizeFor(f, |Scan(m, shard, xs[..i])|, ScanSize(f, m, n, shard, xs[..i]))
  {
    assert xs[..i + 1][..i] == xs[..i];
  }

  lemma ScanNoneSize(f: real, n: nat, logs: seq<seq<Extent>>)
    requires n > 0
    ensures ScanAllSize(f, n, logs[..0]) == n
  {
  }

  lemma ScanNextSize(f: real, n: nat, logs: seq<seq<Extent>>, k: nat)
    requires n > 0 && k < |logs|
    ensures ScanAllSize(f, n, logs[..k + 1]) == ScanSize(f, ScanAll(logs[..k]), ScanAllSize(f, n, logs[..k]), k, logs[k])
  {
    assert logs[..k + 1][..k] == logs[..k];
  }

  /** With no blocks to scan an index keeps the size it was created with. */
  lemma {:induction false} NoBlocksNoGrowth(f: real, n: nat, logs: seq<seq<Extent>>)
    requires n > 0 && forall k :: 0 <= k < |logs| ==> logs[k] == []
    ensures ScanAllSize(f, n, logs) == n && ScanAll(logs) == map[]
  {
    if logs != [] { NoBlocksNoGrowth(f, n, logs[..|logs| - 1]); }
  }

  /** The bucket count is a power of two no less than the one started with. */
  ghost predicate Sized(n: nat, m: nat) { IsPowerOfTwo(m) && m >= n }

  lemma SizeForGrows(f: real, items: nat, n: nat, m: nat)
    requires n > 0 && Sized(n, m) && m >= 16
    ensures Sized(n, SizeFor(f, items, m))
  {
    hide RoundUp, IsPowerOfTwo;
    RoundedIsPower(2 * m);
  }

  lemma {:induction false} ScanSizeGrows(f: real, m: map<Row, Location>, n: nat, shard: nat, xs: seq<Extent>)
    requires n >= 16 && IsPowerOfTwo(n)
    ensures Sized(n, ScanSize(f, m, n, shard, xs))
  {
    hide IsPowerOfTwo, SizeFor, Scan;
    if xs != [] {
      var init := xs[..|xs| - 1];
      ScanSizeGrows(f, m, n, shard, init);
      SizeForGrows(f, |Scan(m, shard, init)|, n, ScanSize(f, m, n, shard, init));
    }
  }

  lemma {:induction false} ScanAllSizeGrows(f: real, n: nat, logs: seq<seq<Extent>>)
    requires n >= 16 && IsPowerOfTwo(n)
    ensures Sized(n, ScanAllSize(f, n, logs))
  {
    hide IsPowerOfTwo, ScanSize;
    if logs != [] {
      var init := logs[..|logs| - 1];
      ScanAllSizeGrows(f, n, init);
      ScanSizeGrows(f, ScanAll(init), ScanAllSize(f, n, init), |init|, logs[|init|]);
    }
  }

  /** At most `f` of the buckets are taken. */
  predicate Within(f: real, items: nat, n: nat) { items as real <= f * n as real }

  /** The factor admits a row into `n` buckets, or into twice as many while there is none. */
  predicate Admits(f: real, items: nat, n: nat) { AdmitsOne(f, n) || (items == 0 && AdmitsOne(f, 2 * n)) }

  /** The factor admits a row into so many buckets. */
  predicate AdmitsOne(f: real, n: nat) { f * n as real >= 1.0 }

  lemma SizeForIsWithin(f: real, items: nat, n: nat, more: nat)
    requires f > 0.0 && n >= 16 && IsPowerOfTwo(n) && Within(f, items, n) && Admits(f, items, n) && more <= items + 1
    ensures Within(f, more, SizeFor(f, items, n)) && Admits(f, more, SizeFor(f, items, n))
  {
    hide IsPowerOfTwo, RoundUp;
    OverIsMore(f, items + 1, n);
    TwiceIsEnough(f, items, n);
    if Over(f, items + 1, n) { TwiceIsRounded(n); }
  }

  lemma TwiceIsEnough(f: real, items: nat, n: nat)
    requires f > 0.0 && n >= 16 && Within(f, items, n) && Admits(f, items, n)
    ensures Within(f, items + 1, 2 * n) && AdmitsOne(f, 2 * n)
    ensures Within(f, items + 1, n) ==> AdmitsOne(f, n)
  {
    var m := n as real;
    assert f * (2.0 * m) == f * m + f * m;
    assert (2 * n) as real == 2.0 * m;
  }

  lemma {:induction false} ScanIsWithin(f: real, m: map<Row, Location>, n: nat, shard: nat, xs: seq<Extent>)
    requires f > 0.0 && n >= 16 && IsPowerOfTwo(n) && Within(f, |m|, n) && Admits(f, |m|, n)
    ensures var k, size := |Scan(m, shard, xs)|, ScanSize(f, m, n, shard, xs); Within(f, k, size) && Admits(f, k, size)
  {
    hide IsPowerOfTwo, Within, Admits, SizeFor, LogBytes;
    if xs != [] {
      var init, x := xs[..|xs| - 1], xs[|xs| - 1];
      ScanIsWithin(f, m, n, shard, init);
      ScanSizeGrows(f, m, n, shard, init);
      var before := Scan(m, shard, init);
      OneMoreRow(before, x.row, Location(shard, ROW_FILE_HEADER_SIZE + |LogBytes(init)|, |x.bytes|, x.sequence));
      SizeForIsWithin(f, |before|, ScanSize(f, m, n, shard, init), |Scan(m, shard, xs)|);
    }
  }

  lemma OneMoreRow(m: map<Row, Location>, r: Row, p: Location)
    ensures |m[r := p]| <= |m| + 1
  {
    assert m[r := p].Keys == m.Keys + {r};
    assert |m.Keys + {r}| <= |m.Keys| + 1 by { if r in m.Keys { assert m.Keys + {r} == m.Keys; } }
  }

  lemma {:induction false} AllIsWithin(f: real, n: nat, logs: seq<seq<Extent>>)
    requires f > 0.0 && n >= 16 && IsPowerOfTwo(n) && AdmitsOne(f, 2 * n)
    ensures var k, size := |ScanAll(logs)|, ScanAllSize(f, n, logs); Within(f, k, size) && Admits(f, k, size)
  {
    hide IsPowerOfTwo, ScanSize, Scan;
    if logs != [] {
      var init := logs[..|logs| - 1];
      AllIsWithin(f, n, init);
      ScanAllSizeGrows(f, n, init);
      ScanIsWithin(f, ScanAll(init), ScanAllSize(f, n, init), |init|, logs[|init|]);
    }
  }

  /** One block is too many for a factor that admits no row into twice the buckets. */
  lemma OneBlockIsOver(f: real, n: nat, x: Extent)
    requires f > 0.0 && n >= 16 && IsPowerOfTwo(n) && !AdmitsOne(f, 2 * n)
    ensures |ScanAll([[x]])| == 1 && !Within(f, 1, ScanAllSize(f, n, [[x]]))
  {
    hide *;
    OneBlockSize(f, n, x);
    TwiceIsRounded(n);
    NotEnough(f, n, 2 * n);
    NotWithin(f, 2 * n);
    SizeForIs(f, 0, n);
  }

  lemma OneBlockSize(f: real, n: nat, x: Extent)
    requires n > 0
    ensures |ScanAll([[x]])| == 1 && ScanAllSize(f, n, [[x]]) == SizeFor(f, 0, n)
  {
    hide SizeFor, LogBytes;
    var none: map<Row, Location> := map[];
    assert [[x]][..0] == [] && [x][..0] == [];
    assert ScanAllSize(f, n, []) == n && ScanAll([]) == none && Scan(none, 0, []) == none;
    assert ScanSize(f, none, n, 0, []) == n && |none| == 0;
    assert |Scan(none, 0, [x])| == 1;
  }

  lemma NotEnough(f: real, n: nat, m: nat)
    requires f > 0.0 && 0 < n < m && !AdmitsOne(f, m)
    ensures Over(f, 1, n)
  {
    hide Over, AdmitsOne;
    AdmitsNone(f, m);
    FewerAdmitLess(f, n, m);
    OverIsNow(f, n);
  }

  lemma AdmitsNone(f: real, n: nat)
    requires !AdmitsOne(f, n)
    ensures f * n as real < 1.0
  {
  }

  lemma FewerAdmitLess(f: real, n: nat, m: nat)
    requires f > 0.0 && 0 < n < m && f * m as real < 1.0
    ensures f * n as real < 1.0
  {
    LessIsOver(f, n as real, m as real);
  }

  lemma OverIsNow(f: real, n: nat)
    requires n > 0 && f * n as real < 1.0
    ensures Over(f, 1, n)
  {
    hide Over;
    OverIsMore(f, 1, n);
  }

  lemma NotWithin(f: real, n: nat)
    requires !AdmitsOne(f, n)
    ensures !Within(f, 1, n)
  {
  }

  lemma LessIsOver(f: real, a: real, b: real)
    requires f > 0.0 && a < b && f * b < 1.0
    ensures f * a < 1.0
  {
    Scaled(a, b, f);
    LessThan(f * a, f * b, 1.0);
  }

  lemma LessThan(x: real, y: real, z: real)
    requires x < y && y < z
    ensures x < z
  {
  }

  /**
   A rebuilt index is within the load factor that the live writers check, whatever
   blocks were scanned, if and only if the factor admits a row into twice the
   buckets that the index was created with: a rebuild doubles at most once a block.
   */
  lemma RebuiltIsWithin(f: real, n: nat)
    requires f > 0.0 && n >= 16 && IsPowerOfTwo(n)
    ensures (forall logs {:trigger ScanAll(logs)} :: Within(f, |ScanAll(logs)|, ScanAllSize(f, n, logs))) <==> AdmitsOne(f, 2 * n)
  {
    hide IsPowerOfTwo, Within, ScanAll, ScanAllSize, AdmitsOne;
    if AdmitsOne(f, 2 * n) {
      forall logs ensures Within(f, |ScanAll(logs)|, ScanAllSize(f, n, logs)) { AllIsWithin(f, n, logs); }
    } else {
      var x := Extent(Row([], 0), [], 0, 0, 0, [], 0, Claimed);
      OneBlockIsOver(f, n, x);
    }
  }

  /** Some block of the logs has the sequence before this one. */
  ghost predicate ComesAfter(next: nat, logs: seq<seq<Extent>>) {
    exists k :: 0 <= k < |logs| && NextOf(next, logs[k])
  }

  /** No block has this sequence or a higher one, but for the last word, after which the count wraps. */
  ghost predicate AboveAll(next: nat, logs: seq<seq<Extent>>) {
    forall k, i :: 0 <= k < |logs| && 0 <= i < |logs[k]| && logs[k][i].sequence + 1 < TWO64 ==> next > logs[k][i].sequence
  }

  lemma IsAboveAll(next: nat, logs: seq<seq<Extent>>)
    requires forall k, i :: 0 <= k < |logs| && 0 <= i < |logs[k]| && logs[k][i].sequence + 1 < TWO64 ==> next > logs[k][i].sequence
    ensures AboveAll(next, logs)
  {
  }

  ghost predicate NextOf(next: nat, xs: seq<Extent>) {
    exists i :: 0 <= i < |xs| && next == WordAfter(xs[i].sequence)
  }

  /** The 64-bit word after this one. */
  function WordAfter(sequence: nat): nat { (sequence + 1) % TWO64 }

  lemma NextMore(next: nat, xs: seq<Extent>, i: nat)
    requires i < |xs|
    ensures NextOf(next, xs[..i]) ==> NextOf(next, xs[..i + 1])
    ensures NextOf(WordAfter(xs[i].sequence), xs[..i + 1])
  {
    if NextOf(next, xs[..i]) {
      var j :| 0 <= j < |xs[..i]| && next == WordAfter(xs[..i][j].sequence);
      assert xs[..i + 1][j] == xs[..i][j];
    }
    assert xs[..i + 1][i] == xs[i];
  }

  lemma ComesLater(before: nat, after: nat, logs: seq<seq<Extent>>, k: nat)
    requires k < |logs|
    requires (after == before || NextOf(after, logs[k])) && (before == 1 || ComesAfter(before, logs[..k]))
    ensures after == 1 || ComesAfter(after, logs[..k + 1])
  {
    hide NextOf;
    if after == before && before != 1 {
      var j :| 0 <= j < |logs[..k]| && NextOf(before, logs[..k][j]);
      assert logs[..k + 1][j] == logs[..k][j];
    }
    assert logs[..k + 1][k] == logs[k];
  }

  lemma SizesCount(files: seq<seq<byte>>)
    ensures |SizesOf(files)| == |files|
    ensures forall offsets: seq<nat> :: |offsets| == |files| && (forall k :: 0 <= k < |files| ==> offsets[k] == |files[k]|) ==> offsets == SizesOf(files)
  {
  }

  // ---- The index ------------------------------------------------------------------------------

  class Index {
    const c: Config
    const files: seq<seq<byte>>

    var buckets: array<RowBucket>
    var itemCount: nat
    var nextSequence: nat
    var appendOffsets: seq<nat>

    ghost var places: map<Row, Location>
    ghost var owner: seq<Option<Row>>

    ghost predicate Indexed()
      reads this`buckets, this`itemCount, this`places, this`owner, buckets
    {
      && c.Valid() && |files| == c.shardCount
      && |owner| == buckets.Length && RowTable(c, owner, places)
      && buckets[..] == BucketsOf(c, owner, places)
      && itemCount == Occupied(owner) && AllAt(c, files, places)
    }

    lemma IndexedFacts()
      requires Indexed()
      ensures c.Valid() && |files| == c.shardCount && |owner| == buckets.Length > 0
      ensures RowTable(c, owner, places) && itemCount == Occupied(owner) == |places| < |owner|
      ensures buckets[..] == BucketsOf(c, owner, places) && AllAt(c, files, places)
      ensures forall i :: 0 <= i < buckets.Length ==> (buckets[i].state == Empty <==> owner[i] == None)
    {
      RowFacts(c, owner, places);
      assert forall i :: 0 <= i < buckets.Length ==> buckets[i] == buckets[..][i];
    }

    lemma MakeIndexed()
      requires c.Valid() && |files| == c.shardCount && |owner| == buckets.Length && RowTable(c, owner, places)
      requires buckets[..] == BucketsOf(c, owner, places) && itemCount == Occupied(owner) && AllAt(c, files, places)
      ensures Indexed()
    {
    }

    /** An index over the row value files of a database, with an empty table. */
    constructor (c: Config, files: seq<seq<byte>>, initialRowBucketCount: nat)
      requires c.Valid() && |files| == c.shardCount
      ensures Indexed() && places == map[] && fresh(buckets) && buckets.Length == RoundUp(initialRowBucketCount)
      ensures this.c == c && this.files == files && itemCount == 0 && nextSequence == 1 && |appendOffsets| == c.shardCount
    {
      this.c, this.files := c, files;
      var count := RoundUp(initialRowBucketCount);
      buckets := new RowBucket[count](_ => NO_BUCKET);
      itemCount, nextSequence := 0, 1;
      appendOffsets := seq(c.shardCount, _ => 0);
      places := map[];
      owner := NoKeys(count);
      NoRows(c, initialRowBucketCount);
      new;
      assert buckets[..] == BucketsOf(this.c, owner, places);
    }

    /** An index file as it is mapped, before anything is known about it; the ghost parts say what it might hold. */
    constructor Mapped(c: Config, files: seq<seq<byte>>, buckets: seq<RowBucket>, itemCount: nat, nextSequence: nat,
                       ghost places: map<Row, Location>, ghost owner: seq<Option<Row>>)
      ensures this.c == c && this.files == files && fresh(this.buckets) && this.buckets[..] == buckets
      ensures this.itemCount == itemCount && this.nextSequence == nextSequence
      ensures this.appendOffsets == SizesOf(files) && this.places == places && this.owner == owner
    {
      this.c, this.files := c, files;
      this.buckets := new RowBucket[|buckets|](i requires 0 <= i < |buckets| => buckets[i]);
      this.itemCount, this.nextSequence := itemCount, nextSequence;
      this.appendOffsets := SizesOf(files);
      this.places, this.owner := places, owner;
      new;
      assert this.buckets[..] == buckets;
    }

    // ---- Lookup ---------------------------------------------------------------------------

    lemma BucketLeadsToRow(i: nat)
      requires Indexed() && i < buckets.Length && owner[i].Some?
      ensures var r := owner[i].value;
        r in places && buckets[i] == BucketFor(c, r, places[r]) && RowIsAt(c, files, r, places[r])
    {
      assert Probing.Holds(owner, owner[i].value);
      assert buckets[i] == buckets[..][i];
    }

    /** Reads the header and column a bucket points at and compares them with the row. */
    method RowBlockMatches(bucket: RowBucket, row: Row, ghost r: Row) returns (status: Status, matches: bool)
      requires RowIsAt(c, files, r, bucket.place) && bucket.rowId == r.id == row.id && bucket.columnHash == c.h.HashString(r.column)
      ensures status == Ok && (matches <==> r == row)
    {
      RowIsAtFacts(c, files, r, bucket.place);
      if bucket.place.shard >= |files| { return Corruption, false; }
      var b := PRead(files[bucket.place.shard], bucket.place.offset, BLOCK_HEADER_SIZE);
      if b == None { return Corruption, false; }
      var blockHeader := ParseBlockHeader(b.value);
      if !IsValidRowBlockHeader(blockHeader) || blockHeader.columnHash != bucket.columnHash
         || blockHeader.rowId != row.id || blockHeader.blockSize != bucket.place.size {
        return Corruption, false;
      }
      if blockHeader.columnSize != |row.column| { return Ok, false; }
      var storedColumn := StoredColumn(files, bucket.place, blockHeader);
      if storedColumn == None { return Corruption, false; }
      return Ok, storedColumn.value == row.column;
    }

    /** The bucket of a row, or the empty bucket where it would go. */
    method FindRowBucket(row: Row) returns (status: Status, index: nat, found: bool)
      requires Indexed()
      ensures status == Ok && index < buckets.Length && index == Find(owner, c.RowHome(), row)
      ensures found <==> row in places
    {
      hide *;
      IndexedFacts();
      var bucketCount := buckets.Length;
      var columnHash := c.h.HashString(row.column);
      var start := Start(c.h.MixHashes(columnHash, row.id), bucketCount);
      RowFacts(c, owner, places);
      HomeIs(c, row, bucketCount);
      FindIsLookup(owner, c.RowHome(), row);
      PassedNone(owner, row, start);
      index, found := 0, false;
      var probe := 0;
      while probe < bucketCount
        invariant 0 <= probe <= bucketCount
        invariant Passed(owner, row, start, probe)
      {
        MaskedAt(start, probe, bucketCount);
        index := Start(start + probe, bucketCount);
        var bucket := buckets[index];
        if bucket.state == Empty {
          FindIsFirst(owner, c.RowHome(), row, probe);
          return Ok, index, false;
        }
        BucketLeadsToRow(index);
        BucketFields(c, owner[index].value, places[owner[index].value]);
        if bucket.columnHash == columnHash && bucket.rowId == row.id {
          var matches;
          status, matches := RowBlockMatches(bucket, row, owner[index].value);
          if status != Ok { return status, index, false; }
          if matches {
            FindIsFirst(owner, c.RowHome(), row, probe);
            return Ok, index, true;
          }
        }
        PassedMore(owner, row, start, probe);
        probe := probe + 1;
      }
      PassedAll(owner, row, start);
      return Corruption, index, false;
    }

    // ---- Growing ----------------------------------------------------------------------------

    method CreateEmptyRowIndex(bucketCount: nat)
      modifies this`buckets, this`itemCount, this`nextSequence, this`owner
      ensures fresh(buckets) && buckets.Length == RoundUp(bucketCount) && itemCount == 0 && nextSequence == 1
      ensures owner == NoKeys(RoundUp(bucketCount)) && buckets[..] == BucketsOf(c, owner, map[])
    {
      var count := RoundUp(bucketCount);
      buckets := new RowBucket[count](_ => NO_BUCKET);
      itemCount, nextSequence := 0, 1;
      owner := NoKeys(count);
    }

    /** The first empty bucket from the row's start, which always exists while resizing. */
    method PlaceExistingRowBucket(bucket: RowBucket, ghost row: Row) returns (status: Status)
      requires |owner| == buckets.Length > 0 && IsPowerOfTwo(|owner|) && HasRoom(owner) && Chained(owner, c.RowHome())
      requires !Probing.Holds(owner, row) && bucket.columnHash == c.h.HashString(row.column) && bucket.rowId == row.id
      requires forall i :: 0 <= i < buckets.Length ==> (buckets[i].state == Empty <==> owner[i] == None)
      modifies buckets, `owner
      ensures status == Ok && owner == Place(old(owner), c.RowHome(), row)
      ensures Find(old(owner), c.RowHome(), row) < buckets.Length
      ensures buckets[..] == old(buckets[..])[Find(old(owner), c.RowHome(), row) := bucket]
    {
      hide Chained, Passed, Start;
      var bucketCount := buckets.Length;
      var start := Start(c.h.MixHashes(bucket.columnHash, bucket.rowId), bucketCount);
      HomeIs(c, row, bucketCount);
      FindIsLookup(owner, c.RowHome(), row);
      PassedNone(owner, row, start);
      var probe := 0;
      while probe < bucketCount
        invariant 0 <= probe <= bucketCount
        invariant owner == old(owner) && buckets[..] == old(buckets[..])
        invariant Passed(owner, row, start, probe)
      {
        MaskedAt(start, probe, bucketCount);
        var index := Start(start + probe, bucketCount);
        if buckets[index].state == Empty {
          FindIsFirst(owner, c.RowHome(), row, probe);
          PlaceIs(owner, c.RowHome(), row);
          buckets[index] := bucket;
          owner := owner[index := Some(row)];
          return Ok;
        }
        assert owner[index] in owner;
        PassedMore(owner, row, start, probe);
        probe := probe + 1;
      }
      PassedAll(owner, row, start);
      return Corruption;
    }

    method FilledBuckets() returns (filled: seq<RowBucket>)
      requires Indexed()
      ensures StandFor(c, filled, KeysIn(owner), places)
    {
      hide *;
      IndexedFacts();
      filled := [];
      KeysInStep(owner, 0);
      NoneStand(c, places);
      for i := 0 to buckets.Length
        invariant StandFor(c, filled, KeysIn(owner[..i]), places)
      {
        KeysInStep(owner, i);
        BucketAt(i);
        if buckets[i].state == Filled {
          StandForMore(c, filled, KeysIn(owner[..i]), places, owner[i].value);
          filled := filled + [buckets[i]];
        }
      }
    }

    lemma BucketAt(i: nat)
      requires Indexed() && i < buckets.Length
      ensures |owner| == buckets.Length && buckets[i] == BucketOf(c, owner[i], places)
      ensures buckets[i].state == Filled <==> owner[i].Some?
    {
      assert buckets[i] == buckets[..][i];
    }

    method MoveBuckets(oldBuckets: seq<RowBucket>, ghost rows: seq<Row>) returns (status: Status)
      requires |rows| < buckets.Length == |owner| && IsPowerOfTwo(|owner|)
      requires owner == NoKeys(|owner|) && itemCount == 0 && buckets[..] == BucketsOf(c, owner, places)
      requires forall a, b :: 0 <= a < b < |rows| ==> rows[a] != rows[b]
      requires StandFor(c, oldBuckets, rows, places)
      modifies buckets, this`itemCount, this`owner
      ensures status == Ok && itemCount == |rows|
      ensures |owner| == |old(owner)| && owner == PlaceAll(old(owner), c.RowHome(), rows)
      ensures buckets[..] == BucketsOf(c, owner, places)
    {
      hide *;
      ghost var none := owner;
      NothingPlaced(none, c.RowHome(), rows);
      StandForCount(c, oldBuckets, rows, places);
      var j := 0;
      while j < |oldBuckets|
        invariant 0 <= j <= |oldBuckets| && itemCount == j && |owner| == |none|
        invariant owner == PlaceAll(none, c.RowHome(), rows[..j])
        invariant buckets[..] == BucketsOf(c, owner, places)
      {
        MovesOne(|none|, c.RowHome(), rows, j);
        BucketsMove(c, owner, places, rows[j]);
        BucketsFilled(c, owner, places);
        StandForAt(c, oldBuckets, rows, places, j);
        assert forall i :: 0 <= i < buckets.Length ==> buckets[i] == buckets[..][i];
        status := PlaceExistingRowBucket(oldBuckets[j], rows[j]);
        if status != Ok { return; }
        itemCount := itemCount + 1;
        j := j + 1;
      }
      assert rows[..j] == rows;
      status := Ok;
    }

    lemma ResizedFacts(n: nat)
      requires Indexed() && Occupied(owner) < n
      ensures var r := Rehash(owner, c.RowHome(), RoundUp(n));
        RowTable(c, r, places) && Occupied(r) == Occupied(owner)
      ensures |KeysIn(owner)| == Occupied(owner) < RoundUp(n) && IsPowerOfTwo(RoundUp(n))
      ensures forall i, j :: 0 <= i < j < |KeysIn(owner)| ==> KeysIn(owner)[i] != KeysIn(owner)[j]
    {
      hide Chained, Distinct, RoundUp;
      ResizedTable(owner, c.RowHome(), places.Keys, n);
    }

    /** Every bucket is moved into a larger table; no row is lost and none moves in its file. */
    method ResizeRowIndex(newBucketCount: nat) returns (status: Status)
      requires Indexed() && Occupied(owner) < newBucketCount
      modifies this`buckets, this`itemCount, this`nextSequence, this`owner
      ensures status == Ok && Indexed() && fresh(buckets) && nextSequence == old(nextSequence)
      ensures buckets.Length == RoundUp(newBucketCount) && itemCount == old(itemCount)
    {
      hide *;
      ghost var rows := KeysIn(owner);
      ghost var table := owner;
      IndexedFacts();
      var oldBuckets := FilledBuckets();
      var bucketCount := RoundUp(newBucketCount);
      ResizedFacts(newBucketCount);
      RoundUpTwice(newBucketCount);
      NoRows(c, newBucketCount);
      var sequence := nextSequence;
      CreateEmptyRowIndex(bucketCount);
      nextSequence := sequence;
      status := MoveBuckets(oldBuckets, rows);
      RehashIs(table, c.RowHome(), bucketCount);
      MakeIndexed();
    }

    /** One doubling at most, exactly when one more row would be over the load factor; it always makes room for that row. */
    method EnsureRowCapacityForInsert() returns (status: Status)
      requires Indexed()
      modifies this`buckets, this`itemCount, this`nextSequence, this`owner
      ensures status == Ok && Indexed() && (buckets == old(buckets) || fresh(buckets)) && nextSequence == old(nextSequence)
      ensures itemCount == old(itemCount) && itemCount + 1 < buckets.Length
      ensures old(buckets.Length) > 0 && buckets.Length == SizeFor(c.f, old(itemCount), old(buckets.Length))
      ensures !Over(c.f, old(itemCount) + 1, old(buckets.Length)) ==> buckets == old(buckets) && unchanged(buckets)
      ensures Over(c.f, old(itemCount) + 1, old(buckets.Length)) && old(buckets.Length) >= 8 ==> buckets.Length == 2 * old(buckets.Length)
    {
      hide *;
      IndexedFacts();
      ConfigFacts(c);
      RowFacts(c, owner, places);
      SizeForIs(c.f, itemCount, buckets.Length);
      if buckets.Length >= 8 { TwiceIsRounded(buckets.Length); }
      if !Over(c.f, itemCount + 1, buckets.Length) {
        FitsHasRoom(c.f, itemCount + 1, buckets.Length);
        return Ok;
      }
      var count := buckets.Length * 2;
      status := ResizeRowIndex(count);
    }

    // ---- Rebuilding ----------------------------------------------------------------------------

    /** Sets the row's bucket to the block just scanned. */
    method SetBucket(row: Row, place: Location) returns (status: Status)
      requires Indexed() && itemCount + 1 < buckets.Length && RowIsAt(c, files, row, place)
      modifies buckets, this`itemCount, this`owner, this`places
      ensures status == Ok && Indexed() && places == old(places)[row := place] && buckets == old(buckets)
    {
      hide *;
      IndexedFacts();
      BucketsPlace(c, owner, places, row, place);
      RowPlace(c, owner, places, row, place);
      AllAtMore(c, files, places, row, place);
      BucketFields(c, row, place);
      var index, found;
      status, index, found := FindRowBucket(row);
      if status != Ok { return; }
      PlaceIs(owner, c.RowHome(), row);
      buckets[index] := RowBucket(Filled, c.h.HashString(row.column), row.id, place);
      owner := owner[index := Some(row)];
      if !found { itemCount := itemCount + 1; }
      places := places[row := place];
      MakeIndexed();
    }

    /**
     Scans one shard file.  A stored sequence of 2^64 - 1 wraps to 0 when one is
     added, so the next sequence is above every other stored one.
     */
    method RebuildShard(shardId: nat, ghost xs: seq<Extent>) returns (status: Status)
      requires Indexed() && shardId < |files| && IsLog(c, files[shardId], xs) && |appendOffsets| == |files|
      modifies this`buckets, this`itemCount, this`nextSequence, this`owner, this`places, this`appendOffsets, buckets
      ensures status == Ok && Indexed() && (buckets == old(buckets) || fresh(buckets))
      ensures places == Scan(old(places), shardId, xs)
      ensures old(buckets.Length) > 0 && buckets.Length == ScanSize(c.f, old(places), old(buckets.Length), shardId, xs)
      ensures nextSequence == old(nextSequence) || NextOf(nextSequence, xs)
      ensures appendOffsets == old(appendOffsets)[shardId := |files[shardId]|]
      ensures nextSequence >= old(nextSequence) && (old(nextSequence) < TWO64 ==> nextSequence < TWO64)
      ensures forall i :: 0 <= i < |xs| && xs[i].sequence + 1 < TWO64 ==> nextSequence > xs[i].sequence
    {
      hide *;
      var file := files[shardId];
      var fileSize := |file|;
      var offset := ROW_FILE_HEADER_SIZE;
      ghost var i := 0;
      ScanStarts(places, shardId, xs);
      IndexedFacts();
      ScanSizeStarts(c.f, places, buckets.Length, shardId, xs);
      while offset < fileSize
        invariant 0 <= i <= |xs| && offset == ROW_FILE_HEADER_SIZE + |LogBytes(xs[..i])|
        invariant Indexed() && (buckets == old(buckets) || fresh(buckets))
        invariant places == Scan(old(places), shardId, xs[..i]) && appendOffsets == old(appendOffsets)
        invariant old(buckets.Length) > 0 && buckets.Length == ScanSize(c.f, old(places), old(buckets.Length), shardId, xs[..i])
        invariant nextSequence == old(nextSequence) || NextOf(nextSequence, xs[..i])
        invariant nextSequence >= old(nextSequence) && (old(nextSequence) < TWO64 ==> nextSequence < TWO64)
        invariant forall j :: 0 <= j < i && xs[j].sequence + 1 < TWO64 ==> nextSequence > xs[j].sequence
        decreases |xs| - i
      {
        LogGoesOn(c, file, xs, i);
        ghost var x := xs[i];
        BlockIsRow(c, files, x, Location(shardId, offset, |x.bytes|, x.sequence));
        RowIsAtFacts(c, files, x.row, Location(shardId, offset, |x.bytes|, x.sequence));
        ScanAppend(old(places), shardId, xs[..i], x);
        ScanSizeStep(c.f, old(places), old(buckets.Length), shardId, xs, i);
        IndexedFacts();
        var b := PRead(file, offset, BLOCK_HEADER_SIZE);
        if b == None { return Corruption; }
        var blockHeader := ParseBlockHeader(b.value);
        if !IsValidRowBlockHeader(blockHeader) { return Corruption; }
        if blockHeader.blockSize > fileSize - offset { return Corruption; }
        var place := Location(shardId, offset, blockHeader.blockSize, blockHeader.sequence);
        SamePlaceColumn(files, place, Location(shardId, offset, |x.bytes|, x.sequence), blockHeader);
        var column := StoredColumn(files, place, blockHeader);
        if column == None { return Corruption; }
        status := EnsureRowCapacityForInsert();
        if status != Ok { return; }
        RowIs(x.row, column.value, blockHeader.rowId);
        status := SetBucket(Row(column.value, blockHeader.rowId), place);
        if status != Ok { return; }
        var next := (blockHeader.sequence + 1) % TWO64;
        NextIs(x.sequence, next);
        NextMore(nextSequence, xs, i);
        if next > nextSequence { nextSequence := next; }
        offset := offset + blockHeader.blockSize;
        i := i + 1;
      }
      LogEnds(c, file, xs, i);
      appendOffsets := appendOffsets[shardId := fileSize];
      status := Ok;
    }

    /** Scans every shard in order; afterwards the index holds each row's last block in scan order. */
    method RebuildRowIndexFromValues(ghost logs: seq<seq<Extent>>) returns (status: Status)
      requires Indexed() && places == map[] && |logs| == |files| == |appendOffsets|
      requires forall k :: 0 <= k < |files| ==> IsLog(c, files[k], logs[k])
      modifies this`buckets, this`itemCount, this`nextSequence, this`owner, this`places, this`appendOffsets, buckets
      ensures status == Ok && Indexed() && places == ScanAll(logs) && itemCount == |places|
      ensures |appendOffsets| == |files| && forall k :: 0 <= k < |files| ==> appendOffsets[k] == |files[k]|
      ensures (buckets == old(buckets) || fresh(buckets)) && 1 <= nextSequence < TWO64
      ensures forall k, i :: 0 <= k < |logs| && 0 <= i < |logs[k]| && logs[k][i].sequence + 1 < TWO64 ==> nextSequence > logs[k][i].sequence
      ensures nextSequence == 1 || ComesAfter(nextSequence, logs)
      ensures old(buckets.Length) > 0 && buckets.Length == ScanAllSize(c.f, old(buckets.Length), logs)
    {
      hide *;
      nextSequence := 1;
      var shardId := 0;
      ScanNone(logs);
      IndexedFacts();
      ScanNoneSize(c.f, buckets.Length, logs);
      WordsHoldOne();
      while shardId < |files|
        invariant 0 <= shardId <= |files| && |appendOffsets| == |files|
        invariant Indexed() && (buckets == old(buckets) || fresh(buckets))
        invariant places == ScanAll(logs[..shardId])
        invariant forall k :: 0 <= k < shardId ==> appendOffsets[k] == |files[k]|
        invariant old(buckets.Length) > 0 && buckets.Length == ScanAllSize(c.f, old(buckets.Length), logs[..shardId])
        invariant nextSequence == 1 || ComesAfter(nextSequence, logs[..shardId])
        invariant 1 <= nextSequence < TWO64
        invariant forall k, i :: 0 <= k < shardId && 0 <= i < |logs[k]| && logs[k][i].sequence + 1 < TWO64 ==> nextSequence > logs[k][i].sequence
      {
        ScanNext(logs, shardId);
        ScanNextSize(c.f, old(buckets.Length), logs, shardId);
        ghost var before := nextSequence;
        status := RebuildShard(shardId, logs[shardId]);
        ComesLater(before, nextSequence, logs, shardId);
        if status != Ok { return; }
        shardId := shardId + 1;
      }
      assert logs[..shardId] == logs;
      IndexedFacts();
      status := Ok;
    }

    // ---- The checks on an index file --------------------------------------------------------------

    method HasValidRowIndexLayout(header: FileHeader, fileSize: nat) returns (valid: bool)
      ensures valid <==> LayoutIsValid(header, c.shardCount, fileSize, buckets[..], itemCount)
    {
      if fileSize < ROW_INDEX_HEADER_SIZE { return false; }
      if header.magic != ROW_INDEX_MAGIC || header.version != STORAGE_VERSION || header.headerSize != ROW_INDEX_HEADER_SIZE {
        return false;
      }
      PowerTestIsExact(buckets.Length);
      if header.shardCount != c.shardCount || buckets.Length == 0 || And(buckets.Length, buckets.Length - 1) != 0 {
        return false;
      }
      var expectedSize := ROW_INDEX_HEADER_SIZE + buckets.Length * ROW_INDEX_BUCKET_SIZE;
      if expectedSize != fileSize || itemCount > buckets.Length { return false; }
      var filledCount := 0;
      for i := 0 to buckets.Length
        invariant filledCount == FilledBucketCount(buckets[..i])
        invariant forall j :: 0 <= j < i ==> buckets[j].state != Writing
      {
        assert buckets[..i + 1][..i] == buckets[..i];
        assert buckets[..][i] == buckets[i];
        if buckets[i].state == Filled {
          filledCount := filledCount + 1;
          continue;
        }
        if buckets[i].state != Empty { return false; }
      }
      assert buckets[..buckets.Length] == buckets[..];
      return filledCount == itemCount;
    }

    /** A rebuilt or resized index is accepted when it is opened again. */
    lemma ClosedLayoutIsValid()
      requires Indexed()
      ensures LayoutIsValid(FileHeader(ROW_INDEX_MAGIC, STORAGE_VERSION, ROW_INDEX_HEADER_SIZE, c.shardCount), c.shardCount,
                            ROW_INDEX_HEADER_SIZE + buckets.Length * ROW_INDEX_BUCKET_SIZE, buckets[..], itemCount)
    {
      hide Chained, Distinct, AllAt;
      FilledBucketsAreOccupied(c, owner, places);
    }

    /**
     Opens the row index: an index file that passes the checks is kept as it is,
     any other is created anew and rebuilt.  Either way the index holds each row's
     last block in scan order, and opening what was closed changes nothing in it.
     An index created anew starts at the configured size, rounded up.
     */
    method OpenRowIndexFile(header: FileHeader, fileSize: nat, initialRowBucketCount: nat, ghost logs: seq<seq<Extent>>) returns (status: Status)
      requires c.Valid() && |logs| == |files| == |appendOffsets| == c.shardCount
      requires forall k :: 0 <= k < |files| ==> IsLog(c, files[k], logs[k])
      requires fileSize != 0 && LayoutIsValid(header, c.shardCount, fileSize, buckets[..], itemCount) ==> Indexed() && places == ScanAll(logs)
      modifies this`buckets, this`itemCount, this`nextSequence, this`owner, this`places, this`appendOffsets, buckets
      ensures status == Ok && Indexed() && places == ScanAll(logs) && itemCount == |places|
      ensures fileSize != 0 && old(LayoutIsValid(header, c.shardCount, fileSize, buckets[..], itemCount)) ==>
        unchanged(this) && unchanged(buckets)
      ensures old(appendOffsets) == SizesOf(files) ==> appendOffsets == SizesOf(files)
      ensures !(fileSize != 0 && old(LayoutIsValid(header, c.shardCount, fileSize, buckets[..], itemCount))) ==>
        fresh(buckets) && buckets.Length == ScanAllSize(c.f, RoundUp(initialRowBucketCount), logs)
        && 1 <= nextSequence < TWO64 && (nextSequence == 1 || ComesAfter(nextSequence, logs)) && AboveAll(nextSequence, logs)
    {
      hide *;
      RoundedIsPower(initialRowBucketCount);
      if fileSize != 0 {
        var valid := HasValidRowIndexLayout(header, fileSize);
        if valid {
          IndexedFacts();
          return Ok;
        }
      }
      CreateEmptyRowIndex(initialRowBucketCount);
      places := map[];
      NoRows(c, initialRowBucketCount);
      NowhereAt(c, files);
      MakeIndexed();
      status := RebuildRowIndexFromValues(logs);
      IsAboveAll(nextSequence, logs);
      SizesCount(files);
    }
  }

  lemma ConfigFacts(c: Config)
    requires c.Valid()
    ensures 0.0 < c.f < 1.0
  {
  }

  lemma BucketFields(c: Config, r: Row, p: Location)
    ensures BucketFor(c, r, p) == RowBucket(Filled, c.h.HashString(r.column), r.id, p)
  {
  }

  lemma ScanStarts(m: map<Row, Location>, shard: nat, xs: seq<Extent>)
    ensures xs[..0] == [] && Scan(m, shard, xs[..0]) == m && |LogBytes(xs[..0])| == 0
  {
  }

  lemma ScanNone(logs: seq<seq<Extent>>)
    ensures ScanAll(logs[..0]) == map[]
  {
  }

  lemma ScanNext(logs: seq<seq<Extent>>, k: nat)
    requires k < |logs|
    ensures ScanAll(logs[..k + 1]) == Scan(ScanAll(logs[..k]), k, logs[k])
  {
    assert logs[..k + 1][..k] == logs[..k];
  }

  lemma SamePlaceColumn(files: seq<seq<byte>>, p: Location, q: Location, hd: BlockHeader)
    requires p.shard == q.shard && p.offset == q.offset
    ensures StoredColumn(files, p, hd) == StoredColumn(files, q, hd)
  {
  }

  lemma RowIs(r: Row, column: seq<byte>, id: nat)
    requires r.column == column && r.id == id
    ensures Row(column, id) == r
  {
  }

  lemma WordsHoldOne()
    ensures 1 < TWO64
  {
  }

  lemma NextIs(sequence: nat, next: nat)
    requires next == (sequence + 1) % TWO64
    ensures next == WordAfter(sequence)
    ensures next < TWO64 && (sequence + 1 < TWO64 ==> next == sequence + 1)
  {
  }
}
