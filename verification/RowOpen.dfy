/**
 Opening the row index file that a run has left: the buckets in it are exactly a
 table of the live rows, so the file is kept, and any other file is rebuilt into
 one of the same rows.
 */
module RowOpen {
  import opened Wrappers
  import opened Words
  import opened Bytes
  import opened Probing
  import opened RowBlock
  import opened RowBlockRead
  import opened RowProtocol
  import opened RowProtocolInv
  import opened RowProtocolSteps
  import opened RowProtocolResults
  import opened RowAdmission
  import opened RowSerial
  import opened RowAtomic
  import opened RowOrder
  import opened RowQuiescent
  import opened RowScan
  import opened RowIndex
  import opened RowReopen

  // ---- Empty buckets ------------------------------------------------------------------------

  /** A bucket that no thread has claimed still holds the zero words it was created with. */
  ghost predicate Blank(s: State) {
    forall i :: 0 <= i < |s.slots| && s.slots[i].state == Empty ==> s.slots[i].fields == EMPTY_SLOT.fields
  }

  lemma FreshIsBlank(c: Config, initialRowBucketCount: nat, threads: nat, header: seq<byte>)
    requires c.Valid()
    ensures Blank(Fresh(c, initialRowBucketCount, threads, header))
  {
  }

  /** A step leaves an Empty bucket only where it has changed nothing. */
  lemma EmptyIsUnchanged(c: Config, s: State, s': State, t: nat, i: nat)
    requires Inv(c, s) && Step(c, s, s', t) && i < |s.slots| == |s'.slots| && s'.slots[i].state == Empty
    ensures s'.slots[i] == s.slots[i]
  {
    hide ExtentsOk, Ordered, BlocksOk, FilesOk, SlotsOk, IndexOk, TableOk, CountsOk, Step, SlotAt;
    if s'.slots[i] != s.slots[i] {
      StepHasThread(c, s, s', t);
      SlotSteps(c, s, s', t, i);
      SlotChanges(c, s, s', t, i);
      if s.threads[t].pc.StoreField? { StorerHolds(c, s, t); }
    }
  }

  lemma StorerHolds(c: Config, s: State, t: nat)
    requires Inv(c, s) && t < |s.threads| && s.threads[t].pc.StoreField?
    ensures var th := s.threads[t]; th.pc.p < |s.slots| && s.slots[SlotAt(c, s, th.op.row, th.pc.p)].state == Writing
  {
    assert ThreadOk(c, s, t);
  }

  lemma StepKeepsBlank(c: Config, s: State, s': State, t: nat)
    requires Inv(c, s) && Step(c, s, s', t) && Blank(s)
    ensures Blank(s')
  {
    hide Inv, Step;
    InvSizes(c, s);
    StepExtends(c, s, s', t);
    forall i | 0 <= i < |s'.slots| && s'.slots[i].state == Empty ensures s'.slots[i].fields == EMPTY_SLOT.fields {
      EmptyIsUnchanged(c, s, s', t, i);
    }
  }

  lemma {:induction false} BlankThroughout(c: Config, states: seq<State>, who: seq<nat>, i: nat)
    requires Run(c, states, who) && Inv(c, states[0]) && Blank(states[0]) && i < |states|
    ensures Blank(states[i])
  {
    hide Inv, Step, Blank;
    if i > 0 {
      BlankThroughout(c, states, who, i - 1);
      RunKeepsInvariant(c, states, who, i - 1);
      StepKeepsBlank(c, states[i - 1], states[i], who[i - 1]);
    }
  }

  // ---- The buckets of a quiescent state --------------------------------------------------------

  /** With nothing in flight the claimed buckets are a probe table of the live rows. */
  lemma LiveTable(c: Config, s: State)
    requires Inv(c, s) && AllIdle(s) && IsPowerOfTwo(|s.slots|) && HasRoom(s.owner)
    ensures IndexInRange(s) && RowTable(c, s.owner, LivePlaces(s))
  {
    hide Inv, AllIdle, IsPowerOfTwo, Chained, Distinct;
    AbsDefined(c, s);
    InvSizes(c, s);
    InvTable(c, s);
    IdleRows(c, s);
    OccupiedRoom(s.owner);
    assert LivePlaces(s).Keys == s.index.Keys;
  }

  lemma InvTable(c: Config, s: State)
    requires Inv(c, s)
    ensures Chained(s.owner, c.RowHome()) && Distinct(s.owner)
  {
  }

  lemma LiveBucket(c: Config, s: State, i: nat)
    requires Inv(c, s) && AllIdle(s) && Blank(s) && IndexInRange(s) && i < |s.slots|
    ensures |s.slots[i].fields| == FIELDS && i < |s.owner| && SlotBucket(s.slots[i]) == BucketOf(c, s.owner[i], LivePlaces(s))
  {
    hide ExtentsOk, Ordered, BlocksOk, FilesOk, IndexOk, TableOk, ThreadsOk, CountsOk;
    IdleBuckets(c, s, i);
    assert SlotOk(c, s, i);
    if s.owner[i].Some? {
      var r := s.owner[i].value;
      LivePub(c, s, r);
      assert SnapOk(c, s, i, Snap(s.slots[i].fields, s.slots[i].src));
      SettledWords(c, s, i, s.index[r].ext);
    }
  }

  lemma SettledWords(c: Config, s: State, i: nat, e: nat)
    requires c.Valid() && Shape(c, s) && i < |s.slots| && e < |s.extents|
    requires SnapOk(c, s, i, Snap(s.slots[i].fields, s.slots[i].src))
    requires forall k :: 0 <= k < FIELDS ==> s.slots[i].src[k] == e
    ensures forall k :: 0 <= k < FIELDS ==> s.slots[i].fields[k] == FieldOf(c, s.extents[e], k)
  {
    var snap := Snap(s.slots[i].fields, s.slots[i].src);
    forall k | 0 <= k < FIELDS ensures s.slots[i].fields[k] == FieldOf(c, s.extents[e], k) {
      assert Good(s, snap.src[k], s.owner[i].value) && snap.fields[k] == FieldOf(c, s.extents[snap.src[k]], k);
    }
  }

  /** The bucket array in the mapped file is the array that the table of live rows asks for. */
  lemma BucketsAreLive(c: Config, s: State)
    requires Inv(c, s) && AllIdle(s) && Blank(s) && IndexInRange(s)
    ensures Shape(c, s) && Buckets(s) == BucketsOf(c, s.owner, LivePlaces(s))
  {
    hide Inv, AllIdle, Blank, SlotBucket, BucketOf, LivePlaces;
    InvSizes(c, s);
    forall i | 0 <= i < |s.slots| ensures Buckets(s)[i] == BucketsOf(c, s.owner, LivePlaces(s))[i] { LiveBucket(c, s, i); }
  }

  lemma LiveRowIsAt(c: Config, s: State, r: Row)
    requires Inv(c, s) && IndexInRange(s) && r in s.index
    ensures RowIsAt(c, s.files, r, LivePlaces(s)[r])
  {
    hide Ordered, FilesOk, SlotsOk, TableOk, ThreadsOk, CountsOk, IsBlock, InFile, BlockIsAt, BlockFacts, RowIsAt;
    assert PubOk(s, r, s.index[r]);
    var x := s.extents[s.index[r].ext];
    assert IsBlock(c, x) && ExtentOk(c, s, s.index[r].ext);
    ReadsExtent(s.files[x.shard], x);
    BlocksHaveFacts(c, x);
    BlockIsRow(c, s.files, x, LivePlaces(s)[r]);
  }

  lemma AllLiveAt(c: Config, s: State)
    requires Inv(c, s) && IndexInRange(s)
    ensures AllAt(c, s.files, LivePlaces(s))
  {
    hide Inv, RowIsAt;
    forall r | r in LivePlaces(s) ensures RowIsAt(c, s.files, r, LivePlaces(s)[r]) { LiveRowIsAt(c, s, r); }
  }

  /** The shard files of the state as logs, and what their scan gives. */
  lemma LiveLogs(c: Config, s: State)
    requires Inv(c, s) && LogOk(s) && AllIdle(s) && AllPublished(s)
    ensures c.Valid() && |s.files| == c.shardCount == |Logs(s.extents, c.shardCount)| && SizesOf(s.files) == s.append
    ensures forall k :: 0 <= k < |s.files| ==> IsLog(c, s.files[k], Logs(s.extents, c.shardCount)[k])
    ensures IndexInRange(s) && ScanAll(Logs(s.extents, c.shardCount)) == LivePlaces(s)
  {
    hide *;
    QuiescentShape(c, s);
    forall k | 0 <= k < |s.files| ensures IsLog(c, s.files[k], Logs(s.extents, c.shardCount)[k]) { QuiescentLogs(c, s, k); }
    OffsetsRestored(c, s);
    SizesAre(s);
    ScanIsLive(c, s);
  }

  lemma SizesAre(s: State)
    ensures FileSizes(s) == SizesOf(s.files)
  {
  }

  // ---- Opening ---------------------------------------------------------------------------------

  /** A state in which the database may be closed: nothing in flight, no write failed, and a bucket left. */
  ghost predicate Closable(c: Config, s: State) {
    Inv(c, s) && LogOk(s) && Blank(s) && AllIdle(s) && AllPublished(s) && IsPowerOfTwo(|s.slots|) && HasRoom(s.owner)
  }

  lemma ClosableIs(c: Config, s: State)
    requires Closable(c, s)
    ensures Inv(c, s) && LogOk(s) && Blank(s) && AllIdle(s) && AllPublished(s) && IsPowerOfTwo(|s.slots|) && HasRoom(s.owner)
  {
  }

  /** Every database that was created and used, with the writes of a row kept apart, is closable once it is quiet. */
  lemma UsedIsClosable(c: Config, initialRowBucketCount: nat, threads: nat, header: seq<byte>, states: seq<State>, who: seq<nat>, i: nat)
    requires c.Valid() && |header| == ROW_FILE_HEADER_SIZE && SerialisedRun(c, states, who, WritesOnly) && i < |states|
    requires states[0] == Fresh(c, initialRowBucketCount, threads, header)
    requires AllIdle(states[i]) && AllPublished(states[i]) && HasRoom(states[i].owner)
    ensures Closable(c, states[i])
  {
    hide *;
    SerialisedIsRun(c, states, who);
    FreshIsReady(c, initialRowBucketCount, threads, header, AllCalls);
    FreshIsBlank(c, initialRowBucketCount, threads, header);
    LogOkThroughout(c, states, who, i);
    BlankThroughout(c, states, who, i);
    RunKeepsSize(c, states, who, i);
    MakeClosable(c, states[i]);
  }

  lemma MakeClosable(c: Config, s: State)
    requires Inv(c, s) && LogOk(s) && Blank(s) && AllIdle(s) && AllPublished(s) && IsPowerOfTwo(|s.slots|) && HasRoom(s.owner)
    ensures Closable(c, s)
  {
  }

  lemma SerialisedIsRun(c: Config, states: seq<State>, who: seq<nat>)
    requires SerialisedRun(c, states, who, WritesOnly)
    ensures Run(c, states, who)
  {
  }

  /**
   Opening the files that a closed database left, whatever header and size its
   index file is found with: the index holds the live rows at the live places with
   the live count and offsets, and a file that passes the checks is kept bucket
   for bucket.
   */
  method OpenAfterRun(c: Config, ghost s: State, files: seq<seq<byte>>, buckets: seq<RowBucket>, itemCount: nat, nextSequence: nat,
                      header: FileHeader, fileSize: nat, initialRowBucketCount: nat) returns (status: Status, index: Index)
    requires Closable(c, s) && files == s.files && itemCount == s.itemCount && nextSequence == s.nextSequence
    requires Shape(c, s) && buckets == Buckets(s)
    ensures status == Ok && index.Indexed() && IndexInRange(s) && index.c == c && index.files == files && fresh(index)
    ensures index.places == LivePlaces(s) && index.itemCount == s.itemCount && index.appendOffsets == s.append
    ensures fileSize != 0 && LayoutIsValid(header, c.shardCount, fileSize, buckets, itemCount) ==>
      index.buckets[..] == buckets && index.nextSequence == nextSequence
    ensures !(fileSize != 0 && LayoutIsValid(header, c.shardCount, fileSize, buckets, itemCount)) ==>
      index.buckets.Length == ScanAllSize(c.f, RoundUp(initialRowBucketCount), Logs(s.extents, c.shardCount))
      && 1 <= index.nextSequence < TWO64 && AboveAll(index.nextSequence, Logs(s.extents, c.shardCount))
      && (index.nextSequence == 1 || ComesAfter(index.nextSequence, Logs(s.extents, c.shardCount)))
  {
    hide *;
    ClosableIs(c, s);
    LiveLogs(c, s);
    LiveTable(c, s);
    BucketsAreLive(c, s);
    AllLiveAt(c, s);
    LiveCount(c, s);
    QuiescentIsClean(c, s);
    SizesCount(files);
    index := new Index.Mapped(c, files, buckets, itemCount, nextSequence, LivePlaces(s), s.owner);
    index.MakeIndexed();
    status := index.OpenRowIndexFile(header, fileSize, initialRowBucketCount, Logs(s.extents, c.shardCount));
  }

  // ---- A new database -------------------------------------------------------------------------

  lemma NothingScanned(c: Config, header: seq<byte>, files: seq<seq<byte>>, logs: seq<seq<Extent>>)
    requires |header| == ROW_FILE_HEADER_SIZE && |files| == |logs|
    requires forall k :: 0 <= k < |files| ==> files[k] == header && logs[k] == []
    ensures forall k :: 0 <= k < |files| ==> IsLog(c, files[k], logs[k])
    ensures forall next :: !ComesAfter(next, logs)
  {
    forall k | 0 <= k < |files| ensures IsLog(c, files[k], logs[k]) { assert files[k][ROW_FILE_HEADER_SIZE..] == []; }
  }

  lemma NoRowsHeld(c: Config, owner: seq<Option<Row>>)
    requires RowTable(c, owner, map[])
    ensures owner == NoKeys(|owner|)
  {
    forall i | 0 <= i < |owner| ensures owner[i] == None {
      if owner[i].Some? {
        assert Probing.Holds(owner, owner[i].value);
        assert false;
      }
    }
  }

  lemma FreshParts(c: Config, initialRowBucketCount: nat, threads: nat, header: seq<byte>)
    requires c.Valid() && |header| == ROW_FILE_HEADER_SIZE
    ensures var s := Fresh(c, initialRowBucketCount, threads, header);
      && Shape(c, s) && s.itemCount == 0 && s.nextSequence == 1 && s.append == SizesOf(s.files)
      && s.files == seq(c.shardCount, _ => header)
      && Buckets(s) == BucketsOf(c, NoKeys(RoundUp(initialRowBucketCount)), map[])
  {
    FreshIsGood(c, initialRowBucketCount, threads, header);
  }

  /**
   Opening in an empty directory gives the state that the results about runs of a
   new database start in: the configured number of buckets, rounded up, all empty,
   nothing counted, sequence 1, and every append offset after its file header.
   */
  method OpenNewDatabase(c: Config, files: seq<seq<byte>>, initialRowBucketCount: nat, ghost header: seq<byte>, ghost threads: nat)
    returns (status: Status, index: Index)
    requires c.Valid() && |header| == ROW_FILE_HEADER_SIZE && files == seq(c.shardCount, _ => header)
    ensures var s := Fresh(c, initialRowBucketCount, threads, header);
      && status == Ok && index.Indexed() && fresh(index) && index.c == c && index.files == files == s.files
      && Shape(c, s) && index.buckets[..] == Buckets(s) && index.itemCount == s.itemCount
      && index.nextSequence == s.nextSequence && index.appendOffsets == s.append
    ensures LeastPowerFrom(initialRowBucketCount, index.buckets.Length)
  {
    hide *;
    FreshParts(c, initialRowBucketCount, threads, header);
    ghost var logs: seq<seq<Extent>> := seq(c.shardCount, _ => []);
    SizesCount(files);
    NothingScanned(c, header, files, logs);
    RoundedIsPower(initialRowBucketCount);
    RoundUpIsLeast(initialRowBucketCount);
    NoBlocksNoGrowth(c.f, RoundUp(initialRowBucketCount), logs);
    index := new Index.Mapped(c, files, [], 0, 0, map[], []);
    status := index.OpenRowIndexFile(FileHeader([], 0, 0, 0), 0, initialRowBucketCount, logs);
    index.IndexedFacts();
    NoRowsHeld(c, index.owner);
  }
}
