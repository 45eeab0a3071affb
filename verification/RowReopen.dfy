/**
 Closing and opening: what the concurrent protocol leaves behind passes the checks
 on an index file and is kept as it is, and what opening the files from scratch
 rebuilds is the live index.
 */
module RowReopen {
  import opened Wrappers
  import opened Bytes
  import opened Words
  import opened Probing
  import opened RowBlock
  import opened RowProtocol
  import opened RowProtocolInv
  import opened RowProtocolSteps
  import opened RowProtocolResults
  import opened RowAdmission
  import opened RowAtomic
  import opened RowSerial
  import opened RowOrder
  import opened RowQuiescent
  import opened RowScan
  import opened RowIndex

  /** The shard files of a quiescent state are logs of its extents. */
  lemma QuiescentLogs(c: Config, s: State, k: nat)
    requires Inv(c, s) && Packed(s) && AllIdle(s) && AllPublished(s) && k < c.shardCount
    ensures |s.files| == c.shardCount && IsLog(c, s.files[k], Logs(s.extents, c.shardCount)[k])
  {
    hide LogBytes, BlockFacts;
    QuiescentFiles(c, s, k);
    var xs := ShardLog(s.extents, k);
    forall i | 0 <= i < |xs| ensures BlockFacts(c, xs[i]) {
      ShardLogRows(s.extents, k, i);
      assert IsBlock(c, xs[i]);
      BlocksHaveFacts(c, xs[i]);
    }
  }

  lemma LiveCount(c: Config, s: State)
    requires Inv(c, s) && AllIdle(s)
    ensures IndexInRange(s) && |LivePlaces(s)| == s.itemCount
  {
    hide Inv, AllIdle, IndexInRange;
    AbsDefined(c, s);
    QuiescentIsClean(c, s);
    assert LivePlaces(s).Keys == s.index.Keys;
  }

  /**
   The live index is the one a rebuild finds.  From any quiescent state of a
   serialised run in which no write failed, scanning the shard files into a table
   of any starting size, growing on the way, gives the same map from rows to
   shard, offset, size and sequence, the same item count and the same append
   offsets, and a next sequence above every stored one.
   */
  method RebuildEqualsLive(c: Config, ghost s: State, files: seq<seq<byte>>, initialRowBucketCount: nat) returns (status: Status, index: Index)
    requires Inv(c, s) && LogOk(s) && AllIdle(s) && AllPublished(s) && files == s.files
    ensures status == Ok && index.Indexed() && IndexInRange(s) && index.c == c && index.files == files && fresh(index)
    ensures index.places == LivePlaces(s) && index.itemCount == s.itemCount && index.appendOffsets == s.append
    ensures forall e :: 0 <= e < |s.extents| && s.extents[e].sequence + 1 < TWO64 ==> index.nextSequence > s.extents[e].sequence
    ensures RowTable(c, index.owner, LivePlaces(s)) && 1 <= index.nextSequence < TWO64
    ensures index.nextSequence == 1 || ComesAfter(index.nextSequence, Logs(s.extents, c.shardCount))
    ensures index.buckets.Length == ScanAllSize(c.f, RoundUp(initialRowBucketCount), Logs(s.extents, c.shardCount))
    ensures var s' := Rebuilt(c, s, index.owner, index.nextSequence); Shape(c, s') && Buckets(s') == index.buckets[..]
  {
    hide *;
    QuiescentShape(c, s);
    ghost var logs := Logs(s.extents, c.shardCount);
    forall k | 0 <= k < |files| ensures IsLog(c, files[k], logs[k]) && |files[k]| == s.append[k] {
      QuiescentLogs(c, s, k);
      QuiescentFiles(c, s, k);
    }
    index := new Index(c, files, initialRowBucketCount);
    status := index.RebuildRowIndexFromValues(logs);
    ScanIsLive(c, s);
    LiveCount(c, s);
    forall e | 0 <= e < |s.extents| && s.extents[e].sequence + 1 < TWO64 ensures index.nextSequence > s.extents[e].sequence {
      var k, i := InSomeLog(c, s, e);
    }
    index.IndexedFacts();
    RebuiltShape(c, s, index.owner, index.nextSequence);
    RebuiltBuckets(c, s, index.owner, index.nextSequence);
  }

  lemma QuiescentShape(c: Config, s: State)
    requires Inv(c, s) && LogOk(s)
    ensures c.Valid() && |s.files| == |s.append| == c.shardCount && Packed(s)
  {
  }

  lemma InSomeLog(c: Config, s: State, e: nat) returns (k: nat, i: nat)
    requires Inv(c, s) && e < |s.extents|
    ensures k < c.shardCount && i < |Logs(s.extents, c.shardCount)[k]| && Logs(s.extents, c.shardCount)[k][i] == s.extents[e]
  {
    assert ExtentOk(c, s, e);
    k := s.extents[e].shard;
    i := InShardLog(s.extents, e);
  }

  lemma {:induction false} InShardLog(xs: seq<Extent>, e: nat) returns (i: nat)
    requires e < |xs|
    ensures i < |ShardLog(xs, xs[e].shard)| && ShardLog(xs, xs[e].shard)[i] == xs[e]
  {
    var n := |xs| - 1;
    if e < n {
      i := InShardLog(xs[..n], e);
    } else {
      i := |ShardLog(xs[..n], xs[e].shard)|;
    }
  }

  // ---- A new database ---------------------------------------------------------------------

  /** A new database meets what every result about runs asks of the state they start in. */
  lemma FreshIsReady(c: Config, initialRowBucketCount: nat, threads: nat, header: seq<byte>, how: Apart)
    requires c.Valid() && |header| == ROW_FILE_HEADER_SIZE
    ensures var s := Fresh(c, initialRowBucketCount, threads, header);
      Inv(c, s) && IsPowerOfTwo(|s.slots|) && LogOk(s) && SnapsCurrent(c, s, how) && SourcesOk(s) && AllIdle(s) && s.itemCount == 0
  {
    FreshIsGood(c, initialRowBucketCount, threads, header);
  }

  // ---- The index file ------------------------------------------------------------------------

  /** A bucket as it lies in the mapped index file. */
  function SlotBucket(slot: Slot): RowBucket
    requires |slot.fields| == FIELDS
  {
    RowBucket(slot.state, slot.fields[1], slot.fields[2], Location(slot.fields[0], slot.fields[3], slot.fields[4], slot.fields[5]))
  }

  function Buckets(s: State): (b: seq<RowBucket>)
    requires forall i :: 0 <= i < |s.slots| ==> |s.slots[i].fields| == FIELDS
    ensures |b| == |s.slots|
  {
    seq(|s.slots|, i requires 0 <= i < |s.slots| => SlotBucket(s.slots[i]))
  }

  /** The header that CreateEmptyRowIndex stores, and the size of the whole file. */
  function HeaderFor(c: Config): FileHeader { FileHeader(ROW_INDEX_MAGIC, STORAGE_VERSION, ROW_INDEX_HEADER_SIZE, c.shardCount) }

  function FileSizeFor(s: State): nat { ROW_INDEX_HEADER_SIZE + |s.slots| * ROW_INDEX_BUCKET_SIZE }

  lemma {:induction false} FilledSlots(slots: seq<Slot>, buckets: seq<RowBucket>)
    requires |slots| == |buckets| && forall i :: 0 <= i < |slots| ==> buckets[i].state == slots[i].state
    ensures FilledBucketCount(buckets) == FilledCount(slots)
  {
    if slots != [] { FilledSlots(slots[..|slots| - 1], buckets[..|buckets| - 1]); }
  }

  /** With nothing in flight, what is in the mapped index file passes the checks that opening makes. */
  lemma QuiescentLayoutIsValid(c: Config, s: State)
    requires Inv(c, s) && AllIdle(s) && IsPowerOfTwo(|s.slots|)
    ensures LayoutIsValid(HeaderFor(c), c.shardCount, FileSizeFor(s), Buckets(s), s.itemCount)
  {
    hide IsPowerOfTwo;
    QuiescentIsClean(c, s);
    FilledSlots(s.slots, Buckets(s));
  }

  // ---- Opening ---------------------------------------------------------------------------------

  function Restarted(s: State): seq<Thread> {
    seq(|s.threads|, i requires 0 <= i < |s.threads| => s.threads[i].(pc := Idle(NotStarted)))
  }

  function FileSizes(s: State): seq<nat> { SizesOf(s.files) }

  /** Opening with the index file kept: its counters and buckets, no reservation, offsets from the file sizes. */
  function Kept(s: State): State {
    s.(pending := 0, append := FileSizes(s), threads := Restarted(s))
  }

  /** The bucket a rebuild leaves for a row: the six words of its published extent. */
  function RebuiltSlot(c: Config, s: State, slot: Option<Row>): Slot
    requires IndexInRange(s)
  {
    if slot.Some? && slot.value in s.index then
      var e := s.index[slot.value].ext;
      Slot(Filled, seq(FIELDS, k requires 0 <= k < FIELDS => FieldOf(c, s.extents[e], k)), seq(FIELDS, _ => e), true, 0)
    else EMPTY_SLOT
  }

  /** Opening with the index rebuilt into this table. */
  function Rebuilt(c: Config, s: State, owner: seq<Option<Row>>, nextSequence: nat): State
    requires IndexInRange(s) && |owner| > 0
  {
    State(Occupied(owner), 0, nextSequence, FileSizes(s), s.files,
          seq(|owner|, i requires 0 <= i < |owner| => RebuiltSlot(c, s, owner[i])), owner,
          s.extents, map r | r in s.index :: Pub(Find(owner, c.RowHome(), r), s.index[r].ext), Restarted(s))
  }

  /** Opening keeps an index file that passes the checks and rebuilds any other. */
  ghost function Opened(c: Config, s: State, header: FileHeader, fileSize: nat, owner: seq<Option<Row>>, nextSequence: nat): State
    requires Shape(c, s) && IndexInRange(s) && |owner| > 0
  {
    if LayoutIsValid(header, c.shardCount, fileSize, Buckets(s), s.itemCount) then Kept(s)
    else Rebuilt(c, s, owner, nextSequence)
  }

  lemma OffsetsRestored(c: Config, s: State)
    requires Inv(c, s) && Packed(s) && AllIdle(s) && AllPublished(s)
    ensures FileSizes(s) == s.append
  {
    forall i | 0 <= i < |s.files| ensures FileSizes(s)[i] == s.append[i] { QuiescentFiles(c, s, i); }
  }

  /**
   Closing and opening a quiescent database is the identity: the index file that
   was left passes the checks, so it is kept, and every counter, bucket and
   append offset is the live one.
   */
  lemma ReopenIsIdentity(c: Config, s: State, owner: seq<Option<Row>>, nextSequence: nat)
    requires Inv(c, s) && Packed(s) && AllIdle(s) && AllPublished(s) && IsPowerOfTwo(|s.slots|) && |owner| > 0
    ensures Shape(c, s) && IndexInRange(s)
    ensures Opened(c, s, HeaderFor(c), FileSizeFor(s), owner, nextSequence) == s.(threads := Restarted(s))
  {
    hide IsPowerOfTwo;
    AbsDefined(c, s);
    QuiescentLayoutIsValid(c, s);
    QuiescentIsClean(c, s);
    OffsetsRestored(c, s);
  }

  lemma RunKeepsSize(c: Config, states: seq<State>, who: seq<nat>, i: nat)
    requires Run(c, states, who) && Inv(c, states[0]) && i < |states|
    ensures |states[i].slots| == |states[0].slots|
  {
    hide Inv, Step;
    RunGrows(c, states, who, 0, i);
  }

  /**
   The same for a database as it lives: created, used by any threads in any order,
   and closed with nothing in flight and no write failed.
   */
  lemma CreateUseReopen(c: Config, initialRowBucketCount: nat, threads: nat, header: seq<byte>,
                        states: seq<State>, who: seq<nat>, i: nat, owner: seq<Option<Row>>, nextSequence: nat)
    requires c.Valid() && |header| == ROW_FILE_HEADER_SIZE && Run(c, states, who) && i < |states| && |owner| > 0
    requires states[0] == Fresh(c, initialRowBucketCount, threads, header)
    requires AllIdle(states[i]) && AllPublished(states[i])
    ensures Shape(c, states[i]) && IndexInRange(states[i])
    ensures Opened(c, states[i], HeaderFor(c), FileSizeFor(states[i]), owner, nextSequence)
         == states[i].(threads := Restarted(states[i]))
  {
    hide *;
    FreshIsReady(c, initialRowBucketCount, threads, header, AllCalls);
    LogOkPacked(states[0]);
    RunKeepsInvariant(c, states, who, i);
    RunKeepsSize(c, states, who, i);
    PackedThroughout(c, states, who, i);
    ReopenIsIdentity(c, states[i], owner, nextSequence);
  }

  lemma RebuiltShape(c: Config, s: State, owner: seq<Option<Row>>, nextSequence: nat)
    requires Inv(c, s) && IndexInRange(s) && |owner| > 0
    ensures Shape(c, Rebuilt(c, s, owner, nextSequence))
  {
  }

  lemma RebuiltParts(c: Config, s: State, owner: seq<Option<Row>>, nextSequence: nat)
    requires IndexInRange(s) && |owner| > 0
    ensures var s' := Rebuilt(c, s, owner, nextSequence);
      && s'.owner == owner && s'.extents == s.extents && s'.files == s.files && |s'.slots| == |owner| && s'.index.Keys == s.index.Keys
      && (forall i :: 0 <= i < |owner| ==> s'.slots[i] == RebuiltSlot(c, s, owner[i]))
      && (forall r :: r in s.index ==> s'.index[r] == Pub(Find(owner, c.RowHome(), r), s.index[r].ext))
  {
  }

  lemma RebuiltBucket(c: Config, s: State, slot: Option<Row>)
    requires IndexInRange(s)
    requires slot.Some? ==> slot.value in s.index && s.extents[s.index[slot.value].ext].row == slot.value
    ensures |RebuiltSlot(c, s, slot).fields| == FIELDS == |RebuiltSlot(c, s, slot).src|
    ensures SlotBucket(RebuiltSlot(c, s, slot)) == BucketOf(c, slot, LivePlaces(s))
  {
  }

  lemma LiveRows(c: Config, s: State, owner: seq<Option<Row>>)
    requires IndexInRange(s) && RowTable(c, owner, LivePlaces(s))
    ensures |owner| > 0 && Chained(owner, c.RowHome()) && Distinct(owner) && Occupied(owner) == |LivePlaces(s)|
    ensures forall r :: Probing.Holds(owner, r) <==> r in s.index
    ensures forall i :: 0 <= i < |owner| && owner[i].Some? ==> owner[i].value in s.index
  {
    TableFacts(owner, c.RowHome(), LivePlaces(s).Keys);
    forall i | 0 <= i < |owner| && owner[i].Some? ensures owner[i].value in s.index {
      assert Probing.Holds(owner, owner[i].value);
    }
  }

  /** A row's bucket in the table is the one a lookup of the row ends at. */
  lemma FoundWhereHeld(c: Config, s: State, owner: seq<Option<Row>>, r: Row)
    requires IndexInRange(s) && RowTable(c, owner, LivePlaces(s)) && |owner| > 0 && r in s.index
    ensures var i := Find(owner, c.RowHome(), r);
      i < |owner| && owner[i] == Some(r) && forall j :: 0 <= j < |owner| && owner[j] == Some(r) ==> j == i
  {
    hide Chained;
    TableFacts(owner, c.RowHome(), LivePlaces(s).Keys);
    assert Probing.Holds(owner, r) by { assert r in LivePlaces(s).Keys; }
    FindIsLookup(owner, c.RowHome(), r);
  }

  /** The buckets of the rebuilt state are the array the rebuild fills. */
  lemma RebuiltBuckets(c: Config, s: State, owner: seq<Option<Row>>, nextSequence: nat)
    requires Inv(c, s) && IndexInRange(s) && RowTable(c, owner, LivePlaces(s)) && |owner| > 0
    ensures Shape(c, Rebuilt(c, s, owner, nextSequence))
    ensures Buckets(Rebuilt(c, s, owner, nextSequence)) == BucketsOf(c, owner, LivePlaces(s))
  {
    hide Inv, RowTable, Rebuilt, RebuiltSlot, SlotBucket, BucketOf, LivePlaces;
    var s' := Rebuilt(c, s, owner, nextSequence);
    RebuiltShape(c, s, owner, nextSequence);
    RebuiltParts(c, s, owner, nextSequence);
    LiveRows(c, s, owner);
    forall i | 0 <= i < |owner| ensures Buckets(s')[i] == BucketsOf(c, owner, LivePlaces(s))[i] {
      if owner[i].Some? { LivePub(c, s, owner[i].value); }
      RebuiltBucket(c, s, owner[i]);
    }
  }

  lemma EmptySlotOk(c: Config, s: State, i: nat)
    requires c.Valid() && Shape(c, s) && i < |s.slots| && s.slots[i] == EMPTY_SLOT && s.owner[i] == None
    ensures SlotOk(c, s, i)
  {
  }

  lemma FilledSlotOk(c: Config, s: State, s': State, i: nat, r: Row)
    requires c.Valid() && Shape(c, s') && IndexInRange(s) && r in s.index && i < |s'.slots| && s'.owner[i] == Some(r)
    requires s'.slots[i] == RebuiltSlot(c, s, Some(r)) && s'.extents == s.extents
    requires r in s'.index && s'.index[r] == Pub(i, s.index[r].ext)
    requires s.extents[s.index[r].ext].row == r && s.extents[s.index[r].ext].fate.Published?
    ensures SlotOk(c, s', i)
  {
  }

  lemma RebuiltSlotOk(c: Config, s: State, s': State, owner: seq<Option<Row>>, nextSequence: nat, i: nat)
    requires Inv(c, s) && IndexInRange(s) && RowTable(c, owner, LivePlaces(s)) && i < |owner|
    requires s' == Rebuilt(c, s, owner, nextSequence) && Shape(c, s')
    ensures i < |s'.slots| && SlotOk(c, s', i)
  {
    hide Inv, RowTable, Rebuilt, SlotOk, Chained, Distinct, LivePlaces;
    InvSizes(c, s);
    RebuiltParts(c, s, owner, nextSequence);
    LiveRows(c, s, owner);
    if owner[i].Some? {
      var r := owner[i].value;
      LivePub(c, s, r);
      FoundWhereHeld(c, s, owner, r);
      FilledSlotOk(c, s, s', i, r);
    } else {
      EmptySlotOk(c, s', i);
    }
  }

  lemma LivePub(c: Config, s: State, r: Row)
    requires Inv(c, s) && r in s.index
    ensures c.Valid() && s.index[r].ext < |s.extents|
    ensures s.extents[s.index[r].ext].row == r && s.extents[s.index[r].ext].fate.Published?
  {
    assert PubOk(s, r, s.index[r]);
  }

  lemma RebuiltPubOk(c: Config, s: State, s': State, owner: seq<Option<Row>>, nextSequence: nat, r: Row)
    requires Inv(c, s) && IndexInRange(s) && RowTable(c, owner, LivePlaces(s)) && |owner| > 0 && r in s.index
    requires s' == Rebuilt(c, s, owner, nextSequence)
    ensures |s'.slots| == |s'.owner| && r in s'.index && PubOk(s', r, s'.index[r])
  {
    hide *;
    RebuiltParts(c, s, owner, nextSequence);
    LivePub(c, s, r);
    FoundWhereHeld(c, s, owner, r);
    RebuiltPubParts(c, s, s', r, s'.index[r].slot);
  }

  lemma RebuiltPubParts(c: Config, s: State, s': State, r: Row, i: nat)
    requires IndexInRange(s) && |s'.slots| == |s'.owner| && i < |s'.slots| && s'.owner[i] == Some(r) && r in s.index
    requires s'.slots[i] == RebuiltSlot(c, s, Some(r)) && s'.extents == s.extents
    requires s.extents[s.index[r].ext].row == r && s.extents[s.index[r].ext].fate.Published?
    ensures PubOk(s', r, Pub(i, s.index[r].ext))
  {
  }

  lemma RebuiltIndexOk(c: Config, s: State, s': State, owner: seq<Option<Row>>, nextSequence: nat)
    requires Inv(c, s) && IndexInRange(s) && RowTable(c, owner, LivePlaces(s)) && |owner| > 0
    requires s' == Rebuilt(c, s, owner, nextSequence)
    ensures |s'.slots| == |s'.owner| && IndexOk(s')
  {
    hide Inv, RowTable, Rebuilt, RebuiltSlot, PubOk, LivePlaces;
    RebuiltParts(c, s, owner, nextSequence);
    forall r | r in s'.index ensures PubOk(s', r, s'.index[r]) { RebuiltPubOk(c, s, s', owner, nextSequence, r); }
  }

  lemma RebuiltExtentOk(c: Config, s: State, s': State, e: nat)
    requires c.Valid() && Shape(c, s) && Shape(c, s') && e < |s.extents| && ExtentOk(c, s, e) && s.extents[e].fate.Published?
    requires s'.extents == s.extents && s'.files == s.files && s'.append == s.append && |s'.threads| == |s.threads|
    ensures ExtentOk(c, s', e)
  {
  }

  lemma RebuiltExtentsOk(c: Config, s: State, s': State)
    requires Inv(c, s) && AllPublished(s) && Shape(c, s') && s'.files == s.files && s'.append == s.append
    requires s'.extents == s.extents && |s'.threads| == |s.threads|
    ensures ExtentsOk(c, s') && Ordered(s') && BlocksOk(c, s') && FilesOk(s')
  {
    hide ExtentOk, IsBlock, SlotsOk, IndexOk, TableOk, ThreadsOk, CountsOk;
    forall e | 0 <= e < |s'.extents| ensures ExtentOk(c, s', e) {
      assert ExtentOk(c, s, e);
      RebuiltExtentOk(c, s, s', e);
    }
  }

  lemma RebuiltRest(c: Config, s: State, owner: seq<Option<Row>>, nextSequence: nat)
    requires IndexInRange(s) && |owner| > 0
    ensures var s' := Rebuilt(c, s, owner, nextSequence);
      && s'.itemCount == Occupied(owner) && s'.pending == 0 && s'.nextSequence == nextSequence && s'.append == FileSizes(s)
      && s'.threads == Restarted(s) && |s'.threads| == |s.threads| && AllIdle(s')
  {
  }

  lemma RestartedOk(c: Config, s: State)
    requires c.Valid() && Shape(c, s) && AllIdle(s)
    ensures ThreadsOk(c, s)
  {
  }

  lemma RebuiltCounts(s: State)
    requires AllIdle(s) && s.pending == 0 && s.itemCount == Occupied(s.owner) && s.nextSequence < TWO64
    ensures CountsOk(s)
  {
    NoneCounted(s.threads);
  }

  lemma RebuiltMap(c: Config, s: State, owner: seq<Option<Row>>, nextSequence: nat)
    requires IndexInRange(s) && |owner| > 0
    ensures var s' := Rebuilt(c, s, owner, nextSequence);
      IndexInRange(s') && Abs(s') == Abs(s) && LivePlaces(s') == LivePlaces(s)
  {
    hide Find;
  }

  lemma IsInv(c: Config, s: State)
    requires c.Valid() && Shape(c, s)
    requires ExtentsOk(c, s) && Ordered(s) && BlocksOk(c, s) && FilesOk(s)
    requires SlotsOk(c, s) && IndexOk(s) && TableOk(c, s) && ThreadsOk(c, s) && CountsOk(s)
    ensures Inv(c, s)
  {
  }

  lemma AreSlotsOk(c: Config, s: State)
    requires c.Valid() && Shape(c, s) && forall i :: 0 <= i < |s.slots| ==> SlotOk(c, s, i)
    ensures SlotsOk(c, s)
  {
  }

  lemma IsTableOk(c: Config, s: State)
    requires Chained(s.owner, c.RowHome()) && Distinct(s.owner)
    ensures TableOk(c, s)
  {
  }

  /**
   A rebuilt index is a state the protocol can go on from: it satisfies the
   invariant and the order of the log, and stands for the same rows, at the same
   places, with the same count and offsets.
   */
  lemma RebuiltIsLive(c: Config, s: State, owner: seq<Option<Row>>, nextSequence: nat)
    requires Inv(c, s) && LogOk(s) && AllIdle(s) && AllPublished(s) && IndexInRange(s)
    requires RowTable(c, owner, LivePlaces(s)) && |owner| > 0 && nextSequence < TWO64
    ensures var s' := Rebuilt(c, s, owner, nextSequence);
      && Inv(c, s') && LogOk(s') && AllIdle(s') && IndexInRange(s')
      && Abs(s') == Abs(s) && LivePlaces(s') == LivePlaces(s) && s'.itemCount == s.itemCount && s'.append == s.append
  {
    hide *;
    var s' := Rebuilt(c, s, owner, nextSequence);
    InvSizes(c, s);
    LogOkPacked(s);
    OffsetsRestored(c, s);
    RebuiltShape(c, s, owner, nextSequence);
    RebuiltParts(c, s, owner, nextSequence);
    RebuiltRest(c, s, owner, nextSequence);
    RebuiltExtentsOk(c, s, s');
    RebuiltIndexOk(c, s, s', owner, nextSequence);
    LiveRows(c, s, owner);
    LiveCount(c, s);
    forall i | 0 <= i < |s'.slots| ensures SlotOk(c, s', i) { RebuiltSlotOk(c, s, s', owner, nextSequence, i); }
    AreSlotsOk(c, s');
    IsTableOk(c, s');
    RestartedOk(c, s');
    RebuiltCounts(s');
    IsInv(c, s');
    RebuiltMap(c, s, owner, nextSequence);
    RebuiltLog(c, s, s', owner, nextSequence);
  }

  lemma KeptSlotOk(c: Config, s: State, s': State, i: nat)
    requires c.Valid() && Shape(c, s) && Shape(c, s') && i < |s.slots| && SlotOk(c, s, i) && s.slots[i].state != Writing
    requires s'.slots == s.slots && s'.owner == s.owner && s'.index == s.index && s'.extents == s.extents
    ensures SlotOk(c, s', i)
  {
  }

  lemma RestartedParts(s: State)
    ensures var s' := s.(threads := Restarted(s)); |s'.threads| == |s.threads| && AllIdle(s')
  {
  }

  /** A state that was kept, with every thread at its start. */
  lemma KeptIsLive(c: Config, s: State)
    requires Inv(c, s) && LogOk(s) && AllIdle(s) && AllPublished(s) && IndexInRange(s)
    ensures var s' := s.(threads := Restarted(s)); Inv(c, s') && LogOk(s') && AllIdle(s')
  {
    hide SlotOk, ExtentsOk, Ordered, BlocksOk, FilesOk, IndexOk, TableOk, AllIdle, Restarted;
    hide AllPublished, ThreadsOk, Packed, LastClaim, IndexIsLast, Occupied;
    var s' := s.(threads := Restarted(s));
    RestartedParts(s);
    QuiescentIsClean(c, s);
    RebuiltExtentsOk(c, s, s');
    forall i | 0 <= i < |s'.slots| ensures SlotOk(c, s', i) {
      assert SlotOk(c, s, i);
      KeptSlotOk(c, s, s', i);
    }
    RestartedOk(c, s');
    RebuiltCounts(s');
    KeptLog(s, s');
    KeptIndex(s, s');
    assert TableOk(c, s') by { KeptTable(c, s, s'); }
  }

  lemma KeptTable(c: Config, s: State, s': State)
    requires TableOk(c, s) && s'.owner == s.owner
    ensures TableOk(c, s')
  {
  }

  lemma KeptIndex(s: State, s': State)
    requires |s.slots| == |s.owner| && IndexOk(s)
    requires s'.slots == s.slots && s'.owner == s.owner && s'.index == s.index && s'.extents == s.extents
    ensures IndexOk(s')
  {
    forall r | r in s'.index ensures PubOk(s', r, s'.index[r]) { assert PubOk(s, r, s.index[r]); }
  }

  lemma KeptLog(s: State, s': State)
    requires LogOk(s) && s'.append == s.append && s'.index == s.index && s'.extents == s.extents
    ensures LogOk(s')
  {
    forall e | 0 <= e < |s'.extents| && s'.extents[e].fate.Published? ensures PublishedUpTo(s', e) { assert PublishedUpTo(s, e); }
  }

  /** What opening must restore: a state the protocol can go on from that stands for the same rows. */
  ghost predicate SameDatabase(c: Config, s: State, s': State)
    requires IndexInRange(s)
  {
    && Inv(c, s') && LogOk(s') && SourcesOk(s') && AllIdle(s') && IndexInRange(s')
    && Abs(s') == Abs(s) && LivePlaces(s') == LivePlaces(s)
    && s'.itemCount == s.itemCount && s'.append == s.append && s'.files == s.files
  }

  /** Whatever header and size the index file is found with, opening brings the database back. */
  lemma OpenedIsLive(c: Config, s: State, header: FileHeader, fileSize: nat, owner: seq<Option<Row>>, nextSequence: nat)
    requires Inv(c, s) && LogOk(s) && AllIdle(s) && AllPublished(s) && IndexInRange(s)
    requires RowTable(c, owner, LivePlaces(s)) && |owner| > 0 && nextSequence < TWO64
    ensures Shape(c, s) && SameDatabase(c, s, Opened(c, s, header, fileSize, owner, nextSequence))
  {
    hide Inv, LogOk, AllIdle, AllPublished, IndexInRange, RowTable, LayoutIsValid, FileSizes, Restarted, Abs, LivePlaces;
    InvSizes(c, s);
    LogOkPacked(s);
    OffsetsRestored(c, s);
    QuiescentIsClean(c, s);
    if LayoutIsValid(header, c.shardCount, fileSize, Buckets(s), s.itemCount) {
      KeptIsLive(c, s);
      KeptMeaning(s, s.(threads := Restarted(s)));
      QuiescentSources(c, s.(threads := Restarted(s)));
    } else {
      RebuiltParts(c, s, owner, nextSequence);
      RebuiltIsLive(c, s, owner, nextSequence);
      QuiescentSources(c, Rebuilt(c, s, owner, nextSequence));
    }
  }

  lemma KeptMeaning(s: State, s': State)
    requires IndexInRange(s) && s'.index == s.index && s'.extents == s.extents
    ensures IndexInRange(s') && Abs(s') == Abs(s) && LivePlaces(s') == LivePlaces(s)
  {
  }

  lemma LogOkPacked(s: State)
    requires LogOk(s)
    ensures Packed(s)
  {
  }

  lemma RebuiltLog(c: Config, s: State, s': State, owner: seq<Option<Row>>, nextSequence: nat)
    requires LogOk(s) && AllPublished(s) && IndexInRange(s) && |owner| > 0 && s' == Rebuilt(c, s, owner, nextSequence) && s'.append == s.append
    ensures LogOk(s')
  {
    hide ShardEnd;
    forall e | 0 <= e < |s'.extents| && s'.extents[e].fate.Published? ensures PublishedUpTo(s', e) { assert PublishedUpTo(s, e); }
  }
}
