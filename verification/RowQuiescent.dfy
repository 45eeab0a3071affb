/**
 No thread is ever stuck, and when none is running the counters, buckets and
 files agree.
 */
module RowQuiescent {
  import opened Wrappers
  import opened Bytes
  import opened Probing
  import opened RowBlock
  import opened RowBlockRead
  import opened RowProtocol
  import opened RowProtocolInv
  import opened RowProtocolSteps
  import opened RowProtocolResults
  import opened RowAdmission
  import opened RowOrder

  // ---- Progress --------------------------------------------------------------------------

  lemma {:induction false} CountsItself(kind: Kind, ts: seq<Thread>, t: nat)
    requires t < |ts| && Is(kind, ts[t])
    ensures Count(kind, ts) > 0
  {
    if t > 0 { CountsItself(kind, ts[1..], t - 1); }
  }

  lemma IdleCanBegin(c: Config, s: State, t: nat)
    requires c.Valid() && Shape(c, s) && t < |s.threads| && s.threads[t].pc.Idle?
    ensures exists s' :: Step(c, s, s', t)
  {
    var op := GetRow(Row([], 0), []);
    var s' := s.(threads := s.threads[t := Thread(op, 0, Probing(0))]);
    assert Begin(s, s', t, op);
    assert Step(c, s, s', t);
  }

  lemma CounterCanMove(c: Config, s: State, t: nat)
    requires Inv(c, s) && t < |s.threads| && IsCounting(s.threads[t].pc)
    ensures exists s' :: Step(c, s, s', t)
  {
    assert ThreadOk(c, s, t);
    match s.threads[t].pc
    case Idle(_) => IdleCanBegin(c, s, t);
    case LoadItems => assert Step(c, s, Goto(s, t, LoadPending(s.itemCount)), t);
    case LoadPending(v) => assert Step(c, s, Goto(s, t, TryReserve(v, s.pending)), t);
    case TryReserve(v, q) =>
      assert Step(c, s, Goto(s, t, if c.OverLoad(v + q + 1, |s.slots|) then Idle(NoCapacity) else LoadItems), t);
    case TakeSequence =>
      assert Step(c, s, Goto(s.(nextSequence := (s.nextSequence + 1) % TWO64), t, ClaimExtent(s.nextSequence)), t);
    case CountItem => assert Step(c, s, Goto(s.(itemCount := s.itemCount + 1), t, After(s.threads[t].op, Stored)), t);
    case Release(out) =>
      CountsItself(Reserved, s.threads, t);
      assert Step(c, s, Goto(s.(pending := s.pending - 1), t, Idle(out)), t);
  }

  lemma ReaderCanMove(c: Config, s: State, t: nat)
    requires Inv(c, s) && t < |s.threads| && IsReading(s.threads[t].pc)
    ensures exists s' :: Step(c, s, s', t)
  {
    assert ThreadOk(c, s, t);
    match s.threads[t].pc
    case Probing(p) => assert Step(c, s, DoProbe(c, s, t, p), t);
    case LoadField(p, snap) => assert Step(c, s, DoLoadField(c, s, t, p, snap), t);
    case Recheck(p, snap) => assert Step(c, s, DoRecheck(c, s, t, p, snap), t);
    case ReadHeader(p, snap) => assert Step(c, s, DoReadHeader(c, s, t, p, snap), t);
    case ReadColumn(p, snap, hd) => assert Step(c, s, DoReadColumn(c, s, t, p, snap, hd), t);
    case ReadValue(p, snap, hd) => assert Step(c, s, DoReadValue(c, s, t, snap, hd), t);
  }

  lemma WriterCanMove(c: Config, s: State, t: nat)
    requires Inv(c, s) && t < |s.threads| && !IsCounting(s.threads[t].pc) && !IsReading(s.threads[t].pc)
    ensures exists s' :: Step(c, s, s', t)
  {
    assert ThreadOk(c, s, t);
    match s.threads[t].pc
    case ClaimExtent(q) => assert Step(c, s, DoClaim(c, s, t, q), t);
    case WriteBlock(done) => assert Step(c, s, Fail(s, t, WriteFailed), t);
    case CasEmpty(p) => assert Step(c, s, DoCasEmpty(c, s, t, p), t);
    case CasFilled(p) => assert Step(c, s, DoCasFilled(c, s, t, p), t);
    case StoreField(p, k, ins) => assert Step(c, s, DoStoreField(c, s, t, p, k, ins), t);
    case Publish(p, ins) => assert Step(c, s, DoPublish(c, s, t, p, ins), t);
  }

  /** In every reachable state every thread has a step: the guards of the steps hide no stuck operation. */
  lemma NothingIsStuck(c: Config, s: State, t: nat)
    requires Inv(c, s) && t < |s.threads|
    ensures exists s' :: Step(c, s, s', t)
  {
    if IsCounting(s.threads[t].pc) { CounterCanMove(c, s, t); }
    else if IsReading(s.threads[t].pc) { ReaderCanMove(c, s, t); }
    else { WriterCanMove(c, s, t); }
  }

  // ---- Quiescent states ---------------------------------------------------------------------

  function FilledCount(slots: seq<Slot>): nat {
    if slots == [] then 0 else FilledCount(slots[..|slots| - 1]) + (if slots[|slots| - 1].state == Filled then 1 else 0)
  }

  lemma {:induction false} FilledIsOccupied(slots: seq<Slot>, owner: seq<Option<Row>>)
    requires |slots| == |owner| && forall i :: 0 <= i < |slots| ==> (slots[i].state == Filled <==> owner[i].Some?)
    ensures FilledCount(slots) == Occupied(owner)
  {
    if slots != [] {
      var n := |slots| - 1;
      FilledIsOccupied(slots[..n], owner[..n]);
      OccupiedAppend(owner[..n], owner[n]);
      assert owner[..n] + [owner[n]] == owner;
    }
  }

  lemma IdleBuckets(c: Config, s: State, i: nat)
    requires Inv(c, s) && AllIdle(s) && i < |s.slots|
    ensures s.slots[i].state == Filled <==> s.owner[i].Some?
    ensures s.slots[i].state != Writing
    ensures s.owner[i].Some? ==> s.owner[i].value in s.index
  {
    assert SlotOk(c, s, i);
  }

  lemma IdleRows(c: Config, s: State)
    requires Inv(c, s) && AllIdle(s)
    ensures forall r :: r in s.index.Keys <==> Probing.Holds(s.owner, r)
  {
    forall r ensures r in s.index.Keys <==> Probing.Holds(s.owner, r) {
      if r in s.index { assert PubOk(s, r, s.index[r]); }
      if i :| 0 <= i < |s.owner| && s.owner[i] == Some(r) { IdleBuckets(c, s, i); }
    }
  }

  /**
   With no operation in flight nothing is reserved, no bucket is Writing, and the
   item count is the number of Filled buckets and the number of rows; every
   extent is published or was abandoned by a failed write.
   */
  lemma QuiescentIsClean(c: Config, s: State)
    requires Inv(c, s) && AllIdle(s)
    ensures s.pending == 0
    ensures forall i :: 0 <= i < |s.slots| ==> s.slots[i].state != Writing
    ensures s.itemCount == FilledCount(s.slots) == |s.index| == Occupied(s.owner)
    ensures forall e :: 0 <= e < |s.extents| ==> s.extents[e].fate.Published? || s.extents[e].fate.Abandoned?
  {
    NoneCounted(s.threads);
    forall i | 0 <= i < |s.slots|
      ensures s.slots[i].state != Writing && (s.slots[i].state == Filled <==> s.owner[i].Some?)
    {
      IdleBuckets(c, s, i);
    }
    FilledIsOccupied(s.slots, s.owner);
    IdleRows(c, s);
    OccupiedIsCardinality(s.owner, s.index.Keys);
    forall e | 0 <= e < |s.extents| ensures s.extents[e].fate.Published? || s.extents[e].fate.Abandoned? {
      assert ExtentOk(c, s, e);
    }
  }

  // ---- The row value files ---------------------------------------------------------------------

  /** The extents of one shard, in claim order. */
  function ShardLog(xs: seq<Extent>, shard: nat): seq<Extent> {
    if xs == [] then []
    else ShardLog(xs[..|xs| - 1], shard) + (if xs[|xs| - 1].shard == shard then [xs[|xs| - 1]] else [])
  }

  function LogBytes(xs: seq<Extent>): seq<byte> {
    if xs == [] then [] else LogBytes(xs[..|xs| - 1]) + xs[|xs| - 1].bytes
  }

  lemma LogBytesAppend(xs: seq<Extent>, x: Extent)
    ensures LogBytes(xs + [x]) == LogBytes(xs) + x.bytes
  {
    assert (xs + [x])[..|xs|] == xs;
  }

  lemma ShardLogAppend(xs: seq<Extent>, x: Extent, shard: nat)
    ensures ShardLog(xs + [x], shard) == if x.shard == shard then ShardLog(xs, shard) + [x] else ShardLog(xs, shard)
    ensures ShardEnd(xs + [x], shard) == ShardEnd(xs, shard) + (if x.shard == shard then |x.bytes| else 0)
  {
    assert (xs + [x])[..|xs|] == xs;
    assert ShardLog(xs, shard) + [] == ShardLog(xs, shard);
  }

  lemma NoShardLog(xs: seq<Extent>, shard: nat)
    requires xs == []
    ensures ShardLog(xs, shard) == [] && LogBytes([]) == []
  {
  }

  lemma SplitFile(file: seq<byte>, a: nat, b: nat, c: nat)
    requires a <= b <= c <= |file|
    ensures file[a..c] == file[a..b] + file[b..c]
  {
  }

  /** As long as every extent was written, the shard's file holds its extents end to end after the header. */
  lemma {:induction false} FilePrefixIsLog(file: seq<byte>, xs: seq<Extent>, shard: nat)
    requires |file| >= ROW_FILE_HEADER_SIZE
    requires forall e :: 0 <= e < |xs| && xs[e].shard == shard ==>
      xs[e].offset == ShardEnd(xs[..e], shard) && BlockIsAt(file, xs[e].offset, xs[e].bytes)
    ensures ROW_FILE_HEADER_SIZE <= ShardEnd(xs, shard) <= |file|
    ensures file[ROW_FILE_HEADER_SIZE..ShardEnd(xs, shard)] == LogBytes(ShardLog(xs, shard))
  {
    hide ShardLog, LogBytes;
    if xs == [] {
      NoShardLog(xs, shard);
    } else {
      var n := |xs| - 1;
      var init, x := xs[..n], xs[n];
      assert xs == init + [x];
      forall e | 0 <= e < |init| && init[e].shard == shard
        ensures init[e].offset == ShardEnd(init[..e], shard) && BlockIsAt(file, init[e].offset, init[e].bytes)
      {
        assert init[..e] == xs[..e] && init[e] == xs[e];
      }
      FilePrefixIsLog(file, init, shard);
      ShardLogAppend(init, x, shard);
      if x.shard == shard {
        LogBytesAppend(ShardLog(init, shard), x);
        SplitFile(file, ROW_FILE_HEADER_SIZE, x.offset, x.offset + |x.bytes|);
      }
    }
  }

  /** No write failed: every extent that was claimed has been published. */
  ghost predicate AllPublished(s: State) {
    forall e :: 0 <= e < |s.extents| ==> s.extents[e].fate.Published?
  }

  /**
   After any serialised run in which no write failed, each shard file is its
   header followed by exactly the published blocks in claim order, and the
   append offset is the file size: reading the sizes back restores the offsets.
   */
  lemma QuiescentFiles(c: Config, s: State, shard: nat)
    requires Inv(c, s) && Packed(s) && AllIdle(s) && AllPublished(s) && shard < |s.files|
    ensures |s.files[shard]| == s.append[shard] >= ROW_FILE_HEADER_SIZE
    ensures s.files[shard][ROW_FILE_HEADER_SIZE..] == LogBytes(ShardLog(s.extents, shard))
  {
    assert |s.files[shard]| <= s.append[shard];
    forall e | 0 <= e < |s.extents| && s.extents[e].shard == shard
      ensures BlockIsAt(s.files[shard], s.extents[e].offset, s.extents[e].bytes)
    {
      assert ExtentOk(c, s, e);
      ReadsExtent(s.files[shard], s.extents[e]);
    }
    FilePrefixIsLog(s.files[shard], s.extents, shard);
    var end := ShardEnd(s.extents, shard);
    assert s.files[shard][ROW_FILE_HEADER_SIZE..end] == s.files[shard][ROW_FILE_HEADER_SIZE..];
  }
}
