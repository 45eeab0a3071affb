/**
 Every step of every thread keeps the invariant of the row index protocol.
 */
module RowProtocolSteps {
  import opened Wrappers
  import opened Bytes
  import opened Hash
  import opened Probing
  import opened RowBlock
  import opened RowBlockRead
  import opened RowProtocol
  import opened RowProtocolInv

  // ---- Carrying each part of the invariant over a step -----------------------

  lemma ThreadsKeep(c: Config, s: State, s': State, t: nat)
    requires c.Valid() && Shape(c, s) && Shape(c, s') && Extends(s, s', t) && ThreadsOk(c, s)
    requires t < |s.threads| && ThreadOk(c, s', t)
    ensures ThreadsOk(c, s')
  {
    forall u | 0 <= u < |s'.threads| ensures ThreadOk(c, s', u) {
      if u != t { OthersKeep(c, s, s', t, u); }
    }
  }

  ghost predicate SameEntry(s: State, s': State, r: Row) {
    r in s.index && r in s'.index && s'.index[r] == s.index[r]
  }

  lemma SlotKeeps(c: Config, s: State, s': State, t: nat, i: nat)
    requires c.Valid() && Shape(c, s) && Shape(c, s') && Extends(s, s', t) && t < |s.threads|
    requires i < |s.slots| && SlotOk(c, s, i)
    requires s'.slots[i] == s.slots[i] && s'.owner[i] == s.owner[i]
    requires s.slots[i].filled ==> SameEntry(s, s', s.owner[i].value)
    requires s.slots[i].state == Writing && s.slots[i].holder == t ==> HoldsSlot(c, s', t, i)
    ensures SlotOk(c, s', i)
  {
    if s.slots[i].filled { SnapKeeps(c, s, s', t, i, Snap(s.slots[i].fields, s.slots[i].src)); }
  }

  /** Buckets, owners and index untouched, and `t` holds no bucket before or after. */
  lemma SlotsUntouched(c: Config, s: State, s': State, t: nat)
    requires c.Valid() && Shape(c, s) && Shape(c, s') && Extends(s, s', t) && SlotsOk(c, s) && t < |s.threads|
    requires s'.slots == s.slots && s'.owner == s.owner && s'.index == s.index
    requires !IsStoring(s.threads[t].pc)
    ensures SlotsOk(c, s')
  {
    forall i | 0 <= i < |s'.slots| ensures SlotOk(c, s', i) {
      assert SlotOk(c, s, i);
      SlotKeeps(c, s, s', t, i);
    }
  }

  lemma IndexKeeps(s: State, s': State, t: nat)
    requires |s.slots| == |s.owner| && Extends(s, s', t) && IndexOk(s) && s'.index == s.index
    ensures IndexOk(s')
  {
    forall r | r in s'.index ensures PubOk(s', r, s'.index[r]) {
      PubKeeps(s, s', t, r);
    }
  }

  lemma PubKeeps(s: State, s': State, t: nat, r: Row)
    requires |s.slots| == |s.owner| && Extends(s, s', t) && r in s.index && PubOk(s, r, s.index[r])
    ensures PubOk(s', r, s.index[r])
  {
    assert ExtentExtends(s.extents[s.index[r].ext], s'.extents[s.index[r].ext], t);
  }

  /** An extent the step did not change, whose owner is another thread or still owns it. */
  lemma ExtentKeeps(c: Config, s: State, s': State, t: nat, e: nat)
    requires c.Valid() && Shape(c, s) && Shape(c, s') && Extends(s, s', t) && t < |s.threads|
    requires e < |s.extents| && ExtentOk(c, s, e) && s'.extents[e] == s.extents[e]
    requires forall i :: 0 <= i < |s.append| ==> s.append[i] <= s'.append[i]
    requires s.extents[e].thread == t ==> (Owns(s.threads[t], s.extents[e].fate) && s.threads[t].ext == e
               ==> Owns(s'.threads[t], s.extents[e].fate) && s'.threads[t].ext == e)
    ensures ExtentOk(c, s', e)
  {
    var x := s.extents[e];
    if x.fate.Written? || x.fate.Storing? || x.fate.Published? {
      assert InFile(s.files[x.shard], x.offset, x.bytes, |x.bytes|);
    }
  }

  lemma BlocksKeep(c: Config, s: State, s': State, t: nat)
    requires c.Valid() && BlocksOk(c, s) && Extends(s, s', t) && |s'.extents| == |s.extents|
    ensures BlocksOk(c, s')
  {
    forall y {:trigger IsBlock(c, y)} | y in s'.extents ensures IsBlock(c, y) {
      var e :| 0 <= e < |s'.extents| && s'.extents[e] == y;
      assert s.extents[e] in s.extents && ExtentExtends(s.extents[e], s'.extents[e], t);
      BlockKeeps(c, s.extents[e], y, t);
    }
  }

  lemma BlockKeeps(c: Config, x: Extent, y: Extent, t: nat)
    requires c.Valid() && IsBlock(c, x) && ExtentExtends(x, y, t)
    ensures IsBlock(c, y)
  {
  }

  lemma OrderKeeps(s: State, s': State, t: nat)
    requires Ordered(s) && Extends(s, s', t) && |s'.extents| == |s.extents|
    ensures Ordered(s')
  {
    forall a, b | 0 <= a < b < |s'.extents| && s'.extents[a].shard == s'.extents[b].shard
      ensures s'.extents[a].offset + |s'.extents[a].bytes| <= s'.extents[b].offset
    {
      assert ExtentExtends(s.extents[a], s'.extents[a], t) && ExtentExtends(s.extents[b], s'.extents[b], t);
    }
  }

  /** The counters still agree when their change matches the moved thread's. */
  ghost predicate Recounted(s: State, s': State, t: nat)
    requires t < |s.threads|
  {
    && |s'.threads| == |s.threads| && s'.threads == s.threads[t := s'.threads[t]]
    && s'.pending + Weight(Reserved, s.threads[t]) == s.pending + Weight(Reserved, s'.threads[t])
    && Occupied(s'.owner) + Weight(Uncounted, s.threads[t]) + s.itemCount
       == Occupied(s.owner) + Weight(Uncounted, s'.threads[t]) + s'.itemCount
    && s'.nextSequence < TWO64
  }

  lemma CountsKeep(s: State, s': State, t: nat)
    requires t < |s.threads| && CountsOk(s) && Recounted(s, s', t)
    ensures CountsOk(s')
  {
    CountUpdate(Reserved, s.threads, t, s'.threads[t]);
    CountUpdate(Uncounted, s.threads, t, s'.threads[t]);
  }

  // ---- Steps that only move one thread and the counters ---------------------

  /** `s'` is `s` with thread `t` moved and the counters changed. */
  ghost predicate Quiet(s: State, s': State, t: nat)
    requires t < |s.threads|
  {
    && |s'.threads| == |s.threads|
    && s' == s.(threads := s.threads[t := s'.threads[t]], itemCount := s'.itemCount, pending := s'.pending,
                nextSequence := s'.nextSequence)
  }

  lemma QuietExtends(c: Config, s: State, s': State, t: nat)
    requires c.Valid() && Shape(c, s) && t < |s.threads| && Quiet(s, s', t)
    ensures Shape(c, s') && Extends(s, s', t)
  {
  }

  /** The thread keeps its extent, or had none. */
  ghost predicate KeepsExtent(a: Thread, b: Thread) {
    (a.ext == b.ext || a.op.GetRow? || !(a.pc.WriteBlock? || IsLooking(a.pc) || IsStoring(a.pc)))
    && (!a.op.GetRow? && IsLooking(a.pc) ==> !b.op.GetRow? && IsLooking(b.pc))
    && (!a.op.GetRow? ==> !a.pc.WriteBlock? && !IsStoring(a.pc))
    && !IsStoring(a.pc) && !IsStoring(b.pc)
  }

  lemma QuietKeeps(c: Config, s: State, s': State, t: nat)
    requires Inv(c, s) && t < |s.threads| && Quiet(s, s', t)
    requires KeepsExtent(s.threads[t], s'.threads[t])
    requires Shape(c, s') && ThreadOk(c, s', t)
    requires Recounted(s, s', t)
    ensures Inv(c, s')
  {
    QuietExtends(c, s, s', t);
    ThreadsKeep(c, s, s', t);
    SlotsUntouched(c, s, s', t);
    IndexKeeps(s, s', t);
    BlocksKeep(c, s, s', t);
    CountsKeep(s, s', t);
    forall e | 0 <= e < |s'.extents| ensures ExtentOk(c, s', e) {
      assert ExtentOk(c, s, e);
      ExtentKeeps(c, s, s', t, e);
    }
  }

  /** A step that moves only thread `t`. */
  lemma GotoKeeps(c: Config, s: State, t: nat, pc: PC)
    requires Inv(c, s) && t < |s.threads|
    requires KeepsExtent(s.threads[t], s.threads[t].(pc := pc))
    requires Shape(c, Goto(s, t, pc)) && ThreadOk(c, Goto(s, t, pc), t)
    requires Weight(Reserved, s.threads[t]) == Weight(Reserved, s.threads[t].(pc := pc))
    requires Weight(Uncounted, s.threads[t]) == Weight(Uncounted, s.threads[t].(pc := pc))
    ensures Inv(c, Goto(s, t, pc))
  {
    QuietKeeps(c, s, Goto(s, t, pc), t);
  }

  // ---- Facts about blocks and snapshots -------------------------------------

  /** What matching a row relies on: the block's own header and column. */
  ghost predicate BlockFacts(c: Config, x: Extent) {
    && |x.bytes| >= BLOCK_HEADER_SIZE
    && var hd := ParseBlockHeader(x.bytes[..BLOCK_HEADER_SIZE]);
    && IsValidRowBlockHeader(hd) && hd.columnHash == c.h.HashString(x.row.column) && hd.rowId == x.row.id
    && hd.columnSize == |x.row.column| && hd.blockSize == |x.bytes| && hd.sequence == x.sequence
    && ColumnIn(x.bytes, hd, x.row.column)
  }

  ghost predicate ColumnIn(bytes: seq<byte>, hd: BlockHeader, column: seq<byte>) {
    var o := BLOCK_HEADER_SIZE + hd.bucketCount * KEY_BUCKET_SIZE;
    o + hd.columnSize <= |bytes| && bytes[o..o + hd.columnSize] == column
  }

  lemma ImageHasColumn(h: Hasher, row: Row, entries: seq<Entry>, t: Table, hd: BlockHeader, s: seq<byte>)
    requires Image(h, row, entries, t, hd, s)
    ensures ColumnIn(s, hd, row.column) && |s| >= BLOCK_HEADER_SIZE
  {
  }

  lemma BlocksHaveFacts(c: Config, x: Extent)
    requires c.Valid() && IsBlock(c, x)
    ensures BlockFacts(c, x)
  {
    HeaderReadBack(c.h, c.sizing, x.row, x.entries, x.sequence);
    BlockIsImage(c.h, c.sizing, x.row, x.entries, x.sequence);
    var t := TableOf(c.h, c.sizing, x.row, x.entries);
    ImageHasColumn(c.h, x.row, x.entries, t, LayoutHeader(c.h, x.row, x.entries, x.sequence, t), x.bytes);
  }

  /** A complete extent reads back from its file. */
  lemma ReadsExtent(file: seq<byte>, x: Extent)
    requires InFile(file, x.offset, x.bytes, |x.bytes|) && |x.bytes| > 0
    ensures BlockIsAt(file, x.offset, x.bytes)
  {
    var last := |x.bytes| - 1;
    assert x.bytes[last] == file[x.offset + last];
    assert file[x.offset..x.offset + |x.bytes|] == x.bytes;
  }

  /** What a full snapshot of bucket `i` addresses: a complete block of the row that owns the bucket. */
  ghost predicate Addresses(c: Config, s: State, snap: Snap, r: Row) {
    && |snap.src| == FIELDS == |snap.fields| && snap.src[3] < |s.extents|
    && var x := s.extents[snap.src[3]];
    && x.row == r && BlockFacts(c, x)
    && snap.fields[0] < |s.files| && BlockIsAt(s.files[snap.fields[0]], snap.fields[3], x.bytes)
    && snap.fields[1] == c.h.HashString(r.column) && snap.fields[2] == r.id
  }

  lemma SnapAddresses(c: Config, s: State, i: nat, snap: Snap)
    requires c.Valid() && Shape(c, s) && ExtentsOk(c, s) && BlocksOk(c, s)
    requires i < |s.slots| && SnapOk(c, s, i, snap) && |snap.src| == FIELDS
    ensures Addresses(c, s, snap, s.owner[i].value)
  {
    var r := s.owner[i].value;
    assert Good(s, snap.src[0], r) && Good(s, snap.src[1], r) && Good(s, snap.src[2], r) && Good(s, snap.src[3], r);
    assert ExtentOk(c, s, snap.src[3]) && ExtentOk(c, s, snap.src[0]);
    assert IsBlock(c, s.extents[snap.src[3]]);
    BlocksHaveFacts(c, s.extents[snap.src[3]]);
    ReadsExtent(s.files[s.extents[snap.src[3]].shard], s.extents[snap.src[3]]);
  }

  lemma ShardReadWithin(s: State, shard: nat, offset: nat, bytes: seq<byte>, a: nat, n: nat)
    requires shard < |s.files| && BlockIsAt(s.files[shard], offset, bytes) && a + n <= |bytes|
    ensures ShardRead(s, shard, offset + a, n) == Some(bytes[a..a + n])
  {
    ReadWithin(s.files[shard], offset, bytes, a, n);
  }

  /** An empty bucket at the end of a probe proves the row unpublished, and unclaimed. */
  lemma EmptyMeansUnpublished(c: Config, s: State, t: nat, p: nat)
    requires c.Valid() && Shape(c, s) && TableOk(c, s) && IndexOk(s) && t < |s.threads| && LookOk(c, s, t, p)
    requires s.owner[SlotAt(c, s, s.threads[t].op.row, p)] == None
    ensures s.threads[t].op.row !in s.index
    ensures !Probing.Holds(s.owner, s.threads[t].op.row)
  {
    var r := s.threads[t].op.row;
    var start := c.Start(r, |s.slots|);
    DistAt(start, p, |s.slots|);
    assert r in s.index ==> PubOk(s, r, s.index[r]);
    EmptyMeansAbsent(s.owner, c.RowHome(), r, SlotAt(c, s, r, p));
  }

  // ---- Reservation, sequence and counters -----------------------------------

  lemma BeginKeeps(c: Config, s: State, s': State, t: nat, op: Op)
    requires Inv(c, s) && t < |s.threads| && s.threads[t].pc.Idle? && Begin(s, s', t, op)
    ensures Inv(c, s')
  {
    hide ExtentsOk, Ordered, BlocksOk, FilesOk, SlotsOk, IndexOk, TableOk;
    QuietKeeps(c, s, s', t);
  }

  lemma TryReserveKeeps(c: Config, s: State, s': State, t: nat, items: nat, pend: nat)
    requires Inv(c, s) && t < |s.threads| && s.threads[t].pc == TryReserve(items, pend)
    requires DoTryReserve(c, s, s', t, items, pend)
    ensures Inv(c, s')
  {
    hide ExtentsOk, Ordered, BlocksOk, FilesOk, SlotsOk, IndexOk, TableOk;
    assert ThreadOk(c, s, t);
    QuietKeeps(c, s, s', t);
  }

  /** The load, counter and release steps. */
  lemma CounterKeeps(c: Config, s: State, s': State, t: nat)
    requires Inv(c, s) && t < |s.threads|
    requires match s.threads[t].pc
      case LoadItems => s' == Goto(s, t, LoadPending(s.itemCount))
      case LoadPending(v) => s' == Goto(s, t, TryReserve(v, s.pending))
      case TakeSequence => s' == Goto(s.(nextSequence := (s.nextSequence + 1) % TWO64), t, ClaimExtent(s.nextSequence))
      case CountItem => s' == Goto(s.(itemCount := s.itemCount + 1), t, After(s.threads[t].op, Stored))
      case Release(out) => s.pending > 0 && s' == Goto(s.(pending := s.pending - 1), t, Idle(out))
      case _ => false
    ensures Inv(c, s')
  {
    hide ExtentsOk, Ordered, BlocksOk, FilesOk, SlotsOk, IndexOk, TableOk;
    assert ThreadOk(c, s, t);
    QuietKeeps(c, s, s', t);
  }

  // ---- Giving up --------------------------------------------------------------

  lemma FailKeeps(c: Config, s: State, t: nat, out: Outcome)
    requires Inv(c, s) && t < |s.threads|
    requires s.threads[t].pc.WriteBlock? || IsLooking(s.threads[t].pc)
    ensures Inv(c, Fail(s, t, out))
  {
    if s.threads[t].op.GetRow? {
      ReaderFailKeeps(c, s, t, out);
    } else {
      WriterFailKeeps(c, s, t, out);
    }
  }

  lemma ReaderFailKeeps(c: Config, s: State, t: nat, out: Outcome)
    requires Inv(c, s) && t < |s.threads| && s.threads[t].op.GetRow? && !IsStoring(s.threads[t].pc)
    requires !s.threads[t].pc.CountItem?
    ensures Inv(c, Goto(s, t, Idle(out)))
  {
    GotoKeeps(c, s, t, Idle(out));
  }

  lemma WriterFailKeeps(c: Config, s: State, t: nat, out: Outcome)
    requires Inv(c, s) && t < |s.threads| && !s.threads[t].op.GetRow?
    requires s.threads[t].pc.WriteBlock? || IsLooking(s.threads[t].pc)
    ensures Inv(c, Fail(s, t, out))
  {
    WriterOwns(c, s, t);
    FailIsAbandon(s, t, out);
    AbandonKeeps(c, s, Fail(s, t, out), t);
  }

  lemma WriterOwns(c: Config, s: State, t: nat)
    requires c.Valid() && Shape(c, s) && ThreadsOk(c, s) && t < |s.threads| && !s.threads[t].op.GetRow?
    requires s.threads[t].pc.WriteBlock? || IsLooking(s.threads[t].pc)
    ensures Owner(s, t, Claimed) || Owner(s, t, Written)
  {
    assert ThreadOk(c, s, t);
  }

  lemma FailIsAbandon(s: State, t: nat, out: Outcome)
    requires t < |s.threads| && !s.threads[t].op.GetRow? && s.threads[t].ext < |s.extents|
    requires s.threads[t].pc.WriteBlock? || IsLooking(s.threads[t].pc)
    ensures var e, s' := s.threads[t].ext, Fail(s, t, out);
      && |s'.threads| == |s.threads|
      && s' == s.(extents := s.extents[e := s.extents[e].(fate := Abandoned)], threads := s.threads[t := s'.threads[t]])
      && s'.threads[t] == s.threads[t].(pc := After(s.threads[t].op, out))
      && Weight(Reserved, s.threads[t]) == Weight(Reserved, s'.threads[t])
      && Weight(Uncounted, s.threads[t]) == Weight(Uncounted, s'.threads[t])
  {
  }

  lemma AbandonKeeps(c: Config, s: State, s': State, t: nat)
    requires Inv(c, s) && t < |s.threads| && |s'.threads| == |s.threads| && !IsStoring(s.threads[t].pc)
    requires Owner(s, t, Claimed) || Owner(s, t, Written)
    requires var e := s.threads[t].ext;
      s' == s.(extents := s.extents[e := s.extents[e].(fate := Abandoned)], threads := s.threads[t := s'.threads[t]])
    requires Shape(c, s') && ThreadOk(c, s', t) && Recounted(s, s', t)
    ensures Inv(c, s')
  {
    assert Extends(s, s', t);
    ThreadsKeep(c, s, s', t);
    SlotsUntouched(c, s, s', t);
    IndexKeeps(s, s', t);
    BlocksKeep(c, s, s', t);
    OrderKeeps(s, s', t);
    CountsKeep(s, s', t);
    forall e | 0 <= e < |s'.extents| ensures ExtentOk(c, s', e) {
      assert ExtentOk(c, s, e);
      if e != s.threads[t].ext { ExtentKeeps(c, s, s', t, e); }
    }
  }

  // ---- Probing ---------------------------------------------------------------

  lemma LookAtZero(c: Config, s: State, t: nat)
    requires c.Valid() && Shape(c, s) && t < |s.threads|
    requires !s.threads[t].op.GetRow? ==> Owner(s, t, Written)
    ensures LookOk(c, s, t, 0)
  {
  }

  lemma RestartKeeps(c: Config, s: State, t: nat)
    requires Inv(c, s) && t < |s.threads| && IsLooking(s.threads[t].pc)
    requires !s.threads[t].op.GetRow? ==> Owner(s, t, Written)
    ensures Inv(c, Goto(s, t, Probing(0)))
  {
    assert ThreadOk(c, s, t);
    LookAtZero(c, Goto(s, t, Probing(0)), t);
    GotoKeeps(c, s, t, Probing(0));
  }

  /** Another row owns the bucket: the probe moves on, or runs out of buckets. */
  lemma NextProbeKeeps(c: Config, s: State, t: nat, p: nat)
    requires Inv(c, s) && t < |s.threads| && IsLooking(s.threads[t].pc) && LookOk(c, s, t, p)
    requires var i := SlotAt(c, s, s.threads[t].op.row, p); s.owner[i].Some? && s.owner[i].value != s.threads[t].op.row
    ensures Inv(c, NextProbe(s, t, p))
  {
    hide ExtentsOk, Ordered, BlocksOk, FilesOk, SlotsOk, IndexOk, TableOk, CountsOk;
    if p + 1 == |s.slots| {
      FailKeeps(c, s, t, TableFull);
    } else {
      var r := s.threads[t].op.row;
      assert ThreadOk(c, s, t);
      PassedMore(s.owner, r, c.Start(r, |s.slots|), p);
      assert LookOk(c, Goto(s, t, Probing(p + 1)), t, p + 1);
      GotoKeeps(c, s, t, Probing(p + 1));
    }
  }

  /** Moving within a probe keeps what the probe has established. */
  lemma GotoLooks(c: Config, s: State, t: nat, pc: PC, p: nat, snap: Snap)
    requires c.Valid() && Shape(c, s) && t < |s.threads| && LookOk(c, s, t, p)
    requires SnapOk(c, s, SlotAt(c, s, s.threads[t].op.row, p), snap)
    ensures Shape(c, Goto(s, t, pc)) && LookOk(c, Goto(s, t, pc), t, p)
    ensures SnapOk(c, Goto(s, t, pc), SlotAt(c, s, s.threads[t].op.row, p), snap)
  {
  }

  lemma ToCasEmpty(c: Config, s: State, t: nat, p: nat)
    requires c.Valid() && Shape(c, s) && SlotsOk(c, s) && TableOk(c, s) && IndexOk(s) && t < |s.threads| && ThreadOk(c, s, t)
    requires s.threads[t].pc == Probing(p) && !s.threads[t].op.GetRow?
    requires s.slots[SlotAt(c, s, s.threads[t].op.row, p)].state == Empty
    ensures Shape(c, Goto(s, t, CasEmpty(p))) && ThreadOk(c, Goto(s, t, CasEmpty(p)), t)
  {
    assert SlotOk(c, s, SlotAt(c, s, s.threads[t].op.row, p));
    EmptyMeansUnpublished(c, s, t, p);
    assert LookOk(c, Goto(s, t, CasEmpty(p)), t, p);
  }

  lemma ToLoadField(c: Config, s: State, t: nat, p: nat)
    requires c.Valid() && Shape(c, s) && SlotsOk(c, s) && t < |s.threads| && ThreadOk(c, s, t)
    requires s.threads[t].pc == Probing(p) && s.slots[SlotAt(c, s, s.threads[t].op.row, p)].state == Filled
    ensures var s' := Goto(s, t, LoadField(p, Snap([], []))); Shape(c, s') && ThreadOk(c, s', t)
  {
    assert SlotOk(c, s, SlotAt(c, s, s.threads[t].op.row, p));
    GotoLooks(c, s, t, LoadField(p, Snap([], [])), p, Snap([], []));
  }

  lemma ProbeStep(c: Config, s: State, t: nat, p: nat)
    requires Inv(c, s) && t < |s.threads| && s.threads[t].pc == Probing(p)
    ensures p < |s.slots| && Inv(c, DoProbe(c, s, t, p))
  {
    hide ExtentsOk, Ordered, BlocksOk, FilesOk, CountsOk;
    assert ThreadOk(c, s, t);
    var op := s.threads[t].op;
    match s.slots[SlotAt(c, s, op.row, p)].state
    case Empty =>
      if op.GetRow? {
        ReaderFailKeeps(c, s, t, RowMissing);
      } else {
        ToCasEmpty(c, s, t, p);
        GotoKeeps(c, s, t, CasEmpty(p));
      }
    case Writing => RestartKeeps(c, s, t);
    case Filled =>
      ToLoadField(c, s, t, p);
      GotoKeeps(c, s, t, LoadField(p, Snap([], [])));
  }

  /** The word just loaded came from a complete extent of the bucket's row, whatever state the bucket is in. */
  lemma SnapGrows(c: Config, s: State, i: nat, snap: Snap)
    requires c.Valid() && Shape(c, s) && SlotsOk(c, s) && i < |s.slots| && SnapOk(c, s, i, snap) && |snap.src| < FIELDS
    ensures SnapOk(c, s, i, Snap(snap.fields + [s.slots[i].fields[|snap.fields|]], snap.src + [s.slots[i].src[|snap.fields|]]))
  {
    assert SlotOk(c, s, i);
    var slot, n := s.slots[i], |snap.fields|;
    var all, more := Snap(slot.fields, slot.src), Snap(snap.fields + [slot.fields[n]], snap.src + [slot.src[n]]);
    assert SnapOk(c, s, i, all);
    forall k | 0 <= k < |more.src|
      ensures Good(s, more.src[k], s.owner[i].value) && more.fields[k] == FieldOf(c, s.extents[more.src[k]], k)
    {
      if k == n { assert Good(s, all.src[n], s.owner[i].value); }
      else { assert Good(s, snap.src[k], s.owner[i].value); }
    }
  }

  lemma LoadFieldStep(c: Config, s: State, t: nat, p: nat, snap: Snap)
    requires Inv(c, s) && t < |s.threads| && s.threads[t].pc == LoadField(p, snap)
    ensures p < |s.slots| && |snap.fields| < FIELDS && Inv(c, DoLoadField(c, s, t, p, snap))
  {
    hide ExtentsOk, Ordered, BlocksOk, FilesOk, IndexOk, TableOk, StoreOk, CountsOk;
    assert ThreadOk(c, s, t);
    var i := SlotAt(c, s, s.threads[t].op.row, p);
    SnapGrows(c, s, i, snap);
    var k := |snap.fields|;
    var more := Snap(snap.fields + [s.slots[i].fields[k]], snap.src + [s.slots[i].src[k]]);
    var pc := if k + 1 == FIELDS then Recheck(p, more) else LoadField(p, more);
    LoadedOk(c, s, t, p, more, pc);
    GotoKeeps(c, s, t, pc);
  }

  lemma LoadedOk(c: Config, s: State, t: nat, p: nat, more: Snap, pc: PC)
    requires c.Valid() && Shape(c, s) && t < |s.threads| && ThreadOk(c, s, t) && s.threads[t].pc.LoadField? && s.threads[t].pc.p == p
    requires SnapOk(c, s, SlotAt(c, s, s.threads[t].op.row, p), more)
    requires pc == if |more.src| == FIELDS then Recheck(p, more) else LoadField(p, more)
    ensures Shape(c, Goto(s, t, pc)) && ThreadOk(c, Goto(s, t, pc), t)
  {
    GotoLooks(c, s, t, pc, p, more);
  }

  lemma RecheckStep(c: Config, s: State, t: nat, p: nat, snap: Snap)
    requires Inv(c, s) && t < |s.threads| && s.threads[t].pc == Recheck(p, snap)
    ensures p < |s.slots| && |snap.fields| == FIELDS && Inv(c, DoRecheck(c, s, t, p, snap))
  {
    hide ExtentsOk, Ordered, BlocksOk, FilesOk, SlotsOk, IndexOk, TableOk, CountsOk;
    assert ThreadOk(c, s, t);
    var r := s.threads[t].op.row;
    var i := SlotAt(c, s, r, p);
    if s.slots[i].state != Filled {
      RestartKeeps(c, s, t);
    } else if snap.fields[1] != c.h.HashString(r.column) || snap.fields[2] != r.id {
      SnapAddresses(c, s, i, snap);
      NextProbeKeeps(c, s, t, p);
    } else {
      var s' := Goto(s, t, ReadHeader(p, snap));
      assert LookOk(c, s', t, p) && SnapOk(c, s', i, snap);
      GotoKeeps(c, s, t, ReadHeader(p, snap));
    }
  }

  /** What the header read returns, and what comparing it says about the bucket's owner. */
  lemma ReadHeaderOf(c: Config, s: State, t: nat, p: nat, snap: Snap) returns (hd: BlockHeader)
    requires c.Valid() && Shape(c, s) && ExtentsOk(c, s) && BlocksOk(c, s) && t < |s.threads| && ThreadOk(c, s, t)
    requires s.threads[t].pc == ReadHeader(p, snap)
    ensures |snap.fields| == FIELDS
    ensures var b := ShardRead(s, snap.fields[0], snap.fields[3], BLOCK_HEADER_SIZE); b.Some? && ParseBlockHeader(b.value) == hd
    ensures IsValidRowBlockHeader(hd) && hd.columnHash == snap.fields[1] && hd.rowId == s.threads[t].op.row.id
    ensures HeaderOk(s, snap, hd)
    ensures hd.columnSize == |s.owner[SlotAt(c, s, s.threads[t].op.row, p)].value.column|
  {
    var i := SlotAt(c, s, s.threads[t].op.row, p);
    SnapAddresses(c, s, i, snap);
    var x := s.extents[snap.src[3]];
    ShardReadWithin(s, snap.fields[0], snap.fields[3], x.bytes, 0, BLOCK_HEADER_SIZE);
    hd := ParseBlockHeader(x.bytes[..BLOCK_HEADER_SIZE]);
  }

  lemma ReadHeaderStep(c: Config, s: State, t: nat, p: nat, snap: Snap)
    requires Inv(c, s) && t < |s.threads| && s.threads[t].pc == ReadHeader(p, snap)
    ensures |snap.fields| == FIELDS && Inv(c, DoReadHeader(c, s, t, p, snap))
  {
    hide ExtentsOk, Ordered, BlocksOk, FilesOk, SlotsOk, IndexOk, TableOk, CountsOk;
    assert ThreadOk(c, s, t);
    var r := s.threads[t].op.row;
    var hd := ReadHeaderOf(c, s, t, p, snap);
    if hd.blockSize != snap.fields[4] {
      FailKeeps(c, s, t, CorruptBlock);
    } else if hd.columnSize != |r.column| {
      NextProbeKeeps(c, s, t, p);
    } else {
      GotoLooks(c, s, t, ReadColumn(p, snap, hd), p, snap);
      GotoKeeps(c, s, t, ReadColumn(p, snap, hd));
    }
  }

  /** The column read returns the owner's column. */
  lemma ReadColumnOf(c: Config, s: State, t: nat, p: nat, snap: Snap, hd: BlockHeader)
    requires c.Valid() && Shape(c, s) && ExtentsOk(c, s) && BlocksOk(c, s) && t < |s.threads| && ThreadOk(c, s, t)
    requires s.threads[t].pc == ReadColumn(p, snap, hd)
    ensures |snap.fields| == FIELDS
    ensures var i := SlotAt(c, s, s.threads[t].op.row, p);
      && s.owner[i].Some? && s.owner[i].value.id == s.threads[t].op.row.id
      && ShardRead(s, snap.fields[0], snap.fields[3] + (BLOCK_HEADER_SIZE + hd.bucketCount * KEY_BUCKET_SIZE), hd.columnSize)
         == Some(s.owner[i].value.column)
  {
    var i := SlotAt(c, s, s.threads[t].op.row, p);
    SnapAddresses(c, s, i, snap);
    var x := s.extents[snap.src[3]];
    ShardReadWithin(s, snap.fields[0], snap.fields[3], x.bytes, BLOCK_HEADER_SIZE + hd.bucketCount * KEY_BUCKET_SIZE, hd.columnSize);
  }

  lemma ReadColumnStep(c: Config, s: State, t: nat, p: nat, snap: Snap, hd: BlockHeader)
    requires Inv(c, s) && t < |s.threads| && s.threads[t].pc == ReadColumn(p, snap, hd)
    ensures |snap.fields| == FIELDS && Inv(c, DoReadColumn(c, s, t, p, snap, hd))
  {
    hide ExtentsOk, Ordered, BlocksOk, FilesOk, SlotsOk, IndexOk, TableOk, CountsOk;
    assert ThreadOk(c, s, t);
    var op := s.threads[t].op;
    var i := SlotAt(c, s, op.row, p);
    ReadColumnOf(c, s, t, p, snap, hd);
    if s.owner[i].value.column != op.row.column {
      NextProbeKeeps(c, s, t, p);
    } else {
      var pc := if op.GetRow? then ReadValue(p, snap, hd) else CasFilled(p);
      MatchedOk(c, s, t, p, snap, hd, pc);
      GotoKeeps(c, s, t, pc);
    }
  }

  lemma MatchedOk(c: Config, s: State, t: nat, p: nat, snap: Snap, hd: BlockHeader, pc: PC)
    requires c.Valid() && Shape(c, s) && t < |s.threads| && ThreadOk(c, s, t)
    requires s.threads[t].pc == ReadColumn(p, snap, hd)
    requires s.owner[SlotAt(c, s, s.threads[t].op.row, p)] == Some(s.threads[t].op.row)
    requires pc == if s.threads[t].op.GetRow? then ReadValue(p, snap, hd) else CasFilled(p)
    ensures Shape(c, Goto(s, t, pc)) && ThreadOk(c, Goto(s, t, pc), t)
  {
    GotoLooks(c, s, t, pc, p, snap);
  }

  lemma ReadValueStep(c: Config, s: State, t: nat, p: nat, snap: Snap, hd: BlockHeader)
    requires Inv(c, s) && t < |s.threads| && s.threads[t].pc == ReadValue(p, snap, hd)
    ensures s.threads[t].op.GetRow? && |snap.fields| == FIELDS && Inv(c, DoReadValue(c, s, t, snap, hd))
  {
    assert ThreadOk(c, s, t);
    var s' := DoReadValue(c, s, t, snap, hd);
    ReaderFailKeeps(c, s, t, s'.threads[t].pc.out);
  }
}
