/**
 The steps that change shared memory or files: claiming and writing an extent,
 claiming a bucket, storing its words and publishing it.
 */
module RowProtocolWrites {
  import opened Wrappers
  import opened Bytes
  import opened Probing
  import opened FileIO
  import opened RowBlock
  import opened RowProtocol
  import opened RowProtocolInv
  import opened RowProtocolSteps

  // ---- Claiming an extent ---------------------------------------------------

  lemma ClaimStep(c: Config, s: State, t: nat, sequence: nat)
    requires Inv(c, s) && t < |s.threads| && s.threads[t].pc == ClaimExtent(sequence)
    ensures !s.threads[t].op.GetRow? && Inv(c, DoClaim(c, s, t, sequence))
  {
    assert ThreadOk(c, s, t);
    var op := s.threads[t].op;
    if !Writable(c.h, c.sizing, op.row, op.entries, sequence) {
      RefuseKeeps(c, s, t);
    } else {
      NewExtentIsBlock(c, s, t, sequence);
      var x := NewExtent(c, s, t, sequence);
      BlockAdded(c, s, AddExtent(s, t, x), x);
      ExtentAdded(c, s, AddExtent(s, t, x), t, x);
    }
  }

  lemma RefuseKeeps(c: Config, s: State, t: nat)
    requires Inv(c, s) && t < |s.threads| && s.threads[t].pc.ClaimExtent? && !s.threads[t].op.GetRow?
    ensures Inv(c, Goto(s, t, After(s.threads[t].op, TooLarge)))
  {
    GotoKeeps(c, s, t, After(s.threads[t].op, TooLarge));
  }

  lemma NewExtentIsBlock(c: Config, s: State, t: nat, sequence: nat)
    requires c.Valid() && Shape(c, s) && t < |s.threads| && !s.threads[t].op.GetRow?
    requires Writable(c.h, c.sizing, s.threads[t].op.row, s.threads[t].op.entries, sequence)
    ensures var x := NewExtent(c, s, t, sequence); IsBlock(c, x) && |x.bytes| > 0
  {
    BlocksHaveFacts(c, NewExtent(c, s, t, sequence));
  }

  /** `s'` is `s` with extent `x` claimed by thread `t`. */
  ghost predicate Claims(c: Config, s: State, s': State, t: nat, x: Extent) {
    && t < |s.threads| && c.shardCount > 0 && |s.append| == c.shardCount
    && !s.threads[t].op.GetRow? && x.row == s.threads[t].op.row && x.entries == s.threads[t].op.entries
    && x.thread == t && x.fate == Claimed && |x.bytes| > 0
    && x.shard == c.ShardFor(x.row) < |s.append| && x.offset == s.append[x.shard]
    && s' == AddExtent(s, t, x)
  }

  lemma ClaimExtends(c: Config, s: State, s': State, t: nat, x: Extent)
    requires c.Valid() && Shape(c, s) && Claims(c, s, s', t, x)
    ensures Shape(c, s') && Extends(s, s', t)
  {
  }

  lemma ExtentAdded(c: Config, s: State, s': State, t: nat, x: Extent)
    requires Inv(c, s) && t < |s.threads| && s.threads[t].pc.ClaimExtent? && !s.threads[t].op.GetRow?
    requires s.threads[t].op.UpdateRow? ==> s.threads[t].op.row in s.index
    requires BlocksOk(c, s') && Claims(c, s, s', t, x)
    ensures Inv(c, s')
  {
    ClaimExtends(c, s, s', t, x);
    ClaimThread(c, s, s', t, x);
    ClaimMemory(c, s, s', t, x);
    ClaimFiles(c, s, s', t, x);
  }

  lemma ClaimMemory(c: Config, s: State, s': State, t: nat, x: Extent)
    requires c.Valid() && Shape(c, s) && Shape(c, s') && Claims(c, s, s', t, x) && Extends(s, s', t)
    requires s.threads[t].pc.ClaimExtent? && ThreadOk(c, s', t) && Recounted(s, s', t)
    requires ThreadsOk(c, s) && SlotsOk(c, s) && IndexOk(s) && CountsOk(s) && TableOk(c, s)
    ensures ThreadsOk(c, s') && SlotsOk(c, s') && IndexOk(s') && CountsOk(s') && TableOk(c, s')
  {
    ThreadsKeep(c, s, s', t);
    SlotsUntouched(c, s, s', t);
    IndexKeeps(s, s', t);
    CountsKeep(s, s', t);
  }

  lemma ClaimFiles(c: Config, s: State, s': State, t: nat, x: Extent)
    requires c.Valid() && Shape(c, s) && Shape(c, s') && Claims(c, s, s', t, x) && Extends(s, s', t)
    requires s.threads[t].pc.ClaimExtent? && ExtentsOk(c, s) && Ordered(s) && FilesOk(s)
    ensures ExtentsOk(c, s') && Ordered(s') && FilesOk(s')
  {
    ClaimOrder(c, s, s', t, x);
    ClaimExtents(c, s, s', t, x);
  }

  lemma ClaimThread(c: Config, s: State, s': State, t: nat, x: Extent)
    requires c.Valid() && Shape(c, s) && Shape(c, s') && Claims(c, s, s', t, x) && s.threads[t].pc.ClaimExtent?
    requires s.threads[t].op.UpdateRow? ==> s.threads[t].op.row in s.index
    ensures ThreadOk(c, s', t)
    ensures Recounted(s, s', t) || s.nextSequence >= TWO64
  {
  }

  lemma ClaimExtents(c: Config, s: State, s': State, t: nat, x: Extent)
    requires c.Valid() && Shape(c, s) && Shape(c, s') && ExtentsOk(c, s) && FilesOk(s) && Extends(s, s', t)
    requires Claims(c, s, s', t, x) && s.threads[t].pc.ClaimExtent? && !s.threads[t].op.GetRow?
    ensures ExtentsOk(c, s')
  {
    forall e | 0 <= e < |s'.extents| ensures ExtentOk(c, s', e) {
      if e < |s.extents| {
        assert ExtentOk(c, s, e);
        ExtentKeeps(c, s, s', t, e);
      }
    }
  }

  lemma ClaimOrder(c: Config, s: State, s': State, t: nat, x: Extent)
    requires c.Valid() && Shape(c, s) && ExtentsOk(c, s) && Ordered(s) && Claims(c, s, s', t, x)
    ensures Ordered(s')
  {
    forall a, b | 0 <= a < b < |s'.extents| && s'.extents[a].shard == s'.extents[b].shard
      ensures s'.extents[a].offset + |s'.extents[a].bytes| <= s'.extents[b].offset
    {
      assert ExtentOk(c, s, a);
    }
  }

  lemma BlockAdded(c: Config, s: State, s': State, x: Extent)
    requires c.Valid() && BlocksOk(c, s) && IsBlock(c, x) && s'.extents == s.extents + [x]
    ensures BlocksOk(c, s')
  {
    hide IsBlock;
    forall y {:trigger IsBlock(c, y)} | y in s'.extents ensures IsBlock(c, y) {
      assert y in s.extents || y == x;
    }
  }

  // ---- Writing the block ------------------------------------------------------

  lemma InFileKeeps(file: seq<byte>, w: seq<byte>, o: nat, offset: nat, bytes: seq<byte>, d: nat)
    requires d <= |bytes| && InFile(file, offset, bytes, d)
    requires offset + |bytes| <= o || o + |w| <= offset
    ensures InFile(PWrite(file, w, o), offset, bytes, d)
  {
    PWriteMeaning(file, w, o);
  }

  lemma InFileGrows(file: seq<byte>, offset: nat, bytes: seq<byte>, done: nat, n: nat)
    requires done + n <= |bytes| && InFile(file, offset, bytes, done)
    ensures InFile(PWrite(file, bytes[done..done + n], offset + done), offset, bytes, done + n)
  {
    var w := bytes[done..done + n];
    var r := PWrite(file, w, offset + done);
    PWriteMeaning(file, w, offset + done);
    forall j | 0 <= j < done + n ensures offset + j < |r| && r[offset + j] == bytes[j] {
      if j >= done {
        assert w[j - done] == r[offset + done..offset + done + |w|][j - done];
      } else {
        assert offset + j < |file| && file[offset + j] == bytes[j];
      }
    }
  }

  lemma WriteStepKeeps(c: Config, s: State, t: nat, done: nat, n: nat)
    requires Inv(c, s) && t < |s.threads| && s.threads[t].pc == WriteBlock(done)
    requires s.threads[t].ext < |s.extents|
    requires var x := s.extents[s.threads[t].ext]; x.shard < |s.files| && 0 < n <= |x.bytes| - done
    ensures Inv(c, DoWrite(s, t, done, n))
  {
    hide Ordered, BlocksOk, SlotsOk, IndexOk, TableOk, CountsOk, PWrite;
    assert ThreadOk(c, s, t);
    var e := s.threads[t].ext;
    var x := s.extents[e];
    assert ExtentOk(c, s, e);
    InFileGrows(s.files[x.shard], x.offset, x.bytes, done, n);
    if done + n == |x.bytes| {
      BytesWritten(c, s, DoWrite(s, t, done, n), t, done, n, x.(fate := Written));
    } else {
      BytesWritten(c, s, DoWrite(s, t, done, n), t, done, n, x);
    }
  }

  lemma WriteDisturbsNoOther(c: Config, s: State, e: nat, e': nat, done: nat, n: nat, d: nat)
    requires Ordered(s) && e < |s.extents| && e' < |s.extents| && e != e'
    requires s.extents[e'].shard == s.extents[e].shard < |s.files| && done + n <= |s.extents[e].bytes|
    requires d <= |s.extents[e'].bytes| && InFile(s.files[s.extents[e].shard], s.extents[e'].offset, s.extents[e'].bytes, d)
    ensures var x := s.extents[e];
      InFile(PWrite(s.files[x.shard], x.bytes[done..done + n], x.offset + done), s.extents[e'].offset, s.extents[e'].bytes, d)
  {
    var x := s.extents[e];
    InFileKeeps(s.files[x.shard], x.bytes[done..done + n], x.offset + done, s.extents[e'].offset, s.extents[e'].bytes, d);
  }

  lemma WriteExtends(c: Config, s: State, s': State, t: nat, done: nat, n: nat, y: Extent)
    requires c.Valid() && Shape(c, s) && Ordered(s) && t < |s.threads| && Owner(s, t, Claimed) && |s'.threads| == |s.threads|
    requires var x := s.extents[s.threads[t].ext];
      && x.shard < |s.files| && done + n <= |x.bytes| && y.(fate := Claimed) == x
      && s' == s.(files := s.files[x.shard := PWrite(s.files[x.shard], x.bytes[done..done + n], x.offset + done)],
                  extents := s.extents[s.threads[t].ext := y], threads := s.threads[t := s'.threads[t]])
    ensures Shape(c, s') && Extends(s, s', t)
  {
    var e := s.threads[t].ext;
    var x := s.extents[e];
    forall e', d | 0 <= e' < |s.extents| && 0 <= d <= |s.extents[e'].bytes| && s.extents[e'].shard < |s.files|
          && (s.extents[e'].thread != t || !s.extents[e'].fate.Claimed?)
          && InFile(s.files[s.extents[e'].shard], s.extents[e'].offset, s.extents[e'].bytes, d)
      ensures InFile(s'.files[s.extents[e'].shard], s.extents[e'].offset, s.extents[e'].bytes, d)
    {
      if s.extents[e'].shard == x.shard {
        assert e' != e;
        WriteDisturbsNoOther(c, s, e, e', done, n, d);
      }
    }
  }

  /** `s'` is `s` with bytes `done..done+n` of `t`'s block in the file. */
  ghost predicate Writes(s: State, s': State, t: nat, done: nat, n: nat, y: Extent)
    requires t < |s.threads|
  {
    && Owner(s, t, Claimed) && |s'.threads| == |s.threads|
    && var x := s.extents[s.threads[t].ext];
    && x.shard < |s.files| && 0 < n && done + n <= |x.bytes|
    && y == (if done + n == |x.bytes| then x.(fate := Written) else x)
    && s' == s.(files := s.files[x.shard := PWrite(s.files[x.shard], x.bytes[done..done + n], x.offset + done)],
                extents := s.extents[s.threads[t].ext := y], threads := s.threads[t := s'.threads[t]])
    && s'.threads[t] == s.threads[t].(pc := if done + n == |x.bytes| then Probing(0) else WriteBlock(done + n))
  }

  lemma BytesWritten(c: Config, s: State, s': State, t: nat, done: nat, n: nat, y: Extent)
    requires Inv(c, s) && t < |s.threads| && s.threads[t].pc == WriteBlock(done) && Writes(s, s', t, done, n, y)
    requires s.threads[t].op.UpdateRow? ==> s.threads[t].op.row in s.index
    requires InFile(s'.files[y.shard], y.offset, y.bytes, done + n)
    ensures Inv(c, s')
  {
    hide Ordered, BlocksOk, SlotsOk, IndexOk;
    assert ExtentOk(c, s, s.threads[t].ext);
    WriteExtends(c, s, s', t, done, n, y);
    WrittenThread(c, s, s', t, done, n, y);
    ThreadsKeep(c, s, s', t);
    SlotsUntouched(c, s, s', t);
    IndexKeeps(s, s', t);
    BlocksKeep(c, s, s', t);
    OrderKeeps(s, s', t);
    CountsKeep(s, s', t);
    WrittenExtents(c, s, s', t, done, n, y);
  }

  lemma WrittenThread(c: Config, s: State, s': State, t: nat, done: nat, n: nat, y: Extent)
    requires c.Valid() && Shape(c, s) && Shape(c, s') && t < |s.threads| && s.threads[t].pc == WriteBlock(done)
    requires Writes(s, s', t, done, n, y) && InFile(s'.files[y.shard], y.offset, y.bytes, done + n)
    requires s.threads[t].op.UpdateRow? ==> s.threads[t].op.row in s.index
    ensures ThreadOk(c, s', t) && Recounted'(s, s', t)
  {
  }

  ghost predicate Recounted'(s: State, s': State, t: nat)
    requires t < |s.threads| == |s'.threads|
  {
    Weight(Reserved, s.threads[t]) == Weight(Reserved, s'.threads[t])
    && Weight(Uncounted, s.threads[t]) == Weight(Uncounted, s'.threads[t])
  }

  lemma WrittenExtents(c: Config, s: State, s': State, t: nat, done: nat, n: nat, y: Extent)
    requires c.Valid() && Shape(c, s) && Shape(c, s') && ExtentsOk(c, s) && FilesOk(s) && Extends(s, s', t)
    requires t < |s.threads| && s.threads[t].pc == WriteBlock(done) && Writes(s, s', t, done, n, y)
    requires InFile(s'.files[y.shard], y.offset, y.bytes, done + n)
    ensures ExtentsOk(c, s') && FilesOk(s')
  {
    assert ExtentOk(c, s, s.threads[t].ext);
    forall e | 0 <= e < |s'.extents| ensures ExtentOk(c, s', e) {
      assert ExtentOk(c, s, e);
      if e != s.threads[t].ext { ExtentKeeps(c, s, s', t, e); }
    }
  }

  // ---- Claiming a bucket --------------------------------------------------------

  /** No bucket is being written by a thread that is not storing. */
  lemma NotHolding(c: Config, s: State, t: nat, j: nat)
    requires c.Valid() && Shape(c, s) && SlotsOk(c, s) && t < |s.threads| && j < |s.slots| && !IsStoring(s.threads[t].pc)
    ensures s.slots[j].state == Writing ==> s.slots[j].holder != t
  {
    assert SlotOk(c, s, j);
  }

  /** What the claim of bucket `i` by a compare-and-swap needs. */
  ghost predicate MayTake(c: Config, s: State, t: nat, p: nat, i: nat, inserted: bool)
    requires c.Valid() && Shape(c, s) && t < |s.threads|
  {
    && (s.threads[t].pc.CasEmpty? || s.threads[t].pc.CasFilled?)
    && Owner(s, t, Written) && p < |s.slots| && i == SlotAt(c, s, s.threads[t].op.row, p)
    && (s.threads[t].op.UpdateRow? ==> s.threads[t].op.row in s.index)
    && SlotOk(c, s, i)
    && (if inserted then s.slots[i].state == Empty && s.threads[t].op.PutRow? && LookOk(c, s, t, p)
        else s.slots[i].state == Filled && s.owner[i] == Some(s.threads[t].op.row))
  }

  lemma TakeExtends(c: Config, s: State, t: nat, p: nat, i: nat, inserted: bool)
    requires c.Valid() && Shape(c, s) && t < |s.threads| && MayTake(c, s, t, p, i, inserted)
    ensures var s' := Take(s, t, i, StoreField(p, 0, inserted)); Shape(c, s') && Extends(s, s', t) && ThreadOk(c, s', t)
  {
  }

  lemma TakeTable(c: Config, s: State, t: nat, p: nat, i: nat, inserted: bool)
    requires c.Valid() && Shape(c, s) && TableOk(c, s) && t < |s.threads| && MayTake(c, s, t, p, i, inserted)
    ensures var s' := Take(s, t, i, StoreField(p, 0, inserted));
      TableOk(c, s') && Occupied(s'.owner) == Occupied(s.owner) + (if inserted then 1 else 0)
  {
    var r := s.threads[t].op.row;
    if inserted {
      DistAt(c.Start(r, |s.slots|), p, |s.slots|);
      FillKeeps(s.owner, c.RowHome(), r, i);
      OccupiedFill(s.owner, i, r);
    } else {
      assert s.owner[i := Some(r)] == s.owner;
    }
  }

  lemma TakeKeeps(c: Config, s: State, t: nat, p: nat, i: nat, inserted: bool)
    requires Inv(c, s) && t < |s.threads| && MayTake(c, s, t, p, i, inserted)
    ensures Inv(c, Take(s, t, i, StoreField(p, 0, inserted)))
  {
    var s' := Take(s, t, i, StoreField(p, 0, inserted));
    TakeExtends(c, s, t, p, i, inserted);
    TakeTable(c, s, t, p, i, inserted);
    TakeParts(c, s, s', t, p, i, inserted);
  }

  lemma TakeRecounts(c: Config, s: State, s': State, t: nat, p: nat, i: nat, inserted: bool)
    requires c.Valid() && Shape(c, s) && t < |s.threads| && MayTake(c, s, t, p, i, inserted) && CountsOk(s)
    requires s' == Take(s, t, i, StoreField(p, 0, inserted))
    requires Occupied(s'.owner) == Occupied(s.owner) + (if inserted then 1 else 0)
    ensures CountsOk(s')
  {
    CountsKeep(s, s', t);
  }

  lemma TakeParts(c: Config, s: State, s': State, t: nat, p: nat, i: nat, inserted: bool)
    requires Inv(c, s) && t < |s.threads| && MayTake(c, s, t, p, i, inserted)
    requires s' == Take(s, t, i, StoreField(p, 0, inserted)) && Shape(c, s') && Extends(s, s', t) && ThreadOk(c, s', t)
    requires TableOk(c, s') && Occupied(s'.owner) == Occupied(s.owner) + (if inserted then 1 else 0)
    ensures Inv(c, s')
  {
    hide Ordered, BlocksOk, SlotsOk, IndexOk, CountsOk, TableOk;
    ThreadsKeep(c, s, s', t);
    IndexKeeps(s, s', t);
    BlocksKeep(c, s, s', t);
    OrderKeeps(s, s', t);
    TakeRecounts(c, s, s', t, p, i, inserted);
    TakeSlots(c, s, s', t, p, i, inserted);
  }

  lemma TakeSlots(c: Config, s: State, s': State, t: nat, p: nat, i: nat, inserted: bool)
    requires c.Valid() && Shape(c, s) && SlotsOk(c, s) && ExtentsOk(c, s) && t < |s.threads| && MayTake(c, s, t, p, i, inserted)
    requires s' == Take(s, t, i, StoreField(p, 0, inserted)) && Shape(c, s') && Extends(s, s', t)
    ensures SlotsOk(c, s') && ExtentsOk(c, s')
  {
    SlotsAfterTake(c, s, s', t, p, i, inserted);
    ExtentsAfterFate(c, s, s', t, Storing);
  }

  lemma SlotsAfterTake(c: Config, s: State, s': State, t: nat, p: nat, i: nat, inserted: bool)
    requires c.Valid() && Shape(c, s) && Shape(c, s') && SlotsOk(c, s) && Extends(s, s', t) && t < |s.threads|
    requires p < |s.slots| && i == SlotAt(c, s, s.threads[t].op.row, p) && !IsStoring(s.threads[t].pc)
    requires s'.threads[t].op == s.threads[t].op && s'.threads[t].pc == StoreField(p, 0, inserted) && s'.index == s.index
    requires s'.slots == s.slots[i := s.slots[i].(state := Writing, holder := t)]
    requires s'.owner == s.owner[i := Some(s.threads[t].op.row)]
    requires s.owner[i].Some? ==> s.owner[i] == Some(s.threads[t].op.row)
    ensures SlotsOk(c, s')
  {
    forall j | 0 <= j < |s'.slots| ensures SlotOk(c, s', j) {
      assert SlotOk(c, s, j);
      if j != i {
        NotHolding(c, s, t, j);
        SlotKeeps(c, s, s', t, j);
      } else if s.slots[i].filled {
        SnapKeeps(c, s, s', t, i, Snap(s.slots[i].fields, s.slots[i].src));
      }
    }
  }

  /** The extents after a step that only moved the fate of `t`'s extent forward. */
  lemma ExtentsAfterFate(c: Config, s: State, s': State, t: nat, fate: Fate)
    requires c.Valid() && Shape(c, s) && Shape(c, s') && ExtentsOk(c, s) && Extends(s, s', t) && t < |s.threads|
    requires Owner(s, t, Written) || Owner(s, t, Storing)
    requires var e := s.threads[t].ext;
      && s'.extents == s.extents[e := s.extents[e].(fate := fate)]
      && s'.threads[t].ext == e && s'.append == s.append && s'.files == s.files
      && (fate == Published || (fate == Storing && Owns(s'.threads[t], Storing)))
    ensures ExtentsOk(c, s')
  {
    var e := s.threads[t].ext;
    forall x | 0 <= x < |s'.extents| ensures ExtentOk(c, s', x) {
      assert ExtentOk(c, s, x);
      if x != e { ExtentKeeps(c, s, s', t, x); }
    }
  }

  lemma CasEmptyStep(c: Config, s: State, t: nat, p: nat)
    requires Inv(c, s) && t < |s.threads| && s.threads[t].pc == CasEmpty(p)
    ensures p < |s.slots| && Inv(c, DoCasEmpty(c, s, t, p))
  {
    assert ThreadOk(c, s, t);
    var i := SlotAt(c, s, s.threads[t].op.row, p);
    assert SlotOk(c, s, i);
    if s.slots[i].state == Empty { TakeKeeps(c, s, t, p, i, true); } else { RestartKeeps(c, s, t); }
  }

  lemma CasFilledStep(c: Config, s: State, t: nat, p: nat)
    requires Inv(c, s) && t < |s.threads| && s.threads[t].pc == CasFilled(p)
    ensures p < |s.slots| && Inv(c, DoCasFilled(c, s, t, p))
  {
    assert ThreadOk(c, s, t);
    var i := SlotAt(c, s, s.threads[t].op.row, p);
    assert SlotOk(c, s, i);
    if s.slots[i].state == Filled { TakeKeeps(c, s, t, p, i, false); } else { RestartKeeps(c, s, t); }
  }

  // ---- Storing and publishing ----------------------------------------------------

  lemma StoreExtends(c: Config, s: State, t: nat, p: nat, k: nat, inserted: bool)
    requires c.Valid() && Shape(c, s) && t < |s.threads| && ThreadOk(c, s, t) && s.threads[t].pc == StoreField(p, k, inserted)
    ensures var s' := DoStoreField(c, s, t, p, k, inserted); Shape(c, s') && Extends(s, s', t) && ThreadOk(c, s', t)
  {
    assert StoreOk(c, DoStoreField(c, s, t, p, k, inserted), t, p, k + 1, inserted);
  }

  lemma StoreFieldStep(c: Config, s: State, t: nat, p: nat, k: nat, inserted: bool)
    requires Inv(c, s) && t < |s.threads| && s.threads[t].pc == StoreField(p, k, inserted)
    ensures p < |s.slots| && k < FIELDS && s.threads[t].ext < |s.extents| && Inv(c, DoStoreField(c, s, t, p, k, inserted))
  {
    assert ThreadOk(c, s, t);
    StoreExtends(c, s, t, p, k, inserted);
    StoreParts(c, s, DoStoreField(c, s, t, p, k, inserted), t, p, k, inserted);
  }

  lemma StoreParts(c: Config, s: State, s': State, t: nat, p: nat, k: nat, inserted: bool)
    requires Inv(c, s) && t < |s.threads| && s.threads[t].pc == StoreField(p, k, inserted) && k < FIELDS
    requires StoreOk(c, s, t, p, k, inserted) && s' == DoStoreField(c, s, t, p, k, inserted)
    requires Shape(c, s') && Extends(s, s', t) && ThreadOk(c, s', t)
    ensures Inv(c, s')
  {
    hide Ordered, BlocksOk, SlotsOk, IndexOk;
    ThreadsKeep(c, s, s', t);
    IndexKeeps(s, s', t);
    BlocksKeep(c, s, s', t);
    OrderKeeps(s, s', t);
    CountsKeep(s, s', t);
    SlotsAfterStore(c, s, s', t, p, k, inserted);
    ExtentsUntouched(c, s, s', t);
  }

  lemma ExtentsUntouched(c: Config, s: State, s': State, t: nat)
    requires c.Valid() && Shape(c, s) && Shape(c, s') && ExtentsOk(c, s) && Extends(s, s', t) && t < |s.threads|
    requires s'.extents == s.extents && s'.append == s.append && s'.files == s.files
    requires s'.threads[t].ext == s.threads[t].ext && s'.threads[t].op == s.threads[t].op
    requires IsStoring(s.threads[t].pc) && IsStoring(s'.threads[t].pc)
    ensures ExtentsOk(c, s')
  {
    forall x | 0 <= x < |s'.extents| ensures ExtentOk(c, s', x) {
      assert ExtentOk(c, s, x);
      ExtentKeeps(c, s, s', t, x);
    }
  }

  lemma SlotsAfterStore(c: Config, s: State, s': State, t: nat, p: nat, k: nat, inserted: bool)
    requires c.Valid() && Shape(c, s) && SlotsOk(c, s) && t < |s.threads| && s.threads[t].pc == StoreField(p, k, inserted)
    requires k < FIELDS && StoreOk(c, s, t, p, k, inserted) && s' == DoStoreField(c, s, t, p, k, inserted)
    requires Shape(c, s') && Extends(s, s', t)
    ensures SlotsOk(c, s')
  {
    var i := SlotAt(c, s, s.threads[t].op.row, p);
    var e := s.threads[t].ext;
    forall j | 0 <= j < |s'.slots| ensures SlotOk(c, s', j) {
      assert SlotOk(c, s, j);
      if j != i {
        SlotKeeps(c, s, s', t, j);
      } else if s.slots[i].filled {
        var old', now := Snap(s.slots[i].fields, s.slots[i].src), Snap(s'.slots[i].fields, s'.slots[i].src);
        SnapKeeps(c, s, s', t, i, old');
        assert Good(s', e, s'.owner[i].value);
        SnapReplaced(c, s', i, old', now, k, e);
      }
    }
  }

  lemma SnapReplaced(c: Config, s: State, i: nat, a: Snap, b: Snap, k: nat, e: nat)
    requires c.Valid() && Shape(c, s) && i < |s.slots| && SnapOk(c, s, i, a) && |a.src| == FIELDS && k < FIELDS
    requires Good(s, e, s.owner[i].value)
    requires b == Snap(a.fields[k := FieldOf(c, s.extents[e], k)], a.src[k := e])
    ensures SnapOk(c, s, i, b)
  {
    forall j | 0 <= j < |b.src|
      ensures Good(s, b.src[j], s.owner[i].value) && b.fields[j] == FieldOf(c, s.extents[b.src[j]], j)
    {
      assert Good(s, a.src[j], s.owner[i].value);
    }
  }

  lemma PublishExtends(c: Config, s: State, t: nat, p: nat, inserted: bool)
    requires c.Valid() && Shape(c, s) && t < |s.threads| && ThreadOk(c, s, t) && s.threads[t].pc == Publish(p, inserted)
    ensures var s' := DoPublish(c, s, t, p, inserted); Shape(c, s') && Extends(s, s', t) && ThreadOk(c, s', t)
  {
  }

  lemma PublishStep(c: Config, s: State, t: nat, p: nat, inserted: bool)
    requires Inv(c, s) && t < |s.threads| && s.threads[t].pc == Publish(p, inserted)
    ensures p < |s.slots| && Inv(c, DoPublish(c, s, t, p, inserted))
  {
    assert ThreadOk(c, s, t);
    PublishExtends(c, s, t, p, inserted);
    PublishParts(c, s, DoPublish(c, s, t, p, inserted), t, p, inserted);
  }

  lemma PublishParts(c: Config, s: State, s': State, t: nat, p: nat, inserted: bool)
    requires Inv(c, s) && t < |s.threads| && s.threads[t].pc == Publish(p, inserted)
    requires StoreOk(c, s, t, p, FIELDS, inserted) && s' == DoPublish(c, s, t, p, inserted)
    requires Shape(c, s') && Extends(s, s', t) && ThreadOk(c, s', t)
    ensures Inv(c, s')
  {
    ThreadsKeep(c, s, s', t);
    BlocksKeep(c, s, s', t);
    OrderKeeps(s, s', t);
    CountsKeep(s, s', t);
    ExtentsAfterFate(c, s, s', t, Published);
    SlotsAfterPublish(c, s, s', t, p, inserted);
    IndexAfterPublish(c, s, s', t, p, inserted);
  }

  lemma SlotsAfterPublish(c: Config, s: State, s': State, t: nat, p: nat, inserted: bool)
    requires c.Valid() && Shape(c, s) && SlotsOk(c, s) && TableOk(c, s) && t < |s.threads|
    requires s.threads[t].pc == Publish(p, inserted) && StoreOk(c, s, t, p, FIELDS, inserted)
    requires s' == DoPublish(c, s, t, p, inserted) && Shape(c, s') && Extends(s, s', t)
    ensures SlotsOk(c, s')
  {
    var i := SlotAt(c, s, s.threads[t].op.row, p);
    var e := s.threads[t].ext;
    assert Good(s', e, s.threads[t].op.row);
    forall j | 0 <= j < |s'.slots| ensures SlotOk(c, s', j) {
      assert SlotOk(c, s, j);
      if j != i {
        if s.slots[j].filled { assert s.owner[j] != s.owner[i]; }
        SlotKeeps(c, s, s', t, j);
      }
    }
  }

  lemma IndexAfterPublish(c: Config, s: State, s': State, t: nat, p: nat, inserted: bool)
    requires c.Valid() && Shape(c, s) && IndexOk(s) && t < |s.threads|
    requires s.threads[t].pc == Publish(p, inserted) && StoreOk(c, s, t, p, FIELDS, inserted)
    requires s' == DoPublish(c, s, t, p, inserted) && Shape(c, s') && Extends(s, s', t)
    ensures IndexOk(s')
  {
    forall r | r in s'.index ensures PubOk(s', r, s'.index[r]) {
      if r != s.threads[t].op.row { PubKeeps(s, s', t, r); }
    }
  }

  // ---- Every step ------------------------------------------------------------------

  /** The invariant is kept by every step of every thread. */
  lemma StepKeepsInvariant(c: Config, s: State, s': State, t: nat)
    requires Inv(c, s) && Step(c, s, s', t)
    ensures Inv(c, s')
  {
    hide ExtentsOk, Ordered, BlocksOk, FilesOk, SlotsOk, IndexOk, TableOk, CountsOk, LookOk, SnapOk, StoreOk;
    assert ThreadOk(c, s, t);
    match s.threads[t].pc
    case Idle(_) => var op :| Begin(s, s', t, op); BeginKeeps(c, s, s', t, op);
    case LoadItems => CounterKeeps(c, s, s', t);
    case LoadPending(_) => CounterKeeps(c, s, s', t);
    case TryReserve(v, q) => TryReserveKeeps(c, s, s', t, v, q);
    case TakeSequence => CounterKeeps(c, s, s', t);
    case ClaimExtent(q) => ClaimStep(c, s, t, q);
    case WriteBlock(done) =>
      if s' == Fail(s, t, WriteFailed) {
        FailKeeps(c, s, t, WriteFailed);
      } else {
        var n :| 0 < n <= |s.extents[s.threads[t].ext].bytes| - done && s' == DoWrite(s, t, done, n);
        WriteStepKeeps(c, s, t, done, n);
      }
    case Probing(p) => ProbeStep(c, s, t, p);
    case LoadField(p, snap) => LoadFieldStep(c, s, t, p, snap);
    case Recheck(p, snap) => RecheckStep(c, s, t, p, snap);
    case ReadHeader(p, snap) => ReadHeaderStep(c, s, t, p, snap);
    case ReadColumn(p, snap, hd) => ReadColumnStep(c, s, t, p, snap, hd);
    case CasEmpty(p) => CasEmptyStep(c, s, t, p);
    case CasFilled(p) => CasFilledStep(c, s, t, p);
    case StoreField(p, k, ins) => StoreFieldStep(c, s, t, p, k, ins);
    case Publish(p, ins) => PublishStep(c, s, t, p, ins);
    case CountItem => CounterKeeps(c, s, s', t);
    case Release(_) => CounterKeeps(c, s, s', t);
    case ReadValue(p, snap, hd) => ReadValueStep(c, s, t, p, snap, hd);
  }
}
