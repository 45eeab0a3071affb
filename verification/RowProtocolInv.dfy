/**
 What every reachable state of the row index protocol satisfies.

 The invariant is proved thread-modularly: `Extends` is what a step of one thread
 guarantees to the others, and `OthersKeep` shows that every thread's own
 assertions survive it.
 */
module RowProtocolInv {
  import opened Wrappers
  import opened Bytes
  import opened Words
  import opened Probing
  import opened RowBlock
  import opened RowProtocol

  // ---- Extents -------------------------------------------------------------

  /** A write that has claimed its bucket, and so will be or has been published. */
  predicate IsStored(x: Extent) { x.fate.Storing? || x.fate.Published? }

  /** Extent `e` holds a complete block of row `r` that some bucket points or pointed at. */
  ghost predicate Good(s: State, e: nat, r: Row) {
    e < |s.extents| && s.extents[e].row == r && IsStored(s.extents[e])
  }

  /** The first `d` bytes are in the file. */
  ghost predicate InFile(file: seq<byte>, offset: nat, bytes: seq<byte>, d: nat)
    requires d <= |bytes|
  {
    && (d > 0 ==> offset + d <= |file|)
    && forall j :: 0 <= j < d ==> offset + j < |file| && file[offset + j] == bytes[j]
  }

  predicate IsStoring(pc: PC) { pc.StoreField? || pc.Publish? }

  predicate IsLooking(pc: PC) {
    pc.Probing? || pc.LoadField? || pc.Recheck? || pc.ReadHeader? || pc.ReadColumn? || pc.CasEmpty? || pc.CasFilled?
  }

  /** A thread that is responsible for an extent with this fate. */
  predicate Owns(th: Thread, fate: Fate) {
    !th.op.GetRow? &&
    match fate
    case Claimed => th.pc.WriteBlock?
    case Written => IsLooking(th.pc)
    case Storing => IsStoring(th.pc)
    case Published => false
    case Abandoned => false
  }

  ghost predicate ExtentOk(c: Config, s: State, e: nat)
    requires c.Valid() && Shape(c, s) && e < |s.extents|
  {
    var x := s.extents[e];
    && x.shard == c.ShardFor(x.row) < c.shardCount
    && ROW_FILE_HEADER_SIZE <= x.offset && x.offset + |x.bytes| <= s.append[x.shard]
    && |x.bytes| > 0
    && x.thread < |s.threads|
    && (x.fate.Written? || x.fate.Storing? || x.fate.Published? ==> InFile(s.files[x.shard], x.offset, x.bytes, |x.bytes|))
    && (x.fate.Claimed? || x.fate.Written? || x.fate.Storing? ==>
          s.threads[x.thread].ext == e && Owns(s.threads[x.thread], x.fate))
  }

  ghost predicate ExtentsOk(c: Config, s: State)
    requires c.Valid() && Shape(c, s)
  {
    forall e :: 0 <= e < |s.extents| ==> ExtentOk(c, s, e)
  }

  /** Extents of one shard lie one after the other in the order they were claimed. */
  ghost predicate Ordered(s: State) {
    forall a, b :: 0 <= a < b < |s.extents| && s.extents[a].shard == s.extents[b].shard
      ==> s.extents[a].offset + |s.extents[a].bytes| <= s.extents[b].offset
  }

  ghost predicate IsBlock(c: Config, x: Extent)
    requires c.Valid()
  {
    Writable(c.h, c.sizing, x.row, x.entries, x.sequence) && x.bytes == BlockBytes(c.h, c.sizing, x.row, x.entries, x.sequence)
  }

  ghost predicate BlocksOk(c: Config, s: State)
    requires c.Valid()
  {
    forall x {:trigger IsBlock(c, x)} :: x in s.extents ==> IsBlock(c, x)
  }

  // ---- Threads -------------------------------------------------------------

  /** Thread `t` owns its extent, which has this fate. */
  ghost predicate Owner(s: State, t: nat, fate: Fate)
    requires t < |s.threads|
  {
    var th := s.threads[t];
    !th.op.GetRow? && th.ext < |s.extents|
    && var x := s.extents[th.ext];
    x.thread == t && x.fate == fate && x.row == th.op.row && x.entries == th.op.entries
  }

  /** A probe in progress: every bucket before `p` holds another row for good. */
  ghost predicate LookOk(c: Config, s: State, t: nat, p: nat)
    requires c.Valid() && Shape(c, s) && t < |s.threads|
  {
    var op := s.threads[t].op;
    && p < |s.slots|
    && Passed(s.owner, op.row, c.Start(op.row, |s.slots|), p)
    && (!op.GetRow? ==> Owner(s, t, Written))
  }

  /** Every loaded word was stored from a complete extent of the row that owns the bucket. */
  ghost predicate SnapOk(c: Config, s: State, i: nat, snap: Snap)
    requires c.Valid() && Shape(c, s) && i < |s.slots|
  {
    && s.owner[i].Some? && s.slots[i].filled
    && |snap.fields| == |snap.src| <= FIELDS
    && forall k :: 0 <= k < |snap.src| ==>
         Good(s, snap.src[k], s.owner[i].value) && snap.fields[k] == FieldOf(c, s.extents[snap.src[k]], k)
  }

  predicate SnapFor(c: Config, snap: Snap, r: Row) {
    |snap.fields| == FIELDS == |snap.src| && snap.fields[1] == c.h.HashString(r.column) && snap.fields[2] == r.id
  }

  /** The header read is that of the extent the block offset came from. */
  ghost predicate HeaderOk(s: State, snap: Snap, hd: BlockHeader) {
    |snap.src| == FIELDS && snap.src[3] < |s.extents|
    && var x := s.extents[snap.src[3]];
    |x.bytes| >= BLOCK_HEADER_SIZE && ParseBlockHeader(x.bytes[..BLOCK_HEADER_SIZE]) == hd
  }

  /** Thread `t` holds the bucket at probe `p` in state Writing and has stored its first `k` words. */
  ghost predicate StoreOk(c: Config, s: State, t: nat, p: nat, k: nat, inserted: bool)
    requires c.Valid() && Shape(c, s) && t < |s.threads|
  {
    var th := s.threads[t];
    && p < |s.slots| && k <= FIELDS && Owner(s, t, Storing)
    && var i := SlotAt(c, s, th.op.row, p);
    && s.slots[i].state == Writing && s.slots[i].holder == t && s.owner[i] == Some(th.op.row)
    && (forall j :: 0 <= j < k ==> s.slots[i].src[j] == th.ext && s.slots[i].fields[j] == FieldOf(c, s.extents[th.ext], j))
    && (inserted <==> !s.slots[i].filled)
    && (inserted ==> th.op.PutRow?)
  }

  ghost predicate ThreadOk(c: Config, s: State, t: nat)
    requires c.Valid() && Shape(c, s) && t < |s.threads|
  {
    var th := s.threads[t];
    var r := th.op.row;
    && (th.op.UpdateRow? && !th.pc.Idle? ==> r in s.index)
    && match th.pc
       case Idle(_) => true
       case LoadItems => th.op.PutRow?
       case LoadPending(_) => th.op.PutRow?
       case TryReserve(_, _) => th.op.PutRow?
       case TakeSequence => !th.op.GetRow?
       case ClaimExtent(q) => !th.op.GetRow? && q < TWO64
       case WriteBlock(done) =>
         Owner(s, t, Claimed)
         && (var x := s.extents[th.ext];
             done < |x.bytes| && x.shard < |s.files| && InFile(s.files[x.shard], x.offset, x.bytes, done))
       case Probing(p) => LookOk(c, s, t, p)
       case LoadField(p, snap) => LookOk(c, s, t, p) && SnapOk(c, s, SlotAt(c, s, r, p), snap) && |snap.src| < FIELDS
       case Recheck(p, snap) => LookOk(c, s, t, p) && SnapOk(c, s, SlotAt(c, s, r, p), snap) && |snap.src| == FIELDS
       case ReadHeader(p, snap) => LookOk(c, s, t, p) && SnapOk(c, s, SlotAt(c, s, r, p), snap) && SnapFor(c, snap, r)
       case ReadColumn(p, snap, hd) =>
         LookOk(c, s, t, p) && SnapOk(c, s, SlotAt(c, s, r, p), snap) && SnapFor(c, snap, r)
         && HeaderOk(s, snap, hd) && hd.columnSize == |r.column| && hd.blockSize == snap.fields[4]
       case CasEmpty(p) => LookOk(c, s, t, p) && th.op.PutRow?
       case CasFilled(p) => LookOk(c, s, t, p) && !th.op.GetRow? && s.owner[SlotAt(c, s, r, p)] == Some(r)
                            && s.slots[SlotAt(c, s, r, p)].filled
       case StoreField(p, k, ins) => StoreOk(c, s, t, p, k, ins) && k < FIELDS
       case Publish(p, ins) => StoreOk(c, s, t, p, FIELDS, ins)
       case CountItem => th.op.PutRow?
       case Release(_) => th.op.PutRow?
       case ReadValue(p, snap, hd) =>
         LookOk(c, s, t, p) && SnapOk(c, s, SlotAt(c, s, r, p), snap) && SnapFor(c, snap, r) && th.op.GetRow?
         && HeaderOk(s, snap, hd) && hd.blockSize == snap.fields[4] && s.owner[SlotAt(c, s, r, p)] == Some(r)
  }

  ghost predicate ThreadsOk(c: Config, s: State)
    requires c.Valid() && Shape(c, s)
  {
    forall t :: 0 <= t < |s.threads| ==> ThreadOk(c, s, t)
  }

  // ---- Buckets -------------------------------------------------------------

  /** Thread `t` is between its claim of bucket `i` and its Filled store. */
  ghost predicate HoldsSlot(c: Config, s: State, t: nat, i: nat)
    requires Shape(c, s) && t < |s.threads|
  {
    var th := s.threads[t];
    match th.pc
    case StoreField(p, _, _) => p < |s.slots| && SlotAt(c, s, th.op.row, p) == i
    case Publish(p, _) => p < |s.slots| && SlotAt(c, s, th.op.row, p) == i
    case _ => false
  }

  ghost predicate SlotOk(c: Config, s: State, i: nat)
    requires c.Valid() && Shape(c, s) && i < |s.slots|
  {
    var slot := s.slots[i];
    && (slot.state == Empty <==> s.owner[i] == None)
    && (slot.state == Empty ==> !slot.filled)
    && (slot.state == Filled ==> slot.filled)
    && (slot.state == Writing ==> slot.holder < |s.threads| && HoldsSlot(c, s, slot.holder, i))
    && (slot.filled ==> s.owner[i].Some? && SnapOk(c, s, i, Snap(slot.fields, slot.src)))
    && (slot.filled ==> s.owner[i].value in s.index && s.index[s.owner[i].value].slot == i)
    && (slot.state == Filled ==> forall k :: 0 <= k < FIELDS ==> slot.src[k] == s.index[s.owner[i].value].ext)
  }

  ghost predicate SlotsOk(c: Config, s: State)
    requires c.Valid() && Shape(c, s)
  {
    forall i :: 0 <= i < |s.slots| ==> SlotOk(c, s, i)
  }

  ghost predicate IndexOk(s: State)
    requires |s.slots| == |s.owner|
  {
    forall r :: r in s.index ==> PubOk(s, r, s.index[r])
  }

  ghost predicate PubOk(s: State, r: Row, pub: Pub)
    requires |s.slots| == |s.owner|
  {
    && pub.slot < |s.slots| && s.owner[pub.slot] == Some(r) && s.slots[pub.slot].filled
    && pub.ext < |s.extents| && s.extents[pub.ext].row == r && s.extents[pub.ext].fate.Published?
  }

  /** The claimed buckets form an open-addressing table of distinct rows. */
  ghost predicate TableOk(c: Config, s: State) {
    Chained(s.owner, c.RowHome()) && Distinct(s.owner)
  }

  ghost predicate FilesOk(s: State)
    requires |s.append| == |s.files|
  {
    forall i :: 0 <= i < |s.files| ==> ROW_FILE_HEADER_SIZE <= |s.files[i]| <= s.append[i]
  }

  // ---- Counters ------------------------------------------------------------

  /**
   Threads that hold a reservation; that claimed a bucket not yet counted; that
   may still add to the count; that are in a reserving write at all; that are in
   one and not past counting its item.
   */
  datatype Kind = Reserved | Uncounted | Loose(limit: nat) | Writers | Going

  predicate BeforeCount(pc: PC) {
    pc.TakeSequence? || pc.ClaimExtent? || pc.WriteBlock? || IsLooking(pc) || IsStoring(pc) || pc.CountItem?
  }

  predicate Is(kind: Kind, th: Thread) {
    match kind
    case Reserved => th.op.PutRow? && (BeforeCount(th.pc) || th.pc.Release?)
    case Uncounted =>
      th.pc.CountItem? || (th.pc.StoreField? && th.pc.inserted) || (th.pc.Publish? && th.pc.inserted)
    case Loose(limit) =>
      th.op.PutRow? && (BeforeCount(th.pc) || (th.pc.LoadPending? && th.pc.items < limit)
                        || (th.pc.TryReserve? && th.pc.items < limit))
    case Writers => th.op.PutRow? && !th.pc.Idle?
    case Going => th.op.PutRow? && !th.pc.Idle? && !th.pc.Release?
  }

  function Weight(kind: Kind, th: Thread): nat { if Is(kind, th) then 1 else 0 }

  function Count(kind: Kind, ts: seq<Thread>): (n: nat)
    ensures n <= |ts|
  {
    if ts == [] then 0 else Weight(kind, ts[0]) + Count(kind, ts[1..])
  }

  lemma {:induction false} CountUpdate(kind: Kind, ts: seq<Thread>, t: nat, th: Thread)
    requires t < |ts|
    ensures Count(kind, ts[t := th]) + Weight(kind, ts[t]) == Count(kind, ts) + Weight(kind, th)
  {
    if t == 0 {
      assert ts[t := th][1..] == ts[1..];
    } else {
      assert ts[t := th][1..] == ts[1..][t - 1 := th];
      CountUpdate(kind, ts[1..], t - 1, th);
    }
  }

  ghost predicate CountsOk(s: State) {
    && s.pending == Count(Reserved, s.threads)
    && Occupied(s.owner) == s.itemCount + Count(Uncounted, s.threads)
    && s.nextSequence < TWO64
  }

  // ---- The invariant -------------------------------------------------------

  ghost predicate Inv(c: Config, s: State) {
    && c.Valid() && Shape(c, s)
    && ExtentsOk(c, s) && Ordered(s) && BlocksOk(c, s) && FilesOk(s)
    && SlotsOk(c, s) && IndexOk(s) && TableOk(c, s)
    && ThreadsOk(c, s) && CountsOk(s)
  }

  lemma FreshIsGood(c: Config, initialRowBucketCount: nat, threads: nat, header: seq<byte>)
    requires c.Valid() && |header| == ROW_FILE_HEADER_SIZE
    ensures var s := Fresh(c, initialRowBucketCount, threads, header); Inv(c, s) && IsPowerOfTwo(|s.slots|)
  {
    hide RoundUp, IsPowerOfTwo, Chained, Distinct, Occupied;
    var s := Fresh(c, initialRowBucketCount, threads, header);
    RoundedIsPower(initialRowBucketCount);
    NoneTable(RoundUp(initialRowBucketCount), c.RowHome());
    NoneCounted(s.threads);
  }

  lemma {:induction false} NoneCounted(ts: seq<Thread>)
    requires forall t :: 0 <= t < |ts| ==> ts[t].pc.Idle?
    ensures Count(Reserved, ts) == 0 == Count(Uncounted, ts)
    ensures Count(Writers, ts) == 0
    ensures forall limit :: Count(Loose(limit), ts) == 0
  {
    if ts != [] { NoneCounted(ts[1..]); }
  }

  // ---- What a step of one thread leaves alone -------------------------------

  ghost predicate SameExtent(x: Extent, y: Extent) {
    x.(fate := Claimed) == y.(fate := Claimed)
  }

  /** What a step of thread `t` guarantees to every other thread. */
  ghost predicate Extends(s: State, s': State, t: nat) {
    && |s'.slots| == |s.slots| && |s'.owner| == |s.owner| == |s.slots|
    && |s'.files| == |s.files| && |s'.append| == |s.append| && |s'.threads| == |s.threads|
    && (forall u :: 0 <= u < |s.threads| && u != t ==> s'.threads[u] == s.threads[u])
    && (forall i :: 0 <= i < |s.slots| && s.owner[i].Some? ==> s'.owner[i] == s.owner[i])
    && (forall i :: 0 <= i < |s.slots| && s.slots[i].filled ==> s'.slots[i].filled)
    && (forall i :: 0 <= i < |s.slots| && s.slots[i].state == Writing && s.slots[i].holder != t
          ==> s'.slots[i] == s.slots[i])
    && |s'.extents| >= |s.extents|
    && (forall e :: 0 <= e < |s.extents| ==> ExtentExtends(s.extents[e], s'.extents[e], t))
    && (forall r :: r in s.index ==> r in s'.index)
    && (forall e, d :: 0 <= e < |s.extents| && 0 <= d <= |s.extents[e].bytes| && s.extents[e].shard < |s.files|
          && (s.extents[e].thread != t || !s.extents[e].fate.Claimed?)
          && InFile(s.files[s.extents[e].shard], s.extents[e].offset, s.extents[e].bytes, d)
          ==> InFile(s'.files[s.extents[e].shard], s.extents[e].offset, s.extents[e].bytes, d))
  }

  ghost predicate ExtentExtends(x: Extent, y: Extent, t: nat) {
    SameExtent(x, y)
    && (x.thread != t ==> y.fate == x.fate)
    && (IsStored(x) ==> IsStored(y))
    && (x.fate.Published? ==> y.fate.Published?)
  }

  lemma GoodKeeps(s: State, s': State, t: nat, e: nat, r: Row)
    requires Extends(s, s', t) && Good(s, e, r)
    ensures Good(s', e, r)
  {
    assert ExtentExtends(s.extents[e], s'.extents[e], t);
  }

  lemma SnapKeeps(c: Config, s: State, s': State, t: nat, i: nat, snap: Snap)
    requires c.Valid() && Shape(c, s) && Shape(c, s') && Extends(s, s', t)
    requires i < |s.slots| && SnapOk(c, s, i, snap)
    ensures SnapOk(c, s', i, snap)
  {
    forall k | 0 <= k < |snap.src|
      ensures Good(s', snap.src[k], s'.owner[i].value) && snap.fields[k] == FieldOf(c, s'.extents[snap.src[k]], k)
    {
      GoodKeeps(s, s', t, snap.src[k], s.owner[i].value);
      assert ExtentExtends(s.extents[snap.src[k]], s'.extents[snap.src[k]], t);
    }
  }

  lemma OwnerKeeps(s: State, s': State, t: nat, u: nat, fate: Fate)
    requires Extends(s, s', t) && u < |s.threads| && u != t && Owner(s, u, fate)
    ensures Owner(s', u, fate)
  {
    var e := s.threads[u].ext;
    assert ExtentExtends(s.extents[e], s'.extents[e], t);
  }

  lemma LookKeeps(c: Config, s: State, s': State, t: nat, u: nat, p: nat)
    requires c.Valid() && Shape(c, s) && Shape(c, s') && Extends(s, s', t)
    requires u < |s.threads| && u != t && LookOk(c, s, u, p)
    ensures LookOk(c, s', u, p)
  {
    var op := s.threads[u].op;
    PassedKeeps(s.owner, s'.owner, op.row, c.Start(op.row, |s.slots|), p);
    if !op.GetRow? { OwnerKeeps(s, s', t, u, Written); }
  }

  lemma PassedKeeps(a: seq<Option<Row>>, b: seq<Option<Row>>, r: Row, start: nat, p: nat)
    requires start < |a| == |b| && Passed(a, r, start, p)
    requires forall i :: 0 <= i < |a| && a[i].Some? ==> b[i] == a[i]
    ensures Passed(b, r, start, p)
  {
  }

  lemma ProbeKeeps(c: Config, s: State, s': State, t: nat, u: nat, p: nat, snap: Snap)
    requires c.Valid() && Shape(c, s) && Shape(c, s') && Extends(s, s', t)
    requires u < |s.threads| && u != t && LookOk(c, s, u, p)
    requires SnapOk(c, s, SlotAt(c, s, s.threads[u].op.row, p), snap)
    ensures LookOk(c, s', u, p)
    ensures SnapOk(c, s', SlotAt(c, s', s.threads[u].op.row, p), snap)
  {
    LookKeeps(c, s, s', t, u, p);
    SnapKeeps(c, s, s', t, SlotAt(c, s, s.threads[u].op.row, p), snap);
  }

  lemma HeaderKeeps(s: State, s': State, t: nat, snap: Snap, hd: BlockHeader)
    requires Extends(s, s', t) && HeaderOk(s, snap, hd)
    ensures HeaderOk(s', snap, hd)
  {
    assert ExtentExtends(s.extents[snap.src[3]], s'.extents[snap.src[3]], t);
  }

  lemma StoreKeeps(c: Config, s: State, s': State, t: nat, u: nat, p: nat, k: nat, ins: bool)
    requires c.Valid() && Shape(c, s) && Shape(c, s') && Extends(s, s', t)
    requires u < |s.threads| && u != t && StoreOk(c, s, u, p, k, ins)
    ensures StoreOk(c, s', u, p, k, ins)
  {
    OwnerKeeps(s, s', t, u, Storing);
    var e := s.threads[u].ext;
    assert ExtentExtends(s.extents[e], s'.extents[e], t);
  }

  /** A thread's own assertions survive every step of another thread. */
  lemma OthersKeep(c: Config, s: State, s': State, t: nat, u: nat)
    requires c.Valid() && Shape(c, s) && Shape(c, s') && Extends(s, s', t)
    requires u < |s.threads| && u != t && ThreadOk(c, s, u)
    ensures ThreadOk(c, s', u)
  {
    var th := s.threads[u];
    assert s'.threads[u] == th;
    match th.pc
    case WriteBlock(done) =>
      OwnerKeeps(s, s', t, u, Claimed);
      assert ExtentExtends(s.extents[th.ext], s'.extents[th.ext], t);
    case Probing(p) => LookKeeps(c, s, s', t, u, p);
    case LoadField(p, snap) => ProbeKeeps(c, s, s', t, u, p, snap);
    case Recheck(p, snap) => ProbeKeeps(c, s, s', t, u, p, snap);
    case ReadHeader(p, snap) => ProbeKeeps(c, s, s', t, u, p, snap);
    case ReadColumn(p, snap, hd) => ProbeKeeps(c, s, s', t, u, p, snap); HeaderKeeps(s, s', t, snap, hd);
    case ReadValue(p, snap, hd) => ProbeKeeps(c, s, s', t, u, p, snap); HeaderKeeps(s, s', t, snap, hd);
    case CasEmpty(p) => LookKeeps(c, s, s', t, u, p);
    case CasFilled(p) => LookKeeps(c, s, s', t, u, p);
    case StoreField(p, k, ins) => StoreKeeps(c, s, s', t, u, p, k, ins);
    case Publish(p, ins) => StoreKeeps(c, s, s', t, u, p, FIELDS, ins);
    case _ =>
  }
}
