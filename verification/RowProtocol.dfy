/**
 The concurrent row index as a state machine.

 Any number of threads run row writes and row reads.  Every atomic load, store,
 fetch-and-add and compare-and-swap of the source is a step of its own, and so
 is each field store of a bucket, each field load of a snapshot, each part of a
 block that reaches the file, and each file read made while matching a row.
 Steps of different threads interleave in any order, with sequentially
 consistent memory.

 Some parts of the state are history: steps write them and never act on them,
 except that an update may begin only for a row a lookup could find.  They record
 which row claimed a bucket (`owner`), which extent each stored field came from
 (`src`), whether a bucket has ever been filled and who claimed it last
 (`filled`, `holder`), every file extent claimed (`extents`) and the latest
 published extent of each row (`index`).
 */
module RowProtocol {
  import opened Wrappers
  import opened Bytes
  import opened Words
  import opened Hash
  import opened Load
  import opened Probing
  import opened FileIO
  import opened RowBlock
  import opened RowBlockRead

  const ROW_FILE_HEADER_SIZE: nat := 24
  const FIELDS: nat := 6

  /** The parts fixed while the database is open. */
  datatype Config = Config(h: Hasher, f: real, sizing: Sizing, shardCount: nat) {
    predicate Valid() { 0.0 < f < 0.95 && shardCount > 0 }

    function RowHome(): Row -> nat { (r: Row) => h.MixHashes(h.HashString(r.column), r.id) }

    function Start(r: Row, n: nat): (s: nat)
      requires n > 0
      ensures s < n
    {
      Home(RowHome(), r, n)
    }

    function ShardFor(r: Row): nat
      requires shardCount > 0
    {
      h.MixHashes(h.HashString(r.column), r.id) % shardCount
    }

    /** The check `(items + pending + 1) / bucketCount > maxLoadFactor`. */
    predicate OverLoad(x: nat, n: nat)
      requires n > 0
    {
      Over(f, x, n)
    }
  }

  /** The hash functions of the program itself. */
  function RealHasher(): Hasher { Hasher((b: seq<byte>) => HashFrom(OFFSET_BASIS, b), (a: nat, b: nat) => Mix(a % TWO64, b % TWO64)) }

  /** With the program's own hashes every shard takes rows of every column. */
  lemma EveryShardIsUsed(c: Config, column: seq<byte>, shard: nat) returns (id: nat)
    requires c.h == RealHasher() && shard < c.shardCount <= TWO64
    ensures id < TWO64 && c.ShardFor(Row(column, id)) == shard
  {
    hide *;
    var hash := c.h.HashString(column);
    id := UnmixKey(shard, hash);
    MixIsOnto(shard, hash);
    RealMix(hash, id);
    SmallShard(c, column, id, shard);
  }

  lemma RealMix(a: nat, b: nat)
    requires a < TWO64 && b < TWO64
    ensures RealHasher().MixHashes(a, b) == Mix(a, b) % TWO64
  {
    hide Mix;
  }

  lemma SmallShard(c: Config, column: seq<byte>, id: nat, shard: nat)
    requires shard < c.shardCount <= TWO64 && c.h.MixHashes(c.h.HashString(column), id) == shard % TWO64
    ensures c.ShardFor(Row(column, id)) == shard
  {
    assert shard % TWO64 == shard && shard % c.shardCount == shard;
  }

  // ---- Shared state --------------------------------------------------------

  datatype SlotState = Empty | Filled | Writing

  /** A row index bucket: its state word and six data words, in store order. */
  datatype Slot = Slot(state: SlotState, fields: seq<nat>, src: seq<nat>, filled: bool, holder: nat)

  const EMPTY_SLOT: Slot := Slot(Empty, [0, 0, 0, 0, 0, 0], [0, 0, 0, 0, 0, 0], false, 0)

  /** What became of a claimed extent. */
  datatype Fate = Claimed | Written | Storing | Published | Abandoned

  datatype Extent = Extent(row: Row, entries: seq<Entry>, sequence: nat, shard: nat, offset: nat,
                           bytes: seq<byte>, thread: nat, fate: Fate)

  /** The six data words: shard, column hash, row id, block offset, block size, sequence. */
  function FieldOf(c: Config, x: Extent, k: nat): nat
    requires k < FIELDS
  {
    if k == 0 then x.shard
    else if k == 1 then c.h.HashString(x.row.column)
    else if k == 2 then x.row.id
    else if k == 3 then x.offset
    else if k == 4 then |x.bytes|
    else x.sequence
  }

  datatype Pub = Pub(slot: nat, ext: nat)

  datatype State = State(itemCount: nat, pending: nat, nextSequence: nat,
                         append: seq<nat>, files: seq<seq<byte>>,
                         slots: seq<Slot>, owner: seq<Option<Row>>,
                         extents: seq<Extent>, index: map<Row, Pub>, threads: seq<Thread>)

  // ---- Threads -------------------------------------------------------------

  /**
   `PutRow` is a write that reserves an insert slot; `UpdateRow` is the write
   `PutRowStruct` makes for a row it found, without a reservation.
   */
  datatype Op = PutRow(row: Row, entries: seq<Entry>) | UpdateRow(row: Row, entries: seq<Entry>) | GetRow(row: Row, key: seq<byte>)

  datatype Outcome =
    | NotStarted | Stored | RowMissing | KeyMissing | Found(value: seq<byte>)
    | NoCapacity | TooLarge | WriteFailed | TableFull | CorruptBlock

  /** The field values a snapshot has loaded so far, and where they came from. */
  datatype Snap = Snap(fields: seq<nat>, src: seq<nat>)

  datatype PC =
    | Idle(out: Outcome)
    // ReserveRowIndexInsertSlot
    | LoadItems | LoadPending(items: nat) | TryReserve(items: nat, pend: nat)
    // WriteRowStructs
    | TakeSequence | ClaimExtent(sequence: nat) | WriteBlock(done: nat)
    // the probe loop shared by InsertOrUpdateRowBucket and FindRowBucket
    | Probing(p: nat) | LoadField(p: nat, snap: Snap) | Recheck(p: nat, snap: Snap)
    | ReadHeader(p: nat, snap: Snap) | ReadColumn(p: nat, snap: Snap, hd: BlockHeader)
    // publication
    | CasEmpty(p: nat) | CasFilled(p: nat)
    | StoreField(p: nat, k: nat, inserted: bool) | Publish(p: nat, inserted: bool)
    | CountItem | Release(result: Outcome)
    // FindValueInRowBlockAt
    | ReadValue(p: nat, snap: Snap, hd: BlockHeader)

  datatype Thread = Thread(op: Op, ext: nat, pc: PC)

  // ---- Steps ---------------------------------------------------------------

  /** The bucket a thread's probe `p` looks at. */
  function SlotAt(c: Config, s: State, r: Row, p: nat): (i: nat)
    requires |s.slots| > 0 && p < |s.slots|
    ensures i < |s.slots|
  {
    At(c.Start(r, |s.slots|), p, |s.slots|)
  }

  function Goto(s: State, t: nat, pc: PC): State
    requires t < |s.threads|
  {
    s.(threads := s.threads[t := s.threads[t].(pc := pc)])
  }

  function SetFate(s: State, e: nat, fate: Fate): State {
    if e < |s.extents| then s.(extents := s.extents[e := s.extents[e].(fate := fate)]) else s
  }

  /** Where a finished write goes: to give its reservation back, if it has one. */
  function After(op: Op, out: Outcome): PC {
    if op.PutRow? then Release(out) else Idle(out)
  }

  /** An operation that found an error: a writer's extent stays behind unpublished. */
  function Fail(s: State, t: nat, out: Outcome): State
    requires t < |s.threads|
  {
    var th := s.threads[t];
    if th.op.GetRow? then Goto(s, t, Idle(out))
    else Goto(SetFate(s, th.ext, Abandoned), t, After(th.op, out))
  }

  /** On to the next bucket, or out of buckets. */
  function NextProbe(s: State, t: nat, p: nat): State
    requires t < |s.threads|
  {
    if p + 1 == |s.slots| then Fail(s, t, TableFull) else Goto(s, t, Probing(p + 1))
  }

  /** A read of `n` bytes of a shard; out of range shards and ends of file give nothing. */
  function ShardRead(s: State, shard: nat, offset: nat, n: nat): Option<seq<byte>> {
    if shard >= |s.files| then None else PRead(s.files[shard], offset, n)
  }

  ghost predicate Begin(s: State, s': State, t: nat, op: Op)
    requires t < |s.threads|
  {
    && op.row.id < TWO64 && |op.row.column| < TWO32
    && (!op.GetRow? ==> op.entries != [])
    && (op.UpdateRow? ==> op.row in s.index)
    && s' == s.(threads := s.threads[t := Thread(op, 0,
                  match op
                  case PutRow(_, _) => LoadItems
                  case UpdateRow(_, _) => TakeSequence
                  case GetRow(_, _) => Probing(0))])
  }

  /** The weak compare-and-swap may also fail when the counter still has the expected value. */
  ghost predicate DoTryReserve(c: Config, s: State, s': State, t: nat, items: nat, pend: nat)
    requires t < |s.threads| && |s.slots| > 0
  {
    if c.OverLoad(items + pend + 1, |s.slots|) then s' == Goto(s, t, Idle(NoCapacity))
    else
      || (s.pending == pend && s' == Goto(s.(pending := pend + 1), t, TakeSequence))
      || s' == Goto(s, t, LoadItems)
  }

  /** Builds the block and reserves its file range; a block the layout refuses ends the write. */
  function NewExtent(c: Config, s: State, t: nat, sequence: nat): Extent
    requires c.Valid() && t < |s.threads| && !s.threads[t].op.GetRow? && |s.append| == c.shardCount
  {
    var op := s.threads[t].op;
    var shard := c.ShardFor(op.row);
    Extent(op.row, op.entries, sequence, shard, s.append[shard],
           BlockBytes(c.h, c.sizing, op.row, op.entries, sequence), t, Claimed)
  }

  function DoClaim(c: Config, s: State, t: nat, sequence: nat): State
    requires c.Valid() && t < |s.threads| && !s.threads[t].op.GetRow? && |s.append| == c.shardCount
  {
    var op := s.threads[t].op;
    if !Writable(c.h, c.sizing, op.row, op.entries, sequence) then Goto(s, t, After(op, TooLarge))
    else AddExtent(s, t, NewExtent(c, s, t, sequence))
  }

  /** The fetch-and-add on the shard's append offset. */
  function AddExtent(s: State, t: nat, x: Extent): State
    requires t < |s.threads| && x.shard < |s.append|
  {
    s.(append := s.append[x.shard := s.append[x.shard] + |x.bytes|],
       extents := s.extents + [x],
       threads := s.threads[t := Thread(s.threads[t].op, |s.extents|, WriteBlock(0))])
  }

  /** The next `n` bytes of the block reach the file. */
  function DoWrite(s: State, t: nat, done: nat, n: nat): State
    requires t < |s.threads| && s.threads[t].ext < |s.extents|
    requires var x := s.extents[s.threads[t].ext]; x.shard < |s.files| && done + n <= |x.bytes|
  {
    var e := s.threads[t].ext;
    var x := s.extents[e];
    var file := PWrite(s.files[x.shard], x.bytes[done..done + n], x.offset + done);
    var s1 := s.(files := s.files[x.shard := file]);
    if done + n == |x.bytes| then Goto(SetFate(s1, e, Written), t, Probing(0))
    else Goto(s1, t, WriteBlock(done + n))
  }

  ghost predicate WriteStep(s: State, s': State, t: nat, done: nat)
    requires t < |s.threads|
  {
    && s.threads[t].ext < |s.extents|
    && var x := s.extents[s.threads[t].ext];
    && x.shard < |s.files|
    && (s' == Fail(s, t, WriteFailed)
        || exists n :: 0 < n <= |x.bytes| - done && s' == DoWrite(s, t, done, n))
  }

  function DoProbe(c: Config, s: State, t: nat, p: nat): State
    requires t < |s.threads| && p < |s.slots|
  {
    var op := s.threads[t].op;
    match s.slots[SlotAt(c, s, op.row, p)].state
    case Empty => if op.GetRow? then Goto(s, t, Idle(RowMissing)) else Goto(s, t, CasEmpty(p))
    case Writing => Goto(s, t, Probing(0))
    case Filled => Goto(s, t, LoadField(p, Snap([], [])))
  }

  /** Loads the next data word of the bucket into the snapshot. */
  function DoLoadField(c: Config, s: State, t: nat, p: nat, snap: Snap): State
    requires t < |s.threads| && p < |s.slots|
    requires var i := SlotAt(c, s, s.threads[t].op.row, p);
      |snap.fields| < |s.slots[i].fields| && |snap.fields| < |s.slots[i].src|
  {
    var slot := s.slots[SlotAt(c, s, s.threads[t].op.row, p)];
    var k := |snap.fields|;
    var more := Snap(snap.fields + [slot.fields[k]], snap.src + [slot.src[k]]);
    Goto(s, t, if k + 1 == FIELDS then Recheck(p, more) else LoadField(p, more))
  }

  /** The second state load, then the comparison of the column hash and row id. */
  function DoRecheck(c: Config, s: State, t: nat, p: nat, snap: Snap): State
    requires t < |s.threads| && p < |s.slots| && |snap.fields| == FIELDS
  {
    var r := s.threads[t].op.row;
    if s.slots[SlotAt(c, s, r, p)].state != Filled then Goto(s, t, Probing(0))
    else if snap.fields[1] != c.h.HashString(r.column) || snap.fields[2] != r.id then NextProbe(s, t, p)
    else Goto(s, t, ReadHeader(p, snap))
  }

  function DoReadHeader(c: Config, s: State, t: nat, p: nat, snap: Snap): State
    requires t < |s.threads| && |snap.fields| == FIELDS
  {
    var r := s.threads[t].op.row;
    var b := ShardRead(s, snap.fields[0], snap.fields[3], BLOCK_HEADER_SIZE);
    if b == None then Fail(s, t, CorruptBlock)
    else
      var hd := ParseBlockHeader(b.value);
      if !IsValidRowBlockHeader(hd) || hd.columnHash != snap.fields[1] || hd.rowId != r.id
         || hd.blockSize != snap.fields[4] then Fail(s, t, CorruptBlock)
      else if hd.columnSize != |r.column| then NextProbe(s, t, p)
      else Goto(s, t, ReadColumn(p, snap, hd))
  }

  function DoReadColumn(c: Config, s: State, t: nat, p: nat, snap: Snap, hd: BlockHeader): State
    requires t < |s.threads| && |snap.fields| == FIELDS
  {
    var op := s.threads[t].op;
    var b := ShardRead(s, snap.fields[0], snap.fields[3] + (BLOCK_HEADER_SIZE + hd.bucketCount * KEY_BUCKET_SIZE), hd.columnSize);
    if b == None then Fail(s, t, CorruptBlock)
    else if b.value != op.row.column then NextProbe(s, t, p)
    else if op.GetRow? then Goto(s, t, ReadValue(p, snap, hd))
    else Goto(s, t, CasFilled(p))
  }

  /** The rest of the point lookup; the block it reads in never changes again, so one step stands for its reads. */
  function DoReadValue(c: Config, s: State, t: nat, snap: Snap, hd: BlockHeader): State
    requires t < |s.threads| && s.threads[t].op.GetRow? && |snap.fields| == FIELDS
  {
    var out :=
      if snap.fields[0] >= |s.files| || hd.blockSize != snap.fields[4] then CorruptBlock
      else
        match FindValue(c.h, s.files[snap.fields[0]], snap.fields[3], hd, s.threads[t].op.key)
        case Value(v) => Found(v)
        case Missing => KeyMissing
        case Broken => CorruptBlock;
    Goto(s, t, Idle(out))
  }

  /** A successful claim of bucket `i`, empty or filled. */
  function Take(s: State, t: nat, i: nat, pc: PC): State
    requires t < |s.threads| && i < |s.slots| && i < |s.owner|
  {
    var s1 := s.(slots := s.slots[i := s.slots[i].(state := Writing, holder := t)],
                 owner := s.owner[i := Some(s.threads[t].op.row)]);
    Goto(SetFate(s1, s.threads[t].ext, Storing), t, pc)
  }

  function DoCasEmpty(c: Config, s: State, t: nat, p: nat): State
    requires t < |s.threads| && p < |s.slots| == |s.owner|
  {
    var i := SlotAt(c, s, s.threads[t].op.row, p);
    if s.slots[i].state == Empty then Take(s, t, i, StoreField(p, 0, true)) else Goto(s, t, Probing(0))
  }

  /** On success the owner is unchanged: a filled bucket is only claimed for the row it holds. */
  function DoCasFilled(c: Config, s: State, t: nat, p: nat): State
    requires t < |s.threads| && p < |s.slots| == |s.owner|
  {
    var i := SlotAt(c, s, s.threads[t].op.row, p);
    if s.slots[i].state == Filled then Take(s, t, i, StoreField(p, 0, false)) else Goto(s, t, Probing(0))
  }

  function DoStoreField(c: Config, s: State, t: nat, p: nat, k: nat, inserted: bool): State
    requires t < |s.threads| && p < |s.slots| && k < FIELDS && s.threads[t].ext < |s.extents|
    requires var i := SlotAt(c, s, s.threads[t].op.row, p); |s.slots[i].fields| == FIELDS == |s.slots[i].src|
  {
    var i := SlotAt(c, s, s.threads[t].op.row, p);
    var e := s.threads[t].ext;
    var slot := s.slots[i];
    var s1 := s.(slots := s.slots[i := slot.(fields := slot.fields[k := FieldOf(c, s.extents[e], k)],
                                             src := slot.src[k := e])]);
    Goto(s1, t, if k + 1 == FIELDS then Publish(p, inserted) else StoreField(p, k + 1, inserted))
  }

  /** The release store of the Filled state. */
  function DoPublish(c: Config, s: State, t: nat, p: nat, inserted: bool): State
    requires t < |s.threads| && p < |s.slots|
  {
    var th := s.threads[t];
    var i := SlotAt(c, s, th.op.row, p);
    var s1 := s.(slots := s.slots[i := s.slots[i].(state := Filled, filled := true)],
                 index := s.index[th.op.row := Pub(i, th.ext)]);
    Goto(SetFate(s1, th.ext, Published), t, if inserted then CountItem else After(th.op, Stored))
  }

  /** One step of thread `t`. */
  ghost predicate Step(c: Config, s: State, s': State, t: nat)
    requires c.Valid() && Shape(c, s)
  {
    t < |s.threads| &&
    var th := s.threads[t];
    match th.pc
    case Idle(_) => exists op :: Begin(s, s', t, op)
    case LoadItems => s' == Goto(s, t, LoadPending(s.itemCount))
    case LoadPending(v) => s' == Goto(s, t, TryReserve(v, s.pending))
    case TryReserve(v, q) => DoTryReserve(c, s, s', t, v, q)
    case TakeSequence => s' == Goto(s.(nextSequence := (s.nextSequence + 1) % TWO64), t, ClaimExtent(s.nextSequence))
    case ClaimExtent(q) => !th.op.GetRow? && s' == DoClaim(c, s, t, q)
    case WriteBlock(done) => WriteStep(s, s', t, done)
    case Probing(p) => p < |s.slots| && s' == DoProbe(c, s, t, p)
    case LoadField(p, snap) => p < |s.slots| && |snap.fields| < FIELDS && s' == DoLoadField(c, s, t, p, snap)
    case Recheck(p, snap) => p < |s.slots| && |snap.fields| == FIELDS && s' == DoRecheck(c, s, t, p, snap)
    case ReadHeader(p, snap) => |snap.fields| == FIELDS && s' == DoReadHeader(c, s, t, p, snap)
    case ReadColumn(p, snap, hd) => |snap.fields| == FIELDS && s' == DoReadColumn(c, s, t, p, snap, hd)
    case CasEmpty(p) => p < |s.slots| && s' == DoCasEmpty(c, s, t, p)
    case CasFilled(p) => p < |s.slots| && s' == DoCasFilled(c, s, t, p)
    case StoreField(p, k, ins) => p < |s.slots| && k < FIELDS && th.ext < |s.extents| && s' == DoStoreField(c, s, t, p, k, ins)
    case Publish(p, ins) => p < |s.slots| && s' == DoPublish(c, s, t, p, ins)
    case CountItem => s' == Goto(s.(itemCount := s.itemCount + 1), t, After(th.op, Stored))
    case Release(out) => s.pending > 0 && s' == Goto(s.(pending := s.pending - 1), t, Idle(out))
    case ReadValue(p, snap, hd) => th.op.GetRow? && |snap.fields| == FIELDS && s' == DoReadValue(c, s, t, snap, hd)
  }

  /** Sizes that never change. */
  ghost predicate Shape(c: Config, s: State) {
    && |s.slots| == |s.owner| > 0
    && |s.append| == |s.files| == c.shardCount
    && (forall i :: 0 <= i < |s.slots| ==> |s.slots[i].fields| == FIELDS == |s.slots[i].src|)
  }

  /** A newly created database: an empty index, its size rounded up, and fresh shard files. */
  function Fresh(c: Config, initialRowBucketCount: nat, threads: nat, header: seq<byte>): State
    requires c.Valid()
  {
    var n := RoundUp(initialRowBucketCount);
    State(0, 0, 1,
          seq(c.shardCount, _ => ROW_FILE_HEADER_SIZE), seq(c.shardCount, _ => header),
          seq(n, _ => EMPTY_SLOT), NoKeys(n),
          [], map[], seq(threads, _ => Thread(GetRow(Row([], 0), []), 0, Idle(NotStarted))))
  }
}
