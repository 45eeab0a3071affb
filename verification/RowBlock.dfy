/**
 The row block: many keyed values of one row in one self-indexed run of bytes.

 A block is a 72-byte header, a hash table of 48-byte key buckets, the column
 name, the distinct keys in order of first appearance, and the values in bucket
 order.  Later entries replace earlier ones with the same key.
 */
module RowBlock {
  import opened Wrappers
  import opened Bytes
  import opened Words
  import opened Hash
  import opened Probing

  datatype Row = Row(column: seq<byte>, id: nat)
  datatype Entry = Entry(key: seq<byte>, value: seq<byte>)

  const ROW_BLOCK_MAGIC: nat := 0x424C4F52
  const BLOCK_HEADER_SIZE: nat := 72
  const KEY_BUCKET_SIZE: nat := 48
  const BUCKET_EMPTY: nat := 0
  const BUCKET_FILLED: nat := 1

  // ---- Headers and buckets -------------------------------------------------

  /** Field widths of `RowBlockHeader`. */
  const BLOCK_WIDTHS: seq<nat> := [4, 2, 2, 8, 8, 8, 4, 4, 4, 4, 8, 8, 8]
  /** Field widths of `RowKeyBucket`: state, seven reserved bytes and five words. */
  const BUCKET_WIDTHS: seq<nat> := [1, 7, 8, 8, 8, 8, 8]

  datatype BlockHeader = BlockHeader(magic: nat, version: nat, headerSize: nat, sequence: nat, columnHash: nat,
                                     rowId: nat, columnSize: nat, itemCount: nat, bucketCount: nat, reserved: nat,
                                     keyBytesSize: nat, valueBytesSize: nat, blockSize: nat)
  {
    function Fields(): seq<nat> {
      [magic, version, headerSize, sequence, columnHash, rowId, columnSize, itemCount, bucketCount, reserved,
       keyBytesSize, valueBytesSize, blockSize]
    }

    predicate Fit() {
      magic < TWO32 && version < 0x1_0000 && headerSize < 0x1_0000 && sequence < TWO64 && columnHash < TWO64
      && rowId < TWO64 && columnSize < TWO32 && itemCount < TWO32 && bucketCount < TWO32 && reserved < TWO32
      && keyBytesSize < TWO64 && valueBytesSize < TWO64 && blockSize < TWO64
    }
  }

  datatype KeyBucket = KeyBucket(state: nat, keyHash: nat, keyOffset: nat, keySize: nat, valueOffset: nat, valueSize: nat)
  {
    function Fields(): seq<nat> { [state, 0, keyHash, keyOffset, keySize, valueOffset, valueSize] }

    predicate Fit() {
      state < 256 && keyHash < TWO64 && keyOffset < TWO64 && keySize < TWO64 && valueOffset < TWO64 && valueSize < TWO64
    }
  }

  lemma BlockWidthsSum()
    ensures Sum(BLOCK_WIDTHS) == BLOCK_HEADER_SIZE && Sum(BUCKET_WIDTHS) == KEY_BUCKET_SIZE
  {
    assert Sum([8, 8, 8]) == 24;
    assert Sum([4, 4, 4, 4, 8, 8, 8]) == 40;
    assert Sum([8, 8, 8, 4, 4, 4, 4, 8, 8, 8]) == 64;
  }

  function EncodeBlockHeader(h: BlockHeader): (b: seq<byte>)
    ensures |b| == BLOCK_HEADER_SIZE
  {
    BlockWidthsSum();
    Pack(h.Fields(), BLOCK_WIDTHS)
  }

  function ParseBlockHeader(b: seq<byte>): BlockHeader
    requires |b| == BLOCK_HEADER_SIZE
  {
    BlockWidthsSum();
    var f := Unpack(b, BLOCK_WIDTHS);
    BlockHeader(f[0], f[1], f[2], f[3], f[4], f[5], f[6], f[7], f[8], f[9], f[10], f[11], f[12])
  }

  function EncodeBucket(k: KeyBucket): (b: seq<byte>)
    ensures |b| == KEY_BUCKET_SIZE
  {
    BlockWidthsSum();
    Pack(k.Fields(), BUCKET_WIDTHS)
  }

  function ParseBucket(b: seq<byte>): KeyBucket
    requires |b| == KEY_BUCKET_SIZE
  {
    BlockWidthsSum();
    var f := Unpack(b, BUCKET_WIDTHS);
    KeyBucket(f[0], f[2], f[3], f[4], f[5], f[6])
  }

  lemma BlockFieldsFit(h: BlockHeader, i: nat)
    requires h.Fit() && i < 13
    ensures h.Fields()[i] < Pow256(BLOCK_WIDTHS[i])
  {
    WidthBounds();
  }

  lemma BlockHeaderRoundTrip(h: BlockHeader)
    requires h.Fit()
    ensures ParseBlockHeader(EncodeBlockHeader(h)) == h
  {
    BlockWidthsSum();
    var f, w := h.Fields(), BLOCK_WIDTHS;
    forall i | 0 <= i < |f| ensures f[i] < Pow256(w[i]) { BlockFieldsFit(h, i); }
    UnpackPack(f, w);
  }

  lemma BucketFieldsFit(k: KeyBucket, i: nat)
    requires k.Fit() && i < 7
    ensures k.Fields()[i] < Pow256(BUCKET_WIDTHS[i])
  {
    WidthBounds();
  }

  lemma BucketRoundTrip(k: KeyBucket)
    requires k.Fit()
    ensures ParseBucket(EncodeBucket(k)) == k
  {
    BlockWidthsSum();
    var f, w := k.Fields(), BUCKET_WIDTHS;
    forall i | 0 <= i < |f| ensures f[i] < Pow256(w[i]) { BucketFieldsFit(k, i); }
    UnpackPack(f, w);
  }

  predicate IsValidRowBlockHeader(h: BlockHeader) {
    h.magic == ROW_BLOCK_MAGIC && h.version == STORAGE_VERSION && h.headerSize == BLOCK_HEADER_SIZE
    && PassesPowerTest(h.bucketCount)
    && h.blockSize == BLOCK_HEADER_SIZE + h.bucketCount * KEY_BUCKET_SIZE
                      + h.columnSize + h.keyBytesSize + h.valueBytesSize
  }

  // ---- The key table -------------------------------------------------------

  /** One slot per bucket: its key, where the key is stored, and which entry supplies the value. */
  datatype Table = Table(keys: seq<Option<seq<byte>>>, offset: seq<nat>, sel: seq<nat>, keyBytes: seq<byte>)

  function KeyHome(h: Hasher, rowId: nat): seq<byte> -> nat {
    k => h.MixHashes(h.HashString(k), rowId)
  }

  function NoTable(n: nat): Table {
    Table(seq(n, _ => None), seq(n, _ => 0), seq(n, _ => 0), [])
  }

  ghost predicate Sized(t: Table, n: nat) {
    |t.keys| == n && |t.offset| == n && |t.sel| == n
  }

  /** Adds entry `i`: a new key takes the empty bucket its probe ends at, a known key is re-pointed. */
  function Insert(h: Hasher, rowId: nat, t: Table, entries: seq<Entry>, i: nat): (r: Option<Table>)
    requires i < |entries| && |t.keys| > 0 && Sized(t, |t.keys|)
    ensures r.Some? ==> Sized(r.value, |t.keys|)
  {
    var key := entries[i].key;
    var b := Find(t.keys, KeyHome(h, rowId), key);
    if b == |t.keys| then None
    else if t.keys[b] == None then
      Some(Table(t.keys[b := Some(key)], t.offset[b := |t.keyBytes|], t.sel[b := i], t.keyBytes + key))
    else Some(t.(sel := t.sel[b := i]))
  }

  function Fill(h: Hasher, rowId: nat, n: nat, entries: seq<Entry>, i: nat): (r: Option<Table>)
    requires n > 0 && i <= |entries|
    ensures r.Some? ==> Sized(r.value, n)
  {
    if i == 0 then Some(NoTable(n))
    else
      var t := Fill(h, rowId, n, entries, i - 1);
      if t == None then None else Insert(h, rowId, t.value, entries, i - 1)
  }

  ghost predicate KeyAmong(entries: seq<Entry>, i: nat, k: seq<byte>)
    requires i <= |entries|
  {
    exists j :: 0 <= j < i && entries[j].key == k
  }

  /** Bucket `b` stores its key where it says and selects the key's last entry. */
  ghost predicate SlotGood(t: Table, entries: seq<Entry>, i: nat, b: nat)
    requires i <= |entries| && b < |t.keys| && Sized(t, |t.keys|)
  {
    t.keys[b].Some? ==>
      var k := t.keys[b].value;
      && t.sel[b] < i && entries[t.sel[b]].key == k
      && (forall j :: t.sel[b] < j < i ==> entries[j].key != k)
      && t.offset[b] + |k| <= |t.keyBytes| && t.keyBytes[t.offset[b]..t.offset[b] + |k|] == k
  }

  ghost predicate AllSlotsGood(t: Table, entries: seq<Entry>, i: nat)
    requires i <= |entries| && Sized(t, |t.keys|)
  {
    forall b :: 0 <= b < |t.keys| ==> SlotGood(t, entries, i, b)
  }

  ghost predicate TableInv(h: Hasher, rowId: nat, t: Table, entries: seq<Entry>, i: nat)
    requires i <= |entries|
  {
    && Sized(t, |t.keys|)
    && Distinct(t.keys) && Chained(t.keys, KeyHome(h, rowId))
    && Occupied(t.keys) <= i
    && (forall k :: Holds(t.keys, k) <==> KeyAmong(entries, i, k))
    && AllSlotsGood(t, entries, i)
  }

  lemma NoTableInv(h: Hasher, rowId: nat, n: nat, entries: seq<Entry>)
    ensures TableInv(h, rowId, NoTable(n), entries, 0)
  {
    OccupiedNone(NoTable(n).keys);
  }

  lemma KeyAmongStep(entries: seq<Entry>, i: nat, x: seq<byte>)
    requires i < |entries|
    ensures KeyAmong(entries, i + 1, x) <==> KeyAmong(entries, i, x) || x == entries[i].key
  {
    if KeyAmong(entries, i, x) { var j :| 0 <= j < i && entries[j].key == x; assert entries[j].key == x; }
    assert x == entries[i].key ==> entries[i].key == x;
  }

  lemma InsertKeeps(h: Hasher, rowId: nat, t: Table, entries: seq<Entry>, i: nat)
    requires i < |entries| && i < |t.keys| && TableInv(h, rowId, t, entries, i)
    ensures var r := Insert(h, rowId, t, entries, i); r.Some? && TableInv(h, rowId, r.value, entries, i + 1)
  {
    var home, k := KeyHome(h, rowId), entries[i].key;
    OccupiedRoom(t.keys);
    FindIsLookup(t.keys, home, k);
    var b := Find(t.keys, home, k);
    var u := Insert(h, rowId, t, entries, i).value;
    if t.keys[b] == None {
      FillKeeps(t.keys, home, k, b);
      OccupiedFill(t.keys, b, k);
      SlotsKept(t, u, entries, i, b);
    } else {
      SlotsRepointed(t, u, entries, i, b);
    }
    forall x ensures Holds(u.keys, x) <==> KeyAmong(entries, i + 1, x) {
      KeyAmongStep(entries, i, x);
      assert Holds(t.keys, x) <==> KeyAmong(entries, i, x);
    }
  }

  lemma SlotsKept(t: Table, u: Table, entries: seq<Entry>, i: nat, b: nat)
    requires i < |entries| && b < |t.keys| && Sized(t, |t.keys|) && t.keys[b] == None
    requires AllSlotsGood(t, entries, i)
    requires !Holds(t.keys, entries[i].key)
    requires var k := entries[i].key;
      u == Table(t.keys[b := Some(k)], t.offset[b := |t.keyBytes|], t.sel[b := i], t.keyBytes + k)
    ensures Sized(u, |u.keys|) && AllSlotsGood(u, entries, i + 1)
  {
    var i1, k := i + 1, entries[i].key;
    forall c | 0 <= c < |u.keys| ensures SlotGood(u, entries, i1, c) {
      assert SlotGood(t, entries, i, c);
      if c == b {
        assert u.keyBytes[|t.keyBytes|..] == k;
      } else if t.keys[c].Some? {
        assert t.keys[c].value != k by { assert t.keys[c] in t.keys; }
        var o, s := t.offset[c], |t.keys[c].value|;
        assert u.keyBytes[o..o + s] == t.keyBytes[o..o + s];
      }
    }
  }

  lemma SlotsRepointed(t: Table, u: Table, entries: seq<Entry>, i: nat, b: nat)
    requires i < |entries| && b < |t.keys| && Sized(t, |t.keys|) && Distinct(t.keys)
    requires AllSlotsGood(t, entries, i)
    requires t.keys[b] == Some(entries[i].key) && u == t.(sel := t.sel[b := i])
    ensures Sized(u, |u.keys|) && AllSlotsGood(u, entries, i + 1)
  {
    var i1 := i + 1;
    forall c | 0 <= c < |u.keys| ensures SlotGood(u, entries, i1, c) {
      assert SlotGood(t, entries, i, c);
      assert c != b ==> t.keys[c] != t.keys[b] || t.keys[c] == None;
    }
  }

  /** With more buckets than entries, the table never fills up. */
  lemma {:induction false} FillGood(h: Hasher, rowId: nat, n: nat, entries: seq<Entry>, i: nat)
    requires i <= |entries| < n
    ensures var r := Fill(h, rowId, n, entries, i); r.Some? && TableInv(h, rowId, r.value, entries, i)
  {
    if i == 0 {
      NoTableInv(h, rowId, n, entries);
    } else {
      FillGood(h, rowId, n, entries, i - 1);
      InsertKeeps(h, rowId, Fill(h, rowId, n, entries, i - 1).value, entries, i - 1);
    }
  }

  // ---- What an entry list means --------------------------------------------

  function LastMap(entries: seq<Entry>): map<seq<byte>, seq<byte>> {
    if entries == [] then map[]
    else LastMap(entries[..|entries| - 1])[entries[|entries| - 1].key := entries[|entries| - 1].value]
  }

  /** Entry `j` is the last one with key `k`. */
  ghost predicate LastAt(entries: seq<Entry>, k: seq<byte>, j: int) {
    0 <= j < |entries| && entries[j].key == k && forall l :: j < l < |entries| ==> entries[l].key != k
  }

  lemma {:induction false} LastMapIsLast(entries: seq<Entry>, k: seq<byte>)
    ensures k in LastMap(entries) <==> KeyAmong(entries, |entries|, k)
    ensures forall j :: LastAt(entries, k, j) ==> LastMap(entries)[k] == entries[j].value
  {
    if entries != [] {
      var n := |entries| - 1;
      var init := entries[..n];
      LastMapIsLast(init, k);
      assert KeyAmong(entries, n + 1, k) <==> KeyAmong(init, n, k) || entries[n].key == k by {
        if KeyAmong(init, n, k) { var j :| 0 <= j < n && init[j].key == k; assert entries[j].key == k; }
        if KeyAmong(entries, n + 1, k) { var j :| 0 <= j < n + 1 && entries[j].key == k; if j < n { assert init[j].key == k; } }
        assert entries[n].key == k ==> KeyAmong(entries, n + 1, k);
      }
      forall j | LastAt(entries, k, j) ensures LastMap(entries)[k] == entries[j].value {
        if j < n {
          assert entries[n].key != k;
          assert LastAt(init, k, j);
        }
      }
    }
  }

  /** In a full table each bucket selects the current value of its key. */
  lemma SelectedIsLast(h: Hasher, rowId: nat, t: Table, entries: seq<Entry>, b: nat)
    requires TableInv(h, rowId, t, entries, |entries|) && b < |t.keys| && t.keys[b].Some?
    ensures t.sel[b] < |entries|
    ensures var k := t.keys[b].value; k in LastMap(entries) && LastMap(entries)[k] == entries[t.sel[b]].value
  {
    assert SlotGood(t, entries, |entries|, b);
    assert LastAt(entries, t.keys[b].value, t.sel[b]);
    LastMapIsLast(entries, t.keys[b].value);
    assert Holds(t.keys, t.keys[b].value);
  }

  // ---- The block -----------------------------------------------------------

  /** Selected values are within the entry list. */
  ghost predicate Selects(t: Table, entries: seq<Entry>) {
    Sized(t, |t.keys|) && forall b :: 0 <= b < |t.keys| && t.keys[b].Some? ==> t.sel[b] < |entries|
  }

  /** The value bytes of the first `b` buckets. */
  function Values(t: Table, entries: seq<Entry>, b: nat): (v: seq<byte>)
    requires b <= |t.keys| && Selects(t, entries)
  {
    if b == 0 then []
    else Values(t, entries, b - 1) + (if t.keys[b - 1].Some? then entries[t.sel[b - 1]].value else [])
  }

  /** The stored bucket: value offsets follow bucket order. */
  function Bucket(h: Hasher, t: Table, entries: seq<Entry>, b: nat): KeyBucket
    requires b < |t.keys| && Selects(t, entries)
  {
    match t.keys[b]
    case None => KeyBucket(BUCKET_EMPTY, 0, 0, 0, 0, 0)
    case Some(k) =>
      KeyBucket(BUCKET_FILLED, h.HashString(k), t.offset[b], |k|,
                |Values(t, entries, b)|, |entries[t.sel[b]].value|)
  }

  function BucketBytes(h: Hasher, t: Table, entries: seq<Entry>, b: nat): (s: seq<byte>)
    requires b <= |t.keys| && Selects(t, entries)
    ensures |s| == b * KEY_BUCKET_SIZE
  {
    if b == 0 then [] else BucketBytes(h, t, entries, b - 1) + EncodeBucket(Bucket(h, t, entries, b - 1))
  }

  lemma PrefixSlice(a: seq<byte>, b: seq<byte>, x: nat, y: nat)
    requires x <= y <= |a|
    ensures (a + b)[x..y] == a[x..y]
  {
  }

  lemma {:induction false} BucketAt(h: Hasher, t: Table, entries: seq<Entry>, n: nat, b: nat)
    requires b < n <= |t.keys| && Selects(t, entries)
    ensures BucketBytes(h, t, entries, n)[b * KEY_BUCKET_SIZE..b * KEY_BUCKET_SIZE + KEY_BUCKET_SIZE]
         == EncodeBucket(Bucket(h, t, entries, b))
  {
    hide Bucket, EncodeBucket;
    var s := BucketBytes(h, t, entries, n - 1);
    if b < n - 1 {
      BucketAt(h, t, entries, n - 1, b);
      PrefixSlice(s, EncodeBucket(Bucket(h, t, entries, n - 1)), b * KEY_BUCKET_SIZE, b * KEY_BUCKET_SIZE + KEY_BUCKET_SIZE);
    }
  }

  lemma {:induction false} ValueAt(t: Table, entries: seq<Entry>, n: nat, b: nat)
    requires b < n <= |t.keys| && Selects(t, entries) && t.keys[b].Some?
    ensures var o := |Values(t, entries, b)|;
      var v := entries[t.sel[b]].value;
      o + |v| <= |Values(t, entries, n)| && Values(t, entries, n)[o..o + |v|] == v
  {
    if b < n - 1 {
      ValueAt(t, entries, n - 1, b);
      var o := |Values(t, entries, b)|;
      var v := entries[t.sel[b]].value;
      PrefixSlice(Values(t, entries, n - 1), if t.keys[n - 1].Some? then entries[t.sel[n - 1]].value else [], o, o + |v|);
    }
  }

  /**
   How the source sizes a key table: the number of entries divided by the load
   factor in doubles and truncated.  All that is used of the quotient is that it
   is at least the number of entries, so it may be rounded in any other way.
   */
  datatype Sizing = Sizing(divide: nat -> nat) {
    function Quotient(count: nat): (q: nat)
      ensures q >= count
    {
      if divide(count) < count then count else divide(count)
    }
  }

  /** The exact quotient is one that will do. */
  lemma ExactQuotientWillDo(count: nat, f: real)
    requires 0.0 < f < 0.95
    ensures ((count as real) / f).Floor >= count
  {
    var q := (count as real) / f;
    assert q * f == count as real;
    assert q >= 0.0;
    assert q * (1.0 - f) >= 0.0;
  }

  /** The number of key buckets for `count` entries. */
  function BucketCount(sizing: Sizing, count: nat): (n: nat)
    ensures n > count
  {
    RoundUp(sizing.Quotient(count) + 1)
  }

  /** It is the least power of two that is at least 16 and more than the quotient. */
  lemma BucketCountIsLeast(sizing: Sizing, count: nat)
    ensures LeastPowerFrom(sizing.Quotient(count) + 1, BucketCount(sizing, count))
  {
    RoundUpIsLeast(sizing.Quotient(count) + 1);
  }

  function LayoutHeader(h: Hasher, row: Row, entries: seq<Entry>, sequence: nat, t: Table): BlockHeader
    requires Selects(t, entries)
  {
    var n := |t.keys|;
    BlockHeader(ROW_BLOCK_MAGIC, STORAGE_VERSION, BLOCK_HEADER_SIZE, sequence, h.HashString(row.column), row.id,
                |row.column|, Occupied(t.keys), n, 0, |t.keyBytes|, |Values(t, entries, n)|,
                BLOCK_HEADER_SIZE + n * KEY_BUCKET_SIZE + |row.column| + |t.keyBytes| + |Values(t, entries, n)|)
  }

  /** Whether the layout's counts fit their 32-bit fields. */
  predicate CountsFit(sizing: Sizing, entries: seq<Entry>)
  {
    |entries| < TWO32 && BucketCount(sizing, |entries|) < TWO32
  }

  function TableOf(h: Hasher, sizing: Sizing, row: Row, entries: seq<Entry>): (t: Table)
    ensures |t.keys| == BucketCount(sizing, |entries|) && Selects(t, entries)
  {
    TableIsGood(h, sizing, row, entries);
    Fill(h, row.id, BucketCount(sizing, |entries|), entries, |entries|).value
  }

  /** The table of any entry list is complete: nothing was refused, every key is in its place. */
  lemma TableIsGood(h: Hasher, sizing: Sizing, row: Row, entries: seq<Entry>)
    ensures var r := Fill(h, row.id, BucketCount(sizing, |entries|), entries, |entries|);
      r.Some? && TableInv(h, row.id, r.value, entries, |entries|) && Selects(r.value, entries)
  {
    FillGood(h, row.id, BucketCount(sizing, |entries|), entries, |entries|);
    var t := Fill(h, row.id, BucketCount(sizing, |entries|), entries, |entries|).value;
    assert forall b :: 0 <= b < |t.keys| && t.keys[b].Some? ==> SlotGood(t, entries, |entries|, b);
  }

  function BlockBytes(h: Hasher, sizing: Sizing, row: Row, entries: seq<Entry>, sequence: nat): (s: seq<byte>)
  {
    var t := TableOf(h, sizing, row, entries);
    Serialize(h, row, entries, sequence, t)
  }

  function Serialize(h: Hasher, row: Row, entries: seq<Entry>, sequence: nat, t: Table): (s: seq<byte>)
    requires Selects(t, entries)
    ensures |s| == LayoutHeader(h, row, entries, sequence, t).blockSize
  {
    EncodeBlockHeader(LayoutHeader(h, row, entries, sequence, t))
    + (BucketBytes(h, t, entries, |t.keys|) + (row.column + (t.keyBytes + Values(t, entries, |t.keys|))))
  }

  /** The machine-width limits every call the source can be given satisfies, and its own count checks. */
  predicate Writable(h: Hasher, sizing: Sizing, row: Row, entries: seq<Entry>, sequence: nat)
  {
    && CountsFit(sizing, entries) && row.id < TWO64 && |row.column| < TWO32 && sequence < TWO64
    && |BlockBytes(h, sizing, row, entries, sequence)| < TWO64
  }
}
