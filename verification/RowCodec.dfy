/**
 The loops of the row block codec, each proved to compute what the block's
 specification functions say.
 */
module RowCodec {
  import opened Wrappers
  import opened Bytes
  import opened Words
  import opened Hash
  import opened Probing
  import opened FileIO
  import opened RowBlock
  import opened RowBlockRead

  const NO_KEY: KeyBucket := KeyBucket(BUCKET_EMPTY, 0, 0, 0, 0, 0)

  /** A built layout: the header, the bucket table, the stored keys and the values in bucket order. */
  datatype Layout = Layout(header: BlockHeader, keyBuckets: seq<KeyBucket>, keyBytes: seq<byte>, values: seq<seq<byte>>)

  // ---- Building a block: first pass ------------------------------------------------------

  /** Bucket `b` after the first pass: the key is placed, its value is not. */
  function Placed(h: Hasher, t: Table, b: nat): KeyBucket
    requires b < |t.keys| && Sized(t, |t.keys|)
  {
    match t.keys[b]
    case None => NO_KEY
    case Some(k) => KeyBucket(BUCKET_FILLED, h.HashString(k), t.offset[b], |k|, 0, 0)
  }

  /** The arrays of the first pass hold table `t`. */
  ghost predicate Holding(h: Hasher, keyBuckets: seq<KeyBucket>, selected: seq<nat>, keyBytes: seq<byte>, t: Table) {
    && Sized(t, |t.keys|) && |keyBuckets| == |selected| == |t.keys| && keyBytes == t.keyBytes
    && (forall b :: 0 <= b < |t.keys| ==> keyBuckets[b] == Placed(h, t, b))
    && (forall b :: 0 <= b < |t.keys| && t.keys[b].Some? ==> selected[b] == t.sel[b])
  }

  lemma HoldingAt(h: Hasher, keyBuckets: seq<KeyBucket>, selected: seq<nat>, keyBytes: seq<byte>, t: Table, b: nat)
    requires Holding(h, keyBuckets, selected, keyBytes, t) && b < |t.keys|
    ensures |keyBuckets| == |selected| == |t.keys| == |t.offset| == |t.sel| && keyBytes == t.keyBytes
    ensures keyBuckets[b].state == BUCKET_EMPTY <==> t.keys[b] == None
    ensures t.keys[b].Some? ==> selected[b] == t.sel[b] && keyBuckets[b].keyOffset == t.offset[b]
    ensures t.keys[b].Some? ==> keyBuckets[b].keyHash == h.HashString(t.keys[b].value) && keyBuckets[b].keySize == |t.keys[b].value|
  {
  }

  lemma StoredKeyIs(t: Table, entries: seq<Entry>, i: nat, b: nat)
    requires i <= |entries| && Sized(t, |t.keys|) && AllSlotsGood(t, entries, i) && b < |t.keys| && t.keys[b].Some?
    ensures t.offset[b] + |t.keys[b].value| <= |t.keyBytes|
    ensures t.keyBytes[t.offset[b]..t.offset[b] + |t.keys[b].value|] == t.keys[b].value
  {
    assert SlotGood(t, entries, i, b);
  }

  lemma TableInvFacts(h: Hasher, rowId: nat, t: Table, entries: seq<Entry>, i: nat)
    requires i <= |entries| && i < |t.keys| && TableInv(h, rowId, t, entries, i)
    ensures Sized(t, |t.keys|) && AllSlotsGood(t, entries, i) && Chained(t.keys, KeyHome(h, rowId)) && HasRoom(t.keys)
  {
    OccupiedRoom(t.keys);
  }

  lemma HoldingInsert(h: Hasher, rowId: nat, entries: seq<Entry>, i: nat, t: Table, b: nat,
                      keyBuckets: seq<KeyBucket>, selected: seq<nat>, keyBytes: seq<byte>)
    requires i < |entries| && |t.keys| > 0 && Holding(h, keyBuckets, selected, keyBytes, t)
    requires b == Find(t.keys, KeyHome(h, rowId), entries[i].key) < |t.keys|
    ensures var r := Insert(h, rowId, t, entries, i); r.Some?
    ensures var r := Insert(h, rowId, t, entries, i).value;
      var k := entries[i].key;
      if t.keys[b] == None
      then Holding(h, keyBuckets[b := KeyBucket(BUCKET_FILLED, h.HashString(k), |keyBytes|, |k|, 0, 0)], selected[b := i], keyBytes + k, r)
      else Holding(h, keyBuckets, selected[b := i], keyBytes, r)
  {
  }

  lemma FillStep(h: Hasher, rowId: nat, n: nat, entries: seq<Entry>, i: nat, t: Table)
    requires i < |entries| < n && Fill(h, rowId, n, entries, i) == Some(t) && Sized(t, n)
    ensures Fill(h, rowId, n, entries, i + 1) == Insert(h, rowId, t, entries, i)
  {
  }

  /** Places one entry: a new key in the first empty bucket, a known key by selecting this entry. */
  method PlaceEntry(h: Hasher, rowId: nat, entries: seq<Entry>, entryIndex: nat, keyBuckets: array<KeyBucket>, selected: array<nat>,
                    keyBytes: seq<byte>, ghost t: Table) returns (status: Status, more: seq<byte>, inserted: bool, ghost r: Table)
    requires entryIndex < |entries| < keyBuckets.Length && keyBuckets.Length == |t.keys| && IsPowerOfTwo(|t.keys|)
    requires Holding(h, keyBuckets[..], selected[..], keyBytes, t) && TableInv(h, rowId, t, entries, entryIndex)
    modifies keyBuckets, selected
    ensures status == Ok && |r.keys| == |t.keys| && Sized(t, |t.keys|) && Some(r) == Insert(h, rowId, t, entries, entryIndex)
    ensures Holding(h, keyBuckets[..], selected[..], more, r) && TableInv(h, rowId, r, entries, entryIndex + 1)
    ensures Occupied(r.keys) == Occupied(t.keys) + (if inserted then 1 else 0)
  {
    hide *;
    var key := entries[entryIndex].key;
    var bucketCount := keyBuckets.Length;
    var keyHash := h.HashString(key);
    var start := Start(h.MixHashes(keyHash, rowId), bucketCount);
    TableInvFacts(h, rowId, t, entries, entryIndex);
    KeyHomeIs(h, rowId, key, bucketCount);
    FindIsLookup(t.keys, KeyHome(h, rowId), key);
    InsertKeeps(h, rowId, t, entries, entryIndex);
    InsertCounts(h, rowId, t, entries, entryIndex);
    HoldingInsert(h, rowId, entries, entryIndex, t, Find(t.keys, KeyHome(h, rowId), key), keyBuckets[..], selected[..], keyBytes);
    r := Insert(h, rowId, t, entries, entryIndex).value;
    PassedNone(t.keys, key, start);
    more, inserted := keyBytes, false;
    var probe := 0;
    while probe < bucketCount
      invariant 0 <= probe <= bucketCount
      invariant Passed(t.keys, key, start, probe)
      invariant keyBuckets[..] == old(keyBuckets[..]) && selected[..] == old(selected[..])
    {
      MaskedAt(start, probe, bucketCount);
      var bucketIndex := Start(start + probe, bucketCount);
      var bucket := keyBuckets[bucketIndex];
      HoldingAt(h, keyBuckets[..], selected[..], keyBytes, t, bucketIndex);
      if bucket.state == BUCKET_EMPTY {
        FindIsFirst(t.keys, KeyHome(h, rowId), key, probe);
        keyBuckets[bucketIndex] := KeyBucket(BUCKET_FILLED, keyHash, |keyBytes|, |key|, 0, 0);
        selected[bucketIndex] := entryIndex;
        more, inserted := keyBytes + key, true;
        return Ok, more, inserted, r;
      }
      StoredKeyIs(t, entries, entryIndex, bucketIndex);
      if bucket.keyHash == keyHash && bucket.keySize == |key|
         && keyBytes[bucket.keyOffset..bucket.keyOffset + bucket.keySize] == key {
        FindIsFirst(t.keys, KeyHome(h, rowId), key, probe);
        selected[bucketIndex] := entryIndex;
        return Ok, more, inserted, r;
      }
      PassedMore(t.keys, key, start, probe);
      probe := probe + 1;
    }
    PassedAll(t.keys, key, start);
    return Corruption, more, inserted, r;
  }

  lemma KeyHomeIs(h: Hasher, rowId: nat, key: seq<byte>, n: nat)
    requires n > 0
    ensures Home(KeyHome(h, rowId), key, n) == Start(h.MixHashes(h.HashString(key), rowId), n)
  {
  }

  lemma InsertCounts(h: Hasher, rowId: nat, t: Table, entries: seq<Entry>, i: nat)
    requires i < |entries| && |t.keys| > 0 && Sized(t, |t.keys|)
    requires Find(t.keys, KeyHome(h, rowId), entries[i].key) < |t.keys|
    ensures var r := Insert(h, rowId, t, entries, i);
      r.Some? && |r.value.keys| == |t.keys| && Occupied(r.value.keys)
        == Occupied(t.keys) + (if t.keys[Find(t.keys, KeyHome(h, rowId), entries[i].key)] == None then 1 else 0)
  {
    var b := Find(t.keys, KeyHome(h, rowId), entries[i].key);
    if t.keys[b] == None { OccupiedFill(t.keys, b, entries[i].key); }
  }

  lemma EmptyHolding(h: Hasher, rowId: nat, n: nat, entries: seq<Entry>, keyBuckets: seq<KeyBucket>, selected: seq<nat>)
    requires n > 0 && |keyBuckets| == |selected| == n && forall b :: 0 <= b < n ==> keyBuckets[b] == NO_KEY
    ensures Fill(h, rowId, n, entries, 0) == Some(NoTable(n)) && |NoTable(n).keys| == n && Sized(NoTable(n), n)
    ensures Holding(h, keyBuckets, selected, [], NoTable(n)) && TableInv(h, rowId, NoTable(n), entries, 0)
    ensures Occupied(NoTable(n).keys) == 0
  {
    NoTableInv(h, rowId, n, entries);
    OccupiedNone(NoTable(n).keys);
  }

  /** The first pass: every entry placed, the last of each key selected. */
  method PlaceEntries(h: Hasher, rowId: nat, entries: seq<Entry>, bucketCount: nat)
    returns (status: Status, keyBuckets: array<KeyBucket>, selected: array<nat>, keyBytes: seq<byte>, itemCount: nat, ghost t: Table)
    requires |entries| < bucketCount && IsPowerOfTwo(bucketCount)
    ensures status == Ok && fresh(keyBuckets) && fresh(selected) && keyBuckets.Length == selected.Length == bucketCount == |t.keys|
    ensures Fill(h, rowId, bucketCount, entries, |entries|) == Some(t) && TableInv(h, rowId, t, entries, |entries|)
    ensures Holding(h, keyBuckets[..], selected[..], keyBytes, t) && itemCount == Occupied(t.keys)
  {
    hide *;
    keyBuckets := new KeyBucket[bucketCount](_ => NO_KEY);
    selected := new nat[bucketCount](_ => |entries|);
    keyBytes, itemCount := [], 0;
    t := NoTable(bucketCount);
    EmptyHolding(h, rowId, bucketCount, entries, keyBuckets[..], selected[..]);
    var entryIndex := 0;
    while entryIndex < |entries|
      invariant 0 <= entryIndex <= |entries| && |t.keys| == bucketCount && Sized(t, bucketCount)
      invariant Fill(h, rowId, bucketCount, entries, entryIndex) == Some(t) && TableInv(h, rowId, t, entries, entryIndex)
      invariant Holding(h, keyBuckets[..], selected[..], keyBytes, t) && itemCount == Occupied(t.keys)
    {
      FillStep(h, rowId, bucketCount, entries, entryIndex, t);
      var inserted;
      ghost var r;
      status, keyBytes, inserted, r := PlaceEntry(h, rowId, entries, entryIndex, keyBuckets, selected, keyBytes, t);
      if status != Ok { return; }
      InsertSized(h, rowId, t, entries, entryIndex, r);
      t := r;
      if inserted { itemCount := itemCount + 1; }
      entryIndex := entryIndex + 1;
    }
    status := Ok;
  }

  lemma InsertSized(h: Hasher, rowId: nat, t: Table, entries: seq<Entry>, i: nat, r: Table)
    requires i < |entries| && |t.keys| > 0 && Sized(t, |t.keys|) && Insert(h, rowId, t, entries, i) == Some(r)
    ensures Sized(r, |t.keys|)
  {
  }

  // ---- Building a block: second pass --------------------------------------------------------

  lemma PlaceValue(h: Hasher, t: Table, entries: seq<Entry>, b: nat, values: seq<seq<byte>>)
    requires b < |t.keys| && Selects(t, entries) && Concat(values) == Values(t, entries, b)
    ensures t.keys[b] == None ==> Bucket(h, t, entries, b) == NO_KEY && Values(t, entries, b + 1) == Values(t, entries, b)
    ensures t.keys[b].Some? ==> t.sel[b] < |entries|
    ensures t.keys[b].Some? ==>
      Bucket(h, t, entries, b) == Placed(h, t, b).(valueOffset := |Values(t, entries, b)|, valueSize := |entries[t.sel[b]].value|)
    ensures t.keys[b].Some? ==> Concat(values + [entries[t.sel[b]].value]) == Values(t, entries, b + 1)
  {
    if t.keys[b].Some? {
      var v := entries[t.sel[b]].value;
      ConcatAppend(values, [v]);
      assert Concat([v]) == v by { assert v + [] == v; }
    } else {
      assert Values(t, entries, b) + [] == Values(t, entries, b);
    }
  }

  /** The second pass: value offsets follow bucket order. */
  method PlaceValues(h: Hasher, entries: seq<Entry>, keyBuckets: array<KeyBucket>, selected: array<nat>, ghost keyBytes: seq<byte>, ghost t: Table)
    returns (values: seq<seq<byte>>, valueBytesSize: nat)
    requires keyBuckets != selected as object && keyBuckets.Length == selected.Length == |t.keys|
    requires Holding(h, keyBuckets[..], selected[..], keyBytes, t) && Selects(t, entries)
    modifies keyBuckets
    ensures forall b :: 0 <= b < |t.keys| ==> keyBuckets[b] == Bucket(h, t, entries, b)
    ensures Concat(values) == Values(t, entries, |t.keys|) && valueBytesSize == |Values(t, entries, |t.keys|)|
  {
    hide Values, Bucket, Selects, Occupied;
    values, valueBytesSize := [], 0;
    NoValues(t, entries);
    for bucketIndex := 0 to keyBuckets.Length
      invariant forall b :: 0 <= b < bucketIndex ==> keyBuckets[b] == Bucket(h, t, entries, b)
      invariant forall b :: bucketIndex <= b < keyBuckets.Length ==> keyBuckets[b] == Placed(h, t, b)
      invariant Concat(values) == Values(t, entries, bucketIndex) && valueBytesSize == |Values(t, entries, bucketIndex)|
    {
      PlaceValue(h, t, entries, bucketIndex, values);
      assert keyBuckets[bucketIndex] == Placed(h, t, bucketIndex);
      assert selected[..][bucketIndex] == selected[bucketIndex];
      if keyBuckets[bucketIndex].state == BUCKET_EMPTY { continue; }
      var value := entries[selected[bucketIndex]].value;
      keyBuckets[bucketIndex] := keyBuckets[bucketIndex].(valueOffset := valueBytesSize, valueSize := |value|);
      valueBytesSize := valueBytesSize + |value|;
      ValuesGrow(t, entries, bucketIndex);
      values := values + [value];
    }
  }

  lemma NoValues(t: Table, entries: seq<Entry>)
    requires Selects(t, entries)
    ensures Values(t, entries, 0) == []
  {
  }

  lemma ValuesGrow(t: Table, entries: seq<Entry>, b: nat)
    requires b < |t.keys| && Selects(t, entries) && t.keys[b].Some?
    ensures |Values(t, entries, b + 1)| == |Values(t, entries, b)| + |entries[t.sel[b]].value|
  {
  }

  /**
   Both passes.  The only refusals are a list or a table too long for its 32-bit
   count; the table is never found full.
   */
  method BuildRowBlockLayout(h: Hasher, sizing: Sizing, row: Row, entries: seq<Entry>, sequence: nat) returns (status: Status, layout: Layout)
    ensures status == if CountsFit(sizing, entries) then Ok else InvalidArgument
    ensures status == Ok ==> LayoutIs(h, row, entries, sequence, TableOf(h, sizing, row, entries), layout)
  {
    hide *;
    CountsAre(sizing, entries);
    layout := Layout(BlockHeader(0, 0, 0, 0, 0, 0, 0, 0, 0, 0, 0, 0, 0), [], [], []);
    if |entries| > TWO32 - 1 { return InvalidArgument, layout; }
    var bucketCount := RoundUp(sizing.Quotient(|entries|) + 1);
    if bucketCount > TWO32 - 1 { return InvalidArgument, layout; }
    BucketCountIsPower(sizing, |entries|);
    PowerTestIsExact(bucketCount);
    TableIsGood(h, sizing, row, entries);
    var keyBuckets, selected, keyBytes, itemCount;
    ghost var t;
    status, keyBuckets, selected, keyBytes, itemCount, t := PlaceEntries(h, row.id, entries, bucketCount);
    if status != Ok { return; }
    TableIs(h, sizing, row, entries, t);
    HoldingKeys(h, keyBuckets[..], selected[..], keyBytes, t);
    var values, valueBytesSize := PlaceValues(h, entries, keyBuckets, selected, keyBytes, t);
    var header := BlockHeader(ROW_BLOCK_MAGIC, STORAGE_VERSION, BLOCK_HEADER_SIZE, sequence, h.HashString(row.column), row.id,
                              |row.column|, itemCount, bucketCount, 0, |keyBytes|, valueBytesSize,
                              BLOCK_HEADER_SIZE + bucketCount * KEY_BUCKET_SIZE + |row.column| + |keyBytes| + valueBytesSize);
    layout := Layout(header, keyBuckets[..], keyBytes, values);
    HeaderIs(h, row, entries, sequence, t);
    MakeLayout(h, row, entries, sequence, t, layout);
    status := Ok;
  }

  /** The layout is the one the table stands for. */
  ghost predicate LayoutIs(h: Hasher, row: Row, entries: seq<Entry>, sequence: nat, t: Table, layout: Layout) {
    && Selects(t, entries) && layout.header == LayoutHeader(h, row, entries, sequence, t)
    && |layout.keyBuckets| == |t.keys| && layout.keyBytes == t.keyBytes
    && (forall b :: 0 <= b < |t.keys| ==> layout.keyBuckets[b] == Bucket(h, t, entries, b))
    && Concat(layout.values) == Values(t, entries, |t.keys|)
  }

  lemma MakeLayout(h: Hasher, row: Row, entries: seq<Entry>, sequence: nat, t: Table, layout: Layout)
    requires Selects(t, entries) && layout.header == LayoutHeader(h, row, entries, sequence, t)
    requires |layout.keyBuckets| == |t.keys| && layout.keyBytes == t.keyBytes
    requires forall b :: 0 <= b < |t.keys| ==> layout.keyBuckets[b] == Bucket(h, t, entries, b)
    requires Concat(layout.values) == Values(t, entries, |t.keys|)
    ensures LayoutIs(h, row, entries, sequence, t, layout)
  {
  }

  lemma HoldingKeys(h: Hasher, keyBuckets: seq<KeyBucket>, selected: seq<nat>, keyBytes: seq<byte>, t: Table)
    requires Holding(h, keyBuckets, selected, keyBytes, t)
    ensures keyBytes == t.keyBytes
  {
  }

  lemma CountsAre(sizing: Sizing, entries: seq<Entry>)
    ensures RoundUp(sizing.Quotient(|entries|) + 1) == BucketCount(sizing, |entries|) > |entries|
    ensures CountsFit(sizing, entries) <==> |entries| < TWO32 && BucketCount(sizing, |entries|) < TWO32
  {
  }

  lemma TableIs(h: Hasher, sizing: Sizing, row: Row, entries: seq<Entry>, t: Table)
    requires Fill(h, row.id, BucketCount(sizing, |entries|), entries, |entries|) == Some(t)
    ensures t == TableOf(h, sizing, row, entries) && Selects(t, entries)
  {
  }

  lemma HeaderIs(h: Hasher, row: Row, entries: seq<Entry>, sequence: nat, t: Table)
    requires Selects(t, entries)
    ensures LayoutHeader(h, row, entries, sequence, t) == BlockHeader(ROW_BLOCK_MAGIC, STORAGE_VERSION, BLOCK_HEADER_SIZE, sequence,
      h.HashString(row.column), row.id, |row.column|, Occupied(t.keys), |t.keys|, 0, |t.keyBytes|, |Values(t, entries, |t.keys|)|,
      BLOCK_HEADER_SIZE + |t.keys| * KEY_BUCKET_SIZE + |row.column| + |t.keyBytes| + |Values(t, entries, |t.keys|)|)
  {
  }

  // ---- The slices of a block ------------------------------------------------------------------

  function EncodeBuckets(buckets: seq<KeyBucket>): seq<byte> {
    if buckets == [] then [] else EncodeBuckets(buckets[..|buckets| - 1]) + EncodeBucket(buckets[|buckets| - 1])
  }

  /** The slices WriteRowStructs hands to the vectored write. */
  function BlockSlices(row: Row, layout: Layout): seq<seq<byte>> {
    [EncodeBlockHeader(layout.header), EncodeBuckets(layout.keyBuckets), row.column, layout.keyBytes] + layout.values
  }

  lemma {:induction false} EncodeBucketsIs(h: Hasher, t: Table, entries: seq<Entry>, buckets: seq<KeyBucket>, n: nat)
    requires Selects(t, entries) && n == |buckets| <= |t.keys| && forall b :: 0 <= b < n ==> buckets[b] == Bucket(h, t, entries, b)
    ensures EncodeBuckets(buckets) == BucketBytes(h, t, entries, n)
  {
    if n > 0 { EncodeBucketsIs(h, t, entries, buckets[..n - 1], n - 1); }
  }

  lemma ConcatFour(a: seq<byte>, b: seq<byte>, c: seq<byte>, d: seq<byte>, rest: seq<seq<byte>>)
    ensures Concat([a, b, c, d] + rest) == a + (b + (c + (d + Concat(rest))))
  {
    var s := [a, b, c, d] + rest;
    assert s[1..] == [b, c, d] + rest && s[1..][1..] == [c, d] + rest;
    assert s[1..][1..][1..] == [d] + rest && s[1..][1..][1..][1..] == rest;
    assert Concat([d] + rest) == d + Concat(rest);
    assert Concat([c, d] + rest) == c + (d + Concat(rest));
    assert Concat([b, c, d] + rest) == b + (c + (d + Concat(rest)));
  }

  /** Written one after the other, the slices of a built layout are the block. */
  lemma SlicesAreBlock(h: Hasher, sizing: Sizing, row: Row, entries: seq<Entry>, sequence: nat, layout: Layout)
    requires LayoutIs(h, row, entries, sequence, TableOf(h, sizing, row, entries), layout)
    ensures Concat(BlockSlices(row, layout)) == BlockBytes(h, sizing, row, entries, sequence)
  {
    var t := TableOf(h, sizing, row, entries);
    EncodeBucketsIs(h, t, entries, layout.keyBuckets, |t.keys|);
    ConcatFour(EncodeBlockHeader(layout.header), EncodeBuckets(layout.keyBuckets), row.column, layout.keyBytes, layout.values);
  }

  // ---- The point lookup ------------------------------------------------------------------------

  lemma FindStep(h: Hasher, file: seq<byte>, offset: nat, hd: BlockHeader, key: seq<byte>, p: nat, index: nat)
    requires p < hd.bucketCount && index == At(Start(h.MixHashes(h.HashString(key), hd.rowId), hd.bucketCount), p, hd.bucketCount)
    ensures ReadBucket(file, offset, index) == None ==> FindFrom(h, file, offset, hd, key, p) == Broken
    ensures ReadBucket(file, offset, index).Some? ==>
      FindFrom(h, file, offset, hd, key, p)
      == match Examine(h, file, offset, hd, key, ReadBucket(file, offset, index).value)
         case Some(r) => r
         case None => FindFrom(h, file, offset, hd, key, p + 1)
    ensures hd.bucketCount > 0 && FindFrom(h, file, offset, hd, key, hd.bucketCount) == Missing
  {
  }

  lemma FindStarts(h: Hasher, file: seq<byte>, offset: nat, hd: BlockHeader, key: seq<byte>)
    ensures FindValue(h, file, offset, hd, key) == if IsValidRowBlockHeader(hd) then FindFrom(h, file, offset, hd, key, 0) else Broken
    ensures IsValidRowBlockHeader(hd) ==> PassesPowerTest(hd.bucketCount) && hd.bucketCount > 0
    ensures IsValidRowBlockHeader(hd) ==> FindFrom(h, file, offset, hd, key, hd.bucketCount) == Missing
  {
  }

  /** The probe loop of the point lookup. */
  method FindValueInRowBlockAt(h: Hasher, file: seq<byte>, offset: nat, header: BlockHeader, key: seq<byte>) returns (result: Lookup)
    ensures result == FindValue(h, file, offset, header, key)
  {
    hide *;
    FindStarts(h, file, offset, header, key);
    if !IsValidRowBlockHeader(header) { return Broken; }
    PowerTestIsExact(header.bucketCount);
    var start := Start(h.MixHashes(h.HashString(key), header.rowId), header.bucketCount);
    var probe := 0;
    while probe < header.bucketCount
      invariant 0 <= probe <= header.bucketCount
      invariant FindFrom(h, file, offset, header, key, probe) == FindValue(h, file, offset, header, key)
    {
      MaskedAt(start, probe, header.bucketCount);
      var bucketIndex := Start(start + probe, header.bucketCount);
      FindStep(h, file, offset, header, key, probe, bucketIndex);
      var bucket := ReadBucket(file, offset, bucketIndex);
      if bucket == None { return Broken; }
      var examined := ExamineBucket(h, file, offset, header, key, bucket.value);
      if examined.Some? { return examined.value; }
      probe := probe + 1;
    }
    return Missing;
  }

  /** What the loop does with one bucket it has read. */
  method ExamineBucket(h: Hasher, file: seq<byte>, offset: nat, header: BlockHeader, key: seq<byte>, bucket: KeyBucket)
    returns (result: Option<Lookup>)
    ensures result == Examine(h, file, offset, header, key, bucket)
  {
    if bucket.state == BUCKET_EMPTY { return Some(Missing); }
    if bucket.state != BUCKET_FILLED { return Some(Broken); }
    if bucket.keyHash != h.HashString(key) || bucket.keySize != |key| { return None; }
    if bucket.keyOffset > header.keyBytesSize || bucket.keySize > header.keyBytesSize - bucket.keyOffset
       || bucket.valueOffset > header.valueBytesSize || bucket.valueSize > header.valueBytesSize - bucket.valueOffset {
      return Some(Broken);
    }
    var keyBytesOffset := BLOCK_HEADER_SIZE + header.bucketCount * KEY_BUCKET_SIZE + header.columnSize;
    var storedKey := PRead(file, offset + keyBytesOffset + bucket.keyOffset, |key|);
    if storedKey == None { return Some(Broken); }
    if storedKey.value != key { return None; }
    var value := PRead(file, offset + keyBytesOffset + header.keyBytesSize + bucket.valueOffset, bucket.valueSize);
    if value == None { return Some(Broken); }
    return Some(Value(value.value));
  }

  // ---- The full decode ---------------------------------------------------------------------------

  function Zip(keys: seq<seq<byte>>, values: seq<seq<byte>>): (es: seq<Entry>)
    requires |keys| == |values|
    ensures |es| == |keys|
  {
    seq(|keys|, i requires 0 <= i < |keys| => Entry(keys[i], values[i]))
  }

  /** Lists the keys and values of a block in bucket order, or finds it broken. */
  method DecodeRowBlockEntries(h: Hasher, block: seq<byte>, row: Row) returns (status: Status, keys: seq<seq<byte>>, values: seq<seq<byte>>)
    ensures |keys| == |values| && status in {Ok, Corruption}
    ensures Decode(h, block, row) == if status == Ok then Some(Zip(keys, values)) else None
  {
    keys, values := [], [];
    if |block| < BLOCK_HEADER_SIZE { return Corruption, [], []; }
    var header := ParseBlockHeader(block[..BLOCK_HEADER_SIZE]);
    if !IsValidRowBlockHeader(header) || header.blockSize != |block| || header.rowId != row.id
       || header.columnHash != h.HashString(row.column) {
      return Corruption, [], [];
    }
    var columnOffset := BLOCK_HEADER_SIZE + header.bucketCount * KEY_BUCKET_SIZE;
    if block[columnOffset..columnOffset + header.columnSize] != row.column { return Corruption, [], []; }
    status, keys, values := DecodeBuckets(block, header);
    if status != Ok { return Corruption, [], []; }
    if |keys| != header.itemCount { return Corruption, [], []; }
  }

  lemma DecodeFails(block: seq<byte>, hd: BlockHeader, n: nat, m: nat)
    requires n <= m <= hd.bucketCount && |block| >= KeyBytesOffset(hd) + hd.keyBytesSize + hd.valueBytesSize
    requires DecodeUpTo(block, hd, n) == None
    ensures DecodeUpTo(block, hd, m) == None
    decreases m - n
  {
    if n < m { DecodeFails(block, hd, n + 1, m); }
  }

  method DecodeBuckets(block: seq<byte>, header: BlockHeader) returns (status: Status, keys: seq<seq<byte>>, values: seq<seq<byte>>)
    requires |block| >= KeyBytesOffset(header) + header.keyBytesSize + header.valueBytesSize
    ensures |keys| == |values| && status in {Ok, Corruption}
    ensures DecodeUpTo(block, header, header.bucketCount) == if status == Ok then Some(Zip(keys, values)) else None
  {
    var keyBytesOffset := BLOCK_HEADER_SIZE + header.bucketCount * KEY_BUCKET_SIZE + header.columnSize;
    var valueBytesOffset := keyBytesOffset + header.keyBytesSize;
    keys, values := [], [];
    var index := 0;
    while index < header.bucketCount
      invariant 0 <= index <= header.bucketCount && |keys| == |values|
      invariant DecodeUpTo(block, header, index) == Some(Zip(keys, values))
    {
      assert index * KEY_BUCKET_SIZE + KEY_BUCKET_SIZE <= header.bucketCount * KEY_BUCKET_SIZE;
      var bucket := BucketIn(block, index);
      DecodeNext(block, header, index);
      if bucket.state != BUCKET_EMPTY {
        if bucket.state != BUCKET_FILLED
           || bucket.keyOffset + bucket.keySize > header.keyBytesSize || bucket.valueOffset + bucket.valueSize > header.valueBytesSize {
          DecodeFails(block, header, index + 1, header.bucketCount);
          return Corruption, [], [];
        }
        var k := keyBytesOffset + bucket.keyOffset;
        var v := valueBytesOffset + bucket.valueOffset;
        assert Zip(keys + [block[k..k + bucket.keySize]], values + [block[v..v + bucket.valueSize]])
            == Zip(keys, values) + [Entry(block[k..k + bucket.keySize], block[v..v + bucket.valueSize])];
        keys, values := keys + [block[k..k + bucket.keySize]], values + [block[v..v + bucket.valueSize]];
      }
      index := index + 1;
    }
    status := Ok;
  }

  lemma DecodeNext(block: seq<byte>, hd: BlockHeader, n: nat)
    requires n < hd.bucketCount && |block| >= KeyBytesOffset(hd) + hd.keyBytesSize + hd.valueBytesSize
    requires DecodeUpTo(block, hd, n).Some?
    ensures BLOCK_HEADER_SIZE + n * KEY_BUCKET_SIZE + KEY_BUCKET_SIZE <= |block|
    ensures DecodeUpTo(block, hd, n + 1) == match DecodeBucket(block, hd, BucketIn(block, n))
      case Skip => DecodeUpTo(block, hd, n)
      case Item(e) => Some(DecodeUpTo(block, hd, n).value + [e])
      case Bad => None
  {
    assert n * KEY_BUCKET_SIZE + KEY_BUCKET_SIZE <= hd.bucketCount * KEY_BUCKET_SIZE;
  }

  // ---- Editing a row ---------------------------------------------------------------------------------

  /** The loop of PutRowStruct: replaces the key's value where the key is found, or appends the pair. */
  method EditRow(keys: seq<seq<byte>>, values: seq<seq<byte>>, key: seq<byte>, value: seq<byte>)
    returns (newKeys: seq<seq<byte>>, newValues: seq<seq<byte>>)
    requires |keys| == |values|
    ensures |newKeys| == |newValues| && Zip(newKeys, newValues) == Edit(Zip(keys, values), Entry(key, value), 0)
  {
    newKeys, newValues := keys, values;
    var replaced := false;
    ghost var es := Zip(keys, values);
    var index := 0;
    while index < |keys|
      invariant 0 <= index <= |keys|
      invariant Edit(es, Entry(key, value), index) == Edit(es, Entry(key, value), 0)
    {
      if keys[index] == key {
        newValues := values[index := value];
        assert Zip(keys, newValues) == es[index := Entry(key, value)];
        return;
      }
      index := index + 1;
    }
    newKeys, newValues := keys + [key], values + [value];
    assert Zip(newKeys, newValues) == es + [Entry(key, value)];
  }
}
