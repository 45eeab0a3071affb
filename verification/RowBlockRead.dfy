/**
 The two readers of a row block, a sparse lookup and a full decode, and what they
 return on the blocks the writer produces.
 */
module RowBlockRead {
  import opened Wrappers
  import opened Bytes
  import opened Words
  import opened Hash
  import opened Probing
  import opened FileIO
  import opened RowBlock

  /** A key's value, no such key, or a block that does not hold together. */
  datatype Lookup = Value(bytes: seq<byte>) | Missing | Broken

  function ReadBucket(file: seq<byte>, offset: nat, index: nat): Option<KeyBucket> {
    var b := PRead(file, offset + BLOCK_HEADER_SIZE + index * KEY_BUCKET_SIZE, KEY_BUCKET_SIZE);
    if b == None then None else Some(ParseBucket(b.value))
  }

  function KeyBytesOffset(hd: BlockHeader): nat {
    BLOCK_HEADER_SIZE + hd.bucketCount * KEY_BUCKET_SIZE + hd.columnSize
  }

  /** What the lookup does with one filled bucket; `None` means it probes on. */
  function Examine(h: Hasher, file: seq<byte>, offset: nat, hd: BlockHeader, key: seq<byte>, b: KeyBucket): Option<Lookup> {
    if b.state == BUCKET_EMPTY then Some(Missing)
    else if b.state != BUCKET_FILLED then Some(Broken)
    else if b.keyHash != h.HashString(key) || b.keySize != |key| then None
    else if b.keyOffset > hd.keyBytesSize || b.keySize > hd.keyBytesSize - b.keyOffset
         || b.valueOffset > hd.valueBytesSize || b.valueSize > hd.valueBytesSize - b.valueOffset then Some(Broken)
    else
      var stored := PRead(file, offset + KeyBytesOffset(hd) + b.keyOffset, |key|);
      if stored == None then Some(Broken)
      else if stored.value != key then None
      else
        var v := PRead(file, offset + KeyBytesOffset(hd) + hd.keyBytesSize + b.valueOffset, b.valueSize);
        if v == None then Some(Broken) else Some(Value(v.value))
  }

  /** The probe loop of the point lookup from probe `p` on. */
  function FindFrom(h: Hasher, file: seq<byte>, offset: nat, hd: BlockHeader, key: seq<byte>, p: nat): Lookup
    requires hd.bucketCount > 0 && p <= hd.bucketCount
    decreases hd.bucketCount - p
  {
    if p == hd.bucketCount then Missing else
      var index := At(Start(h.MixHashes(h.HashString(key), hd.rowId), hd.bucketCount), p, hd.bucketCount);
      var b := ReadBucket(file, offset, index);
      if b == None then Broken else
        match Examine(h, file, offset, hd, key, b.value)
        case Some(r) => r
        case None => FindFrom(h, file, offset, hd, key, p + 1)
  }

  function FindValue(h: Hasher, file: seq<byte>, offset: nat, hd: BlockHeader, key: seq<byte>): Lookup {
    if !IsValidRowBlockHeader(hd) then Broken else FindFrom(h, file, offset, hd, key, 0)
  }

  // ---- Parts of a serialised block ----------------------------------------

  /** A block of these entries is stored at `offset`. */
  ghost predicate BlockIsAt(file: seq<byte>, offset: nat, bytes: seq<byte>) {
    offset + |bytes| <= |file| && file[offset..offset + |bytes|] == bytes
  }

  lemma ReadWithin(file: seq<byte>, offset: nat, bytes: seq<byte>, a: nat, n: nat)
    requires BlockIsAt(file, offset, bytes) && a + n <= |bytes|
    ensures PRead(file, offset + a, n) == Some(bytes[a..a + n])
  {
    Slice(file, offset, |bytes|, a, a + n);
    if n == 0 { assert bytes[a..a + n] == []; }
  }

  lemma FiveParts(a: seq<byte>, b: seq<byte>, c: seq<byte>, d: seq<byte>, e: seq<byte>)
    ensures var s := a + (b + (c + (d + e)));
      && s[..|a|] == a
      && s[|a|..|a| + |b|] == b
      && s[|a| + |b|..|a| + |b| + |c|] == c
      && s[|a| + |b| + |c|..|a| + |b| + |c| + |d|] == d
      && s[|a| + |b| + |c| + |d|..] == e
  {
    Tail(a, b + (c + (d + e)));
    Tail(b, c + (d + e));
    Tail(c, d + e);
    Tail(d, e);
    var s := a + (b + (c + (d + e)));
    Drops(s, |a|, |b|);
    Drops(s, |a| + |b|, |c|);
    Drops(s, |a| + |b| + |c|, |d|);
  }

  lemma Tail(a: seq<byte>, b: seq<byte>)
    ensures (a + b)[..|a|] == a && (a + b)[|a|..] == b
  {
  }

  lemma Drops(s: seq<byte>, i: nat, n: nat)
    requires i + n <= |s|
    ensures s[i..][..n] == s[i..i + n] && s[i..][n..] == s[i + n..]
  {
  }

  /** `s` is laid out as its header says, with the parts of table `t` in their places. */
  ghost predicate Image(h: Hasher, row: Row, entries: seq<Entry>, t: Table, hd: BlockHeader, s: seq<byte>) {
    && Selects(t, entries) && AllSlotsGood(t, entries, |entries|)
    && hd.bucketCount == |t.keys| > 0 && hd.columnSize == |row.column| && hd.rowId == row.id
    && hd.keyBytesSize == |t.keyBytes| && hd.valueBytesSize == |Values(t, entries, |t.keys|)|
    && |s| == KeyBytesOffset(hd) + hd.keyBytesSize + hd.valueBytesSize
    && s[BLOCK_HEADER_SIZE..BLOCK_HEADER_SIZE + |t.keys| * KEY_BUCKET_SIZE] == BucketBytes(h, t, entries, |t.keys|)
    && s[BLOCK_HEADER_SIZE + |t.keys| * KEY_BUCKET_SIZE..KeyBytesOffset(hd)] == row.column
    && s[KeyBytesOffset(hd)..KeyBytesOffset(hd) + hd.keyBytesSize] == t.keyBytes
    && s[KeyBytesOffset(hd) + hd.keyBytesSize..] == Values(t, entries, |t.keys|)
    && |s| < TWO64
  }

  lemma SerializeIsImage(h: Hasher, row: Row, entries: seq<Entry>, sequence: nat, t: Table, hd: BlockHeader, s: seq<byte>)
    requires Selects(t, entries) && AllSlotsGood(t, entries, |entries|) && |t.keys| > 0
    requires hd == LayoutHeader(h, row, entries, sequence, t) && s == Serialize(h, row, entries, sequence, t)
    requires |s| < TWO64
    ensures Image(h, row, entries, t, hd, s)
    ensures s[..BLOCK_HEADER_SIZE] == EncodeBlockHeader(hd)
  {
    var a, b := EncodeBlockHeader(hd), BucketBytes(h, t, entries, |t.keys|);
    var c, d, e := row.column, t.keyBytes, Values(t, entries, |t.keys|);
    FiveParts(a, b, c, d, e);
    PartsAreImage(h, row, entries, t, hd, s, a, b, c, d, e);
  }

  lemma PartsAreImage(h: Hasher, row: Row, entries: seq<Entry>, t: Table, hd: BlockHeader, s: seq<byte>,
                      a: seq<byte>, b: seq<byte>, c: seq<byte>, d: seq<byte>, e: seq<byte>)
    requires Selects(t, entries) && AllSlotsGood(t, entries, |entries|) && |t.keys| > 0 && |s| < TWO64
    requires hd.bucketCount == |t.keys| && hd.columnSize == |c| && hd.rowId == row.id
    requires hd.keyBytesSize == |d| && hd.valueBytesSize == |e|
    requires b == BucketBytes(h, t, entries, |t.keys|) && c == row.column && d == t.keyBytes
    requires e == Values(t, entries, |t.keys|) && |a| == BLOCK_HEADER_SIZE
    requires |a| + |b| + |c| + |d| + |e| == |s|
    requires s[|a|..|a| + |b|] == b && s[|a| + |b|..|a| + |b| + |c|] == c
    requires s[|a| + |b| + |c|..|a| + |b| + |c| + |d|] == d && s[|a| + |b| + |c| + |d|..] == e
    ensures Image(h, row, entries, t, hd, s)
  {
    hide AllSlotsGood, BucketBytes, Values;
    assert |b| == |t.keys| * KEY_BUCKET_SIZE && KeyBytesOffset(hd) == |a| + |b| + |c|;
  }

  lemma BlockIsImage(h: Hasher, sizing: Sizing, row: Row, entries: seq<Entry>, sequence: nat)
    requires Writable(h, sizing, row, entries, sequence)
    ensures var t := TableOf(h, sizing, row, entries);
      var hd := LayoutHeader(h, row, entries, sequence, t);
      var s := BlockBytes(h, sizing, row, entries, sequence);
      Image(h, row, entries, t, hd, s) && s[..BLOCK_HEADER_SIZE] == EncodeBlockHeader(hd)
  {
    var t := TableOf(h, sizing, row, entries);
    TableIsGood(h, sizing, row, entries);
    SerializeIsImage(h, row, entries, sequence, t, LayoutHeader(h, row, entries, sequence, t),
                     BlockBytes(h, sizing, row, entries, sequence));
  }

  /** The header of a block, read back, is the one written, and it is valid. */
  lemma HeaderReadBack(h: Hasher, sizing: Sizing, row: Row, entries: seq<Entry>, sequence: nat)
    requires Writable(h, sizing, row, entries, sequence)
    ensures var s := BlockBytes(h, sizing, row, entries, sequence);
      var hd := LayoutHeader(h, row, entries, sequence, TableOf(h, sizing, row, entries));
      && |s| >= BLOCK_HEADER_SIZE
      && ParseBlockHeader(s[..BLOCK_HEADER_SIZE]) == hd
      && IsValidRowBlockHeader(hd) && hd.blockSize == |s|
  {
    var t := TableOf(h, sizing, row, entries);
    var hd := LayoutHeader(h, row, entries, sequence, t);
    BlockIsImage(h, sizing, row, entries, sequence);
    BucketCountIsPower(sizing, |entries|);
    HeaderFits(h, row, entries, sequence, t);
    BlockHeaderRoundTrip(hd);
  }

  lemma BucketCountIsPower(sizing: Sizing, count: nat)
    ensures PassesPowerTest(BucketCount(sizing, count))
  {
    RoundUpIsLeast(sizing.Quotient(count) + 1);
  }

  lemma HeaderFits(h: Hasher, row: Row, entries: seq<Entry>, sequence: nat, t: Table)
    requires Selects(t, entries) && |t.keys| < TWO32 && row.id < TWO64 && |row.column| < TWO32 && sequence < TWO64
    requires LayoutHeader(h, row, entries, sequence, t).blockSize < TWO64
    ensures LayoutHeader(h, row, entries, sequence, t).Fit()
  {
  }

  lemma BucketSlice(h: Hasher, row: Row, entries: seq<Entry>, t: Table, hd: BlockHeader, s: seq<byte>, b: nat, from: nat)
    requires Image(h, row, entries, t, hd, s) && b < |t.keys| && from == BLOCK_HEADER_SIZE + b * KEY_BUCKET_SIZE
    ensures from + KEY_BUCKET_SIZE <= |s|
    ensures s[from..from + KEY_BUCKET_SIZE] == EncodeBucket(Bucket(h, t, entries, b))
  {
    hide AllSlotsGood, EncodeBucket, Bucket, Values, BucketBytes;
    var n, o := |t.keys|, b * KEY_BUCKET_SIZE;
    assert o + KEY_BUCKET_SIZE <= n * KEY_BUCKET_SIZE;
    Slice(s, BLOCK_HEADER_SIZE, n * KEY_BUCKET_SIZE, o, o + KEY_BUCKET_SIZE);
    BucketAt(h, t, entries, n, b);
  }

  lemma BucketReadBack(h: Hasher, row: Row, entries: seq<Entry>, t: Table, hd: BlockHeader, s: seq<byte>, b: nat)
    requires Image(h, row, entries, t, hd, s) && b < |t.keys|
    ensures BLOCK_HEADER_SIZE + b * KEY_BUCKET_SIZE + KEY_BUCKET_SIZE <= |s|
    ensures BucketIn(s, b) == Bucket(h, t, entries, b)
  {
    hide Bucket, EncodeBucket, ParseBucket, Values, BucketBytes, AllSlotsGood, KeyBytesOffset;
    BucketSlice(h, row, entries, t, hd, s, b, BLOCK_HEADER_SIZE + b * KEY_BUCKET_SIZE);
    BucketFits(h, row, entries, t, hd, s, b);
    BucketRoundTrip(Bucket(h, t, entries, b));
  }

  lemma ReadBucketIn(file: seq<byte>, offset: nat, s: seq<byte>, b: nat)
    requires BlockIsAt(file, offset, s) && BLOCK_HEADER_SIZE + b * KEY_BUCKET_SIZE + KEY_BUCKET_SIZE <= |s|
    ensures ReadBucket(file, offset, b) == Some(BucketIn(s, b))
  {
    ReadWithin(file, offset, s, BLOCK_HEADER_SIZE + b * KEY_BUCKET_SIZE, KEY_BUCKET_SIZE);
  }

  lemma BucketFits(h: Hasher, row: Row, entries: seq<Entry>, t: Table, hd: BlockHeader, s: seq<byte>, b: nat)
    requires Image(h, row, entries, t, hd, s) && b < |t.keys|
    ensures Bucket(h, t, entries, b).Fit()
  {
    if t.keys[b].Some? {
      assert SlotGood(t, entries, |entries|, b);
      ValueAt(t, entries, |t.keys|, b);
    }
  }

  lemma KeyInBytes(t: Table, entries: seq<Entry>, b: nat)
    requires Selects(t, entries) && AllSlotsGood(t, entries, |entries|) && b < |t.keys| && t.keys[b].Some?
    ensures var k := t.keys[b].value;
      t.offset[b] + |k| <= |t.keyBytes| && t.keyBytes[t.offset[b]..t.offset[b] + |k|] == k
  {
    assert SlotGood(t, entries, |entries|, b);
  }

  /** A filled bucket's key lies inside the block, where the bucket points. */
  lemma StoredKey(h: Hasher, row: Row, entries: seq<Entry>, t: Table, hd: BlockHeader, s: seq<byte>, b: nat, ko: nat)
    requires Image(h, row, entries, t, hd, s) && b < |t.keys| && t.keys[b].Some?
    requires ko == KeyBytesOffset(hd) + t.offset[b]
    ensures t.offset[b] + |t.keys[b].value| <= hd.keyBytesSize
    ensures ko + |t.keys[b].value| <= |s| && s[ko..ko + |t.keys[b].value|] == t.keys[b].value
  {
    hide AllSlotsGood, Values, BucketBytes;
    KeyInBytes(t, entries, b);
    Slice(s, KeyBytesOffset(hd), hd.keyBytesSize, t.offset[b], t.offset[b] + |t.keys[b].value|);
  }

  /** So does its value. */
  lemma StoredValue(h: Hasher, row: Row, entries: seq<Entry>, t: Table, hd: BlockHeader, s: seq<byte>, b: nat,
                    o: nat, v: seq<byte>, vo: nat)
    requires Image(h, row, entries, t, hd, s) && b < |t.keys| && t.keys[b].Some?
    requires o == |Values(t, entries, b)| && v == entries[t.sel[b]].value
    requires vo == KeyBytesOffset(hd) + hd.keyBytesSize + o
    ensures o + |v| <= hd.valueBytesSize && vo + |v| <= |s| && s[vo..vo + |v|] == v
  {
    hide AllSlotsGood, BucketBytes;
    var from := KeyBytesOffset(hd) + hd.keyBytesSize;
    ValueAt(t, entries, |t.keys|, b);
    assert s[from..from + hd.valueBytesSize] == s[from..];
    Slice(s, from, hd.valueBytesSize, o, o + |v|);
  }

  // ---- The point lookup is a map lookup ------------------------------------

  /** What examining bucket `b` must give: the key compared, the selected value fetched. */
  function Expected(t: Table, entries: seq<Entry>, key: seq<byte>, b: nat): Option<Lookup>
    requires b < |t.keys| && Selects(t, entries)
  {
    if t.keys[b] == None then Some(Missing)
    else if t.keys[b] == Some(key) then Some(Value(entries[t.sel[b]].value))
    else None
  }

  lemma ExamineReadsKey(h: Hasher, row: Row, entries: seq<Entry>, t: Table, hd: BlockHeader, s: seq<byte>,
                        file: seq<byte>, offset: nat, key: seq<byte>, b: nat)
    requires Image(h, row, entries, t, hd, s) && BlockIsAt(file, offset, s) && b < |t.keys|
    ensures Examine(h, file, offset, hd, key, Bucket(h, t, entries, b)) == Expected(t, entries, key, b)
  {
    hide AllSlotsGood, BucketBytes;
    if t.keys[b].Some? {
      var k, v := t.keys[b].value, entries[t.sel[b]].value;
      var o := |Values(t, entries, b)|;
      var ko, vo := KeyBytesOffset(hd) + t.offset[b], KeyBytesOffset(hd) + hd.keyBytesSize + o;
      StoredKey(h, row, entries, t, hd, s, b, ko);
      StoredValue(h, row, entries, t, hd, s, b, o, v, vo);
      ReadWithin(file, offset, s, ko, |k|);
      ReadWithin(file, offset, s, vo, |v|);
    }
  }

  /** Every bucket of the stored table reads back and examines as expected. */
  ghost predicate Readable(h: Hasher, file: seq<byte>, offset: nat, hd: BlockHeader, t: Table, entries: seq<Entry>, key: seq<byte>) {
    Selects(t, entries) && hd.bucketCount == |t.keys| > 0
    && forall b :: 0 <= b < |t.keys| ==> BucketReadable(h, file, offset, hd, t, entries, key, b)
  }

  ghost predicate BucketReadable(h: Hasher, file: seq<byte>, offset: nat, hd: BlockHeader, t: Table, entries: seq<Entry>,
                                 key: seq<byte>, b: nat)
    requires Selects(t, entries) && b < |t.keys|
  {
    var r := ReadBucket(file, offset, b);
    r.Some? && Examine(h, file, offset, hd, key, r.value) == Expected(t, entries, key, b)
  }

  lemma ImageIsReadable(h: Hasher, row: Row, entries: seq<Entry>, t: Table, hd: BlockHeader, s: seq<byte>,
                        file: seq<byte>, offset: nat, key: seq<byte>)
    requires Image(h, row, entries, t, hd, s) && BlockIsAt(file, offset, s)
    ensures Readable(h, file, offset, hd, t, entries, key)
  {
    forall b | 0 <= b < |t.keys| ensures BucketReadable(h, file, offset, hd, t, entries, key, b) {
      BucketReadBack(h, row, entries, t, hd, s, b);
      ReadBucketIn(file, offset, s, b);
      ExamineReadsKey(h, row, entries, t, hd, s, file, offset, key, b);
    }
  }

  /** What a table probe that ended at slot `i` means for the lookup. */
  function Answer(t: Table, entries: seq<Entry>, i: nat): Lookup
    requires i <= |t.keys| && Selects(t, entries)
  {
    if i == |t.keys| || t.keys[i] == None then Missing else Value(entries[t.sel[i]].value)
  }

  lemma {:induction false} FindFromProbes(h: Hasher, hd: BlockHeader, t: Table, entries: seq<Entry>,
                                          file: seq<byte>, offset: nat, key: seq<byte>, start: nat, p: nat)
    requires Readable(h, file, offset, hd, t, entries, key) && p <= |t.keys|
    requires start == Start(h.MixHashes(h.HashString(key), hd.rowId), |t.keys|)
    ensures FindFrom(h, file, offset, hd, key, p) == Answer(t, entries, Probe(t.keys, key, start, p))
    decreases |t.keys| - p
  {
    if p < |t.keys| {
      var i := At(start, p, |t.keys|);
      assert BucketReadable(h, file, offset, hd, t, entries, key, i);
      if t.keys[i] != None && t.keys[i] != Some(key) {
        FindFromProbes(h, hd, t, entries, file, offset, key, start, p + 1);
      }
    }
  }

  /** On a stored block the point lookup returns the last value of each listed key and misses every other. */
  lemma LookupIsLast(h: Hasher, sizing: Sizing, row: Row, entries: seq<Entry>, sequence: nat,
                     file: seq<byte>, offset: nat, key: seq<byte>)
    requires Writable(h, sizing, row, entries, sequence)
    requires BlockIsAt(file, offset, BlockBytes(h, sizing, row, entries, sequence))
    ensures var hd := LayoutHeader(h, row, entries, sequence, TableOf(h, sizing, row, entries));
      FindValue(h, file, offset, hd, key)
      == if key in LastMap(entries) then Value(LastMap(entries)[key]) else Missing
  {
    var t := TableOf(h, sizing, row, entries);
    var start := Home(KeyHome(h, row.id), key, |t.keys|);
    TableIsGood(h, sizing, row, entries);
    HeaderReadBack(h, sizing, row, entries, sequence);
    BlockIsImage(h, sizing, row, entries, sequence);
    var hd := LayoutHeader(h, row, entries, sequence, t);
    ImageIsReadable(h, row, entries, t, hd, BlockBytes(h, sizing, row, entries, sequence), file, offset, key);
    FindFromProbes(h, hd, t, entries, file, offset, key, start, 0);
    OccupiedRoom(t.keys);
    FindIsLookup(t.keys, KeyHome(h, row.id), key);
    var i := Find(t.keys, KeyHome(h, row.id), key);
    LastMapIsLast(entries, key);
    assert Holds(t.keys, key) <==> KeyAmong(entries, |entries|, key);
    if t.keys[i].Some? { SelectedIsLast(h, row.id, t, entries, i); }
  }

  // ---- The full decode ------------------------------------------------------

  /** One bucket of the decode: nothing, an entry, or corruption. */
  datatype Decoded = Skip | Item(entry: Entry) | Bad

  function DecodeBucket(block: seq<byte>, hd: BlockHeader, b: KeyBucket): Decoded
    requires |block| >= KeyBytesOffset(hd) + hd.keyBytesSize + hd.valueBytesSize
  {
    if b.state == BUCKET_EMPTY then Skip
    else if b.state != BUCKET_FILLED then Bad
    else if b.keyOffset + b.keySize > hd.keyBytesSize || b.valueOffset + b.valueSize > hd.valueBytesSize then Bad
    else
      var k := KeyBytesOffset(hd) + b.keyOffset;
      var v := KeyBytesOffset(hd) + hd.keyBytesSize + b.valueOffset;
      Item(Entry(block[k..k + b.keySize], block[v..v + b.valueSize]))
  }

  function BucketIn(block: seq<byte>, index: nat): KeyBucket
    requires BLOCK_HEADER_SIZE + index * KEY_BUCKET_SIZE + KEY_BUCKET_SIZE <= |block|
  {
    var o := BLOCK_HEADER_SIZE + index * KEY_BUCKET_SIZE;
    ParseBucket(block[o..o + KEY_BUCKET_SIZE])
  }

  /** The entries of the first `n` buckets. */
  function DecodeUpTo(block: seq<byte>, hd: BlockHeader, n: nat): Option<seq<Entry>>
    requires n <= hd.bucketCount
    requires |block| >= KeyBytesOffset(hd) + hd.keyBytesSize + hd.valueBytesSize
  {
    if n == 0 then Some([]) else
      var before := DecodeUpTo(block, hd, n - 1);
      if before == None then None else
        assert (n - 1) * KEY_BUCKET_SIZE + KEY_BUCKET_SIZE <= hd.bucketCount * KEY_BUCKET_SIZE;
        match DecodeBucket(block, hd, BucketIn(block, n - 1))
        case Skip => before
        case Item(e) => Some(before.value + [e])
        case Bad => None
  }

  function Decode(h: Hasher, block: seq<byte>, row: Row): Option<seq<Entry>> {
    if |block| < BLOCK_HEADER_SIZE then None else
      var hd := ParseBlockHeader(block[..BLOCK_HEADER_SIZE]);
      if !IsValidRowBlockHeader(hd) || hd.blockSize != |block| || hd.rowId != row.id
         || hd.columnHash != h.HashString(row.column) then None
      else
        var c := BLOCK_HEADER_SIZE + hd.bucketCount * KEY_BUCKET_SIZE;
        if block[c..c + hd.columnSize] != row.column then None else
          var es := DecodeUpTo(block, hd, hd.bucketCount);
          if es == None || |es.value| != hd.itemCount then None else es
  }

  /** The table's entries in bucket order. */
  function Listed(t: Table, entries: seq<Entry>, n: nat): seq<Entry>
    requires n <= |t.keys| && Selects(t, entries)
  {
    if n == 0 then []
    else Listed(t, entries, n - 1)
         + (if t.keys[n - 1].Some? then [Entry(t.keys[n - 1].value, entries[t.sel[n - 1]].value)] else [])
  }

  /** Every bucket of the block decodes to its table slot. */
  ghost predicate Decodable(h: Hasher, t: Table, entries: seq<Entry>, hd: BlockHeader, s: seq<byte>) {
    Selects(t, entries) && hd.bucketCount == |t.keys|
    && |s| == KeyBytesOffset(hd) + hd.keyBytesSize + hd.valueBytesSize
    && forall b :: 0 <= b < |t.keys| ==> BucketDecodes(h, t, entries, hd, s, b)
  }

  ghost predicate BucketDecodes(h: Hasher, t: Table, entries: seq<Entry>, hd: BlockHeader, s: seq<byte>, b: nat)
    requires Selects(t, entries) && b < |t.keys|
    requires |s| == KeyBytesOffset(hd) + hd.keyBytesSize + hd.valueBytesSize
  {
    BLOCK_HEADER_SIZE + b * KEY_BUCKET_SIZE + KEY_BUCKET_SIZE <= |s|
    && DecodeBucket(s, hd, BucketIn(s, b))
       == if t.keys[b].Some? then Item(Entry(t.keys[b].value, entries[t.sel[b]].value)) else Skip
  }

  lemma ImageIsDecodable(h: Hasher, row: Row, entries: seq<Entry>, t: Table, hd: BlockHeader, s: seq<byte>)
    requires Image(h, row, entries, t, hd, s)
    ensures Decodable(h, t, entries, hd, s)
  {
    hide AllSlotsGood, BucketBytes, EncodeBucket, BucketIn;
    forall b | 0 <= b < |t.keys| ensures BucketDecodes(h, t, entries, hd, s, b) {
      BucketIsDecodable(h, row, entries, t, hd, s, b);
    }
  }

  lemma BucketIsDecodable(h: Hasher, row: Row, entries: seq<Entry>, t: Table, hd: BlockHeader, s: seq<byte>, b: nat)
    requires Image(h, row, entries, t, hd, s) && b < |t.keys|
    ensures |s| == KeyBytesOffset(hd) + hd.keyBytesSize + hd.valueBytesSize && BucketDecodes(h, t, entries, hd, s, b)
  {
    hide AllSlotsGood, BucketBytes, EncodeBucket, ParseBucket;
    BucketReadBack(h, row, entries, t, hd, s, b);
    if t.keys[b].Some? {
      var o := |Values(t, entries, b)|;
      StoredKey(h, row, entries, t, hd, s, b, KeyBytesOffset(hd) + t.offset[b]);
      StoredValue(h, row, entries, t, hd, s, b, o, entries[t.sel[b]].value, KeyBytesOffset(hd) + hd.keyBytesSize + o);
    }
  }

  lemma {:induction false} DecodeUpToLists(h: Hasher, entries: seq<Entry>, t: Table, hd: BlockHeader, s: seq<byte>, n: nat)
    requires Decodable(h, t, entries, hd, s) && n <= |t.keys|
    ensures DecodeUpTo(s, hd, n) == Some(Listed(t, entries, n))
  {
    if n == 0 {
    } else {
      DecodeUpToLists(h, entries, t, hd, s, n - 1);
      assert BucketDecodes(h, t, entries, hd, s, n - 1);
      assert Listed(t, entries, n - 1) + [] == Listed(t, entries, n - 1);
    }
  }

  ghost predicate DistinctKeys(es: seq<Entry>) {
    forall i, j :: 0 <= i < j < |es| ==> es[i].key != es[j].key
  }

  /** The listed entries of the first `n` buckets hold current values, each key once, one per filled bucket. */
  ghost predicate ListedGood(t: Table, entries: seq<Entry>, n: nat, es: seq<Entry>)
    requires n <= |t.keys|
  {
    && |es| == Occupied(t.keys[..n]) && DistinctKeys(es)
    && (forall i :: 0 <= i < |es| ==> es[i].key in LastMap(entries) && LastMap(entries)[es[i].key] == es[i].value)
    && (forall i :: 0 <= i < |es| ==> Some(es[i].key) in t.keys[..n])
    && (forall b :: 0 <= b < n && t.keys[b].Some? ==> KeyAmong(es, |es|, t.keys[b].value))
  }

  lemma {:induction false} ListedProperties(h: Hasher, rowId: nat, t: Table, entries: seq<Entry>, n: nat)
    requires TableInv(h, rowId, t, entries, |entries|) && Selects(t, entries) && n <= |t.keys|
    ensures ListedGood(t, entries, n, Listed(t, entries, n))
  {
    hide TableInv, Selects, ListedGood, LastMap, Distinct;
    InvIsDistinct(h, rowId, t, entries);
    if n == 0 {
      NothingListed(t, entries);
    } else {
      var before := Listed(t, entries, n - 1);
      ListedProperties(h, rowId, t, entries, n - 1);
      assert t.keys[..n] == t.keys[..n - 1] + [t.keys[n - 1]];
      OccupiedAppend(t.keys[..n - 1], t.keys[n - 1]);
      if t.keys[n - 1].Some? {
        SelectedIsLast(h, rowId, t, entries, n - 1);
        ListedOneMore(t, entries, n, before);
      } else {
        ListedNoMore(t, entries, n, before);
        assert Listed(t, entries, n) == before;
      }
    }
  }

  lemma InvIsDistinct(h: Hasher, rowId: nat, t: Table, entries: seq<Entry>)
    requires TableInv(h, rowId, t, entries, |entries|)
    ensures Distinct(t.keys)
  {
  }

  lemma NothingListed(t: Table, entries: seq<Entry>)
    ensures ListedGood(t, entries, 0, [])
  {
    assert t.keys[..0] == [];
  }

  lemma ListedNoMore(t: Table, entries: seq<Entry>, n: nat, before: seq<Entry>)
    requires 0 < n <= |t.keys| && t.keys[n - 1] == None && ListedGood(t, entries, n - 1, before)
    requires t.keys[..n] == t.keys[..n - 1] + [None] && Occupied(t.keys[..n]) == Occupied(t.keys[..n - 1])
    ensures ListedGood(t, entries, n, before)
  {
  }

  lemma ListedOneMore(t: Table, entries: seq<Entry>, n: nat, before: seq<Entry>)
    requires 0 < n <= |t.keys| && Distinct(t.keys) && t.keys[n - 1].Some? && Selects(t, entries)
    requires ListedGood(t, entries, n - 1, before) && t.keys[..n] == t.keys[..n - 1] + [t.keys[n - 1]]
    requires Occupied(t.keys[..n]) == Occupied(t.keys[..n - 1]) + 1
    requires t.keys[n - 1].value in LastMap(entries)
      && LastMap(entries)[t.keys[n - 1].value] == entries[t.sel[n - 1]].value
    ensures ListedGood(t, entries, n, before + [Entry(t.keys[n - 1].value, entries[t.sel[n - 1]].value)])
  {
    var k := t.keys[n - 1].value;
    var es := before + [Entry(k, entries[t.sel[n - 1]].value)];
    forall i | 0 <= i < |before| ensures before[i].key != k {
      var b :| 0 <= b < n - 1 && t.keys[..n - 1][b] == Some(before[i].key);
      assert t.keys[b] != t.keys[n - 1];
    }
    forall b | 0 <= b < n && t.keys[b].Some? ensures KeyAmong(es, |es|, t.keys[b].value) {
      if b < n - 1 {
        assert KeyAmong(before, |before|, t.keys[b].value);
        var j :| 0 <= j < |before| && before[j].key == t.keys[b].value;
        assert es[j].key == t.keys[b].value;
      } else {
        assert es[|before|].key == k;
      }
    }
  }

  lemma ListedIsMap(h: Hasher, rowId: nat, t: Table, entries: seq<Entry>, es: seq<Entry>)
    requires TableInv(h, rowId, t, entries, |entries|)
    requires ListedGood(t, entries, |t.keys|, es)
    ensures LastMap(es) == LastMap(entries) && |es| == |LastMap(entries)|
  {
    forall k ensures k in LastMap(es) <==> k in LastMap(entries)
      ensures k in LastMap(es) ==> LastMap(es)[k] == LastMap(entries)[k]
    {
      LastMapIsLast(es, k);
      LastMapIsLast(entries, k);
      assert Holds(t.keys, k) <==> KeyAmong(entries, |entries|, k);
      if Holds(t.keys, k) {
        var b :| 0 <= b < |t.keys| && t.keys[b] == Some(k);
        assert KeyAmong(es, |es|, t.keys[b].value);
      }
      if KeyAmong(es, |es|, k) {
        var j :| 0 <= j < |es| && es[j].key == k;
        assert LastAt(es, k, j);
      }
    }
    assert LastMap(es) == LastMap(entries);
    DistinctKeysCount(es);
  }

  /** Decoding a stored block lists exactly the entries' map, each key once. */
  lemma DecodeIsMap(h: Hasher, sizing: Sizing, row: Row, entries: seq<Entry>, sequence: nat)
    requires Writable(h, sizing, row, entries, sequence)
    ensures var d := Decode(h, BlockBytes(h, sizing, row, entries, sequence), row);
      d.Some? && DistinctKeys(d.value) && LastMap(d.value) == LastMap(entries)
      && |d.value| == |LastMap(entries)|
  {
    hide *;
    var s := BlockBytes(h, sizing, row, entries, sequence);
    var t := TableOf(h, sizing, row, entries);
    var hd := LayoutHeader(h, row, entries, sequence, t);
    TableOfIs(h, sizing, row, entries, sequence, t);
    HeaderReadBack(h, sizing, row, entries, sequence);
    BlockIsImage(h, sizing, row, entries, sequence);
    ListedAsMap(h, row.id, t, entries);
    ImageIsDecodable(h, row, entries, t, hd, s);
    DecodableCount(h, t, entries, hd, s);
    DecodeUpToLists(h, entries, t, hd, s, |t.keys|);
    DecodeOf(h, row, entries, t, hd, s);
  }

  lemma TableOfIs(h: Hasher, sizing: Sizing, row: Row, entries: seq<Entry>, sequence: nat, t: Table)
    requires t == TableOf(h, sizing, row, entries)
    ensures TableInv(h, row.id, t, entries, |entries|) && Selects(t, entries)
    ensures LayoutHeader(h, row, entries, sequence, t).columnHash == h.HashString(row.column)
    ensures LayoutHeader(h, row, entries, sequence, t).itemCount == Occupied(t.keys)
  {
    TableIsGood(h, sizing, row, entries);
  }

  lemma DecodableCount(h: Hasher, t: Table, entries: seq<Entry>, hd: BlockHeader, s: seq<byte>)
    requires Decodable(h, t, entries, hd, s)
    ensures hd.bucketCount == |t.keys|
  {
  }

  /** The listed entries of a full table are its map. */
  lemma ListedAsMap(h: Hasher, rowId: nat, t: Table, entries: seq<Entry>)
    requires TableInv(h, rowId, t, entries, |entries|) && Selects(t, entries)
    ensures var es := Listed(t, entries, |t.keys|);
      DistinctKeys(es) && LastMap(es) == LastMap(entries) && |es| == |LastMap(entries)| == Occupied(t.keys)
  {
    hide TableInv, LastMap, Listed;
    ListedProperties(h, rowId, t, entries, |t.keys|);
    assert t.keys[..|t.keys|] == t.keys;
    ListedIsMap(h, rowId, t, entries, Listed(t, entries, |t.keys|));
  }

  lemma DecodeOf(h: Hasher, row: Row, entries: seq<Entry>, t: Table, hd: BlockHeader, s: seq<byte>)
    requires Image(h, row, entries, t, hd, s) && ParseBlockHeader(s[..BLOCK_HEADER_SIZE]) == hd
    requires IsValidRowBlockHeader(hd) && hd.columnHash == h.HashString(row.column)
    requires DecodeUpTo(s, hd, |t.keys|) == Some(Listed(t, entries, |t.keys|))
    requires |Listed(t, entries, |t.keys|)| == hd.itemCount
    ensures Decode(h, s, row) == Some(Listed(t, entries, |t.keys|))
  {
    hide AllSlotsGood, EncodeBucket, Bucket, Values, BucketBytes, Listed, DecodeUpTo, ParseBlockHeader;
  }

  lemma {:induction false} DistinctKeysCount(es: seq<Entry>)
    requires DistinctKeys(es)
    ensures |LastMap(es)| == |es|
  {
    if es != [] {
      var init, last := es[..|es| - 1], es[|es| - 1];
      DistinctKeysCount(init);
      LastMapIsLast(init, last.key);
      assert LastMap(es).Keys == LastMap(init).Keys + {last.key};
    }
  }

  // ---- Editing a row --------------------------------------------------------

  /** What `PutRowStruct` does to the decoded list: replace the key's value in place, or append. */
  function Edit(es: seq<Entry>, e: Entry, i: nat): seq<Entry>
    requires i <= |es|
    decreases |es| - i
  {
    if i == |es| then es + [e] else if es[i].key == e.key then es[i := e] else Edit(es, e, i + 1)
  }

  lemma {:induction false} EditIsUpdate(es: seq<Entry>, e: Entry, i: nat)
    requires i <= |es| && DistinctKeys(es) && forall j :: 0 <= j < i ==> es[j].key != e.key
    ensures LastMap(Edit(es, e, i)) == LastMap(es)[e.key := e.value]
    decreases |es| - i
  {
    if i == |es| {
      assert (es + [e])[..|es|] == es;
    } else if es[i].key == e.key {
      var u := es[i := e];
      forall k ensures k in LastMap(u) <==> k in LastMap(es)
        ensures k in LastMap(u) ==> LastMap(u)[k] == LastMap(es)[e.key := e.value][k]
      {
        LastMapIsLast(u, k);
        LastMapIsLast(es, k);
        if KeyAmong(es, |es|, k) { var j :| 0 <= j < |es| && es[j].key == k; assert u[j].key == k; assert LastAt(es, k, j) && LastAt(u, k, j); }
        if KeyAmong(u, |u|, k) { var j :| 0 <= j < |u| && u[j].key == k; assert es[j].key == k; }
      }
      assert e.key in LastMap(es) by { LastMapIsLast(es, e.key); assert KeyAmong(es, |es|, e.key); }
      assert LastMap(u) == LastMap(es)[e.key := e.value];
    } else {
      EditIsUpdate(es, e, i + 1);
    }
  }

  /**
   Writing one key through decode, edit and rebuild is a map update: the new block
   answers the new value for the key and the old answer for every other key.
   */
  lemma PutRowStructIsUpdate(h: Hasher, sizing: Sizing, row: Row, entries: seq<Entry>, sequence: nat, e: Entry,
                             newSequence: nat, file: seq<byte>, offset: nat, key: seq<byte>)
    requires Writable(h, sizing, row, entries, sequence)
    requires var edited := Edit(Decode(h, BlockBytes(h, sizing, row, entries, sequence), row).GetOr([]), e, 0);
      Writable(h, sizing, row, edited, newSequence) && BlockIsAt(file, offset, BlockBytes(h, sizing, row, edited, newSequence))
    ensures var edited := Edit(Decode(h, BlockBytes(h, sizing, row, entries, sequence), row).GetOr([]), e, 0);
      var hd := LayoutHeader(h, row, edited, newSequence, TableOf(h, sizing, row, edited));
      FindValue(h, file, offset, hd, key)
      == if key == e.key then Value(e.value)
         else if key in LastMap(entries) then Value(LastMap(entries)[key]) else Missing
  {
    DecodeIsMap(h, sizing, row, entries, sequence);
    var d := Decode(h, BlockBytes(h, sizing, row, entries, sequence), row).value;
    EditIsUpdate(d, e, 0);
    LookupIsLast(h, sizing, row, Edit(d, e, 0), newSequence, file, offset, key);
  }
}
