/**
 The object store: an append-only log of records and an open-addressing index
 whose buckets hold only a hash and a record offset.

 The class keeps three ghost fields beside the real ones: the records written so
 far, the name each bucket stands for and where each name's record starts.
 `Tabled` ties the last two to the bucket array, `Indexed` all three to the bytes
 of the value file.  The larger methods fold every definition and work from the
 contracts of the lemmas they call.
 */
module ObjectStore {
  import opened Wrappers
  import opened Bytes
  import opened Words
  import opened Hash
  import opened Load
  import opened Probing
  import opened FileIO
  import opened RecordLog
  import opened ObjectIndex

  class Store {
    const h: Hasher
    const f: real
    const initialBucketCount: nat
    const maxVectors: nat
    const file: Kernel

    var open: bool
    var readOnly: bool
    var buckets: array<IndexBucket>
    var itemCount: nat
    var nextSequence: nat
    var appendOffset: nat

    ghost var records: seq<Record>
    ghost var owner: seq<Option<Name>>
    ghost var offsets: map<Name, nat>

    /** The buckets are a probe table of names, each with a record offset. */
    ghost predicate Tabled()
      reads this`buckets, this`itemCount, this`owner, this`offsets, buckets
    {
      && 0.0 < f < 0.95 && maxVectors >= 1
      && |owner| == buckets.Length && TableOf(h, owner, offsets)
      && buckets[..] == BucketsOf(h, owner, offsets)
      && itemCount == Occupied(owner)
    }

    /** The index stands for `records`, all of which are in the value file. */
    ghost predicate Indexed()
      reads this`buckets, this`itemCount, this`records, this`owner, this`offsets, buckets, file`data
    {
      Tabled() && offsets == LastOffsets(records) && AllStorable(records) && File(records) <= file.data
    }

    lemma TabledFacts()
      requires Tabled()
      ensures 0.0 < f < 0.95 && maxVectors >= 1 && |owner| == buckets.Length > 0
      ensures TableOf(h, owner, offsets) && itemCount == Occupied(owner) < |owner|
      ensures buckets[..] == BucketsOf(h, owner, offsets)
      ensures forall i :: 0 <= i < buckets.Length ==> (buckets[i].hash == 0 <==> owner[i] == None)
    {
      assert forall i :: 0 <= i < buckets.Length ==> buckets[i] == buckets[..][i];
    }

    lemma MakeTabled()
      requires 0.0 < f < 0.95 && maxVectors >= 1
      requires |owner| == buckets.Length && TableOf(h, owner, offsets) && itemCount == Occupied(owner)
      requires buckets[..] == BucketsOf(h, owner, offsets)
      ensures Tabled()
    {
    }

    /** What `Indexed` says, for proofs that keep its parts folded. */
    lemma IndexedFacts()
      requires Indexed()
      ensures Tabled() && 0.0 < f < 0.95 && maxVectors >= 1 && |owner| == buckets.Length > 0
      ensures AllStorable(records) && File(records) <= file.data && offsets == LastOffsets(records)
      ensures TableOf(h, owner, LastOffsets(records)) && itemCount == Occupied(owner) < |owner|
      ensures buckets[..] == BucketsOf(h, owner, LastOffsets(records))
      ensures forall i :: 0 <= i < buckets.Length ==> (buckets[i].hash == 0 <==> owner[i] == None)
    {
      assert forall i :: 0 <= i < buckets.Length ==> buckets[i] == buckets[..][i];
    }

    lemma MakeIndexed()
      requires Tabled() && offsets == LastOffsets(records) && AllStorable(records) && File(records) <= file.data
      ensures Indexed()
    {
    }

    ghost predicate Valid()
      reads this, buckets, file`data
    {
      Indexed() && appendOffset == |File(records)|
    }

    lemma ValidFacts()
      requires Valid()
      ensures Indexed() && appendOffset == |File(records)|
      ensures Tabled() && f > 0.0 && |owner| > 0 && itemCount == Occupied(owner)
    {
    }

    lemma MakeValid()
      requires Indexed() && appendOffset == |File(records)|
      ensures Valid()
    {
    }

    /** A store that was never opened, with the options of `Open`. */
    constructor (h: Hasher, f: real, initialBucketCount: nat, maxVectors: nat, file: Kernel)
      requires 0.0 < f < 0.95 && maxVectors >= 1 && file.data == FILE_HEADER
      ensures fresh(buckets) && Valid() && records == [] && this.file == file && this.h == h && this.f == f
      ensures itemCount == 0 && nextSequence == 1 && appendOffset == FILE_HEADER_SIZE && open && !readOnly
      ensures buckets.Length == RoundUp(initialBucketCount)
    {
      this.h, this.f, this.initialBucketCount, this.maxVectors, this.file := h, f, initialBucketCount, maxVectors, file;
      open, readOnly := true, false;
      itemCount, nextSequence, appendOffset := 0, 1, FILE_HEADER_SIZE;
      var count := RoundUp(initialBucketCount);
      buckets := new IndexBucket[count](_ => EMPTY_BUCKET);
      records, offsets := [], map[];
      var none: seq<Option<Name>> := NoKeys(count);
      owner := none;
      NoNames(h, initialBucketCount);
      new;
      assert buckets[..] == BucketsOf(this.h, owner, LastOffsets(records));
    }

    /** A store whose files have not been opened yet; the value file may hold anything. */
    constructor Unopened(h: Hasher, f: real, initialBucketCount: nat, maxVectors: nat, file: Kernel)
      ensures this.h == h && this.f == f && this.initialBucketCount == initialBucketCount && this.maxVectors == maxVectors
      ensures this.file == file && !open && fresh(buckets) && records == []
    {
      this.h, this.f, this.initialBucketCount, this.maxVectors, this.file := h, f, initialBucketCount, maxVectors, file;
      open, readOnly := false, false;
      itemCount, nextSequence, appendOffset := 0, 1, 0;
      buckets := new IndexBucket[0];
      records, owner, offsets := [], [], map[];
    }

    // ---- Reading records --------------------------------------------------------------

    /** Reads the stored column and key after a record header. */
    method ReadRecordColumnKey(recordOffset: nat, header: RecordHeader) returns (status: Status, stored: Name)
      modifies file`script
      ensures status in {Ok, Corruption, IoError}
      ensures status == Ok ==> ReadName(file.data, recordOffset, header) == Some(stored)
      ensures status == Corruption ==> ReadName(file.data, recordOffset, header) == None
      ensures status == IoError ==> Refused in old(file.script)
      ensures ReadName(file.data, recordOffset, header).Some? ==>
        Served(status == Ok, file.script) == ServeReads(old(file.script), [header.columnSize, header.keySize])
      ensures forall r :: r in file.script ==> r in old(file.script)
    {
      TwoReads(file.script, header.columnSize, header.keySize);
      var column, key;
      stored := Name([], []);
      var offset := recordOffset + RECORD_HEADER_SIZE;
      status, column := ReadAllAt(file, header.columnSize, offset);
      if status != Ok { return; }
      offset := offset + |column|;
      status, key := ReadAllAt(file, header.keySize, offset);
      stored := Name(column, key);
    }

    /** Reads the record a bucket points at and compares its name. */
    method RecordMatches(bucket: IndexBucket, name: Name) returns (status: Status, matches: bool)
      modifies file`script
      ensures Compared(Match(file.data, bucket.recordOffset, name), status, matches, old(file.script), file.script)
    {
      OneRead(file.script, RECORD_HEADER_SIZE);
      matches := false;
      var header;
      status, header := ReadAllAt(file, RECORD_HEADER_SIZE, bucket.recordOffset);
      if status != Ok { return; }
      var recordHeader := ParseHeader(header);
      if !IsValidRecordHeader(recordHeader) { return Corruption, false; }
      if recordHeader.columnSize != |name.column| || recordHeader.keySize != |name.key| {
        return Ok, false;
      }
      ServeAppend(old(file.script), [RECORD_HEADER_SIZE], [recordHeader.columnSize, recordHeader.keySize]);
      var stored;
      status, stored := ReadRecordColumnKey(bucket.recordOffset, recordHeader);
      if status != Ok { return; }
      return Ok, stored == name;
    }

    /** An occupied bucket leads to the last record of the name it stands for. */
    lemma BucketLeadsToRecord(i: nat)
      requires Indexed() && i < buckets.Length && owner[i].Some?
      ensures var n := owner[i].value;
        n in Contents(records) && n in LastOffsets(records)
        && buckets[i] == IndexBucket(IndexHash(h, n), LastOffsets(records)[n])
        && RecordIsAt(file.data, LastOffsets(records)[n], Record(n, Contents(records)[n]))
    {
      var n := owner[i].value;
      assert Probing.Holds(owner, n);
      OffsetsPointAtRecords(records, file.data, n);
      assert buckets[i] == buckets[..][i];
    }

    lemma BucketAt(i: nat)
      requires Tabled() && i < buckets.Length
      ensures |owner| == buckets.Length && buckets[i] == BucketOf(h, owner[i], offsets)
    {
      assert buckets[i] == buckets[..][i];
    }

    /**
     The probe loop: whatever the buckets and the file hold, it ends as the lookup
     on these bytes does, unless the system refuses one of its reads.
     */
    method FindBucket(name: Name) returns (status: Status, index: nat, found: bool)
      requires buckets.Length > 0
      modifies file`script
      ensures Looked(Lookup(h, buckets[..], file.data, name), status, index, found, old(file.script), file.script)
    {
      hide *;
      var bucketCount := buckets.Length;
      var hash := h.ObjectIndexHash(h.HashString(name.column), h.HashString(name.key));
      var start := Start(hash, bucketCount);
      HomeIs(h, name, bucketCount);
      LookupStarts(h, buckets[..], file.data, name);
      NothingServed(file.script);
      index, found := 0, false;
      var probe := 0;
      ghost var sizes := [];
      while probe < bucketCount
        invariant 0 <= probe <= bucketCount == buckets.Length
        invariant ServeReads(old(file.script), sizes) == Served(true, file.script)
        invariant Lookup(h, buckets[..], file.data, name)
               == After(Matched(sizes, None), LookupFrom(hash, buckets[..], file.data, name, probe))
        invariant forall r :: r in file.script ==> r in old(file.script)
      {
        LookupStep(hash, buckets[..], file.data, name, probe);
        StartBelow(start + probe, bucketCount);
        index := Start(start + probe, bucketCount);
        var bucket := buckets[index];
        assert bucket == buckets[..][index];
        if bucket.hash == 0 {
          EndsFree(sizes, index, old(file.script), file.script);
          return Ok, index, false;
        }
        if bucket.hash == hash {
          ghost var before := file.script;
          var matches;
          status, matches := RecordMatches(bucket, name);
          ghost var m := Match(file.data, bucket.recordOffset, name);
          ServeAppend(old(file.script), sizes, m.sizes);
          if status != Ok {
            ghost var later := LookupFrom(hash, buckets[..], file.data, name, probe + 1);
            EndsBadly(sizes, m, later, index, status, matches, old(file.script), before, file.script);
            return status, index, false;
          }
          if matches {
            EndsFound(sizes, m, index, old(file.script), before, file.script);
            return Ok, index, true;
          }
          WalksOn(sizes, m, LookupFrom(hash, buckets[..], file.data, name, probe + 1), old(file.script), before, file.script);
          sizes := sizes + m.sizes;
        }
        probe := probe + 1;
      }
      NoMoreBuckets(hash, buckets[..], file.data, name, probe);
      EndsFull(sizes, old(file.script), file.script);
      return Corruption, index, false;
    }

    /** In an index of the log the lookup ends at the name's bucket or at the empty one it would take. */
    lemma FindsInLog(name: Name)
      requires Indexed()
      ensures buckets.Length > 0 && Find(owner, NameHome(h), name) < buckets.Length == |owner|
      ensures var i := Find(owner, NameHome(h), name);
        Lookup(h, buckets[..], file.data, name).sight == (if name in Contents(records) then Found(i) else Free(i))
        && owner[i] == if name in Contents(records) then Some(name) else None
    {
      hide *;
      IndexedFacts();
      LogLookup(h, owner, records, file.data, name);
      NameFacts(h, owner, records);
      FindIsLookup(owner, NameHome(h), name);
    }

    /**
     The last value written for the name, or that there is none; nothing else can
     happen in an index of the log unless the system refuses a read.  Whatever the
     index holds, a lookup that ends at an empty bucket finds nothing.
     */
    method GetStruct(name: Name) returns (status: Status, value: seq<byte>)
      requires open ==> buckets.Length > 0
      modifies file`script
      ensures status == NotOpen <==> !open
      ensures status in {NotOpen, Ok, NotFound, Corruption, IoError}
      ensures status == IoError ==> Refused in old(file.script)
      ensures open && Indexed() && status != IoError ==> status == if name in Contents(records) then Ok else NotFound
      ensures status == Ok && Indexed() ==> name in Contents(records) && value == Contents(records)[name]
      ensures open && Lookup(h, buckets[..], file.data, name).sight.Free? ==> status in {NotFound, IoError}
    {
      value := [];
      if !open { return NotOpen, value; }
      if Indexed() { FindsInLog(name); }
      var index, found;
      status, index, found := FindBucket(name);
      if status != Ok { return; }
      if !found { return NotFound, value; }
      if Indexed() { BucketLeadsToRecord(index); }
      status, value := ReadRecordValue(buckets[index], Record(name, if name in Contents(records) then Contents(records)[name] else []));
    }

    /** The reads at the end of GetStruct: the header again, then the value. */
    method ReadRecordValue(bucket: IndexBucket, ghost r: Record) returns (status: Status, value: seq<byte>)
      modifies file`script
      ensures status in {Ok, Corruption, IoError}
      ensures RecordIsAt(file.data, bucket.recordOffset, r) && status != IoError ==> status == Ok && value == r.value
      ensures status == IoError ==> Refused in old(file.script)
    {
      value := [];
      if RecordIsAt(file.data, bucket.recordOffset, r) { ReadBack(file.data, bucket.recordOffset, r); }
      var header;
      status, header := ReadAllAt(file, RECORD_HEADER_SIZE, bucket.recordOffset);
      if status != Ok { return; }
      var recordHeader := ParseHeader(header);
      if !IsValidRecordHeader(recordHeader) { return Corruption, value; }
      var valueOffset := bucket.recordOffset + RECORD_HEADER_SIZE + recordHeader.columnSize + recordHeader.keySize;
      status, value := ReadAllAt(file, recordHeader.valueSize, valueOffset);
    }

    // ---- Placing and growing ------------------------------------------------------------

    /** The probe loop of PlaceNewBucket and PlaceExistingBucket: the first empty bucket, which always exists. */
    method PlaceBucket(bucket: IndexBucket, ghost name: Name) returns (status: Status)
      requires |owner| == buckets.Length > 0 && IsPowerOfTwo(|owner|) && HasRoom(owner)
      requires !Probing.Holds(owner, name) && bucket.hash == IndexHash(h, name)
      requires Chained(owner, NameHome(h))
      requires forall i :: 0 <= i < buckets.Length ==> (buckets[i].hash == 0 <==> owner[i] == None)
      modifies buckets, `owner
      ensures status == Ok && owner == Place(old(owner), NameHome(h), name)
      ensures Find(old(owner), NameHome(h), name) < buckets.Length
      ensures buckets[..] == old(buckets[..])[Find(old(owner), NameHome(h), name) := bucket]
    {
      var bucketCount := buckets.Length;
      var start := Start(bucket.hash, bucketCount);
      FindIsLookup(owner, NameHome(h), name);
      var probe := 0;
      while probe < bucketCount
        invariant 0 <= probe <= bucketCount
        invariant owner == old(owner) && buckets[..] == old(buckets[..])
        invariant Passed(owner, name, start, probe)
      {
        MaskedAt(start, probe, bucketCount);
        var index := Start(start + probe, bucketCount);
        if buckets[index].hash == 0 {
          FindIsFirst(owner, NameHome(h), name, probe);
          buckets[index] := bucket;
          owner := owner[index := Some(name)];
          return Ok;
        }
        PassedMore(owner, name, start, probe);
        probe := probe + 1;
      }
      return Corruption;
    }

    lemma ResizedFacts(n: nat)
      requires Tabled() && Occupied(owner) < n
      ensures var r := Rehash(owner, NameHome(h), RoundUp(n));
        TableOf(h, r, offsets) && Occupied(r) == Occupied(owner)
      ensures |KeysIn(owner)| == Occupied(owner) < RoundUp(n) && IsPowerOfTwo(RoundUp(n))
      ensures forall i, j :: 0 <= i < j < |KeysIn(owner)| ==> KeysIn(owner)[i] != KeysIn(owner)[j]
    {
      hide Chained, Distinct, RoundUp;
      ResizedTable(owner, NameHome(h), offsets.Keys, n);
    }

    /** Every bucket is moved into a larger table; each lookup answers as before. */
    method ResizeIndex(newBucketCount: nat) returns (status: Status)
      requires Tabled() && Occupied(owner) < newBucketCount
      modifies this`buckets, this`itemCount, this`nextSequence, this`owner
      ensures status == Ok && Tabled() && fresh(buckets) && nextSequence == old(nextSequence)
      ensures owner == Rehash(old(owner), NameHome(h), RoundUp(newBucketCount))
    {
      hide *;
      ghost var names := KeysIn(owner);
      ghost var table := owner;
      TabledFacts();
      var oldBuckets := FilledBuckets();
      var bucketCount := RoundUp(newBucketCount);
      ResizedFacts(newBucketCount);
      RoundUpTwice(newBucketCount);
      var sequence := nextSequence;
      CreateEmptyIndex(bucketCount);
      nextSequence := sequence;
      NoBuckets(h, bucketCount, offsets);
      status := MoveBuckets(oldBuckets, names);
      RehashIs(table, NameHome(h), bucketCount);
      MakeTabled();
    }

    /** Puts the old buckets, one for each name, into an empty table that has room for them all. */
    method MoveBuckets(oldBuckets: seq<IndexBucket>, ghost names: seq<Name>) returns (status: Status)
      requires |names| < buckets.Length == |owner| && IsPowerOfTwo(|owner|)
      requires owner == NoKeys(|owner|) && itemCount == 0 && buckets[..] == BucketsOf(h, owner, offsets)
      requires forall a, b :: 0 <= a < b < |names| ==> names[a] != names[b]
      requires StandFor(h, oldBuckets, names, offsets)
      modifies buckets, this`itemCount, this`owner
      ensures status == Ok && itemCount == |names|
      ensures |owner| == |old(owner)| && owner == PlaceAll(old(owner), NameHome(h), names)
      ensures buckets[..] == BucketsOf(h, owner, offsets)
    {
      hide *;
      ghost var none := owner;
      NothingPlaced(none, NameHome(h), names);
      StandForCount(h, oldBuckets, names, offsets);
      var j := 0;
      while j < |oldBuckets|
        invariant 0 <= j <= |oldBuckets| && itemCount == j && |owner| == |none|
        invariant owner == PlaceAll(none, NameHome(h), names[..j])
        invariant buckets[..] == BucketsOf(h, owner, offsets)
      {
        MovesOne(|none|, NameHome(h), names, j);
        BucketsMove(h, owner, offsets, names[j]);
        BucketsFilled(h, owner, offsets);
        StandForAt(h, oldBuckets, names, offsets, j);
        assert forall i :: 0 <= i < buckets.Length ==> buckets[i] == buckets[..][i];
        status := PlaceBucket(oldBuckets[j], names[j]);
        if status != Ok { return; }
        itemCount := itemCount + 1;
        j := j + 1;
      }
      assert names[..j] == names;
      status := Ok;
    }

    /** The occupied buckets in order. */
    method FilledBuckets() returns (filled: seq<IndexBucket>)
      requires Tabled()
      ensures StandFor(h, filled, KeysIn(owner), offsets)
    {
      hide *;
      TabledFacts();
      filled := [];
      KeysInStep(owner, 0);
      NoneStand(h, offsets);
      for i := 0 to buckets.Length
        invariant StandFor(h, filled, KeysIn(owner[..i]), offsets)
      {
        KeysInStep(owner, i);
        BucketAt(i);
        if buckets[i].hash != 0 {
          StandForMore(h, filled, KeysIn(owner[..i]), offsets, owner[i].value);
          filled := filled + [buckets[i]];
        }
      }
    }

    method CreateEmptyIndex(bucketCount: nat)
      modifies this`buckets, this`itemCount, this`nextSequence, this`owner
      ensures fresh(buckets) && buckets.Length == RoundUp(bucketCount) && itemCount == 0 && nextSequence == 1
      ensures owner == NoKeys(RoundUp(bucketCount))
      ensures buckets[..] == BucketsOf(h, owner, map[])
    {
      var count := RoundUp(bucketCount);
      buckets := new IndexBucket[count](_ => EMPTY_BUCKET);
      itemCount, nextSequence := 0, 1;
      owner := NoKeys(count);
    }

    method EnsureCapacityForInsert(insertCount: nat) returns (status: Status)
      requires Tabled()
      modifies this`buckets, this`itemCount, this`nextSequence, this`owner
      ensures status == Ok && Tabled() && (buckets == old(buckets) || fresh(buckets)) && nextSequence == old(nextSequence)
      ensures owner == Ensured(h, f, old(owner), old(itemCount) + insertCount)
      ensures itemCount == old(itemCount) && itemCount + insertCount < |owner| && itemCount == Occupied(owner)
      ensures old(Indexed()) ==> Indexed()
      ensures old(Valid()) ==> Valid()
    {
      hide *;
      TabledFacts();
      ghost var indexed, sound := Indexed(), Valid();
      if sound { ValidFacts(); }
      if indexed { IndexedFacts(); }
      var bucketCount := buckets.Length;
      GrowthIsInvisible(h, f, owner, offsets, insertCount);
      EnsuredIs(h, f, owner, itemCount + insertCount);
      bucketCount := GrownCount(itemCount + insertCount, bucketCount);
      if bucketCount == buckets.Length { return Ok; }
      FitsHasRoom(f, itemCount + insertCount, bucketCount);
      status := ResizeIndex(bucketCount);
      TabledFacts();
      if indexed { MakeIndexed(); }
      if sound { MakeValid(); }
    }

    /** The capacity loop: doubles the count until the items are not over the load factor. */
    method GrownCount(items: nat, current: nat) returns (bucketCount: nat)
      requires f > 0.0 && current > 0
      ensures bucketCount == Grown(f, items, current)
    {
      bucketCount := current;
      while Over(f, items, bucketCount)
        invariant bucketCount > 0 && Grown(f, items, bucketCount) == Grown(f, items, current)
        decreases Short(f, items, bucketCount)
      {
        GrowsOn(f, items, bucketCount);
        bucketCount := bucketCount * 2;
      }
      GrowsNoMore(f, items, bucketCount);
    }

    // ---- Writing -------------------------------------------------------------------------

    /** The state after the bucket of a name has been pointed at a new record. */
    lemma PlacedFacts(n: Name, offset: nat)
      requires Tabled() && Occupied(owner) + 1 < |owner|
      ensures |owner| > 0 && IsPowerOfTwo(|owner|) && HasRoom(owner) && Chained(owner, NameHome(h))
      ensures Probing.Holds(owner, n) <==> n in offsets
      ensures var i := Find(owner, NameHome(h), n);
        && i < |owner| && Place(owner, NameHome(h), n) == owner[i := Some(n)]
        && BucketsOf(h, owner[i := Some(n)], offsets[n := offset])
           == BucketsOf(h, owner, offsets)[i := IndexBucket(IndexHash(h, n), offset)]
        && TableOf(h, owner[i := Some(n)], offsets[n := offset])
        && Occupied(owner[i := Some(n)]) == Occupied(owner) + (if n in offsets then 0 else 1)
    {
      hide *;
      TabledFacts();
      OffsetFacts(h, owner, offsets);
      BucketsPlace(h, owner, offsets, n, offset);
      NamePlace(h, owner, offsets, n, offset);
      PlaceIs(owner, NameHome(h), n);
    }

    /** Points the index at one record of a batch; a refused read leaves it as it was. */
    method IndexRecord(record: PendingRecord, keysAreUnique: bool, ghost r: Record) returns (status: Status)
      requires Tabled() && Occupied(owner) + 1 < |owner|
      requires record.name == r.name && record.hash == IndexHash(h, r.name)
      requires if keysAreUnique then r.name !in offsets else Indexed()
      modifies buckets, this`itemCount, this`owner, this`records, this`offsets, file`script
      ensures status in {Ok, IoError} && Tabled() && buckets == old(buckets)
      ensures status == Ok ==> records == old(records) + [r] && owner == Place(old(owner), NameHome(h), r.name)
      ensures status == Ok ==> offsets == old(offsets)[r.name := record.recordOffset]
      ensures Occupied(owner) <= old(Occupied(owner)) + 1
      ensures status != Ok ==> records == old(records) && owner == old(owner) && offsets == old(offsets)
      ensures keysAreUnique ==> status == Ok && file.script == old(file.script)
      ensures |old(buckets[..])| > 0
      ensures !keysAreUnique ==>
        Served(status == Ok, file.script) == ServeReads(old(file.script), Lookup(h, old(buckets[..]), file.data, r.name).sizes)
      ensures status == IoError ==> Refused in old(file.script)
      ensures forall x :: x in file.script ==> x in old(file.script)
    {
      hide *;
      var bucket := IndexBucket(record.hash, record.recordOffset);
      TabledFacts();
      PlacedFacts(r.name, record.recordOffset);
      ghost var index0 := Find(owner, NameHome(h), r.name);
      if keysAreUnique {
        status := PlaceBucket(bucket, r.name);
        if status != Ok { return; }
        itemCount := itemCount + 1;
      } else {
        FindsInLog(record.name);
        NameIsStored(r.name);
        ghost var w := Lookup(h, buckets[..], file.data, record.name);
        var index, found;
        status, index, found := FindBucket(record.name);
        LookedFacts(w, status, index, found, old(file.script), file.script);
        if status != Ok { return; }
        buckets[index] := bucket;
        owner := owner[index := Some(r.name)];
        if !found { itemCount := itemCount + 1; }
      }
      records := records + [r];
      offsets := offsets[r.name := record.recordOffset];
      MakeTabled();
    }

    lemma NameIsStored(n: Name)
      requires Indexed()
      ensures n in offsets <==> n in Contents(records)
    {
      SameKeys(records);
    }

    /** The slices to write for a batch, and what indexing each record will need. */
    method LayOutBatch(column: seq<byte>, entries: seq<StructEntry>)
      returns (pending: seq<PendingRecord>, slices: seq<seq<byte>>, nextAppendOffset: nat)
      ensures Concat(slices) == EncodeAll(BatchRecords(column, entries)) && |slices| == 4 * |entries|
      ensures AllPending(h, pending, appendOffset, BatchRecords(column, entries))
      ensures nextAppendOffset == appendOffset + |EncodeAll(BatchRecords(column, entries))|
    {
      hide *;
      var columnHash := h.HashString(column);
      ghost var batch := BatchRecords(column, entries);
      nextAppendOffset := appendOffset;
      pending, slices := [], [];
      NothingPending(batch);
      for i := 0 to |entries|
        invariant EncodeAll(batch[..i]) == Concat(slices) && |slices| == 4 * i
        invariant nextAppendOffset == appendOffset + |EncodeAll(batch[..i])|
        invariant AllPending(h, pending, appendOffset, batch[..i])
      {
        var entry := entries[i];
        var hash := h.ObjectIndexHash(columnHash, h.HashString(entry.key));
        var header := RecordHeader(RECORD_MAGIC, STORAGE_VERSION, RECORD_HEADER_SIZE, |column|, |entry.key|, |entry.value|);
        BatchAt(column, entries, i);
        HashOf(h, column, entry.key);
        PendingMore(h, pending, appendOffset, batch, i, PendingRecord(Name(column, entry.key), hash, nextAppendOffset));
        assert batch[..i + 1] == batch[..i] + [batch[i]];
        SlicesEncode(slices, batch[..i], batch[i]);
        pending := pending + [PendingRecord(Name(column, entry.key), hash, nextAppendOffset)];
        slices := slices + [EncodeHeader(header), column, entry.key, entry.value];
        nextAppendOffset := nextAppendOffset + (RECORD_HEADER_SIZE + |column| + |entry.key| + |entry.value|);
      }
      assert batch[..|entries|] == batch;
    }

    lemma NothingPending(batch: seq<Record>)
      ensures batch[..0] == [] && EncodeAll([]) == Concat([]) == [] && AllPending(h, [], appendOffset, [])
    {
    }

    /** Indexes a batch entry by entry; a refused read stops it after a prefix. */
    method IndexBatch(pending: seq<PendingRecord>, keysAreUnique: bool, ghost base: nat, ghost batch: seq<Record>)
      returns (status: Status, ghost placed: nat)
      requires Tabled() && AllPending(h, pending, base, batch) && Occupied(owner) + |batch| < |owner|
      requires if keysAreUnique then NewNames(offsets.Keys, batch)
               else Indexed() && base == |File(records)| && InLog(h, owner, records, batch, file.data)
      modifies buckets, this`itemCount, this`owner, this`records, this`offsets, file`script
      ensures status in {Ok, IoError} && placed <= |batch| && (status == Ok <==> placed == |batch|)
      ensures Tabled() && buckets == old(buckets) && |old(owner)| > 0
      ensures records == old(records) + batch[..placed] && offsets == OffsetsAfter(old(offsets), base, batch[..placed])
      ensures owner == PlaceAll(old(owner), NameHome(h), Names(batch[..placed]))
      ensures keysAreUnique ==> status == Ok
      ensures !keysAreUnique ==> placed == Placed(h, old(owner), old(records), batch, file.data, old(file.script), 0)
      ensures status == IoError ==> Refused in old(file.script)
    {
      hide *;
      ghost var rs := records;
      ghost var table := owner;
      ghost var first := offsets;
      TabledFacts();
      if !keysAreUnique { IndexedFacts(); }
      PendingCount(h, pending, base, batch);
      PlaceNone(table, NameHome(h), batch);
      NothingYet(rs, offsets, base, batch);
      assert rs + batch[..0] == rs;
      var i := 0;
      placed := 0;
      while i < |pending|
        invariant 0 <= i == placed <= |pending| && Tabled() && buckets == old(buckets)
        invariant records == rs + batch[..i] && offsets == OffsetsAfter(first, base, batch[..i])
        invariant |owner| == |table| && owner == PlaceAll(table, NameHome(h), Names(batch[..i]))
        invariant Occupied(owner) + (|batch| - i) < |owner|
        invariant !keysAreUnique ==> Indexed()
        invariant !keysAreUnique ==> Placed(h, table, rs, batch, file.data, old(file.script), 0)
                                     == Placed(h, table, rs, batch, file.data, file.script, i)
        invariant forall x :: x in file.script ==> x in old(file.script)
      {
        PendingAt(h, pending, base, batch, i);
        assert batch[..i + 1] == batch[..i] + [batch[i]];
        assert rs + batch[..i + 1] == (rs + batch[..i]) + [batch[i]];
        PlaceAllStep(table, NameHome(h), batch, i);
        OffsetsAfterMore(first, base, batch, i);
        if keysAreUnique {
          StillNew(first, base, batch, i);
        } else {
          IndexedFacts();
          PlacedStep(h, table, rs, batch, file.data, file.script, i);
        }
        status := IndexRecord(pending[i], keysAreUnique, batch[i]);
        if status != Ok { return; }
        if !keysAreUnique {
          OffsetsAfterLog(rs, batch[..i + 1]);
          LogOfBatch(h, table, rs, batch, file.data, i + 1);
          MakeIndexed();
        }
        i := i + 1;
        placed := i;
      }
      PlacedAll(h, table, rs, batch, file.data, file.script);
      status := Ok;
    }

    /** The index holds a prefix of a batch that is in the file as a whole. */
    lemma IndexedAfter(rs: seq<Record>, batch: seq<Record>, placed: nat)
      requires Tabled() && placed <= |batch| && AllStorable(rs) && AllStorable(batch)
      requires records == rs + batch[..placed] && offsets == OffsetsAfter(LastOffsets(rs), |File(rs)|, batch[..placed])
      requires if placed == 0 then File(rs) <= file.data else File(rs + batch) <= file.data
      ensures Indexed() && |File(records)| == |File(rs)| + |EncodeAll(batch[..placed])|
      ensures |File(records)| == |File(rs)| <==> placed == 0
    {
      hide TableOf, BucketsOf, File, EncodeAll, LastOffsets, OffsetsAfter, Storable;
      OffsetsAfterLog(rs, batch[..placed]);
      FileOf(rs, batch[..placed]);
      BatchSize(batch[..placed]);
      if placed == 0 { assert rs + batch[..0] == rs; }
      assert records == (rs + batch)[..|rs| + placed];
      FilePrefix(rs + batch, |rs| + placed);
    }

    /**
     The append and the loop over the batch.  A refused append changes neither the
     log nor any lookup; a refused read leaves the entries before it in the index.
     */
    method AppendBatch(pending: seq<PendingRecord>, slices: seq<seq<byte>>, keysAreUnique: bool, ghost batch: seq<Record>)
      returns (status: Status, ghost placed: nat)
      requires Tabled() && AllPending(h, pending, appendOffset, batch) && Concat(slices) == EncodeAll(batch)
      requires Occupied(owner) + |batch| < |owner| && AllStorable(batch)
      requires if keysAreUnique then NewNames(offsets.Keys, batch) else Valid()
      modifies buckets, this`itemCount, this`owner, this`records, this`offsets, file
      ensures status in {Ok, IoError} && Tabled() && buckets == old(buckets) && |old(owner)| > 0
      ensures placed <= |batch| && (status == Ok ==> placed == |batch|) && (status != Ok && placed > 0 ==> placed < |batch|)
      ensures records == old(records) + batch[..placed] && offsets == OffsetsAfter(old(offsets), appendOffset, batch[..placed])
      ensures status == Ok ==> owner == PlaceAll(old(owner), NameHome(h), Names(batch))
      ensures status == Ok ==> file.data == PWrite(old(file.data), EncodeAll(batch), appendOffset)
      ensures old(Valid()) ==> Indexed() && |File(records)| == appendOffset + |EncodeAll(batch[..placed])|
      ensures old(Valid()) ==> (|File(records)| == appendOffset <==> placed == 0)
      ensures status != Ok && keysAreUnique ==> placed == 0
      ensures status != Ok && NoSharedHash(h, old(records), batch) ==> placed == 0
      ensures |slices| <= maxVectors && EncodeAll(batch) != [] && TakesAll(old(file.script), |EncodeAll(batch)|) ==>
        file.data == PWrite(old(file.data), EncodeAll(batch), appendOffset)
        && (!keysAreUnique ==> placed == Placed(h, old(owner), old(records), batch, file.data, old(file.script)[1..], 0))
      ensures status == IoError ==> Refused in old(file.script) || Moved(0) in old(file.script)
    {
      hide *;
      ghost var rs, data, sound := records, file.data, Valid();
      TabledFacts();
      if sound { ValidFacts(); IndexedFacts(); }
      status := WriteVAllAt(file, slices, appendOffset, maxVectors);
      placed := 0;
      NothingYet(rs, offsets, appendOffset, batch);
      if status != Ok {
        if sound {
          KeptPrefix(data, file.data, EncodeAll(batch), rs);
          IndexedAfter(rs, batch, 0);
        }
        return;
      }
      if sound { LogWritten(data, rs, batch, h, owner); MakeIndexed(); }
      ghost var script := file.script;
      status, placed := IndexBatch(pending, keysAreUnique, appendOffset, batch);
      assert batch[..|batch|] == batch;
      if sound { IndexedAfter(rs, batch, placed); }
      if !keysAreUnique { RefusalIsHarmless(h, old(owner), rs, batch, file.data); }
    }

    /** What a write that stops short leaves: the entries indexed so far, before an append offset that has not moved. */
    ghost predicate Stopped(rs: seq<Record>, offset: nat, batch: seq<Record>, placed: nat)
      reads this, buckets, file`data
    {
      placed <= |batch| && Indexed() && records == rs + batch[..placed] && appendOffset == offset == |File(rs)|
    }

    lemma MakeStopped(rs: seq<Record>, batch: seq<Record>, placed: nat)
      requires placed <= |batch| && Indexed() && records == rs + batch[..placed] && appendOffset == |File(rs)|
      ensures Stopped(rs, appendOffset, batch, placed)
    {
    }

    lemma NotValid()
      requires |File(records)| != appendOffset
      ensures !Valid()
    {
    }

    /**
     Appends the batch to the log and indexes it.  A refusal by a check or by the
     append changes neither the log nor any lookup.  A read that is refused while
     the batch is indexed leaves the entries before it in the index and the append
     offset where it was: the store is sound if and only if no entry was placed,
     which a unique batch, a batch of one entry and a batch without a shared hash
     guarantee.  A unique batch may also be written to a store left in that state.
     */
    method WriteStructs(column: seq<byte>, entries: seq<StructEntry>, keysAreUnique: bool) returns (status: Status, ghost placed: nat)
      requires Tabled() && (keysAreUnique || Valid()) && forall i :: 0 <= i < |entries| ==> |entries[i].value| < TWO64
      requires keysAreUnique ==> NewNames(offsets.Keys, BatchRecords(column, entries))
      modifies this`buckets, this`itemCount, this`nextSequence, this`owner, this`records, this`offsets, this`appendOffset, buckets, file
      ensures Tabled() && (buckets == old(buckets) || fresh(buckets)) && nextSequence == old(nextSequence)
      ensures status == NotOpen <==> !open
      ensures status == InvalidArgument <==> open && (readOnly || |column| >= TWO32 || exists i :: 0 <= i < |entries| && |entries[i].key| >= TWO32)
      ensures status in {Ok, NotOpen, InvalidArgument, IoError}
      ensures status == IoError ==> Refused in old(file.script) || Moved(0) in old(file.script)
      ensures placed <= |entries| && (status == Ok ==> placed == |entries|) && (status in {NotOpen, InvalidArgument} ==> placed == 0)
      ensures var batch := BatchRecords(column, entries)[..placed];
        records == old(records) + batch && offsets == OffsetsAfter(old(offsets), old(appendOffset), batch)
      ensures old(Valid()) ==> (Valid() <==> status == Ok || placed == 0)
      ensures old(Valid()) && status != Ok ==> Stopped(old(records), old(appendOffset), BatchRecords(column, entries), placed)
      ensures status != Ok ==> appendOffset == old(appendOffset)
      ensures status != Ok && (keysAreUnique || |entries| <= 1) ==> placed == 0
      ensures status != Ok && NoSharedHash(h, old(records), BatchRecords(column, entries)) ==> placed == 0
      ensures status == Ok && entries == [] ==> owner == old(owner) && file.data == old(file.data)
      ensures f > 0.0 && |old(owner)| > 0
      ensures status == Ok && entries != [] ==> owner == AfterBatch(h, f, old(owner), old(itemCount), column, entries)
      ensures status == Ok ==> appendOffset == old(appendOffset) + |EncodeAll(BatchRecords(column, entries))|
      ensures status == Ok && entries != [] ==>
        file.data == PWrite(old(file.data), EncodeAll(BatchRecords(column, entries)), old(appendOffset))
      ensures old(Appends(column, entries)) && !keysAreUnique ==>
        file.data == PWrite(old(file.data), EncodeAll(BatchRecords(column, entries)), old(appendOffset))
        && placed == PlacedAfter(h, f, old(owner), old(itemCount), old(records), BatchRecords(column, entries), file.data, old(file.script))
    {
      hide *;
      placed := 0;
      TabledFacts();
      ghost var batch := BatchRecords(column, entries);
      ghost var sound := Valid();
      if sound { ValidFacts(); IndexedFacts(); MakeStopped(records, batch, 0); }
      NothingYet(records, offsets, appendOffset, batch);
      AppendsFacts(column, entries);
      if !open { return NotOpen, 0; }
      if readOnly { return InvalidArgument, 0; }
      if |column| >= TWO32 { return InvalidArgument, 0; }
      if entries == [] {
        EmptyBatch(column, entries);
        return Ok, 0;
      }
      for i := 0 to |entries|
        invariant forall j :: 0 <= j < i ==> |entries[j].key| < TWO32
      {
        if |entries[i].key| >= TWO32 { return InvalidArgument, 0; }
      }
      status, placed := WriteChecked(column, entries, keysAreUnique);
    }

    /** The rest of a batch that passed the checks: capacity, append, index, append offset. */
    method WriteChecked(column: seq<byte>, entries: seq<StructEntry>, keysAreUnique: bool) returns (status: Status, ghost placed: nat)
      requires Tabled() && (keysAreUnique || Valid()) && f > 0.0 && |owner| > 0 && entries != []
      requires |column| < TWO32 && forall i :: 0 <= i < |entries| ==> |entries[i].key| < TWO32 && |entries[i].value| < TWO64
      requires keysAreUnique ==> NewNames(offsets.Keys, BatchRecords(column, entries))
      modifies this`buckets, this`itemCount, this`nextSequence, this`owner, this`records, this`offsets, this`appendOffset, buckets, file
      ensures Tabled() && (buckets == old(buckets) || fresh(buckets)) && nextSequence == old(nextSequence)
      ensures status in {Ok, IoError} && placed <= |entries| && (status == Ok ==> placed == |entries|)
      ensures status == IoError ==> Refused in old(file.script) || Moved(0) in old(file.script)
      ensures var batch := BatchRecords(column, entries)[..placed];
        records == old(records) + batch && offsets == OffsetsAfter(old(offsets), old(appendOffset), batch)
      ensures old(Valid()) ==> (Valid() <==> status == Ok || placed == 0)
      ensures old(Valid()) && status != Ok ==> Stopped(old(records), old(appendOffset), BatchRecords(column, entries), placed)
      ensures status != Ok ==> appendOffset == old(appendOffset)
      ensures status != Ok && (keysAreUnique || |entries| <= 1) ==> placed == 0
      ensures status != Ok && NoSharedHash(h, old(records), BatchRecords(column, entries)) ==> placed == 0
      ensures status == Ok ==> owner == AfterBatch(h, f, old(owner), old(itemCount), column, entries)
      ensures status == Ok ==> appendOffset == old(appendOffset) + |EncodeAll(BatchRecords(column, entries))|
      ensures status == Ok ==> file.data == PWrite(old(file.data), EncodeAll(BatchRecords(column, entries)), old(appendOffset))
      ensures old(Appends(column, entries)) && !keysAreUnique ==>
        file.data == PWrite(old(file.data), EncodeAll(BatchRecords(column, entries)), old(appendOffset))
        && placed == PlacedAfter(h, f, old(owner), old(itemCount), old(records), BatchRecords(column, entries), file.data, old(file.script))
    {
      hide *;
      ghost var batch := BatchRecords(column, entries);
      ghost var sound := Valid();
      if sound { ValidFacts(); IndexedFacts(); }
      AppendsFacts(column, entries);
      status := EnsureCapacityForInsert(|entries|);
      placed := 0;
      AfterBatchIs(h, f, old(owner), old(itemCount), column, entries);
      BatchIsStorable(column, entries);
      PlacedAfterIs(h, f, old(owner), old(itemCount), records, batch, file.script);
      var pending, slices, nextAppendOffset := LayOutBatch(column, entries);
      status, placed := AppendBatch(pending, slices, keysAreUnique, batch);
      assert batch[..|batch|] == batch;
      if status != Ok {
        if sound { MakeStopped(old(records), batch, placed); }
        if sound && placed == 0 { MakeValid(); }
        if sound && placed > 0 { NotValid(); }
        return;
      }
      appendOffset := nextAppendOffset;
      if sound { MakeValid(); }
    }

    /** A batch that passes the checks and that the system takes whole. */
    ghost predicate Appends(column: seq<byte>, entries: seq<StructEntry>)
      reads this, file`script
    {
      open && !readOnly && |column| < TWO32 && (forall i :: 0 <= i < |entries| ==> |entries[i].key| < TWO32)
      && entries != [] && 4 * |entries| <= maxVectors && TakesAll(file.script, |EncodeAll(BatchRecords(column, entries))|)
    }

    lemma AppendsFacts(column: seq<byte>, entries: seq<StructEntry>)
      ensures Appends(column, entries) ==>
        open && !readOnly && |column| < TWO32 && (forall i :: 0 <= i < |entries| ==> |entries[i].key| < TWO32)
        && entries != [] && 4 * |entries| <= maxVectors && TakesAll(file.script, |EncodeAll(BatchRecords(column, entries))|)
        && EncodeAll(BatchRecords(column, entries)) != [] && file.script != []
    {
      BatchSize(BatchRecords(column, entries));
    }

    /** The item count is the number of distinct names ever written. */
    lemma ItemCountIsKeys()
      requires Valid()
      ensures itemCount == |Contents(records)|
    {
      OccupiedIsKeys(h, owner, records);
    }

    // ---- Opening --------------------------------------------------------------------------

    /** Scans the value file from its first record and indexes each record again. */
    method RebuildIndexFromValues(ghost log: seq<Record>) returns (status: Status)
      requires Indexed() && records == [] && file.data == File(log) && AllStorable(log)
      modifies this`buckets, this`itemCount, this`nextSequence, this`owner, this`records, this`offsets, this`appendOffset, buckets, file`script
      ensures status in {Ok, IoError} && (status == IoError ==> Refused in old(file.script))
      ensures status == Ok ==> Valid() && records == log
      ensures f > 0.0 && |old(owner)| > 0 && (status == Ok ==> owner == RebuiltTable(h, f, old(owner), log))
      ensures nextSequence == old(nextSequence) && (buckets == old(buckets) || fresh(buckets))
    {
      hide *;
      IndexedFacts();
      RebuiltStarts(h, f, owner, log);
      var fileSize := |file.data|;
      var offset := FILE_HEADER_SIZE;
      ghost var i := 0;
      LogStarts(log);
      while offset < fileSize
        invariant 0 <= i <= |log| && records == log[..i] && offset == |File(log[..i])|
        invariant Indexed() && (buckets == old(buckets) || fresh(buckets)) && nextSequence == old(nextSequence)
        invariant owner == RebuiltTable(h, f, old(owner), log[..i])
        invariant forall r :: r in file.script ==> r in old(file.script)
        decreases |log| - i
      {
        LogGoesOn(log, i);
        ReadBack(file.data, offset, log[i]);
        HeaderFields(log[i]);
        var header;
        status, header := ReadAllAt(file, RECORD_HEADER_SIZE, offset);
        if status != Ok { return; }
        var recordHeader := ParseHeader(header);
        if !IsValidRecordHeader(recordHeader) { return Corruption; }
        var recordSize := RECORD_HEADER_SIZE + recordHeader.columnSize + recordHeader.keySize + recordHeader.valueSize;
        if recordSize > fileSize - offset { return Corruption; }
        ReadNameIs(file.data, offset, log[i]);
        var name;
        status, name := ReadRecordColumnKey(offset, recordHeader);
        if status != Ok { return; }
        IndexedFacts();
        RebuiltStep(h, f, old(owner), log, i);
        status := EnsureCapacityForInsert(1);
        if status != Ok { return; }
        IndexedFacts();
        AppendMeaning(records, log[i]);
        var record := PendingRecord(name, h.ObjectIndexHash(h.HashString(name.column), h.HashString(name.key)), offset);
        HomeIs(h, name, 1);
        StorableMore(log[..i], log, i);
        status := IndexRecord(record, false, log[i]);
        if status != Ok { return; }
        MakeIndexed();
        offset := offset + recordSize;
        i := i + 1;
      }
      LogEnds(log, i);
      appendOffset := fileSize;
      MakeValid();
      status := Ok;
    }

    /** The checks on an index file; the bucket array is the part of the file after the header. */
    method HasValidIndexLayout(magic: seq<byte>, version: nat, headerSize: nat, fileSize: nat) returns (valid: bool)
      ensures valid <==> LayoutIsValid(magic, version, headerSize, fileSize, buckets[..], itemCount)
    {
      if fileSize < INDEX_HEADER_SIZE { return false; }
      if magic != INDEX_MAGIC || version != STORAGE_VERSION || headerSize != INDEX_HEADER_SIZE { return false; }
      PowerTestIsExact(buckets.Length);
      if buckets.Length == 0 || And(buckets.Length, buckets.Length - 1) != 0 { return false; }
      var expectedSize := INDEX_HEADER_SIZE + buckets.Length * INDEX_BUCKET_SIZE;
      if expectedSize != fileSize || itemCount > buckets.Length { return false; }
      var filledCount := 0;
      for i := 0 to buckets.Length
        invariant filledCount == FilledCount(buckets[..i])
      {
        assert buckets[..i + 1][..i] == buckets[..i];
        if buckets[i].hash != 0 { filledCount := filledCount + 1; }
      }
      assert buckets[..buckets.Length] == buckets[..];
      return filledCount == itemCount;
    }

    /** What a store leaves behind is accepted when it is opened again. */
    lemma ClosedLayoutIsValid()
      requires Indexed()
      ensures LayoutIsValid(INDEX_MAGIC, STORAGE_VERSION, INDEX_HEADER_SIZE, INDEX_HEADER_SIZE + buckets.Length * INDEX_BUCKET_SIZE,
                            buckets[..], itemCount)
    {
      FilledIsOccupied(h, owner, LastOffsets(records));
    }

    /**
     Opens the files of a log: an index file that passes the checks is kept as it
     is, any other is created anew and rebuilt.  Either way the store stands for
     the log, and opening what was closed changes nothing in it.
     */
    method OpenFiles(magic: seq<byte>, version: nat, headerSize: nat, fileSize: nat, ghost log: seq<Record>) returns (status: Status)
      requires 0.0 < f < 0.95 && maxVectors >= 1 && file.data == File(log) && AllStorable(log)
      requires fileSize != 0 && LayoutIsValid(magic, version, headerSize, fileSize, buckets[..], itemCount) ==> Indexed() && records == log
      modifies this, buckets, file`script
      ensures status in {Ok, IoError} && (status == IoError ==> Refused in old(file.script))
      ensures status == Ok ==> Valid() && records == log
      ensures buckets == old(buckets) || fresh(buckets)
      ensures status == Ok && !(fileSize != 0 && old(LayoutIsValid(magic, version, headerSize, fileSize, buckets[..], itemCount))) ==>
        owner == RebuiltTable(h, f, NoKeys(RoundUp(initialBucketCount)), log) && nextSequence == 1
      ensures fileSize != 0 && old(LayoutIsValid(magic, version, headerSize, fileSize, buckets[..], itemCount)) ==>
        status == Ok && unchanged(this`buckets, this`itemCount, this`nextSequence, this`records, this`owner, this`offsets)
        && unchanged(buckets) && appendOffset == |file.data|
    {
      hide *;
      RoundedIsPower(initialBucketCount);
      appendOffset := |file.data|;
      if fileSize != 0 {
        var valid := HasValidIndexLayout(magic, version, headerSize, fileSize);
        if valid {
          MakeValid();
          return Ok;
        }
      }
      CreateEmptyIndex(initialBucketCount);
      records, offsets := [], map[];
      NoNames(h, initialBucketCount);
      EmptyLog();
      MakeTabled();
      MakeIndexed();
      status := RebuildIndexFromValues(log);
    }
  }

  /**
   The unique fast path against the general path: two stores in the same state
   that write the same batch of fresh, distinct keys, one each way, end with the
   same log, bucket array, item count and append offset.
   */
  method UniqueEqualsGeneral(a: Store, b: Store, column: seq<byte>, entries: seq<StructEntry>) returns (unique: Status, general: Status)
    requires a != b && a.file != b.file && a.buckets != b.buckets && a.Valid() && b.Valid()
    requires a.h == b.h && a.f == b.f && a.records == b.records && a.owner == b.owner && a.file.data == b.file.data
    requires forall i :: 0 <= i < |entries| ==> |entries[i].value| < TWO64
    requires NewNames(a.offsets.Keys, BatchRecords(column, entries))
    modifies a, a.file, a.buckets, b, b.file, b.buckets
    ensures unique == Ok && general == Ok ==> a.buckets[..] == b.buckets[..] && a.itemCount == b.itemCount
    ensures unique == Ok && general == Ok ==> a.appendOffset == b.appendOffset && a.file.data == b.file.data
  {
    hide *;
    SameState(a, b);
    a.ValidFacts();
    b.ValidFacts();
    ghost var p, q;
    unique, p := a.WriteStructs(column, entries, true);
    general, q := b.WriteStructs(column, entries, false);
    if unique == Ok && general == Ok { SameState(a, b); }
  }

  /**
   Two indexes of the same log, such as a live one and one rebuilt from the file,
   hold the same buckets, possibly elsewhere, and count the same items.
   */
  lemma SameLogSameIndex(a: Store, b: Store, i: nat)
    requires a.Valid() && b.Valid() && a.h == b.h && a.records == b.records
    requires i < a.buckets.Length && a.buckets[i] != EMPTY_BUCKET
    ensures a.itemCount == b.itemCount
    ensures exists j :: 0 <= j < b.buckets.Length && b.buckets[j] == a.buckets[i]
  {
    hide Chained, Distinct, LastOffsets, Contents, File;
    a.ItemCountIsKeys();
    b.ItemCountIsKeys();
    a.BucketAt(i);
    NameFacts(a.h, a.owner, a.records);
    NameFacts(b.h, b.owner, b.records);
    var n := a.owner[i].value;
    assert Probing.Holds(a.owner, n);
    assert Probing.Holds(b.owner, n);
    var j :| 0 <= j < |b.owner| && b.owner[j] == Some(n);
    b.BucketAt(j);
  }

  lemma SameState(a: Store, b: Store)
    requires a.Valid() && b.Valid() && a.h == b.h && a.records == b.records && a.owner == b.owner
    ensures a.buckets[..] == b.buckets[..] && a.itemCount == b.itemCount && a.appendOffset == b.appendOffset
  {
  }
}
