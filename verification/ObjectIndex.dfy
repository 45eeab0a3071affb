/**
 What the object index of a log is: a table of names, the bucket array that
 stands for it, and how batches, growth and scanning change them.  Nothing here
 depends on the hash.
 */
module ObjectIndex {
  import opened Wrappers
  import opened Bytes
  import opened Words
  import opened Hash
  import opened Load
  import opened Probing
  import opened FileIO
  import opened RecordLog

  /** A bucket of the object index; hash 0 marks it empty. */
  datatype IndexBucket = IndexBucket(hash: nat, recordOffset: nat)

  const EMPTY_BUCKET: IndexBucket := IndexBucket(0, 0)

  /** `LUMI0002`. */
  const INDEX_MAGIC: seq<byte> := [76, 85, 77, 73, 48, 48, 48, 50]
  const INDEX_HEADER_SIZE: nat := 64
  const INDEX_BUCKET_SIZE: nat := 16

  datatype StructEntry = StructEntry(key: seq<byte>, value: seq<byte>)

  // ---- What the index of a log is ----------------------------------------------------

  function IndexHash(h: Hasher, n: Name): (r: nat)
    ensures 0 < r < TWO64
  {
    h.ObjectIndexHash(h.HashString(n.column), h.HashString(n.key))
  }

  function NameHome(h: Hasher): Name -> nat { (n: Name) => IndexHash(h, n) }

  function BucketOf(h: Hasher, slot: Option<Name>, offsets: map<Name, nat>): IndexBucket {
    match slot
    case None => EMPTY_BUCKET
    case Some(n) => IndexBucket(IndexHash(h, n), if n in offsets then offsets[n] else 0)
  }

  /** The bucket array of a table of names, given where each name's last record starts. */
  function BucketsOf(h: Hasher, owner: seq<Option<Name>>, offsets: map<Name, nat>): (b: seq<IndexBucket>)
    ensures |b| == |owner|
  {
    seq(|owner|, i requires 0 <= i < |owner| => BucketOf(h, owner[i], offsets))
  }

  /** The names the table holds are those with a record, and there is room for another. */
  ghost predicate TableOf(h: Hasher, owner: seq<Option<Name>>, offsets: map<Name, nat>) {
    IsTable(owner, NameHome(h), offsets.Keys)
  }

  /** These buckets stand for these names, in this order. */
  ghost predicate StandFor(h: Hasher, buckets: seq<IndexBucket>, names: seq<Name>, offsets: map<Name, nat>) {
    |buckets| == |names| && forall j :: 0 <= j < |names| ==> buckets[j] == BucketOf(h, Some(names[j]), offsets)
  }

  lemma StandForMore(h: Hasher, buckets: seq<IndexBucket>, names: seq<Name>, offsets: map<Name, nat>, n: Name)
    requires StandFor(h, buckets, names, offsets)
    ensures StandFor(h, buckets + [BucketOf(h, Some(n), offsets)], names + [n], offsets)
  {
  }

  lemma StandForCount(h: Hasher, buckets: seq<IndexBucket>, names: seq<Name>, offsets: map<Name, nat>)
    requires StandFor(h, buckets, names, offsets)
    ensures |buckets| == |names|
  {
  }

  lemma StandForAt(h: Hasher, buckets: seq<IndexBucket>, names: seq<Name>, offsets: map<Name, nat>, j: nat)
    requires StandFor(h, buckets, names, offsets) && j < |names|
    ensures j < |buckets| && buckets[j] == BucketOf(h, Some(names[j]), offsets) && buckets[j].hash == IndexHash(h, names[j])
  {
  }

  lemma BucketsFilled(h: Hasher, owner: seq<Option<Name>>, offsets: map<Name, nat>)
    ensures forall i :: 0 <= i < |owner| ==> (BucketsOf(h, owner, offsets)[i].hash == 0 <==> owner[i] == None)
  {
  }

  lemma NoneStand(h: Hasher, offsets: map<Name, nat>)
    ensures StandFor(h, [], [], offsets)
  {
  }

  /** Setting one name's bucket to a new record offset, whether or not the name was there before. */
  lemma BucketsPlace(h: Hasher, owner: seq<Option<Name>>, offsets: map<Name, nat>, n: Name, offset: nat)
    requires TableOf(h, owner, offsets)
    ensures var i := Find(owner, NameHome(h), n);
      i < |owner| && BucketsOf(h, Place(owner, NameHome(h), n), offsets[n := offset])
                     == BucketsOf(h, owner, offsets)[i := IndexBucket(IndexHash(h, n), offset)]
  {
    OccupiedRoom(owner);
    FindIsLookup(owner, NameHome(h), n);
  }

  lemma NamePlace(h: Hasher, owner: seq<Option<Name>>, offsets: map<Name, nat>, n: Name, offset: nat)
    requires TableOf(h, owner, offsets) && Occupied(owner) + 1 < |owner|
    ensures TableOf(h, Place(owner, NameHome(h), n), offsets[n := offset])
    ensures Occupied(Place(owner, NameHome(h), n)) == Occupied(owner) + (if n in offsets then 0 else 1)
  {
    hide Chained, Distinct;
    TablePlace(owner, NameHome(h), offsets.Keys, n);
    assert offsets[n := offset].Keys == offsets.Keys + {n};
  }

  /** With distinct names in the table, the occupied buckets are as many as the names in the log. */
  lemma OccupiedIsKeys(h: Hasher, owner: seq<Option<Name>>, rs: seq<Record>)
    requires TableOf(h, owner, LastOffsets(rs))
    ensures Occupied(owner) == |Contents(rs)|
  {
    SameKeys(rs);
    Probing.TableFacts(owner, NameHome(h), LastOffsets(rs).Keys);
  }

  /** The column and key stored after a record header. */
  function ReadName(file: seq<byte>, recordOffset: nat, header: RecordHeader): Option<Name> {
    var offset := recordOffset + RECORD_HEADER_SIZE;
    var column := PRead(file, offset, header.columnSize);
    var key := PRead(file, offset + header.columnSize, header.keySize);
    if column == None || key == None then None else Some(Name(column.value, key.value))
  }

  // ---- Looking a name up, on any buckets and any bytes ---------------------------------

  /** What comparing a record with a name finds; `None` is corruption.  `sizes` are what is read on the way. */
  datatype Matched = Matched(sizes: seq<nat>, result: Option<bool>)

  function Match(file: seq<byte>, recordOffset: nat, name: Name): Matched {
    var hb := PRead(file, recordOffset, RECORD_HEADER_SIZE);
    if hb == None then Matched([], None)
    else
      var hd := ParseHeader(hb.value);
      if !IsValidRecordHeader(hd) then Matched([RECORD_HEADER_SIZE], None)
      else if hd.columnSize != |name.column| || hd.keySize != |name.key| then Matched([RECORD_HEADER_SIZE], Some(false))
      else
        var stored := ReadName(file, recordOffset, hd);
        if stored == None then Matched([RECORD_HEADER_SIZE], None)
        else Matched([RECORD_HEADER_SIZE, hd.columnSize, hd.keySize], Some(stored.value == name))
  }

  /** Where a lookup ends: at a matching bucket, at an empty one, or in corruption. */
  datatype Sight = Found(index: nat) | Free(index: nat) | Corrupt

  datatype Walk = Walk(sizes: seq<nat>, sight: Sight)

  function After(m: Matched, w: Walk): Walk { Walk(m.sizes + w.sizes, w.sight) }

  /** The probe loop from its `p`-th bucket on. */
  function LookupFrom(hash: nat, buckets: seq<IndexBucket>, file: seq<byte>, name: Name, p: nat): (w: Walk)
    requires |buckets| > 0
    ensures w.sight.Found? ==> w.sight.index < |buckets|
    ensures w.sight.Free? ==> w.sight.index < |buckets|
    decreases |buckets| - p
  {
    if p >= |buckets| then Walk([], Corrupt)
    else
      var index := Start(Start(hash, |buckets|) + p, |buckets|);
      var bucket := buckets[index];
      if bucket.hash == 0 then Walk([], Free(index))
      else if bucket.hash != hash then LookupFrom(hash, buckets, file, name, p + 1)
      else
        var m := Match(file, bucket.recordOffset, name);
        if m.result == None then Walk(m.sizes, Corrupt)
        else if m.result.value then Walk(m.sizes, Found(index))
        else After(m, LookupFrom(hash, buckets, file, name, p + 1))
  }

  function Lookup(h: Hasher, buckets: seq<IndexBucket>, file: seq<byte>, name: Name): Walk
    requires |buckets| > 0
  {
    LookupFrom(IndexHash(h, name), buckets, file, name, 0)
  }

  /** One more step of the probe loop. */
  lemma LookupStep(hash: nat, buckets: seq<IndexBucket>, file: seq<byte>, name: Name, p: nat)
    requires p < |buckets|
    ensures var index := Start(Start(hash, |buckets|) + p, |buckets|);
      var bucket := buckets[index];
      LookupFrom(hash, buckets, file, name, p) ==
        if bucket.hash == 0 then Walk([], Free(index))
        else if bucket.hash != hash then LookupFrom(hash, buckets, file, name, p + 1)
        else
          var m := Match(file, bucket.recordOffset, name);
          if m.result == None then Walk(m.sizes, Corrupt)
          else if m.result.value then Walk(m.sizes, Found(index))
          else After(m, LookupFrom(hash, buckets, file, name, p + 1))
  {
  }

  /** At a whole record the comparison tells whether it is the name's. */
  lemma MatchIs(file: seq<byte>, offset: nat, r: Record, name: Name)
    requires RecordIsAt(file, offset, r)
    ensures Match(file, offset, name).result == Some(r.name == name)
    ensures Match(file, offset, name).sizes != [] && Match(file, offset, name).sizes[0] == RECORD_HEADER_SIZE
  {
    ReadBack(file, offset, r);
    ReadNameIs(file, offset, r);
  }

  /** Every occupied bucket leads to a whole record, of its own name or of one written over it. */
  ghost predicate Readable(h: Hasher, owner: seq<Option<Name>>, offsets: map<Name, nat>, file: seq<byte>, at: Name -> Record) {
    forall m :: m in offsets ==> RecordIsAt(file, offsets[m], at(m))
  }

  lemma OffsetFacts(h: Hasher, owner: seq<Option<Name>>, offsets: map<Name, nat>)
    requires TableOf(h, owner, offsets)
    ensures |owner| > 0 && IsPowerOfTwo(|owner|) && Chained(owner, NameHome(h)) && Distinct(owner) && HasRoom(owner)
    ensures Occupied(owner) == |offsets| < |owner|
    ensures forall n :: Probing.Holds(owner, n) <==> n in offsets
  {
    TableFacts(owner, NameHome(h), offsets.Keys);
  }

  /** What one probe sees. */
  lemma ProbeSees(h: Hasher, owner: seq<Option<Name>>, offsets: map<Name, nat>, file: seq<byte>, at: Name -> Record, name: Name, p: nat)
    requires TableOf(h, owner, offsets) && Readable(h, owner, offsets, file, at) && p < |owner|
    ensures var i := At(Home(NameHome(h), name, |owner|), p, |owner|);
      var buckets, hash := BucketsOf(h, owner, offsets), IndexHash(h, name);
      LookupFrom(hash, buckets, file, name, p).sight ==
        match owner[i]
        case None => Free(i)
        case Some(m) =>
          if m in offsets && IndexHash(h, m) == hash && at(m).name == name then Found(i)
          else LookupFrom(hash, buckets, file, name, p + 1).sight
  {
    hide RecordIsAt, Match, LookupFrom, Start, IsPowerOfTwo, Chained, Distinct;
    var i := At(Home(NameHome(h), name, |owner|), p, |owner|);
    TableFacts(owner, NameHome(h), offsets.Keys);
    HomeIs(h, name, |owner|);
    MaskedAt(Home(NameHome(h), name, |owner|), p, |owner|);
    LookupStep(IndexHash(h, name), BucketsOf(h, owner, offsets), file, name, p);
    if owner[i].Some? {
      assert Probing.Holds(owner, owner[i].value);
      MatchIs(file, offsets[owner[i].value], at(owner[i].value), name);
    }
  }

  /**
   A lookup of a name whose own bucket leads to its record ends at that bucket; of
   any other name, at the empty bucket on its path.
   */
  lemma {:induction false} LookupFromIs(h: Hasher, owner: seq<Option<Name>>, offsets: map<Name, nat>, file: seq<byte>,
                                        at: Name -> Record, name: Name, p: nat)
    requires TableOf(h, owner, offsets) && Readable(h, owner, offsets, file, at) && p <= |owner|
    requires forall m :: m in offsets ==> at(m).name == m
    requires Passed(owner, name, Home(NameHome(h), name, |owner|), p)
    ensures var i := Find(owner, NameHome(h), name);
      i < |owner| && LookupFrom(IndexHash(h, name), BucketsOf(h, owner, offsets), file, name, p).sight
                     == if name in offsets then Found(i) else Free(i)
    decreases |owner| - p
  {
    hide *;
    OffsetFacts(h, owner, offsets);
    FindIsLookup(owner, NameHome(h), name);
    var start := Home(NameHome(h), name, |owner|);
    if p == |owner| {
      PassedAll(owner, name, start);
      assert false;
    } else {
      ProbeSees(h, owner, offsets, file, at, name, p);
      var i := At(start, p, |owner|);
      if owner[i] == None || owner[i] == Some(name) {
        FindIsFirst(owner, NameHome(h), name, p);
        if owner[i].Some? { HeldAt(owner, i); }
      } else {
        HeldAt(owner, i);
        PassedMore(owner, name, start, p);
        LookupFromIs(h, owner, offsets, file, at, name, p + 1);
      }
    }
  }

  lemma HeldAt(owner: seq<Option<Name>>, i: nat)
    requires i < |owner| && owner[i].Some?
    ensures Probing.Holds(owner, owner[i].value)
  {
  }

  /** A lookup of a name whose record no bucket leads to ends at an empty bucket. */
  lemma {:induction false} LookupMisses(h: Hasher, owner: seq<Option<Name>>, offsets: map<Name, nat>, file: seq<byte>,
                                        at: Name -> Record, name: Name, p: nat)
    requires TableOf(h, owner, offsets) && Readable(h, owner, offsets, file, at) && p <= |owner|
    requires forall m :: m in offsets ==> at(m).name != name
    requires forall j :: 0 <= j < |owner| && Dist(Home(NameHome(h), name, |owner|), j, |owner|) < p ==> owner[j].Some?
    ensures |owner| > 0 && LookupFrom(IndexHash(h, name), BucketsOf(h, owner, offsets), file, name, p).sight.Free?
    decreases |owner| - p
  {
    hide *;
    OffsetFacts(h, owner, offsets);
    var start := Home(NameHome(h), name, |owner|);
    if p == |owner| {
      AllTaken(owner, start);
      assert false;
    } else {
      ProbeSees(h, owner, offsets, file, at, name, p);
      if owner[At(start, p, |owner|)].Some? {
        TakenMore(owner, start, p);
        LookupMisses(h, owner, offsets, file, at, name, p + 1);
      }
    }
  }

  lemma AllTaken(owner: seq<Option<Name>>, start: nat)
    requires start < |owner| && forall j :: 0 <= j < |owner| && Dist(start, j, |owner|) < |owner| ==> owner[j].Some?
    ensures !HasRoom(owner)
  {
  }

  lemma TakenMore(owner: seq<Option<Name>>, start: nat, p: nat)
    requires start < |owner| && p < |owner| && owner[At(start, p, |owner|)].Some?
    requires forall j :: 0 <= j < |owner| && Dist(start, j, |owner|) < p ==> owner[j].Some?
    ensures forall j :: 0 <= j < |owner| && Dist(start, j, |owner|) < p + 1 ==> owner[j].Some?
  {
    forall j | 0 <= j < |owner| && Dist(start, j, |owner|) < p + 1 ensures owner[j].Some? {
      if Dist(start, j, |owner|) == p { assert At(start, p, |owner|) == j; }
    }
  }

  /** On the log that the index stands for, a lookup finds exactly the names of the log. */
  lemma LogLookup(h: Hasher, owner: seq<Option<Name>>, rs: seq<Record>, file: seq<byte>, name: Name)
    requires TableOf(h, owner, LastOffsets(rs)) && AllStorable(rs) && File(rs) <= file
    ensures var i := Find(owner, NameHome(h), name);
      |owner| > 0 && i < |owner|
      && Lookup(h, BucketsOf(h, owner, LastOffsets(rs)), file, name).sight == if name in Contents(rs) then Found(i) else Free(i)
  {
    hide LastOffsets, Contents, File, RecordIsAt, LookupFrom, TableOf;
    OffsetFacts(h, owner, LastOffsets(rs));
    SameKeys(rs);
    var at := LogRecord(rs);
    LogReadable(h, owner, rs, file);
    PassedNone(owner, name, Home(NameHome(h), name, |owner|));
    LookupFromIs(h, owner, LastOffsets(rs), file, at, name, 0);
  }

  /** The last record of a name. */
  function LogRecord(rs: seq<Record>): Name -> Record {
    (m: Name) => Record(m, if m in Contents(rs) then Contents(rs)[m] else [])
  }

  /** Some name of the map has the index hash of this one. */
  ghost predicate SharesHash(h: Hasher, names: set<Name>, n: Name) {
    exists m :: m in names && IndexHash(h, m) == IndexHash(h, n)
  }

  ghost predicate StartsWithHeader(sizes: seq<nat>) { sizes != [] && sizes[0] == RECORD_HEADER_SIZE }

  /** What one probe reads. */
  lemma ProbeReads(h: Hasher, owner: seq<Option<Name>>, offsets: map<Name, nat>, file: seq<byte>, at: Name -> Record, name: Name, p: nat)
    requires TableOf(h, owner, offsets) && Readable(h, owner, offsets, file, at) && p < |owner|
    ensures var i := At(Home(NameHome(h), name, |owner|), p, |owner|);
      var buckets, hash := BucketsOf(h, owner, offsets), IndexHash(h, name);
      var sizes := LookupFrom(hash, buckets, file, name, p).sizes;
      match owner[i]
      case None => sizes == []
      case Some(m) =>
        m in offsets && if IndexHash(h, m) == hash then StartsWithHeader(sizes) else sizes == LookupFrom(hash, buckets, file, name, p + 1).sizes
  {
    hide RecordIsAt, Match, LookupFrom, Start, IsPowerOfTwo, Chained, Distinct;
    var i := At(Home(NameHome(h), name, |owner|), p, |owner|);
    OffsetFacts(h, owner, offsets);
    HomeIs(h, name, |owner|);
    MaskedAt(Home(NameHome(h), name, |owner|), p, |owner|);
    LookupStep(IndexHash(h, name), BucketsOf(h, owner, offsets), file, name, p);
    if owner[i].Some? {
      HeldAt(owner, i);
      MatchIs(file, offsets[owner[i].value], at(owner[i].value), name);
    }
  }

  /** A lookup reads only where it meets a bucket with the hash of the name. */
  lemma {:induction false} ReadsShareHash(h: Hasher, owner: seq<Option<Name>>, offsets: map<Name, nat>, file: seq<byte>, at: Name -> Record,
                                          name: Name, p: nat)
    requires TableOf(h, owner, offsets) && Readable(h, owner, offsets, file, at) && p <= |owner|
    requires |owner| > 0 && LookupFrom(IndexHash(h, name), BucketsOf(h, owner, offsets), file, name, p).sizes != []
    ensures SharesHash(h, offsets.Keys, name)
    decreases |owner| - p
  {
    hide *;
    OffsetFacts(h, owner, offsets);
    if p == |owner| {
      NoMoreProbes(IndexHash(h, name), BucketsOf(h, owner, offsets), file, name, p);
    } else {
      ProbeReads(h, owner, offsets, file, at, name, p);
      var i := At(Home(NameHome(h), name, |owner|), p, |owner|);
      if IndexHash(h, owner[i].value) == IndexHash(h, name) { Shares(h, offsets.Keys, owner[i].value, name); }
      else { ReadsShareHash(h, owner, offsets, file, at, name, p + 1); }
    }
  }

  lemma Shares(h: Hasher, names: set<Name>, m: Name, n: Name)
    requires m in names && IndexHash(h, m) == IndexHash(h, n)
    ensures SharesHash(h, names, n)
  {
  }

  lemma NoMoreProbes(hash: nat, buckets: seq<IndexBucket>, file: seq<byte>, name: Name, p: nat)
    requires |buckets| > 0 && p >= |buckets|
    ensures LookupFrom(hash, buckets, file, name, p).sizes == []
  {
  }

  /** A lookup meets the bucket of every name with its hash, and reads there unless it has read before. */
  lemma {:induction false} SharedHashReads(h: Hasher, owner: seq<Option<Name>>, offsets: map<Name, nat>, file: seq<byte>, at: Name -> Record,
                                           name: Name, m: Name, j: nat, p: nat)
    requires TableOf(h, owner, offsets) && Readable(h, owner, offsets, file, at) && j < |owner| && owner[j] == Some(m)
    requires IndexHash(h, m) == IndexHash(h, name) && p <= Dist(Home(NameHome(h), name, |owner|), j, |owner|)
    ensures StartsWithHeader(LookupFrom(IndexHash(h, name), BucketsOf(h, owner, offsets), file, name, p).sizes)
    decreases |owner| - p
  {
    hide *;
    OffsetFacts(h, owner, offsets);
    HomeIs(h, name, |owner|);
    HomeIs(h, m, |owner|);
    var start := Home(NameHome(h), name, |owner|);
    DistAt(start, p, j, |owner|);
    var i := At(start, p, |owner|);
    OnTheWay(owner, NameHome(h), m, j, i);
    ProbeReads(h, owner, offsets, file, at, name, p);
    if IndexHash(h, owner[i].value) != IndexHash(h, name) {
      SharedHashReads(h, owner, offsets, file, at, name, m, j, p + 1);
    }
  }

  lemma DistAt(start: nat, p: nat, j: nat, n: nat)
    requires start < n && j < n && p <= Dist(start, j, n)
    ensures p < n && At(start, p, n) < n && Dist(start, At(start, p, n), n) == p
  {
  }

  lemma OnTheWay(owner: seq<Option<Name>>, home: Name -> nat, m: Name, j: nat, i: nat)
    requires j < |owner| && i < |owner| && owner[j] == Some(m) && Chained(owner, home)
    requires Dist(Home(home, m, |owner|), i, |owner|) <= Dist(Home(home, m, |owner|), j, |owner|)
    ensures owner[i].Some?
    ensures i != j ==> Dist(Home(home, m, |owner|), i, |owner|) < Dist(Home(home, m, |owner|), j, |owner|)
  {
  }

  /** On the log a lookup reads exactly when a name of the log has the hash. */
  lemma LogReads(h: Hasher, owner: seq<Option<Name>>, rs: seq<Record>, file: seq<byte>, name: Name)
    requires TableOf(h, owner, LastOffsets(rs)) && AllStorable(rs) && File(rs) <= file
    ensures |owner| > 0
    ensures var sizes := Lookup(h, BucketsOf(h, owner, LastOffsets(rs)), file, name).sizes;
      if SharesHash(h, Contents(rs).Keys, name) then StartsWithHeader(sizes) else sizes == []
  {
    hide LastOffsets, Contents, TableOf, File, AllStorable, LookupFrom, StartsWithHeader, BucketsOf, Readable, Dist, Start;
    var offsets, at := LastOffsets(rs), LogRecord(rs);
    OffsetFacts(h, owner, offsets);
    LogReadable(h, owner, rs, file);
    SameKeys(rs);
    if SharesHash(h, Contents(rs).Keys, name) {
      var m :| m in Contents(rs).Keys && IndexHash(h, m) == IndexHash(h, name);
      assert Probing.Holds(owner, m);
      var j :| 0 <= j < |owner| && owner[j] == Some(m);
      SharedHashReads(h, owner, offsets, file, at, name, m, j, 0);
    } else if Lookup(h, BucketsOf(h, owner, offsets), file, name).sizes != [] {
      ReadsShareHash(h, owner, offsets, file, at, name, 0);
    }
  }

  lemma LogReadable(h: Hasher, owner: seq<Option<Name>>, rs: seq<Record>, file: seq<byte>)
    requires AllStorable(rs) && File(rs) <= file
    ensures Readable(h, owner, LastOffsets(rs), file, LogRecord(rs))
  {
    hide LastOffsets, Contents, File, RecordIsAt;
    forall m | m in LastOffsets(rs) ensures RecordIsAt(file, LastOffsets(rs)[m], LogRecord(rs)(m)) { OffsetsPointAtRecords(rs, file, m); }
  }

  // ---- What a batch of writes means ---------------------------------------------------

  function BatchRecords(column: seq<byte>, entries: seq<StructEntry>): (rs: seq<Record>)
    ensures |rs| == |entries|
  {
    seq(|entries|, i requires 0 <= i < |entries| => Record(Name(column, entries[i].key), entries[i].value))
  }

  ghost predicate AllStorable(rs: seq<Record>) {
    forall i :: 0 <= i < |rs| ==> Storable(rs[i])
  }

  function Names(rs: seq<Record>): (ns: seq<Name>)
    ensures |ns| == |rs|
  {
    seq(|rs|, i requires 0 <= i < |rs| => rs[i].name)
  }

  /** The index of the last entry with this key, or the number of entries if there is none. */
  function LastEntry(entries: seq<StructEntry>, key: seq<byte>): (i: nat)
    ensures i <= |entries|
    ensures i < |entries| ==> entries[i].key == key && forall j :: i < j < |entries| ==> entries[j].key != key
    ensures i == |entries| ==> forall j :: 0 <= j < |entries| ==> entries[j].key != key
  {
    if entries == [] then 0
    else
      var n := |entries| - 1;
      if entries[n].key == key then n
      else
        var i := LastEntry(entries[..n], key);
        if i == n then |entries| else i
  }

  /** After a batch each of its keys has its last value, and every other name what it had. */
  lemma {:induction false} BatchMeaning(rs: seq<Record>, column: seq<byte>, entries: seq<StructEntry>, n: Name)
    ensures var after := Contents(rs + BatchRecords(column, entries));
      var i := LastEntry(entries, n.key);
      if n.column == column && i < |entries| then n in after && after[n] == entries[i].value
      else (n in after <==> n in Contents(rs)) && (n in after ==> after[n] == Contents(rs)[n])
  {
    hide LastOffsets, File;
    if entries == [] {
      assert rs + BatchRecords(column, entries) == rs;
    } else {
      var k := |entries| - 1;
      var init, last := entries[..k], Record(Name(column, entries[k].key), entries[k].value);
      BatchMeaning(rs, column, init, n);
      assert rs + BatchRecords(column, entries) == (rs + BatchRecords(column, init)) + [last];
      AppendMeaning(rs + BatchRecords(column, init), last);
    }
  }

  /** All names of the batch are new and differ from each other: what a unique batch promises. */
  ghost predicate NewNames(names: set<Name>, batch: seq<Record>) {
    && (forall i :: 0 <= i < |batch| ==> batch[i].name !in names)
    && (forall i, j :: 0 <= i < j < |batch| ==> batch[i].name != batch[j].name)
  }

  /** A record of a batch being written: what its bucket needs, and the record itself for the proof. */
  datatype PendingRecord = PendingRecord(name: Name, hash: nat, recordOffset: nat)

  ghost predicate PendingFor(h: Hasher, p: PendingRecord, r: Record, offset: nat) {
    p.name == r.name && p.hash == IndexHash(h, r.name) && p.recordOffset == offset
  }

  /** What indexing a batch written at offset `base` needs. */
  ghost predicate AllPending(h: Hasher, pending: seq<PendingRecord>, base: nat, batch: seq<Record>) {
    |pending| == |batch| && forall i :: 0 <= i < |batch| ==> PendingFor(h, pending[i], batch[i], base + |EncodeAll(batch[..i])|)
  }

  lemma PendingMore(h: Hasher, pending: seq<PendingRecord>, base: nat, batch: seq<Record>, i: nat, p: PendingRecord)
    requires i < |batch| && AllPending(h, pending, base, batch[..i])
    requires p == PendingRecord(batch[i].name, IndexHash(h, batch[i].name), base + |EncodeAll(batch[..i])|)
    ensures AllPending(h, pending + [p], base, batch[..i + 1])
  {
    hide EncodeAll;
    var more := pending + [p];
    forall j | 0 <= j < i + 1 ensures PendingFor(h, more[j], batch[..i + 1][j], base + |EncodeAll(batch[..i + 1][..j])|) {
      assert batch[..i + 1][..j] == batch[..j];
      if j < i {
        assert batch[..i][..j] == batch[..j];
        assert PendingFor(h, pending[j], batch[..i][j], base + |EncodeAll(batch[..i][..j])|);
      }
    }
  }

  lemma PendingAt(h: Hasher, pending: seq<PendingRecord>, base: nat, batch: seq<Record>, i: nat)
    requires AllPending(h, pending, base, batch) && i < |batch|
    ensures |pending| == |batch|
    ensures var p := pending[i];
      p.name == batch[i].name && p.hash == IndexHash(h, batch[i].name) && p.recordOffset == base + |EncodeAll(batch[..i])|
  {
    assert PendingFor(h, pending[i], batch[i], base + |EncodeAll(batch[..i])|);
  }

  lemma PendingCount(h: Hasher, pending: seq<PendingRecord>, base: nat, batch: seq<Record>)
    requires AllPending(h, pending, base, batch)
    ensures |pending| == |batch|
  {
  }

  /** Appending a batch appends its bytes. */
  lemma {:induction false} FileOf(rs: seq<Record>, batch: seq<Record>)
    ensures File(rs + batch) == File(rs) + EncodeAll(batch)
  {
    if batch == [] {
      assert rs + batch == rs;
    } else {
      var init, last := batch[..|batch| - 1], batch[|batch| - 1];
      assert rs + batch == (rs + init) + [last];
      FileOf(rs, init);
      FileAppend(rs + init, last);
      ConcatAssoc(File(rs), EncodeAll(init), Encode(last));
    }
  }

  /** Where each name's last record starts once a batch has been written at `base`. */
  function OffsetsAfter(offsets: map<Name, nat>, base: nat, batch: seq<Record>): map<Name, nat> {
    if batch == [] then offsets
    else
      var init := batch[..|batch| - 1];
      OffsetsAfter(offsets, base, init)[batch[|batch| - 1].name := base + |EncodeAll(init)|]
  }

  lemma OffsetsAfterMore(offsets: map<Name, nat>, base: nat, batch: seq<Record>, i: nat)
    requires i < |batch|
    ensures OffsetsAfter(offsets, base, batch[..i + 1]) == OffsetsAfter(offsets, base, batch[..i])[batch[i].name := base + |EncodeAll(batch[..i])|]
  {
    assert batch[..i + 1][..i] == batch[..i];
  }

  lemma {:induction false} OffsetsAfterNames(offsets: map<Name, nat>, base: nat, batch: seq<Record>, i: nat)
    requires i <= |batch|
    ensures forall n :: n in OffsetsAfter(offsets, base, batch[..i]) <==> n in offsets || exists j :: 0 <= j < i && batch[j].name == n
  {
    hide EncodeAll;
    if i > 0 {
      OffsetsAfterMore(offsets, base, batch, i - 1);
      OffsetsAfterNames(offsets, base, batch, i - 1);
    }
  }

  lemma NothingYet(rs: seq<Record>, offsets: map<Name, nat>, base: nat, batch: seq<Record>)
    ensures rs + batch[..0] == rs && OffsetsAfter(offsets, base, batch[..0]) == offsets && EncodeAll(batch[..0]) == []
  {
  }

  /** The names of a unique batch stay new until their turn. */
  lemma StillNew(offsets: map<Name, nat>, base: nat, batch: seq<Record>, i: nat)
    requires NewNames(offsets.Keys, batch) && i < |batch|
    ensures batch[i].name !in OffsetsAfter(offsets, base, batch[..i])
  {
    OffsetsAfterNames(offsets, base, batch, i);
  }

  /** At the end of the log these are the offsets of the longer log. */
  lemma {:induction false} OffsetsAfterLog(rs: seq<Record>, batch: seq<Record>)
    ensures OffsetsAfter(LastOffsets(rs), |File(rs)|, batch) == LastOffsets(rs + batch)
  {
    hide File, EncodeAll;
    if batch == [] {
      assert rs + batch == rs;
    } else {
      var init, last := batch[..|batch| - 1], batch[|batch| - 1];
      assert rs + batch == (rs + init) + [last];
      OffsetsAfterLog(rs, init);
      AppendMeaning(rs + init, last);
      FileOf(rs, init);
    }
  }

  lemma StorableMore(rs: seq<Record>, batch: seq<Record>, i: nat)
    requires AllStorable(batch) && i < |batch| && AllStorable(rs)
    ensures AllStorable(rs + [batch[i]]) && AllStorable([batch[i]])
  {
  }

  lemma HashOf(h: Hasher, column: seq<byte>, key: seq<byte>)
    ensures IndexHash(h, Name(column, key)) == h.ObjectIndexHash(h.HashString(column), h.HashString(key))
  {
  }

  lemma BatchIsStorable(column: seq<byte>, entries: seq<StructEntry>)
    requires |column| < TWO32
    requires forall i :: 0 <= i < |entries| ==> |entries[i].key| < TWO32 && |entries[i].value| < TWO64
    ensures AllStorable(BatchRecords(column, entries))
  {
  }

  lemma EmptyBatch(column: seq<byte>, entries: seq<StructEntry>)
    requires entries == []
    ensures BatchRecords(column, entries) == [] && EncodeAll([]) == []
  {
  }

  lemma {:induction false} BatchSize(batch: seq<Record>)
    ensures |EncodeAll(batch)| == 0 <==> batch == []
  {
  }

  lemma BatchAt(column: seq<byte>, entries: seq<StructEntry>, i: nat)
    requires i < |entries|
    ensures BatchRecords(column, entries)[i] == Record(Name(column, entries[i].key), entries[i].value)
    ensures HeaderOf(BatchRecords(column, entries)[i])
         == RecordHeader(RECORD_MAGIC, STORAGE_VERSION, RECORD_HEADER_SIZE, |column|, |entries[i].key|, |entries[i].value|)
    ensures |Encode(BatchRecords(column, entries)[i])| == RECORD_HEADER_SIZE + |column| + |entries[i].key| + |entries[i].value|
  {
  }

  /** Appending the four slices of a record appends its encoding. */
  lemma SlicesEncode(slices: seq<seq<byte>>, rs: seq<Record>, r: Record)
    requires EncodeAll(rs) == Concat(slices)
    ensures EncodeAll(rs + [r]) == Concat(slices + [EncodeHeader(HeaderOf(r)), r.name.column, r.name.key, r.value])
    ensures |EncodeAll(rs + [r])| == |EncodeAll(rs)| + |Encode(r)|
  {
    var four := [EncodeHeader(HeaderOf(r)), r.name.column, r.name.key, r.value];
    ConcatAppend(slices, four);
    FourSlices(four[0], four[1], four[2], four[3]);
    assert (rs + [r])[..|rs|] == rs;
  }

  lemma FourSlices(a: seq<byte>, b: seq<byte>, c: seq<byte>, d: seq<byte>)
    ensures Concat([a, b, c, d]) == a + b + c + d
  {
    assert [a, b, c, d][1..] == [b, c, d] && [b, c, d][1..] == [c, d] && [c, d][1..] == [d] && [d][1..] == [];
    assert Concat([d]) == d by { assert d + [] == d; }
    assert Concat([c, d]) == c + d;
    assert Concat([b, c, d]) == b + (c + d);
    ConcatAssoc(b, c, d);
    ConcatAssoc(a, b + c, d);
    ConcatAssoc(a, b, c);
  }

  // ---- The index after growth ------------------------------------------------------------

  /** The table after making room for `items` names in all. */
  function Ensured(h: Hasher, f: real, owner: seq<Option<Name>>, items: nat): (r: seq<Option<Name>>)
    requires f > 0.0 && |owner| > 0
    ensures |r| > 0
  {
    var m := Grown(f, items, |owner|);
    if m == |owner| then owner else Rehash(owner, NameHome(h), RoundUp(m))
  }

  lemma NoNames(h: Hasher, n: nat)
    ensures TableOf(h, NoKeys(RoundUp(n)), map[]) && Occupied<Name>(NoKeys(RoundUp(n))) == 0
  {
    hide RoundUp;
    var none: map<Name, nat> := map[];
    EmptyTable(NameHome(h), n);
    assert none.Keys == {};
  }

  lemma EnsuredIs(h: Hasher, f: real, owner: seq<Option<Name>>, items: nat)
    requires f > 0.0 && |owner| > 0
    ensures var m := Grown(f, items, |owner|);
      Ensured(h, f, owner, items) == if m == |owner| then owner else Rehash(owner, NameHome(h), RoundUp(m))
  {
  }

  /** Growth loses no name, changes no lookup, and leaves room for the whole batch and one bucket over. */
  lemma GrowthIsInvisible(h: Hasher, f: real, owner: seq<Option<Name>>, offsets: map<Name, nat>, more: nat)
    requires 0.0 < f < 0.95 && TableOf(h, owner, offsets)
    ensures var r := Ensured(h, f, owner, Occupied(owner) + more);
      TableOf(h, r, offsets) && Occupied(r) == Occupied(owner) && Occupied(r) + more < |r|
  {
    var m := Grown(f, Occupied(owner) + more, |owner|);
    FitsHasRoom(f, Occupied(owner) + more, m);
    if m != |owner| { ResizedTable(owner, NameHome(h), offsets.Keys, m); }
  }

  // ---- Placing --------------------------------------------------------------------------------

  lemma NoBuckets(h: Hasher, n: nat, offsets: map<Name, nat>)
    ensures BucketsOf(h, NoKeys(n), offsets) == BucketsOf(h, NoKeys(n), map[])
  {
  }

  lemma BucketsMove(h: Hasher, owner: seq<Option<Name>>, offsets: map<Name, nat>, n: Name)
    requires |owner| > 0 && Chained(owner, NameHome(h)) && HasRoom(owner)
    ensures var i := Find(owner, NameHome(h), n);
      i < |owner| && BucketsOf(h, Place(owner, NameHome(h), n), offsets)
                     == BucketsOf(h, owner, offsets)[i := BucketOf(h, Some(n), offsets)]
  {
    FindIsLookup(owner, NameHome(h), n);
  }

  lemma NameFacts(h: Hasher, owner: seq<Option<Name>>, rs: seq<Record>)
    requires TableOf(h, owner, LastOffsets(rs))
    ensures |owner| > 0 && IsPowerOfTwo(|owner|) && Chained(owner, NameHome(h)) && HasRoom(owner) && Occupied(owner) < |owner|
    ensures forall n :: Probing.Holds(owner, n) <==> n in Contents(rs)
    ensures LastOffsets(rs).Keys == Contents(rs).Keys
  {
    TableFacts(owner, NameHome(h), LastOffsets(rs).Keys);
    SameKeys(rs);
  }

  lemma HomeIs(h: Hasher, n: Name, count: nat)
    requires count > 0
    ensures IndexHash(h, n) == h.ObjectIndexHash(h.HashString(n.column), h.HashString(n.key))
    ensures Home(NameHome(h), n, count) == Start(IndexHash(h, n), count)
  {
  }

  lemma PlaceAllStep(t: seq<Option<Name>>, home: Name -> nat, batch: seq<Record>, i: nat)
    requires |t| > 0 && i < |batch|
    ensures PlaceAll(t, home, Names(batch[..i + 1])) == Place(PlaceAll(t, home, Names(batch[..i])), home, batch[i].name)
  {
    assert Names(batch[..i + 1])[..i] == Names(batch[..i]);
  }

  lemma PlaceNone(t: seq<Option<Name>>, home: Name -> nat, batch: seq<Record>)
    requires |t| > 0
    ensures PlaceAll(t, home, Names(batch[..0])) == t
  {
  }

  /** The table after a batch: growth for the whole batch first, then each name in turn. */
  function AfterBatch(h: Hasher, f: real, owner: seq<Option<Name>>, items: nat, column: seq<byte>, entries: seq<StructEntry>): (r: seq<Option<Name>>)
    requires f > 0.0 && |owner| > 0
  {
    PlaceAll(Ensured(h, f, owner, items + |entries|), NameHome(h), Names(BatchRecords(column, entries)))
  }

  lemma AfterBatchIs(h: Hasher, f: real, owner: seq<Option<Name>>, items: nat, column: seq<byte>, entries: seq<StructEntry>)
    requires f > 0.0 && |owner| > 0
    ensures AfterBatch(h, f, owner, items, column, entries)
         == PlaceAll(Ensured(h, f, owner, items + |entries|), NameHome(h), Names(BatchRecords(column, entries)))
  {
  }

  /** A failed append leaves the log before it. */
  lemma KeptPrefix(before: seq<byte>, after: seq<byte>, bytes: seq<byte>, log: seq<Record>)
    requires File(log) <= before && PartlyWritten(before, after, bytes, |File(log)|)
    ensures File(log) <= after
  {
    hide File, PWrite;
    var k :| 0 <= k < |bytes| && after == PWrite(before, bytes[..k], |File(log)|);
    PrefixWritten(before, bytes[..k], File(log));
  }

  /** A whole append puts the batch after the log. */
  lemma LogWritten(before: seq<byte>, rs: seq<Record>, batch: seq<Record>, h: Hasher, owner: seq<Option<Name>>)
    requires File(rs) <= before && TableOf(h, owner, LastOffsets(rs)) && Occupied(owner) + |batch| < |owner|
    requires AllStorable(rs) && AllStorable(batch)
    ensures var after := PWrite(before, EncodeAll(batch), |File(rs)|);
      File(rs) <= after && File(rs + batch) <= after && InLog(h, owner, rs, batch, after)
  {
    hide File, EncodeAll, PWrite, TableOf, Occupied, Storable;
    PrefixWritten(before, EncodeAll(batch), File(rs));
    FileOf(rs, batch);
  }

  /** Writing at the end of the log leaves the log before it. */
  lemma PrefixWritten(before: seq<byte>, bytes: seq<byte>, log: seq<byte>)
    requires log <= before
    ensures log + bytes <= PWrite(before, bytes, |log|)
  {
    PWriteMeaning(before, bytes, |log|);
    var r := PWrite(before, bytes, |log|);
    if bytes != [] {
      assert r[..|log|] == log;
      assert r[..|log| + |bytes|] == r[..|log|] + r[|log|..|log| + |bytes|];
    }
  }

  // ---- Lookups whose reads may be refused ---------------------------------------------------

  /** What comparing a bucket's record reports, given the replies before and those left. */
  ghost predicate Compared(m: Matched, status: Status, matches: bool, before: seq<Reply>, after: seq<Reply>) {
    && status in {Ok, Corruption, IoError}
    && (status == Ok ==> m.result == Some(matches))
    && (status == Corruption ==> m.result == None)
    && (status == IoError ==> Refused in before)
    && (m.result.Some? ==> Served(status == Ok, after) == ServeReads(before, m.sizes) && status != Corruption)
    && (forall r :: r in after ==> r in before)
  }

  /** What a lookup reports. */
  ghost predicate Looked(w: Walk, status: Status, index: nat, found: bool, before: seq<Reply>, after: seq<Reply>) {
    && status in {Ok, Corruption, IoError}
    && (status == Ok ==> w.sight == if found then Found(index) else Free(index))
    && (status == Corruption ==> w.sight == Corrupt)
    && (status == IoError ==> Refused in before)
    && (w.sight != Corrupt ==> Served(status == Ok, after) == ServeReads(before, w.sizes) && status != Corruption)
    && (forall r :: r in after ==> r in before)
  }

  lemma LookedFacts(w: Walk, status: Status, index: nat, found: bool, before: seq<Reply>, after: seq<Reply>)
    requires Looked(w, status, index, found, before, after) && w.sight != Corrupt
    ensures status in {Ok, IoError} && (status == Ok ==> w.sight == if found then Found(index) else Free(index))
    ensures (status == IoError ==> Refused in before) && Served(status == Ok, after) == ServeReads(before, w.sizes)
    ensures forall r :: r in after ==> r in before
  {
  }

  lemma OneRead(script: seq<Reply>, size: nat)
    ensures ServeReads(script, [size]) == ServeRead(script, size)
  {
    assert [size][1..] == [];
  }

  lemma TwoReads(script: seq<Reply>, a: nat, b: nat)
    ensures var first := ServeRead(script, a);
      ServeReads(script, [a, b]) == if first.ok then ServeRead(first.rest, b) else first
  {
    assert [a, b][1..] == [b];
    if ServeRead(script, a).ok { OneRead(ServeRead(script, a).rest, b); }
  }

  lemma NothingServed(script: seq<Reply>)
    ensures ServeReads(script, []) == Served(true, script)
  {
  }

  lemma StartBelow(x: nat, n: nat)
    requires n > 0
    ensures Start(x, n) < n
  {
  }

  lemma LookupStarts(h: Hasher, buckets: seq<IndexBucket>, file: seq<byte>, name: Name)
    requires |buckets| > 0
    ensures Lookup(h, buckets, file, name) == After(Matched([], None), LookupFrom(IndexHash(h, name), buckets, file, name, 0))
  {
    assert [] + LookupFrom(IndexHash(h, name), buckets, file, name, 0).sizes == LookupFrom(IndexHash(h, name), buckets, file, name, 0).sizes;
  }

  lemma NoMoreBuckets(hash: nat, buckets: seq<IndexBucket>, file: seq<byte>, name: Name, p: nat)
    requires |buckets| > 0 && p >= |buckets|
    ensures LookupFrom(hash, buckets, file, name, p) == Walk([], Corrupt)
  {
  }

  lemma EndsFree(sizes: seq<nat>, index: nat, before: seq<Reply>, after: seq<Reply>)
    requires ServeReads(before, sizes) == Served(true, after) && forall r :: r in after ==> r in before
    ensures Looked(After(Matched(sizes, None), Walk([], Free(index))), Ok, index, false, before, after)
  {
    assert sizes + [] == sizes;
  }

  lemma EndsFull(sizes: seq<nat>, before: seq<Reply>, after: seq<Reply>)
    requires forall r :: r in after ==> r in before
    ensures forall index: nat :: Looked(After(Matched(sizes, None), Walk([], Corrupt)), Corruption, index, false, before, after)
  {
  }

  lemma EndsFound(sizes: seq<nat>, m: Matched, index: nat, before: seq<Reply>, middle: seq<Reply>, after: seq<Reply>)
    requires ServeReads(before, sizes) == Served(true, middle) && Compared(m, Ok, true, middle, after)
    requires ServeReads(before, sizes + m.sizes) == ServeReads(middle, m.sizes) && forall r :: r in middle ==> r in before
    ensures m.result == Some(true)
    ensures Looked(After(Matched(sizes, None), Walk(m.sizes, Found(index))), Ok, index, true, before, after)
  {
  }

  lemma EndsBadly(sizes: seq<nat>, m: Matched, later: Walk, index: nat, status: Status, matches: bool,
                  before: seq<Reply>, middle: seq<Reply>, after: seq<Reply>)
    requires ServeReads(before, sizes) == Served(true, middle) && Compared(m, status, matches, middle, after) && status != Ok
    requires ServeReads(before, sizes + m.sizes) == ServeReads(middle, m.sizes) && forall r :: r in middle ==> r in before
    ensures m.result == None ==> Looked(After(Matched(sizes, None), Walk(m.sizes, Corrupt)), status, index, false, before, after)
    ensures m.result == Some(true) ==> Looked(After(Matched(sizes, None), Walk(m.sizes, Found(index))), status, index, false, before, after)
    ensures m.result == Some(false) ==> Looked(After(Matched(sizes, None), After(m, later)), status, index, false, before, after)
  {
    ServeAppend(before, sizes + m.sizes, later.sizes);
    assert sizes + (m.sizes + later.sizes) == (sizes + m.sizes) + later.sizes;
  }

  lemma WalksOn(sizes: seq<nat>, m: Matched, later: Walk, before: seq<Reply>, middle: seq<Reply>, after: seq<Reply>)
    requires ServeReads(before, sizes) == Served(true, middle) && Compared(m, Ok, false, middle, after)
    requires ServeReads(before, sizes + m.sizes) == ServeReads(middle, m.sizes) && forall r :: r in middle ==> r in before
    ensures m.result == Some(false) && ServeReads(before, sizes + m.sizes) == Served(true, after)
    ensures After(Matched(sizes, None), After(m, later)) == After(Matched(sizes + m.sizes, None), later)
    ensures forall r :: r in after ==> r in before
  {
    assert sizes + (m.sizes + later.sizes) == (sizes + m.sizes) + later.sizes;
  }

  // ---- A batch whose lookups may be refused ------------------------------------------------

  lemma {:induction false} BatchTable(h: Hasher, owner: seq<Option<Name>>, rs: seq<Record>, batch: seq<Record>, i: nat)
    requires TableOf(h, owner, LastOffsets(rs)) && Occupied(owner) + |batch| < |owner| && i <= |batch|
    ensures |owner| > 0
    ensures var t := PlaceAll(owner, NameHome(h), Names(batch[..i]));
      TableOf(h, t, LastOffsets(rs + batch[..i])) && Occupied(t) + (|batch| - i) < |owner|
  {
    hide TableOf, LastOffsets, PlaceAll, Place, Occupied;
    if i == 0 {
      PlaceNone(owner, NameHome(h), batch);
      assert rs + batch[..0] == rs;
    } else {
      BatchTable(h, owner, rs, batch, i - 1);
      PlaceAllStep(owner, NameHome(h), batch, i - 1);
      var t := PlaceAll(owner, NameHome(h), Names(batch[..i - 1]));
      NamePlace(h, t, LastOffsets(rs + batch[..i - 1]), batch[i - 1].name, |File(rs + batch[..i - 1])|);
      AppendMeaning(rs + batch[..i - 1], batch[i - 1]);
      assert rs + batch[..i] == (rs + batch[..i - 1]) + [batch[i - 1]];
    }
  }

  /** What the lookup of the `i`-th entry reads when the entries before it are in the index. */
  function EntryReads(h: Hasher, owner: seq<Option<Name>>, rs: seq<Record>, batch: seq<Record>, file: seq<byte>, i: nat): seq<nat>
    requires |owner| > 0 && i < |batch|
  {
    Lookup(h, BucketsOf(h, PlaceAll(owner, NameHome(h), Names(batch[..i])), LastOffsets(rs + batch[..i])), file, batch[i].name).sizes
  }

  /** How many entries, from the `i`-th on, are in the index when the loop over the batch ends. */
  function Placed(h: Hasher, owner: seq<Option<Name>>, rs: seq<Record>, batch: seq<Record>, file: seq<byte>, script: seq<Reply>, i: nat): (n: nat)
    requires |owner| > 0 && i <= |batch|
    ensures i <= n <= |batch|
    decreases |batch| - i
  {
    if i == |batch| then i
    else
      var served := ServeReads(script, EntryReads(h, owner, rs, batch, file, i));
      if served.ok then Placed(h, owner, rs, batch, file, served.rest, i + 1) else i
  }

  lemma PlacedStep(h: Hasher, owner: seq<Option<Name>>, rs: seq<Record>, batch: seq<Record>, file: seq<byte>, script: seq<Reply>, i: nat)
    requires |owner| > 0 && i < |batch|
    ensures var t := PlaceAll(owner, NameHome(h), Names(batch[..i]));
      var served := ServeReads(script, Lookup(h, BucketsOf(h, t, LastOffsets(rs + batch[..i])), file, batch[i].name).sizes);
      Placed(h, owner, rs, batch, file, script, i) == if served.ok then Placed(h, owner, rs, batch, file, served.rest, i + 1) else i
  {
  }

  lemma PlacedAll(h: Hasher, owner: seq<Option<Name>>, rs: seq<Record>, batch: seq<Record>, file: seq<byte>, script: seq<Reply>)
    requires |owner| > 0
    ensures Placed(h, owner, rs, batch, file, script, |batch|) == |batch| && batch[..|batch|] == batch
  {
  }

  /** The same when growth for the batch comes first and the append takes one reply. */
  function PlacedAfter(h: Hasher, f: real, owner: seq<Option<Name>>, items: nat, rs: seq<Record>, batch: seq<Record>, file: seq<byte>, script: seq<Reply>): nat
    requires f > 0.0 && |owner| > 0
  {
    if script == [] then 0 else Placed(h, Ensured(h, f, owner, items + |batch|), rs, batch, file, script[1..], 0)
  }

  lemma PlacedAfterIs(h: Hasher, f: real, owner: seq<Option<Name>>, items: nat, rs: seq<Record>, batch: seq<Record>, script: seq<Reply>)
    requires f > 0.0 && |owner| > 0
    ensures forall file :: script != [] ==>
      PlacedAfter(h, f, owner, items, rs, batch, file, script) == Placed(h, Ensured(h, f, owner, items + |batch|), rs, batch, file, script[1..], 0)
  {
  }

  ghost predicate InLog(h: Hasher, owner: seq<Option<Name>>, rs: seq<Record>, batch: seq<Record>, file: seq<byte>) {
    TableOf(h, owner, LastOffsets(rs)) && Occupied(owner) + |batch| < |owner| && AllStorable(rs + batch) && File(rs + batch) <= file
  }

  /** An entry's lookup reads exactly when a name with its hash is stored or comes before it in the batch. */
  lemma EntryReadsIf(h: Hasher, owner: seq<Option<Name>>, rs: seq<Record>, batch: seq<Record>, file: seq<byte>, i: nat)
    requires InLog(h, owner, rs, batch, file) && i < |batch|
    ensures |owner| > 0
    ensures var sizes := EntryReads(h, owner, rs, batch, file, i);
      if SharesHash(h, Contents(rs + batch[..i]).Keys, batch[i].name) then StartsWithHeader(sizes) else sizes == []
  {
    hide *;
    LogOfBatch(h, owner, rs, batch, file, i);
    BatchTable(h, owner, rs, batch, i);
    LogReads(h, PlaceAll(owner, NameHome(h), Names(batch[..i])), rs + batch[..i], file, batch[i].name);
    EntryReadsAre(h, owner, rs, batch, file, i);
  }

  lemma EntryReadsAre(h: Hasher, owner: seq<Option<Name>>, rs: seq<Record>, batch: seq<Record>, file: seq<byte>, i: nat)
    requires |owner| > 0 && i < |batch|
    ensures EntryReads(h, owner, rs, batch, file, i)
         == Lookup(h, BucketsOf(h, PlaceAll(owner, NameHome(h), Names(batch[..i])), LastOffsets(rs + batch[..i])), file, batch[i].name).sizes
  {
  }

  lemma LogOfBatch(h: Hasher, owner: seq<Option<Name>>, rs: seq<Record>, batch: seq<Record>, file: seq<byte>, i: nat)
    requires InLog(h, owner, rs, batch, file) && i <= |batch|
    ensures TableOf(h, owner, LastOffsets(rs)) && Occupied(owner) + |batch| < |owner|
    ensures AllStorable(rs + batch[..i]) && File(rs + batch[..i]) <= file
  {
    hide TableOf, Occupied, File, Storable;
    var log := rs + batch[..i];
    assert log == (rs + batch)[..|rs| + i];
    FilePrefix(rs + batch, |rs| + i);
    forall j | 0 <= j < |log| ensures Storable(log[j]) { assert log[j] == (rs + batch)[j]; }
  }

  /** No entry after the first has the index hash of a name stored or listed before it. */
  ghost predicate NoSharedHash(h: Hasher, rs: seq<Record>, batch: seq<Record>) {
    forall i :: 1 <= i < |batch| ==> !SharesHash(h, Contents(rs + batch[..i]).Keys, batch[i].name)
  }

  /** Replies that serve every entry before the `k`-th and refuse the `k`-th. */
  function RefusedAt(h: Hasher, owner: seq<Option<Name>>, rs: seq<Record>, batch: seq<Record>, file: seq<byte>, i: nat, k: nat): seq<Reply>
    requires |owner| > 0 && i <= k < |batch|
    decreases k - i
  {
    if i == k then [Refused] else InFull(EntryReads(h, owner, rs, batch, file, i)) + RefusedAt(h, owner, rs, batch, file, i + 1, k)
  }

  lemma {:induction false} RefusedAtStops(h: Hasher, owner: seq<Option<Name>>, rs: seq<Record>, batch: seq<Record>, file: seq<byte>, i: nat, k: nat)
    requires |owner| > 0 && i <= k < |batch| && StartsWithHeader(EntryReads(h, owner, rs, batch, file, k))
    ensures Placed(h, owner, rs, batch, file, RefusedAt(h, owner, rs, batch, file, i, k), i) == k
    decreases k - i
  {
    hide EntryReads;
    if i < k {
      RefusedAtStops(h, owner, rs, batch, file, i + 1, k);
      ServedInFull(EntryReads(h, owner, rs, batch, file, i), RefusedAt(h, owner, rs, batch, file, i + 1, k));
    }
  }

  lemma {:induction false} NoReadsPlaceAll(h: Hasher, owner: seq<Option<Name>>, rs: seq<Record>, batch: seq<Record>, file: seq<byte>,
                                           script: seq<Reply>, i: nat)
    requires |owner| > 0 && i <= |batch| && forall k :: i <= k < |batch| ==> EntryReads(h, owner, rs, batch, file, k) == []
    ensures Placed(h, owner, rs, batch, file, script, i) == |batch|
    decreases |batch| - i
  {
    hide EntryReads;
    if i < |batch| { NoReadsPlaceAll(h, owner, rs, batch, file, script, i + 1); }
  }

  /**
   A read refused by the system leaves a batch all or nothing, whatever the
   replies, if and only if no entry after the first has the index hash of a name
   that is stored or comes before it.
   */
  lemma RefusalIsHarmless(h: Hasher, owner: seq<Option<Name>>, rs: seq<Record>, batch: seq<Record>, file: seq<byte>)
    requires InLog(h, owner, rs, batch, file)
    ensures |owner| > 0
    ensures NoSharedHash(h, rs, batch) <==>
      forall script :: Placed(h, owner, rs, batch, file, script, 0) == 0 || Placed(h, owner, rs, batch, file, script, 0) == |batch|
  {
    hide InLog, EntryReads, SharesHash, Placed;
    forall i | 0 <= i < |batch|
      ensures |owner| > 0
      ensures var sizes := EntryReads(h, owner, rs, batch, file, i);
        if SharesHash(h, Contents(rs + batch[..i]).Keys, batch[i].name) then StartsWithHeader(sizes) else sizes == []
    {
      EntryReadsIf(h, owner, rs, batch, file, i);
    }
    HasSlots(h, owner, rs, batch, file);
    if NoSharedHash(h, rs, batch) {
      forall script ensures Placed(h, owner, rs, batch, file, script, 0) == 0 || Placed(h, owner, rs, batch, file, script, 0) == |batch| {
        AfterFirst(h, owner, rs, batch, file, script);
      }
    } else {
      var i :| 1 <= i < |batch| && SharesHash(h, Contents(rs + batch[..i]).Keys, batch[i].name);
      RefusedAtStops(h, owner, rs, batch, file, 0, i);
      assert Placed(h, owner, rs, batch, file, RefusedAt(h, owner, rs, batch, file, 0, i), 0) == i;
    }
  }

  lemma HasSlots(h: Hasher, owner: seq<Option<Name>>, rs: seq<Record>, batch: seq<Record>, file: seq<byte>)
    requires InLog(h, owner, rs, batch, file)
    ensures |owner| > 0
  {
  }

  lemma AfterFirst(h: Hasher, owner: seq<Option<Name>>, rs: seq<Record>, batch: seq<Record>, file: seq<byte>, script: seq<Reply>)
    requires |owner| > 0 && forall k :: 1 <= k < |batch| ==> EntryReads(h, owner, rs, batch, file, k) == []
    ensures Placed(h, owner, rs, batch, file, script, 0) == 0 || Placed(h, owner, rs, batch, file, script, 0) == |batch|
  {
    hide EntryReads;
    if batch != [] {
      var served := ServeReads(script, EntryReads(h, owner, rs, batch, file, 0));
      if served.ok { NoReadsPlaceAll(h, owner, rs, batch, file, served.rest, 1); }
    }
  }

  // ---- The table a rebuild ends with --------------------------------------------------------

  /** Room is made before every record, new name or not; then its name takes its place. */
  function RebuiltTable(h: Hasher, f: real, owner: seq<Option<Name>>, log: seq<Record>): (r: seq<Option<Name>>)
    requires f > 0.0 && |owner| > 0
    ensures |r| > 0
  {
    if log == [] then owner
    else
      var t := RebuiltTable(h, f, owner, log[..|log| - 1]);
      Place(Ensured(h, f, t, Occupied(t) + 1), NameHome(h), log[|log| - 1].name)
  }

  lemma RebuiltStarts(h: Hasher, f: real, owner: seq<Option<Name>>, log: seq<Record>)
    requires f > 0.0 && |owner| > 0
    ensures RebuiltTable(h, f, owner, log[..0]) == owner
  {
  }

  lemma RebuiltStep(h: Hasher, f: real, owner: seq<Option<Name>>, log: seq<Record>, i: nat)
    requires f > 0.0 && |owner| > 0 && i < |log|
    ensures var t := RebuiltTable(h, f, owner, log[..i]);
      RebuiltTable(h, f, owner, log[..i + 1]) == Place(Ensured(h, f, t, Occupied(t) + 1), NameHome(h), log[i].name)
  {
    hide Ensured, Place, Occupied, NameHome;
    assert log[..i + 1][..i] == log[..i];
  }

  /** A rebuilt table is within the load factor, as every live one is. */
  lemma {:induction false} RebuiltIsWithin(h: Hasher, f: real, owner: seq<Option<Name>>, log: seq<Record>)
    requires 0.0 < f < 0.95 && TableOf(h, owner, map[])
    ensures var r := RebuiltTable(h, f, owner, log);
      |owner| > 0 && TableOf(h, r, LastOffsets(log)) && |r| >= |owner| && !Over(f, Occupied(r), |r|)
  {
    hide *;
    OffsetFacts(h, owner, map[]);
    if log == [] {
      EmptyLog();
      NothingIsOver(f, |owner|);
      RebuiltStarts(h, f, owner, log);
      assert log[..0] == log;
    } else {
      var n := |log| - 1;
      var init, last := log[..n], log[n];
      assert log == init + [last] && log[..n + 1] == log;
      RebuiltIsWithin(h, f, owner, init);
      var t := RebuiltTable(h, f, owner, init);
      RebuiltStep(h, f, owner, log, n);
      GrowthIsInvisible(h, f, t, LastOffsets(init), 1);
      EnsuredSize(h, f, t, Occupied(t) + 1);
      NamePlace(h, Ensured(h, f, t, Occupied(t) + 1), LastOffsets(init), last.name, |File(init)|);
      AppendMeaning(init, last);
      FewerIsNotOver(f, Occupied(RebuiltTable(h, f, owner, log)), Occupied(t) + 1, |Ensured(h, f, t, Occupied(t) + 1)|);
    }
  }

  lemma NothingIsOver(f: real, n: nat)
    requires f > 0.0 && n > 0
    ensures !Over(f, 0, n)
  {
  }

  lemma FewerIsNotOver(f: real, a: nat, b: nat, n: nat)
    requires n > 0 && a <= b && !Over(f, b, n)
    ensures !Over(f, a, n)
  {
    OverIsMore(f, a, n);
    OverIsMore(f, b, n);
  }

  /** Room for so many names is a size within the load factor. */
  lemma EnsuredSize(h: Hasher, f: real, owner: seq<Option<Name>>, items: nat)
    requires 0.0 < f < 0.95 && |owner| > 0
    ensures |Ensured(h, f, owner, items)| >= |owner| && !Over(f, items, |Ensured(h, f, owner, items)|)
  {
    hide Over, Rehash, RoundUp;
    var m := Grown(f, items, |owner|);
    RoundUpIsLeast(m);
    MoreIsNotOver(f, items, m, |Ensured(h, f, owner, items)|);
  }

  lemma MoreIsNotOver(f: real, items: nat, n: nat, m: nat)
    requires f > 0.0 && 0 < n <= m && !Over(f, items, n)
    ensures !Over(f, items, m)
  {
    OverIsMore(f, items, n);
    OverIsMore(f, items, m);
    if n < m { Scaled(n as real, m as real, f); }
  }

  // ---- Scanning and reopening ---------------------------------------------------------------

  lemma EmptyLog()
    ensures AllStorable([]) && LastOffsets([]) == map[] && |File([])| == FILE_HEADER_SIZE
    ensures forall log: seq<Record> :: File([]) <= File(log)
  {
    forall log: seq<Record> ensures File([]) <= File(log) { FilePrefix(log, 0); }
  }

  lemma LogStarts(log: seq<Record>)
    ensures log[..0] == [] && |File(log[..0])| == FILE_HEADER_SIZE
  {
  }

  lemma LogGoesOn(log: seq<Record>, i: nat)
    requires i <= |log| && AllStorable(log) && |File(log[..i])| < |File(log)|
    ensures i < |log| && RecordIsAt(File(log), |File(log[..i])|, log[i])
    ensures log[..i + 1] == log[..i] + [log[i]] && File(log[..i + 1]) <= File(log)
    ensures |File(log[..i + 1])| == |File(log[..i])| + |Encode(log[i])| <= |File(log)|
    ensures AllStorable(log[..i])
  {
    assert log[..|log|] == log;
    NextRecord(log, i);
    FilePrefix(log, i + 1);
  }

  lemma LogEnds(log: seq<Record>, i: nat)
    requires i <= |log| && |File(log[..i])| >= |File(log)|
    ensures log[..i] == log
  {
    if i < |log| {
      FilePrefix(log, i + 1);
      assert log[..i + 1] == log[..i] + [log[i]];
      FileAppend(log[..i], log[i]);
      assert false;
    }
  }

  lemma HeaderFields(r: Record)
    ensures var hd := HeaderOf(r);
      IsValidRecordHeader(hd) && hd.columnSize == |r.name.column| && hd.keySize == |r.name.key| && hd.valueSize == |r.value|
    ensures |Encode(r)| == RECORD_HEADER_SIZE + |r.name.column| + |r.name.key| + |r.value|
  {
  }

  lemma ReadNameIs(file: seq<byte>, offset: nat, r: Record)
    requires RecordIsAt(file, offset, r)
    ensures ReadName(file, offset, HeaderOf(r)) == Some(r.name)
  {
    ReadBack(file, offset, r);
  }

  function FilledCount(buckets: seq<IndexBucket>): nat {
    if buckets == [] then 0
    else FilledCount(buckets[..|buckets| - 1]) + (if buckets[|buckets| - 1].hash != 0 then 1 else 0)
  }

  lemma {:induction false} FilledIsOccupied(h: Hasher, owner: seq<Option<Name>>, offsets: map<Name, nat>)
    ensures FilledCount(BucketsOf(h, owner, offsets)) == Occupied(owner)
  {
    if owner != [] {
      var n := |owner| - 1;
      FilledIsOccupied(h, owner[..n], offsets);
      assert BucketsOf(h, owner, offsets)[..n] == BucketsOf(h, owner[..n], offsets);
      OccupiedAppend(owner[..n], owner[n]);
      assert owner == owner[..n] + [owner[n]];
    }
  }

  ghost predicate LayoutIsValid(magic: seq<byte>, version: nat, headerSize: nat, fileSize: nat,
                                buckets: seq<IndexBucket>, itemCount: nat) {
    && magic == INDEX_MAGIC && version == STORAGE_VERSION && headerSize == INDEX_HEADER_SIZE
    && IsPowerOfTwo(|buckets|) && fileSize == INDEX_HEADER_SIZE + |buckets| * INDEX_BUCKET_SIZE
    && itemCount == FilledCount(buckets) <= |buckets|
  }

  ghost function FilledIndices(buckets: seq<IndexBucket>): set<nat> { set i: nat | i < |buckets| && buckets[i].hash != 0 }

  lemma {:induction false} FilledCountIs(buckets: seq<IndexBucket>)
    ensures FilledCount(buckets) == |FilledIndices(buckets)| <= |buckets|
  {
    if buckets != [] {
      var n := |buckets| - 1;
      FilledCountIs(buckets[..n]);
      var before, all := FilledIndices(buckets[..n]), FilledIndices(buckets);
      if buckets[n].hash != 0 {
        assert all == before + {n} && n !in before;
      } else {
        assert all == before;
      }
    }
  }

  /**
   What the checks refuse, one by one: any other magic, version or header size, a
   bucket count that is no power of two, any other file size, and any count but
   that of the buckets with a hash.
   */
  lemma LayoutAccepts(magic: seq<byte>, version: nat, headerSize: nat, fileSize: nat, buckets: seq<IndexBucket>, itemCount: nat)
    ensures LayoutIsValid(magic, version, headerSize, fileSize, buckets, itemCount) <==>
      && magic == [76, 85, 77, 73, 48, 48, 48, 50] && version == 1 && headerSize == 64
      && IsPowerOfTwo(|buckets|) && fileSize == 64 + 16 * |buckets|
      && itemCount == |FilledIndices(buckets)|
  {
    assert INDEX_MAGIC == [76, 85, 77, 73, 48, 48, 48, 50];
    FilledCountIs(buckets);
  }
}
