/**
 What a refused read can cost.  A batch of two stored keys whose second lookup is
 refused leaves the first key's bucket pointing at the append offset; the next
 batch writes there, and the first key is gone.
 */
module RefusedRead {
  import opened Wrappers
  import opened Bytes
  import opened Hash
  import opened Probing
  import opened FileIO
  import opened RecordLog
  import opened ObjectIndex
  import opened ObjectStore

  /** The file after an append that goes through. */
  function Appended(data: seq<byte>, rs: seq<Record>, batch: seq<Record>): seq<byte> {
    PWrite(data, EncodeAll(batch), |File(rs)|)
  }

  /** Replies that take the batch whole, serve the lookup of its first entry and refuse that of its second. */
  function RefusesSecond(h: Hasher, owner: seq<Option<Name>>, rs: seq<Record>, batch: seq<Record>, data: seq<byte>): seq<Reply>
    requires |owner| > 0 && |batch| == 2
  {
    [Moved(|EncodeAll(batch)|)] + RefusedAt(h, owner, rs, batch, Appended(data, rs, batch), 0, 1)
  }

  /** With such replies exactly the first entry is indexed. */
  lemma StopsAfterFirst(h: Hasher, owner: seq<Option<Name>>, rs: seq<Record>, batch: seq<Record>, data: seq<byte>)
    requires TableOf(h, owner, LastOffsets(rs)) && Occupied(owner) + 2 < |owner| && File(rs) <= data
    requires AllStorable(rs) && AllStorable(batch) && |batch| == 2 && batch[1].name in Contents(rs)
    ensures |owner| > 0
    ensures Placed(h, owner, rs, batch, Appended(data, rs, batch), RefusesSecond(h, owner, rs, batch, data)[1..], 0) == 1
  {
    hide TableOf, File, Occupied, EncodeAll, PWrite, LastOffsets, Contents, EntryReads, RefusedAt, Placed, AllStorable, InLog;
    var file := Appended(data, rs, batch);
    LogWritten(data, rs, batch, h, owner);
    EntryReadsIf(h, owner, rs, batch, file, 1);
    SecondIsStored(h, rs, batch);
    RefusedAtStops(h, owner, rs, batch, file, 0, 1);
    assert RefusesSecond(h, owner, rs, batch, data)[1..] == RefusedAt(h, owner, rs, batch, file, 0, 1);
  }

  lemma SecondIsStored(h: Hasher, rs: seq<Record>, batch: seq<Record>)
    requires |batch| == 2 && batch[1].name in Contents(rs)
    ensures SharesHash(h, Contents(rs + batch[..1]).Keys, batch[1].name)
  {
    assert rs + batch[..1] == rs + [batch[0]];
    AppendMeaning(rs, batch[0]);
    Shares(h, Contents(rs + batch[..1]).Keys, batch[1].name, batch[1].name);
  }

  /** Where each bucket leads after `next` was written over the record that `lost` was pointed at. */
  function Overwritten(rs: seq<Record>, lost: Name, next: Record): Name -> Record {
    (m: Name) => if m == lost || m == next.name then next else Record(m, if m in Contents(rs) then Contents(rs)[m] else [])
  }

  lemma OverwrittenIsReadable(h: Hasher, owner: seq<Option<Name>>, offsets: map<Name, nat>, rs: seq<Record>, before: seq<byte>, lost: Name, next: Record)
    requires AllStorable(rs) && File(rs) <= before && Storable(next)
    requires offsets == LastOffsets(rs)[lost := |File(rs)|][next.name := |File(rs)|]
    ensures Readable(h, owner, offsets, PWrite(before, Encode(next), |File(rs)|), Overwritten(rs, lost, next))
  {
    hide File, Encode, LastOffsets, Contents, PWrite;
    var after := PWrite(before, Encode(next), |File(rs)|);
    PrefixWritten(before, Encode(next), File(rs));
    PWriteMeaning(before, Encode(next), |File(rs)|);
    assert Encode(next) != [] by { HeaderFields(next); }
    assert RecordIsAt(after, |File(rs)|, next);
    forall m | m in offsets ensures RecordIsAt(after, offsets[m], Overwritten(rs, lost, next)(m)) {
      if m != lost && m != next.name {
        OffsetsPointAtRecords(rs, after, m);
        assert Overwritten(rs, lost, next)(m) == Record(m, Contents(rs)[m]);
      } else {
        assert offsets[m] == |File(rs)| && Overwritten(rs, lost, next)(m) == next;
      }
    }
  }

  /** Once its record is written over, the key's lookup ends at an empty bucket. */
  lemma LostInLookup(h: Hasher, owner: seq<Option<Name>>, offsets: map<Name, nat>, rs: seq<Record>, before: seq<byte>, lost: Name, next: Record)
    requires AllStorable(rs) && File(rs) <= before && Storable(next) && next.name != lost && TableOf(h, owner, offsets)
    requires offsets == LastOffsets(rs)[lost := |File(rs)|][next.name := |File(rs)|]
    ensures |owner| > 0
    ensures Lookup(h, BucketsOf(h, owner, offsets), PWrite(before, Encode(next), |File(rs)|), lost).sight.Free?
  {
    hide *;
    var after := PWrite(before, Encode(next), |File(rs)|);
    OffsetFacts(h, owner, offsets);
    OverwrittenIsReadable(h, owner, offsets, rs, before, lost, next);
    NoneBefore(owner, Home(NameHome(h), lost, |owner|));
    NeverLost(rs, lost, next, offsets);
    LookupMisses(h, owner, offsets, after, Overwritten(rs, lost, next), lost, 0);
    LookupStarts(h, BucketsOf(h, owner, offsets), after, lost);
    SightAfter(LookupFrom(IndexHash(h, lost), BucketsOf(h, owner, offsets), after, lost, 0));
  }

  lemma SightAfter(w: Walk)
    ensures After(Matched([], None), w).sight == w.sight
  {
  }

  lemma NeverLost(rs: seq<Record>, lost: Name, next: Record, offsets: map<Name, nat>)
    requires next.name != lost
    ensures forall m :: m in offsets ==> Overwritten(rs, lost, next)(m).name != lost
  {
  }

  lemma NoneBefore(owner: seq<Option<Name>>, start: nat)
    requires start < |owner|
    ensures forall j :: 0 <= j < |owner| && Dist(start, j, |owner|) < 0 ==> owner[j].Some?
  {
  }

  lemma OneRecord(column: seq<byte>, e: StructEntry)
    ensures BatchRecords(column, [e]) == [Record(Name(column, e.key), e.value)]
    ensures EncodeAll(BatchRecords(column, [e])) == Encode(Record(Name(column, e.key), e.value))
    ensures forall offsets: map<Name, nat>, base: nat ::
      OffsetsAfter(offsets, base, BatchRecords(column, [e])) == offsets[Name(column, e.key) := base]
  {
    var r := Record(Name(column, e.key), e.value);
    var batch := BatchRecords(column, [e]);
    assert batch == [r] && batch[..0] == [];
    assert EncodeAll(batch) == [] + Encode(r) == Encode(r);
    forall offsets: map<Name, nat>, base: nat ensures OffsetsAfter(offsets, base, batch) == offsets[r.name := base] {
      assert OffsetsAfter(offsets, base, batch[..0]) == offsets;
    }
  }

  /** The three keys and the replies of the run below. */
  ghost predicate MayLose(s: Store, column: seq<byte>, a: StructEntry, b: StructEntry, c: StructEntry)
    reads s, s.buckets, s.file
  {
    && s.Valid() && s.open && !s.readOnly && s.maxVectors >= 8
    && |column| < TWO32 && |a.key| < TWO32 && |b.key| < TWO32 && |c.key| < TWO32
    && |a.value| < TWO64 && |b.value| < TWO64 && |c.value| < TWO64
    && Name(column, a.key) in Contents(s.records) && Name(column, b.key) in Contents(s.records)
    && Name(column, c.key) !in Contents(s.records)
    && |s.owner| > 0
    && s.file.script == RefusesSecond(s.h, Ensured(s.h, s.f, s.owner, s.itemCount + 2), s.records, BatchRecords(column, [a, b]), s.file.data)
  }

  lemma MayLoseFacts(s: Store, column: seq<byte>, a: StructEntry, b: StructEntry, c: StructEntry)
    requires MayLose(s, column, a, b, c)
    ensures s.Valid() && s.open && !s.readOnly && s.f > 0.0 && |s.owner| > 0
    ensures |column| < TWO32 && |a.key| < TWO32 && |b.key| < TWO32 && |c.key| < TWO32
    ensures |a.value| < TWO64 && |b.value| < TWO64 && |c.value| < TWO64
    ensures Name(column, a.key) in Contents(s.records) && Name(column, c.key) !in Contents(s.records)
    ensures BatchRecords(column, [a, b])[..1] == BatchRecords(column, [a]) && Storable(Record(Name(column, c.key), c.value))
    ensures Appended(s.file.data, s.records, BatchRecords(column, [a, b]))
         == PWrite(s.file.data, EncodeAll(BatchRecords(column, [a, b])), |File(s.records)|)
  {
    assert BatchRecords(column, [a, b])[..1] == BatchRecords(column, [a]);
  }

  lemma RoomForTwo(s: Store)
    requires s.Valid() && s.f > 0.0 && |s.owner| > 0
    ensures var t := Ensured(s.h, s.f, s.owner, s.itemCount + 2);
      TableOf(s.h, t, LastOffsets(s.records)) && Occupied(t) + 2 < |t|
    ensures AllStorable(s.records) && File(s.records) <= s.file.data && s.offsets == LastOffsets(s.records)
    ensures s.Tabled() && s.appendOffset == |File(s.records)|
  {
    hide *;
    s.ValidFacts();
    s.IndexedFacts();
    GrowthIsInvisible(s.h, s.f, s.owner, LastOffsets(s.records), 2);
  }

  lemma TwoRecords(s: Store, column: seq<byte>, a: StructEntry, b: StructEntry, c: StructEntry)
    requires MayLose(s, column, a, b, c)
    ensures var batch := BatchRecords(column, [a, b]);
      |batch| == 2 && AllStorable(batch) && batch[1].name in Contents(s.records)
    ensures |s.owner| > 0 && s.f > 0.0
    ensures s.file.script
         == RefusesSecond(s.h, Ensured(s.h, s.f, s.owner, s.itemCount + 2), s.records, BatchRecords(column, [a, b]), s.file.data)
    ensures s.open && !s.readOnly && 8 <= s.maxVectors
  {
    hide File, TableOf, BucketsOf, Contents;
  }

  lemma TakesTwo(s: Store, column: seq<byte>, a: StructEntry, b: StructEntry)
    requires s.open && !s.readOnly && 8 <= s.maxVectors && |column| < TWO32 && |a.key| < TWO32 && |b.key| < TWO32 && s.f > 0.0
    requires |s.owner| > 0
    requires s.file.script
         == RefusesSecond(s.h, Ensured(s.h, s.f, s.owner, s.itemCount + 2), s.records, BatchRecords(column, [a, b]), s.file.data)
    ensures s.Appends(column, [a, b]) && s.file.script != []
  {
    hide EncodeAll, RefusedAt;
  }

  /** The batch of both keys will end after its first entry. */
  lemma WillStop(s: Store, column: seq<byte>, a: StructEntry, b: StructEntry, c: StructEntry)
    requires MayLose(s, column, a, b, c)
    ensures s.f > 0.0 && |s.owner| > 0 && s.Appends(column, [a, b])
    ensures var batch := BatchRecords(column, [a, b]);
      PlacedAfter(s.h, s.f, s.owner, s.itemCount, s.records, batch, Appended(s.file.data, s.records, batch), s.file.script) == 1
  {
    hide *;
    MayLoseFacts(s, column, a, b, c);
    TwoRecords(s, column, a, b, c);
    RoomForTwo(s);
    TakesTwo(s, column, a, b);
    var batch := BatchRecords(column, [a, b]);
    StopsAfterFirst(s.h, Ensured(s.h, s.f, s.owner, s.itemCount + 2), s.records, batch, s.file.data);
    PlacedAfterIs(s.h, s.f, s.owner, s.itemCount, s.records, batch, s.file.script);
  }

  /** The state between the two batches. */
  lemma Between(s: Store, column: seq<byte>, a: StructEntry, b: StructEntry, c: StructEntry)
    requires MayLose(s, column, a, b, c)
    ensures var rs, lost := s.records, Name(column, a.key);
      var between := Appended(s.file.data, rs, BatchRecords(column, [a, b]));
      && File(rs) <= between && AllStorable(rs) && s.appendOffset == |File(rs)|
      && OffsetsAfter(s.offsets, s.appendOffset, BatchRecords(column, [a])) == LastOffsets(rs)[lost := |File(rs)|]
      && NewNames(LastOffsets(rs)[lost := |File(rs)|].Keys, BatchRecords(column, [c]))
  {
    hide *;
    MayLoseFacts(s, column, a, b, c);
    TwoRecords(s, column, a, b, c);
    RoomForTwo(s);
    OneRecord(column, a);
    OneRecord(column, c);
    AppendedKeeps(s.file.data, s.records, BatchRecords(column, [a, b]));
    StaysNew(s.records, Name(column, a.key), BatchRecords(column, [c]));
  }

  lemma AppendedKeeps(data: seq<byte>, rs: seq<Record>, batch: seq<Record>)
    requires File(rs) <= data
    ensures File(rs) <= Appended(data, rs, batch)
  {
    hide File, EncodeAll, PWrite;
    PrefixWritten(data, EncodeAll(batch), File(rs));
  }

  lemma StaysNew(rs: seq<Record>, lost: Name, next: seq<Record>)
    requires |next| == 1 && lost in Contents(rs) && next[0].name !in Contents(rs)
    ensures NewNames(LastOffsets(rs)[lost := |File(rs)|].Keys, next)
  {
    SameKeys(rs);
  }

  /**
   For every sound store that holds two keys there are replies of the system that
   lose one of them: the batch of both keys ends in an error after its first
   entry, the next batch succeeds, and then the first key is not found.
   */
  method RefusedReadLosesKey(s: Store, column: seq<byte>, a: StructEntry, b: StructEntry, c: StructEntry)
    returns (first: Status, second: Status, third: Status)
    requires MayLose(s, column, a, b, c)
    modifies s, s.file, s.buckets
    ensures Name(column, a.key) in old(Contents(s.records))
    ensures first == IoError && second == Ok && third == NotFound
  {
    hide *;
    var lost := Name(column, a.key);
    ghost var rs := s.records;
    MayLoseFacts(s, column, a, b, c);
    RoomForTwo(s);
    WillStop(s, column, a, b, c);
    Between(s, column, a, b, c);
    ghost var placed;
    first, placed := s.WriteStructs(column, [a, b], false);
    ghost var between := s.file.data;
    assert placed == 1 && first == IoError;
    s.file.script := [];
    OneRecord(column, c);
    second, placed := s.WriteStructs(column, [c], true);
    assert BatchRecords(column, [c])[..1] == BatchRecords(column, [c]);
    s.TabledFacts();
    LostInLookup(s.h, s.owner, s.offsets, rs, between, lost, Record(Name(column, c.key), c.value));
    s.file.script := [];
    var value;
    third, value := s.GetStruct(lost);
  }
}
