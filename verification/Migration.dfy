/**
 Rewriting a value file of 48-byte legacy record headers into the current format.

 The source adds the column and key sizes as 32-bit words, so a record whose two
 sizes add up to 2^32 or more is measured short.  The migration is proved right
 exactly for the logs without such a record.
 */
module Migration {
  import opened Wrappers
  import opened Bytes
  import opened FileIO
  import opened RecordLog

  const LEGACY_HEADER_SIZE: nat := 48
  const COPY_BUFFER_SIZE: nat := 1024 * 1024

  /** Field widths of `LegacyValueRecordHeader`. */
  const LEGACY_WIDTHS: seq<nat> := [4, 2, 2, 8, 8, 8, 4, 4, 8]

  datatype LegacyHeader = LegacyHeader(magic: nat, version: nat, headerSize: nat, sequence: nat,
                                       columnHash: nat, keyHash: nat,
                                       columnSize: nat, keySize: nat, valueSize: nat)
  {
    function Fields(): seq<nat> {
      [magic, version, headerSize, sequence, columnHash, keyHash, columnSize, keySize, valueSize]
    }
  }

  datatype LegacyRecord = LegacyRecord(record: Record, sequence: nat, columnHash: nat, keyHash: nat)

  lemma LegacyWidthsSum()
    ensures Sum(LEGACY_WIDTHS) == LEGACY_HEADER_SIZE
  {
    assert LEGACY_WIDTHS[1..] == [2, 2, 8, 8, 8, 4, 4, 8];
    assert LEGACY_WIDTHS[1..][1..] == [2, 8, 8, 8, 4, 4, 8];
    assert LEGACY_WIDTHS[1..][1..][1..] == [8, 8, 8, 4, 4, 8];
    assert LEGACY_WIDTHS[1..][1..][1..][1..] == [8, 8, 4, 4, 8];
    assert LEGACY_WIDTHS[1..][1..][1..][1..][1..] == [8, 4, 4, 8];
    assert LEGACY_WIDTHS[1..][1..][1..][1..][1..][1..] == [4, 4, 8];
    assert LEGACY_WIDTHS[1..][1..][1..][1..][1..][1..][1..] == [4, 8];
    assert LEGACY_WIDTHS[1..][1..][1..][1..][1..][1..][1..][1..] == [8];
    assert Sum([8]) == 8;
    assert Sum([4, 8]) == 12;
    assert Sum([4, 4, 8]) == 16;
    assert Sum([8, 4, 4, 8]) == 24;
    assert Sum([8, 8, 4, 4, 8]) == 32;
  }

  function EncodeLegacyHeader(h: LegacyHeader): (b: seq<byte>)
    ensures |b| == LEGACY_HEADER_SIZE
  {
    LegacyWidthsSum();
    Pack(h.Fields(), LEGACY_WIDTHS)
  }

  function ParseLegacyHeader(b: seq<byte>): LegacyHeader
    requires |b| == LEGACY_HEADER_SIZE
  {
    LegacyWidthsSum();
    var f := Unpack(b, LEGACY_WIDTHS);
    LegacyHeader(f[0], f[1], f[2], f[3], f[4], f[5], f[6], f[7], f[8])
  }

  predicate IsValidLegacyRecordHeader(h: LegacyHeader) {
    h.magic == RECORD_MAGIC && h.version == STORAGE_VERSION && h.headerSize == LEGACY_HEADER_SIZE
  }

  function LegacyHeaderOf(l: LegacyRecord): LegacyHeader {
    var r := l.record;
    LegacyHeader(RECORD_MAGIC, STORAGE_VERSION, LEGACY_HEADER_SIZE, l.sequence, l.columnHash, l.keyHash,
                 |r.name.column|, |r.name.key|, |r.value|)
  }

  predicate LegacyStorable(l: LegacyRecord) {
    Storable(l.record) && l.sequence < TWO64 && l.columnHash < TWO64 && l.keyHash < TWO64
  }

  lemma LegacyRoundTrip(l: LegacyRecord)
    requires LegacyStorable(l)
    ensures ParseLegacyHeader(EncodeLegacyHeader(LegacyHeaderOf(l))) == LegacyHeaderOf(l)
  {
    LegacyWidthsSum();
    WidthBounds();
    UnpackPack(LegacyHeaderOf(l).Fields(), LEGACY_WIDTHS);
  }

  function Data(r: Record): seq<byte> { r.name.column + r.name.key + r.value }

  function EncodeLegacy(l: LegacyRecord): (b: seq<byte>)
    ensures |b| == LEGACY_HEADER_SIZE + |Data(l.record)|
  {
    EncodeLegacyHeader(LegacyHeaderOf(l)) + Data(l.record)
  }

  function EncodeLegacyAll(ls: seq<LegacyRecord>): seq<byte> {
    if ls == [] then [] else EncodeLegacy(ls[0]) + EncodeLegacyAll(ls[1..])
  }

  /** Magic `LUMV0001`, version 1, header size 24 and eight reserved bytes. */
  const LEGACY_FILE_HEADER: seq<byte> :=
    [76, 85, 77, 86, 48, 48, 48, 49, 1, 0, 0, 0, 24, 0, 0, 0, 0, 0, 0, 0, 0, 0, 0, 0]

  function LegacyFile(ls: seq<LegacyRecord>): seq<byte> { LEGACY_FILE_HEADER + EncodeLegacyAll(ls) }

  function Records(ls: seq<LegacyRecord>): (rs: seq<Record>)
    ensures |rs| == |ls| && forall i :: 0 <= i < |ls| ==> rs[i] == ls[i].record
  {
    seq(|ls|, i requires 0 <= i < |ls| => ls[i].record)
  }

  // ---- The migration -------------------------------------------------------

  /** The size the source computes: the first sum is on 32-bit words. */
  function RecordDataSize(h: LegacyHeader): nat {
    (h.columnSize + h.keySize) % TWO32 + h.valueSize
  }

  function NewHeader(h: LegacyHeader): RecordHeader {
    RecordHeader(RECORD_MAGIC, STORAGE_VERSION, RECORD_HEADER_SIZE, h.columnSize, h.keySize, h.valueSize)
  }

  /** One step: the header at `offset` and the data size, unless the step reports corruption. */
  function LegacyAt(file: seq<byte>, offset: nat): (r: Option<LegacyHeader>)
    ensures r.Some? ==> offset + LEGACY_HEADER_SIZE + RecordDataSize(r.value) <= |file|
  {
    var b := PRead(file, offset, LEGACY_HEADER_SIZE);
    if b == None then None else
      var h := ParseLegacyHeader(b.value);
      if !IsValidLegacyRecordHeader(h) || LEGACY_HEADER_SIZE + RecordDataSize(h) > |file| - offset then None
      else Some(h)
  }

  /** What the copy loop appends to the new file from `offset` on. */
  function Migrated(file: seq<byte>, offset: nat): Option<seq<byte>>
    decreases |file| - offset
  {
    if offset >= |file| then Some([]) else
      var h := LegacyAt(file, offset);
      if h == None then None else
        var from := offset + LEGACY_HEADER_SIZE;
        var to := from + RecordDataSize(h.value);
        var rest := Migrated(file, to);
        if rest == None then None else Some(EncodeHeader(NewHeader(h.value)) + file[from..to] + rest.value)
  }

  method MigrateLegacyValueFile(legacy: Kernel, migration: Kernel) returns (status: Status, destinationOffset: nat)
    requires legacy != migration && |legacy.data| >= FILE_HEADER_SIZE
    modifies legacy`script, migration
    ensures status in {Ok, Corruption, IoError}
    ensures status == Ok ==> Migrated(legacy.data, FILE_HEADER_SIZE).Some?
    ensures status == Ok ==> migration.data == FILE_HEADER + Migrated(legacy.data, FILE_HEADER_SIZE).value
    ensures status == Ok ==> destinationOffset == |migration.data|
    ensures status == Corruption ==> Migrated(legacy.data, FILE_HEADER_SIZE) == None
    ensures status == IoError ==> Refused in old(legacy.script) || Refused in old(migration.script)
    ensures forall r :: r in legacy.script ==> r in old(legacy.script)
    ensures forall r :: r in migration.script ==> r in old(migration.script)
  {
    hide LegacyAt, ParseLegacyHeader, EncodeHeader, NewHeader, RecordDataSize;
    var legacyFileSize := |legacy.data|;
    ghost var whole := Migrated(legacy.data, FILE_HEADER_SIZE);
    migration.data := [];
    destinationOffset := 0;
    status := WriteAllAt(migration, FILE_HEADER, 0);
    if status != Ok { return; }
    destinationOffset := FILE_HEADER_SIZE;
    assert migration.data == FILE_HEADER;
    assert whole.Some? ==> [] + whole.value == whole.value;
    var sourceOffset := FILE_HEADER_SIZE;
    while sourceOffset < legacyFileSize
      invariant FILE_HEADER_SIZE <= sourceOffset <= legacyFileSize == |legacy.data|
      invariant destinationOffset == |migration.data| >= FILE_HEADER_SIZE
      invariant whole == Prepend(migration.data[FILE_HEADER_SIZE..], Migrated(legacy.data, sourceOffset))
      invariant migration.data[..FILE_HEADER_SIZE] == FILE_HEADER
      invariant forall r :: r in legacy.script ==> r in old(legacy.script)
      invariant forall r :: r in migration.script ==> r in old(migration.script)
      decreases legacyFileSize - sourceOffset
    {
      ghost var done := migration.data;
      var recordDataSize;
      status, recordDataSize := MigrateRecord(legacy, migration, sourceOffset, destinationOffset);
      if status != Ok { return; }
      RecordCopied(legacy.data, sourceOffset, LegacyAt(legacy.data, sourceOffset).value, done, migration.data);
      sourceOffset := sourceOffset + LEGACY_HEADER_SIZE + recordDataSize;
      destinationOffset := destinationOffset + RECORD_HEADER_SIZE + recordDataSize;
    }
    SplitAt(migration.data, FILE_HEADER_SIZE);
    status := Ok;
  }

  /** The body of the outer loop: checks one legacy record and appends it in the new format. */
  method MigrateRecord(legacy: Kernel, migration: Kernel, sourceOffset: nat, destinationOffset: nat)
    returns (status: Status, recordDataSize: nat)
    requires legacy != migration && sourceOffset < |legacy.data| && destinationOffset == |migration.data|
    modifies legacy`script, migration
    ensures status in {Ok, Corruption, IoError}
    ensures status == Ok ==> LegacyAt(legacy.data, sourceOffset).Some?
    ensures status == Ok ==> recordDataSize == RecordDataSize(LegacyAt(legacy.data, sourceOffset).value)
    ensures status == Ok ==>
      var from := sourceOffset + LEGACY_HEADER_SIZE;
      migration.data == old(migration.data) + EncodeHeader(NewHeader(LegacyAt(legacy.data, sourceOffset).value))
                        + legacy.data[from..from + recordDataSize]
    ensures status == Corruption ==> LegacyAt(legacy.data, sourceOffset) == None
    ensures status == IoError ==> Refused in old(legacy.script) || Refused in old(migration.script)
    ensures forall r :: r in legacy.script ==> r in old(legacy.script)
    ensures forall r :: r in migration.script ==> r in old(migration.script)
  {
    hide ParseLegacyHeader, EncodeHeader, NewHeader, Zeros;
    recordDataSize := 0;
    var bytes;
    status, bytes := ReadAllAt(legacy, LEGACY_HEADER_SIZE, sourceOffset);
    if status != Ok { return; }
    var legacyHeader := ParseLegacyHeader(bytes);
    if !IsValidLegacyRecordHeader(legacyHeader) {
      return Corruption, 0;
    }
    recordDataSize := RecordDataSize(legacyHeader);
    var legacyRecordSize := LEGACY_HEADER_SIZE + recordDataSize;
    if legacyRecordSize > |legacy.data| - sourceOffset {
      return Corruption, 0;
    }
    var recordHeader := EncodeHeader(NewHeader(legacyHeader));
    status := WriteAllAt(migration, recordHeader, destinationOffset);
    if status != Ok { return; }
    status := CopyRecord(legacy, migration, recordDataSize, sourceOffset + LEGACY_HEADER_SIZE,
                         destinationOffset + RECORD_HEADER_SIZE);
  }

  /** One pass of the outer loop appends what `Migrated` says and moves on. */
  lemma RecordCopied(file: seq<byte>, offset: nat, h: LegacyHeader, done: seq<byte>, now: seq<byte>)
    requires LegacyAt(file, offset) == Some(h) && |done| >= FILE_HEADER_SIZE
    requires var from := offset + LEGACY_HEADER_SIZE;
      now == done + EncodeHeader(NewHeader(h)) + file[from..from + RecordDataSize(h)]
    ensures now[..FILE_HEADER_SIZE] == done[..FILE_HEADER_SIZE]
    ensures Prepend(done[FILE_HEADER_SIZE..], Migrated(file, offset))
         == Prepend(now[FILE_HEADER_SIZE..], Migrated(file, offset + LEGACY_HEADER_SIZE + RecordDataSize(h)))
  {
    var from, to := offset + LEGACY_HEADER_SIZE, offset + LEGACY_HEADER_SIZE + RecordDataSize(h);
    MigratedStep(file, offset, h, to);
    var piece := EncodeHeader(NewHeader(h)) + file[from..to];
    ConcatAssoc(done, EncodeHeader(NewHeader(h)), file[from..to]);
    DropConcat(done, piece, FILE_HEADER_SIZE);
    PrependTwice(done[FILE_HEADER_SIZE..], piece, Migrated(file, to));
  }

  /** Copies `size` bytes in chunks of at most the buffer size to the end of the new file. */
  method CopyRecord(legacy: Kernel, migration: Kernel, size: nat, source: nat, destination: nat) returns (status: Status)
    requires legacy != migration && source + size <= |legacy.data| && destination == |migration.data|
    modifies legacy`script, migration
    ensures status in {Ok, IoError}
    ensures status == Ok ==> migration.data == old(migration.data) + legacy.data[source..source + size]
    ensures status == IoError ==> Refused in old(legacy.script) || Refused in old(migration.script)
    ensures forall r :: r in legacy.script ==> r in old(legacy.script)
    ensures forall r :: r in migration.script ==> r in old(migration.script)
  {
    var remaining, recordSourceOffset, recordDestinationOffset := size, source, destination;
    while remaining > 0
      invariant 0 <= remaining <= size
      invariant recordSourceOffset == source + (size - remaining)
      invariant recordDestinationOffset == destination + (size - remaining)
      invariant migration.data == old(migration.data) + legacy.data[source..recordSourceOffset]
      invariant forall r :: r in legacy.script ==> r in old(legacy.script)
      invariant forall r :: r in migration.script ==> r in old(migration.script)
    {
      var chunkSize := if remaining < COPY_BUFFER_SIZE then remaining else COPY_BUFFER_SIZE;
      var copyBuffer;
      status, copyBuffer := ReadAllAt(legacy, chunkSize, recordSourceOffset);
      if status != Ok { return; }
      status := WriteAllAt(migration, copyBuffer, recordDestinationOffset);
      if status != Ok { return; }
      assert migration.data == old(migration.data)
          + (legacy.data[source..recordSourceOffset] + legacy.data[recordSourceOffset..recordSourceOffset + chunkSize]);
      remaining := remaining - chunkSize;
      recordSourceOffset := recordSourceOffset + chunkSize;
      recordDestinationOffset := recordDestinationOffset + chunkSize;
    }
    status := Ok;
  }

  lemma SplitAt(s: seq<byte>, k: nat)
    requires k <= |s|
    ensures s == s[..k] + s[k..] && s[k..] + [] == s[k..]
  {
  }

  function Prepend(a: seq<byte>, b: Option<seq<byte>>): Option<seq<byte>> {
    if b == None then None else Some(a + b.value)
  }

  lemma PrependTwice(a: seq<byte>, b: seq<byte>, c: Option<seq<byte>>)
    ensures Prepend(a, Prepend(b, c)) == Prepend(a + b, c)
  {
    if c.Some? { assert a + (b + c.value) == (a + b) + c.value; }
  }

  // ---- When it preserves the log ------------------------------------------

  predicate Measurable(l: LegacyRecord) {
    |l.record.name.column| + |l.record.name.key| < TWO32
  }

  lemma {:induction false} EncodeAllFront(r: Record, rest: seq<Record>)
    ensures EncodeAll([r] + rest) == Encode(r) + EncodeAll(rest)
  {
    hide Encode;
    var rs := [r] + rest;
    if rest == [] {
      assert rs[..0] == [] && rs == [r];
      assert [] + Encode(r) == Encode(r) + [];
    } else {
      var init, last := rest[..|rest| - 1], rest[|rest| - 1];
      assert rs[..|rs| - 1] == [r] + init;
      EncodeAllFront(r, init);
      ConcatAssoc(Encode(r), EncodeAll(init), Encode(last));
    }
  }

  /**
   The migration turns a legacy log into the log of the same records exactly when
   no record's column and key sizes overflow their 32-bit sum.
   */
  lemma MigrationIsExact(ls: seq<LegacyRecord>)
    requires forall l :: l in ls ==> LegacyStorable(l)
    ensures Migrated(LegacyFile(ls), FILE_HEADER_SIZE) == Some(EncodeAll(Records(ls)))
      <==> (forall l :: l in ls ==> Measurable(l))
  {
    MigratedFrom(LEGACY_FILE_HEADER, ls);
  }

  /** A successful migration of such a log parses back to the same names and values. */
  lemma MigrationPreservesMeaning(ls: seq<LegacyRecord>)
    requires forall l :: l in ls ==> LegacyStorable(l) && Measurable(l)
    ensures var m := Migrated(LegacyFile(ls), FILE_HEADER_SIZE);
      m.Some? && Parse(FILE_HEADER + m.value, FILE_HEADER_SIZE) == Some(Records(ls))
  {
    MigrationIsExact(ls);
    var rs := Records(ls);
    assert forall j :: 0 <= j < |rs| ==> rs[j] == ls[j].record && ls[j] in ls;
    assert rs[..0] == [] && rs[0..] == rs;
    ParseFile(rs, 0);
  }

  lemma MigratedStep(file: seq<byte>, offset: nat, h: LegacyHeader, to: nat)
    requires LegacyAt(file, offset) == Some(h) && to == offset + LEGACY_HEADER_SIZE + RecordDataSize(h)
    ensures to <= |file|
    ensures Migrated(file, offset)
         == Prepend(EncodeHeader(NewHeader(h)) + file[offset + LEGACY_HEADER_SIZE..to], Migrated(file, to))
  {
  }

  lemma {:induction false} MigratedFrom(before: seq<byte>, ls: seq<LegacyRecord>)
    requires forall l :: l in ls ==> LegacyStorable(l)
    ensures Migrated(before + EncodeLegacyAll(ls), |before|) == Some(EncodeAll(Records(ls)))
      <==> (forall l :: l in ls ==> Measurable(l))
    decreases |ls|
  {
    hide LegacyAt, EncodeLegacy, LegacyStorable, Encode;
    var file, offset := before + EncodeLegacyAll(ls), |before|;
    if ls == [] {
      assert file == before;
    } else {
      var l, rest := ls[0], ls[1..];
      assert Records(ls) == [l.record] + Records(rest);
      EncodeAllFront(l.record, Records(rest));
      assert ls == [l] + rest;
      var next := before + EncodeLegacy(l);
      ConcatAssoc(before, EncodeLegacy(l), EncodeLegacyAll(rest));
      FirstLegacy(before, l, rest, file, |next|);
      if Measurable(l) {
        MigratedFrom(next, rest);
        MeasuredStep(file, offset, l, |next|);
        PrependCancels(Encode(l.record), Migrated(file, |next|), EncodeAll(Records(rest)));
      } else {
        WrappedIsWrong(file, offset, l, |next|);
      }
    }
  }

  lemma MeasuredStep(file: seq<byte>, offset: nat, l: LegacyRecord, to: nat)
    requires LegacyStorable(l) && Measurable(l) && LegacyAt(file, offset) == Some(LegacyHeaderOf(l))
    requires to == offset + LEGACY_HEADER_SIZE + |Data(l.record)| <= |file|
    requires file[offset + LEGACY_HEADER_SIZE..to] == Data(l.record)
    ensures Migrated(file, offset) == Prepend(Encode(l.record), Migrated(file, to))
  {
    assert RecordDataSize(LegacyHeaderOf(l)) == |Data(l.record)|;
    MigratedStep(file, offset, LegacyHeaderOf(l), to);
    assert EncodeHeader(HeaderOf(l.record)) + Data(l.record) == Encode(l.record);
  }

  lemma PrependCancels(p: seq<byte>, a: Option<seq<byte>>, b: seq<byte>)
    ensures Prepend(p, a) == Some(p + b) <==> a == Some(b)
  {
    if a.Some? { SamePrefix(p, a.value, b); }
  }

  lemma SamePrefix(p: seq<byte>, a: seq<byte>, b: seq<byte>)
    ensures p + a == p + b <==> a == b
  {
    if p + a == p + b {
      assert (p + a)[|p|..] == a && (p + b)[|p|..] == b;
    }
  }

  lemma FirstLegacy(before: seq<byte>, l: LegacyRecord, rest: seq<LegacyRecord>, file: seq<byte>, to: nat)
    requires LegacyStorable(l)
    requires file == before + EncodeLegacyAll([l] + rest) && to == |before| + LEGACY_HEADER_SIZE + |Data(l.record)|
    ensures to <= |file|
    ensures LegacyAt(file, |before|) == Some(LegacyHeaderOf(l))
    ensures file[|before| + LEGACY_HEADER_SIZE..to] == Data(l.record)
  {
    hide EncodeLegacyHeader, ParseLegacyHeader;
    LegacyRoundTrip(l);
    assert ([l] + rest)[1..] == rest;
    assert file == before + EncodeLegacyHeader(LegacyHeaderOf(l)) + Data(l.record) + EncodeLegacyAll(rest);
    assert file[|before|..|before| + LEGACY_HEADER_SIZE] == EncodeLegacyHeader(LegacyHeaderOf(l));
    var n := |l.record.name.column| + |l.record.name.key|;
    assert n % TWO32 <= n;
  }

  /** Byte 6 of a header is the low byte of its header size field. */
  lemma SixthByte(b: seq<byte>)
    requires |b| == LEGACY_HEADER_SIZE && ParseLegacyHeader(b).headerSize == LEGACY_HEADER_SIZE
    ensures b[6] == 48
  {
    LegacyWidthsSum();
    var w := LEGACY_WIDTHS;
    var b1 := b[4..];
    var b2 := b1[2..];
    assert Unpack(b, w)[1..] == Unpack(b1, w[1..]);
    assert Unpack(b1, w[1..])[1..] == Unpack(b2, w[1..][1..]);
    assert Unpack(b, w)[2] == UnLE(b2[..2]);
    assert b2[..2] == [b[6], b[7]];
    assert [b[6], b[7]][1..] == [b[7]] && [b[7]][1..] == [];
    assert UnLE([b[7]]) == b[7];
    assert UnLE(b2[..2]) == b[6] + 256 * b[7] as nat;
  }

  lemma NewSixthByte(h: RecordHeader)
    requires h.headerSize == RECORD_HEADER_SIZE
    ensures EncodeHeader(h)[6] == 24
  {
    RecordWidthsSum();
    var f, w := h.Fields(), RECORD_WIDTHS;
    assert Pack(f, w) == LE(f[0], 4) + Pack(f[1..], w[1..]);
    assert Pack(f[1..], w[1..]) == LE(f[1], 2) + Pack(f[1..][1..], w[1..][1..]);
    assert Pack(f[1..][1..], w[1..][1..]) == LE(f[2], 2) + Pack(f[1..][1..][1..], w[1..][1..][1..]);
    assert Pack(f, w)[6] == LE(f[2], 2)[0] == f[2] % 256;
  }

  /** A record measured short reads on inside its own data and writes a header over it. */
  lemma WrappedIsWrong(file: seq<byte>, offset: nat, l: LegacyRecord, to: nat)
    requires LegacyStorable(l) && !Measurable(l) && LegacyAt(file, offset) == Some(LegacyHeaderOf(l))
    requires to == offset + LEGACY_HEADER_SIZE + |Data(l.record)| <= |file|
    requires file[offset + LEGACY_HEADER_SIZE..to] == Data(l.record)
    ensures Migrated(file, offset).Some? ==> !(Encode(l.record) <= Migrated(file, offset).value)
  {
    hide LegacyAt, EncodeHeader, NewHeader, LegacyStorable, Measurable, RecordDataSize, Migrated;
    var data := Data(l.record);
    var d := RecordDataSize(LegacyHeaderOf(l));
    WrappedSize(l);
    var from, short := offset + LEGACY_HEADER_SIZE, offset + LEGACY_HEADER_SIZE + d;
    MigratedStep(file, offset, LegacyHeaderOf(l), short);
    var rest := Migrated(file, short);
    if rest.Some? {
      StepBytes(file, short, rest.value);
      assert file[short + 6] == file[from..to][d + 6] == data[d + 6];
      var e := EncodeHeader(HeaderOf(l.record));
      assert Encode(l.record) == e + data;
      Overwritten(e, e + file[from..short], data, d, rest.value);
    }
  }

  lemma WrappedSize(l: LegacyRecord)
    requires LegacyStorable(l) && !Measurable(l)
    ensures RecordDataSize(LegacyHeaderOf(l)) + TWO32 == |Data(l.record)|
  {
  }

  /** If the loop continues at `at`, byte 6 there is 48 in the source and 24 in the copy. */
  lemma StepBytes(file: seq<byte>, at: nat, rest: seq<byte>)
    requires at < |file| && Migrated(file, at) == Some(rest)
    ensures |rest| > 6 && rest[6] == 24 && at + 6 < |file| && file[at + 6] == 48
  {
    var h := LegacyAt(file, at).value;
    MigratedStep(file, at, h, at + LEGACY_HEADER_SIZE + RecordDataSize(h));
    SixthByte(file[at..at + LEGACY_HEADER_SIZE]);
    NewSixthByte(NewHeader(h));
  }

  lemma Overwritten(e: seq<byte>, head: seq<byte>, data: seq<byte>, d: nat, rest: seq<byte>)
    requires |e| == 24 && |head| == 24 + d && d + 6 < |data| && |rest| > 6
    requires rest[6] == 24 && data[d + 6] == 48
    ensures !(e + data <= head + rest)
  {
    assert (e + data)[24 + d + 6] == 48;
    assert (head + rest)[24 + d + 6] == 24;
  }

  /** Sizes that add up to exactly 2^32 measure as zero, so the data is read as the next header. */
  lemma ZeroSizedIsCorrupt(before: seq<byte>, l: LegacyRecord, file: seq<byte>)
    requires LegacyStorable(l) && l.record.value == [] && |Data(l.record)| > 6 && Data(l.record)[6] == 0
    requires |l.record.name.column| + |l.record.name.key| == TWO32
    requires file == before + EncodeLegacyAll([l] + [])
    ensures Migrated(file, |before|) == None
  {
    var from, to := |before| + LEGACY_HEADER_SIZE, |before| + LEGACY_HEADER_SIZE + |Data(l.record)|;
    FirstLegacy(before, l, [], file, to);
    WrappedSize(l);
    MigratedStep(file, |before|, LegacyHeaderOf(l), from);
    if Migrated(file, from).Some? {
      StepBytes(file, from, Migrated(file, from).value);
      assert false;
    }
  }

  /** A well-formed legacy log that cannot be migrated. */
  lemma OverflowExample(half: seq<byte>)
    requires |half| == 0x8000_0000 && half[6] == 0
    ensures var l := LegacyRecord(Record(Name(half, half), []), 1, 0, 0);
      LegacyStorable(l) && Migrated(LegacyFile([l]), FILE_HEADER_SIZE) == None
  {
    var l := LegacyRecord(Record(Name(half, half), []), 1, 0, 0);
    assert [l] + [] == [l];
    assert Data(l.record)[6] == half[6];
    ZeroSizedIsCorrupt(LEGACY_FILE_HEADER, l, LegacyFile([l]));
  }
}
