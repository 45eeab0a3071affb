/**
 The object value file: a file header followed by one record per write.

 A record is a 24-byte header, the column name, the key and the value.  The file
 is only ever appended to, so the value of a key is that of its last record.
 */
module RecordLog {
  import opened Wrappers
  import opened Bytes
  import opened FileIO

  datatype Name = Name(column: seq<byte>, key: seq<byte>)
  datatype Record = Record(name: Name, value: seq<byte>)

  const RECORD_MAGIC: nat := 0x43455256
  const RECORD_HEADER_SIZE: nat := 24
  const FILE_HEADER_SIZE: nat := 24

  /** Field widths of `ValueRecordHeader`: magic, version, header size, column, key and value sizes. */
  const RECORD_WIDTHS: seq<nat> := [4, 2, 2, 4, 4, 8]

  datatype RecordHeader =
    RecordHeader(magic: nat, version: nat, headerSize: nat, columnSize: nat, keySize: nat, valueSize: nat)
  {
    function Fields(): seq<nat> { [magic, version, headerSize, columnSize, keySize, valueSize] }
  }

  lemma RecordWidthsSum()
    ensures Sum(RECORD_WIDTHS) == RECORD_HEADER_SIZE
  {
    assert RECORD_WIDTHS[1..] == [2, 2, 4, 4, 8];
    assert RECORD_WIDTHS[1..][1..] == [2, 4, 4, 8];
    assert RECORD_WIDTHS[1..][1..][1..] == [4, 4, 8];
    assert RECORD_WIDTHS[1..][1..][1..][1..] == [4, 8];
    assert RECORD_WIDTHS[1..][1..][1..][1..][1..] == [8];
    assert Sum([8]) == 8;
    assert Sum([4, 8]) == 12;
  }

  function EncodeHeader(h: RecordHeader): (b: seq<byte>)
    ensures |b| == RECORD_HEADER_SIZE
  {
    RecordWidthsSum();
    Pack(h.Fields(), RECORD_WIDTHS)
  }

  function ParseHeader(b: seq<byte>): RecordHeader
    requires |b| == RECORD_HEADER_SIZE
  {
    RecordWidthsSum();
    var f := Unpack(b, RECORD_WIDTHS);
    RecordHeader(f[0], f[1], f[2], f[3], f[4], f[5])
  }

  lemma HeaderRoundTrip(h: RecordHeader)
    requires h.magic < TWO32 && h.version < 0x1_0000 && h.headerSize < 0x1_0000
    requires h.columnSize < TWO32 && h.keySize < TWO32 && h.valueSize < TWO64
    ensures ParseHeader(EncodeHeader(h)) == h
  {
    RecordWidthsSum();
    WidthBounds();
    UnpackPack(h.Fields(), RECORD_WIDTHS);
  }

  predicate IsValidRecordHeader(h: RecordHeader) {
    h.magic == RECORD_MAGIC && h.version == STORAGE_VERSION && h.headerSize == RECORD_HEADER_SIZE
  }

  function HeaderOf(r: Record): RecordHeader {
    RecordHeader(RECORD_MAGIC, STORAGE_VERSION, RECORD_HEADER_SIZE, |r.name.column|, |r.name.key|, |r.value|)
  }

  /** Column and key lengths are 32-bit in the format, value lengths 64-bit. */
  predicate Storable(r: Record) {
    |r.name.column| < TWO32 && |r.name.key| < TWO32 && |r.value| < TWO64
  }

  function Encode(r: Record): (b: seq<byte>)
    ensures |b| == RECORD_HEADER_SIZE + |r.name.column| + |r.name.key| + |r.value|
  {
    EncodeHeader(HeaderOf(r)) + r.name.column + r.name.key + r.value
  }

  function EncodeAll(rs: seq<Record>): seq<byte> {
    if rs == [] then [] else EncodeAll(rs[..|rs| - 1]) + Encode(rs[|rs| - 1])
  }

  /** Magic `LUMV0002`, version 1, header size 24 and eight reserved bytes. */
  const FILE_HEADER: seq<byte> :=
    [76, 85, 77, 86, 48, 48, 48, 50, 1, 0, 0, 0, 24, 0, 0, 0, 0, 0, 0, 0, 0, 0, 0, 0]

  function File(rs: seq<Record>): (b: seq<byte>)
    ensures |b| >= FILE_HEADER_SIZE
  {
    FILE_HEADER + EncodeAll(rs)
  }

  lemma FileAppend(rs: seq<Record>, r: Record)
    ensures File(rs + [r]) == File(rs) + Encode(r)
  {
    assert (rs + [r])[..|rs|] == rs;
  }

  lemma {:induction false} FilePrefix(rs: seq<Record>, i: nat)
    requires i <= |rs|
    ensures File(rs[..i]) <= File(rs)
    decreases |rs| - i
  {
    if i == |rs| {
      assert rs[..i] == rs;
    } else {
      FilePrefix(rs, i + 1);
      assert rs[..i + 1] == rs[..i] + [rs[i]];
      FileAppend(rs[..i], rs[i]);
    }
  }

  // ---- Reading a record back ----------------------------------------------

  ghost predicate RecordIsAt(file: seq<byte>, offset: nat, r: Record) {
    Storable(r) && offset + |Encode(r)| <= |file| && file[offset..offset + |Encode(r)|] == Encode(r)
  }

  /** The reads the lookup makes at a record's offset return the record's parts. */
  lemma ReadBack(file: seq<byte>, offset: nat, r: Record)
    requires RecordIsAt(file, offset, r)
    ensures var h := PRead(file, offset, RECORD_HEADER_SIZE);
      h.Some? && ParseHeader(h.value) == HeaderOf(r) && IsValidRecordHeader(HeaderOf(r))
    ensures PRead(file, offset + 24, |r.name.column|) == Some(r.name.column)
    ensures PRead(file, offset + 24 + |r.name.column|, |r.name.key|) == Some(r.name.key)
    ensures PRead(file, offset + 24 + |r.name.column| + |r.name.key|, |r.value|) == Some(r.value)
  {
    HeaderRoundTrip(HeaderOf(r));
    var e := Encode(r);
    var c, k := |r.name.column|, |r.name.key|;
    assert e[..24] == EncodeHeader(HeaderOf(r));
    assert e[24..24 + c] == r.name.column;
    assert e[24 + c..24 + c + k] == r.name.key;
    assert e[24 + c + k..] == r.value;
    Slice(file, offset, |e|, 0, 24);
    Slice(file, offset, |e|, 24, 24 + c);
    Slice(file, offset, |e|, 24 + c, 24 + c + k);
    Slice(file, offset, |e|, 24 + c + k, |e|);
  }

  // ---- What a log means ----------------------------------------------------

  /** Where each key's last record starts. */
  function LastOffsets(rs: seq<Record>): map<Name, nat> {
    if rs == [] then map[]
    else LastOffsets(rs[..|rs| - 1])[rs[|rs| - 1].name := |File(rs[..|rs| - 1])|]
  }

  /** The map a log denotes: each key with the value written last. */
  function Contents(rs: seq<Record>): map<Name, seq<byte>> {
    if rs == [] then map[]
    else Contents(rs[..|rs| - 1])[rs[|rs| - 1].name := rs[|rs| - 1].value]
  }

  lemma AppendMeaning(rs: seq<Record>, r: Record)
    ensures LastOffsets(rs + [r]) == LastOffsets(rs)[r.name := |File(rs)|]
    ensures Contents(rs + [r]) == Contents(rs)[r.name := r.value]
  {
    assert (rs + [r])[..|rs|] == rs;
  }

  lemma {:induction false} SameKeys(rs: seq<Record>)
    ensures LastOffsets(rs).Keys == Contents(rs).Keys
    ensures forall k :: k in Contents(rs).Keys <==> exists i :: 0 <= i < |rs| && rs[i].name == k
  {
    if rs != [] {
      var init, last := rs[..|rs| - 1], rs[|rs| - 1];
      SameKeys(init);
      forall k ensures k in Contents(rs).Keys <==> exists i :: 0 <= i < |rs| && rs[i].name == k {
        if k in Contents(init).Keys {
          var i :| 0 <= i < |init| && init[i].name == k;
          assert rs[i].name == k;
        }
        if i :| 0 <= i < |rs| && rs[i].name == k {
          if i < |init| { assert init[i].name == k; }
        }
      }
    }
  }

  /** Every offset in the index map is the start of a record with that key and the current value. */
  lemma {:induction false} OffsetsPointAtRecords(rs: seq<Record>, file: seq<byte>, k: Name)
    requires forall i :: 0 <= i < |rs| ==> Storable(rs[i])
    requires File(rs) <= file && k in LastOffsets(rs)
    ensures k in Contents(rs) && RecordIsAt(file, LastOffsets(rs)[k], Record(k, Contents(rs)[k]))
  {
    var init, last := rs[..|rs| - 1], rs[|rs| - 1];
    assert rs == init + [last];
    FileAppend(init, last);
    AppendMeaning(init, last);
    if k == last.name {
      var off := |File(init)|;
      assert file[off..off + |Encode(last)|] == File(rs)[off..] == Encode(last);
    } else {
      OffsetsPointAtRecords(init, file, k);
    }
  }

  // ---- Scanning ------------------------------------------------------------

  /** The record that starts at `offset`, if the file holds a whole valid one there. */
  function RecordAt(file: seq<byte>, offset: nat): (r: Option<Record>)
    ensures r.Some? ==> offset + |Encode(r.value)| <= |file|
  {
    var hb := PRead(file, offset, RECORD_HEADER_SIZE);
    if hb == None then None else
      var h := ParseHeader(hb.value);
      var size := RECORD_HEADER_SIZE + h.columnSize + h.keySize + h.valueSize;
      if !IsValidRecordHeader(h) || size > |file| - offset then None else
        var c := offset + RECORD_HEADER_SIZE;
        var k := c + h.columnSize;
        var v := k + h.keySize;
        Some(Record(Name(file[c..k], file[k..v]), file[v..v + h.valueSize]))
  }

  /** All records from `offset` to the end of the file. */
  function Parse(file: seq<byte>, offset: nat): Option<seq<Record>>
    decreases |file| - offset
  {
    if offset >= |file| then Some([])
    else
      var r := RecordAt(file, offset);
      if r == None then None else
        var rest := Parse(file, offset + |Encode(r.value)|);
        if rest == None then None else Some([r.value] + rest.value)
  }

  lemma RecordAtFinds(file: seq<byte>, offset: nat, r: Record)
    requires RecordIsAt(file, offset, r)
    ensures RecordAt(file, offset) == Some(r)
  {
    ReadBack(file, offset, r);
    var c := offset + 24;
    var k := c + |r.name.column|;
    var v := k + |r.name.key|;
    if r.name.column == [] { assert file[c..k] == []; }
    if r.name.key == [] { assert file[k..v] == []; }
    if r.value == [] { assert file[v..v + |r.value|] == []; }
  }

  /** The bytes of a log parse back to exactly the records that were appended. */
  lemma {:induction false} ParseFile(rs: seq<Record>, i: nat)
    requires i <= |rs| && forall j :: 0 <= j < |rs| ==> Storable(rs[j])
    ensures Parse(File(rs), |File(rs[..i])|) == Some(rs[i..])
    decreases |rs| - i
  {
    hide Encode, RecordAt, EncodeAll;
    FilePrefix(rs, i);
    if i == |rs| {
      assert rs[..i] == rs && rs[i..] == [];
    } else {
      NextRecord(rs, i);
      RecordAtFinds(File(rs), |File(rs[..i])|, rs[i]);
      ParseFile(rs, i + 1);
      assert rs[i..] == [rs[i]] + rs[i + 1..];
    }
  }

  lemma NextRecord(rs: seq<Record>, i: nat)
    requires i < |rs| && Storable(rs[i])
    ensures RecordIsAt(File(rs), |File(rs[..i])|, rs[i])
    ensures |File(rs[..i + 1])| == |File(rs[..i])| + |Encode(rs[i])|
  {
    assert rs[..i + 1] == rs[..i] + [rs[i]];
    FileAppend(rs[..i], rs[i]);
    FilePrefix(rs, i + 1);
    var off := |File(rs[..i])|;
    assert File(rs)[off..off + |Encode(rs[i])|] == File(rs[..i + 1])[off..];
  }
}
