/**
 Column statistics: one pass over the object buckets and one over the row
 buckets, against the names and rows the two indexes stand for.
 */
module ColumnStats {
  import opened Wrappers
  import opened Bytes
  import opened Probing
  import opened FileIO
  import opened RecordLog
  import opened ObjectIndex
  import opened ObjectStore
  import opened RowBlock
  import opened RowBlockRead
  import opened RowProtocol
  import opened RowProtocolInv
  import opened RowProtocolSteps
  import opened RowProtocolResults
  import opened RowScan
  import RowIndex
  import RowReopen
  import RowOpen

  datatype Stat = Stat(objectCount: nat, rowCount: nat)

  type Stats = map<seq<byte>, Stat>

  function StatOf(m: Stats, column: seq<byte>): Stat {
    if column in m then m[column] else Stat(0, 0)
  }

  // ---- Counting the slots of a table that satisfy a condition ----------------------------

  function Filtered<K>(t: seq<Option<K>>, p: K -> bool): (r: seq<Option<K>>)
    ensures |r| == |t|
  {
    seq(|t|, i requires 0 <= i < |t| => if t[i].Some? && p(t[i].value) then t[i] else None)
  }

  function CountIf<K>(t: seq<Option<K>>, p: K -> bool): nat { Occupied(Filtered(t, p)) }

  lemma CountIfStep<K>(t: seq<Option<K>>, p: K -> bool, i: nat)
    requires i < |t|
    ensures CountIf(t[..i + 1], p) == CountIf(t[..i], p) + (if t[i].Some? && p(t[i].value) then 1 else 0)
  {
    assert Filtered(t[..i + 1], p) == Filtered(t[..i], p) + [if t[i].Some? && p(t[i].value) then t[i] else None];
    OccupiedAppend(Filtered(t[..i], p), if t[i].Some? && p(t[i].value) then t[i] else None);
  }

  /** In a table of distinct keys the count is the size of the set of keys that satisfy the condition. */
  lemma CountIfIsCardinality<K(!new)>(t: seq<Option<K>>, p: K -> bool, keys: set<K>)
    requires Distinct(t) && forall k :: k in keys <==> Probing.Holds(t, k) && p(k)
    ensures CountIf(t, p) == |keys|
  {
    var f := Filtered(t, p);
    forall k ensures k in keys <==> Probing.Holds(f, k) {
      if Probing.Holds(t, k) && p(k) {
        var i :| 0 <= i < |t| && t[i] == Some(k);
        assert f[i] == Some(k);
      }
      if Probing.Holds(f, k) {
        var i :| 0 <= i < |f| && f[i] == Some(k);
        assert t[i] == Some(k);
      }
    }
    forall i, j | 0 <= i < |f| && 0 <= j < |f| && f[i].Some? && f[i] == f[j] ensures i == j {
      assert t[i] == t[j];
    }
    OccupiedIsCardinality(f, keys);
  }

  function NameIn(column: seq<byte>): Name -> bool { (n: Name) => n.column == column }

  function RowIn(column: seq<byte>): Row -> bool { (r: Row) => r.column == column }

  /** The item count in the header of a row's block. */
  function ItemsAt(files: seq<seq<byte>>, places: map<Row, Location>, r: Row): nat {
    if r !in places || places[r].shard >= |files| then 0
    else
      var b := PRead(files[places[r].shard], places[r].offset, BLOCK_HEADER_SIZE);
      if b == None then 0 else ParseBlockHeader(b.value).itemCount
  }

  /** The items of a column's rows, each row of the table once. */
  function ItemsIn(t: seq<Option<Row>>, files: seq<seq<byte>>, places: map<Row, Location>, column: seq<byte>): nat {
    if t == [] then 0
    else
      var last := t[|t| - 1];
      ItemsIn(t[..|t| - 1], files, places, column)
      + (if last.Some? && last.value.column == column then ItemsAt(files, places, last.value) else 0)
  }

  /** A row block's item count is the number of distinct keys of its entries. */
  lemma HeaderCountsKeys(c: Config, x: Extent)
    requires c.Valid() && IsBlock(c, x)
    ensures |x.bytes| >= BLOCK_HEADER_SIZE
    ensures ParseBlockHeader(x.bytes[..BLOCK_HEADER_SIZE]).itemCount == |LastMap(x.entries)|
  {
    HeaderReadBack(c.h, c.sizing, x.row, x.entries, x.sequence);
    TableIsGood(c.h, c.sizing, x.row, x.entries);
    var t := RowBlock.TableOf(c.h, c.sizing, x.row, x.entries);
    forall k ensures k in LastMap(x.entries).Keys <==> Probing.Holds(t.keys, k) {
      LastMapIsLast(x.entries, k);
    }
    OccupiedIsCardinality(t.keys, LastMap(x.entries).Keys);
  }

  lemma LiveBlock(c: Config, s: State, r: Row)
    requires Inv(c, s) && r in s.index
    ensures s.index[r].ext < |s.extents|
    ensures var x := s.extents[s.index[r].ext];
      c.Valid() && IsBlock(c, x) && x.shard < |s.files| && BlockIsAt(s.files[x.shard], x.offset, x.bytes)
  {
    hide Ordered, FilesOk, SlotsOk, TableOk, ThreadsOk, CountsOk, IsBlock, InFile, BlockIsAt;
    assert PubOk(s, r, s.index[r]);
    var x := s.extents[s.index[r].ext];
    assert IsBlock(c, x) && ExtentOk(c, s, s.index[r].ext);
    ReadsExtent(s.files[x.shard], x);
  }

  /** On the files of the protocol the header read at a row's place gives the number of the row's keys. */
  lemma ItemsAtIsKeys(c: Config, s: State, r: Row)
    requires Inv(c, s) && IndexInRange(s) && r in s.index
    ensures ItemsAt(s.files, LivePlaces(s), r) == |Abs(s)[r]|
  {
    hide Inv, LastMap, ParseBlockHeader, PRead, BlockIsAt, IsBlock;
    LiveBlock(c, s, r);
    var x := s.extents[s.index[r].ext];
    HeaderCountsKeys(c, x);
    ReadWithin(s.files[x.shard], x.offset, x.bytes, 0, BLOCK_HEADER_SIZE);
  }

  // ---- Adding up over a set of rows -----------------------------------------------------------

  ghost function SumOver(rows: set<Row>, f: Row -> nat): nat {
    if rows == {} then 0 else
      var r :| r in rows;
      f(r) + SumOver(rows - {r}, f)
  }

  /** The sum does not depend on which row is taken first. */
  lemma {:induction false} SumOverTakes(rows: set<Row>, f: Row -> nat, r: Row)
    requires r in rows
    ensures SumOver(rows, f) == f(r) + SumOver(rows - {r}, f)
    decreases |rows|
  {
    var q :| q in rows && SumOver(rows, f) == f(q) + SumOver(rows - {q}, f);
    if q != r {
      SumOverTakes(rows - {q}, f, r);
      SumOverTakes(rows - {r}, f, q);
      assert rows - {q} - {r} == rows - {r} - {q};
    }
  }

  lemma {:induction false} SumOverSame(rows: set<Row>, f: Row -> nat, g: Row -> nat)
    requires forall r :: r in rows ==> f(r) == g(r)
    ensures SumOver(rows, f) == SumOver(rows, g)
    decreases |rows|
  {
    if rows != {} {
      var r :| r in rows;
      SumOverTakes(rows, f, r);
      SumOverTakes(rows, g, r);
      SumOverSame(rows - {r}, f, g);
    }
  }

  function Items(files: seq<seq<byte>>, places: map<Row, Location>): Row -> nat { (r: Row) => ItemsAt(files, places, r) }

  /** The running sum over the buckets is the sum over the column's rows, in any order. */
  lemma {:induction false} ItemsInIsSum(t: seq<Option<Row>>, files: seq<seq<byte>>, places: map<Row, Location>, column: seq<byte>, rows: set<Row>)
    requires Distinct(t) && forall r :: r in rows <==> Probing.Holds(t, r) && r.column == column
    ensures ItemsIn(t, files, places, column) == SumOver(rows, Items(files, places))
  {
    hide ItemsAt, SumOver, Items, Distinct;
    if t == [] {
      NothingToSum(rows, files, places);
    } else {
      var n := |t| - 1;
      var last := t[n];
      var before := if last.Some? then rows - {last.value} else rows;
      WithoutLast(t, column, rows, before);
      ItemsInIsSum(t[..n], files, places, column, before);
      if last.Some? && last.value.column == column {
        assert Probing.Holds(t, last.value);
        SumOverTakes(rows, Items(files, places), last.value);
        ItemsIs(files, places, last.value);
      } else if last.Some? {
        assert before == rows;
      }
    }
  }

  lemma NothingToSum(rows: set<Row>, files: seq<seq<byte>>, places: map<Row, Location>)
    requires forall r :: r !in rows
    ensures SumOver(rows, Items(files, places)) == 0
  {
    assert rows == {};
  }

  lemma ItemsIs(files: seq<seq<byte>>, places: map<Row, Location>, r: Row)
    ensures Items(files, places)(r) == ItemsAt(files, places, r)
  {
  }

  lemma WithoutLast(t: seq<Option<Row>>, column: seq<byte>, rows: set<Row>, before: set<Row>)
    requires t != [] && Distinct(t) && forall r :: r in rows <==> Probing.Holds(t, r) && r.column == column
    requires var last := t[|t| - 1]; before == if last.Some? then rows - {last.value} else rows
    ensures Distinct(t[..|t| - 1]) && forall r :: r in before <==> Probing.Holds(t[..|t| - 1], r) && r.column == column
  {
    var n := |t| - 1;
    var init := t[..n];
    forall r ensures r in before <==> Probing.Holds(init, r) && r.column == column {
      if Probing.Holds(t, r) {
        var i :| 0 <= i < |t| && t[i] == Some(r);
        if i < n { assert init[i] == t[i]; }
      }
      if i :| 0 <= i < n && init[i] == Some(r) { assert t[i] == Some(r); }
    }
  }

  // ---- Adding up a column table ---------------------------------------------------------------

  ghost function SumRows(m: Stats): nat {
    if m == map[] then 0 else
      var k :| k in m;
      m[k].rowCount + SumRows(m - {k})
  }

  lemma {:induction false} SumTakes(m: Stats, k: seq<byte>)
    requires k in m
    ensures SumRows(m) == m[k].rowCount + SumRows(m - {k})
    decreases |m|
  {
    var j :| j in m && SumRows(m) == m[j].rowCount + SumRows(m - {j});
    if j != k {
      SumTakes(m - {j}, k);
      SumTakes(m - {k}, j);
      assert m - {j} - {k} == m - {k} - {j};
    }
  }

  lemma SumSets(m: Stats, k: seq<byte>, v: Stat)
    ensures SumRows(m[k := v]) + StatOf(m, k).rowCount == SumRows(m) + v.rowCount
  {
    SumTakes(m[k := v], k);
    assert m[k := v] - {k} == m - {k};
    if k in m { SumTakes(m, k); } else { assert m - {k} == m; }
  }

  // ---- The first pass: objects ------------------------------------------------------------------

  /** The statistics of the first `i` object buckets. */
  ghost predicate CountsNames(m: Stats, t: seq<Option<Name>>) {
    forall column {:trigger StatOf(m, column)} ::
      StatOf(m, column) == Stat(CountIf(t, NameIn(column)), 0) && (column in m <==> CountIf(t, NameIn(column)) > 0)
  }

  lemma CountsOneName(m: Stats, t: seq<Option<Name>>, i: nat)
    requires i < |t| && CountsNames(m, t[..i])
    ensures t[i] == None ==> CountsNames(m, t[..i + 1])
    ensures t[i].Some? ==>
      var k := t[i].value.column;
      CountsNames(m[k := StatOf(m, k).(objectCount := StatOf(m, k).objectCount + 1)], t[..i + 1])
  {
    hide CountIf;
    forall column ensures CountIf(t[..i + 1], NameIn(column))
        == CountIf(t[..i], NameIn(column)) + (if t[i].Some? && t[i].value.column == column then 1 else 0) {
      CountIfStep(t, NameIn(column), i);
    }
    if t[i].Some? {
      var k := t[i].value.column;
      var u := m[k := StatOf(m, k).(objectCount := StatOf(m, k).objectCount + 1)];
      forall column ensures StatOf(u, column) == Stat(CountIf(t[..i + 1], NameIn(column)), 0)
        && (column in u <==> CountIf(t[..i + 1], NameIn(column)) > 0)
      {
        assert StatOf(m, column) == Stat(CountIf(t[..i], NameIn(column)), 0);
        assert StatOf(m, k) == Stat(CountIf(t[..i], NameIn(k)), 0);
      }
    } else {
      forall column ensures StatOf(m, column) == Stat(CountIf(t[..i + 1], NameIn(column)), 0)
        && (column in m <==> CountIf(t[..i + 1], NameIn(column)) > 0)
      {
        assert StatOf(m, column) == Stat(CountIf(t[..i], NameIn(column)), 0);
      }
    }
  }

  lemma NoNamesCounted(t: seq<Option<Name>>)
    ensures CountsNames(map[], t[..0]) && SumRows(map[]) == 0
  {
  }

  lemma NameReadsBack(s: Store, i: nat)
    requires s.Indexed() && i < s.buckets.Length && s.owner[i].Some?
    ensures var offset := s.buckets[i].recordOffset;
      var hb := PRead(s.file.data, offset, RECORD_HEADER_SIZE);
      hb.Some? && IsValidRecordHeader(ParseHeader(hb.value))
      && ReadName(s.file.data, offset, ParseHeader(hb.value)) == Some(s.owner[i].value)
  {
    hide Chained, Distinct, LastOffsets, Contents, File, Encode;
    s.BucketLeadsToRecord(i);
    var r := Record(s.owner[i].value, Contents(s.records)[s.owner[i].value]);
    ReadBack(s.file.data, s.buckets[i].recordOffset, r);
    ReadNameIs(s.file.data, s.buckets[i].recordOffset, r);
  }

  lemma CountsMean(s: Store, m: Stats)
    requires s.Indexed() && CountsNames(m, s.owner)
    ensures forall column :: StatOf(m, column) == Stat(|set n | n in Contents(s.records) && n.column == column|, 0)
  {
    hide Chained, File, LastOffsets, Contents, CountIf;
    NameFacts(s.h, s.owner, s.records);
    TableFacts(s.owner, NameHome(s.h), LastOffsets(s.records).Keys);
    forall column ensures StatOf(m, column) == Stat(|set n | n in Contents(s.records) && n.column == column|, 0) {
      CountIfIsCardinality(s.owner, NameIn(column), set n | n in Contents(s.records) && n.column == column);
    }
  }

  method CountObjects(s: Store) returns (status: Status, stats: Stats)
    requires s.Indexed()
    modifies s.file`script
    ensures status in {Ok, IoError} && (status == IoError ==> Refused in old(s.file.script))
    ensures status == Ok ==> CountsNames(stats, s.owner) && SumRows(stats) == 0
  {
    hide *;
    s.IndexedFacts();
    stats := map[];
    NoNamesCounted(s.owner);
    var index := 0;
    while index < s.buckets.Length
      invariant 0 <= index <= s.buckets.Length && |s.owner| == s.buckets.Length
      invariant CountsNames(stats, s.owner[..index]) && SumRows(stats) == 0
      invariant forall r :: r in s.file.script ==> r in old(s.file.script)
    {
      var bucket := s.buckets[index];
      CountsOneName(stats, s.owner, index);
      if bucket.hash != 0 {
        NameReadsBack(s, index);
        var header;
        status, header := ReadAllAt(s.file, RECORD_HEADER_SIZE, bucket.recordOffset);
        if status != Ok { return; }
        var recordHeader := ParseHeader(header);
        if !IsValidRecordHeader(recordHeader) { return Corruption, stats; }
        var name;
        status, name := s.ReadRecordColumnKey(bucket.recordOffset, recordHeader);
        if status != Ok { return; }
        var column := name.column;
        var stat := StatOf(stats, column);
        SumSets(stats, column, stat.(objectCount := stat.objectCount + 1));
        stats := stats[column := stat.(objectCount := stat.objectCount + 1)];
      }
      index := index + 1;
    }
    assert s.owner[..index] == s.owner;
    status := Ok;
  }

  // ---- The second pass: rows -----------------------------------------------------------------------

  /** The statistics `m0` with the first row buckets added. */
  ghost predicate CountsRows(m: Stats, m0: Stats, t: seq<Option<Row>>, files: seq<seq<byte>>, places: map<Row, Location>) {
    forall column {:trigger StatOf(m, column)} ::
      StatOf(m, column) == Stat(StatOf(m0, column).objectCount + ItemsIn(t, files, places, column), CountIf(t, RowIn(column)))
      && (column in m <==> column in m0 || CountIf(t, RowIn(column)) > 0)
  }

  lemma NoRowsCounted(m: Stats, t: seq<Option<Name>>, u: seq<Option<Row>>, files: seq<seq<byte>>, places: map<Row, Location>)
    requires CountsNames(m, t)
    ensures CountsRows(m, m, u[..0], files, places) && Occupied(u[..0]) == 0
  {
    forall column ensures CountIf(u[..0], RowIn(column)) == 0 && ItemsIn(u[..0], files, places, column) == 0 {}
  }

  /** The statistics after one more row bucket. */
  function WithRow(m: Stats, slot: Option<Row>, files: seq<seq<byte>>, places: map<Row, Location>): Stats {
    match slot
    case None => m
    case Some(r) => m[r.column := Stat(StatOf(m, r.column).objectCount + ItemsAt(files, places, r), StatOf(m, r.column).rowCount + 1)]
  }

  lemma ItemsInStep(t: seq<Option<Row>>, files: seq<seq<byte>>, places: map<Row, Location>, column: seq<byte>, i: nat)
    requires i < |t|
    ensures ItemsIn(t[..i + 1], files, places, column) == ItemsIn(t[..i], files, places, column)
      + (if t[i].Some? && t[i].value.column == column then ItemsAt(files, places, t[i].value) else 0)
  {
    assert t[..i + 1][..i] == t[..i];
  }

  lemma CountsOneRow(m: Stats, m0: Stats, t: seq<Option<Row>>, files: seq<seq<byte>>, places: map<Row, Location>, i: nat)
    requires i < |t| && CountsRows(m, m0, t[..i], files, places)
    ensures CountsRows(WithRow(m, t[i], files, places), m0, t[..i + 1], files, places)
  {
    hide CountIf, ItemsAt, ItemsIn;
    var u := WithRow(m, t[i], files, places);
    forall column
      ensures StatOf(u, column)
        == Stat(StatOf(m0, column).objectCount + ItemsIn(t[..i + 1], files, places, column), CountIf(t[..i + 1], RowIn(column)))
        && (column in u <==> column in m0 || CountIf(t[..i + 1], RowIn(column)) > 0)
    {
      CountIfStep(t, RowIn(column), i);
      ItemsInStep(t, files, places, column, i);
      assert StatOf(m, column).rowCount == CountIf(t[..i], RowIn(column));
    }
  }

  lemma WithRowIs(m: Stats, r: Row, files: seq<seq<byte>>, places: map<Row, Location>)
    ensures WithRow(m, None, files, places) == m
    ensures WithRow(m, Some(r), files, places)
      == m[r.column := Stat(StatOf(m, r.column).objectCount + ItemsAt(files, places, r), StatOf(m, r.column).rowCount + 1)]
  {
  }

  lemma OccupiedStep(t: seq<Option<Row>>, i: nat)
    requires i < |t|
    ensures Occupied(t[..i + 1]) == Occupied(t[..i]) + (if t[i].Some? then 1 else 0)
  {
    assert t[..i + 1] == t[..i] + [t[i]];
    OccupiedAppend(t[..i], t[i]);
  }

  lemma RowReadsBack(x: RowIndex.Index, i: nat)
    requires x.Indexed() && i < x.buckets.Length && x.owner[i].Some?
    ensures var b := x.buckets[i];
      var r := x.owner[i].value;
      b.place.shard < |x.files|
      && var hb := PRead(x.files[b.place.shard], b.place.offset, BLOCK_HEADER_SIZE);
      hb.Some?
      && var hd := ParseBlockHeader(hb.value);
      IsValidRowBlockHeader(hd) && hd.blockSize == b.place.size && hd.columnHash == b.columnHash && hd.rowId == b.rowId
      && RowIndex.StoredColumn(x.files, b.place, hd) == Some(r.column)
      && ItemsAt(x.files, x.places, r) == hd.itemCount
  {
    hide Chained, Distinct, IsValidRowBlockHeader, ParseBlockHeader;
    x.BucketLeadsToRow(i);
    RowIndex.RowIsAtFacts(x.c, x.files, x.owner[i].value, x.places[x.owner[i].value]);
  }

  method CountRows(x: RowIndex.Index, m0: Stats, ghost t: seq<Option<Name>>) returns (status: Status, stats: Stats)
    requires x.Indexed() && CountsNames(m0, t) && SumRows(m0) == 0
    ensures status == Ok && CountsRows(stats, m0, x.owner, x.files, x.places) && SumRows(stats) == Occupied(x.owner)
  {
    hide *;
    x.IndexedFacts();
    stats := m0;
    NoRowsCounted(m0, t, x.owner, x.files, x.places);
    var index := 0;
    while index < x.buckets.Length
      invariant 0 <= index <= x.buckets.Length && |x.owner| == x.buckets.Length
      invariant CountsRows(stats, m0, x.owner[..index], x.files, x.places) && SumRows(stats) == Occupied(x.owner[..index])
    {
      var bucket := x.buckets[index];
      CountsOneRow(stats, m0, x.owner, x.files, x.places, index);
      OccupiedStep(x.owner, index);
      if x.owner[index].Some? { WithRowIs(stats, x.owner[index].value, x.files, x.places); }
      else { WithRowIs(stats, Row([], 0), x.files, x.places); }
      if bucket.state != Empty {
        RowReadsBack(x, index);
        if bucket.place.shard >= |x.files| { return Corruption, stats; }
        var b := PRead(x.files[bucket.place.shard], bucket.place.offset, BLOCK_HEADER_SIZE);
        if b == None { return Corruption, stats; }
        var blockHeader := ParseBlockHeader(b.value);
        if !IsValidRowBlockHeader(blockHeader) || blockHeader.blockSize != bucket.place.size
           || blockHeader.columnHash != bucket.columnHash || blockHeader.rowId != bucket.rowId {
          return Corruption, stats;
        }
        var column := RowIndex.StoredColumn(x.files, bucket.place, blockHeader);
        if column == None { return Corruption, stats; }
        var stat := StatOf(stats, column.value);
        SumSets(stats, column.value, Stat(stat.objectCount + blockHeader.itemCount, stat.rowCount + 1));
        stats := stats[column.value := Stat(stat.objectCount + blockHeader.itemCount, stat.rowCount + 1)];
      }
      index := index + 1;
    }
    assert x.owner[..index] == x.owner;
    status := Ok;
  }

  lemma RowCountsMean(x: RowIndex.Index, column: seq<byte>)
    requires x.Indexed()
    ensures CountIf(x.owner, RowIn(column)) == |set r | r in x.places && r.column == column|
  {
    hide Chained, CountIf;
    TableFacts(x.owner, x.c.RowHome(), x.places.Keys);
    CountIfIsCardinality(x.owner, RowIn(column), set r | r in x.places && r.column == column);
  }

  ghost function RowsOf(places: map<Row, Location>, column: seq<byte>): set<Row> {
    set r | r in places && r.column == column
  }

  lemma RowItemsMean(x: RowIndex.Index, column: seq<byte>)
    requires x.Indexed()
    ensures ItemsIn(x.owner, x.files, x.places, column) == SumOver(RowsOf(x.places, column), Items(x.files, x.places))
  {
    hide Chained, ItemsIn, SumOver, Items;
    TableFacts(x.owner, x.c.RowHome(), x.places.Keys);
    ItemsInIsSum(x.owner, x.files, x.places, column, RowsOf(x.places, column));
  }

  /** A column's names and the items recorded for its rows, and its rows. */
  ghost function Expected(s: Store, x: RowIndex.Index, column: seq<byte>): Stat
    reads s, x
  {
    Stat(|set n | n in Contents(s.records) && n.column == column| + SumOver(RowsOf(x.places, column), Items(x.files, x.places)),
         |RowsOf(x.places, column)|)
  }

  lemma ExpectedIs(s: Store, x: RowIndex.Index, column: seq<byte>)
    ensures Expected(s, x, column)
      == Stat(|set n | n in Contents(s.records) && n.column == column| + SumOver(RowsOf(x.places, column), Items(x.files, x.places)),
              |set r | r in x.places && r.column == column|)
  {
  }

  // ---- The statistics of what is stored ---------------------------------------------------------

  /** The index and files hold the rows of this state of the row protocol. */
  ghost predicate IsIndexOf(x: RowIndex.Index, live: State)
    reads x
  {
    Inv(x.c, live) && IndexInRange(live) && x.files == live.files && x.places == LivePlaces(live)
  }

  ghost function KeyCount(m: map<Row, map<seq<byte>, seq<byte>>>): Row -> nat {
    (r: Row) => if r in m then |m[r]| else 0
  }

  /** A column's distinct names and the distinct keys of its rows, and its rows. */
  ghost function StatOfContents(objects: map<Name, seq<byte>>, rows: map<Row, map<seq<byte>, seq<byte>>>, column: seq<byte>): Stat {
    var rowsOfColumn := set r | r in rows && r.column == column;
    Stat(|set n | n in objects && n.column == column| + SumOver(rowsOfColumn, KeyCount(rows)), |rowsOfColumn|)
  }

  lemma ExpectedIsContents(s: Store, x: RowIndex.Index, live: State, column: seq<byte>)
    requires IsIndexOf(x, live)
    ensures Expected(s, x, column) == StatOfContents(Contents(s.records), Abs(live), column)
  {
    hide Inv, ItemsAt, Contents, SumOver;
    var rows := RowsOf(x.places, column);
    assert rows == set r | r in Abs(live) && r.column == column;
    forall r | r in rows ensures Items(x.files, x.places)(r) == KeyCount(Abs(live))(r) { ItemsAtIsKeys(x.c, live, r); }
    SumOverSame(rows, Items(x.files, x.places), KeyCount(Abs(live)));
  }

  /**
   The statistics agree with the contents.  For the row index of any state `live`
   of the row protocol, a column's objects are its distinct names and the distinct
   keys of each of its rows, and its rows are its current rows.  The row counts of
   all columns add up to the row count, and only columns that hold something are
   listed.
   */
  method GetColumnStats(s: Store, x: RowIndex.Index, ghost live: State) returns (status: Status, stats: Stats)
    requires s.Valid() && x.Indexed()
    modifies s.file`script
    ensures (status == NotOpen <==> !s.open) && status in {Ok, NotOpen, IoError}
    ensures status == IoError ==> Refused in old(s.file.script)
    ensures status == Ok && IsIndexOf(x, live) ==>
      forall column :: StatOf(stats, column) == StatOfContents(Contents(s.records), Abs(live), column)
    ensures status == Ok ==> forall column :: StatOf(stats, column) == Expected(s, x, column)
    ensures status == Ok ==> forall column :: column in stats <==> Expected(s, x, column) != Stat(0, 0)
    ensures status == Ok ==> SumRows(stats) == x.itemCount
  {
    hide *;
    s.ValidFacts();
    x.IndexedFacts();
    stats := map[];
    if !s.open { return NotOpen, stats; }
    var objects;
    status, objects := CountObjects(s);
    if status != Ok { return; }
    status, stats := CountRows(x, objects, s.owner);
    if status != Ok { return; }
    CountsMean(s, objects);
    forall column
      ensures StatOf(stats, column) == Expected(s, x, column)
      ensures column in stats <==> Expected(s, x, column) != Stat(0, 0)
    {
      ExpectedIs(s, x, column);
      RowCountsMean(x, column);
      RowItemsMean(x, column);
      ListedIfCounted(stats, objects, s.owner, x.owner, x.files, x.places, column);
    }
    if IsIndexOf(x, live) { AllExpected(s, x, live); }
  }

  /**
   The statistics of a database that has been closed and opened again are those of
   what the run that used it has stored.
   */
  method StatsAfterOpening(s: Store, c: Config, ghost live: State, files: seq<seq<byte>>, buckets: seq<RowIndex.RowBucket>,
                           itemCount: nat, nextSequence: nat, header: RowIndex.FileHeader, fileSize: nat, initialRowBucketCount: nat)
    returns (status: Status, stats: Stats)
    requires s.Valid() && RowOpen.Closable(c, live)
    requires files == live.files && itemCount == live.itemCount && nextSequence == live.nextSequence
    requires Shape(c, live) && buckets == RowReopen.Buckets(live)
    modifies s.file`script
    ensures (status == NotOpen <==> !s.open) && status in {Ok, NotOpen, IoError} && IndexInRange(live)
    ensures status == Ok ==> forall column :: StatOf(stats, column) == StatOfContents(Contents(s.records), Abs(live), column)
    ensures status == Ok ==> SumRows(stats) == live.itemCount
  {
    hide *;
    RowOpen.ClosableIs(c, live);
    var index;
    status, index := RowOpen.OpenAfterRun(c, live, files, buckets, itemCount, nextSequence, header, fileSize, initialRowBucketCount);
    OpenedIsIndexOf(index, live);
    status, stats := GetColumnStats(s, index, live);
  }

  lemma OpenedIsIndexOf(x: RowIndex.Index, live: State)
    requires Inv(x.c, live) && IndexInRange(live) && x.files == live.files && x.places == LivePlaces(live)
    ensures IsIndexOf(x, live)
  {
  }

  lemma AllExpected(s: Store, x: RowIndex.Index, live: State)
    requires IsIndexOf(x, live)
    ensures forall column :: Expected(s, x, column) == StatOfContents(Contents(s.records), Abs(live), column)
  {
    hide *;
    IsIndexIn(x, live);
    forall column ensures Expected(s, x, column) == StatOfContents(Contents(s.records), Abs(live), column) {
      ExpectedIsContents(s, x, live, column);
    }
  }

  lemma IsIndexIn(x: RowIndex.Index, live: State)
    requires IsIndexOf(x, live)
    ensures IndexInRange(live)
  {
  }

  lemma ListedIfCounted(m: Stats, m0: Stats, t: seq<Option<Name>>, u: seq<Option<Row>>, files: seq<seq<byte>>, places: map<Row, Location>,
                        column: seq<byte>)
    requires CountsNames(m0, t) && CountsRows(m, m0, u, files, places)
    ensures column in m <==> StatOf(m, column) != Stat(0, 0)
    ensures StatOf(m, column) == Stat(StatOf(m0, column).objectCount + ItemsIn(u, files, places, column), CountIf(u, RowIn(column)))
  {
    hide CountIf, ItemsIn;
    assert StatOf(m0, column) == Stat(CountIf(t, NameIn(column)), 0);
  }
}
