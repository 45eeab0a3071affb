/**
 What scanning the row value files from scratch finds, and that it is what the
 live index points at.
 */
module RowScan {
  import opened RowBlock
  import opened RowProtocol
  import opened RowProtocolInv
  import opened RowProtocolResults
  import opened RowOrder
  import opened RowQuiescent

  /** Where a row's block is, and what the bucket records about it. */
  datatype Location = Location(shard: nat, offset: nat, size: nat, sequence: nat)

  /** One shard scanned on top of what the shards before it gave; a later block of a row replaces an earlier one. */
  function Scan(m: map<Row, Location>, shard: nat, xs: seq<Extent>): map<Row, Location> {
    if xs == [] then m
    else
      var init, x := xs[..|xs| - 1], xs[|xs| - 1];
      Scan(m, shard, init)[x.row := Location(shard, ROW_FILE_HEADER_SIZE + |LogBytes(init)|, |x.bytes|, x.sequence)]
  }

  function ScanAll(logs: seq<seq<Extent>>): map<Row, Location> {
    if logs == [] then map[] else Scan(ScanAll(logs[..|logs| - 1]), |logs| - 1, logs[|logs| - 1])
  }

  lemma ScanAppend(m: map<Row, Location>, shard: nat, xs: seq<Extent>, x: Extent)
    ensures Scan(m, shard, xs + [x])
         == Scan(m, shard, xs)[x.row := Location(shard, ROW_FILE_HEADER_SIZE + |LogBytes(xs)|, |x.bytes|, x.sequence)]
  {
    assert (xs + [x])[..|xs|] == xs;
  }

  /** A row that a shard does not hold passes through its scan. */
  lemma {:induction false} ScanPasses(m: map<Row, Location>, r: Row, p: Location, shard: nat, xs: seq<Extent>)
    requires forall i :: 0 <= i < |xs| ==> xs[i].row != r
    ensures Scan(m[r := p], shard, xs) == Scan(m, shard, xs)[r := p]
  {
    if xs != [] {
      ScanPasses(m, r, p, shard, xs[..|xs| - 1]);
    }
  }

  /** One more block at the end of one shard's log, of a row no other shard holds, sets that row. */
  lemma {:induction false} ScanOneMore(logs: seq<seq<Extent>>, k: nat, x: Extent)
    requires k < |logs|
    requires forall j :: k < j < |logs| ==> forall i :: 0 <= i < |logs[j]| ==> logs[j][i].row != x.row
    ensures ScanAll(logs[k := logs[k] + [x]])
         == ScanAll(logs)[x.row := Location(k, ROW_FILE_HEADER_SIZE + |LogBytes(logs[k])|, |x.bytes|, x.sequence)]
  {
    var n := |logs| - 1;
    var more := logs[k := logs[k] + [x]];
    var p := Location(k, ROW_FILE_HEADER_SIZE + |LogBytes(logs[k])|, |x.bytes|, x.sequence);
    if k == n {
      assert more[..n] == logs[..n];
      ScanAppend(ScanAll(logs[..n]), n, logs[n], x);
    } else {
      assert more[..n] == logs[..n][k := logs[..n][k] + [x]];
      ScanOneMore(logs[..n], k, x);
      ScanPasses(ScanAll(logs[..n]), x.row, p, n, logs[n]);
    }
  }

  // ---- The scan of a log and the index ---------------------------------------------------------

  /** The logs of all shards. */
  function Logs(xs: seq<Extent>, shards: nat): (logs: seq<seq<Extent>>)
    ensures |logs| == shards
  {
    seq(shards, i requires 0 <= i < shards => ShardLog(xs, i))
  }

  function LocationOf(x: Extent): Location { Location(x.shard, x.offset, |x.bytes|, x.sequence) }

  /** Each row's last extent, in claim order over all shards. */
  function LastPlaces(xs: seq<Extent>): map<Row, Location> {
    if xs == [] then map[] else LastPlaces(xs[..|xs| - 1])[xs[|xs| - 1].row := LocationOf(xs[|xs| - 1])]
  }

  /** Extents laid end to end, each row always in the same shard. */
  ghost predicate WellPlaced(xs: seq<Extent>, shards: nat) {
    && (forall e :: 0 <= e < |xs| ==> xs[e].shard < shards && xs[e].offset == ShardEnd(xs[..e], xs[e].shard))
    && (forall a, b :: 0 <= a < |xs| && 0 <= b < |xs| && xs[a].row == xs[b].row ==> xs[a].shard == xs[b].shard)
  }

  lemma {:induction false} EndIsLength(xs: seq<Extent>, shard: nat)
    ensures ShardEnd(xs, shard) == ROW_FILE_HEADER_SIZE + |LogBytes(ShardLog(xs, shard))|
  {
    if xs != [] {
      var init, x := xs[..|xs| - 1], xs[|xs| - 1];
      assert xs == init + [x];
      EndIsLength(init, shard);
      ShardLogAppend(init, x, shard);
      if x.shard == shard { LogBytesAppend(ShardLog(init, shard), x); }
    }
  }

  lemma {:induction false} ShardLogRows(xs: seq<Extent>, shard: nat, i: nat)
    requires i < |ShardLog(xs, shard)|
    ensures ShardLog(xs, shard)[i].shard == shard && ShardLog(xs, shard)[i] in xs
  {
    if xs != [] {
      var n := |xs| - 1;
      if i < |ShardLog(xs[..n], shard)| { ShardLogRows(xs[..n], shard, i); }
    }
  }

  lemma {:induction false} NoLogs(shards: nat)
    ensures ScanAll(Logs([], shards)) == map[]
  {
    if shards > 0 {
      NoLogs(shards - 1);
      assert Logs([], shards)[..shards - 1] == Logs([], shards - 1);
    }
  }

  lemma OtherShardsLack(xs: seq<Extent>, x: Extent, shards: nat)
    requires WellPlaced(xs + [x], shards)
    ensures forall j :: x.shard < j < shards ==> forall i :: 0 <= i < |Logs(xs, shards)[j]| ==> Logs(xs, shards)[j][i].row != x.row
  {
    var logs: seq<seq<Extent>> := Logs(xs, shards);
    forall j, i | x.shard < j < shards && 0 <= i < |logs[j]| ensures logs[j][i].row != x.row {
      ShardLogRows(xs, j, i);
      var e :| 0 <= e < |xs| && xs[e] == logs[j][i];
      assert (xs + [x])[e] == xs[e] && (xs + [x])[|xs|] == x;
    }
  }

  /** Scanning shard by shard gives each row's last extent in claim order. */
  lemma {:induction false} ScanIsLast(xs: seq<Extent>, shards: nat)
    requires WellPlaced(xs, shards)
    ensures ScanAll(Logs(xs, shards)) == LastPlaces(xs)
  {
    hide ShardEnd, LogBytes, ShardLog;
    if xs == [] {
      NoLogs(shards);
    } else {
      var n := |xs| - 1;
      var init, x := xs[..n], xs[n];
      assert xs == init + [x];
      forall e | 0 <= e < n ensures init[..e] == xs[..e] {}
      ScanIsLast(init, shards);
      var logs: seq<seq<Extent>> := Logs(init, shards);
      LogsAppend(init, x, shards);
      OtherShardsLack(init, x, shards);
      ScanOneMore(logs, x.shard, x);
      EndIsLength(init, x.shard);
    }
  }

  lemma LogsAppend(xs: seq<Extent>, x: Extent, shards: nat)
    requires x.shard < shards
    ensures Logs(xs + [x], shards) == Logs(xs, shards)[x.shard := Logs(xs, shards)[x.shard] + [x]]
  {
    forall i | 0 <= i < shards ensures Logs(xs + [x], shards)[i] == Logs(xs, shards)[x.shard := Logs(xs, shards)[x.shard] + [x]][i] {
      ShardLogAppend(xs, x, i);
    }
  }

  /** Where the live index points. */
  function LivePlaces(s: State): map<Row, Location>
    requires IndexInRange(s)
  {
    map r | r in s.index :: LocationOf(s.extents[s.index[r].ext])
  }

  lemma {:induction false} LastPlaceOf(xs: seq<Extent>, r: Row, e: nat)
    requires e < |xs| && xs[e].row == r && forall d :: e < d < |xs| ==> xs[d].row != r
    ensures r in LastPlaces(xs) && LastPlaces(xs)[r] == LocationOf(xs[e])
  {
    var n := |xs| - 1;
    if e < n { LastPlaceOf(xs[..n], r, e); }
  }

  lemma {:induction false} LastPlaceRows(xs: seq<Extent>, r: Row)
    ensures r in LastPlaces(xs) <==> exists e :: 0 <= e < |xs| && xs[e].row == r
  {
    if xs != [] {
      var n := |xs| - 1;
      LastPlaceRows(xs[..n], r);
      if e :| 0 <= e < n && xs[..n][e].row == r { assert xs[e].row == r; }
      if e :| 0 <= e < |xs| && xs[e].row == r { if e < n { assert xs[..n][e].row == r; } }
    }
  }

  lemma LiveIsLast(s: State)
    requires |s.slots| == |s.owner| && IndexOk(s) && IndexInRange(s) && IndexIsLast(s) && AllPublished(s)
    ensures LivePlaces(s) == LastPlaces(s.extents)
  {
    forall r ensures r in s.index <==> r in LastPlaces(s.extents) {
      LastPlaceRows(s.extents, r);
      if r in s.index { assert PubOk(s, r, s.index[r]); }
      if e :| 0 <= e < |s.extents| && s.extents[e].row == r { assert PublishedUpTo(s, e); }
    }
    forall r | r in s.index ensures LastPlaces(s.extents)[r] == LocationOf(s.extents[s.index[r].ext]) {
      assert PubOk(s, r, s.index[r]);
      forall d | 0 <= d < |s.extents| && s.extents[d].row == r ensures d <= s.index[r].ext {
        assert PublishedUpTo(s, d);
      }
      LastPlaceOf(s.extents, r, s.index[r].ext);
    }
  }

  /**
   Rebuilding is the live index: after any serialised run in which no write
   failed, once no operation is in flight, scanning the shard files in order
   finds exactly the rows of the index, at the shard, offset, size and sequence
   their buckets record.
   */
  lemma ScanIsLive(c: Config, s: State)
    requires Inv(c, s) && LogOk(s) && AllPublished(s)
    ensures IndexInRange(s) && ScanAll(Logs(s.extents, c.shardCount)) == LivePlaces(s)
  {
    AbsDefined(c, s);
    LiveIsLast(s);
    forall e | 0 <= e < |s.extents|
      ensures s.extents[e].shard < c.shardCount && s.extents[e].shard == c.ShardFor(s.extents[e].row)
    {
      assert ExtentOk(c, s, e);
    }
    ScanIsLast(s.extents, c.shardCount);
  }
}
