/**
 Reads and writes of the row index as atomic operations on a map of rows, the
 errors they can report, and the bound that keeps the table from filling up.
 */
module RowLinear {
  import opened Wrappers
  import opened Bytes
  import opened Probing
  import opened RowBlock
  import opened RowProtocol
  import opened RowProtocolInv
  import opened RowProtocolSteps
  import opened RowProtocolResults

  // ---- The errors an operation can report ---------------------------------------

  /** The operation is over, or only has its reservation to give back. */
  predicate Ended(pc: PC) { pc.Idle? || pc.Release? }

  function ResultOf(pc: PC): Outcome
    requires Ended(pc)
  {
    if pc.Idle? then pc.out else pc.result
  }

  /** In this step thread `t`'s operation, a read or a write, ends with this result. */
  ghost predicate Reports(s: State, s': State, t: nat, out: Outcome) {
    t < |s.threads| && t < |s'.threads| && !Ended(s.threads[t].pc) && Ended(s'.threads[t].pc) && ResultOf(s'.threads[t].pc) == out
  }

  lemma FailReports(s: State, t: nat, out: Outcome)
    requires t < |s.threads| && !Ended(s.threads[t].pc)
    ensures Reports(s, Fail(s, t, out), t, out)
    ensures forall o :: Reports(s, Fail(s, t, out), t, o) ==> o == out
  {
  }

  /** A probe that met every bucket found all of them occupied. */
  lemma ProbesExhausted(c: Config, s: State, t: nat, p: nat)
    requires c.Valid() && Shape(c, s) && t < |s.threads| && LookOk(c, s, t, p) && p + 1 == |s.slots|
    requires var i := SlotAt(c, s, s.threads[t].op.row, p); s.owner[i].Some? && s.owner[i].value != s.threads[t].op.row
    ensures !HasRoom(s.owner)
  {
    var r := s.threads[t].op.row;
    PassedMore(s.owner, r, c.Start(r, |s.slots|), p);
    forall j | 0 <= j < |s.owner| ensures s.owner[j] != None {
      assert Dist(c.Start(r, |s.slots|), j, |s.owner|) < p + 1;
    }
  }

  lemma NextProbeReports(c: Config, s: State, t: nat, p: nat, out: Outcome)
    requires c.Valid() && Shape(c, s) && t < |s.threads| && LookOk(c, s, t, p) && IsLooking(s.threads[t].pc)
    requires var i := SlotAt(c, s, s.threads[t].op.row, p); s.owner[i].Some? && s.owner[i].value != s.threads[t].op.row
    requires Reports(s, NextProbe(s, t, p), t, out)
    ensures out == TableFull && !HasRoom(s.owner)
  {
    if p + 1 == |s.slots| {
      ProbesExhausted(c, s, t, p);
      FailReports(s, t, TableFull);
    }
  }

  /** The block offset and the block size of this snapshot come from writes of different sizes. */
  ghost predicate Torn(s: State, pc: PC) {
    pc.ReadHeader? && |pc.snap.src| == FIELDS && pc.snap.src[3] < |s.extents| && pc.snap.src[4] < |s.extents|
    && |s.extents[pc.snap.src[3]].bytes| != |s.extents[pc.snap.src[4]].bytes|
  }

  lemma HeaderSizes(c: Config, s: State, t: nat, p: nat, snap: Snap, hd: BlockHeader)
    requires c.Valid() && Shape(c, s) && ExtentsOk(c, s) && BlocksOk(c, s) && t < |s.threads| && ThreadOk(c, s, t)
    requires s.threads[t].pc == ReadHeader(p, snap) && HeaderOk(s, snap, hd)
    ensures |snap.fields| == FIELDS && (Torn(s, s.threads[t].pc) <==> hd.blockSize != snap.fields[4])
  {
    var i := SlotAt(c, s, s.threads[t].op.row, p);
    SnapAddresses(c, s, i, snap);
    assert Good(s, snap.src[3], s.owner[i].value) && Good(s, snap.src[4], s.owner[i].value);
  }

  lemma ReadHeaderReports(c: Config, s: State, t: nat, p: nat, snap: Snap, out: Outcome)
    requires c.Valid() && Shape(c, s) && ExtentsOk(c, s) && BlocksOk(c, s) && t < |s.threads| && ThreadOk(c, s, t)
    requires s.threads[t].pc == ReadHeader(p, snap)
    requires Reports(s, DoReadHeader(c, s, t, p, snap), t, out)
    ensures Torn(s, s.threads[t].pc) ==> out == CorruptBlock
    ensures !Torn(s, s.threads[t].pc) ==> out == TableFull && !HasRoom(s.owner)
  {
    var hd := ReadHeaderOf(c, s, t, p, snap);
    HeaderSizes(c, s, t, p, snap, hd);
    if hd.blockSize != snap.fields[4] {
      FailReports(s, t, CorruptBlock);
    } else if hd.columnSize != |s.threads[t].op.row.column| {
      NextProbeReports(c, s, t, p, out);
    }
  }

  lemma RecheckReports(c: Config, s: State, t: nat, p: nat, snap: Snap, out: Outcome)
    requires c.Valid() && Shape(c, s) && ExtentsOk(c, s) && BlocksOk(c, s) && t < |s.threads| && ThreadOk(c, s, t)
    requires s.threads[t].pc == Recheck(p, snap) && Reports(s, DoRecheck(c, s, t, p, snap), t, out)
    ensures out == TableFull && !HasRoom(s.owner)
  {
    SnapAddresses(c, s, SlotAt(c, s, s.threads[t].op.row, p), snap);
    NextProbeReports(c, s, t, p, out);
  }

  lemma ReadColumnReports(c: Config, s: State, t: nat, p: nat, snap: Snap, hd: BlockHeader, out: Outcome)
    requires c.Valid() && Shape(c, s) && ExtentsOk(c, s) && BlocksOk(c, s) && t < |s.threads| && ThreadOk(c, s, t)
    requires s.threads[t].pc == ReadColumn(p, snap, hd)
    requires Reports(s, DoReadColumn(c, s, t, p, snap, hd), t, out)
    ensures out == TableFull && !HasRoom(s.owner)
  {
    ReadColumnOf(c, s, t, p, snap, hd);
    if s.owner[SlotAt(c, s, s.threads[t].op.row, p)].value.column != s.threads[t].op.row.column {
      NextProbeReports(c, s, t, p, out);
    }
  }

  lemma ReadValueReports(c: Config, s: State, t: nat, p: nat, snap: Snap, hd: BlockHeader, out: Outcome)
    requires Inv(c, s) && t < |s.threads| && s.threads[t].pc == ReadValue(p, snap, hd)
    requires |snap.fields| == FIELDS && s.threads[t].op.GetRow? && Reports(s, DoReadValue(c, s, t, snap, hd), t, out)
    ensures out != TableFull && out != CorruptBlock
  {
    ReadValueAnswers(c, s, t, p, snap, hd);
  }

  /**
   No operation, read or write, reports a full table while an empty bucket
   remains, and none reports corruption unless its snapshot mixes two writes of
   different block sizes.
   */
  lemma ErrorsExplained(c: Config, s: State, s': State, t: nat, out: Outcome)
    requires Inv(c, s) && Step(c, s, s', t) && Reports(s, s', t, out)
    ensures out == TableFull ==> !HasRoom(s.owner)
    ensures out == CorruptBlock ==> Torn(s, s.threads[t].pc)
  {
    hide ExtentsOk, Ordered, BlocksOk, FilesOk, SlotsOk, IndexOk, TableOk, CountsOk, LookOk, SnapOk, StoreOk;
    assert ThreadOk(c, s, t);
    match s.threads[t].pc
    case Recheck(p, snap) => RecheckReports(c, s, t, p, snap, out);
    case ReadHeader(p, snap) => ReadHeaderReports(c, s, t, p, snap, out);
    case ReadColumn(p, snap, hd) => ReadColumnReports(c, s, t, p, snap, hd, out);
    case ReadValue(p, snap, hd) => ReadValueReports(c, s, t, p, snap, hd, out);
    case _ => OtherReports(c, s, s', t, out);
  }

  lemma OtherReports(c: Config, s: State, s': State, t: nat, out: Outcome)
    requires c.Valid() && Shape(c, s) && Step(c, s, s', t) && Reports(s, s', t, out)
    requires var pc := s.threads[t].pc; !pc.Recheck? && !pc.ReadHeader? && !pc.ReadColumn? && !pc.ReadValue?
    ensures out in {RowMissing, NoCapacity, TooLarge, WriteFailed, Stored}
  {
  }

  /** A torn snapshot that is used is always noticed. */
  lemma TornIsReported(c: Config, s: State, s': State, t: nat)
    requires Inv(c, s) && t < |s.threads| && Torn(s, s.threads[t].pc) && Step(c, s, s', t)
    ensures Reports(s, s', t, CorruptBlock)
  {
    assert ThreadOk(c, s, t);
    match s.threads[t].pc
    case ReadHeader(p, snap) =>
      var hd := ReadHeaderOf(c, s, t, p, snap);
      HeaderSizes(c, s, t, p, snap, hd);
      FailReports(s, t, CorruptBlock);
  }

  // ---- Rows written once -----------------------------------------------------------

  lemma OnceIsUntorn(c: Config, s: State, t: nat)
    requires Inv(c, s) && WrittenOnce(s) && t < |s.threads|
    ensures !Torn(s, s.threads[t].pc)
  {
    if s.threads[t].pc.ReadHeader? {
      assert ThreadOk(c, s, t);
      var snap := s.threads[t].pc.snap;
      var i := SlotAt(c, s, s.threads[t].op.row, s.threads[t].pc.p);
      assert Good(s, snap.src[3], s.owner[i].value) && Good(s, snap.src[4], s.owner[i].value);
    }
  }

  /** The snapshot leads to the block now published for this row. */
  ghost predicate Current(s: State, snap: Snap, r: Row) {
    |snap.src| == FIELDS && r in s.index && snap.src[3] == s.index[r].ext
  }

  lemma OnceIsCurrent(c: Config, s: State, t: nat)
    requires Inv(c, s) && WrittenOnce(s) && t < |s.threads| && s.threads[t].pc.ReadValue?
    ensures Current(s, s.threads[t].pc.snap, s.threads[t].op.row)
  {
    assert ThreadOk(c, s, t);
    var r := s.threads[t].op.row;
    var i := SlotAt(c, s, r, s.threads[t].pc.p);
    assert SlotOk(c, s, i);
    assert PubOk(s, r, s.index[r]);
    assert Good(s, s.threads[t].pc.snap.src[3], r);
  }

  /** A read that ends without an error answers as the map of rows stands at that moment. */
  lemma CurrentAnswers(c: Config, s: State, s': State, t: nat, out: Outcome)
    requires Inv(c, s) && Step(c, s, s', t) && Returns(s, s', t, out) && out != TableFull && out != CorruptBlock
    requires s.threads[t].pc.ReadValue? ==> Current(s, s.threads[t].pc.snap, s.threads[t].op.row)
    ensures IndexInRange(s) && out == RowAnswer(Abs(s), s.threads[t].op.row, s.threads[t].op.key)
  {
    AbsDefined(c, s);
    assert ThreadOk(c, s, t);
    var th := s.threads[t];
    ReturnSteps(c, s, s', t, out);
    match th.pc
    case Probing(p) => EmptyEndsRead(c, s, t, p);
    case ReadValue(p, snap, hd) =>
      ReadValueAnswers(c, s, t, p, snap, hd);
      AnswerOfRow(s, th.op.row, th.op.key);
    case _ =>
  }

  lemma EmptyEndsRead(c: Config, s: State, t: nat, p: nat)
    requires c.Valid() && Shape(c, s) && SlotsOk(c, s) && TableOk(c, s) && IndexOk(s) && t < |s.threads| && LookOk(c, s, t, p)
    requires s.slots[SlotAt(c, s, s.threads[t].op.row, p)].state == Empty
    ensures s.threads[t].op.row !in s.index
  {
    assert SlotOk(c, s, SlotAt(c, s, s.threads[t].op.row, p));
    EmptyMeansUnpublished(c, s, t, p);
  }

  lemma AnswerOfRow(s: State, r: Row, key: seq<byte>)
    requires IndexInRange(s) && r in s.index
    ensures RowAnswer(Abs(s), r, key) == RowAnswer(map[r := LastMap(s.extents[s.index[r].ext].entries)], r, key)
  {
  }

  lemma OnceEarlier(c: Config, states: seq<State>, who: seq<nat>, i: nat)
    requires Run(c, states, who) && Inv(c, states[0]) && i < |states| && WrittenOnce(states[|states| - 1])
    ensures WrittenOnce(states[i])
  {
    var s, z := states[i], states[|states| - 1];
    RunGrows(c, states, who, i, |states| - 1);
    forall a, b | 0 <= a < |s.extents| && 0 <= b < |s.extents| && StoredTogether(s.extents[a], s.extents[b]) ensures a == b
    {
      assert SameExtent(s.extents[a], z.extents[a]) && SameExtent(s.extents[b], z.extents[b]);
      assert FateLasts(s.extents[a], z.extents[a]) && FateLasts(s.extents[b], z.extents[b]);
      assert StoredTogether(z.extents[a], z.extents[b]);
    }
  }

  /**
   Linearizability where each row is written once: in any run of any number of
   threads, every read answers exactly as the map of published rows stands when
   it returns, and neither reads nor writes report an error while an empty
   bucket remains.
   */
  lemma OnceWrittenReadsLinearise(c: Config, states: seq<State>, who: seq<nat>, i: nat, out: Outcome)
    requires Run(c, states, who) && Inv(c, states[0]) && WrittenOnce(states[|states| - 1])
    requires i < |who| && HasRoom(states[i].owner)
    ensures Reports(states[i], states[i + 1], who[i], out) ==> out != TableFull && out != CorruptBlock
    ensures IndexInRange(states[i])
    ensures Returns(states[i], states[i + 1], who[i], out) ==>
      out == RowAnswer(Abs(states[i]), states[i].threads[who[i]].op.row, states[i].threads[who[i]].op.key)
  {
    var s, s', t := states[i], states[i + 1], who[i];
    RunKeepsInvariant(c, states, who, i);
    OnceEarlier(c, states, who, i);
    AbsDefined(c, s);
    OnceIsUntorn(c, s, t);
    if Returns(s, s', t, out) { assert ThreadOk(c, s, t); assert Reports(s, s', t, out); }
    if Reports(s, s', t, out) { ErrorsExplained(c, s, s', t, out); }
    if Returns(s, s', t, out) {
      if s.threads[t].pc.ReadValue? { OnceIsCurrent(c, s, t); }
      CurrentAnswers(c, s, s', t, out);
    }
  }

  /** A row written once, when published, is what every later state of the run holds for it. */
  lemma PublishedRowsStay(c: Config, states: seq<State>, who: seq<nat>, i: nat, j: nat, r: Row)
    requires Run(c, states, who) && Inv(c, states[0]) && WrittenOnce(states[|states| - 1])
    requires i <= j < |states| && r in states[i].index
    ensures IndexInRange(states[i]) && IndexInRange(states[j])
    ensures r in states[j].index && Abs(states[j])[r] == Abs(states[i])[r]
  {
    RunKeepsInvariant(c, states, who, i);
    RunKeepsInvariant(c, states, who, j);
    RunGrows(c, states, who, i, j);
    OnceEarlier(c, states, who, j);
    AbsDefined(c, states[i]);
    AbsDefined(c, states[j]);
    PublishedRowStays(states[i], states[j], r);
  }

  lemma PublishedRowStays(s: State, z: State, r: Row)
    requires Grows(s, z) && IndexOk(s) && IndexOk(z) && WrittenOnce(z) && IndexInRange(s) && IndexInRange(z) && r in s.index
    ensures r in z.index && Abs(z)[r] == Abs(s)[r]
  {
    var e := s.index[r].ext;
    assert PubOk(s, r, s.index[r]) && PubOk(z, r, z.index[r]);
    assert SameExtent(s.extents[e], z.extents[e]);
    assert z.index[r].ext == e;
  }

  /**
   A read that returns at any time after a row's Filled store never misses the
   row: it returns exactly that write's value, or that the key is not in it.
   */
  lemma PublishedRowsAreNeverMissed(c: Config, states: seq<State>, who: seq<nat>, i: nat, j: nat, out: Outcome)
    requires Run(c, states, who) && Inv(c, states[0]) && WrittenOnce(states[|states| - 1])
    requires i <= j < |who| && HasRoom(states[j].owner) && Returns(states[j], states[j + 1], who[j], out)
    requires states[j].threads[who[j]].op.row in states[i].index
    ensures IndexInRange(states[i])
    ensures var op := states[j].threads[who[j]].op;
      var written := Abs(states[i])[op.row];
      out == if op.key in written then Found(written[op.key]) else KeyMissing
  {
    OnceWrittenReadsLinearise(c, states, who, j, out);
    PublishedRowsStay(c, states, who, i, j, states[j].threads[who[j]].op.row);
  }
}
