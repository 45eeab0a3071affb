/**
 PutRowStruct on the map of rows: load the row's entries, edit one key, write the
 row again.
 */
module RowUpdate {
  import opened Wrappers
  import opened Bytes
  import opened RowBlock
  import opened RowBlockRead
  import opened RowProtocol
  import opened RowProtocolInv
  import opened RowProtocolSteps
  import opened RowProtocolResults
  import opened RowLinear
  import opened RowAdmission
  import opened RowSerial
  import opened RowAtomic
  import opened RowQuiescent

  /** What LoadRowEntries finds for a row: the decoded entries of its published block, or nothing. */
  function Loaded(c: Config, s: State, r: Row): seq<Entry>
    requires IndexInRange(s)
  {
    if r in s.index then Decode(c.h, s.extents[s.index[r].ext].bytes, r).GetOr([]) else []
  }

  function RowOr(m: map<Row, map<seq<byte>, seq<byte>>>, r: Row): map<seq<byte>, seq<byte>> {
    if r in m then m[r] else map[]
  }

  /** Loading never fails, and the entries loaded are the row's map, each key once. */
  lemma LoadedIsRow(c: Config, s: State, r: Row)
    requires Inv(c, s)
    ensures IndexInRange(s) && DistinctKeys(Loaded(c, s, r)) && LastMap(Loaded(c, s, r)) == RowOr(Abs(s), r)
    ensures r in s.index ==> Decode(c.h, s.extents[s.index[r].ext].bytes, r).Some?
  {
    AbsDefined(c, s);
    if r in s.index {
      assert PubOk(s, r, s.index[r]);
      var x := s.extents[s.index[r].ext];
      assert IsBlock(c, x);
      DecodeIsMap(c.h, c.sizing, x.row, x.entries, x.sequence);
    }
  }

  // ---- The reads of LoadRowEntries --------------------------------------------------------

  predicate Writes(th: Thread, r: Row) { !th.pc.Idle? && !th.op.GetRow? && th.op.row == r }

  /** From state `i` to state `j` nobody writes row `r`. */
  ghost predicate Unwritten(states: seq<State>, i: nat, j: nat, r: Row) {
    forall k, t :: i <= k <= j && k < |states| && 0 <= t < |states[k].threads| ==> !Writes(states[k].threads[t], r)
  }

  lemma PublisherWrites(c: Config, s: State, t: nat)
    requires Inv(c, s) && t < |s.threads| && s.threads[t].pc.Publish?
    ensures !s.threads[t].op.GetRow?
  {
    assert ThreadOk(c, s, t);
  }

  lemma {:induction false} UnwrittenEntry(c: Config, states: seq<State>, who: seq<nat>, i: nat, j: nat, r: Row)
    requires Run(c, states, who) && Inv(c, states[0]) && i <= j < |states| && Unwritten(states, i, j, r)
    ensures SameIndexEntry(states[i], states[j], r)
  {
    hide Inv, Step;
    if i < j {
      UnwrittenEntry(c, states, who, i, j - 1, r);
      RunKeepsInvariant(c, states, who, j - 1);
      IndexSteps(c, states[j - 1], states[j], who[j - 1]);
      StepHasThread(c, states[j - 1], states[j], who[j - 1]);
      if states[j - 1].threads[who[j - 1]].pc.Publish? { PublisherWrites(c, states[j - 1], who[j - 1]); }
    }
  }

  /** The row's bucket in a state in which nobody writes the row. */
  ghost predicate SettledBucket(c: Config, s: State, i: nat, x: Extent) {
    && i < |s.slots| && s.slots[i].state == Filled && |s.slots[i].fields| == FIELDS
    && (forall k :: 0 <= k < FIELDS ==> s.slots[i].fields[k] == FieldOf(c, x, k))
    && ShardRead(s, x.shard, x.offset, |x.bytes|) == Some(x.bytes)
  }

  lemma UnwrittenBucket(c: Config, states: seq<State>, i: nat, j: nat, k: nat, r: Row)
    requires i <= k <= j && k < |states| && Unwritten(states, i, j, r) && Inv(c, states[k]) && r in states[k].index
    ensures states[k].index[r].ext < |states[k].extents|
    ensures SettledBucket(c, states[k], states[k].index[r].slot, states[k].extents[states[k].index[r].ext])
  {
    hide Ordered, BlocksOk, FilesOk, TableOk, CountsOk;
    var s := states[k];
    var pub := s.index[r];
    assert PubOk(s, r, pub) && SlotOk(c, s, pub.slot) && ExtentOk(c, s, pub.ext);
    if s.slots[pub.slot].state == Writing {
      HolderWrites(c, s, pub.slot);
      assert false;
    }
    FilledWords(c, s, pub.slot, pub.ext);
    var x := s.extents[pub.ext];
    ReadsExtent(s.files[x.shard], x);
  }

  lemma FilledWords(c: Config, s: State, i: nat, e: nat)
    requires c.Valid() && Shape(c, s) && i < |s.slots| && SlotOk(c, s, i) && s.slots[i].state == Filled
    requires s.owner[i].value in s.index && s.index[s.owner[i].value].ext == e < |s.extents|
    ensures forall k :: 0 <= k < FIELDS ==> s.slots[i].fields[k] == FieldOf(c, s.extents[e], k)
  {
    var snap := Snap(s.slots[i].fields, s.slots[i].src);
    forall k | 0 <= k < FIELDS ensures s.slots[i].fields[k] == FieldOf(c, s.extents[e], k) {
      assert snap.fields[k] == FieldOf(c, s.extents[snap.src[k]], k);
    }
  }

  /** A probe that matched a row stands at the row's bucket. */
  lemma MatchedBucket(c: Config, s: State, t: nat)
    requires Inv(c, s) && t < |s.threads| && s.threads[t].pc.ReadValue?
    ensures var r := s.threads[t].op.row;
      s.threads[t].pc.p < |s.slots| && r in s.index && s.index[r].slot == SlotAt(c, s, r, s.threads[t].pc.p)
  {
    hide ExtentsOk, Ordered, BlocksOk, FilesOk, IndexOk, TableOk, CountsOk, SlotAt;
    assert ThreadOk(c, s, t);
    assert SlotOk(c, s, SlotAt(c, s, s.threads[t].op.row, s.threads[t].pc.p));
  }

  function WordAt(s: State, i: nat, k: nat): nat {
    if i < |s.slots| && k < |s.slots[i].fields| then s.slots[i].fields[k] else 0
  }

  /** The block read at state `b` through the words loaded from bucket `i` at the states `at`. */
  function LoadedBlock(states: seq<State>, i: nat, at: seq<nat>, b: nat): Option<seq<byte>>
    requires b < |states| && |at| == FIELDS && forall k :: 0 <= k < FIELDS ==> at[k] < |states|
  {
    ShardRead(states[b], WordAt(states[at[0]], i, 0), WordAt(states[at[3]], i, 3), WordAt(states[at[4]], i, 4))
  }

  /**
   The reads that LoadRowEntries makes, each at its own moment: once the probe of
   FindRowBucket has matched the row, the bucket stays Filled, and a second
   snapshot of it, whenever each of its words is loaded, and a block read after
   that decode to the entries of the row's published block, as long as nobody
   writes the row meanwhile.
   */
  lemma LoadRowEntriesIsLoaded(c: Config, states: seq<State>, who: seq<nat>, i: nat, j: nat, t: nat, r: Row,
                               f: nat, at: seq<nat>, b: nat, m: nat)
    requires Run(c, states, who) && Inv(c, states[0]) && j < |states| && Unwritten(states, i, j, r)
    requires i <= f <= j && t < |states[f].threads| && states[f].threads[t].op.row == r && states[f].threads[t].pc.ReadValue?
    requires |at| == FIELDS && (forall k :: 0 <= k < FIELDS ==> i <= at[k] <= j) && i <= b <= j && i <= m <= j
    ensures |states[f].slots| > 0 && states[f].threads[t].pc.p < |states[f].slots|
    ensures var bucket := SlotAt(c, states[f], r, states[f].threads[t].pc.p);
      && bucket < |states[m].slots| && states[m].slots[bucket].state == Filled
      && IndexInRange(states[m]) && r in states[m].index
      && LoadedBlock(states, bucket, at, b).Some?
      && Decode(c.h, LoadedBlock(states, bucket, at, b).value, r) == Some(Loaded(c, states[m], r))
  {
    hide Inv, Step, SettledBucket, LoadedBlock, Unwritten, Decode, Loaded, SlotAt, Config.Valid;
    RunKeepsInvariant(c, states, who, f);
    RunKeepsInvariant(c, states, who, m);
    InvSizes(c, states[f]);
    AbsDefined(c, states[m]);
    MatchedBucket(c, states[f], t);
    SettledThroughout(c, states, who, i, j, f, m, r);
    SettledThroughout(c, states, who, i, j, m, m, r);
    var pub, x := states[f].index[r], states[m].extents[states[m].index[r].ext];
    SettledIsFilled(c, states[m], pub.slot, x);
    SettledThroughout(c, states, who, i, j, m, b, r);
    SettledThroughout(c, states, who, i, j, m, at[0], r);
    SettledThroughout(c, states, who, i, j, m, at[3], r);
    SettledThroughout(c, states, who, i, j, m, at[4], r);
    SettledRead(c, states, pub.slot, at, b, x);
    LoadedIsRow(c, states[m], r);
    LoadedHere(c, states[m], r);
  }

  lemma SettledIsFilled(c: Config, s: State, i: nat, x: Extent)
    requires SettledBucket(c, s, i, x)
    ensures i < |s.slots| && s.slots[i].state == Filled
  {
  }

  lemma LoadedHere(c: Config, s: State, r: Row)
    requires IndexInRange(s) && r in s.index && Decode(c.h, s.extents[s.index[r].ext].bytes, r).Some?
    ensures Decode(c.h, s.extents[s.index[r].ext].bytes, r) == Some(Loaded(c, s, r))
  {
    hide Decode;
  }

  lemma SettledRead(c: Config, states: seq<State>, i: nat, at: seq<nat>, b: nat, x: Extent)
    requires b < |states| && |at| == FIELDS && forall k :: 0 <= k < FIELDS ==> at[k] < |states|
    requires SettledBucket(c, states[b], i, x)
    requires SettledBucket(c, states[at[0]], i, x) && SettledBucket(c, states[at[3]], i, x) && SettledBucket(c, states[at[4]], i, x)
    ensures LoadedBlock(states, i, at, b) == Some(x.bytes)
  {
    hide ShardRead;
  }

  /** At any two moments of the stretch the bucket is the same and holds the words of the same extent. */
  lemma SettledThroughout(c: Config, states: seq<State>, who: seq<nat>, i: nat, j: nat, m: nat, k: nat, r: Row)
    requires Run(c, states, who) && Inv(c, states[0]) && j < |states| && Unwritten(states, i, j, r)
    requires i <= m <= j && i <= k <= j && r in states[m].index
    ensures r in states[k].index && states[k].index[r] == states[m].index[r]
    ensures states[m].index[r].ext < |states[m].extents|
    ensures SettledBucket(c, states[k], states[m].index[r].slot, states[m].extents[states[m].index[r].ext])
  {
    hide Inv, Step, SettledBucket, Grows;
    RunKeepsInvariant(c, states, who, m);
    RunKeepsInvariant(c, states, who, k);
    UnwrittenStretch(c, states, who, i, j, m, r);
    UnwrittenStretch(c, states, who, i, j, k, r);
    UnwrittenBucket(c, states, i, j, k, r);
    UnwrittenBucket(c, states, i, j, m, r);
    var e := states[m].index[r].ext;
    if m <= k {
      RunGrows(c, states, who, m, k);
      SameWords(c, states[m], states[k], states[k], states[m].index[r].slot, e);
    } else {
      RunGrows(c, states, who, k, m);
      SameWords(c, states[k], states[m], states[k], states[m].index[r].slot, e);
    }
  }

  lemma UnwrittenStretch(c: Config, states: seq<State>, who: seq<nat>, i: nat, j: nat, k: nat, r: Row)
    requires Run(c, states, who) && Inv(c, states[0]) && j < |states| && Unwritten(states, i, j, r) && i <= k <= j
    ensures SameIndexEntry(states[i], states[k], r)
  {
    assert Unwritten(states, i, k, r);
    UnwrittenEntry(c, states, who, i, k, r);
  }

  lemma SameWords(c: Config, a: State, b: State, s: State, i: nat, e: nat)
    requires Grows(a, b) && e < |a.extents|
    ensures e < |b.extents| && (SettledBucket(c, s, i, a.extents[e]) <==> SettledBucket(c, s, i, b.extents[e]))
  {
    assert SameExtent(a.extents[e], b.extents[e]);
  }

  /** A probe that ends at an empty bucket tells that there is nothing to load. */
  lemma NothingToLoad(c: Config, s: State, s': State, t: nat, r: Row)
    requires Inv(c, s) && Step(c, s, s', t) && Returns(s, s', t, RowMissing) && s.threads[t].op.row == r
    ensures IndexInRange(s) && r !in s.index && Loaded(c, s, r) == []
  {
    hide Inv, Step;
    AbsDefined(c, s);
    NotAtValue(c, s, s', t);
    CurrentAnswers(c, s, s', t, RowMissing);
  }

  lemma NotAtValue(c: Config, s: State, s': State, t: nat)
    requires Inv(c, s) && Step(c, s, s', t) && Returns(s, s', t, RowMissing)
    ensures !s.threads[t].pc.ReadValue?
  {
    hide Inv, FindValue;
  }

  // ---- The write ------------------------------------------------------------------------------

  /** The entries PutRowStruct writes hold the row's map with one key changed. */
  lemma EditedIsUpdate(c: Config, s: State, r: Row, e: Entry)
    requires Inv(c, s)
    ensures IndexInRange(s) && LastMap(Edit(Loaded(c, s, r), e, 0)) == RowOr(Abs(s), r)[e.key := e.value]
  {
    LoadedIsRow(c, s, r);
    EditIsUpdate(Loaded(c, s, r), e, 0);
  }

  ghost predicate SameIndexEntry(s: State, s': State, r: Row) {
    (r in s.index <==> r in s'.index) && (r in s.index ==> s'.index[r] == s.index[r])
  }

  /** Thread `t` works on row `r` from after step `i` until step `j`, and publishes nothing before `j`. */
  ghost predicate WorksOn(states: seq<State>, who: seq<nat>, i: nat, j: nat, t: nat, r: Row)
    requires i <= j < |who| < |states|
  {
    forall k :: i < k <= j ==>
      t < |states[k].threads| && !states[k].threads[t].pc.Idle? && !states[k].threads[t].op.GetRow? && states[k].threads[t].op.row == r
      && (k < j && who[k] == t ==> !states[k].threads[t].pc.Publish?)
  }

  /** With calls for a row kept apart, nothing changes the row while this one works on it. */
  lemma {:induction false} EntryStays(c: Config, states: seq<State>, who: seq<nat>, i: nat, j: nat, t: nat, r: Row)
    requires SerialisedRun(c, states, who, WritesOnly) && Inv(c, states[0]) && i < j < |who| && WorksOn(states, who, i, j, t, r)
    ensures SameIndexEntry(states[i + 1], states[j], r)
  {
    hide Inv, Step, Serialised;
    if i + 1 < j {
      assert WorksOn(states, who, i, j - 1, t, r);
      EntryStays(c, states, who, i, j - 1, t, r);
      RunKeepsInvariant(c, states, who, j - 1);
      if who[j - 1] == t {
        IndexSteps(c, states[j - 1], states[j], t);
      } else {
        IndexEntryStays(c, states[j - 1], states[j], who[j - 1], t, WritesOnly);
      }
    }
  }

  lemma SameRow(s: State, s': State, r: Row)
    requires IndexInRange(s) && IndexInRange(s') && Grows(s, s') && SameIndexEntry(s, s', r)
    ensures RowOr(Abs(s), r) == RowOr(Abs(s'), r)
  {
    if r in s.index { assert SameExtent(s.extents[s.index[r].ext], s'.extents[s.index[r].ext]); }
  }

  /**
   PutRowStruct is a map update: the entries are those loaded when the call began
   with one key edited, and when its Filled store takes effect the row's map is
   the old one with that key set, and every other row is as it was.
   */
  lemma PutRowStructIsMapUpdate(c: Config, states: seq<State>, who: seq<nat>, i: nat, j: nat, t: nat, r: Row, e: Entry)
    requires SerialisedRun(c, states, who, WritesOnly) && Inv(c, states[0]) && i < j < |who| && WorksOn(states, who, i, j, t, r)
    requires who[i] == t && t < |states[i].threads| && states[i].threads[t].pc.Idle?
    requires who[j] == t && states[j].threads[t].pc.Publish?
    requires IndexInRange(states[i])
    requires states[j].threads[t].op.entries == Edit(Loaded(c, states[i], r), e, 0)
    ensures IndexInRange(states[j]) && IndexInRange(states[j + 1])
    ensures Abs(states[j + 1]) == Abs(states[j])[r := RowOr(Abs(states[j]), r)[e.key := e.value]]
  {
    RunKeepsInvariant(c, states, who, i);
    RunKeepsInvariant(c, states, who, j);
    IndexSteps(c, states[i], states[i + 1], t);
    EntryStays(c, states, who, i, j, t, r);
    RunGrows(c, states, who, i, j);
    AbsDefined(c, states[j]);
    SameRow(states[i], states[j], r);
    EditedIsUpdate(c, states[i], r, e);
    StepsRefineMap(c, states[j], states[j + 1], t);
  }

  /** The entries that a block read through these loads decodes to. */
  function ReadEntries(c: Config, states: seq<State>, bucket: nat, at: seq<nat>, b: nat, r: Row): seq<Entry>
    requires b < |states| && |at| == FIELDS && forall k :: 0 <= k < FIELDS ==> at[k] < |states|
  {
    match LoadedBlock(states, bucket, at, b)
    case None => []
    case Some(block) => Decode(c.h, block, r).GetOr([])
  }

  /** How LoadRowEntries went: what its probe ended with, and when it loaded each word and the block. */
  datatype Load = Missing | Matched(at: seq<nat>, block: nat)

  /**
   Between states `l` and `i` thread `u` probes for the row, its probe ending at
   state `f`, and what it then reads, each word and the block at a moment of its
   own, decodes to `entries`.
   */
  ghost predicate LoadsEntries(c: Config, states: seq<State>, l: nat, i: nat, u: nat, f: nat, r: Row, load: Load, entries: seq<Entry>) {
    && l <= f < i < |states| && u < |states[f].threads| && states[f].threads[u].op.row == r
    && match load
       case Missing => Returns(states[f], states[f + 1], u, RowMissing) && entries == []
       case Matched(at, b) =>
         && states[f].threads[u].pc.ReadValue? && states[f].threads[u].pc.p < |states[f].slots|
         && l <= b <= i && |at| == FIELDS && (forall k :: 0 <= k < FIELDS ==> l <= at[k] <= i)
         && entries == ReadEntries(c, states, SlotAt(c, states[f], r, states[f].threads[u].pc.p), at, b, r)
  }

  /** What was loaded is what is published when the write begins. */
  lemma LoadsWhatIsThere(c: Config, states: seq<State>, who: seq<nat>, l: nat, i: nat, u: nat, f: nat, r: Row, load: Load, entries: seq<Entry>)
    requires Run(c, states, who) && Inv(c, states[0]) && Unwritten(states, l, i, r) && LoadsEntries(c, states, l, i, u, f, r, load, entries)
    requires load.Missing? ==> who[f] == u
    ensures IndexInRange(states[i]) && entries == Loaded(c, states[i], r)
  {
    hide Inv, Step, Decode, Unwritten, LoadedBlock, SlotAt, Loaded;
    RunKeepsInvariant(c, states, who, f);
    RunKeepsInvariant(c, states, who, i);
    AbsDefined(c, states[i]);
    match load
    case Missing =>
      NothingToLoad(c, states[f], states[f + 1], u, r);
      UnwrittenStretch(c, states, who, l, i, f, r);
      UnwrittenStretch(c, states, who, l, i, i, r);
      AbsentLoads(c, states[i], r);
    case Matched(at, b) =>
      LoadRowEntriesIsLoaded(c, states, who, l, i, u, r, f, at, b, i);
  }

  lemma AbsentLoads(c: Config, s: State, r: Row)
    requires IndexInRange(s) && r !in s.index
    ensures Loaded(c, s, r) == []
  {
  }

  /**
   The whole of PutRowStruct: the probe, the second snapshot and the block read of
   loading, the edit, and the write.  While no other write of the row runs beside
   it, its Filled store sets the one key in the row's map and changes nothing else.
   */
  lemma PutRowStructUpdates(c: Config, states: seq<State>, who: seq<nat>, l: nat, u: nat, f: nat, load: Load, entries: seq<Entry>,
                            i: nat, j: nat, t: nat, r: Row, e: Entry)
    requires SerialisedRun(c, states, who, WritesOnly) && Inv(c, states[0]) && Unwritten(states, l, i, r)
    requires i < j < |who| && LoadsEntries(c, states, l, i, u, f, r, load, entries) && (load.Missing? ==> who[f] == u)
    requires WorksOn(states, who, i, j, t, r) && who[i] == t && t < |states[i].threads| && states[i].threads[t].pc.Idle?
    requires who[j] == t && states[j].threads[t].pc.Publish? && states[j].threads[t].op.entries == Edit(entries, e, 0)
    ensures IndexInRange(states[j]) && IndexInRange(states[j + 1])
    ensures Abs(states[j + 1]) == Abs(states[j])[r := RowOr(Abs(states[j]), r)[e.key := e.value]]
  {
    hide *;
    RunOfSerialised(c, states, who);
    LoadsWhatIsThere(c, states, who, l, i, u, f, r, load, entries);
    PutRowStructIsMapUpdate(c, states, who, i, j, t, r, e);
  }

  lemma RunOfSerialised(c: Config, states: seq<State>, who: seq<nat>)
    requires SerialisedRun(c, states, who, WritesOnly)
    ensures Run(c, states, who)
  {
  }

  // ---- The number of rows ------------------------------------------------------------------------

  /** The rows that the steps from state `i` to state `j` publish. */
  ghost function PublishedRows(states: seq<State>, who: seq<nat>, i: nat, j: nat): set<Row>
    requires i <= j <= |who| < |states|
  {
    if i == j then {} else PublishedRows(states, who, i, j - 1) + PublishedBy(states[j - 1], who[j - 1])
  }

  ghost function PublishedBy(s: State, t: nat): set<Row> {
    if t < |s.threads| && s.threads[t].pc.Publish? then {s.threads[t].op.row} else {}
  }

  /** Over any stretch of a run the rows become the old ones and those published. */
  lemma {:induction false} RowsGrow(c: Config, states: seq<State>, who: seq<nat>, i: nat, j: nat)
    requires Run(c, states, who) && i <= j < |states|
    ensures states[j].index.Keys == states[i].index.Keys + PublishedRows(states, who, i, j)
  {
    hide Step;
    if i < j {
      RowsGrow(c, states, who, i, j - 1);
      StepHasThread(c, states[j - 1], states[j], who[j - 1]);
      IndexSteps(c, states[j - 1], states[j], who[j - 1]);
    }
  }

  /** Between two states with nothing in flight the row count grows by exactly the rows published that were absent. */
  lemma RowCountGrows(c: Config, states: seq<State>, who: seq<nat>, i: nat, j: nat)
    requires Run(c, states, who) && Inv(c, states[0]) && i <= j < |states| && AllIdle(states[i]) && AllIdle(states[j])
    ensures states[j].itemCount == states[i].itemCount + |PublishedRows(states, who, i, j) - states[i].index.Keys|
  {
    hide Inv, Step, AllIdle;
    RunKeepsInvariant(c, states, who, i);
    RunKeepsInvariant(c, states, who, j);
    QuiescentIsClean(c, states[i]);
    QuiescentIsClean(c, states[j]);
    RowsGrow(c, states, who, i, j);
    var before, added := states[i].index.Keys, PublishedRows(states, who, i, j) - states[i].index.Keys;
    assert states[j].index.Keys == before + added;
  }

  lemma {:induction false} OnlyRowPublished(states: seq<State>, who: seq<nat>, i: nat, j: nat, k: nat, r: Row)
    requires i <= k < j <= |who| < |states|
    requires forall m :: i <= m < j ==> PublishedBy(states[m], who[m]) <= {r}
    requires PublishedBy(states[k], who[k]) == {r}
    ensures PublishedRows(states, who, i, j) == {r}
  {
    if k < j - 1 { OnlyRowPublished(states, who, i, j - 1, k, r); }
    else { PublishedWithin(states, who, i, j - 1, r); }
  }

  lemma {:induction false} PublishedWithin(states: seq<State>, who: seq<nat>, i: nat, j: nat, r: Row)
    requires i <= j <= |who| < |states|
    requires forall m :: i <= m < j ==> PublishedBy(states[m], who[m]) <= {r}
    ensures PublishedRows(states, who, i, j) <= {r}
  {
    if i < j { PublishedWithin(states, who, i, j - 1, r); }
  }

  /**
   PutRowStruct counts a row exactly when it adds one: between two states with
   nothing in flight, in a run in which no other row is published, the row count
   grows by one if the row was absent and stays otherwise.
   */
  lemma PutRowStructCountsNewRows(c: Config, states: seq<State>, who: seq<nat>, i: nat, j: nat, k: nat, r: Row)
    requires Run(c, states, who) && Inv(c, states[0]) && i <= k < j < |states| && AllIdle(states[i]) && AllIdle(states[j])
    requires forall m :: i <= m < j ==> PublishedBy(states[m], who[m]) <= {r}
    requires PublishedBy(states[k], who[k]) == {r}
    ensures IndexInRange(states[i]) && IndexInRange(states[j])
    ensures states[j].itemCount == states[i].itemCount + (if r in Abs(states[i]) then 0 else 1)
    ensures Abs(states[j]).Keys == Abs(states[i]).Keys + {r}
  {
    hide *;
    RunSizes(c, states, who);
    RunKeepsInvariant(c, states, who, i);
    RunKeepsInvariant(c, states, who, j);
    AbsDefined(c, states[i]);
    AbsDefined(c, states[j]);
    AbsRows(states[i]);
    AbsRows(states[j]);
    RowCountGrows(c, states, who, i, j);
    RowsGrow(c, states, who, i, j);
    OnlyRowPublished(states, who, i, j, k, r);
    var keys := states[i].index.Keys;
    assert {r} - keys == if r in keys then {} else {r};
  }

  lemma RunSizes(c: Config, states: seq<State>, who: seq<nat>)
    requires Run(c, states, who)
    ensures |states| == |who| + 1
  {
  }

  lemma AbsRows(s: State)
    requires IndexInRange(s)
    ensures Abs(s).Keys == s.index.Keys
  {
  }
}
