/**
 What the row index protocol guarantees, over every run of any number of threads.
 */
module RowProtocolResults {
  import opened Wrappers
  import opened Bytes
  import opened Probing
  import opened RowBlock
  import opened RowBlockRead
  import opened RowProtocol
  import opened RowProtocolInv
  import opened RowProtocolSteps
  import opened RowProtocolWrites

  // ---- Runs --------------------------------------------------------------------

  /** `states[i + 1]` follows from `states[i]` by a step of thread `who[i]`. */
  ghost predicate Run(c: Config, states: seq<State>, who: seq<nat>) {
    && c.Valid() && |states| == |who| + 1
    && (forall i :: 0 <= i < |who| ==> Shape(c, states[i]) && Step(c, states[i], states[i + 1], who[i]))
  }

  lemma {:induction false} RunKeepsInvariant(c: Config, states: seq<State>, who: seq<nat>, i: nat)
    requires Run(c, states, who) && i < |states| && Inv(c, states[0])
    ensures Inv(c, states[i])
  {
    hide Inv, Step;
    if i > 0 {
      RunKeepsInvariant(c, states, who, i - 1);
      StepKeepsInvariant(c, states[i - 1], states[i], who[i - 1]);
    }
  }

  lemma FailExtends(c: Config, s: State, t: nat, out: Outcome)
    requires c.Valid() && Shape(c, s) && ThreadsOk(c, s) && t < |s.threads|
    requires s.threads[t].pc.WriteBlock? || IsLooking(s.threads[t].pc)
    ensures Extends(s, Fail(s, t, out), t)
  {
    if !s.threads[t].op.GetRow? {
      WriterOwns(c, s, t);
      FailIsAbandon(s, t, out);
    }
  }

  /** Shared memory is only read, or a counter changes; no bucket, extent or file does. */
  predicate IsCounting(pc: PC) {
    pc.Idle? || pc.LoadItems? || pc.LoadPending? || pc.TryReserve? || pc.TakeSequence? || pc.CountItem? || pc.Release?
  }

  predicate IsReading(pc: PC) {
    pc.Probing? || pc.LoadField? || pc.Recheck? || pc.ReadHeader? || pc.ReadColumn? || pc.ReadValue?
  }

  lemma CountingSteps(c: Config, s: State, s': State, t: nat)
    requires c.Valid() && Shape(c, s) && Step(c, s, s', t) && IsCounting(s.threads[t].pc)
    ensures Quiet(s, s', t)
  {
  }

  lemma LoadingSteps(c: Config, s: State, s': State, t: nat)
    requires c.Valid() && Shape(c, s) && Step(c, s, s', t)
    requires s.threads[t].pc.Probing? || s.threads[t].pc.LoadField? || s.threads[t].pc.ReadValue?
    ensures Quiet(s, s', t)
  {
  }

  lemma MatchingSteps(c: Config, s: State, s': State, t: nat)
    requires c.Valid() && Shape(c, s) && Step(c, s, s', t)
    requires s.threads[t].pc.Recheck? || s.threads[t].pc.ReadHeader? || s.threads[t].pc.ReadColumn?
    ensures Quiet(s, s', t) || s' == Fail(s, t, TableFull) || s' == Fail(s, t, CorruptBlock)
  {
    hide Fail, ShardRead, ParseBlockHeader, IsValidRowBlockHeader;
  }

  /** A step that only loads, counts or decides moves its own thread alone, or gives the operation up. */
  lemma LocalSteps(c: Config, s: State, s': State, t: nat)
    requires c.Valid() && Shape(c, s) && Step(c, s, s', t)
    requires IsCounting(s.threads[t].pc) || IsReading(s.threads[t].pc)
    ensures Quiet(s, s', t) || (IsLooking(s.threads[t].pc) && exists out :: s' == Fail(s, t, out))
  {
    match s.threads[t].pc
    case Probing(_) => LoadingSteps(c, s, s', t);
    case LoadField(_, _) => LoadingSteps(c, s, s', t);
    case ReadValue(_, _, _) => LoadingSteps(c, s, s', t);
    case Recheck(_, _) => MatchingSteps(c, s, s', t);
    case ReadHeader(_, _) => MatchingSteps(c, s, s', t);
    case ReadColumn(_, _, _) => MatchingSteps(c, s, s', t);
    case _ => CountingSteps(c, s, s', t);
  }

  lemma LocalStepExtends(c: Config, s: State, s': State, t: nat)
    requires c.Valid() && Shape(c, s) && ThreadsOk(c, s) && Step(c, s, s', t)
    requires IsCounting(s.threads[t].pc) || IsReading(s.threads[t].pc)
    ensures Extends(s, s', t)
  {
    LocalSteps(c, s, s', t);
    if Quiet(s, s', t) {
      QuietExtends(c, s, s', t);
    } else {
      var out :| s' == Fail(s, t, out);
      FailExtends(c, s, t, out);
    }
  }

  lemma ClaimStepExtends(c: Config, s: State, s': State, t: nat, q: nat)
    requires c.Valid() && Shape(c, s) && Ordered(s) && Step(c, s, s', t)
    requires ThreadsOk(c, s) && s.threads[t].pc == ClaimExtent(q)
    ensures Extends(s, s', t)
  {
    assert ThreadOk(c, s, t);
    if Writable(c.h, c.sizing, s.threads[t].op.row, s.threads[t].op.entries, q) {
      var x := NewExtent(c, s, t, q);
      NewExtentIsBlock(c, s, t, q);
      assert s' == AddExtent(s, t, x);
      ClaimExtends(c, s, s', t, x);
    } else {
      assert s' == Goto(s, t, After(s.threads[t].op, TooLarge));
      QuietExtends(c, s, s', t);
    }
  }

  lemma WriteStepExtends(c: Config, s: State, s': State, t: nat, done: nat)
    requires c.Valid() && Shape(c, s) && ThreadsOk(c, s) && Ordered(s)
    requires t < |s.threads| && s.threads[t].pc == WriteBlock(done) && WriteStep(s, s', t, done)
    ensures Extends(s, s', t)
  {
    assert ThreadOk(c, s, t);
    if s' == Fail(s, t, WriteFailed) {
      FailExtends(c, s, t, WriteFailed);
    } else {
      var e := s.threads[t].ext;
      var n :| 0 < n <= |s.extents[e].bytes| - done && s' == DoWrite(s, t, done, n);
      WriteExtends(c, s, s', t, done, n, s'.extents[e]);
    }
  }

  lemma ClaimedBucketExtends(c: Config, s: State, s': State, t: nat, p: nat, i: nat)
    requires c.Valid() && Shape(c, s) && ThreadsOk(c, s) && SlotsOk(c, s)
    requires t < |s.threads| && p < |s.slots| && i == SlotAt(c, s, s.threads[t].op.row, p)
    requires (s.threads[t].pc == CasEmpty(p) && s' == DoCasEmpty(c, s, t, p))
          || (s.threads[t].pc == CasFilled(p) && s' == DoCasFilled(c, s, t, p))
    ensures Extends(s, s', t)
  {
    assert ThreadOk(c, s, t) && SlotOk(c, s, i);
    if s' == Goto(s, t, Probing(0)) {
      QuietExtends(c, s, s', t);
    } else {
      TakeExtends(c, s, t, p, i, s.threads[t].pc.CasEmpty?);
    }
  }

  lemma StoringExtends(c: Config, s: State, s': State, t: nat)
    requires c.Valid() && Shape(c, s) && ThreadsOk(c, s) && Step(c, s, s', t) && IsStoring(s.threads[t].pc)
    ensures Extends(s, s', t)
  {
    assert ThreadOk(c, s, t);
    match s.threads[t].pc
    case StoreField(p, k, ins) => StoreExtends(c, s, t, p, k, ins);
    case Publish(p, ins) => PublishExtends(c, s, t, p, ins);
  }

  /** A step of one thread leaves the other threads' facts alone, whatever step it is. */
  lemma StepExtends(c: Config, s: State, s': State, t: nat)
    requires Inv(c, s) && Step(c, s, s', t)
    ensures Extends(s, s', t)
  {
    match s.threads[t].pc
    case ClaimExtent(q) => ClaimStepExtends(c, s, s', t, q);
    case WriteBlock(done) => WriteStepExtends(c, s, s', t, done);
    case CasEmpty(p) => ClaimedBucketExtends(c, s, s', t, p, SlotAt(c, s, s.threads[t].op.row, p));
    case CasFilled(p) => ClaimedBucketExtends(c, s, s', t, p, SlotAt(c, s, s.threads[t].op.row, p));
    case StoreField(_, _, _) => StoringExtends(c, s, s', t);
    case Publish(_, _) => StoringExtends(c, s, s', t);
    case _ => LocalStepExtends(c, s, s', t);
  }

  /** What never changes from one state of a run to any later one. */
  ghost predicate Grows(s: State, s': State) {
    && |s'.slots| == |s.slots| == |s.owner| == |s'.owner| && |s'.threads| == |s.threads|
    && (forall i :: 0 <= i < |s.slots| && s.owner[i].Some? ==> s'.owner[i] == s.owner[i])
    && (forall r :: r in s.index ==> r in s'.index)
    && |s.extents| <= |s'.extents|
    && (forall e :: 0 <= e < |s.extents| ==> SameExtent(s.extents[e], s'.extents[e]))
    && (forall e :: 0 <= e < |s.extents| ==> FateLasts(s.extents[e], s'.extents[e]))
  }

  predicate FateLasts(x: Extent, y: Extent) {
    (IsStored(x) ==> IsStored(y)) && (x.fate.Published? ==> y.fate.Published?)
  }

  lemma ExtendsGrows(s: State, s': State, t: nat)
    requires Extends(s, s', t)
    ensures Grows(s, s')
  {
    forall e | 0 <= e < |s.extents|
      ensures SameExtent(s.extents[e], s'.extents[e]) && FateLasts(s.extents[e], s'.extents[e])
    {
      assert ExtentExtends(s.extents[e], s'.extents[e], t);
    }
  }

  lemma {:induction false} RunGrows(c: Config, states: seq<State>, who: seq<nat>, i: nat, j: nat)
    requires Run(c, states, who) && i <= j < |states| && Inv(c, states[0])
    ensures Grows(states[i], states[j])
    decreases j
  {
    hide Inv, Step;
    RunKeepsInvariant(c, states, who, i);
    GrowsNone(c, states[i]);
    if i < j {
      RunGrows(c, states, who, i, j - 1);
      RunKeepsInvariant(c, states, who, j - 1);
      StepExtends(c, states[j - 1], states[j], who[j - 1]);
      ExtendsGrows(states[j - 1], states[j], who[j - 1]);
    }
  }

  lemma GrowsNone(c: Config, s: State)
    requires Inv(c, s)
    ensures Grows(s, s)
  {
  }

  // ---- The bucket protocol --------------------------------------------------------

  /**
   Over any run: a claimed bucket keeps its row for good and never becomes empty
   again, even when several threads write the same row at once.
   */
  lemma BucketsAreForever(c: Config, states: seq<State>, who: seq<nat>, i: nat, j: nat, b: nat)
    requires Run(c, states, who) && i <= j < |states| && Inv(c, states[0])
    requires b < |states[i].slots| && states[i].slots[b].state != Empty
    ensures |states[j].slots| == |states[i].slots| == |states[i].owner| == |states[j].owner|
    ensures states[j].slots[b].state != Empty
    ensures states[i].owner[b].Some? && states[j].owner[b] == states[i].owner[b]
  {
    RunKeepsInvariant(c, states, who, i);
    RunKeepsInvariant(c, states, who, j);
    RunGrows(c, states, who, i, j);
    assert SlotOk(c, states[i], b) && SlotOk(c, states[j], b);
  }

  /** A Writing bucket is held by exactly one thread, and only Writing buckets are held. */
  lemma WritingHasOneOwner(c: Config, s: State, i: nat)
    requires Inv(c, s) && i < |s.slots|
    ensures s.slots[i].state == Writing <==> exists t :: 0 <= t < |s.threads| && HoldsSlot(c, s, t, i)
    ensures forall t, u :: 0 <= t < |s.threads| && 0 <= u < |s.threads| && HoldsSlot(c, s, t, i) && HoldsSlot(c, s, u, i) ==> t == u
  {
    assert SlotOk(c, s, i);
    forall t | 0 <= t < |s.threads| && HoldsSlot(c, s, t, i)
      ensures s.slots[i].state == Writing && s.slots[i].holder == t
    {
      assert ThreadOk(c, s, t);
    }
  }

  /**
   The occupied buckets always form a probe table: no row has two, and every
   bucket between a row's first slot and its bucket is occupied.
   */
  lemma BucketsFormATable(c: Config, s: State, i: nat, j: nat)
    requires Inv(c, s) && i < |s.slots| && j < |s.slots| && s.slots[i].state != Empty
    ensures s.owner[i].Some?
    ensures s.slots[j].state != Empty && s.owner[j] == s.owner[i] ==> i == j
    ensures var start := c.Start(s.owner[i].value, |s.slots|);
      Dist(start, j, |s.slots|) < Dist(start, i, |s.slots|) ==> s.slots[j].state != Empty
  {
    assert SlotOk(c, s, i) && SlotOk(c, s, j);
  }

  // ---- Publication ------------------------------------------------------------------

  /**
   Whatever threads claim them and whenever, two extents of one shard never
   overlap: the range one run state records and the range any other records for
   another extent stay apart.
   */
  lemma ExtentsAreDisjoint(c: Config, states: seq<State>, who: seq<nat>, i: nat, j: nat, a: nat, b: nat)
    requires Run(c, states, who) && i <= j < |states| && Inv(c, states[0])
    requires a < |states[i].extents| && b < |states[j].extents| && a != b
    requires states[i].extents[a].shard == states[j].extents[b].shard
    ensures var x, y := states[i].extents[a], states[j].extents[b];
      x.offset + |x.bytes| <= y.offset || y.offset + |y.bytes| <= x.offset
  {
    hide ExtentsOk, BlocksOk, FilesOk, SlotsOk, IndexOk, TableOk, ThreadsOk, CountsOk, Step;
    RunKeepsInvariant(c, states, who, j);
    RunGrows(c, states, who, i, j);
    assert SameExtent(states[i].extents[a], states[j].extents[a]);
  }

  /**
   A Filled bucket holds one writer's six words, untorn, and they lead to that
   writer's complete block, whose header agrees with the bucket.
   */
  lemma FilledPointsAtBlock(c: Config, s: State, i: nat)
    requires Inv(c, s) && i < |s.slots| && s.slots[i].state == Filled
    ensures s.owner[i].Some? && s.owner[i].value in s.index && s.index[s.owner[i].value].ext < |s.extents|
    ensures var x := s.extents[s.index[s.owner[i].value].ext];
      var w := s.slots[i].fields;
      && x.row == s.owner[i].value && x.fate.Published?
      && (forall k :: 0 <= k < FIELDS ==> w[k] == FieldOf(c, x, k))
      && w[0] < |s.files| && BlockIsAt(s.files[w[0]], w[3], x.bytes) && w[4] == |x.bytes|
      && BlockFacts(c, x)
      && IsBlock(c, x)
  {
    hide Ordered, FilesOk, TableOk, CountsOk, BlockFacts;
    assert SlotOk(c, s, i);
    var slot, r := s.slots[i], s.owner[i].value;
    assert PubOk(s, r, s.index[r]);
    var snap := Snap(slot.fields, slot.src);
    forall k | 0 <= k < FIELDS ensures slot.fields[k] == FieldOf(c, s.extents[s.index[r].ext], k) {
      assert Good(s, snap.src[k], r);
    }
    assert slot.src[3] == s.index[r].ext;
    SnapAddresses(c, s, i, snap);
    assert s.extents[s.index[r].ext] in s.extents;
  }

  /** Once published, a block stays byte for byte in its file for the rest of the run. */
  lemma PublishedBlocksAreStable(c: Config, states: seq<State>, who: seq<nat>, i: nat, j: nat, e: nat)
    requires Run(c, states, who) && i <= j < |states| && Inv(c, states[0])
    requires e < |states[i].extents| && states[i].extents[e].fate.Published?
    ensures e < |states[j].extents| && states[j].extents[e].bytes == states[i].extents[e].bytes
    ensures var x := states[i].extents[e];
      x.shard < |states[j].files| && BlockIsAt(states[j].files[x.shard], x.offset, x.bytes)
  {
    RunKeepsInvariant(c, states, who, j);
    RunGrows(c, states, who, i, j);
    assert SameExtent(states[i].extents[e], states[j].extents[e]) && FateLasts(states[i].extents[e], states[j].extents[e]);
    assert ExtentOk(c, states[j], e);
    ReadsExtent(states[j].files[states[j].extents[e].shard], states[j].extents[e]);
  }

  /** Each row has been stored at most once so far; writes that failed before claiming a bucket do not count. */
  ghost predicate WrittenOnce(s: State) {
    forall a, b :: 0 <= a < |s.extents| && 0 <= b < |s.extents| && StoredTogether(s.extents[a], s.extents[b]) ==> a == b
  }

  predicate StoredTogether(x: Extent, y: Extent) { IsStored(x) && IsStored(y) && x.row == y.row }

  lemma FullSnapshotIsUntorn(c: Config, s: State, i: nat, snap: Snap)
    requires Inv(c, s) && WrittenOnce(s) && i < |s.slots| && SnapOk(c, s, i, snap) && |snap.src| == FIELDS
    ensures snap.src[3] < |s.extents|
    ensures forall k :: 0 <= k < FIELDS ==> snap.fields[k] == FieldOf(c, s.extents[snap.src[3]], k)
  {
    var r := s.owner[i].value;
    assert Good(s, snap.src[3], r);
    forall k | 0 <= k < FIELDS ensures snap.src[k] == snap.src[3] {
      assert Good(s, snap.src[k], r);
    }
  }

  /** A thread that has loaded all six words of a bucket and has not begun to compare or use others. */
  predicate HasFullSnap(pc: PC) { pc.Recheck? || pc.ReadHeader? || pc.ReadColumn? || pc.ReadValue? }

  lemma FullSnapIsOk(c: Config, s: State, t: nat)
    requires c.Valid() && Shape(c, s) && t < |s.threads| && ThreadOk(c, s, t) && HasFullSnap(s.threads[t].pc)
    ensures var th := s.threads[t];
      th.pc.p < |s.slots| && |th.pc.snap.src| == FIELDS == |th.pc.snap.fields| && SnapOk(c, s, SlotAt(c, s, th.op.row, th.pc.p), th.pc.snap)
  {
  }

  /**
   In any run in which each row is stored once, whatever any thread has loaded
   from a bucket by the time it has all six words is the words of one write, of
   the row the bucket belongs to.
   */
  lemma SnapshotsAreUntorn(c: Config, states: seq<State>, who: seq<nat>, i: nat, t: nat) returns (e: nat)
    requires Run(c, states, who) && Inv(c, states[0]) && i < |states| && WrittenOnce(states[i])
    requires t < |states[i].threads| && HasFullSnap(states[i].threads[t].pc)
    ensures var s, th := states[i], states[i].threads[t];
      && e < |s.extents| && IsStored(s.extents[e]) && th.pc.p < |s.slots| == |s.owner| && |th.pc.snap.fields| == FIELDS
      && s.owner[SlotAt(c, s, th.op.row, th.pc.p)] == Some(s.extents[e].row)
      && forall k :: 0 <= k < FIELDS ==> th.pc.snap.fields[k] == FieldOf(c, s.extents[e], k)
  {
    RunKeepsInvariant(c, states, who, i);
    var s, th := states[i], states[i].threads[t];
    assert ThreadOk(c, s, t);
    FullSnapIsOk(c, s, t);
    FullSnapshotIsUntorn(c, s, SlotAt(c, s, th.op.row, th.pc.p), th.pc.snap);
    e := th.pc.snap.src[3];
    assert Good(s, e, s.owner[SlotAt(c, s, th.op.row, th.pc.p)].value);
  }

  // ---- Reads and writes as operations on a map ------------------------------------------

  ghost predicate IndexInRange(s: State) {
    forall r :: r in s.index ==> s.index[r].ext < |s.extents|
  }

  /** The rows published so far, each with its key-value map. */
  ghost function Abs(s: State): map<Row, map<seq<byte>, seq<byte>>>
    requires IndexInRange(s)
  {
    map r | r in s.index :: LastMap(s.extents[s.index[r].ext].entries)
  }

  lemma AbsDefined(c: Config, s: State)
    requires Inv(c, s)
    ensures IndexInRange(s)
  {
    forall r | r in s.index ensures s.index[r].ext < |s.extents| { assert PubOk(s, r, s.index[r]); }
  }

  /** What reading `key` of `row` in a map of rows answers. */
  function RowAnswer(m: map<Row, map<seq<byte>, seq<byte>>>, row: Row, key: seq<byte>): Outcome {
    if row !in m then RowMissing else if key in m[row] then Found(m[row][key]) else KeyMissing
  }

  /** The index changes only at the Filled store of a write, which sets its own row. */
  lemma IndexSteps(c: Config, s: State, s': State, t: nat)
    requires c.Valid() && Shape(c, s) && Step(c, s, s', t)
    ensures !s.threads[t].pc.Publish? ==> s'.index == s.index
    ensures s.threads[t].pc.Publish? ==>
      s'.index == s.index[s.threads[t].op.row := Pub(SlotAt(c, s, s.threads[t].op.row, s.threads[t].pc.p), s.threads[t].ext)]
  {
    var pc := s.threads[t].pc;
    if IsCounting(pc) || IsReading(pc) {
      LocalSteps(c, s, s', t);
    }
  }

  /**
   Every step either leaves the map of rows as it is or is the Filled store of a
   write, which puts exactly that write's entries under its row.
   */
  lemma StepsRefineMap(c: Config, s: State, s': State, t: nat)
    requires Inv(c, s) && Step(c, s, s', t)
    ensures IndexInRange(s) && IndexInRange(s')
    ensures !s.threads[t].pc.Publish? ==> Abs(s') == Abs(s)
    ensures s.threads[t].pc.Publish? ==> !s.threads[t].op.GetRow?
    ensures s.threads[t].pc.Publish? ==> Abs(s') == Abs(s)[s.threads[t].op.row := LastMap(s.threads[t].op.entries)]
  {
    StepKeepsInvariant(c, s, s', t);
    StepExtends(c, s, s', t);
    IndexSteps(c, s, s', t);
    AbsDefined(c, s);
    AbsDefined(c, s');
    if s.threads[t].pc.Publish? { assert ThreadOk(c, s, t); }
    AbsStep(s, s', t);
  }

  lemma AbsStep(s: State, s': State, t: nat)
    requires t < |s.threads| && Extends(s, s', t) && IndexInRange(s) && IndexInRange(s')
    requires !s.threads[t].pc.Publish? ==> s'.index == s.index
    requires s.threads[t].pc.Publish? ==> Owner(s, t, Storing)
    requires s.threads[t].pc.Publish? ==> exists i :: s'.index == s.index[s.threads[t].op.row := Pub(i, s.threads[t].ext)]
    ensures !s.threads[t].pc.Publish? ==> Abs(s') == Abs(s)
    ensures s.threads[t].pc.Publish? ==> Abs(s') == Abs(s)[s.threads[t].op.row := LastMap(s.threads[t].op.entries)]
  {
    hide LastMap;
    forall r | r in s.index ensures s'.extents[s.index[r].ext].entries == s.extents[s.index[r].ext].entries {
      assert ExtentExtends(s.extents[s.index[r].ext], s'.extents[s.index[r].ext], t);
    }
    if s.threads[t].pc.Publish? {
      assert ExtentExtends(s.extents[s.threads[t].ext], s'.extents[s.threads[t].ext], t);
    }
  }

  /** Thread `t` finishes a read in this step with this result. */
  ghost predicate Returns(s: State, s': State, t: nat, out: Outcome) {
    t < |s.threads| && t < |s'.threads| && s.threads[t].op.GetRow? && !s.threads[t].pc.Idle? && s'.threads[t].pc == Idle(out)
  }

  /** The answer of one complete write of the row, for this read. */
  ghost predicate AnswersFrom(s: State, e: nat, row: Row, key: seq<byte>, out: Outcome) {
    Good(s, e, row) && out == RowAnswer(map[row := LastMap(s.extents[e].entries)], row, key)
  }

  /** The point lookup through a matched snapshot answers from the extent it addresses. */
  lemma ReadValueAnswers(c: Config, s: State, t: nat, p: nat, snap: Snap, hd: BlockHeader)
    requires Inv(c, s) && t < |s.threads| && s.threads[t].pc == ReadValue(p, snap, hd)
    ensures |snap.fields| == FIELDS == |snap.src| && s.threads[t].op.GetRow? && snap.src[3] < |s.extents|
    ensures var r := s.threads[t].op.row;
      var out := RowAnswer(map[r := LastMap(s.extents[snap.src[3]].entries)], r, s.threads[t].op.key);
      AnswersFrom(s, snap.src[3], r, s.threads[t].op.key, out) && DoReadValue(c, s, t, snap, hd) == Goto(s, t, Idle(out))
  {
    hide Ordered, FilesOk, SlotsOk, IndexOk, TableOk, CountsOk, LastMap, FindValue;
    assert ThreadOk(c, s, t);
    var r := s.threads[t].op.row;
    var i := SlotAt(c, s, r, p);
    SnapAddresses(c, s, i, snap);
    var x := s.extents[snap.src[3]];
    assert Good(s, snap.src[3], s.owner[i].value);
    assert x in s.extents;
    BlockAnswers(c, x, hd, s.files[snap.fields[0]], snap.fields[3], s.threads[t].op.key);
  }

  lemma BlockAnswers(c: Config, x: Extent, hd: BlockHeader, file: seq<byte>, offset: nat, key: seq<byte>)
    requires c.Valid() && IsBlock(c, x) && BlockIsAt(file, offset, x.bytes)
    requires |x.bytes| >= BLOCK_HEADER_SIZE && ParseBlockHeader(x.bytes[..BLOCK_HEADER_SIZE]) == hd
    ensures FindValue(c.h, file, offset, hd, key)
         == if key in LastMap(x.entries) then Value(LastMap(x.entries)[key]) else Missing
  {
    HeaderReadBack(c.h, c.sizing, x.row, x.entries, x.sequence);
    LookupIsLast(c.h, c.sizing, x.row, x.entries, x.sequence, file, offset, key);
  }

  /** Which steps of a read return, and what. */
  lemma ReturnSteps(c: Config, s: State, s': State, t: nat, out: Outcome)
    requires c.Valid() && Shape(c, s) && Step(c, s, s', t) && Returns(s, s', t, out) && IsReading(s.threads[t].pc)
    ensures match s.threads[t].pc
      case Probing(p) => p < |s.slots| && out == RowMissing && s.slots[SlotAt(c, s, s.threads[t].op.row, p)].state == Empty
      case ReadHeader(_, _) => out == TableFull || out == CorruptBlock
      case ReadColumn(_, _, _) => out == TableFull || out == CorruptBlock
      case ReadValue(p, snap, hd) => |snap.fields| == FIELDS && s' == DoReadValue(c, s, t, snap, hd)
      case _ => s.threads[t].pc.Recheck? && out == TableFull
  {
  }

  /** What a read may return, with no assumption on how often a row is written. */
  lemma ReadsReturnWrites(c: Config, s: State, s': State, t: nat, out: Outcome)
    requires Inv(c, s) && Step(c, s, s', t) && Returns(s, s', t, out)
    ensures out == RowMissing ==> s.threads[t].op.row !in s.index
    ensures out.Found? || out.KeyMissing? ==> exists e: nat :: AnswersFrom(s, e, s.threads[t].op.row, s.threads[t].op.key, out)
    ensures out in {RowMissing, KeyMissing, TableFull, CorruptBlock} || out.Found?
  {
    hide ExtentsOk, Ordered, BlocksOk, FilesOk, CountsOk, DoReadValue;
    assert ThreadOk(c, s, t);
    ReturnSteps(c, s, s', t, out);
    var th := s.threads[t];
    match th.pc
    case Probing(p) =>
      assert SlotOk(c, s, SlotAt(c, s, th.op.row, p));
      EmptyMeansUnpublished(c, s, t, p);
    case ReadValue(p, snap, hd) => ReadValueAnswers(c, s, t, p, snap, hd);
    case _ =>
  }
}
