/**
 What a rewrite of a row can do to a read that runs beside it.  Between the two
 Filled loads of the reader the writer may claim the bucket, store all six words
 and publish: the snapshot is torn, and the read reports corruption.  And once the
 reader has compared the column, a rewrite makes its answer stale.  Both runs are
 built from any state with two idle threads and a stored row, wherever its bucket.
 */
module RowTorn {
  import opened Wrappers
  import opened Bytes
  import opened Probing
  import opened RowBlock
  import opened RowBlockRead
  import opened RowProtocol
  import opened RowProtocolInv
  import opened RowProtocolResults
  import opened RowLinear
  import opened RowAdmission
  import opened RowSerial
  import opened RowQuiescent
  import opened RowReach

  /** Row `r` is stored in its `p`-th bucket from extent `e`, behind Filled buckets of other rows. */
  ghost predicate StoredAt(c: Config, s: State, r: Row, p: nat, e: nat) {
    Clear(c, s, r, p) && p < |s.slots| && SettledAt(s, SlotAt(c, s, r, p), r, e)
  }

  lemma StoredFacts(c: Config, s: State, r: Row, p: nat, e: nat)
    requires StoredAt(c, s, r, p, e)
    ensures Clear(c, s, r, p) && p < |s.slots| == |s.owner|
    ensures var i := SlotAt(c, s, r, p); SettledAt(s, i, r, e) && s.slots[i].state == Filled && s.owner[i] == Some(r)
    ensures r in s.index && s.index[r].ext == e
  {
  }

  /** In a state with nothing in flight every stored row lies so. */
  lemma QuiescentIsStored(c: Config, s: State, r: Row) returns (p: nat)
    requires Inv(c, s) && AllIdle(s) && r in s.index
    ensures StoredAt(c, s, r, p, s.index[r].ext)
  {
    hide Inv, AllIdle, Chained, Distinct, Dist, At;
    InvShape(c, s);
    var i, start := s.index[r].slot, c.Start(r, |s.slots|);
    StoredSlot(c, s, r);
    IdleBuckets(c, s, i);
    FilledIsSettled(c, s, i);
    p := Dist(start, i, |s.slots|);
    AtDist(start, i, |s.slots|);
    forall k | 0 <= k < p ensures s.slots[SlotAt(c, s, r, k)].state == Filled && s.owner[SlotAt(c, s, r, k)] != Some(r) {
      var j := SlotAt(c, s, r, k);
      DistOf(start, k, |s.slots|);
      BeforeStored(c, s, r, i, j);
      IdleBuckets(c, s, j);
    }
  }

  lemma StoredSlot(c: Config, s: State, r: Row)
    requires Inv(c, s) && r in s.index
    ensures s.index[r].slot < |s.slots| == |s.owner| && s.owner[s.index[r].slot] == Some(r)
  {
    assert PubOk(s, r, s.index[r]);
  }

  lemma BeforeStored(c: Config, s: State, r: Row, i: nat, j: nat)
    requires Inv(c, s) && i < |s.owner| && j < |s.owner| && s.owner[i] == Some(r) && |s.owner| == |s.slots|
    requires Dist(c.Start(r, |s.slots|), j, |s.slots|) < Dist(c.Start(r, |s.slots|), i, |s.slots|)
    ensures s.owner[j].Some? && s.owner[j] != Some(r)
  {
    hide ExtentsOk, Ordered, BlocksOk, FilesOk, SlotsOk, IndexOk, ThreadsOk, CountsOk;
  }

  /** A call begins its probe and comes to its `p`-th bucket. */
  lemma ReadComes(c: Config, s: State, cast: Cast, a: State, u: nat, q: Row, key: seq<byte>, p: nat) returns (b: State)
    requires Reach(c, s, cast, a) && Inv(c, a) && u in cast && cast[u] == Reads(q) && u < |a.threads| && a.threads[u].pc.Idle?
    requires q.id < TWO64 && |q.column| < TWO32 && Clear(c, a, q, p)
    ensures Reach(c, s, cast, b) && Inv(c, b) && u < |b.threads| == |a.threads|
    ensures b == a.(threads := a.threads[u := b.threads[u]]) && b.threads[u].op == GetRow(q, key) && b.threads[u].pc == Probing(p)
  {
    hide Inv, Reach, Grows, Clear, SlotAt;
    InvShape(c, a);
    var d := a.(threads := a.threads[u := Thread(GetRow(q, key), 0, Probing(0))]);
    assert Begin(a, d, u, GetRow(q, key));
    Moves(c, s, cast, a, d, u);
    ClearMoves(c, a, d, q, p);
    b := PassesTo(c, s, cast, d, u, 0, p);
  }

  lemma LooksHere(c: Config, s: State, t: nat, r: Row, p: nat)
    requires t < |s.threads| && p < |s.slots| && SameBucket(c, r, s.threads[t].op.row)
    ensures LooksAt(c, s, t, p, SlotAt(c, s, r, p))
  {
    SameProbes(c, s, r, s.threads[t].op.row, p);
  }

  /** A write of an indexed row begins, writes its block and comes to the row's bucket. */
  lemma WriteComes(c: Config, s: State, cast: Cast, a: State, t: nat, r: Row, entries: seq<Entry>, p: nat, e: nat) returns (b: State)
    requires Reach(c, s, cast, a) && Inv(c, a) && t in cast && cast[t] == Writes(r) && t < |a.threads| && a.threads[t].pc.Idle?
    requires StoredAt(c, a, r, p, e) && entries != [] && Writable(c.h, c.sizing, r, entries, a.nextSequence)
    requires r.id < TWO64 && |r.column| < TWO32
    ensures Reach(c, s, cast, b) && Inv(c, b) && OthersWait(a, b, t) && SameTable(a, b) && t < |b.threads| && |b.extents| == |a.extents| + 1
    ensures b.threads[t] == Thread(UpdateRow(r, entries), |a.extents|, Probing(p))
    ensures b.extents[|a.extents|].bytes == BlockBytes(c.h, c.sizing, r, entries, a.nextSequence) && b.extents[|a.extents|].entries == entries
  {
    hide Inv, Reach, Grows, OthersWait, Clear, SlotAt, BlockBytes, Writable, SettledAt;
    InvShape(c, a);
    StoredFacts(c, a, r, p, e);
    var x1 := a.(threads := a.threads[t := Thread(UpdateRow(r, entries), 0, TakeSequence)]);
    assert Begin(a, x1, t, UpdateRow(r, entries));
    Moves(c, s, cast, a, x1, t);
    var x2 := WritesBlock(c, s, cast, x1, t);
    WaitLonger(a, x1, x2, t);
    ClearMoves(c, a, x2, r, p);
    b := PassesTo(c, s, cast, x2, t, 0, p);
    MovedWaits(a, x2, b, t);
  }

  lemma MovedWaits(a: State, b: State, d: State, t: nat)
    requires OthersWait(a, b, t) && t < |b.threads| == |d.threads| && d == b.(threads := b.threads[t := d.threads[t]])
    ensures OthersWait(a, d, t)
  {
  }

  /** From the row's bucket an update compares it, claims it, stores its words and publishes. */
  lemma UpdatesBucket(c: Config, s: State, cast: Cast, a: State, t: nat, r: Row, p: nat, e: nat) returns (b: State)
    requires Reach(c, s, cast, a) && Inv(c, a) && t in cast && t < |a.threads| && StoredAt(c, a, r, p, e)
    requires a.threads[t].op.UpdateRow? && a.threads[t].op.row == r && a.threads[t].pc == Probing(p)
    ensures Reach(c, s, cast, b) && Inv(c, b) && OthersWait(a, b, t) && |b.slots| == |a.slots|
    ensures SettledAt(b, SlotAt(c, a, r, p), r, a.threads[t].ext)
  {
    hide Inv, Reach, Grows, OthersWait, Clear, SlotAt, SettledAt, From;
    InvShape(c, a);
    StoredFacts(c, a, r, p, e);
    LooksHere(c, a, t, r, p);
    var i := SlotAt(c, a, r, p);
    var x1 := Snapshots(c, s, cast, a, t, p, i, r, e);
    var x2 := ToHeader(c, s, cast, x1, t, p, i, r);
    var x3 := ToColumn(c, s, cast, x2, t, p, i, e);
    var x4 := Matches(c, s, cast, x3, t, p, i);
    SameSlot(c, a, x4, r, p);
    InvShape(c, x4);
    var d := DoCasFilled(c, x4, t, p);
    b := Completes(c, s, cast, x4, d, t, p, false);
    assert x4 == a.(threads := a.threads[t := x4.threads[t]]);
    MovedFirst(a, x4, b, t);
    WaitSizes(x4, b, t);
  }

  lemma MovedFirst(a: State, b: State, d: State, t: nat)
    requires OthersWait(b, d, t) && t < |a.threads| && t < |b.threads| && b == a.(threads := a.threads[t := b.threads[t]])
    ensures OthersWait(a, d, t)
  {
    hide FateLasts, SameExtent;
  }

  /** The whole of a rewrite by thread `t`. */
  lemma RewritesRow(c: Config, s: State, cast: Cast, a: State, t: nat, r: Row, entries: seq<Entry>, p: nat, e: nat) returns (b: State)
    requires Reach(c, s, cast, a) && Inv(c, a) && t in cast && cast[t] == Writes(r) && t < |a.threads| && a.threads[t].pc.Idle?
    requires StoredAt(c, a, r, p, e) && entries != [] && Writable(c.h, c.sizing, r, entries, a.nextSequence)
    requires r.id < TWO64 && |r.column| < TWO32
    ensures Reach(c, s, cast, b) && Inv(c, b) && OthersWait(a, b, t) && |b.slots| == |a.slots| && |a.extents| < |b.extents|
    ensures SettledAt(b, SlotAt(c, a, r, p), r, |a.extents|)
    ensures b.extents[|a.extents|].bytes == BlockBytes(c.h, c.sizing, r, entries, a.nextSequence) && b.extents[|a.extents|].entries == entries
  {
    hide Inv, Reach, Grows, OthersWait, BlockBytes, Writable, StoredAt, SettledAt, SlotAt;
    var d := WriteComes(c, s, cast, a, t, r, entries, p, e);
    StoredStays(c, a, d, r, p, e);
    b := UpdatesBucket(c, s, cast, d, t, r, p, e);
    StoredFacts(c, a, r, p, e);
    SameSlot(c, a, d, r, p);
    WaitSizes(d, b, t);
    WaitExtent(d, b, |a.extents|, t);
    WaitLonger(a, d, b, t);
  }

  lemma StoredStays(c: Config, a: State, b: State, r: Row, p: nat, e: nat)
    requires StoredAt(c, a, r, p, e) && SameTable(a, b)
    ensures StoredAt(c, b, r, p, e)
  {
    hide Clear, SlotAt;
    ClearMoves(c, a, b, r, p);
    SameSlot(c, a, b, r, p);
  }

  // ---- Which calls the runs keep apart ----------------------------------------------------------

  /** No call for row `r` is in progress. */
  ghost predicate Untouched(s: State, r: Row) {
    forall t :: 0 <= t < |s.threads| && !s.threads[t].pc.Idle? ==> s.threads[t].op.row != r
  }

  /** A rewrite of `r` and a read of `q` may begin without meeting a call they are to be kept apart from. */
  ghost predicate KeepsApart(s: State, how: Apart, r: Row, q: Row) {
    Serialised(s, how) && Untouched(s, r) && Untouched(s, q) && (how.WritesOnly? || q != r)
  }

  /** A writer and a reader. */
  function Pair(t: nat, u: nat, r: Row, q: Row): Cast { map[t := Writes(r), u := Reads(q)] }

  /** A call in progress is the thread's part, or the one the thread began with, for another row. */
  lemma ActingCall(t: nat, u: nat, r: Row, q: Row, s: State, a: State, v: nat)
    requires t != u && Acting(Pair(t, u, r, q), s, a) && Untouched(s, r) && Untouched(s, q)
    requires v < |a.threads| && !a.threads[v].pc.Idle?
    ensures |a.threads| == |s.threads|
    ensures v == t ==> !a.threads[v].op.GetRow? && a.threads[v].op.row == r
    ensures v == u ==> a.threads[v].op.GetRow? && a.threads[v].op.row == q
    ensures v != t && v != u ==> a.threads[v] == s.threads[v] && a.threads[v].op.row != r && a.threads[v].op.row != q
  {
    var cast := Pair(t, u, r, q);
    if v in cast { assert Plays(cast[v], a.threads[v]); }
  }

  /** Whatever the caller keeps apart stays apart while the two threads play their parts. */
  lemma ActingIsSerialised(t: nat, u: nat, r: Row, q: Row, s: State, a: State, how: Apart)
    requires t != u && Acting(Pair(t, u, r, q), s, a) && KeepsApart(s, how, r, q)
    ensures Serialised(a, how)
  {
    hide Acting, Untouched;
    forall v, w | 0 <= v < |a.threads| && 0 <= w < |a.threads| && v != w
      && !a.threads[v].pc.Idle? && !a.threads[w].pc.Idle? && a.threads[v].op.row == a.threads[w].op.row
      ensures Overlaps(how, a.threads[v].op, a.threads[w].op)
    {
      ActingCall(t, u, r, q, s, a, v);
      ActingCall(t, u, r, q, s, a, w);
    }
  }

  lemma RunIsSerialised(c: Config, t: nat, u: nat, r: Row, q: Row, s: State, b: State, states: seq<State>, who: seq<nat>, how: Apart)
    requires t != u && RunsTo(c, s, Pair(t, u, r, q), b, states, who) && KeepsApart(s, how, r, q)
    ensures SerialisedRun(c, states, who, how)
  {
    hide Step, Serialised, Acting, KeepsApart, Shape, Pair;
    forall k | 0 <= k < |states| ensures Serialised(states[k], how) { ActingIsSerialised(t, u, r, q, s, states[k], how); }
  }

  /** The run that reaches `a`, with one more step. */
  lemma LastStep(c: Config, s: State, cast: Cast, a: State, b: State, u: nat) returns (states: seq<State>, who: seq<nat>)
    requires Reach(c, s, cast, a) && Inv(c, a) && Step(c, a, b, u) && PlaysOn(cast, a, b, u)
    ensures RunsTo(c, s, cast, b, states, who) && Run(c, states, who) && |states| == |who| + 1 && |who| > 0
    ensures states[0] == s && states[|who| - 1] == a && states[|who|] == b && who[|who| - 1] == u
  {
    hide Step, Inv, Shape, Acting, PlaysOn, Tally, Begins;
    InvShape(c, a);
    StepExtends(c, a, b, u);
    ReachActs(c, s, cast, a);
    StepActs(s, cast, a, b, u);
    PlaysTallies(cast, a, b, u);
    TallyMoves(a, b, u);
    var before, steps :| RunsTo(c, s, cast, a, before, steps);
    states, who := before + [b], steps + [u];
    BegunPrefix(before, steps, states, who, |steps|);
    forall i | 0 <= i < |who| ensures Shape(c, states[i]) && Step(c, states[i], states[i + 1], who[i]) {}
  }

  /** Two idle threads, a stored row, and a rewrite of it that the format admits. */
  ghost predicate MayRewrite(c: Config, s: State, t: nat, u: nat, r: Row, entries: seq<Entry>, p: nat, e: nat) {
    && Inv(c, s) && StoredAt(c, s, r, p, e) && t < |s.threads| && u < |s.threads| && t != u
    && s.threads[t].pc.Idle? && s.threads[u].pc.Idle? && e < |s.extents|
    && r.id < TWO64 && |r.column| < TWO32 && entries != [] && Writable(c.h, c.sizing, r, entries, s.nextSequence)
  }

  lemma PairStarts(c: Config, s: State, t: nat, u: nat, r: Row, q: Row)
    requires c.Valid() && t < |s.threads| && u < |s.threads| && t != u && s.threads[t].pc.Idle? && s.threads[u].pc.Idle?
    ensures var cast := Pair(t, u, r, q);
      Reach(c, s, cast, s) && t in cast && u in cast && cast[t] == Writes(r) && cast[u] == Reads(q)
  {
    ReachNone(c, s, Pair(t, u, r, q));
  }

  // ---- A torn read --------------------------------------------------------------------------------

  /** The last step of the run is thread `u`'s, in this call, and reports corruption. */
  ghost predicate EndsTorn(states: seq<State>, who: seq<nat>, u: nat, op: Op) {
    var i := |who| - 1;
    i >= 0 && |states| == |who| + 1 && who[i] == u && u < |states[i].threads| && states[i].threads[u].op == op
    && Reports(states[i], states[i + 1], u, CorruptBlock)
  }

  /** A read loads four words of the row's bucket. */
  lemma ReadsFourWords(c: Config, s: State, cast: Cast, u: nat, r: Row, q: Row, key: seq<byte>, p: nat, e: nat, e1: nat) returns (b: State)
    requires Reach(c, s, cast, s) && Inv(c, s) && u in cast && cast[u] == Reads(q) && u < |s.threads| && s.threads[u].pc.Idle?
    requires StoredAt(c, s, r, p, e) && SameBucket(c, r, q) && q.id < TWO64 && |q.column| < TWO32 && Clear(c, s, q, p)
    ensures Reach(c, s, cast, b) && Inv(c, b) && u < |b.threads| == |s.threads|
    ensures b == s.(threads := s.threads[u := b.threads[u]]) && b.threads[u].op == GetRow(q, key)
    ensures Loading(c, b, u, p, SlotAt(c, s, r, p), e, e1, 4)
  {
    hide Inv, Reach, Clear, SlotAt, SettledAt, LooksAt, From, SameBucket;
    StoredFacts(c, s, r, p, e);
    var i := SlotAt(c, s, r, p);
    var d := ReadComes(c, s, cast, s, u, q, key, p);
    LooksHere(c, d, u, r, p);
    SameSlot(c, s, d, r, p);
    var f := StartsSnapshot(c, s, cast, d, u, p, i, e, e1);
    SettledStays(s, f, i, r, e);
    b := Loads(c, s, cast, f, u, p, i, r, e, e, e1, 0, 4);
  }

  lemma SettledStays(a: State, b: State, i: nat, r: Row, e: nat)
    requires SettledAt(a, i, r, e) && SameTable(a, b)
    ensures SettledAt(b, i, r, e)
  {
  }

  lemma LoadingStays(c: Config, a: State, b: State, u: nat, p: nat, i: nat, e0: nat, e1: nat, k: nat)
    requires Loading(c, a, u, p, i, e0, e1, k) && |b.slots| == |a.slots| && u < |b.threads| && b.threads[u] == a.threads[u]
    ensures Loading(c, b, u, p, i, e0, e1, k)
  {
  }

  /** With four words from one write and two from the next, the read comes to the header. */
  lemma ComesTorn(c: Config, s: State, cast: Cast, a: State, u: nat, r: Row, p: nat, i: nat, e: nat, e1: nat) returns (b: State)
    requires Reach(c, s, cast, a) && Inv(c, a) && u in cast && Loading(c, a, u, p, i, e, e1, 4) && SettledAt(a, i, r, e1)
    requires SameBucket(c, r, a.threads[u].op.row)
    ensures Reach(c, s, cast, b) && Inv(c, b) && OnlyMoved(a, b, u)
    ensures b.threads[u].pc.ReadHeader? && From(b.threads[u].pc.snap, e, e1, FIELDS)
  {
    hide Inv, Reach, From, SameBucket, SlotAt;
    var d := Loads(c, s, cast, a, u, p, i, r, e1, e, e1, 4, 1);
    var f := LoadsOne(c, s, cast, d, u, p, i, r, e1, e, e1, 5);
    b := ToHeader(c, s, cast, f, u, p, i, r);
  }

  lemma IsTorn(s: State, th: Thread, e: nat, e1: nat)
    requires th.pc.ReadHeader? && From(th.pc.snap, e, e1, FIELDS) && e < |s.extents| && e1 < |s.extents|
    requires |s.extents[e].bytes| != |s.extents[e1].bytes|
    ensures Torn(s, th.pc)
  {
    assert WordFrom(e, e1, 3) == e && WordFrom(e, e1, 4) == e1;
  }

  /**
   From any state in which two threads are idle and a row is stored, there is a run
   in which one of them rewrites the row with a block of another size and the
   other, reading a row with that column hash and row id that no earlier bucket on
   the path holds, reports corruption.  When the two rows are different the run
   keeps all calls for the same row apart.
   */
  lemma TornReadHappens(c: Config, s: State, t: nat, u: nat, r: Row, q: Row, key: seq<byte>, entries: seq<Entry>, p: nat, e: nat)
    returns (states: seq<State>, who: seq<nat>)
    requires MayRewrite(c, s, t, u, r, entries, p, e) && SameBucket(c, r, q) && |q.column| < TWO32 && Clear(c, s, q, p)
    requires |BlockBytes(c.h, c.sizing, r, entries, s.nextSequence)| != |s.extents[e].bytes|
    ensures Run(c, states, who) && |states| == |who| + 1 && states[0] == s && EndsTorn(states, who, u, GetRow(q, key))
    ensures forall how :: KeepsApart(s, how, r, q) ==> SerialisedRun(c, states, who, how)
  {
    hide Inv, Reach, Grows, OthersWait, BlockBytes, Writable, KeepsApart, SerialisedRun, Clear, StoredAt, SlotAt, SettledAt, Loading, From;
    hide Pair, RunsTo, Step, Torn, Reports, PlaysOn;
    InvShape(c, s);
    var cast, e1 := Pair(t, u, r, q), |s.extents|;
    PairStarts(c, s, t, u, r, q);
    StoredFacts(c, s, r, p, e);
    var i := SlotAt(c, s, r, p);
    var x1 := ReadsFourWords(c, s, cast, u, r, q, key, p, e, e1);
    StoredStays(c, s, x1, r, p, e);
    var x2 := RewritesRow(c, s, cast, x1, t, r, entries, p, e);
    SameSlot(c, s, x1, r, p);
    WaitSizes(x1, x2, t);
    WaitExtent(x1, x2, e, t);
    LoadingStays(c, x1, x2, u, p, i, e, e1, 4);
    var a := ComesTorn(c, s, cast, x2, u, r, p, i, e, e1);
    IsTorn(a, a.threads[u], e, e1);
    var b := HeaderReady(c, a, u);
    TornIsReported(c, a, b, u);
    ReadPlaysOn(c, cast, a, b, u);
    states, who := LastStep(c, s, cast, a, b, u);
    forall how | KeepsApart(s, how, r, q) ensures SerialisedRun(c, states, who, how) {
      RunIsSerialised(c, t, u, r, q, s, b, states, who, how);
    }
  }

  lemma HeaderReady(c: Config, s: State, u: nat) returns (b: State)
    requires Inv(c, s) && u < |s.threads| && s.threads[u].pc.ReadHeader?
    ensures Shape(c, s) && c.Valid() && Step(c, s, b, u) && u < |b.threads| && b.threads[u].op == s.threads[u].op && b.itemCount == s.itemCount
  {
    hide ExtentsOk, Ordered, BlocksOk, FilesOk, SlotsOk, IndexOk, TableOk, CountsOk, LookOk, ParseBlockHeader, IsValidRowBlockHeader, ShardRead;
    assert ThreadOk(c, s, u);
    b := DoReadHeader(c, s, u, s.threads[u].pc.p, s.threads[u].pc.snap);
  }

  lemma ReadPlaysOn(c: Config, cast: Cast, a: State, b: State, u: nat)
    requires u in cast && u < |a.threads| && u < |b.threads| && !a.threads[u].pc.Idle? && b.threads[u].op == a.threads[u].op
    requires a.threads[u].op.GetRow? && b.itemCount == a.itemCount
    ensures PlaysOn(cast, a, b, u)
  {
  }

  // ---- A stale read -------------------------------------------------------------------------------

  /** The last step of the run is thread `u`'s read of `r`, which answers otherwise than the map of rows then stands. */
  ghost predicate EndsStale(states: seq<State>, who: seq<nat>, u: nat, r: Row, key: seq<byte>, out: Outcome) {
    var i := |who| - 1;
    i >= 0 && |states| == |who| + 1 && who[i] == u && u < |states[i].threads| && states[i].threads[u].op == GetRow(r, key)
    && Returns(states[i], states[i + 1], u, out) && IndexInRange(states[i]) && out != RowAnswer(Abs(states[i]), r, key)
  }

  /** A read compares the column of the row's bucket and goes on to the value. */
  lemma ReadsToValue(c: Config, s: State, cast: Cast, u: nat, r: Row, key: seq<byte>, p: nat, e: nat) returns (b: State)
    requires Reach(c, s, cast, s) && Inv(c, s) && u in cast && cast[u] == Reads(r) && u < |s.threads| && s.threads[u].pc.Idle?
    requires StoredAt(c, s, r, p, e) && r.id < TWO64 && |r.column| < TWO32
    ensures Reach(c, s, cast, b) && Inv(c, b) && u < |b.threads| == |s.threads|
    ensures b == s.(threads := s.threads[u := b.threads[u]]) && b.threads[u].op == GetRow(r, key)
    ensures b.threads[u].pc.ReadValue? && From(b.threads[u].pc.snap, e, e, FIELDS)
  {
    hide Inv, Reach, Clear, SlotAt, SettledAt, LooksAt, From;
    StoredFacts(c, s, r, p, e);
    var i := SlotAt(c, s, r, p);
    var x1 := ReadComes(c, s, cast, s, u, r, key, p);
    LooksHere(c, x1, u, r, p);
    SameSlot(c, s, x1, r, p);
    SettledStays(s, x1, i, r, e);
    var x2 := Snapshots(c, s, cast, x1, u, p, i, r, e);
    var x3 := ToHeader(c, s, cast, x2, u, p, i, r);
    var x4 := ToColumn(c, s, cast, x3, u, p, i, e);
    b := Matches(c, s, cast, x4, u, p, i);
  }

  /** The read then answers from extent `e`, whatever is published meanwhile. */
  lemma AnswersFromOld(c: Config, a: State, u: nat, e: nat) returns (b: State, out: Outcome)
    requires Inv(c, a) && u < |a.threads| && a.threads[u].pc.ReadValue? && From(a.threads[u].pc.snap, e, e, FIELDS)
    ensures Shape(c, a) && c.Valid() && e < |a.extents| && a.threads[u].op.GetRow?
    ensures Step(c, a, b, u) && Returns(a, b, u, out) && b.threads[u].op == a.threads[u].op && b.itemCount == a.itemCount
    ensures out == RowAnswer(map[a.threads[u].op.row := LastMap(a.extents[e].entries)], a.threads[u].op.row, a.threads[u].op.key)
  {
    hide Inv, FindValue;
    InvShape(c, a);
    var pc := a.threads[u].pc;
    ReadValueAnswers(c, a, u, pc.p, pc.snap, pc.hd);
    assert WordFrom(e, e, 3) == e;
    out := RowAnswer(map[a.threads[u].op.row := LastMap(a.extents[e].entries)], a.threads[u].op.row, a.threads[u].op.key);
    b := DoReadValue(c, a, u, pc.snap, pc.hd);
  }

  lemma AnswerNow(c: Config, s: State, i: nat, r: Row, e: nat, key: seq<byte>)
    requires Inv(c, s) && SettledAt(s, i, r, e)
    ensures IndexInRange(s) && e < |s.extents| && RowAnswer(Abs(s), r, key) == RowAnswer(map[r := LastMap(s.extents[e].entries)], r, key)
  {
    hide Inv, LastMap;
    AbsDefined(c, s);
  }

  /**
   A read may answer with what was already replaced.  From any state in which two
   threads are idle and a row is stored, and for any new entries that answer the
   key otherwise, there is a run in which one thread rewrites the row while the
   other reads the key and returns the old answer.  The run keeps the writes of a
   row apart; by `SerialisedCallsSucceed` no run that keeps all calls apart does this.
   */
  lemma StaleReadHappens(c: Config, s: State, t: nat, u: nat, r: Row, key: seq<byte>, entries: seq<Entry>, p: nat, e: nat)
    returns (states: seq<State>, who: seq<nat>, out: Outcome)
    requires MayRewrite(c, s, t, u, r, entries, p, e)
    requires RowAnswer(map[r := LastMap(entries)], r, key) != RowAnswer(map[r := LastMap(s.extents[e].entries)], r, key)
    ensures Run(c, states, who) && |states| == |who| + 1 && states[0] == s && EndsStale(states, who, u, r, key, out)
    ensures out == RowAnswer(map[r := LastMap(s.extents[e].entries)], r, key)
    ensures KeepsApart(s, WritesOnly, r, r) ==> SerialisedRun(c, states, who, WritesOnly)
  {
    hide Inv, Reach, Grows, OthersWait, BlockBytes, Writable, KeepsApart, SerialisedRun, Clear, StoredAt, SlotAt, SettledAt, From, LastMap;
    hide Pair, RunsTo, Step, PlaysOn, RowAnswer, Abs, IndexInRange;
    InvShape(c, s);
    var cast := Pair(t, u, r, r);
    PairStarts(c, s, t, u, r, r);
    var x1 := ReadsToValue(c, s, cast, u, r, key, p, e);
    StoredStays(c, s, x1, r, p, e);
    StoredFacts(c, s, r, p, e);
    var a := RewritesRow(c, s, cast, x1, t, r, entries, p, e);
    SameSlot(c, s, x1, r, p);
    WaitSizes(x1, a, t);
    WaitExtent(x1, a, e, t);
    AnswerNow(c, a, SlotAt(c, s, r, p), r, |s.extents|, key);
    var b;
    b, out := AnswersFromOld(c, a, u, e);
    ReadPlaysOn(c, cast, a, b, u);
    states, who := LastStep(c, s, cast, a, b, u);
    if KeepsApart(s, WritesOnly, r, r) { RunIsSerialised(c, t, u, r, r, s, b, states, who, WritesOnly); }
  }
}
