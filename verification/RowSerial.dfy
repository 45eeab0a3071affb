/**
 Rows that are written more than once.  The caller keeps the writes of a row
 apart, or all its calls; the snapshots that the calls kept apart take of their
 own row are then current.
 */
module RowSerial {
  import opened Wrappers
  import opened Probing
  import opened FileIO
  import opened RowBlock
  import opened RowProtocol
  import opened RowProtocolInv
  import opened RowProtocolSteps
  import opened RowProtocolWrites
  import opened RowProtocolResults
  import opened RowLinear

  /** Which calls for the same row the caller keeps apart: its writes, or all calls except reads among themselves. */
  datatype Apart = WritesOnly | AllCalls

  predicate Overlaps(how: Apart, a: Op, b: Op) {
    match how
    case WritesOnly => a.GetRow? || b.GetRow?
    case AllCalls => a.GetRow? && b.GetRow?
  }

  ghost predicate Serialised(s: State, how: Apart) {
    forall t, u :: 0 <= t < |s.threads| && 0 <= u < |s.threads| && t != u
      && !s.threads[t].pc.Idle? && !s.threads[u].pc.Idle? && s.threads[t].op.row == s.threads[u].op.row
      ==> Overlaps(how, s.threads[t].op, s.threads[u].op)
  }

  ghost predicate SerialisedRun(c: Config, states: seq<State>, who: seq<nat>, how: Apart) {
    Run(c, states, who) && forall i :: 0 <= i < |states| ==> Serialised(states[i], how)
  }

  /** No write of the same row runs beside this call. */
  predicate Guarded(how: Apart, op: Op) { how.AllCalls? || !op.GetRow? }

  // ---- Snapshots of one's own row ------------------------------------------------

  predicate HasSnap(pc: PC) { pc.LoadField? || pc.Recheck? || pc.ReadHeader? || pc.ReadColumn? || pc.ReadValue? }

  /** Every word loaded so far from the row's own bucket is the published one. */
  ghost predicate SnapCurrent(c: Config, s: State, t: nat)
    requires c.Valid() && Shape(c, s) && t < |s.threads|
  {
    var th := s.threads[t];
    HasSnap(th.pc) && th.pc.p < |s.slots| && s.owner[SlotAt(c, s, th.op.row, th.pc.p)] == Some(th.op.row) ==>
      LoadedFrom(s, th.pc.snap, th.op.row)
  }

  ghost predicate LoadedFrom(s: State, snap: Snap, r: Row) {
    r in s.index && forall k :: 0 <= k < |snap.src| ==> snap.src[k] == s.index[r].ext
  }

  ghost predicate SnapsCurrent(c: Config, s: State, how: Apart)
    requires c.Valid() && Shape(c, s)
  {
    forall t :: 0 <= t < |s.threads| && Guarded(how, s.threads[t].op) ==> SnapCurrent(c, s, t)
  }

  /** While a thread works on a row, nobody else publishes it. */
  lemma IndexEntryStays(c: Config, s: State, s': State, t: nat, u: nat, how: Apart)
    requires Inv(c, s) && Step(c, s, s', t) && Serialised(s, how)
    requires u < |s.threads| && u != t && !s.threads[u].pc.Idle? && Guarded(how, s.threads[u].op)
    ensures var r := s.threads[u].op.row; (r in s.index <==> r in s'.index) && (r in s.index ==> s'.index[r] == s.index[r])
  {
    IndexSteps(c, s, s', t);
    assert ThreadOk(c, s, t);
  }

  lemma HolderWrites(c: Config, s: State, i: nat)
    requires c.Valid() && Shape(c, s) && ThreadsOk(c, s) && i < |s.slots| && SlotOk(c, s, i) && s.slots[i].state == Writing
    ensures var u := s.slots[i].holder;
      u < |s.threads| && IsStoring(s.threads[u].pc) && !s.threads[u].op.GetRow? && s.owner[i] == Some(s.threads[u].op.row)
  {
    assert ThreadOk(c, s, s.slots[i].holder);
  }

  /** The row's own bucket is Filled while this thread works on the row alone. */
  lemma OwnBucketFilled(c: Config, s: State, t: nat, i: nat, how: Apart)
    requires Inv(c, s) && Serialised(s, how) && t < |s.threads| && i < |s.slots|
    requires !s.threads[t].pc.Idle? && !IsStoring(s.threads[t].pc) && Guarded(how, s.threads[t].op)
    requires s.owner[i] == Some(s.threads[t].op.row)
    ensures s.slots[i].state == Filled && LoadedFrom(s, Snap(s.slots[i].fields, s.slots[i].src), s.threads[t].op.row)
  {
    assert SlotOk(c, s, i);
    if s.slots[i].state == Writing {
      HolderWrites(c, s, i);
      assert false;
    }
  }

  lemma OtherSnapStays(c: Config, s: State, s': State, t: nat, u: nat)
    requires c.Valid() && Shape(c, s) && Shape(c, s') && Extends(s, s', t) && u < |s.threads| && u != t
    requires SnapCurrent(c, s, u)
    requires var th := s.threads[u]; HasSnap(th.pc) ==> th.pc.p < |s.slots| && s.owner[SlotAt(c, s, th.op.row, th.pc.p)].Some?
    requires var r := s.threads[u].op.row; r in s.index && HasSnap(s.threads[u].pc) ==> r in s'.index && s'.index[r] == s.index[r]
    ensures SnapCurrent(c, s', u)
  {
  }

  lemma SnapHasOwner(c: Config, s: State, u: nat)
    requires c.Valid() && Shape(c, s) && u < |s.threads| && ThreadOk(c, s, u) && HasSnap(s.threads[u].pc)
    ensures var th := s.threads[u]; th.pc.p < |s.slots| && s.owner[SlotAt(c, s, th.op.row, th.pc.p)].Some?
  {
  }

  lemma OtherSnapsStay(c: Config, s: State, s': State, t: nat, u: nat, how: Apart)
    requires Inv(c, s) && Step(c, s, s', t) && Serialised(s, how) && Extends(s, s', t) && Shape(c, s')
    requires u < |s.threads| && u != t && SnapCurrent(c, s, u) && Guarded(how, s.threads[u].op)
    ensures SnapCurrent(c, s', u)
  {
    if HasSnap(s.threads[u].pc) {
      assert ThreadOk(c, s, u);
      SnapHasOwner(c, s, u);
      IndexEntryStays(c, s, s', t, u, how);
    }
    OtherSnapStays(c, s, s', t, u);
  }

  /** The row's own bucket gives the published words; another row's bucket may give any. */
  lemma LoadedWord(c: Config, s: State, t: nat, i: nat, snap: Snap, k: nat, how: Apart)
    requires Inv(c, s) && Serialised(s, how) && t < |s.threads| && i < |s.slots| && s.threads[t].pc.LoadField? && k < FIELDS
    requires Guarded(how, s.threads[t].op) && s.owner[i] == Some(s.threads[t].op.row) && LoadedFrom(s, snap, s.threads[t].op.row)
    ensures LoadedFrom(s, Snap(snap.fields + [s.slots[i].fields[k]], snap.src + [s.slots[i].src[k]]), s.threads[t].op.row)
  {
    OwnBucketFilled(c, s, t, i, how);
  }

  lemma LoadedWordIsCurrent(c: Config, s: State, t: nat, p: nat, snap: Snap, how: Apart)
    requires Inv(c, s) && Serialised(s, how) && t < |s.threads| && s.threads[t].pc == LoadField(p, snap) && SnapCurrent(c, s, t)
    requires p < |s.slots| && |snap.fields| < FIELDS && Guarded(how, s.threads[t].op)
    requires Shape(c, DoLoadField(c, s, t, p, snap))
    ensures SnapCurrent(c, DoLoadField(c, s, t, p, snap), t)
  {
    var i := SlotAt(c, s, s.threads[t].op.row, p);
    if s.owner[i] == Some(s.threads[t].op.row) { LoadedWord(c, s, t, i, snap, |snap.fields|, how); }
  }

  /** A snapshot the thread has after the step is the one it had before. */
  ghost predicate KeepsSnap(a: Thread, b: Thread) {
    HasSnap(b.pc) ==> HasSnap(a.pc) && b.pc.snap == a.pc.snap && b.pc.p == a.pc.p && a.op == b.op
  }

  lemma RecheckKeepsSnap(c: Config, s: State, s': State, t: nat)
    requires c.Valid() && Shape(c, s) && Step(c, s, s', t) && s.threads[t].pc.Recheck?
    ensures |s'.threads| == |s.threads| && KeepsSnap(s.threads[t], s'.threads[t])
  {
  }

  lemma HeaderKeepsSnap(c: Config, s: State, t: nat, p: nat, snap: Snap)
    requires t < |s.threads| && s.threads[t].pc == ReadHeader(p, snap) && |snap.fields| == FIELDS
    ensures var s' := DoReadHeader(c, s, t, p, snap); |s'.threads| == |s.threads| && KeepsSnap(s.threads[t], s'.threads[t])
  {
  }

  lemma ReadHeaderKeepsSnap(c: Config, s: State, s': State, t: nat)
    requires c.Valid() && Shape(c, s) && Step(c, s, s', t) && s.threads[t].pc.ReadHeader?
    ensures |s'.threads| == |s.threads| && KeepsSnap(s.threads[t], s'.threads[t])
  {
    HeaderKeepsSnap(c, s, t, s.threads[t].pc.p, s.threads[t].pc.snap);
  }

  lemma ReadColumnKeepsSnap(c: Config, s: State, s': State, t: nat)
    requires c.Valid() && Shape(c, s) && Step(c, s, s', t) && s.threads[t].pc.ReadColumn?
    ensures |s'.threads| == |s.threads| && KeepsSnap(s.threads[t], s'.threads[t])
  {
  }

  lemma ReadValueKeepsSnap(c: Config, s: State, s': State, t: nat)
    requires c.Valid() && Shape(c, s) && Step(c, s, s', t) && s.threads[t].pc.ReadValue?
    ensures |s'.threads| == |s.threads| && KeepsSnap(s.threads[t], s'.threads[t])
  {
  }

  lemma CountingKeepsSnap(c: Config, s: State, s': State, t: nat)
    requires c.Valid() && Shape(c, s) && Step(c, s, s', t) && IsCounting(s.threads[t].pc)
    ensures |s'.threads| == |s.threads| && KeepsSnap(s.threads[t], s'.threads[t])
  {
  }

  lemma FilingKeepsSnap(c: Config, s: State, s': State, t: nat)
    requires c.Valid() && Shape(c, s) && Step(c, s, s', t) && (s.threads[t].pc.ClaimExtent? || s.threads[t].pc.WriteBlock?)
    ensures |s'.threads| == |s.threads| && KeepsSnap(s.threads[t], s'.threads[t])
  {
    hide NewExtent, Writable, SlotAt, PWrite;
  }

  lemma ClaimingKeepsSnap(c: Config, s: State, s': State, t: nat)
    requires c.Valid() && Shape(c, s) && Step(c, s, s', t) && (s.threads[t].pc.CasEmpty? || s.threads[t].pc.CasFilled?)
    ensures |s'.threads| == |s.threads| && KeepsSnap(s.threads[t], s'.threads[t])
  {
    hide SlotAt;
  }

  lemma StoringKeepsSnap(c: Config, s: State, s': State, t: nat)
    requires c.Valid() && Shape(c, s) && Step(c, s, s', t) && IsStoring(s.threads[t].pc)
    ensures |s'.threads| == |s.threads| && KeepsSnap(s.threads[t], s'.threads[t])
  {
    hide FieldOf;
  }

  lemma SnapKept(c: Config, s: State, s': State, t: nat)
    requires c.Valid() && Shape(c, s) && Step(c, s, s', t) && !s.threads[t].pc.LoadField? && !s.threads[t].pc.Probing?
    ensures |s'.threads| == |s.threads| && KeepsSnap(s.threads[t], s'.threads[t])
  {
    var pc := s.threads[t].pc;
    if IsCounting(pc) { CountingKeepsSnap(c, s, s', t); }
    else if pc.Recheck? { RecheckKeepsSnap(c, s, s', t); }
    else if pc.ReadHeader? { ReadHeaderKeepsSnap(c, s, s', t); }
    else if pc.ReadColumn? { ReadColumnKeepsSnap(c, s, s', t); }
    else if pc.ReadValue? { ReadValueKeepsSnap(c, s, s', t); }
    else if pc.ClaimExtent? || pc.WriteBlock? { FilingKeepsSnap(c, s, s', t); }
    else if IsStoring(pc) { StoringKeepsSnap(c, s, s', t); }
    else { ClaimingKeepsSnap(c, s, s', t); }
  }

  lemma KeptSnapIsCurrent(c: Config, s: State, s': State, t: nat)
    requires c.Valid() && Shape(c, s) && Shape(c, s') && t < |s.threads| && t < |s'.threads| && |s'.slots| == |s.slots|
    requires KeepsSnap(s.threads[t], s'.threads[t]) && SnapCurrent(c, s, t)
    requires HasSnap(s'.threads[t].pc) ==> s'.owner == s.owner && s'.index == s.index
    ensures SnapCurrent(c, s', t)
  {
  }

  lemma NewSnapIsEmpty(c: Config, s: State, s': State, t: nat)
    requires Inv(c, s) && Shape(c, s') && Step(c, s, s', t) && t < |s'.threads|
    requires s.threads[t].pc.Probing? && s'.owner == s.owner && s'.index == s.index
    ensures SnapCurrent(c, s', t)
  {
    hide ExtentsOk, Ordered, BlocksOk, FilesOk, IndexOk, TableOk, CountsOk;
    assert ThreadOk(c, s, t);
    assert SlotOk(c, s, SlotAt(c, s, s.threads[t].op.row, s.threads[t].pc.p));
  }

  lemma OwnSnapStaysCurrent(c: Config, s: State, s': State, t: nat, how: Apart)
    requires Inv(c, s) && Shape(c, s') && |s'.slots| == |s.slots| && Step(c, s, s', t) && Serialised(s, how)
    requires Guarded(how, s.threads[t].op) ==> SnapCurrent(c, s, t)
    ensures t < |s'.threads| && (Guarded(how, s'.threads[t].op) ==> SnapCurrent(c, s', t))
  {
    var pc := s.threads[t].pc;
    if pc.LoadField? {
      if Guarded(how, s.threads[t].op) { LoadedWordIsCurrent(c, s, t, pc.p, pc.snap, how); }
    } else if pc.Probing? {
      LoadingSteps(c, s, s', t);
      NewSnapIsEmpty(c, s, s', t);
    } else {
      SnapKept(c, s, s', t);
      if HasSnap(s'.threads[t].pc) {
        SnapStepIsQuiet(c, s, s', t);
        if Guarded(how, s.threads[t].op) { KeptSnapIsCurrent(c, s, s', t); }
      }
    }
  }

  lemma SnapStepIsQuiet(c: Config, s: State, s': State, t: nat)
    requires c.Valid() && Shape(c, s) && Step(c, s, s', t) && HasSnap(s.threads[t].pc)
    ensures s'.owner == s.owner && s'.index == s.index
  {
    var pc := s.threads[t].pc;
    if pc.LoadField? || pc.ReadValue? { LoadingSteps(c, s, s', t); } else { MatchingSteps(c, s, s', t); }
  }

  /** Serialised calls keep every thread's snapshot of its own row current. */
  lemma SnapsStayCurrent(c: Config, s: State, s': State, t: nat, how: Apart)
    requires Inv(c, s) && Inv(c, s') && Step(c, s, s', t) && Serialised(s, how) && SnapsCurrent(c, s, how)
    ensures SnapsCurrent(c, s', how)
  {
    StepExtends(c, s, s', t);
    OwnSnapStaysCurrent(c, s, s', t, how);
    forall u | 0 <= u < |s'.threads| && Guarded(how, s'.threads[u].op) ensures SnapCurrent(c, s', u) {
      if u != t { OtherSnapsStay(c, s, s', t, u, how); }
    }
  }

  /** Some other claimed row agrees with thread `t`'s row on column hash and row id. */
  ghost predicate Collide(c: Config, s: State, t: nat) {
    t < |s.threads| && exists i :: 0 <= i < |s.owner| && s.owner[i].Some? && CollidesWith(c, s.owner[i].value, s.threads[t].op.row)
  }

  predicate CollidesWith(c: Config, a: Row, b: Row) {
    a != b && a.id == b.id && c.h.HashString(a.column) == c.h.HashString(b.column)
  }

  /** With serialised calls only the bucket of another row with the same hash and id can be seen torn. */
  lemma TornIsCollision(c: Config, s: State, t: nat, how: Apart)
    requires Inv(c, s) && SnapsCurrent(c, s, how) && t < |s.threads| && Guarded(how, s.threads[t].op) && Torn(s, s.threads[t].pc)
    ensures Collide(c, s, t)
  {
    assert ThreadOk(c, s, t) && SnapCurrent(c, s, t);
    var th := s.threads[t];
    var i := SlotAt(c, s, th.op.row, th.pc.p);
    SnapAddresses(c, s, i, th.pc.snap);
    if s.owner[i].value == th.op.row {
      assert false;
    }
  }

  lemma SerialIsCurrent(c: Config, s: State, t: nat, how: Apart)
    requires Inv(c, s) && SnapsCurrent(c, s, how) && t < |s.threads| && Guarded(how, s.threads[t].op) && s.threads[t].pc.ReadValue?
    ensures Current(s, s.threads[t].pc.snap, s.threads[t].op.row)
  {
    assert ThreadOk(c, s, t) && SnapCurrent(c, s, t);
  }

  lemma {:induction false} SnapsCurrentThroughout(c: Config, states: seq<State>, who: seq<nat>, i: nat, how: Apart)
    requires SerialisedRun(c, states, who, how) && Inv(c, states[0]) && SnapsCurrent(c, states[0], how) && i < |states|
    ensures Inv(c, states[i]) && SnapsCurrent(c, states[i], how)
  {
    hide SnapsCurrent, Serialised, Step;
    if i > 0 {
      SnapsCurrentThroughout(c, states, who, i - 1, how);
      StepKeepsInvariant(c, states[i - 1], states[i], who[i - 1]);
      SnapsStayCurrent(c, states[i - 1], states[i], who[i - 1], how);
    }
  }

  /**
   While an empty bucket remains, a call that no write of its row runs beside
   fails with corruption only when it meets the bucket of another row with the
   same column hash and row id in the middle of that row's rewriting.  With the
   writes kept apart this holds of every write; with all calls kept apart it holds
   of reads too, and they answer from the map as it stands when they return.
   */
  lemma SerialisedCallsSucceed(c: Config, states: seq<State>, who: seq<nat>, i: nat, out: Outcome, how: Apart)
    requires SerialisedRun(c, states, who, how) && Inv(c, states[0]) && SnapsCurrent(c, states[0], how)
    requires i < |who| && who[i] < |states[i].threads| && Guarded(how, states[i].threads[who[i]].op) && HasRoom(states[i].owner)
    ensures Reports(states[i], states[i + 1], who[i], out) ==> out != TableFull
    ensures Reports(states[i], states[i + 1], who[i], out) && out == CorruptBlock ==> Collide(c, states[i], who[i])
    ensures IndexInRange(states[i])
    ensures Returns(states[i], states[i + 1], who[i], out) && out != CorruptBlock ==>
      out == RowAnswer(Abs(states[i]), states[i].threads[who[i]].op.row, states[i].threads[who[i]].op.key)
  {
    var s, s', t := states[i], states[i + 1], who[i];
    SnapsCurrentThroughout(c, states, who, i, how);
    AbsDefined(c, s);
    if Returns(s, s', t, out) { assert ThreadOk(c, s, t); assert Reports(s, s', t, out); }
    if Reports(s, s', t, out) {
      ErrorsExplained(c, s, s', t, out);
      if out == CorruptBlock { TornIsCollision(c, s, t, how); }
    }
    if Returns(s, s', t, out) && out != CorruptBlock {
      if s.threads[t].pc.ReadValue? { SerialIsCurrent(c, s, t, how); }
      CurrentAnswers(c, s, s', t, out);
    }
  }
}
