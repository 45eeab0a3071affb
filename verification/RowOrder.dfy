/**
 The order of the row value files: extents of a shard lie end to end in claim
 order, and with serialised calls the last published extent of a row is the one
 its bucket points at.
 */
module RowOrder {
  import opened RowProtocol
  import opened RowProtocolInv
  import opened RowProtocolWrites
  import opened RowProtocolResults
  import opened RowSerial

  /** Where a shard's file ends after these extents. */
  function ShardEnd(xs: seq<Extent>, shard: nat): nat {
    if xs == [] then ROW_FILE_HEADER_SIZE
    else ShardEnd(xs[..|xs| - 1], shard) + (if xs[|xs| - 1].shard == shard then |xs[|xs| - 1].bytes| else 0)
  }

  ghost predicate Packed(s: State) {
    && (forall e :: 0 <= e < |s.extents| ==> s.extents[e].offset == ShardEnd(s.extents[..e], s.extents[e].shard))
    && (forall i :: 0 <= i < |s.append| ==> s.append[i] == ShardEnd(s.extents, i))
  }

  predicate InProgress(fate: Fate) { fate.Claimed? || fate.Written? || fate.Storing? }

  /** `x` is the extent of a write in progress of the row that `y` belongs to. */
  predicate Follows(x: Extent, y: Extent) { InProgress(x.fate) && x.row == y.row }

  /** A write in progress has the newest extent of its row. */
  ghost predicate LastClaim(s: State) {
    forall a, b :: 0 <= a < |s.extents| && 0 <= b < |s.extents| && Follows(s.extents[a], s.extents[b]) ==> b <= a
  }

  ghost predicate PublishedUpTo(s: State, e: nat)
    requires e < |s.extents|
  {
    s.extents[e].row in s.index && e <= s.index[s.extents[e].row].ext
  }

  /** A row's bucket points at its newest published extent. */
  ghost predicate IndexIsLast(s: State) {
    forall e :: 0 <= e < |s.extents| && s.extents[e].fate.Published? ==> PublishedUpTo(s, e)
  }

  ghost predicate LogOk(s: State) { Packed(s) && LastClaim(s) && IndexIsLast(s) }

  // ---- What a step does to the extents ------------------------------------------------

  ghost predicate FateMoves(s: State, s': State, t: nat, e: nat)
    requires t < |s.threads| && e < |s.extents| == |s'.extents|
  {
    && SameExtent(s.extents[e], s'.extents[e])
    && (InProgress(s'.extents[e].fate) ==> InProgress(s.extents[e].fate))
    && (s'.extents[e].fate.Published? ==> s.extents[e].fate.Published? || (s.threads[t].pc.Publish? && s.threads[t].ext == e))
  }

  ghost predicate FatesOnly(s: State, s': State, t: nat)
    requires t < |s.threads|
  {
    |s'.extents| == |s.extents| && s'.append == s.append && forall e :: 0 <= e < |s.extents| ==> FateMoves(s, s', t, e)
  }

  lemma SetFateMoves(s: State, s': State, t: nat, fate: Fate)
    requires t < |s.threads| && s'.append == s.append && s'.extents == SetFate(s, s.threads[t].ext, fate).extents
    requires InProgress(fate) && s.threads[t].ext < |s.extents| ==> InProgress(s.extents[s.threads[t].ext].fate)
    requires fate.Published? ==> s.threads[t].pc.Publish?
    ensures FatesOnly(s, s', t)
  {
  }

  lemma FailMoves(s: State, t: nat, out: Outcome)
    requires t < |s.threads|
    ensures FatesOnly(s, Fail(s, t, out), t)
  {
    if !s.threads[t].op.GetRow? { SetFateMoves(s, Fail(s, t, out), t, Abandoned); }
  }

  lemma WriteMoves(s: State, s': State, t: nat, done: nat)
    requires t < |s.threads| && s.threads[t].pc == WriteBlock(done) && WriteStep(s, s', t, done) && Owner(s, t, Claimed)
    ensures FatesOnly(s, s', t)
  {
    var e := s.threads[t].ext;
    if s' == Fail(s, t, WriteFailed) {
      FailMoves(s, t, WriteFailed);
    } else {
      var n :| 0 < n <= |s.extents[e].bytes| - done && s' == DoWrite(s, t, done, n);
      SetFateMoves(s, s', t, if done + n == |s.extents[e].bytes| then Written else Claimed);
    }
  }

  lemma BucketMoves(c: Config, s: State, s': State, t: nat)
    requires c.Valid() && Shape(c, s) && ThreadsOk(c, s) && Step(c, s, s', t)
    requires s.threads[t].pc.CasEmpty? || s.threads[t].pc.CasFilled? || IsStoring(s.threads[t].pc)
    ensures FatesOnly(s, s', t)
  {
    assert ThreadOk(c, s, t);
    match s.threads[t].pc
    case StoreField(_, _, _) =>
    case Publish(_, _) => SetFateMoves(s, s', t, Published);
    case _ => if s'.extents != s.extents { SetFateMoves(s, s', t, Storing); }
  }

  /** Every step appends one extent or only moves the fate of the thread's own. */
  lemma LogSteps(c: Config, s: State, s': State, t: nat)
    requires c.Valid() && Shape(c, s) && ThreadsOk(c, s) && Step(c, s, s', t)
    ensures FatesOnly(s, s', t)
      || (s.threads[t].pc.ClaimExtent? && !s.threads[t].op.GetRow? && s' == AddExtent(s, t, NewExtent(c, s, t, s.threads[t].pc.sequence)))
  {
    var pc := s.threads[t].pc;
    assert ThreadOk(c, s, t);
    if IsCounting(pc) { CountingSteps(c, s, s', t); }
    else if pc.Recheck? || pc.ReadHeader? || pc.ReadColumn? {
      MatchingSteps(c, s, s', t);
      FailMoves(s, t, TableFull);
      FailMoves(s, t, CorruptBlock);
    } else if IsReading(pc) { LoadingSteps(c, s, s', t); }
    else if pc.WriteBlock? { WriteMoves(s, s', t, pc.done); }
    else if !pc.ClaimExtent? { BucketMoves(c, s, s', t); }
  }

  // ---- Keeping the order -----------------------------------------------------------------

  lemma {:induction false} SameEnd(xs: seq<Extent>, ys: seq<Extent>, shard: nat)
    requires |xs| == |ys| && forall e :: 0 <= e < |xs| ==> SameExtent(xs[e], ys[e])
    ensures ShardEnd(xs, shard) == ShardEnd(ys, shard)
  {
    if xs != [] { SameEnd(xs[..|xs| - 1], ys[..|ys| - 1], shard); }
  }

  lemma PackedKeeps(s: State, s': State, t: nat)
    requires t < |s.threads| && Packed(s) && FatesOnly(s, s', t)
    ensures Packed(s')
  {
    forall e | 0 <= e < |s'.extents| ensures s'.extents[e].offset == ShardEnd(s'.extents[..e], s'.extents[e].shard) {
      assert FateMoves(s, s', t, e);
      forall d | 0 <= d < e ensures SameExtent(s.extents[..e][d], s'.extents[..e][d]) { assert FateMoves(s, s', t, d); }
      SameEnd(s.extents[..e], s'.extents[..e], s'.extents[e].shard);
    }
    forall i | 0 <= i < |s'.append| ensures s'.append[i] == ShardEnd(s'.extents, i) {
      forall d | 0 <= d < |s.extents| ensures SameExtent(s.extents[d], s'.extents[d]) { assert FateMoves(s, s', t, d); }
      SameEnd(s.extents, s'.extents, i);
    }
  }

  lemma PackedGrows(s: State, t: nat, x: Extent)
    requires t < |s.threads| && Packed(s) && x.shard < |s.append| && x.offset == s.append[x.shard]
    ensures Packed(AddExtent(s, t, x))
  {
    var s' := AddExtent(s, t, x);
    var n := |s.extents|;
    assert s'.extents[..n] == s.extents && s'.extents[n] == x;
    forall e | 0 <= e < |s'.extents| ensures s'.extents[e].offset == ShardEnd(s'.extents[..e], s'.extents[e].shard) {
      if e < n { assert s'.extents[..e] == s.extents[..e]; }
    }
  }

  /** Extents lie end to end over every run, whatever calls overlap. */
  lemma {:induction false} PackedThroughout(c: Config, states: seq<State>, who: seq<nat>, i: nat)
    requires Run(c, states, who) && Inv(c, states[0]) && Packed(states[0]) && i < |states|
    ensures Packed(states[i])
  {
    hide Packed, Step, Inv;
    if i > 0 {
      PackedThroughout(c, states, who, i - 1);
      RunKeepsInvariant(c, states, who, i - 1);
      StepKeepsPacked(c, states[i - 1], states[i], who[i - 1]);
    }
  }

  lemma StepKeepsPacked(c: Config, s: State, s': State, t: nat)
    requires Inv(c, s) && Step(c, s, s', t) && Packed(s)
    ensures Packed(s')
  {
    hide Packed;
    LogSteps(c, s, s', t);
    if FatesOnly(s, s', t) { PackedKeeps(s, s', t); }
    else {
      NewExtentShard(c, s, t);
      PackedGrows(s, t, NewExtent(c, s, t, s.threads[t].pc.sequence));
    }
  }

  lemma FatesKeepLog(c: Config, s: State, s': State, t: nat)
    requires c.Valid() && Shape(c, s) && ThreadsOk(c, s) && Step(c, s, s', t) && LogOk(s) && FatesOnly(s, s', t)
    ensures LogOk(s')
  {
    PackedKeeps(s, s', t);
    IndexSteps(c, s, s', t);
    assert ThreadOk(c, s, t);
    forall a, b | 0 <= a < |s'.extents| && 0 <= b < |s'.extents| && Follows(s'.extents[a], s'.extents[b])
      ensures b <= a
    {
      assert FateMoves(s, s', t, a) && FateMoves(s, s', t, b);
    }
    forall e | 0 <= e < |s'.extents| && s'.extents[e].fate.Published? ensures PublishedUpTo(s', e) {
      assert FateMoves(s, s', t, e);
      if s.extents[e].fate.Published? { assert PublishedUpTo(s, e); }
    }
  }

  lemma ProgressHasWriter(c: Config, s: State, e: nat)
    requires c.Valid() && Shape(c, s) && ThreadsOk(c, s) && e < |s.extents| && ExtentOk(c, s, e) && InProgress(s.extents[e].fate)
    ensures var u := s.extents[e].thread;
      u < |s.threads| && !s.threads[u].pc.Idle? && !s.threads[u].pc.ClaimExtent? && !s.threads[u].op.GetRow?
      && s.extents[e].row == s.threads[u].op.row
  {
    assert ThreadOk(c, s, s.extents[e].thread);
  }

  /** No other write of a row is in progress when a write of it claims its extent. */
  lemma ClaimIsAlone(c: Config, s: State, t: nat, e: nat)
    requires Inv(c, s) && Serialised(s, WritesOnly) && t < |s.threads| && s.threads[t].pc.ClaimExtent? && e < |s.extents|
    requires s.extents[e].row == s.threads[t].op.row
    ensures !InProgress(s.extents[e].fate)
  {
    assert ExtentOk(c, s, e);
    ClaimerWrites(c, s, t);
    if InProgress(s.extents[e].fate) {
      ProgressHasWriter(c, s, e);
      assert false;
    }
  }

  lemma ClaimerWrites(c: Config, s: State, t: nat)
    requires c.Valid() && Shape(c, s) && ThreadsOk(c, s) && t < |s.threads| && s.threads[t].pc.ClaimExtent?
    ensures !s.threads[t].op.GetRow?
  {
    assert ThreadOk(c, s, t);
  }

  lemma ClaimKeepsLog(c: Config, s: State, t: nat, x: Extent)
    requires Inv(c, s) && Serialised(s, WritesOnly) && LogOk(s) && t < |s.threads| && s.threads[t].pc.ClaimExtent?
    requires x.row == s.threads[t].op.row && x.shard < |s.append| && x.offset == s.append[x.shard] && x.fate == Claimed
    ensures LogOk(AddExtent(s, t, x))
  {
    var s' := AddExtent(s, t, x);
    PackedGrows(s, t, x);
    forall a, b | 0 <= a < |s'.extents| && 0 <= b < |s'.extents| && Follows(s'.extents[a], s'.extents[b])
      ensures b <= a
    {
      if a < |s.extents| && b == |s.extents| { ClaimIsAlone(c, s, t, a); }
    }
    forall e | 0 <= e < |s'.extents| && s'.extents[e].fate.Published? ensures PublishedUpTo(s', e) {
      assert PublishedUpTo(s, e);
    }
  }

  lemma StepKeepsLog(c: Config, s: State, s': State, t: nat)
    requires Inv(c, s) && Serialised(s, WritesOnly) && LogOk(s) && Step(c, s, s', t)
    ensures LogOk(s')
  {
    LogSteps(c, s, s', t);
    if FatesOnly(s, s', t) { FatesKeepLog(c, s, s', t); }
    else {
      NewExtentShard(c, s, t);
      ClaimKeepsLog(c, s, t, NewExtent(c, s, t, s.threads[t].pc.sequence));
    }
  }

  lemma NewExtentShard(c: Config, s: State, t: nat)
    requires c.Valid() && Shape(c, s) && t < |s.threads| && s.threads[t].pc.ClaimExtent? && !s.threads[t].op.GetRow?
    ensures var x := NewExtent(c, s, t, s.threads[t].pc.sequence); x.shard < |s.append| && x.offset == s.append[x.shard]
  {
  }

  /** Over every serialised run the files stay packed and each row's newest published extent is the indexed one. */
  lemma {:induction false} LogOkThroughout(c: Config, states: seq<State>, who: seq<nat>, i: nat)
    requires SerialisedRun(c, states, who, WritesOnly) && Inv(c, states[0]) && LogOk(states[0]) && i < |states|
    ensures Inv(c, states[i]) && LogOk(states[i])
  {
    hide LogOk, Packed, LastClaim, IndexIsLast, Serialised, Step;
    if i > 0 {
      LogOkThroughout(c, states, who, i - 1);
      StepKeepsInvariant(c, states[i - 1], states[i], who[i - 1]);
      StepKeepsLog(c, states[i - 1], states[i], who[i - 1]);
    }
  }
}
