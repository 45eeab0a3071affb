/**
 Sequence numbers.  Until all 2^64 words have been taken every write gets a number
 of its own, below the counter, whatever the threads do.
 */
module RowSequence {
  import opened Wrappers
  import opened Bytes
  import opened Probing
  import opened RowBlock
  import opened RowProtocol
  import opened RowProtocolInv
  import opened RowProtocolResults
  import opened RowAdmission
  import opened RowOrder
  import opened RowQuiescent
  import opened RowScan
  import opened RowIndex
  import opened RowReopen
  import opened RowAtomic
  import opened RowRefusal

  /** The sequence a thread has taken and not yet given to an extent. */
  predicate HasTaken(th: Thread) { th.pc.ClaimExtent? }

  /** Every number in use is below the counter, and none is used twice. */
  ghost predicate SequencesOk(s: State) {
    && (forall e :: 0 <= e < |s.extents| ==> s.extents[e].sequence < s.nextSequence)
    && (forall t :: 0 <= t < |s.threads| && HasTaken(s.threads[t]) ==> s.threads[t].pc.sequence < s.nextSequence)
    && (forall d, e :: 0 <= d < e < |s.extents| ==> s.extents[d].sequence != s.extents[e].sequence)
    && (forall t, u :: 0 <= t < u < |s.threads| && HasTaken(s.threads[t]) && HasTaken(s.threads[u]) ==>
          s.threads[t].pc.sequence != s.threads[u].pc.sequence)
    && (forall e, t :: 0 <= e < |s.extents| && 0 <= t < |s.threads| && HasTaken(s.threads[t]) ==>
          s.extents[e].sequence != s.threads[t].pc.sequence)
  }

  lemma FreshSequences(c: Config, initialRowBucketCount: nat, threads: nat, header: seq<byte>)
    requires c.Valid()
    ensures var s := Fresh(c, initialRowBucketCount, threads, header); SequencesOk(s) && s.nextSequence == 1
  {
  }

  /** What a step does to the numbers. */
  ghost predicate SequenceMoves(s: State, s': State, t: nat) {
    && t < |s.threads| == |s'.threads| && (forall u :: 0 <= u < |s.threads| && u != t ==> s'.threads[u] == s.threads[u])
    && (s.threads[t].pc.TakeSequence? ==>
          s'.nextSequence == (s.nextSequence + 1) % TWO64 && s'.threads[t].pc == ClaimExtent(s.nextSequence) && s'.extents == s.extents)
    && (!s.threads[t].pc.TakeSequence? ==> s'.nextSequence == s.nextSequence && !HasTaken(s'.threads[t]))
    && (HasTaken(s.threads[t]) && |s'.extents| > |s.extents| ==>
          |s'.extents| == |s.extents| + 1 && s'.extents[..|s.extents|] == s.extents
          && s'.extents[|s.extents|].sequence == s.threads[t].pc.sequence)
    && (|s'.extents| > |s.extents| ==> HasTaken(s.threads[t]))
    && |s.extents| <= |s'.extents| && (forall e :: 0 <= e < |s.extents| ==> s'.extents[e].sequence == s.extents[e].sequence)
  }

  lemma CountingSequence(c: Config, s: State, s': State, t: nat)
    requires c.Valid() && Shape(c, s) && Step(c, s, s', t) && IsCounting(s.threads[t].pc)
    ensures |s'.threads| == |s.threads| && s'.extents == s.extents
    ensures s.threads[t].pc.TakeSequence? ==>
      s'.nextSequence == (s.nextSequence + 1) % TWO64 && s'.threads[t].pc == ClaimExtent(s.nextSequence)
    ensures !s.threads[t].pc.TakeSequence? ==> s'.nextSequence == s.nextSequence && !HasTaken(s'.threads[t])
  {
    hide Config.OverLoad;
  }

  lemma NewExtentSequence(c: Config, s: State, t: nat)
    requires c.Valid() && Shape(c, s) && t < |s.threads| && s.threads[t].pc.ClaimExtent? && !s.threads[t].op.GetRow?
    ensures NewExtent(c, s, t, s.threads[t].pc.sequence).sequence == s.threads[t].pc.sequence
  {
    hide BlockBytes;
  }

  lemma StepMovesSequence(c: Config, s: State, s': State, t: nat)
    requires Inv(c, s) && Step(c, s, s', t)
    ensures SequenceMoves(s, s', t)
  {
    hide Inv, Step, NewExtent;
    InvSizes(c, s);
    RowResult.InvThreads(c, s);
    StepHasThread(c, s, s', t);
    StepExtends(c, s, s', t);
    if IsCounting(s.threads[t].pc) { CountingSequence(c, s, s', t); } else { OthersLeave(c, s, s', t); }
    LogSteps(c, s, s', t);
    if FatesOnly(s, s', t) {
      forall e | 0 <= e < |s.extents| ensures s'.extents[e].sequence == s.extents[e].sequence { assert FateMoves(s, s', t, e); }
    } else {
      NewExtentSequence(c, s, t);
    }
  }

  /** A step keeps the numbers apart, unless it takes the last word. */
  lemma MovesKeepSequences(s: State, s': State, t: nat)
    requires SequenceMoves(s, s', t) && SequencesOk(s) && (s.threads[t].pc.TakeSequence? ==> s.nextSequence + 1 < TWO64)
    ensures SequencesOk(s')
  {
    if |s'.extents| > |s.extents| {
      forall e | 0 <= e < |s.extents| ensures s'.extents[e] == s.extents[e] { assert s'.extents[..|s.extents|][e] == s.extents[e]; }
    }
  }

  lemma StepKeepsSequences(c: Config, s: State, s': State, t: nat)
    requires Inv(c, s) && Step(c, s, s', t) && t < |s.threads| && SequencesOk(s)
    requires s.threads[t].pc.TakeSequence? ==> s.nextSequence + 1 < TWO64
    ensures SequencesOk(s')
  {
    StepMovesSequence(c, s, s', t);
    MovesKeepSequences(s, s', t);
  }

  /** The sequence numbers that the first `k` steps take. */
  function Takes(states: seq<State>, who: seq<nat>, k: nat): nat
    requires k <= |who| < |states|
  {
    if k == 0 then 0
    else
      var s, t := states[k - 1], who[k - 1];
      Takes(states, who, k - 1) + if t < |s.threads| && s.threads[t].pc.TakeSequence? then 1 else 0
  }

  /** The counter moves by one for each number taken, and wraps. */
  lemma {:induction false} CounterCountsTakes(c: Config, states: seq<State>, who: seq<nat>, k: nat)
    requires Run(c, states, who) && Inv(c, states[0]) && k < |states|
    ensures states[k].nextSequence == (states[0].nextSequence + Takes(states, who, k)) % TWO64
  {
    hide Inv, Step;
    if k == 0 {
      FirstCounter(c, states[0]);
    } else {
      CounterCountsTakes(c, states, who, k - 1);
      RunKeepsInvariant(c, states, who, k - 1);
      StepMovesSequence(c, states[k - 1], states[k], who[k - 1]);
      ModNext(states[0].nextSequence + Takes(states, who, k - 1));
    }
  }

  lemma FirstCounter(c: Config, s: State)
    requires Inv(c, s)
    ensures s.nextSequence == s.nextSequence % TWO64
  {
    hide ExtentsOk, Ordered, BlocksOk, FilesOk, SlotsOk, IndexOk, TableOk, ThreadsOk;
  }

  lemma ModNext(x: nat)
    ensures (x % TWO64 + 1) % TWO64 == (x + 1) % TWO64
  {
  }

  lemma {:induction false} TakesGrow(states: seq<State>, who: seq<nat>, i: nat, k: nat)
    requires i <= k <= |who| < |states|
    ensures Takes(states, who, i) <= Takes(states, who, k)
  {
    if i < k { TakesGrow(states, who, i, k - 1); }
  }

  /**
   Until 2^64 numbers have been taken, in every state of every run all numbers in
   use are below the counter and different from each other, and the counter is the
   starting one and the numbers taken since.
   */
  lemma {:induction false} SequencesThroughout(c: Config, states: seq<State>, who: seq<nat>, k: nat)
    requires Run(c, states, who) && Inv(c, states[0]) && SequencesOk(states[0]) && k < |states|
    requires states[0].nextSequence + Takes(states, who, k) < TWO64
    ensures SequencesOk(states[k]) && states[k].nextSequence == states[0].nextSequence + Takes(states, who, k)
  {
    hide Inv, Step, SequencesOk;
    CounterCountsTakes(c, states, who, k);
    if k > 0 {
      SequencesThroughout(c, states, who, k - 1);
      RunKeepsInvariant(c, states, who, k - 1);
      InvSizes(c, states[k - 1]);
      StepHasThread(c, states[k - 1], states[k], who[k - 1]);
      StepKeepsSequences(c, states[k - 1], states[k], who[k - 1]);
    }
  }

  // ---- The rebuilt counter ---------------------------------------------------------------------

  /**
   A rebuilt counter is a sound one to go on with: it is above every number in the
   files, and no higher than the live one.
   */
  lemma RebuiltSequences(c: Config, s: State, owner: seq<Option<Row>>, nextSequence: nat)
    requires Inv(c, s) && AllIdle(s) && IndexInRange(s) && SequencesOk(s) && |owner| > 0 && 1 <= s.nextSequence && c.shardCount > 0
    requires var logs := Logs(s.extents, c.shardCount);
      AboveAll(nextSequence, logs) && (nextSequence == 1 || ComesAfter(nextSequence, logs))
    ensures nextSequence <= s.nextSequence && SequencesOk(Rebuilt(c, s, owner, nextSequence))
  {
    hide Inv, ComesAfter, AboveAll, Find, ShardLog;
    CounterIsWord(c, s);
    forall e | 0 <= e < |s.extents| ensures s.extents[e].sequence < nextSequence {
      var k, i := InSomeLog(c, s, e);
      AboveOne(nextSequence, Logs(s.extents, c.shardCount), k, i);
    }
    if nextSequence != 1 { NoHigher(c, s, nextSequence); }
    RebuiltIsIdle(c, s, owner, nextSequence);
  }

  lemma CounterIsWord(c: Config, s: State)
    requires Inv(c, s)
    ensures s.nextSequence < TWO64
  {
    hide ExtentsOk, Ordered, BlocksOk, FilesOk, SlotsOk, IndexOk, TableOk, ThreadsOk;
  }

  lemma AboveOne(next: nat, logs: seq<seq<Extent>>, k: nat, i: nat)
    requires AboveAll(next, logs) && k < |logs| && i < |logs[k]| && logs[k][i].sequence + 1 < TWO64
    ensures logs[k][i].sequence < next
  {
  }

  lemma NoHigher(c: Config, s: State, next: nat)
    requires SequencesOk(s) && ComesAfter(next, Logs(s.extents, c.shardCount)) && s.nextSequence < TWO64
    ensures next <= s.nextSequence
  {
    var logs := Logs(s.extents, c.shardCount);
    var k :| 0 <= k < |logs| && NextOf(next, logs[k]);
    var i :| 0 <= i < |logs[k]| && next == WordAfter(logs[k][i].sequence);
    ShardLogRows(s.extents, k, i);
  }

  lemma RebuiltIsIdle(c: Config, s: State, owner: seq<Option<Row>>, nextSequence: nat)
    requires IndexInRange(s) && |owner| > 0
    ensures var s' := Rebuilt(c, s, owner, nextSequence);
      s'.extents == s.extents && s'.nextSequence == nextSequence && |s'.threads| == |s.threads| && AllIdle(s')
  {
    hide Find;
  }
}
