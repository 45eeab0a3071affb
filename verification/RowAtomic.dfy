/**
 Reads are atomic.  However often rows are rewritten and however calls overlap, a
 read that ends without an error answers as the map of published rows stood at
 one moment between its beginning and its end.

 The moment is when the extent that the read's block offset came from was the
 published one: when that word was loaded, or, if a writer holding the bucket had
 already stored it, when that writer published, which the second Filled load
 guarantees to have happened.
 */
module RowAtomic {
  import opened Wrappers
  import opened FileIO
  import opened RowBlock
  import opened RowProtocol
  import opened RowProtocolInv
  import opened RowProtocolResults
  import opened RowLinear
  import opened RowAdmission
  import opened RowSerial

  // ---- Where the words of a bucket come from ------------------------------------------------

  /** A bucket being rewritten holds words of the published extent and of its holder's. */
  ghost predicate SourceOk(s: State, i: nat)
    requires i < |s.slots| == |s.owner|
  {
    s.slots[i].filled && s.slots[i].state == Writing ==>
      && s.owner[i].Some? && s.owner[i].value in s.index && s.slots[i].holder < |s.threads| && |s.slots[i].src| == FIELDS
      && forall k :: 0 <= k < FIELDS ==>
           s.slots[i].src[k] == s.index[s.owner[i].value].ext || s.slots[i].src[k] == s.threads[s.slots[i].holder].ext
  }

  ghost predicate SourcesOk(s: State)
    requires |s.slots| == |s.owner|
  {
    forall i :: 0 <= i < |s.slots| ==> SourceOk(s, i)
  }

  /** With no call in flight no bucket is being rewritten. */
  lemma QuiescentSources(c: Config, s: State)
    requires Inv(c, s) && AllIdle(s)
    ensures SourcesOk(s)
  {
    forall i | 0 <= i < |s.slots| ensures SourceOk(s, i) { assert SlotOk(c, s, i); }
  }

  lemma StepHasThread(c: Config, s: State, s': State, t: nat)
    requires c.Valid() && Shape(c, s) && Step(c, s, s', t)
    ensures t < |s.threads|
  {
  }

  /** A step changes at most the bucket its thread is at, and only to claim, store or publish. */
  lemma SlotSteps(c: Config, s: State, s': State, t: nat, i: nat)
    requires c.Valid() && Shape(c, s) && Step(c, s, s', t) && i < |s.slots| && i < |s'.slots| && s'.slots[i] != s.slots[i]
    ensures var th := s.threads[t];
      (th.pc.CasEmpty? || th.pc.CasFilled? || IsStoring(th.pc)) && th.pc.p < |s.slots| && i == SlotAt(c, s, th.op.row, th.pc.p)
  {
    hide SlotAt, NewExtent, Writable, PWrite, FieldOf;
    var pc := s.threads[t].pc;
    if IsCounting(pc) || IsReading(pc) { LocalSteps(c, s, s', t); }
  }

  predicate StoresWord(a: Slot, b: Slot, k: nat, e: nat) {
    k < FIELDS == |a.src| && b.src == a.src[k := e] && b.state == a.state && b.holder == a.holder && b.filled == a.filled
  }

  /** What a change of a bucket is: a claim, the store of one word, or the Filled store. */
  lemma SlotChanges(c: Config, s: State, s': State, t: nat, i: nat)
    requires c.Valid() && Shape(c, s) && Step(c, s, s', t) && i < |s.slots| && i < |s'.slots| && s'.slots[i] != s.slots[i]
    ensures var pc := s.threads[t].pc;
      pc.CasEmpty? || pc.CasFilled? ==> s'.slots[i] == s.slots[i].(state := Writing, holder := t) && s.slots[i].state != Writing
    ensures s.threads[t].pc.StoreField? ==> StoresWord(s.slots[i], s'.slots[i], s.threads[t].pc.k, s.threads[t].ext)
    ensures s.threads[t].pc.Publish? ==> s'.slots[i].state == Filled
  {
    hide SlotAt, FieldOf;
    SlotSteps(c, s, s', t, i);
  }

  lemma ExtStays(c: Config, s: State, s': State, t: nat)
    requires c.Valid() && Shape(c, s) && Step(c, s, s', t) && IsStoring(s.threads[t].pc)
    ensures |s'.threads| == |s.threads| && s'.threads[t].ext == s.threads[t].ext
  {
    hide SlotAt, FieldOf;
  }

  /** While another thread holds a bucket, the row's index entry does not change. */
  lemma HeldEntryStays(c: Config, s: State, s': State, t: nat, i: nat)
    requires Inv(c, s) && Step(c, s, s', t) && i < |s.slots| && s.slots[i].state == Writing && s.slots[i].holder != t
    requires s.owner[i].Some? && s.owner[i].value in s.index
    ensures s.owner[i].value in s'.index && s'.index[s.owner[i].value] == s.index[s.owner[i].value]
  {
    hide ExtentsOk, Ordered, BlocksOk, FilesOk, IndexOk, CountsOk;
    IndexSteps(c, s, s', t);
    assert ThreadOk(c, s, t);
  }

  lemma HeldSourceStays(c: Config, s: State, s': State, t: nat, i: nat)
    requires Inv(c, s) && Inv(c, s') && Step(c, s, s', t) && Extends(s, s', t) && i < |s.slots| && SourceOk(s, i)
    requires s.slots[i].state == Writing && s.slots[i].holder != t
    ensures SourceOk(s', i) && s'.slots[i] == s.slots[i]
  {
    hide Inv, Step;
    if s.slots[i].filled { HeldEntryStays(c, s, s', t, i); }
  }

  /** The holder's own steps: one more word of its extent, or the Filled store. */
  lemma HolderSteps(c: Config, s: State, s': State, t: nat, i: nat)
    requires Inv(c, s) && Step(c, s, s', t) && i < |s.slots| && s.slots[i].state == Writing && s.slots[i].holder == t
    ensures t < |s.threads| && IsStoring(s.threads[t].pc) && s.owner[i] == Some(s.threads[t].op.row)
    ensures |s'.threads| == |s.threads| && s'.threads[t].ext == s.threads[t].ext
    ensures s.threads[t].pc.Publish? ==>
      s.threads[t].op.row in s'.index && s'.index[s.threads[t].op.row].ext == s.threads[t].ext
    ensures s.threads[t].pc.StoreField? ==> s'.index == s.index && s'.owner == s.owner
  {
    hide ExtentsOk, Ordered, BlocksOk, FilesOk, IndexOk, TableOk, CountsOk;
    assert SlotOk(c, s, i);
    assert ThreadOk(c, s, t);
    ExtStays(c, s, s', t);
    IndexSteps(c, s, s', t);
  }

  lemma OwnSourceStays(c: Config, s: State, s': State, t: nat, i: nat)
    requires Inv(c, s) && Inv(c, s') && Step(c, s, s', t) && i < |s.slots| == |s'.slots| && SourceOk(s, i)
    requires s.slots[i].state == Writing && s.slots[i].holder == t
    ensures i < |s'.owner| && SourceOk(s', i)
  {
    hide Step, Inv, SlotAt;
    InvSizes(c, s);
    InvSizes(c, s');
    HolderSteps(c, s, s', t, i);
    if s.threads[t].pc.Publish? {
      PublishedIsFilled(c, s, s', t, i);
    } else if s'.slots[i] != s.slots[i] {
      SlotChanges(c, s, s', t, i);
    }
  }

  lemma InvSizes(c: Config, s: State)
    requires Inv(c, s)
    ensures c.Valid() && Shape(c, s) && |s.slots| == |s.owner|
  {
  }

  /** The Filled store leaves the held bucket Filled. */
  lemma PublishedIsFilled(c: Config, s: State, s': State, t: nat, i: nat)
    requires Inv(c, s) && Step(c, s, s', t) && s.threads[t].pc.Publish?
    requires i < |s.slots| == |s'.slots| && s.slots[i].state == Writing && s.slots[i].holder == t
    ensures s'.slots[i].state == Filled
  {
    hide ExtentsOk, Ordered, BlocksOk, FilesOk, IndexOk, TableOk, CountsOk;
    assert SlotOk(c, s, i);
  }

  /** A bucket that is claimed for rewriting still holds the published words. */
  lemma ClaimedSource(c: Config, s: State, s': State, t: nat, i: nat)
    requires Inv(c, s) && Step(c, s, s', t) && i < |s.slots| == |s'.slots| == |s'.owner| && s.slots[i].state != Writing
    requires Extends(s, s', t)
    ensures SourceOk(s', i)
  {
    hide ExtentsOk, Ordered, BlocksOk, FilesOk, IndexOk, TableOk, CountsOk, SlotAt;
    assert SlotOk(c, s, i);
    if s'.slots[i] != s.slots[i] && s'.slots[i].state == Writing && s'.slots[i].filled {
      SlotSteps(c, s, s', t, i);
      SlotChanges(c, s, s', t, i);
      IndexSteps(c, s, s', t);
    }
  }

  lemma StepKeepsSources(c: Config, s: State, s': State, t: nat)
    requires Inv(c, s) && Inv(c, s') && Step(c, s, s', t) && SourcesOk(s)
    ensures SourcesOk(s')
  {
    hide Step, SourceOk;
    StepExtends(c, s, s', t);
    forall i | 0 <= i < |s'.slots| ensures SourceOk(s', i) {
      assert SourceOk(s, i);
      if s.slots[i].state != Writing { InvSizes(c, s'); ClaimedSource(c, s, s', t, i); }
      else if s.slots[i].holder == t { OwnSourceStays(c, s, s', t, i); }
      else { HeldSourceStays(c, s, s', t, i); }
    }
  }

  // ---- A read in progress --------------------------------------------------------------------

  /** At some state of the call so far, extent `e` was the published one of row `r`. */
  ghost predicate Seen(states: seq<State>, b: nat, k: nat, r: Row, e: nat) {
    exists m :: b < m <= k && m < |states| && PublishedAt(states[m], r, e)
  }

  ghost predicate PublishedAt(s: State, r: Row, e: nat) { r in s.index && s.index[r].ext == e }

  /** The bucket is being rewritten, and will next publish extent `e`. */
  ghost predicate Coming(s: State, i: nat, e: nat) {
    i < |s.slots| && s.slots[i].state == Writing && s.slots[i].holder < |s.threads| && s.threads[s.slots[i].holder].ext == e
  }

  /** Thread `t` has loaded the block offset from the bucket of its own row. */
  ghost predicate HasWord(c: Config, s: State, t: nat)
    requires c.Valid() && Shape(c, s) && t < |s.threads|
  {
    var th := s.threads[t];
    HasSnap(th.pc) && |th.pc.snap.src| > 3 && th.pc.p < |s.slots| && s.owner[SlotAt(c, s, th.op.row, th.pc.p)] == Some(th.op.row)
  }

  /** The extent the block offset came from has been the published one during the call, or is about to be. */
  ghost predicate WordSeen(c: Config, states: seq<State>, b: nat, k: nat, t: nat)
    requires k < |states| && c.Valid() && Shape(c, states[k]) && t < |states[k].threads|
  {
    HasWord(c, states[k], t) ==>
      var th := states[k].threads[t];
      Seen(states, b, k, th.op.row, th.pc.snap.src[3])
      || ((th.pc.LoadField? || th.pc.Recheck?) && Coming(states[k], SlotAt(c, states[k], th.op.row, th.pc.p), th.pc.snap.src[3]))
  }

  lemma SeenLater(states: seq<State>, b: nat, k: nat, r: Row, e: nat)
    requires Seen(states, b, k, r, e)
    ensures Seen(states, b, k + 1, r, e)
  {
    var m :| b < m <= k && m < |states| && PublishedAt(states[m], r, e);
  }

  lemma SeenNow(states: seq<State>, b: nat, k: nat, r: Row, e: nat)
    requires b < k < |states| && PublishedAt(states[k], r, e)
    ensures Seen(states, b, k, r, e)
  {
  }

  /** What a rewrite in progress is about to publish it still is about to publish, or has just published. */
  lemma ComingStep(c: Config, s: State, s': State, u: nat, i: nat, e: nat)
    requires Inv(c, s) && Inv(c, s') && Step(c, s, s', u) && Coming(s, i, e)
    ensures i < |s.owner| && s.owner[i].Some?
    ensures Coming(s', i, e) || PublishedAt(s', s.owner[i].value, e)
  {
    hide Step, Inv, SlotAt;
    StepExtends(c, s, s', u);
    InvSizes(c, s);
    InvSizes(c, s');
    WritingIsOwned(c, s, i);
    if s.slots[i].holder == u {
      HolderSteps(c, s, s', u, i);
      if s.threads[u].pc.StoreField? { StoringHolds(c, s, s', u, i); }
    }
  }

  lemma WritingIsOwned(c: Config, s: State, i: nat)
    requires Inv(c, s) && i < |s.slots| && s.slots[i].state == Writing
    ensures i < |s.owner| && s.owner[i].Some? && s.slots[i].holder < |s.threads|
  {
    assert SlotOk(c, s, i);
  }

  /** Storing a word leaves the bucket held. */
  lemma StoringHolds(c: Config, s: State, s': State, t: nat, i: nat)
    requires Inv(c, s) && Step(c, s, s', t) && s.threads[t].pc.StoreField?
    requires i < |s.slots| == |s'.slots| && s.slots[i].state == Writing && s.slots[i].holder == t
    ensures s'.slots[i].state == Writing && s'.slots[i].holder == t
  {
    hide Inv, SlotAt;
    InvSizes(c, s);
    if s'.slots[i] != s.slots[i] { SlotSteps(c, s, s', t, i); SlotChanges(c, s, s', t, i); }
  }

  /** A step of another thread. */
  lemma OtherStepSeen(c: Config, states: seq<State>, b: nat, k: nat, t: nat, u: nat)
    requires k + 1 < |states| && b < k && Inv(c, states[k]) && Inv(c, states[k + 1]) && Step(c, states[k], states[k + 1], u) && u != t
    requires t < |states[k].threads| && WordSeen(c, states, b, k, t)
    ensures t < |states[k + 1].threads| && WordSeen(c, states, b, k + 1, t)
  {
    hide Step, Inv, Seen, Coming, SlotAt;
    var s, s' := states[k], states[k + 1];
    InvSizes(c, s);
    InvSizes(c, s');
    StepExtends(c, s, s', u);
    var th := s.threads[t];
    assert s'.threads[t] == th;
    if HasWord(c, s', t) {
      WordWasThere(c, s, s', t);
      var i, e := SlotAt(c, s, th.op.row, th.pc.p), th.pc.snap.src[3];
      if Seen(states, b, k, th.op.row, e) {
        SeenLater(states, b, k, th.op.row, e);
      } else {
        ComingStep(c, s, s', u, i, e);
        if PublishedAt(s', th.op.row, e) { SeenNow(states, b, k + 1, th.op.row, e); }
      }
    }
  }

  lemma WordWasThere(c: Config, s: State, s': State, t: nat)
    requires Inv(c, s) && Shape(c, s') && t < |s.threads| == |s'.threads| && s'.threads[t] == s.threads[t] && |s'.slots| == |s.slots|
    requires forall i :: 0 <= i < |s.slots| && s.owner[i].Some? ==> s'.owner[i] == s.owner[i]
    requires HasWord(c, s', t)
    ensures HasWord(c, s, t)
    ensures SlotAt(c, s', s.threads[t].op.row, s.threads[t].pc.p) == SlotAt(c, s, s.threads[t].op.row, s.threads[t].pc.p)
  {
    hide ExtentsOk, Ordered, BlocksOk, FilesOk, IndexOk, TableOk, CountsOk, SlotsOk;
    assert ThreadOk(c, s, t);
    SnapHasOwner(c, s, t);
  }

  /** The block offset is loaded: from the published extent, or from the one about to be published. */
  lemma WordLoaded(c: Config, states: seq<State>, b: nat, k: nat, t: nat)
    requires k + 1 < |states| && b < k && Inv(c, states[k]) && Inv(c, states[k + 1]) && Step(c, states[k], states[k + 1], t)
    requires t < |states[k].threads| && states[k].threads[t].pc.LoadField? && WordSeen(c, states, b, k, t) && SourcesOk(states[k])
    ensures t < |states[k + 1].threads| && WordSeen(c, states, b, k + 1, t)
  {
    hide Seen, SlotAt, ExtentsOk, Ordered, BlocksOk, FilesOk, TableOk, CountsOk, IndexOk;
    var s, s' := states[k], states[k + 1];
    assert ThreadOk(c, s, t);
    var th := s.threads[t];
    var i := SlotAt(c, s, th.op.row, th.pc.p);
    assert s' == DoLoadField(c, s, t, th.pc.p, th.pc.snap);
    if HasWord(c, s', t) {
      SameSlot(c, s, s', th.op.row, th.pc.p);
      var e := s'.threads[t].pc.snap.src[3];
      if |th.pc.snap.src| > 3 {
        if Seen(states, b, k, th.op.row, e) { SeenLater(states, b, k, th.op.row, e); }
      } else {
        WordSource(c, s, t, i);
        assert e == s.slots[i].src[3];
        if PublishedAt(s', th.op.row, e) { SeenNow(states, b, k + 1, th.op.row, e); }
      }
    }
  }

  lemma SameSlot(c: Config, s: State, s': State, r: Row, p: nat)
    requires |s.slots| == |s'.slots| && p < |s.slots|
    ensures SlotAt(c, s, r, p) == SlotAt(c, s', r, p)
  {
  }

  /** Any word of the row's bucket comes from the published extent or from the one about to be. */
  lemma WordSource(c: Config, s: State, t: nat, i: nat)
    requires Inv(c, s) && SourcesOk(s) && i < |s.slots| && t < |s.threads| && s.threads[t].pc.LoadField?
    requires s.threads[t].pc.p < |s.slots|
    requires i == SlotAt(c, s, s.threads[t].op.row, s.threads[t].pc.p) && s.owner[i] == Some(s.threads[t].op.row)
    ensures |s.slots[i].src| == FIELDS
    ensures PublishedAt(s, s.threads[t].op.row, s.slots[i].src[3]) || Coming(s, i, s.slots[i].src[3])
  {
    hide ExtentsOk, Ordered, BlocksOk, FilesOk, TableOk, CountsOk, IndexOk;
    assert ThreadOk(c, s, t);
    assert SlotOk(c, s, i) && SourceOk(s, i);
  }

  /** The read's own step from any other place of its probe. */
  lemma OwnStepSeen(c: Config, states: seq<State>, b: nat, k: nat, t: nat)
    requires k + 1 < |states| && b < k && Inv(c, states[k]) && Inv(c, states[k + 1]) && Step(c, states[k], states[k + 1], t)
    requires t < |states[k].threads| && !states[k].threads[t].pc.LoadField? && WordSeen(c, states, b, k, t)
    ensures t < |states[k + 1].threads| && WordSeen(c, states, b, k + 1, t)
  {
    hide Inv, Seen, SlotAt;
    var s, s' := states[k], states[k + 1];
    InvSizes(c, s);
    InvSizes(c, s');
    var th := s.threads[t];
    if th.pc.Probing? {
      ProbingLoadsNothing(c, s, s', t);
    } else {
      SnapKept(c, s, s', t);
      if HasWord(c, s', t) {
        SnapStepIsQuiet(c, s, s', t);
        SameSlot(c, s, s', th.op.row, th.pc.p);
        if Seen(states, b, k, th.op.row, th.pc.snap.src[3]) {
          SeenLater(states, b, k, th.op.row, th.pc.snap.src[3]);
        } else if th.pc.Recheck? {
          RecheckWantsFilled(c, s, s', t);
        }
      }
    }
  }

  lemma ProbingLoadsNothing(c: Config, s: State, s': State, t: nat)
    requires c.Valid() && Shape(c, s) && Step(c, s, s', t) && s.threads[t].pc.Probing?
    ensures |s'.threads| == |s.threads| && (HasSnap(s'.threads[t].pc) ==> |s'.threads[t].pc.snap.src| == 0)
  {
  }

  lemma RecheckWantsFilled(c: Config, s: State, s': State, t: nat)
    requires c.Valid() && Shape(c, s) && Step(c, s, s', t) && s.threads[t].pc.Recheck? && |s'.threads| == |s.threads|
    requires HasSnap(s'.threads[t].pc)
    ensures s.threads[t].pc.p < |s.slots| && s.slots[SlotAt(c, s, s.threads[t].op.row, s.threads[t].pc.p)].state == Filled
  {
  }

  /** Thread `t`'s read begins with step `b` and is still running at state `i`. */
  ghost predicate Reading(states: seq<State>, b: nat, i: nat, t: nat) {
    b < i < |states| && t < |states[b].threads| && states[b].threads[t].pc.Idle?
    && forall k :: b < k <= i ==> t < |states[k].threads| && !states[k].threads[t].pc.Idle? && states[k].threads[t].op.GetRow?
  }

  lemma SourcesThroughout(c: Config, states: seq<State>, who: seq<nat>, i: nat)
    requires Run(c, states, who) && i < |states| && Inv(c, states[0]) && SourcesOk(states[0])
    ensures Inv(c, states[i]) && SourcesOk(states[i])
  {
    hide Inv, Step, SourcesOk;
    RunKeepsInvariant(c, states, who, i);
    if i > 0 {
      SourcesThroughout(c, states, who, i - 1);
      StepKeepsSources(c, states[i - 1], states[i], who[i - 1]);
    }
  }

  lemma {:induction false} SeenThroughout(c: Config, states: seq<State>, who: seq<nat>, b: nat, i: nat, t: nat)
    requires Run(c, states, who) && Inv(c, states[0]) && SourcesOk(states[0]) && Reading(states, b, i, t)
    ensures Inv(c, states[i]) && WordSeen(c, states, b, i, t)
    decreases i
  {
    hide Inv, Step, SourcesOk, WordSeen, Reading;
    ReadingFacts(states, b, i, t);
    RunKeepsInvariant(c, states, who, i);
    InvSizes(c, states[i]);
    if i == b + 1 {
      StartsUnseen(c, states, who, b, t);
    } else {
      SeenThroughout(c, states, who, b, i - 1, t);
      SourcesThroughout(c, states, who, i - 1);
      InvSizes(c, states[i - 1]);
      if who[i - 1] != t { OtherStepSeen(c, states, b, i - 1, t, who[i - 1]); }
      else if states[i - 1].threads[t].pc.LoadField? { WordLoaded(c, states, b, i - 1, t); }
      else { OwnStepSeen(c, states, b, i - 1, t); }
    }
  }

  lemma ReadingFacts(states: seq<State>, b: nat, i: nat, t: nat)
    requires Reading(states, b, i, t)
    ensures b < i < |states| && t < |states[i].threads| && t < |states[i - 1].threads|
    ensures b + 1 < i ==> Reading(states, b, i - 1, t)
  {
  }

  /** Right after its begin a read has loaded nothing. */
  lemma StartsUnseen(c: Config, states: seq<State>, who: seq<nat>, b: nat, t: nat)
    requires Run(c, states, who) && Inv(c, states[0]) && Reading(states, b, b + 1, t)
    requires Shape(c, states[b + 1])
    ensures WordSeen(c, states, b, b + 1, t)
  {
    hide Inv;
    var s, s' := states[b], states[b + 1];
    RunKeepsInvariant(c, states, who, b);
    InvSizes(c, s);
    StepExtends(c, s, s', who[b]);
    if who[b] == t { BeginsUnloaded(c, s, s', t); }
  }

  lemma BeginsUnloaded(c: Config, s: State, s': State, t: nat)
    requires c.Valid() && Shape(c, s) && Step(c, s, s', t) && s.threads[t].pc.Idle?
    ensures |s'.threads| == |s.threads| && !HasSnap(s'.threads[t].pc)
  {
  }

  /**
   Linearizability of every run, with no assumption on how often a row is written
   or which calls overlap: a read that ends without an error answers as the map
   of published rows stood at a moment `m` between its begin and its end.
   */
  lemma ReadsLinearise(c: Config, states: seq<State>, who: seq<nat>, b: nat, i: nat, t: nat, out: Outcome) returns (m: nat)
    requires Run(c, states, who) && Inv(c, states[0]) && SourcesOk(states[0]) && Reading(states, b, i, t)
    requires i < |who| && who[i] == t && Returns(states[i], states[i + 1], t, out)
    requires out != TableFull && out != CorruptBlock
    ensures b < m <= i && IndexInRange(states[m])
    ensures out == RowAnswer(Abs(states[m]), states[i].threads[t].op.row, states[i].threads[t].op.key)
  {
    hide Step, Inv, SlotAt, SourcesOk;
    var s, s' := states[i], states[i + 1];
    SeenThroughout(c, states, who, b, i, t);
    AbsDefined(c, s);
    InvSizes(c, s);
    if s.threads[t].pc.ReadValue? {
      ValueWordSeen(c, states, b, i, t);
      var r, e := s.threads[t].op.row, s.threads[t].pc.snap.src[3];
      m :| b < m <= i && m < |states| && PublishedAt(states[m], r, e);
      RunKeepsInvariant(c, states, who, m);
      AbsDefined(c, states[m]);
      RunGrows(c, states, who, m, i);
      assert SameExtent(states[m].extents[e], s.extents[e]);
      ValueReturned(c, s, s', t, out);
      AnswerOfRow(states[m], r, s.threads[t].op.key);
    } else {
      m := i;
      CurrentAnswers(c, s, s', t, out);
    }
  }

  lemma ValueWordSeen(c: Config, states: seq<State>, b: nat, i: nat, t: nat)
    requires i < |states| && Inv(c, states[i]) && t < |states[i].threads| && states[i].threads[t].pc.ReadValue? && WordSeen(c, states, b, i, t)
    ensures |states[i].threads[t].pc.snap.src| == FIELDS
    ensures Seen(states, b, i, states[i].threads[t].op.row, states[i].threads[t].pc.snap.src[3])
  {
    hide Seen, ExtentsOk, Ordered, BlocksOk, FilesOk, TableOk, CountsOk, IndexOk, SlotsOk;
    assert ThreadOk(c, states[i], t);
  }

  lemma ValueReturned(c: Config, s: State, s': State, t: nat, out: Outcome)
    requires Inv(c, s) && Step(c, s, s', t) && Returns(s, s', t, out) && s.threads[t].pc.ReadValue?
    ensures |s.threads[t].pc.snap.src| == FIELDS && s.threads[t].pc.snap.src[3] < |s.extents|
    ensures var r := s.threads[t].op.row;
      out == RowAnswer(map[r := LastMap(s.extents[s.threads[t].pc.snap.src[3]].entries)], r, s.threads[t].op.key)
  {
    ReadValueAnswers(c, s, t, s.threads[t].pc.p, s.threads[t].pc.snap, s.threads[t].pc.hd);
  }
}
