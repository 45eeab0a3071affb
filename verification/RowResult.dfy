/**
 What the answer of a write says.  A write answers Stored if and only if it has
 published its row, once and with its entries; with any other answer it has
 published nothing, and an extent it claimed is abandoned.
 */
module RowResult {
  import opened FileIO
  import opened RowBlock
  import opened RowProtocol
  import opened RowProtocolInv
  import opened RowProtocolResults
  import opened RowOrder
  import opened RowAtomic

  // ---- The phases of a write -----------------------------------------------------------

  predicate BeforeClaim(pc: PC) { pc.LoadItems? || pc.LoadPending? || pc.TryReserve? || pc.TakeSequence? || pc.ClaimExtent? }

  predicate BeforePublish(pc: PC) { pc.WriteBlock? || IsLooking(pc) || IsStoring(pc) }

  /** The write is over but for giving its reservation back, or returned, with this result. */
  predicate EndsWith(pc: PC, out: Outcome) { pc == Release(out) || pc == Idle(out) }

  predicate IsRefusal(out: Outcome) { out in {NoCapacity, TooLarge, WriteFailed, TableFull, CorruptBlock} }

  /** What one step of a write does to its place in the call and to the extents. */
  ghost predicate Advances(s: State, s': State, t: nat)
    requires t < |s.threads|
  {
    && |s'.threads| == |s.threads| && s'.threads[t].op == s.threads[t].op
    && var pc, pc', e := s.threads[t].pc, s'.threads[t].pc, s.threads[t].ext;
    || (BeforeClaim(pc) && s'.extents == s.extents
        && (BeforeClaim(pc') || (pc.TryReserve? && EndsWith(pc', NoCapacity)) || (pc.ClaimExtent? && EndsWith(pc', TooLarge))))
    || (pc.ClaimExtent? && pc'.WriteBlock? && ClaimsExtent(s, s', t))
    || (BeforePublish(pc) && !pc.Publish? && BeforePublish(pc') && s'.threads[t].ext == e && FatesOnly(s, s', t))
    || (s'.extents == SetFate(s, e, Abandoned).extents
        && ((pc.WriteBlock? && EndsWith(pc', WriteFailed)) || (IsLooking(pc) && (EndsWith(pc', TableFull) || EndsWith(pc', CorruptBlock)))))
    || (pc.Publish? && (pc'.CountItem? || EndsWith(pc', Stored)) && s'.threads[t].ext == e && s'.extents == SetFate(s, e, Published).extents)
    || (pc.CountItem? && EndsWith(pc', Stored) && s'.threads[t].ext == e && s'.extents == s.extents)
    || (pc.Release? && pc' == Idle(pc.result) && s'.threads[t].ext == e && s'.extents == s.extents)
  }

  /** The step appends one extent, of this thread and call. */
  ghost predicate ClaimsExtent(s: State, s': State, t: nat)
    requires t < |s.threads| == |s'.threads|
  {
    && |s'.extents| == |s.extents| + 1 && s'.extents[..|s.extents|] == s.extents && s'.threads[t].ext == |s.extents|
    && s'.extents[|s.extents|].thread == t
  }

  lemma CountingAdvances(c: Config, s: State, s': State, t: nat)
    requires c.Valid() && Shape(c, s) && Step(c, s, s', t) && ThreadOk(c, s, t) && IsCounting(s.threads[t].pc) && !s.threads[t].pc.Idle?
    requires !s.threads[t].op.GetRow?
    ensures Advances(s, s', t)
  {
    hide Config.OverLoad;
  }

  lemma ClaimAdvances(c: Config, s: State, s': State, t: nat)
    requires c.Valid() && Shape(c, s) && Step(c, s, s', t) && s.threads[t].pc.ClaimExtent? && !s.threads[t].op.GetRow?
    ensures Advances(s, s', t)
  {
    hide Writable, BlockBytes;
  }

  lemma BlockAdvances(c: Config, s: State, s': State, t: nat)
    requires c.Valid() && Shape(c, s) && Step(c, s, s', t) && ThreadOk(c, s, t) && s.threads[t].pc.WriteBlock?
    ensures Advances(s, s', t)
  {
    hide PWrite;
    WriteMoves(s, s', t, s.threads[t].pc.done);
  }

  lemma LooksOn(c: Config, s: State, s': State, t: nat)
    requires c.Valid() && Shape(c, s) && Step(c, s, s', t) && !s.threads[t].op.GetRow?
    requires s.threads[t].pc.Probing? || s.threads[t].pc.LoadField?
    ensures Advances(s, s', t)
  {
    hide SlotAt;
  }

  /** A comparison of a write goes on, or fails. */
  lemma RecheckAdvances(c: Config, s: State, s': State, t: nat)
    requires c.Valid() && Shape(c, s) && Step(c, s, s', t) && !s.threads[t].op.GetRow? && s.threads[t].pc.Recheck?
    ensures Advances(s, s', t)
  {
    hide SlotAt;
  }

  lemma HeaderAdvances(c: Config, s: State, s': State, t: nat)
    requires c.Valid() && Shape(c, s) && Step(c, s, s', t) && !s.threads[t].op.GetRow? && s.threads[t].pc.ReadHeader?
    ensures Advances(s, s', t)
  {
    hide SlotAt, ParseBlockHeader, IsValidRowBlockHeader, ShardRead;
  }

  lemma ColumnAdvances(c: Config, s: State, s': State, t: nat)
    requires c.Valid() && Shape(c, s) && Step(c, s, s', t) && !s.threads[t].op.GetRow? && s.threads[t].pc.ReadColumn?
    ensures Advances(s, s', t)
  {
    hide SlotAt, ShardRead;
  }

  lemma BucketAdvances(c: Config, s: State, s': State, t: nat)
    requires c.Valid() && Shape(c, s) && ThreadsOk(c, s) && Step(c, s, s', t)
    requires s.threads[t].pc.CasEmpty? || s.threads[t].pc.CasFilled? || s.threads[t].pc.StoreField?
    ensures Advances(s, s', t)
  {
    hide SlotAt, FieldOf;
    BucketMoves(c, s, s', t);
  }

  lemma PublishAdvances(c: Config, s: State, s': State, t: nat)
    requires c.Valid() && Shape(c, s) && Step(c, s, s', t) && s.threads[t].pc.Publish?
    ensures Advances(s, s', t)
  {
    hide SlotAt;
  }

  lemma WriteAdvances(c: Config, s: State, s': State, t: nat)
    requires Inv(c, s) && Step(c, s, s', t) && t < |s.threads| && !s.threads[t].pc.Idle? && !s.threads[t].op.GetRow?
    ensures Advances(s, s', t)
  {
    hide Step, Advances, ExtentsOk, Ordered, BlocksOk, FilesOk, SlotsOk, IndexOk, TableOk, CountsOk;
    assert ThreadOk(c, s, t);
    var pc := s.threads[t].pc;
    if IsCounting(pc) { CountingAdvances(c, s, s', t); }
    else if pc.ClaimExtent? { ClaimAdvances(c, s, s', t); }
    else if pc.WriteBlock? { BlockAdvances(c, s, s', t); }
    else if pc.Probing? || pc.LoadField? { LooksOn(c, s, s', t); }
    else if pc.Recheck? { RecheckAdvances(c, s, s', t); }
    else if pc.ReadHeader? { HeaderAdvances(c, s, s', t); }
    else if pc.ReadColumn? { ColumnAdvances(c, s, s', t); }
    else if pc.Publish? { PublishAdvances(c, s, s', t); }
    else { BucketAdvances(c, s, s', t); }
  }

  // ---- A call so far --------------------------------------------------------------------

  /** Extent `e` was claimed by thread `t` since there were `n` extents. */
  predicate IsMine(s: State, t: nat, n: nat, e: int) { n <= e < |s.extents| && s.extents[e].thread == t }

  /** No extent of the call is published, or will be. */
  ghost predicate NoneLeft(s: State, t: nat, n: nat) {
    forall e :: IsMine(s, t, n, e) ==> s.extents[e].fate.Abandoned?
  }

  /** The thread's extent is the only one of the call. */
  ghost predicate OnlyMine(s: State, t: nat, n: nat)
    requires t < |s.threads|
  {
    IsMine(s, t, n, s.threads[t].ext) && forall e :: IsMine(s, t, n, e) ==> e == s.threads[t].ext
  }

  /** The call's extent is published, with its row and entries, and there is no other. */
  ghost predicate IsDone(s: State, t: nat, n: nat)
    requires t < |s.threads| && !s.threads[t].op.GetRow?
  {
    OnlyMine(s, t, n) && var th := s.threads[t];
    var x := s.extents[th.ext]; x.fate.Published? && x.row == th.op.row && x.entries == th.op.entries
  }

  /** What is true of a write that began when there were `n` extents and has made `k` Filled stores. */
  ghost predicate CallOk(s: State, t: nat, n: nat, k: nat)
    requires t < |s.threads| && !s.threads[t].op.GetRow?
  {
    var pc := s.threads[t].pc;
    && (BeforeClaim(pc) ==> k == 0 && NoneLeft(s, t, n) && forall e :: !IsMine(s, t, n, e))
    && (BeforePublish(pc) ==> k == 0 && OnlyMine(s, t, n))
    && (pc.CountItem? || EndsWith(pc, Stored) ==> k == 1 && IsDone(s, t, n))
    && (forall out :: EndsWith(pc, out) && out != Stored ==> k == 0 && NoneLeft(s, t, n) && IsRefusal(out))
  }

  /** Only a Filled store counts. */
  function Publishing(s: State, t: nat): nat { if t < |s.threads| && s.threads[t].pc.Publish? then 1 else 0 }

  lemma ClaimIsMine(s: State, s': State, t: nat, n: nat)
    requires t < |s.threads| == |s'.threads| && n <= |s.extents| && ClaimsExtent(s, s', t) && forall e :: !IsMine(s, t, n, e)
    ensures OnlyMine(s', t, n)
  {
    forall e | n <= e < |s.extents| ensures s.extents[e].thread != t { assert !IsMine(s, t, n, e); }
    forall e | 0 <= e < |s.extents| ensures s'.extents[e] == s.extents[e] { assert s'.extents[..|s.extents|][e] == s.extents[e]; }
  }

  lemma FatesKeepMine(s: State, s': State, t: nat, n: nat)
    requires t < |s.threads| == |s'.threads| && FatesOnly(s, s', t) && s'.threads[t].ext == s.threads[t].ext && OnlyMine(s, t, n)
    ensures OnlyMine(s', t, n)
  {
    hide InProgress;
    forall e | IsMine(s', t, n, e) ensures e == s'.threads[t].ext {
      assert FateMoves(s, s', t, e);
      assert IsMine(s, t, n, e);
    }
    assert FateMoves(s, s', t, s.threads[t].ext);
  }

  lemma AbandonLeavesNone(s: State, s': State, t: nat, n: nat)
    requires t < |s.threads| && OnlyMine(s, t, n) && s'.extents == SetFate(s, s.threads[t].ext, Abandoned).extents
    ensures NoneLeft(s', t, n)
  {
    forall e | IsMine(s', t, n, e) ensures s'.extents[e].fate.Abandoned? { assert IsMine(s, t, n, e); }
  }

  lemma PublishIsDone(s: State, s': State, t: nat, n: nat)
    requires t < |s.threads| == |s'.threads| && OnlyMine(s, t, n) && Owner(s, t, Storing)
    requires s'.extents == SetFate(s, s.threads[t].ext, Published).extents
    requires s'.threads[t].ext == s.threads[t].ext && s'.threads[t].op == s.threads[t].op
    ensures IsDone(s', t, n)
  {
    forall e | IsMine(s', t, n, e) ensures e == s'.threads[t].ext { assert IsMine(s, t, n, e); }
  }

  lemma SameExtentsSame(s: State, s': State, t: nat, n: nat)
    requires t < |s.threads| && t < |s'.threads| && s'.extents == s.extents && !s.threads[t].op.GetRow? && s'.threads[t].op == s.threads[t].op
    ensures NoneLeft(s, t, n) ==> NoneLeft(s', t, n)
    ensures (forall e :: !IsMine(s, t, n, e)) ==> forall e :: !IsMine(s', t, n, e)
    ensures IsDone(s, t, n) && s'.threads[t].ext == s.threads[t].ext ==> IsDone(s', t, n)
  {
    forall e ensures IsMine(s, t, n, e) <==> IsMine(s', t, n, e) {}
  }

  /** The thread's own step. */
  lemma OwnStepKeepsCall(c: Config, s: State, s': State, t: nat, n: nat, k: nat)
    requires Inv(c, s) && Step(c, s, s', t) && t < |s.threads| && !s.threads[t].pc.Idle? && !s.threads[t].op.GetRow? && n <= |s.extents|
    requires CallOk(s, t, n, k)
    ensures t < |s'.threads| && s'.threads[t].op == s.threads[t].op && CallOk(s', t, n, k + Publishing(s, t))
  {
    hide Inv, Step, NoneLeft, OnlyMine, IsDone, IsMine, ClaimsExtent, FatesOnly, SetFate;
    WriteAdvances(c, s, s', t);
    var pc, pc' := s.threads[t].pc, s'.threads[t].pc;
    if BeforeClaim(pc) {
      if pc'.WriteBlock? { ClaimIsMine(s, s', t, n); } else { SameExtentsSame(s, s', t, n); }
    } else if pc.Publish? {
      StoringOwns(c, s, t);
      PublishIsDone(s, s', t, n);
    } else if BeforePublish(pc) {
      if BeforePublish(pc') { FatesKeepMine(s, s', t, n); } else { AbandonLeavesNone(s, s', t, n); }
    } else {
      if pc.Release? { assert EndsWith(pc, pc.result); }
      SameExtentsSame(s, s', t, n);
    }
  }

  lemma StoringOwns(c: Config, s: State, t: nat)
    requires Inv(c, s) && t < |s.threads| && s.threads[t].pc.Publish?
    ensures Owner(s, t, Storing)
  {
    assert ThreadOk(c, s, t);
  }

  /** A step of another thread leaves the call's extents alone. */
  lemma OtherStepKeepsCall(c: Config, s: State, s': State, t: nat, u: nat, n: nat, k: nat)
    requires Inv(c, s) && Step(c, s, s', u) && u != t && t < |s.threads| && !s.threads[t].op.GetRow? && n <= |s.extents| && CallOk(s, t, n, k)
    ensures t < |s'.threads| && s'.threads[t] == s.threads[t] && CallOk(s', t, n, k)
  {
    hide Inv, Step, NewExtent;
    InvSizes(c, s);
    InvThreads(c, s);
    StepHasThread(c, s, s', u);
    StepExtends(c, s, s', u);
    LogSteps(c, s, s', u);
    forall e ensures IsMine(s', t, n, e) <==> IsMine(s, t, n, e) {
      if 0 <= e < |s.extents| { assert ExtentExtends(s.extents[e], s'.extents[e], u); }
      if e == |s.extents| && |s'.extents| > |s.extents| { NewExtentThread(c, s, u); }
    }
    forall e | IsMine(s, t, n, e) ensures SameExtent(s.extents[e], s'.extents[e]) && s'.extents[e].fate == s.extents[e].fate {
      assert ExtentExtends(s.extents[e], s'.extents[e], u);
    }
  }

  lemma InvThreads(c: Config, s: State)
    requires Inv(c, s)
    ensures c.Valid() && Shape(c, s) && ThreadsOk(c, s)
  {
  }

  lemma NewExtentThread(c: Config, s: State, u: nat)
    requires c.Valid() && Shape(c, s) && u < |s.threads| && s.threads[u].pc.ClaimExtent? && !s.threads[u].op.GetRow?
    ensures NewExtent(c, s, u, s.threads[u].pc.sequence).thread == u
  {
    hide BlockBytes;
  }

  // ---- Calls over runs ----------------------------------------------------------------------------

  /** Thread `t` begins a write with step `i` and is in it until step `j`. */
  ghost predicate WriteRuns(states: seq<State>, who: seq<nat>, i: nat, j: nat, t: nat) {
    && i < j < |who| < |states| && who[i] == t && t < |states[i].threads| && states[i].threads[t].pc.Idle?
    && forall k :: i < k <= j ==> t < |states[k].threads| && !states[k].threads[t].pc.Idle? && !states[k].threads[t].op.GetRow?
  }

  /** The Filled stores that thread `t` makes after step `i`, up to state `k`. */
  function FilledStores(states: seq<State>, who: seq<nat>, i: nat, k: nat, t: nat): nat
    requires k <= |who| < |states|
  {
    if k <= i + 1 then 0
    else FilledStores(states, who, i, k - 1, t) + if who[k - 1] == t then Publishing(states[k - 1], t) else 0
  }

  lemma BeginIsOk(c: Config, s: State, s': State, t: nat)
    requires c.Valid() && Shape(c, s) && Step(c, s, s', t) && s.threads[t].pc.Idle? && t < |s'.threads| && !s'.threads[t].op.GetRow?
    ensures s'.extents == s.extents && CallOk(s', t, |s.extents|, 0)
  {
  }

  lemma {:induction false} CallIsOk(c: Config, states: seq<State>, who: seq<nat>, i: nat, j: nat, t: nat, k: nat)
    requires Run(c, states, who) && Inv(c, states[0]) && WriteRuns(states, who, i, j, t) && i < k <= j + 1
    ensures Inv(c, states[k]) && t < |states[k].threads| && !states[k].threads[t].op.GetRow? && |states[i].extents| <= |states[k].extents|
    ensures states[k].threads[t].op == states[i + 1].threads[t].op
    ensures CallOk(states[k], t, |states[i].extents|, FilledStores(states, who, i, k, t))
    decreases k
  {
    hide Inv, Step, CallOk;
    RunKeepsInvariant(c, states, who, k);
    RunGrows(c, states, who, i, k);
    if k == i + 1 {
      BeginIsOk(c, states[i], states[i + 1], t);
    } else {
      CallIsOk(c, states, who, i, j, t, k - 1);
      if who[k - 1] == t {
        OwnStepKeepsCall(c, states[k - 1], states[k], t, |states[i].extents|, FilledStores(states, who, i, k - 1, t));
      } else {
        OtherStepKeepsCall(c, states[k - 1], states[k], t, who[k - 1], |states[i].extents|, FilledStores(states, who, i, k - 1, t));
      }
    }
  }

  lemma {:induction false} NoStoresNone(states: seq<State>, who: seq<nat>, i: nat, k: nat, t: nat, m: nat)
    requires k <= |who| < |states| && FilledStores(states, who, i, k, t) == 0 && i < m < k && who[m] == t
    ensures Publishing(states[m], t) == 0
    decreases k
  {
    if m < k - 1 { NoStoresNone(states, who, i, k - 1, t, m); }
  }

  lemma {:induction false} OneStoreOnce(states: seq<State>, who: seq<nat>, i: nat, k: nat, t: nat) returns (m: nat)
    requires k <= |who| < |states| && FilledStores(states, who, i, k, t) == 1
    ensures i < m < k && who[m] == t && Publishing(states[m], t) == 1
    ensures forall l :: i < l < k && l != m && who[l] == t ==> Publishing(states[l], t) == 0
    decreases k
  {
    if who[k - 1] == t && Publishing(states[k - 1], t) == 1 {
      m := k - 1;
      forall l | i < l < k && l != m && who[l] == t ensures Publishing(states[l], t) == 0 { NoStoresNone(states, who, i, k - 1, t, l); }
    } else {
      m := OneStoreOnce(states, who, i, k - 1, t);
    }
  }

  /** The extents that thread `t` claimed in the call that began with step `i`. */
  ghost function ExtentsOf(states: seq<State>, i: nat, j: nat, t: nat): set<int>
    requires i <= j < |states|
  {
    set e | |states[i].extents| <= e < |states[j].extents| && states[j].extents[e].thread == t
  }

  ghost predicate AllAbandoned(s: State, es: set<int>) {
    forall e :: 0 <= e < |s.extents| && e in es ==> s.extents[e].fate.Abandoned?
  }

  ghost predicate IsPublishedFor(s: State, e: int, op: Op)
    requires !op.GetRow?
  {
    0 <= e < |s.extents| && s.extents[e].fate.Published? && s.extents[e].row == op.row && s.extents[e].entries == op.entries
  }

  lemma DoneExtent(states: seq<State>, i: nat, j: nat, t: nat)
    requires i < j < |states| && t < |states[j].threads| && !states[j].threads[t].op.GetRow? && IsDone(states[j], t, |states[i].extents|)
    ensures exists e :: ExtentsOf(states, i, j, t) == {e} && IsPublishedFor(states[j], e, states[j].threads[t].op)
  {
    var s, n := states[j], |states[i].extents|;
    var e := s.threads[t].ext;
    forall d ensures d in ExtentsOf(states, i, j, t) <==> d == e { assert IsMine(s, t, n, d) <==> d in ExtentsOf(states, i, j, t); }
    assert ExtentsOf(states, i, j, t) == {e} && IsPublishedFor(s, e, s.threads[t].op);
  }

  lemma NoneLeftAbandoned(states: seq<State>, i: nat, j: nat, t: nat)
    requires i < j < |states| && NoneLeft(states[j], t, |states[i].extents|)
    ensures AllAbandoned(states[j], ExtentsOf(states, i, j, t))
  {
    forall e | 0 <= e < |states[j].extents| && e in ExtentsOf(states, i, j, t) ensures states[j].extents[e].fate.Abandoned? {
      assert IsMine(states[j], t, |states[i].extents|, e);
    }
  }

  lemma EndFacts(s: State, t: nat, n: nat, k: nat, out: Outcome)
    requires t < |s.threads| && !s.threads[t].op.GetRow? && CallOk(s, t, n, k) && s.threads[t].pc == Idle(out)
    ensures if out == Stored then k == 1 && IsDone(s, t, n) else k == 0 && NoneLeft(s, t, n) && IsRefusal(out)
  {
    assert EndsWith(s.threads[t].pc, out);
  }

  /** Thread `t`'s step `l` of the call stores Filled. */
  ghost predicate StoresFilled(states: seq<State>, who: seq<nat>, i: nat, j: nat, t: nat, l: nat) {
    i < l <= j && l < |who| && l < |states| && who[l] == t && t < |states[l].threads| && states[l].threads[t].pc.Publish?
  }

  /** The step sets the row to the entries in the map of rows. */
  ghost predicate SetsRow(s: State, s': State, op: Op)
    requires !op.GetRow?
  {
    IndexInRange(s) && IndexInRange(s') && Abs(s') == Abs(s)[op.row := LastMap(op.entries)]
  }

  ghost predicate LeavesRows(s: State, s': State) { IndexInRange(s) && IndexInRange(s') && Abs(s') == Abs(s) }

  lemma StoredIsTrue(c: Config, states: seq<State>, who: seq<nat>, i: nat, j: nat, t: nat) returns (m: nat)
    requires Run(c, states, who) && Inv(c, states[0]) && WriteRuns(states, who, i, j, t)
    requires FilledStores(states, who, i, j + 1, t) == 1
    ensures StoresFilled(states, who, i, j, t, m) && !states[i + 1].threads[t].op.GetRow? && SetsRow(states[m], states[m + 1], states[i + 1].threads[t].op)
    ensures forall l :: StoresFilled(states, who, i, j, t, l) ==> l == m
  {
    hide Inv, Step, Abs, LastMap, IndexInRange, FilledStores, CallOk;
    m := OneStoreOnce(states, who, i, j + 1, t);
    RunKeepsInvariant(c, states, who, m);
    CallIsOk(c, states, who, i, j, t, m);
    StepsRefineMap(c, states[m], states[m + 1], t);
  }

  lemma RefusedIsTrue(c: Config, states: seq<State>, who: seq<nat>, i: nat, j: nat, t: nat, l: nat)
    requires Run(c, states, who) && Inv(c, states[0]) && WriteRuns(states, who, i, j, t)
    requires FilledStores(states, who, i, j + 1, t) == 0 && i < l <= j && who[l] == t
    ensures !StoresFilled(states, who, i, j, t, l) && LeavesRows(states[l], states[l + 1])
  {
    hide Inv, Step, Abs, IndexInRange, FilledStores;
    NoStoresNone(states, who, i, j + 1, t, l);
    RunKeepsInvariant(c, states, who, l);
    StepsRefineMap(c, states[l], states[l + 1], t);
  }

  /**
   The answer of a write is true.  It is Stored if and only if the thread made a
   Filled store in the call; then it made exactly one, which set its row to its
   entries and no other row, and the call's one extent is published with them.
   With every other answer no step of the call changed the map of rows, and every
   extent that it claimed is abandoned.
   */
  lemma WriteAnswersTruly(c: Config, states: seq<State>, who: seq<nat>, i: nat, j: nat, t: nat, out: Outcome) returns (m: nat)
    requires Run(c, states, who) && Inv(c, states[0]) && WriteRuns(states, who, i, j, t) && who[j] == t
    requires t < |states[j + 1].threads| && states[j + 1].threads[t].pc == Idle(out)
    ensures out == Stored || IsRefusal(out)
    ensures out == Stored <==> exists l :: StoresFilled(states, who, i, j, t, l)
    ensures !states[i + 1].threads[t].op.GetRow?
    ensures var op := states[i + 1].threads[t].op;
      if out == Stored then
        && StoresFilled(states, who, i, j, t, m) && SetsRow(states[m], states[m + 1], op)
        && (forall l :: StoresFilled(states, who, i, j, t, l) ==> l == m)
        && exists e :: ExtentsOf(states, i, j + 1, t) == {e} && IsPublishedFor(states[j + 1], e, op)
      else
        && (forall l :: i < l <= j && who[l] == t ==> LeavesRows(states[l], states[l + 1]))
        && AllAbandoned(states[j + 1], ExtentsOf(states, i, j + 1, t))
  {
    hide Inv, Step, SetsRow, LeavesRows, FilledStores, CallOk, IsDone, NoneLeft, StoresFilled, ExtentsOf, IsPublishedFor, IsRefusal;
    CallIsOk(c, states, who, i, j, t, j + 1);
    EndFacts(states[j + 1], t, |states[i].extents|, FilledStores(states, who, i, j + 1, t), out);
    if out == Stored {
      m := StoredIsTrue(c, states, who, i, j, t);
      DoneExtent(states, i, j + 1, t);
    } else {
      m := i;
      forall l | i < l <= j && who[l] == t
        ensures !StoresFilled(states, who, i, j, t, l) && LeavesRows(states[l], states[l + 1])
      {
        RefusedIsTrue(c, states, who, i, j, t, l);
      }
      OnlyInCall(states, who, i, j, t);
      NoneLeftAbandoned(states, i, j + 1, t);
    }
  }

  lemma OnlyInCall(states: seq<State>, who: seq<nat>, i: nat, j: nat, t: nat)
    requires j < |who|
    ensures forall l: nat :: StoresFilled(states, who, i, j, t, l) ==> i < l <= j && who[l] == t
  {
  }
}
