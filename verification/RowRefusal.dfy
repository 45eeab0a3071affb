/**
 When a write is refused.  A reserving write is refused for capacity exactly when
 the item count and the pending count that it has loaded do not leave room for one
 more within the limit.  Because a write is counted before it gives its
 reservation back, a write in between counts twice: the first writes of a new
 database are sure to be admitted if and only if the limit leaves room for every
 thread to be counted twice.
 */
module RowRefusal {
  import opened Words
  import opened Bytes
  import opened Probing
  import opened FileIO
  import opened RowBlock
  import opened RowBlockRead
  import opened RowProtocol
  import opened RowProtocolInv
  import opened RowProtocolResults
  import opened RowLinear
  import opened RowAdmission
  import opened RowOrder
  import opened RowAtomic
  import opened RowResult
  import opened RowReach
  import opened RowLimit

  // ---- The answers of single steps ----------------------------------------------------------

  /** The step of the compare-and-swap refuses exactly the loaded counts that are over the limit. */
  lemma ReserveAnswers(c: Config, s: State, s': State, t: nat)
    requires Inv(c, s) && Step(c, s, s', t) && t < |s.threads| && s.threads[t].pc.TryReserve?
    ensures |s.slots| > 0 && |s'.threads| == |s.threads|
    ensures s'.threads[t].pc == Idle(NoCapacity) <==> s.threads[t].pc.items + s.threads[t].pc.pend + 1 > Limit(c.f, |s.slots|)
    ensures s'.threads[t].pc == Idle(NoCapacity) || s'.threads[t].pc.TakeSequence? || s'.threads[t].pc.LoadItems?
  {
    hide Inv, Config.OverLoad, Limit;
    InvSizes(c, s);
    LoadIsLimit(c, s.threads[t].pc.items + s.threads[t].pc.pend + 1, |s.slots|);
  }

  /** Which step each answer of a write comes from. */
  lemma AnswersExplained(c: Config, s: State, s': State, t: nat, out: Outcome)
    requires Inv(c, s) && Step(c, s, s', t) && Reports(s, s', t, out) && !s.threads[t].op.GetRow?
    ensures out == NoCapacity <==> s.threads[t].pc.TryReserve?
    ensures out == NoCapacity ==> s.threads[t].op.PutRow?
    ensures out == TooLarge <==> s.threads[t].pc.ClaimExtent?
    ensures out == WriteFailed <==> s.threads[t].pc.WriteBlock?
    ensures out == Stored <==> s.threads[t].pc.Publish? || s.threads[t].pc.CountItem?
    ensures out == TableFull ==> !HasRoom(s.owner)
    ensures out == CorruptBlock ==> Torn(s, s.threads[t].pc)
  {
    hide Inv, Step, FatesOnly, SetFate, ClaimsExtent, ThreadOk, Torn, HasRoom;
    AThreadOk(c, s, t);
    ReservesForPut(c, s, t);
    WriteAdvances(c, s, s', t);
    ErrorsExplained(c, s, s', t, out);
  }

  /**
   Which step each answer of a read comes from.  A missing row is answered at an
   empty bucket only, so in a full table an absent row is a full table, not a
   missing row; a value or a missing key is answered from the row's block only.
   */
  lemma ReadAnswersExplained(c: Config, s: State, s': State, t: nat, out: Outcome)
    requires Inv(c, s) && Step(c, s, s', t) && Reports(s, s', t, out) && s.threads[t].op.GetRow?
    ensures out == RowMissing <==> s.threads[t].pc.Probing?
    ensures out == RowMissing ==> s.threads[t].pc.p < |s.slots|
    ensures out == RowMissing ==> s.slots[SlotAt(c, s, s.threads[t].op.row, s.threads[t].pc.p)].state == Empty && HasRoom(s.owner)
    ensures out == KeyMissing || out.Found? <==> s.threads[t].pc.ReadValue?
    ensures out in {TableFull, CorruptBlock} <==>
      s.threads[t].pc.Recheck? || s.threads[t].pc.ReadHeader? || s.threads[t].pc.ReadColumn?
    ensures out == TableFull ==> !HasRoom(s.owner)
    ensures out == CorruptBlock ==> Torn(s, s.threads[t].pc)
  {
    hide Inv, Step, Torn, HasRoom, SlotAt;
    InvSizes(c, s);
    ReaderReads(c, s, t);
    ErrorsExplained(c, s, s', t, out);
    var pc := s.threads[t].pc;
    if pc.Probing? || pc.LoadField? { ProbeAnswers(c, s, s', t, out); }
    else if pc.ReadValue? { ValueAnswers(c, s, s', t, out); }
    else { MatchAnswers(c, s, s', t, out); }
  }

  lemma ProbeAnswers(c: Config, s: State, s': State, t: nat, out: Outcome)
    requires Inv(c, s) && Step(c, s, s', t) && Reports(s, s', t, out) && s.threads[t].op.GetRow?
    requires s.threads[t].pc.Probing? || s.threads[t].pc.LoadField?
    ensures s.threads[t].pc.Probing? && out == RowMissing && s.threads[t].pc.p < |s.slots|
    ensures s.slots[SlotAt(c, s, s.threads[t].op.row, s.threads[t].pc.p)].state == Empty && HasRoom(s.owner)
  {
    hide ExtentsOk, Ordered, BlocksOk, FilesOk, IndexOk, TableOk, CountsOk, ThreadsOk, SlotAt;
    assert SlotOk(c, s, SlotAt(c, s, s.threads[t].op.row, s.threads[t].pc.p));
  }

  lemma ValueAnswers(c: Config, s: State, s': State, t: nat, out: Outcome)
    requires Inv(c, s) && Step(c, s, s', t) && Reports(s, s', t, out) && s.threads[t].pc.ReadValue?
    ensures out == KeyMissing || out.Found?
  {
    hide Inv;
    ReadValueAnswers(c, s, t, s.threads[t].pc.p, s.threads[t].pc.snap, s.threads[t].pc.hd);
  }

  lemma MatchAnswers(c: Config, s: State, s': State, t: nat, out: Outcome)
    requires Inv(c, s) && Step(c, s, s', t) && Reports(s, s', t, out)
    requires s.threads[t].pc.Recheck? || s.threads[t].pc.ReadHeader? || s.threads[t].pc.ReadColumn?
    ensures out in {TableFull, CorruptBlock}
  {
    hide ExtentsOk, Ordered, BlocksOk, FilesOk, SlotsOk, IndexOk, TableOk, CountsOk, LookOk, SnapOk, StoreOk;
    assert ThreadOk(c, s, t);
    match s.threads[t].pc
    case Recheck(p, snap) => RecheckReports(c, s, t, p, snap, out);
    case ReadHeader(p, snap) => ReadHeaderReports(c, s, t, p, snap, out);
    case ReadColumn(p, snap, hd) => ReadColumnReports(c, s, t, p, snap, hd, out);
    case _ =>
  }

  /** A block is refused for size exactly when it does not fit the format. */
  lemma ClaimAnswers(c: Config, s: State, s': State, t: nat)
    requires Inv(c, s) && Step(c, s, s', t) && t < |s.threads| && s.threads[t].pc.ClaimExtent?
    ensures var op := s.threads[t].op;
      && !op.GetRow? && |s'.threads| == |s.threads|
      && (EndsWith(s'.threads[t].pc, TooLarge) <==> !Writable(c.h, c.sizing, op.row, op.entries, s.threads[t].pc.sequence))
      && (EndsWith(s'.threads[t].pc, TooLarge) || s'.threads[t].pc.WriteBlock?)
  {
    hide Inv, Writable, BlockBytes, ThreadOk;
    AThreadOk(c, s, t);
  }

  lemma ReservesForPut(c: Config, s: State, t: nat)
    requires Inv(c, s) && t < |s.threads|
    ensures s.threads[t].pc.TryReserve? ==> s.threads[t].op.PutRow?
  {
    assert ThreadOk(c, s, t);
  }

  lemma AThreadOk(c: Config, s: State, t: nat)
    requires Inv(c, s) && t < |s.threads|
    ensures c.Valid() && Shape(c, s) && ThreadOk(c, s, t)
  {
  }

  // ---- The counts that a call loads -----------------------------------------------------------

  /** Between step `i` and state `k` the item count was loaded as `v`, and after that the pending count as `q`. */
  ghost predicate Loaded(states: seq<State>, i: nat, k: nat, v: nat, q: nat) {
    exists a, b :: i < a < b < k && b < |states| && states[a].itemCount == v && states[b].pending == q
  }

  ghost predicate LoadedItems(states: seq<State>, i: nat, k: nat, v: nat) {
    exists a :: i < a < k && a < |states| && states[a].itemCount == v
  }

  /** Both counts were loaded, and left room for one more; or left none. */
  ghost predicate FoundRoom(states: seq<State>, i: nat, k: nat, l: int, room: bool) {
    exists v: nat, q: nat :: Loaded(states, i, k, v, q) && (v + q + 1 <= l <==> room)
  }

  /** What a reserving write knows of the counts in each phase. */
  ghost predicate CountsOf(states: seq<State>, i: nat, k: nat, t: nat, l: int)
    requires k < |states| && t < |states[k].threads|
  {
    match states[k].threads[t].pc
    case LoadItems => true
    case LoadPending(v) => LoadedItems(states, i, k, v)
    case TryReserve(v, q) => Loaded(states, i, k, v, q)
    case Idle(out) => FoundRoom(states, i, k, l, out != NoCapacity)
    case Release(out) => out != NoCapacity && FoundRoom(states, i, k, l, true)
    case _ => FoundRoom(states, i, k, l, true)
  }

  lemma CountsLater(states: seq<State>, i: nat, k: nat, t: nat, l: int)
    requires k + 1 < |states| && t < |states[k].threads| && t < |states[k + 1].threads| && states[k + 1].threads[t] == states[k].threads[t]
    requires CountsOf(states, i, k, t, l)
    ensures CountsOf(states, i, k + 1, t, l)
  {
    match states[k].threads[t].pc
    case LoadPending(v) => assert LoadedItems(states, i, k, v);
    case TryReserve(v, q) => LoadedLater(states, i, k, v, q);
    case LoadItems =>
    case Idle(out) => RoomLater(states, i, k, l, out != NoCapacity);
    case _ => RoomLater(states, i, k, l, true);
  }

  lemma LoadedLater(states: seq<State>, i: nat, k: nat, v: nat, q: nat)
    requires Loaded(states, i, k, v, q)
    ensures Loaded(states, i, k + 1, v, q)
  {
  }

  lemma RoomLater(states: seq<State>, i: nat, k: nat, l: int, room: bool)
    requires FoundRoom(states, i, k, l, room)
    ensures FoundRoom(states, i, k + 1, l, room)
  {
    var v: nat, q: nat :| Loaded(states, i, k, v, q) && (v + q + 1 <= l <==> room);
    LoadedLater(states, i, k, v, q);
  }

  /** The first steps of a reserving write: what each loads, and what the compare-and-swap decides. */
  lemma LoadingStep(c: Config, s: State, s': State, t: nat)
    requires c.Valid() && Shape(c, s) && Step(c, s, s', t) && s.threads[t].op.PutRow?
    requires s.threads[t].pc.LoadItems? || s.threads[t].pc.LoadPending? || s.threads[t].pc.TryReserve?
    ensures |s'.threads| == |s.threads|
    ensures s.threads[t].pc.LoadItems? ==> s'.threads[t].pc == LoadPending(s.itemCount)
    ensures s.threads[t].pc.LoadPending? ==> s'.threads[t].pc == TryReserve(s.threads[t].pc.items, s.pending)
    ensures s.threads[t].pc.TryReserve? ==> s'.threads[t].pc.LoadItems? || s'.threads[t].pc.TakeSequence? || s'.threads[t].pc == Idle(NoCapacity)
    ensures s.threads[t].pc.TryReserve? && s'.threads[t].pc.TakeSequence? ==> !c.OverLoad(s.threads[t].pc.items + s.threads[t].pc.pend + 1, |s.slots|)
    ensures s.threads[t].pc.TryReserve? && s'.threads[t].pc == Idle(NoCapacity) ==> c.OverLoad(s.threads[t].pc.items + s.threads[t].pc.pend + 1, |s.slots|)
  {
    hide Config.OverLoad;
  }

  /** Once it has its reservation a write never loads the counts again, nor is it refused for them. */
  lemma PastLoading(c: Config, s: State, s': State, t: nat)
    requires Inv(c, s) && Step(c, s, s', t) && t < |s.threads| && s.threads[t].op.PutRow? && !s.threads[t].pc.Idle?
    requires var pc := s.threads[t].pc; !pc.LoadItems? && !pc.LoadPending? && !pc.TryReserve? && pc != Release(NoCapacity)
    ensures t < |s'.threads|
    ensures var pc' := s'.threads[t].pc; !pc'.LoadItems? && !pc'.LoadPending? && !pc'.TryReserve? && !EndsWith(pc', NoCapacity)
  {
    hide Step, FatesOnly, SetFate, ClaimsExtent, ExtentsOk, Ordered, BlocksOk, FilesOk, SlotsOk, IndexOk, TableOk, CountsOk;
    WriteAdvances(c, s, s', t);
    if s.threads[t].pc.TakeSequence? || s.threads[t].pc.ClaimExtent? { StillReserved(c, s, s', t); }
  }

  lemma StillReserved(c: Config, s: State, s': State, t: nat)
    requires Inv(c, s) && Step(c, s, s', t) && t < |s.threads| && s.threads[t].op.PutRow? && t < |s'.threads|
    requires s.threads[t].pc.TakeSequence? || s.threads[t].pc.ClaimExtent?
    ensures s'.threads[t].pc.ClaimExtent? || s'.threads[t].pc.WriteBlock? || s'.threads[t].pc == Release(TooLarge)
  {
    hide ExtentsOk, Ordered, BlocksOk, FilesOk, SlotsOk, IndexOk, TableOk, CountsOk, Writable, BlockBytes;
  }

  lemma BeginLoads(c: Config, s: State, s': State, t: nat)
    requires c.Valid() && Shape(c, s) && Step(c, s, s', t) && s.threads[t].pc.Idle? && t < |s'.threads| && s'.threads[t].op.PutRow?
    ensures s'.threads[t].pc.LoadItems?
  {
  }

  /** The thread's own step keeps what it knows of the counts. */
  lemma OwnStepKeepsCounts(c: Config, states: seq<State>, i: nat, k: nat, t: nat)
    requires i < k && k + 1 < |states| && Inv(c, states[k]) && Step(c, states[k], states[k + 1], t)
    requires t < |states[k].threads| && states[k].threads[t].op.PutRow? && !states[k].threads[t].pc.Idle?
    requires CountsOf(states, i, k, t, Limit(c.f, |states[k].slots|))
    ensures t < |states[k + 1].threads| && CountsOf(states, i, k + 1, t, Limit(c.f, |states[k].slots|))
  {
    hide Inv, Step, Loaded, LoadedItems, FoundRoom, Config.OverLoad, Limit;
    var s, s', l := states[k], states[k + 1], Limit(c.f, |states[k].slots|);
    InvSizes(c, s);
    match s.threads[t].pc
    case LoadItems =>
      LoadingStep(c, s, s', t);
      NowLoadsItems(states, i, k);
    case LoadPending(v) =>
      LoadingStep(c, s, s', t);
      NowLoadsBoth(states, i, k, v);
    case TryReserve(v, q) =>
      LoadingStep(c, s, s', t);
      LoadIsLimit(c, v + q + 1, |s.slots|);
      LoadedLater(states, i, k, v, q);
      IsRoom(states, i, k + 1, v, q, l);
    case Release(out) =>
      PastLoading(c, s, s', t);
      RoomLater(states, i, k, l, true);
    case _ =>
      PastLoading(c, s, s', t);
      RoomLater(states, i, k, l, true);
  }

  lemma IsRoom(states: seq<State>, i: nat, k: nat, v: nat, q: nat, l: int)
    requires Loaded(states, i, k, v, q)
    ensures FoundRoom(states, i, k, l, v + q + 1 <= l)
  {
  }

  lemma NowLoadsItems(states: seq<State>, i: nat, k: nat)
    requires i < k < |states|
    ensures LoadedItems(states, i, k + 1, states[k].itemCount)
  {
  }

  lemma NowLoadsBoth(states: seq<State>, i: nat, k: nat, v: nat)
    requires i < k < |states| && LoadedItems(states, i, k, v)
    ensures Loaded(states, i, k + 1, v, states[k].pending)
  {
    var a :| i < a < k && a < |states| && states[a].itemCount == v;
  }

  lemma {:induction false} CountsThroughout(c: Config, states: seq<State>, who: seq<nat>, i: nat, j: nat, t: nat, k: nat)
    requires Run(c, states, who) && Inv(c, states[0]) && WriteRuns(states, who, i, j, t) && i < k <= j + 1
    requires states[i + 1].threads[t].op.PutRow?
    ensures t < |states[k].threads| && CountsOf(states, i, k, t, Limit(c.f, |states[0].slots|))
    decreases k
  {
    hide Inv, Step, CountsOf, Limit, CallOk;
    RunKeepsInvariant(c, states, who, k - 1);
    SameLimit(c, states, who, k - 1);
    if k == i + 1 {
      InvSizes(c, states[i]);
      BeginLoads(c, states[i], states[i + 1], t);
      BeginKnows(states, i, t, Limit(c.f, |states[0].slots|));
    } else {
      CountsThroughout(c, states, who, i, j, t, k - 1);
      CallIsOk(c, states, who, i, j, t, k - 1);
      if who[k - 1] == t {
        OwnStepKeepsCounts(c, states, i, k - 1, t);
      } else {
        OtherStepKeepsCounts(c, states, i, k - 1, t, who[k - 1], Limit(c.f, |states[0].slots|));
      }
    }
  }

  lemma SameLimit(c: Config, states: seq<State>, who: seq<nat>, k: nat)
    requires Run(c, states, who) && Inv(c, states[0]) && k < |states|
    ensures |states[k].slots| == |states[0].slots|
  {
    hide Inv, Step;
    RunGrows(c, states, who, 0, k);
  }

  lemma OtherStepKeepsCounts(c: Config, states: seq<State>, i: nat, k: nat, t: nat, u: nat, l: int)
    requires k + 1 < |states| && Inv(c, states[k]) && Step(c, states[k], states[k + 1], u) && u != t
    requires t < |states[k].threads| && CountsOf(states, i, k, t, l)
    ensures t < |states[k + 1].threads| && CountsOf(states, i, k + 1, t, l)
  {
    hide Inv, Step, CountsOf;
    StepExtends(c, states[k], states[k + 1], u);
    CountsLater(states, i, k, t, l);
  }

  lemma BeginKnows(states: seq<State>, i: nat, t: nat, l: int)
    requires i + 1 < |states| && t < |states[i + 1].threads| && states[i + 1].threads[t].pc.LoadItems?
    ensures CountsOf(states, i, i + 1, t, l)
  {
  }

  /**
   A capacity answer is true of counts that the call itself has loaded, the item
   count first and the pending count after it: a reserving write is refused only if
   they sum, plus one, to more than the limit, and ends otherwise only if they do not.
   An update of a stored row is never refused for capacity.
   */
  lemma CapacityAnswersTruly(c: Config, states: seq<State>, who: seq<nat>, i: nat, j: nat, t: nat, out: Outcome)
    requires Run(c, states, who) && Inv(c, states[0]) && WriteRuns(states, who, i, j, t) && who[j] == t
    requires t < |states[j + 1].threads| && states[j + 1].threads[t].pc == Idle(out)
    ensures states[i + 1].threads[t].op.PutRow? ==> FoundRoom(states, i, j + 1, Limit(c.f, |states[0].slots|), out != NoCapacity)
    ensures out == NoCapacity ==> states[i + 1].threads[t].op.PutRow?
  {
    hide Inv, Step, FoundRoom, Limit, CallOk;
    if states[i + 1].threads[t].op.PutRow? {
      CountsThroughout(c, states, who, i, j, t, j + 1);
    } else {
      CallIsOk(c, states, who, i, j, t, j);
      RunKeepsInvariant(c, states, who, j);
      InvSizes(c, states[j]);
      UpdatesNeverRefused(c, states, who, i, j, t, j + 1);
    }
  }

  /** An update that does not reserve never comes to the counts. */
  lemma {:induction false} UpdatesNeverRefused(c: Config, states: seq<State>, who: seq<nat>, i: nat, j: nat, t: nat, k: nat)
    requires Run(c, states, who) && Inv(c, states[0]) && WriteRuns(states, who, i, j, t) && i < k <= j + 1
    requires states[i + 1].threads[t].op.UpdateRow?
    ensures t < |states[k].threads| && !EndsWith(states[k].threads[t].pc, NoCapacity)
    decreases k
  {
    hide Inv, Step, CallOk;
    RunKeepsInvariant(c, states, who, k - 1);
    InvSizes(c, states[k - 1]);
    CallIsOk(c, states, who, i, j, t, k);
    if k == i + 1 {
      BeginUpdates(c, states[i], states[i + 1], t);
    } else {
      UpdatesNeverRefused(c, states, who, i, j, t, k - 1);
      CallIsOk(c, states, who, i, j, t, k - 1);
      if who[k - 1] == t {
        UpdateGoesOn(c, states[k - 1], states[k], t);
      } else {
        StepExtends(c, states[k - 1], states[k], who[k - 1]);
      }
    }
  }

  lemma BeginUpdates(c: Config, s: State, s': State, t: nat)
    requires c.Valid() && Shape(c, s) && Step(c, s, s', t) && s.threads[t].pc.Idle? && t < |s'.threads| && s'.threads[t].op.UpdateRow?
    ensures s'.threads[t].pc.TakeSequence?
  {
  }

  lemma UpdateGoesOn(c: Config, s: State, s': State, t: nat)
    requires Inv(c, s) && Step(c, s, s', t) && t < |s.threads| && s.threads[t].op.UpdateRow? && !s.threads[t].pc.Idle?
    ensures t < |s'.threads| && !EndsWith(s'.threads[t].pc, NoCapacity)
  {
    hide Inv, Step, FatesOnly, SetFate, ClaimsExtent;
    NotReserving(c, s, t);
    WriteAdvances(c, s, s', t);
  }

  lemma NotReserving(c: Config, s: State, t: nat)
    requires Inv(c, s) && t < |s.threads| && s.threads[t].op.UpdateRow?
    ensures !s.threads[t].pc.TryReserve? && !s.threads[t].pc.Release?
  {
    assert ThreadOk(c, s, t);
  }

  // ---- Writes that are sure to be admitted --------------------------------------------------------

  function Min(a: nat, b: nat): nat { if a <= b then a else b }

  /** What the counts a write may load can come to after `n` reserving writes have begun on `threads` threads. */
  function MostLoaded(items: nat, n: nat, threads: nat): int { items + n + Min(threads, n) - 1 }

  /** The counters after `n` reserving writes have begun since the item count was `items`. */
  ghost predicate CountersBounded(s: State, items: nat, n: nat) {
    && s.itemCount + Count(Going, s.threads) <= items + n
    && Count(Writers, s.threads) <= n && Count(Writers, s.threads) <= |s.threads|
    && forall t :: 0 <= t < |s.threads| ==> LoadsBounded(s.threads[t], items, n, |s.threads|)
  }

  predicate LoadsBounded(th: Thread, items: nat, n: nat, threads: nat) {
    && (th.pc.LoadPending? ==> th.pc.items + 1 <= items + n && n > 0)
    && (th.pc.TryReserve? ==> th.pc.items + th.pc.pend + 1 <= MostLoaded(items, n, threads) && n > 0)
  }

  /** A step moves only its own thread, and the tally by at most the write it begins. */
  ghost predicate TallyAtMost(s: State, s': State, t: nat) {
    && t < |s.threads| == |s'.threads| && s'.threads == s.threads[t := s'.threads[t]]
    && var more := if Begins(s, s', t) then 1 else 0;
    && s'.itemCount + Weight(Going, s'.threads[t]) <= s.itemCount + Weight(Going, s.threads[t]) + more
    && Weight(Writers, s'.threads[t]) <= Weight(Writers, s.threads[t]) + more
  }

  lemma CountingTallies(c: Config, s: State, s': State, t: nat)
    requires c.Valid() && Shape(c, s) && Step(c, s, s', t) && ThreadOk(c, s, t) && IsCounting(s.threads[t].pc)
    ensures TallyAtMost(s, s', t)
  {
    hide Config.OverLoad;
  }

  lemma SameCountTallies(c: Config, s: State, s': State, t: nat)
    requires t < |s.threads| == |s'.threads| && s'.threads == s.threads[t := s'.threads[t]] && s'.itemCount == s.itemCount
    requires s'.threads[t].op == s.threads[t].op && !s.threads[t].pc.Idle? && !s.threads[t].pc.Release?
    ensures TallyAtMost(s, s', t)
  {
  }

  /** A step that is not about the counters: they stay, and the thread comes to no load of them. */
  ghost predicate LeavesCounts(s: State, s': State, t: nat) {
    && t < |s.threads| == |s'.threads| && s'.itemCount == s.itemCount && s'.nextSequence == s.nextSequence
    && s'.threads[t].op == s.threads[t].op
    && var pc := s'.threads[t].pc; !pc.LoadPending? && !pc.TryReserve? && !EndsWith(pc, NoCapacity) && !pc.ClaimExtent?
  }

  lemma ReadingLeaves(c: Config, s: State, s': State, t: nat)
    requires c.Valid() && Shape(c, s) && Step(c, s, s', t)
    requires s.threads[t].pc.Probing? || s.threads[t].pc.LoadField? || s.threads[t].pc.ReadValue?
    ensures LeavesCounts(s, s', t)
  {
    hide SlotAt, FindValue;
  }

  lemma RecheckLeaves(c: Config, s: State, s': State, t: nat)
    requires c.Valid() && Shape(c, s) && Step(c, s, s', t) && s.threads[t].pc.Recheck?
    ensures LeavesCounts(s, s', t)
  {
    hide SlotAt;
  }

  lemma HeaderLeaves(c: Config, s: State, s': State, t: nat)
    requires c.Valid() && Shape(c, s) && Step(c, s, s', t) && s.threads[t].pc.ReadHeader?
    ensures LeavesCounts(s, s', t)
  {
    hide SlotAt, ParseBlockHeader, IsValidRowBlockHeader, ShardRead;
  }

  lemma ColumnLeaves(c: Config, s: State, s': State, t: nat)
    requires c.Valid() && Shape(c, s) && Step(c, s, s', t) && s.threads[t].pc.ReadColumn?
    ensures LeavesCounts(s, s', t)
  {
    hide SlotAt, ShardRead;
  }

  lemma FilingLeaves(c: Config, s: State, s': State, t: nat)
    requires c.Valid() && Shape(c, s) && Step(c, s, s', t) && (s.threads[t].pc.ClaimExtent? || s.threads[t].pc.WriteBlock?)
    ensures LeavesCounts(s, s', t)
  {
    hide NewExtent, Writable, PWrite;
  }

  lemma BucketLeaves(c: Config, s: State, s': State, t: nat)
    requires c.Valid() && Shape(c, s) && Step(c, s, s', t)
    requires s.threads[t].pc.CasEmpty? || s.threads[t].pc.CasFilled? || IsStoring(s.threads[t].pc)
    ensures LeavesCounts(s, s', t)
  {
    hide SlotAt, FieldOf;
  }

  lemma OthersLeave(c: Config, s: State, s': State, t: nat)
    requires c.Valid() && Shape(c, s) && Step(c, s, s', t) && !IsCounting(s.threads[t].pc)
    ensures LeavesCounts(s, s', t)
  {
    hide Step, LeavesCounts;
    StepHasThread(c, s, s', t);
    var pc := s.threads[t].pc;
    if pc.Recheck? { RecheckLeaves(c, s, s', t); }
    else if pc.ReadHeader? { HeaderLeaves(c, s, s', t); }
    else if pc.ReadColumn? { ColumnLeaves(c, s, s', t); }
    else if IsReading(pc) { ReadingLeaves(c, s, s', t); }
    else if pc.ClaimExtent? || pc.WriteBlock? { FilingLeaves(c, s, s', t); }
    else { BucketLeaves(c, s, s', t); }
  }

  lemma StepTallies(c: Config, s: State, s': State, t: nat)
    requires Inv(c, s) && Step(c, s, s', t)
    ensures TallyAtMost(s, s', t)
  {
    hide Inv, Step, TallyAtMost;
    InvSizes(c, s);
    StepHasThread(c, s, s', t);
    StepExtends(c, s, s', t);
    AThreadOk(c, s, t);
    assert s'.threads == s.threads[t := s'.threads[t]];
    if IsCounting(s.threads[t].pc) { CountingTallies(c, s, s', t); }
    else {
      OthersLeave(c, s, s', t);
      SameCountTallies(c, s, s', t);
    }
  }

  lemma GoingCounts(s: State, t: nat, kind: Kind)
    requires t < |s.threads| && Is(kind, s.threads[t])
    ensures Count(kind, s.threads) >= 1
  {
    CountUpdate(kind, s.threads, t, s.threads[t].(pc := Idle(NotStarted)));
    var none := s.threads[t].(pc := Idle(NotStarted));
    assert Weight(kind, none) == 0;
  }

  /** A thread that loads the pending count is a writer that holds no reservation. */
  lemma FewerReserved(s: State, t: nat)
    requires t < |s.threads| && s.threads[t].op.PutRow? && s.threads[t].pc.LoadPending?
    ensures Count(Reserved, s.threads) + 1 <= Count(Writers, s.threads)
  {
    var without := s.threads[t := s.threads[t].(pc := Idle(NotStarted))];
    CountUpdate(Reserved, s.threads, t, without[t]);
    CountUpdate(Writers, s.threads, t, without[t]);
    CountLess(Reserved, Writers, without);
  }

  /** What the moving thread then holds is within the bound. */
  lemma LoadsStayBounded(c: Config, s: State, s': State, t: nat, items: nat, n: nat, n': nat)
    requires Inv(c, s) && Step(c, s, s', t) && CountersBounded(s, items, n) && t < |s'.threads| && |s'.threads| == |s.threads|
    requires n' == n + if Begins(s, s', t) then 1 else 0
    ensures LoadsBounded(s'.threads[t], items, n', |s'.threads|)
  {
    hide ExtentsOk, Ordered, BlocksOk, FilesOk, SlotsOk, IndexOk, TableOk, Step, Advances;
    InvSizes(c, s);
    StepHasThread(c, s, s', t);
    assert ThreadOk(c, s, t);
    NextLoads(c, s, s', t);
    if s.threads[t].pc.LoadItems? { GoingCounts(s, t, Going); GoingCounts(s, t, Writers); }
    if s.threads[t].pc.LoadPending? { FewerReserved(s, t); }
  }

  /** Only a step that loads a count comes to hold one. */
  lemma NextLoads(c: Config, s: State, s': State, t: nat)
    requires c.Valid() && Shape(c, s) && Step(c, s, s', t) && ThreadOk(c, s, t) && t < |s'.threads|
    ensures s'.threads[t].pc.LoadPending? ==> s.threads[t].pc.LoadItems? && s'.threads[t].pc.items == s.itemCount
    ensures s'.threads[t].pc.TryReserve? ==>
      s.threads[t].pc.LoadPending? && s'.threads[t].pc.items == s.threads[t].pc.items && s'.threads[t].pc.pend == s.pending
  {
    hide Step;
    StepHasThread(c, s, s', t);
    if IsCounting(s.threads[t].pc) { CountingLoads(c, s, s', t); } else { OthersLeave(c, s, s', t); }
  }

  lemma CountingLoads(c: Config, s: State, s': State, t: nat)
    requires c.Valid() && Shape(c, s) && Step(c, s, s', t) && t < |s'.threads| && IsCounting(s.threads[t].pc)
    ensures s'.threads[t].pc.LoadPending? ==> s.threads[t].pc.LoadItems? && s'.threads[t].pc.items == s.itemCount
    ensures s'.threads[t].pc.TryReserve? ==>
      s.threads[t].pc.LoadPending? && s'.threads[t].pc.items == s.threads[t].pc.items && s'.threads[t].pc.pend == s.pending
  {
    hide Config.OverLoad;
  }

  lemma {:induction false} CountersStayBounded(c: Config, states: seq<State>, who: seq<nat>, k: nat)
    requires Run(c, states, who) && Inv(c, states[0]) && AllIdle(states[0]) && k < |states|
    ensures CountersBounded(states[k], states[0].itemCount, Begun(states, who, k))
    ensures |states[k].threads| == |states[0].threads|
  {
    hide Inv, Step, AllIdle;
    if k == 0 {
      NoneGoing(states[0]);
    } else {
      CountersStayBounded(c, states, who, k - 1);
      RunKeepsInvariant(c, states, who, k - 1);
      BoundedStep(c, states[k - 1], states[k], who[k - 1], states[0].itemCount, Begun(states, who, k - 1));
    }
  }

  lemma NoneGoing(s: State)
    requires AllIdle(s)
    ensures CountersBounded(s, s.itemCount, 0)
  {
    NoneIs(Going, s.threads);
    NoneIs(Writers, s.threads);
  }

  lemma BoundedStep(c: Config, s: State, s': State, t: nat, items: nat, n: nat)
    requires Inv(c, s) && Step(c, s, s', t) && CountersBounded(s, items, n)
    ensures |s'.threads| == |s.threads| && CountersBounded(s', items, n + if Begins(s, s', t) then 1 else 0)
  {
    hide Inv, Step, Begins;
    StepTallies(c, s, s', t);
    LoadsStayBounded(c, s, s', t, items, n, n + if Begins(s, s', t) then 1 else 0);
    CountUpdate(Going, s.threads, t, s'.threads[t]);
    CountUpdate(Writers, s.threads, t, s'.threads[t]);
    forall u | 0 <= u < |s'.threads| && u != t
      ensures LoadsBounded(s'.threads[u], items, n + if Begins(s, s', t) then 1 else 0, |s'.threads|)
    {
      assert s'.threads[u] == s.threads[u];
    }
  }

  /**
   From a quiescent state on, no write is refused for capacity while the starting
   count, the reserving writes begun so far, and one more for each but one of the
   threads that may run one of them, come to no more than the limit.
   */
  lemma EarlyWritesAreAdmitted(c: Config, states: seq<State>, who: seq<nat>, j: nat)
    requires Run(c, states, who) && Inv(c, states[0]) && AllIdle(states[0]) && j < |who|
    requires MostLoaded(states[0].itemCount, Begun(states, who, j), |states[0].threads|) <= Limit(c.f, |states[0].slots|)
    ensures !Reports(states[j], states[j + 1], who[j], NoCapacity)
  {
    hide Inv, Step, AllIdle, Limit;
    if Reports(states[j], states[j + 1], who[j], NoCapacity) {
      RunKeepsInvariant(c, states, who, j);
      RunGrows(c, states, who, 0, j);
      CountersStayBounded(c, states, who, j);
      NoCapacityFromReserve(c, states[j], states[j + 1], who[j]);
      ReserveAnswers(c, states[j], states[j + 1], who[j]);
    }
  }

  lemma NoCapacityFromReserve(c: Config, s: State, s': State, t: nat)
    requires Inv(c, s) && Step(c, s, s', t) && Reports(s, s', t, NoCapacity)
    ensures s.threads[t].pc.TryReserve? && s'.threads[t].pc == Idle(NoCapacity)
  {
    hide Inv;
    AThreadOk(c, s, t);
    if s.threads[t].op.GetRow? { ReaderReports(c, s, s', t); }
    else {
      AnswersExplained(c, s, s', t, NoCapacity);
      NotReleased(c, s, s', t);
    }
  }

  lemma NotReleased(c: Config, s: State, s': State, t: nat)
    requires c.Valid() && Shape(c, s) && Step(c, s, s', t) && s.threads[t].pc.TryReserve?
    ensures |s'.threads| == |s.threads| && !s'.threads[t].pc.Release?
  {
    hide Config.OverLoad;
  }

  lemma ReaderReports(c: Config, s: State, s': State, t: nat)
    requires Inv(c, s) && Step(c, s, s', t) && t < |s.threads| && s.threads[t].op.GetRow?
    ensures !Reports(s, s', t, NoCapacity)
  {
    hide Inv, Step;
    InvSizes(c, s);
    ReaderReads(c, s, t);
    if !s.threads[t].pc.Idle? { OthersLeave(c, s, s', t); }
  }

  // ---- How many are sure to be admitted ----------------------------------------------------------

  /** In every run from `start` the first `n` reserving writes are admitted. */
  ghost predicate AdmitsFirst(c: Config, start: State, n: nat) {
    forall states: seq<State>, who, j :: Run(c, states, who) && states[0] == start && 0 <= j < |who| && Begun(states, who, j) <= n ==>
      !Reports(states[j], states[j + 1], who[j], NoCapacity)
  }

  lemma NotAdmitted(c: Config, states: seq<State>, who: seq<nat>, j: nat, start: State, n: nat)
    requires Run(c, states, who) && states[0] == start && j < |who| && Begun(states, who, j) <= n
    requires Reports(states[j], states[j + 1], who[j], NoCapacity)
    ensures !AdmitsFirst(c, start, n)
  {
  }

  /** Threads below `k` have counted their items and hold their reservations; the others are idle. */
  ghost predicate Holding(s: State, k: nat) {
    k <= |s.threads|
    && forall t :: 0 <= t < |s.threads| ==>
      if t < k then s.threads[t].op.PutRow? && s.threads[t].pc == Release(Stored) else s.threads[t].pc.Idle?
  }

  lemma HoldingWaits(s: State, k: nat)
    requires Holding(s, k)
    ensures Waiting(s) && k <= |s.threads| && forall t :: k <= t < |s.threads| ==> s.threads[t].pc.Idle?
  {
  }

  lemma HoldingMore(a: State, b: State, k: nat)
    requires Holding(a, k) && k < |a.threads| == |b.threads| && b.threads[k].op.PutRow? && b.threads[k].pc == Release(Stored)
    requires forall u :: 0 <= u < |a.threads| && u != k ==> b.threads[u] == a.threads[u]
    ensures Holding(b, k + 1)
  {
  }

  /** One thread after the other inserts a row and stops before it gives its reservation back. */
  lemma {:induction false} Holds(c: Config, s: State, a: State, k: nat, g: nat, m: nat, entries: seq<Entry>) returns (b: State)
    requires Reach(c, s, Everyone(|s.threads|), a) && Inv(c, a) && |a.threads| == |s.threads| && k <= g < |a.threads| && Holding(a, k)
    requires a.itemCount == m + k && a.pending == k && a.index.Keys == RowsBelow(m + k) && RowsInsertable(c, entries)
    requires g > 0 ==> m + 2 * (g - 1) < Limit(c.f, |a.slots|)
    requires Limit(c.f, |a.slots|) < |a.slots| <= TWO64
    ensures Reach(c, s, Everyone(|s.threads|), b) && Inv(c, b) && |b.threads| == |s.threads| && |b.slots| == |a.slots| && Holding(b, g)
    ensures b.itemCount == m + g && b.pending == g && b.index.Keys == RowsBelow(m + g)
    decreases g - k
  {
    hide Inv, Reach, Insertable, Limit, RowsBelow, Holding, Waiting;
    if k == g {
      b := a;
    } else {
      var r := Row([], m + k);
      HoldingWaits(a, k);
      RowsBelowMore(m + k);
      var cast := Everyone(|s.threads|);
      var d := BeginsInsert(c, s, cast, a, k, r, entries);
      StillWaits(a, d, k);
      var f := InsertsCounted(c, s, cast, d, k, m + k, r, entries);
      HoldingMore(a, f, k);
      b := Holds(c, s, f, k + 1, g, m, entries);
    }
  }

  lemma StillWaits(a: State, b: State, t: nat)
    requires Waiting(a) && t < |a.threads| == |b.threads| && b == a.(threads := a.threads[t := b.threads[t]])
    requires b.threads[t].pc.LoadPending?
    ensures Waiting(b)
  {
  }

  /** With the others holding on, the next write loads counts that are over the limit. */
  lemma ComesToRefusal(c: Config, s: State, a: State, g: nat, m: nat, entries: seq<Entry>) returns (b: State)
    requires Reach(c, s, Everyone(|s.threads|), a) && Inv(c, a) && |a.threads| == |s.threads| && g < |a.threads| && Holding(a, g)
    requires a.itemCount == m + g && a.pending == g && RowsInsertable(c, entries) && m + g < TWO64
    ensures Reach(c, s, Everyone(|s.threads|), b) && Inv(c, b) && |b.threads| == |s.threads| && |b.slots| == |a.slots|
    ensures b.threads[g].op.PutRow? && b.threads[g].pc == TryReserve(m + g, g) && Tally(b) == m + g + 1
  {
    hide Inv, Reach, Insertable, Grows;
    var cast := Everyone(|s.threads|);
    var d := BeginsInsert(c, s, cast, a, g, Row([], m + g), entries);
    InvSizes(c, d);
    b := Goto(d, g, TryReserve(m + g, d.pending));
    Moves(c, s, cast, d, b, g);
    OneGoing(b, g);
  }

  lemma OneGoing(s: State, g: nat)
    requires g < |s.threads| && Is(Going, s.threads[g]) && forall t :: 0 <= t < |s.threads| && t != g ==> !Is(Going, s.threads[t])
    ensures Count(Going, s.threads) == 1
  {
    var none := s.threads[g].(pc := Idle(NotStarted));
    CountUpdate(Going, s.threads, g, none);
    NoneIs(Going, s.threads[g := none]);
  }

  /** The run to that state, with the refusal as its last step. */
  lemma RefusesLast(c: Config, s: State, a: State, g: nat, n: nat)
    requires Reach(c, s, Everyone(|s.threads|), a) && Inv(c, a) && g < |a.threads| && a.threads[g].pc.TryReserve?
    requires a.threads[g].pc.items + a.threads[g].pc.pend + 1 > Limit(c.f, |a.slots|) && Tally(s) == 0 && Tally(a) <= n
    ensures !AdmitsFirst(c, s, n)
  {
    hide Step, Inv, Tally, Limit, Config.OverLoad, AdmitsFirst, Begins;
    InvSizes(c, a);
    LoadIsLimit(c, a.threads[g].pc.items + a.threads[g].pc.pend + 1, |a.slots|);
    var b := Goto(a, g, Idle(NoCapacity));
    RefusesNow(c, a, b, g);
    var states, who :| RunsTo(c, s, Everyone(|s.threads|), a, states, who);
    var more, steps := states + [b], who + [g];
    forall i | 0 <= i < |steps| ensures Shape(c, more[i]) && Step(c, more[i], more[i + 1], steps[i]) {}
    BegunPrefix(states, who, more, steps, |who|);
    NotAdmitted(c, more, steps, |who|, s, n);
  }

  lemma RefusesNow(c: Config, s: State, s': State, t: nat)
    requires c.Valid() && Shape(c, s) && t < |s.threads| && s.threads[t].pc.TryReserve?
    requires c.OverLoad(s.threads[t].pc.items + s.threads[t].pc.pend + 1, |s.slots|) && s' == Goto(s, t, Idle(NoCapacity))
    ensures Step(c, s, s', t) && Reports(s, s', t, NoCapacity)
  {
    hide Config.OverLoad;
  }

  /** So many writes fill the table one by one, and so many more hold on; the next is refused. */
  lemma GroupIsRefused(c: Config, s: State, m: nat, g: nat, entries: seq<Entry>, n: nat)
    requires Inv(c, s) && AllIdle(s) && s.itemCount == 0 && s.index == map[] && g < |s.threads| && RowsInsertable(c, entries)
    requires m <= Limit(c.f, |s.slots|) < |s.slots| <= TWO64 && m + g < TWO64
    requires (g > 0 ==> m + 2 * (g - 1) < Limit(c.f, |s.slots|)) && m + 2 * g + 1 > Limit(c.f, |s.slots|) && m + g + 1 <= n
    ensures !AdmitsFirst(c, s, n)
  {
    hide Inv, Reach, Insertable, Limit, RowsBelow, AllIdle, AdmitsFirst, Holding;
    InvSizes(c, s);
    EveryoneStarts(c, s);
    NoRowsBelow();
    var a := FillsTo(c, s, s, m, entries);
    IdlePending(c, a);
    NoneHold(a);
    var d := Holds(c, s, a, 0, g, m, entries);
    var b := ComesToRefusal(c, s, d, g, m, entries);
    NoTally(s);
    RefusesLast(c, s, b, g, n);
  }

  lemma NoneHold(s: State)
    requires AllIdle(s)
    ensures Holding(s, 0)
  {
  }

  lemma NoTally(s: State)
    requires AllIdle(s) && s.itemCount == 0
    ensures Tally(s) == 0
  {
    NoneIs(Going, s.threads);
  }

  /** The smallest group that is refused. */
  lemma SmallestGroup(l: nat, n: nat, threads: nat) returns (m: nat, g: nat)
    requires threads > 0 && n > 0 && n + Min(threads, n) > l + 1
    ensures m <= l && g < threads && m + g + 1 <= n
    ensures (g > 0 ==> m + 2 * (g - 1) < l) && m + 2 * g + 1 > l
  {
    if threads > l / 2 {
      g := l / 2;
      m := l % 2;
    } else {
      g := threads - 1;
      m := l + 2 - 2 * threads;
    }
  }

  lemma AllAdmitted(c: Config, s: State, n: nat)
    requires Inv(c, s) && AllIdle(s) && s.itemCount == 0 && (|s.threads| == 0 || n + Min(|s.threads|, n) <= Limit(c.f, |s.slots|) + 1)
    ensures AdmitsFirst(c, s, n)
  {
    hide Inv, Step, AllIdle, Limit, Reports;
    InvSizes(c, s);
    forall states: seq<State>, who, j | Run(c, states, who) && states[0] == s && 0 <= j < |who| && Begun(states, who, j) <= n
      ensures !Reports(states[j], states[j + 1], who[j], NoCapacity)
    {
      SomeThread(c, states, who, j);
      EarlyWritesAreAdmitted(c, states, who, j);
    }
  }

  lemma SomeThread(c: Config, states: seq<State>, who: seq<nat>, j: nat)
    requires Run(c, states, who) && Inv(c, states[0]) && j < |who|
    ensures |states[0].threads| > 0
  {
    hide Inv, Step;
    RunGrows(c, states, who, 0, j);
    StepHasThread(c, states[j], states[j + 1], who[j]);
  }

  /**
   How many writes of a new database are sure not to be refused for capacity: the
   first `n` if and only if `n`, with one more for each thread that can be in one of
   them but for the last, is within the limit.  A caller that only keeps `n` within
   the limit may be refused, because a write that is counted but still holds its
   reservation is counted twice.
   */
  lemma AdmitsFirstIff(c: Config, initialRowBucketCount: nat, threads: nat, header: seq<byte>, entries: seq<Entry>, n: nat)
    requires c.Valid() && |header| == ROW_FILE_HEADER_SIZE && initialRowBucketCount <= Pow2(63) && RowsInsertable(c, entries) && n > 0
    ensures var s := Fresh(c, initialRowBucketCount, threads, header);
      AdmitsFirst(c, s, n) <==> threads == 0 || n + Min(threads, n) - 1 <= Limit(c.f, |s.slots|)
  {
    hide Inv, AdmitsFirst, Limit, RowsInsertable, RoundUp, Pow2;
    var s := Fresh(c, initialRowBucketCount, threads, header);
    FreshIsGood(c, initialRowBucketCount, threads, header);
    RoundUpIsLeast(initialRowBucketCount);
    WordsFit();
    LoadIsLimit(c, 0, |s.slots|);
    if threads == 0 || n + Min(threads, n) - 1 <= Limit(c.f, |s.slots|) {
      AllAdmitted(c, s, n);
    } else {
      var m, g := SmallestGroup(Limit(c.f, |s.slots|), n, threads);
      GroupIsRefused(c, s, m, g, entries, n);
    }
  }

  /** Two threads and a limit of two or more: a write is refused although no more writes have begun than the limit admits. */
  lemma WithinLimitIsRefused(c: Config, initialRowBucketCount: nat, threads: nat, header: seq<byte>, entries: seq<Entry>)
    requires c.Valid() && |header| == ROW_FILE_HEADER_SIZE && initialRowBucketCount <= Pow2(63) && RowsInsertable(c, entries)
    requires threads >= 2 && Limit(c.f, RoundUp(initialRowBucketCount)) >= 2
    ensures !AdmitsFirst(c, Fresh(c, initialRowBucketCount, threads, header), Limit(c.f, RoundUp(initialRowBucketCount)))
  {
    hide AdmitsFirst, Limit, RowsInsertable, Pow2;
    AdmitsFirstIff(c, initialRowBucketCount, threads, header, entries, Limit(c.f, RoundUp(initialRowBucketCount)));
  }
}
