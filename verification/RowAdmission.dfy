/**
 The load bound of the row index when the item count and the pending counter are
 read in separate steps, and what it gives the parallel write phase.
 */
module RowAdmission {
  import opened Wrappers
  import opened Load
  import opened Probing
  import opened RowBlock
  import opened RowProtocol
  import opened RowProtocolInv
  import opened RowProtocolResults
  import opened RowLinear

  /** The most items the load check admits into `n` buckets. */
  function Limit(f: real, n: nat): (l: int)
  {
    (f * (n as real)).Floor
  }

  /** The check against the load factor is a check against a whole number of items. */
  lemma LoadIsLimit(c: Config, x: nat, n: nat)
    requires n > 0 && c.Valid()
    ensures c.OverLoad(x, n) <==> x > Limit(c.f, n)
    ensures 0 <= Limit(c.f, n) < n
  {
    OverIsMore(c.f, x, n);
    Scaled(c.f, 1.0, n as real);
    Scaled(0.0, c.f, n as real);
  }

  lemma {:induction false} CountLess(a: Kind, b: Kind, ts: seq<Thread>)
    requires forall i :: 0 <= i < |ts| && Is(a, ts[i]) ==> Is(b, ts[i])
    ensures Count(a, ts) <= Count(b, ts)
  {
    if ts != [] {
      assert forall i :: 0 <= i < |ts[1..]| && Is(a, ts[1..][i]) ==> Is(b, ts[1..][i]) by {
        forall i | 0 <= i < |ts[1..]| && Is(a, ts[1..][i]) ensures Is(b, ts[1..][i]) { assert ts[1..][i] == ts[i + 1]; }
      }
      CountLess(a, b, ts[1..]);
    }
  }

  /** The items counted, and the threads that may still count one. */
  function Potential(l: nat, s: State): nat { s.itemCount + Count(Loose(l), s.threads) }

  /** The step lets no thread in that was not already on its way. */
  ghost predicate NoNewcomer(l: nat, s: State, s': State, t: nat)
    requires t < |s.threads|
  {
    && |s'.threads| == |s.threads| && s'.threads == s.threads[t := s'.threads[t]]
    && s'.itemCount + Weight(Loose(l), s'.threads[t]) <= s.itemCount + Weight(Loose(l), s.threads[t])
  }

  lemma NoNewcomerKeeps(l: nat, s: State, s': State, t: nat)
    requires t < |s.threads| && NoNewcomer(l, s, s', t)
    ensures Potential(l, s') <= Potential(l, s)
  {
    CountUpdate(Loose(l), s.threads, t, s'.threads[t]);
  }

  lemma CountingAdmits(c: Config, l: nat, s: State, s': State, t: nat)
    requires c.Valid() && Shape(c, s) && Step(c, s, s', t) && IsCounting(s.threads[t].pc) && l == Limit(c.f, |s.slots|)
    requires s.threads[t].pc.CountItem? ==> s.threads[t].op.PutRow?
    requires s.threads[t].pc.LoadItems? ==> s.itemCount >= l
    ensures NoNewcomer(l, s, s', t)
  {
    match s.threads[t].pc
    case TryReserve(items, pend) => LoadIsLimit(c, items + pend + 1, |s.slots|);
    case _ =>
  }

  lemma LoadingAdmits(c: Config, l: nat, s: State, s': State, t: nat)
    requires c.Valid() && Shape(c, s) && Step(c, s, s', t)
    requires s.threads[t].pc.Probing? || s.threads[t].pc.LoadField? || s.threads[t].pc.ReadValue?
    ensures NoNewcomer(l, s, s', t)
  {
  }

  lemma RecheckAdmits(c: Config, l: nat, s: State, s': State, t: nat)
    requires c.Valid() && Shape(c, s) && Step(c, s, s', t) && s.threads[t].pc.Recheck?
    ensures NoNewcomer(l, s, s', t)
  {
  }

  lemma ReadHeaderAdmits(c: Config, l: nat, s: State, s': State, t: nat)
    requires c.Valid() && Shape(c, s) && Step(c, s, s', t) && s.threads[t].pc.ReadHeader?
    ensures NoNewcomer(l, s, s', t)
  {
  }

  lemma ReadColumnAdmits(c: Config, l: nat, s: State, s': State, t: nat)
    requires c.Valid() && Shape(c, s) && Step(c, s, s', t) && s.threads[t].pc.ReadColumn?
    ensures NoNewcomer(l, s, s', t)
  {
  }

  lemma ReadingAdmits(c: Config, l: nat, s: State, s': State, t: nat)
    requires c.Valid() && Shape(c, s) && Step(c, s, s', t) && IsReading(s.threads[t].pc)
    ensures NoNewcomer(l, s, s', t)
  {
    match s.threads[t].pc
    case Probing(_) => LoadingAdmits(c, l, s, s', t);
    case LoadField(_, _) => LoadingAdmits(c, l, s, s', t);
    case ReadValue(_, _, _) => LoadingAdmits(c, l, s, s', t);
    case Recheck(_, _) => RecheckAdmits(c, l, s, s', t);
    case ReadHeader(_, _) => ReadHeaderAdmits(c, l, s, s', t);
    case ReadColumn(_, _, _) => ReadColumnAdmits(c, l, s, s', t);
  }

  lemma WritingAdmits(c: Config, l: nat, s: State, s': State, t: nat)
    requires c.Valid() && Shape(c, s) && Step(c, s, s', t)
    requires !IsCounting(s.threads[t].pc) && !IsReading(s.threads[t].pc)
    ensures NoNewcomer(l, s, s', t)
  {
  }

  /** No step takes the table past the limit by more than the other writers that read the counters before. */
  lemma StepAdmits(c: Config, s: State, s': State, t: nat, writers: nat)
    requires Inv(c, s) && Step(c, s, s', t) && Count(Writers, s'.threads) <= writers
    ensures |s'.slots| == |s.slots| > 0
    ensures var l := Limit(c.f, |s.slots|);
      0 <= l && (Potential(l, s') <= Potential(l, s) || Potential(l, s') <= l + writers - 1)
  {
    StepExtends(c, s, s', t);
    LoadIsLimit(c, 0, |s.slots|);
    var l := Limit(c.f, |s.slots|);
    var pc := s.threads[t].pc;
    assert ThreadOk(c, s, t);
    if pc.LoadItems? && s.itemCount < l {
      CountLess(Loose(l), Writers, s'.threads);
    } else {
      if IsCounting(pc) { CountingAdmits(c, l, s, s', t); }
      else if IsReading(pc) { ReadingAdmits(c, l, s, s', t); }
      else { WritingAdmits(c, l, s, s', t); }
      NoNewcomerKeeps(l, s, s', t);
    }
  }

  // ---- The bound over a run -----------------------------------------------------------

  /** The buckets that are Writing or Filled. */
  function Taken(slots: seq<Slot>): nat {
    if slots == [] then 0 else (if slots[0].state == Empty then 0 else 1) + Taken(slots[1..])
  }

  lemma {:induction false} TakenIsOccupied(slots: seq<Slot>, owner: seq<Option<Row>>)
    requires |slots| == |owner| && forall i :: 0 <= i < |slots| ==> (slots[i].state == Empty <==> owner[i] == None)
    ensures Taken(slots) == Occupied(owner)
  {
    if slots != [] { TakenIsOccupied(slots[1..], owner[1..]); }
  }

  lemma OccupiedBelowPotential(c: Config, s: State)
    requires Inv(c, s)
    ensures 0 <= Limit(c.f, |s.slots|)
    ensures Taken(s.slots) == Occupied(s.owner) <= Potential(Limit(c.f, |s.slots|), s)
  {
    LoadIsLimit(c, 0, |s.slots|);
    forall i | 0 <= i < |s.threads| && Is(Uncounted, s.threads[i]) ensures Is(Loose(Limit(c.f, |s.slots|)), s.threads[i]) {
      assert ThreadOk(c, s, i);
    }
    CountLess(Uncounted, Loose(Limit(c.f, |s.slots|)), s.threads);
    forall i | 0 <= i < |s.slots| ensures s.slots[i].state == Empty <==> s.owner[i] == None { assert SlotOk(c, s, i); }
    TakenIsOccupied(s.slots, s.owner);
  }

  ghost predicate AtMostWriters(states: seq<State>, writers: nat) {
    forall i :: 0 <= i < |states| ==> Count(Writers, states[i].threads) <= writers
  }

  lemma {:induction false} PotentialBound(c: Config, states: seq<State>, who: seq<nat>, i: nat, writers: nat, bound: nat)
    requires Run(c, states, who) && Inv(c, states[0]) && AtMostWriters(states, writers) && i < |states|
    requires 0 <= Limit(c.f, |states[0].slots|)
    requires Potential(Limit(c.f, |states[0].slots|), states[0]) <= bound
    requires Limit(c.f, |states[0].slots|) + writers - 1 <= bound
    ensures |states[i].slots| == |states[0].slots| > 0
    ensures Potential(Limit(c.f, |states[0].slots|), states[i]) <= bound
  {
    hide Limit, Potential, Step;
    if i > 0 {
      PotentialBound(c, states, who, i - 1, writers, bound);
      RunKeepsInvariant(c, states, who, i - 1);
      StepAdmits(c, states[i - 1], states[i], who[i - 1], writers);
    }
  }

  ghost predicate AllIdle(s: State) { forall t :: 0 <= t < |s.threads| ==> s.threads[t].pc.Idle? }

  /** Thread `t` begins a reserving write in this step. */
  predicate Begins(s: State, s': State, t: nat) {
    t < |s.threads| && t < |s'.threads| && s.threads[t].pc.Idle? && s'.threads[t].op.PutRow? && !s'.threads[t].pc.Idle?
  }

  /** The reserving writes that the first `k` steps begin. */
  function Begun(states: seq<State>, who: seq<nat>, k: nat): nat
    requires k <= |who| < |states|
  {
    if k == 0 then 0 else Begun(states, who, k - 1) + if Begins(states[k - 1], states[k], who[k - 1]) then 1 else 0
  }

  function Max(a: int, b: int): int { if a >= b then a else b }

  /**
   From a quiescent state on, however the threads interleave, the Writing and
   Filled buckets together never exceed the larger of the starting count and the
   load limit plus the number of concurrent reserving writers less one.
   */
  lemma AdmissionBound(c: Config, states: seq<State>, who: seq<nat>, i: nat, writers: nat)
    requires Run(c, states, who) && Inv(c, states[0]) && AllIdle(states[0]) && AtMostWriters(states, writers)
    requires i < |states|
    ensures |states[i].slots| == |states[0].slots|
    ensures Taken(states[i].slots) == Occupied(states[i].owner)
    ensures Taken(states[i].slots) <= Max(states[0].itemCount, Limit(c.f, |states[0].slots|) + writers - 1)
  {
    LoadIsLimit(c, 0, |states[0].slots|);
    NoneCounted(states[0].threads);
    PotentialBound(c, states, who, i, writers, Max(states[0].itemCount, Limit(c.f, |states[0].slots|) + writers - 1));
    RunKeepsInvariant(c, states, who, i);
    OccupiedBelowPotential(c, states[i]);
  }

  /** While the bound is below the bucket count an empty bucket remains, and no operation finds the table full. */
  lemma TableNeverFills(c: Config, states: seq<State>, who: seq<nat>, i: nat, writers: nat)
    requires Run(c, states, who) && Inv(c, states[0]) && AllIdle(states[0]) && AtMostWriters(states, writers)
    requires Max(states[0].itemCount, Limit(c.f, |states[0].slots|) + writers - 1) < |states[0].slots|
    requires i < |states|
    ensures HasRoom(states[i].owner)
    ensures i < |who| ==> !Reports(states[i], states[i + 1], who[i], TableFull)
  {
    AdmissionBound(c, states, who, i, writers);
    RunKeepsInvariant(c, states, who, i);
    OccupiedRoom(states[i].owner);
    if i < |who| && Reports(states[i], states[i + 1], who[i], TableFull) {
      ErrorsExplained(c, states[i], states[i + 1], who[i], TableFull);
    }
  }

  /**
   The parallel write phase: rows written once each, by at most so many writers
   that the table cannot fill.  Nothing ever reports corruption or a full table,
   and every read answers from the map of rows published when it returns.
   */
  lemma ParallelPhaseIsSafe(c: Config, states: seq<State>, who: seq<nat>, i: nat, writers: nat, out: Outcome)
    requires Run(c, states, who) && Inv(c, states[0]) && AllIdle(states[0]) && AtMostWriters(states, writers)
    requires Max(states[0].itemCount, Limit(c.f, |states[0].slots|) + writers - 1) < |states[0].slots|
    requires WrittenOnce(states[|states| - 1]) && i < |who|
    ensures Reports(states[i], states[i + 1], who[i], out) ==> out != TableFull && out != CorruptBlock
    ensures IndexInRange(states[i])
    ensures Returns(states[i], states[i + 1], who[i], out) ==>
      out == RowAnswer(Abs(states[i]), states[i].threads[who[i]].op.row, states[i].threads[who[i]].op.key)
  {
    TableNeverFills(c, states, who, i, writers);
    OnceWrittenReadsLinearise(c, states, who, i, out);
  }
}
