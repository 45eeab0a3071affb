/**
 Building runs of the row protocol step by step: from a state that a run reaches,
 one thread probes, takes a snapshot, or writes a row, while the others wait.
 */
module RowReach {
  import opened Wrappers
  import opened Bytes
  import opened Probing
  import opened FileIO
  import opened RowBlock
  import opened RowProtocol
  import opened RowProtocolInv
  import opened RowProtocolSteps
  import opened RowProtocolWrites
  import opened RowProtocolResults
  import opened RowLinear
  import opened RowAdmission

  // ---- Reaching one state from another ----------------------------------------------------

  /** What a thread may do in a run: write this row, read this row, or anything. */
  datatype Part = Writes(row: Row) | Reads(row: Row) | Anything

  /** The threads that move, and their parts. */
  type Cast = map<nat, Part>

  predicate Plays(part: Part, th: Thread) {
    th.pc.Idle? ||
    match part
    case Writes(r) => !th.op.GetRow? && th.op.row == r
    case Reads(r) => th.op.GetRow? && th.op.row == r
    case Anything => true
  }

  /** The threads of the cast play their parts, and no other thread has moved. */
  ghost predicate Acting(cast: Cast, s: State, a: State) {
    |a.threads| == |s.threads|
    && forall t :: 0 <= t < |s.threads| ==> if t in cast then Plays(cast[t], a.threads[t]) else a.threads[t] == s.threads[t]
  }

  ghost predicate RunsTo(c: Config, s: State, cast: Cast, s': State, states: seq<State>, who: seq<nat>) {
    Run(c, states, who) && states[0] == s && states[|who|] == s'
    && (forall k :: 0 <= k < |states| ==> Acting(cast, s, states[k]))
    && Begun(states, who, |who|) == Tally(s') - Tally(s)
  }

  /** The reserving writes that are counted or on their way to it. */
  function Tally(s: State): nat { s.itemCount + Count(Going, s.threads) }

  /** The step moves the tally exactly when it begins a reserving write. */
  predicate Tallies(a: State, b: State, t: nat) {
    t < |a.threads| && t < |b.threads|
    && b.itemCount + Weight(Going, b.threads[t]) == a.itemCount + Weight(Going, a.threads[t]) + if Begins(a, b, t) then 1 else 0
  }

  lemma TallyMoves(a: State, b: State, t: nat)
    requires Tallies(a, b, t) && |b.threads| == |a.threads| && forall u :: 0 <= u < |a.threads| && u != t ==> b.threads[u] == a.threads[u]
    ensures Tally(b) == Tally(a) + if Begins(a, b, t) then 1 else 0
  {
    CountUpdate(Going, a.threads, t, b.threads[t]);
    assert b.threads == a.threads[t := b.threads[t]];
  }

  lemma {:induction false} BegunPrefix(states: seq<State>, who: seq<nat>, more: seq<State>, steps: seq<nat>, k: nat)
    requires k <= |who| < |states| && states <= more && who <= steps && |steps| < |more|
    ensures Begun(states, who, k) == Begun(more, steps, k)
  {
    if k > 0 { BegunPrefix(states, who, more, steps, k - 1); }
  }

  ghost predicate Reach(c: Config, s: State, cast: Cast, s': State) {
    exists states, who :: RunsTo(c, s, cast, s', states, who)
  }

  lemma ReachNone(c: Config, s: State, cast: Cast)
    requires c.Valid() && Acting(cast, s, s)
    ensures Reach(c, s, cast, s)
  {
    assert Begun([s], [], 0) == 0;
    assert RunsTo(c, s, cast, s, [s], []);
  }

  lemma ReachStep(c: Config, s: State, cast: Cast, a: State, b: State, t: nat)
    requires Reach(c, s, cast, a) && Inv(c, a) && Step(c, a, b, t) && Acting(cast, s, b)
    requires Tally(b) == Tally(a) + if Begins(a, b, t) then 1 else 0
    ensures Reach(c, s, cast, b)
  {
    hide Step, Inv, Shape, Acting, Tally, Begins;
    InvShape(c, a);
    var states, who :| RunsTo(c, s, cast, a, states, who);
    var more, steps := states + [b], who + [t];
    BegunPrefix(states, who, more, steps, |who|);
    forall i | 0 <= i < |steps| ensures Shape(c, more[i]) && Step(c, more[i], more[i + 1], steps[i]) {}
    assert RunsTo(c, s, cast, b, more, steps);
  }

  lemma InvShape(c: Config, s: State)
    requires Inv(c, s)
    ensures c.Valid() && Shape(c, s)
  {
  }

  lemma ReachActs(c: Config, s: State, cast: Cast, a: State)
    requires Reach(c, s, cast, a)
    ensures Acting(cast, s, a)
  {
    var states, who :| RunsTo(c, s, cast, a, states, who);
  }

  /** The thread that moves goes on with its call or begins one of its part. */
  ghost predicate PlaysOn(cast: Cast, a: State, b: State, t: nat) {
    && t in cast && t < |a.threads| && t < |b.threads|
    && ((!a.threads[t].pc.Idle? && b.threads[t].op == a.threads[t].op) || Plays(cast[t], b.threads[t]))
    && Tallies(a, b, t)
  }

  /** The other threads are where they were, and nothing settled has changed. */
  ghost predicate OthersWait(a: State, b: State, t: nat) {
    Grows(a, b) && forall u :: 0 <= u < |a.threads| && u != t ==> b.threads[u] == a.threads[u]
  }

  lemma WaitLonger(a: State, b: State, d: State, t: nat)
    requires OthersWait(a, b, t) && OthersWait(b, d, t)
    ensures OthersWait(a, d, t)
  {
    forall e | 0 <= e < |a.extents|
      ensures SameExtent(a.extents[e], d.extents[e]) && FateLasts(a.extents[e], d.extents[e])
    {
      assert SameExtent(a.extents[e], b.extents[e]) && SameExtent(b.extents[e], d.extents[e]);
      assert FateLasts(a.extents[e], b.extents[e]) && FateLasts(b.extents[e], d.extents[e]);
    }
  }

  lemma WaitSizes(a: State, b: State, t: nat)
    requires OthersWait(a, b, t)
    ensures |b.slots| == |a.slots| && |b.threads| == |a.threads| && |b.owner| == |a.owner| && |a.extents| <= |b.extents|
    ensures forall u :: 0 <= u < |a.threads| && u != t ==> b.threads[u] == a.threads[u]
    ensures forall r :: r in a.index ==> r in b.index
  {
  }

  lemma WaitExtent(a: State, b: State, e: nat, t: nat)
    requires OthersWait(a, b, t) && e < |a.extents|
    ensures e < |b.extents| && SameExtent(a.extents[e], b.extents[e])
  {
  }

  lemma PlaysTallies(cast: Cast, a: State, b: State, t: nat)
    requires PlaysOn(cast, a, b, t)
    ensures t < |a.threads| && Tallies(a, b, t)
  {
  }

  lemma StepActs(s: State, cast: Cast, a: State, b: State, t: nat)
    requires Acting(cast, s, a) && Extends(a, b, t) && PlaysOn(cast, a, b, t)
    ensures Acting(cast, s, b)
  {
  }

  /** A step of the cast: the run goes on to `b`, where the invariant holds and the other threads have not moved. */
  lemma Moves(c: Config, s: State, cast: Cast, a: State, b: State, t: nat)
    requires Reach(c, s, cast, a) && Inv(c, a) && Step(c, a, b, t) && PlaysOn(cast, a, b, t)
    ensures Reach(c, s, cast, b) && Inv(c, b) && OthersWait(a, b, t)
  {
    hide Inv, Reach, Step, Grows, Acting, PlaysOn, Tally, Begins;
    StepKeepsInvariant(c, a, b, t);
    StepExtends(c, a, b, t);
    PlaysTallies(cast, a, b, t);
    TallyMoves(a, b, t);
    ReachActs(c, s, cast, a);
    StepActs(s, cast, a, b, t);
    ReachStep(c, s, cast, a, b, t);
    ExtendsGrows(a, b, t);
  }

  /** Only thread `t`'s program counter differs. */
  ghost predicate OnlyMoved(a: State, b: State, t: nat)
    requires t < |a.threads|
  {
    && |b.threads| == |a.threads| && b == a.(threads := a.threads[t := b.threads[t]])
    && b.threads[t] == a.threads[t].(pc := b.threads[t].pc)
  }

  // ---- Settled buckets --------------------------------------------------------------------

  /** Bucket `i` is Filled for row `r`, from extent `e`. */
  ghost predicate SettledAt(s: State, i: nat, r: Row, e: nat) {
    && i < |s.slots| == |s.owner| && s.slots[i].state == Filled && s.owner[i] == Some(r)
    && r in s.index && s.index[r].ext == e && s.index[r].slot == i
  }

  lemma FilledIsSettled(c: Config, s: State, i: nat)
    requires Inv(c, s) && i < |s.slots| && s.slots[i].state == Filled
    ensures i < |s.owner| && s.owner[i].Some? && s.owner[i].value in s.index
    ensures SettledAt(s, i, s.owner[i].value, s.index[s.owner[i].value].ext)
  {
    assert SlotOk(c, s, i);
  }

  lemma SettledWords(c: Config, s: State, i: nat, r: Row, e: nat, k: nat)
    requires Inv(c, s) && SettledAt(s, i, r, e) && k < FIELDS
    ensures e < |s.extents| && s.extents[e].row == r && |s.slots[i].src| == FIELDS == |s.slots[i].fields|
    ensures s.slots[i].src[k] == e && s.slots[i].fields[k] == FieldOf(c, s.extents[e], k)
  {
    assert SlotOk(c, s, i);
    var slot := s.slots[i];
    assert Good(s, Snap(slot.fields, slot.src).src[k], r);
  }

  predicate SameBucket(c: Config, r: Row, q: Row) {
    r.id == q.id && c.h.HashString(r.column) == c.h.HashString(q.column)
  }

  lemma SameProbes(c: Config, s: State, r: Row, q: Row, p: nat)
    requires SameBucket(c, r, q) && p < |s.slots|
    ensures SlotAt(c, s, q, p) == SlotAt(c, s, r, p)
  {
  }

  // ---- Taking a snapshot ----------------------------------------------------------------------

  /** Where word `j` of a snapshot comes from when the bucket changes hands after the fourth word. */
  function WordFrom(e0: nat, e1: nat, j: nat): nat { if j < 4 then e0 else e1 }

  /** The words loaded so far. */
  ghost predicate From(snap: Snap, e0: nat, e1: nat, k: nat) {
    |snap.fields| == k == |snap.src| && forall j :: 0 <= j < k ==> snap.src[j] == WordFrom(e0, e1, j)
  }

  /** Thread `t` looks at bucket `i` with its probe `p`. */
  ghost predicate LooksAt(c: Config, s: State, t: nat, p: nat, i: nat) {
    t < |s.threads| && p < |s.slots| && SlotAt(c, s, s.threads[t].op.row, p) == i
  }

  /** Thread `t` has loaded `k` words of bucket `i`. */
  ghost predicate Loading(c: Config, s: State, t: nat, p: nat, i: nat, e0: nat, e1: nat, k: nat) {
    && LooksAt(c, s, t, p, i)
    && s.threads[t].pc.LoadField? && s.threads[t].pc.p == p && From(s.threads[t].pc.snap, e0, e1, k)
  }

  /** At a Filled bucket a probe starts a snapshot. */
  lemma StartsSnapshot(c: Config, s: State, cast: Cast, a: State, t: nat, p: nat, i: nat, e0: nat, e1: nat) returns (b: State)
    requires Reach(c, s, cast, a) && Inv(c, a) && t in cast && LooksAt(c, a, t, p, i) && a.slots[i].state == Filled
    requires a.threads[t].pc == Probing(p)
    ensures Reach(c, s, cast, b) && Inv(c, b) && OnlyMoved(a, b, t) && Loading(c, b, t, p, i, e0, e1, 0)
  {
    hide Inv, Reach, Grows;
    InvShape(c, a);
    b := DoProbe(c, a, t, p);
    Moves(c, s, cast, a, b, t);
  }

  lemma LoadsOne(c: Config, s: State, cast: Cast, a: State, t: nat, p: nat, i: nat, r: Row, e: nat, e0: nat, e1: nat, k: nat) returns (b: State)
    requires Reach(c, s, cast, a) && Inv(c, a) && t in cast && SettledAt(a, i, r, e) && Loading(c, a, t, p, i, e0, e1, k) && k < FIELDS
    requires WordFrom(e0, e1, k) == e
    ensures Reach(c, s, cast, b) && Inv(c, b) && OnlyMoved(a, b, t) && LooksAt(c, b, t, p, i)
    ensures k + 1 < FIELDS ==> Loading(c, b, t, p, i, e0, e1, k + 1)
    ensures k + 1 == FIELDS ==> b.threads[t].pc.Recheck? && b.threads[t].pc.p == p && From(b.threads[t].pc.snap, e0, e1, FIELDS)
  {
    hide Inv, Reach, Grows, SlotAt;
    InvShape(c, a);
    SettledWords(c, a, i, r, e, k);
    b := DoLoadField(c, a, t, p, a.threads[t].pc.snap);
    SlotsKept(c, a, b, t, p, i);
    Moves(c, s, cast, a, b, t);
  }

  lemma SlotsKept(c: Config, a: State, b: State, t: nat, p: nat, i: nat)
    requires LooksAt(c, a, t, p, i) && |b.slots| == |a.slots| && t < |b.threads| && b.threads[t].op == a.threads[t].op
    ensures LooksAt(c, b, t, p, i)
  {
  }

  /** The next `n` words load from the extent now published. */
  lemma {:induction false} Loads(c: Config, s: State, cast: Cast, a: State, t: nat, p: nat, i: nat, r: Row, e: nat,
                                 e0: nat, e1: nat, k: nat, n: nat) returns (b: State)
    requires Reach(c, s, cast, a) && Inv(c, a) && t in cast && SettledAt(a, i, r, e) && Loading(c, a, t, p, i, e0, e1, k) && k + n < FIELDS
    requires forall j :: k <= j < k + n ==> WordFrom(e0, e1, j) == e
    ensures Reach(c, s, cast, b) && Inv(c, b) && Loading(c, b, t, p, i, e0, e1, k + n) && OnlyMoved(a, b, t)
    decreases n
  {
    hide Inv, Reach, From, LooksAt;
    LooksFacts(c, a, t, p, i);
    if n == 0 {
      b := a;
    } else {
      assert WordFrom(e0, e1, k) == e;
      var d := LoadsOne(c, s, cast, a, t, p, i, r, e, e0, e1, k);
      b := Loads(c, s, cast, d, t, p, i, r, e, e0, e1, k + 1, n - 1);
    }
  }

  /** A whole snapshot of a settled bucket. */
  lemma Snapshots(c: Config, s: State, cast: Cast, a: State, t: nat, p: nat, i: nat, r: Row, e: nat) returns (b: State)
    requires Reach(c, s, cast, a) && Inv(c, a) && t in cast && LooksAt(c, a, t, p, i) && SettledAt(a, i, r, e)
    requires a.threads[t].pc == Probing(p)
    ensures Reach(c, s, cast, b) && Inv(c, b) && OnlyMoved(a, b, t) && LooksAt(c, b, t, p, i)
    ensures b.threads[t].pc.Recheck? && b.threads[t].pc.p == p && From(b.threads[t].pc.snap, e, e, FIELDS)
  {
    hide Inv, Reach, From, LooksAt;
    LooksFacts(c, a, t, p, i);
    var d := StartsSnapshot(c, s, cast, a, t, p, i, e, e);
    var f := Loads(c, s, cast, d, t, p, i, r, e, e, e, 0, 5);
    b := LoadsOne(c, s, cast, f, t, p, i, r, e, e, e, 5);
  }

  lemma LooksFacts(c: Config, s: State, t: nat, p: nat, i: nat)
    requires LooksAt(c, s, t, p, i)
    ensures t < |s.threads| && p < |s.slots| && i < |s.slots|
  {
  }

  /** The snapshot has the column hash and row id of the row that owns the bucket. */
  lemma MatchesOwner(c: Config, s: State, t: nat)
    requires Inv(c, s) && t < |s.threads| && s.threads[t].pc.Recheck?
    ensures var th := s.threads[t];
      th.pc.p < |s.slots| && |th.pc.snap.fields| == FIELDS
    ensures var th := s.threads[t];
      var owner := s.owner[SlotAt(c, s, th.op.row, th.pc.p)];
      owner.Some? && th.pc.snap.fields[1] == c.h.HashString(owner.value.column) && th.pc.snap.fields[2] == owner.value.id
  {
    assert ThreadOk(c, s, t);
    SnapAddresses(c, s, SlotAt(c, s, s.threads[t].op.row, s.threads[t].pc.p), s.threads[t].pc.snap);
  }

  /** The second Filled load and the comparison lead on to the header of a row that agrees on hash and id. */
  lemma ToHeader(c: Config, s: State, cast: Cast, a: State, t: nat, p: nat, i: nat, r: Row) returns (b: State)
    requires Reach(c, s, cast, a) && Inv(c, a) && t in cast && LooksAt(c, a, t, p, i)
    requires a.slots[i].state == Filled && i < |a.owner| && a.owner[i] == Some(r) && SameBucket(c, r, a.threads[t].op.row)
    requires a.threads[t].pc.Recheck? && a.threads[t].pc.p == p
    ensures Reach(c, s, cast, b) && Inv(c, b) && OnlyMoved(a, b, t) && LooksAt(c, b, t, p, i)
    ensures b.threads[t].pc == ReadHeader(p, a.threads[t].pc.snap)
  {
    hide Inv, Reach, Grows, SlotAt;
    InvShape(c, a);
    MatchesOwner(c, a, t);
    b := DoRecheck(c, a, t, p, a.threads[t].pc.snap);
    SlotsKept(c, a, b, t, p, i);
    Moves(c, s, cast, a, b, t);
  }

  /** A snapshot of one piece goes on to compare the column, if it has the row's length. */
  lemma ToColumn(c: Config, s: State, cast: Cast, a: State, t: nat, p: nat, i: nat, e: nat) returns (b: State)
    requires Reach(c, s, cast, a) && Inv(c, a) && t in cast && LooksAt(c, a, t, p, i)
    requires i < |a.owner| && a.owner[i].Some? && |a.owner[i].value.column| == |a.threads[t].op.row.column|
    requires a.threads[t].pc.ReadHeader? && a.threads[t].pc.p == p && From(a.threads[t].pc.snap, e, e, FIELDS)
    ensures Reach(c, s, cast, b) && Inv(c, b) && OnlyMoved(a, b, t) && LooksAt(c, b, t, p, i)
    ensures b.threads[t].pc.ReadColumn? && b.threads[t].pc.p == p && b.threads[t].pc.snap == a.threads[t].pc.snap
  {
    hide Reach, ExtentsOk, Ordered, BlocksOk, FilesOk, SlotsOk, IndexOk, TableOk, CountsOk, LookOk, Grows;
    assert ThreadOk(c, a, t);
    var snap := a.threads[t].pc.snap;
    var hd := ReadHeaderOf(c, a, t, p, snap);
    HeaderSizes(c, a, t, p, snap, hd);
    b := DoReadHeader(c, a, t, p, snap);
    SlotsKept(c, a, b, t, p, i);
    Moves(c, s, cast, a, b, t);
  }

  /** The column matches: a read goes on to the value, a write to claim the bucket. */
  lemma Matches(c: Config, s: State, cast: Cast, a: State, t: nat, p: nat, i: nat) returns (b: State)
    requires Reach(c, s, cast, a) && Inv(c, a) && t in cast && LooksAt(c, a, t, p, i)
    requires i < |a.owner| && a.owner[i] == Some(a.threads[t].op.row)
    requires a.threads[t].pc.ReadColumn? && a.threads[t].pc.p == p
    ensures Reach(c, s, cast, b) && Inv(c, b) && OnlyMoved(a, b, t)
    ensures b.threads[t].pc == if a.threads[t].op.GetRow? then ReadValue(p, a.threads[t].pc.snap, a.threads[t].pc.hd) else CasFilled(p)
  {
    hide Reach, ExtentsOk, Ordered, BlocksOk, FilesOk, SlotsOk, IndexOk, TableOk, CountsOk, LookOk, SnapOk, Grows, SlotAt;
    assert ThreadOk(c, a, t);
    var snap, hd := a.threads[t].pc.snap, a.threads[t].pc.hd;
    ReadColumnOf(c, a, t, p, snap, hd);
    b := DoReadColumn(c, a, t, p, snap, hd);
    Moves(c, s, cast, a, b, t);
  }

  // ---- Passing other rows ---------------------------------------------------------------------

  /** After the second Filled load, a bucket whose hash or id differs is passed. */
  lemma PassesHash(c: Config, s: State, cast: Cast, a: State, t: nat, p: nat, i: nat, r: Row) returns (b: State)
    requires Reach(c, s, cast, a) && Inv(c, a) && t in cast && LooksAt(c, a, t, p, i)
    requires a.slots[i].state == Filled && i < |a.owner| && a.owner[i] == Some(r) && !SameBucket(c, r, a.threads[t].op.row)
    requires a.threads[t].pc.Recheck? && a.threads[t].pc.p == p && p + 1 < |a.slots|
    ensures Reach(c, s, cast, b) && Inv(c, b) && OnlyMoved(a, b, t) && b.threads[t].pc == Probing(p + 1)
  {
    hide Inv, Reach, Grows, SlotAt;
    InvShape(c, a);
    MatchesOwner(c, a, t);
    b := DoRecheck(c, a, t, p, a.threads[t].pc.snap);
    Moves(c, s, cast, a, b, t);
  }

  /** A bucket whose column has another length is passed after the header. */
  lemma PassesLength(c: Config, s: State, cast: Cast, a: State, t: nat, p: nat, i: nat, e: nat) returns (b: State)
    requires Reach(c, s, cast, a) && Inv(c, a) && t in cast && LooksAt(c, a, t, p, i)
    requires i < |a.owner| && a.owner[i].Some? && |a.owner[i].value.column| != |a.threads[t].op.row.column|
    requires a.threads[t].pc.ReadHeader? && a.threads[t].pc.p == p && From(a.threads[t].pc.snap, e, e, FIELDS) && p + 1 < |a.slots|
    ensures Reach(c, s, cast, b) && Inv(c, b) && OnlyMoved(a, b, t) && b.threads[t].pc == Probing(p + 1)
  {
    hide Reach, ExtentsOk, Ordered, BlocksOk, FilesOk, SlotsOk, IndexOk, TableOk, CountsOk, LookOk, Grows;
    assert ThreadOk(c, a, t);
    var snap := a.threads[t].pc.snap;
    var hd := ReadHeaderOf(c, a, t, p, snap);
    HeaderSizes(c, a, t, p, snap, hd);
    b := DoReadHeader(c, a, t, p, snap);
    Moves(c, s, cast, a, b, t);
  }

  /** A bucket whose column is another is passed after the column. */
  lemma PassesColumn(c: Config, s: State, cast: Cast, a: State, t: nat, p: nat, i: nat) returns (b: State)
    requires Reach(c, s, cast, a) && Inv(c, a) && t in cast && LooksAt(c, a, t, p, i)
    requires i < |a.owner| && a.owner[i].Some? && a.owner[i].value != a.threads[t].op.row
    requires a.threads[t].pc.ReadColumn? && a.threads[t].pc.p == p && p + 1 < |a.slots|
    ensures Reach(c, s, cast, b) && Inv(c, b) && OnlyMoved(a, b, t) && b.threads[t].pc == Probing(p + 1)
  {
    hide Reach, ExtentsOk, Ordered, BlocksOk, FilesOk, SlotsOk, IndexOk, TableOk, CountsOk, LookOk, SnapOk, Grows, SlotAt;
    assert ThreadOk(c, a, t);
    var snap, hd := a.threads[t].pc.snap, a.threads[t].pc.hd;
    ReadColumnOf(c, a, t, p, snap, hd);
    b := DoReadColumn(c, a, t, p, snap, hd);
    Moves(c, s, cast, a, b, t);
  }

  /** A Filled bucket of another row is passed. */
  lemma PassesBucket(c: Config, s: State, cast: Cast, a: State, t: nat, p: nat, i: nat) returns (b: State)
    requires Reach(c, s, cast, a) && Inv(c, a) && t in cast && LooksAt(c, a, t, p, i)
    requires a.slots[i].state == Filled && i < |a.owner| && a.owner[i] != Some(a.threads[t].op.row)
    requires a.threads[t].pc == Probing(p) && p + 1 < |a.slots|
    ensures Reach(c, s, cast, b) && Inv(c, b) && OnlyMoved(a, b, t) && b.threads[t].pc == Probing(p + 1)
  {
    hide Inv, Reach, From, LooksAt, SettledAt, SameBucket;
    LooksFacts(c, a, t, p, i);
    FilledIsSettled(c, a, i);
    var r := a.owner[i].value;
    var e := a.index[r].ext;
    var d := Snapshots(c, s, cast, a, t, p, i, r, e);
    if !SameBucket(c, r, a.threads[t].op.row) {
      b := PassesHash(c, s, cast, d, t, p, i, r);
    } else {
      var f := ToHeader(c, s, cast, d, t, p, i, r);
      if |r.column| != |a.threads[t].op.row.column| {
        b := PassesLength(c, s, cast, f, t, p, i, e);
      } else {
        var g := ToColumn(c, s, cast, f, t, p, i, e);
        b := PassesColumn(c, s, cast, g, t, p, i);
      }
    }
  }

  /** The first `p` buckets on the row's path are Filled by other rows. */
  ghost predicate Clear(c: Config, s: State, r: Row, p: nat) {
    && p < |s.slots| == |s.owner|
    && forall k :: 0 <= k < p ==> s.slots[SlotAt(c, s, r, k)].state == Filled && s.owner[SlotAt(c, s, r, k)] != Some(r)
  }

  lemma ClearAt(c: Config, s: State, r: Row, p: nat, k: nat)
    requires Clear(c, s, r, p) && k < p
    ensures var i := SlotAt(c, s, r, k); i < |s.owner| && s.slots[i].state == Filled && s.owner[i] != Some(r)
  {
  }

  lemma ClearMoves(c: Config, a: State, b: State, r: Row, p: nat)
    requires Clear(c, a, r, p) && b.slots == a.slots && b.owner == a.owner
    ensures Clear(c, b, r, p)
  {
    forall k | 0 <= k < p ensures b.slots[SlotAt(c, b, r, k)].state == Filled && b.owner[SlotAt(c, b, r, k)] != Some(r) {
      SameSlot(c, a, b, r, k);
      ClearAt(c, a, r, p, k);
    }
  }

  lemma AtDist(start: nat, i: nat, n: nat)
    requires start < n && i < n
    ensures Dist(start, i, n) < n && At(start, Dist(start, i, n), n) == i
  {
  }

  lemma DistOf(start: nat, k: nat, n: nat)
    requires start < n && k < n
    ensures At(start, k, n) < n && Dist(start, At(start, k, n), n) == k
  {
  }

  /** A probe passes all of them. */
  lemma {:induction false} PassesTo(c: Config, s: State, cast: Cast, a: State, t: nat, k: nat, p: nat) returns (b: State)
    requires Reach(c, s, cast, a) && Inv(c, a) && t in cast && t < |a.threads| && Clear(c, a, a.threads[t].op.row, p)
    requires k <= p && a.threads[t].pc == Probing(k)
    ensures Reach(c, s, cast, b) && Inv(c, b) && OnlyMoved(a, b, t) && b.threads[t].pc == Probing(p)
    decreases p - k
  {
    hide Inv, Reach, Clear, SlotAt;
    if k == p {
      b := a;
    } else {
      var r := a.threads[t].op.row;
      ClearBelow(c, a, r, p);
      ClearAt(c, a, r, p, k);
      var d := PassesBucket(c, s, cast, a, t, k, SlotAt(c, a, r, k));
      ClearMoves(c, a, d, r, p);
      b := PassesTo(c, s, cast, d, t, k + 1, p);
    }
  }

  lemma ClearBelow(c: Config, s: State, r: Row, p: nat)
    requires Clear(c, s, r, p)
    ensures p < |s.slots|
  {
  }

  // ---- Writing ------------------------------------------------------------------------------------

  /** The counters are as they were. */
  predicate SameCounts(a: State, b: State) { b.itemCount == a.itemCount && b.pending == a.pending }

  /** Buckets, owners and index are as they were. */
  predicate SameTable(a: State, b: State) { b.slots == a.slots && b.owner == a.owner && b.index == a.index }

  /** A write takes its sequence, claims its extent and writes its block. */
  lemma WritesBlock(c: Config, s: State, cast: Cast, a: State, t: nat) returns (b: State)
    requires Reach(c, s, cast, a) && Inv(c, a) && t in cast && t < |a.threads| && a.threads[t].pc.TakeSequence?
    requires !a.threads[t].op.GetRow? && Writable(c.h, c.sizing, a.threads[t].op.row, a.threads[t].op.entries, a.nextSequence)
    ensures Reach(c, s, cast, b) && Inv(c, b) && OthersWait(a, b, t) && SameCounts(a, b) && SameTable(a, b)
    ensures t < |b.threads| && b.threads[t] == Thread(a.threads[t].op, |a.extents|, Probing(0)) && |b.extents| == |a.extents| + 1
    ensures b.extents[|a.extents|].bytes == BlockBytes(c.h, c.sizing, a.threads[t].op.row, a.threads[t].op.entries, a.nextSequence)
    ensures b.extents[|a.extents|].entries == a.threads[t].op.entries
  {
    hide Reach, Grows, OthersWait, ExtentsOk, Ordered, BlocksOk, FilesOk, SlotsOk, IndexOk, TableOk, CountsOk, BlockBytes, Writable, PWrite;
    var x1 := Goto(a.(nextSequence := (a.nextSequence + 1) % TWO64), t, ClaimExtent(a.nextSequence));
    Moves(c, s, cast, a, x1, t);
    WaitSizes(a, x1, t);
    var x2 := DoClaim(c, x1, t, a.nextSequence);
    Moves(c, s, cast, x1, x2, t);
    WaitLonger(a, x1, x2, t);
    WaitSizes(a, x2, t);
    b := StoresBlock(c, s, cast, x2, t);
    WaitLonger(a, x2, b, t);
  }

  lemma StoresBlock(c: Config, s: State, cast: Cast, a: State, t: nat) returns (b: State)
    requires Reach(c, s, cast, a) && Inv(c, a) && t in cast && t < |a.threads| && a.threads[t].pc == WriteBlock(0)
    ensures Reach(c, s, cast, b) && Inv(c, b) && OthersWait(a, b, t) && SameCounts(a, b) && SameTable(a, b)
    ensures t < |b.threads| && b.threads[t] == a.threads[t].(pc := Probing(0)) && |b.extents| == |a.extents|
    ensures forall x :: 0 <= x < |a.extents| ==> b.extents[x].bytes == a.extents[x].bytes && b.extents[x].entries == a.extents[x].entries
  {
    hide Reach, Grows, OthersWait, ExtentsOk, Ordered, BlocksOk, FilesOk, SlotsOk, IndexOk, TableOk, CountsOk, PWrite;
    assert ThreadOk(c, a, t);
    var n := |a.extents[a.threads[t].ext].bytes|;
    b := DoWrite(a, t, 0, n);
    assert WriteStep(a, b, t, 0);
    Moves(c, s, cast, a, b, t);
  }

  lemma {:induction false} Stores(c: Config, s: State, cast: Cast, a: State, t: nat, p: nat, k: nat, ins: bool) returns (b: State)
    requires Reach(c, s, cast, a) && Inv(c, a) && t in cast && t < |a.threads| && a.threads[t].pc == StoreField(p, k, ins) && k < FIELDS
    ensures Reach(c, s, cast, b) && Inv(c, b) && OthersWait(a, b, t) && SameCounts(a, b) && b.index == a.index && t < |b.threads|
    ensures b.threads[t] == a.threads[t].(pc := Publish(p, ins))
    decreases FIELDS - k
  {
    hide Reach, Grows, OthersWait, ExtentsOk, Ordered, BlocksOk, FilesOk, SlotsOk, IndexOk, TableOk, CountsOk;
    assert ThreadOk(c, a, t);
    var d := DoStoreField(c, a, t, p, k, ins);
    Moves(c, s, cast, a, d, t);
    WaitSizes(a, d, t);
    if k + 1 < FIELDS {
      b := Stores(c, s, cast, d, t, p, k + 1, ins);
      WaitLonger(a, d, b, t);
    } else {
      b := d;
    }
  }

  lemma Publishes(c: Config, s: State, cast: Cast, a: State, t: nat, p: nat, ins: bool) returns (b: State)
    requires Reach(c, s, cast, a) && Inv(c, a) && t in cast && t < |a.threads| && a.threads[t].pc == Publish(p, ins)
    requires ins || a.threads[t].op.UpdateRow?
    ensures Reach(c, s, cast, b) && Inv(c, b) && OthersWait(a, b, t) && SameCounts(a, b) && p < |a.slots|
    ensures SettledAt(b, SlotAt(c, a, a.threads[t].op.row, p), a.threads[t].op.row, a.threads[t].ext)
    ensures b.index.Keys == a.index.Keys + {a.threads[t].op.row}
    ensures t < |b.threads| && b.threads[t] == a.threads[t].(pc := if ins then CountItem else After(a.threads[t].op, Stored))
  {
    hide Reach, Grows, OthersWait, ExtentsOk, Ordered, BlocksOk, FilesOk, SlotsOk, IndexOk, TableOk, CountsOk;
    assert ThreadOk(c, a, t);
    b := DoPublish(c, a, t, p, ins);
    Moves(c, s, cast, a, b, t);
  }

  /** From its successful claim a write stores its words and publishes. */
  lemma Completes(c: Config, s: State, cast: Cast, a: State, d: State, t: nat, p: nat, ins: bool) returns (b: State)
    requires Reach(c, s, cast, a) && Inv(c, a) && t in cast && t < |a.threads| && t < |d.threads| && Step(c, a, d, t) && !a.threads[t].pc.Idle? && !a.threads[t].pc.Release?
    requires ins || a.threads[t].op.UpdateRow?
    requires d.threads[t] == a.threads[t].(pc := StoreField(p, 0, ins)) && SameCounts(a, d) && d.index == a.index && |d.slots| == |a.slots|
    ensures Reach(c, s, cast, b) && Inv(c, b) && OthersWait(a, b, t) && SameCounts(a, b) && p < |a.slots| == |b.slots|
    ensures SettledAt(b, SlotAt(c, a, a.threads[t].op.row, p), a.threads[t].op.row, a.threads[t].ext)
    ensures b.index.Keys == a.index.Keys + {a.threads[t].op.row}
    ensures t < |b.threads| && b.threads[t] == a.threads[t].(pc := if ins then CountItem else After(a.threads[t].op, Stored))
  {
    hide Inv, Reach, Grows, OthersWait, Step, SlotAt, SettledAt;
    Moves(c, s, cast, a, d, t);
    WaitSizes(a, d, t);
    var f := Stores(c, s, cast, d, t, p, 0, ins);
    WaitSizes(d, f, t);
    WaitLonger(a, d, f, t);
    b := Publishes(c, s, cast, f, t, p, ins);
    SameSlot(c, f, a, a.threads[t].op.row, p);
    WaitLonger(a, f, b, t);
    WaitSizes(a, b, t);
  }

  lemma SameSlot(c: Config, a: State, b: State, r: Row, p: nat)
    requires |a.slots| == |b.slots| && p < |a.slots|
    ensures SlotAt(c, a, r, p) == SlotAt(c, b, r, p)
  {
  }
}
