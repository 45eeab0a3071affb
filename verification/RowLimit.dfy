/**
 The load bound is tight.  Any number of writers that read the item count before
 any of them adds to it pass the check together, so the limit is exceeded by all
 of them but one.
 */
module RowLimit {
  import opened Wrappers
  import opened Words
  import opened Bytes
  import opened Probing
  import opened RowBlock
  import opened RowBlockRead
  import opened RowProtocol
  import opened RowProtocolInv
  import opened RowProtocolResults
  import opened RowAdmission
  import opened RowReach

  /** No thread is between its reservation and the counting of its item. */
  ghost predicate Waiting(s: State) {
    forall t :: 0 <= t < |s.threads| ==> s.threads[t].pc.Idle? || s.threads[t].pc.LoadPending? || s.threads[t].pc.Release?
  }

  lemma {:induction false} NoneIs(kind: Kind, ts: seq<Thread>)
    requires forall t :: 0 <= t < |ts| ==> !Is(kind, ts[t])
    ensures Count(kind, ts) == 0
  {
    if ts != [] { NoneIs(kind, ts[1..]); }
  }

  lemma WaitingCounts(c: Config, s: State)
    requires Inv(c, s) && Waiting(s)
    ensures s.pending == Count(Reserved, s.threads) && s.itemCount == Occupied(s.owner) && s.nextSequence < TWO64
  {
    hide ExtentsOk, Ordered, BlocksOk, FilesOk, SlotsOk, IndexOk, TableOk, ThreadsOk;
    NoneIs(Uncounted, s.threads);
  }

  lemma IdlePending(c: Config, s: State)
    requires Inv(c, s) && AllIdle(s)
    ensures s.pending == 0 && Waiting(s)
  {
    hide ExtentsOk, Ordered, BlocksOk, FilesOk, SlotsOk, IndexOk, TableOk, ThreadsOk;
    NoneIs(Reserved, s.threads);
  }

  lemma WaitingBuckets(c: Config, s: State, i: nat)
    requires Inv(c, s) && Waiting(s) && i < |s.slots|
    ensures i < |s.owner|
    ensures s.slots[i].state == if s.owner[i] == None then Empty else Filled
    ensures s.owner[i].Some? ==> s.owner[i].value in s.index
  {
    hide ExtentsOk, Ordered, BlocksOk, FilesOk, IndexOk, TableOk, ThreadsOk, CountsOk;
    assert SlotOk(c, s, i);
  }

  /** The empty bucket that a probe for an absent row ends at. */
  lemma FirstEmpty(c: Config, s: State, r: Row) returns (p: nat)
    requires Inv(c, s) && Waiting(s) && r !in s.index && HasRoom(s.owner)
    ensures Clear(c, s, r, p) && p < |s.slots| && s.slots[SlotAt(c, s, r, p)].state == Empty
  {
    hide Inv, Waiting, Chained, Distinct, Dist, At;
    InvShape(c, s);
    InvChained(c, s);
    FindIsLookup(s.owner, c.RowHome(), r);
    var i, start := Find(s.owner, c.RowHome(), r), c.Start(r, |s.slots|);
    AbsentIsNone(c, s, r, i);
    WaitingBuckets(c, s, i);
    p := Dist(start, i, |s.slots|);
    AtDist(start, i, |s.slots|);
    forall k | 0 <= k < p ensures s.slots[SlotAt(c, s, r, k)].state == Filled && s.owner[SlotAt(c, s, r, k)] != Some(r) {
      DistOf(start, k, |s.slots|);
      WaitingBuckets(c, s, SlotAt(c, s, r, k));
    }
  }

  lemma InvChained(c: Config, s: State)
    requires Inv(c, s)
    ensures Chained(s.owner, c.RowHome())
  {
  }

  lemma AbsentIsNone(c: Config, s: State, r: Row, i: nat)
    requires Inv(c, s) && Waiting(s) && r !in s.index && i < |s.owner|
    requires s.owner[i] == (if Probing.Holds(s.owner, r) then Some(r) else None)
    ensures s.owner[i] == None
  {
    hide Inv, Waiting;
    InvShape(c, s);
    WaitingBuckets(c, s, i);
  }

  // ---- One insert -------------------------------------------------------------------------------

  /** A row and entries that a write may be given, whatever its sequence. */
  ghost predicate Insertable(c: Config, r: Row, entries: seq<Entry>) {
    r.id < TWO64 && |r.column| < TWO32 && entries != [] && forall q: nat :: q < TWO64 ==> Writable(c.h, c.sizing, r, entries, q)
  }

  /** A write begins and loads the item count. */
  lemma BeginsInsert(c: Config, s: State, cast: Cast, a: State, t: nat, r: Row, entries: seq<Entry>) returns (b: State)
    requires Reach(c, s, cast, a) && Inv(c, a) && t in cast && cast[t] == Anything && t < |a.threads| && a.threads[t].pc.Idle?
    requires Insertable(c, r, entries)
    ensures Reach(c, s, cast, b) && Inv(c, b)
    ensures b == a.(threads := a.threads[t := Thread(PutRow(r, entries), 0, LoadPending(a.itemCount))])
  {
    hide Inv, Reach, Grows, Writable;
    InvShape(c, a);
    var d := a.(threads := a.threads[t := Thread(PutRow(r, entries), 0, LoadItems)]);
    assert Begin(a, d, t, PutRow(r, entries));
    Moves(c, s, cast, a, d, t);
    InvShape(c, d);
    b := Goto(d, t, LoadPending(d.itemCount));
    Moves(c, s, cast, d, b, t);
  }

  /** It loads the pending count and reserves its place, if the two counts let it. */
  lemma Reserves(c: Config, s: State, cast: Cast, a: State, t: nat, v: nat) returns (b: State)
    requires Reach(c, s, cast, a) && Inv(c, a) && t in cast && t < |a.threads| && a.threads[t].pc == LoadPending(v)
    requires |a.slots| > 0 && !c.OverLoad(v + a.pending + 1, |a.slots|)
    ensures Reach(c, s, cast, b) && Inv(c, b) && OthersWait(a, b, t)
    ensures b == a.(pending := a.pending + 1, threads := a.threads[t := a.threads[t].(pc := TakeSequence)])
  {
    hide Inv, Reach, Grows, OthersWait, Config.OverLoad;
    InvShape(c, a);
    var d := Goto(a, t, TryReserve(v, a.pending));
    Moves(c, s, cast, a, d, t);
    InvShape(c, d);
    b := Goto(d.(pending := a.pending + 1), t, TakeSequence);
    Moves(c, s, cast, d, b, t);
    WaitLonger(a, d, b, t);
  }

  /** With its block written, it probes to an empty bucket, claims it and publishes. */
  lemma InsertsBucket(c: Config, s: State, cast: Cast, a: State, t: nat, p: nat) returns (b: State)
    requires Reach(c, s, cast, a) && Inv(c, a) && t in cast && t < |a.threads| && a.threads[t].pc == Probing(0) && a.threads[t].op.PutRow?
    requires Clear(c, a, a.threads[t].op.row, p) && p < |a.slots| && a.slots[SlotAt(c, a, a.threads[t].op.row, p)].state == Empty
    ensures Reach(c, s, cast, b) && Inv(c, b) && OthersWait(a, b, t) && SameCounts(a, b)
    ensures b.index.Keys == a.index.Keys + {a.threads[t].op.row}
    ensures t < |b.threads| && b.threads[t] == a.threads[t].(pc := CountItem)
  {
    hide Inv, Reach, Grows, OthersWait, Clear, SlotAt, SettledAt;
    var r := a.threads[t].op.row;
    var x1 := PassesTo(c, s, cast, a, t, 0, p);
    InvShape(c, x1);
    SameSlot(c, a, x1, r, p);
    var x2 := DoProbe(c, x1, t, p);
    Moves(c, s, cast, x1, x2, t);
    InvShape(c, x2);
    SameSlot(c, a, x2, r, p);
    var d := DoCasEmpty(c, x2, t, p);
    b := Completes(c, s, cast, x2, d, t, p, true);
    MovedOn(a, x2, b, t);
  }

  lemma MovedOn(a: State, b: State, d: State, t: nat)
    requires OthersWait(b, d, t) && t < |a.threads| && t < |b.threads| && b == a.(threads := a.threads[t := b.threads[t]])
    ensures OthersWait(a, d, t)
  {
    hide FateLasts, SameExtent;
  }

  /** It counts its item. */
  lemma CountsItem(c: Config, s: State, cast: Cast, a: State, t: nat) returns (b: State)
    requires Reach(c, s, cast, a) && Inv(c, a) && t in cast && t < |a.threads| && a.threads[t].pc.CountItem? && a.threads[t].op.PutRow?
    ensures Reach(c, s, cast, b) && Inv(c, b) && OthersWait(a, b, t)
    ensures b == a.(itemCount := a.itemCount + 1, threads := a.threads[t := a.threads[t].(pc := Release(Stored))])
  {
    hide Inv, Reach, Grows, OthersWait;
    InvShape(c, a);
    b := Goto(a.(itemCount := a.itemCount + 1), t, After(a.threads[t].op, Stored));
    Moves(c, s, cast, a, b, t);
  }

  /** It gives its reservation back. */
  lemma Releases(c: Config, s: State, cast: Cast, a: State, t: nat) returns (b: State)
    requires Reach(c, s, cast, a) && Inv(c, a) && t in cast && t < |a.threads| && a.threads[t].pc == Release(Stored) && a.pending > 0
    requires a.threads[t].op.PutRow?
    ensures Reach(c, s, cast, b) && Inv(c, b) && OthersWait(a, b, t)
    ensures b == a.(pending := a.pending - 1, threads := a.threads[t := a.threads[t].(pc := Idle(Stored))])
  {
    hide Inv, Reach, Grows, OthersWait;
    InvShape(c, a);
    b := Goto(a.(pending := a.pending - 1), t, Idle(Stored));
    Moves(c, s, cast, a, b, t);
  }

  /** A write that has loaded the item count adds and counts its row, as long as the counts let it, and keeps its reservation. */
  lemma InsertsCounted(c: Config, s: State, cast: Cast, a: State, t: nat, v: nat, r: Row, entries: seq<Entry>) returns (b: State)
    requires Reach(c, s, cast, a) && Inv(c, a) && Waiting(a) && t in cast && t < |a.threads|
    requires a.threads[t].op == PutRow(r, entries) && a.threads[t].pc == LoadPending(v) && Insertable(c, r, entries)
    requires v + a.pending < Limit(c.f, |a.slots|) && r !in a.index && a.itemCount < |a.slots|
    ensures Reach(c, s, cast, b) && Inv(c, b) && Waiting(b) && |b.slots| == |a.slots| && |b.threads| == |a.threads|
    ensures b.itemCount == a.itemCount + 1 && b.pending == a.pending + 1 && b.index.Keys == a.index.Keys + {r}
    ensures b.threads[t].pc == Release(Stored) && b.threads[t].op == PutRow(r, entries)
    ensures forall u :: 0 <= u < |a.threads| && u != t ==> b.threads[u] == a.threads[u]
  {
    hide *;
    InvShape(c, a);
    ShapeFacts(c, a);
    WaitingCounts(c, a);
    OccupiedRoom(a.owner);
    var p := FirstEmpty(c, a, r);
    var x1 := ReservesAndWrites(c, s, cast, a, t, v, r, entries);
    SameTableFacts(a, x1);
    ClearMoves(c, a, x1, r, p);
    SameSlot(c, a, x1, r, p);
    var x2 := InsertsBucket(c, s, cast, x1, t, p);
    SameCountsFacts(x1, x2);
    b := CountsItem(c, s, cast, x2, t);
    WaitLonger(a, x1, x2, t);
    WaitLonger(a, x2, b, t);
    WaitSizes(a, b, t);
    WaitsOn(a, b, t);
  }

  /** The same with the reservation given back. */
  lemma Inserts(c: Config, s: State, cast: Cast, a: State, t: nat, v: nat, r: Row, entries: seq<Entry>) returns (b: State)
    requires Reach(c, s, cast, a) && Inv(c, a) && Waiting(a) && t in cast && t < |a.threads|
    requires a.threads[t].op == PutRow(r, entries) && a.threads[t].pc == LoadPending(v) && Insertable(c, r, entries)
    requires v + a.pending < Limit(c.f, |a.slots|) && r !in a.index && a.itemCount < |a.slots|
    ensures Reach(c, s, cast, b) && Inv(c, b) && Waiting(b) && |b.slots| == |a.slots| && |b.threads| == |a.threads|
    ensures b.itemCount == a.itemCount + 1 && b.pending == a.pending && b.index.Keys == a.index.Keys + {r}
    ensures b.threads[t].pc == Idle(Stored)
    ensures forall u :: 0 <= u < |a.threads| && u != t ==> b.threads[u] == a.threads[u]
  {
    hide *;
    var d := InsertsCounted(c, s, cast, a, t, v, r, entries);
    b := Releases(c, s, cast, d, t);
    WaitSizes(d, b, t);
    WaitsOn(d, b, t);
  }

  lemma ShapeFacts(c: Config, s: State)
    requires Shape(c, s)
    ensures |s.slots| == |s.owner| > 0
  {
  }

  lemma SameTableFacts(a: State, b: State)
    requires SameTable(a, b)
    ensures b.slots == a.slots && b.owner == a.owner && b.index == a.index
  {
  }

  lemma SameCountsFacts(a: State, b: State)
    requires SameCounts(a, b)
    ensures b.itemCount == a.itemCount && b.pending == a.pending
  {
  }

  lemma WaitsOn(a: State, b: State, t: nat)
    requires Waiting(a) && |b.threads| == |a.threads| && t < |a.threads| && (b.threads[t].pc.Idle? || b.threads[t].pc.Release?)
    requires forall u :: 0 <= u < |a.threads| && u != t ==> b.threads[u] == a.threads[u]
    ensures Waiting(b)
  {
  }

  lemma ReservesAndWrites(c: Config, s: State, cast: Cast, a: State, t: nat, v: nat, r: Row, entries: seq<Entry>) returns (b: State)
    requires Reach(c, s, cast, a) && Inv(c, a) && t in cast && t < |a.threads| && a.nextSequence < TWO64
    requires a.threads[t].op == PutRow(r, entries) && a.threads[t].pc == LoadPending(v) && Insertable(c, r, entries)
    requires |a.slots| > 0 && v + a.pending < Limit(c.f, |a.slots|)
    ensures Reach(c, s, cast, b) && Inv(c, b) && OthersWait(a, b, t) && SameTable(a, b)
    ensures b.itemCount == a.itemCount && b.pending == a.pending + 1
    ensures t < |b.threads| && b.threads[t].op == PutRow(r, entries) && b.threads[t].pc == Probing(0)
  {
    hide Inv, Reach, Grows, OthersWait, Writable, Limit, Config.OverLoad, Shape;
    InvShape(c, a);
    LoadIsLimit(c, v + a.pending + 1, |a.slots|);
    var d := Reserves(c, s, cast, a, t, v);
    b := WritesBlock(c, s, cast, d, t);
    WaitLonger(a, d, b, t);
  }

  // ---- Many inserts --------------------------------------------------------------------------------

  /** Every thread may do anything. */
  function Everyone(n: nat): (cast: Cast)
    ensures forall t: nat :: t in cast <==> t < n
    ensures forall t :: t in cast ==> cast[t] == Anything
  {
    if n == 0 then map[] else Everyone(n - 1)[n - 1 := Anything]
  }

  /** Threads from `k` on are about to insert their rows, having seen `v` items. */
  ghost predicate Ready(s: State, rows: seq<Row>, entries: seq<Entry>, k: nat, v: nat) {
    |rows| <= |s.threads| && forall t :: k <= t < |rows| ==> s.threads[t] == Thread(PutRow(rows[t], entries), 0, LoadPending(v))
  }

  lemma {:induction false} AllBegin(c: Config, s: State, a: State, rows: seq<Row>, entries: seq<Entry>, k: nat) returns (b: State)
    requires var cast := Everyone(|s.threads|); Reach(c, s, cast, a)
    requires Inv(c, a) && Waiting(a) && |a.threads| == |s.threads| && k <= |rows| <= |a.threads|
    requires forall t :: 0 <= t < k ==> a.threads[t].pc.Idle?
    requires Ready(a, rows, entries, k, a.itemCount) && forall t :: 0 <= t < |rows| ==> Insertable(c, rows[t], entries)
    ensures Reach(c, s, Everyone(|s.threads|), b) && Inv(c, b) && Waiting(b) && Ready(b, rows, entries, 0, a.itemCount)
    ensures b == a.(threads := b.threads) && |b.threads| == |a.threads|
    decreases k
  {
    hide Inv, Reach, Insertable;
    if k == 0 {
      b := a;
    } else {
      var d := BeginsInsert(c, s, Everyone(|s.threads|), a, k - 1, rows[k - 1], entries);
      b := AllBegin(c, s, d, rows, entries, k - 1);
    }
  }

  lemma {:induction false} AllInsert(c: Config, s: State, a: State, rows: seq<Row>, entries: seq<Entry>, k: nat, v: nat) returns (b: State)
    requires Reach(c, s, Everyone(|s.threads|), a) && Inv(c, a) && Waiting(a) && |a.threads| == |s.threads| && k <= |rows|
    requires Ready(a, rows, entries, k, v) && (forall t :: k <= t < |rows| ==> Insertable(c, rows[t], entries) && rows[t] !in a.index)
    requires forall i, j :: 0 <= i < j < |rows| ==> rows[i] != rows[j]
    requires v < Limit(c.f, |a.slots|) && a.itemCount + (|rows| - k) <= |a.slots| && a.pending == 0
    ensures Reach(c, s, Everyone(|s.threads|), b) && Inv(c, b) && b.itemCount == a.itemCount + (|rows| - k)
    decreases |rows| - k
  {
    hide Inv, Reach, Insertable, Waiting, Limit;
    if k == |rows| {
      b := a;
    } else {
      var d := Inserts(c, s, Everyone(|s.threads|), a, k, v, rows[k], entries);
      b := AllInsert(c, s, d, rows, entries, k + 1, v);
    }
  }

  lemma IdleAre(s: State)
    requires AllIdle(s)
    ensures forall t :: 0 <= t < |s.threads| ==> s.threads[t].pc.Idle?
  {
  }

  /** Threads that have all read the same item count insert one row each. */
  lemma ReachesMore(c: Config, s: State, a: State, rows: seq<Row>, entries: seq<Entry>) returns (b: State)
    requires Reach(c, s, Everyone(|s.threads|), a) && Inv(c, a) && AllIdle(a) && |rows| <= |a.threads| == |s.threads|
    requires forall t :: 0 <= t < |rows| ==> Insertable(c, rows[t], entries) && rows[t] !in a.index
    requires forall i, j :: 0 <= i < j < |rows| ==> rows[i] != rows[j]
    requires a.itemCount < Limit(c.f, |a.slots|) && a.itemCount + |rows| <= |a.slots|
    ensures Reach(c, s, Everyone(|s.threads|), b) && Inv(c, b) && b.itemCount == a.itemCount + |rows|
  {
    hide Inv, Reach, Insertable, Limit, AllIdle, Waiting;
    IdlePending(c, a);
    IdleAre(a);
    var d := AllBegin(c, s, a, rows, entries, |rows|);
    b := AllInsert(c, s, d, rows, entries, 0, a.itemCount);
  }

  /** A run to a reached state. */
  lemma RunOf(c: Config, s: State, cast: Cast, b: State) returns (states: seq<State>, who: seq<nat>)
    requires Reach(c, s, cast, b)
    ensures Run(c, states, who) && |states| == |who| + 1 && states[0] == s && states[|who|] == b
  {
    hide Step;
    states, who :| RunsTo(c, s, cast, b, states, who);
  }

  lemma EveryoneStarts(c: Config, s: State)
    requires c.Valid()
    ensures Reach(c, s, Everyone(|s.threads|), s)
  {
    ReachNone(c, s, Everyone(|s.threads|));
  }

  /**
   The bound of `AdmissionBound` is reached.  From any quiescent state with one item
   less than the limit, for any number of idle threads and as many absent rows that
   the table still has buckets for, there is a run that counts them all: the limit
   is exceeded by the number of writers less one.
   */
  lemma LimitIsReached(c: Config, s: State, rows: seq<Row>, entries: seq<Entry>) returns (states: seq<State>, who: seq<nat>)
    requires Inv(c, s) && AllIdle(s) && 1 <= |rows| <= |s.threads|
    requires forall t :: 0 <= t < |rows| ==> Insertable(c, rows[t], entries) && rows[t] !in s.index
    requires forall i, j :: 0 <= i < j < |rows| ==> rows[i] != rows[j]
    requires s.itemCount == Limit(c.f, |s.slots|) - 1 && Limit(c.f, |s.slots|) + |rows| - 1 <= |s.slots|
    ensures Run(c, states, who) && |states| == |who| + 1 && states[0] == s
    ensures states[|who|].itemCount == Limit(c.f, |s.slots|) + |rows| - 1
  {
    hide Inv, Reach, Insertable, Limit, AllIdle;
    InvShape(c, s);
    EveryoneStarts(c, s);
    var b := ReachesMore(c, s, s, rows, entries);
    states, who := RunOf(c, s, Everyone(|s.threads|), b);
  }

  // ---- When the limit holds ------------------------------------------------------------------------

  /** The first rows of a column with an empty name. */
  function RowsBelow(m: nat): set<Row> { set k: nat | k < m :: Row([], k) }

  lemma RowsBelowMore(m: nat)
    ensures RowsBelow(m + 1) == RowsBelow(m) + {Row([], m)} && Row([], m) !in RowsBelow(m)
  {
  }

  ghost predicate RowsInsertable(c: Config, entries: seq<Entry>) { forall k: nat :: k < TWO64 ==> Insertable(c, Row([], k), entries) }

  /** One thread fills the table up to the limit. */
  lemma {:induction false} FillsTo(c: Config, s: State, a: State, m: nat, entries: seq<Entry>) returns (b: State)
    requires Reach(c, s, Everyone(|s.threads|), a) && Inv(c, a) && AllIdle(a) && 1 <= |a.threads| == |s.threads|
    requires a.itemCount <= m <= Limit(c.f, |a.slots|) && a.index.Keys == RowsBelow(a.itemCount) && m <= |a.slots| && m <= TWO64
    requires RowsInsertable(c, entries)
    ensures Reach(c, s, Everyone(|s.threads|), b) && Inv(c, b) && AllIdle(b) && |b.threads| == |s.threads| && |b.slots| == |a.slots|
    ensures b.itemCount == m && b.index.Keys == RowsBelow(m)
    decreases m - a.itemCount
  {
    hide Inv, Reach, Insertable, Limit, RowsBelow;
    if a.itemCount == m {
      b := a;
    } else {
      var r := Row([], a.itemCount);
      RowsBelowMore(a.itemCount);
      var cast := Everyone(|s.threads|);
      IdlePending(c, a);
      var d := BeginsInsert(c, s, cast, a, 0, r, entries);
      var f := Inserts(c, s, cast, d, 0, a.itemCount, r, entries);
      b := FillsTo(c, s, f, m, entries);
    }
  }

  /** No run from `start` ever counts more items than this. */
  ghost predicate StaysWithin(c: Config, start: State, bound: int) {
    forall states: seq<State>, who, i :: Run(c, states, who) && states[0] == start && 0 <= i < |states| ==> states[i].itemCount <= bound
  }

  lemma Exceeds(c: Config, states: seq<State>, who: seq<nat>, start: State, bound: int)
    requires Run(c, states, who) && states[0] == start && states[|who|].itemCount > bound
    ensures !StaysWithin(c, start, bound)
  {
  }

  /** Two threads exceed the limit of a new database. */
  lemma TwoExceed(c: Config, s: State, entries: seq<Entry>)
    requires Inv(c, s) && AllIdle(s) && |s.threads| >= 2 && s.itemCount == 0 && s.index == map[]
    requires 1 <= Limit(c.f, |s.slots|) < |s.slots| <= TWO64 && RowsInsertable(c, entries)
    ensures !StaysWithin(c, s, Limit(c.f, |s.slots|))
  {
    hide Inv, Reach, Insertable, Limit, RowsBelow, AllIdle, Run, StaysWithin;
    var l := Limit(c.f, |s.slots|);
    InvShape(c, s);
    EveryoneStarts(c, s);
    NoRowsBelow();
    var a := FillsTo(c, s, s, l - 1, entries);
    RowsBelowMore(l - 1);
    NotBelow(l);
    var b := ReachesMore(c, s, a, [Row([], l - 1), Row([], l)], entries);
    var states, who := RunOf(c, s, Everyone(|s.threads|), b);
    Exceeds(c, states, who, s, l);
  }

  lemma NoRowsBelow()
    ensures RowsBelow(0) == {}
  {
  }

  lemma NotBelow(l: nat)
    requires l >= 1
    ensures Row([], l - 1) !in RowsBelow(l - 1) && Row([], l) !in RowsBelow(l - 1)
  {
  }

  /** One thread stays within the limit. */
  lemma OneStaysWithin(c: Config, s: State)
    requires Inv(c, s) && AllIdle(s) && |s.threads| <= 1 && s.itemCount == 0
    ensures StaysWithin(c, s, Limit(c.f, |s.slots|))
  {
    hide Inv, AllIdle, Limit, Step;
    InvShape(c, s);
    forall states: seq<State>, who, i | Run(c, states, who) && states[0] == s && 0 <= i < |states|
      ensures states[i].itemCount <= Limit(c.f, |s.slots|)
    {
      FewThreads(c, states, who);
      AdmissionBound(c, states, who, i, 1);
      LoadIsLimit(c, 0, |s.slots|);
      RunKeepsInvariant(c, states, who, i);
      CountedAreOccupied(c, states[i]);
    }
  }

  lemma CountedAreOccupied(c: Config, s: State)
    requires Inv(c, s)
    ensures s.itemCount <= Occupied(s.owner)
  {
  }

  lemma FewThreads(c: Config, states: seq<State>, who: seq<nat>)
    requires Run(c, states, who) && Inv(c, states[0]) && |states[0].threads| <= 1
    ensures AtMostWriters(states, 1)
  {
    hide Inv, Step;
    forall i | 0 <= i < |states| ensures Count(Writers, states[i].threads) <= 1 { RunGrows(c, states, who, 0, i); }
  }

  // ---- A limit of zero --------------------------------------------------------------------------------

  predicate BeforeReserving(th: Thread) { th.op.GetRow? || th.pc.Idle? || th.pc.LoadItems? || th.pc.LoadPending? || th.pc.TryReserve? }

  /** Nothing was ever admitted. */
  ghost predicate NoneAdmitted(s: State) {
    s.itemCount == 0 && s.index == map[] && forall t :: 0 <= t < |s.threads| ==> BeforeReserving(s.threads[t])
  }

  lemma ReadingCounts(c: Config, s: State, s': State, t: nat)
    requires c.Valid() && Shape(c, s) && Step(c, s, s', t) && s.threads[t].op.GetRow? && IsReading(s.threads[t].pc)
    ensures s'.itemCount == s.itemCount && s'.index == s.index && |s'.threads| == |s.threads| && s'.threads[t].op == s.threads[t].op
  {
    hide SlotAt, ParseBlockHeader, IsValidRowBlockHeader, ShardRead, FindValue;
  }

  lemma ReaderReads(c: Config, s: State, t: nat)
    requires Inv(c, s) && t < |s.threads| && s.threads[t].op.GetRow?
    ensures s.threads[t].pc.Idle? || IsReading(s.threads[t].pc)
  {
    hide ExtentsOk, Ordered, BlocksOk, FilesOk, SlotsOk, IndexOk, TableOk, CountsOk;
    assert ThreadOk(c, s, t);
  }

  lemma WaitingCounted(c: Config, s: State, s': State, t: nat)
    requires c.Valid() && Shape(c, s) && Step(c, s, s', t) && s.index == map[] && Limit(c.f, |s.slots|) == 0
    requires s.threads[t].pc.Idle? || s.threads[t].pc.LoadItems? || s.threads[t].pc.LoadPending? || s.threads[t].pc.TryReserve?
    ensures s'.itemCount == s.itemCount && s'.index == s.index && |s'.threads| == |s.threads| && BeforeReserving(s'.threads[t])
  {
    hide Config.OverLoad, Limit;
    if s.threads[t].pc.TryReserve? {
      LoadIsLimit(c, s.threads[t].pc.items + s.threads[t].pc.pend + 1, |s.slots|);
    }
  }

  lemma StepAdmitsNone(c: Config, s: State, s': State, t: nat)
    requires Inv(c, s) && Step(c, s, s', t) && NoneAdmitted(s) && Limit(c.f, |s.slots|) == 0
    ensures NoneAdmitted(s')
  {
    hide Inv, Step, Limit;
    InvShape(c, s);
    StepExtends(c, s, s', t);
    MoverExists(c, s, s', t);
    if s.threads[t].op.GetRow? && !s.threads[t].pc.Idle? {
      ReaderReads(c, s, t);
      ReadingCounts(c, s, s', t);
    } else {
      WaitingCounted(c, s, s', t);
    }
  }

  lemma MoverExists(c: Config, s: State, s': State, t: nat)
    requires c.Valid() && Shape(c, s) && Step(c, s, s', t)
    ensures t < |s.threads|
  {
  }

  lemma {:induction false} NoneEverAdmitted(c: Config, states: seq<State>, who: seq<nat>, i: nat)
    requires Run(c, states, who) && Inv(c, states[0]) && NoneAdmitted(states[0]) && Limit(c.f, |states[0].slots|) == 0 && i < |states|
    ensures NoneAdmitted(states[i])
  {
    hide Inv, Step, NoneAdmitted, Limit;
    if i > 0 {
      NoneEverAdmitted(c, states, who, i - 1);
      RunKeepsInvariant(c, states, who, i - 1);
      RunGrows(c, states, who, 0, i - 1);
      StepAdmitsNone(c, states[i - 1], states[i], who[i - 1]);
    }
  }

  lemma ZeroStaysWithin(c: Config, s: State)
    requires Inv(c, s) && AllIdle(s) && s.itemCount == 0 && s.index == map[] && Limit(c.f, |s.slots|) == 0
    ensures StaysWithin(c, s, 0)
  {
    hide Inv, Step, Limit;
    forall states: seq<State>, who, i | Run(c, states, who) && states[0] == s && 0 <= i < |states| ensures states[i].itemCount <= 0 {
      NoneEverAdmitted(c, states, who, i);
    }
  }

  /**
   When the load limit holds: the runs of a new database all stay within it if and
   only if the database has at most one thread, or the limit admits nothing at all.
   */
  lemma LimitHoldsIff(c: Config, initialRowBucketCount: nat, threads: nat, header: seq<byte>, entries: seq<Entry>)
    requires c.Valid() && |header| == ROW_FILE_HEADER_SIZE && initialRowBucketCount <= Pow2(63) && RowsInsertable(c, entries)
    ensures var s := Fresh(c, initialRowBucketCount, threads, header);
      StaysWithin(c, s, Limit(c.f, |s.slots|)) <==> threads <= 1 || Limit(c.f, |s.slots|) == 0
  {
    hide Inv, StaysWithin, Limit, RowsInsertable, RoundUp, Pow2;
    var s := Fresh(c, initialRowBucketCount, threads, header);
    FreshIsGood(c, initialRowBucketCount, threads, header);
    RoundUpIsLeast(initialRowBucketCount);
    WordsFit();
    LoadIsLimit(c, 0, |s.slots|);
    if threads <= 1 { OneStaysWithin(c, s); }
    else if Limit(c.f, |s.slots|) == 0 { ZeroStaysWithin(c, s); }
    else { TwoExceed(c, s, entries); }
  }

  lemma WordsFit()
    ensures Pow2(63) <= TWO64
  {
    assert Pow2(2) == 4 && Pow2(4) == 16 && Pow2(6) == 64 && Pow2(8) == 256;
    Pow2Sum(8, 8);
    Pow2Sum(16, 16);
    Pow2Sum(32, 32);
    assert Pow2(64) == 2 * Pow2(63);
  }

  lemma {:induction false} Pow2Sum(a: nat, b: nat)
    ensures Pow2(a + b) == Pow2(a) * Pow2(b)
  {
    if a > 0 { Pow2Sum(a - 1, b); }
  }
}
