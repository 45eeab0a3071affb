/**
 Open addressing with linear probing, for every key type and every hash.

 A table is a sequence of slots, each empty or holding a key.  The object index,
 the row index and the key table of a row block are all tables of this shape;
 they differ in what a key is and in how a slot stores it.
 */
module Probing {
  import opened Wrappers
  import opened Words

  /** The slot reached after `p` steps from `start`. */
  function At(start: nat, p: nat, n: nat): (i: nat)
    requires start < n && p < n
    ensures i < n
  {
    if start + p < n then start + p else start + p - n
  }

  /** How many steps from `start` reach slot `i`. */
  function Dist(start: nat, i: nat, n: nat): (d: nat)
    requires start < n && i < n
    ensures d < n && At(start, d, n) == i
  {
    if i >= start then i - start else i + n - start
  }

  lemma DistAt(start: nat, p: nat, n: nat)
    requires start < n && p < n
    ensures Dist(start, At(start, p, n), n) == p
  {
  }

  /** The masked step of the source, `(start + p) & (count - 1)`, is `At` for a power of two. */
  lemma MaskedStep(start: nat, p: nat, k: nat)
    requires start < Pow2(k) && p < Pow2(k)
    ensures Start(start + p, Pow2(k)) == At(start, p, Pow2(k))
  {
    var n := Pow2(k);
    MaskIsRemainder(start + p, k);
    if start + p < n {
      DivUnique(start + p, n, 0, start + p);
    } else {
      DivUnique(start + p, n, 1, start + p - n);
    }
  }

  function Home<K>(home: K -> nat, k: K, n: nat): (s: nat)
    requires n > 0
    ensures s < n
  {
    Start(home(k), n)
  }

  /** Every slot on the way from a key's first slot to the slot that holds it is occupied. */
  ghost predicate Chained<K(!new)>(t: seq<Option<K>>, home: K -> nat) {
    forall i, j :: 0 <= i < |t| && 0 <= j < |t| && t[i].Some?
      && Dist(Home(home, t[i].value, |t|), j, |t|) < Dist(Home(home, t[i].value, |t|), i, |t|)
      ==> t[j].Some?
  }

  ghost predicate Distinct<K(!new)>(t: seq<Option<K>>) {
    forall i, j :: 0 <= i < |t| && 0 <= j < |t| && t[i].Some? && t[i] == t[j] ==> i == j
  }

  ghost predicate Holds<K(!new)>(t: seq<Option<K>>, k: K) {
    Some(k) in t
  }

  ghost predicate HasRoom<K(!new)>(t: seq<Option<K>>) { None in t }

  /** The first `p` probes for `k` met only other keys. */
  ghost predicate Passed<K(!new)>(t: seq<Option<K>>, k: K, start: nat, p: nat)
    requires start < |t|
  {
    forall j :: 0 <= j < |t| && Dist(start, j, |t|) < p ==> t[j].Some? && t[j].value != k
  }

  /** The slot where a probe for `k` stops: one that holds `k` or is empty, or the table size if there is none. */
  function Probe<K(==)>(t: seq<Option<K>>, k: K, start: nat, p: nat): (i: nat)
    requires start < |t| && p <= |t|
    ensures i <= |t| && (i < |t| ==> t[i] == None || t[i] == Some(k))
    decreases |t| - p
  {
    if p == |t| then |t|
    else
      var i := At(start, p, |t|);
      if t[i] == None || t[i] == Some(k) then i else Probe(t, k, start, p + 1)
  }

  function Find<K(==)>(t: seq<Option<K>>, home: K -> nat, k: K): (i: nat)
    requires |t| > 0
    ensures i <= |t| && (i < |t| ==> t[i] == None || t[i] == Some(k))
  {
    Probe(t, k, Home(home, k, |t|), 0)
  }

  lemma {:induction false} ProbeStops<K(!new)>(t: seq<Option<K>>, k: K, start: nat, p: nat)
    requires start < |t| && p <= |t| && Passed(t, k, start, p)
    ensures var i := Probe(t, k, start, p);
      if i == |t| then forall j :: 0 <= j < |t| ==> t[j].Some? && t[j].value != k
      else Passed(t, k, start, Dist(start, i, |t|))
    decreases |t| - p
  {
    if p < |t| {
      var i := At(start, p, |t|);
      if t[i] == None || t[i] == Some(k) {
      } else {
        PassedMore(t, k, start, p);
        ProbeStops(t, k, start, p + 1);
      }
    }
  }

  lemma PassedMore<K(!new)>(t: seq<Option<K>>, k: K, start: nat, p: nat)
    requires start < |t| && p < |t| && Passed(t, k, start, p)
    requires var i := At(start, p, |t|); t[i].Some? && t[i].value != k
    ensures Passed(t, k, start, p + 1)
  {
    forall j | 0 <= j < |t| && Dist(start, j, |t|) < p + 1
      ensures t[j].Some? && t[j].value != k
    {
      if Dist(start, j, |t|) == p { assert At(start, p, |t|) == j; }
    }
  }

  lemma PassedNone<K(!new)>(t: seq<Option<K>>, k: K, start: nat)
    requires start < |t|
    ensures Passed(t, k, start, 0)
  {
  }

  /** Probing every slot without stopping means the table is full. */
  lemma PassedAll<K(!new)>(t: seq<Option<K>>, k: K, start: nat)
    requires start < |t| && Passed(t, k, start, |t|)
    ensures !HasRoom(t)
  {
  }

  /** In a chained table, an empty slot at the end of a probe proves that the key is nowhere. */
  lemma EmptyMeansAbsent<K(!new)>(t: seq<Option<K>>, home: K -> nat, k: K, i: nat)
    requires i < |t| && t[i] == None && Chained(t, home)
    requires Passed(t, k, Home(home, k, |t|), Dist(Home(home, k, |t|), i, |t|))
    ensures !Holds(t, k)
  {
    var start := Home(home, k, |t|);
    if Holds(t, k) {
      var j :| 0 <= j < |t| && t[j] == Some(k);
      assert false;
    }
  }

  /** Looking a key up finds exactly the slot that holds it, or an empty slot when it is absent. */
  lemma FindIsLookup<K(!new)>(t: seq<Option<K>>, home: K -> nat, k: K)
    requires |t| > 0 && Chained(t, home) && HasRoom(t)
    ensures var i := Find(t, home, k);
      i < |t| && t[i] == (if Holds(t, k) then Some(k) else None)
      && Passed(t, k, Home(home, k, |t|), Dist(Home(home, k, |t|), i, |t|))
  {
    var start := Home(home, k, |t|);
    assert Passed(t, k, start, 0);
    ProbeStops(t, k, start, 0);
    var i := Find(t, home, k);
    if i < |t| && t[i] == None {
      EmptyMeansAbsent(t, home, k, i);
    }
  }

  /** Filling the empty slot a probe ended at keeps every invariant. */
  lemma FillKeeps<K(!new)>(t: seq<Option<K>>, home: K -> nat, k: K, i: nat)
    requires i < |t| && t[i] == None && Chained(t, home) && Distinct(t)
    requires Passed(t, k, Home(home, k, |t|), Dist(Home(home, k, |t|), i, |t|))
    ensures Chained(t[i := Some(k)], home) && Distinct(t[i := Some(k)])
    ensures forall x :: Holds(t[i := Some(k)], x) <==> Holds(t, x) || x == k
  {
    EmptyMeansAbsent(t, home, k, i);
    var u := t[i := Some(k)];
    forall x ensures Holds(u, x) <==> Holds(t, x) || x == k {
      if Holds(t, x) {
        var j :| 0 <= j < |t| && t[j] == Some(x);
        assert u[j] == Some(x);
      }
      assert u[i] == Some(k);
    }
  }

  // ---- Counting -----------------------------------------------------------

  function Occupied<K>(t: seq<Option<K>>): (c: nat)
    ensures c <= |t|
  {
    if t == [] then 0 else (if t[0].Some? then 1 else 0) + Occupied(t[1..])
  }

  lemma {:induction false} OccupiedFill<K>(t: seq<Option<K>>, i: nat, k: K)
    requires i < |t| && t[i] == None
    ensures Occupied(t[i := Some(k)]) == Occupied(t) + 1
  {
    if i == 0 {
      assert t[i := Some(k)][1..] == t[1..];
    } else {
      assert t[i := Some(k)][1..] == t[1..][i - 1 := Some(k)];
      OccupiedFill(t[1..], i - 1, k);
    }
  }

  lemma {:induction false} OccupiedRoom<K(!new)>(t: seq<Option<K>>)
    ensures Occupied(t) < |t| <==> HasRoom(t)
  {
    if t != [] {
      OccupiedRoom(t[1..]);
      if HasRoom(t[1..]) { assert None in t; }
      if HasRoom(t) && t[0].Some? {
        var j :| 0 <= j < |t| && t[j] == None;
        assert t[1..][j - 1] == None;
      }
    }
  }

  lemma {:induction false} OccupiedNone<K>(t: seq<Option<K>>)
    requires forall i :: 0 <= i < |t| ==> t[i] == None
    ensures Occupied(t) == 0
  {
    if t != [] { OccupiedNone(t[1..]); }
  }

  lemma {:induction false} OccupiedAppend<K>(t: seq<Option<K>>, x: Option<K>)
    ensures Occupied(t + [x]) == Occupied(t) + (if x.Some? then 1 else 0)
  {
    if t == [] {
      assert t + [x] == [x] && [x][1..] == [];
    } else {
      assert (t + [x])[1..] == t[1..] + [x];
      OccupiedAppend(t[1..], x);
    }
  }

  /** With distinct keys, the number of occupied slots is the number of keys held. */
  lemma {:induction false} OccupiedIsCardinality<K(!new)>(t: seq<Option<K>>, keys: set<K>)
    requires Distinct(t) && forall k :: k in keys <==> Holds(t, k)
    ensures Occupied(t) == |keys|
  {
    if t == [] {
      assert keys == {} by { forall k ensures k !in keys { assert k in keys <==> Holds(t, k); } }
    } else {
      var rest := t[1..];
      assert Distinct(rest) by {
        forall i, j | 0 <= i < |rest| && 0 <= j < |rest| && rest[i].Some? && rest[i] == rest[j] ensures i == j {
          assert t[i + 1] == t[j + 1];
        }
      }
      var less := if t[0].Some? then keys - {t[0].value} else keys;
      forall k ensures k in less <==> Holds(rest, k) {
        assert k in keys <==> Holds(t, k);
        if Holds(rest, k) {
          var j :| 0 <= j < |rest| && rest[j] == Some(k);
          assert t[j + 1] == Some(k);
        }
        if Holds(t, k) && t[0] != Some(k) {
          var j :| 0 <= j < |t| && t[j] == Some(k);
          assert rest[j - 1] == Some(k);
        }
      }
      if t[0].Some? { assert t[0].value in keys by { assert Holds(t, t[0].value); } }
      OccupiedIsCardinality(rest, less);
    }
  }

  // ---- Building tables ------------------------------------------------------

  /** The table after `k` is put in the slot its probe stops at. */
  function Place<K(==)>(t: seq<Option<K>>, home: K -> nat, k: K): (r: seq<Option<K>>)
    requires |t| > 0
    ensures |r| == |t|
  {
    var i := Find(t, home, k);
    if i < |t| then t[i := Some(k)] else t
  }

  function PlaceAll<K(==)>(t: seq<Option<K>>, home: K -> nat, keys: seq<K>): (r: seq<Option<K>>)
    requires |t| > 0
    ensures |r| == |t|
  {
    if keys == [] then t else Place(PlaceAll(t, home, keys[..|keys| - 1]), home, keys[|keys| - 1])
  }

  /** The keys of a table in slot order. */
  function KeysIn<K>(t: seq<Option<K>>): seq<K> {
    if t == [] then []
    else KeysIn(t[..|t| - 1]) + (if t[|t| - 1].Some? then [t[|t| - 1].value] else [])
  }

  function NoKeys<K>(n: nat): (t: seq<Option<K>>)
    ensures |t| == n
  {
    seq(n, _ => None)
  }

  /** The keys of `t`, placed one after the other into an empty table of `n` slots. */
  function Rehash<K(==)>(t: seq<Option<K>>, home: K -> nat, n: nat): (r: seq<Option<K>>)
    requires n > 0
    ensures |r| == n
  {
    PlaceAll(NoKeys(n), home, KeysIn(t))
  }

  lemma {:induction false} ProbeSkips<K(!new)>(t: seq<Option<K>>, k: K, start: nat, p: nat, q: nat)
    requires start < |t| && p <= q <= |t| && Passed(t, k, start, q)
    ensures Probe(t, k, start, p) == Probe(t, k, start, q)
    decreases q - p
  {
    if p < q { ProbeSkips(t, k, start, p + 1, q); }
  }

  /** The first slot a probe meets that is empty or holds the key is the one `Find` names. */
  lemma FindIsFirst<K(!new)>(t: seq<Option<K>>, home: K -> nat, k: K, p: nat)
    requires p < |t| && Passed(t, k, Home(home, k, |t|), p)
    requires var i := At(Home(home, k, |t|), p, |t|); t[i] == None || t[i] == Some(k)
    ensures Find(t, home, k) == At(Home(home, k, |t|), p, |t|)
  {
    ProbeSkips(t, k, Home(home, k, |t|), 0, p);
  }

  lemma PlaceKeeps<K(!new)>(t: seq<Option<K>>, home: K -> nat, k: K)
    requires |t| > 0 && Chained(t, home) && Distinct(t) && HasRoom(t)
    ensures var r := Place(t, home, k);
      Chained(r, home) && Distinct(r) && (forall x :: Holds(r, x) <==> Holds(t, x) || x == k)
      && Occupied(r) == Occupied(t) + (if Holds(t, k) then 0 else 1)
  {
    FindIsLookup(t, home, k);
    var i := Find(t, home, k);
    if Holds(t, k) {
      assert t[i := Some(k)] == t;
    } else {
      FillKeeps(t, home, k, i);
      OccupiedFill(t, i, k);
    }
  }

  lemma {:induction false} PlaceAllKeeps<K(!new)>(t: seq<Option<K>>, home: K -> nat, keys: seq<K>)
    requires |t| > 0 && Chained(t, home) && Distinct(t) && Occupied(t) + |keys| <= |t|
    ensures var r := PlaceAll(t, home, keys);
      Chained(r, home) && Distinct(r) && (forall x :: Holds(r, x) <==> Holds(t, x) || x in keys)
      && Occupied(r) <= Occupied(t) + |keys|
  {
    hide Chained, Distinct, Place, Occupied, HasRoom;
    if keys != [] {
      var n := |keys| - 1;
      PlaceAllKeeps(t, home, keys[..n]);
      var r := PlaceAll(t, home, keys[..n]);
      OccupiedRoom(r);
      PlaceKeeps(r, home, keys[n]);
      assert keys == keys[..n] + [keys[n]];
    }
  }

  lemma {:induction false} KeysInTable<K(!new)>(t: seq<Option<K>>)
    ensures |KeysIn(t)| == Occupied(t)
    ensures forall k :: k in KeysIn(t) <==> Holds(t, k)
  {
    if t != [] {
      var n := |t| - 1;
      KeysInTable(t[..n]);
      assert t == t[..n] + [t[n]];
      OccupiedAppend(t[..n], t[n]);
      forall k ensures Holds(t, k) <==> Holds(t[..n], k) || t[n] == Some(k) {
        if Holds(t[..n], k) { assert Some(k) in t[..n]; }
      }
    }
  }

  /** Rehashing keeps the keys, their number and every invariant: no lookup answers differently. */
  lemma RehashKeeps<K(!new)>(t: seq<Option<K>>, home: K -> nat, n: nat)
    requires Distinct(t) && Occupied(t) < n
    ensures var r := Rehash(t, home, n);
      Chained(r, home) && Distinct(r) && (forall x :: Holds(r, x) <==> Holds(t, x)) && Occupied(r) == Occupied(t)
  {
    var none: seq<Option<K>> := NoKeys(n);
    OccupiedNone(none);
    KeysInTable(t);
    PlaceAllKeeps(none, home, KeysIn(t));
    var r := Rehash(t, home, n);
    var keys := set k | k in KeysIn(t);
    OccupiedIsCardinality(t, keys);
    OccupiedIsCardinality(r, keys);
  }

  // ---- Tables -------------------------------------------------------------------

  /** A probe table of power-of-two size that holds exactly these keys and has room for another. */
  ghost predicate IsTable<K(!new)>(t: seq<Option<K>>, home: K -> nat, keys: set<K>) {
    && |t| > 0 && IsPowerOfTwo(|t|) && Chained(t, home) && Distinct(t) && Occupied(t) < |t|
    && forall k :: Holds(t, k) <==> k in keys
  }

  lemma TableFacts<K(!new)>(t: seq<Option<K>>, home: K -> nat, keys: set<K>)
    requires IsTable(t, home, keys)
    ensures |t| > 0 && IsPowerOfTwo(|t|) && Chained(t, home) && Distinct(t) && HasRoom(t)
    ensures Occupied(t) == |keys| < |t|
    ensures forall k :: Holds(t, k) <==> k in keys
  {
    OccupiedRoom(t);
    OccupiedIsCardinality(t, keys);
  }

  lemma EmptyTable<K(!new)>(home: K -> nat, n: nat)
    ensures IsTable(NoKeys(RoundUp(n)), home, {}) && Occupied<K>(NoKeys(RoundUp(n))) == 0
  {
    hide RoundUp, IsPowerOfTwo, NoKeys, Occupied, Chained, Distinct, Holds;
    RoundedIsPower(n);
    NoneTable(RoundUp(n), home);
  }

  lemma NoneTable<K(!new)>(n: nat, home: K -> nat)
    requires n > 0
    ensures var none: seq<Option<K>> := NoKeys(n);
      |none| == n && Chained(none, home) && Distinct(none) && Occupied(none) == 0 && forall k :: !Holds(none, k)
  {
    var none: seq<Option<K>> := NoKeys(n);
    OccupiedNone(none);
  }

  lemma TablePlace<K(!new)>(t: seq<Option<K>>, home: K -> nat, keys: set<K>, k: K)
    requires IsTable(t, home, keys) && Occupied(t) + 1 < |t|
    ensures IsTable(Place(t, home, k), home, keys + {k})
    ensures Occupied(Place(t, home, k)) == Occupied(t) + (if k in keys then 0 else 1)
  {
    OccupiedRoom(t);
    PlaceKeeps(t, home, k);
  }

  /** Moving every key to a table with more slots loses none and changes no lookup. */
  lemma ResizedTable<K(!new)>(t: seq<Option<K>>, home: K -> nat, keys: set<K>, n: nat)
    requires IsTable(t, home, keys) && Occupied(t) < n
    ensures IsTable(Rehash(t, home, RoundUp(n)), home, keys) && Occupied(Rehash(t, home, RoundUp(n))) == Occupied(t)
    ensures |KeysIn(t)| == Occupied(t) < RoundUp(n) && IsPowerOfTwo(RoundUp(n))
    ensures forall i, j :: 0 <= i < j < |KeysIn(t)| ==> KeysIn(t)[i] != KeysIn(t)[j]
  {
    RoundUpIsLeast(n);
    PowerTestIsExact(RoundUp(n));
    RehashKeeps(t, home, RoundUp(n));
    KeysInTable(t);
    KeysAreDistinct(t);
  }

  lemma NotTwice<K(!new)>(t: seq<Option<K>>, n: nat)
    requires Distinct(t) && n < |t| && t[n].Some?
    ensures !Holds(t[..n], t[n].value)
  {
  }

  lemma {:induction false} KeysAreDistinct<K(!new)>(t: seq<Option<K>>)
    requires Distinct(t)
    ensures forall i, j :: 0 <= i < j < |KeysIn(t)| ==> KeysIn(t)[i] != KeysIn(t)[j]
  {
    if t != [] {
      var n := |t| - 1;
      KeysAreDistinct(t[..n]);
      KeysInTable(t[..n]);
      if t[n].Some? { NotTwice(t, n); }
    }
  }

  lemma KeysInStep<K(!new)>(t: seq<Option<K>>, i: nat)
    requires i < |t|
    ensures KeysIn(t[..i + 1]) == if t[i].Some? then KeysIn(t[..i]) + [t[i].value] else KeysIn(t[..i])
    ensures KeysIn(t[..0]) == [] && t[..|t|] == t
  {
    assert t[..i + 1][..i] == t[..i];
  }

  lemma PlaceIs<K(!new)>(t: seq<Option<K>>, home: K -> nat, k: K)
    requires |t| > 0 && Find(t, home, k) < |t|
    ensures Place(t, home, k) == t[Find(t, home, k) := Some(k)]
  {
  }

  lemma NothingPlaced<K(!new)>(t: seq<Option<K>>, home: K -> nat, keys: seq<K>)
    requires |t| > 0
    ensures PlaceAll(t, home, keys[..0]) == t
  {
  }

  lemma RehashIs<K(!new)>(t: seq<Option<K>>, home: K -> nat, n: nat)
    requires n > 0
    ensures Rehash(t, home, n) == PlaceAll(NoKeys(n), home, KeysIn(t))
  {
  }

  /** Moving the next key of a list without repeats into an empty table that has room for them all. */
  lemma MovesOne<K(!new)>(n: nat, home: K -> nat, keys: seq<K>, j: nat)
    requires j < |keys| < n
    requires forall a, b :: 0 <= a < b < |keys| ==> keys[a] != keys[b]
    ensures var t := PlaceAll(NoKeys(n), home, keys[..j]);
      Chained(t, home) && Distinct(t) && HasRoom(t) && !Holds(t, keys[j])
      && PlaceAll(NoKeys(n), home, keys[..j + 1]) == Place(t, home, keys[j])
  {
    var none: seq<Option<K>> := NoKeys(n);
    OccupiedNone(none);
    PlaceAllKeeps(none, home, keys[..j]);
    OccupiedRoom(PlaceAll(none, home, keys[..j]));
    assert keys[..j + 1][..j] == keys[..j];
  }

  /** The masked step of the source reaches the slot the model calls `At`. */
  lemma MaskedAt(start: nat, p: nat, n: nat)
    requires IsPowerOfTwo(n) && start < n && p < n
    ensures Start(start + p, n) == At(start, p, n)
  {
    var k: nat :| n == Pow2(k);
    MaskedStep(start, p, k);
  }
}
