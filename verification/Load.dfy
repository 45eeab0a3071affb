/**
 The load factor of an index and the bucket counts it asks for.  The factor is a
 real number; bucket counts are powers of two, for which dividing in doubles is
 exact for every count below 2^53.
 */
module Load {
  import opened Words

  /** The check `items / bucketCount > maxLoadFactor`. */
  predicate Over(f: real, items: nat, n: nat)
    requires n > 0
  {
    (items as real) / (n as real) > f
  }

  lemma Scaled(a: real, b: real, m: real)
    requires a < b && m > 0.0
    ensures a * m < b * m
  {
  }

  /** Being over is having more items than `f * n`. */
  lemma OverIsMore(f: real, items: nat, n: nat)
    requires n > 0
    ensures Over(f, items, n) <==> items as real > f * n as real
  {
    var m, q := n as real, (items as real) / (n as real);
    assert items as real == q * m;
    if q > f { Scaled(f, q, m); } else { if q < f { Scaled(q, f, m); } }
  }

  /** Items that are not over leave an empty bucket. */
  lemma FitsHasRoom(f: real, items: nat, n: nat)
    requires n > 0 && f < 1.0 && !Over(f, items, n)
    ensures items < n
  {
    OverIsMore(f, items, n);
    Scaled(f, 1.0, n as real);
  }

  /** How far the bucket count can still be from being enough. */
  function Short(f: real, items: nat, n: nat): int
    requires f > 0.0
  {
    ((items as real) / f).Floor - n
  }

  lemma OverIsShort(f: real, items: nat, n: nat)
    requires f > 0.0 && n > 0 && Over(f, items, n)
    ensures Short(f, items, n) >= 0
  {
    OverIsMore(f, items, n);
    var q := (items as real) / f;
    assert items as real == q * f;
    if q < n as real { Scaled(q, n as real, f); }
  }

  /** The first of `n`, `2n`, `4n`, ... that is not over; the doubling ends because `n` reaches `items / f`. */
  function Grown(f: real, items: nat, n: nat): (m: nat)
    requires f > 0.0 && n > 0
    ensures m >= n && !Over(f, items, m)
    ensures m > n ==> Over(f, items, n) && m / 2 >= n
    decreases Short(f, items, n)
  {
    if Over(f, items, n) then
      OverIsShort(f, items, n);
      Grown(f, items, 2 * n)
    else n
  }

  /** One doubling of the loop. */
  lemma GrowsOn(f: real, items: nat, n: nat)
    requires f > 0.0 && n > 0 && Over(f, items, n)
    ensures Grown(f, items, n) == Grown(f, items, 2 * n)
    ensures Short(f, items, n) >= 0 && Short(f, items, 2 * n) < Short(f, items, n)
  {
    OverIsShort(f, items, n);
  }

  lemma GrowsNoMore(f: real, items: nat, n: nat)
    requires f > 0.0 && n > 0 && !Over(f, items, n)
    ensures Grown(f, items, n) == n
  {
  }

  /** Growth keeps the count a power of two, and stops at the first count that fits. */
  lemma {:induction false} GrownIsLeast(f: real, items: nat, n: nat)
    requires f > 0.0 && n > 0 && IsPowerOfTwo(n)
    ensures var m := Grown(f, items, n);
      IsPowerOfTwo(m) && (m > n ==> m % 2 == 0 && Over(f, items, m / 2))
    decreases Short(f, items, n)
  {
    if Over(f, items, n) {
      OverIsShort(f, items, n);
      var k: nat :| n == Pow2(k);
      assert 2 * n == Pow2(k + 1);
      GrownIsLeast(f, items, 2 * n);
    }
  }
}
