/**
 Bit operations on machine words, written on naturals, and the power-of-two
 arithmetic the tables rely on.
 */
module Words {
  import opened Bytes

  function Bit(p: nat, q: nat): nat { if p == q then 0 else 1 }

  function Xor(a: nat, b: nat): nat {
    if a == 0 && b == 0 then 0 else Bit(a % 2, b % 2) + 2 * Xor(a / 2, b / 2)
  }

  function Shr(x: nat, s: nat): nat {
    if s == 0 then x else Shr(x / 2, s - 1)
  }

  function Pow2(n: nat): (r: nat)
    ensures r > 0
  {
    if n == 0 then 1 else 2 * Pow2(n - 1)
  }

  lemma {:induction false} XorZero(a: nat)
    ensures Xor(a, 0) == a && Xor(0, a) == a && Xor(a, a) == 0
  {
    if a > 0 { XorZero(a / 2); }
  }

  lemma {:induction false} XorComm(a: nat, b: nat)
    ensures Xor(a, b) == Xor(b, a)
  {
    if a > 0 || b > 0 { XorComm(a / 2, b / 2); }
  }

  lemma XorParts(a: nat, b: nat)
    ensures Xor(a, b) / 2 == Xor(a / 2, b / 2) && Xor(a, b) % 2 == Bit(a % 2, b % 2)
  {
  }

  lemma SameParts(x: nat, y: nat)
    requires x / 2 == y / 2 && x % 2 == y % 2
    ensures x == y
  {
  }

  lemma {:induction false} XorAssoc(a: nat, b: nat, c: nat)
    ensures Xor(Xor(a, b), c) == Xor(a, Xor(b, c))
  {
    if a > 0 || b > 0 || c > 0 {
      var x, y := Xor(a, b), Xor(b, c);
      XorParts(a, b); XorParts(b, c); XorParts(x, c); XorParts(a, y);
      XorAssoc(a / 2, b / 2, c / 2);
      SameParts(Xor(x, c), Xor(a, y));
    }
  }

  lemma {:induction false} XorBound(a: nat, b: nat, n: nat)
    requires a < Pow2(n) && b < Pow2(n)
    ensures Xor(a, b) < Pow2(n)
  {
    if n > 0 { XorBound(a / 2, b / 2, n - 1); }
  }

  lemma {:induction false} ShrXor(a: nat, b: nat, s: nat)
    ensures Shr(Xor(a, b), s) == Xor(Shr(a, s), Shr(b, s))
    decreases s
  {
    if s > 0 {
      assert Xor(a, b) / 2 == Xor(a / 2, b / 2);
      ShrXor(a / 2, b / 2, s - 1);
    }
  }

  lemma {:induction false} ShrTwice(x: nat, s: nat, t: nat)
    ensures Shr(Shr(x, s), t) == Shr(x, s + t)
    decreases s
  {
    if s > 0 { ShrTwice(x / 2, s - 1, t); }
  }

  lemma {:induction false} ShrBound(x: nat, n: nat, s: nat)
    requires x < Pow2(n)
    ensures Shr(x, s) <= x && (s >= n ==> Shr(x, s) == 0)
    decreases s
  {
    if s > 0 {
      if n > 0 { ShrBound(x / 2, n - 1, s - 1); } else { ShrBound(0, 0, s - 1); }
    }
  }

  lemma Pow64()
    ensures Pow2(64) == TWO64
  {
    assert Pow2(8) == 256;
    Pow2Add(8, 8); Pow2Add(16, 16); Pow2Add(32, 32);
  }

  lemma {:induction false} Pow2Add(a: nat, b: nat)
    ensures Pow2(a + b) == Pow2(a) * Pow2(b)
  {
    if a > 0 { Pow2Add(a - 1, b); }
  }

  // ---- Masks and power-of-two sizes ---------------------------------------

  function And(a: nat, b: nat): (r: nat)
    ensures r <= b
  {
    if a == 0 || b == 0 then 0 else (a % 2) * (b % 2) + 2 * And(a / 2, b / 2)
  }

  /** The first bucket a key with this hash is looked for in: `hash & (count - 1)`. */
  function Start(hash: nat, count: nat): (r: nat)
    requires count > 0
    ensures r < count
  {
    And(hash, count - 1)
  }

  /** The source's test for a power of two. */
  predicate PassesPowerTest(n: nat) { n != 0 && And(n, n - 1) == 0 }

  ghost predicate IsPowerOfTwo(n: nat) { exists k: nat :: n == Pow2(k) }

  /** For a power of two, masking is taking the remainder. */
  lemma {:induction false} MaskIsRemainder(x: nat, k: nat)
    ensures Start(x, Pow2(k)) == x % Pow2(k)
  {
    if k == 0 {
      assert And(x, 0) == 0;
    } else {
      var m := Pow2(k - 1);
      MaskIsRemainder(x / 2, k - 1);
      assert (2 * m - 1) / 2 == m - 1 && (2 * m - 1) % 2 == 1;
      HalfRemainder(x, m);
      if x > 0 {
        assert And(x, 2 * m - 1) == (x % 2) * 1 + 2 * And(x / 2, m - 1);
      }
    }
  }

  lemma HalfRemainder(x: nat, m: nat)
    requires m > 0
    ensures x % (2 * m) == x % 2 + 2 * ((x / 2) % m)
  {
    var h, b := x / 2, x % 2;
    var q, r := h / m, h % m;
    assert x == q * (2 * m) + (2 * r + b);
    DivUnique(x, 2 * m, q, 2 * r + b);
  }

  /** The bit test accepts exactly the powers of two. */
  lemma {:induction false} PowerTestIsExact(n: nat)
    ensures PassesPowerTest(n) <==> IsPowerOfTwo(n)
  {
    if n == 0 {
    } else if n == 1 {
      assert n == Pow2(0);
    } else if n % 2 == 1 {
      assert And(n, n - 1) == 2 * And(n / 2, (n - 1) / 2) && n / 2 == (n - 1) / 2;
      AndSelf(n / 2);
      forall k: nat ensures n != Pow2(k) { if k > 0 { assert Pow2(k) % 2 == 0; } }
    } else {
      var m := n / 2;
      PowerTestIsExact(m);
      assert (n - 1) / 2 == m - 1;
      assert And(n, n - 1) == 2 * And(m, m - 1);
      if k: nat :| m == Pow2(k) { assert n == Pow2(k + 1); }
      if k: nat :| n == Pow2(k) { assert k > 0 && m == Pow2(k - 1); }
    }
  }

  lemma {:induction false} AndSelf(a: nat)
    ensures And(a, a) == a
  {
    if a > 0 { AndSelf(a / 2); }
  }

  const MINIMUM_BUCKET_COUNT: nat := 16

  ghost predicate LeastPowerFrom(value: nat, r: nat) {
    r >= 16 && r >= value && IsPowerOfTwo(r) && (r == 16 || r / 2 < value)
  }

  function RoundUp(value: nat): (r: nat)
    ensures r >= 16 && r >= value && (r == 16 || r / 2 < value)
  {
    Double(MINIMUM_BUCKET_COUNT, value)
  }

  function Double(r: nat, value: nat): (s: nat)
    requires r >= 16
    ensures s >= r && s >= value && (s == r || s / 2 < value)
    decreases value - r
  {
    if r >= value then r else Double(2 * r, value)
  }

  lemma {:induction false} DoublePower(r: nat, value: nat)
    requires r >= 16 && IsPowerOfTwo(r)
    ensures IsPowerOfTwo(Double(r, value))
    decreases value - r
  {
    if r < value {
      var k: nat :| r == Pow2(k);
      assert 2 * r == Pow2(k + 1);
      DoublePower(2 * r, value);
    }
  }

  /** The smallest power of two that is at least 16 and at least `value`; it fits a word when one exists. */
  lemma RoundUpIsLeast(value: nat)
    ensures LeastPowerFrom(value, RoundUp(value))
    ensures PassesPowerTest(RoundUp(value))
    ensures value <= Pow2(63) ==> RoundUp(value) <= Pow2(63)
  {
    assert 16 == Pow2(4);
    DoublePower(16, value);
    var r := RoundUp(value);
    PowerTestIsExact(r);
    var k: nat :| r == Pow2(k);
    if value <= Pow2(63) && k > 63 {
      PowersGrow(63, k);
      assert false;
    }
    PowersGrow(if k <= 63 then k else 63, 63);
    PowersGrow(4, 63);
  }

  /** A count that was rounded up already stays as it is. */
  lemma RoundUpTwice(value: nat)
    ensures RoundUp(RoundUp(value)) == RoundUp(value)
  {
    RoundUpIsLeast(value);
    var r := RoundUp(value);
    DoubleStops(r);
  }

  lemma RoundedIsPower(value: nat)
    ensures RoundUp(value) > 0 && IsPowerOfTwo(RoundUp(value))
  {
    hide RoundUp, IsPowerOfTwo;
    RoundUpIsLeast(value);
    PowerTestIsExact(RoundUp(value));
  }

  /** Doubling a count of at least 8 is already rounded up. */
  lemma TwiceIsRounded(n: nat)
    requires n >= 8 && IsPowerOfTwo(n)
    ensures RoundUp(2 * n) == 2 * n
  {
    var k: nat :| n == Pow2(k);
    assert 2 * n == Pow2(k + 1);
    DoubleStops(2 * n);
  }

  lemma DoubleStops(r: nat)
    requires r >= 16 && IsPowerOfTwo(r)
    ensures RoundUp(r) == r
  {
    RoundUpIsLeast(r);
    var a: nat, b: nat :| r == Pow2(a) && RoundUp(r) == Pow2(b);
    if a < b { PowersGrow(a, b); } else { PowersGrow(b, a); }
  }

  method RoundUpPowerOfTwo(value: nat) returns (result: nat)
    ensures result == RoundUp(value)
    ensures LeastPowerFrom(value, result)
  {
    result := MINIMUM_BUCKET_COUNT;
    while result < value
      invariant result >= 16
      invariant Double(result, value) == RoundUp(value)
      decreases value - result
    {
      result := result * 2;
    }
    RoundUpIsLeast(value);
  }

  lemma {:induction false} PowersGrow(j: nat, k: nat)
    requires j <= k
    ensures Pow2(j) <= Pow2(k) && (j < k ==> 2 * Pow2(j) <= Pow2(k))
  {
    if j < k { PowersGrow(j, k - 1); }
  }

  lemma DivUnique(x: nat, n: nat, q: nat, a: nat)
    requires 0 < n && a < n && x == q * n + a
    ensures x / n == q && x % n == a
  {
    var q', a' := x / n, x % n;
    assert (q' - q) * n == a - a';
    if q' > q {
      SmallProduct(q' - q, n);
      assert false;
    } else if q' < q {
      assert (q - q') * n == a' - a;
      SmallProduct(q - q', n);
      assert false;
    }
  }

  lemma SmallProduct(d: nat, n: nat)
    requires d >= 1
    ensures d * n >= n
  {
    assert d * n == n + (d - 1) * n;
  }
}
