/**
 Hashing.

 `HashString` and `MixHashes` are modelled on 64-bit words held as naturals, with
 every wrap-around written out; mixing is proved to be a bijection in each
 argument.  Everywhere else
 hashing is an arbitrary `Hasher`, so no other result depends on how well keys
 are spread or on which collisions exist.
 */
module Hash {
  import opened Bytes
  import opened Words

  /** Any pair of a string hash and a mixer; both are cut to 64 bits. */
  datatype Hasher = Hasher(text: seq<byte> -> nat, mixer: (nat, nat) -> nat) {
    function HashString(b: seq<byte>): (r: nat)
      ensures r < TWO64
    {
      text(b) % TWO64
    }

    function MixHashes(a: nat, b: nat): (r: nat)
      ensures r < TWO64
    {
      mixer(a, b) % TWO64
    }

    /** The object index never stores hash 0, which marks an empty bucket. */
    function ObjectIndexHash(columnHash: nat, keyHash: nat): (r: nat)
      ensures 0 < r < TWO64
    {
      var hash := MixHashes(columnHash, keyHash);
      if hash == 0 then 1 else hash
    }
  }

  // ---- The invertible steps of the mixer ----------------------------------

  function XorShift(x: nat, s: nat): nat { Xor(x, Shr(x, s)) }

  function UnXorShift(y: nat, s: nat): nat { Xor(Xor(y, Shr(y, s)), Shr(y, 2 * s)) }

  lemma XorShiftBound(x: nat, s: nat)
    requires x < TWO64
    ensures XorShift(x, s) < TWO64 && UnXorShift(x, s) < TWO64
  {
    Pow64();
    ShrBound(x, 64, s);
    ShrBound(x, 64, 2 * s);
    XorBound(x, Shr(x, s), 64);
    XorBound(Xor(x, Shr(x, s)), Shr(x, 2 * s), 64);
  }

  lemma XorShiftCancels(x: nat, s: nat)
    requires x < TWO64 && 3 * s >= 64
    ensures UnXorShift(XorShift(x, s), s) == x
    ensures XorShift(UnXorShift(x, s), s) == x
  {
    hide Xor, Shr;
    Pow64();
    var a, b, c := Shr(x, s), Shr(x, 2 * s), Shr(x, 3 * s);
    ShrBound(x, 64, 3 * s);
    ShrTwice(x, s, s); ShrTwice(x, s, 2 * s); ShrTwice(x, 2 * s, s);
    ShrXor(x, a, s); ShrXor(x, a, 2 * s);
    XorZero(a); XorZero(b); XorZero(x);
    // undo after do
    assert Shr(Xor(x, a), s) == Xor(a, b) && Shr(Xor(x, a), 2 * s) == b;
    XorAssoc(x, a, Xor(a, b)); XorAssoc(a, a, b); XorAssoc(x, b, b);
    // do after undo
    var u := Xor(Xor(x, a), b);
    ShrXor(Xor(x, a), b, s);
    assert Shr(u, s) == Xor(Xor(a, b), c) == Xor(a, b) by { XorZero(Xor(a, b)); }
    XorAssoc(x, a, b);
    XorAssoc(x, Xor(a, b), Xor(a, b));
    XorZero(Xor(a, b));
  }

  const MUL1: nat := 0xbf58476d1ce4e5b9
  const MUL2: nat := 0x94d049bb133111eb
  // The inverses of the two multipliers modulo 2^64.
  const INV1: nat := 0x96de1b173f119089
  const INV2: nat := 0x319642b2d24d8ec3

  function Times(v: nat, m: nat): (r: nat)
    ensures r < TWO64
  {
    (v * m) % TWO64
  }

  lemma ModFold(a: nat, q: nat, n: nat)
    requires a < n
    ensures (q * n + a) % n == a && (q * n + a) / n == q
  {
    assert (q * n + a) / n == q by { DivUnique(q * n + a, n, q, a); }
  }

  lemma TimesCancels(v: nat, m: nat, inv: nat)
    requires v < TWO64 && (m * inv) % TWO64 == 1
    ensures Times(Times(v, m), inv) == v
  {
    var p, q := v * m, (m * inv) / TWO64;
    var r := p / TWO64;
    assert p == r * TWO64 + Times(v, m);
    assert m * inv == q * TWO64 + 1;
    assert Times(v, m) * inv + (r * inv) * TWO64 == p * inv == v * (m * inv) == (v * q) * TWO64 + v by {
      assert p * inv == (r * TWO64 + Times(v, m)) * inv;
      assert v * (q * TWO64 + 1) == (v * q) * TWO64 + v;
    }
    assert Times(v, m) * inv == (v * q - r * inv) * TWO64 + v;
    var k := v * q - r * inv;
    ModFold(v, k, TWO64);
  }

  lemma Inverses()
    ensures (MUL1 * INV1) % TWO64 == 1 && (INV1 * MUL1) % TWO64 == 1
    ensures (MUL2 * INV2) % TWO64 == 1 && (INV2 * MUL2) % TWO64 == 1
  {
  }

  // ---- The string hash ------------------------------------------------------

  const OFFSET_BASIS: nat := 14695981039346656037
  const PRIME: nat := 1099511628211
  // The inverse of the prime modulo 2^64.
  const PRIME_INVERSE: nat := 0xce965057aff6957b

  /** The hash state after the bytes of `b`, from state `hash`. */
  function HashFrom(hash: nat, b: seq<byte>): (r: nat)
    ensures hash < TWO64 ==> r < TWO64
  {
    if b == [] then hash else Times(Xor(HashFrom(hash, b[..|b| - 1]), b[|b| - 1]), PRIME)
  }

  method HashString(value: seq<byte>) returns (hash: nat)
    ensures hash == HashFrom(OFFSET_BASIS, value)
    ensures hash < TWO64
  {
    hash := OFFSET_BASIS;
    for i := 0 to |value|
      invariant hash == HashFrom(OFFSET_BASIS, value[..i])
    {
      assert value[..i + 1][..i] == value[..i];
      hash := Xor(hash, value[i]);
      hash := (hash * PRIME) % TWO64;
    }
    assert value[..|value|] == value;
  }

  lemma {:induction false} HashFromAppend(hash: nat, a: seq<byte>, b: seq<byte>)
    ensures HashFrom(hash, a + b) == HashFrom(HashFrom(hash, a), b)
  {
    if b == [] {
      assert a + b == a;
    } else {
      assert (a + b)[..|a + b| - 1] == a + b[..|b| - 1];
      HashFromAppend(hash, a, b[..|b| - 1]);
    }
  }

  /** One byte of input loses nothing of the state. */
  lemma ByteCancels(x: nat, y: nat, u: byte, v: byte)
    requires x < TWO64 && y < TWO64 && Times(Xor(x, u), PRIME) == Times(Xor(y, v), PRIME)
    ensures Xor(x, u) == Xor(y, v)
  {
    hide Xor;
    Pow64();
    XorBound(x, u, 64);
    XorBound(y, v, 64);
    assert (PRIME * PRIME_INVERSE) % TWO64 == 1;
    TimesCancels(Xor(x, u), PRIME, PRIME_INVERSE);
    TimesCancels(Xor(y, v), PRIME, PRIME_INVERSE);
  }

  lemma XorSame(x: nat, y: nat, u: nat)
    requires Xor(x, u) == Xor(y, u)
    ensures x == y
  {
    hide Xor;
    XorAssoc(x, u, u);
    XorAssoc(y, u, u);
    XorZero(u); XorZero(x); XorZero(y);
  }

  /** The same bytes never merge two states. */
  lemma {:induction false} StatesStayApart(x: nat, y: nat, b: seq<byte>)
    requires x < TWO64 && y < TWO64
    ensures HashFrom(x, b) == HashFrom(y, b) <==> x == y
  {
    hide Xor, Times;
    if b != [] {
      var n := |b| - 1;
      StatesStayApart(x, y, b[..n]);
      if HashFrom(x, b) == HashFrom(y, b) {
        ByteCancels(HashFrom(x, b[..n]), HashFrom(y, b[..n]), b[n], b[n]);
        XorSame(HashFrom(x, b[..n]), HashFrom(y, b[..n]), b[n]);
      }
    }
  }

  /** Names that differ in exactly one byte never hash alike. */
  lemma OneByteApart(a: seq<byte>, u: byte, v: byte, b: seq<byte>)
    requires u != v
    ensures HashFrom(OFFSET_BASIS, a + [u] + b) != HashFrom(OFFSET_BASIS, a + [v] + b)
  {
    hide Xor, Times;
    var h := HashFrom(OFFSET_BASIS, a);
    HashFromAppend(OFFSET_BASIS, a + [u], b);
    HashFromAppend(OFFSET_BASIS, a + [v], b);
    HashFromAppend(OFFSET_BASIS, a, [u]);
    HashFromAppend(OFFSET_BASIS, a, [v]);
    StatesStayApart(HashFrom(h, [u]), HashFrom(h, [v]), b);
    if HashFrom(h, [u]) == HashFrom(h, [v]) {
      OneByte(h, u);
      OneByte(h, v);
      ByteCancels(h, h, u, v);
      XorComm(h, u);
      XorComm(h, v);
      XorSame(u, v, h);
      assert false;
    }
  }

  lemma OneByte(hash: nat, u: byte)
    ensures HashFrom(hash, [u]) == Times(Xor(hash, u), PRIME)
  {
    assert [u][..0] == [];
  }

  function RotateLeft23(k: nat): nat
    requires k < TWO64
  {
    (k * 0x80_0000) % TWO64 + k / 0x200_0000_0000
  }

  function RotateRight23(k: nat): nat
    requires k < TWO64
  {
    (k * 0x200_0000_0000) % TWO64 + k / 0x80_0000
  }

  lemma RotateCancels(k: nat)
    requires k < TWO64
    ensures RotateLeft23(k) < TWO64 && RotateRight23(k) < TWO64
    ensures RotateRight23(RotateLeft23(k)) == k
    ensures RotateLeft23(RotateRight23(k)) == k
  {
    Swap(k, 0x80_0000, 0x200_0000_0000);
    Swap(k, 0x200_0000_0000, 0x80_0000);
  }

  /** Writing k = h*b + l with l below b, multiplying by a and wrapping moves l up and h down. */
  lemma Swap(k: nat, a: nat, b: nat)
    requires (a == 0x80_0000 && b == 0x200_0000_0000) || (b == 0x80_0000 && a == 0x200_0000_0000)
    requires k < TWO64
    ensures (k * a) % TWO64 == (k % b) * a
    ensures var r := (k * a) % TWO64 + k / b; r < TWO64 && r / a == k % b && (r * b) % TWO64 == (k / b) * b
  {
    var h, l := k / b, k % b;
    assert k * a == h * TWO64 + l * a;
    assert l * a < TWO64;
    ModFold(l * a, h, TWO64);
    var r := l * a + h;
    DivUnique(r, a, l, h);
    assert r * b == l * TWO64 + h * b;
    ModFold(h * b, l, TWO64);
  }

  // ---- The mixer ----------------------------------------------------------

  function Finish(v: nat): nat {
    XorShift(Times(XorShift(Times(XorShift(v, 30), MUL1), 27), MUL2), 31)
  }

  function UnFinish(v: nat): nat {
    UnXorShift(Times(UnXorShift(Times(UnXorShift(v, 31), INV2), 27), INV1), 30)
  }

  lemma FinishCancels(v: nat)
    requires v < TWO64
    ensures Finish(v) < TWO64 && UnFinish(v) < TWO64
    ensures UnFinish(Finish(v)) == v && Finish(UnFinish(v)) == v
  {
    Inverses();
    var a := XorShift(v, 30);
    XorShiftBound(v, 30); XorShiftCancels(v, 30);
    var b := Times(a, MUL1);
    TimesCancels(a, MUL1, INV1);
    var c := XorShift(b, 27);
    XorShiftBound(b, 27); XorShiftCancels(b, 27);
    var d := Times(c, MUL2);
    TimesCancels(c, MUL2, INV2);
    XorShiftBound(d, 31); XorShiftCancels(d, 31);

    var e := UnXorShift(v, 31);
    XorShiftBound(v, 31); XorShiftCancels(v, 31);
    var f := Times(e, INV2);
    TimesCancels(e, INV2, MUL2);
    var g := UnXorShift(f, 27);
    XorShiftBound(f, 27); XorShiftCancels(f, 27);
    var i := Times(g, INV1);
    TimesCancels(g, INV1, MUL1);
    XorShiftBound(i, 30); XorShiftCancels(i, 30);
  }

  function Mix(columnHash: nat, keyHash: nat): nat
    requires keyHash < TWO64
  {
    Finish(Xor(columnHash, RotateLeft23(keyHash)))
  }

  method MixHashes(columnHash: nat, keyHash: nat) returns (value: nat)
    requires columnHash < TWO64 && keyHash < TWO64
    ensures value < TWO64 && value == Mix(columnHash, keyHash)
  {
    MixIsBijective(columnHash, keyHash);
    value := Xor(columnHash, RotateLeft23(keyHash));
    value := Xor(value, Shr(value, 30));
    value := (value * MUL1) % TWO64;
    value := Xor(value, Shr(value, 27));
    value := (value * MUL2) % TWO64;
    value := Xor(value, Shr(value, 31));
  }

  /** The column hash that mixes with `keyHash` to `value`, and the key hash that does so with `columnHash`. */
  function UnmixColumn(value: nat, keyHash: nat): nat
    requires keyHash < TWO64
  {
    Xor(UnFinish(value), RotateLeft23(keyHash))
  }

  function UnmixKey(value: nat, columnHash: nat): nat
    requires columnHash < TWO64 && value < TWO64
  {
    UnmixBound(value, columnHash);
    RotateRight23(Xor(UnFinish(value), columnHash))
  }

  lemma UnmixBound(value: nat, other: nat)
    requires value < TWO64 && other < TWO64
    ensures Xor(UnFinish(value), other) < TWO64
  {
    Pow64();
    FinishCancels(value);
    XorBound(UnFinish(value), other, 64);
  }

  lemma XorCancels(a: nat, b: nat)
    ensures Xor(Xor(a, b), b) == a && Xor(Xor(a, b), a) == b
  {
    XorAssoc(a, b, b); XorZero(b); XorZero(a);
    XorComm(a, b); XorAssoc(b, a, a);
  }

  /** Fixing either argument, mixing is a bijection on 64-bit words: nothing is lost. */
  lemma MixIsBijective(columnHash: nat, keyHash: nat)
    requires columnHash < TWO64 && keyHash < TWO64
    ensures Mix(columnHash, keyHash) < TWO64
    ensures UnmixColumn(Mix(columnHash, keyHash), keyHash) == columnHash
    ensures UnmixKey(Mix(columnHash, keyHash), columnHash) == keyHash
  {
    Pow64();
    RotateCancels(keyHash);
    var r := RotateLeft23(keyHash);
    XorBound(columnHash, r, 64);
    FinishCancels(Xor(columnHash, r));
    XorCancels(columnHash, r);
  }

  lemma MixIsOnto(value: nat, other: nat)
    requires value < TWO64 && other < TWO64
    ensures UnmixColumn(value, other) < TWO64 && Mix(UnmixColumn(value, other), other) == value
    ensures UnmixKey(value, other) < TWO64 && Mix(other, UnmixKey(value, other)) == value
  {
    Pow64();
    RotateCancels(other);
    FinishCancels(value);
    var u := UnFinish(value);
    UnmixBound(value, other);
    UnmixBound(value, RotateLeft23(other));
    XorCancels(u, RotateLeft23(other));
    var k := Xor(u, other);
    RotateCancels(k);
    XorCancels(u, other);
    XorComm(other, k);
  }

  /**
   With the real mixer, two key hashes of one column get the same object index
   hash exactly when they are equal or mix to 0 and 1.
   */
  lemma ObjectIndexHashMerges(h: Hasher, columnHash: nat, k1: nat, k2: nat)
    requires columnHash < TWO64 && k1 < TWO64 && k2 < TWO64
    requires h.mixer(columnHash, k1) == Mix(columnHash, k1)
    requires h.mixer(columnHash, k2) == Mix(columnHash, k2)
    ensures h.ObjectIndexHash(columnHash, k1) == h.ObjectIndexHash(columnHash, k2)
      <==> (k1 == k2 || ZeroAndOne(Mix(columnHash, k1), Mix(columnHash, k2)))
  {
    MixIsBijective(columnHash, k1);
    MixIsBijective(columnHash, k2);
    IndexHashOf(h, columnHash, k1, Mix(columnHash, k1));
    IndexHashOf(h, columnHash, k2, Mix(columnHash, k2));
  }

  predicate ZeroAndOne(a: nat, b: nat) {
    (a == 0 && b == 1) || (a == 1 && b == 0)
  }

  lemma IndexHashOf(h: Hasher, columnHash: nat, k: nat, m: nat)
    requires m < TWO64 && h.mixer(columnHash, k) == m
    ensures h.ObjectIndexHash(columnHash, k) == if m == 0 then 1 else m
  {
  }
}
