/**
 Byte strings, little-endian integers and fixed-width headers.

 A header is a list of unsigned fields with their widths in bytes.  `Pack` lays
 the fields out one after the other, least significant byte first, as the packed
 C++ structs are stored on the little-endian machines the format is defined for.
 */
module Bytes {
  type byte = x: int | 0 <= x < 256

  const TWO32: nat := 0x1_0000_0000
  const TWO64: nat := 0x1_0000_0000_0000_0000

  /** The version every file and record header carries. */
  const STORAGE_VERSION: nat := 1

  function Pow256(w: nat): (r: nat)
    ensures r > 0
  {
    if w == 0 then 1 else 256 * Pow256(w - 1)
  }

  lemma WidthBounds()
    ensures Pow256(2) == 0x1_0000 && Pow256(4) == TWO32 && Pow256(8) == TWO64 && Pow256(1) == 256
  {
    assert Pow256(2) == 256 * Pow256(1);
    assert Pow256(4) == 256 * Pow256(3);
    assert Pow256(3) == 256 * Pow256(2);
    assert Pow256(8) == 256 * Pow256(7);
    assert Pow256(7) == 256 * Pow256(6);
    assert Pow256(6) == 256 * Pow256(5);
    assert Pow256(5) == 256 * Pow256(4);
  }

  function LE(n: nat, w: nat): (b: seq<byte>)
    ensures |b| == w
  {
    if w == 0 then [] else [n % 256] + LE(n / 256, w - 1)
  }

  function UnLE(b: seq<byte>): nat
  {
    if b == [] then 0 else b[0] + 256 * UnLE(b[1..])
  }

  lemma {:induction false} LERoundTrip(n: nat, w: nat)
    requires n < Pow256(w)
    ensures UnLE(LE(n, w)) == n
  {
    if w > 0 {
      LERoundTrip(n / 256, w - 1);
      assert LE(n, w)[1..] == LE(n / 256, w - 1);
    }
  }

  function Sum(widths: seq<nat>): nat
  {
    if widths == [] then 0 else widths[0] + Sum(widths[1..])
  }

  function Pack(fields: seq<nat>, widths: seq<nat>): (b: seq<byte>)
    requires |fields| == |widths|
    ensures |b| == Sum(widths)
  {
    if fields == [] then [] else LE(fields[0], widths[0]) + Pack(fields[1..], widths[1..])
  }

  function Unpack(b: seq<byte>, widths: seq<nat>): (fields: seq<nat>)
    requires |b| == Sum(widths)
    ensures |fields| == |widths|
  {
    if widths == [] then [] else [UnLE(b[..widths[0]])] + Unpack(b[widths[0]..], widths[1..])
  }

  ghost predicate Fits(fields: seq<nat>, widths: seq<nat>)
  {
    |fields| == |widths| && forall i :: 0 <= i < |fields| ==> fields[i] < Pow256(widths[i])
  }

  /** Reading a header back gives the fields that were stored in it. */
  lemma {:induction false} UnpackPack(fields: seq<nat>, widths: seq<nat>)
    requires Fits(fields, widths)
    ensures Unpack(Pack(fields, widths), widths) == fields
  {
    if fields != [] {
      var b, w := Pack(fields, widths), widths[0];
      assert Fits(fields[1..], widths[1..]);
      UnpackPack(fields[1..], widths[1..]);
      LERoundTrip(fields[0], w);
      assert b[..w] == LE(fields[0], w) && b[w..] == Pack(fields[1..], widths[1..]);
    }
  }

  // ---- Slices of concatenations -------------------------------------------

  lemma DropConcat(a: seq<byte>, b: seq<byte>, k: nat)
    requires k <= |a|
    ensures (a + b)[k..] == a[k..] + b && (a + b)[..k] == a[..k]
  {
  }

  lemma ConcatAssoc(a: seq<byte>, b: seq<byte>, c: seq<byte>)
    ensures a + b + c == a + (b + c)
  {
  }

  /** A slice of a slice is a slice of the whole. */
  lemma Slice(file: seq<byte>, offset: nat, n: nat, a: nat, b: nat)
    requires a <= b <= n && offset + n <= |file|
    ensures file[offset..offset + n][a..b] == file[offset + a..offset + b]
  {
    var l, r := file[offset..offset + n][a..b], file[offset + a..offset + b];
    forall i | 0 <= i < b - a ensures l[i] == r[i] {}
  }
}
