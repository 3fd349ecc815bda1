/** Little-endian fields and slices of byte buffers. */
module Bytes {
  import opened Common

  /** A little-endian 16-bit field. */
  function Le16(f: seq<Byte>, i: nat): nat
    requires i + 1 < |f|
  {
    f[i] as nat + 0x100 * f[i + 1] as nat
  }

  function Zeros(n: nat): (z: seq<Byte>)
    ensures |z| == n
  {
    seq(n, i => 0)
  }

  function Bytes16(v: nat): (b: seq<Byte>)
    ensures |b| == 2
  {
    [v % 0x100, v / 0x100 % 0x100]
  }

  function Bytes32(v: nat): (b: seq<Byte>)
    ensures |b| == 4
  {
    Bytes16(v) + Bytes16(v / 0x1_0000)
  }

  function Le32(f: seq<Byte>, i: nat): nat
    requires i + 3 < |f|
  {
    Le16(f, i) + 0x1_0000 * Le16(f, i + 2)
  }

  lemma Le16Bytes(f: seq<Byte>, i: nat, v: nat)
    requires i + 1 < |f| && f[i..i + 2] == Bytes16(v) && v < 0x1_0000
    ensures Le16(f, i) == v
  {
    assert f[i] == f[i..i + 2][0] && f[i + 1] == f[i..i + 2][1];
  }

  /** The low half of a word has the bytes of its remainder. */
  lemma LowHalf(v: nat)
    ensures Bytes32(v)[..2] == Bytes16(v % 0x1_0000)
  {
    var q, a := v / 0x1_0000, v % 0x1_0000;
    DivModUnique(v, 0x100, q * 0x100 + a / 0x100, a % 0x100);
    DivModUnique(v / 0x100, 0x100, q, a / 0x100);
  }

  lemma Le32Bytes(f: seq<Byte>, i: nat, v: nat)
    requires i + 3 < |f| && f[i..i + 4] == Bytes32(v) && v < 0x1_0000_0000
    ensures Le32(f, i) == v
  {
    LowHalf(v);
    assert f[i..i + 2] == f[i..i + 4][..2];
    assert f[i + 2..i + 4] == f[i..i + 4][2..] == Bytes16(v / 0x1_0000);
    Le16Bytes(f, i, v % 0x1_0000);
    Le16Bytes(f, i + 2, v / 0x1_0000);
  }

  /** `s` with `b` written over it from `off` on. */
  function Splice(s: seq<Byte>, off: nat, b: seq<Byte>): (r: seq<Byte>)
    requires off + |b| <= |s|
    ensures |r| == |s|
  {
    s[..off] + b + s[off + |b|..]
  }

  /** A slice assignment between equally long slices. */
  method Store(a: array<Byte>, off: nat, b: seq<Byte>)
    requires off + |b| <= a.Length
    modifies a
    ensures a[..] == Splice(old(a[..]), off, b)
  {
    var i := 0;
    while i < |b|
      invariant 0 <= i <= |b|
      invariant forall x :: 0 <= x < a.Length ==> a[x] == if off <= x < off + i then b[x - off] else old(a[x])
    {
      a[off + i] := b[i];
      i := i + 1;
    }
  }

  /** Writing next to what was just written is writing both at once. */
  lemma SpliceTwice(s: seq<Byte>, off: nat, b: seq<Byte>, c: seq<Byte>)
    requires off + |b| + |c| <= |s|
    ensures Splice(Splice(s, off, b), off + |b|, c) == Splice(s, off, b + c)
  {
  }

  lemma SkipZeros(s: seq<Byte>, off: nat, b: seq<Byte>, n: nat, c: seq<Byte>)
    requires off + |b| + n + |c| <= |s|
    requires forall x :: off + |b| <= x < off + |b| + n ==> s[x] == 0
    ensures Splice(Splice(s, off, b), off + |b| + n, c) == Splice(s, off, b + Zeros(n) + c)
  {
  }

  /** Writing over the front of trailing zeros. */
  lemma Overwrite(a: seq<Byte>, b: seq<Byte>, n: nat, m: nat)
    requires |b| <= n <= m
    ensures Splice(a + Zeros(m), |a|, b) == a + (b + Zeros(n - |b|)) + Zeros(m - n)
  {
  }
}
