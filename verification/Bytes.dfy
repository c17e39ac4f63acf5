/** Byte strings and big-endian integers, as math/big reads and writes them. */
module Bytes {

  type Byte = n: int | 0 <= n < 256

  function Pow256(k: nat): (p: nat)
    ensures p > 0
  {
    if k == 0 then 1 else 256 * Pow256(k - 1)
  }

  function Pow2(k: nat): (p: nat)
    ensures p > 0
  {
    if k == 0 then 1 else 2 * Pow2(k - 1)
  }

  /** big.Int.SetBytes: the value of a big-endian byte string, of any length. */
  function ToNat(b: seq<Byte>): (v: nat)
    ensures v < Pow256(|b|)
  {
    if b == [] then 0 else ToNat(b[..|b| - 1]) * 256 + b[|b| - 1]
  }

  /** The low `len` bytes of v, most significant first. */
  function ToBytes(v: nat, len: nat): (b: seq<Byte>)
    ensures |b| == len
  {
    if len == 0 then [] else ToBytes(v / 256, len - 1) + [v % 256]
  }

  lemma {:induction false} ToNatToBytes(v: nat, len: nat)
    requires v < Pow256(len)
    ensures ToNat(ToBytes(v, len)) == v
  {
    if len > 0 {
      ToNatToBytes(v / 256, len - 1);
      assert ToBytes(v, len)[..len - 1] == ToBytes(v / 256, len - 1);
    }
  }

  lemma {:induction false} ToBytesToNat(b: seq<Byte>)
    ensures ToBytes(ToNat(b), |b|) == b
  {
    if b != [] {
      ToBytesToNat(b[..|b| - 1]);
      assert b == b[..|b| - 1] + [b[|b| - 1]];
    }
  }

  /** k zero bytes. */
  function Zeros(k: nat): (b: seq<Byte>)
    ensures |b| == k
  {
    seq(k, i => 0)
  }

  /** b right-aligned in a slot of `len` bytes. */
  function LeftPad(b: seq<Byte>, len: nat): (p: seq<Byte>)
    requires |b| <= len
    ensures |p| == len
  {
    Zeros(len - |b|) + b
  }

  lemma {:induction false} LeadingZerosKeepValue(k: nat, b: seq<Byte>)
    ensures ToNat(Zeros(k) + b) == ToNat(b)
  {
    if b == [] {
      assert Zeros(k) + b == Zeros(k);
      ZerosAreZero(k);
    } else {
      var init := b[..|b| - 1];
      LeadingZerosKeepValue(k, init);
      assert (Zeros(k) + b)[..k + |b| - 1] == Zeros(k) + init;
    }
  }

  lemma {:induction false} ZerosAreZero(k: nat)
    ensures ToNat(Zeros(k)) == 0
  {
    if k > 0 {
      ZerosAreZero(k - 1);
      assert Zeros(k)[..k - 1] == Zeros(k - 1);
    }
  }

  /** big.Int.FillBytes on the slice a[lo..hi]: only that slice changes. */
  method FillBytes(a: array<Byte>, lo: nat, hi: nat, v: nat)
    requires lo <= hi <= a.Length
    requires v < Pow256(hi - lo)
    modifies a
    ensures a[..] == old(a[..lo]) + ToBytes(v, hi - lo) + old(a[hi..])
  {
    var i, rest := hi, v;
    while i > lo
      invariant lo <= i <= hi
      invariant ToBytes(v, hi - lo) == ToBytes(rest, i - lo) + a[i..hi]
      invariant a[..lo] == old(a[..lo]) && a[hi..] == old(a[hi..])
    {
      i := i - 1;
      a[i] := rest % 256;
      assert a[i..hi] == [rest % 256] + a[i + 1..hi];
      rest := rest / 256;
    }
    assert a[..] == a[..lo] + a[lo..hi] + a[hi..];
  }

  lemma {:induction false} Pow2Monotone(a: nat, b: nat)
    requires a <= b
    ensures Pow2(a) <= Pow2(b)
  {
    if a < b { Pow2Monotone(a, b - 1); }
  }

  lemma {:induction false} Pow2OfByte(k: nat)
    ensures Pow2(k + 8) == 256 * Pow2(k)
  {
    calc {
      Pow2(k + 8);
      2 * Pow2(k + 7);
      4 * Pow2(k + 6);
      8 * Pow2(k + 5);
      16 * Pow2(k + 4);
      32 * Pow2(k + 3);
      64 * Pow2(k + 2);
      128 * Pow2(k + 1);
      256 * Pow2(k);
    }
  }

  /** The coordinate length (bits+7)/8 leaves room for every value of that many bits. */
  lemma {:induction false} BitsFit(bits: nat)
    ensures Pow2(bits) <= Pow256((bits + 7) / 8)
  {
    if 0 < bits < 8 {
      Pow2Monotone(bits, 8);
      Pow2OfByte(0);
    } else if bits >= 8 {
      BitsFit(bits - 8);
      Pow2OfByte(bits - 8);
    }
  }
}
