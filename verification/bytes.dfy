/** Bytes and the bitwise exclusive-or that CBC chaining and PBKDF2 use. */
module Bytes {

  type byte = b: int | 0 <= b < 256

  /** Bitwise exclusive-or of two naturals, one binary digit at a time. */
  function BitXor(a: nat, b: nat): nat
    decreases a + b
  {
    if a == 0 then b
    else if b == 0 then a
    else 2 * BitXor(a / 2, b / 2) + (if a % 2 == b % 2 then 0 else 1)
  }

  /** The exclusive-or of two numbers below 2^k is below 2^k. */
  lemma {:induction false} BitXorBound(a: nat, b: nat, k: nat)
    requires a < Pow2(k) && b < Pow2(k)
    ensures BitXor(a, b) < Pow2(k)
    decreases a + b
  {
    if a != 0 && b != 0 {
      assert k > 0;
      BitXorBound(a / 2, b / 2, k - 1);
    }
  }

  function Pow2(k: nat): (r: nat)
    ensures r > 0
  {
    if k == 0 then 1 else 2 * Pow2(k - 1)
  }

  lemma {:induction false} BitXorSelf(a: nat)
    ensures BitXor(a, a) == 0
    decreases a
  {
    if a != 0 {
      BitXorSelf(a / 2);
    }
  }

  /** Exclusive-or with the same operand twice is the identity. */
  lemma {:induction false} BitXorCancel(a: nat, b: nat)
    ensures BitXor(BitXor(a, b), b) == a
    decreases a + b
  {
    if a == 0 {
      BitXorSelf(b);
    } else if b != 0 {
      var x := BitXor(a, b);
      BitXorCancel(a / 2, b / 2);
      assert x / 2 == BitXor(a / 2, b / 2);
    }
  }

  function XorByte(a: byte, b: byte): (r: byte)
    ensures BitXor(r, b) == a
  {
    BitXorBound(a, b, 8);
    BitXorCancel(a, b);
    BitXor(a, b)
  }

  /** Element-wise exclusive-or of two byte strings of equal length. */
  function Xor(a: seq<byte>, b: seq<byte>): (r: seq<byte>)
    requires |a| == |b|
    ensures |r| == |a|
    ensures forall i :: 0 <= i < |a| ==> r[i] == XorByte(a[i], b[i])
  {
    seq(|a|, i requires 0 <= i < |a| => XorByte(a[i], b[i]))
  }

  /** Masking twice with the same bytes gives the original bytes back. */
  lemma XorCancel(a: seq<byte>, b: seq<byte>)
    requires |a| == |b|
    ensures Xor(Xor(a, b), b) == a
  {
  }
}
