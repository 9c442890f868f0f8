/**
  PBKDF2 (section 5.2 of RFC 8018) with HMAC-SHA-512 as the pseudorandom
  function, and the `Rfc2898DeriveBytes` object that hands out its output as a
  stream: each `GetBytes` call continues where the previous one stopped.
*/
module Pbkdf2 {
  import opened Bytes
  import opened Primitives

  /** INT(i): the block index as four bytes, most significant first. */
  function BlockIndex(i: nat): (r: seq<byte>)
    ensures |r| == 4
  {
    [(i / 0x100_0000) % 0x100, (i / 0x1_0000) % 0x100, (i / 0x100) % 0x100, i % 0x100]
  }

  /** U_1 xor U_2 xor ... xor U_count, where U_1 = u and U_(j+1) = PRF(P, U_j). */
  function XorChain(p: Primitives, password: seq<byte>, u: seq<byte>, count: nat): (r: seq<byte>)
    requires p.Valid() && |u| == HmacSha512Bytes && count >= 1
    ensures |r| == HmacSha512Bytes
    decreases count
  {
    if count == 1 then u
    else Xor(u, XorChain(p, password, p.hmacSha512(password, u), count - 1))
  }

  /** T_i = F(P, S, c, i), the i-th 64-byte block of derived key material. */
  function BlockF(p: Primitives, password: seq<byte>, salt: seq<byte>, iterations: nat, i: nat): (r: seq<byte>)
    requires p.Valid() && iterations >= 1
    ensures |r| == HmacSha512Bytes
  {
    XorChain(p, password, p.hmacSha512(password, salt + BlockIndex(i)), iterations)
  }

  /** T_1 || T_2 || ... || T_k. */
  function Blocks(p: Primitives, password: seq<byte>, salt: seq<byte>, iterations: nat, k: nat): (r: seq<byte>)
    requires p.Valid() && iterations >= 1
    ensures |r| == HmacSha512Bytes * k
  {
    if k == 0 then [] else Blocks(p, password, salt, iterations, k - 1) + BlockF(p, password, salt, iterations, k)
  }

  /** The first `n` bytes of the derived stream. */
  function DerivedBytes(p: Primitives, password: seq<byte>, salt: seq<byte>, iterations: nat, n: nat): (r: seq<byte>)
    requires p.Valid() && iterations >= 1
    ensures |r| == n
  {
    Blocks(p, password, salt, iterations, (n + HmacSha512Bytes - 1) / HmacSha512Bytes)[..n]
  }

  /** A shorter run of blocks is a prefix of a longer one. */
  lemma {:induction false} BlocksPrefix(p: Primitives, password: seq<byte>, salt: seq<byte>, iterations: nat, k: nat, j: nat)
    requires p.Valid() && iterations >= 1 && j <= k
    ensures Blocks(p, password, salt, iterations, k)[..HmacSha512Bytes * j] == Blocks(p, password, salt, iterations, j)
    decreases k
  {
    if j < k {
      var shorter := Blocks(p, password, salt, iterations, k - 1);
      BlocksPrefix(p, password, salt, iterations, k - 1, j);
      assert Blocks(p, password, salt, iterations, k)[..HmacSha512Bytes * j] == shorter[..HmacSha512Bytes * j];
    }
  }

  /**
    The derived bytes form one stream: asking for fewer bytes gives a prefix of
    what asking for more gives. This is what makes two consecutive `GetBytes`
    calls return consecutive slices of one output.
  */
  lemma DerivedBytesPrefix(p: Primitives, password: seq<byte>, salt: seq<byte>, iterations: nat, n: nat, m: nat)
    requires p.Valid() && iterations >= 1 && m <= n
    ensures |DerivedBytes(p, password, salt, iterations, n)| == n
    ensures DerivedBytes(p, password, salt, iterations, n)[..m] == DerivedBytes(p, password, salt, iterations, m)
  {
    var k := (n + HmacSha512Bytes - 1) / HmacSha512Bytes;
    var j := (m + HmacSha512Bytes - 1) / HmacSha512Bytes;
    BlocksPrefix(p, password, salt, iterations, k, j);
  }

  /** The derived bytes up to 64 all come from the first block, T_1. */
  lemma DerivedBytesFromFirstBlock(p: Primitives, password: seq<byte>, salt: seq<byte>, iterations: nat, n: nat)
    requires p.Valid() && iterations >= 1 && 0 < n <= HmacSha512Bytes
    ensures DerivedBytes(p, password, salt, iterations, n) == BlockF(p, password, salt, iterations, 1)[..n]
  {
  }

  /** `Rfc2898DeriveBytes`: a derivation whose output is read out in order. */
  class DeriveBytes {
    const prims: Primitives
    const password: seq<byte>
    const salt: seq<byte>
    const iterations: nat
    /** How many derived bytes earlier `GetBytes` calls have handed out. */
    var position: nat

    constructor (prims: Primitives, password: seq<byte>, salt: seq<byte>, iterations: nat)
      requires iterations >= 1
      ensures this.prims == prims && this.password == password && this.salt == salt
      ensures this.iterations == iterations && position == 0
    {
      this.prims := prims;
      this.password := password;
      this.salt := salt;
      this.iterations := iterations;
      position := 0;
    }

    /** The next `count` bytes of the derived stream. */
    method GetBytes(count: nat) returns (bytes: seq<byte>)
      requires prims.Valid() && iterations >= 1 && count > 0
      modifies this
      ensures position == old(position) + count
      ensures |bytes| == count
      ensures bytes == DerivedBytes(prims, password, salt, iterations, position)[old(position)..]
    {
      var all := DerivedBytes(prims, password, salt, iterations, position + count);
      DerivedBytesPrefix(prims, password, salt, iterations, position + count, position + count);
      bytes := all[position..];
      position := position + count;
    }
  }
}
