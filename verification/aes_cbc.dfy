/**
  The transform an `Aes` object performs when its `Mode` and `Padding` are left
  at their defaults: CBC chaining (section 6.2 of NIST SP 800-38A) over the AES
  block permutation, with PKCS#7 padding (section 6.3 of RFC 5652).
*/
module AesCbc {
  import opened Wrappers
  import opened Bytes
  import opened Primitives

  /** Why the AES transform or its setup throws `CryptographicException`. */
  datatype CipherFailure =
    | InvalidKeySize   // the `Key` setter rejects the key's length
    | InvalidIVSize    // the `IV` setter rejects the IV's length
    | PartialBlock     // ciphertext is not a whole number of blocks
    | InvalidPadding   // the final block does not end in valid padding

  /** Setting `Key` and then `IV` on the algorithm object. */
  function CheckKeyAndIV(key: seq<byte>, iv: seq<byte>): (r: Option<CipherFailure>)
    ensures r == None <==> ValidKeySize(key) && |iv| == AesBlockBytes
    ensures !ValidKeySize(key) ==> r == Some(InvalidKeySize)
  {
    if !ValidKeySize(key) then Some(InvalidKeySize)
    else if |iv| != AesBlockBytes then Some(InvalidIVSize)
    else None
  }

  // -------------------------------------------------------------------
  // PKCS#7 padding
  // -------------------------------------------------------------------

  /** Appends n copies of the byte n, 1 <= n <= 16, to reach a whole block. */
  function Pad(m: seq<byte>): (r: seq<byte>)
    ensures |r| % AesBlockBytes == 0
    ensures |m| < |r| <= |m| + AesBlockBytes
    ensures r[..|m|] == m
  {
    var n := AesBlockBytes - |m| % AesBlockBytes;
    m + seq(n, _ => n)
  }

  /** Checks and strips the padding; `None` when the padding is malformed. */
  function Unpad(b: seq<byte>): (r: Option<seq<byte>>)
    ensures r.Some? ==> |b| - AesBlockBytes <= |r.value| < |b| && b[..|r.value|] == r.value
    ensures r.Some? ==> forall i :: |r.value| <= i < |b| ==> b[i] as int == |b| - |r.value|
  {
    if |b| == 0 then None
    else
      var n := b[|b| - 1];
      if 1 <= n <= AesBlockBytes && n <= |b|
         && forall i :: |b| - n <= i < |b| ==> b[i] == n
      then Some(b[..|b| - n])
      else None
  }

  /** Removing the padding undoes adding it. */
  lemma UnpadPad(m: seq<byte>)
    ensures Unpad(Pad(m)) == Some(m)
  {
  }

  /** Padding is unambiguous: whole blocks that unpad to `m` are exactly `Pad(m)`. */
  lemma PadUnpad(b: seq<byte>, m: seq<byte>)
    requires |b| % AesBlockBytes == 0
    requires Unpad(b) == Some(m)
    ensures Pad(m) == b
  {
  }

  // -------------------------------------------------------------------
  // CBC chaining
  // -------------------------------------------------------------------

  /** C_j = E(K, P_j xor C_(j-1)), with C_0 the IV. */
  function CbcEncrypt(p: Primitives, key: seq<byte>, iv: seq<byte>, data: seq<byte>): (r: seq<byte>)
    requires p.Valid() && ValidKeySize(key) && |iv| == AesBlockBytes
    requires |data| % AesBlockBytes == 0
    ensures |r| == |data|
    decreases |data|
  {
    if data == [] then []
    else
      var c := p.aesEncryptBlock(key, Xor(data[..AesBlockBytes], iv));
      c + CbcEncrypt(p, key, c, data[AesBlockBytes..])
  }

  /** P_j = D(K, C_j) xor C_(j-1), with C_0 the IV. */
  function CbcDecrypt(p: Primitives, key: seq<byte>, iv: seq<byte>, data: seq<byte>): (r: seq<byte>)
    requires p.Valid() && ValidKeySize(key) && |iv| == AesBlockBytes
    requires |data| % AesBlockBytes == 0
    ensures |r| == |data|
    decreases |data|
  {
    if data == [] then []
    else
      var c := data[..AesBlockBytes];
      Xor(p.aesDecryptBlock(key, c), iv) + CbcDecrypt(p, key, c, data[AesBlockBytes..])
  }

  /** CBC decryption inverts CBC encryption under the same key and IV. */
  lemma {:induction false} CbcRoundTrip(p: Primitives, key: seq<byte>, iv: seq<byte>, data: seq<byte>)
    requires p.Valid() && ValidKeySize(key) && |iv| == AesBlockBytes
    requires |data| % AesBlockBytes == 0
    ensures CbcDecrypt(p, key, iv, CbcEncrypt(p, key, iv, data)) == data
    decreases |data|
  {
    if data != [] {
      var x := Xor(data[..AesBlockBytes], iv);
      var c := p.aesEncryptBlock(key, x);
      var rest := CbcEncrypt(p, key, c, data[AesBlockBytes..]);
      var e := c + rest;
      assert e[..AesBlockBytes] == c && e[AesBlockBytes..] == rest;
      CbcRoundTrip(p, key, c, data[AesBlockBytes..]);
      XorCancel(data[..AesBlockBytes], iv);
      assert data == data[..AesBlockBytes] + data[AesBlockBytes..];
    }
  }

  // -------------------------------------------------------------------
  // The whole transform, as `CreateEncryptor` / `CreateDecryptor` run it
  // through a `CryptoStream`
  // -------------------------------------------------------------------

  /** Encryption pads the plaintext and chains every block. */
  function EncryptBytes(p: Primitives, key: seq<byte>, iv: seq<byte>, plain: seq<byte>): (c: seq<byte>)
    requires p.Valid() && ValidKeySize(key) && |iv| == AesBlockBytes
    ensures |c| == AesBlockBytes * (|plain| / AesBlockBytes + 1)
  {
    CbcEncrypt(p, key, iv, Pad(plain))
  }

  /**
    Decryption rejects input that is not whole blocks and, at the final block,
    padding that does not check. Empty input has no final block: the final
    transform removes padding only from a non-empty decryption, so it yields no
    bytes.
  */
  function DecryptBytes(p: Primitives, key: seq<byte>, iv: seq<byte>, cipher: seq<byte>): (r: Result<seq<byte>, CipherFailure>)
    requires p.Valid() && ValidKeySize(key) && |iv| == AesBlockBytes
    ensures |cipher| % AesBlockBytes != 0 <==> r == Failure(PartialBlock)
    ensures r.Failure? ==> r.error == PartialBlock || r.error == InvalidPadding
    ensures cipher == [] ==> r == Success([])
    ensures r.Success? && cipher != [] ==> |r.value| < |cipher|
  {
    if |cipher| % AesBlockBytes != 0 then Failure(PartialBlock)
    else if cipher == [] then Success([])
    else
      match Unpad(CbcDecrypt(p, key, iv, cipher))
      case None => Failure(InvalidPadding)
      case Some(plain) => Success(plain)
  }

  /** Decrypting what was encrypted under the same key and IV gives the plaintext. */
  lemma DecryptEncrypt(p: Primitives, key: seq<byte>, iv: seq<byte>, plain: seq<byte>)
    requires p.Valid() && ValidKeySize(key) && |iv| == AesBlockBytes
    ensures DecryptBytes(p, key, iv, EncryptBytes(p, key, iv, plain)) == Success(plain)
  {
    CbcRoundTrip(p, key, iv, Pad(plain));
    UnpadPad(plain);
  }

  /** CBC encryption inverts CBC decryption under the same key and IV. */
  lemma {:induction false} CbcRoundTripBack(p: Primitives, key: seq<byte>, iv: seq<byte>, data: seq<byte>)
    requires p.Valid() && ValidKeySize(key) && |iv| == AesBlockBytes
    requires |data| % AesBlockBytes == 0
    ensures CbcEncrypt(p, key, iv, CbcDecrypt(p, key, iv, data)) == data
    decreases |data|
  {
    if data != [] {
      var c := data[..AesBlockBytes];
      var x := p.aesDecryptBlock(key, c);
      var head := Xor(x, iv);
      var rest := CbcDecrypt(p, key, c, data[AesBlockBytes..]);
      var d := head + rest;
      assert d[..AesBlockBytes] == head && d[AesBlockBytes..] == rest;
      XorCancel(x, iv);
      CbcRoundTripBack(p, key, c, data[AesBlockBytes..]);
      assert data == c + data[AesBlockBytes..];
    }
  }

  /**
    Conversely, whatever non-empty input decrypts successfully is the
    encryption of what it decrypts to, so such a decryption has exactly one
    preimage. Empty input decrypts to no bytes, which encrypt to one block.
  */
  lemma EncryptDecrypt(p: Primitives, key: seq<byte>, iv: seq<byte>, cipher: seq<byte>)
    requires p.Valid() && ValidKeySize(key) && |iv| == AesBlockBytes
    requires DecryptBytes(p, key, iv, cipher).Success?
    ensures cipher != [] ==> EncryptBytes(p, key, iv, DecryptBytes(p, key, iv, cipher).value) == cipher
    ensures cipher == [] ==> |EncryptBytes(p, key, iv, DecryptBytes(p, key, iv, cipher).value)| == AesBlockBytes
  {
    if cipher != [] {
      var plain := DecryptBytes(p, key, iv, cipher).value;
      PadUnpad(CbcDecrypt(p, key, iv, cipher), plain);
      CbcRoundTripBack(p, key, iv, cipher);
    }
  }
}
