/**
  The library primitives the cryptography service composes, taken as given
  functions: HMAC-SHA-512, the AES block permutation (FIPS 197), the Base64
  codec of RFC 4648 section 4, and the text decoders a `StreamReader` uses.
  `Valid` states the laws the service relies on; every proof about the service
  assumes only these laws.
*/
module Primitives {
  import opened Wrappers
  import opened Bytes
  import opened Utf8

  /** Key lengths the AES `Key` setter accepts (128, 192 and 256 bits). */
  predicate ValidKeySize(key: seq<byte>)
  {
    |key| == 16 || |key| == 24 || |key| == 32
  }

  const AesBlockBytes: nat := 16
  const HmacSha512Bytes: nat := 64

  datatype Primitives = Primitives(
    /** HMAC-SHA-512 of a message under a key. */
    hmacSha512: (seq<byte>, seq<byte>) -> seq<byte>,
    /** The AES forward cipher of one 16-byte block under a key. */
    aesEncryptBlock: (seq<byte>, seq<byte>) -> seq<byte>,
    /** The AES inverse cipher of one 16-byte block under a key. */
    aesDecryptBlock: (seq<byte>, seq<byte>) -> seq<byte>,
    /** `Convert.ToBase64String`. */
    toBase64: seq<byte> -> string,
    /** `Convert.FromBase64String`; `None` stands for its `FormatException`. */
    fromBase64: string -> Option<seq<byte>>,
    /** UTF-8 decoding of bytes that carry no byte-order mark. */
    utf8Decode: seq<byte> -> string,
    /** Decoding of bytes that start with a UTF-16 or UTF-32 byte-order mark. */
    unicodeDecode: seq<byte> -> string)
  {
    ghost predicate Valid()
    {
      && (forall key, message :: |hmacSha512(key, message)| == HmacSha512Bytes)
      && (forall key, block | ValidKeySize(key) && |block| == AesBlockBytes ::
            |aesEncryptBlock(key, block)| == AesBlockBytes
            && aesDecryptBlock(key, aesEncryptBlock(key, block)) == block)
      && (forall key, block | ValidKeySize(key) && |block| == AesBlockBytes ::
            |aesDecryptBlock(key, block)| == AesBlockBytes
            && aesEncryptBlock(key, aesDecryptBlock(key, block)) == block)
      && (forall bytes :: fromBase64(toBase64(bytes)) == Some(bytes))
      && (forall bytes :: |toBase64(bytes)| == 4 * ((|bytes| + 2) / 3))
      && (forall s :: utf8Decode(Utf8Encode(s)) == s)
    }
  }

  /**
    `new StreamReader(stream).ReadToEnd()` over the given bytes: the reader
    starts as UTF-8, detects a byte-order mark and, for a UTF-8 one, drops it.
  */
  function ReadToEnd(p: Primitives, bytes: seq<byte>): (text: string)
    ensures p.Valid() && bytes == [] ==> text == ""
  {
    if StartsWith(bytes, [0xFE, 0xFF]) || StartsWith(bytes, [0xFF, 0xFE])
       || StartsWith(bytes, [0x00, 0x00, 0xFE, 0xFF]) then
      p.unicodeDecode(bytes)
    else if StartsWith(bytes, Utf8Bom) then
      p.utf8Decode(bytes[3..])
    else
      assert Utf8Encode("") == [];
      p.utf8Decode(bytes)
  }

  /**
    Reading back the UTF-8 bytes of a string gives the string, less a leading
    U+FEFF, which the reader takes for a byte-order mark.
  */
  lemma ReadToEndOfUtf8(p: Primitives, s: string)
    requires p.Valid()
    ensures ReadToEnd(p, Utf8Encode(s)) == if StartsWithByteOrderMark(s) then s[1..] else s
  {
    var bytes := Utf8Encode(s);
    EncodeStartsWithBom(s);
    assert !StartsWith(bytes, [0xFE, 0xFF]) by {
      if |bytes| >= 2 { assert bytes[0] < 0xF5; assert bytes[..2][0] == bytes[0]; }
    }
    assert !StartsWith(bytes, [0xFF, 0xFE]) by {
      if |bytes| >= 2 { assert bytes[0] < 0xF5; assert bytes[..2][0] == bytes[0]; }
    }
    assert !StartsWith(bytes, [0x00, 0x00, 0xFE, 0xFF]) by {
      if |bytes| >= 4 { assert bytes[2] < 0xF5; assert bytes[..4][2] == bytes[2]; }
    }
  }
}
