/**
  The `Cryptography` service: password-based key and IV derivation, and AES
  encryption and decryption of streams and of strings. Every failure leaves the
  service as a `CryptographyException` carrying a fixed message per operation
  and the original failure as its inner exception.
*/
module Cryptography {
  import opened Wrappers
  import opened CSharpInt
  import opened Bytes
  import opened Utf8
  import opened Primitives
  import opened Pbkdf2
  import opened AesCbc
  import opened Streams

  /** The inner exception a `CryptographyException` wraps. */
  datatype Cause =
    | Cipher(failure: CipherFailure)   // `CryptographicException` from the AES object
    | InvalidIterationCount            // `Rfc2898DeriveBytes` rejects a count below 1
    | InvalidBase64                    // `FormatException` from `Convert.FromBase64String`
    | Disposed                         // `ObjectDisposedException` from a closed input stream

  datatype CryptographyException = CryptographyException(message: string, inner: Cause)

  const KeyAndIVFailedMessage: string := "Failed to generate a cryptographic Key and IV!"
  const DecryptStreamFailedMessage: string := "Failed to decrypt a stream with AES!"
  const DecryptStringFailedMessage: string := "Failed to decrypt a string with AES!"
  const EncryptStreamFailedMessage: string := "Failed to encrypt a stream with AES!"
  const EncryptStringFailedMessage: string := "Failed to encrypt a string with AES!"

  /** The `KeySize` and `BlockSize` the service sets, in bits. */
  const KeySizeBits: nat := 256
  const BlockSizeBits: nat := 128

  const DefaultIterationCount: int32 := 30000

  /** The `Tuple<byte[], byte[]>` of key (`Item1`) and IV (`Item2`). */
  datatype KeyAndIV = KeyAndIV(key: seq<byte>, iv: seq<byte>)

  // -------------------------------------------------------------------
  // Key and IV derivation
  // -------------------------------------------------------------------

  /**
    What `GenerateKeyAndIVAsync` returns: the first `KeySize / 8` bytes of the
    PBKDF2-HMAC-SHA-512 stream over the UTF-8 password and salt become the key,
    the next `BlockSize / 8` bytes the IV.
  */
  function DeriveKeyAndIV(p: Primitives, password: string, salt: string, iterationCount: int32): (r: Result<KeyAndIV, CryptographyException>)
    requires p.Valid()
    ensures r.Failure? <==> iterationCount < 1
    ensures r.Failure? ==> r.error == CryptographyException(KeyAndIVFailedMessage, InvalidIterationCount)
    ensures r.Success? ==> |r.value.key| == KeySizeBits / 8 && |r.value.iv| == BlockSizeBits / 8
    ensures r.Success? ==> ValidKeySize(r.value.key) && CheckKeyAndIV(r.value.key, r.value.iv) == None
  {
    if iterationCount < 1 then
      Failure(CryptographyException(KeyAndIVFailedMessage, InvalidIterationCount))
    else
      var stream := DerivedBytes(p, Utf8Encode(password), Utf8Encode(salt), iterationCount, 48);
      DerivedBytesPrefix(p, Utf8Encode(password), Utf8Encode(salt), iterationCount, 48, 48);
      Success(KeyAndIV(stream[..32], stream[32..48]))
  }

  /**
    The key and the IV are consecutive slices, bytes 0..31 and 32..47, of the
    first PBKDF2 block T_1 = F(UTF8(password), UTF8(salt), c, 1).
  */
  lemma KeyAndIVFromFirstBlock(p: Primitives, password: string, salt: string, iterationCount: int32)
    requires p.Valid() && iterationCount >= 1
    ensures DeriveKeyAndIV(p, password, salt, iterationCount).Success?
    ensures DeriveKeyAndIV(p, password, salt, iterationCount).value.key
            == BlockF(p, Utf8Encode(password), Utf8Encode(salt), iterationCount, 1)[..32]
    ensures DeriveKeyAndIV(p, password, salt, iterationCount).value.iv
            == BlockF(p, Utf8Encode(password), Utf8Encode(salt), iterationCount, 1)[32..48]
  {
    DerivedBytesFromFirstBlock(p, Utf8Encode(password), Utf8Encode(salt), iterationCount, 48);
  }

  /**
    `GenerateKeyAndIVAsync`: one `Rfc2898DeriveBytes` object, read twice, first
    for the key and then, continuing the same stream, for the IV.
  */
  method GenerateKeyAndIV(p: Primitives, password: string, salt: string, iterationCount: int32 := DefaultIterationCount)
    returns (r: Result<KeyAndIV, CryptographyException>)
    requires p.Valid()
    ensures r == DeriveKeyAndIV(p, password, salt, iterationCount)
  {
    var passwordBytes := Utf8Encode(password);
    var saltBytes := Utf8Encode(salt);
    if iterationCount < 1 {
      return Failure(CryptographyException(KeyAndIVFailedMessage, InvalidIterationCount));
    }
    var derivedKey := new DeriveBytes(p, passwordBytes, saltBytes, iterationCount);
    var key := derivedKey.GetBytes(KeySizeBits / 8);
    var iv := derivedKey.GetBytes(BlockSizeBits / 8);
    ghost var stream := DerivedBytes(p, passwordBytes, saltBytes, iterationCount, 48);
    DerivedBytesPrefix(p, passwordBytes, saltBytes, iterationCount, 48, 32);
    assert key == stream[..32];
    assert iv == stream[32..48];
    r := Success(KeyAndIV(key, iv));
  }

  // -------------------------------------------------------------------
  // Strings: UTF-8, then AES, then Base64, and back
  // -------------------------------------------------------------------

  /** `AesEncryptAsync(key, iv, string)`. */
  function AesEncryptString(p: Primitives, key: seq<byte>, iv: seq<byte>, value: Option<string>): (r: Result<string, CryptographyException>)
    requires p.Valid()
    ensures IsNullOrEmpty(value) ==> r == Success("")
    ensures r.Failure? <==> !IsNullOrEmpty(value) && CheckKeyAndIV(key, iv).Some?
    ensures r.Failure? ==> r.error == CryptographyException(EncryptStringFailedMessage, Cipher(CheckKeyAndIV(key, iv).value))
    ensures r.Success? && !IsNullOrEmpty(value) ==>
              && CheckKeyAndIV(key, iv) == None
              && p.fromBase64(r.value) == Some(EncryptBytes(p, key, iv, Utf8Encode(value.value)))
              && r.value != ""
  {
    if IsNullOrEmpty(value) then Success("")
    else match CheckKeyAndIV(key, iv)
      case Some(failure) => Failure(CryptographyException(EncryptStringFailedMessage, Cipher(failure)))
      case None => Success(p.toBase64(EncryptBytes(p, key, iv, Utf8Encode(value.value))))
  }

  /** `AesDecryptAsync(key, iv, string)`. */
  function AesDecryptString(p: Primitives, key: seq<byte>, iv: seq<byte>, value: Option<string>): (r: Result<string, CryptographyException>)
    requires p.Valid()
    ensures IsNullOrEmpty(value) ==> r == Success("")
    ensures r.Failure? ==> r.error.message == DecryptStringFailedMessage
    ensures !IsNullOrEmpty(value) && CheckKeyAndIV(key, iv).Some? ==>
              r == Failure(CryptographyException(DecryptStringFailedMessage, Cipher(CheckKeyAndIV(key, iv).value)))
    ensures !IsNullOrEmpty(value) && CheckKeyAndIV(key, iv) == None && p.fromBase64(value.value) == None ==>
              r == Failure(CryptographyException(DecryptStringFailedMessage, InvalidBase64))
    ensures !IsNullOrEmpty(value) && CheckKeyAndIV(key, iv) == None && p.fromBase64(value.value) == Some([]) ==>
              r == Success("")
    ensures !IsNullOrEmpty(value) && CheckKeyAndIV(key, iv) == None && p.fromBase64(value.value).Some?
            && DecryptBytes(p, key, iv, p.fromBase64(value.value).value).Failure? ==>
              r == Failure(CryptographyException(DecryptStringFailedMessage,
                                                 Cipher(DecryptBytes(p, key, iv, p.fromBase64(value.value).value).error)))
  {
    if IsNullOrEmpty(value) then Success("")
    else match CheckKeyAndIV(key, iv)
      case Some(failure) => Failure(CryptographyException(DecryptStringFailedMessage, Cipher(failure)))
      case None =>
        match p.fromBase64(value.value)
        case None => Failure(CryptographyException(DecryptStringFailedMessage, InvalidBase64))
        case Some(encrypted) =>
          match DecryptBytes(p, key, iv, encrypted)
          case Failure(failure) => Failure(CryptographyException(DecryptStringFailedMessage, Cipher(failure)))
          case Success(plain) => Success(ReadToEnd(p, plain))
  }

  /**
    The string round trip: decrypting the encryption of `s` under the same key
    and IV gives `s` back, except that a leading U+FEFF is lost, because the
    writer emits no byte-order mark and the reader strips one.
  */
  lemma StringRoundTrip(p: Primitives, key: seq<byte>, iv: seq<byte>, s: string)
    requires p.Valid() && CheckKeyAndIV(key, iv) == None
    ensures AesEncryptString(p, key, iv, Some(s)).Success?
    ensures AesDecryptString(p, key, iv, Some(AesEncryptString(p, key, iv, Some(s)).value))
            == Success(if StartsWithByteOrderMark(s) then s[1..] else s)
  {
    if s != "" {
      DecryptEncrypt(p, key, iv, Utf8Encode(s));
      ReadToEndOfUtf8(p, s);
    }
  }

  /** The Base64 text is 4 characters per 3 ciphertext bytes, a whole number of blocks. */
  lemma EncryptedStringLength(p: Primitives, key: seq<byte>, iv: seq<byte>, s: string)
    requires p.Valid() && CheckKeyAndIV(key, iv) == None && s != ""
    ensures |AesEncryptString(p, key, iv, Some(s)).value|
            == 4 * ((AesBlockBytes * (|Utf8Encode(s)| / AesBlockBytes + 1) + 2) / 3)
  {
  }

  // -------------------------------------------------------------------
  // Streams
  // -------------------------------------------------------------------

  /**
    `AesEncryptAsync(key, iv, Stream)`: a `CryptoStream` in read mode over the
    input is copied into a fresh destination stream, which is then rewound.
    That `CryptoStream` does not leave its inner stream open, so disposing of it
    closes the caller's input. An input that is already closed makes the
    `Length` test throw `ObjectDisposedException`.
  */
  method AesEncryptStream(p: Primitives, key: seq<byte>, iv: seq<byte>, value: MemoryStream?)
    returns (r: Result<MemoryStream, CryptographyException>)
    requires p.Valid()
    requires value != null ==> value.Valid()
    modifies value
    ensures value != null ==> value.Valid() && value.data == old(value.data)
    ensures value != null && !old(value.isOpen) ==>
              && r == Failure(CryptographyException(EncryptStreamFailedMessage, Disposed))
              && !value.isOpen && value.position == old(value.position)
    ensures value == null || (old(value.isOpen) && old(|value.data|) == 0) ==>
              && r.Success? && fresh(r.value) && r.value.isOpen && r.value.data == [] && r.value.position == 0
              && (value != null ==> value.isOpen && value.position == old(value.position))
    ensures value != null && old(value.isOpen) && old(|value.data|) > 0 && CheckKeyAndIV(key, iv).Some? ==>
              && r == Failure(CryptographyException(EncryptStreamFailedMessage, Cipher(CheckKeyAndIV(key, iv).value)))
              && value.isOpen && value.position == old(value.position)
    ensures value != null && old(value.isOpen) && old(|value.data|) > 0 && CheckKeyAndIV(key, iv) == None ==>
              && r.Success? && fresh(r.value) && r.value.Valid() && r.value.isOpen && r.value.position == 0
              && r.value.data == EncryptBytes(p, key, iv, old(value.data[value.position..]))
              && value.position == |value.data| && !value.isOpen
  {
    if value != null && !value.isOpen {
      return Failure(CryptographyException(EncryptStreamFailedMessage, Disposed));
    }
    if value == null || value.Length() == 0 {
      var empty := new MemoryStream();
      return Success(empty);
    }
    var keyCheck := CheckKeyAndIV(key, iv);
    if keyCheck.Some? {
      return Failure(CryptographyException(EncryptStreamFailedMessage, Cipher(keyCheck.value)));
    }
    var plain := value.ReadToEnd();
    var destStream := new MemoryStream();
    destStream.Write(EncryptBytes(p, key, iv, plain));
    destStream.SeekToBegin();
    // disposing of the read-mode `CryptoStream` closes its inner stream
    value.Close();
    r := Success(destStream);
  }

  /**
    `AesDecryptAsync(key, iv, Stream)`: the input is copied into a `CryptoStream`
    in write mode over a fresh destination stream; `FlushFinalBlock` checks the
    padding; the destination is then rewound. The input stays open.
  */
  method AesDecryptStream(p: Primitives, key: seq<byte>, iv: seq<byte>, value: MemoryStream?)
    returns (r: Result<MemoryStream, CryptographyException>)
    requires p.Valid()
    requires value != null ==> value.Valid()
    modifies value
    ensures value != null ==> value.Valid() && value.data == old(value.data) && value.isOpen == old(value.isOpen)
    ensures value != null && !old(value.isOpen) ==>
              r == Failure(CryptographyException(DecryptStreamFailedMessage, Disposed)) && value.position == old(value.position)
    ensures value == null || (old(value.isOpen) && old(|value.data|) == 0) ==>
              && r.Success? && fresh(r.value) && r.value.isOpen && r.value.data == [] && r.value.position == 0
              && (value != null ==> value.position == old(value.position))
    ensures value != null && old(value.isOpen) && old(|value.data|) > 0 && CheckKeyAndIV(key, iv).Some? ==>
              && r == Failure(CryptographyException(DecryptStreamFailedMessage, Cipher(CheckKeyAndIV(key, iv).value)))
              && value.position == old(value.position)
    ensures value != null && old(value.isOpen) && old(|value.data|) > 0 && CheckKeyAndIV(key, iv) == None ==>
              && value.position == |value.data|
              && match DecryptBytes(p, key, iv, old(value.data[value.position..]))
                 case Failure(failure) => r == Failure(CryptographyException(DecryptStreamFailedMessage, Cipher(failure)))
                 case Success(plain) =>
                   && r.Success? && fresh(r.value) && r.value.Valid() && r.value.isOpen
                   && r.value.position == 0 && r.value.data == plain
    ensures value != null && old(value.isOpen) && old(value.position) == old(|value.data|) > 0 && CheckKeyAndIV(key, iv) == None ==>
              r.Success? && r.value.data == []
  {
    if value != null && !value.isOpen {
      return Failure(CryptographyException(DecryptStreamFailedMessage, Disposed));
    }
    if value == null || value.Length() == 0 {
      var empty := new MemoryStream();
      return Success(empty);
    }
    var keyCheck := CheckKeyAndIV(key, iv);
    if keyCheck.Some? {
      return Failure(CryptographyException(DecryptStreamFailedMessage, Cipher(keyCheck.value)));
    }
    var destStream := new MemoryStream();
    var encrypted := value.ReadToEnd();
    var decrypted := DecryptBytes(p, key, iv, encrypted);
    if decrypted.Failure? {
      return Failure(CryptographyException(DecryptStreamFailedMessage, Cipher(decrypted.error)));
    }
    destStream.Write(decrypted.value);
    destStream.SeekToBegin();
    r := Success(destStream);
  }

  /**
    The stream round trip: decrypting the stream `AesEncryptStream` returns,
    under the same key and IV, yields the bytes the input held from its
    position on, again in a stream positioned at 0.
  */
  method StreamRoundTrip(p: Primitives, key: seq<byte>, iv: seq<byte>, value: MemoryStream)
    returns (decrypted: MemoryStream)
    requires p.Valid() && CheckKeyAndIV(key, iv) == None
    requires value.Valid() && value.isOpen
    modifies value
    ensures fresh(decrypted) && decrypted.isOpen && decrypted.position == 0
    ensures decrypted.data == if old(value.Length()) == 0 then [] else old(value.data[value.position..])
    ensures value.isOpen <==> old(value.Length()) == 0
  {
    var encrypted := AesEncryptStream(p, key, iv, value);
    var plain := old(value.data[value.position..]);
    if |value.data| > 0 {
      DecryptEncrypt(p, key, iv, plain);
    }
    var result := AesDecryptStream(p, key, iv, encrypted.value);
    decrypted := result.value;
  }
}
