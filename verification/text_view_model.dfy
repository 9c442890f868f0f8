/**
  The text page's view-model: `EncryptText` and `DecryptText` read the
  credentials from the store, derive the key and IV, and run the cryptography
  service, keeping the outcome in `EncryptedText` or `DecryptedText` and any
  failure's message in `Error`.
*/
module TextPageViewModel {
  import opened Wrappers
  import opened CSharpInt
  import opened Utf8
  import opened Primitives
  import opened Cryptography
  import opened CredentialStore

  const MissingCredentialsMessage: string := "The credentials are missing in the settings!"

  /** The `Message` of the exception `int.Parse` throws. */
  function ParseErrorMessage(e: ParseError): string
  {
    match e
    case FormatError => "Input string was not in a correct format."
    case OverflowError => "Value was either too large or too small for an Int32."
  }

  /** The credentials as read from the store, when none is null or empty. */
  datatype Credentials = Credentials(password: string, salt: string, iterations: string)

  function StoredCredentials(entries: map<string, string>): (r: Option<Credentials>)
    ensures r.Some? <==> HasCredentials(entries)
    ensures r.Some? ==>
              && Lookup(entries, PasswordKey) == Some(r.value.password)
              && Lookup(entries, SaltKey) == Some(r.value.salt)
              && Lookup(entries, IterationsKey) == Some(r.value.iterations)
  {
    if HasCredentials(entries) then
      Some(Credentials(entries[PasswordKey], entries[SaltKey], entries[IterationsKey]))
    else None
  }

  /** Credentials with which both operations get as far as the cipher: an iteration count that parses to a positive value. */
  predicate UsableCredentials(entries: map<string, string>)
  {
    && HasCredentials(entries)
    && ParseInt(entries[IterationsKey]).Success?
    && ParseInt(entries[IterationsKey]).value >= 1
  }

  /** The key and IV the stored credentials give, or the message of what failed first. */
  function StoredKeyAndIV(p: Primitives, entries: map<string, string>): (r: Result<KeyAndIV, string>)
    requires p.Valid()
    ensures r.Success? <==> UsableCredentials(entries)
    ensures !HasCredentials(entries) ==> r == Failure(MissingCredentialsMessage)
    ensures r.Success? ==> ValidKeySize(r.value.key) && |r.value.iv| == AesBlockBytes
  {
    match StoredCredentials(entries)
    case None => Failure(MissingCredentialsMessage)
    case Some(c) =>
      match ParseInt(c.iterations)
      case Failure(e) => Failure(ParseErrorMessage(e))
      case Success(n) =>
        match DeriveKeyAndIV(p, c.password, c.salt, n)
        case Failure(e) => Failure(e.message)
        case Success(k) => Success(k)
  }

  /** What `EncryptText` produces: the new `EncryptedText`, or the new `Error`. */
  function EncryptOutcome(p: Primitives, entries: map<string, string>, decryptedText: string): (r: Result<string, string>)
    requires p.Valid()
    ensures r.Success? <==> UsableCredentials(entries)
    ensures r.Failure? ==> r == Failure(StoredKeyAndIV(p, entries).error)
    ensures r.Success? && decryptedText != "" ==>
              p.fromBase64(r.value).Some? && r.value != ""
  {
    match StoredKeyAndIV(p, entries)
    case Failure(m) => Failure(m)
    case Success(k) =>
      match AesEncryptString(p, k.key, k.iv, Some(decryptedText))
      case Failure(e) => Failure(e.message)
      case Success(s) => Success(s)
  }

  /** What `DecryptText` produces: the new `DecryptedText`, or the new `Error`. */
  function DecryptOutcome(p: Primitives, entries: map<string, string>, encryptedText: string): (r: Result<string, string>)
    requires p.Valid()
    ensures !UsableCredentials(entries) ==> r == Failure(StoredKeyAndIV(p, entries).error)
    ensures UsableCredentials(entries) && r.Failure? ==> r.error == DecryptStringFailedMessage
    ensures encryptedText == "" && UsableCredentials(entries) ==> r == Success("")
  {
    match StoredKeyAndIV(p, entries)
    case Failure(m) => Failure(m)
    case Success(k) =>
      match AesDecryptString(p, k.key, k.iv, Some(encryptedText))
      case Failure(e) => Failure(e.message)
      case Success(s) => Success(s)
  }

  /**
    With the store unchanged in between, decrypting what `EncryptText` produced
    gives the text back, provided it does not start with U+FEFF.
  */
  lemma DecryptEncryptOutcome(p: Primitives, entries: map<string, string>, text: string)
    requires p.Valid() && UsableCredentials(entries)
    requires !StartsWithByteOrderMark(text)
    ensures EncryptOutcome(p, entries, text).Success?
    ensures DecryptOutcome(p, entries, EncryptOutcome(p, entries, text).value) == Success(text)
  {
    var k := StoredKeyAndIV(p, entries).value;
    StringRoundTrip(p, k.key, k.iv, text);
  }

  class TextPageViewModel {
    var error: string
    var decryptedText: string
    var encryptedText: string
    const crypto: Primitives

    constructor (crypto: Primitives)
      ensures this.crypto == crypto
      ensures error == "" && decryptedText == "" && encryptedText == ""
    {
      this.crypto := crypto;
      error := "";
      decryptedText := "";
      encryptedText := "";
    }

    /**
      `EncryptText`: clears `Error`; on success replaces `EncryptedText`; on any
      failure leaves it and records the message in `Error`. `DecryptedText` is
      never touched.
    */
    method EncryptText(storage: SecureStorage)
      requires crypto.Valid()
      modifies this
      ensures decryptedText == old(decryptedText)
      ensures match EncryptOutcome(crypto, storage.entries, old(decryptedText))
              case Success(s) => encryptedText == s && error == ""
              case Failure(m) => encryptedText == old(encryptedText) && error == m
    {
      error := "";
      var password := storage.Get(PasswordKey);
      var salt := storage.Get(SaltKey);
      var iterations := storage.Get(IterationsKey);
      if IsNullOrEmpty(password) || IsNullOrEmpty(salt) || IsNullOrEmpty(iterations) {
        error := MissingCredentialsMessage;
        return;
      }
      var count := ParseInt(iterations.value);
      if count.Failure? {
        error := ParseErrorMessage(count.error);
        return;
      }
      var keyAndIV := GenerateKeyAndIV(crypto, password.value, salt.value, count.value);
      if keyAndIV.Failure? {
        error := keyAndIV.error.message;
        return;
      }
      // a derived key and IV always have legal sizes, so encryption cannot fail here
      var encrypted := AesEncryptString(crypto, keyAndIV.value.key, keyAndIV.value.iv, Some(decryptedText));
      encryptedText := encrypted.value;
    }

    /**
      `DecryptText`: clears `Error`; on success replaces `DecryptedText`; on any
      failure leaves it and records the message in `Error`. `EncryptedText` is
      never touched.
    */
    method DecryptText(storage: SecureStorage)
      requires crypto.Valid()
      modifies this
      ensures encryptedText == old(encryptedText)
      ensures match DecryptOutcome(crypto, storage.entries, old(encryptedText))
              case Success(s) => decryptedText == s && error == ""
              case Failure(m) => decryptedText == old(decryptedText) && error == m
    {
      error := "";
      var password := storage.Get(PasswordKey);
      var salt := storage.Get(SaltKey);
      var iterations := storage.Get(IterationsKey);
      if IsNullOrEmpty(password) || IsNullOrEmpty(salt) || IsNullOrEmpty(iterations) {
        error := MissingCredentialsMessage;
        return;
      }
      var count := ParseInt(iterations.value);
      if count.Failure? {
        error := ParseErrorMessage(count.error);
        return;
      }
      var keyAndIV := GenerateKeyAndIV(crypto, password.value, salt.value, count.value);
      if keyAndIV.Failure? {
        error := keyAndIV.error.message;
        return;
      }
      var decrypted := AesDecryptString(crypto, keyAndIV.value.key, keyAndIV.value.iv, Some(encryptedText));
      if decrypted.Failure? {
        error := decrypted.error.message;
        return;
      }
      decryptedText := decrypted.value;
    }
  }

  /**
    `EncryptText` followed by `DecryptText` over an unchanged store with usable
    credentials restores `DecryptedText` and leaves `Error` empty.
  */
  method EncryptThenDecrypt(viewModel: TextPageViewModel, storage: SecureStorage)
    requires viewModel.crypto.Valid() && UsableCredentials(storage.entries)
    requires !StartsWithByteOrderMark(viewModel.decryptedText)
    modifies viewModel
    ensures viewModel.decryptedText == old(viewModel.decryptedText) && viewModel.error == ""
  {
    DecryptEncryptOutcome(viewModel.crypto, storage.entries, viewModel.decryptedText);
    viewModel.EncryptText(storage);
    viewModel.DecryptText(storage);
  }
}
