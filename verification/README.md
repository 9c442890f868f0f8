# QuickCrypto core, modelled in Dafny

QuickCrypto is a small .NET MAUI desktop tool that encrypts text with a password.
This project models its core and proves properties of the model:

- **The cryptography service** (`Services/Cryptography.cs`). It derives a key and an IV from a password, a salt and an iteration count. It does this with PBKDF2-HMAC-SHA-512 (section 5.2 of RFC 8018) over the UTF-8 bytes of the password and the salt.
  - It encrypts and decrypts streams and strings with AES (FIPS 197) in CBC mode (section 6.2 of NIST SP 800-38A) with PKCS#7 padding (section 6.3 of RFC 5652).
  - Strings go through UTF-8, then AES, then Base64 (section 4 of RFC 4648), and back.
  - Null or empty input short-circuits.
  - Every failure surfaces as a `CryptographyException` with a fixed message for each operation.
- **The random helpers** (`Extensions/RandomNumberGeneratorExtensions.cs`).
  - `NextString` maps each group of four random bytes to one character of an 85-character alphabet.
  - `Next` folds a random signed 32-bit value into a range, using C#'s wrapping `int` arithmetic and its truncating `%`.
- **The page logic over the secure credential store.**
  - The settings page loads, defaults and clamps the credentials, and toggles the visibility of the password and salt inputs (`Pages/Settings/SettingsPage.razor.cs`).
  - The text page seeds default credentials (`Pages/Text/TextPage.razor.cs`).
  - The text view-model encrypts and decrypts text and keeps the `Error`, `EncryptedText` and `DecryptedText` fields (`Pages/Text/TextPageViewModel.cs`).

## How the model is built

The library primitives are not modelled internally: HMAC-SHA-512, the AES block cipher, the Base64 codec, the UTF-8 decoder, and the decoder the stream reader switches to after a UTF-16 or UTF-32 byte-order mark.
- They are function-valued fields of the datatype `Primitives.Primitives`.
- Its predicate `Valid()` states the only laws the proofs use:
  - HMAC outputs are 64 bytes;
  - the AES block functions keep 16-byte blocks and are mutual inverses for a legal key;
  - Base64 decodes its own output, and its output is 4 characters per 3 bytes;
  - UTF-8 decoding inverts `Utf8.Utf8Encode`.

Everything the service builds on top of those primitives is defined concretely:
- UTF-8 encoding, PBKDF2, CBC chaining and PKCS#7 padding;
- the stream reader's byte-order-mark detection;
- C#'s `int.Parse` and `ToString` for `int`;
- C#'s truncating `%` (`CSharpInt.Remainder`), with its divide-by-zero and overflow exceptions;
- two's-complement wrap-around (`CSharpInt.Wrap32`).

The modules follow the source's structure:

| module | file | role |
|---|---|---|
| `Wrappers` | wrappers.dfy | `Option`, `Result`, `string.IsNullOrEmpty` |
| `CSharpInt` | csharp_int.dfy | 32-bit integers, `%`, `int.Parse`, `int.ToString` |
| `Bytes` | bytes.dfy | bytes and XOR |
| `Utf8` | utf8.dfy | UTF-8 encoding and the byte-order mark |
| `Primitives` | primitives.dfy | the library primitives and `StreamReader.ReadToEnd` |
| `Pbkdf2` | pbkdf2.dfy | PBKDF2 and the `Rfc2898DeriveBytes` object |
| `AesCbc` | aes_cbc.dfy | key/IV checks, PKCS#7, CBC |
| `Streams` | memory_stream.dfy | `MemoryStream` |
| `Cryptography` | cryptography.dfy | the service |
| `Random` | random.dfy | the random-number extensions |
| `CredentialStore` | secure_storage.dfy | the secure store and its three keys |
| `SettingsPage` | settings_page.dfy | the settings page |
| `TextPage` | text_page.dfy | the text page |
| `TextPageViewModel` | text_view_model.dfy | the text view-model |

Behaviour of the code that the model keeps and that is easy to overlook:
- The alphabet literal of `NextString` has 85 characters.
- The AES `Key` setter accepts 16-, 24- and 32-byte keys, and the IV must be 16 bytes; the service's own derivation always yields a 32-byte key.
- `Next` has no range check. `Next(m, m)` throws `DivideByZeroException` from the zero divisor. A reversed range such as `Next(5, 3)` returns a value and does not throw.
- A wrong key does not always make decryption fail. A wrong key or IV can still yield bytes whose padding checks by chance, so no lemma claims that it must fail.
- Decrypting no ciphertext bytes succeeds with no plaintext: the final transform strips padding only from a non-empty decryption. A stream input positioned at its end therefore decrypts to an empty stream, and text that Base64 decodes to no bytes decrypts to `""`.
- Encrypting a stream closes the caller's input: the read-mode `CryptoStream` is created without `leaveOpen`, so its disposal disposes of the input. Decryption leaves its input open.

## Model

| member | source | states |
|---|---|---|
| Cryptography.DeriveKeyAndIV | src/CG.Tools.QuickCrypto/Services/Cryptography.cs:85-147 | fails, with the key/IV message and the iteration-count cause, exactly when the count is below 1; otherwise the key is KeySize/8 = 32 bytes, the IV is BlockSize/8 = 16 bytes, and both pass the AES setters |
| Cryptography.KeyAndIVFromFirstBlock | src/CG.Tools.QuickCrypto/Services/Cryptography.cs:114-130 | key and IV are bytes 0..31 and 32..47 of the first PBKDF2-HMAC-SHA-512 block over UTF8(password) and UTF8(salt) |
| Cryptography.GenerateKeyAndIV | src/CG.Tools.QuickCrypto/Services/Cryptography.cs:62-149 | two consecutive `GetBytes` calls on one derivation object, with count 30000 by default, give exactly `DeriveKeyAndIV`, so equal inputs give byte-identical key and IV |
| Pbkdf2.DeriveBytes.GetBytes | src/CG.Tools.QuickCrypto/Services/Cryptography.cs:127-130 | each call returns the next `count` bytes of one derived stream and advances the position by `count` |
| Pbkdf2.DerivedBytesPrefix | src/CG.Tools.QuickCrypto/Services/Cryptography.cs:127-130 | asking for fewer derived bytes gives a prefix of asking for more |
| Pbkdf2.BlocksPrefix | src/CG.Tools.QuickCrypto/Services/Cryptography.cs:114-119 | a shorter run of PBKDF2 blocks is a prefix of a longer one |
| Pbkdf2.DerivedBytesFromFirstBlock | src/CG.Tools.QuickCrypto/Services/Cryptography.cs:127-130 | up to 64 derived bytes all come from block T_1 |
| Pbkdf2.BlockF | src/CG.Tools.QuickCrypto/Services/Cryptography.cs:114-119 | each PBKDF2 block T_i is 64 bytes, the HMAC-SHA-512 output length |
| Pbkdf2.Blocks | src/CG.Tools.QuickCrypto/Services/Cryptography.cs:114-119 | k blocks T_1..T_k concatenate to 64 * k bytes |
| Pbkdf2.DerivedBytes | src/CG.Tools.QuickCrypto/Services/Cryptography.cs:127-130 | asking for n derived bytes gives exactly n bytes |
| AesCbc.CheckKeyAndIV | src/CG.Tools.QuickCrypto/Services/Cryptography.cs:203-204 | the key and IV setters pass exactly for a 16/24/32-byte key and a 16-byte IV; the key is checked first |
| AesCbc.UnpadPad | src/CG.Tools.QuickCrypto/Services/Cryptography.cs:251 | removing PKCS#7 padding undoes adding it |
| AesCbc.PadUnpad | src/CG.Tools.QuickCrypto/Services/Cryptography.cs:251 | whole blocks that unpad to m are exactly the padding of m |
| AesCbc.Unpad | src/CG.Tools.QuickCrypto/Services/Cryptography.cs:251 | a successful unpadding keeps a prefix of the input, removes between 1 and 16 bytes, and every removed byte equals the number of bytes removed |
| AesCbc.Pad | src/CG.Tools.QuickCrypto/Services/Cryptography.cs:483-505 | padding reaches a whole number of blocks, adds 1 to 16 bytes and keeps the message as prefix |
| AesCbc.CbcEncrypt | src/CG.Tools.QuickCrypto/Services/Cryptography.cs:480-505 | CBC encryption of whole blocks keeps the length |
| AesCbc.CbcDecrypt | src/CG.Tools.QuickCrypto/Services/Cryptography.cs:212-251 | CBC decryption of whole blocks keeps the length |
| AesCbc.CbcRoundTrip | src/CG.Tools.QuickCrypto/Services/Cryptography.cs:212-251 | CBC decryption inverts CBC encryption under the same key and IV |
| AesCbc.CbcRoundTripBack | src/CG.Tools.QuickCrypto/Services/Cryptography.cs:212-251 | CBC encryption inverts CBC decryption under the same key and IV |
| AesCbc.EncryptBytes | src/CG.Tools.QuickCrypto/Services/Cryptography.cs:480-505 | the ciphertext is 16 * (n/16 + 1) bytes for n plaintext bytes |
| AesCbc.DecryptBytes | src/CG.Tools.QuickCrypto/Services/Cryptography.cs:212-251 | fails with the partial-block error exactly when the input is not whole blocks; otherwise fails only on bad padding; no input bytes give no output bytes; any other result is shorter than its input |
| AesCbc.DecryptEncrypt | src/CG.Tools.QuickCrypto/Services/Cryptography.cs:228-251 | decrypting the encryption of any bytes under the same key and IV gives them back |
| AesCbc.EncryptDecrypt | src/CG.Tools.QuickCrypto/Services/Cryptography.cs:228-251 | a successful decryption of a non-empty ciphertext re-encrypts to that ciphertext; the empty ciphertext decrypts to bytes that encrypt to one block |
| Utf8.Utf8Encode | src/CG.Tools.QuickCrypto/Services/Cryptography.cs:94-106 | UTF-8 output has at least one byte per character, and no byte above 0xF4 |
| Utf8.EncodeCharIsBom | src/CG.Tools.QuickCrypto/Services/Cryptography.cs:626-638 | a character encodes to EF BB BF exactly when it is U+FEFF |
| Utf8.EncodeStartsWithBom | src/CG.Tools.QuickCrypto/Services/Cryptography.cs:626-638 | the encoding of a string starts with EF BB BF exactly when the string starts with U+FEFF, and the rest encodes the rest |
| Primitives.ReadToEndOfUtf8 | src/CG.Tools.QuickCrypto/Services/Cryptography.cs:384-394 | reading back the UTF-8 bytes of a string gives the string, less a leading U+FEFF |
| Primitives.ReadToEnd | src/CG.Tools.QuickCrypto/Services/Cryptography.cs:384-394 | the reader checks for UTF-16/32 and UTF-8 byte-order marks; no bytes read as the empty string |
| Cryptography.AesEncryptString | src/CG.Tools.QuickCrypto/Services/Cryptography.cs:550-679 | null or empty input gives `""`; otherwise it fails exactly when the key or IV is rejected, with the encrypt-string message; the result is non-empty Base64 that decodes to the AES output over the UTF-8 bytes |
| Cryptography.AesDecryptString | src/CG.Tools.QuickCrypto/Services/Cryptography.cs:296-417 | null or empty input gives `""`; every failure carries the decrypt-string message; a rejected key or IV, and text that is not Base64, each fail with their own cause; text that Base64 decodes to no bytes gives `""`; decoded bytes that are not whole blocks or whose padding does not check fail with the cipher's cause |
| Cryptography.StringRoundTrip | src/CG.Tools.QuickCrypto/Services/Cryptography.cs:296-679 | decrypting the encryption of s gives s, or s without its first character when that is U+FEFF |
| Cryptography.EncryptedStringLength | src/CG.Tools.QuickCrypto/Services/Cryptography.cs:647-657 | the Base64 text has 4 characters per 3 ciphertext bytes, and the ciphertext is whole blocks |
| Cryptography.AesEncryptStream | src/CG.Tools.QuickCrypto/Services/Cryptography.cs:433-534 | a closed input fails with the encrypt-stream message and the disposed cause; a null or empty input gives a fresh empty stream and is untouched; a rejected key or IV fails before the input is read and leaves it open; otherwise the input is read to its end and closed, and a fresh open stream at position 0 holds the whole ciphertext |
| Cryptography.AesDecryptStream | src/CG.Tools.QuickCrypto/Services/Cryptography.cs:165-280 | as for encryption, except that the input is never closed; the input is consumed before padding is checked; a bad ciphertext fails with the decrypt-stream message and the cipher's cause; an input positioned at its end gives an empty stream |
| Cryptography.StreamRoundTrip | src/CG.Tools.QuickCrypto/Services/Cryptography.cs:165-534 | decrypting the stream that encryption returned gives an open stream at position 0 holding the input's unread bytes; the input ends closed unless it was empty |
| Streams.MemoryStream.Write | src/CG.Tools.QuickCrypto/Services/Cryptography.cs:503-505 | writing overwrites from the position on, keeps what lies before it and advances the position |
| Streams.MemoryStream.ReadToEnd | src/CG.Tools.QuickCrypto/Services/Cryptography.cs:241-243 | copying out returns the bytes from the position on and leaves the position at the end |
| Streams.MemoryStream.SeekToBegin | src/CG.Tools.QuickCrypto/Services/Cryptography.cs:260 | the stream keeps its bytes and is positioned at 0 |
| Streams.MemoryStream.Close | src/CG.Tools.QuickCrypto/Services/Cryptography.cs:483-517 | the stream is closed, with its bytes and position kept |
| CSharpInt.Wrap32 | src/CG.Tools.QuickCrypto/Extensions/RandomNumberGeneratorExtensions.cs:133-134 | the result is the input modulo 2^32, in the int range, and unchanged when the input fits |
| CSharpInt.Remainder | src/CG.Tools.QuickCrypto/Extensions/RandomNumberGeneratorExtensions.cs:133-134 | C#'s `%`: divide by zero exactly for a zero divisor, overflow for int.MinValue % -1; the sign follows the dividend and the size is below the divisor's |
| CSharpInt.IntToString | src/CG.Tools.QuickCrypto/Pages/Settings/SettingsPage.razor.cs:171-177 | the rendering is non-empty, starts with `-` exactly for a negative value, and is otherwise all decimal digits |
| CSharpInt.ParseInt | src/CG.Tools.QuickCrypto/Pages/Settings/SettingsPage.razor.cs:94 | a successful parse needs at least one decimal digit; its round trip with `IntToString` is `ParseIntToString` |
| CSharpInt.ParseIntToString | src/CG.Tools.QuickCrypto/Pages/Settings/SettingsPage.razor.cs:171-177 | `int.Parse` of the decimal text of any int gives that int back |
| Random.RandomNumberGenerator.GetBytes | src/CG.Tools.QuickCrypto/Extensions/RandomNumberGeneratorExtensions.cs:62-63 | the array is filled with the next bytes of the generator's stream, and the draw count grows by its length |
| Random.RandomNumberGenerator.GetNonZeroBytes | src/CG.Tools.QuickCrypto/Extensions/RandomNumberGeneratorExtensions.cs:126-127 | the array is filled with the next non-zero bytes |
| Random.AllCharsSize | src/CG.Tools.QuickCrypto/Extensions/RandomNumberGeneratorExtensions.cs:21-22 | the alphabet literal has 85 characters |
| Random.ToUInt32 | src/CG.Tools.QuickCrypto/Extensions/RandomNumberGeneratorExtensions.cs:70 | a little-endian four-byte value is below 2^32 |
| Random.ToInt32 | src/CG.Tools.QuickCrypto/Extensions/RandomNumberGeneratorExtensions.cs:130 | the signed reading is the unsigned reading wrapped to 32 bits |
| Random.RandomChars | src/CG.Tools.QuickCrypto/Extensions/RandomNumberGeneratorExtensions.cs:66-83 | the string has exactly `size` characters |
| Random.RandomCharsAt | src/CG.Tools.QuickCrypto/Extensions/RandomNumberGeneratorExtensions.cs:70-76 | character k is the alphabet entry at the little-endian uint32 of bytes 4k..4k+3, modulo 85 |
| Random.RandomCharsInAlphabet | src/CG.Tools.QuickCrypto/Extensions/RandomNumberGeneratorExtensions.cs:73-76 | every character belongs to the alphabet |
| Random.RandomCharsUsesPrefix | src/CG.Tools.QuickCrypto/Extensions/RandomNumberGeneratorExtensions.cs:62-76 | only the first 4 * size bytes matter |
| Random.BufferLengthOfSize | src/CG.Tools.QuickCrypto/Extensions/RandomNumberGeneratorExtensions.cs:62 | for size >= 0 a non-negative wrapped buffer length is a multiple of 4, at most 4 * size, and equal to it exactly when size < 2^29 |
| Random.NextString | src/CG.Tools.QuickCrypto/Extensions/RandomNumberGeneratorExtensions.cs:56-84 | succeeds exactly when 0 <= size < 2^29, drawing exactly 4 * size bytes, with the string built from them; a negative wrapped buffer length throws overflow before drawing; any other failure is argument-out-of-range |
| Random.FoldIntoRange | src/CG.Tools.QuickCrypto/Extensions/RandomNumberGeneratorExtensions.cs:123-134 | divides by zero exactly when max == min |
| Random.NextEmptyRangeDividesByZero | src/CG.Tools.QuickCrypto/Extensions/RandomNumberGeneratorExtensions.cs:123-133 | `Next(m, m)` throws divide-by-zero for every drawn value |
| Random.FoldIntoRangeBounds | src/CG.Tools.QuickCrypto/Extensions/RandomNumberGeneratorExtensions.cs:123-137 | when 0 < max - min <= 2^30 the result v satisfies min <= v < max, and v - min is the wrapped val - min reduced modulo max - min |
| Random.Next | src/CG.Tools.QuickCrypto/Extensions/RandomNumberGeneratorExtensions.cs:116-139 | draws exactly four non-zero bytes, and no others, and returns the fold of their signed value |
| Random.FoldIntoRangeOverflow | src/CG.Tools.QuickCrypto/Extensions/RandomNumberGeneratorExtensions.cs:133-134 | over [0, int.MaxValue) the drawn value 0x01010101 gives -2130640640, outside the range |
| Random.FoldIntoRangeChecked | src/CG.Tools.QuickCrypto/Extensions/RandomNumberGeneratorExtensions.cs:116-139 | fails exactly for an empty or reversed range, and otherwise returns a value in [min, max) for every range width |
| Random.FoldIntoRangeCheckedAgrees | src/CG.Tools.QuickCrypto/Extensions/RandomNumberGeneratorExtensions.cs:133-134 | for widths up to 2^30 the checked fold and the code's fold return the same value |
| CredentialStore.SecureStorage.Get | src/CG.Tools.QuickCrypto/Pages/Text/TextPageViewModel.cs:189-191 | a stored key yields its value, and a missing key yields null |
| CredentialStore.SecureStorage.SetAsync | src/CG.Tools.QuickCrypto/Pages/Settings/SettingsPage.razor.cs:116-119 | the key maps to the value, and every other entry is unchanged |
| SettingsPage.ClampIterations | src/CG.Tools.QuickCrypto/Pages/Settings/SettingsPage.razor.cs:158-168 | the result lies in [10000, 100000], and a value already in range is unchanged |
| SettingsPage.ClampIdempotent | src/CG.Tools.QuickCrypto/Pages/Settings/SettingsPage.razor.cs:158-168 | clamping twice is clamping once |
| SettingsPage.ClampIsNearest | src/CG.Tools.QuickCrypto/Pages/Settings/SettingsPage.razor.cs:158-168 | the clamped value is the point of the range closest to the input |
| SettingsPage.OrDefault | src/CG.Tools.QuickCrypto/Pages/Settings/SettingsPage.razor.cs:111-113 | the result is never empty, and a non-empty input is kept |
| SettingsPage.OrDefaultIdempotent | src/CG.Tools.QuickCrypto/Pages/Settings/SettingsPage.razor.cs:132-134 | feeding a stored value back in stores it unchanged |
| SettingsPage.Toggled | src/CG.Tools.QuickCrypto/Pages/Settings/SettingsPage.razor.cs:185-199 | a toggle flips the flag and leaves icon and input type consistent with it (shown ⇔ Text ⇔ Visibility) |
| SettingsPage.ToggleTwice | src/CG.Tools.QuickCrypto/Pages/Settings/SettingsPage.razor.cs:185-220 | toggling twice gives back the original view: flag, icon and input type |
| SettingsPage.SettingsPage.constructor | src/CG.Tools.QuickCrypto/Pages/Settings/SettingsPage.razor.cs:20-45 | both inputs start hidden, in a consistent state |
| SettingsPage.SettingsPage.OnInitialized | src/CG.Tools.QuickCrypto/Pages/Settings/SettingsPage.razor.cs:74-99 | password and salt are copied as stored; absent iterations become 30000; stored iterations are parsed without a clamp; a parse failure escapes and leaves iterations alone |
| SettingsPage.SettingsPage.OnPasswordChanged | src/CG.Tools.QuickCrypto/Pages/Settings/SettingsPage.razor.cs:108-120 | the view-model and the store both get the password, or "My Password" when it is null or empty; nothing else changes |
| SettingsPage.SettingsPage.OnSaltChanged | src/CG.Tools.QuickCrypto/Pages/Settings/SettingsPage.razor.cs:129-141 | the view-model and the store both get the salt, or "My Salt" when it is null or empty; nothing else changes |
| SettingsPage.SettingsPage.OnIterationsChanged | src/CG.Tools.QuickCrypto/Pages/Settings/SettingsPage.razor.cs:150-178 | 0 changes nothing; any other value is clamped into the view-model and stored as decimal text that parses back to it |
| SettingsPage.SettingsPage.TogglePasswordVisibility | src/CG.Tools.QuickCrypto/Pages/Settings/SettingsPage.razor.cs:185-199 | the password input is toggled, the salt input is untouched, and consistency is kept |
| SettingsPage.SettingsPage.ToggleSaltVisibility | src/CG.Tools.QuickCrypto/Pages/Settings/SettingsPage.razor.cs:206-220 | the salt input is toggled, the password input is untouched, and consistency is kept |
| TextPage.SeedDefaults | src/CG.Tools.QuickCrypto/Pages/Text/TextPage.razor.cs:59-69 | afterwards all three credentials are non-empty; a complete store is unchanged; otherwise all three are overwritten with the defaults; other keys are never touched |
| TextPage.SeedDefaultsIdempotent | src/CG.Tools.QuickCrypto/Pages/Text/TextPage.razor.cs:59-78 | seeding twice has the effect of seeding once |
| TextPage.SeededIterationsInRange | src/CG.Tools.QuickCrypto/Pages/Text/TextPage.razor.cs:69 | "30000" parses to 30000, which the settings clamp leaves unchanged |
| TextPage.TextPage.OnInitialized | src/CG.Tools.QuickCrypto/Pages/Text/TextPage.razor.cs:53-79 | the store becomes `SeedDefaults` of the old store, and the dialog is shown exactly when a credential was null or empty |
| TextPageViewModel.StoredCredentials | src/CG.Tools.QuickCrypto/Pages/Text/TextPageViewModel.cs:189-200 | credentials are found exactly when all three keys hold non-empty text, and they are those texts |
| TextPageViewModel.StoredKeyAndIV | src/CG.Tools.QuickCrypto/Pages/Text/TextPageViewModel.cs:189-207 | succeeds exactly for usable credentials (present, and iterations parse to a positive value), with a legal key and IV; missing credentials give the missing-credentials message |
| TextPageViewModel.EncryptOutcome | src/CG.Tools.QuickCrypto/Pages/Text/TextPageViewModel.cs:181-221 | succeeds exactly for usable credentials; a failure is the message of the first failing step; non-empty text encrypts to non-empty Base64 |
| TextPageViewModel.DecryptOutcome | src/CG.Tools.QuickCrypto/Pages/Text/TextPageViewModel.cs:230-270 | unusable credentials give the same message as for encryption; with usable ones every failure is the decrypt-string message, and empty text gives `""` |
| TextPageViewModel.DecryptEncryptOutcome | src/CG.Tools.QuickCrypto/Pages/Text/TextPageViewModel.cs:181-270 | under usable credentials, decrypting what encryption produced gives the text back, for text not starting with U+FEFF |
| TextPageViewModel.TextPageViewModel.constructor | src/CG.Tools.QuickCrypto/Pages/Text/TextPageViewModel.cs:21-31 | all three text fields start empty |
| TextPageViewModel.TextPageViewModel.EncryptText | src/CG.Tools.QuickCrypto/Pages/Text/TextPageViewModel.cs:181-221 | `Error` is cleared; on success only `EncryptedText` changes, to the outcome; on failure `EncryptedText` is kept and `Error` holds the message; `DecryptedText` is never touched |
| TextPageViewModel.TextPageViewModel.DecryptText | src/CG.Tools.QuickCrypto/Pages/Text/TextPageViewModel.cs:230-270 | the same, with the roles of `DecryptedText` and `EncryptedText` swapped |
| TextPageViewModel.EncryptThenDecrypt | src/CG.Tools.QuickCrypto/Pages/Text/TextPageViewModel.cs:181-270 | over an unchanged store with usable credentials, `EncryptText` then `DecryptText` restores `DecryptedText` and leaves `Error` empty |

## Left out

- Async plumbing (`ValueTask`, `await`, `ConfigureAwait`) and cancellation tokens, which are never consulted: each operation is modelled as one sequential step.
- Logging (`ILogger` calls): it does not affect the results.
- Disposal (`using`) where it only releases resources. Two disposals change what a caller sees, and both are modelled. In `AesEncryptAsync(string)`, disposing of the `StreamWriter` flushes it and closes the `CryptoStream`, which writes the final padded block before `ToArray`; `Cryptography.AesEncryptString` includes that block. In `AesEncryptAsync(Stream)`, disposing of the read-mode `CryptoStream` closes the input; `Streams.MemoryStream.isOpen` records it.
- The internals of AES, SHA-512/HMAC, Base64 and UTF-8 decoding: these are library code. They are parameters constrained by the laws in `Primitives.Valid`. Nothing proves that the real library satisfies those laws.
- `RandomNumberGenerator` itself: its output is a pair of arbitrary byte streams given to the model. Uniformity and the modulo bias of `NextString` are statistical properties and are not stated.
- Null `key` or `iv` arrays, which make the setters throw `ArgumentNullException`: the model's byte sequences cannot be null.
- Rules of the runtime's `Rfc2898DeriveBytes` other than the iteration count, such as limits on password or salt: only a count below 1 is modelled as a failure.
- Streams other than `MemoryStream`: seekability, non-memory sources and partial reads are not modelled. The input's `Length` is the whole stream, and `CopyTo` reads from the current position.
- Lone UTF-16 surrogates in strings: Dafny's `string` holds Unicode scalar values, so the encoder's replacement of lone surrogates is not modelled.
- Out-of-memory conditions, for example a `StringBuilder` of 2^29 characters or more.
- `TextPageViewModel.ParseErrorMessage`: the message texts of the runtime's `FormatException` and `OverflowException` are fixed strings here. The runtime's actual wording depends on its version.
- The clipboard copy methods (JavaScript interop and the snackbar), and the dialog's text: the dialog is modelled only as a flag saying it was shown.
- Exception types other than those named: each failure is a cause in a datatype, not a .NET exception object.
- Blazor lifecycle calls (`base.OnInitializedAsync`) and change notification (`SetProperty`): these only forward or raise events.
- CSharpInt.ParseInt: `int.Parse` and the `$"{n}"` rendering use the current culture; the model fixes the invariant culture (ASCII digits, `-` as the negative sign, no group separators). Under a culture with another negative sign, stored negative text would not parse back.
- Random.Next: the claim that the value lies in [min, max) is proved only for widths up to 2^30, because wider ranges overflow (see Findings).

## Findings

| source | as written | input that shows it | evidently intended | confidence | as-written member | corrected member |
|---|---|---|---|---|---|---|
| src/CG.Tools.QuickCrypto/Extensions/RandomNumberGeneratorExtensions.cs:133-134 | `(r1 + (max - min + 1)) % (max - min + 1) + min` is computed in wrapping 32-bit arithmetic, so `r1 + d` overflows when the range is wider than 2^30 | `Next(0, int.MaxValue)` with the non-zero bytes 01 01 01 01 (val = 16843009) returns -2130640640 | a result in [min, max) for every non-empty range | high (not executed) | Random.FoldIntoRangeOverflow | Random.FoldIntoRangeChecked |
