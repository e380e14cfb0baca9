# Video encryption envelope codec, modelled in Dafny

The repository encrypts an uploaded file under a password and returns a
self-describing envelope, and later decrypts that envelope given the same
password and cipher. This project models its core:

- `encryptFile` (services/encryptionService.js). It derives a 32-byte key as
  SHA-256 of the password's UTF-8 bytes. It encrypts with AES-256-CBC or
  ChaCha20 and computes HMAC-SHA-256 over IV ++ ciphertext with the same key.
  It returns `tag byte ++ HMAC ++ IV ++ ciphertext`.
- `decryptFile` (services/decryptionService.js). It runs a chain of guards
  where the first failure wins: length, tag byte, algorithm match, HMAC. It
  then decrypts and reclassifies cipher errors.
- The pure decisions of `encryptVideo` and `decryptVideo`
  (controllers/videoController.js): the input checks in order, and the HTTP
  status each error gets.

Modules, one per source file or concept:

- `Wrappers`, `Buffers`: Option/Result and bytes.
- `Text`: the JavaScript string operations the code uses, namely `includes`,
  `trim` and `toUpperCase`.
- `Utf8`: the password encoding.
- `Crypto`: the primitives.
- `Envelope`: the byte layout.
- `EncryptionService`, `DecryptionService`, `RoundTrip`, `VideoController`.

The cryptographic primitives are not modelled as algorithms. `Crypto.Primitives`
is a record of functions: SHA-256, HMAC-SHA-256 (RFC 2104), and
encipher/decipher for AES-256-CBC with PKCS#7 padding (NIST SP 800-38A
section 6.2) and ChaCha20 (RFC 8439 section 2.4, with OpenSSL's 16-byte
counter-and-nonce IV). `Crypto.Valid` states what the codec relies on:

- both digests are 32 bytes;
- with a 32-byte key and a 16-byte IV, AES ciphertext is as long as the
  plaintext padded up to the next whole block, so it is always longer than
  the plaintext;
- with such a key and IV, ChaCha20 ciphertext is as long as the plaintext,
  and its decipher never throws;
- with a 32-byte key and a 16-byte IV, deciphering undoes enciphering.

Every lemma that needs these facts requires `Valid(p)`. `Crypto.ValidIsSatisfiable`
builds primitives that meet `Valid`, which shows these requirements are
consistent. The random IV (`crypto.randomBytes(16)`) is a 16-byte argument.
Each service takes the file contents as bytes and returns the envelope or the
plaintext, where the source writes them to a file and returns a path.

The controller handlers take the service as a function parameter. This lets
the model show whether the service is called at all, and lets either decoder
be plugged in. A request is the uploaded bytes plus the `method` and `key`
form fields; `None` stands for `undefined`. The form field `method` is called
`choice` in the model because `method` is a Dafny keyword.

Three consequences of the code worth knowing:

- AES-256-CBC pads, so an AES ciphertext is 1 to 16 bytes longer than the
  plaintext.
- The key is hashed before the method is checked. So an unknown method is
  rejected after SHA-256 has run, but before any cipher or HMAC work.
- An empty file encrypted with ChaCha20 gives a 49-byte envelope, which
  `decryptFile` rejects; see "## Findings".

## Model

| member | source | states |
|---|---|---|
| `Crypto.PaddedLength` | services/encryptionService.js:15-16 | AES-CBC with PKCS#7 padding gives a ciphertext that is a whole number of 16-byte blocks, strictly longer than the plaintext by at most one block |
| `Crypto.DeriveKeyLength` | services/encryptionService.js:7 | the derived key is SHA-256 of the password's UTF-8 bytes, no salt, so it depends on the password alone and is 32 bytes |
| `Crypto.DeriveKeyInputsDiffer` | services/decryptionService.js:6 | two different passwords are always hashed from two different byte strings |
| `Utf8.EncodeChar` | services/encryptionService.js:7 | `update(key, "utf8")` encodes each character as one to four bytes |
| `Utf8.Encode` | services/encryptionService.js:7 | a password of n characters encodes to between n and 4n bytes |
| `Utf8.DecodeEncode` | services/encryptionService.js:7 | decoding the UTF-8 bytes of a password gives back the password |
| `Utf8.EncodeInjective` | services/encryptionService.js:7 | passwords with the same UTF-8 bytes are equal |
| `Envelope.MethodAlgorithm` | services/encryptionService.js:13-23 | exactly "aes" and "chacha20" select a cipher, each the one whose name it is |
| `Envelope.MethodNameSelects` | services/decryptionService.js:26 | the method name of a cipher selects that cipher (inverse of `MethodAlgorithm`) |
| `Envelope.AlgorithmOfTag` | services/decryptionService.js:16-18 | exactly the bytes 0x01 and 0x02 are recognised, each as the cipher whose tag it is |
| `Envelope.TagOfReads` | services/encryptionService.js:32 | the tag written for a cipher reads back as that cipher |
| `Envelope.Split` | services/decryptionService.js:33-35 | the tag, the 32-byte HMAC, the 16-byte IV and the ciphertext of length n - 49 concatenate back to the whole data |
| `Envelope.SplitJoin` | services/encryptionService.js:33 | splitting a concatenated envelope gives back the HMAC, the IV and the ciphertext it was made of |
| `Envelope.JoinLength` | services/encryptionService.js:33 | an envelope is 49 bytes longer than its ciphertext |
| `EncryptionService.EncryptFile` | services/encryptionService.js:13-23 | fails exactly when the method is neither "aes" nor "chacha20", always with the one error "Metode enkripsi tidak valid" and no envelope |
| `EncryptionService.EncryptFileLayout` | services/encryptionService.js:26-33 | for either cipher the envelope is tag ++ HMAC(key, IV ++ ciphertext) ++ IV ++ ciphertext. The HMAC key is the cipher key, the IV is the one passed to the cipher, the fields split back out unchanged, and the length is 49 + the ciphertext's length |
| `EncryptionService.EncryptFileTag` | services/encryptionService.js:32 | the first byte is 0x01 exactly when the method is "aes" and 0x02 exactly when it is "chacha20" |
| `EncryptionService.EncryptFileLength` | services/encryptionService.js:13-20 | an AES envelope is 49 + the padded length; a ChaCha20 envelope is 49 + the file length |
| `EncryptionService.DistinctIvsDistinctEnvelopes` | services/encryptionService.js:14-33 | envelopes made with different IVs differ, whatever the files and passwords |
| `DecryptionService.ClassifyCipherError` | services/decryptionService.js:64-76 | a cipher error is "Password salah" exactly when its message contains "bad decrypt" or its code is ERR_OSSL_BAD_DECRYPT. Otherwise it is "File corrupt atau tidak lengkap" exactly when its message contains "wrong final block length". Otherwise it is "Dekripsi gagal: " with the cipher's message |
| `DecryptionService.DecryptTooSmall` | services/decryptionService.js:11-13 | data of at most 49 bytes fails as too small, whatever the method, the password and the primitives |
| `DecryptionService.DecryptNotOurs` | services/decryptionService.js:16-23 | longer data whose first byte is not 0x01 or 0x02 fails as not produced by this system, whatever the method and password |
| `DecryptionService.DecryptMismatch` | services/decryptionService.js:26-30 | a recognised tag whose cipher's name is not the chosen method fails as a mismatch carrying the actual cipher and the chosen method |
| `DecryptionService.UnknownMethodStopsEarly` | services/decryptionService.js:26-30 | a method string that selects no cipher always ends in one of the first three guard errors. The outcome depends on neither the password nor the primitives, so it never reaches the HMAC or decryption |
| `DecryptionService.DecryptBadHmac` | services/decryptionService.js:38-46 | a stored HMAC other than HMAC(key, IV ++ ciphertext) fails as "Password salah", and the result is the same for every decipher, so decryption is never attempted |
| `DecryptionService.DecryptSucceeds` | services/decryptionService.js:11-63 | plaintext is returned exactly when all four guards pass and the decipher succeeds, and it is the decipher's output |
| `DecryptionService.DecryptCipherError` | services/decryptionService.js:50-76 | when the tag, method and HMAC guards pass and the decipher fails with error e, `decryptFile` fails with the classification of e: "Password salah", "File corrupt atau tidak lengkap" or "Dekripsi gagal: " with e's message |
| `DecryptionService.ChaChaHasNoCipherErrors` | services/decryptionService.js:57-63 | a ChaCha20 decryption only fails at one of the four guards, never with a cipher error |
| `RoundTrip.RoundTrip` | services/decryptionService.js:11-63 | decrypting an envelope from `encryptFile` with the same method and password returns the original file whenever the ciphertext is non-empty |
| `RoundTrip.AesRoundTrip` | services/encryptionService.js:13-16 | every AES envelope round-trips, including the empty file's, because padding makes the ciphertext non-empty |
| `RoundTrip.ChaChaRoundTripIff` | services/encryptionService.js:17-20 | a ChaCha20 envelope round-trips exactly when the file is non-empty |
| `RoundTrip.EmptyChaChaRejected` | services/decryptionService.js:11 | the ChaCha20 envelope of an empty file is exactly 49 bytes and decrypting it fails as too small |
| `RoundTrip.RoundTripFixed` | services/decryptionService.js:10-13 | with the length check the comment describes (reject fewer than 49 bytes), every envelope round-trips |
| `RoundTrip.OtherMethodMismatch` | services/decryptionService.js:26-30 | for an envelope whose ciphertext is non-empty, decrypting with the other cipher's name fails as a mismatch naming the cipher used, whatever the password |
| `RoundTrip.OtherPasswordRejected` | services/decryptionService.js:38-46 | for an envelope whose ciphertext is non-empty, decrypting with another password fails as "Password salah" whenever that password's key gives a different HMAC over the envelope's IV ++ ciphertext |
| `Text.ContainsIffOccurs` | controllers/videoController.js:164-166 | `includes` holds exactly when the phrase occurs at some position of the message |
| `Text.TrimStart` | controllers/videoController.js:33 | removes only white space, leaves a suffix that does not start with white space |
| `Text.TrimEnd` | controllers/videoController.js:33 | removes only white space, leaves a prefix that does not end with white space |
| `Text.TrimEmptyIff` | controllers/videoController.js:33 | `key.trim() === ""` exactly when every character of the key is ECMAScript white space or a line terminator |
| `VideoController.BlankKeyIff` | controllers/videoController.js:33-38 | a key is rejected exactly when it is undefined or consists only of white space |
| `VideoController.ChecksInOrder` | controllers/videoController.js:19-38 | a missing file gives 400 whatever the method and key. Then a missing or empty method gives 400 whatever the key. Then a blank key gives 400. Each uses its own message, and lines 101-120 do the same for decryption |
| `VideoController.ServiceOnlyAfterChecks` | controllers/videoController.js:19-56 | when a check fails the response is the same for every service, so the service is not called. When all pass, the file is downloaded exactly when the service succeeds, with the service's output |
| `VideoController.EncryptErrorsAre500` | controllers/videoController.js:85-88 | an error response on the encrypt path is 400 exactly when an input check failed, and 500 for every service error |
| `VideoController.DecryptErrorStatus` | controllers/videoController.js:163-168 | too small, not ours, method mismatch and wrong password give 400. "File corrupt atau tidak lengkap" gives 500. "Dekripsi gagal: m" gives 400 only when m itself contains one of the three matched phrases |
| `VideoController.EncryptThenDecryptVideo` | controllers/videoController.js:129-138 | uploading a file for encryption, then its envelope for decryption with the same method and password, downloads the original file when the service uses the corrected length check |
| `VideoController.EmptyChaChaUploadRejected` | controllers/videoController.js:163-170 | with the service as written, the ChaCha20 envelope of an empty file is answered 400 "File tidak valid: terlalu kecil atau corrupt" |
| `Crypto.DeriveKey` | services/encryptionService.js:7 | SHA-256 of the password's UTF-8 bytes; its properties are `Crypto.DeriveKeyLength` and `Crypto.DeriveKeyInputsDiffer` |
| `Envelope.TagOf` | services/encryptionService.js:32 | the tag byte of a cipher, 0x01 for AES and 0x02 for ChaCha20; `Envelope.AlgorithmOfTag` and `Envelope.TagOfReads` show it is the inverse of reading the tag |
| `Envelope.Join` | services/encryptionService.js:33 | the concatenation tag ++ HMAC ++ IV ++ ciphertext; `Envelope.Split`, `Envelope.SplitJoin` and `Envelope.JoinLength` show it is undone by the slices the decoder takes |
| `EncryptionService.Seal` | services/encryptionService.js:26-33 | HMAC over IV ++ ciphertext under the derived key, then the tag byte for the chosen method and the concatenation; stated by `EncryptionService.EncryptFileLayout` and `EncryptionService.EncryptFileTag` |
| `EncryptionService.Message` | services/encryptionService.js:21-23 | the text "Metode enkripsi tidak valid" of the one error `encryptFile` throws; `EncryptionService.EncryptFile` states exactly when it is raised and `VideoController.EncryptErrorsAre500` that it is answered with 500 |
| `DecryptionService.Message` | services/decryptionService.js:11-76 | the text of each thrown error, built as the source writes it; `VideoController.DecryptErrorStatus` states which of them the controller answers with 400 |
| `DecryptionService.Open` | services/decryptionService.js:15-76 | the guards after the length check, in source order: tag byte, method match, HMAC, then decipher and error classification; the guards are stated by `DecryptionService.DecryptNotOurs`, `DecryptMismatch` and `DecryptBadHmac`, success by `DecryptSucceeds`, and the classification of a decipher failure by `DecryptCipherError` |
| `DecryptionService.DecryptFile` | services/decryptionService.js:4-83 | `decryptFile` as written, with the `<= 49` length check; its properties are `DecryptionService.DecryptTooSmall`, `DecryptNotOurs`, `DecryptMismatch`, `UnknownMethodStopsEarly`, `DecryptBadHmac`, `DecryptSucceeds`, `DecryptCipherError`, `ChaChaHasNoCipherErrors`, and `RoundTrip.ChaChaRoundTripIff` |
| `DecryptionService.DecryptFileFixed` | services/decryptionService.js:10-13 | the decoder with the length check its comment describes (fewer than 49 bytes rejected); `RoundTrip.RoundTripFixed` proves every envelope round-trips through it |
| `Text.Contains` | controllers/videoController.js:164-166 | `String.prototype.includes`; `Text.ContainsIffOccurs` proves it equal to the reference definition `Text.Occurs` |
| `Text.Trim` | controllers/videoController.js:33 | `String.prototype.trim` as `TrimEnd` after `TrimStart`; `Text.TrimEmptyIff` states when it is empty |
| `Text.ToUpper` | services/decryptionService.js:28 | `toUpperCase` on ASCII letters, length-preserving; used only in the mismatch message |
| `VideoController.FirstMissing` | controllers/videoController.js:19-38 | the first failed input check, in source order; stated by `VideoController.ChecksInOrder` and `VideoController.BlankKeyIff` |
| `VideoController.EncryptVideo` | controllers/videoController.js:10-90 | the encrypt handler's responses; stated by `VideoController.ChecksInOrder`, `ServiceOnlyAfterChecks` and `EncryptErrorsAre500` |
| `VideoController.DecryptVideo` | controllers/videoController.js:92-175 | the decrypt handler's responses; stated by `VideoController.ChecksInOrder`, `ServiceOnlyAfterChecks`, `DecryptErrorStatus`, `EncryptThenDecryptVideo` and `EmptyChaChaUploadRejected` |
| `VideoController.DecryptStatus` | controllers/videoController.js:163-168 | 400 when the message contains one of the three phrases, else 500; `VideoController.DecryptErrorStatus` gives the status of every service error |
| `Envelope.MethodName` | services/decryptionService.js:17-18 | the method string of each cipher, "aes" or "chacha20", which the mismatch guard at line 26 compares with the chosen method; `Envelope.MethodNameSelects` and the second ensures of `Envelope.MethodAlgorithm` show it is the inverse of selecting a cipher |
| `Envelope.WellSized` | services/decryptionService.js:33-35 | the sizes of the slices the decoder takes: a 32-byte HMAC and a 16-byte IV; `Envelope.Split` ensures it |
| `Text.IsTrimmed` | controllers/videoController.js:33 | the characters ECMAScript `trim` removes, WhiteSpace and LineTerminator by code point; `Text.TrimStart`, `Text.TrimEnd` and `Text.TrimEmptyIff` are stated with it |
| `Text.UpperChar` | services/decryptionService.js:28 | `toUpperCase` on one character, for the ASCII letters; used by `Text.ToUpper` |
| `VideoController.Falsy` | controllers/videoController.js:26 | `!method` on a form field: undefined or the empty string (also `!key` at line 33 and lines 108 and 115 for decryption); stated by `VideoController.ChecksInOrder` |
| `VideoController.BlankKey` | controllers/videoController.js:33 | `!key` or `key.trim() === ""` (also line 115); `VideoController.BlankKeyIff` proves it holds exactly for an undefined or all-white-space key, and `VideoController.ChecksInOrder` places it third |
| `VideoController.Detail` | controllers/videoController.js:87 | `error.message`, or the fallback when that is empty (also line 172): used in the error responses stated by the `VideoController.EncryptVideo` and `VideoController.DecryptVideo` rows |
| `VideoController.MismatchIs400` | controllers/videoController.js:163-168 | the method-mismatch message contains "Metode dekripsi salah", so it is answered with 400 |
| `VideoController.StatusWithoutPhraseLetters` | controllers/videoController.js:163-168 | a message with no 'P', 'M' or 'v' can contain none of the three phrases, so it is answered with 500 |
| `VideoController.IncompleteIs500` | controllers/videoController.js:163-168 | "File corrupt atau tidak lengkap" is answered with 500 |
| `VideoController.DecipherFailedStatus` | controllers/videoController.js:163-168 | "Dekripsi gagal: m" is answered with 400 exactly when m contains one of the three phrases |

## Left out

- File I/O. `readFileSync`, `writeFileSync`, `unlinkSync`, `existsSync`, the
  `Date.now()` output names and the cleanup in the `catch` blocks and
  `res.on("finish")` are side effects on the file system. The services take
  and return byte sequences.
- The algorithms of SHA-256, HMAC, AES-256-CBC and ChaCha20, and
  `crypto.randomBytes`. These are calls into OpenSSL. Only the facts in
  `Crypto.Valid` are relied on, so properties that need collision resistance
  (tamper detection, password sensitivity) are stated conditionally, as in
  `DecryptionService.DecryptBadHmac` and `RoundTrip.OtherPasswordRejected`.
- IV freshness. The IV is an argument. `DistinctIvsDistinctEnvelopes` shows
  distinct IVs give distinct envelopes, but nothing is said about
  randomness.
- The constant-time behaviour of `timingSafeEqual`. Dafny cannot express
  timing, so it is byte-sequence equality (both sides are always 32 bytes).
- Node's errors for a wrong key or IV length in `createCipheriv`. They cannot
  occur: the key is always 32 bytes and the IV 16.
- Text.ToUpper: `toUpperCase` is modelled for the ASCII letters only. It only
  shapes the mismatch message, whose status is fixed by its first phrase.
- Utf8.Encode: Dafny characters are Unicode scalar values. A password holding
  a lone UTF-16 surrogate, which Node encodes as U+FFFD, is not modelled.
- Exact wording of messages the controller does not match on. The
  mismatch message and the other message texts are kept as the source writes
  them, but only the matched phrases matter to any proof.
- The Express plumbing: server.js, routes/videoRoutes.js, multer, `res.render`,
  `res.download` streaming, console logging. A request whose body is missing
  or whose fields are not strings is not modelled.

## Findings

| source | as written | input that shows it | evidently intended | confidence | as-written member | corrected member |
|---|---|---|---|---|---|---|
| services/decryptionService.js:11 | `encryptedData.length <= 49` rejects data of exactly 49 bytes | encrypting an empty file with "chacha20" gives a 49-byte envelope (header only); decrypting it with the same method and password fails as "File tidak valid: terlalu kecil atau corrupt" and the controller answers 400 | reject only data shorter than the 49-byte header, as the comment on line 10 describes, so every envelope `encryptFile` produces decrypts | medium, not executed | `DecryptionService.DecryptFile`, shown by `RoundTrip.EmptyChaChaRejected` and `VideoController.EmptyChaChaUploadRejected` | `DecryptionService.DecryptFileFixed`, proved by `RoundTrip.RoundTripFixed` and `VideoController.EncryptThenDecryptVideo` |
