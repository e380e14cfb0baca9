/**
 * What decrypting an envelope made by `encryptFile` gives, with the same or a
 * different method and password.
 */
module RoundTrip {
  import opened Wrappers
  import opened Buffers
  import opened Crypto
  import opened Envelope
  import opened EncryptionService
  import opened DecryptionService

  /** An envelope with a non-empty ciphertext decrypts to the original data. */
  lemma RoundTrip(p: Primitives, videoData: Buffer, a: Algorithm, key: string, iv: Buffer)
    requires Valid(p) && |iv| == IvLength
    requires |EncryptFile(p, videoData, MethodName(a), key, iv).value| > HeaderLength
    ensures var env := EncryptFile(p, videoData, MethodName(a), key, iv).value;
      DecryptFile(p, env, MethodName(a), key) == Success(videoData)
  {
    RoundTripFixed(p, videoData, a, key, iv);
  }

  /** AES always pads, so every AES envelope round-trips, the empty file included. */
  lemma AesRoundTrip(p: Primitives, videoData: Buffer, key: string, iv: Buffer)
    requires Valid(p) && |iv| == IvLength
    ensures var env := EncryptFile(p, videoData, "aes", key, iv).value;
      DecryptFile(p, env, "aes", key) == Success(videoData)
  {
    EncryptFileLength(p, videoData, Aes256Cbc, key, iv);
    RoundTrip(p, videoData, Aes256Cbc, key, iv);
  }

  /** A ChaCha20 envelope round-trips exactly when the file is not empty. */
  lemma ChaChaRoundTripIff(p: Primitives, videoData: Buffer, key: string, iv: Buffer)
    requires Valid(p) && |iv| == IvLength
    ensures var env := EncryptFile(p, videoData, "chacha20", key, iv).value;
      DecryptFile(p, env, "chacha20", key) == Success(videoData) <==> |videoData| > 0
  {
    EncryptFileLength(p, videoData, ChaCha20, key, iv);
    if |videoData| > 0 {
      RoundTrip(p, videoData, ChaCha20, key, iv);
    }
  }

  /** The empty file's ChaCha20 envelope is exactly the 49-byte header, and the
      length check rejects it. */
  lemma EmptyChaChaRejected(p: Primitives, key: string, iv: Buffer)
    requires Valid(p) && |iv| == IvLength
    ensures var env := EncryptFile(p, [], "chacha20", key, iv).value;
      |env| == HeaderLength && DecryptFile(p, env, "chacha20", key) == Failure(TooSmall)
  {
    EncryptFileLength(p, [], ChaCha20, key, iv);
  }

  /** With the corrected length check every envelope round-trips. */
  lemma RoundTripFixed(p: Primitives, videoData: Buffer, a: Algorithm, key: string, iv: Buffer)
    requires Valid(p) && |iv| == IvLength
    ensures var env := EncryptFile(p, videoData, MethodName(a), key, iv).value;
      DecryptFileFixed(p, env, MethodName(a), key) == Success(videoData)
  {
    var hashedKey := DeriveKey(p, key);
    var ct := p.encipher(a, hashedKey, iv, videoData);
    EncryptFileLayout(p, videoData, a, key, iv);
    TagOfReads(a);
    DeriveKeyLength(p, key);
    assert p.decipher(a, hashedKey, iv, ct) == Success(videoData);
  }

  /** Asking for the other cipher reports the mismatch, naming the one used. */
  lemma OtherMethodMismatch(p: Primitives, videoData: Buffer, a: Algorithm, b: Algorithm,
                            key1: string, key2: string, iv: Buffer)
    requires Valid(p) && |iv| == IvLength && a != b
    requires |EncryptFile(p, videoData, MethodName(a), key1, iv).value| > HeaderLength
    ensures var env := EncryptFile(p, videoData, MethodName(a), key1, iv).value;
      DecryptFile(p, env, MethodName(b), key2) == Failure(MethodMismatch(a, MethodName(b)))
  {
    EncryptFileLayout(p, videoData, a, key1, iv);
    var env := EncryptFile(p, videoData, MethodName(a), key1, iv).value;
    DecryptMismatch(p, env, MethodName(b), key2, a);
  }

  /**
   * Decrypting with another password fails as a wrong password whenever the HMAC
   * under the other password's key differs from the stored one.
   */
  lemma OtherPasswordRejected(p: Primitives, videoData: Buffer, a: Algorithm, key1: string, key2: string, iv: Buffer)
    requires Valid(p) && |iv| == IvLength
    requires |EncryptFile(p, videoData, MethodName(a), key1, iv).value| > HeaderLength
    requires var ct := p.encipher(a, DeriveKey(p, key1), iv, videoData);
      p.hmacSha256(DeriveKey(p, key2), iv + ct) != p.hmacSha256(DeriveKey(p, key1), iv + ct)
    ensures var env := EncryptFile(p, videoData, MethodName(a), key1, iv).value;
      DecryptFile(p, env, MethodName(a), key2) == Failure(WrongPassword)
  {
    EncryptFileLayout(p, videoData, a, key1, iv);
    var env := EncryptFile(p, videoData, MethodName(a), key1, iv).value;
    assert env[33..] == Split(env).iv + Split(env).ciphertext;
    DecryptBadHmac(p, p, env, key2, a);
  }
}
