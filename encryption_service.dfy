/**
 * `encryptFile` of services/encryptionService.js: derive the key, encrypt with the
 * selected cipher, authenticate IV ++ ciphertext and assemble the envelope. The file
 * that is read becomes the `videoData` argument, the envelope is returned instead of
 * being written to disk, and the random IV is the argument `iv`.
 */
module EncryptionService {
  import opened Wrappers
  import opened Buffers
  import opened Crypto
  import opened Envelope

  /** The one error `encryptFile` throws itself. */
  datatype EncryptError = InvalidMethod

  /** `error.message` of an `EncryptError`. */
  function Message(e: EncryptError): string {
    "Metode enkripsi tidak valid"
  }

  /** HMAC over the IV then the ciphertext, and the concatenated envelope. */
  function Seal(p: Primitives, hashedKey: Buffer, choice: string, iv: Buffer, encryptedData: Buffer): Buffer {
    var hmacDigest := p.hmacSha256(hashedKey, iv + encryptedData);
    var methodByte := if choice == "aes" then AesTag else ChaChaTag;
    Join(Fields(methodByte, hmacDigest, iv, encryptedData))
  }

  /** `encryptFile(videoFile, method, key)`, with `iv` standing for `crypto.randomBytes(16)`. */
  function EncryptFile(p: Primitives, videoData: Buffer, choice: string, key: string, iv: Buffer)
    : (r: Result<Buffer, EncryptError>)
    requires |iv| == IvLength
    ensures r.Failure? <==> MethodAlgorithm(choice).None?
    ensures r.Failure? ==> r.error == InvalidMethod
  {
    var hashedKey := DeriveKey(p, key);
    if choice == "aes" then
      Success(Seal(p, hashedKey, choice, iv, p.encipher(Aes256Cbc, hashedKey, iv, videoData)))
    else if choice == "chacha20" then
      Success(Seal(p, hashedKey, choice, iv, p.encipher(ChaCha20, hashedKey, iv, videoData)))
    else
      Failure(InvalidMethod)
  }

  /**
   * For either cipher the envelope's fields are its tag, the HMAC keyed with the
   * cipher's own key over exactly IV ++ ciphertext, the IV unchanged and the
   * ciphertext, so the envelope is 49 bytes longer than the ciphertext.
   */
  lemma EncryptFileLayout(p: Primitives, videoData: Buffer, a: Algorithm, key: string, iv: Buffer)
    requires Valid(p) && |iv| == IvLength
    ensures var hashedKey := DeriveKey(p, key);
      var ct := p.encipher(a, hashedKey, iv, videoData);
      var r := EncryptFile(p, videoData, MethodName(a), key, iv);
      && r.Success?
      && r.value == [TagOf(a)] + p.hmacSha256(hashedKey, iv + ct) + iv + ct
      && Split(r.value) == Fields(TagOf(a), p.hmacSha256(hashedKey, iv + ct), iv, ct)
      && |r.value| == HeaderLength + |ct|
  {
    var hashedKey := DeriveKey(p, key);
    var ct := p.encipher(a, hashedKey, iv, videoData);
    var f := Fields(TagOf(a), p.hmacSha256(hashedKey, iv + ct), iv, ct);
    assert EncryptFile(p, videoData, MethodName(a), key, iv) == Success(Join(f));
    SplitJoin(f);
  }

  /** The tag byte is 0x01 exactly for "aes" and 0x02 exactly for "chacha20". */
  lemma EncryptFileTag(p: Primitives, videoData: Buffer, choice: string, key: string, iv: Buffer)
    requires |iv| == IvLength
    requires EncryptFile(p, videoData, choice, key, iv).Success?
    ensures var env := EncryptFile(p, videoData, choice, key, iv).value;
      && |env| > 0
      && (env[0] == AesTag <==> choice == "aes")
      && (env[0] == ChaChaTag <==> choice == "chacha20")
  {
  }

  /** AES pads to a whole number of blocks; ChaCha20 keeps the plaintext length. */
  lemma EncryptFileLength(p: Primitives, videoData: Buffer, a: Algorithm, key: string, iv: Buffer)
    requires Valid(p) && |iv| == IvLength
    ensures var r := EncryptFile(p, videoData, MethodName(a), key, iv);
      r.Success? &&
      |r.value| == HeaderLength + (if a == Aes256Cbc then PaddedLength(|videoData|) else |videoData|)
  {
    EncryptFileLayout(p, videoData, a, key, iv);
    DeriveKeyLength(p, key);
  }

  /** Envelopes made with different IVs differ, whatever the plaintext and password. */
  lemma DistinctIvsDistinctEnvelopes(p: Primitives, data1: Buffer, data2: Buffer, a: Algorithm,
                                     key1: string, key2: string, iv1: Buffer, iv2: Buffer)
    requires Valid(p) && |iv1| == IvLength && |iv2| == IvLength && iv1 != iv2
    ensures EncryptFile(p, data1, MethodName(a), key1, iv1) != EncryptFile(p, data2, MethodName(a), key2, iv2)
  {
    EncryptFileLayout(p, data1, a, key1, iv1);
    EncryptFileLayout(p, data2, a, key2, iv2);
  }
}
