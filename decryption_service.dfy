/**
 * `decryptFile` of services/decryptionService.js: a chain of guards where the first
 * failure wins (length, tag byte, algorithm match, HMAC), then decryption, whose
 * errors are reclassified. The file that is read becomes the `encryptedData`
 * argument and the plaintext is returned instead of being written to disk.
 */
module DecryptionService {
  import opened Wrappers
  import opened Buffers
  import opened Crypto
  import opened Envelope
  import Text

  /** The errors `decryptFile` throws, one per message it can produce. */
  datatype DecryptError =
    | TooSmall
    | NotOurs
    | MethodMismatch(actual: Algorithm, chosen: string)
    | WrongPassword
    | Incomplete
    | DecipherFailed(detail: string)

  // The parts of the messages that callers match on.
  const InvalidFileText := "File tidak valid"
  const MismatchText := "Metode dekripsi salah"
  const WrongPasswordText := "Password salah"
  const DecipherFailedText := "Dekripsi gagal: "

  /** `error.message` of each error. */
  function Message(e: DecryptError): string {
    match e
    case TooSmall => InvalidFileText + ": terlalu kecil atau corrupt"
    case NotOurs => InvalidFileText + ": bukan hasil enkripsi dari aplikasi ini"
    case MethodMismatch(actual, chosen) =>
      MismatchText + ": File ini dienkripsi dengan " + Text.ToUpper(MethodName(actual))
        + ", tapi Anda memilih " + Text.ToUpper(chosen)
    case WrongPassword => WrongPasswordText
    case Incomplete => "File corrupt atau tidak lengkap"
    case DecipherFailed(detail) => DecipherFailedText + detail
  }

  /** The `catch` of the decryption step: which error a cipher error is rethrown as. */
  function ClassifyCipherError(e: CipherError): (r: DecryptError)
    ensures r == WrongPassword <==>
      Text.Occurs(e.message, "bad decrypt") || e.code == "ERR_OSSL_BAD_DECRYPT"
    ensures r == Incomplete <==>
      && !Text.Occurs(e.message, "bad decrypt") && e.code != "ERR_OSSL_BAD_DECRYPT"
      && Text.Occurs(e.message, "wrong final block length")
    ensures r != WrongPassword && r != Incomplete ==> r == DecipherFailed(e.message)
  {
    Text.ContainsIffOccurs(e.message, "bad decrypt");
    Text.ContainsIffOccurs(e.message, "wrong final block length");
    if Text.Contains(e.message, "bad decrypt") || e.code == "ERR_OSSL_BAD_DECRYPT" then WrongPassword
    else if Text.Contains(e.message, "wrong final block length") then Incomplete
    else DecipherFailed(e.message)
  }

  /** Everything after the length check: tag byte, algorithm match, HMAC, decryption. */
  function Open(p: Primitives, encryptedData: Buffer, choice: string, hashedKey: Buffer)
    : Result<Buffer, DecryptError>
    requires |encryptedData| >= HeaderLength
  {
    var actualMethod := AlgorithmOfTag(encryptedData[0]);
    if actualMethod.None? then Failure(NotOurs)
    else if MethodName(actualMethod.value) != choice then
      Failure(MethodMismatch(actualMethod.value, choice))
    else
      var f := Split(encryptedData);
      var computedHmac := p.hmacSha256(hashedKey, f.iv + f.ciphertext);
      if f.hmac != computedHmac then Failure(WrongPassword)
      else
        // `choice` names `actualMethod` here, so this is the cipher `choice` selects
        match p.decipher(actualMethod.value, hashedKey, f.iv, f.ciphertext)
        case Success(decryptedData) => Success(decryptedData)
        case Failure(e) => Failure(ClassifyCipherError(e))
  }

  /** `decryptFile(encryptedFile, method, key)` as written: at most 49 bytes is rejected. */
  function DecryptFile(p: Primitives, encryptedData: Buffer, choice: string, key: string)
    : Result<Buffer, DecryptError>
  {
    var hashedKey := DeriveKey(p, key);
    if |encryptedData| <= HeaderLength then Failure(TooSmall)
    else Open(p, encryptedData, choice, hashedKey)
  }

  /** `decryptFile` with the length check the comment above it describes: the 49-byte
      header is the minimum, so only shorter data is rejected. */
  function DecryptFileFixed(p: Primitives, encryptedData: Buffer, choice: string, key: string)
    : Result<Buffer, DecryptError>
  {
    var hashedKey := DeriveKey(p, key);
    if |encryptedData| < HeaderLength then Failure(TooSmall)
    else Open(p, encryptedData, choice, hashedKey)
  }

  /** Data of at most 49 bytes is rejected before anything else is looked at. */
  lemma DecryptTooSmall(p: Primitives, encryptedData: Buffer, choice: string, key: string)
    requires |encryptedData| <= HeaderLength
    ensures DecryptFile(p, encryptedData, choice, key) == Failure(TooSmall)
  {
  }

  /** A first byte other than 0x01 and 0x02 is rejected whatever the method and key. */
  lemma DecryptNotOurs(p: Primitives, encryptedData: Buffer, choice: string, key: string)
    requires |encryptedData| > HeaderLength
    requires encryptedData[0] != AesTag && encryptedData[0] != ChaChaTag
    ensures DecryptFile(p, encryptedData, choice, key) == Failure(NotOurs)
  {
  }

  /** A method other than the one the tag names is rejected, naming both. */
  lemma DecryptMismatch(p: Primitives, encryptedData: Buffer, choice: string, key: string, a: Algorithm)
    requires |encryptedData| > HeaderLength && encryptedData[0] == TagOf(a)
    requires choice != MethodName(a)
    ensures DecryptFile(p, encryptedData, choice, key) == Failure(MethodMismatch(a, choice))
  {
    TagOfReads(a);
  }

  /**
   * A method string that selects no cipher never gets past the first three guards:
   * the outcome is one of their errors and depends neither on the password nor on
   * any primitive.
   */
  lemma UnknownMethodStopsEarly(p: Primitives, q: Primitives, encryptedData: Buffer, choice: string,
                                key1: string, key2: string)
    requires MethodAlgorithm(choice).None?
    ensures var r := DecryptFile(p, encryptedData, choice, key1);
      && r == DecryptFile(q, encryptedData, choice, key2)
      && r.Failure? && (r.error == TooSmall || r.error == NotOurs || r.error.MethodMismatch?)
  {
  }

  /**
   * An HMAC that differs from HMAC(key, IV ++ ciphertext) is a wrong password, and
   * decryption is never attempted: the outcome is the same for any decipher.
   */
  lemma DecryptBadHmac(p: Primitives, q: Primitives, encryptedData: Buffer, key: string, a: Algorithm)
    requires |encryptedData| > HeaderLength && encryptedData[0] == TagOf(a)
    requires encryptedData[1..33] != p.hmacSha256(DeriveKey(p, key), encryptedData[33..])
    requires q.sha256 == p.sha256 && q.hmacSha256 == p.hmacSha256
    ensures DecryptFile(p, encryptedData, MethodName(a), key) == Failure(WrongPassword)
    ensures DecryptFile(q, encryptedData, MethodName(a), key) == Failure(WrongPassword)
  {
    TagOfReads(a);
    var f := Split(encryptedData);
    assert f.iv + f.ciphertext == encryptedData[33..];
  }

  /**
   * Once the tag, method and HMAC guards pass, a decipher failure is rethrown as the
   * classification of the cipher's error.
   */
  lemma DecryptCipherError(p: Primitives, encryptedData: Buffer, a: Algorithm, key: string, e: CipherError)
    requires |encryptedData| > HeaderLength && encryptedData[0] == TagOf(a)
    requires encryptedData[1..33] == p.hmacSha256(DeriveKey(p, key), encryptedData[33..])
    requires p.decipher(a, DeriveKey(p, key), encryptedData[33..49], encryptedData[49..]) == Failure(e)
    ensures DecryptFile(p, encryptedData, MethodName(a), key) == Failure(ClassifyCipherError(e))
  {
    TagOfReads(a);
    var f := Split(encryptedData);
    assert f.iv + f.ciphertext == encryptedData[33..];
  }

  /**
   * Plaintext comes back exactly when every guard passes and the decipher succeeds,
   * and it is the decipher's output.
   */
  lemma DecryptSucceeds(p: Primitives, encryptedData: Buffer, choice: string, key: string, plain: Buffer)
    ensures DecryptFile(p, encryptedData, choice, key) == Success(plain) <==>
      && |encryptedData| > HeaderLength
      && MethodAlgorithm(choice).Some?
      && encryptedData[0] == TagOf(MethodAlgorithm(choice).value)
      && encryptedData[1..33] == p.hmacSha256(DeriveKey(p, key), encryptedData[33..])
      && p.decipher(MethodAlgorithm(choice).value, DeriveKey(p, key), encryptedData[33..49],
                    encryptedData[49..]) == Success(plain)
  {
    if |encryptedData| > HeaderLength {
      var f := Split(encryptedData);
      assert f.iv + f.ciphertext == encryptedData[33..];
      if MethodAlgorithm(choice).Some? {
        TagOfReads(MethodAlgorithm(choice).value);
      }
    }
  }

  /** ChaCha20 never throws on a 32-byte key and a 16-byte IV, so an authentic ChaCha20 envelope never ends in a cipher error. */
  lemma ChaChaHasNoCipherErrors(p: Primitives, encryptedData: Buffer, key: string)
    requires Valid(p)
    requires DecryptFile(p, encryptedData, "chacha20", key).Failure?
    ensures var e := DecryptFile(p, encryptedData, "chacha20", key).error;
      e == TooSmall || e == NotOurs || e.MethodMismatch? || e == WrongPassword
  {
    if |encryptedData| > HeaderLength && encryptedData[0] == ChaChaTag {
      var f := Split(encryptedData);
      DeriveKeyLength(p, key);
      assert p.decipher(ChaCha20, DeriveKey(p, key), f.iv, f.ciphertext).Success?;
    }
  }
}
