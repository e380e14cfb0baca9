/**
 * The decisions of `encryptVideo` and `decryptVideo` in controllers/videoController.js:
 * the input checks, in order, and the HTTP status an error is answered with. The
 * service is a parameter, so the handlers can be read with any decoder, and whether
 * it is called at all is visible in the response.
 */
module VideoController {
  import opened Wrappers
  import opened Buffers
  import Text
  import opened Crypto
  import opened Envelope
  import EncryptionService
  import DecryptionService
  import RoundTrip

  /** What the handlers read from a request: the uploaded file's bytes (`req.file`)
      and the form fields `method` and `key`; `None` is `undefined`. */
  datatype Request = Request(file: Option<Buffer>, choice: Option<string>, key: Option<string>)

  datatype Response =
    /** `res.download(outputPath, fileName)`. */
    | Download(data: Buffer, fileName: string)
    /** `res.status(status).json({ error, detail })`. */
    | Json(status: int, error: string, detail: string)

  type EncryptService = (Buffer, string, string) -> Result<Buffer, EncryptionService.EncryptError>
  type DecryptService = (Buffer, string, string) -> Result<Buffer, DecryptionService.DecryptError>

  /** The three input checks. */
  datatype Missing = NoFile | NoMethod | NoKey

  /** `!value` for a form field: undefined or the empty string. */
  predicate Falsy(field: Option<string>) {
    field.None? || field.value == ""
  }

  /** `!key || key.trim() === ""`. */
  predicate BlankKey(key: Option<string>) {
    Falsy(key) || Text.Trim(key.value) == ""
  }

  /** The first input check that fails: file, then method, then key. */
  function FirstMissing(req: Request): Option<Missing> {
    if req.file.None? then Some(NoFile)
    else if Falsy(req.choice) then Some(NoMethod)
    else if BlankKey(req.key) then Some(NoKey)
    else None
  }

  /** `error.message || fallback`. */
  function Detail(message: string, fallback: string): string {
    if message == "" then fallback else message
  }

  function EncryptVideo(req: Request, encryptFile: EncryptService): Response {
    match FirstMissing(req)
    case Some(NoFile) => Json(400, "File video tidak ditemukan", "Silakan upload file video terlebih dahulu")
    case Some(NoMethod) => Json(400, "Metode enkripsi tidak dipilih", "Pilih metode AES-256-CBC atau ChaCha20")
    case Some(NoKey) => Json(400, "Password tidak boleh kosong", "Masukkan password untuk enkripsi")
    case None =>
      match encryptFile(req.file.value, req.choice.value, req.key.value)
      case Success(envelope) => Download(envelope, "encrypted_video.enc")
      case Failure(e) =>
        Json(500, "Enkripsi gagal",
             Detail(EncryptionService.Message(e), "Terjadi kesalahan saat memproses enkripsi"))
  }

  /** The status of a decryption error, chosen by the substrings of its message. */
  function DecryptStatus(message: string): int {
    if Text.Contains(message, "Password salah")
       || Text.Contains(message, "Metode dekripsi salah")
       || Text.Contains(message, "File tidak valid")
    then 400
    else 500
  }

  function DecryptVideo(req: Request, decryptFile: DecryptService): Response {
    match FirstMissing(req)
    case Some(NoFile) => Json(400, "File terenkripsi tidak ditemukan", "Silakan upload file .enc terlebih dahulu")
    case Some(NoMethod) => Json(400, "Metode dekripsi tidak dipilih", "Pilih metode yang sama dengan saat enkripsi")
    case Some(NoKey) => Json(400, "Password tidak boleh kosong", "Masukkan password yang sama dengan saat enkripsi")
    case None =>
      match decryptFile(req.file.value, req.choice.value, req.key.value)
      case Success(plain) => Download(plain, "decrypted_video.mp4")
      case Failure(e) =>
        var message := DecryptionService.Message(e);
        Json(DecryptStatus(message), "Dekripsi gagal",
             Detail(message, "Terjadi kesalahan saat memproses dekripsi"))
  }

  /** A key is rejected exactly when it is absent or every character is white space. */
  lemma BlankKeyIff(key: Option<string>)
    ensures BlankKey(key) <==> key.None? || forall i :: 0 <= i < |key.value| ==> Text.IsTrimmed(key.value[i])
  {
    if key.Some? {
      Text.TrimEmptyIff(key.value);
    }
  }

  /**
   * The checks run in order, file then method then key; each failure answers 400 on
   * both handlers, whatever the later fields and the service are.
   */
  lemma ChecksInOrder(req: Request, enc: EncryptService, dec: DecryptService)
    ensures req.file.None? ==>
      && EncryptVideo(req, enc) == Json(400, "File video tidak ditemukan", "Silakan upload file video terlebih dahulu")
      && DecryptVideo(req, dec) == Json(400, "File terenkripsi tidak ditemukan", "Silakan upload file .enc terlebih dahulu")
    ensures req.file.Some? && (req.choice.None? || req.choice.value == "") ==>
      && EncryptVideo(req, enc) == Json(400, "Metode enkripsi tidak dipilih", "Pilih metode AES-256-CBC atau ChaCha20")
      && DecryptVideo(req, dec) == Json(400, "Metode dekripsi tidak dipilih", "Pilih metode yang sama dengan saat enkripsi")
    ensures req.file.Some? && !Falsy(req.choice) && BlankKey(req.key) ==>
      && EncryptVideo(req, enc) == Json(400, "Password tidak boleh kosong", "Masukkan password untuk enkripsi")
      && DecryptVideo(req, dec) == Json(400, "Password tidak boleh kosong", "Masukkan password yang sama dengan saat enkripsi")
  {
  }

  /**
   * The service is called only when all three checks pass: otherwise the response is
   * the same for every service; once they pass, the response is the service's result.
   */
  lemma ServiceOnlyAfterChecks(req: Request, enc1: EncryptService, enc2: EncryptService,
                               dec1: DecryptService, dec2: DecryptService)
    ensures FirstMissing(req).Some? ==>
      EncryptVideo(req, enc1) == EncryptVideo(req, enc2) && DecryptVideo(req, dec1) == DecryptVideo(req, dec2)
    ensures FirstMissing(req) == None <==> req.file.Some? && !Falsy(req.choice) && !BlankKey(req.key)
    ensures FirstMissing(req) == None ==>
      var args := (req.file.value, req.choice.value, req.key.value);
      && (EncryptVideo(req, enc1).Download? <==> enc1(args.0, args.1, args.2).Success?)
      && (EncryptVideo(req, enc1).Download? ==> EncryptVideo(req, enc1).data == enc1(args.0, args.1, args.2).value)
      && (DecryptVideo(req, dec1).Download? <==> dec1(args.0, args.1, args.2).Success?)
      && (DecryptVideo(req, dec1).Download? ==> DecryptVideo(req, dec1).data == dec1(args.0, args.1, args.2).value)
  {
  }

  /** On the encrypt path every error from the service is answered with 500. */
  lemma EncryptErrorsAre500(req: Request, enc: EncryptService)
    ensures var r := EncryptVideo(req, enc);
      r.Json? ==> (r.status == 400 <==> FirstMissing(req).Some?) && (r.status == 400 || r.status == 500)
  {
  }

  lemma MismatchIs400(actual: Algorithm, chosen: string)
    ensures DecryptStatus(DecryptionService.Message(DecryptionService.MethodMismatch(actual, chosen))) == 400
  {
    var rest := ": File ini dienkripsi dengan " + Text.ToUpper(MethodName(actual))
      + ", tapi Anda memilih " + Text.ToUpper(chosen);
    assert DecryptionService.Message(DecryptionService.MethodMismatch(actual, chosen)) == "Metode dekripsi salah" + rest;
    Text.ContainsPrefix("Metode dekripsi salah", rest);
  }

  /** A message with no 'P', no 'M' and no 'v' contains none of the three phrases. */
  lemma StatusWithoutPhraseLetters(message: string)
    requires 'P' !in message && 'M' !in message && 'v' !in message
    ensures DecryptStatus(message) == 500
  {
    Text.ContainsNeedsChar(message, "Password salah", 0);
    Text.ContainsNeedsChar(message, "Metode dekripsi salah", 0);
    Text.ContainsNeedsChar(message, "File tidak valid", 11);
  }

  lemma IncompleteIs500()
    ensures DecryptStatus(DecryptionService.Message(DecryptionService.Incomplete)) == 500
  {
    StatusWithoutPhraseLetters(DecryptionService.Message(DecryptionService.Incomplete));
  }

  lemma DecipherFailedStatus(detail: string)
    ensures DecryptStatus(DecryptionService.Message(DecryptionService.DecipherFailed(detail))) == 400 <==>
      || Text.Occurs(detail, "Password salah")
      || Text.Occurs(detail, "Metode dekripsi salah")
      || Text.Occurs(detail, "File tidak valid")
  {
    Text.ContainsAfterPrefix(DecryptionService.DecipherFailedText, detail, "Password salah");
    Text.ContainsAfterPrefix(DecryptionService.DecipherFailedText, detail, "Metode dekripsi salah");
    Text.ContainsAfterPrefix(DecryptionService.DecipherFailedText, detail, "File tidak valid");
    Text.ContainsIffOccurs(detail, "Password salah");
    Text.ContainsIffOccurs(detail, "Metode dekripsi salah");
    Text.ContainsIffOccurs(detail, "File tidak valid");
  }

  /**
   * The status of each decryption error: the guard failures and a wrong password give
   * 400; an incomplete file gives 500; a cipher error's message gives 400 only if its
   * own text happens to contain one of the matched phrases.
   */
  lemma DecryptErrorStatus(e: DecryptionService.DecryptError)
    ensures var status := DecryptStatus(DecryptionService.Message(e));
      && (e.TooSmall? || e.NotOurs? || e.MethodMismatch? || e.WrongPassword? ==> status == 400)
      && (e.Incomplete? ==> status == 500)
      && (e.DecipherFailed? ==> (status == 400 <==>
            || Text.Occurs(e.detail, "Password salah")
            || Text.Occurs(e.detail, "Metode dekripsi salah")
            || Text.Occurs(e.detail, "File tidak valid")))
  {
    match e
    case TooSmall => Text.ContainsPrefix("File tidak valid", ": terlalu kecil atau corrupt");
    case NotOurs => Text.ContainsPrefix("File tidak valid", ": bukan hasil enkripsi dari aplikasi ini");
    case MethodMismatch(actual, chosen) => MismatchIs400(actual, chosen);
    case WrongPassword =>
      assert DecryptionService.Message(e) == "Password salah" + "";
      Text.ContainsPrefix("Password salah", "");
    case Incomplete => IncompleteIs500();
    case DecipherFailed(detail) => DecipherFailedStatus(detail);
  }

  /**
   * Uploading a file for encryption and then its envelope for decryption, with the
   * same method and password, downloads the original file when the service has the
   * corrected length check.
   */
  lemma EncryptThenDecryptVideo(p: Primitives, videoData: Buffer, a: Algorithm, key: string, iv: Buffer)
    requires Valid(p) && |iv| == IvLength && !BlankKey(Some(key))
    ensures var up := EncryptVideo(Request(Some(videoData), Some(MethodName(a)), Some(key)),
                                   (d, m, k) => EncryptionService.EncryptFile(p, d, m, k, iv));
      && up.Download?
      && DecryptVideo(Request(Some(up.data), Some(MethodName(a)), Some(key)),
                      (e, m, k) => DecryptionService.DecryptFileFixed(p, e, m, k))
         == Download(videoData, "decrypted_video.mp4")
  {
    RoundTrip.RoundTripFixed(p, videoData, a, key, iv);
  }

  /** With the length check as written, the ChaCha20 envelope of an empty file comes
      back as a 400 "invalid file". */
  lemma EmptyChaChaUploadRejected(p: Primitives, key: string, iv: Buffer)
    requires Valid(p) && |iv| == IvLength && !BlankKey(Some(key))
    ensures var up := EncryptVideo(Request(Some([]), Some("chacha20"), Some(key)),
                                   (d, m, k) => EncryptionService.EncryptFile(p, d, m, k, iv));
      && up.Download?
      && DecryptVideo(Request(Some(up.data), Some("chacha20"), Some(key)),
                      (e, m, k) => DecryptionService.DecryptFile(p, e, m, k))
         == Json(400, "Dekripsi gagal", DecryptionService.Message(DecryptionService.TooSmall))
  {
    RoundTrip.EmptyChaChaRejected(p, key, iv);
    DecryptErrorStatus(DecryptionService.TooSmall);
  }
}
