/**
 * The cryptographic primitives from Node's `crypto` module that the codec calls.
 * Their algorithms are not modelled: they are a record of functions, and `Valid`
 * states the facts the codec relies on (output lengths and that decryption undoes
 * encryption). Every property of the codec is proved for all primitives that meet
 * `Valid`, and `ValidIsSatisfiable` shows these facts are consistent.
 */
module Crypto {
  import opened Wrappers
  import opened Buffers
  import Utf8

  /** The two ciphers: AES-256-CBC with PKCS#7 padding (NIST SP 800-38A section 6.2)
      and the ChaCha20 stream cipher (RFC 8439 section 2.4) with OpenSSL's 16-byte
      counter-and-nonce IV. */
  datatype Algorithm = Aes256Cbc | ChaCha20

  /** What an OpenSSL decipher throws: `error.message` and `error.code`. */
  datatype CipherError = CipherError(message: string, code: string)

  datatype Primitives = Primitives(
    /** `createHash("sha256")`. */
    sha256: Buffer -> Buffer,
    /** `createHmac("sha256", key)` over a message (RFC 2104). */
    hmacSha256: (Buffer, Buffer) -> Buffer,
    /** `createCipheriv(alg, key, iv)`, `update` then `final`. */
    encipher: (Algorithm, Buffer, Buffer, Buffer) -> Buffer,
    /** `createDecipheriv(alg, key, iv)`, `update` then `final`, or the error thrown. */
    decipher: (Algorithm, Buffer, Buffer, Buffer) -> Result<Buffer, CipherError>)

  const DigestLength: nat := 32
  const KeyLength: nat := 32
  const IvLength: nat := 16
  const BlockLength: nat := 16

  /** Ciphertext length of AES-CBC with PKCS#7 padding: always at least one pad byte. */
  function PaddedLength(n: nat): (m: nat)
    ensures n < m <= n + BlockLength && m % BlockLength == 0
  {
    (n / BlockLength + 1) * BlockLength
  }

  ghost predicate Valid(p: Primitives) {
    && (forall m :: |p.sha256(m)| == DigestLength)
    && (forall k, m :: |p.hmacSha256(k, m)| == DigestLength)
    && (forall k, iv, pt :: |k| == KeyLength && |iv| == IvLength ==>
          |p.encipher(Aes256Cbc, k, iv, pt)| == PaddedLength(|pt|))
    && (forall k, iv, pt :: |k| == KeyLength && |iv| == IvLength ==> |p.encipher(ChaCha20, k, iv, pt)| == |pt|)
    // with a key and IV of the right sizes, a stream cipher's decipher never throws
    && (forall k, iv, ct :: |k| == KeyLength && |iv| == IvLength ==> p.decipher(ChaCha20, k, iv, ct).Success?)
    && (forall a, k, iv, pt :: |k| == KeyLength && |iv| == IvLength ==>
          p.decipher(a, k, iv, p.encipher(a, k, iv, pt)) == Success(pt))
  }

  /** `createHash("sha256").update(key, "utf8").digest()`: no salt, so the key depends
      on the password alone. */
  function DeriveKey(p: Primitives, password: string): Buffer {
    p.sha256(Utf8.Encode(password))
  }

  lemma DeriveKeyLength(p: Primitives, password: string)
    requires Valid(p)
    ensures |DeriveKey(p, password)| == KeyLength
  {
  }

  /** Different passwords are hashed from different byte strings: `Utf8.EncodeInjective`
      restated for the input of `DeriveKey`. */
  lemma DeriveKeyInputsDiffer(password1: string, password2: string)
    requires password1 != password2
    ensures Utf8.Encode(password1) != Utf8.Encode(password2)
  {
    if Utf8.Encode(password1) == Utf8.Encode(password2) {
      Utf8.EncodeInjective(password1, password2);
    }
  }

  // A model of the primitives, used only to show that `Valid` can be met.

  function WitnessPad(pt: Buffer): Buffer {
    var n := BlockLength - |pt| % BlockLength;
    pt + seq(n, _ => n as byte)
  }

  function WitnessUnpad(ct: Buffer): Result<Buffer, CipherError> {
    if |ct| == 0 || |ct| % BlockLength != 0 then
      Failure(CipherError("wrong final block length", "ERR_OSSL_WRONG_FINAL_BLOCK_LENGTH"))
    else if ct[|ct| - 1] as int == 0 || ct[|ct| - 1] as int > BlockLength then
      Failure(CipherError("bad decrypt", "ERR_OSSL_BAD_DECRYPT"))
    else
      Success(ct[..|ct| - ct[|ct| - 1] as int])
  }

  lemma WitnessUnpadPad(pt: Buffer)
    ensures |WitnessPad(pt)| == PaddedLength(|pt|)
    ensures WitnessUnpad(WitnessPad(pt)) == Success(pt)
  {
    var c := WitnessPad(pt);
    var n := BlockLength - |pt| % BlockLength;
    assert c[|c| - 1] as int == n;
    assert c[..|c| - n] == pt;
  }

  lemma ValidIsSatisfiable() returns (p: Primitives)
    ensures Valid(p)
  {
    p := Primitives(
      m => seq(DigestLength, _ => 0),
      (k, m) => seq(DigestLength, _ => 0),
      (a, k, iv, pt) => if a == Aes256Cbc then WitnessPad(pt) else pt,
      (a, k, iv, ct) => if a == Aes256Cbc then WitnessUnpad(ct) else Success(ct));
    forall k, iv, pt ensures |p.encipher(Aes256Cbc, k, iv, pt)| == PaddedLength(|pt|)
      && p.decipher(Aes256Cbc, k, iv, p.encipher(Aes256Cbc, k, iv, pt)) == Success(pt)
    {
      WitnessUnpadPad(pt);
    }
  }
}
