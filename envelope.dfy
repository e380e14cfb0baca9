/**
 * The envelope format shared by the two services:
 *
 *   offset 0  length 1   algorithm tag (0x01 AES-256-CBC, 0x02 ChaCha20)
 *   offset 1  length 32  HMAC-SHA-256 over IV ++ ciphertext
 *   offset 33 length 16  IV
 *   offset 49 remainder  ciphertext
 */
module Envelope {
  import opened Wrappers
  import opened Buffers
  import opened Crypto

  const AesTag: byte := 0x01
  const ChaChaTag: byte := 0x02
  const HmacStart: nat := 1
  const IvStart: nat := HmacStart + DigestLength
  /** 1 + 32 + 16: the bytes in front of the ciphertext. */
  const HeaderLength: nat := IvStart + IvLength

  /** The method string a client selects. */
  function MethodName(a: Algorithm): string {
    match a
    case Aes256Cbc => "aes"
    case ChaCha20 => "chacha20"
  }

  /** The algorithm a method string `choice` selects, if any. */
  function MethodAlgorithm(choice: string): (r: Option<Algorithm>)
    ensures r.Some? <==> choice == "aes" || choice == "chacha20"
    ensures r.Some? ==> MethodName(r.value) == choice
  {
    if choice == "aes" then Some(Aes256Cbc)
    else if choice == "chacha20" then Some(ChaCha20)
    else None
  }

  lemma MethodNameSelects(a: Algorithm)
    ensures MethodAlgorithm(MethodName(a)) == Some(a)
  {
  }

  function TagOf(a: Algorithm): byte {
    match a
    case Aes256Cbc => AesTag
    case ChaCha20 => ChaChaTag
  }

  /** Reads the tag byte: 0x01 and 0x02 are the only tags this system writes. */
  function AlgorithmOfTag(b: byte): (r: Option<Algorithm>)
    ensures r.Some? <==> b == AesTag || b == ChaChaTag
    ensures r.Some? ==> TagOf(r.value) == b
  {
    if b == AesTag then Some(Aes256Cbc)
    else if b == ChaChaTag then Some(ChaCha20)
    else None
  }

  lemma TagOfReads(a: Algorithm)
    ensures AlgorithmOfTag(TagOf(a)) == Some(a)
  {
  }

  /** The four fields of an envelope. */
  datatype Fields = Fields(tag: byte, hmac: Buffer, iv: Buffer, ciphertext: Buffer)

  predicate WellSized(f: Fields) {
    |f.hmac| == DigestLength && |f.iv| == IvLength
  }

  /** `Buffer.concat([methodByte, hmacDigest, iv, encryptedData])`. */
  function Join(f: Fields): Buffer {
    [f.tag] + f.hmac + f.iv + f.ciphertext
  }

  /** `data[0]`, `data.slice(1, 33)`, `data.slice(33, 49)` and `data.slice(49)`. */
  function Split(data: Buffer): (f: Fields)
    requires |data| >= HeaderLength
    ensures WellSized(f) && |f.ciphertext| == |data| - HeaderLength
    ensures Join(f) == data
  {
    var f := Fields(data[0], data[HmacStart..IvStart], data[IvStart..HeaderLength], data[HeaderLength..]);
    assert Join(f) == data[..1] + data[HmacStart..IvStart] + data[IvStart..HeaderLength] + data[HeaderLength..];
    f
  }

  lemma JoinLength(f: Fields)
    requires WellSized(f)
    ensures |Join(f)| == HeaderLength + |f.ciphertext|
  {
  }

  /** Splitting a joined envelope gives back its fields. */
  lemma SplitJoin(f: Fields)
    requires WellSized(f)
    ensures Split(Join(f)) == f
  {
    var d := Join(f);
    assert d[HmacStart..IvStart] == f.hmac;
    assert d[IvStart..HeaderLength] == f.iv;
    assert d[HeaderLength..] == f.ciphertext;
  }
}
