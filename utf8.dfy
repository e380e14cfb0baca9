/**
 * UTF-8 encoding of a password, as `hash.update(key, "utf8")` performs it.
 * A Dafny `char` is a Unicode scalar value, so every character encodes to one to
 * four bytes as in section 3 of RFC 3629.
 */
module Utf8 {
  import opened Wrappers
  import opened Buffers

  /** The byte sequence of one scalar value. */
  function EncodeChar(c: char): (r: Buffer)
    ensures 1 <= |r| <= 4
  {
    var n := c as int;
    if n < 0x80 then [n as byte]
    else if n < 0x800 then [(0xC0 + n / 0x40) as byte, (0x80 + n % 0x40) as byte]
    else if n < 0x1_0000 then
      [(0xE0 + n / 0x1000) as byte, (0x80 + n / 0x40 % 0x40) as byte, (0x80 + n % 0x40) as byte]
    else
      [(0xF0 + n / 0x4_0000) as byte, (0x80 + n / 0x1000 % 0x40) as byte,
       (0x80 + n / 0x40 % 0x40) as byte, (0x80 + n % 0x40) as byte]
  }

  function Encode(s: string): (r: Buffer)
    ensures |s| <= |r| <= 4 * |s|
  {
    if s == [] then [] else EncodeChar(s[0]) + Encode(s[1..])
  }

  /** How many bytes the sequence starting with lead byte `b` occupies. */
  function SequenceLength(b: byte): nat {
    if b < 0x80 then 1 else if b < 0xE0 then 2 else if b < 0xF0 then 3 else 4
  }

  /** The scalar value that the first `SequenceLength(b[0])` bytes of `b` spell. */
  function DecodeCodePoint(b: Buffer): int
    requires |b| > 0 && SequenceLength(b[0]) <= |b|
  {
    var k := SequenceLength(b[0]);
    if k == 1 then b[0] as int
    else if k == 2 then (b[0] as int - 0xC0) * 0x40 + (b[1] as int - 0x80)
    else if k == 3 then
      (b[0] as int - 0xE0) * 0x1000 + (b[1] as int - 0x80) * 0x40 + (b[2] as int - 0x80)
    else
      (b[0] as int - 0xF0) * 0x4_0000 + (b[1] as int - 0x80) * 0x1000
        + (b[2] as int - 0x80) * 0x40 + (b[3] as int - 0x80)
  }

  predicate IsScalar(n: int) {
    0 <= n < 0xD800 || 0xE000 <= n < 0x11_0000
  }

  /** Reads a byte sequence back as characters; `None` when it is not of the encoder's shape. */
  function Decode(b: Buffer): Option<string>
    decreases |b|
  {
    if b == [] then Some([])
    else
      var k := SequenceLength(b[0]);
      if |b| < k then None
      else
        var n := DecodeCodePoint(b);
        if !IsScalar(n) then None
        else match Decode(b[k..])
          case None => None
          case Some(rest) => Some([n as char] + rest)
  }

  lemma SplitSix(n: int)
    requires n >= 0
    ensures n == n / 0x40 * 0x40 + n % 0x40
    ensures n / 0x40 == n / 0x1000 * 0x40 + n / 0x40 % 0x40
    ensures n / 0x1000 == n / 0x4_0000 * 0x40 + n / 0x1000 % 0x40
  {
  }

  lemma EncodeCharDecodes(c: char, rest: Buffer)
    ensures var e := EncodeChar(c) + rest;
      SequenceLength(e[0]) == |EncodeChar(c)| && DecodeCodePoint(e) == c as int
  {
    var n := c as int;
    var e := EncodeChar(c) + rest;
    SplitSix(n);
    if n < 0x80 {
    } else if n < 0x800 {
      assert e[0] as int == 0xC0 + n / 0x40 && e[1] as int == 0x80 + n % 0x40;
    } else if n < 0x1_0000 {
      assert e[0] as int == 0xE0 + n / 0x1000 && e[1] as int == 0x80 + n / 0x40 % 0x40;
      assert e[2] as int == 0x80 + n % 0x40;
    } else {
      assert e[0] as int == 0xF0 + n / 0x4_0000 && e[1] as int == 0x80 + n / 0x1000 % 0x40;
      assert e[2] as int == 0x80 + n / 0x40 % 0x40 && e[3] as int == 0x80 + n % 0x40;
    }
  }

  /** Decoding undoes encoding, so two passwords with the same bytes are the same password. */
  lemma {:induction false} DecodeEncode(s: string)
    ensures Decode(Encode(s)) == Some(s)
  {
    if s != [] {
      var e := Encode(s);
      EncodeCharDecodes(s[0], Encode(s[1..]));
      assert e[|EncodeChar(s[0])|..] == Encode(s[1..]);
      DecodeEncode(s[1..]);
      assert [(s[0] as int) as char] + s[1..] == s;
    }
  }

  lemma EncodeInjective(s: string, t: string)
    requires Encode(s) == Encode(t)
    ensures s == t
  {
    DecodeEncode(s);
    DecodeEncode(t);
  }
}
