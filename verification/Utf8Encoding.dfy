/** The byte sequences taken for characters are the encodings of the code points (RFC 3629, section 3). */
module Utf8Encoding {
  import opened Utf8

  /** The code points that can be encoded: all up to U+10FFFF but the surrogates. */
  predicate IsScalar(c: int) {
    0 <= c < 0xD800 || 0xE000 <= c <= 0x10FFFF
  }

  /** Six bits to a byte, the highest first; the first byte announces how many follow. */
  function Encode(c: int): Bytes
    requires IsScalar(c)
  {
    if c < 0x80 then [c]
    else if c < 0x800 then [0xC0 + c / 64, 0x80 + c % 64]
    else if c < 0x10000 then [0xE0 + c / 4096, 0x80 + c / 64 % 64, 0x80 + c % 64]
    else [0xF0 + c / 262144, 0x80 + c / 4096 % 64, 0x80 + c / 64 % 64, 0x80 + c % 64]
  }

  /** The code point the bytes stand for. */
  function CodePoint(s: Bytes): int {
    if |s| == 1 then s[0] as int
    else if |s| == 2 then Joined(s[0] as int - 0xC0, s[1])
    else if |s| == 3 then Joined(Joined(s[0] as int - 0xE0, s[1]), s[2])
    else if |s| == 4 then Joined(Joined(Joined(s[0] as int - 0xF0, s[1]), s[2]), s[3])
    else -1
  }

  function Joined(high: int, b: int): int {
    high * 64 + (b - 0x80)
  }

  /** The encoding of a code point is a character, and stands for it. */
  lemma EncodingIsCharacter(c: int)
    requires IsScalar(c)
    ensures IsCharacter(Encode(c)) && CodePoint(Encode(c)) == c
  {
    if c >= 0x800 {
      assert c / 64 == c / 4096 * 64 + c / 64 % 64;
    }
    if c >= 0x10000 {
      assert c / 4096 == c / 262144 * 64 + c / 4096 % 64;
    }
  }

  /** Every character is the encoding of the code point it stands for, and of no other. */
  lemma CharacterIsEncoding(s: Bytes, other: int)
    requires IsCharacter(s)
    ensures IsScalar(CodePoint(s)) && Encode(CodePoint(s)) == s
    ensures IsScalar(other) && Encode(other) == s ==> other == CodePoint(s)
  {
    if IsScalar(other) {
      EncodingIsCharacter(other);
    }
    if |s| == 3 {
      ThreeBytes(s);
    } else if |s| == 4 {
      FourBytes(s);
    }
  }

  lemma ThreeBytes(s: Bytes)
    requires IsCharacter(s) && |s| == 3
    ensures IsScalar(CodePoint(s)) && Encode(CodePoint(s)) == s
  {
    var high := Joined(s[0] as int - 0xE0, s[1]);
    var c := Joined(high, s[2]);
    assert c / 64 == high && high / 64 == s[0] as int - 0xE0 && c / 4096 == high / 64;
  }

  lemma FourBytes(s: Bytes)
    requires IsCharacter(s) && |s| == 4
    ensures IsScalar(CodePoint(s)) && Encode(CodePoint(s)) == s
  {
    var top := Joined(s[0] as int - 0xF0, s[1]);
    var high := Joined(top, s[2]);
    var c := Joined(high, s[3]);
    assert c / 64 == high && high / 64 == top && top / 64 == s[0] as int - 0xF0;
    assert c / 4096 == high / 64 && c / 262144 == top / 64;
  }
}
