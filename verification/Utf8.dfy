/** UTF-8 byte sequences (RFC 3629, section 4), and the two decoding questions the program asks. */
module Utf8 {
  type byte = b: int | 0 <= b < 256

  type Bytes = seq<byte>

  /** The length a first byte announces; 0 for a byte that cannot come first. */
  function SequenceLength(b: byte): nat {
    if b < 0x80 then 1
    else if 0xC2 <= b <= 0xDF then 2
    else if 0xE0 <= b <= 0xEF then 3
    else if 0xF0 <= b <= 0xF4 then 4
    else 0
  }

  predicate IsTail(b: byte) {
    0x80 <= b <= 0xBF
  }

  /** The second byte of a longer sequence is a tail byte, more narrowly after four first bytes. */
  predicate IsSecond(first: byte, b: byte) {
    if first == 0xE0 then 0xA0 <= b <= 0xBF
    else if first == 0xED then 0x80 <= b <= 0x9F
    else if first == 0xF0 then 0x90 <= b <= 0xBF
    else if first == 0xF4 then 0x80 <= b <= 0x8F
    else IsTail(b)
  }

  /** One encoded character. */
  predicate IsCharacter(s: Bytes) {
    && s != [] && |s| == SequenceLength(s[0])
    && (|s| >= 2 ==> IsSecond(s[0], s[1]))
    && (|s| >= 3 ==> IsTail(s[2]))
    && (|s| >= 4 ==> IsTail(s[3]))
  }

  /** A sequence of encoded characters. */
  predicate IsValid(s: Bytes) {
    s == [] ||
    var n := SequenceLength(s[0]);
    1 <= n <= |s| && IsCharacter(s[..n]) && IsValid(s[n..])
  }

  /** The bytes begin with a whole character, or cannot become one. */
  predicate FullRune(p: Bytes) {
    p != [] &&
    var n := SequenceLength(p[0]);
    n <= 1 || |p| >= n || (|p| > 1 && !IsSecond(p[0], p[1])) || (|p| > 2 && !IsTail(p[2]))
  }

  /** How many bytes the decoder takes: a character's length, or 1 for an invalid byte. */
  function DecodeSize(p: Bytes): (n: nat)
    requires p != []
    ensures 1 <= n <= |p|
  {
    var n := SequenceLength(p[0]);
    if n <= 1 || |p| < n || !IsCharacter(p[..n]) then 1 else n
  }

  /** How many bytes can be passed on now. */
  function EmitLength(d: Bytes): (n: nat)
    ensures n <= |d|
  {
    if !FullRune(d) then 0 else DecodeSize(d) + EmitLength(d[DecodeSize(d)..])
  }

  lemma FullRuneExtends(a: Bytes, b: Bytes)
    requires FullRune(a)
    ensures FullRune(a + b) && DecodeSize(a + b) == DecodeSize(a)
  {
  }

  lemma FullRuneIsNotEmpty(a: Bytes)
    requires FullRune(a)
    ensures a != []
  {
  }

  /** Deciding early or late what to pass on makes no difference. */
  lemma {:induction false} EmitLengthConcat(a: Bytes, b: Bytes)
    ensures EmitLength(a + b) == EmitLength(a) + EmitLength(a[EmitLength(a)..] + b)
  {
    hide FullRune, DecodeSize;
    if FullRune(a) {
      assert a != [] by { FullRuneIsNotEmpty(a); }
      FullRuneExtends(a, b);
      var n := DecodeSize(a);
      EmitLengthConcat(a[n..], b);
      assert (a + b)[n..] == a[n..] + b;
      assert a[n..][EmitLength(a[n..])..] == a[EmitLength(a)..];
    } else {
      assert a[0..] == a;
    }
  }

  /** What is held back is shorter than four bytes and can still become a character. */
  lemma {:induction false} RestIsProperPrefix(d: Bytes)
    ensures var rest := d[EmitLength(d)..];
      && |rest| <= 3
      && (rest != [] ==> exists c :: IsCharacter(c) && |rest| < |c| && c[..|rest|] == rest)
  {
    hide IsCharacter;
    if FullRune(d) {
      RestIsProperPrefix(d[DecodeSize(d)..]);
      assert d[DecodeSize(d)..][EmitLength(d[DecodeSize(d)..])..] == d[EmitLength(d)..];
    } else if d != [] {
      var c := Completion(d);
      assert d[0..] == d;
    }
  }

  /** A start of a character that is not complete can be completed. */
  lemma Completion(d: Bytes) returns (c: Bytes)
    requires d != [] && !FullRune(d)
    ensures IsCharacter(c) && |d| <= 3 && |d| < |c| && c[..|d|] == d
  {
    var n := SequenceLength(d[0]);
    var second: byte := if d[0] == 0xE0 then 0xA0 else if d[0] == 0xF0 then 0x90 else 0x80;
    if |d| == 1 {
      c := [d[0], second, 0x80, 0x80][..n];
    } else if |d| == 2 {
      c := [d[0], d[1], 0x80, 0x80][..n];
    } else {
      c := [d[0], d[1], d[2], 0x80];
    }
  }

  lemma CharacterIsFull(s: Bytes)
    requires s != [] && IsValid(s)
    ensures FullRune(s) && DecodeSize(s) == SequenceLength(s[0]) && IsValid(s[DecodeSize(s)..])
      && IsCharacter(s[..DecodeSize(s)])
  {
  }

  lemma {:induction false} ValidIsEmitted(s: Bytes)
    requires IsValid(s)
    ensures EmitLength(s) == |s|
  {
    if s != [] {
      CharacterIsFull(s);
      ValidIsEmitted(s[DecodeSize(s)..]);
    }
  }

  lemma {:induction false} ValidConcat(a: Bytes, b: Bytes)
    requires IsValid(a) && IsValid(b)
    ensures IsValid(a + b)
    decreases |a|
  {
    hide IsCharacter, IsValid;
    if a == [] {
      assert a + b == b;
    } else {
      var n := FirstCharacter(a);
      ValidConcat(a[n..], b);
      ValidFollows(a[..n], a[n..] + b);
      assert a + b == a[..n] + (a[n..] + b);
    }
  }

  lemma ValidFollows(c: Bytes, s: Bytes)
    requires IsCharacter(c) && IsValid(s)
    ensures IsValid(c + s)
  {
    assert (c + s)[..|c|] == c && (c + s)[|c|..] == s;
  }

  /** Cutting valid text anywhere, what can be passed on ends between characters, at most three bytes before the cut. */
  lemma {:induction false} ValidPrefix(w: Bytes, k: nat)
    requires IsValid(w) && k <= |w|
    ensures var n := EmitLength(w[..k]);
      IsValid(w[..n]) && IsValid(w[n..]) && k - n <= 3
    decreases |w|
  {
    hide FullRune, DecodeSize, IsCharacter, SequenceLength, IsValid, EmitLength;
    EmptyIsValid();
    var d := w[..k];
    assert w[..0] == [] && w[0..] == w;
    if w == [] {
      assert d == [];
    } else {
      var m := FirstCharacter(w);
      if k < m {
        CutInsideCharacter(w, k, m);
      } else {
        CutAfterCharacter(w, k, m);
        ValidPrefix(w[m..], k - m);
        assert d[m..] == w[m..][..k - m];
        var n := EmitLength(d[m..]);
        assert w[m..][n..] == w[m + n..];
        assert w[..m + n] == w[..m] + w[m..][..n];
        ValidConcat(w[..m], w[m..][..n]);
      }
    }
  }

  lemma EmptyIsValid()
    ensures IsValid([]) && EmitLength([]) == 0
  {
  }

  lemma FirstCharacter(w: Bytes) returns (m: nat)
    requires w != [] && IsValid(w)
    ensures 1 <= m <= |w| && IsCharacter(w[..m]) && IsValid(w[..m]) && IsValid(w[m..])
  {
    m := SequenceLength(w[0]);
    CharacterIsValid(w[..m]);
  }

  lemma CutInsideCharacter(w: Bytes, k: nat, m: nat)
    requires k < m <= |w| && IsCharacter(w[..m])
    ensures EmitLength(w[..k]) == 0 && k <= 3
  {
  }

  lemma CutAfterCharacter(w: Bytes, k: nat, m: nat)
    requires 1 <= m <= k <= |w| && IsCharacter(w[..m])
    ensures EmitLength(w[..k]) == m + EmitLength(w[..k][m..])
  {
  }

  lemma CharacterIsValid(c: Bytes)
    requires IsCharacter(c)
    ensures IsValid(c)
  {
  }
}
