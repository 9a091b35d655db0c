/** Trimming, as the server and the browser do it: their languages disagree on two characters. */
module Strings {
  /** The white space both know: the Unicode spaces and the line breaks. */
  predicate IsCommonSpace(c: char) {
    || c == ' ' || '\t' <= c <= '\r' || c == '\U{00A0}' || c == '\U{1680}' || '\U{2000}' <= c <= '\U{200A}'
    || c == '\U{2028}' || c == '\U{2029}' || c == '\U{202F}' || c == '\U{205F}' || c == '\U{3000}'
  }

  /** Go's `unicode.IsSpace`: the next-line character counts. */
  predicate IsSpace(c: char) {
    IsCommonSpace(c) || c == '\U{0085}'
  }

  /** White space and line terminators of ECMAScript: the byte order mark counts. */
  predicate IsJsSpace(c: char) {
    IsCommonSpace(c) || c == '\U{FEFF}'
  }

  /** The white space of the two, by code point. */
  lemma SpacesAre(c: char)
    ensures var common := {9, 10, 11, 12, 13, 32, 0xA0, 0x1680, 0x2000, 0x2001, 0x2002, 0x2003, 0x2004, 0x2005, 0x2006,
                           0x2007, 0x2008, 0x2009, 0x200A, 0x2028, 0x2029, 0x202F, 0x205F, 0x3000};
      && (IsSpace(c) <==> c as int in common + {0x85})
      && (IsJsSpace(c) <==> c as int in common + {0xFEFF})
  {
  }

  predicate IsAnySpace(c: char) {
    IsSpace(c) || IsJsSpace(c)
  }

  function TrimLeft(s: string, space: char -> bool): string {
    if s != [] && space(s[0]) then TrimLeft(s[1..], space) else s
  }

  function TrimRight(s: string, space: char -> bool): string {
    if s != [] && space(s[|s| - 1]) then TrimRight(s[..|s| - 1], space) else s
  }

  function TrimOf(s: string, space: char -> bool): string {
    TrimRight(TrimLeft(s, space), space)
  }

  /** `strings.TrimSpace` */
  function Trim(s: string): string {
    TrimOf(s, IsSpace)
  }

  /** `String.prototype.trim` */
  function JsTrim(s: string): string {
    TrimOf(s, IsJsSpace)
  }

  /** The text without white space of either kind around it. */
  function Strip(s: string): string {
    TrimOf(s, IsAnySpace)
  }

  predicate AllSpace(s: string, space: char -> bool) {
    forall i :: 0 <= i < |s| ==> space(s[i])
  }

  /** `t` is what is left between the white space at both ends of `a + t + b`. */
  predicate IsCore(a: string, t: string, b: string, space: char -> bool) {
    && AllSpace(a, space) && AllSpace(b, space)
    && (t == [] || (!space(t[0]) && !space(t[|t| - 1])))
  }

  lemma {:induction false} TrimLeftCore(a: string, w: string, space: char -> bool)
    requires AllSpace(a, space)
    ensures TrimLeft(a + w, space) == TrimLeft(w, space)
  {
    if a == [] {
      assert a + w == w;
    } else {
      assert (a + w)[0] == a[0] && (a + w)[1..] == a[1..] + w;
      TrimLeftCore(a[1..], w, space);
    }
  }

  lemma {:induction false} TrimRightCore(w: string, b: string, space: char -> bool)
    requires AllSpace(b, space)
    ensures TrimRight(w + b, space) == TrimRight(w, space)
  {
    if b == [] {
      assert w + b == w;
    } else {
      assert (w + b)[|w + b| - 1] == b[|b| - 1] && (w + b)[..|w + b| - 1] == w + b[..|b| - 1];
      TrimRightCore(w, b[..|b| - 1], space);
    }
  }

  /** There is one core. */
  lemma TrimIsCore(a: string, t: string, b: string, space: char -> bool)
    requires IsCore(a, t, b, space)
    ensures TrimOf(a + t + b, space) == t
  {
    assert a + t + b == a + (t + b);
    TrimLeftCore(a, t + b, space);
    if t == [] {
      assert t + b == b + [] == b;
      TrimLeftCore(b, [], space);
    } else {
      TrimRightCore(t, b, space);
    }
  }

  lemma {:induction false} TrimLeftSplits(s: string, space: char -> bool) returns (a: string)
    ensures s == a + TrimLeft(s, space) && AllSpace(a, space)
    ensures TrimLeft(s, space) == [] || !space(TrimLeft(s, space)[0])
  {
    if s != [] && space(s[0]) {
      var rest := TrimLeftSplits(s[1..], space);
      a := [s[0]] + rest;
    } else {
      a := [];
    }
  }

  lemma {:induction false} TrimRightSplits(s: string, space: char -> bool) returns (b: string)
    ensures s == TrimRight(s, space) + b && AllSpace(b, space)
    ensures TrimRight(s, space) == [] || !space(TrimRight(s, space)[|TrimRight(s, space)| - 1])
  {
    if s != [] && space(s[|s| - 1]) {
      var rest := TrimRightSplits(s[..|s| - 1], space);
      b := rest + [s[|s| - 1]];
    } else {
      b := [];
    }
  }

  lemma CoreOf(s: string, space: char -> bool) returns (a: string, b: string)
    ensures s == a + TrimOf(s, space) + b && IsCore(a, TrimOf(s, space), b, space)
  {
    hide TrimLeft, TrimRight;
    a := TrimLeftSplits(s, space);
    b := TrimRightSplits(TrimLeft(s, space), space);
  }

  /** Trimming less before trimming more makes no difference. */
  lemma TrimTwice(s: string, inner: char -> bool, outer: char -> bool)
    requires forall c :: inner(c) ==> outer(c)
    ensures TrimOf(TrimOf(s, inner), outer) == TrimOf(s, outer)
  {
    hide TrimOf;
    var t := TrimOf(s, inner);
    var a, b := CoreOf(s, inner);
    var a', b' := CoreOf(t, outer);
    var u := TrimOf(t, outer);
    assert s == (a + a') + u + (b' + b);
    TrimIsCore(a + a', u, b' + b, outer);
  }

  lemma TrimIsIdempotent(s: string)
    ensures Trim(Trim(s)) == Trim(s) && JsTrim(JsTrim(s)) == JsTrim(s)
  {
    TrimTwice(s, IsSpace, IsSpace);
    TrimTwice(s, IsJsSpace, IsJsSpace);
  }

  /** Neither language's trimming shows once both kinds of white space are stripped. */
  lemma StripHidesTrim(s: string)
    ensures Strip(Trim(s)) == Strip(s) == Strip(JsTrim(s))
  {
    TrimTwice(s, IsSpace, IsAnySpace);
    TrimTwice(s, IsJsSpace, IsAnySpace);
  }

  /** The two disagree: each leaves a character alone that the other strips. */
  lemma TrimsDiffer()
    ensures Trim("\U{0085}") == "" && JsTrim("\U{0085}") == "\U{0085}"
    ensures Trim("\U{FEFF}") == "\U{FEFF}" && JsTrim("\U{FEFF}") == ""
  {
    TrimOfOne('\U{0085}', IsSpace);
    TrimOfOne('\U{0085}', IsJsSpace);
    TrimOfOne('\U{FEFF}', IsSpace);
    TrimOfOne('\U{FEFF}', IsJsSpace);
  }

  lemma TrimOfOne(c: char, space: char -> bool)
    ensures TrimOf([c], space) == if space(c) then [] else [c]
  {
    if space(c) {
      assert [c] == [c] + [] + [];
      TrimIsCore([c], [], [], space);
    } else {
      assert [c] == [] + [c] + [];
      TrimIsCore([], [c], [], space);
    }
  }
}
