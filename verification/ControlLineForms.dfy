/** Which control lines are output, and what becomes of text that no escape stands in. */
module ControlLineForms {
  import opened ControlLine
  import opened Lines
  import opened Utf8
  import opened Wrappers

  /** A backslash and three octal digits begin at `i`. */
  predicate HasEscapeAt(raw: Bytes, i: nat) {
    i + 3 < |raw| && raw[i] == 92 && forall k :: i < k <= i + 3 ==> 48 <= raw[k] <= 55
  }

  lemma EscapeAtIff(raw: Bytes)
    ensures StartsEscape(raw) <==> HasEscapeAt(raw, 0)
  {
    if HasEscapeAt(raw, 0) {
      assert 48 <= raw[1] <= 55 && 48 <= raw[2] <= 55 && 48 <= raw[3] <= 55;
    }
  }

  lemma EscapeInRest(raw: Bytes, i: nat)
    requires raw != []
    ensures HasEscapeAt(raw[1..], i) <==> HasEscapeAt(raw, i + 1)
  {
    if HasEscapeAt(raw[1..], i) {
      forall k | i + 1 < k <= i + 4 ensures 48 <= raw[k] <= 55 {
        assert raw[1..][k - 1] == raw[k];
      }
    }
    if HasEscapeAt(raw, i + 1) {
      forall k | i < k <= i + 3 ensures 48 <= raw[1..][k] <= 55 {
        assert raw[1..][k] == raw[k + 1];
      }
    }
  }

  /**
    Bytes up to the first escape are copied, backslashes included; the escape becomes one byte, its octal
    value without what exceeds a byte.
   */
  lemma {:induction false} FirstEscape(plain: Bytes, a: byte, b: byte, c: byte, rest: Bytes)
    requires 48 <= a <= 55 && 48 <= b <= 55 && 48 <= c <= 55
    requires forall i: nat :: i < |plain| ==> !HasEscapeAt(plain + [92, a, b, c] + rest, i)
    ensures Decoded(plain + [92, a, b, c] + rest)
      == plain + [((a - 48) * 64 + (b - 48) * 8 + (c - 48)) % 256] + Decoded(rest)
  {
    var raw := plain + [92, a, b, c] + rest;
    EscapeAtIff(raw);
    if plain == [] {
      assert raw[4..] == rest;
    } else {
      assert raw[1..] == plain[1..] + [92, a, b, c] + rest;
      forall i: nat | i < |plain[1..]| ensures !HasEscapeAt(plain[1..] + [92, a, b, c] + rest, i) {
        EscapeInRest(raw, i);
        assert !HasEscapeAt(raw, i + 1);
      }
      FirstEscape(plain[1..], a, b, c, rest);
      assert plain == [plain[0]] + plain[1..];
    }
  }

  /** Text without escapes is copied, incomplete ones and lone backslashes included. */
  lemma {:induction false} NoEscapes(raw: Bytes)
    requires forall i: nat :: i < |raw| ==> !HasEscapeAt(raw, i)
    ensures Decoded(raw) == raw
  {
    if raw != [] {
      EscapeAtIff(raw);
      forall i: nat | i < |raw[1..]| ensures !HasEscapeAt(raw[1..], i) {
        EscapeInRest(raw, i);
        assert !HasEscapeAt(raw, i + 1);
      }
      NoEscapes(raw[1..]);
    }
  }

  // ---------------------------------------------------------------------------------------------

  /** ASCII white space: the space, and the bytes from tab to carriage return. */
  predicate AllWhite(s: Bytes) {
    forall i :: 0 <= i < |s| ==> s[i] == 32 || 9 <= s[i] <= 13
  }

  /** `t` is what is left between the white space at both ends of `a + t + b`. */
  predicate IsBetween(a: Bytes, t: Bytes, b: Bytes) {
    && AllWhite(a) && AllWhite(b)
    && (t == [] || (!AllWhite([t[0]]) && !AllWhite([t[|t| - 1]])))
  }

  lemma {:induction false} TrimsBetween(a: Bytes, t: Bytes, b: Bytes)
    requires IsBetween(a, t, b)
    ensures TrimBytes(a + t + b) == t
  {
    assert a + t + b == a + (t + b);
    TrimsLeft(a, t + b);
    if t == [] {
      assert t + b == b + [] == b;
      TrimsLeft(b, []);
    } else {
      assert [t[0]][0] == t[0] && [t[|t| - 1]][0] == t[|t| - 1];
      TrimsRight(t, b);
    }
  }

  lemma {:induction false} TrimsLeft(a: Bytes, w: Bytes)
    requires AllWhite(a)
    ensures TrimLeftBytes(a + w) == TrimLeftBytes(w)
  {
    if a == [] {
      assert a + w == w;
    } else {
      assert (a + w)[0] == a[0] && (a + w)[1..] == a[1..] + w;
      TrimsLeft(a[1..], w);
    }
  }

  lemma {:induction false} TrimsRight(w: Bytes, b: Bytes)
    requires AllWhite(b) && w != [] && !IsSpaceByte(w[|w| - 1])
    ensures TrimRightBytes(w + b) == w
  {
    if b == [] {
      assert w + b == w;
    } else {
      assert (w + b)[|w + b| - 1] == b[|b| - 1] && (w + b)[..|w + b| - 1] == w + b[..|b| - 1];
      TrimsRight(w, b[..|b| - 1]);
    }
  }

  /** No separator begins in the head of `head + " : " + raw` before its end. */
  predicate IsFirstSeparator(head: Bytes, raw: Bytes) {
    forall i :: 0 <= i < |head| ==> !HasPrefix(head[i..] + [32, 58, 32] + raw, [32, 58, 32])
  }

  /** A plain output line: the pane is the name without white space around it; a blank name is refused. */
  lemma PlainLine(a: Bytes, pane: Bytes, b: Bytes, raw: Bytes)
    requires IsBetween(a, pane, b) && 32 !in a + pane + b
    ensures ParseControlOutputLine(OUTPUT + (a + pane + b) + [32] + raw)
      == if pane == [] then None else Some(ControlOutput(pane, Decoded(raw)))
  {
    hide TrimBytes, Decoded;
    var name := a + pane + b;
    var line, rest := OUTPUT + name + [32] + raw, name + [32] + raw;
    assert line[..|OUTPUT|] == OUTPUT && line[|OUTPUT|..] == rest;
    forall i | 0 <= i < |name| ensures !HasPrefix(name[i..] + [32] + raw, [32]) {
      assert (name[i..] + [32] + raw)[0] == name[i] && name[i] in name;
    }
    IndexSkips(name, [32], raw);
    assert rest[..|name|] == name && rest[|name| + 1..] == raw;
    TrimsBetween(a, pane, b);
  }

  /** An extended line: the pane is the first word of the head; a blank head is refused. */
  lemma ExtendedLine(a: Bytes, pane: Bytes, more: Bytes, raw: Bytes)
    requires AllWhite(a) && (forall i :: 0 <= i < |pane| ==> !AllWhite([pane[i]]))
    requires (more == [] || AllWhite([more[0]])) && (pane == [] ==> more == [])
    requires IsFirstSeparator(a + pane + more, raw)
    ensures ParseControlOutputLine(EXTENDED_OUTPUT + (a + pane + more) + [32, 58, 32] + raw)
      == if pane == [] then None else Some(ControlOutput(pane, Decoded(raw)))
  {
    hide TrimBytes, Decoded, FirstField;
    var head := a + pane + more;
    var line, rest := EXTENDED_OUTPUT + head + SEPARATOR + raw, head + SEPARATOR + raw;
    assert line[..|EXTENDED_OUTPUT|] == EXTENDED_OUTPUT && line[|EXTENDED_OUTPUT|..] == rest;
    assert line[..|OUTPUT|][1] == 101;
    IndexSkips(head, SEPARATOR, raw);
    assert rest[..|head|] == head && rest[|head| + 3..] == raw;
    FirstWord(a, pane, more);
  }

  lemma {:induction false} FirstWord(a: Bytes, pane: Bytes, more: Bytes)
    requires AllWhite(a) && (forall i :: 0 <= i < |pane| ==> !AllWhite([pane[i]]))
    requires (more == [] || AllWhite([more[0]])) && (pane == [] ==> more == [])
    ensures var head := TrimBytes(a + pane + more);
      (pane == [] ==> head == []) && (pane != [] ==> head != [] && FirstField(head) == pane)
  {
    if pane == [] {
      assert a + pane + more == a + [] + [];
      TrimsBetween(a, [], []);
    } else {
      var kept, end := RightSplit(more);
      assert [pane[0]][0] == pane[0];
      var t := pane + kept;
      assert a + pane + more == a + t + end;
      assert kept == [] ==> t[|t| - 1] == pane[|pane| - 1];
      TrimsBetween(a, t, end);
      assert forall i :: 0 <= i < |pane| ==> [pane[i]][0] == pane[i] && !IsSpaceByte(pane[i]);
      FirstWordOf(pane, kept);
    }
  }

  lemma {:induction false} RightSplit(s: Bytes) returns (kept: Bytes, end: Bytes)
    ensures s == kept + end && AllWhite(end) && (kept == [] || !AllWhite([kept[|kept| - 1]]))
    ensures kept != [] ==> kept[0] == s[0]
  {
    if s != [] && AllWhite([s[|s| - 1]]) {
      var rest;
      kept, rest := RightSplit(s[..|s| - 1]);
      end := rest + [s[|s| - 1]];
      assert [s[|s| - 1]][0] == s[|s| - 1];
    } else {
      kept, end := s, [];
    }
  }

  lemma {:induction false} FirstWordOf(pane: Bytes, more: Bytes)
    requires (forall i :: 0 <= i < |pane| ==> !IsSpaceByte(pane[i])) && (more == [] || AllWhite([more[0]]))
    ensures FirstField(pane + more) == pane
  {
    if pane == [] {
      assert pane + more == more;
      assert more != [] ==> [more[0]][0] == more[0];
    } else {
      FirstWordOf(pane[1..], more);
      assert (pane + more)[1..] == pane[1..] + more;
    }
  }

  predicate HasSeparator(s: Bytes) {
    exists i :: 0 <= i < |s| && HasPrefix(s[i..], [32, 58, 32])
  }

  lemma FoundIsIn(s: Bytes)
    ensures IndexOf(s, [SPACE]) >= 0 ==> 32 in s
    ensures IndexOf(s, SEPARATOR) >= 0 ==> HasSeparator(s)
  {
    var i, k := IndexOf(s, [SPACE]), IndexOf(s, SEPARATOR);
    if i >= 0 {
      assert s[i..i + 1][0] == s[i];
    }
    if k >= 0 {
      assert s[k..][..3] == s[k..k + 3];
    }
  }

  /** Lines that begin with neither word are no output, nor are those that break off before their data. */
  lemma OtherLinesAreIgnored(line: Bytes)
    requires HasPrefix(line, OUTPUT) ==> 32 !in line[|OUTPUT|..]
    requires HasPrefix(line, EXTENDED_OUTPUT) ==> !HasSeparator(line[|EXTENDED_OUTPUT|..])
    ensures ParseControlOutputLine(line).None?
  {
    if HasPrefix(line, OUTPUT) {
      FoundIsIn(line[|OUTPUT|..]);
    }
    if HasPrefix(line, EXTENDED_OUTPUT) {
      FoundIsIn(line[|EXTENDED_OUTPUT|..]);
    }
  }
}
