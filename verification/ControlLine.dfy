/** tmux control-mode output lines: octal escapes and the two line forms. */
module ControlLine {
  import opened Utf8
  import opened Utf8Stream
  import opened Wrappers
  import opened Lines

  const BACKSLASH: byte := 92
  const SPACE: byte := 32
  const COLON: byte := 58

  /** `%output ` and `%extended-output `. */
  const OUTPUT: Bytes := [37, 111, 117, 116, 112, 117, 116, 32]
  const EXTENDED_OUTPUT: Bytes := [37, 101, 120, 116, 101, 110, 100, 101, 100, 45, 111, 117, 116, 112, 117, 116, 32]
  const SEPARATOR: Bytes := [32, 58, 32]

  datatype ControlOutput = ControlOutput(paneID: Bytes, data: Bytes)

  predicate IsOctal(b: byte) {
    48 <= b <= 55
  }

  predicate IsSpaceByte(b: byte) {
    b == 32 || 9 <= b <= 13
  }

  /** Byte arithmetic: the value wraps at 256. */
  function OctalByte(a: byte, b: byte, c: byte): byte
    requires IsOctal(a) && IsOctal(b) && IsOctal(c)
  {
    ((a - 48) * 64 + (b - 48) * 8 + (c - 48)) % 256
  }

  predicate StartsEscape(raw: Bytes) {
    |raw| > 3 && raw[0] == BACKSLASH && IsOctal(raw[1]) && IsOctal(raw[2]) && IsOctal(raw[3])
  }

  function Decoded(raw: Bytes): Bytes {
    if raw == [] then []
    else if StartsEscape(raw) then [OctalByte(raw[1], raw[2], raw[3])] + Decoded(raw[4..])
    else [raw[0]] + Decoded(raw[1..])
  }

  method DecodeControlEscaped(raw: Bytes) returns (buf: Bytes)
    ensures buf == Decoded(raw)
  {
    if raw == [] {
      return [];
    }
    if BACKSLASH !in raw {
      DecodePlain(raw);
      return raw;
    }
    buf := [];
    var i := 0;
    while i < |raw|
      invariant i <= |raw| && buf + Decoded(raw[i..]) == Decoded(raw)
    {
      if raw[i] == BACKSLASH && i + 3 < |raw| && IsOctal(raw[i + 1]) && IsOctal(raw[i + 2]) && IsOctal(raw[i + 3]) {
        var v := OctalByte(raw[i + 1], raw[i + 2], raw[i + 3]);
        assert raw[i..][4..] == raw[i + 4..];
        buf := buf + [v];
        i := i + 4;
        continue;
      }
      assert raw[i..][1..] == raw[i + 1..];
      buf := buf + [raw[i]];
      i := i + 1;
    }
  }

  lemma {:induction false} DecodePlain(raw: Bytes)
    requires BACKSLASH !in raw
    ensures Decoded(raw) == raw
  {
    if raw != [] {
      DecodePlain(raw[1..]);
    }
  }

  /** tmux's escaping: bytes below 32 and the backslash become a backslash and three octal digits. */
  function Escaped(data: Bytes): Bytes {
    if data == [] then []
    else
      (if data[0] < 32 || data[0] == BACKSLASH
       then [BACKSLASH, 48 + data[0] / 64, 48 + data[0] / 8 % 8, 48 + data[0] % 8]
       else [data[0]])
      + Escaped(data[1..])
  }

  lemma {:induction false} DecodeUndoesEscape(data: Bytes)
    ensures Decoded(Escaped(data)) == data
  {
    if data != [] {
      DecodeUndoesEscape(data[1..]);
      var e, b := Escaped(data), data[0];
      if b < 32 || b == BACKSLASH {
        assert e[4..] == Escaped(data[1..]);
        assert b / 64 * 64 + b / 8 % 8 * 8 + b % 8 == b;
      } else {
        assert e[1..] == Escaped(data[1..]);
      }
    }
  }

  function TrimLeftBytes(s: Bytes): Bytes {
    if s != [] && IsSpaceByte(s[0]) then TrimLeftBytes(s[1..]) else s
  }

  function TrimBytes(s: Bytes): Bytes {
    var t := TrimLeftBytes(s);
    TrimRightBytes(t)
  }

  function TrimRightBytes(s: Bytes): Bytes {
    if s != [] && IsSpaceByte(s[|s| - 1]) then TrimRightBytes(s[..|s| - 1]) else s
  }

  /** The position of the first occurrence of `p`, or -1. */
  function IndexOf(s: Bytes, p: Bytes): (i: int)
    ensures i == -1 || (0 <= i && i + |p| <= |s| && s[i..i + |p|] == p)
  {
    if HasPrefix(s, p) then 0
    else if s == [] then -1
    else
      var i := IndexOf(s[1..], p);
      if i < 0 then -1 else i + 1
  }

  /** The first white-space separated field. */
  function FirstField(s: Bytes): Bytes {
    if s == [] || IsSpaceByte(s[0]) then [] else [s[0]] + FirstField(s[1..])
  }

  function ParseControlOutputLine(line: Bytes): Option<ControlOutput> {
    if HasPrefix(line, OUTPUT) then
      var rest := line[|OUTPUT|..];
      var i := IndexOf(rest, [SPACE]);
      if i < 0 || TrimBytes(rest[..i]) == [] then None
      else Some(ControlOutput(TrimBytes(rest[..i]), Decoded(rest[i + 1..])))
    else if HasPrefix(line, EXTENDED_OUTPUT) then
      var rest := line[|EXTENDED_OUTPUT|..];
      var i := IndexOf(rest, SEPARATOR);
      if i < 0 then None
      else
        var head := TrimBytes(rest[..i]);
        if head == [] || FirstField(head) == [] then None
        else Some(ControlOutput(FirstField(head), Decoded(rest[i + 3..])))
    else None
  }

  /** A pane name as tmux prints it: printable, without spaces and colons. */
  predicate IsPaneName(p: Bytes) {
    p != [] && forall i :: 0 <= i < |p| ==> 33 <= p[i] < 127 && p[i] != COLON
  }

  function OutputLine(pane: Bytes, data: Bytes): Bytes {
    OUTPUT + (pane + ([SPACE] + Escaped(data)))
  }

  /** The extended form, with further head fields (tmux prints the age in milliseconds). */
  function ExtendedOutputLine(pane: Bytes, fields: Bytes, data: Bytes): Bytes {
    EXTENDED_OUTPUT + ((pane + fields) + (SEPARATOR + Escaped(data)))
  }

  lemma {:induction false} IndexSkips(a: Bytes, p: Bytes, rest: Bytes)
    requires p != [] && forall i :: 0 <= i < |a| ==> !HasPrefix(a[i..] + p + rest, p)
    ensures IndexOf(a + p + rest, p) == |a|
  {
    var s := a + p + rest;
    if a == [] {
      assert s[..|p|] == p;
    } else {
      assert s == a[0..] + p + rest;
      assert s[1..] == a[1..] + p + rest;
      assert forall i :: 0 <= i < |a[1..]| ==> a[1..][i..] == a[i + 1..];
      IndexSkips(a[1..], p, rest);
    }
  }

  lemma {:induction false} TrimNameBytes(p: Bytes)
    requires p == [] || (!IsSpaceByte(p[0]) && !IsSpaceByte(p[|p| - 1]))
    ensures TrimBytes(p) == p
  {
  }

  /** Parsing a printed line gives back the pane and the bytes. */
  lemma OutputLineRoundTrip(pane: Bytes, data: Bytes)
    requires IsPaneName(pane)
    ensures ParseControlOutputLine(OutputLine(pane, data)) == Some(ControlOutput(pane, data))
  {
    var line, rest := OutputLine(pane, data), pane + ([SPACE] + Escaped(data));
    assert line[..|OUTPUT|] == OUTPUT && line[|OUTPUT|..] == rest;
    assert rest == pane + [SPACE] + Escaped(data);
    forall i | 0 <= i < |pane|
      ensures !HasPrefix(pane[i..] + [SPACE] + Escaped(data), [SPACE])
    {
      assert (pane[i..] + [SPACE] + Escaped(data))[0] == pane[i];
    }
    IndexSkips(pane, [SPACE], Escaped(data));
    assert rest[..|pane|] == pane && rest[|pane| + 1..] == Escaped(data);
    TrimNameBytes(pane);
    DecodeUndoesEscape(data);
  }

  /** Further head fields: after a space, without colons, not ending with white space. */
  predicate AreHeadFields(f: Bytes) {
    f == [] || (f[0] == SPACE && !IsSpaceByte(f[|f| - 1]) && forall i :: 0 <= i < |f| ==> f[i] != COLON)
  }

  lemma {:induction false} FirstFieldOf(pane: Bytes, fields: Bytes)
    requires (forall i :: 0 <= i < |pane| ==> !IsSpaceByte(pane[i])) && (fields == [] || fields[0] == SPACE)
    ensures FirstField(pane + fields) == pane
  {
    if pane == [] {
      assert pane + fields == fields;
    } else {
      FirstFieldOf(pane[1..], fields);
      assert (pane + fields)[1..] == pane[1..] + fields;
    }
  }

  lemma ExtendedLineRoundTrip(pane: Bytes, fields: Bytes, data: Bytes)
    requires IsPaneName(pane) && AreHeadFields(fields)
    ensures ParseControlOutputLine(ExtendedOutputLine(pane, fields, data)) == Some(ControlOutput(pane, data))
  {
    var line, head := ExtendedOutputLine(pane, fields, data), pane + fields;
    var rest := head + (SEPARATOR + Escaped(data));
    assert line[..|EXTENDED_OUTPUT|] == EXTENDED_OUTPUT && line[|EXTENDED_OUTPUT|..] == rest;
    assert line[..|OUTPUT|][1] == 101;
    assert rest == head + SEPARATOR + Escaped(data);
    forall i | 0 <= i < |head|
      ensures !HasPrefix(head[i..] + SEPARATOR + Escaped(data), SEPARATOR)
    {
      var s := head[i..] + SEPARATOR + Escaped(data);
      assert s[..3][1] == s[1] == if i + 1 < |head| then head[i + 1] else SPACE;
      assert i + 1 < |head| ==> head[i + 1] == if i + 1 < |pane| then pane[i + 1] else fields[i + 1 - |pane|];
    }
    IndexSkips(head, SEPARATOR, Escaped(data));
    assert rest[..|head|] == head && rest[|head| + 3..] == Escaped(data);
    assert head[0] == pane[0];
    TrimNameBytes(head);
    FirstFieldOf(pane, fields);
    DecodeUndoesEscape(data);
  }

  // ---------------------------------------------------------------------------------------------
  // From printed lines to passed-on text.

  /** Lines read in order; `targets` names the target of each pane the session knows. */
  function ReadLines(lines: seq<Bytes>, targets: map<Bytes, string>): seq<Chunk> {
    if lines == [] then []
    else
      var before := ReadLines(lines[..|lines| - 1], targets);
      match ParseControlOutputLine(lines[|lines| - 1])
      case None => before
      case Some(ev) => if ev.paneID in targets then before + [Chunk(targets[ev.paneID], ev.data)] else before
  }

  function PrintLines(outputs: seq<ControlOutput>): seq<Bytes> {
    if outputs == [] then []
    else PrintLines(outputs[..|outputs| - 1]) + [OutputLine(outputs[|outputs| - 1].paneID, outputs[|outputs| - 1].data)]
  }

  /** Everything tmux wrote for the panes of one target. */
  function Written(outputs: seq<ControlOutput>, targets: map<Bytes, string>, target: string): Bytes {
    if outputs == [] then []
    else
      var o := outputs[|outputs| - 1];
      Written(outputs[..|outputs| - 1], targets, target)
      + if o.paneID in targets && targets[o.paneID] == target then o.data else []
  }

  lemma {:induction false} LinesReadBack(outputs: seq<ControlOutput>, targets: map<Bytes, string>, target: string)
    requires forall o :: o in outputs ==> IsPaneName(o.paneID)
    ensures Stream(ReadLines(PrintLines(outputs), targets), target) == Written(outputs, targets, target)
  {
    hide ParseControlOutputLine, OutputLine, ReadLines, PrintLines, Stream, Written, IsPaneName;
    if outputs == [] {
      NothingPrinted(targets, target);
    } else {
      var r, o := outputs[..|outputs| - 1], outputs[|outputs| - 1];
      assert o in outputs && forall x :: x in r ==> x in outputs;
      LinesReadBack(r, targets, target);
      OutputLineRoundTrip(o.paneID, o.data);
      OneLineMore(outputs, targets, target);
    }
  }

  lemma NothingPrinted(targets: map<Bytes, string>, target: string)
    ensures Stream(ReadLines(PrintLines([]), targets), target) == Written([], targets, target)
  {
  }

  lemma OneLineMore(outputs: seq<ControlOutput>, targets: map<Bytes, string>, target: string)
    requires outputs != []
    requires var o := outputs[|outputs| - 1]; ParseControlOutputLine(OutputLine(o.paneID, o.data)) == Some(o)
    ensures var r, o := outputs[..|outputs| - 1], outputs[|outputs| - 1];
      var added := if o.paneID in targets && targets[o.paneID] == target then o.data else [];
      && Stream(ReadLines(PrintLines(outputs), targets), target)
        == Stream(ReadLines(PrintLines(r), targets), target) + added
      && Written(outputs, targets, target) == Written(r, targets, target) + added
  {
    hide ParseControlOutputLine, OutputLine;
    var r, o := outputs[..|outputs| - 1], outputs[|outputs| - 1];
    var lines, before := PrintLines(outputs), ReadLines(PrintLines(r), targets);
    assert lines[..|lines| - 1] == PrintLines(r) && lines[|lines| - 1] == OutputLine(o.paneID, o.data);
    if o.paneID in targets {
      var c := Chunk(targets[o.paneID], o.data);
      assert (before + [c])[..|before|] == before;
    } else {
      assert Stream(before, target) + [] == Stream(before, target);
    }
  }

  /**
    End to end: from the lines tmux prints, what is passed on for a target is a prefix of the bytes its
    panes wrote, fixed by those bytes alone, and at most three bytes short of them; when they are valid
    text, it is all of them, in valid pieces.
   */
  lemma PipelinePassesOnWhatWasWritten(outputs: seq<ControlOutput>, targets: map<Bytes, string>, target: string)
    requires forall o :: o in outputs ==> IsPaneName(o.paneID)
    ensures var run, written := ReadLines(PrintLines(outputs), targets), Written(outputs, targets, target);
      && Emitted(run, target) == written[..EmitLength(written)] && |written| - EmitLength(written) <= 3
      && (IsValid(written) ==> Emitted(run, target) == written
                               && forall i :: 0 <= i < |run| && run[i].target == target ==> IsValid(EmitAt(run, i)))
  {
    hide ReadLines, PrintLines, Written, EmitAt, EmitLength, IsValid, Emitted;
    LinesReadBack(outputs, targets, target);
    var run, written := ReadLines(PrintLines(outputs), targets), Written(outputs, targets, target);
    ChunkingInvariance(run, target);
    RestIsProperPrefix(written);
    if IsValid(written) {
      ValidStreamIsPassedOn(run, target);
      forall i | 0 <= i < |run| && run[i].target == target
        ensures IsValid(EmitAt(run, i))
      {
        assert Stream(run, target) + [] == written;
        ValidStreamEmitsValid(run, target, [], i);
      }
    }
  }
}
