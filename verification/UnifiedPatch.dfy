/**
  Applying a unified diff to a text.  The regular expression of the hunk header is the parser
  `HeaderStart`; everything else follows the program's loops.
 */
module UnifiedPatch {
  import opened Wrappers
  import opened Lines
  import opened Strings
  import opened Decimal

  datatype PatchError = InvalidOldStart | InvalidPosition | InvalidLine | ContextMismatch | RemoveMismatch | InvalidOp

  type Outcome = Result<seq<string>, PatchError>

  const MAX_INT := 0x7FFF_FFFF_FFFF_FFFF

  const NO_NEWLINE := "\\ No newline at end of file"

  /** `strings.ReplaceAll(s, "\r\n", "\n")`. */
  function NormalizeNewlines(s: string): string {
    if |s| >= 2 && s[0] == '\r' && s[1] == '\n' then "\n" + NormalizeNewlines(s[2..])
    else if s == [] then []
    else [s[0]] + NormalizeNewlines(s[1..])
  }

  function CountDigits(s: string): (n: nat)
    ensures n <= |s| && AllDigits(s[..n])
  {
    if s != [] && IsDigit(s[0]) then 1 + CountDigits(s[1..]) else 0
  }

  /** What is left after an optional `,` and count. */
  function SkipCount(s: string): string {
    if s != [] && s[0] == ',' && CountDigits(s[1..]) > 0 then s[1 + CountDigits(s[1..])..] else s
  }

  /** The digits of the old start, if the line is a hunk header: `@@ -N[,N] +N[,N] @@`. */
  function HeaderStart(line: string): (r: Option<string>)
    ensures r.Some? ==> AllDigits(r.value)
  {
    if !HasPrefix(line, "@@ -") then None
    else
      var s1 := line[4..];
      var n := CountDigits(s1);
      var s2 := SkipCount(s1[n..]);
      if n == 0 || !HasPrefix(s2, " +") || CountDigits(s2[2..]) == 0 then None
      else if HasPrefix(SkipCount(s2[2 + CountDigits(s2[2..])..]), " @@") then Some(s1[..n])
      else None
  }

  predicate IsFileHeader(line: string) {
    HasPrefix(line, "--- ") || HasPrefix(line, "+++ ")
  }

  function Prepend(lines: seq<string>, r: Outcome): Outcome {
    match r
    case Ok(rest) => Ok(lines + rest)
    case Err(e) => Err(e)
  }

  /** Between hunks, from patch line 0 of `lines` and base line `src` on. */
  function ApplyLines(base: seq<string>, lines: seq<string>, src: nat): Outcome
    requires src <= |base|
    decreases |lines|, 0
  {
    if lines == [] then Ok(base[src..])
    else if IsFileHeader(lines[0]) then ApplyLines(base, lines[1..], src)
    else
      match HeaderStart(lines[0])
      case None => ApplyLines(base, lines[1..], src)
      case Some(digits) =>
        var start := Value(digits);
        if start > MAX_INT || start < 1 then Err(InvalidOldStart)
        else if start - 1 < src || start - 1 > |base| then Err(InvalidPosition)
        else Prepend(base[src..start - 1], ApplyHunk(base, lines[1..], start - 1))
  }

  /** Inside a hunk. */
  function ApplyHunk(base: seq<string>, lines: seq<string>, src: nat): Outcome
    requires src <= |base|
    decreases |lines|, 1
  {
    if lines == [] || HeaderStart(lines[0]).Some? || IsFileHeader(lines[0]) then ApplyLines(base, lines, src)
    else if HasPrefix(lines[0], NO_NEWLINE) then ApplyHunk(base, lines[1..], src)
    else if lines[0] == "" then Err(InvalidLine)
    else
      var op, text := lines[0][0], lines[0][1..];
      if op == ' ' then
        if src >= |base| || base[src] != text then Err(ContextMismatch)
        else Prepend([text], ApplyHunk(base, lines[1..], src + 1))
      else if op == '-' then
        if src >= |base| || base[src] != text then Err(RemoveMismatch)
        else ApplyHunk(base, lines[1..], src + 1)
      else if op == '+' then Prepend([text], ApplyHunk(base, lines[1..], src))
      else Err(InvalidOp)
  }

  /** The lines of a patch text; a last line of white space only is dropped. */
  function PatchLines(patch: string): seq<string> {
    var lines := Split(NormalizeNewlines(patch));
    if Trim(lines[|lines| - 1]) == "" then lines[..|lines| - 1] else lines
  }

  function ApplyText(base: string, patch: string): Result<string, PatchError> {
    match ApplyLines(Split(NormalizeNewlines(base)), PatchLines(patch), 0)
    case Ok(lines) => Ok(Join(lines))
    case Err(e) => Err(e)
  }

  lemma PrependTwice(a: seq<string>, b: seq<string>, r: Outcome)
    ensures Prepend(a, Prepend(b, r)) == Prepend(a + b, r)
  {
    if r.Ok? {
      assert a + (b + r.value) == a + b + r.value;
    }
  }

  /** The inner loop: the body lines of one hunk, from patch line `from` on. */
  method ApplyHunkBody(base: seq<string>, lines: seq<string>, from: nat, start: nat)
    returns (i: nat, srcIndex: nat, out: seq<string>, error: Option<PatchError>)
    requires from <= |lines| && start <= |base|
    ensures from <= i <= |lines| && srcIndex <= |base|
    ensures ApplyHunk(base, lines[from..], start)
         == if error.Some? then Err(error.value) else Prepend(out, ApplyLines(base, lines[i..], srcIndex))
  {
    hide HeaderStart, Prepend, ApplyLines, HasPrefix, IsFileHeader;
    i, srcIndex, out, error := from, start, [], None;
    ghost var whole := ApplyHunk(base, lines[from..], start);
    PrependNothing(whole);
    while i < |lines|
      invariant from <= i <= |lines| && srcIndex <= |base| && error.None?
      invariant whole == Prepend(out, ApplyHunk(base, lines[i..], srcIndex))
      decreases |lines| - i
    {
      var hunkLine := lines[i];
      assert lines[i..][1..] == lines[i + 1..];
      if HeaderStart(hunkLine).Some? {
        break;
      }
      if IsFileHeader(hunkLine) {
        break;
      }
      if HasPrefix(hunkLine, NO_NEWLINE) {
        i := i + 1;
        continue;
      }
      if hunkLine == "" {
        error := Some(InvalidLine);
        assert whole == Err(InvalidLine) by { PrependError(out, InvalidLine); }
        return;
      }
      var op, text := hunkLine[0], hunkLine[1..];
      if op == ' ' {
        if srcIndex >= |base| || base[srcIndex] != text {
          error := Some(ContextMismatch);
          assert whole == Err(ContextMismatch) by { PrependError(out, ContextMismatch); }
          return;
        }
        PrependTwice(out, [text], ApplyHunk(base, lines[i + 1..], srcIndex + 1));
        out := out + [text];
        srcIndex := srcIndex + 1;
      } else if op == '-' {
        if srcIndex >= |base| || base[srcIndex] != text {
          error := Some(RemoveMismatch);
          assert whole == Err(RemoveMismatch) by { PrependError(out, RemoveMismatch); }
          return;
        }
        srcIndex := srcIndex + 1;
      } else if op == '+' {
        PrependTwice(out, [text], ApplyHunk(base, lines[i + 1..], srcIndex));
        out := out + [text];
      } else {
        error := Some(InvalidOp);
        assert whole == Err(InvalidOp) by { PrependError(out, InvalidOp); }
        return;
      }
      i := i + 1;
    }
  }

  lemma PrependError(lines: seq<string>, e: PatchError)
    ensures Prepend(lines, Err(e)) == Err(e)
  {
  }

  /** The outer loop over the patch lines. */
  method ApplyPatchLines(base: seq<string>, lines: seq<string>) returns (result: Outcome)
    ensures result == ApplyLines(base, lines, 0)
  {
    hide HeaderStart, ApplyHunk, IsFileHeader, Value;
    var srcIndex: nat, i: nat, out := 0, 0, [];
    ghost var whole := ApplyLines(base, lines, 0);
    assert lines[0..] == lines;
    PrependNothing(whole);

    while i < |lines|
      invariant i <= |lines| && srcIndex <= |base|
      invariant whole == Prepend(out, ApplyLines(base, lines[i..], srcIndex))
      decreases |lines| - i
    {
      var line := lines[i];
      assert lines[i..][1..] == lines[i + 1..];
      if IsFileHeader(line) {
        i := i + 1;
        continue;
      }
      var matches := HeaderStart(line);
      if matches.None? {
        i := i + 1;
        continue;
      }
      var oldStart := Value(matches.value);
      if oldStart > MAX_INT || oldStart < 1 {
        return Err(InvalidOldStart);
      }
      var targetIndex := oldStart - 1;
      if targetIndex < srcIndex || targetIndex > |base| {
        return Err(InvalidPosition);
      }
      PrependTwice(out, base[srcIndex..targetIndex], ApplyHunk(base, lines[i + 1..], targetIndex));
      out := out + base[srcIndex..targetIndex];
      var added, error;
      i, srcIndex, added, error := ApplyHunkBody(base, lines, i + 1, targetIndex);
      if error.Some? {
        return Err(error.value);
      }
      PrependTwice(out, added, ApplyLines(base, lines[i..], srcIndex));
      out := out + added;
    }

    out := out + base[srcIndex..];
    result := Ok(out);
  }

  method ApplyUnifiedPatchText(baseText: string, patch: string) returns (result: Result<string, PatchError>)
    ensures result == ApplyText(baseText, patch)
  {
    hide Split, NormalizeNewlines, Trim, ApplyLines, Join;
    var lines := Split(NormalizeNewlines(patch));
    if Trim(lines[|lines| - 1]) == "" {
      lines := lines[..|lines| - 1];
    }
    var base := Split(NormalizeNewlines(baseText));
    var applied := ApplyPatchLines(base, lines);
    match applied
    case Ok(out) => result := Ok(Join(out));
    case Err(e) => result := Err(e);
  }

  lemma PrependNothing(r: Outcome)
    ensures Prepend([], r) == r
  {
    if r.Ok? {
      assert [] + r.value == r.value;
    }
  }
}
