/** When the patch applier refuses, and with which error. */
module PatchRefusals {
  import opened Decimal
  import opened EditScripts
  import opened Lines
  import opened UnifiedPatch
  import opened Wrappers

  /** The old lines of a hunk body are what the text has from line `src` on. */
  predicate Matches(base: seq<string>, body: seq<Edit>, src: nat) {
    src + |OldOf(body)| <= |base| && base[src..src + |OldOf(body)|] == OldOf(body)
  }

  /** The text does not have the edit's line at `src`. */
  predicate Differs(base: seq<string>, e: Edit, src: nat) {
    !e.Add? && (src >= |base| || base[src] != e.text)
  }

  lemma DifferingEdit(base: seq<string>, e: Edit, more: seq<string>, src: nat)
    requires src <= |base| && !LooksLikeFileHeader(e) && Differs(base, e, src)
    ensures ApplyHunk(base, [EditLine(e)] + more, src) == Err(if e.Keep? then ContextMismatch else RemoveMismatch)
  {
    hide EditLine, LooksLikeFileHeader;
    EditLineIsBody(e);
  }

  lemma OldOfMore(body: seq<Edit>, e: Edit)
    ensures OldOf([e] + body) == (if e.Add? then [] else [e.text]) + OldOf(body)
  {
    assert ([e] + body)[1..] == body;
  }

  /** Where the first edit fits, the body matches if and only if the rest of it does. */
  lemma MatchStep(base: seq<string>, e: Edit, body: seq<Edit>, src: nat)
    requires src <= |base| && !Differs(base, e, src)
    ensures var next := if e.Add? then src else src + 1;
      next <= |base| && (Matches(base, [e] + body, src) <==> Matches(base, body, next))
  {
    hide OldOf;
    OldOfMore(body, e);
    var next, o := if e.Add? then src else src + 1, OldOf(body);
    if !e.Add? && next + |o| <= |base| {
      assert base[src..next + |o|] == [base[src]] + base[next..next + |o|];
      assert ([e.text] + o)[1..] == o;
      assert base[src..next + |o|][1..] == base[next..next + |o|];
    } else if e.Add? {
      assert [] + o == o;
    }
  }

  lemma NothingMatches(base: seq<string>, src: nat)
    requires src <= |base|
    ensures Matches(base, [], src) && OldOf([]) == []
  {
  }

  /**
    A hunk body whose old lines are not what the text has is refused at the first line that differs: with a
    context mismatch for a line that is kept, with a remove mismatch for one that is deleted.
   */
  lemma {:induction false} RefusedWhereItDiffers(base: seq<string>, body: seq<Edit>, more: seq<string>, src: nat)
    returns (k: nat)
    requires src <= |base| && (forall e :: e in body ==> !LooksLikeFileHeader(e)) && !Matches(base, body, src)
    ensures k < |body| && Matches(base, body[..k], src) && Differs(base, body[k], src + |OldOf(body[..k])|)
    ensures ApplyHunk(base, BodyLines(body) + more, src)
      == Err(if body[k].Keep? then ContextMismatch else RemoveMismatch)
  {
    hide ApplyHunk, Prepend, EditLine, LooksLikeFileHeader, Matches, OldOf, Differs, BodyLines;
    NothingMatches(base, src);
    var e, b := body[0], body[1..];
    assert body == [e] + b && e in body && forall x :: x in b ==> x in body;
    FirstLine(e, b, more);
    if Differs(base, e, src) {
      k := 0;
      DifferingEdit(base, e, BodyLines(b) + more, src);
    } else {
      var next := if e.Add? then src else src + 1;
      MatchStep(base, e, b, src);
      k := RefusedWhereItDiffers(base, b, more, next);
      EditFits(base, e, BodyLines(b) + more, src);
      assert body[..k + 1] == [e] + b[..k];
      OldOfMore(b[..k], e);
      MatchStep(base, e, b[..k], src);
      PrependError(if e.Del? then [] else [e.text], if b[k].Keep? then ContextMismatch else RemoveMismatch);
      k := k + 1;
    }
  }

  lemma FirstLine(e: Edit, b: seq<Edit>, more: seq<string>)
    ensures BodyLines([e] + b) + more == [EditLine(e)] + (BodyLines(b) + more)
  {
    assert ([e] + b)[1..] == b;
  }

  lemma EditFits(base: seq<string>, e: Edit, more: seq<string>, src: nat)
    requires src <= |base| && !LooksLikeFileHeader(e) && !Differs(base, e, src)
    ensures var next := if e.Add? then src else src + 1;
      next <= |base|
      && ApplyHunk(base, [EditLine(e)] + more, src)
        == Prepend(if e.Del? then [] else [e.text], ApplyHunk(base, more, next))
  {
    hide EditLine, LooksLikeFileHeader, ApplyHunk;
    EditApplies(base, e, more, src);
  }

  /** A line in a hunk that is no edit, header, file header or newline marker is refused. */
  lemma OddLineIsRefused(base: seq<string>, line: string, more: seq<string>, src: nat)
    requires src <= |base| && HeaderStart(line).None? && !HasPrefix(line, "--- ") && !HasPrefix(line, "+++ ")
    requires !HasPrefix(line, "\\ No newline at end of file")
    requires line == "" || (line[0] != ' ' && line[0] != '-' && line[0] != '+')
    ensures ApplyHunk(base, [line] + more, src) == Err(if line == "" then InvalidLine else InvalidOp)
  {
    hide HeaderStart;
  }

  /**
    A hunk header outside a hunk is refused for its old start when that is no positive 64-bit number, and for
    its position when that is before the lines already copied or past the end of the text.
   */
  lemma HeaderIsRefusedIff(base: seq<string>, line: string, more: seq<string>, src: nat)
    requires src <= |base| && HeaderStart(line).Some? && !HasPrefix(line, "--- ") && !HasPrefix(line, "+++ ")
    ensures var start, applied := Value(HeaderStart(line).value), ApplyLines(base, [line] + more, src);
      if start < 1 || start > 9223372036854775807 then applied == Err(InvalidOldStart)
      else if start < src + 1 || start > |base| + 1 then applied == Err(InvalidPosition)
      else applied == Prepend(base[src..start - 1], ApplyHunk(base, more, start - 1))
  {
    hide HeaderStart, Value;
    assert ([line] + more)[1..] == more;
  }

  lemma MarkerIsNoHeader(line: string)
    requires HasPrefix(line, "\\ No newline at end of file")
    ensures HeaderStart(line).None? && !IsFileHeader(line) && HasPrefix(line, NO_NEWLINE)
  {
    hide CountDigits, SkipCount;
    var marker := "\\ No newline at end of file";
    assert marker[0] == '\\' && line[0] == line[..|marker|][0];
    hide HasPrefix;
    FirstCharacter(line, "@@ -");
    FirstCharacter(line, "--- ");
    FirstCharacter(line, "+++ ");
  }

  /** A newline marker inside a hunk is passed over, whatever follows the words. */
  lemma MarkerIsSkipped(base: seq<string>, line: string, more: seq<string>, src: nat)
    requires src <= |base| && HasPrefix(line, "\\ No newline at end of file")
    ensures ApplyHunk(base, [line] + more, src) == ApplyHunk(base, more, src)
  {
    hide ApplyLines, HasPrefix, HeaderStart;
    MarkerIsNoHeader(line);
    assert ([line] + more)[1..] == more;
  }
}
