/** Line ends of texts and patches: each of them may be a newline with or without a carriage return. */
module LineEndings {
  import opened EditScripts
  import opened Lines
  import opened PatchMeaning
  import Strings
  import opened UnifiedPatch
  import opened Wrappers

  /** Lines joined with the line ends given, line by line: a carriage return and a newline, or a newline. */
  function JoinWith(lines: seq<string>, crlf: seq<bool>): string
    requires |crlf| == |lines|
  {
    if lines == [] then []
    else if |lines| == 1 then lines[0]
    else lines[0] + (if crlf[0] then "\r\n" else "\n") + JoinWith(lines[1..], crlf[1..])
  }

  /** Pieces joined with carriage return and newline. */
  function JoinCrLf(pieces: seq<string>): string {
    if pieces == [] then []
    else if |pieces| == 1 then pieces[0]
    else pieces[0] + "\r\n" + JoinCrLf(pieces[1..])
  }

  lemma NoCrLfInRest(s: string)
    requires NoCrLf(s) && s != []
    ensures NoCrLf(s[1..]) && (|s| >= 2 ==> !(s[0] == '\r' && s[1] == '\n'))
  {
    forall i | 0 <= i < |s[1..]| - 1 ensures !(s[1..][i] == '\r' && s[1..][i + 1] == '\n') {
      assert s[1..][i] == s[i + 1] && s[1..][i + 1] == s[i + 1 + 1];
    }
    assert |s| >= 2 ==> s[1] == s[0 + 1];
  }

  /** A pair after text without one becomes a newline. */
  lemma {:induction false} FirstPair(piece: string, rest: string)
    requires NoCrLf(piece)
    ensures NormalizeNewlines(piece + "\r\n" + rest) == piece + "\n" + NormalizeNewlines(rest)
  {
    var s := piece + "\r\n" + rest;
    if piece == [] {
      assert s[2..] == rest;
    } else {
      NoCrLfInRest(piece);
      FirstPair(piece[1..], rest);
      assert s[1..] == piece[1..] + "\r\n" + rest;
      assert piece == [piece[0]] + piece[1..];
      assert s[1] == if |piece| > 1 then piece[1] else '\r';
    }
  }

  /** Every pair becomes a newline, and everything between pairs stays. */
  lemma {:induction false} EveryPairIsReplaced(pieces: seq<string>)
    requires forall p :: p in pieces ==> NoCrLf(p)
    ensures NormalizeNewlines(JoinCrLf(pieces)) == Join(pieces)
  {
    hide NormalizeNewlines, NoCrLf;
    if |pieces| > 1 {
      EveryPairIsReplaced(pieces[1..]);
      FirstPair(pieces[0], JoinCrLf(pieces[1..]));
    } else if |pieces| == 1 {
      NormalizeIsIdentity(pieces[0]);
    } else {
      NormalizeNothing();
    }
  }

  lemma NormalizeNothing()
    ensures NormalizeNewlines("") == ""
  {
  }

  /** Every text is made of such pieces. */
  lemma {:induction false} HasPieces(s: string) returns (pieces: seq<string>)
    ensures pieces != [] && s == JoinCrLf(pieces) && forall p :: p in pieces ==> NoCrLf(p)
  {
    if s == [] {
      pieces := [[]];
    } else if |s| >= 2 && s[0] == '\r' && s[1] == '\n' {
      var rest := HasPieces(s[2..]);
      pieces := [[]] + rest;
      assert pieces[1..] == rest;
      assert s == [] + "\r\n" + s[2..];
    } else {
      var rest := HasPieces(s[1..]);
      var first := [s[0]] + rest[0];
      pieces := [first] + rest[1..];
      assert pieces[1..] == rest[1..];
      assert |rest| > 1 ==> s == [s[0]] + (rest[0] + "\r\n" + JoinCrLf(rest[1..]));
      forall i | 0 <= i < |first| - 1 ensures !(first[i] == '\r' && first[i + 1] == '\n') {
        assert rest[0] in rest;
        if i == 0 {
          assert s[1] == s[1..][0] == rest[0][0];
        } else {
          assert first[i] == rest[0][i - 1] && first[i + 1] == rest[0][i - 1 + 1];
        }
      }
    }
  }

  lemma {:induction false} FirstNewline(line: string, rest: string)
    requires CleanLine(line)
    ensures NormalizeNewlines(line + "\n" + rest) == line + "\n" + NormalizeNewlines(rest)
  {
    var s := line + "\n" + rest;
    if line == [] {
      assert s[1..] == rest;
    } else {
      FirstNewline(line[1..], rest);
      assert s[1..] == line[1..] + "\n" + rest;
      assert line == [line[0]] + line[1..];
      assert s[1] == if |line| > 1 then line[1] else '\n';
    }
  }

  lemma CleanHasNoCrLf(line: string)
    requires CleanLine(line)
    ensures NoCrLf(line)
  {
    forall i | 0 <= i < |line| - 1 ensures !(line[i] == '\r' && line[i + 1] == '\n') {
      assert line[i + 1] in line;
    }
  }

  /** Clean lines with any line ends are read as these lines. */
  lemma {:induction false} EndsAreNormalized(lines: seq<string>, crlf: seq<bool>)
    requires |crlf| == |lines| && CleanLines(lines)
    ensures NormalizeNewlines(JoinWith(lines, crlf)) == Join(lines)
  {
    hide NormalizeNewlines, CleanLine, NoCrLf;
    if lines == [] {
      NormalizeNothing();
    } else {
      CleanHasNoCrLf(lines[0]);
      if |lines| == 1 {
        NormalizeIsIdentity(lines[0]);
      } else {
        EndsAreNormalized(lines[1..], crlf[1..]);
        FirstNewline(lines[0], JoinWith(lines[1..], crlf[1..]));
        FirstPair(lines[0], JoinWith(lines[1..], crlf[1..]));
      }
    }
  }

  /** The applier's answer does not depend on the line ends of the text or of the patch. */
  lemma EndsDoNotMatter(base: seq<string>, baseCrlf: seq<bool>, patch: seq<string>, patchCrlf: seq<bool>)
    requires |baseCrlf| == |base| && |patchCrlf| == |patch| && CleanLines(base) && CleanLines(patch)
    ensures ApplyText(JoinWith(base, baseCrlf), JoinWith(patch, patchCrlf)) == ApplyText(Join(base), Join(patch))
  {
    hide Join, JoinWith, NormalizeNewlines, ApplyText, CleanLines, NoCrLf;
    EndsAreNormalized(base, baseCrlf);
    EndsAreNormalized(patch, patchCrlf);
    JoinHasNoCrLf(base);
    JoinHasNoCrLf(patch);
    NormalizeIsIdentity(Join(base));
    NormalizeIsIdentity(Join(patch));
    OnlyNormalCounts(JoinWith(base, baseCrlf), Join(base), JoinWith(patch, patchCrlf), Join(patch));
  }

  lemma OnlyNormalCounts(base: string, sameBase: string, patch: string, samePatch: string)
    requires NormalizeNewlines(base) == NormalizeNewlines(sameBase)
    requires NormalizeNewlines(patch) == NormalizeNewlines(samePatch)
    ensures ApplyText(base, patch) == ApplyText(sameBase, samePatch)
  {
    hide Split, Join, NormalizeNewlines, ApplyLines, Strings.Trim;
  }

  /**
    A printed patch takes the old text to the new one under the same condition whatever the line ends of
    either, and the new text has plain newlines.
   */
  lemma AnyEndsApplyIff(preamble: seq<string>, s: Script, baseCrlf: seq<bool>, patchCrlf: seq<bool>)
    requires Old(s) != [] && |Old(s)| < MAX_INT && CleanLines(Old(s)) && CleanLines(New(s))
    requires IsPreamble(preamble) && HasCleanSections(s)
    requires |baseCrlf| == |Old(s)| && |patchCrlf| == |preamble + PatchOf(s, 0, 0) + [""]|
    ensures var patch := JoinWith(preamble + PatchOf(s, 0, 0) + [""], patchCrlf);
      var applied := ApplyText(JoinWith(Old(s), baseCrlf), patch);
      && (IsFaithful([], s) ==> applied == Ok(Join(New(s))))
      && (IsBalanced(s) || Excess(s) != 0 ==> (applied == Ok(Join(New(s))) <==> IsFaithful([], s)))
  {
    hide ApplyText, Join, JoinWith, PatchOf, IsFaithful, IsBalanced, Excess, CleanLines, Old, New;
    PrintedIsClean(preamble, s);
    EndsDoNotMatter(Old(s), baseCrlf, preamble + PatchOf(s, 0, 0) + [""], patchCrlf);
    TextPatchAppliesIff(preamble, s);
    assert PatchText(preamble, s) == Join(preamble + PatchOf(s, 0, 0) + [""]);
  }

  lemma PrintedIsClean(preamble: seq<string>, s: Script)
    requires IsPreamble(preamble) && CleanLines(Old(s)) && CleanLines(New(s)) && HasCleanSections(s)
    ensures CleanLines(preamble + PatchOf(s, 0, 0) + [""])
  {
    hide PatchOf;
    PatchIsClean(s, 0, 0);
  }

  /** Of a patch, a last line of white space only is dropped, and every other line is read. */
  lemma LastBlankIsDropped(lines: seq<string>, last: string)
    requires CleanLines(lines + [last])
    ensures PatchLines(Join(lines + [last])) == if Strings.Trim(last) == "" then lines else lines + [last]
  {
    hide Split, Join, NormalizeNewlines, Strings.Trim;
    var all := lines + [last];
    JoinHasNoCrLf(all);
    NormalizeIsIdentity(Join(all));
    SplitJoin(all);
  }
}
