/** The "no newline at end of file" marker of a patch has no effect. */
module NewlineMarkers {
  import opened Decimal
  import opened EditScripts
  import opened Lines
  import opened PatchMeaning
  import opened UnifiedPatch
  import opened Wrappers

  predicate IsMarker(line: string) {
    HasPrefix(line, NO_NEWLINE)
  }

  function WithoutMarkers(lines: seq<string>): seq<string> {
    if lines == [] then []
    else (if IsMarker(lines[0]) then [] else [lines[0]]) + WithoutMarkers(lines[1..])
  }

  lemma MarkerIsNoHeader(line: string)
    requires IsMarker(line)
    ensures !IsFileHeader(line) && HeaderStart(line).None?
  {
    hide CountDigits, SkipCount;
    assert line[0] == NO_NEWLINE[0];
    FirstCharacter(line, "--- ");
    FirstCharacter(line, "+++ ");
    FirstCharacter(line, "@@ -");
  }

  lemma FirstLine(lines: seq<string>)
    requires lines != []
    ensures !IsMarker(lines[0]) ==>
      WithoutMarkers(lines) != [] && WithoutMarkers(lines)[0] == lines[0]
        && WithoutMarkers(lines)[1..] == WithoutMarkers(lines[1..])
    ensures IsMarker(lines[0]) ==> WithoutMarkers(lines) == WithoutMarkers(lines[1..])
  {
  }

  /** Any patch does the same with its markers left out, wherever they stand. */
  lemma {:induction false} MarkersDoNotMatter(base: seq<string>, lines: seq<string>, src: nat)
    requires src <= |base|
    ensures ApplyLines(base, lines, src) == ApplyLines(base, WithoutMarkers(lines), src)
    decreases |lines|, 0
  {
    hide IsMarker, IsFileHeader, HeaderStart, ApplyHunk, Prepend, WithoutMarkers, Value;
    if lines == [] {
      NothingToLeaveOut();
    } else {
      FirstLine(lines);
      MarkersDoNotMatter(base, lines[1..], src);
      if IsMarker(lines[0]) {
        MarkerIsNoHeader(lines[0]);
      } else if !IsFileHeader(lines[0]) && HeaderStart(lines[0]).Some? {
        var start := Value(HeaderStart(lines[0]).value);
        if 1 <= start && src <= start - 1 <= |base| {
          MarkersInHunk(base, lines[1..], start - 1);
        }
      }
    }
  }

  lemma NothingToLeaveOut()
    ensures WithoutMarkers([]) == []
  {
  }

  lemma {:induction false} MarkersInHunk(base: seq<string>, lines: seq<string>, src: nat)
    requires src <= |base|
    ensures ApplyHunk(base, lines, src) == ApplyHunk(base, WithoutMarkers(lines), src)
    decreases |lines|, 1
  {
    hide IsFileHeader, HeaderStart, ApplyLines, Prepend, WithoutMarkers;
    MarkersDoNotMatter(base, lines, src);
    if lines == [] {
      NothingToLeaveOut();
    } else {
      FirstLine(lines);
      MarkersInHunk(base, lines[1..], src);
      if IsMarker(lines[0]) {
        MarkerIsNoHeader(lines[0]);
      } else if src < |base| {
        MarkersInHunk(base, lines[1..], src + 1);
      }
    }
  }

  /** The patch that takes away the final newline after the last line `l`, as it is printed. */
  function DropFinalNewline(before: seq<string>, l: string, style: Style): seq<string> {
    [HeaderLine(|before| + 1, 1, |before| + 1, 1, style), "-" + l, "+" + l, NO_NEWLINE]
  }

  /** The patch that adds it. */
  function AddFinalNewline(before: seq<string>, l: string, style: Style): seq<string> {
    [HeaderLine(|before| + 1, 1, |before| + 1, 1, style), "-" + l, NO_NEWLINE, "+" + l]
  }

  /**
    A patch that changes the final newline only has no effect: the text keeps the empty last line that
    stands for it, or stays without one.  It has another effect exactly when adding the line reads as a
    file header.
   */
  lemma FinalNewlineStays(before: seq<string>, l: string, end: seq<string>, style: Style)
    requires |before| + 2 < MAX_INT && (end == [""] || end == [])
    ensures ApplyLines(before + [l] + end, DropFinalNewline(before, l, style), 0) == Ok(before + [l] + end)
      <==> !HasPrefix(l, "++ ")
    ensures ApplyLines(before + [l] + end, AddFinalNewline(before, l, style), 0) == Ok(before + [l] + end)
      <==> !HasPrefix(l, "++ ")
  {
    hide ApplyLines, HeaderLine, WithoutMarkers;
    var base, body := before + [l] + end, [Del(l), Add(l)];
    var s := Cut(before, body, Tail(end), style);
    MarkersDoNotMatter(base, DropFinalNewline(before, l, style), 0);
    MarkersDoNotMatter(base, AddFinalNewline(before, l, style), 0);
    SameWithoutMarkers(before, l, style);
    PrintedChange(before, l, end, style);
    BodyOfOne(Del(l));
    BodyOfOne(Add(l));
    BodyOfTwo(Del(l), Add(l));
    SingleHunkIff(before, body, end, style);
  }

  lemma SameWithoutMarkers(before: seq<string>, l: string, style: Style)
    ensures var lines := [HeaderLine(|before| + 1, 1, |before| + 1, 1, style), "-" + l, "+" + l];
      WithoutMarkers(DropFinalNewline(before, l, style)) == lines == WithoutMarkers(AddFinalNewline(before, l, style))
  {
    hide HeaderLine;
    var h := HeaderLine(|before| + 1, 1, |before| + 1, 1, style);
    var drop, add := DropFinalNewline(before, l, style), AddFinalNewline(before, l, style);
    HeaderIsNoMarker(|before| + 1, style);
    assert IsMarker(NO_NEWLINE);
    FirstCharacter("-" + l, NO_NEWLINE);
    FirstCharacter("+" + l, NO_NEWLINE);
    hide WithoutMarkers, IsMarker;
    NothingToLeaveOut();
    var a, b := "-" + l, "+" + l;
    assert drop[1..] == [a, b, NO_NEWLINE] && drop[1..][1..] == [b, NO_NEWLINE] && [b, NO_NEWLINE][1..] == [NO_NEWLINE];
    assert [NO_NEWLINE][1..] == [];
    assert add[1..] == [a, NO_NEWLINE, b] && add[1..][1..] == [NO_NEWLINE, b] && [NO_NEWLINE, b][1..] == [b]
      && [b][1..] == [];
    FirstLine(drop);
    FirstLine(drop[1..]);
    FirstLine([b, NO_NEWLINE]);
    FirstLine([NO_NEWLINE]);
    FirstLine(add);
    FirstLine(add[1..]);
    FirstLine([NO_NEWLINE, b]);
    FirstLine([b]);
  }

  lemma HeaderIsNoMarker(k: nat, style: Style)
    ensures !IsMarker(HeaderLine(k, 1, k, 1, style))
  {
    FirstCharacter(HeaderLine(k, 1, k, 1, style), NO_NEWLINE);
  }

  lemma PrintedChange(before: seq<string>, l: string, end: seq<string>, style: Style)
    ensures var s := Cut(before, [Del(l), Add(l)], Tail(end), style);
      && PatchOf(s, 0, 0) == [HeaderLine(|before| + 1, 1, |before| + 1, 1, style), "-" + l, "+" + l]
      && Old(s) == before + [l] + end == New(s)
  {
    hide HeaderLine;
    var body := [Del(l), Add(l)];
    assert body[1..] == [Add(l)] && [Add(l)][1..] == [];
    BodyOfOne(Del(l));
    BodyOfOne(Add(l));
    BodyOfTwo(Del(l), Add(l));
    assert BodyLines([Add(l)]) == ["+" + l];
  }
}
