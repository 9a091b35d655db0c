/**
  Edit scripts between two lists of lines, printed as unified diffs (POSIX `diff`, "Diff -u or -U
  Output Format"), against the patch applier.
 */
module EditScripts {
  import opened Wrappers
  import opened Lines
  import opened Decimal
  import opened Sequences
  import opened UnifiedPatch

  datatype Edit = Keep(text: string) | Del(text: string) | Add(text: string)

  /**
    How a hunk header is printed: the count of a one-line range may be left out, on either side, and any
    text may follow.
   */
  datatype Style = Style(oldCount: bool, newCount: bool, section: string)

  /** Lines common to both sides, then a hunk, then the rest. */
  datatype Script = Tail(lines: seq<string>) | Cut(gap: seq<string>, body: seq<Edit>, rest: Script, style: Style)

  function OldOf(body: seq<Edit>): seq<string> {
    if body == [] then [] else (if body[0].Add? then [] else [body[0].text]) + OldOf(body[1..])
  }

  function NewOf(body: seq<Edit>): seq<string> {
    if body == [] then [] else (if body[0].Del? then [] else [body[0].text]) + NewOf(body[1..])
  }

  function Old(s: Script): seq<string> {
    match s
    case Tail(lines) => lines
    case Cut(gap, body, rest, _) => gap + OldOf(body) + Old(rest)
  }

  function New(s: Script): seq<string> {
    match s
    case Tail(lines) => lines
    case Cut(gap, body, rest, _) => gap + NewOf(body) + New(rest)
  }

  function SwapBody(body: seq<Edit>): seq<Edit> {
    if body == [] then []
    else
      [match body[0] case Keep(t) => Keep(t) case Del(t) => Add(t) case Add(t) => Del(t)] + SwapBody(body[1..])
  }

  /** The script read backwards, from the new side to the old. */
  function Swap(s: Script): Script {
    match s
    case Tail(lines) => Tail(lines)
    case Cut(gap, body, rest, style) =>
      Cut(gap, SwapBody(body), Swap(rest), Style(style.newCount, style.oldCount, style.section))
  }

  function EditLine(e: Edit): string {
    match e
    case Keep(t) => " " + t
    case Del(t) => "-" + t
    case Add(t) => "+" + t
  }

  function BodyLines(body: seq<Edit>): seq<string> {
    if body == [] then [] else [EditLine(body[0])] + BodyLines(body[1..])
  }

  /** The first line of a range of `count` lines after `pos` others; an empty range names the line before it. */
  function RangeStart(pos: nat, count: nat): nat {
    if count == 0 then pos else pos + 1
  }

  function CountText(count: nat, always: bool): string {
    if count == 1 && !always then "" else "," + Print(count)
  }

  function HeaderLine(oldStart: nat, oldCount: nat, newStart: nat, newCount: nat, style: Style): string {
    "@@ -" + Print(oldStart) + CountText(oldCount, style.oldCount)
    + " +" + Print(newStart) + CountText(newCount, style.newCount) + " @@" + style.section
  }

  function PatchOf(s: Script, oldPos: nat, newPos: nat): seq<string> {
    match s
    case Tail(_) => []
    case Cut(gap, body, rest, style) =>
      var o, n := |OldOf(body)|, |NewOf(body)|;
      [HeaderLine(RangeStart(oldPos + |gap|, o), o, RangeStart(newPos + |gap|, n), n, style)]
      + BodyLines(body)
      + PatchOf(rest, oldPos + |gap| + o, newPos + |gap| + n)
  }

  /** A changed line that would read as a file header when printed. */
  predicate LooksLikeFileHeader(e: Edit) {
    (e.Del? && HasPrefix(e.text, "-- ")) || (e.Add? && HasPrefix(e.text, "++ "))
  }

  /** The part of a hunk body the applier carries out: what comes before the first line that reads as a file header. */
  function Carried(body: seq<Edit>): seq<Edit> {
    if body == [] || LooksLikeFileHeader(body[0]) then [] else [body[0]] + Carried(body[1..])
  }

  /** The part of a hunk body the applier drops. */
  function Dropped(body: seq<Edit>): seq<Edit> {
    if body == [] || LooksLikeFileHeader(body[0]) then body else Dropped(body[1..])
  }

  // ---------------------------------------------------------------------------------------------
  // Reading printed lines back.

  lemma {:induction false} CountDigitsOf(d: string, rest: string)
    requires AllDigits(d) && (rest == [] || !IsDigit(rest[0]))
    ensures CountDigits(d + rest) == |d|
  {
    if d == [] {
      assert d + rest == rest;
    } else {
      CountDigitsOf(d[1..], rest);
      assert (d + rest)[1..] == d[1..] + rest;
    }
  }

  lemma SkipCountOf(count: nat, always: bool, rest: string)
    requires rest != [] && !IsDigit(rest[0]) && rest[0] != ','
    ensures var s := CountText(count, always) + rest;
      s != [] && !IsDigit(s[0]) && SkipCount(s) == rest
  {
    ValueOfPrint(count);
    hide Print;
    if count == 1 && !always {
      assert "" + rest == rest;
    } else {
      var s := "," + Print(count) + rest;
      assert s[1..] == Print(count) + rest;
      CountDigitsOf(Print(count), rest);
    }
  }

  /** A header is recognised from its parts. */
  lemma HeaderParts(line: string, a: string, r2: string, r3: string, c: string, r4: string, r5: string)
    requires AllDigits(a) && a != [] && AllDigits(c) && c != []
    requires line == "@@ -" + (a + r2) && r2 != [] && !IsDigit(r2[0]) && SkipCount(r2) == r3
    requires r3 == " +" + (c + r4) && r4 != [] && !IsDigit(r4[0]) && SkipCount(r4) == " @@" + r5
    ensures HeaderStart(line) == Some(a)
  {
    hide SkipCount, CountDigits;
    CountDigitsOf(a, r2);
    CountDigitsOf(c, r4);
    assert line[..4] == "@@ -" && line[4..] == a + r2;
    assert (a + r2)[|a|..] == r2 && (a + r2)[..|a|] == a;
    assert r3[..2] == " +" && r3[2..] == c + r4 && r3[2 + |c|..] == r4;
    assert (" @@" + r5)[..3] == " @@";
  }

  lemma HeaderReadsBack(a: nat, b: nat, c: nat, d: nat, style: Style)
    ensures HeaderStart(HeaderLine(a, b, c, d, style)) == Some(Print(a)) && Value(Print(a)) == a
    ensures !IsFileHeader(HeaderLine(a, b, c, d, style))
  {
    ValueOfPrint(a);
    ValueOfPrint(c);
    hide Print, Value, SkipCount, HeaderStart, CountText;
    var line := HeaderLine(a, b, c, d, style);
    var r4 := CountText(d, style.newCount) + (" @@" + style.section);
    var r3 := " +" + (Print(c) + r4);
    var r2 := CountText(b, style.oldCount) + r3;
    SkipCountOf(b, style.oldCount, r3);
    SkipCountOf(d, style.newCount, " @@" + style.section);
    assert line == "@@ -" + (Print(a) + r2);
    HeaderParts(line, Print(a), r2, r3, Print(c), r4, style.section);
    assert line[0] == '@';
    NotAFileHeader(line);
  }

  lemma NotAFileHeader(line: string)
    requires line != [] && line[0] != '-' && line[0] != '+'
    ensures !IsFileHeader(line)
  {
  }

  lemma EditLineIsBody(e: Edit)
    requires !LooksLikeFileHeader(e)
    ensures var l := EditLine(e);
      && HeaderStart(l).None? && !IsFileHeader(l) && !HasPrefix(l, NO_NEWLINE)
      && l != "" && l[1..] == e.text && l[0] == (if e.Keep? then ' ' else if e.Del? then '-' else '+')
  {
    hide CountDigits, SkipCount, HasPrefix;
    var l := EditLine(e);
    assert l[1..] == e.text;
    LookalikePrefixes(e);
    FirstCharacter(l, "@@ -");
    FirstCharacter(l, NO_NEWLINE);
    FirstCharacter(l, "--- ");
    FirstCharacter(l, "+++ ");
  }

  lemma EditLineIsNoHeader(e: Edit)
    ensures HeaderStart(EditLine(e)).None?
  {
    hide CountDigits, SkipCount, HasPrefix;
    FirstCharacter(EditLine(e), "@@ -");
  }

  /** A printed change reads as a file header exactly when its text begins with the rest of one. */
  lemma LookalikePrefixes(e: Edit)
    ensures e.Del? ==> (HasPrefix(EditLine(e), "--- ") <==> HasPrefix(e.text, "-- "))
    ensures e.Add? ==> (HasPrefix(EditLine(e), "+++ ") <==> HasPrefix(e.text, "++ "))
    ensures LooksLikeFileHeader(e) ==> IsFileHeader(EditLine(e))
  {
    var l := EditLine(e);
    assert l[1..] == e.text;
    if |l| >= 4 {
      assert l[..4] == [l[0]] + e.text[..3];
      assert "--- " == ['-'] + "-- " && "+++ " == ['+'] + "++ ";
      assert l[..4][1..] == e.text[..3] && "--- "[1..] == "-- " && "+++ "[1..] == "++ ";
    }
  }

  lemma FirstCharacter(s: string, p: string)
    requires p != []
    ensures HasPrefix(s, p) ==> s[0] == p[0]
  {
  }

  // ---------------------------------------------------------------------------------------------
  // What the applier makes of a printed script.

  function Placed(out: seq<string>, rest: Option<seq<string>>): Option<seq<string>> {
    if rest.Some? then Some(out + rest.value) else None
  }

  /**
    The lines the applier produces, or nothing if it refuses.  `held` are old lines passed over but
    not copied yet.  A hunk without old lines is applied before the last of them; after a hunk, the
    old lines of its dropped part are held.
   */
  function Applied(held: seq<string>, s: Script): Option<seq<string>>
    decreases s
  {
    match s
    case Tail(lines) => Some(held + lines)
    case Cut(gap, body, rest, _) =>
      var h := held + gap;
      if OldOf(body) != [] then Placed(h + NewOf(Carried(body)), Applied(OldOf(Dropped(body)), rest))
      else if h == [] then None
      else Placed(h[..|h| - 1] + NewOf(Carried(body)), Applied([h[|h| - 1]], rest))
  }

  lemma {:induction false} BodySplits(body: seq<Edit>)
    ensures OldOf(body) == OldOf(Carried(body)) + OldOf(Dropped(body))
    ensures NewOf(body) == NewOf(Carried(body)) + NewOf(Dropped(body))
    ensures BodyLines(body) == BodyLines(Carried(body)) + BodyLines(Dropped(body))
    ensures forall e :: e in Carried(body) ==> !LooksLikeFileHeader(e)
    ensures Dropped(body) == [] || LooksLikeFileHeader(Dropped(body)[0])
  {
    hide LooksLikeFileHeader, OldOf, NewOf, BodyLines;
    if body == [] || LooksLikeFileHeader(body[0]) {
      NoEdits();
      assert [] + OldOf(body) == OldOf(body) && [] + NewOf(body) == NewOf(body)
        && [] + BodyLines(body) == BodyLines(body);
    } else {
      var c, d := Carried(body[1..]), Dropped(body[1..]);
      BodySplits(body[1..]);
      FirstEdit(body);
      FirstEdit([body[0]] + c);
      assert ([body[0]] + c)[1..] == c;
      Reassociate(if body[0].Add? then [] else [body[0].text], OldOf(c), OldOf(d));
      Reassociate(if body[0].Del? then [] else [body[0].text], NewOf(c), NewOf(d));
      Reassociate([EditLine(body[0])], BodyLines(c), BodyLines(d));
    }
  }

  lemma NoEdits()
    ensures OldOf([]) == [] && NewOf([]) == [] && BodyLines([]) == []
  {
  }

  /** One printed line of a body, applied where the base has the line it needs. */
  lemma EditApplies(base: seq<string>, e: Edit, rest: seq<string>, src: nat)
    requires !LooksLikeFileHeader(e) && src <= |base| && (!e.Add? ==> src < |base| && base[src] == e.text)
    ensures ApplyHunk(base, [EditLine(e)] + rest, src)
         == Prepend(if e.Del? then [] else [e.text], ApplyHunk(base, rest, if e.Add? then src else src + 1))
  {
    hide HeaderStart, IsFileHeader, HasPrefix, ApplyLines, Prepend, EditLine;
    EditLineIsBody(e);
    var lines := [EditLine(e)] + rest;
    assert lines[0] == EditLine(e) && lines[1..] == rest;
    PrependNothing(ApplyHunk(base, rest, if e.Add? then src else src + 1));
  }

  lemma BodyStep(body: seq<Edit>, base: seq<string>, src: nat, k: nat)
    requires body != [] && k == src + (if body[0].Add? then 0 else 1)
    requires src + |OldOf(body)| <= |base| && base[src..src + |OldOf(body)|] == OldOf(body)
    ensures !body[0].Add? ==> src < |base| && base[src] == body[0].text
    ensures k + |OldOf(body[1..])| == src + |OldOf(body)| && base[k..k + |OldOf(body[1..])|] == OldOf(body[1..])
    ensures NewOf(body) == (if body[0].Del? then [] else [body[0].text]) + NewOf(body[1..])
    ensures BodyLines(body) == [EditLine(body[0])] + BodyLines(body[1..])
  {
    hide EditLine, OldOf, NewOf, BodyLines;
    FirstEdit(body);
    SliceParts(base, src, if body[0].Add? then [] else [body[0].text], OldOf(body[1..]));
  }

  lemma FirstEdit(body: seq<Edit>)
    requires body != []
    ensures OldOf(body) == (if body[0].Add? then [] else [body[0].text]) + OldOf(body[1..])
    ensures NewOf(body) == (if body[0].Del? then [] else [body[0].text]) + NewOf(body[1..])
    ensures BodyLines(body) == [EditLine(body[0])] + BodyLines(body[1..])
  {
  }

  lemma SliceParts<T>(base: seq<T>, src: nat, first: seq<T>, rest: seq<T>)
    requires src + |first + rest| <= |base| && base[src..src + |first + rest|] == first + rest
    ensures base[src + |first|..src + |first| + |rest|] == rest && (first != [] ==> base[src] == first[0])
  {
    var o := first + rest;
    assert base[src + |first|..src + |o|] == base[src..src + |o|][|first|..];
    assert first != [] ==> base[src] == base[src..src + |o|][0];
  }

  lemma {:induction false} BodyApplies(base: seq<string>, body: seq<Edit>, more: seq<string>, src: nat)
    requires forall e :: e in body ==> !LooksLikeFileHeader(e)
    requires src + |OldOf(body)| <= |base| && base[src..src + |OldOf(body)|] == OldOf(body)
    ensures ApplyHunk(base, BodyLines(body) + more, src)
         == Prepend(NewOf(body), ApplyHunk(base, more, src + |OldOf(body)|))
  {
    hide ApplyHunk, Prepend, EditLine, LooksLikeFileHeader;
    if body == [] {
      assert BodyLines(body) + more == more;
      PrependNothing(ApplyHunk(base, more, src));
    } else {
      hide OldOf, NewOf, BodyLines;
      var e, b := body[0], body[1..];
      assert e in body && forall x :: x in b ==> x in body;
      var k := if e.Add? then src else src + 1;
      BodyStep(body, base, src, k);
      BodyApplies(base, b, more, k);
      EditApplies(base, e, BodyLines(b) + more, src);
      assert [EditLine(e)] + BodyLines(b) + more == [EditLine(e)] + (BodyLines(b) + more);
      PrependTwice(if e.Del? then [] else [e.text], NewOf(b), ApplyHunk(base, more, src + |OldOf(body)|));
    }
  }

  lemma HunkEnds(base: seq<string>, s: Script, oldPos: nat, newPos: nat, src: nat)
    requires src <= |base|
    ensures ApplyHunk(base, PatchOf(s, oldPos, newPos), src) == ApplyLines(base, PatchOf(s, oldPos, newPos), src)
  {
    hide HeaderLine, HeaderStart, ApplyLines, BodyLines, HasPrefix;
    if s.Cut? {
      var o, n := |OldOf(s.body)|, |NewOf(s.body)|;
      HeaderReadsBack(RangeStart(oldPos + |s.gap|, o), o, RangeStart(newPos + |s.gap|, n), n, s.style);
    }
  }

  /** What a printed header makes the applier do. */
  lemma {:induction false} HunkStarts(base: seq<string>, s: Script, oldPos: nat, newPos: nat, src: nat)
    requires s.Cut? && src <= |base|
    ensures var o, n := |OldOf(s.body)|, |NewOf(s.body)|;
      var start := RangeStart(oldPos + |s.gap|, o);
      ApplyLines(base, PatchOf(s, oldPos, newPos), src)
      == if start > MAX_INT || start < 1 then Err(InvalidOldStart)
         else if start - 1 < src || start - 1 > |base| then Err(InvalidPosition)
         else Prepend(base[src..start - 1],
                      ApplyHunk(base, BodyLines(s.body)
                        + PatchOf(s.rest, oldPos + |s.gap| + o, newPos + |s.gap| + n), start - 1))
  {
    hide HeaderLine, HeaderStart, IsFileHeader, ApplyHunk, BodyLines, OldOf, NewOf, Print, Value, RangeStart;
    var o, n := |OldOf(s.body)|, |NewOf(s.body)|;
    var start := RangeStart(oldPos + |s.gap|, o);
    HeaderReadsBack(start, o, RangeStart(newPos + |s.gap|, n), n, s.style);
    var header := HeaderLine(start, o, RangeStart(newPos + |s.gap|, n), n, s.style);
    var more := PatchOf(s.rest, oldPos + |s.gap| + o, newPos + |s.gap| + n);
    var lines := PatchOf(s, oldPos, newPos);
    assert lines == [header] + (BodyLines(s.body) + more);
    assert lines[0] == header && lines[1..] == BodyLines(s.body) + more;
  }

  /** Outside hunks, printed body lines are skipped. */
  lemma {:induction false} LinesAreSkipped(base: seq<string>, body: seq<Edit>, more: seq<string>, src: nat)
    requires src <= |base|
    ensures ApplyLines(base, BodyLines(body) + more, src) == ApplyLines(base, more, src)
  {
    hide HeaderStart, IsFileHeader, EditLine;
    if body == [] {
      assert BodyLines(body) + more == more;
    } else {
      var lines := BodyLines(body) + more;
      assert lines[0] == EditLine(body[0]) && lines[1..] == BodyLines(body[1..]) + more;
      EditLineIsNoHeader(body[0]);
      LinesAreSkipped(base, body[1..], more, src);
    }
  }

  /** A body is applied up to its first line that reads as a file header; the rest of it is passed over. */
  lemma WholeBodyApplies(base: seq<string>, body: seq<Edit>, s: Script, oldPos: nat, newPos: nat, src: nat)
    requires src + |OldOf(body)| <= |base| && base[src..src + |OldOf(body)|] == OldOf(body)
    ensures var c := Carried(body);
      && |OldOf(c)| <= |OldOf(body)|
      && ApplyHunk(base, BodyLines(body) + PatchOf(s, oldPos, newPos), src)
        == Prepend(NewOf(c), ApplyLines(base, PatchOf(s, oldPos, newPos), src + |OldOf(c)|))
  {
    hide ApplyHunk, ApplyLines, BodyLines, OldOf, NewOf, PatchOf, LooksLikeFileHeader, Prepend;
    BodySplits(body);
    var c, d, more := Carried(body), Dropped(body), PatchOf(s, oldPos, newPos);
    SliceParts(base, src, OldOf(c), OldOf(d));
    assert base[src..src + |OldOf(body)|][..|OldOf(c)|] == base[src..src + |OldOf(c)|];
    BodyApplies(base, c, BodyLines(d) + more, src);
    assert BodyLines(body) + more == BodyLines(c) + (BodyLines(d) + more);
    DroppedEnds(base, d, s, oldPos, newPos, src + |OldOf(c)|);
  }

  /** The dropped part of a body ends its hunk. */
  lemma DroppedEnds(base: seq<string>, d: seq<Edit>, s: Script, oldPos: nat, newPos: nat, src: nat)
    requires src <= |base| && (d == [] || LooksLikeFileHeader(d[0]))
    ensures ApplyHunk(base, BodyLines(d) + PatchOf(s, oldPos, newPos), src)
      == ApplyLines(base, PatchOf(s, oldPos, newPos), src)
  {
    hide ApplyLines, PatchOf, LooksLikeFileHeader, HeaderStart, IsFileHeader, HasPrefix, EditLine;
    var more := PatchOf(s, oldPos, newPos);
    if d == [] {
      assert BodyLines(d) + more == more;
      HunkEnds(base, s, oldPos, newPos, src);
    } else {
      LookalikePrefixes(d[0]);
      assert (BodyLines(d) + more)[0] == EditLine(d[0]);
      LinesAreSkipped(base, d, more, src);
    }
  }

  /** One printed hunk: the lines up to its target are copied, then the carried part of its body is applied. */
  lemma HunkApplies(base: seq<string>, s: Script, oldPos: nat, newPos: nat, src: nat, target: nat)
    requires s.Cut? && src <= target <= |base| < MAX_INT
    requires target == oldPos + |s.gap| - (if OldOf(s.body) == [] then 1 else 0)
    requires target + |OldOf(s.body)| <= |base| && base[target..target + |OldOf(s.body)|] == OldOf(s.body)
    ensures var o, n, c := |OldOf(s.body)|, |NewOf(s.body)|, Carried(s.body);
      && |OldOf(c)| <= o
      && ApplyLines(base, PatchOf(s, oldPos, newPos), src)
        == Prepend(base[src..target] + NewOf(c),
                   ApplyLines(base, PatchOf(s.rest, oldPos + |s.gap| + o, newPos + |s.gap| + n), target + |OldOf(c)|))
  {
    hide PatchOf, ApplyHunk, ApplyLines, Prepend, BodyLines, OldOf, NewOf, Carried;
    var o, n, c := |OldOf(s.body)|, |NewOf(s.body)|, Carried(s.body);
    var more := PatchOf(s.rest, oldPos + |s.gap| + o, newPos + |s.gap| + n);
    HunkStarts(base, s, oldPos, newPos, src);
    WholeBodyApplies(base, s.body, s.rest, oldPos + |s.gap| + o, newPos + |s.gap| + n, target);
    PrependTwice(base[src..target], NewOf(c), ApplyLines(base, more, target + |OldOf(c)|));
  }

  /** Where a hunk's body is applied, given the lines before the hunk. */
  function Target(pos: nat, s: Script): nat
    requires s.Cut? && (OldOf(s.body) != [] || pos + |s.gap| > 0)
  {
    if OldOf(s.body) == [] then pos + |s.gap| - 1 else pos + |s.gap|
  }

  lemma FirstCut(s: Script)
    requires s.Cut?
    ensures Old(s) == s.gap + OldOf(s.body) + Old(s.rest)
    ensures New(s) == s.gap + NewOf(s.body) + New(s.rest)
  {
  }

  /** The old lines around a hunk, cut where the applier cuts them. */
  lemma CutPieces(pre: seq<string>, gap: seq<string>, o: seq<string>, tail: seq<string>, src: nat, carried: nat)
    requires src <= |pre| && carried <= |o| && (o == [] ==> src < |pre| + |gap|)
    ensures var h, base, p := pre[src..] + gap, pre + (gap + o + tail), pre + gap + o;
      var target := if o == [] then |pre| + |gap| - 1 else |pre| + |gap|;
      && base == p + tail
      && src <= target && target + |o| <= |p| && base[target..target + |o|] == o
      && base[src..target] == (if o == [] then h[..|h| - 1] else h)
      && p[target + carried..] == if o == [] then [h[|h| - 1]] else o[carried..]
  {
  }

  /** A script that begins with a hunk is applied hunk by hunk. */
  lemma HunkThenRest(pre: seq<string>, s: Script, newPos: nat, src: nat, p: seq<string>, at: nat)
    requires s.Cut? && src <= |pre| && |pre| + |Old(s)| < MAX_INT && (OldOf(s.body) != [] || src < |pre| + |s.gap|)
    requires p == pre + s.gap + OldOf(s.body) && at == Target(|pre|, s) + |OldOf(Carried(s.body))| <= |p|
    ensures var h, c := pre[src..] + s.gap, Carried(s.body);
      ApplyLines(pre + Old(s), PatchOf(s, |pre|, newPos), src)
      == Prepend((if OldOf(s.body) == [] then h[..|h| - 1] else h) + NewOf(c),
                 ApplyLines(p + Old(s.rest), PatchOf(s.rest, |p|, newPos + |s.gap| + |NewOf(s.body)|), at))
  {
    hide ApplyLines, PatchOf, OldOf, NewOf, Old, Carried, Dropped, Prepend, BodyLines, LooksLikeFileHeader;
    var c, o, h := Carried(s.body), OldOf(s.body), pre[src..] + s.gap;
    var base, target := pre + Old(s), Target(|pre|, s);
    FirstCut(s);
    BodySplits(s.body);
    CutPieces(pre, s.gap, o, Old(s.rest), src, |OldOf(c)|);
    assert target + |o| <= |p| <= |base|;
    HunkApplies(base, s, |pre|, newPos, src, target);
    assert |p| == |pre| + |s.gap| + |o|;
  }

  /** What is held after a hunk: its last line before an insertion, or the old lines of its dropped part. */
  lemma HunkLeaves(pre: seq<string>, s: Script, src: nat)
    requires s.Cut? && src <= |pre| && (OldOf(s.body) != [] || src < |pre| + |s.gap|)
    ensures var h, p := pre[src..] + s.gap, pre + s.gap + OldOf(s.body);
      var at := Target(|pre|, s) + |OldOf(Carried(s.body))|;
      && pre + Old(s) == p + Old(s.rest) && at <= |p|
      && p[at..] == (if OldOf(s.body) == [] then [h[|h| - 1]] else OldOf(Dropped(s.body)))
  {
    hide OldOf, NewOf, Old, Carried, Dropped;
    var o := OldOf(s.body);
    FirstCut(s);
    BodySplits(s.body);
    assert o[|OldOf(Carried(s.body))|..] == OldOf(Dropped(s.body));
    CutPieces(pre, s.gap, o, Old(s.rest), src, |OldOf(Carried(s.body))|);
  }

  /**
    What the applier makes of any printed script: the lines `Applied` says, or an error if it says
    none.  `pre` are the old lines before the script, of which those from `src` on are still held.
   */
  lemma {:induction false} ScriptApplies(pre: seq<string>, s: Script, newPos: nat, src: nat)
    requires src <= |pre| && |pre| + |Old(s)| < MAX_INT
    ensures var r := ApplyLines(pre + Old(s), PatchOf(s, |pre|, newPos), src);
      match Applied(pre[src..], s) case Some(lines) => r == Ok(lines) case None => r.Err?
    decreases s
  {
    hide ApplyLines, PatchOf, OldOf, NewOf, Old, Carried, Dropped;
    match s
    case Tail(lines) => TailApplies(pre, lines, newPos, src);
    case Cut(gap, body, rest, _) =>
      if OldOf(body) == [] && src == |pre| + |gap| {
        HunkStarts(pre + Old(s), s, |pre|, newPos, src);
        assert pre[src..] + gap == [];
      } else {
        var p, at := pre + gap + OldOf(body), Target(|pre|, s) + |OldOf(Carried(body))|;
        HunkLeaves(pre, s, src);
        HunkThenRest(pre, s, newPos, src, p, at);
        assert |p + Old(rest)| == |pre + Old(s)|;
        ScriptApplies(p, rest, newPos + |gap| + |NewOf(body)|, at);
      }
  }

  lemma TailApplies(pre: seq<string>, lines: seq<string>, newPos: nat, src: nat)
    requires src <= |pre|
    ensures ApplyLines(pre + Old(Tail(lines)), PatchOf(Tail(lines), |pre|, newPos), src) == Ok(pre[src..] + lines)
  {
    assert (pre + lines)[src..] == pre[src..] + lines;
  }
}
