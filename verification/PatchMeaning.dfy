/**
  When the applier does what a printed edit script says: for lists of lines, and for texts.
 */
module PatchMeaning {
  import opened Decimal
  import opened EditScripts
  import opened Lines
  import opened Sequences
  import opened UnifiedPatch
  import opened Wrappers

  predicate AreCopies(lines: seq<string>, l: string) {
    forall x :: x in lines ==> x == l
  }

  /**
    Hunk by hunk: the dropped part of a body leaves the lines it should have left, and a hunk without
    old lines, which is applied one line early, follows some line and inserts only copies of it.
    `held` are the old lines passed over before the script.
   */
  predicate IsFaithful(held: seq<string>, s: Script)
    decreases s
  {
    match s
    case Tail(_) => true
    case Cut(gap, body, rest, _) =>
      var h := held + gap;
      && OldOf(Dropped(body)) == NewOf(Dropped(body))
      && (if OldOf(body) != [] then IsFaithful(OldOf(Dropped(body)), rest)
          else h != [] && AreCopies(NewOf(body), h[|h| - 1]) && IsFaithful([h[|h| - 1]], rest))
  }

  /** How many more lines the dropped parts remove than they add. */
  function Excess(s: Script): int {
    match s
    case Tail(_) => 0
    case Cut(_, body, rest, _) => |OldOf(Dropped(body))| - |NewOf(Dropped(body))| + Excess(rest)
  }

  /** Every dropped part removes as many lines as it adds; so does a script of which nothing is dropped. */
  predicate IsBalanced(s: Script) {
    s.Cut? ==> |OldOf(Dropped(s.body))| == |NewOf(Dropped(s.body))| && IsBalanced(s.rest)
  }

  /** No changed line reads as a file header. */
  predicate IsPlain(s: Script) {
    s.Cut? ==> (forall e :: e in s.body ==> !LooksLikeFileHeader(e)) && IsPlain(s.rest)
  }

  lemma {:induction false} PlainIsBalanced(s: Script)
    requires IsPlain(s)
    ensures IsBalanced(s)
    decreases s
  {
    if s.Cut? {
      NothingDropped(s.body);
      PlainIsBalanced(s.rest);
    }
  }

  lemma {:induction false} NothingDropped(body: seq<Edit>)
    requires forall e :: e in body ==> !LooksLikeFileHeader(e)
    ensures Dropped(body) == [] && Carried(body) == body
  {
    hide LooksLikeFileHeader;
    if body != [] {
      NothingDropped(body[1..]);
    }
  }

  lemma {:induction false} FaithfulIsBalanced(held: seq<string>, s: Script)
    requires IsFaithful(held, s)
    ensures IsBalanced(s)
    decreases s
  {
    if s.Cut? {
      var h := held + s.gap;
      FaithfulIsBalanced(if OldOf(s.body) != [] then OldOf(Dropped(s.body)) else [h[|h| - 1]], s.rest);
    }
  }

  /** What is dropped shows in the number of lines. */
  lemma {:induction false} AppliedLength(held: seq<string>, s: Script)
    ensures Applied(held, s).Some? ==> |Applied(held, s).value| == |held| + |New(s)| + Excess(s)
    decreases s
  {
    hide OldOf, NewOf, Carried, Dropped;
    if s.Cut? {
      var h := held + s.gap;
      BodySplits(s.body);
      if OldOf(s.body) != [] {
        AppliedLength(OldOf(Dropped(s.body)), s.rest);
      } else if h != [] {
        AppliedLength([h[|h| - 1]], s.rest);
      }
    }
  }

  /** A hunk with old lines: what is held must be right, and so must what its dropped part leaves. */
  lemma ReplacementIff(held: seq<string>, want: seq<string>, gap: seq<string>, c: seq<string>, x: seq<string>,
      y: seq<string>)
    requires |held| == |want|
    ensures held + gap + c + x == want + (gap + (c + y)) <==> held == want && x == y
  {
    assert want + (gap + (c + y)) == want + (gap + c + y) && held + gap + c + x == held + (gap + c + x);
    SameEnds(held, want, gap + c + x, gap + c + y);
    SameEnds(gap + c, gap + c, x, y);
  }

  /** A hunk without old lines: it must insert copies of the line it is put in front of. */
  lemma InsertionIff(h: seq<string>, w: seq<string>, n: seq<string>, r: seq<string>, y: seq<string>)
    requires |h| == |w| && h != [] && |r| == |y| + 1
    ensures var g, x := h[..|h| - 1], w[|w| - 1];
      g + n + r == w + (n + y) <==> g == w[..|w| - 1] && AreCopies(n, x) && r == [x] + y
  {
    var g, g', x := h[..|h| - 1], w[..|w| - 1], w[|w| - 1];
    assert w == g' + [x] && r == [r[0]] + r[1..];
    assert g + n + r == g + (n + r) && w + (n + y) == g' + ([x] + (n + y));
    SameEnds(g, g', n + r, [x] + (n + y));
    assert n + r == (n + [r[0]]) + r[1..] && [x] + (n + y) == ([x] + n) + y;
    SameEnds(n + [r[0]], [x] + n, r[1..], y);
    RotationIsConstant(n, x, r[0]);
  }

  lemma LastOfConcat(held: seq<string>, want: seq<string>, gap: seq<string>)
    requires |held| == |want| && held + gap != []
    ensures var h, w := held + gap, want + gap;
      held == want <==> h[..|h| - 1] == w[..|w| - 1] && h[|h| - 1] == w[|w| - 1]
  {
    var h, w := held + gap, want + gap;
    assert h == h[..|h| - 1] + [h[|h| - 1]] && w == w[..|w| - 1] + [w[|w| - 1]];
    SameEnds(held, want, gap, gap);
  }

  /** The applier produces the wanted lines exactly when what is held is wanted and every hunk is faithful. */
  lemma {:induction false} FaithfulIff(held: seq<string>, want: seq<string>, s: Script)
    requires IsBalanced(s) && |held| == |want|
    ensures Applied(held, s) == Some(want + New(s)) <==> held == want && IsFaithful(held, s)
    decreases s
  {
    hide OldOf, NewOf, Carried, Dropped, LooksLikeFileHeader;
    match s
    case Tail(lines) => SameEnds(held, want, lines, lines);
    case Cut(gap, body, rest, _) =>
      var o, d := OldOf(Dropped(body)), NewOf(Dropped(body));
      BodySplits(body);
      if OldOf(body) != [] {
        FaithfulIff(o, d, rest);
        ReplacementStep(held, want, s);
      } else if held + gap != [] {
        var l, x := (held + gap)[|held + gap| - 1], (want + gap)[|held + gap| - 1];
        FaithfulIff([l], [x], rest);
        AppliedLength([l], rest);
        BalancedHasNoExcess(rest);
        InsertionStep(held, want, s);
        LastOfConcat(held, want, gap);
      }
  }

  lemma ReplacementStep(held: seq<string>, want: seq<string>, s: Script)
    requires s.Cut? && OldOf(s.body) != [] && |held| == |want|
    ensures var r := Applied(OldOf(Dropped(s.body)), s.rest);
      Applied(held, s) == Some(want + New(s)) <==> held == want && r == Some(NewOf(Dropped(s.body)) + New(s.rest))
  {
    hide OldOf, NewOf, Carried, Dropped, LooksLikeFileHeader;
    var r, c := Applied(OldOf(Dropped(s.body)), s.rest), NewOf(Carried(s.body));
    var y := NewOf(Dropped(s.body)) + New(s.rest);
    BodySplits(s.body);
    assert New(s) == s.gap + (c + y) by {
      Reassociate(s.gap, c, y);
      Reassociate(c, NewOf(Dropped(s.body)), New(s.rest));
    }
    if r.Some? {
      ReplacementIff(held, want, s.gap, c, r.value, y);
    }
  }

  lemma InsertionStep(held: seq<string>, want: seq<string>, s: Script)
    requires s.Cut? && OldOf(s.body) == [] && |held| == |want| && held + s.gap != []
    requires |OldOf(Dropped(s.body))| == |NewOf(Dropped(s.body))|
    requires var h := held + s.gap;
      Applied([h[|h| - 1]], s.rest).Some? ==> |Applied([h[|h| - 1]], s.rest).value| == |New(s.rest)| + 1
    ensures var h, w := held + s.gap, want + s.gap;
      var l, x, r := h[|h| - 1], w[|w| - 1], Applied([h[|h| - 1]], s.rest);
      Applied(held, s) == Some(want + New(s))
      <==> h[..|h| - 1] == w[..|w| - 1] && AreCopies(NewOf(s.body), x) && r == Some([x] + New(s.rest))
  {
    hide OldOf, NewOf, Carried, Dropped, LooksLikeFileHeader;
    var h, w, n := held + s.gap, want + s.gap, NewOf(s.body);
    var r := Applied([h[|h| - 1]], s.rest);
    BodySplits(s.body);
    assert NewOf(Carried(s.body)) == n;
    assert want + New(s) == w + (n + New(s.rest));
    if r.Some? {
      InsertionIff(h, w, n, r.value, New(s.rest));
    }
  }

  lemma {:induction false} BalancedHasNoExcess(s: Script)
    requires IsBalanced(s)
    ensures Excess(s) == 0
    decreases s
  {
    if s.Cut? {
      BalancedHasNoExcess(s.rest);
    }
  }

  /**
    Applying the printed patch to the old lines gives the new lines if every hunk is faithful; and only
    if, unless lines lost by one dropped part are made up for by another.
   */
  lemma {:induction false} PatchAppliesIff(s: Script)
    requires |Old(s)| < MAX_INT
    ensures IsFaithful([], s) ==> ApplyLines(Old(s), PatchOf(s, 0, 0), 0) == Ok(New(s))
    ensures IsBalanced(s) || Excess(s) != 0 ==>
      (ApplyLines(Old(s), PatchOf(s, 0, 0), 0) == Ok(New(s)) <==> IsFaithful([], s))
  {
    hide ApplyLines, PatchOf, Old, New, IsFaithful, Applied;
    AppliedFromStart(s);
    FaithfulOrUnbalanced(s);
  }

  lemma {:induction false} AppliedFromStart(s: Script)
    requires |Old(s)| < MAX_INT
    ensures var r := ApplyLines(Old(s), PatchOf(s, 0, 0), 0);
      match Applied([], s) case Some(lines) => r == Ok(lines) case None => r.Err?
  {
    hide ApplyLines, PatchOf, Old, New, Applied;
    ScriptApplies([], s, 0, 0);
    assert [] + Old(s) == Old(s);
    var none: seq<string> := [];
    assert none[0..] == none;
  }

  lemma FaithfulOrUnbalanced(s: Script)
    ensures IsFaithful([], s) ==> Applied([], s) == Some(New(s)) && IsBalanced(s)
    ensures IsBalanced(s) ==> (Applied([], s) == Some(New(s)) <==> IsFaithful([], s))
    ensures Excess(s) != 0 ==> Applied([], s) != Some(New(s))
  {
    hide New, Applied, IsFaithful;
    if IsFaithful([], s) {
      FaithfulIsBalanced([], s);
    }
    if IsBalanced(s) {
      FaithfulIff([], [], s);
      assert [] + New(s) == New(s);
    }
    AppliedLength([], s);
  }

  /** A patch of one hunk does what it says exactly when the hunk is faithful. */
  lemma SingleHunkIff(gap: seq<string>, body: seq<Edit>, lines: seq<string>, style: Style)
    requires |gap + OldOf(body) + lines| < MAX_INT
    ensures var s, d := Cut(gap, body, Tail(lines), style), Dropped(body);
      ApplyLines(Old(s), PatchOf(s, 0, 0), 0) == Ok(New(s))
      <==> OldOf(d) == NewOf(d) && (OldOf(body) != [] || (gap != [] && AreCopies(NewOf(body), gap[|gap| - 1])))
  {
    hide ApplyLines, PatchOf, New, IsFaithful;
    var s := Cut(gap, body, Tail(lines), style);
    assert IsBalanced(s) || Excess(s) != 0;
    FaithfulHunk(gap, body, lines, style);
    PatchAppliesIff(s);
  }

  lemma FaithfulHunk(gap: seq<string>, body: seq<Edit>, lines: seq<string>, style: Style)
    ensures IsFaithful([], Cut(gap, body, Tail(lines), style)) <==> (
      && OldOf(Dropped(body)) == NewOf(Dropped(body))
      && (OldOf(body) != [] || (gap != [] && AreCopies(NewOf(body), gap[|gap| - 1]))))
  {
    hide OldOf, NewOf, Dropped;
    assert [] + gap == gap;
    if OldOf(body) != [] {
      assert IsFaithful(OldOf(Dropped(body)), Tail(lines));
    } else if gap != [] {
      assert IsFaithful([gap[|gap| - 1]], Tail(lines));
    }
  }

  /** Hunks with old lines and without lookalikes are faithful, however close together they are. */
  lemma {:induction false} PlainHunksAreFaithful(held: seq<string>, s: Script)
    requires IsPlain(s) && HaveOldLines(s)
    ensures IsFaithful(held, s)
    decreases s
  {
    if s.Cut? {
      NothingDropped(s.body);
      PlainHunksAreFaithful([], s.rest);
    }
  }

  predicate HaveOldLines(s: Script) {
    s.Cut? ==> OldOf(s.body) != [] && HaveOldLines(s.rest)
  }

  // ---------------------------------------------------------------------------------------------
  // The same on texts.

  predicate CleanLine(l: string) {
    '\n' !in l && (l == "" || l[|l| - 1] != '\r')
  }

  predicate CleanLines(lines: seq<string>) {
    forall l :: l in lines ==> CleanLine(l)
  }

  predicate NoCrLf(s: string) {
    forall i :: 0 <= i < |s| - 1 ==> !(s[i] == '\r' && s[i + 1] == '\n')
  }

  /** File headers and other lines before the first hunk: nothing that reads as a hunk header. */
  predicate IsPreamble(lines: seq<string>) {
    CleanLines(lines) && forall l :: l in lines ==> HeaderStart(l).None?
  }

  /** A patch as a text, with the lines that come before its hunks. */
  function PatchText(preamble: seq<string>, s: Script): string {
    Join(preamble + PatchOf(s, 0, 0) + [""])
  }

  /** The applier passes over the preamble. */
  lemma {:induction false} PreambleIsSkipped(base: seq<string>, preamble: seq<string>, lines: seq<string>, src: nat)
    requires src <= |base| && forall l :: l in preamble ==> HeaderStart(l).None?
    ensures ApplyLines(base, preamble + lines, src) == ApplyLines(base, lines, src)
  {
    hide HeaderStart, IsFileHeader, ApplyHunk;
    if preamble == [] {
      assert preamble + lines == lines;
    } else {
      assert preamble[0] in preamble && forall l :: l in preamble[1..] ==> l in preamble;
      PreambleIsSkipped(base, preamble[1..], lines, src);
      assert (preamble + lines)[1..] == preamble[1..] + lines;
    }
  }

  lemma {:induction false} NormalizeIsIdentity(s: string)
    requires NoCrLf(s)
    ensures NormalizeNewlines(s) == s
  {
    if s != [] {
      assert NoCrLf(s[1..]) by {
        forall i | 0 <= i < |s[1..]| - 1
          ensures !(s[1..][i] == '\r' && s[1..][i + 1] == '\n')
        {
          assert !(s[i + 1] == '\r' && s[i + 2] == '\n');
        }
      }
      NormalizeIsIdentity(s[1..]);
      assert |s| >= 2 ==> !(s[0] == '\r' && s[0 + 1] == '\n');
    }
  }

  lemma {:induction false} JoinHasNoCrLf(lines: seq<string>)
    requires CleanLines(lines)
    ensures NoCrLf(Join(lines))
  {
    if lines != [] {
      assert lines[0] in lines && forall l :: l in lines[1..] ==> l in lines;
      JoinHasNoCrLf(lines[1..]);
      var l, r := lines[0], Join(lines[1..]);
      if |lines| > 1 {
        var s := l + "\n" + r;
        forall i | 0 <= i < |s| - 1
          ensures !(s[i] == '\r' && s[i + 1] == '\n')
        {
          if i < |l| {
            assert s[i] == l[i];
            assert i + 1 < |l| ==> s[i + 1] == l[i + 1] && l[i + 1] in l;
          } else if i > |l| {
            assert s[i] == r[i - |l| - 1] && s[i + 1] == r[i - |l|];
          }
        }
      } else {
        forall i | 0 <= i < |l| - 1
          ensures !(l[i] == '\r' && l[i + 1] == '\n')
        {
          assert l[i + 1] in l;
        }
      }
    }
  }

  lemma {:induction false} PrintIsClean(n: nat)
    ensures CleanLine(Print(n)) && forall c :: c in Print(n) ==> c != '\r'
  {
    ValueOfPrint(n);
  }

  /** The texts after the headers are parts of lines. */
  predicate HasCleanSections(s: Script) {
    s.Cut? ==> CleanLine(s.style.section) && HasCleanSections(s.rest)
  }

  lemma HeaderIsClean(a: nat, b: nat, c: nat, d: nat, style: Style)
    requires CleanLine(style.section)
    ensures CleanLine(HeaderLine(a, b, c, d, style))
  {
    PrintIsClean(a);
    PrintIsClean(b);
    PrintIsClean(c);
    PrintIsClean(d);
  }

  lemma {:induction false} BodyIsClean(body: seq<Edit>)
    requires CleanLines(OldOf(body)) && CleanLines(NewOf(body))
    ensures CleanLines(BodyLines(body))
  {
    if body != [] {
      var o, n := OldOf(body), NewOf(body);
      assert body[0].Add? || o[0] == body[0].text;
      assert body[0].Del? || n[0] == body[0].text;
      assert body[0].text in o || body[0].text in n;
      assert forall l :: l in OldOf(body[1..]) ==> l in o;
      assert forall l :: l in NewOf(body[1..]) ==> l in n;
      BodyIsClean(body[1..]);
    }
  }

  lemma {:induction false} PatchIsClean(s: Script, oldPos: nat, newPos: nat)
    requires CleanLines(Old(s)) && CleanLines(New(s)) && HasCleanSections(s)
    ensures CleanLines(PatchOf(s, oldPos, newPos))
    decreases s
  {
    hide HeaderLine, CleanLine, OldOf, NewOf, BodyLines, RangeStart;
    if s.Cut? {
      var o, n := |OldOf(s.body)|, |NewOf(s.body)|;
      assert forall l :: l in OldOf(s.body) || l in Old(s.rest) ==> l in Old(s);
      assert forall l :: l in NewOf(s.body) || l in New(s.rest) ==> l in New(s);
      BodyIsClean(s.body);
      PatchIsClean(s.rest, oldPos + |s.gap| + o, newPos + |s.gap| + n);
      HeaderIsClean(RangeStart(oldPos + |s.gap|, o), o, RangeStart(newPos + |s.gap|, n), n, s.style);
    }
  }

  lemma PatchTextReadsBack(preamble: seq<string>, s: Script)
    requires IsPreamble(preamble) && CleanLines(Old(s)) && CleanLines(New(s)) && HasCleanSections(s)
    ensures PatchLines(PatchText(preamble, s)) == preamble + PatchOf(s, 0, 0)
  {
    hide PatchOf, Join, Split, NormalizeNewlines;
    PatchIsClean(s, 0, 0);
    var lines := preamble + PatchOf(s, 0, 0) + [""];
    JoinHasNoCrLf(lines);
    NormalizeIsIdentity(Join(lines));
    SplitJoin(lines);
  }

  lemma {:induction false} AppliedLines(held: seq<string>, s: Script)
    ensures Applied(held, s).Some? ==>
      forall l :: l in Applied(held, s).value ==> l in held || l in Old(s) || l in New(s)
    ensures Applied(held, s).Some? ==> forall l :: l in held ==> l in Applied(held, s).value
    decreases s
  {
    hide OldOf, NewOf, Carried, Dropped, LooksLikeFileHeader;
    if s.Cut? {
      var h := held + s.gap;
      BodySplits(s.body);
      if OldOf(s.body) != [] {
        AppliedLines(OldOf(Dropped(s.body)), s.rest);
      } else if h != [] {
        AppliedLines([h[|h| - 1]], s.rest);
        var rest := Applied([h[|h| - 1]], s.rest);
        if rest.Some? {
          assert h[|h| - 1] in [h[|h| - 1]] && h[|h| - 1] in rest.value;
          forall l | l in held ensures l in Applied(held, s).value {
            assert l in h && (l in h[..|h| - 1] || l == h[|h| - 1]);
          }
        }
      }
    }
  }

  lemma {:induction false} SwapBodyExchanges(body: seq<Edit>)
    ensures OldOf(SwapBody(body)) == NewOf(body) && NewOf(SwapBody(body)) == OldOf(body)
  {
    if body != [] {
      SwapBodyExchanges(body[1..]);
    }
  }

  lemma {:induction false} SwapExchanges(s: Script)
    ensures Old(Swap(s)) == New(s) && New(Swap(s)) == Old(s)
    ensures HasCleanSections(Swap(s)) == HasCleanSections(s)
    decreases s
  {
    if s.Cut? {
      SwapBodyExchanges(s.body);
      SwapExchanges(s.rest);
    }
  }

  /** Something dropped leaves a line that is not empty, in the result or in what was wanted. */
  lemma {:induction false} UnbalancedShows(held: seq<string>, s: Script) returns (l: string)
    requires !IsBalanced(s) && Applied(held, s).Some?
    ensures l != "" && (l in Applied(held, s).value || l in New(s))
    decreases s
  {
    hide OldOf, NewOf, Carried, Dropped, LooksLikeFileHeader;
    var d, h := Dropped(s.body), held + s.gap;
    BodySplits(s.body);
    if |OldOf(d)| != |NewOf(d)| {
      l := FirstDropped(d);
      if OldOf(s.body) != [] {
        AppliedLines(OldOf(d), s.rest);
      }
    } else {
      l := UnbalancedShows(if OldOf(s.body) != [] then OldOf(d) else [h[|h| - 1]], s.rest);
    }
  }

  lemma FirstDropped(d: seq<Edit>) returns (l: string)
    requires d == [] || LooksLikeFileHeader(d[0])
    requires |OldOf(d)| != |NewOf(d)|
    ensures l != "" && (l in OldOf(d) || l in NewOf(d))
  {
    l := d[0].text;
  }

  /** Joining clean lines loses nothing but the difference between no line and one empty line. */
  lemma JoinIsInjective(xs: seq<string>, ys: seq<string>)
    requires CleanLines(xs) && CleanLines(ys) && Join(xs) == Join(ys)
    ensures xs == ys || (xs == [] && ys == [""]) || (xs == [""] && ys == [])
  {
    assert Split("") == [""];
    hide Join, Split;
    NothingJoins();
    if xs != [] {
      SplitJoin(xs);
    }
    if ys != [] {
      SplitJoin(ys);
    }
  }

  lemma NothingJoins()
    ensures Join([]) == ""
  {
  }

  /** From text to text, where no line holds a line break or ends with a carriage return. */
  lemma TextPatchAppliesIff(preamble: seq<string>, s: Script)
    requires Old(s) != [] && |Old(s)| < MAX_INT && CleanLines(Old(s)) && CleanLines(New(s))
    requires IsPreamble(preamble) && HasCleanSections(s)
    ensures IsFaithful([], s) ==> ApplyText(Join(Old(s)), PatchText(preamble, s)) == Ok(Join(New(s)))
    ensures IsBalanced(s) || Excess(s) != 0 ==>
      (ApplyText(Join(Old(s)), PatchText(preamble, s)) == Ok(Join(New(s))) <==> IsFaithful([], s))
  {
    hide ApplyLines, PatchOf, Join, Split, NormalizeNewlines, PatchLines, PatchText, Applied, HeaderStart;
    hide IsFaithful, Old, New;
    PatchTextReadsBack(preamble, s);
    PreambleIsSkipped(Old(s), preamble, PatchOf(s, 0, 0), 0);
    JoinHasNoCrLf(Old(s));
    NormalizeIsIdentity(Join(Old(s)));
    SplitJoin(Old(s));
    AppliedFromStart(s);
    FaithfulOrUnbalanced(s);
    AppliedLines([], s);
    AppliedLength([], s);
    var r := Applied([], s);
    if r.Some? && Join(r.value) == Join(New(s)) && (IsBalanced(s) || Excess(s) != 0) {
      JoinIsInjective(r.value, New(s));
      if IsBalanced(s) {
        BalancedHasNoExcess(s);
      } else {
        var l := UnbalancedShows([], s);
      }
    }
  }

  /** The patch takes the old text to the new one, and the swapped patch takes it back. */
  lemma PatchRoundTrip(preamble: seq<string>, back: seq<string>, s: Script)
    requires IsFaithful([], s) && IsFaithful([], Swap(s))
    requires Old(s) != [] && New(s) != [] && |Old(s)| < MAX_INT && |New(s)| < MAX_INT
    requires CleanLines(Old(s)) && CleanLines(New(s)) && HasCleanSections(s)
    requires IsPreamble(preamble) && IsPreamble(back)
    ensures ApplyText(Join(Old(s)), PatchText(preamble, s)) == Ok(Join(New(s)))
    ensures ApplyText(Join(New(s)), PatchText(back, Swap(s))) == Ok(Join(Old(s)))
  {
    hide ApplyText, PatchText, Join, IsFaithful, CleanLines, IsPreamble;
    SwapExchanges(s);
    TextPatchAppliesIff(preamble, s);
    TextPatchAppliesIff(back, Swap(s));
  }

  // ---------------------------------------------------------------------------------------------
  // What goes wrong.

  lemma BodyOf(e: Edit, body: seq<Edit>)
    ensures OldOf([e] + body) == (if e.Add? then [] else [e.text]) + OldOf(body)
    ensures NewOf([e] + body) == (if e.Del? then [] else [e.text]) + NewOf(body)
    ensures Carried([e] + body) == if LooksLikeFileHeader(e) then [] else [e] + Carried(body)
    ensures Dropped([e] + body) == if LooksLikeFileHeader(e) then [e] + body else Dropped(body)
  {
    assert ([e] + body)[1..] == body;
  }

  lemma BodyOfOne(e: Edit)
    ensures OldOf([e]) == (if e.Add? then [] else [e.text]) && NewOf([e]) == if e.Del? then [] else [e.text]
    ensures Carried([e]) == (if LooksLikeFileHeader(e) then [] else [e])
    ensures Dropped([e]) == if LooksLikeFileHeader(e) then [e] else []
  {
    BodyOf(e, []);
    assert [e] + [] == [e];
  }

  lemma BodyOfTwo(d: Edit, e: Edit)
    ensures OldOf([d, e]) == OldOf([d]) + OldOf([e]) && NewOf([d, e]) == NewOf([d]) + NewOf([e])
    ensures Carried([d, e]) == (if LooksLikeFileHeader(d) then [] else [d] + Carried([e]))
    ensures Dropped([d, e]) == if LooksLikeFileHeader(d) then [d, e] else Dropped([e])
  {
    hide LooksLikeFileHeader, OldOf, NewOf, Carried, Dropped;
    BodyOf(d, [e]);
    BodyOfOne(d);
    assert [d] + [e] == [d, e];
  }

  lemma Lookalikes(text: string)
    ensures LooksLikeFileHeader(Del("-- " + text)) && LooksLikeFileHeader(Add("++ " + text))
    ensures !LooksLikeFileHeader(Add("-- " + text))
  {
    assert ("-- " + text)[..3] == "-- " && ("++ " + text)[..3] == "++ ";
    assert ("-- " + text)[0] == '-';
  }

  lemma AppliedTail(held: seq<string>, lines: seq<string>)
    ensures Applied(held, Tail(lines)) == Some(held + lines)
  {
  }

  lemma AppliedHunk(held: seq<string>, gap: seq<string>, body: seq<Edit>, rest: Script, style: Style)
    requires OldOf(body) != []
    ensures Applied(held, Cut(gap, body, rest, style))
      == Placed(held + gap + NewOf(Carried(body)), Applied(OldOf(Dropped(body)), rest))
  {
    hide OldOf, NewOf, Carried, Dropped;
  }

  /** A deletion of a line that begins with `-- ` prints as a file header, and is not carried out. */
  lemma DeletionIsNotCarriedOut(text: string, z: string, style: Style)
    ensures var s := Cut([], [Del("-- " + text)], Tail([z]), style);
      ApplyLines(Old(s), PatchOf(s, 0, 0), 0) == Ok(Old(s)) && Old(s) != New(s)
  {
    hide ApplyLines, PatchOf, OldOf, NewOf, Carried, Dropped, LooksLikeFileHeader;
    var e := Del("-- " + text);
    var s := Cut([], [e], Tail([z]), style);
    Lookalikes(text);
    BodyOfOne(e);
    NoEdits();
    AppliedHunk([], [], [e], Tail([z]), style);
    AppliedTail([e.text], [z]);
    assert Applied([], s).value == [e.text, z] == Old(s) && New(s) == [z];
    AppliedFromStart(s);
  }

  /** An addition of a line that begins with `++ ` is lost, although the deletion before it is carried out. */
  lemma {:induction false} AdditionIsLost(k: string, a: string, text: string, style: Style)
    requires !HasPrefix(a, "-- ")
    ensures var s := Cut([k], [Del(a), Add("++ " + text)], Tail([]), style);
      ApplyLines(Old(s), PatchOf(s, 0, 0), 0) == Ok([k]) && New(s) == [k, "++ " + text]
  {
    hide ApplyLines, PatchOf, OldOf, NewOf, Carried, Dropped;
    var d, e := Del(a), Add("++ " + text);
    var s := Cut([k], [d, e], Tail([]), style);
    Lookalikes(text);
    NotLookalikes(a, a);
    hide LooksLikeFileHeader;
    BodyOfOne(d);
    BodyOfOne(e);
    BodyOfTwo(d, e);
    assert [d] + [] == [d];
    NoEdits();
    AppliedHunk([], [k], [d, e], Tail([]), style);
    AppliedTail([], []);
    assert Applied([], s).value == [k] && New(s) == [k, e.text];
    AppliedFromStart(s);
  }

  /** Lookalikes are harmless when what they leave is what they should have left. */
  lemma LookalikeCanBeHarmless(text: string, gap: seq<string>, lines: seq<string>, style: Style)
    requires |gap| + 1 + |lines| < MAX_INT
    ensures var s := Cut(gap, [Del("-- " + text), Add("-- " + text)], Tail(lines), style);
      ApplyLines(Old(s), PatchOf(s, 0, 0), 0) == Ok(New(s))
  {
    hide ApplyLines, PatchOf, New, OldOf, NewOf, Carried, Dropped, LooksLikeFileHeader;
    var d, e := Del("-- " + text), Add("-- " + text);
    Lookalikes(text);
    BodyOfOne(d);
    BodyOfOne(e);
    BodyOfTwo(d, e);
    SingleHunkIff(gap, [d, e], lines, style);
  }

  /** The exception of `PatchAppliesIff` is real: the line the first hunk loses is left standing by the second. */
  lemma {:induction false} LossesCanCancel(a: string, z: string, style: Style)
    requires !HasPrefix(a, "-- ") && !HasPrefix(z, "++ ")
    ensures var s := Cut([], [Del(a), Add(z)] + [Add("++ b")],
                         Cut([], [Add("++ c")] + [Del("++ b"), Del("++ c")], Tail([]), style), style);
      ApplyLines(Old(s), PatchOf(s, 0, 0), 0) == Ok(New(s)) && !IsFaithful([], s)
  {
    hide ApplyLines, PatchOf, OldOf, NewOf, Carried, Dropped, LooksLikeFileHeader;
    var first, second := [Del(a), Add(z)] + [Add("++ b")], [Add("++ c")] + [Del("++ b"), Del("++ c")];
    var s := Cut([], first, Cut([], second, Tail([]), style), style);
    LossyBodies(a, z);
    AppliedTail(["++ b", "++ c"], []);
    NoEdits();
    AppliedHunk([], [], second, Tail([]), style);
    AppliedHunk([], [], first, s.rest, style);
    assert Applied([], s.rest).value == ["++ b", "++ c"] && New(s.rest) == ["++ c"];
    assert Applied([], s).value == [z, "++ b", "++ c"] == New(s);
    FirstCut(s);
    FirstCut(s.rest);
    assert Old(s.rest) == ["++ b", "++ c"];
    assert Old(s) == [a, "++ b", "++ c"];
    AppliedFromStart(s);
  }

  lemma {:induction false} LossyBodies(a: string, z: string)
    requires !HasPrefix(a, "-- ") && !HasPrefix(z, "++ ")
    ensures var first, second := [Del(a), Add(z)] + [Add("++ b")], [Add("++ c")] + [Del("++ b"), Del("++ c")];
      && OldOf(first) == [a] && NewOf(first) == [z, "++ b"]
      && NewOf(Carried(first)) == [z] && OldOf(Dropped(first)) == [] && NewOf(Dropped(first)) == ["++ b"]
      && OldOf(second) == ["++ b", "++ c"] && NewOf(second) == ["++ c"]
      && Carried(second) == [] && Dropped(second) == second
  {
    hide OldOf, NewOf, Carried, Dropped, LooksLikeFileHeader;
    var d, e, f := Del(a), Add(z), Add("++ b");
    NotLookalikes(a, z);
    Lookalikes("b");
    Lookalikes("c");
    assert "++ b" == "++ " + "b" && "++ c" == "++ " + "c";
    BodyOfOne(e);
    BodyOfOne(f);
    BodyOf(e, [f]);
    BodyOf(d, [e] + [f]);
    assert [d, e] + [f] == [d] + ([e] + [f]);
    BodyOfTwo(d, e);
    BodyOfOne(d);
    assert [d] + ([e] + []) == [d, e];
    SecondBody();
  }

  lemma SecondBody()
    ensures var second := [Add("++ c")] + [Del("++ b"), Del("++ c")];
      && OldOf(second) == ["++ b", "++ c"] && NewOf(second) == ["++ c"]
      && Carried(second) == [] && Dropped(second) == second
  {
    hide OldOf, NewOf, Carried, Dropped, LooksLikeFileHeader;
    Lookalikes("c");
    assert "++ c" == "++ " + "c";
    BodyOfOne(Del("++ b"));
    BodyOfOne(Del("++ c"));
    BodyOfTwo(Del("++ b"), Del("++ c"));
    BodyOf(Add("++ c"), [Del("++ b"), Del("++ c")]);
  }

  lemma NotLookalikes(a: string, z: string)
    ensures !HasPrefix(a, "-- ") ==> !LooksLikeFileHeader(Del(a))
    ensures !HasPrefix(z, "++ ") ==> !LooksLikeFileHeader(Add(z))
  {
  }
}
