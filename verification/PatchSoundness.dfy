/** Whatever patch is accepted, its effect is that of the hunks written in it, and of nothing else. */
module PatchSoundness {
  import opened Wrappers
  import opened Lines
  import opened UnifiedPatch
  import opened EditScripts
  import Decimal

  predicate EndsBody(line: string) {
    HeaderStart(line).Some? || IsFileHeader(line)
  }

  /** The edits written in the body that starts at line 0. */
  function ReadBody(lines: seq<string>): seq<Edit> {
    if lines == [] || EndsBody(lines[0]) then []
    else if HasPrefix(lines[0], NO_NEWLINE) || lines[0] == "" then ReadBody(lines[1..])
    else
      var text := lines[0][1..];
      [if lines[0][0] == ' ' then Keep(text) else if lines[0][0] == '-' then Del(text) else Add(text)]
        + ReadBody(lines[1..])
  }

  /** The patch lines after that body. */
  function AfterBody(lines: seq<string>): (rest: seq<string>)
    ensures |rest| <= |lines|
  {
    if lines == [] || EndsBody(lines[0]) then lines else AfterBody(lines[1..])
  }

  function HunksOf(lines: seq<string>): seq<seq<Edit>>
    decreases |lines|
  {
    if lines == [] then []
    else if IsFileHeader(lines[0]) || HeaderStart(lines[0]).None? then HunksOf(lines[1..])
    else [ReadBody(lines[1..])] + HunksOf(AfterBody(lines[1..]))
  }

  function Bodies(s: Script): seq<seq<Edit>> {
    match s
    case Tail(_) => []
    case Cut(_, body, rest, _) => [body] + Bodies(rest)
  }

  lemma {:induction false} BodySound(base: seq<string>, lines: seq<string>, src: nat)
    requires src <= |base| && ApplyHunk(base, lines, src).Ok?
    ensures var body := ReadBody(lines);
      && src + |OldOf(body)| <= |base| && base[src..src + |OldOf(body)|] == OldOf(body)
      && ApplyHunk(base, lines, src) == Prepend(NewOf(body), ApplyLines(base, AfterBody(lines), src + |OldOf(body)|))
    decreases |lines|, 1
  {
    hide HeaderStart, IsFileHeader, HasPrefix, ApplyLines;
    if lines == [] || EndsBody(lines[0]) {
      PrependNothing(ApplyLines(base, lines, src));
    } else if HasPrefix(lines[0], NO_NEWLINE) {
      BodySound(base, lines[1..], src);
    } else {
      EditSound(base, lines, src);
    }
  }

  lemma {:induction false} EditSound(base: seq<string>, lines: seq<string>, src: nat)
    requires src <= |base| && ApplyHunk(base, lines, src).Ok?
    requires lines != [] && !EndsBody(lines[0]) && !HasPrefix(lines[0], NO_NEWLINE)
    ensures var body := ReadBody(lines);
      && src + |OldOf(body)| <= |base| && base[src..src + |OldOf(body)|] == OldOf(body)
      && ApplyHunk(base, lines, src) == Prepend(NewOf(body), ApplyLines(base, AfterBody(lines), src + |OldOf(body)|))
    decreases |lines|, 0
  {
    hide HeaderStart, IsFileHeader, HasPrefix, ApplyLines;
    assert lines[0] != "";
    var op, rest := lines[0][0], lines[1..];
    var e := ReadBody(lines)[0];
    assert ReadBody(lines)[1..] == ReadBody(rest);
    var k := if op == '+' then src else src + 1;
    BodySound(base, rest, k);
    var b := ReadBody(rest);
    PrependTwice([e.text], NewOf(b), ApplyLines(base, AfterBody(lines), k + |OldOf(b)|));
    assert op == '-' ==> NewOf(ReadBody(lines)) == NewOf(b);
    assert op == '+' ==> OldOf(ReadBody(lines)) == OldOf(b);
    assert op != '+' ==> base[src..k + |OldOf(b)|] == [base[src]] + base[k..k + |OldOf(b)|];
  }

  /**
    A successful application is the application of an edit script: its hunks are the ones written in
    the patch, and every line outside them is kept, in place.
   */
  lemma {:induction false} AcceptedPatchIsItsHunks(base: seq<string>, lines: seq<string>, src: nat) returns (s: Script)
    requires src <= |base| && ApplyLines(base, lines, src).Ok?
    ensures Old(s) == base[src..] && ApplyLines(base, lines, src) == Ok(New(s)) && Bodies(s) == HunksOf(lines)
    decreases |lines|
  {
    hide HeaderStart, IsFileHeader, ApplyHunk;
    if lines == [] {
      s := Tail(base[src..]);
    } else if IsFileHeader(lines[0]) || HeaderStart(lines[0]).None? {
      s := AcceptedPatchIsItsHunks(base, lines[1..], src);
    } else {
      var target := Decimal.Value(HeaderStart(lines[0]).value) - 1;
      var body, rest := ReadBody(lines[1..]), AfterBody(lines[1..]);
      BodySound(base, lines[1..], target);
      var next := target + |OldOf(body)|;
      var tail := AcceptedPatchIsItsHunks(base, rest, next);
      s := Cut(base[src..target], body, tail, Style(true, true, ""));
      assert base[src..] == base[src..target] + base[target..next] + base[next..];
      PrependTwice(base[src..target], NewOf(body), ApplyLines(base, rest, next));
    }
  }
}
