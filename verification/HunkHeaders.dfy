/** Hunk headers, by the form of the line: `@@ -old[,count] +new[,count] @@`, and anything after it. */
module HunkHeaders {
  import opened Decimal
  import opened EditScripts
  import opened Lines
  import opened UnifiedPatch
  import opened Wrappers

  /** A comma and digits, or nothing. */
  predicate IsCount(c: string) {
    c == "" || (|c| >= 2 && c[0] == ',' && AllDigits(c[1..]))
  }

  datatype Header = Header(oldStart: string, oldCount: string, newStart: string, newCount: string, section: string)

  predicate IsHeader(h: Header) {
    && h.oldStart != "" && AllDigits(h.oldStart) && IsCount(h.oldCount)
    && h.newStart != "" && AllDigits(h.newStart) && IsCount(h.newCount)
  }

  function Text(h: Header): string {
    "@@ -" + (h.oldStart + (h.oldCount + (" +" + (h.newStart + (h.newCount + (" @@" + h.section))))))
  }

  lemma SkipsCount(c: string, rest: string)
    requires IsCount(c) && rest != "" && !IsDigit(rest[0]) && rest[0] != ','
    ensures SkipCount(c + rest) == rest
  {
    if c != "" {
      assert (c + rest)[1..] == c[1..] + rest;
      CountDigitsOf(c[1..], rest);
    } else {
      assert c + rest == rest;
    }
  }

  /** A line of this form is a header, and its old start is read from it. */
  lemma HeaderIsRead(h: Header)
    requires IsHeader(h)
    ensures HeaderStart(Text(h)) == Some(h.oldStart)
  {
    hide CountDigits, SkipCount;
    var s5 := " @@" + h.section;
    var s4 := h.newCount + s5;
    var s3 := h.newStart + s4;
    var s2 := " +" + s3;
    var s1 := h.oldStart + (h.oldCount + s2);
    var line := Text(h);
    assert line[..4] == "@@ -" && line[4..] == s1;
    CountDigitsOf(h.oldStart, h.oldCount + s2);
    assert s1[|h.oldStart|..] == h.oldCount + s2 && s1[..|h.oldStart|] == h.oldStart;
    SkipsCount(h.oldCount, s2);
    assert s2[..2] == " +" && s2[2..] == s3;
    CountDigitsOf(h.newStart, s4);
    assert s3[|h.newStart|..] == s4;
    SkipsCount(h.newCount, s5);
    assert s5[..3] == " @@";
  }

  lemma SkippedIsCount(s: string) returns (c: string)
    ensures IsCount(c) && s == c + SkipCount(s)
  {
    if s != [] && s[0] == ',' && CountDigits(s[1..]) > 0 {
      var n := CountDigits(s[1..]);
      c := s[..1 + n];
      assert c[1..] == s[1..][..n];
    } else {
      c := "";
    }
  }

  /** And every line that is read as a header has this form. */
  lemma ReadIsHeader(line: string) returns (h: Header)
    requires HeaderStart(line).Some?
    ensures IsHeader(h) && line == Text(h) && HeaderStart(line) == Some(h.oldStart)
  {
    hide SkipCount;
    var s1 := line[4..];
    var n := CountDigits(s1);
    var oldCount := SkippedIsCount(s1[n..]);
    var s2 := SkipCount(s1[n..]);
    var s3 := s2[2..];
    var m := CountDigits(s3);
    var newCount := SkippedIsCount(s3[m..]);
    var s5 := SkipCount(s3[m..]);
    h := Header(s1[..n], oldCount, s3[..m], newCount, s5[3..]);
    assert s5 == " @@" + h.section;
    assert s3 == h.newStart + (newCount + s5);
    assert s2 == " +" + s3;
    assert s1 == h.oldStart + (oldCount + s2);
  }
}
