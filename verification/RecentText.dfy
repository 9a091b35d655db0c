/** Keeping the recent part of growing text: the last lines, and the last bytes. */
module RecentText {
  import opened Lines
  import opened RecencyList
  import opened Sequences

  /** The text without one final newline. */
  function Body(s: string): string {
    if s != [] && s[|s| - 1] == '\n' then s[..|s| - 1] else s
  }

  predicate FitsLines(s: string, maxLines: nat) {
    Newlines(Body(s)) < maxLines
  }

  /** The longest suffix of at most `maxLines` lines. */
  function Recent(s: string, maxLines: nat): string {
    if s == [] || FitsLines(s, maxLines) then s else Recent(s[1..], maxLines)
  }

  lemma {:induction false} RecentIsLongestSuffix(s: string, maxLines: nat, i: nat)
    requires maxLines >= 1 && i <= |s|
    ensures |Recent(s, maxLines)| <= |s| && s[|s| - |Recent(s, maxLines)|..] == Recent(s, maxLines)
    ensures FitsLines(Recent(s, maxLines), maxLines)
    ensures FitsLines(s[i..], maxLines) ==> |s| - i <= |Recent(s, maxLines)|
  {
    if s != [] && !FitsLines(s, maxLines) {
      RecentIsLongestSuffix(s[1..], maxLines, if i == 0 then 0 else i - 1);
      if i > 0 {
        assert s[1..][i - 1..] == s[i..];
      } else {
        assert s[0..] == s;
      }
    }
  }

  /** The text is cut into lines and the last ones are joined again. */
  method TrimToRecentLines(text: string, maxLines: int) returns (out: string)
    ensures out == if maxLines <= 0 then text else Recent(text, maxLines)
  {
    hide Join, Split, Recent;
    if maxLines <= 0 {
      return text;
    }
    ShortIsRecent(text, maxLines);
    if text == "" {
      return text;
    }
    var hasTrailingNewline := text[|text| - 1] == '\n';
    var working := text;
    if hasTrailingNewline {
      working := working[..|working| - 1];
    }
    if working == "" {
      return text;
    }
    var lines := Split(working);
    if |lines| <= maxLines {
      return text;
    }
    LastLinesAreRecent(text, maxLines);
    out := Join(lines[|lines| - maxLines..]);
    if hasTrailingNewline {
      out := out + "\n";
    } else {
      assert out + text[|text|..] == out;
    }
  }

  /** Text that fits is not cut, and it fits when it has few enough lines. */
  lemma ShortIsRecent(text: string, maxLines: nat)
    requires maxLines >= 1
    ensures text == "" || FitsLines(text, maxLines) ==> Recent(text, maxLines) == text
    ensures FitsLines(text, maxLines) <==> |Split(Body(text))| <= maxLines
    ensures Body(text) == "" ==> FitsLines(text, maxLines)
  {
    hide Split, Join;
    JoinSplit(Body(text));
  }

  lemma {:induction false} LastLinesAreRecent(text: string, maxLines: nat)
    requires maxLines >= 1 && text != [] && !FitsLines(text, maxLines)
    ensures |Split(Body(text))| > maxLines
    ensures Recent(text, maxLines) == Join(Split(Body(text))[|Split(Body(text))| - maxLines..]) + text[|Body(text)|..]
  {
    hide Join, Split, Recent, FitsLines, Body;
    var w, t := Body(text), text[1..];
    FirstGoes(text, maxLines);
    SplitTail(w, maxLines);
    if FitsLines(t, maxLines) {
      JoinSplit(w[1..]);
      assert Split(w[1..])[0..] == Split(w[1..]);
      assert t == w[1..] + t[|w| - 1..];
    } else {
      LastLinesAreRecent(t, maxLines);
    }
  }

  /** Text that is too long loses its first character. */
  lemma FirstGoes(text: string, maxLines: nat)
    requires maxLines >= 1 && text != [] && !FitsLines(text, maxLines)
    ensures var w, t := Body(text), text[1..];
      && w != [] && |w| <= |text| && Body(t) == w[1..] && w[1..] == t[..|w| - 1] && t[|w| - 1..] == text[|w|..]
      && t != [] && |Split(w)| > maxLines && (FitsLines(t, maxLines) <==> |Split(w[1..])| <= maxLines)
      && Recent(text, maxLines) == (if FitsLines(t, maxLines) then t else Recent(t, maxLines))
  {
    hide Join, Split;
    JoinSplit(Body(text));
    JoinSplit(Body(text)[1..]);
  }

  /** The last lines do not change when the first character goes. */
  lemma SplitTail(w: string, k: nat)
    requires w != [] && |Split(w)| > k
    ensures |Split(w[1..])| >= k && Split(w)[|Split(w)| - k..] == Split(w[1..])[|Split(w[1..])| - k..]
  {
  }

  /** Text that is too long stays too long when more comes. */
  lemma TooLongStays(a: string, b: string, maxLines: nat)
    requires !FitsLines(a, maxLines) && b != []
    ensures !FitsLines(a + b, maxLines)
  {
    var more := (a + b)[|a|..|Body(a + b)|];
    assert Body(a + b) == a + more;
    assert a == Body(a) + a[|Body(a)|..];
    hide Newlines;
    NewlinesConcat(a, more);
    NewlinesConcat(Body(a), a[|Body(a)|..]);
  }

  /** Trimming as text arrives is the same as trimming all of it at the end. */
  lemma {:induction false} TrimIsIncremental(a: string, b: string, maxLines: nat)
    requires maxLines >= 1
    ensures Recent(Recent(a, maxLines) + b, maxLines) == Recent(a + b, maxLines)
  {
    if a != [] && !FitsLines(a, maxLines) {
      TrimIsIncremental(a[1..], b, maxLines);
      assert (a + b)[1..] == a[1..] + b;
      if b == [] {
        assert a + b == a;
      } else {
        TooLongStays(a, b, maxLines);
      }
    }
  }

  // ---------------------------------------------------------------------------------------------
  // The realtime snapshot: the last `limit` bytes, whatever the chunking.

  type Bytes = seq<int>

  method AppendRealtimeSnapshot(prev: Bytes, chunk: Bytes, limit: int) returns (snapshot: Bytes)
    ensures snapshot == Appended(prev, chunk, limit)
  {
    if chunk == [] {
      return prev;
    }
    var prevPart, chunkPart := prev, chunk;
    if limit > 0 {
      if |chunkPart| >= limit {
        chunkPart := chunkPart[|chunkPart| - limit..];
        prevPart := [];
      } else {
        var keepPrev := limit - |chunkPart|;
        if |prevPart| > keepPrev {
          prevPart := prevPart[|prevPart| - keepPrev..];
        }
      }
    }
    snapshot := prevPart + chunkPart;
  }

  /** A non-empty chunk is appended and the result cut to its last `limit` bytes. */
  function Appended(prev: Bytes, chunk: Bytes, limit: int): Bytes {
    if chunk == [] then prev
    else if limit > 0 then Last(prev + chunk, limit)
    else prev + chunk
  }

  function AppendedAll(start: Bytes, chunks: seq<Bytes>, limit: int): Bytes {
    if chunks == [] then start
    else Appended(AppendedAll(start, chunks[..|chunks| - 1], limit), chunks[|chunks| - 1], limit)
  }

  lemma LastOfConcat<T>(a: seq<T>, b: seq<T>, n: nat)
    ensures Last(Last(a, n) + b, n) == Last(a + b, n)
  {
  }

  /**
    However the output was cut into chunks, the snapshot is the last `limit` bytes of everything, or what it
    was at the start if there was no output.
   */
  lemma {:induction false} SnapshotIsLastBytes(start: Bytes, chunks: seq<Bytes>, limit: int)
    ensures AppendedAll(start, chunks, limit) ==
      if limit > 0 && Flatten(chunks) != [] then Last(start + Flatten(chunks), limit) else start + Flatten(chunks)
  {
    hide Flatten, Last;
    FlattenNothing<int>();
    if chunks == [] {
      assert start + [] == start;
    } else {
      var n := |chunks| - 1;
      var flat, chunk := Flatten(chunks[..n]), chunks[n];
      SnapshotIsLastBytes(start, chunks[..n], limit);
      assert chunks == chunks[..n] + [chunk];
      FlattenSnoc(chunks[..n], chunk);
      assert start + flat + chunk == start + (flat + chunk);
      if chunk == [] {
        assert flat + chunk == flat;
      } else if limit > 0 {
        LastOfConcat(start + flat, chunk, limit);
      }
    }
  }
}
