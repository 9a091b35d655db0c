/** Cutting terminal output into bounded frames, and what a client makes of the frames. */
module TermFrames {
  import opened Utf8
  import opened Wrappers

  const MAX_FRAME_BYTES := 24 * 1024

  datatype Frame = Frame(mode: string, data: Bytes)

  /** The largest size up to `size` that ends between characters, or 0. */
  function LargestValid(rest: Bytes, size: nat): (n: nat)
    requires size <= |rest|
    ensures n <= size
  {
    if size == 0 || IsValid(rest[..size]) then size else LargestValid(rest, size - 1)
  }

  /** The size of the next frame. */
  function FrameSize(rest: Bytes): (n: nat)
    requires rest != []
    ensures 1 <= n <= |rest| && n <= MAX_FRAME_BYTES
  {
    var n := LargestValid(rest, if |rest| < MAX_FRAME_BYTES then |rest| else MAX_FRAME_BYTES);
    if n == 0 then 1 else n
  }

  function FramesFrom(mode: string, rest: Bytes): seq<Frame>
    decreases |rest|
  {
    if rest == [] then [] else [Frame(mode, rest[..FrameSize(rest)])] + FramesFrom("append", rest[FrameSize(rest)..])
  }

  function Frames(mode: string, data: Bytes): seq<Frame> {
    if |data| <= MAX_FRAME_BYTES then [Frame(mode, data)] else FramesFrom(mode, data)
  }

  method ChunkTermData(mode: string, data: Bytes) returns (frames: seq<Frame>)
    ensures frames == Frames(mode, data)
  {
    hide IsValid;
    if |data| <= MAX_FRAME_BYTES {
      return [Frame(mode, data)];
    }
    frames := [];
    var nextMode, rest := mode, data;
    while |rest| > 0
      invariant frames + FramesFrom(nextMode, rest) == FramesFrom(mode, data)
      decreases |rest|
    {
      var size := MAX_FRAME_BYTES;
      if |rest| < size {
        size := |rest|;
      }
      ghost var limit := size;
      while size > 0 && !IsValid(rest[..size])
        invariant 0 <= size <= limit <= |rest| && LargestValid(rest, size) == LargestValid(rest, limit)
      {
        size := size - 1;
      }
      if size == 0 {
        size := 1;
      }
      assert size == FrameSize(rest);
      assert frames + ([Frame(nextMode, rest[..size])] + FramesFrom("append", rest[size..]))
          == frames + [Frame(nextMode, rest[..size])] + FramesFrom("append", rest[size..]);
      frames := frames + [Frame(nextMode, rest[..size])];
      rest := rest[size..];
      nextMode := "append";
    }
  }

  function Data(frames: seq<Frame>): Bytes {
    if frames == [] then [] else frames[0].data + Data(frames[1..])
  }

  lemma {:induction false} FramesFromCover(mode: string, rest: Bytes)
    ensures var fs := FramesFrom(mode, rest);
      && Data(fs) == rest
      && (rest != [] ==> fs != [] && fs[0].mode == mode)
      && forall i :: 0 <= i < |fs| ==> 1 <= |fs[i].data| <= MAX_FRAME_BYTES && (i > 0 ==> fs[i].mode == "append")
    decreases |rest|
  {
    if rest != [] {
      FramesFromCover("append", rest[FrameSize(rest)..]);
      assert FramesFrom(mode, rest)[1..] == FramesFrom("append", rest[FrameSize(rest)..]);
    }
  }

  /** The frames concatenate to the data, none is too long, and only the first keeps the mode. */
  lemma FramesCover(mode: string, data: Bytes)
    ensures var fs := Frames(mode, data);
      && Data(fs) == data
      && fs != [] && fs[0].mode == mode
      && forall i :: 0 <= i < |fs| ==> |fs[i].data| <= 24576 && (i > 0 ==> fs[i].mode == "append")
  {
    FramesFromCover(mode, data);
    assert Frames(mode, data)[0].data + Data(Frames(mode, data)[1..]) == Data(Frames(mode, data));
  }

  lemma {:induction false} LargestValidBounds(rest: Bytes, size: nat, n: nat)
    requires n <= size <= |rest| && IsValid(rest[..n])
    ensures n <= LargestValid(rest, size) && IsValid(rest[..LargestValid(rest, size)])
  {
    if n < size {
      LargestValidBounds(rest, size - 1, n);
    }
  }

  /** A frame of valid text ends between characters, at most three bytes short of the limit. */
  lemma {:induction false} ValidFrame(rest: Bytes)
    requires IsValid(rest) && rest != []
    ensures var n := FrameSize(rest);
      && IsValid(rest[..n]) && IsValid(rest[n..])
      && (n < |rest| ==> n >= MAX_FRAME_BYTES - 3)
  {
    hide IsValid, EmitLength;
    var limit := if |rest| < MAX_FRAME_BYTES then |rest| else MAX_FRAME_BYTES;
    ValidPrefix(rest, limit);
    LargestValidBounds(rest, limit, EmitLength(rest[..limit]));
    var n := LargestValid(rest, limit);
    if |rest| < MAX_FRAME_BYTES {
      assert rest[..|rest|] == rest;
      LargestValidBounds(rest, limit, |rest|);
    }
    ValidSuffix(rest, n);
    assert n > 0 by {
      var m := FirstCharacter(rest);
      if m <= limit {
        LargestValidBounds(rest, limit, m);
      }
    }
  }

  /** Removing a valid prefix of valid text leaves valid text. */
  lemma {:induction false} ValidSuffix(w: Bytes, n: nat)
    requires n <= |w| && IsValid(w) && IsValid(w[..n])
    ensures IsValid(w[n..])
    decreases n
  {
    if n == 0 {
      assert w[0..] == w;
    } else {
      var p := w[..n];
      var m := SequenceLength(p[0]);
      assert p[m..] == w[m..][..n - m];
      ValidSuffix(w[m..], n - m);
      assert w[m..][n - m..] == w[n..];
    }
  }

  /** Every frame is valid text, and every frame but the last is full up to three bytes. */
  predicate AreFullAndValid(fs: seq<Frame>) {
    forall i :: 0 <= i < |fs| ==> IsValid(fs[i].data) && (i < |fs| - 1 ==> |fs[i].data| >= 24573)
  }

  lemma FirstFrame(f: Frame, fs: seq<Frame>)
    requires AreFullAndValid(fs) && IsValid(f.data) && (fs != [] ==> |f.data| >= 24573)
    ensures AreFullAndValid([f] + fs)
  {
  }

  lemma {:induction false} ValidFramesFrom(mode: string, rest: Bytes)
    requires IsValid(rest)
    ensures AreFullAndValid(FramesFrom(mode, rest))
    decreases |rest|
  {
    hide IsValid, FrameSize, AreFullAndValid;
    if rest == [] {
      NoFrames();
    } else {
      ValidFrame(rest);
      var n := FrameSize(rest);
      ValidFramesFrom("append", rest[n..]);
      FirstFrame(Frame(mode, rest[..n]), FramesFrom("append", rest[n..]));
    }
  }

  lemma NoFrames()
    ensures AreFullAndValid([])
  {
  }

  /** Valid text is cut between characters, into frames as full as that allows. */
  lemma ValidFrames(mode: string, data: Bytes)
    requires IsValid(data)
    ensures AreFullAndValid(Frames(mode, data))
  {
    hide IsValid, FramesFrom, Frames;
    ValidFramesFrom(mode, data);
    FramesOf(mode, data);
  }

  lemma FramesOf(mode: string, data: Bytes)
    ensures |data| <= MAX_FRAME_BYTES ==> Frames(mode, data) == [Frame(mode, data)]
    ensures |data| > MAX_FRAME_BYTES ==> Frames(mode, data) == FramesFrom(mode, data)
  {
  }

  // ---------------------------------------------------------------------------------------------
  // Output messages and the client's fold.

  datatype Output = Output(mode: string, data: Bytes, cursor: Option<(int, int)>)

  const NEWLINE: byte := 10

  function WithoutFinalNewline(data: Bytes): Bytes {
    if data != [] && data[|data| - 1] == NEWLINE then data[..|data| - 1] else data
  }

  /** One newline at the end goes, if there is one, and nothing else. */
  lemma OneNewlineGoes(text: Bytes)
    ensures WithoutFinalNewline(text + [10]) == text
    ensures text == [] || text[|text| - 1] != 10 ==> WithoutFinalNewline(text) == text
  {
    assert (text + [10])[..|text|] == text;
  }

  function OutputOf(mode: string, frames: seq<Frame>, i: nat, cursor: Option<(int, int)>): Output
    requires i < |frames|
  {
    var last := i == |frames| - 1;
    Output(frames[i].mode,
           if mode == "reset" && last then WithoutFinalNewline(frames[i].data) else frames[i].data,
           if last then cursor else None)
  }

  function Outputs(mode: string, data: Bytes, cursor: Option<(int, int)>): seq<Output> {
    var fs := Frames(mode, data);
    seq(|fs|, i requires 0 <= i < |fs| => OutputOf(mode, fs, i, cursor))
  }

  method TermOutputMessages(mode: string, data: Bytes, cursor: Option<(int, int)>) returns (out: seq<Output>)
    ensures out == Outputs(mode, data, cursor)
  {
    var frames := ChunkTermData(mode, data);
    out := [];
    var lastIdx := |frames| - 1;
    for idx := 0 to |frames|
      invariant |out| == idx && forall i :: 0 <= i < idx ==> out[i] == OutputOf(mode, frames, i, cursor)
    {
      var frameData := frames[idx].data;
      if mode == "reset" && idx == lastIdx && frameData != [] && frameData[|frameData| - 1] == NEWLINE {
        frameData := frameData[..|frameData| - 1];
      }
      var at := None;
      if cursor.Some? && idx == lastIdx {
        at := cursor;
      }
      out := out + [Output(frames[idx].mode, frameData, at)];
    }
  }

  /** The client appends or replaces. */
  function Shown(screen: Bytes, out: seq<Output>): Bytes {
    if out == [] then screen
    else
      var o := out[|out| - 1];
      if o.mode == "append" then Shown(screen, out[..|out| - 1]) + o.data else o.data
  }

  /** Frames from the second on only append. */
  lemma {:induction false} ShownAppends(screen: Bytes, out: seq<Output>, fs: seq<Frame>, n: nat)
    requires n <= |out| == |fs| && fs != []
    requires forall i :: 0 <= i < |fs| ==> out[i].mode == fs[i].mode && (i > 0 ==> fs[i].mode == "append")
    requires forall i :: 0 <= i < n ==> out[i].data == fs[i].data
    ensures Shown(screen, out[..n]) == (if n > 0 && fs[0].mode != "append" then [] else screen) + Data(fs[..n])
  {
    if n > 0 {
      ShownAppends(screen, out, fs, n - 1);
      assert out[..n][..n - 1] == out[..n - 1];
      DataSnoc(fs[..n - 1], fs[n - 1]);
      assert fs[..n] == fs[..n - 1] + [fs[n - 1]];
    }
  }

  lemma {:induction false} DataSnoc(fs: seq<Frame>, f: Frame)
    ensures Data(fs + [f]) == Data(fs) + f.data
  {
    if fs != [] {
      DataSnoc(fs[1..], f);
      assert (fs + [f])[1..] == fs[1..] + [f];
    }
  }

  /**
    Folding the frames of a reset gives the snapshot without its final newline, whatever was shown
    before; folding the frames of an append adds the data to what was shown.
   */
  lemma {:induction false} FramesFoldBack(screen: Bytes, data: Bytes, cursor: Option<(int, int)>)
    ensures Shown(screen, Outputs("reset", data, cursor)) == WithoutFinalNewline(data)
    ensures Shown(screen, Outputs("append", data, cursor)) == screen + data
  {
    FoldOf("reset", screen, data, cursor);
    FoldOf("append", screen, data, cursor);
  }

  lemma FoldOf(mode: string, screen: Bytes, data: Bytes, cursor: Option<(int, int)>)
    requires mode == "reset" || mode == "append"
    ensures Shown(screen, Outputs(mode, data, cursor))
         == if mode == "reset" then WithoutFinalNewline(data) else screen + data
  {
    hide Frames, Shown, Data, WithoutFinalNewline, Outputs, OutputOf;
    OutputsAre(mode, data, cursor);
    FramesCover(mode, data);
    var fs, out := Frames(mode, data), Outputs(mode, data, cursor);
    var n := |fs| - 1;
    ShownAppends(screen, out, fs, n);
    DataSnoc(fs[..n], fs[n]);
    NoData(fs);
    ShownLast(screen, out);
    assert fs == fs[..n] + [fs[n]];
    var before := Data(fs[..n]);
    if mode == "reset" {
      LastFrameIsNotEmpty(mode, data);
      FinalNewline(before, fs[n].data);
      assert [] + before == before;
    } else {
      assert screen + before + fs[n].data == screen + (before + fs[n].data);
    }
  }

  /** Only the last message places the cursor, and only the first is not an append, if the mode is not. */
  lemma CursorComesLast(mode: string, data: Bytes, cursor: Option<(int, int)>)
    ensures var out := Outputs(mode, data, cursor);
      && out != [] && out[0].mode == mode
      && out[|out| - 1].cursor == cursor
      && (forall i :: 0 <= i < |out| - 1 ==> out[i].cursor == None)
      && (forall i :: 0 < i < |out| ==> out[i].mode == "append")
  {
    hide Frames;
    FramesCover(mode, data);
  }

  lemma OutputsAre(mode: string, data: Bytes, cursor: Option<(int, int)>)
    ensures var fs, out := Frames(mode, data), Outputs(mode, data, cursor);
      && |out| == |fs|
      && forall i :: 0 <= i < |fs| ==>
        && out[i].mode == fs[i].mode
        && out[i].data == if mode == "reset" && i == |fs| - 1 then WithoutFinalNewline(fs[i].data) else fs[i].data
  {
  }

  lemma NoData(fs: seq<Frame>)
    ensures Data(fs[..0]) == []
  {
  }

  lemma ShownLast(screen: Bytes, out: seq<Output>)
    requires out != []
    ensures var n := |out| - 1;
      Shown(screen, out) == if out[n].mode == "append" then Shown(screen, out[..n]) + out[n].data else out[n].data
  {
  }

  lemma FinalNewline(a: Bytes, b: Bytes)
    requires b != [] || a == []
    ensures WithoutFinalNewline(a + b) == a + WithoutFinalNewline(b)
  {
  }

  lemma LastFrameIsNotEmpty(mode: string, data: Bytes)
    ensures var fs := Frames(mode, data); fs[|fs| - 1].data != [] || |fs| == 1
  {
    FramesFromCover(mode, data);
  }
}
