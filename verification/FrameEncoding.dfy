/**
  What the client receives of the output messages: JSON cannot carry bytes that are not UTF-8 (RFC 3629),
  so the server's encoder replaces each of them, message by message.
 */
module FrameEncoding {
  import opened TermFrames
  import opened Utf8
  import opened Wrappers

  /** U+FFFD */
  const REPLACEMENT: Bytes := [0xEF, 0xBF, 0xBD]

  /** The first character, or the replacement of the first byte. */
  function Piece(d: Bytes): Bytes
    requires d != []
  {
    if IsCharacter(d[..DecodeSize(d)]) then d[..DecodeSize(d)] else REPLACEMENT
  }

  function Received(d: Bytes): Bytes
    decreases |d|
  {
    if d == [] then [] else Piece(d) + Received(d[DecodeSize(d)..])
  }

  lemma FirstPiece(c: Bytes, s: Bytes)
    requires IsCharacter(c)
    ensures DecodeSize(c + s) == |c| && Piece(c + s) == c && Received(c + s) == c + Received(s)
  {
    assert (c + s)[..|c|] == c && (c + s)[|c|..] == s;
  }

  /** Valid text is received as it is, whatever follows it. */
  lemma {:induction false} ValidIsReceived(a: Bytes, b: Bytes)
    requires IsValid(a)
    ensures Received(a + b) == a + Received(b) && Received(a) == a
    decreases |a|
  {
    hide IsCharacter, IsValid, Received;
    if a == [] {
      assert a + b == b;
      NothingReceived();
    } else {
      var n := FirstCharacter(a);
      ValidIsReceived(a[n..], b);
      FirstPiece(a[..n], a[n..] + b);
      FirstPiece(a[..n], a[n..]);
      assert a + b == a[..n] + (a[n..] + b) && a == a[..n] + a[n..];
      assert a[..n] + (a[n..] + Received(b)) == a + Received(b);
    }
  }

  lemma NothingReceived()
    ensures Received([]) == []
  {
  }

  /** Whatever the bytes, what is received is valid text: each byte that begins no character becomes U+FFFD. */
  lemma {:induction false} ReceivedIsValid(d: Bytes)
    ensures IsValid(Received(d))
    ensures d != [] && !IsCharacter(d[..DecodeSize(d)]) ==>
      DecodeSize(d) == 1 && Received(d) == [0xEF, 0xBF, 0xBD] + Received(d[1..])
    decreases |d|
  {
    hide IsValid;
    if d == [] {
      NothingIsValid();
    } else {
      ReceivedIsValid(d[DecodeSize(d)..]);
      CharacterThenValid(Piece(d), Received(d[DecodeSize(d)..]));
    }
  }

  lemma NothingIsValid()
    ensures IsValid([])
  {
  }

  lemma CharacterThenValid(c: Bytes, s: Bytes)
    requires IsCharacter(c) && IsValid(s)
    ensures IsValid(c + s)
  {
    assert (c + s)[..|c|] == c && (c + s)[|c|..] == s;
  }

  /** Where no prefix is valid, the first byte is replaced by itself. */
  lemma {:induction false} BadFirstByte(rest: Bytes)
    requires rest != []
    requires LargestValid(rest, if |rest| < MAX_FRAME_BYTES then |rest| else MAX_FRAME_BYTES) == 0
    ensures Received(rest) == REPLACEMENT + Received(rest[1..]) && Received(rest[..1]) == REPLACEMENT
  {
    hide IsValid, LargestValid, Received;
    var n := DecodeSize(rest);
    if IsCharacter(rest[..n]) {
      CharacterIsValid(rest[..n]);
      LargestValidBounds(rest, if |rest| < MAX_FRAME_BYTES then |rest| else MAX_FRAME_BYTES, n);
      assert false;
    }
    OneByte(rest);
  }

  lemma OneByte(rest: Bytes)
    requires rest != [] && !IsCharacter(rest[..DecodeSize(rest)])
    ensures Received(rest) == REPLACEMENT + Received(rest[1..]) && Received(rest[..1]) == REPLACEMENT
  {
    var one := rest[..1];
    assert DecodeSize(one) == 1 && one[..1] == one && one[1..] == [] && Received(one[1..]) == [];
    assert DecodeSize(rest) == 1 && !IsCharacter(one);
    assert REPLACEMENT + [] == REPLACEMENT;
  }

  /** Frames are cut where the encoder decides anew. */
  lemma CutIsReceived(rest: Bytes)
    requires rest != []
    ensures var n := FrameSize(rest); Received(rest) == Received(rest[..n]) + Received(rest[n..])
  {
    hide IsValid, LargestValid, Received;
    var limit := if |rest| < MAX_FRAME_BYTES then |rest| else MAX_FRAME_BYTES;
    if LargestValid(rest, limit) == 0 {
      BadFirstByte(rest);
    } else {
      var n := FrameSize(rest);
      EmptyIsValid();
      assert rest[..0] == [];
      LargestValidBounds(rest, limit, 0);
      ValidIsReceived(rest[..n], rest[n..]);
      assert rest == rest[..n] + rest[n..];
    }
  }

  function ReceivedFrames(fs: seq<Frame>): seq<Frame> {
    seq(|fs|, i requires 0 <= i < |fs| => fs[i].(data := Received(fs[i].data)))
  }

  function ReceivedOutputs(out: seq<Output>): seq<Output> {
    seq(|out|, i requires 0 <= i < |out| => out[i].(data := Received(out[i].data)))
  }

  lemma {:induction false} FramesFromAreReceived(mode: string, rest: Bytes)
    ensures Data(ReceivedFrames(FramesFrom(mode, rest))) == Received(rest)
    decreases |rest|
  {
    hide Received, FrameSize;
    if rest == [] {
      NothingReceived();
    } else {
      var n := FrameSize(rest);
      var fs := FramesFrom(mode, rest);
      FramesFromAreReceived("append", rest[n..]);
      CutIsReceived(rest);
      assert fs[1..] == FramesFrom("append", rest[n..]);
      assert ReceivedFrames(fs)[1..] == ReceivedFrames(fs[1..]);
      assert ReceivedFrames(fs)[0].data == Received(rest[..n]);
    }
  }

  lemma {:induction false} FramesAreReceived(mode: string, data: Bytes)
    ensures Data(ReceivedFrames(Frames(mode, data))) == Received(data)
  {
    hide Received, FramesFrom;
    FramesOf(mode, data);
    if |data| <= MAX_FRAME_BYTES {
      var one := Frame(mode, Received(data));
      assert ReceivedFrames([Frame(mode, data)]) == [one];
      assert [one][1..] == [] && Data([]) == [] && one.data + [] == one.data;
    } else {
      FramesFromAreReceived(mode, data);
    }
  }

  /** A final newline is received as it is. */
  lemma {:induction false} NewlineIsReceived(d: Bytes)
    ensures Received(d + [NEWLINE]) == Received(d) + [NEWLINE]
    decreases |d|
  {
    hide Received, Piece, DecodeSize;
    if d == [] {
      assert d + [NEWLINE] == [NEWLINE];
      NothingReceived();
      NewlineAlone();
    } else {
      var n := DecodeSize(d);
      SameFirstPiece(d);
      NewlineIsReceived(d[n..]);
      FirstReceived(d);
      FirstReceived(d + [NEWLINE]);
      assert (d + [NEWLINE])[n..] == d[n..] + [NEWLINE];
      assert Piece(d) + (Received(d[n..]) + [NEWLINE]) == Piece(d) + Received(d[n..]) + [NEWLINE];
    }
  }

  lemma FirstReceived(d: Bytes)
    requires d != []
    ensures Received(d) == Piece(d) + Received(d[DecodeSize(d)..])
  {
  }

  lemma NewlineAlone()
    ensures Received([NEWLINE]) == [] + [NEWLINE]
  {
    var d := [NEWLINE];
    assert d[..1] == d && d[1..] == [] && IsCharacter(d);
    FirstPiece(d, []);
    assert d + [] == d;
  }

  lemma SameFirstPiece(d: Bytes)
    requires d != []
    ensures DecodeSize(d + [NEWLINE]) == DecodeSize(d) && Piece(d + [NEWLINE]) == Piece(d)
  {
    var e, n := d + [NEWLINE], SequenceLength(d[0]);
    if |d| >= n {
      assert e[..n] == d[..n];
    } else if |e| >= n {
      assert e[..n][n - 1] == NEWLINE;
    }
    assert e[..1] == d[..1];
  }

  /**
    What the client shows after a reset is the snapshot without its final newline, and after an append what
    it showed before and the data, each as the whole would have been received in one message: cutting into
    frames never shows, for any bytes.
   */
  lemma FramesFoldBackAsReceived(screen: Bytes, data: Bytes, cursor: Option<(int, int)>)
    ensures Shown(screen, ReceivedOutputs(Outputs("reset", data, cursor))) == Received(WithoutFinalNewline(data))
    ensures Shown(screen, ReceivedOutputs(Outputs("append", data, cursor))) == screen + Received(data)
  {
    ReceivedFold("reset", screen, data, cursor);
    ReceivedFold("append", screen, data, cursor);
  }

  lemma {:induction false} ReceivedFold(mode: string, screen: Bytes, data: Bytes, cursor: Option<(int, int)>)
    requires mode == "reset" || mode == "append"
    ensures Shown(screen, ReceivedOutputs(Outputs(mode, data, cursor)))
         == if mode == "reset" then Received(WithoutFinalNewline(data)) else screen + Received(data)
  {
    hide Frames, Shown, Data, WithoutFinalNewline, Outputs, OutputOf, Received, ReceivedFrames, ReceivedOutputs;
    ReceivedParts(mode, data, cursor);
    FramesAreReceived(mode, data);
    var gs, received := ReceivedFrames(Frames(mode, data)), ReceivedOutputs(Outputs(mode, data, cursor));
    var n := |gs| - 1;
    ShownAppends(screen, received, gs, n);
    ShownLast(screen, received);
    var before, last := Data(gs[..n]), received[n].data;
    if mode == "reset" {
      NoData(gs);
      LastReceived(mode, data);
      assert [] + before == before;
    } else {
      DataSnoc(gs[..n], gs[n]);
      assert gs == gs[..n] + [gs[n]];
      assert screen + before + last == screen + (before + last);
    }
  }

  lemma {:induction false} ReceivedParts(mode: string, data: Bytes, cursor: Option<(int, int)>)
    ensures var fs, out := Frames(mode, data), Outputs(mode, data, cursor);
      var gs, received := ReceivedFrames(fs), ReceivedOutputs(out);
      && |received| == |gs| == |fs| > 0 && gs[0].mode == mode
      && (forall i :: 0 <= i < |gs| ==> received[i].mode == gs[i].mode && (i > 0 ==> gs[i].mode == "append"))
      && (forall i :: 0 <= i < |gs| - 1 ==> received[i].data == gs[i].data)
      && received[|gs| - 1].data == (if mode == "reset" then Received(WithoutFinalNewline(fs[|gs| - 1].data))
                                     else gs[|gs| - 1].data)
  {
    hide Frames, Data, WithoutFinalNewline, Outputs, OutputOf, Received;
    OutputsAre(mode, data, cursor);
    FramesCover(mode, data);
  }

  lemma LastReceived(mode: string, data: Bytes)
    ensures var fs := Frames(mode, data);
      var n := |fs| - 1;
      n >= 0 && Data(ReceivedFrames(fs)[..n]) + Received(WithoutFinalNewline(fs[n].data))
        == Received(WithoutFinalNewline(data))
  {
    hide Frames, Data, WithoutFinalNewline, Received;
    FramesCover(mode, data);
    FramesAreReceived(mode, data);
    LastFrameIsNotEmpty(mode, data);
    var fs := Frames(mode, data);
    var gs, n := ReceivedFrames(fs), |fs| - 1;
    assert fs == fs[..n] + [fs[n]] && gs == gs[..n] + [gs[n]];
    DataSnoc(fs[..n], fs[n]);
    DataSnoc(gs[..n], gs[n]);
    NoData(fs);
    var last := fs[n].data;
    FinalNewline(Data(fs[..n]), last);
    NewlineSplits(last);
    NewlineSplits(data);
    if WithoutFinalNewline(last) != last {
      NewlineIsReceived(WithoutFinalNewline(last));
      NewlineIsReceived(WithoutFinalNewline(data));
      var a, w, x := Data(gs[..n]), Received(WithoutFinalNewline(last)), Received(WithoutFinalNewline(data));
      assert a + (w + [NEWLINE]) == (a + w) + [NEWLINE];
      SameBeforeNewline(a + w, x);
    }
  }

  lemma NewlineSplits(d: Bytes)
    ensures WithoutFinalNewline(d) != d ==> d == WithoutFinalNewline(d) + [NEWLINE]
  {
  }

  lemma SameBeforeNewline(a: Bytes, b: Bytes)
    requires a + [NEWLINE] == b + [NEWLINE]
    ensures a == b
  {
    assert (a + [NEWLINE])[..|a|] == a && (b + [NEWLINE])[..|b|] == b;
  }
}
