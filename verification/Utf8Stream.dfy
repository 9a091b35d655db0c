/** The per-pane splitter that never passes on a broken character, over runs that mix panes. */
module Utf8Stream {
  import opened Utf8

  class Watcher {
    var utf8Pending: map<string, Bytes>

    constructor ()
      ensures utf8Pending == map[]
    {
      utf8Pending := map[];
    }

    /** One chunk of a pane: what is passed on, and what is kept for the next chunk. */
    method ConsumeUTF8Chunk(target: string, chunk: Bytes) returns (emit: Bytes)
      modifies this
      ensures (emit, utf8Pending) == Consumed(old(utf8Pending), target, chunk)
    {
      var merged := (if target in utf8Pending then utf8Pending[target] else []) + chunk;
      var pending;
      emit, pending := SplitUTF8Payload(merged);
      if pending == [] {
        utf8Pending := utf8Pending - {target};
      } else {
        utf8Pending := utf8Pending[target := pending];
      }
    }
  }

  method SplitUTF8Payload(data: Bytes) returns (emit: Bytes, pending: Bytes)
    ensures emit == data[..EmitLength(data)] && pending == data[EmitLength(data)..]
  {
    if data == [] {
      return [], [];
    }
    var pos := 0;
    while pos < |data|
      invariant pos <= |data| && EmitLength(data) == pos + EmitLength(data[pos..])
    {
      if !FullRune(data[pos..]) {
        return data[..pos], data[pos..];
      }
      var size := DecodeSize(data[pos..]);
      assert data[pos..][size..] == data[pos + size..];
      pos := pos + size;
    }
    return data, [];
  }

  function PendingOf(pending: map<string, Bytes>, target: string): Bytes {
    if target in pending then pending[target] else []
  }

  function Consumed(pending: map<string, Bytes>, target: string, chunk: Bytes): (Bytes, map<string, Bytes>) {
    var merged := PendingOf(pending, target) + chunk;
    var n := EmitLength(merged);
    (merged[..n], if merged[n..] == [] then pending - {target} else pending[target := merged[n..]])
  }

  datatype Chunk = Chunk(target: string, data: Bytes)

  /** The pending map after a run of chunks. */
  function After(run: seq<Chunk>): map<string, Bytes> {
    if run == [] then map[]
    else Consumed(After(run[..|run| - 1]), run[|run| - 1].target, run[|run| - 1].data).1
  }

  /** What chunk `i` of the run passes on. */
  function EmitAt(run: seq<Chunk>, i: nat): Bytes
    requires i < |run|
  {
    Consumed(After(run[..i]), run[i].target, run[i].data).0
  }

  /** Everything that arrived for one pane. */
  function Stream(run: seq<Chunk>, target: string): Bytes {
    if run == [] then []
    else Stream(run[..|run| - 1], target) + if run[|run| - 1].target == target then run[|run| - 1].data else []
  }

  /** Everything passed on for one pane. */
  function Emitted(run: seq<Chunk>, target: string): Bytes {
    if run == [] then []
    else
      Emitted(run[..|run| - 1], target)
      + if run[|run| - 1].target == target then EmitAt(run, |run| - 1) else []
  }

  /**
    However a pane's bytes are cut into chunks and mixed with other panes', what has been passed on is
    a prefix of the pane's stream that depends on the stream alone, and the rest is pending: at most
    three bytes, the beginning of some character.
   */
  lemma {:induction false} ChunkingInvariance(run: seq<Chunk>, target: string)
    ensures var whole := Stream(run, target);
      && Emitted(run, target) == whole[..EmitLength(whole)]
      && PendingOf(After(run), target) == whole[EmitLength(whole)..]
      && |PendingOf(After(run), target)| <= 3
      && (PendingOf(After(run), target) != [] ==>
            exists c :: IsCharacter(c) && |PendingOf(After(run), target)| < |c|
              && c[..|PendingOf(After(run), target)|] == PendingOf(After(run), target))
  {
    hide EmitLength, IsCharacter;
    if run != [] {
      ChunkingInvariance(run[..|run| - 1], target);
      ChunkStep(run, target);
    }
    RestIsProperPrefix(Stream(run, target));
  }

  lemma ChunkStep(run: seq<Chunk>, target: string)
    requires run != []
    requires var r := run[..|run| - 1];
      var n := EmitLength(Stream(r, target));
      Emitted(r, target) == Stream(r, target)[..n] && PendingOf(After(r), target) == Stream(r, target)[n..]
    ensures var n := EmitLength(Stream(run, target));
      Emitted(run, target) == Stream(run, target)[..n] && PendingOf(After(run), target) == Stream(run, target)[n..]
  {
    hide EmitLength, Stream, Emitted, After, PendingOf, EmitAt;
    var r, x := run[..|run| - 1], run[|run| - 1];
    LastChunk(run, target);
    if x.target == target {
      MergedChunk(Stream(r, target), x.data);
    }
  }

  /** What one more chunk adds to the stream and to what is passed on, and what it leaves pending. */
  lemma LastChunk(run: seq<Chunk>, target: string)
    requires run != []
    ensures var r, x := run[..|run| - 1], run[|run| - 1];
      var merged := PendingOf(After(r), target) + x.data;
      var n := EmitLength(merged);
      if x.target == target then
        && Stream(run, target) == Stream(r, target) + x.data
        && Emitted(run, target) == Emitted(r, target) + merged[..n]
        && PendingOf(After(run), target) == merged[n..]
      else
        && Stream(run, target) == Stream(r, target)
        && Emitted(run, target) == Emitted(r, target)
        && PendingOf(After(run), target) == PendingOf(After(r), target)
  {
  }

  lemma MergedChunk(before: Bytes, data: Bytes)
    ensures var n, whole := EmitLength(before), before + data;
      var merged := before[n..] + data;
      var m := EmitLength(merged);
      EmitLength(whole) == n + m && whole[..n + m] == before[..n] + merged[..m] && whole[n + m..] == merged[m..]
  {
    hide EmitLength;
    EmitLengthConcat(before, data);
    var n := EmitLength(before);
    assert before + data == before[..n] + (before[n..] + data);
  }

  /** If the pane's stream is, or can still become, valid text, everything passed on is valid text. */
  lemma {:induction false} ValidStreamEmitsValid(run: seq<Chunk>, target: string, more: Bytes, i: nat)
    requires IsValid(Stream(run, target) + more) && i < |run| && run[i].target == target
    ensures IsValid(EmitAt(run, i))
    decreases |run|
  {
    hide EmitLength, IsValid, IsCharacter;
    var r, x := run[..|run| - 1], run[|run| - 1];
    var before := Stream(r, target);
    if i < |run| - 1 {
      var added := if x.target == target then x.data else [];
      assert Stream(run, target) + more == before + (added + more);
      ValidStreamEmitsValid(r, target, added + more, i);
      assert r[..i] == run[..i];
    } else {
      ChunkingInvariance(r, target);
      assert run[..i] == r;
      ChunkIsValid(before, x.data, more);
    }
  }

  lemma ChunkIsValid(before: Bytes, data: Bytes, more: Bytes)
    requires IsValid(before + data + more)
    ensures var merged := before[EmitLength(before)..] + data;
      IsValid(merged[..EmitLength(merged)])
  {
    hide EmitLength, IsValid;
    var w, n := before + data + more, EmitLength(before);
    assert w[..|before|] == before;
    ValidPrefix(w, |before|);
    var merged := before[n..] + data;
    assert w[n..] == merged + more;
    assert w[n..][..|merged|] == merged;
    ValidPrefix(w[n..], |merged|);
    assert w[n..][..EmitLength(merged)] == merged[..EmitLength(merged)];
  }

  /** A complete valid stream leaves nothing pending. */
  lemma {:induction false} ValidStreamIsPassedOn(run: seq<Chunk>, target: string)
    requires IsValid(Stream(run, target))
    ensures Emitted(run, target) == Stream(run, target) && PendingOf(After(run), target) == []
  {
    ChunkingInvariance(run, target);
    ValidIsEmitted(Stream(run, target));
  }
}
