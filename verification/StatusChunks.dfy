/** Greedy splitting of status items into messages that fit. */
module StatusChunks {
  import opened Sequences

  /** Fitting is inherited by every contiguous part. */
  ghost predicate IsHereditary<T(!new)>(fits: seq<T> -> bool) {
    forall s: seq<T>, i: nat, j: nat :: i <= j <= |s| && fits(s) ==> fits(s[i..j])
  }

  /** A chunk that may be sent: it fits, or cannot be made smaller. */
  predicate IsSendable<T>(fits: seq<T> -> bool, chunk: seq<T>) {
    chunk != [] && (fits(chunk) || |chunk| == 1)
  }

  /** A partition of `items` into consecutive sendable chunks. */
  predicate IsSplit<T(==)>(fits: seq<T> -> bool, items: seq<T>, chunks: seq<seq<T>>) {
    Flatten(chunks) == items && forall c :: c in chunks ==> IsSendable(fits, c)
  }

  /** The chunks still to be closed, given the chunk being filled. */
  function Greedy<T>(fits: seq<T> -> bool, current: seq<T>, items: seq<T>): seq<seq<T>>
    decreases |items|
  {
    if items == [] then (if current == [] then [] else [current])
    else if fits(current + [items[0]]) then Greedy(fits, current + [items[0]], items[1..])
    else if current == [] then [[items[0]]] + Greedy(fits, [], items[1..])
    else [current] + Greedy(fits, [items[0]], items[1..])
  }

  method SplitTmuxStatusItems<T>(fits: seq<T> -> bool, items: seq<T>) returns (chunks: seq<seq<T>>)
    ensures chunks == if items == [] then [[]] else Greedy(fits, [], items)
  {
    if items == [] {
      return [[]];
    }
    chunks := [];
    var current: seq<T> := [];
    for i := 0 to |items|
      invariant chunks + Greedy(fits, current, items[i..]) == Greedy(fits, [], items)
    {
      var item := items[i];
      var candidate := current + [item];
      assert items[i..][0] == item && items[i..][1..] == items[i + 1..];
      if fits(candidate) {
        current := candidate;
        continue;
      }
      if current == [] {
        assert chunks + ([[item]] + Greedy(fits, [], items[i + 1..]))
          == chunks + [[item]] + Greedy(fits, [], items[i + 1..]);
        chunks := chunks + [[item]];
        current := [];
        continue;
      }
      assert chunks + ([current] + Greedy(fits, [item], items[i + 1..]))
        == chunks + [current] + Greedy(fits, [item], items[i + 1..]);
      chunks := chunks + [current];
      current := [item];
    }
    assert items[|items|..] == [];
    if current != [] {
      chunks := chunks + [current];
    }
  }

  /** The greedy chunks are a split of what is left, the chunk being filled included. */
  lemma {:induction false} GreedySplits<T>(fits: seq<T> -> bool, current: seq<T>, items: seq<T>)
    requires current != [] ==> IsSendable(fits, current)
    ensures IsSplit(fits, current + items, Greedy(fits, current, items))
    decreases |items|
  {
    var g := Greedy(fits, current, items);
    if items == [] {
      assert current + items == current;
      if current != [] {
        assert Flatten(g[1..]) == [];
      }
    } else {
      var x, r := items[0], items[1..];
      assert items == [x] + r;
      if fits(current + [x]) {
        GreedySplits(fits, current + [x], r);
        assert current + [x] + r == current + items;
      } else if current == [] {
        GreedySplits(fits, [], r);
        assert g[1..] == Greedy(fits, [], r) && [] + r == r;
      } else {
        GreedySplits(fits, [x], r);
        assert g[1..] == Greedy(fits, [x], r);
        assert current + ([x] + r) == current + items;
      }
    }
  }

  /** Dropping items from the front never needs more chunks. */
  lemma {:induction false} DropFront<T(!new)>(fits: seq<T> -> bool, items: seq<T>, chunks: seq<seq<T>>, k: nat)
    returns (rest: seq<seq<T>>)
    requires IsHereditary(fits) && IsSplit(fits, items, chunks) && k <= |items|
    ensures IsSplit(fits, items[k..], rest) && |rest| <= |chunks|
    ensures chunks != [] && |chunks[0]| <= k ==> |rest| < |chunks|
    decreases |chunks|
  {
    if chunks == [] || k == 0 {
      rest := chunks;
      assert items[k..] == items;
      if chunks != [] {
        assert chunks[0] in chunks;
      }
    } else {
      var c := chunks[0];
      assert c in chunks && items == c + Flatten(chunks[1..]);
      assert forall x :: x in chunks[1..] ==> x in chunks;
      if |c| <= k {
        assert items[|c|..] == Flatten(chunks[1..]);
        rest := DropFront(fits, items[|c|..], chunks[1..], k - |c|);
        assert items[|c|..][k - |c|..] == items[k..];
      } else {
        rest := [c[k..]] + chunks[1..];
        assert rest[1..] == chunks[1..];
        assert items[k..] == c[k..] + Flatten(chunks[1..]);
        if fits(c) {
          assert fits(c[k..|c|]);
          assert c[k..|c|] == c[k..];
        }
      }
    }
  }

  lemma PrefixFits<T(!new)>(fits: seq<T> -> bool, s: seq<T>, n: nat)
    requires IsHereditary(fits) && fits(s) && n <= |s|
    ensures fits(s[..n])
  {
    assert fits(s[0..n]);
    assert s[0..n] == s[..n];
  }

  lemma PrefixDoesNotFit<T(!new)>(fits: seq<T> -> bool, s: seq<T>, n: nat)
    requires IsHereditary(fits) && n <= |s| && !fits(s[..n])
    ensures !fits(s)
  {
    assert s[0..n] == s[..n];
  }

  /** The first greedy chunk takes at least as many items as any sendable chunk at the front. */
  lemma {:induction false} GreedyIsLongest<T(!new)>(fits: seq<T> -> bool, current: seq<T>, items: seq<T>, chunk: seq<T>)
    requires IsHereditary(fits) && IsSendable(fits, chunk) && current + items != []
    requires chunk <= current + items
    requires current != [] ==> IsSendable(fits, current)
    ensures var g := Greedy(fits, current, items); g != [] && |g[0]| >= |chunk|
    decreases |items|
  {
    if items != [] {
      var x, r := items[0], items[1..];
      var next := current + [x];
      assert next + r == current + items;
      if |chunk| > |current| {
        assert chunk[..|next|] == next;
        if fits(chunk) {
          PrefixFits(fits, chunk, |next|);
        }
      }
      if fits(next) {
        GreedyIsLongest(fits, next, r, chunk);
      }
    }
  }

  /** Starting a chunk with an item untested makes no difference. */
  lemma {:induction false} RestartIsSame<T(!new)>(fits: seq<T> -> bool, x: T, items: seq<T>)
    requires IsHereditary(fits)
    ensures Greedy(fits, [x], items) == Greedy(fits, [], [x] + items)
    decreases |items|
  {
    var all := [x] + items;
    assert all[0] == x && all[1..] == items && [] + [x] == [x];
    if !fits([x]) && items != [] {
      var pair := [x] + [items[0]];
      assert pair[..1] == [x];
      assert !fits(pair) by { PrefixDoesNotFit(fits, pair, 1); }
      RestartIsSame(fits, items[0], items[1..]);
      assert [items[0]] + items[1..] == items;
    }
  }

  /** Greedy closes one chunk and starts over on the remaining items. */
  lemma {:induction false} GreedyUnfolds<T(!new)>(fits: seq<T> -> bool, current: seq<T>, items: seq<T>)
    requires IsHereditary(fits) && current + items != []
    ensures var g := Greedy(fits, current, items);
      && g != [] && g[0] <= current + items
      && g[1..] == Greedy(fits, [], (current + items)[|g[0]|..])
    decreases |items|
  {
    var g := Greedy(fits, current, items);
    if items == [] {
      assert (current + items)[|current|..] == [] && g[1..] == [];
    } else {
      var x, r := items[0], items[1..];
      assert current + [x] + r == current + items;
      if fits(current + [x]) {
        GreedyUnfolds(fits, current + [x], r);
      } else if current == [] {
        assert (current + items)[1..] == r;
      } else {
        RestartIsSame(fits, x, r);
        assert [x] + r == items;
        assert (current + items)[|current|..] == items;
      }
    }
  }

  /** No split into consecutive sendable chunks has fewer chunks than the greedy one. */
  lemma {:induction false} GreedyIsOptimal<T(!new)>(fits: seq<T> -> bool, items: seq<T>, chunks: seq<seq<T>>)
    requires IsHereditary(fits) && IsSplit(fits, items, chunks)
    ensures IsSplit(fits, items, Greedy(fits, [], items)) && |Greedy(fits, [], items)| <= |chunks|
    decreases |items|
  {
    assert [] + items == items;
    GreedySplits(fits, [], items);
    if items != [] {
      assert chunks != [] && chunks[0] in chunks;
      var g := Greedy(fits, [], items);
      GreedyUnfolds(fits, [], items);
      GreedyIsLongest(fits, [], items, chunks[0]);
      var n := |g[0]|;
      var rest := DropFront(fits, items, chunks, n);
      assert g[0] in g;
      GreedyIsOptimal(fits, items[n..], rest);
    }
  }
}
