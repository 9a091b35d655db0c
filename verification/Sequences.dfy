/** Facts about sequences that several modules need. */
module Sequences {
  function Flatten<T>(parts: seq<seq<T>>): seq<T> {
    if parts == [] then [] else parts[0] + Flatten(parts[1..])
  }

  lemma FlattenNothing<T>()
    ensures Flatten<T>([]) == []
  {
  }

  lemma {:induction false} FlattenSnoc<T>(parts: seq<seq<T>>, last: seq<T>)
    ensures Flatten(parts + [last]) == Flatten(parts) + last
  {
    if parts != [] {
      FlattenSnoc(parts[1..], last);
      assert (parts + [last])[1..] == parts[1..] + [last];
      assert parts[0] + (Flatten(parts[1..]) + last) == parts[0] + Flatten(parts[1..]) + last;
    }
  }

  lemma Reassociate<T>(a: seq<T>, b: seq<T>, c: seq<T>)
    ensures a + (b + c) == (a + b) + c && a + [] == a
  {
  }

  /** Sequences cut at the same length are equal exactly when their parts are. */
  lemma SameEnds<T>(a: seq<T>, b: seq<T>, c: seq<T>, d: seq<T>)
    requires |a| == |b|
    ensures a + c == b + d <==> a == b && c == d
  {
    if a + c == b + d {
      assert (a + c)[..|a|] == a && (b + d)[..|a|] == b;
      assert (a + c)[|a|..] == c && (b + d)[|a|..] == d;
    }
  }

  /** An element can be taken out in front and put back behind only if all elements are equal. */
  lemma RotationIsConstant<T>(xs: seq<T>, first: T, last: T)
    ensures xs + [last] == [first] + xs <==> first == last && forall x :: x in xs ==> x == last
  {
    if xs + [last] == [first] + xs {
      var i := 0;
      while i < |xs|
        invariant i <= |xs| && forall k :: 0 <= k < i ==> xs[k] == first
      {
        assert (xs + [last])[i] == ([first] + xs)[i];
        i := i + 1;
      }
      assert (xs + [last])[|xs|] == ([first] + xs)[|xs|];
    } else if first == last && forall x :: x in xs ==> x == last {
      forall i | 0 <= i < |xs| + 1
        ensures (xs + [last])[i] == ([first] + xs)[i]
      {
        assert i < |xs| ==> xs[i] in xs;
        assert i > 0 ==> xs[i - 1] in xs;
      }
    }
  }
}
