/** Duplicate-free lists ordered from least to most recently used. */
module RecencyList {
  predicate NoDuplicates<T(==)>(s: seq<T>) {
    forall i, j :: 0 <= i < j < |s| ==> s[i] != s[j]
  }

  function Elements<T>(s: seq<T>): set<T> {
    set x | x in s
  }

  function Without<T(==)>(s: seq<T>, x: T): seq<T> {
    if s == [] then []
    else if s[0] == x then Without(s[1..], x)
    else [s[0]] + Without(s[1..], x)
  }

  /** `x` becomes the most recent. */
  function Touched<T(==)>(s: seq<T>, x: T): seq<T> {
    Without(s, x) + [x]
  }

  /** The `n` most recent. */
  function Last<T>(s: seq<T>, n: nat): seq<T> {
    if |s| <= n then s else s[|s| - n..]
  }

  function IndexOf<T(==)>(s: seq<T>, x: T): (i: nat)
    requires x in s
    ensures i < |s| && s[i] == x
  {
    if s[0] == x then 0 else 1 + IndexOf(s[1..], x)
  }

  /** The elements more recent than `x`. */
  function Newer<T(==)>(s: seq<T>, x: T): set<T>
    requires x in s
  {
    Elements(s[IndexOf(s, x) + 1..])
  }

  lemma {:induction false} CountElements<T>(s: seq<T>)
    requires NoDuplicates(s)
    ensures |Elements(s)| == |s|
  {
    if s != [] {
      CountElements(s[1..]);
      assert Elements(s) == Elements(s[1..]) + {s[0]};
    }
  }

  lemma ElementsConcat<T>(a: seq<T>, b: seq<T>)
    ensures Elements(a + b) == Elements(a) + Elements(b)
  {
  }

  lemma WithoutFirstElement<T>(s: seq<T>)
    requires NoDuplicates(s) && s != []
    ensures NoDuplicates(s[1..]) && Elements(s[1..]) == Elements(s) - {s[0]}
  {
    assert s == [s[0]] + s[1..];
    ElementsConcat([s[0]], s[1..]);
  }

  lemma {:induction false} WithoutConcat<T>(a: seq<T>, b: seq<T>, x: T)
    ensures Without(a + b, x) == Without(a, x) + Without(b, x)
  {
    hide Without;
    WithoutNothing(x);
    if a == [] {
      assert a + b == b;
    } else {
      WithoutConcat(a[1..], b, x);
      WithoutFirst(a, x);
      WithoutFirst(a + b, x);
      assert (a + b)[1..] == a[1..] + b && (a + b)[0] == a[0];
      var first, rest := if a[0] == x then [] else [a[0]], Without(a[1..], x);
      assert first + (rest + Without(b, x)) == (first + rest) + Without(b, x);
    }
  }

  lemma WithoutNothing<T>(x: T)
    ensures Without([], x) == []
  {
  }

  lemma WithoutFirst<T>(s: seq<T>, x: T)
    requires s != []
    ensures Without(s, x) == (if s[0] == x then [] else [s[0]]) + Without(s[1..], x)
  {
  }

  lemma {:induction false} WithoutAbsent<T>(s: seq<T>, x: T)
    requires x !in s
    ensures Without(s, x) == s
  {
    if s != [] {
      WithoutAbsent(s[1..], x);
    }
  }

  /** Removing the one occurrence of `x` in place is `Without`. */
  lemma {:induction false} WithoutAt<T>(s: seq<T>, i: nat)
    requires NoDuplicates(s) && i < |s|
    ensures Without(s, s[i]) == s[..i] + s[i + 1..]
  {
    var x, a, b := s[i], s[..i], s[i + 1..];
    hide Without;
    var rest := s[i..];
    assert s == a + rest && rest[0] == x && rest[1..] == b;
    WithoutConcat(a, rest, x);
    WithoutFirst(rest, x);
    WithoutAbsent(a, x);
    WithoutAbsent(b, x);
    assert [] + b == b;
  }

  lemma WithoutKeeps<T>(s: seq<T>, x: T)
    requires NoDuplicates(s)
    ensures NoDuplicates(Without(s, x)) && Elements(Without(s, x)) == Elements(s) - {x}
    ensures |Without(s, x)| == if x in s then |s| - 1 else |s|
  {
    if x in s {
      var i := IndexOf(s, x);
      WithoutAt(s, i);
      var r := s[..i] + s[i + 1..];
      forall y | y in s && y != x
        ensures y in r
      {
        var k := IndexOf(s, y);
        assert r[if k < i then k else k - 1] == y;
      }
    } else {
      WithoutAbsent(s, x);
    }
  }

  lemma TouchedKeeps<T>(s: seq<T>, x: T)
    requires NoDuplicates(s)
    ensures NoDuplicates(Touched(s, x)) && Elements(Touched(s, x)) == Elements(s) + {x}
    ensures |Touched(s, x)| == if x in s then |s| else |s| + 1
  {
    WithoutKeeps(s, x);
    assert x !in Elements(Without(s, x));
    ElementsConcat(Without(s, x), [x]);
  }

  lemma LastKeeps<T>(s: seq<T>, n: nat)
    requires NoDuplicates(s)
    ensures NoDuplicates(Last(s, n)) && Elements(Last(s, n)) <= Elements(s)
  {
  }

  lemma IndexIsUnique<T>(s: seq<T>, i: nat)
    requires NoDuplicates(s) && i < |s|
    ensures IndexOf(s, s[i]) == i
  {
  }

  /** The position of `x` is fixed by how many elements are newer. */
  lemma CountNewer<T>(s: seq<T>, x: T)
    requires NoDuplicates(s) && x in s
    ensures |Newer(s, x)| == |s| - 1 - IndexOf(s, x)
  {
    CountElements(s[IndexOf(s, x) + 1..]);
  }

  lemma NewerIsOrder<T>(s: seq<T>, x: T, y: T)
    requires NoDuplicates(s) && x in s && y in s
    ensures y in Newer(s, x) <==> IndexOf(s, x) < IndexOf(s, y)
  {
  }

  lemma NewerOfFirst<T>(s: seq<T>)
    requires s != []
    ensures Newer(s, s[0]) == Elements(s[1..])
  {
  }

  lemma NewerInRest<T>(s: seq<T>, x: T)
    requires s != [] && s[0] != x && x in s[1..]
    ensures x in s && Newer(s, x) == Newer(s[1..], x)
  {
  }

  lemma NewerOfWithout<T>(s: seq<T>, x: T, y: T)
    requires NoDuplicates(s) && x in s && x != y
    ensures x in Without(s, y) && Newer(Without(s, y), x) == Newer(s, x) - {y}
  {
    hide Without, Elements, IndexOf;
    var k := IndexOf(s, x);
    if y in s {
      var i := IndexOf(s, y);
      var r := Without(s, y);
      WithoutAt(s, i);
      WithoutKeeps(s, y);
      var m := if k < i then k else k - 1;
      assert r[m] == x;
      IndexIsUnique(r, m);
      WithoutKeeps(s[k + 1..], y);
      if k < i {
        WithoutAt(s[k + 1..], i - k - 1);
        assert r[m + 1..] == Without(s[k + 1..], y);
      } else {
        assert y !in s[k + 1..];
        WithoutAbsent(s[k + 1..], y);
        assert r[m + 1..] == s[k + 1..];
      }
    } else {
      WithoutAbsent(s, y);
      WithoutKeeps(s[k + 1..], y);
      WithoutAbsent(s[k + 1..], y);
    }
  }

  lemma NewerOfTouched<T>(s: seq<T>, x: T, y: T)
    requires NoDuplicates(s) && x in s
    ensures x in Touched(s, y) && Newer(Touched(s, y), x) == if x == y then {} else Newer(s, x) + {y}
  {
    hide Without, IndexOf;
    TouchedKeeps(s, y);
    var t, r := Touched(s, y), Without(s, y);
    if x == y {
      IndexIsUnique(t, |t| - 1);
      assert t[|t|..] == [];
    } else {
      NewerOfWithout(s, x, y);
      var k := IndexOf(r, x);
      IndexIsUnique(t, k);
      assert t[k + 1..] == r[k + 1..] + [y];
      ElementsConcat(r[k + 1..], [y]);
    }
  }

  lemma InSuffix<T>(s: seq<T>, d: nat, k: nat)
    requires NoDuplicates(s) && d <= |s| && k < |s|
    ensures s[k] in s[d..] <==> k >= d
    ensures k >= d ==> IndexOf(s[d..], s[k]) == k - d
  {
    if k >= d {
      assert s[d..][k - d] == s[k];
      IndexIsUnique(s[d..], k - d);
    }
  }

  lemma {:induction false} NewerOfLast<T>(s: seq<T>, n: nat, x: T)
    requires NoDuplicates(s) && x in s
    ensures x in Last(s, n) <==> |Newer(s, x)| < n
    ensures x in Last(s, n) ==> Newer(Last(s, n), x) == Newer(s, x)
  {
    hide Elements, IndexOf, NoDuplicates;
    CountNewer(s, x);
    if |s| > n {
      var d, k := |s| - n, IndexOf(s, x);
      InSuffix(s, d, k);
      if k >= d {
        assert s[d..][k - d + 1..] == s[k + 1..];
      }
    }
  }

  /** Keeping only the `n` most recent loses nothing that later touches need. */
  lemma TouchedLast<T>(s: seq<T>, n: nat, x: T)
    requires NoDuplicates(s) && n > 0
    ensures Last(Touched(Last(s, n), x), n) == Last(Touched(s, x), n)
  {
    hide Without, Elements;
    if |s| > n {
      var a, b := s[..|s| - n], s[|s| - n..];
      assert s == a + b;
      WithoutConcat(a, b, x);
      WithoutKeeps(b, x);
      LastOfLonger(Without(a, x), Without(b, x), x, n);
    }
  }

  lemma LastOfLonger<T>(c: seq<T>, d: seq<T>, x: T, n: nat)
    requires |d| + 1 >= n
    ensures Last(c + d + [x], n) == Last(d + [x], n)
  {
    assert c + d + [x] == c + (d + [x]);
  }

  /** A list whose elements have the same newer elements in both lists is a suffix of the other. */
  lemma SuffixFromNewer<T>(a: seq<T>, b: seq<T>)
    requires NoDuplicates(a) && NoDuplicates(b)
    requires forall x :: x in b ==> x in a && Newer(a, x) == Newer(b, x)
    ensures |b| <= |a| && a[|a| - |b|..] == b
  {
    forall k | 0 <= k < |b|
      ensures |a| - |b| + k >= 0 && a[|a| - |b| + k] == b[k]
    {
      CountNewer(a, b[k]);
      CountNewer(b, b[k]);
      IndexIsUnique(b, k);
    }
    CountElements(a);
    CountElements(b);
    if b != [] {
      assert |a| - |b| + 0 >= 0;
    }
  }
}
