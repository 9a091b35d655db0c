/** The order of strings, and sequences sorted by a string key. */
module StringOrder {
  predicate Less(a: string, b: string) {
    if b == [] then false
    else if a == [] then true
    else if a[0] != b[0] then a[0] < b[0]
    else Less(a[1..], b[1..])
  }

  lemma FirstsAgree(a: string, b: string, k: nat)
    requires k <= |a| && k <= |b| && a[..k] == b[..k]
    ensures k == 0 || (a != [] && b != [] && a[0] == b[0])
  {
    if k > 0 {
      assert a[..k][0] == b[..k][0];
    }
  }

  /** A proper beginning comes first; else the string with the smaller character where the two first differ. */
  lemma {:induction false} LessIff(a: string, b: string)
    ensures Less(a, b) <==> exists k: nat ::
      k <= |a| && k < |b| && a[..k] == b[..k] && (k == |a| || a[k] < b[k])
  {
    if b != [] && a != [] && a[0] == b[0] {
      LessIff(a[1..], b[1..]);
      if k: nat :| k <= |a| && k < |b| && a[..k] == b[..k] && (k == |a| || a[k] < b[k]) {
        assert k > 0 && a[1..][..k - 1] == a[..k][1..] == b[..k][1..] == b[1..][..k - 1];
      }
      var u, v := a[1..], b[1..];
      if k: nat :| k <= |u| && k < |v| && u[..k] == v[..k] && (k == |u| || u[k] < v[k]) {
        assert a[..k + 1] == [a[0]] + a[1..][..k] && b[..k + 1] == [b[0]] + b[1..][..k];
      }
    } else if b != [] {
      assert a[..0] == b[..0];
      forall k: nat | k <= |a| && k < |b| && a[..k] == b[..k] ensures k == 0 {
        FirstsAgree(a, b, k);
      }
    }
  }

  lemma {:induction false} LessIsTotal(a: string, b: string)
    ensures a == b || Less(a, b) || Less(b, a)
    ensures !(Less(a, b) && Less(b, a)) && !Less(a, a)
  {
    if a != [] && b != [] && a[0] == b[0] {
      LessIsTotal(a[1..], b[1..]);
      assert a == [a[0]] + a[1..] && b == [b[0]] + b[1..];
    }
    if a != [] && !(b != [] && a[0] == b[0]) {
      LessIsTotal(a[1..], a[1..]);
    } else if a != [] && a != b {
      LessIsTotal(a[1..], a[1..]);
    }
  }

  lemma {:induction false} LessIsTransitive(a: string, b: string, c: string)
    requires Less(a, b) && Less(b, c)
    ensures Less(a, c)
  {
    if a != [] && a[0] == b[0] == c[0] {
      LessIsTransitive(a[1..], b[1..], c[1..]);
    }
  }

  /** Strictly sorted by key. */
  ghost predicate Ascending<T(!new)>(s: seq<T>, key: T -> string) {
    forall i, j :: 0 <= i < j < |s| ==> Less(key(s[i]), key(s[j]))
  }

  function Insert<T>(s: seq<T>, x: T, key: T -> string): seq<T> {
    if s == [] then [x]
    else if Less(key(s[0]), key(x)) then [s[0]] + Insert(s[1..], x, key)
    else [x] + s
  }

  function SortBy<T>(s: seq<T>, key: T -> string): seq<T> {
    if s == [] then [] else Insert(SortBy(s[1..], key), s[0], key)
  }

  lemma {:induction false} InsertHas<T(!new)>(s: seq<T>, x: T, key: T -> string)
    ensures forall y :: y in Insert(s, x, key) <==> y == x || y in s
  {
    if s != [] && Less(key(s[0]), key(x)) {
      InsertHas(s[1..], x, key);
    }
  }

  lemma {:induction false} InsertAscending<T(!new)>(s: seq<T>, x: T, key: T -> string)
    requires Ascending(s, key) && forall y :: y in s ==> key(y) != key(x)
    ensures Ascending(Insert(s, x, key), key)
  {
    if s != [] {
      LessIsTotal(key(s[0]), key(x));
      if Less(key(s[0]), key(x)) {
        var r := Insert(s[1..], x, key);
        InsertAscending(s[1..], x, key);
        InsertHas(s[1..], x, key);
        forall j | 0 <= j < |r| ensures Less(key(s[0]), key(r[j])) {
          assert r[j] in r;
        }
      } else {
        assert s[0] in s;
        forall j | 0 < j < |s| ensures Less(key(x), key(s[j])) {
          LessIsTransitive(key(x), key(s[0]), key(s[j]));
        }
      }
    }
  }

  /** Sorting items with distinct keys gives the same items, in strictly ascending order. */
  lemma {:induction false} SortBySorts<T(!new)>(s: seq<T>, key: T -> string)
    requires forall i, j :: 0 <= i < j < |s| ==> key(s[i]) != key(s[j])
    ensures Ascending(SortBy(s, key), key) && forall y :: y in SortBy(s, key) <==> y in s
  {
    if s != [] {
      SortBySorts(s[1..], key);
      InsertHas(SortBy(s[1..], key), s[0], key);
      InsertAscending(SortBy(s[1..], key), s[0], key);
    }
  }

  /** There is one strictly ascending sequence of given items. */
  lemma {:induction false} AscendingIsUnique<T(!new)>(s: seq<T>, t: seq<T>, key: T -> string)
    requires Ascending(s, key) && Ascending(t, key) && forall y :: y in s <==> y in t
    ensures s == t
  {
    assert (s == [] || s[0] in s) && (t == [] || t[0] in t);
    if s != [] && t != [] {
      var i :| 0 <= i < |t| && t[i] == s[0];
      var j :| 0 <= j < |s| && s[j] == t[0];
      LessIsTotal(key(s[0]), key(t[0]));
      LessIsTotal(key(s[0]), key(s[0]));
      assert s[0] == t[0];
      forall y ensures y in s[1..] <==> y in t[1..] {
        assert y in s <==> y == s[0] || y in s[1..];
        assert y in t <==> y == t[0] || y in t[1..];
      }
      AscendingIsUnique(s[1..], t[1..], key);
    }
  }
}
