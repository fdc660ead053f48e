/** The standard library's stable sort by a key, as insertion. */
module Sorting {
  ghost predicate SortedBy<T>(s: seq<T>, key: T -> int) {
    forall i, j :: 0 <= i < j < |s| ==> key(s[i]) <= key(s[j])
  }

  /** Behind all elements of the same key. */
  function Insert<T>(s: seq<T>, x: T, key: T -> int): seq<T> {
    if s == [] || key(x) < key(s[0]) then [x] + s else [s[0]] + Insert(s[1..], x, key)
  }

  function Sort<T>(s: seq<T>, key: T -> int): seq<T> {
    if s == [] then [] else Insert(Sort(s[..|s| - 1], key), s[|s| - 1], key)
  }

  lemma {:induction false} InsertElements<T>(s: seq<T>, x: T, key: T -> int)
    ensures multiset(Insert(s, x, key)) == multiset(s) + multiset{x}
    ensures |Insert(s, x, key)| == |s| + 1
  {
    if !(s == [] || key(x) < key(s[0])) {
      InsertElements(s[1..], x, key);
      assert s == [s[0]] + s[1..];
    }
  }

  lemma PrependSorted<T>(x: T, s: seq<T>, key: T -> int)
    requires SortedBy(s, key) && forall y :: y in s ==> key(x) <= key(y)
    ensures SortedBy([x] + s, key)
  {
    assert forall j :: 0 <= j < |s| ==> s[j] in s;
  }

  lemma FirstIsLeast<T>(s: seq<T>, key: T -> int)
    requires SortedBy(s, key) && s != []
    ensures SortedBy(s[1..], key) && forall y :: y in s[1..] ==> key(s[0]) <= key(y)
  {
    forall y | y in s[1..]
      ensures key(s[0]) <= key(y)
    {
      var i :| 0 <= i < |s| - 1 && s[i + 1] == y;
    }
  }

  lemma {:induction false} InsertSorted<T>(s: seq<T>, x: T, key: T -> int)
    requires SortedBy(s, key)
    ensures SortedBy(Insert(s, x, key), key)
  {
    if s != [] {
      FirstIsLeast(s, key);
      if key(x) < key(s[0]) {
        assert s == [s[0]] + s[1..];
        PrependSorted(x, s, key);
      } else {
        assert s == [s[0]] + s[1..];
        InsertSorted(s[1..], x, key);
        InsertElements(s[1..], x, key);
        var r := Insert(s[1..], x, key);
        forall y | y in r
          ensures key(s[0]) <= key(y)
        {
          assert y in multiset(r);
        }
        PrependSorted(s[0], r, key);
      }
    }
  }

  lemma {:induction false} SortMeaning<T>(s: seq<T>, key: T -> int)
    ensures multiset(Sort(s, key)) == multiset(s) && SortedBy(Sort(s, key), key) && |Sort(s, key)| == |s|
  {
    if s != [] {
      var n := |s| - 1;
      SortMeaning(s[..n], key);
      InsertElements(Sort(s[..n], key), s[n], key);
      InsertSorted(Sort(s[..n], key), s[n], key);
      assert s == s[..n] + [s[n]];
    }
  }

  /** The elements of one key, in order. */
  function OfKey<T>(s: seq<T>, key: T -> int, v: int): seq<T> {
    if s == [] then [] else (if key(s[0]) == v then [s[0]] else []) + OfKey(s[1..], key, v)
  }

  function If<T>(x: T, key: T -> int, v: int): seq<T> { if key(x) == v then [x] else [] }

  lemma OfKeyHead<T>(x: T, s: seq<T>, key: T -> int, v: int)
    ensures OfKey([x] + s, key, v) == If(x, key, v) + OfKey(s, key, v)
  {
    assert ([x] + s)[1..] == s;
  }

  lemma {:induction false} OfKeyLast<T>(s: seq<T>, x: T, key: T -> int, v: int)
    ensures OfKey(s + [x], key, v) == OfKey(s, key, v) + If(x, key, v)
  {
    if s == [] {
      OfKeyHead(x, [], key, v);
      assert s + [x] == [x] + [];
    } else {
      OfKeyLast(s[1..], x, key, v);
      OfKeyHead(s[0], s[1..], key, v);
      OfKeyHead(s[0], s[1..] + [x], key, v);
      hide OfKey, If;
      assert s + [x] == [s[0]] + (s[1..] + [x]) && s == [s[0]] + s[1..];
    }
  }

  lemma {:induction false} NoneOfKey<T>(s: seq<T>, key: T -> int, v: int)
    requires forall y :: y in s ==> v < key(y)
    ensures OfKey(s, key, v) == []
  {
    if s != [] {
      assert s == [s[0]] + s[1..];
      NoneOfKey(s[1..], key, v);
    }
  }

  lemma BeforeAll<T>(s: seq<T>, x: T, key: T -> int, v: int)
    requires SortedBy(s, key) && s != [] && key(x) < key(s[0])
    ensures If(x, key, v) + OfKey(s, key, v) == OfKey(s, key, v) + If(x, key, v)
  {
    if key(x) == v {
      FirstIsLeast(s, key);
      assert s == [s[0]] + s[1..];
      NoneOfKey(s, key, v);
    }
  }

  lemma {:induction false} InsertIsStable<T>(s: seq<T>, x: T, key: T -> int, v: int)
    requires SortedBy(s, key)
    ensures OfKey(Insert(s, x, key), key, v) == OfKey(s, key, v) + If(x, key, v)
  {
    hide OfKey, If;
    if s == [] {
      OfKeyLast(s, x, key, v);
      assert [x] + s == s + [x];
    } else if key(x) < key(s[0]) {
      OfKeyHead(x, s, key, v);
      BeforeAll(s, x, key, v);
    } else {
      FirstIsLeast(s, key);
      hide SortedBy;
      InsertIsStable(s[1..], x, key, v);
      OfKeyHead(s[0], s[1..], key, v);
      OfKeyHead(s[0], Insert(s[1..], x, key), key, v);
      assert s == [s[0]] + s[1..];
    }
  }

  /** Elements of the same key keep their order. */
  lemma {:induction false} SortIsStable<T>(s: seq<T>, key: T -> int, v: int)
    ensures OfKey(Sort(s, key), key, v) == OfKey(s, key, v)
  {
    if s != [] {
      hide OfKey, If, SortedBy;
      var n := |s| - 1;
      SortIsStable(s[..n], key, v);
      SortMeaning(s[..n], key);
      InsertIsStable(Sort(s[..n], key), s[n], key, v);
      OfKeyLast(s[..n], s[n], key, v);
      assert s == s[..n] + [s[n]];
    }
  }

  lemma SmallerIsEarlier<T>(s: seq<T>, key: T -> int, i: nat, j: nat)
    requires SortedBy(s, key) && i < |s| && j < |s| && key(s[i]) < key(s[j])
    ensures i < j
  {
  }

  /** What a prefix leaves out is no smaller than anything it holds. */
  lemma PrefixIsLeast<T>(s: seq<T>, key: T -> int, n: nat, x: T, y: T)
    requires SortedBy(s, key) && n <= |s| && x in s[..n] && y in s && y !in s[..n]
    ensures key(x) <= key(y)
  {
    var i :| 0 <= i < n && s[..n][i] == x;
    assert s == s[..n] + s[n..];
    var j :| 0 <= j < |s| - n && s[n..][j] == y;
    assert s[i] == x && s[n + j] == y;
  }
}
