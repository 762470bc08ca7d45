/**
 * DataFrame.sort_values(..., ascending=False) followed by head(n), over
 * rows carrying a numeric sort key.
 */
module Sorting {

  /** Keys never increase from left to right. */
  predicate NonIncreasing<T>(s: seq<T>, key: T -> real)
  {
    forall i, j :: 0 <= i < j < |s| ==> key(s[i]) >= key(s[j])
  }

  function InsertDesc<T>(x: T, s: seq<T>, key: T -> real): (r: seq<T>)
    requires NonIncreasing(s, key)
    ensures NonIncreasing(r, key)
    ensures multiset(r) == multiset(s) + multiset{x}
  {
    if s == [] then [x]
    else if key(x) >= key(s[0]) then [x] + s
    else
      assert s == [s[0]] + s[1..];
      var rest := InsertDesc(x, s[1..], key);
      PrependKeepsOrder(s[0], rest, s[1..], x, key);
      [s[0]] + rest
  }

  /** Putting a head in front keeps the order when it beats the inserted x and the old tail. */
  lemma PrependKeepsOrder<T>(h: T, rest: seq<T>, tail: seq<T>, x: T, key: T -> real)
    requires NonIncreasing(rest, key)
    requires multiset(rest) == multiset(tail) + multiset{x}
    requires key(h) > key(x)
    requires forall j :: 0 <= j < |tail| ==> key(h) >= key(tail[j])
    ensures NonIncreasing([h] + rest, key)
  {
    forall j | 0 <= j < |rest| ensures key(h) >= key(rest[j]) {
      assert rest[j] in multiset(rest);
      if rest[j] != x {
        assert rest[j] in multiset(tail);
        var k :| 0 <= k < |tail| && tail[k] == rest[j];
      }
    }
    var r := [h] + rest;
    forall i, j | 0 <= i < j < |r| ensures key(r[i]) >= key(r[j]) {
      if i > 0 {
        assert r[i] == rest[i - 1] && r[j] == rest[j - 1];
      } else {
        assert r[j] == rest[j - 1];
      }
    }
  }

  /**
   * A descending sort: the result has non-increasing keys and is a
   * permutation of the input.  Stability is not promised.
   */
  function SortDesc<T>(s: seq<T>, key: T -> real): (r: seq<T>)
    ensures NonIncreasing(r, key)
    ensures multiset(r) == multiset(s)
  {
    if s == [] then []
    else
      assert s == [s[0]] + s[1..];
      InsertDesc(s[0], SortDesc(s[1..], key), key)
  }

  /** Series.head(n) / DataFrame.head(n): the first min(n, |s|) rows. */
  function Head<T>(s: seq<T>, n: nat): (r: seq<T>)
    ensures |r| == if n <= |s| then n else |s|
    ensures r == s[..|r|]
  {
    if n <= |s| then s[..n] else s
  }

  /**
   * The first element of a non-increasing permutation of s is an element of
   * s with the largest key.
   */
  lemma FirstIsLargest<T>(r: seq<T>, s: seq<T>, key: T -> real)
    requires NonIncreasing(r, key)
    requires multiset(r) == multiset(s)
    requires |r| > 0
    ensures r[0] in s
    ensures forall h :: 0 <= h < |s| ==> key(r[0]) >= key(s[h])
  {
    assert r[0] in multiset(s);
    forall h | 0 <= h < |s| ensures key(r[0]) >= key(s[h]) {
      assert s[h] in multiset(r);
      var j :| 0 <= j < |r| && r[j] == s[h];
    }
  }

  /**
   * On a descending ordering, every row the head leaves out has a key no
   * larger than any row it keeps.
   */
  lemma HeadDominates<T>(s: seq<T>, key: T -> real, n: nat)
    requires NonIncreasing(s, key)
    ensures forall x, i :: x in multiset(s) - multiset(Head(s, n)) && 0 <= i < |Head(s, n)| ==>
      key(Head(s, n)[i]) >= key(x)
  {
    var h := Head(s, n);
    var m := |h|;
    assert s == h + s[m..];
    assert multiset(s) - multiset(h) == multiset(s[m..]);
    forall x, i | x in multiset(s) - multiset(h) && 0 <= i < m
      ensures key(h[i]) >= key(x)
    {
      assert x in s[m..];
      var k :| 0 <= k < |s| - m && s[m..][k] == x;
      assert s[m + k] == x;
    }
  }
}
