/** Kotlin's `sortedByDescending { key }`: a stable sort that puts the
    elements with the largest key first. The screens use it to order labels
    by confidence and histories by timestamp. */
module Sorting {

  /** Keys never increase from left to right. */
  predicate SortedDescending<T>(s: seq<T>, key: T -> real) {
    forall i, j :: 0 <= i < j < |s| ==> key(s[i]) >= key(s[j])
  }

  /** Prepending an element no smaller than everything after it keeps the
      order. */
  lemma SortedCons<T>(h: T, t: seq<T>, key: T -> real)
    requires SortedDescending(t, key)
    requires forall y :: y in t ==> key(h) >= key(y)
    ensures SortedDescending([h] + t, key)
  {
    var r := [h] + t;
    forall i, j | 0 <= i < j < |r| ensures key(r[i]) >= key(r[j]) {
      if i > 0 {
        assert r[i] == t[i - 1] && r[j] == t[j - 1];
      } else {
        assert r[j] == t[j - 1] && t[j - 1] in t;
      }
    }
  }

  /** Places `x` in front of the first element whose key is not larger than
      its own, so `x` precedes every element of `s` with an equal key. */
  function Insert<T>(x: T, s: seq<T>, key: T -> real): (r: seq<T>)
    requires SortedDescending(s, key)
    ensures SortedDescending(r, key)
    ensures multiset(r) == multiset(s) + multiset{x}
    ensures |r| == |s| + 1
    ensures forall y :: y in r ==> y == x || y in s
    decreases |s|
  {
    if |s| == 0 || key(x) >= key(s[0]) then
      assert forall y :: y in s ==> key(x) >= key(y) by {
        forall y | y in s ensures key(x) >= key(y) {
          var k :| 0 <= k < |s| && s[k] == y;
        }
      }
      SortedCons(x, s, key);
      [x] + s
    else
      InsertAfterHead(x, s, key)
  }

  function InsertAfterHead<T>(x: T, s: seq<T>, key: T -> real): (r: seq<T>)
    requires SortedDescending(s, key)
    requires |s| > 0 && key(x) < key(s[0])
    ensures SortedDescending(r, key)
    ensures multiset(r) == multiset(s) + multiset{x}
    ensures |r| == |s| + 1
    ensures forall y :: y in r ==> y == x || y in s
    decreases |s|, 0
  {
    var tail := s[1..];
    var rest := Insert(x, tail, key);
    assert s == [s[0]] + tail;
    assert multiset(s) == multiset{s[0]} + multiset(tail);
    assert forall y :: y in tail ==> key(s[0]) >= key(y) by {
      forall y | y in tail ensures key(s[0]) >= key(y) {
        var k :| 0 <= k < |tail| && tail[k] == y;
        assert s[k + 1] == y;
      }
    }
    SortedCons(s[0], rest, key);
    [s[0]] + rest
  }

  /** The list ordered by non-increasing key; ties keep their input order. */
  function SortDescending<T>(s: seq<T>, key: T -> real): (r: seq<T>)
    ensures SortedDescending(r, key)
    ensures multiset(r) == multiset(s)
    ensures |r| == |s|
    decreases |s|
  {
    if |s| == 0 then []
    else
      assert s == [s[0]] + s[1..];
      Insert(s[0], SortDescending(s[1..], key), key)
  }

  /** Kotlin's `take(n)`: the first `n` elements, or all of them when fewer. */
  function Take<T>(s: seq<T>, n: nat): (r: seq<T>)
    ensures |r| == if n < |s| then n else |s|
    ensures forall i :: 0 <= i < |r| ==> r[i] == s[i]
  {
    if n < |s| then s[..n] else s
  }

  /** A prefix of a sorted list is sorted, and everything in it has a key no
      smaller than anything after it. */
  lemma TakeOfSorted<T>(sorted: seq<T>, key: T -> real, n: nat)
    requires SortedDescending(sorted, key)
    ensures var top := Take(sorted, n);
            && SortedDescending(top, key)
            && forall i, y :: 0 <= i < |top| && y in sorted[|top|..] ==> key(top[i]) >= key(y)
  {
    var top := Take(sorted, n);
    forall i, y | 0 <= i < |top| && y in sorted[|top|..] ensures key(top[i]) >= key(y) {
      var j :| 0 <= j < |sorted[|top|..]| && sorted[|top|..][j] == y;
      assert sorted[|top| + j] == y;
    }
  }

  /** Splitting a list after its first `n` elements: what is left out is
      exactly the multiset difference. */
  lemma TakeLeavesRest<T>(sorted: seq<T>, n: nat)
    ensures var top := Take(sorted, n);
            && multiset(top) <= multiset(sorted)
            && multiset(sorted) - multiset(top) == multiset(sorted[|top|..])
  {
    var top := Take(sorted, n);
    assert sorted == top + sorted[|top|..];
  }

  /** The first `n` elements of a sorted arrangement of `s`: they are drawn
      from `s`, in order, and nothing left out has a larger key than anything
      kept. */
  lemma TopOf<T>(s: seq<T>, sorted: seq<T>, key: T -> real, n: nat)
    requires SortedDescending(sorted, key) && multiset(sorted) == multiset(s)
    ensures var top := Take(sorted, n);
            && |top| == (if n < |s| then n else |s|)
            && SortedDescending(top, key)
            && multiset(top) <= multiset(s)
            && forall i, y :: 0 <= i < |top| && y in multiset(s) - multiset(top) ==> key(top[i]) >= key(y)
  {
    var top := Take(sorted, n);
    assert |sorted| == |multiset(sorted)| == |s|;
    TakeOfSorted(sorted, key, n);
    TakeLeavesRest(sorted, n);
    forall i, y | 0 <= i < |top| && y in multiset(s) - multiset(top) ensures key(top[i]) >= key(y) {
      assert y in sorted[|top|..];
    }
  }
}
