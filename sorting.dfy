/**
 * Ordering by a numeric key, largest first. `SortDesc` is a stable insertion
 * sort: it is what `Array.prototype.sort` does with the comparator
 * `(a, b) => key(b) - key(a)` (the sort is stable since ES2019), and it is one
 * admissible answer to an SQL `ORDER BY key DESC` whose ties the store leaves
 * unordered.
 */
module Sorting {

  ghost predicate SortedDesc<T>(s: seq<T>, key: T -> int) {
    forall i, j :: 0 <= i < j < |s| ==> key(s[i]) >= key(s[j])
  }

  /** Every element of `s` has a key of at most `k`. */
  ghost predicate AllAtMost<T>(s: seq<T>, key: T -> int, k: int) {
    forall i :: 0 <= i < |s| ==> key(s[i]) <= k
  }

  /** Places `x` before the first element whose key is not larger than its own. */
  function Insert<T>(x: T, s: seq<T>, key: T -> int): (r: seq<T>)
    ensures |r| == |s| + 1
    ensures multiset(r) == multiset(s) + multiset{x}
  {
    if s == [] || key(x) >= key(s[0]) then [x] + s
    else
      assert s == [s[0]] + s[1..];
      [s[0]] + Insert(x, s[1..], key)
  }

  /** Stable sort, largest key first. */
  function SortDesc<T>(s: seq<T>, key: T -> int): (r: seq<T>)
    ensures |r| == |s|
    ensures multiset(r) == multiset(s)
  {
    if s == [] then []
    else
      assert s == [s[0]] + s[1..];
      Insert(s[0], SortDesc(s[1..], key), key)
  }

  lemma {:induction false} InsertAtMost<T>(x: T, s: seq<T>, key: T -> int, k: int)
    requires AllAtMost(s, key, k) && key(x) <= k
    ensures AllAtMost(Insert(x, s, key), key, k)
  {
    if s == [] || key(x) >= key(s[0]) {
    } else {
      InsertAtMost(x, s[1..], key, k);
    }
  }

  lemma {:induction false} InsertSorted<T>(x: T, s: seq<T>, key: T -> int)
    requires SortedDesc(s, key)
    ensures SortedDesc(Insert(x, s, key), key)
  {
    if s == [] || key(x) >= key(s[0]) {
    } else {
      InsertSorted(x, s[1..], key);
      InsertAtMost(x, s[1..], key, key(s[0]));
    }
  }

  /** The result of `SortDesc` is in non-increasing key order. */
  lemma {:induction false} SortDescSorted<T>(s: seq<T>, key: T -> int)
    ensures SortedDesc(SortDesc(s, key), key)
  {
    if s != [] {
      SortDescSorted(s[1..], key);
      InsertSorted(s[0], SortDesc(s[1..], key), key);
    }
  }

  /**
   * Reference definition of the head of a stable descending sort: the index
   * of the first element whose key is maximal.
   */
  function FirstMax<T>(s: seq<T>, key: T -> int): (m: nat)
    requires s != []
    ensures m < |s|
    ensures forall j :: 0 <= j < |s| ==> key(s[j]) <= key(s[m])
    ensures forall j :: 0 <= j < m ==> key(s[j]) < key(s[m])
  {
    if |s| == 1 then 0
    else
      var m := FirstMax(s[1..], key);
      assert forall j :: 1 <= j < |s| ==> s[j] == s[1..][j - 1];
      if key(s[0]) >= key(s[1 + m]) then 0 else 1 + m
  }

  /** The head of a sorted sequence carries its largest key. */
  lemma HeadIsMax<T>(s: seq<T>, key: T -> int)
    requires SortedDesc(s, key) && s != []
    ensures AllAtMost(s, key, key(s[0]))
  {
  }

  /**
   * The first element of `SortDesc(s)` is the element of `s` that comes first
   * among those with the largest key: ties go to the earliest.
   */
  lemma {:induction false} SortDescHead<T>(s: seq<T>, key: T -> int)
    requires s != []
    ensures SortDesc(s, key)[0] == s[FirstMax(s, key)]
  {
    if |s| > 1 {
      var t := SortDesc(s[1..], key);
      SortDescHead(s[1..], key);
      SortDescSorted(s[1..], key);
      assert t[0] == s[1..][FirstMax(s[1..], key)];
      // key(t[0]) is the largest key of s[1..]
      var m := FirstMax(s[1..], key);
      assert key(t[0]) == key(s[1 + m]);
    }
  }
  /** The first `k` elements of `SortDesc(s)`: an `ORDER BY key DESC LIMIT k`. */
  function TopK<T>(s: seq<T>, key: T -> int, k: nat): (r: seq<T>)
    ensures |r| == if |s| < k then |s| else k
  {
    var sorted := SortDesc(s, key);
    sorted[..if |sorted| < k then |sorted| else k]
  }

  /**
   * `TopK` keeps at most `k` elements of `s`, in non-increasing key order, and
   * no element it leaves out has a larger key than one it keeps.
   */
  lemma TopKSpec<T>(s: seq<T>, key: T -> int, k: nat)
    ensures var r := TopK(s, key, k);
      SortedDesc(r, key)
      && multiset(r) <= multiset(s)
      && forall x, y :: x in multiset(s) - multiset(r) && y in r ==> key(x) <= key(y)
  {
    var sorted := SortDesc(s, key);
    SortDescSorted(s, key);
    var n := if |sorted| < k then |sorted| else k;
    var r := sorted[..n];
    var rest := sorted[n..];
    assert sorted == r + rest;
    assert multiset(sorted) == multiset(r) + multiset(rest);
    SortedPrefixDominates(sorted, key, n);
  }

  /** In a sequence sorted by non-increasing key, every element behind position `n` has a key no larger than any before it. */
  lemma SortedPrefixDominates<T>(sorted: seq<T>, key: T -> int, n: nat)
    requires SortedDesc(sorted, key) && n <= |sorted|
    ensures forall x, y :: x in multiset(sorted[n..]) && y in sorted[..n] ==> key(x) <= key(y)
  {
    var r := sorted[..n];
    var rest := sorted[n..];
    forall x, y | x in multiset(rest) && y in r
      ensures key(x) <= key(y)
    {
      var a :| 0 <= a < |rest| && rest[a] == x;
      var b :| 0 <= b < |r| && r[b] == y;
      assert sorted[n + a] == x && sorted[b] == y;
    }
  }
}
