/**
 * The LINQ operators the service applies to readings and alerts — `Where`,
 * `OrderByDescending`, `Take`, `Min`, `Max`, `Sum` / `Average` — on sequences.
 */
module Sequences {

  /** `Take(k)`: the first `k` elements, all of them when there are fewer, none when `k <= 0`. */
  function Take<T>(s: seq<T>, k: int): (r: seq<T>)
    ensures |r| == if k <= 0 then 0 else if k < |s| then k else |s|
    ensures r == s[..|r|]
  {
    if k <= 0 then [] else if k < |s| then s[..k] else s
  }

  lemma TakeCons<T>(x: T, s: seq<T>, k: int)
    requires k >= 1
    ensures Take([x] + s, k) == [x] + Take(s, k - 1)
  {
  }

  /** `Where(p)`: the elements satisfying `p`, each as often as in `s`. */
  function Filter<T(!new)>(s: seq<T>, p: T -> bool): (r: seq<T>)
    ensures forall x :: multiset(r)[x] == if p(x) then multiset(s)[x] else 0
    ensures forall i :: 0 <= i < |r| ==> p(r[i])
  {
    if s == [] then []
    else
      var init, last := s[..|s| - 1], s[|s| - 1];
      assert s == init + [last];
      Filter(init, p) + (if p(last) then [last] else [])
  }

  lemma FilterAppend<T(!new)>(s: seq<T>, x: T, p: T -> bool)
    ensures Filter(s + [x], p) == Filter(s, p) + (if p(x) then [x] else [])
  {
    assert (s + [x])[..|s|] == s;
  }

  /** `key` never increases along `s`. */
  predicate SortedDesc<T>(s: seq<T>, key: T -> int) {
    forall i, j :: 0 <= i < j < |s| ==> key(s[i]) >= key(s[j])
  }

  /** Places `x` in front of the first element whose key is not larger. */
  function Insert<T>(x: T, s: seq<T>, key: T -> int): (r: seq<T>)
    requires SortedDesc(s, key)
    ensures SortedDesc(r, key)
    ensures multiset(r) == multiset(s) + multiset{x}
    ensures |r| == |s| + 1
    ensures forall i :: 0 <= i < |r| ==> r[i] == x || r[i] in s
  {
    if s == [] || key(s[0]) <= key(x) then [x] + s
    else
      var rest := Insert(x, s[1..], key);
      assert s == [s[0]] + s[1..];
      HeadIsLargest(s, key);
      PrependSorted(s[0], rest, key);
      [s[0]] + rest
  }

  lemma HeadIsLargest<T>(s: seq<T>, key: T -> int)
    requires SortedDesc(s, key) && s != []
    ensures forall y :: y in s ==> key(y) <= key(s[0])
  {
  }

  lemma PrependSorted<T>(y: T, t: seq<T>, key: T -> int)
    requires SortedDesc(t, key)
    requires forall k :: 0 <= k < |t| ==> key(t[k]) <= key(y)
    ensures SortedDesc([y] + t, key)
  {
  }

  /**
   * `OrderByDescending(key)`: a sorted permutation of `s`. Among equal keys a
   * later element of `s` comes first.
   */
  function SortDesc<T>(s: seq<T>, key: T -> int): (r: seq<T>)
    ensures SortedDesc(r, key)
    ensures multiset(r) == multiset(s)
    ensures |r| == |s|
  {
    if s == [] then []
    else
      var init := s[..|s| - 1];
      assert s == init + [s[|s| - 1]];
      Insert(s[|s| - 1], SortDesc(init, key), key)
  }

  /** An element whose key is at least every key in `s` is placed first. */
  lemma SortDescNewest<T>(s: seq<T>, x: T, key: T -> int)
    requires forall i :: 0 <= i < |s| ==> key(s[i]) <= key(x)
    ensures SortDesc(s + [x], key) == [x] + SortDesc(s, key)
  {
    assert (s + [x])[..|s|] == s;
    var sorted := SortDesc(s, key);
    if sorted != [] {
      assert sorted[0] in multiset(s);
    }
  }

  /**
   * The first `k` of a sequence sorted by `key` descending are the `k` largest:
   * no element left out has a larger key than any element taken.
   */
  lemma TakeSortedIsNewest<T>(s: seq<T>, key: T -> int, k: int)
    ensures var r := Take(SortDesc(s, key), k);
      && SortedDesc(r, key)
      && multiset(r) <= multiset(s)
      && forall x, j :: x in multiset(s) - multiset(r) && 0 <= j < |r| ==> key(x) <= key(r[j])
  {
    var sorted := SortDesc(s, key);
    var r := Take(sorted, k);
    var rest := sorted[|r|..];
    assert SortedDesc(r, key) by {
      PrefixSorted(sorted, |r|, key);
    }
    assert multiset(s) == multiset(r) + multiset(rest) by {
      assert sorted == r + rest;
    }
    assert forall x, j :: x in multiset(rest) && 0 <= j < |r| ==> key(x) <= key(r[j]) by {
      assert sorted == r + rest;
      SplitSorted(r, rest, key);
    }
  }

  lemma PrefixSorted<T>(s: seq<T>, n: nat, key: T -> int)
    requires SortedDesc(s, key) && n <= |s|
    ensures SortedDesc(s[..n], key)
  {
  }

  /** In a sorted `r + rest`, nothing in `rest` has a larger key than anything in `r`. */
  lemma SplitSorted<T>(r: seq<T>, rest: seq<T>, key: T -> int)
    requires SortedDesc(r + rest, key)
    ensures forall x, j :: x in multiset(rest) && 0 <= j < |r| ==> key(x) <= key(r[j])
  {
    var all := r + rest;
    forall x, j | x in multiset(rest) && 0 <= j < |r|
      ensures key(x) <= key(r[j])
    {
      assert x in rest;
      var m :| 0 <= m < |rest| && rest[m] == x;
      assert all[|r| + m] == x && all[j] == r[j];
    }
  }

  /** `Sum(x => x)`, added up from the front. */
  function Sum(s: seq<real>): real {
    if s == [] then 0.0 else Sum(s[..|s| - 1]) + s[|s| - 1]
  }

  /** `Min()`: an element of `s` no larger than any other. */
  function Min(s: seq<real>): (m: real)
    requires s != []
    ensures m in s
    ensures forall i :: 0 <= i < |s| ==> m <= s[i]
  {
    if |s| == 1 then s[0]
    else
      var rest := Min(s[1..]);
      assert s == [s[0]] + s[1..];
      if s[0] <= rest then s[0] else rest
  }

  /** `Max()`: an element of `s` no smaller than any other. */
  function Max(s: seq<real>): (m: real)
    requires s != []
    ensures m in s
    ensures forall i :: 0 <= i < |s| ==> s[i] <= m
  {
    if |s| == 1 then s[0]
    else
      var rest := Max(s[1..]);
      assert s == [s[0]] + s[1..];
      if s[0] >= rest then s[0] else rest
  }

  /** A sum of `|s|` terms inside `[lo, hi]` lies between `|s| * lo` and `|s| * hi`. */
  lemma {:induction false} SumBounds(s: seq<real>, lo: real, hi: real)
    requires forall i :: 0 <= i < |s| ==> lo <= s[i] <= hi
    ensures |s| as real * lo <= Sum(s) <= |s| as real * hi
  {
    if s != [] {
      SumBounds(s[..|s| - 1], lo, hi);
    }
  }

  /** `Average()` over a non-empty sequence lies between its `Min()` and its `Max()`. */
  lemma AverageWithinRange(s: seq<real>)
    requires s != []
    ensures Min(s) <= Sum(s) / |s| as real <= Max(s)
  {
    AverageWithinBounds(s, Min(s), Max(s));
  }

  lemma AverageWithinBounds(s: seq<real>, lo: real, hi: real)
    requires s != []
    requires forall i :: 0 <= i < |s| ==> lo <= s[i] <= hi
    ensures lo <= Sum(s) / |s| as real <= hi
  {
    SumBounds(s, lo, hi);
    DivideBounds(Sum(s), |s| as real, lo, hi);
  }

  lemma DivideBounds(a: real, n: real, lo: real, hi: real)
    requires n > 0.0 && n * lo <= a <= n * hi
    ensures lo <= a / n <= hi
  {
    var q := a / n;
    assert a == q * n;
    assert (q - lo) * n >= 0.0;
    assert (hi - q) * n >= 0.0;
  }
}
