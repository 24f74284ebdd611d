/** The query shapes the repositories use for listings: `Where`, then
    `OrderByDescending`, then `Skip((pageNumber - 1) * pageSize).Take(pageSize)`. */
module Paging {

  /** LINQ `Where`: the elements satisfying `p`, in their original order. */
  function Where<T>(xs: seq<T>, p: T -> bool): (r: seq<T>)
    ensures forall i :: 0 <= i < |r| ==> p(r[i]) && r[i] in xs
    ensures forall i :: 0 <= i < |xs| && p(xs[i]) ==> xs[i] in r
    ensures |r| <= |xs|
  {
    if xs == [] then []
    else
      var rest := Where(xs[1..], p);
      assert forall i :: 1 <= i < |xs| ==> xs[i] == xs[1..][i - 1];
      assert forall y :: y in xs[1..] ==> y in xs;
      if p(xs[0]) then [xs[0]] + rest else rest
  }

  /** `Where` keeps each satisfying element as often as it occurs and drops
      every other one. */
  lemma {:induction false} WhereCounts<T>(xs: seq<T>, p: T -> bool, x: T)
    ensures multiset(Where(xs, p))[x] == if p(x) then multiset(xs)[x] else 0
  {
    if xs != [] {
      WhereCounts(xs[1..], p, x);
      assert xs == [xs[0]] + xs[1..];
      assert multiset(xs) == multiset{xs[0]} + multiset(xs[1..]);
      var rest := Where(xs[1..], p);
      if p(xs[0]) {
        assert Where(xs, p) == [xs[0]] + rest;
        assert multiset([xs[0]] + rest) == multiset{xs[0]} + multiset(rest);
      }
    }
  }

  /** Keys never increase from left to right. */
  predicate SortedDescending<T>(xs: seq<T>, key: T -> int) {
    forall i, j :: 0 <= i < j < |xs| ==> key(xs[i]) >= key(xs[j])
  }

  /** Places `x` in front of the first element whose key does not exceed its own. */
  function Insert<T>(x: T, xs: seq<T>, key: T -> int): (r: seq<T>)
    requires SortedDescending(xs, key)
    ensures SortedDescending(r, key)
    ensures |r| == |xs| + 1
    ensures forall i :: 0 <= i < |r| ==> r[i] == x || r[i] in xs
  {
    if xs == [] then [x]
    else if key(xs[0]) <= key(x) then [x] + xs
    else
      var rest := Insert(x, xs[1..], key);
      HeadBoundsRest(xs[0], x, xs[1..], rest, key);
      var r := [xs[0]] + rest;
      assert forall i :: 1 <= i < |r| ==> r[i] == rest[i - 1];
      assert forall i :: 0 <= i < |xs| - 1 ==> xs[1..][i] == xs[i + 1];
      r
  }

  /** Insertion adds exactly one occurrence of `x`. */
  lemma {:induction false} InsertCounts<T>(x: T, xs: seq<T>, key: T -> int)
    requires SortedDescending(xs, key)
    ensures multiset(Insert(x, xs, key)) == multiset(xs) + multiset{x}
  {
    if xs != [] && key(xs[0]) > key(x) {
      InsertCounts(x, xs[1..], key);
      assert xs == [xs[0]] + xs[1..];
      var rest := Insert(x, xs[1..], key);
      assert Insert(x, xs, key) == [xs[0]] + rest;
    }
  }

  lemma HeadBoundsRest<T>(h: T, x: T, tail: seq<T>, rest: seq<T>, key: T -> int)
    requires SortedDescending([h] + tail, key)
    requires key(x) < key(h)
    requires SortedDescending(rest, key)
    requires forall i :: 0 <= i < |rest| ==> rest[i] == x || rest[i] in tail
    ensures SortedDescending([h] + rest, key)
  {
    forall j | 0 <= j < |rest|
      ensures key(h) >= key(rest[j])
    {
      if rest[j] != x {
        var k :| 0 <= k < |tail| && tail[k] == rest[j];
        assert ([h] + tail)[k + 1] == tail[k] && ([h] + tail)[0] == h;
        assert key(([h] + tail)[0]) >= key(([h] + tail)[k + 1]);
      }
    }
    var s := [h] + rest;
    forall i, j | 0 <= i < j < |s|
      ensures key(s[i]) >= key(s[j])
    {
      if i > 0 {
        assert s[i] == rest[i - 1] && s[j] == rest[j - 1];
      } else {
        assert s[j] == rest[j - 1];
      }
    }
  }

  /** LINQ `OrderByDescending(key)`: the elements of `xs` with keys never increasing. */
  function SortDescending<T>(xs: seq<T>, key: T -> int): (r: seq<T>)
    ensures SortedDescending(r, key)
    ensures |r| == |xs|
  {
    if xs == [] then [] else Insert(xs[0], SortDescending(xs[1..], key), key)
  }

  /** The sorted listing is a permutation of its input. */
  lemma {:induction false} SortPermutes<T>(xs: seq<T>, key: T -> int)
    ensures multiset(SortDescending(xs, key)) == multiset(xs)
  {
    if xs != [] {
      SortPermutes(xs[1..], key);
      InsertCounts(xs[0], SortDescending(xs[1..], key), key);
      assert xs == [xs[0]] + xs[1..];
    }
  }

  /** LINQ `Skip(n)`: a count of zero or less skips nothing. */
  function Skip<T>(xs: seq<T>, n: int): seq<T> {
    if n <= 0 then xs else if n >= |xs| then [] else xs[n..]
  }

  /** LINQ `Take(n)`: a count of zero or less takes nothing. */
  function Take<T>(xs: seq<T>, n: int): seq<T> {
    if n <= 0 then [] else if n >= |xs| then xs else xs[..n]
  }

  function Min(a: int, b: int): int { if a <= b then a else b }

  /** How many elements precede page `pageNumber` (counted from 1). */
  function Offset(pageNumber: int, pageSize: int): int {
    (pageNumber - 1) * pageSize
  }

  /** `Skip(lo).Take(size)`: at most `size` elements starting at position `lo`. */
  function Window<T>(xs: seq<T>, lo: int, size: int): (r: seq<T>)
    ensures size <= 0 ==> r == []
    ensures size > 0 ==> |r| <= size
    ensures size > 0 && 0 <= lo < |xs| ==> r == xs[lo..Min(lo + size, |xs|)]
    ensures size > 0 && lo >= |xs| ==> r == []
    ensures size > 0 && lo < 0 ==> r == xs[..Min(size, |xs|)]
    ensures lo <= 0 && size >= |xs| ==> r == xs
    ensures forall i :: 0 <= i < |r| ==> r[i] in xs
  {
    Take(Skip(xs, lo), size)
  }

  /** A window of a sorted listing is sorted. */
  lemma WindowKeepsOrder<T>(xs: seq<T>, lo: int, size: int, key: T -> int)
    requires SortedDescending(xs, key)
    ensures SortedDescending(Window(xs, lo, size), key)
  {
    var r := Window(xs, lo, size);
    if size > 0 && 0 <= lo < |xs| {
      assert r == xs[lo..Min(lo + size, |xs|)];
      forall i, j | 0 <= i < j < |r|
        ensures key(r[i]) >= key(r[j])
      {
        assert r[i] == xs[lo + i] && r[j] == xs[lo + j];
      }
    } else if size > 0 && lo < 0 {
      assert r == xs[..Min(size, |xs|)];
      forall i, j | 0 <= i < j < |r|
        ensures key(r[i]) >= key(r[j])
      {
        assert r[i] == xs[i] && r[j] == xs[j];
      }
    }
  }

  /** Page `pageNumber` (counted from 1) of `pageSize` elements. */
  function Page<T>(xs: seq<T>, pageNumber: int, pageSize: int): (r: seq<T>)
    ensures pageSize <= 0 ==> r == []
    ensures pageSize > 0 ==> |r| <= pageSize
    ensures pageSize > 0 && 0 <= Offset(pageNumber, pageSize) < |xs| ==>
              r == xs[Offset(pageNumber, pageSize) .. Min(Offset(pageNumber, pageSize) + pageSize, |xs|)]
    ensures pageSize > 0 && Offset(pageNumber, pageSize) >= |xs| ==> r == []
    ensures pageSize > 0 && Offset(pageNumber, pageSize) < 0 ==> r == xs[..Min(pageSize, |xs|)]
    ensures pageNumber == 1 && pageSize >= |xs| ==> r == xs
    ensures forall i :: 0 <= i < |r| ==> r[i] in xs
  {
    assert pageNumber == 1 ==> Offset(pageNumber, pageSize) == 0;
    Window(xs, Offset(pageNumber, pageSize), pageSize)
  }

  /** A page of a sorted listing is sorted. */
  lemma PageKeepsOrder<T>(xs: seq<T>, pageNumber: int, pageSize: int, key: T -> int)
    requires SortedDescending(xs, key)
    ensures SortedDescending(Page(xs, pageNumber, pageSize), key)
  {
    WindowKeepsOrder(xs, Offset(pageNumber, pageSize), pageSize, key);
  }

  /** `s` is `xs` reordered so that keys never increase. The order among equal
      keys is left open, as it is for an SQL `ORDER BY`. */
  ghost predicate SortingOf<T>(s: seq<T>, xs: seq<T>, key: T -> int) {
    multiset(s) == multiset(xs) && SortedDescending(s, key)
  }

  /** A listing query: the rows satisfying `p`, largest key first, cut to page
      `pageNumber` of `pageSize`. */
  function Listing<T(!new)>(rows: seq<T>, p: T -> bool, key: T -> int, pageNumber: int, pageSize: int): (r: seq<T>)
    ensures exists s :: SortingOf(s, Where(rows, p), key) && r == Page(s, pageNumber, pageSize)
    ensures forall i :: 0 <= i < |r| ==> p(r[i]) && r[i] in rows
    ensures SortedDescending(r, key)
    ensures pageSize <= 0 ==> r == []
    ensures pageSize > 0 ==> |r| <= pageSize
    ensures pageNumber == 1 && pageSize >= |rows| ==>
              forall i :: 0 <= i < |rows| && p(rows[i]) ==> rows[i] in r
  {
    ListingFacts(rows, p, key, pageNumber, pageSize);
    var sorted := SortDescending(Where(rows, p), key);
    SortPermutes(Where(rows, p), key);
    assert SortingOf(sorted, Where(rows, p), key);
    Page(sorted, pageNumber, pageSize)
  }

  lemma ListingFacts<T>(rows: seq<T>, p: T -> bool, key: T -> int, pageNumber: int, pageSize: int)
    ensures var r := Page(SortDescending(Where(rows, p), key), pageNumber, pageSize);
      && (forall i :: 0 <= i < |r| ==> p(r[i]) && r[i] in rows)
      && SortedDescending(r, key)
      && (pageNumber == 1 && pageSize >= |rows| ==>
            forall i :: 0 <= i < |rows| && p(rows[i]) ==> rows[i] in r)
  {
    var matching := Where(rows, p);
    var sorted := SortDescending(matching, key);
    var r := Page(sorted, pageNumber, pageSize);
    SortPermutes(matching, key);
    PageKeepsOrder(sorted, pageNumber, pageSize, key);
    forall i | 0 <= i < |r|
      ensures p(r[i]) && r[i] in rows
    {
      assert r[i] in sorted;
      assert r[i] in multiset(sorted);
      assert r[i] in matching;
    }
    if pageNumber == 1 && pageSize >= |rows| {
      assert r == sorted;
      forall i | 0 <= i < |rows| && p(rows[i])
        ensures rows[i] in r
      {
        assert rows[i] in matching;
        assert rows[i] in multiset(matching);
      }
    }
  }

  /** Pages 1 to `count` laid end to end. */
  function FirstPages<T>(xs: seq<T>, count: nat, pageSize: int): seq<T> {
    if count == 0 then [] else FirstPages(xs, count - 1, pageSize) + Page(xs, count, pageSize)
  }

  /** Consecutive pages tile the listing: the first `count` pages together are
      exactly its first `count * pageSize` elements, with no gap and no overlap. */
  lemma {:induction false} PagesTile<T>(xs: seq<T>, count: nat, pageSize: int)
    requires pageSize > 0
    ensures FirstPages(xs, count, pageSize) == xs[..Min(count * pageSize, |xs|)]
  {
    if count > 0 {
      PagesTile(xs, count - 1, pageSize);
      var prev := (count - 1) * pageSize;
      var cur := count * pageSize;
      NextOffset(count, pageSize);
      var lo := Min(prev, |xs|);
      var hi := Min(cur, |xs|);
      if prev < |xs| {
        assert Page(xs, count, pageSize) == xs[prev..hi];
      } else {
        assert Page(xs, count, pageSize) == [];
      }
      SliceJoin(xs, lo, hi);
    }
  }

  lemma NextOffset(count: nat, pageSize: int)
    requires count > 0 && pageSize > 0
    ensures Offset(count, pageSize) == (count - 1) * pageSize
    ensures 0 <= (count - 1) * pageSize && (count - 1) * pageSize + pageSize == count * pageSize
  {
  }

  lemma SliceJoin<T>(xs: seq<T>, lo: int, hi: int)
    requires 0 <= lo <= hi <= |xs|
    ensures xs[..lo] + xs[lo..hi] == xs[..hi]
  {
  }
}
