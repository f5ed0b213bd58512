/**
 * The JavaScript array operations the server methods use: `sort` with a
 * comparator of the form `(a, b) => key(a) - key(b)`, which is a stable sort
 * by an integer key (ECMA-262 requires stability since 2019), `filter`, and
 * `slice` from either end.
 */
module JsArray {

  predicate SortedBy<T>(s: seq<T>, key: T -> int) {
    forall i, j :: 0 <= i < j < |s| ==> key(s[i]) <= key(s[j])
  }

  /** x placed after every element whose key is at most its own. */
  function InsertBy<T>(x: T, s: seq<T>, key: T -> int): (r: seq<T>)
    requires SortedBy(s, key)
    ensures SortedBy(r, key)
    ensures multiset(r) == multiset(s) + multiset{x}
    ensures |r| == |s| + 1
  {
    if |s| == 0 then [x]
    else if key(s[|s| - 1]) <= key(x) then s + [x]
    else
      var init, last := s[..|s| - 1], s[|s| - 1];
      SortedSlice(s, key, 0, |s| - 1);
      var front := InsertBy(x, init, key);
      InsertBeforeLast(x, s, key, front);
      front + [last]
  }

  /** The last element of a sorted sequence, larger than x, may follow any sorted arrangement of the rest and x. */
  lemma InsertBeforeLast<T>(x: T, s: seq<T>, key: T -> int, front: seq<T>)
    requires SortedBy(s, key) && |s| > 0 && key(x) < key(s[|s| - 1])
    requires SortedBy(front, key) && multiset(front) == multiset(s[..|s| - 1]) + multiset{x}
    ensures SortedBy(front + [s[|s| - 1]], key)
    ensures multiset(front + [s[|s| - 1]]) == multiset(s) + multiset{x}
  {
    var init, last := s[..|s| - 1], s[|s| - 1];
    assert multiset(init + [x]) == multiset(init) + multiset{x};
    forall i | 0 <= i < |init + [x]|
      ensures key((init + [x])[i]) <= key(last)
    {
      if i < |init| {
        assert (init + [x])[i] == s[i];
      }
    }
    BoundByMultiset(front, init + [x], key, key(last));
    SortedAppend(front, key, last);
    assert s == init + [last];
  }

  /** A slice of a sorted sequence is sorted. */
  lemma SortedSlice<T>(s: seq<T>, key: T -> int, lo: nat, hi: nat)
    requires SortedBy(s, key)
    requires lo <= hi <= |s|
    ensures SortedBy(s[lo..hi], key)
  {
    var t := s[lo..hi];
    forall i, j | 0 <= i < j < |t|
      ensures key(t[i]) <= key(t[j])
    {
      assert t[i] == s[lo + i] && t[j] == s[lo + j];
    }
  }

  /** A bound on every key of a sequence holds for every key of a permutation of it. */
  lemma BoundByMultiset<T>(f: seq<T>, g: seq<T>, key: T -> int, b: int)
    requires multiset(f) == multiset(g)
    requires forall i :: 0 <= i < |g| ==> key(g[i]) <= b
    ensures forall i :: 0 <= i < |f| ==> key(f[i]) <= b
  {
    forall i | 0 <= i < |f|
      ensures key(f[i]) <= b
    {
      assert f[i] in multiset(f);
      var j := IndexOf(g, f[i]);
    }
  }

  /** A sorted sequence followed by an element no smaller than any of it is sorted. */
  lemma SortedAppend<T>(s: seq<T>, key: T -> int, x: T)
    requires SortedBy(s, key)
    requires forall i :: 0 <= i < |s| ==> key(s[i]) <= key(x)
    ensures SortedBy(s + [x], key)
  {
    var r := s + [x];
    forall i, j | 0 <= i < j < |r|
      ensures key(r[i]) <= key(r[j])
    {
      assert r[i] == s[i];
      if j < |s| {
        assert r[j] == s[j];
      }
    }
  }

  /** Insertion sort, element by element from the front, as a stable sort. */
  function SortBy<T>(s: seq<T>, key: T -> int): (r: seq<T>)
    ensures SortedBy(r, key)
    ensures multiset(r) == multiset(s)
    ensures |r| == |s|
  {
    if |s| == 0 then []
    else
      assert s == s[..|s| - 1] + [s[|s| - 1]];
      InsertBy(s[|s| - 1], SortBy(s[..|s| - 1], key), key)
  }

  /** A sequence already in order is left as it is: this is where stability shows. */
  lemma {:induction false} SortBySorted<T>(s: seq<T>, key: T -> int)
    requires SortedBy(s, key)
    ensures SortBy(s, key) == s
  {
    if |s| > 0 {
      var init, last := s[..|s| - 1], s[|s| - 1];
      assert SortedBy(init, key);
      SortBySorted(init, key);
      assert SortBy(s, key) == InsertBy(last, init, key);
      if |init| > 0 {
        assert key(init[|init| - 1]) <= key(last);
      }
      assert s == init + [last];
    }
  }

  /** An element whose key is strictly below every other element's comes first. */
  lemma SmallestFirst<T>(s: seq<T>, key: T -> int, k: nat)
    requires k < |s|
    requires forall i :: 0 <= i < |s| && i != k ==> key(s[k]) < key(s[i])
    ensures |SortBy(s, key)| > 0 && SortBy(s, key)[0] == s[k]
  {
    var r := SortBy(s, key);
    assert s[k] in multiset(r) by {
      assert s[k] in multiset(s);
    }
    var j :| 0 <= j < |r| && r[j] == s[k];
    assert r[0] in multiset(s);
    var i :| 0 <= i < |s| && s[i] == r[0];
  }

  /** The last n elements, or all of them when there are fewer: `slice(-n)`. */
  function LastN<T>(s: seq<T>, n: nat): (r: seq<T>)
    ensures |r| == if |s| <= n then |s| else n
    ensures forall i :: 0 <= i < |r| ==> r[i] == s[|s| - |r| + i]
  {
    if |s| <= n then s else s[|s| - n..]
  }

  /** The first n elements, or all of them when there are fewer: `slice(0, n)`. */
  function FirstN<T>(s: seq<T>, n: nat): (r: seq<T>)
    ensures |r| == if |s| <= n then |s| else n
    ensures forall i :: 0 <= i < |r| ==> r[i] == s[i]
  {
    if |s| <= n then s else s[..n]
  }

  /**
   * The last n of a sorted copy are in order, come from the sequence, and
   * none of the other elements has a larger key than one of them.
   */
  lemma LastNOfSorted<T>(s: seq<T>, key: T -> int, n: nat)
    ensures var r := LastN(SortBy(s, key), n);
      SortedBy(r, key) &&
      multiset(r) <= multiset(s) &&
      forall e, f :: e in r && f in multiset(s) - multiset(r) ==> key(f) <= key(e)
  {
    var sorted := SortBy(s, key);
    var r := LastN(sorted, n);
    var cut := |sorted| - |r|;
    SplitMultiset(sorted, cut);
    assert r == sorted[cut..];
    SuffixIsLargest(sorted, key, cut);
  }

  lemma SplitMultiset<T>(s: seq<T>, cut: nat)
    requires cut <= |s|
    ensures multiset(s) - multiset(s[cut..]) == multiset(s[..cut])
    ensures multiset(s[cut..]) <= multiset(s)
  {
    assert s == s[..cut] + s[cut..];
  }

  lemma SuffixIsLargest<T>(s: seq<T>, key: T -> int, cut: nat)
    requires cut <= |s| && SortedBy(s, key)
    ensures SortedBy(s[cut..], key)
    ensures forall e, f :: e in s[cut..] && f in multiset(s[..cut]) ==> key(f) <= key(e)
  {
    forall e, f | e in s[cut..] && f in multiset(s[..cut])
      ensures key(f) <= key(e)
    {
      var i :| cut <= i < |s| && s[i] == e;
      var j :| 0 <= j < cut && s[j] == f;
    }
  }

  /** A position of an element of the sequence. */
  lemma {:induction false} IndexOf<T>(s: seq<T>, x: T) returns (i: nat)
    requires x in s
    ensures i < |s| && s[i] == x
  {
    if s[0] == x {
      i := 0;
    } else {
      assert x in s[1..];
      i := IndexOf(s[1..], x);
      i := i + 1;
    }
  }

  /** `filter`: the elements that satisfy p, in their order. */
  function Filter<T>(s: seq<T>, p: T -> bool): (r: seq<T>)
    ensures |r| <= |s|
    ensures forall i :: 0 <= i < |r| ==> p(r[i]) && r[i] in s
    ensures forall i :: 0 <= i < |s| && p(s[i]) ==> s[i] in r
  {
    if |s| == 0 then []
    else
      var init := Filter(s[..|s| - 1], p);
      assert forall i :: 0 <= i < |s| - 1 ==> s[..|s| - 1][i] == s[i];
      if p(s[|s| - 1]) then init + [s[|s| - 1]] else init
  }

  /** Filtering keeps the order: a sequence extended at the end is filtered by extending its filtered copy. */
  lemma FilterAppend<T>(s: seq<T>, x: T, p: T -> bool)
    ensures Filter(s + [x], p) == Filter(s, p) + (if p(x) then [x] else [])
  {
    assert (s + [x])[..|s|] == s;
  }

  lemma {:induction false} FilterAll<T>(s: seq<T>, p: T -> bool)
    requires forall i :: 0 <= i < |s| ==> p(s[i])
    ensures Filter(s, p) == s
  {
    if |s| > 0 {
      FilterAll(s[..|s| - 1], p);
      assert s == s[..|s| - 1] + [s[|s| - 1]];
    }
  }

  lemma {:induction false} FilterNone<T>(s: seq<T>, p: T -> bool)
    requires forall i :: 0 <= i < |s| ==> !p(s[i])
    ensures Filter(s, p) == []
  {
    if |s| > 0 {
      FilterNone(s[..|s| - 1], p);
    }
  }

  /** Filtering a sorted sequence leaves it sorted. */
  lemma {:induction false} FilterSorted<T>(s: seq<T>, key: T -> int, p: T -> bool)
    requires SortedBy(s, key)
    ensures SortedBy(Filter(s, p), key)
  {
    if |s| > 0 {
      var init, last := s[..|s| - 1], s[|s| - 1];
      SortedSlice(s, key, 0, |s| - 1);
      FilterSorted(init, key, p);
      assert s == init + [last];
      FilterAppend(init, last, p);
      var f := Filter(init, p);
      if p(last) {
        forall i | 0 <= i < |f|
          ensures key(f[i]) <= key(last)
        {
          var j := IndexOf(init, f[i]);
          assert s[j] == f[i];
        }
        SortedAppend(f, key, last);
      }
    }
  }

  /** The last n of a sorted sequence, followed by an element no smaller than any of it, are sorted. */
  lemma LastNSortedAppend<T>(s: seq<T>, key: T -> int, n: nat, x: T)
    requires SortedBy(s, key)
    requires forall i :: 0 <= i < |s| ==> key(s[i]) <= key(x)
    ensures SortedBy(LastN(s, n) + [x], key)
  {
    var kept := LastN(s, n);
    var offset := |s| - |kept|;
    assert kept == s[offset..|s|];
    SortedSlice(s, key, offset, |s|);
    forall i | 0 <= i < |kept|
      ensures key(kept[i]) <= key(x)
    {
      assert kept[i] == s[offset + i];
    }
    SortedAppend(kept, key, x);
  }
}
