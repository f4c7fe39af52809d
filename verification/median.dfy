/** The statistic `DataFrame.median()` computes per column: the middle of the
    sorted non-missing values, or the mean of the two middle ones. */
module Median {
  import opened Values

  predicate Sorted(s: seq<real>) {
    forall i, j :: 0 <= i < j < |s| ==> s[i] <= s[j]
  }

  function Insert(x: real, s: seq<real>): (r: seq<real>)
    ensures |r| == |s| + 1
  {
    if |s| == 0 || x <= s[0] then [x] + s
    else [s[0]] + Insert(x, s[1..])
  }

  /** Inserting adds exactly the one element. */
  lemma {:induction false} InsertPermutation(x: real, s: seq<real>)
    ensures multiset(Insert(x, s)) == multiset(s) + multiset{x}
  {
    if |s| > 0 && x > s[0] {
      var t := s[1..];
      InsertPermutation(x, t);
      assert s == [s[0]] + t;
      assert Insert(x, s) == [s[0]] + Insert(x, t);
    } else {
      assert Insert(x, s) == [x] + s;
    }
  }

  /** Inserting into a sorted sequence keeps it sorted; the new head is the
      smaller of `x` and the old head. */
  lemma {:induction false} InsertSorted(x: real, s: seq<real>)
    requires Sorted(s)
    ensures Sorted(Insert(x, s))
    ensures Insert(x, s)[0] == if |s| == 0 || x <= s[0] then x else s[0]
  {
    if |s| > 0 && x > s[0] {
      var t := s[1..];
      InsertSorted(x, t);
      var r := Insert(x, t);
      assert s[0] <= r[0];
      assert forall j :: 0 <= j < |r| ==> s[0] <= r[j];
      assert Insert(x, s) == [s[0]] + r;
    } else {
      assert Insert(x, s) == [x] + s;
    }
  }

  /** Insertion sort, the reference ordering of a column's values. */
  function Sort(s: seq<real>): (r: seq<real>)
    ensures |r| == |s|
  {
    if |s| == 0 then [] else Insert(s[0], Sort(s[1..]))
  }

  /** `Sort` yields a sorted arrangement of its input. */
  lemma {:induction false} SortSorted(s: seq<real>)
    ensures Sorted(Sort(s))
    ensures multiset(Sort(s)) == multiset(s)
  {
    if |s| > 0 {
      SortSorted(s[1..]);
      InsertSorted(s[0], Sort(s[1..]));
      InsertPermutation(s[0], Sort(s[1..]));
      assert s == [s[0]] + s[1..];
    }
  }

  lemma SplitHead(a: seq<real>)
    requires |a| > 0
    ensures multiset(a) == multiset{a[0]} + multiset(a[1..])
    ensures multiset(a[1..]) == multiset(a) - multiset{a[0]}
  {
    assert a == [a[0]] + a[1..];
  }

  /** Two sorted arrangements of the same values are the same sequence. */
  lemma {:induction false} SortedUnique(a: seq<real>, b: seq<real>)
    requires Sorted(a) && Sorted(b) && multiset(a) == multiset(b)
    ensures a == b
  {
    if |a| == 0 {
      assert |multiset(b)| == 0;
    } else {
      assert |b| == |multiset(b)| == |a|;
      assert a[0] in multiset(b);
      assert b[0] in multiset(a);
      var i :| 0 <= i < |b| && b[i] == a[0];
      var k :| 0 <= k < |a| && a[k] == b[0];
      assert a[0] == b[0];
      SplitHead(a);
      SplitHead(b);
      SortedUnique(a[1..], b[1..]);
    }
  }

  /** The middle of a sorted sequence, averaging the two middle elements
      when the length is even. */
  function Middle(s: seq<real>): real
    requires |s| > 0
  {
    var n := |s|;
    if n % 2 == 1 then s[n / 2] else (s[n / 2 - 1] + s[n / 2]) / 2.0
  }

  /** Median of a column's non-missing values; None for an empty column
      (pandas yields NaN there). */
  function MedianOf(values: seq<real>): (m: Option<real>)
    ensures m.None? <==> |values| == 0
  {
    if |values| == 0 then None else Some(Middle(Sort(values)))
  }

  /** The median depends only on the multiset of values, not on row order. */
  lemma MedianOrderIndependent(a: seq<real>, b: seq<real>)
    requires multiset(a) == multiset(b)
    ensures MedianOf(a) == MedianOf(b)
  {
    SortSorted(a);
    SortSorted(b);
    SortedUnique(Sort(a), Sort(b));
    assert |a| == |multiset(a)| == |multiset(b)| == |b|;
  }

  /** How many elements of `s` satisfy `p`. */
  function Count(s: seq<real>, p: real -> bool): (n: nat)
    ensures n <= |s|
  {
    if |s| == 0 then 0 else (if p(s[0]) then 1 else 0) + Count(s[1..], p)
  }

  function AtMost(m: real): real -> bool {
    x => x <= m
  }

  function AtLeast(m: real): real -> bool {
    x => x >= m
  }

  lemma {:induction false} CountAppend(a: seq<real>, b: seq<real>, p: real -> bool)
    ensures Count(a + b, p) == Count(a, p) + Count(b, p)
  {
    if |a| == 0 {
      assert a + b == b;
    } else {
      assert (a + b)[1..] == a[1..] + b;
      CountAppend(a[1..], b, p);
    }
  }

  lemma {:induction false} CountPermutation(a: seq<real>, b: seq<real>, p: real -> bool)
    requires multiset(a) == multiset(b)
    ensures Count(a, p) == Count(b, p)
  {
    if |a| == 0 {
      assert |multiset(b)| == 0;
    } else {
      var x := a[0];
      assert x in multiset(b);
      var i :| 0 <= i < |b| && b[i] == x;
      var pre, post := b[..i], b[i + 1..];
      var rest := pre + post;
      assert b == pre + [x] + post;
      assert multiset(b) == multiset(pre) + multiset{x} + multiset(post);
      assert multiset(rest) == multiset(pre) + multiset(post);
      assert multiset(rest) == multiset(b) - multiset{x};
      SplitHead(a);
      assert multiset(a[1..]) == multiset(rest);
      CountPermutation(a[1..], rest, p);
      CountAppend(pre + [x], post, p);
      CountAppend(pre, [x], p);
      CountAppend(pre, post, p);
    }
  }

  lemma {:induction false} CountRange(s: seq<real>, lo: nat, hi: nat, p: real -> bool)
    requires lo <= hi <= |s|
    requires forall i :: lo <= i < hi ==> p(s[i])
    ensures Count(s, p) >= hi - lo
  {
    if lo < hi {
      var t := s[1..];
      assert forall i :: 0 <= i < |t| ==> t[i] == s[i + 1];
      if lo == 0 {
        assert p(s[0]);
        CountRange(t, 0, hi - 1, p);
      } else {
        CountRange(t, lo - 1, hi - 1, p);
      }
    }
  }

  lemma SortedMiddleSplits(s: seq<real>)
    requires |s| > 0 && Sorted(s)
    ensures 2 * Count(s, AtMost(Middle(s))) >= |s|
    ensures 2 * Count(s, AtLeast(Middle(s))) >= |s|
  {
    var n := |s|;
    var m := Middle(s);
    var h := n / 2;
    var lowEnd := if n % 2 == 1 then h + 1 else h;
    assert s[lowEnd - 1] <= m <= s[h];
    forall i | 0 <= i < lowEnd
      ensures AtMost(m)(s[i])
    {
      assert s[i] <= s[lowEnd - 1];
    }
    forall i | h <= i < n
      ensures AtLeast(m)(s[i])
    {
      assert s[h] <= s[i];
    }
    CountRange(s, 0, lowEnd, AtMost(m));
    CountRange(s, h, n, AtLeast(m));
  }

  /** The defining property of a median: at least half of the values lie at
      or below it and at least half lie at or above it. */
  lemma MedianSplitsValues(values: seq<real>)
    requires |values| > 0
    ensures 2 * Count(values, AtMost(MedianOf(values).value)) >= |values|
    ensures 2 * Count(values, AtLeast(MedianOf(values).value)) >= |values|
  {
    var s := Sort(values);
    SortSorted(values);
    var m := MedianOf(values).value;
    SortedMiddleSplits(s);
    CountPermutation(values, s, AtMost(m));
    CountPermutation(values, s, AtLeast(m));
  }
}
