/** Sequence operations the pipeline borrows from pandas: `drop_duplicates`,
    boolean-mask row selection and "first row where". */
module Sequences {
  import opened Values

  predicate Distinct<T(==)>(s: seq<T>) {
    forall i, j :: 0 <= i < j < |s| ==> s[i] != s[j]
  }

  /** Position of the first occurrence of `x` in `s`. */
  function FirstIndex<T(==)>(s: seq<T>, x: T): (i: nat)
    requires x in s
    ensures i < |s| && s[i] == x
    ensures forall j :: 0 <= j < i ==> s[j] != x
  {
    if s[0] == x then 0 else 1 + FirstIndex(s[1..], x)
  }

  /** `drop_duplicates()`: every element once, at its first occurrence. */
  function Dedup<T(==)>(s: seq<T>): (r: seq<T>)
    ensures forall i :: 0 <= i < |r| ==> r[i] in s
    ensures forall i :: 0 <= i < |s| ==> s[i] in r
    ensures Distinct(r)
    ensures |r| <= |s|
  {
    if |s| == 0 then []
    else
      var d := Dedup(s[..|s| - 1]);
      var x := s[|s| - 1];
      if x in d then d else d + [x]
  }

  /** Dedup keeps elements in the order of their first occurrence. */
  lemma {:induction false} DedupFirstOccurrenceOrder<T>(s: seq<T>)
    ensures forall i, j :: 0 <= i < j < |Dedup(s)| ==>
      FirstIndex(s, Dedup(s)[i]) < FirstIndex(s, Dedup(s)[j])
  {
    if |s| > 0 {
      var p := s[..|s| - 1];
      var x := s[|s| - 1];
      var d := Dedup(p);
      var r := Dedup(s);
      DedupFirstOccurrenceOrder(p);
      assert s == p + [x];
      forall k | 0 <= k < |d|
        ensures FirstIndex(s, d[k]) == FirstIndex(p, d[k])
      {
        FirstIndexOfPrefix(p, x, d[k]);
      }
      if x in d {
        assert r == d;
      } else {
        assert r == d + [x];
        assert x !in p;
        assert FirstIndex(s, x) == |p|;
        forall i, j | 0 <= i < j < |r|
          ensures FirstIndex(s, r[i]) < FirstIndex(s, r[j])
        {
          if j == |d| {
            assert r[i] == d[i];
          } else {
            assert r[i] == d[i] && r[j] == d[j];
          }
        }
      }
    }
  }

  lemma FirstIndexOfPrefix<T>(p: seq<T>, x: T, y: T)
    requires y in p
    ensures FirstIndex(p + [x], y) == FirstIndex(p, y)
  {
    var s := p + [x];
    var i := FirstIndex(p, y);
    var k := FirstIndex(s, y);
    assert s[i] == y;
    assert p[k] == y by { assert k <= i; }
  }

  /** Deduplicating a second time removes nothing more. */
  lemma {:induction false} DedupIdempotent<T>(s: seq<T>)
    ensures Dedup(Dedup(s)) == Dedup(s)
  {
    DedupOfDistinct(Dedup(s));
  }

  lemma {:induction false} DedupOfDistinct<T>(s: seq<T>)
    requires Distinct(s)
    ensures Dedup(s) == s
  {
    if |s| > 0 {
      var p := s[..|s| - 1];
      DedupOfDistinct(p);
      assert s[|s| - 1] !in p;
      assert s == p + [s[|s| - 1]];
    }
  }

  /** Appending one element keeps a sequence distinct exactly when the
      element is new. */
  lemma DistinctSnoc<T>(s: seq<T>, x: T)
    ensures Distinct(s + [x]) <==> Distinct(s) && x !in s
  {
    var t := s + [x];
    if Distinct(t) {
      forall i, j | 0 <= i < j < |s| ensures s[i] != s[j] {
        assert t[i] == s[i] && t[j] == s[j];
      }
      forall i | 0 <= i < |s| ensures s[i] != x {
        assert t[i] == s[i] && t[|s|] == x;
      }
    }
    if Distinct(s) && x !in s {
      forall i, j | 0 <= i < j < |t| ensures t[i] != t[j] {
        assert t[i] == s[i];
        if j < |s| {
          assert t[j] == s[j];
        }
      }
    }
  }

  /** A concatenation is distinct exactly when both parts are and no
      element of one occurs in the other. */
  lemma DistinctAppend<T>(a: seq<T>, b: seq<T>)
    ensures Distinct(a + b) <==>
      Distinct(a) && Distinct(b) && forall i, j :: 0 <= i < |a| && 0 <= j < |b| ==> a[i] != b[j]
  {
    var t := a + b;
    if Distinct(t) {
      forall i, j | 0 <= i < j < |a| ensures a[i] != a[j] {
        assert t[i] == a[i] && t[j] == a[j];
      }
      forall i, j | 0 <= i < j < |b| ensures b[i] != b[j] {
        assert t[|a| + i] == b[i] && t[|a| + j] == b[j];
      }
      forall i, j | 0 <= i < |a| && 0 <= j < |b| ensures a[i] != b[j] {
        assert t[i] == a[i] && t[|a| + j] == b[j];
      }
    }
    if Distinct(a) && Distinct(b) && forall i, j :: 0 <= i < |a| && 0 <= j < |b| ==> a[i] != b[j] {
      forall i, j | 0 <= i < j < |t| ensures t[i] != t[j] {
        if j < |a| {
          assert t[i] == a[i] && t[j] == a[j];
        } else if i >= |a| {
          assert t[i] == b[i - |a|] && t[j] == b[j - |a|];
        } else {
          assert t[i] == a[i] && t[j] == b[j - |a|];
        }
      }
    }
  }

  /** Two sequences with the same equalities between positions are distinct
      together. */
  lemma DistinctTransfer<T, U>(a: seq<T>, b: seq<U>)
    requires |a| == |b|
    requires forall i, j :: 0 <= i < |a| && 0 <= j < |a| ==> (a[i] == a[j] <==> b[i] == b[j])
    ensures Distinct(a) <==> Distinct(b)
  {
  }

  /** Rows of `s` that satisfy `p`, in order (a boolean mask `df[mask]`). */
  function Filter<T>(s: seq<T>, p: T -> bool): (r: seq<T>)
    ensures |r| <= |s|
  {
    if |s| == 0 then []
    else (if p(s[0]) then [s[0]] else []) + Filter(s[1..], p)
  }

  predicate StrictlyIncreasing(idx: seq<nat>) {
    forall a, b :: 0 <= a < b < |idx| ==> idx[a] < idx[b]
  }

  /** The filter result is the subsequence of `s` at exactly the positions
      whose element satisfies `p`. */
  lemma {:induction false} FilterPositions<T>(s: seq<T>, p: T -> bool) returns (idx: seq<nat>)
    ensures |idx| == |Filter(s, p)| && StrictlyIncreasing(idx)
    ensures forall j :: 0 <= j < |idx| ==> idx[j] < |s| && Filter(s, p)[j] == s[idx[j]]
    ensures forall i :: 0 <= i < |s| ==> (p(s[i]) <==> i in idx)
  {
    if |s| == 0 {
      return [];
    }
    var tail := s[1..];
    var rest := FilterPositions(tail, p);
    var shifted := seq(|rest|, j requires 0 <= j < |rest| => rest[j] + 1);
    ShiftedMembers(rest, shifted, |s|);
    ShiftedElements(s, p, rest, shifted);
    if p(s[0]) {
      idx := [0] + shifted;
      HeadKept(s, p, shifted, idx);
    } else {
      idx := shifted;
      assert Filter(s, p) == Filter(tail, p);
    }
    forall i | 0 <= i < |s|
      ensures p(s[i]) <==> i in idx
    {
      if i > 0 {
        assert s[i] == tail[i - 1];
        assert i in idx <==> i in shifted;
      }
    }
  }

  lemma ShiftedElements<T>(s: seq<T>, p: T -> bool, rest: seq<nat>, shifted: seq<nat>)
    requires |s| > 0 && |shifted| == |rest| == |Filter(s[1..], p)|
    requires forall j :: 0 <= j < |rest| ==> shifted[j] == rest[j] + 1
    requires forall j :: 0 <= j < |rest| ==> rest[j] < |s[1..]| && Filter(s[1..], p)[j] == s[1..][rest[j]]
    ensures forall j :: 0 <= j < |shifted| ==> shifted[j] < |s| && Filter(s[1..], p)[j] == s[shifted[j]]
  {
  }

  lemma HeadKept<T>(s: seq<T>, p: T -> bool, shifted: seq<nat>, idx: seq<nat>)
    requires |s| > 0 && p(s[0]) && |shifted| == |Filter(s[1..], p)| && idx == [0] + shifted
    requires forall j :: 0 <= j < |shifted| ==> shifted[j] < |s| && Filter(s[1..], p)[j] == s[shifted[j]]
    ensures |idx| == |Filter(s, p)|
    ensures forall j :: 0 <= j < |idx| ==> idx[j] < |s| && Filter(s, p)[j] == s[idx[j]]
  {
    var r := Filter(s, p);
    assert r == [s[0]] + Filter(s[1..], p);
    forall j | 0 <= j < |idx|
      ensures idx[j] < |s| && r[j] == s[idx[j]]
    {
      if j > 0 {
        assert idx[j] == shifted[j - 1];
        assert r[j] == Filter(s[1..], p)[j - 1];
      }
    }
  }

  lemma ShiftedMembers(rest: seq<nat>, shifted: seq<nat>, n: nat)
    requires |shifted| == |rest|
    requires forall j :: 0 <= j < |rest| ==> shifted[j] == rest[j] + 1
    ensures forall i :: 1 <= i < n ==> (i in shifted <==> i - 1 in rest)
    ensures 0 !in shifted
    ensures StrictlyIncreasing(rest) ==> StrictlyIncreasing(shifted) && StrictlyIncreasing([0] + shifted)
  {
    forall i | 1 <= i < n && i - 1 in rest
      ensures i in shifted
    {
      var j :| 0 <= j < |rest| && rest[j] == i - 1;
      assert shifted[j] == i;
    }
  }

  /** Filtering a concatenation filters each part. */
  lemma {:induction false} FilterAppend<T>(a: seq<T>, b: seq<T>, p: T -> bool)
    ensures Filter(a + b, p) == Filter(a, p) + Filter(b, p)
  {
    if |a| > 0 {
      assert (a + b)[1..] == a[1..] + b;
      FilterAppend(a[1..], b, p);
    } else {
      assert a + b == b;
    }
  }

  /** Filtering depends only on which elements pass. */
  lemma {:induction false} FilterCongruent<T>(s: seq<T>, p: T -> bool, q: T -> bool)
    requires forall i :: 0 <= i < |s| ==> p(s[i]) == q(s[i])
    ensures Filter(s, p) == Filter(s, q)
  {
    if |s| > 0 {
      assert p(s[0]) == q(s[0]);
      FilterCongruent(s[1..], p, q);
    }
  }

  /** Nothing passes, nothing is kept; and conversely. */
  lemma {:induction false} FilterEmpty<T>(s: seq<T>, p: T -> bool)
    ensures Filter(s, p) == [] <==> forall i :: 0 <= i < |s| ==> !p(s[i])
  {
    if |s| > 0 {
      FilterEmpty(s[1..], p);
      if p(s[0]) {
        assert Filter(s, p)[0] == s[0];
      } else {
        assert forall i :: 1 <= i < |s| ==> s[i] == s[1..][i - 1];
      }
    }
  }

  /** The first position whose element satisfies `p`, if any. */
  function FirstWhere<T>(s: seq<T>, p: T -> bool): (r: Option<nat>)
    ensures r.None? <==> forall i :: 0 <= i < |s| ==> !p(s[i])
    ensures r.Some? ==> r.value < |s| && p(s[r.value])
    ensures r.Some? ==> forall i :: 0 <= i < r.value ==> !p(s[i])
  {
    if |s| == 0 then None
    else if p(s[0]) then Some(0)
    else match FirstWhere(s[1..], p)
      case None => None
      case Some(i) => Some(i + 1)
  }
}
