/** File aggregation: `merge_files` concatenates the tables read from every
    file a glob pattern matched, and `main` concatenates the three regions. */
module Merge {
  import opened Values
  import opened Frames

  /** The column index of `pd.concat`: the columns of `a`, then the columns
      of `b` that `a` lacks, in `b`'s order (an outer join, unsorted). */
  function UnionColumns(a: seq<Col>, b: seq<Col>): (r: seq<Col>)
    ensures |a| <= |r| && r[..|a|] == a
    ensures forall c :: c in r <==> c in a || c in b
    decreases |b|
  {
    if |b| == 0 then a
    else UnionColumns(if b[0] in a then a else a + [b[0]], b[1..])
  }

  function AllColumns(frames: seq<Frame>): seq<Col>
    decreases |frames|
  {
    if |frames| == 0 then [] else UnionColumns(frames[0].columns, AllColumns(frames[1..]))
  }

  /** The rows of every table, table after table. */
  function AllRows(frames: seq<Frame>): seq<Row> {
    if |frames| == 0 then [] else frames[0].rows + AllRows(frames[1..])
  }

  /** The number of rows in all tables together. */
  function TotalRows(frames: seq<Frame>): nat {
    if |frames| == 0 then 0 else |frames[0].rows| + TotalRows(frames[1..])
  }

  /** `pd.concat(tables, ignore_index=True)`; an empty list raises. */
  function Concat(frames: seq<Frame>): (r: Result<Frame>)
    ensures r.Failure? <==> |frames| == 0
    ensures r.Failure? ==> r.error == NoObjectsToConcatenate
    ensures r.Success? ==> r.value.rows == AllRows(frames)
    ensures r.Success? ==> |r.value.rows| == TotalRows(frames)
    ensures r.Success? ==> |frames[0].columns| <= |r.value.columns|
    ensures r.Success? ==> r.value.columns[..|frames[0].columns|] == frames[0].columns
    ensures r.Success? ==> forall c :: c in r.value.columns <==>
      exists k :: 0 <= k < |frames| && c in frames[k].columns
  {
    if |frames| == 0 then Failure(NoObjectsToConcatenate)
    else
      AllColumnsMembers(frames);
      RowCount(frames);
      Success(Frame(AllColumns(frames), AllRows(frames)))
  }

  /** Every column of the concatenation comes from one of the tables. */
  lemma {:induction false} AllColumnsSound(frames: seq<Frame>, c: Col)
    requires c in AllColumns(frames)
    ensures exists k :: 0 <= k < |frames| && c in frames[k].columns
  {
    if c !in frames[0].columns {
      AllColumnsSound(frames[1..], c);
      var k :| 0 <= k < |frames[1..]| && c in frames[1..][k].columns;
      assert c in frames[k + 1].columns;
    }
  }

  /** Every column of every table is a column of the concatenation. */
  lemma {:induction false} AllColumnsComplete(frames: seq<Frame>, c: Col, k: nat)
    requires k < |frames| && c in frames[k].columns
    ensures c in AllColumns(frames)
  {
    if k > 0 {
      assert c in frames[1..][k - 1].columns;
      AllColumnsComplete(frames[1..], c, k - 1);
    }
  }

  lemma AllColumnsMembers(frames: seq<Frame>)
    ensures forall c :: c in AllColumns(frames) <==> exists k :: 0 <= k < |frames| && c in frames[k].columns
    ensures |frames| > 0 ==>
      |frames[0].columns| <= |AllColumns(frames)| && AllColumns(frames)[..|frames[0].columns|] == frames[0].columns
  {
    forall c | c in AllColumns(frames)
      ensures exists k :: 0 <= k < |frames| && c in frames[k].columns
    {
      AllColumnsSound(frames, c);
    }
    forall c, k | 0 <= k < |frames| && c in frames[k].columns
      ensures c in AllColumns(frames)
    {
      AllColumnsComplete(frames, c, k);
    }
  }

  lemma {:induction false} RowCount(frames: seq<Frame>)
    ensures |AllRows(frames)| == TotalRows(frames)
  {
    if |frames| > 0 {
      RowCount(frames[1..]);
    }
  }

  lemma {:induction false} AllRowsAppend(a: seq<Frame>, b: seq<Frame>)
    ensures AllRows(a + b) == AllRows(a) + AllRows(b)
  {
    if |a| == 0 {
      assert a + b == b;
    } else {
      assert (a + b)[1..] == a[1..] + b;
      AllRowsAppend(a[1..], b);
    }
  }

  /** Enumeration order: the rows of table k are one contiguous block, after
      the rows of every table enumerated before it. */
  lemma ConcatBlocks(frames: seq<Frame>, k: nat)
    requires k < |frames|
    ensures TotalRows(frames[..k]) + |frames[k].rows| <= |AllRows(frames)|
    ensures AllRows(frames)[TotalRows(frames[..k])..TotalRows(frames[..k]) + |frames[k].rows|]
      == frames[k].rows
  {
    assert frames == frames[..k] + frames[k..];
    AllRowsAppend(frames[..k], frames[k..]);
    RowCount(frames[..k]);
    assert AllRows(frames[k..]) == frames[k].rows + AllRows(frames[k + 1..]) by {
      assert frames[k..][1..] == frames[k + 1..];
    }
  }

  /** `main`: Algeria, Morocco and Tunisia are each merged from their files
      and the three tables concatenated in that order. */
  function CombineRegions(algeria: seq<Frame>, morocco: seq<Frame>, tunisia: seq<Frame>): (r: Result<Frame>)
    ensures r.Failure? <==> |algeria| == 0 || |morocco| == 0 || |tunisia| == 0
    ensures r.Failure? ==> r.error == NoObjectsToConcatenate
    ensures r.Success? ==> r.value.rows == AllRows(algeria) + AllRows(morocco) + AllRows(tunisia)
    ensures r.Success? ==> |r.value.rows| == TotalRows(algeria) + TotalRows(morocco) + TotalRows(tunisia)
  {
    var a :- Concat(algeria);
    var m :- Concat(morocco);
    var t :- Concat(tunisia);
    var all := Concat([a, m, t]);
    assert all.value.rows == AllRows([a, m, t]);
    assert AllRows([a, m, t]) == a.rows + m.rows + t.rows by {
      assert [a, m, t][1..] == [m, t];
      assert [m, t][1..] == [t];
      assert [t][1..] == [];
      assert AllRows([t]) == t.rows + [] == t.rows;
    }
    RowCount(algeria);
    RowCount(morocco);
    RowCount(tunisia);
    all
  }
}
