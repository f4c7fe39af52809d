/** The tabular data model shared by the ETL, the warehouse loader and the
    dashboard: a pandas DataFrame is a header plus rows of named cells. */
module Frames {
  import opened Values
  import opened Dates

  /** One DataFrame cell: NaN/NaT/None, a string, a number, or a parsed date. */
  datatype Cell = Missing | Text(text: string) | Num(num: real) | Stamp(date: Timestamp)

  /** A row maps column names to cells; a column the row lacks reads as NaN,
      which is how `pd.concat` fills columns one input table did not have. */
  type Row = map<Col, Cell>

  datatype Frame = Frame(columns: seq<Col>, rows: seq<Row>)

  /** `row[c]` for a column of the frame. */
  function Get(row: Row, c: Col): Cell {
    if c in row then row[c] else Missing
  }

  /** `df[c]`: the cells of one column, in row order. */
  function Column(rows: seq<Row>, c: Col): (col: seq<Cell>)
    ensures |col| == |rows|
    ensures forall i :: 0 <= i < |rows| ==> col[i] == Get(rows[i], c)
  {
    seq(|rows|, i requires 0 <= i < |rows| => Get(rows[i], c))
  }

  /** The numeric cells of a column, in order; NaN and non-numbers are skipped
      as pandas' reductions skip them. */
  function Numbers(cells: seq<Cell>): (xs: seq<real>)
    ensures |xs| <= |cells|
  {
    if |cells| == 0 then []
    else (if cells[0].Num? then [cells[0].num] else []) + Numbers(cells[1..])
  }

  /** A column holds no number exactly when `Numbers` finds none. */
  lemma {:induction false} NumbersEmpty(cells: seq<Cell>)
    ensures |Numbers(cells)| == 0 <==> forall i :: 0 <= i < |cells| ==> !cells[i].Num?
  {
    if |cells| > 0 {
      NumbersEmpty(cells[1..]);
      assert forall i :: 1 <= i < |cells| ==> cells[i] == cells[1..][i - 1];
    }
  }

  /** The first of `required` that `present` lacks, as `df[cols]` reports it. */
  function FirstMissingColumn(required: seq<Col>, present: seq<Col>): (r: Option<Col>)
    ensures r.None? <==> forall c :: c in required ==> c in present
    ensures r.Some? ==> r.value in required && r.value !in present
  {
    if |required| == 0 then None
    else if required[0] !in present then Some(required[0])
    else FirstMissingColumn(required[1..], present)
  }
}
