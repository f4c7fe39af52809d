/** The fixed schema of the cleaned table. After `clean_data` has cut the
    merged table down to `keep_columns` and derived its four calendar and
    region columns, every row has the same nineteen cells, so a cleaned row
    is a sequence of cells aligned with `CleanColumns`. */
module Schema {
  import opened Values
  import opened Frames

  /** `keep_columns` (ETL.py line 15). */
  const KeepColumns: seq<Col> :=
    [STATION, NAME, LATITUDE, LONGITUDE, ELEVATION, DATE, PRCP, TAVG, TMAX, TMIN, SNWD, PGTM, SNOW, WDFG, WSFG]

  /** The kept columns followed by the ones cleaning derives, in the order
      pandas appends them. */
  const CleanColumns: seq<Col> :=
    [STATION, NAME, LATITUDE, LONGITUDE, ELEVATION, DATE, PRCP, TAVG, TMAX, TMIN, SNWD, PGTM, SNOW, WDFG, WSFG,
     YEAR, MONTH, DAY, PAYS]

  const Width: nat := 19

  /** One row of the cleaned table. */
  type Record = r: seq<Cell> | |r| == Width witness seq(19, k => Missing)

  /** Position of a schema column in a cleaned row; `Width` for a label the
      schema does not have. */
  function Index(c: Col): (k: nat)
    ensures k <= Width && (k == Width <==> c.Other?)
  {
    match c
    case STATION => 0
    case NAME => 1
    case LATITUDE => 2
    case LONGITUDE => 3
    case ELEVATION => 4
    case DATE => 5
    case PRCP => 6
    case TAVG => 7
    case TMAX => 8
    case TMIN => 9
    case SNWD => 10
    case PGTM => 11
    case SNOW => 12
    case WDFG => 13
    case WSFG => 14
    case YEAR => 15
    case MONTH => 16
    case DAY => 17
    case PAYS => 18
    case Other(_) => 19
  }

  /** `Index` and `CleanColumns` are inverse to each other. */
  lemma IndexInverse(c: Col)
    requires !c.Other?
    ensures CleanColumns[Index(c)] == c
  {
  }

  lemma ColumnIndex(k: nat)
    requires k < Width
    ensures Index(CleanColumns[k]) == k
  {
  }

  /** `row[c]` on a cleaned row; a label outside the schema reads as NaN. */
  function Field(r: Record, c: Col): Cell {
    if c.Other? then Missing else r[Index(c)]
  }

  /** `row[c] = x` for a column of the schema. */
  function With(r: Record, c: Col, x: Cell): (s: Record)
    requires !c.Other?
  {
    r[Index(c) := x]
  }

  /** Assigning one column changes that column and no other. */
  lemma FieldWith(r: Record, c: Col, x: Cell, d: Col)
    requires !c.Other?
    ensures Field(With(r, c, x), d) == if d == c then x else Field(r, d)
  {
    if !d.Other? && d != c {
      IndexInverse(c);
      IndexInverse(d);
    }
  }

  /** `df[c]` on the cleaned table. */
  function Cells(rows: seq<Record>, c: Col): (col: seq<Cell>)
    ensures |col| == |rows|
    ensures forall i :: 0 <= i < |rows| ==> col[i] == Field(rows[i], c)
  {
    seq(|rows|, i requires 0 <= i < |rows| => Field(rows[i], c))
  }
}
