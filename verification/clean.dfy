/** `clean_data`: projection, date parsing and derived calendar fields, the
    region prefix, sentinel removal, zero-fill and global median imputation,
    applied in that fixed order. After the projection the table has the fixed
    schema of module Schema. */
module Clean {
  import opened Values
  import opened Dates
  import opened Frames
  import opened Sequences
  import opened Median
  import opened Schema

  /** One of `keep_columns`: the first fifteen columns of the schema. */
  predicate KeptColumn(c: Col) {
    Index(c) < |KeepColumns|
  }

  /** What cleaning does with a column of the schema. */
  datatype Role =
    | Describes   // STATION, NAME and the coordinates: kept as read
    | Dated       // DATE: parsed
    | Sentinelled // a reading where -99 and 93.2 mean "no reading"
    | ZeroFilled  // an amount where NaN means none
    | Derived     // YEAR, MONTH, DAY and PAYS: computed by cleaning
    | Unlisted    // a label outside the schema

  function RoleOf(c: Col): Role {
    match c
    case STATION => Describes
    case NAME => Describes
    case LATITUDE => Describes
    case LONGITUDE => Describes
    case ELEVATION => Describes
    case DATE => Dated
    case PRCP => ZeroFilled
    case TAVG => Sentinelled
    case TMAX => Sentinelled
    case TMIN => Sentinelled
    case SNWD => ZeroFilled
    case PGTM => Sentinelled
    case SNOW => ZeroFilled
    case WDFG => Sentinelled
    case WSFG => Sentinelled
    case YEAR => Derived
    case MONTH => Derived
    case DAY => Derived
    case PAYS => Derived
    case Other(_) => Unlisted
  }

  /** The five columns that describe the station. */
  predicate StationColumn(c: Col) {
    RoleOf(c).Describes?
  }

  /** Lines 25-26: the measurement columns whose -99 and 93.2 readings mean
      "no reading". */
  predicate SentinelColumn(c: Col) {
    RoleOf(c).Sentinelled?
  }

  /** Line 28: the columns where a missing value is taken to be zero. */
  predicate ZeroFillColumn(c: Col) {
    RoleOf(c).ZeroFilled?
  }

  /** The kept columns are those cleaning does not derive, and DATE is the
      only dated one. */
  lemma RoleKept(c: Col)
    ensures KeptColumn(c) <==> RoleOf(c).Describes? || RoleOf(c).Dated? || RoleOf(c).Sentinelled? || RoleOf(c).ZeroFilled?
    ensures RoleOf(c).Dated? <==> c == DATE
  {
  }

  predicate IsSentinel(x: Cell) {
    x == Num(-99.0) || x == Num(93.2)
  }

  /** The kept columns are exactly the labels `KeptColumn` admits. */
  lemma KeptColumnsListed(c: Col)
    ensures KeptColumn(c) <==> c in KeepColumns
  {
    assert KeepColumns == CleanColumns[..|KeepColumns|];
    if !c.Other? {
      IndexInverse(c);
      if KeptColumn(c) {
        assert KeepColumns[Index(c)] == c;
      }
    }
    if c in KeepColumns {
      var k :| 0 <= k < |KeepColumns| && KeepColumns[k] == c;
      ColumnIndex(k);
    }
  }

  // ---------------------------------------------------------------- step 1

  /** One raw row cut down to the kept columns; the derived columns read as
      NaN until the steps that assign them. */
  function Keep(row: Row): Record {
    seq(Width, k requires 0 <= k < Width => if k < |KeepColumns| then Get(row, CleanColumns[k]) else Missing)
  }

  lemma KeepField(row: Row, c: Col)
    ensures Field(Keep(row), c) == if KeptColumn(c) then Get(row, c) else Missing
  {
    if !c.Other? {
      IndexInverse(c);
    }
  }

  /** Lines 15-17, `df[keep_columns]`: raises KeyError when a kept column is
      absent. */
  function Project(f: Frame): (r: Result<seq<Record>>)
    ensures r.Success? <==> forall c :: c in KeepColumns ==> c in f.columns
    ensures r.Failure? ==> r.error.MissingColumn? && r.error.column in KeepColumns && r.error.column !in f.columns
    ensures r.Success? ==> |r.value| == |f.rows|
    ensures r.Success? ==> forall i :: 0 <= i < |f.rows| ==> r.value[i] == Keep(f.rows[i])
  {
    match FirstMissingColumn(KeepColumns, f.columns)
    case Some(c) => Failure(MissingColumn(c))
    case None => Success(seq(|f.rows|, i requires 0 <= i < |f.rows| => Keep(f.rows[i])))
  }

  // ------------------------------------------------------------- steps 2-3

  /** The DATE, YEAR, MONTH and DAY cells that `pd.to_datetime` and the `.dt`
      accessors give for one DATE cell; None where `to_datetime` raises.
      A NaN date, or one of the NaT strings, becomes NaT, whose year, month
      and day are NaN. */
  function DateFields(x: Cell): (r: Option<seq<Cell>>)
    ensures r.Some? ==> |r.value| == 4
  {
    match x
    case Missing => Some([Missing, Missing, Missing, Missing])
    case Stamp(d) => Some([Stamp(d), Num(d.year as real), Num(d.month as real), Num(d.day as real)])
    case Text(s) =>
      if s in NaTStrings then Some([Missing, Missing, Missing, Missing])
      else
      (match ParseIsoDate(s)
       case Some(d) => Some([Stamp(d), Num(d.year as real), Num(d.month as real), Num(d.day as real)])
       case None => None)
    case Num(_) => None
  }

  /** `to_datetime` raises on this DATE cell. */
  predicate BadDate(x: Cell) {
    DateFields(x).None?
  }

  predicate HasBadDate(r: Record) {
    BadDate(Field(r, DATE))
  }

  function WithDateFields(r: Record): Record
    requires !HasBadDate(r)
  {
    var fs := DateFields(Field(r, DATE)).value;
    With(With(With(With(r, DATE, fs[0]), YEAR, fs[1]), MONTH, fs[2]), DAY, fs[3])
  }

  /** Lines 19-22: parse DATE, raising on the first row that does not parse,
      and derive YEAR, MONTH and DAY from it. */
  function ParseDates(rows: seq<Record>): (r: Result<seq<Record>>)
    ensures r.Success? <==> forall i :: 0 <= i < |rows| ==> !HasBadDate(rows[i])
    ensures r.Failure? ==> r.error.InvalidDate? && r.error.row < |rows|
    ensures r.Failure? ==> HasBadDate(rows[r.error.row]) && forall i :: 0 <= i < r.error.row ==> !HasBadDate(rows[i])
    ensures r.Success? ==> |r.value| == |rows|
    ensures r.Success? ==> forall i :: 0 <= i < |rows| ==> r.value[i] == WithDateFields(rows[i])
  {
    match FirstWhere(rows, HasBadDate)
    case Some(i) => Failure(InvalidDate(i))
    case None => Success(seq(|rows|, i requires 0 <= i < |rows| => WithDateFields(rows[i])))
  }

  // ---------------------------------------------------------------- step 4

  /** `.str[:2]` of a STATION cell: the first two characters, the whole code
      when it is shorter, NaN for anything that is not a string. */
  function PaysOf(station: Cell): (r: Cell)
    ensures station.Text? ==> r.Text? && r.text <= station.text
    ensures station.Text? ==> |r.text| == if |station.text| < 2 then |station.text| else 2
    ensures !station.Text? ==> r == Missing
  {
    match station
    case Text(s) => Text(if |s| < 2 then s else s[..2])
    case _ => Missing
  }

  function WithPays(r: Record): Record {
    With(r, PAYS, PaysOf(Field(r, STATION)))
  }

  /** pandas lets `.str` be used on a column that holds at least one string
      (an object column) or on an empty one. A column of numbers and NaN
      alone has a numeric dtype, and `.str` on it raises. */
  predicate StrAccessorAllowed(cells: seq<Cell>) {
    |cells| == 0 || exists i :: 0 <= i < |cells| && cells[i].Text?
  }

  /** Line 23: PAYS, the country code that opens every station code. */
  function DerivePays(rows: seq<Record>): (r: Result<seq<Record>>)
    ensures r.Success? <==> StrAccessorAllowed(Cells(rows, STATION))
    ensures r.Failure? ==> r.error == NotStringColumn(STATION)
    ensures r.Success? ==> |r.value| == |rows| && forall i :: 0 <= i < |rows| ==> r.value[i] == WithPays(rows[i])
  {
    if StrAccessorAllowed(Cells(rows, STATION)) then
      Success(seq(|rows|, i requires 0 <= i < |rows| => WithPays(rows[i])))
    else
      Failure(NotStringColumn(STATION))
  }

  // ---------------------------------------------------------------- step 5

  function ClearSentinel(x: Cell): (r: Cell)
    ensures !IsSentinel(r) && (r == x || r == Missing)
    ensures IsSentinel(x) ==> r == Missing
    ensures !IsSentinel(x) ==> r == x
  {
    if IsSentinel(x) then Missing else x
  }

  function ClearSentinels(r: Record): Record {
    seq(Width, k requires 0 <= k < Width => if SentinelColumn(CleanColumns[k]) then ClearSentinel(r[k]) else r[k])
  }

  /** Lines 25-26: the two sentinels become NaN in the six listed columns. */
  function ReplaceSentinels(rows: seq<Record>): (r: seq<Record>)
    ensures |r| == |rows|
  {
    seq(|rows|, i requires 0 <= i < |rows| => ClearSentinels(rows[i]))
  }

  // ---------------------------------------------------------------- step 6

  function ZeroIfMissing(x: Cell): (r: Cell)
    ensures r != Missing && (x != Missing ==> r == x)
    ensures x == Missing ==> r == Num(0.0)
  {
    if x == Missing then Num(0.0) else x
  }

  function ZeroFillRow(r: Record): Record {
    seq(Width, k requires 0 <= k < Width => if ZeroFillColumn(CleanColumns[k]) then ZeroIfMissing(r[k]) else r[k])
  }

  /** Line 28: NaN precipitation, snow depth and snowfall become 0. */
  function ZeroFill(rows: seq<Record>): (r: seq<Record>)
    ensures |r| == |rows|
  {
    seq(|rows|, i requires 0 <= i < |rows| => ZeroFillRow(rows[i]))
  }

  // ---------------------------------------------------------------- step 7

  /** `df[numeric_cols].median()`: one global median per numeric column that
      has at least one number; a column of NaN only has none. */
  function Medians(rows: seq<Record>, numeric: set<Col>): (m: map<Col, real>)
    ensures forall c :: c in m <==> c in numeric && |Numbers(Cells(rows, c))| > 0
    ensures forall c :: c in m ==> Some(m[c]) == MedianOf(Numbers(Cells(rows, c)))
  {
    map c | c in numeric && |Numbers(Cells(rows, c))| > 0 :: MedianOf(Numbers(Cells(rows, c))).value
  }

  function FillCell(x: Cell, c: Col, medians: map<Col, real>): Cell {
    if x == Missing && c in medians then Num(medians[c]) else x
  }

  function FillRow(r: Record, medians: map<Col, real>): Record {
    seq(Width, k requires 0 <= k < Width => FillCell(r[k], CleanColumns[k], medians))
  }

  /** The value `median()` gives a numeric column splits its numbers: at
      least half lie at or below it and at least half at or above it. */
  lemma MediansSplit(rows: seq<Record>, numeric: set<Col>, c: Col)
    requires c in Medians(rows, numeric)
    ensures c in numeric && |Numbers(Cells(rows, c))| > 0
    ensures var values := Numbers(Cells(rows, c));
      && 2 * Count(values, AtMost(Medians(rows, numeric)[c])) >= |values|
      && 2 * Count(values, AtLeast(Medians(rows, numeric)[c])) >= |values|
  {
    MedianSplitsValues(Numbers(Cells(rows, c)));
  }

  /** Each step's effect on one column of one row. */
  lemma ClearSentinelsField(r: Record, c: Col)
    ensures Field(ClearSentinels(r), c) == if SentinelColumn(c) then ClearSentinel(Field(r, c)) else Field(r, c)
  {
    if !c.Other? {
      IndexInverse(c);
    }
  }

  lemma ZeroFillField(r: Record, c: Col)
    ensures Field(ZeroFillRow(r), c) == if ZeroFillColumn(c) then ZeroIfMissing(Field(r, c)) else Field(r, c)
  {
    if !c.Other? {
      IndexInverse(c);
    }
  }

  lemma FillRowField(r: Record, medians: map<Col, real>, c: Col)
    requires !c.Other?
    ensures Field(FillRow(r, medians), c) == FillCell(Field(r, c), c, medians)
  {
    IndexInverse(c);
  }

  /** Lines 31-32: every NaN in a numeric column becomes that column's median,
      computed once over the whole table before any cell is filled. */
  function MedianFill(rows: seq<Record>, numeric: set<Col>): (r: seq<Record>)
    ensures |r| == |rows|
  {
    var meds := Medians(rows, numeric);
    seq(|rows|, i requires 0 <= i < |rows| => FillRow(rows[i], meds))
  }

  /** What imputation does to one cell: a present value stays; a NaN in a
      numeric column with at least one number becomes the column's median;
      a NaN in any other column stays NaN. */
  lemma MedianFillCell(rows: seq<Record>, numeric: set<Col>, i: nat, c: Col)
    requires i < |rows|
    ensures var values := Numbers(Cells(rows, c));
      Field(MedianFill(rows, numeric)[i], c) ==
        if Field(rows[i], c) == Missing && c in numeric && |values| > 0
        then Num(MedianOf(values).value) else Field(rows[i], c)
  {
    if c.Other? {
      NumbersEmpty(Cells(rows, c));
    } else {
      FillRowField(rows[i], Medians(rows, numeric), c);
    }
  }

  // -------------------------------------------------------------- pipeline

  /** Steps 1-6: everything before median imputation. */
  function Prepare(f: Frame): Result<seq<Record>> {
    var kept :- Project(f);
    var dated :- ParseDates(kept);
    var paid :- DerivePays(dated);
    Success(ZeroFill(ReplaceSentinels(paid)))
  }

  /** `clean_data`, given the columns `select_dtypes` reports as numeric. */
  function CleanData(f: Frame, numeric: set<Col>): Result<seq<Record>> {
    var rows :- Prepare(f);
    Success(MedianFill(rows, numeric))
  }

  // ------------------------------------------------------------ properties

  /** Steps 1-6 on one raw row whose DATE parses: every step before the
      median rewrites each row on its own. */
  function PrepareRow(row: Row): Record
    requires !BadDate(Get(row, DATE))
  {
    KeepField(row, DATE);
    ZeroFillRow(ClearSentinels(WithPays(WithDateFields(Keep(row)))))
  }

  /** What steps 1-6 leave in a kept column other than DATE: sentinels cleared
      in the six sentinel columns, NaN read as 0 in the three zero-fill ones. */
  function PreparedCell(raw: Cell, c: Col): Cell {
    if ZeroFillColumn(c) then ZeroIfMissing(raw)
    else if SentinelColumn(c) then ClearSentinel(raw)
    else raw
  }
  lemma WithDateFieldsField(r: Record, c: Col)
    requires !HasBadDate(r)
    ensures var fs := DateFields(Field(r, DATE)).value;
      Field(WithDateFields(r), c) ==
        if c == DATE then fs[0] else if c == YEAR then fs[1] else if c == MONTH then fs[2]
        else if c == DAY then fs[3] else Field(r, c)
  {
    var fs := DateFields(Field(r, DATE)).value;
    var r1 := With(r, DATE, fs[0]);
    var r2 := With(r1, YEAR, fs[1]);
    var r3 := With(r2, MONTH, fs[2]);
    FieldWith(r, DATE, fs[0], c);
    FieldWith(r1, YEAR, fs[1], c);
    FieldWith(r2, MONTH, fs[2], c);
    FieldWith(r3, DAY, fs[3], c);
  }

  lemma WithPaysField(r: Record, c: Col)
    ensures Field(WithPays(r), c) == if c == PAYS then PaysOf(Field(r, STATION)) else Field(r, c)
  {
    FieldWith(r, PAYS, PaysOf(Field(r, STATION)), c);
  }

  /** Date parsing leaves STATION as read. */
  lemma DatedStations(f: Frame)
    requires Project(f).Success? && ParseDates(Project(f).value).Success?
    ensures Cells(ParseDates(Project(f).value).value, STATION) == Column(f.rows, STATION)
  {
    var kept := Project(f).value;
    var dated := ParseDates(kept).value;
    forall i | 0 <= i < |f.rows| ensures Cells(dated, STATION)[i] == Column(f.rows, STATION)[i] {
      KeepField(f.rows[i], STATION);
      KeepField(f.rows[i], DATE);
      WithDateFieldsField(kept[i], STATION);
    }
  }

  /** Steps 1-6 succeed exactly when every kept column exists, every DATE
      parses and STATION is a column `.str` accepts, and then rewrite each
      row on its own. */
  lemma PrepareRows(f: Frame)
    ensures Prepare(f).Success? <==>
      && (forall c :: c in KeepColumns ==> c in f.columns)
      && (forall i :: 0 <= i < |f.rows| ==> !BadDate(Get(f.rows[i], DATE)))
      && StrAccessorAllowed(Column(f.rows, STATION))
    ensures Prepare(f).Success? ==> |Prepare(f).value| == |f.rows|
    ensures Prepare(f).Success? ==> forall i :: 0 <= i < |f.rows| ==> Prepare(f).value[i] == PrepareRow(f.rows[i])
  {
    var pr := Project(f);
    if pr.Success? {
      KeptDates(f);
      var pd := ParseDates(pr.value);
      if pd.Success? {
        DatedStations(f);
        var pp := DerivePays(pd.value);
        if pp.Success? {
          PrepareAllSteps(f, pr.value, pd.value, pp.value);
        } else {
          assert Prepare(f) == Failure(pp.error);
        }
      } else {
        assert Prepare(f) == Failure(pd.error);
        assert BadDate(Get(f.rows[pd.error.row], DATE));
      }
    } else {
      assert Prepare(f) == Failure(pr.error);
    }
  }

  /** When all three checks pass, each row goes through steps 1-6 on its own. */
  lemma PrepareAllSteps(f: Frame, kept: seq<Record>, dated: seq<Record>, paid: seq<Record>)
    requires Project(f) == Success(kept) && ParseDates(kept) == Success(dated) && DerivePays(dated) == Success(paid)
    requires forall i :: 0 <= i < |f.rows| ==> !BadDate(Get(f.rows[i], DATE))
    ensures Prepare(f) == Success(ZeroFill(ReplaceSentinels(paid))) && |paid| == |f.rows|
    ensures forall i :: 0 <= i < |f.rows| ==> ZeroFill(ReplaceSentinels(paid))[i] == PrepareRow(f.rows[i])
  {
    var z := ZeroFill(ReplaceSentinels(paid));
    forall i | 0 <= i < |f.rows| ensures z[i] == PrepareRow(f.rows[i]) {
      assert kept[i] == Keep(f.rows[i]);
      assert dated[i] == WithDateFields(kept[i]);
      assert paid[i] == WithPays(dated[i]);
    }
  }


  /** A successful preparation, row by row. */
  lemma PreparedRows(f: Frame)
    requires Prepare(f).Success?
    ensures |Prepare(f).value| == |f.rows|
    ensures forall i :: 0 <= i < |f.rows| ==> !BadDate(Get(f.rows[i], DATE)) && Prepare(f).value[i] == PrepareRow(f.rows[i])
  {
    PrepareRows(f);
  }

  /** The kept DATE cell of each row is its raw DATE cell. */
  lemma KeptDates(f: Frame)
    requires Project(f).Success?
    ensures forall i :: 0 <= i < |f.rows| ==> (HasBadDate(Project(f).value[i]) <==> BadDate(Get(f.rows[i], DATE)))
  {
    forall i | 0 <= i < |f.rows| ensures Field(Project(f).value[i], DATE) == Get(f.rows[i], DATE) {
      KeepField(f.rows[i], DATE);
    }
  }

  /** `Prepare` stops at the first of its three checks that fails. */
  lemma PrepareStages(f: Frame)
    requires Prepare(f).Failure?
    ensures Project(f).Failure? ==> Prepare(f).error == Project(f).error
    ensures Project(f).Success? && ParseDates(Project(f).value).Failure? ==>
      Prepare(f).error == ParseDates(Project(f).value).error
    ensures Project(f).Success? && ParseDates(Project(f).value).Success? ==>
      Prepare(f).error == DerivePays(ParseDates(Project(f).value).value).error
  {
  }

  /** When steps 1-6 fail, the error is the first missing kept column; with
      all columns present, the first row whose DATE does not parse; with
      every DATE parsed too, the `.str` accessor on STATION. */
  lemma PrepareErrors(f: Frame)
    requires Prepare(f).Failure?
    ensures !(forall c :: c in KeepColumns ==> c in f.columns) ==>
      Prepare(f).error.MissingColumn? && Prepare(f).error.column in KeepColumns && Prepare(f).error.column !in f.columns
    ensures (forall c :: c in KeepColumns ==> c in f.columns) && !(forall i :: 0 <= i < |f.rows| ==> !BadDate(Get(f.rows[i], DATE))) ==>
      && Prepare(f).error.InvalidDate? && Prepare(f).error.row < |f.rows|
      && BadDate(Get(f.rows[Prepare(f).error.row], DATE))
      && forall i :: 0 <= i < Prepare(f).error.row ==> !BadDate(Get(f.rows[i], DATE))
    ensures (forall c :: c in KeepColumns ==> c in f.columns) && (forall i :: 0 <= i < |f.rows| ==> !BadDate(Get(f.rows[i], DATE))) ==>
      Prepare(f).error == NotStringColumn(STATION)
  {
    PrepareStages(f);
    if Project(f).Success? {
      KeptDates(f);
    }
  }

  /** Steps 1-6 on one row, one column at a time: the kept and derived
      columns after date parsing and PAYS, then sentinel clearing and
      zero-fill. */
  lemma PrepareRowField(row: Row, c: Col)
    requires !BadDate(Get(row, DATE))
    ensures var d := WithPays(WithDateFields(Keep(row)));
      Field(PrepareRow(row), c) == if ZeroFillColumn(c) then ZeroIfMissing(Field(d, c))
        else if SentinelColumn(c) then ClearSentinel(Field(d, c)) else Field(d, c)
  {
    KeepField(row, DATE);
    var d := WithPays(WithDateFields(Keep(row)));
    ClearSentinelsField(d, c);
    ZeroFillField(ClearSentinels(d), c);
  }

  /** Steps 1-6, cell by cell: a kept column other than DATE holds its raw
      value with sentinels cleared and zero-fill applied. */
  lemma PrepareRowCells(row: Row, c: Col)
    requires !BadDate(Get(row, DATE)) && KeptColumn(c) && c != DATE
    ensures Field(PrepareRow(row), c) == PreparedCell(Get(row, c), c)
  {
    KeepField(row, DATE);
    KeepField(row, c);
    WithDateFieldsField(Keep(row), c);
    WithPaysField(WithDateFields(Keep(row)), c);
    PrepareRowField(row, c);
  }

  /** DATE and the three calendar columns: the cells date parsing writes. */
  predicate DateColumn(c: Col) {
    c == DATE || c == YEAR || c == MONTH || c == DAY
  }

  /** The cells that only date parsing writes come through the later steps
      unchanged, and hold what DateFields gives for the raw DATE cell. */
  lemma PrepareRowDateField(row: Row, c: Col)
    requires !BadDate(Get(row, DATE)) && DateColumn(c)
    ensures var fs := DateFields(Get(row, DATE)).value;
      Field(PrepareRow(row), c) == if c == DATE then fs[0] else if c == YEAR then fs[1] else if c == MONTH then fs[2] else fs[3]
  {
    var k := Keep(row);
    KeepField(row, DATE);
    PrepareRowField(row, c);
    WithPaysField(WithDateFields(k), c);
    WithDateFieldsField(k, c);
  }

  /** The date cells of one prepared row: DATE and its year, month and day
      as DateFields gives them. */
  lemma PrepareRowDates(row: Row)
    requires !BadDate(Get(row, DATE))
    ensures var fs := DateFields(Get(row, DATE)).value;
      var r := PrepareRow(row);
      Field(r, DATE) == fs[0] && Field(r, YEAR) == fs[1] && Field(r, MONTH) == fs[2] && Field(r, DAY) == fs[3]
  {
    PrepareRowDateField(row, DATE);
    PrepareRowDateField(row, YEAR);
    PrepareRowDateField(row, MONTH);
    PrepareRowDateField(row, DAY);
  }

  /** The PAYS cell of one prepared row is the prefix of its station code. */
  lemma PrepareRowPays(row: Row)
    requires !BadDate(Get(row, DATE))
    ensures Field(PrepareRow(row), PAYS) == PaysOf(Get(row, STATION))
  {
    var k := Keep(row);
    KeepField(row, DATE);
    KeepField(row, STATION);
    var d := WithDateFields(k);
    PrepareRowField(row, PAYS);
    WithPaysField(d, PAYS);
    WithDateFieldsField(k, STATION);
  }

  /** Cleaning succeeds exactly when every kept column exists, every DATE
      parses and STATION holds a string (or the table is empty). Otherwise it
      raises for the first missing column, or else for the first row whose
      DATE does not parse, or else on `.str` over STATION. */
  lemma CleanOutcome(f: Frame, numeric: set<Col>)
    ensures CleanData(f, numeric).Success? <==>
      && (forall c :: c in KeepColumns ==> c in f.columns)
      && (forall i :: 0 <= i < |f.rows| ==> !BadDate(Get(f.rows[i], DATE)))
      && StrAccessorAllowed(Column(f.rows, STATION))
    ensures !(forall c :: c in KeepColumns ==> c in f.columns) ==>
      CleanData(f, numeric).Failure? && CleanData(f, numeric).error.MissingColumn?
      && CleanData(f, numeric).error.column in KeepColumns && CleanData(f, numeric).error.column !in f.columns
    ensures (forall c :: c in KeepColumns ==> c in f.columns) && !(forall i :: 0 <= i < |f.rows| ==> !BadDate(Get(f.rows[i], DATE))) ==>
      && CleanData(f, numeric).Failure?
      && CleanData(f, numeric).error.InvalidDate?
      && CleanData(f, numeric).error.row < |f.rows|
      && BadDate(Get(f.rows[CleanData(f, numeric).error.row], DATE))
      && forall i :: 0 <= i < CleanData(f, numeric).error.row ==> !BadDate(Get(f.rows[i], DATE))
    ensures (&& CleanData(f, numeric).Failure?
             && (forall c :: c in KeepColumns ==> c in f.columns)
             && (forall i :: 0 <= i < |f.rows| ==> !BadDate(Get(f.rows[i], DATE)))) ==>
      CleanData(f, numeric).error == NotStringColumn(STATION)
    ensures CleanData(f, numeric).Success? ==> |CleanData(f, numeric).value| == |f.rows|
  {
    PrepareRows(f);
    if Prepare(f).Failure? {
      PrepareErrors(f);
    }
  }

  /** One cleaned cell: the prepared cell, or the column's median over the
      prepared table when that cell is NaN in a numeric column. */
  lemma CleanCell(f: Frame, numeric: set<Col>, i: nat, c: Col)
    requires CleanData(f, numeric).Success? && i < |f.rows|
    ensures Prepare(f).Success? && |Prepare(f).value| == |f.rows| && !BadDate(Get(f.rows[i], DATE))
    ensures var before := Field(PrepareRow(f.rows[i]), c);
      var values := Numbers(Cells(Prepare(f).value, c));
      Field(CleanData(f, numeric).value[i], c) ==
        if before == Missing && c in numeric && |values| > 0 then Num(MedianOf(values).value) else before
  {
    PreparedRows(f);
    MedianFillCell(Prepare(f).value, numeric, i, c);
  }

  /** One cleaned cell of a kept column other than DATE: the raw cell as
      steps 1-6 leave it, or the column's median over the prepared table when
      that is NaN in a numeric column. */
  lemma CleanKeptCell(f: Frame, numeric: set<Col>, i: nat, c: Col)
    requires CleanData(f, numeric).Success? && i < |f.rows|
    requires KeptColumn(c) && c != DATE
    ensures Prepare(f).Success?
    ensures var before := PreparedCell(Get(f.rows[i], c), c);
      var values := Numbers(Cells(Prepare(f).value, c));
      Field(CleanData(f, numeric).value[i], c) ==
        if before == Missing && c in numeric && |values| > 0 then Num(MedianOf(values).value) else before
  {
    CleanCell(f, numeric, i, c);
    PrepareRowCells(f.rows[i], c);
  }

  /** A prepared row holds a date or NaN in DATE and a string or NaN in
      PAYS, never a number. */
  lemma PreparedRowNoNumbers(row: Row)
    requires !BadDate(Get(row, DATE))
    ensures !Field(PrepareRow(row), DATE).Num? && !Field(PrepareRow(row), PAYS).Num?
  {
    PrepareRowDates(row);
    PrepareRowPays(row);
  }

  /** Neither DATE nor PAYS ever holds a number after steps 1-6, so median
      imputation has nothing to fill them with. */
  lemma NoNumbersInDateOrPays(f: Frame)
    requires Prepare(f).Success?
    ensures |Numbers(Cells(Prepare(f).value, DATE))| == 0
    ensures |Numbers(Cells(Prepare(f).value, PAYS))| == 0
  {
    var p := Prepare(f).value;
    PreparedRows(f);
    forall j | 0 <= j < |p| ensures !Field(p[j], DATE).Num? && !Field(p[j], PAYS).Num? {
      PreparedRowNoNumbers(f.rows[j]);
    }
    NumbersEmpty(Cells(p, DATE));
    NumbersEmpty(Cells(p, PAYS));
  }

  /** A row whose DATE parses keeps the parsed date and gets its year, month
      and day; a NaN DATE, or a NaT string, ends as NaN. */
  lemma CleanDates(f: Frame, numeric: set<Col>, i: nat)
    requires CleanData(f, numeric).Success? && i < |f.rows|
    ensures Get(f.rows[i], DATE).Text? && Get(f.rows[i], DATE).text !in NaTStrings ==>
      ParseIsoDate(Get(f.rows[i], DATE).text).Some?
    ensures Get(f.rows[i], DATE).Text? && Get(f.rows[i], DATE).text !in NaTStrings ==>
      var d := ParseIsoDate(Get(f.rows[i], DATE).text).value;
      var row := CleanData(f, numeric).value[i];
      && Field(row, DATE) == Stamp(d)
      && Field(row, YEAR) == Num(d.year as real)
      && Field(row, MONTH) == Num(d.month as real)
      && Field(row, DAY) == Num(d.day as real)
    ensures Get(f.rows[i], DATE) == Missing || (Get(f.rows[i], DATE).Text? && Get(f.rows[i], DATE).text in NaTStrings) ==>
      Field(CleanData(f, numeric).value[i], DATE) == Missing
  {
    CleanDateCells(f, numeric, i);
  }

  /** The cleaned date cells of a row are those DateFields gives for its raw
      DATE, except that a NaN year, month or day may be imputed. */
  lemma CleanDateCells(f: Frame, numeric: set<Col>, i: nat)
    requires CleanData(f, numeric).Success? && i < |f.rows|
    ensures !BadDate(Get(f.rows[i], DATE))
    ensures var fs := DateFields(Get(f.rows[i], DATE)).value;
      var row := CleanData(f, numeric).value[i];
      && Field(row, DATE) == fs[0]
      && (fs[1] != Missing ==> Field(row, YEAR) == fs[1])
      && (fs[2] != Missing ==> Field(row, MONTH) == fs[2])
      && (fs[3] != Missing ==> Field(row, DAY) == fs[3])
  {
    CleanCell(f, numeric, i, DATE);
    CleanCell(f, numeric, i, YEAR);
    CleanCell(f, numeric, i, MONTH);
    CleanCell(f, numeric, i, DAY);
    PrepareRowDates(f.rows[i]);
    NoNumbersInDateOrPays(f);
  }

  /** PAYS is the prefix of STATION, whatever the imputation. */
  lemma CleanPays(f: Frame, numeric: set<Col>, i: nat)
    requires CleanData(f, numeric).Success? && i < |f.rows|
    ensures Field(CleanData(f, numeric).value[i], PAYS) == PaysOf(Get(f.rows[i], STATION))
  {
    CleanCell(f, numeric, i, PAYS);
    PrepareRowPays(f.rows[i]);
    NoNumbersInDateOrPays(f);
  }

  /** Zero-fill precedes imputation: a NaN precipitation, snow depth or
      snowfall reading becomes 0, never the median, and a present reading,
      even -99 or 93.2, is kept. */
  lemma CleanZeroFill(f: Frame, numeric: set<Col>, i: nat, c: Col)
    requires CleanData(f, numeric).Success? && i < |f.rows| && ZeroFillColumn(c)
    ensures Field(CleanData(f, numeric).value[i], c) ==
      if Get(f.rows[i], c) == Missing then Num(0.0) else Get(f.rows[i], c)
  {
    RoleKept(c);
    CleanKeptCell(f, numeric, i, c);
  }

  /** The numbers of a column other than the two sentinels. */
  function NonSentinelNumbers(cells: seq<Cell>): (xs: seq<real>)
    ensures forall k :: 0 <= k < |xs| ==> xs[k] != -99.0 && xs[k] != 93.2
  {
    if |cells| == 0 then []
    else (if cells[0].Num? && !IsSentinel(cells[0]) then [cells[0].num] else []) + NonSentinelNumbers(cells[1..])
  }

  lemma {:induction false} NumbersOfCleared(cells: seq<Cell>, cleared: seq<Cell>)
    requires |cleared| == |cells|
    requires forall i :: 0 <= i < |cells| ==> cleared[i] == ClearSentinel(cells[i])
    ensures Numbers(cleared) == NonSentinelNumbers(cells)
  {
    if |cells| > 0 {
      NumbersOfCleared(cells[1..], cleared[1..]);
    }
  }

  /** The value median imputation gives a NaN cell of column `c`, whose
      non-missing numbers are `values`. */
  function Imputed(values: seq<real>, c: Col, numeric: set<Col>): Cell {
    if c in numeric && |values| > 0 then Num(MedianOf(values).value) else Missing
  }

  /** Steps 1-6 on a whole kept column other than DATE. */
  lemma PreparedColumn(f: Frame, c: Col)
    requires Prepare(f).Success? && KeptColumn(c) && c != DATE
    ensures |Prepare(f).value| == |f.rows|
    ensures forall j :: 0 <= j < |f.rows| ==> Cells(Prepare(f).value, c)[j] == PreparedCell(Get(f.rows[j], c), c)
  {
    PreparedRows(f);
    forall j | 0 <= j < |f.rows| ensures Field(Prepare(f).value[j], c) == PreparedCell(Get(f.rows[j], c), c) {
      PrepareRowCells(f.rows[j], c);
    }
  }

  /** The numbers median imputation sees in a sentinel column are the raw
      column's numbers other than the sentinels. */
  lemma SentinelColumnNumbers(f: Frame, c: Col)
    requires Prepare(f).Success? && SentinelColumn(c)
    ensures Numbers(Cells(Prepare(f).value, c)) == NonSentinelNumbers(Column(f.rows, c))
  {
    PreparedColumn(f, c);
    NumbersOfCleared(Column(f.rows, c), Cells(Prepare(f).value, c));
  }

  /** Steps 1-6 leave the station columns as they were read. */
  lemma StationColumnCells(f: Frame, c: Col)
    requires Prepare(f).Success? && StationColumn(c)
    ensures Cells(Prepare(f).value, c) == Column(f.rows, c)
  {
    RoleKept(c);
    PreparedColumn(f, c);
    var p := Prepare(f).value;
    assert forall j :: 0 <= j < |f.rows| ==> Cells(p, c)[j] == Column(f.rows, c)[j];
  }

  /** In the six sentinel columns a -99, a 93.2 or a NaN reading becomes the
      median of the column's other numbers (NaN when there are none, or when
      the column is not numeric); every other reading is kept. */
  lemma CleanSentinels(f: Frame, numeric: set<Col>, i: nat, c: Col)
    requires CleanData(f, numeric).Success? && i < |f.rows| && SentinelColumn(c)
    ensures var raw := Get(f.rows[i], c);
      Field(CleanData(f, numeric).value[i], c) ==
        if raw == Missing || IsSentinel(raw) then Imputed(NonSentinelNumbers(Column(f.rows, c)), c, numeric)
        else raw
  {
    RoleKept(c);
    CleanKeptCell(f, numeric, i, c);
    SentinelColumnNumbers(f, c);
  }

  /** Which columns `select_dtypes` can report after line 26: the `pd.NA`
      written there does not fit a float column, so a sentinel column in
      which a value was replaced turns into an object column. */
  predicate DtypesAfterReplace(f: Frame, numeric: set<Col>) {
    forall c, j :: SentinelColumn(c) && 0 <= j < |f.rows| && IsSentinel(Get(f.rows[j], c)) ==> c !in numeric
  }

  /** With those dtypes, a sentinel column that held a -99 or 93.2 is never
      imputed: its sentinels and its NaN readings all end as NaN, and every
      other reading is kept. */
  lemma ReplacedColumnUnfilled(f: Frame, numeric: set<Col>, i: nat, c: Col)
    requires CleanData(f, numeric).Success? && DtypesAfterReplace(f, numeric)
    requires i < |f.rows| && SentinelColumn(c)
    requires exists j :: 0 <= j < |f.rows| && IsSentinel(Get(f.rows[j], c))
    ensures var raw := Get(f.rows[i], c);
      Field(CleanData(f, numeric).value[i], c) == if raw == Missing || IsSentinel(raw) then Missing else raw
  {
    CleanSentinels(f, numeric, i, c);
  }

  /** In the station columns a NaN becomes the column's median when the
      column is numeric and has a number; every other cell is kept. */
  lemma CleanStationColumns(f: Frame, numeric: set<Col>, i: nat, c: Col)
    requires CleanData(f, numeric).Success? && i < |f.rows|
    requires StationColumn(c)
    ensures var raw := Get(f.rows[i], c);
      Field(CleanData(f, numeric).value[i], c) ==
        if raw == Missing then Imputed(Numbers(Column(f.rows, c)), c, numeric) else raw
  {
    RoleKept(c);
    CleanKeptCell(f, numeric, i, c);
    StationColumnCells(f, c);
  }

  /** After cleaning, a numeric column holds a NaN only if it holds no number
      at all. */
  lemma CleanNoMissing(f: Frame, numeric: set<Col>, c: Col, i: nat, j: nat)
    requires CleanData(f, numeric).Success? && i < |f.rows| && j < |f.rows|
    requires c in numeric
    requires Field(CleanData(f, numeric).value[i], c) == Missing
    ensures !Field(CleanData(f, numeric).value[j], c).Num?
  {
    CleanCell(f, numeric, i, c);
    CleanCell(f, numeric, j, c);
    var p := Prepare(f).value;
    assert Cells(p, c)[j] == Field(PrepareRow(f.rows[j]), c) by {
      PreparedRows(f);
    }
    NumbersEmpty(Cells(p, c));
  }

  /** A row with a value in every column that has a median is left alone. */
  lemma FillRowComplete(r: Record, medians: map<Col, real>)
    requires forall c :: c in medians ==> Field(r, c) != Missing
    ensures FillRow(r, medians) == r
  {
    forall k | 0 <= k < Width ensures FillRow(r, medians)[k] == r[k] {
      ColumnIndex(k);
      assert Field(r, CleanColumns[k]) == r[k];
    }
  }

  /** A column without numbers has no median, so imputation leaves it as it
      was. */
  lemma MedianFillNoNumbers(rows: seq<Record>, numeric: set<Col>, c: Col)
    requires |Numbers(Cells(rows, c))| == 0
    ensures Cells(MedianFill(rows, numeric), c) == Cells(rows, c)
  {
    var g := MedianFill(rows, numeric);
    forall j | 0 <= j < |g| ensures Cells(g, c)[j] == Cells(rows, c)[j] {
      MedianFillCell(rows, numeric, j, c);
    }
  }

  /** After imputation, a column that still has a median has no NaN left. */
  lemma FilledColumnComplete(rows: seq<Record>, numeric: set<Col>, i: nat, c: Col)
    requires i < |rows| && c in Medians(MedianFill(rows, numeric), numeric)
    ensures Field(MedianFill(rows, numeric)[i], c) != Missing
  {
    var g := MedianFill(rows, numeric);
    MedianFillCell(rows, numeric, i, c);
    if |Numbers(Cells(rows, c))| == 0 {
      MedianFillNoNumbers(rows, numeric, c);
    }
  }

  /** Median imputation is idempotent: a second pass finds nothing to fill. */
  lemma MedianFillIdempotent(rows: seq<Record>, numeric: set<Col>)
    ensures MedianFill(MedianFill(rows, numeric), numeric) == MedianFill(rows, numeric)
  {
    var g := MedianFill(rows, numeric);
    var m2 := Medians(g, numeric);
    forall i | 0 <= i < |g|
      ensures FillRow(g[i], m2) == g[i]
    {
      forall c | c in m2 ensures Field(g[i], c) != Missing {
        FilledColumnComplete(rows, numeric, i, c);
      }
      FillRowComplete(g[i], m2);
    }
  }
}
