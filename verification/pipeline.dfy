/** The programs run one after the other: ETL.py merges and cleans the
    regional files into one table, and DB.py loads that table into the
    warehouse and seeds the calendar. */
module Pipeline {
  import opened Values
  import opened Frames
  import opened Schema
  import opened Merge
  import opened Clean
  import opened Warehouse

  /** ETL.py `main` followed by DB.py `main`, given the tables each glob
      pattern's files hold and the columns `select_dtypes` reports as
      numeric. */
  function Deploy(w: Warehouse, algeria: seq<Frame>, morocco: seq<Frame>, tunisia: seq<Frame>,
                  numeric: set<Col>, calendar: seq<CalendarDay>): Result<Warehouse>
  {
    var merged :- CombineRegions(algeria, morocco, tunisia);
    var cleaned :- CleanData(merged, numeric);
    Load(w, cleaned, calendar)
  }

  /** A successful deployment adds one fact per row of every regional file. */
  lemma DeployFacts(w: Warehouse, algeria: seq<Frame>, morocco: seq<Frame>, tunisia: seq<Frame>,
                    numeric: set<Col>, calendar: seq<CalendarDay>)
    requires ValidWarehouse(w) && Deploy(w, algeria, morocco, tunisia, numeric, calendar).Success?
    ensures ValidWarehouse(Deploy(w, algeria, morocco, tunisia, numeric, calendar).value)
    ensures |Deploy(w, algeria, morocco, tunisia, numeric, calendar).value.facts|
      == |w.facts| + TotalRows(algeria) + TotalRows(morocco) + TotalRows(tunisia)
  {
    var merged := CombineRegions(algeria, morocco, tunisia).value;
    CleanOutcome(merged, numeric);
    var cleaned := CleanData(merged, numeric).value;
    RunOutcome(w, cleaned, calendar);
    PopulateOutcome(w, cleaned);
    PopulatedFacts(w, cleaned);
  }

  /** Every PAYS value of a cleaned table fits Station_Dim's CHAR(2)
      column: two characters at most, or NaN where STATION is not text. */
  lemma CleanedPaysFits(f: Frame, numeric: set<Col>, i: nat)
    requires CleanData(f, numeric).Success? && i < |f.rows|
    ensures Field(CleanData(f, numeric).value[i], PAYS).Text? ==> |Field(CleanData(f, numeric).value[i], PAYS).text| <= 2
    ensures Field(CleanData(f, numeric).value[i], PAYS).Text? <==> Get(f.rows[i], STATION).Text?
  {
    CleanPays(f, numeric, i);
  }
}
