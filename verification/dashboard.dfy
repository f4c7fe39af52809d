/** The row filter of the dashboard's two callbacks, `update_weather_graph`
    and `update_weather_histogram`: each looks the selected season and
    quarter up in its own month table and keeps the rows of the warehouse
    join that match every dropdown. */
module Dashboard {
  import opened Values
  import opened Frames
  import opened Sequences

  /** A row of `SELECT *` over Weather_Fact joined with both dimensions: the
      columns the filter reads, then the measures it passes through. `None`
      is SQL NULL. */
  datatype JoinedRow = JoinedRow(name: Option<string>, year: Option<int>, month: Option<int>, day: Option<int>,
                                 measures: seq<Cell>)

  /** The values of the station, year, season, quarter and month dropdowns;
      `None` is a dropdown the user cleared. */
  datatype Selection = Selection(station: Option<string>, year: Option<int>, season: Option<string>,
                                 quarter: Option<int>, month: Option<int>)

  /** `season_months` and `quarter_months` as `update_weather_graph`
      writes them (Front_Dash.py lines 123-135). */
  const GraphSeasonMonths: map<string, seq<int>> :=
    map["Spring" := [3, 4, 5], "Summer" := [6, 7, 8], "Autumn" := [9, 10, 11], "Winter" := [12, 1, 2]]
  const GraphQuarterMonths: map<int, seq<int>> :=
    map[1 := [1, 2, 3], 2 := [4, 5, 6], 3 := [7, 8, 9], 4 := [10, 11, 12]]

  /** The same two tables as `update_weather_histogram` writes them again
      (lines 162-174). */
  const HistogramSeasonMonths: map<string, seq<int>> :=
    map["Spring" := [3, 4, 5], "Summer" := [6, 7, 8], "Autumn" := [9, 10, 11], "Winter" := [12, 1, 2]]
  const HistogramQuarterMonths: map<int, seq<int>> :=
    map[1 := [1, 2, 3], 2 := [4, 5, 6], 3 := [7, 8, 9], 4 := [10, 11, 12]]

  /** `table[key]`: a key the table lacks, a cleared dropdown included,
      raises KeyError. */
  function Lookup<K>(table: map<K, seq<int>>, key: Option<K>): Result<seq<int>> {
    if key.Some? && key.value in table then Success(table[key.value]) else Failure(UnknownSelection)
  }

  /** One row of the boolean mask: Name, Year and Month equal the selection
      and Month is in both month lists. pandas compares a NULL cell or a
      cleared dropdown as unequal to everything. */
  predicate Keeps(r: JoinedRow, s: Selection, seasonMonths: seq<int>, quarterMonths: seq<int>) {
    && s.station.Some? && r.name == s.station
    && s.year.Some? && r.year == s.year
    && r.month.Some? && r.month.value in seasonMonths
    && r.month.value in quarterMonths
    && s.month.Some? && r.month == s.month
  }

  function Mask(s: Selection, seasonMonths: seq<int>, quarterMonths: seq<int>): JoinedRow -> bool {
    r => Keeps(r, s, seasonMonths, quarterMonths)
  }

  /** `df[mask]` with the callback's own tables; the season is looked up
      before the quarter. */
  function SelectRows(rows: seq<JoinedRow>, s: Selection, seasons: map<string, seq<int>>, quarters: map<int, seq<int>>)
    : Result<seq<JoinedRow>>
  {
    var seasonMonths :- Lookup(seasons, s.season);
    var quarterMonths :- Lookup(quarters, s.quarter);
    Success(Filter(rows, Mask(s, seasonMonths, quarterMonths)))
  }

  /** The rows `update_weather_graph` plots (lines 137-143). */
  function GraphRows(rows: seq<JoinedRow>, s: Selection): Result<seq<JoinedRow>> {
    SelectRows(rows, s, GraphSeasonMonths, GraphQuarterMonths)
  }

  /** The rows `update_weather_histogram` plots (lines 176-182). */
  function HistogramRows(rows: seq<JoinedRow>, s: Selection): Result<seq<JoinedRow>> {
    SelectRows(rows, s, HistogramSeasonMonths, HistogramQuarterMonths)
  }

  /** Both callbacks select the same rows for every table and selection:
      their two copies of the month tables agree. */
  lemma SameRows(rows: seq<JoinedRow>, s: Selection)
    ensures GraphRows(rows, s) == HistogramRows(rows, s)
  {
    assert GraphSeasonMonths == HistogramSeasonMonths;
    assert GraphQuarterMonths == HistogramQuarterMonths;
  }

  /** The meteorological season of a calendar month: the reference the
      season table is checked against. */
  function SeasonOf(m: int): string {
    if 3 <= m <= 5 then "Spring"
    else if 6 <= m <= 8 then "Summer"
    else if 9 <= m <= 11 then "Autumn"
    else "Winter"
  }

  /** The season table has the four seasons as keys, and a season's list
      holds exactly the calendar months of that season: the lists are
      disjoint and together cover 1..12. */
  lemma SeasonsPartition()
    ensures forall k :: k in GraphSeasonMonths <==> k in ["Spring", "Summer", "Autumn", "Winter"]
    ensures forall k, m :: k in GraphSeasonMonths ==> (m in GraphSeasonMonths[k] <==> 1 <= m <= 12 && SeasonOf(m) == k)
  {
    forall k, m | k in GraphSeasonMonths
      ensures m in GraphSeasonMonths[k] <==> 1 <= m <= 12 && SeasonOf(m) == k
    {
      assert k == "Spring" || k == "Summer" || k == "Autumn" || k == "Winter";
    }
  }

  /** The quarter table has the keys 1..4, quarter q holds the three
      consecutive months 3q-2, 3q-1 and 3q, so a month m is in quarter
      (m + 2) / 3 and in no other. */
  lemma QuartersConsecutive()
    ensures forall q :: q in GraphQuarterMonths <==> 1 <= q <= 4
    ensures forall q :: q in GraphQuarterMonths ==> GraphQuarterMonths[q] == [3 * q - 2, 3 * q - 1, 3 * q]
    ensures forall q, m :: q in GraphQuarterMonths ==> (m in GraphQuarterMonths[q] <==> 1 <= m <= 12 && (m + 2) / 3 == q)
  {
    forall q, m | q in GraphQuarterMonths
      ensures m in GraphQuarterMonths[q] <==> 1 <= m <= 12 && (m + 2) / 3 == q
    {
      assert q == 1 || q == 2 || q == 3 || q == 4;
    }
  }

  /** The station, year and month dropdowns alone. */
  predicate MatchesDropdowns(r: JoinedRow, s: Selection) {
    s.station.Some? && r.name == s.station && s.year.Some? && r.year == s.year && s.month.Some? && r.month == s.month
  }

  function MonthMask(s: Selection): JoinedRow -> bool {
    r => MatchesDropdowns(r, s)
  }

  /** The selected month lies in the selected season and quarter. */
  predicate Consistent(s: Selection) {
    && s.month.Some? && s.season.Some? && s.quarter.Some?
    && 1 <= s.month.value <= 12
    && SeasonOf(s.month.value) == s.season.value
    && (s.month.value + 2) / 3 == s.quarter.value
  }

  /** The graph callback raises exactly when the season or the quarter is
      not a key of its table. */
  lemma GraphOutcome(rows: seq<JoinedRow>, s: Selection)
    ensures GraphRows(rows, s).Success? <==>
      s.season.Some? && s.season.value in ["Spring", "Summer", "Autumn", "Winter"] && s.quarter.Some? && 1 <= s.quarter.value <= 4
    ensures GraphRows(rows, s).Failure? ==> GraphRows(rows, s).error == UnknownSelection
  {
    SeasonsPartition();
    QuartersConsecutive();
  }

  /** With known keys, a row passes the mask exactly when it matches the
      three value dropdowns and the month lies in the chosen season and
      quarter. */
  lemma MaskMeaning(r: JoinedRow, s: Selection)
    requires s.season.Some? && s.season.value in GraphSeasonMonths
    requires s.quarter.Some? && s.quarter.value in GraphQuarterMonths
    ensures Mask(s, GraphSeasonMonths[s.season.value], GraphQuarterMonths[s.quarter.value])(r)
      <==> MatchesDropdowns(r, s) && Consistent(s)
  {
    SeasonsPartition();
    QuartersConsecutive();
  }

  /** The season and quarter dropdowns either contradict the month, and
      the graph is empty, or add nothing to the station, year and month
      tests. */
  lemma GraphSelects(rows: seq<JoinedRow>, s: Selection)
    requires GraphRows(rows, s).Success?
    ensures GraphRows(rows, s).value == if Consistent(s) then Filter(rows, MonthMask(s)) else []
  {
    GraphOutcome(rows, s);
    var mask := Mask(s, GraphSeasonMonths[s.season.value], GraphQuarterMonths[s.quarter.value]);
    forall i | 0 <= i < |rows| ensures mask(rows[i]) <==> MatchesDropdowns(rows[i], s) && Consistent(s) {
      MaskMeaning(rows[i], s);
    }
    if Consistent(s) {
      FilterCongruent(rows, mask, MonthMask(s));
    } else {
      FilterEmpty(rows, mask);
    }
  }

  /** The plotted rows are the rows of the join at increasing positions,
      and a position is taken exactly when its row matches the selection. */
  lemma GraphSubsequence(rows: seq<JoinedRow>, s: Selection) returns (idx: seq<nat>)
    requires GraphRows(rows, s).Success?
    ensures |idx| == |GraphRows(rows, s).value| && StrictlyIncreasing(idx)
    ensures forall j :: 0 <= j < |idx| ==> idx[j] < |rows| && GraphRows(rows, s).value[j] == rows[idx[j]]
    ensures forall i :: 0 <= i < |rows| ==> (i in idx <==> MatchesDropdowns(rows[i], s) && Consistent(s))
  {
    GraphOutcome(rows, s);
    var mask := Mask(s, GraphSeasonMonths[s.season.value], GraphQuarterMonths[s.quarter.value]);
    idx := FilterPositions(rows, mask);
    forall i | 0 <= i < |rows| ensures mask(rows[i]) <==> MatchesDropdowns(rows[i], s) && Consistent(s) {
      MaskMeaning(rows[i], s);
    }
  }
}
