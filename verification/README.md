# Weather data warehouse pipeline, modelled in Dafny

The repository turns daily weather-station extracts for Algeria, Morocco and
Tunisia into a MySQL star schema, then shows it in a Dash dashboard. This
project models the three parts of that pipeline that hold its logic, as pure
functions over sequences of rows, and proves properties of them.

1. **ETL.py.** `merge_files` concatenates the tables of one region's files,
   and `main` concatenates the three regions. `clean_data` then applies these
   steps in order:
   - projects to the fifteen `keep_columns`;
   - parses DATE with the format `%Y-%m-%d` and derives YEAR, MONTH and DAY;
     the model takes a four-digit year and a month and day of one or two
     digits each, all ASCII digits, so `2020-1-5` parses as 5 January 2020; an empty DATE and
     pandas' NaT strings (`NaT`, `nat`, `NAT`, `nan`, `NaN`, `NAN`) become
     NaT;
   - derives PAYS from the station code with `.str[:2]`;
   - blanks the sentinels -99 and 93.2 in six measurement columns;
   - zero-fills PRCP, SNWD and SNOW;
   - fills every other NaN of a numeric column with that column's median.
2. **DB.py.**
   - `populate_tables` deduplicates the station tuples and the date tuples.
     It inserts them under AUTO_INCREMENT ids and records the ids in
     code→id and date→id maps. It then inserts one Weather_Fact row per
     record.
   - `populate_date_dim` appends a whole calendar to Date_Dim.
   - The PRIMARY KEY and FOREIGN KEY clauses of `create_tables` are stated
     as the invariant `Warehouse.ValidWarehouse`.
3. **Front_Dash.py.** The season and quarter month tables, and the boolean
   row filter that `update_weather_graph` and `update_weather_histogram`
   apply to the warehouse join.

Modules, in dependency order:

| module | file | contents |
|---|---|---|
| `Values` | values.dfy | `Option`, `Result` (usable with `:-`), the column labels, the error taxonomy |
| `Dates` | dates.dfy | `%Y-%m-%d` parsing with one- or two-digit month and day, inside pandas' timestamp range, and its inverse |
| `Frames` | frames.dfy | a raw table: column labels, rows as label→cell maps, NaN as `Missing` |
| `Sequences` | sequences.dfy | `Distinct`, `Dedup` (first occurrences, in order), `Filter`, with their lemmas |
| `Median` | median.dfy | insertion sort and the median pandas computes |
| `Merge` | merge.dfy | `pd.concat` with `ignore_index=True`, and the three-region concat |
| `Schema` | schema.dfy | the nineteen columns of a cleaned row |
| `Clean` | clean.dfy | `clean_data` step by step, and what it does to each cell |
| `Warehouse` | warehouse.dfy | the star schema, `populate_tables`, `populate_date_dim`, DB.py's `main` |
| `Dashboard` | dashboard.dfy | the month tables and the row filter of both callbacks |
| `Pipeline` | pipeline.dfy | ETL.py's `main` followed by DB.py's `main` |

These data-dependent exceptions of the Python code are each a `Failure`
carrying an `Error`, not a precondition:
- an empty glob;
- a missing kept column;
- an unparsable date;
- `.str` on a STATION column pandas does not hold as text, such as one that
  is entirely NaN or entirely numeric;
- a NaN that pymysql cannot send;
- a duplicate fact key;
- an unknown season or quarter.

Errors MySQL raises on a column type are not modelled; "## Left out" lists
them.

The database is a value of type `Warehouse`. Each statement is a function
of it. A failed load keeps every row as it was, as the rollback of the
uncommitted transaction does. The AUTO_INCREMENT counters are not rolled
back: each dimension insert that ran before the failing statement keeps its
id used up.

## Behaviour of the code worth knowing

- **A rerun does not fail.** A rerun on a loaded warehouse succeeds and
  loads every fact a second time (`Warehouse.RerunSucceeds`). Every run
  inserts the dimension
  rows again under fresh AUTO_INCREMENT ids, so every new fact has a fresh
  primary key.
- **Dimension rows repeat per full tuple, not per natural key.**
  `drop_duplicates` runs over the full tuple (DB.py:64-65). Two tuples with
  the same station code but different attributes get two Station_Dim rows,
  and the code→id map keeps the id of the later one (`Warehouse.KeyMapLast`,
  `Warehouse.PopulatedJoin`).
- **A sentinel column that held a sentinel is never imputed.** The `pd.NA`
  that ETL.py:26 writes does not fit a float column, so a sentinel column in
  which it replaced a -99 or 93.2 becomes an object column. `select_dtypes`
  then leaves it out, and ETL.py:32 does not fill it: its sentinels and its
  other NaN readings all end as NaN (`Clean.ReplacedColumnUnfilled`). Only a
  sentinel column without any sentinel is imputed with its median.
- **Differing columns do not raise.** `pd.concat` takes the outer union of
  the columns (`Merge.AllColumnsMembers`). There is no schema-mismatch
  error; the columns one file lacks read as NaN.
- **A NaN in a dimension tuple fails the load.** The dimension inserts
  happen before the NaN→None replacement of DB.py:83, so pymysql is handed
  a NaN float, which it refuses to send. The model makes that a
  `NanInDimension` failure. The fact
  pass runs after the replacement, so a NaN measure goes in as NULL. The
  calendar is cleaned of NaN before its inserts, so its NULLs are accepted.

## Model

| member | source | states |
|---|---|---|
| Merge.Concat | ETL.py:5-11 | `pd.concat` of a region's tables fails with NoObjectsToConcatenate exactly when the glob matched no file. Otherwise its rows are every table's rows, table after table, each row keeping its own cells; the columns start with the first table's columns and are exactly those of some table. |
| Merge.AllColumnsMembers | ETL.py:8 | The merged columns are the union of every table's columns (an outer join), led by the first table's. |
| Merge.ConcatBlocks | ETL.py:8 | The rows of the k-th file form one contiguous block of the merged table, placed after the rows of all files enumerated before it. |
| Merge.CombineRegions | ETL.py:42-46 | The three-region concat fails exactly when some region has no file. Otherwise it holds Algeria's rows, then Morocco's, then Tunisia's, and its row count is the total of all files. |
| Dates.ParseFormat | ETL.py:19 | Writing a parsed date as `YYYY-MM-DD` and parsing it back gives the same date. This is what lets the CSV round trip between the two programs be left out. |
| Dates.ParseSpelling | ETL.py:19 | Every spelling of a date in the timestamp range with a four-digit year and a one- or two-digit month and day (`2020-01-05`, `2020-1-05`, `2020-01-5`, `2020-1-5`) parses to that date. |
| Dates.FormatParse | ETL.py:19 | A string the model's `%Y-%m-%d` parser accepts is one of those spellings of the date it parses to: a four-digit year, a dash, the month in one or two digits, a dash, the day in one or two digits. |
| Clean.KeptColumnsListed | ETL.py:15-16 | A column is one of the fifteen `keep_columns` exactly when the schema's projection keeps it. |
| Clean.Project | ETL.py:15-17 | The projection succeeds exactly when every kept column is present. Otherwise it raises for a kept column the table lacks. On success it keeps the row count, and each row holds its own values of the kept columns. |
| Clean.ParseDates | ETL.py:19-22 | Date parsing succeeds exactly when every row's DATE parses or is NaN, empty or a NaT string. Otherwise it reports the first row whose DATE fails. On success every row gets its parsed date (NaT for the others) and the derived fields. |
| Clean.DerivePays | ETL.py:23 | `.str` on STATION raises NotStringColumn exactly when the column is non-empty and holds no text cell. Otherwise every row gains its PAYS and keeps everything else. |
| Clean.PaysOf | ETL.py:23 | PAYS is a prefix of the station code of length min(2, length). It is NaN when STATION is not text. |
| Clean.ClearSentinel | ETL.py:26 | Sentinel replacement turns -99 and 93.2 into NaN and keeps every other cell. |
| Clean.ZeroIfMissing | ETL.py:28 | Zero-fill turns a NaN into 0 and keeps every present value. |
| Median.MedianOf | ETL.py:31-32 | A column has a median exactly when it has at least one number. |
| Median.MedianOrderIndependent | ETL.py:32 | The median depends only on the multiset of a column's numbers, not on row order. |
| Median.MedianSplitsValues | ETL.py:32 | At least half of a column's numbers lie at or below its median, and at least half at or above it. |
| Clean.MediansSplit | ETL.py:31-32 | `median()` gives a value only for a numeric column with at least one number, and that value splits the column's numbers: at least half lie at or below it and at least half at or above it. |
| Clean.MedianFillCell | ETL.py:31-32 | Imputation turns a NaN in a numeric column that has numbers into the column's median. It keeps every other cell. |
| Clean.MedianFillNoNumbers | ETL.py:32 | A column without numbers comes out of imputation unchanged (it stays NaN). |
| Clean.FilledColumnComplete | ETL.py:32 | After imputation, a column that still has a median holds no NaN. |
| Clean.MedianFillIdempotent | ETL.py:32 | Imputing a second time changes nothing. |
| Clean.PrepareRows | ETL.py:14-28 | The steps before imputation succeed exactly when every kept column exists, every DATE parses and `.str` is allowed on STATION. They keep the row count and rewrite each row on its own. |
| Clean.PrepareErrors | ETL.py:15-23 | When those steps fail, the error is a missing kept column; with every column present, the first row whose DATE does not parse; with every DATE parsed too, NotStringColumn for STATION. |
| Clean.CleanOutcome | ETL.py:14-34 | `clean_data` succeeds exactly when every kept column exists, every DATE parses and `.str` is allowed on STATION. Otherwise it raises MissingColumn for an absent kept column, InvalidDate for the first bad row, or NotStringColumn for STATION, in that order. On success it keeps the row count. |
| Clean.CleanCell | ETL.py:31-32 | A cleaned cell is the prepared cell. When that cell is NaN in a numeric column with numbers, it is instead the median of the prepared column. |
| Clean.CleanKeptCell | ETL.py:25-32 | A cleaned cell of a kept column is the raw cell after sentinel clearing and zero-fill, or the prepared column's median where that is NaN. |
| Clean.CleanDates | ETL.py:19-22 | In a cleaned table a textual DATE that is not empty or a NaT string always parses, and DATE, YEAR, MONTH and DAY equal the parsed date and its components. A NaN DATE, or one of those strings, ends as NaN. |
| Clean.CleanPays | ETL.py:23 | A cleaned PAYS is the prefix of the raw STATION, whatever imputation does. |
| Clean.CleanZeroFill | ETL.py:28-32 | A NaN PRCP, SNWD or SNOW becomes 0, never the median. A present value, even -99 or 93.2, is kept. |
| Clean.SentinelColumnNumbers | ETL.py:25-32 | The numbers imputation sees in a sentinel column are the raw column's numbers other than -99 and 93.2. |
| Clean.ReplacedColumnUnfilled | ETL.py:26-32 | When a sentinel column held a -99 or 93.2, it is not among the numeric columns, so its sentinels and NaN readings all end as NaN and every other reading is kept. |
| Clean.CleanSentinels | ETL.py:25-32 | In TMIN, TMAX, TAVG, PGTM, WDFG and WSFG, a NaN, -99 or 93.2 becomes the median of the column's other numbers. It stays NaN if there are none or the column is not numeric. Every other value is kept. |
| Clean.StationColumnCells | ETL.py:17-28 | The steps before imputation leave the five station columns as read. |
| Clean.CleanStationColumns | ETL.py:31-32 | A NaN in a station column becomes the column's median when the column is numeric and has a number. Every other cell is kept. |
| Clean.NoNumbersInDateOrPays | ETL.py:19-32 | DATE and PAYS never hold a number, so imputation has nothing to fill them with. |
| Clean.CleanNoMissing | ETL.py:31-32 | A numeric column that still holds a NaN after cleaning holds no number anywhere. |
| Warehouse.EmptyValid | DB.py:13-55 | The freshly created schema satisfies every key constraint. |
| Warehouse.AppendValid | DB.py:17-34 | AUTO_INCREMENT inserts keep ids positive, strictly increasing in insertion order, and below the counter. |
| Warehouse.AppendIds | DB.py:68-81 | After an insert, a table holds exactly the old ids and the block of fresh ids starting at the old counter. |
| Warehouse.InsertDimension | DB.py:68-81 | A dimension pass succeeds exactly when no tuple holds a NaN, and then appends every tuple in order under consecutive fresh ids. Otherwise it fails on the first NaN tuple. |
| Sequences.DedupIdempotent | DB.py:64-65 | `drop_duplicates` a second time removes nothing more. |
| Warehouse.TuplesDistinctInOrder | DB.py:64-65 | `drop_duplicates` yields each full tuple of the data once, and only those. The tuples come in the order of their first occurrence. |
| Warehouse.TuplesNaNFree | DB.py:64-72 | Deduplication neither adds nor removes a NaN-holding tuple. |
| Warehouse.KeyMapLast | DB.py:73 | The map sends each key to the id of the last insert with that key: later inserts overwrite earlier ones. |
| Warehouse.KeyMapInjective | DB.py:67-81 | Each mapped id is among the ids just inserted, and distinct keys map to distinct ids. |
| Warehouse.MappedId | DB.py:67-81 | Every record's STATION, and likewise its DATE, has a map entry naming one of the ids just inserted. |
| Warehouse.SameId | DB.py:73-81 | Two records get the same id exactly when they have the same key. |
| Warehouse.InsertFactsOutcome | DB.py:85-91 | When every key resolves to existing rows, the fact loop succeeds exactly when old and new facts repeat no primary key. It then appends one fact per record in order; otherwise it stops on a duplicate key. |
| Warehouse.MapsReference | DB.py:85-91 | Every record's lookup succeeds, and both ids name rows of the dimensions (the FOREIGN KEY clauses). |
| Warehouse.OldNewDisjoint | DB.py:50 | No new fact repeats the primary key of a fact already loaded. |
| Warehouse.AllKeysDistinct | DB.py:50 | After the fact pass, all primary keys are distinct exactly when no two records share a (STATION, DATE) pair. |
| Warehouse.FactPassOutcome | DB.py:83-91 | The fact pass succeeds exactly when no two records share a (STATION, DATE) pair. It then appends one fact per record; otherwise it fails with a duplicate key. |
| Warehouse.PopulateOutcome | DB.py:62-93 | `populate_tables` succeeds exactly when no station or date tuple holds a NaN and no (STATION, DATE) pair repeats. It fails only on a NaN tuple or a duplicate key, never on a map lookup or foreign key. A NaN station tuple fails in Station_Dim; a NaN date tuple alone fails in Date_Dim. |
| Warehouse.PopulateValue | DB.py:62-93 | A successful `populate_tables` yields the reference state `Populated`: both dimensions appended, then one fact per record after the old facts. |
| Warehouse.PopulatedValid | DB.py:50-52 | That reference state satisfies every primary and foreign key constraint when no (STATION, DATE) pair repeats. |
| Warehouse.PopulateValid | DB.py:62-93 | A successful `populate_tables` keeps every constraint of the schema. |
| Warehouse.PopulatedFacts | DB.py:83-91 | One fact is added per record, in record order, after the facts already there, each holding its record's nine measures. |
| Warehouse.PopulatedDimensions | DB.py:68-81 | Each dimension keeps its rows and gains one row per distinct tuple: the k-th distinct tuple under id counter + k. |
| Warehouse.AppendJoinsLatest | DB.py:67-81 | After a dimension pass, the id a record's key maps to belongs to exactly one row: the latest inserted row carrying that key. |
| Warehouse.PopulatedJoin | DB.py:73-91 | The fact of record i joins, through each foreign key, the latest Station_Dim row with the record's STATION and the latest Date_Dim row with its DATE. |
| Warehouse.PopulateDateDim | DB.py:96-104 | Calendar seeding keeps the Date_Dim rows there were and adds calendar line k's date, year, month and day under id counter + k. Station_Dim and Weather_Fact stay unchanged. |
| Warehouse.PopulateDateDimValid | DB.py:96-104 | Calendar seeding keeps every constraint of the schema. |
| Warehouse.CalendarDuplicates | DB.py:96-103 | A calendar line equal to a date already loaded becomes a second Date_Dim row with the same values under a different id. |
| Warehouse.RunOutcome | DB.py:117-127 | A run on a valid warehouse keeps it valid. If the records are not loadable it changes no row (rollback); otherwise it is the loaded state followed by the calendar. |
| Warehouse.RollbackOutcome | DB.py:117-127 | A failed run keeps every row and the schema's constraints; each AUTO_INCREMENT counter moves up by at most the number of tuples its dimension had to insert. |
| Warehouse.RollbackStationNaN | DB.py:68-73 | After a NaN station tuple, the station counter has moved past exactly the tuples inserted before the first NaN one, and the date counter has not moved. |
| Warehouse.RollbackDateNaN | DB.py:68-81 | After a NaN date tuple only, every station id and the date ids before the first NaN date tuple stay used. |
| Warehouse.RollbackDuplicate | DB.py:62-91 | After a repeated (STATION, DATE) pair, both counters have moved past every tuple of their dimension. |
| Warehouse.RerunSucceeds | DB.py:117-127 | Running the loader twice on the same data succeeds both times and loads every record twice. |
| Pipeline.DeployFacts | DB.py:117-127 | A successful ETL run followed by a load leaves a valid warehouse with one new fact per row of every regional file. |
| Pipeline.CleanedPaysFits | DB.py:23 | Every cleaned PAYS fits Station_Dim's CHAR(2): it is text of at most two characters exactly when STATION is text. |
| Dashboard.SeasonsPartition | Front_Dash.py:123-128 | The season table has the four seasons as keys. A month is in a season's list exactly when it is in 1..12 and belongs to that season, so the lists are disjoint and cover 1..12. |
| Dashboard.QuartersConsecutive | Front_Dash.py:130-135 | The quarter table has keys 1..4, and quarter q is [3q-2, 3q-1, 3q]. Month m is in quarter (m+2)/3 and in no other. |
| Dashboard.GraphOutcome | Front_Dash.py:137-143 | The filter raises exactly when the season or quarter is not a key of its table, and then with a KeyError. |
| Dashboard.MaskMeaning | Front_Dash.py:137-142 | For known keys, a row passes the mask exactly when it matches Name, Year and Month and the month lies in both the season and the quarter. |
| Dashboard.GraphSelects | Front_Dash.py:137-143 | The filtered rows are the rows matching Name, Year and Month when the month lies in the chosen season and quarter, and no rows otherwise. |
| Dashboard.GraphSubsequence | Front_Dash.py:137-143 | The filtered rows are the table's rows at strictly increasing positions. A position is taken exactly when its row matches the selection. |
| Dashboard.SameRows | Front_Dash.py:162-182 | The histogram callback selects exactly the rows the graph callback selects, for every table and selection. |

## Left out

- **File I/O.** `glob.glob`, `read_csv` and `to_csv` are left out. Each glob's tables are a parameter, in enumeration order. The cleaned table goes straight into the loader instead of through Weather_data.csv. A date written by `to_csv` is read back as its `YYYY-MM-DD` text; `Dates.ParseFormat` shows that text parses back to the same date.
- **`read_csv`'s missing-value strings at DB.py:120.** The re-read turns a NAME or PAYS spelled as one of pandas' missing-value markers, such as `NA`, `null`, `N/A` or the empty string, into NaN. Such a station tuple would then fail in Station_Dim; the model keeps the text and loads it.
- **`read_csv`'s type inference at DB.py:120.** A STATION or PAYS column whose values all look like numbers is re-read as integers, losing leading zeros. The model keeps those values as text.
- **The CSV write and re-read of cleaned values.** Numbers keep their exact values across it.
- **Database plumbing.** The connection, `create_database`, cursors and SQL text are left out. The DDL appears only as the invariant `ValidWarehouse`, and `cursor.lastrowid` as the counter of the AUTO_INCREMENT table.
- **Which columns are numeric.** `select_dtypes` depends on pandas' dtype inference, so the set of numeric columns is a parameter of `CleanData`. One rule of that inference is stated as `Clean.DtypesAfterReplace`: a sentinel column in which ETL.py:26 replaced a value is an object column and never numeric. `Clean.ReplacedColumnUnfilled` assumes it; `Clean.CleanSentinels` holds for any set of numeric columns.
- **Which columns `.str` accepts.** pandas raises on `.str` unless the column holds a string or is empty; an object column whose values are all numbers raises too. The model states that rule on the cells: STATION counts as text when it is empty or holds at least one text cell. It leaves out the dtype pandas infers for other cell kinds, such as timestamps or booleans.
- **Float arithmetic.** Measurements are exact reals. The sentinel test is exact equality with -99 and 93.2, and the median of an even count is the exact mean of the two middle values, without float rounding.
- **MySQL column types.** In strict mode MySQL rejects text sent to a FLOAT column and text longer than a VARCHAR(255) or CHAR(2) column, and the insert raises. The model raises no such error: it loads any cell. CHAR(2) is covered only by `Pipeline.CleanedPaysFits`, which shows a cleaned PAYS always fits.
- **The order of MySQL's checks.** The fact insert checks a map lookup, then the foreign keys, then the primary key. The model keeps that order, but the first two are proved never to fail, so only the primary key can reject a fact.
- **The dashboard outside its filter.** `fetch_data`, the layout, the dropdown options, `measure_descriptions`, the figures and `run_server` are left out. The measure dropdown does not affect which rows are kept. The join result is a parameter, one `JoinedRow` per joined row.
- **An empty warehouse at dashboard start.** That crashes while the layout is built, before any callback runs. The filter is modelled for any table.
- **Printed diagnostics.** All `print` output is left out.
- Dates.FormatParse: the parser does not accept three kinds of spelling that pandas' `%Y-%m-%d` handling may accept. One is a day written as a space and one digit (`2020-01- 5`), which the strptime pattern for `%d` admits. Another is decimal digits outside ASCII, such as Arabic-Indic or full-width digits, which the strptime `\d` patterns accept and `int()` reads. The third is `today` or `now`, which pandas turns into the current time; the clock is not modelled.
- Clean.ParseDates: reports InvalidDate for a DATE of `today`, `now`, a space-padded day such as `2020-01- 5` or one written with non-ASCII decimal digits, on which pandas raises nothing. The empty string and the NaT strings are modelled.
- Clean.PrepareRows: its "every DATE parses" uses the model's parser, so it counts those same DATE strings as failures.
- Clean.PrepareErrors: reports InvalidDate for those same DATE strings.
- Clean.CleanOutcome: fails with InvalidDate on those same DATE strings, where `clean_data` succeeds.
- Dashboard.GraphOutcome: stated for the graph callback only; `Dashboard.SameRows` carries it over to the histogram callback.
