/** Failure-compatible wrappers, the error taxonomy of the weather pipeline
    and the column labels it reads. The data-dependent exceptions the model
    covers are `Error` values here instead of preconditions; README.md lists
    those it leaves out. */
module Values {

  datatype Option<+T> = None | Some(value: T)

  /** The headers the code names, spelled as in the files. */
  const NamedHeaders: set<string> := {
    "STATION", "NAME", "LATITUDE", "LONGITUDE", "ELEVATION", "DATE",
    "PRCP", "TAVG", "TMAX", "TMIN", "SNWD", "PGTM", "SNOW", "WDFG", "WSFG",
    "YEAR", "MONTH", "DAY", "PAYS"}

  /** Any other header text. */
  type OtherHeader = h: string | h !in NamedHeaders witness ""

  /** A column label of the weather CSV files. Each label the code names has
      its own constructor; `Other` is any other header, so no two labels
      stand for the same header text. */
  datatype Col =
    | STATION | NAME | LATITUDE | LONGITUDE | ELEVATION | DATE
    | PRCP | TAVG | TMAX | TMIN | SNWD | PGTM | SNOW | WDFG | WSFG
    | YEAR | MONTH | DAY | PAYS
    | Other(header: OtherHeader)

  /** The two dimension tables of the warehouse. */
  datatype DimTable = StationDim | DateDim

  datatype Error =
    /** `pd.concat` was given no tables (a glob pattern matched no file). */
    | NoObjectsToConcatenate
    /** A `KeyError`: a column the code indexes by name is absent. */
    | MissingColumn(column: Col)
    /** `pd.to_datetime(..., format='%Y-%m-%d')` rejected the DATE of a row. */
    | InvalidDate(row: nat)
    /** The `.str` accessor was used on a column pandas does not hold as
        strings (an AttributeError). */
    | NotStringColumn(column: Col)
    /** pymysql refuses to send a NaN float; `table` names the dimension and
        `position` the offending tuple in insertion order. */
    | NanInDimension(table: DimTable, position: nat)
    /** A `KeyError` on a surrogate-key map during the fact pass. */
    | UnknownKey(row: nat)
    /** MySQL duplicate-entry error on the composite primary key of Weather_Fact. */
    | DuplicateFactKey(row: nat)
    /** MySQL foreign-key error on Weather_Fact. */
    | ForeignKeyViolation(row: nat)
    /** A `KeyError` on the dashboard's season or quarter table. */
    | UnknownSelection

  /** The outcome of an operation that may raise; usable with `:-`. */
  datatype Result<+T> = Success(value: T) | Failure(error: Error) {

    predicate IsFailure() {
      Failure?
    }

    function PropagateFailure<U>(): Result<U>
      requires Failure?
    {
      Failure(error)
    }

    function Extract(): T
      requires Success?
    {
      value
    }
  }
}
