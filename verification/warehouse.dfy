/** `populate_tables` and `populate_date_dim`: loading the cleaned table
    into the star schema of `create_tables`. Station_Dim and Date_Dim get
    one AUTO_INCREMENT row per distinct tuple, Weather_Fact one row per
    observation, keyed by the surrogate ids the dimension inserts returned.
    The rows come in as the cleaned records; the database is a value and
    every statement a function of it. */
module Warehouse {
  import opened Values
  import opened Frames
  import opened Sequences
  import opened Schema

  /** The columns `populate_tables` selects for Station_Dim, Date_Dim and
      the measures of Weather_Fact, in insertion order. */
  const StationColumns: seq<Col> := [STATION, NAME, LATITUDE, LONGITUDE, ELEVATION, PAYS]
  const DateColumns: seq<Col> := [DATE, YEAR, MONTH, DAY]
  const MeasureColumns: seq<Col> := [PRCP, TAVG, TMAX, TMIN, SNWD, PGTM, SNOW, WDFG, WSFG]

  /** `tuple(row[cols])` on a cleaned row. */
  function Pick(r: Record, cols: seq<Col>): (t: seq<Cell>)
    ensures |t| == |cols|
    ensures forall i :: 0 <= i < |cols| ==> t[i] == Field(r, cols[i])
  {
    seq(|cols|, i requires 0 <= i < |cols| => Field(r, cols[i]))
  }

  /** `data[cols]`, row by row. */
  function PickAll(data: seq<Record>, cols: seq<Col>): (ts: seq<seq<Cell>>)
    ensures |ts| == |data|
    ensures forall k :: 0 <= k < |data| ==> ts[k] == Pick(data[k], cols)
  {
    seq(|data|, k requires 0 <= k < |data| => Pick(data[k], cols))
  }

  // ------------------------------------------------------------ the tables

  /** A dimension row: its AUTO_INCREMENT id and the values inserted. */
  datatype DimRow = DimRow(id: nat, values: seq<Cell>)

  /** A dimension table with its AUTO_INCREMENT counter. */
  datatype Table = Table(rows: seq<DimRow>, nextId: nat)

  /** A Weather_Fact row: the two foreign keys, then the nine measures. */
  datatype Fact = Fact(stationId: nat, dateId: nat, measures: seq<Cell>)

  datatype Warehouse = Warehouse(stations: Table, dates: Table, facts: seq<Fact>)

  /** The three tables as `create_tables` leaves them in a new database. */
  const Empty: Warehouse := Warehouse(Table([], 1), Table([], 1), [])

  function IdsOf(rows: seq<DimRow>): (ids: seq<nat>)
    ensures |ids| == |rows|
    ensures forall k :: 0 <= k < |rows| ==> ids[k] == rows[k].id
  {
    seq(|rows|, k requires 0 <= k < |rows| => rows[k].id)
  }

  /** PRIMARY KEY with AUTO_INCREMENT: ids are positive, below the counter,
      and increase in insertion order. */
  predicate ValidTable(t: Table) {
    && 1 <= t.nextId
    && (forall k :: 0 <= k < |t.rows| ==> 1 <= t.rows[k].id < t.nextId)
    && (forall j, k :: 0 <= j < k < |t.rows| ==> t.rows[j].id < t.rows[k].id)
  }

  /** The composite primary key of Weather_Fact. */
  function Key(f: Fact): (nat, nat) {
    (f.stationId, f.dateId)
  }

  function Keys(facts: seq<Fact>): (ks: seq<(nat, nat)>)
    ensures |ks| == |facts|
    ensures forall k :: 0 <= k < |facts| ==> ks[k] == Key(facts[k])
  {
    seq(|facts|, k requires 0 <= k < |facts| => Key(facts[k]))
  }

  /** The fact's foreign keys name rows of the two dimensions. */
  predicate References(w: Warehouse, f: Fact) {
    f.stationId in IdsOf(w.stations.rows) && f.dateId in IdsOf(w.dates.rows)
  }

  /** Every constraint of `create_tables` (DB.py lines 13-55). */
  predicate ValidWarehouse(w: Warehouse) {
    && ValidTable(w.stations)
    && ValidTable(w.dates)
    && Distinct(Keys(w.facts))
    && forall k :: 0 <= k < |w.facts| ==> References(w, w.facts[k])
  }

  lemma EmptyValid()
    ensures ValidWarehouse(Empty)
  {
  }

  // ------------------------------------------------------ dimension inserts

  /** `INSERT` of each tuple in turn into an AUTO_INCREMENT table: the k-th
      tuple gets the id `t.nextId + k`, which `cursor.lastrowid` reports. */
  function Append(t: Table, tuples: seq<seq<Cell>>): (r: Table)
    ensures |r.rows| == |t.rows| + |tuples| && r.nextId == t.nextId + |tuples|
  {
    Table(t.rows + FreshRows(t, tuples), t.nextId + |tuples|)
  }

  /** The rows an insert adds: tuple k under id `nextId + k`. */
  function FreshRows(t: Table, tuples: seq<seq<Cell>>): (rows: seq<DimRow>)
    ensures |rows| == |tuples|
  {
    seq(|tuples|, k requires 0 <= k < |tuples| => DimRow(t.nextId + k, tuples[k]))
  }

  /** Inserting keeps the rows already there and adds the tuples, in order,
      under fresh ids. */
  lemma AppendRows(t: Table, tuples: seq<seq<Cell>>)
    ensures Append(t, tuples).rows[..|t.rows|] == t.rows
    ensures forall k :: 0 <= k < |tuples| ==> Append(t, tuples).rows[|t.rows| + k] == DimRow(t.nextId + k, tuples[k])
  {
  }

  /** Inserting keeps the primary key and counter invariants. */
  lemma AppendValid(t: Table, tuples: seq<seq<Cell>>)
    requires ValidTable(t)
    ensures ValidTable(Append(t, tuples))
  {
    var r := Append(t, tuples);
    var n := |t.rows|;
    AppendRows(t, tuples);
    forall j, k | 0 <= j < k < |r.rows| ensures r.rows[j].id < r.rows[k].id {
      if k >= n && j < n {
        assert r.rows[j] == t.rows[j];
      }
    }
  }

  lemma IdsAppend(a: seq<DimRow>, b: seq<DimRow>)
    ensures IdsOf(a + b) == IdsOf(a) + IdsOf(b)
  {
  }

  /** The ids after an insert: the old ones and the fresh ones. */
  lemma AppendIds(t: Table, tuples: seq<seq<Cell>>, id: nat)
    ensures id in IdsOf(Append(t, tuples).rows) <==> id in IdsOf(t.rows) || t.nextId <= id < t.nextId + |tuples|
  {
    var added := IdsOf(FreshRows(t, tuples));
    IdsAppend(t.rows, FreshRows(t, tuples));
    if id in added {
      var k :| 0 <= k < |added| && added[k] == id;
    }
    if t.nextId <= id < t.nextId + |tuples| {
      assert added[id - t.nextId] == id;
    }
  }

  /** A tuple pymysql refuses to send: it holds a NaN float. */
  predicate HasNaN(tuple: seq<Cell>) {
    Missing in tuple
  }

  /** Lines 68-73 and 76-81: insert every tuple; the first one holding a NaN
      raises. */
  function InsertDimension(t: Table, tuples: seq<seq<Cell>>, which: DimTable): (r: Result<Table>)
    ensures r.Success? <==> forall k :: 0 <= k < |tuples| ==> !HasNaN(tuples[k])
    ensures r.Failure? ==> r.error.NanInDimension? && r.error.table == which && r.error.position < |tuples|
    ensures r.Failure? ==> HasNaN(tuples[r.error.position]) && forall k :: 0 <= k < r.error.position ==> !HasNaN(tuples[k])
    ensures r.Success? ==> r.value == Append(t, tuples)
  {
    match FirstWhere(tuples, HasNaN)
    case Some(k) => Failure(NanInDimension(which, k))
    case None => Success(Append(t, tuples))
  }

  // --------------------------------------------------------- surrogate keys

  /** Position of the last occurrence of `x` in `s`. */
  function LastIndex<T(==)>(s: seq<T>, x: T): (k: nat)
    requires x in s
    ensures k < |s| && s[k] == x
    ensures forall j :: k < j < |s| ==> s[j] != x
  {
    var n := |s| - 1;
    if s[n] == x then n
    else
      assert x in s[..n] by {
        var i :| 0 <= i < |s| && s[i] == x;
        assert s[..n][i] == x;
      }
      LastIndex(s[..n], x)
  }

  /** Lines 73 and 81: after the k-th insert, `id_map[key] = lastrowid`; a
      later tuple with the same key overwrites the id of an earlier one. */
  function KeyMap(keys: seq<Cell>, firstId: nat): (m: map<Cell, nat>)
    ensures forall x :: x in m <==> x in keys
  {
    if |keys| == 0 then map[]
    else
      var n := |keys| - 1;
      KeyMap(keys[..n], firstId)[keys[n] := firstId + n]
  }

  /** Each inserted key maps to the id of its last insert. */
  lemma {:induction false} KeyMapLast(keys: seq<Cell>, firstId: nat, x: Cell)
    requires x in keys
    ensures KeyMap(keys, firstId)[x] == firstId + LastIndex(keys, x)
  {
    var n := |keys| - 1;
    if x != keys[n] {
      assert x in keys[..n] by {
        var i :| 0 <= i < |keys| && keys[i] == x;
        assert keys[..n][i] == x;
      }
      KeyMapLast(keys[..n], firstId, x);
    }
  }

  /** Distinct keys get distinct ids, all among the ones just inserted. */
  lemma KeyMapInjective(keys: seq<Cell>, firstId: nat, x: Cell, y: Cell)
    requires x in keys && y in keys
    ensures firstId <= KeyMap(keys, firstId)[x] < firstId + |keys|
    ensures KeyMap(keys, firstId)[x] == KeyMap(keys, firstId)[y] <==> x == y
  {
    KeyMapLast(keys, firstId, x);
    KeyMapLast(keys, firstId, y);
  }

  /** The first value of each tuple: the key `populate_tables` maps. */
  function Heads(tuples: seq<seq<Cell>>): (hs: seq<Cell>)
    requires forall k :: 0 <= k < |tuples| ==> |tuples[k]| > 0
    ensures |hs| == |tuples|
    ensures forall k :: 0 <= k < |tuples| ==> hs[k] == tuples[k][0]
  {
    seq(|tuples|, k requires 0 <= k < |tuples| => tuples[k][0])
  }

  // ---------------------------------------------------------- the fact pass

  /** The nine measures of a row in Weather_Fact's column order. Line 83
      turns NaN into None, so a `Missing` measure goes in as NULL. */
  function Measures(r: Record): seq<Cell> {
    Pick(r, MeasureColumns)
  }

  /** The surrogate-key maps can resolve the STATION and DATE of every row. */
  predicate Resolves(data: seq<Record>, smap: map<Cell, nat>, dmap: map<Cell, nat>) {
    forall i :: 0 <= i < |data| ==> Field(data[i], STATION) in smap && Field(data[i], DATE) in dmap
  }

  /** The Weather_Fact row lines 89-91 build for one record. */
  function FactOf(r: Record, smap: map<Cell, nat>, dmap: map<Cell, nat>): Fact
    requires Field(r, STATION) in smap && Field(r, DATE) in dmap
  {
    Fact(smap[Field(r, STATION)], dmap[Field(r, DATE)], Measures(r))
  }

  function NewFacts(data: seq<Record>, smap: map<Cell, nat>, dmap: map<Cell, nat>): (fs: seq<Fact>)
    requires Resolves(data, smap, dmap)
    ensures |fs| == |data|
    ensures forall i :: 0 <= i < |data| ==> fs[i] == FactOf(data[i], smap, dmap)
  {
    seq(|data|, i requires 0 <= i < |data| => FactOf(data[i], smap, dmap))
  }

  /** Lines 86-91 for record `i`: a missing map entry raises KeyError, an id
      that names no dimension row violates a FOREIGN KEY, and a repeated
      (StationID, Date_ID) pair violates the PRIMARY KEY. */
  function AddFact(w: Warehouse, facts: seq<Fact>, r: Record, i: nat, smap: map<Cell, nat>, dmap: map<Cell, nat>)
    : Result<seq<Fact>>
  {
    if Field(r, STATION) !in smap || Field(r, DATE) !in dmap then Failure(UnknownKey(i))
    else
      var f := FactOf(r, smap, dmap);
      if !References(w, f) then Failure(ForeignKeyViolation(i))
      else if Key(f) in Keys(facts) then Failure(DuplicateFactKey(i))
      else Success(facts + [f])
  }

  /** The loop of lines 85-91 over all records, after the facts `w` already
      holds; the first failing insert stops it. */
  function InsertFacts(w: Warehouse, data: seq<Record>, smap: map<Cell, nat>, dmap: map<Cell, nat>)
    : Result<seq<Fact>>
    decreases |data|
  {
    if |data| == 0 then Success(w.facts)
    else
      var n := |data| - 1;
      var facts :- InsertFacts(w, data[..n], smap, dmap);
      AddFact(w, facts, data[n], n, smap, dmap)
  }

  /** The fact pass never raises the NaN error of the dimension passes. */
  lemma {:induction false} InsertFactsErrors(w: Warehouse, data: seq<Record>, smap: map<Cell, nat>, dmap: map<Cell, nat>)
    ensures InsertFacts(w, data, smap, dmap).Failure? ==> !InsertFacts(w, data, smap, dmap).error.NanInDimension?
    decreases |data|
  {
    if |data| > 0 {
      InsertFactsErrors(w, data[..|data| - 1], smap, dmap);
    }
  }

  lemma KeysAppend(a: seq<Fact>, b: seq<Fact>)
    ensures Keys(a + b) == Keys(a) + Keys(b)
  {
  }

  /** When every key resolves to existing dimension rows, the fact pass
      succeeds exactly when old and new facts together repeat no primary
      key, appends one fact per record in order, and otherwise stops on a
      duplicate key. */
  lemma {:induction false} InsertFactsOutcome(w: Warehouse, data: seq<Record>, smap: map<Cell, nat>, dmap: map<Cell, nat>)
    requires Resolves(data, smap, dmap)
    requires forall i :: 0 <= i < |data| ==> References(w, FactOf(data[i], smap, dmap))
    requires Distinct(Keys(w.facts))
    ensures InsertFacts(w, data, smap, dmap).Success? <==> Distinct(Keys(w.facts + NewFacts(data, smap, dmap)))
    ensures InsertFacts(w, data, smap, dmap).Success? ==>
      InsertFacts(w, data, smap, dmap).value == w.facts + NewFacts(data, smap, dmap)
    ensures InsertFacts(w, data, smap, dmap).Failure? ==>
      InsertFacts(w, data, smap, dmap).error.DuplicateFactKey?
  {
    var all := w.facts + NewFacts(data, smap, dmap);
    if |data| == 0 {
      assert all == w.facts;
    } else {
      var n := |data| - 1;
      var p := data[..n];
      assert Resolves(p, smap, dmap);
      InsertFactsOutcome(w, p, smap, dmap);
      var before := w.facts + NewFacts(p, smap, dmap);
      var f := FactOf(data[n], smap, dmap);
      assert all == before + [f];
      KeysAppend(before, [f]);
      assert Keys(all) == Keys(before) + [Key(f)];
      DistinctSnoc(Keys(before), Key(f));
      var prev := InsertFacts(w, p, smap, dmap);
      if prev.Success? {
        assert References(w, f);
        assert InsertFacts(w, data, smap, dmap) == AddFact(w, before, data[n], n, smap, dmap);
      } else {
        assert InsertFacts(w, data, smap, dmap) == Failure(prev.error);
      }
    }
  }

  // ------------------------------------------------------- populate_tables

  /** Lines 64-65: `data[cols].drop_duplicates()`, whole tuples compared. */
  function Tuples(data: seq<Record>, cols: seq<Col>): (ts: seq<seq<Cell>>)
    ensures forall k :: 0 <= k < |ts| ==> |ts[k]| == |cols|
  {
    var all := PickAll(data, cols);
    var ts := Dedup(all);
    assert forall k :: 0 <= k < |ts| ==> ts[k] in all;
    ts
  }

  /** The tuples inserted are the records' tuples, each once, in the order
      of their first occurrence. */
  lemma TuplesDistinctInOrder(data: seq<Record>, cols: seq<Col>)
    ensures Distinct(Tuples(data, cols))
    ensures forall i :: 0 <= i < |data| ==> Pick(data[i], cols) in Tuples(data, cols)
    ensures forall t :: t in Tuples(data, cols) ==> exists i :: 0 <= i < |data| && Pick(data[i], cols) == t
    ensures forall a, b :: 0 <= a < b < |Tuples(data, cols)| ==>
      FirstIndex(PickAll(data, cols), Tuples(data, cols)[a]) < FirstIndex(PickAll(data, cols), Tuples(data, cols)[b])
  {
    var all := PickAll(data, cols);
    DedupFirstOccurrenceOrder(all);
    forall i | 0 <= i < |data| ensures Pick(data[i], cols) in Tuples(data, cols) {
      assert all[i] in Dedup(all);
    }
    forall t | t in Tuples(data, cols) ensures exists i :: 0 <= i < |data| && Pick(data[i], cols) == t {
      var i :| 0 <= i < |all| && all[i] == t;
    }
  }

  /** The key of each inserted tuple, its first column, in insertion order. */
  function TupleKeys(data: seq<Record>, cols: seq<Col>): seq<Cell>
    requires |cols| > 0
  {
    Heads(Tuples(data, cols))
  }

  /** Lines 67-73 or 75-81: the id map after inserting into `t`. */
  function IdMap(t: Table, data: seq<Record>, cols: seq<Col>): map<Cell, nat>
    requires |cols| > 0
  {
    KeyMap(TupleKeys(data, cols), t.nextId)
  }

  /** `station_id_map` and `date_id_map` once both loops have run. */
  function StationMap(w: Warehouse, data: seq<Record>): map<Cell, nat> {
    IdMap(w.stations, data, StationColumns)
  }

  function DateMap(w: Warehouse, data: seq<Record>): map<Cell, nat> {
    IdMap(w.dates, data, DateColumns)
  }

  /** The warehouse after both dimension inserts, before any fact. */
  function Loaded(w: Warehouse, data: seq<Record>): Warehouse {
    Warehouse(Append(w.stations, Tuples(data, StationColumns)), Append(w.dates, Tuples(data, DateColumns)), w.facts)
  }

  /** Lines 62-91: both dimension inserts, then one fact per record. */
  function PopulateTables(w: Warehouse, data: seq<Record>): Result<Warehouse> {
    var stations :- InsertDimension(w.stations, Tuples(data, StationColumns), StationDim);
    var dates :- InsertDimension(w.dates, Tuples(data, DateColumns), DateDim);
    var facts :- InsertFacts(Warehouse(stations, dates, w.facts), data, StationMap(w, data), DateMap(w, data));
    Success(Warehouse(stations, dates, facts))
  }

  /** Every record's key is among the keys inserted. */
  lemma KeyInserted(data: seq<Record>, cols: seq<Col>, i: nat)
    requires |cols| > 0 && i < |data|
    ensures Field(data[i], cols[0]) in TupleKeys(data, cols)
  {
    var ts := Tuples(data, cols);
    var t := Pick(data[i], cols);
    assert PickAll(data, cols)[i] == t;
    var k :| 0 <= k < |ts| && ts[k] == t;
    assert TupleKeys(data, cols)[k] == Field(data[i], cols[0]);
  }

  /** Every record's key maps to one of the ids just inserted into `t`. */
  lemma MappedId(t: Table, data: seq<Record>, cols: seq<Col>, i: nat)
    requires |cols| > 0 && i < |data|
    ensures Field(data[i], cols[0]) in IdMap(t, data, cols)
    ensures t.nextId <= IdMap(t, data, cols)[Field(data[i], cols[0])] < t.nextId + |Tuples(data, cols)|
  {
    var x := Field(data[i], cols[0]);
    KeyInserted(data, cols, i);
    KeyMapInjective(TupleKeys(data, cols), t.nextId, x, x);
  }

  /** Two records get the same id exactly when they have the same key. */
  lemma SameId(t: Table, data: seq<Record>, cols: seq<Col>, i: nat, j: nat)
    requires |cols| > 0 && i < |data| && j < |data|
    ensures Field(data[i], cols[0]) in IdMap(t, data, cols) && Field(data[j], cols[0]) in IdMap(t, data, cols)
    ensures IdMap(t, data, cols)[Field(data[i], cols[0])] == IdMap(t, data, cols)[Field(data[j], cols[0])]
      <==> Field(data[i], cols[0]) == Field(data[j], cols[0])
  {
    KeyInserted(data, cols, i);
    KeyInserted(data, cols, j);
    KeyMapInjective(TupleKeys(data, cols), t.nextId, Field(data[i], cols[0]), Field(data[j], cols[0]));
  }

  /** The (STATION, DATE) pair of a record: what a fact's primary key
      stands for. */
  function Observation(r: Record): (Cell, Cell) {
    (Field(r, STATION), Field(r, DATE))
  }

  function Observations(data: seq<Record>): (os: seq<(Cell, Cell)>)
    ensures |os| == |data|
    ensures forall i :: 0 <= i < |data| ==> os[i] == Observation(data[i])
  {
    seq(|data|, i requires 0 <= i < |data| => Observation(data[i]))
  }

  /** No record holds a NaN in any of the columns `cols`. */
  predicate NaNFree(data: seq<Record>, cols: seq<Col>) {
    forall i :: 0 <= i < |data| ==> !HasNaN(Pick(data[i], cols))
  }

  /** Dropping duplicates neither adds nor removes a NaN-holding tuple. */
  lemma TuplesNaNFree(data: seq<Record>, cols: seq<Col>)
    ensures (forall k :: 0 <= k < |Tuples(data, cols)| ==> !HasNaN(Tuples(data, cols)[k])) <==> NaNFree(data, cols)
  {
    var all := PickAll(data, cols);
    var ts := Tuples(data, cols);
    if NaNFree(data, cols) {
      forall k | 0 <= k < |ts| ensures !HasNaN(ts[k]) {
        var i :| 0 <= i < |all| && all[i] == ts[k];
      }
    }
    if forall k :: 0 <= k < |ts| ==> !HasNaN(ts[k]) {
      forall i | 0 <= i < |data| ensures !HasNaN(Pick(data[i], cols)) {
        assert all[i] in ts;
      }
    }
  }

  /** An id a valid table holds is below its counter. */
  lemma IdBelowCounter(t: Table, id: nat)
    requires ValidTable(t) && id in IdsOf(t.rows)
    ensures 1 <= id < t.nextId
  {
    var k :| 0 <= k < |t.rows| && IdsOf(t.rows)[k] == id;
  }

  /** Both maps resolve every record. */
  lemma MapsResolve(w: Warehouse, data: seq<Record>)
    ensures Resolves(data, StationMap(w, data), DateMap(w, data))
  {
    forall i | 0 <= i < |data|
      ensures Field(data[i], STATION) in StationMap(w, data) && Field(data[i], DATE) in DateMap(w, data)
    {
      MappedId(w.stations, data, StationColumns, i);
      MappedId(w.dates, data, DateColumns, i);
    }
  }

  /** Every record resolves to ids the dimension inserts just created. */
  lemma MapsReference(w: Warehouse, data: seq<Record>)
    ensures Resolves(data, StationMap(w, data), DateMap(w, data))
    ensures forall i :: 0 <= i < |data| ==> References(Loaded(w, data), FactOf(data[i], StationMap(w, data), DateMap(w, data)))
  {
    MapsResolve(w, data);
    var l := Loaded(w, data);
    forall i | 0 <= i < |data|
      ensures References(l, FactOf(data[i], StationMap(w, data), DateMap(w, data)))
    {
      var f := FactOf(data[i], StationMap(w, data), DateMap(w, data));
      MappedId(w.stations, data, StationColumns, i);
      MappedId(w.dates, data, DateColumns, i);
      AppendIds(w.stations, Tuples(data, StationColumns), f.stationId);
      AppendIds(w.dates, Tuples(data, DateColumns), f.dateId);
    }
  }

  /** `m` gives two records the same id exactly when they agree on `c`. */
  predicate InjectiveOn(data: seq<Record>, c: Col, m: map<Cell, nat>) {
    forall i, j :: 0 <= i < |data| && 0 <= j < |data| ==>
      Field(data[i], c) in m && Field(data[j], c) in m
      && (m[Field(data[i], c)] == m[Field(data[j], c)] <==> Field(data[i], c) == Field(data[j], c))
  }

  lemma IdMapInjective(t: Table, data: seq<Record>, cols: seq<Col>)
    requires |cols| > 0
    ensures InjectiveOn(data, cols[0], IdMap(t, data, cols))
  {
    forall i, j | 0 <= i < |data| && 0 <= j < |data|
      ensures Field(data[i], cols[0]) in IdMap(t, data, cols) && Field(data[j], cols[0]) in IdMap(t, data, cols)
      ensures IdMap(t, data, cols)[Field(data[i], cols[0])] == IdMap(t, data, cols)[Field(data[j], cols[0])]
        <==> Field(data[i], cols[0]) == Field(data[j], cols[0])
    {
      SameId(t, data, cols, i, j);
    }
  }

  /** With injective maps, new facts repeat a key among themselves exactly
      when two records repeat a (STATION, DATE) pair. */
  lemma KeysDistinctIff(data: seq<Record>, smap: map<Cell, nat>, dmap: map<Cell, nat>)
    requires Resolves(data, smap, dmap)
    requires InjectiveOn(data, STATION, smap) && InjectiveOn(data, DATE, dmap)
    ensures Distinct(Keys(NewFacts(data, smap, dmap))) <==> Distinct(Observations(data))
  {
    var ks := Keys(NewFacts(data, smap, dmap));
    var os := Observations(data);
    forall i, j | 0 <= i < |data| && 0 <= j < |data| ensures ks[i] == ks[j] <==> os[i] == os[j] {
      assert ks[i] == Key(FactOf(data[i], smap, dmap)) && ks[j] == Key(FactOf(data[j], smap, dmap));
    }
    DistinctTransfer(ks, os);
  }

  /** New facts repeat a key among themselves exactly when two records
      repeat a (STATION, DATE) pair. */
  lemma NewKeysDistinct(w: Warehouse, data: seq<Record>)
    requires Resolves(data, StationMap(w, data), DateMap(w, data))
    ensures Distinct(Keys(NewFacts(data, StationMap(w, data), DateMap(w, data)))) <==> Distinct(Observations(data))
  {
    IdMapInjective(w.stations, data, StationColumns);
    IdMapInjective(w.dates, data, DateColumns);
    KeysDistinctIff(data, StationMap(w, data), DateMap(w, data));
  }

  /** No new fact repeats the key of a fact already in a valid warehouse:
      the new station ids are all at or above the old counter. */
  lemma OldNewDisjoint(w: Warehouse, data: seq<Record>)
    requires ValidWarehouse(w)
    requires Resolves(data, StationMap(w, data), DateMap(w, data))
    ensures forall i, j :: 0 <= i < |w.facts| && 0 <= j < |data| ==>
      Keys(w.facts)[i] != Keys(NewFacts(data, StationMap(w, data), DateMap(w, data)))[j]
  {
    var nf := NewFacts(data, StationMap(w, data), DateMap(w, data));
    forall i, j | 0 <= i < |w.facts| && 0 <= j < |data| ensures w.facts[i].stationId != nf[j].stationId {
      IdBelowCounter(w.stations, w.facts[i].stationId);
      MappedId(w.stations, data, StationColumns, j);
    }
  }

  /** All facts after the pass have distinct keys exactly when the records
      have distinct (STATION, DATE) pairs; what is already loaded does not
      matter. */
  lemma AllKeysDistinct(w: Warehouse, data: seq<Record>)
    requires ValidWarehouse(w)
    requires Resolves(data, StationMap(w, data), DateMap(w, data))
    ensures Distinct(Keys(w.facts + NewFacts(data, StationMap(w, data), DateMap(w, data)))) <==> Distinct(Observations(data))
  {
    var nf := NewFacts(data, StationMap(w, data), DateMap(w, data));
    KeysAppend(w.facts, nf);
    DistinctAppend(Keys(w.facts), Keys(nf));
    OldNewDisjoint(w, data);
    NewKeysDistinct(w, data);
  }

  /** A valid warehouse is ready for the fact pass once both dimension
      inserts are done. */
  lemma LoadedValid(w: Warehouse, data: seq<Record>)
    requires ValidWarehouse(w)
    ensures ValidTable(Loaded(w, data).stations) && ValidTable(Loaded(w, data).dates)
    ensures forall k :: 0 <= k < |w.facts| ==> References(Loaded(w, data), w.facts[k])
  {
    var l := Loaded(w, data);
    AppendValid(w.stations, Tuples(data, StationColumns));
    AppendValid(w.dates, Tuples(data, DateColumns));
    forall k | 0 <= k < |w.facts| ensures References(l, w.facts[k]) {
      AppendIds(w.stations, Tuples(data, StationColumns), w.facts[k].stationId);
      AppendIds(w.dates, Tuples(data, DateColumns), w.facts[k].dateId);
    }
  }

  /** The fact pass on the loaded warehouse, as `PopulateTables` runs it. */
  function FactPass(w: Warehouse, data: seq<Record>): Result<seq<Fact>> {
    InsertFacts(Loaded(w, data), data, StationMap(w, data), DateMap(w, data))
  }

  /** The fact pass succeeds exactly when the records repeat no
      (STATION, DATE) pair, and then appends one fact per record. */
  lemma FactPassOutcome(w: Warehouse, data: seq<Record>)
    requires ValidWarehouse(w)
    ensures Resolves(data, StationMap(w, data), DateMap(w, data))
    ensures FactPass(w, data).Success? <==> Distinct(Observations(data))
    ensures FactPass(w, data).Success? ==>
      FactPass(w, data).value == w.facts + NewFacts(data, StationMap(w, data), DateMap(w, data))
    ensures FactPass(w, data).Failure? ==> FactPass(w, data).error.DuplicateFactKey?
  {
    MapsReference(w, data);
    InsertFactsOutcome(Loaded(w, data), data, StationMap(w, data), DateMap(w, data));
    AllKeysDistinct(w, data);
  }

  /** `PopulateTables` as the three steps the lemmas speak about. */
  lemma PopulateSteps(w: Warehouse, data: seq<Record>)
    ensures PopulateTables(w, data) ==
      if InsertDimension(w.stations, Tuples(data, StationColumns), StationDim).Failure? then
        Failure(InsertDimension(w.stations, Tuples(data, StationColumns), StationDim).error)
      else if InsertDimension(w.dates, Tuples(data, DateColumns), DateDim).Failure? then
        Failure(InsertDimension(w.dates, Tuples(data, DateColumns), DateDim).error)
      else if FactPass(w, data).Failure? then Failure(FactPass(w, data).error)
      else Success(Loaded(w, data).(facts := FactPass(w, data).value))
  {
  }

  /** Loading into a valid warehouse succeeds exactly when no station or
      date tuple holds a NaN and no two records share a (STATION, DATE)
      pair. It fails with the first NaN tuple of Station_Dim, else of
      Date_Dim, else with a duplicate key: never on a missing map entry or a
      foreign key. */
  lemma PopulateOutcome(w: Warehouse, data: seq<Record>)
    requires ValidWarehouse(w)
    ensures PopulateTables(w, data).Success? <==>
      NaNFree(data, StationColumns) && NaNFree(data, DateColumns) && Distinct(Observations(data))
    ensures PopulateTables(w, data).Failure? ==>
      PopulateTables(w, data).error.NanInDimension? || PopulateTables(w, data).error.DuplicateFactKey?
    ensures !NaNFree(data, StationColumns) ==>
      PopulateTables(w, data).Failure? && PopulateTables(w, data).error.NanInDimension?
      && PopulateTables(w, data).error.table == StationDim
    ensures NaNFree(data, StationColumns) && !NaNFree(data, DateColumns) ==>
      PopulateTables(w, data).Failure? && PopulateTables(w, data).error.NanInDimension?
      && PopulateTables(w, data).error.table == DateDim
  {
    PopulateSteps(w, data);
    TuplesNaNFree(data, StationColumns);
    TuplesNaNFree(data, DateColumns);
    FactPassOutcome(w, data);
  }

  /** Appending facts that reference existing rows and repeat no key keeps
      a warehouse valid. */
  lemma ValidAfterFacts(l: Warehouse, nf: seq<Fact>)
    requires ValidTable(l.stations) && ValidTable(l.dates)
    requires forall k :: 0 <= k < |l.facts| ==> References(l, l.facts[k])
    requires forall k :: 0 <= k < |nf| ==> References(l, nf[k])
    requires Distinct(Keys(l.facts + nf))
    ensures ValidWarehouse(l.(facts := l.facts + nf))
  {
    var r := l.(facts := l.facts + nf);
    forall k | 0 <= k < |r.facts| ensures References(r, r.facts[k]) {
      if k < |l.facts| {
        assert r.facts[k] == l.facts[k];
      } else {
        assert r.facts[k] == nf[k - |l.facts|];
      }
    }
  }

  /** `Populated` keeps every constraint of the schema when the records
      repeat no (STATION, DATE) pair. */
  lemma PopulatedValid(w: Warehouse, data: seq<Record>)
    requires ValidWarehouse(w) && Distinct(Observations(data))
    ensures ValidWarehouse(Populated(w, data))
  {
    var l := Loaded(w, data);
    var sm, dm := StationMap(w, data), DateMap(w, data);
    LoadedValid(w, data);
    MapsReference(w, data);
    AllKeysDistinct(w, data);
    var nf := NewFacts(data, sm, dm);
    forall k | 0 <= k < |nf| ensures References(l, nf[k]) {
      assert nf[k] == FactOf(data[k], sm, dm);
    }
    ValidAfterFacts(l, nf);
    assert Populated(w, data) == l.(facts := l.facts + nf);
  }

  /** Loading keeps every constraint of the schema. */
  lemma PopulateValid(w: Warehouse, data: seq<Record>)
    requires ValidWarehouse(w) && PopulateTables(w, data).Success?
    ensures ValidWarehouse(PopulateTables(w, data).value)
  {
    PopulateOutcome(w, data);
    PopulateValue(w, data);
    PopulatedValid(w, data);
  }

  /** The key column of a dimension tuple: StationCode or Date. */
  function TupleKey(tuple: seq<Cell>): Cell {
    if |tuple| == 0 then Missing else tuple[0]
  }

  function RowKey(d: DimRow): Cell {
    TupleKey(d.values)
  }

  /** Row `k` of `t` is the one row the join `ON ... = id` finds. */
  predicate JoinsAt(t: Table, id: nat, k: nat) {
    k < |t.rows| && t.rows[k].id == id && forall m :: 0 <= m < |t.rows| && t.rows[m].id == id ==> m == k
  }

  /** The tuple inserted `j`-th is the one row holding id `t.nextId + j`. */
  lemma AppendJoin(t: Table, tuples: seq<seq<Cell>>, j: nat)
    requires ValidTable(t) && j < |tuples|
    ensures JoinsAt(Append(t, tuples), t.nextId + j, |t.rows| + j)
    ensures Append(t, tuples).rows[|t.rows| + j].values == tuples[j]
  {
    AppendRows(t, tuples);
    AppendValid(t, tuples);
  }

  /** The tuple a key last went in with carries that key, and no tuple
      inserted after it does. */
  lemma LastTuple(data: seq<Record>, cols: seq<Col>, x: Cell)
    requires |cols| > 0 && x in TupleKeys(data, cols)
    ensures TupleKey(Tuples(data, cols)[LastIndex(TupleKeys(data, cols), x)]) == x
    ensures forall m :: LastIndex(TupleKeys(data, cols), x) < m < |Tuples(data, cols)| ==> TupleKey(Tuples(data, cols)[m]) != x
  {
    var keys := TupleKeys(data, cols);
    var ts := Tuples(data, cols);
    var j := LastIndex(keys, x);
    forall m | j < m < |ts| ensures TupleKey(ts[m]) != x {
      assert keys[m] == ts[m][0];
    }
  }

  /** The warehouse a successful load leaves: both dimensions appended to
      and one fact per record after the facts already there. */
  function Populated(w: Warehouse, data: seq<Record>): Warehouse {
    MapsResolve(w, data);
    Loaded(w, data).(facts := w.facts + NewFacts(data, StationMap(w, data), DateMap(w, data)))
  }

  /** A successful load of a valid warehouse yields `Populated`. */
  lemma PopulateValue(w: Warehouse, data: seq<Record>)
    requires ValidWarehouse(w)
    ensures PopulateTables(w, data).Success? ==> PopulateTables(w, data) == Success(Populated(w, data))
  {
    PopulateSteps(w, data);
    FactPassOutcome(w, data);
  }

  /** `Populated` keeps the facts already there and adds one fact per
      record, in record order, holding that record's measures. */
  lemma PopulatedFacts(w: Warehouse, data: seq<Record>)
    ensures |Populated(w, data).facts| == |w.facts| + |data|
    ensures Populated(w, data).facts[..|w.facts|] == w.facts
    ensures forall i :: 0 <= i < |data| ==> Populated(w, data).facts[|w.facts| + i].measures == Measures(data[i])
  {
    MapsResolve(w, data);
    AppendedFacts(w.facts, data, StationMap(w, data), DateMap(w, data));
  }

  lemma AppendedFacts(facts: seq<Fact>, data: seq<Record>, smap: map<Cell, nat>, dmap: map<Cell, nat>)
    requires Resolves(data, smap, dmap)
    ensures |facts + NewFacts(data, smap, dmap)| == |facts| + |data|
    ensures (facts + NewFacts(data, smap, dmap))[..|facts|] == facts
    ensures forall i :: 0 <= i < |data| ==> (facts + NewFacts(data, smap, dmap))[|facts| + i] == FactOf(data[i], smap, dmap)
  {
    var all := facts + NewFacts(data, smap, dmap);
    forall i | 0 <= i < |data| ensures all[|facts| + i] == FactOf(data[i], smap, dmap) {
      assert all[|facts| + i] == NewFacts(data, smap, dmap)[i];
    }
  }

  /** Each dimension keeps its rows and gains one row per distinct tuple. */
  lemma PopulatedDimensions(w: Warehouse, data: seq<Record>)
    ensures Populated(w, data).stations.rows[..|w.stations.rows|] == w.stations.rows
    ensures |Populated(w, data).stations.rows| == |w.stations.rows| + |Tuples(data, StationColumns)|
    ensures Populated(w, data).dates.rows[..|w.dates.rows|] == w.dates.rows
    ensures |Populated(w, data).dates.rows| == |w.dates.rows| + |Tuples(data, DateColumns)|
    ensures forall k :: 0 <= k < |Tuples(data, StationColumns)| ==>
      Populated(w, data).stations.rows[|w.stations.rows| + k] == DimRow(w.stations.nextId + k, Tuples(data, StationColumns)[k])
    ensures forall k :: 0 <= k < |Tuples(data, DateColumns)| ==>
      Populated(w, data).dates.rows[|w.dates.rows| + k] == DimRow(w.dates.nextId + k, Tuples(data, DateColumns)[k])
  {
    AppendRows(w.stations, Tuples(data, StationColumns));
    AppendRows(w.dates, Tuples(data, DateColumns));
  }

  /** The join `ON ... = id` finds `key`, in the latest row of `t` that
      carries it. */
  ghost predicate JoinsLatest(t: Table, id: nat, key: Cell) {
    exists k: nat :: JoinsAt(t, id, k) && RowKey(t.rows[k]) == key && forall m :: k < m < |t.rows| ==> RowKey(t.rows[m]) != key
  }

  /** Inserting `tuples` where the `j`-th is the last with key `x`: its id
      joins the latest row carrying `x`. */
  lemma AppendLatest(t: Table, tuples: seq<seq<Cell>>, j: nat, x: Cell)
    requires ValidTable(t) && j < |tuples| && TupleKey(tuples[j]) == x
    requires forall m :: j < m < |tuples| ==> TupleKey(tuples[m]) != x
    ensures JoinsLatest(Append(t, tuples), t.nextId + j, x)
  {
    var k := |t.rows| + j;
    AppendJoin(t, tuples, j);
    AppendLaterKeys(t, tuples, j, x);
    assert JoinsAt(Append(t, tuples), t.nextId + j, k) && RowKey(Append(t, tuples).rows[k]) == x;
  }

  /** No row appended after the `j`-th tuple carries a key that no later
      tuple carries. */
  lemma AppendLaterKeys(t: Table, tuples: seq<seq<Cell>>, j: nat, x: Cell)
    requires forall m :: j < m < |tuples| ==> TupleKey(tuples[m]) != x
    ensures forall m :: |t.rows| + j < m < |Append(t, tuples).rows| ==> RowKey(Append(t, tuples).rows[m]) != x
  {
    var a := Append(t, tuples);
    AppendRows(t, tuples);
    forall m | |t.rows| + j < m < |a.rows| ensures RowKey(a.rows[m]) != x {
      assert a.rows[m].values == tuples[m - |t.rows|];
    }
  }

  /** After a dimension insert, the id a record's key maps to joins the
      latest row carrying that key. */
  lemma AppendJoinsLatest(t: Table, data: seq<Record>, cols: seq<Col>, i: nat)
    requires ValidTable(t) && |cols| > 0 && i < |data|
    ensures Field(data[i], cols[0]) in IdMap(t, data, cols)
    ensures JoinsLatest(Append(t, Tuples(data, cols)), IdMap(t, data, cols)[Field(data[i], cols[0])], Field(data[i], cols[0]))
  {
    var x := Field(data[i], cols[0]);
    var keys := TupleKeys(data, cols);
    KeyInserted(data, cols, i);
    var j := LastIndex(keys, x);
    KeyMapLast(keys, t.nextId, x);
    assert IdMap(t, data, cols)[x] == t.nextId + j;
    LastTuple(data, cols, x);
    AppendLatest(t, Tuples(data, cols), j, x);
  }

  /** In `Populated`, the fact of record `i` joins, through each foreign
      key, the latest Station_Dim row with the record's STATION and the
      latest Date_Dim row with its DATE. */
  lemma PopulatedJoin(w: Warehouse, data: seq<Record>, i: nat)
    requires ValidWarehouse(w) && i < |data|
    ensures |w.facts| + i < |Populated(w, data).facts|
    ensures JoinsLatest(Populated(w, data).stations, Populated(w, data).facts[|w.facts| + i].stationId, Field(data[i], STATION))
    ensures JoinsLatest(Populated(w, data).dates, Populated(w, data).facts[|w.facts| + i].dateId, Field(data[i], DATE))
  {
    MapsResolve(w, data);
    AppendedFacts(w.facts, data, StationMap(w, data), DateMap(w, data));
    AppendJoinsLatest(w.stations, data, StationColumns, i);
    AppendJoinsLatest(w.dates, data, DateColumns, i);
  }

  // ----------------------------------------------------- populate_date_dim

  /** One line of the calendar file after line 98 replaced NaN by None: a
      `Missing` cell goes in as NULL, which Date_Dim's columns allow. */
  datatype CalendarDay = CalendarDay(date: Cell, year: Cell, month: Cell, day: Cell)

  /** Line 103: the tuple inserted for each calendar line. */
  function CalendarTuples(calendar: seq<CalendarDay>): (ts: seq<seq<Cell>>)
    ensures |ts| == |calendar|
    ensures forall k :: 0 <= k < |calendar| ==> ts[k] == [calendar[k].date, calendar[k].year, calendar[k].month, calendar[k].day]
  {
    seq(|calendar|, k requires 0 <= k < |calendar| => [calendar[k].date, calendar[k].year, calendar[k].month, calendar[k].day])
  }

  /** Lines 96-104: every calendar line becomes a new Date_Dim row, with no
      check against the dates already there; nothing else changes. */
  function PopulateDateDim(w: Warehouse, calendar: seq<CalendarDay>): (r: Warehouse)
    ensures r.stations == w.stations && r.facts == w.facts
    ensures |r.dates.rows| == |w.dates.rows| + |calendar| && r.dates.rows[..|w.dates.rows|] == w.dates.rows
    ensures forall k :: 0 <= k < |calendar| ==>
      r.dates.rows[|w.dates.rows| + k] == DimRow(w.dates.nextId + k, CalendarTuples(calendar)[k])
    ensures r.dates.nextId == w.dates.nextId + |calendar|
  {
    var ts := CalendarTuples(calendar);
    var dates := Append(w.dates, ts);
    AppendRows(w.dates, ts);
    assert |dates.rows| == |w.dates.rows| + |calendar|;
    assert forall k :: 0 <= k < |calendar| ==> dates.rows[|w.dates.rows| + k] == DimRow(w.dates.nextId + k, ts[k]);
    Warehouse(w.stations, dates, w.facts)
  }

  /** Seeding the calendar keeps every constraint of the schema. */
  lemma PopulateDateDimValid(w: Warehouse, calendar: seq<CalendarDay>)
    requires ValidWarehouse(w)
    ensures ValidWarehouse(PopulateDateDim(w, calendar))
  {
    var r := PopulateDateDim(w, calendar);
    AppendValid(w.dates, CalendarTuples(calendar));
    forall k | 0 <= k < |r.facts| ensures References(r, r.facts[k]) {
      AppendIds(w.dates, CalendarTuples(calendar), r.facts[k].dateId);
    }
  }

  /** A calendar day that equals a date `populate_tables` already inserted
      becomes a second Date_Dim row with the same values under another id. */
  lemma CalendarDuplicates(w: Warehouse, calendar: seq<CalendarDay>, j: nat, k: nat)
    requires ValidTable(w.dates) && j < |w.dates.rows| && k < |calendar|
    requires CalendarTuples(calendar)[k] == w.dates.rows[j].values
    ensures PopulateDateDim(w, calendar).dates.rows[j].values == PopulateDateDim(w, calendar).dates.rows[|w.dates.rows| + k].values
    ensures PopulateDateDim(w, calendar).dates.rows[j].id != PopulateDateDim(w, calendar).dates.rows[|w.dates.rows| + k].id
  {
    AppendRows(w.dates, CalendarTuples(calendar));
  }

  // ------------------------------------------------------------------ main

  /** The records `populate_tables` loads without raising. */
  predicate Loadable(data: seq<Record>) {
    NaNFree(data, StationColumns) && NaNFree(data, DateColumns) && Distinct(Observations(data))
  }

  /** Lines 120-124: load the records, then seed the calendar. */
  function Load(w: Warehouse, data: seq<Record>, calendar: seq<CalendarDay>): Result<Warehouse> {
    var populated :- PopulateTables(w, data);
    Success(PopulateDateDim(populated, calendar))
  }

  /** The warehouse after a load that raised `e`, given how many station
      and date tuples the records hold. Without the commit at line 127 the
      open transaction is rolled back: every row inserted is gone. InnoDB
      does not give AUTO_INCREMENT values back, though: each dimension
      insert that ran before the failing statement keeps its id used up.
      The failing insert itself takes none: pymysql refuses to send a NaN
      float, so that statement never reaches MySQL. */
  function RolledBack(w: Warehouse, stationInserts: nat, dateInserts: nat, e: Error): Warehouse {
    match e
    case NanInDimension(StationDim, p) =>
      w.(stations := w.stations.(nextId := w.stations.nextId + p))
    case NanInDimension(DateDim, p) =>
      w.(stations := w.stations.(nextId := w.stations.nextId + stationInserts),
         dates := w.dates.(nextId := w.dates.nextId + p))
    case _ =>
      w.(stations := w.stations.(nextId := w.stations.nextId + stationInserts),
         dates := w.dates.(nextId := w.dates.nextId + dateInserts))
  }

  /** Lines 117-127: the tables exist (`CREATE TABLE IF NOT EXISTS` keeps a
      previous run's), and the one commit at line 127 is reached only if
      nothing raised; otherwise the open transaction is rolled back. */
  function Run(w: Warehouse, data: seq<Record>, calendar: seq<CalendarDay>): Warehouse {
    match Load(w, data, calendar)
    case Success(loaded) => loaded
    case Failure(e) => RolledBack(w, |Tuples(data, StationColumns)|, |Tuples(data, DateColumns)|, e)
  }

  /** A rollback keeps every row and the schema's constraints; the counters
      move up by no more than the inserts there were. */
  lemma RolledBackShape(w: Warehouse, stationInserts: nat, dateInserts: nat, e: Error)
    requires ValidWarehouse(w)
    requires e.NanInDimension? && e.table == StationDim ==> e.position <= stationInserts
    requires e.NanInDimension? && e.table == DateDim ==> e.position <= dateInserts
    ensures var r := RolledBack(w, stationInserts, dateInserts, e);
      r.stations.rows == w.stations.rows && r.dates.rows == w.dates.rows && r.facts == w.facts
    ensures ValidWarehouse(RolledBack(w, stationInserts, dateInserts, e))
    ensures var r := RolledBack(w, stationInserts, dateInserts, e);
      && w.stations.nextId <= r.stations.nextId <= w.stations.nextId + stationInserts
      && w.dates.nextId <= r.dates.nextId <= w.dates.nextId + dateInserts
  {
    var r := RolledBack(w, stationInserts, dateInserts, e);
    forall k | 0 <= k < |r.facts| ensures References(r, r.facts[k]) {
      assert References(w, w.facts[k]);
    }
  }

  /** The failing branch of `Run`, stated once. */
  lemma RunFailed(w: Warehouse, data: seq<Record>, calendar: seq<CalendarDay>)
    requires PopulateTables(w, data).Failure?
    ensures Run(w, data, calendar) ==
      RolledBack(w, |Tuples(data, StationColumns)|, |Tuples(data, DateColumns)|, PopulateTables(w, data).error)
  {
  }

  /** A failing load names a dimension tuple that exists. */
  lemma PopulateErrorPosition(w: Warehouse, data: seq<Record>)
    requires PopulateTables(w, data).Failure?
    ensures var e := PopulateTables(w, data).error;
      && (e.NanInDimension? && e.table == StationDim ==> e.position < |Tuples(data, StationColumns)|)
      && (e.NanInDimension? && e.table == DateDim ==> e.position < |Tuples(data, DateColumns)|)
  {
    PopulateSteps(w, data);
    var si := InsertDimension(w.stations, Tuples(data, StationColumns), StationDim);
    var di := InsertDimension(w.dates, Tuples(data, DateColumns), DateDim);
    if si.Success? && di.Success? {
      InsertFactsErrors(Loaded(w, data), data, StationMap(w, data), DateMap(w, data));
    }
  }

  /** A run whose records are not loadable leaves every row as it was and
      keeps the schema valid; only the two counters move, by at most the
      number of dimension inserts. */
  lemma RollbackOutcome(w: Warehouse, data: seq<Record>, calendar: seq<CalendarDay>)
    requires ValidWarehouse(w) && !Loadable(data)
    ensures var r := Run(w, data, calendar);
      r.stations.rows == w.stations.rows && r.dates.rows == w.dates.rows && r.facts == w.facts
    ensures ValidWarehouse(Run(w, data, calendar))
    ensures var r := Run(w, data, calendar);
      && w.stations.nextId <= r.stations.nextId <= w.stations.nextId + |Tuples(data, StationColumns)|
      && w.dates.nextId <= r.dates.nextId <= w.dates.nextId + |Tuples(data, DateColumns)|
  {
    PopulateOutcome(w, data);
    RunFailed(w, data, calendar);
    PopulateErrorPosition(w, data);
    RolledBackShape(w, |Tuples(data, StationColumns)|, |Tuples(data, DateColumns)|, PopulateTables(w, data).error);
  }

  /** The load raises on the station pass when that pass fails. */
  lemma PopulateStationFailure(w: Warehouse, data: seq<Record>)
    requires InsertDimension(w.stations, Tuples(data, StationColumns), StationDim).Failure?
    ensures PopulateTables(w, data) == Failure(InsertDimension(w.stations, Tuples(data, StationColumns), StationDim).error)
  {
  }

  /** The load raises on the date pass when the station pass succeeds and
      the date pass fails. */
  lemma PopulateDateFailure(w: Warehouse, data: seq<Record>)
    requires InsertDimension(w.stations, Tuples(data, StationColumns), StationDim).Success?
    requires InsertDimension(w.dates, Tuples(data, DateColumns), DateDim).Failure?
    ensures PopulateTables(w, data) == Failure(InsertDimension(w.dates, Tuples(data, DateColumns), DateDim).error)
  {
  }

  /** How far a NaN rollback moves each counter. */
  lemma RolledBackNaN(w: Warehouse, stationInserts: nat, dateInserts: nat, e: Error)
    requires e.NanInDimension?
    ensures e.table == StationDim ==>
      && RolledBack(w, stationInserts, dateInserts, e).stations.nextId == w.stations.nextId + e.position
      && RolledBack(w, stationInserts, dateInserts, e).dates.nextId == w.dates.nextId
    ensures e.table == DateDim ==>
      && RolledBack(w, stationInserts, dateInserts, e).stations.nextId == w.stations.nextId + stationInserts
      && RolledBack(w, stationInserts, dateInserts, e).dates.nextId == w.dates.nextId + e.position
  {
  }

  /** A NaN in a station tuple: the station ids of the tuples inserted
      before the first NaN one stay used, and Date_Dim's counter stays. */
  lemma RollbackStationNaN(w: Warehouse, data: seq<Record>, calendar: seq<CalendarDay>)
    requires ValidWarehouse(w) && !NaNFree(data, StationColumns)
    ensures var used := Run(w, data, calendar).stations.nextId - w.stations.nextId;
      && 0 <= used < |Tuples(data, StationColumns)|
      && HasNaN(Tuples(data, StationColumns)[used])
      && (forall k :: 0 <= k < used ==> !HasNaN(Tuples(data, StationColumns)[k]))
    ensures Run(w, data, calendar).dates.nextId == w.dates.nextId
  {
    var st := Tuples(data, StationColumns);
    TuplesNaNFree(data, StationColumns);
    PopulateStationFailure(w, data);
    RunFailed(w, data, calendar);
    RolledBackNaN(w, |st|, |Tuples(data, DateColumns)|, InsertDimension(w.stations, st, StationDim).error);
  }

  /** A NaN in a date tuple only: every station insert and the date inserts
      before the first NaN date tuple keep their ids used. */
  lemma RollbackDateNaN(w: Warehouse, data: seq<Record>, calendar: seq<CalendarDay>)
    requires ValidWarehouse(w) && NaNFree(data, StationColumns) && !NaNFree(data, DateColumns)
    ensures Run(w, data, calendar).stations.nextId == w.stations.nextId + |Tuples(data, StationColumns)|
    ensures var used := Run(w, data, calendar).dates.nextId - w.dates.nextId;
      && 0 <= used < |Tuples(data, DateColumns)|
      && HasNaN(Tuples(data, DateColumns)[used])
      && (forall k :: 0 <= k < used ==> !HasNaN(Tuples(data, DateColumns)[k]))
  {
    var st := Tuples(data, StationColumns);
    var dt := Tuples(data, DateColumns);
    TuplesNaNFree(data, StationColumns);
    TuplesNaNFree(data, DateColumns);
    PopulateDateFailure(w, data);
    RunFailed(w, data, calendar);
    RolledBackNaN(w, |st|, |dt|, InsertDimension(w.dates, dt, DateDim).error);
  }

  /** The load raises on the fact pass when both dimension passes succeed
      and the records repeat a (STATION, DATE) pair. */
  lemma PopulateDuplicateFailure(w: Warehouse, data: seq<Record>)
    requires ValidWarehouse(w) && NaNFree(data, StationColumns) && NaNFree(data, DateColumns)
    requires !Distinct(Observations(data))
    ensures PopulateTables(w, data).Failure? && PopulateTables(w, data).error.DuplicateFactKey?
  {
    TuplesNaNFree(data, StationColumns);
    TuplesNaNFree(data, DateColumns);
    PopulateSteps(w, data);
    FactPassOutcome(w, data);
  }

  /** A repeated (STATION, DATE) pair: both dimension passes ran to the end
      before the fact pass raised, so every id they took stays used. */
  lemma RollbackDuplicate(w: Warehouse, data: seq<Record>, calendar: seq<CalendarDay>)
    requires ValidWarehouse(w) && NaNFree(data, StationColumns) && NaNFree(data, DateColumns)
    requires !Distinct(Observations(data))
    ensures Run(w, data, calendar).stations.nextId == w.stations.nextId + |Tuples(data, StationColumns)|
    ensures Run(w, data, calendar).dates.nextId == w.dates.nextId + |Tuples(data, DateColumns)|
  {
    PopulateDuplicateFailure(w, data);
    RunFailed(w, data, calendar);
  }

  /** A run on a valid warehouse keeps it valid. When the records are not
      loadable it changes no row; otherwise it adds one fact per record and
      one Date_Dim row per distinct date tuple and calendar line. */
  lemma RunOutcome(w: Warehouse, data: seq<Record>, calendar: seq<CalendarDay>)
    requires ValidWarehouse(w)
    ensures ValidWarehouse(Run(w, data, calendar))
    ensures !Loadable(data) ==> var r := Run(w, data, calendar);
      r.stations.rows == w.stations.rows && r.dates.rows == w.dates.rows && r.facts == w.facts
    ensures Loadable(data) ==> Run(w, data, calendar) == PopulateDateDim(Populated(w, data), calendar)
  {
    PopulateOutcome(w, data);
    PopulateValue(w, data);
    if Loadable(data) {
      PopulateValid(w, data);
      PopulateDateDimValid(Populated(w, data), calendar);
    } else {
      RollbackOutcome(w, data, calendar);
    }
  }

  /** Running the loader a second time on the same files succeeds too: the
      new surrogate ids give every fact a fresh primary key, so the facts
      are loaded twice over. */
  lemma RerunSucceeds(w: Warehouse, data: seq<Record>, calendar: seq<CalendarDay>)
    requires ValidWarehouse(w) && Load(w, data, calendar).Success?
    ensures Load(Run(w, data, calendar), data, calendar).Success?
    ensures |Run(Run(w, data, calendar), data, calendar).facts| == |w.facts| + 2 * |data|
  {
    PopulateOutcome(w, data);
    RunOutcome(w, data, calendar);
    var w1 := Run(w, data, calendar);
    PopulateOutcome(w1, data);
    RunOutcome(w1, data, calendar);
    PopulatedFacts(w, data);
    PopulatedFacts(w1, data);
  }
}
