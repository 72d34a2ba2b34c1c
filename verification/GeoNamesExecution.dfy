/**
 Executing an INSERT ... ON CONFLICT DO UPDATE as it was read: column names are looked up, assignments
 are carried out and the condition is evaluated in SQL's three-valued logic. For the statement that the
 generator writes this comes to: the incoming row replaces the stored one unless that one is newer.
 */
module GeoNamesExecution {
  import opened Wrappers
  import opened GeoNamesReader
  import opened GeoNamesSql
  import opened GeoNamesUpsert

  function Key(t: Tuple): Option<int> {
    if |t| == FIELDS && t[0].Whole? then Some(t[0].n) else None
  }

  /** all_countries, by geonameid; a row holds the values of the columns in the order of SCHEMA. */
  type Table = m: map<int, Tuple> | forall id :: id in m ==> Key(m[id]) == Some(id) witness map[]

  /** PostgreSQL's reading of a date. */
  type Dates = string -> Option<int>

  /** What PostgreSQL accepts: dates, and by column the integers and the widths of texts. */
  datatype Server = Server(date: Dates, fits: (nat, Cell) -> bool)

  function DateOf(date: Dates, t: Tuple): Option<int> {
    if |t| == FIELDS && t[18].Words? then date(t[18].text) else None
  }

  predicate Fits(server: Server, t: Tuple) {
    forall i :: 0 <= i < |t| ==> server.fits(i, t[i])
  }

  /** The row has a primary key, its date is NULL or can be read, and all values fit their columns. */
  predicate Insertable(server: Server, t: Tuple) {
    Key(t).Some? && (t[18] == Null || DateOf(server.date, t).Some?) && Fits(server, t)
  }

  // ---- columns -------------------------------------------------------------------------------

  function IndexOf(names: seq<string>, name: string): (r: Option<nat>)
    ensures r.Some? ==> r.value < |names| && names[r.value] == name
    ensures r.None? ==> name !in names
  {
    if names == [] then None
    else if names[0] == name then Some(0)
    else
      var rest := IndexOf(names[1..], name);
      if rest.Some? then Some(rest.value + 1) else None
  }

  /** The value given for a column; a column that is not named gets NULL. */
  function ValueOf(columns: seq<string>, values: Tuple, name: string): Cell
    requires |values| == |columns|
  {
    var i := IndexOf(columns, name);
    if i.Some? then values[i.value] else Null
  }

  /** The row that values listed in the order of `columns` make. */
  function Placed(columns: seq<string>, values: Tuple): (row: Tuple)
    requires |values| == |columns|
  {
    seq(|SCHEMA|, k requires 0 <= k < |SCHEMA| => ValueOf(columns, values, SCHEMA[k]))
  }

  /** The column whose incoming value is assigned to this one. */
  function SourceOf(sets: seq<(string, string)>, name: string): Option<string> {
    if sets == [] then None
    else if sets[0].0 == name then Some(sets[0].1)
    else SourceOf(sets[1..], name)
  }

  function Updated(sets: seq<(string, string)>, existing: Tuple, incoming: Tuple): (row: Tuple)
    requires |existing| == |incoming| == |SCHEMA|
  {
    seq(|SCHEMA|, k requires 0 <= k < |SCHEMA| =>
      var source := SourceOf(sets, SCHEMA[k]);
      if source.Some? then ValueOf(SCHEMA, incoming, source.value) else existing[k])
  }

  // ---- conditions ----------------------------------------------------------------------------

  /** The number that orders values of a column; None for NULL. Texts other than dates are not compared here. */
  function Measure(date: Dates, column: string, cell: Cell): Option<real> {
    if column == "modification_date" then
      (if cell.Words? && date(cell.text).Some? then Some(date(cell.text).value as real) else None)
    else match cell
      case Whole(n) => Some(n as real)
      case Decimal(x) => Some(x)
      case _ => None
  }

  /** A comparison with NULL is neither true nor false. */
  function Compared(op: string, x: Option<real>, y: Option<real>): Option<bool> {
    if x.None? || y.None? then None
    else if op == ">=" then Some(x.value >= y.value)
    else if op == "<=" then Some(x.value <= y.value)
    else if op == ">" then Some(x.value > y.value)
    else if op == "<" then Some(x.value < y.value)
    else if op == "=" then Some(x.value == y.value)
    else if op == "<>" then Some(x.value != y.value)
    else None
  }

  function CellAt(operand: Operand, existing: Tuple, incoming: Tuple): Cell
    requires |existing| == |incoming| == |SCHEMA|
  {
    match operand
    case Stored(column) => ValueOf(SCHEMA, existing, column)
    case Incoming(column) => ValueOf(SCHEMA, incoming, column)
  }

  function MeasureAt(date: Dates, operand: Operand, existing: Tuple, incoming: Tuple): Option<real>
    requires |existing| == |incoming| == |SCHEMA|
  {
    Measure(date, operand.column, CellAt(operand, existing, incoming))
  }

  /** A date column holds dates and NULL, so that what is not a date stands for NULL there. */
  function Evaluate(date: Dates, test: Test, existing: Tuple, incoming: Tuple): Option<bool>
    requires |existing| == |incoming| == |SCHEMA|
  {
    match test
    case IsNull(operand) =>
      if operand.column == "modification_date" then Some(MeasureAt(date, operand, existing, incoming).None?)
      else Some(CellAt(operand, existing, incoming) == Null)
    case Compare(left, op, right) =>
      Compared(op, MeasureAt(date, left, existing, incoming), MeasureAt(date, right, existing, incoming))
  }

  function Or(a: Option<bool>, b: Option<bool>): Option<bool> {
    if a == Some(true) || b == Some(true) then Some(true)
    else if a.None? || b.None? then None
    else Some(false)
  }

  function EvaluateAny(date: Dates, tests: seq<Test>, existing: Tuple, incoming: Tuple): Option<bool>
    requires |existing| == |incoming| == |SCHEMA|
  {
    if tests == [] then Some(false)
    else Or(Evaluate(date, tests[0], existing, incoming), EvaluateAny(date, tests[1..], existing, incoming))
  }

  // ---- execution -----------------------------------------------------------------------------

  /** It is the table of places that is written, conflicts are those of its primary key, and the columns exist. */
  predicate Resolves(st: Statement) {
    && st.table == "public.all_countries" && st.key == "geonameid"
    && (forall i :: 0 <= i < |st.columns| ==> st.columns[i] in SCHEMA)
    && (forall i :: 0 <= i < |st.sets| ==> st.sets[i].0 in SCHEMA && st.sets[i].1 in SCHEMA)
  }

  /** What one row does: it is refused, or the table is changed by it or not. */
  datatype Effect = Refused | Effect(table: Table, changed: bool)

  /** Insert, update or leave. Assignments that change the primary key are not followed, but refused. */
  function Execute(server: Server, st: Statement, table: Table, values: Tuple): Effect {
    if !Resolves(st) || |values| != |st.columns| || !Insertable(server, Placed(st.columns, values)) then Refused
    else
      var incoming := Placed(st.columns, values);
      var id := Key(incoming).value;
      if id !in table then Effect(table[id := incoming], true)
      else if EvaluateAny(server.date, st.anyOf, table[id], incoming) != Some(true) then Effect(table, false)
      else
        var row := Updated(st.sets, table[id], incoming);
        if Key(row) == Some(id) then Effect(table[id := row], true) else Refused
  }

  // ---- the statement that is written ---------------------------------------------------------

  /** The condition of the DO UPDATE; a comparison with NULL is not true. */
  predicate Replaces(date: Dates, incoming: Tuple, existing: Tuple) {
    || DateOf(date, existing).None?
    || (DateOf(date, incoming).Some? && DateOf(date, incoming).value >= DateOf(date, existing).value)
  }

  predicate Takes(date: Dates, table: Table, t: Tuple)
    requires Key(t).Some?
  {
    Key(t).value in table ==> Replaces(date, t, table[Key(t).value])
  }

  function Upsert(date: Dates, table: Table, t: Tuple): Table
    requires Key(t).Some?
  {
    if Takes(date, table, t) then table[Key(t).value := t] else table
  }

  /** No two column names agree in length, first letter and, for the longer ones, sixth letter. */
  function Ordinal(name: string): int {
    if |name| == 0 then -1
    else if |name| == 4 then 1
    else if |name| == 14 then 3
    else if |name| == 13 then 6
    else if |name| == 10 then 14
    else if |name| == 17 then 18
    else if |name| == 9 then
      (if name[0] == 'g' then 0 else if name[0] == 'a' then 2 else if name[0] == 'l' then 5 else 15)
    else if |name| == 8 then (if name[0] == 'l' then 4 else 17)
    else if |name| == 12 then (if name[0] == 'f' then 7 else 8)
    else if |name| == 3 then (if name[0] == 'c' then 9 else 16)
    else if |name| == 11 then
      (if name[5] == '1' then 10 else if name[5] == '2' then 11 else if name[5] == '3' then 12 else 13)
    else -1
  }

  lemma FirstOrdinals()
    ensures forall k :: 0 <= k < 8 ==> Ordinal(SCHEMA[k]) == k
  {
    assert SCHEMA[0] == "geonameid" && SCHEMA[1] == "name" && SCHEMA[2] == "asciiname";
    assert SCHEMA[3] == "alternatenames" && SCHEMA[4] == "latitude" && SCHEMA[5] == "longitude";
    assert SCHEMA[6] == "feature_class" && SCHEMA[7] == "feature_code";
  }

  lemma MiddleOrdinals()
    ensures forall k :: 8 <= k < 14 ==> Ordinal(SCHEMA[k]) == k
  {
    assert SCHEMA[8] == "country_code" && SCHEMA[9] == "cc2" && SCHEMA[10] == "admin1_code";
    assert SCHEMA[11] == "admin2_code" && SCHEMA[12] == "admin3_code" && SCHEMA[13] == "admin4_code";
  }

  lemma LastOrdinals()
    ensures forall k :: 14 <= k < 19 ==> Ordinal(SCHEMA[k]) == k
  {
    assert SCHEMA[14] == "population" && SCHEMA[15] == "elevation" && SCHEMA[16] == "dem";
    assert SCHEMA[17] == "timezone" && SCHEMA[18] == "modification_date";
  }

  lemma ColumnsAreDistinct(k: nat)
    requires k < |SCHEMA|
    ensures IndexOf(SCHEMA, SCHEMA[k]) == Some(k)
  {
    FirstOrdinals();
    MiddleOrdinals();
    LastOrdinals();
    var i := IndexOf(SCHEMA, SCHEMA[k]);
    assert SCHEMA[i.value] == SCHEMA[k];
  }

  lemma PlacedBySchema(values: Tuple)
    requires |values| == |SCHEMA|
    ensures Placed(SCHEMA, values) == values
  {
    forall k | 0 <= k < |SCHEMA| ensures Placed(SCHEMA, values)[k] == values[k] {
      ColumnsAreDistinct(k);
    }
  }

  lemma {:induction false} SourceOfPair(columns: seq<string>, name: string)
    ensures SourceOf(Pairs(columns), name) == if name in columns then Some(name) else None
    decreases |columns|
  {
    if columns != [] {
      SourceOfPair(columns[1..], name);
      assert Pairs(columns)[1..] == Pairs(columns[1..]);
    }
  }

  lemma UpdatedBySchema(existing: Tuple, incoming: Tuple)
    requires |existing| == |incoming| == |SCHEMA| && existing[0] == incoming[0]
    ensures Updated(Pairs(SCHEMA[1..]), existing, incoming) == incoming
  {
    forall k | 0 <= k < |SCHEMA| ensures Updated(Pairs(SCHEMA[1..]), existing, incoming)[k] == incoming[k] {
      ColumnsAreDistinct(k);
      SourceOfPair(SCHEMA[1..], SCHEMA[k]);
      if k > 0 {
        assert SCHEMA[1..][k - 1] == SCHEMA[k];
      }
    }
  }

  lemma DateIsMeasured(date: Dates, t: Tuple)
    requires |t| == |SCHEMA|
    ensures ValueOf(SCHEMA, t, "modification_date") == t[18]
    ensures Measure(date, "modification_date", t[18]) ==
            if DateOf(date, t).Some? then Some(DateOf(date, t).value as real) else None
  {
    ColumnsAreDistinct(18);
  }

  /** The condition that is written holds if the stored date is NULL or not after the incoming one. */
  lemma GuardMeans(date: Dates, existing: Tuple, incoming: Tuple)
    requires |existing| == |incoming| == |SCHEMA|
    ensures EvaluateAny(date, GuardTests("modification_date"), existing, incoming) == Some(true) <==>
            || DateOf(date, existing).None?
            || (DateOf(date, incoming).Some? && DateOf(date, existing).value <= DateOf(date, incoming).value)
  {
    DateIsMeasured(date, existing);
    DateIsMeasured(date, incoming);
    var tests := GuardTests("modification_date");
    assert tests[1..] == [tests[1]] && tests[1..][1..] == [];
    assert EvaluateAny(date, tests[1..][1..], existing, incoming) == Some(false);
    assert EvaluateAny(date, tests[1..], existing, incoming) ==
           Or(Evaluate(date, tests[1], existing, incoming), Some(false));
  }

  lemma IntendedResolves()
    ensures Resolves(Intended(SCHEMA))
  {
    var sets := Pairs(SCHEMA[1..]);
    forall i | 0 <= i < |sets| ensures sets[i].0 in SCHEMA && sets[i].1 in SCHEMA {
      PairsInSchema(SCHEMA[1..], i);
    }
  }

  lemma PairsInSchema(columns: seq<string>, i: nat)
    requires i < |Pairs(columns)| && forall c :: c in columns ==> c in SCHEMA
    ensures Pairs(columns)[i].0 in SCHEMA && Pairs(columns)[i].1 in SCHEMA
  {
    PairsAt(columns);
    assert columns[i] in columns;
  }

  lemma {:induction false} PairsAt(columns: seq<string>)
    ensures |Pairs(columns)| == |columns|
    ensures forall i :: 0 <= i < |columns| ==> Pairs(columns)[i] == (columns[i], columns[i])
    decreases |columns|
  {
    if columns != [] {
      PairsAt(columns[1..]);
      assert forall i :: 1 <= i < |columns| ==> Pairs(columns)[i] == Pairs(columns[1..])[i - 1];
    }
  }

  /** Executing what is written, on any row and any table, is inserting it or letting it replace the older. */
  lemma ExecuteUpserts(server: Server, table: Table, t: Tuple)
    ensures Execute(server, Intended(SCHEMA), table, t) ==
            if Insertable(server, t) then Effect(Upsert(server.date, table, t), Takes(server.date, table, t))
            else Refused
  {
    var st := Intended(SCHEMA);
    IntendedResolves();
    if |t| == |SCHEMA| {
      PlacedBySchema(t);
      if Insertable(server, t) && Key(t).value in table {
        var existing := table[Key(t).value];
        assert Key(existing) == Key(t) && existing[0] == t[0];
        GuardMeans(server.date, existing, t);
        UpdatedBySchema(existing, t);
      }
    }
  }

  /** By name, what each field of a GeoNames line is stored as when the file that is written is executed. */
  lemma FieldsGoToColumns(t: Tuple)
    requires |t| == FIELDS
    ensures ReadFrame(MigrationFrame()).Some? && ReadFrame(MigrationFrame()).value.columns == SCHEMA
    ensures var v := name => ValueOf(SCHEMA, Placed(SCHEMA, t), name);
            && v("geonameid") == t[0] && v("name") == t[1] && v("asciiname") == t[2] && v("alternatenames") == t[3]
            && v("latitude") == t[4] && v("longitude") == t[5] && v("feature_class") == t[6]
            && v("feature_code") == t[7] && v("country_code") == t[8] && v("cc2") == t[9]
            && v("admin1_code") == t[10] && v("admin2_code") == t[11] && v("admin3_code") == t[12]
            && v("admin4_code") == t[13] && v("population") == t[14] && v("elevation") == t[15]
            && v("dem") == t[16] && v("timezone") == t[17] && v("modification_date") == t[18]
  {
    MigrationMeans();
    PlacedBySchema(t);
    forall k | 0 <= k < |SCHEMA| ensures ValueOf(SCHEMA, t, SCHEMA[k]) == t[k] {
      ColumnsAreDistinct(k);
    }
    SchemaNames();
  }

  lemma SchemaNames()
    ensures SCHEMA[0] == "geonameid" && SCHEMA[1] == "name" && SCHEMA[2] == "asciiname"
    ensures SCHEMA[3] == "alternatenames" && SCHEMA[4] == "latitude" && SCHEMA[5] == "longitude"
    ensures SCHEMA[6] == "feature_class" && SCHEMA[7] == "feature_code"
    ensures SCHEMA[8] == "country_code" && SCHEMA[9] == "cc2" && SCHEMA[10] == "admin1_code"
    ensures SCHEMA[11] == "admin2_code" && SCHEMA[12] == "admin3_code" && SCHEMA[13] == "admin4_code"
    ensures SCHEMA[14] == "population" && SCHEMA[15] == "elevation" && SCHEMA[16] == "dem"
    ensures SCHEMA[17] == "timezone" && SCHEMA[18] == "modification_date"
  {
  }
}
