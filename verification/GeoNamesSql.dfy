/**
 The generated migration as text, and PostgreSQL's reading of it: NULL, numbers, and the escape
 strings of section 4.1.2.2 of the PostgreSQL 16 documentation. What is read back is what was
 validated. Printing of floats is left open, as long as PostgreSQL reads them back.
 */
module GeoNamesSql {
  import opened Basics
  import opened Wrappers
  import opened Text
  import opened Numerals
  import opened GeoNamesReader

  /** A column value. */
  datatype Cell = Null | Words(text: string) | Whole(n: int) | Decimal(x: real)

  type Tuple = seq<Cell>

  /** repr of a float, and PostgreSQL's reading of such a literal. */
  datatype Floats = Floats(repr: real -> string, numeric: string -> real)

  predicate IsNumberChar(c: char) {
    '0' <= c <= '9' || c == '-' || c == '+' || c == '.' || c == 'e'
  }

  predicate ReadsBackOne(fl: Floats, x: real) {
    && fl.repr(x) != ""
    && (forall i :: 0 <= i < |fl.repr(x)| ==> IsNumberChar(fl.repr(x)[i]))
    && fl.numeric(fl.repr(x)) == x
  }

  /** Every float that Python reads is printed so that PostgreSQL reads it back. */
  ghost predicate ReadsBack(py: Python, fl: Floats) {
    forall s :: FiniteFloat(py, s) ==> ReadsBackOne(fl, py.float_(s).value.value)
  }

  predicate FiniteFloat(py: Python, s: string) {
    py.float_(s).Some? && py.float_(s).value.Finite?
  }

  predicate IsFloatColumn(i: nat) {
    i == 4 || i == 5
  }

  predicate IsIntColumn(i: nat) {
    i == 0 || i == 14 || i == 15 || i == 16
  }

  // ---- printing ------------------------------------------------------------------------------

  /** The value a field stands for. */
  function CellOf(py: Python, field: string, i: nat): Cell {
    if field == "" then Null
    else if IsFloatColumn(i) then
      (if FiniteFloat(py, field) then Decimal(py.float_(field).value.value) else Null)
    else if IsIntColumn(i) then
      (if py.int_(field).Some? then Whole(py.int_(field).value) else Null)
    else Words(field)
  }

  function TupleOf(py: Python, row: Record): Tuple {
    seq(|row|, i requires 0 <= i < |row| => CellOf(py, row[i], i))
  }

  function PrintInt(n: int): string {
    if n < 0 then "-" + Print(-n, 10) else Print(n, 10)
  }

  function Quote(text: string): string {
    "E'" + ReplaceChar(ReplaceChar(text, '\\', "\\\\"), '\'', "''") + "'"
  }

  /** sql_value, for a field that passed validation. */
  function SqlValue(py: Python, fl: Floats, field: string, i: nat): string {
    if field == "" then "NULL"
    else if IsFloatColumn(i) then
      (if FiniteFloat(py, field) then fl.repr(py.float_(field).value.value) else "NULL")
    else if IsIntColumn(i) then
      (if py.int_(field).Some? then PrintInt(py.int_(field).value) else "NULL")
    else Quote(field)
  }

  function PrintCells(py: Python, fl: Floats, row: Record, i: nat): string
    requires i < |row|
    decreases |row| - i
  {
    SqlValue(py, fl, row[i], i) + (if i + 1 < |row| then ", " + PrintCells(py, fl, row, i + 1) else "")
  }

  function PrintTuple(py: Python, fl: Floats, row: Record): string
    requires row != []
  {
    "(" + PrintCells(py, fl, row, 0) + ")"
  }

  ghost predicate Rectangular(rows: seq<Record>) {
    forall i :: 0 <= i < |rows| ==> |rows[i]| == FIELDS
  }

  function PrintTuples(py: Python, fl: Floats, rows: seq<Record>): string
    requires rows != [] && forall i :: 0 <= i < |rows| ==> |rows[i]| == FIELDS
  {
    PrintTuple(py, fl, rows[0]) + (if |rows| > 1 then ",\n" + PrintTuples(py, fl, rows[1..]) else "")
  }

  /** The fixed text around the values. */
  datatype Frame = Frame(begin: string, head: string, tail: string, end: string) {
    ghost predicate Usable() {
      && head != "" && end != "" && tail != ""
      && head[0] != end[0] && tail[0] != ','
    }
  }

  const NAME_COLUMNS := ["geonameid", "name", "asciiname", "alternatenames"]
  const POSITION_COLUMNS := ["latitude", "longitude", "feature_class", "feature_code"]
  const COUNTRY_COLUMNS := ["country_code", "cc2", "admin1_code", "admin2_code"]
  const AREA_COLUMNS := ["admin3_code", "admin4_code", "population", "elevation"]
  const LAST_COLUMNS := ["dem", "timezone", "modification_date"]
  const COLUMNS: seq<string> := NAME_COLUMNS + POSITION_COLUMNS + COUNTRY_COLUMNS + AREA_COLUMNS + LAST_COLUMNS

  function Assignments(columns: seq<string>): seq<string> {
    if columns == [] then [] else [columns[0] + " = EXCLUDED." + columns[0]] + Assignments(columns[1..])
  }

  function MigrationFrame(): Frame {
    FrameFor(COLUMNS)
  }

  function FrameFor(columns: seq<string>): Frame
    requires columns != []
  {
    Frame("BEGIN;\n", Head(columns), Tail(columns), "ANALYZE public.all_countries;\nCOMMIT;\n")
  }

  function Head(columns: seq<string>): string {
    "INSERT INTO " + ("public.all_countries" + (" (" + (Join(columns, ", ") + ") VALUES\n")))
  }

  function Tail(columns: seq<string>): string
    requires columns != []
  {
    "\nON CONFLICT (" + ("geonameid"
    + (") DO UPDATE SET\n  " + (Join(Assignments(columns[1..]), ",\n  ") + Condition())))
  }

  function Condition(): string {
    "\nWHERE " + (("all_countries." + "modification_date") + (" IS NULL" + ("\n   OR "
    + (("EXCLUDED." + "modification_date") + (" >= " + (("all_countries." + "modification_date") + ";\n"))))))
  }

  const BATCH: nat := 500

  function Batches<T>(rows: seq<T>): (batches: seq<seq<T>>)
    ensures forall i :: 0 <= i < |batches| ==> 1 <= |batches[i]| <= 500
    ensures forall i :: 0 <= i < |batches| - 1 ==> |batches[i]| == 500
  {
    if rows == [] then [] else [rows[..Min(BATCH, |rows|)]] + Batches(rows[Min(BATCH, |rows|)..])
  }

  function PrintStatement(py: Python, fl: Floats, frame: Frame, rows: seq<Record>): string
    requires rows != [] && forall i :: 0 <= i < |rows| ==> |rows[i]| == FIELDS
  {
    frame.head + PrintTuples(py, fl, rows) + frame.tail
  }

  function PrintStatements(py: Python, fl: Floats, frame: Frame, rows: seq<Record>): string
    requires forall i :: 0 <= i < |rows| ==> |rows[i]| == FIELDS
  {
    if rows == [] then ""
    else
      var k := Min(BATCH, |rows|);
      PrintStatement(py, fl, frame, rows[..k]) + PrintStatements(py, fl, frame, rows[k..])
  }

  function PrintScript(py: Python, fl: Floats, frame: Frame, rows: seq<Record>): string
    requires forall i :: 0 <= i < |rows| ==> |rows[i]| == FIELDS
  {
    frame.begin + PrintStatements(py, fl, frame, rows) + frame.end
  }

  lemma PrintOneMoreStatement(py: Python, fl: Floats, frame: Frame, rows: seq<Record>, start: nat, stop: nat)
    requires forall i :: 0 <= i < |rows| ==> |rows[i]| == FIELDS
    requires start < |rows| && stop == Min(start + BATCH, |rows|)
    ensures PrintStatements(py, fl, frame, rows[start..]) ==
            PrintStatement(py, fl, frame, rows[start..stop]) + PrintStatements(py, fl, frame, rows[stop..])
  {
    assert rows[start..][..stop - start] == rows[start..stop];
    assert rows[start..][stop - start..] == rows[stop..];
  }

  lemma Regroup(a: string, b: string, c: string)
    ensures a + (b + c) == a + b + c
  {
  }

  /** The statements of the migration, written batch by batch. */
  method WriteMigration(py: Python, fl: Floats, frame: Frame, rows: seq<Record>) returns (output: string)
    requires forall i :: 0 <= i < |rows| ==> |rows[i]| == FIELDS
    ensures output == PrintScript(py, fl, frame, rows)
  {
    output := frame.begin;
    ghost var all := frame.begin + PrintStatements(py, fl, frame, rows);
    var start := 0;
    assert rows[start..] == rows;
    while start < |rows|
      invariant 0 <= start <= |rows|
      invariant output + PrintStatements(py, fl, frame, rows[start..]) == all
    {
      var stop := Min(start + BATCH, |rows|);
      PrintOneMoreStatement(py, fl, frame, rows, start, stop);
      var statement := PrintStatement(py, fl, frame, rows[start..stop]);
      Regroup(output, statement, PrintStatements(py, fl, frame, rows[stop..]));
      output := output + statement;
      start := stop;
    }
    assert rows[start..] == [] && output + "" == output;
    output := output + frame.end;
  }

  // ---- PostgreSQL's reading ------------------------------------------------------------------

  /** A value read, and what follows it. */
  type Read<T> = Option<(T, string)>

  function Expect(prefix: string, s: string): Option<string> {
    if prefix <= s then Some(s[|prefix|..]) else None
  }

  /** The characters that can follow a backslash, except for the numeric forms, which are not modelled. */
  function Unescape(c: char): Option<char> {
    if c == NUL || '0' <= c <= '7' || c == 'x' || c == 'u' || c == 'U' then None
    else if c == 'b' then Some('\U{0008}')
    else if c == 'f' then Some('\U{000C}')
    else if c == 'n' then Some('\n')
    else if c == 'r' then Some('\r')
    else if c == 't' then Some('\t')
    else Some(c)
  }

  /** "The character with the code zero cannot be in a string constant." */
  const NUL := '\U{0000}'

  /** The rest of an escape string after E': two quotes stand for one, a backslash escapes, a quote ends it. */
  function ReadQuoted(s: string): (r: Read<string>)
    ensures r.Some? ==> |r.value.1| < |s|
  {
    if s == "" || s[0] == NUL then None
    else if s[0] == '\'' then
      if |s| >= 2 && s[1] == '\'' then Prepend('\'', ReadQuoted(s[2..])) else Some(("", s[1..]))
    else if s[0] == '\\' then
      if |s| >= 2 && Unescape(s[1]).Some? then Prepend(Unescape(s[1]).value, ReadQuoted(s[2..])) else None
    else Prepend(s[0], ReadQuoted(s[1..]))
  }

  function Prepend(c: char, r: Read<string>): Read<string> {
    if r.Some? then Some(([c] + r.value.0, r.value.1)) else None
  }

  /** The longest run of number characters. */
  function Number(s: string): (r: (string, string))
    ensures r.0 + r.1 == s
  {
    if s == "" || !IsNumberChar(s[0]) then ("", s)
    else var rest := Number(s[1..]); ([s[0]] + rest.0, rest.1)
  }

  function ReadInt(token: string): Option<int> {
    if token != "" && token[0] == '-' then
      (if IsDecimal(token[1..]) then Some(-(Parse(token[1..], 10) as int)) else None)
    else if IsDecimal(token) then Some(Parse(token, 10))
    else None
  }

  predicate IsDecimal(s: string)
    ensures IsDecimal(s) ==> AllDigits(s)
  {
    s != "" && forall i :: 0 <= i < |s| ==> '0' <= s[i] <= '9'
  }

  function ReadCell(fl: Floats, i: nat, s: string): (r: Read<Cell>)
    ensures r.Some? ==> |r.value.1| < |s|
  {
    if "NULL" <= s then Some((Null, s[4..]))
    else if "E'" <= s then
      var quoted := ReadQuoted(s[2..]);
      if quoted.Some? then Some((Words(quoted.value.0), quoted.value.1)) else None
    else
      var (token, rest) := Number(s);
      if token == "" then None
      else if IsFloatColumn(i) then Some((Decimal(fl.numeric(token)), rest))
      else if ReadInt(token).Some? then Some((Whole(ReadInt(token).value), rest))
      else None
  }

  /** The values from column `i` up to the closing parenthesis. */
  function ReadCells(fl: Floats, i: nat, s: string): (r: Read<Tuple>)
    ensures r.Some? ==> |r.value.1| < |s|
    decreases |s|
  {
    var cell := ReadCell(fl, i, s);
    if cell.None? then None
    else
      var rest := cell.value.1;
      if ")" <= rest then Some(([cell.value.0], rest[1..]))
      else if ", " <= rest then
        var more := ReadCells(fl, i + 1, rest[2..]);
        if more.Some? then Some(([cell.value.0] + more.value.0, more.value.1)) else None
      else None
  }

  function ReadTuples(fl: Floats, s: string): (r: Read<seq<Tuple>>)
    ensures r.Some? ==> |r.value.1| < |s|
    decreases |s|
  {
    if !("(" <= s) then None
    else
      var tuple := ReadCells(fl, 0, s[1..]);
      if tuple.None? then None
      else
        var rest := tuple.value.1;
        if ",\n" <= rest then
          var more := ReadTuples(fl, rest[2..]);
          if more.Some? then Some(([tuple.value.0] + more.value.0, more.value.1)) else None
        else Some(([tuple.value.0], rest))
  }

  /** Statements up to the closing text. */
  function ReadStatements(fl: Floats, frame: Frame, s: string): Option<seq<seq<Tuple>>>
    decreases |s|
  {
    if s == frame.end then Some([])
    else if !(frame.head <= s) then None
    else
      var tuples := ReadTuples(fl, s[|frame.head|..]);
      if tuples.None? then None
      else
        var rest := Expect(frame.tail, tuples.value.1);
        if rest.None? then None
        else
          var more := ReadStatements(fl, frame, rest.value);
          if more.Some? then Some([tuples.value.0] + more.value) else None
  }

  function ReadScript(fl: Floats, frame: Frame, s: string): Option<seq<seq<Tuple>>> {
    var rest := Expect(frame.begin, s);
    if rest.None? then None else ReadStatements(fl, frame, rest.value)
  }
}
