/** PostgreSQL reads back exactly the rows that were validated. */
module GeoNamesRoundTrip {
  import opened Basics
  import opened Wrappers
  import opened Text
  import opened Numerals
  import opened GeoNamesReader
  import opened GeoNamesSql

  // ---- literals ------------------------------------------------------------------------------

  /** Both replacements at once. */
  function Doubled(text: string): string {
    if text == "" then "" else DoubledChar(text[0]) + Doubled(text[1..])
  }

  function DoubledChar(c: char): string {
    if c == '\\' then "\\\\" else if c == '\'' then "''" else [c]
  }

  lemma ReplaceOne(c: char, x: char, with: string)
    ensures ReplaceChar([c], x, with) == if c == x then with else [c]
  {
    assert [c][1..] == "";
  }

  lemma {:induction false} QuoteDoubles(text: string)
    ensures ReplaceChar(ReplaceChar(text, '\\', "\\\\"), '\'', "''") == Doubled(text)
  {
    if text != "" {
      var c, t := text[0], text[1..];
      var head := if c == '\\' then "\\\\" else [c];
      QuoteDoubles(t);
      ReplaceAppend(head, ReplaceChar(t, '\\', "\\\\"), '\'', "''");
      if c == '\\' {
        assert "\\\\" == ['\\'] + ['\\'];
        ReplaceAppend(['\\'], ['\\'], '\'', "''");
        ReplaceOne('\\', '\'', "''");
      } else {
        ReplaceOne(c, '\'', "''");
      }
    }
  }

  /** The text can be in a string constant at all. */
  predicate Readable(text: string) {
    forall i :: 0 <= i < |text| ==> text[i] != '\U{0000}'
  }

  lemma ReadDoubledChar(c: char, rest: string)
    ensures ReadQuoted(DoubledChar(c) + rest) == if c == NUL then None else Prepend(c, ReadQuoted(rest))
  {
    var s := DoubledChar(c) + rest;
    if c == '\\' || c == '\'' {
      assert s[0] == c && s[1] == c && s[2..] == rest;
    } else {
      assert s[0] == c && s[1..] == rest;
    }
  }

  lemma ReadableCons(text: string)
    requires text != ""
    ensures Readable(text) <==> text[0] != NUL && Readable(text[1..])
  {
    assert forall i :: 1 <= i < |text| ==> text[i] == text[1..][i - 1];
  }

  /** Any text survives quoting, whatever quotes and backslashes it has, unless it holds U+0000. */
  lemma {:induction false} ReadDoubled(text: string, rest: string)
    requires rest == "" || rest[0] != '\''
    ensures ReadQuoted(Doubled(text) + "'" + rest) == if Readable(text) then Some((text, rest)) else None
    decreases |text|
  {
    if text == "" {
      var s := Doubled(text) + "'" + rest;
      assert s == "'" + rest && s[1..] == rest;
    } else {
      var tail := Doubled(text[1..]) + "'" + rest;
      assert [text[0]] + text[1..] == text;
      assert Doubled(text) + "'" + rest == DoubledChar(text[0]) + tail;
      ReadDoubledChar(text[0], tail);
      ReadDoubled(text[1..], rest);
      ReadableCons(text);
    }
  }

  lemma ParsesDecimal()
    ensures Parse("-1204"[1..], 10) == 1204
  {
    assert Parse("1", 10) == 1;
    assert Parse("12", 10) == 12 by { assert "12"[..1] == "1"; }
    assert Parse("120", 10) == 120 by { assert "120"[..2] == "12"; }
    assert "-1204"[1..] == "1204" && "1204"[..3] == "120";
  }

  lemma PrintsDecimal()
    ensures Print(1204, 10) == "1204"
  {
    assert Print(12, 10) == "12" && Print(120, 10) == "120";
  }

  /** Numbers are decimal. */
  lemma IntsAreDecimal()
    ensures PrintInt(-1204) == "-1204" && ReadInt("-1204") == Some(-1204)
  {
    PrintsDecimal();
    ParsesDecimal();
    assert "-1204"[1..] == "1204";
  }

  /** The delimiters that follow a value. */
  ghost predicate Delimited(rest: string) {
    rest != "" && (rest[0] == ',' || rest[0] == ')')
  }

  lemma ReadText(fl: Floats, text: string, i: nat, rest: string)
    requires Delimited(rest)
    ensures ReadCell(fl, i, Quote(text) + rest) == if Readable(text) then Some((Words(text), rest)) else None
  {
    var s := Quote(text) + rest;
    QuoteDoubles(text);
    ReadDoubled(text, rest);
    assert s[0] == 'E' && s[1] == '\'';
    assert s[2..] == Doubled(text) + "'" + rest;
  }

  lemma {:induction false} NumberOfToken(token: string, rest: string)
    requires Delimited(rest) && forall i :: 0 <= i < |token| ==> IsNumberChar(token[i])
    ensures Number(token + rest) == (token, rest)
    decreases |token|
  {
    if token == "" {
      assert token + rest == rest && !IsNumberChar(rest[0]);
      assert Number(rest) == ("", rest);
    } else {
      assert (token + rest)[1..] == token[1..] + rest;
      assert [token[0]] + token[1..] == token;
      NumberOfToken(token[1..], rest);
    }
  }

  lemma PrintedNat(n: nat)
    ensures IsDecimal(Print(n, 10)) && Parse(Print(n, 10), 10) == n
  {
    ParsePrint(n, 10);
    var s := Print(n, 10);
    assert forall i :: 0 <= i < |s| ==> '0' <= s[i] <= '9';
  }

  lemma Unsigned(s: string)
    requires IsDecimal(s)
    ensures ReadInt(s) == Some(Parse(s, 10)) && forall i :: 0 <= i < |s| ==> IsNumberChar(s[i])
  {
  }

  lemma Negated(s: string)
    requires IsDecimal(s)
    ensures ReadInt("-" + s) == Some(-(Parse(s, 10) as int))
    ensures forall i :: 0 <= i < |"-" + s| ==> IsNumberChar(("-" + s)[i])
  {
    assert ("-" + s)[1..] == s;
  }

  lemma PrintedInt(n: int)
    ensures PrintInt(n) != "" && ReadInt(PrintInt(n)) == Some(n)
    ensures forall i :: 0 <= i < |PrintInt(n)| ==> IsNumberChar(PrintInt(n)[i])
  {
    var size: nat := if n < 0 then -n else n;
    PrintedNat(size);
    Unsigned(Print(size, 10));
    Negated(Print(size, 10));
  }

  lemma NotKeyword(token: string, rest: string)
    requires token != "" && IsNumberChar(token[0])
    ensures !("NULL" <= token + rest) && !("E'" <= token + rest)
  {
    assert (token + rest)[0] == token[0];
  }

  lemma ReadWhole(fl: Floats, n: int, i: nat, rest: string)
    requires Delimited(rest) && !IsFloatColumn(i)
    ensures ReadCell(fl, i, PrintInt(n) + rest) == Some((Whole(n), rest))
  {
    PrintedInt(n);
    NotKeyword(PrintInt(n), rest);
    NumberOfToken(PrintInt(n), rest);
  }

  lemma ReadDecimal(fl: Floats, x: real, i: nat, rest: string)
    requires ReadsBackOne(fl, x) && Delimited(rest) && IsFloatColumn(i)
    ensures ReadCell(fl, i, fl.repr(x) + rest) == Some((Decimal(x), rest))
  {
    var token := fl.repr(x);
    assert token != "" && IsNumberChar(token[0]) && fl.numeric(token) == x;
    NotKeyword(token, rest);
    NumberOfToken(token, rest);
  }

  lemma ReadNull(fl: Floats, i: nat, rest: string)
    ensures ReadCell(fl, i, "NULL" + rest) == Some((Null, rest))
  {
    assert ("NULL" + rest)[4..] == rest;
  }

  predicate FieldReadable(field: string, i: nat) {
    IsFloatColumn(i) || IsIntColumn(i) || Readable(field)
  }

  /**
   An empty field comes back as NULL, everything else as the value it stands for; only a text with
   U+0000 does not come back.
   */
  lemma ReadPrintedCell(py: Python, fl: Floats, field: string, i: nat, rest: string)
    requires ReadsBack(py, fl) && Delimited(rest)
    ensures ReadCell(fl, i, SqlValue(py, fl, field, i) + rest) ==
            if FieldReadable(field, i) then Some((CellOf(py, field, i), rest)) else None
  {
    if field == "" {
      ReadNull(fl, i, rest);
    } else if IsFloatColumn(i) {
      if FiniteFloat(py, field) {
        ReadDecimal(fl, py.float_(field).value.value, i, rest);
      } else {
        ReadNull(fl, i, rest);
      }
    } else if IsIntColumn(i) {
      if py.int_(field).Some? {
        ReadWhole(fl, py.int_(field).value, i, rest);
      } else {
        ReadNull(fl, i, rest);
      }
    } else {
      ReadText(fl, field, i, rest);
    }
  }

  // ---- rows and statements -------------------------------------------------------------------

  predicate ReadableFrom(row: Record, i: nat) {
    forall k :: i <= k < |row| ==> FieldReadable(row[k], k)
  }

  predicate AllReadable(rows: seq<Record>) {
    forall i :: 0 <= i < |rows| ==> ReadableFrom(rows[i], 0)
  }

  lemma ReadOneMoreCell(fl: Floats, i: nat, s: string, cell: Cell, tail: string, more: Read<Tuple>)
    requires ReadCell(fl, i, s) == Some((cell, ", " + tail)) && ReadCells(fl, i + 1, tail) == more
    ensures ReadCells(fl, i, s) == if more.Some? then Some(([cell] + more.value.0, more.value.1)) else None
  {
    assert (", " + tail)[2..] == tail;
    assert (", " + tail)[0] == ',';
  }

  lemma ReadLastCell(fl: Floats, i: nat, s: string, cell: Cell, rest: string)
    requires ReadCell(fl, i, s) == Some((cell, ")" + rest))
    ensures ReadCells(fl, i, s) == Some(([cell], rest))
  {
    assert (")" + rest)[1..] == rest;
  }

  lemma RegroupCells(value: string, more: string, rest: string)
    ensures value + (", " + more) + ")" + rest == value + (", " + (more + ")" + rest))
  {
  }

  lemma ReadableTail(row: Record, i: nat)
    requires i < |row|
    ensures ReadableFrom(row, i) <==> FieldReadable(row[i], i) && ReadableFrom(row, i + 1)
  {
  }

  lemma CellsContinue(py: Python, fl: Floats, row: Record, i: nat, rest: string)
    requires i + 1 < |row|
    ensures PrintCells(py, fl, row, i) + ")" + rest ==
            SqlValue(py, fl, row[i], i) + (", " + (PrintCells(py, fl, row, i + 1) + ")" + rest))
  {
    RegroupCells(SqlValue(py, fl, row[i], i), PrintCells(py, fl, row, i + 1), rest);
  }

  lemma TupleTail(py: Python, row: Record, i: nat)
    requires i < |row|
    ensures TupleOf(py, row)[i..] == [CellOf(py, row[i], i)] + TupleOf(py, row)[i + 1..]
  {
  }

  lemma CellsEnd(py: Python, fl: Floats, row: Record, i: nat, rest: string)
    requires i + 1 == |row|
    ensures PrintCells(py, fl, row, i) + ")" + rest == SqlValue(py, fl, row[i], i) + (")" + rest)
  {
  }

  lemma {:induction false} ReadPrintedCells(py: Python, fl: Floats, row: Record, i: nat, rest: string)
    requires ReadsBack(py, fl) && i < |row|
    ensures ReadCells(fl, i, PrintCells(py, fl, row, i) + ")" + rest) ==
            if ReadableFrom(row, i) then Some((TupleOf(py, row)[i..], rest)) else None
    decreases |row| - i
  {
    var s := PrintCells(py, fl, row, i) + ")" + rest;
    TupleTail(py, row, i);
    ReadableTail(row, i);
    if i + 1 < |row| {
      var tail := PrintCells(py, fl, row, i + 1) + ")" + rest;
      CellsContinue(py, fl, row, i, rest);
      ReadPrintedCell(py, fl, row[i], i, ", " + tail);
      if FieldReadable(row[i], i) {
        ReadPrintedCells(py, fl, row, i + 1, rest);
        ReadOneMoreCell(fl, i, s, CellOf(py, row[i], i), tail, ReadCells(fl, i + 1, tail));
      }
    } else {
      CellsEnd(py, fl, row, i, rest);
      assert TupleOf(py, row)[i + 1..] == [] && ReadableFrom(row, i + 1);
      assert TupleOf(py, row)[i..] == [CellOf(py, row[i], i)];
      ReadPrintedCell(py, fl, row[i], i, ")" + rest);
      if FieldReadable(row[i], i) {
        ReadLastCell(fl, i, s, CellOf(py, row[i], i), rest);
      }
    }
  }

  function TuplesOf(py: Python, rows: seq<Record>): (tuples: seq<Tuple>)
    ensures |tuples| == |rows|
    ensures forall i :: 0 <= i < |rows| ==> tuples[i] == TupleOf(py, rows[i])
  {
    if rows == [] then [] else [TupleOf(py, rows[0])] + TuplesOf(py, rows[1..])
  }

  lemma ReadPrintedTuple(py: Python, fl: Floats, row: Record, rest: string)
    requires ReadsBack(py, fl) && row != []
    ensures var s := PrintTuple(py, fl, row) + rest;
            && "(" <= s
            && ReadCells(fl, 0, s[1..]) == if ReadableFrom(row, 0) then Some((TupleOf(py, row), rest)) else None
  {
    var s := PrintTuple(py, fl, row) + rest;
    assert s[0] == '(';
    assert s[1..] == PrintCells(py, fl, row, 0) + ")" + rest;
    ReadPrintedCells(py, fl, row, 0, rest);
  }

  lemma ReadOneMoreTuple(fl: Floats, s: string, tuple: Tuple, tail: string, more: Read<seq<Tuple>>)
    requires "(" <= s && ReadCells(fl, 0, s[1..]) == Some((tuple, ",\n" + tail))
    requires ReadTuples(fl, tail) == more
    ensures ReadTuples(fl, s) == if more.Some? then Some(([tuple] + more.value.0, more.value.1)) else None
  {
    assert (",\n" + tail)[2..] == tail;
  }

  lemma ReadLastTuple(fl: Floats, s: string, tuple: Tuple, rest: string)
    requires "(" <= s && ReadCells(fl, 0, s[1..]) == Some((tuple, rest))
    requires rest != "" && rest[0] != ','
    ensures ReadTuples(fl, s) == Some(([tuple], rest))
  {
  }

  lemma ReadableRows(rows: seq<Record>)
    requires rows != []
    ensures AllReadable(rows) <==> ReadableFrom(rows[0], 0) && AllReadable(rows[1..])
  {
    assert forall i :: 1 <= i < |rows| ==> rows[i] == rows[1..][i - 1];
  }

  lemma OneTuple(py: Python, fl: Floats, rows: seq<Record>, rest: string)
    requires |rows| == 1 && Rectangular(rows)
    ensures PrintTuples(py, fl, rows) + rest == PrintTuple(py, fl, rows[0]) + rest
    ensures TuplesOf(py, rows) == [TupleOf(py, rows[0])]
  {
  }

  lemma MoreTuples(py: Python, fl: Floats, rows: seq<Record>, rest: string)
    requires |rows| > 1 && Rectangular(rows)
    ensures PrintTuples(py, fl, rows) + rest ==
            PrintTuple(py, fl, rows[0]) + (",\n" + (PrintTuples(py, fl, rows[1..]) + rest))
    ensures TuplesOf(py, rows) == [TupleOf(py, rows[0])] + TuplesOf(py, rows[1..])
  {
  }

  lemma {:induction false} ReadPrintedTuples(py: Python, fl: Floats, rows: seq<Record>, rest: string)
    requires ReadsBack(py, fl) && rows != [] && Rectangular(rows)
    requires rest != "" && rest[0] != ','
    ensures ReadTuples(fl, PrintTuples(py, fl, rows) + rest) ==
            if AllReadable(rows) then Some((TuplesOf(py, rows), rest)) else None
    decreases |rows|
  {
    var s := PrintTuples(py, fl, rows) + rest;
    ReadableRows(rows);
    if |rows| == 1 {
      OneTuple(py, fl, rows, rest);
      ReadPrintedTuple(py, fl, rows[0], rest);
      if ReadableFrom(rows[0], 0) {
        ReadLastTuple(fl, s, TupleOf(py, rows[0]), rest);
      }
    } else {
      var tail := PrintTuples(py, fl, rows[1..]) + rest;
      MoreTuples(py, fl, rows, rest);
      ReadPrintedTuple(py, fl, rows[0], ",\n" + tail);
      if ReadableFrom(rows[0], 0) {
        ReadPrintedTuples(py, fl, rows[1..], rest);
        ReadOneMoreTuple(fl, s, TupleOf(py, rows[0]), tail, ReadTuples(fl, tail));
      }
    }
  }

  lemma Around(head: string, body: string, tail: string, rest: string)
    requires head != ""
    ensures var s := head + body + tail + rest;
            head <= s && s[0] == head[0] && s[|head|..] == body + (tail + rest)
    ensures (tail + rest)[|tail|..] == rest
  {
  }

  lemma ReadPrintedStatement(py: Python, fl: Floats, frame: Frame, rows: seq<Record>, rest: string)
    requires ReadsBack(py, fl) && frame.Usable() && rows != [] && Rectangular(rows)
    ensures var s := PrintStatement(py, fl, frame, rows) + rest;
            && s != frame.end && frame.head <= s
            && ReadTuples(fl, s[|frame.head|..]) ==
               (if AllReadable(rows) then Some((TuplesOf(py, rows), frame.tail + rest)) else None)
            && Expect(frame.tail, frame.tail + rest) == Some(rest)
  {
    Around(frame.head, PrintTuples(py, fl, rows), frame.tail, rest);
    ReadPrintedTuples(py, fl, rows, frame.tail + rest);
  }

  lemma ReadOneMoreStatement(fl: Floats, frame: Frame, s: string, tuples: seq<Tuple>, rest: string,
                             more: Option<seq<seq<Tuple>>>)
    requires s != frame.end && frame.head <= s
    requires ReadTuples(fl, s[|frame.head|..]) == Some((tuples, frame.tail + rest))
    requires Expect(frame.tail, frame.tail + rest) == Some(rest)
    requires ReadStatements(fl, frame, rest) == more
    ensures ReadStatements(fl, frame, s) == if more.Some? then Some([tuples] + more.value) else None
  {
  }

  lemma ReadBadStatement(fl: Floats, frame: Frame, s: string)
    requires s != frame.end && frame.head <= s && ReadTuples(fl, s[|frame.head|..]).None?
    ensures ReadStatements(fl, frame, s).None?
  {
  }

  lemma ReadableBatches(rows: seq<Record>, k: nat)
    requires k <= |rows|
    ensures AllReadable(rows) <==> AllReadable(rows[..k]) && AllReadable(rows[k..])
  {
    assert forall i :: k <= i < |rows| ==> rows[i] == rows[k..][i - k];
    assert forall i :: 0 <= i < k ==> rows[i] == rows[..k][i];
  }

  lemma BatchesOfTuples(py: Python, rows: seq<Record>, k: nat)
    requires rows != [] && k == Min(BATCH, |rows|)
    ensures Batches(TuplesOf(py, rows)) == [TuplesOf(py, rows[..k])] + Batches(TuplesOf(py, rows[k..]))
  {
    assert TuplesOf(py, rows)[..k] == TuplesOf(py, rows[..k]);
    assert TuplesOf(py, rows)[k..] == TuplesOf(py, rows[k..]);
  }

  lemma {:induction false} ReadPrintedStatements(py: Python, fl: Floats, frame: Frame, rows: seq<Record>)
    requires ReadsBack(py, fl) && frame.Usable() && Rectangular(rows)
    ensures ReadStatements(fl, frame, PrintStatements(py, fl, frame, rows) + frame.end) ==
            if AllReadable(rows) then Some(Batches(TuplesOf(py, rows))) else None
    decreases |rows|
  {
    if rows == [] {
      assert PrintStatements(py, fl, frame, rows) + frame.end == frame.end;
    } else {
      var k := Min(BATCH, |rows|);
      var rest := PrintStatements(py, fl, frame, rows[k..]) + frame.end;
      var s := PrintStatement(py, fl, frame, rows[..k]) + rest;
      assert PrintStatements(py, fl, frame, rows) + frame.end == s;
      ReadPrintedStatement(py, fl, frame, rows[..k], rest);
      ReadableBatches(rows, k);
      if AllReadable(rows[..k]) {
        ReadPrintedStatements(py, fl, frame, rows[k..]);
        BatchesOfTuples(py, rows, k);
        ReadOneMoreStatement(fl, frame, s, TuplesOf(py, rows[..k]), rest, ReadStatements(fl, frame, rest));
      } else {
        ReadBadStatement(fl, frame, s);
      }
    }
  }

  /**
   Round trip: a script is read back, with all its rows in order in batches of 1 to 500, if and only if
   no text field holds U+0000.
   */
  lemma ScriptRoundTrip(py: Python, fl: Floats, frame: Frame, rows: seq<Record>)
    requires ReadsBack(py, fl) && frame.Usable() && Rectangular(rows)
    ensures ReadScript(fl, frame, PrintScript(py, fl, frame, rows)) ==
            if AllReadable(rows) then Some(Batches(TuplesOf(py, rows))) else None
  {
    var rest := PrintStatements(py, fl, frame, rows) + frame.end;
    assert PrintScript(py, fl, frame, rows) == frame.begin + rest;
    assert (frame.begin + rest)[|frame.begin|..] == rest;
    ReadPrintedStatements(py, fl, frame, rows);
  }

  /** Validation does not look for U+0000: any valid place stays valid under such a name. */
  lemma ValidationAllowsNul(py: Python, f: Record)
    requires IsPlace(f) && ValidPlace(py, f)
    ensures IsPlace(f[1 := [NUL]]) && ValidPlace(py, f[1 := [NUL]]) && !ReadableFrom(f[1 := [NUL]], 0)
  {
    assert f[1 := [NUL]][1] == [NUL] && [NUL][0] == NUL;
    assert !FieldReadable(f[1 := [NUL]][1], 1);
  }

  function Flatten<T>(batches: seq<seq<T>>): seq<T> {
    if batches == [] then [] else batches[0] + Flatten(batches[1..])
  }

  /** Batching loses, adds and moves nothing. */
  lemma {:induction false} BatchesFlatten<T>(rows: seq<T>)
    ensures Flatten(Batches(rows)) == rows
    decreases |rows|
  {
    if rows != [] {
      var k := Min(BATCH, |rows|);
      BatchesFlatten(rows[k..]);
      assert rows == rows[..k] + rows[k..];
    }
  }

  lemma FirstOfTwo(a: string, b: string)
    requires a != ""
    ensures a + b != "" && (a + b)[0] == a[0]
  {
  }

  lemma HeadStarts(columns: seq<string>)
    ensures Head(columns) != "" && Head(columns)[0] == 'I'
  {
    FirstOfTwo("INSERT INTO ", "public.all_countries" + (" (" + (Join(columns, ", ") + ") VALUES\n")));
  }

  lemma TailStarts(columns: seq<string>)
    requires columns != []
    ensures Tail(columns) != "" && Tail(columns)[0] == '\n'
  {
    FirstOfTwo("\nON CONFLICT (", "geonameid" + (") DO UPDATE SET\n  "
                                                + (Join(Assignments(columns[1..]), ",\n  ") + Condition())));
  }

  lemma FrameIsUsable(columns: seq<string>)
    requires columns != []
    ensures FrameFor(columns).Usable()
  {
    HeadStarts(columns);
    TailStarts(columns);
  }

  lemma MigrationFrameIsUsable()
    ensures MigrationFrame().Usable()
  {
    FrameIsUsable(COLUMNS);
  }

  /** Validated rows have all their numbers: no field that is not empty turns into NULL. */
  lemma ValidatedFieldsAreKept(py: Python, row: Record, i: nat)
    requires ValidPlace(py, row) && i < FIELDS
    ensures CellOf(py, row[i], i) == Null <==> row[i] == ""
    ensures row[i] != "" ==>
              CellOf(py, row[i], i) ==
              if i in {4, 5} then Decimal(py.float_(row[i]).value.value)
              else if i in {0, 14, 15, 16} then Whole(py.int_(row[i]).value)
              else Words(row[i])
  {
  }

  /** No id appears twice anywhere in a migration, ids ascend, and every row has its date. */
  lemma IdsAscend(py: Python, lines: seq<string>, rows: seq<Record>)
    requires Extracted(py, lines, rows) && RejectsEmpty(py)
    ensures Rectangular(rows)
    ensures forall i :: 0 <= i < |rows| ==>
              && TuplesOf(py, rows)[i][0] == Whole(IdOf(py, rows[i]))
              && TuplesOf(py, rows)[i][18] == Words(rows[i][18])
    ensures forall i, j :: 0 <= i < j < |rows| ==> IdOf(py, rows[i]) < IdOf(py, rows[j])
  {
    forall i | 0 <= i < |rows|
      ensures TuplesOf(py, rows)[i][0] == Whole(IdOf(py, rows[i])) && TuplesOf(py, rows)[i][18] == Words(rows[i][18])
    {
      assert ValidPlace(py, rows[i]);
      assert TupleOf(py, rows[i])[0] == CellOf(py, rows[i][0], 0);
      assert TupleOf(py, rows[i])[18] == CellOf(py, rows[i][18], 18);
    }
  }
}
