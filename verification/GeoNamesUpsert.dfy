/**
 What the text around the rows makes PostgreSQL do: a reader of INSERT ... ON CONFLICT DO UPDATE, and
 the meaning of what it reads. The text that the generator writes puts every field into its column,
 and overwrites a row unless that one is newer.
 */
module GeoNamesUpsert {
  import opened Wrappers
  import opened Text
  import opened GeoNamesReader
  import opened GeoNamesSql

  // ---- the language --------------------------------------------------------------------------

  datatype Operand = Stored(column: string) | Incoming(column: string)

  datatype Test = IsNull(operand: Operand) | Compare(left: Operand, op: string, right: Operand)

  /** A condition is a list of alternatives. */
  datatype Statement = Statement(table: string, columns: seq<string>, key: string,
                                 sets: seq<(string, string)>, anyOf: seq<Test>)

  predicate IsNameChar(c: char) {
    'a' <= c <= 'z' || 'A' <= c <= 'Z' || '0' <= c <= '9' || c == '_' || c == '.'
  }

  predicate IsOpChar(c: char) {
    c == '<' || c == '=' || c == '>'
  }

  /** The longest beginning whose characters are of one kind. */
  function Span(kind: char -> bool, s: string): (r: (string, string))
    ensures r.0 + r.1 == s
  {
    if s == "" || !kind(s[0]) then ("", s)
    else var rest := Span(kind, s[1..]); ([s[0]] + rest.0, rest.1)
  }

  function ReadName(s: string): (r: Read<string>)
    ensures r.Some? ==> |r.value.1| < |s|
  {
    var (name, rest) := Span(IsNameChar, s);
    if name == "" then None else Some((name, rest))
  }

  /** What comes after a fixed text. */
  function After<T>(prefix: string, s: string, read: string -> Read<T>): Read<T> {
    if prefix <= s then read(s[|prefix|..]) else None
  }

  /** Names with commas between them. */
  function ReadNames(s: string): (r: Read<seq<string>>)
    ensures r.Some? ==> |r.value.1| < |s|
    decreases |s|
  {
    var first := ReadName(s);
    if first.None? then None
    else if ", " <= first.value.1 then
      var more := ReadNames(first.value.1[2..]);
      if more.Some? then Some(([first.value.0] + more.value.0, more.value.1)) else None
    else Some(([first.value.0], first.value.1))
  }

  /** column = EXCLUDED.column */
  function ReadSet(s: string): (r: Read<(string, string)>)
    ensures r.Some? ==> |r.value.1| < |s|
  {
    var target := ReadName(s);
    if target.None? || !(" = EXCLUDED." <= target.value.1) then None
    else
      var source := ReadName(target.value.1[12..]);
      if source.None? then None else Some(((target.value.0, source.value.0), source.value.1))
  }

  function ReadSets(s: string): (r: Read<seq<(string, string)>>)
    ensures r.Some? ==> |r.value.1| < |s|
    decreases |s|
  {
    var first := ReadSet(s);
    if first.None? then None
    else if ",\n  " <= first.value.1 then
      var more := ReadSets(first.value.1[4..]);
      if more.Some? then Some(([first.value.0] + more.value.0, more.value.1)) else None
    else Some(([first.value.0], first.value.1))
  }

  const STORED := "all_countries."
  const INCOMING := "EXCLUDED."

  /** A qualified column, of the stored or of the incoming row. */
  function ReadOperand(s: string): (r: Read<Operand>)
    ensures r.Some? ==> |r.value.1| < |s|
  {
    var name := ReadName(s);
    if name.None? then None
    else if STORED <= name.value.0 then Some((Stored(name.value.0[|STORED|..]), name.value.1))
    else if INCOMING <= name.value.0 then Some((Incoming(name.value.0[|INCOMING|..]), name.value.1))
    else None
  }

  function ReadTest(s: string): (r: Read<Test>)
    ensures r.Some? ==> |r.value.1| < |s|
  {
    var left := ReadOperand(s);
    if left.None? then None
    else if " IS NULL" <= left.value.1 then Some((IsNull(left.value.0), left.value.1[8..]))
    else if !(" " <= left.value.1) then None
    else
      var (op, rest) := Span(IsOpChar, left.value.1[1..]);
      if op == "" || !(" " <= rest) then None
      else
        var right := ReadOperand(rest[1..]);
        if right.None? then None else Some((Compare(left.value.0, op, right.value.0), right.value.1))
  }

  function ReadTests(s: string): (r: Read<seq<Test>>)
    ensures r.Some? ==> |r.value.1| < |s|
    decreases |s|
  {
    var first := ReadTest(s);
    if first.None? then None
    else if "\n   OR " <= first.value.1 then
      var more := ReadTests(first.value.1[7..]);
      if more.Some? then Some(([first.value.0] + more.value.0, more.value.1)) else None
    else Some(([first.value.0], first.value.1))
  }

  /** Table and columns, up to the rows. */
  function ReadHead(s: string): Option<(string, seq<string>)> {
    var table := After("INSERT INTO ", s, ReadName);
    if table.None? then None
    else
      var columns := After(" (", table.value.1, ReadNames);
      if columns.None? || columns.value.1 != ") VALUES\n" then None
      else Some((table.value.0, columns.value.0))
  }

  /** Key, assignments and condition, after the rows. */
  function ReadTail(s: string): Option<(string, seq<(string, string)>, seq<Test>)> {
    var key := After("\nON CONFLICT (", s, ReadName);
    if key.None? then None
    else
      var sets := After(") DO UPDATE SET\n  ", key.value.1, ReadSets);
      if sets.None? then None
      else
        var tests := After("\nWHERE ", sets.value.1, ReadTests);
        if tests.None? || tests.value.1 != ";\n" then None
        else Some((key.value.0, sets.value.0, tests.value.0))
  }

  /** The statement between BEGIN and COMMIT. */
  function ReadFrame(frame: Frame): Option<Statement> {
    var head, tail := ReadHead(frame.head), ReadTail(frame.tail);
    if frame.begin != "BEGIN;\n" || frame.end != "ANALYZE public.all_countries;\nCOMMIT;\n" then None
    else if head.None? || tail.None? then None
    else Some(Statement(head.value.0, head.value.1, tail.value.0, tail.value.1, tail.value.2))
  }

  // ---- what the generator should say ---------------------------------------------------------

  /** The columns of the table, in the order of the fields of a GeoNames line. */
  const SCHEMA: seq<string> :=
    ["geonameid", "name", "asciiname", "alternatenames"]
    + ["latitude", "longitude", "feature_class", "feature_code"]
    + ["country_code", "cc2", "admin1_code", "admin2_code"]
    + ["admin3_code", "admin4_code", "population", "elevation"]
    + ["dem", "timezone", "modification_date"]

  function Pairs(columns: seq<string>): seq<(string, string)> {
    if columns == [] then [] else [(columns[0], columns[0])] + Pairs(columns[1..])
  }

  /** Field by field, all columns but the key, if the stored date is NULL or not after the incoming one. */
  function Intended(columns: seq<string>): Statement
    requires columns != []
  {
    Statement("public.all_countries", columns, "geonameid", Pairs(columns[1..]), GuardTests("modification_date"))
  }

  // ---- reading what is written ---------------------------------------------------------------

  ghost predicate All(kind: char -> bool, s: string) {
    forall c :: c in s ==> kind(c)
  }

  ghost predicate IsName(s: string) {
    s != "" && All(IsNameChar, s)
  }

  /** The text does not go on with this kind of character. */
  predicate Stops(kind: char -> bool, rest: string) {
    rest == "" || !kind(rest[0])
  }

  lemma OneMore(kind: char -> bool, c: char, s: string)
    requires kind(c)
    ensures Span(kind, [c] + s) == ([c] + Span(kind, s).0, Span(kind, s).1)
  {
    assert ([c] + s)[1..] == s;
  }

  lemma {:induction false} SpanOf(kind: char -> bool, word: string, rest: string)
    requires All(kind, word) && Stops(kind, rest)
    ensures Span(kind, word + rest) == (word, rest)
    decreases |word|
  {
    if word == "" {
      assert word + rest == rest;
    } else {
      var c, tail := word[0], word[1..];
      assert word == [c] + tail;
      SpanOf(kind, tail, rest);
      assert word + rest == [c] + (tail + rest);
      OneMore(kind, c, tail + rest);
    }
  }

  lemma NameOf(name: string, rest: string)
    requires IsName(name) && Stops(IsNameChar, rest)
    ensures ReadName(name + rest) == Some((name, rest))
  {
    SpanOf(IsNameChar, name, rest);
  }

  lemma AfterPrefix<T>(prefix: string, s: string, read: string -> Read<T>)
    ensures After(prefix, prefix + s, read) == read(s)
  {
    assert (prefix + s)[|prefix|..] == s;
  }

  ghost predicate Names(columns: seq<string>) {
    forall i :: 0 <= i < |columns| ==> IsName(columns[i])
  }

  lemma CommaNext(tail: string)
    ensures Stops(IsNameChar, ", " + tail) && ", " <= ", " + tail && (", " + tail)[2..] == tail
  {
  }

  lemma ReadOneMoreName(s: string, first: string, tail: string, more: Read<seq<string>>)
    requires ReadName(s) == Some((first, ", " + tail)) && ReadNames(tail) == more
    ensures ReadNames(s) == if more.Some? then Some(([first] + more.value.0, more.value.1)) else None
  {
    CommaNext(tail);
  }

  lemma OneName(column: string, rest: string)
    requires IsName(column) && Stops(IsNameChar, rest) && !(", " <= rest)
    ensures ReadNames(column + rest) == Some(([column], rest))
  {
    NameOf(column, rest);
  }

  lemma MoreNames(first: string, later: seq<string>, tail: string, rest: string)
    requires IsName(first) && ReadNames(tail) == Some((later, rest))
    ensures ReadNames(first + (", " + tail)) == Some(([first] + later, rest))
  {
    CommaNext(tail);
    NameOf(first, ", " + tail);
    ReadOneMoreName(first + (", " + tail), first, tail, Some((later, rest)));
  }

  lemma {:induction false} NamesOf(columns: seq<string>, rest: string)
    requires Names(columns) && columns != [] && Stops(IsNameChar, rest) && !(", " <= rest)
    ensures ReadNames(Join(columns, ", ") + rest) == Some((columns, rest))
    decreases |columns|
  {
    if |columns| == 1 {
      OneName(columns[0], rest);
      assert columns == [columns[0]];
    } else {
      JoinMore(columns, ", ", rest);
      NamesOf(columns[1..], rest);
      MoreNames(columns[0], columns[1..], Join(columns[1..], ", ") + rest, rest);
      assert columns == [columns[0]] + columns[1..];
    }
  }

  lemma SetOf(column: string, rest: string)
    requires IsName(column) && Stops(IsNameChar, rest)
    ensures ReadSet(column + " = EXCLUDED." + column + rest) == Some(((column, column), rest))
  {
    var tail := " = EXCLUDED." + (column + rest);
    assert column + " = EXCLUDED." + column + rest == column + tail;
    assert tail[0] == ' ' && tail[12..] == column + rest && " = EXCLUDED." <= tail;
    NameOf(column, tail);
    NameOf(column, rest);
  }

  lemma SetNext(tail: string)
    ensures Stops(IsNameChar, ",\n  " + tail) && ",\n  " <= ",\n  " + tail && (",\n  " + tail)[4..] == tail
  {
  }

  lemma JoinMore(parts: seq<string>, sep: string, rest: string)
    requires |parts| > 1
    ensures Join(parts, sep) + rest == parts[0] + (sep + (Join(parts[1..], sep) + rest))
  {
  }

  lemma FirstAssignment(columns: seq<string>)
    requires |columns| > 1
    ensures Assignments(columns)[0] == columns[0] + " = EXCLUDED." + columns[0]
    ensures |Assignments(columns)| > 1 && Assignments(columns)[1..] == Assignments(columns[1..])
  {
    assert Assignments(columns[1..]) != [];
  }

  lemma JoinedSets(columns: seq<string>, rest: string)
    requires |columns| > 1
    ensures Join(Assignments(columns), ",\n  ") + rest ==
            columns[0] + " = EXCLUDED." + columns[0] + (",\n  " + (Join(Assignments(columns[1..]), ",\n  ") + rest))
  {
    FirstAssignment(columns);
    JoinMore(Assignments(columns), ",\n  ", rest);
  }

  lemma OneSet(columns: seq<string>)
    requires |columns| == 1
    ensures Join(Assignments(columns), ",\n  ") == columns[0] + " = EXCLUDED." + columns[0]
    ensures Pairs(columns) == [(columns[0], columns[0])]
  {
  }

  lemma ReadOneMoreSet(s: string, first: (string, string), tail: string, more: Read<seq<(string, string)>>)
    requires ReadSet(s) == Some((first, ",\n  " + tail)) && ReadSets(tail) == more
    ensures ReadSets(s) == if more.Some? then Some(([first] + more.value.0, more.value.1)) else None
  {
    SetNext(tail);
  }

  lemma {:induction false} SetsOf(columns: seq<string>, rest: string)
    requires Names(columns) && columns != [] && Stops(IsNameChar, rest) && !(",\n  " <= rest)
    ensures ReadSets(Join(Assignments(columns), ",\n  ") + rest) == Some((Pairs(columns), rest))
    decreases |columns|
  {
    if |columns| == 1 {
      OneSet(columns);
      SetOf(columns[0], rest);
    } else {
      var tail := Join(Assignments(columns[1..]), ",\n  ") + rest;
      JoinedSets(columns, rest);
      SetNext(tail);
      SetOf(columns[0], ",\n  " + tail);
      SetsOf(columns[1..], rest);
      ReadOneMoreSet(Join(Assignments(columns), ",\n  ") + rest, (columns[0], columns[0]), tail,
                     Some((Pairs(columns[1..]), rest)));
    }
  }

  lemma NamesJoin(a: string, b: string)
    requires IsName(a) && IsName(b)
    ensures IsName(a + b)
  {
  }

  lemma StoredOf(column: string, rest: string)
    requires IsName(STORED) && IsName(column) && Stops(IsNameChar, rest)
    ensures ReadOperand(STORED + column + rest) == Some((Stored(column), rest))
  {
    NamesJoin(STORED, column);
    NameOf(STORED + column, rest);
    assert (STORED + column)[|STORED|..] == column;
  }

  lemma IncomingOf(column: string, rest: string)
    requires IsName(INCOMING) && IsName(column) && Stops(IsNameChar, rest)
    ensures ReadOperand(INCOMING + column + rest) == Some((Incoming(column), rest))
  {
    NamesJoin(INCOMING, column);
    NameOf(INCOMING + column, rest);
    assert (INCOMING + column)[|INCOMING|..] == column;
    assert (INCOMING + column)[0] == 'E' && STORED[0] == 'a';
  }

  lemma NullTestOf(column: string, rest: string)
    requires IsName(STORED) && IsName(column)
    ensures ReadTest(STORED + column + (" IS NULL" + rest)) == Some((IsNull(Stored(column)), rest))
  {
    var tail := " IS NULL" + rest;
    assert tail[0] == ' ' && " IS NULL" <= tail && tail[8..] == rest;
    StoredOf(column, tail);
  }

  lemma OpOf(tail: string)
    ensures Span(IsOpChar, ">=" + (" " + tail)) == (">=", " " + tail)
  {
    SpanOf(IsOpChar, ">=", " " + tail);
  }

  lemma ReadCompare(s: string, left: Operand, tail: string, op: string, right: string, last: Operand, rest: string)
    requires ReadOperand(s) == Some((left, " " + tail)) && !(" IS NULL" <= " " + tail)
    requires Span(IsOpChar, tail) == (op, " " + right) && op != ""
    requires ReadOperand(right) == Some((last, rest))
    ensures ReadTest(s) == Some((Compare(left, op, last), rest))
  {
    assert (" " + tail)[1..] == tail && (" " + right)[1..] == right;
  }

  lemma CompareOf(column: string, rest: string)
    requires IsName(STORED) && IsName(INCOMING) && IsName(column) && Stops(IsNameChar, rest)
    ensures ReadTest(INCOMING + column + (" >= " + (STORED + column + rest))) ==
            Some((Compare(Incoming(column), ">=", Stored(column)), rest))
  {
    var right := STORED + column + rest;
    var tail := ">=" + (" " + right);
    assert " >= " + right == " " + tail;
    assert (" " + tail)[0] == ' ' && (" " + tail)[1] == '>';
    IncomingOf(column, " " + tail);
    OpOf(right);
    StoredOf(column, rest);
    ReadCompare(INCOMING + column + (" " + tail), Incoming(column), tail, ">=", right, Stored(column), rest);
  }

  lemma TestsOf(first: string, second: string, a: Test, b: Test)
    requires ReadTest(first + ("\n   OR " + (second + ";\n"))) == Some((a, "\n   OR " + (second + ";\n")))
    requires ReadTest(second + ";\n") == Some((b, ";\n"))
    ensures ReadTests(first + ("\n   OR " + (second + ";\n"))) == Some(([a, b], ";\n"))
  {
    var tail := second + ";\n";
    assert ("\n   OR " + tail)[7..] == tail;
    assert ReadTests(tail) == Some(([b], ";\n"));
    assert [a] + [b] == [a, b];
  }

  function Guard(column: string): string {
    "\nWHERE " + ((STORED + column) + (" IS NULL" + ("\n   OR "
    + ((INCOMING + column) + (" >= " + ((STORED + column) + ";\n"))))))
  }

  function GuardTests(column: string): seq<Test> {
    [IsNull(Stored(column)), Compare(Incoming(column), ">=", Stored(column))]
  }

  lemma RegroupGuard(stored: string, incoming: string, nothing: string, or: string, ge: string, end: string)
    ensures stored + (nothing + (or + (incoming + (ge + (stored + end))))) ==
            (stored + nothing) + (or + ((incoming + (ge + stored)) + end))
    ensures (incoming + (ge + stored)) + end == incoming + (ge + (stored + end))
    ensures (stored + nothing) + (or + ((incoming + (ge + stored)) + end)) ==
            stored + (nothing + (or + ((incoming + (ge + stored)) + end)))
  {
  }

  lemma GuardOf(column: string)
    requires IsName(STORED) && IsName(INCOMING) && IsName(column)
    ensures After("\nWHERE ", Guard(column), ReadTests) == Some((GuardTests(column), ";\n"))
  {
    var stored, incoming := STORED + column, INCOMING + column;
    var first, second := stored + " IS NULL", incoming + (" >= " + stored);
    RegroupGuard(stored, incoming, " IS NULL", "\n   OR ", " >= ", ";\n");
    NullTestOf(column, "\n   OR " + (second + ";\n"));
    CompareOf(column, ";\n");
    TestsOf(first, second, GuardTests(column)[0], GuardTests(column)[1]);
    AfterPrefix("\nWHERE ", first + ("\n   OR " + (second + ";\n")), ReadTests);
  }

  lemma QualifiersAreNames()
    ensures IsName(STORED) && IsName(INCOMING) && IsName("modification_date")
  {
  }

  lemma ConditionOf()
    ensures After("\nWHERE ", Condition(), ReadTests) == Some((GuardTests("modification_date"), ";\n"))
  {
    QualifiersAreNames();
    GuardOf("modification_date");
    assert Condition() == Guard("modification_date");
  }

  lemma HeadOf(columns: seq<string>)
    requires Names(columns) && columns != []
    ensures ReadHead(Head(columns)) == Some(("public.all_countries", columns))
  {
    var names := Join(columns, ", ") + ") VALUES\n";
    AfterPrefix("INSERT INTO ", "public.all_countries" + (" (" + names), ReadName);
    assert Stops(IsNameChar, " (" + names) by { assert (" (" + names)[0] == ' '; }
    assert IsName("public.all_countries");
    NameOf("public.all_countries", " (" + names);
    AfterPrefix(" (", names, ReadNames);
    NamesOf(columns, ") VALUES\n");
  }

  lemma TailOf(columns: seq<string>)
    requires Names(columns) && |columns| > 1
    ensures ReadTail(Tail(columns)) == Some(("geonameid", Pairs(columns[1..]), Intended(columns).anyOf))
  {
    var sets := Join(Assignments(columns[1..]), ",\n  ") + Condition();
    var update := ") DO UPDATE SET\n  " + sets;
    AfterPrefix("\nON CONFLICT (", "geonameid" + update, ReadName);
    assert IsName("geonameid");
    assert Stops(IsNameChar, update) by { assert update[0] == ')'; }
    NameOf("geonameid", update);
    AfterPrefix(") DO UPDATE SET\n  ", sets, ReadSets);
    ConditionStarts();
    SetsOf(columns[1..], Condition());
    ConditionOf();
  }

  lemma ConditionStarts()
    ensures Stops(IsNameChar, Condition()) && !(",\n  " <= Condition())
  {
    assert Condition()[0] == '\n';
  }

  /** What is written around the rows is read as it is intended, for any columns. */
  lemma FrameMeans(columns: seq<string>)
    requires Names(columns) && |columns| > 1
    ensures ReadFrame(FrameFor(columns)) == Some(Intended(columns))
  {
    HeadOf(columns);
    TailOf(columns);
  }

  lemma NameColumnsAreNames()
    ensures Names(NAME_COLUMNS)
  {
    assert IsName("geonameid") && IsName("name") && IsName("asciiname") && IsName("alternatenames");
  }

  lemma PositionColumnsAreNames()
    ensures Names(POSITION_COLUMNS)
  {
    assert IsName("latitude") && IsName("longitude") && IsName("feature_class") && IsName("feature_code");
  }

  lemma CountryColumnsAreNames()
    ensures Names(COUNTRY_COLUMNS)
  {
    assert IsName("country_code") && IsName("cc2") && IsName("admin1_code") && IsName("admin2_code");
  }

  lemma AreaColumnsAreNames()
    ensures Names(AREA_COLUMNS)
  {
    assert IsName("admin3_code") && IsName("admin4_code") && IsName("population") && IsName("elevation");
  }

  lemma LastColumnsAreNames()
    ensures Names(LAST_COLUMNS)
  {
    assert IsName("dem") && IsName("timezone") && IsName("modification_date");
  }

  lemma NamesTogether(a: seq<string>, b: seq<string>)
    requires Names(a) && Names(b)
    ensures Names(a + b)
  {
  }

  lemma ColumnsAreNames()
    ensures Names(COLUMNS)
  {
    NameColumnsAreNames();
    PositionColumnsAreNames();
    CountryColumnsAreNames();
    AreaColumnsAreNames();
    LastColumnsAreNames();
    NamesTogether(NAME_COLUMNS, POSITION_COLUMNS);
    NamesTogether(NAME_COLUMNS + POSITION_COLUMNS, COUNTRY_COLUMNS);
    NamesTogether(NAME_COLUMNS + POSITION_COLUMNS + COUNTRY_COLUMNS, AREA_COLUMNS);
    NamesTogether(NAME_COLUMNS + POSITION_COLUMNS + COUNTRY_COLUMNS + AREA_COLUMNS, LAST_COLUMNS);
  }

  /** In particular the text that the generator writes. */
  lemma MigrationMeans()
    ensures ReadFrame(MigrationFrame()) == Some(Intended(SCHEMA))
  {
    ColumnsAreNames();
    FrameMeans(COLUMNS);
    assert COLUMNS == SCHEMA;
  }
}
