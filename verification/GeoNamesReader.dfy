/**
 Reading a GeoNames country extract: validation, deduplication and ordering by id. Python's number
 and date parsing is left open.
 */
module GeoNamesReader {
  import opened Wrappers
  import opened Text
  import opened PlaceCodes

  /** A parsed float; nan and the infinities are not finite. */
  datatype Float = Finite(value: real) | NotFinite

  /** int(), float() and date.fromisoformat(); None is a ValueError. */
  datatype Python = Python(int_: string -> Option<int>, float_: string -> Option<Float>, date: string -> Option<int>)

  /** None of the three reads an empty string. */
  predicate RejectsEmpty(py: Python) {
    py.int_("").None? && py.float_("").None? && py.date("").None?
  }

  const FIELDS := 19

  /** The fields of one line. */
  type Record = seq<string>

  datatype ReadError = BadLine(number: nat) | NoPlaces

  /** rstrip('\r\n') */
  function Chomp(s: string): string {
    if s != "" && (s[|s| - 1] == '\r' || s[|s| - 1] == '\n') then Chomp(s[..|s| - 1]) else s
  }

  function FieldsOf(line: string): Record {
    Split(Chomp(line), '\t')
  }

  ghost predicate LineEnd(s: string) {
    forall c :: c in s ==> c == '\r' || c == '\n'
  }

  lemma {:induction false} ChompIsCore(s: string) returns (end: string)
    ensures s == Chomp(s) + end && LineEnd(end) && (Chomp(s) == "" || !LineEnd([Chomp(s)[|Chomp(s)| - 1]]))
    decreases |s|
  {
    if s != "" && (s[|s| - 1] == '\r' || s[|s| - 1] == '\n') {
      var rest := ChompIsCore(s[..|s| - 1]);
      end := rest + [s[|s| - 1]];
      assert s == s[..|s| - 1] + [s[|s| - 1]];
    } else {
      end := "";
      if s != "" {
        assert s[|s| - 1] in [s[|s| - 1]];
      }
    }
  }

  /** The fields are what tabs separate in the line, without the characters that end it. */
  lemma FieldsAreBetweenTabs(line: string) returns (end: string)
    ensures var core := Join(FieldsOf(line), ['\t']);
            line == core + end && LineEnd(end) && (core == "" || !LineEnd([core[|core| - 1]]))
    ensures forall i :: 0 <= i < |FieldsOf(line)| ==> '\t' !in FieldsOf(line)[i]
  {
    end := ChompIsCore(line);
    JoinSplit(Chomp(line), '\t');
    PiecesHaveNoSeparator(Chomp(line), '\t');
  }

  /** The line belongs to the extract at all. */
  predicate WellFormed(country: string, f: Record) {
    |f| == FIELDS && f[8] == country
  }

  predicate IsPlace(f: Record) {
    |f| == FIELDS && f[6] == "P" && f[7] in PLACE_CODES
  }

  predicate InRange(x: Option<Float>, limit: real) {
    x.Some? && x.value.Finite? && -limit <= x.value.value <= limit
  }

  predicate OptionalInt(py: Python, s: string) {
    s == "" || py.int_(s).Some?
  }

  /** What a populated place must satisfy, apart from having an id of its own. */
  predicate ValidPlace(py: Python, f: Record) {
    && |f| == FIELDS
    && py.int_(f[0]).Some? && py.int_(f[0]).value > 0
    && InRange(py.float_(f[4]), 90.0) && InRange(py.float_(f[5]), 180.0)
    && f[1] != "" && f[17] != ""
    && OptionalInt(py, f[14]) && OptionalInt(py, f[15]) && OptionalInt(py, f[16])
    && (f[14] != "" ==> py.int_(f[14]).value >= 0)
    && py.date(f[18]).Some?
  }

  function IdOf(py: Python, f: Record): int {
    if |f| == FIELDS && py.int_(f[0]).Some? then py.int_(f[0]).value else 0
  }

  /** The line with index `n` can be accepted after the ones before it. */
  ghost predicate Acceptable(py: Python, country: string, lines: seq<string>, n: nat)
    requires n < |lines|
  {
    var f := FieldsOf(lines[n]);
    && WellFormed(country, f)
    && (IsPlace(f) ==>
          && ValidPlace(py, f)
          && forall m :: 0 <= m < n && IsPlace(FieldsOf(lines[m])) ==> IdOf(py, FieldsOf(lines[m])) != IdOf(py, f))
  }

  ghost predicate AllAcceptable(py: Python, country: string, lines: seq<string>, n: nat)
    requires n <= |lines|
  {
    forall m :: 0 <= m < n ==> Acceptable(py, country, lines, m)
  }

  /** The rows to import: the populated places of the extract, by ascending id. */
  ghost predicate Extracted(py: Python, lines: seq<string>, rows: seq<Record>) {
    && (forall i, j :: 0 <= i < j < |rows| ==> IdOf(py, rows[i]) < IdOf(py, rows[j]))
    && (forall f :: f in rows <==> exists n :: 0 <= n < |lines| && FieldsOf(lines[n]) == f && IsPlace(f))
    && (forall i :: 0 <= i < |rows| ==> ValidPlace(py, rows[i]))
  }

  /** One line of the validation, in the order of the checks; the id of a place to keep. */
  method CheckLine(py: Python, country: string, f: Record, rows: map<int, Record>)
    returns (verdict: Result<Option<int>, ()>)
    ensures verdict.Ok? <==>
            WellFormed(country, f) && (IsPlace(f) ==> ValidPlace(py, f) && IdOf(py, f) !in rows)
    ensures verdict.Ok? ==> verdict.value == if IsPlace(f) then Some(IdOf(py, f)) else None
    ensures verdict.Ok? <==>
            && |f| == 19 && f[8] == country
            && (f[6] == "P" && f[7] in PLACE_CODES ==>
                  && py.int_(f[0]).Some? && py.int_(f[0]).value > 0 && py.int_(f[0]).value !in rows
                  && py.float_(f[4]).Some? && py.float_(f[4]).value.Finite?
                  && -90.0 <= py.float_(f[4]).value.value <= 90.0
                  && py.float_(f[5]).Some? && py.float_(f[5]).value.Finite?
                  && -180.0 <= py.float_(f[5]).value.value <= 180.0
                  && f[1] != "" && f[17] != ""
                  && (f[14] != "" ==> py.int_(f[14]).Some? && py.int_(f[14]).value >= 0)
                  && (f[15] != "" ==> py.int_(f[15]).Some?) && (f[16] != "" ==> py.int_(f[16]).Some?)
                  && py.date(f[18]).Some?)
  {
    if |f| != FIELDS {
      return Err(());
    }
    if f[8] != country {
      return Err(());
    }
    if f[6] != "P" || f[7] !in PLACE_CODES {
      return Ok(None);
    }
    var id := py.int_(f[0]);
    if id.None? || id.value <= 0 || id.value in rows {
      return Err(());
    }
    var lat, lon := py.float_(f[4]), py.float_(f[5]);
    if lat.None? || lon.None? || lat.value.NotFinite? || lon.value.NotFinite? {
      return Err(());
    }
    if !(-90.0 <= lat.value.value <= 90.0 && -180.0 <= lon.value.value <= 180.0) {
      return Err(());
    }
    if f[1] == "" || f[17] == "" {
      return Err(());
    }
    if !OptionalInt(py, f[14]) || !OptionalInt(py, f[15]) || !OptionalInt(py, f[16]) {
      return Err(());
    }
    if f[14] != "" && py.int_(f[14]).value < 0 {
      return Err(());
    }
    if py.date(f[18]).None? {
      return Err(());
    }
    return Ok(id);
  }

  /** The dictionary after `n` lines. */
  ghost predicate Collected(py: Python, lines: seq<string>, n: nat, rows: map<int, Record>)
    requires n <= |lines|
  {
    && (forall id :: id in rows ==> IdOf(py, rows[id]) == id && ValidPlace(py, rows[id]) && IsPlace(rows[id]))
    && (forall id :: id in rows ==> exists m :: 0 <= m < n && FieldsOf(lines[m]) == rows[id])
    && (forall m :: 0 <= m < n && IsPlace(FieldsOf(lines[m])) ==>
          IdOf(py, FieldsOf(lines[m])) in rows && rows[IdOf(py, FieldsOf(lines[m]))] == FieldsOf(lines[m]))
  }

  /**
   Either every line is acceptable and the result is exactly the places of the extract by ascending id,
   or the first unacceptable line is reported, or there is no place at all.
   */
  method ReadPlaces(py: Python, country: string, lines: seq<string>) returns (r: Result<seq<Record>, ReadError>)
    ensures r.Ok? ==> AllAcceptable(py, country, lines, |lines|) && Extracted(py, lines, r.value) && r.value != []
    ensures r.Err? && r.error.BadLine? ==>
              && 1 <= r.error.number <= |lines|
              && AllAcceptable(py, country, lines, r.error.number - 1)
              && !Acceptable(py, country, lines, r.error.number - 1)
    ensures r.Err? && r.error.NoPlaces? ==>
              && AllAcceptable(py, country, lines, |lines|)
              && forall n :: 0 <= n < |lines| ==> !IsPlace(FieldsOf(lines[n]))
  {
    var rows: map<int, Record> := map[];
    CollectedAtStart(py, lines);
    for n := 0 to |lines|
      invariant AllAcceptable(py, country, lines, n)
      invariant Collected(py, lines, n, rows)
    {
      var fields := FieldsOf(lines[n]);
      var verdict := CheckLine(py, country, fields, rows);
      LineDecided(py, country, lines, n, rows);
      if verdict.Err? {
        return Err(BadLine(n + 1));
      }
      CollectOneMore(py, lines, n, rows);
      if verdict.value.Some? {
        rows := rows[verdict.value.value := fields];
      }
    }
    if rows == map[] {
      NothingCollected(py, lines, rows);
      return Err(NoPlaces);
    }
    var result := InOrder(py, lines, rows);
    return Ok(result);
  }

  /** [rows[key] for key in sorted(rows)] */
  method InOrder(py: Python, lines: seq<string>, rows: map<int, Record>) returns (result: seq<Record>)
    requires Collected(py, lines, |lines|, rows) && rows != map[]
    ensures Extracted(py, lines, result) && result != []
  {
    var sorted := Sorted(rows.Keys);
    result := seq(|sorted|, i requires 0 <= i < |sorted| => assert sorted[i] in rows.Keys; rows[sorted[i]]);
    SortedRowsAreExtracted(py, lines, rows, sorted, result);
  }

  lemma CollectedAtStart(py: Python, lines: seq<string>)
    ensures Collected(py, lines, 0, map[])
  {
  }

  lemma NothingCollected(py: Python, lines: seq<string>, rows: map<int, Record>)
    requires Collected(py, lines, |lines|, rows) && rows == map[]
    ensures forall n :: 0 <= n < |lines| ==> !IsPlace(FieldsOf(lines[n]))
  {
  }

  /** Looking the id up in the dictionary is comparing it with all earlier places. */
  lemma LineDecided(py: Python, country: string, lines: seq<string>, n: nat, rows: map<int, Record>)
    requires n < |lines| && Collected(py, lines, n, rows)
    ensures var f := FieldsOf(lines[n]);
            Acceptable(py, country, lines, n) <==>
            WellFormed(country, f) && (IsPlace(f) ==> ValidPlace(py, f) && IdOf(py, f) !in rows)
  {
    CollectedIds(py, lines, n, rows, FieldsOf(lines[n]));
  }

  lemma CollectedIds(py: Python, lines: seq<string>, n: nat, rows: map<int, Record>, f: Record)
    requires n < |lines| && Collected(py, lines, n, rows)
    ensures IdOf(py, f) in rows <==>
            exists m :: 0 <= m < n && IsPlace(FieldsOf(lines[m])) && IdOf(py, FieldsOf(lines[m])) == IdOf(py, f)
  {
    if IdOf(py, f) in rows {
      var m :| 0 <= m < n && FieldsOf(lines[m]) == rows[IdOf(py, f)];
    }
  }

  lemma CollectOneMore(py: Python, lines: seq<string>, n: nat, rows: map<int, Record>)
    requires n < |lines| && Collected(py, lines, n, rows)
    ensures var f := FieldsOf(lines[n]);
            && (IsPlace(f) && ValidPlace(py, f) && IdOf(py, f) !in rows ==>
                  Collected(py, lines, n + 1, rows[IdOf(py, f) := f]))
            && (!IsPlace(f) ==> Collected(py, lines, n + 1, rows))
  {
  }

  // ---- sorted() ------------------------------------------------------------------------------

  function Sorted(keys: set<int>): (s: seq<int>)
    ensures forall k :: k in s <==> k in keys
    ensures forall i, j :: 0 <= i < j < |s| ==> s[i] < s[j]
    decreases |keys|
  {
    if keys == {} then []
    else
      var m := Smallest(keys);
      [m] + Sorted(keys - {m})
  }

  function Smallest(keys: set<int>): (m: int)
    requires keys != {}
    ensures m in keys && forall k :: k in keys ==> m <= k
  {
    SmallestExists(keys);
    var m :| m in keys && forall k :: k in keys ==> m <= k;
    m
  }

  lemma AnyOf<T>(keys: set<T>) returns (k: T)
    requires keys != {}
    ensures k in keys
  {
    k :| k in keys;
  }

  lemma SmallestExists(keys: set<int>)
    requires keys != {}
    ensures exists m :: m in keys && forall k :: k in keys ==> m <= k
    decreases |keys|
  {
    var y := AnyOf(keys);
    var rest := keys - {y};
    if rest == {} {
      assert keys == {y};
    } else {
      SmallestExists(rest);
      var m :| m in rest && forall k :: k in rest ==> m <= k;
      var least := if y < m then y else m;
      assert least in keys && forall k :: k in keys ==> least <= k by {
        assert forall k :: k in keys ==> k == y || k in rest;
      }
    }
  }

  lemma SortedRowsAreExtracted(py: Python, lines: seq<string>, rows: map<int, Record>, sorted: seq<int>,
                               result: seq<Record>)
    requires Collected(py, lines, |lines|, rows)
    requires forall k :: k in sorted <==> k in rows
    requires forall i, j :: 0 <= i < j < |sorted| ==> sorted[i] < sorted[j]
    requires |result| == |sorted| && forall i :: 0 <= i < |sorted| ==> sorted[i] in rows && result[i] == rows[sorted[i]]
    ensures Extracted(py, lines, result)
    ensures rows != map[] ==> result != []
  {
    forall f ensures f in result <==> exists n :: 0 <= n < |lines| && FieldsOf(lines[n]) == f && IsPlace(f) {
      if f in result {
        var i :| 0 <= i < |result| && result[i] == f;
        var m :| 0 <= m < |lines| && FieldsOf(lines[m]) == rows[sorted[i]];
      }
      if n :| 0 <= n < |lines| && FieldsOf(lines[n]) == f && IsPlace(f) {
        var id := IdOf(py, f);
        assert id in sorted;
        var i :| 0 <= i < |sorted| && sorted[i] == id;
        assert result[i] == f;
      }
    }
    if rows != map[] {
      var id := AnyOf(rows.Keys);
      assert id in sorted;
    }
  }
}
