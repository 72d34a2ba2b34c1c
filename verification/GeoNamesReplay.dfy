/**
 Applying the generated migrations, statement by statement, as INSERT ... ON CONFLICT DO UPDATE with
 a condition on modification dates. The directory of migrations is replayed from the start each time.
 */
module GeoNamesReplay {
  import opened Basics
  import opened Wrappers
  import opened GeoNamesReader
  import opened GeoNamesSql
  import opened GeoNamesUpsert
  import opened GeoNamesExecution
  import opened GeoNamesRoundTrip

  /** One statement; it fails on a row it cannot insert, or when it would affect a row for the second time. */
  function RunStatement(server: Server, st: Statement, table: Table, rows: seq<Tuple>, affected: set<int>)
    : Option<Table>
    decreases |rows|
  {
    if rows == [] then Some(table)
    else
      var effect := Execute(server, st, table, rows[0]);
      if effect.Refused? then None
      else
        var id := Key(Placed(st.columns, rows[0])).value;
        if id in affected then None
        else RunStatement(server, st, effect.table, rows[1..], if effect.changed then affected + {id} else affected)
  }

  function RunStatements(server: Server, st: Statement, table: Table, statements: seq<seq<Tuple>>): Option<Table>
    decreases |statements|
  {
    if statements == [] then Some(table)
    else
      var next := RunStatement(server, st, table, statements[0], {});
      if next.None? then None else RunStatements(server, st, next.value, statements[1..])
  }

  /** The table after psql has been over the files, and whether it got through all of them. */
  datatype Applied = Applied(table: Table, ok: bool)

  /**
   Each file is a transaction, in which `run` yields the new table or fails; at the first file that fails,
   the table stays as it was before it and psql stops.
   */
  function Migrate(run: (Table, string) -> Option<Table>, table: Table, scripts: seq<string>): Applied
    decreases |scripts|
  {
    if scripts == [] then Applied(table, true)
    else
      var next := run(table, scripts[0]);
      if next.None? then Applied(table, false) else Migrate(run, next.value, scripts[1..])
  }

  // ---- the same without statements -----------------------------------------------------------

  /** Rows that a refresh can hold. */
  ghost predicate Dated(date: Dates, rows: seq<Tuple>) {
    forall i :: 0 <= i < |rows| ==> Key(rows[i]).Some? && DateOf(date, rows[i]).Some?
  }

  ghost predicate DistinctKeys(rows: seq<Tuple>) {
    forall i, j :: 0 <= i < j < |rows| ==> Key(rows[i]) != Key(rows[j])
  }

  ghost function Merge(date: Dates, table: Table, rows: seq<Tuple>): Table
    requires Dated(date, rows)
    decreases |rows|
  {
    if rows == [] then table else Merge(date, Upsert(date, table, rows[0]), rows[1..])
  }

  lemma {:induction false} MergeAppend(date: Dates, table: Table, a: seq<Tuple>, b: seq<Tuple>)
    requires Dated(date, a) && Dated(date, b)
    ensures Dated(date, a + b) && Merge(date, table, a + b) == Merge(date, Merge(date, table, a), b)
    decreases |a|
  {
    if a == [] {
      assert a + b == b;
    } else {
      assert (a + b)[1..] == a[1..] + b;
      MergeAppend(date, Upsert(date, table, a[0]), a[1..], b);
    }
  }

  ghost predicate Accepted(server: Server, rows: seq<Tuple>) {
    forall i :: 0 <= i < |rows| ==> Insertable(server, rows[i])
  }

  /** One row of the statement that is written. */
  lemma RunOneRow(server: Server, table: Table, rows: seq<Tuple>, affected: set<int>)
    requires rows != []
    ensures var t := rows[0];
            RunStatement(server, Intended(SCHEMA), table, rows, affected) ==
            if !Insertable(server, t) || Key(t).value in affected then None
            else RunStatement(server, Intended(SCHEMA), Upsert(server.date, table, t), rows[1..],
                              if Takes(server.date, table, t) then affected + {Key(t).value} else affected)
  {
    ExecuteUpserts(server, table, rows[0]);
    if Insertable(server, rows[0]) {
      PlacedBySchema(rows[0]);
    }
  }

  lemma {:induction false} StatementMerges(server: Server, table: Table, rows: seq<Tuple>, affected: set<int>)
    requires Accepted(server, rows) && Dated(server.date, rows) && DistinctKeys(rows)
    requires forall i :: 0 <= i < |rows| ==> Key(rows[i]).value !in affected
    ensures RunStatement(server, Intended(SCHEMA), table, rows, affected) == Some(Merge(server.date, table, rows))
    decreases |rows|
  {
    if rows != [] {
      var t := rows[0];
      assert Key(t).value !in affected && Insertable(server, t);
      forall i | 0 <= i < |rows[1..]| ensures Key(rows[1..][i]).value !in affected + {Key(t).value} {
        assert rows[1..][i] == rows[i + 1];
      }
      RunOneRow(server, table, rows, affected);
      StatementMerges(server, Upsert(server.date, table, t), rows[1..],
                      if Takes(server.date, table, t) then affected + {Key(t).value} else affected);
    }
  }

  /** One row that cannot be inserted fails the statement. */
  lemma {:induction false} StatementRefuses(server: Server, table: Table, rows: seq<Tuple>, affected: set<int>)
    requires !Accepted(server, rows)
    ensures RunStatement(server, Intended(SCHEMA), table, rows, affected).None?
    decreases |rows|
  {
    var t := rows[0];
    var i :| 0 <= i < |rows| && !Insertable(server, rows[i]);
    RunOneRow(server, table, rows, affected);
    if Insertable(server, t) && Key(t).value !in affected {
      assert rows[1..][i - 1] == rows[i];
      StatementRefuses(server, Upsert(server.date, table, t), rows[1..],
                       if Takes(server.date, table, t) then affected + {Key(t).value} else affected);
    }
  }

  lemma BatchFirst(rows: seq<Tuple>)
    requires rows != []
    ensures var k := Min(BATCH, |rows|);
            0 < k <= |rows| && Batches(rows) == [rows[..k]] + Batches(rows[k..]) && rows[..k] + rows[k..] == rows
  {
  }

  lemma {:induction false} StatementsMerge(server: Server, table: Table, rows: seq<Tuple>)
    requires Accepted(server, rows) && Dated(server.date, rows) && DistinctKeys(rows)
    ensures RunStatements(server, Intended(SCHEMA), table, Batches(rows)) == Some(Merge(server.date, table, rows))
    decreases |rows|
  {
    if rows != [] {
      BatchFirst(rows);
      var k := Min(BATCH, |rows|);
      StatementMerges(server, table, rows[..k], {});
      var next := Merge(server.date, table, rows[..k]);
      StatementsMerge(server, next, rows[k..]);
      MergeAppend(server.date, table, rows[..k], rows[k..]);
    }
  }

  lemma AcceptedBatches(server: Server, rows: seq<Tuple>, k: nat)
    requires k <= |rows|
    ensures Accepted(server, rows) <==> Accepted(server, rows[..k]) && Accepted(server, rows[k..])
  {
    assert forall i :: k <= i < |rows| ==> rows[i] == rows[k..][i - k];
    assert forall i :: 0 <= i < k ==> rows[i] == rows[..k][i];
  }

  lemma {:induction false} StatementsRefuse(server: Server, table: Table, rows: seq<Tuple>)
    requires !Accepted(server, rows)
    ensures RunStatements(server, Intended(SCHEMA), table, Batches(rows)).None?
    decreases |rows|
  {
    var k := Min(BATCH, |rows|);
    assert Batches(rows) == [rows[..k]] + Batches(rows[k..]);
    AcceptedBatches(server, rows, k);
    var next := RunStatement(server, Intended(SCHEMA), table, rows[..k], {});
    if Accepted(server, rows[..k]) {
      if next.Some? {
        StatementsRefuse(server, next.value, rows[k..]);
      }
    } else {
      StatementRefuses(server, table, rows[..k], {});
    }
  }

  // ---- refreshes -----------------------------------------------------------------------------

  /** Rows that the generator has read from some extract. */
  ghost predicate Refresh(py: Python, rows: seq<Record>) {
    exists lines :: Extracted(py, lines, rows)
  }

  ghost predicate Refreshes(py: Python, extracts: seq<seq<Record>>) {
    forall k :: 0 <= k < |extracts| ==> Refresh(py, extracts[k])
  }

  /** Python, PostgreSQL, the floats they exchange, and the text around the rows. */
  datatype World = World(py: Python, server: Server, fl: Floats, frame: Frame) {
    /** The text around the rows can be told from them, and is read as the generator means it. */
    ghost predicate Sound() {
      RejectsEmpty(py) && ReadsBack(py, fl) && frame.Usable() && ReadFrame(frame) == Some(Intended(SCHEMA))
    }

    /** One file: PostgreSQL reads all of it, and then runs the statements as it has read them. */
    function RunFile(table: Table, script: string): Option<Table> {
      var st, statements := ReadFrame(frame), ReadScript(fl, frame, script);
      if st.None? || statements.None? then None else RunStatements(server, st.value, table, statements.value)
    }
  }

  /** So it is with the text that the generator writes. */
  lemma MigrationIsSound(py: Python, server: Server, fl: Floats)
    requires RejectsEmpty(py) && ReadsBack(py, fl)
    ensures World(py, server, fl, MigrationFrame()).Sound()
  {
    MigrationFrameIsUsable();
    MigrationMeans();
  }

  function Scripts(py: Python, fl: Floats, frame: Frame, extracts: seq<seq<Record>>): (scripts: seq<string>)
    requires forall k, i :: 0 <= k < |extracts| && 0 <= i < |extracts[k]| ==> |extracts[k][i]| == FIELDS
  {
    if extracts == [] then [] else [PrintScript(py, fl, frame, extracts[0])] + Scripts(py, fl, frame, extracts[1..])
  }

  /** The generated files, applied to a table. */
  ghost function Replayed(w: World, table: Table, extracts: seq<seq<Record>>): Applied
    requires Refreshes(w.py, extracts)
  {
    Migrate(w.RunFile, table, Scripts(w.py, w.fl, w.frame, extracts))
  }

  lemma RefreshKeys(py: Python, rows: seq<Record>)
    requires RejectsEmpty(py) && Refresh(py, rows)
    ensures Rectangular(rows)
    ensures forall i :: 0 <= i < |rows| ==>
              Key(TuplesOf(py, rows)[i]) == Some(IdOf(py, rows[i])) && TuplesOf(py, rows)[i][18].Words?
    ensures forall i, j :: 0 <= i < j < |rows| ==> IdOf(py, rows[i]) < IdOf(py, rows[j])
  {
    var lines :| Extracted(py, lines, rows);
    IdsAscend(py, lines, rows);
  }

  /** No row of a refresh lacks its date, so those that can be inserted all have one. */
  lemma RefreshRows(py: Python, server: Server, rows: seq<Record>)
    requires RejectsEmpty(py) && Refresh(py, rows)
    ensures Rectangular(rows) && DistinctKeys(TuplesOf(py, rows))
    ensures Accepted(server, TuplesOf(py, rows)) ==> Dated(server.date, TuplesOf(py, rows))
  {
    RefreshKeys(py, rows);
    forall i | 0 <= i < |rows| && Insertable(server, TuplesOf(py, rows)[i])
      ensures Key(TuplesOf(py, rows)[i]).Some? && DateOf(server.date, TuplesOf(py, rows)[i]).Some?
    {
      assert TuplesOf(py, rows)[i][18].Words?;
    }
  }

  /** All rows of all refreshes, in order. */
  function AllRows(py: Python, extracts: seq<seq<Record>>): seq<Tuple> {
    if extracts == [] then [] else TuplesOf(py, extracts[0]) + AllRows(py, extracts[1..])
  }

  /** PostgreSQL takes the file: every text can be in a string constant, and every row can be inserted. */
  ghost predicate Good(py: Python, server: Server, rows: seq<Record>) {
    AllReadable(rows) && Accepted(server, TuplesOf(py, rows))
  }

  ghost predicate AllGood(py: Python, server: Server, extracts: seq<seq<Record>>) {
    forall k :: 0 <= k < |extracts| ==> Good(py, server, extracts[k])
  }

  lemma {:induction false} AllRowsAreDated(py: Python, server: Server, extracts: seq<seq<Record>>)
    requires RejectsEmpty(py) && Refreshes(py, extracts) && AllGood(py, server, extracts)
    ensures Dated(server.date, AllRows(py, extracts))
  {
    if extracts != [] {
      RefreshRows(py, server, extracts[0]);
      AllRowsAreDated(py, server, extracts[1..]);
    }
  }

  /** The refreshes before the first that PostgreSQL does not take. */
  ghost function GoodPrefix(py: Python, server: Server, extracts: seq<seq<Record>>): seq<seq<Record>> {
    if extracts == [] || !Good(py, server, extracts[0]) then []
    else [extracts[0]] + GoodPrefix(py, server, extracts[1..])
  }

  /** The rows that reach the table. */
  ghost function AppliedRows(py: Python, server: Server, extracts: seq<seq<Record>>): seq<Tuple> {
    AllRows(py, GoodPrefix(py, server, extracts))
  }

  lemma {:induction false} PrefixOf(py: Python, server: Server, extracts: seq<seq<Record>>)
    ensures GoodPrefix(py, server, extracts) <= extracts && AllGood(py, server, GoodPrefix(py, server, extracts))
    ensures AllGood(py, server, extracts) <==> GoodPrefix(py, server, extracts) == extracts
    ensures Refreshes(py, extracts) ==> Refreshes(py, GoodPrefix(py, server, extracts))
    decreases |extracts|
  {
    if extracts != [] {
      PrefixOf(py, server, extracts[1..]);
      assert extracts == [extracts[0]] + extracts[1..];
      assert forall k :: 1 <= k < |extracts| ==> extracts[k] == extracts[1..][k - 1];
    }
  }

  lemma PrefixCons(py: Python, server: Server, first: seq<Record>, later: seq<seq<Record>>)
    ensures GoodPrefix(py, server, [first] + later) ==
            if Good(py, server, first) then [first] + GoodPrefix(py, server, later) else []
    ensures AllGood(py, server, [first] + later) <==> Good(py, server, first) && AllGood(py, server, later)
  {
    assert ([first] + later)[1..] == later;
    GoodStep(py, server, [first] + later);
  }

  lemma Regroup<T>(x: T, a: seq<T>, b: seq<T>)
    ensures [x] + a + b == [x] + (a + b)
  {
  }

  /** Adding refreshes behind an unreadable one changes nothing; otherwise the readable ones are added. */
  lemma {:induction false} PrefixAppend(py: Python, server: Server, earlier: seq<seq<Record>>, added: seq<seq<Record>>)
    ensures GoodPrefix(py, server, earlier + added) ==
            if AllGood(py, server, earlier) then earlier + GoodPrefix(py, server, added)
            else GoodPrefix(py, server, earlier)
    decreases |earlier|
  {
    if earlier == [] {
      assert earlier + added == added && earlier + GoodPrefix(py, server, added) == GoodPrefix(py, server, added);
    } else {
      var first, later := earlier[0], earlier[1..];
      assert earlier == [first] + later;
      PrefixAppend(py, server, later, added);
      PrefixCons(py, server, first, later);
      PrefixCons(py, server, first, later + added);
      Regroup(first, later, added);
      Regroup(first, later, GoodPrefix(py, server, added));
    }
  }

  /** Running the file of these rows upserts them one by one, or fails, whatever the table. */
  ghost predicate RunsAs(w: World, run: (Table, string) -> Option<Table>, rows: seq<Record>) {
    && Rectangular(rows)
    && (Good(w.py, w.server, rows) ==>
          && Dated(w.server.date, TuplesOf(w.py, rows))
          && forall t :: run(t, PrintScript(w.py, w.fl, w.frame, rows)) ==
                         Some(Merge(w.server.date, t, TuplesOf(w.py, rows))))
    && (!Good(w.py, w.server, rows) ==> forall t :: run(t, PrintScript(w.py, w.fl, w.frame, rows)) == None)
  }

  lemma GoodFileRuns(w: World, table: Table, rows: seq<Record>)
    requires w.Sound() && Refresh(w.py, rows) && Good(w.py, w.server, rows)
    ensures Rectangular(rows) && Dated(w.server.date, TuplesOf(w.py, rows))
    ensures w.RunFile(table, PrintScript(w.py, w.fl, w.frame, rows)) ==
            Some(Merge(w.server.date, table, TuplesOf(w.py, rows)))
  {
    RefreshRows(w.py, w.server, rows);
    ScriptRoundTrip(w.py, w.fl, w.frame, rows);
    StatementsMerge(w.server, table, TuplesOf(w.py, rows));
  }

  lemma BadFileFails(w: World, table: Table, rows: seq<Record>)
    requires w.Sound() && Refresh(w.py, rows) && !Good(w.py, w.server, rows)
    ensures Rectangular(rows) && w.RunFile(table, PrintScript(w.py, w.fl, w.frame, rows)) == None
  {
    RefreshRows(w.py, w.server, rows);
    ScriptRoundTrip(w.py, w.fl, w.frame, rows);
    if AllReadable(rows) {
      StatementsRefuse(w.server, table, TuplesOf(w.py, rows));
    }
  }

  /** PostgreSQL takes a generated file exactly if it is good. */
  lemma FileRunsAs(w: World, rows: seq<Record>)
    requires w.Sound() && Refresh(w.py, rows)
    ensures RunsAs(w, w.RunFile, rows)
  {
    RefreshRows(w.py, w.server, rows);
    forall t ensures Good(w.py, w.server, rows) ==>
                       && Dated(w.server.date, TuplesOf(w.py, rows))
                       && w.RunFile(t, PrintScript(w.py, w.fl, w.frame, rows)) ==
                          Some(Merge(w.server.date, t, TuplesOf(w.py, rows)))
             ensures !Good(w.py, w.server, rows) ==> w.RunFile(t, PrintScript(w.py, w.fl, w.frame, rows)) == None
    {
      if Good(w.py, w.server, rows) {
        GoodFileRuns(w, t, rows);
      } else {
        BadFileFails(w, t, rows);
      }
    }
  }

  lemma ScriptsStep(py: Python, fl: Floats, frame: Frame, extracts: seq<seq<Record>>)
    requires Refreshes(py, extracts) && extracts != []
    ensures Refresh(py, extracts[0]) && Refreshes(py, extracts[1..])
    ensures Scripts(py, fl, frame, extracts) != []
    ensures Scripts(py, fl, frame, extracts)[0] == PrintScript(py, fl, frame, extracts[0])
    ensures Scripts(py, fl, frame, extracts)[1..] == Scripts(py, fl, frame, extracts[1..])
  {
  }

  lemma AllRowsStep(py: Python, extract: seq<Record>, later: seq<seq<Record>>)
    ensures AllRows(py, [extract] + later) == TuplesOf(py, extract) + AllRows(py, later)
  {
    assert ([extract] + later)[1..] == later;
  }

  lemma GoodStep(py: Python, server: Server, extracts: seq<seq<Record>>)
    requires extracts != []
    ensures AllGood(py, server, extracts) <==> Good(py, server, extracts[0]) && AllGood(py, server, extracts[1..])
  {
    assert forall k :: 1 <= k < |extracts| ==> extracts[k] == extracts[1..][k - 1];
  }

  lemma MergeFirst(py: Python, server: Server, table: Table, extracts: seq<seq<Record>>)
    requires extracts != [] && Good(py, server, extracts[0])
    requires Dated(server.date, TuplesOf(py, extracts[0]))
    requires Dated(server.date, AppliedRows(py, server, extracts[1..]))
    ensures Dated(server.date, AppliedRows(py, server, extracts))
    ensures Merge(server.date, table, AppliedRows(py, server, extracts)) ==
            Merge(server.date, Merge(server.date, table, TuplesOf(py, extracts[0])),
                  AppliedRows(py, server, extracts[1..]))
  {
    var later := GoodPrefix(py, server, extracts[1..]);
    AllRowsStep(py, extracts[0], later);
    MergeAppend(server.date, table, TuplesOf(py, extracts[0]), AllRows(py, later));
  }

  lemma {:induction false} MigrateMergesAny(w: World, run: (Table, string) -> Option<Table>, table: Table,
                                            extracts: seq<seq<Record>>)
    requires Refreshes(w.py, extracts) && forall k :: 0 <= k < |extracts| ==> RunsAs(w, run, extracts[k])
    ensures Dated(w.server.date, AppliedRows(w.py, w.server, extracts))
    ensures Migrate(run, table, Scripts(w.py, w.fl, w.frame, extracts)) ==
            Applied(Merge(w.server.date, table, AppliedRows(w.py, w.server, extracts)),
                    AllGood(w.py, w.server, extracts))
    decreases |extracts|
  {
    if extracts != [] {
      ScriptsStep(w.py, w.fl, w.frame, extracts);
      GoodStep(w.py, w.server, extracts);
      assert RunsAs(w, run, extracts[0]);
      if Good(w.py, w.server, extracts[0]) {
        var next := Merge(w.server.date, table, TuplesOf(w.py, extracts[0]));
        MigrateMergesAny(w, run, next, extracts[1..]);
        MergeFirst(w.py, w.server, table, extracts);
      }
    }
  }

  /**
   psql gets through the files, with all their statements, exactly when no text in them holds U+0000 and
   PostgreSQL accepts their dates and values, and stops at the first file where that is not so. Up to there
   it does to the table what upserting the rows one by one does.
   */
  lemma MigrateMerges(w: World, table: Table, extracts: seq<seq<Record>>)
    requires w.Sound() && Refreshes(w.py, extracts)
    ensures Dated(w.server.date, AppliedRows(w.py, w.server, extracts))
    ensures Replayed(w, table, extracts) ==
            Applied(Merge(w.server.date, table, AppliedRows(w.py, w.server, extracts)),
                    AllGood(w.py, w.server, extracts))
  {
    forall k | 0 <= k < |extracts| ensures RunsAs(w, w.RunFile, extracts[k]) {
      FileRunsAs(w, extracts[k]);
    }
    MigrateMergesAny(w, w.RunFile, table, extracts);
  }

  // ---- one row -------------------------------------------------------------------------------

  function Lookup(table: Table, id: int): Option<Tuple> {
    if id in table then Some(table[id]) else None
  }

  /** The incoming rows for an id, in order. */
  ghost function Of(rows: seq<Tuple>, id: int): seq<Tuple> {
    if rows == [] then []
    else (if Key(rows[0]) == Some(id) then [rows[0]] else []) + Of(rows[1..], id)
  }

  ghost predicate AllDated(date: Dates, rows: seq<Tuple>) {
    forall i :: 0 <= i < |rows| ==> DateOf(date, rows[i]).Some?
  }

  /** The last of the rows with the latest date. */
  ghost function Winner(date: Dates, rows: seq<Tuple>): Tuple
    requires rows != [] && AllDated(date, rows)
  {
    if |rows| == 1 then rows[0]
    else
      var rest := Winner(date, rows[1..]);
      if Replaces(date, rest, rows[0]) then rest else rows[0]
  }

  /** What the rows for an id make of the row in the table: the winner replaces it, unless it is newer. */
  ghost function Settled(date: Dates, existing: Option<Tuple>, rows: seq<Tuple>): Option<Tuple>
    requires AllDated(date, rows)
  {
    if rows == [] then existing
    else if existing.Some? && !Replaces(date, Winner(date, rows), existing.value) then existing
    else Some(Winner(date, rows))
  }

  /** The winner has the latest date, and comes last among those that have it. */
  lemma {:induction false} WinnerIsLatest(date: Dates, rows: seq<Tuple>) returns (w: nat)
    requires rows != [] && AllDated(date, rows)
    ensures w < |rows| && rows[w] == Winner(date, rows)
    ensures forall i :: 0 <= i < |rows| ==> DateOf(date, rows[i]).value <= DateOf(date, rows[w]).value
    ensures forall i :: w < i < |rows| ==> DateOf(date, rows[i]).value < DateOf(date, rows[w]).value
    decreases |rows|
  {
    if |rows| == 1 {
      w := 0;
    } else {
      var v := WinnerIsLatest(date, rows[1..]);
      assert forall i :: 1 <= i < |rows| ==> rows[i] == rows[1..][i - 1];
      w := if Replaces(date, rows[1 + v], rows[0]) then 1 + v else 0;
    }
  }

  lemma {:induction false} OfIsDated(date: Dates, rows: seq<Tuple>, id: int)
    requires Dated(date, rows)
    ensures AllDated(date, Of(rows, id))
  {
    if rows != [] {
      OfIsDated(date, rows[1..], id);
    }
  }

  /** One more row at the front. */
  lemma SettledStep(date: Dates, existing: Option<Tuple>, t: Tuple, rows: seq<Tuple>)
    requires DateOf(date, t).Some? && AllDated(date, rows)
    ensures AllDated(date, [t] + rows)
    ensures Settled(date, existing, [t] + rows) ==
            Settled(date, if existing.Some? && !Replaces(date, t, existing.value) then existing else Some(t), rows)
  {
    assert ([t] + rows)[1..] == rows;
    if rows != [] {
      var w := WinnerIsLatest(date, rows);
    }
  }

  /** The exact effect on every row. */
  lemma {:induction false} MergeSettles(date: Dates, table: Table, rows: seq<Tuple>, id: int)
    requires Dated(date, rows)
    ensures AllDated(date, Of(rows, id))
    ensures Lookup(Merge(date, table, rows), id) == Settled(date, Lookup(table, id), Of(rows, id))
    decreases |rows|
  {
    OfIsDated(date, rows, id);
    if rows != [] {
      var t, rest := rows[0], rows[1..];
      OfIsDated(date, rest, id);
      MergeSettles(date, Upsert(date, table, t), rest, id);
      if Key(t) == Some(id) {
        SettledStep(date, Lookup(table, id), t, Of(rest, id));
      } else {
        assert Of(rows, id) == Of(rest, id);
      }
    }
  }

  /** A settled row stays settled. */
  lemma SettledIsStable(date: Dates, existing: Option<Tuple>, rows: seq<Tuple>)
    requires AllDated(date, rows)
    ensures Settled(date, Settled(date, existing, rows), rows) == Settled(date, existing, rows)
  {
  }

  lemma SameLookups(a: Table, b: Table)
    requires forall id :: Lookup(a, id) == Lookup(b, id)
    ensures a == b
  {
    forall id ensures id in a <==> id in b {
      assert Lookup(a, id) == Lookup(b, id);
    }
    forall id | id in a ensures a[id] == b[id] {
      assert Lookup(a, id) == Lookup(b, id);
    }
  }

  lemma MergeTwice(date: Dates, table: Table, rows: seq<Tuple>)
    requires Dated(date, rows)
    ensures Merge(date, Merge(date, table, rows), rows) == Merge(date, table, rows)
  {
    var once := Merge(date, table, rows);
    forall id ensures Lookup(Merge(date, once, rows), id) == Lookup(once, id) {
      MergeSettles(date, table, rows, id);
      MergeSettles(date, once, rows, id);
      SettledIsStable(date, Lookup(table, id), Of(rows, id));
    }
    SameLookups(Merge(date, once, rows), once);
  }

  lemma {:induction false} AllRowsAppend(py: Python, a: seq<seq<Record>>, b: seq<seq<Record>>)
    ensures AllRows(py, a + b) == AllRows(py, a) + AllRows(py, b)
    decreases |a|
  {
    if a == [] {
      assert a + b == b;
    } else {
      assert (a + b)[1..] == a[1..] + b;
      AllRowsAppend(py, a[1..], b);
    }
  }

  // ---- main results --------------------------------------------------------------------------

  /** With more refreshes, what reaches the table begins with what reached it before. */
  lemma AppliedRowsGrow(py: Python, server: Server, earlier: seq<seq<Record>>, added: seq<seq<Record>>)
    returns (more: seq<Tuple>)
    requires RejectsEmpty(py) && Refreshes(py, earlier + added)
    ensures AppliedRows(py, server, earlier + added) == AppliedRows(py, server, earlier) + more
    ensures Dated(server.date, AppliedRows(py, server, earlier)) && Dated(server.date, more)
  {
    assert forall k :: 0 <= k < |earlier| ==> earlier[k] == (earlier + added)[k];
    assert forall k :: 0 <= k < |added| ==> added[k] == (earlier + added)[|earlier| + k];
    PrefixOf(py, server, earlier);
    PrefixOf(py, server, added);
    PrefixAppend(py, server, earlier, added);
    AllRowsAreDated(py, server, GoodPrefix(py, server, earlier));
    AllRowsAreDated(py, server, GoodPrefix(py, server, added));
    if AllGood(py, server, earlier) {
      more := AppliedRows(py, server, added);
      AllRowsAppend(py, earlier, GoodPrefix(py, server, added));
    } else {
      more := [];
      assert AppliedRows(py, server, earlier) + [] == AppliedRows(py, server, earlier);
    }
  }

  lemma MergeAgain(date: Dates, table: Table, rows: seq<Tuple>, more: seq<Tuple>)
    requires Dated(date, rows) && Dated(date, more)
    ensures Dated(date, rows + more)
    ensures Merge(date, Merge(date, table, rows), rows + more) == Merge(date, table, rows + more)
  {
    MergeAppend(date, Merge(date, table, rows), rows, more);
    MergeAppend(date, table, rows, more);
    MergeTwice(date, table, rows);
  }

  /**
   Replaying after more refreshes have been added, on a table that already had the earlier ones, is
   the same as a first run: also when nothing has been added, and also when a file fails.
   */
  lemma ReplayIsFirstRun(w: World, table: Table, earlier: seq<seq<Record>>, added: seq<seq<Record>>)
    requires w.Sound() && Refreshes(w.py, earlier) && Refreshes(w.py, earlier + added)
    ensures var once := Replayed(w, table, earlier);
            Replayed(w, once.table, earlier + added) == Replayed(w, table, earlier + added)
  {
    var more := AppliedRowsGrow(w.py, w.server, earlier, added);
    var once := Merge(w.server.date, table, AppliedRows(w.py, w.server, earlier));
    MigrateMerges(w, table, earlier);
    MigrateMerges(w, table, earlier + added);
    MigrateMerges(w, once, earlier + added);
    MergeAgain(w.server.date, table, AppliedRows(w.py, w.server, earlier), more);
  }

  /** Applying the whole list of refreshes twice is applying it once, whatever the table held. */
  lemma ReplayTwiceIsOnce(w: World, table: Table, extracts: seq<seq<Record>>)
    requires w.Sound() && Refreshes(w.py, extracts)
    ensures var once := Replayed(w, table, extracts);
            Replayed(w, once.table, extracts) == once
  {
    assert extracts + [] == extracts;
    ReplayIsFirstRun(w, table, extracts, []);
  }

  /** What a replay makes of each row, in terms of the rows for its id that reach the table. */
  lemma ReplaySettles(w: World, table: Table, extracts: seq<seq<Record>>, id: int)
    requires w.Sound() && Refreshes(w.py, extracts)
    ensures var after := Replayed(w, table, extracts).table;
            var rows := Of(AppliedRows(w.py, w.server, extracts), id);
            AllDated(w.server.date, rows) && Lookup(after, id) == Settled(w.server.date, Lookup(table, id), rows)
  {
    MigrateMerges(w, table, extracts);
    MergeSettles(w.server.date, table, AppliedRows(w.py, w.server, extracts), id);
  }

  /**
   A row stays if nothing is there for its id, or if it has a date and that is after all those of the rows
   for its id; otherwise the last of those with the latest date is there in its place.
   */
  ghost predicate LatestStands(date: Dates, before: Option<Tuple>, rows: seq<Tuple>, after: Option<Tuple>, n: nat)
    requires AllDated(date, rows)
  {
    if rows == [] || (before.Some? && DateOf(date, before.value).Some?
                      && forall i :: 0 <= i < |rows| ==> DateOf(date, rows[i]).value < DateOf(date, before.value).value)
    then after == before
    else && n < |rows| && after == Some(rows[n])
         && (forall i :: 0 <= i < |rows| ==> DateOf(date, rows[i]).value <= DateOf(date, rows[n]).value)
         && (forall i :: n < i < |rows| ==> DateOf(date, rows[i]).value < DateOf(date, rows[n]).value)
  }

  lemma LatestSettles(date: Dates, before: Option<Tuple>, rows: seq<Tuple>) returns (n: nat)
    requires AllDated(date, rows)
    ensures LatestStands(date, before, rows, Settled(date, before, rows), n)
  {
    n := 0;
    if rows != [] {
      n := WinnerIsLatest(date, rows);
    }
  }

  lemma LatestRowStands(w: World, table: Table, extracts: seq<seq<Record>>, id: int) returns (n: nat)
    requires w.Sound() && Refreshes(w.py, extracts)
    ensures var rows := Of(AppliedRows(w.py, w.server, extracts), id);
            && AllDated(w.server.date, rows)
            && LatestStands(w.server.date, Lookup(table, id), rows, Lookup(Replayed(w, table, extracts).table, id), n)
  {
    ReplaySettles(w, table, extracts, id);
    n := LatestSettles(w.server.date, Lookup(table, id), Of(AppliedRows(w.py, w.server, extracts), id));
  }

  /** No row is lost and no row's modification date ever decreases. */
  lemma DatesNeverGoBack(w: World, table: Table, extracts: seq<seq<Record>>, id: int)
    requires w.Sound() && Refreshes(w.py, extracts)
    requires id in table
    ensures var after := Replayed(w, table, extracts).table;
            && id in after
            && (DateOf(w.server.date, table[id]).Some? ==>
                  && DateOf(w.server.date, after[id]).Some?
                  && DateOf(w.server.date, after[id]).value >= DateOf(w.server.date, table[id]).value)
  {
    var n := LatestRowStands(w, table, extracts, id);
  }

  /** The id occurs in the extract. */
  ghost predicate Mentions(py: Python, rows: seq<Record>, id: int) {
    exists i :: 0 <= i < |rows| && IdOf(py, rows[i]) == id
  }

  lemma {:induction false} OfMentions(rows: seq<Tuple>, id: int)
    ensures Of(rows, id) == [] <==> forall i :: 0 <= i < |rows| ==> Key(rows[i]) != Some(id)
    decreases |rows|
  {
    if rows != [] {
      OfMentions(rows[1..], id);
      assert forall i :: 1 <= i < |rows| ==> rows[i] == rows[1..][i - 1];
    }
  }

  lemma {:induction false} OfAppend(a: seq<Tuple>, b: seq<Tuple>, id: int)
    ensures Of(a + b, id) == Of(a, id) + Of(b, id)
    decreases |a|
  {
    if a == [] {
      assert a + b == b;
    } else {
      OfAppend(a[1..], b, id);
      OfCons(a[0], a[1..], id);
      OfCons(a[0], a[1..] + b, id);
      assert [a[0]] + a[1..] == a && [a[0]] + (a[1..] + b) == a + b;
    }
  }

  lemma OfCons(t: Tuple, rows: seq<Tuple>, id: int)
    ensures Of([t] + rows, id) == (if Key(t) == Some(id) then [t] else []) + Of(rows, id)
  {
    assert ([t] + rows)[1..] == rows;
  }

  lemma {:induction false} UnmentionedHasNoRows(py: Python, extracts: seq<seq<Record>>, id: int)
    requires RejectsEmpty(py) && Refreshes(py, extracts)
    requires forall k :: 0 <= k < |extracts| ==> !Mentions(py, extracts[k], id)
    ensures Of(AllRows(py, extracts), id) == []
    decreases |extracts|
  {
    if extracts != [] {
      var rows := TuplesOf(py, extracts[0]);
      RefreshKeys(py, extracts[0]);
      OfMentions(rows, id);
      OfAppend(rows, AllRows(py, extracts[1..]), id);
      UnmentionedHasNoRows(py, extracts[1..], id);
    }
  }

  /** Ids absent from every extract are untouched. */
  lemma AbsentIdsAreUntouched(w: World, table: Table, extracts: seq<seq<Record>>, id: int)
    requires w.Sound() && Refreshes(w.py, extracts)
    requires forall k :: 0 <= k < |extracts| ==> !Mentions(w.py, extracts[k], id)
    ensures Lookup(Replayed(w, table, extracts).table, id) == Lookup(table, id)
  {
    ReplaySettles(w, table, extracts, id);
    PrefixOf(w.py, w.server, extracts);
    UnmentionedHasNoRows(w.py, GoodPrefix(w.py, w.server, extracts), id);
  }
}
