/**
 PostgreSQL's LIKE (section 9.7.1 of the PostgreSQL 16 documentation) with a backslash as escape
 character, ILIKE as LIKE on case-folded text, and the escaper that makes user input literal. What
 the patterns built by the city search accept is a plain substring, or alias, test.
 */
module LikePattern {
  import opened Text

  // ---- the pattern language ------------------------------------------------------------------

  /** `%` stands for any text, `_` for any character, and a backslash takes the next character literally. */
  predicate Like(s: string, p: string)
    decreases |p|, |s|
  {
    if p == "" then s == ""
    else if p[0] == '%' then Like(s, p[1..]) || (s != "" && Like(s[1..], p))
    else if s == "" then false
    else if p[0] == '_' then Like(s[1..], p[1..])
    else if p[0] == '\\' then |p| >= 2 && s[0] == p[1] && Like(s[1..], p[2..])
    else s[0] == p[0] && Like(s[1..], p[1..])
  }

  /** A pattern ending in a lone escape character is an error in PostgreSQL. */
  predicate EndsInEscape(p: string) {
    if p == "" then false
    else if p[0] == '\\' then |p| == 1 || EndsInEscape(p[2..])
    else EndsInEscape(p[1..])
  }

  /** Case folding, character by character; the pattern characters and the comma have no case. */
  type Folding = char -> char

  predicate IsSpecial(c: char) {
    c == '\\' || c == '%' || c == '_' || c == ','
  }

  ghost predicate Sane(fold: Folding) {
    && (forall c :: IsSpecial(c) ==> fold(c) == c)
    && (forall c :: IsSpecial(fold(c)) ==> fold(c) == c)
  }

  function Fold(fold: Folding, s: string): (t: string)
    ensures |t| == |s| && forall i :: 0 <= i < |s| ==> t[i] == fold(s[i])
  {
    if s == "" then "" else [fold(s[0])] + Fold(fold, s[1..])
  }

  predicate ILike(fold: Folding, s: string, p: string) {
    Like(Fold(fold, s), Fold(fold, p))
  }

  // ---- the escaper ---------------------------------------------------------------------------

  function EscapeChar(c: char): string {
    if c == '\\' then "\\\\" else if c == '%' then "\\%" else if c == '_' then "\\_" else [c]
  }

  /** The replacements are made in one pass, so nothing is escaped twice. */
  function Escape(q: string): string {
    if q == "" then "" else EscapeChar(q[0]) + Escape(q[1..])
  }

  // ---- what patterns accept ------------------------------------------------------------------

  lemma FoldAppend(fold: Folding, a: string, b: string)
    ensures Fold(fold, a + b) == Fold(fold, a) + Fold(fold, b)
  {
  }

  lemma {:induction false} FoldEscape(fold: Folding, q: string)
    requires Sane(fold)
    ensures Fold(fold, Escape(q)) == Escape(Fold(fold, q))
  {
    if q != "" {
      FoldEscape(fold, q[1..]);
      FoldAppend(fold, EscapeChar(q[0]), Escape(q[1..]));
      assert Fold(fold, EscapeChar(q[0])) == EscapeChar(fold(q[0]));
      assert Fold(fold, q)[1..] == Fold(fold, q[1..]);
    }
  }

  lemma LikeEscapedChar(s: string, c: char, rest: string)
    ensures Like(s, EscapeChar(c) + rest) <==> s != "" && s[0] == c && Like(s[1..], rest)
  {
    var p := EscapeChar(c) + rest;
    if |EscapeChar(c)| == 2 {
      assert p[0] == '\\' && p[1] == c && p[2..] == rest;
    } else {
      assert p[0] == c && p[1..] == rest;
    }
  }

  /** Escaped text matches itself and nothing else. */
  lemma {:induction false} LikeEscaped(s: string, q: string, rest: string)
    ensures Like(s, Escape(q) + rest) <==> q <= s && Like(s[|q|..], rest)
    decreases |q|
  {
    if q == "" {
      assert Escape(q) + rest == rest && s[0..] == s;
    } else {
      assert Escape(q) + rest == EscapeChar(q[0]) + (Escape(q[1..]) + rest);
      LikeEscapedChar(s, q[0], Escape(q[1..]) + rest);
      if s != "" {
        LikeEscaped(s[1..], q[1..], rest);
        PrefixCons(q, s);
      }
    }
  }

  lemma PrefixCons(q: string, s: string)
    requires q != "" && s != ""
    ensures q <= s <==> q[0] == s[0] && q[1..] <= s[1..]
    ensures q <= s ==> s[1..][|q| - 1..] == s[|q|..]
  {
    if q[0] == s[0] && q[1..] <= s[1..] {
      assert forall i :: 0 < i < |q| ==> q[i] == q[1..][i - 1] == s[1..][i - 1] == s[i];
    }
  }

  lemma {:induction false} LikeAnything(s: string)
    ensures Like(s, "%")
  {
    assert "%"[1..] == "";
    if s != "" {
      LikeAnything(s[1..]);
    }
  }

  /** A leading `%` skips any part of the text. */
  lemma {:induction false} LikeSkip(s: string, rest: string)
    ensures Like(s, "%" + rest) <==> exists i :: 0 <= i <= |s| && Like(s[i..], rest)
  {
    var p := "%" + rest;
    assert p[0] == '%' && p[1..] == rest;
    assert s[0..] == s;
    if s != "" {
      LikeSkip(s[1..], rest);
      assert forall i :: 0 <= i <= |s| - 1 ==> s[1..][i..] == s[i + 1..];
      if i :| 0 <= i <= |s| - 1 && Like(s[1..][i..], rest) {
        assert Like(s[i + 1..], rest);
      }
      if i :| 0 < i <= |s| && Like(s[i..], rest) {
        assert Like(s[1..][i - 1..], rest);
      }
    }
  }

  /** `q` occurs somewhere in `s`. */
  ghost predicate Occurs(q: string, s: string) {
    exists i :: 0 <= i <= |s| && q <= s[i..]
  }

  /** The pattern `%q%` with `q` escaped is a substring test, however many special characters `q` has. */
  lemma LikeContains(s: string, q: string)
    ensures Like(s, "%" + Escape(q) + "%") <==> Occurs(q, s)
  {
    assert "%" + Escape(q) + "%" == "%" + (Escape(q) + "%");
    LikeSkip(s, Escape(q) + "%");
    forall i | 0 <= i <= |s| ensures Like(s[i..], Escape(q) + "%") <==> q <= s[i..] {
      LikeEscaped(s[i..], q, "%");
      if q <= s[i..] {
        LikeAnything(s[i..][|q|..]);
      }
    }
  }

  /** The name fallback: a case-insensitive substring test, for every query. */
  lemma NamePatternIsSubstring(fold: Folding, name: string, q: string)
    requires Sane(fold)
    ensures ILike(fold, name, "%" + Escape(q) + "%") <==> Occurs(Fold(fold, q), Fold(fold, name))
  {
    FoldPattern(fold, "%", q, "%");
    LikeContains(Fold(fold, name), Fold(fold, q));
  }

  lemma FoldPattern(fold: Folding, before: string, q: string, after: string)
    requires Sane(fold)
    requires forall i :: 0 <= i < |before| ==> IsSpecial(before[i])
    requires forall i :: 0 <= i < |after| ==> IsSpecial(after[i])
    ensures Fold(fold, before + Escape(q) + after) == before + Escape(Fold(fold, q)) + after
  {
    FoldAppend(fold, before + Escape(q), after);
    FoldAppend(fold, before, Escape(q));
    FoldEscape(fold, q);
    assert Fold(fold, before) == before && Fold(fold, after) == after;
  }

  lemma {:induction false} EscapedNeverEndsInEscape(q: string, rest: string)
    ensures EndsInEscape(Escape(q) + rest) <==> EndsInEscape(rest)
    decreases |q|
  {
    if q == "" {
      assert Escape(q) + rest == rest;
    } else {
      EscapedNeverEndsInEscape(q[1..], rest);
      var tail := Escape(q[1..]) + rest;
      var p := EscapeChar(q[0]) + tail;
      assert Escape(q) + rest == p;
      if |EscapeChar(q[0])| == 2 {
        assert p[0] == '\\' && p[2..] == tail;
      } else {
        assert p[0] != '\\' && p[1..] == tail;
      }
    }
  }

  /** No query makes PostgreSQL reject the patterns built from it. */
  lemma PatternsAreWellFormed(fold: Folding, q: string)
    requires Sane(fold)
    ensures !EndsInEscape(Fold(fold, "%" + Escape(q) + "%"))
    ensures !EndsInEscape(Fold(fold, "%," + Escape(q) + ",%"))
  {
    FoldPattern(fold, "%", q, "%");
    FoldPattern(fold, "%,", q, ",%");
    NamePatternEnds(Fold(fold, q));
    AliasPatternEnds(Fold(fold, q));
  }

  lemma NamePatternEnds(f: string)
    ensures !EndsInEscape("%" + Escape(f) + "%")
  {
    OrdinaryFirst('%', Escape(f) + "%");
    EscapedNeverEndsInEscape(f, "%");
    OrdinaryFirst('%', "");
    assert "%" + Escape(f) + "%" == ['%'] + (Escape(f) + "%") && "%" == ['%'] + "";
  }

  lemma AliasPatternEnds(f: string)
    ensures !EndsInEscape("%," + Escape(f) + ",%")
  {
    var tail := Escape(f) + ",%";
    OrdinaryFirst('%', [','] + tail);
    OrdinaryFirst(',', tail);
    EscapedNeverEndsInEscape(f, ",%");
    OrdinaryFirst(',', "%");
    OrdinaryFirst('%', "");
    assert "%," + Escape(f) + ",%" == ['%'] + ([','] + tail);
    assert ",%" == [','] + "%" && "%" == ['%'] + "";
  }

  lemma OrdinaryFirst(c: char, rest: string)
    requires c != '\\'
    ensures EndsInEscape([c] + rest) <==> EndsInEscape(rest)
  {
    assert ([c] + rest)[1..] == rest;
  }

  // ---- aliases -------------------------------------------------------------------------------

  function Wrap(s: string): string {
    "," + s + ","
  }

  /** `part` is a run of consecutive elements of `whole`. */
  ghost predicate IsRun(part: seq<string>, whole: seq<string>) {
    exists i :: 0 <= i <= |whole| && part <= whole[i..]
  }

  lemma SplitWrap(s: string)
    ensures Split(Wrap(s), ',') == [""] + Split(s, ',') + [""]
  {
    SplitAppend("", ',', s + ",");
    SplitAppend(s, ',', "");
    assert Wrap(s) == "" + [','] + (s + ",") && s + "," == s + [','] + "";
    SplitWhole("", ',');
  }

  /** Where a wrapped text occurs, there is a comma on both sides. */
  lemma Surroundings(q: string, whole: string) returns (u: string, v: string)
    requires Occurs(Wrap(q), whole)
    ensures whole == u + [','] + (q + [','] + v)
  {
    var i :| 0 <= i <= |whole| && Wrap(q) <= whole[i..];
    u, v := whole[..i], whole[i..][|Wrap(q)|..];
    assert whole == u + whole[i..];
    assert whole[i..] == Wrap(q) + v;
    assert Wrap(q) + v == [','] + (q + [','] + v);
  }

  /** A wrapped text inside another wrapped text lies on element boundaries. */
  lemma OccurrenceIsRun(q: string, s: string)
    requires Occurs(Wrap(q), Wrap(s))
    ensures IsRun(Split(q, ','), Split(s, ','))
  {
    var u, v := Surroundings(q, Wrap(s));
    CutTwice(u, q, v);
    SplitWrap(s);
    CancelEnds(Split(u, ','), Split(q, ','), Split(v, ','), Split(s, ','));
  }

  lemma CutTwice(u: string, q: string, v: string)
    ensures Split(u + [','] + (q + [','] + v), ',') == Split(u, ',') + (Split(q, ',') + Split(v, ','))
  {
    SplitAppend(u, ',', q + [','] + v);
    SplitAppend(q, ',', v);
  }

  lemma CancelEnds(u: seq<string>, q: seq<string>, v: seq<string>, s: seq<string>)
    requires |u| >= 1 && |v| >= 1
    requires u + (q + v) == [""] + s + [""]
    ensures IsRun(q, s)
  {
    var whole := u + (q + v);
    var k := |u| - 1;
    assert s == whole[1..|whole| - 1];
    assert s[k..] == q + v[..|v| - 1];
    assert q <= s[k..];
  }

  lemma RunIsOccurrence(q: string, s: string)
    requires IsRun(Split(q, ','), Split(s, ','))
    ensures Occurs(Wrap(q), Wrap(s))
  {
    var qs, all := Split(q, ','), Split(s, ',');
    var i :| 0 <= i <= |all| && qs <= all[i..];
    var x, y := all[..i], all[i + |qs|..];
    assert all == x + qs + y;
    JoinSplit(q, ',');
    JoinSplit(s, ',');
    WrapRun(x, qs, y);
    assert Wrap(s) == Commas(x) + (Wrap(q) + Tail(y));
    assert Wrap(s)[|Commas(x)|..] == Wrap(q) + Tail(y);
    assert Wrap(q) <= Wrap(s)[|Commas(x)|..];
  }

  /** Every element preceded by a comma. */
  function Commas(parts: seq<string>): string {
    if parts == [] then "" else "," + parts[0] + Commas(parts[1..])
  }

  /** What follows the last comma of a run: nothing, or the remaining elements and a closing comma. */
  function Tail(parts: seq<string>): string {
    if parts == [] then "" else parts[0] + Commas(parts[1..]) + ","
  }

  lemma {:induction false} CommasAppend(a: seq<string>, b: seq<string>)
    ensures Commas(a + b) == Commas(a) + Commas(b)
  {
    if a == [] {
      assert a + b == b;
    } else {
      CommasAppend(a[1..], b);
      assert (a + b)[1..] == a[1..] + b;
    }
  }

  lemma {:induction false} CommasIsJoin(parts: seq<string>)
    requires parts != []
    ensures Commas(parts) == "," + Join(parts, ",")
  {
    if |parts| == 1 {
      assert parts[1..] == [];
    } else {
      CommasIsJoin(parts[1..]);
    }
  }

  lemma WrapRun(x: seq<string>, qs: seq<string>, y: seq<string>)
    requires qs != []
    ensures Wrap(Join(x + qs + y, ",")) == Commas(x) + (Wrap(Join(qs, ",")) + Tail(y))
  {
    var all := x + qs + y;
    var cx, cy, jq := Commas(x), Commas(y), Join(qs, ",");
    CommasIsJoin(all);
    CommasIsJoin(qs);
    CommasAppend(x + qs, y);
    CommasAppend(x, qs);
    TailAfterComma(y);
    assert Commas(all) == cx + ("," + jq) + cy;
    Regroup(cx, jq, cy, Tail(y));
  }

  lemma Regroup(cx: string, jq: string, cy: string, tail: string)
    requires cy + "," == "," + tail
    ensures cx + ("," + jq) + cy + "," == cx + (Wrap(jq) + tail)
  {
    assert cx + ("," + jq) + cy + "," == cx + (("," + jq) + (cy + ","));
    assert ("," + jq) + ("," + tail) == Wrap(jq) + tail;
  }

  lemma TailAfterComma(y: seq<string>)
    ensures Commas(y) + "," == "," + Tail(y)
  {
  }

  /** Folding leaves element boundaries where they are. */
  lemma {:induction false} SplitFold(fold: Folding, s: string)
    requires Sane(fold)
    ensures |Split(Fold(fold, s), ',')| == |Split(s, ',')|
    ensures forall i :: 0 <= i < |Split(s, ',')| ==> Split(Fold(fold, s), ',')[i] == Fold(fold, Split(s, ',')[i])
  {
    if s != "" {
      SplitFold(fold, s[1..]);
      var rest := Split(s[1..], ',');
      assert Fold(fold, s)[1..] == Fold(fold, s[1..]);
      assert IsSpecial(',') && (fold(s[0]) == ',' <==> s[0] == ',');
      FoldAppend(fold, [s[0]], rest[0]);
    }
  }

  /**
   The alias test, for every query and every list of alternate names: the comma-wrapped pattern
   matches exactly when the elements of the query are, up to case, consecutive elements of the list.
   */
  lemma AliasPatternIsRun(fold: Folding, names: string, q: string)
    requires Sane(fold)
    ensures ILike(fold, Wrap(names), "%," + Escape(q) + ",%") <==>
            IsRun(Split(Fold(fold, q), ','), Split(Fold(fold, names), ','))
  {
    var f, g := Fold(fold, q), Fold(fold, names);
    FoldPattern(fold, "%,", q, ",%");
    FoldPattern(fold, "", "", "");
    FoldAppend(fold, "," + names, ",");
    FoldAppend(fold, ",", names);
    assert IsSpecial(',') && Fold(fold, ",") == ",";
    assert Fold(fold, Wrap(names)) == Wrap(g);
    EscapeWrap(f);
    LikeContains(Wrap(g), Wrap(f));
    if Occurs(Wrap(f), Wrap(g)) {
      OccurrenceIsRun(f, g);
    }
    if IsRun(Split(f, ','), Split(g, ',')) {
      RunIsOccurrence(f, g);
    }
  }

  lemma EscapeCons(c: char, t: string)
    ensures Escape([c] + t) == EscapeChar(c) + Escape(t)
  {
    assert ([c] + t)[1..] == t;
  }

  lemma {:induction false} EscapeAppend(a: string, b: string)
    ensures Escape(a + b) == Escape(a) + Escape(b)
  {
    if a == "" {
      assert a + b == b;
    } else {
      var c, t := a[0], a[1..];
      calc {
        Escape(a + b);
        { assert a + b == [c] + (t + b); EscapeCons(c, t + b); }
        EscapeChar(c) + Escape(t + b);
        { EscapeAppend(t, b); }
        EscapeChar(c) + (Escape(t) + Escape(b));
        (EscapeChar(c) + Escape(t)) + Escape(b);
        { assert a == [c] + t; EscapeCons(c, t); }
        Escape(a) + Escape(b);
      }
    }
  }

  lemma EscapeWrap(f: string)
    ensures "%" + Escape(Wrap(f)) + "%" == "%," + Escape(f) + ",%"
  {
    EscapeAppend("," + f, ",");
    EscapeAppend(",", f);
    assert Escape(",") == "," by { assert ","[1..] == ""; }
  }

  /** For a query without comma that is one whole element, up to case. */
  lemma AliasIsWholeElement(fold: Folding, names: string, q: string)
    requires Sane(fold) && ',' !in q
    ensures ILike(fold, Wrap(names), "%," + Escape(q) + ",%") <==>
            exists i :: 0 <= i < |Split(names, ',')| && Fold(fold, Split(names, ',')[i]) == Fold(fold, q)
  {
    AliasPatternIsRun(fold, names, q);
    SplitFold(fold, names);
    SplitFold(fold, q);
    SplitWhole(q, ',');
    var one, all := Split(Fold(fold, q), ','), Split(Fold(fold, names), ',');
    assert one == [Fold(fold, q)];
    if i :| 0 <= i < |all| && all[i] == Fold(fold, q) {
      assert one <= all[i..];
    }
    if i :| 0 <= i <= |all| && one <= all[i..] {
      assert all[i] == one[0];
    }
  }
}
