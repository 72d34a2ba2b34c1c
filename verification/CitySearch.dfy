/**
 The city search: which places match, in which order they are ranked, and how the ranking is cut into
 pages. The database is known only through what SQL promises about its answers; trigram similarity,
 relevance scores and the collation of names are arbitrary functions.
 */
module CitySearch {
  import opened Basics
  import opened Wrappers
  import opened Text
  import opened LikePattern
  import opened PlaceCodes

  /** A row of all_countries; None is NULL. */
  datatype Place = Place(id: int, name: Option<string>, ascii: Option<string>, aliases: Option<string>,
                         country: Option<string>, region: Option<string>, lat: Option<real>, lon: Option<real>,
                         timezone: Option<string>, population: Option<nat>, featureClass: string, featureCode: string)

  /** A row of country_codes. */
  datatype Country = Country(alpha2: string, name: string)

  /** What the model leaves open about PostgreSQL. */
  datatype Db = Db(fold: Folding,
                   similar: (string, string) -> bool,
                   score: (Place, string) -> int,
                   collate: Option<string> -> int)

  datatype Row = Row(place: Place, country: Option<string>)

  const MAX_COUNTED: nat := 1000

  function OrEmpty(s: Option<string>): string {
    if s.Some? then s.value else ""
  }

  // ---- the query -----------------------------------------------------------------------------

  predicate SimilarTo(db: Db, name: Option<string>, q: string) {
    name.Some? && db.similar(name.value, q)
  }

  predicate NameLike(db: Db, name: Option<string>, escaped: string) {
    name.Some? && ILike(db.fold, name.value, "%" + escaped + "%")
  }

  predicate AliasLike(db: Db, p: Place, escaped: string) {
    ILike(db.fold, "," + OrEmpty(p.aliases) + ",", "%," + escaped + ",%")
  }

  /** The WHERE clause; `q` is bound to $1 and `escaped` to $2. */
  predicate Matches(db: Db, p: Place, q: string, escaped: string) {
    && (|| SimilarTo(db, p.name, q) || SimilarTo(db, p.ascii, q)
        || NameLike(db, p.name, escaped) || NameLike(db, p.ascii, escaped)
        || AliasLike(db, p, escaped))
    && p.featureClass == "P" && p.featureCode in PLACE_CODES
  }

  predicate ExactMatch(db: Db, p: Place, q: string, escaped: string) {
    || Fold(db.fold, OrEmpty(p.name)) == Fold(db.fold, q)
    || Fold(db.fold, OrEmpty(p.ascii)) == Fold(db.fold, q)
    || AliasLike(db, p, escaped)
  }

  /** The matched CTE. */
  function Matched(db: Db, table: seq<Place>, q: string, escaped: string): seq<Place> {
    if table == [] then []
    else (if Matches(db, table[0], q, escaped) then [table[0]] else []) + Matched(db, table[1..], q, escaped)
  }

  /** Names of the country rows a place joins with. */
  function CountryNames(codes: seq<Country>, country: Option<string>): seq<string> {
    if codes == [] then []
    else (if country == Some(codes[0].alpha2) then [codes[0].name] else []) + CountryNames(codes[1..], country)
  }

  function JoinNames(p: Place, names: seq<string>): seq<Row> {
    if names == [] then [] else [Row(p, Some(names[0]))] + JoinNames(p, names[1..])
  }

  /** The LEFT JOIN: one row per country row, and one without a country name if there is none. */
  function LeftJoin(places: seq<Place>, codes: seq<Country>): seq<Row> {
    if places == [] then []
    else
      var names := CountryNames(codes, places[0].country);
      (if names == [] then [Row(places[0], None)] else JoinNames(places[0], names)) + LeftJoin(places[1..], codes)
  }

  /** ORDER BY exact_match DESC, score DESC, population DESC, name ASC, geonameid ASC. */
  datatype Rank = Rank(inexact: int, score: int, population: int, name: int, id: int)

  function RankOf(db: Db, q: string, escaped: string, r: Row): Rank {
    var p := r.place;
    Rank(if ExactMatch(db, p, q, escaped) then 0 else 1,
         -db.score(p, q),
         if p.population.Some? then -(p.population.value as int) else 0,
         db.collate(p.name),
         p.id)
  }

  predicate Precedes(a: Rank, b: Rank) {
    if a.inexact != b.inexact then a.inexact < b.inexact
    else if a.score != b.score then a.score < b.score
    else if a.population != b.population then a.population < b.population
    else if a.name != b.name then a.name < b.name
    else a.id <= b.id
  }

  ghost predicate Ordered(db: Db, q: string, escaped: string, rows: seq<Row>) {
    forall i, j :: 0 <= i < j < |rows| ==> Precedes(RankOf(db, q, escaped, rows[i]), RankOf(db, q, escaped, rows[j]))
  }

  /** Any complete answer PostgreSQL may give: the joined rows, in an order the ORDER BY allows. */
  ghost predicate Listing(db: Db, table: seq<Place>, codes: seq<Country>, q: string, escaped: string, rows: seq<Row>) {
    && multiset(rows) == multiset(LeftJoin(Matched(db, table, q, escaped), codes))
    && Ordered(db, q, escaped, rows)
  }

  ghost predicate UniqueIds(table: seq<Place>) {
    forall i, j :: 0 <= i < j < |table| ==> table[i].id != table[j].id
  }

  ghost predicate UniqueCodes(codes: seq<Country>) {
    forall i, j :: 0 <= i < j < |codes| ==> codes[i].alpha2 != codes[j].alpha2
  }

  // ---- what matches --------------------------------------------------------------------------

  /** With the escaper in front, the WHERE clause is the intended test: similar, contained, or an alias. */
  lemma MatchesMeans(db: Db, p: Place, q: string)
    requires Sane(db.fold)
    ensures Matches(db, p, q, Escape(q)) <==>
            && (|| SimilarTo(db, p.name, q) || SimilarTo(db, p.ascii, q)
                || (p.name.Some? && Occurs(Fold(db.fold, q), Fold(db.fold, p.name.value)))
                || (p.ascii.Some? && Occurs(Fold(db.fold, q), Fold(db.fold, p.ascii.value)))
                || IsRun(Split(Fold(db.fold, q), ','), Split(Fold(db.fold, OrEmpty(p.aliases)), ',')))
            && p.featureClass == "P" && p.featureCode in PLACE_CODES
  {
    if p.name.Some? { NamePatternIsSubstring(db.fold, p.name.value, q); }
    if p.ascii.Some? { NamePatternIsSubstring(db.fold, p.ascii.value, q); }
    AliasPatternIsRun(db.fold, OrEmpty(p.aliases), q);
  }

  // ---- the join adds nothing -----------------------------------------------------------------

  lemma {:induction false} AtMostOneName(codes: seq<Country>, country: Option<string>)
    requires UniqueCodes(codes)
    ensures |CountryNames(codes, country)| <= 1
  {
    if codes != [] {
      AtMostOneName(codes[1..], country);
      if country == Some(codes[0].alpha2) {
        NoOtherName(codes[1..], codes[0].alpha2);
      }
    }
  }

  lemma {:induction false} NoOtherName(codes: seq<Country>, alpha2: string)
    requires forall i :: 0 <= i < |codes| ==> codes[i].alpha2 != alpha2
    ensures CountryNames(codes, Some(alpha2)) == []
  {
    if codes != [] {
      NoOtherName(codes[1..], alpha2);
    }
  }

  /** As alpha_2 is unique, the join yields exactly one row per matching place. */
  lemma {:induction false} JoinKeepsPlaces(places: seq<Place>, codes: seq<Country>)
    requires UniqueCodes(codes)
    ensures |LeftJoin(places, codes)| == |places|
    ensures forall i :: 0 <= i < |places| ==> LeftJoin(places, codes)[i].place == places[i]
  {
    if places != [] {
      var names := CountryNames(codes, places[0].country);
      AtMostOneName(codes, places[0].country);
      if names != [] {
        assert names[1..] == [];
        assert JoinNames(places[0], names) == [Row(places[0], Some(names[0]))];
      }
      JoinKeepsPlaces(places[1..], codes);
    }
  }

  lemma {:induction false} MatchedIsFilter(db: Db, table: seq<Place>, q: string, escaped: string)
    ensures forall p :: p in Matched(db, table, q, escaped) <==> p in table && Matches(db, p, q, escaped)
    ensures UniqueIds(table) ==> UniqueIds(Matched(db, table, q, escaped))
  {
    if table != [] {
      MatchedIsFilter(db, table[1..], q, escaped);
      assert table == [table[0]] + table[1..];
      if UniqueIds(table) {
        assert forall p :: p in table[1..] ==> p.id != table[0].id;
      }
    }
  }

  // ---- the ranking is unique -----------------------------------------------------------------

  ghost predicate DistinctPlaces(rows: seq<Row>) {
    forall i, j :: 0 <= i < j < |rows| ==> rows[i].place.id != rows[j].place.id
  }

  /** The row standing first is the only one that can. */
  lemma FirstIsForced(db: Db, q: string, escaped: string, a: seq<Row>, b: seq<Row>)
    requires a != [] && multiset(a) == multiset(b) && DistinctPlaces(a)
    requires Ordered(db, q, escaped, a) && Ordered(db, q, escaped, b)
    ensures b != [] && a[0] == b[0]
  {
    assert a[0] in multiset(b);
    assert b[0] in multiset(a);
    var i :| 0 <= i < |b| && b[i] == a[0];
    var j :| 0 <= j < |a| && a[j] == b[0];
  }

  lemma RestIsSame<T>(a: seq<T>, b: seq<T>)
    requires a != [] && b != [] && a[0] == b[0] && multiset(a) == multiset(b)
    ensures multiset(a[1..]) == multiset(b[1..])
  {
    assert a == [a[0]] + a[1..] && b == [b[0]] + b[1..];
    assert multiset(a[1..]) == multiset(a) - multiset{a[0]};
    assert multiset(b[1..]) == multiset(b) - multiset{b[0]};
  }

  lemma {:induction false} OrderIsForced(db: Db, q: string, escaped: string, a: seq<Row>, b: seq<Row>)
    requires multiset(a) == multiset(b) && DistinctPlaces(a)
    requires Ordered(db, q, escaped, a) && Ordered(db, q, escaped, b)
    ensures a == b
    decreases |a|
  {
    if a == [] {
      assert |multiset(b)| == |b|;
    } else {
      FirstIsForced(db, q, escaped, a, b);
      RestIsSame(a, b);
      OrderIsForced(db, q, escaped, a[1..], b[1..]);
      assert a == [a[0]] + a[1..] && b == [b[0]] + b[1..];
    }
  }

  lemma PermutedPlacesStayDistinct(a: seq<Row>, b: seq<Row>)
    requires multiset(a) == multiset(b) && DistinctPlaces(a)
    ensures DistinctPlaces(b)
  {
    forall i, j | 0 <= i < j < |b| ensures b[i].place.id != b[j].place.id {
      if b[i].place.id == b[j].place.id {
        assert b[i] in multiset(a) && b[j] in multiset(a);
        var k :| 0 <= k < |a| && a[k] == b[i];
        var l :| 0 <= l < |a| && a[l] == b[j];
        assert k == l;
        TwiceInOneSequence(b, i, j);
        OnceInOneSequence(a, k);
      }
    }
  }

  lemma TwiceInOneSequence(s: seq<Row>, i: nat, j: nat)
    requires i < j < |s| && s[i] == s[j]
    ensures multiset(s)[s[i]] >= 2
  {
    assert s == s[..j] + [s[j]] + s[j + 1..];
    assert s[i] in multiset(s[..j]) by { assert s[..j][i] == s[i]; }
  }

  lemma OnceInOneSequence(s: seq<Row>, k: nat)
    requires k < |s| && DistinctPlaces(s)
    ensures multiset(s)[s[k]] == 1
  {
    assert s == s[..k] + [s[k]] + s[k + 1..];
    assert s[k] !in s[..k] && s[k] !in s[k + 1..];
  }

  ghost function Insert(db: Db, q: string, escaped: string, r: Row, rows: seq<Row>): seq<Row> {
    if rows == [] || Precedes(RankOf(db, q, escaped, r), RankOf(db, q, escaped, rows[0])) then [r] + rows
    else [rows[0]] + Insert(db, q, escaped, r, rows[1..])
  }

  lemma {:induction false} InsertHas(db: Db, q: string, escaped: string, r: Row, rows: seq<Row>)
    ensures multiset(Insert(db, q, escaped, r, rows)) == multiset{r} + multiset(rows)
  {
    if rows != [] {
      var rest := Insert(db, q, escaped, r, rows[1..]);
      InsertHas(db, q, escaped, r, rows[1..]);
      assert rows == [rows[0]] + rows[1..];
      assert multiset([rows[0]] + rest) == multiset{rows[0]} + multiset(rest);
    }
  }

  ghost predicate AllAfter(db: Db, q: string, escaped: string, first: Row, rows: seq<Row>) {
    forall r :: r in rows ==> Precedes(RankOf(db, q, escaped, first), RankOf(db, q, escaped, r))
  }

  lemma OrderedCons(db: Db, q: string, escaped: string, first: Row, rows: seq<Row>)
    requires rows != []
    ensures Ordered(db, q, escaped, rows) ==>
              AllAfter(db, q, escaped, rows[0], rows[1..]) && Ordered(db, q, escaped, rows[1..])
    ensures Ordered(db, q, escaped, rows) && AllAfter(db, q, escaped, first, rows) ==>
              Ordered(db, q, escaped, [first] + rows)
  {
  }

  lemma {:induction false} InsertKeepsOrder(db: Db, q: string, escaped: string, r: Row, rows: seq<Row>)
    requires Ordered(db, q, escaped, rows)
    ensures Ordered(db, q, escaped, Insert(db, q, escaped, r, rows))
  {
    if rows == [] {
    } else if Precedes(RankOf(db, q, escaped, r), RankOf(db, q, escaped, rows[0])) {
      OrderedCons(db, q, escaped, r, rows);
      FirstPrecedesAll(db, q, escaped, r, rows);
    } else {
      OrderedCons(db, q, escaped, r, rows);
      InsertKeepsOrder(db, q, escaped, r, rows[1..]);
      InsertBehind(db, q, escaped, rows[0], r, rows[1..]);
    }
  }

  lemma FirstPrecedesAll(db: Db, q: string, escaped: string, r: Row, rows: seq<Row>)
    requires rows != [] && AllAfter(db, q, escaped, rows[0], rows[1..])
    requires Precedes(RankOf(db, q, escaped, r), RankOf(db, q, escaped, rows[0]))
    ensures AllAfter(db, q, escaped, r, rows)
  {
    assert rows == [rows[0]] + rows[1..];
  }

  lemma InsertBehind(db: Db, q: string, escaped: string, first: Row, r: Row, rows: seq<Row>)
    requires AllAfter(db, q, escaped, first, rows) && Precedes(RankOf(db, q, escaped, first), RankOf(db, q, escaped, r))
    requires Ordered(db, q, escaped, Insert(db, q, escaped, r, rows))
    ensures Ordered(db, q, escaped, [first] + Insert(db, q, escaped, r, rows))
  {
    var rest := Insert(db, q, escaped, r, rows);
    InsertHas(db, q, escaped, r, rows);
    AfterBoth(db, q, escaped, first, r, rows, rest);
    OrderedCons(db, q, escaped, first, rest);
  }

  lemma AfterBoth(db: Db, q: string, escaped: string, first: Row, r: Row, rows: seq<Row>, rest: seq<Row>)
    requires multiset(rest) == multiset{r} + multiset(rows)
    requires AllAfter(db, q, escaped, first, rows) && Precedes(RankOf(db, q, escaped, first), RankOf(db, q, escaped, r))
    ensures AllAfter(db, q, escaped, first, rest) && rest != []
  {
    assert r in multiset(rest);
    forall x | x in rest ensures x == r || x in rows {
      assert x in multiset(rest);
    }
  }

  lemma {:induction false} SortedExists(db: Db, q: string, escaped: string, rows: seq<Row>) returns (sorted: seq<Row>)
    ensures multiset(sorted) == multiset(rows) && Ordered(db, q, escaped, sorted)
    decreases |rows|
  {
    if rows == [] {
      sorted := [];
    } else {
      var rest := SortedExists(db, q, escaped, rows[1..]);
      InsertHas(db, q, escaped, rows[0], rest);
      InsertKeepsOrder(db, q, escaped, rows[0], rest);
      sorted := Insert(db, q, escaped, rows[0], rest);
      assert rows == [rows[0]] + rows[1..];
    }
  }

  /** There always is a listing. */
  lemma RankingExists(db: Db, table: seq<Place>, codes: seq<Country>, q: string, escaped: string)
    ensures exists rows :: Listing(db, table, codes, q, escaped, rows)
  {
    var sorted := SortedExists(db, q, escaped, LeftJoin(Matched(db, table, q, escaped), codes));
    assert Listing(db, table, codes, q, escaped, sorted);
  }

  /** geonameid breaks every tie, so two executions of the query always agree on the whole ranking. */
  lemma RankingIsUnique(db: Db, table: seq<Place>, codes: seq<Country>, q: string, escaped: string,
                         a: seq<Row>, b: seq<Row>)
    requires UniqueIds(table) && UniqueCodes(codes)
    requires Listing(db, table, codes, q, escaped, a) && Listing(db, table, codes, q, escaped, b)
    ensures a == b
  {
    ListingHasMatches(db, table, codes, q, escaped, a);
    OrderIsForced(db, q, escaped, a, b);
  }

  /** A listing holds every matching place exactly once, exact matches first. */
  lemma ListingHasMatches(db: Db, table: seq<Place>, codes: seq<Country>, q: string, escaped: string, rows: seq<Row>)
    requires UniqueIds(table) && UniqueCodes(codes)
    requires Listing(db, table, codes, q, escaped, rows)
    ensures DistinctPlaces(rows) && |rows| == |Matched(db, table, q, escaped)|
    ensures forall p :: (exists i :: 0 <= i < |rows| && rows[i].place == p) <==>
                        p in table && Matches(db, p, q, escaped)
    ensures forall i, j :: 0 <= i < j < |rows| && ExactMatch(db, rows[j].place, q, escaped) ==>
              ExactMatch(db, rows[i].place, q, escaped)
  {
    var places := Matched(db, table, q, escaped);
    var joined := LeftJoin(places, codes);
    MatchedIsFilter(db, table, q, escaped);
    JoinKeepsPlaces(places, codes);
    assert DistinctPlaces(joined);
    PermutedPlacesStayDistinct(joined, rows);
    assert |multiset(rows)| == |rows| && |multiset(joined)| == |joined|;
    SamePlaces(places, joined, rows);
    forall i, j | 0 <= i < j < |rows| && ExactMatch(db, rows[j].place, q, escaped)
      ensures ExactMatch(db, rows[i].place, q, escaped)
    {
      assert Precedes(RankOf(db, q, escaped, rows[i]), RankOf(db, q, escaped, rows[j]));
    }
  }

  lemma SamePlaces(places: seq<Place>, joined: seq<Row>, rows: seq<Row>)
    requires multiset(rows) == multiset(joined) && |joined| == |places|
    requires forall i :: 0 <= i < |places| ==> joined[i].place == places[i]
    ensures forall p :: (exists i :: 0 <= i < |rows| && rows[i].place == p) <==> p in places
  {
    forall p ensures (exists i :: 0 <= i < |rows| && rows[i].place == p) <==> p in places {
      if i :| 0 <= i < |rows| && rows[i].place == p {
        assert rows[i] in multiset(joined);
      }
      if j :| 0 <= j < |places| && places[j] == p {
        assert joined[j] in multiset(rows);
        var i :| 0 <= i < |rows| && rows[i] == joined[j];
      }
    }
  }

  // ---- pages ---------------------------------------------------------------------------------

  /** LIMIT and OFFSET. */
  function Slice(rows: seq<Row>, limit: nat, offset: nat): seq<Row> {
    if offset >= |rows| then [] else rows[offset..Min(offset + limit, |rows|)]
  }

  function Offset(page: nat, limit: nat): nat
    requires page >= 1
  {
    (page - 1) * limit
  }

  function PagesUpTo(rows: seq<Row>, limit: nat, pages: nat): seq<Row> {
    if pages == 0 then [] else PagesUpTo(rows, limit, pages - 1) + Slice(rows, limit, Offset(pages, limit))
  }

  /** The first pages together are a prefix of the ranking, and enough of them are all of it. */
  lemma {:induction false} PagesConcatenate(rows: seq<Row>, limit: nat, pages: nat)
    requires limit >= 1
    ensures PagesUpTo(rows, limit, pages) == rows[..Min(pages * limit, |rows|)]
  {
    if pages > 0 {
      PagesConcatenate(rows, limit, pages - 1);
      assert pages * limit == Offset(pages, limit) + limit;
      OneMorePage(rows, limit, Offset(pages, limit));
    }
  }

  lemma OneMorePage(rows: seq<Row>, limit: nat, offset: nat)
    ensures rows[..Min(offset, |rows|)] + Slice(rows, limit, offset) == rows[..Min(offset + limit, |rows|)]
  {
  }

  // ---- Search --------------------------------------------------------------------------------

  datatype City = City(id: int, name: string, country: string, countryName: string, region: string,
                       lat: real, lon: real, timezone: string)

  /** A result row as it arrives: columns without COALESCE may be NULL. */
  datatype ResultRow = ResultRow(id: int, name: Option<string>, country: string, region: string,
                                 lat: Option<real>, lon: Option<real>, timezone: string,
                                 countryName: string, total: nat)

  /** The SELECT list. */
  function Select(r: Row, total: nat): ResultRow {
    var p := r.place;
    ResultRow(p.id, p.name, OrEmpty(p.country), OrEmpty(p.region), p.lat, p.lon, OrEmpty(p.timezone),
              OrEmpty(r.country), total)
  }

  function SelectAll(rows: seq<Row>, total: nat): (result: seq<ResultRow>)
    ensures |result| == |rows| && forall i :: 0 <= i < |rows| ==> result[i] == Select(rows[i], total)
  {
    if rows == [] then [] else [Select(rows[0], total)] + SelectAll(rows[1..], total)
  }

  /** The city is the row, column by column. */
  predicate IsShown(r: ResultRow, c: City) {
    && c.id == r.id && Some(c.name) == r.name && c.country == r.country && c.countryName == r.countryName
    && c.region == r.region && Some(c.lat) == r.lat && Some(c.lon) == r.lon && c.timezone == r.timezone
  }

  /** Of the columns that are selected without COALESCE, one is NULL in some row. */
  ghost predicate SomeNull(rows: seq<ResultRow>) {
    exists i :: 0 <= i < |rows| && (rows[i].name == None || rows[i].lat == None || rows[i].lon == None)
  }

  /** Execution of the search query with its five parameters bound. */
  type Query = (string, string, nat, nat, nat) -> seq<ResultRow>

  /** The query answers with a slice of some listing, and with the capped number of matches on every row. */
  ghost predicate Answers(run: Query, db: Db, table: seq<Place>, codes: seq<Country>) {
    forall q, escaped, limit, offset, cap :: exists rows ::
      Listing(db, table, codes, q, escaped, rows)
      && run(q, escaped, limit, offset, cap) ==
         SelectAll(Slice(rows, limit, offset), Min(|Matched(db, table, q, escaped)|, cap))
  }

  /** The cities are the rows, in order, and the total is that of the last; a NULL in a plain Go value is an error. */
  method Search(run: Query, q: string, page: nat, limit: nat) returns (r: Result<(seq<City>, nat), string>)
    requires page >= 1 && limit >= 1
    ensures var result := run(q, Escape(q), limit, (page - 1) * limit, 1000);
            && (r.Err? ==> SomeNull(result))
            && (r.Ok? ==>
                  && |r.value.0| == |result|
                  && (forall i :: 0 <= i < |result| ==> IsShown(result[i], r.value.0[i]))
                  && r.value.1 == if result == [] then 0 else result[|result| - 1].total)
  {
    var offset := (page - 1) * limit;
    var rows := run(q, Escape(q), limit, offset, MAX_COUNTED);
    var cities: seq<City>, total := [], 0;
    for i := 0 to |rows|
      invariant |cities| == i
      invariant forall j :: 0 <= j < i ==> IsShown(rows[j], cities[j])
      invariant total == if i == 0 then 0 else rows[i - 1].total
    {
      var row := rows[i];
      if row.name.None? || row.lat.None? || row.lon.None? {
        assert SomeNull(rows);
        return Err("city: scan row");
      }
      total := row.total;
      cities := cities + [City(row.id, row.name.value, row.country, row.countryName, row.region,
                               row.lat.value, row.lon.value, row.timezone)];
    }
    return Ok((cities, total));
  }

  /**
   What a page is: the slice of the one ranking, and min(matches, 1000) as the total, except that a page
   beyond the last match is empty and its total stays 0.
   */
  lemma PageIsSliceOfRanking(run: Query, db: Db, table: seq<Place>, codes: seq<Country>, q: string,
                             ranking: seq<Row>, page: nat, limit: nat)
    requires Answers(run, db, table, codes) && UniqueIds(table) && UniqueCodes(codes)
    requires Listing(db, table, codes, q, Escape(q), ranking)
    requires page >= 1 && limit >= 1
    ensures var result := run(q, Escape(q), limit, Offset(page, limit), MAX_COUNTED);
            var matches := |Matched(db, table, q, Escape(q))|;
            && result == SelectAll(Slice(ranking, limit, Offset(page, limit)), Min(matches, MAX_COUNTED))
            && (result == [] <==> Offset(page, limit) >= matches)
            && (result != [] ==> result[|result| - 1].total == Min(matches, MAX_COUNTED))
  {
    var rows :| Listing(db, table, codes, q, Escape(q), rows)
      && run(q, Escape(q), limit, Offset(page, limit), MAX_COUNTED) ==
         SelectAll(Slice(rows, limit, Offset(page, limit)), Min(|Matched(db, table, q, Escape(q))|, MAX_COUNTED));
    RankingIsUnique(db, table, codes, q, Escape(q), rows, ranking);
    ListingHasMatches(db, table, codes, q, Escape(q), ranking);
  }

  /** The rows of pages 1, 2, ..., each from an execution of its own. */
  function PagesFetched(run: Query, q: string, limit: nat, pages: nat): seq<ResultRow> {
    if pages == 0 then []
    else PagesFetched(run, q, limit, pages - 1) + run(q, Escape(q), limit, Offset(pages, limit), MAX_COUNTED)
  }

  lemma {:induction false} SelectAppend(a: seq<Row>, b: seq<Row>, total: nat)
    ensures SelectAll(a + b, total) == SelectAll(a, total) + SelectAll(b, total)
  {
  }

  lemma OnePageFetched(run: Query, db: Db, table: seq<Place>, codes: seq<Country>, q: string, ranking: seq<Row>,
                       page: nat, limit: nat)
    requires Answers(run, db, table, codes) && UniqueIds(table) && UniqueCodes(codes)
    requires Listing(db, table, codes, q, Escape(q), ranking) && page >= 1 && limit >= 1
    ensures run(q, Escape(q), limit, Offset(page, limit), MAX_COUNTED) ==
            SelectAll(Slice(ranking, limit, Offset(page, limit)), Min(|Matched(db, table, q, Escape(q))|, MAX_COUNTED))
  {
    PageIsSliceOfRanking(run, db, table, codes, q, ranking, page, limit);
  }

  lemma OneMoreFetched(fetched: seq<ResultRow>, page: seq<ResultRow>, rows: seq<Row>, slice: seq<Row>, total: nat)
    requires fetched == SelectAll(rows, total) && page == SelectAll(slice, total)
    ensures fetched + page == SelectAll(rows + slice, total)
  {
    SelectAppend(rows, slice, total);
  }

  /** If every page is the slice of one ranking, the pages put together are its beginning. */
  lemma {:induction false} SlicesAreFetched(run: Query, q: string, ranking: seq<Row>, total: nat, limit: nat,
                                            pages: nat)
    requires forall page | 1 <= page <= pages ::
               run(q, Escape(q), limit, Offset(page, limit), MAX_COUNTED) ==
               SelectAll(Slice(ranking, limit, Offset(page, limit)), total)
    ensures PagesFetched(run, q, limit, pages) == SelectAll(PagesUpTo(ranking, limit, pages), total)
    decreases pages
  {
    if pages > 0 {
      SlicesAreFetched(run, q, ranking, total, limit, pages - 1);
      OneMoreFetched(PagesFetched(run, q, limit, pages - 1),
                     run(q, Escape(q), limit, Offset(pages, limit), MAX_COUNTED),
                     PagesUpTo(ranking, limit, pages - 1), Slice(ranking, limit, Offset(pages, limit)), total);
    }
  }

  lemma FetchedIsSelected(run: Query, db: Db, table: seq<Place>, codes: seq<Country>, q: string,
                          ranking: seq<Row>, limit: nat, pages: nat)
    requires Answers(run, db, table, codes) && UniqueIds(table) && UniqueCodes(codes) && limit >= 1
    requires Listing(db, table, codes, q, Escape(q), ranking)
    ensures PagesFetched(run, q, limit, pages) ==
            SelectAll(PagesUpTo(ranking, limit, pages), Min(|Matched(db, table, q, Escape(q))|, MAX_COUNTED))
  {
    var total := Min(|Matched(db, table, q, Escape(q))|, MAX_COUNTED);
    forall page | 1 <= page <= pages
      ensures run(q, Escape(q), limit, Offset(page, limit), MAX_COUNTED) ==
              SelectAll(Slice(ranking, limit, Offset(page, limit)), total)
    {
      OnePageFetched(run, db, table, codes, q, ranking, page, limit);
    }
    SlicesAreFetched(run, q, ranking, total, limit, pages);
  }

  lemma EnoughPages(rows: seq<Row>, limit: nat, pages: nat)
    requires limit >= 1 && pages * limit >= |rows|
    ensures PagesUpTo(rows, limit, pages) == rows
  {
    PagesConcatenate(rows, limit, pages);
    assert rows[..|rows|] == rows;
  }

  /**
   Pages 1, 2, ..., taken in separate executions, are the whole ranking, each row with the capped number
   of matches, as soon as there are enough of them. By ListingHasMatches it holds every matching place once.
   */
  lemma PagesPartitionRanking(run: Query, db: Db, table: seq<Place>, codes: seq<Country>, q: string,
                              ranking: seq<Row>, limit: nat, pages: nat)
    requires Answers(run, db, table, codes) && UniqueIds(table) && UniqueCodes(codes) && limit >= 1
    requires Listing(db, table, codes, q, Escape(q), ranking)
    requires pages * limit >= |Matched(db, table, q, Escape(q))|
    ensures DistinctPlaces(ranking)
    ensures PagesFetched(run, q, limit, pages) ==
            SelectAll(ranking, Min(|Matched(db, table, q, Escape(q))|, MAX_COUNTED))
  {
    FetchedIsSelected(run, db, table, codes, q, ranking, limit, pages);
    ListingHasMatches(db, table, codes, q, Escape(q), ranking);
    EnoughPages(ranking, limit, pages);
  }
}
