/**
 What a client sees of the ranking, over any two rows of any two pages: exact matches first, then higher
 relevance, then more people, then the name, then the id; and what each row shows.
 */
module CityRanking {
  import opened Basics
  import opened Wrappers
  import opened Text
  import opened LikePattern
  import opened CitySearch

  // ---- exactness -----------------------------------------------------------------------------

  /** The whole name, in one of its two spellings, or a run of whole aliases, all up to case. */
  ghost predicate Exact(db: Db, p: Place, q: string) {
    || Fold(db.fold, OrEmpty(p.name)) == Fold(db.fold, q)
    || Fold(db.fold, OrEmpty(p.ascii)) == Fold(db.fold, q)
    || IsRun(Split(Fold(db.fold, q), ','), Split(Fold(db.fold, OrEmpty(p.aliases)), ','))
  }

  lemma ExactMeans(db: Db, p: Place, q: string)
    requires Sane(db.fold)
    ensures ExactMatch(db, p, q, Escape(q)) <==> Exact(db, p, q)
  {
    AliasPatternIsRun(db.fold, OrEmpty(p.aliases), q);
  }

  // ---- order ---------------------------------------------------------------------------------

  /** A missing census count ranks like zero. */
  function People(p: Place): nat {
    if p.population.Some? then p.population.value else 0
  }

  /** Any two rows of any answer the database may give, wherever they stand in it. */
  lemma ListingIsOrdered(db: Db, table: seq<Place>, codes: seq<Country>, q: string, escaped: string, rows: seq<Row>,
                         i: nat, j: nat)
    requires Listing(db, table, codes, q, escaped, rows) && i < j < |rows|
    ensures var a, b := rows[i].place, rows[j].place;
            var exactA, exactB := ExactMatch(db, a, q, escaped), ExactMatch(db, b, q, escaped);
            && (exactB ==> exactA)
            && (exactA == exactB ==>
                  && db.score(a, q) >= db.score(b, q)
                  && (db.score(a, q) == db.score(b, q) ==>
                        && People(a) >= People(b)
                        && (People(a) == People(b) ==>
                              && db.collate(a.name) <= db.collate(b.name)
                              && (db.collate(a.name) == db.collate(b.name) ==> a.id <= b.id))))
  {
    assert Precedes(RankOf(db, q, escaped, rows[i]), RankOf(db, q, escaped, rows[j]));
  }

  // ---- the country ---------------------------------------------------------------------------

  /** The row names the country whose code the place has; without such a country it names none. */
  ghost predicate NamesCountry(codes: seq<Country>, r: Row) {
    && (forall c :: c in codes && r.place.country == Some(c.alpha2) ==> r.country == Some(c.name))
    && ((forall c :: c in codes ==> r.place.country != Some(c.alpha2)) ==> r.country == None)
  }

  lemma {:induction false} CountryNamesAre(codes: seq<Country>, country: Option<string>)
    requires UniqueCodes(codes)
    ensures forall c :: c in codes && country == Some(c.alpha2) ==> CountryNames(codes, country) == [c.name]
    ensures (forall c :: c in codes ==> country != Some(c.alpha2)) ==> CountryNames(codes, country) == []
  {
    if codes != [] {
      CountryNamesAre(codes[1..], country);
      assert forall c :: c in codes <==> c == codes[0] || c in codes[1..];
      if country == Some(codes[0].alpha2) {
        NoOtherName(codes[1..], codes[0].alpha2);
        assert forall c :: c in codes[1..] ==> c.alpha2 != codes[0].alpha2;
      }
    }
  }

  lemma {:induction false} JoinNamesCountries(places: seq<Place>, codes: seq<Country>)
    requires UniqueCodes(codes)
    ensures forall r :: r in LeftJoin(places, codes) ==> NamesCountry(codes, r)
  {
    if places != [] {
      var names := CountryNames(codes, places[0].country);
      CountryNamesAre(codes, places[0].country);
      AtMostOneName(codes, places[0].country);
      if names != [] {
        assert names[1..] == [];
        assert JoinNames(places[0], names) == [Row(places[0], Some(names[0]))];
      }
      JoinNamesCountries(places[1..], codes);
    }
  }

  lemma ListingNamesCountries(db: Db, table: seq<Place>, codes: seq<Country>, q: string, escaped: string,
                              rows: seq<Row>, i: nat)
    requires UniqueCodes(codes) && Listing(db, table, codes, q, escaped, rows) && i < |rows|
    ensures NamesCountry(codes, rows[i])
  {
    JoinNamesCountries(Matched(db, table, q, escaped), codes);
    assert rows[i] in multiset(rows);
  }

  // ---- pages ---------------------------------------------------------------------------------

  /** What a result row shows of a place: its columns, with "" for a text that is NULL, and its country's name. */
  ghost predicate Shows(codes: seq<Country>, p: Place, r: ResultRow) {
    && r.id == p.id && r.name == p.name && r.lat == p.lat && r.lon == p.lon
    && r.country == (if p.country.Some? then p.country.value else "")
    && r.region == (if p.region.Some? then p.region.value else "")
    && r.timezone == (if p.timezone.Some? then p.timezone.value else "")
    && (forall c :: c in codes && p.country == Some(c.alpha2) ==> r.countryName == c.name)
    && ((forall c :: c in codes ==> p.country != Some(c.alpha2)) ==> r.countryName == "")
  }

  lemma RowShows(codes: seq<Country>, row: Row, total: nat)
    requires NamesCountry(codes, row)
    ensures Shows(codes, row.place, Select(row, total)) && Select(row, total).total == total
  {
  }

  /** The rows that come back for a page. */
  function Page(run: Query, q: string, limit: nat, page: nat): seq<ResultRow>
    requires page >= 1
  {
    run(q, Escape(q), limit, Offset(page, limit), 1000)
  }

  lemma PageIs(run: Query, db: Db, table: seq<Place>, codes: seq<Country>, q: string, ranking: seq<Row>,
               limit: nat, page: nat)
    requires Answers(run, db, table, codes) && UniqueIds(table) && UniqueCodes(codes)
    requires Listing(db, table, codes, q, Escape(q), ranking) && page >= 1 && limit >= 1
    ensures Page(run, q, limit, page) ==
            SelectAll(Slice(ranking, limit, Offset(page, limit)), if |ranking| <= 1000 then |ranking| else 1000)
  {
    OnePageFetched(run, db, table, codes, q, ranking, page, limit);
    ListingHasMatches(db, table, codes, q, Escape(q), ranking);
  }

  lemma SliceRow(rows: seq<Row>, limit: nat, offset: nat, total: nat, i: nat)
    requires i < |SelectAll(Slice(rows, limit, offset), total)|
    ensures i < limit && offset + i < |rows|
    ensures SelectAll(Slice(rows, limit, offset), total)[i] == Select(rows[offset + i], total)
  {
  }

  /**
   `a` is exact if `b` is; if both are or both are not, it is at least as relevant; at equal relevance it has
   at least as many people; then its name does not come after; and then it has the smaller id.
   */
  ghost predicate Ahead(db: Db, q: string, a: Place, b: Place) {
    && (Exact(db, b, q) ==> Exact(db, a, q))
    && (Exact(db, a, q) == Exact(db, b, q) ==>
          && db.score(a, q) >= db.score(b, q)
          && (db.score(a, q) == db.score(b, q) ==>
                && People(a) >= People(b)
                && (People(a) == People(b) ==>
                      && db.collate(a.name) <= db.collate(b.name)
                      && (db.collate(a.name) == db.collate(b.name) ==> a.id < b.id))))
  }

  /** Any two rows of the ranking. */
  lemma RankingIsOrdered(db: Db, table: seq<Place>, codes: seq<Country>, q: string, ranking: seq<Row>, k: nat, l: nat)
    requires UniqueIds(table) && UniqueCodes(codes) && Sane(db.fold)
    requires Listing(db, table, codes, q, Escape(q), ranking) && k < l < |ranking|
    ensures var a, b := ranking[k].place, ranking[l].place;
            && a in table && Matches(db, a, q, Escape(q)) && b in table && Matches(db, b, q, Escape(q))
            && Ahead(db, q, a, b)
  {
    ExactMeans(db, ranking[k].place, q);
    ExactMeans(db, ranking[l].place, q);
    ListingIsOrdered(db, table, codes, q, Escape(q), ranking, k, l);
    ListingHasMatches(db, table, codes, q, Escape(q), ranking);
  }

  /** A page's row shows a matching place of the table. */
  ghost predicate ShowsMatch(db: Db, table: seq<Place>, codes: seq<Country>, q: string, p: Place, r: ResultRow) {
    p in table && Matches(db, p, q, Escape(q)) && Shows(codes, p, r)
  }

  lemma RankedMatches(db: Db, table: seq<Place>, codes: seq<Country>, q: string, ranking: seq<Row>, k: nat)
    returns (p: Place)
    requires UniqueIds(table) && UniqueCodes(codes)
    requires Listing(db, table, codes, q, Escape(q), ranking) && k < |ranking|
    ensures p == ranking[k].place && p in table && Matches(db, p, q, Escape(q))
  {
    p := ranking[k].place;
    ListingHasMatches(db, table, codes, q, Escape(q), ranking);
  }

  lemma MatchShown(db: Db, table: seq<Place>, codes: seq<Country>, q: string, row: Row, total: nat)
    requires row.place in table && Matches(db, row.place, q, Escape(q)) && NamesCountry(codes, row)
    ensures ShowsMatch(db, table, codes, q, row.place, Select(row, total))
  {
    RowShows(codes, row, total);
  }

  lemma RankedRowShows(db: Db, table: seq<Place>, codes: seq<Country>, q: string, ranking: seq<Row>, k: nat, total: nat)
    requires UniqueIds(table) && UniqueCodes(codes)
    requires Listing(db, table, codes, q, Escape(q), ranking) && k < |ranking|
    ensures ShowsMatch(db, table, codes, q, ranking[k].place, Select(ranking[k], total))
  {
    var p := RankedMatches(db, table, codes, q, ranking, k);
    ListingNamesCountries(db, table, codes, q, Escape(q), ranking, k);
    MatchShown(db, table, codes, q, ranking[k], total);
  }

  /** Row `i` of a page is row Offset(page, limit) + i of the ranking, and carries the number of matches, up to 1000. */
  lemma PageShows(run: Query, db: Db, table: seq<Place>, codes: seq<Country>, q: string, ranking: seq<Row>,
                  limit: nat, page: nat, i: nat) returns (k: nat, p: Place)
    requires Answers(run, db, table, codes) && UniqueIds(table) && UniqueCodes(codes)
    requires Listing(db, table, codes, q, Escape(q), ranking) && page >= 1 && limit >= 1
    requires i < |Page(run, q, limit, page)|
    ensures k == Offset(page, limit) + i && i < limit && k < |ranking| && ranking[k].place == p
    ensures ShowsMatch(db, table, codes, q, p, Page(run, q, limit, page)[i])
    ensures Page(run, q, limit, page)[i].total == if |ranking| <= 1000 then |ranking| else 1000
  {
    var total := if |ranking| <= 1000 then |ranking| else 1000;
    PageIs(run, db, table, codes, q, ranking, limit, page);
    SliceRow(ranking, limit, Offset(page, limit), total, i);
    k := Offset(page, limit) + i;
    p := ranking[k].place;
    RankedRowShows(db, table, codes, q, ranking, k, total);
  }

  lemma PagesFollowRanking(run: Query, db: Db, table: seq<Place>, codes: seq<Country>, q: string, ranking: seq<Row>,
                           limit: nat, page: nat, i: nat, later: nat, j: nat) returns (a: Place, b: Place)
    requires Answers(run, db, table, codes) && UniqueIds(table) && UniqueCodes(codes) && Sane(db.fold)
    requires Listing(db, table, codes, q, Escape(q), ranking)
    requires limit >= 1 && 1 <= page && 1 <= later && Offset(page, limit) + i < Offset(later, limit) + j
    requires i < |Page(run, q, limit, page)| && j < |Page(run, q, limit, later)|
    ensures ShowsMatch(db, table, codes, q, a, Page(run, q, limit, page)[i])
    ensures ShowsMatch(db, table, codes, q, b, Page(run, q, limit, later)[j])
    ensures Ahead(db, q, a, b)
  {
    var k, l: nat;
    k, a := PageShows(run, db, table, codes, q, ranking, limit, page, i);
    l, b := PageShows(run, db, table, codes, q, ranking, limit, later, j);
    RankingIsOrdered(db, table, codes, q, ranking, k, l);
  }

  /** Any two rows of any two pages, the first one further ahead: they show matching places in that order. */
  lemma PagesAreOrdered(run: Query, db: Db, table: seq<Place>, codes: seq<Country>, q: string, limit: nat,
                        page: nat, i: nat, later: nat, j: nat) returns (a: Place, b: Place)
    requires Answers(run, db, table, codes) && UniqueIds(table) && UniqueCodes(codes) && Sane(db.fold)
    requires limit >= 1 && 1 <= page && 1 <= later && Offset(page, limit) + i < Offset(later, limit) + j
    requires i < |Page(run, q, limit, page)| && j < |Page(run, q, limit, later)|
    ensures ShowsMatch(db, table, codes, q, a, Page(run, q, limit, page)[i])
    ensures ShowsMatch(db, table, codes, q, b, Page(run, q, limit, later)[j])
    ensures Ahead(db, q, a, b)
  {
    RankingExists(db, table, codes, q, Escape(q));
    var ranking: seq<Row> :| Listing(db, table, codes, q, Escape(q), ranking);
    a, b := PagesFollowRanking(run, db, table, codes, q, ranking, limit, page, i, later, j);
  }
}
