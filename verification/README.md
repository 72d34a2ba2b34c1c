# Verified model of skynapi

skynapi answers city searches, weather requests and reverse-geocoding requests from PostgreSQL and two
upstream services, and has a small browser front end. This project models the six places where its
logic is hard, in Dafny 4.11, and proves what they are for. `dafny verify dfyconfig.toml` checks all of it.

| part | files | what is proved |
|---|---|---|
| cache-first lookup with shared flights | `Coordinates`, `FlightProtocol`, `FlightSafety`, `FlightVersions`, `FlightFallback`, `FlightRefresh`, `FlightDecisions`, `CacheService` | a transition system with any number of callers, positions, failed reads and writes, evictions and upstream versions; safety over all its runs; exact conditions for its promises; a class that performs its steps in place |
| conditional responses | `EntityTags`, `WeatherHandler` | FNV-1a tags, If-None-Match against the grammar of RFC 9110, freshness headers |
| forecast page | `Forecast`, `ForecastDays`, `ForecastDisplay` | the rain walk (no hour twice, when no hour is lost, a largest choice), which days are displayed in which order, their totals in terms of the series, and conservation of rain in them |
| city search | `LikePattern`, `CitySearch`, `CityRanking` | what escaped LIKE patterns accept, that the pages partition one ranking, and the order of any two rows of any two pages |
| GeoNames refreshes | `GeoNamesReader`, `GeoNamesSql`, `GeoNamesUpsert`, `GeoNamesExecution`, `GeoNamesRoundTrip`, `GeoNamesReplay` | complete validation, a printer and parser round trip, a reader and an interpreter for the SQL around the rows, and idempotent replay of the files as text |
| two smaller machines | `ClientIp`, `DaySwipe` | trusted-hop selection behind proxies, and the swipe gesture over all event sequences |

`Text`, `Numerals`, `PlaceCodes`, `Basics` and `Wrappers` hold what several parts share.

## Findings

Some promises hold only under a condition. The conditions below are proved, and are exact where they say so.

- **Two zeros.** A coordinate that rounds to zero from below prints as `-0.0000`, so two requests for one
  cache row can run in two flights at once, and the row can then go back to an older forecast although each
  flight alone is correct. The comments promise deduplicated fetches per coordinate
  (internal/weather/service.go:31-33). For callers of any set of positions, that there are never two fetches
  for a row at once, and that no row goes back, hold in all runs if and only if positions sharing a row share
  a flight key: `FlightVersions.OneFetchIffCoherent`, `FlightVersions.NeverBackIffCoherent`. That fails exactly
  for a zero with two signs (`FlightVersions.CoherentMeans`, `Coordinates.CanonicalInput`), for example for
  latitudes -0.00001 and 0.00001 (`FlightVersions.EquatorHasTwoFlights`).
- **Fetching over a fresh row.** The documentation promises that concurrent requests share a single fetch
  (README.md:176). They share the flight in the air only: a caller that read before a flight stored its row,
  and enters after that flight has ended, fetches once more over the fresh row, in any setting and without any
  failed query (`FlightFallback.SecondFetchOverFreshRow`). If that fetch fails, it is answered 503 over a fresh
  row (`FlightFallback.ErrorOverFreshRow`). It takes a failed query of its own, or a write to the row since
  its own read: `FlightRefresh.FetchOverFreshRow`.
- **503 with a row in the cache.** The documentation says 503 only when the cache is empty and the upstream
  is down (README.md:174). A flight falls back to what its leader had read, so if the leader's cache query
  fails, a joiner that has read the stale row is answered 503 as well: `FlightFallback.ErrorWithRowCached`.
  The exact condition is the leader's read: `FlightFallback.FallbackIsExact`.
- **Mixed series.** A one-hour block after a counted six-hour block moves the marker back, so an hour can
  count twice (the comment at caddy/html/forecast.mjs:45-47 says exactly once):
  `Forecast.MixedSeriesCountsTwice`. On a grid it happens exactly if some one-hour block starts less than
  six hours after an entry with a six-hour block only: `Forecast.OverlapOnGrid`. On any series clear gaps
  are enough: `Forecast.ClearGapsSuffice`. Off the grid hours can also be lost (`Forecast.HoursCanBeLost`);
  on a series of the upstream's shape none is if and only if counting resumes where it stopped after each
  skipped block: `Forecast.ExactlyOnce`.
- **Files PostgreSQL does not take.** Validation lets a text with U+0000 through
  (`GeoNamesRoundTrip.ValidationAllowsNul`), which PostgreSQL allows in no string constant: a script is read
  back if and only if no text field holds it (`GeoNamesRoundTrip.ScriptRoundTrip`). Python may also accept
  dates, integers (an id of 10^20, say) and lengths of text that PostgreSQL does not. The migrations get
  through if and only if none of the three occurs, and stop at the first file where one does
  (`GeoNamesReplay.MigrateMerges`). Replaying is idempotent all the same.
- **Pages beyond the end.** A page after the last match has no row to carry the count, so its total is 0:
  `CitySearch.PageIsSliceOfRanking`.
- **NULL columns.** A match with a NULL name or coordinate fails the whole page, as these columns are not
  coalesced: `CitySearch.Search`. Whether such rows occur depends on the table, which is not part of this model.
- **Aliases with commas.** A query with commas matches a run of consecutive alternate names rather than
  one of them: `LikePattern.AliasPatternIsRun`; without a comma it is one whole name.
- **Short proxy chains.** The address taken for the client's is independent of what the client sent exactly
  when no fewer proxies append a hop than are configured, zero included: `ClientIp.IndependentOfTheClient`.

## Model

| member | source | states |
|---|---|---|
| Coordinates.CanonicalInput | internal/weather/pgx_repository.go:26-28 | Rounding gives a negative zero exactly for negative inputs below half a unit. |
| Coordinates.FlightKeyInjective | internal/weather/service.go:70 | The printed flight key determines the rounded position, sign of zero included. |
| Coordinates.FlightsVersusRows | internal/weather/service.go:60-70 | Two requests share a flight key if and only if they share a cache row and no coordinate is a zero carrying two signs. |
| Coordinates.OneFlightPerRow | internal/geocode/service.go:49-69 | Without negative zeros, sharing a key and sharing a row are the same, for any number of decimals. |
| FlightSafety.StepKeepsInv | internal/weather/service.go:54-135 | Every step of any caller, flight, eviction, clock or upstream keeps the invariant: rows and results hold valid upstream bytes with an expiry given to them, flights have waiting leaders whose read was missing or expired, reports follow from the answer and the leader's read, waiters have their flight. |
| FlightSafety.InitialIsSound | internal/weather/service.go:54-135 | So every state of every run from a fresh process satisfies the invariant. |
| FlightSafety.RecordsAreReplies | internal/weather/met_client.go:70-91 | The recorded bodies are exactly the complete, valid ones received with 200 within the cap, and the recorded expiries those sent with a body or with a 304 confirming it. |
| FlightSafety.ServedBytesAreUpstreamBytes | internal/weather/service.go:87-135 | Whatever is stored or served for a row was received, complete, valid and with status 200, for that very row, byte for byte; and its expiry was given to that body. |
| FlightSafety.JoinersShareTheResult | internal/weather/service.go:71-81 | Leader and joiners of a flight end with the same outcome. |
| FlightSafety.FinishDeliversToAll | internal/weather/service.go:71-81 | The end of a flight answers everyone waiting under its key and nobody else. |
| FlightSafety.FetchesAreLedByMisses | internal/weather/service.go:62-77 | Every upstream call belongs to a waiting leader whose own cache read found no row, or, where rows expire, one without an expiry or with an expiry no later than the leader's check. |
| FlightSafety.DoneIsFinal | internal/weather/service.go:78-81 | An answered request keeps its answer for the rest of the run. |
| FlightSafety.FreshReadNeverFetches | internal/weather/service.go:64-68 | A caller that read a row and is checked before its expiry (or whose rows never expire) is answered from it and never leads a flight afterwards. |
| FlightSafety.FreshHitIsExact | internal/weather/service.go:51-68 | And the converse: a checked request is answered without a flight exactly when it had read a row that, where rows expire, had an expiry later than the check; and then with that row. |
| FlightSafety.WithoutExpiryFlightsStartEmpty | internal/geocode/service.go:63-84 | In the geocoding service every flight starts without a cached place, so it never revalidates and never answers from an old one. |
| FlightVersions.CanonicalIsCoherent | internal/weather/service.go:70 | On positions without a negative zero, one row means one flight key. |
| FlightVersions.CoherentMeans | internal/weather/service.go:60-70 | Positions that share a row share a key if and only if none of them has a zero with the other sign. |
| FlightVersions.AtMostOneFetchPerRow | internal/weather/service.go:31-34 | At any moment of any run whose callers stay in a coherent set of positions: at most one flight, hence one upstream call, per cache row. |
| FlightVersions.OneFetchIffCoherent | internal/weather/service.go:31-34 | For callers of any set of positions that valid inputs reach: never two fetches for one row at once, in all runs, if and only if the set is coherent. |
| FlightVersions.AnswerIsCurrent | internal/weather/service.go:88-131 | Against a truthful upstream, what a flight decides to write is the version current at its answer, also when it revalidates an old snapshot. |
| FlightVersions.StepKeepsVersions | internal/weather/service.go:62-131 | Every step keeps the version invariant: no pending write is older than what has been written. |
| FlightVersions.WritesNeverGoBack | internal/weather/service.go:62-131 | In every interleaving the versions written to a row never go back and each row shows a genuine version. |
| FlightVersions.SeparateFlightsCanGoBack | internal/weather/service.go:70-77 | Two positions with one row and two keys have a run with two fetches in the air, and a run in which the row goes back. |
| FlightVersions.NeverBackIffCoherent | internal/weather/service.go:62-131 | For callers of any such set: no row ever goes back in any run if and only if the set is coherent. |
| FlightVersions.NeverBackIffOneFlight | internal/weather/service.go:62-131 | For two positions of one row: it never goes back in any run if and only if they print the same key. |
| FlightVersions.EquatorHasTwoFlights | internal/geocode/service.go:61-69 | In both services latitudes -0.00001 and 0.00001 share a row and not a flight. |
| FlightFallback.FallbackIsExact | internal/weather/service.go:96-104 | An answered request gets the stale row exactly when the upstream failed and its flight's leader had read a row, and 503 exactly when it failed and the leader had read none. |
| FlightFallback.ReadIsWhatTheTableHeld | internal/weather/service.go:62 | What a caller is said to have read is what the table held at its lookup, if the query succeeded, for the rest of the run. |
| FlightFallback.ErrorWithRowCached | internal/weather/service.go:62-103 | A run in which a joiner that read the stale row is answered 503 with the row still in the table. |
| FlightFallback.SecondFetchOverFreshRow | internal/weather/service.go:62-71 | For every position a run, without any failed query, in which a second fetch is in the air over a fresh row. |
| FlightFallback.ErrorOverFreshRow | internal/weather/service.go:62-104 | For every position such a run in which a caller is answered 503 over a fresh row. |
| FlightRefresh.FetchOverFreshRow | internal/weather/service.go:62-77 | In every run, a caller fetches, or is about to, over a row before its expiry only if its own query failed or the row has been written since its own read. |
| FlightRefresh.StoreRefreshes | internal/weather/service.go:106-134 | After a 200 or a 304, and a successful write, the row holds the very body and expiry reported, as of now; otherwise nothing is written. |
| FlightRefresh.RunIsSteady | internal/weather/pgx_repository.go:55-82 | Without a write in between, a row is the same or gone. |
| FlightRefresh.RefreshedRowIsServed | internal/weather/service.go:49-53 | After a refresh has been stored, a caller that reads the untouched row and checks it before its expiry is answered, without a fetch, with the body and expiry that were reported. |
| FlightDecisions.LookupIsRounded | internal/weather/service.go:54-62 | Beyond 90 and 180 degrees a request is turned away unread; otherwise it reads the row of the nearest 1/10000 of a degree (1/100 for places), halves away from zero, signs kept. |
| FlightDecisions.ServedAtOnceIffUnexpired | internal/weather/service.go:64-68 | The check decides for the rest of the run: answered without a flight, from the row, if and only if a row was read and the clock at the check is before its expiry (where rows expire). |
| FlightDecisions.ServicesServeAtOnce | internal/geocode/service.go:63-67 | In every run of the two services a checked request is answered without a flight if and only if it had read a row, which for forecasts must expire after the check. |
| FlightDecisions.AsksWithLeadersDate | internal/weather/service.go:88-92 | In every run a flight asks with the Last-Modified date of the row that its leader had read, if it had one. |
| FlightDecisions.RepliesAreJudged | internal/weather/met_client.go:70-101 | An answer is a complete, valid 200 of at most 4 MiB (1 MiB for places) with its own dates, or for forecasts a 304; all else is a failure. |
| FlightDecisions.AnswersAreDated | internal/weather/service.go:96-134 | A flight dates its answer now if a body has come, and otherwise as the row that its leader had read. |
| FlightDecisions.EvictionIsExact | internal/weather/pgx_repository.go:74-82 | A row survives, unchanged, if and only if it was cached no longer ago than the retention period; nothing else changes. |
| CacheService.Service.constructor | internal/weather/service.go:38-44 | A new service has nothing in flight and satisfies the invariant. |
| CacheService.Service.Get | internal/weather/pgx_repository.go:30-53 | The stored row; a missing row and a failed query are both a miss. |
| CacheService.Service.Set | internal/weather/pgx_repository.go:55-72 | Overwrites the row and changes nothing else; a failed write changes nothing. |
| CacheService.Service.DeleteStale | internal/weather/pgx_repository.go:74-82 | Removes exactly the rows older than the retention period and counts them. |
| CacheService.Service.Lookup | internal/weather/service.go:54-62 | Validation, rounding and the cache read are one protocol step. |
| CacheService.Service.Check | internal/weather/service.go:64-68 | The freshness check is one protocol step: answer from the row, or miss. |
| CacheService.Service.Enter | internal/weather/service.go:70-77 | Joins the flight of the key, or leads a new one with the caller's snapshot. |
| CacheService.Service.Fetch | internal/weather/met_client.go:60-110 | The verdict on a reply is one protocol step. |
| CacheService.Service.Store | internal/weather/service.go:96-134 | The branches of fetchAndStore after the reply are one protocol step: fallback, revalidation, store. |
| CacheService.Service.Finish | internal/weather/service.go:71-81 | The flight leaves the group and its outcome reaches all waiters. |
| CacheService.Service.Perform | internal/weather/service.go:54-135 | Any one step keeps the object valid and is that step of the protocol. |
| CacheService.Service.Drive | internal/weather/service.go:54-135 | Under any interleaving the object goes through the states of the run and stays valid. |
| EntityTags.OneByteChangesHash | internal/weather/handler.go:121-125 | Bodies of equal length that differ in one byte have different FNV-1a hashes. |
| EntityTags.SuffixCancels | internal/weather/handler.go:121-125 | Hashing a common suffix neither creates nor removes a collision. |
| EntityTags.XorIsBitwise | internal/weather/handler.go:121-125 | The exclusive or in the hash sets a bit if and only if it is set in exactly one of the operands. |
| EntityTags.PublishedVectors | internal/weather/handler.go:121-125 | The hash of the empty body and of the letter a are those published for 64-bit FNV-1a. |
| EntityTags.WeakETag | internal/weather/handler.go:121-125 | The loop emits W/ and the hash in hexadecimal, in quotes, which is the text of the weak tag. |
| EntityTags.TagsAreHashes | internal/weather/handler.go:121-125 | Two bodies have weakly equal tags exactly when their hashes are equal. |
| EntityTags.TagOfIsCommaFree | internal/weather/handler.go:121-125 | The server's own tag is a valid entity tag without a comma. |
| EntityTags.MatchesETag | internal/weather/handler.go:127-143 | The loop accepts a lone star, or any piece between commas that strips to the wanted tag. |
| EntityTags.ListDecided | internal/weather/handler.go:127-143 | For every well-formed list (section 13.1.2 of RFC 9110), empty elements and tags with commas included, that is the weak comparison with each listed tag. |
| EntityTags.CommaSplitIsExact | internal/weather/handler.go:137-141 | Cutting at commas agrees with the grammar on all lists if and only if the server's own tag has no comma. |
| EntityTags.StarCoversAll | internal/weather/handler.go:133-135 | The other form of the field, a lone star, covers every tag, with any white space around it. |
| WeatherHandler.GetWeather | internal/weather/handler.go:54-101 | Status, Cache-Control, ETag and body for every outcome; 304 exactly when If-None-Match covers the tag. |
| WeatherHandler.MaxAgeEndsBeforeExpiry | internal/weather/handler.go:82-88 | max-age is sent exactly before the expiry, and is the largest number of whole seconds that does not pass it. |
| WeatherHandler.FreshnessIsHonest | internal/weather/handler.go:82-88 | In every run stale answers are sent as no-cache to leader and joiners, and max-age never passes the expiry that the upstream gave to the very body served. |
| WeatherHandler.NotModifiedIffSameHash | internal/weather/handler.go:90-96 | A client presenting only the old body's tag gets 304 exactly when both bodies have the same hash. |
| WeatherHandler.OneByteIsEnough | internal/weather/handler.go:90-96 | A single changed byte always gets the new body across. |
| Forecast.MarkerIsLastEnd | caddy/html/forecast.mjs:61-68 | The marker always shows the end of the last counted block. |
| Forecast.OverlapOnlyByHourly | caddy/html/forecast.mjs:61-68 | Whatever the series, only one-hour blocks that start inside a counted block make the walk count an hour twice. |
| Forecast.OverlapOnGrid | caddy/html/forecast.mjs:41-68 | On a grid nothing is counted twice if and only if every one-hour block starts at least six hours after each six-hour-only entry before it. |
| Forecast.GridCountsAll | caddy/html/forecast.mjs:61-68 | On a grid every block there is is counted. |
| Forecast.ClearGapsSuffice | caddy/html/forecast.mjs:61-68 | On any series it is enough that one-hour blocks start after the longest block of every earlier entry. |
| Forecast.UpstreamShapeIsDisjoint | caddy/html/forecast.mjs:41-68 | With hourly steps first and six-hour blocks after them, nothing is counted twice. |
| Forecast.MixedSeriesCountsTwice | caddy/html/forecast.mjs:61-68 | A series on which an hour is counted twice. |
| Forecast.SkippedStartsInsideCounted | caddy/html/forecast.mjs:65-68 | A skipped six-hour block starts inside a counted one, and on disjoint series only such blocks are skipped. |
| Forecast.BeforeEpochIsSkipped | caddy/html/forecast.mjs:49-65 | As the marker starts at zero, six-hour blocks before 1970 are skipped. |
| Forecast.ExactlyOnce | caddy/html/forecast.mjs:41-47 | On a series of the upstream's shape nothing is counted twice, and no instant with rain given for it is lost if and only if counting resumes at the marker after each skipped block. |
| Forecast.GridLosesNothing | caddy/html/forecast.mjs:41-47 | On a grid no instant with rain given for it is lost. |
| Forecast.HoursCanBeLost | caddy/html/forecast.mjs:61-68 | A six-hour series on which an hour with rain given for it is never counted. |
| Forecast.WalkIsOptimal | caddy/html/forecast.mjs:51-68 | On six-hour series no choice of non-overlapping blocks is larger than the walk's. |
| Forecast.WalkIsAChoice | caddy/html/forecast.mjs:51-68 | The walk's own blocks are such a choice, of exactly that size. |
| ForecastDays.ProcessData | caddy/html/forecast.mjs:48-125 | On display is exactly every day with two samples or more, once, with all its slots and the nearest tenth of its total over the series (next-hour amounts where given, else counted six-hour amounts); unrounded totals and the rain left out add up to the sum over the whole series; and the index of today. |
| ForecastDays.FileByDay | caddy/html/forecast.mjs:48-86 | The loop files each entry, with the block counted for it, under its local day, in order. |
| ForecastDays.CountBlock | caddy/html/forecast.mjs:61-68 | The branches on the two block lengths are one step of the walk. |
| ForecastDays.Summarise | caddy/html/forecast.mjs:88-119 | A day is pushed exactly when its key is listed, it holds all the samples of the key, at least two, and shows their rounded total. |
| ForecastDays.DisplayIsComplete | caddy/html/forecast.mjs:88-119 | Over the whole series: every day with two samples or more is on display, once, and no other. |
| ForecastDays.RoundTenthIsNearest | caddy/html/forecast.mjs:111 | A displayed total is the nearest whole number of tenths, ties going up. |
| ForecastDays.FindDay | caddy/html/forecast.mjs:121-123 | The position of today among the days shown, or 0. |
| ForecastDays.DayOrderListsDays | caddy/html/forecast.mjs:48-54 | Every local day of the series is listed, once. |
| ForecastDays.SlotsComeInOrder | caddy/html/forecast.mjs:74-85 | The slots of a day lie on that day, in time order. |
| ForecastDays.AllDaysPartition | caddy/html/forecast.mjs:48-86 | In any zone the days together hold the slot of every entry exactly once, and rain that adds up to the amounts of the series. |
| ForecastDays.RainIsConserved | caddy/html/forecast.mjs:88-96 | Unrounded totals of the days returned and of the one-sample days left out add up to the amounts of the series. |
| ForecastDays.ZonesAgree | caddy/html/forecast.mjs:41-47 | Which blocks count, and their total, are the same in every zone. |
| ForecastDays.RainIsTotal | caddy/html/forecast.mjs:96 | The rain filed under a day is the sum of the amounts of its entries: next-hour amounts where given, else counted six-hour amounts. |
| ForecastDays.CountedIsTotal | caddy/html/forecast.mjs:61-68 | All rain that the walk counts is the sum of the amounts of the entries. |
| ForecastDays.ShownTotal | caddy/html/forecast.mjs:96-111 | A displayed total is the nearest tenth of the sum over the entries of that day. |
| ForecastDisplay.BlockCountsIff | caddy/html/forecast.mjs:61-68 | A next-hour amount always counts; a six-hour amount if and only if it is all there is and the last counted block, of 3600000 or 21600000 milliseconds, has ended. |
| ForecastDisplay.SlotsAreEntries | caddy/html/forecast.mjs:48-86 | A day's samples are the entries on that day, each with its local hour and the rain and length of the block counted for it. |
| ForecastDisplay.ShownIffTwoSamples | caddy/html/forecast.mjs:89-90 | A day is on display if and only if the series has two samples on it. |
| ForecastDisplay.DisplayAscends | caddy/html/forecast.mjs:48-89 | The days come in the order of their first samples. |
| LikePattern.NamePatternIsSubstring | internal/city/pgx_repository.go:49-50 | The pattern `%q%` accepts a name exactly when the query is a case-folded substring of it, for every query. |
| LikePattern.AliasPatternIsRun | internal/city/pgx_repository.go:51-52 | The comma-wrapped pattern accepts exactly when the query's elements are consecutive elements of the alias list. |
| LikePattern.AliasIsWholeElement | internal/city/pgx_repository.go:41-42 | For a query without comma: exactly when it equals one whole alias, up to case. |
| LikePattern.PatternsAreWellFormed | internal/city/pgx_repository.go:78-80 | No query makes a pattern that ends in a lone escape character. |
| LikePattern.LikeEscaped | internal/city/pgx_repository.go:78-80 | Escaped text matches itself and nothing else, in front of any pattern. |
| CitySearch.MatchesMeans | internal/city/pgx_repository.go:46-55 | The WHERE clause is: similar, contained in a name, or an alias, for populated places only. |
| PlaceCodes.CurrentPlaces | internal/city/pgx_repository.go:55 | Which feature codes are current populated places, in the search and in the importer. |
| CitySearch.JoinKeepsPlaces | migrations/004_country_codes.up.sql:7 | As alpha_2 is unique, the country join yields exactly one row per match. |
| CitySearch.RankingExists | internal/city/pgx_repository.go:69-74 | There always is a complete listing in the requested order. |
| CitySearch.RankingIsUnique | internal/city/pgx_repository.go:69-74 | geonameid breaks every tie, so there is only one. |
| CitySearch.ListingHasMatches | internal/city/pgx_repository.go:46-74 | It holds every matching place exactly once, exact matches first. |
| CitySearch.PagesConcatenate | internal/city/pgx_repository.go:75-83 | The first pages of any limit, put together, are a prefix of the ranking. |
| CitySearch.Search | internal/city/pgx_repository.go:82-116 | The page as scanned, column by column and in order, with the last total seen; an error exactly when a column without COALESCE is NULL. The query gets the escaped text, the offset (page - 1) * limit and the cap 1000. |
| CitySearch.PageIsSliceOfRanking | internal/city/pgx_repository.go:66-83 | A page is the slice of the one ranking and reports min(matches, 1000); it is empty exactly beyond the last match. |
| CitySearch.PagesPartitionRanking | internal/city/pgx_repository.go:69-83 | Enough pages, each from an execution of its own, put together are the whole ranking, with the capped count on every row. |
| CityRanking.ExactMeans | internal/city/pgx_repository.go:40-42 | An exact match is the whole name, the whole ASCII name or a run of whole aliases, up to case. |
| CityRanking.ListingNamesCountries | internal/city/pgx_repository.go:65-68 | Each row names the country with the place's code, and none if there is none. |
| CityRanking.ListingIsOrdered | internal/city/pgx_repository.go:69-74 | Of any two rows of any listing the first is exact if the second is; equally exact, it has no lower score; equally scored, no smaller population (NULL as 0); then no later name; then no larger id. |
| CityRanking.RankingIsOrdered | internal/city/pgx_repository.go:69-74 | The same for the ranking, in terms of the query: whole names or runs of whole aliases are exact, and on equal names the ids ascend strictly. |
| CityRanking.PageShows | internal/city/pgx_repository.go:57-83 | Row i of a page shows row (page - 1) * limit + i of the ranking: the columns of a matching place, its country's name, and min(matches, 1000). |
| CityRanking.PagesAreOrdered | internal/city/pgx_repository.go:57-76 | Any two rows of any two pages show matching places of the table in that order: exact names and aliases first, then relevance, population, name and id. |
| GeoNamesReader.CheckLine | scripts/refresh_geonames.py:29-50 | A line passes exactly when it has 19 fields and the country and, if it is a place, a positive id of its own, coordinates in range, a name, a time zone, integers or nothing in the three number columns, no negative population, and a date. |
| GeoNamesReader.ReadPlaces | scripts/refresh_geonames.py:24-53 | Either all lines are acceptable and the result is exactly the places by ascending id, or the first bad line is reported, or there is no place. |
| GeoNamesReader.InOrder | scripts/refresh_geonames.py:53 | The dictionary's rows in ascending order of their ids. |
| GeoNamesReader.FieldsAreBetweenTabs | scripts/refresh_geonames.py:29 | The fields are what tabs separate in the line without the carriage returns and line feeds that end it. |
| GeoNamesSql.WriteMigration | scripts/refresh_geonames.py:64-77 | The batch loop writes the script that the round trip is about. |
| GeoNamesSql.Batches | scripts/refresh_geonames.py:72-74 | Every statement holds 1 to 500 rows, and all but the last hold 500. |
| GeoNamesUpsert.FrameMeans | scripts/refresh_geonames.py:71-76 | The same for any two or more column names. |
| GeoNamesUpsert.MigrationMeans | scripts/refresh_geonames.py:70-77 | Reading the text that is written around the rows gives: these 19 columns into public.all_countries, on a conflict of geonameid every other column set from its incoming value, if the stored date is NULL or the incoming one is at least it. |
| GeoNamesExecution.FieldsGoToColumns | scripts/refresh_geonames.py:17-19 | Each of the 19 fields ends up in the column of its name. |
| GeoNamesExecution.GuardMeans | scripts/refresh_geonames.py:76 | The condition as read, in three-valued logic, is true if and only if the stored date is NULL or not after the incoming one. |
| GeoNamesExecution.ExecuteUpserts | scripts/refresh_geonames.py:71-76 | Executing the statement that is written, on any row and any table: a row that cannot be inserted is refused, a new id is inserted, and a stored row is replaced as a whole unless the condition fails. |
| GeoNamesRoundTrip.ReadText | scripts/refresh_geonames.py:61 | Any text without U+0000, with any quotes and backslashes, is read back intact from its escape string (section 4.1.2.2 of the PostgreSQL 16 documentation); with it the string is refused. |
| GeoNamesRoundTrip.ReadPrintedCell | scripts/refresh_geonames.py:56-61 | An empty field is read back as NULL, any other as the value it stands for, and only a text with U+0000 not at all. |
| GeoNamesRoundTrip.ScriptRoundTrip | scripts/refresh_geonames.py:64-77 | Reading the whole script gives back all rows, in order, in their batches, if and only if no text field holds U+0000. |
| GeoNamesRoundTrip.ValidationAllowsNul | scripts/refresh_geonames.py:29-50 | Any valid place stays valid, and becomes unreadable, under the name U+0000. |
| GeoNamesRoundTrip.BatchesFlatten | scripts/refresh_geonames.py:72-74 | Batching loses, adds and moves nothing. |
| GeoNamesRoundTrip.MigrationFrameIsUsable | scripts/refresh_geonames.py:70-77 | The text around the rows can be told apart from them. |
| GeoNamesRoundTrip.ValidatedFieldsAreKept | scripts/refresh_geonames.py:37-60 | In a validated row only empty fields become NULL; columns 4 and 5 hold the floats, 0, 14, 15 and 16 the integers, all others the texts. |
| GeoNamesRoundTrip.IntsAreDecimal | scripts/refresh_geonames.py:60 | Integers are printed and read in base ten. |
| GeoNamesRoundTrip.IdsAscend | scripts/refresh_geonames.py:37-53 | Ids ascend over the whole script, so none appears twice, and every row has its date. |
| GeoNamesReplay.StatementMerges | scripts/refresh_geonames.py:71-76 | With distinct ids and rows PostgreSQL accepts, executing the statement that is written never affects a row twice, and does what upserting row by row does. |
| GeoNamesReplay.StatementsRefuse | scripts/refresh_geonames.py:72-76 | One row with a date or value PostgreSQL does not accept fails the file, in whichever batch it is. |
| GeoNamesReplay.MigrationIsSound | scripts/refresh_geonames.py:70-77 | The results below hold for the text that the generator writes: its parts can be told apart and are read as meant. |
| GeoNamesReplay.FileRunsAs | Dockerfile.migrations:6 | A generated file runs, and does what upserting its rows one by one does, if and only if its texts have no U+0000 and PostgreSQL accepts its dates and values. |
| GeoNamesReplay.MigrateMerges | Dockerfile.migrations:6 | psql gets through all generated files if and only if that holds for each, and stops at the first where it does not; up to there the files do what upserting all rows in order does. |
| GeoNamesReplay.MergeSettles | scripts/refresh_geonames.py:75-76 | The exact effect on each row: the last of the latest-dated incoming rows, unless the stored one is newer. |
| GeoNamesReplay.WinnerIsLatest | scripts/refresh_geonames.py:75-76 | That row has the latest date and is the last one having it. |
| GeoNamesReplay.ReplayIsFirstRun | Makefile:28-33 | Replaying all files after some were added, on a table that had the earlier ones, is the same as a first run, also when a file fails. |
| GeoNamesReplay.ReplayTwiceIsOnce | README.md:245-247 | Applying the whole list of refreshes twice is applying it once, whatever the table held. |
| GeoNamesReplay.ReplaySettles | README.md:245-247 | What a replay makes of each row in terms of the rows for its id that reach the table. |
| GeoNamesReplay.LatestRowStands | README.md:245-247 | After a replay a row is untouched if no incoming row has its id or its date is later than theirs; otherwise the last of those with the latest date has replaced it. |
| GeoNamesReplay.DatesNeverGoBack | README.md:246 | No row is lost and no modification date decreases. |
| GeoNamesReplay.AbsentIdsAreUntouched | README.md:253 | Ids absent from every extract are untouched. |
| ClientIp.ForwardedFor | internal/server/clientip.go:36-65 | Nothing for a count of zero or below, or without hops; otherwise the hop that many from the right, or the leftmost of fewer, if it is an address, and else nothing. |
| ClientIp.Select | internal/server/clientip.go:53-64 | The index arithmetic picks that hop. |
| ClientIp.Flatten | internal/server/clientip.go:43-52 | The nested loops collect the trimmed, non-empty pieces of all header lines in order. |
| ClientIp.Request.RewriteRemoteAddr | internal/server/clientip.go:23-34 | The peer address is replaced exactly when there is a trusted hop that is an address, and never for a count of zero or below. |
| ClientIp.ForwardAddsAHop | internal/server/clientip.go:43-52 | A proxy that adds an address in a line of its own, after a comma, or after joining all lines, with any blanks, adds exactly one hop at the end. |
| ClientIp.ChainAddsHops | internal/server/clientip.go:43-52 | After a chain of proxies the hops are the client's and then one per proxy, whatever the client sent. |
| ClientIp.OutermostTrustedHop | internal/server/clientip.go:13-17 | With as many proxies as are trusted, the chosen hop is the one the outermost trusted proxy appended; shorter chains reach back to earlier hops. |
| ClientIp.HopsAreAddresses | internal/server/clientip.go:43-52 | Every hop is trimmed, not empty and without commas. |
| ClientIp.NoneTrustedNoneTaken | internal/server/clientip.go:13-18 | With no proxy trusted nothing is ever taken from the headers; and whatever is taken is one of the hops and an address. |
| ClientIp.IndependentOfTheClient | internal/server/clientip.go:13-17 | For every count, zero and below included, and any test that some address passes: the address taken does not depend on the client's headers if and only if no fewer proxies append than are trusted. |
| DaySwipe.Swipe.constructor | caddy/html/swipe.mjs:2-3 | Nothing is remembered at first. |
| DaySwipe.Swipe.PointerDown | caddy/html/swipe.mjs:5-10 | A non-primary press forgets, another button is ignored, a primary left press is remembered. |
| DaySwipe.Swipe.PointerMove | caddy/html/swipe.mjs:11-17 | A move of the same pointer that is mainly vertical forgets the press. |
| DaySwipe.Swipe.PointerUp | caddy/html/swipe.mjs:18-26 | A release of the same pointer forgets the press and moves a day if both thresholds are passed. |
| DaySwipe.Swipe.KeyPress | caddy/html/swipe.mjs:29-34 | Arrow keys without modifiers move a day, other keys do nothing. |
| DaySwipe.RemembersLivePress | caddy/html/swipe.mjs:3-28 | What is remembered is exactly the one press that nothing has ended since. |
| DaySwipe.MovesWhenDue | caddy/html/swipe.mjs:18-26 | A release moves a day exactly when a live press of the same pointer has travelled 40 pixels or more, at over 3 to 2 sideways: one day on to the left, one back to the right. |
| DaySwipe.MovesAreDue | caddy/html/swipe.mjs:5-34 | Over every event sequence moveDay is called for those releases and for arrow keys, in order, and for nothing else. |
| DaySwipe.OneMovePerPress | caddy/html/swipe.mjs:18-22 | No press is the start of two swipes and no swipe has two presses. |

## Assumptions

- `FlightVersions`: a 304 means that nothing is newer than the date sent (section 13.1.3 of RFC 9110), a 200
  carries the current version, and each version has its own, later Last-Modified.
- `FlightSafety`: one process; the database and the process share a clock that never runs backwards; a
  write is applied or not.
- `LikePattern`: case folding works per character, fixes the pattern characters and the comma, and maps
  nothing else onto them.
- `GeoNamesRoundTrip`: PostgreSQL reads back every float that Python prints, and Python's parsers reject
  the empty string. PostgreSQL's dates, and the values that fit its columns, are arbitrary.
- `ClientIp`: proxies append well-formed addresses: not empty, trimmed, without commas.

## Left out

- HTTP transport, routing, CORS, rate limits, logging, configuration, shutdown and pool setup.
- Timeouts and cancellation: a flight that times out is a failed reply or a failed write.
- More than one API process on one database: flights are serial within a process only, so versions could go back between processes.
- Floating point: coordinates and rain are reals, with the sign of zero kept; printing of floats is an assumption. `ttl.Seconds()` is exact here.
- CacheService.Service.Fetch: the fields that record versions and bodies are history of the model; no decision reads them.
- CacheService.Service.Lookup: coordinates are parsed already; NaN and infinities, which validation rejects, have no counterpart.
- WeatherHandler.GetWeather: missing and malformed query parameters, and the X-Weather headers and the texts of error bodies, are not modelled.
- EntityTags.MatchesETag: one If-None-Match line; the handler reads only the first.
- The decoding of places in the geocoding client: a place is a byte string, and a reply is well-formed or not. The client cuts a reply off at its cap and may still decode it; here a reply beyond the cap fails.
- ForecastDays.ProcessData: temperatures, wind, pressure, symbols and labels of the day summaries, and the time-zone data; a zone is any function from instants to local days and hours.
- CitySearch.Search: a query that fails as a whole, and an error after the last row, are not modelled.
- GeoNamesSql.WriteMigration: comment lines with attribution, hash and date are not printed.
- GeoNamesUpsert.ReadFrame: reads statements of the form INSERT ... ON CONFLICT DO UPDATE SET ... WHERE with alternatives, not all of SQL; BEGIN, ANALYZE and COMMIT are matched as text.
- GeoNamesExecution.Execute: assignments to the primary key, which the generator never writes, are refused if they change it; texts other than dates are not compared.
- CitySearch.Matched: the SQL of the search is a function, not parsed; its trigram similarity, relevance scores and collation are arbitrary functions, and index choice plays no part.
- GeoNamesRoundTrip.ReadText: octal, hexadecimal and Unicode escapes, which the generator never writes, are not read.
- ZIP reading, downloads and hashing in the generator, and the migrations that are not generated refreshes.
- DaySwipe.Swipe.PointerDown: the request for pointer capture has no effect in the model; only its loss is an event.
- Charts, icons, themes, the search overlay, the landscape and the container files.
