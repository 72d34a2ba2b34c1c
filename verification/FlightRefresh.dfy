/**
 What a refresh achieves, and when it is repeated: a stored answer is what later callers are served from
 until it expires, and only a row written since a caller's own read can be fresh when that caller fetches.
 */
module FlightRefresh {
  import opened Wrappers
  import opened Coordinates
  import opened FlightProtocol
  import opened FlightSafety
  import opened FlightVersions
  import opened FlightFallback

  // ---- storing -------------------------------------------------------------------------------

  /** The outcome a flight has settled on. */
  function Settled(s: State, key: string): Option<Outcome> {
    if key in s.flights && s.flights[key].stage.Ended? then Some(s.flights[key].stage.outcome) else None
  }

  predicate Refreshes(o: Outcome) {
    o.Served? && !IsStale(o)
  }

  /** Last-Modified goes with the body: as sent with it, or as kept from the row that a 304 confirmed. */
  function KeptLastModified(f: Flight): Option<Time>
    requires f.stage.Answered?
  {
    if f.stage.answer.Fetched? then f.stage.answer.lastModified
    else if f.snapshot.Some? then f.snapshot.value.lastModified
    else None
  }

  /** The row `k` has been refreshed with what `f` reports, and no other row has been touched. */
  ghost predicate Refreshed(s: State, t: State, k: RowKey, f: Flight, o: Outcome)
    requires f.stage.Answered? && o.Served?
  {
    && t.rows.Keys == s.rows.Keys + {k}
    && (forall k' :: k' in s.rows && k' != k ==> t.rows[k'] == s.rows[k'])
    && t.rows[k].body == o.body && t.rows[k].expires == o.expires && t.rows[k].cachedAt == s.now
    && t.rows[k].lastModified == KeptLastModified(f)
    && |WritesTo(t, k)| == |WritesTo(s, k)| + 1
  }

  lemma WriteRefreshes(s: State, t: State, k: RowKey, f: Flight, row: Row)
    requires f.stage.Answered? && RowToWrite(f.snapshot, f.stage.answer, f.stage.version, s.now) == Some(row)
    requires t.rows == s.rows[k := row] && WritesTo(t, k) == WritesTo(s, k) + [row.version]
    ensures var o := FlightOutcome(f.snapshot, f.stage.answer, s.now);
            Refreshes(o) && Refreshed(s, t, k, f, o)
  {
  }

  /**
   After a 200 or a 304 the row holds, if the write succeeds, the very body and expiry that are reported,
   as of now; nothing is written after a failure, and no other row is touched.
   */
  lemma StoreRefreshes(s: State, key: string, writeOk: bool)
    requires Enabled(s, Store(key, writeOk))
    ensures var f, k, t := s.flights[key], RowOf(s.flights[key].pos), AfterStore(s, key, writeOk);
            && Settled(t, key).Some?
            && var o := Settled(t, key).value;
               if Refreshes(o) && writeOk then Refreshed(s, t, k, f, o)
               else t.rows == s.rows && t.writes == s.writes
  {
    var f := s.flights[key];
    var row := RowToWrite(f.snapshot, f.stage.answer, f.stage.version, s.now);
    if row.Some? && writeOk {
      WriteRefreshes(s, AfterStore(s, key, writeOk), RowOf(f.pos), f, row.value);
    }
  }

  // ---- a row that nobody writes --------------------------------------------------------------

  /** Without a write in between, a row is the same or gone. */
  ghost predicate Steady(s: State, t: State, k: RowKey) {
    && |WritesTo(s, k)| <= |WritesTo(t, k)|
    && (|WritesTo(s, k)| == |WritesTo(t, k)| && k in t.rows ==> k in s.rows && t.rows[k] == s.rows[k])
  }

  lemma StoreIsSteady(s: State, key: string, writeOk: bool, k: RowKey)
    requires Enabled(s, Store(key, writeOk))
    ensures Steady(s, AfterStore(s, key, writeOk), k)
  {
    StoreRefreshes(s, key, writeOk);
    if k != RowOf(s.flights[key].pos) {
      WritesElsewhere(s, key, writeOk, k);
    }
  }

  lemma WritesElsewhere(s: State, key: string, writeOk: bool, k: RowKey)
    requires Enabled(s, Store(key, writeOk)) && k != RowOf(s.flights[key].pos)
    ensures WritesTo(AfterStore(s, key, writeOk), k) == WritesTo(s, k)
  {
  }

  ghost predicate SameTable(s: State, t: State) {
    t.rows == s.rows && t.writes == s.writes
  }

  lemma OthersKeepTable(s: State, step: Step)
    requires Enabled(s, step) && !step.Store? && !step.Evict? && !step.Lookup?
    ensures SameTable(s, Apply(s, step))
  {
    match step
    case Check(id) => assert SameTable(s, AfterCheck(s, id));
    case Enter(id) => assert SameTable(s, AfterEnter(s, id));
    case Fetch(key, reply) => assert SameTable(s, AfterFetch(s, key, reply));
    case Finish(key) => assert SameTable(s, AfterFinish(s, key));
    case Tick(_) =>
    case Publish(_, _, _) =>
  }

  lemma LookupKeepsTable(s: State, id: nat, lat: Degrees, lon: Degrees, readOk: bool)
    requires lat.size >= 0.0 && lon.size >= 0.0
    ensures SameTable(s, AfterLookup(s, id, lat, lon, readOk))
  {
  }

  lemma StepIsSteady(s: State, step: Step, k: RowKey)
    requires Enabled(s, step)
    ensures Steady(s, Apply(s, step), k)
  {
    if step.Store? {
      StoreIsSteady(s, step.key, step.writeOk, k);
    } else if step.Lookup? {
      LookupKeepsTable(s, step.id, step.lat, step.lon, step.readOk);
    } else if !step.Evict? {
      OthersKeepTable(s, step);
    }
  }

  lemma {:induction false} RunIsSteady(s: State, steps: seq<Step>, k: RowKey)
    requires CanRun(s, steps)
    ensures Steady(s, Run(s, steps), k)
    decreases |steps|
  {
    if steps != [] {
      StepIsSteady(s, steps[0], k);
      RunIsSteady(Apply(s, steps[0]), steps[1..], k);
    }
  }

  // ---- fetching over a fresh row -------------------------------------------------------------

  /** The request is about to enter the flight group, or leads a flight. */
  ghost predicate Refetches(s: State, id: nat) {
    && id in s.requests
    && (s.requests[id].phase.Missed? || exists key :: key in s.flights && s.flights[key].leader == id)
  }

  lemma RefetchesMissed(s: State, id: nat)
    requires Inv(s) && Refetches(s, id)
    ensures MissedRead(s, id)
  {
    assert RequestSound(s, id, s.requests[id]);
    if !s.requests[id].phase.Missed? {
      var key :| key in s.flights && s.flights[key].leader == id;
      assert FlightSound(s, key, s.flights[key]);
    }
  }

  /**
   The other side of SecondFetchOverFreshRow: a caller is about to fetch, or fetches, while its row is in
   the table and fresh, only if its own cache query failed or the row has been written since.
   */
  lemma FetchOverFreshRow(s: State, id: nat, lat: Degrees, lon: Degrees, readOk: bool, steps: seq<Step>)
    requires Inv(s) && Enabled(s, Lookup(id, lat, lon, readOk)) && InRange(lat, lon)
    requires CanRun(AfterLookup(s, id, lat, lon, readOk), steps)
    requires Refetches(Run(AfterLookup(s, id, lat, lon, readOk), steps), id)
    ensures var t, k := Run(AfterLookup(s, id, lat, lon, readOk), steps), RowOf(Normalise(lat, lon, s.policy.decimals));
            k in t.rows && (t.policy.expires ==> t.rows[k].expires.Some? && t.now < t.rows[k].expires.value) ==>
              !readOk || |WritesTo(t, k)| > |WritesTo(s, k)|
  {
    var u := AfterLookup(s, id, lat, lon, readOk);
    var t, k := Run(u, steps), RowOf(Normalise(lat, lon, s.policy.decimals));
    LookupKeepsTable(s, id, lat, lon, readOk);
    LookupKeepsInv(s, id, lat, lon, readOk);
    RunKeepsInv(u, steps);
    RunIsSteady(u, steps, k);
    ReadIsWhatTheTableHeld(s, id, lat, lon, readOk, steps);
    RefetchesMissed(t, id);
  }

  // ---- serving what was stored ---------------------------------------------------------------

  /** A caller that read the row, and has not been checked yet, is served from it as long as it is fresh. */
  lemma LookedIsServed(s: State, id: nat, row: Row)
    requires Inv(s) && id in s.requests && s.requests[id].phase.Looked? && id in s.lookups
    requires s.lookups[id].snapshot == Some(row) && IsFresh(s.policy, row, s.now)
    ensures AfterCheck(s, id).requests[id].phase == Done(Served(row.body, row.cachedAt, row.expires, FromCache), None)
  {
    assert RequestSound(s, id, s.requests[id]);
  }

  /** From `t`, some steps that leave the row alone, then a lookup by `id`, then more steps without its check. */
  ghost predicate Rereads(t: State, k: RowKey, until: seq<Step>, id: nat, lat: Degrees, lon: Degrees, after: seq<Step>)
  {
    && CanRun(t, until)
    && var u := Run(t, until);
       && k in u.rows && |WritesTo(u, k)| == |WritesTo(t, k)|
       && Enabled(u, Lookup(id, lat, lon, true)) && InRange(lat, lon)
       && RowOf(Normalise(lat, lon, u.policy.decimals)) == k
       && CanRun(AfterLookup(u, id, lat, lon, true), after)
       && var v := Run(AfterLookup(u, id, lat, lon, true), after);
          id in v.requests && v.requests[id].phase.Looked?
  }

  ghost function AtCheck(t: State, k: RowKey, until: seq<Step>, id: nat, lat: Degrees, lon: Degrees,
                         after: seq<Step>): State
    requires Rereads(t, k, until, id, lat, lon, after)
  {
    Run(AfterLookup(Run(t, until), id, lat, lon, true), after)
  }

  lemma RereadsTheRow(t: State, k: RowKey, until: seq<Step>, id: nat, lat: Degrees, lon: Degrees, after: seq<Step>)
    requires Inv(t) && Rereads(t, k, until, id, lat, lon, after)
    ensures var v := AtCheck(t, k, until, id, lat, lon, after);
            && k in t.rows && Inv(v) && v.policy == t.policy
            && id in v.lookups && v.lookups[id].snapshot == Some(t.rows[k])
  {
    var u := Run(t, until);
    RunIsSteady(t, until, k);
    RunKeepsInv(t, until);
    ReadIsWhatTheTableHeld(u, id, lat, lon, true, after);
    LookupKeepsInv(u, id, lat, lon, true);
    RunKeepsInv(AfterLookup(u, id, lat, lon, true), after);
    PolicyIsFixed(t, until);
    PolicyStays(u, Lookup(id, lat, lon, true));
    PolicyIsFixed(AfterLookup(u, id, lat, lon, true), after);
  }

  /**
   What a refresh is for: after a successful write, and with no eviction of the row and no other write to it
   until the lookup, a caller that reads the row and checks it before its expiry is answered, without a
   fetch, with the very body and expiry that the flight has reported.
   */
  lemma RefreshedRowIsServed(s: State, key: string, until: seq<Step>, id: nat, lat: Degrees, lon: Degrees,
                             after: seq<Step>)
    requires Inv(s) && Enabled(s, Store(key, true)) && Refreshes(Settled(AfterStore(s, key, true), key).value)
    requires Rereads(AfterStore(s, key, true), RowOf(s.flights[key].pos), until, id, lat, lon, after)
    ensures var t, k := AfterStore(s, key, true), RowOf(s.flights[key].pos);
            var o, v := Settled(t, key).value, AtCheck(t, k, until, id, lat, lon, after);
            (s.policy.expires ==> o.expires.Some? && v.now < o.expires.value) ==>
              AfterCheck(v, id).requests[id].phase == Done(Served(o.body, s.now, o.expires, FromCache), None)
  {
    var t, k := AfterStore(s, key, true), RowOf(s.flights[key].pos);
    var o, v := Settled(t, key).value, AtCheck(t, k, until, id, lat, lon, after);
    StoreRefreshes(s, key, true);
    StoreKeepsInv(s, key, true);
    PolicyStays(s, Store(key, true));
    RereadsTheRow(t, k, until, id, lat, lon, after);
    if s.policy.expires ==> o.expires.Some? && v.now < o.expires.value {
      LookedIsServed(v, id, t.rows[k]);
    }
  }
}
