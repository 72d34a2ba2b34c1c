/**
 The decisions of the lookup protocol in terms of what callers pass, tables hold, clocks show and the
 upstream sends: which coordinates are turned away and how the others are rounded, which reads are served
 at once, what counts as an answer, and which rows an eviction removes.
 */
module FlightDecisions {
  import opened Wrappers
  import opened Coordinates
  import opened FlightProtocol
  import opened FlightSafety
  import opened FlightVersions
  import opened FlightFallback

  // ---- coordinates ---------------------------------------------------------------------------

  /** The scaled size is rounded to the nearest integer, and a half upwards; the sign is kept. */
  ghost predicate Nearest(a: Axis, d: Degrees, scale: real) {
    && a.negative == d.negative
    && d.size * scale - 0.5 < a.units as real <= d.size * scale + 0.5
  }

  lemma AxisIsNearest(d: Degrees, decimals: nat)
    requires d.size >= 0.0
    ensures Nearest(NormaliseAxis(d, decimals), d, Power10(decimals) as real)
  {
    var x := Scaled(d, decimals) + 0.5;
    assert x.Floor as real <= x < x.Floor as real + 1.0;
  }

  lemma Powers()
    ensures Power10(4) == 10000 && Power10(2) == 100
  {
    assert Power10(1) == 10 && Power10(2) == 100 && Power10(3) == 1000;
  }

  lemma PosIsNearest(policy: Policy, lat: Degrees, lon: Degrees)
    requires lat.size >= 0.0 && lon.size >= 0.0 && (policy == WEATHER || policy == GEOCODE)
    ensures var pos, scale := Normalise(lat, lon, policy.decimals), if policy == WEATHER then 10000.0 else 100.0;
            Nearest(pos.lat, lat, scale) && Nearest(pos.lon, lon, scale)
  {
    Powers();
    AxisIsNearest(lat, policy.decimals);
    AxisIsNearest(lon, policy.decimals);
  }

  /** The table and the flights are as they were, and this is where the request stands. */
  ghost predicate Stands(s: State, t: State, id: nat, pos: Pos, phase: Phase) {
    t.rows == s.rows && t.flights == s.flights && id in t.requests && t.requests[id] == Request(pos, phase)
  }

  lemma ReadStands(s: State, id: nat, pos: Pos, readOk: bool)
    ensures Stands(s, AfterRead(s, id, pos, readOk), id, pos, Looked(ReadOf(s, pos, readOk)))
  {
  }

  lemma RejectionStands(s: State, id: nat, pos: Pos)
    ensures Stands(s, AfterRejection(s, id, pos), id, pos, Done(Rejected, None))
  {
  }

  /**
   Coordinates beyond the poles or the date line are turned away without a cache read. Forecasts are looked
   up for the nearest ten-thousandths of a degree, places for the nearest hundredths.
   */
  lemma LookupIsRounded(s: State, id: nat, lat: Degrees, lon: Degrees, readOk: bool)
    requires Enabled(s, Lookup(id, lat, lon, readOk)) && (s.policy == WEATHER || s.policy == GEOCODE)
    ensures var t, scale := AfterLookup(s, id, lat, lon, readOk), if s.policy == WEATHER then 10000.0 else 100.0;
            id in t.requests
            && var pos := t.requests[id].pos;
            && Nearest(pos.lat, lat, scale) && Nearest(pos.lon, lon, scale)
            && Stands(s, t, id, pos, if lat.size > 90.0 || lon.size > 180.0 then Done(Rejected, None)
                                     else Looked(ReadOf(s, pos, readOk)))
  {
    var pos := Normalise(lat, lon, s.policy.decimals);
    PosIsNearest(s.policy, lat, lon);
    ReadStands(s, id, pos, readOk);
    RejectionStands(s, id, pos);
  }

  // ---- freshness -----------------------------------------------------------------------------

  /** What a checked read has been recorded as stays. */
  lemma {:induction false} CheckIsFinal(s: State, steps: seq<Step>, id: nat)
    requires Inv(s) && CanRun(s, steps) && id in s.lookups && s.lookups[id].checkedAt.Some?
    ensures id in Run(s, steps).lookups && Run(s, steps).lookups[id] == s.lookups[id]
    decreases |steps|
  {
    if steps != [] {
      CheckStays(s, steps[0], id);
      StepKeepsInv(s, steps[0]);
      CheckIsFinal(Apply(s, steps[0]), steps[1..], id);
    }
  }

  lemma CheckStays(s: State, step: Step, id: nat)
    requires Inv(s) && Enabled(s, step) && id in s.lookups && s.lookups[id].checkedAt.Some?
    ensures id in Apply(s, step).lookups && Apply(s, step).lookups[id] == s.lookups[id]
  {
    if step.Check? {
      OtherChecked(s, step.id, id);
    } else if step.Lookup? {
      OtherLookedUp(s, step.id, Normalise(step.lat, step.lon, s.policy.decimals), step.readOk, id);
    } else {
      OthersKeepLookups(s, step);
    }
  }

  lemma OtherChecked(s: State, other: nat, id: nat)
    requires Inv(s) && Enabled(s, Check(other)) && id in s.lookups && s.lookups[id].checkedAt.Some?
    ensures id in AfterCheck(s, other).lookups && AfterCheck(s, other).lookups[id] == s.lookups[id]
  {
    assert RequestSound(s, other, s.requests[other]);
  }

  lemma OtherLookedUp(s: State, other: nat, pos: Pos, readOk: bool, id: nat)
    requires id in s.lookups && other != id
    ensures id in AfterRead(s, other, pos, readOk).lookups && id in AfterRejection(s, other, pos).lookups
    ensures AfterRead(s, other, pos, readOk).lookups[id] == s.lookups[id]
    ensures AfterRejection(s, other, pos).lookups[id] == s.lookups[id]
  {
  }

  /** A request that has not been answered at once never will be: it can only be answered by a flight. */
  ghost predicate ByFlight(s: State, id: nat) {
    && id in s.requests
    && var phase := s.requests[id].phase;
       phase.Missed? || phase.Waiting? || (phase.Done? && phase.via.Some?)
  }

  lemma ByFlightStays(s: State, step: Step, id: nat)
    requires Enabled(s, step) && ByFlight(s, id)
    ensures ByFlight(Apply(s, step), id)
  {
    match step
    case Lookup(other, lat, lon, readOk) => assert Apply(s, step).requests[id] == s.requests[id];
    case Check(other) => assert AfterCheck(s, other).requests[id] == s.requests[id];
    case Enter(other) => EntryByFlight(s, other, id);
    case Fetch(key, reply) => assert AfterFetch(s, key, reply).requests == s.requests;
    case Store(key, writeOk) => assert AfterStore(s, key, writeOk).requests == s.requests;
    case Finish(key) => DeliveryByFlight(s, key, id);
    case Evict(_) =>
    case Tick(_) =>
    case Publish(_, _, _) =>
  }

  lemma EntryByFlight(s: State, other: nat, id: nat)
    requires Enabled(s, Enter(other)) && ByFlight(s, id)
    ensures ByFlight(AfterEnter(s, other), id)
  {
  }

  lemma DeliveryByFlight(s: State, key: string, id: nat)
    requires Enabled(s, Finish(key)) && ByFlight(s, id)
    ensures ByFlight(AfterFinish(s, key), id)
  {
  }

  lemma {:induction false} ByFlightIsFinal(s: State, steps: seq<Step>, id: nat)
    requires CanRun(s, steps) && ByFlight(s, id)
    ensures ByFlight(Run(s, steps), id)
    decreases |steps|
  {
    if steps != [] {
      ByFlightStays(s, steps[0], id);
      ByFlightIsFinal(Apply(s, steps[0]), steps[1..], id);
    }
  }

  /**
   The check decides once and for all: ever after, the request is one answered without a flight if and only
   if it had read a row which, where rows expire, was before its expiry on the clock at the check; the answer
   is then that row's.
   */
  lemma ServedAtOnceIffUnexpired(s: State, id: nat, steps: seq<Step>)
    requires Inv(s) && Enabled(s, Check(id)) && CanRun(Apply(s, Check(id)), steps)
    ensures var t, row := Run(Apply(s, Check(id)), steps), s.requests[id].phase.snapshot;
            && id in t.requests && id in t.lookups && t.lookups[id] == CacheRead(row, Some(s.now))
            && var phase := t.requests[id].phase;
            && (phase.Done? && phase.via.None? <==>
                row.Some? && (s.policy.expires ==> row.value.expires.Some? && s.now < row.value.expires.value))
            && (phase.Done? && phase.via.None? ==>
                  phase.outcome == Served(row.value.body, row.value.cachedAt, row.value.expires, FromCache))
  {
    var u := AfterCheck(s, id);
    CheckKeepsInv(s, id);
    CheckIsFinal(u, steps, id);
    if u.requests[id].phase.Done? {
      DoneIsFinal(u, steps, id);
    } else {
      ByFlightIsFinal(u, steps, id);
    }
  }

  /** The two services: a forecast is served at once before its expiry, a place whenever there is one. */
  lemma ServicesServeAtOnce(s: State, steps: seq<Step>, id: nat)
    requires Initial(s) && CanRun(s, steps) && (s.policy == WEATHER || s.policy == GEOCODE)
    requires id in Run(s, steps).requests && !Run(s, steps).requests[id].phase.Looked?
    ensures var t := Run(s, steps);
            && id in t.lookups && t.lookups[id].checkedAt.Some?
            && var row, at, phase := t.lookups[id].snapshot, t.lookups[id].checkedAt.value, t.requests[id].phase;
               phase.Done? && phase.via.None? && !phase.outcome.Rejected? <==>
               row.Some? && (s.policy == WEATHER ==> row.value.expires.Some? && at < row.value.expires.value)
  {
    FreshHitIsExact(s, steps, id);
  }

  // ---- the reply -----------------------------------------------------------------------------

  /** A flight asks with the Last-Modified date of the row that its leader had read, if there was one with a date. */
  lemma AsksWithLeadersDate(s: State, steps: seq<Step>, key: string)
    requires Initial(s) && CanRun(s, steps) && key in Run(s, steps).flights
    ensures var t := Run(s, steps);
            var f := t.flights[key];
            && f.leader in t.lookups
            && IfModifiedSince(f.snapshot) ==
               if t.lookups[f.leader].snapshot.Some? then t.lookups[f.leader].snapshot.value.lastModified else None
  {
    FetchesAreLedByMisses(s, steps, key);
  }

  /**
   What counts as an answer: a complete and valid 200 of at most 4 MiB for forecasts, and 1 MiB for places;
   and for forecasts also a 304. Everything else is a failure.
   */
  lemma RepliesAreJudged(s: State, key: string, reply: Reply)
    requires Enabled(s, Fetch(key, reply)) && (s.policy == WEATHER || s.policy == GEOCODE)
    ensures var t, cap := Apply(s, Fetch(key, reply)), if s.policy == WEATHER then 4194304 else 1048576;
            && key in t.flights && t.flights[key].stage.Answered?
            && var a := t.flights[key].stage.answer;
            && (a.Fetched? <==> reply.Reply? && reply.status == 200 && reply.complete && reply.wellFormed
                                && |reply.body| <= cap)
            && (a.Fetched? ==> a.body == reply.body && a.expires == reply.expires
                               && a.lastModified == reply.lastModified)
            && (a.NotModified? <==> reply.Reply? && reply.status == 304 && s.policy == WEATHER)
            && (a.NotModified? ==> a.expires == reply.expires)
  {
  }

  lemma OutcomeIsDated(snapshot: Snapshot, answer: Answer, now: Time)
    ensures var o := FlightOutcome(snapshot, answer, now);
            o.Served? ==> if answer.Fetched? then o.cachedAt == now
                          else snapshot.Some? && o.cachedAt == snapshot.value.cachedAt
  {
  }

  lemma StoreEnds(s: State, key: string, writeOk: bool)
    requires Enabled(s, Store(key, writeOk))
    ensures var f, t := s.flights[key], AfterStore(s, key, writeOk);
            key in t.flights
            && t.flights[key].stage == Ended(f.stage.answer, FlightOutcome(f.snapshot, f.stage.answer, s.now))
  {
  }

  /** How old the answer of a flight is said to be: as old as what was read, unless the body has come just now. */
  lemma AnswersAreDated(s: State, key: string, writeOk: bool)
    requires Enabled(s, Store(key, writeOk))
    ensures var f, t := s.flights[key], AfterStore(s, key, writeOk);
            && key in t.flights && t.flights[key].stage.Ended?
            && var o := t.flights[key].stage.outcome;
               o.Served? ==> if f.stage.answer.Fetched? then o.cachedAt == s.now
                             else f.snapshot.Some? && o.cachedAt == f.snapshot.value.cachedAt
  {
    StoreEnds(s, key, writeOk);
    OutcomeIsDated(s.flights[key].snapshot, s.flights[key].stage.answer, s.now);
  }

  // ---- eviction ------------------------------------------------------------------------------

  /** A row stays, as it is, if and only if it was refreshed within the retention period. */
  lemma EvictionIsExact(s: State, retention: int, k: RowKey)
    ensures var t := Apply(s, Evict(retention));
            && (k in t.rows <==> k in s.rows && s.now - s.rows[k].cachedAt <= retention)
            && (k in t.rows ==> t.rows[k] == s.rows[k])
            && t == s.(rows := t.rows)
  {
  }
}
