/**
 The stale fallback. A failed upstream is answered from what the leader of the flight had read before
 it entered, so it is the leader's read, not the joiner's, that decides between an old forecast and
 an error.
 */
module FlightFallback {
  import opened Wrappers
  import opened Coordinates
  import opened FlightProtocol
  import opened FlightSafety
  import opened FlightVersions

  /** The report of the flight a request was answered by. */
  function ReportFor(s: State, id: nat): Option<Report> {
    if id in s.requests && s.requests[id].phase.Done? && s.requests[id].phase.via.Some?
       && s.requests[id].phase.via.value in s.reports
    then Some(s.reports[s.requests[id].phase.via.value]) else None
  }

  /** What the leader of that flight had read from the cache. */
  function LeaderRead(s: State, id: nat): Snapshot {
    if ReportFor(s, id).Some? && ReportFor(s, id).value.leader in s.lookups
    then s.lookups[ReportFor(s, id).value.leader].snapshot else None
  }

  /** The request was answered by a flight, and the upstream failed that flight. */
  predicate UpstreamFailed(s: State, id: nat) {
    ReportFor(s, id).Some? && ReportFor(s, id).value.answer.Failed?
  }

  /**
   In every run, an answered request gets the stale row exactly when the upstream failed and the leader
   of its flight had read a row, and an error exactly when the upstream failed and the leader had read
   none. A joiner that has read a row itself is no exception.
   */
  lemma FallbackIsExact(s: State, steps: seq<Step>, id: nat)
    requires Initial(s) && CanRun(s, steps)
    requires id in Run(s, steps).requests && Run(s, steps).requests[id].phase.Done?
    ensures var t := Run(s, steps);
            var o := t.requests[id].phase.outcome;
            && (o.Unavailable? <==> UpstreamFailed(t, id) && LeaderRead(t, id).None?)
            && (IsStale(o) <==> UpstreamFailed(t, id) && LeaderRead(t, id).Some?)
            && (IsStale(o) ==> o.body == LeaderRead(t, id).value.body && o.expires == LeaderRead(t, id).value.expires)
  {
    var t := Run(s, steps);
    InitialIsSound(s, steps);
    assert RequestSound(t, id, t.requests[id]);
    if t.requests[id].phase.via.Some? {
      assert ReportSound(t, t.reports[t.requests[id].phase.via.value]);
    }
  }

  ghost predicate KeepsRead(s: State, t: State, id: nat)
    requires id in s.lookups
  {
    id in t.lookups && t.lookups[id].snapshot == s.lookups[id].snapshot
  }

  lemma CheckKeepsRead(s: State, other: nat, id: nat)
    requires Enabled(s, Check(other)) && RequestSound(s, other, s.requests[other]) && id in s.lookups
    ensures KeepsRead(s, AfterCheck(s, other), id)
  {
  }

  lemma LookupKeepsRead(s: State, other: nat, pos: Pos, readOk: bool, id: nat)
    requires id in s.lookups && other != id
    ensures KeepsRead(s, AfterRead(s, other, pos, readOk), id) && KeepsRead(s, AfterRejection(s, other, pos), id)
  {
  }

  lemma OthersKeepLookups(s: State, step: Step)
    requires Enabled(s, step) && !step.Lookup? && !step.Check?
    ensures Apply(s, step).lookups == s.lookups
  {
    match step
    case Enter(other) => assert AfterEnter(s, other).lookups == s.lookups;
    case Fetch(key, reply) => assert AfterFetch(s, key, reply).lookups == s.lookups;
    case Store(key, writeOk) => assert AfterStore(s, key, writeOk).lookups == s.lookups;
    case Finish(key) => assert AfterFinish(s, key).lookups == s.lookups;
    case Evict(_) =>
    case Tick(_) =>
    case Publish(_, _, _) =>
  }

  lemma ReadStays(s: State, step: Step, id: nat)
    requires ReadsKnown(s) && RequestsSound(s) && Enabled(s, step) && id in s.lookups
    ensures KeepsRead(s, Apply(s, step), id)
  {
    if step.Lookup? {
      LookupKeepsRead(s, step.id, Normalise(step.lat, step.lon, s.policy.decimals), step.readOk, id);
    } else if step.Check? {
      CheckKeepsRead(s, step.id, id);
    } else {
      OthersKeepLookups(s, step);
    }
  }

  lemma {:induction false} ReadIsFinal(s: State, steps: seq<Step>, id: nat)
    requires Inv(s) && CanRun(s, steps) && id in s.lookups
    ensures id in Run(s, steps).lookups && Run(s, steps).lookups[id].snapshot == s.lookups[id].snapshot
    decreases |steps|
  {
    if steps != [] {
      ReadStays(s, steps[0], id);
      StepKeepsInv(s, steps[0]);
      ReadIsFinal(Apply(s, steps[0]), steps[1..], id);
    }
  }

  /** What a caller is said to have read is, ever after, what the table held at its lookup, if the query succeeded. */
  lemma ReadIsWhatTheTableHeld(s: State, id: nat, lat: Degrees, lon: Degrees, readOk: bool, steps: seq<Step>)
    requires Inv(s) && Enabled(s, Lookup(id, lat, lon, readOk)) && InRange(lat, lon)
    requires CanRun(AfterLookup(s, id, lat, lon, readOk), steps)
    ensures var t := Run(AfterLookup(s, id, lat, lon, readOk), steps);
            id in t.lookups && t.lookups[id].snapshot == ReadOf(s, Normalise(lat, lon, s.policy.decimals), readOk)
  {
    LookupKeepsInv(s, id, lat, lon, readOk);
    ReadIsFinal(AfterLookup(s, id, lat, lon, readOk), steps, id);
  }

  // ---- an error although the row is cached ---------------------------------------------------

  /** A flight is answered, stores if it has something to store, and ends. */
  function Concluded(s: State, key: string, reply: Reply): State
    requires key in s.flights
  {
    AfterFinish(AfterStore(AfterFetch(s, key, reply), key, true), key)
  }

  lemma ReachConcluded(w: Setting, s: State, key: string, reply: Reply)
    requires Reached(w, s) && Enabled(s, Fetch(key, reply)) && Conforming(s, Fetch(key, reply))
    ensures Reached(w, Concluded(s, key, reply))
  {
    var fetched := AfterFetch(s, key, reply);
    var stored := AfterStore(fetched, key, true);
    ReachNext(w, s, Fetch(key, reply));
    ReachNext(w, fetched, Store(key, true));
    ReachNext(w, stored, Finish(key));
  }

  const SENT := Reply(200, OLDER.body, true, true, None, Some(OLDER.lastModified))

  /** A row without an expiry, written by caller 0. */
  ghost predicate Cached(s: State, policy: Policy, p: Pos) {
    && s.policy == policy && s.flights == map[] && s.requests.Keys == {0}
    && RowOf(p) in s.rows && s.rows[RowOf(p)].expires == None
  }

  lemma FillCache(w: Setting, p: Pos) returns (t: State)
    requires w.Inhabited() && p in w.zone
    ensures Reached(w, t) && Cached(t, w.policy, p)
  {
    var key := FlightKey(p, w.policy.decimals);
    ReachEmpty(w);
    var led := LeadFlight(w, Empty(w.policy), 0, p, true);
    var published := PublishVersion(w, led, RowOf(p), OLDER);
    ReachConcluded(w, published, key, SENT);
    t := Concluded(published, key, SENT);
    assert AfterFetch(published, key, SENT).flights[key].stage.answer.Fetched?;
  }

  lemma JoinFlight(w: Setting, s: State, id: nat, p: Pos) returns (t: State)
    requires Reached(w, s) && w.Inhabited() && p in w.zone && s.policy == w.policy
    requires id !in s.requests && FlightKey(p, w.policy.decimals) in s.flights
    requires ReadOf(s, p, true).Some? ==> !IsFresh(w.policy, ReadOf(s, p, true).value, s.now)
    ensures Reached(w, t)
    ensures var key := FlightKey(p, w.policy.decimals);
            t == s.(requests := s.requests[id := Request(p, Waiting(key, s.flights[key].id))],
                    lookups := s.lookups[id := CacheRead(ReadOf(s, p, true), Some(s.now))])
  {
    var u := ReadAndMiss(w, s, id, p, true);
    t := AfterEnter(u, id);
    ReachNext(w, u, Enter(id));
    var key := FlightKey(p, w.policy.decimals);
    UpdateTwice(s.requests, id, Request(p, Missed(ReadOf(s, p, true))), Request(p, Waiting(key, s.flights[key].id)));
  }

  /** Without any reply, everyone waiting for a flight whose leader read nothing gets the error; the row stays. */
  lemma NoReplyNoRead(s: State, key: string, id: nat)
    requires key in s.flights && s.flights[key].snapshot.None? && id in s.requests
    requires s.requests[id].phase == Waiting(key, s.flights[key].id)
    ensures var t := Concluded(s, key, NoReply);
            && id in t.requests && t.requests[id].phase == Done(Unavailable, Some(s.flights[key].id))
            && t.rows == s.rows && t.lookups == s.lookups
  {
  }

  /**
   "503 only when the cache is empty" fails for joiners: if the leader's cache query fails, a joiner that
   read the stale row is answered 503 all the same, with the row still in the table. By FallbackIsExact
   this needs a leader that read none.
   */
  lemma ErrorWithRowCached(w: Setting, p: Pos)
    requires w.Inhabited() && p in w.zone && w.policy.expires && w.queriesFail
    ensures exists s, id :: Reached(w, s) && id in s.requests && id in s.lookups
              && s.requests[id].pos == p && s.requests[id].phase.Done? && s.requests[id].phase.outcome.Unavailable?
              && s.lookups[id].snapshot.Some? && RowOf(p) in s.rows
  {
    var key := FlightKey(p, w.policy.decimals);
    var cached := FillCache(w, p);
    var led := LeadFlight(w, cached, 1, p, false);
    var joined := JoinFlight(w, led, 2, p);
    ReachConcluded(w, joined, key, NoReply);
    NoReplyNoRead(joined, key, 2);
    var t := Concluded(joined, key, NoReply);
    assert t.requests[2].pos == p && t.lookups[2].snapshot.Some? && RowOf(p) in t.rows;
  }

  // ---- a fetch, and an error, over a fresh row -----------------------------------------------

  /** The first version, usable until one nanosecond past the start. */
  const TIMELY := SENT.(expires := Some(1))

  /** Caller 0 has filled the cache with a fresh row while caller 1, who read before, has yet to enter. */
  ghost predicate Overtaken(s: State, policy: Policy, p: Pos) {
    && s.policy == policy && s.flights == map[]
    && RowOf(p) in s.rows && s.rows[RowOf(p)].expires.Some? && s.now < s.rows[RowOf(p)].expires.value
    && 1 in s.requests && s.requests[1] == Request(p, Missed(None))
  }

  /** Flight 0 is in the air for caller 0, and caller 1 has read and missed. */
  ghost predicate Overtaking(s: State, policy: Policy, p: Pos, key: string) {
    && s.policy == policy && policy.cap >= 1 && s.now == 0
    && s.flights == map[key := Flight(0, p, 0, None, Fetching)]
    && 1 in s.requests && s.requests[1] == Request(p, Missed(None))
  }

  lemma OvertakingLands(s: State, policy: Policy, p: Pos, key: string)
    requires Overtaking(s, policy, p, key)
    ensures Overtaken(Concluded(s, key, TIMELY), policy, p)
  {
    var fetched := AfterFetch(s, key, TIMELY);
    assert fetched.flights[key].stage.answer == Fetched(OLDER.body, Some(1), Some(OLDER.lastModified));
    var stored := AfterStore(fetched, key, true);
    assert stored.rows[RowOf(p)].expires == Some(1);
    assert AfterFinish(stored, key).flights == map[];
  }

  lemma StartOvertaking(w: Setting, p: Pos) returns (t: State)
    requires w.Inhabited() && p in w.zone
    ensures Reached(w, t) && Overtaking(t, w.policy, p, FlightKey(p, w.policy.decimals))
    ensures PublishedAt(t, RowOf(p)) == [OLDER]
  {
    ReachEmpty(w);
    var second := ReadAndMiss(w, Empty(w.policy), 1, p, true);
    var led := LeadFlight(w, second, 0, p, true);
    t := PublishVersion(w, led, RowOf(p), OLDER);
  }

  lemma Overtake(w: Setting, p: Pos) returns (t: State)
    requires w.Inhabited() && p in w.zone
    ensures Reached(w, t) && Overtaken(t, w.policy, p)
  {
    var key := FlightKey(p, w.policy.decimals);
    var s := StartOvertaking(w, p);
    assert Conforming(s, Fetch(key, TIMELY));
    ReachConcluded(w, s, key, TIMELY);
    OvertakingLands(s, w.policy, p, key);
    t := Concluded(s, key, TIMELY);
  }

  lemma FetchAgain(w: Setting, p: Pos) returns (t: State)
    requires w.Inhabited() && p in w.zone
    ensures Reached(w, t) && t.policy == w.policy
    ensures RowOf(p) in t.rows && t.rows[RowOf(p)].expires.Some? && t.now < t.rows[RowOf(p)].expires.value
    ensures var key := FlightKey(p, w.policy.decimals);
            && Airborne(t, key, RowOf(p), Fetching) && t.flights[key].snapshot == None
            && 1 in t.requests && t.requests[1] == Request(p, Waiting(key, t.flights[key].id))
  {
    var s := Overtake(w, p);
    t := AfterEnter(s, 1);
    ReachNext(w, s, Enter(1));
  }

  /**
   Sharing is limited to flights in the air: a caller that read before a flight stored its row, and enters
   after that flight has ended, fetches again over the fresh row. No query has to fail for that.
   */
  lemma SecondFetchOverFreshRow(w: Setting, p: Pos)
    requires w.Inhabited() && p in w.zone
    ensures exists s, key :: Reached(w, s) && Airborne(s, key, RowOf(p), Fetching)
              && RowOf(p) in s.rows && s.rows[RowOf(p)].expires.Some? && s.now < s.rows[RowOf(p)].expires.value
  {
    var s := FetchAgain(w, p);
    assert Airborne(s, FlightKey(p, w.policy.decimals), RowOf(p), Fetching);
  }

  /** If the upstream fails that second fetch, its caller is answered 503 over a fresh row. */
  lemma ErrorOverFreshRow(w: Setting, p: Pos)
    requires w.Inhabited() && p in w.zone
    ensures exists s, id :: Reached(w, s) && id in s.requests
              && s.requests[id].pos == p && s.requests[id].phase.Done? && s.requests[id].phase.outcome.Unavailable?
              && RowOf(p) in s.rows && s.rows[RowOf(p)].expires.Some? && s.now < s.rows[RowOf(p)].expires.value
  {
    var s := FetchAgain(w, p);
    var key := FlightKey(p, w.policy.decimals);
    ReachConcluded(w, s, key, NoReply);
    NoReplyNoRead(s, key, 1);
    var t := Concluded(s, key, NoReply);
    assert t.requests[1].phase.outcome.Unavailable? && t.rows == s.rows && t.now == s.now;
  }
}
