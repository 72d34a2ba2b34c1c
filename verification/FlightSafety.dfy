/**
 What every run of the lookup protocol keeps, with no assumption about the upstream: one flight per
 key, one report per flight, flights led only by callers that found no fresh row, only valid bodies
 the upstream itself sent for that very row, each with an expiry given to that body, and reports that
 follow from the answer and from what the leader had read.
 */
module FlightSafety {
  import opened Wrappers
  import opened Coordinates
  import opened FlightProtocol

  // ---- the invariant -------------------------------------------------------------------------

  ghost predicate BodyBacked(s: State, k: RowKey, body: Body, expires: Option<Time>) {
    (k, body) in s.bodies && (k, body, expires) in s.stamps
  }

  ghost predicate SnapshotBacked(s: State, k: RowKey, snapshot: Snapshot) {
    snapshot.Some? ==> BodyBacked(s, k, snapshot.value.body, snapshot.value.expires)
  }

  /** The request's own cache read, found missing or expired when it was checked. */
  ghost predicate Missing(s: State, id: nat, snapshot: Snapshot) {
    && id in s.lookups && s.lookups[id].snapshot == snapshot
    && s.lookups[id].checkedAt.Some? && s.lookups[id].checkedAt.value <= s.now
    && (snapshot.Some? ==> !IsFresh(s.policy, snapshot.value, s.lookups[id].checkedAt.value))
  }

  predicate IsStale(o: Outcome) {
    o.Served? && o.source == FromStaleCache
  }

  /** The body and its expiry came from the upstream, and what is called stale has expired. */
  ghost predicate OutcomeSound(s: State, k: RowKey, o: Outcome) {
    && (o.Unbacked? ==> s.policy.expires)
    && (o.Served? ==> BodyBacked(s, k, o.body, o.expires))
    && (IsStale(o) ==> s.policy.expires && (o.expires.None? || o.expires.value <= s.now))
  }

  /** The documented strategy: what may be reported for an answer, given what the leader had read. */
  ghost predicate Strategy(snapshot: Snapshot, answer: Answer, o: Outcome) {
    && !o.Rejected?
    && (o.Unavailable? <==> answer.Failed? && snapshot.None?)
    && (o.Unbacked? <==> answer.NotModified? && snapshot.None?)
    && (IsStale(o) <==> answer.Failed? && snapshot.Some?)
    && (IsStale(o) ==> o.body == snapshot.value.body && o.expires == snapshot.value.expires)
    && (o.Served? && o.source == FromCache <==> answer.NotModified? && snapshot.Some?)
    && (o.Served? && o.source == FromCache ==> o.body == snapshot.value.body && o.expires == answer.expires)
    && (o.Served? && o.source == FromUpstream <==> answer.Fetched?)
    && (o.Served? && o.source == FromUpstream ==> o.body == answer.body && o.expires == answer.expires)
  }

  ghost predicate AnswerBacked(s: State, k: RowKey, snapshot: Snapshot, a: Answer) {
    match a
    case Fetched(body, expires, _) => BodyBacked(s, k, body, expires)
    case NotModified(expires) =>
      s.policy.expires && (snapshot.Some? ==> BodyBacked(s, k, snapshot.value.body, expires))
    case Failed => true
  }

  ghost predicate StageSound(s: State, k: RowKey, snapshot: Snapshot, stage: Stage) {
    match stage
    case Fetching => true
    case Answered(answer, _) => AnswerBacked(s, k, snapshot, answer)
    case Ended(answer, outcome) => OutcomeSound(s, k, outcome) && Strategy(snapshot, answer, outcome)
  }

  ghost predicate FlightSound(s: State, key: string, f: Flight) {
    && key == FlightKey(f.pos, s.policy.decimals)
    && f.id < s.nextFlight && f.id !in s.reports
    && f.leader in s.requests && s.requests[f.leader] == Request(f.pos, Waiting(key, f.id))
    && SnapshotBacked(s, RowOf(f.pos), f.snapshot)
    && Missing(s, f.leader, f.snapshot)
    && StageSound(s, RowOf(f.pos), f.snapshot, f.stage)
  }

  ghost predicate MissedRead(s: State, id: nat) {
    id in s.lookups && Missing(s, id, s.lookups[id].snapshot)
  }

  /** The request was answered from the row it had read, which was fresh when it was checked. */
  ghost predicate FreshHit(s: State, id: nat, o: Outcome) {
    && id in s.lookups && s.lookups[id].snapshot.Some? && s.lookups[id].checkedAt.Some?
    && IsFresh(s.policy, s.lookups[id].snapshot.value, s.lookups[id].checkedAt.value)
    && var row := s.lookups[id].snapshot.value; o == Served(row.body, row.cachedAt, row.expires, FromCache)
  }

  ghost predicate RequestSound(s: State, id: nat, r: Request) {
    match r.phase
    case Looked(snapshot) =>
      SnapshotBacked(s, RowOf(r.pos), snapshot) && id in s.lookups && s.lookups[id] == CacheRead(snapshot, None)
    case Missed(snapshot) => SnapshotBacked(s, RowOf(r.pos), snapshot) && Missing(s, id, snapshot)
    case Waiting(key, flight) =>
      key == FlightKey(r.pos, s.policy.decimals) && key in s.flights && s.flights[key].id == flight && MissedRead(s, id)
    case Done(outcome, via) =>
      && OutcomeSound(s, RowOf(r.pos), outcome)
      && (via.None? ==> FreshHit(s, id, outcome) || (outcome.Rejected? && MissedRead(s, id)))
      && (via.Some? ==> via.value in s.reports && s.reports[via.value].outcome == outcome && MissedRead(s, id))
  }

  ghost predicate ReportSound(s: State, r: Report) {
    && r.leader in s.lookups
    && Missing(s, r.leader, s.lookups[r.leader].snapshot)
    && Strategy(s.lookups[r.leader].snapshot, r.answer, r.outcome)
  }

  ghost predicate TableBacked(s: State) {
    forall k :: k in s.rows ==> BodyBacked(s, k, s.rows[k].body, s.rows[k].expires)
  }

  ghost predicate FlightsSound(s: State) {
    forall key :: key in s.flights ==> FlightSound(s, key, s.flights[key])
  }

  ghost predicate FlightIdsUnique(s: State) {
    forall key, key' :: key in s.flights && key' in s.flights && s.flights[key].id == s.flights[key'].id ==> key == key'
  }

  ghost predicate RequestsSound(s: State) {
    forall id :: id in s.requests ==> RequestSound(s, id, s.requests[id])
  }

  ghost predicate ReportsSound(s: State) {
    forall id :: id in s.reports ==> id < s.nextFlight && ReportSound(s, s.reports[id])
  }

  ghost predicate ReadsKnown(s: State) {
    forall id :: id in s.lookups <==> id in s.requests
  }

  ghost predicate Inv(s: State) {
    && TableBacked(s) && FlightsSound(s) && FlightIdsUnique(s) && RequestsSound(s) && ReportsSound(s) && ReadsKnown(s)
  }

  /** A process just started: nothing in flight, and a table holding only what the upstream sent. */
  ghost predicate Initial(s: State) {
    s.requests == map[] && s.flights == map[] && s.lookups == map[] && s.reports == map[] && TableBacked(s)
  }

  // ---- what carries over from one state to a later one ---------------------------------------

  /** Histories and clock only grow; a read that has been checked is final. */
  ghost predicate Extends(s: State, t: State) {
    && t.policy == s.policy && s.now <= t.now && s.nextFlight <= t.nextFlight
    && s.bodies <= t.bodies && s.stamps <= t.stamps
    && (forall id :: id in s.reports ==> id in t.reports && t.reports[id] == s.reports[id])
    && (forall id :: id in s.lookups && s.lookups[id].checkedAt.Some? ==>
          id in t.lookups && t.lookups[id] == s.lookups[id])
  }

  lemma TableCarries(s: State, t: State)
    requires TableBacked(s) && Extends(s, t) && t.rows == s.rows
    ensures TableBacked(t)
  {
    forall k | k in t.rows ensures BodyBacked(t, k, t.rows[k].body, t.rows[k].expires) {
      assert BodyBacked(s, k, s.rows[k].body, s.rows[k].expires);
    }
  }

  lemma FlightCarries(s: State, t: State, key: string, f: Flight)
    requires FlightSound(s, key, f) && Extends(s, t)
    requires f.id !in t.reports && f.leader in t.requests && t.requests[f.leader] == s.requests[f.leader]
    ensures FlightSound(t, key, f)
  {
  }

  lemma Restaged(t: State, key: string, f: Flight, stage: Stage)
    requires FlightSound(t, key, f) && StageSound(t, RowOf(f.pos), f.snapshot, stage)
    ensures FlightSound(t, key, f.(stage := stage))
  {
  }

  lemma RequestCarries(s: State, t: State, id: nat, r: Request)
    requires RequestSound(s, id, r) && Extends(s, t)
    requires r.phase.Looked? ==> id in t.lookups && t.lookups[id] == s.lookups[id]
    requires r.phase.Waiting? ==> r.phase.key in t.flights && t.flights[r.phase.key].id == r.phase.flight
    ensures RequestSound(t, id, r)
  {
  }

  lemma ReportCarries(s: State, t: State, r: Report)
    requires ReportSound(s, r) && Extends(s, t)
    ensures ReportSound(t, r)
  {
  }

  lemma ReportsCarry(s: State, t: State)
    requires ReportsSound(s) && Extends(s, t) && t.reports == s.reports
    ensures ReportsSound(t)
  {
    forall id | id in t.reports ensures id < t.nextFlight && ReportSound(t, t.reports[id]) {
      assert ReportSound(s, s.reports[id]);
      ReportCarries(s, t, s.reports[id]);
    }
  }

  ghost predicate SameFlightIds(s: State, t: State) {
    && (forall key :: key in s.flights ==> key in t.flights && t.flights[key].id == s.flights[key].id)
    && (forall key :: key in t.flights ==> key in s.flights)
  }

  /** Everyone whose request is the same and whose flights are still there. */
  lemma RequestsCarry(s: State, t: State)
    requires RequestsSound(s) && Extends(s, t) && t.requests == s.requests && t.lookups == s.lookups
    requires SameFlightIds(s, t)
    ensures RequestsSound(t)
  {
    forall id | id in t.requests ensures RequestSound(t, id, t.requests[id]) {
      assert RequestSound(s, id, s.requests[id]);
      RequestCarries(s, t, id, s.requests[id]);
    }
  }

  lemma FlightsCarry(s: State, t: State)
    requires FlightsSound(s) && Extends(s, t) && t.flights == s.flights && t.reports == s.reports
    requires forall id :: id in s.requests && s.requests[id].phase.Waiting? ==>
               id in t.requests && t.requests[id] == s.requests[id]
    ensures FlightsSound(t)
  {
    forall key | key in t.flights ensures FlightSound(t, key, t.flights[key]) {
      assert FlightSound(s, key, s.flights[key]);
      FlightCarries(s, t, key, s.flights[key]);
    }
  }

  /** A request waiting for a flight reads the very row the flight refreshes. */
  lemma SameFlightSameRow(s: State, key: string, id: nat, r: Request)
    requires FlightsSound(s) && key in s.flights && RequestSound(s, id, r)
    ensures r.phase.Waiting? && r.phase.key == key ==> RowOf(r.pos) == RowOf(s.flights[key].pos)
  {
    assert FlightSound(s, key, s.flights[key]);
    FlightsVersusRows(r.pos, s.flights[key].pos, s.policy.decimals);
  }

  // ---- the invariant is kept -----------------------------------------------------------------

  ghost predicate ReadsOnly(s: State, t: State, id: nat) {
    && id in t.lookups
    && (forall id' :: id' in s.lookups && id' != id ==> id' in t.lookups && t.lookups[id'] == s.lookups[id'])
    && (forall id' :: id' in t.lookups && id' != id ==> id' in s.lookups)
  }

  /** Steps that touch a single request which is not waiting. */
  lemma RequestStepKeepsInv(s: State, t: State, id: nat)
    requires Inv(s) && Extends(s, t)
    requires id in t.requests && RequestSound(t, id, t.requests[id]) && ReadsOnly(s, t, id)
    requires id in s.requests ==> !s.requests[id].phase.Waiting?
    requires t == s.(requests := s.requests[id := t.requests[id]], lookups := t.lookups)
    ensures Inv(t)
  {
    TableCarries(s, t);
    ReportsCarry(s, t);
    FlightsCarry(s, t);
    forall id' | id' in t.requests ensures RequestSound(t, id', t.requests[id']) {
      if id' != id {
        assert RequestSound(s, id', s.requests[id']);
        RequestCarries(s, t, id', s.requests[id']);
      }
    }
  }

  lemma ReadKeepsInv(s: State, id: nat, pos: Pos, readOk: bool)
    requires Inv(s) && id !in s.requests
    ensures Inv(AfterRead(s, id, pos, readOk))
  {
    if RowOf(pos) in s.rows {
      assert BodyBacked(s, RowOf(pos), s.rows[RowOf(pos)].body, s.rows[RowOf(pos)].expires);
    }
    RequestStepKeepsInv(s, AfterRead(s, id, pos, readOk), id);
  }

  lemma RejectionKeepsInv(s: State, id: nat, pos: Pos)
    requires Inv(s) && id !in s.requests
    ensures Inv(AfterRejection(s, id, pos))
  {
    RequestStepKeepsInv(s, AfterRejection(s, id, pos), id);
  }

  lemma LookupKeepsInv(s: State, id: nat, lat: Degrees, lon: Degrees, readOk: bool)
    requires Inv(s) && Enabled(s, Lookup(id, lat, lon, readOk))
    ensures Inv(AfterLookup(s, id, lat, lon, readOk))
  {
    var pos := Normalise(lat, lon, s.policy.decimals);
    if InRange(lat, lon) {
      ReadKeepsInv(s, id, pos, readOk);
    } else {
      RejectionKeepsInv(s, id, pos);
    }
  }

  lemma CheckKeepsInv(s: State, id: nat)
    requires Inv(s) && Enabled(s, Check(id))
    ensures Inv(AfterCheck(s, id))
  {
    assert RequestSound(s, id, s.requests[id]);
    RequestStepKeepsInv(s, AfterCheck(s, id), id);
  }

  lemma EnterKeepsInv(s: State, id: nat)
    requires Inv(s) && Enabled(s, Enter(id))
    ensures Inv(AfterEnter(s, id))
  {
    assert RequestSound(s, id, s.requests[id]);
    if FlightKey(s.requests[id].pos, s.policy.decimals) in s.flights {
      RequestStepKeepsInv(s, AfterEnter(s, id), id);
    } else {
      LeadKeepsInv(s, id);
    }
  }

  ghost predicate Leads(s: State, id: nat) {
    Enabled(s, Enter(id)) && FlightKey(s.requests[id].pos, s.policy.decimals) !in s.flights
  }

  lemma NewFlightSound(s: State, id: nat)
    requires Inv(s) && Leads(s, id)
    ensures var key := FlightKey(s.requests[id].pos, s.policy.decimals);
            var t := AfterEnter(s, id);
            key in t.flights && FlightSound(t, key, t.flights[key])
  {
    assert RequestSound(s, id, s.requests[id]);
  }

  lemma OldFlightsSound(s: State, id: nat, key: string)
    requires Inv(s) && Leads(s, id) && key in s.flights
    ensures var t := AfterEnter(s, id);
            key in t.flights && t.flights[key] == s.flights[key] && FlightSound(t, key, s.flights[key])
    ensures s.flights[key].id < s.nextFlight
  {
    var t := AfterEnter(s, id);
    assert FlightSound(s, key, s.flights[key]);
    FlightCarries(s, t, key, s.flights[key]);
  }

  lemma LeadKeepsFlights(s: State, id: nat)
    requires Inv(s) && Leads(s, id)
    ensures FlightsSound(AfterEnter(s, id)) && FlightIdsUnique(AfterEnter(s, id))
  {
    var t := AfterEnter(s, id);
    NewFlightSound(s, id);
    forall key | key in s.flights
      ensures FlightSound(t, key, t.flights[key])
      ensures t.flights[key] == s.flights[key] && s.flights[key].id < s.nextFlight
    {
      OldFlightsSound(s, id, key);
    }
  }

  lemma LeadKeepsRequests(s: State, id: nat)
    requires Inv(s) && Leads(s, id)
    ensures RequestsSound(AfterEnter(s, id))
  {
    var t := AfterEnter(s, id);
    forall id' | id' in t.requests && id' != id ensures RequestSound(t, id', t.requests[id']) {
      assert RequestSound(s, id', s.requests[id']);
      RequestCarries(s, t, id', s.requests[id']);
    }
    assert RequestSound(t, id, t.requests[id]);
  }

  lemma LeadKeepsInv(s: State, id: nat)
    requires Inv(s) && Leads(s, id)
    ensures Inv(AfterEnter(s, id))
  {
    TableCarries(s, AfterEnter(s, id));
    ReportsCarry(s, AfterEnter(s, id));
    LeadKeepsFlights(s, id);
    LeadKeepsRequests(s, id);
  }

  lemma RestagedFlightsSound(s: State, t: State, key: string, stage: Stage)
    requires FlightsSound(s) && Extends(s, t) && key in s.flights
    requires t.requests == s.requests && t.reports == s.reports
    requires t.flights == s.flights[key := s.flights[key].(stage := stage)]
    requires StageSound(t, RowOf(s.flights[key].pos), s.flights[key].snapshot, stage)
    ensures FlightsSound(t)
  {
    forall key' | key' in t.flights ensures FlightSound(t, key', t.flights[key']) {
      assert FlightSound(s, key', s.flights[key']);
      FlightCarries(s, t, key', s.flights[key']);
      if key' == key {
        Restaged(t, key, s.flights[key], stage);
      }
    }
  }

  /** Steps that advance a single flight by one stage. */
  lemma StageStepKeepsInv(s: State, t: State, key: string, stage: Stage)
    requires Inv(s) && Extends(s, t) && key in s.flights && t.rows == s.rows
    requires t.requests == s.requests && t.lookups == s.lookups && t.reports == s.reports
    requires t.flights == s.flights[key := s.flights[key].(stage := stage)]
    requires StageSound(t, RowOf(s.flights[key].pos), s.flights[key].snapshot, stage)
    ensures Inv(t)
  {
    RestagedIds(s, t, key, stage);
    TableCarries(s, t);
    ReportsCarry(s, t);
    RequestsCarry(s, t);
    RestagedFlightsSound(s, t, key, stage);
    IdsStayUnique(s, t);
  }

  lemma RestagedIds(s: State, t: State, key: string, stage: Stage)
    requires key in s.flights && t.flights == s.flights[key := s.flights[key].(stage := stage)]
    ensures SameFlightIds(s, t)
  {
  }

  lemma IdsStayUnique(s: State, t: State)
    requires FlightIdsUnique(s)
    requires forall key :: key in t.flights ==> key in s.flights && t.flights[key].id == s.flights[key].id
    ensures FlightIdsUnique(t)
  {
  }

  lemma FetchKeepsInv(s: State, key: string, reply: Reply)
    requires Inv(s) && Enabled(s, Fetch(key, reply))
    ensures Inv(AfterFetch(s, key, reply))
  {
    var t := AfterFetch(s, key, reply);
    assert FlightSound(s, key, s.flights[key]);
    StageStepKeepsInv(s, t, key, t.flights[key].stage);
  }

  /** Whatever a flight decides to report or write stems from the upstream, and follows the strategy. */
  lemma DecisionSound(s: State, key: string)
    requires Inv(s) && Enabled(s, Store(key, true))
    ensures var f := s.flights[key];
            var k, o := RowOf(f.pos), FlightOutcome(f.snapshot, f.stage.answer, s.now);
            && OutcomeSound(s, k, o) && Strategy(f.snapshot, f.stage.answer, o)
            && SnapshotBacked(s, k, RowToWrite(f.snapshot, f.stage.answer, f.stage.version, s.now))
  {
    assert FlightSound(s, key, s.flights[key]);
  }

  lemma WritingKeepsInv(s: State, k: RowKey, row: Row)
    requires Inv(s) && BodyBacked(s, k, row.body, row.expires)
    ensures Inv(RowWritten(s, k, row))
  {
    var t := RowWritten(s, k, row);
    ReportsCarry(s, t);
    RequestsCarry(s, t);
    FlightsCarry(s, t);
    forall k' | k' in t.rows ensures BodyBacked(t, k', t.rows[k'].body, t.rows[k'].expires) {
      if k' != k {
        assert BodyBacked(s, k', s.rows[k'].body, s.rows[k'].expires);
      }
    }
  }

  lemma StoreKeepsInv(s: State, key: string, writeOk: bool)
    requires Inv(s) && Enabled(s, Store(key, writeOk))
    ensures Inv(AfterStore(s, key, writeOk))
  {
    var f := s.flights[key];
    var row := RowToWrite(f.snapshot, f.stage.answer, f.stage.version, s.now);
    var ended := FlightEnded(s, key);
    DecisionSound(s, key);
    StageStepKeepsInv(s, ended, key, ended.flights[key].stage);
    if row.Some? && writeOk {
      WritingKeepsInv(ended, RowOf(f.pos), row.value);
    }
  }

  lemma FinishExtends(s: State, key: string)
    requires Inv(s) && Enabled(s, Finish(key))
    ensures Extends(s, AfterFinish(s, key))
  {
    assert FlightSound(s, key, s.flights[key]);
  }

  lemma NewReportSound(s: State, key: string)
    requires Inv(s) && Enabled(s, Finish(key))
    ensures var f := s.flights[key];
            f.id < s.nextFlight && ReportSound(s, Report(f.leader, f.stage.answer, f.stage.outcome))
  {
    assert FlightSound(s, key, s.flights[key]);
  }

  lemma ReportsGrow(s: State, t: State, id: nat, r: Report)
    requires ReportsSound(s) && Extends(s, t) && t.reports == s.reports[id := r]
    requires id < s.nextFlight && ReportSound(s, r)
    ensures ReportsSound(t)
  {
    ReportCarries(s, t, r);
    forall id' | id' in s.reports ensures id' < t.nextFlight && ReportSound(t, s.reports[id']) {
      assert ReportSound(s, s.reports[id']);
      ReportCarries(s, t, s.reports[id']);
    }
  }

  lemma FinishKeepsReports(s: State, key: string)
    requires Inv(s) && Enabled(s, Finish(key))
    ensures ReportsSound(AfterFinish(s, key))
  {
    var f := s.flights[key];
    FinishExtends(s, key);
    NewReportSound(s, key);
    ReportsGrow(s, AfterFinish(s, key), f.id, Report(f.leader, f.stage.answer, f.stage.outcome));
  }

  lemma FinishKeepsRequest(s: State, key: string, id: nat)
    requires Inv(s) && Enabled(s, Finish(key)) && id in s.requests
    ensures id in AfterFinish(s, key).requests
    ensures RequestSound(AfterFinish(s, key), id, AfterFinish(s, key).requests[id])
  {
    var t, f, r := AfterFinish(s, key), s.flights[key], s.requests[id];
    FinishExtends(s, key);
    assert RequestSound(s, id, r) && FlightSound(s, key, f);
    SameFlightSameRow(s, key, id, r);
    if r.phase != Waiting(key, f.id) {
      RequestCarries(s, t, id, r);
    }
  }

  lemma FinishKeepsFlights(s: State, key: string)
    requires Inv(s) && Enabled(s, Finish(key))
    ensures FlightsSound(AfterFinish(s, key)) && FlightIdsUnique(AfterFinish(s, key))
  {
    var t := AfterFinish(s, key);
    FinishExtends(s, key);
    IdsStayUnique(s, t);
    forall key' | key' in t.flights ensures FlightSound(t, key', t.flights[key']) {
      assert FlightSound(s, key', s.flights[key']);
      assert s.flights[key'].id != s.flights[key].id;
      FlightCarries(s, t, key', s.flights[key']);
    }
  }

  lemma FinishKeepsInv(s: State, key: string)
    requires Inv(s) && Enabled(s, Finish(key))
    ensures Inv(AfterFinish(s, key))
  {
    var t := AfterFinish(s, key);
    FinishExtends(s, key);
    TableCarries(s, t);
    FinishKeepsReports(s, key);
    FinishKeepsFlights(s, key);
    forall id | id in t.requests ensures RequestSound(t, id, t.requests[id]) {
      FinishKeepsRequest(s, key, id);
    }
  }

  /** Steps that leave requests and flights alone. */
  lemma QuietStepKeepsInv(s: State, t: State)
    requires Inv(s) && Extends(s, t)
    requires t.flights == s.flights && t.requests == s.requests && t.lookups == s.lookups && t.reports == s.reports
    requires forall k :: k in t.rows ==> k in s.rows && t.rows[k] == s.rows[k]
    ensures Inv(t)
  {
    ReportsCarry(s, t);
    RequestsCarry(s, t);
    FlightsCarry(s, t);
    forall k | k in t.rows ensures BodyBacked(t, k, t.rows[k].body, t.rows[k].expires) {
      assert BodyBacked(s, k, s.rows[k].body, s.rows[k].expires);
    }
  }

  lemma StepKeepsInv(s: State, step: Step)
    requires Inv(s) && Enabled(s, step)
    ensures Inv(Apply(s, step))
  {
    match step
    case Lookup(id, lat, lon, readOk) => LookupKeepsInv(s, id, lat, lon, readOk);
    case Check(id) => CheckKeepsInv(s, id);
    case Enter(id) => EnterKeepsInv(s, id);
    case Fetch(key, reply) => FetchKeepsInv(s, key, reply);
    case Store(key, writeOk) => StoreKeepsInv(s, key, writeOk);
    case Finish(key) => FinishKeepsInv(s, key);
    case Evict(_) => QuietStepKeepsInv(s, Apply(s, step));
    case Tick(_) => QuietStepKeepsInv(s, Apply(s, step));
    case Publish(_, _, _) => QuietStepKeepsInv(s, Apply(s, step));
  }

  lemma {:induction false} RunKeepsInv(s: State, steps: seq<Step>)
    requires Inv(s) && CanRun(s, steps)
    ensures Inv(Run(s, steps))
    decreases |steps|
  {
    if steps != [] {
      StepKeepsInv(s, steps[0]);
      RunKeepsInv(Apply(s, steps[0]), steps[1..]);
    }
  }

  lemma InitialIsSound(s: State, steps: seq<Step>)
    requires Initial(s) && CanRun(s, steps)
    ensures Inv(Run(s, steps))
  {
    RunKeepsInv(s, steps);
  }

  // ---- what the upstream said during a run ---------------------------------------------------

  /** A reply, the row it was requested for, and what the flight held when it asked. */
  datatype Exchange = Exchange(row: RowKey, held: Snapshot, reply: Reply)

  /** The exchanges of a single step: none or one. */
  function ExchangeOf(s: State, step: Step): seq<Exchange>
    requires Enabled(s, step)
  {
    if step.Fetch? then [Exchange(RowOf(s.flights[step.key].pos), s.flights[step.key].snapshot, step.reply)] else []
  }

  function Exchanges(s: State, steps: seq<Step>): seq<Exchange>
    requires CanRun(s, steps)
    decreases |steps|
  {
    if steps == [] then [] else ExchangeOf(s, steps[0]) + Exchanges(Apply(s, steps[0]), steps[1..])
  }

  /** The upstream sent this body, complete, valid and within the cap, with status 200. */
  predicate Sends(policy: Policy, x: Exchange, k: RowKey, body: Body) {
    && x.row == k && x.reply.Reply? && x.reply.status == 200 && x.reply.body == body
    && x.reply.complete && x.reply.wellFormed && |body| <= policy.cap
  }

  /** The upstream said until when this body may be used: with the body, or when confirming it later. */
  predicate Stamps(policy: Policy, x: Exchange, k: RowKey, body: Body, expires: Option<Time>) {
    && x.row == k && x.reply.Reply? && x.reply.expires == expires
    && (|| Sends(policy, x, k, body)
        || (policy.expires && x.reply.status == 304 && x.held.Some? && x.held.value.body == body))
  }

  ghost predicate SentBody(policy: Policy, xs: seq<Exchange>, k: RowKey, body: Body) {
    exists i :: 0 <= i < |xs| && Sends(policy, xs[i], k, body)
  }

  ghost predicate SentExpiry(policy: Policy, xs: seq<Exchange>, k: RowKey, body: Body, expires: Option<Time>) {
    exists i :: 0 <= i < |xs| && Stamps(policy, xs[i], k, body, expires)
  }

  lemma FetchRecordsExchange(s: State, key: string, reply: Reply, k: RowKey, body: Body, expires: Option<Time>)
    requires Enabled(s, Fetch(key, reply))
    ensures var t, x := AfterFetch(s, key, reply), Exchange(RowOf(s.flights[key].pos), s.flights[key].snapshot, reply);
            && ((k, body) in t.bodies <==> (k, body) in s.bodies || Sends(s.policy, x, k, body))
            && ((k, body, expires) in t.stamps <==>
                (k, body, expires) in s.stamps || Stamps(s.policy, x, k, body, expires))
  {
  }

  lemma StepRecordsExchange(s: State, step: Step, k: RowKey, body: Body, expires: Option<Time>)
    requires Enabled(s, step)
    ensures (k, body) in Apply(s, step).bodies <==>
            (k, body) in s.bodies || SentBody(s.policy, ExchangeOf(s, step), k, body)
    ensures (k, body, expires) in Apply(s, step).stamps <==>
            (k, body, expires) in s.stamps || SentExpiry(s.policy, ExchangeOf(s, step), k, body, expires)
  {
    if step.Fetch? {
      FetchRecordsExchange(s, step.key, step.reply, k, body, expires);
      var one := ExchangeOf(s, step);
      assert SentBody(s.policy, one, k, body) <==> Sends(s.policy, one[0], k, body);
      assert SentExpiry(s.policy, one, k, body, expires) <==> Stamps(s.policy, one[0], k, body, expires);
    } else {
      NothingRecorded(s, step);
    }
  }

  predicate SameRecords(s: State, t: State) {
    t.bodies == s.bodies && t.stamps == s.stamps
  }

  lemma StoreRecordsNothing(s: State, key: string, writeOk: bool)
    requires Enabled(s, Store(key, writeOk))
    ensures SameRecords(s, AfterStore(s, key, writeOk))
  {
    assert SameRecords(s, FlightEnded(s, key));
  }

  lemma LookupRecordsNothing(s: State, id: nat, pos: Pos, readOk: bool)
    ensures SameRecords(s, AfterRead(s, id, pos, readOk)) && SameRecords(s, AfterRejection(s, id, pos))
  {
  }

  lemma CallersRecordNothing(s: State, id: nat)
    ensures Enabled(s, Check(id)) ==> SameRecords(s, AfterCheck(s, id))
    ensures Enabled(s, Enter(id)) ==> SameRecords(s, AfterEnter(s, id))
  {
  }

  lemma NothingRecorded(s: State, step: Step)
    requires Enabled(s, step) && !step.Fetch?
    ensures SameRecords(s, Apply(s, step))
  {
    if step.Store? {
      StoreRecordsNothing(s, step.key, step.writeOk);
    } else if step.Lookup? {
      LookupRecordsNothing(s, step.id, Normalise(step.lat, step.lon, s.policy.decimals), step.readOk);
    } else if step.Check? || step.Enter? {
      CallersRecordNothing(s, step.id);
    }
  }

  /** The recorded bodies and expiries are exactly those of the exchanges. */
  lemma {:induction false} RecordsAreReplies(s: State, steps: seq<Step>, k: RowKey, body: Body, expires: Option<Time>)
    requires CanRun(s, steps)
    ensures (k, body) in Run(s, steps).bodies <==>
            (k, body) in s.bodies || SentBody(s.policy, Exchanges(s, steps), k, body)
    ensures (k, body, expires) in Run(s, steps).stamps <==>
            (k, body, expires) in s.stamps || SentExpiry(s.policy, Exchanges(s, steps), k, body, expires)
    decreases |steps|
  {
    if steps != [] {
      var t := Apply(s, steps[0]);
      StepRecordsExchange(s, steps[0], k, body, expires);
      PolicyStays(s, steps[0]);
      RecordsAreReplies(t, steps[1..], k, body, expires);
      var now, later := ExchangeOf(s, steps[0]), Exchanges(t, steps[1..]);
      if now == [] {
        assert now + later == later;
      } else {
        assert now == [now[0]] + [];
        SentFirst(s.policy, now[0], [], k, body, expires);
        SentFirst(s.policy, now[0], later, k, body, expires);
      }
    }
  }

  lemma SentFirst(policy: Policy, first: Exchange, later: seq<Exchange>, k: RowKey, body: Body, expires: Option<Time>)
    ensures SentBody(policy, [first] + later, k, body) <==>
            Sends(policy, first, k, body) || SentBody(policy, later, k, body)
    ensures SentExpiry(policy, [first] + later, k, body, expires) <==>
            Stamps(policy, first, k, body, expires) || SentExpiry(policy, later, k, body, expires)
  {
    var all := [first] + later;
    assert all[0] == first && forall i :: 0 <= i < |later| ==> all[i + 1] == later[i];
  }

  /** Received before the run began, or during it. */
  ghost predicate FromUpstreamOf(s: State, steps: seq<Step>, k: RowKey, body: Body, expires: Option<Time>)
    requires CanRun(s, steps)
  {
    && ((k, body) in s.bodies || SentBody(s.policy, Exchanges(s, steps), k, body))
    && ((k, body, expires) in s.stamps || SentExpiry(s.policy, Exchanges(s, steps), k, body, expires))
  }

  lemma BackedIsReceived(s: State, steps: seq<Step>, k: RowKey, body: Body, expires: Option<Time>)
    requires CanRun(s, steps) && BodyBacked(Run(s, steps), k, body, expires)
    ensures FromUpstreamOf(s, steps, k, body, expires)
  {
    RecordsAreReplies(s, steps, k, body, expires);
  }

  /**
   Byte identity: in every run, whatever is stored or served for a position was received from the
   upstream, complete and valid and with status 200, for that very row; and its expiry was given to
   that body, with it or by a later 304. Both happened earlier in the run or before it began.
   */
  lemma ServedBytesAreUpstreamBytes(s: State, steps: seq<Step>)
    requires Initial(s) && CanRun(s, steps)
    ensures forall k :: k in Run(s, steps).rows ==>
              FromUpstreamOf(s, steps, k, Run(s, steps).rows[k].body, Run(s, steps).rows[k].expires)
    ensures forall id :: id in Run(s, steps).requests ==>
              var r := Run(s, steps).requests[id];
              r.phase.Done? && r.phase.outcome.Served? ==>
                FromUpstreamOf(s, steps, RowOf(r.pos), r.phase.outcome.body, r.phase.outcome.expires)
  {
    var t := Run(s, steps);
    InitialIsSound(s, steps);
    forall k | k in t.rows ensures FromUpstreamOf(s, steps, k, t.rows[k].body, t.rows[k].expires) {
      BackedIsReceived(s, steps, k, t.rows[k].body, t.rows[k].expires);
    }
    forall id | id in t.requests && t.requests[id].phase.Done? && t.requests[id].phase.outcome.Served?
      ensures var r := t.requests[id];
              FromUpstreamOf(s, steps, RowOf(r.pos), r.phase.outcome.body, r.phase.outcome.expires)
    {
      var r := t.requests[id];
      assert RequestSound(t, id, r);
      BackedIsReceived(s, steps, RowOf(r.pos), r.phase.outcome.body, r.phase.outcome.expires);
    }
  }

  // ---- sharing -------------------------------------------------------------------------------

  /** Leader and joiners of one flight all end up with one and the same outcome. */
  lemma JoinersShareTheResult(s: State, steps: seq<Step>, a: nat, b: nat)
    requires Initial(s) && CanRun(s, steps)
    requires var t := Run(s, steps);
             && a in t.requests && b in t.requests
             && t.requests[a].phase.Done? && t.requests[b].phase.Done?
             && t.requests[a].phase.via.Some? && t.requests[a].phase.via == t.requests[b].phase.via
    ensures Run(s, steps).requests[a].phase.outcome == Run(s, steps).requests[b].phase.outcome
  {
    var t := Run(s, steps);
    InitialIsSound(s, steps);
    assert RequestSound(t, a, t.requests[a]) && RequestSound(t, b, t.requests[b]);
  }

  /** The end of a flight leaves nobody waiting for it. */
  lemma FinishDeliversToAll(s: State, key: string, id: nat)
    requires Inv(s) && Enabled(s, Finish(key)) && id in s.requests
    ensures var f := s.flights[key];
            var t := AfterFinish(s, key);
            t.requests[id] ==
              if s.requests[id].phase.Waiting? && s.requests[id].phase.key == key
              then Request(s.requests[id].pos, Done(f.stage.outcome, Some(f.id)))
              else s.requests[id]
  {
    assert RequestSound(s, id, s.requests[id]);
    assert FlightSound(s, key, s.flights[key]);
  }

  /**
   Every upstream call is made on behalf of a waiting leader whose own cache read found no row, or one
   that had expired at the moment the leader checked it.
   */
  lemma FetchesAreLedByMisses(s: State, steps: seq<Step>, key: string)
    requires Initial(s) && CanRun(s, steps)
    requires key in Run(s, steps).flights
    ensures var t := Run(s, steps);
            var f := t.flights[key];
            && f.leader in t.requests && t.requests[f.leader] == Request(f.pos, Waiting(key, f.id))
            && f.leader in t.lookups && t.lookups[f.leader].snapshot == f.snapshot
            && t.lookups[f.leader].checkedAt.Some?
            && (f.snapshot.Some? ==>
                  && s.policy.expires
                  && (f.snapshot.value.expires.Some? ==>
                        f.snapshot.value.expires.value <= t.lookups[f.leader].checkedAt.value))
  {
    InitialIsSound(s, steps);
    PolicyIsFixed(s, steps);
    assert FlightSound(Run(s, steps), key, Run(s, steps).flights[key]);
  }

  lemma DoneStays(s: State, step: Step, id: nat)
    requires Enabled(s, step) && id in s.requests && s.requests[id].phase.Done?
    ensures id in Apply(s, step).requests && Apply(s, step).requests[id] == s.requests[id]
  {
    match step
    case Lookup(_, _, _, _) =>
    case Check(_) =>
    case Enter(_) =>
    case Fetch(_, _) =>
    case Store(_, _) =>
    case Finish(_) =>
    case Evict(_) =>
    case Tick(_) =>
    case Publish(_, _, _) =>
  }

  /** A finished request stays as it is. */
  lemma {:induction false} DoneIsFinal(s: State, steps: seq<Step>, id: nat)
    requires CanRun(s, steps) && id in s.requests && s.requests[id].phase.Done?
    ensures id in Run(s, steps).requests && Run(s, steps).requests[id] == s.requests[id]
    decreases |steps|
  {
    if steps != [] {
      DoneStays(s, steps[0], id);
      DoneIsFinal(Apply(s, steps[0]), steps[1..], id);
    }
  }

  /** A caller that reads an unexpired row is answered from it, and never leads or joins a flight afterwards. */
  lemma FreshReadNeverFetches(s: State, id: nat, steps: seq<Step>)
    requires Inv(s) && Enabled(s, Check(id))
    requires s.requests[id].phase.snapshot.Some?
    requires var row := s.requests[id].phase.snapshot.value;
             s.policy.expires ==> row.expires.Some? && s.now < row.expires.value
    requires CanRun(AfterCheck(s, id), steps)
    ensures var t := Run(AfterCheck(s, id), steps);
            var row := s.requests[id].phase.snapshot.value;
            && id in t.requests
            && t.requests[id].phase == Done(Served(row.body, row.cachedAt, row.expires, FromCache), None)
            && forall key :: key in t.flights ==> t.flights[key].leader != id
  {
    var u := AfterCheck(s, id);
    var t := Run(u, steps);
    CheckKeepsInv(s, id);
    RunKeepsInv(u, steps);
    DoneIsFinal(u, steps, id);
    forall key | key in t.flights ensures t.flights[key].leader != id {
      assert FlightSound(t, key, t.flights[key]);
    }
  }

  /**
   The converse as well: once a request has been checked, it is answered without a flight exactly when it
   had read a row that, where rows expire, had an expiry still to come at that moment, and then with that
   row; only rejected coordinates are turned away before.
   */
  lemma FreshHitIsExact(s: State, steps: seq<Step>, id: nat)
    requires Initial(s) && CanRun(s, steps)
    requires id in Run(s, steps).requests && !Run(s, steps).requests[id].phase.Looked?
    ensures var t := Run(s, steps);
            && id in t.lookups && t.lookups[id].checkedAt.Some?
            && var row, at, phase := t.lookups[id].snapshot, t.lookups[id].checkedAt.value, t.requests[id].phase;
            && (phase.Done? && phase.via.None? && !phase.outcome.Rejected? <==>
                row.Some? && (s.policy.expires ==> row.value.expires.Some? && at < row.value.expires.value))
            && (phase.Done? && phase.via.None? && !phase.outcome.Rejected? ==>
                  phase.outcome == Served(row.value.body, row.value.cachedAt, row.value.expires, FromCache))
  {
    InitialIsSound(s, steps);
    PolicyIsFixed(s, steps);
    assert RequestSound(Run(s, steps), id, Run(s, steps).requests[id]);
  }

  /**
   The geocoding service, whose rows never expire: a cached place is always served, and a flight
   always starts from nothing, so it never revalidates and never falls back to an old answer.
   */
  lemma WithoutExpiryFlightsStartEmpty(s: State, steps: seq<Step>, key: string)
    requires Initial(s) && CanRun(s, steps) && !s.policy.expires
    requires key in Run(s, steps).flights
    ensures Run(s, steps).flights[key].snapshot == None
    ensures Run(s, steps).flights[key].stage.Ended? ==>
              var o := Run(s, steps).flights[key].stage.outcome;
              !o.Unbacked? && (o.Served? ==> o.source != FromStaleCache)
  {
    InitialIsSound(s, steps);
    PolicyIsFixed(s, steps);
    assert FlightSound(Run(s, steps), key, Run(s, steps).flights[key]);
  }

  lemma PolicyStays(s: State, step: Step)
    requires Enabled(s, step)
    ensures Apply(s, step).policy == s.policy
  {
    match step
    case Lookup(_, _, _, _) =>
    case Check(_) =>
    case Enter(_) =>
    case Fetch(_, _) =>
    case Store(_, _) =>
    case Finish(_) =>
    case Evict(_) =>
    case Tick(_) =>
    case Publish(_, _, _) =>
  }

  lemma {:induction false} PolicyIsFixed(s: State, steps: seq<Step>)
    requires CanRun(s, steps)
    ensures Run(s, steps).policy == s.policy
    decreases |steps|
  {
    if steps != [] {
      PolicyStays(s, steps[0]);
      PolicyIsFixed(Apply(s, steps[0]), steps[1..]);
    }
  }
}
