/**
 The cache-first lookup shared by the weather and the reverse-geocoding service, as a transition
 system. Any number of requests run concurrently; each is cut at the points where another one can
 interleave: the cache read, the freshness check, entering the flight group, the upstream answer,
 the cache write and the end of the flight.

 The fields `published`, `bodies`, `stamps`, `writes`, `lookups` and `reports` of a state, the `version`
 of a row and the answer kept by an ended flight record history. No decision depends on them.
 */
module FlightProtocol {
  import opened Basics
  import opened Wrappers
  import opened Coordinates

  type Time = int        // nanoseconds
  type Body = seq<Byte>  // a response body, or a place, byte for byte

  /** What distinguishes the two services: decimals kept, whether a cached row can expire, and the size of a reply. */
  datatype Policy = Policy(decimals: nat, expires: bool, cap: nat)

  const MEBIBYTE := 1048576
  const WEATHER := Policy(4, true, 4 * MEBIBYTE)
  const GEOCODE := Policy(2, false, MEBIBYTE)

  datatype Row = Row(cachedAt: Time, expires: Option<Time>, lastModified: Option<Time>, body: Body, version: nat)

  /** A row as seen by the cache read; a missing row and a failed read look alike. */
  type Snapshot = Option<Row>

  /** An HTTP exchange with the upstream, before the client has judged it. */
  datatype Reply =
    | Reply(status: int, body: Body, complete: bool, wellFormed: bool,
            expires: Option<Time>, lastModified: Option<Time>)
    | NoReply

  datatype Answer =
    | Fetched(body: Body, expires: Option<Time>, lastModified: Option<Time>)
    | NotModified(expires: Option<Time>)
    | Failed

  datatype Source = FromCache | FromStaleCache | FromUpstream

  datatype Outcome =
    | Served(body: Body, cachedAt: Time, expires: Option<Time>, source: Source)
    | Rejected      // coordinates out of range
    | Unavailable   // upstream failed and nothing cached
    | Unbacked      // 304 without a cached entry

  datatype Phase =
    | Looked(snapshot: Snapshot)
    | Missed(snapshot: Snapshot)
    | Waiting(key: string, flight: nat)
    | Done(outcome: Outcome, via: Option<nat>)

  datatype Request = Request(pos: Pos, phase: Phase)

  datatype Stage = Fetching | Answered(answer: Answer, version: nat) | Ended(answer: Answer, outcome: Outcome)

  /** A call in the singleflight group; `snapshot` is what its leader read before entering. */
  datatype Flight = Flight(id: nat, pos: Pos, leader: nat, snapshot: Snapshot, stage: Stage)

  /** What a request's cache read returned, and when its freshness was checked. */
  datatype CacheRead = CacheRead(snapshot: Snapshot, checkedAt: Option<Time>)

  /** What a finished flight has reported. */
  datatype Report = Report(leader: nat, answer: Answer, outcome: Outcome)

  /** A forecast the upstream has published. */
  datatype Version = Version(body: Body, lastModified: Time)

  datatype State = State(
    policy: Policy,
    now: Time,
    rows: map<RowKey, Row>,
    requests: map<nat, Request>,
    flights: map<string, Flight>,
    nextFlight: nat,
    published: map<RowKey, seq<Version>>,
    bodies: set<(RowKey, Body)>,
    stamps: set<(RowKey, Body, Option<Time>)>,
    writes: map<RowKey, seq<nat>>,
    lookups: map<nat, CacheRead>,
    reports: map<nat, Report>)

  datatype Step =
    | Lookup(id: nat, lat: Degrees, lon: Degrees, readOk: bool)
    | Check(id: nat)
    | Enter(id: nat)
    | Fetch(key: string, reply: Reply)
    | Store(key: string, writeOk: bool)
    | Finish(key: string)
    | Evict(retention: int)
    | Tick(later: Time)
    | Publish(row: RowKey, body: Body, lastModified: Time)

  // ---- decisions -----------------------------------------------------------------------------

  predicate InRange(lat: Degrees, lon: Degrees) {
    lat.size <= 90.0 && lon.size <= 180.0
  }

  predicate IsFresh(policy: Policy, row: Row, now: Time) {
    policy.expires ==> row.expires.Some? && now < row.expires.value
  }

  /**
   The client's verdict on a reply: anything but a complete, valid 200 is a failure, except for a 304
   where rows can expire.
   */
  function ReadReply(policy: Policy, reply: Reply): Answer {
    if reply.NoReply? then Failed
    else if reply.status == 200 && reply.complete && |reply.body| <= policy.cap && reply.wellFormed then
      Fetched(reply.body, reply.expires, reply.lastModified)
    else if reply.status == 304 && policy.expires then NotModified(reply.expires)
    else Failed
  }

  /** The If-Modified-Since header sent along, if any. */
  function IfModifiedSince(snapshot: Snapshot): Option<Time> {
    if snapshot.Some? then snapshot.value.lastModified else None
  }

  /** The row a flight writes, if any. */
  function RowToWrite(snapshot: Snapshot, answer: Answer, version: nat, now: Time): Option<Row> {
    match answer
    case Fetched(body, expires, lastModified) => Some(Row(now, expires, lastModified, body, version))
    case NotModified(expires) =>
      if snapshot.Some? then Some(snapshot.value.(cachedAt := now, expires := expires)) else None
    case Failed => None
  }

  /** What a flight reports to its leader and joiners. */
  function FlightOutcome(snapshot: Snapshot, answer: Answer, now: Time): Outcome {
    match answer
    case Fetched(body, expires, _) => Served(body, now, expires, FromUpstream)
    case NotModified(expires) =>
      if snapshot.Some? then Served(snapshot.value.body, snapshot.value.cachedAt, expires, FromCache) else Unbacked
    case Failed =>
      if snapshot.Some?
      then Served(snapshot.value.body, snapshot.value.cachedAt, snapshot.value.expires, FromStaleCache)
      else Unavailable
  }

  // ---- steps ---------------------------------------------------------------------------------

  function PublishedAt(s: State, k: RowKey): seq<Version> {
    if k in s.published then s.published[k] else []
  }

  /** Index of the version the upstream serves at the moment. */
  function CurrentVersion(s: State, k: RowKey): nat {
    if |PublishedAt(s, k)| == 0 then 0 else |PublishedAt(s, k)| - 1
  }

  function WritesTo(s: State, k: RowKey): seq<nat> {
    if k in s.writes then s.writes[k] else []
  }

  predicate Enabled(s: State, step: Step) {
    match step
    case Lookup(id, lat, lon, _) => id !in s.requests && lat.size >= 0.0 && lon.size >= 0.0
    case Check(id) => id in s.requests && s.requests[id].phase.Looked?
    case Enter(id) => id in s.requests && s.requests[id].phase.Missed?
    case Fetch(key, _) => key in s.flights && s.flights[key].stage.Fetching?
    case Store(key, _) => key in s.flights && s.flights[key].stage.Answered?
    case Finish(key) => key in s.flights && s.flights[key].stage.Ended?
    case Evict(_) => true
    case Tick(later) => s.now <= later
    case Publish(_, _, _) => true
  }

  function Apply(s: State, step: Step): State
    requires Enabled(s, step)
  {
    match step
    case Lookup(id, lat, lon, readOk) => AfterLookup(s, id, lat, lon, readOk)
    case Check(id) => AfterCheck(s, id)
    case Enter(id) => AfterEnter(s, id)
    case Fetch(key, reply) => AfterFetch(s, key, reply)
    case Store(key, writeOk) => AfterStore(s, key, writeOk)
    case Finish(key) => AfterFinish(s, key)
    case Evict(retention) => s.(rows := map k | k in s.rows && s.rows[k].cachedAt >= s.now - retention :: s.rows[k])
    case Tick(later) => s.(now := later)
    case Publish(k, body, lastModified) =>
      s.(published := s.published[k := PublishedAt(s, k) + [Version(body, lastModified)]])
  }

  function AfterLookup(s: State, id: nat, lat: Degrees, lon: Degrees, readOk: bool): State
    requires lat.size >= 0.0 && lon.size >= 0.0
  {
    var pos := Normalise(lat, lon, s.policy.decimals);
    if InRange(lat, lon) then AfterRead(s, id, pos, readOk) else AfterRejection(s, id, pos)
  }

  /** Without looking at the cache, which counts as having found nothing. */
  function AfterRejection(s: State, id: nat, pos: Pos): State {
    s.(requests := s.requests[id := Request(pos, Done(Rejected, None))],
       lookups := s.lookups[id := CacheRead(None, Some(s.now))])
  }

  /** The cache read. */
  function AfterRead(s: State, id: nat, pos: Pos, readOk: bool): State {
    var snapshot := if readOk && RowOf(pos) in s.rows then Some(s.rows[RowOf(pos)]) else None;
    s.(requests := s.requests[id := Request(pos, Looked(snapshot))],
       lookups := s.lookups[id := CacheRead(snapshot, None)])
  }

  function AfterCheck(s: State, id: nat): State
    requires id in s.requests && s.requests[id].phase.Looked?
  {
    var r := s.requests[id];
    var snapshot := r.phase.snapshot;
    var phase :=
      if snapshot.Some? && IsFresh(s.policy, snapshot.value, s.now)
      then Done(Served(snapshot.value.body, snapshot.value.cachedAt, snapshot.value.expires, FromCache), None)
      else Missed(snapshot);
    s.(requests := s.requests[id := r.(phase := phase)], lookups := s.lookups[id := CacheRead(snapshot, Some(s.now))])
  }

  function AfterEnter(s: State, id: nat): State
    requires id in s.requests && s.requests[id].phase.Missed?
  {
    AfterEntry(s, id, FlightKey(s.requests[id].pos, s.policy.decimals))
  }

  /** singleflight's Do: join the flight of this key, or lead a new one. */
  function AfterEntry(s: State, id: nat, key: string): State
    requires id in s.requests && s.requests[id].phase.Missed?
  {
    var r := s.requests[id];
    if key in s.flights then
      s.(requests := s.requests[id := r.(phase := Waiting(key, s.flights[key].id))])
    else
      s.(requests := s.requests[id := r.(phase := Waiting(key, s.nextFlight))],
         flights := s.flights[key := Flight(s.nextFlight, r.pos, id, r.phase.snapshot, Fetching)],
         nextFlight := s.nextFlight + 1)
  }

  function AfterFetch(s: State, key: string, reply: Reply): State
    requires key in s.flights
  {
    var f := s.flights[key];
    var k := RowOf(f.pos);
    var answer := ReadReply(s.policy, reply);
    s.(flights := s.flights[key := f.(stage := Answered(answer, CurrentVersion(s, k)))],
       bodies := s.bodies + (if answer.Fetched? then {(k, answer.body)} else {}),
       stamps := s.stamps + Stamped(k, f.snapshot, answer))
  }

  /** The expiry an answer gives: to the body it brings, or to the one it confirms. */
  function Stamped(k: RowKey, snapshot: Snapshot, answer: Answer): set<(RowKey, Body, Option<Time>)> {
    match answer
    case Fetched(body, expires, _) => {(k, body, expires)}
    case NotModified(expires) => if snapshot.Some? then {(k, snapshot.value.body, expires)} else {}
    case Failed => {}
  }

  function AfterStore(s: State, key: string, writeOk: bool): State
    requires key in s.flights && s.flights[key].stage.Answered?
  {
    var f := s.flights[key];
    var row := RowToWrite(f.snapshot, f.stage.answer, f.stage.version, s.now);
    var ended := FlightEnded(s, key);
    if row.Some? && writeOk then RowWritten(ended, RowOf(f.pos), row.value) else ended
  }

  function FlightEnded(s: State, key: string): State
    requires key in s.flights && s.flights[key].stage.Answered?
  {
    var f := s.flights[key];
    var outcome := FlightOutcome(f.snapshot, f.stage.answer, s.now);
    s.(flights := s.flights[key := f.(stage := Ended(f.stage.answer, outcome))])
  }

  /** The upsert; on conflict every column is overwritten. */
  function RowWritten(s: State, k: RowKey, row: Row): State {
    s.(rows := s.rows[k := row], writes := s.writes[k := WritesTo(s, k) + [row.version]])
  }

  function AfterFinish(s: State, key: string): State
    requires key in s.flights && s.flights[key].stage.Ended?
  {
    var f := s.flights[key];
    s.(flights := map k | k in s.flights && k != key :: s.flights[k],
       requests := Delivered(s.requests, key, f),
       reports := s.reports[f.id := Report(f.leader, f.stage.answer, f.stage.outcome)])
  }

  /** Everyone waiting for the flight receives its outcome. */
  function Delivered(requests: map<nat, Request>, key: string, f: Flight): map<nat, Request>
    requires f.stage.Ended?
  {
    map id | id in requests ::
      if requests[id].phase == Waiting(key, f.id)
      then requests[id].(phase := Done(f.stage.outcome, Some(f.id)))
      else requests[id]
  }

  // ---- runs ----------------------------------------------------------------------------------

  predicate CanRun(s: State, steps: seq<Step>)
    decreases |steps|
  {
    steps == [] || (Enabled(s, steps[0]) && CanRun(Apply(s, steps[0]), steps[1..]))
  }

  function Run(s: State, steps: seq<Step>): State
    requires CanRun(s, steps)
    decreases |steps|
  {
    if steps == [] then s else Run(Apply(s, steps[0]), steps[1..])
  }
}
