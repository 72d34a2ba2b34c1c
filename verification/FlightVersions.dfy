/**
 Does a cached forecast ever go back to an older one? The leader of a flight revalidates against a
 snapshot taken before it entered the flight, so the row may have been rewritten or evicted in the
 meantime. It never goes back if the upstream keeps to HTTP (a 304 means "not modified since the
 date you sent", section 13.1.3 of RFC 9110; each version has its own, later Last-Modified) and no
 coordinate is a negative zero; with two signs of zero it can.
 */
module FlightVersions {
  import opened Wrappers
  import opened Coordinates
  import opened FlightProtocol
  import opened FlightSafety

  // ---- assumptions on a run ------------------------------------------------------------------

  /** The upstream answers truthfully about the version it has published last. */
  ghost predicate Conforming(s: State, step: Step)
    requires Enabled(s, step)
  {
    match step
    case Publish(k, _, lastModified) =>
      var versions := PublishedAt(s, k);
      versions != [] ==> versions[|versions| - 1].lastModified < lastModified
    case Fetch(key, reply) =>
      reply.Reply? ==> Truthful(PublishedAt(s, RowOf(s.flights[key].pos)), s.flights[key].snapshot, reply)
    case _ => true
  }

  ghost predicate Truthful(versions: seq<Version>, snapshot: Snapshot, reply: Reply)
    requires reply.Reply?
  {
    && (reply.status == 200 ==>
          && versions != [] && reply.body == versions[|versions| - 1].body
          && (reply.lastModified.Some? ==> reply.lastModified.value == versions[|versions| - 1].lastModified))
    && (reply.status == 304 ==>
          && versions != [] && IfModifiedSince(snapshot).Some?
          && versions[|versions| - 1].lastModified <= IfModifiedSince(snapshot).value)
  }

  /** Callers ask for positions of the zone only. */
  ghost predicate Within(s: State, step: Step, zone: iset<Pos>)
    requires Enabled(s, step)
  {
    step.Lookup? && InRange(step.lat, step.lon) ==> Normalise(step.lat, step.lon, s.policy.decimals) in zone
  }

  /** The positions of a zone that share a row share a flight. */
  ghost predicate Coherent(zone: iset<Pos>, decimals: nat) {
    forall p, q :: p in zone && q in zone && RowOf(p) == RowOf(q) ==> FlightKey(p, decimals) == FlightKey(q, decimals)
  }

  /** Positions without a negative zero. */
  ghost function CanonicalZone(): iset<Pos> {
    iset p: Pos | Canonical(p)
  }

  /** What coherence asks of the callers: no position of the zone has a zero with the other sign. */
  lemma CoherentMeans(zone: iset<Pos>, decimals: nat)
    ensures Coherent(zone, decimals) <==>
            forall p, q :: p in zone && q in zone && RowOf(p) == RowOf(q) ==>
              !ZeroSignsDiffer(p.lat, q.lat) && !ZeroSignsDiffer(p.lon, q.lon)
  {
    forall p, q ensures FlightKey(p, decimals) == FlightKey(q, decimals) <==>
                        RowOf(p) == RowOf(q) && !ZeroSignsDiffer(p.lat, q.lat) && !ZeroSignsDiffer(p.lon, q.lon)
    {
      FlightsVersusRows(p, q, decimals);
    }
  }

  lemma CanonicalIsCoherent(decimals: nat)
    ensures Coherent(CanonicalZone(), decimals)
  {
    forall p, q | p in CanonicalZone() && q in CanonicalZone() && RowOf(p) == RowOf(q)
      ensures FlightKey(p, decimals) == FlightKey(q, decimals)
    {
      OneFlightPerRow(p, q, decimals);
    }
  }

  ghost predicate ConformingRun(s: State, steps: seq<Step>)
    requires CanRun(s, steps)
    decreases |steps|
  {
    steps == [] || (Conforming(s, steps[0]) && ConformingRun(Apply(s, steps[0]), steps[1..]))
  }

  ghost predicate RunWithin(s: State, steps: seq<Step>, zone: iset<Pos>)
    requires CanRun(s, steps)
    decreases |steps|
  {
    steps == [] || (Within(s, steps[0], zone) && RunWithin(Apply(s, steps[0]), steps[1..], zone))
  }

  // ---- one flight per row --------------------------------------------------------------------

  ghost predicate FlightsWithin(flights: map<string, Flight>, zone: iset<Pos>) {
    forall key :: key in flights ==> flights[key].pos in zone
  }

  ghost predicate RequestsWithin(requests: map<nat, Request>, zone: iset<Pos>) {
    forall id :: id in requests ==> requests[id].phase.Done? || requests[id].pos in zone
  }

  ghost predicate StateWithin(s: State, zone: iset<Pos>) {
    FlightsWithin(s.flights, zone) && RequestsWithin(s.requests, zone)
  }

  lemma LookupStaysWithin(s: State, id: nat, pos: Pos, readOk: bool, zone: iset<Pos>)
    requires StateWithin(s, zone)
    ensures StateWithin(AfterRejection(s, id, pos), zone)
    ensures pos in zone ==> StateWithin(AfterRead(s, id, pos, readOk), zone)
  {
  }

  lemma CheckStaysWithin(s: State, id: nat, zone: iset<Pos>)
    requires StateWithin(s, zone) && Enabled(s, Check(id))
    ensures StateWithin(AfterCheck(s, id), zone)
  {
  }

  lemma EnterStaysWithin(s: State, id: nat, zone: iset<Pos>)
    requires StateWithin(s, zone) && Enabled(s, Enter(id))
    ensures StateWithin(AfterEnter(s, id), zone)
  {
  }

  lemma FetchStaysWithin(s: State, key: string, reply: Reply, zone: iset<Pos>)
    requires StateWithin(s, zone) && Enabled(s, Fetch(key, reply))
    ensures StateWithin(AfterFetch(s, key, reply), zone)
  {
  }

  lemma StoreStaysWithin(s: State, key: string, writeOk: bool, zone: iset<Pos>)
    requires StateWithin(s, zone) && Enabled(s, Store(key, writeOk))
    ensures StateWithin(AfterStore(s, key, writeOk), zone)
  {
    assert FlightsWithin(FlightEnded(s, key).flights, zone);
  }

  lemma FinishStaysWithin(s: State, key: string, zone: iset<Pos>)
    requires StateWithin(s, zone) && Enabled(s, Finish(key))
    ensures StateWithin(AfterFinish(s, key), zone)
  {
  }

  lemma StepStaysWithin(s: State, step: Step, zone: iset<Pos>)
    requires StateWithin(s, zone) && Enabled(s, step) && Within(s, step, zone)
    ensures StateWithin(Apply(s, step), zone)
  {
    match step
    case Lookup(id, lat, lon, readOk) => LookupStaysWithin(s, id, Normalise(lat, lon, s.policy.decimals), readOk, zone);
    case Check(id) => CheckStaysWithin(s, id, zone);
    case Enter(id) => EnterStaysWithin(s, id, zone);
    case Fetch(key, reply) => FetchStaysWithin(s, key, reply, zone);
    case Store(key, writeOk) => StoreStaysWithin(s, key, writeOk, zone);
    case Finish(key) => FinishStaysWithin(s, key, zone);
    case Evict(_) =>
    case Tick(_) =>
    case Publish(_, _, _) =>
  }

  lemma {:induction false} RunStaysWithin(s: State, steps: seq<Step>, zone: iset<Pos>)
    requires StateWithin(s, zone) && CanRun(s, steps) && RunWithin(s, steps, zone)
    ensures StateWithin(Run(s, steps), zone)
    decreases |steps|
  {
    if steps != [] {
      StepStaysWithin(s, steps[0], zone);
      RunStaysWithin(Apply(s, steps[0]), steps[1..], zone);
    }
  }

  lemma FlightsAreSerial(s: State, zone: iset<Pos>, key: string, key': string)
    requires Inv(s) && StateWithin(s, zone) && Coherent(zone, s.policy.decimals)
    requires key in s.flights && key' in s.flights
    ensures RowOf(s.flights[key].pos) == RowOf(s.flights[key'].pos) <==> key == key'
  {
    assert FlightSound(s, key, s.flights[key]) && FlightSound(s, key', s.flights[key']);
  }

  /** At most one flight, hence at most one upstream call, per cache row. */
  ghost predicate OneFlightEach(s: State) {
    forall key, key' :: key in s.flights && key' in s.flights && key != key' ==>
      RowOf(s.flights[key].pos) != RowOf(s.flights[key'].pos)
  }

  /** That holds at any moment of any run whose callers stay in a coherent zone. */
  lemma AtMostOneFetchPerRow(s: State, steps: seq<Step>, zone: iset<Pos>)
    requires Initial(s) && Coherent(zone, s.policy.decimals) && CanRun(s, steps) && RunWithin(s, steps, zone)
    ensures OneFlightEach(Run(s, steps))
  {
    var t := Run(s, steps);
    InitialIsSound(s, steps);
    RunStaysWithin(s, steps, zone);
    PolicyIsFixed(s, steps);
    forall key, key' | key in t.flights && key' in t.flights && RowOf(t.flights[key].pos) == RowOf(t.flights[key'].pos)
      ensures key == key'
    {
      FlightsAreSerial(t, zone, key, key');
    }
  }

  // ---- the version invariant -----------------------------------------------------------------

  ghost predicate InOrder(versions: seq<Version>) {
    forall i, j :: 0 <= i < j < |versions| ==> versions[i].lastModified < versions[j].lastModified
  }

  ghost predicate NeverBack(writes: seq<nat>) {
    forall i, j :: 0 <= i < j < |writes| ==> writes[i] <= writes[j]
  }

  /** The row holds a published version, and its Last-Modified, if kept, is the one of that version. */
  ghost predicate Genuine(versions: seq<Version>, row: Row) {
    && row.version < |versions|
    && row.body == versions[row.version].body
    && (row.lastModified.Some? ==> row.lastModified.value == versions[row.version].lastModified)
  }

  ghost predicate SnapshotGenuine(versions: seq<Version>, snapshot: Snapshot) {
    snapshot.Some? ==> Genuine(versions, snapshot.value)
  }

  ghost predicate NoneNewer(writes: seq<nat>, version: nat) {
    forall i :: 0 <= i < |writes| ==> writes[i] <= version
  }

  /** Nothing newer than what is about to be written has been written already. */
  ghost predicate UpToDate(versions: seq<Version>, writes: seq<nat>, row: Option<Row>) {
    row.Some? ==> Genuine(versions, row.value) && NoneNewer(writes, row.value.version)
  }

  ghost predicate FlightGenuine(s: State, f: Flight) {
    var k := RowOf(f.pos);
    && SnapshotGenuine(PublishedAt(s, k), f.snapshot)
    && (f.stage.Answered? ==>
          UpToDate(PublishedAt(s, k), WritesTo(s, k), RowToWrite(f.snapshot, f.stage.answer, f.stage.version, s.now)))
  }

  ghost predicate RequestGenuine(s: State, r: Request) {
    r.phase.Looked? || r.phase.Missed? ==> SnapshotGenuine(PublishedAt(s, RowOf(r.pos)), r.phase.snapshot)
  }

  ghost predicate WritesInOrder(versions: seq<Version>, writes: seq<nat>) {
    NeverBack(writes) && forall i :: 0 <= i < |writes| ==> writes[i] < |versions|
  }

  ghost predicate HistoryInOrder(s: State) {
    forall k :: InOrder(PublishedAt(s, k)) && WritesInOrder(PublishedAt(s, k), WritesTo(s, k))
  }

  /** The row shows what was written to it last. */
  ghost predicate LastWritten(writes: seq<nat>, row: Row) {
    writes != [] && writes[|writes| - 1] == row.version
  }

  ghost predicate TableGenuine(s: State) {
    forall k :: k in s.rows ==> Genuine(PublishedAt(s, k), s.rows[k]) && LastWritten(WritesTo(s, k), s.rows[k])
  }

  ghost predicate FlightsGenuine(s: State) {
    forall key :: key in s.flights ==> FlightGenuine(s, s.flights[key])
  }

  ghost predicate RequestsGenuine(s: State) {
    forall id :: id in s.requests ==> RequestGenuine(s, s.requests[id])
  }

  ghost predicate VersionInv(s: State) {
    HistoryInOrder(s) && TableGenuine(s) && FlightsGenuine(s) && RequestsGenuine(s)
  }

  // ---- the invariant is kept -----------------------------------------------------------------

  /** More may be published, and nothing may be written, without making a flight less genuine. */
  lemma FlightAges(s: State, t: State, f: Flight)
    requires FlightGenuine(s, f)
    requires PublishedAt(s, RowOf(f.pos)) <= PublishedAt(t, RowOf(f.pos))
    requires f.stage.Answered? ==> WritesTo(t, RowOf(f.pos)) == WritesTo(s, RowOf(f.pos))
    ensures FlightGenuine(t, f)
  {
  }

  lemma RequestAges(s: State, t: State, r: Request)
    requires RequestGenuine(s, r) && PublishedAt(s, RowOf(r.pos)) <= PublishedAt(t, RowOf(r.pos))
    ensures RequestGenuine(t, r)
  {
  }

  lemma RequestsAge(s: State, t: State)
    requires RequestsGenuine(s) && t.requests == s.requests
    requires forall k :: PublishedAt(s, k) <= PublishedAt(t, k)
    ensures RequestsGenuine(t)
  {
    forall id | id in t.requests ensures RequestGenuine(t, t.requests[id]) {
      assert RequestGenuine(s, s.requests[id]);
      RequestAges(s, t, s.requests[id]);
    }
  }

  /** Nothing is published or written: what was genuine still is. */
  lemma QuietStep(s: State, t: State)
    requires VersionInv(s) && t.published == s.published && t.writes == s.writes
    requires forall k :: k in t.rows ==> k in s.rows && t.rows[k] == s.rows[k]
    requires forall key :: key in t.flights ==>
               FlightGenuine(s, t.flights[key]) || (key in s.flights && t.flights[key] == s.flights[key])
    requires forall id :: id in t.requests ==>
               RequestGenuine(s, t.requests[id]) || (id in s.requests && t.requests[id] == s.requests[id])
    ensures VersionInv(t)
  {
    assert forall k :: PublishedAt(t, k) == PublishedAt(s, k) && WritesTo(t, k) == WritesTo(s, k);
    forall key | key in t.flights ensures FlightGenuine(t, t.flights[key]) {
      FlightAges(s, t, t.flights[key]);
    }
    forall id | id in t.requests ensures RequestGenuine(t, t.requests[id]) {
      RequestAges(s, t, t.requests[id]);
    }
  }

  /** The answer of a truthful upstream leads to a write of its current version. */
  lemma AnswerIsCurrent(policy: Policy, versions: seq<Version>, writes: seq<nat>, snapshot: Snapshot, reply: Reply,
                        now: Time)
    requires InOrder(versions) && WritesInOrder(versions, writes) && SnapshotGenuine(versions, snapshot)
    requires reply.Reply? ==> Truthful(versions, snapshot, reply)
    ensures UpToDate(versions, writes,
                     RowToWrite(snapshot, ReadReply(policy, reply), if versions == [] then 0 else |versions| - 1, now))
  {
    if ReadReply(policy, reply).NotModified? && snapshot.Some? {
      RevalidatedIsCurrent(versions, snapshot.value.version);
    }
  }

  /** A 304 to the date of version u can only mean that u is still the last one. */
  lemma RevalidatedIsCurrent(versions: seq<Version>, u: nat)
    requires InOrder(versions) && u < |versions|
    requires versions[|versions| - 1].lastModified <= versions[u].lastModified
    ensures u == |versions| - 1
  {
  }

  lemma PublishKeepsVersions(s: State, step: Step)
    requires VersionInv(s) && step.Publish? && Conforming(s, step)
    ensures VersionInv(Apply(s, step))
  {
    var t := Apply(s, step);
    PublishChangesOneRow(s, step);
    PublishedLater(PublishedAt(s, step.row), WritesTo(s, step.row), Version(step.body, step.lastModified));
    forall key | key in t.flights ensures FlightGenuine(t, t.flights[key]) {
      assert FlightGenuine(s, s.flights[key]);
      FlightAges(s, t, s.flights[key]);
    }
    RequestsAge(s, t);
  }

  lemma PublishChangesOneRow(s: State, step: Step)
    requires step.Publish?
    ensures var t := Apply(s, step);
            && PublishedAt(t, step.row) == PublishedAt(s, step.row) + [Version(step.body, step.lastModified)]
            && (forall k :: k != step.row ==> PublishedAt(t, k) == PublishedAt(s, k))
            && (forall k :: PublishedAt(s, k) <= PublishedAt(t, k) && WritesTo(t, k) == WritesTo(s, k))
  {
  }

  /** Publishing one more version takes nothing away. */
  lemma PublishedLater(versions: seq<Version>, writes: seq<nat>, v: Version)
    requires InOrder(versions) && WritesInOrder(versions, writes)
    requires versions != [] ==> versions[|versions| - 1].lastModified < v.lastModified
    ensures InOrder(versions + [v]) && WritesInOrder(versions + [v], writes)
    ensures forall row :: Genuine(versions, row) ==> Genuine(versions + [v], row)
  {
  }

  lemma WriteChangesOneRow(s: State, k: RowKey, row: Row)
    ensures var t := RowWritten(s, k, row);
            && (forall k' :: PublishedAt(t, k') == PublishedAt(s, k'))
            && (forall k' :: k' != k ==> WritesTo(t, k') == WritesTo(s, k'))
            && WritesTo(t, k) == WritesTo(s, k) + [row.version]
  {
  }

  lemma WriteKeepsHistory(s: State, k: RowKey, row: Row)
    requires HistoryInOrder(s) && UpToDate(PublishedAt(s, k), WritesTo(s, k), Some(row))
    ensures HistoryInOrder(RowWritten(s, k, row))
  {
    WriteChangesOneRow(s, k, row);
    assert WritesInOrder(PublishedAt(s, k), WritesTo(s, k));
    WrittenOneMore(PublishedAt(s, k), WritesTo(s, k), row.version);
  }

  lemma WrittenOneMore(versions: seq<Version>, writes: seq<nat>, version: nat)
    requires WritesInOrder(versions, writes) && NoneNewer(writes, version) && version < |versions|
    ensures WritesInOrder(versions, writes + [version])
  {
  }

  lemma WriteKeepsTable(s: State, k: RowKey, row: Row)
    requires TableGenuine(s) && Genuine(PublishedAt(s, k), row)
    ensures TableGenuine(RowWritten(s, k, row))
  {
    var t := RowWritten(s, k, row);
    WriteChangesOneRow(s, k, row);
    assert forall k' :: k' in t.rows && k' != k ==> k' in s.rows && t.rows[k'] == s.rows[k'];
  }

  /** Writing an up-to-date row, while no other flight is about to write that row. */
  lemma WriteKeepsVersions(s: State, k: RowKey, row: Row)
    requires VersionInv(s) && UpToDate(PublishedAt(s, k), WritesTo(s, k), Some(row))
    requires forall key :: key in s.flights && s.flights[key].stage.Answered? ==> RowOf(s.flights[key].pos) != k
    ensures VersionInv(RowWritten(s, k, row))
  {
    var t := RowWritten(s, k, row);
    WriteKeepsHistory(s, k, row);
    WriteKeepsTable(s, k, row);
    WriteKeepsFlights(s, k, row);
    WriteChangesOneRow(s, k, row);
    RequestsAge(s, t);
  }

  lemma WriteKeepsFlights(s: State, k: RowKey, row: Row)
    requires FlightsGenuine(s)
    requires forall key :: key in s.flights && s.flights[key].stage.Answered? ==> RowOf(s.flights[key].pos) != k
    ensures FlightsGenuine(RowWritten(s, k, row))
  {
    var t := RowWritten(s, k, row);
    WriteChangesOneRow(s, k, row);
    forall key | key in t.flights ensures FlightGenuine(t, t.flights[key]) {
      assert FlightGenuine(s, s.flights[key]);
      FlightAges(s, t, s.flights[key]);
    }
  }

  lemma EndKeepsVersions(s: State, key: string)
    requires VersionInv(s) && Enabled(s, Store(key, true))
    ensures VersionInv(FlightEnded(s, key))
  {
    assert FlightGenuine(s, s.flights[key]);
    assert FlightGenuine(s, FlightEnded(s, key).flights[key]);
    QuietStep(s, FlightEnded(s, key));
  }

  lemma StoreKeepsVersions(s: State, zone: iset<Pos>, key: string, writeOk: bool)
    requires Inv(s) && StateWithin(s, zone) && Coherent(zone, s.policy.decimals) && VersionInv(s)
    requires Enabled(s, Store(key, writeOk))
    ensures VersionInv(AfterStore(s, key, writeOk))
  {
    var f := s.flights[key];
    var row := RowToWrite(f.snapshot, f.stage.answer, f.stage.version, s.now);
    var ended := FlightEnded(s, key);
    EndKeepsVersions(s, key);
    if row.Some? && writeOk {
      assert FlightGenuine(s, f);
      forall key' | key' in ended.flights && ended.flights[key'].stage.Answered?
        ensures RowOf(ended.flights[key'].pos) != RowOf(f.pos)
      {
        FlightsAreSerial(s, zone, key, key');
      }
      WriteKeepsVersions(ended, RowOf(f.pos), row.value);
    }
  }

  lemma FetchKeepsVersions(s: State, key: string, reply: Reply)
    requires VersionInv(s) && Enabled(s, Fetch(key, reply)) && Conforming(s, Fetch(key, reply))
    ensures VersionInv(AfterFetch(s, key, reply))
  {
    var t := AfterFetch(s, key, reply);
    var f := s.flights[key];
    var k := RowOf(f.pos);
    assert FlightGenuine(s, f);
    AnswerIsCurrent(s.policy, PublishedAt(s, k), WritesTo(s, k), f.snapshot, reply, s.now);
    assert FlightGenuine(s, t.flights[key]);
    QuietStep(s, t);
  }

  /** Callers only ever copy a row from the table, or hand their copy on. */
  lemma ReadKeepsVersions(s: State, id: nat, pos: Pos, readOk: bool)
    requires VersionInv(s)
    ensures VersionInv(AfterRead(s, id, pos, readOk))
  {
    var t := AfterRead(s, id, pos, readOk);
    assert RequestGenuine(s, t.requests[id]);
    QuietStep(s, t);
  }

  lemma LookupKeepsVersions(s: State, id: nat, lat: Degrees, lon: Degrees, readOk: bool)
    requires VersionInv(s) && Enabled(s, Lookup(id, lat, lon, readOk))
    ensures VersionInv(AfterLookup(s, id, lat, lon, readOk))
  {
    var pos := Normalise(lat, lon, s.policy.decimals);
    if InRange(lat, lon) {
      ReadKeepsVersions(s, id, pos, readOk);
    } else {
      var t := AfterRejection(s, id, pos);
      assert RequestGenuine(s, t.requests[id]);
      QuietStep(s, t);
    }
  }

  lemma CheckKeepsVersions(s: State, id: nat)
    requires VersionInv(s) && Enabled(s, Check(id))
    ensures VersionInv(AfterCheck(s, id))
  {
    var t := AfterCheck(s, id);
    assert RequestGenuine(s, s.requests[id]);
    assert RequestGenuine(s, t.requests[id]);
    QuietStep(s, t);
  }

  /** One request moves on, and one flight may be new. */
  lemma QuietEntry(s: State, t: State, id: nat, r: Request, key: string, f: Flight)
    requires VersionInv(s) && t.published == s.published && t.writes == s.writes && t.rows == s.rows
    requires t.requests == s.requests[id := r] && RequestGenuine(s, r)
    requires t.flights == s.flights || (t.flights == s.flights[key := f] && FlightGenuine(s, f))
    ensures VersionInv(t)
  {
    QuietStep(s, t);
  }

  lemma EntryKeepsVersions(s: State, id: nat, key: string)
    requires VersionInv(s) && Enabled(s, Enter(id))
    ensures VersionInv(AfterEntry(s, id, key))
  {
    var t, r := AfterEntry(s, id, key), s.requests[id];
    assert RequestGenuine(s, r);
    QuietEntry(s, t, id, t.requests[id], key, Flight(s.nextFlight, r.pos, id, r.phase.snapshot, Fetching));
  }

  lemma EnterKeepsVersions(s: State, id: nat)
    requires VersionInv(s) && Enabled(s, Enter(id))
    ensures VersionInv(AfterEnter(s, id))
  {
    EntryKeepsVersions(s, id, FlightKey(s.requests[id].pos, s.policy.decimals));
  }

  lemma FinishKeepsVersions(s: State, key: string)
    requires VersionInv(s) && Enabled(s, Finish(key))
    ensures VersionInv(AfterFinish(s, key))
  {
    var t := AfterFinish(s, key);
    forall id | id in t.requests ensures RequestGenuine(s, t.requests[id]) {
      assert RequestGenuine(s, s.requests[id]);
    }
    QuietStep(s, t);
  }

  lemma EvictKeepsVersions(s: State, retention: int)
    requires VersionInv(s)
    ensures VersionInv(Apply(s, Evict(retention)))
  {
    QuietStep(s, Apply(s, Evict(retention)));
  }

  lemma TickKeepsVersions(s: State, later: Time)
    requires VersionInv(s) && s.now <= later
    ensures VersionInv(Apply(s, Tick(later)))
  {
    QuietStep(s, Apply(s, Tick(later)));
  }

  lemma StepKeepsVersions(s: State, zone: iset<Pos>, step: Step)
    requires Inv(s) && StateWithin(s, zone) && Coherent(zone, s.policy.decimals) && VersionInv(s)
    requires Enabled(s, step) && Conforming(s, step)
    ensures VersionInv(Apply(s, step))
  {
    match step
    case Lookup(id, lat, lon, readOk) => LookupKeepsVersions(s, id, lat, lon, readOk);
    case Check(id) => CheckKeepsVersions(s, id);
    case Enter(id) => EnterKeepsVersions(s, id);
    case Fetch(key, reply) => FetchKeepsVersions(s, key, reply);
    case Store(key, writeOk) => StoreKeepsVersions(s, zone, key, writeOk);
    case Finish(key) => FinishKeepsVersions(s, key);
    case Evict(retention) => EvictKeepsVersions(s, retention);
    case Tick(later) => TickKeepsVersions(s, later);
    case Publish(_, _, _) => PublishKeepsVersions(s, step);
  }

  /**
   Freshness never regresses: in every interleaving of callers, flights, failed writes and evictions,
   the versions written to a row never go back, and the row shows the last one written.
   */
  lemma {:induction false} WritesNeverGoBack(s: State, steps: seq<Step>, zone: iset<Pos>)
    requires Inv(s) && StateWithin(s, zone) && Coherent(zone, s.policy.decimals) && VersionInv(s)
    requires CanRun(s, steps) && ConformingRun(s, steps) && RunWithin(s, steps, zone)
    ensures forall k :: NeverBack(WritesTo(Run(s, steps), k))
    ensures TableGenuine(Run(s, steps))
    decreases |steps|
  {
    if steps != [] {
      StepKeepsInv(s, steps[0]);
      StepStaysWithin(s, steps[0], zone);
      StepKeepsVersions(s, zone, steps[0]);
      PolicyIsFixed(s, [steps[0]]);
      WritesNeverGoBack(Apply(s, steps[0]), steps[1..], zone);
    } else {
      assert forall k :: WritesInOrder(PublishedAt(s, k), WritesTo(s, k));
    }
  }

  // ---- the two zeros -------------------------------------------------------------------------

  function Empty(policy: Policy): State {
    State(policy, 0, map[], map[], map[], 0, map[], {}, {}, map[], map[], map[])
  }

  lemma {:induction false} RunExtends(s: State, steps: seq<Step>, step: Step, zone: iset<Pos>)
    requires CanRun(s, steps) && ConformingRun(s, steps) && RunWithin(s, steps, zone)
    requires Enabled(Run(s, steps), step) && Conforming(Run(s, steps), step) && Within(Run(s, steps), step, zone)
    ensures CanRun(s, steps + [step]) && Run(s, steps + [step]) == Apply(Run(s, steps), step)
    ensures ConformingRun(s, steps + [step]) && RunWithin(s, steps + [step], zone)
    decreases |steps|
  {
    if steps == [] {
      assert [step][1..] == [];
      assert steps + [step] == [step];
    } else {
      RunExtends(Apply(s, steps[0]), steps[1..], step, zone);
      assert (steps + [step])[1..] == steps[1..] + [step];
    }
  }

  /** A service, the positions it is asked for, and whether its database may fail. */
  datatype Setting = Setting(policy: Policy, zone: iset<Pos>, queriesFail: bool) {
    /** Every position of the zone is what some valid input is rounded to, and replies are not capped to nothing. */
    ghost predicate Inhabited() {
      policy.cap >= 1 && forall p :: p in zone ==> exists x: Input :: x.Valid() && x.At(policy.decimals) == p
    }

    predicate Allows(step: Step) {
      queriesFail || ((step.Lookup? ==> step.readOk) && (step.Store? ==> step.writeOk))
    }
  }

  /** `s` is the end of a run from the empty service, with a truthful upstream and callers in the zone. */
  ghost predicate ReachedBy(w: Setting, s: State, steps: seq<Step>) {
    && CanRun(Empty(w.policy), steps) && ConformingRun(Empty(w.policy), steps)
    && RunWithin(Empty(w.policy), steps, w.zone) && (forall i :: 0 <= i < |steps| ==> w.Allows(steps[i]))
    && Run(Empty(w.policy), steps) == s
  }

  ghost predicate Reached(w: Setting, s: State) {
    exists steps :: ReachedBy(w, s, steps)
  }

  lemma ReachEmpty(w: Setting)
    ensures Reached(w, Empty(w.policy))
  {
    assert ReachedBy(w, Empty(w.policy), []);
  }

  lemma ReachNext(w: Setting, s: State, step: Step)
    requires Reached(w, s) && w.Allows(step)
    requires Enabled(s, step) && Conforming(s, step) && Within(s, step, w.zone)
    ensures Reached(w, Apply(s, step))
  {
    var steps :| ReachedBy(w, s, steps);
    RunExtends(Empty(w.policy), steps, step, w.zone);
    assert ReachedBy(w, Apply(s, step), steps + [step]);
  }

  datatype Input = Input(lat: Degrees, lon: Degrees) {
    ghost predicate Valid() {
      lat.size >= 0.0 && lon.size >= 0.0 && InRange(lat, lon)
    }

    function At(decimals: nat): Pos
      requires lat.size >= 0.0 && lon.size >= 0.0
    {
      Normalise(lat, lon, decimals)
    }
  }

  const OLDER := Version([1], 0)
  const NEWER := Version([2], 1)

  ghost predicate Airborne(s: State, key: string, k: RowKey, stage: Stage) {
    key in s.flights && RowOf(s.flights[key].pos) == k && s.flights[key].stage == stage
  }

  ghost predicate SameOthers(s: State, t: State, key: string) {
    && (forall key' :: key' in s.flights && key' != key ==> key' in t.flights && t.flights[key'] == s.flights[key'])
  }

  function ReadOf(s: State, p: Pos, readOk: bool): Snapshot {
    if readOk && RowOf(p) in s.rows then Some(s.rows[RowOf(p)]) else None
  }

  lemma UpdateTwice<T>(m: map<nat, T>, id: nat, x: T, y: T)
    ensures m[id := x][id := y] == m[id := y]
  {
  }

  /** Caller `id` asks for `p` and finds no fresh row. */
  lemma ReadAndMiss(w: Setting, s: State, id: nat, p: Pos, readOk: bool) returns (t: State)
    requires Reached(w, s) && w.Inhabited() && p in w.zone && s.policy == w.policy
    requires id !in s.requests && (readOk || w.queriesFail)
    requires ReadOf(s, p, readOk).Some? ==> !IsFresh(w.policy, ReadOf(s, p, readOk).value, s.now)
    ensures Reached(w, t)
    ensures t == s.(requests := s.requests[id := Request(p, Missed(ReadOf(s, p, readOk)))],
                    lookups := s.lookups[id := CacheRead(ReadOf(s, p, readOk), Some(s.now))])
  {
    var snapshot := ReadOf(s, p, readOk);
    var u := AfterRead(s, id, p, readOk);
    ReachRead(w, s, id, p, readOk);
    t := AfterCheck(u, id);
    ReachNext(w, u, Check(id));
    UpdateTwice(s.requests, id, Request(p, Looked(snapshot)), Request(p, Missed(snapshot)));
    UpdateTwice(s.lookups, id, CacheRead(snapshot, None), CacheRead(snapshot, Some(s.now)));
  }

  lemma ReachRead(w: Setting, s: State, id: nat, p: Pos, readOk: bool)
    requires Reached(w, s) && w.Inhabited() && p in w.zone && s.policy == w.policy
    requires id !in s.requests && (readOk || w.queriesFail)
    ensures Reached(w, AfterRead(s, id, p, readOk))
  {
    var x: Input :| x.Valid() && x.At(w.policy.decimals) == p;
    ReachNext(w, s, Lookup(id, x.lat, x.lon, readOk));
  }

  /** Caller `id` asks for `p`, finds no fresh row and leads a flight of its own. */
  lemma LeadFlight(w: Setting, s: State, id: nat, p: Pos, readOk: bool) returns (t: State)
    requires Reached(w, s) && w.Inhabited() && p in w.zone && s.policy == w.policy
    requires id !in s.requests && FlightKey(p, w.policy.decimals) !in s.flights && (readOk || w.queriesFail)
    requires ReadOf(s, p, readOk).Some? ==> !IsFresh(w.policy, ReadOf(s, p, readOk).value, s.now)
    ensures Reached(w, t)
    ensures t == Led(s, id, p, readOk)
  {
    var u := ReadAndMiss(w, s, id, p, readOk);
    t := AfterEnter(u, id);
    ReachNext(w, u, Enter(id));
    var waiting := Request(p, Waiting(FlightKey(p, w.policy.decimals), s.nextFlight));
    UpdateTwice(s.requests, id, Request(p, Missed(ReadOf(s, p, readOk))), waiting);
  }

  function Led(s: State, id: nat, p: Pos, readOk: bool): State {
    var key := FlightKey(p, s.policy.decimals);
    s.(requests := s.requests[id := Request(p, Waiting(key, s.nextFlight))],
       lookups := s.lookups[id := CacheRead(ReadOf(s, p, readOk), Some(s.now))],
       flights := s.flights[key := Flight(s.nextFlight, p, id, ReadOf(s, p, readOk), Fetching)],
       nextFlight := s.nextFlight + 1)
  }

  lemma PublishVersion(w: Setting, s: State, k: RowKey, v: Version) returns (t: State)
    requires Reached(w, s)
    requires var versions := PublishedAt(s, k);
             versions != [] ==> versions[|versions| - 1].lastModified < v.lastModified
    ensures Reached(w, t) && t == s.(published := s.published[k := PublishedAt(s, k) + [v]])
  {
    var step := Publish(k, v.body, v.lastModified);
    t := Apply(s, step);
    ReachNext(w, s, step);
  }

  /** The upstream answers a flight with its last version, without an expiry. */
  lemma SendVersion(w: Setting, s: State, key: string, k: RowKey, v: Version) returns (t: State)
    requires Reached(w, s) && Airborne(s, key, k, Fetching) && |v.body| <= s.policy.cap
    requires PublishedAt(s, k) != [] && PublishedAt(s, k)[|PublishedAt(s, k)| - 1] == v
    ensures Reached(w, t) && SameOthers(s, t, key) && t.published == s.published && t.writes == s.writes
    ensures Airborne(t, key, k, Answered(Fetched(v.body, None, Some(v.lastModified)), |PublishedAt(s, k)| - 1))
    ensures t.requests == s.requests && t.policy == s.policy && t.rows == s.rows && t.flights.Keys == s.flights.Keys
  {
    var reply := Reply(200, v.body, true, true, None, Some(v.lastModified));
    t := AfterFetch(s, key, reply);
    ReachNext(w, s, Fetch(key, reply));
  }

  lemma StoreFlight(w: Setting, s: State, key: string, k: RowKey, v: Version, version: nat)
    returns (t: State)
    requires Reached(w, s)
    requires Airborne(s, key, k, Answered(Fetched(v.body, None, Some(v.lastModified)), version))
    ensures Reached(w, t) && SameOthers(s, t, key) && t.policy == s.policy
    ensures WritesTo(t, k) == WritesTo(s, k) + [version]
  {
    t := AfterStore(s, key, true);
    ReachNext(w, s, Store(key, true));
  }

  lemma AnswerWith(w: Setting, s: State, key: string, k: RowKey, v: Version) returns (t: State)
    requires Reached(w, s) && Airborne(s, key, k, Fetching) && |v.body| <= s.policy.cap
    requires var versions := PublishedAt(s, k);
             versions != [] ==> versions[|versions| - 1].lastModified < v.lastModified
    ensures Reached(w, t) && SameOthers(s, t, key)
    ensures PublishedAt(t, k) == PublishedAt(s, k) + [v] && WritesTo(t, k) == WritesTo(s, k) && t.policy == s.policy
    ensures Airborne(t, key, k, Answered(Fetched(v.body, None, Some(v.lastModified)), |PublishedAt(s, k)|))
  {
    var u := PublishVersion(w, s, k, v);
    assert PublishedAt(u, k) == PublishedAt(s, k) + [v];
    t := SendVersion(w, u, key, k, v);
  }

  /** Two flights for one row: the second is answered later and stores first. */
  lemma LaterAnswerStoresFirst(w: Setting, s: State, ka: string, kb: string, k: RowKey)
    returns (t: State)
    requires Reached(w, s) && ka != kb
    requires Airborne(s, ka, k, Fetching) && Airborne(s, kb, k, Fetching)
    requires PublishedAt(s, k) == [] && WritesTo(s, k) == [] && s.policy.cap >= 1
    ensures Reached(w, t) && WritesTo(t, k) == [1, 0]
  {
    t := AnswerWith(w, s, ka, k, OLDER);
    t := AnswerWith(w, t, kb, k, NEWER);
    t := StoreFlight(w, t, kb, k, NEWER, 1);
    t := StoreFlight(w, t, ka, k, OLDER, 0);
  }

  /** Two positions with two flight keys can be in the air at the same time. */
  lemma BothLead(w: Setting, p: Pos, q: Pos) returns (t: State)
    requires w.Inhabited() && p in w.zone && q in w.zone
    requires FlightKey(p, w.policy.decimals) != FlightKey(q, w.policy.decimals)
    ensures Reached(w, t) && t.published == map[] && t.writes == map[] && t.policy == w.policy
    ensures Airborne(t, FlightKey(p, w.policy.decimals), RowOf(p), Fetching)
    ensures Airborne(t, FlightKey(q, w.policy.decimals), RowOf(q), Fetching)
  {
    ReachEmpty(w);
    t := LeadFlight(w, Empty(w.policy), 0, p, true);
    t := LeadFlight(w, t, 1, q, true);
  }

  /** If two positions of the zone share a row but not a flight, that row can go back. */
  lemma SeparateFlightsCanGoBack(w: Setting, p: Pos, q: Pos)
    requires w.Inhabited() && p in w.zone && q in w.zone && RowOf(p) == RowOf(q)
    requires FlightKey(p, w.policy.decimals) != FlightKey(q, w.policy.decimals)
    ensures exists s :: Reached(w, s) && !OneFlightEach(s)
    ensures exists s :: Reached(w, s) && !NeverBack(WritesTo(s, RowOf(p)))
  {
    var s := BothLead(w, p, q);
    assert !OneFlightEach(s);
    var kp, kq := FlightKey(p, w.policy.decimals), FlightKey(q, w.policy.decimals);
    var t := LaterAnswerStoresFirst(w, s, kp, kq, RowOf(p));
    assert WritesTo(t, RowOf(p))[0] > WritesTo(t, RowOf(p))[1];
  }

  /** No matter how a coherent zone is used: one flight per row, and no row goes back. */
  lemma CoherentIsSafe(w: Setting, s: State)
    requires Coherent(w.zone, w.policy.decimals) && Reached(w, s)
    ensures OneFlightEach(s) && forall k :: NeverBack(WritesTo(s, k))
  {
    var steps :| ReachedBy(w, s, steps);
    AtMostOneFetchPerRow(Empty(w.policy), steps, w.zone);
    WritesNeverGoBack(Empty(w.policy), steps, w.zone);
  }

  /**
   The exact condition for "one fetch per coordinate", for callers of any set of positions that valid
   inputs reach: never are two flights for one row in the air if and only if the positions that share
   a row share a flight key. By CoherentMeans it fails exactly for a zero coordinate with two signs.
   */
  lemma OneFetchIffCoherent(w: Setting)
    requires w.Inhabited()
    ensures (forall s :: Reached(w, s) ==> OneFlightEach(s)) <==> Coherent(w.zone, w.policy.decimals)
  {
    if Coherent(w.zone, w.policy.decimals) {
      forall s | Reached(w, s) ensures OneFlightEach(s) {
        CoherentIsSafe(w, s);
      }
    } else {
      var p, q :| p in w.zone && q in w.zone && RowOf(p) == RowOf(q)
        && FlightKey(p, w.policy.decimals) != FlightKey(q, w.policy.decimals);
      SeparateFlightsCanGoBack(w, p, q);
    }
  }

  /** The same condition decides whether every row only ever moves to newer versions. */
  lemma NeverBackIffCoherent(w: Setting)
    requires w.Inhabited()
    ensures (forall s, k :: Reached(w, s) ==> NeverBack(WritesTo(s, k))) <==> Coherent(w.zone, w.policy.decimals)
  {
    if Coherent(w.zone, w.policy.decimals) {
      forall s, k | Reached(w, s) ensures NeverBack(WritesTo(s, k)) {
        CoherentIsSafe(w, s);
      }
    } else {
      var p, q :| p in w.zone && q in w.zone && RowOf(p) == RowOf(q)
        && FlightKey(p, w.policy.decimals) != FlightKey(q, w.policy.decimals);
      SeparateFlightsCanGoBack(w, p, q);
    }
  }

  lemma PairIsCoherent(p: Pos, q: Pos, decimals: nat)
    requires RowOf(p) == RowOf(q)
    ensures Coherent(iset{p, q}, decimals) <==> FlightKey(p, decimals) == FlightKey(q, decimals)
  {
  }

  /** In particular, for two callers of one row: it never goes back exactly when they print the same key. */
  lemma NeverBackIffOneFlight(w: Setting, p: Pos, q: Pos)
    requires w.Inhabited() && w.zone == iset{p, q} && RowOf(p) == RowOf(q)
    ensures (forall s, k :: Reached(w, s) ==> NeverBack(WritesTo(s, k))) <==>
            FlightKey(p, w.policy.decimals) == FlightKey(q, w.policy.decimals)
  {
    PairIsCoherent(p, q, w.policy.decimals);
    NeverBackIffCoherent(w);
  }

  /** A place on the equator: just south and just north of it is one row and two flights, in both services. */
  lemma EquatorHasTwoFlights()
    ensures forall policy :: policy == WEATHER || policy == GEOCODE ==>
              var south := Input(Degrees(true, 0.00001), Degrees(false, 10.0));
              var north := Input(Degrees(false, 0.00001), Degrees(false, 10.0));
              && south.Valid() && north.Valid()
              && RowOf(south.At(policy.decimals)) == RowOf(north.At(policy.decimals))
              && FlightKey(south.At(policy.decimals), policy.decimals) !=
                 FlightKey(north.At(policy.decimals), policy.decimals)
  {
    forall policy | policy == WEATHER || policy == GEOCODE
      ensures var south := NormaliseAxis(Degrees(true, 0.00001), policy.decimals);
              var north := NormaliseAxis(Degrees(false, 0.00001), policy.decimals);
              south == Axis(true, 0) && north == Axis(false, 0)
    {
      assert Power10(policy.decimals) <= 10000 by {
        assert Power10(0) == 1 && Power10(1) == 10 && Power10(2) == 100 && Power10(3) == 1000 && Power10(4) == 10000;
      }
      RoundsToZero(Scaled(Degrees(true, 0.00001), policy.decimals));
    }
    forall policy | policy == WEATHER || policy == GEOCODE
      ensures var south := Input(Degrees(true, 0.00001), Degrees(false, 10.0)).At(policy.decimals);
              var north := Input(Degrees(false, 0.00001), Degrees(false, 10.0)).At(policy.decimals);
              RowOf(south) == RowOf(north) && FlightKey(south, policy.decimals) != FlightKey(north, policy.decimals)
    {
      var south := Input(Degrees(true, 0.00001), Degrees(false, 10.0)).At(policy.decimals);
      var north := Input(Degrees(false, 0.00001), Degrees(false, 10.0)).At(policy.decimals);
      FlightsVersusRows(south, north, policy.decimals);
    }
  }
}
