/**
 The weather handler: status codes, freshness and conditional responses for what the service
 reports, and what they mean together with the protocol.
 */
module WeatherHandler {
  import opened Basics
  import opened Wrappers
  import opened Coordinates
  import opened FlightProtocol
  import opened FlightSafety
  import Tags = EntityTags

  /** max-age counts whole seconds. */
  datatype CacheControl = NoCache | MaxAge(seconds: nat)

  datatype Response = Response(status: nat, cacheControl: Option<CacheControl>, etag: Option<string>, body: Body)

  const SECOND: int := 1_000_000_000

  /** Go's zero time, 1 January of the year 1, in nanoseconds relative to 1970. */
  const ZERO_TIME: Time := -62135596800 * SECOND

  function CacheExpiry(expires: Option<Time>): Time {
    if expires.None? then ZERO_TIME else expires.value
  }

  function Freshness(expires: Option<Time>, now: Time): CacheControl {
    var ttl := CacheExpiry(expires) - now;
    if ttl > 0 then MaxAge(ttl / SECOND) else NoCache
  }

  /** The line feed written after every body. */
  const LINE_FEED: Byte := 10

  method GetWeather(outcome: Outcome, ifNoneMatch: string, now: Time) returns (r: Response)
    ensures outcome.Served? ==>
              && r.cacheControl == Some(Freshness(outcome.expires, now))
              && r.etag == Some(Tags.TagText(Tags.TagOf(outcome.body)))
              && (r.status == 304 || r.status == 200)
              && (r.status == 304 <==> Tags.Covers(ifNoneMatch, Tags.TagText(Tags.TagOf(outcome.body))))
              && r.body == if r.status == 304 then [] else outcome.body + [10]
    ensures !outcome.Served? ==>
              && r.cacheControl == None && r.etag == None
              && r.status == match outcome { case Rejected => 422 case Unavailable => 503 case _ => 500 }
  {
    if !outcome.Served? {
      if outcome.Rejected? {
        return Response(422, None, None, []);
      }
      if outcome.Unavailable? {
        return Response(503, None, None, []);
      }
      return Response(500, None, None, []);
    }
    var cacheControl := NoCache;
    var ttl := CacheExpiry(outcome.expires) - now;
    if ttl > 0 {
      cacheControl := MaxAge(ttl / SECOND);
    }
    var etag := Tags.WeakETag(outcome.body);
    var matched := Tags.MatchesETag(ifNoneMatch, etag);
    if matched {
      return Response(304, Some(cacheControl), Some(etag), []);
    }
    return Response(200, Some(cacheControl), Some(etag), outcome.body + [LINE_FEED]);
  }

  // ---- freshness -----------------------------------------------------------------------------

  /** A response may be reused for as long as the upstream said, and not one nanosecond longer. */
  lemma MaxAgeEndsBeforeExpiry(expires: Option<Time>, now: Time)
    requires now >= -62135596800 * 1_000_000_000
    ensures Freshness(expires, now).MaxAge? <==> expires.Some? && now < expires.value
    ensures Freshness(expires, now).MaxAge? ==>
              && now + Freshness(expires, now).seconds * 1_000_000_000 <= expires.value
              && expires.value < now + (Freshness(expires, now).seconds + 1) * 1_000_000_000
  {
  }

  /**
   In every run, what the service calls stale is sent as no-cache, to the leader and to every joiner,
   however late they are answered; and a max-age never reaches beyond an expiry that the upstream gave
   to the very body that is served, with it or by a 304.
   */
  lemma FreshnessIsHonest(s: State, steps: seq<Step>, id: nat)
    requires Initial(s) && CanRun(s, steps) && s.now >= -62135596800 * 1_000_000_000
    requires id in Run(s, steps).requests
    requires Run(s, steps).requests[id].phase.Done? && Run(s, steps).requests[id].phase.outcome.Served?
    ensures var t := Run(s, steps);
            var k, o := RowOf(t.requests[id].pos), t.requests[id].phase.outcome;
            var sent := Freshness(o.expires, t.now);
            && FromUpstreamOf(s, steps, k, o.body, o.expires)
            && (IsStale(o) ==> sent == NoCache)
            && (sent.MaxAge? ==> o.expires.Some? && t.now + sent.seconds * 1_000_000_000 <= o.expires.value)
  {
    var t := Run(s, steps);
    InitialIsSound(s, steps);
    assert RequestSound(t, id, t.requests[id]);
    ClockNeverGoesBack(s, steps);
    MaxAgeEndsBeforeExpiry(t.requests[id].phase.outcome.expires, t.now);
    ServedBytesAreUpstreamBytes(s, steps);
  }

  lemma ClockStep(s: State, step: Step)
    requires Enabled(s, step)
    ensures s.now <= Apply(s, step).now
  {
    match step
    case Lookup(_, _, _, _) =>
    case Check(_) =>
    case Enter(_) =>
    case Fetch(_, _) =>
    case Store(_, _) =>
    case Finish(_) =>
    case Evict(_) =>
    case Tick(_) =>
    case Publish(_, _, _) =>
  }

  lemma {:induction false} ClockNeverGoesBack(s: State, steps: seq<Step>)
    requires CanRun(s, steps)
    ensures s.now <= Run(s, steps).now
    decreases |steps|
  {
    if steps != [] {
      ClockStep(s, steps[0]);
      ClockNeverGoesBack(Apply(s, steps[0]), steps[1..]);
    }
  }

  // ---- conditional responses -----------------------------------------------------------------

  /** A well-formed If-None-Match list whose tags are all the tag of one body. */
  ghost predicate PresentsOnly(items: seq<Tags.Item>, body: Body) {
    && Tags.ValidItems(items)
    && (exists i :: 0 <= i < |items| && items[i].tag.Some?)
    && (forall i :: 0 <= i < |items| && items[i].tag.Some? ==> Tags.WeaklyEqual(items[i].tag.value, Tags.TagOf(body)))
  }

  /** A client holding the old body is told "not modified" exactly when both bodies have the same hash. */
  lemma NotModifiedIffSameHash(items: seq<Tags.Item>, old_: Body, new_: Body)
    requires PresentsOnly(items, old_)
    ensures Tags.Covers(Tags.ListText(items), Tags.TagText(Tags.TagOf(new_))) <==> Tags.Hash(old_) == Tags.Hash(new_)
  {
    Tags.TagOfIsCommaFree(new_);
    Tags.ListDecided(items, Tags.TagOf(new_));
    Tags.TagsAreHashes(old_, new_);
  }

  /** A single changed byte always gets the new body across. */
  lemma OneByteIsEnough(items: seq<Tags.Item>, old_: Body, new_: Body, i: nat)
    requires PresentsOnly(items, old_)
    requires |old_| == |new_| && i < |old_| && old_[i] != new_[i]
    requires forall j :: 0 <= j < |old_| && j != i ==> old_[j] == new_[j]
    ensures !Tags.Covers(Tags.ListText(items), Tags.TagText(Tags.TagOf(new_)))
  {
    Tags.OneByteChangesHash(old_, new_, i);
    NotModifiedIffSameHash(items, old_, new_);
  }
}
