/**
 The service object itself: the cache table and the flight group, updated in place. Each method is
 what one request, or one flight, does between two points where another can interleave. Every method
 is proved to be one step of the protocol, and Perform and Drive to keep the protocol's invariant.
 */
module CacheService {
  import opened Wrappers
  import opened Coordinates
  import opened FlightProtocol
  import opened FlightSafety

  class Service {
    const policy: Policy
    var now: Time
    var rows: map<RowKey, Row>
    var requests: map<nat, Request>
    var flights: map<string, Flight>
    var nextFlight: nat
    // history
    var published: map<RowKey, seq<Version>>
    var bodies: set<(RowKey, Body)>
    var stamps: set<(RowKey, Body, Option<Time>)>
    var writes: map<RowKey, seq<nat>>
    var lookups: map<nat, CacheRead>
    var reports: map<nat, Report>

    function Abstract(): State
      reads this
    {
      State(policy, now, rows, requests, flights, nextFlight, published, bodies, stamps, writes, lookups, reports)
    }

    ghost predicate Valid()
      reads this
    {
      Inv(Abstract())
    }

    constructor (policy: Policy, now: Time)
      ensures this.policy == policy && Valid() && Initial(Abstract())
    {
      this.policy, this.now := policy, now;
      rows, requests, flights, nextFlight := map[], map[], map[], 0;
      published, bodies, stamps, writes, lookups, reports := map[], {}, {}, map[], map[], map[];
    }

    // ---- the repository ----------------------------------------------------------------------

    /** The cached row; a failed query and a missing row are both a miss. */
    method Get(k: RowKey, readOk: bool) returns (cached: Snapshot)
      ensures cached.Some? <==> readOk && k in rows
      ensures cached.Some? ==> cached.value == rows[k]
    {
      if !readOk || k !in rows {
        return None;
      }
      return Some(rows[k]);
    }

    method Set(k: RowKey, row: Row, writeOk: bool)
      modifies this`rows, this`writes
      ensures Abstract() == if writeOk then RowWritten(old(Abstract()), k, row) else old(Abstract())
    {
      if writeOk {
        writes := writes[k := WritesTo(Abstract(), k) + [row.version]];
        rows := rows[k := row];
      }
    }

    /** Removes the rows not refreshed within the retention period and counts them. */
    method DeleteStale(retention: int) returns (deleted: nat)
      modifies this`rows
      ensures Abstract() == Apply(old(Abstract()), Evict(retention))
      ensures deleted == |old(rows)| - |rows|
    {
      var kept := map k | k in rows && rows[k].cachedAt >= now - retention :: rows[k];
      CountRemoved(rows.Keys, kept.Keys);
      deleted := |rows| - |kept|;
      rows := kept;
    }

    // ---- one request -------------------------------------------------------------------------

    /** Validation, rounding and the cache read. */
    method Lookup(id: nat, lat: Degrees, lon: Degrees, readOk: bool)
      requires id !in requests && lat.size >= 0.0 && lon.size >= 0.0
      modifies this`requests, this`lookups
      ensures Abstract() == Apply(old(Abstract()), Step.Lookup(id, lat, lon, readOk))
    {
      var pos := Normalise(lat, lon, policy.decimals);
      if lat.size > 90.0 || lon.size > 180.0 {
        requests := requests[id := Request(pos, Done(Rejected, None))];
        lookups := lookups[id := CacheRead(None, Some(now))];
        return;
      }
      var cached := Get(RowOf(pos), readOk);
      requests := requests[id := Request(pos, Looked(cached))];
      lookups := lookups[id := CacheRead(cached, None)];
    }

    /** Serves an unexpired row without touching the flight group. */
    method Check(id: nat)
      requires id in requests && requests[id].phase.Looked?
      modifies this`requests, this`lookups
      ensures Abstract() == Apply(old(Abstract()), Step.Check(id))
    {
      var r := requests[id];
      var cached := r.phase.snapshot;
      lookups := lookups[id := CacheRead(cached, Some(now))];
      if cached.Some? && (!policy.expires || (cached.value.expires.Some? && now < cached.value.expires.value)) {
        var row := cached.value;
        requests := requests[id := r.(phase := Done(Served(row.body, row.cachedAt, row.expires, FromCache), None))];
        return;
      }
      requests := requests[id := r.(phase := Missed(cached))];
    }

    /** singleflight's Do: joins the flight of this coordinate if there is one, and leads one otherwise. */
    method Enter(id: nat)
      requires id in requests && requests[id].phase.Missed?
      modifies this`requests, this`flights, this`nextFlight
      ensures Abstract() == Apply(old(Abstract()), Step.Enter(id))
    {
      var r := requests[id];
      var key := FlightKey(r.pos, policy.decimals);
      if key in flights {
        requests := requests[id := r.(phase := Waiting(key, flights[key].id))];
        return;
      }
      flights := flights[key := Flight(nextFlight, r.pos, id, r.phase.snapshot, Fetching)];
      requests := requests[id := r.(phase := Waiting(key, nextFlight))];
      nextFlight := nextFlight + 1;
    }

    // ---- one flight --------------------------------------------------------------------------

    /** The upstream reply arrives and is judged. */
    method Fetch(key: string, reply: Reply)
      requires key in flights && flights[key].stage.Fetching?
      modifies this`flights, this`bodies, this`stamps
      ensures Abstract() == Apply(old(Abstract()), Step.Fetch(key, reply))
    {
      var f := flights[key];
      var k := RowOf(f.pos);
      var version := CurrentVersion(Abstract(), k);
      var answer := Failed;
      if reply.Reply? && reply.status == 200 {
        if reply.complete && |reply.body| <= policy.cap && reply.wellFormed {
          answer := Fetched(reply.body, reply.expires, reply.lastModified);
          bodies := bodies + {(k, reply.body)};
        }
      } else if reply.Reply? && reply.status == 304 && policy.expires {
        answer := NotModified(reply.expires);
      }
      stamps := stamps + Stamped(k, f.snapshot, answer);
      flights := flights[key := f.(stage := Answered(answer, version))];
    }

    /** The rest of fetchAndStore: write to the cache, and settle what to report. */
    method Store(key: string, writeOk: bool)
      requires key in flights && flights[key].stage.Answered?
      modifies this`flights, this`rows, this`writes
      ensures Abstract() == Apply(old(Abstract()), Step.Store(key, writeOk))
    {
      var f := flights[key];
      var k := RowOf(f.pos);
      var outcome: Outcome;
      match f.stage.answer {
        case Failed =>
          if f.snapshot.Some? {
            var cached := f.snapshot.value;
            outcome := Served(cached.body, cached.cachedAt, cached.expires, FromStaleCache);
          } else {
            outcome := Unavailable;
          }
        case NotModified(expires) =>
          if f.snapshot.Some? {
            var cached := f.snapshot.value;
            Set(k, cached.(cachedAt := now, expires := expires), writeOk);
            outcome := Served(cached.body, cached.cachedAt, expires, FromCache);
          } else {
            outcome := Unbacked;
          }
        case Fetched(body, expires, lastModified) =>
          Set(k, Row(now, expires, lastModified, body, f.stage.version), writeOk);
          outcome := Served(body, now, expires, FromUpstream);
      }
      flights := flights[key := f.(stage := Ended(f.stage.answer, outcome))];
    }

    /** The flight leaves the group and everyone waiting for it receives the outcome. */
    method Finish(key: string)
      requires key in flights && flights[key].stage.Ended?
      modifies this`flights, this`requests, this`reports
      ensures Abstract() == Apply(old(Abstract()), Step.Finish(key))
    {
      var f := flights[key];
      requests := Delivered(requests, key, f);
      reports := reports[f.id := Report(f.leader, f.stage.answer, f.stage.outcome)];
      flights := map k | k in flights && k != key :: flights[k];
    }

    // ---- the world around it -----------------------------------------------------------------

    method Tick(later: Time)
      requires now <= later
      modifies this`now
      ensures Abstract() == Apply(old(Abstract()), Step.Tick(later))
    {
      now := later;
    }

    method Publish(k: RowKey, body: Body, lastModified: Time)
      modifies this`published
      ensures Abstract() == Apply(old(Abstract()), Step.Publish(k, body, lastModified))
    {
      published := published[k := PublishedAt(Abstract(), k) + [Version(body, lastModified)]];
    }

    // ---- whole runs --------------------------------------------------------------------------

    method Perform(step: Step)
      requires Valid() && Enabled(Abstract(), step)
      modifies this
      ensures Valid() && Abstract() == Apply(old(Abstract()), step)
    {
      StepKeepsInv(Abstract(), step);
      match step {
        case Lookup(id, lat, lon, readOk) => Lookup(id, lat, lon, readOk);
        case Check(id) => Check(id);
        case Enter(id) => Enter(id);
        case Fetch(key, reply) => Fetch(key, reply);
        case Store(key, writeOk) => Store(key, writeOk);
        case Finish(key) => Finish(key);
        case Evict(retention) => var _ := DeleteStale(retention);
        case Tick(later) => Tick(later);
        case Publish(k, body, lastModified) => Publish(k, body, lastModified);
      }
    }

    /** Driven by any interleaving, the object goes through the states of the run and stays valid. */
    method Drive(steps: seq<Step>)
      requires Valid() && CanRun(Abstract(), steps)
      modifies this
      ensures Valid() && Abstract() == Run(old(Abstract()), steps)
    {
      var i := 0;
      assert steps[0..] == steps;
      while i < |steps|
        invariant 0 <= i <= |steps|
        invariant Valid() && CanRun(Abstract(), steps[i..])
        invariant Run(Abstract(), steps[i..]) == Run(old(Abstract()), steps)
      {
        assert steps[i..][0] == steps[i] && steps[i..][1..] == steps[i + 1..];
        Perform(steps[i]);
        i := i + 1;
      }
    }
  }

  lemma CountRemoved<T>(all: set<T>, kept: set<T>)
    requires kept <= all
    ensures |kept| <= |all|
  {
    assert all == kept + (all - kept);
  }
}
