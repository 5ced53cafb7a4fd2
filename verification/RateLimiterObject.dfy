/** The limiter of `createRateLimiter` with the lock file of `createPersistence`, as an object whose
    maps the methods update. */
module RateLimiterObject {
  import opened RateWindow
  import opened RateLimiter

  /** The result object of `enforceEndpointRateLimit`: ok, or a code with the end of the lock. */
  datatype Reply = Ok | RateLimitLocked(lockedUntil: nat) | RateLimitExceeded(lockedUntil: nat)

  function ReplyOf(v: Verdict): Reply {
    match v
    case Accepted => Ok
    case Locked(until) => RateLimitLocked(until)
    case Exceeded(until) => RateLimitExceeded(until)
  }

  class EndpointRateLimiter {
    const limits: Table
    var endpointRateState: Memory
    var savedLocks: LockFile

    ghost function View(): Limiter
      reads this
    {
      Limiter(endpointRateState, savedLocks)
    }

    /** A fresh process, with whatever file the last one left. */
    constructor (limits: Table, savedLocks: LockFile, now: nat)
      ensures this.limits == limits
      ensures View() == Limiter(LoadRateLocks(map[], savedLocks, now), savedLocks)
    {
      this.limits := limits;
      this.savedLocks := savedLocks;
      endpointRateState := map[];
      new;
      LoadLocks(now);
    }

    /** `loadRateLocks`: takes over every lock that is still running. */
    method LoadLocks(now: nat)
      modifies this`endpointRateState
      ensures endpointRateState == LoadRateLocks(old(endpointRateState), savedLocks, now)
    {
      var remaining := savedLocks.Keys;
      while remaining != {}
        invariant remaining <= savedLocks.Keys
        invariant endpointRateState == old(endpointRateState) +
                  map k | k in savedLocks && k !in remaining && savedLocks[k] > now :: Entry([], savedLocks[k])
      {
        var key :| key in remaining;
        var lockedUntil := savedLocks[key];
        if lockedUntil > now {
          endpointRateState := endpointRateState[key := Entry([], lockedUntil)];
        }
        remaining := remaining - {key};
      }
    }

    /** `saveRateLock`: rewrites the file with the locks still running and the new one. */
    method SaveLock(key: string, lockedUntil: nat, now: nat)
      modifies this`savedLocks
      ensures savedLocks == SaveRateLock(old(savedLocks), key, lockedUntil, now)
    {
      var existing, kept: LockFile := savedLocks, map[];
      var remaining := existing.Keys;
      while remaining != {}
        invariant remaining <= existing.Keys
        invariant kept == map k | k in existing && k !in remaining && existing[k] > now :: existing[k]
      {
        var k :| k in remaining;
        if existing[k] > now {
          kept := kept[k := existing[k]];
        }
        remaining := remaining - {k};
      }
      if lockedUntil > now {
        kept := kept[key := lockedUntil];
      }
      savedLocks := kept;
    }

    method EnforceEndpointRateLimit(endpoint: string, actorId: string, now: nat) returns (reply: Reply)
      modifies this
      ensures View() == Step(limits, old(View()), Enforcing(endpoint, actorId, now))
      ensures reply == ReplyOf(Answer(limits, old(View()), endpoint, actorId, now))
    {
      if endpoint !in limits {
        return Ok;
      }
      var limit, key := limits[endpoint], KeyOf(endpoint, actorId);
      var existing := EntryOf(endpointRateState, key);
      if existing.lockedUntil > now {
        return RateLimitLocked(existing.lockedUntil);
      }
      var hits := Prune(existing.hits, now, limit.windowMs) + [now];
      if |hits| > limit.max {
        var until := now + limit.lockMs;
        endpointRateState := endpointRateState[key := Entry(hits, until)];
        SaveLock(key, until, now);
        return RateLimitExceeded(until);
      }
      endpointRateState := endpointRateState[key := Entry(hits, 0)];
      return Ok;
    }
  }
}
