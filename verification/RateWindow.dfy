/** The sliding window and lock of `enforceEndpointRateLimit` (rate-limiter.js) for one endpoint and
    actor, through restarts of the program, and the specification over the full history that the
    pruned list refines. */
module RateWindow {
  import opened Sequences

  datatype Limit = Limit(windowMs: nat, max: nat, lockMs: nat)

  /** The entry kept in `endpointRateState`. */
  datatype Entry = Entry(hits: seq<nat>, lockedUntil: nat)

  datatype Verdict = Accepted | Locked(until: nat) | Exceeded(until: nat)

  function NewEntry(): Entry {
    Entry([], 0)
  }

  function Prune(hits: seq<nat>, now: nat, windowMs: nat): seq<nat> {
    if hits == [] then []
    else
      var last := hits[|hits| - 1];
      Prune(hits[..|hits| - 1], now, windowMs) + if now - last < windowMs then [last] else []
  }

  function VerdictOf(limit: Limit, e: Entry, now: nat): Verdict {
    if e.lockedUntil > now then Locked(e.lockedUntil)
    else if |Prune(e.hits, now, limit.windowMs)| + 1 > limit.max then Exceeded(now + limit.lockMs)
    else Accepted
  }

  function NextEntry(limit: Limit, e: Entry, now: nat): Entry {
    var hits := Prune(e.hits, now, limit.windowMs) + [now];
    match VerdictOf(limit, e, now)
    case Locked(_) => e
    case Exceeded(until) => Entry(hits, until)
    case Accepted => Entry(hits, 0)
  }

  /** A restart keeps a lock that is still running and forgets the calls. */
  function Reload(e: Entry, now: nat): Entry {
    Entry([], if e.lockedUntil > now then e.lockedUntil else 0)
  }

  // ---- runs -------------------------------------------------------------------------

  datatype Moment = CallAt(time: nat) | RestartAt(time: nat)

  /** What is left of a moment: a call with its answer, or a restart. */
  datatype Past = Call(time: nat, verdict: Verdict) | Restarted(time: nat)

  function Next(limit: Limit, e: Entry, m: Moment): Entry {
    match m
    case CallAt(now) => NextEntry(limit, e, now)
    case RestartAt(now) => Reload(e, now)
  }

  function PastOf(limit: Limit, e: Entry, m: Moment): Past {
    match m
    case CallAt(now) => Call(now, VerdictOf(limit, e, now))
    case RestartAt(now) => Restarted(now)
  }

  function EntryAfter(limit: Limit, moments: seq<Moment>): Entry {
    if moments == [] then NewEntry()
    else Next(limit, EntryAfter(limit, moments[..|moments| - 1]), moments[|moments| - 1])
  }

  function Trace(limit: Limit, moments: seq<Moment>): seq<Past> {
    if moments == [] then []
    else
      var front, m := moments[..|moments| - 1], moments[|moments| - 1];
      Trace(limit, front) + [PastOf(limit, EntryAfter(limit, front), m)]
  }

  predicate Ordered(moments: seq<Moment>) {
    forall i :: 0 < i < |moments| ==> moments[i - 1].time <= moments[i].time
  }

  function LastTime(moments: seq<Moment>): nat {
    if moments == [] then 0 else moments[|moments| - 1].time
  }

  lemma RunNext(limit: Limit, moments: seq<Moment>, m: Moment)
    ensures EntryAfter(limit, moments + [m]) == Next(limit, EntryAfter(limit, moments), m)
    ensures Trace(limit, moments + [m]) == Trace(limit, moments) + [PastOf(limit, EntryAfter(limit, moments), m)]
  {
    assert (moments + [m])[..|moments|] == moments;
  }

  // ---- the full history -------------------------------------------------------------

  /** The times of the calls since the last restart, in order, that were not refused by a lock and
      still lie within the window ending now. */
  function Recent(history: seq<Past>, now: nat, windowMs: nat): seq<nat> {
    if history == [] || history[|history| - 1].Restarted? then []
    else
      var c := history[|history| - 1];
      Recent(history[..|history| - 1], now, windowMs) +
      if !c.verdict.Locked? && now - c.time < windowMs then [c.time] else []
  }

  predicate Overfilled(c: Past) {
    c.Call? && c.verdict.Exceeded?
  }

  /** Some overfilling call's lock is still running; restarts do not matter. */
  predicate LockRunning(history: seq<Past>, now: nat, lockMs: nat) {
    exists i :: 0 <= i < |history| && Overfilled(history[i]) && history[i].time + lockMs > now
  }

  /** The last lock ends at this time. */
  ghost predicate EndsLock(history: seq<Past>, until: nat, lockMs: nat) {
    && (exists i :: 0 <= i < |history| && Overfilled(history[i]) && history[i].time + lockMs == until)
    && forall i :: 0 <= i < |history| && Overfilled(history[i]) ==> history[i].time + lockMs <= until
  }

  /** A call is refused only while locked, or as the call that overfills the window. */
  ghost predicate Justified(limit: Limit, history: seq<Past>, now: nat, verdict: Verdict) {
    match verdict
    case Locked(until) => LockRunning(history, now, limit.lockMs) && EndsLock(history, until, limit.lockMs)
    case Exceeded(until) =>
      !LockRunning(history, now, limit.lockMs) && |Recent(history, now, limit.windowMs)| >= limit.max
      && until == now + limit.lockMs
    case Accepted => !LockRunning(history, now, limit.lockMs) && |Recent(history, now, limit.windowMs)| < limit.max
  }

  lemma {:induction false} PruneLater(hits: seq<nat>, now: nat, later: nat, windowMs: nat)
    requires now <= later
    ensures Prune(Prune(hits, now, windowMs), later, windowMs) == Prune(hits, later, windowMs)
  {
    if hits != [] {
      var front, last := hits[..|hits| - 1], hits[|hits| - 1];
      PruneLater(front, now, later, windowMs);
      if now - last < windowMs {
        PruneAppend(Prune(front, now, windowMs), last, later, windowMs);
      } else {
        assert Prune(hits, now, windowMs) == Prune(front, now, windowMs);
      }
    }
  }

  lemma PruneAppend(hits: seq<nat>, t: nat, now: nat, windowMs: nat)
    ensures Prune(hits + [t], now, windowMs) == Prune(hits, now, windowMs) + if now - t < windowMs then [t] else []
  {
    assert (hits + [t])[..|hits|] == hits;
  }

  /** What the pruned list knows about the calls since the last restart, from a time on. */
  ghost predicate HitsRefine(limit: Limit, hits: seq<nat>, history: seq<Past>, from: nat) {
    forall now {:trigger Recent(history, now, limit.windowMs)} :: from <= now ==>
      Prune(hits, now, limit.windowMs) == Recent(history, now, limit.windowMs)
  }

  /** What the lock knows about the full history. */
  ghost predicate LockRefines(limit: Limit, lockedUntil: nat, history: seq<Past>, from: nat) {
    forall now {:trigger LockRunning(history, now, limit.lockMs)} :: from <= now ==>
      (lockedUntil > now <==> LockRunning(history, now, limit.lockMs))
  }

  ghost predicate Refines(limit: Limit, e: Entry, history: seq<Past>, from: nat) {
    HitsRefine(limit, e.hits, history, from) && LockRefines(limit, e.lockedUntil, history, from)
  }

  lemma RecentAppend(history: seq<Past>, c: Past, now: nat, windowMs: nat)
    ensures Recent(history + [c], now, windowMs) ==
            if c.Restarted? then []
            else Recent(history, now, windowMs) + if !c.verdict.Locked? && now - c.time < windowMs then [c.time] else []
  {
    assert (history + [c])[..|history|] == history;
  }

  lemma StepHitsRefine(limit: Limit, e: Entry, history: seq<Past>, from: nat, m: Moment)
    requires from <= m.time && HitsRefine(limit, e.hits, history, from)
    ensures HitsRefine(limit, Next(limit, e, m).hits, history + [PastOf(limit, e, m)], m.time)
  {
    var next, history' := Next(limit, e, m), history + [PastOf(limit, e, m)];
    forall later | m.time <= later
      ensures Prune(next.hits, later, limit.windowMs) == Recent(history', later, limit.windowMs)
    {
      assert Recent(history, later, limit.windowMs) == Prune(e.hits, later, limit.windowMs);
      RecentAppend(history, PastOf(limit, e, m), later, limit.windowMs);
      PruneLater(e.hits, m.time, later, limit.windowMs);
      PruneAppend(Prune(e.hits, m.time, limit.windowMs), m.time, later, limit.windowMs);
    }
  }

  lemma StepLockRefines(limit: Limit, e: Entry, history: seq<Past>, from: nat, m: Moment)
    requires from <= m.time && LockRefines(limit, e.lockedUntil, history, from)
    ensures LockRefines(limit, Next(limit, e, m).lockedUntil, history + [PastOf(limit, e, m)], m.time)
  {
    var next, history' := Next(limit, e, m), history + [PastOf(limit, e, m)];
    assert e.lockedUntil > m.time <==> LockRunning(history, m.time, limit.lockMs);
    forall later | m.time <= later ensures next.lockedUntil > later <==> LockRunning(history', later, limit.lockMs) {
      LockAppend(history, PastOf(limit, e, m), later, limit.lockMs);
      assert e.lockedUntil > later <==> LockRunning(history, later, limit.lockMs);
    }
  }

  lemma LockAppend(history: seq<Past>, c: Past, now: nat, lockMs: nat)
    ensures LockRunning(history + [c], now, lockMs) <==>
            LockRunning(history, now, lockMs) || (Overfilled(c) && c.time + lockMs > now)
  {
    var history' := history + [c];
    assert history'[|history|] == c;
    if LockRunning(history, now, lockMs) {
      var i :| 0 <= i < |history| && Overfilled(history[i]) && history[i].time + lockMs > now;
      assert history'[i] == history[i];
    }
  }

  lemma VerdictJustified(limit: Limit, e: Entry, history: seq<Past>, from: nat, now: nat)
    requires from <= now && Refines(limit, e, history, from)
    ensures Justified(limit, history, now, VerdictOf(limit, e, now))
  {
    assert Recent(history, now, limit.windowMs) == Prune(e.hits, now, limit.windowMs);
    assert e.lockedUntil > now <==> LockRunning(history, now, limit.lockMs);
    if e.lockedUntil > now {
      LockEnds(limit, e.lockedUntil, history, from);
    }
  }

  lemma LockEnds(limit: Limit, lockedUntil: nat, history: seq<Past>, from: nat)
    requires LockRefines(limit, lockedUntil, history, from) && from < lockedUntil
    ensures EndsLock(history, lockedUntil, limit.lockMs)
  {
    assert LockRunning(history, lockedUntil - 1, limit.lockMs);
    assert !LockRunning(history, lockedUntil, limit.lockMs);
  }

  /** One moment, call or restart, keeps the pruned entry a refinement of the full history. */
  lemma StepRefines(limit: Limit, e: Entry, history: seq<Past>, from: nat, m: Moment)
    requires from <= m.time && Refines(limit, e, history, from)
    ensures Refines(limit, Next(limit, e, m), history + [PastOf(limit, e, m)], m.time)
  {
    StepHitsRefine(limit, e, history, from, m);
    StepLockRefines(limit, e, history, from, m);
  }

  lemma {:induction false} EntryRefines(limit: Limit, moments: seq<Moment>)
    requires Ordered(moments)
    ensures Refines(limit, EntryAfter(limit, moments), Trace(limit, moments), LastTime(moments))
  {
    if moments != [] {
      var front, m := moments[..|moments| - 1], moments[|moments| - 1];
      EntryRefines(limit, front);
      assert LastTime(front) <= m.time;
      StepRefines(limit, EntryAfter(limit, front), Trace(limit, front), LastTime(front), m);
    }
  }

  /** The next answer is the one the full history calls for. */
  lemma NextJustified(limit: Limit, moments: seq<Moment>, now: nat)
    requires Ordered(moments) && LastTime(moments) <= now
    ensures Justified(limit, Trace(limit, moments), now, VerdictOf(limit, EntryAfter(limit, moments), now))
  {
    EntryRefines(limit, moments);
    VerdictJustified(limit, EntryAfter(limit, moments), Trace(limit, moments), LastTime(moments), now);
  }

  lemma {:induction false} TraceTimes(limit: Limit, moments: seq<Moment>)
    ensures |Trace(limit, moments)| == |moments|
    ensures forall i :: 0 <= i < |moments| ==>
              Trace(limit, moments)[i].time == moments[i].time && Trace(limit, moments)[i].Call? == moments[i].CallAt?
  {
    if moments != [] {
      TraceTimes(limit, moments[..|moments| - 1]);
    }
  }

  /** Every call of the history was answered as what came before it requires. */
  ghost predicate AllJustified(limit: Limit, history: seq<Past>) {
    forall i :: 0 <= i < |history| && history[i].Call? ==>
                  Justified(limit, history[..i], history[i].time, history[i].verdict)
  }

  lemma AllJustifiedAppend(limit: Limit, history: seq<Past>, c: Past)
    requires AllJustified(limit, history) && (c.Call? ==> Justified(limit, history, c.time, c.verdict))
    ensures AllJustified(limit, history + [c])
  {
    var all := history + [c];
    forall i | 0 <= i < |all| && all[i].Call? ensures Justified(limit, all[..i], all[i].time, all[i].verdict) {
      assert all[..i] == history[..i];
      assert i == |history| ==> history[..i] == history;
    }
  }

  /** Every answer of a run is the one the full history calls for. */
  lemma {:induction false} TraceRefines(limit: Limit, moments: seq<Moment>)
    requires Ordered(moments)
    ensures AllJustified(limit, Trace(limit, moments))
  {
    if moments != [] {
      var front, m := moments[..|moments| - 1], moments[|moments| - 1];
      TraceRefines(limit, front);
      assert LastTime(front) <= m.time;
      NextJustified(limit, front, m.time);
      AllJustifiedAppend(limit, Trace(limit, front), PastOf(limit, EntryAfter(limit, front), m));
    }
  }

  // ---- the bound the limiter is for -------------------------------------------------

  function AcceptedWithin(history: seq<Past>, from: nat, to: nat): nat {
    if history == [] then 0
    else
      var c := history[|history| - 1];
      AcceptedWithin(history[..|history| - 1], from, to) +
      if c.Call? && c.verdict.Accepted? && from <= c.time < to then 1 else 0
  }

  function RestartsWithin(history: seq<Past>, from: nat, to: nat): nat {
    if history == [] then 0
    else
      var c := history[|history| - 1];
      RestartsWithin(history[..|history| - 1], from, to) + if c.Restarted? && from <= c.time < to then 1 else 0
  }

  /** The accepted calls within the interval since the last restart within it. */
  function AcceptedSince(history: seq<Past>, from: nat, to: nat): nat {
    if history == [] then 0
    else
      var before, c := AcceptedSince(history[..|history| - 1], from, to), history[|history| - 1];
      match c
      case Restarted(t) => if from <= t < to then 0 else before
      case Call(t, verdict) => before + if verdict.Accepted? && from <= t < to then 1 else 0
  }

  ghost predicate Chronological(history: seq<Past>) {
    forall i, j :: 0 <= i < j < |history| ==> history[i].time <= history[j].time
  }

  lemma {:induction false} NoneBefore(history: seq<Past>, from: nat, to: nat)
    requires forall i :: 0 <= i < |history| ==> history[i].time < from
    ensures AcceptedSince(history, from, to) == 0
  {
    if history != [] {
      NoneBefore(history[..|history| - 1], from, to);
    }
  }

  lemma {:induction false} SinceAreRecent(history: seq<Past>, from: nat, now: nat, windowMs: nat)
    requires Chronological(history) && forall i :: 0 <= i < |history| ==> history[i].time <= now
    requires now < from + windowMs
    ensures AcceptedSince(history, from, from + windowMs) <= |Recent(history, now, windowMs)|
  {
    if history != [] {
      var front, c := history[..|history| - 1], history[|history| - 1];
      if c.Call? {
        SinceAreRecent(front, from, now, windowMs);
      } else if c.time < from {
        NoneBefore(front, from, from + windowMs);
      }
    }
  }

  lemma OrderedPairs(moments: seq<Moment>, i: nat, j: nat)
    requires Ordered(moments) && i <= j < |moments|
    ensures moments[i].time <= moments[j].time
    decreases j
  {
    if i < j {
      OrderedPairs(moments, i, j - 1);
    }
  }

  lemma TraceChronological(limit: Limit, moments: seq<Moment>)
    requires Ordered(moments)
    ensures Chronological(Trace(limit, moments))
    ensures forall i :: 0 <= i < |Trace(limit, moments)| ==> Trace(limit, moments)[i].time <= LastTime(moments)
  {
    TraceTimes(limit, moments);
    var h := Trace(limit, moments);
    forall i, j | 0 <= i <= j < |h| ensures h[i].time <= h[j].time {
      OrderedPairs(moments, i, j);
    }
  }

  lemma AcceptedHasRoom(limit: Limit, history: seq<Past>, from: nat, now: nat)
    requires Chronological(history) && forall i :: 0 <= i < |history| ==> history[i].time <= now
    requires now < from + limit.windowMs && Justified(limit, history, now, Accepted)
    ensures AcceptedSince(history, from, from + limit.windowMs) < limit.max
  {
    SinceAreRecent(history, from, now, limit.windowMs);
  }

  /** An accepted call within the interval finds fewer than `max` accepted since the last restart. */
  lemma RoomForOne(limit: Limit, moments: seq<Moment>, from: nat, now: nat)
    requires Ordered(moments) && LastTime(moments) <= now < from + limit.windowMs
    requires VerdictOf(limit, EntryAfter(limit, moments), now) == Accepted
    ensures AcceptedSince(Trace(limit, moments), from, from + limit.windowMs) < limit.max
  {
    NextJustified(limit, moments, now);
    TraceChronological(limit, moments);
    AcceptedHasRoom(limit, Trace(limit, moments), from, now);
  }

  lemma OneMoreTimes(max: nat, n: nat)
    ensures max * (n + 1) == max * n + max
  {
  }

  /** At most `max` accepted since the last restart, and before it at most `max` for each restart. */
  ghost predicate BoundedByRestarts(max: nat, history: seq<Past>, from: nat, to: nat) {
    && AcceptedSince(history, from, to) <= max
    && AcceptedWithin(history, from, to) <= max * RestartsWithin(history, from, to) + AcceptedSince(history, from, to)
  }

  lemma StepBounded(max: nat, history: seq<Past>, c: Past, from: nat, to: nat)
    requires BoundedByRestarts(max, history, from, to)
    requires c.Call? && c.verdict.Accepted? && from <= c.time < to ==> AcceptedSince(history, from, to) < max
    ensures BoundedByRestarts(max, history + [c], from, to)
  {
    assert (history + [c])[..|history|] == history;
    OneMoreTimes(max, RestartsWithin(history, from, to));
  }

  lemma {:induction false} AtMostMaxBetweenRestarts(limit: Limit, moments: seq<Moment>, from: nat)
    requires Ordered(moments)
    ensures BoundedByRestarts(limit.max, Trace(limit, moments), from, from + limit.windowMs)
  {
    if moments != [] {
      var front, m := moments[..|moments| - 1], moments[|moments| - 1];
      AtMostMaxBetweenRestarts(limit, front, from);
      assert LastTime(front) <= m.time;
      var c := PastOf(limit, EntryAfter(limit, front), m);
      if m.CallAt? && c.verdict.Accepted? && m.time < from + limit.windowMs {
        RoomForOne(limit, front, from, m.time);
      }
      StepBounded(limit.max, Trace(limit, front), c, from, from + limit.windowMs);
    }
  }

  /** Any half-open interval as long as the window holds at most `max` accepted calls, and as many
      again for each restart in it. */
  lemma AtMostMax(limit: Limit, moments: seq<Moment>, from: nat)
    requires Ordered(moments)
    ensures var h, to := Trace(limit, moments), from + limit.windowMs;
            AcceptedWithin(h, from, to) <= limit.max * (RestartsWithin(h, from, to) + 1)
  {
    AtMostMaxBetweenRestarts(limit, moments, from);
    OneMoreTimes(limit.max, RestartsWithin(Trace(limit, moments), from, from + limit.windowMs));
  }

  // ---- bursts -----------------------------------------------------------------------

  function Calls(n: nat): seq<Moment> {
    seq(n, _ => CallAt(0))
  }

  function Zeros(n: nat): seq<nat> {
    seq(n, _ => 0)
  }

  lemma {:induction false} PruneZeros(n: nat, now: nat, windowMs: nat)
    requires now < windowMs
    ensures Prune(Zeros(n), now, windowMs) == Zeros(n)
  {
    if n > 0 {
      PruneZeros(n - 1, now, windowMs);
      assert Zeros(n)[..n - 1] == Zeros(n - 1);
      assert Zeros(n - 1) + [0] == Zeros(n);
    }
  }

  lemma OneMoreCall(n: nat)
    ensures Calls(n + 1) == Calls(n) + [CallAt(0)] && Zeros(n + 1) == Zeros(n) + [0]
  {
  }

  /** After these moments, a run that goes on from others has accepted `n` more calls, all at once. */
  ghost predicate AcceptedMore(limit: Limit, moments: seq<Moment>, all: seq<Moment>, n: nat) {
    && EntryAfter(limit, all) == Entry(Zeros(n), 0)
    && AcceptedWithin(Trace(limit, all), 0, limit.windowMs) ==
         AcceptedWithin(Trace(limit, moments), 0, limit.windowMs) + n
    && RestartsWithin(Trace(limit, all), 0, limit.windowMs) == RestartsWithin(Trace(limit, moments), 0, limit.windowMs)
  }

  lemma NoneAcceptedYet(limit: Limit, moments: seq<Moment>, n: nat)
    requires EntryAfter(limit, moments) == NewEntry() && n == 0
    ensures AcceptedMore(limit, moments, moments, n)
  {
  }

  lemma OneMoreAccepted(limit: Limit, moments: seq<Moment>, front: seq<Moment>, n: nat)
    requires AcceptedMore(limit, moments, front, n) && limit.windowMs > 0 && n < limit.max
    ensures AcceptedMore(limit, moments, front + [CallAt(0)], n + 1)
  {
    OneMoreCall(n);
    RunNext(limit, front, CallAt(0));
    PruneZeros(n, 0, limit.windowMs);
    CountsAppend(Trace(limit, front), PastOf(limit, EntryAfter(limit, front), CallAt(0)), limit.windowMs);
  }

  /** After a fresh start `max` calls at once are all accepted. */
  lemma {:induction false} BurstAccepted(limit: Limit, moments: seq<Moment>, n: nat)
    requires EntryAfter(limit, moments) == NewEntry() && limit.windowMs > 0 && n <= limit.max
    ensures AcceptedMore(limit, moments, moments + Calls(n), n)
  {
    if n == 0 {
      NothingMore(moments, Calls(n));
      NoneAcceptedYet(limit, moments, n);
    } else {
      BurstAccepted(limit, moments, n - 1);
      OneMoreAccepted(limit, moments, moments + Calls(n - 1), n - 1);
      OneMoreCall(n - 1);
      Associate(moments, Calls(n - 1), [CallAt(0)]);
    }
  }

  lemma CountsAppend(history: seq<Past>, c: Past, to: nat)
    requires c.time < to
    ensures AcceptedWithin(history + [c], 0, to) ==
            AcceptedWithin(history, 0, to) + if c.Call? && c.verdict.Accepted? then 1 else 0
    ensures RestartsWithin(history + [c], 0, to) == RestartsWithin(history, 0, to) + if c.Restarted? then 1 else 0
  {
    assert (history + [c])[..|history|] == history;
  }

  /** `max` calls, and again after each of some restarts, all at once. */
  function Bursts(max: nat, restarts: nat): seq<Moment> {
    if restarts == 0 then Calls(max) else Bursts(max, restarts - 1) + [RestartAt(0)] + Calls(max)
  }

  /** These moments reach the bound and leave no lock. */
  ghost predicate Reaches(limit: Limit, moments: seq<Moment>, restarts: nat) {
    && RestartsWithin(Trace(limit, moments), 0, limit.windowMs) == restarts
    && AcceptedWithin(Trace(limit, moments), 0, limit.windowMs) == limit.max * (restarts + 1)
    && EntryAfter(limit, moments).lockedUntil == 0
  }

  lemma RestartForgets(limit: Limit, moments: seq<Moment>)
    requires EntryAfter(limit, moments).lockedUntil == 0 && limit.windowMs > 0
    ensures var all, to := moments + [RestartAt(0)], limit.windowMs;
            && EntryAfter(limit, all) == NewEntry()
            && AcceptedWithin(Trace(limit, all), 0, to) == AcceptedWithin(Trace(limit, moments), 0, to)
            && RestartsWithin(Trace(limit, all), 0, to) == RestartsWithin(Trace(limit, moments), 0, to) + 1
  {
    RunNext(limit, moments, RestartAt(0));
    CountsAppend(Trace(limit, moments), Restarted(0), limit.windowMs);
  }

  lemma AnotherBurst(limit: Limit, moments: seq<Moment>, all: seq<Moment>, restarts: nat)
    requires limit.windowMs > 0 && restarts > 0 && Reaches(limit, moments, restarts - 1)
    requires all == moments + [RestartAt(0)] + Calls(limit.max)
    ensures Reaches(limit, all, restarts)
  {
    RestartForgets(limit, moments);
    BurstAccepted(limit, moments + [RestartAt(0)], limit.max);
    OneMoreTimes(limit.max, restarts);
  }

  lemma FirstBurst(limit: Limit, restarts: nat)
    requires limit.windowMs > 0 && restarts == 0
    ensures Reaches(limit, Calls(limit.max), restarts)
  {
    var none: seq<Moment> := [];
    assert none + Calls(limit.max) == Calls(limit.max);
    BurstAccepted(limit, none, limit.max);
    OneMoreTimes(limit.max, restarts);
  }

  /** The bound is reached, whatever the number of restarts. */
  lemma {:induction false} BoundReached(limit: Limit, restarts: nat)
    requires limit.windowMs > 0
    ensures Reaches(limit, Bursts(limit.max, restarts), restarts)
  {
    if restarts == 0 {
      FirstBurst(limit, restarts);
    } else {
      BoundReached(limit, restarts - 1);
      AnotherBurst(limit, Bursts(limit.max, restarts - 1), Bursts(limit.max, restarts), restarts);
    }
  }

  lemma {:induction false} BurstsAtZero(max: nat, restarts: nat)
    ensures forall m :: m in Bursts(max, restarts) ==> m.time == 0
  {
    if restarts > 0 {
      BurstsAtZero(max, restarts - 1);
    }
  }

  // ---- after a lock -----------------------------------------------------------------

  /** The last call that was not refused by a lock overfilled the window, at this time. */
  ghost predicate LockedSince(history: seq<Past>, since: nat) {
    exists i :: 0 <= i < |history| && Overfilled(history[i]) && history[i].time == since
                && forall j :: i < j < |history| && history[j].Call? ==> history[j].verdict.Locked?
  }

  lemma {:induction false} NothingRecent(history: seq<Past>, last: nat, now: nat, windowMs: nat)
    requires forall i :: 0 <= i < |history| && history[i].Call? && !history[i].verdict.Locked? ==>
                           history[i].time <= last
    requires last + windowMs <= now
    ensures Recent(history, now, windowMs) == []
  {
    if history != [] && history[|history| - 1].Call? {
      NothingRecent(history[..|history| - 1], last, now, windowMs);
    }
  }

  lemma NothingRecentAfterLock(limit: Limit, history: seq<Past>, since: nat, now: nat)
    requires Chronological(history) && limit.lockMs >= limit.windowMs
    requires LockedSince(history, since) && since + limit.lockMs <= now
    ensures Recent(history, now, limit.windowMs) == []
    ensures !LockRunning(history, now, limit.lockMs)
  {
    var i :| 0 <= i < |history| && Overfilled(history[i]) && history[i].time == since
             && forall j :: i < j < |history| && history[j].Call? ==> history[j].verdict.Locked?;
    forall j | 0 <= j < |history| && history[j].Call? && !history[j].verdict.Locked? ensures history[j].time <= since {
      assert j <= i;
    }
    NothingRecent(history, since, now, limit.windowMs);
  }

  /** If locks last at least as long as the window, the first call after a lock is accepted. */
  lemma FirstCallAfterLock(limit: Limit, moments: seq<Moment>, since: nat, now: nat)
    requires Ordered(moments) && LastTime(moments) <= now && limit.max >= 1 && limit.lockMs >= limit.windowMs
    requires LockedSince(Trace(limit, moments), since) && since + limit.lockMs <= now
    ensures VerdictOf(limit, EntryAfter(limit, moments), now) == Accepted
  {
    TraceChronological(limit, moments);
    NothingRecentAfterLock(limit, Trace(limit, moments), since, now);
    NextJustified(limit, moments, now);
  }

  /** One call too many: the entry it leaves, and the history. */
  lemma Overfilling(limit: Limit)
    requires limit.windowMs > 0
    ensures EntryAfter(limit, Calls(limit.max + 1)) == Entry(Zeros(limit.max + 1), limit.lockMs)
    ensures LockedSince(Trace(limit, Calls(limit.max + 1)), 0)
  {
    var n := limit.max;
    assert [] + Calls(n) == Calls(n);
    BurstAccepted(limit, [], n);
    OneMoreCall(n);
    RunNext(limit, Calls(n), CallAt(0));
    PruneZeros(n, 0, limit.windowMs);
    var h := Trace(limit, Calls(n + 1));
    assert Overfilled(h[|h| - 1]) && h[|h| - 1].time == 0;
  }

  /** With a shorter lock it need not be: a burst of max + 1 calls leaves the window overfull. */
  lemma ShortLockRefuses(limit: Limit)
    requires limit.lockMs < limit.windowMs
    ensures var moments := Calls(limit.max + 1);
            && LockedSince(Trace(limit, moments), 0)
            && VerdictOf(limit, EntryAfter(limit, moments), limit.lockMs).Exceeded?
  {
    Overfilling(limit);
    PruneZeros(limit.max + 1, limit.lockMs, limit.windowMs);
  }
}
