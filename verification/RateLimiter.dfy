/** All endpoints and actors together: the limit table and `enforceEndpointRateLimit`
    (rate-limiter.js) with the saved lock file of `loadRateLocks` and `saveRateLock`
    (persistence.js), taken as a map. */
module RateLimiter {
  import opened JsObject
  import opened RateWindow

  type Table = map<string, Limit>

  const ENDPOINT_RATE_LIMITS: Table := map[
    "wattcoin-mine-block" := Limit(60_000, 30, 60_000),
    "wattcoin-ledger-add-contribution" := Limit(60_000, 360, 60_000),
    "wattcoin-ledger-settle-round" := Limit(60_000, 60, 60_000),
    "wattcoin-ledger-get-balances" := Limit(60_000, 360, 60_000),
    "wtc-peer-chain-headers" := Limit(60_000, 240, 60_000),
    "wtc-peer-chain-blocks" := Limit(60_000, 240, 60_000),
    "wtc-peer-chain-block-hash" := Limit(60_000, 240, 60_000),
    "wattcoin-send" := Limit(600_000, 3, 1_800_000),
    "wattcoin-list-transactions" := Limit(60_000, 180, 60_000),
    "wattcoin-report-gpu-calibration" := Limit(600_000, 10, 600_000),
    "peer-probe-issue" := Limit(60_000, 60, 300_000),
    "peer-probe-submit" := Limit(60_000, 60, 300_000)]

  predicate Colonless(s: string) {
    forall i :: 0 <= i < |s| ==> s[i] != ':'
  }

  /** What the results below ask of a table: names without a colon, and locks at least as long as
      the window they guard. */
  ghost predicate ProperTable(t: Table) {
    forall e :: e in t ==> Colonless(e) && t[e].max >= 1 && t[e].lockMs >= t[e].windowMs
  }

  lemma TableLimits()
    ensures forall e :: e in ENDPOINT_RATE_LIMITS ==>
              ENDPOINT_RATE_LIMITS[e].max >= 1 && ENDPOINT_RATE_LIMITS[e].lockMs >= ENDPOINT_RATE_LIMITS[e].windowMs
  {
  }

  lemma TableNames()
    ensures forall e :: e in ENDPOINT_RATE_LIMITS ==> Colonless(e)
  {
    assert Colonless("wattcoin-mine-block");
    assert Colonless("wattcoin-ledger-add-contribution");
    assert Colonless("wattcoin-ledger-settle-round");
    assert Colonless("wattcoin-ledger-get-balances");
    assert Colonless("wtc-peer-chain-headers");
    assert Colonless("wtc-peer-chain-blocks");
    assert Colonless("wtc-peer-chain-block-hash");
    assert Colonless("wattcoin-send");
    assert Colonless("wattcoin-list-transactions");
    assert Colonless("wattcoin-report-gpu-calibration");
    assert Colonless("peer-probe-issue");
    assert Colonless("peer-probe-submit");
  }

  lemma TheTableIsProper()
    ensures ProperTable(ENDPOINT_RATE_LIMITS)
  {
    TableLimits();
    TableNames();
  }

  function ActorOf(actorId: string): string {
    if actorId == "" then "local-client" else actorId
  }

  /** `getEndpointActorKey`. */
  function KeyOf(endpoint: string, actorId: string): string {
    endpoint + ":" + ActorOf(actorId)
  }

  /** Nobody in particular. */
  predicate IsLocal(actorId: string) {
    actorId == "" || actorId == "local-client"
  }

  /** Limited endpoints share an entry only with themselves, and per actor; no actor is the local one. */
  lemma KeysDistinct(t: Table, e: string, a: string, f: string, b: string)
    requires ProperTable(t) && e in t && f in t
    ensures KeyOf(e, a) == KeyOf(f, b) <==> e == f && (a == b || (IsLocal(a) && IsLocal(b)))
  {
    if KeyOf(e, a) == KeyOf(f, b) {
      SameName(e, ActorOf(a), f, ActorOf(b));
      SameName(f, ActorOf(b), e, ActorOf(a));
      assert KeyOf(e, a)[..|e|] == e && KeyOf(f, b)[..|f|] == f;
      assert KeyOf(e, a)[|e| + 1..] == ActorOf(a) && KeyOf(f, b)[|f| + 1..] == ActorOf(b);
    }
  }

  lemma SameName(e: string, x: string, f: string, y: string)
    requires Colonless(f) && e + ":" + x == f + ":" + y
    ensures |f| <= |e|
  {
    var k := f + ":" + y;
    assert k[|e|] == ':';
    assert forall i :: 0 <= i < |f| ==> k[i] == f[i];
  }

  // ---- memory and file --------------------------------------------------------------

  type Memory = map<string, Entry>
  type LockFile = map<string, nat>

  datatype Limiter = Limiter(memory: Memory, file: LockFile)

  function EntryOf(memory: Memory, key: string): Entry {
    if key in memory then memory[key] else NewEntry()
  }

  function SaveRateLock(file: LockFile, key: string, lockedUntil: nat, now: nat): LockFile {
    var kept := map k | k in file && file[k] > now :: file[k];
    if lockedUntil > now then kept[key := lockedUntil] else kept
  }

  function LoadRateLocks(memory: Memory, file: LockFile, now: nat): Memory {
    memory + map k | k in file && file[k] > now :: Entry([], file[k])
  }

  /** What one call makes of the limiter; endpoints outside the table are not limited. */
  function Enforce(t: Table, l: Limiter, endpoint: string, actorId: string, now: nat): Limiter {
    if endpoint !in t then l
    else
      var key, limit := KeyOf(endpoint, actorId), t[endpoint];
      var e := EntryOf(l.memory, key);
      match VerdictOf(limit, e, now)
      case Locked(_) => l
      case Exceeded(until) =>
        Limiter(l.memory[key := NextEntry(limit, e, now)], SaveRateLock(l.file, key, until, now))
      case Accepted => l.(memory := l.memory[key := NextEntry(limit, e, now)])
  }

  function Answer(t: Table, l: Limiter, endpoint: string, actorId: string, now: nat): Verdict {
    if endpoint !in t then Accepted
    else VerdictOf(t[endpoint], EntryOf(l.memory, KeyOf(endpoint, actorId)), now)
  }

  function Restart(l: Limiter, now: nat): Limiter {
    Limiter(LoadRateLocks(map[], l.file, now), l.file)
  }

  datatype Event = Enforcing(endpoint: string, actorId: string, now: nat) | Restarting(now: nat)

  function Step(t: Table, l: Limiter, e: Event): Limiter {
    match e
    case Enforcing(endpoint, actorId, now) => Enforce(t, l, endpoint, actorId, now)
    case Restarting(now) => Restart(l, now)
  }

  function Run(t: Table, events: seq<Event>): Limiter {
    if events == [] then Limiter(map[], map[]) else Step(t, Run(t, events[..|events| - 1]), events[|events| - 1])
  }

  predicate Clocked(events: seq<Event>) {
    forall i :: 0 < i < |events| ==> events[i - 1].now <= events[i].now
  }

  // ---- memory and file agree on the locks -------------------------------------------

  function LockIn(memory: Memory, key: string): nat {
    EntryOf(memory, key).lockedUntil
  }

  function LockSaved(file: LockFile, key: string): nat {
    if key in file then file[key] else 0
  }

  /** The same keys are locked, until the same times. */
  ghost predicate Agree(l: Limiter, now: nat) {
    forall key: string :: LockIn(l.memory, key) > now || LockSaved(l.file, key) > now ==>
                            LockIn(l.memory, key) == LockSaved(l.file, key)
  }

  lemma StepAgrees(t: Table, l: Limiter, e: Event, before: nat)
    requires before <= e.now && Agree(l, before)
    ensures Agree(Step(t, l, e), e.now)
  {
    var s := Step(t, l, e);
    forall key: string | LockIn(s.memory, key) > e.now || LockSaved(s.file, key) > e.now
      ensures LockIn(s.memory, key) == LockSaved(s.file, key)
    {
      assert LockIn(l.memory, key) > before || LockSaved(l.file, key) > before ==>
          LockIn(l.memory, key) == LockSaved(l.file, key);
    }
  }

  function LastNow(events: seq<Event>): nat {
    if events == [] then 0 else events[|events| - 1].now
  }

  /** In every run, restarts included, memory and file agree on which keys are locked and until when. */
  lemma {:induction false} MemoryAndFileAgree(t: Table, events: seq<Event>)
    requires Clocked(events)
    ensures Agree(Run(t, events), LastNow(events))
  {
    if events != [] {
      var front, e := events[..|events| - 1], events[|events| - 1];
      MemoryAndFileAgree(t, front);
      StepAgrees(t, Run(t, front), e, LastNow(front));
    }
  }

  /** So a restart refuses exactly the calls that would have been refused as locked without it, until
      the same times. */
  lemma RestartKeepsLocks(t: Table, events: seq<Event>, now: nat, endpoint: string, actorId: string, later: nat)
    requires Clocked(events) && LastNow(events) <= now <= later
    ensures var with := Answer(t, Restart(Run(t, events), now), endpoint, actorId, later);
            var without := Answer(t, Run(t, events), endpoint, actorId, later);
            with.Locked? || without.Locked? ==> with == without
  {
    MemoryAndFileAgree(t, events);
    ReloadsLock(Run(t, events), LastNow(events), now, KeyOf(endpoint, actorId));
  }

  // ---- one key of a run -------------------------------------------------------------

  predicate Concerns(t: Table, e: Event, key: string) {
    e.Enforcing? && e.endpoint in t && KeyOf(e.endpoint, e.actorId) == key
  }

  /** The calls for one key, and the restarts. */
  function MomentsOf(t: Table, events: seq<Event>, key: string): seq<Moment> {
    if events == [] then []
    else
      var e := events[|events| - 1];
      MomentsOf(t, events[..|events| - 1], key) +
      if e.Restarting? then [RestartAt(e.now)] else if Concerns(t, e, key) then [CallAt(e.now)] else []
  }

  /** What was answered to the calls for one key, and the restarts. */
  function HistoryOf(t: Table, events: seq<Event>, key: string): seq<Past> {
    if events == [] then []
    else
      var front, e := events[..|events| - 1], events[|events| - 1];
      HistoryOf(t, front, key) +
      if e.Restarting? then [Restarted(e.now)]
      else if Concerns(t, e, key) then [Call(e.now, Answer(t, Run(t, front), e.endpoint, e.actorId, e.now))] else []
  }

  lemma {:induction false} MomentsOrdered(t: Table, events: seq<Event>, key: string)
    requires Clocked(events)
    ensures Ordered(MomentsOf(t, events, key)) && LastTime(MomentsOf(t, events, key)) <= LastNow(events)
  {
    if events != [] {
      var front := events[..|events| - 1];
      MomentsOrdered(t, front, key);
      assert front == [] || events[|events| - 2].now <= events[|events| - 1].now;
    }
  }

  /** Keys do not disturb each other: one call, seen from one key. */
  lemma CallOfKey(t: Table, l: Limiter, e: Event, endpoint: string, actorId: string)
    requires ProperTable(t) && endpoint in t && e.Enforcing?
    ensures var key := KeyOf(endpoint, actorId);
            EntryOf(Step(t, l, e).memory, key) ==
              if Concerns(t, e, key) then NextEntry(t[endpoint], EntryOf(l.memory, key), e.now)
              else EntryOf(l.memory, key)
    ensures Concerns(t, e, KeyOf(endpoint, actorId)) ==>
              Answer(t, l, e.endpoint, e.actorId, e.now) ==
              VerdictOf(t[endpoint], EntryOf(l.memory, KeyOf(endpoint, actorId)), e.now)
  {
    if e.endpoint in t {
      KeysDistinct(t, e.endpoint, e.actorId, endpoint, actorId);
    }
  }

  /** A restart, seen from one key: because memory and file agree, it keeps the lock in memory. */
  lemma ReloadsLock(l: Limiter, before: nat, now: nat, key: string)
    requires Agree(l, before) && before <= now
    ensures EntryOf(Restart(l, now).memory, key) == Reload(EntryOf(l.memory, key), now)
  {
    assert LockIn(l.memory, key) > before || LockSaved(l.file, key) > before ==>
        LockIn(l.memory, key) == LockSaved(l.file, key);
  }

  /** What one event adds to the moments of a key and to its history. */
  ghost predicate AloneSoFar(t: Table, events: seq<Event>, endpoint: string, actorId: string)
    requires endpoint in t
  {
    var key := KeyOf(endpoint, actorId);
    && EntryOf(Run(t, events).memory, key) == EntryAfter(t[endpoint], MomentsOf(t, events, key))
    && HistoryOf(t, events, key) == Trace(t[endpoint], MomentsOf(t, events, key))
  }

  lemma AloneAfterCall(t: Table, front: seq<Event>, e: Event, endpoint: string, actorId: string)
    requires ProperTable(t) && endpoint in t && AloneSoFar(t, front, endpoint, actorId) && e.Enforcing?
    ensures AloneSoFar(t, front + [e], endpoint, actorId)
  {
    var key := KeyOf(endpoint, actorId);
    assert (front + [e])[..|front|] == front;
    CallOfKey(t, Run(t, front), e, endpoint, actorId);
    if Concerns(t, e, key) {
      RunNext(t[endpoint], MomentsOf(t, front, key), CallAt(e.now));
    } else {
      assert MomentsOf(t, front + [e], key) == MomentsOf(t, front, key);
      assert HistoryOf(t, front + [e], key) == HistoryOf(t, front, key);
    }
  }

  lemma AloneAfterRestart(t: Table, front: seq<Event>, e: Event, endpoint: string, actorId: string)
    requires endpoint in t && AloneSoFar(t, front, endpoint, actorId) && e.Restarting?
    requires Clocked(front) && LastNow(front) <= e.now
    ensures AloneSoFar(t, front + [e], endpoint, actorId)
  {
    var key := KeyOf(endpoint, actorId);
    assert (front + [e])[..|front|] == front;
    MemoryAndFileAgree(t, front);
    ReloadsLock(Run(t, front), LastNow(front), e.now, key);
    RunNext(t[endpoint], MomentsOf(t, front, key), RestartAt(e.now));
  }

  /** So each key's part of a run is the run of its own calls, through all restarts. */
  lemma {:induction false} KeyRunsAlone(t: Table, events: seq<Event>, endpoint: string, actorId: string)
    requires ProperTable(t) && endpoint in t && Clocked(events)
    ensures AloneSoFar(t, events, endpoint, actorId)
  {
    if events != [] {
      var front, e := events[..|events| - 1], events[|events| - 1];
      KeyRunsAlone(t, front, endpoint, actorId);
      assert front == [] || events[|events| - 2].now <= e.now;
      assert front + [e] == events;
      if e.Restarting? {
        AloneAfterRestart(t, front, e, endpoint, actorId);
      } else {
        AloneAfterCall(t, front, e, endpoint, actorId);
      }
    }
  }

  /** What the table does not list is never refused and leaves no trace. */
  lemma OthersUnlimited(t: Table, l: Limiter, endpoint: string, actorId: string, now: nat)
    requires endpoint !in t
    ensures Answer(t, l, endpoint, actorId, now) == Accepted && Step(t, l, Enforcing(endpoint, actorId, now)) == l
  {
  }

  // ---- main results -----------------------------------------------------------------

  /** For every endpoint of the table and every actor, any half-open interval as long as the window
      holds at most `max` accepted calls, and as many again for each restart within it. */
  lemma EndpointLimitHolds(t: Table, events: seq<Event>, endpoint: string, actorId: string, from: nat)
    requires ProperTable(t) && endpoint in t && Clocked(events)
    ensures var limit, history := t[endpoint], HistoryOf(t, events, KeyOf(endpoint, actorId));
            AcceptedWithin(history, from, from + limit.windowMs) <=
              limit.max * (RestartsWithin(history, from, from + limit.windowMs) + 1)
  {
    var key := KeyOf(endpoint, actorId);
    KeyRunsAlone(t, events, endpoint, actorId);
    MomentsOrdered(t, events, key);
    AtMostMax(t[endpoint], MomentsOf(t, events, key), from);
  }

  /** The events of these moments, for one endpoint and actor. */
  function EventsOf(moments: seq<Moment>, endpoint: string, actorId: string): seq<Event> {
    if moments == [] then []
    else
      var m := moments[|moments| - 1];
      EventsOf(moments[..|moments| - 1], endpoint, actorId) +
      [if m.CallAt? then Enforcing(endpoint, actorId, m.time) else Restarting(m.time)]
  }

  lemma MomentsAppend(t: Table, events: seq<Event>, e: Event, key: string)
    ensures MomentsOf(t, events + [e], key) ==
            MomentsOf(t, events, key) +
            if e.Restarting? then [RestartAt(e.now)] else if Concerns(t, e, key) then [CallAt(e.now)] else []
  {
    assert (events + [e])[..|events|] == events;
  }

  lemma {:induction false} MomentsOfEvents(t: Table, moments: seq<Moment>, endpoint: string, actorId: string)
    requires endpoint in t
    ensures MomentsOf(t, EventsOf(moments, endpoint, actorId), KeyOf(endpoint, actorId)) == moments
  {
    if moments != [] {
      var front, m := moments[..|moments| - 1], moments[|moments| - 1];
      MomentsOfEvents(t, front, endpoint, actorId);
      MomentsAppend(t, EventsOf(front, endpoint, actorId),
                    if m.CallAt? then Enforcing(endpoint, actorId, m.time) else Restarting(m.time),
                    KeyOf(endpoint, actorId));
    }
  }

  lemma {:induction false} EventTimes(moments: seq<Moment>, endpoint: string, actorId: string)
    ensures |EventsOf(moments, endpoint, actorId)| == |moments|
    ensures forall i :: 0 <= i < |moments| ==> EventsOf(moments, endpoint, actorId)[i].now == moments[i].time
  {
    if moments != [] {
      EventTimes(moments[..|moments| - 1], endpoint, actorId);
    }
  }

  lemma HistoryOfEvents(t: Table, moments: seq<Moment>, endpoint: string, actorId: string)
    requires ProperTable(t) && endpoint in t && forall m :: m in moments ==> m.time == 0
    ensures Clocked(EventsOf(moments, endpoint, actorId))
    ensures HistoryOf(t, EventsOf(moments, endpoint, actorId), KeyOf(endpoint, actorId)) == Trace(t[endpoint], moments)
  {
    MomentsOfEvents(t, moments, endpoint, actorId);
    EventTimes(moments, endpoint, actorId);
    KeyRunsAlone(t, EventsOf(moments, endpoint, actorId), endpoint, actorId);
  }

  /** The bound is reached for every endpoint and any number of restarts, because a restart forgets the
      calls: with one restart, twice `max` calls are accepted within one window. */
  lemma EndpointLimitReached(t: Table, endpoint: string, actorId: string, restarts: nat)
    requires ProperTable(t) && endpoint in t && t[endpoint].windowMs > 0
    ensures var limit, events := t[endpoint], EventsOf(Bursts(t[endpoint].max, restarts), endpoint, actorId);
            var history := HistoryOf(t, events, KeyOf(endpoint, actorId));
            && Clocked(events) && RestartsWithin(history, 0, limit.windowMs) == restarts
            && AcceptedWithin(history, 0, limit.windowMs) == limit.max * (restarts + 1)
  {
    BurstsAtZero(t[endpoint].max, restarts);
    HistoryOfEvents(t, Bursts(t[endpoint].max, restarts), endpoint, actorId);
    BoundReached(t[endpoint], restarts);
  }

  /** Every answer to a limited call is the one its own history calls for: the locks of all of it, and
      the calls since the last restart. */
  lemma AnswersJustified(t: Table, events: seq<Event>, endpoint: string, actorId: string, now: nat)
    requires ProperTable(t) && endpoint in t && Clocked(events) && LastNow(events) <= now
    ensures Justified(t[endpoint], HistoryOf(t, events, KeyOf(endpoint, actorId)), now,
                      Answer(t, Run(t, events), endpoint, actorId, now))
  {
    var key := KeyOf(endpoint, actorId);
    KeyRunsAlone(t, events, endpoint, actorId);
    MomentsOrdered(t, events, key);
    NextJustified(t[endpoint], MomentsOf(t, events, key), now);
  }

  /** The first call after any lock of the table has run out is accepted, restarts or not. */
  lemma FirstAnswerAfterLock(t: Table, events: seq<Event>, endpoint: string, actorId: string, since: nat, now: nat)
    requires ProperTable(t) && endpoint in t && Clocked(events) && LastNow(events) <= now
    requires LockedSince(HistoryOf(t, events, KeyOf(endpoint, actorId)), since)
    requires since + t[endpoint].lockMs <= now
    ensures Answer(t, Run(t, events), endpoint, actorId, now) == Accepted
  {
    var key := KeyOf(endpoint, actorId);
    KeyRunsAlone(t, events, endpoint, actorId);
    MomentsOrdered(t, events, key);
    FirstCallAfterLock(t[endpoint], MomentsOf(t, events, key), since, now);
  }

  /** What the table promises of sending: without a restart at most three in ten minutes. */
  lemma SendingLimit(events: seq<Event>, actorId: string, from: nat)
    requires Clocked(events)
    ensures var history := HistoryOf(ENDPOINT_RATE_LIMITS, events, KeyOf("wattcoin-send", actorId));
            RestartsWithin(history, from, from + 600_000) == 0 ==> AcceptedWithin(history, from, from + 600_000) <= 3
  {
    TheTableIsProper();
    assert ENDPOINT_RATE_LIMITS["wattcoin-send"] == Limit(600_000, 3, 1_800_000);
    EndpointLimitHolds(ENDPOINT_RATE_LIMITS, events, "wattcoin-send", actorId, from);
  }
}
