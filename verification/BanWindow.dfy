/** Failure counting and bans of one peer URL or identity (peer-ban-tracking.js with
    `pushTimestampWindow`, main-utils.js), against the full history of its events. Whether the URL
    is pinned is part of each event. */
module BanWindow {
  import opened JsObject
  import opened Sequences

  const FAILURE_WINDOW_MS: nat := 600_000
  const BAN_THRESHOLD: nat := 8
  const BAN_MS: nat := 1_800_000
  const MAX_STORED: nat := 200

  /** `pruneOldTimestamps`: keeps what is not older than the window. */
  function PruneOld(timestamps: seq<nat>, now: nat, windowMs: nat): seq<nat> {
    if timestamps == [] then []
    else
      var last := timestamps[|timestamps| - 1];
      PruneOld(timestamps[..|timestamps| - 1], now, windowMs) + if last >= now - windowMs then [last] else []
  }

  /** `pushTimestampWindow`. */
  function PushWindow(target: seq<nat>, now: nat, windowMs: nat, maxLen: nat): seq<nat> {
    var pruned := PruneOld(target + [now], now, windowMs);
    if |pruned| > maxLen then pruned[|pruned| - maxLen..] else pruned
  }

  /** The stored failures, and until when the peer is banned. */
  datatype Peer = Peer(hits: seq<nat>, ban: Option<nat>)

  datatype Event =
    | Failure(now: nat, pinned: bool)
    | Success(now: nat)
    | Query(now: nat, pinned: bool)
    | Ban(now: nat, pinned: bool, durationMs: nat)
    | Forget(now: nat)

  function SetBan(p: Peer, pinned: bool, until: nat): Peer {
    if pinned then p else p.(ban := Some(until))
  }

  function RecordFailure(p: Peer, now: nat, pinned: bool): Peer {
    var updated := PushWindow(p.hits, now, FAILURE_WINDOW_MS, MAX_STORED);
    if |updated| >= BAN_THRESHOLD then SetBan(p, pinned, now + BAN_MS).(hits := [])
    else p.(hits := updated)
  }

  function RecordSuccess(p: Peer): Peer {
    p.(hits := if |p.hits| <= 1 then [] else [p.hits[|p.hits| - 1]])
  }

  predicate IsBanned(p: Peer, now: nat, pinned: bool) {
    !pinned && p.ban.Some? && p.ban.value > now
  }

  /** Asking also drops a ban that has run out, or that a pinned URL carries. */
  function AfterQuery(p: Peer, now: nat, pinned: bool): Peer {
    if IsBanned(p, now, pinned) then p else p.(ban := None)
  }

  function Step(p: Peer, e: Event): Peer {
    match e
    case Failure(now, pinned) => RecordFailure(p, now, pinned)
    case Success(_) => RecordSuccess(p)
    case Query(now, pinned) => AfterQuery(p, now, pinned)
    case Ban(now, pinned, durationMs) => SetBan(p, pinned, now + durationMs)
    case Forget(_) => p.(hits := [])
  }

  function Run(events: seq<Event>): Peer {
    if events == [] then Peer([], None) else Step(Run(events[..|events| - 1]), events[|events| - 1])
  }

  predicate Clocked(events: seq<Event>) {
    forall i, j :: 0 <= i < j < |events| ==> events[i].now <= events[j].now
  }

  // ---- the full history -------------------------------------------------------------

  /** The failures not forgotten so far, however old. A failure that makes eight within the window
      bans and forgets all, and so does dropping the peer from the directory, without a ban. A success
      keeps only the newest one, and that only if another lies within the window before it. */
  function Retained(events: seq<Event>): seq<nat> {
    if events == [] then []
    else
      var r, e := Retained(events[..|events| - 1]), events[|events| - 1];
      match e
      case Failure(now, _) => if Overfull(r, now) then [] else r + [now]
      case Success(_) => AfterSuccess(r)
      case Query(_, _) => r
      case Ban(_, _, _) => r
      case Forget(_) => []
  }

  /** Ten minutes before the newest of these times. */
  function WindowStart(times: seq<nat>): int
    requires times != []
  {
    times[|times| - 1] as int - 600_000
  }

  /** How many of these times are not before another. */
  function CountFrom(times: seq<nat>, from: int): nat {
    if times == [] then 0
    else CountFrom(times[..|times| - 1], from) + if times[|times| - 1] >= from then 1 else 0
  }

  /** One more failure now makes eight within the last ten minutes. */
  predicate Overfull(retained: seq<nat>, now: nat) {
    CountFrom(retained, now - 600_000) + 1 >= 8
  }

  lemma {:induction false} PruneCounts(times: seq<nat>, now: nat, windowMs: nat)
    ensures |PruneOld(times, now, windowMs)| == CountFrom(times, now - windowMs)
  {
    if times != [] {
      PruneCounts(times[..|times| - 1], now, windowMs);
    }
  }

  lemma OverfullIs(retained: seq<nat>, now: nat)
    ensures Overfull(retained, now) <==> |PruneOld(retained + [now], now, FAILURE_WINDOW_MS)| >= BAN_THRESHOLD
  {
    PruneCounts(retained, now, FAILURE_WINDOW_MS);
    PruneAppend(retained, now, now, FAILURE_WINDOW_MS);
  }

  /** The latest ban placed on the unpinned peer and not lifted by a query while it was pinned. */
  function LatestBan(events: seq<Event>): Option<nat> {
    if events == [] then None
    else
      var front, e := events[..|events| - 1], events[|events| - 1];
      match e
      case Failure(now, pinned) =>
        if !pinned && Overfull(Retained(front), now) then Some(now + 1_800_000) else LatestBan(front)
      case Success(_) => LatestBan(front)
      case Query(_, pinned) => if pinned then None else LatestBan(front)
      case Ban(now, pinned, durationMs) => if pinned then LatestBan(front) else Some(now + durationMs)
      case Forget(_) => LatestBan(front)
  }

  function LastNow(events: seq<Event>): nat {
    if events == [] then 0 else events[|events| - 1].now
  }

  lemma {:induction false} PruneTwice(s: seq<nat>, now: nat, later: nat, windowMs: nat)
    requires now <= later
    ensures PruneOld(PruneOld(s, now, windowMs), later, windowMs) == PruneOld(s, later, windowMs)
  {
    if s != [] {
      var front, last := s[..|s| - 1], s[|s| - 1];
      PruneTwice(front, now, later, windowMs);
      if last >= now - windowMs {
        PruneAppend(PruneOld(front, now, windowMs), last, later, windowMs);
      } else {
        assert PruneOld(s, now, windowMs) == PruneOld(front, now, windowMs);
      }
    }
  }

  lemma PruneAppend(s: seq<nat>, t: nat, now: nat, windowMs: nat)
    ensures PruneOld(s + [t], now, windowMs) == PruneOld(s, now, windowMs) + if t >= now - windowMs then [t] else []
  {
    assert (s + [t])[..|s|] == s;
  }

  /** What is stored is what is retained, cut to the window before the newest failure. */
  ghost predicate HitsRefine(hits: seq<nat>, retained: seq<nat>, last: nat) {
    && hits == (if retained == [] then [] else PruneOld(retained, retained[|retained| - 1], FAILURE_WINDOW_MS))
    && |hits| < BAN_THRESHOLD
    && (retained != [] ==> retained[|retained| - 1] <= last)
  }

  function BanEnd(ban: Option<nat>): nat {
    if ban.Some? then ban.value else 0
  }

  /** The stored ban and the latest one of the history end alike, or have both run out. */
  ghost predicate BanRefines(ban: Option<nat>, latest: Option<nat>, last: nat) {
    BanEnd(ban) > last || BanEnd(latest) > last ==> BanEnd(ban) == BanEnd(latest)
  }

  ghost predicate Refines(p: Peer, events: seq<Event>) {
    && HitsRefine(p.hits, Retained(events), LastNow(events))
    && BanRefines(p.ban, LatestBan(events), LastNow(events))
  }

  lemma {:induction false} PruneShrinks(s: seq<nat>, now: nat, windowMs: nat)
    ensures |PruneOld(s, now, windowMs)| <= |s|
  {
    if s != [] {
      PruneShrinks(s[..|s| - 1], now, windowMs);
    }
  }

  /** Pushing and pruning the stored list does what it would do to all retained failures, and the cap
      on its length never matters. */
  lemma PushRefines(hits: seq<nat>, retained: seq<nat>, last: nat, now: nat)
    requires HitsRefine(hits, retained, last) && last <= now
    ensures PushWindow(hits, now, FAILURE_WINDOW_MS, MAX_STORED) == PruneOld(retained + [now], now, FAILURE_WINDOW_MS)
    ensures |PruneOld(retained + [now], now, FAILURE_WINDOW_MS)| <= BAN_THRESHOLD
  {
    PruneAppend(retained, now, now, FAILURE_WINDOW_MS);
    PruneAppend(hits, now, now, FAILURE_WINDOW_MS);
    PruneShrinks(hits, now, FAILURE_WINDOW_MS);
    if retained != [] {
      PruneTwice(retained, retained[|retained| - 1], now, FAILURE_WINDOW_MS);
    }
  }

  lemma FailureHitsRefine(p: Peer, retained: seq<nat>, last: nat, now: nat, pinned: bool)
    requires HitsRefine(p.hits, retained, last) && last <= now
    ensures var q := RecordFailure(p, now, pinned);
            && HitsRefine(q.hits, if Overfull(retained, now) then [] else retained + [now], now)
            && q.ban == if Overfull(retained, now) && !pinned then Some(now + BAN_MS) else p.ban
  {
    PushRefines(p.hits, retained, last, now);
    OverfullIs(retained, now);
  }

  lemma FailureRefines(p: Peer, events: seq<Event>, now: nat, pinned: bool)
    requires Refines(p, events) && LastNow(events) <= now
    ensures Refines(RecordFailure(p, now, pinned), events + [Failure(now, pinned)])
  {
    assert (events + [Failure(now, pinned)])[..|events|] == events;
    FailureHitsRefine(p, Retained(events), LastNow(events), now, pinned);
  }

  /** The retained failures within the window before the newest, which is the last of them. */
  lemma PruneNewest(s: seq<nat>)
    requires s != []
    ensures var q := PruneOld(s, s[|s| - 1], FAILURE_WINDOW_MS);
            q != [] && q[|q| - 1] == s[|s| - 1] && |q| == CountFrom(s, WindowStart(s))
  {
    PruneCounts(s, s[|s| - 1], FAILURE_WINDOW_MS);
    FrontAndLast(s);
    PruneAppend(s[..|s| - 1], s[|s| - 1], s[|s| - 1], FAILURE_WINDOW_MS);
  }

  lemma PruneSingle(t: nat)
    ensures PruneOld([t], t, FAILURE_WINDOW_MS) == [t]
  {
    PruneAppend([], t, t, FAILURE_WINDOW_MS);
    assert [] + [t] == [t];
  }

  /** What a success leaves of retained failures. */
  function AfterSuccess(retained: seq<nat>): seq<nat> {
    if retained != [] && CountFrom(retained, WindowStart(retained)) >= 2 then [retained[|retained| - 1]] else []
  }

  lemma SuccessRefines(p: Peer, retained: seq<nat>, last: nat, now: nat)
    requires HitsRefine(p.hits, retained, last) && last <= now
    ensures RecordSuccess(p).hits == AfterSuccess(retained)
    ensures HitsRefine(RecordSuccess(p).hits, AfterSuccess(retained), now)
  {
    if retained != [] {
      PruneNewest(retained);
      PruneSingle(retained[|retained| - 1]);
    }
  }

  /** What leaves the failures alone. */
  lemma BanStepRefines(p: Peer, events: seq<Event>, e: Event)
    requires Refines(p, events) && LastNow(events) <= e.now && (e.Query? || e.Ban?)
    ensures BanRefines(Step(p, e).ban, LatestBan(events + [e]), e.now)
    ensures Step(p, e).hits == p.hits && Retained(events + [e]) == Retained(events)
  {
    assert (events + [e])[..|events|] == events;
  }

  /** What leaves the ban alone. */
  lemma HitsStepRefines(p: Peer, events: seq<Event>, e: Event)
    requires Refines(p, events) && LastNow(events) <= e.now && (e.Success? || e.Forget?)
    ensures HitsRefine(Step(p, e).hits, Retained(events + [e]), e.now)
    ensures Step(p, e).ban == p.ban && LatestBan(events + [e]) == LatestBan(events)
  {
    assert (events + [e])[..|events|] == events;
    if e.Success? {
      SuccessRefines(p, Retained(events), LastNow(events), e.now);
    }
  }

  lemma StepRefines(p: Peer, events: seq<Event>, e: Event)
    requires Refines(p, events) && LastNow(events) <= e.now
    ensures Refines(Step(p, e), events + [e])
  {
    if e.Failure? {
      FailureRefines(p, events, e.now, e.pinned);
    } else if e.Query? || e.Ban? {
      BanStepRefines(p, events, e);
    } else {
      HitsStepRefines(p, events, e);
    }
  }

  lemma {:induction false} HistoryRefined(events: seq<Event>)
    requires Clocked(events)
    ensures Refines(Run(events), events)
  {
    if events != [] {
      var front, e := events[..|events| - 1], events[|events| - 1];
      assert Clocked(front) && LastNow(front) <= e.now by {
        assert forall i :: 0 <= i < |front| ==> front[i] == events[i];
      }
      HistoryRefined(front);
      StepRefines(Run(front), front, e);
      FrontAndLast(events);
    }
  }

  // ---- main results -----------------------------------------------------------------

  /** The answer to a query is the one the full history calls for. */
  lemma BannedIff(events: seq<Event>, now: nat, pinned: bool)
    requires Clocked(events) && LastNow(events) <= now
    ensures IsBanned(Run(events), now, pinned) <==>
            !pinned && LatestBan(events).Some? && LatestBan(events).value > now
  {
    HistoryRefined(events);
  }

  /** A failure of an unpinned peer leaves it banned for 30 minutes exactly when it makes eight
      retained ones within the last ten; otherwise nothing changes for the ban. Lists stay short. */
  lemma FailureBansIff(events: seq<Event>, now: nat)
    requires Clocked(events) && LastNow(events) <= now
    ensures var p, q := Run(events), RecordFailure(Run(events), now, false);
            && (CountFrom(Retained(events), now - 600_000) >= 7 ==> q == Peer([], Some(now + 1_800_000)))
            && (CountFrom(Retained(events), now - 600_000) < 7 ==> q.ban == p.ban && q.hits != [])
            && |q.hits| < 8
  {
    HistoryRefined(events);
    FailureHitsRefine(Run(events), Retained(events), LastNow(events), now, false);
  }

  /** A success leaves the newest failure behind only if a second one lies in the window before it;
      a lone failure is forgotten altogether. */
  lemma SuccessKeepsNewestIff(events: seq<Event>, now: nat)
    requires Clocked(events) && LastNow(events) <= now
    ensures var r, q := Retained(events), RecordSuccess(Run(events));
            && (q.hits != [] <==> r != [] && CountFrom(r, WindowStart(r)) >= 2)
            && (q.hits != [] ==> q.hits == [r[|r| - 1]])
  {
    HistoryRefined(events);
    SuccessRefines(Run(events), Retained(events), LastNow(events), now);
  }

  lemma LoneFailureForgotten()
    ensures Run([Failure(5, false)]).hits == [5] && Run([Failure(5, false), Success(6)]).hits == []
  {
    var es := [Failure(5, false), Success(6)];
    assert es[..1] == [Failure(5, false)] && [Failure(5, false)][..0] == [];
    assert Run([]) == Peer([], None);
    PruneAppend([], 5, 5, FAILURE_WINDOW_MS);
    assert Run([Failure(5, false)]).hits == [5];
  }
}
