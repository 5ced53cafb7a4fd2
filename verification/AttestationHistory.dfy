/** What an accepted attestation rests on, told by the events of a run alone, and what verdicts do to the
    records of the miners (attestation.js). */
module AttestationHistory {
  import opened JsObject
  import opened Rounding
  import opened AttestationState

  // ---- one submission ---------------------------------------------------------------

  /** A submission gets past the checks exactly if it names an active challenge of its miner that has not
      run out after two minutes, carries the signature and the seed of it, and it has been measured. */
  lemma WaitsIff(s: State, now: nat, ticket: nat, p: Payload)
    requires ActiveKept(s) && ticket !in s.suspended
    ensures ticket in OnSubmit(s, now, ticket, p).suspended <==>
            && p.challengeId.Some? && p.challengeId.value in s.active
            && var c := s.active[p.challengeId.value];
               && c.minerId == p.minerId && now <= c.issuedAt + 120_000
               && p.signatureOk && p.proofSeed == c.seed && c.measured.Some?
  {
  }

  /** What waits is the challenge as it was, with its measurement. */
  lemma WaitsWith(s: State, now: nat, ticket: nat, p: Payload)
    requires ActiveKept(s) && ticket !in s.suspended && ticket in OnSubmit(s, now, ticket, p).suspended
    ensures p.challengeId.Some? && p.challengeId.value in s.active
    ensures var c := s.active[p.challengeId.value];
            c.measured.Some? &&
            OnSubmit(s, now, ticket, p).suspended ==
              s.suspended[ticket := Suspended(p.minerId, c, c.measured.value, now)]
  {
  }

  /** A submission is used up when it resumes: the verdict is an accept exactly if identity and jitter are
      in order, the measurement is at least the minimum, and the replay cache does not hold it. */
  lemma VerdictIff(s: State, ticket: nat, identityOk: bool, jitterOk: bool)
    requires ticket in s.suspended
    ensures var w, t := s.suspended[ticket], OnResume(s, ticket, identityOk, jitterOk);
            var key := ReplayKey(w.minerId, w.challenge.id, w.challenge.seed, ToFixed(w.ops));
            && t.suspended == s.suspended - {ticket} && w.challenge.id !in t.active
            && t.consumed == s.consumed[key := w.startedAt]
            && t.accepts == (if identityOk && jitterOk && w.ops >= w.challenge.minOps && key !in s.consumed
                             then s.accepts + [Accept(w.minerId, w.challenge.id, ToFixed(w.ops), w.startedAt)]
                             else s.accepts)
  {
  }

  // ---- challenges and replay keys ---------------------------------------------------

  lemma ActiveAfterSubmission(s: State, now: nat, ticket: nat, p: Payload, id: string)
    requires ActiveKept(s) && ticket !in s.suspended
    ensures var t := OnSubmit(s, now, ticket, p);
            id in t.active <==>
              && id in s.active && now <= s.active[id].issuedAt + 120_000
              && (p.challengeId == Some(id) ==> ticket in t.suspended)
  {
  }

  /** A challenge is active after an event exactly if it is issued by it, or was active, has not run out
      when the program cleans up, and is not used up: by a submission that fails, or by a verdict. */
  lemma ActiveIff(s: State, e: Event, id: string)
    requires ActiveKept(s) && (e.Submit? ==> e.ticket !in s.suspended)
    ensures id in Step(s, e).active <==>
            match e
            case Issue(now, c) => id == c.id || (id in s.active && now <= s.active[id].issuedAt + 120_000)
            case Measure(_, _, _) => id in s.active
            case Submit(now, ticket, p) =>
              && id in s.active && now <= s.active[id].issuedAt + 120_000
              && (p.challengeId == Some(id) ==> ticket in Step(s, e).suspended)
            case Resume(_, ticket, _, _) =>
              id in s.active && !(ticket in s.suspended && s.suspended[ticket].challenge.id == id)
  {
    if e.Submit? {
      ActiveAfterSubmission(s, e.now, e.ticket, e.payload, id);
    }
  }

  /** A replay key is kept for twelve hours. */
  lemma ReplayKeyIff(s: State, e: Event, key: ReplayKey)
    ensures key in Step(s, e).consumed <==>
            || (key in s.consumed && (e.Issue? || e.Submit? ==> s.consumed[key] >= e.now - 43_200_000))
            || (e.Resume? && e.ticket in s.suspended &&
                var w := s.suspended[e.ticket];
                key == ReplayKey(w.minerId, w.challenge.id, w.challenge.seed, ToFixed(w.ops)))
  {
  }

  // ---- records ----------------------------------------------------------------------

  function LevelUp(level: int): int {
    if level >= 10 then 10 else level + 1
  }

  function LevelDown(level: int): int {
    if level <= 0 then 0 else level - 1
  }

  ghost predicate Promoted(before: Record, after: Record) {
    after == Record(LevelUp(before.level), before.goodStreak + 1, 0, before.accepted + 1, before.rejected)
  }

  ghost predicate Demoted(before: Record, after: Record) {
    after == Record(LevelDown(before.level), 0, if before.badStreak < 0 then 1 else before.badStreak + 1,
                    before.accepted, before.rejected + 1)
  }

  /** The submission of this miner that the event decides. */
  ghost predicate Decides(s: State, e: Event, miner: string) {
    || (e.Submit? && e.payload.minerId == miner && e.ticket !in Step(s, e).suspended)
    || (e.Resume? && e.ticket in s.suspended && s.suspended[e.ticket].minerId == miner)
  }

  /** An accept lifts its miner by one level up to ten, a rejection takes one down to zero, each with its
      streak and count; nothing else touches a record. */
  lemma RecordFollowsVerdict(s: State, e: Event, miner: string)
    requires ActiveKept(s) && (e.Submit? ==> e.ticket !in s.suspended)
    ensures var before, after := RecordOf(s.miners, miner), RecordOf(Step(s, e).miners, miner);
            if !Decides(s, e, miner) then after == before
            else if |Step(s, e).accepts| > |s.accepts| then Promoted(before, after) else Demoted(before, after)
  {
  }

  /** The accepts of a miner. */
  function AcceptsOf(accepts: seq<Accept>, miner: string): nat {
    if accepts == [] then 0
    else AcceptsOf(accepts[..|accepts| - 1], miner) + if accepts[|accepts| - 1].minerId == miner then 1 else 0
  }

  lemma AcceptsStep(s: State, e: Event, miner: string)
    requires ActiveKept(s) && (e.Submit? ==> e.ticket !in s.suspended)
    requires RecordOf(s.miners, miner).accepted == AcceptsOf(s.accepts, miner)
    ensures RecordOf(Step(s, e).miners, miner).accepted == AcceptsOf(Step(s, e).accepts, miner)
  {
    if e.Resume? && e.ticket in s.suspended {
      VerdictIff(s, e.ticket, e.identityOk, e.jitterOk);
      var w := s.suspended[e.ticket];
      assert (s.accepts + [AcceptOf(w)])[..|s.accepts|] == s.accepts;
    }
  }

  /** In every run a miner's record counts its accepts. */
  lemma {:induction false} RecordsCountAccepts(events: seq<Event>, miner: string)
    requires PossibleRun(events)
    ensures RecordOf(Run(events).miners, miner).accepted == AcceptsOf(Run(events).accepts, miner)
  {
    if events != [] {
      var front := events[..|events| - 1];
      RecordsCountAccepts(front, miner);
      AlwaysKept(front);
      AcceptsStep(Run(front), events[|events| - 1], miner);
    }
  }

  // ---- what an accept rests on ------------------------------------------------------

  /** A benchmark of the miner, or of the identity, that the challenge was issued to. */
  ghost predicate MeasuresFor(e: Event, c: Challenge) {
    e.Measure? && e.address != "" && (e.address == c.minerId || e.address == c.identityAddress)
  }

  ghost predicate IssuedAt(events: seq<Event>, p: int, c: Challenge) {
    0 <= p < |events| && events[p].Issue? && events[p].challenge == c
  }

  /** Event `m` is the last measurement of the challenge among the events from `p` up to `n`. */
  ghost predicate LastMeasuredAt(events: seq<Event>, p: int, n: int, c: Challenge, m: int) {
    && 0 <= p < m < n <= |events| && MeasuresFor(events[m], c)
    && forall k :: m < k < n ==> !MeasuresFor(events[k], c)
  }

  ghost predicate NotMeasured(events: seq<Event>, p: int, n: int, c: Challenge) {
    0 <= p < n <= |events| && forall k :: p < k < n ==> !MeasuresFor(events[k], c)
  }

  /** Event `q` submits the challenge in full and in time, with this measurement before it. */
  ghost predicate SubmittedAt(events: seq<Event>, q: int, c: Challenge, ticket: nat, at: nat) {
    && 0 <= q < |events| && events[q] == Submit(at, ticket, Payload(c.minerId, Some(c.id), true, c.seed))
    && at <= c.issuedAt + 120_000
  }

  /** Submission `ticket` of event `q` has not resumed before event `n`. */
  ghost predicate StillWaits(events: seq<Event>, q: int, n: int, ticket: nat) {
    0 <= q < n <= |events| && forall k :: q < k < n ==> !(events[k].Resume? && events[k].ticket == ticket)
  }

  /** The accept rests on a challenge issued to its miner by event `p`, its last measurement `m`, which is
      at least the minimum, a full submission `q` in time, and a verdict `r` on it with identity and
      jitter in order. */
  ghost predicate RestsOn(events: seq<Event>, a: Accept, c: Challenge, p: int, m: int, q: int, r: int) {
    && IssuedAt(events, p, c) && a.challengeId == c.id && a.minerId == c.minerId
    && LastMeasuredAt(events, p, q, c, m)
    && events[m].ops >= c.minOps && a.roundedOps == ToFixed(events[m].ops)
    && 0 <= r < |events| && events[r].Resume? && events[r].identityOk && events[r].jitterOk
    && SubmittedAt(events, q, c, events[r].ticket, a.checkedAt) && StillWaits(events, q, r, events[r].ticket)
  }

  ghost predicate Founded(events: seq<Event>, a: Accept) {
    exists c, p, m, q, r :: RestsOn(events, a, c, p, m, q, r)
  }

  // ---- what the state knows of the history ------------------------------------------

  ghost predicate ActiveFrom(events: seq<Event>, active: Challenge, c: Challenge, p: int) {
    && IssuedAt(events, p, c) && active == c.(measured := active.measured)
    && (active.measured == None ==> NotMeasured(events, p, |events|, c))
    && (active.measured.Some? ==>
          exists m :: LastMeasuredAt(events, p, |events|, c, m) && events[m].ops == active.measured.value)
  }

  ghost predicate WaitingFrom(events: seq<Event>, ticket: nat, w: Suspended, c: Challenge, p: int, m: int, q: int) {
    && IssuedAt(events, p, c) && w.challenge == c.(measured := Some(w.ops)) && w.minerId == c.minerId
    && LastMeasuredAt(events, p, q, c, m) && events[m].ops == w.ops
    && SubmittedAt(events, q, c, ticket, w.startedAt) && StillWaits(events, q, |events|, ticket)
  }

  ghost predicate Remembers(events: seq<Event>, s: State) {
    && (forall id :: id in s.active ==> exists c, p :: ActiveFrom(events, s.active[id], c, p))
    && (forall t :: t in s.suspended ==> exists c, p, m, q :: WaitingFrom(events, t, s.suspended[t], c, p, m, q))
    && (forall i :: 0 <= i < |s.accepts| ==> Founded(events, s.accepts[i]))
  }

  lemma FoundedNext(events: seq<Event>, e: Event, a: Accept)
    requires Founded(events, a)
    ensures Founded(events + [e], a)
  {
    var c, p, m, q, r :| RestsOn(events, a, c, p, m, q, r);
    assert RestsOn(events + [e], a, c, p, m, q, r);
  }

  lemma WaitingNext(events: seq<Event>, e: Event, ticket: nat, w: Suspended, c: Challenge, p: int, m: int, q: int)
    requires WaitingFrom(events, ticket, w, c, p, m, q) && !(e.Resume? && e.ticket == ticket)
    ensures WaitingFrom(events + [e], ticket, w, c, p, m, q)
  {
  }

  lemma ActiveNext(events: seq<Event>, e: Event, active: Challenge, c: Challenge, p: int)
    requires ActiveFrom(events, active, c, p) && !MeasuresFor(e, c)
    ensures ActiveFrom(events + [e], active, c, p)
  {
    if active.measured.Some? {
      var m :| LastMeasuredAt(events, p, |events|, c, m) && events[m].ops == active.measured.value;
      assert LastMeasuredAt(events + [e], p, |events| + 1, c, m);
    }
  }

  lemma ActiveMeasured(events: seq<Event>, e: Event, active: Challenge, c: Challenge, p: int)
    requires ActiveFrom(events, active, c, p) && MeasuresFor(e, c)
    ensures ActiveFrom(events + [e], active.(measured := Some(e.ops)), c, p)
  {
    assert LastMeasuredAt(events + [e], p, |events| + 1, c, |events|);
  }

  /** The active challenges after an event. */
  lemma ActiveAfter(s: State, e: Event, id: string)
    requires id in Step(s, e).active
    ensures if e.Issue? && id == e.challenge.id then Step(s, e).active[id] == e.challenge
            else id in s.active &&
                 Step(s, e).active[id] == if MeasuresFor(e, s.active[id]) then s.active[id].(measured := Some(e.ops))
                                          else s.active[id]
  {
  }

  /** A new accept is that of the submission that resumes. */
  lemma AcceptAfter(s: State, e: Event, i: nat)
    requires |s.accepts| <= i < |Step(s, e).accepts|
    ensures e.Resume? && e.ticket in s.suspended && e.identityOk && e.jitterOk
    ensures var w := s.suspended[e.ticket];
            w.ops >= w.challenge.minOps &&
            Step(s, e).accepts[i] == Accept(w.minerId, w.challenge.id, ToFixed(w.ops), w.startedAt)
  {
  }

  lemma OldAccept(s: State, e: Event, i: nat)
    requires i < |s.accepts|
    ensures i < |Step(s, e).accepts| && Step(s, e).accepts[i] == s.accepts[i]
  {
  }

  lemma ActiveRemembered(events: seq<Event>, s: State, e: Event, id: string)
    requires Remembers(events, s) && id in Step(s, e).active
    requires e.Issue? ==> e.challenge.measured == None
    ensures exists c, p :: ActiveFrom(events + [e], Step(s, e).active[id], c, p)
  {
    ActiveAfter(s, e, id);
    if e.Issue? && id == e.challenge.id {
      assert ActiveFrom(events + [e], e.challenge, e.challenge, |events|);
    } else {
      var c, p :| ActiveFrom(events, s.active[id], c, p);
      if MeasuresFor(e, c) {
        ActiveMeasured(events, e, s.active[id], c, p);
      } else {
        ActiveNext(events, e, s.active[id], c, p);
      }
    }
  }

  /** A full submission in time of a measured challenge. */
  lemma SubmissionRemembered(events: seq<Event>, now: nat, ticket: nat, active: Challenge, c: Challenge, p: int)
    requires ActiveFrom(events, active, c, p) && active.measured.Some? && now <= active.issuedAt + 120_000
    ensures var e := Submit(now, ticket, Payload(active.minerId, Some(active.id), true, active.seed));
            exists m :: WaitingFrom(events + [e], ticket, Suspended(active.minerId, active, active.measured.value, now),
                                    c, p, m, |events|)
  {
    var e := Submit(now, ticket, Payload(active.minerId, Some(active.id), true, active.seed));
    var m :| LastMeasuredAt(events, p, |events|, c, m) && events[m].ops == active.measured.value;
    assert WaitingFrom(events + [e], ticket, Suspended(active.minerId, active, active.measured.value, now),
                       c, p, m, |events|);
  }

  lemma NewlyWaiting(events: seq<Event>, s: State, now: nat, ticket: nat, payload: Payload)
    requires Remembers(events, s) && ActiveKept(s) && ticket !in s.suspended
    ensures ticket in OnSubmit(s, now, ticket, payload).suspended ==>
              exists c, p, m, q ::
                WaitingFrom(events + [Submit(now, ticket, payload)], ticket,
                            OnSubmit(s, now, ticket, payload).suspended[ticket], c, p, m, q)
  {
    if ticket in OnSubmit(s, now, ticket, payload).suspended {
      WaitsIff(s, now, ticket, payload);
      WaitsWith(s, now, ticket, payload);
      var active := s.active[payload.challengeId.value];
      var c, p :| ActiveFrom(events, active, c, p);
      SubmissionRemembered(events, now, ticket, active, c, p);
    }
  }

  /** What waits after an event and waited before it. */
  lemma WaitingAfter(s: State, e: Event, t: nat)
    requires t in Step(s, e).suspended && !(e.Submit? && t == e.ticket)
    ensures t in s.suspended && Step(s, e).suspended[t] == s.suspended[t] && !(e.Resume? && e.ticket == t)
  {
  }

  lemma WaitingRemembered(events: seq<Event>, s: State, e: Event, t: nat)
    requires Remembers(events, s) && ActiveKept(s) && (e.Submit? ==> e.ticket !in s.suspended)
    ensures t in Step(s, e).suspended ==>
              exists c, p, m, q :: WaitingFrom(events + [e], t, Step(s, e).suspended[t], c, p, m, q)
  {
    if e.Submit? && t == e.ticket {
      NewlyWaiting(events, s, e.now, t, e.payload);
    } else if t in Step(s, e).suspended {
      WaitingAfter(s, e, t);
      var w := s.suspended[t];
      var c, p, m, q :| WaitingFrom(events, t, w, c, p, m, q);
      WaitingNext(events, e, t, w, c, p, m, q);
    }
  }

  lemma VerdictFounds(events: seq<Event>, e: Event, w: Suspended, a: Accept, c: Challenge, p: int, m: int, q: int)
    requires e.Resume? && e.identityOk && e.jitterOk && WaitingFrom(events, e.ticket, w, c, p, m, q)
    requires w.ops >= w.challenge.minOps && a == Accept(w.minerId, w.challenge.id, ToFixed(w.ops), w.startedAt)
    ensures Founded(events + [e], a)
  {
    assert RestsOn(events + [e], a, c, p, m, q, |events|);
  }

  lemma AcceptRemembered(events: seq<Event>, s: State, e: Event, i: nat)
    requires Remembers(events, s)
    ensures i < |Step(s, e).accepts| ==> Founded(events + [e], Step(s, e).accepts[i])
  {
    if i < |s.accepts| {
      OldAccept(s, e, i);
      FoundedNext(events, e, s.accepts[i]);
    } else if i < |Step(s, e).accepts| {
      AcceptAfter(s, e, i);
      var w := s.suspended[e.ticket];
      var c, p, m, q :| WaitingFrom(events, e.ticket, w, c, p, m, q);
      VerdictFounds(events, e, w, Step(s, e).accepts[i], c, p, m, q);
    }
  }

  lemma StepRemembers(events: seq<Event>, s: State, e: Event)
    requires Remembers(events, s) && ActiveKept(s)
    requires (e.Submit? ==> e.ticket !in s.suspended) && (e.Issue? ==> e.challenge.measured == None)
    ensures Remembers(events + [e], Step(s, e))
  {
    forall id | id in Step(s, e).active ensures exists c, p :: ActiveFrom(events + [e], Step(s, e).active[id], c, p) {
      ActiveRemembered(events, s, e, id);
    }
    forall t | t in Step(s, e).suspended
      ensures exists c, p, m, q :: WaitingFrom(events + [e], t, Step(s, e).suspended[t], c, p, m, q)
    {
      WaitingRemembered(events, s, e, t);
    }
    forall i | 0 <= i < |Step(s, e).accepts| ensures Founded(events + [e], Step(s, e).accepts[i]) {
      AcceptRemembered(events, s, e, i);
    }
  }

  lemma {:induction false} AlwaysRemembers(events: seq<Event>)
    requires PossibleRun(events)
    ensures Remembers(events, Run(events))
  {
    if events != [] {
      var front, e := events[..|events| - 1], events[|events| - 1];
      AlwaysRemembers(front);
      RemembersNext(front, e);
      assert front + [e] == events;
    }
  }

  lemma RemembersNext(front: seq<Event>, e: Event)
    requires Remembers(front, Run(front)) && PossibleRun(front + [e])
    ensures Remembers(front + [e], Run(front + [e]))
  {
    RunNext(front, e);
    AlwaysKept(front);
    StepRemembers(front, Run(front), e);
  }

  /** In every run each accept rests on a challenge issued to its miner, a measurement of at least the
      minimum, a full submission of it in time, and a verdict with identity and jitter in order. */
  lemma AcceptsFounded(events: seq<Event>, i: nat)
    requires PossibleRun(events) && i < |Run(events).accepts|
    ensures Founded(events, Run(events).accepts[i])
  {
    AlwaysRemembers(events);
  }

  // ---- the first submission of a challenge ------------------------------------------

  /** The challenge is active with this measurement, and no submission of it has been made. */
  ghost predicate Untouched(s: State, c: Challenge, measured: Option<real>) {
    && c.id in s.active && s.active[c.id] == c.(measured := measured)
    && (forall t :: t in s.suspended ==> s.suspended[t].challenge.id != c.id)
    && forall k :: k in s.consumed ==> k.challengeId != c.id
  }

  /** This submission waits, and no other of its challenge has been made. */
  ghost predicate WaitsAlone(s: State, ticket: nat, w: Suspended) {
    && ticket in s.suspended && s.suspended[ticket] == w
    && (forall t :: t in s.suspended && t != ticket ==> s.suspended[t].challenge.id != w.challenge.id)
    && forall k :: k in s.consumed ==> k.challengeId != w.challenge.id
  }

  ghost predicate Names(e: Event, id: string) {
    e.Submit? && e.payload.challengeId == Some(id)
  }

  lemma UntouchedAtIssue(s: State, before: nat, e: Event)
    requires Kept(s, before) && Possible(s, before, e) && e.Issue?
    ensures Untouched(Step(s, e), e.challenge, None)
  {
    forall t | t in s.suspended ensures s.suspended[t].challenge.id != e.challenge.id {
      assert AsIssued(s.issued, s.suspended[t].challenge);
    }
  }

  lemma UntouchedStep(s: State, before: nat, e: Event, c: Challenge, measured: Option<real>)
    requires Kept(s, before) && Possible(s, before, e) && Untouched(s, c, measured)
    requires !Names(e, c.id) && e.now <= c.issuedAt + 120_000
    ensures Untouched(Step(s, e), c, if MeasuresFor(e, c) then Some(e.ops) else measured)
  {
    assert c.id in s.issued;
    match e
    case Issue(now, challenge) =>
    case Measure(now, address, ops) =>
    case Submit(now, ticket, payload) => OtherSubmission(s, now, ticket, payload, c.id);
    case Resume(now, ticket, identityOk, jitterOk) =>
  }

  /** A submission that names another challenge. */
  lemma OtherSubmission(s: State, now: nat, ticket: nat, p: Payload, id: string)
    requires ActiveKept(s) && p.challengeId != Some(id)
    ensures var t := OnSubmit(s, now, ticket, p);
            && (id in s.active && now <= s.active[id].issuedAt + 120_000 ==>
                  id in t.active && t.active[id] == s.active[id])
            && t.consumed.Keys <= s.consumed.Keys
            && (forall k :: k in t.suspended && k != ticket ==> k in s.suspended && t.suspended[k] == s.suspended[k])
            && (forall k :: k in s.suspended && k != ticket ==> k in t.suspended && t.suspended[k] == s.suspended[k])
            && (ticket in t.suspended ==>
                  (ticket in s.suspended && t.suspended[ticket] == s.suspended[ticket]) ||
                  t.suspended[ticket].challenge.id != id)
  {
  }

  lemma WaitsAtSubmit(s: State, now: nat, ticket: nat, c: Challenge, ops: real)
    requires ActiveKept(s) && Untouched(s, c, Some(ops)) && ticket !in s.suspended && now <= c.issuedAt + 120_000
    ensures WaitsAlone(OnSubmit(s, now, ticket, Payload(c.minerId, Some(c.id), true, c.seed)), ticket,
                       Suspended(c.minerId, c.(measured := Some(ops)), ops, now))
  {
  }

  lemma WaitsAloneStep(s: State, before: nat, e: Event, ticket: nat, w: Suspended)
    requires Kept(s, before) && Possible(s, before, e) && WaitsAlone(s, ticket, w)
    requires !Names(e, w.challenge.id) && !(e.Resume? && e.ticket == ticket)
    ensures WaitsAlone(Step(s, e), ticket, w)
  {
    match e
    case Issue(now, challenge) =>
    case Measure(now, address, ops) =>
    case Submit(now, t, payload) => OtherSubmission(s, now, t, payload, w.challenge.id);
    case Resume(now, t, identityOk, jitterOk) =>
  }

  lemma {:induction false} PossiblePrefix(events: seq<Event>, n: nat)
    requires PossibleRun(events) && n <= |events|
    ensures PossibleRun(events[..n])
  {
    if n < |events| {
      PossiblePrefix(events[..|events| - 1], n);
      assert events[..|events| - 1][..n] == events[..n];
    } else {
      assert events[..n] == events;
    }
  }

  /** The state before event `n`, and that event. */
  lemma AtEvent(events: seq<Event>, n: nat)
    requires PossibleRun(events) && n < |events|
    ensures Kept(Run(events[..n]), LastNow(events[..n])) && Possible(Run(events[..n]), LastNow(events[..n]), events[n])
    ensures Run(events[..n + 1]) == Step(Run(events[..n]), events[n])
  {
    PossiblePrefix(events, n + 1);
    assert events[..n + 1][..n] == events[..n] && events[..n + 1][n] == events[n];
    AlwaysKept(events[..n]);
  }

  lemma ClockStep(events: seq<Event>, n: nat)
    requires PossibleRun(events) && 0 < n < |events|
    ensures events[n - 1].now <= events[n].now
  {
    PossiblePrefix(events, n + 1);
    assert events[..n + 1][..n] == events[..n];
    assert LastNow(events[..n]) == events[n - 1].now;
  }

  lemma {:induction false} ClockForward(events: seq<Event>, i: nat, j: nat)
    requires PossibleRun(events) && i <= j < |events|
    ensures events[i].now <= events[j].now
    decreases j
  {
    if i < j {
      ClockForward(events, i, j - 1);
      ClockStep(events, j);
    }
  }

  /** The last measurement of the challenge among the events from `p` up to `n`. */
  ghost function MeasuredUpTo(events: seq<Event>, p: nat, n: nat, c: Challenge): Option<real>
    requires p < n <= |events|
  {
    if n == p + 1 then None
    else if MeasuresFor(events[n - 1], c) then Some(events[n - 1].ops) else MeasuredUpTo(events, p, n - 1, c)
  }

  lemma {:induction false} LastIsMeasured(events: seq<Event>, p: nat, n: nat, c: Challenge, m: int)
    requires LastMeasuredAt(events, p, n, c, m)
    ensures MeasuredUpTo(events, p, n, c) == Some(events[m].ops)
  {
    if m < n - 1 {
      assert !MeasuresFor(events[n - 1], c);
      LastIsMeasured(events, p, n - 1, c, m);
    }
  }

  /** No submission names the challenge from its issue up to event `n`, but for that of event `q`. */
  ghost predicate NamedOnlyBy(events: seq<Event>, p: int, n: int, id: string, q: int) {
    0 <= p < n <= |events| && forall k :: p < k < n && k != q ==> !Names(events[k], id)
  }

  lemma {:induction false} UntouchedUntil(events: seq<Event>, c: Challenge, p: nat, n: nat, q: nat)
    requires PossibleRun(events) && IssuedAt(events, p, c) && p < n <= q < |events|
    requires NamedOnlyBy(events, p, q, c.id, q) && events[q].now <= c.issuedAt + 120_000
    ensures Untouched(Run(events[..n]), c, MeasuredUpTo(events, p, n, c))
  {
    AtEvent(events, n - 1);
    if n == p + 1 {
      UntouchedAtIssue(Run(events[..p]), LastNow(events[..p]), events[p]);
    } else {
      UntouchedUntil(events, c, p, n - 1, q);
      ClockForward(events, n - 1, q);
      assert !Names(events[n - 1], c.id);
      var measured := MeasuredUpTo(events, p, n - 1, c);
      UntouchedStep(Run(events[..n - 1]), LastNow(events[..n - 1]), events[n - 1], c, measured);
    }
  }

  /** What the first submission of a measured challenge leaves waiting. */
  function Submission(events: seq<Event>, c: Challenge, m: nat, q: nat): Suspended
    requires m < |events| && q < |events| && events[m].Measure?
  {
    Suspended(c.minerId, c.(measured := Some(events[m].ops)), events[m].ops, events[q].now)
  }

  lemma WaitsOnceSubmitted(events: seq<Event>, c: Challenge, p: nat, m: nat, q: nat, ticket: nat)
    requires PossibleRun(events) && IssuedAt(events, p, c) && LastMeasuredAt(events, p, q, c, m) && q < |events|
    requires SubmittedAt(events, q, c, ticket, events[q].now) && NamedOnlyBy(events, p, q, c.id, q)
    ensures WaitsAlone(Run(events[..q + 1]), ticket, Submission(events, c, m, q))
  {
    UntouchedUntil(events, c, p, q, q);
    LastIsMeasured(events, p, q, c, m);
    AtEvent(events, q);
    WaitsAtSubmit(Run(events[..q]), events[q].now, ticket, c, events[m].ops);
  }

  ghost predicate WaitsBefore(events: seq<Event>, n: nat, ticket: nat, w: Suspended)
    requires n <= |events|
  {
    WaitsAlone(Run(events[..n]), ticket, w)
  }

  lemma WaitsBeforeNext(events: seq<Event>, n: nat, next: nat, ticket: nat, w: Suspended)
    requires PossibleRun(events) && n < |events| && next == n + 1 && WaitsBefore(events, n, ticket, w)
    requires !Names(events[n], w.challenge.id) && !(events[n].Resume? && events[n].ticket == ticket)
    ensures WaitsBefore(events, next, ticket, w)
  {
    AtEvent(events, n);
    WaitsAloneStep(Run(events[..n]), LastNow(events[..n]), events[n], ticket, w);
  }

  /** Between these events the submission does not resume and its challenge is not named again. */
  ghost predicate LeftAlone(events: seq<Event>, q: int, n: int, ticket: nat, id: string) {
    && 0 <= q < n <= |events|
    && forall k :: q < k < n ==> !Names(events[k], id) && !(events[k].Resume? && events[k].ticket == ticket)
  }

  lemma {:induction false} WaitsUntil(events: seq<Event>, q: nat, n: nat, ticket: nat, w: Suspended)
    requires PossibleRun(events) && LeftAlone(events, q, n, ticket, w.challenge.id)
    requires WaitsBefore(events, q + 1, ticket, w)
    ensures WaitsBefore(events, n, ticket, w)
  {
    if n > q + 1 {
      WaitsUntil(events, q, n - 1, ticket, w);
      WaitsBeforeNext(events, n - 1, n, ticket, w);
    }
  }

  /** Conversely, the first submission of a challenge that was issued to its miner and measured at the
      minimum or above, in full and in time, is accepted if identity and jitter are in order, and is
      rejected if they are not or the measurement falls short. */
  lemma FirstSubmissionDecided(events: seq<Event>, c: Challenge, p: nat, m: nat, q: nat, r: nat)
    requires PossibleRun(events) && q < r < |events| && events[r].Resume?
    requires IssuedAt(events, p, c) && LastMeasuredAt(events, p, q, c, m)
    requires SubmittedAt(events, q, c, events[r].ticket, events[q].now) && StillWaits(events, q, r, events[r].ticket)
    requires NamedOnlyBy(events, p, r, c.id, q)
    ensures Run(events[..r + 1]).accepts ==
            if events[r].identityOk && events[r].jitterOk && events[m].ops >= c.minOps
            then Run(events[..r]).accepts + [Accept(c.minerId, c.id, ToFixed(events[m].ops), events[q].now)]
            else Run(events[..r]).accepts
  {
    WaitsOnceSubmitted(events, c, p, m, q, events[r].ticket);
    assert LeftAlone(events, q, r, events[r].ticket, c.id);
    WaitsUntil(events, q, r, events[r].ticket, Submission(events, c, m, q));
    AtEvent(events, r);
    VerdictIff(Run(events[..r]), events[r].ticket, events[r].identityOk, events[r].jitterOk);
  }
}
