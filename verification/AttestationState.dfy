/** Benchmark challenges and their submissions (attestation.js), with each submission split at its
    `await`. Miner names are taken as already normalised. The replay key, a SHA-256 digest in the
    program, is the tuple that is hashed; signatures and wallet checks are outcomes of the events. */
module AttestationState {
  import opened JsObject
  import opened Rounding

  const CHALLENGE_TTL_MS: nat := 120_000
  const REPLAY_WINDOW_MS: nat := 43_200_000
  const MAX_LEVEL: nat := 10

  /** No submission stays suspended longer than this (just under twelve hours). */
  const MAX_WAIT_MS: nat := REPLAY_WINDOW_MS - CHALLENGE_TTL_MS

  datatype Challenge = Challenge(
    id: string, minerId: string, identityAddress: string, issuedAt: nat, seed: nat, minOps: real,
    measured: Option<real>)

  function ExpiresAt(c: Challenge): nat {
    c.issuedAt + CHALLENGE_TTL_MS
  }

  datatype Record = Record(level: int, goodStreak: int, badStreak: int, accepted: int, rejected: int)

  datatype ReplayKey = ReplayKey(minerId: string, challengeId: string, seed: nat, roundedOps: int)

  /** What a submission holds on to across the `await`. */
  datatype Suspended = Suspended(minerId: string, challenge: Challenge, ops: real, startedAt: nat)

  datatype Accept = Accept(minerId: string, challengeId: string, roundedOps: int, checkedAt: nat)

  datatype State = State(
    active: map<string, Challenge>,
    consumed: map<ReplayKey, nat>,
    miners: map<string, Record>,
    suspended: map<nat, Suspended>,
    issued: map<string, Challenge>,   // every challenge ever issued, as issued
    accepts: seq<Accept>)

  function Initial(): State {
    State(map[], map[], map[], map[], map[], [])
  }

  datatype Payload = Payload(minerId: string, challengeId: Option<string>, signatureOk: bool, proofSeed: nat)

  datatype Event =
    | Issue(now: nat, challenge: Challenge)
    | Measure(now: nat, address: string, ops: real)
    | Submit(now: nat, ticket: nat, payload: Payload)
    | Resume(now: nat, ticket: nat, identityOk: bool, jitterOk: bool)

  // ---- operations -------------------------------------------------------------------

  function CleanupReplayCache(s: State, now: nat): State {
    s.(consumed := map k | k in s.consumed && s.consumed[k] >= now - REPLAY_WINDOW_MS :: s.consumed[k])
  }

  function CleanupExpiredChallenges(s: State, now: nat): State {
    s.(active := map id | id in s.active && ExpiresAt(s.active[id]) >= now :: s.active[id])
  }

  function Cleanup(s: State, now: nat): State {
    CleanupExpiredChallenges(CleanupReplayCache(s, now), now)
  }

  function RecordOf(miners: map<string, Record>, minerId: string): Record {
    if minerId in miners then miners[minerId] else Record(0, 0, 0, 0, 0)
  }

  function Reject(s: State, minerId: string): State {
    var r := RecordOf(s.miners, minerId);
    s.(miners := s.miners[minerId := Record(
         ClampNat(r.level - 1), 0, if r.badStreak + 1 > 1 then r.badStreak + 1 else 1, r.accepted, r.rejected + 1)])
  }

  function Promote(s: State, minerId: string): State {
    var r := RecordOf(s.miners, minerId);
    s.(miners := s.miners[minerId := Record(
         if r.level + 1 < MAX_LEVEL then r.level + 1 else MAX_LEVEL, r.goodStreak + 1, 0, r.accepted + 1, r.rejected)])
  }

  function Drop(s: State, challengeId: string): State {
    s.(active := s.active - {challengeId})
  }

  function OnIssue(s: State, now: nat, c: Challenge): State {
    var t := Cleanup(s, now);
    t.(active := t.active[c.id := c], issued := t.issued[c.id := c],
       miners := t.miners[c.minerId := RecordOf(t.miners, c.minerId)])
  }

  predicate BelongsTo(c: Challenge, address: string) {
    address != "" && (c.minerId == address || c.identityAddress == address)
  }

  /** What a benchmark run of the local wallet leaves on a challenge. */
  function Measured(c: Challenge, address: string, ops: real): Challenge {
    if BelongsTo(c, address) then c.(measured := Some(ops)) else c
  }

  function OnMeasure(s: State, address: string, ops: real): State {
    s.(active := map id | id in s.active :: Measured(s.active[id], address, ops))
  }

  datatype Check = Unknown | Unfit(id: string) | Fit(challenge: Challenge, ops: real)

  /** The checks before the `await`. An unfit challenge is removed from the active ones. */
  function CheckPayload(active: map<string, Challenge>, now: nat, p: Payload): Check {
    if p.challengeId == None || p.challengeId.value !in active then Unknown
    else
      var c := active[p.challengeId.value];
      if c.minerId != p.minerId || ExpiresAt(c) < now || !p.signatureOk || p.proofSeed != c.seed || c.measured == None
      then Unfit(c.id)
      else Fit(c, c.measured.value)
  }

  function OnSubmit(s: State, now: nat, ticket: nat, p: Payload): State {
    var t := Cleanup(s, now);
    match CheckPayload(t.active, now, p)
    case Unknown => Reject(t, p.minerId)
    case Unfit(id) => Reject(Drop(t, id), p.minerId)
    case Fit(c, ops) => t.(suspended := t.suspended[ticket := Suspended(p.minerId, c, ops, now)])
  }

  function KeyOf(w: Suspended): ReplayKey {
    ReplayKey(w.minerId, w.challenge.id, w.challenge.seed, ToFixed(w.ops))
  }

  /** What is recorded after the `await`, before the verdict: the challenge is used up. */
  function Consume(s: State, ticket: nat, w: Suspended): State {
    Drop(s, w.challenge.id).(consumed := s.consumed[KeyOf(w) := w.startedAt], suspended := s.suspended - {ticket})
  }

  predicate Passes(s: State, w: Suspended, identityOk: bool, jitterOk: bool) {
    identityOk && jitterOk && w.ops >= w.challenge.minOps && KeyOf(w) !in s.consumed
  }

  function AcceptOf(w: Suspended): Accept {
    Accept(w.minerId, w.challenge.id, ToFixed(w.ops), w.startedAt)
  }

  function OnResume(s: State, ticket: nat, identityOk: bool, jitterOk: bool): State {
    if ticket !in s.suspended then s
    else
      var w := s.suspended[ticket];
      var t := Consume(s, ticket, w);
      if Passes(s, w, identityOk, jitterOk) then Promote(t, w.minerId).(accepts := s.accepts + [AcceptOf(w)])
      else Reject(t, w.minerId)
  }

  function Step(s: State, e: Event): State {
    match e
    case Issue(now, challenge) => OnIssue(s, now, challenge)
    case Measure(_, address, ops) => OnMeasure(s, address, ops)
    case Submit(now, ticket, payload) => OnSubmit(s, now, ticket, payload)
    case Resume(_, ticket, identityOk, jitterOk) => OnResume(s, ticket, identityOk, jitterOk)
  }

  function Run(events: seq<Event>): State {
    if events == [] then Initial() else Step(Run(events[..|events| - 1]), events[|events| - 1])
  }

  /** The clock does not run back, and challenge ids are drawn fresh and carry the time and no
      measurement yet. */
  ghost predicate Orderly(s: State, before: nat, e: Event) {
    && before <= e.now
    && (e.Issue? ==> e.challenge.id !in s.issued && e.challenge.issuedAt == e.now && e.challenge.measured == None)
    && (e.Submit? ==> e.ticket !in s.suspended)
  }

  /** And no submission is kept waiting beyond the limit. */
  ghost predicate Possible(s: State, before: nat, e: Event) {
    Orderly(s, before, e) && forall t :: t in s.suspended ==> e.now <= s.suspended[t].startedAt + MAX_WAIT_MS
  }

  function LastNow(events: seq<Event>): nat {
    if events == [] then 0 else events[|events| - 1].now
  }

  ghost predicate PossibleRun(events: seq<Event>) {
    events == [] ||
    var front := events[..|events| - 1];
    PossibleRun(front) && Possible(Run(front), LastNow(front), events[|events| - 1])
  }

  ghost predicate OrderlyRun(events: seq<Event>) {
    events == [] ||
    var front := events[..|events| - 1];
    OrderlyRun(front) && Orderly(Run(front), LastNow(front), events[|events| - 1])
  }

  lemma RunNext(events: seq<Event>, e: Event)
    ensures Run(events + [e]) == Step(Run(events), e) && LastNow(events + [e]) == e.now
    ensures PossibleRun(events + [e]) <==> PossibleRun(events) && Possible(Run(events), LastNow(events), e)
    ensures OrderlyRun(events + [e]) <==> OrderlyRun(events) && Orderly(Run(events), LastNow(events), e)
  {
    assert (events + [e])[..|events|] == events;
  }

  // ---- invariants -------------------------------------------------------------------

  /** A challenge in use is one that was issued, but for its measurement. */
  predicate AsIssued(issued: map<string, Challenge>, c: Challenge) {
    c.id in issued && c == issued[c.id].(measured := c.measured)
  }

  ghost predicate ActiveKept(s: State) {
    forall id :: id in s.active ==> s.active[id].id == id && AsIssued(s.issued, s.active[id])
  }

  /** A suspended submission passed the checks: its challenge was issued to that miner and had not
      run out. */
  ghost predicate SuspendedKept(s: State, now: nat) {
    forall t :: t in s.suspended ==>
                  var w := s.suspended[t];
                  && AsIssued(s.issued, w.challenge) && w.minerId == w.challenge.minerId
                  && w.challenge.issuedAt <= w.startedAt <= ExpiresAt(w.challenge) && w.startedAt <= now
  }

  ghost predicate AcceptsKept(s: State) {
    forall i :: 0 <= i < |s.accepts| ==>
                  var a := s.accepts[i];
                  && a.challengeId in s.issued && a.challengeId !in s.active
                  && a.minerId == s.issued[a.challengeId].minerId
                  && s.issued[a.challengeId].issuedAt <= a.checkedAt <= ExpiresAt(s.issued[a.challengeId])
  }

  ghost predicate IssuedKept(s: State, now: nat) {
    && (forall id :: id in s.issued ==> s.issued[id].id == id && s.issued[id].issuedAt <= now)
    && (forall k :: k in s.consumed && k.challengeId in s.issued ==>
          s.consumed[k] >= s.issued[k.challengeId].issuedAt)
    && (forall k :: k in s.consumed ==> k.challengeId in s.issued)
  }

  /** While a submission waits, the key of an accept it would repeat is still in the replay cache. */
  ghost predicate ReplayGuarded(s: State) {
    forall i, t :: 0 <= i < |s.accepts| && t in s.suspended && Repeats(s.accepts[i], s.suspended[t]) ==>
                     KeyOf(s.suspended[t]) in s.consumed
  }

  predicate Repeats(a: Accept, w: Suspended) {
    a.challengeId == w.challenge.id && a.roundedOps == ToFixed(w.ops)
  }

  /** No challenge is accepted twice with the same measured operations. */
  ghost predicate NoRepeats(s: State) {
    forall i, j :: 0 <= i < j < |s.accepts| && s.accepts[i].challengeId == s.accepts[j].challengeId ==>
                     s.accepts[i].roundedOps != s.accepts[j].roundedOps
  }

  ghost predicate LevelsKept(s: State) {
    forall m :: m in s.miners ==> 0 <= s.miners[m].level <= MAX_LEVEL
  }

  ghost predicate Kept(s: State, now: nat) {
    ActiveKept(s) && SuspendedKept(s, now) && AcceptsKept(s) && IssuedKept(s, now) && ReplayGuarded(s) && NoRepeats(s)
    && LevelsKept(s)
  }

  lemma CleanupKeeps(s: State, before: nat, now: nat)
    requires Kept(s, before) && before <= now
    requires forall t :: t in s.suspended ==> now <= s.suspended[t].startedAt + MAX_WAIT_MS
    ensures Kept(Cleanup(s, now), now)
  {
    var c := Cleanup(s, now);
    forall i, t | 0 <= i < |c.accepts| && t in c.suspended && Repeats(c.accepts[i], c.suspended[t])
      ensures KeyOf(c.suspended[t]) in c.consumed
    {
      var w := s.suspended[t];
      assert KeyOf(w) in s.consumed;
      assert s.consumed[KeyOf(w)] >= w.challenge.issuedAt;
      assert now <= w.startedAt + MAX_WAIT_MS <= w.challenge.issuedAt + REPLAY_WINDOW_MS;
    }
  }

  /** The records matter to nothing but their own levels. */
  lemma MinersKeep(s: State, now: nat, miners: map<string, Record>)
    requires Kept(s, now) && LevelsKept(s.(miners := miners))
    ensures Kept(s.(miners := miners), now)
  {
  }

  lemma RegisterKeeps(s: State, now: nat, c: Challenge)
    requires Kept(s, now) && c.id !in s.issued && c.issuedAt == now
    ensures Kept(s.(active := s.active[c.id := c], issued := s.issued[c.id := c]), now)
  {
  }

  lemma IssueKeeps(s: State, before: nat, now: nat, c: Challenge)
    requires Kept(s, before) && Possible(s, before, Issue(now, c))
    ensures Kept(OnIssue(s, now, c), now)
  {
    CleanupKeeps(s, before, now);
    var t := Cleanup(s, now);
    RegisterKeeps(t, now, c);
    MinersKeep(t.(active := t.active[c.id := c], issued := t.issued[c.id := c]), now, OnIssue(s, now, c).miners);
  }

  lemma MeasureKeeps(s: State, before: nat, now: nat, address: string, ops: real)
    requires Kept(s, before) && before <= now
    ensures Kept(OnMeasure(s, address, ops), now)
  {
  }

  lemma RejectKeeps(s: State, now: nat, minerId: string)
    requires Kept(s, now)
    ensures Kept(Reject(s, minerId), now)
  {
    MinersKeep(s, now, Reject(s, minerId).miners);
  }

  lemma DropKeeps(s: State, now: nat, id: string)
    requires Kept(s, now)
    ensures Kept(Drop(s, id), now)
  {
  }

  lemma SuspendKeeps(s: State, now: nat, ticket: nat, c: Challenge, ops: real)
    requires Kept(s, now) && c.id in s.active && s.active[c.id] == c && now <= ExpiresAt(c)
    ensures Kept(s.(suspended := s.suspended[ticket := Suspended(c.minerId, c, ops, now)]), now)
  {
  }

  lemma SubmitKeeps(s: State, before: nat, now: nat, ticket: nat, p: Payload)
    requires Kept(s, before) && Possible(s, before, Submit(now, ticket, p))
    ensures Kept(OnSubmit(s, now, ticket, p), now)
  {
    CleanupKeeps(s, before, now);
    var t := Cleanup(s, now);
    match CheckPayload(t.active, now, p)
    case Unknown => RejectKeeps(t, now, p.minerId);
    case Unfit(id) =>
      DropKeeps(t, now, id);
      RejectKeeps(Drop(t, id), now, p.minerId);
    case Fit(c, ops) => SuspendKeeps(t, now, ticket, c, ops);
  }

  lemma ConsumeKeeps(s: State, now: nat, ticket: nat)
    requires Kept(s, now) && ticket in s.suspended
    ensures Kept(Consume(s, ticket, s.suspended[ticket]), now)
  {
  }

  /** Recording an accept keeps the invariants if no waiting submission could still repeat it. */
  lemma RecordKeeps(s: State, now: nat, a: Accept)
    requires Kept(s, now) && a.challengeId in s.issued && a.challengeId !in s.active
    requires a.minerId == s.issued[a.challengeId].minerId
    requires s.issued[a.challengeId].issuedAt <= a.checkedAt <= ExpiresAt(s.issued[a.challengeId])
    requires forall i :: 0 <= i < |s.accepts| && s.accepts[i].challengeId == a.challengeId ==>
                           s.accepts[i].roundedOps != a.roundedOps
    requires forall t :: t in s.suspended && Repeats(a, s.suspended[t]) ==> KeyOf(s.suspended[t]) in s.consumed
    ensures Kept(s.(accepts := s.accepts + [a]), now)
  {
  }

  lemma AcceptKeeps(s: State, now: nat, ticket: nat)
    requires Kept(s, now) && ticket in s.suspended && KeyOf(s.suspended[ticket]) !in s.consumed
    ensures var w := s.suspended[ticket];
            Kept(Promote(Consume(s, ticket, w), w.minerId).(accepts := s.accepts + [AcceptOf(w)]), now)
  {
    var w := s.suspended[ticket];
    ConsumeKeeps(s, now, ticket);
    var c := Consume(s, ticket, w);
    forall t | t in c.suspended && Repeats(AcceptOf(w), c.suspended[t]) ensures KeyOf(c.suspended[t]) == KeyOf(w) {
      assert AsIssued(s.issued, w.challenge) && AsIssued(s.issued, s.suspended[t].challenge);
    }
    forall i | 0 <= i < |s.accepts| && s.accepts[i].challengeId == w.challenge.id
      ensures s.accepts[i].roundedOps != ToFixed(w.ops)
    {
      assert !Repeats(s.accepts[i], s.suspended[ticket]);
    }
    RecordKeeps(c, now, AcceptOf(w));
    MinersKeep(c.(accepts := s.accepts + [AcceptOf(w)]), now, Promote(c, w.minerId).miners);
  }

  lemma LaterKept(s: State, before: nat, now: nat)
    requires Kept(s, before) && before <= now
    ensures Kept(s, now)
  {
  }

  lemma StepKeeps(s: State, before: nat, e: Event)
    requires Kept(s, before) && Possible(s, before, e)
    ensures Kept(Step(s, e), e.now)
  {
    match e
    case Issue(now, challenge) => IssueKeeps(s, before, now, challenge);
    case Measure(now, address, ops) => MeasureKeeps(s, before, now, address, ops);
    case Submit(now, ticket, payload) => SubmitKeeps(s, before, now, ticket, payload);
    case Resume(now, ticket, identityOk, jitterOk) =>
      LaterKept(s, before, now);
      if ticket in s.suspended {
        var w := s.suspended[ticket];
        if Passes(s, w, identityOk, jitterOk) {
          AcceptKeeps(s, now, ticket);
        } else {
          ConsumeKeeps(s, now, ticket);
          RejectKeeps(Consume(s, ticket, w), now, w.minerId);
        }
      }
  }

  lemma {:induction false} AlwaysKept(events: seq<Event>)
    requires PossibleRun(events)
    ensures Kept(Run(events), LastNow(events))
  {
    if events != [] {
      var front := events[..|events| - 1];
      AlwaysKept(front);
      StepKeeps(Run(front), LastNow(front), events[|events| - 1]);
    }
  }

  // ---- main results -----------------------------------------------------------------

  /** Over every interleaving: each accept is for a challenge issued to that miner and checked before
      it ran out, two accepts of one challenge differ in the measured operations, and levels stay
      between 0 and the maximum. */
  lemma AcceptsSound(events: seq<Event>)
    requires PossibleRun(events)
    ensures var s := Run(events);
            && (forall i :: 0 <= i < |s.accepts| ==>
                  var a := s.accepts[i];
                  a.challengeId in s.issued && s.issued[a.challengeId].minerId == a.minerId
                  && s.issued[a.challengeId].issuedAt <= a.checkedAt <= ExpiresAt(s.issued[a.challengeId]))
            && NoRepeats(s) && LevelsKept(s)
  {
    AlwaysKept(events);
  }

  // ---- one submission at a time -----------------------------------------------------

  /** Challenge ids are drawn fresh, and each submission resumes before the next one starts. */
  ghost predicate OneAtATime(events: seq<Event>) {
    events == [] ||
    var front, e := events[..|events| - 1], events[|events| - 1];
    && OneAtATime(front) && (e.Issue? ==> e.challenge.id !in Run(front).issued)
    && (e.Submit? ==> Run(front).suspended == map[])
  }

  ghost predicate AcceptedOnce(s: State) {
    forall i, j :: 0 <= i < j < |s.accepts| ==> s.accepts[i].challengeId != s.accepts[j].challengeId
  }

  /** What is accepted is neither active nor waiting; at most one submission waits. */
  ghost predicate OnceKept(s: State) {
    && (forall id :: id in s.active ==> s.active[id].id == id && id in s.issued)
    && (forall t, u :: t in s.suspended && u in s.suspended ==> t == u)
    && (forall t :: t in s.suspended ==> s.suspended[t].challenge.id in s.issued)
    && (forall i :: 0 <= i < |s.accepts| ==>
          s.accepts[i].challengeId in s.issued && s.accepts[i].challengeId !in s.active)
    && (forall i, t :: 0 <= i < |s.accepts| && t in s.suspended ==>
          s.accepts[i].challengeId != s.suspended[t].challenge.id)
    && AcceptedOnce(s)
  }

  /** Dropping active challenges and waiting submissions, and measuring, keep this. */
  lemma FewerOnceKept(s: State, t: State)
    requires OnceKept(s) && t.accepts == s.accepts && t.issued == s.issued
    requires forall id :: id in t.active ==> id in s.active && t.active[id].id == s.active[id].id
    requires forall k :: k in t.suspended ==> k in s.suspended && t.suspended[k] == s.suspended[k]
    ensures OnceKept(t)
  {
  }

  lemma IssueOnceKept(s: State, c: Challenge)
    requires OnceKept(s) && c.id !in s.issued
    ensures OnceKept(s.(active := s.active[c.id := c], issued := s.issued[c.id := c]))
  {
  }

  lemma SuspendOnceKept(s: State, ticket: nat, w: Suspended)
    requires OnceKept(s) && s.suspended == map[] && w.challenge.id in s.active
    ensures OnceKept(s.(suspended := s.suspended[ticket := w]))
  {
  }

  lemma AcceptOnceKept(s: State, w: Suspended)
    requires OnceKept(s) && s.suspended == map[] && w.challenge.id in s.issued && w.challenge.id !in s.active
    requires forall i :: 0 <= i < |s.accepts| ==> s.accepts[i].challengeId != w.challenge.id
    ensures OnceKept(s.(accepts := s.accepts + [AcceptOf(w)]))
  {
  }

  lemma SubmitOnceKept(s: State, now: nat, ticket: nat, p: Payload)
    requires OnceKept(s) && s.suspended == map[]
    ensures OnceKept(OnSubmit(s, now, ticket, p))
  {
    var t := Cleanup(s, now);
    FewerOnceKept(s, t);
    match CheckPayload(t.active, now, p)
    case Unknown => FewerOnceKept(s, Reject(t, p.minerId));
    case Unfit(id) => FewerOnceKept(s, Reject(Drop(t, id), p.minerId));
    case Fit(c, ops) => SuspendOnceKept(t, ticket, Suspended(p.minerId, c, ops, now));
  }

  lemma ResumeOnceKept(s: State, ticket: nat, identityOk: bool, jitterOk: bool)
    requires OnceKept(s)
    ensures OnceKept(OnResume(s, ticket, identityOk, jitterOk))
  {
    if ticket in s.suspended {
      var w := s.suspended[ticket];
      var t := Consume(s, ticket, w);
      assert t.suspended == map[];
      if Passes(s, w, identityOk, jitterOk) {
        FewerOnceKept(s, Promote(t, w.minerId));
        AcceptOnceKept(Promote(t, w.minerId), w);
      } else {
        FewerOnceKept(s, Reject(t, w.minerId));
      }
    }
  }

  lemma StepOnceKept(s: State, e: Event)
    requires OnceKept(s) && (e.Issue? ==> e.challenge.id !in s.issued) && (e.Submit? ==> s.suspended == map[])
    ensures OnceKept(Step(s, e))
  {
    match e
    case Issue(now, c) =>
      FewerOnceKept(s, Cleanup(s, now));
      IssueOnceKept(Cleanup(s, now), c);
      var t := Cleanup(s, now);
      FewerOnceKept(t.(active := t.active[c.id := c], issued := t.issued[c.id := c]), OnIssue(s, now, c));
    case Measure(now, address, ops) => FewerOnceKept(s, OnMeasure(s, address, ops));
    case Submit(now, ticket, payload) => SubmitOnceKept(s, now, ticket, payload);
    case Resume(now, ticket, identityOk, jitterOk) => ResumeOnceKept(s, ticket, identityOk, jitterOk);
  }

  /** If each submission resumes before the next one starts, no challenge is accepted twice, whatever
      is measured, however long the submissions wait, and whatever the clock does. */
  lemma {:induction false} AcceptedOnceInTurn(events: seq<Event>)
    requires OneAtATime(events)
    ensures OnceKept(Run(events))
  {
    if events != [] {
      AcceptedOnceInTurn(events[..|events| - 1]);
      StepOnceKept(Run(events[..|events| - 1]), events[|events| - 1]);
    }
  }

  // ---- overlapping submissions ------------------------------------------------------

  lemma GoodResumeAccepts(s: State, ticket: nat, w: Suspended)
    requires ticket in s.suspended && s.suspended[ticket] == w && Passes(s, w, true, true)
    ensures var t := OnResume(s, ticket, true, true);
            && t.accepts == s.accepts + [AcceptOf(w)] && t.suspended == s.suspended - {ticket}
            && t.consumed == s.consumed[KeyOf(w) := w.startedAt] && t.issued == s.issued
  {
  }

  /** Of two waiting submissions of one challenge that each pass on their own, both are accepted if
      and only if their measurements differ once rounded. */
  lemma BothAcceptedIff(s: State, now: nat, t1: nat, t2: nat)
    requires Kept(s, now) && t1 in s.suspended && t2 in s.suspended && t1 != t2
    requires s.suspended[t1].challenge.id == s.suspended[t2].challenge.id
    requires Passes(s, s.suspended[t1], true, true) && Passes(s, s.suspended[t2], true, true)
    ensures var w1, w2 := s.suspended[t1], s.suspended[t2];
            OnResume(OnResume(s, t1, true, true), t2, true, true).accepts ==
              s.accepts + [AcceptOf(w1)] + [AcceptOf(w2)] <==>
              ToFixed(w1.ops) != ToFixed(w2.ops)
  {
    var w1, w2 := s.suspended[t1], s.suspended[t2];
    assert KeyOf(w1) == KeyOf(w2) <==> ToFixed(w1.ops) == ToFixed(w2.ops) by {
      assert AsIssued(s.issued, w1.challenge) && AsIssued(s.issued, w2.challenge);
    }
    GoodResumeAccepts(s, t1, w1);
    var r := OnResume(s, t1, true, true);
    if KeyOf(w1) != KeyOf(w2) {
      GoodResumeAccepts(r, t2, w2);
    } else {
      assert OnResume(r, t2, true, true).accepts == r.accepts;
    }
  }

  /** The payload that answers a challenge in full. */
  function GoodPayload(c: Challenge): Payload {
    Payload(c.minerId, Some(c.id), true, c.seed)
  }

  function Waiting(c: Challenge, ops: real): Suspended {
    Suspended(c.minerId, c.(measured := Some(ops)), ops, c.issuedAt)
  }

  /** A challenge is issued, and then measured and submitted twice, before either submission resumes. */
  function Overlap(c: Challenge, ops1: real, ops2: real): seq<Event> {
    [Issue(c.issuedAt, c)] + [Measure(c.issuedAt, c.minerId, ops1)] + [Submit(c.issuedAt, 1, GoodPayload(c))] +
    [Measure(c.issuedAt, c.minerId, ops2)] + [Submit(c.issuedAt, 2, GoodPayload(c))]
  }

  predicate FreshChallenge(c: Challenge) {
    c.minerId != "" && c.measured == None
  }

  /** What the only challenge there is becomes when it is measured, and when it is submitted. */
  lemma MeasureOnly(s: State, c: Challenge, before: Option<real>, ops: real)
    requires FreshChallenge(c) && s.active == map[c.id := c.(measured := before)]
    ensures OnMeasure(s, c.minerId, ops) == s.(active := map[c.id := c.(measured := Some(ops))])
  {
    assert OnMeasure(s, c.minerId, ops).active == map[c.id := c.(measured := Some(ops))];
  }

  lemma SubmitOnly(s: State, c: Challenge, ops: real, ticket: nat)
    requires s.active == map[c.id := c.(measured := Some(ops))] && s.consumed == map[]
    ensures OnSubmit(s, c.issuedAt, ticket, GoodPayload(c)) == s.(suspended := s.suspended[ticket := Waiting(c, ops)])
  {
    assert Cleanup(s, c.issuedAt).consumed == map[];
    assert Cleanup(s, c.issuedAt).active == s.active;
    assert Cleanup(s, c.issuedAt) == s;
  }

  /** The run so far happens at the time the challenge is issued. */
  ghost predicate AtIssue(events: seq<Event>, c: Challenge) {
    && PossibleRun(events) && OrderlyRun(events) && LastNow(events) == c.issuedAt
    && forall t :: t in Run(events).suspended ==> Run(events).suspended[t].startedAt == c.issuedAt
  }

  lemma MeasureAtIssue(events: seq<Event>, c: Challenge, before: Option<real>, ops: real)
    requires FreshChallenge(c) && AtIssue(events, c) && Run(events).active == map[c.id := c.(measured := before)]
    ensures var events' := events + [Measure(c.issuedAt, c.minerId, ops)];
            AtIssue(events', c) && Run(events') == Run(events).(active := map[c.id := c.(measured := Some(ops))])
  {
    RunNext(events, Measure(c.issuedAt, c.minerId, ops));
    MeasureOnly(Run(events), c, before, ops);
  }

  lemma SubmitAtIssue(events: seq<Event>, c: Challenge, ops: real, ticket: nat)
    requires AtIssue(events, c) && ticket !in Run(events).suspended
    requires Run(events).active == map[c.id := c.(measured := Some(ops))] && Run(events).consumed == map[]
    ensures var events' := events + [Submit(c.issuedAt, ticket, GoodPayload(c))];
            && AtIssue(events', c)
            && Run(events') == Run(events).(suspended := Run(events).suspended[ticket := Waiting(c, ops)])
  {
    RunNext(events, Submit(c.issuedAt, ticket, GoodPayload(c)));
    SubmitOnly(Run(events), c, ops, ticket);
  }

  lemma IssueFirst(c: Challenge)
    requires FreshChallenge(c)
    ensures var events, s := [Issue(c.issuedAt, c)], Run([Issue(c.issuedAt, c)]);
            && AtIssue(events, c) && s.active == map[c.id := c.(measured := None)] && s.consumed == map[]
            && s.suspended == map[] && s.accepts == [] && s.issued == map[c.id := c]
  {
    RunNext([], Issue(c.issuedAt, c));
    assert [] + [Issue(c.issuedAt, c)] == [Issue(c.issuedAt, c)];
    assert Cleanup(Initial(), c.issuedAt) == Initial();
  }

  ghost predicate BothWait(events: seq<Event>, c: Challenge, ops1: real, ops2: real) {
    && AtIssue(events, c) && Run(events).suspended == map[1 := Waiting(c, ops1), 2 := Waiting(c, ops2)]
    && Run(events).consumed == map[] && Run(events).accepts == [] && Run(events).issued == map[c.id := c]
  }

  lemma OverlapState(c: Challenge, ops1: real, ops2: real)
    requires FreshChallenge(c)
    ensures BothWait(Overlap(c, ops1, ops2), c, ops1, ops2)
  {
    IssueFirst(c);
    var issue := [Issue(c.issuedAt, c)];
    MeasureAtIssue(issue, c, None, ops1);
    var measure1 := issue + [Measure(c.issuedAt, c.minerId, ops1)];
    SubmitAtIssue(measure1, c, ops1, 1);
    var submit1 := measure1 + [Submit(c.issuedAt, 1, GoodPayload(c))];
    MeasureAtIssue(submit1, c, Some(ops1), ops2);
    SubmitAtIssue(submit1 + [Measure(c.issuedAt, c.minerId, ops2)], c, ops2, 2);
  }

  /** A waiting submission that passes resumes in time. */
  lemma ResumeNext(events: seq<Event>, now: nat, ticket: nat, w: Suspended)
    requires OrderlyRun(events) && LastNow(events) <= now
    requires ticket in Run(events).suspended && Run(events).suspended[ticket] == w && Passes(Run(events), w, true, true)
    ensures var events', s := events + [Resume(now, ticket, true, true)], Run(events);
            && OrderlyRun(events') && LastNow(events') == now
            && (PossibleRun(events) && Possible(s, LastNow(events), Resume(now, ticket, true, true)) ==>
                  PossibleRun(events'))
            && Run(events').accepts == s.accepts + [AcceptOf(w)] && Run(events').suspended == s.suspended - {ticket}
            && Run(events').consumed == s.consumed[KeyOf(w) := w.startedAt] && Run(events').issued == s.issued
  {
    RunNext(events, Resume(now, ticket, true, true));
    GoodResumeAccepts(Run(events), ticket, w);
  }

  lemma RoundedOps(c: Challenge, ops: nat)
    ensures KeyOf(Waiting(c, ops as real)).roundedOps == ops
    ensures AcceptOf(Waiting(c, ops as real)) == Accept(c.minerId, c.id, ops, c.issuedAt)
  {
    ToFixedWhole(ops);
  }

  /** Both waiting submissions resume, one after the other. */
  lemma BothResume(events: seq<Event>, c: Challenge, ops1: nat, ops2: nat)
    requires BothWait(events, c, ops1 as real, ops2 as real) && ops1 != ops2
    requires c.minOps <= ops1 as real && c.minOps <= ops2 as real
    ensures var events' := events + [Resume(c.issuedAt, 1, true, true)] + [Resume(c.issuedAt, 2, true, true)];
            && PossibleRun(events')
            && Run(events').accepts ==
                 [Accept(c.minerId, c.id, ops1, c.issuedAt)] + [Accept(c.minerId, c.id, ops2, c.issuedAt)]
  {
    RoundedOps(c, ops1);
    RoundedOps(c, ops2);
    ResumeNext(events, c.issuedAt, 1, Waiting(c, ops1 as real));
    assert [] + [AcceptOf(Waiting(c, ops1 as real))] == [Accept(c.minerId, c.id, ops1, c.issuedAt)];
    ResumeNext(events + [Resume(c.issuedAt, 1, true, true)], c.issuedAt, 2, Waiting(c, ops2 as real));
  }

  /** Overlapping, a challenge measured anew between two submissions is accepted twice. */
  lemma RemeasuredAcceptedTwice(c: Challenge)
    requires FreshChallenge(c) && c.minOps <= 100.0
    ensures var now := c.issuedAt;
            var events := Overlap(c, 100.0, 200.0) + [Resume(now, 1, true, true)] + [Resume(now, 2, true, true)];
            && PossibleRun(events)
            && Run(events).accepts == [Accept(c.minerId, c.id, 100, now)] + [Accept(c.minerId, c.id, 200, now)]
  {
    OverlapState(c, 100.0, 200.0);
    BothResume(Overlap(c, 100.0, 200.0), c, 100, 200);
  }

  /** Issuing a challenge forgets a replay key that is older than the replay window. */
  lemma IssueEvicts(events: seq<Event>, d: Challenge, w: Suspended)
    requires OrderlyRun(events) && Orderly(Run(events), LastNow(events), Issue(d.issuedAt, d))
    requires Run(events).consumed == map[KeyOf(w) := w.startedAt] && d.issuedAt > w.startedAt + REPLAY_WINDOW_MS
    ensures var events', s := events + [Issue(d.issuedAt, d)], Run(events);
            && OrderlyRun(events') && LastNow(events') == d.issuedAt && Run(events').consumed == map[]
            && Run(events').suspended == s.suspended && Run(events').accepts == s.accepts
  {
    RunNext(events, Issue(d.issuedAt, d));
  }

  /** One resumes, and a challenge issued much later evicts its replay key. */
  lemma ResumeAndEvict(events: seq<Event>, c: Challenge, d: Challenge, ops: nat)
    requires BothWait(events, c, ops as real, ops as real) && c.minOps <= ops as real
    requires d.measured == None && d.id != c.id && d.issuedAt > c.issuedAt + REPLAY_WINDOW_MS
    ensures var events' := events + [Resume(c.issuedAt, 1, true, true)] + [Issue(d.issuedAt, d)];
            var w := Waiting(c, ops as real);
            && OrderlyRun(events') && LastNow(events') == d.issuedAt && Run(events').consumed == map[]
            && 2 in Run(events').suspended && Run(events').suspended[2] == w && Run(events').accepts == [AcceptOf(w)]
  {
    var w := Waiting(c, ops as real);
    ResumeNext(events, c.issuedAt, 1, w);
    assert [] + [AcceptOf(w)] == [AcceptOf(w)];
    IssueEvicts(events + [Resume(c.issuedAt, 1, true, true)], d, w);
  }

  /** Then the other resumes. */
  lemma ResumeAfterEviction(events: seq<Event>, c: Challenge, d: Challenge, ops: nat)
    requires BothWait(events, c, ops as real, ops as real) && c.minOps <= ops as real
    requires d.measured == None && d.id != c.id && d.issuedAt > c.issuedAt + REPLAY_WINDOW_MS
    ensures var events' := events + [Resume(c.issuedAt, 1, true, true)] + [Issue(d.issuedAt, d)] +
                           [Resume(d.issuedAt, 2, true, true)];
            var a := Accept(c.minerId, c.id, ops, c.issuedAt);
            OrderlyRun(events') && Run(events').accepts == [a] + [a]
  {
    ResumeAndEvict(events, c, d, ops);
    RoundedOps(c, ops);
    var evicted := events + [Resume(c.issuedAt, 1, true, true)] + [Issue(d.issuedAt, d)];
    ResumeNext(evicted, d.issuedAt, 2, Waiting(c, ops as real));
  }

  /** The limit on waiting matters: in a run that keeps to everything else, a submission that outlasts
      the replay window is accepted although the same measurement was accepted before. */
  lemma EvictedAcceptedTwice(c: Challenge, d: Challenge)
    requires FreshChallenge(c) && c.minOps <= 100.0 && d.measured == None && d.id != c.id
    requires d.issuedAt > c.issuedAt + REPLAY_WINDOW_MS
    ensures var events := Overlap(c, 100.0, 100.0) + [Resume(c.issuedAt, 1, true, true)] + [Issue(d.issuedAt, d)] +
                          [Resume(d.issuedAt, 2, true, true)];
            var a := Accept(c.minerId, c.id, 100, c.issuedAt);
            OrderlyRun(events) && Run(events).accepts == [a] + [a]
  {
    OverlapState(c, 100.0, 100.0);
    ResumeAfterEviction(Overlap(c, 100.0, 100.0), c, d, 100);
  }
}
