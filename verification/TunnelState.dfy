/** Coordinator side of reverse-tunnel.js: sessions, their index by peer identity, and forwarded
    requests. Sockets, HTTP objects and timers appear only through the events they cause. */
module TunnelState {
  import opened JsObject
  import opened Rounding

  /** `identity` is empty when the peer sent no valid one. Tunnel ids are never reused. */
  datatype Session = Session(tunnelId: string, identity: string)

  /** A response object, by number. */
  type Res = nat

  datatype Pending = Pending(tunnelId: string, res: Res)

  datatype Reply = TunnelUnavailable | TunnelBusy | NotFound | TimedOut | TunnelDown | Relayed(tunnelId: string)

  datatype State = State(
    sessions: map<string, Session>,
    byIdentity: map<string, Session>,
    pending: map<string, Pending>,
    timers: set<string>,            // requests whose timeout is armed
    reading: map<string, Pending>,  // requests whose body is being read
    answered: map<Res, Reply>,
    created: set<Session>,          // every session whose socket may still raise events
    requests: set<string>,          // every request id drawn
    responses: set<Res>)            // every response object handed in

  function Initial(): State {
    State(map[], map[], map[], {}, map[], map[], {}, {}, {})
  }

  datatype Event =
    | Connect(tunnelId: string, identity: string, localIdentity: string)
    | Gone(session: Session)                 // close or error, possibly late or repeated
    | StopAll
    | Arrive(requestId: string, tunnelId: string, res: Res, open: bool, apiPath: bool, maxPending: nat)
    | BodyRead(requestId: string)
    | Respond(session: Session, requestId: string, status: real, headersLegal: bool)
    | Expire(requestId: string)

  /** Ids are drawn fresh; only created sessions raise events; only armed timers fire. */
  ghost predicate Enabled(s: State, e: Event) {
    match e
    case Connect(tunnelId, identity, _) => forall c :: c in s.created ==> c.tunnelId != tunnelId
    case Gone(session) => session in s.created
    case StopAll => true
    case Arrive(requestId, _, res, _, _, _) => requestId !in s.requests && res !in s.responses
    case BodyRead(requestId) => requestId in s.reading
    case Respond(session, _, _, _) => session in s.created
    case Expire(requestId) => requestId in s.timers
  }

  // ---- operations -------------------------------------------------------------------

  function Cleanup(s: State, requestId: string): State {
    if requestId in s.pending then s.(pending := s.pending - {requestId}, timers := s.timers - {requestId}) else s
  }

  function Answer(s: State, res: Res, reply: Reply): State {
    s.(answered := s.answered[res := reply])
  }

  predicate WaitsOn(s: State, requestId: string, tunnels: set<string>) {
    requestId in s.pending && s.pending[requestId].tunnelId in tunnels
  }

  function WaitingOn(s: State, tunnels: set<string>): set<Res> {
    set q | q in s.pending && s.pending[q].tunnelId in tunnels :: s.pending[q].res
  }

  /** Requests waiting on these tunnels are dropped and answered, unless an answer was sent. */
  function FailPending(s: State, tunnels: set<string>): State {
    s.(pending := (map q | q in s.pending && s.pending[q].tunnelId !in tunnels :: s.pending[q]),
       timers := (set q | q in s.timers && !WaitsOn(s, q, tunnels)),
       answered := AnswerDown(s.answered, WaitingOn(s, tunnels)))
  }

  /** `TunnelDown` for these response objects, unless an answer was sent before. */
  function AnswerDown(answered: map<Res, Reply>, responses: set<Res>): map<Res, Reply> {
    (map r | r in responses :: TunnelDown) + answered
  }

  predicate IsMapped(byIdentity: map<string, Session>, session: Session) {
    session.identity != "" && session.identity in byIdentity && byIdentity[session.identity] == session
  }

  function Unmap(s: State, session: Session): State {
    s.(sessions := s.sessions - {session.tunnelId},
       byIdentity := if IsMapped(s.byIdentity, session) then s.byIdentity - {session.identity} else s.byIdentity)
  }

  function Destroy(s: State, session: Session): State {
    FailPending(Unmap(s, session), {session.tunnelId})
  }

  function OnConnect(s: State, tunnelId: string, identity: string, localIdentity: string): State {
    if identity != "" && identity == localIdentity then s
    else
      var cleared := if identity != "" && identity in s.byIdentity then Destroy(s, s.byIdentity[identity]) else s;
      AddSession(cleared, Session(tunnelId, identity))
  }

  function AddSession(s: State, session: Session): State {
    s.(sessions := s.sessions[session.tunnelId := session],
       byIdentity := if session.identity != "" then s.byIdentity[session.identity := session] else s.byIdentity,
       created := s.created + {session})
  }

  /** Stopping closes every session, answers what waits on one, and drops all other requests. */
  function OnStop(s: State): State {
    FailPending(s, s.sessions.Keys).(sessions := map[], byIdentity := map[], pending := map[], timers := {})
  }

  /** The checks made before the body is read. */
  function Refusal(s: State, tunnelId: string, open: bool, apiPath: bool, maxPending: nat): Option<Reply> {
    if tunnelId !in s.sessions || !open then Some(TunnelUnavailable)
    else if |s.pending| >= maxPending then Some(TunnelBusy)
    else if !apiPath then Some(NotFound)
    else None
  }

  function Draw(s: State, requestId: string, res: Res): State {
    s.(requests := s.requests + {requestId}, responses := s.responses + {res})
  }

  function StartReading(s: State, requestId: string, p: Pending): State {
    s.(reading := s.reading[requestId := p])
  }

  function OnArrive(s: State, requestId: string, tunnelId: string, res: Res,
                    open: bool, apiPath: bool, maxPending: nat): State {
    match Refusal(s, tunnelId, open, apiPath, maxPending)
    case Some(reply) => Answer(Draw(s, requestId, res), res, reply)
    case None => StartReading(Draw(s, requestId, res), requestId, Pending(tunnelId, res))
  }

  function OnBodyRead(s: State, requestId: string): State {
    if requestId in s.reading
    then s.(reading := s.reading - {requestId}, timers := s.timers + {requestId},
            pending := s.pending[requestId := s.reading[requestId]])
    else s
  }

  /** The status relayed for the one a tunnel gives, where zero stands for none. */
  function RelayedStatus(given: real): real {
    if given == 0.0 then 500.0 else if given > 100.0 then given else 100.0
  }

  /** Node's `writeHead` throws unless the status, cut to 32 bits, has three digits and the headers
      are legal. */
  predicate WriteHeadAccepts(status: real, headersLegal: bool) {
    headersLegal && 100 <= ToInt32(RelayedStatus(status).Floor) <= 999
  }

  /** The entry goes first. If `writeHead` then throws, nothing is sent. */
  function OnRespond(s: State, session: Session, requestId: string, status: real, headersLegal: bool): State {
    if requestId in s.pending && s.pending[requestId].tunnelId == session.tunnelId then
      if WriteHeadAccepts(status, headersLegal)
      then Answer(Cleanup(s, requestId), s.pending[requestId].res, Relayed(session.tunnelId))
      else Cleanup(s, requestId)
    else s
  }

  function OnExpire(s: State, requestId: string): State {
    if requestId in s.pending && s.pending[requestId].res !in s.answered
    then Answer(Cleanup(s, requestId), s.pending[requestId].res, TimedOut)
    else Cleanup(s, requestId)
  }

  function Step(s: State, e: Event): State {
    match e
    case Connect(tunnelId, identity, localIdentity) => OnConnect(s, tunnelId, identity, localIdentity)
    case Gone(session) => Destroy(s, session)
    case StopAll => OnStop(s)
    case Arrive(requestId, tunnelId, res, open, apiPath, maxPending) =>
      OnArrive(s, requestId, tunnelId, res, open, apiPath, maxPending)
    case BodyRead(requestId) => OnBodyRead(s, requestId)
    case Respond(session, requestId, status, headersLegal) => OnRespond(s, session, requestId, status, headersLegal)
    case Expire(requestId) => OnExpire(s, requestId)
  }

  function Run(events: seq<Event>): State {
    if events == [] then Initial() else Step(Run(events[..|events| - 1]), events[|events| - 1])
  }

  /** Each event is one that can happen in the state it meets. */
  ghost predicate Possible(events: seq<Event>) {
    events == [] || (Possible(events[..|events| - 1]) && Enabled(Run(events[..|events| - 1]), events[|events| - 1]))
  }

  // ---- invariants -------------------------------------------------------------------

  ghost predicate ByTunnel(sessions: map<string, Session>) {
    forall t :: t in sessions ==> sessions[t].tunnelId == t
  }

  ghost predicate SessionsKept(s: State) {
    && ByTunnel(s.sessions) && s.sessions.Values <= s.created
    && (forall c, d :: c in s.created && d in s.created && c.tunnelId == d.tunnelId ==> c == d)
  }

  /** The identity map is an exact index of the live sessions that have an identity: each entry is
      live, none is missing, and there is one session per identity. */
  ghost predicate Indexes(byIdentity: map<string, Session>, sessions: map<string, Session>) {
    && (forall id :: id in byIdentity ==>
          var c := byIdentity[id];
          id != "" && c.identity == id && c.tunnelId in sessions && sessions[c.tunnelId] == c)
    && (forall t :: t in sessions && sessions[t].identity != "" ==> IsMapped(byIdentity, sessions[t]))
  }

  ghost predicate IndexExact(s: State) {
    Indexes(s.byIdentity, s.sessions)
  }

  /** The response objects of these requests were handed in and have no answer yet. */
  ghost predicate Unanswered(m: map<string, Pending>, responses: set<Res>, answered: map<Res, Reply>) {
    forall q :: q in m ==> m[q].res in responses && m[q].res !in answered
  }

  ghost predicate OneEach(m: map<string, Pending>) {
    forall p, q :: p in m && q in m && m[p].res == m[q].res ==> p == q
  }

  ghost predicate Apart(a: map<string, Pending>, b: map<string, Pending>) {
    forall p, q :: p in a && q in b ==> a[p].res != b[q].res
  }

  /** An open request has its timer, an unanswered response object of its own, and one place. */
  ghost predicate RequestsKept(s: State) {
    && s.timers == s.pending.Keys
    && s.pending.Keys <= s.requests && s.reading.Keys <= s.requests && s.pending.Keys !! s.reading.Keys
    && s.answered.Keys <= s.responses
    && Unanswered(s.pending, s.responses, s.answered) && Unanswered(s.reading, s.responses, s.answered)
    && OneEach(s.pending) && OneEach(s.reading) && Apart(s.pending, s.reading)
  }

  ghost predicate Kept(s: State) {
    SessionsKept(s) && IndexExact(s) && RequestsKept(s)
  }

  lemma FailPendingKeeps(s: State, tunnels: set<string>)
    requires RequestsKept(s)
    ensures RequestsKept(FailPending(s, tunnels))
  {
    var f := FailPending(s, tunnels);
    assert forall q :: q in f.pending ==> q in s.pending && f.pending[q] == s.pending[q];
    forall q | q in f.pending ensures f.pending[q].res !in f.answered {}
  }

  lemma DestroyKeeps(s: State, session: Session)
    requires Kept(s) && session in s.created
    ensures Kept(Destroy(s, session))
    ensures session.identity in Destroy(s, session).byIdentity ==> s.byIdentity[session.identity] != session
    ensures Destroy(s, session).created == s.created
  {
    UnmapKeeps(s, session);
    var u := Unmap(s, session);
    SameRequests(s, u);
    FailPendingKeeps(u, {session.tunnelId});
    SameSessions(u, FailPending(u, {session.tunnelId}));
  }

  /** Taking a session from both maps keeps the index exact. */
  lemma UnmapKeeps(s: State, session: Session)
    requires SessionsKept(s) && IndexExact(s) && session in s.created
    ensures SessionsKept(Unmap(s, session)) && IndexExact(Unmap(s, session))
    ensures session.identity in Unmap(s, session).byIdentity ==> s.byIdentity[session.identity] != session
  {
    assert session.tunnelId in s.sessions ==> s.sessions[session.tunnelId] == session;
    IndexWithout(s.byIdentity, s.sessions, session);
    ValuesWithout(s.sessions, session.tunnelId);
  }

  lemma IndexWithout(byIdentity: map<string, Session>, sessions: map<string, Session>, c: Session)
    requires ByTunnel(sessions) && Indexes(byIdentity, sessions)
    requires c.tunnelId in sessions ==> sessions[c.tunnelId] == c
    ensures Indexes(if IsMapped(byIdentity, c) then byIdentity - {c.identity} else byIdentity, sessions - {c.tunnelId})
  {
  }

  lemma ValuesWithout(sessions: map<string, Session>, t: string)
    ensures (sessions - {t}).Values <= sessions.Values
    ensures ByTunnel(sessions) ==> ByTunnel(sessions - {t})
  {
  }

  lemma AddSessionKeeps(s: State, session: Session)
    requires Kept(s) && session.identity !in s.byIdentity
    requires forall c :: c in s.created ==> c.tunnelId != session.tunnelId
    ensures Kept(AddSession(s, session))
  {
    AddSessionIndex(s, session);
    SameRequests(s, AddSession(s, session));
  }

  lemma AddSessionIndex(s: State, session: Session)
    requires SessionsKept(s) && IndexExact(s) && session.identity !in s.byIdentity
    requires forall c :: c in s.created ==> c.tunnelId != session.tunnelId
    ensures SessionsKept(AddSession(s, session)) && IndexExact(AddSession(s, session))
  {
    forall t | t in s.sessions ensures t != session.tunnelId {
      assert s.sessions[t] in s.created;
    }
    IndexWith(s.byIdentity, s.sessions, session);
    assert s.sessions[session.tunnelId := session].Values <= s.sessions.Values + {session};
  }

  lemma IndexWith(byIdentity: map<string, Session>, sessions: map<string, Session>, c: Session)
    requires ByTunnel(sessions) && Indexes(byIdentity, sessions) && c.tunnelId !in sessions && c.identity !in byIdentity
    ensures Indexes(if c.identity != "" then byIdentity[c.identity := c] else byIdentity, sessions[c.tunnelId := c])
  {
  }

  /** Each half of the invariant looks at its own fields. */
  lemma SameRequests(s: State, t: State)
    requires RequestsKept(s) && t.(sessions := s.sessions, byIdentity := s.byIdentity, created := s.created) == s
    ensures RequestsKept(t)
  {
  }

  lemma SameSessions(s: State, t: State)
    requires SessionsKept(s) && IndexExact(s)
    requires t.sessions == s.sessions && t.byIdentity == s.byIdentity && t.created == s.created
    ensures SessionsKept(t) && IndexExact(t)
  {
  }

  lemma ConnectKeeps(s: State, tunnelId: string, identity: string, localIdentity: string)
    requires Kept(s) && Enabled(s, Connect(tunnelId, identity, localIdentity))
    ensures Kept(OnConnect(s, tunnelId, identity, localIdentity))
  {
    if identity == "" {
      AddSessionKeeps(s, Session(tunnelId, identity));
    } else if identity != localIdentity {
      if identity in s.byIdentity {
        var previous := s.byIdentity[identity];
        DestroyKeeps(s, previous);
        AddSessionKeeps(Destroy(s, previous), Session(tunnelId, identity));
      } else {
        AddSessionKeeps(s, Session(tunnelId, identity));
      }
    }
  }

  lemma AnswerFreshKeeps(s: State, requestId: string, res: Res, reply: Reply)
    requires Kept(s) && res !in s.responses
    ensures Kept(Answer(Draw(s, requestId, res), res, reply))
  {
    SameSessions(s, Answer(Draw(s, requestId, res), res, reply));
  }

  lemma ReadingFreshKeeps(s: State, requestId: string, p: Pending)
    requires Kept(s) && requestId !in s.requests && p.res !in s.responses
    ensures Kept(StartReading(Draw(s, requestId, p.res), requestId, p))
  {
    SameSessions(s, StartReading(Draw(s, requestId, p.res), requestId, p));
  }

  lemma ArriveKeeps(s: State, requestId: string, tunnelId: string, res: Res, open: bool, apiPath: bool, maxPending: nat)
    requires Kept(s) && requestId !in s.requests && res !in s.responses
    ensures Kept(OnArrive(s, requestId, tunnelId, res, open, apiPath, maxPending))
  {
    match Refusal(s, tunnelId, open, apiPath, maxPending)
    case Some(reply) => AnswerFreshKeeps(s, requestId, res, reply);
    case None => ReadingFreshKeeps(s, requestId, Pending(tunnelId, res));
  }

  lemma BodyReadKeeps(s: State, requestId: string)
    requires Kept(s)
    ensures Kept(OnBodyRead(s, requestId))
  {
    SameSessions(s, OnBodyRead(s, requestId));
    BodyReadRequests(s, requestId);
  }

  lemma BodyReadRequests(s: State, requestId: string)
    requires RequestsKept(s)
    ensures RequestsKept(OnBodyRead(s, requestId))
  {
    if requestId in s.reading {
      Moved(s.pending, s.reading, requestId);
      StillUnanswered(s.pending, s.reading, requestId, s.responses, s.answered);
    }
  }

  lemma StillUnanswered(pending: map<string, Pending>, reading: map<string, Pending>, q: string,
                        responses: set<Res>, answered: map<Res, Reply>)
    requires Unanswered(pending, responses, answered) && Unanswered(reading, responses, answered) && q in reading
    ensures Unanswered(pending[q := reading[q]], responses, answered) && Unanswered(reading - {q}, responses, answered)
  {
  }

  lemma Moved(pending: map<string, Pending>, reading: map<string, Pending>, q: string)
    requires OneEach(pending) && OneEach(reading) && Apart(pending, reading) && q in reading
    ensures OneEach(pending[q := reading[q]]) && OneEach(reading - {q})
    ensures Apart(pending[q := reading[q]], reading - {q})
  {
  }

  lemma RespondKeeps(s: State, session: Session, requestId: string, status: real, headersLegal: bool)
    requires Kept(s)
    ensures Kept(OnRespond(s, session, requestId, status, headersLegal))
  {
    SameSessions(s, OnRespond(s, session, requestId, status, headersLegal));
    CleanupKeeps(s, requestId);
    if requestId in s.pending {
      AnswerOpenKeeps(s, requestId, Relayed(session.tunnelId));
    }
  }

  /** Answering a pending request as its entry goes. */
  lemma AnswerOpenKeeps(s: State, requestId: string, reply: Reply)
    requires RequestsKept(s) && requestId in s.pending
    ensures RequestsKept(Answer(Cleanup(s, requestId), s.pending[requestId].res, reply))
  {
    assert forall q :: q in Cleanup(s, requestId).pending ==> s.pending[q].res != s.pending[requestId].res;
  }

  lemma ExpireKeeps(s: State, requestId: string)
    requires Kept(s)
    ensures Kept(OnExpire(s, requestId))
  {
    SameSessions(s, OnExpire(s, requestId));
    CleanupKeeps(s, requestId);
    if requestId in s.pending {
      AnswerOpenKeeps(s, requestId, TimedOut);
    }
  }

  lemma CleanupKeeps(s: State, requestId: string)
    requires RequestsKept(s)
    ensures RequestsKept(Cleanup(s, requestId))
  {
  }

  lemma StopKeeps(s: State)
    requires Kept(s)
    ensures Kept(OnStop(s))
  {
    FailPendingKeeps(s, s.sessions.Keys);
  }

  lemma StepKeeps(s: State, e: Event)
    requires Kept(s) && Enabled(s, e)
    ensures Kept(Step(s, e))
  {
    match e
    case Connect(tunnelId, identity, localIdentity) => ConnectKeeps(s, tunnelId, identity, localIdentity);
    case Gone(session) => DestroyKeeps(s, session);
    case StopAll => StopKeeps(s);
    case Arrive(requestId, tunnelId, res, open, apiPath, maxPending) =>
      ArriveKeeps(s, requestId, tunnelId, res, open, apiPath, maxPending);
    case BodyRead(requestId) =>
      BodyReadKeeps(s, requestId);
    case Respond(session, requestId, status, headersLegal) =>
      RespondKeeps(s, session, requestId, status, headersLegal);
    case Expire(requestId) =>
      ExpireKeeps(s, requestId);
  }

  /** After any possible sequence of connects, replacements, closes, errors and stops, however late
      or repeated, the index is exact and requests, timers and responses match up. */
  lemma {:induction false} AlwaysKept(events: seq<Event>)
    requires Possible(events)
    ensures Kept(Run(events))
  {
    if events != [] {
      AlwaysKept(events[..|events| - 1]);
      StepKeeps(Run(events[..|events| - 1]), events[|events| - 1]);
    }
  }

  // ---- answers ----------------------------------------------------------------------

  /** Failing requests answers theirs, with one code, and no others. */
  lemma FailPendingAnswers(s: State, tunnels: set<string>, res: Res)
    ensures var f := FailPending(s, tunnels);
            && (res in s.answered ==> res in f.answered && f.answered[res] == s.answered[res])
            && (res in f.answered && res !in s.answered ==> f.answered[res] == TunnelDown)
  {
  }

  lemma StepAnswers(s: State, e: Event, res: Res)
    ensures e.Connect? || e.Gone? || e.StopAll? ==>
              (res in s.answered ==> res in Step(s, e).answered && Step(s, e).answered[res] == s.answered[res]) &&
              (res in Step(s, e).answered && res !in s.answered ==> Step(s, e).answered[res] == TunnelDown)
  {
    match e
    case Connect(tunnelId, identity, localIdentity) =>
      if identity != "" && identity in s.byIdentity {
        FailPendingAnswers(s, {s.byIdentity[identity].tunnelId}, res);
      }
    case Gone(session) => FailPendingAnswers(s, {session.tunnelId}, res);
    case StopAll => FailPendingAnswers(s, s.sessions.Keys, res);
    case Arrive(requestId, tunnelId, r, open, apiPath, maxPending) =>
    case BodyRead(requestId) =>
    case Respond(session, requestId, status, headersLegal) =>
    case Expire(requestId) =>
  }

  /** A response object that has its answer keeps it: nothing is ever sent on it again. */
  lemma AnswerIsFinal(s: State, e: Event, res: Res)
    requires RequestsKept(s) && Enabled(s, e) && res in s.answered
    ensures res in Step(s, e).answered && Step(s, e).answered[res] == s.answered[res]
  {
    if e.Connect? || e.Gone? || e.StopAll? {
      StepAnswers(s, e, res);
    } else if e.Arrive? {
      assert res != e.res;
    } else if e.requestId in s.pending {
      assert s.pending[e.requestId].res != res;
    }
  }

  lemma {:induction false} AnsweredOnce(events: seq<Event>, n: nat, res: Res)
    requires Possible(events) && n <= |events| && res in Run(events[..n]).answered
    ensures res in Run(events).answered && Run(events).answered[res] == Run(events[..n]).answered[res]
  {
    if n < |events| {
      var front := events[..|events| - 1];
      assert front[..n] == events[..n];
      AnsweredOnce(front, n, res);
      AlwaysKept(front);
      AnswerIsFinal(Run(front), events[|events| - 1], res);
    } else {
      assert events[..n] == events;
    }
  }

  lemma OnlyRespondRelays(s: State, e: Event, res: Res)
    requires res !in s.answered && res in Step(s, e).answered && Step(s, e).answered[res].Relayed?
    ensures e.Respond?
  {
    if e.Connect? || e.Gone? || e.StopAll? {
      StepAnswers(s, e, res);
    }
  }

  /** A tunnel's response reaches a response object only if that request was forwarded to the same
      tunnel, and it then leaves neither an entry nor a timer behind. */
  lemma RelayedFromOwnTunnel(s: State, e: Event, res: Res)
    requires res !in s.answered && res in Step(s, e).answered && Step(s, e).answered[res].Relayed?
    ensures e.Respond? && e.requestId in s.pending && s.pending[e.requestId].res == res
    ensures s.pending[e.requestId].tunnelId == e.session.tunnelId == Step(s, e).answered[res].tunnelId
    ensures e.requestId !in Step(s, e).pending && e.requestId !in Step(s, e).timers
  {
    OnlyRespondRelays(s, e, res);
  }

  /** A status is refused from 1000 on, as far as 32 bits reach. */
  lemma StatusRefusedIff(status: real)
    requires status < 2147483648.0
    ensures WriteHeadAccepts(status, true) <==> status < 1000.0
  {
  }

  /** A response of the request's own tunnel that `writeHead` does not take. */
  predicate Unsendable(e: Event, requestId: string, tunnelId: string) {
    && e.Respond? && e.requestId == requestId && e.session.tunnelId == tunnelId
    && !WriteHeadAccepts(e.status, e.headersLegal)
  }

  /** A request that stays pending stays as it is. */
  lemma StaysPending(s: State, e: Event, requestId: string)
    requires RequestsKept(s) && Enabled(s, e) && requestId in s.pending && requestId in Step(s, e).pending
    ensures Step(s, e).pending[requestId] == s.pending[requestId]
  {
  }

  lemma GoneByClosing(s: State, session: Session, requestId: string)
    requires requestId in s.pending && requestId !in Destroy(s, session).pending
    ensures s.pending[requestId].res in Destroy(s, session).answered
  {
    assert s.pending[requestId].res in WaitingOn(Unmap(s, session), {session.tunnelId});
  }

  lemma GoneByConnect(s: State, tunnelId: string, identity: string, localIdentity: string, requestId: string)
    requires requestId in s.pending && requestId !in OnConnect(s, tunnelId, identity, localIdentity).pending
    ensures s.pending[requestId].res in OnConnect(s, tunnelId, identity, localIdentity).answered
  {
    GoneByClosing(s, s.byIdentity[identity], requestId);
  }

  lemma GoneByRespond(s: State, e: Event, requestId: string)
    requires RequestsKept(s) && e.Respond? && requestId in s.pending && requestId !in Step(s, e).pending
    ensures s.pending[requestId].res in Step(s, e).answered || Unsendable(e, requestId, s.pending[requestId].tunnelId)
  {
  }

  lemma GoneByExpire(s: State, q: string, requestId: string)
    requires RequestsKept(s) && requestId in s.pending && requestId !in OnExpire(s, q).pending
    ensures s.pending[requestId].res in OnExpire(s, q).answered
  {
  }

  lemma GoneByNoneElse(s: State, e: Event, requestId: string)
    requires (e.Arrive? || e.BodyRead?) && requestId in s.pending
    ensures requestId in Step(s, e).pending
  {
  }

  /** Except by a stop, a request goes with an answer unless its own tunnel sends what cannot be relayed. */
  lemma GoesAnswered(s: State, e: Event, requestId: string)
    requires RequestsKept(s) && e != StopAll && requestId in s.pending && requestId !in Step(s, e).pending
    ensures s.pending[requestId].res in Step(s, e).answered || Unsendable(e, requestId, s.pending[requestId].tunnelId)
  {
    if e.Respond? {
      GoneByRespond(s, e, requestId);
    } else if e.Arrive? || e.BodyRead? {
      GoneByNoneElse(s, e, requestId);
    } else if e.Expire? {
      GoneByExpire(s, e.requestId, requestId);
    } else if e.Gone? {
      GoneByClosing(s, e.session, requestId);
    } else {
      GoneByConnect(s, e.tunnelId, e.identity, e.localIdentity, requestId);
    }
  }

  lemma UnsendableVanishes(s: State, e: Event, requestId: string)
    requires RequestsKept(s) && requestId in s.pending && Unsendable(e, requestId, s.pending[requestId].tunnelId)
    ensures requestId !in Step(s, e).pending && s.pending[requestId].res !in Step(s, e).answered
  {
  }

  /** A forwarded request stays open with its timer, or is answered, or vanishes unanswered; and it
      vanishes exactly by a stop while its tunnel is not live, or by a response of its own tunnel that
      cannot be sent. */
  lemma VanishesIff(s: State, e: Event, requestId: string)
    requires Kept(s) && Enabled(s, e) && requestId in s.pending
    ensures var t, p := Step(s, e), s.pending[requestId];
            && (requestId in t.pending ==> t.pending[requestId] == p && requestId in t.timers && p.res !in t.answered)
            && (requestId !in t.pending && p.res !in t.answered <==>
                (e.StopAll? && p.tunnelId !in s.sessions) || Unsendable(e, requestId, p.tunnelId))
  {
    StepKeeps(s, e);
    if requestId in Step(s, e).pending {
      StaysPending(s, e, requestId);
    } else if e.StopAll? {
      StopAnswersIff(s, requestId);
    } else {
      GoesAnswered(s, e, requestId);
    }
    if Unsendable(e, requestId, s.pending[requestId].tunnelId) {
      UnsendableVanishes(s, e, requestId);
    }
  }

  /** A stop answers exactly the requests whose tunnel is still live; the others are dropped mute. */
  lemma StopAnswersIff(s: State, requestId: string)
    requires Kept(s) && requestId in s.pending
    ensures s.pending[requestId].res in OnStop(s).answered <==> s.pending[requestId].tunnelId in s.sessions
  {
  }

  /** Which is what happens to a request whose tunnel goes while its body is being read. */
  lemma MuteRequest(s: State, c: Session, requestId: string)
    requires Kept(s) && c in s.created && requestId in s.reading && s.reading[requestId].tunnelId == c.tunnelId
    ensures var t := OnStop(OnBodyRead(Destroy(s, c), requestId));
            requestId !in t.reading && requestId !in t.pending && s.reading[requestId].res !in t.answered
  {
    DestroyKeeps(s, c);
    var d := Destroy(s, c);
    BodyReadKeeps(d, requestId);
    StopAnswersIff(OnBodyRead(d, requestId), requestId);
  }

  /** No entry is left that could lead to an answer on this response object. */
  ghost predicate Abandoned(s: State, res: Res) {
    && res in s.responses && res !in s.answered
    && (forall q :: q in s.pending ==> s.pending[q].res != res)
    && (forall q :: q in s.reading ==> s.reading[q].res != res)
  }

  lemma VanishedIsAbandoned(s: State, e: Event, requestId: string)
    requires Kept(s) && Enabled(s, e) && requestId in s.pending
    requires requestId !in Step(s, e).pending && s.pending[requestId].res !in Step(s, e).answered
    ensures Abandoned(Step(s, e), s.pending[requestId].res)
  {
    VanishesIff(s, e, requestId);
  }

  lemma FailPendingAbandoned(s: State, tunnels: set<string>, res: Res)
    requires Abandoned(s, res)
    ensures Abandoned(FailPending(s, tunnels), res)
  {
    assert res !in WaitingOn(s, tunnels);
  }

  lemma SameAbandoned(s: State, t: State, res: Res)
    requires Abandoned(s, res) && t.responses == s.responses && t.answered == s.answered
    requires t.pending == s.pending && t.reading == s.reading
    ensures Abandoned(t, res)
  {
  }

  lemma DestroyAbandoned(s: State, session: Session, res: Res)
    requires Abandoned(s, res)
    ensures Abandoned(Destroy(s, session), res)
  {
    SameAbandoned(s, Unmap(s, session), res);
    FailPendingAbandoned(Unmap(s, session), {session.tunnelId}, res);
  }

  lemma ConnectAbandoned(s: State, tunnelId: string, identity: string, localIdentity: string, res: Res)
    requires Abandoned(s, res)
    ensures Abandoned(OnConnect(s, tunnelId, identity, localIdentity), res)
  {
    var cleared := if identity != "" && identity in s.byIdentity then Destroy(s, s.byIdentity[identity]) else s;
    if identity != "" && identity in s.byIdentity {
      DestroyAbandoned(s, s.byIdentity[identity], res);
    }
    SameAbandoned(cleared, AddSession(cleared, Session(tunnelId, identity)), res);
  }

  lemma CleanupAbandoned(s: State, requestId: string, res: Res)
    requires Abandoned(s, res)
    ensures Abandoned(Cleanup(s, requestId), res)
  {
  }

  lemma AnswerAbandoned(s: State, r: Res, reply: Reply, res: Res)
    requires Abandoned(s, res) && r != res
    ensures Abandoned(Answer(s, r, reply), res)
  {
  }

  lemma ArriveAbandoned(s: State, requestId: string, r: Res, p: Pending, reply: Reply, res: Res)
    requires Abandoned(s, res) && r != res && p.res == r
    ensures Abandoned(Answer(Draw(s, requestId, r), r, reply), res)
    ensures Abandoned(StartReading(Draw(s, requestId, r), requestId, p), res)
  {
  }

  lemma BodyReadAbandoned(s: State, requestId: string, res: Res)
    requires Abandoned(s, res)
    ensures Abandoned(OnBodyRead(s, requestId), res)
  {
  }

  lemma StepAbandoned(s: State, e: Event, res: Res)
    requires Enabled(s, e) && Abandoned(s, res)
    ensures Abandoned(Step(s, e), res)
  {
    match e
    case Connect(tunnelId, identity, localIdentity) => ConnectAbandoned(s, tunnelId, identity, localIdentity, res);
    case Gone(session) => DestroyAbandoned(s, session, res);
    case StopAll => FailPendingAbandoned(s, s.sessions.Keys, res);
    case Arrive(requestId, tunnelId, r, open, apiPath, maxPending) =>
      var refusal := Refusal(s, tunnelId, open, apiPath, maxPending);
      ArriveAbandoned(s, requestId, r, Pending(tunnelId, r), if refusal.Some? then refusal.value else NotFound, res);
    case BodyRead(requestId) => BodyReadAbandoned(s, requestId, res);
    case Respond(session, requestId, _, _) =>
      CleanupAbandoned(s, requestId, res);
      if requestId in s.pending {
        AnswerAbandoned(Cleanup(s, requestId), s.pending[requestId].res, Relayed(session.tunnelId), res);
      }
    case Expire(requestId) =>
      CleanupAbandoned(s, requestId, res);
      if requestId in s.pending {
        AnswerAbandoned(Cleanup(s, requestId), s.pending[requestId].res, TimedOut, res);
      }
  }

  /** A request that vanished unanswered is never answered, whatever follows. */
  lemma {:induction false} VanishedForGood(events: seq<Event>, n: nat, res: Res)
    requires Possible(events) && n <= |events| && Abandoned(Run(events[..n]), res)
    ensures Abandoned(Run(events), res)
  {
    if n < |events| {
      var front := events[..|events| - 1];
      assert front[..n] == events[..n];
      VanishedForGood(front, n, res);
      StepAbandoned(Run(front), events[|events| - 1], res);
    } else {
      assert events[..n] == events;
    }
  }

  // ---- runs in which a request vanishes ---------------------------------------------

  lemma RunNext(events: seq<Event>, e: Event)
    ensures Run(events + [e]) == Step(Run(events), e)
    ensures Possible(events + [e]) <==> Possible(events) && Enabled(Run(events), e)
  {
    assert (events + [e])[..|events|] == events;
  }

  /** A tunnel without identity opens, and a request for it arrives. */
  function Arrival(c: Session, requestId: string, res: Res): seq<Event> {
    [Connect(c.tunnelId, c.identity, "")] + [Arrive(requestId, c.tunnelId, res, true, true, 1)]
  }

  lemma Arrived(c: Session, requestId: string, res: Res)
    requires c.identity == ""
    ensures Possible(Arrival(c, requestId, res))
    ensures Run(Arrival(c, requestId, res)) ==
            State(map[c.tunnelId := c], map[], map[], {}, map[requestId := Pending(c.tunnelId, res)], map[],
                  {c}, {requestId}, {res})
  {
    RunNext([], Connect(c.tunnelId, c.identity, ""));
    assert [] + [Connect(c.tunnelId, c.identity, "")] == [Connect(c.tunnelId, c.identity, "")];
    RunNext([Connect(c.tunnelId, c.identity, "")], Arrive(requestId, c.tunnelId, res, true, true, 1));
  }

  /** The tunnel answers the forwarded request with status 1000: the request is gone, its timer too,
      and it is never answered. */
  lemma UnsendableResponseRun(c: Session, requestId: string, res: Res)
    requires c.identity == ""
    ensures var events := Arrival(c, requestId, res) + [BodyRead(requestId)] + [Respond(c, requestId, 1000.0, true)];
            Possible(events) && Abandoned(Run(events), res) && requestId !in Run(events).timers
  {
    Arrived(c, requestId, res);
    RunNext(Arrival(c, requestId, res), BodyRead(requestId));
    var forwarded := Arrival(c, requestId, res) + [BodyRead(requestId)];
    assert Run(forwarded).pending == map[requestId := Pending(c.tunnelId, res)];
    StatusRefusedIff(1000.0);
    VanishesNext(forwarded, Respond(c, requestId, 1000.0, true), requestId);
  }

  /** The tunnel goes while the body of the request is being read; a stop then drops the request. */
  lemma MuteRequestRun(c: Session, requestId: string, res: Res)
    requires c.identity == ""
    ensures var events := Arrival(c, requestId, res) + [Gone(c)] + [BodyRead(requestId)] + [StopAll];
            Possible(events) && Abandoned(Run(events), res) && requestId !in Run(events).timers
  {
    Arrived(c, requestId, res);
    var arrived := Arrival(c, requestId, res);
    RunNext(arrived, Gone(c));
    GoneWhileReading(Run(arrived), c);
    RunNext(arrived + [Gone(c)], BodyRead(requestId));
    var forwarded := arrived + [Gone(c)] + [BodyRead(requestId)];
    assert Run(forwarded).pending[requestId] == Pending(c.tunnelId, res);
    VanishesNext(forwarded, StopAll, requestId);
  }

  lemma GoneWhileReading(s: State, c: Session)
    ensures var t := Destroy(s, c);
            t.sessions == s.sessions - {c.tunnelId} && t.reading == s.reading && t.created == s.created
  {
  }

  /** A run after which a pending request vanishes. */
  lemma VanishesNext(events: seq<Event>, e: Event, requestId: string)
    requires Possible(events) && Enabled(Run(events), e) && requestId in Run(events).pending
    requires var s := Run(events);
             (e.StopAll? && s.pending[requestId].tunnelId !in s.sessions) ||
             Unsendable(e, requestId, s.pending[requestId].tunnelId)
    ensures Possible(events + [e]) && Abandoned(Run(events + [e]), Run(events).pending[requestId].res)
    ensures requestId !in Run(events + [e]).timers
  {
    AlwaysKept(events);
    RunNext(events, e);
    AlwaysKept(events + [e]);
    VanishesIff(Run(events), e, requestId);
    VanishedIsAbandoned(Run(events), e, requestId);
  }

  // ---- steps of the loops -----------------------------------------------------------

  /** `FailPending` with the requests in `remaining` still to be looked at. */
  function FailPart(s: State, tunnel: string, remaining: set<string>): State {
    s.(pending := (map q | q in s.pending && (s.pending[q].tunnelId != tunnel || q in remaining) :: s.pending[q]),
       timers := (set q | q in s.timers && !(WaitsOn(s, q, {tunnel}) && q !in remaining)),
       answered := AnswerDown(s.answered, AnsweredPart(s, tunnel, remaining)))
  }

  function AnsweredPart(s: State, tunnel: string, remaining: set<string>): set<Res> {
    set q | q in s.pending && s.pending[q].tunnelId == tunnel && q !in remaining :: s.pending[q].res
  }

  lemma FailPartStarts(s: State, tunnel: string)
    ensures FailPart(s, tunnel, s.pending.Keys) == s
  {
    assert AnsweredPart(s, tunnel, s.pending.Keys) == {};
  }

  lemma FailPartEnds(s: State, tunnel: string)
    ensures FailPart(s, tunnel, {}) == FailPending(s, {tunnel})
  {
    assert AnsweredPart(s, tunnel, {}) == WaitingOn(s, {tunnel});
  }

  /** One request looked at: it either waits on the tunnel, and goes, or stays. */
  lemma FailPartNext(s: State, tunnel: string, remaining: set<string>, q: string)
    requires RequestsKept(s) && q in remaining && remaining <= s.pending.Keys
    ensures var part, next := FailPart(s, tunnel, remaining), FailPart(s, tunnel, remaining - {q});
            && q in part.pending && part.pending[q] == s.pending[q]
            && s.pending[q].res !in part.answered
            && next == if s.pending[q].tunnelId == tunnel
                       then Answer(Cleanup(part, q), s.pending[q].res, TunnelDown) else part
  {
    FailPartEntries(s, tunnel, remaining, q);
    FailPartAnswers(s, tunnel, remaining, q);
  }

  lemma FailPartEntries(s: State, tunnel: string, remaining: set<string>, q: string)
    requires s.timers == s.pending.Keys && q in remaining && remaining <= s.pending.Keys
    ensures var part, next := FailPart(s, tunnel, remaining), FailPart(s, tunnel, remaining - {q});
            && next.pending == (if s.pending[q].tunnelId == tunnel then part.pending - {q} else part.pending)
            && next.timers == if s.pending[q].tunnelId == tunnel then part.timers - {q} else part.timers
  {
  }

  lemma FailPartAnswers(s: State, tunnel: string, remaining: set<string>, q: string)
    requires RequestsKept(s) && q in remaining && remaining <= s.pending.Keys
    ensures s.pending[q].res !in AnsweredPart(s, tunnel, remaining)
    ensures FailPart(s, tunnel, remaining - {q}).answered ==
            if s.pending[q].tunnelId == tunnel
            then FailPart(s, tunnel, remaining).answered[s.pending[q].res := TunnelDown]
            else FailPart(s, tunnel, remaining).answered
  {
    var done, hit, res := AnsweredPart(s, tunnel, remaining), s.pending[q].tunnelId == tunnel, s.pending[q].res;
    assert AnsweredPart(s, tunnel, remaining - {q}) == if hit then done + {res} else done;
    AnswerDownOne(s.answered, done, res);
  }

  lemma AnswerDownOne(answered: map<Res, Reply>, a: set<Res>, r: Res)
    requires r !in answered
    ensures AnswerDown(answered, a + {r}) == AnswerDown(answered, a)[r := TunnelDown]
  {
  }

  lemma AnswerDownMore(answered: map<Res, Reply>, a: set<Res>, b: set<Res>)
    ensures AnswerDown(AnswerDown(answered, a), b) == AnswerDown(answered, a + b)
  {
  }

  /** The part of a map of sessions that lies in these tunnels. */
  function Within(m: map<string, Session>, tunnels: set<string>): map<string, Session> {
    map k | k in m && m[k].tunnelId in tunnels :: m[k]
  }

  /** A stop with the sessions in `remaining` still to be closed. */
  function StopPart(s: State, remaining: set<string>): State {
    FailPending(s, s.sessions.Keys - remaining).(
      sessions := Within(s.sessions, remaining), byIdentity := Within(s.byIdentity, remaining))
  }

  lemma StopPartStarts(s: State)
    requires SessionsKept(s) && IndexExact(s)
    ensures StopPart(s, s.sessions.Keys) == s
  {
    assert WaitingOn(s, s.sessions.Keys - s.sessions.Keys) == {};
  }

  lemma FailTwice(s: State, a: set<string>, b: set<string>)
    requires RequestsKept(s)
    ensures FailPending(FailPending(s, a), b) == FailPending(s, a + b)
  {
    WaitingTwice(s, a, b);
    AnswerDownMore(s.answered, WaitingOn(s, a), WaitingOn(FailPending(s, a), b));
    FailTwiceEntries(s, a, b);
  }

  lemma FailTwiceEntries(s: State, a: set<string>, b: set<string>)
    requires s.timers == s.pending.Keys
    ensures FailPending(FailPending(s, a), b).pending == FailPending(s, a + b).pending
    ensures FailPending(FailPending(s, a), b).timers == FailPending(s, a + b).timers
  {
  }

  lemma WaitingTwice(s: State, a: set<string>, b: set<string>)
    ensures WaitingOn(s, a + b) == WaitingOn(s, a) + WaitingOn(FailPending(s, a), b)
  {
    var f := FailPending(s, a);
    forall r | r in WaitingOn(s, a + b) ensures r in WaitingOn(s, a) + WaitingOn(f, b) {
      var q :| q in s.pending && s.pending[q].tunnelId in a + b && s.pending[q].res == r;
      assert s.pending[q].tunnelId !in a ==> q in f.pending;
    }
    forall r | r in WaitingOn(f, b) ensures r in WaitingOn(s, a + b) {
      var q :| q in f.pending && f.pending[q].tunnelId in b && f.pending[q].res == r;
      assert q in s.pending && s.pending[q] == f.pending[q];
    }
  }

  lemma StopPartNext(s: State, remaining: set<string>, t: string)
    requires Kept(s) && t in remaining && remaining <= s.sessions.Keys
    ensures t in StopPart(s, remaining).sessions && StopPart(s, remaining).sessions[t] == s.sessions[t]
    ensures RequestsKept(StopPart(s, remaining))
    ensures StopPart(s, remaining - {t}) == Destroy(StopPart(s, remaining), s.sessions[t])
  {
    var failed, more := s.sessions.Keys - remaining, s.sessions.Keys - (remaining - {t});
    var next := StopPart(s, remaining - {t});
    assert more == failed + {t};
    FailTwice(s, failed, {t});
    StopPartKept(s, remaining);
    WithoutSession(s, remaining, t);
    WithoutIdentity(s, remaining, t);
    FailPendingFrame(FailPending(s, failed), next.sessions, next.byIdentity, {t});
  }

  lemma StopPartKept(s: State, remaining: set<string>)
    requires RequestsKept(s)
    ensures RequestsKept(StopPart(s, remaining))
  {
    FailPendingKeeps(s, s.sessions.Keys - remaining);
    SameRequests(FailPending(s, s.sessions.Keys - remaining), StopPart(s, remaining));
  }

  /** Closing a session takes it from both maps. */
  lemma WithoutSession(s: State, remaining: set<string>, t: string)
    requires SessionsKept(s) && t in remaining && t in s.sessions
    ensures Within(s.sessions, remaining - {t}) == Within(s.sessions, remaining) - {t}
    ensures s.sessions[t].tunnelId == t && t in Within(s.sessions, remaining)
  {
  }

  lemma WithoutIdentity(s: State, remaining: set<string>, t: string)
    requires SessionsKept(s) && IndexExact(s) && t in remaining && t in s.sessions
    ensures var m, c := Within(s.byIdentity, remaining), s.sessions[t];
            Within(s.byIdentity, remaining - {t}) == if IsMapped(m, c) then m - {c.identity} else m
  {
    forall id | id in s.byIdentity && s.byIdentity[id].tunnelId == t ensures id == s.sessions[t].identity {}
    WithoutEntry(s.byIdentity, remaining, s.sessions[t]);
  }

  /** A map in which only the session's own identity leads to its tunnel. */
  lemma WithoutEntry(m: map<string, Session>, remaining: set<string>, c: Session)
    requires forall id :: id in m && m[id].tunnelId == c.tunnelId ==> id == c.identity && m[id] == c && id != ""
    requires c.tunnelId in remaining
    ensures Within(m, remaining - {c.tunnelId}) ==
            if IsMapped(Within(m, remaining), c) then Within(m, remaining) - {c.identity} else Within(m, remaining)
  {
    if c.identity in m && m[c.identity] == c {
      assert Within(m, remaining - {c.tunnelId}) == Within(m, remaining) - {c.identity};
    } else {
      assert Within(m, remaining - {c.tunnelId}) == Within(m, remaining);
    }
  }

  lemma FailPendingFrame(s: State, sessions: map<string, Session>, byIdentity: map<string, Session>,
                         tunnels: set<string>)
    ensures FailPending(s.(sessions := sessions, byIdentity := byIdentity), tunnels) ==
            FailPending(s, tunnels).(sessions := sessions, byIdentity := byIdentity)
  {
    assert WaitingOn(s.(sessions := sessions, byIdentity := byIdentity), tunnels) == WaitingOn(s, tunnels);
  }

  lemma StopPartEnds(s: State)
    ensures StopPart(s, {}).(pending := map[], timers := {}) == OnStop(s)
  {
    assert Within(s.sessions, {}) == map[] && Within(s.byIdentity, {}) == map[];
    assert s.sessions.Keys - {} == s.sessions.Keys;
  }
}
