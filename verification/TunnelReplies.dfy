/** Which reply a request through a tunnel gets, and which sessions live, as conditions on the events
    (reverse-tunnel.js). */
module TunnelReplies {
  import opened JsObject
  import opened Rounding
  import opened TunnelState

  /** The response object has got this reply. */
  ghost predicate Got(s: State, res: Res, reply: Reply) {
    res in s.answered && s.answered[res] == reply
  }

  /** The session is live. */
  ghost predicate Live(s: State, c: Session) {
    c.tunnelId in s.sessions && s.sessions[c.tunnelId] == c
  }

  // ---- the status of a response -----------------------------------------------------

  /** A status below 100 is raised, or stands for none; any other is sent if it has three digits, or has
      them once cut to 32 bits. */
  lemma AcceptedIff(status: real, headersLegal: bool)
    ensures WriteHeadAccepts(status, headersLegal) <==>
            headersLegal && (status < 100.0 || exists k: nat :: ThreeDigitsAbove(status, k))
  {
    var n := status.Floor;
    if status >= 100.0 {
      var k: nat := (n + 2147483648) / 4294967296;
      assert ToInt32(n) == n - k * 4294967296;
      if 100 <= ToInt32(n) <= 999 {
        assert ThreeDigitsAbove(status, k);
      }
      if j: nat :| ThreeDigitsAbove(status, j) {
        assert j == k;
      }
    }
  }

  predicate ThreeDigitsAbove(status: real, k: nat) {
    100 <= status.Floor - k * 4294967296 <= 999
  }

  // ---- replies to a forwarded request -----------------------------------------------

  lemma AfterFailing(s: State, tunnels: set<string>, q: string)
    requires RequestsKept(s) && q in s.pending
    ensures var f, p := FailPending(s, tunnels), s.pending[q];
            if p.tunnelId in tunnels then q !in f.pending && Got(f, p.res, TunnelDown)
            else q in f.pending && p.res !in f.answered
  {
    var p := s.pending[q];
    if p.tunnelId in tunnels {
      assert p.res in WaitingOn(s, tunnels);
    } else {
      assert p.res !in WaitingOn(s, tunnels);
    }
  }

  lemma AfterDestroy(s: State, c: Session, q: string)
    requires RequestsKept(s) && q in s.pending
    ensures var d, p := Destroy(s, c), s.pending[q];
            if p.tunnelId == c.tunnelId then Got(d, p.res, TunnelDown) else p.res !in d.answered
  {
    SameRequests(s, Unmap(s, c));
    AfterFailing(Unmap(s, c), {c.tunnelId}, q);
  }

  /** The request's tunnel is live with this identity, so a new connection with it takes its place. */
  ghost predicate Replaced(s: State, tunnelId: string, e: Event) {
    && e.Connect? && e.identity != "" && e.identity != e.localIdentity
    && tunnelId in s.sessions && s.sessions[tunnelId].identity == e.identity
  }

  lemma AfterConnect(s: State, e: Event, q: string)
    requires Kept(s) && q in s.pending && e.Connect?
    ensures var t, p := Step(s, e), s.pending[q];
            if Replaced(s, p.tunnelId, e) then Got(t, p.res, TunnelDown) else p.res !in t.answered
  {
    if e.identity != "" && e.identity in s.byIdentity {
      AfterDestroy(s, s.byIdentity[e.identity], q);
    }
  }

  /** The request's own tunnel answers it in a way that can be sent. */
  ghost predicate OwnResponse(e: Event, q: string, p: Pending) {
    && e.Respond? && e.requestId == q && e.session.tunnelId == p.tunnelId && e.headersLegal
    && (e.status < 100.0 || exists k: nat :: ThreeDigitsAbove(e.status, k))
  }

  lemma AfterRespond(s: State, e: Event, q: string)
    requires RequestsKept(s) && q in s.pending && e.Respond?
    ensures var t, p := Step(s, e), s.pending[q];
            if OwnResponse(e, q, p) then Got(t, p.res, Relayed(p.tunnelId)) else p.res !in t.answered
  {
    AcceptedIff(e.status, e.headersLegal);
    assert e.requestId in s.pending && e.requestId != q ==> s.pending[e.requestId].res != s.pending[q].res;
  }

  lemma AfterExpire(s: State, r: string, q: string)
    requires RequestsKept(s) && q in s.pending
    ensures var t, p := OnExpire(s, r), s.pending[q];
            if r == q then Got(t, p.res, TimedOut) else p.res !in t.answered
  {
    assert r in s.pending && r != q ==> s.pending[r].res != s.pending[q].res;
  }

  lemma AfterArrival(s: State, e: Event, q: string)
    requires RequestsKept(s) && Enabled(s, e) && q in s.pending && (e.Arrive? || e.BodyRead?)
    ensures s.pending[q].res !in Step(s, e).answered
  {
  }

  /** The tunnel of the request is closed, replaced, or stopped while it is live. */
  ghost predicate TunnelGoes(s: State, tunnelId: string, e: Event) {
    || (e.Gone? && e.session.tunnelId == tunnelId)
    || Replaced(s, tunnelId, e)
    || (e.StopAll? && tunnelId in s.sessions)
  }

  /** The reply a waiting request gets from one event. */
  ghost predicate RightReply(s: State, e: Event, q: string, t: State)
    requires q in s.pending
  {
    var p := s.pending[q];
    && (Got(t, p.res, Relayed(p.tunnelId)) <==> OwnResponse(e, q, p))
    && (Got(t, p.res, TimedOut) <==> e == Expire(q))
    && (Got(t, p.res, TunnelDown) <==> TunnelGoes(s, p.tunnelId, e))
    && (p.res in t.answered ==> t.answered[p.res] in {Relayed(p.tunnelId), TimedOut, TunnelDown})
  }

  /** A waiting request is answered with its tunnel's response exactly if its own tunnel sends one that
      can be relayed; as timed out exactly when its timer fires; as cut off exactly when its tunnel is
      closed, replaced, or stopped while live; and in no other way. */
  lemma ReplyIff(s: State, e: Event, q: string)
    requires Kept(s) && Enabled(s, e) && q in s.pending
    ensures RightReply(s, e, q, Step(s, e))
  {
    match e
    case Connect(_, _, _) => AfterConnect(s, e, q);
    case Gone(session) => AfterDestroy(s, session, q);
    case StopAll => AfterFailing(s, s.sessions.Keys, q);
    case Arrive(_, _, _, _, _, _) => AfterArrival(s, e, q);
    case BodyRead(_) => AfterArrival(s, e, q);
    case Respond(_, _, _, _) => AfterRespond(s, e, q);
    case Expire(r) => AfterExpire(s, r, q);
  }

  // ---- requests that arrive ---------------------------------------------------------

  /** An arriving request is refused on a tunnel that is not there or not open, else if too many wait,
      else off the interface; otherwise its body is read. */
  lemma ArrivalDecided(s: State, e: Event)
    requires Kept(s) && Enabled(s, e) && e.Arrive?
    ensures var t := Step(s, e);
            if e.tunnelId !in s.sessions || !e.open then Got(t, e.res, TunnelUnavailable) && t.reading == s.reading
            else if |s.pending| >= e.maxPending then Got(t, e.res, TunnelBusy) && t.reading == s.reading
            else if !e.apiPath then Got(t, e.res, NotFound) && t.reading == s.reading
            else && e.res !in t.answered && t.reading == s.reading[e.requestId := Pending(e.tunnelId, e.res)]
  {
    assert e.res !in s.answered;
  }

  /** It touches no other request. */
  lemma ArrivalTouchesNoOther(s: State, e: Event, res: Res, reply: Reply)
    requires e.Arrive? && res != e.res
    ensures Got(Step(s, e), res, reply) <==> Got(s, res, reply)
    ensures var t := Step(s, e); t.pending == s.pending && t.timers == s.timers && t.sessions == s.sessions
  {
    var refusal := Refusal(s, e.tunnelId, e.open, e.apiPath, e.maxPending);
    var d := Draw(s, e.requestId, e.res);
    assert Step(s, e) == if refusal.Some? then Answer(d, e.res, refusal.value)
                         else StartReading(d, e.requestId, Pending(e.tunnelId, e.res));
  }

  /** A request whose body has been read is forwarded and waits with its timer; until then it is neither
      answered nor dropped, whatever happens. */
  lemma ReadingUntilRead(s: State, e: Event, q: string)
    requires Kept(s) && Enabled(s, e) && q in s.reading
    ensures var t, p := Step(s, e), s.reading[q];
            if e == BodyRead(q) then q in t.pending && t.pending[q] == p && q in t.timers && q !in t.reading
            else q in t.reading && t.reading[q] == p && p.res !in t.answered
  {
    StepKeeps(s, e);
    if e != BodyRead(q) {
      StillReading(s, e, q);
    }
  }

  lemma StillReading(s: State, e: Event, q: string)
    requires RequestsKept(s) && Enabled(s, e) && q in s.reading && e != BodyRead(q)
    ensures q in Step(s, e).reading && Step(s, e).reading[q] == s.reading[q]
  {
  }

  // ---- sessions ---------------------------------------------------------------------

  /** A session is live after an event exactly if the event opens it and does not come from the program's
      own peer, or if it was live and is neither closed, nor replaced by its own identity, nor stopped. */
  lemma LiveIff(s: State, e: Event, c: Session)
    requires Kept(s) && Enabled(s, e)
    ensures Live(Step(s, e), c) <==>
            || (e.Connect? && c == Session(e.tunnelId, e.identity) &&
                (e.identity == "" || e.identity != e.localIdentity))
            || (Live(s, c) && e != Gone(c) && !e.StopAll? &&
                !(e.Connect? && e.identity != "" && e.identity != e.localIdentity && c.identity == e.identity))
  {
    if e.Connect? {
      LiveAfterConnect(s, e, c);
    } else if e.Gone? {
      LiveAfterDestroy(s, e.session, c);
    }
  }

  lemma LiveAfterDestroy(s: State, d: Session, c: Session)
    requires Kept(s) && d in s.created
    ensures Live(Destroy(s, d), c) <==> Live(s, c) && c != d
  {
    assert Live(s, c) ==> c in s.created;
    assert Destroy(s, d).sessions == s.sessions - {d.tunnelId};
  }

  lemma LiveAfterConnect(s: State, e: Event, c: Session)
    requires Kept(s) && Enabled(s, e) && e.Connect?
    ensures Live(Step(s, e), c) <==>
            || (c == Session(e.tunnelId, e.identity) && (e.identity == "" || e.identity != e.localIdentity))
            || (Live(s, c) && !(e.identity != "" && e.identity != e.localIdentity && c.identity == e.identity))
  {
    assert e.tunnelId !in s.sessions;
    if e.identity != "" && e.identity in s.byIdentity {
      LiveAfterDestroy(s, s.byIdentity[e.identity], c);
    }
  }
}
