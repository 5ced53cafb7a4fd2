/** The coordinator's Maps of reverse-tunnel.js and the handlers that update them. */
module ReverseTunnel {
  import opened JsObject
  import opened TunnelState

  class Coordinator {
    var sessions: map<string, Session>
    var byIdentity: map<string, Session>
    var pending: map<string, Pending>
    var timers: set<string>
    var reading: map<string, Pending>
    var answered: map<Res, Reply>
    ghost var created: set<Session>
    ghost var requests: set<string>
    ghost var responses: set<Res>

    ghost function View(): State
      reads this
    {
      State(sessions, byIdentity, pending, timers, reading, answered, created, requests, responses)
    }

    constructor ()
      ensures View() == Initial() && Kept(View())
    {
      sessions, byIdentity, pending, timers, reading, answered := map[], map[], map[], {}, map[], map[];
      created, requests, responses := {}, {}, {};
    }

    /** Sending on a response object that has been answered is an error in Node; hence the condition. */
    method Send(res: Res, reply: Reply)
      requires res !in answered
      modifies this`answered
      ensures View() == Answer(old(View()), res, reply)
    {
      answered := answered[res := reply];
    }

    method CleanupPendingRequest(requestId: string)
      modifies this`pending, this`timers
      ensures View() == Cleanup(old(View()), requestId)
    {
      if requestId !in pending {
        return;
      }
      timers := timers - {requestId};
      pending := pending - {requestId};
    }

    method FailPendingRequestsForSession(session: Session)
      requires RequestsKept(View())
      modifies this`pending, this`timers, this`answered
      ensures View() == FailPending(old(View()), {session.tunnelId})
    {
      ghost var was := View();
      var tunnel, remaining := session.tunnelId, pending.Keys;
      FailPartStarts(was, tunnel);
      while remaining != {}
        invariant remaining <= was.pending.Keys
        invariant View() == FailPart(was, tunnel, remaining)
      {
        var requestId :| requestId in remaining;
        FailPartNext(was, tunnel, remaining, requestId);
        var entry := pending[requestId];
        if entry.tunnelId == tunnel {
          CleanupPendingRequest(requestId);
          if entry.res !in answered {
            Send(entry.res, TunnelDown);
          }
        }
        remaining := remaining - {requestId};
      }
      FailPartEnds(was, tunnel);
    }

    method DestroySession(session: Session)
      requires RequestsKept(View())
      modifies this`sessions, this`byIdentity, this`pending, this`timers, this`answered
      ensures View() == Destroy(old(View()), session)
    {
      ghost var was := View();
      sessions := sessions - {session.tunnelId};
      if IsMapped(byIdentity, session) {
        byIdentity := byIdentity - {session.identity};
      }
      SameRequests(was, View());
      FailPendingRequestsForSession(session);
    }

    /** The `connection` handler. */
    method OnConnection(tunnelId: string, identity: string, localIdentity: string)
      requires Kept(View()) && Enabled(View(), Connect(tunnelId, identity, localIdentity))
      modifies this
      ensures View() == Step(old(View()), Connect(tunnelId, identity, localIdentity)) && Kept(View())
    {
      ConnectKeeps(View(), tunnelId, identity, localIdentity);
      if identity != "" && identity == localIdentity {
        return;
      }
      if identity != "" && identity in byIdentity {
        DestroySession(byIdentity[identity]);
      }
      var session := Session(tunnelId, identity);
      sessions := sessions[tunnelId := session];
      if identity != "" {
        byIdentity := byIdentity[identity := session];
      }
      created := created + {session};
    }

    /** The `close` and `error` handlers, which may come late and more than once. */
    method OnGone(session: Session)
      requires Kept(View()) && session in created
      modifies this
      ensures View() == Step(old(View()), Gone(session)) && Kept(View())
    {
      DestroyKeeps(View(), session);
      DestroySession(session);
    }

    method Stop()
      requires Kept(View())
      modifies this
      ensures View() == Step(old(View()), StopAll) && Kept(View())
    {
      ghost var was := View();
      StopKeeps(was);
      CloseSessions();
      StopPartEnds(was);
      sessions := map[];
      var keys := pending.Keys;
      while keys != {}
        invariant View() == StopPart(was, {}).(pending := pending, timers := timers)
        invariant pending.Keys == keys && timers <= keys
      {
        var requestId :| requestId in keys;
        CleanupPendingRequest(requestId);
        keys := keys - {requestId};
      }
      assert pending == map[] && timers == {};
    }

    method CloseSessions()
      requires Kept(View())
      modifies this`sessions, this`byIdentity, this`pending, this`timers, this`answered
      ensures View() == StopPart(old(View()), {})
    {
      ghost var was := View();
      var remaining := sessions.Keys;
      StopPartStarts(was);
      while remaining != {}
        invariant remaining <= was.sessions.Keys
        invariant View() == StopPart(was, remaining)
      {
        var tunnelId :| tunnelId in remaining;
        StopPartNext(was, remaining, tunnelId);
        DestroySession(sessions[tunnelId]);
        remaining := remaining - {tunnelId};
      }
    }

    /** The part of `handleReverseTunnelHttpRequest` before the body is awaited. */
    method OnHttpRequest(requestId: string, tunnelId: string, res: Res, open: bool, apiPath: bool, maxPending: nat)
      requires Kept(View()) && requestId !in requests && res !in responses
      modifies this
      ensures View() == Step(old(View()), Arrive(requestId, tunnelId, res, open, apiPath, maxPending)) && Kept(View())
    {
      ghost var was := View();
      ArriveKeeps(was, requestId, tunnelId, res, open, apiPath, maxPending);
      Handle(requestId, tunnelId, res, open, apiPath, maxPending);
    }

    method Handle(requestId: string, tunnelId: string, res: Res, open: bool, apiPath: bool, maxPending: nat)
      requires res !in answered
      modifies this
      ensures View() == OnArrive(old(View()), requestId, tunnelId, res, open, apiPath, maxPending)
    {
      requests, responses := requests + {requestId}, responses + {res};
      if tunnelId !in sessions || !open {
        Send(res, TunnelUnavailable);
        return;
      }
      if |pending| >= maxPending {
        Send(res, TunnelBusy);
        return;
      }
      if !apiPath {
        Send(res, NotFound);
        return;
      }
      reading := reading[requestId := Pending(tunnelId, res)];
    }

    /** The part after it: the request is registered with its timer and forwarded. */
    method OnBody(requestId: string)
      requires Kept(View()) && requestId in reading
      modifies this
      ensures View() == Step(old(View()), BodyRead(requestId)) && Kept(View())
    {
      BodyReadKeeps(View(), requestId);
      pending := pending[requestId := reading[requestId]];
      timers := timers + {requestId};
      reading := reading - {requestId};
    }

    /** `handleReverseTunnelResponseMessage`. Tells whether it threw. */
    method OnResponse(session: Session, requestId: string, status: real, headersLegal: bool) returns (threw: bool)
      requires Kept(View()) && session in created
      modifies this
      ensures View() == Step(old(View()), Respond(session, requestId, status, headersLegal)) && Kept(View())
      ensures threw <==> WaitsOn(old(View()), requestId, {session.tunnelId}) && !WriteHeadAccepts(status, headersLegal)
    {
      RespondKeeps(View(), session, requestId, status, headersLegal);
      if requestId !in pending || pending[requestId].tunnelId != session.tunnelId {
        return false;
      }
      var res := pending[requestId].res;
      CleanupPendingRequest(requestId);
      if !WriteHeadAccepts(status, headersLegal) {
        return true;
      }
      Send(res, Relayed(session.tunnelId));
      return false;
    }

    /** The callback of a request's timer. */
    method OnTimeout(requestId: string)
      requires Kept(View()) && requestId in timers
      modifies this
      ensures View() == Step(old(View()), Expire(requestId)) && Kept(View())
    {
      ExpireKeeps(View(), requestId);
      var res := pending[requestId].res;
      CleanupPendingRequest(requestId);
      if res !in answered {
        Send(res, TimedOut);
      }
    }
  }
}
