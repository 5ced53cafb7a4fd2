/** The Maps of `createAttestation` (attestation.js) and the functions that update them.
    `submitBenchmarkProof` is two methods, for what runs before and after its `await`. */
module Attestation {
  import opened JsObject
  import opened Rounding
  import opened AttestationState

  datatype Rejection =
    | PayloadInvalid
    | ChallengeUnknown
    | MinerMismatch
    | ChallengeExpired
    | SignatureInvalid
    | SeedMismatch
    | NotMeasured

  class Attestor {
    var activeChallenges: map<string, Challenge>
    var consumedProofs: map<ReplayKey, nat>
    var miners: map<string, Record>
    var suspended: map<nat, Suspended>
    ghost var issued: map<string, Challenge>
    ghost var accepts: seq<Accept>
    ghost var lastNow: nat

    ghost function View(): State
      reads this
    {
      State(activeChallenges, consumedProofs, miners, suspended, issued, accepts)
    }

    ghost predicate Valid()
      reads this
    {
      Kept(View(), lastNow)
    }

    constructor ()
      ensures View() == Initial() && lastNow == 0 && Valid()
    {
      lastNow := 0;
      activeChallenges, consumedProofs, miners, suspended := map[], map[], map[], map[];
      issued, accepts := map[], [];
    }

    method CleanupReplayCache(now: nat)
      modifies this`consumedProofs
      ensures View() == AttestationState.CleanupReplayCache(old(View()), now)
    {
      var remaining := consumedProofs.Keys;
      while remaining != {}
        invariant remaining <= consumedProofs.Keys
        invariant consumedProofs == map k | k in old(consumedProofs) &&
                    (k in remaining || old(consumedProofs)[k] >= now - REPLAY_WINDOW_MS) :: old(consumedProofs)[k]
      {
        var key :| key in remaining;
        if consumedProofs[key] < now - REPLAY_WINDOW_MS {
          consumedProofs := consumedProofs - {key};
        }
        remaining := remaining - {key};
      }
    }

    method CleanupExpiredChallenges(now: nat)
      modifies this`activeChallenges
      ensures View() == AttestationState.CleanupExpiredChallenges(old(View()), now)
    {
      var remaining := activeChallenges.Keys;
      while remaining != {}
        invariant remaining <= activeChallenges.Keys
        invariant activeChallenges == map id | id in old(activeChallenges) &&
                    (id in remaining || ExpiresAt(old(activeChallenges)[id]) >= now) :: old(activeChallenges)[id]
      {
        var challengeId :| challengeId in remaining;
        if ExpiresAt(activeChallenges[challengeId]) < now {
          activeChallenges := activeChallenges - {challengeId};
        }
        remaining := remaining - {challengeId};
      }
    }

    /** Randomly drawn parts of the challenge are parameters. */
    method IssueBenchmarkChallenge(now: nat, c: Challenge)
      requires Valid() && Possible(View(), lastNow, Issue(now, c))
      modifies this
      ensures View() == Step(old(View()), Issue(now, c)) && lastNow == now && Valid()
    {
      StepKeeps(View(), lastNow, Issue(now, c));
      lastNow := now;
      CleanupReplayCache(now);
      CleanupExpiredChallenges(now);
      miners := miners[c.minerId := RecordOf(miners, c.minerId)];
      activeChallenges := activeChallenges[c.id := c];
      issued := issued[c.id := c];
    }

    /** What the benchmark handler (benchmark-ipc.js) writes on the challenges of the local wallet. */
    method RecordMeasurement(now: nat, address: string, ops: real)
      requires Valid() && Possible(View(), lastNow, Measure(now, address, ops))
      modifies this
      ensures View() == Step(old(View()), Measure(now, address, ops)) && lastNow == now && Valid()
    {
      StepKeeps(View(), lastNow, Measure(now, address, ops));
      lastNow := now;
      WriteMeasurement(address, ops);
    }

    method WriteMeasurement(address: string, ops: real)
      modifies this`activeChallenges
      ensures View() == OnMeasure(old(View()), address, ops)
    {
      if address == "" {
        return;
      }
      var remaining := activeChallenges.Keys;
      while remaining != {}
        invariant remaining <= old(activeChallenges).Keys
        invariant activeChallenges == map id | id in old(activeChallenges) ::
                    if id in remaining then old(activeChallenges)[id]
                    else Measured(old(activeChallenges)[id], address, ops)
      {
        var id :| id in remaining;
        var challenge := activeChallenges[id];
        if challenge.minerId == address || challenge.identityAddress == address {
          activeChallenges := activeChallenges[id := challenge.(measured := Some(ops))];
        }
        remaining := remaining - {id};
      }
    }

    method RejectAttestation(minerId: string)
      modifies this`miners
      ensures View() == Reject(old(View()), minerId)
    {
      var record := RecordOf(miners, minerId);
      record := record.(level := ClampNat(record.level - 1));
      record := record.(badStreak := if record.badStreak + 1 > 1 then record.badStreak + 1 else 1);
      record := record.(goodStreak := 0, rejected := record.rejected + 1);
      miners := miners[minerId := record];
    }

    /** Up to the `await`. Returns why the submission was rejected, or nothing if it is suspended. */
    method BeginSubmission(now: nat, ticket: nat, p: Payload) returns (rejection: Option<Rejection>)
      requires Valid() && Possible(View(), lastNow, Submit(now, ticket, p))
      modifies this
      ensures View() == Step(old(View()), Submit(now, ticket, p)) && lastNow == now && Valid()
      ensures rejection == None <==> ticket in suspended
    {
      StepKeeps(View(), lastNow, Submit(now, ticket, p));
      lastNow := now;
      rejection := CheckSubmission(now, ticket, p);
    }

    method CheckSubmission(now: nat, ticket: nat, p: Payload) returns (rejection: Option<Rejection>)
      requires ticket !in suspended
      modifies this`activeChallenges, this`consumedProofs, this`miners, this`suspended
      ensures View() == OnSubmit(old(View()), now, ticket, p)
      ensures rejection == None <==> ticket in suspended
    {
      CleanupReplayCache(now);
      CleanupExpiredChallenges(now);
      if p.challengeId == None {
        RejectAttestation(p.minerId);
        return Some(PayloadInvalid);
      }
      if p.challengeId.value !in activeChallenges {
        RejectAttestation(p.minerId);
        return Some(ChallengeUnknown);
      }
      var expected := activeChallenges[p.challengeId.value];
      var problem :=
        if expected.minerId != p.minerId then Some(MinerMismatch)
        else if ExpiresAt(expected) < now then Some(ChallengeExpired)
        else if !p.signatureOk then Some(SignatureInvalid)
        else if p.proofSeed != expected.seed then Some(SeedMismatch)
        else if expected.measured == None then Some(NotMeasured)
        else None;
      if problem.Some? {
        activeChallenges := activeChallenges - {expected.id};
        RejectAttestation(p.minerId);
        return problem;
      }
      suspended := suspended[ticket := Suspended(p.minerId, expected, expected.measured.value, now)];
      return None;
    }

    /** After the `await`: the verdict. */
    method FinishSubmission(now: nat, ticket: nat, identityOk: bool, jitterOk: bool) returns (accepted: bool)
      requires Valid() && ticket in suspended && Possible(View(), lastNow, Resume(now, ticket, identityOk, jitterOk))
      modifies this
      ensures View() == Step(old(View()), Resume(now, ticket, identityOk, jitterOk)) && lastNow == now && Valid()
      ensures accepted <==> Passes(old(View()), old(suspended)[ticket], identityOk, jitterOk)
      ensures accepted ==> old(suspended)[ticket].challenge.id !in activeChallenges
    {
      StepKeeps(View(), lastNow, Resume(now, ticket, identityOk, jitterOk));
      lastNow := now;
      accepted := Judge(ticket, identityOk, jitterOk);
    }

    method Judge(ticket: nat, identityOk: bool, jitterOk: bool) returns (accepted: bool)
      requires ticket in suspended
      modifies this`activeChallenges, this`consumedProofs, this`miners, this`suspended, this`accepts
      ensures View() == OnResume(old(View()), ticket, identityOk, jitterOk)
      ensures accepted <==> Passes(old(View()), old(suspended)[ticket], identityOk, jitterOk)
    {
      var w := suspended[ticket];
      var failed := !identityOk || w.ops < w.challenge.minOps || !jitterOk;
      var replayKey := KeyOf(w);
      if replayKey in consumedProofs {
        failed := true;
      }
      activeChallenges := activeChallenges - {w.challenge.id};
      consumedProofs := consumedProofs[replayKey := w.startedAt];
      suspended := suspended - {ticket};
      if failed {
        RejectAttestation(w.minerId);
        return false;
      }
      var record := RecordOf(miners, w.minerId);
      record := record.(level := if record.level + 1 < MAX_LEVEL then record.level + 1 else MAX_LEVEL);
      record := record.(goodStreak := record.goodStreak + 1, badStreak := 0, accepted := record.accepted + 1);
      miners := miners[w.minerId := record];
      accepts := accepts + [AcceptOf(w)];
      return true;
    }
  }
}
