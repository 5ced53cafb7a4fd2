/** The ledger object of `createRoundLedger` (round-ledger.js): the methods that update its state in
    place, each proved to make of it what `LedgerState` says. */
module LedgerObject {
  import opened Rounding
  import opened Text
  import opened JsObject
  import opened Contributions
  import opened RewardSplit
  import opened LedgerState
  import opened Settlement
  import opened Maturity
  import Emission

  datatype SettleResult = Duplicate(existing: Round) | New(round: Round)

  class RoundLedger {
    var nextRoundId: int
    var currentRound: CurrentRound
    var rounds: seq<Round>
    var balances: map<string, Balance>

    ghost function View(): Ledger
      reads this
    {
      Ledger(nextRoundId, currentRound, rounds, balances)
    }

    ghost predicate Valid()
      reads this
    {
      Consistent(View())
    }

    constructor ()
      ensures View() == DefaultLedger() && Valid()
    {
      nextRoundId := 1;
      currentRound := EmptyRound(1);
      rounds := [];
      balances := map[];
      new;
      ReachableConsistent([]);
    }

    /** Adds energy to an address. Returns the energy accepted. */
    method AddContribution(address: string, deltaWh: real, now: int) returns (acceptedWh: real)
      requires Valid()
      modifies this
      ensures Valid() && View() == Step(old(View()), Add(address, deltaWh, now))
      ensures acceptedWh == if Trim(address) == "" then 0.0 else Max0(deltaWh)
    {
      StepKeepsConsistent(View(), Add(address, deltaWh, now));
      var key := Trim(address);
      var delta := Max0(deltaWh);
      if key == "" || delta <= 0.0 {
        return 0.0;
      }
      var prev := Wh(currentRound, key);
      currentRound := currentRound.(
        wh := Put(currentRound.wh, key, ToFixed(prev as real + delta)),
        updatedAt := currentRound.updatedAt[key := now]);
      return delta;
    }

    /** Replaces the total of an address unless the update is stale or would lower it. */
    method SetRoundContribution(address: string, totalWh: real, at: int, message: string, signature: string, now: int)
      returns (outcome: Outcome)
      requires Valid()
      modifies this
      ensures Valid() && View() == Step(old(View()), Set(address, totalWh, at, message, signature, now))
      ensures outcome == SetOutcome(old(currentRound), address, totalWh, at, message, signature)
    {
      StepKeepsConsistent(View(), Set(address, totalWh, at, message, signature, now));
      var key := Trim(address);
      var nextTotal := Max0(totalWh);
      var normalizedAt := ClampNat(at);
      if key == "" {
        return NoAddress;
      }
      var previousAt := ClampNat(UpdatedAt(currentRound, key));
      var hasExistingSig := HasSignature(currentRound, key);
      var hasIncomingSig := signature != "" && message != "";
      if previousAt > 0 && normalizedAt > 0 && normalizedAt < previousAt {
        if !hasIncomingSig || hasExistingSig {
          return Stale;
        }
      }
      var prevTotal := Wh(currentRound, key);
      if prevTotal > 0 && nextTotal < prevTotal as real {
        return ReductionNotAllowed;
      }
      if nextTotal <= 0.0 {
        if Has(currentRound.wh, key) {
          currentRound := currentRound.(
            wh := Delete(currentRound.wh, key), updatedAt := currentRound.updatedAt - {key},
            message := currentRound.message - {key}, signature := currentRound.signature - {key});
        }
        return Cleared;
      }
      currentRound := currentRound.(
        wh := Put(currentRound.wh, key, ToFixed(nextTotal)),
        updatedAt := currentRound.updatedAt[key := if normalizedAt > 0 then normalizedAt else now]);
      if message != "" {
        currentRound := currentRound.(message := currentRound.message[key := message]);
      }
      if signature != "" {
        currentRound := currentRound.(signature := currentRound.signature[key := signature]);
      }
      return Stored;
    }

    method BeginRound(roundId: int)
      requires Valid()
      modifies this
      ensures Valid() && View() == Step(old(View()), Begin(roundId))
    {
      StepKeepsConsistent(View(), Begin(roundId));
      var next := if roundId > 1 then roundId else 1;
      if currentRound.id == next {
        return;
      }
      nextRoundId := next;
      currentRound := EmptyRound(next);
    }

    method ArchiveCurrentRound()
      requires Valid()
      modifies this
      ensures Valid() && View() == Step(old(View()), Archive)
    {
      StepKeepsConsistent(View(), Archive);
      if currentRound.wh == [] {
        return;
      }
      rounds := rounds + [ArchiveRecord(currentRound)];
    }

    method EnsureBalance(address: string) returns (balance: Option<Balance>)
      modifies this`balances
      ensures var key := Trim(address);
              if key == "" then balance == None && balances == old(balances)
              else balance == Some(BalanceOf(old(balances), key)) && balances == old(balances)[key := balance.value]
    {
      var key := Trim(address);
      if key == "" {
        return None;
      }
      if key !in balances {
        balances := balances[key := Balance(0, 0)];
      }
      return Some(balances[key]);
    }

    /** The loop over the contributors: shares are rounded one by one, the last takes what is left. */
    method SplitShares(reward: real, claims: seq<Claim>) returns (shares: map<string, int>)
      requires reward >= 0.0 && Positive(Weights(claims))
      ensures shares == SharesOf(reward, claims)
    {
      shares := map[];
      var handedOut := 0;
      var ws := Weights(claims);
      var totalWh := Total(ws);
      if reward > 0.0 && totalWh > 0.0 {
        for idx := 0 to |claims|
          invariant shares == ShareMap(reward, claims, idx)
          invariant idx < |claims| ==> handedOut == Allocated(reward, ws[..idx], totalWh)
        {
          var isLast := idx == |claims| - 1;
          var Claim(address, wh) := claims[idx];
          var share := LoopShare(reward, wh, totalWh, isLast, handedOut);
          LoopShareIsShare(reward, ws, idx);
          handedOut := handedOut + share;
          shares := AddTo(shares, address, share);
        }
      }
    }

    /** Settles the running round with a found block, unless its hash is already settled. */
    method SettleCurrentRound(p: SettleParams) returns (result: SettleResult)
      requires Valid()
      modifies this
      ensures View() == Step(old(View()), Settle(p))
      ensures Valid()
      ensures result.New? <==> NewBlock(old(View()), p)
      ensures result.New? ==> PaysByEnergy(old(View()), p, result.round)
      ensures result.Duplicate? ==>
                result.existing in rounds && result.existing.SettledRound? &&
                result.existing.blockHash == Trim(p.blockHash)
      ensures result.New? ==> result.round == NewRound(old(View()), p) && rounds == old(rounds) + [result.round]
    {
      ghost var was := View();
      result := ApplySettlement(p);
      StepKeepsConsistent(was, Settle(p));
      NewIffNotDuplicate(was, p);
      if NewBlock(was, p) {
        NewRoundPaysByEnergy(was, p);
      }
    }

    method ApplySettlement(p: SettleParams) returns (result: SettleResult)
      modifies this
      ensures View() == LedgerState.SettleCurrentRound(old(View()), p)
      ensures result.Duplicate? <==> IsDuplicate(old(View()), p)
      ensures result.Duplicate? ==>
                result.existing in rounds && result.existing.SettledRound? &&
                result.existing.blockHash == Trim(p.blockHash)
      ensures result.New? ==> result.round == NewRound(old(View()), p) && rounds == old(rounds) + [result.round]
    {
      var blockHash := Trim(p.blockHash);
      if blockHash != "" {
        for i := 0 to |rounds|
          invariant forall j :: 0 <= j < i ==> !(rounds[j].SettledRound? && rounds[j].blockHash == blockHash)
        {
          if rounds[i].SettledRound? && rounds[i].blockHash == blockHash {
            return Duplicate(rounds[i]);
          }
        }
      }
      var record := BuildRecord(p);
      NewRoundProper(View(), p);
      CreditShares(record.shares);
      rounds := rounds + [record];
      nextRoundId := (if nextRoundId > 1 then nextRoundId else 1) + 1;
      currentRound := EmptyRound(nextRoundId);
      return New(record);
    }

    method BuildRecord(p: SettleParams) returns (record: Round)
      ensures record == NewRound(View(), p)
    {
      var minedAddress := Trim(p.minedAddress);
      var blockHeight := ClampNat(p.blockHeight);
      var rewardCoins: real;
      match p.rewardCoins {
        case Some(coins) => rewardCoins := Max0(coins);
        case None =>
          var units := Emission.RewardForRoundIndex(|rounds|);
          rewardCoins := units as real;
      }
      var claims := Claims(if p.contributions.Some? then p.contributions.value else AsReals(currentRound.wh));
      var totalWh := Total(Weights(claims));
      if totalWh <= 0.0 && minedAddress != "" {
        claims := claims + [Claim(minedAddress, 1.0)];
        totalWh := Total(Weights(claims));
      }
      ClaimsOfSettle(View(), p);
      assert claims == SettleClaims(View(), p) && rewardCoins == RewardFor(View(), p);
      var shares := SplitShares(rewardCoins, claims);
      record := SettledRound(
        currentRound.id, rewardCoins, ToFixed(totalWh), shares, Trim(p.blockHash), blockHeight, minedAddress,
        blockHeight + MATURITY_DEPTH, None);
    }

    method AddToPending(address: string, amount: int)
      requires address != "" && Trimmed(address)
      modifies this`balances
      ensures var Balance(pending, matured) := BalanceOf(old(balances), address);
              balances == old(balances)[address := Balance(pending + amount, matured)]
    {
      TrimFixed(address);
      var balance := EnsureBalance(address);
      if balance.Some? {
        var Balance(pending, matured) := balance.value;
        balances := balances[address := Balance(pending + amount, matured)];
      }
    }

    /** The loop that adds the shares to the pending balances. */
    method CreditShares(shares: map<string, int>)
      requires forall a :: a in shares ==> shares[a] >= 0 && a != "" && Trimmed(a)
      modifies this`balances
      ensures balances == Credit(old(balances), shares)
    {
      var remaining := shares.Keys;
      while remaining != {}
        invariant remaining <= shares.Keys
        invariant balances == Credit(old(balances), shares - remaining)
      {
        var address :| address in remaining;
        var amount := shares[address];
        CreditNext(old(balances), shares, remaining, address);
        if amount > 0 {
          AddToPending(address, amount);
        }
        remaining := remaining - {address};
      }
      assert shares - {} == shares;
    }

    /** The inner loop of `syncMaturity`, over the shares of one ripe round. */
    method MoveShares(ghost was: Ledger, index: nat, height: nat)
      requires Consistent(was) && index < |was.rounds| && |rounds| == |was.rounds|
      requires rounds[index] == was.rounds[index] && Ripe(rounds[index], height)
      requires balances == Shifted(was.balances, was.rounds[..index], height, map[])
      modifies this`balances
      ensures balances == Shifted(was.balances, was.rounds[..index], height, Shares(rounds[index]))
    {
      var shares := Shares(rounds[index]);
      assert ProperRound(was.rounds[index]);
      var remaining := shares.Keys;
      while remaining != {}
        invariant remaining <= shares.Keys
        invariant balances == Shifted(was.balances, was.rounds[..index], height, shares - remaining)
      {
        var address :| address in remaining;
        var amount := ClampNat(shares[address]);
        ShiftedNext(was, index, height, remaining, address);
        if amount > 0 {
          TrimFixed(address);
          var balance := EnsureBalance(address);
          if balance.Some? {
            var Balance(pending, matured) := balance.value;
            balances := balances[address := Balance(ClampNat(pending - amount), matured + amount)];
          }
        }
        remaining := remaining - {address};
      }
      assert shares - {} == shares;
    }

    /** The body of the outer loop: one round, left alone unless it is ripe. */
    method MatureRound(ghost was: Ledger, index: nat, height: nat) returns (ripe: bool)
      requires Consistent(was) && index < |was.rounds| && View() == SyncPart(was, height, index)
      modifies this
      ensures View() == SyncPart(was, height, index + 1)
      ensures ripe == Ripe(was.rounds[index], height)
    {
      SyncPartNext(was, height, index);
      var round := rounds[index];
      ripe := Ripe(round, height);
      if ripe {
        MoveShares(was, index, height);
        rounds := rounds[index := Matured(round, height)];
      }
    }

    /** Moves the shares of every ripe round from pending to matured. Returns how many rounds. */
    method SyncMaturity(currentHeight: int) returns (maturedRounds: nat)
      requires Valid()
      modifies this
      ensures View() == Step(old(View()), Sync(currentHeight))
      ensures Valid()
      ensures CountsMaturing(old(rounds), rounds, currentHeight, maturedRounds)
    {
      ghost var was := View();
      maturedRounds := SyncRounds(currentHeight);
      CountOfMaturing(was, currentHeight);
      StepKeepsConsistent(was, Sync(currentHeight));
    }

    /** The outer loop. */
    method SyncRounds(currentHeight: int) returns (maturedRounds: nat)
      requires Consistent(View())
      modifies this
      ensures View() == LedgerState.SyncMaturity(old(View()), currentHeight)
      ensures maturedRounds == RipeCount(old(rounds), ClampNat(currentHeight))
    {
      ghost var was := View();
      var height := ClampNat(currentHeight);
      maturedRounds := 0;
      var index := 0;
      SyncPartStarts(was, height);
      while index < |rounds|
        invariant 0 <= index <= |rounds| == |was.rounds|
        invariant View() == SyncPart(was, height, index)
        invariant maturedRounds == RipeCount(was.rounds[..index], height)
      {
        RipeCountNext(was.rounds, index, height);
        var ripe := MatureRound(was, index, height);
        if ripe {
          maturedRounds := maturedRounds + 1;
        }
        index := index + 1;
      }
      assert was.rounds[..index] == was.rounds;
      SyncPartEnds(was, currentHeight);
    }
  }
}
