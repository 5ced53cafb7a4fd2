/** The second reward splitter, `buildRewardMapFromRoundSnapshot` (round-contributions.js), and when
    it agrees with the ledger's settlement. The reward for the height is a parameter. */
module RewardMap {
  import opened Rounding
  import opened Text
  import opened JsObject
  import opened RewardSplit
  import opened LedgerState

  function AsRealMap(m: map<string, int>): map<string, real> {
    map a | a in m :: m[a] as real
  }

  function RewardMapOf(rewardTotal: real, contributions: Obj<real>, fallbackAddress: string): map<string, real> {
    var claims := Claims(contributions);
    if rewardTotal <= 0.0 then map[]
    else if Total(Weights(claims)) > 0.0 then AsRealMap(ShareMap(rewardTotal, claims, |claims|))
    else if fallbackAddress != "" then map[fallbackAddress := rewardTotal]
    else map[]
  }

  method BuildRewardMapFromRoundSnapshot(rewardTotal: real, contributions: Obj<real>, fallbackAddress: string)
    returns (rewardMap: map<string, real>)
    ensures rewardMap == RewardMapOf(rewardTotal, contributions, fallbackAddress)
  {
    if rewardTotal <= 0.0 {
      return map[];
    }
    var claims := Claims(contributions);
    if Total(Weights(claims)) <= 0.0 {
      return if fallbackAddress != "" then map[fallbackAddress := rewardTotal] else map[];
    }
    ClaimsAreProper(contributions);
    var shares := SplitAmongClaims(rewardTotal, claims);
    return AsRealMap(shares);
  }

  /** Its loop over the contributors. */
  method SplitAmongClaims(rewardTotal: real, claims: seq<Claim>) returns (shares: map<string, int>)
    requires rewardTotal > 0.0 && Positive(Weights(claims)) && Total(Weights(claims)) > 0.0
    ensures shares == ShareMap(rewardTotal, claims, |claims|)
  {
    var ws, totalWh := Weights(claims), Total(Weights(claims));
    shares := map[];
    var handedOut := 0;
    for index := 0 to |claims|
      invariant shares == ShareMap(rewardTotal, claims, index)
      invariant index < |claims| ==> handedOut == Allocated(rewardTotal, ws[..index], totalWh)
    {
      var Claim(address, amount) := claims[index];
      var share := LoopShare(rewardTotal, amount, totalWh, index == |claims| - 1, handedOut);
      LoopShareIsShare(rewardTotal, ws, index);
      handedOut := handedOut + share;
      shares := AddTo(shares, address, share);
    }
  }

  /** Settling a new block with the same reward, contributions and address. */
  function SettledMap(l: Ledger, reward: real, contributions: Obj<real>, address: string): map<string, real> {
    AsRealMap(NewRound(l, SettleParams(address, "", 0, Some(reward), Some(contributions))).shares)
  }

  lemma NoClaimsNoTotal(contributions: Obj<real>)
    ensures Claims(contributions) == [] <==> Total(Weights(Claims(contributions))) <= 0.0
  {
    ClaimsAreProper(contributions);
    TotalPositive(Weights(Claims(contributions)));
  }

  lemma SoleClaim(reward: real, address: string)
    requires reward > 0.0
    ensures SharesOf(reward, [Claim(address, 1.0)]) == map[address := ToFixed(reward)]
  {
    var claims := [Claim(address, 1.0)];
    var ws := Weights(claims);
    assert ws == [1.0] && ws[..0] == [];
    assert Total(ws) == 1.0;
    assert ShareMap(reward, claims, 0) == map[];
    assert Share(reward, ws, 0) == ToFixed(reward);
    assert ShareMap(reward, claims, 1) == AddTo(map[], address, ToFixed(reward));
  }

  /** Without claims a positive reward falls to the trimmed address in the ledger... */
  lemma FallbackSettled(l: Ledger, reward: real, contributions: Obj<real>, address: string)
    requires reward > 0.0 && Claims(contributions) == []
    ensures SettledMap(l, reward, contributions, address) ==
            if Trim(address) == "" then map[] else map[Trim(address) := ToFixed(reward) as real]
  {
    if Trim(address) != "" {
      SoleClaim(reward, Trim(address));
      assert Claims(contributions) + [Claim(Trim(address), 1.0)] == [Claim(Trim(address), 1.0)];
    }
  }

  /** ...and to the address as it is in the second splitter. */
  lemma FallbackMapsAgreeIff(reward: real, address: string)
    requires address != ""
    ensures var settled: map<string, real> :=
              if Trim(address) == "" then map[] else map[Trim(address) := ToFixed(reward) as real];
            settled == map[address := reward] <==> Trimmed(address) && Whole(reward)
  {
    TrimFixed(address);
    if Whole(reward) {
      ToFixedWhole(reward.Floor);
    }
    var s, m: map<string, real> := map[Trim(address) := ToFixed(reward) as real], map[address := reward];
    assert address in m && Trim(address) in s && s[Trim(address)] == ToFixed(reward) as real && m[address] == reward;
  }

  /** The two splitters give the same map unless a positive reward falls to a fallback address that
      is not trimmed, or is not a whole number of units: the second one passes both on as they are. */
  lemma SplittersAgreeIff(l: Ledger, reward: real, contributions: Obj<real>, address: string)
    ensures SettledMap(l, reward, contributions, address) == RewardMapOf(reward, contributions, address) <==>
            reward <= 0.0 || Claims(contributions) != [] || address == "" || (Trimmed(address) && Whole(reward))
  {
    NoClaimsNoTotal(contributions);
    if reward > 0.0 && Claims(contributions) == [] {
      FallbackSettled(l, reward, contributions, address);
      if address != "" {
        FallbackMapsAgreeIff(reward, address);
      }
    }
  }
}
