/** Who is paid what by a settled block, stated over the energies themselves: what `settleCurrentRound`
    (round-ledger.js) and `buildRewardMapFromRoundSnapshot` (round-contributions.js) promise the
    contributors. */
module Settlement {
  import opened Rounding
  import opened Text
  import opened JsObject
  import opened Contributions
  import opened RewardSplit
  import opened LedgerState
  import opened RewardMap
  import Emission

  // ---- energies ---------------------------------------------------------------------

  /** A property that earns a share. */
  predicate Earns(p: Prop<real>) {
    Trim(p.key) != "" && p.value > 0.0
  }

  predicate EarnsFor(p: Prop<real>, a: string) {
    Earns(p) && Trim(p.key) == a
  }

  /** The address brings energy. */
  ghost predicate Brings(o: Obj<real>, a: string) {
    exists i :: 0 <= i < |o| && EarnsFor(o[i], a)
  }

  function EnergyOf(o: Obj<real>, a: string): real {
    if o == [] then 0.0
    else EnergyOf(o[..|o| - 1], a) + if EarnsFor(o[|o| - 1], a) then o[|o| - 1].value else 0.0
  }

  function EntriesOf(o: Obj<real>, a: string): nat {
    if o == [] then 0 else EntriesOf(o[..|o| - 1], a) + if EarnsFor(o[|o| - 1], a) then 1 else 0
  }

  function TotalEnergy(o: Obj<real>): real {
    if o == [] then 0.0 else TotalEnergy(o[..|o| - 1]) + if Earns(o[|o| - 1]) then o[|o| - 1].value else 0.0
  }

  function Earners(o: Obj<real>): nat {
    if o == [] then 0 else Earners(o[..|o| - 1]) + if Earns(o[|o| - 1]) then 1 else 0
  }

  /** The address of the last property that earns. */
  function LastEarner(o: Obj<real>): string {
    if o == [] then "" else if Earns(o[|o| - 1]) then Trim(o[|o| - 1].key) else LastEarner(o[..|o| - 1])
  }

  /** How far a share may be from the exact one, in units: half a unit for each of the address's
      entries; for the last entry of all, half a unit for every other entry, and for the reward if it is
      not whole. */
  function Tolerance(o: Obj<real>, reward: real, a: string): real {
    if a != LastEarner(o) then EntriesOf(o, a) as real / 2.0
    else (EntriesOf(o, a) - 1) as real / 2.0 + (Earners(o) - 1) as real / 2.0 +
         if reward == reward.Floor as real then 0.0 else 0.5
  }

  /** The part of a reward that goes with some energy out of a total. */
  function Part(reward: real, energy: real, total: real): real
    requires total > 0.0
  {
    reward * energy / total
  }

  /** This is the address's part of the reward: its own energy over all the energy. */
  ghost predicate InProportion(o: Obj<real>, reward: real, a: string, amount: int)
    requires TotalEnergy(o) > 0.0
  {
    var error := amount as real - Part(reward, EnergyOf(o, a), TotalEnergy(o));
    -Tolerance(o, reward, a) <= error <= Tolerance(o, reward, a)
  }

  /** Exactly those who bring energy are paid, each in proportion to all the energy it brings. */
  ghost predicate PaidByEnergy(o: Obj<real>, reward: real, shares: map<string, int>)
    requires TotalEnergy(o) > 0.0
  {
    && (forall a: string :: a in shares <==> Brings(o, a))
    && (forall a :: a in shares ==> InProportion(o, reward, a, shares[a]))
  }

  // ---- the claims hold the energies -------------------------------------------------

  function EnergyIn(claims: seq<Claim>, n: nat, a: string): real
    requires n <= |claims|
  {
    if n == 0 then 0.0 else EnergyIn(claims, n - 1, a) + if claims[n - 1].address == a then claims[n - 1].wh else 0.0
  }

  function EntriesIn(claims: seq<Claim>, n: nat, a: string): nat
    requires n <= |claims|
  {
    if n == 0 then 0 else EntriesIn(claims, n - 1, a) + if claims[n - 1].address == a then 1 else 0
  }

  lemma {:induction false} InPrefix(front: seq<Claim>, rest: seq<Claim>, n: nat, a: string)
    requires n <= |front|
    ensures EnergyIn(front + rest, n, a) == EnergyIn(front, n, a)
    ensures EntriesIn(front + rest, n, a) == EntriesIn(front, n, a)
  {
    if n > 0 {
      InPrefix(front, rest, n - 1, a);
    }
  }

  lemma WeightsAppend(front: seq<Claim>, c: Claim)
    ensures Total(Weights(front + [c])) == Total(Weights(front)) + c.wh
  {
    assert Weights(front + [c])[..|front|] == Weights(front);
  }

  ghost predicate HoldEnergies(claims: seq<Claim>, o: Obj<real>, a: string) {
    && Total(Weights(claims)) == TotalEnergy(o) && |claims| == Earners(o)
    && EnergyIn(claims, |claims|, a) == EnergyOf(o, a) && EntriesIn(claims, |claims|, a) == EntriesOf(o, a)
    && (claims != [] ==> claims[|claims| - 1].address == LastEarner(o))
  }

  lemma OneMoreClaim(front: seq<Claim>, o: Obj<real>, c: Claim, p: Prop<real>, a: string)
    requires HoldEnergies(front, o, a) && Earns(p) && c == Claim(Trim(p.key), p.value)
    ensures HoldEnergies(front + [c], o + [p], a)
  {
    assert (o + [p])[..|o|] == o;
    WeightsAppend(front, c);
    InPrefix(front, [c], |front|, a);
  }

  lemma {:induction false} ClaimsHoldEnergies(o: Obj<real>, a: string)
    ensures HoldEnergies(Claims(o), o, a)
  {
    if o != [] {
      var front, p := o[..|o| - 1], o[|o| - 1];
      ClaimsHoldEnergies(front, a);
      if Earns(p) {
        OneMoreClaim(Claims(front), front, Claim(Trim(p.key), p.value), p, a);
        assert front + [p] == o;
      }
    }
  }

  ghost predicate HasClaim(claims: seq<Claim>, a: string) {
    exists i :: 0 <= i < |claims| && claims[i].address == a
  }

  lemma BringsAppended(front: Obj<real>, p: Prop<real>, a: string)
    ensures Brings(front + [p], a) <==> Brings(front, a) || EarnsFor(p, a)
  {
    var o := front + [p];
    assert o[|front|] == p;
    if Brings(front, a) {
      var i :| 0 <= i < |front| && EarnsFor(front[i], a);
      assert EarnsFor(o[i], a);
    }
  }

  lemma ClaimAppended(front: seq<Claim>, c: Claim, a: string)
    ensures HasClaim(front + [c], a) <==> HasClaim(front, a) || c.address == a
  {
    var all := front + [c];
    assert all[|front|] == c;
    if HasClaim(front, a) {
      var i :| 0 <= i < |front| && front[i].address == a;
      assert all[i].address == a;
    }
  }

  lemma {:induction false} ClaimsOfEarners(o: Obj<real>, a: string)
    ensures HasClaim(Claims(o), a) <==> Brings(o, a)
  {
    if o != [] {
      var front, p := o[..|o| - 1], o[|o| - 1];
      ClaimsOfEarners(front, a);
      BringsAppended(front, p, a);
      ClaimAppended(Claims(front), Claim(Trim(p.key), p.value), a);
      assert front + [p] == o;
    }
  }

  // ---- shares in proportion ---------------------------------------------------------

  /** The shares before the last, added up by address. */
  lemma {:induction false} AmountBeforeLast(reward: real, claims: seq<Claim>, n: nat, a: string)
    requires n < |claims| && Positive(Weights(claims)) && Total(Weights(claims)) > 0.0 && reward >= 0.0
    ensures var error := AmountFor(reward, claims, n, a) as real -
                         Exact(reward, EnergyIn(claims, n, a), Total(Weights(claims)));
            -(EntriesIn(claims, n, a) as real) / 2.0 <= error <= EntriesIn(claims, n, a) as real / 2.0
  {
    if n == 0 {
      assert reward * 0.0 == 0.0;
    } else {
      AmountBeforeLast(reward, claims, n - 1, a);
      if claims[n - 1].address == a {
        ExactAdds(reward, EnergyIn(claims, n - 1, a), claims[n - 1].wh, Total(Weights(claims)));
        ShareBounds(reward, Weights(claims), n - 1);
      }
    }
  }

  /** All shares of an address. */
  lemma AmountBounds(reward: real, claims: seq<Claim>, a: string)
    requires claims != [] && Positive(Weights(claims)) && Total(Weights(claims)) > 0.0 && reward >= 0.0
    ensures var n, entries := |claims|, EntriesIn(claims, |claims|, a);
            var tolerance := if a != claims[n - 1].address then entries as real / 2.0
                             else (entries - 1) as real / 2.0 + (n - 1) as real / 2.0 +
                                  if reward == reward.Floor as real then 0.0 else 0.5;
            var error := AmountFor(reward, claims, n, a) as real -
                         Exact(reward, EnergyIn(claims, n, a), Total(Weights(claims)));
            -tolerance <= error <= tolerance
  {
    var n := |claims|;
    AmountBeforeLast(reward, claims, n - 1, a);
    if claims[n - 1].address == a {
      ExactAdds(reward, EnergyIn(claims, n - 1, a), claims[n - 1].wh, Total(Weights(claims)));
      ShareBounds(reward, Weights(claims), n - 1);
    }
  }

  /** The claims of a list that brings energy, and the energy each address claims. */
  lemma SomeClaims(o: Obj<real>)
    requires TotalEnergy(o) > 0.0
    ensures Claims(o) != [] && Positive(Weights(Claims(o))) && Total(Weights(Claims(o))) == TotalEnergy(o)
  {
    ClaimsAreProper(o);
    ClaimsHoldEnergies(o, "");
  }

  lemma OneIsPaid(reward: real, o: Obj<real>, a: string)
    requires reward > 0.0 && TotalEnergy(o) > 0.0
    ensures a in SharesOf(reward, Claims(o)) <==> Brings(o, a)
    ensures a in SharesOf(reward, Claims(o)) ==>
              Total(Weights(Claims(o))) > 0.0 &&
              SharesOf(reward, Claims(o))[a] == AmountFor(reward, Claims(o), |Claims(o)|, a)
  {
    SomeClaims(o);
    ClaimsOfEarners(o, a);
    ShareMapAmounts(reward, Claims(o), |Claims(o)|);
  }

  lemma PartIsExact(reward: real, energy: real, total: real)
    requires total > 0.0
    ensures Part(reward, energy, total) == Exact(reward, energy, total)
  {
  }

  lemma AmountInProportion(reward: real, o: Obj<real>, a: string)
    requires reward > 0.0 && TotalEnergy(o) > 0.0
    ensures Total(Weights(Claims(o))) > 0.0
    ensures InProportion(o, reward, a, AmountFor(reward, Claims(o), |Claims(o)|, a))
  {
    SomeClaims(o);
    ClaimsHoldEnergies(o, a);
    AmountBounds(reward, Claims(o), a);
    PartIsExact(reward, EnergyOf(o, a), TotalEnergy(o));
  }

  /** The split of a positive reward pays everybody who brings energy, in proportion to it. */
  lemma SplitPaysByEnergy(reward: real, o: Obj<real>)
    requires reward > 0.0 && TotalEnergy(o) > 0.0
    ensures PaidByEnergy(o, reward, SharesOf(reward, Claims(o)))
  {
    var shares := SharesOf(reward, Claims(o));
    forall a: string ensures a in shares <==> Brings(o, a) {
      OneIsPaid(reward, o, a);
    }
    forall a | a in shares ensures InProportion(o, reward, a, shares[a]) {
      OneIsPaid(reward, o, a);
      AmountInProportion(reward, o, a);
    }
  }

  lemma {:induction false} EnergyIsPositive(o: Obj<real>)
    ensures TotalEnergy(o) >= 0.0
    ensures TotalEnergy(o) > 0.0 <==> exists i :: 0 <= i < |o| && Earns(o[i])
  {
    if o != [] {
      var front := o[..|o| - 1];
      EnergyIsPositive(front);
      assert forall i :: 0 <= i < |front| ==> front[i] == o[i];
      assert Earns(o[|o| - 1]) ==> TotalEnergy(o) > 0.0;
    }
  }

  /** The shares come to the reward rounded to units, or to at most half a unit more for each entry but
      the last. */
  ghost predicate ComesToReward(o: Obj<real>, reward: real, shares: map<string, int>) {
    && ToFixed(reward) <= MapSum(shares)
    && (MapSum(shares) as real <= reward + (Earners(o) - 1) as real / 2.0 || MapSum(shares) == ToFixed(reward))
  }

  lemma SharesComeToReward(reward: real, o: Obj<real>)
    requires reward > 0.0 && TotalEnergy(o) > 0.0
    ensures ComesToReward(o, reward, SharesOf(reward, Claims(o)))
  {
    SomeClaims(o);
    ClaimsHoldEnergies(o, "");
    PaidBounds(reward, Weights(Claims(o)));
    ShareMapSum(reward, Claims(o));
  }

  // ---- what a settlement does to the ledger -----------------------------------------

  function RealsOf(wh: Obj<int>): Obj<real> {
    seq(|wh|, i requires 0 <= i < |wh| => Prop(wh[i].key, wh[i].value as real))
  }

  /** The energies a settlement goes by: those handed in, or those of the running round. */
  function Energies(l: Ledger, p: SettleParams): Obj<real> {
    if p.contributions.Some? then p.contributions.value
    else RealsOf(l.current.wh)
  }

  /** No settled round has this block hash, or there is none to go by. */
  ghost predicate NewBlock(l: Ledger, p: SettleParams) {
    Trim(p.blockHash) == "" ||
    forall i :: 0 <= i < |l.rounds| && l.rounds[i].SettledRound? ==> l.rounds[i].blockHash != Trim(p.blockHash)
  }

  /** A block is settled if and only if it is new. */
  lemma SettledIffNew(l: Ledger, p: SettleParams)
    ensures var s := SettleCurrentRound(l, p);
            if NewBlock(l, p) then |s.rounds| == |l.rounds| + 1 && s.rounds[..|l.rounds|] == l.rounds else s == l
  {
  }

  lemma NewIffNotDuplicate(l: Ledger, p: SettleParams)
    ensures NewBlock(l, p) <==> !IsDuplicate(l, p)
  {
  }

  /** The record of a new block, the round that begins after it, and the balances. */
  lemma SettlementRecord(l: Ledger, p: SettleParams)
    requires NewBlock(l, p)
    ensures var s, n := SettleCurrentRound(l, p), |l.rounds|;
            && |s.rounds| == n + 1 && s.rounds[n].SettledRound?
            && var r := s.rounds[n];
               && r.id == l.current.id && r.blockHash == Trim(p.blockHash) && r.minedAddress == Trim(p.minedAddress)
               && r.blockHeight == (if p.blockHeight < 0 then 0 else p.blockHeight)
               && r.matureAt == r.blockHeight + 100 && r.maturedAt == None
               && r.reward == (match p.rewardCoins
                               case Some(coins) => if coins < 0.0 then 0.0 else coins
                               case None => Emission.RewardAt(n) as real)
    ensures var s := SettleCurrentRound(l, p);
            && s.nextRoundId == (if l.nextRoundId < 1 then 2 else l.nextRoundId + 1)
            && s.current == CurrentRound(s.nextRoundId, [], map[], map[], map[])
    ensures var s := SettleCurrentRound(l, p);
            forall a :: BalanceOf(s.balances, a) ==
                          Balance(BalanceOf(l.balances, a).pending + ShareOf(s.rounds[|l.rounds|], a),
                                  BalanceOf(l.balances, a).matured)
  {
    NewRoundProper(l, p);
    forall a: string { SettleCredits(l, p, a); }
  }

  lemma ClaimsOfEnergies(l: Ledger, p: SettleParams)
    ensures var o, mined := Energies(l, p), Trim(p.minedAddress);
            && (TotalEnergy(o) > 0.0 ==> SettleClaims(l, p) == Claims(o))
            && (TotalEnergy(o) <= 0.0 ==> SettleClaims(l, p) == if mined != "" then [Claim(mined, 1.0)] else [])
  {
    var o := Energies(l, p);
    assert p.contributions == None ==> o == AsReals(l.current.wh);
    ClaimsHoldEnergies(o, "");
    ClaimsAreProper(o);
    TotalPositive(Weights(Claims(o)));
    assert |Weights(Claims(o))| == |Claims(o)|;
  }

  lemma SoleMiner(l: Ledger, p: SettleParams)
    requires NewBlock(l, p) && TotalEnergy(Energies(l, p)) <= 0.0
    ensures var r, mined := NewRound(l, p), Trim(p.minedAddress);
            && r.shares == (if r.reward > 0.0 && mined != "" then map[mined := ToFixed(r.reward)] else map[])
            && r.totalWh == if mined != "" then 1 else 0
  {
    var o, mined := Energies(l, p), Trim(p.minedAddress);
    ClaimsOfEnergies(l, p);
    if mined != "" {
      OneClaimWeighs(mined);
      if RewardFor(l, p) > 0.0 {
        SoleClaim(RewardFor(l, p), mined);
      }
    }
    ToFixedWhole(1);
  }

  lemma OneClaimWeighs(a: string)
    ensures Total(Weights([Claim(a, 1.0)])) == 1.0
  {
    assert [Claim(a, 1.0)] == [] + [Claim(a, 1.0)];
    WeightsAppend([], Claim(a, 1.0));
  }

  lemma EnergyIsPaid(l: Ledger, p: SettleParams)
    requires NewBlock(l, p) && TotalEnergy(Energies(l, p)) > 0.0
    ensures var r, o := NewRound(l, p), Energies(l, p);
            && (r.reward > 0.0 ==> PaidByEnergy(o, r.reward, r.shares) && ComesToReward(o, r.reward, r.shares))
            && (r.reward <= 0.0 ==> r.shares == map[])
            && -0.5 <= r.totalWh as real - TotalEnergy(o) <= 0.5
  {
    var o := Energies(l, p);
    ClaimsOfEnergies(l, p);
    SomeClaims(o);
    ToFixedError(TotalEnergy(o));
    if RewardFor(l, p) > 0.0 {
      SplitPaysByEnergy(RewardFor(l, p), o);
      SharesComeToReward(RewardFor(l, p), o);
    }
  }

  /** The record of a settled block pays exactly those who bring energy, in proportion; if nobody does,
      it pays the address that mined the block alone. */
  ghost predicate PaysByEnergy(l: Ledger, p: SettleParams, r: Round) {
    var o, mined := Energies(l, p), Trim(p.minedAddress);
    && r.SettledRound?
    && (TotalEnergy(o) > 0.0 <==> exists i :: 0 <= i < |o| && Earns(o[i]))
    && (r.reward <= 0.0 ==> r.shares == map[])
    && (r.reward > 0.0 && TotalEnergy(o) > 0.0 ==>
          PaidByEnergy(o, r.reward, r.shares) && ComesToReward(o, r.reward, r.shares))
    && (r.reward > 0.0 && TotalEnergy(o) <= 0.0 ==>
          r.shares == if mined != "" then map[mined := ToFixed(r.reward)] else map[])
    && (if TotalEnergy(o) > 0.0 then -0.5 <= r.totalWh as real - TotalEnergy(o) <= 0.5
        else r.totalWh == if mined != "" then 1 else 0)
  }

  lemma NewRoundPaysByEnergy(l: Ledger, p: SettleParams)
    requires NewBlock(l, p)
    ensures PaysByEnergy(l, p, NewRound(l, p))
  {
    EnergyIsPositive(Energies(l, p));
    if TotalEnergy(Energies(l, p)) > 0.0 {
      EnergyIsPaid(l, p);
    } else {
      SoleMiner(l, p);
    }
  }

  /** Settling a new block pays by energy. */
  lemma SettlementPaysByEnergy(l: Ledger, p: SettleParams)
    requires NewBlock(l, p)
    ensures var s := SettleCurrentRound(l, p);
            |s.rounds| == |l.rounds| + 1 && PaysByEnergy(l, p, s.rounds[|l.rounds|])
  {
    NewRoundPaysByEnergy(l, p);
  }

  /** The second splitter pays the same: those who bring energy, in proportion, or else the fallback
      address, taken as it is and with the reward as it is. */
  lemma RewardMapPaysByEnergy(reward: real, o: Obj<real>, fallbackAddress: string)
    ensures var m := RewardMapOf(reward, o, fallbackAddress);
            if reward <= 0.0 then m == map[]
            else if TotalEnergy(o) > 0.0 then
              && (forall a: string :: a in m <==> Brings(o, a))
              && (forall a :: a in m ==> m[a] == m[a].Floor as real && InProportion(o, reward, a, m[a].Floor))
            else if fallbackAddress != "" then m == map[fallbackAddress := reward]
            else m == map[]
  {
    if reward > 0.0 {
      ClaimsHoldEnergies(o, "");
      if TotalEnergy(o) > 0.0 {
        SplitPaysByEnergy(reward, o);
      }
    }
  }

  // ---- the energies of the running round --------------------------------------------

  lemma {:induction false} LookupAppend(o: Obj<int>, p: Prop<int>, a: string)
    ensures Lookup(o + [p], a) ==
            if Lookup(o, a).Some? then Lookup(o, a) else if p.key == a then Some(p.value) else None
  {
    if o != [] {
      LookupAppend(o[1..], p, a);
      assert (o + [p])[1..] == o[1..] + [p];
    }
  }

  /** Stored totals: every address once and trimmed, none negative. */
  ghost predicate ProperTotals(wh: Obj<int>) {
    ProperKeys(wh) && forall i :: 0 <= i < |wh| ==> wh[i].value >= 0
  }

  function TotalOf(wh: Obj<int>, a: string): int {
    match Lookup(wh, a)
    case Some(v) => v
    case None => 0
  }

  lemma ProperFront(wh: Obj<int>)
    requires ProperTotals(wh) && wh != []
    ensures ProperTotals(wh[..|wh| - 1]) && !Has(wh[..|wh| - 1], wh[|wh| - 1].key)
    ensures Trim(wh[|wh| - 1].key) == wh[|wh| - 1].key != ""
  {
    var front, p := wh[..|wh| - 1], wh[|wh| - 1];
    assert Keys(wh) == Keys(front) + [p.key];
    HasIsKey(front, p.key);
    TrimFixed(p.key);
  }

  /** One address's energy, and its entries. */
  lemma {:induction false} RunningEnergy(wh: Obj<int>, a: string)
    requires ProperTotals(wh)
    ensures EnergyOf(RealsOf(wh), a) == TotalOf(wh, a) as real && TotalOf(wh, a) >= 0
    ensures EntriesOf(RealsOf(wh), a) == if TotalOf(wh, a) > 0 then 1 else 0
    ensures TotalEnergy(RealsOf(wh)) == SumWh(wh) as real
    ensures Brings(RealsOf(wh), a) <==> TotalOf(wh, a) > 0
  {
    if wh != [] {
      var front, p := wh[..|wh| - 1], wh[|wh| - 1];
      ProperFront(wh);
      RunningEnergy(front, a);
      LookupAppend(front, p, a);
      assert wh == front + [p] && RealsOf(wh)[..|front|] == RealsOf(front);
      assert RealsOf(wh) == RealsOf(front) + [Prop(p.key, p.value as real)];
      BringsAppended(RealsOf(front), Prop(p.key, p.value as real), a);
    }
  }

  lemma {:induction false} ReachableTotals(ops: seq<Op>)
    ensures ProperTotals(Run(DefaultLedger(), ops).current.wh)
  {
    ReachableConsistent(ops);
    ReachableKeys(ops);
    var r := Run(DefaultLedger(), ops).current;
    forall i | 0 <= i < |r.wh| ensures r.wh[i].value >= 0 {
      LookupAt(r.wh, i);
      assert Wh(r, r.wh[i].key) >= 0;
    }
  }

  lemma {:induction false} LookupAt(o: Obj<int>, i: nat)
    requires DistinctKeys(o) && i < |o|
    ensures Lookup(o, o[i].key) == Some(o[i].value)
  {
    if i > 0 {
      assert o[0].key != o[i].key;
      LookupAt(o[1..], i - 1);
    }
  }

  lemma {:induction false} ReachableKeys(ops: seq<Op>)
    ensures ProperKeys(Run(DefaultLedger(), ops).current.wh)
  {
    if ops != [] {
      var l, op := Run(DefaultLedger(), ops[..|ops| - 1]), ops[|ops| - 1];
      ReachableKeys(ops[..|ops| - 1]);
      match op
      case Add(address, deltaWh, now) => AddKeepsKeys(l.current, address, deltaWh, now);
      case Set(address, totalWh, at, message, signature, now) =>
        SetKeepsKeys(l.current, address, totalWh, at, message, signature, now);
      case Begin(roundId) =>
      case Archive =>
      case Settle(params) =>
      case Sync(height) =>
    }
  }

  /** The part of a reward that goes with `wh` out of `total`, to within half a unit. */
  ghost predicate NearestPart(amount: int, reward: real, wh: int, total: int)
    requires total > 0
  {
    -0.5 <= amount as real - Part(reward, wh as real, total as real) <= 0.5
  }

  lemma ProportionOfTotals(wh: Obj<int>, reward: real, a: string, amount: int)
    requires ProperTotals(wh) && SumWh(wh) > 0 && TotalEnergy(RealsOf(wh)) > 0.0
    requires InProportion(RealsOf(wh), reward, a, amount) && a != LastEarner(RealsOf(wh)) && TotalOf(wh, a) > 0
    ensures NearestPart(amount, reward, TotalOf(wh, a), SumWh(wh))
  {
    RunningEnergy(wh, a);
  }

  lemma TotalsPaid(l: Ledger, p: SettleParams, a: string)
    requires NewBlock(l, p) && p.contributions == None && ProperTotals(l.current.wh) && SumWh(l.current.wh) > 0
    ensures var r := NewRound(l, p);
            r.reward > 0.0 ==>
              && (a in r.shares <==> TotalOf(l.current.wh, a) > 0)
              && (a in r.shares && a != LastEarner(RealsOf(l.current.wh)) ==>
                    NearestPart(r.shares[a], r.reward, TotalOf(l.current.wh, a), SumWh(l.current.wh)))
  {
    RunningEnergy(l.current.wh, a);
    assert Energies(l, p) == RealsOf(l.current.wh);
    EnergyIsPaid(l, p);
    var r := NewRound(l, p);
    if r.reward > 0.0 && a in r.shares && a != LastEarner(RealsOf(l.current.wh)) {
      ProportionOfTotals(l.current.wh, r.reward, a, r.shares[a]);
    }
  }

  /** In every reachable ledger a new block without energies of its own pays each address its running
      total over the sum of all of them: to within half a unit, but for the address that is last. */
  lemma RunningRoundPaid(ops: seq<Op>, p: SettleParams, a: string)
    requires NewBlock(Run(DefaultLedger(), ops), p) && p.contributions == None
    requires SumWh(Run(DefaultLedger(), ops).current.wh) > 0
    ensures var l := Run(DefaultLedger(), ops);
            && |SettleCurrentRound(l, p).rounds| == |l.rounds| + 1
            && SettleCurrentRound(l, p).rounds[|l.rounds|].SettledRound?
    ensures var l := Run(DefaultLedger(), ops);
            var r := SettleCurrentRound(l, p).rounds[|l.rounds|];
            r.reward > 0.0 ==>
              && (a in r.shares <==> Wh(l.current, a) > 0)
              && (a in r.shares && a != LastEarner(RealsOf(l.current.wh)) ==>
                    NearestPart(r.shares[a], r.reward, Wh(l.current, a), SumWh(l.current.wh)))
  {
    var l := Run(DefaultLedger(), ops);
    ReachableTotals(ops);
    TotalsPaid(l, p, a);
    assert TotalOf(l.current.wh, a) == Wh(l.current, a);
  }
}
