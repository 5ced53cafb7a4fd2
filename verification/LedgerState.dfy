/** The state kept by `createRoundLedger` (round-ledger.js) as a value, what each operation makes of
    it, and what every run of operations keeps. */
module LedgerState {
  import opened Rounding
  import opened Text
  import opened JsObject
  import opened Contributions
  import opened RewardSplit
  import Emission

  const MATURITY_DEPTH: nat := 100

  datatype Balance = Balance(pending: int, matured: int)

  datatype Round =
    | SettledRound(
        id: int, reward: real, totalWh: int, shares: map<string, int>, blockHash: string,
        blockHeight: nat, minedAddress: string, matureAt: nat, maturedAt: Option<nat>)
    | ArchivedRound(snapshot: CurrentRound, totalWh: int, maturedAt: Option<nat>)

  datatype Ledger = Ledger(nextRoundId: int, current: CurrentRound, rounds: seq<Round>, balances: map<string, Balance>)

  function DefaultLedger(): Ledger {
    Ledger(1, EmptyRound(1), [], map[])
  }

  /** The test `if (round.maturedAtHeight)`: a recorded height 0 counts as not matured. */
  predicate IsMatured(r: Round) {
    r.maturedAt.Some? && r.maturedAt.value != 0
  }

  function MatureAt(r: Round): nat {
    if r.SettledRound? then r.matureAt else 0
  }

  function Shares(r: Round): map<string, int> {
    if r.SettledRound? then r.shares else map[]
  }

  function ShareOf(r: Round, a: string): int {
    if a in Shares(r) then Shares(r)[a] else 0
  }

  /** Due to mature at this height. */
  predicate Ripe(r: Round, height: nat) {
    !IsMatured(r) && MatureAt(r) <= height
  }

  function BalanceOf(balances: map<string, Balance>, a: string): Balance {
    if a in balances then balances[a] else Balance(0, 0)
  }

  /** Sum of an address's shares in the rounds that are (not) matured. */
  function Owed(rounds: seq<Round>, a: string, matured: bool): int {
    if rounds == [] then 0
    else
      var r := rounds[|rounds| - 1];
      Owed(rounds[..|rounds| - 1], a, matured) + if IsMatured(r) == matured then ShareOf(r, a) else 0
  }

  /** Sum of an address's shares in the rounds that ripen at this height. */
  function Moved(rounds: seq<Round>, height: nat, a: string): int {
    if rounds == [] then 0
    else
      var r := rounds[|rounds| - 1];
      Moved(rounds[..|rounds| - 1], height, a) + if Ripe(r, height) then ShareOf(r, a) else 0
  }

  // ---- operations -------------------------------------------------------------------

  function BeginRound(l: Ledger, roundId: int): Ledger {
    var next := if roundId > 1 then roundId else 1;
    if l.current.id == next then l else l.(nextRoundId := next, current := EmptyRound(next))
  }

  function ArchiveRecord(r: CurrentRound): Round {
    ArchivedRound(r, SumWh(r.wh), None)
  }

  function ArchiveCurrentRound(l: Ledger): Ledger {
    if l.current.wh == [] then l else l.(rounds := l.rounds + [ArchiveRecord(l.current)])
  }

  datatype SettleParams = SettleParams(
    minedAddress: string, blockHash: string, blockHeight: int,
    rewardCoins: Option<real>, contributions: Option<Obj<real>>)

  predicate HashKnown(rounds: seq<Round>, hash: string) {
    exists i :: 0 <= i < |rounds| && rounds[i].SettledRound? && rounds[i].blockHash == hash
  }

  predicate IsDuplicate(l: Ledger, p: SettleParams) {
    Trim(p.blockHash) != "" && HashKnown(l.rounds, Trim(p.blockHash))
  }

  function RewardFor(l: Ledger, p: SettleParams): real {
    match p.rewardCoins
    case Some(coins) => Max0(coins)
    case None => Emission.RewardAt(|l.rounds|) as real
  }

  function SettleClaims(l: Ledger, p: SettleParams): seq<Claim> {
    var claims := Claims(if p.contributions.Some? then p.contributions.value else AsReals(l.current.wh));
    if Total(Weights(claims)) <= 0.0 && Trim(p.minedAddress) != "" then claims + [Claim(Trim(p.minedAddress), 1.0)]
    else claims
  }

  function NewRound(l: Ledger, p: SettleParams): Round {
    var claims := SettleClaims(l, p);
    SettledRound(
      l.current.id, RewardFor(l, p), ToFixed(Total(Weights(claims))), SharesOf(RewardFor(l, p), claims),
      Trim(p.blockHash),
      ClampNat(p.blockHeight), Trim(p.minedAddress), ClampNat(p.blockHeight) + MATURITY_DEPTH, None)
  }

  function Credit(balances: map<string, Balance>, shares: map<string, int>): map<string, Balance> {
    map a | a in balances.Keys + (set b | b in shares && shares[b] > 0) ::
      Balance(BalanceOf(balances, a).pending + (if a in shares then shares[a] else 0), BalanceOf(balances, a).matured)
  }

  function SettleCurrentRound(l: Ledger, p: SettleParams): Ledger {
    if IsDuplicate(l, p) then l
    else
      var next := (if l.nextRoundId > 1 then l.nextRoundId else 1) + 1;
      Ledger(next, EmptyRound(next), l.rounds + [NewRound(l, p)], Credit(l.balances, NewRound(l, p).shares))
  }

  function Matured(r: Round, height: nat): Round {
    match r
    case SettledRound(id, reward, totalWh, shares, blockHash, blockHeight, minedAddress, matureAt, _) =>
      SettledRound(id, reward, totalWh, shares, blockHash, blockHeight, minedAddress, matureAt, Some(height))
    case ArchivedRound(snapshot, totalWh, _) => ArchivedRound(snapshot, totalWh, Some(height))
  }

  function Mature(r: Round, height: nat): Round {
    if Ripe(r, height) then Matured(r, height) else r
  }

  function MatureAll(rounds: seq<Round>, height: nat): seq<Round> {
    seq(|rounds|, i requires 0 <= i < |rounds| => Mature(rounds[i], height))
  }

  /** Maturing moves exactly the shares of the ripe rounds; nothing is cut off at zero. */
  function SyncMaturity(l: Ledger, currentHeight: int): Ledger {
    var height := ClampNat(currentHeight);
    l.(rounds := MatureAll(l.rounds, height),
       balances := map a | a in l.balances ::
         Balance(l.balances[a].pending - Moved(l.rounds, height, a),
                 l.balances[a].matured + Moved(l.rounds, height, a)))
  }

  /** A round of another id starts with nothing in any of its objects; the same id goes on. Rounds and
      balances stay. */
  lemma BeginClears(l: Ledger, roundId: int)
    ensures var s, id := BeginRound(l, roundId), if roundId < 1 then 1 else roundId;
            && s.rounds == l.rounds && s.balances == l.balances && s.current.id == id
            && (if l.current.id == id then s == l
                else s.current == CurrentRound(id, [], map[], map[], map[]) && s.nextRoundId == id)
  {
  }

  /** A round with contributions is archived, whole and once for every call; it goes on running. */
  lemma ArchiveRecords(l: Ledger)
    ensures var s := ArchiveCurrentRound(l);
            && s.current == l.current && s.balances == l.balances && s.nextRoundId == l.nextRoundId
            && (if Keys(l.current.wh) == [] then s.rounds == l.rounds
                else && |s.rounds| == |l.rounds| + 1 && s.rounds[..|l.rounds|] == l.rounds
                     && s.rounds[|l.rounds|].ArchivedRound? && s.rounds[|l.rounds|].snapshot == l.current
                     && s.rounds[|l.rounds|].maturedAt == None)
  {
    assert |Keys(l.current.wh)| == |l.current.wh|;
  }

  // ---- the invariant ----------------------------------------------------------------

  ghost predicate ProperRound(r: Round) {
    r.SettledRound? ==>
      && r.matureAt == r.blockHeight + MATURITY_DEPTH
      && (r.maturedAt.Some? ==> r.maturedAt.value >= r.matureAt)
      && forall a :: a in r.shares ==> r.shares[a] >= 0 && a != "" && Trimmed(a)
  }

  ghost predicate ProperRounds(rounds: seq<Round>) {
    forall i :: 0 <= i < |rounds| ==> ProperRound(rounds[i])
  }

  /** No block hash is settled twice. */
  ghost predicate HashesDistinct(rounds: seq<Round>) {
    forall i, j :: 0 <= i < j < |rounds| && rounds[i].SettledRound? && rounds[j].SettledRound?
                   && rounds[i].blockHash != "" ==>
                     rounds[i].blockHash != rounds[j].blockHash
  }

  ghost predicate BalancesExact(l: Ledger) {
    forall a: string :: BalanceOf(l.balances, a) == Balance(Owed(l.rounds, a, false), Owed(l.rounds, a, true))
  }

  ghost predicate Consistent(l: Ledger) {
    NonNegative(l.current) && ProperRounds(l.rounds) && HashesDistinct(l.rounds) && BalancesExact(l)
  }

  lemma {:induction false} OwedBounds(rounds: seq<Round>, height: nat, a: string)
    requires ProperRounds(rounds)
    ensures 0 <= Moved(rounds, height, a) <= Owed(rounds, a, false)
    ensures 0 <= Owed(rounds, a, true)
  {
    if rounds != [] {
      assert ProperRound(rounds[|rounds| - 1]);
      OwedBounds(rounds[..|rounds| - 1], height, a);
    }
  }

  /** A settled round ripens at a positive height, so it is then matured for good. */
  lemma MatureOnce(r: Round, height: nat)
    requires ProperRound(r)
    ensures ProperRound(Mature(r, height))
    ensures r.SettledRound? && Ripe(r, height) ==> IsMatured(Mature(r, height))
    ensures r.SettledRound? && IsMatured(r) ==> Mature(r, height) == r
  {
  }

  lemma {:induction false} MatureAllOwed(rounds: seq<Round>, height: nat, a: string)
    requires ProperRounds(rounds)
    ensures Owed(MatureAll(rounds, height), a, false) == Owed(rounds, a, false) - Moved(rounds, height, a)
    ensures Owed(MatureAll(rounds, height), a, true) == Owed(rounds, a, true) + Moved(rounds, height, a)
  {
    if rounds != [] {
      var front, r := rounds[..|rounds| - 1], rounds[|rounds| - 1];
      MatureAllOwed(front, height, a);
      MatureOnce(r, height);
      var all := MatureAll(rounds, height);
      assert all[..|all| - 1] == MatureAll(front, height);
      assert all[|all| - 1] == Mature(r, height);
    }
  }

  lemma SyncKeepsConsistent(l: Ledger, currentHeight: int)
    requires Consistent(l)
    ensures Consistent(SyncMaturity(l, currentHeight))
  {
    var height := ClampNat(currentHeight);
    var s := SyncMaturity(l, currentHeight);
    forall i | 0 <= i < |s.rounds| ensures ProperRound(s.rounds[i]) {
      MatureOnce(l.rounds[i], height);
    }
    forall a: string ensures BalanceOf(s.balances, a) == Balance(Owed(s.rounds, a, false), Owed(s.rounds, a, true)) {
      MatureAllOwed(l.rounds, height, a);
      OwedBounds(l.rounds, height, a);
      assert BalanceOf(l.balances, a) == Balance(Owed(l.rounds, a, false), Owed(l.rounds, a, true));
    }
  }

  lemma OwedAppend(rounds: seq<Round>, r: Round, a: string, matured: bool)
    ensures Owed(rounds + [r], a, matured) ==
            Owed(rounds, a, matured) + if IsMatured(r) == matured then ShareOf(r, a) else 0
  {
    assert (rounds + [r])[..|rounds|] == rounds;
  }

  lemma ClaimsOfSettle(l: Ledger, p: SettleParams)
    ensures var claims := SettleClaims(l, p);
            && Positive(Weights(claims))
            && forall i :: 0 <= i < |claims| ==> claims[i].address != "" && Trimmed(claims[i].address)
  {
    var contributions := if p.contributions.Some? then p.contributions.value else AsReals(l.current.wh);
    ClaimsAreProper(contributions);
    TrimIsTrimmed(p.minedAddress);
    var claims := SettleClaims(l, p);
    forall i | 0 <= i < |claims| ensures claims[i].wh > 0.0 && claims[i].address != "" && Trimmed(claims[i].address) {
      assert i < |Claims(contributions)| ==> claims[i] in Claims(contributions);
    }
  }

  lemma NewRoundProper(l: Ledger, p: SettleParams)
    ensures ProperRound(NewRound(l, p)) && !IsMatured(NewRound(l, p))
  {
    var claims := SettleClaims(l, p);
    ClaimsOfSettle(l, p);
    if RewardFor(l, p) > 0.0 && Total(Weights(claims)) > 0.0 {
      ShareMapNonNegative(RewardFor(l, p), claims, |claims|);
      ShareMapAmounts(RewardFor(l, p), claims, |claims|);
    }
  }

  lemma SettleKeepsConsistent(l: Ledger, p: SettleParams)
    requires Consistent(l)
    ensures Consistent(SettleCurrentRound(l, p))
  {
    if !IsDuplicate(l, p) {
      var r, s := NewRound(l, p), SettleCurrentRound(l, p);
      NewRoundProper(l, p);
      forall a: string ensures BalanceOf(s.balances, a) == Balance(Owed(s.rounds, a, false), Owed(s.rounds, a, true)) {
        OwedAppend(l.rounds, r, a, false);
        OwedAppend(l.rounds, r, a, true);
        assert BalanceOf(l.balances, a) == Balance(Owed(l.rounds, a, false), Owed(l.rounds, a, true));
      }
    }
  }

  lemma ArchiveKeepsConsistent(l: Ledger)
    requires Consistent(l)
    ensures Consistent(ArchiveCurrentRound(l))
  {
    var s := ArchiveCurrentRound(l);
    forall a: string ensures BalanceOf(s.balances, a) == Balance(Owed(s.rounds, a, false), Owed(s.rounds, a, true)) {
      OwedAppend(l.rounds, ArchiveRecord(l.current), a, false);
      OwedAppend(l.rounds, ArchiveRecord(l.current), a, true);
      assert BalanceOf(l.balances, a) == Balance(Owed(l.rounds, a, false), Owed(l.rounds, a, true));
    }
  }

  // ---- runs -------------------------------------------------------------------------

  datatype Op =
    | Add(address: string, deltaWh: real, now: int)
    | Set(address: string, totalWh: real, at: int, message: string, signature: string, now: int)
    | Begin(roundId: int)
    | Archive
    | Settle(params: SettleParams)
    | Sync(height: int)

  function Step(l: Ledger, op: Op): Ledger {
    match op
    case Add(address, deltaWh, now) => l.(current := AddContribution(l.current, address, deltaWh, now))
    case Set(address, totalWh, at, message, signature, now) =>
      l.(current := SetContribution(l.current, address, totalWh, at, message, signature, now))
    case Begin(roundId) => BeginRound(l, roundId)
    case Archive => ArchiveCurrentRound(l)
    case Settle(params) => SettleCurrentRound(l, params)
    case Sync(height) => SyncMaturity(l, height)
  }

  function Run(l: Ledger, ops: seq<Op>): Ledger {
    if ops == [] then l else Step(Run(l, ops[..|ops| - 1]), ops[|ops| - 1])
  }

  lemma StepKeepsConsistent(l: Ledger, op: Op)
    requires Consistent(l)
    ensures Consistent(Step(l, op))
  {
    match op
    case Add(address, deltaWh, now) => AddNeverLowers(l.current, address, deltaWh, now);
    case Set(address, totalWh, at, message, signature, now) =>
      SetNeverLowers(l.current, address, totalWh, at, message, signature, now);
    case Begin(roundId) =>
    case Archive => ArchiveKeepsConsistent(l);
    case Settle(params) => SettleKeepsConsistent(l, params);
    case Sync(height) => SyncKeepsConsistent(l, height);
  }

  /** In every reachable state each address's pending coins are its shares in unmatured settled
      rounds, its matured coins those in matured ones, and no block hash is settled twice. */
  lemma {:induction false} ReachableConsistent(ops: seq<Op>)
    ensures Consistent(Run(DefaultLedger(), ops))
  {
    if ops == [] {
      assert forall a: string :: BalanceOf(map[], a) == Balance(Owed([], a, false), Owed([], a, true));
    } else {
      ReachableConsistent(ops[..|ops| - 1]);
      StepKeepsConsistent(Run(DefaultLedger(), ops[..|ops| - 1]), ops[|ops| - 1]);
    }
  }

  // ---- rounds are only added, and mature once ---------------------------------------

  /** A settled round may change in one way only: from unmatured to matured. */
  ghost predicate Evolves(r: Round, s: Round) {
    || s == r
    || (!IsMatured(r) && s.maturedAt.Some? && s.maturedAt.value >= MatureAt(r) && s == Matured(r, s.maturedAt.value))
  }

  ghost predicate RoundsGrow(old_: seq<Round>, new_: seq<Round>) {
    |old_| <= |new_| && forall i :: 0 <= i < |old_| ==> Evolves(old_[i], new_[i])
  }

  lemma StepGrows(l: Ledger, op: Op)
    requires Consistent(l)
    ensures RoundsGrow(l.rounds, Step(l, op).rounds)
  {
    if op.Sync? {
      forall i | 0 <= i < |l.rounds| ensures Evolves(l.rounds[i], Step(l, op).rounds[i]) {
        assert ProperRound(l.rounds[i]);
      }
    }
  }

  /** Once matured, a settled round stays as it is through every later step, whatever the heights. */
  lemma {:induction false} MaturedForGood(l: Ledger, ops: seq<Op>)
    requires Consistent(l)
    ensures Consistent(Run(l, ops)) && RoundsGrow(l.rounds, Run(l, ops).rounds)
    ensures forall i :: 0 <= i < |l.rounds| && l.rounds[i].SettledRound? && IsMatured(l.rounds[i]) ==>
                          Run(l, ops).rounds[i] == l.rounds[i]
  {
    if ops != [] {
      var front := ops[..|ops| - 1];
      MaturedForGood(l, front);
      StepKeepsConsistent(Run(l, front), ops[|ops| - 1]);
      StepGrows(Run(l, front), ops[|ops| - 1]);
      var mid, end := Run(l, front).rounds, Run(l, ops).rounds;
      forall i | 0 <= i < |l.rounds| ensures Evolves(l.rounds[i], end[i]) {
        assert Evolves(l.rounds[i], mid[i]) && Evolves(mid[i], end[i]);
        assert ProperRound(mid[i]) && ProperRound(l.rounds[i]);
      }
    }
  }

  /** Settling a block hash that is already there changes nothing, whatever else the call says. */
  lemma SettleOnce(l: Ledger, p: SettleParams, q: SettleParams)
    requires Trim(p.blockHash) == Trim(q.blockHash) && Trim(p.blockHash) != ""
    ensures SettleCurrentRound(SettleCurrentRound(l, p), q) == SettleCurrentRound(l, p)
  {
    var s := SettleCurrentRound(l, p);
    if !IsDuplicate(l, p) {
      assert s.rounds[|l.rounds|].blockHash == Trim(q.blockHash);
    }
  }

  // ---- the supply -------------------------------------------------------------------

  /** Reward taken from the default schedule by one step. */
  function DefaultReward(l: Ledger, op: Op): nat {
    if op.Settle? && !IsDuplicate(l, op.params) && op.params.rewardCoins == None
    then Emission.RewardAt(|l.rounds|) else 0
  }

  function DefaultRewards(l: Ledger, ops: seq<Op>): nat {
    if ops == [] then 0
    else DefaultRewards(l, ops[..|ops| - 1]) + DefaultReward(Run(l, ops[..|ops| - 1]), ops[|ops| - 1])
  }

  /** Each default settlement uses an index of its own. */
  lemma {:induction false} DefaultRewardsBound(ops: seq<Op>)
    ensures DefaultRewards(DefaultLedger(), ops) <= Emission.RewardSum(0, |Run(DefaultLedger(), ops).rounds|)
  {
    if ops != [] {
      var front := ops[..|ops| - 1];
      DefaultRewardsBound(front);
      ReachableConsistent(front);
      var l := Run(DefaultLedger(), front);
      StepGrows(l, ops[|ops| - 1]);
      var m, n := |l.rounds|, |Step(l, ops[|ops| - 1]).rounds|;
      Emission.SumSplit(Emission.RewardAt, 0, m, n);
    }
  }

  /** Over any run, the default rewards add up to at most 21,000,000 coins. */
  lemma SupplyNeverExceeded(ops: seq<Op>)
    ensures DefaultRewards(DefaultLedger(), ops) <= Emission.MAX_SUPPLY
  {
    DefaultRewardsBound(ops);
    Emission.SupplyBound(|Run(DefaultLedger(), ops).rounds|);
  }

  // ---- what a settlement pays -------------------------------------------------------

  /** A new round with somebody to pay distributes its reward: at least the reward rounded to
      units, at most half a unit more for every claim but the last. */
  lemma SettlementPays(l: Ledger, p: SettleParams)
    requires RewardFor(l, p) > 0.0 && SettleClaims(l, p) != []
    ensures var n := |SettleClaims(l, p)|;
            var paid := MapSum(NewRound(l, p).shares);
            && ToFixed(RewardFor(l, p)) <= paid
            && (paid as real <= RewardFor(l, p) + (n - 1) as real / 2.0 || paid == ToFixed(RewardFor(l, p)))
  {
    var claims := SettleClaims(l, p);
    ClaimsOfSettle(l, p);
    PaidBounds(RewardFor(l, p), Weights(claims));
    ShareMapSum(RewardFor(l, p), claims);
  }

  lemma SyncCreditsNothing(l: Ledger, currentHeight: int, a: string)
    requires Consistent(l)
    ensures var before, after := BalanceOf(l.balances, a), BalanceOf(SyncMaturity(l, currentHeight).balances, a);
            after.pending + after.matured == before.pending + before.matured && after.matured >= before.matured
  {
    OwedBounds(l.rounds, ClampNat(currentHeight), a);
  }

  lemma SettleCredits(l: Ledger, p: SettleParams, a: string)
    requires !IsDuplicate(l, p)
    ensures var before, after := BalanceOf(l.balances, a), BalanceOf(SettleCurrentRound(l, p).balances, a);
            after.pending == before.pending + ShareOf(NewRound(l, p), a) && after.matured == before.matured
  {
    NewRoundProper(l, p);
  }

  /** Nothing but the settlement of a new block changes what an address owns in all. */
  lemma OnlySettlementCredits(l: Ledger, op: Op, a: string)
    requires Consistent(l)
    ensures var before, after := BalanceOf(l.balances, a), BalanceOf(Step(l, op).balances, a);
            after.pending + after.matured == before.pending + before.matured +
              if op.Settle? && !IsDuplicate(l, op.params) then ShareOf(NewRound(l, op.params), a) else 0
    ensures BalanceOf(Step(l, op).balances, a).matured >= BalanceOf(l.balances, a).matured
  {
    if op.Sync? {
      SyncCreditsNothing(l, op.height, a);
    } else if op.Settle? && !IsDuplicate(l, op.params) {
      SettleCredits(l, op.params, a);
    }
  }

  /** One turn of the crediting loop. */
  lemma CreditNext(balances: map<string, Balance>, shares: map<string, int>, remaining: set<string>, a: string)
    requires a in remaining && remaining <= shares.Keys && shares[a] >= 0
    ensures var before, after := Credit(balances, shares - remaining), Credit(balances, shares - (remaining - {a}));
            after == if shares[a] > 0
                     then before[a := Balance(BalanceOf(before, a).pending + shares[a], BalanceOf(before, a).matured)]
                     else before
  {
    var before, after := Credit(balances, shares - remaining), Credit(balances, shares - (remaining - {a}));
    assert after.Keys == before.Keys + if shares[a] > 0 then {a} else {};
    forall b | b in after && b != a ensures after[b] == before[b] {}
    assert a in after ==> after[a].pending == BalanceOf(balances, a).pending + shares[a];
    assert BalanceOf(before, a) == BalanceOf(balances, a);
  }

  // ---- steps of the maturing loop ---------------------------------------------------

  /** The balances once the rounds `done` have matured, and the shares `part` of the next one. */
  function Shifted(balances: map<string, Balance>, done: seq<Round>, height: nat, part: map<string, int>)
    : map<string, Balance>
  {
    map a | a in balances ::
      var moved := Moved(done, height, a) + if a in part then part[a] else 0;
      Balance(balances[a].pending - moved, balances[a].matured + moved)
  }

  function RipeCount(rounds: seq<Round>, height: nat): nat {
    if rounds == [] then 0
    else RipeCount(rounds[..|rounds| - 1], height) + if Ripe(rounds[|rounds| - 1], height) then 1 else 0
  }

  lemma RipeCountNext(rounds: seq<Round>, index: nat, height: nat)
    requires index < |rounds|
    ensures RipeCount(rounds[..index + 1], height) ==
            RipeCount(rounds[..index], height) + if Ripe(rounds[index], height) then 1 else 0
  {
    assert rounds[..index + 1][..index] == rounds[..index];
  }

  /** `SyncMaturity` when the rounds before `index` have been looked at. */
  function SyncPart(l: Ledger, height: nat, index: nat): Ledger
    requires index <= |l.rounds|
  {
    l.(rounds := MatureAll(l.rounds[..index], height) + l.rounds[index..],
       balances := Shifted(l.balances, l.rounds[..index], height, map[]))
  }

  lemma SyncPartStarts(l: Ledger, height: nat)
    ensures SyncPart(l, height, 0) == l
  {
    assert l.rounds[..0] == [] && l.rounds[0..] == l.rounds;
  }

  lemma SyncPartEnds(l: Ledger, currentHeight: int)
    ensures SyncPart(l, ClampNat(currentHeight), |l.rounds|) == SyncMaturity(l, currentHeight)
  {
    assert l.rounds[..|l.rounds|] == l.rounds && l.rounds[|l.rounds|..] == [];
  }

  lemma MatureAllNext(rounds: seq<Round>, index: nat, height: nat)
    requires index < |rounds|
    ensures var before := MatureAll(rounds[..index], height) + rounds[index..];
            && before[index] == rounds[index]
            && MatureAll(rounds[..index + 1], height) + rounds[index + 1..] ==
                 before[index := Mature(rounds[index], height)]
  {
  }

  /** One more round looked at: if it is ripe, it matures and its shares move. */
  lemma SyncPartNext(l: Ledger, height: nat, index: nat)
    requires index < |l.rounds|
    ensures var part, r := SyncPart(l, height, index), l.rounds[index];
            && part.rounds[index] == r
            && SyncPart(l, height, index + 1) ==
                 if Ripe(r, height)
                 then part.(rounds := part.rounds[index := Matured(r, height)],
                            balances := Shifted(l.balances, l.rounds[..index], height, Shares(r)))
                 else part
  {
    var r := l.rounds[index];
    MatureAllNext(l.rounds, index, height);
    assert l.rounds[..index + 1] == l.rounds[..index] + [r];
    ShiftedDone(l.balances, l.rounds[..index], r, height);
  }

  lemma ShiftedDone(balances: map<string, Balance>, done: seq<Round>, r: Round, height: nat)
    ensures Shifted(balances, done + [r], height, map[]) ==
            Shifted(balances, done, height, if Ripe(r, height) then Shares(r) else map[])
  {
    assert (done + [r])[..|done|] == done;
  }

  lemma {:induction false} OwedPrefix(rounds: seq<Round>, n: nat, a: string)
    requires ProperRounds(rounds) && n <= |rounds|
    ensures Owed(rounds[..n], a, false) <= Owed(rounds, a, false)
  {
    if n < |rounds| {
      assert ProperRound(rounds[|rounds| - 1]);
      OwedPrefix(rounds[..|rounds| - 1], n, a);
      assert rounds[..|rounds| - 1][..n] == rounds[..n];
    } else {
      assert rounds[..n] == rounds;
    }
  }

  /** The pending balance covers every share that is about to be taken from it. */
  lemma PendingCovers(l: Ledger, index: nat, height: nat, a: string)
    requires Consistent(l) && index < |l.rounds| && Ripe(l.rounds[index], height)
    ensures Moved(l.rounds[..index], height, a) + ShareOf(l.rounds[index], a) <= BalanceOf(l.balances, a).pending
  {
    var upto := l.rounds[..index + 1];
    assert upto[..index] == l.rounds[..index];
    OwedBounds(upto, height, a);
    OwedPrefix(l.rounds, index + 1, a);
  }

  lemma MovedNonNegative(l: Ledger, index: nat, height: nat, a: string)
    requires Consistent(l) && index <= |l.rounds|
    ensures Moved(l.rounds[..index], height, a) >= 0
  {
    OwedBounds(l.rounds[..index], height, a);
  }

  /** One turn of the inner loop: the amount taken from pending is never cut at zero. */
  lemma ShiftedNext(l: Ledger, index: nat, height: nat, remaining: set<string>, a: string)
    requires Consistent(l) && index < |l.rounds| && Ripe(l.rounds[index], height)
    requires a in remaining && remaining <= Shares(l.rounds[index]).Keys
    ensures var shares, done := Shares(l.rounds[index]), l.rounds[..index];
            var before, after := Shifted(l.balances, done, height, shares - remaining),
                                 Shifted(l.balances, done, height, shares - (remaining - {a}));
            var amount, balance := ClampNat(shares[a]), BalanceOf(before, a);
            && a != "" && Trimmed(a)
            && (amount > 0 ==>
                  a in before && balance.pending >= amount &&
                  after == before[a := Balance(balance.pending - amount, balance.matured + amount)])
            && (amount == 0 ==> after == before)
  {
    assert ProperRound(l.rounds[index]);
    PendingCovers(l, index, height, a);
    MovedNonNegative(l, index, height, a);
  }
}
