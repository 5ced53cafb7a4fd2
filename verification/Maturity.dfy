/** When rounds mature, and what that makes of the balances, stated over heights and runs: the promise of
    `syncMaturity` (round-ledger.js). */
module Maturity {
  import opened JsObject
  import opened Contributions
  import opened LedgerState

  /** The round carries a height that counts as matured. */
  predicate HasMatured(r: Round) {
    r.maturedAt.Some? && r.maturedAt.value > 0
  }

  /** The rounds differ at most in the height recorded on them. */
  predicate SameButHeight(r: Round, s: Round) {
    match r
    case SettledRound(id, reward, totalWh, shares, blockHash, blockHeight, minedAddress, matureAt, _) =>
      s == SettledRound(id, reward, totalWh, shares, blockHash, blockHeight, minedAddress, matureAt, s.maturedAt)
    case ArchivedRound(snapshot, totalWh, _) => s == ArchivedRound(snapshot, totalWh, s.maturedAt)
  }

  // ---- one call ---------------------------------------------------------------------

  /** Syncing matures exactly the settled rounds whose block lies 100 blocks back, and at a positive
      height all archived ones; it records the height on them and changes nothing else. */
  lemma SyncMaturesIff(l: Ledger, currentHeight: int, i: nat)
    requires Consistent(l) && i < |l.rounds|
    ensures |SyncMaturity(l, currentHeight).rounds| == |l.rounds|
    ensures var r, s := l.rounds[i], SyncMaturity(l, currentHeight).rounds[i];
            var height := if currentHeight < 0 then 0 else currentHeight;
            && SameButHeight(r, s)
            && (r.SettledRound? ==> (HasMatured(s) <==> HasMatured(r) || r.blockHeight + 100 <= height))
            && (r.ArchivedRound? ==> (HasMatured(s) <==> HasMatured(r) || height > 0))
            && (HasMatured(r) ==> s == r)
            && (HasMatured(s) && !HasMatured(r) ==> s.maturedAt == Some(height))
    ensures var s := SyncMaturity(l, currentHeight); s.current == l.current && s.nextRoundId == l.nextRoundId
  {
    assert ProperRound(l.rounds[i]);
  }

  /** The rounds that mature in a call. */
  ghost function Maturing(before: seq<Round>, after: seq<Round>): set<int>
    requires |before| == |after|
  {
    set i | 0 <= i < |before| && !HasMatured(before[i]) && HasMatured(after[i])
  }

  ghost function Unmatured(rounds: seq<Round>, archived: bool): set<int> {
    set i | 0 <= i < |rounds| && !HasMatured(rounds[i]) && rounds[i].ArchivedRound? == archived
  }

  ghost function RipeOnes(rounds: seq<Round>, height: nat): set<int> {
    set i | 0 <= i < |rounds| && Ripe(rounds[i], height)
  }

  lemma {:induction false} RipeCountIsSize(rounds: seq<Round>, height: nat)
    ensures RipeCount(rounds, height) == |RipeOnes(rounds, height)|
  {
    if rounds != [] {
      var n := |rounds| - 1;
      RipeCountIsSize(rounds[..n], height);
      var front := RipeOnes(rounds[..n], height);
      assert RipeOnes(rounds, height) == if Ripe(rounds[n], height) then front + {n} else front;
    }
  }

  /** The number a call returns is that of the rounds that mature in it. At height zero nothing matures,
      and it returns the number of archived rounds that have not matured. */
  ghost predicate CountsMaturing(before: seq<Round>, after: seq<Round>, currentHeight: int, count: nat) {
    |after| == |before| &&
    if currentHeight > 0 then count == |Maturing(before, after)|
    else Maturing(before, after) == {} && count == |Unmatured(before, true)|
  }

  lemma CountOfMaturing(l: Ledger, currentHeight: int)
    requires Consistent(l)
    ensures CountsMaturing(l.rounds, SyncMaturity(l, currentHeight).rounds, currentHeight,
                           RipeCount(l.rounds, if currentHeight < 0 then 0 else currentHeight))
  {
    var height := if currentHeight < 0 then 0 else currentHeight;
    RipeCountIsSize(l.rounds, height);
    forall i | 0 <= i < |l.rounds|
      ensures Ripe(l.rounds[i], height) <==>
              !HasMatured(l.rounds[i]) && (l.rounds[i].ArchivedRound? || l.rounds[i].blockHeight + 100 <= height)
    {
      assert ProperRound(l.rounds[i]);
    }
    forall i | 0 <= i < |l.rounds|
      ensures HasMatured(SyncMaturity(l, currentHeight).rounds[i]) <==>
              HasMatured(l.rounds[i]) ||
              (if l.rounds[i].ArchivedRound? then height > 0 else l.rounds[i].blockHeight + 100 <= height)
    {
      SyncMaturesIff(l, currentHeight, i);
    }
    if currentHeight > 0 {
      assert RipeOnes(l.rounds, height) == Maturing(l.rounds, SyncMaturity(l, currentHeight).rounds);
    } else {
      assert RipeOnes(l.rounds, height) == Unmatured(l.rounds, true);
    }
  }

  // ---- runs -------------------------------------------------------------------------

  function After(ops: seq<Op>): Ledger {
    Run(DefaultLedger(), ops)
  }

  /** Step `k` syncs at this height or above, when round `i` is already there. */
  ghost predicate Reaches(ops: seq<Op>, i: nat, height: int, k: int) {
    0 <= k < |ops| && ops[k].Sync? && i < |After(ops[..k]).rounds| && height <= ops[k].height
  }

  /** Some sync after it came to be has reached this height. */
  ghost predicate Reached(ops: seq<Op>, i: nat, height: int) {
    exists k :: Reaches(ops, i, height, k)
  }

  lemma StepKeepsRound(l: Ledger, op: Op, i: nat)
    requires i < |l.rounds| && !op.Sync?
    ensures i < |Step(l, op).rounds| && Step(l, op).rounds[i] == l.rounds[i]
  {
  }

  lemma ReachedNext(front: seq<Op>, op: Op, i: nat, height: int)
    ensures Reached(front + [op], i, height) <==>
            Reached(front, i, height) || (op.Sync? && i < |After(front).rounds| && height <= op.height)
  {
    var ops := front + [op];
    assert ops[..|front|] == front;
    if k :| Reaches(front, i, height, k) {
      assert ops[..k] == front[..k];
      assert Reaches(ops, i, height, k);
    }
    if k :| Reaches(ops, i, height, k) {
      if k < |front| {
        assert ops[..k] == front[..k];
        assert Reaches(front, i, height, k);
      }
    }
    if op.Sync? && i < |After(front).rounds| && height <= op.height {
      assert Reaches(ops, i, height, |front|);
    }
  }

  lemma {:induction false} NotReachedYet(ops: seq<Op>, i: nat, height: int)
    requires i >= |After(ops).rounds|
    ensures !Reached(ops, i, height)
  {
    if ops != [] {
      var front, op := ops[..|ops| - 1], ops[|ops| - 1];
      assert front + [op] == ops;
      ReachableConsistent(front);
      StepGrows(After(front), op);
      NotReachedYet(front, i, height);
      ReachedNext(front, op, i, height);
    }
  }

  /** One step, seen from a round that is there. */
  lemma MaturedNext(l: Ledger, op: Op, i: nat)
    requires Consistent(l) && i < |l.rounds|
    ensures i < |Step(l, op).rounds| && SameButHeight(l.rounds[i], Step(l, op).rounds[i])
    ensures l.rounds[i].SettledRound? ==>
              (HasMatured(Step(l, op).rounds[i]) <==>
               HasMatured(l.rounds[i]) || (op.Sync? && l.rounds[i].blockHeight + 100 <= op.height))
  {
    if op.Sync? {
      SyncMaturesIff(l, op.height, i);
    } else {
      StepKeepsRound(l, op, i);
    }
  }

  lemma AfterNext(front: seq<Op>, op: Op)
    ensures After(front + [op]) == Step(After(front), op)
  {
    assert (front + [op])[..|front|] == front;
  }

  ghost predicate MaturedAsReached(ops: seq<Op>, r: Round, i: nat) {
    r.SettledRound? ==> (HasMatured(r) <==> Reached(ops, i, r.blockHeight + 100))
  }

  lemma ReachedStep(front: seq<Op>, op: Op, r: Round, s: Round, i: nat)
    requires i < |After(front).rounds| && MaturedAsReached(front, r, i) && SameButHeight(r, s)
    requires r.SettledRound? ==>
               (HasMatured(s) <==> HasMatured(r) || (op.Sync? && r.blockHeight + 100 <= op.height))
    ensures MaturedAsReached(front + [op], s, i)
  {
    if r.SettledRound? {
      ReachedNext(front, op, i, r.blockHeight + 100);
    }
  }

  lemma NotReachedFresh(front: seq<Op>, op: Op, r: Round, i: nat)
    requires |After(front).rounds| <= i && r.maturedAt == None
    ensures MaturedAsReached(front + [op], r, i)
  {
    if r.SettledRound? {
      NotReachedYet(front, i, r.blockHeight + 100);
      ReachedNext(front, op, i, r.blockHeight + 100);
    }
  }

  lemma {:induction false} AllMaturedAsReached(ops: seq<Op>, i: nat)
    requires i < |After(ops).rounds|
    ensures MaturedAsReached(ops, After(ops).rounds[i], i)
  {
    assert ops != [];
    var front, op := ops[..|ops| - 1], ops[|ops| - 1];
    assert front + [op] == ops;
    AfterNext(front, op);
    var l, s := After(front), After(ops).rounds[i];
    if i < |l.rounds| {
      AllMaturedAsReached(front, i);
      ReachableConsistent(front);
      MaturedNext(l, op, i);
      ReachedStep(front, op, l.rounds[i], s, i);
    } else {
      FreshRound(l, op, i);
      NotReachedFresh(front, op, s, i);
    }
  }

  /** In every run a settled round has matured if and only if, since it was settled, some sync reached the
      height of its block plus 100. */
  lemma MaturedIffReached(ops: seq<Op>, i: nat)
    requires i < |After(ops).rounds| && After(ops).rounds[i].SettledRound?
    ensures HasMatured(After(ops).rounds[i]) <==> Reached(ops, i, After(ops).rounds[i].blockHeight + 100)
  {
    AllMaturedAsReached(ops, i);
  }

  lemma FreshRound(l: Ledger, op: Op, i: nat)
    requires |l.rounds| <= i < |Step(l, op).rounds|
    ensures Step(l, op).rounds[i].maturedAt == None
  {
    if op.Settle? {
      NewRoundProper(l, op.params);
    }
  }

  /** An address's shares in the first `n` rounds that have reached their height, or have not. */
  ghost function SharesReached(ops: seq<Op>, n: nat, a: string, reached: bool): int
    requires n <= |After(ops).rounds|
  {
    if n == 0 then 0
    else
      var r := After(ops).rounds[n - 1];
      SharesReached(ops, n - 1, a, reached) +
      if r.SettledRound? && Reached(ops, n - 1, r.blockHeight + 100) == reached && a in r.shares then r.shares[a] else 0
  }

  lemma {:induction false} OwedIsReached(ops: seq<Op>, n: nat, a: string, reached: bool)
    requires n <= |After(ops).rounds|
    ensures Owed(After(ops).rounds[..n], a, reached) == SharesReached(ops, n, a, reached)
  {
    if n > 0 {
      var rounds := After(ops).rounds;
      OwedIsReached(ops, n - 1, a, reached);
      assert rounds[..n][..n - 1] == rounds[..n - 1];
      if rounds[n - 1].SettledRound? {
        MaturedIffReached(ops, n - 1);
      }
    }
  }

  /** In every run an address's matured coins are its shares in the settled rounds that some later sync
      has found 100 blocks deep, and its pending coins are those in the others. */
  lemma BalancesByHeight(ops: seq<Op>, a: string)
    ensures var n := |After(ops).rounds|;
            BalanceOf(After(ops).balances, a) ==
            Balance(SharesReached(ops, n, a, false), SharesReached(ops, n, a, true))
  {
    ReachableConsistent(ops);
    var rounds := After(ops).rounds;
    assert rounds[..|rounds|] == rounds;
    OwedIsReached(ops, |rounds|, a, false);
    OwedIsReached(ops, |rounds|, a, true);
    assert BalancesExact(After(ops));
  }
}
