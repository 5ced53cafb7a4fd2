/** The 21 halving tiers: `rewardForRoundIndex` (round-ledger.js) and
    `_computeWattcoinFromMinedBlocks` (main-utils.js).
    The rewards are 1000 / 2^t coins. The smallest is 10^11 / 2^20 = 5^11 / 2^9 units of 1e-8
    coin, so every exact amount is a whole number of grains of 1/512 unit. */
module Emission {
  import opened Rounding
  import opened Powers
  import opened TierSchedule

  /** Blocks in tier `t`: 1,000,000 coins at 1000 / 2^t coins a block. */
  function TierBlocks(t: nat): (b: nat)
    ensures b >= 1000
  {
    1000 * Pow2(t)
  }

  /** First block index of tier `t`. */
  function TierStart(t: nat): nat {
    1000 * (Pow2(t) - 1)
  }

  lemma {:induction false} TierStartIsSum(t: nat)
    ensures Start(TierBlocks, t) == TierStart(t)
  {
    if t > 0 {
      TierStartIsSum(t - 1);
    }
  }

  /** Grains per block of each tier. */
  function ExactRate(t: nat): nat {
    if t < MAX_TIERS then 48828125 * Pow2(20 - t) else 0
  }

  /** `toFixed(8)` of an amount in grains, as units: halves go up. */
  function GrainsToFixed(grains: nat): nat {
    (2 * grains + 512) / 1024
  }

  function TierUnits(t: nat): nat {
    GrainsToFixed(ExactRate(t))
  }

  function RoundedRate(t: nat): nat {
    512 * TierUnits(t)
  }

  /** The whole-number forms above are the quotients the program computes. */
  lemma TierBlocksIsQuotient(t: nat)
    ensures ToFixed(1000000.0 / (1000.0 / Pow2(t) as real)) == TierBlocks(t)
  {
    var p := Pow2(t) as real;
    var reward := 1000.0 / p;
    assert p * reward == 1000.0;
    assert (1000.0 * p) * reward == 1000000.0;
    assert 1000000.0 / reward == 1000.0 * p;
    ToFixedWhole(TierBlocks(t));
  }

  lemma TierUnitsIsQuotient(t: nat, p: nat)
    requires t < MAX_TIERS && p == Pow2(t)
    ensures ToFixed(100000000.0 * (1000.0 / p as real)) == TierUnits(t)
  {
    ComplementaryPowers(t);
    var q := Pow2(20 - t);
    UnitsOfQuotient(p, q);
    assert TierUnits(t) == GrainsToFixed(48828125 * q);
  }

  lemma ComplementaryPowers(t: nat)
    requires t < MAX_TIERS
    ensures Pow2(t) * Pow2(20 - t) == 1048576 && ExactRate(t) == 48828125 * Pow2(20 - t)
  {
    Pow2Product(t, 20 - t);
    Pow2Table();
  }

  lemma UnitsOfQuotient(p: nat, q: nat)
    requires p > 0 && p * q == 1048576
    ensures ToFixed(100000000.0 * (1000.0 / p as real)) == GrainsToFixed(48828125 * q)
  {
    assert p as real * q as real == 1048576.0;
    GrainsOfQuotient(p as real, q as real);
    GrainsRounding(48828125 * q);
  }

  lemma GrainsOfQuotient(p: real, q: real)
    requires p > 0.0 && p * q == 1048576.0
    ensures 100000000.0 * (1000.0 / p) == 48828125.0 * q / 512.0
  {
    assert p * (1000.0 / p) == 1000.0;
    assert p * (100000000.0 * (1000.0 / p) - 48828125.0 * q / 512.0) == 0.0;
  }

  /** The exact reward of a tier, in 1/512 of a unit, is the quotient of the program. */
  lemma ExactRateIsQuotient(t: nat)
    requires t < 21
    ensures ExactRate(t) as real / 512.0 == 100000000.0 * (1000.0 / Pow2(t) as real)
  {
    ComplementaryPowers(t);
    ExactQuotient(Pow2(t), Pow2(20 - t), ExactRate(t));
  }

  lemma ExactQuotient(p: nat, q: nat, grains: nat)
    requires p > 0 && p * q == 1048576 && grains == 48828125 * q
    ensures grains as real / 512.0 == 100000000.0 * (1000.0 / p as real)
  {
    assert p as real * q as real == 1048576.0;
    GrainsOfQuotient(p as real, q as real);
  }

  lemma GrainsRounding(grains: nat)
    ensures ToFixed(grains as real / 512.0) == GrainsToFixed(grains)
  {
    var u := GrainsToFixed(grains);
    assert 1024 * u <= 2 * grains + 512 < 1024 * u + 1024;
    assert u as real <= grains as real / 512.0 + 0.5 < u as real + 1.0;
  }

  lemma Pow2Table()
    ensures Pow2(0) == 1 && Pow2(1) == 2 && Pow2(2) == 4 && Pow2(3) == 8
    ensures Pow2(4) == 16 && Pow2(5) == 32 && Pow2(6) == 64 && Pow2(7) == 128
    ensures Pow2(8) == 256 && Pow2(9) == 512 && Pow2(10) == 1024 && Pow2(11) == 2048
    ensures Pow2(12) == 4096 && Pow2(13) == 8192 && Pow2(14) == 16384 && Pow2(15) == 32768
    ensures Pow2(16) == 65536 && Pow2(17) == 131072 && Pow2(18) == 262144 && Pow2(19) == 524288
    ensures Pow2(20) == 1048576
  {
    assert Pow2(4) == 16 && Pow2(8) == 256 && Pow2(12) == 4096 && Pow2(16) == 65536;
  }

  /** Up to tier 11 the reward is a whole number of units. */
  lemma EarlyTiersExact(t: nat)
    requires t < 12
    ensures RoundedRate(t) == ExactRate(t)
  {
    Pow2Product(9, 11 - t);
    Pow2Table();
    assert ExactRate(t) == 512 * (48828125 * Pow2(11 - t));
  }

  /** From tier 12 on it is not; what a full tier then gains or loses, in grains. */
  lemma LateTierDrifts()
    ensures TierDrift(TierBlocks, RoundedRate, ExactRate, 12) == 1048576000
    ensures TierDrift(TierBlocks, RoundedRate, ExactRate, 13) == -1048576000
    ensures TierDrift(TierBlocks, RoundedRate, ExactRate, 14) == 3145728000
    ensures TierDrift(TierBlocks, RoundedRate, ExactRate, 15) == 3145728000
    ensures TierDrift(TierBlocks, RoundedRate, ExactRate, 16) == 3145728000
    ensures TierDrift(TierBlocks, RoundedRate, ExactRate, 17) == -30408704000
    ensures TierDrift(TierBlocks, RoundedRate, ExactRate, 18) == 36700160000
    ensures TierDrift(TierBlocks, RoundedRate, ExactRate, 19) == 36700160000
    ensures TierDrift(TierBlocks, RoundedRate, ExactRate, 20) == -231735296000
  {
    Pow2Table();
    assert TierUnits(12) == 24414063;
    assert TierUnits(13) == 12207031;
    assert TierUnits(14) == 6103516;
    assert TierUnits(15) == 3051758;
    assert TierUnits(16) == 1525879;
    assert TierUnits(17) == 762939;
    assert TierUnits(18) == 381470;
    assert TierUnits(19) == 190735;
    assert TierUnits(20) == 95367;
  }

  lemma LateDrift()
    ensures DriftLow(TierBlocks, RoundedRate, ExactRate, 12) == -350208000 * 512
    ensures DriftHigh(TierBlocks, RoundedRate, ExactRate, 12) == 102400000 * 512
  {
    LateTierDrifts();
  }

  // ---- the two functions of the program ---------------------------------------------

  /** `rewardForRoundIndex`, as a function of a normalised index, in units. */
  function RewardAt(index: nat): nat {
    RateFrom(TierBlocks, TierUnits, 0, index)
  }

  /** The reward is that of the tier holding the index... */
  lemma RewardOfTier(index: nat, t: nat)
    requires t < MAX_TIERS && TierStart(t) <= index < TierStart(t + 1)
    ensures RewardAt(index) == TierUnits(t)
  {
    TierStartIsSum(t);
    TierStartIsSum(t + 1);
    RateFromTier(TierBlocks, TierUnits, 0, index, t);
  }

  /** ...and nothing once the last tier is used up. */
  lemma RewardPastLastTier(index: nat)
    requires TierStart(MAX_TIERS) <= index
    ensures RewardAt(index) == 0
  {
    TierStartIsSum(MAX_TIERS);
    RateFromPastEnd(TierBlocks, TierUnits, 0, index);
  }

  /** The loop of `rewardForRoundIndex`. */
  method RewardForRoundIndex(roundIndex: int) returns (units: nat)
    ensures units == RewardAt(ClampNat(roundIndex))
  {
    var index := ClampNat(roundIndex);
    var remaining := index;
    ghost var b: Sizes, k: Rates := TierBlocks, TierUnits;
    for tier := 0 to MAX_TIERS
      invariant remaining >= 0
      invariant RateFrom(b, k, tier, remaining) == RateFrom(b, k, 0, index)
    {
      var reward := ExactRate(tier);
      var blocksThisTier := TierBlocks(tier);
      if remaining < blocksThisTier {
        return GrainsToFixed(reward);
      }
      remaining := remaining - blocksThisTier;
    }
    return 0;
  }

  /** `_computeWattcoinFromMinedBlocks`: the block-by-block sum of unrounded rewards, rounded once. */
  method ComputeWattcoinFromMinedBlocks(blockCount: int) returns (units: nat)
    ensures units == GrainsToFixed(SumBlocks(TierBlocks, ExactRate, ClampNat(blockCount)))
  {
    var totalCoins := SumTiers(TierBlocks, ExactRate, ClampNat(blockCount));
    return GrainsToFixed(totalCoins);
  }

  // ---- main results -----------------------------------------------------------------

  /** Sum of `rewardForRoundIndex(i)` over `from <= i < to`, in units. */
  function SumOf(f: nat -> nat, from: nat, to: nat): nat
    decreases to
  {
    if to <= from then 0 else SumOf(f, from, to - 1) + f(to - 1)
  }

  function RewardSum(from: nat, to: nat): nat {
    SumOf(RewardAt, from, to)
  }

  lemma {:induction false} RewardSumIsSumBlocks(n: nat)
    ensures RewardSum(0, n) == SumBlocks(TierBlocks, TierUnits, n)
  {
    if n > 0 {
      RewardSumIsSumBlocks(n - 1);
    }
  }

  lemma {:induction false} SumSplit(f: nat -> nat, a: nat, b: nat, c: nat)
    requires a <= b <= c
    ensures SumOf(f, a, c) == SumOf(f, a, b) + SumOf(f, b, c)
    decreases c
  {
    if b < c {
      SumSplit(f, a, b, c - 1);
    }
  }

  /** 21,000,000 coins, in units. */
  const MAX_SUPPLY: nat := 2_100_000_000_000_000

  /** However far the ledger runs, its default rewards stay below the advertised supply... */
  lemma SupplyBound(n: nat)
    ensures RewardSum(0, n) <= MAX_SUPPLY
  {
    RewardSumIsSumBlocks(n);
    SumAtMostTotal(TierBlocks, TierUnits, n);
    RoundedTotal();
  }

  /** Adds tier `t` to what the tiers above it emit. */
  lemma TotalStep(t: nat, p: nat, units: nat, above: nat)
    requires t < MAX_TIERS && Pow2(t) == p && TierUnits(t) == units
    requires TierTotal(TierBlocks, TierUnits, t + 1) == above
    ensures TierTotal(TierBlocks, TierUnits, t) == 1000 * p * units + above
  {
    var b: Sizes, k: Rates := TierBlocks, TierUnits;
    assert b(t) == 1000 * p && k(t) == units;
  }

  lemma LastTiersTotal()
    ensures TierTotal(TierBlocks, TierUnits, 14) == 699999649792000
  {
    Pow2Table();
    TotalStep(20, 1048576, 95367, 0);
    TotalStep(19, 524288, 190735, 99999547392000);
    TotalStep(18, 262144, 381470, 199999619072000);
    TotalStep(17, 131072, 762939, 299999690752000);
    TotalStep(16, 65536, 1525879, 399999631360000);
    TotalStep(15, 32768, 3051758, 499999637504000);
    TotalStep(14, 16384, 6103516, 599999643648000);
  }

  lemma MiddleTiersTotal()
    ensures TierTotal(TierBlocks, TierUnits, 7) == 1399999649792000
  {
    LastTiersTotal();
    Pow2Table();
    TotalStep(13, 8192, 12207031, 699999649792000);
    TotalStep(12, 4096, 24414063, 799999647744000);
    TotalStep(11, 2048, 48828125, 899999649792000);
    TotalStep(10, 1024, 97656250, 999999649792000);
    TotalStep(9, 512, 195312500, 1099999649792000);
    TotalStep(8, 256, 390625000, 1199999649792000);
    TotalStep(7, 128, 781250000, 1299999649792000);
  }

  /** The full schedule emits 20,999,996.49792 coins. */
  lemma RoundedTotal()
    ensures TierTotal(TierBlocks, TierUnits, 0) == 2099999649792000
  {
    MiddleTiersTotal();
    Pow2Table();
    TotalStep(6, 64, 1562500000, 1399999649792000);
    TotalStep(5, 32, 3125000000, 1499999649792000);
    TotalStep(4, 16, 6250000000, 1599999649792000);
    TotalStep(3, 8, 12500000000, 1699999649792000);
    TotalStep(2, 4, 25000000000, 1799999649792000);
    TotalStep(1, 2, 50000000000, 1899999649792000);
    TotalStep(0, 1, 100000000000, 1999999649792000);
  }

  /** ...although tier 12 alone emits more than its 1,000,000 coins. */
  lemma Tier12Exceeds()
    ensures TierBlocks(12) * TierUnits(12) > 1_000_000 * 100_000_000
  {
    Pow2Table();
    assert TierUnits(12) == 24414063;
  }

  lemma RoundedAgainstExact(n: nat)
    ensures -350208000 * 512 <= SumBlocks(TierBlocks, RoundedRate, n) - SumBlocks(TierBlocks, ExactRate, n)
    ensures SumBlocks(TierBlocks, RoundedRate, n) - SumBlocks(TierBlocks, ExactRate, n) <= 102400000 * 512
    ensures n <= 4_095_000 ==> SumBlocks(TierBlocks, RoundedRate, n) == SumBlocks(TierBlocks, ExactRate, n)
  {
    forall i: nat | i < 12 ensures RoundedRate(i) == ExactRate(i) {
      EarlyTiersExact(i);
    }
    assert Start(TierBlocks, 12) == 4_095_000 by {
      TierStartIsSum(12);
      Pow2Table();
    }
    MintDrift(TierBlocks, RoundedRate, ExactRate, 12, n);
    LateDrift();
  }

  /** The tier-jumping total against the sum of the rounded per-round rewards: equal up to the last
      block of tier 11, and never further apart than 3.50208 coins and one unit. */
  lemma ComputedAgainstLedger(n: nat)
    ensures n <= 4_095_000 ==> GrainsToFixed(SumBlocks(TierBlocks, ExactRate, n)) == RewardSum(0, n)
    ensures -102400001 <= GrainsToFixed(SumBlocks(TierBlocks, ExactRate, n)) - RewardSum(0, n) <= 350208001
  {
    RewardSumIsSumBlocks(n);
    RoundedAgainstExact(n);
    SumScaled(TierBlocks, RoundedRate, TierUnits, n);
  }
}
