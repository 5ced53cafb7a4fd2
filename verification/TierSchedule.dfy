/** Sums over a schedule of tiers: tier `t` has `b(t)` blocks worth `k(t)` each. */
module TierSchedule {

  const MAX_TIERS: nat := 21

  type Sizes = nat -> nat
  type Rates = nat -> nat

  /** First block index of tier `t`. */
  function Start(b: Sizes, t: nat): nat
    decreases t, b
  {
    if t == 0 then 0 else Start(b, t - 1) + b(t - 1)
  }

  /** Worth of the block `n` places after the start of tier `t`. */
  function RateFrom(b: Sizes, k: Rates, t: nat, n: nat): nat
    decreases MAX_TIERS - t, b
  {
    if t >= MAX_TIERS then 0
    else if n < b(t) then k(t)
    else RateFrom(b, k, t + 1, n - b(t))
  }

  /** Sum of the first `n` blocks, block by block. */
  function SumBlocks(b: Sizes, k: Rates, n: nat): nat {
    if n == 0 then 0 else SumBlocks(b, k, n - 1) + RateFrom(b, k, 0, n - 1)
  }

  /** Sum of `n` blocks from the start of tier `t` on, tier by tier. */
  function MintFrom(b: Sizes, k: Rates, t: nat, n: nat): nat
    decreases MAX_TIERS - t, b
  {
    if t >= MAX_TIERS then 0
    else if n <= b(t) then n * k(t)
    else b(t) * k(t) + MintFrom(b, k, t + 1, n - b(t))
  }

  lemma {:induction false} StartMonotone(b: Sizes, s: nat, t: nat)
    requires s <= t
    ensures Start(b, s) <= Start(b, t)
  {
    if s < t {
      StartMonotone(b, s, t - 1);
    }
  }

  lemma {:induction false} RateFromTier(b: Sizes, k: Rates, t: nat, n: nat, target: nat)
    requires t <= target < MAX_TIERS
    requires Start(b, target) <= Start(b, t) + n < Start(b, target + 1)
    ensures RateFrom(b, k, t, n) == k(target)
    decreases target - t
  {
    if t < target {
      StartMonotone(b, t + 1, target);
      RateFromTier(b, k, t + 1, n - b(t), target);
    }
  }

  lemma {:induction false} RateFromPastEnd(b: Sizes, k: Rates, t: nat, n: nat)
    requires t <= MAX_TIERS
    requires Start(b, MAX_TIERS) <= Start(b, t) + n
    ensures RateFrom(b, k, t, n) == 0
    decreases MAX_TIERS - t
  {
    if t < MAX_TIERS {
      StartMonotone(b, t + 1, MAX_TIERS);
      RateFromPastEnd(b, k, t + 1, n - b(t));
    }
  }

  lemma MintNothing(b: Sizes, k: Rates, t: nat, n: nat)
    requires t >= MAX_TIERS || n == 0
    ensures MintFrom(b, k, t, n) == 0
  {
  }

  lemma TierSplit(b: Sizes, k: Rates, t: nat, n: nat, mined: nat)
    requires t < MAX_TIERS
    requires mined == if n < b(t) then n else b(t)
    ensures MintFrom(b, k, t, n) == mined * k(t) + MintFrom(b, k, t + 1, n - mined)
  {
    MintNothing(b, k, t + 1, 0);
  }

  lemma {:induction false} MintStep(b: Sizes, k: Rates, t: nat, n: nat)
    ensures MintFrom(b, k, t, n + 1) == MintFrom(b, k, t, n) + RateFrom(b, k, t, n)
    decreases MAX_TIERS - t
  {
    if t < MAX_TIERS {
      if n < b(t) {
        Distribute(k(t), n + 1, n);
      } else {
        MintStep(b, k, t + 1, n - b(t));
        TierSplit(b, k, t, n, b(t));
      }
    }
  }

  /** Jumping whole tiers computes the block-by-block sum. */
  lemma {:induction false} SumBlocksIsMint(b: Sizes, k: Rates, n: nat)
    ensures SumBlocks(b, k, n) == MintFrom(b, k, 0, n)
  {
    if n > 0 {
      SumBlocksIsMint(b, k, n - 1);
      MintStep(b, k, 0, n - 1);
    }
  }

  /** The loop over the tiers: whole tiers at a time while blocks remain. */
  method SumTiers(b: Sizes, k: Rates, n: nat) returns (total: nat)
    ensures total == SumBlocks(b, k, n)
  {
    var remainingBlocks := n;
    total := 0;
    var tier := 0;
    while tier < MAX_TIERS && remainingBlocks > 0
      invariant 0 <= tier <= MAX_TIERS && remainingBlocks >= 0
      invariant total + MintFrom(b, k, tier, remainingBlocks) == MintFrom(b, k, 0, n)
    {
      var reward := k(tier);
      var blocksThisTier := b(tier);
      var minedThisTier := if remainingBlocks < blocksThisTier then remainingBlocks else blocksThisTier;
      TierSplit(b, k, tier, remainingBlocks, minedThisTier);
      total := total + minedThisTier * reward;
      remainingBlocks := remainingBlocks - minedThisTier;
      tier := tier + 1;
    }
    MintNothing(b, k, tier, remainingBlocks);
    SumBlocksIsMint(b, k, n);
  }

  /** Everything tiers `t ..` can ever emit. */
  function TierTotal(b: Sizes, k: Rates, t: nat): nat
    decreases MAX_TIERS - t, b
  {
    if t >= MAX_TIERS then 0 else b(t) * k(t) + TierTotal(b, k, t + 1)
  }

  lemma MulMonotone(x: int, y: int, r: int)
    requires r >= 0 && x <= y
    ensures x * r <= y * r
  {
    assert (y - x) * r >= 0;
  }

  lemma Distribute(n: int, r: int, e: int)
    ensures n * (r - e) == n * r - n * e
  {
  }

  lemma {:induction false} MintAtMostTotal(b: Sizes, k: Rates, t: nat, n: nat)
    ensures MintFrom(b, k, t, n) <= TierTotal(b, k, t)
    decreases MAX_TIERS - t
  {
    if t < MAX_TIERS {
      if n <= b(t) {
        MulMonotone(n, b(t), k(t));
      } else {
        MintAtMostTotal(b, k, t + 1, n - b(t));
      }
    }
  }

  // ---- one schedule against another -------------------------------------------------

  /** What the whole of tier `t` emits under `k` beyond what it emits under `e`. */
  function TierDrift(b: Sizes, k: Rates, e: Rates, t: nat): int {
    b(t) * (k(t) - e(t))
  }

  function Min(x: int, y: int): int { if x < y then x else y }

  function Max(x: int, y: int): int { if x > y then x else y }

  /** Least and greatest drift any prefix of tiers `t ..` can accumulate. */
  function DriftLow(b: Sizes, k: Rates, e: Rates, t: nat): int
    decreases MAX_TIERS - t
  {
    if t >= MAX_TIERS then 0 else Min(0, TierDrift(b, k, e, t) + DriftLow(b, k, e, t + 1))
  }

  function DriftHigh(b: Sizes, k: Rates, e: Rates, t: nat): int
    decreases MAX_TIERS - t
  {
    if t >= MAX_TIERS then 0 else Max(0, TierDrift(b, k, e, t) + DriftHigh(b, k, e, t + 1))
  }

  lemma Between(n: int, m: int, d: int)
    requires 0 <= n <= m
    ensures Min(0, m * d) <= n * d <= Max(0, m * d)
  {
    if d >= 0 {
      MulMonotone(n, m, d);
      MulMonotone(0, n, d);
    } else {
      MulMonotone(n, m, -d);
      MulMonotone(0, n, -d);
    }
  }

  lemma PartialTierDrift(b: Sizes, k: Rates, e: Rates, t: nat, n: nat)
    requires t < MAX_TIERS && n <= b(t)
    requires DriftLow(b, k, e, t + 1) <= 0 <= DriftHigh(b, k, e, t + 1)
    ensures DriftLow(b, k, e, t) <= MintFrom(b, k, t, n) - MintFrom(b, e, t, n) <= DriftHigh(b, k, e, t)
  {
    Between(n, b(t), k(t) - e(t));
    Distribute(n, k(t), e(t));
  }

  lemma {:induction false} DriftBounds(b: Sizes, k: Rates, e: Rates, t: nat, n: nat)
    ensures DriftLow(b, k, e, t) <= MintFrom(b, k, t, n) - MintFrom(b, e, t, n) <= DriftHigh(b, k, e, t)
    decreases MAX_TIERS - t
  {
    if t < MAX_TIERS {
      if n <= b(t) {
        DriftBounds(b, k, e, t + 1, 0);
        MintNothing(b, k, t + 1, 0);
        MintNothing(b, e, t + 1, 0);
        PartialTierDrift(b, k, e, t, n);
      } else {
        DriftBounds(b, k, e, t + 1, n - b(t));
        Distribute(b(t), k(t), e(t));
      }
    }
  }

  /** Tiers on which the two schedules agree add no drift. */
  lemma {:induction false} AgreeingTiers(b: Sizes, k: Rates, e: Rates, t: nat, last: nat)
    requires t <= last <= MAX_TIERS
    requires forall i: nat :: i < last ==> k(i) == e(i)
    ensures Min(0, DriftLow(b, k, e, last)) <= DriftLow(b, k, e, t)
    ensures DriftHigh(b, k, e, t) <= Max(0, DriftHigh(b, k, e, last))
    decreases last - t
  {
    if t < last {
      AgreeingTiers(b, k, e, t + 1, last);
      assert TierDrift(b, k, e, t) == 0;
    }
  }

  lemma {:induction false} AgreeingMint(b: Sizes, k: Rates, e: Rates, t: nat, last: nat, n: nat)
    requires t <= last <= MAX_TIERS
    requires forall i: nat :: i < last ==> k(i) == e(i)
    requires Start(b, t) + n <= Start(b, last)
    ensures MintFrom(b, k, t, n) == MintFrom(b, e, t, n)
    decreases last - t
  {
    if t < last && n > b(t) {
      AgreeingMint(b, k, e, t + 1, last, n - b(t));
    } else if t == last {
      MintNothing(b, k, t, n);
      MintNothing(b, e, t, n);
    }
  }

  /** Two schedules that agree on their first `last` tiers. */
  lemma MintDrift(b: Sizes, k: Rates, e: Rates, last: nat, n: nat)
    requires last <= MAX_TIERS
    requires forall i: nat :: i < last ==> k(i) == e(i)
    ensures Min(0, DriftLow(b, k, e, last)) <= SumBlocks(b, k, n) - SumBlocks(b, e, n)
    ensures SumBlocks(b, k, n) - SumBlocks(b, e, n) <= Max(0, DriftHigh(b, k, e, last))
    ensures n <= Start(b, last) ==> SumBlocks(b, k, n) == SumBlocks(b, e, n)
  {
    SumBlocksIsMint(b, k, n);
    SumBlocksIsMint(b, e, n);
    DriftBounds(b, k, e, 0, n);
    AgreeingTiers(b, k, e, 0, last);
    if n <= Start(b, last) {
      AgreeingMint(b, k, e, 0, last, n);
    }
  }

  lemma SumAtMostTotal(b: Sizes, k: Rates, n: nat)
    ensures SumBlocks(b, k, n) <= TierTotal(b, k, 0)
  {
    SumBlocksIsMint(b, k, n);
    MintAtMostTotal(b, k, 0, n);
  }

  /** The same schedule counted in a finer unit. */
  lemma {:induction false} RateScaled(b: Sizes, k: Rates, u: Rates, t: nat, n: nat)
    requires forall i: nat :: k(i) == 512 * u(i)
    ensures RateFrom(b, k, t, n) == 512 * RateFrom(b, u, t, n)
    decreases MAX_TIERS - t
  {
    if t < MAX_TIERS && n >= b(t) {
      RateScaled(b, k, u, t + 1, n - b(t));
    }
  }

  lemma {:induction false} SumScaled(b: Sizes, k: Rates, u: Rates, n: nat)
    requires forall i: nat :: k(i) == 512 * u(i)
    ensures SumBlocks(b, k, n) == 512 * SumBlocks(b, u, n)
  {
    if n > 0 {
      RateScaled(b, k, u, 0, n - 1);
      SumScaled(b, k, u, n - 1);
    }
  }
}
