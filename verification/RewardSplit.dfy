/** The proportional split of a block reward that `settleCurrentRound` (round-ledger.js) and
    `buildRewardMapFromRoundSnapshot` (round-contributions.js) both perform: every contributor but
    the last gets its rounded share, the last one what is left, never less than nothing. */
module RewardSplit {
  import opened Rounding
  import opened Text
  import opened JsObject

  function Total(ws: seq<real>): real {
    if ws == [] then 0.0 else Total(ws[..|ws| - 1]) + ws[|ws| - 1]
  }

  ghost predicate Positive(ws: seq<real>) {
    forall i :: 0 <= i < |ws| ==> ws[i] > 0.0
  }

  function Exact(reward: real, w: real, total: real): real
    requires total > 0.0
  {
    reward * w / total
  }

  /** What the first contributors get when each share is rounded on its own. */
  function Allocated(reward: real, ws: seq<real>, total: real): int
    requires total > 0.0
  {
    if ws == [] then 0
    else Allocated(reward, ws[..|ws| - 1], total) + ToFixed(Exact(reward, ws[|ws| - 1], total))
  }

  /** The share of contributor `i`. */
  function Share(reward: real, ws: seq<real>, i: nat): int
    requires i < |ws| && Total(ws) > 0.0
  {
    if i < |ws| - 1 then ToFixed(Exact(reward, ws[i], Total(ws)))
    else ClampNat(ToFixed(reward) - Allocated(reward, ws[..i], Total(ws)))
  }

  /** The sum of all shares. */
  function Paid(reward: real, ws: seq<real>): int
    requires ws != [] && Total(ws) > 0.0
  {
    Allocated(reward, ws[..|ws| - 1], Total(ws)) + Share(reward, ws, |ws| - 1)
  }

  lemma {:induction false} TotalPositive(ws: seq<real>)
    requires Positive(ws)
    ensures Total(ws) >= 0.0 && (ws != [] ==> Total(ws) > 0.0)
  {
    if ws != [] {
      TotalPositive(ws[..|ws| - 1]);
    }
  }

  lemma ExactNonNegative(reward: real, w: real, total: real)
    requires reward >= 0.0 && w >= 0.0 && total > 0.0
    ensures Exact(reward, w, total) >= 0.0
    ensures ToFixed(Exact(reward, w, total)) >= 0
  {
    assert reward * w >= 0.0;
    assert (reward * w) / total >= 0.0;
  }

  lemma ExactAdds(reward: real, v: real, w: real, total: real)
    requires total > 0.0
    ensures Exact(reward, v + w, total) == Exact(reward, v, total) + Exact(reward, w, total)
  {
    assert reward * (v + w) == reward * v + reward * w;
  }

  /** Each rounding moves the running allocation by at most half a unit. */
  lemma {:induction false} AllocationError(reward: real, ws: seq<real>, total: real)
    requires total > 0.0
    ensures -(|ws| as real) / 2.0 <= Allocated(reward, ws, total) as real - Exact(reward, Total(ws), total)
    ensures Allocated(reward, ws, total) as real - Exact(reward, Total(ws), total) <= |ws| as real / 2.0
  {
    if ws == [] {
      assert reward * 0.0 == 0.0;
    } else {
      var front, w := ws[..|ws| - 1], ws[|ws| - 1];
      AllocationError(reward, front, total);
      ExactAdds(reward, Total(front), w, total);
      ToFixedError(Exact(reward, w, total));
    }
  }

  lemma {:induction false} AllocatedNonNegative(reward: real, ws: seq<real>, total: real)
    requires total > 0.0 && reward >= 0.0 && Positive(ws)
    ensures Allocated(reward, ws, total) >= 0
  {
    if ws != [] {
      AllocatedNonNegative(reward, ws[..|ws| - 1], total);
      ExactNonNegative(reward, ws[|ws| - 1], total);
    }
  }

  lemma ExactWhole(reward: real, total: real)
    requires total > 0.0
    ensures Exact(reward, total, total) == reward
  {
  }

  /** The allocation before the last contributor, against the exact remainder. */
  lemma BeforeLast(reward: real, ws: seq<real>)
    requires ws != [] && Positive(ws) && reward >= 0.0
    ensures Total(ws) > 0.0
    ensures var n, total := |ws|, Total(ws);
            var gap := reward - Exact(reward, ws[n - 1], total) - Allocated(reward, ws[..n - 1], total) as real;
            -((n - 1) as real) / 2.0 <= gap <= (n - 1) as real / 2.0
  {
    TotalPositive(ws);
    var n, total := |ws|, Total(ws);
    AllocationError(reward, ws[..n - 1], total);
    ExactAdds(reward, Total(ws[..n - 1]), ws[n - 1], total);
    ExactWhole(reward, total);
  }

  /** The split never pays less than the reward, overpays by at most half a unit for every
      contributor but the last, and overpays exactly when the last share had to be cut to zero. */
  lemma PaidBounds(reward: real, ws: seq<real>)
    requires ws != [] && Positive(ws) && reward >= 0.0
    ensures Total(ws) > 0.0
    ensures Paid(reward, ws) >= ToFixed(reward)
    ensures Paid(reward, ws) as real <= reward + (|ws| - 1) as real / 2.0 || Paid(reward, ws) == ToFixed(reward)
    ensures Paid(reward, ws) == ToFixed(reward) <==>
            Allocated(reward, ws[..|ws| - 1], Total(ws)) <= ToFixed(reward)
    ensures Exact(reward, ws[|ws| - 1], Total(ws)) >= (|ws| - 1) as real / 2.0 ==> Paid(reward, ws) == ToFixed(reward)
  {
    BeforeLast(reward, ws);
    ExactNonNegative(reward, ws[|ws| - 1], Total(ws));
  }

  /** Every share but the last is within half a unit of the exact one, the last within half a unit
      for each other contributor and for a reward that is not itself whole. */
  lemma ShareBounds(reward: real, ws: seq<real>, i: nat)
    requires i < |ws| && Positive(ws) && reward >= 0.0
    ensures Total(ws) > 0.0 && Share(reward, ws, i) >= 0
    ensures var error := Share(reward, ws, i) as real - Exact(reward, ws[i], Total(ws));
            var bound := if i < |ws| - 1 then 0.5
                         else (|ws| - 1) as real / 2.0 + if Whole(reward) then 0.0 else 0.5;
            -bound <= error <= bound
  {
    BeforeLast(reward, ws);
    ExactNonNegative(reward, ws[i], Total(ws));
    ToFixedError(Exact(reward, ws[i], Total(ws)));
    ToFixedError(reward);
    if Whole(reward) {
      ToFixedWhole(reward.Floor);
    }
  }

  /** Overpayment does happen: four equal contributors to two units are paid three. */
  lemma OverpaymentExample()
    ensures Total([1.0, 1.0, 1.0, 1.0]) == 4.0
    ensures Paid(2.0, [1.0, 1.0, 1.0, 1.0]) == 3
  {
    var ws := [1.0, 1.0, 1.0, 1.0];
    assert ws[..3] == [1.0, 1.0, 1.0] && [1.0, 1.0, 1.0][..2] == [1.0, 1.0];
    assert [1.0, 1.0][..1] == [1.0] && [1.0][..0] == [];
    assert Total(ws) == 4.0;
    assert ToFixed(Exact(2.0, 1.0, 4.0)) == 1;
    assert Allocated(2.0, ws[..3], 4.0) == 3;
  }

  /** A share as the loops compute it: rounded, or what is left, and never negative. */
  function LoopShare(reward: real, w: real, total: real, isLast: bool, handedOut: int): int
    requires total > 0.0
  {
    var share := if isLast then ToFixed(reward - handedOut as real) else ToFixed(reward * w / total);
    if share < 0 then 0 else share
  }

  lemma LoopShareIsShare(reward: real, ws: seq<real>, i: nat)
    requires i < |ws| && Positive(ws) && Total(ws) > 0.0 && reward >= 0.0
    ensures LoopShare(reward, ws[i], Total(ws), i == |ws| - 1, Allocated(reward, ws[..i], Total(ws))) ==
            Share(reward, ws, i)
    ensures i < |ws| - 1 ==>
              Allocated(reward, ws[..i + 1], Total(ws)) == Allocated(reward, ws[..i], Total(ws)) + Share(reward, ws, i)
  {
    AllocatedNonNegative(reward, ws[..i], Total(ws));
    ToFixedShift(reward, Allocated(reward, ws[..i], Total(ws)));
    ShareBounds(reward, ws, i);
    assert ws[..i + 1][..i] == ws[..i];
  }

  // ---- shares collected by address --------------------------------------------------

  datatype Claim = Claim(address: string, wh: real)

  function Weights(claims: seq<Claim>): seq<real> {
    seq(|claims|, i requires 0 <= i < |claims| => claims[i].wh)
  }

  function AddTo(m: map<string, int>, a: string, amount: int): map<string, int> {
    m[a := amount + if a in m then m[a] else 0]
  }

  /** The shares of the first `n` claims, added up by address. */
  function ShareMap(reward: real, claims: seq<Claim>, n: nat): map<string, int>
    requires n <= |claims| && Total(Weights(claims)) > 0.0
  {
    if n == 0 then map[]
    else AddTo(ShareMap(reward, claims, n - 1), claims[n - 1].address, Share(reward, Weights(claims), n - 1))
  }

  /** What the first `n` shares give to one address. */
  function AmountFor(reward: real, claims: seq<Claim>, n: nat, a: string): int
    requires n <= |claims| && Total(Weights(claims)) > 0.0
  {
    if n == 0 then 0
    else AmountFor(reward, claims, n - 1, a) +
         if claims[n - 1].address == a then Share(reward, Weights(claims), n - 1) else 0
  }

  lemma {:induction false} ShareMapAmounts(reward: real, claims: seq<Claim>, n: nat)
    requires n <= |claims| && Total(Weights(claims)) > 0.0
    ensures forall a: string :: a in ShareMap(reward, claims, n) <==> exists i :: 0 <= i < n && claims[i].address == a
    ensures forall a :: a in ShareMap(reward, claims, n) ==>
                          ShareMap(reward, claims, n)[a] == AmountFor(reward, claims, n, a)
  {
    if n > 0 {
      ShareMapAmounts(reward, claims, n - 1);
      NoClaims(reward, claims, n - 1);
    }
  }

  lemma {:induction false} NoClaims(reward: real, claims: seq<Claim>, n: nat)
    requires n <= |claims| && Total(Weights(claims)) > 0.0
    ensures forall a: string ::
              (forall i :: 0 <= i < n ==> claims[i].address != a) ==> AmountFor(reward, claims, n, a) == 0
  {
    if n > 0 {
      NoClaims(reward, claims, n - 1);
    }
  }

  lemma {:induction false} ShareMapNonNegative(reward: real, claims: seq<Claim>, n: nat)
    requires n <= |claims| && Positive(Weights(claims)) && Total(Weights(claims)) > 0.0 && reward >= 0.0
    ensures forall a :: a in ShareMap(reward, claims, n) ==> ShareMap(reward, claims, n)[a] >= 0
  {
    if n > 0 {
      ShareMapNonNegative(reward, claims, n - 1);
      ShareBounds(reward, Weights(claims), n - 1);
    }
  }

  // ---- from contributions to claims -------------------------------------------------

  /** Trims addresses, cuts negative amounts, and drops what has no address or no energy. */
  function Claims(contributions: Obj<real>): seq<Claim> {
    if contributions == [] then []
    else
      var front := Claims(contributions[..|contributions| - 1]);
      var last := contributions[|contributions| - 1];
      if Trim(last.key) != "" && last.value > 0.0 then front + [Claim(Trim(last.key), last.value)] else front
  }

  lemma {:induction false} ClaimsAreProper(contributions: Obj<real>)
    ensures forall c :: c in Claims(contributions) ==> c.wh > 0.0 && c.address != "" && Trimmed(c.address)
    ensures Positive(Weights(Claims(contributions)))
  {
    if contributions != [] {
      ClaimsAreProper(contributions[..|contributions| - 1]);
      TrimIsTrimmed(contributions[|contributions| - 1].key);
    }
    assert forall i :: 0 <= i < |Claims(contributions)| ==> Claims(contributions)[i] in Claims(contributions);
  }

  /** The shares of a reward, by address; empty when there is nothing or nobody to pay. */
  function SharesOf(reward: real, claims: seq<Claim>): map<string, int> {
    if reward > 0.0 && Total(Weights(claims)) > 0.0 then ShareMap(reward, claims, |claims|) else map[]
  }

  // ---- nothing is lost in the map ---------------------------------------------------

  ghost function MapSum(m: map<string, int>): int {
    if m == map[] then 0
    else
      var k :| k in m;
      m[k] + MapSum(m - {k})
  }

  lemma {:induction false} MapSumRemove(m: map<string, int>, k: string)
    requires k in m
    ensures MapSum(m) == m[k] + MapSum(m - {k})
    decreases |m|
  {
    var j :| j in m && MapSum(m) == m[j] + MapSum(m - {j});
    if j != k {
      MapSumRemove(m - {j}, k);
      MapSumRemove(m - {k}, j);
      assert m - {j} - {k} == m - {k} - {j};
    }
  }

  lemma MapSumAddTo(m: map<string, int>, a: string, amount: int)
    ensures MapSum(AddTo(m, a, amount)) == MapSum(m) + amount
  {
    MapSumRemove(AddTo(m, a, amount), a);
    if a in m {
      MapSumRemove(m, a);
      assert AddTo(m, a, amount) - {a} == m - {a};
    } else {
      assert AddTo(m, a, amount) - {a} == m;
    }
  }

  lemma {:induction false} ShareMapFront(reward: real, claims: seq<Claim>, n: nat)
    requires n < |claims| && Total(Weights(claims)) > 0.0
    ensures MapSum(ShareMap(reward, claims, n)) == Allocated(reward, Weights(claims)[..n], Total(Weights(claims)))
  {
    if n > 0 {
      var ws := Weights(claims);
      ShareMapFront(reward, claims, n - 1);
      MapSumAddTo(ShareMap(reward, claims, n - 1), claims[n - 1].address, Share(reward, ws, n - 1));
      assert ws[..n][..n - 1] == ws[..n - 1];
    }
  }

  /** The map holds all the shares paid, also when trimmed addresses coincide. */
  lemma ShareMapSum(reward: real, claims: seq<Claim>)
    requires claims != [] && Total(Weights(claims)) > 0.0
    ensures MapSum(ShareMap(reward, claims, |claims|)) == Paid(reward, Weights(claims))
  {
    var n := |claims| - 1;
    ShareMapFront(reward, claims, n);
    MapSumAddTo(ShareMap(reward, claims, n), claims[n].address, Share(reward, Weights(claims), n));
  }
}
