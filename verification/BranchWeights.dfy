/**
 Scaling a pair of 64-bit branch counts to the 32-bit weights of branch metadata
 (native/bridge/ckc_llvm.cpp, `ckc_branch_weights`).
 */
module BranchWeights {
  import opened Sequences

  type Count = n: nat | n <= 0xffff_ffff_ffff_ffff

  type Weight = n: nat | n <= MAX_WEIGHT

  const MAX_WEIGHT: nat := 0xffff_ffff
  const MAX_HALVINGS: nat := 32
  const HALF_RANGE: nat := 0x8000_0000

  function Pow2(k: nat): nat {
    if k == 0 then 1 else 2 * Pow2(k - 1)
  }

  function Max(a: nat, b: nat): nat {
    if a < b then b else a
  }

  /** `weight` is `count` in units of `2^k`, rounded down but never to zero. */
  ghost predicate InUnits(count: nat, k: nat, weight: nat) {
    if count < Pow2(k) then weight == 1 else Pow2(k) * weight <= count < Pow2(k) * (weight + 1)
  }

  /** Both weights are in the same unit, and no larger unit was taken than the range of a weight asks for. */
  ghost predicate Scaled(a: nat, b: nat, k: nat, wa: nat, wb: nat) {
    && 1 <= wa <= MAX_WEIGHT && 1 <= wb <= MAX_WEIGHT
    && InUnits(a, k, wa) && InUnits(b, k, wb)
    && (0 < k ==> 0x8000_0000 <= wa || 0x8000_0000 <= wb)
  }

  ghost predicate OrderKept(a: nat, b: nat, wa: nat, wb: nat) {
    (a <= b ==> wa <= wb) && (b <= a ==> wb <= wa)
  }

  /** `half` is `count` after `k` halvings. */
  ghost predicate Halved(count: nat, k: nat, half: nat) {
    Pow2(k) * half <= count < Pow2(k) * (half + 1)
  }

  lemma HalveOnce(count: nat, k: nat, half: nat)
    requires Halved(count, k, half)
    ensures Halved(count, k + 1, half / 2)
  {
    var p, h := Pow2(k), half / 2;
    assert Pow2(k + 1) == 2 * p;
    TwiceTimes(p, h);
    TwiceTimes(p, h + 1);
    TimesIsMonotone(p, 2 * h, half);
    TimesIsMonotone(p, half + 1, 2 * (h + 1));
  }

  lemma TwiceTimes(p: nat, h: nat)
    ensures (2 * p) * h == p * (2 * h)
  {
  }

  lemma NotYetHalved(count: nat)
    ensures Halved(count, 0, count)
  {
  }

  lemma HalvedInUnits(count: nat, k: nat, half: nat)
    requires Halved(count, k, half)
    ensures InUnits(count, k, Max(half, 1))
    ensures half == 0 <==> count < Pow2(k)
  {
    if half == 0 {
      assert Pow2(k) * (half + 1) == Pow2(k);
    } else {
      assert Pow2(k) * half == Pow2(k) + Pow2(k) * (half - 1);
    }
  }

  /** The counts are halved together until both fit; `halvings` counts the rounds of the loop. */
  method ScaleWeights(thenCount: Count, elseCount: Count)
    returns (thenWeight: Weight, elseWeight: Weight, ghost halvings: nat)
    ensures halvings <= MAX_HALVINGS
    ensures halvings > 0 <==> 0xffff_ffff < thenCount || 0xffff_ffff < elseCount
    ensures Scaled(thenCount, elseCount, halvings, thenWeight, elseWeight)
    ensures OrderKept(thenCount, elseCount, thenWeight, elseWeight)
  {
    hide Halved, Pow2, InUnits, Reach;
    NotYetHalved(thenCount);
    NotYetHalved(elseCount);
    ghost var rounds: nat := MAX_HALVINGS;
    AllCountsInReach();
    var t: nat, e: nat, maximum: nat := thenCount, elseCount, Max(thenCount, elseCount);
    halvings := 0;
    while MAX_WEIGHT < maximum
      invariant maximum == Max(t, e) && OrderKept(thenCount, elseCount, t, e)
      invariant halvings + rounds == MAX_HALVINGS && maximum < Reach(rounds)
      invariant Halved(thenCount, halvings, t) && Halved(elseCount, halvings, e)
      invariant if halvings == 0 then maximum == Max(thenCount, elseCount)
                else HALF_RANGE <= maximum && MAX_WEIGHT < Max(thenCount, elseCount)
    {
      HalveOnce(thenCount, halvings, t);
      HalveOnce(elseCount, halvings, e);
      ReachHalves(maximum, rounds);
      t, e, maximum := t / 2, e / 2, maximum / 2;
      halvings, rounds := halvings + 1, rounds - 1;
    }
    HalvedInUnits(thenCount, halvings, t);
    HalvedInUnits(elseCount, halvings, e);
    thenWeight, elseWeight := Max(t, 1), Max(e, 1);
  }

  lemma PowIsMonotone(j: nat, k: nat)
    requires j <= k
    ensures Pow2(j) <= Pow2(k)
  {
  }

  /** Every maximum that `rounds` halvings bring into the range of a weight lies below this. */
  function Reach(rounds: nat): nat {
    if rounds == 0 then MAX_WEIGHT + 1 else 2 * Reach(rounds - 1)
  }

  lemma ReachHalves(maximum: nat, rounds: nat)
    requires MAX_WEIGHT < maximum < Reach(rounds)
    ensures 0 < rounds && maximum / 2 < Reach(rounds - 1)
  {
  }

  lemma ReachOfEight(rounds: nat)
    ensures Reach(rounds + 8) == 0x100 * Reach(rounds)
  {
    assert Reach(rounds + 2) == 4 * Reach(rounds);
    assert Reach(rounds + 4) == 4 * Reach(rounds + 2);
    assert Reach(rounds + 6) == 4 * Reach(rounds + 4);
  }

  /** Every 64-bit maximum is in reach of the allowed halvings. */
  lemma AllCountsInReach()
    ensures Reach(MAX_HALVINGS) == 0x1_0000_0000_0000_0000
  {
    hide Reach;
    ReachOfNothing();
    ReachOfEight(0);
    ReachOfEight(8);
    ReachOfEight(16);
    ReachOfEight(24);
  }

  lemma ReachOfNothing()
    ensures Reach(0) == 0x1_0000_0000
  {
  }

  /** In units of `2^k` the larger count is in the upper half of the range, so it bounds the unit from both sides. */
  lemma UnitIsBounded(a: nat, b: nat, k: nat, wa: nat, wb: nat)
    requires Scaled(a, b, k, wa, wb) && 0 < k
    ensures Pow2(k) * HALF_RANGE <= Max(a, b) < Pow2(k) * (2 * HALF_RANGE)
  {
    var p := Pow2(k);
    LargeWeight(a, p, wa);
    LargeWeight(b, p, wb);
  }

  lemma LargeWeight(count: nat, p: nat, weight: nat)
    requires 0 < p && weight <= MAX_WEIGHT
    requires if count < p then weight == 1 else p * weight <= count < p * (weight + 1)
    ensures count < p * (2 * HALF_RANGE)
    ensures HALF_RANGE <= weight ==> p * HALF_RANGE <= count
  {
    TimesIsMonotone(p, weight + 1, 2 * HALF_RANGE);
    if HALF_RANGE <= weight {
      TimesIsMonotone(p, HALF_RANGE, weight);
    }
  }

  lemma PowDoubles(j: nat, k: nat)
    requires j < k
    ensures 2 * Pow2(j) <= Pow2(k)
  {
    PowIsMonotone(j, k - 1);
  }

  /** The stated conditions leave one unit and one pair of weights. */
  lemma ScaledIsExact(a: nat, b: nat, k: nat, wa: nat, wb: nat, k2: nat, wa2: nat, wb2: nat)
    requires Scaled(a, b, k, wa, wb) && Scaled(a, b, k2, wa2, wb2)
    ensures k == k2 && wa == wa2 && wb == wb2
  {
    UnitsAgree(a, b, k, wa, wb, k2, wa2, wb2);
    UnitsAgree(a, b, k2, wa2, wb2, k, wa, wb);
    WeightsAgree(a, Pow2(k), wa, wa2);
    WeightsAgree(b, Pow2(k), wb, wb2);
  }

  lemma UnitsAgree(a: nat, b: nat, k: nat, wa: nat, wb: nat, k2: nat, wa2: nat, wb2: nat)
    requires Scaled(a, b, k, wa, wb) && Scaled(a, b, k2, wa2, wb2)
    ensures k2 <= k
  {
    if k < k2 {
      var p, unit := Pow2(k), 2 * Pow2(k);
      PowDoubles(k, k2);
      TimesIsMonotone(HALF_RANGE, unit, Pow2(k2));
      UnitIsBounded(a, b, k2, wa2, wb2);
      LargeWeight(a, p, wa);
      LargeWeight(b, p, wb);
    }
  }

  lemma WeightsAgree(count: nat, p: nat, w: nat, v: nat)
    requires 0 < p
    requires if count < p then w == 1 else p * w <= count < p * (w + 1)
    requires if count < p then v == 1 else p * v <= count < p * (v + 1)
    ensures w == v
  {
    if w < v {
      TimesIsMonotone(p, w + 1, v);
    } else if v < w {
      TimesIsMonotone(p, v + 1, w);
    }
  }
}
