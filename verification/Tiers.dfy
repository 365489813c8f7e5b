/** Fee tiers read off a weight histogram of effective rates. */
module Tiers {
  import opened Limits

  datatype RateWeight = RateWeight(rate: real, weight: nat)

  datatype FeeEstimate = FeeEstimate(nextBlock: real, within3Blocks: real, within6Blocks: real,
                                     horizon: real, relayFloor: real, computedAt: nat)

  /** Weight a projected block offers transactions: the block limit less the reserve. */
  const TIER_BLOCK_WEIGHT: nat := MAX_BLOCK_WEIGHT - BLOCK_RESERVED_WEIGHT

  const FASTEST_DEPTH: nat := 1
  const HALF_HOUR_DEPTH: nat := 3
  const HOUR_DEPTH: nat := 6
  const ECONOMY_DEPTH: nat := 8

  function Max(x: real, y: real): real {
    if x >= y then x else y
  }

  /** The weight of depth projected blocks, saturating at the largest 64-bit number. */
  function Threshold(depth: nat): nat {
    SaturatingMul(depth, TIER_BLOCK_WEIGHT)
  }

  lemma ThresholdMonotone(d: nat, e: nat)
    requires d <= e
    ensures Threshold(d) <= Threshold(e)
  {
  }

  /** What the transactions paying at least rate weigh together. */
  ghost function WeightFrom(rw: seq<RateWeight>, rate: real): nat {
    if rw == [] then 0
    else WeightFrom(rw[..|rw| - 1], rate) + (if rw[|rw| - 1].rate >= rate then rw[|rw| - 1].weight else 0)
  }

  ghost function TotalWeight(rw: seq<RateWeight>): nat {
    if rw == [] then 0 else TotalWeight(rw[..|rw| - 1]) + rw[|rw| - 1].weight
  }

  /** Outbidding rate wins a place within depth blocks: enough weight pays at least that. */
  ghost predicate Clears(rw: seq<RateWeight>, depth: nat, rate: real) {
    WeightFrom(rw, rate) >= Threshold(depth)
  }

  ghost predicate HasRate(rw: seq<RateWeight>, rate: real) {
    exists i | 0 <= i < |rw| :: rw[i].rate == rate
  }

  ghost predicate IsMarginal(rw: seq<RateWeight>, depth: nat, rate: real) {
    && HasRate(rw, rate) && Clears(rw, depth, rate)
    && forall i | 0 <= i < |rw| && Clears(rw, depth, rw[i].rate) :: rw[i].rate <= rate
  }

  ghost predicate NothingClears(rw: seq<RateWeight>, depth: nat) {
    forall i | 0 <= i < |rw| :: !Clears(rw, depth, rw[i].rate)
  }

  /** The tier at a depth, with no mention of any order: the largest rate in the mempool that
      enough weight pays at least, lifted to the floor; the floor if there is no such rate. */
  ghost predicate IsTier(rw: seq<RateWeight>, depth: nat, floor: real, tier: real) {
    || (NothingClears(rw, depth) && tier == floor)
    || exists rate :: IsMarginal(rw, depth, rate) && tier == Max(rate, floor)
  }

  /** The tier is the largest rate above the floor that transactions of at least the given weight
      pay at least, or the floor if there is none. */
  ghost predicate IsQuantile(rw: seq<RateWeight>, weight: nat, floor: real, tier: real) {
    || (tier == floor && forall i | 0 <= i < |rw| && rw[i].rate > floor :: WeightFrom(rw, rw[i].rate) < weight)
    || (&& tier > floor && HasRate(rw, tier) && WeightFrom(rw, tier) >= weight
        && forall i | 0 <= i < |rw| && rw[i].rate > tier :: WeightFrom(rw, rw[i].rate) < weight)
  }

  /** Depth counts blocks of 3,996,000 weight units, as far as a 64-bit number can. */
  lemma TierIsQuantile(rw: seq<RateWeight>, depth: nat, floor: real, tier: real)
    requires IsTier(rw, depth, floor, tier)
    ensures depth * 3_996_000 <= 0xFFFF_FFFF_FFFF_FFFF ==> IsQuantile(rw, depth * 3_996_000, floor, tier)
    ensures depth * 3_996_000 > 0xFFFF_FFFF_FFFF_FFFF ==> IsQuantile(rw, 0xFFFF_FFFF_FFFF_FFFF, floor, tier)
  {
    hide WeightFrom;
    var weight := if depth * 3_996_000 <= 0xFFFF_FFFF_FFFF_FFFF then depth * 3_996_000 else 0xFFFF_FFFF_FFFF_FFFF;
    assert Threshold(depth) == weight;
    if rate :| IsMarginal(rw, depth, rate) && tier == Max(rate, floor) {
      forall i | 0 <= i < |rw| && rw[i].rate > tier ensures WeightFrom(rw, rw[i].rate) < weight {
        assert !Clears(rw, depth, rw[i].rate);
      }
    } else {
      forall i | 0 <= i < |rw| ensures WeightFrom(rw, rw[i].rate) < weight {
        assert !Clears(rw, depth, rw[i].rate);
      }
    }
  }

  lemma {:induction false} WeightFromAtMostTotal(rw: seq<RateWeight>, rate: real)
    ensures WeightFrom(rw, rate) <= TotalWeight(rw)
  {
    if rw != [] {
      WeightFromAtMostTotal(rw[..|rw| - 1], rate);
    }
  }

  lemma {:induction false} WeightFromConcat(a: seq<RateWeight>, b: seq<RateWeight>, rate: real)
    ensures WeightFrom(a + b, rate) == WeightFrom(a, rate) + WeightFrom(b, rate)
  {
    if b == [] {
      assert a + b == a;
    } else {
      assert (a + b)[..|a + b| - 1] == a + b[..|b| - 1];
      WeightFromConcat(a, b[..|b| - 1], rate);
    }
  }

  lemma {:induction false} WeightFromAll(rw: seq<RateWeight>, rate: real)
    requires forall i | 0 <= i < |rw| :: rw[i].rate >= rate
    ensures WeightFrom(rw, rate) == TotalWeight(rw)
  {
    if rw != [] {
      WeightFromAll(rw[..|rw| - 1], rate);
    }
  }

  lemma {:induction false} WeightFromNone(rw: seq<RateWeight>, rate: real)
    requires forall i | 0 <= i < |rw| :: rw[i].rate < rate
    ensures WeightFrom(rw, rate) == 0
  {
    if rw != [] {
      WeightFromNone(rw[..|rw| - 1], rate);
    }
  }

  ghost predicate Descending(rw: seq<RateWeight>) {
    forall i, j | 0 <= i < j < |rw| :: rw[i].rate >= rw[j].rate
  }

  /** In a descending list the weight at or above the i-th rate includes the first i + 1. */
  lemma PrefixClears(rw: seq<RateWeight>, i: nat)
    requires Descending(rw) && i < |rw|
    ensures TotalWeight(rw[..i + 1]) <= WeightFrom(rw, rw[i].rate)
  {
    hide WeightFrom, TotalWeight;
    assert rw == rw[..i + 1] + rw[i + 1..];
    WeightFromConcat(rw[..i + 1], rw[i + 1..], rw[i].rate);
    WeightFromAll(rw[..i + 1], rw[i].rate);
  }

  /** In a descending list a rate above the i-th one is paid by the first i only. */
  lemma HigherRatesStayBefore(rw: seq<RateWeight>, i: nat, rate: real)
    requires Descending(rw) && i < |rw| && rate > rw[i].rate
    ensures WeightFrom(rw, rate) <= TotalWeight(rw[..i])
  {
    hide WeightFrom, TotalWeight;
    assert rw == rw[..i] + rw[i..];
    WeightFromConcat(rw[..i], rw[i..], rate);
    WeightFromNone(rw[i..], rate);
    WeightFromAtMostTotal(rw[..i], rate);
  }

  /** The rate at which the cumulative weight of the sorted list first reaches the depth. */
  method TierAtDepth(sortedDesc: seq<RateWeight>, depth: nat, floor: real) returns (tier: real)
    requires Descending(sortedDesc)
    ensures IsTier(sortedDesc, depth, floor, tier)
    ensures depth * 3_996_000 <= 0xFFFF_FFFF_FFFF_FFFF ==> IsQuantile(sortedDesc, depth * 3_996_000, floor, tier)
  {
    hide IsQuantile;
    var threshold := Threshold(depth);
    var cum := 0;
    for i := 0 to |sortedDesc|
      invariant cum == TotalWeight(sortedDesc[..i])
      invariant i > 0 ==> cum < threshold
    {
      ghost var before := cum;
      assert sortedDesc[..i + 1][..i] == sortedDesc[..i];
      cum := cum + sortedDesc[i].weight;
      if cum >= threshold {
        FirstToReach(sortedDesc, depth, i);
        TierIsQuantile(sortedDesc, depth, floor, Max(sortedDesc[i].rate, floor));
        return Max(sortedDesc[i].rate, floor);
      }
    }
    assert sortedDesc[..|sortedDesc|] == sortedDesc;
    forall k | 0 <= k < |sortedDesc| ensures !Clears(sortedDesc, depth, sortedDesc[k].rate) {
      WeightFromAtMostTotal(sortedDesc, sortedDesc[k].rate);
    }
    tier := floor;
    TierIsQuantile(sortedDesc, depth, floor, tier);
  }

  lemma FirstToReach(rw: seq<RateWeight>, depth: nat, i: nat)
    requires Descending(rw) && i < |rw|
    requires TotalWeight(rw[..i + 1]) >= Threshold(depth)
    requires i > 0 ==> TotalWeight(rw[..i]) < Threshold(depth)
    ensures IsMarginal(rw, depth, rw[i].rate)
  {
    PrefixClears(rw, i);
    forall k | 0 <= k < |rw| && Clears(rw, depth, rw[k].rate) ensures rw[k].rate <= rw[i].rate {
      if i > 0 && rw[k].rate > rw[i].rate {
        HigherRatesStayBefore(rw, i, rw[k].rate);
      }
    }
  }

  lemma InsertDescending(xs: seq<RateWeight>, k: nat, x: RateWeight)
    requires Descending(xs) && k <= |xs|
    requires forall j | k <= j < |xs| :: xs[j].rate < x.rate
    requires k > 0 ==> xs[k - 1].rate >= x.rate
    ensures Descending(xs[..k] + [x] + xs[k..])
  {
    var ys := xs[..k] + [x] + xs[k..];
    forall i, j | 0 <= i < j < |ys| ensures ys[i].rate >= ys[j].rate {
      var a := if i < k then xs[i] else if i == k then x else xs[i - 1];
      var b := if j < k then xs[j] else if j == k then x else xs[j - 1];
      assert ys[i] == a && ys[j] == b;
      assert i < k && k > 0 ==> a.rate >= xs[k - 1].rate;
    }
  }

  lemma InsertKeepsAll(xs: seq<RateWeight>, k: nat, x: RateWeight)
    requires k <= |xs|
    ensures multiset(xs[..k] + [x] + xs[k..]) == multiset(xs) + multiset{x}
  {
    assert xs == xs[..k] + xs[k..];
  }

  /** Stable insertion sort, highest rate first. */
  method SortDescending(rw: seq<RateWeight>) returns (sorted: seq<RateWeight>)
    ensures Descending(sorted) && multiset(sorted) == multiset(rw)
  {
    sorted := [];
    for i := 0 to |rw|
      invariant Descending(sorted) && multiset(sorted) == multiset(rw[..i])
    {
      var x := rw[i];
      var k := |sorted|;
      while k > 0 && sorted[k - 1].rate < x.rate
        invariant 0 <= k <= |sorted|
        invariant forall j | k <= j < |sorted| :: sorted[j].rate < x.rate
      {
        k := k - 1;
      }
      assert rw[..i + 1] == rw[..i] + [x];
      InsertDescending(sorted, k, x);
      InsertKeepsAll(sorted, k, x);
      sorted := sorted[..k] + [x] + sorted[k..];
    }
    assert rw[..|rw|] == rw;
  }

  /** Taking one element out takes exactly its weight out. */
  lemma WithoutOne(b: seq<RateWeight>, k: nat, rate: real)
    requires k < |b|
    ensures multiset(b[..k] + b[k + 1..]) == multiset(b) - multiset{b[k]}
    ensures WeightFrom(b, rate)
         == WeightFrom(b[..k] + b[k + 1..], rate) + (if b[k].rate >= rate then b[k].weight else 0)
  {
    assert b == b[..k] + ([b[k]] + b[k + 1..]);
    WeightFromConcat(b[..k], [b[k]] + b[k + 1..], rate);
    WeightFromConcat([b[k]], b[k + 1..], rate);
    WeightFromConcat(b[..k], b[k + 1..], rate);
    assert [b[k]][..0] == [];
  }

  lemma {:induction false} WeightFromPermuted(a: seq<RateWeight>, b: seq<RateWeight>, rate: real)
    requires multiset(a) == multiset(b)
    ensures WeightFrom(a, rate) == WeightFrom(b, rate)
    decreases |a|
  {
    hide WeightFrom;
    if a == [] {
      assert |multiset(b)| == 0;
      assert b == [];
    } else {
      var n := |a| - 1;
      assert a[n] in multiset(b);
      var k :| 0 <= k < |b| && b[k] == a[n];
      WithoutOne(a, n, rate);
      WithoutOne(b, k, rate);
      WeightFromPermuted(a[..n] + a[n + 1..], b[..k] + b[k + 1..], rate);
    }
  }

  lemma HasRatePermuted(a: seq<RateWeight>, b: seq<RateWeight>, i: nat)
    requires multiset(a) == multiset(b) && i < |a|
    ensures HasRate(b, a[i].rate)
  {
    assert a[i] in multiset(b);
  }

  /** A tier does not depend on the order in which the mempool is listed. */
  lemma TierPermuted(a: seq<RateWeight>, b: seq<RateWeight>, depth: nat, floor: real, tier: real)
    requires multiset(a) == multiset(b) && IsTier(a, depth, floor, tier)
    ensures IsTier(b, depth, floor, tier)
  {
    forall rate ensures WeightFrom(a, rate) == WeightFrom(b, rate) {
      WeightFromPermuted(a, b, rate);
    }
    forall k | 0 <= k < |b| ensures HasRate(a, b[k].rate) {
      HasRatePermuted(b, a, k);
    }
    if rate :| IsMarginal(a, depth, rate) && tier == Max(rate, floor) {
      var i :| 0 <= i < |a| && a[i].rate == rate;
      HasRatePermuted(a, b, i);
      assert IsMarginal(b, depth, rate);
    } else {
      assert NothingClears(b, depth);
    }
  }

  lemma MarginalUnique(rw: seq<RateWeight>, depth: nat, r: real, s: real)
    requires IsMarginal(rw, depth, r) && IsMarginal(rw, depth, s)
    ensures r == s
  {
  }

  /** The specification determines the tier. */
  lemma TierUnique(rw: seq<RateWeight>, depth: nat, floor: real, s: real, t: real)
    requires IsTier(rw, depth, floor, s) && IsTier(rw, depth, floor, t)
    ensures s == t
  {
    if r :| IsMarginal(rw, depth, r) && s == Max(r, floor) {
      if q :| IsMarginal(rw, depth, q) && t == Max(q, floor) {
        MarginalUnique(rw, depth, r, q);
      }
    }
  }

  /** A tier is the floor exactly when too little weight pays more than the floor. */
  lemma TierAboveFloorIff(rw: seq<RateWeight>, depth: nat, floor: real, tier: real)
    requires IsTier(rw, depth, floor, tier)
    ensures tier >= floor
    ensures tier > floor <==> exists i | 0 <= i < |rw| :: rw[i].rate > floor && Clears(rw, depth, rw[i].rate)
  {
  }

  /** A short mempool, one that holds less weight than the depth asks for, has the floor as tier. */
  lemma ShortMempoolAtFloor(rw: seq<RateWeight>, depth: nat, floor: real, tier: real)
    requires IsTier(rw, depth, floor, tier) && TotalWeight(rw) < Threshold(depth)
    ensures tier == floor
  {
    forall rate ensures !Clears(rw, depth, rate) {
      WeightFromAtMostTotal(rw, rate);
    }
  }

  lemma {:induction false} LowestRate(rw: seq<RateWeight>) returns (i: nat)
    requires rw != []
    ensures i < |rw| && forall j | 0 <= j < |rw| :: rw[j].rate >= rw[i].rate
  {
    var n := |rw| - 1;
    i := n;
    if n > 0 {
      var k := LowestRate(rw[..n]);
      if rw[k].rate < rw[n].rate {
        i := k;
      }
      forall j | 0 <= j < |rw| ensures rw[j].rate >= rw[i].rate {
        assert j < n ==> rw[..n][j].rate >= rw[..n][k].rate;
      }
    }
  }

  /** If everybody pays at least some rate and together they weigh enough, so does the tier. */
  lemma TierAtLeastLowest(rw: seq<RateWeight>, depth: nat, floor: real, tier: real, rate: real)
    requires IsTier(rw, depth, floor, tier) && rw != [] && TotalWeight(rw) >= Threshold(depth)
    requires forall i | 0 <= i < |rw| :: rw[i].rate >= rate
    ensures tier >= rate
  {
    hide TotalWeight, WeightFrom;
    var low := LowestRate(rw);
    WeightFromAll(rw, rw[low].rate);
    assert Clears(rw, depth, rw[low].rate);
  }

  /** Waiting longer never costs more. */
  lemma TierNonIncreasing(rw: seq<RateWeight>, d: nat, e: nat, floor: real, s: real, t: real)
    requires d <= e && IsTier(rw, d, floor, s) && IsTier(rw, e, floor, t)
    ensures s >= t
  {
    ThresholdMonotone(d, e);
    if q :| IsMarginal(rw, e, q) && t == Max(q, floor) {
      var i :| 0 <= i < |rw| && rw[i].rate == q;
      assert Clears(rw, d, rw[i].rate);
    }
  }

  /** One more rate and weight in the list never lowers a tier. */
  lemma MoreDemandNeverLowers(rw: seq<RateWeight>, x: RateWeight, depth: nat, floor: real, s: real, t: real)
    requires IsTier(rw, depth, floor, s) && IsTier(rw + [x], depth, floor, t)
    ensures t >= s
  {
    var more := rw + [x];
    if r :| IsMarginal(rw, depth, r) && s == Max(r, floor) {
      var i :| 0 <= i < |rw| && rw[i].rate == r;
      assert more[i].rate == r;
      WeightFromConcat(rw, [x], r);
      assert Clears(more, depth, more[i].rate);
    }
  }

  ghost predicate IsEstimate(rw: seq<RateWeight>, floor: real, computedAt: nat, e: FeeEstimate) {
    && IsTier(rw, FASTEST_DEPTH, floor, e.nextBlock)
    && IsTier(rw, HALF_HOUR_DEPTH, floor, e.within3Blocks)
    && IsTier(rw, HOUR_DEPTH, floor, e.within6Blocks)
    && IsTier(rw, ECONOMY_DEPTH, floor, e.horizon)
    && e.relayFloor == floor && e.computedAt == computedAt
  }

  /** The four tiers: what 1, 3, 6 and 8 projected blocks of transactions pay at least. */
  ghost predicate AreQuantiles(rw: seq<RateWeight>, floor: real, e: FeeEstimate) {
    && IsQuantile(rw, 3_996_000, floor, e.nextBlock)
    && IsQuantile(rw, 11_988_000, floor, e.within3Blocks)
    && IsQuantile(rw, 23_976_000, floor, e.within6Blocks)
    && IsQuantile(rw, 31_968_000, floor, e.horizon)
    && e.relayFloor == floor
  }

  lemma EstimateIsQuantiles(rw: seq<RateWeight>, floor: real, computedAt: nat, e: FeeEstimate)
    requires IsEstimate(rw, floor, computedAt, e)
    ensures AreQuantiles(rw, floor, e) && e.computedAt == computedAt
  {
    hide IsTier, IsQuantile;
    TierIsQuantile(rw, FASTEST_DEPTH, floor, e.nextBlock);
    TierIsQuantile(rw, HALF_HOUR_DEPTH, floor, e.within3Blocks);
    TierIsQuantile(rw, HOUR_DEPTH, floor, e.within6Blocks);
    TierIsQuantile(rw, ECONOMY_DEPTH, floor, e.horizon);
  }

  /** The four recommended tiers of a mempool listed in any order. */
  method RecommendedTiers(rateWeights: seq<RateWeight>, minFee: real, computedAt: nat) returns (e: FeeEstimate)
    ensures IsEstimate(rateWeights, minFee, computedAt, e) && AreQuantiles(rateWeights, minFee, e)
    ensures e.nextBlock >= e.within3Blocks >= e.within6Blocks >= e.horizon >= e.relayFloor
  {
    hide IsTier, IsQuantile;
    var sorted := SortDescending(rateWeights);
    var t1 := TierAtDepth(sorted, FASTEST_DEPTH, minFee);
    var t3 := TierAtDepth(sorted, HALF_HOUR_DEPTH, minFee);
    var t6 := TierAtDepth(sorted, HOUR_DEPTH, minFee);
    var t8 := TierAtDepth(sorted, ECONOMY_DEPTH, minFee);
    e := FeeEstimate(t1, t3, t6, t8, minFee, computedAt);
    TierPermuted(sorted, rateWeights, FASTEST_DEPTH, minFee, t1);
    TierPermuted(sorted, rateWeights, HALF_HOUR_DEPTH, minFee, t3);
    TierPermuted(sorted, rateWeights, HOUR_DEPTH, minFee, t6);
    TierPermuted(sorted, rateWeights, ECONOMY_DEPTH, minFee, t8);
    TierNonIncreasing(sorted, FASTEST_DEPTH, HALF_HOUR_DEPTH, minFee, t1, t3);
    TierNonIncreasing(sorted, HALF_HOUR_DEPTH, HOUR_DEPTH, minFee, t3, t6);
    TierNonIncreasing(sorted, HOUR_DEPTH, ECONOMY_DEPTH, minFee, t6, t8);
    TierAboveFloorIff(sorted, ECONOMY_DEPTH, minFee, t8);
    EstimateIsQuantiles(rateWeights, minFee, computedAt, e);
  }
}
