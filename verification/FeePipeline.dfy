/** From a mempool snapshot to the projector's input, and from its projection to fee tiers. */
module FeePipeline {
  import opened Limits
  import opened Txids
  import opened UidSums
  import opened TxGraph
  import opened Packing
  import opened PackingRun
  import opened Projector
  import opened Tiers

  /** One transaction of a mempool snapshot. */
  datatype SnapshotTx = SnapshotTx(txid: Txid, fee: nat, weight: nat, depends: seq<Txid>)

  ghost predicate Listed(snapshot: seq<SnapshotTx>, t: Txid) {
    exists i | 0 <= i < |snapshot| :: snapshot[i].txid == t
  }

  /** The uid a txid stands for: the last position that lists it. */
  ghost predicate IsUidOf(snapshot: seq<SnapshotTx>, txid: Txid, uid: nat) {
    && uid < |snapshot| && snapshot[uid].txid == txid
    && forall k | uid < k < |snapshot| :: snapshot[k].txid != txid
  }

  /** uidOf maps exactly the txids of the snapshot to their uids. */
  ghost predicate IndexesTxids(snapshot: seq<SnapshotTx>, uidOf: map<Txid, nat>) {
    && (forall t | t in uidOf :: IsUidOf(snapshot, t, uidOf[t]))
    && (forall i | 0 <= i < |snapshot| :: snapshot[i].txid in uidOf)
  }

  /** The uids of the listed parents that are in the mempool, in listing order. */
  function ParentUids(depends: seq<Txid>, uidOf: map<Txid, nat>): (uids: seq<nat>) {
    if depends == [] then []
    else
      var front := ParentUids(depends[..|depends| - 1], uidOf);
      var d := depends[|depends| - 1];
      if d in uidOf then front + [uidOf[d]] else front
  }

  lemma {:induction false} ParentUidsMembers(depends: seq<Txid>, uidOf: map<Txid, nat>, u: nat)
    ensures u in ParentUids(depends, uidOf) <==> exists d :: d in depends && d in uidOf && uidOf[d] == u
  {
    if depends != [] {
      var n := |depends| - 1;
      assert depends == depends[..n] + [depends[n]];
      ParentUidsMembers(depends[..n], uidOf, u);
    }
  }

  function Adapted(snapshot: seq<SnapshotTx>, uidOf: map<Txid, nat>): seq<GbtTx> {
    seq(|snapshot|, i requires 0 <= i < |snapshot| =>
      GbtTx(i, LeadingBytes(snapshot[i].txid), snapshot[i].fee, snapshot[i].weight,
            ParentUids(snapshot[i].depends, uidOf)))
  }

  /** txs is the projector's input for the snapshot. */
  ghost predicate Represents(snapshot: seq<SnapshotTx>, txs: seq<GbtTx>) {
    exists uidOf :: IndexesTxids(snapshot, uidOf) && txs == Adapted(snapshot, uidOf)
  }

  ghost predicate IsParentOf(snapshot: seq<SnapshotTx>, p: nat, i: nat)
    requires i < |snapshot|
  {
    p < |snapshot| && snapshot[p].txid in snapshot[i].depends && IsUidOf(snapshot, snapshot[p].txid, p)
  }

  lemma ParentsRepresented(snapshot: seq<SnapshotTx>, uidOf: map<Txid, nat>, i: nat, p: nat)
    requires IndexesTxids(snapshot, uidOf) && i < |snapshot|
    ensures p in ParentUids(snapshot[i].depends, uidOf) <==> IsParentOf(snapshot, p, i)
  {
    ParentUidsMembers(snapshot[i].depends, uidOf, p);
    if IsParentOf(snapshot, p, i) {
      assert snapshot[p].txid in uidOf;
      UidUnique(snapshot, snapshot[p].txid, p, uidOf[snapshot[p].txid]);
    }
  }

  lemma UidUnique(snapshot: seq<SnapshotTx>, t: Txid, u: nat, v: nat)
    requires IsUidOf(snapshot, t, u) && IsUidOf(snapshot, t, v)
    ensures u == v
  {
  }

  /** Uid i is the i-th transaction, and its parents are the in-mempool transactions it
      depends on; others are dropped. Uids are dense and parents in range, which is all the
      projector asks of its input. */
  lemma RepresentsMeans(snapshot: seq<SnapshotTx>, txs: seq<GbtTx>)
    requires Represents(snapshot, txs)
    ensures |txs| == |snapshot| && InRange(txs)
    ensures forall i | 0 <= i < |snapshot| ::
              txs[i].uid == i && txs[i].order == LeadingBytes(snapshot[i].txid)
              && txs[i].fee == snapshot[i].fee && txs[i].weight == snapshot[i].weight
    ensures forall i, p: nat | 0 <= i < |snapshot| ::
              p in txs[i].parents
              <==> && p < |snapshot| && snapshot[p].txid in snapshot[i].depends
                   && forall k | p < k < |snapshot| :: snapshot[k].txid != snapshot[p].txid
  {
    var uidOf :| IndexesTxids(snapshot, uidOf) && txs == Adapted(snapshot, uidOf);
    forall i, p: nat | 0 <= i < |snapshot| ensures p in txs[i].parents <==> IsParentOf(snapshot, p, i) {
      ParentsRepresented(snapshot, uidOf, i, p);
    }
  }

  lemma IndexUnique(snapshot: seq<SnapshotTx>, a: map<Txid, nat>, b: map<Txid, nat>)
    requires IndexesTxids(snapshot, a) && IndexesTxids(snapshot, b)
    ensures a == b
  {
    forall t | t in a ensures t in b && b[t] == a[t] {
      assert IsUidOf(snapshot, t, a[t]);
      UidUnique(snapshot, t, a[t], b[t]);
    }
    forall t | t in b ensures t in a {
      assert IsUidOf(snapshot, t, b[t]);
    }
  }

  /** A snapshot has one representation. */
  lemma RepresentsUnique(snapshot: seq<SnapshotTx>, a: seq<GbtTx>, b: seq<GbtTx>)
    requires Represents(snapshot, a) && Represents(snapshot, b)
    ensures a == b
  {
    hide IndexesTxids, Adapted;
    var uidOf :| IndexesTxids(snapshot, uidOf) && a == Adapted(snapshot, uidOf);
    var uidOf' :| IndexesTxids(snapshot, uidOf') && b == Adapted(snapshot, uidOf');
    IndexUnique(snapshot, uidOf, uidOf');
  }

  /** Adapts a snapshot to the projector. */
  method SnapshotToGbt(snapshot: seq<SnapshotTx>) returns (txs: seq<GbtTx>)
    ensures Represents(snapshot, txs)
  {
    var uidOf: map<Txid, nat> := map[];
    for i := 0 to |snapshot|
      invariant IndexesTxids(snapshot[..i], uidOf)
    {
      IndexGrows(snapshot, uidOf, i);
      uidOf := uidOf[snapshot[i].txid := i];
    }
    assert snapshot[..|snapshot|] == snapshot;
    txs := Adapted(snapshot, uidOf);
  }

  lemma IndexGrows(snapshot: seq<SnapshotTx>, uidOf: map<Txid, nat>, i: nat)
    requires i < |snapshot| && IndexesTxids(snapshot[..i], uidOf)
    ensures IndexesTxids(snapshot[..i + 1], uidOf[snapshot[i].txid := i])
  {
    var longer := snapshot[..i + 1];
    assert longer == snapshot[..i] + [snapshot[i]];
    var next := uidOf[snapshot[i].txid := i];
    forall t | t in next ensures IsUidOf(longer, t, next[t]) {
      assert t != snapshot[i].txid ==> IsUidOf(snapshot[..i], t, uidOf[t]);
    }
    forall k | 0 <= k < |longer| ensures longer[k].txid in next {
      assert k < i ==> snapshot[..i][k].txid in uidOf;
    }
  }

  /** The projection with the default limits. */
  method Project(txs: seq<GbtTx>) returns (projection: Projection)
    requires InRange(txs)
    ensures IsProjectionOf(txs, 8, 4_000_000, 4_000, projection)
  {
    projection := ProjectWith(txs, MAX_BLOCKS, MAX_BLOCK_WEIGHT, BLOCK_RESERVED_WEIGHT);
  }

  /** The effective rate and weight of every transaction below uid k that was given a rate. */
  function RatedBelow(snapshot: seq<SnapshotTx>, rates: map<nat, real>, k: nat): seq<RateWeight>
    requires k <= |snapshot|
  {
    if k == 0 then []
    else
      var front := RatedBelow(snapshot, rates, k - 1);
      if k - 1 in rates then front + [RateWeight(rates[k - 1], snapshot[k - 1].weight)] else front
  }

  /** The estimate e is computed from the snapshot: its projection has effective rates whose
      tiers are e's. Transactions the projection left out have no say in it. */
  ghost predicate EstimatesFrom(snapshot: seq<SnapshotTx>, minFee: real, now: nat, e: FeeEstimate) {
    exists txs: seq<GbtTx>, p: Projection ::
      ProjectsFrom(snapshot, txs, p) && IsEstimate(RatedBelow(snapshot, p.rates, |snapshot|), minFee, now, e)
  }

  ghost predicate ProjectsFrom(snapshot: seq<SnapshotTx>, txs: seq<GbtTx>, p: Projection) {
    && Represents(snapshot, txs) && InRange(txs)
    && IsProjectionOf(txs, 8, 4_000_000, 4_000, p)
  }

  /** The transactions with at least this effective rate. */
  ghost function PayingAtLeast(rates: map<nat, real>, rate: real): set<nat> {
    set u | u in rates && rates[u] >= rate
  }

  ghost function WeightsOf(snapshot: seq<SnapshotTx>): (w: seq<nat>)
    ensures |w| == |snapshot| && forall i | 0 <= i < |snapshot| :: w[i] == snapshot[i].weight
  {
    seq(|snapshot|, i requires 0 <= i < |snapshot| => snapshot[i].weight)
  }

  /** The histogram: what the rated transactions paying at least a rate weigh, each once. */
  lemma {:induction false} HistogramWeighs(snapshot: seq<SnapshotTx>, rates: map<nat, real>, rate: real, k: nat)
    requires k <= |snapshot|
    ensures WeightFrom(RatedBelow(snapshot, rates, k), rate)
         == SumTo(WeightsOf(snapshot), PayingAtLeast(rates, rate), k)
  {
    if k > 0 {
      HistogramWeighs(snapshot, rates, rate, k - 1);
      var front := RatedBelow(snapshot, rates, k - 1);
      if k - 1 in rates {
        assert (front + [RateWeight(rates[k - 1], snapshot[k - 1].weight)])[..|front|] == front;
      }
    }
  }

  lemma {:induction false} HistogramRates(snapshot: seq<SnapshotTx>, rates: map<nat, real>, k: nat, rate: real)
    requires k <= |snapshot|
    ensures HasRate(RatedBelow(snapshot, rates, k), rate) <==> exists u | 0 <= u < k && u in rates :: rates[u] == rate
  {
    if k > 0 {
      HistogramRates(snapshot, rates, k - 1, rate);
      var front := RatedBelow(snapshot, rates, k - 1);
      var all := RatedBelow(snapshot, rates, k);
      assert forall i | 0 <= i < |front| :: all[i] == front[i];
      if k - 1 in rates {
        assert all[|front|].rate == rates[k - 1];
      }
    }
  }

  /** The tier over the mempool itself: the largest effective rate above the floor that placed
      transactions of at least the given weight pay at least, or the floor. */
  ghost predicate IsMempoolQuantile(snapshot: seq<SnapshotTx>, rates: map<nat, real>, weight: nat,
                                    floor: real, tier: real) {
    var weights := WeightsOf(snapshot);
    || (tier == floor
        && forall u | 0 <= u < |snapshot| && u in rates && rates[u] > floor ::
             Sum(weights, PayingAtLeast(rates, rates[u])) < weight)
    || (&& tier > floor && Sum(weights, PayingAtLeast(rates, tier)) >= weight
        && (exists u | 0 <= u < |snapshot| && u in rates :: rates[u] == tier)
        && forall u | 0 <= u < |snapshot| && u in rates && rates[u] > tier ::
             Sum(weights, PayingAtLeast(rates, rates[u])) < weight)
  }

  lemma QuantileOverMempool(snapshot: seq<SnapshotTx>, rates: map<nat, real>, weight: nat, floor: real, tier: real)
    requires IsQuantile(RatedBelow(snapshot, rates, |snapshot|), weight, floor, tier)
    ensures IsMempoolQuantile(snapshot, rates, weight, floor, tier)
  {
    hide RatedBelow, WeightFrom, PayingAtLeast;
    var rw := RatedBelow(snapshot, rates, |snapshot|);
    forall r ensures WeightFrom(rw, r) == Sum(WeightsOf(snapshot), PayingAtLeast(rates, r)) {
      HistogramWeighs(snapshot, rates, r, |snapshot|);
    }
    forall u | 0 <= u < |snapshot| && u in rates ensures HasRate(rw, rates[u]) {
      HistogramRates(snapshot, rates, |snapshot|, rates[u]);
    }
    HistogramRates(snapshot, rates, |snapshot|, tier);
  }

  /** What an estimate says about the mempool: some projection's effective rates, the only one
      there is, have its tiers at the weight of 1, 3, 6 and 8 blocks. */
  lemma EstimateMeans(snapshot: seq<SnapshotTx>, minFee: real, now: nat, e: FeeEstimate)
    requires EstimatesFrom(snapshot, minFee, now, e)
    ensures exists txs: seq<GbtTx>, p: Projection :: ProjectsFrom(snapshot, txs, p)
              && IsMempoolQuantile(snapshot, p.rates, 3_996_000, minFee, e.nextBlock)
              && IsMempoolQuantile(snapshot, p.rates, 11_988_000, minFee, e.within3Blocks)
              && IsMempoolQuantile(snapshot, p.rates, 23_976_000, minFee, e.within6Blocks)
              && IsMempoolQuantile(snapshot, p.rates, 31_968_000, minFee, e.horizon)
    ensures e.relayFloor == minFee && e.computedAt == now
  {
    hide IsEstimate, IsQuantile, IsMempoolQuantile, ProjectsFrom;
    var txs: seq<GbtTx>, p: Projection :|
      ProjectsFrom(snapshot, txs, p) && IsEstimate(RatedBelow(snapshot, p.rates, |snapshot|), minFee, now, e);
    EstimateIsQuantiles(RatedBelow(snapshot, p.rates, |snapshot|), minFee, now, e);
    QuantileOverMempool(snapshot, p.rates, 3_996_000, minFee, e.nextBlock);
    QuantileOverMempool(snapshot, p.rates, 11_988_000, minFee, e.within3Blocks);
    QuantileOverMempool(snapshot, p.rates, 23_976_000, minFee, e.within6Blocks);
    QuantileOverMempool(snapshot, p.rates, 31_968_000, minFee, e.horizon);
  }

  /** The whole pipeline, from snapshot to tiers. */
  method ComputeEstimate(snapshot: seq<SnapshotTx>, minFee: real, now: nat) returns (e: FeeEstimate)
    ensures EstimatesFrom(snapshot, minFee, now, e)
    ensures e.nextBlock >= e.within3Blocks >= e.within6Blocks >= e.horizon >= e.relayFloor
  {
    hide IsEstimate, IsProjectionOf, Represents;
    var txs := SnapshotToGbt(snapshot);
    RepresentsMeans(snapshot, txs);
    var projection := Project(txs);
    e := RecommendedTiers(RatedBelow(snapshot, projection.rates, |snapshot|), minFee, now);
    assert ProjectsFrom(snapshot, txs, projection);
  }

  /** The tiers depend on nothing but the snapshot: not on hash iteration order, nor on how the
      projector's heap, sorts and searches happen to proceed. */
  lemma EstimateDeterministic(snapshot: seq<SnapshotTx>, minFee: real, now: nat, e: FeeEstimate, e': FeeEstimate)
    requires EstimatesFrom(snapshot, minFee, now, e) && EstimatesFrom(snapshot, minFee, now, e')
    ensures e == e'
  {
    hide IsTier, IsProjectionOf, Represents;
    var txs, p :|
      ProjectsFrom(snapshot, txs, p) && IsEstimate(RatedBelow(snapshot, p.rates, |snapshot|), minFee, now, e);
    var txs', q :|
      ProjectsFrom(snapshot, txs', q) && IsEstimate(RatedBelow(snapshot, q.rates, |snapshot|), minFee, now, e');
    RepresentsUnique(snapshot, txs, txs');
    ProjectionUnique(txs, 8, 4_000_000, 4_000, p, q);
    var rw := RatedBelow(snapshot, p.rates, |snapshot|);
    TierUnique(rw, FASTEST_DEPTH, minFee, e.nextBlock, e'.nextBlock);
    TierUnique(rw, HALF_HOUR_DEPTH, minFee, e.within3Blocks, e'.within3Blocks);
    TierUnique(rw, HOUR_DEPTH, minFee, e.within6Blocks, e'.within6Blocks);
    TierUnique(rw, ECONOMY_DEPTH, minFee, e.horizon, e'.horizon);
  }
}
