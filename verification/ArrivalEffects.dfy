/** What one more transaction in the mempool can do to the fee tiers. */
module ArrivalEffects {
  import opened Limits
  import opened Txids
  import opened TxGraph
  import opened Packing
  import opened PackingRun
  import opened PackingTheorems
  import opened Completeness
  import opened Stranding
  import opened Tiers
  import opened FeePipeline

  /** All pay the given rate per weight unit, and the filler takes up exactly one block. */
  ghost function Bundle(rate: nat): Kit {
    Kit(rate, 1_000, TIER_BLOCK_WEIGHT, 1_000)
  }

  const CHILD_ID: Txid := 0
  const FILLER_ID: Txid := TWO_TO_224
  const PARENT_ID: Txid := 2 * TWO_TO_224

  /** The filler and the parent, which is still childless. */
  ghost function Before(rate: nat): seq<SnapshotTx> {
    [SnapshotTx(FILLER_ID, rate * TIER_BLOCK_WEIGHT, TIER_BLOCK_WEIGHT, []),
     SnapshotTx(PARENT_ID, rate * 1_000, 1_000, [])]
  }

  /** The same with the child. */
  ghost function After(rate: nat): seq<SnapshotTx> {
    [SnapshotTx(CHILD_ID, rate * 1_000, 1_000, [PARENT_ID])] + Before(rate)
  }

  ghost function TrapInput(rate: nat): Input {
    Trap(Bundle(rate), MAX_BLOCKS, MAX_BLOCK_WEIGHT, BLOCK_RESERVED_WEIGHT)
  }

  ghost function PairTxs(rate: nat): seq<GbtTx> {
    [GbtTx(0, 1, rate * TIER_BLOCK_WEIGHT, TIER_BLOCK_WEIGHT, []), GbtTx(1, 2, rate * 1_000, 1_000, [])]
  }

  lemma Orders()
    ensures LeadingBytes(CHILD_ID) == 0 && LeadingBytes(FILLER_ID) == 1 && LeadingBytes(PARENT_ID) == 2
    ensures CHILD_ID < FILLER_ID < PARENT_ID
  {
  }

  lemma AfterRepresented(rate: nat)
    ensures Represents(After(rate), TrapInput(rate).txs)
  {
    hide LeadingBytes;
    Orders();
    var snapshot := After(rate);
    var uidOf := map[CHILD_ID := 0, FILLER_ID := 1, PARENT_ID := 2];
    assert ParentUids([], uidOf) == [];
    assert [PARENT_ID][..0] == [];
    assert ParentUids([PARENT_ID], uidOf) == [2];
    assert IndexesTxids(snapshot, uidOf);
    assert Adapted(snapshot, uidOf) == TrapInput(rate).txs;
  }

  lemma BeforeRepresented(rate: nat)
    ensures Represents(Before(rate), PairTxs(rate))
  {
    hide LeadingBytes;
    Orders();
    var snapshot := Before(rate);
    var uidOf := map[FILLER_ID := 0, PARENT_ID := 1];
    assert ParentUids([], uidOf) == [];
    assert IndexesTxids(snapshot, uidOf);
    assert Adapted(snapshot, uidOf) == PairTxs(rate);
  }

  /** An exact input is determined by its transactions and limits. */
  lemma ExactIsConfigured(g: Input)
    requires g.Exact() && !g.alwaysDrain
    ensures Configured(g.txs, g.maxBlocks, g.limit, g.reserved) == g
  {
    var h := Configured(g.txs, g.maxBlocks, g.limit, g.reserved);
    assert h.anc == g.anc;
  }

  lemma TotalOfTwo(x: RateWeight, y: RateWeight)
    ensures TotalWeight([x, y]) == x.weight + y.weight
  {
    assert [x, y][..1] == [x] && [x][..0] == [];
    assert TotalWeight([x]) == TotalWeight([x][..0]) + x.weight;
  }

  lemma RatedParentAndChild(rate: nat, rates: map<nat, real>)
    requires rates.Keys == {0, 2}
    ensures TotalWeight(RatedBelow(After(rate), rates, 3)) == 2_000
  {
    var s := After(rate);
    var one := [RateWeight(rates[0], 1_000)];
    var two := one + [RateWeight(rates[2], 1_000)];
    assert RatedBelow(s, rates, 1) == one && RatedBelow(s, rates, 2) == one && RatedBelow(s, rates, 3) == two;
    TotalOfTwo(one[0], two[1]);
    assert two == [one[0], two[1]];
  }

  lemma RatedPair(rate: nat, rates: map<nat, real>)
    requires rates.Keys == {0, 1}
    ensures RatedBelow(Before(rate), rates, 2) == [RateWeight(rates[0], TIER_BLOCK_WEIGHT), RateWeight(rates[1], 1_000)]
    ensures TotalWeight(RatedBelow(Before(rate), rates, 2)) == TIER_BLOCK_WEIGHT + 1_000
  {
    var s := Before(rate);
    var one := [RateWeight(rates[0], TIER_BLOCK_WEIGHT)];
    var two := one + [RateWeight(rates[1], 1_000)];
    assert RatedBelow(s, rates, 1) == one && RatedBelow(s, rates, 2) == two;
    TotalOfTwo(one[0], two[1]);
    assert two == [one[0], two[1]];
  }

  /** With the child the filler is lost, and what is left does not fill a block. */
  lemma AfterAtFloor(rate: nat, minFee: real, now: nat, e: FeeEstimate)
    requires rate > 0 && EstimatesFrom(After(rate), minFee, now, e)
    ensures e.nextBlock == minFee
  {
    hide Represents, IsTier, Trap, RatedBelow, TotalWeight, Configured, ProjectsTo;
    var g := TrapInput(rate);
    var txs, p :|
      ProjectsFrom(After(rate), txs, p) && IsEstimate(RatedBelow(After(rate), p.rates, 3), minFee, now, e);
    AfterRepresented(rate);
    RepresentsUnique(After(rate), txs, g.txs);
    TrapExact(Bundle(rate), MAX_BLOCKS, MAX_BLOCK_WEIGHT, BLOCK_RESERVED_WEIGHT);
    ExactIsConfigured(g);
    var run :| ProjectsTo(g, run, p);
    AfterRates(rate, run, p);
    RatedParentAndChild(rate, p.rates);
    ShortMempoolAtFloor(RatedBelow(After(rate), p.rates, 3), FASTEST_DEPTH, minFee, e.nextBlock);
  }

  lemma AfterRates(rate: nat, run: seq<State>, p: Projection)
    requires rate > 0 && TrapInput(rate).Exact() && ProjectsTo(TrapInput(rate), run, p)
    ensures p.rates.Keys == {0, 2}
  {
    hide IsCompleteRun, Trap;
    TrapLosesFiller(Bundle(rate), MAX_BLOCKS, MAX_BLOCK_WEIGHT, BLOCK_RESERVED_WEIGHT, run);
  }

  lemma PairPlaced(rate: nat, g: Input, run: seq<State>, p: Projection)
    requires rate > 0 && g.Exact() && !g.alwaysDrain && g.txs == PairTxs(rate) && ProjectsTo(g, run, p)
    ensures p.rates.Keys == {0, 1}
    ensures p.rates[0] >= 4.0 * rate as real - TOLERANCE && p.rates[1] >= 4.0 * rate as real - TOLERANCE
  {
    hide IsRun, Rate;
    IndependentTxsAllPlaced(g, run);
    assert g.All() == {0, 1};
    RootsNeverBelowOwnRate(g, run, 0);
    RootsNeverBelowOwnRate(g, run, 1);
    RateOf(rate, TIER_BLOCK_WEIGHT);
    RateOf(rate, 1_000);
  }

  lemma PairExact(rate: nat)
    ensures InRange(PairTxs(rate)) && Acyclic(PairTxs(rate))
  {
    RankedIsAcyclic(PairTxs(rate), [0, 0]);
  }

  /** Without the child both are placed, and there is more than a block of them. */
  lemma BeforeAtRate(rate: nat, minFee: real, now: nat, e: FeeEstimate)
    requires rate > 0 && EstimatesFrom(Before(rate), minFee, now, e)
    ensures e.nextBlock >= 4.0 * rate as real - TOLERANCE
  {
    hide Represents, IsTier, RatedBelow, TotalWeight, Configured, ProjectsTo;
    var txs, p :|
      ProjectsFrom(Before(rate), txs, p) && IsEstimate(RatedBelow(Before(rate), p.rates, 2), minFee, now, e);
    BeforeRepresented(rate);
    RepresentsUnique(Before(rate), txs, PairTxs(rate));
    PairExact(rate);
    var g := Configured(txs, MAX_BLOCKS, MAX_BLOCK_WEIGHT, BLOCK_RESERVED_WEIGHT);
    ConfiguredIs(txs);
    var run :| ProjectsTo(g, run, p);
    PairPlaced(rate, g, run, p);
    RatedPair(rate, p.rates);
    TierAtLeastLowest(RatedBelow(Before(rate), p.rates, 2), FASTEST_DEPTH, minFee, e.nextBlock,
                      4.0 * rate as real - TOLERANCE);
  }

  lemma ConfiguredIs(txs: seq<GbtTx>)
    requires InRange(txs)
    ensures var g := Configured(txs, MAX_BLOCKS, MAX_BLOCK_WEIGHT, BLOCK_RESERVED_WEIGHT);
            g.txs == txs && !g.alwaysDrain
  {
  }

  /** More demand can lower the recommended fee: an arrival that pulls in its parent makes the
      projector lose a transaction as large as a block, and the next-block tier falls from the
      rate everybody pays, up to the tolerance, to the floor. */
  lemma ArrivalLowersTier(rate: nat, minFee: real, now: nat, e: FeeEstimate, e': FeeEstimate)
    requires rate > 0 && minFee < 4.0 * rate as real - TOLERANCE
    requires EstimatesFrom(Before(rate), minFee, now, e) && EstimatesFrom(After(rate), minFee, now, e')
    ensures e.nextBlock >= 4.0 * rate as real - TOLERANCE > minFee == e'.nextBlock
  {
    hide EstimatesFrom;
    BeforeAtRate(rate, minFee, now, e);
    AfterAtFloor(rate, minFee, now, e');
  }
}
