/** Inputs on which the projector loses a transaction, and exactly which settings and weights
    rule them out. */
module Stranding {
  import opened UidSums
  import opened TxGraph
  import opened ScoreHeap
  import opened Packing
  import opened PackingRun
  import opened PackingTheorems
  import opened Completeness

  /** Three transactions paying one and the same rate, `rate` being the fee per weight unit: a
      parent, its child, and an unrelated filler. */
  datatype Kit = Kit(rate: nat, parent: nat, filler: nat, child: nat)
  {
    /** The rate is the same for all three: weightless transactions have rate zero. */
    ghost predicate Even() {
      rate == 0 || (parent > 0 && filler > 0 && child > 0)
    }

    ghost function Total(): nat { parent + filler + child }

    ghost function Score(): real { 4.0 * rate as real }
  }

  /** The kit as input: ties are broken in favour of the child, then of the filler. */
  ghost function Trap(k: Kit, maxBlocks: nat, limit: nat, reserved: nat): (g: Input)
    ensures |g.txs| == 3 && g.maxBlocks == maxBlocks && g.limit == limit && g.reserved == reserved && !g.alwaysDrain
  {
    Input([GbtTx(0, 0, k.rate * k.child, k.child, [2]),
           GbtTx(1, 1, k.rate * k.filler, k.filler, []),
           GbtTx(2, 2, k.rate * k.parent, k.parent, [])],
          [{2}, {}, {}], maxBlocks, limit, reserved, false)
  }

  ghost predicate IsTrap(k: Kit, g: Input) {
    k.Even() && g == Trap(k, g.maxBlocks, g.limit, g.reserved) && g.Exact()
  }

  lemma TrapExact(k: Kit, maxBlocks: nat, limit: nat, reserved: nat)
    ensures Trap(k, maxBlocks, limit, reserved).Exact()
  {
    var g := Trap(k, maxBlocks, limit, reserved);
    RankedIsAcyclic(g.txs, [1, 0, 0]);
    forall a, u: nat | u < 3 && a in Ancestors(g.txs, u) ensures u == 0 && a == 2 {
      var p := AncestorFirstStep(g.txs, a, u);
      if a != p {
        var q := AncestorFirstStep(g.txs, a, p);
      }
    }
    ParentIsAncestor(g.txs, 2, 0);
    assert Ancestors(g.txs, 0) == {2} && Ancestors(g.txs, 1) == {} && Ancestors(g.txs, 2) == {};
  }

  lemma SumOfThree(f: seq<nat>, s: set<nat>)
    requires |f| == 3
    ensures Sum(f, s) == (if 0 in s then f[0] else 0) + (if 1 in s then f[1] else 0) + (if 2 in s then f[2] else 0)
  {
    assert SumTo(f, s, 0) == 0;
    assert SumTo(f, s, 1) == SumTo(f, s, 0) + (if 0 in s then f[0] else 0);
    assert SumTo(f, s, 2) == SumTo(f, s, 1) + (if 1 in s then f[1] else 0);
  }

  lemma RateOf(rate: nat, weight: nat)
    requires rate == 0 || weight > 0
    ensures Rate(rate * weight, weight) == 4.0 * rate as real
  {
    if weight > 0 {
      assert (rate * weight) as real == rate as real * weight as real;
    }
  }

  /** Everybody competes with the same score. */
  lemma TrapScores(k: Kit, g: Input, used: set<nat>)
    requires IsTrap(k, g)
    ensures Score(g, 2, used) == k.Score() && Score(g, 1, used) == k.Score()
    ensures PackageWeight(g, 1, used) == k.filler
    ensures 2 !in used ==> Score(g, 0, used) == k.Score() && PackageWeight(g, 0, used) == k.parent + k.child
  {
    hide Rate, Sum;
    SumOfThree(g.Weights(), {});
    SumOfThree(g.Weights(), {2});
    SumOfThree(g.Fees(), {});
    SumOfThree(g.Fees(), {2});
    assert k.rate * k.parent + k.rate * k.child == k.rate * (k.parent + k.child);
    RateOf(k.rate, k.parent);
    RateOf(k.rate, k.filler);
    RateOf(k.rate, k.child);
    RateOf(k.rate, k.parent + k.child);
    assert Missing(g, 2, used) == {} && Missing(g, 1, used) == {};
    assert 2 !in used ==> Missing(g, 0, used) == {2};
  }

  lemma TopIs(heap: multiset<HeapItem>, top: HeapItem)
    requires heap != multiset{} && IsTop(heap, top)
    ensures Top(heap) == top
  {
    TopUnique(heap, Top(heap), top);
  }

  ghost function ParentItem(k: Kit): HeapItem { HeapItem(k.Score(), 2, 2) }

  ghost function FillerItem(k: Kit): HeapItem { HeapItem(k.Score(), 1, 1) }

  ghost function ChildItem(k: Kit): HeapItem { HeapItem(k.Score(), 0, 0) }

  ghost function Trap0(k: Kit, g: Input): State {
    State({}, multiset{ParentItem(k), FillerItem(k), ChildItem(k)}, [], [], g.reserved, [], 0, map[])
  }

  /** The child has been popped. */
  ghost function Trap0Popped(k: Kit, g: Input): State {
    Trap0(k, g).(heap := multiset{ParentItem(k), FillerItem(k)})
  }

  ghost function Trap1(k: Kit, g: Input, rates: map<nat, real>): State {
    State({0, 2}, multiset{ParentItem(k), FillerItem(k)}, [], [2, 0], g.reserved + k.parent + k.child, [], 0, rates)
  }

  ghost function Trap2(k: Kit, g: Input, rates: map<nat, real>): State {
    Trap1(k, g, rates).(heap := multiset{ParentItem(k)}, overflow := [1], failures := 1)
  }

  lemma TrapStart(k: Kit, g: Input)
    requires IsTrap(k, g)
    ensures Start(g) == Trap0(k, g)
  {
    TrapScores(k, g, {});
    var all := g.All();
    assert EntriesBelow(g, all, {}, 0) == multiset{};
    assert EntriesBelow(g, all, {}, 1) == EntriesBelow(g, all, {}, 0) + multiset{ChildItem(k)};
    assert EntriesBelow(g, all, {}, 2) == EntriesBelow(g, all, {}, 1) + multiset{FillerItem(k)};
    assert EntriesBelow(g, all, {}, 3) == EntriesBelow(g, all, {}, 2) + multiset{ParentItem(k)};
  }

  lemma TrapPackage(k: Kit, g: Input)
    requires IsTrap(k, g)
    ensures Missing(g, 0, {}) == {2} && Package(g, 0, {}) == [2, 0] && UsedWith(g, 0, {}) == {0, 2}
  {
    assert Missing(g, 0, {}) == {2};
    assert InOrder(g, {2}) == [2] + InOrder(g, {}) == [2];
  }

  lemma TrapAction(k: Kit, g: Input)
    requires IsTrap(k, g) && WellFormed(g, Trap0(k, g))
    ensures WellFormed(g, Trap0Popped(k, g))
    ensures Popped(Trap0(k, g)) == ChildItem(k) && ActionOf(g, Trap0(k, g)).Take?
    ensures Acted(g, Trap0(k, g)) == Place(g, Trap0Popped(k, g), 0)
  {
    hide Score, PackageWeight, Place, Trap;
    TrapScores(k, g, {});
    TopIs(Trap0(k, g).heap, ChildItem(k));
    assert AfterPop(Trap0(k, g)).heap == multiset{ParentItem(k), FillerItem(k)};
    assert AfterPop(Trap0(k, g)) == Trap0Popped(k, g);
  }

  lemma TrapPlace(k: Kit, g: Input) returns (rates: map<nat, real>)
    requires IsTrap(k, g) && WellFormed(g, Trap0Popped(k, g))
    ensures Place(g, Trap0Popped(k, g), 0) == Trap1(k, g, rates)
  {
    hide Score, PackageWeight, InOrder, Package, Missing, Descendants, EntriesBelow, Trap;
    TrapScores(k, g, {});
    TrapPackage(k, g);
    TrapDescendants(k, g);
    NoEntries(g, {0, 2}, |g.txs|);
    rates := RatesWith(g, 0, Trap0Popped(k, g));
  }

  lemma TrapTake(k: Kit, g: Input) returns (rates: map<nat, real>)
    requires IsTrap(k, g) && WellFormed(g, Trap0(k, g))
    ensures Step(g, Trap0(k, g)) == Trap1(k, g, rates)
  {
    hide Score, Place, Trap, Acted, ActionOf, Trap0Popped;
    TrapAction(k, g);
    rates := TrapPlace(k, g);
    assert ParentItem(k) in Acted(g, Trap0(k, g)).heap;
  }

  lemma TrapDescendants(k: Kit, g: Input)
    requires IsTrap(k, g)
    ensures Descendants(g.txs, {2} + {0}) - {0, 2} == {}
  {
    forall d | d in Descendants(g.txs, {2} + {0}) ensures d in {0, 2} {
      var m :| m in {2} + {0} && IsAncestor(g.txs, m, d);
      assert m in Ancestors(g.txs, d);
    }
  }

  lemma TrapPostpone(k: Kit, g: Input, rates: map<nat, real>)
    requires IsTrap(k, g) && g.maxBlocks >= 2 && g.reserved + k.Total() > g.limit
    requires WellFormed(g, Trap1(k, g, rates))
    ensures Step(g, Trap1(k, g, rates)) == Trap2(k, g, rates)
  {
    hide Score, PackageWeight, Trap;
    var s := Trap1(k, g, rates);
    TrapScores(k, g, {0, 2});
    TopIs(s.heap, FillerItem(k));
    assert AfterPop(s).heap == multiset{ParentItem(k)};
    assert Acted(g, s) == Defer(AfterPop(s), 1);
    assert ParentItem(k) in Acted(g, s).heap;
  }

  lemma TrapStrands(k: Kit, g: Input, rates: map<nat, real>)
    ensures Strands(Trap2(k, g, rates))
  {
    var s := Trap2(k, g, rates);
    TopIs(s.heap, ParentItem(k));
    assert AfterPop(s).heap == multiset{};
  }

  /** With a weight-limited block at all, whenever the three do not fit into one, parent and
      child make up the only block and the filler ends in none. */
  lemma TrapLosesFiller(k: Kit, maxBlocks: nat, limit: nat, reserved: nat, run: seq<State>)
    requires k.Even() && maxBlocks >= 2 && reserved + k.Total() > limit
    requires Trap(k, maxBlocks, limit, reserved).Exact()
    requires IsCompleteRun(Trap(k, maxBlocks, limit, reserved), run)
    ensures Outcome(Last(run)).blocks == [[2, 0]] && Outcome(Last(run)).rates.Keys == {0, 2}
    ensures !PlacesAll(Trap(k, maxBlocks, limit, reserved), run)
  {
    hide Start, Step, Trap, Strands;
    var g := Trap(k, maxBlocks, limit, reserved);
    TrapStart(k, g);
    assert StepOf(g, run, 0);
    var rates := TrapTake(k, g);
    assert StepOf(g, run, 1);
    TrapPostpone(k, g, rates);
    TrapStrands(k, g, rates);
    StrandedEnds(g, run, 2);
    RatesAreUsed(g, run, |run| - 1);
    assert 1 in g.All();
  }

  /** An acyclic input of the repository's loop under the given settings. */
  ghost predicate HasSettings(g: Input, maxBlocks: nat, limit: nat, reserved: nat) {
    && g.Exact() && !g.alwaysDrain
    && g.maxBlocks == maxBlocks && g.limit == limit && g.reserved == reserved
  }

  /** The transactions weigh at least `least` each and at most `total` together. */
  ghost predicate Weighs(g: Input, least: nat, total: nat) {
    (forall i | 0 <= i < |g.txs| :: g.txs[i].weight >= least) && Sum(g.Weights(), g.All()) <= total
  }

  /** Every acyclic input that weighs this much is placed completely under these settings. */
  ghost predicate CompleteWithin(least: nat, total: nat, maxBlocks: nat, limit: nat, reserved: nat) {
    forall g: Input, run: seq<State> ::
      HasSettings(g, maxBlocks, limit, reserved) && Weighs(g, least, total) && IsCompleteRun(g, run) ==>
        PlacesAll(g, run)
  }

  lemma {:induction false} ManyWeighMuch(f: seq<nat>, least: nat, k: nat)
    requires k <= |f| && forall i | 0 <= i < |f| :: f[i] >= least
    ensures SumTo(f, Below(|f|), k) >= k * least
  {
    if k > 0 {
      ManyWeighMuch(f, least, k - 1);
      assert k * least == (k - 1) * least + least;
    }
  }

  lemma TimesAtLeast(n: nat, m: nat, x: nat)
    ensures n >= m ==> n * x >= m * x
  {
  }

  lemma FewTxsIfLight(g: Input, least: nat, total: nat)
    requires Weighs(g, least, total) && total < 3 * least
    ensures |g.txs| <= 2
  {
    ManyWeighMuch(g.Weights(), least, |g.txs|);
    TimesAtLeast(|g.txs|, 3, least);
  }

  lemma RoomPlacesAll(g: Input, run: seq<State>, least: nat, total: nat)
    requires g.Exact() && !g.alwaysDrain && IsCompleteRun(g, run) && Weighs(g, least, total)
    requires g.maxBlocks <= 1 || g.reserved + total <= g.limit || total < 3 * least
    ensures PlacesAll(g, run)
  {
    hide Start, Step;
    if g.maxBlocks <= 1 {
      OneBlockPlacesAll(g, run);
    } else if g.reserved + total <= g.limit {
      SmallInputPlacesAll(g, run);
    } else {
      FewTxsIfLight(g, least, total);
      TwoTxsPlaceAll(g, run);
    }
  }

  lemma TrapWeighs(k: Kit, maxBlocks: nat, limit: nat, reserved: nat, least: nat)
    requires k.parent >= least && k.filler >= least && k.child >= least
    ensures Weighs(Trap(k, maxBlocks, limit, reserved), least, k.Total())
  {
    var g := Trap(k, maxBlocks, limit, reserved);
    SumOfThree(g.Weights(), g.All());
  }

  /** A kit of the given total weight whose members weigh at least `least` each. */
  lemma TrapExists(least: nat, total: nat, maxBlocks: nat, limit: nat, reserved: nat)
    requires maxBlocks >= 2 && reserved + total > limit && total >= 3 * least
    ensures !CompleteWithin(least, total, maxBlocks, limit, reserved)
  {
    hide Start, Step, Trap, PlacesAll;
    var k := Kit(if least > 0 then 1 else 0, least, total - 2 * least, least);
    TrapExact(k, maxBlocks, limit, reserved);
    TrapWeighs(k, maxBlocks, limit, reserved, least);
    var g := Trap(k, maxBlocks, limit, reserved);
    RunStarts(g);
    var run := RunCompletes(g, [Start(g)]);
    TrapLosesFiller(k, maxBlocks, limit, reserved, run);
    assert HasSettings(g, maxBlocks, limit, reserved) && Weighs(g, least, total);
  }

  /** What a caller can check beforehand. Knowing no more of an acyclic input than what its
      transactions weigh at least each and at most together, the projector is sure to place
      all of them exactly if it is asked for at most one block, or one block has room for all,
      or there are too few for a parent, its child and one more. */
  lemma CompleteIffRoomForAll(least: nat, total: nat, maxBlocks: nat, limit: nat, reserved: nat)
    ensures CompleteWithin(least, total, maxBlocks, limit, reserved)
       <==> maxBlocks <= 1 || reserved + total <= limit || total < 3 * least
  {
    hide Start, Step, PlacesAll;
    if maxBlocks <= 1 || reserved + total <= limit || total < 3 * least {
      forall g: Input, run: seq<State>
        | HasSettings(g, maxBlocks, limit, reserved) && Weighs(g, least, total) && IsCompleteRun(g, run)
        ensures PlacesAll(g, run)
      {
        RoomPlacesAll(g, run, least, total);
      }
    } else {
      TrapExists(least, total, maxBlocks, limit, reserved);
    }
  }

  ghost predicate CompleteSettings(maxBlocks: nat, limit: nat, reserved: nat) {
    forall g: Input, run: seq<State> ::
      HasSettings(g, maxBlocks, limit, reserved) && IsCompleteRun(g, run) ==> PlacesAll(g, run)
  }

  /** Whatever the weight limit and the reserve, the projector places every transaction of
      every acyclic input exactly when it is asked for at most one block. */
  lemma CompleteIffAtMostOneBlock(maxBlocks: nat, limit: nat, reserved: nat)
    ensures CompleteSettings(maxBlocks, limit, reserved) <==> maxBlocks <= 1
  {
    hide PlacesAll;
    if maxBlocks <= 1 {
      forall g: Input, run: seq<State> | HasSettings(g, maxBlocks, limit, reserved) && IsCompleteRun(g, run)
        ensures PlacesAll(g, run)
      {
        OneBlockPlacesAll(g, run);
      }
    } else {
      TrapExists(0, limit + 1, maxBlocks, limit, reserved);
    }
  }
}
