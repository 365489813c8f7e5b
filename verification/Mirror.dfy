/** The simulated node ranks transactions the way the projector scores them. */
module Mirror {
  import opened Txids
  import opened UidSums
  import opened TxGraph
  import opened Ancestry
  import opened Packing
  import opened FeePipeline
  import opened PackageIndex
  import opened PackageConfirm
  import opened MockNode

  /** The snapshot lists the node's mempool, each transaction once, in any order. */
  ghost predicate SnapshotOf(pool: Pool, snapshot: seq<SnapshotTx>) {
    && (forall i | 0 <= i < |snapshot| :: Copies(pool, snapshot[i]))
    && (forall i, j | 0 <= i < j < |snapshot| :: snapshot[i].txid != snapshot[j].txid)
    && (forall t | t in pool :: Listed(snapshot, t))
  }

  ghost predicate Copies(pool: Pool, s: SnapshotTx) {
    && s.txid in pool
    && s.fee == pool[s.txid].base && s.weight == WeightOf(pool[s.txid]) && s.depends == pool[s.txid].depends
  }

  ghost function Sizes(pool: Pool, snapshot: seq<SnapshotTx>): (ranks: seq<nat>)
    requires SnapshotOf(pool, snapshot)
    ensures |ranks| == |snapshot|
    ensures forall i | 0 <= i < |snapshot| :: ranks[i] == pool[snapshot[i].txid].ancestorSize
  {
    seq(|snapshot|, i requires 0 <= i < |snapshot| => pool[snapshot[i].txid].ancestorSize)
  }

  lemma ParentEdge(pool: Pool, snapshot: seq<SnapshotTx>, txs: seq<GbtTx>, i: nat, p: nat)
    requires Upward(pool) && SnapshotOf(pool, snapshot) && Represents(snapshot, txs) && i < |txs| == |snapshot|
    requires forall t | t in pool :: |pool[t].depends| <= 1
    ensures p in txs[i].parents <==> p < |txs| && pool[snapshot[i].txid].depends == [snapshot[p].txid]
  {
    hide Represents, Upward;
    RepresentsMeans(snapshot, txs);
    assert Copies(pool, snapshot[i]);
    assert p in txs[i].parents <==> IsParentOf(snapshot, p, i);
    if p < |txs| && snapshot[i].depends == [snapshot[p].txid] {
      assert IsUidOf(snapshot, snapshot[p].txid, p);
      assert snapshot[p].txid in snapshot[i].depends;
    }
  }

  lemma ParentTotalSmaller(pool: Pool, t: Txid)
    requires Upward(pool) && t in pool && pool[t].depends != []
    ensures pool[t].depends[0] in pool
    ensures pool[pool[t].depends[0]].ancestorSize < pool[t].ancestorSize
  {
    assert UpOk(pool, t);
  }

  /** Chains have no cycles, so neither has the projector's graph of them. */
  lemma MirrorAcyclic(pool: Pool, snapshot: seq<SnapshotTx>, txs: seq<GbtTx>)
    requires Upward(pool) && SnapshotOf(pool, snapshot) && Represents(snapshot, txs)
    requires forall t | t in pool :: |pool[t].depends| <= 1
    ensures Acyclic(txs)
  {
    hide Represents, Upward;
    RepresentsMeans(snapshot, txs);
    var ranks := Sizes(pool, snapshot);
    forall i: nat, p | i < |txs| && p in txs[i].parents ensures ranks[p] < ranks[i] {
      ParentEdge(pool, snapshot, txs, i, p);
      assert Copies(pool, snapshot[i]);
      ParentTotalSmaller(pool, snapshot[i].txid);
    }
    RankedIsAcyclic(txs, ranks);
  }

  lemma RootAncestors(txs: seq<GbtTx>, i: nat)
    requires InRange(txs) && i < |txs| && forall p :: p !in txs[i].parents
    ensures Ancestors(txs, i) == {}
  {
    forall a | a in Ancestors(txs, i) ensures false {
      var p := AncestorFirstStep(txs, a, i);
    }
  }

  lemma OnlyParentAncestors(txs: seq<GbtTx>, i: nat, p: nat)
    requires InRange(txs) && i < |txs| && forall q: nat :: q in txs[i].parents <==> q == p
    ensures p in Ancestors(txs, i) && Ancestors(txs, i) == Ancestors(txs, p) + {p}
  {
    ParentAncestry(txs, p, i);
    AncestorsAreParentClosure(txs, i, Ancestors(txs, p) + {p});
  }

  /** The projector's package of a transaction has the totals the node keeps for it. */
  lemma {:induction false} PackageTotals(pool: Pool, kids: Index, snapshot: seq<SnapshotTx>, g: Input, i: nat)
    requires Truthful(pool, kids) && SnapshotOf(pool, snapshot) && Represents(snapshot, g.txs) && g.Exact()
    requires i < |g.txs| == |snapshot|
    ensures Sum(g.Weights(), g.anc[i]) + g.txs[i].weight == 4 * pool[snapshot[i].txid].ancestorSize
    ensures Sum(g.Fees(), g.anc[i]) + g.txs[i].fee == pool[snapshot[i].txid].ancestorFee
    decreases pool[snapshot[i].txid].ancestorSize
  {
    hide Represents;
    RepresentsMeans(snapshot, g.txs);
    var t := snapshot[i].txid;
    assert Copies(pool, snapshot[i]);
    assert UpOk(pool, t) && LinkedUp(pool, kids, t);
    forall u | u in pool ensures |pool[u].depends| <= 1 {
      assert LinkedUp(pool, kids, u);
    }
    if pool[t].depends == [] {
      forall p: nat ensures p !in g.txs[i].parents {
        ParentEdge(pool, snapshot, g.txs, i, p);
      }
      RootAncestors(g.txs, i);
      SumEmpty(g.Weights());
      SumEmpty(g.Fees());
    } else {
      assert Listed(snapshot, pool[t].depends[0]);
      var p: nat :| p < |snapshot| && snapshot[p].txid == pool[t].depends[0];
      forall q: nat ensures q in g.txs[i].parents <==> q == p {
        ParentEdge(pool, snapshot, g.txs, i, q);
      }
      OnlyParentAncestors(g.txs, i, p);
      PackageTotals(pool, kids, snapshot, g, p);
      SumAdd(g.Weights(), g.anc[p], p);
      SumAdd(g.Fees(), g.anc[p], p);
    }
  }

  lemma {:induction false} ProductAsReal(q: nat, v: nat)
    ensures (q * v) as real == q as real * v as real
  {
    if q > 0 {
      ProductAsReal(q - 1, v);
      assert q * v == (q - 1) * v + v;
    }
  }

  lemma Scale(x: real, y: real, v: real)
    requires x <= y && v > 0.0
    ensures x * v <= y * v
  {
  }

  lemma QuotientBounds(f: nat, v: nat, x: real)
    requires v > 0 && x * v as real == f as real
    ensures (f / v) as real <= x < (f / v) as real + 1.0
  {
    var q := f / v;
    WholeQuotient(f, v);
    ProductAsReal(q, v);
    ProductAsReal(q + 1, v);
    RealQuotient(x, v as real, q as real, (q + 1) as real);
  }

  lemma WholeQuotient(f: nat, v: nat)
    requires v > 0
    ensures (f / v) * v <= f < (f / v + 1) * v
  {
    assert f == (f / v) * v + f % v;
    assert (f / v + 1) * v == (f / v) * v + v;
  }

  lemma RealQuotient(x: real, v: real, low: real, high: real)
    requires v > 0.0 && low * v <= x * v < high * v
    ensures low <= x < high
  {
    if x >= high {
      Scale(high, x, v);
    }
    if x < low {
      BelowProduct(x, low, v);
    }
  }

  lemma BelowProduct(x: real, y: real, v: real)
    requires x < y && v > 0.0
    ensures x * v < y * v
  {
  }

  lemma RateFloor(f: nat, v: nat)
    requires v > 0
    ensures Rate(f, 4 * v).Floor == f / v
  {
    var x := Rate(f, 4 * v);
    assert x * (4 * v) as real == 4.0 * f as real;
    assert (4 * v) as real == 4.0 * v as real;
    QuotientBounds(f, v, x);
  }

  lemma MinFloor(x: real, y: real)
    ensures Min(x, y).Floor == if x.Floor <= y.Floor then x.Floor else y.Floor
  {
  }

  /** In every truthful state the node's whole-number rate of a transaction is the floor of
      the score the projector starts it with. */
  lemma SimulatorMirrorsProjector(pool: Pool, kids: Index, snapshot: seq<SnapshotTx>, g: Input, i: nat)
    requires Truthful(pool, kids) && SnapshotOf(pool, snapshot) && Represents(snapshot, g.txs) && g.Exact()
    requires i < |g.txs| == |snapshot|
    ensures snapshot[i].txid in pool
    ensures Score(g, i, {}).Floor == EffectiveRate(pool[snapshot[i].txid])
  {
    hide Rate, Represents;
    RepresentsMeans(snapshot, g.txs);
    var t := snapshot[i].txid;
    assert Copies(pool, snapshot[i]);
    var e := pool[t];
    PackageTotals(pool, kids, snapshot, g, i);
    assert Missing(g, i, {}) == g.anc[i];
    assert e.vsize >= 1 && g.txs[i].weight == 4 * e.vsize;
    assert UpOk(pool, t);
    RateFloor(e.base, e.vsize);
    RateFloor(e.ancestorFee, e.ancestorSize);
    MinFloor(OwnRate(g, i), PackageRate(g, i, {}));
  }
}
