/** What holds of every run of the projector on acyclic inputs. */
module PackingTheorems {
  import opened UidSums
  import opened TxGraph
  import opened Packing
  import opened PackingRun
  import opened PackingInvariants
  import opened PackingOrder
  import opened PackingBlocks

  /** Everything the packing loop maintains. */
  ghost predicate Invariant(g: Input, s: State)
    requires g.Valid()
  {
    && Sound(g, s)
    && Ordered(g, s)
    && Packed(g, s)
    && RootsLifted(g, s)
    && (PositiveWeights(g) ==> FeesConserved(g, s))
    && s.failures <= FAILURE_LIMIT
  }

  lemma {:induction false} NothingCollected(g: Input, k: nat)
    requires k <= |g.txs|
    ensures Collected(g, map[], k) == 0.0
  {
    if k > 0 {
      NothingCollected(g, k - 1);
    }
  }

  lemma StartInvariant(g: Input)
    requires g.Exact()
    ensures Invariant(g, Start(g))
  {
    StartSound(g);
    NothingCollected(g, |g.txs|);
    SumEmpty(g.Fees());
  }

  lemma StepFailures(g: Input, s: State)
    requires g.Exact() && WellFormed(g, s) && s.heap != multiset{} && s.failures <= FAILURE_LIMIT
    ensures Step(g, s).failures <= FAILURE_LIMIT
  {
    ActedCases(g, s);
  }

  lemma StepInvariant(g: Input, s: State)
    requires g.Exact() && Invariant(g, s) && s.heap != multiset{}
    ensures Invariant(g, Step(g, s))
  {
    StepSound(g, s);
    StepOrdered(g, s);
    StepPacked(g, s);
    StepLiftsRoots(g, s);
    if PositiveWeights(g) {
      StepConserves(g, s);
    }
    StepFailures(g, s);
  }

  /** Every state of every run satisfies the invariant. */
  lemma {:induction false} RunInvariant(g: Input, run: seq<State>, i: nat)
    requires g.Exact() && IsRun(g, run) && i < |run|
    ensures Invariant(g, run[i])
  {
    hide Start, Step, Invariant, WellFormed;
    if i == 0 {
      StartInvariant(g);
    } else {
      RunInvariant(g, run, i - 1);
      assert StepOf(g, run, i - 1);
      StepInvariant(g, run[i - 1]);
    }
  }

  lemma RunSound(g: Input, run: seq<State>, i: nat)
    requires g.Exact() && IsRun(g, run) && i < |run|
    ensures Sound(g, run[i])
  {
    hide Start, Sound;
    RunInvariant(g, run, i);
  }

  /** The iteration from state s places a package. */
  ghost predicate Takes(g: Input, s: State)
    requires g.Valid() && WellFormed(g, s)
  {
    s.heap != multiset{} && ActionOf(g, s).Take?
  }

  ghost function Target(g: Input, s: State): (t: nat)
    requires g.Valid() && WellFormed(g, s) && Takes(g, s)
    ensures t < |g.txs|
  {
    assert Popped(s) in s.heap;
    Popped(s).uid
  }

  lemma {:induction false} RunFresh(g: Input, run: seq<State>, i: nat)
    requires g.Genuine() && IsRun(g, run) && i < |run|
    ensures Fresh(g, run[i])
  {
    hide Start, Step, Fresh;
    if i == 0 {
      StartFresh(g);
    } else {
      RunFresh(g, run, i - 1);
      assert StepOf(g, run, i - 1);
      StepKeepsFresh(g, run[i - 1]);
    }
  }

  /** Lazy refresh never loses track, on cyclic graphs either: at every loop head each
      transaction not placed is deferred or has a heap entry carrying its exact current score. */
  lemma HeapStaysFresh(g: Input, run: seq<State>, i: nat, u: nat)
    requires g.Genuine() && IsRun(g, run) && i < |run| && u < |g.txs|
    ensures u in run[i].used || u in run[i].overflow || Entry(g, u, run[i].used) in run[i].heap
  {
    RunFresh(g, run, i);
    assert u in g.All();
  }

  /** No justified envy. Whenever a package is placed, its target scores at least as high, up
      to the tolerance, as every transaction not placed whose package would still fit; in an
      empty or unlimited block that is every transaction not placed. */
  lemma NoJustifiedEnvy(g: Input, run: seq<State>, i: nat, u: nat)
    requires g.Exact() && IsRun(g, run) && i < |run| && Takes(g, run[i])
    requires u < |g.txs| && u !in run[i].used
    requires || !Bounded(g, run[i].blocks) || run[i].cur == []
             || run[i].weight + PackageWeight(g, u, run[i].used) <= g.limit
    ensures Score(g, Target(g, run[i]), run[i].used) >= Score(g, u, run[i].used) - TOLERANCE
  {
    RunInvariant(g, run, i);
    TopBeatsFitting(g, run[i], u);
  }

  /** t can come after s in a run: blocks are only added, placed transactions keep their
      rates, and deferrals are only dropped when a block is closed. */
  ghost predicate Later(s: State, t: State) {
    && |s.blocks| <= |t.blocks|
    && (|s.blocks| == |t.blocks| ==> s.overflow <= t.overflow)
    && (forall m | m in s.rates :: m in t.rates && t.rates[m] == s.rates[m])
  }

  lemma ActedLater(g: Input, s: State)
    requires g.Valid() && WellFormed(g, s) && s.heap != multiset{} && s.rates.Keys == s.used
    ensures Later(s, Acted(g, s))
  {
    ActedCases(g, s);
    if !ActionOf(g, s).Take? {
      assert s.overflow <= Acted(g, s).overflow;
    }
  }

  lemma StepLater(g: Input, s: State, t: State)
    requires g.Valid() && WellFormed(g, t) && t.heap != multiset{} && t.rates.Keys == t.used
    requires Later(s, t)
    ensures Later(s, Step(g, t))
  {
    ActedLater(g, t);
  }

  lemma RatesAreUsed(g: Input, run: seq<State>, i: nat)
    requires g.Exact() && IsRun(g, run) && i < |run|
    ensures run[i].rates.Keys == run[i].used
  {
    hide Start;
    RunInvariant(g, run, i);
  }

  lemma {:induction false} LaterInRun(g: Input, run: seq<State>, i: nat, j: nat)
    requires g.Exact() && IsRun(g, run) && i <= j < |run|
    ensures Later(run[i], run[j])
    decreases j
  {
    hide Start, Step, Invariant;
    if i < j {
      LaterInRun(g, run, i, j - 1);
      RatesAreUsed(g, run, j - 1);
      assert StepOf(g, run, j - 1);
      StepLater(g, run[i], run[j - 1]);
    }
  }

  lemma TakeRates(g: Input, s: State, m: nat)
    requires g.Valid() && WellFormed(g, s) && Takes(g, s)
    requires m in Missing(g, Target(g, s), s.used) + {Target(g, s)}
    ensures m in Step(g, s).rates && Step(g, s).rates[m] == PackageRate(g, Target(g, s), s.used)
  {
    hide Score, PackageRate, FreshEntries, Package, PackageWeight;
    ActedCases(g, s);
  }

  /** Child pays for parent, and only ever lifts: every member of a placed package ends with
      the package's rate, which is at least the score the member had on its own. */
  lemma CpfpOnlyLifts(g: Input, run: seq<State>, i: nat, m: nat)
    requires g.Exact() && IsRun(g, run) && i + 1 < |run| && Takes(g, run[i])
    requires m in Missing(g, Target(g, run[i]), run[i].used) + {Target(g, run[i])}
    ensures m < |g.txs| && m in Last(run).rates
    ensures Last(run).rates[m] == PackageRate(g, Target(g, run[i]), run[i].used)
    ensures Last(run).rates[m] >= Score(g, m, run[i].used) - TOLERANCE
  {
    hide Start, Step, Score, PackageRate, Sound, ActionOf;
    assert StepOf(g, run, i);
    RunSound(g, run, i);
    TakeRates(g, run[i], m);
    LaterInRun(g, run, i + 1, |run| - 1);
    PackageLiftsMembers(g, run[i], m);
  }

  /** The iteration from run[i] places m. */
  ghost predicate PlacesAt(g: Input, run: seq<State>, i: nat, m: nat)
    requires g.Valid() && i < |run| && WellFormed(g, run[i])
  {
    Takes(g, run[i]) && m in Missing(g, Target(g, run[i]), run[i].used) + {Target(g, run[i])}
  }

  lemma NewlyRated(g: Input, s: State, m: nat)
    requires g.Valid() && WellFormed(g, s) && s.heap != multiset{}
    requires m in Step(g, s).rates && m !in s.rates
    ensures Takes(g, s) && m in Missing(g, Target(g, s), s.used) + {Target(g, s)}
  {
    hide Score, PackageRate, FreshEntries, Package, PackageWeight;
    ActedCases(g, s);
  }

  lemma {:induction false} RatedWasPlaced(g: Input, run: seq<State>, j: nat, m: nat)
    requires g.Exact() && IsRun(g, run) && j < |run| && m in run[j].rates
    ensures exists i | 0 <= i < j :: PlacesAt(g, run, i, m)
  {
    hide Step, Takes, Missing;
    if j > 0 {
      assert StepOf(g, run, j - 1);
      if m in run[j - 1].rates {
        RatedWasPlaced(g, run, j - 1, m);
      } else {
        NewlyRated(g, run[j - 1], m);
        assert PlacesAt(g, run, j - 1, m);
      }
    }
  }

  /** Every rated transaction got its rate so: some iteration placed it, and it ends with that
      package's rate, no lower than its own score was then. */
  lemma EveryRateLifts(g: Input, run: seq<State>, m: nat)
    requires g.Exact() && IsRun(g, run) && m in Outcome(Last(run)).rates
    ensures m < |g.txs|
    ensures exists i | 0 <= i < |run| - 1 ::
              && PlacesAt(g, run, i, m)
              && Outcome(Last(run)).rates[m] == PackageRate(g, Target(g, run[i]), run[i].used)
              && Outcome(Last(run)).rates[m] >= Score(g, m, run[i].used) - TOLERANCE
  {
    hide Start, Step, Score, PackageRate, Missing, Takes;
    RatedWasPlaced(g, run, |run| - 1, m);
    var i :| 0 <= i < |run| - 1 && PlacesAt(g, run, i, m);
    CpfpOnlyLifts(g, run, i, m);
  }

  /** A transaction without parents never ends below its own rate. */
  lemma RootsNeverBelowOwnRate(g: Input, run: seq<State>, m: nat)
    requires g.Exact() && IsRun(g, run)
    requires m < |g.txs| && g.txs[m].parents == [] && m in Last(run).rates
    ensures Last(run).rates[m] >= OwnRate(g, m) - TOLERANCE
  {
    RunInvariant(g, run, |run| - 1);
  }

  /** The transactions in no block: those deferred when the loop ended. */
  ghost function LeftOver(run: seq<State>): set<nat>
    requires run != []
  {
    Elements(Last(run).overflow)
  }

  lemma ResultPlaced(s: State)
    ensures Flatten(Outcome(s).blocks) == Placed(s)
  {
    var blocks := s.blocks + [s.cur];
    assert blocks[..|s.blocks|] == s.blocks;
    assert s.cur == [] ==> Placed(s) == Flatten(s.blocks);
  }

  /** Conservation: the blocks hold each rated transaction exactly once, and together with
      the left-over ones, which none of them holds, that is every transaction. */
  lemma Conservation(g: Input, run: seq<State>)
    requires g.Exact() && IsCompleteRun(g, run)
    ensures Lists(Flatten(Outcome(Last(run)).blocks), Outcome(Last(run)).rates.Keys)
    ensures Outcome(Last(run)).rates.Keys !! LeftOver(run)
    ensures Outcome(Last(run)).rates.Keys + LeftOver(run) == g.All()
  {
    RunInvariant(g, run, |run| - 1);
    ResultPlaced(Last(run));
    EndPartition(g, Last(run));
  }

  lemma EndPartition(g: Input, s: State)
    requires g.Valid() && Sound(g, s) && s.heap == multiset{}
    ensures s.used !! Elements(s.overflow) && s.used + Elements(s.overflow) == g.All()
  {
    forall u | u in s.overflow ensures u in g.All() {
      var k :| 0 <= k < |s.overflow| && s.overflow[k] == u;
    }
  }

  /** Parents come before their children in the concatenated blocks. */
  lemma TopologicalOrder(g: Input, run: seq<State>)
    requires g.Exact() && IsRun(g, run)
    ensures ParentsFirst(g.txs, Flatten(Outcome(Last(run)).blocks))
  {
    RunInvariant(g, run, |run| - 1);
    ResultPlaced(Last(run));
  }

  lemma {:induction false} FlattenPrefix(blocks: seq<seq<nat>>, k: nat)
    requires k <= |blocks|
    ensures |Flatten(blocks[..k])| <= |Flatten(blocks)|
    ensures Flatten(blocks[..k]) == Flatten(blocks)[..|Flatten(blocks[..k])|]
    decreases |blocks|
  {
    if k == |blocks| {
      assert blocks[..k] == blocks;
    } else {
      var front := blocks[..|blocks| - 1];
      assert front[..k] == blocks[..k];
      FlattenPrefix(front, k);
    }
  }

  lemma PrefixParentsFirst(txs: seq<GbtTx>, order: seq<nat>, n: nat)
    requires ParentsFirst(txs, order) && n <= |order|
    ensures ParentsFirst(txs, order[..n])
  {
    forall i | 0 <= i < n
      ensures order[i] < |txs| && forall p | p in txs[order[i]].parents :: p in order[..n][..i]
    {
      assert order[..n][..i] == order[..i];
    }
  }

  lemma {:induction false} PrefixHoldsWalk(txs: seq<GbtTx>, prefix: seq<nat>, walk: seq<nat>)
    requires InRange(txs) && ParentsFirst(txs, prefix)
    requires IsWalk(txs, walk) && walk != [] && walk[0] in prefix
    ensures walk[|walk| - 1] in prefix
    decreases |walk|
  {
    if |walk| > 1 {
      var i :| 0 <= i < |prefix| && prefix[i] == walk[0];
      assert walk[1] in txs[prefix[i]].parents;
      assert walk[1] in prefix[..i];
      assert IsWalk(txs, walk[1..]);
      PrefixHoldsWalk(txs, prefix, walk[1..]);
    }
  }

  /** The first k blocks confirm no transaction without all its ancestors. */
  lemma PrefixIsAncestorClosed(g: Input, run: seq<State>, k: nat, u: nat, a: nat)
    requires g.Exact() && IsRun(g, run) && k <= |Outcome(Last(run)).blocks|
    requires u in Flatten(Outcome(Last(run)).blocks[..k]) && IsAncestor(g.txs, a, u)
    ensures a in Flatten(Outcome(Last(run)).blocks[..k])
  {
    hide Start;
    var blocks := Outcome(Last(run)).blocks;
    TopologicalOrder(g, run);
    FlattenPrefix(blocks, k);
    PrefixParentsFirst(g.txs, Flatten(blocks), |Flatten(blocks[..k])|);
    var walk :| WalkBetween(g.txs, walk, u, a);
    PrefixHoldsWalk(g.txs, Flatten(blocks[..k]), walk);
  }

  lemma PackedResult(g: Input, s: State)
    requires g.Valid() && Packed(g, s)
    ensures |Outcome(s).blocks| <= 1 || |Outcome(s).blocks| <= g.maxBlocks
    ensures forall i | 0 <= i < |Outcome(s).blocks| :: Outcome(s).blocks[i] != []
    ensures forall i | 0 <= i < |Outcome(s).blocks| && i + 1 < g.maxBlocks ::
              Fair(g, Earlier(Outcome(s).blocks, i), Outcome(s).blocks[i])
  {
    var blocks := Outcome(s).blocks;
    forall i | 0 <= i < |blocks|
      ensures blocks[i] != [] && (i + 1 < g.maxBlocks ==> Fair(g, Earlier(blocks, i), blocks[i]))
    {
      assert blocks[..i] == s.blocks[..i];
      assert i < |s.blocks| ==> Fair(g, Earlier(s.blocks, i), s.blocks[i]);
    }
  }

  /** At most max(1, maxBlocks) blocks, none empty; all but the last allowed one respect the
      weight limit unless they are one package forced into an empty block. */
  lemma BlockLimits(g: Input, run: seq<State>)
    requires g.Exact() && IsRun(g, run)
    ensures |Outcome(Last(run)).blocks| <= 1 || |Outcome(Last(run)).blocks| <= g.maxBlocks
    ensures forall i | 0 <= i < |Outcome(Last(run)).blocks| :: Outcome(Last(run)).blocks[i] != []
    ensures forall i | 0 <= i < |Outcome(Last(run)).blocks| && i + 1 < g.maxBlocks ::
              Fair(g, Earlier(Outcome(Last(run)).blocks, i), Outcome(Last(run)).blocks[i])
  {
    RunInvariant(g, run, |run| - 1);
    PackedResult(g, Last(run));
  }

  /** What the placed transactions pay at their effective rates is their fees, no more and no
      less: a virtual byte is four weight units. */
  lemma FeeConservation(g: Input, run: seq<State>)
    requires g.Exact() && PositiveWeights(g) && IsRun(g, run)
    ensures Collected(g, Outcome(Last(run)).rates, |g.txs|)
         == 4.0 * Sum(g.Fees(), Outcome(Last(run)).rates.Keys) as real
  {
    RunInvariant(g, run, |run| - 1);
  }

  /** Deferral loses nothing: from the moment a package fails to fit until its block is
      closed, its remainder would still not fit and the transaction is not placed, even as
      its ancestors are placed by other packages. */
  lemma DeferralLosesNothing(g: Input, run: seq<State>, i: nat, j: nat, o: nat)
    requires g.Exact() && IsRun(g, run) && i <= j < |run|
    requires |run[i].blocks| == |run[j].blocks| && o in run[i].overflow
    ensures o < |g.txs| && o !in run[j].used
    ensures run[j].weight + PackageWeight(g, o, run[j].used) > g.limit
  {
    LaterInRun(g, run, i, j);
    RunInvariant(g, run, j);
    var s := run[j];
    var k :| 0 <= k < |s.overflow| && s.overflow[k] == o;
  }

  lemma DrainedMeansStuck(g: Input, s: State, u: nat)
    requires g.Exact() && Sound(g, s) && s.heap == multiset{} && u < |g.txs| && u !in s.used
    ensures !Fits(g, s, u)
  {
    assert u in g.All();
    assert u in s.overflow;
  }

  /** A block closed because the heap drained is maximal: no transaction not placed has a
      package that would have fit into it. */
  lemma DrainedBlockIsMaximal(g: Input, run: seq<State>, i: nat, u: nat)
    requires g.Exact() && IsRun(g, run) && i + 1 < |run|
    requires |run[i + 1].blocks| > |run[i].blocks|
    requires run[i].heap != multiset{} && Acted(g, run[i]).heap == multiset{}
    requires u < |g.txs| && u !in run[i + 1].used
    ensures var block := run[i + 1].blocks[|run[i].blocks|];
            && InBounds(g, block)
            && g.reserved + SumSeq(g.Weights(), block) + PackageWeight(g, u, run[i + 1].used) > g.limit
  {
    hide Start;
    RunInvariant(g, run, i);
    assert StepOf(g, run, i);
    ActedCases(g, run[i]);
    ActedSound(g, run[i]);
    ActedPacked(g, run[i]);
    DrainedMeansStuck(g, Acted(g, run[i]), u);
  }
}
