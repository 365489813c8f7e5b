/** When exactly a block is closed, and which entry each iteration acts on. */
module PackingClosing {
  import opened UidSums
  import opened TxGraph
  import opened ScoreHeap
  import opened Packing
  import opened PackingRun
  import opened PackingOrder
  import opened PackingTheorems

  ghost predicate Postpones(g: Input, s: State)
    requires g.Valid() && WellFormed(g, s)
  {
    s.heap != multiset{} && ActionOf(g, s).Postpone?
  }

  /** How many of the iterations from run[a] up to run[b] postponed a package that did not fit. */
  ghost function PostponedIn(g: Input, run: seq<State>, a: nat, b: nat): nat
    requires g.Valid() && IsRun(g, run) && a <= b <= |run|
    decreases b
  {
    if b == a then 0
    else PostponedIn(g, run, a, b - 1) + (if Postpones(g, run[b - 1]) then 1 else 0)
  }

  /** From run[a] up to run[i] no package was placed and no block was closed. */
  ghost predicate Fruitless(g: Input, run: seq<State>, a: nat, i: nat)
    requires g.Valid() && IsRun(g, run) && a <= i < |run|
  {
    forall j | a <= j <= i :: run[j].used == run[a].used && run[j].blocks == run[a].blocks
  }

  /** One iteration: a placement resets the count of failures, a postponement adds one, unless
      the block is closed. */
  lemma FailuresCount(g: Input, s: State)
    requires g.Exact() && Invariant(g, s) && s.heap != multiset{}
    ensures Step(g, s).blocks == s.blocks && Step(g, s).used == s.used ==>
              Step(g, s).failures == s.failures + (if Postpones(g, s) then 1 else 0)
    ensures Step(g, s).blocks != s.blocks || Step(g, s).used != s.used ==> Step(g, s).failures == 0
  {
    hide Score, Invariant, Place, Close, Closes;
    InvariantOpens(g, s);
    ActedCases(g, s);
    CloseFailures(g, Acted(g, s));
    if ActionOf(g, s).Take? {
      TakeFailures(g, AfterPop(s), Popped(s).uid);
    }
  }

  lemma TakeFailures(g: Input, s: State, u: nat)
    requires g.Valid() && WellFormed(g, s) && u < |g.txs|
    ensures Place(g, s, u).failures == 0 && u in Place(g, s, u).used
  {
    hide Score, PackageRate, FreshEntries, Package, PackageWeight;
  }

  lemma CloseFailures(g: Input, s: State)
    requires g.Valid() && WellFormed(g, s)
    ensures Close(g, s).used == s.used
    ensures Close(g, s).blocks == s.blocks ==> Close(g, s).failures == s.failures
    ensures Close(g, s).blocks != s.blocks ==> Close(g, s).failures == 0
  {
  }

  lemma InvariantOpens(g: Input, s: State)
    requires g.Valid() && Invariant(g, s)
    ensures WellFormed(g, s) && s.failures <= FAILURE_LIMIT
  {
  }

  lemma {:induction false} FailuresInStretch(g: Input, run: seq<State>, a: nat, i: nat)
    requires g.Exact() && IsRun(g, run) && a <= i < |run| && Fruitless(g, run, a, i)
    ensures run[i].failures == run[a].failures + PostponedIn(g, run, a, i)
    decreases i
  {
    hide Start, Step, Invariant, Postpones;
    if a < i {
      FailuresInStretch(g, run, a, i - 1);
      assert StepOf(g, run, i - 1);
      RunInvariant(g, run, i - 1);
      FailuresCount(g, run[i - 1]);
    }
  }

  /** The count of failures is that of the postponements since the last placement or closing. */
  lemma {:induction false} StretchOfFailures(g: Input, run: seq<State>, i: nat) returns (a: nat)
    requires g.Exact() && IsRun(g, run) && i < |run|
    ensures a <= i && Fruitless(g, run, a, i) && PostponedIn(g, run, a, i) == run[i].failures
  {
    hide Step, Invariant, Postpones;
    a := i;
    if i > 0 {
      assert StepOf(g, run, i - 1);
      RunInvariant(g, run, i - 1);
      FailuresCount(g, run[i - 1]);
      if run[i].used == run[i - 1].used && run[i].blocks == run[i - 1].blocks {
        a := StretchOfFailures(g, run, i - 1);
      }
    }
  }

  lemma CloseAddsBlock(g: Input, s: State)
    requires g.Exact() && Invariant(g, s) && s.heap != multiset{}
    ensures |Step(g, s).blocks| > |s.blocks| <==> ConsidersClosing(g, ActionOf(g, s)) && Closes(g, Acted(g, s))
    ensures |Step(g, s).blocks| >= |s.blocks|
  {
    hide Invariant;
    InvariantOpens(g, s);
    ActedCases(g, s);
  }

  lemma ClosesWhen(g: Input, s: State)
    requires g.Exact() && !g.alwaysDrain && Invariant(g, s) && s.heap != multiset{}
    requires Acted(g, s).heap != multiset{}
    ensures |Step(g, s).blocks| > |s.blocks| <==> Postpones(g, s) && s.failures == 1000
  {
    hide Score, FreshEntries, Package, PackageWeight, RatesWith, Invariant;
    InvariantOpens(g, s);
    CloseAddsBlock(g, s);
    ActedCases(g, s);
    assert ActionOf(g, s).Take? ==> Acted(g, s).failures == 0;
  }

  /** While entries are left, a block is closed exactly when more than a thousand packages have
      failed to fit since the last placement or closing, and at the last of these failures. */
  lemma ClosedEarlyIff(g: Input, run: seq<State>, i: nat)
    requires g.Exact() && !g.alwaysDrain && IsRun(g, run) && i + 1 < |run|
    requires run[i].heap != multiset{} && Acted(g, run[i]).heap != multiset{}
    ensures |run[i + 1].blocks| > |run[i].blocks|
       <==> exists a | 0 <= a <= i :: Fruitless(g, run, a, i) && PostponedIn(g, run, a, i + 1) > 1000
  {
    hide Start, Step, Invariant, Fruitless, Postpones;
    assert StepOf(g, run, i);
    RunInvariant(g, run, i);
    ClosesWhen(g, run[i]);
    InvariantOpens(g, run[i]);
    var start := StretchOfFailures(g, run, i);
    if a :| 0 <= a <= i && Fruitless(g, run, a, i) && PostponedIn(g, run, a, i + 1) > 1000 {
      FailuresInStretch(g, run, a, i);
    }
  }

  lemma DeferralsStay(g: Input, s: State)
    requires g.Exact() && Invariant(g, s) && s.heap != multiset{} && s.failures <= |s.overflow|
    ensures Acted(g, s).failures <= |Acted(g, s).overflow| && Step(g, s).failures <= |Step(g, s).overflow|
  {
    hide Score, Invariant;
    InvariantOpens(g, s);
  }

  lemma {:induction false} FailuresAreDeferred(g: Input, run: seq<State>, i: nat)
    requires g.Exact() && IsRun(g, run) && i < |run|
    ensures run[i].failures <= |run[i].overflow|
  {
    hide Step, Invariant;
    if i > 0 {
      FailuresAreDeferred(g, run, i - 1);
      assert StepOf(g, run, i - 1);
      RunInvariant(g, run, i - 1);
      DeferralsStay(g, run[i - 1]);
    }
  }

  /** So a block closed while entries are left leaves over a thousand packages for the next. */
  lemma ClosedEarlyDefersMany(g: Input, run: seq<State>, i: nat)
    requires g.Exact() && !g.alwaysDrain && IsRun(g, run) && i + 1 < |run|
    requires |run[i + 1].blocks| > |run[i].blocks| && run[i].heap != multiset{} && Acted(g, run[i]).heap != multiset{}
    ensures |Acted(g, run[i]).overflow| > 1000
  {
    hide Start, Step, Invariant, Score;
    assert StepOf(g, run, i);
    RunInvariant(g, run, i);
    InvariantOpens(g, run[i]);
    ClosesWhen(g, run[i]);
    FailuresAreDeferred(g, run, i);
  }

  /** When the last entry has just been placed or postponed, the block is closed exactly if
      another one may follow. */
  lemma DrainedClosesIff(g: Input, run: seq<State>, i: nat)
    requires g.Exact() && IsRun(g, run) && i + 1 < |run| && run[i].heap != multiset{}
    requires Takes(g, run[i]) || Postpones(g, run[i])
    requires Acted(g, run[i]).heap == multiset{}
    ensures |run[i + 1].blocks| > |run[i].blocks| <==> |run[i].blocks| + 1 < g.maxBlocks
  {
    hide Start, Step, Invariant, Score;
    assert StepOf(g, run, i);
    RunInvariant(g, run, i);
    InvariantOpens(g, run[i]);
    CloseAddsBlock(g, run[i]);
    ActedCases(g, run[i]);
    if Takes(g, run[i]) {
      assert Acted(g, run[i]).cur == run[i].cur + Package(g, Target(g, run[i]), run[i].used);
    }
  }

  /** The entry an iteration deals with has the highest score in the heap; ties go to the smaller
      order, then to the smaller uid. */
  lemma HighestFirst(g: Input, run: seq<State>, i: nat, x: HeapItem)
    requires g.Valid() && IsRun(g, run) && i < |run| && x in run[i].heap && x != Popped(run[i])
    ensures var e := Popped(run[i]);
            || e.score > x.score
            || (e.score == x.score && e.order < x.order)
            || (e.score == x.score && e.order == x.order && e.uid < x.uid)
  {
    HigherIsStrictTotal(x, Popped(run[i]));
  }

  /** An entry is acted upon exactly if its transaction is not placed and its score is current
      up to 1e-9. */
  lemma ActsOnCurrentEntries(g: Input, run: seq<State>, i: nat)
    requires g.Valid() && IsRun(g, run) && i < |run| && run[i].heap != multiset{}
    ensures Popped(run[i]).uid < |g.txs|
    ensures var e := Popped(run[i]);
            var drift := Score(g, e.uid, run[i].used) - e.score;
            Takes(g, run[i]) || Postpones(g, run[i])
            <==> e.uid !in run[i].used && -0.000000001 <= drift <= 0.000000001
  {
    hide Score;
    assert Popped(run[i]) in run[i].heap;
  }

  /** An entry whose score drifted by more is replaced by an exact one, and nothing else happens. */
  lemma DriftedEntryRescored(g: Input, run: seq<State>, i: nat)
    requires g.Valid() && IsRun(g, run) && i + 1 < |run| && run[i].heap != multiset{}
    requires Popped(run[i]).uid !in run[i].used && !Takes(g, run[i]) && !Postpones(g, run[i])
    ensures var e := Popped(run[i]);
            && e.uid < |g.txs|
            && run[i + 1] == run[i].(heap := run[i].heap - multiset{e} + multiset{Entry(g, e.uid, run[i].used)})
  {
    hide Score, Start;
    assert Popped(run[i]) in run[i].heap;
    assert StepOf(g, run, i);
  }

  /** a comes before b in a package: fewer ancestors, then smaller order, then smaller uid. */
  ghost predicate InPlacingOrder(txs: seq<GbtTx>, a: nat, b: nat)
    requires a < |txs| && b < |txs|
  {
    var x, y := |Ancestors(txs, a)|, |Ancestors(txs, b)|;
    x < y || (x == y && (txs[a].order < txs[b].order || (txs[a].order == txs[b].order && a < b)))
  }

  /** pkg lists the given ancestors of t, roots first, and then t. */
  ghost predicate ListsPackage(txs: seq<GbtTx>, pkg: seq<nat>, ancestors: set<nat>, t: nat) {
    && pkg != [] && pkg[|pkg| - 1] == t
    && Lists(pkg[..|pkg| - 1], ancestors)
    && (forall i | 0 <= i < |pkg| :: pkg[i] < |txs|)
    && forall i, j | 0 <= i < j < |pkg| - 1 :: InPlacingOrder(txs, pkg[i], pkg[j])
  }

  /** A placement appends the target's missing ancestors, in placing order, and the target. */
  lemma PlacedInOrder(g: Input, run: seq<State>, i: nat) returns (pkg: seq<nat>)
    requires g.Exact() && IsRun(g, run) && i + 1 < |run| && Takes(g, run[i])
    ensures Placed(run[i + 1]) == Placed(run[i]) + pkg
    ensures ListsPackage(g.txs, pkg, Ancestors(g.txs, Target(g, run[i])) - run[i].used, Target(g, run[i]))
  {
    hide Start, Step, Score;
    hide Package;
    assert StepOf(g, run, i);
    RunInvariant(g, run, i);
    pkg := Package(g, Target(g, run[i]), run[i].used);
    PackageListed(g, Target(g, run[i]), run[i].used);
    StepPlaces(g, run[i]);
  }

  lemma PackageListed(g: Input, t: nat, used: set<nat>)
    requires g.Exact() && t < |g.txs|
    ensures ListsPackage(g.txs, Package(g, t, used), Ancestors(g.txs, t) - used, t)
  {
    hide Ancestors, InOrder, Lists;
    var pkg, front := Package(g, t, used), InOrder(g, Missing(g, t, used));
    assert pkg[..|pkg| - 1] == front;
    InOrderLists(g, Missing(g, t, used));
    assert forall k | 0 <= k < |front| :: pkg[k] == front[k];
    forall j, k | 0 <= j < k < |front| ensures InPlacingOrder(g.txs, front[j], front[k]) {
      assert Before(g, front[j], front[k]);
    }
  }

  lemma StepPlaces(g: Input, s: State)
    requires g.Exact() && Invariant(g, s) && Takes(g, s)
    ensures Placed(Step(g, s)) == Placed(s) + Package(g, Target(g, s), s.used)
  {
    hide Score, PackageRate, FreshEntries, PackageWeight, Package, Invariant;
    InvariantOpens(g, s);
    ActedCases(g, s);
    CloseKeepsPlaced(g, Acted(g, s));
  }

  /** A transaction without weight competes with score zero, whatever it pays. */
  lemma WeightlessScoresZero(g: Input, u: nat, used: set<nat>)
    requires g.Valid() && u < |g.txs| && g.txs[u].weight == 0
    ensures Score(g, u, used) == 0.0
  {
    RateNotNegative(PackageFee(g, u, used), PackageWeight(g, u, used));
  }

  lemma RateNotNegative(fee: nat, weight: nat)
    ensures Rate(fee, weight) >= 0.0
  {
  }

  /** A package without weight gets the rate zero, whatever it pays. */
  lemma WeightlessRatedZero(g: Input, run: seq<State>, i: nat, m: nat)
    requires g.Exact() && IsRun(g, run) && i + 1 < |run| && PlacesAt(g, run, i, m)
    requires PackageWeight(g, Target(g, run[i]), run[i].used) == 0
    ensures m in Outcome(Last(run)).rates && Outcome(Last(run)).rates[m] == 0.0
  {
    hide Start, Step, Score;
    CpfpOnlyLifts(g, run, i, m);
  }
}
