/** The packing loop runs to completion on every in-range input, cyclic or not. */
module PackingRun {
  import opened TxGraph
  import opened Ancestry
  import opened ScoreHeap
  import opened Packing

  /** How many heap entries, counted with repetition, carry the exact current score of one
      of the uids below k. */
  ghost function ExactCount(g: Input, heap: multiset<HeapItem>, used: set<nat>, k: nat): nat
    requires g.Valid() && k <= |g.txs|
  {
    if k == 0 then 0 else ExactCount(g, heap, used, k - 1) + heap[Entry(g, k - 1, used)]
  }

  lemma {:induction false} ExactCountUnaffected(g: Input, h: multiset<HeapItem>, h': multiset<HeapItem>,
                                                used: set<nat>, k: nat)
    requires g.Valid() && k <= |g.txs|
    requires forall u: nat | u < k :: h[Entry(g, u, used)] == h'[Entry(g, u, used)]
    ensures ExactCount(g, h, used, k) == ExactCount(g, h', used, k)
  {
    if k > 0 {
      ExactCountUnaffected(g, h, h', used, k - 1);
      assert h[Entry(g, k - 1, used)] == h'[Entry(g, k - 1, used)];
    }
  }

  lemma {:induction false} ExactCountBounded(g: Input, heap: multiset<HeapItem>, used: set<nat>, k: nat)
    requires g.Valid() && k <= |g.txs|
    ensures ExactCount(g, heap, used, k) <= |heap|
    decreases k
  {
    if k > 0 {
      var e := Entry(g, k - 1, used);
      var rest := heap[e := 0];
      ExactCountBounded(g, rest, used, k - 1);
      ExactCountUnaffected(g, heap, rest, used, k - 1);
    }
  }

  lemma {:induction false} ExactCountAdd(g: Input, heap: multiset<HeapItem>, used: set<nat>, u: nat, k: nat)
    requires g.Valid() && k <= |g.txs| && u < |g.txs|
    ensures ExactCount(g, heap + multiset{Entry(g, u, used)}, used, k)
         == ExactCount(g, heap, used, k) + (if u < k then 1 else 0)
  {
    if k > 0 {
      ExactCountAdd(g, heap, used, u, k - 1);
      assert Entry(g, k - 1, used) == Entry(g, u, used) <==> k - 1 == u;
    }
  }

  ghost function Unplaced(g: Input, s: State): nat {
    |g.All() - s.used|
  }

  ghost function BlocksLeft(g: Input, s: State): nat {
    if Bounded(g, s.blocks) then g.maxBlocks - 1 - |s.blocks| else 0
  }

  ghost function InexactEntries(g: Input, s: State): nat
    requires g.Valid()
  {
    ExactCountBounded(g, s.heap, s.used, |g.txs|);
    |s.heap| - ExactCount(g, s.heap, s.used, |g.txs|)
  }

  /** t comes after s in the lexicographic order of (transactions not placed, limited blocks
      left, heap size, heap entries whose score is not current). */
  ghost predicate Progress(g: Input, s: State, t: State)
    requires g.Valid()
  {
    || Unplaced(g, t) < Unplaced(g, s)
    || (Unplaced(g, t) == Unplaced(g, s) && BlocksLeft(g, t) < BlocksLeft(g, s))
    || (Unplaced(g, t) == Unplaced(g, s) && BlocksLeft(g, t) == BlocksLeft(g, s)
        && (|t.heap| < |s.heap| || (|t.heap| == |s.heap| && InexactEntries(g, t) < InexactEntries(g, s))))
  }

  lemma RescoreProgress(g: Input, s: State)
    requires g.Valid() && WellFormed(g, s) && s.heap != multiset{} && ActionOf(g, s).Rescore?
    ensures Progress(g, s, Acted(g, s))
  {
    var u := Popped(s).uid;
    assert Popped(s) in s.heap;
    var rest := s.heap - multiset{Popped(s)};
    forall w: nat | w < |g.txs| ensures s.heap[Entry(g, w, s.used)] == rest[Entry(g, w, s.used)] {
      assert Entry(g, w, s.used) != Popped(s);
    }
    ExactCountUnaffected(g, s.heap, rest, s.used, |g.txs|);
    ExactCountAdd(g, rest, s.used, u, |g.txs|);
  }

  lemma TakeProgress(g: Input, s: State)
    requires g.Valid() && WellFormed(g, s) && s.heap != multiset{} && ActionOf(g, s).Take?
    ensures Progress(g, s, Step(g, s))
  {
    var u := Popped(s).uid;
    assert Popped(s) in s.heap;
    assert u in g.All() - s.used && u !in g.All() - Step(g, s).used;
    assert g.All() - Step(g, s).used <= g.All() - s.used;
    StrictSubsetSize(g.All() - Step(g, s).used, g.All() - s.used);
  }

  /** An entry that is dropped or deferred leaves a smaller heap, or one block fewer to fill. */
  lemma DropProgress(g: Input, s: State)
    requires g.Valid() && WellFormed(g, s) && s.heap != multiset{}
    requires ActionOf(g, s).Skip? || ActionOf(g, s).Postpone?
    ensures Progress(g, s, Step(g, s))
  {
    hide Score, Fits, ExactCount;
    assert Popped(s) in s.heap;
    assert |AfterPop(s).heap| == |s.heap| - 1;
    ActedCases(g, s);
  }

  lemma StepProgress(g: Input, s: State)
    requires g.Valid() && WellFormed(g, s) && s.heap != multiset{}
    ensures Progress(g, s, Step(g, s))
  {
    match ActionOf(g, s)
    case Rescore => RescoreProgress(g, s);
    case Take => TakeProgress(g, s);
    case Skip => DropProgress(g, s);
    case Postpone => DropProgress(g, s);
  }

  /** One iteration of the loop takes s to t. */
  ghost predicate StepsTo(g: Input, s: State, t: State)
    requires g.Valid()
  {
    WellFormed(g, s) && s.heap != multiset{} && t == Step(g, s)
  }

  ghost predicate StepOf(g: Input, run: seq<State>, i: nat)
    requires g.Valid() && i + 1 < |run|
  {
    StepsTo(g, run[i], run[i + 1])
  }

  /** The states of the loop, one per iteration, from the initial one on. */
  ghost predicate IsRun(g: Input, run: seq<State>)
    requires g.Valid()
  {
    && run != [] && run[0] == Start(g)
    && (forall i | 0 <= i < |run| :: WellFormed(g, run[i]))
    && (forall i | 0 <= i < |run| - 1 :: StepOf(g, run, i))
  }

  ghost function Last(run: seq<State>): State
    requires run != []
  {
    run[|run| - 1]
  }

  /** A run to the end, where the heap is empty. */
  ghost predicate IsCompleteRun(g: Input, run: seq<State>)
    requires g.Valid()
  {
    IsRun(g, run) && Last(run).heap == multiset{}
  }

  /** The projection read off the final state: the open block, if any, is the last one. */
  ghost function Outcome(s: State): Projection {
    Projection(if s.cur == [] then s.blocks else s.blocks + [s.cur], s.rates)
  }

  lemma RunStarts(g: Input)
    requires g.Valid()
    ensures IsRun(g, [Start(g)])
  {
  }

  lemma RunGrows(g: Input, run: seq<State>)
    requires g.Valid() && IsRun(g, run) && Last(run).heap != multiset{}
    ensures IsRun(g, run + [Step(g, Last(run))])
  {
    hide Start, Step;
    var longer := run + [Step(g, Last(run))];
    forall i | 0 <= i < |longer| - 1 ensures StepOf(g, longer, i) {
      if i < |run| - 1 {
        assert StepOf(g, run, i);
      }
    }
  }

  /** The loop terminates: every run can be carried on to the end. */
  lemma {:induction false} RunCompletes(g: Input, run: seq<State>) returns (complete: seq<State>)
    requires g.Valid() && IsRun(g, run)
    ensures IsCompleteRun(g, complete) && run <= complete
    decreases Unplaced(g, Last(run)), BlocksLeft(g, Last(run)), |Last(run).heap|, InexactEntries(g, Last(run))
  {
    hide Start, Step;
    if Last(run).heap == multiset{} {
      complete := run;
    } else {
      RunGrows(g, run);
      StepProgress(g, Last(run));
      complete := RunCompletes(g, run + [Step(g, Last(run))]);
    }
  }

  /** The loop leaves nothing to chance: runs of the same length are the same. */
  lemma {:induction false} RunsAgree(g: Input, a: seq<State>, b: seq<State>, k: nat)
    requires g.Valid() && IsRun(g, a) && IsRun(g, b) && k < |a| && k < |b|
    ensures a[k] == b[k]
  {
    hide Start, Step;
    if k > 0 {
      RunsAgree(g, a, b, k - 1);
      assert StepOf(g, a, k - 1) && StepOf(g, b, k - 1);
    }
  }

  lemma NotOver(g: Input, run: seq<State>, k: nat)
    requires g.Valid() && IsRun(g, run) && k + 1 < |run|
    ensures run[k].heap != multiset{}
  {
    assert StepOf(g, run, k);
  }

  /** Every in-range input, cyclic or not, has exactly one complete run. */
  lemma CompleteRunUnique(g: Input, a: seq<State>, b: seq<State>)
    requires g.Valid() && IsCompleteRun(g, a) && IsCompleteRun(g, b)
    ensures a == b
  {
    hide Start, Step;
    var k := if |a| <= |b| then |a| - 1 else |b| - 1;
    RunsAgree(g, a, b, k);
    if |a| < |b| {
      NotOver(g, b, k);
    } else if |b| < |a| {
      NotOver(g, a, k);
    }
    forall i | 0 <= i < |a| ensures a[i] == b[i] {
      RunsAgree(g, a, b, i);
    }
  }

  /** The repository's loop on these transactions and limits, with the ancestor sets its search
      finds. */
  ghost function Configured(txs: seq<GbtTx>, maxBlocks: nat, limit: nat, reserved: nat): (g: Input)
    requires InRange(txs)
    ensures g.Genuine() && (Acyclic(txs) ==> g.Exact())
  {
    ClosuresAreAncestors(txs);
    Input(txs, ClosuresOf(txs), maxBlocks, limit, reserved, false)
  }

  /** p is read off a complete run of the packing loop on these transactions and limits. */
  ghost predicate IsProjectionOf(txs: seq<GbtTx>, maxBlocks: nat, limit: nat, reserved: nat, p: Projection)
    requires InRange(txs)
  {
    exists run :: ProjectsTo(Configured(txs, maxBlocks, limit, reserved), run, p)
  }

  ghost predicate ProjectsTo(g: Input, run: seq<State>, p: Projection)
    requires g.Valid()
  {
    IsCompleteRun(g, run) && p == Outcome(Last(run))
  }

  /** Every in-range input, cyclic or not, has one projection: hash iteration order has no say
      in it. */
  lemma ProjectionUnique(txs: seq<GbtTx>, maxBlocks: nat, limit: nat, reserved: nat, p: Projection, q: Projection)
    requires InRange(txs)
    requires IsProjectionOf(txs, maxBlocks, limit, reserved, p) && IsProjectionOf(txs, maxBlocks, limit, reserved, q)
    ensures p == q
  {
    hide IsCompleteRun;
    var g := Configured(txs, maxBlocks, limit, reserved);
    var run :| ProjectsTo(g, run, p);
    var run' :| ProjectsTo(g, run', q);
    CompleteRunUnique(g, run, run');
  }
}
