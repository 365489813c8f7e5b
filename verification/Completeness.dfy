/** When a projection places every transaction, and when it leaves some in no block. */
module Completeness {
  import opened UidSums
  import opened TxGraph
  import opened ScoreHeap
  import opened Packing
  import opened PackingRun
  import opened PackingInvariants
  import opened PackingOrder
  import opened PackingTheorems

  ghost predicate PlacesAll(g: Input, run: seq<State>)
    requires run != []
  {
    Outcome(Last(run)).rates.Keys == g.All()
  }

  /** The last heap entry is a stale one of a placed transaction, and work is deferred: the
      loop skips the entry and ends without looking at the deferred work. */
  ghost predicate Strands(s: State) {
    s.heap != multiset{} && AfterPop(s).heap == multiset{} && Popped(s).uid in s.used && s.overflow != []
  }

  lemma PlacesAllIffNothingDeferred(g: Input, run: seq<State>)
    requires g.Exact() && IsCompleteRun(g, run)
    ensures PlacesAll(g, run) <==> Last(run).overflow == []
  {
    Conservation(g, run);
    if Last(run).overflow != [] {
      assert Last(run).overflow[0] in LeftOver(run);
    } else {
      assert LeftOver(run) == {};
    }
  }

  /** A step that ends the loop with work deferred skipped a stale entry to do so. */
  lemma EndsStranded(g: Input, s: State)
    requires g.Exact() && Sound(g, s) && s.heap != multiset{}
    requires Step(g, s).heap == multiset{} && Step(g, s).overflow != []
    ensures Strands(s) && !g.alwaysDrain
  {
    hide Score, Place, Close, Closes;
    ActedSound(g, s);
    CloseLeavesNothing(g, Acted(g, s));
    RescoreKeepsHeap(g, s);
  }

  /** Considering a sound state for closing never ends the loop with work deferred. */
  lemma CloseLeavesNothing(g: Input, s: State)
    requires g.Valid() && WellFormed(g, s) && DeferredStuck(g, s)
    ensures Close(g, s).heap != multiset{} || Close(g, s).overflow == []
  {
    DeferredMeansOpen(g, s);
  }

  lemma DeferredMeansOpen(g: Input, s: State)
    requires g.Valid() && WellFormed(g, s) && DeferredStuck(g, s)
    ensures s.overflow != [] ==> Bounded(g, s.blocks) && s.cur != []
  {
    if s.overflow != [] {
      assert s.overflow[0] in s.overflow;
    }
  }

  lemma RescoreKeepsHeap(g: Input, s: State)
    requires g.Valid() && WellFormed(g, s) && s.heap != multiset{}
    ensures ActionOf(g, s).Rescore? ==> Acted(g, s).heap != multiset{}
  {
    if ActionOf(g, s).Rescore? {
      assert Entry(g, Popped(s).uid, s.used) in Acted(g, s).heap;
    }
  }

  /** Such a skip is the last step, and it leaves everything but the heap as it was. */
  lemma StrandedEnds(g: Input, run: seq<State>, i: nat)
    requires g.Exact() && !g.alwaysDrain && IsCompleteRun(g, run) && i < |run| && Strands(run[i])
    ensures Last(run) == run[i].(heap := multiset{}) && Last(run).overflow != []
  {
    assert StepOf(g, run, i);
    if i + 2 < |run| {
      NotOver(g, run, i + 1);
    }
  }

  lemma LastStepStrands(g: Input, run: seq<State>)
    requires g.Exact() && IsCompleteRun(g, run) && Last(run).overflow != []
    ensures |run| >= 2 && Strands(run[|run| - 2]) && !g.alwaysDrain
  {
    hide Start, Step, Strands, Sound;
    StartIsIdle(g);
    RunSound(g, run, if |run| >= 2 then |run| - 2 else 0);
    assert |run| >= 2 ==> StepOf(g, run, |run| - 2);
    if |run| >= 2 {
      EndsStranded(g, run[|run| - 2]);
    }
  }

  lemma StartIsIdle(g: Input)
    requires g.Valid()
    ensures Start(g).overflow == []
  {
  }

  /** The exact condition: a projection places every transaction if and only if the loop
      never skips a stale entry that empties the heap while work is deferred. */
  lemma PlacesAllIffNeverStrands(g: Input, run: seq<State>)
    requires g.Exact() && !g.alwaysDrain && IsCompleteRun(g, run)
    ensures PlacesAll(g, run) <==> forall i | 0 <= i < |run| :: !Strands(run[i])
  {
    hide Start, Step, Strands;
    PlacesAllIffNothingDeferred(g, run);
    if i: nat :| i < |run| && Strands(run[i]) {
      StrandedEnds(g, run, i);
    }
    if Last(run).overflow != [] {
      LastStepStrands(g, run);
    }
  }

  /** Looking for a drained heap on the skipping path as well would place every transaction
      of every acyclic input. */
  lemma DrainingAlwaysPlacesAll(g: Input, run: seq<State>)
    requires g.Exact() && g.alwaysDrain && IsCompleteRun(g, run)
    ensures PlacesAll(g, run)
  {
    hide Start, Step, Strands;
    PlacesAllIffNothingDeferred(g, run);
    if Last(run).overflow != [] {
      LastStepStrands(g, run);
    }
  }

  /** A single, unlimited block takes everything. */
  lemma OneBlockPlacesAll(g: Input, run: seq<State>)
    requires g.Exact() && g.maxBlocks <= 1 && IsCompleteRun(g, run)
    ensures PlacesAll(g, run)
  {
    hide Start, Step;
    RunInvariant(g, run, |run| - 1);
    PlacesAllIffNothingDeferred(g, run);
    DeferredMeansOpen(g, Last(run));
  }

  /** In a block that has room for the whole input, nothing ever fails to fit. */
  lemma RoomForAll(g: Input, s: State, o: nat)
    requires g.Exact() && Invariant(g, s) && o < |g.txs| && o !in s.used
    requires g.reserved + Sum(g.Weights(), g.All()) <= g.limit
    ensures Fits(g, s, o)
  {
    var w := g.Weights();
    var mine := Missing(g, o, s.used) + {o};
    CurIsListed(s);
    SumSeqIsSum(w, s.cur, Elements(s.cur));
    PackageSums(g, o, s.used);
    SumUnion(w, Elements(s.cur), mine);
    SumSubset(w, Elements(s.cur) + mine, g.All());
  }

  lemma CurIsListed(s: State)
    requires Lists(Placed(s), s.used)
    ensures Lists(s.cur, Elements(s.cur)) && Elements(s.cur) <= s.used
  {
    var n := |Flatten(s.blocks)|;
    assert forall i | 0 <= i < |s.cur| :: Placed(s)[n + i] == s.cur[i];
    forall i, j | 0 <= i < j < |s.cur| ensures s.cur[i] != s.cur[j] {
      assert Placed(s)[n + i] != Placed(s)[n + j];
    }
  }

  lemma SmallInputPlacesAll(g: Input, run: seq<State>)
    requires g.Exact() && IsCompleteRun(g, run)
    requires g.reserved + Sum(g.Weights(), g.All()) <= g.limit
    ensures PlacesAll(g, run)
  {
    hide Start, Step, Fits;
    RunInvariant(g, run, |run| - 1);
    PlacesAllIffNothingDeferred(g, run);
    if Last(run).overflow != [] {
      var o := Last(run).overflow[0];
      assert o in Last(run).overflow;
      RoomForAll(g, Last(run), o);
    }
  }

  /** A placed transaction that still has an entry was pulled in by another: until two are
      placed no placed one has an entry, and until one is, nobody has two. */
  ghost predicate StaleNeedsTwo(s: State) {
    || |s.used| >= 2
    || (forall e | e in s.heap :: e.uid !in s.used && (s.used == {} ==> OnlyEntry(s, e)))
  }

  ghost predicate OnlyEntry(s: State, e: HeapItem) {
    s.heap[e] == 1 && forall x | x in s.heap && x.uid == e.uid :: x == e
  }

  lemma StartStaleNeedsTwo(g: Input)
    requires g.Valid()
    ensures StaleNeedsTwo(Start(g))
  {
    forall e | e in Start(g).heap ensures OnlyEntry(Start(g), e) {
      EntriesBelowOnce(g, g.All(), {}, |g.txs|, e);
      forall x | x in Start(g).heap && x.uid == e.uid ensures x == e {
        EntriesBelowMember(g, g.All(), {}, |g.txs|, e);
        EntriesBelowMember(g, g.All(), {}, |g.txs|, x);
      }
    }
  }

  lemma TwoOfMore(a: nat, b: nat, s: set<nat>)
    requires a in s && b in s && a != b
    ensures |s| >= 2
  {
    assert {a, b} <= s && |{a, b}| == 2;
    SubsetSize({a, b}, s);
  }

  /** Only transactions not placed get new entries. */
  lemma TakeStaleNeedsTwo(g: Input, s: State)
    requires g.Exact() && WellFormed(g, s) && s.heap != multiset{} && ActionOf(g, s).Take? && StaleNeedsTwo(s)
    ensures StaleNeedsTwo(Acted(g, s))
  {
    hide Score;
    ActedCases(g, s);
    var t := Popped(s).uid;
    var next := Acted(g, s);
    assert Popped(s) in s.heap;
    if m :| m in s.used + Missing(g, t, s.used) && m != t {
      TwoOfMore(m, t, next.used);
    } else {
      assert next.used == {t} && s.used == {};
      var below := Descendants(g.txs, Missing(g, t, s.used) + {t}) - next.used;
      forall e | e in next.heap ensures e.uid !in next.used {
        EntriesBelowMember(g, below, next.used, |g.txs|, e);
        if e in AfterPop(s).heap {
          assert OnlyEntry(s, Popped(s));
        }
      }
    }
  }

  lemma RescoreStaleNeedsTwo(g: Input, s: State)
    requires g.Exact() && WellFormed(g, s) && s.heap != multiset{} && ActionOf(g, s).Rescore? && StaleNeedsTwo(s)
    ensures StaleNeedsTwo(Acted(g, s))
  {
    hide Score;
    var renewed := Entry(g, Popped(s).uid, s.used);
    var next := Acted(g, s);
    assert Popped(s) in s.heap;
    assert next.heap == s.heap - multiset{Popped(s)} + multiset{renewed};
    if |s.used| < 2 {
      forall e | e in next.heap ensures e.uid !in s.used && (s.used == {} ==> OnlyEntry(next, e)) {
        if s.used == {} {
          assert OnlyEntry(s, Popped(s));
          assert e != renewed ==> OnlyEntry(s, e);
        }
      }
    }
  }

  lemma ActedStaleNeedsTwo(g: Input, s: State)
    requires g.Exact() && WellFormed(g, s) && s.heap != multiset{} && StaleNeedsTwo(s)
    ensures StaleNeedsTwo(Acted(g, s))
  {
    hide Score;
    match ActionOf(g, s)
    case Take => TakeStaleNeedsTwo(g, s);
    case Rescore => RescoreStaleNeedsTwo(g, s);
    case Skip | Postpone =>
      ActedCases(g, s);
      assert Acted(g, s).heap == AfterPop(s).heap;
      forall e | e in s.heap && OnlyEntry(s, e) && e in AfterPop(s).heap ensures OnlyEntry(Acted(g, s), e) {
      }
  }

  lemma CloseStaleNeedsTwo(g: Input, s: State)
    requires g.Exact() && WellFormed(g, s) && DeferredStuck(g, s) && StaleNeedsTwo(s)
    requires s.used == {} ==> s.cur == []
    ensures StaleNeedsTwo(Close(g, s))
  {
    var next := Close(g, s);
    if Closes(g, s) && |s.used| < 2 {
      var items := EntriesOf(g, s.overflow, s.used);
      forall e | e in next.heap ensures e.uid !in s.used {
        if e !in s.heap {
          assert e in multiset(items);
          var i :| 0 <= i < |items| && items[i] == e;
          assert s.overflow[i] in s.overflow;
        }
      }
    }
  }

  lemma NothingOpen(s: State)
    requires Lists(Placed(s), s.used)
    ensures s.used == {} ==> s.cur == []
  {
    if s.cur != [] {
      assert s.cur[0] in Placed(s);
    }
  }

  lemma {:induction false} RunStaleNeedsTwo(g: Input, run: seq<State>, i: nat)
    requires g.Exact() && IsRun(g, run) && i < |run|
    ensures StaleNeedsTwo(run[i])
  {
    hide Start, Step, Invariant, StaleNeedsTwo, Acted;
    if i == 0 {
      StartStaleNeedsTwo(g);
    } else {
      RunStaleNeedsTwo(g, run, i - 1);
      assert StepOf(g, run, i - 1);
      RunInvariant(g, run, i - 1);
      StepStaleNeedsTwo(g, run[i - 1]);
    }
  }

  lemma StepStaleNeedsTwo(g: Input, s: State)
    requires g.Exact() && Invariant(g, s) && s.heap != multiset{} && StaleNeedsTwo(s)
    ensures StaleNeedsTwo(Step(g, s))
  {
    hide StaleNeedsTwo, Acted;
    ActedStaleNeedsTwo(g, s);
    ActedSound(g, s);
    ActedOpen(g, s);
    CloseStaleNeedsTwo(g, Acted(g, s));
  }

  lemma ActedOpen(g: Input, s: State)
    requires g.Exact() && Invariant(g, s) && s.heap != multiset{}
    ensures Acted(g, s).used == {} ==> Acted(g, s).cur == []
  {
    ActedCases(g, s);
    NothingOpen(s);
  }

  /** A transaction can only be lost to a parent and its child: two are always placed. */
  lemma TwoTxsPlaceAll(g: Input, run: seq<State>)
    requires g.Exact() && !g.alwaysDrain && IsCompleteRun(g, run) && |g.txs| <= 2
    ensures PlacesAll(g, run)
  {
    hide Start, Step;
    if i: nat :| i < |run| && Strands(run[i]) {
      RunSound(g, run, i);
      RunStaleNeedsTwo(g, run, i);
      StrandingTakesThree(g, run[i]);
    }
    PlacesAllIffNeverStrands(g, run);
  }

  lemma StrandingTakesThree(g: Input, s: State)
    requires g.Exact() && Sound(g, s) && StaleNeedsTwo(s) && Strands(s)
    ensures |g.txs| >= 3
  {
    assert Popped(s) in s.heap;
    var o := s.overflow[0];
    assert o in s.overflow;
    assert s.used <= g.All() - {o};
    SubsetSize(s.used, g.All() - {o});
    BelowSize(|g.txs|);
  }

  ghost predicate NoParents(g: Input) {
    forall i | 0 <= i < |g.txs| :: g.txs[i].parents == []
  }

  /** Without parents scores never change, so no entry is ever stale: each transaction not
      placed has one entry or is deferred, never both. */
  ghost predicate NoneStale(g: Input, s: State)
    requires g.Valid()
  {
    && (forall e | e in s.heap :: s.heap[e] == 1 && e.uid < |g.txs| && e == Entry(g, e.uid, {})
                                  && e.uid !in s.used && e.uid !in s.overflow)
    && (forall i, j | 0 <= i < j < |s.overflow| :: s.overflow[i] != s.overflow[j])
  }

  lemma Rootless(g: Input, u: nat, used: set<nat>)
    requires g.Exact() && NoParents(g) && u < |g.txs|
    ensures g.anc[u] == {} && Entry(g, u, used) == Entry(g, u, {})
  {
    forall a | a in Ancestors(g.txs, u) ensures false {
      var p := AncestorFirstStep(g.txs, a, u);
    }
    assert Missing(g, u, used) == Missing(g, u, {}) == {};
  }

  lemma Childless(g: Input, s: set<nat>)
    requires g.Exact() && NoParents(g)
    ensures Descendants(g.txs, s) == {}
  {
    forall d | d in Descendants(g.txs, s) ensures false {
      var m :| m in s && IsAncestor(g.txs, m, d);
      var p := AncestorFirstStep(g.txs, m, d);
    }
  }

  lemma EntriesBelowStep(g: Input, s: set<nat>, used: set<nat>, k: nat)
    requires g.Valid() && 0 < k <= |g.txs|
    ensures EntriesBelow(g, s, used, k) == EntriesBelow(g, s, used, k - 1)
            + (if k - 1 in s then multiset{Entry(g, k - 1, used)} else multiset{})
    ensures EntriesBelow(g, s, used, 0) == multiset{}
  {
    hide Entry;
  }

  lemma OneMore(m: multiset<HeapItem>, x: HeapItem, e: HeapItem)
    requires m[x] == 0 && m[e] <= 1
    ensures (m + multiset{x})[e] <= 1
  {
  }

  lemma {:induction false} EntriesBelowOnce(g: Input, s: set<nat>, used: set<nat>, k: nat, e: HeapItem)
    requires g.Valid() && k <= |g.txs|
    ensures EntriesBelow(g, s, used, k)[e] <= 1
  {
    if k > 0 {
      hide Entry, EntriesBelow;
      var last := Entry(g, k - 1, used);
      EntriesBelowOnce(g, s, used, k - 1, e);
      EntriesBelowMember(g, s, used, k - 1, last);
      EntryUid(g, k - 1, used);
      EntriesBelowStep(g, s, used, k);
      OneMore(EntriesBelow(g, s, used, k - 1), last, e);
    }
  }

  lemma EntryUid(g: Input, u: nat, used: set<nat>)
    requires g.Valid() && u < |g.txs|
    ensures Entry(g, u, used).uid == u
  {
  }

  lemma StartNoneStale(g: Input)
    requires g.Valid()
    ensures NoneStale(g, Start(g))
  {
    forall e | e in Start(g).heap ensures Start(g).heap[e] == 1 && e.uid < |g.txs| && e == Entry(g, e.uid, {}) {
      EntriesBelowOnce(g, g.All(), {}, |g.txs|, e);
      EntriesBelowMember(g, g.All(), {}, |g.txs|, e);
    }
  }

  lemma ActsOnFreshEntry(g: Input, s: State)
    requires g.Exact() && NoParents(g) && WellFormed(g, s) && NoneStale(g, s) && s.heap != multiset{}
    ensures ActionOf(g, s).Take? || ActionOf(g, s).Postpone?
  {
    assert Popped(s) in s.heap;
    Rootless(g, Popped(s).uid, s.used);
  }

  lemma TakeNoneStale(g: Input, s: State)
    requires g.Exact() && NoParents(g) && WellFormed(g, s) && NoneStale(g, s) && s.heap != multiset{}
    requires ActionOf(g, s).Take?
    ensures NoneStale(g, Acted(g, s))
  {
    hide Score;
    ActedCases(g, s);
    var t := Popped(s).uid;
    assert Popped(s) in s.heap;
    Rootless(g, t, s.used);
    Childless(g, Missing(g, t, s.used) + {t});
    var used := UsedWith(g, t, s.used);
    assert Descendants(g.txs, Missing(g, t, s.used) + {t}) - used == {};
    NoEntries(g, used, |g.txs|);
    assert Acted(g, s).heap == s.heap - multiset{Popped(s)};
  }

  lemma PostponeNoneStale(g: Input, s: State)
    requires g.Exact() && WellFormed(g, s) && NoneStale(g, s) && s.heap != multiset{}
    requires ActionOf(g, s).Postpone?
    ensures NoneStale(g, Acted(g, s))
  {
    hide Score;
    assert Popped(s) in s.heap;
    assert Acted(g, s) == Defer(AfterPop(s), Popped(s).uid);
  }

  lemma DistinctCount(items: seq<HeapItem>, e: HeapItem)
    requires forall i, j | 0 <= i < j < |items| :: items[i] != items[j]
    ensures multiset(items)[e] <= 1
    decreases |items|
  {
    if items != [] {
      var front := items[..|items| - 1];
      assert items == front + [items[|items| - 1]];
      DistinctCount(front, e);
      if items[|items| - 1] == e {
        assert e !in front;
      }
    }
  }

  lemma CloseNoneStale(g: Input, s: State)
    requires g.Exact() && NoParents(g) && WellFormed(g, s) && NoneStale(g, s) && DeferredStuck(g, s)
    ensures NoneStale(g, Close(g, s))
  {
    hide Score;
    var items := EntriesOf(g, s.overflow, s.used);
    forall i | 0 <= i < |items| ensures items[i] == Entry(g, s.overflow[i], {}) && s.overflow[i] in s.overflow {
      Rootless(g, s.overflow[i], s.used);
    }
    forall e: HeapItem | e in multiset(items)
      ensures multiset(items)[e] == 1 && e !in s.heap
      ensures e.uid < |g.txs| && e == Entry(g, e.uid, {}) && e.uid !in s.used
    {
      DistinctCount(items, e);
      var i :| 0 <= i < |items| && items[i] == e;
    }
  }

  lemma StepNoneStale(g: Input, s: State)
    requires g.Exact() && NoParents(g) && Sound(g, s) && NoneStale(g, s) && s.heap != multiset{}
    ensures NoneStale(g, Step(g, s))
  {
    hide Score, NoneStale;
    ActsOnFreshEntry(g, s);
    ActedSound(g, s);
    if ActionOf(g, s).Take? {
      TakeNoneStale(g, s);
    } else {
      PostponeNoneStale(g, s);
    }
    CloseNoneStale(g, Acted(g, s));
  }

  lemma {:induction false} RunNoneStale(g: Input, run: seq<State>, i: nat)
    requires g.Exact() && NoParents(g) && IsRun(g, run) && i < |run|
    ensures NoneStale(g, run[i])
  {
    hide Start, Step, NoneStale, Invariant;
    if i == 0 {
      StartNoneStale(g);
    } else {
      RunNoneStale(g, run, i - 1);
      assert StepOf(g, run, i - 1);
      RunSound(g, run, i - 1);
      StepNoneStale(g, run[i - 1]);
    }
  }

  /** When no transaction has a parent, every transaction is placed. */
  lemma IndependentTxsAllPlaced(g: Input, run: seq<State>)
    requires g.Exact() && NoParents(g) && IsCompleteRun(g, run)
    ensures PlacesAll(g, run)
  {
    hide Start, Step, Strands, NoneStale;
    PlacesAllIffNothingDeferred(g, run);
    if Last(run).overflow != [] {
      LastStepStrands(g, run);
      RunNoneStale(g, run, |run| - 2);
      NoneStaleNeverStrands(g, run[|run| - 2]);
    }
  }

  lemma NoneStaleNeverStrands(g: Input, s: State)
    requires g.Valid() && NoneStale(g, s)
    ensures !Strands(s)
  {
    if s.heap != multiset{} {
      assert Popped(s) in s.heap;
    }
  }
}
