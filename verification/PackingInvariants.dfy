/** What the packing loop maintains: an exact heap entry or a deferral for every
    transaction not placed, and deferrals that stay justified until the block closes. */
module PackingInvariants {
  import opened UidSums
  import opened TxGraph
  import opened ScoreHeap
  import opened Packing

  /** Every transaction not placed is deferred or has an entry with its exact score. */
  ghost predicate Fresh(g: Input, s: State)
    requires g.Valid() && WellFormed(g, s)
  {
    forall u | u in g.All() && u !in s.used :: u in s.overflow || Entry(g, u, s.used) in s.heap
  }

  /** Every deferred transaction is still not placed and its package still does not fit. */
  ghost predicate DeferredStuck(g: Input, s: State)
    requires g.Valid() && WellFormed(g, s)
  {
    forall o | o in s.overflow :: o !in s.used && !Fits(g, s, o)
  }

  ghost predicate AncestorClosed(g: Input, used: set<nat>)
    requires g.Valid() && used <= g.All()
  {
    forall u | u in used :: g.anc[u] <= used
  }

  lemma NotOwnAncestor(g: Input, u: nat)
    requires g.Exact() && u < |g.txs|
    ensures u !in g.anc[u]
  {
  }

  /** The package as one sum. */
  lemma PackageSums(g: Input, u: nat, used: set<nat>)
    requires g.Exact() && u < |g.txs|
    ensures PackageWeight(g, u, used) == Sum(g.Weights(), Missing(g, u, used) + {u})
    ensures PackageFee(g, u, used) == Sum(g.Fees(), Missing(g, u, used) + {u})
  {
    NotOwnAncestor(g, u);
    SumAdd(g.Weights(), Missing(g, u, used), u);
    SumAdd(g.Fees(), Missing(g, u, used), u);
  }

  /** A package contains the packages of its members. */
  lemma PackageInside(g: Input, m: nat, t: nat, used: set<nat>)
    requires g.Exact() && t < |g.txs| && m in Missing(g, t, used)
    ensures Missing(g, m, used) + {m} <= Missing(g, t, used)
    ensures PackageWeight(g, m, used) <= PackageWeight(g, t, used)
  {
    AncestorsTransitive(g.txs, t);
    PackageSums(g, m, used);
    SumSubset(g.Weights(), Missing(g, m, used) + {m}, Missing(g, t, used));
  }

  /** No deferred transaction sits inside a package that fits. */
  lemma FittingPackageAvoidsStuck(g: Input, s: State, o: nat, t: nat)
    requires g.Exact() && o < |g.txs| && t < |g.txs|
    requires !Fits(g, s, o) && Fits(g, s, t)
    requires o !in s.used
    ensures o !in UsedWith(g, t, s.used)
  {
    if o in Missing(g, t, s.used) {
      PackageInside(g, o, t, s.used);
    }
  }

  /** Placing t adds to the block at least what it takes off o's remaining package. */
  lemma RemainderShrinksByAtMost(g: Input, o: nat, t: nat, used: set<nat>)
    requires g.Exact() && o < |g.txs| && t < |g.txs|
    ensures PackageWeight(g, o, used) <= PackageWeight(g, o, UsedWith(g, t, used)) + PackageWeight(g, t, used)
  {
    var w := g.Weights();
    var before := Missing(g, o, used);
    var after := Missing(g, o, UsedWith(g, t, used));
    var added := Missing(g, t, used) + {t};
    PackageSums(g, t, used);
    SumSubset(w, after, before);
    SumSubset(w, before - after, added);
  }

  lemma PlaceKeepsStuck(g: Input, s: State, o: nat, t: nat)
    requires g.Exact() && WellFormed(g, s) && o < |g.txs| && t < |g.txs|
    requires o !in s.used && !Fits(g, s, o) && Fits(g, s, t)
    ensures o !in Place(g, s, t).used && !Fits(g, Place(g, s, t), o)
  {
    FittingPackageAvoidsStuck(g, s, o, t);
    RemainderShrinksByAtMost(g, o, t, s.used);
  }

  lemma ClosureGrows(g: Input, t: nat, used: set<nat>)
    requires g.Exact() && used <= g.All() && AncestorClosed(g, used) && t < |g.txs|
    ensures UsedWith(g, t, used) == used + g.anc[t] + {t}
    ensures AncestorClosed(g, UsedWith(g, t, used))
  {
    AncestorsTransitive(g.txs, t);
  }

  /** Placing t changes the score of nobody outside the refreshed descendants. */
  lemma ScoreUnchanged(g: Input, t: nat, u: nat, used: set<nat>)
    requires g.Genuine() && t < |g.txs| && u < |g.txs|
    requires u !in Descendants(g.txs, Missing(g, t, used) + {t})
    ensures Entry(g, u, UsedWith(g, t, used)) == Entry(g, u, used)
  {
    var added := Missing(g, t, used) + {t};
    assert !DescendsFrom(g.txs, u, added);
    forall m | m in added ensures m !in g.anc[u] {
      assert !IsAncestor(g.txs, m, u);
    }
    assert Missing(g, u, UsedWith(g, t, used)) == Missing(g, u, used);
  }

  /** Popping another transaction's entry leaves u's exact entry in the heap. */
  lemma PopLeavesEntry(g: Input, s: State, u: nat)
    requires g.Valid() && WellFormed(g, s) && s.heap != multiset{} && u < |g.txs|
    requires Entry(g, u, s.used) in s.heap && Popped(s) != Entry(g, u, s.used)
    ensures Entry(g, u, s.used) in AfterPop(s).heap
  {
  }

  lemma TakeKeepsFresh(g: Input, s: State)
    requires g.Genuine() && WellFormed(g, s) && s.heap != multiset{} && ActionOf(g, s).Take?
    requires Fresh(g, s)
    ensures Fresh(g, Acted(g, s))
  {
    var t := Popped(s).uid;
    var next := Acted(g, s);
    var below := Descendants(g.txs, Missing(g, t, s.used) + {t});
    forall u | u in g.All() && u !in next.used && u !in next.overflow
      ensures Entry(g, u, next.used) in next.heap
    {
      if u in below {
        EntriesBelowMember(g, below - next.used, next.used, |g.txs|, Entry(g, u, next.used));
      } else {
        ScoreUnchanged(g, t, u, s.used);
        PopLeavesEntry(g, s, u);
      }
    }
  }

  lemma ActedKeepsFresh(g: Input, s: State)
    requires g.Genuine() && WellFormed(g, s) && s.heap != multiset{}
    requires Fresh(g, s)
    ensures Fresh(g, Acted(g, s))
  {
    var t := Popped(s).uid;
    var next := Acted(g, s);
    if ActionOf(g, s).Take? {
      TakeKeepsFresh(g, s);
    } else {
      forall u | u in g.All() && u !in next.used && u !in next.overflow
        ensures Entry(g, u, next.used) in next.heap
      {
        if u != t {
          PopLeavesEntry(g, s, u);
        }
      }
    }
  }

  lemma ActedKeepsStuck(g: Input, s: State)
    requires g.Exact() && WellFormed(g, s) && s.heap != multiset{}
    requires DeferredStuck(g, s)
    ensures DeferredStuck(g, Acted(g, s))
  {
    var t := Popped(s).uid;
    assert Popped(s) in s.heap;
    var next := Acted(g, s);
    forall o | o in next.overflow ensures o !in next.used && !Fits(g, next, o) {
      if o in s.overflow && ActionOf(g, s).Take? {
        PlaceKeepsStuck(g, AfterPop(s), o, t);
      }
    }
  }

  lemma CloseKeepsFresh(g: Input, s: State)
    requires g.Valid() && WellFormed(g, s) && Fresh(g, s)
    ensures WellFormed(g, Close(g, s)) && Fresh(g, Close(g, s))
  {
    var next := Close(g, s);
    var items := EntriesOf(g, s.overflow, s.used);
    forall u | u in g.All() && u !in next.used && u !in next.overflow
      ensures Entry(g, u, next.used) in next.heap
    {
      if u in s.overflow {
        var i :| 0 <= i < |s.overflow| && s.overflow[i] == u;
        assert items[i] == Entry(g, u, s.used);
      }
    }
  }

  /** The first invariant of the loop, kept by every iteration. */
  ghost predicate Sound(g: Input, s: State)
    requires g.Valid()
  {
    WellFormed(g, s) && Fresh(g, s) && DeferredStuck(g, s) && AncestorClosed(g, s.used)
  }

  lemma StartFresh(g: Input)
    requires g.Valid()
    ensures Fresh(g, Start(g))
  {
    forall u | u in g.All() ensures Entry(g, u, {}) in Start(g).heap {
      EntriesBelowMember(g, g.All(), {}, |g.txs|, Entry(g, u, {}));
    }
  }

  lemma StepKeepsFresh(g: Input, s: State)
    requires g.Genuine() && WellFormed(g, s) && s.heap != multiset{} && Fresh(g, s)
    ensures Fresh(g, Step(g, s))
  {
    ActedKeepsFresh(g, s);
    CloseKeepsFresh(g, Acted(g, s));
  }

  lemma StartSound(g: Input)
    requires g.Exact()
    ensures Sound(g, Start(g))
  {
    StartFresh(g);
  }

  lemma ActedSound(g: Input, s: State)
    requires g.Exact() && Sound(g, s) && s.heap != multiset{}
    ensures Sound(g, Acted(g, s))
  {
    assert Popped(s) in s.heap;
    ActedKeepsFresh(g, s);
    ActedKeepsStuck(g, s);
    if ActionOf(g, s).Take? {
      ClosureGrows(g, Popped(s).uid, s.used);
    }
  }

  lemma StepSound(g: Input, s: State)
    requires g.Exact() && Sound(g, s) && s.heap != multiset{}
    ensures Sound(g, Step(g, s))
  {
    ActedSound(g, s);
    CloseKeepsFresh(g, Acted(g, s));
  }

  /** Greedy choice: the popped transaction scores at least as high, up to the tolerance, as
      every transaction not placed whose own package would still fit. */
  lemma TopBeatsFitting(g: Input, s: State, u: nat)
    requires g.Exact() && Sound(g, s) && s.heap != multiset{}
    requires ActionOf(g, s).Take? || ActionOf(g, s).Postpone?
    requires u < |g.txs| && u !in s.used && Fits(g, s, u)
    ensures Popped(s).uid < |g.txs|
    ensures Score(g, Popped(s).uid, s.used) >= Score(g, u, s.used) - TOLERANCE
  {
    assert Popped(s) in s.heap;
    assert u in g.All() && u !in s.overflow;
    assert Entry(g, u, s.used) in s.heap;
    assert !Higher(Entry(g, u, s.used), Popped(s));
  }
}
