/** The order of placement: every transaction once, parents first, and what each block holds. */
module PackingOrder {
  import opened UidSums
  import opened TxGraph
  import opened Packing
  import opened PackingInvariants

  ghost function Flatten(blocks: seq<seq<nat>>): seq<nat> {
    if blocks == [] then [] else Flatten(blocks[..|blocks| - 1]) + blocks[|blocks| - 1]
  }

  /** All placed transactions, in the order of placement. */
  ghost function Placed(s: State): seq<nat> {
    Flatten(s.blocks) + s.cur
  }

  ghost predicate ParentsFirst(txs: seq<GbtTx>, order: seq<nat>) {
    forall i | 0 <= i < |order| :: order[i] < |txs| && forall p | p in txs[order[i]].parents :: p in order[..i]
  }

  lemma ListsConcat(xs: seq<nat>, ys: seq<nat>, s: set<nat>, t: set<nat>)
    requires Lists(xs, s) && Lists(ys, t) && s !! t
    ensures Lists(xs + ys, s + t)
  {
    forall x | x in s + t ensures x in xs + ys {
      if x in s {
        assert x in xs;
      } else {
        assert x in ys;
      }
    }
    forall i, j | 0 <= i < j < |xs + ys| ensures (xs + ys)[i] != (xs + ys)[j] {
      if i < |xs| <= j {
        assert (xs + ys)[i] in s && (xs + ys)[j] in t;
      }
    }
  }

  lemma {:induction false} SumSeqConcat(f: seq<nat>, xs: seq<nat>, ys: seq<nat>)
    requires forall i | 0 <= i < |xs| :: xs[i] < |f|
    requires forall i | 0 <= i < |ys| :: ys[i] < |f|
    ensures SumSeq(f, xs + ys) == SumSeq(f, xs) + SumSeq(f, ys)
  {
    if ys == [] {
      assert xs + ys == xs;
    } else {
      var n := |ys| - 1;
      assert (xs + ys)[..|xs + ys| - 1] == xs + ys[..n];
      SumSeqConcat(f, xs, ys[..n]);
    }
  }

  ghost predicate InBounds(g: Input, xs: seq<nat>) {
    forall i | 0 <= i < |xs| :: xs[i] < |g.txs|
  }

  /** Earlier elements come before later ones in the package order. */
  ghost predicate Sorted(g: Input, xs: seq<nat>)
    requires g.Valid() && InBounds(g, xs)
  {
    forall i, j | 0 <= i < j < |xs| :: Before(g, xs[i], xs[j])
  }

  lemma {:induction false} InOrderLists(g: Input, s: set<nat>)
    requires g.Valid() && s <= g.All()
    ensures Lists(InOrder(g, s), s)
    ensures InBounds(g, InOrder(g, s)) && Sorted(g, InOrder(g, s))
    decreases s
  {
    if s != {} {
      var m := First(g, s);
      InOrderLists(g, s - {m});
      var tail := InOrder(g, s - {m});
      ListsConcat([m], tail, {m}, s - {m});
      assert InBounds(g, [m] + tail);
      assert {m} + (s - {m}) == s;
      forall i, j | 0 <= i < j < |[m] + tail| ensures Before(g, ([m] + tail)[i], ([m] + tail)[j]) {
        if i == 0 {
          assert tail[j - 1] in tail;
        } else {
          assert Before(g, tail[i - 1], tail[j - 1]);
        }
      }
    }
  }

  /** The package order leaves a set exactly one arrangement. */
  lemma {:induction false} SortedIsInOrder(g: Input, xs: seq<nat>, s: set<nat>)
    requires g.Valid() && s <= g.All() && Lists(xs, s)
    requires InBounds(g, xs) && Sorted(g, xs)
    ensures xs == InOrder(g, s)
    decreases s
  {
    if s == {} {
      ListsSize(xs, s);
    } else {
      var m := First(g, s);
      assert xs != [] by { assert m in xs; }
      assert xs[0] == m by {
        var k :| 0 <= k < |xs| && xs[k] == m;
        assert xs[0] in s;
      }
      var tail := xs[1..];
      assert xs == [m] + tail;
      forall x | x in s - {m} ensures x in tail {
        var k :| 0 <= k < |xs| && xs[k] == x;
        assert tail[k - 1] == x;
      }
      SortedIsInOrder(g, tail, s - {m});
    }
  }

  lemma PackageLists(g: Input, t: nat, used: set<nat>)
    requires g.Exact() && t < |g.txs|
    ensures Lists(Package(g, t, used), Missing(g, t, used) + {t})
  {
    NotOwnAncestor(g, t);
    InOrderLists(g, Missing(g, t, used));
    ListsAppend(InOrder(g, Missing(g, t, used)), Missing(g, t, used), t);
  }

  lemma PackageSumSeqs(g: Input, t: nat, used: set<nat>)
    requires g.Valid() && t < |g.txs|
    ensures InBounds(g, Package(g, t, used))
    ensures SumSeq(g.Weights(), Package(g, t, used)) == PackageWeight(g, t, used)
    ensures SumSeq(g.Fees(), Package(g, t, used)) == PackageFee(g, t, used)
  {
    var front := InOrder(g, Missing(g, t, used));
    InOrderLists(g, Missing(g, t, used));
    SumSeqIsSum(g.Weights(), front, Missing(g, t, used));
    SumSeqIsSum(g.Fees(), front, Missing(g, t, used));
    assert (front + [t])[..|front|] == front;
  }

  /** Ancestor counts increase along parent edges, so a sorted package has parents first. */
  lemma PackageParentsFirst(g: Input, t: nat, used: set<nat>, i: nat, p: nat)
    requires g.Exact() && t < |g.txs| && i < |Package(g, t, used)|
    requires InBounds(g, Package(g, t, used))
    requires p in g.txs[Package(g, t, used)[i]].parents
    ensures p in used || p in Package(g, t, used)[..i]
  {
    var pkg := Package(g, t, used);
    var m := pkg[i];
    var front := InOrder(g, Missing(g, t, used));
    InOrderLists(g, Missing(g, t, used));
    ParentIsAncestor(g.txs, p, m);
    AncestorCountIncreases(g.txs, p, m);
    if i == |front| {
      assert pkg[..i] == front;
    } else {
      assert m == front[i] && m in front;
      AncestorsTransitive(g.txs, t);
      if p !in used {
        assert p in front;
        var j :| 0 <= j < |front| && front[j] == p;
        assert pkg[..i][j] == p;
      }
    }
  }

  lemma ParentsFirstGrows(g: Input, order: seq<nat>, t: nat, used: set<nat>)
    requires g.Exact() && t < |g.txs|
    requires ParentsFirst(g.txs, order) && Lists(order, used)
    ensures ParentsFirst(g.txs, order + Package(g, t, used))
  {
    var pkg := Package(g, t, used);
    PackageSumSeqs(g, t, used);
    var all := order + pkg;
    forall i | 0 <= i < |all|
      ensures all[i] < |g.txs| && forall p | p in g.txs[all[i]].parents :: p in all[..i]
    {
      if i < |order| {
        assert all[..i] == order[..i];
      } else {
        var k := i - |order|;
        assert all[..i] == order + pkg[..k];
        assert pkg[k] in pkg;
        forall p | p in g.txs[all[i]].parents ensures p in all[..i] {
          PackageParentsFirst(g, t, used, k, p);
        }
      }
    }
  }

  /** Every placed transaction is placed once, after its parents, and has a rate. */
  ghost predicate Ordered(g: Input, s: State) {
    && Lists(Placed(s), s.used)
    && ParentsFirst(g.txs, Placed(s))
    && s.rates.Keys == s.used
  }

  lemma PlaceLists(g: Input, s: State, t: nat)
    requires g.Exact() && WellFormed(g, s) && t < |g.txs| && t !in s.used
    requires Lists(Placed(s), s.used)
    ensures Placed(Place(g, s, t)) == Placed(s) + Package(g, t, s.used)
    ensures Lists(Placed(Place(g, s, t)), UsedWith(g, t, s.used))
  {
    hide Score, PackageWeight, FreshEntries, RatesWith, InOrder;
    var added := Missing(g, t, s.used) + {t};
    PackageLists(g, t, s.used);
    ListsConcat(Placed(s), Package(g, t, s.used), s.used, added);
    assert UsedWith(g, t, s.used) == s.used + added;
  }

  lemma PlaceOrdered(g: Input, s: State, t: nat)
    requires g.Exact() && WellFormed(g, s) && t < |g.txs| && t !in s.used
    requires Ordered(g, s)
    ensures Ordered(g, Place(g, s, t))
  {
    PlaceLists(g, s, t);
    ParentsFirstGrows(g, Placed(s), t, s.used);
    RatesKeys(g, s, t);
  }

  lemma RatesKeys(g: Input, s: State, t: nat)
    requires g.Valid() && WellFormed(g, s) && t < |g.txs| && s.rates.Keys == s.used
    ensures RatesWith(g, t, s).Keys == UsedWith(g, t, s.used)
  {
  }

  lemma OrderedFrame(g: Input, s: State, t: State)
    requires Ordered(g, s)
    requires t.used == s.used && t.blocks == s.blocks && t.cur == s.cur && t.rates == s.rates
    ensures Ordered(g, t)
  {
  }

  lemma ActedOrdered(g: Input, s: State)
    requires g.Exact() && WellFormed(g, s) && s.heap != multiset{}
    requires Ordered(g, s)
    ensures Ordered(g, Acted(g, s))
  {
    ActedCases(g, s);
    if ActionOf(g, s).Take? {
      OrderedFrame(g, s, AfterPop(s));
      PlaceOrdered(g, AfterPop(s), Popped(s).uid);
    } else {
      OrderedFrame(g, s, Acted(g, s));
    }
  }

  lemma CloseKeepsPlaced(g: Input, s: State)
    requires g.Valid() && WellFormed(g, s)
    ensures Placed(Close(g, s)) == Placed(s)
  {
    if Closes(g, s) {
      assert (s.blocks + [s.cur])[..|s.blocks|] == s.blocks;
    }
  }

  lemma StepOrdered(g: Input, s: State)
    requires g.Exact() && WellFormed(g, s) && s.heap != multiset{}
    requires Ordered(g, s)
    ensures Ordered(g, Step(g, s))
  {
    ActedOrdered(g, s);
    CloseKeepsPlaced(g, Acted(g, s));
  }
}
