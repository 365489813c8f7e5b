/** What confirming an ancestor-closed set of transactions does to a truthful index. */
module PackageConfirm {
  import opened Wrappers
  import opened Txids
  import opened PackageIndex

  /** The set takes every present parent of its present members along. */
  ghost predicate TakesParents(txs: Pool, s: set<Txid>) {
    forall t | t in s && t in txs && txs[t].depends != [] :: txs[t].depends[0] in s
  }

  /** Survivors whose parent is confirmed. */
  function NewRoots(txs: Pool, s: set<Txid>): set<Txid> {
    set t | t in txs && t !in s && txs[t].depends != [] && txs[t].depends[0] in s
  }

  /** A survivor keeps its own figures, and its parent reference unless the parent is confirmed. */
  ghost function SurvivingShapes(txs: Pool, s: set<Txid>): map<Txid, Shape> {
    map t | t in txs && t !in s ::
      if t in NewRoots(txs, s) then ShapeOf(txs[t]).(depends := []) else ShapeOf(txs[t])
  }

  function AsRoot(e: Entry): Entry {
    e.(depends := [], ancestorSize := e.vsize, ancestorFee := e.base)
  }

  ghost function Rerooted(txs: Pool, roots: set<Txid>): Pool {
    map t | t in txs :: if t in roots then AsRoot(txs[t]) else txs[t]
  }

  /** The pool once new roots are reset and the confirmed transactions are gone. */
  ghost function Survivors(txs: Pool, s: set<Txid>): Pool {
    Rerooted(txs, NewRoots(txs, s)) - s
  }

  /** t's ancestor totals are exact, or t is the child of a transaction still to be visited. */
  ghost predicate ExactOrPending(txs: Pool, kids: Index, todo: set<Txid>, t: Txid)
    requires t in txs
  {
    UpOk(txs, t) || exists r :: r in todo && r in kids && kids[r] == t
  }

  /** Everything but some ancestor totals is in order; those are below the transactions of todo. */
  ghost predicate Repairing(txs: Pool, kids: Index, todo: set<Txid>) {
    && Linked(txs, kids) && Downward(txs, kids)
    && todo <= txs.Keys
    && forall t | t in txs :: ExactOrPending(txs, kids, todo, t)
  }

  lemma SurvivorLinks(txs: Pool, kids: Index, s: set<Txid>)
    requires Truthful(txs, kids) && TakesParents(txs, s)
    ensures Linked(Survivors(txs, s), kids - s)
  {
    var rest := Survivors(txs, s);
    forall t | t in rest ensures LinkedUp(rest, kids - s, t) {
      assert LinkedUp(txs, kids, t);
    }
    forall p | p in kids - s ensures LinkedDown(rest, kids - s, p) {
      assert LinkedDown(txs, kids, p);
    }
  }

  lemma SurvivorDownward(txs: Pool, kids: Index, s: set<Txid>)
    requires Truthful(txs, kids) && TakesParents(txs, s)
    ensures Downward(Survivors(txs, s), kids - s)
  {
    var rest := Survivors(txs, s);
    SurvivorLinks(txs, kids, s);
    forall t | t in rest ensures DownOk(rest, kids - s, t) {
      assert DownOk(txs, kids, t);
      assert t in kids - s ==> LinkedDown(rest, kids - s, t);
    }
  }

  lemma SurvivorPending(txs: Pool, kids: Index, s: set<Txid>, t: Txid)
    requires Truthful(txs, kids) && TakesParents(txs, s) && t in Survivors(txs, s)
    ensures ExactOrPending(Survivors(txs, s), kids - s, NewRoots(txs, s), t)
  {
    hide Downward, Linked;
    assert UpOk(txs, t);
    LinkOf(txs, kids, t);
    var p := if txs[t].depends == [] then t else txs[t].depends[0];
    if p in NewRoots(txs, s) && p != t {
      assert kids[p] == t && p in kids - s;
    }
  }

  lemma LinkOf(txs: Pool, kids: Index, t: Txid)
    requires Linked(txs, kids) && t in txs
    ensures LinkedUp(txs, kids, t)
  {
  }

  lemma SurvivorShapes(txs: Pool, s: set<Txid>)
    ensures Shapes(Survivors(txs, s)) == SurvivingShapes(txs, s)
  {
  }

  /** Only children of new roots have stale ancestor totals. */
  lemma SurvivorsRepairing(txs: Pool, kids: Index, s: set<Txid>)
    requires Truthful(txs, kids) && TakesParents(txs, s)
    ensures Repairing(Survivors(txs, s), kids - s, NewRoots(txs, s))
    ensures Shapes(Survivors(txs, s)) == SurvivingShapes(txs, s)
  {
    hide Downward, Linked, ExactOrPending, Shapes;
    SurvivorLinks(txs, kids, s);
    SurvivorDownward(txs, kids, s);
    SurvivorShapes(txs, s);
    forall t | t in Survivors(txs, s) ensures ExactOrPending(Survivors(txs, s), kids - s, NewRoots(txs, s), t) {
      SurvivorPending(txs, kids, s, t);
    }
  }

  /** A child with its ancestor totals recomputed from its parent's. */
  function Recomputed(c: Entry, p: Entry): Entry {
    c.(ancestorSize := c.vsize + p.ancestorSize, ancestorFee := c.base + p.ancestorFee)
  }

  /** Only ancestor totals differ. */
  ghost predicate SameButAncestors(a: Pool, b: Pool) {
    && a.Keys == b.Keys
    && forall t | t in a ::
         ShapeOf(a[t]) == ShapeOf(b[t]) && a[t].descendantSize == b[t].descendantSize
         && a[t].descendantFee == b[t].descendantFee
  }

  lemma DownwardCarriesOver(a: Pool, b: Pool, kids: Index)
    requires SameButAncestors(a, b) && Linked(a, kids) && Downward(a, kids)
    ensures Linked(b, kids) && Downward(b, kids) && Shapes(a) == Shapes(b)
  {
    forall t | t in b ensures DownOk(b, kids, t) && LinkedUp(b, kids, t) {
      assert DownOk(a, kids, t) && LinkedUp(a, kids, t);
      assert ShapeOf(a[t]) == ShapeOf(b[t]);
    }
    forall p | p in kids ensures LinkedDown(b, kids, p) {
      assert LinkedDown(a, kids, p);
      assert ShapeOf(a[kids[p]]) == ShapeOf(b[kids[p]]);
    }
    forall t | t in b ensures b[t].vsize >= 1 && b[t].weight == Some(4 * b[t].vsize) {
      assert ShapeOf(a[t]) == ShapeOf(b[t]);
    }
  }

  lemma RepairStep(txs: Pool, kids: Index, todo: set<Txid>, parent: Txid)
    requires Repairing(txs, kids, todo) && parent in todo && parent in kids
    ensures kids[parent] in txs && txs[kids[parent]].descendantSize < txs[parent].descendantSize
    ensures var next := txs[kids[parent] := Recomputed(txs[kids[parent]], txs[parent])];
            Repairing(next, kids, todo - {parent} + {kids[parent]}) && SameButAncestors(txs, next)
            && Shapes(next) == Shapes(txs)
  {
    var child := kids[parent];
    assert LinkedDown(txs, kids, parent) && DownOk(txs, kids, parent);
    var next := txs[child := Recomputed(txs[child], txs[parent])];
    var todo' := todo - {parent} + {child};
    assert SameButAncestors(txs, next);
    DownwardCarriesOver(txs, next, kids);
    forall t | t in next ensures ExactOrPending(next, kids, todo', t) {
      assert ExactOrPending(txs, kids, todo, t) && LinkedUp(next, kids, t);
      if t == child {
        assert UpOk(next, t);
      } else if next[t].depends != [] && next[t].depends[0] == child {
        assert child in todo' && kids[child] == t;
      } else if UpOk(txs, t) {
        assert UpOk(next, t);
      } else {
        var r :| r in todo && r in kids && kids[r] == t;
        assert r in todo';
      }
    }
  }

  lemma RepairEnd(txs: Pool, kids: Index, todo: set<Txid>, last: Txid)
    requires Repairing(txs, kids, todo) && last !in kids
    ensures Repairing(txs, kids, todo - {last})
  {
    forall t | t in txs ensures ExactOrPending(txs, kids, todo - {last}, t) {
      assert ExactOrPending(txs, kids, todo, t);
      if !UpOk(txs, t) {
        var r :| r in todo && r in kids && kids[r] == t;
        assert r in todo - {last};
      }
    }
  }

  lemma RepairWeaken(txs: Pool, kids: Index, todo: set<Txid>, more: set<Txid>)
    requires Repairing(txs, kids, todo) && todo <= more <= txs.Keys
    ensures Repairing(txs, kids, more)
  {
    forall t | t in txs ensures ExactOrPending(txs, kids, more, t) {
      assert ExactOrPending(txs, kids, todo, t);
    }
  }

  lemma RerootedOne(txs: Pool, done: set<Txid>, t: Txid)
    requires t in txs && t !in done
    ensures t in Rerooted(txs, done) && Rerooted(txs, done)[t] == txs[t]
    ensures Rerooted(txs, done + {t}) == Rerooted(txs, done)[t := AsRoot(txs[t])]
  {
  }

  lemma RepairedTruthful(txs: Pool, kids: Index)
    requires Repairing(txs, kids, {})
    ensures Truthful(txs, kids)
  {
    forall t | t in txs ensures UpOk(txs, t) {
      assert ExactOrPending(txs, kids, {}, t);
    }
  }

  /** Confirmation only shortens chains. */
  lemma {:induction false} SurvivorLineageShorter(before: Pool, after: Pool, t: Txid)
    requires Upward(before) && Upward(after) && t in after && after.Keys <= before.Keys
    requires forall x | x in after :: after[x].depends == [] || after[x].depends == before[x].depends
    ensures |Lineage(after, t)| <= |Lineage(before, t)|
    decreases after[t].ancestorSize
  {
    assert UpOk(after, t) && UpOk(before, t);
    if after[t].depends != [] {
      SurvivorLineageShorter(before, after, after[t].depends[0]);
    }
  }

  lemma SurvivorsShort(before: Pool, after: Pool, s: set<Txid>, maxChain: nat)
    requires Upward(before) && Upward(after) && Short(before, maxChain)
    requires Shapes(after) == SurvivingShapes(before, s)
    ensures Short(after, maxChain)
  {
    assert after.Keys == Shapes(after).Keys;
    forall x | x in after ensures x in before && (after[x].depends == [] || after[x].depends == before[x].depends) {
      assert Shapes(after)[x] == ShapeOf(after[x]);
      assert Shapes(after)[x] == SurvivingShapes(before, s)[x];
    }
    forall t | t in after ensures |Lineage(after, t)| <= 1 || |Lineage(after, t)| <= maxChain {
      SurvivorLineageShorter(before, after, t);
    }
  }

  function WeightOf(e: Entry): nat {
    match e.weight
    case Some(w) => w
    case None => e.vsize * 4
  }

  /** What the members of s weigh together. */
  ghost function SetWeight(txs: Pool, s: set<Txid>): nat
    requires s <= txs.Keys
  {
    if s == {} then 0 else var t :| t in s; WeightOf(txs[t]) + SetWeight(txs, s - {t})
  }

  lemma {:induction false} SetWeightRemove(txs: Pool, s: set<Txid>, x: Txid)
    requires s <= txs.Keys && x in s
    ensures SetWeight(txs, s) == WeightOf(txs[x]) + SetWeight(txs, s - {x})
    decreases s
  {
    var t :| t in s && SetWeight(txs, s) == WeightOf(txs[t]) + SetWeight(txs, s - {t});
    if t != x {
      SetWeightRemove(txs, s - {t}, x);
      SetWeightRemove(txs, s - {x}, t);
      assert s - {t} - {x} == s - {x} - {t};
    }
  }

  lemma SetWeightAdd(txs: Pool, s: set<Txid>, x: Txid)
    requires s <= txs.Keys && x in txs && x !in s
    ensures SetWeight(txs, s + {x}) == SetWeight(txs, s) + WeightOf(txs[x])
  {
    SetWeightRemove(txs, s + {x}, x);
    assert s + {x} - {x} == s;
  }

  lemma {:induction false} SetWeightUnion(txs: Pool, s: set<Txid>, t: set<Txid>)
    requires s + t <= txs.Keys && s !! t
    ensures SetWeight(txs, s + t) == SetWeight(txs, s) + SetWeight(txs, t)
    decreases t
  {
    if t == {} {
      assert s + t == s;
    } else {
      var x :| x in t;
      SetWeightRemove(txs, s + t, x);
      SetWeightRemove(txs, t, x);
      assert s + t - {x} == s + (t - {x});
      SetWeightUnion(txs, s, t - {x});
    }
  }

  lemma SetWeightSubset(txs: Pool, s: set<Txid>, t: set<Txid>)
    requires s <= t <= txs.Keys
    ensures SetWeight(txs, s) <= SetWeight(txs, t)
  {
    SetWeightUnion(txs, s, t - s);
    assert s + (t - s) == t;
  }

  /** The virtual size of the members of s. */
  ghost function SetVsize(txs: Pool, s: set<Txid>): nat
    requires s <= txs.Keys
  {
    if s == {} then 0 else var t :| t in s; txs[t].vsize + SetVsize(txs, s - {t})
  }

  lemma {:induction false} WeightIsFourVsize(txs: Pool, s: set<Txid>)
    requires Sized(txs) && s <= txs.Keys
    ensures SetWeight(txs, s) == 4 * SetVsize(txs, s)
    decreases s
  {
    if s != {} {
      var t :| t in s && SetVsize(txs, s) == txs[t].vsize + SetVsize(txs, s - {t});
      WeightIsFourVsize(txs, s - {t});
      SetWeightRemove(txs, s, t);
    }
  }

  /** The whole chain of t up to its root. */
  ghost function LineSet(txs: Pool, t: Txid): (s: set<Txid>)
    requires Upward(txs) && t in txs
    ensures t in s && s <= txs.Keys
  {
    LineageFacts(txs, t);
    assert Lineage(txs, t)[0] == t;
    set a | a in Lineage(txs, t)
  }

  /** A chain takes every parent of its members along. */
  lemma LineSetClosed(txs: Pool, t: Txid)
    requires Upward(txs) && t in txs
    ensures TakesParents(txs, LineSet(txs, t))
  {
    forall a | a in LineSet(txs, t) && txs[a].depends != [] ensures txs[a].depends[0] in LineSet(txs, t) {
      LineageClosed(txs, t, a);
    }
  }

  /** A set that takes every parent along holds the chains of its members. */
  lemma {:induction false} ClosedHoldsChain(txs: Pool, s: set<Txid>, t: Txid)
    requires Upward(txs) && t in txs && t in s && TakesParents(txs, s)
    ensures LineSet(txs, t) <= s
    decreases txs[t].ancestorSize
  {
    assert UpOk(txs, t);
    if txs[t].depends != [] {
      var p := txs[t].depends[0];
      ClosedHoldsChain(txs, s, p);
      assert LineSet(txs, t) == {t} + LineSet(txs, p);
    }
  }
}
