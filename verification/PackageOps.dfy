/** What adding, removing and confirming transactions does to a truthful package index. */
module PackageOps {
  import opened Limits
  import opened Wrappers
  import opened Txids
  import opened PackageIndex

  /** One transaction's descendant totals, moved by one attached or removed transaction; the
      subtraction stops at zero. */
  function Adjusted(e: Entry, vsize: nat, base: nat, add: bool): Entry {
    if add then e.(descendantSize := e.descendantSize + vsize, descendantFee := e.descendantFee + base)
    else e.(descendantSize := SaturatingSub(e.descendantSize, vsize),
            descendantFee := SaturatingSub(e.descendantFee, base))
  }

  ghost function AdjustedAlong(txs: Pool, chain: seq<Txid>, vsize: nat, base: nat, add: bool): Pool {
    map t | t in txs :: if t in chain then Adjusted(txs[t], vsize, base, add) else txs[t]
  }

  /** Only descendant totals differ. */
  ghost predicate SameButDescendants(a: Pool, b: Pool) {
    && a.Keys == b.Keys
    && forall t | t in a ::
         ShapeOf(a[t]) == ShapeOf(b[t]) && a[t].ancestorSize == b[t].ancestorSize
         && a[t].ancestorFee == b[t].ancestorFee
  }

  lemma UpwardCarriesOver(a: Pool, b: Pool, kids: Index)
    requires SameButDescendants(a, b)
    ensures Upward(a) ==> Upward(b)
    ensures Linked(a, kids) ==> Linked(b, kids)
    ensures Shapes(a) == Shapes(b)
  {
    if Upward(a) {
      forall t | t in b ensures UpOk(b, t) {
        assert UpOk(a, t);
      }
      forall t | t in b ensures b[t].vsize >= 1 && b[t].weight == Some(4 * b[t].vsize) {
        assert ShapeOf(a[t]) == ShapeOf(b[t]);
      }
    }
    if Linked(a, kids) {
      forall t | t in b ensures LinkedUp(b, kids, t) {
        assert LinkedUp(a, kids, t);
      }
      forall p | p in kids ensures LinkedDown(b, kids, p) {
        assert LinkedDown(a, kids, p);
      }
    }
  }

  /** A transaction with neither ancestors nor descendants: all totals are its own figures. */
  function StandaloneEntry(vsize: nat, base: nat): Entry {
    Entry(vsize, Some(vsize * 4), [], base, vsize, base, vsize, base)
  }

  /** A child as it is inserted: its ancestor totals build on its parent's. */
  function ChildEntry(vsize: nat, base: nat, parent: Txid, p: Entry): Entry {
    StandaloneEntry(vsize, base).(depends := [parent], ancestorSize := vsize + p.ancestorSize,
                                  ancestorFee := base + p.ancestorFee)
  }

  lemma StaysOk(txs: Pool, kids: Index, t: Txid, e: Entry, x: Txid)
    requires Truthful(txs, kids) && t !in txs && x in txs
    ensures UpOk(txs[t := e], x) && DownOk(txs[t := e], kids, x) && LinkedUp(txs[t := e], kids, x)
  {
    hide Upward, Downward, Linked;
    TruthfulAt(txs, kids, x);
  }

  lemma NewcomerOk(txs: Pool, kids: Index, t: Txid, e: Entry)
    requires Truthful(txs, kids) && t !in txs && e == StandaloneEntry(e.vsize, e.base)
    ensures UpOk(txs[t := e], t) && DownOk(txs[t := e], kids, t) && LinkedUp(txs[t := e], kids, t)
    ensures forall p | p in kids :: LinkedDown(txs[t := e], kids, p)
  {
    assert t in kids ==> LinkedDown(txs, kids, t);
    forall p | p in kids ensures LinkedDown(txs[t := e], kids, p) {
      assert LinkedDown(txs, kids, p);
    }
  }

  lemma TruthfulAt(txs: Pool, kids: Index, x: Txid)
    requires Truthful(txs, kids) && x in txs
    ensures UpOk(txs, x) && DownOk(txs, kids, x) && LinkedUp(txs, kids, x)
  {
  }

  lemma InsertStandalone(txs: Pool, kids: Index, t: Txid, e: Entry, maxChain: nat)
    requires Truthful(txs, kids) && Short(txs, maxChain)
    requires t !in txs && e.vsize >= 1 && e == StandaloneEntry(e.vsize, e.base)
    ensures Truthful(txs[t := e], kids) && Short(txs[t := e], maxChain)
  {
    hide Lineage, Short, UpOk, DownOk, LinkedUp, LinkedDown;
    var next := txs[t := e];
    NewcomerOk(txs, kids, t, e);
    forall x | x in next ensures UpOk(next, x) && DownOk(next, kids, x) && LinkedUp(next, kids, x) {
      if x != t {
        StaysOk(txs, kids, t, e, x);
      }
    }
    InsertedShort(txs, next, t, maxChain);
  }

  lemma InsertedShort(txs: Pool, next: Pool, t: Txid, maxChain: nat)
    requires Upward(txs) && Upward(next) && Short(txs, maxChain) && t in next && next[t].depends == []
    requires next.Keys == txs.Keys + {t} && forall x | x in txs :: next[x].depends == txs[x].depends
    ensures Short(next, maxChain)
  {
    forall x | x in next ensures |Lineage(next, x)| <= 1 || |Lineage(next, x)| <= maxChain {
      if x != t {
        LineageUnchanged(txs, next, x);
      }
    }
  }

  /** The parent is childless with room in its chain, and the child is new. */
  ghost predicate CanAttach(txs: Pool, kids: Index, parent: Txid, child: Txid, maxChain: nat)
  {
    && Truthful(txs, kids) && Short(txs, maxChain)
    && parent in txs && parent !in kids && child !in txs
    && |Lineage(txs, parent)| + 1 <= maxChain
  }

  /** After inserting the child, before its ancestors are adjusted, all but the descendant
      totals are right. */
  lemma InsertedUpward(txs: Pool, kids: Index, parent: Txid, child: Txid, vsize: nat, base: nat, maxChain: nat)
    requires CanAttach(txs, kids, parent, child, maxChain) && vsize >= 1
    ensures var mid := txs[child := ChildEntry(vsize, base, parent, txs[parent])];
            Upward(mid) && Linked(mid, kids[parent := child]) && Lineage(mid, parent) == Lineage(txs, parent)
  {
    var mid := txs[child := ChildEntry(vsize, base, parent, txs[parent])];
    var kids' := kids[parent := child];
    assert child !in kids by {
      assert child in kids ==> LinkedDown(txs, kids, child);
    }
    forall x | x in mid ensures UpOk(mid, x) && LinkedUp(mid, kids', x) {
      if x != child {
        assert UpOk(txs, x) && LinkedUp(txs, kids, x);
      }
    }
    forall p | p in kids' ensures LinkedDown(mid, kids', p) {
      if p != parent {
        assert LinkedDown(txs, kids, p);
      }
    }
    LineageUnchanged(txs, mid, parent);
  }

  ghost predicate ParentsIndexed(txs: Pool, kids: Index) {
    forall x | x in txs && txs[x].depends != [] :: txs[x].depends[0] in kids && kids[txs[x].depends[0]] == x
  }

  lemma LinkedIndexesParents(txs: Pool, kids: Index)
    requires Linked(txs, kids)
    ensures ParentsIndexed(txs, kids)
  {
    forall x | x in txs && txs[x].depends != [] ensures txs[x].depends[0] in kids && kids[txs[x].depends[0]] == x {
      assert LinkedUp(txs, kids, x);
    }
  }

  /** A member of a lineage other than its first has its child in the lineage too; anyone
      else's child is outside. */
  lemma LineageBoundary(txs: Pool, kids: Index, t: Txid, x: Txid)
    requires Truthful(txs, kids) && t in txs && x in txs
    ensures t in Lineage(txs, t)
    ensures x in Lineage(txs, t) && x != t ==> x in kids && kids[x] in Lineage(txs, t)
    ensures x !in Lineage(txs, t) && x in kids ==> kids[x] !in Lineage(txs, t)
    ensures x in kids ==> kids[x] in txs
  {
    LinkedIndexesParents(txs, kids);
    assert Lineage(txs, t)[0] == t;
    if x in Lineage(txs, t) && x != t {
      LineageKid(txs, kids, t, x);
    }
    if x in kids {
      assert LinkedDown(txs, kids, x);
      if kids[x] in Lineage(txs, t) {
        LineageClosed(txs, t, kids[x]);
      }
    }
  }

  lemma NewcomerHasNoKid(txs: Pool, kids: Index, child: Txid)
    requires Linked(txs, kids) && child !in txs
    ensures child !in kids
  {
    assert child in kids ==> LinkedDown(txs, kids, child);
  }

  lemma AttachDownOk(txs: Pool, kids: Index, parent: Txid, child: Txid, vsize: nat, base: nat, maxChain: nat, x: Txid)
    requires CanAttach(txs, kids, parent, child, maxChain) && x in txs
    ensures var mid := txs[child := ChildEntry(vsize, base, parent, txs[parent])];
            DownOk(AdjustedAlong(mid, Lineage(txs, parent), vsize, base, true), kids[parent := child], x)
  {
    hide Lineage, Upward, Linked;
    LineageBoundary(txs, kids, parent, x);
    LineagePresent(txs, parent);
    assert DownOk(txs, kids, x);
  }

  lemma LineagePresent(txs: Pool, t: Txid)
    requires Upward(txs) && t in txs
    ensures forall a | a in Lineage(txs, t) :: a in txs
  {
    LineageFacts(txs, t);
  }

  ghost function Attached(txs: Pool, parent: Txid, child: Txid, vsize: nat, base: nat): Pool
    requires Upward(txs) && parent in txs
  {
    AdjustedAlong(txs[child := ChildEntry(vsize, base, parent, txs[parent])], Lineage(txs, parent), vsize, base, true)
  }

  lemma AttachedDownward(txs: Pool, kids: Index, parent: Txid, child: Txid, vsize: nat, base: nat, maxChain: nat)
    requires CanAttach(txs, kids, parent, child, maxChain) && vsize >= 1
    ensures forall x | x in Attached(txs, parent, child, vsize, base) ::
              DownOk(Attached(txs, parent, child, vsize, base), kids[parent := child], x)
  {
    var next := Attached(txs, parent, child, vsize, base);
    LineagePresent(txs, parent);
    NewcomerHasNoKid(txs, kids, child);
    forall x | x in next ensures DownOk(next, kids[parent := child], x) {
      if x != child {
        AttachDownOk(txs, kids, parent, child, vsize, base, maxChain, x);
      }
    }
  }

  lemma AttachedShort(txs: Pool, mid: Pool, next: Pool, parent: Txid, child: Txid, maxChain: nat)
    requires Upward(txs) && Upward(mid) && Upward(next) && Short(txs, maxChain)
    requires parent in txs && child !in txs && mid.Keys == next.Keys == txs.Keys + {child}
    requires forall x | x in txs :: mid[x].depends == txs[x].depends
    requires forall x | x in mid :: next[x].depends == mid[x].depends
    requires mid[child].depends == [parent] && |Lineage(txs, parent)| + 1 <= maxChain
    ensures Short(next, maxChain)
  {
    hide Upward, Lineage;
    LineageExtends(next, child, parent);
    LineageUnchanged(txs, next, parent);
    forall x | x in next ensures |Lineage(next, x)| <= 1 || |Lineage(next, x)| <= maxChain {
      if x != child {
        LineageUnchanged(txs, next, x);
      }
    }
  }

  lemma LineageExtends(txs: Pool, child: Txid, parent: Txid)
    requires Upward(txs) && child in txs && parent in txs && txs[child].depends == [parent]
    ensures Lineage(txs, child) == [child] + Lineage(txs, parent)
  {
    assert UpOk(txs, child);
  }

  /** Attaching a child keeps the index truthful and every chain within the maximum. */
  lemma AttachedTruthful(txs: Pool, kids: Index, parent: Txid, child: Txid, vsize: nat, base: nat, maxChain: nat)
    requires CanAttach(txs, kids, parent, child, maxChain) && vsize >= 1
    ensures var next := Attached(txs, parent, child, vsize, base);
            && Truthful(next, kids[parent := child]) && Short(next, maxChain)
            && Shapes(next) == Shapes(txs[child := ChildEntry(vsize, base, parent, txs[parent])])
  {
    hide Lineage, AdjustedAlong, SameButDescendants, Linked;
    var mid := txs[child := ChildEntry(vsize, base, parent, txs[parent])];
    var next := Attached(txs, parent, child, vsize, base);
    InsertedUpward(txs, kids, parent, child, vsize, base, maxChain);
    AdjustedSame(mid, Lineage(txs, parent), vsize, base, true);
    UpwardCarriesOver(mid, next, kids[parent := child]);
    AttachedDownward(txs, kids, parent, child, vsize, base, maxChain);
    SameDepends(mid, next);
    AttachedShort(txs, mid, next, parent, child, maxChain);
  }

  lemma AdjustedOne(txs: Pool, chain: seq<Txid>, i: nat, vsize: nat, base: nat, add: bool)
    requires Distinct(chain) && i < |chain| && chain[i] in txs
    ensures AdjustedAlong(txs, chain[..i], vsize, base, add)[chain[i]] == txs[chain[i]]
    ensures AdjustedAlong(txs, chain[..i + 1], vsize, base, add)
         == AdjustedAlong(txs, chain[..i], vsize, base, add)[chain[i] := Adjusted(txs[chain[i]], vsize, base, add)]
  {
    assert chain[..i + 1] == chain[..i] + [chain[i]];
    assert chain[i] !in chain[..i];
  }

  lemma AttachedShapes(txs: Pool, parent: Txid, child: Txid, vsize: nat, base: nat)
    requires parent in txs
    ensures Shapes(txs[child := ChildEntry(vsize, base, parent, txs[parent])])
         == Shapes(txs)[child := Shape(vsize, Some(4 * vsize), [parent], base)]
  {
  }

  lemma AdjustedSame(txs: Pool, chain: seq<Txid>, vsize: nat, base: nat, add: bool)
    ensures SameButDescendants(txs, AdjustedAlong(txs, chain, vsize, base, add))
  {
  }

  lemma SameDepends(a: Pool, b: Pool)
    requires SameButDescendants(a, b)
    ensures a.Keys == b.Keys
    ensures forall x | x in a :: b[x].depends == a[x].depends
  {
    forall x | x in a ensures b[x].depends == a[x].depends {
      assert ShapeOf(a[x]) == ShapeOf(b[x]);
    }
  }

  /** Removing a childless transaction leaves every other lineage as it was. */
  lemma RemovedUpward(txs: Pool, kids: Index, leaf: Txid)
    requires Truthful(txs, kids) && leaf in txs && leaf !in kids
    ensures Upward(txs - {leaf})
    ensures Linked(txs - {leaf}, if txs[leaf].depends == [] then kids else kids - {txs[leaf].depends[0]})
    ensures forall t | t in txs && t != leaf :: Lineage(txs - {leaf}, t) == Lineage(txs, t)
  {
    var rest := txs - {leaf};
    var kids' := if txs[leaf].depends == [] then kids else kids - {txs[leaf].depends[0]};
    assert LinkedUp(txs, kids, leaf);
    forall t | t in rest ensures UpOk(rest, t) && LinkedUp(rest, kids', t) {
      assert UpOk(txs, t) && LinkedUp(txs, kids, t);
    }
    forall p | p in kids' ensures LinkedDown(rest, kids', p) {
      assert LinkedDown(txs, kids, p);
    }
    forall t | t in txs && t != leaf ensures Lineage(rest, t) == Lineage(txs, t) {
      LineageUnchanged(rest, txs, t);
    }
  }

  /** Every ancestor's totals include the leaf, so the subtraction never stops at zero. */
  lemma {:induction false} DescendantTotalsCover(txs: Pool, kids: Index, t: Txid, a: Txid)
    requires Truthful(txs, kids) && t in txs && a in Lineage(txs, t) && a in txs
    ensures txs[a].descendantSize >= txs[t].vsize && txs[a].descendantFee >= txs[t].base
    decreases txs[t].ancestorSize
  {
    LineageIsOffspring(txs, kids, a, t);
    CoverBelow(txs, kids, a, t);
  }

  lemma {:induction false} CoverBelow(txs: Pool, kids: Index, a: Txid, t: Txid)
    requires Downward(txs, kids) && a in txs && t in txs && t in Offspring(txs, kids, a)
    ensures txs[a].descendantSize >= txs[t].vsize && txs[a].descendantFee >= txs[t].base
    decreases txs[a].descendantSize
  {
    assert DownOk(txs, kids, a) && DownOk(txs, kids, t);
    if a != t {
      assert t in Offspring(txs, kids, kids[a]);
      CoverBelow(txs, kids, kids[a], t);
    }
  }

  /** Who is next to the leaf: its parent, and nobody else. */
  lemma LeafNeighbour(txs: Pool, kids: Index, leaf: Txid, x: Txid)
    requires Truthful(txs, kids) && leaf in txs && txs[leaf].depends != [] && x in kids && kids[x] == leaf
    ensures x == txs[leaf].depends[0]
  {
    assert LinkedDown(txs, kids, x);
  }

  lemma RemoveCover(txs: Pool, kids: Index, leaf: Txid, x: Txid)
    requires Truthful(txs, kids) && leaf in txs && txs[leaf].depends != [] && x in txs
    requires txs[leaf].depends[0] in txs && x in Lineage(txs, txs[leaf].depends[0])
    ensures txs[x].descendantSize >= txs[leaf].vsize && txs[x].descendantFee >= txs[leaf].base
  {
    assert UpOk(txs, leaf);
    assert x in Lineage(txs, leaf);
    DescendantTotalsCover(txs, kids, leaf, x);
  }

  lemma RemoveDownOk(txs: Pool, kids: Index, leaf: Txid, x: Txid)
    requires Truthful(txs, kids) && leaf in txs && leaf !in kids && txs[leaf].depends != []
    requires x in txs && x != leaf && txs[leaf].depends[0] in txs && |txs[leaf].depends| == 1
    ensures var parent := txs[leaf].depends[0];
            DownOk(AdjustedAlong(txs - {leaf}, Lineage(txs, parent), txs[leaf].vsize, txs[leaf].base, false),
                   kids - {parent}, x)
  {
    hide Lineage, Upward, Linked;
    var parent := txs[leaf].depends[0];
    var line := Lineage(txs, parent);
    LineageBoundary(txs, kids, parent, x);
    assert DownOk(txs, kids, x) && DownOk(txs, kids, leaf);
    if x in line {
      RemoveCover(txs, kids, leaf, x);
    }
    if x in kids {
      if kids[x] in line {
        RemoveCover(txs, kids, leaf, kids[x]);
      }
      if kids[x] == leaf {
        LeafNeighbour(txs, kids, leaf, x);
      }
    }
    if x == parent {
      ParentOfLeaf(txs, kids, leaf);
    }
  }

  lemma ParentOfLeaf(txs: Pool, kids: Index, leaf: Txid)
    requires Truthful(txs, kids) && leaf in txs && txs[leaf].depends != []
    ensures |txs[leaf].depends| == 1 && txs[leaf].depends[0] in txs
    ensures txs[leaf].depends[0] in kids && kids[txs[leaf].depends[0]] == leaf && txs[leaf].depends[0] != leaf
  {
    assert LinkedUp(txs, kids, leaf) && UpOk(txs, leaf);
  }

  ghost function Removed(txs: Pool, leaf: Txid): Pool
    requires Upward(txs) && leaf in txs && txs[leaf].depends != [] && txs[leaf].depends[0] in txs
  {
    AdjustedAlong(txs - {leaf}, Lineage(txs, txs[leaf].depends[0]), txs[leaf].vsize, txs[leaf].base, false)
  }

  lemma RemovedShort(txs: Pool, next: Pool, maxChain: nat)
    requires Upward(txs) && Upward(next) && Short(txs, maxChain)
    requires forall x | x in next :: x in txs && next[x].depends == txs[x].depends
    ensures Short(next, maxChain)
  {
    forall x | x in next ensures |Lineage(next, x)| <= 1 || |Lineage(next, x)| <= maxChain {
      LineageUnchanged(next, txs, x);
    }
  }

  /** Removing a root that is a leaf changes nothing else. */
  lemma RootRemovedTruthful(txs: Pool, kids: Index, leaf: Txid, maxChain: nat)
    requires Truthful(txs, kids) && Short(txs, maxChain) && leaf in txs && leaf !in kids && txs[leaf].depends == []
    ensures Truthful(txs - {leaf}, kids) && Short(txs - {leaf}, maxChain)
  {
    hide Lineage;
    var rest := txs - {leaf};
    RemovedUpward(txs, kids, leaf);
    forall x | x in rest ensures DownOk(rest, kids, x) {
      assert DownOk(txs, kids, x);
      assert x in kids ==> LinkedDown(txs, kids, x);
    }
    RemovedShort(txs, rest, maxChain);
  }

  /** Removing a leaf with a parent keeps the index truthful once its ancestors are adjusted. */
  lemma LeafRemovedTruthful(txs: Pool, kids: Index, leaf: Txid, maxChain: nat)
    requires Truthful(txs, kids) && Short(txs, maxChain) && leaf in txs && leaf !in kids
    requires txs[leaf].depends != [] && txs[leaf].depends[0] in txs
    ensures Truthful(Removed(txs, leaf), kids - {txs[leaf].depends[0]}) && Short(Removed(txs, leaf), maxChain)
    ensures Shapes(Removed(txs, leaf)) == Shapes(txs - {leaf})
  {
    hide Lineage, AdjustedAlong, SameButDescendants, Linked;
    var rest := txs - {leaf};
    var parent := txs[leaf].depends[0];
    var next := Removed(txs, leaf);
    RemovedUpward(txs, kids, leaf);
    ParentOfLeaf(txs, kids, leaf);
    AdjustedSame(rest, Lineage(txs, parent), txs[leaf].vsize, txs[leaf].base, false);
    UpwardCarriesOver(rest, next, kids - {parent});
    SameDepends(rest, next);
    forall x | x in next ensures DownOk(next, kids - {parent}, x) {
      RemoveDownOk(txs, kids, leaf, x);
    }
    RemovedShort(txs, next, maxChain);
  }
}
