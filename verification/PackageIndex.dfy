/** The simulated node's mempool as values: linear chains of transactions, a reverse child
    index, and per-transaction totals over ancestors and descendants. */
module PackageIndex {
  import opened Wrappers
  import opened Txids

  datatype Entry = Entry(vsize: nat, weight: Option<nat>, depends: seq<Txid>, base: nat,
                         ancestorSize: nat, ancestorFee: nat, descendantSize: nat, descendantFee: nat)

  type Pool = map<Txid, Entry>
  type Index = map<Txid, Txid>

  /** An entry without the incrementally maintained totals. */
  datatype Shape = Shape(vsize: nat, weight: Option<nat>, depends: seq<Txid>, base: nat)

  function ShapeOf(e: Entry): Shape {
    Shape(e.vsize, e.weight, e.depends, e.base)
  }

  ghost function Shapes(txs: Pool): map<Txid, Shape> {
    map t | t in txs :: ShapeOf(txs[t])
  }

  ghost predicate Sized(txs: Pool) {
    forall t | t in txs :: txs[t].vsize >= 1 && txs[t].weight == Some(4 * txs[t].vsize)
  }

  /** The parent, if any, is present and names t as its child. */
  ghost predicate LinkedUp(txs: Pool, kids: Index, t: Txid)
    requires t in txs
  {
    var d := txs[t].depends;
    d == [] || (|d| == 1 && d[0] in txs && d[0] in kids && kids[d[0]] == t)
  }

  ghost predicate LinkedDown(txs: Pool, kids: Index, p: Txid)
    requires p in kids
  {
    p in txs && kids[p] in txs && txs[kids[p]].depends == [p]
  }

  /** Parent references and the child index are inverse to each other, and no parent is missing. */
  ghost predicate Linked(txs: Pool, kids: Index) {
    && (forall t {:trigger LinkedUp(txs, kids, t)} | t in txs :: LinkedUp(txs, kids, t))
    && (forall p {:trigger LinkedDown(txs, kids, p)} | p in kids :: LinkedDown(txs, kids, p))
  }

  /** The ancestor totals of t are its own figures plus its parent's totals. */
  ghost predicate UpOk(txs: Pool, t: Txid)
    requires t in txs
  {
    var e := txs[t];
    if e.depends == [] then e.ancestorSize == e.vsize && e.ancestorFee == e.base
    else
      && e.depends[0] in txs
      && e.ancestorSize == e.vsize + txs[e.depends[0]].ancestorSize
      && e.ancestorFee == e.base + txs[e.depends[0]].ancestorFee
  }

  /** The descendant totals of t are its own figures plus its child's totals. */
  ghost predicate DownOk(txs: Pool, kids: Index, t: Txid)
    requires t in txs
  {
    var e := txs[t];
    if t !in kids then e.descendantSize == e.vsize && e.descendantFee == e.base
    else
      && kids[t] in txs
      && e.descendantSize == e.vsize + txs[kids[t]].descendantSize
      && e.descendantFee == e.base + txs[kids[t]].descendantFee
  }

  ghost predicate Upward(txs: Pool) {
    Sized(txs) && forall t {:trigger UpOk(txs, t)} | t in txs :: UpOk(txs, t)
  }

  ghost predicate Downward(txs: Pool, kids: Index) {
    Sized(txs) && forall t {:trigger DownOk(txs, kids, t)} | t in txs :: DownOk(txs, kids, t)
  }

  /** The whole index is truthful. Since sizes are positive, the totals strictly grow along
      a chain, so there are no cycles. */
  ghost predicate Truthful(txs: Pool, kids: Index) {
    Linked(txs, kids) && Upward(txs) && Downward(txs, kids)
  }

  /** t followed by its ancestors, nearest first. */
  ghost function Lineage(txs: Pool, t: Txid): (line: seq<Txid>)
    requires Upward(txs) && t in txs
    ensures line != [] && line[0] == t
    decreases txs[t].ancestorSize
  {
    assert UpOk(txs, t);
    if txs[t].depends == [] then [t] else [t] + Lineage(txs, txs[t].depends[0])
  }

  /** t followed by its descendants, nearest first. */
  ghost function Offspring(txs: Pool, kids: Index, t: Txid): (line: seq<Txid>)
    requires Downward(txs, kids) && t in txs
    ensures line != [] && line[0] == t
    decreases txs[t].descendantSize
  {
    assert DownOk(txs, kids, t);
    if t !in kids then [t] else [t] + Offspring(txs, kids, kids[t])
  }

  ghost predicate Present(txs: Pool, line: seq<Txid>) {
    forall i | 0 <= i < |line| :: line[i] in txs
  }

  ghost function SizeSum(txs: Pool, line: seq<Txid>): nat
    requires Present(txs, line)
  {
    if line == [] then 0 else txs[line[0]].vsize + SizeSum(txs, line[1..])
  }

  ghost function FeeSum(txs: Pool, line: seq<Txid>): nat
    requires Present(txs, line)
  {
    if line == [] then 0 else txs[line[0]].base + FeeSum(txs, line[1..])
  }

  ghost predicate Distinct(line: seq<Txid>) {
    forall i, j | 0 <= i < j < |line| :: line[i] != line[j]
  }

  /** Along a lineage the ancestor total falls, so no transaction repeats. */
  lemma {:induction false} LineageFacts(txs: Pool, t: Txid)
    requires Upward(txs) && t in txs
    ensures Present(txs, Lineage(txs, t)) && Distinct(Lineage(txs, t))
    ensures forall a | a in Lineage(txs, t) && a != t :: txs[a].ancestorSize < txs[t].ancestorSize
    ensures SizeSum(txs, Lineage(txs, t)) == txs[t].ancestorSize
    ensures FeeSum(txs, Lineage(txs, t)) == txs[t].ancestorFee
    decreases txs[t].ancestorSize
  {
    assert UpOk(txs, t);
    if txs[t].depends != [] {
      var p := txs[t].depends[0];
      LineageFacts(txs, p);
      var line := Lineage(txs, t);
      assert line[1..] == Lineage(txs, p);
      assert forall i | 1 <= i < |line| :: line[i] == Lineage(txs, p)[i - 1];
      assert forall a | a in Lineage(txs, p) :: txs[a].ancestorSize < txs[t].ancestorSize;
    }
  }

  lemma {:induction false} OffspringFacts(txs: Pool, kids: Index, t: Txid)
    requires Downward(txs, kids) && t in txs
    ensures Present(txs, Offspring(txs, kids, t)) && Distinct(Offspring(txs, kids, t))
    ensures forall d | d in Offspring(txs, kids, t) && d != t :: txs[d].descendantSize < txs[t].descendantSize
    ensures SizeSum(txs, Offspring(txs, kids, t)) == txs[t].descendantSize
    ensures FeeSum(txs, Offspring(txs, kids, t)) == txs[t].descendantFee
    decreases txs[t].descendantSize
  {
    assert DownOk(txs, kids, t);
    if t in kids {
      var c := kids[t];
      OffspringFacts(txs, kids, c);
      var line := Offspring(txs, kids, t);
      assert line[1..] == Offspring(txs, kids, c);
      assert forall i | 1 <= i < |line| :: line[i] == Offspring(txs, kids, c)[i - 1];
      assert forall d | d in Offspring(txs, kids, c) :: txs[d].descendantSize < txs[t].descendantSize;
    }
  }

  /** All four totals of every transaction are the sums along its chain, recomputed from
      scratch, and its chain visits no transaction twice. */
  lemma TotalsAreChainSums(txs: Pool, kids: Index, t: Txid)
    requires Truthful(txs, kids) && t in txs
    ensures Distinct(Lineage(txs, t)) && Distinct(Offspring(txs, kids, t))
    ensures Present(txs, Lineage(txs, t)) && Present(txs, Offspring(txs, kids, t))
    ensures txs[t].ancestorSize == SizeSum(txs, Lineage(txs, t))
    ensures txs[t].ancestorFee == FeeSum(txs, Lineage(txs, t))
    ensures txs[t].descendantSize == SizeSum(txs, Offspring(txs, kids, t))
    ensures txs[t].descendantFee == FeeSum(txs, Offspring(txs, kids, t))
  {
    LineageFacts(txs, t);
    OffspringFacts(txs, kids, t);
  }

  /** A lineage holds the parents of its members. */
  lemma {:induction false} LineageClosed(txs: Pool, t: Txid, a: Txid)
    requires Upward(txs) && t in txs && a in Lineage(txs, t) && a in txs && txs[a].depends != []
    ensures txs[a].depends[0] in Lineage(txs, t)
    decreases txs[t].ancestorSize
  {
    assert UpOk(txs, t);
    if a == t {
      assert Lineage(txs, txs[t].depends[0])[0] == txs[t].depends[0];
      assert txs[t].depends[0] in Lineage(txs, txs[t].depends[0]);
    } else {
      var p := txs[t].depends[0];
      assert a in Lineage(txs, p);
      LineageClosed(txs, p, a);
    }
  }

  /** Every member of a lineage but its first is the recorded parent of another member. */
  lemma {:induction false} LineageKid(txs: Pool, kids: Index, t: Txid, a: Txid)
    requires Upward(txs) && t in txs && a in Lineage(txs, t) && a != t
    requires forall x | x in txs && txs[x].depends != [] :: txs[x].depends[0] in kids && kids[txs[x].depends[0]] == x
    ensures a in kids && kids[a] in Lineage(txs, t)
    decreases txs[t].ancestorSize
  {
    assert UpOk(txs, t);
    var p := txs[t].depends[0];
    assert a in Lineage(txs, p);
    if a != p {
      LineageKid(txs, kids, p, a);
    }
  }

  /** Ancestry read upwards and descent read downwards are the same relation. */
  lemma {:induction false} LineageMirrorsOffspring(txs: Pool, kids: Index, a: Txid, d: Txid)
    requires Truthful(txs, kids) && a in txs && d in txs
    ensures a in Lineage(txs, d) <==> d in Offspring(txs, kids, a)
  {
    if a in Lineage(txs, d) {
      LineageIsOffspring(txs, kids, a, d);
    }
    if d in Offspring(txs, kids, a) {
      OffspringIsLineage(txs, kids, a, d);
    }
  }

  lemma {:induction false} LineageIsOffspring(txs: Pool, kids: Index, a: Txid, d: Txid)
    requires Truthful(txs, kids) && a in txs && d in txs && a in Lineage(txs, d)
    ensures d in Offspring(txs, kids, a)
    decreases txs[d].ancestorSize
  {
    assert UpOk(txs, d) && LinkedUp(txs, kids, d);
    if a != d {
      var p := txs[d].depends[0];
      LineageIsOffspring(txs, kids, a, p);
      OffspringClosed(txs, kids, a, p);
    } else {
      assert Offspring(txs, kids, a)[0] == d;
    }
  }

  lemma {:induction false} OffspringIsLineage(txs: Pool, kids: Index, a: Txid, d: Txid)
    requires Truthful(txs, kids) && a in txs && d in txs && d in Offspring(txs, kids, a)
    ensures a in Lineage(txs, d)
    decreases txs[a].descendantSize
  {
    assert DownOk(txs, kids, a);
    if a != d {
      assert LinkedDown(txs, kids, a);
      var c := kids[a];
      assert d in Offspring(txs, kids, c);
      OffspringIsLineage(txs, kids, c, d);
      LineageClosed(txs, d, c);
    } else {
      assert Lineage(txs, d)[0] == a;
    }
  }

  lemma {:induction false} OffspringClosed(txs: Pool, kids: Index, t: Txid, a: Txid)
    requires Downward(txs, kids) && t in txs && a in Offspring(txs, kids, t) && a in kids
    ensures kids[a] in Offspring(txs, kids, t)
    decreases txs[t].descendantSize
  {
    assert DownOk(txs, kids, t);
    if a == t {
      assert Offspring(txs, kids, kids[t])[0] == kids[t];
      assert kids[t] in Offspring(txs, kids, kids[t]);
    } else {
      assert a in Offspring(txs, kids, kids[t]);
      OffspringClosed(txs, kids, kids[t], a);
    }
  }

  lemma ShapesDetermineKids(a: Pool, b: Pool, kids: Index, kids': Index)
    requires Linked(a, kids) && Linked(b, kids') && Shapes(a) == Shapes(b)
    ensures forall p | p in kids :: p in kids' && kids'[p] == kids[p]
  {
    forall p | p in kids ensures p in kids' && kids'[p] == kids[p] {
      assert LinkedDown(a, kids, p);
      assert kids[p] in Shapes(a).Keys && kids[p] in Shapes(b).Keys;
      assert Shapes(a)[kids[p]] == Shapes(b)[kids[p]];
      assert LinkedUp(b, kids', kids[p]);
    }
  }

  /** Parent references and own figures determine the child index and every total, so an
      operation that states what it does to them and keeps the index truthful has stated its
      whole result. */
  lemma ShapesDetermineTotals(a: Pool, b: Pool, kids: Index, kids': Index)
    requires Truthful(a, kids) && Truthful(b, kids') && Shapes(a) == Shapes(b)
    ensures a == b && kids == kids'
  {
    ShapesDetermineKids(a, b, kids, kids');
    ShapesDetermineKids(b, a, kids', kids);
    assert kids == kids';
    assert a.Keys == Shapes(a).Keys && b.Keys == Shapes(b).Keys;
    forall t | t in a ensures a[t] == b[t] {
      assert Shapes(a)[t] == ShapeOf(a[t]) && Shapes(b)[t] == ShapeOf(b[t]);
      SameAncestorTotals(a, b, t);
      SameDescendantTotals(a, b, kids, t);
    }
  }

  lemma {:induction false} SameAncestorTotals(a: Pool, b: Pool, t: Txid)
    requires Upward(a) && Upward(b) && Shapes(a) == Shapes(b) && t in a && t in b
    ensures a[t].ancestorSize == b[t].ancestorSize && a[t].ancestorFee == b[t].ancestorFee
    decreases a[t].ancestorSize
  {
    assert Shapes(a)[t] == Shapes(b)[t];
    assert UpOk(a, t) && UpOk(b, t);
    if a[t].depends != [] {
      SameAncestorTotals(a, b, a[t].depends[0]);
    }
  }

  lemma {:induction false} SameDescendantTotals(a: Pool, b: Pool, kids: Index, t: Txid)
    requires Downward(a, kids) && Downward(b, kids) && Shapes(a) == Shapes(b) && t in a && t in b
    ensures a[t].descendantSize == b[t].descendantSize && a[t].descendantFee == b[t].descendantFee
    decreases a[t].descendantSize
  {
    assert Shapes(a)[t] == Shapes(b)[t];
    assert DownOk(a, kids, t) && DownOk(b, kids, t);
    if t in kids {
      SameDescendantTotals(a, b, kids, kids[t]);
    }
  }

  /** No chain is longer than the configured maximum. */
  ghost predicate Short(txs: Pool, maxChain: nat)
    requires Upward(txs)
  {
    forall t | t in txs :: |Lineage(txs, t)| <= 1 || |Lineage(txs, t)| <= maxChain
  }

  /** Entries that agree in everything but descendant totals have the same lineages. */
  lemma {:induction false} LineageUnchanged(a: Pool, b: Pool, t: Txid)
    requires Upward(a) && Upward(b) && t in a
    requires forall x | x in a :: x in b && b[x].depends == a[x].depends
    ensures Lineage(a, t) == Lineage(b, t)
    decreases a[t].ancestorSize
  {
    assert UpOk(a, t) && UpOk(b, t);
    if a[t].depends != [] {
      LineageUnchanged(a, b, a[t].depends[0]);
    }
  }
}
