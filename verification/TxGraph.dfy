/** The projector's input: transactions with dense uids and parent edges, and the
    ancestor relation those edges induce. */
module TxGraph {

  /** One transaction handed to the projector. */
  datatype GbtTx = GbtTx(uid: nat, order: nat, fee: nat, weight: nat, parents: seq<nat>)

  /** Uids are the indices of the input and every parent is one of them. */
  ghost predicate InRange(txs: seq<GbtTx>) {
    && (forall i | 0 <= i < |txs| :: txs[i].uid == i)
    && (forall i, p | 0 <= i < |txs| && p in txs[i].parents :: p < |txs|)
  }

  /** A walk from a transaction towards its ancestors, one parent edge at a time. */
  ghost predicate IsWalk(txs: seq<GbtTx>, walk: seq<nat>) {
    && (forall i | 0 <= i < |walk| :: walk[i] < |txs|)
    && (forall i | 0 <= i < |walk| - 1 :: walk[i + 1] in txs[walk[i]].parents)
  }

  ghost predicate WalkBetween(txs: seq<GbtTx>, walk: seq<nat>, d: nat, a: nat) {
    |walk| >= 2 && IsWalk(txs, walk) && walk[0] == d && walk[|walk| - 1] == a
  }

  /** a is reachable from d through one or more parent edges. */
  ghost predicate IsAncestor(txs: seq<GbtTx>, a: nat, d: nat) {
    exists walk :: WalkBetween(txs, walk, d, a)
  }

  ghost function Ancestors(txs: seq<GbtTx>, d: nat): set<nat> {
    set a: nat | a < |txs| && IsAncestor(txs, a, d)
  }

  ghost predicate Acyclic(txs: seq<GbtTx>) {
    forall u: nat | u < |txs| :: !IsAncestor(txs, u, u)
  }

  lemma ParentIsAncestor(txs: seq<GbtTx>, p: nat, d: nat)
    requires InRange(txs) && d < |txs| && p in txs[d].parents
    ensures IsAncestor(txs, p, d)
  {
    assert WalkBetween(txs, [d, p], d, p);
  }

  lemma AncestorTransitive(txs: seq<GbtTx>, a: nat, b: nat, c: nat)
    requires IsAncestor(txs, a, b) && IsAncestor(txs, b, c)
    ensures IsAncestor(txs, a, c)
  {
    var up :| WalkBetween(txs, up, b, a);
    var low :| WalkBetween(txs, low, c, b);
    var walk := low + up[1..];
    forall i | 0 <= i < |walk| - 1 ensures walk[i + 1] in txs[walk[i]].parents {
      if i < |low| - 1 {
      } else if i == |low| - 1 {
        assert walk[i] == up[0] && walk[i + 1] == up[1];
      } else {
        assert walk[i] == up[i - |low| + 1] && walk[i + 1] == up[i - |low| + 2];
      }
    }
    assert WalkBetween(txs, walk, c, a);
  }

  /** An ancestor is a parent, or an ancestor of a parent. */
  lemma AncestorFirstStep(txs: seq<GbtTx>, a: nat, d: nat) returns (p: nat)
    requires InRange(txs) && IsAncestor(txs, a, d)
    ensures d < |txs| && p in txs[d].parents && (a == p || IsAncestor(txs, a, p))
  {
    var walk :| WalkBetween(txs, walk, d, a);
    p := walk[1];
    if |walk| > 2 {
      assert WalkBetween(txs, walk[1..], p, a);
    }
  }

  lemma AncestorsTransitive(txs: seq<GbtTx>, d: nat)
    ensures forall b, a | b in Ancestors(txs, d) && a in Ancestors(txs, b) :: a in Ancestors(txs, d)
  {
    forall b, a | b in Ancestors(txs, d) && a in Ancestors(txs, b) ensures a in Ancestors(txs, d) {
      AncestorTransitive(txs, a, b, d);
    }
  }

  /** Ancestor counts strictly increase along parent edges, which is what makes them a
      valid sort key for placing parents first. */
  lemma AncestorCountIncreases(txs: seq<GbtTx>, a: nat, d: nat)
    requires Acyclic(txs) && a in Ancestors(txs, d)
    ensures Ancestors(txs, a) < Ancestors(txs, d)
    ensures |Ancestors(txs, a)| < |Ancestors(txs, d)|
  {
    AncestorsTransitive(txs, d);
    assert a !in Ancestors(txs, a);
    StrictSubsetSize(Ancestors(txs, a), Ancestors(txs, d));
  }

  lemma StrictSubsetSize(s: set<nat>, t: set<nat>)
    requires s < t
    ensures |s| < |t|
  {
    var x :| x in t && x !in s;
    SubsetSize(s, t - {x});
  }

  lemma {:induction false} SubsetSize(s: set<nat>, t: set<nat>)
    requires s <= t
    ensures |s| <= |t|
    decreases s
  {
    if s != {} {
      var x :| x in s;
      SubsetSize(s - {x}, t - {x});
    }
  }

  /** Any numbering that increases from parents to children rules out cycles. */
  lemma RankedIsAcyclic(txs: seq<GbtTx>, rank: seq<nat>)
    requires InRange(txs) && |rank| == |txs|
    requires forall i, p | 0 <= i < |txs| && p in txs[i].parents :: rank[p] < rank[i]
    ensures Acyclic(txs)
  {
    forall u: nat | u < |txs| ensures !IsAncestor(txs, u, u) {
      if IsAncestor(txs, u, u) {
        var walk :| WalkBetween(txs, walk, u, u);
        RankFallsAlongWalk(txs, rank, walk);
      }
    }
  }

  lemma {:induction false} RankFallsAlongWalk(txs: seq<GbtTx>, rank: seq<nat>, walk: seq<nat>)
    requires InRange(txs) && |rank| == |txs|
    requires forall i, p | 0 <= i < |txs| && p in txs[i].parents :: rank[p] < rank[i]
    requires IsWalk(txs, walk) && |walk| >= 2
    ensures rank[walk[|walk| - 1]] < rank[walk[0]]
    decreases |walk|
  {
    assert walk[1] in txs[walk[0]].parents;
    if |walk| > 2 {
      assert IsWalk(txs, walk[1..]);
      RankFallsAlongWalk(txs, rank, walk[1..]);
    }
  }
}
