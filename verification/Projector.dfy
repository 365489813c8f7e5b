/** The projector itself: the loops, vectors and heap of the implementation, each proved to
    compute what module Packing specifies. */
module Projector {
  import opened UidSums
  import opened TxGraph
  import opened Ancestry
  import opened ScoreHeap
  import opened Packing
  import opened PackingRun
  import opened PackingOrder

  /** Per-transaction working state, indexed by uid. */
  datatype Audit = Audit(order: nat, fee: nat, weight: nat, ancestors: seq<nat>, children: seq<nat>)

  ghost predicate IsChildOf(txs: seq<GbtTx>, p: nat, c: nat) {
    c < |txs| && p in txs[c].parents
  }

  ghost predicate ChildrenOf(txs: seq<GbtTx>, audits: seq<Audit>) {
    && |audits| == |txs|
    && forall p: nat, c: nat | p < |txs| :: c in audits[p].children <==> IsChildOf(txs, p, c)
  }

  ghost predicate CopiesFields(txs: seq<GbtTx>, audits: seq<Audit>) {
    && |audits| == |txs|
    && forall i | 0 <= i < |txs| ::
         audits[i].order == txs[i].order && audits[i].fee == txs[i].fee && audits[i].weight == txs[i].weight
  }

  /** The audits hold the input g. */
  ghost predicate Describes(audits: seq<Audit>, g: Input) {
    && g.Valid()
    && CopiesFields(g.txs, audits)
    && ChildrenOf(g.txs, audits)
    && forall i | 0 <= i < |g.txs| :: Lists(audits[i].ancestors, g.anc[i])
  }

  ghost function UsedSet(used: seq<bool>): set<nat> {
    set i | i in Below(|used|) && used[i]
  }

  lemma UsedSetUpdate(used: seq<bool>, m: nat)
    requires m < |used|
    ensures UsedSet(used[m := true]) == UsedSet(used) + {m}
  {
  }

  lemma ElementsTake(xs: seq<nat>, j: nat)
    requires j < |xs|
    ensures Elements(xs[..j + 1]) == Elements(xs[..j]) + {xs[j]}
  {
    assert xs[..j + 1] == xs[..j] + [xs[j]];
  }

  lemma ListsFresh(xs: seq<nat>, s: set<nat>, j: nat)
    requires Lists(xs, s) && j < |xs|
    ensures xs[j] in s && xs[j] !in Elements(xs[..j])
  {
  }

  /** Recomputes the score of uid from its ancestors that are not used. */
  method ScoreOf(uid: nat, audits: seq<Audit>, used: array<bool>, ghost g: Input) returns (score: real)
    requires Describes(audits, g) && used.Length == |g.txs| && uid < |g.txs|
    ensures score == Score(g, uid, UsedSet(used[..]))
  {
    hide Rate;
    var a := audits[uid];
    var own := Rate(a.fee, a.weight);
    var pf, pw := a.fee, a.weight;
    ghost var placed := UsedSet(used[..]);
    SumEmpty(g.Fees());
    SumEmpty(g.Weights());
    assert Elements(a.ancestors[..0]) - placed == {};
    for j := 0 to |a.ancestors|
      invariant pf == a.fee + Sum(g.Fees(), Elements(a.ancestors[..j]) - placed)
      invariant pw == a.weight + Sum(g.Weights(), Elements(a.ancestors[..j]) - placed)
    {
      var an := a.ancestors[j];
      ListsFresh(a.ancestors, g.anc[uid], j);
      ElementsTake(a.ancestors, j);
      ghost var before := Elements(a.ancestors[..j]) - placed;
      if !used[an] {
        pf := pf + audits[an].fee;
        pw := pw + audits[an].weight;
        SumAdd(g.Fees(), before, an);
        SumAdd(g.Weights(), before, an);
        assert Elements(a.ancestors[..j + 1]) - placed == before + {an};
      } else {
        assert Elements(a.ancestors[..j + 1]) - placed == before;
      }
    }
    assert a.ancestors[..|a.ancestors|] == a.ancestors;
    ListsElements(a.ancestors, g.anc[uid]);
    score := Min(own, Rate(pf, pw));
  }

  /** The sort key of a package: ancestor count, then order, then uid. */
  predicate KeyBefore(audits: seq<Audit>, a: nat, b: nat)
    requires a < |audits| && b < |audits|
  {
    || |audits[a].ancestors| < |audits[b].ancestors|
    || (|audits[a].ancestors| == |audits[b].ancestors| && audits[a].order < audits[b].order)
    || (|audits[a].ancestors| == |audits[b].ancestors| && audits[a].order == audits[b].order && a < b)
  }

  lemma KeyBeforeIsBefore(audits: seq<Audit>, g: Input, a: nat, b: nat)
    requires Describes(audits, g) && a < |g.txs| && b < |g.txs|
    ensures KeyBefore(audits, a, b) <==> Before(g, a, b)
  {
    ListsSize(audits[a].ancestors, g.anc[a]);
    ListsSize(audits[b].ancestors, g.anc[b]);
  }

  lemma BeforeTotal(g: Input, a: nat, b: nat)
    requires g.Valid() && a < |g.txs| && b < |g.txs| && a != b
    ensures Before(g, a, b) || Before(g, b, a)
  {
  }

  lemma InsertSorted(g: Input, ys: seq<nat>, s: set<nat>, x: nat, k: nat)
    requires g.Valid() && x < |g.txs| && x !in s && k <= |ys|
    requires Lists(ys, s) && InBounds(g, ys) && Sorted(g, ys)
    requires forall i | 0 <= i < k :: Before(g, ys[i], x)
    requires k < |ys| ==> !Before(g, ys[k], x)
    ensures Lists(ys[..k] + [x] + ys[k..], s + {x})
    ensures InBounds(g, ys[..k] + [x] + ys[k..]) && Sorted(g, ys[..k] + [x] + ys[k..])
  {
    var zs := ys[..k] + [x] + ys[k..];
    if k < |ys| {
      assert ys[k] in ys;
      BeforeTotal(g, x, ys[k]);
    }
    forall i | k <= i < |ys| ensures Before(g, x, ys[i]) {
      if i > k {
        assert Before(g, ys[k], ys[i]);
      }
    }
    InsertLists(ys, s, x, k);
    forall i, j | 0 <= i < j < |zs| ensures Before(g, zs[i], zs[j]) {
      assert zs[i] == (if i < k then ys[i] else if i == k then x else ys[i - 1]);
      assert zs[j] == (if j < k then ys[j] else if j == k then x else ys[j - 1]);
    }
  }

  lemma InsertLists(ys: seq<nat>, s: set<nat>, x: nat, k: nat)
    requires Lists(ys, s) && x !in s && k <= |ys|
    ensures Lists(ys[..k] + [x] + ys[k..], s + {x})
  {
    var zs := ys[..k] + [x] + ys[k..];
    assert ys == ys[..k] + ys[k..];
    forall y | y in s + {x} ensures y in zs {
      if y in s {
        assert y in ys;
      }
    }
    forall i | 0 <= i < |ys| ensures ys[i] != x {
      assert ys[i] in ys;
    }
    forall i, j | 0 <= i < j < |zs| ensures zs[i] != zs[j] {
      assert zs[i] == (if i < k then ys[i] else if i == k then x else ys[i - 1]);
      assert zs[j] == (if j < k then ys[j] else if j == k then x else ys[j - 1]);
    }
  }

  /** Sorts the distinct uids xs into the package order. */
  method SortByKey(xs: seq<nat>, audits: seq<Audit>, ghost g: Input, ghost s: set<nat>) returns (ys: seq<nat>)
    requires Describes(audits, g) && s <= g.All() && Lists(xs, s)
    ensures ys == InOrder(g, s)
  {
    ys := [];
    for i := 0 to |xs|
      invariant Lists(ys, Elements(xs[..i])) && InBounds(g, ys) && Sorted(g, ys)
    {
      var x := xs[i];
      ListsFresh(xs, s, i);
      ElementsTake(xs, i);
      var k := 0;
      while k < |ys| && KeyBefore(audits, ys[k], x)
        invariant k <= |ys|
        invariant forall j | 0 <= j < k :: Before(g, ys[j], x)
      {
        KeyBeforeIsBefore(audits, g, ys[k], x);
        k := k + 1;
      }
      if k < |ys| {
        KeyBeforeIsBefore(audits, g, ys[k], x);
      }
      InsertSorted(g, ys, Elements(xs[..i]), x, k);
      ys := ys[..k] + [x] + ys[k..];
    }
    assert xs[..|xs|] == xs;
    ListsElements(xs, s);
    SortedIsInOrder(g, ys, s);
  }

  /** The package of uid: its ancestors that are not used, roots first, then uid itself. */
  method BuildPackage(uid: nat, audits: seq<Audit>, used: array<bool>, ghost g: Input) returns (pkg: seq<nat>)
    requires Describes(audits, g) && used.Length == |g.txs| && uid < |g.txs|
    ensures pkg == Package(g, uid, UsedSet(used[..]))
  {
    var all := audits[uid].ancestors;
    ghost var placed := UsedSet(used[..]);
    var rest := [];
    assert Elements(all[..0]) - placed == {};
    for j := 0 to |all|
      invariant Lists(rest, Elements(all[..j]) - placed)
    {
      ListsFresh(all, g.anc[uid], j);
      ElementsTake(all, j);
      if !used[all[j]] {
        ListsAppend(rest, Elements(all[..j]) - placed, all[j]);
        assert Elements(all[..j + 1]) - placed == (Elements(all[..j]) - placed) + {all[j]};
        rest := rest + [all[j]];
      } else {
        assert Elements(all[..j + 1]) - placed == Elements(all[..j]) - placed;
      }
    }
    assert all[..|all|] == all;
    ListsElements(all, g.anc[uid]);
    var sorted := SortByKey(rest, audits, g, Missing(g, uid, placed));
    pkg := sorted + [uid];
  }

  /** Pushes the children of m that were not seen before. */
  method Discover(m: nat, audits: seq<Audit>, seen: set<nat>, stack: seq<nat>, ghost g: Input, ghost done: set<nat>)
    returns (seen': set<nat>, stack': seq<nat>)
    requires Describes(audits, g) && m < |g.txs|
    requires seen == done + Elements(stack) && Lists(stack, Elements(stack)) && done !! Elements(stack)
    ensures seen' == seen + Elements(audits[m].children)
    ensures seen' == done + Elements(stack') && Lists(stack', Elements(stack')) && done !! Elements(stack')
  {
    seen', stack' := seen, stack;
    var children := audits[m].children;
    for j := 0 to |children|
      invariant seen' == seen + Elements(children[..j])
      invariant seen' == done + Elements(stack') && Lists(stack', Elements(stack')) && done !! Elements(stack')
    {
      var c := children[j];
      ElementsTake(children, j);
      if c !in seen' {
        ListsAppend(stack', Elements(stack'), c);
        ListsElements(stack' + [c], Elements(stack') + {c});
        seen', stack' := seen' + {c}, stack' + [c];
      }
    }
    assert children[..|children|] == children;
  }

  /** s contains the children of every member of t. */
  ghost predicate HoldsChildren(txs: seq<GbtTx>, s: set<nat>, t: set<nat>) {
    forall m: nat, c: nat | m in t && IsChildOf(txs, m, c) :: c in s
  }

  /** A set that holds the children of pkg and of its own members holds all descendants. */
  lemma ClosedHoldsDescendants(txs: seq<GbtTx>, pkg: set<nat>, s: set<nat>)
    requires InRange(txs)
    requires HoldsChildren(txs, s, pkg) && HoldsChildren(txs, s, s)
    ensures Descendants(txs, pkg) <= s
  {
    forall d | d in Descendants(txs, pkg) ensures d in s {
      var m :| m in pkg && IsAncestor(txs, m, d);
      var walk :| WalkBetween(txs, walk, d, m);
      ClosedHoldsWalk(txs, pkg, s, walk);
    }
  }

  lemma {:induction false} ClosedHoldsWalk(txs: seq<GbtTx>, pkg: set<nat>, s: set<nat>, walk: seq<nat>)
    requires HoldsChildren(txs, s, pkg) && HoldsChildren(txs, s, s)
    requires |walk| >= 2 && IsWalk(txs, walk) && walk[|walk| - 1] in pkg + s
    ensures walk[0] in s
    decreases |walk|
  {
    var n := |walk| - 1;
    assert IsChildOf(txs, walk[n], walk[n - 1]);
    assert walk[n - 1] in s;
    if n > 1 {
      assert IsWalk(txs, walk[..n]);
      ClosedHoldsWalk(txs, pkg, s, walk[..n]);
    }
  }

  lemma ChildDescends(txs: seq<GbtTx>, pkg: set<nat>, d: nat, c: nat)
    requires InRange(txs) && c < |txs| && d in txs[c].parents
    requires d in pkg || d in Descendants(txs, pkg)
    ensures c in Descendants(txs, pkg)
  {
    ParentIsAncestor(txs, d, c);
    if d in pkg {
      assert DescendsFrom(txs, c, pkg);
    } else {
      var m :| m in pkg && IsAncestor(txs, m, d);
      AncestorTransitive(txs, m, d, c);
      assert DescendsFrom(txs, c, pkg);
    }
  }

  lemma ChildrenDescend(audits: seq<Audit>, g: Input, pkg: set<nat>, d: nat)
    requires Describes(audits, g) && d < |g.txs|
    requires d in pkg || d in Descendants(g.txs, pkg)
    ensures Elements(audits[d].children) <= Descendants(g.txs, pkg)
  {
    forall c | c in audits[d].children ensures c in Descendants(g.txs, pkg) {
      assert IsChildOf(g.txs, d, c);
      ChildDescends(g.txs, pkg, d, c);
    }
  }

  /** After a package is placed, pushes a fresh entry for every descendant not placed,
      whether its score rose, fell or stayed. */
  method RefreshDescendants(pkg: seq<nat>, audits: seq<Audit>, used: array<bool>, heap: BinaryHeap, ghost g: Input)
    requires Describes(audits, g) && used.Length == |g.txs| && InBounds(g, pkg)
    requires heap.Valid()
    modifies heap
    ensures heap.Valid()
    ensures var placed := UsedSet(used[..]);
            heap.Contents() == old(heap.Contents())
                             + FreshEntries(g, Descendants(g.txs, Elements(pkg)) - placed, placed)
  {
    hide Score, FreshEntries, HeapOrdered, Descendants;
    ghost var below := Descendants(g.txs, Elements(pkg));
    DescendantsInRange(g, Elements(pkg));
    ghost var placed := UsedSet(used[..]);
    ghost var done: set<nat> := {};
    var seen: set<nat> := {};
    var stack: seq<nat> := [];
    for i := 0 to |pkg|
      invariant heap.Valid() && heap.Contents() == old(heap.Contents())
      invariant seen == done + Elements(stack) && Lists(stack, Elements(stack)) && done == {}
      invariant seen <= below && HoldsChildren(g.txs, seen, Elements(pkg[..i]))
    {
      ChildrenDescend(audits, g, Elements(pkg), pkg[i]);
      ElementsTake(pkg, i);
      seen, stack := Discover(pkg[i], audits, seen, stack, g, done);
    }
    assert pkg[..|pkg|] == pkg;
    NothingFresh(g, placed);
    assert done - placed == {};
    while |stack| > 0
      invariant heap.Valid()
      invariant seen == done + Elements(stack) && Lists(stack, Elements(stack)) && done !! Elements(stack)
      invariant seen <= below && HoldsChildren(g.txs, seen, Elements(pkg)) && HoldsChildren(g.txs, seen, done)
      invariant heap.Contents() == old(heap.Contents()) + FreshEntries(g, done - placed, placed)
      decreases below - done
    {
      var d := stack[|stack| - 1];
      ListsDropLast(stack, Elements(stack));
      ListsElements(stack[..|stack| - 1], Elements(stack) - {d});
      stack := stack[..|stack| - 1];
      if !used[d] {
        var score := ScoreOf(d, audits, used, g);
        heap.Push(HeapItem(score, audits[d].order, d));
      }
      OneMoreDone(g, done, placed, d);
      done := done + {d};
      ChildrenDescend(audits, g, Elements(pkg), d);
      seen, stack := Discover(d, audits, seen, stack, g, done);
    }
    ClosedHoldsDescendants(g.txs, Elements(pkg), seen);
    assert done == below;
  }

  lemma DescendantsInRange(g: Input, s: set<nat>)
    ensures Descendants(g.txs, s) <= g.All()
  {
  }

  lemma OneMoreDone(g: Input, done: set<nat>, placed: set<nat>, d: nat)
    requires g.Valid() && d < |g.txs| && d !in done
    ensures FreshEntries(g, (done + {d}) - placed, placed)
         == FreshEntries(g, done - placed, placed)
            + (if d in placed then multiset{} else multiset{Entry(g, d, placed)})
  {
    if d in placed {
      assert (done + {d}) - placed == done - placed;
    } else {
      EntriesBelowAdd(g, done - placed, placed, d, |g.txs|);
      assert (done + {d}) - placed == (done - placed) + {d};
    }
  }

  lemma NothingFresh(g: Input, used: set<nat>)
    requires g.Valid()
    ensures FreshEntries(g, {}, used) == multiset{}
  {
    NoEntries(g, used, |g.txs|);
  }

  /** The children recorded so far: those of the first i transactions, and i itself for its
      first j parents. */
  ghost predicate ChildrenSoFar(txs: seq<GbtTx>, audits: seq<Audit>, i: nat, j: nat)
    requires i < |txs| ==> j <= |txs[i].parents|
  {
    && |audits| == |txs|
    && forall p: nat, c: nat | p < |txs| ::
         c in audits[p].children <==> IsChildOf(txs, p, c) && (c < i || (c == i && p in txs[i].parents[..j]))
  }

  lemma ChildAdded(txs: seq<GbtTx>, audits: seq<Audit>, i: nat, j: nat)
    requires InRange(txs) && i < |txs| && j < |txs[i].parents| && ChildrenSoFar(txs, audits, i, j)
    ensures var p := txs[i].parents[j];
            && p in txs[i].parents && p < |audits|
            && ChildrenSoFar(txs, audits[p := audits[p].(children := audits[p].children + [i])], i, j + 1)
  {
    var q := txs[i].parents[j];
    assert q in txs[i].parents;
    var next := audits[q := audits[q].(children := audits[q].children + [i])];
    var parents := txs[i].parents;
    assert parents[..j + 1] == parents[..j] + [q];
    forall p: nat, c: nat | p < |txs|
      ensures c in next[p].children <==> IsChildOf(txs, p, c) && (c < i || (c == i && p in parents[..j + 1]))
    {
      assert p == q ==> (c in next[p].children <==> c in audits[p].children || c == i);
      assert c == i && p in parents[..j + 1] ==> IsChildOf(txs, p, c);
    }
  }

  /** The audits of the input: copied fields, reversed parent edges, ancestor closures. */
  method BuildAudits(txs: seq<GbtTx>) returns (audits: seq<Audit>)
    requires InRange(txs)
    ensures CopiesFields(txs, audits) && ChildrenOf(txs, audits)
    ensures forall u | 0 <= u < |txs| :: Lists(audits[u].ancestors, ClosuresOf(txs)[u])
  {
    audits := [];
    for i := 0 to |txs|
      invariant |audits| == i
      invariant forall k | 0 <= k < i ::
                  audits[k] == Audit(txs[k].order, txs[k].fee, txs[k].weight, [], [])
    {
      audits := audits + [Audit(txs[i].order, txs[i].fee, txs[i].weight, [], [])];
    }
    for i := 0 to |txs|
      invariant CopiesFields(txs, audits) && ChildrenSoFar(txs, audits, i, 0)
    {
      var parents := txs[i].parents;
      for j := 0 to |parents|
        invariant CopiesFields(txs, audits) && ChildrenSoFar(txs, audits, i, j)
      {
        ChildAdded(txs, audits, i, j);
        var p := parents[j];
        audits := audits[p := audits[p].(children := audits[p].children + [txs[i].uid])];
      }
      assert parents[..|parents|] == parents;
    }
    var closures := BuildAllAncestors(txs);
    ghost var before := audits;
    for u := 0 to |txs|
      invariant CopiesFields(txs, audits)
      invariant forall k | 0 <= k < |txs| :: audits[k].children == before[k].children
      invariant forall k | 0 <= k < u :: audits[k].ancestors == closures[k]
    {
      audits := audits[u := audits[u].(ancestors := closures[u])];
    }
  }

  lemma EmptySumSeq(g: Input)
    ensures SumSeq(g.Weights(), []) == 0
  {
  }

  lemma CommitOne(g: Input, pkg: seq<nat>, j: nat, rates: map<nat, real>, rate: real)
    requires InBounds(g, pkg) && j < |pkg|
    ensures pkg[..j + 1] == pkg[..j] + [pkg[j]]
    ensures Elements(pkg[..j + 1]) == Elements(pkg[..j]) + {pkg[j]}
    ensures SumSeq(g.Weights(), pkg[..j + 1]) == SumSeq(g.Weights(), pkg[..j]) + g.txs[pkg[j]].weight
    ensures rates + Uniform(Elements(pkg[..j + 1]), rate)
         == (rates + Uniform(Elements(pkg[..j]), rate))[pkg[j] := rate]
  {
    ElementsTake(pkg, j);
    assert pkg[..j + 1][..j] == pkg[..j];
  }

  /** Moves the members of a package into the current block at the package's rate. */
  method CommitPackage(pkg: seq<nat>, rate: real, audits: seq<Audit>, used: array<bool>,
                       cur: seq<nat>, weight: nat, rates: map<nat, real>, ghost g: Input)
    returns (cur': seq<nat>, weight': nat, rates': map<nat, real>)
    requires Describes(audits, g) && used.Length == |g.txs| && InBounds(g, pkg)
    modifies used
    ensures UsedSet(used[..]) == old(UsedSet(used[..])) + Elements(pkg)
    ensures cur' == cur + pkg
    ensures weight' == weight + SumSeq(g.Weights(), pkg)
    ensures rates' == rates + Uniform(Elements(pkg), rate)
  {
    hide UsedSet, SumSeq;
    cur', weight', rates' := cur, weight, rates;
    EmptySumSeq(g);
    assert pkg[..0] == [];
    for j := 0 to |pkg|
      invariant UsedSet(used[..]) == old(UsedSet(used[..])) + Elements(pkg[..j])
      invariant cur' == cur + pkg[..j]
      invariant weight' == weight + SumSeq(g.Weights(), pkg[..j])
      invariant rates' == rates + Uniform(Elements(pkg[..j]), rate)
    {
      var m := pkg[j];
      CommitOne(g, pkg, j, rates, rate);
      UsedSetUpdate(used[..], m);
      ghost var seen := used[..];
      used[m] := true;
      assert used[..] == seen[m := true];
      cur' := cur' + [m];
      weight' := weight' + audits[m].weight;
      rates' := rates'[m := rate];
    }
    assert pkg[..|pkg|] == pkg;
  }

  lemma NothingUsed(used: seq<bool>)
    requires forall i | 0 <= i < |used| :: !used[i]
    ensures UsedSet(used) == {}
  {
  }

  lemma UsedMember(used: seq<bool>, u: nat)
    requires u < |used|
    ensures u in UsedSet(used) <==> used[u]
  {
  }

  lemma HeapUid(g: Input, s: State, e: HeapItem)
    requires g.Valid() && WellFormed(g, s) && e in s.heap
    ensures e.uid < |g.txs|
  {
  }

  lemma SkipStep(g: Input, s: State)
    requires g.Valid() && WellFormed(g, s) && s.heap != multiset{} && !g.alwaysDrain
    requires Popped(s).uid in s.used
    ensures Step(g, s) == AfterPop(s)
  {
  }

  lemma RescoreStep(g: Input, s: State)
    requires g.Valid() && WellFormed(g, s) && s.heap != multiset{}
    requires Popped(s).uid < |g.txs| && Popped(s).uid !in s.used
    requires Differs(Score(g, Popped(s).uid, s.used), Popped(s).score)
    ensures Step(g, s) == s.(heap := AfterPop(s).heap + multiset{Entry(g, Popped(s).uid, s.used)})
  {
  }

  lemma PlainStep(g: Input, s: State)
    requires g.Valid() && WellFormed(g, s) && s.heap != multiset{}
    requires Popped(s).uid < |g.txs| && Popped(s).uid !in s.used
    requires !Differs(Score(g, Popped(s).uid, s.used), Popped(s).score)
    ensures WellFormed(g, AfterPop(s)) && WellFormed(g, Acted(g, s))
    ensures Step(g, s) == Close(g, Acted(g, s))
    ensures Acted(g, s) == if Fits(g, s, Popped(s).uid) then Place(g, AfterPop(s), Popped(s).uid)
                           else Defer(AfterPop(s), Popped(s).uid)
  {
  }

  lemma StartIs(g: Input)
    requires g.Valid()
    ensures Start(g) == State({}, FreshEntries(g, g.All(), {}), [], [], g.reserved, [], 0, map[])
  {
  }

  lemma DeferIs(s: State, u: nat)
    ensures Defer(s, u) == State(s.used, s.heap, s.blocks, s.cur, s.weight, s.overflow + [u], s.failures + 1, s.rates)
  {
  }

  lemma PlaceIs(g: Input, s: State, u: nat)
    requires g.Valid() && WellFormed(g, s) && u < |g.txs|
    ensures var members := Missing(g, u, s.used) + {u}; var used := s.used + members;
            Place(g, s, u) == State(used, s.heap + FreshEntries(g, Descendants(g.txs, members) - used, used),
                                    s.blocks, s.cur + Package(g, u, s.used), s.weight + PackageWeight(g, u, s.used),
                                    s.overflow, 0, s.rates + Uniform(members, PackageRate(g, u, s.used)))
  {
    assert UsedWith(g, u, s.used) == s.used + (Missing(g, u, s.used) + {u});
  }

  lemma CloseIs(g: Input, s: State)
    requires g.Valid() && WellFormed(g, s)
    ensures Close(g, s) ==
              if Closes(g, s) then
                State(s.used, s.heap + multiset(EntriesOf(g, s.overflow, s.used)), s.blocks + [s.cur], [],
                      g.reserved, [], 0, s.rates)
              else s
  {
  }

  lemma PackageElements(g: Input, u: nat, used: set<nat>)
    requires g.Valid() && u < |g.txs|
    ensures Elements(Package(g, u, used)) == Missing(g, u, used) + {u}
  {
    var front := InOrder(g, Missing(g, u, used));
    InOrderLists(g, Missing(g, u, used));
    ListsElements(front, Missing(g, u, used));
    assert Package(g, u, used)[..|front|] == front;
    ElementsTake(Package(g, u, used), |front|);
    assert Package(g, u, used)[..|front| + 1] == Package(g, u, used);
  }

  /** Weight and fee of a package, summed over its members. */
  method Totals(pkg: seq<nat>, audits: seq<Audit>, ghost g: Input) returns (weight: nat, fee: nat)
    requires Describes(audits, g) && InBounds(g, pkg)
    ensures weight == SumSeq(g.Weights(), pkg) && fee == SumSeq(g.Fees(), pkg)
  {
    weight, fee := 0, 0;
    for i := 0 to |pkg|
      invariant weight == SumSeq(g.Weights(), pkg[..i]) && fee == SumSeq(g.Fees(), pkg[..i])
    {
      assert pkg[..i + 1][..i] == pkg[..i];
      weight := weight + audits[pkg[i]].weight;
      fee := fee + audits[pkg[i]].fee;
    }
    assert pkg[..|pkg|] == pkg;
  }

  /** Gives every deferred transaction a fresh entry. */
  method Requeue(overflow: seq<nat>, audits: seq<Audit>, used: array<bool>, heap: BinaryHeap, ghost g: Input)
    requires Describes(audits, g) && used.Length == |g.txs| && InBounds(g, overflow)
    requires heap.Valid()
    modifies heap
    ensures heap.Valid()
    ensures heap.Contents() == old(heap.Contents()) + multiset(EntriesOf(g, overflow, UsedSet(used[..])))
  {
    hide Score, HeapOrdered;
    ghost var items := EntriesOf(g, overflow, UsedSet(used[..]));
    for i := 0 to |overflow|
      invariant heap.Valid()
      invariant heap.Contents() == old(heap.Contents()) + multiset(items[..i])
    {
      var o := overflow[i];
      var score := ScoreOf(o, audits, used, g);
      heap.Push(HeapItem(score, audits[o].order, o));
      assert items[..i + 1] == items[..i] + [items[i]];
    }
    assert items[..|items|] == items;
  }

  /** The heap with one entry per transaction. */
  method FillHeap(audits: seq<Audit>, used: array<bool>, ghost g: Input) returns (heap: BinaryHeap)
    requires Describes(audits, g) && used.Length == |g.txs| && UsedSet(used[..]) == {}
    ensures fresh(heap) && heap.Valid() && heap.Contents() == FreshEntries(g, g.All(), {})
  {
    hide Score, HeapOrdered, UsedSet;
    heap := new BinaryHeap();
    for uid := 0 to |audits|
      invariant fresh(heap) && heap.Valid()
      invariant heap.Contents() == EntriesBelow(g, g.All(), {}, uid)
    {
      var score := ScoreOf(uid, audits, used, g);
      heap.Push(HeapItem(score, audits[uid].order, uid));
    }
  }

  /** The loop's variables besides the used flags and the heap. */
  datatype Assembly = Assembly(blocks: seq<seq<nat>>, cur: seq<nat>, weight: nat, overflow: seq<nat>,
                               failures: nat, rates: map<nat, real>)

  ghost function StateOf(used: array<bool>, heap: BinaryHeap, v: Assembly): State
    reads used, heap
  {
    State(UsedSet(used[..]), heap.Contents(), v.blocks, v.cur, v.weight, v.overflow, v.failures, v.rates)
  }

  /** Places the package of uid in the current block, or defers uid if it does not fit. */
  method PackOrDefer(uid: nat, maxBlocks: nat, limit: nat, audits: seq<Audit>, used: array<bool>,
                     heap: BinaryHeap, v: Assembly, ghost g: Input)
    returns (v': Assembly)
    requires Describes(audits, g) && used.Length == |g.txs| && heap.Valid() && uid < |g.txs|
    requires WellFormed(g, StateOf(used, heap, v)) && g.maxBlocks == maxBlocks && g.limit == limit
    modifies used, heap
    ensures heap.Valid()
    ensures var s := old(StateOf(used, heap, v));
            StateOf(used, heap, v') == if Fits(g, s, uid) then Place(g, s, uid) else Defer(s, uid)
  {
    hide Score, HeapOrdered, FreshEntries, Package, UsedSet, SumSeq;
    ghost var s := StateOf(used, heap, v);
    var pkg := BuildPackage(uid, audits, used, g);
    PackageSumSeqs(g, uid, s.used);
    PackageElements(g, uid, s.used);
    var pkgWeight, pkgFee := Totals(pkg, audits, g);
    if |v.blocks| + 1 < maxBlocks && v.cur != [] && v.weight + pkgWeight > limit {
      v' := v.(overflow := v.overflow + [uid], failures := v.failures + 1);
      DeferIs(s, uid);
    } else {
      var cur, weight, rates := CommitPackage(pkg, Rate(pkgFee, pkgWeight), audits, used, v.cur, v.weight, v.rates, g);
      RefreshDescendants(pkg, audits, used, heap, g);
      v' := v.(cur := cur, weight := weight, rates := rates, failures := 0);
      PlaceIs(g, s, uid);
    }
  }

  /** Closes the current block when it is effectively full or the heap is drained. */
  method CloseIfFull(maxBlocks: nat, reserved: nat, audits: seq<Audit>, used: array<bool>,
                     heap: BinaryHeap, v: Assembly, ghost g: Input)
    returns (v': Assembly)
    requires Describes(audits, g) && used.Length == |g.txs| && heap.Valid()
    requires WellFormed(g, StateOf(used, heap, v)) && g.maxBlocks == maxBlocks && g.reserved == reserved
    modifies heap
    ensures heap.Valid()
    ensures StateOf(used, heap, v') == Close(g, old(StateOf(used, heap, v)))
  {
    hide Score, HeapOrdered, UsedSet;
    CloseIs(g, StateOf(used, heap, v));
    v' := v;
    var drained := heap.IsEmpty();
    if |v.blocks| + 1 < maxBlocks && (v.failures > FAILURE_LIMIT || drained) && v.cur != [] {
      Requeue(v.overflow, audits, used, heap, g);
      v' := v.(blocks := v.blocks + [v.cur], cur := [], weight := reserved, overflow := [], failures := 0);
    }
  }

  /** Deals with an entry whose score is current: packs or defers, then considers closing. */
  method Pack(uid: nat, maxBlocks: nat, limit: nat, reserved: nat, audits: seq<Audit>, used: array<bool>,
              heap: BinaryHeap, v: Assembly, ghost g: Input, ghost s: State)
    returns (v': Assembly)
    requires Describes(audits, g) && used.Length == |g.txs| && heap.Valid()
    requires g.maxBlocks == maxBlocks && g.limit == limit && g.reserved == reserved
    requires WellFormed(g, s) && s.heap != multiset{} && Popped(s).uid == uid < |g.txs| && uid !in s.used
    requires !Differs(Score(g, uid, s.used), Popped(s).score)
    requires AfterPop(s) == StateOf(used, heap, v)
    modifies used, heap
    ensures heap.Valid()
    ensures StateOf(used, heap, v') == Step(g, s)
  {
    hide Score, Step, Acted, Place, Close, HeapOrdered, UsedSet, WellFormed;
    PlainStep(g, s);
    v' := PackOrDefer(uid, maxBlocks, limit, audits, used, heap, v, g);
    assert StateOf(used, heap, v') == Acted(g, s);
    v' := CloseIfFull(maxBlocks, reserved, audits, used, heap, v', g);
  }

  /** One iteration of the packing loop; done says that the heap was empty. */
  method Iterate(maxBlocks: nat, limit: nat, reserved: nat, audits: seq<Audit>, used: array<bool>,
                 heap: BinaryHeap, v: Assembly, ghost g: Input)
    returns (done: bool, v': Assembly)
    requires Describes(audits, g) && used.Length == |g.txs| && heap.Valid()
    requires g.maxBlocks == maxBlocks && g.limit == limit && g.reserved == reserved && !g.alwaysDrain
    requires WellFormed(g, StateOf(used, heap, v))
    modifies used, heap
    ensures heap.Valid()
    ensures var s := old(StateOf(used, heap, v));
            && done == (s.heap == multiset{})
            && StateOf(used, heap, v') == if done then s else Step(g, s)
  {
    hide Score, Step, HeapOrdered, UsedSet, WellFormed;
    ghost var s := StateOf(used, heap, v);
    v' := v;
    var popped := heap.Pop();
    done := popped.None?;
    if done {
      return;
    }
    var item := popped.value;
    var uid := item.uid;
    TopUnique(s.heap, item, Popped(s));
    HeapUid(g, s, item);
    UsedMember(used[..], uid);
    if used[uid] {
      SkipStep(g, s);
      return;
    }
    var score := ScoreOf(uid, audits, used, g);
    if Differs(score, item.score) {
      heap.Push(HeapItem(score, audits[uid].order, uid));
      RescoreStep(g, s);
      return;
    }
    v' := Pack(uid, maxBlocks, limit, reserved, audits, used, heap, v, g, s);
  }

  /** Projects the transactions into fee-ordered blocks: the result is read off a complete run
      of the packing loop on the ancestor sets the search finds, of which there is one. It
      terminates on every input whose parents are in range, cyclic or not. */
  method ProjectWith(txs: seq<GbtTx>, maxBlocks: nat, limit: nat, reserved: nat) returns (projection: Projection)
    requires InRange(txs)
    ensures IsProjectionOf(txs, maxBlocks, limit, reserved, projection)
  {
    hide Start, Step, Score, HeapOrdered, UsedSet, WellFormed, InexactEntries, Unplaced, BlocksLeft, ClosuresOf;
    var audits := BuildAudits(txs);
    ghost var g := Configured(txs, maxBlocks, limit, reserved);
    var used := new bool[|txs|](_ => false);
    NothingUsed(used[..]);
    var heap := FillHeap(audits, used, g);
    var v := Assembly([], [], reserved, [], 0, map[]);
    RunStarts(g);
    ghost var run := [Start(g)];
    StartIs(g);
    var done := false;
    while !done
      invariant fresh(used) && fresh(heap) && heap.Valid() && used.Length == |txs|
      invariant IsRun(g, run) && Last(run) == StateOf(used, heap, v)
      invariant done ==> Last(run).heap == multiset{}
      decreases Unplaced(g, Last(run)), BlocksLeft(g, Last(run)), |Last(run).heap|, InexactEntries(g, Last(run)), !done
    {
      ghost var s := Last(run);
      done, v := Iterate(maxBlocks, limit, reserved, audits, used, heap, v, g);
      if !done {
        RunGrows(g, run);
        StepProgress(g, s);
        run := run + [Step(g, s)];
      }
    }
    projection := Projection(if v.cur == [] then v.blocks else v.blocks + [v.cur], v.rates);
    assert ProjectsTo(g, run, projection);
  }
}
