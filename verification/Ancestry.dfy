/** The memoised depth-first search that computes every transaction's ancestor closure. */
module Ancestry {
  import opened Wrappers
  import opened UidSums
  import opened TxGraph

  type Memo = seq<Option<seq<nat>>>

  /** Collects a hash set into a vector: each element once, in an order nobody controls. */
  method Collect(s: set<nat>) returns (xs: seq<nat>)
    ensures Lists(xs, s)
  {
    xs := [];
    var rest := s;
    while rest != {}
      invariant rest <= s && Lists(xs, s - rest)
      decreases rest
    {
      var x :| x in rest;
      ListsAppend(xs, s - rest, x);
      assert s - (rest - {x}) == (s - rest) + {x};
      xs := xs + [x];
      rest := rest - {x};
    }
    assert s - rest == s;
  }

  lemma ParentAncestry(txs: seq<GbtTx>, p: nat, d: nat)
    requires InRange(txs) && d < |txs| && p in txs[d].parents
    ensures p in Ancestors(txs, d) && Ancestors(txs, p) <= Ancestors(txs, d)
  {
    ParentIsAncestor(txs, p, d);
    AncestorsTransitive(txs, d);
  }

  /** Parents and their ancestors together are all the ancestors. */
  lemma AncestorsAreParentClosure(txs: seq<GbtTx>, d: nat, s: set<nat>)
    requires InRange(txs) && d < |txs|
    requires forall p | p in txs[d].parents :: p in s && Ancestors(txs, p) <= s
    requires s <= Ancestors(txs, d)
    ensures s == Ancestors(txs, d)
  {
    forall a | a in Ancestors(txs, d) ensures a in s {
      var p := AncestorFirstStep(txs, a, d);
      assert a == p || a in Ancestors(txs, p);
    }
  }

  /** What the filled slots hold, order aside. */
  type Closures = map<nat, set<nat>>

  ghost function Filled(memo: Memo): Closures {
    map i | i in Below(|memo|) && memo[i].Some? :: Elements(memo[i].value)
  }

  ghost function OnStack(visiting: seq<bool>): set<nat> {
    set i | i in Below(|visiting|) && visiting[i]
  }

  /** The search from uid: the set it returns and the memo it leaves. A transaction on the
      stack yields nothing, so the search ends on cyclic graphs too, and there the set depends
      on what is on the stack and in the memo; on nothing else. */
  ghost function Search(txs: seq<GbtTx>, uid: nat, memo: Closures, stack: set<nat>): (r: (set<nat>, Closures))
    requires InRange(txs) && uid < |txs|
    decreases Below(|txs|) - stack, 0
  {
    if uid in memo then (memo[uid], memo)
    else if uid in stack then ({}, memo)
    else
      assert uid in Below(|txs|) - stack && uid !in Below(|txs|) - (stack + {uid});
      var (found, memo') := SearchParents(txs, uid, |txs[uid].parents|, memo, stack + {uid});
      (found, memo'[uid := found])
  }

  /** The first k parents of uid and all the searches from them return, one after another. */
  ghost function SearchParents(txs: seq<GbtTx>, uid: nat, k: nat, memo: Closures, stack: set<nat>)
    : (r: (set<nat>, Closures))
    requires InRange(txs) && uid < |txs| && k <= |txs[uid].parents|
    decreases Below(|txs|) - stack, k
  {
    if k == 0 then ({}, memo)
    else
      var (found, memo') := SearchParents(txs, uid, k - 1, memo, stack);
      var p := txs[uid].parents[k - 1];
      assert p in txs[uid].parents;
      var (more, memo'') := Search(txs, p, memo', stack);
      (found + {p} + more, memo'')
  }

  /** Every slot holds only genuine ancestors. */
  ghost predicate Genuine(txs: seq<GbtTx>, memo: Closures) {
    forall i | i in memo :: i < |txs| && memo[i] <= Ancestors(txs, i)
  }

  ghost predicate Complete(txs: seq<GbtTx>, memo: Closures) {
    forall i | i in memo :: i < |txs| && memo[i] == Ancestors(txs, i)
  }

  ghost predicate Keeps(before: Closures, after: Closures) {
    forall i | i in before :: i in after && after[i] == before[i]
  }

  /** Every transaction on the stack has uid among its ancestors. */
  ghost predicate LeadsTo(txs: seq<GbtTx>, stack: set<nat>, uid: nat) {
    forall w | w in stack :: uid in Ancestors(txs, w)
  }

  /** On any in-range graph the search returns only genuine ancestors and never changes a
      filled slot. */
  lemma {:induction false} SearchGenuine(txs: seq<GbtTx>, uid: nat, memo: Closures, stack: set<nat>)
    requires InRange(txs) && uid < |txs| && Genuine(txs, memo)
    ensures Search(txs, uid, memo, stack).0 <= Ancestors(txs, uid)
    ensures Genuine(txs, Search(txs, uid, memo, stack).1) && Keeps(memo, Search(txs, uid, memo, stack).1)
    decreases Below(|txs|) - stack, 0
  {
    if uid !in memo && uid !in stack {
      assert uid in Below(|txs|) - stack && uid !in Below(|txs|) - (stack + {uid});
      SearchParentsGenuine(txs, uid, |txs[uid].parents|, memo, stack + {uid});
    }
  }

  lemma {:induction false} SearchParentsGenuine(txs: seq<GbtTx>, uid: nat, k: nat, memo: Closures, stack: set<nat>)
    requires InRange(txs) && uid < |txs| && k <= |txs[uid].parents| && Genuine(txs, memo)
    ensures SearchParents(txs, uid, k, memo, stack).0 <= Ancestors(txs, uid)
    ensures Genuine(txs, SearchParents(txs, uid, k, memo, stack).1)
    ensures Keeps(memo, SearchParents(txs, uid, k, memo, stack).1)
    decreases Below(|txs|) - stack, k
  {
    hide Ancestors;
    if k > 0 {
      var p := txs[uid].parents[k - 1];
      assert p in txs[uid].parents;
      SearchParentsGenuine(txs, uid, k - 1, memo, stack);
      SearchGenuine(txs, p, SearchParents(txs, uid, k - 1, memo, stack).1, stack);
      ParentAncestry(txs, p, uid);
    }
  }

  /** On an acyclic graph, from an exact memo and a stack of descendants, the search returns
      exactly the ancestors and leaves an exact memo. */
  lemma {:induction false} SearchComplete(txs: seq<GbtTx>, uid: nat, memo: Closures, stack: set<nat>)
    requires InRange(txs) && uid < |txs| && Acyclic(txs) && Complete(txs, memo) && LeadsTo(txs, stack, uid)
    ensures Search(txs, uid, memo, stack).0 == Ancestors(txs, uid)
    ensures Complete(txs, Search(txs, uid, memo, stack).1)
    decreases Below(|txs|) - stack, 0
  {
    if uid !in memo {
      assert uid !in stack;
      assert uid in Below(|txs|) - stack && uid !in Below(|txs|) - (stack + {uid});
      SearchParentsComplete(txs, uid, |txs[uid].parents|, memo, stack + {uid});
      var found := SearchParents(txs, uid, |txs[uid].parents|, memo, stack + {uid}).0;
      AncestorsAreParentClosure(txs, uid, found);
    }
  }

  /** The first k parents are in the set, with all their ancestors. */
  ghost predicate HoldsParents(txs: seq<GbtTx>, uid: nat, k: nat, found: set<nat>)
    requires uid < |txs| && k <= |txs[uid].parents|
  {
    forall j | 0 <= j < k :: txs[uid].parents[j] in found && Ancestors(txs, txs[uid].parents[j]) <= found
  }

  lemma {:induction false} SearchParentsComplete(txs: seq<GbtTx>, uid: nat, k: nat, memo: Closures, stack: set<nat>)
    requires InRange(txs) && uid < |txs| && k <= |txs[uid].parents| && Acyclic(txs) && Complete(txs, memo)
    requires uid in stack && LeadsTo(txs, stack - {uid}, uid)
    ensures HoldsParents(txs, uid, k, SearchParents(txs, uid, k, memo, stack).0)
    ensures SearchParents(txs, uid, k, memo, stack).0 <= Ancestors(txs, uid)
    ensures Complete(txs, SearchParents(txs, uid, k, memo, stack).1)
    decreases Below(|txs|) - stack, k
  {
    hide Ancestors;
    if k > 0 {
      var p := txs[uid].parents[k - 1];
      assert p in txs[uid].parents;
      SearchParentsComplete(txs, uid, k - 1, memo, stack);
      StackGrows(txs, stack, uid, p);
      SearchComplete(txs, p, SearchParents(txs, uid, k - 1, memo, stack).1, stack);
      ParentAncestry(txs, p, uid);
    }
  }

  lemma StackGrows(txs: seq<GbtTx>, stack: set<nat>, uid: nat, p: nat)
    requires InRange(txs) && uid < |txs| && p in txs[uid].parents
    requires LeadsTo(txs, stack - {uid}, uid)
    ensures LeadsTo(txs, stack, p)
  {
    ParentAncestry(txs, p, uid);
    forall w | w in stack ensures p in Ancestors(txs, w) {
      if w != uid {
        AncestorsTransitive(txs, w);
      }
    }
  }

  /** Every slot holds the parents. */
  ghost predicate HoldAllParents(txs: seq<GbtTx>, memo: Closures) {
    forall i, p | i in memo && i < |txs| && p in txs[i].parents :: p in memo[i]
  }

  /** On any in-range graph a search not cut short by the stack finds the parents at least. */
  lemma {:induction false} SearchFindsParents(txs: seq<GbtTx>, uid: nat, memo: Closures, stack: set<nat>)
    requires InRange(txs) && uid < |txs| && HoldAllParents(txs, memo)
    ensures HoldAllParents(txs, Search(txs, uid, memo, stack).1)
    ensures uid !in stack ==> forall p | p in txs[uid].parents :: p in Search(txs, uid, memo, stack).0
    decreases Below(|txs|) - stack, 0
  {
    if uid !in memo && uid !in stack {
      assert uid in Below(|txs|) - stack && uid !in Below(|txs|) - (stack + {uid});
      SearchParentsFindsParents(txs, uid, |txs[uid].parents|, memo, stack + {uid});
    }
  }

  lemma {:induction false} SearchParentsFindsParents(txs: seq<GbtTx>, uid: nat, k: nat, memo: Closures, stack: set<nat>)
    requires InRange(txs) && uid < |txs| && k <= |txs[uid].parents| && HoldAllParents(txs, memo)
    ensures HoldAllParents(txs, SearchParents(txs, uid, k, memo, stack).1)
    ensures forall j | 0 <= j < k :: txs[uid].parents[j] in SearchParents(txs, uid, k, memo, stack).0
    decreases Below(|txs|) - stack, k
  {
    if k > 0 {
      var p := txs[uid].parents[k - 1];
      assert p in txs[uid].parents;
      SearchParentsFindsParents(txs, uid, k - 1, memo, stack);
      SearchFindsParents(txs, p, SearchParents(txs, uid, k - 1, memo, stack).1, stack);
    }
  }

  /** The memo after the searches from the uids below k, one after another. */
  ghost function SearchAll(txs: seq<GbtTx>, k: nat): Closures
    requires InRange(txs) && k <= |txs|
  {
    if k == 0 then map[] else Search(txs, k - 1, SearchAll(txs, k - 1), {}).1
  }

  /** The ancestor sets the projector works with. */
  ghost function ClosuresOf(txs: seq<GbtTx>): (anc: seq<set<nat>>)
    requires InRange(txs)
    ensures |anc| == |txs|
  {
    seq(|txs|, u requires 0 <= u < |txs| => Search(txs, u, SearchAll(txs, u), {}).0)
  }

  lemma {:induction false} SearchAllGenuine(txs: seq<GbtTx>, k: nat)
    requires InRange(txs) && k <= |txs|
    ensures Genuine(txs, SearchAll(txs, k))
    ensures Acyclic(txs) ==> Complete(txs, SearchAll(txs, k))
  {
    if k > 0 {
      SearchAllGenuine(txs, k - 1);
      SearchGenuine(txs, k - 1, SearchAll(txs, k - 1), {});
      if Acyclic(txs) {
        SearchComplete(txs, k - 1, SearchAll(txs, k - 1), {});
      }
    }
  }

  lemma {:induction false} SearchAllFindsParents(txs: seq<GbtTx>, k: nat)
    requires InRange(txs) && k <= |txs|
    ensures HoldAllParents(txs, SearchAll(txs, k))
  {
    if k > 0 {
      SearchAllFindsParents(txs, k - 1);
      SearchFindsParents(txs, k - 1, SearchAll(txs, k - 1), {});
    }
  }

  /** On cyclic graphs too the parents are among the ancestors found. */
  lemma ClosuresHoldParents(txs: seq<GbtTx>, u: nat, p: nat)
    requires InRange(txs) && u < |txs| && p in txs[u].parents
    ensures p in ClosuresOf(txs)[u]
  {
    SearchAllFindsParents(txs, u);
    SearchFindsParents(txs, u, SearchAll(txs, u), {});
  }

  /** Memoised ancestors are reachability: the sets hold only genuine ancestors, and on an
      acyclic graph all of them. */
  lemma ClosuresAreAncestors(txs: seq<GbtTx>)
    requires InRange(txs)
    ensures forall u | 0 <= u < |txs| :: ClosuresOf(txs)[u] <= Ancestors(txs, u)
    ensures Acyclic(txs) ==> forall u | 0 <= u < |txs| :: ClosuresOf(txs)[u] == Ancestors(txs, u)
  {
    forall u | 0 <= u < |txs|
      ensures ClosuresOf(txs)[u] <= Ancestors(txs, u)
      ensures Acyclic(txs) ==> ClosuresOf(txs)[u] == Ancestors(txs, u)
    {
      SearchAllGenuine(txs, u);
      SearchGenuine(txs, u, SearchAll(txs, u), {});
      if Acyclic(txs) {
        SearchComplete(txs, u, SearchAll(txs, u), {});
      }
    }
  }

  /** No filled slot lists a transaction twice. */
  ghost predicate NoRepeats(memo: Memo) {
    forall i | 0 <= i < |memo| && memo[i].Some? :: Lists(memo[i].value, Elements(memo[i].value))
  }

  lemma FillSlot(memo: Memo, uid: nat, v: seq<nat>, s: set<nat>)
    requires uid < |memo| && NoRepeats(memo) && Lists(v, s)
    ensures NoRepeats(memo[uid := Some(v)]) && Filled(memo[uid := Some(v)]) == Filled(memo)[uid := s]
  {
    ListsElements(v, s);
  }

  lemma Pushed(visiting: seq<bool>, uid: nat)
    requires uid < |visiting| && !visiting[uid]
    ensures OnStack(visiting[uid := true]) == OnStack(visiting) + {uid}
  {
  }

  /** Returns the ancestor closure of uid as a vector, whose order hangs on how a hash set is
      walked; the set, the memo and the restored recursion stack do not. On any in-range graph,
      cyclic or not, it terminates. */
  method BuildAncestors(uid: nat, txs: seq<GbtTx>, memo: array<Option<seq<nat>>>, visiting: array<bool>)
    returns (v: seq<nat>)
    requires InRange(txs) && uid < |txs| == memo.Length == visiting.Length
    requires memo as object != visiting
    requires NoRepeats(memo[..])
    modifies memo, visiting
    ensures visiting[..] == old(visiting[..])
    ensures NoRepeats(memo[..])
    ensures var (found, filled) := Search(txs, uid, old(Filled(memo[..])), old(OnStack(visiting[..])));
            Lists(v, found) && Filled(memo[..]) == filled
    decreases Below(|txs|) - OnStack(visiting[..])
  {
    hide NoRepeats, Filled, OnStack;
    ghost var was, stack := Filled(memo[..]), OnStack(visiting[..]);
    SlotFilled(memo[..], uid);
    Stacked(visiting[..], uid);
    if memo[uid].Some? {
      return memo[uid].value;
    }
    if visiting[uid] {
      return [];
    }
    ghost var before := visiting[..];
    Pushed(before, uid);
    visiting[uid] := true;
    ghost var during := before[uid := true];
    assert visiting[..] == during;
    assert uid in Below(|txs|) - stack && uid !in Below(|txs|) - (stack + {uid});
    var found: set<nat> := {};
    var parents := txs[uid].parents;
    for j := 0 to |parents|
      invariant visiting[..] == during && NoRepeats(memo[..])
      invariant (found, Filled(memo[..])) == SearchParents(txs, uid, j, was, stack + {uid})
    {
      var p := parents[j];
      assert p in txs[uid].parents;
      var more := BuildAncestors(p, txs, memo, visiting);
      ListsElements(more, Search(txs, p, SearchParents(txs, uid, j, was, stack + {uid}).1, stack + {uid}).0);
      found := found + {p} + (set a | a in more);
    }
    visiting[uid] := false;
    assert visiting[..] == before;
    v := Collect(found);
    FillSlot(memo[..], uid, v, found);
    ghost var full := memo[..];
    memo[uid] := Some(v);
    assert memo[..] == full[uid := Some(v)];
  }

  lemma SlotFilled(memo: Memo, uid: nat)
    requires uid < |memo| && NoRepeats(memo)
    ensures uid in Filled(memo) <==> memo[uid].Some?
    ensures memo[uid].Some? ==> Lists(memo[uid].value, Filled(memo)[uid])
  {
  }

  lemma Stacked(visiting: seq<bool>, uid: nat)
    requires uid < |visiting|
    ensures uid in OnStack(visiting) <==> visiting[uid]
  {
  }

  /** The ancestor closures of the whole input, one search after another sharing a memo. */
  method BuildAllAncestors(txs: seq<GbtTx>) returns (ancestors: seq<seq<nat>>)
    requires InRange(txs)
    ensures |ancestors| == |txs|
    ensures forall u | 0 <= u < |txs| :: Lists(ancestors[u], ClosuresOf(txs)[u])
  {
    hide Filled, OnStack, Search;
    var memo := new Option<seq<nat>>[|txs|](_ => None);
    var visiting := new bool[|txs|](_ => false);
    ancestors := [];
    NothingYet(memo[..], visiting[..]);
    for uid := 0 to |txs|
      invariant |ancestors| == uid
      invariant OnStack(visiting[..]) == {}
      invariant NoRepeats(memo[..]) && Filled(memo[..]) == SearchAll(txs, uid)
      invariant forall u | 0 <= u < uid :: Lists(ancestors[u], ClosuresOf(txs)[u])
    {
      var v := BuildAncestors(uid, txs, memo, visiting);
      ancestors := ancestors + [v];
    }
  }

  lemma NothingYet(memo: Memo, visiting: seq<bool>)
    requires forall i | 0 <= i < |memo| :: memo[i].None?
    requires forall i | 0 <= i < |visiting| :: !visiting[i]
    ensures Filled(memo) == map[] && OnStack(visiting) == {} && NoRepeats(memo)
  {
  }
}
