/** Sums of a per-uid quantity over a set of uids.

    Uids are the dense indices 0..n of the projector's input, so a sum over a set is a
    scan over the indices that skips those outside the set; no order is involved. */
module UidSums {

  /** The sum of f[i] over the indices i below k that lie in s. */
  ghost function SumTo(f: seq<nat>, s: set<nat>, k: nat): nat
    requires k <= |f|
  {
    if k == 0 then 0 else SumTo(f, s, k - 1) + (if k - 1 in s then f[k - 1] else 0)
  }

  ghost function Sum(f: seq<nat>, s: set<nat>): nat {
    SumTo(f, s, |f|)
  }

  /** The uids 0..n. */
  function Below(n: nat): (all: set<nat>)
    ensures forall i: nat :: i in all <==> i < n
  {
    if n == 0 then {} else Below(n - 1) + {n - 1}
  }

  lemma {:induction false} BelowSize(n: nat)
    ensures |Below(n)| == n
  {
    if n == 0 {
      assert Below(0) == {};
    } else {
      BelowSize(n - 1);
      assert Below(n) == Below(n - 1) + {n - 1};
    }
  }

  lemma {:induction false} SumToUnion(f: seq<nat>, s: set<nat>, t: set<nat>, k: nat)
    requires k <= |f| && s !! t
    ensures SumTo(f, s + t, k) == SumTo(f, s, k) + SumTo(f, t, k)
  {
    if k > 0 {
      SumToUnion(f, s, t, k - 1);
    }
  }

  lemma SumUnion(f: seq<nat>, s: set<nat>, t: set<nat>)
    requires s !! t
    ensures Sum(f, s + t) == Sum(f, s) + Sum(f, t)
  {
    SumToUnion(f, s, t, |f|);
  }

  lemma SumSubset(f: seq<nat>, s: set<nat>, t: set<nat>)
    requires s <= t
    ensures Sum(f, s) <= Sum(f, t)
    ensures Sum(f, t) == Sum(f, s) + Sum(f, t - s)
  {
    assert t == s + (t - s);
    SumUnion(f, s, t - s);
  }

  lemma {:induction false} SumToSingle(f: seq<nat>, x: nat, k: nat)
    requires k <= |f|
    ensures SumTo(f, {x}, k) == if x < k then f[x] else 0
  {
    if k > 0 {
      SumToSingle(f, x, k - 1);
    }
  }

  lemma SumSingle(f: seq<nat>, x: nat)
    requires x < |f|
    ensures Sum(f, {x}) == f[x]
  {
    SumToSingle(f, x, |f|);
  }

  lemma SumAdd(f: seq<nat>, s: set<nat>, x: nat)
    requires x < |f| && x !in s
    ensures Sum(f, s + {x}) == Sum(f, s) + f[x]
  {
    SumUnion(f, s, {x});
    SumSingle(f, x);
  }

  lemma {:induction false} SumToEmpty(f: seq<nat>, k: nat)
    requires k <= |f|
    ensures SumTo(f, {}, k) == 0
  {
    if k > 0 {
      SumToEmpty(f, k - 1);
    }
  }

  lemma SumEmpty(f: seq<nat>)
    ensures Sum(f, {}) == 0
  {
    SumToEmpty(f, |f|);
  }

  /** The sum of f over a sequence of uids, in sequence order, as the projector computes it. */
  ghost function SumSeq(f: seq<nat>, xs: seq<nat>): nat
    requires forall i | 0 <= i < |xs| :: xs[i] < |f|
  {
    if xs == [] then 0 else SumSeq(f, xs[..|xs| - 1]) + f[xs[|xs| - 1]]
  }

  /** xs lists the elements of s, each exactly once, in some order. */
  ghost predicate Lists<T>(xs: seq<T>, s: set<T>) {
    && (forall i, j | 0 <= i < j < |xs| :: xs[i] != xs[j])
    && (forall x | x in xs :: x in s)
    && (forall x | x in s :: x in xs)
  }

  ghost function Elements<T>(xs: seq<T>): set<T> {
    set x | x in xs
  }

  lemma ListsElements<T>(xs: seq<T>, s: set<T>)
    requires Lists(xs, s)
    ensures Elements(xs) == s
  {
  }

  lemma ListsDropLast<T>(xs: seq<T>, s: set<T>)
    requires Lists(xs, s) && xs != []
    ensures xs[|xs| - 1] in s
    ensures Lists(xs[..|xs| - 1], s - {xs[|xs| - 1]})
  {
    var n := |xs| - 1;
    forall x | x in s - {xs[n]} ensures x in xs[..n] {
      var i :| 0 <= i < |xs| && xs[i] == x;
      assert xs[..n][i] == x;
    }
  }

  lemma ListsAppend<T>(xs: seq<T>, s: set<T>, x: T)
    requires Lists(xs, s) && x !in s
    ensures Lists(xs + [x], s + {x})
  {
    forall y | y in s + {x} ensures y in xs + [x] {
      if y in s {
        var i :| 0 <= i < |xs| && xs[i] == y;
        assert (xs + [x])[i] == y;
      } else {
        assert (xs + [x])[|xs|] == y;
      }
    }
  }

  lemma {:induction false} ListsSize<T>(xs: seq<T>, s: set<T>)
    requires Lists(xs, s)
    ensures |xs| == |s|
  {
    if xs == [] {
      assert s == {};
    } else {
      ListsDropLast(xs, s);
      ListsSize(xs[..|xs| - 1], s - {xs[|xs| - 1]});
    }
  }

  lemma {:induction false} SumSeqIsSum(f: seq<nat>, xs: seq<nat>, s: set<nat>)
    requires Lists(xs, s)
    requires forall x | x in s :: x < |f|
    ensures forall i | 0 <= i < |xs| :: xs[i] < |f|
    ensures SumSeq(f, xs) == Sum(f, s)
  {
    if xs == [] {
      assert s == {};
      SumEmpty(f);
    } else {
      var x := xs[|xs| - 1];
      ListsDropLast(xs, s);
      SumSeqIsSum(f, xs[..|xs| - 1], s - {x});
      assert s == (s - {x}) + {x};
      SumAdd(f, s - {x}, x);
    }
  }
}
