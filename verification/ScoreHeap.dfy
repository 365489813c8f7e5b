/** The projector's priority queue: entries ordered by score, and a max-heap of them. */
module ScoreHeap {
  import opened Wrappers

  datatype HeapItem = HeapItem(score: real, order: nat, uid: nat)

  /** The order of heap entries: higher score first, then smaller order, then smaller uid. */
  predicate Higher(a: HeapItem, b: HeapItem) {
    || a.score > b.score
    || (a.score == b.score && a.order < b.order)
    || (a.score == b.score && a.order == b.order && a.uid < b.uid)
  }

  /** No two distinct entries tie, so the highest entry of a heap is unique. */
  lemma HigherIsStrictTotal(a: HeapItem, b: HeapItem)
    ensures !(Higher(a, b) && Higher(b, a))
    ensures a != b ==> Higher(a, b) || Higher(b, a)
  {
  }

  ghost predicate IsTop(heap: multiset<HeapItem>, top: HeapItem) {
    top in heap && forall x | x in heap :: !Higher(x, top)
  }

  lemma {:induction false} TopExists(heap: multiset<HeapItem>)
    requires heap != multiset{}
    ensures exists top :: IsTop(heap, top)
    decreases |heap|
  {
    var top :| top in heap;
    var rest := heap - multiset{top};
    assert heap == rest + multiset{top};
    if rest != multiset{} {
      TopExists(rest);
      var best :| IsTop(rest, best);
      if Higher(best, top) {
        assert IsTop(heap, best);
        return;
      }
    }
    assert IsTop(heap, top);
  }

  lemma TopUnique(heap: multiset<HeapItem>, a: HeapItem, b: HeapItem)
    requires IsTop(heap, a) && IsTop(heap, b)
    ensures a == b
  {
    HigherIsStrictTotal(a, b);
  }

  ghost function Top(heap: multiset<HeapItem>): (top: HeapItem)
    requires heap != multiset{}
    ensures IsTop(heap, top)
  {
    TopExists(heap);
    var top :| IsTop(heap, top);
    top
  }

  predicate IsChild(k: int, p: int) {
    k == 2 * p + 1 || k == 2 * p + 2
  }

  /** No entry is higher than its parent. */
  ghost predicate HeapOrdered(items: seq<HeapItem>) {
    forall p, k | 0 <= p < k < |items| && IsChild(k, p) :: !Higher(items[k], items[p])
  }

  lemma {:induction false} RootIsHighest(items: seq<HeapItem>, k: nat)
    requires HeapOrdered(items) && k < |items|
    ensures !Higher(items[k], items[0])
  {
    if k > 0 {
      assert IsChild(k, (k - 1) / 2);
      RootIsHighest(items, (k - 1) / 2);
    }
  }

  function Swap(items: seq<HeapItem>, i: nat, j: nat): (swapped: seq<HeapItem>)
    requires i < j < |items|
    ensures multiset(swapped) == multiset(items)
  {
    items[i := items[j]][j := items[i]]
  }

  /** Ordered everywhere except possibly between i and its parent. */
  ghost predicate OrderedAbove(items: seq<HeapItem>, i: int) {
    && 0 <= i < |items|
    && (forall p, k | 0 <= p < k < |items| && IsChild(k, p) && k != i :: !Higher(items[k], items[p]))
    && (forall p, k | 0 <= p < i < k < |items| && IsChild(i, p) && IsChild(k, i) :: !Higher(items[k], items[p]))
  }

  /** Ordered everywhere except possibly between i and its children. */
  ghost predicate OrderedBelow(items: seq<HeapItem>, i: int) {
    && 0 <= i < |items|
    && (forall p, k | 0 <= p < k < |items| && IsChild(k, p) && p != i :: !Higher(items[k], items[p]))
    && (forall p, k | 0 <= p < i < k < |items| && IsChild(i, p) && IsChild(k, i) :: !Higher(items[k], items[p]))
  }

  lemma SiftUpStep(items: seq<HeapItem>, p: nat, i: nat)
    requires OrderedAbove(items, i) && IsChild(i, p) && Higher(items[i], items[p])
    ensures OrderedAbove(Swap(items, p, i), p)
  {
  }

  lemma SiftDownStep(items: seq<HeapItem>, i: nat, c: nat)
    requires OrderedBelow(items, i) && c < |items| && IsChild(c, i) && Higher(items[c], items[i])
    requires forall k | i < k < |items| && IsChild(k, i) :: !Higher(items[k], items[c])
    ensures OrderedBelow(Swap(items, i, c), c)
  {
  }

  /** The last entry moved over the root, one entry fewer. */
  function DropRoot(items: seq<HeapItem>): (rest: seq<HeapItem>)
    requires items != []
    ensures multiset(rest) == multiset(items) - multiset{items[0]}
  {
    var n := |items| - 1;
    if n == 0 then
      assert items == [items[0]];
      []
    else
      assert items == [items[0]] + items[1..n] + [items[n]];
      [items[n]] + items[1..n]
  }

  lemma DropRootOrdered(items: seq<HeapItem>)
    requires HeapOrdered(items) && |items| > 1
    ensures OrderedBelow(DropRoot(items), 0)
  {
    var rest := DropRoot(items);
    forall p, k | 0 <= p < k < |rest| && IsChild(k, p) && p != 0
      ensures !Higher(rest[k], rest[p])
    {
      assert rest[k] == items[k] && rest[p] == items[p];
    }
  }

  /** A max-heap kept in an implicit binary tree. */
  class BinaryHeap {
    var items: seq<HeapItem>

    ghost predicate Valid()
      reads this
    {
      HeapOrdered(items)
    }

    ghost function Contents(): multiset<HeapItem>
      reads this
    {
      multiset(items)
    }

    constructor ()
      ensures Valid() && Contents() == multiset{}
    {
      items := [];
    }

    method IsEmpty() returns (empty: bool)
      requires Valid()
      ensures empty <==> Contents() == multiset{}
    {
      empty := |items| == 0;
      assert |items| > 0 ==> items[0] in Contents();
    }

    method Push(x: HeapItem)
      requires Valid()
      modifies this
      ensures Valid() && Contents() == old(Contents()) + multiset{x}
    {
      items := items + [x];
      var i := |items| - 1;
      while i > 0 && Higher(items[i], items[(i - 1) / 2])
        invariant OrderedAbove(items, i)
        invariant Contents() == old(Contents()) + multiset{x}
        decreases i
      {
        var p := (i - 1) / 2;
        SiftUpStep(items, p, i);
        items := Swap(items, p, i);
        i := p;
      }
    }

    method Pop() returns (top: Option<HeapItem>)
      requires Valid()
      modifies this
      ensures Valid()
      ensures top.None? <==> old(Contents()) == multiset{}
      ensures top.None? ==> Contents() == old(Contents())
      ensures top.Some? ==> IsTop(old(Contents()), top.value)
      ensures top.Some? ==> Contents() == old(Contents()) - multiset{top.value}
    {
      if |items| == 0 {
        return None;
      }
      TopIsFirst();
      top := Some(items[0]);
      if |items| == 1 {
        items := DropRoot(items);
        return;
      }
      DropRootOrdered(items);
      items := DropRoot(items);
      SiftDown();
    }

    lemma TopIsFirst()
      requires Valid() && items != []
      ensures IsTop(Contents(), items[0])
    {
      forall x | x in Contents() ensures !Higher(x, items[0]) {
        var k :| 0 <= k < |items| && items[k] == x;
        RootIsHighest(items, k);
      }
    }

    method SiftDown()
      requires OrderedBelow(items, 0)
      modifies this
      ensures Valid() && Contents() == old(Contents())
    {
      var i := 0;
      while 2 * i + 1 < |items|
        invariant OrderedBelow(items, i)
        invariant Contents() == old(Contents())
        decreases |items| - i
      {
        var c := 2 * i + 1;
        if c + 1 < |items| && Higher(items[c + 1], items[c]) {
          c := c + 1;
        }
        if !Higher(items[c], items[i]) {
          break;
        }
        SiftDownStep(items, i, c);
        items := Swap(items, i, c);
        i := c;
      }
    }
  }
}
