/** What the projector computes: one iteration of its packing loop as a function of the
    loop state, and the whole run as the iteration repeated until the heap is empty.

    The imperative projector (module Projector) is proved to compute exactly this run;
    everything the repository promises about a projection is proved about it. */
module Packing {
  import opened UidSums
  import opened TxGraph
  import opened ScoreHeap

  /** Scores closer than this count as unchanged. */
  const TOLERANCE: real := 0.000000001
  /** Consecutive packages that may fail to fit before a block is declared full. */
  const FAILURE_LIMIT: nat := 1000

  /** The input of one run: transactions, their ancestor closures and the block limits.
      alwaysDrain is false for the repository's loop; true gives the variant that also
      looks for a drained heap after skipping the entry of an already placed transaction. */
  datatype Input = Input(txs: seq<GbtTx>, anc: seq<set<nat>>,
                         maxBlocks: nat, limit: nat, reserved: nat, alwaysDrain: bool)
  {
    ghost function All(): set<nat> { Below(|txs|) }

    ghost function Weights(): (w: seq<nat>)
      ensures |w| == |txs| && forall i | 0 <= i < |txs| :: w[i] == txs[i].weight
    {
      seq(|txs|, i requires 0 <= i < |txs| => txs[i].weight)
    }

    ghost function Fees(): (f: seq<nat>)
      ensures |f| == |txs| && forall i | 0 <= i < |txs| :: f[i] == txs[i].fee
    {
      seq(|txs|, i requires 0 <= i < |txs| => txs[i].fee)
    }

    ghost predicate Valid() {
      && InRange(txs)
      && |anc| == |txs|
      && forall u | 0 <= u < |txs| :: anc[u] <= All()
    }

    /** Every ancestor set holds only genuine ancestors; on cyclic graphs some may be missing. */
    ghost predicate Genuine() {
      && Valid()
      && forall u | 0 <= u < |txs| :: anc[u] <= Ancestors(txs, u)
    }

    /** The parent graph is acyclic and anc holds its exact ancestor closures. */
    ghost predicate Exact() {
      && Valid()
      && Acyclic(txs)
      && forall u | 0 <= u < |txs| :: anc[u] == Ancestors(txs, u)
    }
  }

  /** The variables of the packing loop. */
  datatype State = State(used: set<nat>, heap: multiset<HeapItem>, blocks: seq<seq<nat>>,
                         cur: seq<nat>, weight: nat, overflow: seq<nat>, failures: nat,
                         rates: map<nat, real>)

  datatype Projection = Projection(blocks: seq<seq<nat>>, rates: map<nat, real>)

  /** Fee rate in sat/vB: four weight units make one virtual byte. */
  function Rate(fee: nat, weight: nat): real {
    if weight == 0 then 0.0 else 4.0 * fee as real / weight as real
  }

  function Min(x: real, y: real): real {
    if x <= y then x else y
  }

  predicate Differs(x: real, y: real) {
    x - y > TOLERANCE || y - x > TOLERANCE
  }

  /** The members of u's package that are not placed yet, u itself left aside. */
  ghost function Missing(g: Input, u: nat, used: set<nat>): set<nat>
    requires g.Valid() && u < |g.txs|
  {
    g.anc[u] - used
  }

  ghost function PackageWeight(g: Input, u: nat, used: set<nat>): nat
    requires g.Valid() && u < |g.txs|
  {
    Sum(g.Weights(), Missing(g, u, used)) + g.txs[u].weight
  }

  ghost function PackageFee(g: Input, u: nat, used: set<nat>): nat
    requires g.Valid() && u < |g.txs|
  {
    Sum(g.Fees(), Missing(g, u, used)) + g.txs[u].fee
  }

  ghost function PackageRate(g: Input, u: nat, used: set<nat>): real
    requires g.Valid() && u < |g.txs|
  {
    Rate(PackageFee(g, u, used), PackageWeight(g, u, used))
  }

  function OwnRate(g: Input, u: nat): real
    requires u < |g.txs|
  {
    Rate(g.txs[u].fee, g.txs[u].weight)
  }

  /** The score by which packages compete: own rate or package rate, whichever is lower. */
  ghost function Score(g: Input, u: nat, used: set<nat>): real
    requires g.Valid() && u < |g.txs|
  {
    Min(OwnRate(g, u), PackageRate(g, u, used))
  }

  ghost function Entry(g: Input, u: nat, used: set<nat>): (e: HeapItem)
    requires g.Valid() && u < |g.txs|
  {
    HeapItem(Score(g, u, used), g.txs[u].order, u)
  }

  /** Roots first: fewer ancestors, then smaller order, then smaller uid. */
  ghost predicate Before(g: Input, a: nat, b: nat)
    requires g.Valid() && a < |g.txs| && b < |g.txs|
  {
    || |g.anc[a]| < |g.anc[b]|
    || (|g.anc[a]| == |g.anc[b]| && g.txs[a].order < g.txs[b].order)
    || (|g.anc[a]| == |g.anc[b]| && g.txs[a].order == g.txs[b].order && a < b)
  }

  ghost function First(g: Input, s: set<nat>): (m: nat)
    requires g.Valid() && s <= g.All() && s != {}
    ensures m in s && forall x | x in s && x != m :: Before(g, m, x)
    decreases s
  {
    var x :| x in s;
    if s == {x} then x else
      assert x !in s - {x} && s - {x} != {} && s == (s - {x}) + {x};
      var m := First(g, s - {x});
      if Before(g, x, m) then x else m
  }

  /** The set in the package order, which leaves nothing to chance: it is a total order. */
  ghost function InOrder(g: Input, s: set<nat>): (xs: seq<nat>)
    requires g.Valid() && s <= g.All()
    decreases s
  {
    if s == {} then [] else [First(g, s)] + InOrder(g, s - {First(g, s)})
  }

  ghost function Package(g: Input, u: nat, used: set<nat>): seq<nat>
    requires g.Valid() && u < |g.txs|
  {
    InOrder(g, Missing(g, u, used)) + [u]
  }

  /** The transactions below any member of s along child edges. */
  ghost function Descendants(txs: seq<GbtTx>, s: set<nat>): set<nat> {
    set d | d in Below(|txs|) && DescendsFrom(txs, d, s)
  }

  ghost predicate DescendsFrom(txs: seq<GbtTx>, d: nat, s: set<nat>) {
    exists m | m in s :: IsAncestor(txs, m, d)
  }

  /** One entry with its exact score for each uid below k in s. */
  ghost function EntriesBelow(g: Input, s: set<nat>, used: set<nat>, k: nat): multiset<HeapItem>
    requires g.Valid() && k <= |g.txs|
  {
    if k == 0 then multiset{}
    else EntriesBelow(g, s, used, k - 1) + (if k - 1 in s then multiset{Entry(g, k - 1, used)} else multiset{})
  }

  ghost function FreshEntries(g: Input, s: set<nat>, used: set<nat>): multiset<HeapItem>
    requires g.Valid()
  {
    EntriesBelow(g, s, used, |g.txs|)
  }

  lemma {:induction false} EntriesBelowMember(g: Input, s: set<nat>, used: set<nat>, k: nat, e: HeapItem)
    requires g.Valid() && k <= |g.txs|
    ensures e in EntriesBelow(g, s, used, k) <==> e.uid < k && e.uid in s && e == Entry(g, e.uid, used)
  {
    if k > 0 {
      EntriesBelowMember(g, s, used, k - 1, e);
    }
  }

  lemma {:induction false} NoEntries(g: Input, used: set<nat>, k: nat)
    requires g.Valid() && k <= |g.txs|
    ensures EntriesBelow(g, {}, used, k) == multiset{}
  {
    if k > 0 {
      NoEntries(g, used, k - 1);
    }
  }

  lemma FreshEntriesUids(g: Input, s: set<nat>, used: set<nat>)
    requires g.Valid()
    ensures forall e | e in FreshEntries(g, s, used) :: e.uid < |g.txs|
  {
    forall e | e in FreshEntries(g, s, used) ensures e.uid < |g.txs| {
      EntriesBelowMember(g, s, used, |g.txs|, e);
    }
  }

  lemma {:induction false} EntriesBelowAdd(g: Input, s: set<nat>, used: set<nat>, d: nat, k: nat)
    requires g.Valid() && k <= |g.txs| && d < |g.txs| && d !in s
    ensures EntriesBelow(g, s + {d}, used, k)
         == EntriesBelow(g, s, used, k) + (if d < k then multiset{Entry(g, d, used)} else multiset{})
  {
    hide Entry;
    if k > 0 {
      EntriesBelowAdd(g, s, used, d, k - 1);
      if k - 1 == d {
        assert EntriesBelow(g, s + {d}, used, k - 1) == EntriesBelow(g, s, used, k - 1);
      } else {
        assert k - 1 in s + {d} <==> k - 1 in s;
      }
    }
  }

  ghost function EntriesOf(g: Input, xs: seq<nat>, used: set<nat>): (items: seq<HeapItem>)
    requires g.Valid() && forall i | 0 <= i < |xs| :: xs[i] < |g.txs|
    ensures |items| == |xs| && forall i | 0 <= i < |xs| :: items[i] == Entry(g, xs[i], used)
  {
    seq(|xs|, i requires 0 <= i < |xs| => Entry(g, xs[i], used))
  }

  lemma EntriesUids(g: Input, xs: seq<nat>, used: set<nat>)
    requires g.Valid() && forall i | 0 <= i < |xs| :: xs[i] < |g.txs|
    ensures forall e: HeapItem | e in multiset(EntriesOf(g, xs, used)) :: e.uid < |g.txs|
  {
    var items := EntriesOf(g, xs, used);
    forall e: HeapItem | e in multiset(items) ensures e.uid < |g.txs| {
      var i :| 0 <= i < |items| && items[i] == e;
    }
  }

  ghost predicate WellFormed(g: Input, s: State)
    requires g.Valid()
  {
    && s.used <= g.All()
    && (forall e | e in s.heap :: e.uid < |g.txs|)
    && (forall i | 0 <= i < |s.overflow| :: s.overflow[i] < |g.txs|)
  }

  /** Blocks before the last one allowed are weight-limited. */
  predicate Bounded(g: Input, blocks: seq<seq<nat>>) {
    |blocks| + 1 < g.maxBlocks
  }

  /** u's package goes into the current block: it fits, or the block is empty or unlimited. */
  ghost predicate Fits(g: Input, s: State, u: nat)
    requires g.Valid() && u < |g.txs|
  {
    Bounded(g, s.blocks) && s.cur != [] ==> s.weight + PackageWeight(g, u, s.used) <= g.limit
  }

  ghost function UsedWith(g: Input, u: nat, used: set<nat>): set<nat>
    requires g.Valid() && u < |g.txs|
  {
    used + Missing(g, u, used) + {u}
  }

  ghost function Uniform(members: set<nat>, rate: real): map<nat, real> {
    map m | m in members :: rate
  }

  ghost function RatesWith(g: Input, u: nat, s: State): map<nat, real>
    requires g.Valid() && u < |g.txs|
  {
    s.rates + Uniform(Missing(g, u, s.used) + {u}, PackageRate(g, u, s.used))
  }

  ghost function Place(g: Input, s: State, u: nat): State
    requires g.Valid() && WellFormed(g, s) && u < |g.txs|
  {
    var used := UsedWith(g, u, s.used);
    s.(used := used,
       heap := s.heap + FreshEntries(g, Descendants(g.txs, Missing(g, u, s.used) + {u}) - used, used),
       cur := s.cur + Package(g, u, s.used),
       weight := s.weight + PackageWeight(g, u, s.used),
       failures := 0,
       rates := RatesWith(g, u, s))
  }

  ghost function Defer(s: State, u: nat): State {
    s.(overflow := s.overflow + [u], failures := s.failures + 1)
  }

  lemma PlaceOk(g: Input, s: State, u: nat)
    requires g.Valid() && WellFormed(g, s) && u < |g.txs|
    ensures WellFormed(g, Place(g, s, u))
  {
    var used := UsedWith(g, u, s.used);
    FreshEntriesUids(g, Descendants(g.txs, Missing(g, u, s.used) + {u}) - used, used);
  }

  /** Closes the current block when it is effectively full or the heap is drained, and
      gives the deferred transactions a fresh chance. */
  ghost function Close(g: Input, s: State): (t: State)
    requires g.Valid() && WellFormed(g, s)
    ensures WellFormed(g, t)
  {
    if Closes(g, s) then
      EntriesUids(g, s.overflow, s.used);
      s.(heap := s.heap + multiset(EntriesOf(g, s.overflow, s.used)),
         blocks := s.blocks + [s.cur], cur := [], weight := g.reserved, overflow := [], failures := 0)
    else s
  }

  ghost predicate Closes(g: Input, s: State) {
    Bounded(g, s.blocks) && (s.failures > FAILURE_LIMIT || s.heap == multiset{}) && s.cur != []
  }

  /** What one iteration does with the popped entry. */
  datatype Action = Skip | Rescore | Postpone | Take

  ghost function Popped(s: State): HeapItem
    requires s.heap != multiset{}
  {
    Top(s.heap)
  }

  ghost function ActionOf(g: Input, s: State): Action
    requires g.Valid() && WellFormed(g, s) && s.heap != multiset{}
  {
    var u := Popped(s).uid;
    if u in s.used then Skip
    else if Differs(Score(g, u, s.used), Popped(s).score) then Rescore
    else if Fits(g, s, u) then Take
    else Postpone
  }

  ghost function AfterPop(s: State): State
    requires s.heap != multiset{}
  {
    s.(heap := s.heap - multiset{Popped(s)})
  }

  /** The state after the popped entry is dealt with, before the block is considered for closing. */
  ghost function Acted(g: Input, s: State): (t: State)
    requires g.Valid() && WellFormed(g, s) && s.heap != multiset{}
    ensures WellFormed(g, t)
  {
    assert Popped(s) in s.heap;
    var u := Popped(s).uid;
    var t := AfterPop(s);
    match ActionOf(g, s)
    case Skip => t
    case Rescore => t.(heap := t.heap + multiset{Entry(g, u, s.used)})
    case Postpone => Defer(t, u)
    case Take => PlaceOk(g, t, u); Place(g, t, u)
  }

  /** Only a taken package changes what is placed. */
  lemma ActedCases(g: Input, s: State)
    requires g.Valid() && WellFormed(g, s) && s.heap != multiset{}
    ensures Popped(s).uid < |g.txs|
    ensures ActionOf(g, s).Take? ==> Acted(g, s) == Place(g, AfterPop(s), Popped(s).uid)
    ensures !ActionOf(g, s).Take? ==>
              && Acted(g, s).used == s.used && Acted(g, s).rates == s.rates
              && Acted(g, s).blocks == s.blocks && Acted(g, s).cur == s.cur && Acted(g, s).weight == s.weight
  {
    assert Popped(s) in s.heap;
  }

  ghost predicate ConsidersClosing(g: Input, a: Action) {
    a.Postpone? || a.Take? || (a.Skip? && g.alwaysDrain)
  }

  ghost function Step(g: Input, s: State): (t: State)
    requires g.Valid() && WellFormed(g, s) && s.heap != multiset{}
    ensures WellFormed(g, t)
  {
    if ConsidersClosing(g, ActionOf(g, s)) then Close(g, Acted(g, s)) else Acted(g, s)
  }

  /** The loop's initial state: every transaction has an entry, nothing is placed. */
  ghost function Start(g: Input): (s: State)
    requires g.Valid()
    ensures WellFormed(g, s)
  {
    FreshEntriesUids(g, g.All(), {});
    State({}, FreshEntries(g, g.All(), {}), [], [], g.reserved, [], 0, map[])
  }
}
