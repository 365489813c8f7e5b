/** The simulated node: a mempool of linear transaction chains, updated in place. */
module MockNode {
  import opened Limits
  import opened Wrappers
  import opened Txids
  import opened UidSums
  import opened PackageIndex
  import opened PackageOps
  import opened PackageConfirm

  const BLOCK_WEIGHT: nat := MAX_BLOCK_WEIGHT

  /** Draws made when picking a parent. */
  const SAMPLES: nat := 8

  /** The randomness behind one arrival: a fresh id, a size, a fee rate, whether it tries to
      attach to an existing transaction, and the draws that pick which. */
  datatype Arrival = Arrival(txid: Txid, vsize: nat, satVb: nat, attach: bool, draws: seq<nat>)
  {
    predicate Valid() { vsize >= 1 && |draws| == SAMPLES }
  }

  /** The ids of the first n arrivals. */
  ghost function ArrivalIds(arrivals: seq<Arrival>, n: nat): set<Txid>
    requires n <= |arrivals|
  {
    set i | 0 <= i < n :: arrivals[i].txid
  }

  ghost predicate FreshArrivals(txs: Pool, arrivals: seq<Arrival>) {
    && (forall i | 0 <= i < |arrivals| :: arrivals[i].txid !in txs && arrivals[i].Valid())
    && (forall i, j | 0 <= i < j < |arrivals| :: arrivals[i].txid != arrivals[j].txid)
  }

  /** A whole number of satoshi per virtual byte, capped at the largest 64-bit number. */
  ghost predicate PaysRate(base: nat, vsize: nat, satVb: nat)
    requires vsize >= 1
  {
    if satVb * vsize > 0xFFFF_FFFF_FFFF_FFFF then base == 0xFFFF_FFFF_FFFF_FFFF
    else base % vsize == 0 && base / vsize == satVb
  }

  lemma BaseFeePaysRate(satVb: nat, vsize: nat)
    requires vsize >= 1
    ensures PaysRate(BaseFee(satVb, vsize), vsize, satVb)
  {
    if satVb * vsize <= 0xFFFF_FFFF_FFFF_FFFF {
      ProductDivides(satVb, vsize);
    }
  }

  lemma ProductDivides(n: nat, d: nat)
    requires d >= 1
    ensures (n * d) % d == 0 && (n * d) / d == n
  {
    var q, r := (n * d) / d, (n * d) % d;
    assert n * d == q * d + r;
    assert (n - q) * d == r;
    assert n - q >= 1 ==> (n - q) * d >= d;
    assert n - q <= -1 ==> (n - q) * d <= 0 - d;
  }

  /** The entry is the arrival's: its size, four weight units a virtual byte, and its own rate if it
      stands alone or the given one below a parent. */
  ghost predicate IsArrival(e: Entry, a: Arrival, maxSatVb: nat) {
    && e.vsize == a.vsize && e.weight == Some(4 * a.vsize) && |e.depends| <= 1
    && a.vsize >= 1 && PaysRate(e.base, a.vsize, if e.depends == [] then a.satVb else maxSatVb)
  }

  function ArrivedAlone(a: Arrival): Shape {
    Shape(a.vsize, Some(4 * a.vsize), [], BaseFee(a.satVb, a.vsize))
  }

  /** Children pay the highest configured rate. */
  function ArrivedBelow(a: Arrival, parent: Txid, maxSatVb: nat): Shape {
    Shape(a.vsize, Some(4 * a.vsize), [parent], BaseFee(maxSatVb, a.vsize))
  }

  ghost predicate ArrivesAs(txs: Pool, a: Arrival, maxSatVb: nat) {
    && a.txid in txs && IsArrival(txs[a.txid], a, maxSatVb)
    && var s := ShapeOf(txs[a.txid]);
       s == ArrivedAlone(a) || (a.attach && |s.depends| == 1 && s == ArrivedBelow(a, s.depends[0], maxSatVb))
  }

  /** Whoever is in both keeps its own figures and its parent. */
  ghost predicate Untouched(before: Pool, after: Pool) {
    forall t | t in before && t in after :: ShapeOf(after[t]) == ShapeOf(before[t])
  }

  /** after is before and exactly the first n arrivals, each added as itself. */
  ghost predicate Received(before: Pool, after: Pool, arrivals: seq<Arrival>, n: nat, maxSatVb: nat)
    requires n <= |arrivals|
  {
    && after.Keys == before.Keys + ArrivalIds(arrivals, n)
    && Untouched(before, after)
    && forall i | 0 <= i < n :: ArrivesAs(after, arrivals[i], maxSatVb)
  }

  /** after is before and one arrival. */
  ghost predicate ReceivedOne(before: Pool, after: Pool, a: Arrival, maxSatVb: nat) {
    && a.txid in after && IsArrival(after[a.txid], a, maxSatVb)
    && ReceivedShape(before, after, a, maxSatVb)
  }

  ghost predicate ReceivedShape(before: Pool, after: Pool, a: Arrival, maxSatVb: nat) {
    || Shapes(after) == Shapes(before)[a.txid := ArrivedAlone(a)]
    || (a.attach && exists p | p in before :: Shapes(after) == Shapes(before)[a.txid := ArrivedBelow(a, p, maxSatVb)])
  }

  /** How many of n transactions a fraction is: truncated, and none if it is negative. */
  function DropTarget(n: nat, fraction: real): nat {
    var product := n as real * fraction;
    if product < 0.0 then 0 else product.Floor
  }

  /** k is the given fraction of n, rounded down: nothing if it is negative, everything from one on. */
  ghost predicate IsFraction(k: int, n: nat, fraction: real) {
    if fraction <= 0.0 then k == 0
    else if fraction >= 1.0 then k == n
    else k as real <= n as real * fraction < k as real + 1.0
  }

  lemma TargetIsFraction(n: nat, fraction: real)
    ensures IsFraction(if DropTarget(n, fraction) <= n then DropTarget(n, fraction) else n, n, fraction)
  {
    var product := n as real * fraction;
    if fraction <= 0.0 {
      assert product <= 0.0;
    } else if fraction >= 1.0 {
      assert product >= n as real;
    } else {
      assert 0.0 <= product <= n as real;
    }
  }

  /** The i-th draw from the eligible transactions. */
  function Drawn(eligible: seq<Txid>, draws: seq<nat>, i: nat): Txid
    requires eligible != [] && i < |draws|
  {
    eligible[draws[i] % |eligible|]
  }

  function SampleCount(n: nat): nat {
    if n <= SAMPLES then n else SAMPLES
  }

  /** Lower own rate first, then smaller id. */
  predicate Cheaper(a: (nat, Txid), b: (nat, Txid)) {
    a.0 < b.0 || (a.0 == b.0 && a.1 <= b.1)
  }

  ghost predicate AllIn(txs: Pool, ts: seq<Txid>) {
    forall t | t in ts :: t in txs
  }

  function OwnRateOf(txs: Pool, t: Txid): (nat, Txid)
    requires t in txs
  {
    (OwnRateSatVb(txs[t]), t)
  }

  /** p is the cheapest of the first n draws. */
  ghost predicate CheapestDrawn(txs: Pool, eligible: seq<Txid>, draws: seq<nat>, n: nat, p: Txid)
    requires AllIn(txs, eligible) && eligible != [] && n <= |draws| && p in txs
  {
    && (exists i | 0 <= i < n :: Drawn(eligible, draws, i) == p)
    && forall i | 0 <= i < n ::
         var d := Drawn(eligible, draws, i);
         OwnRateSatVb(txs[p]) < OwnRateSatVb(txs[d]) || (OwnRateSatVb(txs[p]) == OwnRateSatVb(txs[d]) && p <= d)
  }

  lemma CheapestOfAll(txs: Pool, eligible: seq<Txid>, s: set<Txid>, draws: seq<nat>, p: Txid)
    requires AllIn(txs, eligible) && eligible != [] && |eligible| <= |draws| && p in txs
    requires Lists(eligible, s) && forall i | 0 <= i < |eligible| :: draws[i] == i
    requires CheapestDrawn(txs, eligible, draws, |eligible|, p)
    ensures p in s
    ensures forall t | t in s ::
              t in txs && (|| OwnRateSatVb(txs[p]) < OwnRateSatVb(txs[t])
                           || (OwnRateSatVb(txs[p]) == OwnRateSatVb(txs[t]) && p <= t))
  {
    hide OwnRateSatVb;
    forall i | 0 <= i < |eligible| ensures Drawn(eligible, draws, i) == eligible[i] {
      assert draws[i] % |eligible| == i;
    }
    forall t | t in s
      ensures t in txs && (|| OwnRateSatVb(txs[p]) < OwnRateSatVb(txs[t])
                           || (OwnRateSatVb(txs[p]) == OwnRateSatVb(txs[t]) && p <= t))
    {
      var i :| 0 <= i < |eligible| && eligible[i] == t;
      assert Drawn(eligible, draws, i) == t;
    }
  }

  function BaseFee(satVb: nat, vsize: nat): nat {
    SaturatingMul(satVb, vsize)
  }

  function AtLeastOne(n: nat): nat {
    if n >= 1 then n else 1
  }

  function OwnRateSatVb(e: Entry): nat {
    e.base / AtLeastOne(e.vsize)
  }

  /** Own rate or ancestor-package rate, whichever is lower, in whole sat/vB. */
  function EffectiveRate(e: Entry): nat {
    var own := OwnRateSatVb(e);
    var pkg := e.ancestorFee / AtLeastOne(e.ancestorSize);
    if own <= pkg then own else pkg
  }

  /** What of t's chain is not in s yet. */
  ghost function Remainder(txs: Pool, t: Txid, s: set<Txid>): (r: set<Txid>)
    requires Upward(txs) && t in txs
    ensures r <= txs.Keys
  {
    LineSet(txs, t) - s
  }

  /** Every member of s belongs to the chain of a transaction that ranks at least as high as t. */
  ghost predicate RanksAtLeast(txs: Pool, t: Txid, s: set<Txid>)
    requires Upward(txs) && t in txs
  {
    forall x | x in s :: OnChainAtLeast(txs, t, x)
  }

  ghost predicate OnChainAtLeast(txs: Pool, t: Txid, x: Txid)
    requires Upward(txs) && t in txs
  {
    exists u | u in txs :: EffectiveRate(txs[u]) >= EffectiveRate(txs[t]) && x in LineSet(txs, u)
  }

  /** t stays out of the block because chains that rank at least as high leave no room for it. */
  ghost predicate CrowdedOut(txs: Pool, t: Txid, s: set<Txid>)
    requires Upward(txs) && t in txs && s <= txs.Keys
  {
    RanksAtLeast(txs, t, s) && SetWeight(txs, s) + SetWeight(txs, Remainder(txs, t, s)) > BLOCK_WEIGHT
  }

  /** Better-ranked first: higher rate, then smaller id. */
  predicate RanksBefore(a: (nat, Txid), b: (nat, Txid)) {
    a.0 > b.0 || (a.0 == b.0 && a.1 < b.1)
  }

  ghost predicate Ranked(txs: Pool, ranked: seq<(nat, Txid)>) {
    && (forall i | 0 <= i < |ranked| :: ranked[i].1 in txs && ranked[i].0 == EffectiveRate(txs[ranked[i].1]))
    && (forall i, j | 0 <= i < j < |ranked| :: RanksBefore(ranked[i], ranked[j]))
  }

  ghost predicate Ranks(ranked: seq<(nat, Txid)>, t: Txid) {
    exists i | 0 <= i < |ranked| :: ranked[i].1 == t
  }

  lemma NothingRanked()
    ensures forall t :: !Ranks([], t)
  {
  }

  lemma InsertRanks(ranked: seq<(nat, Txid)>, k: nat, x: (nat, Txid))
    requires k <= |ranked|
    ensures forall t :: Ranks(ranked[..k] + [x] + ranked[k..], t) <==> Ranks(ranked, t) || t == x.1
  {
    var longer := ranked[..k] + [x] + ranked[k..];
    forall t | Ranks(ranked, t) || t == x.1 ensures Ranks(longer, t) {
      if Ranks(ranked, t) {
        var i :| 0 <= i < |ranked| && ranked[i].1 == t;
        assert longer[if i < k then i else i + 1].1 == t;
      } else {
        assert longer[k].1 == t;
      }
    }
    forall t | Ranks(longer, t) ensures Ranks(ranked, t) || t == x.1 {
      var i :| 0 <= i < |longer| && longer[i].1 == t;
      assert i < k ==> ranked[i].1 == t;
      assert i > k ==> ranked[i - 1].1 == t;
    }
  }

  lemma InsertRanked(txs: Pool, ranked: seq<(nat, Txid)>, k: nat, x: (nat, Txid))
    requires Ranked(txs, ranked) && k <= |ranked| && x.1 in txs && x.0 == EffectiveRate(txs[x.1])
    requires !Ranks(ranked, x.1)
    requires forall i | 0 <= i < k :: RanksBefore(ranked[i], x)
    requires k < |ranked| ==> !RanksBefore(ranked[k], x)
    ensures Ranked(txs, ranked[..k] + [x] + ranked[k..])
    ensures forall t :: Ranks(ranked[..k] + [x] + ranked[k..], t) <==> Ranks(ranked, t) || t == x.1
  {
    hide EffectiveRate;
    var longer := ranked[..k] + [x] + ranked[k..];
    InsertRanks(ranked, k, x);
    forall i, j | 0 <= i < j < |longer| ensures RanksBefore(longer[i], longer[j]) {
      var a := if i < k then ranked[i] else if i == k then x else ranked[i - 1];
      var b := if j < k then ranked[j] else if j == k then x else ranked[j - 1];
      assert longer[i] == a && longer[j] == b;
      assert i == k < j && k < j - 1 ==> RanksBefore(ranked[k], ranked[j - 1]);
    }
  }

  /** The transactions ranked so far: each is confirmed, or crowded out by confirmed ones. */
  ghost predicate Settled(txs: Pool, ranked: seq<(nat, Txid)>, i: nat, confirmed: set<Txid>)
    requires Upward(txs) && Ranked(txs, ranked) && i <= |ranked| && confirmed <= txs.Keys
  {
    && (forall j | 0 <= j < i :: ranked[j].1 in confirmed || Excused(txs, ranked[j].1, confirmed))
    && (forall x | x in confirmed :: OnRankedChain(txs, ranked, i, x))
  }

  /** x is on the chain of one of the first i ranked transactions. */
  ghost predicate OnRankedChain(txs: Pool, ranked: seq<(nat, Txid)>, i: nat, x: Txid)
    requires Upward(txs) && Ranked(txs, ranked) && i <= |ranked|
  {
    exists j | 0 <= j < i :: x in LineSet(txs, ranked[j].1)
  }

  /** Some of the confirmed transactions crowd t out. */
  ghost predicate Excused(txs: Pool, t: Txid, confirmed: set<Txid>)
    requires Upward(txs) && t in txs && confirmed <= txs.Keys
  {
    exists s | s <= confirmed :: CrowdedOut(txs, t, s)
  }

  /** One more ranked transaction is settled once it is confirmed or crowded out. */
  lemma SettledNext(txs: Pool, ranked: seq<(nat, Txid)>, i: nat, confirmed: set<Txid>, more: set<Txid>)
    requires Upward(txs) && Ranked(txs, ranked) && i < |ranked| && confirmed <= more <= txs.Keys
    requires Settled(txs, ranked, i, confirmed)
    requires more - confirmed <= LineSet(txs, ranked[i].1)
    requires ranked[i].1 in more || Excused(txs, ranked[i].1, more)
    ensures Settled(txs, ranked, i + 1, more)
  {
    hide EffectiveRate, LineSet, Upward, OnRankedChain, Excused, RanksBefore;
    forall x | x in more ensures OnRankedChain(txs, ranked, i + 1, x) {
      if x in confirmed {
        ChainStays(txs, ranked, i, x);
      } else {
        ChainJoins(txs, ranked, i, x);
      }
    }
    forall j | 0 <= j < i ensures ranked[j].1 in more || Excused(txs, ranked[j].1, more) {
      if ranked[j].1 !in confirmed {
        ExcuseStays(txs, ranked[j].1, confirmed, more);
      }
    }
  }

  lemma ChainStays(txs: Pool, ranked: seq<(nat, Txid)>, i: nat, x: Txid)
    requires Upward(txs) && Ranked(txs, ranked) && i < |ranked| && OnRankedChain(txs, ranked, i, x)
    ensures OnRankedChain(txs, ranked, i + 1, x)
  {
    hide LineSet, Upward, RanksBefore, EffectiveRate;
    var j :| 0 <= j < i && x in LineSet(txs, ranked[j].1);
  }

  lemma ChainJoins(txs: Pool, ranked: seq<(nat, Txid)>, i: nat, x: Txid)
    requires Upward(txs) && Ranked(txs, ranked) && i < |ranked| && x in LineSet(txs, ranked[i].1)
    ensures OnRankedChain(txs, ranked, i + 1, x)
  {
    hide LineSet, Upward, RanksBefore, EffectiveRate;
  }

  lemma ExcuseStays(txs: Pool, t: Txid, confirmed: set<Txid>, more: set<Txid>)
    requires Upward(txs) && t in txs && confirmed <= more <= txs.Keys && Excused(txs, t, confirmed)
    ensures Excused(txs, t, more)
  {
    hide CrowdedOut, Upward;
    var s :| s <= confirmed && CrowdedOut(txs, t, s);
    assert s <= more;
  }

  lemma SettledCrowds(txs: Pool, ranked: seq<(nat, Txid)>, i: nat, confirmed: set<Txid>)
    requires Upward(txs) && Ranked(txs, ranked) && i < |ranked| && confirmed <= txs.Keys
    requires Settled(txs, ranked, i, confirmed)
    requires SetWeight(txs, confirmed) + SetWeight(txs, Remainder(txs, ranked[i].1, confirmed)) > BLOCK_WEIGHT
    ensures Settled(txs, ranked, i + 1, confirmed)
  {
    hide EffectiveRate, LineSet, Upward, Remainder, SetWeight;
    var t := ranked[i].1;
    forall x | x in confirmed ensures OnChainAtLeast(txs, t, x) {
      assert OnRankedChain(txs, ranked, i, x);
      var j :| 0 <= j < i && x in LineSet(txs, ranked[j].1);
      assert RanksBefore(ranked[j], ranked[i]);
    }
    assert CrowdedOut(txs, t, confirmed);
    assert Excused(txs, t, confirmed);
    SettledNext(txs, ranked, i, confirmed, confirmed);
  }

  /** The more is confirmed, the less room is left for a chain that did not fit. */
  lemma RoomOnlyShrinks(txs: Pool, t: Txid, s: set<Txid>, more: set<Txid>)
    requires Upward(txs) && t in txs && s <= more <= txs.Keys
    ensures SetWeight(txs, s) + SetWeight(txs, Remainder(txs, t, s))
         <= SetWeight(txs, more) + SetWeight(txs, Remainder(txs, t, more))
  {
    var rest := Remainder(txs, t, s);
    SetWeightUnion(txs, s, rest);
    SetWeightUnion(txs, more, Remainder(txs, t, more));
    SetWeightSubset(txs, s + rest, more + Remainder(txs, t, more));
  }

  /** What one block confirms: an ancestor-closed set within the weight limit that leaves no
      room for any chain it leaves out, each of those left out for better-ranked ones. */
  ghost predicate IsBlockOf(txs: Pool, confirmed: set<Txid>)
    requires Upward(txs)
  {
    && confirmed <= txs.Keys && TakesParents(txs, confirmed)
    && SetWeight(txs, confirmed) <= BLOCK_WEIGHT
    && forall t | t in txs && t !in confirmed ::
         && Excused(txs, t, confirmed)
         && SetWeight(txs, confirmed) + SetWeight(txs, Remainder(txs, t, confirmed)) > BLOCK_WEIGHT
  }

  /** Every transaction once, best-ranked first. */
  ghost predicate IsRanking(txs: Pool, ranked: seq<(nat, Txid)>) {
    Ranked(txs, ranked) && forall t | t in txs :: Ranks(ranked, t)
  }

  /** What is confirmed after the first i ranked transactions: each takes along what of its
      chain is not confirmed yet if that still fits, and is passed over otherwise. */
  ghost function Greedy(txs: Pool, ranked: seq<(nat, Txid)>, i: nat): (confirmed: set<Txid>)
    requires Upward(txs) && Ranked(txs, ranked) && i <= |ranked|
    ensures confirmed <= txs.Keys
  {
    if i == 0 then {}
    else
      var before := Greedy(txs, ranked, i - 1);
      var rest := Remainder(txs, ranked[i - 1].1, before);
      if SetWeight(txs, before) + SetWeight(txs, rest) > BLOCK_WEIGHT then before else before + rest
  }

  /** What one block confirms, step by step. */
  ghost predicate IsMined(txs: Pool, confirmed: set<Txid>)
    requires Upward(txs)
  {
    exists ranked :: MinesFrom(txs, ranked, confirmed)
  }

  ghost predicate MinesFrom(txs: Pool, ranked: seq<(nat, Txid)>, confirmed: set<Txid>)
    requires Upward(txs)
  {
    IsRanking(txs, ranked) && confirmed == Greedy(txs, ranked, |ranked|)
  }

  lemma RankedDistinct(txs: Pool, ranked: seq<(nat, Txid)>)
    requires Ranked(txs, ranked)
    ensures forall i, j | 0 <= i < j < |ranked| :: ranked[i] != ranked[j]
  {
    hide EffectiveRate;
    forall i, j | 0 <= i < j < |ranked| ensures ranked[i] != ranked[j] {
      assert RanksBefore(ranked[i], ranked[j]);
    }
  }

  /** Rankings that agree before k agree at k: there are no ties. */
  lemma NextRankedAgrees(txs: Pool, a: seq<(nat, Txid)>, b: seq<(nat, Txid)>, k: nat)
    requires IsRanking(txs, a) && IsRanking(txs, b) && k < |a| && k <= |b|
    requires forall i | 0 <= i < k :: a[i] == b[i]
    ensures k < |b| && a[k] == b[k]
  {
    hide EffectiveRate;
    RankedDistinct(txs, a);
    RankedDistinct(txs, b);
    assert Ranks(b, a[k].1);
    var j :| 0 <= j < |b| && b[j].1 == a[k].1;
    assert b[j] == a[k] && j >= k;
    assert Ranks(a, b[k].1);
    var i :| 0 <= i < |a| && a[i].1 == b[k].1;
    assert a[i] == b[k] && i >= k;
    assert j > k ==> RanksBefore(b[k], b[j]);
    assert i > k ==> RanksBefore(a[k], a[i]);
  }

  lemma {:induction false} RankingsAgree(txs: Pool, a: seq<(nat, Txid)>, b: seq<(nat, Txid)>, k: nat)
    requires IsRanking(txs, a) && IsRanking(txs, b) && k <= |a|
    ensures k <= |b| && forall i | 0 <= i < k :: a[i] == b[i]
  {
    hide IsRanking;
    if k > 0 {
      RankingsAgree(txs, a, b, k - 1);
      NextRankedAgrees(txs, a, b, k - 1);
    }
  }

  /** The block is determined by the mempool: the ranking breaks ties by id, and nothing hangs on
      how hash maps are walked. */
  lemma MinedUnique(txs: Pool, s: set<Txid>, t: set<Txid>)
    requires Upward(txs) && IsMined(txs, s) && IsMined(txs, t)
    ensures s == t
  {
    hide IsRanking, Greedy;
    var a :| MinesFrom(txs, a, s);
    var b :| MinesFrom(txs, b, t);
    RankingsAgree(txs, a, b, |a|);
    RankingsAgree(txs, b, a, |b|);
    assert a == b;
  }

  lemma {:induction false} GreedyGrows(txs: Pool, ranked: seq<(nat, Txid)>, i: nat, j: nat)
    requires Upward(txs) && Ranked(txs, ranked) && i <= j <= |ranked|
    ensures Greedy(txs, ranked, i) <= Greedy(txs, ranked, j)
    decreases j
  {
    hide SetWeight, LineSet, Ranked;
    if i < j {
      GreedyGrows(txs, ranked, i, j - 1);
    }
  }

  /** u is on nobody's chain but its own. */
  ghost predicate OnlyOnOwnChain(txs: Pool, u: Txid)
    requires Upward(txs)
  {
    forall x | x in txs && x != u :: u !in LineSet(txs, x)
  }

  lemma {:induction false} NotBeforeItsTurn(txs: Pool, ranked: seq<(nat, Txid)>, u: Txid, i: nat)
    requires Upward(txs) && Ranked(txs, ranked) && OnlyOnOwnChain(txs, u) && i <= |ranked|
    requires u in Greedy(txs, ranked, i)
    ensures exists j | 0 <= j < i :: ranked[j].1 == u && TakesTurn(txs, ranked, j)
  {
    hide SetWeight, LineSet, EffectiveRate;
    assert i > 0;
    assert ranked[i - 1].1 in txs;
    if u in Greedy(txs, ranked, i - 1) {
      NotBeforeItsTurn(txs, ranked, u, i - 1);
    } else {
      assert ranked[i - 1].1 == u && TakesTurn(txs, ranked, i - 1);
    }
  }

  /** The j-th ranked transaction is not confirmed when its turn comes, and what is left of its
      chain still fits. */
  ghost predicate TakesTurn(txs: Pool, ranked: seq<(nat, Txid)>, j: nat)
    requires Upward(txs) && Ranked(txs, ranked) && j < |ranked|
  {
    var before := Greedy(txs, ranked, j);
    && ranked[j].1 !in before
    && SetWeight(txs, before) + SetWeight(txs, Remainder(txs, ranked[j].1, before)) <= BLOCK_WEIGHT
  }

  lemma RootChain(txs: Pool, t: Txid)
    requires Upward(txs) && t in txs && txs[t].depends == []
    ensures LineSet(txs, t) == {t}
  {
    assert Lineage(txs, t) == [t];
  }

  lemma SingleWeight(txs: Pool, t: Txid)
    requires Sized(txs) && t in txs
    ensures SetWeight(txs, {}) == 0 && SetWeight(txs, {t}) == 4 * txs[t].vsize
  {
    SetWeightRemove(txs, {t}, t);
    assert {t} - {t} == {};
  }

  /** A miner prefers the higher rate, and of equal ones the smaller id: if a lone transaction is
      confirmed, so is every lone one that ranks before it and is no larger. */
  lemma BetterRankedConfirmed(txs: Pool, confirmed: set<Txid>, t: Txid, u: Txid)
    requires Upward(txs) && IsMined(txs, confirmed) && t in txs && u in txs && u in confirmed
    requires txs[t].depends == [] && txs[u].depends == [] && OnlyOnOwnChain(txs, u)
    requires txs[t].vsize <= txs[u].vsize
    requires || EffectiveRate(txs[t]) > EffectiveRate(txs[u])
             || (EffectiveRate(txs[t]) == EffectiveRate(txs[u]) && t < u)
    ensures t in confirmed
  {
    hide SetWeight, Lineage, EffectiveRate, Upward, OnlyOnOwnChain, TakesTurn, Greedy, LineSet;
    var ranked: seq<(nat, Txid)> :| MinesFrom(txs, ranked, confirmed);
    NotBeforeItsTurn(txs, ranked, u, |ranked|);
    var j :| 0 <= j < |ranked| && ranked[j].1 == u && TakesTurn(txs, ranked, j);
    assert Ranks(ranked, t);
    var i :| 0 <= i < |ranked| && ranked[i].1 == t;
    TurnBefore(txs, ranked, i, j);
    SizedOf(txs);
    RoomForNoLarger(txs, ranked, i, j);
    GreedyGrows(txs, ranked, i + 1, |ranked|);
  }

  lemma SizedOf(txs: Pool)
    requires Upward(txs)
    ensures Sized(txs)
  {
  }

  lemma TurnBefore(txs: Pool, ranked: seq<(nat, Txid)>, i: nat, j: nat)
    requires Ranked(txs, ranked) && i < |ranked| && j < |ranked|
    requires || ranked[i].0 > ranked[j].0
             || (ranked[i].0 == ranked[j].0 && ranked[i].1 < ranked[j].1)
    ensures i < j
  {
    hide EffectiveRate;
  }

  lemma RoomForNoLarger(txs: Pool, ranked: seq<(nat, Txid)>, i: nat, j: nat)
    requires Upward(txs) && Ranked(txs, ranked) && i < j < |ranked| && TakesTurn(txs, ranked, j)
    requires ranked[i].1 in txs && ranked[j].1 in txs
    requires txs[ranked[i].1].depends == [] && txs[ranked[j].1].depends == []
    requires txs[ranked[i].1].vsize <= txs[ranked[j].1].vsize
    ensures ranked[i].1 in Greedy(txs, ranked, i + 1)
  {
    hide SetWeight, EffectiveRate;
    var t, u := ranked[i].1, ranked[j].1;
    RootChain(txs, t);
    RootChain(txs, u);
    SingleWeight(txs, t);
    SingleWeight(txs, u);
    GreedyGrows(txs, ranked, i, j);
    SetWeightSubset(txs, Greedy(txs, ranked, i), Greedy(txs, ranked, j));
    assert Remainder(txs, u, Greedy(txs, ranked, j)) == {u};
    assert t !in Greedy(txs, ranked, i) ==> Remainder(txs, t, Greedy(txs, ranked, i)) == {t};
    assert t in Greedy(txs, ranked, i) ==> t in Greedy(txs, ranked, i + 1);
  }

  /** A block holds at most a million virtual bytes, and there is no room in it for what is left of
      any chain that was not confirmed. */
  lemma BlockVsize(txs: Pool, confirmed: set<Txid>)
    requires Upward(txs) && IsBlockOf(txs, confirmed)
    ensures SetVsize(txs, confirmed) <= 1_000_000
    ensures forall t | t in txs && t !in confirmed ::
              SetVsize(txs, confirmed) + SetVsize(txs, Remainder(txs, t, confirmed)) > 1_000_000
  {
    hide SetWeight, SetVsize, Excused, Remainder;
    WeightIsFourVsize(txs, confirmed);
    forall t | t in txs && t !in confirmed
      ensures SetVsize(txs, confirmed) + SetVsize(txs, Remainder(txs, t, confirmed)) > 1_000_000
    {
      WeightIsFourVsize(txs, Remainder(txs, t, confirmed));
    }
  }

  lemma SettledIsBlock(txs: Pool, ranked: seq<(nat, Txid)>, confirmed: set<Txid>)
    requires Upward(txs) && Ranked(txs, ranked) && confirmed <= txs.Keys
    requires Settled(txs, ranked, |ranked|, confirmed)
    requires IsRanking(txs, ranked)
    requires TakesParents(txs, confirmed) && SetWeight(txs, confirmed) <= BLOCK_WEIGHT
    ensures IsBlockOf(txs, confirmed)
  {
    hide EffectiveRate, LineSet, Remainder;
    forall t | t in txs && t !in confirmed
      ensures Excused(txs, t, confirmed)
      ensures SetWeight(txs, confirmed) + SetWeight(txs, Remainder(txs, t, confirmed)) > BLOCK_WEIGHT
    {
      var i :| 0 <= i < |ranked| && ranked[i].1 == t;
      var s :| s <= confirmed && CrowdedOut(txs, t, s);
      RoomOnlyShrinks(txs, t, s, confirmed);
    }
  }

  class Node {
    var txs: Pool
    /** Parent to its single child. */
    var children: Index
    var tipHeight: nat
    var reloading: bool
    const maxChain: nat
    const maxSatVb: nat

    ghost predicate Valid()
      reads this
    {
      Truthful(txs, children) && Short(txs, maxChain)
    }

    /** A node filled with its first arrivals. */
    constructor (maxChain: nat, maxSatVb: nat, arrivals: seq<Arrival>)
      requires FreshArrivals(map[], arrivals)
      ensures Valid() && tipHeight == 800_000 && !reloading
      ensures this.maxChain == maxChain && this.maxSatVb == maxSatVb
      ensures Received(map[], txs, arrivals, |arrivals|, maxSatVb) && |txs| == |arrivals|
    {
      hide Truthful, Short, Received, FreshArrivals;
      this.maxChain := maxChain;
      this.maxSatVb := maxSatVb;
      txs := map[];
      children := map[];
      tipHeight := 800_000;
      reloading := false;
      new;
      NothingTruthful(maxChain);
      AddArrivals(arrivals);
    }

    /** The in-mempool ancestors of txid, nearest parent first. */
    method AncestorsOf(txid: Txid) returns (out: seq<Txid>)
      requires Upward(txs)
      ensures txid in txs ==> [txid] + out == Lineage(txs, txid)
      ensures txid !in txs ==> out == []
    {
      out := [];
      var cur := txid;
      ghost var passed: seq<Txid> := [];
      while cur in txs
        invariant txid in txs ==> cur in txs && [txid] + out == passed + [cur]
        invariant txid in txs ==> Lineage(txs, txid) == passed + Lineage(txs, cur)
        invariant txid !in txs ==> out == [] && cur == txid
        decreases if cur in txs then txs[cur].ancestorSize else 0
      {
        assert UpOk(txs, cur);
        var depends := txs[cur].depends;
        if depends != [] && depends[0] in txs {
          passed := passed + [cur];
          out := out + [depends[0]];
          cur := depends[0];
        } else {
          break;
        }
      }
    }

    /** Moves the descendant totals of from and of every ancestor above it by one transaction. */
    method AdjustDescendantTotals(from: Txid, vsize: nat, base: nat, add: bool)
      requires Upward(txs) && from in txs
      modifies this`txs
      ensures txs == AdjustedAlong(old(txs), old(Lineage(txs, from)), vsize, base, add)
    {
      ghost var before := txs;
      var up := AncestorsOf(from);
      var chain := [from] + up;
      LineageFacts(txs, from);
      hide Upward, Lineage, AdjustedAlong;
      AdjustedNothing(before, vsize, base, add);
      for i := 0 to |chain|
        invariant txs == AdjustedAlong(before, chain[..i], vsize, base, add)
        invariant txs.Keys == before.Keys
      {
        var a := chain[i];
        AdjustedOne(before, chain, i, vsize, base, add);
        txs := txs[a := Adjusted(txs[a], vsize, base, add)];
      }
      assert chain[..|chain|] == chain;
    }

    /** Attaches a fresh high-fee child to a childless parent whose chain has room. */
    method AttachChild(parent: Txid, txid: Txid, vsize: nat)
      requires Valid() && parent in txs && parent !in children && txid !in txs && vsize >= 1
      requires |Lineage(txs, parent)| < maxChain
      modifies this`txs, this`children
      ensures Valid()
      ensures Shapes(txs) == old(Shapes(txs))[txid := Shape(vsize, Some(4 * vsize), [parent], BaseFee(maxSatVb, vsize))]
      ensures children == old(children)[parent := txid]
      ensures txid in txs && PaysRate(txs[txid].base, vsize, maxSatVb)
    {
      BaseFeePaysRate(maxSatVb, vsize);
      hide PaysRate, BaseFee;
      hide Upward, Lineage, AdjustedAlong, Short, Shapes, Linked;
      ghost var before := txs;
      var base := BaseFee(maxSatVb, vsize);
      var entry := ChildEntry(vsize, base, parent, txs[parent]);
      AttachedTruthful(txs, children, parent, txid, vsize, base, maxChain);
      AttachedShapes(txs, parent, txid, vsize, base);
      InsertedUpward(txs, children, parent, txid, vsize, base, maxChain);
      txs := txs[txid := entry];
      children := children[parent := txid];
      AdjustDescendantTotals(parent, vsize, base, true);
      assert txs == Attached(before, parent, txid, vsize, base);
      ShapesAt(txs);
    }

    /** Removes a transaction without children; does nothing if it is absent or has a child. */
    method RemoveLeaf(leaf: Txid)
      requires Valid()
      modifies this`txs, this`children
      ensures Valid()
      ensures leaf in old(children) || leaf !in old(txs) ==> txs == old(txs) && children == old(children)
      ensures leaf !in old(children) && leaf in old(txs) ==>
                && Shapes(txs) == old(Shapes(txs)) - {leaf}
                && children == (if old(txs)[leaf].depends == [] then old(children)
                                else old(children) - {old(txs)[leaf].depends[0]})
    {
      if leaf in children || leaf !in txs {
        return;
      }
      hide Linked, Downward, Short, AdjustedAlong, Shapes;
      var entry := txs[leaf];
      RemovedUpward(txs, children, leaf);
      RemovedShapes(txs, leaf);
      if entry.depends == [] {
        RootRemovedTruthful(txs, children, leaf, maxChain);
      } else {
        ParentOfLeaf(txs, children, leaf);
        LeafRemovedTruthful(txs, children, leaf, maxChain);
      }
      txs := txs - {leaf};
      if entry.depends != [] {
        var parent := entry.depends[0];
        children := children - {parent};
        AdjustDescendantTotals(parent, entry.vsize, entry.base, false);
      }
    }

    /** Removes one transaction picked by descending from an arbitrary start to the end of its
        chain; does nothing on an empty mempool. */
    method EvictOne()
      requires Valid()
      modifies this`txs, this`children
      ensures Valid()
      ensures old(txs) == map[] ==> txs == map[] && children == old(children)
      ensures old(txs) != map[] ==> exists leaf :: leaf in old(txs) && leaf !in old(children)
                                                   && Shapes(txs) == old(Shapes(txs)) - {leaf}
      ensures |txs| == if |old(txs)| == 0 then 0 else |old(txs)| - 1
      ensures txs.Keys <= old(txs).Keys && Untouched(old(txs), txs)
    {
      if txs == map[] {
        return;
      }
      assert txs.Keys != {};
      var leaf :| leaf in txs;
      while leaf in children
        invariant leaf in txs
        decreases txs[leaf].descendantSize
      {
        assert LinkedDown(txs, children, leaf) && DownOk(txs, children, leaf);
        leaf := children[leaf];
      }
      ghost var before := txs;
      RemoveLeaf(leaf);
      assert txs.Keys == Shapes(txs).Keys == before.Keys - {leaf};
      ShapesAt(txs);
      ShapesAt(before);
      assert |txs| == |txs.Keys| && |before| == |before.Keys|;
    }

    method Evict(count: nat)
      requires Valid()
      modifies this`txs, this`children
      ensures Valid() && txs.Keys <= old(txs).Keys && Untouched(old(txs), txs)
      ensures |txs| == if count <= |old(txs)| then |old(txs)| - count else 0
    {
      for i := 0 to count
        invariant Valid() && txs.Keys <= old(txs).Keys && Untouched(old(txs), txs)
        invariant |txs| == if i <= |old(txs)| then |old(txs)| - i else 0
      {
        EvictOne();
      }
    }

    /** Drops a fraction of the mempool at once; the rest stays as it is. */
    method MassDrop(fraction: real)
      requires Valid()
      modifies this`txs, this`children
      ensures Valid() && txs.Keys <= old(txs).Keys && Untouched(old(txs), txs)
      ensures IsFraction(|old(txs)| - |txs|, |old(txs)|, fraction)
    {
      TargetIsFraction(|txs|, fraction);
      Evict(DropTarget(|txs|, fraction));
    }

    ghost predicate Eligible(t: Txid)
      requires Upward(txs)
      reads this
    {
      t in txs && t !in children && |Lineage(txs, t)| < maxChain
    }

    ghost function EligibleSet(): set<Txid>
      requires Upward(txs)
      reads this
    {
      set t | t in txs && Eligible(t)
    }

    ghost predicate CanAttach()
      requires Upward(txs)
      reads this
    {
      maxChain >= 2 && EligibleSet() != {}
    }

    lemma CanAttachMeans()
      requires Upward(txs)
      ensures CanAttach() <==>
                maxChain >= 2 && exists t | t in txs :: t !in children && |Lineage(txs, t)| < maxChain
    {
      if t :| t in txs && t !in children && |Lineage(txs, t)| < maxChain {
        assert t in EligibleSet();
      }
      if EligibleSet() != {} {
        var t :| t in EligibleSet();
        assert t in txs && t !in children && |Lineage(txs, t)| < maxChain;
      }
    }

    /** p is the cheapest of the draws from a vector of the eligible transactions, whose order
        hangs on how a hash map is walked. */
    ghost predicate IsPick(p: Txid, draws: seq<nat>)
      requires Upward(txs) && |draws| == SAMPLES && p in txs
      reads this
    {
      exists eligible :: IsPickFrom(p, eligible, draws)
    }

    ghost predicate IsPickFrom(p: Txid, eligible: seq<Txid>, draws: seq<nat>)
      requires Upward(txs) && |draws| == SAMPLES && p in txs
      reads this
    {
      && Lists(eligible, EligibleSet()) && eligible != []
      && CheapestDrawn(txs, eligible, draws, if |eligible| <= 8 then |eligible| else 8, p)
    }

    /** If the draws are the positions of all eligible transactions in turn, the pick is the one of
        lowest rate, and of smallest id among these. */
    lemma AllDrawn(p: Txid, draws: seq<nat>)
      requires Upward(txs) && |draws| == SAMPLES && p in txs && IsPick(p, draws)
      requires |EligibleSet()| <= 8 && forall i | 0 <= i < |EligibleSet()| :: draws[i] == i
      ensures p in EligibleSet()
      ensures forall t | t in EligibleSet() ::
                || OwnRateSatVb(txs[p]) < OwnRateSatVb(txs[t])
                || (OwnRateSatVb(txs[p]) == OwnRateSatVb(txs[t]) && p <= t)
    {
      hide OwnRateSatVb, Upward, CheapestDrawn, Eligible;
      var eligible :| IsPickFrom(p, eligible, draws);
      ListsSize(eligible, EligibleSet());
      CheapestOfAll(txs, eligible, EligibleSet(), draws, p);
    }

    /** A childless transaction whose chain has room, the cheapest of a few random samples;
        none exactly when chaining is disabled or nothing is eligible. */
    method PickParent(draws: seq<nat>) returns (r: Option<Txid>)
      requires Valid() && |draws| == SAMPLES
      ensures r.Some? ==> Eligible(r.value) && IsPick(r.value, draws)
      ensures r.Some? <==> CanAttach()
    {
      if maxChain < 2 {
        return None;
      }
      var eligible := CollectEligible();
      if |eligible| == 0 {
        return None;
      }
      var p := Cheapest(eligible, draws);
      assert IsPickFrom(p, eligible, draws);
      r := Some(p);
    }

    method CollectEligible() returns (eligible: seq<Txid>)
      requires Valid()
      ensures Lists(eligible, EligibleSet())
    {
      eligible := [];
      var rest := txs.Keys;
      while rest != {}
        invariant rest <= txs.Keys && Lists(eligible, EligibleSet() - rest)
        decreases rest
      {
        var t :| t in rest;
        var up := AncestorsOf(t);
        assert |Lineage(txs, t)| == |[t] + up|;
        if t !in children && |up| + 1 < maxChain {
          assert t in EligibleSet();
          ListsAppend(eligible, EligibleSet() - rest, t);
          assert EligibleSet() - (rest - {t}) == (EligibleSet() - rest) + {t};
          eligible := eligible + [t];
        } else {
          assert EligibleSet() - (rest - {t}) == EligibleSet() - rest;
        }
        rest := rest - {t};
      }
      assert EligibleSet() - rest == EligibleSet();
    }

    method Cheapest(eligible: seq<Txid>, draws: seq<nat>) returns (p: Txid)
      requires AllIn(txs, eligible) && eligible != [] && |draws| == SAMPLES
      ensures p in eligible && CheapestDrawn(txs, eligible, draws, SampleCount(|eligible|), p)
    {
      hide OwnRateSatVb;
      var best: Option<(nat, Txid)> := None;
      for i := 0 to SampleCount(|eligible|)
        invariant i > 0 ==> best.Some?
        invariant best.Some? ==> best.value.1 in eligible && best.value == OwnRateOf(txs, best.value.1)
        invariant best.Some? ==> CheapestDrawn(txs, eligible, draws, i, best.value.1)
      {
        var t := Drawn(eligible, draws, i);
        var rate := OwnRateSatVb(txs[t]);
        if best.None? || !Cheaper(best.value, (rate, t)) {
          best := Some((rate, t));
        }
        assert Drawn(eligible, draws, i) == t;
      }
      p := best.value.1;
    }

    /** One arrival: a child of the picked parent if it tries to attach and something is
        eligible, a standalone transaction otherwise. */
    method AddArrival(a: Arrival)
      requires Valid() && a.txid !in txs && a.Valid()
      modifies this`txs, this`children
      ensures Valid()
      ensures a.attach && old(CanAttach()) ==> exists p | p in old(txs) ::
                && old(Eligible(p) && IsPick(p, a.draws))
                && Shapes(txs) == old(Shapes(txs))[a.txid := ArrivedBelow(a, p, maxSatVb)]
                && children == old(children)[p := a.txid]
      ensures !(a.attach && old(CanAttach())) ==>
                && Shapes(txs) == old(Shapes(txs))[a.txid := ArrivedAlone(a)]
                && children == old(children)
      ensures a.txid in txs && IsArrival(txs[a.txid], a, maxSatVb)
      ensures txs[a.txid].depends != [] <==>
                && a.attach && maxChain >= 2
                && old(exists t | t in txs :: t !in children && |Lineage(txs, t)| < maxChain)
    {
      BaseFeePaysRate(a.satVb, a.vsize);
      CanAttachMeans();
      hide Truthful, Short, Lineage, PaysRate, BaseFee, CanAttach, IsPick, Shapes;
      ghost var before := txs;
      if a.attach {
        var parent := PickParent(a.draws);
        if parent.Some? {
          AttachChild(parent.value, a.txid, a.vsize);
          ShapesAt(txs);
          return;
        }
      }
      var entry := StandaloneEntry(a.vsize, BaseFee(a.satVb, a.vsize));
      InsertStandalone(txs, children, a.txid, entry, maxChain);
      InsertedShapes(txs, a.txid, entry);
      txs := txs[a.txid := entry];
    }

    /** Arrivals one after another: each is added as itself, and nobody else is touched. */
    method AddArrivals(arrivals: seq<Arrival>)
      requires Valid() && FreshArrivals(txs, arrivals)
      modifies this`txs, this`children
      ensures Valid() && Received(old(txs), txs, arrivals, |arrivals|, maxSatVb)
      ensures |txs| == |old(txs)| + |arrivals|
    {
      hide Truthful, Short, ShapeOf, Lineage, Shapes, Received, ArrivedAlone, ArrivedBelow;
      ghost var before := txs;
      NothingReceived(txs, arrivals, maxSatVb);
      for i := 0 to |arrivals|
        invariant Valid() && Received(before, txs, arrivals, i, maxSatVb)
      {
        ghost var was := txs;
        NextIsFresh(before, txs, arrivals, i, maxSatVb);
        AddArrival(arrivals[i]);
        assert ReceivedOne(was, txs, arrivals[i], maxSatVb);
        ReceivedMore(before, was, txs, arrivals, i, maxSatVb);
      }
      ReceivedSize(before, txs, arrivals, maxSatVb);
    }

    /** One churn tick: evictions first, then fresh arrivals; a pending reload is over. What
        stays is what was there less the evicted ones, as it was, and the arrivals. */
    method Advance(evictions: nat, arrivals: seq<Arrival>)
      requires Valid() && FreshArrivals(txs, arrivals)
      modifies this
      ensures Valid() && !reloading && tipHeight == old(tipHeight)
      ensures ArrivalIds(arrivals, |arrivals|) <= txs.Keys <= old(txs.Keys) + ArrivalIds(arrivals, |arrivals|)
      ensures Untouched(old(txs), txs)
      ensures forall i | 0 <= i < |arrivals| :: ArrivesAs(txs, arrivals[i], maxSatVb)
      ensures |txs| == (if evictions <= |old(txs)| then |old(txs)| - evictions else 0) + |arrivals|
    {
      hide Truthful, Short, Lineage, Untouched, FreshArrivals, ArrivesAs, ArrivalIds;
      ghost var before := txs;
      reloading := false;
      Evict(evictions);
      ghost var kept := txs;
      StillFresh(before, kept, arrivals);
      AddArrivals(arrivals);
      ReceivedAfter(before, kept, txs, arrivals, maxSatVb);
    }

    /** Confirms an ancestor-closed set: its members leave, survivors below them become roots,
        and every total is exact again. */
    method ConfirmSet(s: set<Txid>)
      requires Valid() && TakesParents(txs, s)
      modifies this`txs, this`children
      ensures Valid()
      ensures Shapes(txs) == SurvivingShapes(old(txs), s)
      ensures children == old(children) - s
    {
      hide Linked, Upward, Downward, Short, Lineage, Shapes, SurvivingShapes, Repairing;
      ghost var before := txs;
      var roots := NewRoots(txs, s);
      SurvivorsRepairing(txs, children, s);
      Reroot(roots);
      Drop(s);
      Repair(roots);
      RepairedTruthful(txs, children);
      SurvivorsShort(before, txs, s, maxChain);
    }

    /** Clears the parent reference of each given transaction and resets its ancestor totals. */
    method Reroot(roots: set<Txid>)
      requires roots <= txs.Keys
      modifies this`txs
      ensures txs == Rerooted(old(txs), roots)
    {
      ghost var before := txs;
      var rest := roots;
      while rest != {}
        invariant rest <= roots
        invariant txs == Rerooted(before, roots - rest)
        decreases rest
      {
        var t :| t in rest;
        RerootedOne(before, roots - rest, t);
        assert roots - (rest - {t}) == (roots - rest) + {t};
        txs := txs[t := AsRoot(txs[t])];
        rest := rest - {t};
      }
      assert roots - rest == roots;
    }

    /** Removes the given transactions from both maps. */
    method Drop(s: set<Txid>)
      modifies this`txs, this`children
      ensures txs == old(txs) - s && children == old(children) - s
    {
      var rest := s;
      while rest != {}
        invariant rest <= s
        invariant txs == old(txs) - (s - rest) && children == old(children) - (s - rest)
        decreases rest
      {
        var t :| t in rest;
        assert s - (rest - {t}) == (s - rest) + {t};
        txs := txs - {t};
        children := children - {t};
        rest := rest - {t};
      }
      assert s - rest == s;
    }

    /** Walks down from each new root, recomputing every child from its parent. */
    method Repair(roots: set<Txid>)
      requires Repairing(txs, children, roots)
      modifies this`txs
      ensures Repairing(txs, children, {}) && Shapes(txs) == old(Shapes(txs))
    {
      var rest := roots;
      while rest != {}
        invariant Repairing(txs, children, rest) && Shapes(txs) == old(Shapes(txs))
        decreases rest
      {
        var root :| root in rest;
        ghost var left := rest - {root};
        assert rest == left + {root};
        var parent := root;
        while parent in children
          invariant Repairing(txs, children, left + {parent}) && Shapes(txs) == old(Shapes(txs))
          decreases if parent in txs then txs[parent].descendantSize else 0
        {
          RepairStep(txs, children, left + {parent}, parent);
          var child := children[parent];
          txs := txs[child := Recomputed(txs[child], txs[parent])];
          RepairWeaken(txs, children, left + {parent} - {parent} + {child}, left + {child});
          parent := child;
        }
        RepairEnd(txs, children, left + {parent}, parent);
        RepairWeaken(txs, children, left + {parent} - {parent}, left);
        rest := rest - {root};
      }
    }

    /** Every transaction with its effective rate, best-ranked first. */
    method RankAll() returns (ranked: seq<(nat, Txid)>)
      ensures IsRanking(txs, ranked)
    {
      hide EffectiveRate, Ranks;
      ranked := [];
      NothingRanked();
      var rest := txs.Keys;
      while rest != {}
        invariant rest <= txs.Keys && Ranked(txs, ranked)
        invariant forall t | t in txs :: Ranks(ranked, t) <==> t !in rest
        decreases rest
      {
        var t :| t in rest;
        var x := (EffectiveRate(txs[t]), t);
        var k := 0;
        while k < |ranked| && RanksBefore(ranked[k], x)
          invariant k <= |ranked| && forall i | 0 <= i < k :: RanksBefore(ranked[i], x)
        {
          k := k + 1;
        }
        InsertRanked(txs, ranked, k, x);
        ranked := ranked[..k] + [x] + ranked[k..];
        rest := rest - {t};
      }
    }

    /** t and its ancestors that are not confirmed yet, with their total weight. */
    method PackageOf(t: Txid, confirmed: set<Txid>) returns (pkg: set<Txid>, weight: nat)
      requires Upward(txs) && t in txs && t !in confirmed
      ensures pkg == Remainder(txs, t, confirmed) && weight == SetWeight(txs, pkg)
    {
      hide Upward, Lineage, SetWeight;
      var up := AncestorsOf(t);
      LineageFacts(txs, t);
      ghost var line := [t] + up;
      EmptyWeight(txs);
      SetWeightAdd(txs, {}, t);
      assert {} + {t} == {t};
      pkg := {t};
      weight := WeightOf(txs[t]);
      for i := 0 to |up|
        invariant pkg <= txs.Keys && weight == SetWeight(txs, pkg)
        invariant pkg == FirstOf(line, i + 1) - confirmed
      {
        FirstGrows(line, i + 1);
        if up[i] !in confirmed {
          SetWeightAdd(txs, pkg, up[i]);
          weight := weight + WeightOf(txs[up[i]]);
          pkg := pkg + {up[i]};
        }
      }
      AllOf(txs, t);
    }

    /** Confirms one block: chains in rank order, each taken whole if it still fits. */
    method MineBlock() returns (confirmed: set<Txid>)
      requires Valid()
      modifies this`txs, this`children, this`tipHeight
      ensures Valid() && tipHeight == old(tipHeight) + 1
      ensures old(IsBlockOf(txs, confirmed) && IsMined(txs, confirmed))
      ensures Shapes(txs) == SurvivingShapes(old(txs), confirmed) && children == old(children) - confirmed
    {
      hide Upward, Linked, Downward, Short, Ranked, Settled, LineSet, SetWeight, Shapes, SurvivingShapes, IsBlockOf,
           Greedy, Ranks;
      tipHeight := tipHeight + 1;
      var ranked := RankAll();
      NothingSettled(txs, ranked);
      var used := 0;
      confirmed := {};
      for i := 0 to |ranked|
        invariant txs == old(txs) && children == old(children) && tipHeight == old(tipHeight) + 1
        invariant confirmed <= txs.Keys && TakesParents(txs, confirmed)
        invariant used == SetWeight(txs, confirmed) <= BLOCK_WEIGHT
        invariant Settled(txs, ranked, i, confirmed) && confirmed == Greedy(txs, ranked, i)
      {
        GreedyNext(txs, ranked, i);
        RankedAt(txs, ranked, i);
        var t := ranked[i].1;
        if t in confirmed {
          SettledNext(txs, ranked, i, confirmed, confirmed);
          continue;
        }
        var pkg, weight := PackageOf(t, confirmed);
        if used + weight > BLOCK_WEIGHT {
          SettledCrowds(txs, ranked, i, confirmed);
          continue;
        }
        LineSetClosed(txs, t);
        LineSetPresent(txs, t);
        assert confirmed + pkg == confirmed + LineSet(txs, t);
        SettledNext(txs, ranked, i, confirmed, confirmed + pkg);
        SetWeightUnion(txs, confirmed, pkg);
        used := used + weight;
        confirmed := confirmed + pkg;
      }
      SettledIsBlock(txs, ranked, confirmed);
      assert MinesFrom(txs, ranked, confirmed);
      ConfirmSet(confirmed);
    }
  }

  /** A confirmed transaction has its chain confirmed, so it is passed over either way. */
  lemma GreedyNext(txs: Pool, ranked: seq<(nat, Txid)>, i: nat)
    requires Upward(txs) && Ranked(txs, ranked) && i < |ranked|
    requires TakesParents(txs, Greedy(txs, ranked, i))
    ensures ranked[i].1 in txs
    ensures var c := Greedy(txs, ranked, i);
            var rest := Remainder(txs, ranked[i].1, c);
            var full := SetWeight(txs, c) + SetWeight(txs, rest) > BLOCK_WEIGHT;
            Greedy(txs, ranked, i + 1) == if ranked[i].1 in c || full then c else c + rest
  {
    hide SetWeight, LineSet;
    var c := Greedy(txs, ranked, i);
    if ranked[i].1 in c {
      ClosedHoldsChain(txs, c, ranked[i].1);
      assert Remainder(txs, ranked[i].1, c) == {};
    }
  }

  lemma RankedAt(txs: Pool, ranked: seq<(nat, Txid)>, i: nat)
    requires Ranked(txs, ranked) && i < |ranked|
    ensures ranked[i].1 in txs
  {
  }

  lemma LineSetPresent(txs: Pool, t: Txid)
    requires Upward(txs) && t in txs
    ensures t in LineSet(txs, t) && LineSet(txs, t) <= txs.Keys
  {
  }

  lemma NothingSettled(txs: Pool, ranked: seq<(nat, Txid)>)
    requires Upward(txs) && Ranked(txs, ranked)
    ensures Settled(txs, ranked, 0, {}) && SetWeight(txs, {}) == 0 && TakesParents(txs, {})
    ensures Greedy(txs, ranked, 0) == {}
  {
  }

  ghost function FirstOf(line: seq<Txid>, n: nat): set<Txid>
    requires n <= |line|
  {
    set x | x in line[..n]
  }

  lemma FirstGrows(line: seq<Txid>, n: nat)
    requires n < |line| && Distinct(line)
    ensures FirstOf(line, n + 1) == FirstOf(line, n) + {line[n]} && line[n] !in FirstOf(line, n)
  {
    assert line[..n + 1] == line[..n] + [line[n]];
  }

  lemma AllOf(txs: Pool, t: Txid)
    requires Upward(txs) && t in txs
    ensures FirstOf(Lineage(txs, t), |Lineage(txs, t)|) == LineSet(txs, t)
  {
    hide Upward, Lineage;
    assert Lineage(txs, t)[..|Lineage(txs, t)|] == Lineage(txs, t);
  }

  lemma EmptyWeight(txs: Pool)
    ensures SetWeight(txs, {}) == 0
  {
  }

  lemma RemovedShapes(txs: Pool, leaf: Txid)
    ensures Shapes(txs - {leaf}) == Shapes(txs) - {leaf}
  {
  }

  lemma InsertedShapes(txs: Pool, t: Txid, e: Entry)
    ensures Shapes(txs[t := e]) == Shapes(txs)[t := ShapeOf(e)]
  {
  }

  lemma ShapesAt(txs: Pool)
    ensures txs.Keys == Shapes(txs).Keys
    ensures forall t | t in txs :: Shapes(txs)[t] == ShapeOf(txs[t])
  {
  }

  lemma AdjustedNothing(txs: Pool, vsize: nat, base: nat, add: bool)
    ensures AdjustedAlong(txs, [], vsize, base, add) == txs
  {
  }

  lemma NothingTruthful(maxChain: nat)
    ensures Truthful(map[], map[]) && Short(map[], maxChain)
  {
  }

  lemma NothingReceived(txs: Pool, arrivals: seq<Arrival>, maxSatVb: nat)
    ensures Received(txs, txs, arrivals, 0, maxSatVb)
  {
  }

  lemma NextIsFresh(before: Pool, after: Pool, arrivals: seq<Arrival>, i: nat, maxSatVb: nat)
    requires FreshArrivals(before, arrivals) && i < |arrivals| && Received(before, after, arrivals, i, maxSatVb)
    ensures arrivals[i].txid !in after && arrivals[i].Valid()
  {
  }

  lemma ReceivedOneMeans(before: Pool, after: Pool, a: Arrival, maxSatVb: nat)
    requires a.txid !in before && ReceivedOne(before, after, a, maxSatVb)
    ensures after.Keys == before.Keys + {a.txid}
    ensures Untouched(before, after) && ArrivesAs(after, a, maxSatVb)
  {
    ShapesAt(before);
    ShapesAt(after);
  }

  lemma IdsGrow(arrivals: seq<Arrival>, i: nat)
    requires i < |arrivals|
    ensures ArrivalIds(arrivals, i + 1) == ArrivalIds(arrivals, i) + {arrivals[i].txid}
  {
  }

  lemma KeysGrow(before: set<Txid>, was: set<Txid>, arrivals: seq<Arrival>, i: nat)
    requires i < |arrivals| && was == before + ArrivalIds(arrivals, i)
    ensures was + {arrivals[i].txid} == before + ArrivalIds(arrivals, i + 1)
  {
    hide ArrivalIds;
    IdsGrow(arrivals, i);
  }

  lemma UntouchedTwice(before: Pool, was: Pool, after: Pool)
    requires before.Keys <= was.Keys && Untouched(before, was) && Untouched(was, after)
    ensures Untouched(before, after)
  {
  }

  lemma StaysAs(was: Pool, after: Pool, a: Arrival, maxSatVb: nat)
    requires Untouched(was, after) && a.txid in after && ArrivesAs(was, a, maxSatVb)
    ensures ArrivesAs(after, a, maxSatVb)
  {
  }

  lemma AllStayAs(was: Pool, after: Pool, arrivals: seq<Arrival>, i: nat, maxSatVb: nat)
    requires i <= |arrivals| && Untouched(was, after) && was.Keys <= after.Keys
    requires forall k | 0 <= k < i :: ArrivesAs(was, arrivals[k], maxSatVb)
    ensures forall k | 0 <= k < i :: ArrivesAs(after, arrivals[k], maxSatVb)
  {
    hide Untouched, ArrivedAlone, ArrivedBelow, ShapeOf;
    forall k | 0 <= k < i ensures ArrivesAs(after, arrivals[k], maxSatVb) {
      StaysAs(was, after, arrivals[k], maxSatVb);
    }
  }

  lemma ReceivedMore(before: Pool, was: Pool, after: Pool, arrivals: seq<Arrival>, i: nat, maxSatVb: nat)
    requires i < |arrivals| && Received(before, was, arrivals, i, maxSatVb)
    requires arrivals[i].txid !in was && ReceivedOne(was, after, arrivals[i], maxSatVb)
    ensures Received(before, after, arrivals, i + 1, maxSatVb)
  {
    hide ReceivedOne, Untouched, ArrivesAs, ArrivalIds;
    ReceivedOneMeans(was, after, arrivals[i], maxSatVb);
    KeysGrow(before.Keys, was.Keys, arrivals, i);
    UntouchedTwice(before, was, after);
    AllStayAs(was, after, arrivals, i, maxSatVb);
  }

  lemma {:induction false} IdCount(arrivals: seq<Arrival>, n: nat)
    requires n <= |arrivals| && FreshArrivals(map[], arrivals)
    ensures |ArrivalIds(arrivals, n)| == n
  {
    if n == 0 {
      assert ArrivalIds(arrivals, 0) == {};
    } else {
      IdCount(arrivals, n - 1);
      IdsGrow(arrivals, n - 1);
    }
  }

  lemma ReceivedSize(before: Pool, after: Pool, arrivals: seq<Arrival>, maxSatVb: nat)
    requires FreshArrivals(before, arrivals) && Received(before, after, arrivals, |arrivals|, maxSatVb)
    ensures |after| == |before| + |arrivals|
  {
    hide ArrivesAs, Untouched;
    IdCount(arrivals, |arrivals|);
    assert before.Keys !! ArrivalIds(arrivals, |arrivals|);
    assert |after| == |after.Keys| && |before| == |before.Keys|;
  }

  /** Arrivals after evictions: nobody evicted comes back under its old id. */
  lemma ReceivedAfter(before: Pool, kept: Pool, after: Pool, arrivals: seq<Arrival>, maxSatVb: nat)
    requires FreshArrivals(before, arrivals) && kept.Keys <= before.Keys && Untouched(before, kept)
    requires Received(kept, after, arrivals, |arrivals|, maxSatVb)
    ensures ArrivalIds(arrivals, |arrivals|) <= after.Keys <= before.Keys + ArrivalIds(arrivals, |arrivals|)
    ensures Untouched(before, after)
  {
    hide ShapeOf;
    assert before.Keys !! ArrivalIds(arrivals, |arrivals|);
  }

  lemma StillFresh(before: Pool, kept: Pool, arrivals: seq<Arrival>)
    requires FreshArrivals(before, arrivals) && kept.Keys <= before.Keys
    ensures FreshArrivals(kept, arrivals)
  {
  }
}
