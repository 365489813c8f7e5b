/** What a block may hold, and what the placed transactions pay. */
module PackingBlocks {
  import opened UidSums
  import opened TxGraph
  import opened Packing
  import opened PackingInvariants
  import opened PackingOrder

  ghost predicate WithinLimit(g: Input, block: seq<nat>)
    requires InBounds(g, block)
  {
    g.reserved + SumSeq(g.Weights(), block) <= g.limit
  }

  /** The block is the package of a single transaction, given what earlier blocks hold. */
  ghost predicate OnePackage(g: Input, earlier: set<nat>, block: seq<nat>)
    requires g.Valid()
  {
    exists t: nat | t < |g.txs| :: block == Package(g, t, earlier)
  }

  /** A weight-limited block respects its limit, unless it is one package that could not
      have fitted any block. */
  ghost predicate Fair(g: Input, earlier: set<nat>, block: seq<nat>)
    requires g.Valid()
  {
    InBounds(g, block) && block != [] && (WithinLimit(g, block) || OnePackage(g, earlier, block))
  }

  ghost function Earlier(blocks: seq<seq<nat>>, i: nat): set<nat>
    requires i <= |blocks|
  {
    Elements(Flatten(blocks[..i]))
  }

  ghost predicate ClosedFair(g: Input, blocks: seq<seq<nat>>)
    requires g.Valid()
  {
    && (|blocks| == 0 || |blocks| < g.maxBlocks)
    && forall i | 0 <= i < |blocks| :: Fair(g, Earlier(blocks, i), blocks[i])
  }

  ghost predicate OpenFair(g: Input, blocks: seq<seq<nat>>, cur: seq<nat>, weight: nat)
    requires g.Valid()
  {
    && (cur != [] && Bounded(g, blocks) ==> Fair(g, Earlier(blocks, |blocks|), cur))
    && InBounds(g, cur) && weight == g.reserved + SumSeq(g.Weights(), cur)
  }

  ghost predicate Packed(g: Input, s: State)
    requires g.Valid()
  {
    ClosedFair(g, s.blocks) && OpenFair(g, s.blocks, s.cur, s.weight)
  }

  lemma EarlierIsUsed(g: Input, s: State)
    requires Ordered(g, s) && s.cur == []
    ensures Earlier(s.blocks, |s.blocks|) == s.used
  {
    assert s.blocks[..|s.blocks|] == s.blocks;
    assert Placed(s) == Flatten(s.blocks);
  }

  lemma PlaceOpenFair(g: Input, s: State, t: nat)
    requires g.Exact() && WellFormed(g, s) && t < |g.txs| && Fits(g, s, t)
    requires OpenFair(g, s.blocks, s.cur, s.weight)
    requires s.cur == [] ==> Earlier(s.blocks, |s.blocks|) == s.used
    ensures OpenFair(g, s.blocks, s.cur + Package(g, t, s.used), s.weight + PackageWeight(g, t, s.used))
  {
    var pkg := Package(g, t, s.used);
    PackageSumSeqs(g, t, s.used);
    SumSeqConcat(g.Weights(), s.cur, pkg);
    if s.cur == [] {
      assert s.cur + pkg == pkg;
      assert OnePackage(g, s.used, pkg);
    }
  }

  lemma PlacePacked(g: Input, s: State, t: nat)
    requires g.Exact() && WellFormed(g, s) && t < |g.txs| && Ordered(g, s) && Packed(g, s)
    requires Fits(g, s, t)
    ensures Packed(g, Place(g, s, t))
  {
    if s.cur == [] {
      EarlierIsUsed(g, s);
    }
    PlaceOpenFair(g, s, t);
  }

  lemma PackedFrame(g: Input, s: State, t: State)
    requires g.Valid() && Packed(g, s)
    requires t.blocks == s.blocks && t.cur == s.cur && t.weight == s.weight
    ensures Packed(g, t)
  {
  }

  lemma ActedPacked(g: Input, s: State)
    requires g.Exact() && WellFormed(g, s) && s.heap != multiset{} && Ordered(g, s) && Packed(g, s)
    ensures Packed(g, Acted(g, s))
  {
    hide OpenFair, ClosedFair, Place, Ordered;
    ActedCases(g, s);
    if ActionOf(g, s).Take? {
      OrderedFrame(g, s, AfterPop(s));
      PackedFrame(g, s, AfterPop(s));
      PlacePacked(g, AfterPop(s), Popped(s).uid);
    } else {
      PackedFrame(g, s, Acted(g, s));
    }
  }

  lemma ClosePacked(g: Input, s: State)
    requires g.Valid() && WellFormed(g, s) && Packed(g, s)
    ensures Packed(g, Close(g, s))
  {
    if Closes(g, s) {
      var blocks := s.blocks + [s.cur];
      forall i | 0 <= i < |blocks| ensures Fair(g, Earlier(blocks, i), blocks[i]) {
        assert blocks[..i] == s.blocks[..i];
        assert Fair(g, Earlier(s.blocks, i), blocks[i]);
      }
    }
  }

  lemma StepPacked(g: Input, s: State)
    requires g.Exact() && WellFormed(g, s) && s.heap != multiset{} && Ordered(g, s) && Packed(g, s)
    ensures Packed(g, Step(g, s))
  {
    ActedPacked(g, s);
    ClosePacked(g, Acted(g, s));
  }

  /** What a weight pays at a rate, in quarter satoshis. */
  ghost function Pay(rate: real, weight: nat): real {
    rate * weight as real
  }

  /** What the placed transactions below uid k pay, at their effective rates. */
  ghost function Collected(g: Input, rates: map<nat, real>, k: nat): real
    requires k <= |g.txs|
  {
    if k == 0 then 0.0
    else Collected(g, rates, k - 1) + (if k - 1 in rates then Pay(rates[k - 1], g.Weights()[k - 1]) else 0.0)
  }

  lemma Distribute(r: real, x: nat, y: nat)
    ensures Pay(r, x + y) == Pay(r, x) + Pay(r, y)
  {
  }

  /** next extends rates by giving everything in added the rate r. */
  ghost predicate ExtendsBy(next: map<nat, real>, rates: map<nat, real>, added: set<nat>, r: real) {
    && rates.Keys !! added
    && next.Keys == rates.Keys + added
    && (forall m | m in rates :: next[m] == rates[m])
    && (forall m | m in added :: next[m] == r)
  }

  lemma {:induction false} CollectedGrows(g: Input, rates: map<nat, real>, next: map<nat, real>,
                                          added: set<nat>, r: real, k: nat)
    requires k <= |g.txs| && ExtendsBy(next, rates, added, r)
    ensures Collected(g, next, k) == Collected(g, rates, k) + Pay(r, SumTo(g.Weights(), added, k))
  {
    if k > 0 {
      CollectedGrows(g, rates, next, added, r, k - 1);
      if k - 1 in added {
        Distribute(r, SumTo(g.Weights(), added, k - 1), g.Weights()[k - 1]);
      } else {
        assert SumTo(g.Weights(), added, k) == SumTo(g.Weights(), added, k - 1);
      }
    }
  }

  lemma RateTimesWeight(fee: nat, weight: nat)
    requires weight > 0
    ensures Pay(Rate(fee, weight), weight) == 4.0 * fee as real
  {
  }

  ghost predicate PositiveWeights(g: Input) {
    forall i | 0 <= i < |g.txs| :: g.txs[i].weight > 0
  }

  /** Effective rates collect exactly the fees: every virtual byte is four weight units. */
  ghost predicate FeesConserved(g: Input, s: State) {
    Collected(g, s.rates, |g.txs|) == 4.0 * Sum(g.Fees(), s.used) as real
  }

  lemma PlaceExtends(g: Input, s: State, t: nat)
    requires g.Valid() && WellFormed(g, s) && t < |g.txs| && t !in s.used && s.rates.Keys == s.used
    ensures ExtendsBy(RatesWith(g, t, s), s.rates, Missing(g, t, s.used) + {t}, PackageRate(g, t, s.used))
  {
  }

  lemma PlaceCollects(g: Input, s: State, t: nat)
    requires g.Exact() && PositiveWeights(g) && WellFormed(g, s) && t < |g.txs| && t !in s.used
    requires s.rates.Keys == s.used
    ensures Collected(g, RatesWith(g, t, s), |g.txs|)
         == Collected(g, s.rates, |g.txs|) + 4.0 * PackageFee(g, t, s.used) as real
  {
    var added := Missing(g, t, s.used) + {t};
    PlaceExtends(g, s, t);
    CollectedGrows(g, s.rates, RatesWith(g, t, s), added, PackageRate(g, t, s.used), |g.txs|);
    PackageSums(g, t, s.used);
    RateTimesWeight(PackageFee(g, t, s.used), PackageWeight(g, t, s.used));
  }

  lemma PlaceConserves(g: Input, s: State, t: nat)
    requires g.Exact() && PositiveWeights(g) && WellFormed(g, s) && t < |g.txs| && t !in s.used
    requires s.rates.Keys == s.used && FeesConserved(g, s)
    ensures FeesConserved(g, Place(g, s, t))
  {
    var added := Missing(g, t, s.used) + {t};
    PlaceCollects(g, s, t);
    PackageSums(g, t, s.used);
    assert UsedWith(g, t, s.used) == s.used + added;
    SumUnion(g.Fees(), s.used, added);
  }

  lemma StepConserves(g: Input, s: State)
    requires g.Exact() && PositiveWeights(g) && WellFormed(g, s) && s.heap != multiset{}
    requires s.rates.Keys == s.used && FeesConserved(g, s)
    ensures FeesConserved(g, Step(g, s))
  {
    hide Score, Place, Collected, Sum;
    ActedCases(g, s);
    if ActionOf(g, s).Take? {
      assert FeesConserved(g, AfterPop(s));
      PlaceConserves(g, AfterPop(s), Popped(s).uid);
    }
    assert FeesConserved(g, Acted(g, s));
  }

  /** Every placed transaction without parents got at least its own rate. */
  ghost predicate RootsLifted(g: Input, s: State) {
    forall m | m in s.used && m in s.rates && m < |g.txs| && g.txs[m].parents == [] ::
      s.rates[m] >= OwnRate(g, m) - TOLERANCE
  }

  /** The rate a package is given is at least the current score of each of its members. */
  lemma PackageLiftsMembers(g: Input, s: State, m: nat)
    requires g.Exact() && Sound(g, s) && s.heap != multiset{} && ActionOf(g, s).Take?
    requires Popped(s).uid < |g.txs|
    requires m in Missing(g, Popped(s).uid, s.used) + {Popped(s).uid}
    ensures PackageRate(g, Popped(s).uid, s.used) >= Score(g, m, s.used) - TOLERANCE
  {
    var t := Popped(s).uid;
    if m != t {
      PackageInside(g, m, t, s.used);
      TopBeatsFitting(g, s, m);
    }
  }

  lemma RootScore(g: Input, m: nat, used: set<nat>)
    requires g.Exact() && m < |g.txs| && g.txs[m].parents == []
    ensures Score(g, m, used) == OwnRate(g, m)
  {
    forall a | a in g.anc[m] ensures false {
      var p := AncestorFirstStep(g.txs, a, m);
    }
    assert Missing(g, m, used) == {};
    SumEmpty(g.Weights());
    SumEmpty(g.Fees());
  }

  lemma TakeLiftsRoots(g: Input, s: State)
    requires g.Exact() && Sound(g, s) && s.heap != multiset{} && ActionOf(g, s).Take?
    requires s.rates.Keys == s.used && RootsLifted(g, s)
    ensures RootsLifted(g, Acted(g, s))
  {
    ActedCases(g, s);
    var t := Popped(s).uid;
    var next := Acted(g, s);
    forall m | m in next.used && m in next.rates && m < |g.txs| && g.txs[m].parents == []
      ensures next.rates[m] >= OwnRate(g, m) - TOLERANCE
    {
      if m in Missing(g, t, s.used) + {t} {
        PackageLiftsMembers(g, s, m);
        RootScore(g, m, s.used);
      }
    }
  }

  lemma StepLiftsRoots(g: Input, s: State)
    requires g.Exact() && Sound(g, s) && s.heap != multiset{}
    requires s.rates.Keys == s.used && RootsLifted(g, s)
    ensures RootsLifted(g, Step(g, s))
  {
    ActedCases(g, s);
    if ActionOf(g, s).Take? {
      TakeLiftsRoots(g, s);
    }
    assert RootsLifted(g, Acted(g, s));
  }
}
