/** What one tick of the sync loop does, in terms of what the node answered and the clock. */
module SyncTicks {
  import opened Wrappers
  import opened Txids
  import opened UidSums
  import TxGraph
  import Packing
  import opened Decision
  import opened Tiers
  import opened FeePipeline
  import opened SyncModel
  import opened SyncRuns

  /** The node answered but is not to be followed transaction by transaction: it says it is still
      loading, or holds less than a fifth of a cache of at least a hundred. */
  ghost predicate Distrusts(s: SyncState, w: Weather) {
    && w.info.Ok? && w.listing.Ok?
    && (w.info.value.loaded == Some(false) || (|s.txs| >= 100 && |w.listing.value| * 5 < |s.txs|))
  }

  ghost predicate Trusts(s: SyncState, w: Weather) {
    w.info.Ok? && w.listing.Ok? && !Distrusts(s, w)
  }

  ghost predicate Cooling(s: SyncState, w: Weather) {
    w.decideAt < s.lastBulk + 60_000_000_000
  }

  lemma ActionMeans(s: SyncState, w: Weather)
    requires w.info.Ok? && w.listing.Ok? && |s.txs| <= 0xFFFF_FFFF_FFFF_FFFF
    ensures WorksIncrementally(s, w) <==> Trusts(s, w)
    ensures AttemptsBulk(s, w) <==> Distrusts(s, w) && !Cooling(s, w)
  {
    MassDropIsFifth(|s.txs|, |w.listing.value|);
  }

  /** A tick that cannot ask the node changes nothing but calls the cache stale. */
  lemma UnansweredTick(s: SyncState, w: Weather, minInterval: nat, t: SyncState)
    requires TicksTo(s, w, minInterval, t) && (w.info.Err? || w.listing.Err?)
    ensures t == s.(caughtUp := false)
  {
    hide EstimateOf, Lists, FetchedOf, Behind;
  }

  /** A node that is not trusted is left alone for 60 seconds after the last download, and then
      downloaded as a whole; until that succeeds the cache stays as it is and is called stale. */
  lemma DistrustedTick(s: SyncState, w: Weather, minInterval: nat, t: SyncState)
    requires TicksTo(s, w, minInterval, t) && Distrusts(s, w) && |s.txs| <= 0xFFFF_FFFF_FFFF_FFFF
    ensures Cooling(s, w) ==> t == s.(caughtUp := false)
    ensures !Cooling(s, w) && !(w.bulk.entries.Ok? && w.bulk.info.Ok? && w.bulk.tip.Ok?) ==>
              t == s.(caughtUp := false, lastBulk := w.stampAt)
    ensures !Cooling(s, w) && w.bulk.entries.Ok? && w.bulk.info.Ok? && w.bulk.tip.Ok? ==>
              && t.caughtUp && t.lastSyncOk == Some(w.syncedAt) && t.lastBulk == w.stampAt
              && IsDump(w.bulk, t)
  {
    hide EstimateOf, Lists, FetchedOf, Behind, DecideDesync, Convert, IsDump;
    ActionMeans(s, w);
    if AttemptsBulk(s, w) && BulkSucceeds(w.bulk) {
      LoadIsDump(s.(lastBulk := w.stampAt), w.bulk);
      assert t.txs == LoadedFrom(s.(lastBulk := w.stampAt), w.bulk).txs;
      DumpFrame(w.bulk, LoadedFrom(s.(lastBulk := w.stampAt), w.bulk), t);
    }
  }

  /** The cold start leaves exactly the reported mempool, called fresh. */
  lemma StartIsDump(r: BulkReply, loadedAt: nat, w: Weather, s: SyncState)
    requires StartsAs(r, loadedAt, w, s)
    ensures r.entries.Ok? && r.info.Ok? && r.tip.Ok? && IsDump(r, s)
    ensures s.caughtUp && s.lastSyncOk == Some(w.syncedAt) && s.lastBulk == loadedAt
  {
    hide IsDump, EstimateOf;
    LoadIsDump(Empty(), r);
    DumpFrame(r, LoadedFrom(Empty(), r), s);
  }

  /** The answer at position i of the completions is consumed: it came no later than the answers
      at hand when the time budget was found exceeded. */
  ghost predicate Consumed(w: Weather, x: Txid) {
    exists i | 0 <= i < |w.completions| && i <= w.budgetAt + w.readyAfter :: w.completions[i] == x
  }

  lemma ConsumedIsResolved(w: Weather, x: Txid)
    ensures Consumed(w, x) <==> x in Resolved(w)
  {
    if x in Resolved(w) {
      var i :| 0 <= i < |Resolved(w)| && Resolved(w)[i] == x;
      assert w.completions[i] == x;
    }
    if Consumed(w, x) {
      var i :| 0 <= i < |w.completions| && i <= w.budgetAt + w.readyAfter && w.completions[i] == x;
      assert Resolved(w)[i] == x;
    }
  }

  /** Up to 2000 of the listed transactions that are not cached are asked for. */
  lemma AsksForNew(s: SyncState, w: Weather)
    requires Possible(s, w) && w.listing.Ok?
    ensures |w.completions| == if |w.listing.value - s.txs.Keys| <= 2000 then |w.listing.value - s.txs.Keys| else 2000
    ensures forall x | x in w.completions :: x in w.listing.value && x !in s.txs
  {
    CandidatesListed(s, w);
    forall x | x in w.completions ensures x in w.listing.value && x !in s.txs {
      assert x in Elements(Candidates(w));
    }
  }

  /** Every listed transaction that is not cached was asked for, and its answer was consumed and
      was no error. */
  ghost predicate AllResolved(s: SyncState, w: Weather)
    requires Possible(s, w) && w.listing.Ok?
  {
    forall x | x in w.listing.value && x !in s.txs :: Consumed(w, x) && x in w.answers && !w.answers[x].Failed?
  }

  lemma BehindMeans(s: SyncState, w: Weather)
    requires Possible(s, w) && w.listing.Ok?
    ensures Behind(s, w) <==> !AllResolved(s, w)
  {
    hide Lists;
    CandidatesListed(s, w);
    forall x ensures Consumed(w, x) <==> x in Resolved(w) {
      ConsumedIsResolved(w, x);
    }
    if !Behind(s, w) {
      hide Consumed;
      ResolvedAll(s, w);
      NoneFailed(s, w);
    } else if AllResolved(s, w) {
      hide Consumed;
      assert NewTxids(s, w) <= Elements(Resolved(w));
      ResolvedSize(s, w);
      SubsetCount(NewTxids(s, w), Elements(Resolved(w)));
      FailedIsNew(s, w);
    }
  }

  lemma SubsetCount(a: set<Txid>, b: set<Txid>)
    requires a <= b
    ensures |a| <= |b|
  {
    assert b == a + (b - a);
  }

  lemma ResolvedSize(s: SyncState, w: Weather)
    requires Possible(s, w) && w.listing.Ok?
    ensures |Elements(Resolved(w))| == ResolvedCount(w) <= |Candidates(w)| <= 2000
  {
    CandidatesListed(s, w);
    assert Lists(Resolved(w), Elements(Resolved(w)));
    ListsSize(Resolved(w), Elements(Resolved(w)));
  }

  lemma FailedIsNew(s: SyncState, w: Weather)
    requires Possible(s, w) && w.listing.Ok?
    ensures forall x | x in Resolved(w) :: x in w.listing.value && x !in s.txs
  {
    AsksForNew(s, w);
    forall x | x in Resolved(w) ensures x in w.completions {
    }
  }

  lemma FetchedMeans(s: SyncState, w: Weather)
    requires Possible(s, w) && w.listing.Ok?
    ensures forall x :: x in FetchedOf(w) <==> Consumed(w, x) && x in w.answers && w.answers[x].Found?
    ensures forall x | x in FetchedOf(w) ::
              x in w.answers && w.answers[x].Found? && Caches(w.answers[x].entry, FetchedOf(w)[x]) && x !in s.txs
  {
    hide Lists, FetchedOf, Consumed, Caches, Resolved;
    FetchedMembers(w);
    FetchedAreNew(s, w);
    ResolvedAnswered(s, w);
    forall x ensures Consumed(w, x) <==> x in Resolved(w) {
      ConsumedIsResolved(w, x);
    }
    forall x | x in FetchedOf(w)
      ensures x in w.answers && w.answers[x].Found? && Caches(w.answers[x].entry, FetchedOf(w)[x])
    {
      FetchedEntry(w, x);
    }
  }

  /** A trusted node is followed transaction by transaction: what it no longer lists is dropped at
      once, and what is found is added as reported. */
  lemma TrustedTick(s: SyncState, w: Weather, minInterval: nat, t: SyncState)
    requires TicksTo(s, w, minInterval, t) && Trusts(s, w) && |s.txs| <= 0xFFFF_FFFF_FFFF_FFFF
    ensures forall x :: x in t.txs <==>
              (x in s.txs && x in w.listing.value) || (Consumed(w, x) && x in w.answers && w.answers[x].Found?)
    ensures forall x | x in t.txs ::
              if x in s.txs then t.txs[x] == s.txs[x]
              else x in w.answers && w.answers[x].Found? && Caches(w.answers[x].entry, t.txs[x])
  {
    hide EstimateOf, Lists, FetchedOf, Behind, DecideDesync, Consumed, Caches, Resolved;
    ActionMeans(s, w);
    IncrementalIs(s, w);
    FetchedMeans(s, w);
    assert t.txs == s.txs - GoneTxids(s, w) + FetchedOf(w);
    hide TicksTo, WorksIncrementally, Ticked, Trusts;
  }

  /** It also takes over the minimum fee and, if it got one, the tip; and it calls the cache fresh
      exactly if everything listed that was not cached has been resolved. */
  lemma TrustedTickFlags(s: SyncState, w: Weather, minInterval: nat, t: SyncState)
    requires TicksTo(s, w, minInterval, t) && Trusts(s, w) && |s.txs| <= 0xFFFF_FFFF_FFFF_FFFF
    ensures t.minFee * 1000.0 == w.info.value.minFeeSatPerKvb as real
    ensures t.tipHeight == match w.tip case Ok(h) => h case Err => s.tipHeight
    ensures t.lastBulk == s.lastBulk
    ensures t.caughtUp <==> AllResolved(s, w)
    ensures t.lastSyncOk == if t.caughtUp then Some(w.syncedAt) else s.lastSyncOk
  {
    hide EstimateOf, Lists, FetchedOf, Behind, DecideDesync, AllResolved;
    ActionMeans(s, w);
    IncrementalIs(s, w);
    BehindMeans(s, w);
  }

  lemma ResolvedAnswered(s: SyncState, w: Weather)
    requires Possible(s, w) && w.listing.Ok?
    ensures forall x | x in Resolved(w) :: x in w.answers
  {
    forall x | x in Resolved(w) ensures x in w.completions {
    }
  }

  /** A node that does not say whether it is loaded counts as loaded. */
  lemma UnsaidMeansLoaded(s: SyncState, w: Weather, minInterval: nat, t: SyncState)
    requires w.info.Ok? && w.info.value.loaded == None
    ensures TicksTo(s, w, minInterval, t)
       <==> TicksTo(s, w.(info := Ok(w.info.value.(loaded := Some(true)))), minInterval, t)
  {
    hide EstimateOf, Possible, Ticked, Recomputes;
    var said := w.(info := Ok(w.info.value.(loaded := Some(true))));
    SameButLoaded(s, w, said);
    if Possible(s, w) {
      SameTicked(s, w, said);
    }
  }

  lemma SameTicked(s: SyncState, w: Weather, said: Weather)
    requires w.info.Ok? && w.info.value.loaded == None && Possible(s, w)
    requires said == w.(info := Ok(w.info.value.(loaded := Some(true))))
    ensures Possible(s, said) && Ticked(s, w) == Ticked(s, said)
    ensures forall minInterval: nat :: Recomputes(s, w, minInterval) <==> Recomputes(s, said, minInterval)
  {
    hide Possible, AttemptsBulk, FetchedOf, Behind, ActionOf, LoadedFrom;
    SameButLoaded(s, w, said);
  }

  lemma SameButLoaded(s: SyncState, w: Weather, said: Weather)
    requires w.info.Ok? && w.info.value.loaded == None
    requires said == w.(info := Ok(w.info.value.(loaded := Some(true))))
    ensures Possible(s, w) <==> Possible(s, said)
    ensures AttemptsBulk(s, w) <==> AttemptsBulk(s, said)
    ensures WorksIncrementally(s, w) <==> WorksIncrementally(s, said)
    ensures Possible(s, w) && w.listing.Ok? ==>
              && FetchedOf(w) == FetchedOf(said) && (Behind(s, w) <==> Behind(s, said))
              && ActionOf(s, w) == ActionOf(s, said)
  {
    assert Candidates(w) == Candidates(said) && ResolvedCount(w) == ResolvedCount(said);
    assert Resolved(w) == Resolved(said);
  }

  /** The fee estimate was computed anew from the cache this tick leaves, or at least attempted. */
  ghost predicate Recomputed(s: SyncState, w: Weather, t: SyncState) {
    && t.lastRecompute == w.recomputeDoneAt
    && Renews(w, s.estimate, t.txs, t.minFee, t.estimate)
  }

  /** The estimate is never touched by a tick that leaves the cache stale; a download always
      renews it, and any other tick does once the interval is over. */
  lemma RenewsEstimate(s: SyncState, w: Weather, minInterval: nat, t: SyncState)
    requires TicksTo(s, w, minInterval, t) && |s.txs| <= 0xFFFF_FFFF_FFFF_FFFF
    ensures !t.caughtUp ==> t.estimate == s.estimate && t.lastRecompute == s.lastRecompute
    ensures t.caughtUp && (Distrusts(s, w) || minInterval == 0 || w.recomputeAt >= s.lastRecompute + minInterval) ==>
              Recomputed(s, w, t)
    ensures Trusts(s, w) && minInterval > 0 && w.recomputeAt < s.lastRecompute + minInterval ==>
              t.estimate == s.estimate && t.lastRecompute == s.lastRecompute
  {
    hide EstimateOf, Lists, FetchedOf, Behind, DecideDesync;
    if w.info.Ok? && w.listing.Ok? {
      ActionMeans(s, w);
    }
    HonestTick(s, w, minInterval, t);
  }

  /** What an estimate is computed from: the cache, once each, in the order of ids. */
  lemma SnapshotMeans(txs: map<Txid, MempoolTx>, snapshot: seq<SnapshotTx>)
    requires SortedSnapshot(txs, snapshot)
    ensures forall i | 0 <= i < |snapshot| ::
              var x := snapshot[i];
              && x.txid in txs && x.fee == txs[x.txid].fee && x.weight == txs[x.txid].weight
              && x.depends == txs[x.txid].depends
    ensures forall i, j | 0 <= i < j < |snapshot| :: snapshot[i].txid < snapshot[j].txid
    ensures forall t | t in txs :: exists i | 0 <= i < |snapshot| :: snapshot[i].txid == t
  {
    forall t | t in txs ensures exists i | 0 <= i < |snapshot| :: snapshot[i].txid == t {
      assert Listed(snapshot, t);
    }
  }

  /** snapshot lists the cache, once each, in the order of ids. */
  ghost predicate ListsCache(txs: map<Txid, MempoolTx>, snapshot: seq<SnapshotTx>) {
    && |snapshot| == |txs|
    && (forall i | 0 <= i < |snapshot| ::
          var x := snapshot[i];
          x.txid in txs && x == SnapshotTx(x.txid, txs[x.txid].fee, txs[x.txid].weight, txs[x.txid].depends))
    && forall i, j | 0 <= i < j < |snapshot| :: snapshot[i].txid < snapshot[j].txid
  }

  lemma SortedListsCache(txs: map<Txid, MempoolTx>, snapshot: seq<SnapshotTx>)
    requires SortedSnapshot(txs, snapshot)
    ensures ListsCache(txs, snapshot)
  {
    SnapshotMeans(txs, snapshot);
    var ids := seq(|snapshot|, i requires 0 <= i < |snapshot| => snapshot[i].txid);
    forall t | t in txs ensures t in ids {
      var i :| 0 <= i < |snapshot| && snapshot[i].txid == t;
      assert ids[i] == t;
    }
    ListsSize(ids, txs.Keys);
    assert |txs| == |txs.Keys|;
  }

  /** e reads its tiers off a projection of the snapshot, at 1, 3, 6 and 8 blocks of weight. */
  ghost predicate ReadsTiers(snapshot: seq<SnapshotTx>, p: Packing.Projection, minFee: real, e: FeeEstimate) {
    && (exists txs: seq<TxGraph.GbtTx> :: ProjectsFrom(snapshot, txs, p))
    && IsMempoolQuantile(snapshot, p.rates, 3_996_000, minFee, e.nextBlock)
    && IsMempoolQuantile(snapshot, p.rates, 11_988_000, minFee, e.within3Blocks)
    && IsMempoolQuantile(snapshot, p.rates, 23_976_000, minFee, e.within6Blocks)
    && IsMempoolQuantile(snapshot, p.rates, 31_968_000, minFee, e.horizon)
    && e.relayFloor == minFee
  }

  /** From the cache to the tiers: an estimate of a cache reads them off the projection of what is
      cached, with the cache's minimum fee as floor. */
  lemma EstimateReadsTiers(txs: map<Txid, MempoolTx>, minFee: real, e: FeeEstimate)
    requires EstimateOf(txs, minFee, e)
    ensures exists snapshot: seq<SnapshotTx>, p: Packing.Projection ::
              ListsCache(txs, snapshot) && ReadsTiers(snapshot, p, minFee, e)
  {
    hide EstimatesFrom, IsMempoolQuantile, ProjectsFrom, SortedSnapshot, ListsCache;
    var snapshot :| SortedSnapshot(txs, snapshot) && EstimatesFrom(snapshot, minFee, e.computedAt, e);
    SortedListsCache(txs, snapshot);
    EstimateMeans(snapshot, minFee, e.computedAt, e);
    var gbt: seq<TxGraph.GbtTx>, p: Packing.Projection :| ProjectsFrom(snapshot, gbt, p)
      && IsMempoolQuantile(snapshot, p.rates, 3_996_000, minFee, e.nextBlock)
      && IsMempoolQuantile(snapshot, p.rates, 11_988_000, minFee, e.within3Blocks)
      && IsMempoolQuantile(snapshot, p.rates, 23_976_000, minFee, e.within6Blocks)
      && IsMempoolQuantile(snapshot, p.rates, 31_968_000, minFee, e.horizon);
    assert ReadsTiers(snapshot, p, minFee, e);
  }
}
