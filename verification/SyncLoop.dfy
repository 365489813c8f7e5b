/** The sync loop: the cache and the loop's variables, updated in place by each tick. */
module SyncLoop {
  import opened Wrappers
  import opened Txids
  import opened UidSums
  import opened Decision
  import opened Tiers
  import opened FeePipeline
  import opened SyncModel

  /** Result of fetching (a capped slice of) a tick's new txids. */
  datatype FetchBatchResult = FetchBatchResult(fetched: seq<(Txid, MempoolTx)>, fetchErrors: nat, incomplete: bool)

  /** The successful answers among xs, in order. */
  ghost function FoundAmong(xs: seq<Txid>, answers: map<Txid, Fetch>): seq<(Txid, MempoolTx)>
    requires forall x | x in xs :: x in answers
  {
    if xs == [] then []
    else
      var x := xs[|xs| - 1];
      var front := FoundAmong(xs[..|xs| - 1], answers);
      if answers[x].Found? then front + [(x, Convert(answers[x].entry))] else front
  }

  ghost function FailedAmong(xs: seq<Txid>, answers: map<Txid, Fetch>): nat
    requires forall x | x in xs :: x in answers
  {
    if xs == [] then 0
    else FailedAmong(xs[..|xs| - 1], answers) + (if answers[xs[|xs| - 1]].Failed? then 1 else 0)
  }

  lemma {:induction false} FailedAmongPositive(xs: seq<Txid>, answers: map<Txid, Fetch>)
    requires forall x | x in xs :: x in answers
    ensures FailedAmong(xs, answers) > 0 <==> exists x :: x in xs && answers[x].Failed?
  {
    if xs != [] {
      var n := |xs| - 1;
      assert xs == xs[..n] + [xs[n]];
      FailedAmongPositive(xs[..n], answers);
    }
  }

  /** The map after inserting the pairs one after another. */
  function Inserted(txs: map<Txid, MempoolTx>, pairs: seq<(Txid, MempoolTx)>): map<Txid, MempoolTx> {
    if pairs == [] then txs
    else Inserted(txs, pairs[..|pairs| - 1])[pairs[|pairs| - 1].0 := pairs[|pairs| - 1].1]
  }

  lemma {:induction false} InsertingFound(txs: map<Txid, MempoolTx>, xs: seq<Txid>, answers: map<Txid, Fetch>)
    requires forall x | x in xs :: x in answers
    ensures Inserted(txs, FoundAmong(xs, answers)) == txs + FoundMap(xs, answers)
  {
    hide Convert, FoundMap;
    if xs == [] {
      NothingFound(answers);
    } else {
      var n := |xs| - 1;
      assert xs == xs[..n] + [xs[n]];
      InsertingFound(txs, xs[..n], answers);
      var front := FoundAmong(xs[..n], answers);
      if answers[xs[n]].Found? {
        var pair := (xs[n], Convert(answers[xs[n]].entry));
        assert (front + [pair])[..|front|] == front;
      }
      FoundMapGrows(xs, answers);
    }
  }

  function WithAnswer(txs: map<Txid, MempoolTx>, x: Txid, answer: Fetch): map<Txid, MempoolTx> {
    if answer.Found? then txs[x := Convert(answer.entry)] else txs
  }

  lemma NothingFound(answers: map<Txid, Fetch>)
    ensures FoundMap([], answers) == map[]
  {
  }

  lemma FoundMapGrows(xs: seq<Txid>, answers: map<Txid, Fetch>)
    requires xs != [] && forall x | x in xs :: x in answers
    ensures FoundMap(xs, answers) == WithAnswer(FoundMap(xs[..|xs| - 1], answers), xs[|xs| - 1], answers[xs[|xs| - 1]])
  {
    hide Convert;
    var n := |xs| - 1;
    assert xs == xs[..n] + [xs[n]];
  }

  lemma {:induction false} FoundAmongSize(xs: seq<Txid>, answers: map<Txid, Fetch>)
    requires forall x | x in xs :: x in answers
    requires forall i, j | 0 <= i < j < |xs| :: xs[i] != xs[j]
    ensures |FoundAmong(xs, answers)| == |FoundMap(xs, answers)|
  {
    if xs == [] {
      assert FoundMap(xs, answers) == map[];
    } else {
      var n := |xs| - 1;
      assert xs == xs[..n] + [xs[n]];
      FoundAmongSize(xs[..n], answers);
      FoundMapGrows(xs, answers);
      assert xs[n] !in FoundMap(xs[..n], answers);
    }
  }

  /** The pair is a transaction and what its fetch found, as it is to be cached. */
  ghost predicate IsAnswer(answers: map<Txid, Fetch>, pair: (Txid, MempoolTx)) {
    pair.0 in answers && answers[pair.0].Found? && Caches(answers[pair.0].entry, pair.1)
  }

  lemma {:induction false} FoundAreAnswers(xs: seq<Txid>, answers: map<Txid, Fetch>)
    requires forall x | x in xs :: x in answers
    ensures forall i | 0 <= i < |FoundAmong(xs, answers)| :: IsAnswer(answers, FoundAmong(xs, answers)[i])
  {
    if xs != [] {
      FoundAreAnswers(xs[..|xs| - 1], answers);
      if answers[xs[|xs| - 1]].Found? {
        ConvertCaches(answers[xs[|xs| - 1]].entry);
      }
    }
  }

  lemma NothingAmong(answers: map<Txid, Fetch>)
    ensures FoundAmong([], answers) == [] && FailedAmong([], answers) == 0
  {
  }

  /** Consumes the answers as they complete until the time budget is found exceeded, then
      drains those already at hand. */
  method FetchNewEntries(w: Weather) returns (res: FetchBatchResult)
    requires forall x | x in w.completions :: x in w.answers
    ensures res.fetched == FoundAmong(Resolved(w), w.answers)
    ensures res.fetchErrors == FailedAmong(Resolved(w), w.answers)
    ensures res.incomplete <==> Incomplete(w)
    ensures forall i | 0 <= i < |res.fetched| :: IsAnswer(w.answers, res.fetched[i])
  {
    hide FoundAmong, FailedAmong, Candidates, Convert;
    NothingAmong(w.answers);
    var attempted := |Candidates(w)|;
    var fetched: seq<(Txid, MempoolTx)> := [];
    var fetchErrors: nat := 0;
    var resolved: nat := 0;
    var done := w.completions;
    while resolved < |done|
      invariant resolved <= |done| && (resolved < |done| ==> resolved <= w.budgetAt)
      invariant resolved == |done| ==> ResolvedCount(w) == |done|
      invariant fetched == FoundAmong(done[..resolved], w.answers)
      invariant fetchErrors == FailedAmong(done[..resolved], w.answers)
    {
      fetched, fetchErrors := Process(done, resolved, w.answers, fetched, fetchErrors);
      resolved := resolved + 1;
      if resolved == w.budgetAt + 1 {
        while resolved < |done| && resolved < w.budgetAt + 1 + w.readyAfter
          invariant resolved <= ResolvedCount(w) <= |done|
          invariant fetched == FoundAmong(done[..resolved], w.answers)
          invariant fetchErrors == FailedAmong(done[..resolved], w.answers)
        {
          fetched, fetchErrors := Process(done, resolved, w.answers, fetched, fetchErrors);
          resolved := resolved + 1;
        }
        break;
      }
    }
    res := FetchBatchResult(fetched, fetchErrors, resolved < attempted);
    FoundAreAnswers(Resolved(w), w.answers);
  }

  /** Handles one answer: an entry is kept, a vanished transaction adds nothing, an error counts. */
  method Process(done: seq<Txid>, k: nat, answers: map<Txid, Fetch>, fetched: seq<(Txid, MempoolTx)>, fetchErrors: nat)
    returns (fetched': seq<(Txid, MempoolTx)>, fetchErrors': nat)
    requires k < |done| && forall x | x in done :: x in answers
    requires fetched == FoundAmong(done[..k], answers) && fetchErrors == FailedAmong(done[..k], answers)
    ensures fetched' == FoundAmong(done[..k + 1], answers) && fetchErrors' == FailedAmong(done[..k + 1], answers)
  {
    fetched', fetchErrors' := fetched, fetchErrors;
    assert done[..k + 1][..k] == done[..k];
    match answers[done[k]]
    case Found(e) => fetched' := fetched + [(done[k], Convert(e))];
    case Vanished =>
    case Failed => fetchErrors' := fetchErrors + 1;
  }

  /** The cache as a list, one entry a transaction, sorted by id. */
  method SortSnapshot(txs: map<Txid, MempoolTx>) returns (snapshot: seq<SnapshotTx>)
    ensures SortedSnapshot(txs, snapshot)
  {
    hide Excerpt, Ascending, Listed;
    snapshot := [];
    ExcerptEmpty(txs);
    var rest := txs.Keys;
    while rest != {}
      invariant rest <= txs.Keys && Excerpt(txs, snapshot) && Ascending(snapshot)
      invariant forall t | t in txs && t !in rest :: Listed(snapshot, t)
      invariant forall i | 0 <= i < |snapshot| :: snapshot[i].txid !in rest
      decreases rest
    {
      var t :| t in rest;
      var k := 0;
      while k < |snapshot| && snapshot[k].txid < t
        invariant k <= |snapshot| && forall i | 0 <= i < k :: snapshot[i].txid < t
      {
        k := k + 1;
      }
      var x := Snapshot(t, txs[t]);
      InsertAscending(snapshot, x, k);
      InsertExcerpt(txs, snapshot, t, k);
      InsertListed(snapshot, x, k);
      snapshot := snapshot[..k] + [x] + snapshot[k..];
      rest := rest - {t};
    }
  }

  lemma ExcerptEmpty(txs: map<Txid, MempoolTx>)
    ensures Excerpt(txs, []) && Ascending([])
  {
  }

  lemma InsertAscending(xs: seq<SnapshotTx>, x: SnapshotTx, k: nat)
    requires k <= |xs| && Ascending(xs)
    requires forall i | 0 <= i < k :: xs[i].txid < x.txid
    requires k < |xs| ==> xs[k].txid > x.txid
    ensures Ascending(xs[..k] + [x] + xs[k..])
  {
    var ys := xs[..k] + [x] + xs[k..];
    forall i | k <= i < |xs| ensures x.txid < xs[i].txid {
      assert xs[k].txid <= xs[i].txid;
    }
    forall i, j | 0 <= i < j < |ys| ensures ys[i].txid < ys[j].txid {
      var a := if i < k then xs[i] else if i == k then x else xs[i - 1];
      var b := if j < k then xs[j] else if j == k then x else xs[j - 1];
      assert ys[i] == a && ys[j] == b;
    }
  }

  lemma InsertExcerpt(txs: map<Txid, MempoolTx>, xs: seq<SnapshotTx>, t: Txid, k: nat)
    requires k <= |xs| && Excerpt(txs, xs) && t in txs
    ensures Excerpt(txs, xs[..k] + [Snapshot(t, txs[t])] + xs[k..])
  {
  }

  lemma InsertListed(xs: seq<SnapshotTx>, x: SnapshotTx, k: nat)
    requires k <= |xs|
    ensures forall t :: Listed(xs[..k] + [x] + xs[k..], t) <==> Listed(xs, t) || t == x.txid
  {
    var ys := xs[..k] + [x] + xs[k..];
    assert ys[k].txid == x.txid;
    forall i | 0 <= i < |xs| ensures Listed(ys, xs[i].txid) {
      assert ys[if i < k then i else i + 1] == xs[i];
    }
    forall i | 0 <= i < |ys| && i != k ensures Listed(xs, ys[i].txid) {
      assert ys[i] == xs[if i < k then i else i - 1];
    }
  }

  class Sync {
    var txs: map<Txid, MempoolTx>
    var minFee: real
    var tipHeight: nat
    var caughtUp: bool
    var lastSyncOk: Option<nat>
    var feeEstimate: Option<FeeEstimate>
    /** The freshness last logged. */
    var caughtUpPrev: bool
    var lastBulkResync: nat
    var lastFeeRecompute: nat
    const minInterval: nat

    ghost function View(): SyncState
      reads this
    {
      SyncState(txs, minFee, tipHeight, caughtUp, lastSyncOk, feeEstimate, lastBulkResync, lastFeeRecompute)
    }

    /** The log always reflects the flag. */
    ghost predicate Valid()
      reads this
    {
      caughtUpPrev == caughtUp
    }

    constructor (minInterval: nat)
      ensures Valid() && View() == Empty() && this.minInterval == minInterval
    {
      this.minInterval := minInterval;
      txs, minFee, tipHeight, caughtUp := map[], 0.0, 0, false;
      lastSyncOk, feeEstimate := None, None;
      caughtUpPrev, lastBulkResync, lastFeeRecompute := false, 0, 0;
    }

    /** Sets the freshness flag; logs exactly the changes. */
    method SetSynced(synced: bool) returns (logged: bool)
      requires Valid()
      modifies this`caughtUp, this`caughtUpPrev
      ensures Valid() && caughtUp == synced
      ensures logged == (synced != old(caughtUp))
    {
      caughtUp := synced;
      logged := synced != caughtUpPrev;
      caughtUpPrev := synced;
    }

    /** Sets both freshness flags after a bulk resync. */
    method ApplyBulkSuccess(syncedAt: nat)
      requires Valid()
      modifies this`caughtUp, this`caughtUpPrev, this`lastSyncOk
      ensures Valid() && caughtUp && lastSyncOk == Some(syncedAt)
    {
      var _ := SetSynced(true);
      lastSyncOk := Some(syncedAt);
    }

    /** Replaces the cache by the node's full mempool; leaves everything alone if any call fails. */
    method BulkResync(r: BulkReply) returns (count: Option<nat>)
      modifies this`txs, this`minFee, this`tipHeight
      ensures count.Some? <==> BulkSucceeds(r)
      ensures count.Some? ==> View() == LoadedFrom(old(View()), r) && count.value == |txs|
      ensures count.Some? ==> IsDump(r, View())
      ensures count.None? ==> View() == old(View())
    {
      if r.entries.Err? || r.info.Err? || r.tip.Err? {
        return None;
      }
      var entries := r.entries.value;
      txs := map t | t in entries :: Convert(entries[t]);
      minFee := MinFeeSatVb(r.info.value);
      tipHeight := r.tip.value;
      assert txs.Keys == entries.Keys;
      assert |txs| == |txs.Keys| && |entries| == |entries.Keys|;
      count := Some(|entries|);
      LoadIsDump(old(View()), r);
    }

    /** Recomputes the estimate from the current cache unless throttled. */
    method MaybeRecomputeFees(force: bool, w: Weather)
      modifies this`feeEstimate, this`lastFeeRecompute
      ensures !force && Since(old(lastFeeRecompute), w.recomputeAt) < minInterval ==>
                feeEstimate == old(feeEstimate) && lastFeeRecompute == old(lastFeeRecompute)
      ensures force || Since(old(lastFeeRecompute), w.recomputeAt) >= minInterval ==>
                && lastFeeRecompute == w.recomputeDoneAt
                && Renews(w, old(feeEstimate), txs, minFee, feeEstimate)
    {
      if !force && Since(lastFeeRecompute, w.recomputeAt) < minInterval {
        return;
      }
      var snapshot := SortSnapshot(txs);
      if w.taskOk {
        var e := ComputeEstimate(snapshot, minFee, w.computedAt);
        StampOf(snapshot, minFee, w.computedAt, e);
        feeEstimate := Some(e);
      }
      lastFeeRecompute := w.recomputeDoneAt;
    }

    /** Cold start: retries the bulk load until it succeeds, then stamps the cooldown from the
        moment the load landed, and forces a first estimate. */
    method ColdStart(replies: seq<BulkReply>, loadedAt: nat, w: Weather)
      requires Valid() && View() == Empty()
      requires exists i | 0 <= i < |replies| :: BulkSucceeds(replies[i])
      modifies this
      ensures Valid()
      ensures exists i | 0 <= i < |replies| ::
                StartsAs(replies[i], loadedAt, w, View()) && AllFail(replies[..i])
    {
      hide LoadedFrom, IsDump, Renews, BulkSucceeds;
      var i := 0;
      var count := None;
      while count.None?
        invariant Valid() && i <= |replies|
        invariant count.None? ==> View() == Empty() && AllFail(replies[..i])
        invariant count.Some? ==> i > 0 && AllFail(replies[..i - 1])
        invariant count.Some? ==> BulkSucceeds(replies[i - 1]) && View() == LoadedFrom(Empty(), replies[i - 1])
        decreases |replies| - i
      {
        count := BulkResync(replies[i]);
        i := i + 1;
      }
      LoadKeeps(Empty(), replies[i - 1]);
      lastBulkResync := loadedAt;
      ApplyBulkSuccess(w.syncedAt);
      MaybeRecomputeFees(true, w);
      assert StartsAs(replies[i - 1], loadedAt, w, View()) && AllFail(replies[..i - 1]);
    }

    /** Removes departed transactions from the cache. */
    method RemoveGone(gone: set<Txid>)
      modifies this`txs
      ensures txs == old(txs) - gone
    {
      var rest := gone;
      while rest != {}
        invariant rest <= gone && txs == old(txs) - (gone - rest)
        decreases rest
      {
        var t :| t in rest;
        assert gone - (rest - {t}) == (gone - rest) + {t};
        txs := txs - {t};
        rest := rest - {t};
      }
      assert gone - rest == gone;
    }

    /** Inserts fetched transactions into the cache. */
    method InsertFetched(fetched: seq<(Txid, MempoolTx)>)
      modifies this`txs
      ensures txs == Inserted(old(txs), fetched)
    {
      for i := 0 to |fetched|
        invariant txs == Inserted(old(txs), fetched[..i])
      {
        assert fetched[..i + 1][..i] == fetched[..i];
        txs := txs[fetched[i].0 := fetched[i].1];
      }
      assert fetched[..|fetched|] == fetched;
    }

    /** One steady-state tick: react to a desync, or remove, fetch and insert. Returns the
        predicted cache size it logs. */
    method SteadyTick(w: Weather) returns (size: Option<nat>)
      requires Valid() && Possible(View(), w)
      modifies this
      ensures Valid() && TicksTo(old(View()), w, minInterval, View())
      ensures size == if WorksIncrementally(old(View()), w) then Some(|txs|) else None
    {
      hide EstimateOf, Lists, FetchedOf, Behind, LoadedFrom, DecideDesync, IsDump, Since;
      size := None;
      if w.info.Err? || w.listing.Err? {
        var _ := SetSynced(false);
        return;
      }
      var coolingDown := ResyncCoolingDown(Some(lastBulkResync), w.decideAt);
      var action := DecideDesync(Loaded(w.info.value), |txs|, |w.listing.value|, coolingDown);
      if action.Some? {
        if action.value.WaitCooldown? {
          var _ := SetSynced(false);
          return;
        }
        lastBulkResync := w.stampAt;
        var count := BulkResync(w.bulk);
        if count.Some? {
          ApplyBulkSuccess(w.syncedAt);
          MaybeRecomputeFees(true, w);
        } else {
          var _ := SetSynced(false);
        }
        return;
      }
      size := IncrementalTick(w);
    }

    method IncrementalTick(w: Weather) returns (size: Option<nat>)
      requires Valid() && Possible(View(), w) && WorksIncrementally(View(), w)
      modifies this
      ensures Valid() && TicksTo(old(View()), w, minInterval, View())
      ensures size == Some(|txs|)
    {
      hide EstimateOf, FetchedOf, Behind, TicksTo, Possible, ActionOf, MinFeeSatVb, GoneTxids;
      ghost var s := View();
      var backlog, newSize := ApplyDiff(w);
      size := Some(newSize);
      minFee := MinFeeSatVb(w.info.value);
      if w.tip.Ok? {
        tipHeight := w.tip.value;
      }
      Publish(backlog, w);
      IncrementalTicksTo(s, w, minInterval, View());
    }

    /** Sets the freshness flags, and refreshes the estimate unless the cache is behind. */
    method Publish(backlog: bool, w: Weather)
      requires Valid()
      modifies this`caughtUp, this`caughtUpPrev, this`lastSyncOk, this`feeEstimate, this`lastFeeRecompute
      ensures Valid() && caughtUp == !backlog
      ensures lastSyncOk == if backlog then old(lastSyncOk) else Some(w.syncedAt)
      ensures backlog || Since(old(lastFeeRecompute), w.recomputeAt) < minInterval ==>
                feeEstimate == old(feeEstimate) && lastFeeRecompute == old(lastFeeRecompute)
      ensures !backlog && Since(old(lastFeeRecompute), w.recomputeAt) >= minInterval ==>
                && lastFeeRecompute == w.recomputeDoneAt
                && Renews(w, old(feeEstimate), txs, minFee, feeEstimate)
    {
      hide EstimateOf;
      if backlog {
        var _ := SetSynced(false);
      } else {
        var _ := SetSynced(true);
        lastSyncOk := Some(w.syncedAt);
        MaybeRecomputeFees(false, w);
      }
    }

    /** Applies removals at once, then fetches and inserts; says whether the cache is still
        behind, and predicts its size from counts. */
    method ApplyDiff(w: Weather) returns (backlog: bool, size: nat)
      requires Possible(View(), w) && w.listing.Ok?
      modifies this`txs
      ensures txs == old(txs) - GoneTxids(old(View()), w) + FetchedOf(w)
      ensures backlog == Behind(old(View()), w) && size == |txs|
    {
      hide Lists, FetchedOf, AnyFailed, Inserted, Incomplete, ResolvedCount, FoundAmong, FailedAmong;
      ghost var s := View();
      var cacheLen := |txs|;
      var new' := w.listing.value - txs.Keys;
      var gone := txs.Keys - w.listing.value;
      BatchMeans(s, w);
      SizeAdds(s, w);
      RemoveGone(gone);
      var res := FetchNewEntries(w);
      backlog := IsBacklog(|new'|, MAX_NEW_FETCH_PER_TICK, res.fetchErrors, res.incomplete);
      size := ProjectedMempoolSize(cacheLen, |gone|, |res.fetched|);
      InsertFetched(res.fetched);
    }
  }

  /** What an incremental tick has to leave behind. */
  lemma IncrementalTicksTo(s: SyncState, w: Weather, minInterval: nat, t: SyncState)
    requires Possible(s, w) && WorksIncrementally(s, w)
    requires t.txs == s.txs - GoneTxids(s, w) + FetchedOf(w) && t.minFee == MinFeeSatVb(w.info.value)
    requires t.tipHeight == (if w.tip.Ok? then w.tip.value else s.tipHeight) && t.lastBulk == s.lastBulk
    requires t.caughtUp == !Behind(s, w)
    requires t.lastSyncOk == if Behind(s, w) then s.lastSyncOk else Some(w.syncedAt)
    requires !Behind(s, w) && Since(s.lastRecompute, w.recomputeAt) >= minInterval ==>
               && t.lastRecompute == w.recomputeDoneAt
               && Renews(w, s.estimate, t.txs, t.minFee, t.estimate)
    requires Behind(s, w) || Since(s.lastRecompute, w.recomputeAt) < minInterval ==>
               t.estimate == s.estimate && t.lastRecompute == s.lastRecompute
    ensures TicksTo(s, w, minInterval, t)
  {
    hide EstimateOf, Lists, FetchedOf, Behind, Ticked, AttemptsBulk;
    IncrementalIs(s, w);
  }

  /** The batch of fetched pairs is the map of the model, and its error count tells failures. */
  lemma BatchMeans(s: SyncState, w: Weather)
    requires Possible(s, w) && w.listing.Ok?
    ensures FailedAmong(Resolved(w), w.answers) > 0 <==> AnyFailed(w)
    ensures Inserted(s.txs - GoneTxids(s, w), FoundAmong(Resolved(w), w.answers))
         == s.txs - GoneTxids(s, w) + FetchedOf(w)
  {
    FailedAmongPositive(Resolved(w), w.answers);
    InsertingFound(s.txs - GoneTxids(s, w), Resolved(w), w.answers);
  }

  lemma {:induction false} MapSum<K, V>(a: map<K, V>, b: map<K, V>)
    requires a.Keys !! b.Keys
    ensures |a + b| == |a| + |b|
  {
    assert (a + b).Keys == a.Keys + b.Keys;
    assert |a + b| == |(a + b).Keys| && |a| == |a.Keys| && |b| == |b.Keys|;
  }

  lemma KeptSize(txs: map<Txid, MempoolTx>, gone: set<Txid>)
    requires gone <= txs.Keys
    ensures |gone| <= |txs| && |txs - gone| == |txs| - |gone|
  {
    var kept := txs - gone;
    assert kept.Keys + gone == txs.Keys && kept.Keys !! gone;
    assert |txs.Keys| == |kept.Keys| + |gone|;
    assert |txs| == |txs.Keys| && |kept| == |kept.Keys|;
  }

  lemma FetchedSize(s: SyncState, w: Weather)
    requires Possible(s, w) && w.listing.Ok?
    ensures |FoundAmong(Resolved(w), w.answers)| == |FetchedOf(w)|
  {
    hide FoundAmong, FoundMap;
    FoundAmongSize(Resolved(w), w.answers);
  }

  /** The predicted size is the real one, and its subtraction does not underflow: what is gone
      was cached, and what is fetched was not. */
  lemma SizeAdds(s: SyncState, w: Weather)
    requires Possible(s, w) && w.listing.Ok?
    ensures |GoneTxids(s, w)| <= |s.txs|
    ensures ProjectedMempoolSize(|s.txs|, |GoneTxids(s, w)|, |FoundAmong(Resolved(w), w.answers)|)
         == |s.txs - GoneTxids(s, w) + FetchedOf(w)|
  {
    hide FoundAmong, FetchedOf, Resolved, Lists;
    KeptSize(s.txs, GoneTxids(s, w));
    FetchedSize(s, w);
    FetchedAreNew(s, w);
    MapSum(s.txs - GoneTxids(s, w), FetchedOf(w));
  }

  lemma StampOf(snapshot: seq<SnapshotTx>, minFee: real, now: nat, e: FeeEstimate)
    requires EstimatesFrom(snapshot, minFee, now, e)
    ensures e.computedAt == now
  {
  }
}

