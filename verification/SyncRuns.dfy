/** What holds of every run of the sync loop, whatever the node does. */
module SyncRuns {
  import opened Limits
  import opened Wrappers
  import opened Txids
  import opened UidSums
  import opened Decision
  import opened Tiers
  import opened FeePipeline
  import opened SyncModel

  lemma TakeLists(xs: seq<Txid>, n: nat, s: set<Txid>)
    requires Lists(xs, s)
    ensures Lists(Take(xs, n), Elements(Take(xs, n))) && Elements(Take(xs, n)) <= s
    ensures |xs| <= n ==> Elements(Take(xs, n)) == s
  {
    forall x | x in Take(xs, n) ensures x in xs {
    }
  }

  lemma CandidatesListed(s: SyncState, w: Weather)
    requires Possible(s, w) && w.listing.Ok?
    ensures Elements(Candidates(w)) <= NewTxids(s, w)
    ensures |w.completions| == |Candidates(w)| == |Elements(Candidates(w))|
    ensures |NewTxids(s, w)| <= MAX_NEW_FETCH_PER_TICK ==> Elements(Candidates(w)) == NewTxids(s, w)
    ensures |Candidates(w)|
         == if |NewTxids(s, w)| <= MAX_NEW_FETCH_PER_TICK then |NewTxids(s, w)| else MAX_NEW_FETCH_PER_TICK
  {
    hide Lists, NewTxids, Elements;
    ListsSize(w.newOrder, NewTxids(s, w));
    TakeLists(w.newOrder, MAX_NEW_FETCH_PER_TICK, NewTxids(s, w));
    ListsSize(w.completions, Elements(Candidates(w)));
    ListsSize(Candidates(w), Elements(Candidates(w)));
  }

  /** What a fresh cache can show for itself after a tick: it has exactly the keys of the dump
      just downloaded; or it is the node's list less exactly the transactions whose fetch
      answered, this tick, that they are no longer in the mempool. */
  ghost predicate Evidence(s: SyncState, w: Weather, t: SyncState)
    requires Possible(s, w)
  {
    || (AttemptsBulk(s, w) && BulkSucceeds(w.bulk) && t.txs.Keys == w.bulk.entries.value.Keys)
    || (WorksIncrementally(s, w) && t.txs.Keys <= w.listing.value
        && w.listing.value - t.txs.Keys == VanishedOf(w)
        && forall x | x in VanishedOf(w) :: x !in s.txs && w.answers[x].Vanished?)
  }

  lemma ResolvedAll(s: SyncState, w: Weather)
    requires Possible(s, w) && w.listing.Ok? && !Behind(s, w)
    ensures forall x :: x in Resolved(w) <==> x in NewTxids(s, w)
  {
    CandidatesListed(s, w);
    assert ResolvedCount(w) == |w.completions|;
    assert Resolved(w) == w.completions;
  }

  lemma FetchedMembers(w: Weather)
    requires forall x | x in w.completions :: x in w.answers
    ensures forall x :: x in FetchedOf(w).Keys <==> x in Resolved(w) && w.answers[x].Found?
  {
    hide Convert, ResolvedCount;
  }

  lemma TickedKeys(s: SyncState, w: Weather)
    requires Possible(s, w) && WorksIncrementally(s, w)
    ensures Ticked(s, w).txs.Keys == (s.txs.Keys * w.listing.value) + FetchedOf(w).Keys
  {
    hide Convert, Lists, Behind, FetchedOf, DecideDesync, Ticked;
    IncrementalIs(s, w);
    assert (s.txs - GoneTxids(s, w)).Keys == s.txs.Keys * w.listing.value;
  }

  lemma SetsAddUp(listing: set<Txid>, cached: set<Txid>, found: set<Txid>, vanished: set<Txid>)
    requires found + vanished == listing - cached && found !! vanished
    ensures cached * listing + found <= listing
    ensures listing - (cached * listing + found) == vanished
  {
  }

  lemma VanishedMembers(w: Weather)
    requires forall x | x in w.completions :: x in w.answers
    ensures forall x :: x in VanishedOf(w) <==> x in Resolved(w) && w.answers[x].Vanished?
  {
  }

  lemma NoneFailed(s: SyncState, w: Weather)
    requires Possible(s, w) && w.listing.Ok? && !Behind(s, w)
    ensures forall x | x in Resolved(w) :: w.answers[x].Found? || w.answers[x].Vanished?
  {
    forall x | x in Resolved(w) ensures w.answers[x].Found? || w.answers[x].Vanished? {
      assert !w.answers[x].Failed?;
    }
  }

  lemma AllAnswered(s: SyncState, w: Weather)
    requires Possible(s, w) && w.listing.Ok? && !Behind(s, w)
    ensures FetchedOf(w).Keys + VanishedOf(w) == NewTxids(s, w) && FetchedOf(w).Keys !! VanishedOf(w)
  {
    hide FetchedOf, VanishedOf, Lists, NewTxids, Resolved, Behind;
    ResolvedAll(s, w);
    NoneFailed(s, w);
    FetchedMembers(w);
    VanishedMembers(w);
  }

  lemma CaughtUpEvidence(s: SyncState, w: Weather)
    requires Possible(s, w) && WorksIncrementally(s, w) && !Behind(s, w)
    ensures Evidence(s, w, Ticked(s, w))
  {
    hide FetchedOf, Ticked, DecideDesync, Convert, Resolved, Lists;
    AllAnswered(s, w);
    TickedKeys(s, w);
    SetsAddUp(w.listing.value, s.txs.Keys, FetchedOf(w).Keys, VanishedOf(w));
  }

  /** Honesty of one tick: the cache is called fresh exactly when the tick downloaded the whole
      mempool or resolved every new transaction without an error, and then there is evidence. */
  lemma HonestTick(s: SyncState, w: Weather, minInterval: nat, t: SyncState)
    requires TicksTo(s, w, minInterval, t)
    ensures t.caughtUp <==> (AttemptsBulk(s, w) && BulkSucceeds(w.bulk)) || (WorksIncrementally(s, w) && !Behind(s, w))
    ensures t.caughtUp ==> t.lastSyncOk == Some(w.syncedAt) && Evidence(s, w, t)
    ensures !t.caughtUp ==> t.lastSyncOk == s.lastSyncOk
  {
    hide EstimateOf, Lists, FetchedOf, Evidence, Behind;
    if WorksIncrementally(s, w) && !Behind(s, w) {
      CaughtUpEvidence(s, w);
      EvidenceOfKeys(s, w, Ticked(s, w), t);
    } else if AttemptsBulk(s, w) && BulkSucceeds(w.bulk) {
      DumpEvidence(s, w, t);
    }
  }

  lemma EvidenceOfKeys(s: SyncState, w: Weather, t: SyncState, u: SyncState)
    requires Possible(s, w) && Evidence(s, w, t) && u.txs == t.txs
    ensures Evidence(s, w, u)
  {
  }

  lemma DumpEvidence(s: SyncState, w: Weather, t: SyncState)
    requires Possible(s, w) && AttemptsBulk(s, w) && BulkSucceeds(w.bulk) && t.txs == Ticked(s, w).txs
    ensures Evidence(s, w, t)
  {
  }

  ghost predicate TickOf(minInterval: nat, states: seq<SyncState>, weathers: seq<Weather>, i: nat)
    requires i < |weathers| && |states| == |weathers| + 1
  {
    TicksTo(states[i], weathers[i], minInterval, states[i + 1])
  }

  /** A run: the cold start's state, then one state after each tick. */
  ghost predicate IsSyncRun(minInterval: nat, states: seq<SyncState>, weathers: seq<Weather>) {
    && |states| == |weathers| + 1
    && (exists r, at, w :: StartsAs(r, at, w, states[0]))
    && forall i | 0 <= i < |weathers| :: TickOf(minInterval, states, weathers, i)
  }

  /** Honesty over all runs: between any two ticks a cache called fresh has a time of last
      success, and evidence from the very tick before. */
  lemma HonestyOverRuns(minInterval: nat, states: seq<SyncState>, weathers: seq<Weather>, i: nat)
    requires IsSyncRun(minInterval, states, weathers) && i < |states| && states[i].caughtUp
    ensures states[i].lastSyncOk.Some?
    ensures i > 0 ==> Possible(states[i - 1], weathers[i - 1]) && Evidence(states[i - 1], weathers[i - 1], states[i])
    ensures i == 0 ==> exists r, at, w :: StartsAs(r, at, w, states[0]) && states[0].txs.Keys == r.entries.value.Keys
  {
    hide EstimateOf, Lists, Evidence;
    if i > 0 {
      assert TickOf(minInterval, states, weathers, i - 1);
      HonestTick(states[i - 1], weathers[i - 1], minInterval, states[i]);
    } else {
      var r, at, w :| StartsAs(r, at, w, states[0]);
      assert states[0].txs.Keys == r.entries.value.Keys;
    }
  }

  /** This tick the node reports t and it is cached as tx: from the dump it delivers, or from an
      answer the tick consumes. */
  ghost predicate Brings(s: SyncState, w: Weather, t: Txid, tx: MempoolTx)
    requires Possible(s, w)
  {
    || (AttemptsBulk(s, w) && BulkSucceeds(w.bulk)
        && t in w.bulk.entries.value && Caches(w.bulk.entries.value[t], tx))
    || (WorksIncrementally(s, w) && t in Resolved(w) && w.answers[t].Found? && Caches(w.answers[t].entry, tx))
  }

  lemma TickBrings(s: SyncState, w: Weather, minInterval: nat, next: SyncState, t: Txid)
    requires TicksTo(s, w, minInterval, next) && t in next.txs
    ensures Possible(s, w)
    ensures Brings(s, w, t, next.txs[t]) || (t in s.txs && next.txs[t] == s.txs[t])
  {
    hide EstimateOf, Lists, Convert, Behind, FetchedOf, FoundMap, DecideDesync, Caches;
    if WorksIncrementally(s, w) {
      IncrementalIs(s, w);
      FetchedEntry(w, t);
    } else if AttemptsBulk(s, w) && BulkSucceeds(w.bulk) && t in w.bulk.entries.value {
      ConvertCaches(w.bulk.entries.value[t]);
    }
  }

  lemma FetchedEntry(w: Weather, t: Txid)
    requires forall x | x in w.completions :: x in w.answers
    ensures t in FetchedOf(w) ==>
              t in Resolved(w) && w.answers[t].Found? && Caches(w.answers[t].entry, FetchedOf(w)[t])
  {
    hide Convert, ResolvedCount, Caches;
    if t in FetchedOf(w) {
      ConvertCaches(w.answers[t].entry);
    }
  }

  /** t has been cached with one and the same entry from states[j] to states[k]. */
  ghost predicate CachedSince(states: seq<SyncState>, j: nat, k: nat, t: Txid)
    requires j <= k < |states| && t in states[k].txs
  {
    forall i | j <= i <= k :: t in states[i].txs && states[i].txs[t] == states[k].txs[t]
  }

  ghost predicate BroughtAt(states: seq<SyncState>, weathers: seq<Weather>, j: nat, k: nat, t: Txid)
    requires |states| == |weathers| + 1 && j < k < |states| && t in states[k].txs
  {
    && Possible(states[j], weathers[j])
    && Brings(states[j], weathers[j], t, states[k].txs[t])
    && CachedSince(states, j + 1, k, t)
  }

  /** Every cached entry is what the node reported: it is from the initial load or from the dump
      or a consumed answer of some tick, and has been cached unchanged since. */
  lemma {:induction false} EntryProvenance(minInterval: nat, states: seq<SyncState>,
                                           weathers: seq<Weather>, k: nat, t: Txid)
    requires IsSyncRun(minInterval, states, weathers) && k < |states| && t in states[k].txs
    ensures || (CachedSince(states, 0, k, t) && LoadedAtStart(states[0], t))
            || exists j | 0 <= j < k :: BroughtAt(states, weathers, j, k, t)
  {
    hide TicksTo, StartsAs, Brings, LoadedAtStart;
    if k == 0 {
      StartLoads(states[0], t);
    } else {
      assert TickOf(minInterval, states, weathers, k - 1);
      TickBrings(states[k - 1], weathers[k - 1], minInterval, states[k], t);
      if Brings(states[k - 1], weathers[k - 1], t, states[k].txs[t]) {
        assert BroughtAt(states, weathers, k - 1, k, t);
      } else {
        EntryProvenance(minInterval, states, weathers, k - 1, t);
        var was := k - 1;
        if !CachedSince(states, 0, was, t) || !LoadedAtStart(states[0], t) {
          var j :| 0 <= j < was && BroughtAt(states, weathers, j, was, t);
          assert BroughtAt(states, weathers, j, k, t);
        }
      }
    }
  }

  /** Some successful initial load reported t as it is cached in s. */
  ghost predicate LoadedAtStart(s: SyncState, t: Txid)
    requires t in s.txs
  {
    exists r, at, w :: StartsAs(r, at, w, s) && t in r.entries.value && Caches(r.entries.value[t], s.txs[t])
  }

  lemma StartLoads(s: SyncState, t: Txid)
    requires (exists r, at, w :: StartsAs(r, at, w, s)) && t in s.txs
    ensures LoadedAtStart(s, t)
  {
    hide EstimateOf, Convert, Caches;
    var r, at, w :| StartsAs(r, at, w, s);
    assert t in r.entries.value;
    ConvertCaches(r.entries.value[t]);
  }

  /** An attempt waits for the cooldown and restarts it, whether or not it succeeds; nothing
      else moves the stamp. */
  lemma AttemptStamps(s: SyncState, w: Weather, minInterval: nat, t: SyncState)
    requires TicksTo(s, w, minInterval, t)
    ensures AttemptsBulk(s, w) ==> t.lastBulk == w.stampAt && w.stampAt >= s.lastBulk + RESYNC_COOLDOWN
    ensures !AttemptsBulk(s, w) ==> t.lastBulk == s.lastBulk
  {
    hide EstimateOf, Lists, FetchedOf, Behind;
  }

  lemma {:induction false} StampNeverFalls(minInterval: nat, states: seq<SyncState>,
                                           weathers: seq<Weather>, i: nat, j: nat)
    requires IsSyncRun(minInterval, states, weathers) && i <= j < |states|
    ensures states[i].lastBulk <= states[j].lastBulk
    decreases j
  {
    hide TicksTo, StartsAs;
    if i < j {
      StampNeverFalls(minInterval, states, weathers, i, j - 1);
      assert TickOf(minInterval, states, weathers, j - 1);
      AttemptStamps(states[j - 1], weathers[j - 1], minInterval, states[j]);
    }
  }

  /** Full downloads are at least a cooldown apart, failed ones included, and the first one is
      at least a cooldown after the initial load. */
  lemma BulkSpacing(minInterval: nat, states: seq<SyncState>, weathers: seq<Weather>, i: nat, j: nat)
    requires IsSyncRun(minInterval, states, weathers) && i <= j < |weathers|
    requires AttemptsBulk(states[i], weathers[i]) && AttemptsBulk(states[j], weathers[j])
    ensures weathers[i].stampAt >= states[0].lastBulk + 60_000_000_000
    ensures i < j ==> weathers[j].stampAt >= weathers[i].stampAt + 60_000_000_000
  {
    hide TicksTo, StartsAs;
    assert TickOf(minInterval, states, weathers, i) && TickOf(minInterval, states, weathers, j);
    AttemptStamps(states[i], weathers[i], minInterval, states[i + 1]);
    AttemptStamps(states[j], weathers[j], minInterval, states[j + 1]);
    StampNeverFalls(minInterval, states, weathers, 0, i);
    if i < j {
      StampNeverFalls(minInterval, states, weathers, i + 1, j);
    }
  }

  /** The estimate of states[k] was computed from the cache of an earlier fresh state. */
  ghost predicate ComputedWhileFresh(states: seq<SyncState>, k: nat, e: FeeEstimate)
    requires k < |states|
  {
    exists i | 0 <= i <= k :: states[i].caughtUp && EstimateOf(states[i].txs, states[i].minFee, e)
  }

  lemma TickEstimate(s: SyncState, w: Weather, minInterval: nat, t: SyncState)
    requires TicksTo(s, w, minInterval, t)
    ensures || t.estimate == s.estimate
            || (t.caughtUp && t.estimate.Some? && EstimateOf(t.txs, t.minFee, t.estimate.value))
  {
    hide EstimateOf, Lists, FetchedOf, Behind;
  }

  /** Every stored estimate was computed from a cache that was fresh at the time. */
  lemma {:induction false} EstimateProvenance(minInterval: nat, states: seq<SyncState>, weathers: seq<Weather>, k: nat)
    requires IsSyncRun(minInterval, states, weathers) && k < |states|
    ensures states[k].estimate.Some? ==> ComputedWhileFresh(states, k, states[k].estimate.value)
  {
    hide TicksTo, EstimateOf;
    if k == 0 {
      var r, at, w :| StartsAs(r, at, w, states[0]);
    } else {
      EstimateProvenance(minInterval, states, weathers, k - 1);
      assert TickOf(minInterval, states, weathers, k - 1);
      TickEstimate(states[k - 1], weathers[k - 1], minInterval, states[k]);
    }
  }

  /** A node that stands still, is loaded, and answers everything in time. */
  ghost predicate Calm(node: set<Txid>, w: Weather) {
    && w.info.Ok? && Loaded(w.info.value) && w.listing == Ok(node)
    && (forall x | x in w.completions && x in w.answers :: w.answers[x].Found?)
    && w.budgetAt >= |w.completions|
    && BulkSucceeds(w.bulk) && w.bulk.entries.value.Keys == node
  }

  ghost function MissingFrom(node: set<Txid>, s: SyncState): nat {
    |node - s.txs.Keys|
  }

  lemma CalmKeys(node: set<Txid>, s: SyncState, w: Weather, minInterval: nat, t: SyncState)
    requires TicksTo(s, w, minInterval, t) && Calm(node, w) && !IsMassDrop(|s.txs|, |node|)
    ensures t.txs.Keys == (s.txs.Keys * node) + Elements(Candidates(w))
    ensures Elements(Candidates(w)) <= node - s.txs.Keys
    ensures t.caughtUp <==> MissingFrom(node, s) <= 2000
  {
    hide EstimateOf, FetchedOf, IsMassDrop, Ticked, Candidates, Behind;
    CandidatesListed(s, w);
    TickedKeys(s, w);
    IncrementalIs(s, w);
    CalmFetches(s, w, node);
    CalmBehind(s, w, node);
  }

  /** A calm node answers every candidate with its entry. */
  lemma CalmFetches(s: SyncState, w: Weather, node: set<Txid>)
    requires Possible(s, w) && Calm(node, w)
    ensures FetchedOf(w).Keys == Elements(Candidates(w))
  {
    hide FetchedOf, ResolvedCount, Candidates, BulkSucceeds;
    FetchedMembers(w);
    CalmResolves(node, w);
    assert forall x :: x in w.completions <==> x in Elements(Candidates(w));
  }

  lemma CalmBehind(s: SyncState, w: Weather, node: set<Txid>)
    requires Possible(s, w) && Calm(node, w)
    ensures Behind(s, w) <==> MissingFrom(node, s) > 2000
  {
    hide Candidates, ResolvedCount, Lists, Resolved;
    CandidatesListed(s, w);
    CalmResolves(node, w);
  }

  lemma CalmResolves(node: set<Txid>, w: Weather)
    requires Calm(node, w)
    ensures Resolved(w) == w.completions && ResolvedCount(w) == |w.completions|
  {
  }

  lemma SubsetNoMassDrop(cache: set<Txid>, node: set<Txid>)
    requires cache <= node && |node| <= U64_MAX
    ensures !IsMassDrop(|cache|, |node|)
  {
    assert node == cache + (node - cache);
  }

  /** One tick against a calm node fetches up to the per-tick maximum of what is missing, drops
      what the node no longer has, and leaves no mass drop behind. */
  lemma CalmTick(node: set<Txid>, s: SyncState, w: Weather, minInterval: nat, t: SyncState)
    requires TicksTo(s, w, minInterval, t) && Calm(node, w) && !IsMassDrop(|s.txs|, |node|) && |node| <= U64_MAX
    ensures t.txs.Keys <= node && !IsMassDrop(|t.txs|, |node|)
    ensures MissingFrom(node, t) == SaturatingSub(MissingFrom(node, s), 2000)
    ensures t.caughtUp <==> MissingFrom(node, s) <= 2000
  {
    hide TicksTo, EstimateOf, Calm, IsMassDrop, Candidates;
    CalmKeys(node, s, w, minInterval, t);
    var got := Elements(Candidates(w));
    CalmSizes(node, s, w, minInterval, t);
    SetsCount(node, s.txs.Keys, got);
    assert |t.txs| == |t.txs.Keys|;
    SubsetNoMassDrop(t.txs.Keys, node);
  }

  lemma CalmSizes(node: set<Txid>, s: SyncState, w: Weather, minInterval: nat, t: SyncState)
    requires TicksTo(s, w, minInterval, t) && Calm(node, w)
    ensures |Elements(Candidates(w))|
         == if MissingFrom(node, s) <= 2000 then MissingFrom(node, s) else 2000
  {
    CandidatesListed(s, w);
  }

  ghost predicate CalmRun(node: set<Txid>, minInterval: nat, states: seq<SyncState>, weathers: seq<Weather>) {
    && |states| == |weathers| + 1
    && (forall i | 0 <= i < |weathers| :: TickOf(minInterval, states, weathers, i))
    && (forall i | 0 <= i < |weathers| :: Calm(node, weathers[i]))
    && |node| <= U64_MAX
  }

  /** Against a calm node the number of missing transactions falls by the per-tick maximum each
      tick, and the cache is fresh from the tick on at which that many ticks cover them all. */
  lemma {:induction false} MissingFalls(node: set<Txid>, minInterval: nat, states: seq<SyncState>,
                                        weathers: seq<Weather>, k: nat)
    requires CalmRun(node, minInterval, states, weathers) && !IsMassDrop(|states[0].txs|, |node|)
    requires k < |states|
    ensures MissingFrom(node, states[k]) == SaturatingSub(MissingFrom(node, states[0]), 2000 * k)
    ensures !IsMassDrop(|states[k].txs|, |node|)
    ensures k > 0 ==> states[k].txs.Keys <= node
    ensures k > 0 ==> (states[k].caughtUp <==> MissingFrom(node, states[0]) <= 2000 * k)
  {
    hide TicksTo, Calm, IsMassDrop, MissingFrom;
    if k > 0 {
      MissingFalls(node, minInterval, states, weathers, k - 1);
      assert TickOf(minInterval, states, weathers, k - 1);
      CalmTick(node, states[k - 1], weathers[k - 1], minInterval, states[k]);
    }
  }

  /** A node that is loaded and lists the same transactions whenever it can be asked; calls may
      fail, and fetches may vanish, fail or stay unresolved. */
  ghost predicate Steady(node: set<Txid>, w: Weather) {
    (w.info.Ok? ==> Loaded(w.info.value)) && (w.listing.Ok? ==> w.listing.value == node)
  }

  ghost function FetchCount(s: SyncState, w: Weather): nat
    requires Possible(s, w)
  {
    if WorksIncrementally(s, w) then |FetchedOf(w)| else 0
  }

  lemma SetsCount(listing: set<Txid>, cached: set<Txid>, found: set<Txid>)
    requires found <= listing - cached
    ensures listing * cached <= cached * listing + found <= listing
    ensures |listing - (cached * listing + found)| + |found| == |listing - cached|
  {
    assert listing - cached == (listing - (cached * listing + found)) + found;
  }

  lemma FetchedAddUp(node: set<Txid>, s: SyncState, w: Weather)
    requires Possible(s, w) && WorksIncrementally(s, w) && w.listing == Ok(node)
    ensures node * s.txs.Keys <= Ticked(s, w).txs.Keys <= node
    ensures MissingFrom(node, Ticked(s, w)) + |FetchedOf(w)| == MissingFrom(node, s)
  {
    hide FetchedOf, Ticked, ActionOf, Lists;
    TickedKeys(s, w);
    FetchedAreNew(s, w);
    SetsCount(node, s.txs.Keys, FetchedOf(w).Keys);
    assert |FetchedOf(w)| == |FetchedOf(w).Keys|;
  }

  /** One tick against a steady node: whatever the fetches answer, exactly what was fetched is
      no longer missing, and nothing of the node's is dropped. */
  lemma SteadyTickAddsUp(node: set<Txid>, s: SyncState, w: Weather, minInterval: nat, t: SyncState)
    requires TicksTo(s, w, minInterval, t) && Steady(node, w) && !IsMassDrop(|s.txs|, |node|) && |node| <= U64_MAX
    ensures MissingFrom(node, t) + FetchCount(s, w) == MissingFrom(node, s)
    ensures node * s.txs.Keys <= t.txs.Keys && !IsMassDrop(|t.txs|, |node|)
  {
    hide EstimateOf, Lists, FetchedOf, Behind, IsMassDrop, MissingFrom;
    if WorksIncrementally(s, w) {
      FetchedAddUp(node, s, w);
      assert |t.txs| == |t.txs.Keys|;
      SubsetNoMassDrop(t.txs.Keys, node);
      MissingByKeys(node, t, Ticked(s, w));
    } else {
      MissingByKeys(node, t, s);
    }
  }

  lemma MissingByKeys(node: set<Txid>, s: SyncState, t: SyncState)
    requires s.txs == t.txs
    ensures MissingFrom(node, s) == MissingFrom(node, t)
  {
  }

  ghost predicate SteadyRun(node: set<Txid>, minInterval: nat, states: seq<SyncState>, weathers: seq<Weather>) {
    && |states| == |weathers| + 1
    && (forall i | 0 <= i < |weathers| :: TickOf(minInterval, states, weathers, i))
    && (forall i | 0 <= i < |weathers| :: Steady(node, weathers[i]))
    && |node| <= U64_MAX && !IsMassDrop(|states[0].txs|, |node|)
  }

  /** How many transactions were fetched in the first k ticks. */
  ghost function FetchedIn(minInterval: nat, states: seq<SyncState>, weathers: seq<Weather>, k: nat): nat
    requires |states| == |weathers| + 1 && k <= |weathers|
    requires forall i | 0 <= i < |weathers| :: TickOf(minInterval, states, weathers, i)
  {
    if k == 0 then 0
    else
      assert TickOf(minInterval, states, weathers, k - 1);
      FetchedIn(minInterval, states, weathers, k - 1) + FetchCount(states[k - 1], weathers[k - 1])
  }

  /** Nothing is permanently lost to caps, errors or the time budget: over any run against a
      steady node what is still missing and what was fetched add up to what was missing at
      first, and what was cached of the node's stays cached. */
  lemma {:induction false} NothingLost(node: set<Txid>, minInterval: nat, states: seq<SyncState>,
                                       weathers: seq<Weather>, k: nat)
    requires SteadyRun(node, minInterval, states, weathers) && k < |states|
    ensures MissingFrom(node, states[k]) + FetchedIn(minInterval, states, weathers, k) == MissingFrom(node, states[0])
    ensures node * states[0].txs.Keys <= states[k].txs.Keys
    ensures !IsMassDrop(|states[k].txs|, |node|)
  {
    hide TicksTo, Steady, IsMassDrop, MissingFrom, FetchCount;
    if k > 0 {
      NothingLost(node, minInterval, states, weathers, k - 1);
      assert TickOf(minInterval, states, weathers, k - 1);
      SteadyTickAddsUp(node, states[k - 1], weathers[k - 1], minInterval, states[k]);
    }
  }

  /** Ticks needed to fetch a number of missing transactions: at least one. */
  function TicksNeeded(missing: nat): nat {
    if missing == 0 then 1 else (missing + 1999) / 2000
  }

  lemma TicksNeededCover(missing: nat, k: nat)
    requires k > 0
    ensures missing <= 2000 * k <==> k >= TicksNeeded(missing)
  {
  }

  /** Convergence: after exactly the number of ticks needed, and not before, the cache is fresh,
      and it then holds exactly the node's transactions. */
  lemma Convergence(node: set<Txid>, minInterval: nat, states: seq<SyncState>, weathers: seq<Weather>, k: nat)
    requires CalmRun(node, minInterval, states, weathers) && !IsMassDrop(|states[0].txs|, |node|)
    requires 0 < k < |states|
    ensures states[k].caughtUp <==> k >= TicksNeeded(MissingFrom(node, states[0]))
    ensures states[k].caughtUp <==> states[k].txs.Keys == node
  {
    hide TicksTo, Calm, IsMassDrop;
    MissingFalls(node, minInterval, states, weathers, k);
    TicksNeededCover(MissingFrom(node, states[0]), k);
    var keys := states[k].txs.Keys;
    assert keys == node <==> node - keys == {};
    assert |node - keys| == 0 <==> node - keys == {};
  }

  lemma MassDropWaitsOnce(node: set<Txid>, minInterval: nat, s: SyncState, w: Weather, t: SyncState)
    requires TicksTo(s, w, minInterval, t) && Calm(node, w) && IsMassDrop(|s.txs|, |node|)
    requires ResyncCoolingDown(Some(s.lastBulk), w.decideAt)
    ensures t.txs == s.txs && t.lastBulk == s.lastBulk && !t.caughtUp
  {
    hide EstimateOf, Lists, FetchedOf, IsMassDrop, Behind;
  }

  /** After a mass drop nothing is trusted until the cooldown is over: the cache stays as it is
      and is called stale. */
  lemma {:induction false} MassDropWaits(node: set<Txid>, minInterval: nat, states: seq<SyncState>,
                                         weathers: seq<Weather>, k: nat)
    requires CalmRun(node, minInterval, states, weathers) && IsMassDrop(|states[0].txs|, |node|)
    requires k < |states| && forall i | 0 <= i < k :: ResyncCoolingDown(Some(states[0].lastBulk), weathers[i].decideAt)
    ensures states[k].txs == states[0].txs && states[k].lastBulk == states[0].lastBulk
    ensures k > 0 ==> !states[k].caughtUp
  {
    hide TicksTo, Calm, IsMassDrop, ResyncCoolingDown;
    if k > 0 {
      MassDropWaits(node, minInterval, states, weathers, k - 1);
      assert TickOf(minInterval, states, weathers, k - 1);
      MassDropWaitsOnce(node, minInterval, states[k - 1], weathers[k - 1], states[k]);
    }
  }

  /** The first tick after the cooldown makes the cache equal to the node at once. */
  lemma MassDropRecovers(node: set<Txid>, minInterval: nat, states: seq<SyncState>, weathers: seq<Weather>, k: nat)
    requires CalmRun(node, minInterval, states, weathers) && IsMassDrop(|states[0].txs|, |node|)
    requires k < |weathers|
    requires forall i | 0 <= i < k :: ResyncCoolingDown(Some(states[0].lastBulk), weathers[i].decideAt)
    requires !ResyncCoolingDown(Some(states[0].lastBulk), weathers[k].decideAt)
    ensures states[k + 1].txs.Keys == node && states[k + 1].caughtUp
  {
    hide EstimateOf, Lists, FetchedOf, IsMassDrop, Behind, Convert;
    MassDropWaits(node, minInterval, states, weathers, k);
    assert TickOf(minInterval, states, weathers, k) && Calm(node, weathers[k]);
    assert AttemptsBulk(states[k], weathers[k]);
  }

  lemma {:induction false} SortedSnapshotUnique(txs: map<Txid, MempoolTx>, a: seq<SnapshotTx>, b: seq<SnapshotTx>)
    requires SortedSnapshot(txs, a) && SortedSnapshot(txs, b)
    ensures a == b
    decreases |a|
  {
    hide Excerpt, Ascending, Listed, Snapshot;
    if a == [] {
      if b != [] {
        SameLast(txs, b, a);
      }
    } else {
      SameLast(txs, a, b);
      var m, n := |a| - 1, |b| - 1;
      DropLastSnapshot(txs, a);
      DropLastSnapshot(txs, b);
      SortedSnapshotUnique(txs - {a[m].txid}, a[..m], b[..n]);
      assert a == a[..m] + [a[m]] && b == b[..n] + [b[n]];
    }
  }

  /** Both end in the largest id. */
  lemma SameLast(txs: map<Txid, MempoolTx>, a: seq<SnapshotTx>, b: seq<SnapshotTx>)
    requires SortedSnapshot(txs, a) && SortedSnapshot(txs, b) && a != []
    ensures b != [] && a[|a| - 1] == b[|b| - 1]
  {
    var x := a[|a| - 1];
    assert Listed(b, x.txid);
    var j :| 0 <= j < |b| && b[j].txid == x.txid;
    var y := b[|b| - 1];
    assert Listed(a, y.txid);
    var i :| 0 <= i < |a| && a[i].txid == y.txid;
  }

  lemma DropLastSnapshot(txs: map<Txid, MempoolTx>, a: seq<SnapshotTx>)
    requires SortedSnapshot(txs, a) && a != []
    ensures SortedSnapshot(txs - {a[|a| - 1].txid}, a[..|a| - 1])
  {
    var n := |a| - 1;
    forall t | t in txs && t != a[n].txid ensures Listed(a[..n], t) {
      assert Listed(a, t);
      var i :| 0 <= i < |a| && a[i].txid == t;
      assert a[..n][i].txid == t;
    }
  }

  /** The same cache yields the same tiers, however its hash map happens to be walked. */
  lemma CacheDeterminesEstimate(txs: map<Txid, MempoolTx>, minFee: real, e: FeeEstimate, e': FeeEstimate)
    requires EstimateOf(txs, minFee, e) && EstimateOf(txs, minFee, e') && e.computedAt == e'.computedAt
    ensures e == e'
  {
    hide EstimatesFrom, SortedSnapshot;
    var a :| SortedSnapshot(txs, a) && EstimatesFrom(a, minFee, e.computedAt, e);
    var b :| SortedSnapshot(txs, b) && EstimatesFrom(b, minFee, e'.computedAt, e');
    SortedSnapshotUnique(txs, a, b);
    EstimateDeterministic(a, minFee, e.computedAt, e, e');
  }
}
