/** One tick of the sync loop as a step against an arbitrary node: any call may fail, any
    fetch may vanish, fail or stay unresolved, in any order. */
module SyncModel {
  import opened Wrappers
  import opened Txids
  import opened UidSums
  import opened Decision
  import opened Tiers
  import opened FeePipeline

  const MAX_NEW_FETCH_PER_TICK: nat := 2000
  const U32_MAX: nat := 0xFFFF_FFFF

  /** A mempool entry as the node reports it. */
  datatype NodeEntry = NodeEntry(vsize: nat, weight: Option<nat>, depends: seq<Txid>, fee: nat,
                                 ancestorFee: nat, ancestorSize: nat, descendantFee: nat, descendantSize: nat,
                                 time: Option<nat>)

  /** A mempool entry as it is cached. */
  datatype MempoolTx = MempoolTx(vsize: nat, weight: nat, fee: nat, depends: seq<Txid>,
                                 ancestorFee: nat, ancestorVsize: nat, descendantFee: nat, descendantVsize: nat,
                                 firstSeen: nat)

  function Clamp(x: nat): nat {
    if x <= U32_MAX then x else U32_MAX
  }

  function Convert(e: NodeEntry): MempoolTx {
    MempoolTx(Clamp(e.vsize),
              (match e.weight case Some(w) => Clamp(w) case None => Clamp(Clamp(e.vsize) * 4)),
              e.fee, e.depends, e.ancestorFee, Clamp(e.ancestorSize), e.descendantFee, Clamp(e.descendantSize),
              match e.time case Some(t) => t case None => 0)
  }

  /** y is x, or the largest 32-bit number if x is larger. */
  ghost predicate Capped(x: nat, y: nat) {
    if x > 4_294_967_295 then y == 4_294_967_295 else y == x
  }

  /** tx caches what the node reports in e: fees and parents as they are, sizes as 32-bit numbers,
      four weight units a virtual byte if no weight is reported, and time zero if none is. */
  ghost predicate Caches(e: NodeEntry, tx: MempoolTx) {
    && tx.fee == e.fee && tx.ancestorFee == e.ancestorFee && tx.descendantFee == e.descendantFee
    && tx.depends == e.depends
    && Capped(e.vsize, tx.vsize) && Capped(e.ancestorSize, tx.ancestorVsize)
    && Capped(e.descendantSize, tx.descendantVsize)
    && Capped(if e.weight.Some? then e.weight.value else 4 * tx.vsize, tx.weight)
    && tx.firstSeen == if e.time.Some? then e.time.value else 0
  }

  lemma ConvertCaches(e: NodeEntry)
    ensures Caches(e, Convert(e))
  {
  }

  datatype Info = Info(loaded: Option<bool>, minFeeSatPerKvb: nat)

  function Loaded(info: Info): bool {
    match info.loaded case Some(b) => b case None => true
  }

  function MinFeeSatVb(info: Info): real {
    info.minFeeSatPerKvb as real / 1000.0
  }

  /** The three answers a bulk resync needs. */
  datatype BulkReply = BulkReply(entries: Result<map<Txid, NodeEntry>>, info: Result<Info>, tip: Result<nat>)

  predicate BulkSucceeds(r: BulkReply) {
    r.entries.Ok? && r.info.Ok? && r.tip.Ok?
  }

  /** What the fetch of one transaction answers: its entry, that it is no longer in the
      mempool, or an error. */
  datatype Fetch = Found(entry: NodeEntry) | Vanished | Failed

  /** Everything the node and the clocks decide about one tick. The fetch answers arrive in the
      order of completions; the time budget is found exceeded after the answer number budgetAt,
      and then readyAfter more answers are at hand. */
  datatype Weather = Weather(info: Result<Info>, listing: Result<set<Txid>>, decideAt: nat, stampAt: nat,
                             bulk: BulkReply, newOrder: seq<Txid>, answers: map<Txid, Fetch>,
                             completions: seq<Txid>, budgetAt: nat, readyAfter: nat, tip: Result<nat>,
                             syncedAt: nat, recomputeAt: nat, recomputeDoneAt: nat, computedAt: nat, taskOk: bool)

  /** The cache and the variables the loop threads through its ticks. */
  datatype SyncState = SyncState(txs: map<Txid, MempoolTx>, minFee: real, tipHeight: nat, caughtUp: bool,
                                 lastSyncOk: Option<nat>, estimate: Option<FeeEstimate>,
                                 lastBulk: nat, lastRecompute: nat)

  function Take<T>(xs: seq<T>, n: nat): seq<T> {
    if |xs| <= n then xs else xs[..n]
  }

  function Candidates(w: Weather): seq<Txid> {
    Take(w.newOrder, MAX_NEW_FETCH_PER_TICK)
  }

  /** How many answers are consumed: all, unless the budget runs out first. */
  function ResolvedCount(w: Weather): nat {
    if w.budgetAt < |w.completions| then
      (if w.budgetAt + 1 + w.readyAfter <= |w.completions| then w.budgetAt + 1 + w.readyAfter else |w.completions|)
    else |w.completions|
  }

  function Resolved(w: Weather): (r: seq<Txid>)
  {
    w.completions[..ResolvedCount(w)]
  }

  ghost function NewTxids(s: SyncState, w: Weather): set<Txid>
    requires w.listing.Ok?
  {
    w.listing.value - s.txs.Keys
  }

  ghost function GoneTxids(s: SyncState, w: Weather): set<Txid>
    requires w.listing.Ok?
  {
    s.txs.Keys - w.listing.value
  }

  /** The weather is one that can happen: hash sets are walked in some order, every candidate
      is asked once and answers in some order, and the clock does not run backwards. */
  ghost predicate Possible(s: SyncState, w: Weather) {
    && w.decideAt <= w.stampAt
    && (w.listing.Ok? ==>
          && Lists(w.newOrder, NewTxids(s, w))
          && Lists(w.completions, Elements(Candidates(w)))
          && forall x | x in w.completions :: x in w.answers)
  }

  /** The entries among the answers to xs, as they are cached. */
  ghost function FoundMap(xs: seq<Txid>, answers: map<Txid, Fetch>): map<Txid, MempoolTx>
    requires forall x | x in xs :: x in answers
  {
    map x | x in xs && answers[x].Found? :: Convert(answers[x].entry)
  }

  ghost function FetchedOf(w: Weather): map<Txid, MempoolTx>
    requires forall x | x in w.completions :: x in w.answers
  {
    FoundMap(Resolved(w), w.answers)
  }

  /** Only transactions that are not cached are fetched. */
  lemma FetchedAreNew(s: SyncState, w: Weather)
    requires Possible(s, w) && w.listing.Ok?
    ensures FetchedOf(w).Keys <= NewTxids(s, w)
  {
    forall x | x in FetchedOf(w) ensures x in NewTxids(s, w) {
      assert x in w.completions;
      assert x in Candidates(w);
      assert x in w.newOrder;
    }
  }

  ghost function VanishedOf(w: Weather): set<Txid>
    requires forall x | x in w.completions :: x in w.answers
  {
    set x | x in Resolved(w) && w.answers[x].Vanished?
  }

  ghost predicate AnyFailed(w: Weather)
    requires forall x | x in w.completions :: x in w.answers
  {
    exists x :: x in Resolved(w) && w.answers[x].Failed?
  }

  ghost predicate Incomplete(w: Weather) {
    ResolvedCount(w) < |Candidates(w)|
  }

  ghost predicate Behind(s: SyncState, w: Weather)
    requires w.listing.Ok? && forall x | x in w.completions :: x in w.answers
  {
    |NewTxids(s, w)| > MAX_NEW_FETCH_PER_TICK || AnyFailed(w) || Incomplete(w)
  }

  ghost function ActionOf(s: SyncState, w: Weather): Option<DesyncAction>
    requires w.info.Ok? && w.listing.Ok?
  {
    DecideDesync(Loaded(w.info.value), |s.txs|, |w.listing.value|, ResyncCoolingDown(Some(s.lastBulk), w.decideAt))
  }

  /** This tick downloads the whole mempool, or tries to. */
  ghost predicate AttemptsBulk(s: SyncState, w: Weather) {
    w.info.Ok? && w.listing.Ok? && ActionOf(s, w).Some? && ActionOf(s, w).value.BulkResync?
  }

  ghost predicate WorksIncrementally(s: SyncState, w: Weather) {
    w.info.Ok? && w.listing.Ok? && ActionOf(s, w).None?
  }

  ghost function LoadedFrom(s: SyncState, r: BulkReply): SyncState
    requires BulkSucceeds(r)
  {
    s.(txs := map t | t in r.entries.value :: Convert(r.entries.value[t]),
       minFee := MinFeeSatVb(r.info.value), tipHeight := r.tip.value)
  }

  /** s holds exactly the reported mempool. */
  ghost predicate IsDump(r: BulkReply, s: SyncState)
    requires r.entries.Ok? && r.info.Ok? && r.tip.Ok?
  {
    && s.txs.Keys == r.entries.value.Keys
    && (forall t | t in s.txs :: Caches(r.entries.value[t], s.txs[t]))
    && s.minFee * 1000.0 == r.info.value.minFeeSatPerKvb as real && s.tipHeight == r.tip.value
  }

  /** A load touches the cache, the minimum fee and the tip, and nothing else. */
  lemma LoadKeeps(s: SyncState, r: BulkReply)
    requires BulkSucceeds(r)
    ensures LoadedFrom(s, r) == s.(txs := LoadedFrom(s, r).txs, minFee := LoadedFrom(s, r).minFee,
                                   tipHeight := LoadedFrom(s, r).tipHeight)
  {
    hide Convert;
  }

  lemma LoadIsDump(s: SyncState, r: BulkReply)
    requires BulkSucceeds(r)
    ensures IsDump(r, LoadedFrom(s, r))
  {
    hide Convert, Caches;
    forall t | t in r.entries.value ensures Caches(r.entries.value[t], Convert(r.entries.value[t])) {
      ConvertCaches(r.entries.value[t]);
    }
  }

  lemma DumpFrame(r: BulkReply, s: SyncState, t: SyncState)
    requires r.entries.Ok? && r.info.Ok? && r.tip.Ok? && IsDump(r, s)
    requires t.txs == s.txs && t.minFee == s.minFee && t.tipHeight == s.tipHeight
    ensures IsDump(r, t)
  {
  }

  /** The state after a tick, fee estimate and its timer aside. */
  ghost function Ticked(s: SyncState, w: Weather): SyncState
    requires Possible(s, w)
  {
    if w.info.Err? || w.listing.Err? then s.(caughtUp := false)
    else if AttemptsBulk(s, w) then
      var stamped := s.(lastBulk := w.stampAt);
      if BulkSucceeds(w.bulk) then LoadedFrom(stamped, w.bulk).(caughtUp := true, lastSyncOk := Some(w.syncedAt))
      else stamped.(caughtUp := false)
    else if ActionOf(s, w).Some? then s.(caughtUp := false)
    else
      var updated := s.(txs := (s.txs - GoneTxids(s, w)) + FetchedOf(w), minFee := MinFeeSatVb(w.info.value),
                        tipHeight := match w.tip case Ok(h) => h case Err => s.tipHeight);
      if Behind(s, w) then updated.(caughtUp := false)
      else updated.(caughtUp := true, lastSyncOk := Some(w.syncedAt))
  }

  lemma IncrementalIs(s: SyncState, w: Weather)
    requires Possible(s, w) && WorksIncrementally(s, w)
    ensures Ticked(s, w) == s.(txs := s.txs - GoneTxids(s, w) + FetchedOf(w), minFee := MinFeeSatVb(w.info.value),
                               tipHeight := if w.tip.Ok? then w.tip.value else s.tipHeight,
                               caughtUp := !Behind(s, w),
                               lastSyncOk := if Behind(s, w) then s.lastSyncOk else Some(w.syncedAt))
    ensures !AttemptsBulk(s, w)
  {
    hide Convert, Lists, Behind, FetchedOf, DecideDesync;
  }

  ghost predicate Recomputes(s: SyncState, w: Weather, minInterval: nat)
    requires Possible(s, w)
  {
    || (AttemptsBulk(s, w) && BulkSucceeds(w.bulk))
    || (WorksIncrementally(s, w) && !Behind(s, w) && Since(s.lastRecompute, w.recomputeAt) >= minInterval)
  }

  function Snapshot(t: Txid, tx: MempoolTx): SnapshotTx {
    SnapshotTx(t, tx.fee, tx.weight, tx.depends)
  }

  ghost predicate Excerpt(txs: map<Txid, MempoolTx>, snapshot: seq<SnapshotTx>) {
    forall i | 0 <= i < |snapshot| ::
      snapshot[i].txid in txs && snapshot[i] == Snapshot(snapshot[i].txid, txs[snapshot[i].txid])
  }

  ghost predicate Ascending(snapshot: seq<SnapshotTx>) {
    forall i, j | 0 <= i < j < |snapshot| :: snapshot[i].txid < snapshot[j].txid
  }

  /** The cache as the fee computation sees it: every transaction once, in the order of ids. */
  ghost predicate SortedSnapshot(txs: map<Txid, MempoolTx>, snapshot: seq<SnapshotTx>) {
    Excerpt(txs, snapshot) && Ascending(snapshot) && forall t | t in txs :: Listed(snapshot, t)
  }

  /** e is an estimate computed from exactly this cache. */
  ghost predicate EstimateOf(txs: map<Txid, MempoolTx>, minFee: real, e: FeeEstimate) {
    exists snapshot :: SortedSnapshot(txs, snapshot) && EstimatesFrom(snapshot, minFee, e.computedAt, e)
  }

  /** The estimate is computed anew from this cache, or kept if the computation fails. */
  ghost predicate Renews(w: Weather, was: Option<FeeEstimate>, txs: map<Txid, MempoolTx>, minFee: real,
                         now: Option<FeeEstimate>)
  {
    if w.taskOk then now.Some? && now.value.computedAt == w.computedAt && EstimateOf(txs, minFee, now.value)
    else now == was
  }

  /** A whole tick: the cache moves as Ticked says, and the estimate is either kept or computed
      from the cache the tick leaves behind. */
  ghost predicate TicksTo(s: SyncState, w: Weather, minInterval: nat, t: SyncState) {
    && Possible(s, w)
    && t == Ticked(s, w).(estimate := t.estimate, lastRecompute := t.lastRecompute)
    && (if Recomputes(s, w, minInterval) then
          && t.lastRecompute == w.recomputeDoneAt
          && Renews(w, s.estimate, t.txs, t.minFee, t.estimate)
        else t.estimate == s.estimate && t.lastRecompute == s.lastRecompute)
  }

  ghost function Empty(): SyncState {
    SyncState(map[], 0.0, 0, false, None, None, 0, 0)
  }

  ghost predicate AllFail(replies: seq<BulkReply>) {
    forall i | 0 <= i < |replies| :: !BulkSucceeds(replies[i])
  }

  /** The cold start: the first bulk load that succeeds, and the forced first estimate. */
  ghost predicate StartsAs(r: BulkReply, loadedAt: nat, w: Weather, s: SyncState) {
    && BulkSucceeds(r)
    && s == LoadedFrom(Empty(), r).(caughtUp := true, lastSyncOk := Some(w.syncedAt), lastBulk := loadedAt,
                                    estimate := s.estimate, lastRecompute := w.recomputeDoneAt)
    && Renews(w, None, s.txs, s.minFee, s.estimate)
  }
}
