/** The decisions of the sync loop, and the set difference it works from. */
module Decision {
  import opened Limits
  import opened Wrappers

  const MASS_DROP_MIN_CACHE_SIZE: nat := 100
  const MASS_DROP_INVERSE: nat := 5
  /** Sixty seconds; instants count nanoseconds. */
  const RESYNC_COOLDOWN: nat := 60_000_000_000

  /** The node holds less than a fifth of a cache that is large enough to care. */
  predicate IsMassDrop(cacheLen: nat, nodeTxidCount: nat) {
    cacheLen >= MASS_DROP_MIN_CACHE_SIZE && SaturatingMul(nodeTxidCount, MASS_DROP_INVERSE) < cacheLen
  }

  /** Saturation never hides or invents a mass drop: cache sizes fit the machine word. */
  lemma MassDropIsFifth(cacheLen: nat, nodeTxidCount: nat)
    requires cacheLen <= U64_MAX
    ensures IsMassDrop(cacheLen, nodeTxidCount) <==> cacheLen >= 100 && nodeTxidCount * 5 < cacheLen
  {
  }

  /** Elapsed time between instants, zero if they are out of order. */
  function Since(last: nat, now: nat): nat {
    SaturatingSub(now, last)
  }

  predicate ResyncCoolingDown(last: Option<nat>, now: nat) {
    last.Some? && Since(last.value, now) < RESYNC_COOLDOWN
  }

  datatype Reason = NodeNotLoaded | MassDrop

  datatype DesyncAction = WaitCooldown(reason: Reason) | BulkResync(reason: Reason)

  function DecideDesync(loaded: bool, cacheLen: nat, nodeTxidCount: nat, coolingDown: bool): Option<DesyncAction> {
    if loaded && !IsMassDrop(cacheLen, nodeTxidCount) then None
    else
      var reason := if !loaded then NodeNotLoaded else MassDrop;
      Some(if coolingDown then WaitCooldown(reason) else BulkResync(reason))
  }

  /** A reaction is called for by a node that is not loaded, or that holds less than a fifth of a
      cache of at least a hundred; of the two reasons the first takes precedence, and the cooldown
      decides between waiting and downloading. */
  lemma ReactionMeans(loaded: bool, cacheLen: nat, nodeTxidCount: nat, coolingDown: bool)
    requires cacheLen <= 0xFFFF_FFFF_FFFF_FFFF
    ensures var action := DecideDesync(loaded, cacheLen, nodeTxidCount, coolingDown);
            && (action == None <==> loaded && !(cacheLen >= 100 && nodeTxidCount * 5 < cacheLen))
            && (action.Some? ==> action.value.reason == (if loaded then MassDrop else NodeNotLoaded)
                                 && (action.value.WaitCooldown? <==> coolingDown))
  {
    MassDropIsFifth(cacheLen, nodeTxidCount);
  }

  predicate IsBacklog(newCount: nat, maxPerTick: nat, fetchErrors: nat, incomplete: bool) {
    newCount > maxPerTick || fetchErrors > 0 || incomplete
  }

  /** Cache size after a tick, from counts; the subtraction must not underflow. */
  function ProjectedMempoolSize(cacheLen: nat, gone: nat, fetched: nat): nat
    requires gone <= cacheLen
  {
    cacheLen - gone + fetched
  }
}
