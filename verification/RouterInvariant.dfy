/** The invariant of one router. */
module RouterInvariant {
  import opened Wire
  import opened Routes
  import opened RouterSpec

  ghost predicate LearnedRoute(k: RouteKey, info: RouteInfo) {
    && !info.isLocal && info.inRoutingTable
    && IsNetMaskValid(k.mask)
    && 2 <= Hops(info) <= INFINITY_METRIC
    && 0 <= info.timeoutCnt < TIMEOUT_PERIOD && info.timeoutCnt % TIMEOUT_PERIOD_TIMER == 0
  }

  ghost predicate LocalRoute(k: RouteKey, info: RouteInfo) {
    info.isLocal && !info.inRoutingTable && Hops(info) == 1 && info.timeoutCnt == 0 && k.nextHop == 0
  }

  ghost predicate DeadRoute(info: RouteInfo) {
    !info.isLocal && !info.inRoutingTable && Hops(info) == INFINITY_METRIC
  }

  /** Every route is of one of three kinds, and no key is in both tables. */
  ghost predicate TablesOk(db: Db) {
    && (forall k :: k in db.ok ==> LearnedRoute(k, db.ok[k]) || LocalRoute(k, db.ok[k]))
    && (forall k :: k in db.garbage ==> DeadRoute(db.garbage[k]))
    && db.ok.Keys !! db.garbage.Keys
  }

  /** The kernel holds exactly the learned ok routes. */
  ghost predicate KernelAgrees(s: State) {
    s.kernel == KernelKeys(s.db.ok, Learned(s.db.ok))
  }

  /** A set change bit is signalled by the flag. */
  ghost predicate ChangesSignalled(db: Db) {
    && (forall k :: k in db.ok && db.ok[k].changed ==> db.anyChanged)
    && (forall k :: k in db.garbage && db.garbage[k].changed ==> db.anyChanged)
  }

  /** Garbage is being collected, and timeouts are being counted. */
  ghost predicate TimersOk(s: State) {
    (s.db.garbage.Keys != {} ==> s.timers.gc) && s.timers.timeout
  }

  ghost predicate Inv(s: State) {
    TablesOk(s.db) && KernelAgrees(s) && ChangesSignalled(s.db) && TimersOk(s)
  }

  // ------------------------------------------------------------ kernel keys

  lemma KernelKeyOfOk(s: State, k: RouteKey)
    requires TablesOk(s.db) && KernelAgrees(s) && k in s.db.ok && !s.db.ok[k].isLocal
    ensures KernelKeyOf(k, s.db.ok[k]) in s.kernel
  {
    assert k in Learned(s.db.ok);
  }

  /** A route that is not a learned ok route has no kernel key in use. */
  lemma KernelKeyFree(s: State, k: RouteKey, info: RouteInfo)
    requires TablesOk(s.db) && KernelAgrees(s)
    requires IsNetMaskValid(k.mask) && MetricStored(info)
    requires k !in Learned(s.db.ok)
    ensures KernelKeyOf(k, info) !in s.kernel
  {
    if KernelKeyOf(k, info) in s.kernel {
      var l :| l in Learned(s.db.ok) && KernelKeyOf(l, s.db.ok[l]) == KernelKeyOf(k, info);
      KernelKeyInjective(k, info, l, s.db.ok[l]);
      assert false;
    }
  }

  /** Taking a set of learned routes out of the ok table takes exactly their
      keys out of the agreement. */
  lemma KernelKeysWithout(t: RouteTable, gone: set<RouteKey>)
    requires forall k :: k in Learned(t) ==> LearnedRoute(k, t[k])
    requires gone <= Learned(t)
    ensures KernelKeys(t, Learned(t)) - KernelKeys(t, gone) == KernelKeys(t, Learned(t) - gone)
  {
    forall k, l | k in gone && l in Learned(t) - gone
      ensures KernelKeyOf(k, t[k]) != KernelKeyOf(l, t[l])
    {
      assert LearnedRoute(k, t[k]) && LearnedRoute(l, t[l]);
      KernelKeyInjective(k, t[k], l, t[l]);
    }
  }

  lemma KernelKeysMore(t: RouteTable, ks: set<RouteKey>, k: RouteKey)
    requires ks <= t.Keys && k in t
    ensures KernelKeys(t, ks + {k}) == KernelKeys(t, ks) + {KernelKeyOf(k, t[k])}
  {
  }
}
