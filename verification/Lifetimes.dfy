/** How long things last in a run, in seconds and in fields: the initial table, the
    kernel's routes, the timers, the change flag, and a route's time in each table.
 */
module Lifetimes {
  import opened Wire
  import opened Routes
  import opened RouterSpec
  import opened RouterInvariant
  import opened RouterRuns
  import opened RouterTheorems
  import opened Reception

  // ------------------------------------------------------------------ start

  /** The table entry of a configured network: the address with the bits beyond the
      prefix cleared, one hop away, and to be announced. */
  predicate ConfiguredAs(k: RouteKey, info: RouteInfo, net: Network) {
    && k.ifIndex == net.ifIndex && k.nextHop == 0 && MaskHasLength(k.mask, net.prefix)
    && Swap32(k.ip) % Pow2(32 - net.prefix) == 0 && 0 <= net.address - Swap32(k.ip) < Pow2(32 - net.prefix)
    && info == RouteInfo(0x200, 0, 0x100_0000, true, true, false, 0, 0)
  }

  lemma LocalKeyMeaning(net: Network)
    requires PrefixOk(net)
    ensures ConfiguredAs(LocalKey(net), LocalInfo().(changed := true), net)
  {
    hide Swap32, NetworkPart;
    Swap32Twice(NetworkPart(net.address, net.prefix));
    Swap32Twice(HostMask(net.prefix));
    SmallMetric(1);
  }

  /** A run starts with exactly the configured networks, and with nothing in the
      kernel. */
  lemma StartsConfigured(r: Run)
    requires IsRun(r)
    ensures var s := r.states[0];
            && s.kernel == {} && !s.timers.gc && s.db.garbage == map[] && s.db.anyChanged == (r.nets != [])
            && (forall k :: k in s.db.ok ==> exists i :: 0 <= i < |r.nets| && ConfiguredAs(k, s.db.ok[k], r.nets[i]))
            && (forall i :: 0 <= i < |r.nets| ==> exists k :: k in s.db.ok && ConfiguredAs(k, s.db.ok[k], r.nets[i]))
  {
    hide Step, LocalKey, LocalInfo, ConfiguredAs;
    var s := r.states[0];
    InitialKeys(r.nets);
    forall k | k in s.db.ok
      ensures exists i :: 0 <= i < |r.nets| && ConfiguredAs(k, s.db.ok[k], r.nets[i])
    {
      var i :| 0 <= i < |r.nets| && k == LocalKey(r.nets[i]);
      LocalKeyMeaning(r.nets[i]);
    }
    forall i | 0 <= i < |r.nets|
      ensures exists k :: k in s.db.ok && ConfiguredAs(k, s.db.ok[k], r.nets[i])
    {
      LocalKeyMeaning(r.nets[i]);
      assert LocalKey(r.nets[i]) in s.db.ok;
    }
  }

  // ----------------------------------------------------------------- kernel

  /** `kk` is the kernel's form of the learned ok route `k`: to its network, by its
      neighbour and interface, with priority 20. */
  predicate RoutesFor(t: RouteTable, k: RouteKey, kk: KernelKey) {
    && k in t && !t[k].isLocal
    && kk.ip == k.ip && kk.nextHop == k.nextHop && kk.ifIndex == k.ifIndex
    && 1 <= kk.prefixLen <= 31 && MaskHasLength(k.mask, kk.prefixLen)
    && kk.priority == 20
  }

  lemma RoutesForKey(t: RouteTable, k: RouteKey, kk: KernelKey)
    requires k in t && LearnedRoute(k, t[k])
    ensures RoutesFor(t, k, kk) <==> kk == KernelKeyOf(k, t[k])
  {
    hide Swap32;
    StoredMetric(t[k]);
    ValidMasks(k.mask);
    Swap32Twice(HostMask(GetPrefixLen(k.mask)));
    if RoutesFor(t, k, kk) {
      assert Swap32(k.mask) == HostMask(kk.prefixLen);
      HostMaskIsContiguous(kk.prefixLen);
    }
  }

  /** In every state of every run the kernel holds exactly the learned ok routes, each
      to its own network by its own neighbour. */
  lemma KernelHolds(r: Run, i: nat, kk: KernelKey)
    requires IsRun(r) && i < |r.states| && (i > 0 ==> !r.events[i - 1].Shutdown?)
    ensures kk in r.states[i].kernel <==> exists k :: RoutesFor(r.states[i].db.ok, k, kk)
  {
    hide Step, InitialState, RoutesFor, KernelKeyOf, LearnedRoute;
    ReachableInv(r, i);
    var t := r.states[i].db.ok;
    forall k
      ensures RoutesFor(t, k, kk) <==> k in Learned(t) && kk == KernelKeyOf(k, t[k])
    {
      if k in Learned(t) {
        LearnedKind(r.states[i], k);
        RoutesForKey(t, k, kk);
      } else {
        NotLearned(t, k, kk);
      }
    }
  }

  lemma LearnedKind(s: State, k: RouteKey)
    requires Inv(s) && k in Learned(s.db.ok)
    ensures LearnedRoute(k, s.db.ok[k])
  {
    KindOf(s, k);
  }

  lemma NotLearned(t: RouteTable, k: RouteKey, kk: KernelKey)
    requires k !in Learned(t)
    ensures !RoutesFor(t, k, kk)
  {
  }

  // ----------------------------------------------------------------- timers

  /** What one event does to each timer. */
  lemma TimerStep(ifcs: seq<nat>, s: State, ev: Event, s': State, out: seq<Message>)
    requires Inv(s) && Step(ifcs, s, ev, s', out)
    ensures s'.timers.update == if ev.UpdateTick? then ev.sent else s.timers.update
    ensures s'.timers.warmup == (s.timers.warmup && !ev.WarmupTick?)
    ensures s'.timers.timeout
    ensures s'.timers.lock == if ev.LockTick? then false
                              else if ev.Check? && s.db.anyChanged && !s.timers.lock then ev.sent else s.timers.lock
    ensures s'.timers.gc == if ev.GcTick? then s'.db.garbage != map[]
                            else s.timers.gc || (ev.TimeoutTick? && s'.db.garbage.Keys != s.db.garbage.Keys)
  {
    hide Multicasts, Advertises, OkSwept, GarbageSwept, KernelKeys, DbMarkUnchanged, Poisoned, DbCollected, LearnedRoute, LocalRoute, DeadRoute;
    match ev
    case Response(es, sender, ifIndex, grants) =>
      ResponseKeepsTimers(s, es, sender, ifIndex, grants);
    case TimeoutTick(now) =>
      var expired :| TimeoutSwept(s, s', now, expired);
      SweepFills(s, s', now, expired);
    case _ =>
  }

  lemma SweepFills(s: State, s': State, now: int, expired: set<RouteKey>)
    requires Inv(s) && TimeoutSwept(s, s', now, expired)
    ensures s'.db.garbage.Keys == s.db.garbage.Keys + expired && s.db.garbage.Keys !! expired
  {
    hide LearnedRoute, LocalRoute, DeadRoute, ExpiredFrom, OkSwept, KernelKeys;
  }

  /** The periodic timer ticks from the start and until an update cannot be sent, the
      warm-up timer until it goes off, and the timeout timer always. */
  lemma {:induction false} TimersTick(r: Run, j: nat)
    requires IsRun(r) && j < |r.states|
    ensures r.states[j].timers.update <==> forall i :: 0 <= i < j ==> r.events[i] != UpdateTick(false)
    ensures r.states[j].timers.warmup <==> forall i :: 0 <= i < j ==> r.events[i] != WarmupTick
    ensures r.states[j].timers.timeout
    decreases j
  {
    hide Inv, Step;
    if j > 0 {
      TimersTick(r, j - 1);
      ReachableInv(r, j - 1);
      var ev := r.events[j - 1];
      assert Step(r.ifcs, r.states[j - 1], ev, r.states[j], r.outs[j - 1]);
      TimerStep(r.ifcs, r.states[j - 1], ev, r.states[j], r.outs[j - 1]);
      if ev.UpdateTick? {
        UpdateNeedsTimer(r.ifcs, r.states[j - 1], ev, r.states[j], r.outs[j - 1]);
      }
    }
  }

  lemma UpdateNeedsTimer(ifcs: seq<nat>, s: State, ev: Event, s': State, out: seq<Message>)
    requires Step(ifcs, s, ev, s', out) && ev.UpdateTick?
    ensures s.timers.update
  {
  }

  /** A triggered update that could be sent is the last one event before `j` that
      concerns the lock. */
  ghost predicate LockedSince(r: Run, i: nat, j: nat)
    requires IsRun(r) && i < j < |r.states|
  {
    && r.events[i] == Check(true) && r.states[i].db.anyChanged && !r.states[i].timers.lock
    && forall l :: i < l < j ==> !r.events[l].LockTick?
  }

  /** Triggered updates are locked exactly while one has been sent and the lock timer
      has not gone off since. */
  lemma {:induction false} LockedExactly(r: Run, j: nat)
    requires IsRun(r) && j < |r.states|
    ensures r.states[j].timers.lock <==> exists i :: 0 <= i < j && LockedSince(r, i, j)
    decreases j
  {
    hide Inv, Step;
    if j > 0 {
      LockedExactly(r, j - 1);
      ReachableInv(r, j - 1);
      var ev := r.events[j - 1];
      assert Step(r.ifcs, r.states[j - 1], ev, r.states[j], r.outs[j - 1]);
      TimerStep(r.ifcs, r.states[j - 1], ev, r.states[j], r.outs[j - 1]);
      if r.states[j].timers.lock {
        if r.states[j - 1].timers.lock {
          var i :| 0 <= i < j - 1 && LockedSince(r, i, j - 1);
          assert LockedSince(r, i, j);
        } else {
          assert LockedSince(r, j - 1, j);
        }
      }
      if i :| 0 <= i < j && LockedSince(r, i, j) {
        if i < j - 1 {
          assert LockedSince(r, i, j - 1);
        }
      }
    }
  }

  // ------------------------------------------------------- one step on tables

  /** The event announces routes to all interfaces short of shutting down. */
  predicate Updates(s: State, ev: Event) {
    ev.UpdateTick? || (ev.Check? && s.db.anyChanged && !s.timers.lock)
  }

  /** Events other than responses, sweeps, collections and shutdown leave every route
      where and as it is; an update to all interfaces clears the change marks. */
  lemma QuietStep(ifcs: seq<nat>, s: State, ev: Event, s': State, out: seq<Message>)
    requires Inv(s) && Step(ifcs, s, ev, s', out)
    requires ev.Request? || ev.UpdateTick? || ev.WarmupTick? || ev.LockTick? || ev.Check?
    ensures s'.kernel == s.kernel && s'.db.anyChanged == (s.db.anyChanged && !Updates(s, ev))
    ensures s'.db.ok.Keys == s.db.ok.Keys && s'.db.garbage.Keys == s.db.garbage.Keys
    ensures forall k :: k in s.db.ok ==>
              s'.db.ok[k] == s.db.ok[k].(changed := s.db.ok[k].changed && !Updates(s, ev))
    ensures forall k :: k in s.db.garbage ==>
              s'.db.garbage[k] == s.db.garbage[k].(changed := s.db.garbage[k].changed && !Updates(s, ev))
  {
    hide Multicasts, Advertises, TablesOk, KernelAgrees;
  }

  /** A collection drops exactly what has been garbage for 120 seconds. */
  lemma CollectionStep(ifcs: seq<nat>, s: State, now: int, s': State, out: seq<Message>)
    requires Inv(s) && Step(ifcs, s, GcTick(now), s', out)
    ensures s'.kernel == s.kernel && s'.db.anyChanged == s.db.anyChanged && s'.db.ok == s.db.ok
    ensures forall k :: k in s'.db.garbage <==> k in s.db.garbage && now - s.db.garbage[k].gcStartedAt < 120
    ensures forall k :: k in s'.db.garbage ==> s'.db.garbage[k] == s.db.garbage[k]
  {
    hide LearnedRoute, LocalRoute, DeadRoute, KernelAgrees;
    GcLeavesOk(s.db, now);
  }

  /** `b` is `a` after at least one tick of 15 seconds and short of 180 seconds. */
  predicate OlderBy(a: RouteInfo, b: RouteInfo, seconds: int) {
    b == a.(timeoutCnt := a.timeoutCnt + seconds) && 15 <= seconds && seconds % 15 == 0
  }

  /** `b` is `a`, no less than 180 seconds old, at 16 hops, to be announced, and garbage
      since `now`. */
  predicate DiedAt(a: RouteInfo, b: RouteInfo, now: int) {
    && b == RouteInfo(a.family, a.tag, 0x1000_0000, true, a.isLocal, false, b.timeoutCnt, now)
    && b.timeoutCnt >= 180
  }

  /** What a sweep does to a learned route: it gets older by `seconds` and stays if
      that leaves it short of 180, and becomes garbage otherwise. A sweep that expires
      `n` routes counts a survivor at most `n + 1` times and the others at most `n`. */
  ghost predicate SweptRoute(s: State, s': State, now: int, k: RouteKey, n: nat)
    requires k in s.db.ok
  {
    var a := s.db.ok[k];
    if k in s'.db.ok then
      var b := s'.db.ok[k];
      k !in s'.db.garbage && OlderBy(a, b, b.timeoutCnt - a.timeoutCnt) && b.timeoutCnt < 180 && b.timeoutCnt <= a.timeoutCnt + 15 * (n + 1)
    else
      k in s'.db.garbage && DiedAt(a, s'.db.garbage[k], now) && 180 <= a.timeoutCnt + 15 * n
  }

  /** The whole effect of a sweep on the tables. */
  lemma SweepStep(ifcs: seq<nat>, s: State, now: int, s': State, out: seq<Message>)
    requires Inv(s) && Step(ifcs, s, TimeoutTick(now), s', out)
    ensures s'.db.ok.Keys <= s.db.ok.Keys
    ensures s'.db.anyChanged == (s.db.anyChanged || s'.db.ok.Keys != s.db.ok.Keys)
    ensures forall k :: k in s.db.ok && s.db.ok[k].isLocal ==> k in s'.db.ok && s'.db.ok[k] == s.db.ok[k]
    ensures forall k :: k in Learned(s.db.ok) ==> SweptRoute(s, s', now, k, |s.db.ok.Keys - s'.db.ok.Keys|)
    ensures forall k :: k in s.db.garbage ==> k in s'.db.garbage && s'.db.garbage[k] == s.db.garbage[k]
    ensures forall k :: k in s'.db.garbage ==> k in s.db.garbage || k in Learned(s.db.ok)
    ensures s'.db.ok.Keys != s.db.ok.Keys <==> exists k :: k in Learned(s.db.ok) && s.db.ok[k].timeoutCnt == 165
  {
    hide TimeoutSwept, LearnedRoute, LocalRoute, DeadRoute, KernelAgrees, SweptRoute;
    var expired :| TimeoutSwept(s, s', now, expired);
    SweepExpiresIff(s, s', now, expired);
    SweptKeys(s, s', now, expired);
    forall k | k in Learned(s.db.ok)
      ensures SweptRoute(s, s', now, k, |expired|)
    {
      SweptOne(s, s', now, expired, k);
    }
    if expired != {} {
      var k :| AtLimit(s.db.ok, k);
      assert k in Learned(s.db.ok);
    }
    if k :| k in Learned(s.db.ok) && s.db.ok[k].timeoutCnt == 165 {
      assert AtLimit(s.db.ok, k);
    }
  }

  lemma SweptKeys(s: State, s': State, now: int, expired: set<RouteKey>)
    requires Inv(s) && TimeoutSwept(s, s', now, expired)
    ensures s'.db.ok.Keys <= s.db.ok.Keys && s.db.ok.Keys - s'.db.ok.Keys == expired
    ensures s'.db.anyChanged == (s.db.anyChanged || s'.db.ok.Keys != s.db.ok.Keys)
    ensures forall k :: k in s.db.ok && s.db.ok[k].isLocal ==> k in s'.db.ok && s'.db.ok[k] == s.db.ok[k]
    ensures forall k :: k in s.db.garbage ==> k in s'.db.garbage && s'.db.garbage[k] == s.db.garbage[k]
    ensures forall k :: k in s'.db.garbage ==> k in s.db.garbage || k in Learned(s.db.ok)
  {
    hide LearnedRoute, LocalRoute, DeadRoute, KernelAgrees, ExpiredFrom, Aged, KernelKeys;
  }

  lemma SweptOne(s: State, s': State, now: int, expired: set<RouteKey>, k: RouteKey)
    requires Inv(s) && TimeoutSwept(s, s', now, expired) && k in Learned(s.db.ok)
    ensures SweptRoute(s, s', now, k, |expired|)
  {
    hide KernelKeys, KernelAgrees, LearnedRoute, LocalRoute, DeadRoute, ExpiredFrom, Aged, OlderBy, DiedAt;
    if k in expired {
      ExpiredDied(s.db.ok[k], s'.db.garbage[k], now, |expired|);
    } else {
      AgedOlder(s.db.ok[k], s'.db.ok[k], 1 + |expired|);
    }
  }

  lemma AgedOlder(a: RouteInfo, b: RouteInfo, ticks: nat)
    requires Aged(a, b, 1, ticks)
    ensures OlderBy(a, b, b.timeoutCnt - a.timeoutCnt) && b.timeoutCnt <= a.timeoutCnt + 15 * ticks
  {
  }

  lemma ExpiredDied(a: RouteInfo, b: RouteInfo, now: int, ticks: nat)
    requires ExpiredFrom(a, b, now, ticks)
    ensures DiedAt(a, b, now) && 180 <= a.timeoutCnt + 15 * ticks
  {
    hide Swap32;
    SmallMetric(INFINITY_METRIC);
  }

  /** On shutdown every route stays in its table, at 16 hops and announced, and the
      kernel has none left. */
  lemma ShutdownStep(ifcs: seq<nat>, s: State, s': State, out: seq<Message>)
    requires Inv(s) && Step(ifcs, s, Shutdown, s', out)
    ensures s'.kernel == {} && s'.timers == s.timers
    ensures s'.db.ok.Keys == s.db.ok.Keys && s'.db.garbage.Keys == s.db.garbage.Keys
    ensures forall k :: k in s.db.ok ==> s'.db.ok[k] == s.db.ok[k].(changed := false, metric := 0x1000_0000)
    ensures forall k :: k in s.db.garbage ==> s'.db.garbage[k] == s.db.garbage[k].(changed := false, metric := 0x1000_0000)
  {
    hide Multicasts, TablesOk, KernelAgrees, Swap32;
    CleanupEmptiesKernel(s);
    SmallMetric(INFINITY_METRIC);
  }

  // ------------------------------------------------------- time in garbage

  /** A response from the route's neighbour, on its interface, holds an acceptable
      entry for its network. */
  ghost predicate Offers(ev: Event, k: RouteKey) {
    && ev.Response? && ev.sender == k.nextHop && ev.ifIndex == k.ifIndex
    && exists n :: 0 <= n < |ev.es| && ev.es[n].ip == k.ip && ev.es[n].mask == k.mask && Accepts(ev.es[n])
  }

  /** The route `k` is filed in the same place and way. */
  predicate SameRoute(db: Db, db': Db, k: RouteKey) {
    && (k in db'.ok <==> k in db.ok) && (k in db.ok ==> db'.ok[k] == db.ok[k])
    && (k in db'.garbage <==> k in db.garbage) && (k in db.garbage ==> db'.garbage[k] == db.garbage[k])
  }

  lemma {:induction false} UnofferedStays(s: State, es: seq<Entry>, sender: U32, ifIndex: nat, grants: seq<bool>, k: RouteKey)
    requires |grants| == |es| && !Offers(Response(es, sender, ifIndex, grants), k)
    ensures SameRoute(s.db, ReceiveResponse(s, es, sender, ifIndex, grants).db, k)
    decreases |es|
  {
    hide Accepts, ReceiveEntry, IsEntryValid;
    if es != [] {
      var n := |es| - 1;
      assert forall i :: 0 <= i < n ==> es[..n][i] == es[i];
      UnofferedStays(s, es[..n], sender, ifIndex, grants[..n], k);
      AcceptsExactly(es[n]);
      EntryKeepsOthers(ReceiveResponse(s, es[..n], sender, ifIndex, grants[..n]), es[n], sender, ifIndex, grants[n], k);
    }
  }

  /** What one event does to a garbage route that is not offered again. */
  lemma GarbageStep(ifcs: seq<nat>, s: State, ev: Event, s': State, out: seq<Message>, k: RouteKey)
    requires Inv(s) && Step(ifcs, s, ev, s', out) && !ev.Shutdown? && k !in s.db.ok && !Offers(ev, k)
    ensures k !in s'.db.ok
    ensures k in s'.db.garbage <==> k in s.db.garbage && (ev.GcTick? ==> ev.now - s.db.garbage[k].gcStartedAt < 120)
    ensures k in s'.db.garbage ==> s'.db.garbage[k] == s.db.garbage[k].(changed := s'.db.garbage[k].changed)
  {
    hide Inv, Step, SweptRoute, Offers, Updates;
    match ev
    case Response(es, sender, ifIndex, grants) =>
      ResponseOf(ifcs, s, ev, s', out);
      UnofferedStays(s, es, sender, ifIndex, grants, k);
    case TimeoutTick(now) =>
      SweepStep(ifcs, s, now, s', out);
    case GcTick(now) =>
      CollectionStep(ifcs, s, now, s', out);
    case _ =>
      QuietStep(ifcs, s, ev, s', out);
  }

  lemma ResponseOf(ifcs: seq<nat>, s: State, ev: Event, s': State, out: seq<Message>)
    requires Step(ifcs, s, ev, s', out) && ev.Response?
    ensures |ev.grants| == |ev.es| && s' == ReceiveResponse(s, ev.es, ev.sender, ev.ifIndex, ev.grants)
  {
  }

  /** No collection between `i` and `j` comes 120 seconds or more after `now`. */
  ghost predicate CollectedBefore(r: Run, i: nat, j: nat, now: int)
    requires IsRun(r) && i < j < |r.states|
  {
    forall l :: i < l < j && r.events[l].GcTick? ==> r.events[l].now - now < 120
  }

  /** A route that expires in the sweep at `now` is garbage from then on, and as long as
      it is not offered again it stays so exactly until the first collection that comes
      at least 120 seconds later. */
  lemma {:induction false} GarbageFor120(r: Run, k: RouteKey, i: nat, j: nat)
    requires IsRun(r) && i < j < |r.states| && r.events[i].TimeoutTick?
    requires k in r.states[i].db.ok && k !in r.states[i + 1].db.ok
    requires forall l :: i < l < j ==> !r.events[l].Shutdown? && !Offers(r.events[l], k)
    ensures k !in r.states[j].db.ok
    ensures k in r.states[j].db.garbage <==> CollectedBefore(r, i, j, r.events[i].now)
    ensures k in r.states[j].db.garbage ==>
              r.states[j].db.garbage[k].gcStartedAt == r.events[i].now && Hops(r.states[j].db.garbage[k]) == 16
    decreases j
  {
    hide Inv, Step, Offers, InitialState;
    var s, ev, s' := r.states[j - 1], r.events[j - 1], r.states[j];
    assert Step(r.ifcs, s, ev, s', r.outs[j - 1]);
    ReachableInv(r, j - 1);
    if j == i + 1 {
      assert k in Learned(s.db.ok) by { SweepStep(r.ifcs, s, ev.now, s', r.outs[i]); }
      SweepStep(r.ifcs, s, ev.now, s', r.outs[i]);
      SmallMetric(16);
    } else {
      GarbageFor120(r, k, i, j - 1);
      GarbageStep(r.ifcs, s, ev, s', r.outs[j - 1], k);
    }
  }

  /** The sweep that made `k` garbage, before state `j` and less than 120 seconds before
      every collection since. */
  ghost predicate ExpiredIn(r: Run, k: RouteKey, i: nat, j: nat)
    requires IsRun(r) && i < j < |r.states| && k in r.states[j].db.garbage
  {
    && r.events[i].TimeoutTick? && k in Learned(r.states[i].db.ok) && k !in r.states[i + 1].db.ok
    && r.states[j].db.garbage[k].gcStartedAt == r.events[i].now
    && (forall l :: i < l <= j ==> k in r.states[l].db.garbage)
    && CollectedBefore(r, i, j, r.events[i].now)
  }

  /** Whatever is garbage in a run got there by a timeout. */
  lemma {:induction false} GarbageOrigin(r: Run, k: RouteKey, j: nat) returns (i: nat)
    requires IsRun(r) && j < |r.states| && k in r.states[j].db.garbage
    requires forall l :: 0 <= l < j ==> !r.events[l].Shutdown?
    ensures i < j && ExpiredIn(r, k, i, j)
    decreases j
  {
    hide Inv, Step, SweptRoute;
    if j == 0 {
      StartsConfigured(r);
      assert false;
    }
    var s, ev, s' := r.states[j - 1], r.events[j - 1], r.states[j];
    assert Step(r.ifcs, s, ev, s', r.outs[j - 1]);
    ReachableInv(r, j - 1);
    GarbageBefore(r.ifcs, s, ev, s', r.outs[j - 1], k);
    if k in s.db.garbage {
      i := GarbageOrigin(r, k, j - 1);
    } else {
      i := j - 1;
    }
  }

  lemma GarbageBefore(ifcs: seq<nat>, s: State, ev: Event, s': State, out: seq<Message>, k: RouteKey)
    requires Inv(s) && Step(ifcs, s, ev, s', out) && !ev.Shutdown? && k in s'.db.garbage
    ensures if k in s.db.garbage then
              && s'.db.garbage[k].gcStartedAt == s.db.garbage[k].gcStartedAt
              && (ev.GcTick? ==> ev.now - s.db.garbage[k].gcStartedAt < 120)
            else
              && ev.TimeoutTick? && k in Learned(s.db.ok) && k !in s'.db.ok && s'.db.garbage[k].gcStartedAt == ev.now
  {
    hide Inv, Step, Updates;
    match ev
    case Response(es, sender, ifIndex, grants) =>
      ResponseOf(ifcs, s, ev, s', out);
      ResponseAddsNoGarbage(s, es, sender, ifIndex, grants, k);
    case TimeoutTick(now) =>
      SweepStep(ifcs, s, now, s', out);
    case GcTick(now) =>
      CollectionStep(ifcs, s, now, s', out);
    case _ =>
      QuietStep(ifcs, s, ev, s', out);
  }

  lemma {:induction false} ResponseAddsNoGarbage(s: State, es: seq<Entry>, sender: U32, ifIndex: nat, grants: seq<bool>, k: RouteKey)
    requires |grants| == |es| && k in ReceiveResponse(s, es, sender, ifIndex, grants).db.garbage
    ensures k in s.db.garbage && ReceiveResponse(s, es, sender, ifIndex, grants).db.garbage[k] == s.db.garbage[k]
    decreases |es|
  {
    hide IsEntryValid, KernelKeyOf, IncomingInfo;
    if es != [] {
      var n := |es| - 1;
      ResponseAddsNoGarbage(s, es[..n], sender, ifIndex, grants[..n], k);
    }
  }

  // ---------------------------------------------------- time in the ok table

  /** How often an event may count one route: a sweep once, and once more for every
      route that expires. */
  ghost function Counts(s: State, ev: Event, s': State): nat {
    if ev.TimeoutTick? then 1 + |s.db.ok.Keys - s'.db.ok.Keys| else 0
  }

  /** How often events `a` up to `b` may have counted one route. */
  ghost function CountsBetween(r: Run, a: nat, b: nat): nat
    requires IsRun(r) && a <= b < |r.states|
  {
    if a == b then 0 else
      CountsBetween(r, a, b - 1) + Counts(r.states[b - 1], r.events[b - 1], r.states[b])
  }

  lemma SurvivesStep(ifcs: seq<nat>, s: State, ev: Event, s': State, out: seq<Message>, k: RouteKey, n: nat)
    requires Inv(s) && Step(ifcs, s, ev, s', out) && !ev.Shutdown? && k in Learned(s.db.ok)
    requires NoneBelow(EventCosts(ev, k), Hops(s.db.ok[k]))
    requires n == Counts(s, ev, s')
    requires s.db.ok[k].timeoutCnt + 15 * n < 180
    ensures k in Learned(s'.db.ok) && Hops(s'.db.ok[k]) == Hops(s.db.ok[k])
    ensures s'.db.ok[k].timeoutCnt <= s.db.ok[k].timeoutCnt + 15 * n
    ensures s'.db.ok[k].timeoutCnt >= s.db.ok[k].timeoutCnt + if ev.TimeoutTick? then 15 else 0
  {
    hide Inv, Step, Updates, OfferedCosts, Swap32;
    match ev
    case Response(es, sender, ifIndex, grants) =>
      ResponseOf(ifcs, s, ev, s', out);
      ResponseIgnoresDearer(s, es, sender, ifIndex, grants, k);
    case TimeoutTick(now) =>
      SweepStep(ifcs, s, now, s', out);
    case GcTick(now) =>
      CollectionStep(ifcs, s, now, s', out);
    case _ =>
      QuietStep(ifcs, s, ev, s', out);
  }

  lemma SurvivesNext(r: Run, k: RouteKey, i: nat, n: nat)
    requires IsRun(r) && i < |r.events| && !r.events[i].Shutdown? && (i > 0 ==> !r.events[i - 1].Shutdown?)
    requires k in Learned(r.states[i].db.ok) && NoneBelow(EventCosts(r.events[i], k), Hops(r.states[i].db.ok[k]))
    requires n == Counts(r.states[i], r.events[i], r.states[i + 1])
    requires r.states[i].db.ok[k].timeoutCnt + 15 * n < 180
    ensures var t, t' := r.states[i].db.ok, r.states[i + 1].db.ok;
            && k in Learned(t') && Hops(t'[k]) == Hops(t[k])
            && t[k].timeoutCnt + (if r.events[i].TimeoutTick? then 15 else 0) <= t'[k].timeoutCnt <= t[k].timeoutCnt + 15 * n
  {
    hide Inv, Step, EventCosts, Hops, NoneBelow, InitialState, WellConfigured, Counts;
    ReachableInv(r, i);
    assert Step(r.ifcs, r.states[i], r.events[i], r.states[i + 1], r.outs[i]);
    SurvivesStep(r.ifcs, r.states[i], r.events[i], r.states[i + 1], r.outs[i], k, n);
  }

  /** A learned route lives as long as it should: while nothing cheaper is offered, it
      stays with its metric as long as its age and 15 seconds for every time it can have
      been counted come to less than 180. */
  lemma {:induction false} RouteSurvives(r: Run, k: RouteKey, a: nat, b: nat)
    requires IsRun(r) && a <= b < |r.states| && k in Learned(r.states[a].db.ok)
    requires a > 0 ==> !r.events[a - 1].Shutdown?
    requires forall i :: a <= i < b ==>
               !r.events[i].Shutdown? && NoneBelow(EventCosts(r.events[i], k), Hops(r.states[a].db.ok[k]))
    requires r.states[a].db.ok[k].timeoutCnt + 15 * CountsBetween(r, a, b) < 180
    ensures k in Learned(r.states[b].db.ok) && Hops(r.states[b].db.ok[k]) == Hops(r.states[a].db.ok[k])
    ensures 15 * SweepsBetween(r.events, a, b) <= r.states[b].db.ok[k].timeoutCnt - r.states[a].db.ok[k].timeoutCnt
                                               <= 15 * CountsBetween(r, a, b)
    decreases b
  {
    hide Step, EventCosts, Hops, NoneBelow, InitialState, WellConfigured, Counts;
    if a < b {
      RouteSurvives(r, k, a, b - 1);
      SurvivesNext(r, k, b - 1, Counts(r.states[b - 1], r.events[b - 1], r.states[b]));
    }
  }

  // ------------------------------------------------------------ change flag

  /** The entry is filed: it is acceptable, granted, and new or cheaper. */
  ghost predicate Files(s: State, e: Entry, sender: U32, ifIndex: nat, grant: bool) {
    var k := RouteKey(ifIndex, e.ip, e.mask, sender);
    var m := Swap32(e.metric);
    Accepts(e) && grant && (k in s.db.ok ==> Swap32(s.db.ok[k].metric) > if m < 16 then m + 1 else 16)
  }

  /** Entry `n` of the response is filed when its turn comes. */
  ghost predicate FilesAt(s: State, es: seq<Entry>, sender: U32, ifIndex: nat, grants: seq<bool>, n: nat)
    requires n < |es| == |grants|
  {
    Files(ReceiveResponse(s, es[..n], sender, ifIndex, grants[..n]), es[n], sender, ifIndex, grants[n])
  }

  lemma {:induction false} ResponseFlag(s: State, es: seq<Entry>, sender: U32, ifIndex: nat, grants: seq<bool>)
    requires Inv(s) && |grants| == |es|
    ensures ReceiveResponse(s, es, sender, ifIndex, grants).db.anyChanged <==>
            s.db.anyChanged || exists n :: 0 <= n < |es| && FilesAt(s, es, sender, ifIndex, grants, n)
    decreases |es|
  {
    hide Inv, ReceiveEntry, Files;
    if es != [] {
      var n := |es| - 1;
      var s1 := ReceiveResponse(s, es[..n], sender, ifIndex, grants[..n]);
      ResponseFlag(s, es[..n], sender, ifIndex, grants[..n]);
      ReceiveResponseKeepsInv(s, es[..n], sender, ifIndex, grants[..n]);
      EntryFlag(s1, es[n], sender, ifIndex, grants[n]);
      forall i | 0 <= i < n
        ensures FilesAt(s, es, sender, ifIndex, grants, i) == FilesAt(s, es[..n], sender, ifIndex, grants[..n], i)
      {
        assert es[..n][..i] == es[..i] && grants[..n][..i] == grants[..i];
      }
      assert FilesAt(s, es, sender, ifIndex, grants, n) == Files(s1, es[n], sender, ifIndex, grants[n]);
      if m :| 0 <= m < n && FilesAt(s, es[..n], sender, ifIndex, grants[..n], m) {
        assert FilesAt(s, es, sender, ifIndex, grants, m);
      }
    }
  }

  lemma EntryFlag(s: State, e: Entry, sender: U32, ifIndex: nat, grant: bool)
    requires Inv(s)
    ensures ReceiveEntry(s, e, sender, ifIndex, grant).state.db.anyChanged ==
            (s.db.anyChanged || Files(s, e, sender, ifIndex, grant))
  {
    hide Inv, ReceiveEntry, Accepts, Swap32;
    EntryEffect(s, e, sender, ifIndex, grant);
  }

  /** Event `i` files a route or lets one expire. */
  ghost predicate Alters(r: Run, i: nat)
    requires IsRun(r) && i < |r.events|
  {
    match r.events[i]
    case Response(es, sender, ifIndex, grants) =>
      |grants| == |es| && exists n :: 0 <= n < |es| && FilesAt(r.states[i], es, sender, ifIndex, grants, n)
    case TimeoutTick(_) => r.states[i + 1].db.ok.Keys != r.states[i].db.ok.Keys
    case _ => false
  }

  lemma FlagStep(r: Run, i: nat)
    requires IsRun(r) && i < |r.events|
    ensures r.states[i + 1].db.anyChanged <==>
            && !r.events[i].Shutdown? && !Updates(r.states[i], r.events[i])
            && (r.states[i].db.anyChanged || Alters(r, i))
  {
    hide Inv, Step, InitialState, FilesAt, SweptRoute;
    var s, ev, s', out := r.states[i], r.events[i], r.states[i + 1], r.outs[i];
    assert Step(r.ifcs, s, ev, s', out);
    ReachableInv(r, i);
    match ev
    case Response(es, sender, ifIndex, grants) =>
      ResponseOf(r.ifcs, s, ev, s', out);
      ResponseFlag(s, es, sender, ifIndex, grants);
    case TimeoutTick(now) =>
      SweepStep(r.ifcs, s, now, s', out);
    case GcTick(now) =>
      CollectionStep(r.ifcs, s, now, s', out);
    case Shutdown =>
      ShutdownClears(r.ifcs, s, s', out);
    case _ =>
      QuietStep(r.ifcs, s, ev, s', out);
  }

  lemma ShutdownClears(ifcs: seq<nat>, s: State, s': State, out: seq<Message>)
    requires Step(ifcs, s, Shutdown, s', out)
    ensures !s'.db.anyChanged
  {
    hide Multicasts;
  }

  /** Something has changed just before state `i`, and nothing was announced to all
      interfaces from there to state `j`. */
  ghost predicate PendingSince(r: Run, i: nat, j: nat)
    requires IsRun(r) && i <= j < |r.states|
  {
    && (if i == 0 then r.nets != [] else Alters(r, i - 1))
    && forall l :: i <= l < j ==> !r.events[l].Shutdown? && !Updates(r.states[l], r.events[l])
  }

  /** A change is pending exactly if something has been configured, filed or expired
      since the last announcement to all interfaces. */
  lemma {:induction false} PendingExactly(r: Run, j: nat)
    requires IsRun(r) && j < |r.states|
    ensures r.states[j].db.anyChanged <==> exists i :: 0 <= i <= j && PendingSince(r, i, j)
    decreases j
  {
    hide Step, Alters, Updates;
    if j == 0 {
      StartsConfigured(r);
      assert r.nets != [] ==> PendingSince(r, 0, 0);
    } else {
      PendingExactly(r, j - 1);
      FlagStep(r, j - 1);
      if r.states[j].db.anyChanged {
        if r.states[j - 1].db.anyChanged {
          var i :| 0 <= i <= j - 1 && PendingSince(r, i, j - 1);
          assert PendingSince(r, i, j);
        } else {
          assert PendingSince(r, j, j);
        }
      }
      if i :| 0 <= i <= j && PendingSince(r, i, j) {
        if i < j {
          assert PendingSince(r, i, j - 1);
        } else {
          AlteringIsNoUpdate(r, j - 1);
        }
      }
    }
  }

  lemma AlteringIsNoUpdate(r: Run, i: nat)
    requires IsRun(r) && i < |r.events| && Alters(r, i)
    ensures !r.events[i].Shutdown? && !Updates(r.states[i], r.events[i])
  {
    hide IsRun;
  }
}
