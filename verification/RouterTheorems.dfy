/** Theorems about whole runs of one router: triggered updates, changes and their
    advertisement, metrics, and the life of a learned route.
 */
module RouterTheorems {
  import opened Wire
  import opened Routes
  import opened RouterSpec
  import opened RouterInvariant
  import opened RouterRuns

  // ------------------------------------------------------- triggered updates

  /** Event `i` is a check that sends a triggered update. */
  ghost predicate TriggeredAt(r: Run, i: nat)
    requires IsRun(r) && i < |r.events|
  {
    r.events[i].Check? && Triggers(r.states[i])
  }

  lemma LockHolds(ifcs: seq<nat>, s: State, ev: Event, s': State, out: seq<Message>)
    requires Inv(s) && Step(ifcs, s, ev, s', out) && s.timers.lock && !ev.LockTick?
    ensures s'.timers.lock
  {
    hide Multicasts, Advertises, OkSwept, GarbageSwept, KernelKeys, DbMarkUnchanged, Poisoned, LearnedRoute, LocalRoute;
    match ev
    case Response(es, sender, ifIndex, grants) =>
      ResponseKeepsTimers(s, es, sender, ifIndex, grants);
    case _ =>
  }

  lemma {:induction false} ResponseKeepsTimers(s: State, es: seq<Entry>, sender: U32, ifIndex: nat, grants: seq<bool>)
    requires |grants| == |es|
    ensures ReceiveResponse(s, es, sender, ifIndex, grants).timers == s.timers
    decreases |es|
  {
    hide IsEntryValid, KernelKeyOf, IncomingInfo;
    if es != [] {
      var n := |es| - 1;
      ResponseKeepsTimers(s, es[..n], sender, ifIndex, grants[..n]);
    }
  }

  lemma {:induction false} LockedUntil(r: Run, i: nat, j: nat)
    requires IsRun(r) && i < j < |r.states|
    requires r.states[i + 1].timers.lock
    requires forall l :: i < l < j ==> !r.events[l].LockTick?
    requires forall l :: i <= l < j ==> !r.events[l].Shutdown?
    ensures r.states[j].timers.lock
    decreases j
  {
    hide Inv, Step;
    if j > i + 1 {
      LockedUntil(r, i, j - 1);
      ReachableInv(r, j - 1);
      LockHolds(r.ifcs, r.states[j - 1], r.events[j - 1], r.states[j], r.outs[j - 1]);
    }
  }

  /** Between any two triggered updates the lock has expired (section 3.10.1 of
      RFC 2453). */
  lemma LockBetweenTriggers(r: Run, i: nat, j: nat)
    requires IsRun(r) && i < j < |r.events| && TriggeredAt(r, i) && TriggeredAt(r, j)
    ensures exists l :: i < l < j && r.events[l].LockTick?
  {
    hide Inv;
    assert Step(r.ifcs, r.states[i], r.events[i], r.states[i + 1], r.outs[i]);
    if r.events[i].sent {
      if forall l :: i < l < j ==> !r.events[l].LockTick? {
        LockedUntil(r, i, j);
        assert false;
      }
    } else {
      FailedTriggerEnds(r, i);
      assert false;
    }
  }

  lemma FailedTriggerEnds(r: Run, i: nat)
    requires IsRun(r) && i < |r.events| && TriggeredAt(r, i) && !r.events[i].sent
    ensures i + 1 < |r.events| ==> r.events[i + 1].Shutdown? && i + 2 == |r.events|
  {
    assert r.events[i] == Check(false);
  }

  /** After a check that did not end the daemon, a pending change waits only for
      the lock. */
  lemma PendingWaitsForLock(r: Run, i: nat, k: RouteKey)
    requires IsRun(r) && i < |r.events| && r.events[i] == Check(true)
    requires var db := r.states[i + 1].db; (k in db.ok && db.ok[k].changed) || (k in db.garbage && db.garbage[k].changed)
    ensures r.states[i + 1].timers.lock
  {
    ReachableInv(r, i + 1);
    assert Step(r.ifcs, r.states[i], r.events[i], r.states[i + 1], r.outs[i]);
  }

  // -------------------------------------------------------------- local routes

  lemma EntryKeepsOthers(s: State, e: Entry, sender: U32, ifIndex: nat, grant: bool, k: RouteKey)
    requires IsEntryValid(EntryNtoh(e)) ==> k != IncomingKey(e, sender, ifIndex)
    ensures var db := ReceiveEntry(s, e, sender, ifIndex, grant).state.db;
            && (k in db.ok <==> k in s.db.ok) && (k in s.db.ok ==> db.ok[k] == s.db.ok[k])
            && (k in db.garbage <==> k in s.db.garbage) && (k in s.db.garbage ==> db.garbage[k] == s.db.garbage[k])
  {
    hide IsEntryValid, KernelKeyOf, IncomingInfo;
  }

  /** What one valid entry does to the route it is about. */
  lemma EntryUpdatesOne(s: State, e: Entry, sender: U32, ifIndex: nat, grant: bool)
    requires Inv(s) && IsEntryValid(EntryNtoh(e))
    ensures var k := IncomingKey(e, sender, ifIndex);
            var db := ReceiveEntry(s, e, sender, ifIndex, grant).state.db;
            if k in s.db.ok && Hops(s.db.ok[k]) <= Cost(e) then db == s.db
            else
              && k !in db.garbage
              && (k in s.db.ok ==> !s.db.ok[k].isLocal)
              && (k in db.ok <==> grant) && (grant ==> db.ok[k] == IncomingInfo(e).(changed := true))
  {
    hide Inv, KernelKeyOf, IsEntryValid, InstallRoute, Hops, LearnedRoute;
    var k := IncomingKey(e, sender, ifIndex);
    var info := IncomingInfo(e);
    IncomingIsLearned(e, sender, ifIndex);
    if k in s.db.ok {
      KindOf(s, k);
      CompareLearned(k, s.db.ok[k], info);
      if s.db.ok[k].metric > info.metric {
        WithdrawKeepsInv(s, k);
        InstallAbsent(s.(kernel := s.kernel - {KernelKeyOf(k, s.db.ok[k])}, db := DbRemove(s.db, k)), k, info, grant);
      }
    } else if k in s.db.garbage {
      DropGarbageKeepsInv(s, k);
      InstallAbsent(s.(db := DbRemove(s.db, k)), k, info, grant);
    } else {
      InstallAbsent(s, k, info, grant);
    }
  }

  lemma InstallAbsent(s: State, k: RouteKey, info: RouteInfo, grant: bool)
    requires Inv(s) && k !in s.db.ok && k !in s.db.garbage && LearnedRoute(k, info)
    ensures var db := InstallRoute(s, k, info, grant).state.db;
            k !in db.garbage && (k in db.ok <==> grant) && (grant ==> db.ok[k] == info.(changed := true))
  {
    hide Inv, LearnedRoute, KernelKeyOf;
    InstallKeepsInv(s, k, info, grant);
  }

  lemma CompareLearned(k: RouteKey, a: RouteInfo, b: RouteInfo)
    requires (LearnedRoute(k, a) || LocalRoute(k, a)) && LearnedRoute(k, b)
    ensures a.metric > b.metric <==> Hops(a) > Hops(b)
    ensures a.metric > b.metric ==> LearnedRoute(k, a)
  {
    MetricOrder(a, b);
    if LocalRoute(k, a) {
      LocalNotDisplaced(k, a, b);
    }
  }

  // --------------------------------------------------------- minimum metrics

  /** The costs, in order, at which a response offers the route `k`. */
  function OfferedCosts(es: seq<Entry>, sender: U32, ifIndex: nat, k: RouteKey): seq<U32> {
    if es == [] then [] else
      var n := |es| - 1;
      OfferedCosts(es[..n], sender, ifIndex, k) +
      if IsEntryValid(EntryNtoh(es[n])) && IncomingKey(es[n], sender, ifIndex) == k then [Cost(es[n])] else []
  }

  /** Of the entries of a response, those that offer the route `k` are granted by the
      kernel if it is asked. */
  ghost predicate GrantedFor(es: seq<Entry>, sender: U32, ifIndex: nat, grants: seq<bool>, k: RouteKey)
    requires |grants| == |es|
  {
    forall i :: 0 <= i < |es| && IsEntryValid(EntryNtoh(es[i])) && IncomingKey(es[i], sender, ifIndex) == k ==> grants[i]
  }

  /** A metric that is the least of those offered since there was none. */
  ghost predicate LeastOf(t: RouteTable, k: RouteKey, offers: seq<U32>) {
    if k in t then Hops(t[k]) in offers && (forall c :: c in offers ==> Hops(t[k]) <= c) else offers == []
  }

  lemma {:induction false} ResponseMinimum(s: State, es: seq<Entry>, sender: U32, ifIndex: nat, grants: seq<bool>,
                                          k: RouteKey, offers: seq<U32>)
    requires Inv(s) && |grants| == |es| && LeastOf(s.db.ok, k, offers)
    requires GrantedFor(es, sender, ifIndex, grants, k)
    ensures LeastOf(ReceiveResponse(s, es, sender, ifIndex, grants).db.ok, k, offers + OfferedCosts(es, sender, ifIndex, k))
    decreases |es|
  {
    hide Inv, IsEntryValid, ReceiveEntry, Hops;
    if es == [] {
      assert offers + [] == offers;
    } else {
      var n := |es| - 1;
      var s1 := ReceiveResponse(s, es[..n], sender, ifIndex, grants[..n]);
      assert forall i :: 0 <= i < n ==> es[..n][i] == es[i] && grants[..n][i] == grants[i];
      ResponseMinimum(s, es[..n], sender, ifIndex, grants[..n], k, offers);
      ReceiveResponseKeepsInv(s, es[..n], sender, ifIndex, grants[..n]);
      var before := offers + OfferedCosts(es[..n], sender, ifIndex, k);
      EntryMinimum(s1, es[n], sender, ifIndex, grants[n], k, before);
      if IsEntryValid(EntryNtoh(es[n])) && IncomingKey(es[n], sender, ifIndex) == k {
        assert offers + OfferedCosts(es, sender, ifIndex, k) == before + [Cost(es[n])];
      } else {
        assert offers + OfferedCosts(es, sender, ifIndex, k) == before;
      }
    }
  }

  lemma EntryMinimum(s: State, e: Entry, sender: U32, ifIndex: nat, grant: bool, k: RouteKey, before: seq<U32>)
    requires Inv(s) && LeastOf(s.db.ok, k, before)
    requires IsEntryValid(EntryNtoh(e)) && IncomingKey(e, sender, ifIndex) == k ==> grant
    ensures var t := ReceiveEntry(s, e, sender, ifIndex, grant).state.db.ok;
            if IsEntryValid(EntryNtoh(e)) && IncomingKey(e, sender, ifIndex) == k
            then LeastOf(t, k, before + [Cost(e)]) else LeastOf(t, k, before)
  {
    hide Inv, IsEntryValid, ReceiveEntry, LearnedRoute;
    if IsEntryValid(EntryNtoh(e)) && IncomingKey(e, sender, ifIndex) == k {
      EntryUpdatesOne(s, e, sender, ifIndex, grant);
      IncomingIsLearned(e, sender, ifIndex);
    } else {
      EntryKeepsOthers(s, e, sender, ifIndex, grant, k);
    }
  }

  function EventCosts(ev: Event, k: RouteKey): seq<U32> {
    match ev
    case Response(es, sender, ifIndex, _) => OfferedCosts(es, sender, ifIndex, k)
    case _ => []
  }

  /** The costs at which events `a` up to `b` offer the route `k`. */
  function CostsBetween(evs: seq<Event>, a: nat, b: nat, k: RouteKey): seq<U32>
    requires a <= b <= |evs|
  {
    if a == b then [] else CostsBetween(evs, a, b - 1, k) + EventCosts(evs[b - 1], k)
  }

  /** The event offers the route `k` only where the kernel would grant it. */
  ghost predicate Granted(ev: Event, k: RouteKey) {
    ev.Response? && |ev.grants| == |ev.es| ==> GrantedFor(ev.es, ev.sender, ev.ifIndex, ev.grants, k)
  }

  lemma OtherEventsKeepMetric(ifcs: seq<nat>, s: State, ev: Event, s': State, out: seq<Message>, k: RouteKey)
    requires Inv(s) && Step(ifcs, s, ev, s', out) && !ev.Response? && !ev.Shutdown?
    ensures k in s'.db.ok ==> k in s.db.ok && s'.db.ok[k].metric == s.db.ok[k].metric && s'.db.ok[k].isLocal == s.db.ok[k].isLocal
    ensures k in s.db.ok && s.db.ok[k].isLocal ==> k in s'.db.ok
    ensures k in s'.db.ok && !s'.db.ok[k].isLocal ==>
              s'.db.ok[k].timeoutCnt >= s.db.ok[k].timeoutCnt + (if ev.TimeoutTick? then 15 else 0)
  {
    hide Multicasts, Advertises, OkSwept, GarbageSwept, KernelKeys, LearnedRoute, LocalRoute, DeadRoute;
    if ev.TimeoutTick? {
      var expired :| TimeoutSwept(s, s', ev.now, expired);
      if k in s'.db.ok {
        SweptOkRoute(s.db.ok, s'.db.ok, expired, k);
      } else if k in s.db.ok && s.db.ok[k].isLocal {
        SweptOkKeeps(s.db.ok, s'.db.ok, expired, k);
      }
    }
  }

  /** While a key stays in the ok table, its metric is the least cost at which it
      has been offered since it was filed there. */
  lemma {:induction false} MetricIsLeastOffered(r: Run, k: RouteKey, a: nat, b: nat)
    requires IsRun(r) && a <= b < |r.states|
    requires k !in r.states[a].db.ok && (forall i :: a < i <= b ==> k in r.states[i].db.ok)
    requires forall i :: a <= i < b ==> Granted(r.events[i], k) && !r.events[i].Shutdown?
    requires a > 0 ==> !r.events[a - 1].Shutdown?
    ensures LeastOf(r.states[b].db.ok, k, CostsBetween(r.events, a, b, k))
    decreases b
  {
    hide Inv, Step, OfferedCosts, Hops;
    if a < b {
      MetricIsLeastOffered(r, k, a, b - 1);
      ReachableInv(r, b - 1);
      MinimumStep(r.ifcs, r.states[b - 1], r.events[b - 1], r.states[b], r.outs[b - 1], k, CostsBetween(r.events, a, b - 1, k));
    }
  }

  lemma MinimumStep(ifcs: seq<nat>, s: State, ev: Event, s': State, out: seq<Message>, k: RouteKey, offers: seq<U32>)
    requires Inv(s) && Step(ifcs, s, ev, s', out) && !ev.Shutdown? && Granted(ev, k)
    requires LeastOf(s.db.ok, k, offers) && k in s'.db.ok
    ensures LeastOf(s'.db.ok, k, offers + EventCosts(ev, k))
  {
    hide Inv, OfferedCosts, TimeoutSwept, GcSwept, DbMarkUnchanged, Multicasts, Advertises;
    if ev.Response? {
      ResponseMinimum(s, ev.es, ev.sender, ev.ifIndex, ev.grants, k, offers);
    } else {
      OtherEventsKeepMetric(ifcs, s, ev, s', out, k);
      assert offers + [] == offers;
    }
  }

  // ------------------------------------------------------- life of a route

  /** Local routes are never displaced, whatever is received. */
  lemma {:induction false} ResponseKeepsLocal(s: State, es: seq<Entry>, sender: U32, ifIndex: nat, grants: seq<bool>, k: RouteKey)
    requires Inv(s) && |grants| == |es| && k in s.db.ok && s.db.ok[k].isLocal
    ensures var t := ReceiveResponse(s, es, sender, ifIndex, grants).db.ok; k in t && t[k] == s.db.ok[k]
    decreases |es|
  {
    hide Inv, IsEntryValid, ReceiveEntry, Hops;
    if es != [] {
      var n := |es| - 1;
      ResponseKeepsLocal(s, es[..n], sender, ifIndex, grants[..n], k);
      ReceiveResponseKeepsInv(s, es[..n], sender, ifIndex, grants[..n]);
      EntryKeepsLocal(ReceiveResponse(s, es[..n], sender, ifIndex, grants[..n]), es[n], sender, ifIndex, grants[n], k);
    }
  }

  lemma EntryKeepsLocal(s: State, e: Entry, sender: U32, ifIndex: nat, grant: bool, k: RouteKey)
    requires Inv(s) && k in s.db.ok && s.db.ok[k].isLocal
    ensures var t := ReceiveEntry(s, e, sender, ifIndex, grant).state.db.ok; k in t && t[k] == s.db.ok[k]
  {
    hide Inv, IsEntryValid, ReceiveEntry, Hops;
    if IsEntryValid(EntryNtoh(e)) && IncomingKey(e, sender, ifIndex) == k {
      EntryUpdatesOne(s, e, sender, ifIndex, grant);
    } else {
      EntryKeepsOthers(s, e, sender, ifIndex, grant, k);
    }
  }

  /** How far a learned route has come: its age, and eleven ticks for every hop
      below infinity. */
  function Progress(info: RouteInfo): int {
    info.timeoutCnt + 165 * (INFINITY_METRIC - Hops(info))
  }

  lemma ReplacementProgress(k: RouteKey, a: RouteInfo, b: RouteInfo)
    requires LearnedRoute(k, a) && LearnedRoute(k, b) && Hops(b) < Hops(a)
    ensures Progress(b.(changed := true)) >= Progress(a)
  {
    hide Swap32;
    assert a.timeoutCnt <= 165;
  }

  lemma EntryProgress(s: State, e: Entry, sender: U32, ifIndex: nat, grant: bool, k: RouteKey)
    requires Inv(s) && k in s.db.ok && !s.db.ok[k].isLocal
    requires k in ReceiveEntry(s, e, sender, ifIndex, grant).state.db.ok
    ensures var t := ReceiveEntry(s, e, sender, ifIndex, grant).state.db.ok;
            !t[k].isLocal && Progress(t[k]) >= Progress(s.db.ok[k])
  {
    hide Inv, IsEntryValid, ReceiveEntry, Progress, Hops;
    KindOf(s, k);
    if IsEntryValid(EntryNtoh(e)) && IncomingKey(e, sender, ifIndex) == k {
      EntryUpdatesOne(s, e, sender, ifIndex, grant);
      IncomingIsLearned(e, sender, ifIndex);
      if Hops(s.db.ok[k]) > Cost(e) {
        ReplacementProgress(k, s.db.ok[k], IncomingInfo(e));
      }
    } else {
      EntryKeepsOthers(s, e, sender, ifIndex, grant, k);
    }
  }

  /** The route `k` is in the ok table after the first `n` entries of a response. */
  ghost predicate InAfter(s: State, es: seq<Entry>, sender: U32, ifIndex: nat, grants: seq<bool>, k: RouteKey, n: nat)
    requires n <= |es| == |grants|
  {
    k in ReceiveResponse(s, es[..n], sender, ifIndex, grants[..n]).db.ok
  }

  /** The route `k` does not leave the ok table during the event, not even between
      two entries of one response. */
  ghost predicate StaysThrough(s: State, ev: Event, k: RouteKey) {
    ev.Response? && |ev.grants| == |ev.es| ==>
      forall n :: 0 <= n <= |ev.es| ==> InAfter(s, ev.es, ev.sender, ev.ifIndex, ev.grants, k, n)
  }

  lemma {:induction false} ResponseProgress(s: State, es: seq<Entry>, sender: U32, ifIndex: nat, grants: seq<bool>, k: RouteKey, n: nat)
    requires Inv(s) && n <= |es| == |grants| && k in s.db.ok && !s.db.ok[k].isLocal
    requires forall m :: 0 <= m <= n ==> InAfter(s, es, sender, ifIndex, grants, k, m)
    ensures var t := ReceiveResponse(s, es[..n], sender, ifIndex, grants[..n]).db.ok;
            k in t && !t[k].isLocal && Progress(t[k]) >= Progress(s.db.ok[k])
    decreases n
  {
    hide Inv, IsEntryValid, ReceiveEntry, Progress;
    assert InAfter(s, es, sender, ifIndex, grants, k, n);
    if n > 0 {
      assert es[..n][..n - 1] == es[..n - 1] && grants[..n][..n - 1] == grants[..n - 1];
      ResponseProgress(s, es, sender, ifIndex, grants, k, n - 1);
      ReceiveResponseKeepsInv(s, es[..n - 1], sender, ifIndex, grants[..n - 1]);
      EntryProgress(ReceiveResponse(s, es[..n - 1], sender, ifIndex, grants[..n - 1]), es[n - 1], sender, ifIndex, grants[n - 1], k);
    }
  }

  /** The number of timeout sweeps among events `a` up to `b`. */
  function SweepsBetween(evs: seq<Event>, a: nat, b: nat): nat
    requires a <= b <= |evs|
  {
    if a == b then 0 else SweepsBetween(evs, a, b - 1) + if evs[b - 1].TimeoutTick? then 1 else 0
  }

  lemma StepProgress(ifcs: seq<nat>, s: State, ev: Event, s': State, out: seq<Message>, k: RouteKey)
    requires Inv(s) && Step(ifcs, s, ev, s', out) && !ev.Shutdown? && StaysThrough(s, ev, k)
    requires k in s.db.ok && !s.db.ok[k].isLocal && k in s'.db.ok
    ensures !s'.db.ok[k].isLocal
    ensures Progress(s'.db.ok[k]) >= Progress(s.db.ok[k]) + if ev.TimeoutTick? then 15 else 0
  {
    hide Inv, TimeoutSwept, GcSwept, DbMarkUnchanged, Multicasts, Advertises, Swap32, InAfter;
    if ev.Response? {
      ResponseProgress(s, ev.es, ev.sender, ev.ifIndex, ev.grants, k, |ev.es|);
      assert ev.es[..|ev.es|] == ev.es && ev.grants[..|ev.es|] == ev.grants;
    } else {
      OtherEventsKeepMetric(ifcs, s, ev, s', out, k);
    }
  }

  /** The route `k` is a learned ok route all through events `a` up to `b`. */
  ghost predicate StaysLearned(r: Run, k: RouteKey, a: nat, b: nat)
    requires IsRun(r) && a <= b < |r.states|
  {
    && (forall i :: a <= i <= b ==> k in r.states[i].db.ok)
    && !r.states[a].db.ok[k].isLocal
    && (a > 0 ==> !r.events[a - 1].Shutdown?)
    && (forall i :: a <= i < b ==> !r.events[i].Shutdown?)
  }

  lemma {:induction false} RunProgress(r: Run, k: RouteKey, a: nat, b: nat)
    requires IsRun(r) && a <= b < |r.states| && StaysLearned(r, k, a, b)
    requires forall i :: a <= i < b ==> StaysThrough(r.states[i], r.events[i], k)
    ensures !r.states[b].db.ok[k].isLocal
    ensures 15 * SweepsBetween(r.events, a, b) <= Progress(r.states[b].db.ok[k]) - Progress(r.states[a].db.ok[k])
    decreases b
  {
    hide Inv, Step, Progress, StaysThrough;
    if a < b {
      RunProgress(r, k, a, b - 1);
      ReachableInv(r, b - 1);
      StepProgress(r.ifcs, r.states[b - 1], r.events[b - 1], r.states[b], r.outs[b - 1], k);
    }
  }

  /** A learned route that stays in the ok table with the same metric sees at most
      eleven sweeps, and however often it is improved, at most 165: a better
      metric restarts its counter, an equal one does not. */
  lemma RouteLifetime(r: Run, k: RouteKey, a: nat, b: nat)
    requires IsRun(r) && a <= b < |r.states| && StaysLearned(r, k, a, b)
    requires forall i :: a <= i < b ==> StaysThrough(r.states[i], r.events[i], k)
    ensures SweepsBetween(r.events, a, b) <= 165
    ensures Hops(r.states[b].db.ok[k]) == Hops(r.states[a].db.ok[k]) ==> SweepsBetween(r.events, a, b) <= 11
  {
    hide Inv, Step, Swap32, StaysThrough;
    RunProgress(r, k, a, b);
    ReachableInv(r, a);
    ReachableInv(r, b);
    KindOf(r.states[a], k);
    KindOf(r.states[b], k);
    assert r.states[b].db.ok[k].timeoutCnt <= 165;
  }

  /** Nothing is offered below `h` hops. */
  ghost predicate NoneBelow(offers: seq<U32>, h: U32) {
    forall i :: 0 <= i < |offers| ==> h <= offers[i]
  }

  lemma {:induction false} ResponseIgnoresDearer(s: State, es: seq<Entry>, sender: U32, ifIndex: nat, grants: seq<bool>, k: RouteKey)
    requires Inv(s) && |grants| == |es| && k in s.db.ok
    requires NoneBelow(OfferedCosts(es, sender, ifIndex, k), Hops(s.db.ok[k]))
    ensures var t := ReceiveResponse(s, es, sender, ifIndex, grants).db.ok; k in t && t[k] == s.db.ok[k]
    decreases |es|
  {
    hide Inv, IsEntryValid, ReceiveEntry, Hops;
    if es != [] {
      var n := |es| - 1;
      var s1 := ReceiveResponse(s, es[..n], sender, ifIndex, grants[..n]);
      var offers, before := OfferedCosts(es, sender, ifIndex, k), OfferedCosts(es[..n], sender, ifIndex, k);
      assert forall i :: 0 <= i < |before| ==> before[i] == offers[i];
      ResponseIgnoresDearer(s, es[..n], sender, ifIndex, grants[..n], k);
      ReceiveResponseKeepsInv(s, es[..n], sender, ifIndex, grants[..n]);
      if IsEntryValid(EntryNtoh(es[n])) && IncomingKey(es[n], sender, ifIndex) == k {
        assert offers[|before|] == Cost(es[n]);
        EntryUpdatesOne(s1, es[n], sender, ifIndex, grants[n]);
      } else {
        EntryKeepsOthers(s1, es[n], sender, ifIndex, grants[n], k);
      }
    }
  }

  lemma UnchallengedStep(ifcs: seq<nat>, s: State, ev: Event, s': State, out: seq<Message>, k: RouteKey)
    requires Inv(s) && Step(ifcs, s, ev, s', out) && !ev.Shutdown?
    requires k in s.db.ok && !s.db.ok[k].isLocal && k in s'.db.ok
    requires NoneBelow(EventCosts(ev, k), Hops(s.db.ok[k]))
    ensures !s'.db.ok[k].isLocal && Hops(s'.db.ok[k]) == Hops(s.db.ok[k])
    ensures s'.db.ok[k].timeoutCnt >= s.db.ok[k].timeoutCnt + if ev.TimeoutTick? then 15 else 0
  {
    hide Inv, TimeoutSwept, GcSwept, DbMarkUnchanged, Multicasts, Advertises, Swap32, OfferedCosts;
    if ev.Response? {
      ResponseIgnoresDearer(s, ev.es, ev.sender, ev.ifIndex, ev.grants, k);
    } else {
      OtherEventsKeepMetric(ifcs, s, ev, s', out, k);
    }
  }

  lemma {:induction false} UnchallengedRun(r: Run, k: RouteKey, a: nat, b: nat)
    requires IsRun(r) && a <= b < |r.states| && StaysLearned(r, k, a, b)
    requires forall i :: a <= i < b ==> NoneBelow(EventCosts(r.events[i], k), Hops(r.states[a].db.ok[k]))
    ensures !r.states[b].db.ok[k].isLocal && Hops(r.states[b].db.ok[k]) == Hops(r.states[a].db.ok[k])
    ensures 15 * SweepsBetween(r.events, a, b) <= r.states[b].db.ok[k].timeoutCnt - r.states[a].db.ok[k].timeoutCnt
    decreases b
  {
    hide Inv, Step, Hops, EventCosts;
    if a < b {
      UnchallengedRun(r, k, a, b - 1);
      ReachableInv(r, b - 1);
      UnchallengedStep(r.ifcs, r.states[b - 1], r.events[b - 1], r.states[b], r.outs[b - 1], k);
    }
  }

  /** While it is offered nothing cheaper, whatever the kernel would grant, a learned
      route keeps its metric and leaves the ok table no later than at its twelfth
      sweep (section 3.8 of RFC 2453). */
  lemma UnchallengedLifetime(r: Run, k: RouteKey, a: nat, b: nat)
    requires IsRun(r) && a <= b < |r.states| && StaysLearned(r, k, a, b)
    requires forall i :: a <= i < b ==> NoneBelow(EventCosts(r.events[i], k), Hops(r.states[a].db.ok[k]))
    ensures Hops(r.states[b].db.ok[k]) == Hops(r.states[a].db.ok[k]) && SweepsBetween(r.events, a, b) <= 11
  {
    hide Inv, Step, Hops, EventCosts;
    UnchallengedRun(r, k, a, b);
    ReachableInv(r, a);
    ReachableInv(r, b);
    KindOf(r.states[a], k);
    KindOf(r.states[b], k);
    assert r.states[b].db.ok[k].timeoutCnt <= 165;
  }

  // ---------------------------------------------------------- no lost change

  lemma AdvertHolds(es: seq<Entry>, db: Db, dest: nat, onlyChanged: bool, k: RouteKey)
    requires Advertises(es, db, dest, onlyChanged)
    ensures k in Selected(db.ok, dest, onlyChanged) ==> AdvertEntry(k, db.ok[k]) in es
    ensures k in Selected(db.garbage, dest, onlyChanged) ==> AdvertEntry(k, db.garbage[k]) in es
  {
    var oks, gcs :| AdvertisesAs(es, db, dest, onlyChanged, oks, gcs);
    if k in Selected(db.ok, dest, onlyChanged) {
      var i :| 0 <= i < |oks| && oks[i] == k;
      assert es[i] == AdvertEntry(k, db.ok[k]);
    }
    if k in Selected(db.garbage, dest, onlyChanged) {
      var i :| 0 <= i < |gcs| && gcs[i] == k;
      assert es[|oks| + i] == AdvertEntry(k, db.garbage[k]);
    }
  }

  /** The route filed under `k`, in either table. */
  function RouteOf(db: Db, k: RouteKey): RouteInfo
    requires k in db.ok || k in db.garbage
  {
    if k in db.ok then db.ok[k] else db.garbage[k]
  }

  predicate Known(db: Db, k: RouteKey) {
    k in db.ok || k in db.garbage
  }

  /** `k` is announced to every interface but its own. */
  ghost predicate AnnouncedEverywhere(out: seq<Message>, ifcs: seq<nat>, k: RouteKey, info: RouteInfo) {
    |out| == |ifcs| && forall i :: 0 <= i < |ifcs| && ifcs[i] != k.ifIndex ==> AdvertEntry(k, info) in out[i].entries
  }

  lemma MulticastAnnounces(out: seq<Message>, db: Db, ifcs: seq<nat>, onlyChanged: bool, k: RouteKey)
    requires Multicasts(out, db, ifcs, onlyChanged) && Known(db, k) && (onlyChanged ==> RouteOf(db, k).changed)
    ensures AnnouncedEverywhere(out, ifcs, k, RouteOf(db, k))
  {
    hide Advertises;
    forall i | 0 <= i < |ifcs| && ifcs[i] != k.ifIndex
      ensures AdvertEntry(k, RouteOf(db, k)) in out[i].entries
    {
      AdvertHolds(out[i].entries, db, ifcs[i], onlyChanged, k);
    }
  }

  lemma EntryKeepsChange(s: State, e: Entry, sender: U32, ifIndex: nat, grant: bool, k: RouteKey)
    requires Inv(s) && Known(s.db, k) && RouteOf(s.db, k).changed
    ensures var db := ReceiveEntry(s, e, sender, ifIndex, grant).state.db;
            && (Known(db, k) ==> RouteOf(db, k).changed)
            && (Known(db, k) || (IsEntryValid(EntryNtoh(e)) && IncomingKey(e, sender, ifIndex) == k && !grant))
  {
    hide Inv, IsEntryValid, ReceiveEntry, Hops;
    if IsEntryValid(EntryNtoh(e)) && IncomingKey(e, sender, ifIndex) == k {
      EntryUpdatesOne(s, e, sender, ifIndex, grant);
    } else {
      EntryKeepsOthers(s, e, sender, ifIndex, grant, k);
    }
  }

  lemma EntryInstallsChanged(s: State, e: Entry, sender: U32, ifIndex: nat, grant: bool, k: RouteKey)
    requires Inv(s) && !Known(s.db, k)
    ensures var db := ReceiveEntry(s, e, sender, ifIndex, grant).state.db; Known(db, k) ==> RouteOf(db, k).changed
  {
    hide Inv, IsEntryValid, ReceiveEntry, Hops;
    if IsEntryValid(EntryNtoh(e)) && IncomingKey(e, sender, ifIndex) == k {
      EntryUpdatesOne(s, e, sender, ifIndex, grant);
    } else {
      EntryKeepsOthers(s, e, sender, ifIndex, grant, k);
    }
  }

  lemma {:induction false} ResponseKeepsChange(s: State, es: seq<Entry>, sender: U32, ifIndex: nat, grants: seq<bool>, k: RouteKey)
    requires Inv(s) && |grants| == |es| && Known(s.db, k) && RouteOf(s.db, k).changed
    ensures var db := ReceiveResponse(s, es, sender, ifIndex, grants).db;
            && (Known(db, k) ==> RouteOf(db, k).changed)
            && (Known(db, k) || !GrantedFor(es, sender, ifIndex, grants, k))
    decreases |es|
  {
    hide Inv, ReceiveEntry, IsEntryValid;
    if es != [] {
      var n := |es| - 1;
      assert forall i :: 0 <= i < n ==> es[..n][i] == es[i] && grants[..n][i] == grants[i];
      var s1 := ReceiveResponse(s, es[..n], sender, ifIndex, grants[..n]);
      ResponseKeepsChange(s, es[..n], sender, ifIndex, grants[..n], k);
      ReceiveResponseKeepsInv(s, es[..n], sender, ifIndex, grants[..n]);
      if Known(s1.db, k) {
        EntryKeepsChange(s1, es[n], sender, ifIndex, grants[n], k);
      } else {
        EntryInstallsChanged(s1, es[n], sender, ifIndex, grants[n], k);
      }
    }
  }

  lemma SweepKeepsChange(s: State, s': State, now: int, expired: set<RouteKey>, k: RouteKey)
    requires Inv(s) && TimeoutSwept(s, s', now, expired) && Known(s.db, k) && RouteOf(s.db, k).changed
    ensures Known(s'.db, k) && RouteOf(s'.db, k).changed
  {
    hide LearnedRoute, LocalRoute, DeadRoute, KernelKeys, Aged;
    if k in expired {
      assert ExpiredFrom(s.db.ok[k], s'.db.garbage[k], now, |expired|);
    } else if k in s.db.ok {
      SweptOkRoute(s.db.ok, s'.db.ok, expired, k);
    } else {
      assert s'.db.garbage[k] == s.db.garbage[k];
    }
  }

  /** No change is lost: a route marked changed stays so until a step announces it
      on every interface but its own, and it leaves both tables unannounced only
      when its garbage time is over or the kernel refuses one of its own offers. */
  lemma NoLostChange(ifcs: seq<nat>, s: State, ev: Event, s': State, out: seq<Message>, k: RouteKey)
    requires Inv(s) && Step(ifcs, s, ev, s', out) && Known(s.db, k) && RouteOf(s.db, k).changed
    ensures Known(s'.db, k) && !RouteOf(s'.db, k).changed ==>
              if ev.Shutdown? then AnnouncedEverywhere(out, ifcs, k, Poison(RouteOf(s.db, k)))
              else AnnouncedEverywhere(out, ifcs, k, RouteOf(s.db, k))
    ensures !Known(s'.db, k) ==>
              || (ev.Response? && !Granted(ev, k))
              || (ev.GcTick? && k in s.db.garbage && ev.now - s.db.garbage[k].gcStartedAt >= GC_PERIOD)
  {
    hide Multicasts, LearnedRoute, LocalRoute, DeadRoute, TimeoutSwept, KernelKeys, Hops;
    match ev
    case Response(es, sender, ifIndex, grants) =>
      ResponseKeepsChange(s, es, sender, ifIndex, grants, k);
    case Request(_) =>
    case UpdateTick(_) =>
      MulticastAnnounces(out, s.db, ifcs, false, k);
    case WarmupTick =>
    case LockTick =>
    case TimeoutTick(now) =>
      var expired :| TimeoutSwept(s, s', now, expired);
      SweepKeepsChange(s, s', now, expired, k);
    case GcTick(_) =>
    case Check(_) =>
      if Triggers(s) {
        MulticastAnnounces(out, s.db, ifcs, true, k);
      }
    case Shutdown =>
      MulticastAnnounces(out, Poisoned(s.db), ifcs, false, k);
  }

  /** A sweep moves routes from one table to the other and loses none. */
  lemma SweepConserves(s: State, s': State, now: int, expired: set<RouteKey>)
    requires TimeoutSwept(s, s', now, expired)
    ensures s'.db.ok.Keys + s'.db.garbage.Keys == s.db.ok.Keys + s.db.garbage.Keys
    ensures expired == {} <==> s'.db.ok.Keys == s.db.ok.Keys
  {
    hide ExpiredFrom, Aged, KernelKeys;
    forall k | k in s.db.ok.Keys + s.db.garbage.Keys
      ensures k in s'.db.ok.Keys + s'.db.garbage.Keys
    {
    }
    if expired != {} {
      var k :| k in expired;
      assert k in s.db.ok && k !in s'.db.ok;
    }
  }

  /** A learned route that will expire at its next tick. */
  predicate AtLimit(t: RouteTable, k: RouteKey) {
    k in t && !t[k].isLocal && t[k].timeoutCnt == TIMEOUT_PERIOD - TIMEOUT_PERIOD_TIMER
  }

  lemma FirstExpired(s: State, s': State, now: int, expired: set<RouteKey>) returns (k: RouteKey)
    requires Inv(s) && TimeoutSwept(s, s', now, expired) && expired != {}
    ensures AtLimit(s.db.ok, k)
  {
    hide OkSwept, Expire, Hops, IsNetMaskValid, KernelKeys, Aged;
    k :| k in expired && OneTick(s.db.ok[k], s'.db.garbage[k]);
    assert ExpiredFrom(s.db.ok[k], s'.db.garbage[k], now, |expired|);
    KindOf(s, k);
  }

  lemma SurvivorAged(s: State, s': State, now: int, expired: set<RouteKey>, k: RouteKey)
    requires TimeoutSwept(s, s', now, expired) && k in Learned(s.db.ok) && k !in expired
    ensures k in s'.db.ok && !AtLimit(s.db.ok, k)
    ensures expired == {} ==> OneTick(s.db.ok[k], s'.db.ok[k])
  {
    hide GarbageSwept, KernelKeys;
    SweptOkKeeps(s.db.ok, s'.db.ok, expired, k);
    SweptOkRoute(s.db.ok, s'.db.ok, expired, k);
  }

  /** A sweep expires something exactly when some learned route is one tick short
      of the limit, and otherwise ages every learned route by exactly one tick.
      (When something expires, the restarts may count other routes again.) */
  lemma SweepExpiresIff(s: State, s': State, now: int, expired: set<RouteKey>)
    requires Inv(s) && TimeoutSwept(s, s', now, expired)
    ensures expired != {} <==> exists k :: AtLimit(s.db.ok, k)
    ensures expired == {} ==> forall k :: k in Learned(s.db.ok) ==> k in s'.db.ok && OneTick(s.db.ok[k], s'.db.ok[k])
  {
    hide Inv, TimeoutSwept, OneTick;
    if expired != {} {
      var k := FirstExpired(s, s', now, expired);
    }
    forall k | k in Learned(s.db.ok) && k !in expired
      ensures k in s'.db.ok && !AtLimit(s.db.ok, k)
      ensures expired == {} ==> OneTick(s.db.ok[k], s'.db.ok[k])
    {
      SurvivorAged(s, s', now, expired, k);
    }
  }

  lemma VisitExpires(s: State, k: RouteKey, now: int)
    requires k in Learned(s.db.ok) && KernelKeyOf(k, s.db.ok[k]) in s.kernel && AtLimit(s.db.ok, k)
    ensures var s' := Visit(s, k, now);
            && k !in s'.db.ok && k in s'.db.garbage
            && s'.kernel == s.kernel - {KernelKeyOf(k, s.db.ok[k])}
            && (forall l :: l != k ==> (l in s'.db.ok <==> l in s.db.ok))
            && (forall l :: l != k && l in s.db.ok ==> s'.db.ok[l] == s.db.ok[l])
  {
    hide Expire, KernelKeyOf;
    KernelKeyIgnores(k, s.db.ok[k], Tick(s.db.ok[k]));
  }

  lemma VisitCounts(s: State, k: RouteKey, now: int)
    requires k in s.db.ok && s.db.ok[k].timeoutCnt + TIMEOUT_PERIOD_TIMER < TIMEOUT_PERIOD
    ensures Visit(s, k, now) == s.(db := s.db.(ok := s.db.ok[k := Tick(s.db.ok[k])]))
  {
  }

  /** A sweep need not count every route once. Whenever a learned route `a` is one
      tick short of its limit and another, `b`, is two ticks short, an iteration
      that meets `b` first counts it twice and expires it too, fifteen seconds
      early. */
  lemma EarlyExpiry(s: State, a: RouteKey, b: RouteKey, now: int)
    requires Inv(s) && AtLimit(s.db.ok, a)
    requires b in Learned(s.db.ok) && s.db.ok[b].timeoutCnt == TIMEOUT_PERIOD - 2 * TIMEOUT_PERIOD_TIMER
    ensures Scheduled(s, [b, a, b], now) && b in VisitAll(s, [b, a, b], now).db.garbage
    ensures Learned(s.db.ok) == {a, b} ==> Completed(s, [b, a, b], now)
  {
    hide Visit, KernelKeyOf, VisitAll, Pass, Scheduled, Inv, LearnedRoute;
    var ok := s.db.ok;
    VisitNothing(s, now);
    VisitOne(s, [], b, now);
    VisitCounts(s, b, now);
    var s1 := VisitAll(s, [b], now);
    assert [] + [b] == [b] && [b] + [a] == [b, a] && [b, a] + [b] == [b, a, b];
    TwoKernelKeys(s, a, b);
    KernelKeyIgnores(b, ok[b], Tick(ok[b]));
    VisitOne(s, [b], a, now);
    VisitExpires(s1, a, now);
    var s2 := VisitAll(s, [b, a], now);
    VisitOne(s, [b, a], b, now);
    VisitExpires(s2, b, now);
    if Learned(ok) == {a, b} {
      var t := VisitAll(s, [b, a, b], now).db.ok;
      forall l | l in t
        ensures t[l].isLocal
      {
        assert l in s2.db.ok && l in s1.db.ok && l in ok && t[l] == ok[l];
        assert l !in Learned(ok);
      }
      assert Learned(t) == {};
    }
  }

  lemma TwoKernelKeys(s: State, a: RouteKey, b: RouteKey)
    requires Inv(s) && a in Learned(s.db.ok) && b in Learned(s.db.ok) && a != b
    ensures KernelKeyOf(a, s.db.ok[a]) in s.kernel && KernelKeyOf(b, s.db.ok[b]) in s.kernel
    ensures KernelKeyOf(a, s.db.ok[a]) != KernelKeyOf(b, s.db.ok[b])
  {
    hide KernelKeyOf;
    KindOf(s, a);
    KindOf(s, b);
    KernelKeyOfOk(s, a);
    KernelKeyOfOk(s, b);
    KernelKeyInjective(a, s.db.ok[a], b, s.db.ok[b]);
  }
}
