/** Runs of one router: every event keeps the invariant, so it holds in every
    state a run can reach.
 */
module RouterRuns {
  import opened Wire
  import opened Routes
  import opened RouterSpec
  import opened RouterInvariant

  datatype Event =
    | Response(es: seq<Entry>, sender: U32, ifIndex: nat, grants: seq<bool>)
    | Request(ifIndex: nat)
    | UpdateTick(sent: bool)
    | WarmupTick
    | LockTick
    | TimeoutTick(now: int)
    | GcTick(now: int)
    | Check(sent: bool)
    | Shutdown

  /** One event, with the messages it hands to the sockets. A timeout sweep is only
      described for tables it can complete on. */
  ghost predicate Step(ifcs: seq<nat>, s: State, ev: Event, s': State, out: seq<Message>) {
    match ev
    case Response(es, sender, ifIndex, grants) =>
      |grants| == |es| && s' == ReceiveResponse(s, es, sender, ifIndex, grants) && out == []
    case Request(ifIndex) =>
      && s' == s
      && (out == [] || (|out| == 1 && out[0].ifIndex == ifIndex && Advertises(out[0].entries, s.db, ifIndex, false)))
    case UpdateTick(sent) =>
      s.timers.update && s' == UpdateExpired(s, sent) && Multicasts(out, s.db, ifcs, false)
    case WarmupTick =>
      s.timers.warmup && s' == s.(timers := s.timers.(warmup := false)) && out == []
    case LockTick =>
      s.timers.lock && s' == s.(timers := s.timers.(lock := false)) && out == []
    case TimeoutTick(now) =>
      && s.timers.timeout && out == []
      && (TablesOk(s.db) && KernelAgrees(s) ==> exists expired :: TimeoutSwept(s, s', now, expired))
    case GcTick(now) =>
      s.timers.gc && out == [] && s' == GcSwept(s, now)
    case Check(sent) =>
      && s' == CheckRouteChanged(s, sent)
      && (if Triggers(s) then Multicasts(out, s.db, ifcs, true) else out == [])
    case Shutdown =>
      s' == Cleanup(s) && Multicasts(out, Poisoned(s.db), ifcs, false)
  }

  datatype Run = Run(ifcs: seq<nat>, nets: seq<Network>, states: seq<State>, events: seq<Event>, outs: seq<seq<Message>>)

  /** The event loop ends with a shutdown, and a triggered update that cannot be
      sent ends it. */
  ghost predicate IsRun(r: Run) {
    && WellConfigured(r.nets)
    && |r.states| == |r.events| + 1 && |r.outs| == |r.events|
    && r.states[0] == InitialState(r.nets)
    && (forall i :: 0 <= i < |r.events| ==> Step(r.ifcs, r.states[i], r.events[i], r.states[i + 1], r.outs[i]))
    && (forall i :: 0 <= i < |r.events| - 1 ==> !r.events[i].Shutdown?)
    && (forall i :: 0 <= i < |r.events| - 1 && r.events[i] == Check(false) && Triggers(r.states[i]) ==>
                      r.events[i + 1].Shutdown?)
  }

  // ------------------------------------------------------------ the invariant

  lemma IncomingIsLearned(e: Entry, sender: U32, ifIndex: nat)
    requires IsEntryValid(EntryNtoh(e))
    ensures Hops(IncomingInfo(e)) == Cost(e)
    ensures LearnedRoute(IncomingKey(e, sender, ifIndex), IncomingInfo(e))
  {
    Swap32Twice(Cost(e));
  }

  lemma AgreeAdd(s: State, k: RouteKey, info: RouteInfo)
    requires KernelAgrees(s) && k !in s.db.ok && !info.isLocal
    ensures KernelAgrees(s.(kernel := s.kernel + {KernelKeyOf(k, info)}, db := DbAdd(s.db, k, info)))
  {
    hide KernelKeyOf;
    var t := s.db.ok;
    var t' := DbAdd(s.db, k, info).ok;
    assert KernelKeyOf(k, t'[k]) == KernelKeyOf(k, info) by { KernelKeyIgnores(k, info, t'[k]); }
    assert Learned(t') == Learned(t) + {k};
    assert forall l :: l in Learned(t) ==> t'[l] == t[l];
    SameKernelKeys(t, t', Learned(t));
    KernelKeysMore(t', Learned(t), k);
  }

  lemma KernelKeyIgnores(k: RouteKey, a: RouteInfo, b: RouteInfo)
    requires a.metric == b.metric
    ensures KernelKeyOf(k, a) == KernelKeyOf(k, b)
  {
  }

  lemma SameKernelKeys(t: RouteTable, t': RouteTable, ks: set<RouteKey>)
    requires ks <= t.Keys && ks <= t'.Keys
    requires forall k :: k in ks ==> KernelKeyOf(k, t[k]) == KernelKeyOf(k, t'[k])
    ensures KernelKeys(t, ks) == KernelKeys(t', ks)
  {
  }

  /** Taking learned routes out of the ok table and their keys out of the kernel
      keeps the two in agreement. */
  lemma AgreeRemove(s: State, t': RouteTable, gone: set<RouteKey>)
    requires TablesOk(s.db) && KernelAgrees(s) && gone <= Learned(s.db.ok)
    requires forall k :: k in t' <==> k in s.db.ok && k !in gone
    requires forall k :: k in t' ==> t'[k].isLocal == s.db.ok[k].isLocal && t'[k].metric == s.db.ok[k].metric
    ensures s.kernel - KernelKeys(s.db.ok, gone) == KernelKeys(t', Learned(t'))
  {
    hide KernelKeyOf;
    var t := s.db.ok;
    KernelKeysWithout(t, gone);
    assert Learned(t') == Learned(t) - gone;
    forall k | k in Learned(t')
      ensures KernelKeyOf(k, t[k]) == KernelKeyOf(k, t'[k])
    {
      KernelKeyIgnores(k, t[k], t'[k]);
    }
    SameKernelKeys(t, t', Learned(t'));
  }

  /** Installing an absent route keeps the invariant, and succeeds whenever the
      kernel grants it. */
  lemma InstallKeepsInv(s: State, k: RouteKey, info: RouteInfo, grant: bool)
    requires Inv(s) && k !in s.db.ok && k !in s.db.garbage && LearnedRoute(k, info)
    ensures Inv(InstallRoute(s, k, info, grant).state)
    ensures grant ==> InstallRoute(s, k, info, grant) == Outcome(s.(kernel := s.kernel + {KernelKeyOf(k, info)}, db := DbAdd(s.db, k, info)), true)
  {
    hide KernelAgrees, KernelKeyOf;
    KernelKeyFree(s, k, info);
    AgreeAdd(s, k, info);
  }

  lemma DropGarbageKeepsInv(s: State, k: RouteKey)
    requires Inv(s) && k in s.db.garbage
    ensures Inv(s.(db := DbRemove(s.db, k))) && k !in DbRemove(s.db, k).garbage && DbRemove(s.db, k).ok == s.db.ok
  {
    hide LearnedRoute, LocalRoute, DeadRoute;
    assert k !in s.db.ok;
  }

  lemma WithdrawKeepsInv(s: State, k: RouteKey)
    requires Inv(s) && k in s.db.ok && !s.db.ok[k].isLocal
    ensures KernelKeyOf(k, s.db.ok[k]) in s.kernel && k !in s.db.garbage
    ensures Inv(s.(kernel := s.kernel - {KernelKeyOf(k, s.db.ok[k])}, db := DbRemove(s.db, k)))
  {
    hide KernelKeyOf, LearnedRoute, LocalRoute, DeadRoute;
    KernelKeyOfOk(s, k);
    var s' := s.(kernel := s.kernel - {KernelKeyOf(k, s.db.ok[k])}, db := DbRemove(s.db, k));
    AgreeRemove(s, s'.db.ok, {k});
    assert KernelKeys(s.db.ok, {k}) == {KernelKeyOf(k, s.db.ok[k])};
  }

  /** A received route is never better than a local one, so it displaces learned
      routes only. */
  lemma LocalNotDisplaced(k: RouteKey, a: RouteInfo, b: RouteInfo)
    requires LocalRoute(k, a) && LearnedRoute(k, b)
    ensures a.metric < b.metric
  {
    MetricOrder(b, a);
  }

  lemma UpdateOkKeepsInv(s: State, k: RouteKey, info: RouteInfo, grant: bool)
    requires Inv(s) && k in s.db.ok && LearnedRoute(k, info)
    ensures Inv(UpdateOkRoute(s, k, info, grant).state)
  {
    hide Inv, KernelKeyOf, InstallRoute, Hops;
    assert LearnedRoute(k, s.db.ok[k]) || LocalRoute(k, s.db.ok[k]) by { KindOf(s, k); }
    if s.db.ok[k].metric > info.metric {
      if s.db.ok[k].isLocal {
        LocalNotDisplaced(k, s.db.ok[k], info);
        assert false;
      }
      WithdrawKeepsInv(s, k);
      InstallKeepsInv(s.(kernel := s.kernel - {KernelKeyOf(k, s.db.ok[k])}, db := DbRemove(s.db, k)), k, info, grant);
    }
  }

  lemma KindOf(s: State, k: RouteKey)
    requires Inv(s) && k in s.db.ok
    ensures LearnedRoute(k, s.db.ok[k]) || LocalRoute(k, s.db.ok[k])
  {
  }

  lemma ReceiveEntryKeepsInv(s: State, e: Entry, sender: U32, ifIndex: nat, grant: bool)
    requires Inv(s)
    ensures Inv(ReceiveEntry(s, e, sender, ifIndex, grant).state)
  {
    hide Inv, LearnedRoute, InstallRoute, UpdateOkRoute, IsEntryValid, IncomingInfo;
    if IsEntryValid(EntryNtoh(e)) {
      var k := IncomingKey(e, sender, ifIndex);
      IncomingIsLearned(e, sender, ifIndex);
      if k in s.db.ok {
        UpdateOkKeepsInv(s, k, IncomingInfo(e), grant);
      } else if k in s.db.garbage {
        DropGarbageKeepsInv(s, k);
        InstallKeepsInv(s.(db := DbRemove(s.db, k)), k, IncomingInfo(e), grant);
      } else {
        InstallKeepsInv(s, k, IncomingInfo(e), grant);
      }
    }
  }

  lemma {:induction false} ReceiveResponseKeepsInv(s: State, es: seq<Entry>, sender: U32, ifIndex: nat, grants: seq<bool>)
    requires Inv(s) && |grants| == |es|
    ensures Inv(ReceiveResponse(s, es, sender, ifIndex, grants))
    decreases |es|
  {
    hide Inv, ReceiveEntry;
    if es != [] {
      var n := |es| - 1;
      ReceiveResponseKeepsInv(s, es[..n], sender, ifIndex, grants[..n]);
      ReceiveEntryKeepsInv(ReceiveResponse(s, es[..n], sender, ifIndex, grants[..n]), es[n], sender, ifIndex, grants[n]);
    }
  }

  lemma SweepKeepsTables(s: State, s': State, now: int, expired: set<RouteKey>)
    requires TablesOk(s.db) && TimeoutSwept(s, s', now, expired)
    ensures TablesOk(s'.db)
  {
    hide GarbageSwept, OkSwept, Swap32;
    forall k | k in s'.db.ok
      ensures LearnedRoute(k, s'.db.ok[k]) || LocalRoute(k, s'.db.ok[k])
    {
      SweptOkRoute(s.db.ok, s'.db.ok, expired, k);
      assert LearnedRoute(k, s.db.ok[k]) || LocalRoute(k, s.db.ok[k]);
    }
    forall k | k in s'.db.garbage
      ensures DeadRoute(s'.db.garbage[k]) && k !in s'.db.ok
    {
      SweptGarbageRoute(s, s', now, expired, k);
    }
  }

  lemma SweptOkRoute(t: RouteTable, t': RouteTable, gone: set<RouteKey>, k: RouteKey)
    requires OkSwept(t, t', gone) && k in t'
    ensures k in t && k !in gone
    ensures t[k].isLocal ==> t'[k] == t[k]
    ensures !t[k].isLocal ==>
              && t'[k] == t[k].(timeoutCnt := t'[k].timeoutCnt)
              && t[k].timeoutCnt + 15 <= t'[k].timeoutCnt < TIMEOUT_PERIOD && (t'[k].timeoutCnt - t[k].timeoutCnt) % 15 == 0
  {
  }

  lemma SweptGarbageRoute(s: State, s': State, now: int, expired: set<RouteKey>, k: RouteKey)
    requires TablesOk(s.db) && TimeoutSwept(s, s', now, expired) && k in s'.db.garbage
    ensures DeadRoute(s'.db.garbage[k]) && k !in s'.db.ok
    ensures k in expired ==> s'.db.garbage[k].changed
    ensures k !in expired ==> k in s.db.garbage && s'.db.garbage[k] == s.db.garbage[k]
  {
    if k in expired {
      assert ExpiredFrom(s.db.ok[k], s'.db.garbage[k], now, |expired|);
      Swap32Twice(INFINITY_METRIC);
    } else {
      assert k in s.db.garbage && s'.db.garbage[k] == s.db.garbage[k];
      assert DeadRoute(s.db.garbage[k]);
    }
  }

  /** The timeout sweep keeps the invariant: what it expires leaves the kernel,
      and the garbage timer is started with the first garbage. */
  lemma SweepKeepsInv(s: State, s': State, now: int, expired: set<RouteKey>)
    requires Inv(s) && TimeoutSwept(s, s', now, expired)
    ensures Inv(s')
  {
    hide GarbageSwept, OkSwept, Hops, LearnedRoute, LocalRoute, DeadRoute, KernelKeys;
    SweepKeepsTables(s, s', now, expired);
    forall k | k in s'.db.ok
      ensures k in s.db.ok && k !in expired && s'.db.ok[k].isLocal == s.db.ok[k].isLocal
      ensures s'.db.ok[k].metric == s.db.ok[k].metric && s'.db.ok[k].changed == s.db.ok[k].changed
    {
      SweptOkRoute(s.db.ok, s'.db.ok, expired, k);
    }
    forall k | k in s.db.ok && k !in expired
      ensures k in s'.db.ok
    {
      SweptOkKeeps(s.db.ok, s'.db.ok, expired, k);
    }
    AgreeRemove(s, s'.db.ok, expired);
    forall k | k in s'.db.garbage
      ensures k in expired || (k in s.db.garbage && s'.db.garbage[k] == s.db.garbage[k])
    {
      SweptGarbageRoute(s, s', now, expired, k);
    }
  }

  lemma SweptOkKeeps(t: RouteTable, t': RouteTable, gone: set<RouteKey>, k: RouteKey)
    requires OkSwept(t, t', gone) && k in t && k !in gone
    ensures k in t'
  {
  }

  /** Garbage collection keeps the invariant, and leaves the ok table alone. */
  lemma GcKeepsInv(s: State, now: int)
    requires Inv(s)
    ensures Inv(GcSwept(s, now)) && GcSwept(s, now).db.ok == s.db.ok
  {
    hide LearnedRoute, LocalRoute, DeadRoute, KernelKeys;
    GcLeavesOk(s.db, now);
    var g := Fresh(s.db.garbage, now);
    if g.Keys != {} {
      assert |g.Keys| == |g| > 0;
    }
  }

  lemma MarkKeepsInv(s: State)
    requires Inv(s)
    ensures Inv(s.(db := DbMarkUnchanged(s.db)))
    ensures var db := DbMarkUnchanged(s.db);
            && !db.anyChanged
            && (forall k :: k in db.ok ==> !db.ok[k].changed)
            && (forall k :: k in db.garbage ==> !db.garbage[k].changed)
  {
    hide KernelKeyOf, Hops;
    var db := DbMarkUnchanged(s.db);
    forall k | k in s.db.ok
      ensures db.ok[k] == s.db.ok[k].(changed := false)
      ensures KernelKeyOf(k, s.db.ok[k]) == KernelKeyOf(k, db.ok[k])
      ensures LearnedRoute(k, db.ok[k]) || LocalRoute(k, db.ok[k])
    {
      KernelKeyIgnores(k, s.db.ok[k], db.ok[k]);
      ClearedKind(k, s.db.ok[k]);
    }
    assert Learned(db.ok) == Learned(s.db.ok);
    SameKernelKeys(s.db.ok, db.ok, Learned(s.db.ok));
    forall k | k in s.db.garbage
      ensures DeadRoute(db.garbage[k])
    {
      ClearedKind(k, s.db.garbage[k]);
    }
  }

  lemma ClearedKind(k: RouteKey, info: RouteInfo)
    ensures LearnedRoute(k, info) ==> LearnedRoute(k, info.(changed := false))
    ensures LocalRoute(k, info) ==> LocalRoute(k, info.(changed := false))
    ensures DeadRoute(info) ==> DeadRoute(info.(changed := false))
  {
  }

  lemma InitialInv(nets: seq<Network>)
    requires WellConfigured(nets)
    ensures Inv(InitialState(nets))
  {
    hide Swap32, NetworkPart, PrefixLenToSubnet;
    InitialKeys(nets);
    var s := InitialState(nets);
    assert Learned(s.db.ok) == {};
    SmallMetric(1);
    forall k | k in s.db.ok
      ensures LocalRoute(k, s.db.ok[k]) && s.db.anyChanged
    {
      var i :| 0 <= i < |nets| && k == LocalKey(nets[i]);
    }
  }

  /** Shutdown withdraws exactly what the kernel holds: rewriting the metric to 16
      does not change the kernel key. */
  lemma CleanupEmptiesKernel(s: State)
    requires Inv(s)
    ensures Cleanup(s).kernel == {}
  {
    hide KernelKeyOf, Hops;
    var t := s.db.ok;
    var p := Poisoned(s.db).ok;
    var t' := DbMarkUnchanged(Poisoned(s.db)).ok;
    forall k | k in Learned(t)
      ensures KernelKeyOf(k, t[k]) == KernelKeyOf(k, t'[k])
    {
      PoisonedKernelKey(k, t[k], t'[k]);
    }
    assert Learned(t') == Learned(t);
    SameKernelKeys(t, t', Learned(t));
  }

  lemma PoisonedKernelKey(k: RouteKey, a: RouteInfo, b: RouteInfo)
    requires LearnedRoute(k, a) && b.metric == Swap32(INFINITY_METRIC)
    ensures KernelKeyOf(k, a) == KernelKeyOf(k, b)
  {
    SmallMetric(INFINITY_METRIC);
    KernelKeyInjective(k, a, k, b);
  }

  /** Every event short of shutdown keeps the invariant. */
  lemma StepKeepsInv(ifcs: seq<nat>, s: State, ev: Event, s': State, out: seq<Message>)
    requires Inv(s) && Step(ifcs, s, ev, s', out) && !ev.Shutdown?
    ensures Inv(s')
  {
    hide TimeoutSwept, GcSwept, DbMarkUnchanged, Multicasts, Advertises;
    match ev
    case Response(es, sender, ifIndex, grants) =>
      ReceiveResponseKeepsInv(s, es, sender, ifIndex, grants);
    case Request(_) =>
    case UpdateTick(_) =>
      MarkKeepsInv(s);
    case WarmupTick =>
    case LockTick =>
    case TimeoutTick(now) =>
      var expired :| TimeoutSwept(s, s', now, expired);
      SweepKeepsInv(s, s', now, expired);
    case GcTick(now) =>
      GcKeepsInv(s, now);
    case Check(_) =>
      MarkKeepsInv(s);
  }

  /** The invariant holds in every state of every run, up to a shutdown. */
  lemma {:induction false} ReachableInv(r: Run, i: nat)
    requires IsRun(r) && i < |r.states|
    requires i > 0 ==> !r.events[i - 1].Shutdown?
    ensures Inv(r.states[i])
    decreases i
  {
    hide Inv, Step, InitialState;
    if i == 0 {
      InitialInv(r.nets);
    } else {
      ReachableInv(r, i - 1);
      StepKeepsInv(r.ifcs, r.states[i - 1], r.events[i - 1], r.states[i], r.outs[i - 1]);
    }
  }

  /** After a shutdown the kernel holds none of the daemon's routes. */
  lemma ShutdownLeavesNothing(r: Run, i: nat)
    requires IsRun(r) && i < |r.events| && r.events[i].Shutdown?
    ensures r.states[i + 1].kernel == {}
  {
    ReachableInv(r, i);
    assert Step(r.ifcs, r.states[i], r.events[i], r.states[i + 1], r.outs[i]);
    CleanupEmptiesKernel(r.states[i]);
  }

  // ---------------------------------------------------------- building runs

  /** A run whose daemon has not shut down. */
  ghost predicate Up(r: Run) {
    IsRun(r) && forall i :: 0 <= i < |r.events| ==> !r.events[i].Shutdown?
  }

  /** A run whose daemon is still in its event loop. */
  ghost predicate Live(r: Run) {
    && Up(r)
    && (r.events != [] ==>
          !(r.events[|r.events| - 1] == Check(false) && Triggers(r.states[|r.events| - 1])))
  }

  ghost function LastState(r: Run): State
    requires IsRun(r)
  {
    r.states[|r.events|]
  }

  ghost function Extended(r: Run, ev: Event, s': State, out: seq<Message>): Run {
    r.(states := r.states + [s'], events := r.events + [ev], outs := r.outs + [out])
  }

  lemma NewRun(ifcs: seq<nat>, nets: seq<Network>)
    requires WellConfigured(nets)
    ensures Live(Run(ifcs, nets, [InitialState(nets)], [], []))
  {
  }

  lemma ExtendRun(r: Run, ev: Event, s': State, out: seq<Message>)
    requires Up(r) && Step(r.ifcs, LastState(r), ev, s', out) && (Live(r) || ev.Shutdown?)
    ensures IsRun(Extended(r, ev, s', out)) && LastState(Extended(r, ev, s', out)) == s'
    ensures !ev.Shutdown? ==> Up(Extended(r, ev, s', out))
    ensures Live(r) && !ev.Shutdown? && !(ev == Check(false) && Triggers(LastState(r))) ==> Live(Extended(r, ev, s', out))
  {
    hide Step, InitialState, WellConfigured;
    var q := Extended(r, ev, s', out);
    var n := |r.events|;
    assert q.states[n] == r.states[n] && q.states[n + 1] == s' && q.events[n] == ev && q.outs[n] == out;
    forall i | 0 <= i < |q.events|
      ensures Step(q.ifcs, q.states[i], q.events[i], q.states[i + 1], q.outs[i])
    {
      if i < n {
        assert q.states[i] == r.states[i] && q.states[i + 1] == r.states[i + 1] && q.events[i] == r.events[i] && q.outs[i] == r.outs[i];
      }
    }
  }
}
