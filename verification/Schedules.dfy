/** Sweeps as schedules of visits: which route the iteration meets next is up to the
    table layout. Every complete schedule satisfies the sweep's contract, every
    schedule can be completed, and a sweep treats all routes alike, whatever the
    layout, exactly if either no learned route is one tick short of its limit or
    all are.
 */
module Schedules {
  import opened Wire
  import opened Routes
  import opened RouterSpec
  import opened RouterInvariant
  import opened RouterRuns
  import opened RouterTheorems
  import opened Rip

  ghost predicate Agreed(s: State) {
    TablesOk(s.db) && KernelAgrees(s)
  }

  lemma {:induction false} ScheduleUnderWay(s: State, visits: seq<RouteKey>, now: int) returns (expired: set<RouteKey>)
    requires Agreed(s) && Scheduled(s, visits, now)
    ensures UnderWay(s, VisitAll(s, visits, now), now, expired, visits, Pass(s, visits, now))
    decreases |visits|
  {
    hide UnderWay, Visit, StopsAt, TablesOk, KernelAgrees, KernelKeyOf;
    if visits == [] {
      SweepBegins(s, now);
      expired := {};
    } else {
      var n := |visits| - 1;
      var before, k := visits[..n], visits[n];
      expired := ScheduleUnderWay(s, before, now);
      assert visits == before + [k];
      var p := VisitAll(s, before, now);
      SweepVisits(s, p, now, expired, before, Pass(s, before, now), k);
      VisitTable(p, k, now);
      if k !in VisitAll(s, visits, now).db.ok {
        expired := expired + {k};
      }
    }
  }

  lemma AllLearnedSeen(db0: Db, db: Db, now: int, expired: set<RouteKey>)
    requires Sweeping(db0, db, now, expired, Learned(db.ok))
    ensures Sweeping(db0, db, now, expired, db.ok.Keys)
  {
    hide GarbageSwept, Aged;
    forall k | k in db.ok
      ensures Counted(db0.ok[k], db.ok[k], true, |expired|)
    {
      assert Counted(db0.ok[k], db.ok[k], k in Learned(db.ok), |expired|);
      LocalStays(db0.ok[k], db.ok[k], k in Learned(db.ok), |expired|);
    }
  }

  function AfterSweep(s: State, visits: seq<RouteKey>, now: int, some: bool): State {
    VisitAll(s, visits, now).(timers := s.timers.(timeout := true, gc := s.timers.gc || some))
  }

  /** Every complete schedule is a sweep as the contract describes it. */
  lemma CompletedIsSweep(s: State, visits: seq<RouteKey>, now: int) returns (expired: set<RouteKey>)
    requires Agreed(s) && Completed(s, visits, now)
    ensures TimeoutSwept(s, AfterSweep(s, visits, now, expired != {}), now, expired)
  {
    hide Sweeping, SweptKernel, VisitAll, Pass, Scheduled, InPass, TimeoutSwept, Agreed;
    expired := ScheduleUnderWay(s, visits, now);
    var q := VisitAll(s, visits, now);
    AllLearnedSeen(s.db, q.db, now, expired);
    SweepEnds(s, q.db, q.kernel, now, expired);
  }

  /** Every schedule can be completed. */
  lemma {:induction false} Complete(s: State, visits: seq<RouteKey>, now: int) returns (more: seq<RouteKey>)
    requires Agreed(s) && Scheduled(s, visits, now)
    ensures Completed(s, visits + more, now)
    decreases |VisitAll(s, visits, now).db.ok|, |Learned(VisitAll(s, visits, now).db.ok) - Pass(s, visits, now)|
  {
    hide Visit, StopsAt, TablesOk, KernelAgrees, Sweeping, SweptKernel, VisitAll, Pass, Scheduled, Agreed, KernelKeyOf;
    var p := VisitAll(s, visits, now);
    var todo := Learned(p.db.ok) - Pass(s, visits, now);
    var expired := ScheduleUnderWay(s, visits, now);
    if todo == {} {
      more := [];
      assert visits + [] == visits;
    } else {
      var k :| k in todo;
      OneMore(s, visits, now, expired, k);
      var rest := Complete(s, visits + [k], now);
      more := [k] + rest;
      assert visits + more == (visits + [k]) + rest;
    }
  }

  lemma OneMore(s: State, visits: seq<RouteKey>, now: int, expired: set<RouteKey>, k: RouteKey)
    requires Agreed(s) && Scheduled(s, visits, now)
    requires UnderWay(s, VisitAll(s, visits, now), now, expired, visits, Pass(s, visits, now))
    requires k in Learned(VisitAll(s, visits, now).db.ok) && k !in Pass(s, visits, now)
    ensures Scheduled(s, visits + [k], now)
    ensures var p, q := VisitAll(s, visits, now).db.ok, VisitAll(s, visits + [k], now).db.ok;
            || |q| < |p|
            || (|q| == |p| && |Learned(q) - Pass(s, visits + [k], now)| < |Learned(p) - Pass(s, visits, now)|)
  {
    hide UnderWay, StopsAt, TablesOk, KernelAgrees, KernelKeyOf, VisitAll, Pass, Scheduled;
    var p := VisitAll(s, visits, now);
    SweepVisits(s, p, now, expired, visits, Pass(s, visits, now), k);
    VisitOne(s, visits, k, now);
    if Tick(p.db.ok[k]).timeoutCnt < TIMEOUT_PERIOD {
      var q := Visit(p, k, now).db.ok;
      assert Learned(q) == Learned(p.db.ok);
      var a, b := Learned(p.db.ok) - Pass(s, visits, now), Learned(q) - (Pass(s, visits, now) + {k});
      assert a == b + {k};
    }
  }

  // ------------------------------------------------------- treating alike

  /** After the visits every learned route has either been counted exactly once, or
      was at its limit and has expired. */
  ghost predicate TreatedAlike(s: State, visits: seq<RouteKey>, now: int) {
    var q := VisitAll(s, visits, now).db;
    forall k :: k in Learned(s.db.ok) ==>
                  || (k in q.ok && OneTick(s.db.ok[k], q.ok[k]))
                  || (k !in q.ok && AtLimit(s.db.ok, k))
  }

  lemma AlikeIfUniform(s: State, visits: seq<RouteKey>, now: int)
    requires Inv(s) && Completed(s, visits, now)
    requires (forall k :: k in Learned(s.db.ok) ==> !AtLimit(s.db.ok, k)) || (forall k :: k in Learned(s.db.ok) ==> AtLimit(s.db.ok, k))
    ensures TreatedAlike(s, visits, now)
  {
    hide TimeoutSwept, Completed, VisitAll, OneTick;
    var expired := CompletedIsSweep(s, visits, now);
    var s' := AfterSweep(s, visits, now, expired != {});
    SweepExpiresIff(s, s', now, expired);
    forall k | k in Learned(s.db.ok)
      ensures k in s'.db.ok ==> k !in expired && !AtLimit(s.db.ok, k)
      ensures k !in s'.db.ok ==> k in expired
    {
      if k in expired {
        ExpiredLeaves(s, s', now, expired, k);
      } else {
        SurvivorAged(s, s', now, expired, k);
      }
    }
  }

  lemma ExpiredLeaves(s: State, s': State, now: int, expired: set<RouteKey>, k: RouteKey)
    requires TimeoutSwept(s, s', now, expired) && k in expired
    ensures k !in s'.db.ok
  {
    hide GarbageSwept, KernelKeys, Aged;
  }

  /** A visit to a route below its limit, then one to a route at its limit: the first
      route has been counted, and the iteration starts over. */
  lemma CountedThenRestarted(s: State, a: RouteKey, b: RouteKey, now: int)
    requires Inv(s) && AtLimit(s.db.ok, a) && b in Learned(s.db.ok) && !AtLimit(s.db.ok, b)
    ensures Scheduled(s, [b, a], now) && Pass(s, [b, a], now) == {}
    ensures var t := VisitAll(s, [b, a], now).db.ok; b in t && OneTick(s.db.ok[b], t[b]) && !t[b].isLocal
  {
    hide Visit, KernelKeyOf, VisitAll, Pass, Scheduled, Inv;
    KindOf(s, b);
    BelowLimit(s, b);
    VisitNothing(s, now);
    VisitOne(s, [], b, now);
    VisitCounts(s, b, now);
    assert [] + [b] == [b] && [b] + [a] == [b, a];
    TwoKernelKeys(s, a, b);
    VisitOne(s, [b], a, now);
    VisitExpires(VisitAll(s, [b], now), a, now);
  }

  lemma BelowLimit(s: State, b: RouteKey)
    requires Inv(s) && b in Learned(s.db.ok) && !AtLimit(s.db.ok, b)
    ensures s.db.ok[b].timeoutCnt + TIMEOUT_PERIOD_TIMER < TIMEOUT_PERIOD
  {
    hide Hops, IsNetMaskValid;
    KindOf(s, b);
  }

  lemma {:induction false} LaterVisits(s: State, visits: seq<RouteKey>, more: seq<RouteKey>, now: int, b: RouteKey)
    requires Pass(s, visits, now) == {} && b in VisitAll(s, visits, now).db.ok
    ensures var t, q := VisitAll(s, visits, now).db.ok, VisitAll(s, visits + more, now).db.ok;
            b in q ==>
              && q[b].timeoutCnt >= t[b].timeoutCnt
              && (b in Pass(s, visits + more, now) ==> q[b].timeoutCnt >= t[b].timeoutCnt + TIMEOUT_PERIOD_TIMER)
    decreases |more|
  {
    hide KernelKeyOf, Expire;
    if more == [] {
      assert visits + more == visits;
    } else {
      var n := |more| - 1;
      LaterVisits(s, visits, more[..n], now, b);
      var all := visits + more;
      assert all[..|all| - 1] == visits + more[..n] && all[|all| - 1] == more[n];
    }
  }

  /** With one route at its limit and another below, some iteration order counts the
      other one twice or expires it too early. */
  lemma UnlikeIfMixed(s: State, a: RouteKey, b: RouteKey, now: int) returns (visits: seq<RouteKey>)
    requires Inv(s) && AtLimit(s.db.ok, a) && b in Learned(s.db.ok) && !AtLimit(s.db.ok, b)
    ensures Completed(s, visits, now) && !TreatedAlike(s, visits, now)
  {
    hide Visit, VisitAll, Pass, Scheduled, Inv;
    CountedThenRestarted(s, a, b, now);
    assert Agreed(s) by { InvAgrees(s); }
    var more := Complete(s, [b, a], now);
    visits := [b, a] + more;
    LaterVisits(s, [b, a], more, now, b);
    var expired := ScheduleUnderWay(s, visits, now);
    StillLearned(s, visits, now, expired, b);
  }

  lemma InvAgrees(s: State)
    requires Inv(s)
    ensures Agreed(s)
  {
  }

  lemma StillLearned(s: State, visits: seq<RouteKey>, now: int, expired: set<RouteKey>, b: RouteKey)
    requires UnderWay(s, VisitAll(s, visits, now), now, expired, visits, Pass(s, visits, now)) && b in Learned(s.db.ok)
    ensures b in VisitAll(s, visits, now).db.ok ==> b in Learned(VisitAll(s, visits, now).db.ok)
  {
    hide VisitAll, Pass, Scheduled, GarbageSwept, Aged, SweptKernel;
    var t := VisitAll(s, visits, now).db.ok;
    if b in t {
      assert Counted(s.db.ok[b], t[b], b in Pass(s, visits, now), |expired|);
      LocalStays(s.db.ok[b], t[b], b in Pass(s, visits, now), |expired|);
    }
  }

  /** Whatever the layout, a sweep counts every learned route once and expires only
      those at their limit, exactly if no learned route is at its limit or all are. */
  lemma SweepsTreatAlike(s: State, now: int)
    requires Inv(s)
    ensures (forall visits :: Completed(s, visits, now) ==> TreatedAlike(s, visits, now)) <==>
            || (forall k :: k in Learned(s.db.ok) ==> !AtLimit(s.db.ok, k))
            || (forall k :: k in Learned(s.db.ok) ==> AtLimit(s.db.ok, k))
  {
    hide Inv, Completed, TreatedAlike;
    if (forall k :: k in Learned(s.db.ok) ==> !AtLimit(s.db.ok, k)) || (forall k :: k in Learned(s.db.ok) ==> AtLimit(s.db.ok, k)) {
      forall visits | Completed(s, visits, now)
        ensures TreatedAlike(s, visits, now)
      {
        AlikeIfUniform(s, visits, now);
      }
    } else {
      var a :| a in Learned(s.db.ok) && AtLimit(s.db.ok, a);
      var b :| b in Learned(s.db.ok) && !AtLimit(s.db.ok, b);
      var visits := UnlikeIfMixed(s, a, b, now);
    }
  }
}
