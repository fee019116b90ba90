/** The daemon: its timer callbacks, its event loop's check, start and shutdown. */
module Rip {
  import opened Wire
  import opened Routes
  import opened RouterSpec
  import opened RouterInvariant
  import opened Kernels
  import opened RipDbs
  import RipRecv
  import RipUpdate
  import HashMaps

  const CMD_REQUEST: nat := 1
  const CMD_RESPONSE: nat := 2
  const HEADER_SIZE: nat := 4
  const ENTRY_SIZE: nat := 20

  // ----------------------------------------------------------- timeout sweep

  /** A timeout sweep under way: `expired` have been moved so far, and `seen` are
      the ok routes visited since the iteration was last restarted. */
  ghost predicate Sweeping(db0: Db, db: Db, now: int, expired: set<RouteKey>, seen: set<RouteKey>) {
    && expired <= Learned(db0.ok)
    && OkSweeping(db0.ok, db.ok, expired, |expired|, seen)
    && GarbageSwept(db0.ok, db0.garbage, db.garbage, now, expired)
    && db.anyChanged == (db0.anyChanged || expired != {})
  }

  ghost predicate OkSweeping(t: RouteTable, t': RouteTable, gone: set<RouteKey>, restarts: nat, seen: set<RouteKey>) {
    && (forall k :: k in t' <==> k in t && k !in gone)
    && (forall k :: k in t' ==> Counted(t[k], t'[k], k in seen, restarts))
  }

  ghost predicate Counted(a: RouteInfo, b: RouteInfo, seen: bool, restarts: nat) {
    if a.isLocal then b == a
    else if seen then Aged(a, b, 1, 1 + restarts) && b.timeoutCnt < TIMEOUT_PERIOD
    else Aged(a, b, 0, restarts)
  }

  lemma CountOne(a: RouteInfo, b: RouteInfo, restarts: nat)
    requires Counted(a, b, false, restarts) && !b.isLocal
    ensures !a.isLocal && Aged(a, Tick(b), 1, 1 + restarts)
    ensures restarts == 0 ==> OneTick(a, Tick(b))
    ensures Tick(b).timeoutCnt < TIMEOUT_PERIOD ==> Counted(a, Tick(b), true, restarts)
  {
  }

  lemma CountRestart(a: RouteInfo, b: RouteInfo, seen: bool, restarts: nat)
    requires Counted(a, b, seen, restarts)
    ensures Counted(a, b, false, restarts + 1)
  {
  }

  lemma SweepStarts(db: Db, now: int)
    ensures Sweeping(db, db, now, {}, {})
  {
  }

  lemma SweepSkips(db0: Db, db: Db, now: int, expired: set<RouteKey>, seen: set<RouteKey>, k: RouteKey)
    requires Sweeping(db0, db, now, expired, seen) && k in db.ok && db.ok[k].isLocal
    ensures Sweeping(db0, db, now, expired, seen + {k})
  {
    hide GarbageSwept, Aged;
    assert Counted(db0.ok[k], db.ok[k], k in seen, |expired|);
    LocalStays(db0.ok[k], db.ok[k], k in seen, |expired|);
  }

  lemma LocalStays(a: RouteInfo, b: RouteInfo, seen: bool, restarts: nat)
    requires Counted(a, b, seen, restarts)
    ensures a.isLocal == b.isLocal
  {
  }

  lemma SweepCounts(db0: Db, db: Db, now: int, expired: set<RouteKey>, seen: set<RouteKey>, k: RouteKey)
    requires Sweeping(db0, db, now, expired, seen) && k in db.ok && k !in seen && !db.ok[k].isLocal
    requires Tick(db.ok[k]).timeoutCnt < TIMEOUT_PERIOD
    ensures Sweeping(db0, db.(ok := db.ok[k := Tick(db.ok[k])]), now, expired, seen + {k})
  {
    hide GarbageSwept, Counted;
    CountOne(db0.ok[k], db.ok[k], |expired|);
  }

  lemma SweepExpires(db0: Db, db: Db, now: int, expired: set<RouteKey>, seen: set<RouteKey>, k: RouteKey)
    requires Sweeping(db0, db, now, expired, seen) && k in db.ok && k !in seen && !db.ok[k].isLocal
    requires Tick(db.ok[k]).timeoutCnt >= TIMEOUT_PERIOD && k !in db.garbage
    ensures Sweeping(db0, DbMoveToGarbage(db.(ok := db.ok[k := Expire(Tick(db.ok[k]), now)]), k), now, expired + {k}, {})
    ensures k in db0.ok && k !in expired && db0.ok[k].metric == db.ok[k].metric
  {
    hide Counted, GarbageSwept;
    CountOne(db0.ok[k], db.ok[k], |expired|);
    assert k !in expired;
    var ok' := db.ok - {k};
    forall l | l in ok'
      ensures Counted(db0.ok[l], ok'[l], false, |expired| + 1)
    {
      CountRestart(db0.ok[l], db.ok[l], l in seen, |expired|);
    }
    var e := Expire(Tick(db.ok[k]), now);
    GarbageGrows(db0.ok, db0.garbage, db.garbage, now, expired, k, e);
    assert DbMoveToGarbage(db.(ok := db.ok[k := e]), k) == Db(ok', db.garbage[k := e], true);
  }

  lemma ExpiredMore(a: RouteInfo, b: RouteInfo, now: int, ticks: nat)
    requires ExpiredFrom(a, b, now, ticks)
    ensures ExpiredFrom(a, b, now, ticks + 1)
  {
  }

  lemma GarbageGrows(t: RouteTable, g: RouteTable, g': RouteTable, now: int, gone: set<RouteKey>, k: RouteKey, e: RouteInfo)
    requires GarbageSwept(t, g, g', now, gone) && k in t && k !in gone
    requires ExpiredFrom(t[k], e, now, |gone| + 1) && (gone == {} ==> OneTick(t[k], e))
    ensures GarbageSwept(t, g, g'[k := e], now, gone + {k})
  {
    hide ExpiredFrom, OneTick;
    var n := |gone|;
    var more := gone + {k};
    if gone == {} {
      assert k in more && OneTick(t[k], g'[k := e][k]);
    } else {
      var l :| l in gone && OneTick(t[l], g'[l]);
      assert l in more && OneTick(t[l], g'[k := e][l]);
    }
    assert |more| == n + 1;
    forall l | l in more
      ensures ExpiredFrom(t[l], g'[k := e][l], now, n + 1)
    {
      if l != k {
        ExpiredMore(t[l], g'[l], now, n);
      }
    }
  }

  lemma SweepEnds(s: State, db: Db, kernel: set<KernelKey>, now: int, expired: set<RouteKey>)
    requires Sweeping(s.db, db, now, expired, db.ok.Keys) && SweptKernel(s, kernel, expired)
    ensures TimeoutSwept(s, State(db, kernel, s.timers.(timeout := true, gc := s.timers.gc || expired != {})), now, expired)
  {
    hide GarbageSwept, Aged, KernelKeys;
    assert forall k :: k in db.ok ==> Counted(s.db.ok[k], db.ok[k], true, |expired|);
  }

  /** With tables and kernel in agreement, the kernel still has every learned
      route that has not expired, so deleting it cannot fail. */
  lemma SweepKernel(s: State, expired: set<RouteKey>, k: RouteKey)
    requires TablesOk(s.db) && KernelAgrees(s)
    requires expired <= Learned(s.db.ok) && k in Learned(s.db.ok) && k !in expired
    ensures KernelKeyOf(k, s.db.ok[k]) in s.kernel - KernelKeys(s.db.ok, expired)
  {
    KernelKeysWithout(s.db.ok, expired);
    assert k in Learned(s.db.ok) - expired;
  }

  class Router {
    const db: RipDb
    const kernel: Kernel
    const ifcs: seq<nat>
    var timers: Timers

    ghost predicate Valid()
      reads this, db, db.ok, db.garbage, db.ok.buckets, db.garbage.buckets
    {
      db.Valid()
    }

    ghost function Abs(): State
      reads this, kernel, db, db.ok, db.garbage
    {
      State(db.Abs(), kernel.routes, timers)
    }

    constructor (db: RipDb, ifcs: seq<nat>)
      requires db.Valid() && db.Abs() == Db(map[], map[], false)
      ensures Valid() && this.db == db && fresh(kernel)
      ensures this.ifcs == ifcs
      ensures Abs() == State(Db(map[], map[], false), {}, Timers(false, false, false, false, false))
    {
      this.db := db;
      kernel := new Kernel();
      this.ifcs := ifcs;
      timers := Timers(false, false, false, false, false);
    }

    /** The route the iterator points at has timed out: leave the kernel, become
        unreachable, move to garbage. */
    method RouteTimeoutExpired(c: nat, k: RouteKey, info: RouteInfo, now: int) returns (ret: int)
      requires Valid() && db.ok.Yields(c, k) && k in db.Abs().ok && db.Abs().ok[k] == info
      modifies kernel, db.Repr()
      ensures Valid() && fresh(db.Repr() - old(db.Repr()))
      ensures ret == if KernelKeyOf(k, info) in old(kernel.routes) && k !in old(db.Abs()).garbage then 0 else 1
      ensures kernel.routes == old(kernel.routes) - {KernelKeyOf(k, info)}
      ensures KernelKeyOf(k, info) in old(kernel.routes) ==>
                db.Abs() == DbMoveToGarbage(old(db.Abs()).(ok := old(db.Abs()).ok[k := Expire(info, now)]), k)
      ensures KernelKeyOf(k, info) !in old(kernel.routes) ==> db.Abs() == DbRemove(old(db.Abs()), k)
    {
      hide HashMaps.HashMap.Valid, HashMaps.HashMap.Yields, KernelKeyOf, Swap32;
      var r := kernel.Delete(k, info);
      if r != 0 {
        r := db.Remove(k);
        if r != 0 {
          assert false;
        }
        return 1;
      }
      db.WriteAt(DbIter(c, false, 0), k, Expire(info, now));
      r := db.MoveToGarbage(k, true, true);
      if r != 0 {
        return 1;
      }
      return 0;
    }

    /** Count one tick for the learned route the iterator points at, and expire
        it when its counter reaches the limit. */
    method AgeRoute(c: nat, k: RouteKey, info: RouteInfo, now: int) returns (ret: int, gone: bool)
      requires Valid() && db.ok.Yields(c, k) && k in db.Abs().ok && db.Abs().ok[k] == info
      modifies kernel, db.Repr()
      ensures Valid() && fresh(db.Repr() - old(db.Repr()))
      ensures Abs() == Visit(old(Abs()), k, now)
      ensures gone == (Tick(info).timeoutCnt >= TIMEOUT_PERIOD)
      ensures ret == if !gone || (KernelKeyOf(k, info) in old(kernel.routes) && k !in old(db.Abs()).garbage) then 0 else 1
      ensures !gone ==> db.ok.buckets == old(db.ok.buckets) && db.ok.Seen(c) == old(db.ok.Seen(c))
    {
      hide HashMaps.HashMap.Valid, HashMaps.HashMap.Yields, HashMaps.HashMap.Seen, Expire;
      var aged := Tick(info);
      assert KernelKeyOf(k, aged) == KernelKeyOf(k, info);
      ghost var d := db.Abs();
      db.WriteAt(DbIter(c, false, 0), k, aged);
      if aged.timeoutCnt >= TIMEOUT_PERIOD {
        assert db.Abs().ok[k := Expire(aged, now)] == d.ok[k := Expire(aged, now)];
        ret := RouteTimeoutExpired(c, k, aged, now);
        gone := true;
      } else {
        ret, gone := 0, false;
      }
    }

    /** Age every learned route, expire those that reach 180 seconds, and restart
        the iteration after each. The state is always the result of the visits
        made. If tables and kernel agree at the start the sweep completes;
        otherwise it may stop early, at a route that the kernel does not have or
        that is garbage already. */
    method Sweep(now: int) returns (ret: int, ghost expired: set<RouteKey>, startGc: bool, ghost visits: seq<RouteKey>)
      requires Valid()
      modifies kernel, db.Repr()
      ensures Valid() && fresh(db.Repr() - old(db.Repr()))
      ensures Abs() == VisitAll(old(Abs()), visits, now) && Scheduled(old(Abs()), visits, now)
      ensures ret == 0 ==> Completed(old(Abs()), visits, now)
      ensures ret != 0 ==> StopsAt(old(Abs()), visits, now)
      ensures ret == 0 ==> Sweeping(old(db.Abs()), db.Abs(), now, expired, db.Abs().ok.Keys)
      ensures ret == 0 ==> SweptKernel(old(Abs()), kernel.routes, expired)
      ensures ret == 0 ==> startGc == (expired != {})
      ensures TablesOk(old(db.Abs())) && KernelAgrees(old(Abs())) ==> ret == 0
    {
      hide HashMaps.HashMap.Valid, HashMaps.HashMap.Yields, HashMaps.HashMap.Seen;
      hide KernelKeyOf, Sweeping, SweptKernel, TablesOk, KernelAgrees, UnderWay, StopsAt;
      hide VisitAll, Visit, Scheduled, Completed;
      ghost var s0 := Abs();
      var c := 0;
      startGc, expired, visits := false, {}, [];
      db.ok.SeenNone();
      SweepBegins(s0, now);
      while true
        invariant Valid() && fresh(db.Repr() - old(db.Repr()))
        invariant UnderWay(s0, Abs(), now, expired, visits, db.ok.Seen(c))
        invariant startGc == (expired != {})
        decreases |db.ok.Contents|, db.ok.buckets.Length - c
      {
        ghost var s, seen := Abs(), db.ok.Seen(c);
        var found, c', k, info := db.ok.Iter(c);
        if !found {
          SweepCompletes(s0, s, now, expired, visits, seen);
          return 0, expired, startGc, visits;
        }
        c := c';
        if info.isLocal {
          SweepPasses(s0, s, now, expired, visits, seen, k);
          continue;
        }
        SweepVisits(s0, s, now, expired, visits, seen, k);
        var r, gone := AgeRoute(c, k, info, now);
        visits := visits + [k];
        if r != 0 {
          return 1, expired, startGc, visits;
        }
        if gone {
          expired := expired + {k};
          startGc := true;
          c := 0;
          db.ok.SeenNone();
        }
      }
    }

    /** The timeout timer. A sweep that stopped early leaves the timer stopped. */
    method TimeoutExpired(now: int) returns (ret: int, ghost expired: set<RouteKey>, ghost visits: seq<RouteKey>)
      requires Valid() && timers.timeout
      modifies this, kernel, db.Repr()
      ensures Valid() && fresh(db.Repr() - old(db.Repr()))
      ensures Abs().(timers := old(timers)) == VisitAll(old(Abs()), visits, now)
      ensures ret == 0 ==> Completed(old(Abs()), visits, now) && TimeoutSwept(old(Abs()), Abs(), now, expired)
      ensures ret != 0 ==> StopsAt(old(Abs()), visits, now) && timers == old(timers).(timeout := false)
      ensures TablesOk(old(db.Abs())) && KernelAgrees(old(Abs())) ==> ret == 0
    {
      hide HashMaps.HashMap.Valid, Sweeping, TablesOk, TimeoutSwept, VisitAll, Completed, StopsAt;
      ghost var s0 := Abs();
      timers := timers.(timeout := false);
      ghost var s1 := Abs();
      var startGc;
      ret, expired, startGc, visits := Sweep(now);
      VisitsIgnoreTimers(s0, s1, visits, now);
      if ret != 0 {
        return;
      }
      if startGc && !timers.gc {
        timers := timers.(gc := true);
      }
      timers := timers.(timeout := true);
      SweepEnds(s0, db.Abs(), kernel.routes, now, expired);
    }

    /** Drop what has been garbage for two minutes, restarting the iteration after
        each removal. */
    method CollectGarbage(now: int)
      requires Valid()
      modifies db.Repr()
      ensures Valid() && fresh(db.Repr() - old(db.Repr()))
      ensures db.Abs() == DbCollected(old(db.Abs()), now)
    {
      hide HashMaps.HashMap.Valid, HashMaps.HashMap.Seen, HashMaps.HashMap.Yields, Filtering, DbCollected, DbRemove;
      ghost var d0 := db.Abs();
      var c := 0;
      db.garbage.SeenNone();
      FilterStarts(d0, now);
      while true
        invariant Valid() && fresh(db.Repr() - old(db.Repr()))
        invariant Filtering(d0, db.Abs(), now, db.garbage.Seen(c))
        decreases |db.ok.Contents| + |db.garbage.Contents|, db.garbage.buckets.Length - c
      {
        ghost var d, seen := db.Abs(), db.garbage.Seen(c);
        var found, c', k, info := db.garbage.Iter(c);
        if !found {
          FilterEnds(d0, d, now, seen);
          return;
        }
        FilterSteps(d0, d, now, seen, k);
        if now - info.gcStartedAt >= GC_PERIOD {
          var _ := db.Remove(k);
          c := 0;
          db.garbage.SeenNone();
        } else {
          c := c';
        }
      }
    }

    /** The garbage timer: keep ticking while any garbage is left. */
    method GcExpired(now: int) returns (ret: int)
      requires Valid() && timers.gc
      modifies this, db.Repr()
      ensures Valid() && fresh(db.Repr() - old(db.Repr()))
      ensures Abs() == GcSwept(old(Abs()), now) && ret == 0
    {
      hide HashMaps.HashMap.Valid, DbCollected;
      timers := timers.(gc := false);
      CollectGarbage(now);
      var left := db.Count(DbGarbage);
      if left > 0 {
        timers := timers.(gc := true);
      }
      return 0;
    }

    method UpdateExpired(sent: seq<bool>) returns (ret: int, out: seq<Message>)
      requires Valid() && timers.update
      requires |sent| == |ifcs| && RipUpdate.AllFit(db.Abs(), ifcs, false)
      modifies this, db.Repr()
      ensures Valid() && fresh(db.Repr() - old(db.Repr()))
      ensures Abs() == RouterSpec.UpdateExpired(old(Abs()), ret == 0)
      ensures Multicasts(out, old(db.Abs()), ifcs, false)
      ensures ret == 0 <==> forall i :: 0 <= i < |ifcs| && out[i].entries != [] ==> sent[i]
    {
      hide HashMaps.HashMap.Valid, DbMarkUnchanged, Advertises, RipUpdate.FitsBuffer;
      timers := timers.(update := false);
      ret, out := RipUpdate.SendMulticast(db, ifcs, false, sent);
      if ret != 0 {
        return;
      }
      timers := timers.(update := true);
    }

    /** The check after each batch of events. A non-zero result ends the event
        loop. */
    method CheckRouteChanged(sent: seq<bool>) returns (ret: int, out: seq<Message>)
      requires Valid() && |sent| == |ifcs| && RipUpdate.AllFit(db.Abs(), ifcs, true)
      modifies this, db.Repr()
      ensures Valid() && fresh(db.Repr() - old(db.Repr()))
      ensures Abs() == RouterSpec.CheckRouteChanged(old(Abs()), ret == 0)
      ensures out == [] || Triggers(old(Abs()))
      ensures Triggers(old(Abs())) ==> Multicasts(out, old(db.Abs()), ifcs, true)
      ensures ret == 0 <==> !Triggers(old(Abs())) || forall i :: 0 <= i < |ifcs| && out[i].entries != [] ==> sent[i]
    {
      hide HashMaps.HashMap.Valid, DbMarkUnchanged, Advertises, RipUpdate.FitsBuffer;
      if timers.lock {
        return 0, [];
      }
      if db.anyRouteChanged {
        ret, out := RipUpdate.SendMulticast(db, ifcs, true, sent);
        if ret != 0 {
          return;
        }
        timers := timers.(lock := true);
        return 0, out;
      }
      return 0, [];
    }

    /** Shortly after the start: ask the neighbours for their tables. */
    method RequestWarmupExpired(sent: seq<bool>) returns (ret: int, requests: seq<Message>)
      requires Valid() && timers.warmup && |sent| == |ifcs|
      modifies this
      ensures Valid() && Abs() == old(Abs()).(timers := old(timers).(warmup := false)) && ret == 0
      ensures |requests| == |ifcs|
      ensures forall i :: 0 <= i < |ifcs| ==> requests[i].ifIndex == ifcs[i] && RipUpdate.IsInitialRequest(requests[i].entries)
    {
      hide HashMaps.HashMap.Valid, RipUpdate.IsInitialRequest;
      timers := timers.(warmup := false);
      ret, requests := RipUpdate.SendRequestMulticast(ifcs, sent);
      ret := 0;
    }

    method TriggeredLockExpired()
      requires Valid() && timers.lock
      modifies this
      ensures Valid() && Abs() == old(Abs()).(timers := old(timers).(lock := false))
    {
      timers := timers.(lock := false);
    }

    /** Delete every learned ok route from the kernel; failures are only logged. */
    method ClearRoutingTable()
      requires Valid()
      modifies kernel
      ensures kernel.routes == old(kernel.routes) - KernelKeys(db.Abs().ok, Learned(db.Abs().ok))
    {
      hide HashMaps.HashMap.Valid, HashMaps.HashMap.Seen, HashMaps.HashMap.Yields, KernelKeyOf;
      var c := 0;
      ghost var t := db.Abs().ok;
      db.ok.SeenNone();
      while true
        invariant Valid() && db.Abs().ok == t && db.ok.Seen(c) <= t.Keys
        invariant kernel.routes == old(kernel.routes) - KernelKeys(t, Learned(t) * db.ok.Seen(c))
        decreases db.ok.buckets.Length - c
      {
        ghost var seen := db.ok.Seen(c);
        var found, c', k, info := db.ok.Iter(c);
        if !found {
          assert Learned(t) * seen == Learned(t);
          return;
        }
        c := c';
        if info.isLocal {
          assert Learned(t) * (seen + {k}) == Learned(t) * seen;
          continue;
        }
        assert Learned(t) * (seen + {k}) == Learned(t) * seen + {k};
        KernelKeysMore(t, Learned(t) * seen, k);
        var _ := kernel.Delete(k, info);
      }
    }

    method Cleanup(sent: seq<bool>) returns (out: seq<Message>)
      requires Valid() && |sent| == |ifcs| && RipUpdate.AllFit(Poisoned(db.Abs()), ifcs, false)
      modifies this, kernel, db.Repr()
      ensures Valid() && fresh(db.Repr() - old(db.Repr()))
      ensures Abs() == RouterSpec.Cleanup(old(Abs()))
      ensures Multicasts(out, Poisoned(old(db.Abs())), ifcs, false)
    {
      hide HashMaps.HashMap.Valid, DbMarkUnchanged, Poisoned, Advertises, RipUpdate.FitsBuffer, KernelKeys;
      out := RipUpdate.SendShutdown(db, ifcs, sent);
      ClearRoutingTable();
    }

    /** A datagram of `size` bytes has been received into `buffer`. Command 1 is a
        request and 2 a response. */
    method HandleMessage(command: nat, size: nat, buffer: seq<Entry>, sender: U32, ifIndex: nat,
                         grants: seq<bool>, socketOk: bool, sent: bool)
      returns (ret: int, out: seq<Message>)
      requires Valid() && |buffer| == |grants| == RipUpdate.MAX_ENTRIES
      requires HEADER_SIZE <= size <= HEADER_SIZE + ENTRY_SIZE * RipUpdate.MAX_ENTRIES
      requires command == CMD_REQUEST ==> RipUpdate.FitsBuffer(db.Abs(), ifIndex, false)
      modifies kernel, db.Repr()
      ensures Valid() && fresh(db.Repr() - old(db.Repr()))
      ensures var n := EntriesCount(size);
              && (command == 2 ==>
                    && Abs() == ReceiveResponse(old(Abs()), buffer[..n], sender, ifIndex, grants[..n]) && out == [])
              && (command != 2 ==> Abs() == old(Abs()))
              && (out != [] <==> command == 1 && RipUpdate.IsInitialRequest(buffer[..n]) && socketOk)
              && (out != [] ==>
                    && |out| == 1 && out[0].ifIndex == ifIndex
                    && Advertises(out[0].entries, old(db.Abs()), ifIndex, false))
              && (ret == 0 <==>
                    || (command == 2 && AllHandled(old(Abs()), buffer[..n], sender, ifIndex, grants[..n]))
                    || (out != [] && (out[0].entries != [] ==> sent)))
    {
      hide HashMaps.HashMap.Valid, RipUpdate.FitsBuffer, ReceiveResponse, Advertises, RipUpdate.IsInitialRequest, AllHandled;
      var n := EntriesCount(size);
      out := [];
      if command == CMD_RESPONSE {
        ret := RipRecv.HandleResponse(kernel, db, buffer[..n], sender, ifIndex, grants[..n], timers);
      } else if command == CMD_REQUEST {
        ret, out := RipUpdate.SendUnicast(db, buffer[..n], ifIndex, socketOk, sent);
      } else {
        ret := 1;
      }
    }

    method AddAdvertisedNetwork(net: Network) returns (ret: int)
      requires Valid() && net.prefix > 0
      modifies db.Repr()
      ensures Valid() && fresh(db.Repr() - old(db.Repr()))
      ensures !PrefixOk(net) ==> ret == 1 && db.Abs() == old(db.Abs())
      ensures PrefixOk(net) ==>
                && db.Abs() == DbAdd(old(db.Abs()), LocalKey(net), LocalInfo())
                && ret == if LocalKey(net) in old(db.Abs()).ok then 1 else 0
    {
      hide HashMaps.HashMap.Valid, Swap32, NetworkPart;
      var mask := PrefixLenToSubnet(net.prefix);
      if mask.None? {
        return 1;
      }
      var k := RouteKey(net.ifIndex, Swap32(NetworkPart(net.address, net.prefix)), mask.value, 0);
      var info := RouteInfo(Swap16(AF_INET), Swap16(0), Swap32(1), false, true, false, 0, 0);
      ret := db.Add(k, info, true);
    }

    /** Start: file the configured networks as local routes and start the timers.
        A repeated network, or an impossible prefix length, makes the start
        fail. */
    method Begin(nets: seq<Network>) returns (ret: int)
      requires Valid() && Abs() == State(Db(map[], map[], false), {}, Timers(false, false, false, false, false))
      requires forall i :: 0 <= i < |nets| ==> nets[i].prefix > 0
      modifies this, db.Repr()
      ensures Valid() && fresh(db.Repr() - old(db.Repr()))
      ensures ret == 0 <==> WellConfigured(nets)
      ensures ret == 0 ==> Abs() == InitialState(nets)
    {
      hide HashMaps.HashMap.Valid, LocalKey, LocalInfo, InitialDb, DbAdd;
      NothingConfigured(nets);
      for i := 0 to |nets|
        invariant Valid() && fresh(db.Repr() - old(db.Repr()))
        invariant kernel.routes == {} && WellConfigured(nets[..i]) && db.Abs() == InitialDb(nets[..i])
      {
        ConfigureOneMore(nets, i);
        var r := AddAdvertisedNetwork(nets[i]);
        if r != 0 {
          return 1;
        }
      }
      assert nets[..|nets|] == nets;
      timers := Timers(true, false, true, true, false);
      return 0;
    }
  }

  /** The whole entries of a datagram: 20 bytes each after a header of 4. */
  function EntriesCount(size: nat): (n: nat)
    requires size >= HEADER_SIZE
    ensures 4 + 20 * n <= size < 4 + 20 * (n + 1)
    ensures size <= HEADER_SIZE + ENTRY_SIZE * RipUpdate.MAX_ENTRIES ==> n <= 500
  {
    (size - HEADER_SIZE) / ENTRY_SIZE
  }

  lemma NothingConfigured(nets: seq<Network>)
    ensures WellConfigured(nets[..0]) && InitialDb(nets[..0]) == Db(map[], map[], false)
  {
  }

  /** One more network is fine exactly if its prefix is good and it is new. */
  lemma ConfigureOneMore(nets: seq<Network>, i: nat)
    requires i < |nets| && WellConfigured(nets[..i])
    ensures PrefixOk(nets[i]) && LocalKey(nets[i]) !in InitialDb(nets[..i]).ok ==>
              && WellConfigured(nets[..i + 1])
              && InitialDb(nets[..i + 1]) == DbAdd(InitialDb(nets[..i]), LocalKey(nets[i]), LocalInfo())
    ensures !PrefixOk(nets[i]) || LocalKey(nets[i]) in InitialDb(nets[..i]).ok ==> !WellConfigured(nets)
  {
    hide LocalKey, LocalInfo;
    var before, after := nets[..i], nets[..i + 1];
    assert after[..i] == before && after[i] == nets[i];
    InitialKeys(before);
    if PrefixOk(nets[i]) && LocalKey(nets[i]) in InitialDb(before).ok {
      var j :| 0 <= j < |before| && LocalKey(nets[i]) == LocalKey(before[j]);
      assert nets[j] == before[j];
    }
  }

  // --------------------------------------------------------- garbage sweep

  /** A garbage sweep under way: only stale keys have been removed, from the ok table
      before the garbage table, and what has been seen since the last restart is
      young. */
  ghost predicate Filtering(d0: Db, d: Db, now: int, seen: set<RouteKey>) {
    && d.anyChanged == d0.anyChanged
    && (forall k :: k in d.ok ==> k in d0.ok && d.ok[k] == d0.ok[k])
    && (forall k :: k in d.garbage ==> k in d0.garbage && d.garbage[k] == d0.garbage[k])
    && (forall k :: k in d0.ok && k !in Stale(d0.garbage, now) ==> k in d.ok)
    && (forall k :: k in d0.garbage && k !in Stale(d0.garbage, now) ==> k in d.garbage)
    && (forall k :: k in d0.garbage && k !in d.garbage ==> k !in d.ok)
    && (forall k :: k in seen && k in d.garbage ==> k !in Stale(d0.garbage, now))
  }

  lemma FilterStarts(d: Db, now: int)
    ensures Filtering(d, d, now, {})
  {
  }

  lemma FilterSteps(d0: Db, d: Db, now: int, seen: set<RouteKey>, k: RouteKey)
    requires Filtering(d0, d, now, seen) && k in d.garbage
    ensures now - d.garbage[k].gcStartedAt < GC_PERIOD ==> Filtering(d0, d, now, seen + {k})
    ensures now - d.garbage[k].gcStartedAt >= GC_PERIOD ==>
              && Filtering(d0, DbRemove(d, k), now, {})
              && |DbRemove(d, k).ok| + |DbRemove(d, k).garbage| < |d.ok| + |d.garbage|
  {
    RemoveShrinks(d, k);
  }

  lemma RemoveShrinks(d: Db, k: RouteKey)
    requires k in d.ok || k in d.garbage
    ensures |DbRemove(d, k).ok| + |DbRemove(d, k).garbage| < |d.ok| + |d.garbage|
  {
    if k in d.ok {
      assert d.ok.Keys == (d.ok - {k}).Keys + {k};
    } else {
      assert d.garbage.Keys == (d.garbage - {k}).Keys + {k};
    }
  }

  lemma FilterEnds(d0: Db, d: Db, now: int, seen: set<RouteKey>)
    requires Filtering(d0, d, now, seen) && seen == d.garbage.Keys
    ensures d == DbCollected(d0, now)
  {
    assert d.garbage == Fresh(d0.garbage, now);
    assert d.ok == d0.ok - Stale(d0.garbage, now);
  }

  // ------------------------------------------------------ visits of a sweep

  /** The pass consists of the learned routes among those seen. */
  ghost predicate InPass(pass: set<RouteKey>, t: RouteTable, seen: set<RouteKey>) {
    forall k :: k in pass <==> k in t && !t[k].isLocal && k in seen
  }

  /** The last visit was to a route that the kernel does not have or that is garbage
      already. */
  ghost predicate StopsAt(s: State, visits: seq<RouteKey>, now: int) {
    visits != [] && (
      var p := VisitAll(s, visits[..|visits| - 1], now);
      var k := visits[|visits| - 1];
      k in p.db.ok && (KernelKeyOf(k, p.db.ok[k]) !in p.kernel || k in p.db.garbage))
  }

  /** Everything known of a sweep under way that has expired `expired`, made the
      visits `visits` and seen `seen` since its last restart. */
  ghost predicate UnderWay(s0: State, s: State, now: int, expired: set<RouteKey>, visits: seq<RouteKey>, seen: set<RouteKey>) {
    && Sweeping(s0.db, s.db, now, expired, seen) && SweptKernel(s0, s.kernel, expired)
    && s == VisitAll(s0, visits, now) && Scheduled(s0, visits, now)
    && InPass(Pass(s0, visits, now), s.db.ok, seen)
  }

  lemma SweepBegins(s: State, now: int)
    ensures UnderWay(s, s, now, {}, [], {})
  {
    hide Sweeping, SweptKernel, InPass, VisitAll, Scheduled, Pass;
    SweepStarts(s.db, now);
    SweepKernelStarts(s);
    VisitNone(s, now);
  }

  lemma SweepPasses(s0: State, s: State, now: int, expired: set<RouteKey>, visits: seq<RouteKey>, seen: set<RouteKey>, k: RouteKey)
    requires UnderWay(s0, s, now, expired, visits, seen) && k in s.db.ok && s.db.ok[k].isLocal
    ensures UnderWay(s0, s, now, expired, visits, seen + {k})
  {
    hide Sweeping, SweptKernel, InPass, VisitAll, Scheduled, Pass;
    SweepSkips(s0.db, s.db, now, expired, seen, k);
    PassSkips(Pass(s0, visits, now), s.db.ok, seen, k);
  }

  lemma SweepCompletes(s0: State, s: State, now: int, expired: set<RouteKey>, visits: seq<RouteKey>, seen: set<RouteKey>)
    requires UnderWay(s0, s, now, expired, visits, seen) && seen == s.db.ok.Keys
    ensures Completed(s0, visits, now) && s == VisitAll(s0, visits, now) && Scheduled(s0, visits, now)
    ensures Sweeping(s0.db, s.db, now, expired, s.db.ok.Keys) && SweptKernel(s0, s.kernel, expired)
  {
    hide Sweeping, SweptKernel, VisitAll, Scheduled, Pass;
    VisitedAll(s0, visits, now, seen);
  }

  /** A visit continues the sweep, or restarts it with one more route expired, or
      stops it; with tables and kernel in agreement it does not stop. */
  lemma SweepVisits(s0: State, s: State, now: int, expired: set<RouteKey>, visits: seq<RouteKey>, seen: set<RouteKey>, k: RouteKey)
    requires UnderWay(s0, s, now, expired, visits, seen) && k in s.db.ok && !s.db.ok[k].isLocal && k !in seen
    ensures var s' := Visit(s, k, now);
            && s' == VisitAll(s0, visits + [k], now) && Scheduled(s0, visits + [k], now)
            && if Tick(s.db.ok[k]).timeoutCnt < TIMEOUT_PERIOD then
                 UnderWay(s0, s', now, expired, visits + [k], seen + {k}) && |s'.db.ok| == |s.db.ok|
               else if KernelKeyOf(k, s.db.ok[k]) in s.kernel && k !in s.db.garbage then
                 UnderWay(s0, s', now, expired + {k}, visits + [k], {}) && |s'.db.ok| < |s.db.ok|
               else StopsAt(s0, visits + [k], now) && !(TablesOk(s0.db) && KernelAgrees(s0))
  {
    hide Sweeping, SweptKernel, InPass, VisitAll, Scheduled, Pass, StopsAt, TablesOk, KernelAgrees, Expire, KernelKeyOf, DbMoveToGarbage;
    VisitMore(s0, visits, now, seen, k);
    TickKeepsKey(k, s.db.ok[k]);
    if Tick(s.db.ok[k]).timeoutCnt < TIMEOUT_PERIOD {
      SweepCounts(s0.db, s.db, now, expired, seen, k);
      assert s.db.ok[k := Tick(s.db.ok[k])].Keys == s.db.ok.Keys;
    } else {
      var e := Expire(Tick(s.db.ok[k]), now);
      assert s.db.ok[k := Tick(s.db.ok[k])][k := e] == s.db.ok[k := e];
      SweepMayExpire(s0, s.db, s.kernel, now, expired, seen, k);
    }
  }

  lemma TickKeepsKey(k: RouteKey, info: RouteInfo)
    ensures KernelKeyOf(k, Tick(info)) == KernelKeyOf(k, info)
  {
  }

  lemma VisitNone(s: State, now: int)
    ensures VisitAll(s, [], now) == s && Scheduled(s, [], now) && InPass(Pass(s, [], now), s.db.ok, {})
  {
  }

  lemma PassSkips(pass: set<RouteKey>, t: RouteTable, seen: set<RouteKey>, k: RouteKey)
    requires InPass(pass, t, seen) && k in t && t[k].isLocal
    ensures InPass(pass, t, seen + {k})
  {
  }

  lemma VisitedAll(s: State, visits: seq<RouteKey>, now: int, seen: set<RouteKey>)
    requires Scheduled(s, visits, now)
    requires var t := VisitAll(s, visits, now).db.ok; InPass(Pass(s, visits, now), t, seen) && seen == t.Keys
    ensures Completed(s, visits, now)
  {
  }

  lemma VisitMore(s: State, visits: seq<RouteKey>, now: int, seen: set<RouteKey>, k: RouteKey)
    requires Scheduled(s, visits, now)
    requires var t := VisitAll(s, visits, now).db.ok;
             InPass(Pass(s, visits, now), t, seen) && k in t && !t[k].isLocal && k !in seen
    ensures var p, q := VisitAll(s, visits, now), VisitAll(s, visits + [k], now);
            && q == Visit(p, k, now)
            && Scheduled(s, visits + [k], now)
            && InPass(Pass(s, visits + [k], now), q.db.ok, if Tick(p.db.ok[k]).timeoutCnt >= TIMEOUT_PERIOD then {} else seen + {k})
            && (KernelKeyOf(k, p.db.ok[k]) !in p.kernel || k in p.db.garbage ==> StopsAt(s, visits + [k], now))
  {
    hide KernelKeyOf, Visit, VisitAll, Pass, Scheduled;
    var p := VisitAll(s, visits, now);
    VisitOne(s, visits, k, now);
    VisitTable(p, k, now);
    var more := visits + [k];
    assert more[..|more| - 1] == visits && more[|more| - 1] == k;
  }

  lemma {:induction false} VisitsIgnoreTimers(s: State, s': State, visits: seq<RouteKey>, now: int)
    requires s'.db == s.db && s'.kernel == s.kernel
    ensures VisitAll(s', visits, now) == VisitAll(s, visits, now).(timers := s'.timers)
    ensures VisitAll(s, visits, now).timers == s.timers
    ensures Pass(s', visits, now) == Pass(s, visits, now)
    ensures Scheduled(s', visits, now) <==> Scheduled(s, visits, now)
    ensures Completed(s', visits, now) <==> Completed(s, visits, now)
    ensures StopsAt(s', visits, now) <==> StopsAt(s, visits, now)
    decreases |visits|
  {
    hide KernelKeyOf, Expire, DbMoveToGarbage;
    if visits != [] {
      VisitsIgnoreTimers(s, s', visits[..|visits| - 1], now);
    }
  }

  // ----------------------------------------------- kernel during a sweep

  ghost predicate SweptKernel(s: State, kernel: set<KernelKey>, expired: set<RouteKey>) {
    expired <= s.db.ok.Keys && kernel == s.kernel - KernelKeys(s.db.ok, expired)
  }

  lemma SweepKernelStarts(s: State)
    ensures SweptKernel(s, s.kernel, {})
  {
  }

  lemma MoveShrinks(db: Db, k: RouteKey, info: RouteInfo)
    requires k in db.ok
    ensures |DbMoveToGarbage(db.(ok := db.ok[k := info]), k).ok| < |db.ok|
  {
    assert db.ok[k := info] - {k} == db.ok - {k};
    assert db.ok.Keys == (db.ok - {k}).Keys + {k};
  }

  /** The route about to expire is still known to the kernel and not yet garbage,
      if tables and kernel agreed when the sweep began. */
  lemma SweepAgreed(s: State, db: Db, kernel: set<KernelKey>, now: int, expired: set<RouteKey>, seen: set<RouteKey>, k: RouteKey)
    requires Sweeping(s.db, db, now, expired, seen) && SweptKernel(s, kernel, expired)
    requires TablesOk(s.db) && KernelAgrees(s)
    requires k in db.ok && !db.ok[k].isLocal
    ensures KernelKeyOf(k, db.ok[k]) in kernel && k !in db.garbage
  {
    hide ExpiredFrom, LearnedRoute, LocalRoute, DeadRoute;
    assert Counted(s.db.ok[k], db.ok[k], k in seen, |expired|);
    SweepKernel(s, expired, k);
  }

  lemma SweepMayExpire(s: State, db: Db, kernel: set<KernelKey>, now: int, expired: set<RouteKey>, seen: set<RouteKey>, k: RouteKey)
    requires Sweeping(s.db, db, now, expired, seen) && SweptKernel(s, kernel, expired)
    requires k in db.ok && k !in seen && !db.ok[k].isLocal
    requires Tick(db.ok[k]).timeoutCnt >= TIMEOUT_PERIOD
    ensures |DbMoveToGarbage(db.(ok := db.ok[k := Expire(Tick(db.ok[k]), now)]), k).ok| < |db.ok|
    ensures TablesOk(s.db) && KernelAgrees(s) ==> KernelKeyOf(k, db.ok[k]) in kernel && k !in db.garbage
    ensures k !in db.garbage ==>
              && Sweeping(s.db, DbMoveToGarbage(db.(ok := db.ok[k := Expire(Tick(db.ok[k]), now)]), k), now, expired + {k}, {})
              && SweptKernel(s, kernel - {KernelKeyOf(k, db.ok[k])}, expired + {k})
  {
    hide Sweeping, TablesOk, KernelAgrees, DbMoveToGarbage, Expire;
    MoveShrinks(db, k, Expire(Tick(db.ok[k]), now));
    if k !in db.garbage {
      SweepExpires(s.db, db, now, expired, seen, k);
      KernelKeysMore(s.db.ok, expired, k);
    }
    if TablesOk(s.db) && KernelAgrees(s) {
      SweepAgreed(s, db, kernel, now, expired, seen, k);
    }
  }
}
