/** Processing a received response, entry by entry. */
module RipRecv {
  import opened Wire
  import opened Routes
  import opened RouterSpec
  import opened Kernels
  import opened RipDbs
  import HashMaps

  /** The router's state as a value; receiving leaves the timers alone. */
  ghost function View(kernel: Kernel, db: RipDb, timers: Timers): State
    reads kernel, db, db.ok, db.garbage
  {
    State(db.Abs(), kernel.routes, timers)
  }

  method HandleNonExistingRoute(kernel: Kernel, db: RipDb, k: RouteKey, info: RouteInfo, grant: bool, ghost timers: Timers)
    returns (ret: int)
    requires db.Valid()
    modifies kernel, db.Repr()
    ensures db.Valid() && fresh(db.Repr() - old(db.Repr()))
    ensures Outcome(View(kernel, db, timers), ret == 0) == InstallRoute(old(View(kernel, db, timers)), k, info, grant)
  {
    hide HashMaps.HashMap.Valid, KernelKeyOf;
    var r := kernel.Add(k, info, grant);
    if r != 0 {
      return 1;
    }
    ret := db.Add(k, info.(changed := true), true);
  }

  method HandleOkRouteUpdate(kernel: Kernel, db: RipDb, k: RouteKey, current: RouteInfo, incoming: RouteInfo, grant: bool,
                             ghost timers: Timers)
    returns (ret: int)
    requires db.Valid() && k in db.Abs().ok && db.Abs().ok[k] == current
    modifies kernel, db.Repr()
    ensures db.Valid() && fresh(db.Repr() - old(db.Repr()))
    ensures Outcome(View(kernel, db, timers), ret == 0) == UpdateOkRoute(old(View(kernel, db, timers)), k, incoming, grant)
  {
    hide HashMaps.HashMap.Valid, KernelKeyOf;
    if current.metric > incoming.metric {
      var r := kernel.Delete(k, current);
      if r != 0 {
        assert kernel.routes == old(kernel.routes);
        return 1;
      }
      var _ := db.Remove(k);
      ret := HandleNonExistingRoute(kernel, db, k, incoming, grant, timers);
      return;
    }
    return 0;
  }

  /** The entry is converted to host order, checked, charged one hop and
      converted back, in place. */
  method HandleEntry(kernel: Kernel, db: RipDb, entry: Entry, sender: U32, ifIndex: nat, grant: bool, ghost timers: Timers)
    returns (ret: int)
    requires db.Valid()
    modifies kernel, db.Repr()
    ensures db.Valid() && fresh(db.Repr() - old(db.Repr()))
    ensures Outcome(View(kernel, db, timers), ret == 0) == ReceiveEntry(old(View(kernel, db, timers)), entry, sender, ifIndex, grant)
  {
    hide HashMaps.HashMap.Valid, KernelKeyOf, InstallRoute, UpdateOkRoute, Swap16, Swap32, IsUnicastAddress, IsNetMaskValid;
    var e := EntryNtoh(entry);
    if !IsEntryValid(e) {
      return 0;
    }
    e := EntryHton(e.(metric := UpdateMetric(e.metric)));
    Swap16Twice(entry.family);
    Swap16Twice(entry.tag);
    var k := RouteKey(ifIndex, e.ip, e.mask, sender);
    var info := RouteInfo(e.family, e.tag, e.metric, false, false, true, 0, 0);
    assert info == IncomingInfo(entry);
    var okRoute := db.Get(DbOk, k);
    if okRoute.Some? {
      ret := HandleOkRouteUpdate(kernel, db, k, okRoute.value, info, grant, timers);
    } else {
      var garbageRoute := db.Get(DbGarbage, k);
      if garbageRoute.Some? {
        var _ := db.Remove(k);
      }
      ret := HandleNonExistingRoute(kernel, db, k, info, grant, timers);
    }
  }

  method HandleResponse(kernel: Kernel, db: RipDb, entries: seq<Entry>, sender: U32, ifIndex: nat, grants: seq<bool>,
                        ghost timers: Timers)
    returns (ret: int)
    requires db.Valid() && |grants| == |entries|
    modifies kernel, db.Repr()
    ensures db.Valid() && fresh(db.Repr() - old(db.Repr()))
    ensures View(kernel, db, timers) == ReceiveResponse(old(View(kernel, db, timers)), entries, sender, ifIndex, grants)
    ensures ret == 0 <==> AllHandled(old(View(kernel, db, timers)), entries, sender, ifIndex, grants)
  {
    hide HashMaps.HashMap.Valid, ReceiveEntry;
    ret := 0;
    ghost var s0 := View(kernel, db, timers);
    assert entries[..0] == [];
    for i := 0 to |entries|
      invariant db.Valid() && fresh(db.Repr() - old(db.Repr()))
      invariant View(kernel, db, timers) == ReceiveResponse(s0, entries[..i], sender, ifIndex, grants[..i])
      invariant ret == 0 <==> forall j :: 0 <= j < i ==> EntryHandled(s0, entries, sender, ifIndex, grants, j)
    {
      var r := HandleEntry(kernel, db, entries[i], sender, ifIndex, grants[i], timers);
      assert (r == 0) == EntryHandled(s0, entries, sender, ifIndex, grants, i);
      if r != 0 {
        ret := 1;
      }
      assert entries[..i + 1][..i] == entries[..i] && grants[..i + 1][..i] == grants[..i];
    }
    assert entries[..|entries|] == entries && grants[..|entries|] == grants;
  }
}
