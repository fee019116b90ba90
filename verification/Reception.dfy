/** Which entries a router accepts and what it makes of them, in numbers. */
module Reception {
  import opened Wire
  import opened Routes
  import opened RouterSpec
  import opened RouterInvariant
  import opened RouterRuns
  import opened RouterTheorems

  /** The addresses from 1.0.0.0 to 223.255.255.255 without network 127, in host order. */
  predicate InUnicastRange(host: U32) {
    0x0100_0000 <= host < 0x7F00_0000 || 0x8000_0000 <= host < 0xE000_0000
  }

  /** The mask is `p` ones followed by zeros. */
  predicate MaskHasLength(mask: U32, p: nat) {
    p <= 32 && Swap32(mask) + Pow2(32 - p) == 0x1_0000_0000
  }

  ghost predicate Accepts(e: Entry) {
    && InUnicastRange(Swap32(e.ip))
    && (exists p :: 1 <= p <= 31 && MaskHasLength(e.mask, p))
    && 1 <= Swap32(e.metric) <= 16
  }

  lemma AcceptedMasks(mask: U32)
    ensures IsNetMaskValid(mask) <==> exists p :: 1 <= p <= 31 && MaskHasLength(mask, p)
  {
    hide Swap32;
    ValidMasks(mask);
    if IsNetMaskValid(mask) {
      var p := GetPrefixLen(mask);
      Swap32Twice(HostMask(p));
      assert MaskHasLength(mask, p);
    }
    if p :| 1 <= p <= 31 && MaskHasLength(mask, p) {
      HostMaskIsContiguous(p);
      assert Swap32(mask) == HostMask(p);
    }
  }

  /** The checks accept exactly the entries for a unicast address, under a mask of
      prefix length 1 to 31, with a metric from 1 to 16. */
  lemma AcceptsExactly(e: Entry)
    ensures IsEntryValid(EntryNtoh(e)) <==> Accepts(e)
  {
    hide Swap32, IsNetMaskValid;
    AcceptedMasks(e.mask);
  }

  /** The whole effect of one entry. What is not accepted changes nothing. A route
      that is known at the cost of the entry or less stays as it is. Otherwise the
      route is the entry's, one hop dearer and at most 16, if the kernel grants it,
      and is lost if not. */
  lemma EntryEffect(s: State, e: Entry, sender: U32, ifIndex: nat, grant: bool)
    requires Inv(s)
    ensures var o := ReceiveEntry(s, e, sender, ifIndex, grant);
            var k := RouteKey(ifIndex, e.ip, e.mask, sender);
            var m := Swap32(e.metric);
            var cost := if m < 16 then m + 1 else 16;
            if !Accepts(e) || (k in s.db.ok && Swap32(s.db.ok[k].metric) <= cost) then o == Outcome(s, true)
            else
              && o.ok == grant && o.state.timers == s.timers
              && o.state.db ==
                 if grant
                 then Db(s.db.ok[k := RouteInfo(e.family, e.tag, cost * 0x100_0000, true, false, true, 0, 0)],
                         s.db.garbage - {k}, true)
                 else Db(s.db.ok - {k}, s.db.garbage - {k}, s.db.anyChanged)
  {
    hide Swap32, IsEntryValid, Accepts, KernelKeyOf, Inv;
    AcceptsExactly(e);
    if Accepts(e) {
      SmallMetric(Cost(e));
      AcceptedEffect(s, e, sender, ifIndex, grant);
    }
  }

  lemma AcceptedEffect(s: State, e: Entry, sender: U32, ifIndex: nat, grant: bool)
    requires Inv(s) && IsEntryValid(EntryNtoh(e))
    ensures var o := ReceiveEntry(s, e, sender, ifIndex, grant);
            var k := IncomingKey(e, sender, ifIndex);
            if k in s.db.ok && Hops(s.db.ok[k]) <= Cost(e) then o == Outcome(s, true)
            else
              && o.ok == grant && o.state.timers == s.timers
              && o.state.db == Filed(s.db, k, IncomingInfo(e), grant)
  {
    hide Inv, KernelKeyOf, IsEntryValid, InstallRoute, Hops, LearnedRoute;
    var k := IncomingKey(e, sender, ifIndex);
    var info := IncomingInfo(e);
    IncomingIsLearned(e, sender, ifIndex);
    if k in s.db.ok {
      KindOf(s, k);
      CompareLearned(k, s.db.ok[k], info);
      if s.db.ok[k].metric > info.metric {
        WithdrawKeepsInv(s, k);
        InstallEffect(s.(kernel := s.kernel - {KernelKeyOf(k, s.db.ok[k])}, db := DbRemove(s.db, k)), k, info, grant);
      }
    } else if k in s.db.garbage {
      DropGarbageKeepsInv(s, k);
      InstallEffect(s.(db := DbRemove(s.db, k)), k, info, grant);
    } else {
      InstallEffect(s, k, info, grant);
    }
    FiledAgain(s.db, k, info, grant);
  }

  /** The database with the route `k` replaced by a changed one, or without it. */
  function Filed(db: Db, k: RouteKey, info: RouteInfo, grant: bool): Db {
    if grant then Db(db.ok[k := info.(changed := true)], db.garbage - {k}, true)
    else Db(db.ok - {k}, db.garbage - {k}, db.anyChanged)
  }

  lemma FiledAgain(db: Db, k: RouteKey, info: RouteInfo, grant: bool)
    ensures k in db.ok && k !in db.garbage ==> Filed(DbRemove(db, k), k, info, grant) == Filed(db, k, info, grant)
    ensures k !in db.ok ==> Filed(DbRemove(db, k), k, info, grant) == Filed(db, k, info, grant)
  {
    assert (db.ok - {k})[k := info.(changed := true)] == db.ok[k := info.(changed := true)];
    assert db.garbage - {k} - {k} == db.garbage - {k};
    assert db.ok - {k} - {k} == db.ok - {k};
    if k !in db.ok {
      assert db.ok - {k} == db.ok;
    }
    if k !in db.garbage {
      assert db.garbage - {k} == db.garbage;
    }
  }

  lemma InstallEffect(s: State, k: RouteKey, info: RouteInfo, grant: bool)
    requires Inv(s) && k !in s.db.ok && k !in s.db.garbage && LearnedRoute(k, info)
    ensures var o := InstallRoute(s, k, info, grant);
            o.ok == grant && o.state.timers == s.timers && o.state.db == Filed(s.db, k, info, grant)
  {
    hide Inv, LearnedRoute, KernelKeyOf;
    InstallKeepsInv(s, k, info, grant);
    assert s.db.ok - {k} == s.db.ok && s.db.garbage - {k} == s.db.garbage;
  }
}
