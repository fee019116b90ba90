/** What every message of every run holds, field by field. */
module Announcements {
  import opened Wire
  import opened Routes
  import opened RouterSpec
  import opened RouterInvariant
  import opened RouterRuns

  /** The keys `ks` are, once each, those of the table `t` that belong to another
      interface than `dest`, and are marked changed if only changes are asked for. */
  ghost predicate Lists(ks: seq<RouteKey>, t: RouteTable, dest: nat, onlyChanged: bool) {
    && (forall i, j :: 0 <= i < j < |ks| ==> ks[i] != ks[j])
    && (forall k :: k in ks <==> k in t && k.ifIndex != dest && (onlyChanged ==> t[k].changed))
  }

  /** The entry announces the route `k`: at 16 hops if it is withdrawn, and as it is
      stored otherwise. The next hop is left to the receiver. */
  predicate Announces(e: Entry, k: RouteKey, info: RouteInfo, withdrawn: bool) {
    && e.ip == k.ip && e.mask == k.mask && e.nextHop == 0
    && e.family == info.family && e.tag == info.tag
    && (if withdrawn then Swap32(e.metric) == 16 else e.metric == info.metric)
  }

  /** The entries announce the listed routes, one for one and in this order. */
  ghost predicate AnnouncesAll(es: seq<Entry>, db: Db, oks: seq<RouteKey>, gcs: seq<RouteKey>, withdrawn: bool) {
    && (forall k :: k in oks ==> k in db.ok) && (forall k :: k in gcs ==> k in db.garbage)
    && |es| == |oks| + |gcs|
    && (forall n :: 0 <= n < |oks| ==> Announces(es[n], oks[n], db.ok[oks[n]], withdrawn))
    && (forall n :: 0 <= n < |gcs| ==> Announces(es[|oks| + n], gcs[n], db.garbage[gcs[n]], withdrawn))
  }

  /** The entries announce the keys of one table. */
  lemma EntriesAnnounce(t: RouteTable, ks: seq<RouteKey>, n: nat)
    requires (forall k :: k in ks ==> k in t) && n < |ks|
    ensures ks[n] in t && Announces(EntriesOf(t, ks)[n], ks[n], t[ks[n]], false)
  {
  }

  lemma SelectedLists(ks: seq<RouteKey>, t: RouteTable, dest: nat, onlyChanged: bool)
    requires Enumerates(ks, Selected(t, dest, onlyChanged))
    ensures Lists(ks, t, dest, onlyChanged)
  {
  }

  lemma AdvertisedExactly(es: seq<Entry>, db: Db, dest: nat, onlyChanged: bool) returns (oks: seq<RouteKey>, gcs: seq<RouteKey>)
    requires Advertises(es, db, dest, onlyChanged)
    ensures Lists(oks, db.ok, dest, onlyChanged) && Lists(gcs, db.garbage, dest, onlyChanged)
    ensures AnnouncesAll(es, db, oks, gcs, false)
  {
    hide Announces, Enumerates, Selected;
    oks, gcs :| AdvertisesAs(es, db, dest, onlyChanged, oks, gcs);
    SelectedLists(oks, db.ok, dest, onlyChanged);
    SelectedLists(gcs, db.garbage, dest, onlyChanged);
    forall n | 0 <= n < |oks|
      ensures oks[n] in db.ok && Announces(es[n], oks[n], db.ok[oks[n]], false)
    {
      EntriesAnnounce(db.ok, oks, n);
    }
    forall n | 0 <= n < |gcs|
      ensures gcs[n] in db.garbage && Announces(es[|oks| + n], gcs[n], db.garbage[gcs[n]], false)
    {
      EntriesAnnounce(db.garbage, gcs, n);
    }
  }

  lemma WithdrawnExactly(es: seq<Entry>, db: Db, dest: nat) returns (oks: seq<RouteKey>, gcs: seq<RouteKey>)
    requires Advertises(es, Poisoned(db), dest, false)
    ensures Lists(oks, db.ok, dest, false) && Lists(gcs, db.garbage, dest, false)
    ensures AnnouncesAll(es, db, oks, gcs, true)
  {
    hide Swap32, Advertises;
    SmallMetric(INFINITY_METRIC);
    oks, gcs := AdvertisedExactly(es, Poisoned(db), dest, false);
  }

  /** Every message of every run holds exactly the routes of both tables that belong
      to another interface, each once: after a triggered update only the changed
      ones, on shutdown all of them at 16 hops. */
  lemma SentExactly(r: Run, i: nat, j: nat) returns (oks: seq<RouteKey>, gcs: seq<RouteKey>)
    requires IsRun(r) && i < |r.events| && j < |r.outs[i]|
    ensures var db := r.states[i].db;
            var msg := r.outs[i][j];
            && Lists(oks, db.ok, msg.ifIndex, r.events[i].Check?)
            && Lists(gcs, db.garbage, msg.ifIndex, r.events[i].Check?)
            && AnnouncesAll(msg.entries, db, oks, gcs, r.events[i].Shutdown?)
  {
    hide Advertises, Poisoned, Lists, AnnouncesAll, InitialState, TimeoutSwept, TablesOk;
    assert Step(r.ifcs, r.states[i], r.events[i], r.states[i + 1], r.outs[i]);
    var db, msg := r.states[i].db, r.outs[i][j];
    if r.events[i].Shutdown? {
      oks, gcs := WithdrawnExactly(msg.entries, db, msg.ifIndex);
    } else {
      oks, gcs := AdvertisedExactly(msg.entries, db, msg.ifIndex, r.events[i].Check?);
    }
  }

  /** Who is sent something: every interface, on a periodic update, on shutdown, and
      on a check if a change is pending and the lock is open; on a request at most the
      interface it came from. */
  lemma SentTo(r: Run, i: nat)
    requires IsRun(r) && i < |r.events|
    ensures var ev := r.events[i];
            var out := r.outs[i];
            var s := r.states[i];
            if ev.UpdateTick? || ev.Shutdown? || (ev.Check? && s.db.anyChanged && !s.timers.lock)
            then |out| == |r.ifcs| && forall j :: 0 <= j < |out| ==> out[j].ifIndex == r.ifcs[j]
            else if ev.Request? then |out| <= 1 && (out != [] ==> out[0].ifIndex == ev.ifIndex)
            else out == []
  {
    hide Advertises, Poisoned, InitialState, TimeoutSwept, TablesOk;
    assert Step(r.ifcs, r.states[i], r.events[i], r.states[i + 1], r.outs[i]);
  }

  /** The route `k` is stored as `info` in one of the tables. */
  predicate StoredAs(db: Db, k: RouteKey, info: RouteInfo) {
    (k in db.ok && db.ok[k] == info) || (k in db.garbage && db.garbage[k] == info)
  }

  /** Split horizon: no message of a run holds anything learned on the interface it
      goes to. Every entry is a stored route of another interface, a changed one in a
      triggered update, and at 16 hops on shutdown. */
  lemma SplitHorizon(r: Run, i: nat, j: nat, n: nat)
    requires IsRun(r) && i < |r.events| && j < |r.outs[i]| && n < |r.outs[i][j].entries|
    ensures exists k, info :: StoredAs(r.states[i].db, k, info) && k.ifIndex != r.outs[i][j].ifIndex &&
              Announces(r.outs[i][j].entries[n], k, info, r.events[i].Shutdown?) && (r.events[i].Check? ==> info.changed)
  {
    hide Step, InitialState, Announces;
    var db := r.states[i].db;
    var oks, gcs := SentExactly(r, i, j);
    if n < |oks| {
      assert oks[n] in oks && StoredAs(db, oks[n], db.ok[oks[n]]);
    } else {
      var k := gcs[n - |oks|];
      assert r.outs[i][j].entries[n] == r.outs[i][j].entries[|oks| + (n - |oks|)];
      assert k in gcs && StoredAs(db, k, db.garbage[k]);
    }
  }

  /** The last messages of a run withdraw every route: to each interface goes every
      route of another one, at 16 hops, and nothing that is not at 16 hops. */
  lemma ShutdownWithdraws(r: Run, i: nat, j: nat)
    requires IsRun(r) && i < |r.events| && r.events[i].Shutdown? && j < |r.ifcs|
    ensures |r.outs[i]| == |r.ifcs| && r.outs[i][j].ifIndex == r.ifcs[j]
    ensures forall e :: e in r.outs[i][j].entries ==> Swap32(e.metric) == 16
    ensures forall k, info :: StoredAs(r.states[i].db, k, info) && k.ifIndex != r.ifcs[j] ==>
              Entry(info.family, info.tag, k.ip, k.mask, 0, 0x1000_0000) in r.outs[i][j].entries
  {
    hide Step, InitialState, Swap32;
    SentTo(r, i);
    var db := r.states[i].db;
    var es := r.outs[i][j].entries;
    var oks, gcs := SentExactly(r, i, j);
    forall n | 0 <= n < |es|
      ensures Swap32(es[n].metric) == 16 && es[n].metric == 0x1000_0000
    {
      if n >= |oks| {
        assert Announces(es[|oks| + (n - |oks|)], gcs[n - |oks|], db.garbage[gcs[n - |oks|]], true);
      }
      Swap32Twice(es[n].metric);
      SmallMetric(16);
    }
    forall k, info | StoredAs(db, k, info) && k.ifIndex != r.ifcs[j]
      ensures Entry(info.family, info.tag, k.ip, k.mask, 0, 0x1000_0000) in es
    {
      if k in db.ok && db.ok[k] == info {
        var n :| 0 <= n < |oks| && oks[n] == k;
        assert es[n] in es;
      } else {
        var n :| 0 <= n < |gcs| && gcs[n] == k;
        assert es[|oks| + n] in es;
      }
    }
  }
}
