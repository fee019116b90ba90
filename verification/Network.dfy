/** A network of routers. Packets may be lost, duplicated and reordered: a packet
    once sent stays available, and is delivered any number of times or never.
    Routers time out, collect garbage and shut down at any moment.
 */
module Networks {
  import opened Wire
  import opened Routes
  import opened RouterSpec
  import opened RouterInvariant
  import opened RouterRuns
  import opened RouterTheorems

  type RouterId = nat

  /** What `from` sends on its interface `outIf` can arrive at `to` on `inIf`. */
  datatype Link = Link(from: RouterId, outIf: nat, to: RouterId, inIf: nat)

  datatype Topology = Topology(
    nets: map<RouterId, seq<Network>>,
    ifcs: map<RouterId, seq<nat>>,
    links: set<Link>,
    addr: (RouterId, nat) -> U32)

  ghost predicate WellFormed(tp: Topology) {
    && tp.nets.Keys == tp.ifcs.Keys
    && (forall r :: r in tp.nets ==> WellConfigured(tp.nets[r]))
    && (forall l :: l in tp.links ==> l.from in tp.nets && l.to in tp.nets)
  }

  datatype Packet = Packet(from: RouterId, ifIndex: nat, entries: seq<Entry>)

  /** The routers that are up, and every packet sent so far. */
  datatype Net = Net(routers: map<RouterId, State>, packets: set<Packet>)

  datatype Action =
    | Local(r: RouterId, ev: Event, out: seq<Message>)
    | Deliver(p: Packet, link: Link, grants: seq<bool>)

  function Packets(r: RouterId, out: seq<Message>): set<Packet> {
    set i | 0 <= i < |out| :: Packet(r, out[i].ifIndex, out[i].entries)
  }

  ghost predicate NetStep(tp: Topology, n: Net, a: Action, n': Net)
    requires WellFormed(tp)
  {
    match a
    case Local(r, ev, out) =>
      && r in n.routers && r in tp.ifcs && !ev.Response?
      && n'.packets == n.packets + Packets(r, out)
      && (if ev.Shutdown?
          then Step(tp.ifcs[r], n.routers[r], ev, Cleanup(n.routers[r]), out) && n'.routers == n.routers - {r}
          else r in n'.routers && Step(tp.ifcs[r], n.routers[r], ev, n'.routers[r], out)
               && n'.routers == n.routers[r := n'.routers[r]])
    case Deliver(p, link, grants) =>
      && p in n.packets && link in tp.links && link.from == p.from && link.outIf == p.ifIndex
      && link.to in n.routers && |grants| == |p.entries|
      && n'.packets == n.packets
      && n'.routers == n.routers[link.to := ReceiveResponse(n.routers[link.to], p.entries,
                                                            tp.addr(p.from, p.ifIndex), link.inIf, grants)]
  }

  ghost predicate NetInit(tp: Topology, n: Net)
    requires WellFormed(tp)
  {
    && n.packets == {} && n.routers.Keys == tp.nets.Keys
    && forall r :: r in n.routers ==> n.routers[r] == InitialState(tp.nets[r])
  }

  ghost predicate IsNetRun(tp: Topology, ns: seq<Net>, acts: seq<Action>) {
    && WellFormed(tp) && |ns| == |acts| + 1 && NetInit(tp, ns[0])
    && forall i :: 0 <= i < |acts| ==> NetStep(tp, ns[i], acts[i], ns[i + 1])
  }

  // --------------------------------------------------------------- distances

  /** Router `r` has configured the destination. */
  ghost predicate Originates(tp: Topology, r: RouterId, ip: U32, mask: U32)
    requires WellFormed(tp)
  {
    r in tp.nets && exists i :: 0 <= i < |tp.nets[r]| && IsNetwork(tp.nets[r], i, ip, mask)
  }

  ghost predicate IsNetwork(nets: seq<Network>, i: nat, ip: U32, mask: U32)
    requires WellConfigured(nets) && i < |nets|
  {
    LocalKey(nets[i]).ip == ip && LocalKey(nets[i]).mask == mask
  }

  /** Some router that has configured the destination is at most `d` hops away. */
  ghost predicate Within(tp: Topology, r: RouterId, ip: U32, mask: U32, d: nat)
    requires WellFormed(tp)
    decreases d
  {
    || Originates(tp, r, ip, mask)
    || (d > 0 && exists l :: l in tp.links && l.to == r && Within(tp, l.from, ip, mask, d - 1))
  }

  ghost predicate HopDistance(tp: Topology, r: RouterId, ip: U32, mask: U32, d: nat)
    requires WellFormed(tp)
  {
    Within(tp, r, ip, mask, d) && (d > 0 ==> !Within(tp, r, ip, mask, d - 1))
  }

  function Capped(d: nat): nat {
    if d + 1 < 16 then d + 1 else 16
  }

  /** The metric `m` is no better than the topology allows. */
  ghost predicate Supported(tp: Topology, r: RouterId, ip: U32, mask: U32, m: nat)
    requires WellFormed(tp)
  {
    exists d: nat :: Within(tp, r, ip, mask, d) && Capped(d) <= m
  }

  lemma {:induction false} WithinMore(tp: Topology, r: RouterId, ip: U32, mask: U32, d: nat)
    requires WellFormed(tp) && Within(tp, r, ip, mask, d)
    ensures Within(tp, r, ip, mask, d + 1)
    decreases d
  {
    if !Originates(tp, r, ip, mask) {
      var l :| l in tp.links && l.to == r && Within(tp, l.from, ip, mask, d - 1);
      WithinMore(tp, l.from, ip, mask, d - 1);
    }
  }

  /** From some distance follows the least one. */
  lemma {:induction false} LeastDistance(tp: Topology, r: RouterId, ip: U32, mask: U32, d: nat) returns (e: nat)
    requires WellFormed(tp) && Within(tp, r, ip, mask, d)
    ensures HopDistance(tp, r, ip, mask, e) && e <= d
    decreases d
  {
    if d > 0 && Within(tp, r, ip, mask, d - 1) {
      e := LeastDistance(tp, r, ip, mask, d - 1);
    } else {
      e := d;
    }
  }

  // ------------------------------------------------------------- soundness

  ghost predicate TableSupported(tp: Topology, r: RouterId, t: RouteTable)
    requires WellFormed(tp)
  {
    forall k :: k in t ==> Supported(tp, r, k.ip, k.mask, Hops(t[k]))
  }

  ghost predicate DbSupported(tp: Topology, r: RouterId, db: Db)
    requires WellFormed(tp)
  {
    TableSupported(tp, r, db.ok) && TableSupported(tp, r, db.garbage)
  }

  ghost predicate EntriesSupported(tp: Topology, r: RouterId, es: seq<Entry>)
    requires WellFormed(tp)
  {
    forall i :: 0 <= i < |es| ==> Supported(tp, r, es[i].ip, es[i].mask, Swap32(es[i].metric))
  }

  ghost predicate NetInv(tp: Topology, n: Net)
    requires WellFormed(tp)
  {
    && (forall r :: r in n.routers ==> r in tp.nets && Inv(n.routers[r]) && DbSupported(tp, r, n.routers[r].db))
    && (forall p :: p in n.packets ==> EntriesSupported(tp, p.from, p.entries))
  }

  lemma SupportedWeaker(tp: Topology, r: RouterId, ip: U32, mask: U32, m: nat, m': nat)
    requires WellFormed(tp) && Supported(tp, r, ip, mask, m) && (m <= m' || m' >= 16)
    ensures Supported(tp, r, ip, mask, m')
  {
    var d: nat :| Within(tp, r, ip, mask, d) && Capped(d) <= m;
    assert Capped(d) <= m';
  }

  /** One more hop costs one more. */
  lemma SupportedNext(tp: Topology, l: Link, ip: U32, mask: U32, m: U32)
    requires WellFormed(tp) && l in tp.links && IsMetricValid(m) && Supported(tp, l.from, ip, mask, m)
    ensures Supported(tp, l.to, ip, mask, UpdateMetric(m))
  {
    var d: nat :| Within(tp, l.from, ip, mask, d) && Capped(d) <= m;
    assert Within(tp, l.to, ip, mask, d + 1);
    assert Capped(d + 1) <= UpdateMetric(m);
  }

  lemma InitialSupported(tp: Topology, r: RouterId)
    requires WellFormed(tp) && r in tp.nets
    ensures DbSupported(tp, r, InitialState(tp.nets[r]).db)
  {
    hide LocalKey, Swap32;
    var nets := tp.nets[r];
    InitialKeys(nets);
    var t := InitialState(nets).db.ok;
    SmallMetric(1);
    forall k | k in t
      ensures Supported(tp, r, k.ip, k.mask, Hops(t[k]))
    {
      var i :| 0 <= i < |nets| && k == LocalKey(nets[i]);
      assert IsNetwork(nets, i, k.ip, k.mask);
      assert Within(tp, r, k.ip, k.mask, 0) && Capped(0) <= Hops(t[k]);
    }
  }

  lemma EntrySupported(tp: Topology, r: RouterId, s: State, e: Entry, sender: U32, ifIndex: nat, grant: bool)
    requires WellFormed(tp) && Inv(s) && DbSupported(tp, r, s.db)
    requires IsEntryValid(EntryNtoh(e)) ==> Supported(tp, r, e.ip, e.mask, Cost(e))
    ensures DbSupported(tp, r, ReceiveEntry(s, e, sender, ifIndex, grant).state.db)
  {
    hide Inv, IsEntryValid, ReceiveEntry, Supported;
    var db := ReceiveEntry(s, e, sender, ifIndex, grant).state.db;
    forall k | k in db.ok || k in db.garbage
      ensures k in db.ok ==> Supported(tp, r, k.ip, k.mask, Hops(db.ok[k]))
      ensures k in db.garbage ==> Supported(tp, r, k.ip, k.mask, Hops(db.garbage[k]))
    {
      if IsEntryValid(EntryNtoh(e)) && k == IncomingKey(e, sender, ifIndex) {
        EntryUpdatesOne(s, e, sender, ifIndex, grant);
        IncomingIsLearned(e, sender, ifIndex);
      } else {
        EntryKeepsOthers(s, e, sender, ifIndex, grant, k);
      }
    }
  }

  lemma {:induction false} ResponseSupported(tp: Topology, l: Link, s: State, es: seq<Entry>, sender: U32, grants: seq<bool>)
    requires WellFormed(tp) && l in tp.links && Inv(s) && DbSupported(tp, l.to, s.db)
    requires EntriesSupported(tp, l.from, es) && |grants| == |es|
    ensures DbSupported(tp, l.to, ReceiveResponse(s, es, sender, l.inIf, grants).db)
    decreases |es|
  {
    hide Inv, IsUnicastAddress, IsNetMaskValid, ReceiveEntry, Supported, DbSupported;
    if es != [] {
      var n := |es| - 1;
      ResponseSupported(tp, l, s, es[..n], sender, grants[..n]);
      ReceiveResponseKeepsInv(s, es[..n], sender, l.inIf, grants[..n]);
      var e := es[n];
      if IsEntryValid(EntryNtoh(e)) {
        SupportedNext(tp, l, e.ip, e.mask, Swap32(e.metric));
      }
      EntrySupported(tp, l.to, ReceiveResponse(s, es[..n], sender, l.inIf, grants[..n]), e, sender, l.inIf, grants[n]);
    }
  }

  /** Every entry of an advertisement is a stored route of the sender. */
  lemma AdvertSupported(tp: Topology, r: RouterId, es: seq<Entry>, db: Db, dest: nat, onlyChanged: bool)
    requires WellFormed(tp) && DbSupported(tp, r, db) && Advertises(es, db, dest, onlyChanged)
    ensures EntriesSupported(tp, r, es)
  {
    hide Supported;
    var oks, gcs :| AdvertisesAs(es, db, dest, onlyChanged, oks, gcs);
    forall i | 0 <= i < |es|
      ensures Supported(tp, r, es[i].ip, es[i].mask, Swap32(es[i].metric))
    {
      if i < |oks| {
        assert oks[i] in oks && es[i] == AdvertEntry(oks[i], db.ok[oks[i]]);
      } else {
        var j := i - |oks|;
        assert gcs[j] in gcs && es[i] == AdvertEntry(gcs[j], db.garbage[gcs[j]]);
      }
    }
  }

  lemma PoisonSupported(tp: Topology, r: RouterId, db: Db)
    requires WellFormed(tp) && DbSupported(tp, r, db)
    ensures DbSupported(tp, r, Poisoned(db))
  {
    hide Supported, Swap32;
    SmallMetric(INFINITY_METRIC);
    var db' := Poisoned(db);
    forall k | k in db.ok || k in db.garbage
      ensures k in db.ok ==> Supported(tp, r, k.ip, k.mask, Hops(db'.ok[k]))
      ensures k in db.garbage ==> Supported(tp, r, k.ip, k.mask, Hops(db'.garbage[k]))
    {
      if k in db.ok {
        SupportedWeaker(tp, r, k.ip, k.mask, Hops(db.ok[k]), 16);
      }
      if k in db.garbage {
        SupportedWeaker(tp, r, k.ip, k.mask, Hops(db.garbage[k]), 16);
      }
    }
  }

  lemma MarkSupported(tp: Topology, r: RouterId, db: Db)
    requires WellFormed(tp) && DbSupported(tp, r, db)
    ensures DbSupported(tp, r, DbMarkUnchanged(db))
  {
    hide Supported;
  }

  lemma SweepSupported(tp: Topology, r: RouterId, s: State, s': State, now: int, expired: set<RouteKey>)
    requires WellFormed(tp) && Inv(s) && DbSupported(tp, r, s.db) && TimeoutSwept(s, s', now, expired)
    ensures DbSupported(tp, r, s'.db)
  {
    hide Supported, OkSwept, GarbageSwept, Swap32;
    forall k | k in s'.db.ok
      ensures Supported(tp, r, k.ip, k.mask, Hops(s'.db.ok[k]))
    {
      SweptOkRoute(s.db.ok, s'.db.ok, expired, k);
      assert Hops(s'.db.ok[k]) == Hops(s.db.ok[k]);
    }
    forall k | k in s'.db.garbage
      ensures Supported(tp, r, k.ip, k.mask, Hops(s'.db.garbage[k]))
    {
      SweptGarbageRoute(s, s', now, expired, k);
      if k in expired {
        SupportedWeaker(tp, r, k.ip, k.mask, Hops(s.db.ok[k]), Hops(s'.db.garbage[k]));
      }
    }
  }

  /** Every event of a router that is not a reception keeps its routes supported,
      and what it sends is supported. */
  lemma LocalSupported(tp: Topology, r: RouterId, s: State, ev: Event, s': State, out: seq<Message>)
    requires WellFormed(tp) && r in tp.ifcs && Inv(s) && DbSupported(tp, r, s.db)
    requires Step(tp.ifcs[r], s, ev, s', out) && !ev.Response?
    ensures !ev.Shutdown? ==> DbSupported(tp, r, s'.db)
    ensures forall i :: 0 <= i < |out| ==> EntriesSupported(tp, r, out[i].entries)
  {
    hide DbSupported, EntriesSupported, TimeoutSwept, Advertises, DbMarkUnchanged, Poisoned, LearnedRoute, LocalRoute, DeadRoute;
    MarkSupported(tp, r, s.db);
    PoisonSupported(tp, r, s.db);
    var from := if ev.Shutdown? then Poisoned(s.db) else s.db;
    var onlyChanged := ev.Check?;
    forall i | 0 <= i < |out|
      ensures EntriesSupported(tp, r, out[i].entries)
    {
      var dest := if ev.Request? then ev.ifIndex else tp.ifcs[r][i];
      AdvertSupported(tp, r, out[i].entries, from, dest, onlyChanged);
    }
    if ev.TimeoutTick? {
      var expired :| TimeoutSwept(s, s', ev.now, expired);
      SweepSupported(tp, r, s, s', ev.now, expired);
    } else if ev.GcTick? {
      GcSupported(tp, r, s, ev.now);
    }
  }

  lemma GcSupported(tp: Topology, r: RouterId, s: State, now: int)
    requires WellFormed(tp) && DbSupported(tp, r, s.db)
    ensures DbSupported(tp, r, GcSwept(s, now).db)
  {
    hide Supported;
  }

  lemma NetStepKeepsInv(tp: Topology, n: Net, a: Action, n': Net)
    requires WellFormed(tp) && NetInv(tp, n) && NetStep(tp, n, a, n')
    ensures NetInv(tp, n')
  {
    hide Inv, DbSupported, EntriesSupported, Step, Cleanup, WellFormed;
    match a
    case Local(r, ev, out) =>
      var s' := if ev.Shutdown? then Cleanup(n.routers[r]) else n'.routers[r];
      LocalSupported(tp, r, n.routers[r], ev, s', out);
      if !ev.Shutdown? {
        StepKeepsInv(tp.ifcs[r], n.routers[r], ev, s', out);
      }
    case Deliver(p, link, grants) =>
      var s := n.routers[link.to];
      ReceiveResponseKeepsInv(s, p.entries, tp.addr(p.from, p.ifIndex), link.inIf, grants);
      ResponseSupported(tp, link, s, p.entries, tp.addr(p.from, p.ifIndex), grants);
  }

  lemma NetInitInv(tp: Topology, n: Net)
    requires WellFormed(tp) && NetInit(tp, n)
    ensures NetInv(tp, n)
  {
    hide Inv, DbSupported, InitialState;
    forall r | r in n.routers
      ensures Inv(n.routers[r]) && DbSupported(tp, r, n.routers[r].db)
    {
      InitialInv(tp.nets[r]);
      InitialSupported(tp, r);
    }
  }

  lemma {:induction false} ReachableNetInv(tp: Topology, ns: seq<Net>, acts: seq<Action>, i: nat)
    requires IsNetRun(tp, ns, acts) && i < |ns|
    ensures NetInv(tp, ns[i])
    decreases i
  {
    hide NetInv, NetStep, NetInit, WellFormed;
    if i == 0 {
      NetInitInv(tp, ns[0]);
    } else {
      ReachableNetInv(tp, ns, acts, i - 1);
      NetStepKeepsInv(tp, ns[i - 1], acts[i - 1], ns[i]);
    }
  }

  /** In every state of every run, a route at any router has a metric of at least
      one more than its distance from the nearest router that configured the
      destination, or 16; in particular such a router is connected. */
  lemma StoredMetricsSound(tp: Topology, ns: seq<Net>, acts: seq<Action>, i: nat, r: RouterId, k: RouteKey)
    requires IsNetRun(tp, ns, acts) && i < |ns| && r in ns[i].routers && Known(ns[i].routers[r].db, k)
    ensures exists d: nat :: HopDistance(tp, r, k.ip, k.mask, d) && Hops(RouteOf(ns[i].routers[r].db, k)) >= Capped(d)
  {
    hide NetStep, NetInit, Inv, Hops, Within, HopDistance;
    ReachableNetInv(tp, ns, acts, i);
    var m := Hops(RouteOf(ns[i].routers[r].db, k));
    assert Supported(tp, r, k.ip, k.mask, m);
    var e: nat :| Within(tp, r, k.ip, k.mask, e) && Capped(e) <= m;
    var d := LeastDistance(tp, r, k.ip, k.mask, e);
    assert Capped(d) <= Capped(e);
  }

  /** The same for every entry of every packet, at its sender. */
  lemma SentMetricsSound(tp: Topology, ns: seq<Net>, acts: seq<Action>, i: nat, p: Packet, j: nat)
    requires IsNetRun(tp, ns, acts) && i < |ns| && p in ns[i].packets && j < |p.entries|
    ensures exists d: nat :: HopDistance(tp, p.from, p.entries[j].ip, p.entries[j].mask, d) && Swap32(p.entries[j].metric) >= Capped(d)
  {
    hide NetStep, NetInit, Inv, Swap32, Within, HopDistance;
    ReachableNetInv(tp, ns, acts, i);
    var e := p.entries[j];
    assert Supported(tp, p.from, e.ip, e.mask, Swap32(e.metric));
    var far: nat :| Within(tp, p.from, e.ip, e.mask, far) && Capped(far) <= Swap32(e.metric);
    var d := LeastDistance(tp, p.from, e.ip, e.mask, far);
    assert Capped(d) <= Capped(far);
  }

  /** The distance is unique, so the bound is a bound by the distance. */
  lemma DistanceUnique(tp: Topology, r: RouterId, ip: U32, mask: U32, d: nat, e: nat)
    requires WellFormed(tp) && HopDistance(tp, r, ip, mask, d) && HopDistance(tp, r, ip, mask, e)
    ensures d == e
  {
    if d < e {
      WithinUpTo(tp, r, ip, mask, d, e - 1);
    } else if e < d {
      WithinUpTo(tp, r, ip, mask, e, d - 1);
    }
  }

  lemma {:induction false} WithinUpTo(tp: Topology, r: RouterId, ip: U32, mask: U32, d: nat, e: nat)
    requires WellFormed(tp) && d <= e && Within(tp, r, ip, mask, d)
    ensures Within(tp, r, ip, mask, e)
    decreases e - d
  {
    if d < e {
      WithinMore(tp, r, ip, mask, d);
      WithinUpTo(tp, r, ip, mask, d + 1, e);
    }
  }
}
