/** How fast a destination becomes known: after `k` rounds of full advertisements
    in which nothing is lost, a router `k` hops away has a route of metric at most
    1 + k. Split horizon does not block a path that leaves every router on
    another interface than it entered.
 */
module Convergence {
  import opened Wire
  import opened Routes
  import opened RouterSpec
  import opened RouterInvariant
  import opened RouterRuns
  import opened RouterTheorems
  import opened Networks

  // -------------------------------------------------- what calm steps keep

  /** A response that is granted where it offers the route `k` only adds and
      improves that route, whatever becomes of its other entries. */
  lemma {:induction false} ResponseOnlyImproves(s: State, es: seq<Entry>, sender: U32, ifIndex: nat, grants: seq<bool>, k: RouteKey)
    requires Inv(s) && |grants| == |es| && GrantedFor(es, sender, ifIndex, grants, k)
    ensures var t := ReceiveResponse(s, es, sender, ifIndex, grants).db.ok;
            && (k in s.db.ok ==> k in t && Hops(t[k]) <= Hops(s.db.ok[k]))
            && (forall i :: 0 <= i < |es| && IsEntryValid(EntryNtoh(es[i])) && IncomingKey(es[i], sender, ifIndex) == k ==>
                              k in t && Hops(t[k]) <= Cost(es[i]))
    decreases |es|
  {
    hide Inv, IsEntryValid, ReceiveEntry, Hops;
    if es != [] {
      var n := |es| - 1;
      assert forall i :: 0 <= i < n ==> es[..n][i] == es[i] && grants[..n][i] == grants[i];
      ResponseOnlyImproves(s, es[..n], sender, ifIndex, grants[..n], k);
      ReceiveResponseKeepsInv(s, es[..n], sender, ifIndex, grants[..n]);
      EntryOnlyImproves(ReceiveResponse(s, es[..n], sender, ifIndex, grants[..n]), es[n], sender, ifIndex, grants[n], k);
    }
  }

  lemma EntryOnlyImproves(s: State, e: Entry, sender: U32, ifIndex: nat, grant: bool, k: RouteKey)
    requires Inv(s) && (IsEntryValid(EntryNtoh(e)) && IncomingKey(e, sender, ifIndex) == k ==> grant)
    ensures var t := ReceiveEntry(s, e, sender, ifIndex, grant).state.db.ok;
            && (k in s.db.ok ==> k in t && Hops(t[k]) <= Hops(s.db.ok[k]))
            && (IsEntryValid(EntryNtoh(e)) && IncomingKey(e, sender, ifIndex) == k ==> k in t && Hops(t[k]) <= Cost(e))
  {
    hide Inv, IsEntryValid, ReceiveEntry, LearnedRoute;
    if IsEntryValid(EntryNtoh(e)) && IncomingKey(e, sender, ifIndex) == k {
      EntryUpdatesOne(s, e, sender, ifIndex, grant);
      IncomingIsLearned(e, sender, ifIndex);
    } else {
      EntryKeepsOthers(s, e, sender, ifIndex, grant, k);
    }
  }

  /** At router `r` the action is no timeout tick and no shutdown, and a delivery to
      it is granted where it offers the route `k`. Nothing is asked of other
      routers or other routes. */
  ghost predicate CalmFor(tp: Topology, a: Action, r: RouterId, k: RouteKey) {
    match a
    case Local(q, ev, _) => q == r ==> !ev.TimeoutTick? && !ev.Shutdown?
    case Deliver(p, link, grants) =>
      link.to == r && |grants| == |p.entries| ==> GrantedFor(p.entries, tp.addr(p.from, p.ifIndex), link.inIf, grants, k)
  }

  /** Router `r` has an ok route `k` of at most `m` hops. */
  ghost predicate Holds(n: Net, r: RouterId, k: RouteKey, m: nat) {
    r in n.routers && k in n.routers[r].db.ok && Hops(n.routers[r].db.ok[k]) <= m
  }

  lemma CalmEventKeeps(ifcs: seq<nat>, s: State, ev: Event, s': State, out: seq<Message>, k: RouteKey)
    requires Inv(s) && Step(ifcs, s, ev, s', out) && !ev.TimeoutTick? && !ev.Shutdown? && !ev.Response?
    requires k in s.db.ok
    ensures k in s'.db.ok && Hops(s'.db.ok[k]) == Hops(s.db.ok[k])
  {
    hide Multicasts, Advertises, LearnedRoute, LocalRoute, DeadRoute, KernelKeys, Swap32;
    if ev.GcTick? {
      GcLeavesOk(s.db, ev.now);
    }
  }

  lemma CalmStepKeeps(tp: Topology, n: Net, a: Action, n': Net, r: RouterId, k: RouteKey, m: nat)
    requires WellFormed(tp) && NetInv(tp, n) && NetStep(tp, n, a, n') && CalmFor(tp, a, r, k) && Holds(n, r, k, m)
    ensures Holds(n', r, k, m)
  {
    hide Inv, DbSupported, EntriesSupported, Step, WellFormed, Hops, GrantedFor;
    match a
    case Local(q, ev, out) =>
      if q == r {
        CalmEventKeeps(tp.ifcs[q], n.routers[q], ev, n'.routers[q], out, k);
      }
    case Deliver(p, link, grants) =>
      if link.to == r {
        ResponseOnlyImproves(n.routers[r], p.entries, tp.addr(p.from, p.ifIndex), link.inIf, grants, k);
      }
  }

  /** From step `i` to step `j` all is calm for the route `k` at router `r`. */
  ghost predicate CalmDuring(tp: Topology, acts: seq<Action>, i: nat, j: nat, r: RouterId, k: RouteKey)
    requires j <= |acts|
  {
    forall x :: i <= x < j ==> CalmFor(tp, acts[x], r, k)
  }

  lemma {:induction false} CalmRunKeeps(tp: Topology, ns: seq<Net>, acts: seq<Action>, i: nat, j: nat, r: RouterId, k: RouteKey, m: nat)
    requires IsNetRun(tp, ns, acts) && i <= j < |ns| && Holds(ns[i], r, k, m)
    requires CalmDuring(tp, acts, i, j, r, k)
    ensures Holds(ns[j], r, k, m)
    decreases j
  {
    hide NetInv, NetStep, NetInit, WellFormed, CalmFor, Holds;
    if i < j {
      CalmRunKeeps(tp, ns, acts, i, j - 1, r, k, m);
      ReachableNetInv(tp, ns, acts, j - 1);
      CalmStepKeeps(tp, ns[j - 1], acts[j - 1], ns[j], r, k, m);
    }
  }

  // --------------------------------------------------------- local routes

  lemma LocalStepHeld(tp: Topology, n: Net, a: Action, n': Net, r: RouterId, k: RouteKey)
    requires WellFormed(tp) && NetInv(tp, n) && NetStep(tp, n, a, n') && r in n'.routers
    ensures r in n.routers
    ensures k in n.routers[r].db.ok && n.routers[r].db.ok[k].isLocal ==>
              k in n'.routers[r].db.ok && n'.routers[r].db.ok[k].isLocal && n'.routers[r].db.ok[k].metric == n.routers[r].db.ok[k].metric
  {
    hide Inv, DbSupported, EntriesSupported, Step, WellFormed;
    if k in n.routers[r].db.ok && n.routers[r].db.ok[k].isLocal {
      match a
      case Local(q, ev, out) =>
        if q == r {
          OtherEventsKeepMetric(tp.ifcs[q], n.routers[q], ev, n'.routers[q], out, k);
        }
      case Deliver(p, link, grants) =>
        if link.to == r {
          ResponseKeepsLocal(n.routers[r], p.entries, tp.addr(p.from, p.ifIndex), link.inIf, grants, k);
        }
    }
  }

  /** In every state of every run, a router that is up holds its configured networks
      at metric 1. */
  lemma {:induction false} LocalsHeld(tp: Topology, ns: seq<Net>, acts: seq<Action>, r: RouterId, i: nat, b: nat)
    requires IsNetRun(tp, ns, acts) && b < |ns| && r in ns[b].routers
    requires r in tp.nets && i < |tp.nets[r]| && PrefixOk(tp.nets[r][i])
    ensures var t := ns[b].routers[r].db.ok;
            var k := LocalKey(tp.nets[r][i]);
            k in t && t[k].isLocal && t[k].metric == Swap32(1)
    decreases b
  {
    hide NetStep, LocalKey, Swap32, NetInv;
    if b == 0 {
      InitialKeys(tp.nets[r]);
      assert LocalKey(tp.nets[r][i]) in InitialState(tp.nets[r]).db.ok;
    } else {
      ReachableNetInv(tp, ns, acts, b - 1);
      LocalStepHeld(tp, ns[b - 1], acts[b - 1], ns[b], r, LocalKey(tp.nets[r][i]));
      LocalsHeld(tp, ns, acts, r, i, b - 1);
    }
  }

  // ------------------------------------------------------------- one hop

  /** At step `i` the sender advertises everything, and at step `j` what it sent
      on this link arrives. */
  ghost predicate Crosses(tp: Topology, acts: seq<Action>, l: Link, i: nat, j: nat) {
    && i < j < |acts|
    && acts[i].Local? && acts[i].r == l.from && acts[i].ev.UpdateTick?
    && acts[j].Deliver? && acts[j].link == l
    && exists x :: 0 <= x < |acts[i].out| && acts[i].out[x].ifIndex == l.outIf && acts[j].p.entries == acts[i].out[x].entries
  }

  /** The key under which the receiver of a link files a destination. */
  function HopKey(tp: Topology, l: Link, ip: U32, mask: U32): RouteKey {
    RouteKey(l.inIf, ip, mask, tp.addr(l.from, l.outIf))
  }

  predicate Routable(ip: U32, mask: U32) {
    IsUnicastAddress(ip) && IsNetMaskValid(mask)
  }

  lemma AdvertisedEntry(ifcs: seq<nat>, s: State, s': State, sent: bool, out: seq<Message>, x: nat, k: RouteKey)
    requires Step(ifcs, s, UpdateTick(sent), s', out) && x < |out| && k in s.db.ok && k.ifIndex != out[x].ifIndex
    ensures AdvertEntry(k, s.db.ok[k]) in out[x].entries
  {
    hide Advertises;
    AdvertHolds(out[x].entries, s.db, ifcs[x], false, k);
  }

  lemma AdvertIsValid(k: RouteKey, info: RouteInfo)
    requires MetricStored(info) && Routable(k.ip, k.mask)
    ensures IsEntryValid(EntryNtoh(AdvertEntry(k, info)))
    ensures Cost(AdvertEntry(k, info)) == UpdateMetric(Hops(info))
  {
  }

  /** A route held at the sender when it advertises is held, one hop further, at
      the receiver when the advertisement arrives, if the kernel there grants it. */
  lemma OneHop(tp: Topology, ns: seq<Net>, acts: seq<Action>, l: Link, i: nat, j: nat, k: RouteKey, d: nat)
    requires IsNetRun(tp, ns, acts) && Crosses(tp, acts, l, i, j)
    requires CalmFor(tp, acts[j], l.to, HopKey(tp, l, k.ip, k.mask))
    requires Holds(ns[i], l.from, k, Capped(d)) && k.ifIndex != l.outIf && Routable(k.ip, k.mask)
    ensures Holds(ns[j + 1], l.to, HopKey(tp, l, k.ip, k.mask), Capped(d + 1))
  {
    hide NetInit, WellFormed, Inv, IsEntryValid, Routable, Swap32, Step, DbSupported, EntriesSupported, AdvertEntry, LearnedRoute, LocalRoute, GrantedFor;
    ReachableNetInv(tp, ns, acts, i);
    ReachableNetInv(tp, ns, acts, j);
    assert NetStep(tp, ns[i], acts[i], ns[i + 1]) && NetStep(tp, ns[j], acts[j], ns[j + 1]);
    var s := ns[i].routers[l.from];
    var x :| 0 <= x < |acts[i].out| && acts[i].out[x].ifIndex == l.outIf && acts[j].p.entries == acts[i].out[x].entries;
    AdvertisedEntry(tp.ifcs[l.from], s, ns[i + 1].routers[l.from], acts[i].ev.sent, acts[i].out, x, k);
    var es := acts[j].p.entries;
    var y :| 0 <= y < |es| && es[y] == AdvertEntry(k, s.db.ok[k]);
    StoredOk(s, k);
    AdvertIsValid(k, s.db.ok[k]);
    ArrivingEntry(tp, k, s.db.ok[k], l);
    ResponseOnlyImproves(ns[j].routers[l.to], es, tp.addr(l.from, l.outIf), l.inIf, acts[j].grants, HopKey(tp, l, k.ip, k.mask));
  }

  lemma StoredOk(s: State, k: RouteKey)
    requires Inv(s) && k in s.db.ok
    ensures MetricStored(s.db.ok[k])
  {
    KindOf(s, k);
  }

  lemma ArrivingEntry(tp: Topology, k: RouteKey, info: RouteInfo, l: Link)
    ensures IncomingKey(AdvertEntry(k, info), tp.addr(l.from, l.outIf), l.inIf) == HopKey(tp, l, k.ip, k.mask)
  {
  }

  // ------------------------------------------------------------------ rounds

  /** Between steps `a` and `b` the link carries a full advertisement. */
  ghost predicate Carries(tp: Topology, acts: seq<Action>, l: Link, a: nat, b: nat) {
    exists i: nat, j: nat :: a <= i < j < b && Crosses(tp, acts, l, i, j)
  }

  /** A path of links that leaves each router on another interface than it came
      in on. */
  ghost predicate IsPath(tp: Topology, path: seq<Link>) {
    && (forall i :: 0 <= i < |path| ==> path[i] in tp.links)
    && (forall i :: 0 < i < |path| ==> path[i].from == path[i - 1].to && path[i].outIf != path[i - 1].inIf)
  }

  /** Round `m` of the path lasts from step `ends[m - 1]` to step `ends[m]`, and the
      `m`-th link carries an advertisement in it. From that round to the end of
      the next, when its own advertisement has gone out, it is calm for the
      destination at the router that link leads to. */
  ghost predicate RoundsAlong(tp: Topology, acts: seq<Action>, ends: seq<nat>, path: seq<Link>, ip: U32, mask: U32) {
    && |ends| == |path| + 1
    && (forall m :: 0 <= m < |ends| ==> ends[m] <= |acts|)
    && (forall m :: 0 < m < |ends| ==> ends[m - 1] <= ends[m])
    && (forall m :: 0 < m <= |path| ==> Carries(tp, acts, path[m - 1], ends[m - 1], ends[m]))
    && (forall m :: 0 < m <= |path| ==> CalmAtHop(tp, acts, ends, path, ip, mask, m))
  }

  ghost predicate CalmAtHop(tp: Topology, acts: seq<Action>, ends: seq<nat>, path: seq<Link>, ip: U32, mask: U32, m: nat)
    requires |ends| == |path| + 1 && 0 < m <= |path|
    requires forall i :: 0 <= i < |ends| ==> ends[i] <= |acts|
  {
    CalmDuring(tp, acts, ends[m - 1], if m < |path| then ends[m + 1] else ends[m], path[m - 1].to, HopKey(tp, path[m - 1], ip, mask))
  }

  /** What the `m`-th router after the origin holds at the end of round `m`. */
  lemma {:induction false} HopsAway(tp: Topology, ns: seq<Net>, acts: seq<Action>, ends: seq<nat>, path: seq<Link>, net: nat, m: nat)
    requires IsNetRun(tp, ns, acts) && IsPath(tp, path) && 0 < m <= |path|
    requires Advertisable(tp, path[0], net)
    requires var k := Destination(tp, path[0], net); RoundsAlong(tp, acts, ends, path, k.ip, k.mask)
    ensures var k := Destination(tp, path[0], net);
            Holds(ns[ends[m]], path[m - 1].to, HopKey(tp, path[m - 1], k.ip, k.mask), Capped(m))
    decreases m
  {
    hide NetStep, NetInit, WellFormed, CalmFor, Holds, Crosses, Routable, LocalKey;
    var origin := Destination(tp, path[0], net);
    var l := path[m - 1];
    var h := HopKey(tp, l, origin.ip, origin.mask);
    assert Carries(tp, acts, l, ends[m - 1], ends[m]) && CalmAtHop(tp, acts, ends, path, origin.ip, origin.mask, m);
    var i: nat, j: nat :| ends[m - 1] <= i < j < ends[m] && Crosses(tp, acts, l, i, j);
    if m == 1 {
      OriginHolds(tp, ns, acts, l, net, i, j);
      OneHop(tp, ns, acts, l, i, j, origin, 0);
    } else {
      var k := HopKey(tp, path[m - 2], origin.ip, origin.mask);
      HopsAway(tp, ns, acts, ends, path, net, m - 1);
      assert CalmAtHop(tp, acts, ends, path, origin.ip, origin.mask, m - 1);
      assert ends[m - 2] <= ends[m - 1];
      CalmRunKeeps(tp, ns, acts, ends[m - 1], i, l.from, k, Capped(m - 1));
      OneHop(tp, ns, acts, l, i, j, k, m - 1);
    }
    CalmRunKeeps(tp, ns, acts, j + 1, ends[m], l.to, h, Capped(m));
  }

  /** The sender of the first link has configured network `net`, receivers accept it,
      and it does not belong to the interface of that link. */
  ghost predicate Advertisable(tp: Topology, first: Link, net: nat) {
    && first.from in tp.nets && net < |tp.nets[first.from]| && PrefixOk(tp.nets[first.from][net])
    && tp.nets[first.from][net].ifIndex != first.outIf
    && Routable(LocalKey(tp.nets[first.from][net]).ip, LocalKey(tp.nets[first.from][net]).mask)
  }

  function Destination(tp: Topology, first: Link, net: nat): (k: RouteKey)
    requires first.from in tp.nets && net < |tp.nets[first.from]| && PrefixOk(tp.nets[first.from][net])
    ensures k.ifIndex == tp.nets[first.from][net].ifIndex
  {
    LocalKey(tp.nets[first.from][net])
  }

  lemma OriginHolds(tp: Topology, ns: seq<Net>, acts: seq<Action>, l: Link, net: nat, i: nat, j: nat)
    requires IsNetRun(tp, ns, acts) && Crosses(tp, acts, l, i, j) && Advertisable(tp, l, net)
    ensures Holds(ns[i], l.from, Destination(tp, l, net), Capped(0))
  {
    hide LocalKey, Swap32, Step, Routable;
    assert NetStep(tp, ns[i], acts[i], ns[i + 1]);
    LocalsHeld(tp, ns, acts, l.from, net, i);
    SmallMetric(1);
  }

  /** After `k` rounds a router `k` hops from a configured network has an ok route
      to it of metric at most min(16, 1 + k), learned over the last link of the
      path. The rounds may begin at any point of any run. */
  lemma ConvergenceBound(tp: Topology, ns: seq<Net>, acts: seq<Action>, ends: seq<nat>, path: seq<Link>, net: nat)
    requires IsNetRun(tp, ns, acts) && IsPath(tp, path) && |path| > 0
    requires Advertisable(tp, path[0], net)
    requires var k := Destination(tp, path[0], net); RoundsAlong(tp, acts, ends, path, k.ip, k.mask)
    ensures var k := Destination(tp, path[0], net);
            var last := path[|path| - 1];
            Holds(ns[ends[|path|]], last.to, HopKey(tp, last, k.ip, k.mask), Capped(|path|))
  {
    HopsAway(tp, ns, acts, ends, path, net, |path|);
  }

  // -------------------------------------------------------- shortest paths

  /** Links share media: what goes back out on the interface it came in on reaches
      no router that the first sender did not reach itself. */
  ghost predicate SharedMedia(tp: Topology) {
    forall l, m :: l in tp.links && m in tp.links && m.from == l.to && m.outIf == l.inIf ==>
                     m.to == l.from || Link(l.from, l.outIf, m.to, m.inIf) in tp.links
  }

  ghost predicate IsChain(tp: Topology, path: seq<Link>) {
    && (forall i :: 0 <= i < |path| ==> path[i] in tp.links)
    && (forall i :: 0 < i < |path| ==> path[i].from == path[i - 1].to)
  }

  lemma {:induction false} ChainWithin(tp: Topology, path: seq<Link>, i: nat, ip: U32, mask: U32)
    requires WellFormed(tp) && IsChain(tp, path) && i < |path| && Originates(tp, path[0].from, ip, mask)
    ensures Within(tp, path[i].from, ip, mask, i)
    decreases i
  {
    hide Originates, WellFormed;
    if i > 0 {
      ChainWithin(tp, path, i - 1, ip, mask);
      assert path[i - 1] in tp.links && path[i - 1].to == path[i].from;
    }
  }

  lemma {:induction false} ChainRest(tp: Topology, path: seq<Link>, i: nat, j: nat, ip: U32, mask: U32, d: nat)
    requires WellFormed(tp) && IsChain(tp, path) && i <= j < |path| && Within(tp, path[i].to, ip, mask, d)
    ensures Within(tp, path[j].to, ip, mask, d + (j - i))
    decreases j
  {
    hide Originates, WellFormed;
    if i < j {
      ChainRest(tp, path, i, j - 1, ip, mask, d);
      assert path[j] in tp.links && path[j].from == path[j - 1].to;
    }
  }

  /** A shortest path never leaves a router on the interface it came in on, so
      split horizon does not block it. */
  lemma ShortestPathAlternates(tp: Topology, path: seq<Link>, ip: U32, mask: U32)
    requires WellFormed(tp) && SharedMedia(tp) && IsChain(tp, path) && |path| > 0
    requires Originates(tp, path[0].from, ip, mask)
    requires HopDistance(tp, path[|path| - 1].to, ip, mask, |path|)
    ensures IsPath(tp, path)
  {
    hide Originates, WellFormed, Within;
    forall i | 0 < i < |path|
      ensures path[i].outIf != path[i - 1].inIf
    {
      if path[i].outIf == path[i - 1].inIf {
        Shortcut(tp, path, i, ip, mask);
        ChainRest(tp, path, i, |path| - 1, ip, mask, i);
        assert false;
      }
    }
  }

  lemma Shortcut(tp: Topology, path: seq<Link>, i: nat, ip: U32, mask: U32)
    requires WellFormed(tp) && SharedMedia(tp) && IsChain(tp, path) && 0 < i < |path|
    requires Originates(tp, path[0].from, ip, mask) && path[i].outIf == path[i - 1].inIf
    ensures Within(tp, path[i].to, ip, mask, i)
  {
    hide Originates, WellFormed;
    ChainWithin(tp, path, i - 1, ip, mask);
    var l, m := path[i - 1], path[i];
    if m.to == l.from {
      WithinMore(tp, l.from, ip, mask, i - 1);
    } else {
      var s := Link(l.from, l.outIf, m.to, m.inIf);
      assert s in tp.links && s.to == m.to;
    }
  }

  /** On a shortest path from a configured network, after as many rounds as the
      distance the metric is exactly one more than the distance (or 16). */
  lemma ShortestPathMetric(tp: Topology, ns: seq<Net>, acts: seq<Action>, ends: seq<nat>, path: seq<Link>, net: nat)
    requires IsNetRun(tp, ns, acts) && SharedMedia(tp) && IsChain(tp, path) && |path| > 0
    requires Advertisable(tp, path[0], net)
    requires var k := Destination(tp, path[0], net);
             && RoundsAlong(tp, acts, ends, path, k.ip, k.mask)
             && HopDistance(tp, path[|path| - 1].to, k.ip, k.mask, |path|)
    ensures var k := Destination(tp, path[0], net);
            var last := path[|path| - 1];
            var n := ns[ends[|path|]];
            var h := HopKey(tp, last, k.ip, k.mask);
            && last.to in n.routers && h in n.routers[last.to].db.ok
            && Hops(n.routers[last.to].db.ok[h]) == Capped(|path|)
  {
    hide NetStep, NetInit, RoundsAlong, Routable, Swap32, NetworkPart, HopDistance, SharedMedia, Inv;
    var k := Destination(tp, path[0], net);
    assert IsNetwork(tp.nets[path[0].from], net, k.ip, k.mask);
    ShortestPathAlternates(tp, path, k.ip, k.mask);
    ConvergenceBound(tp, ns, acts, ends, path, net);
    var last := path[|path| - 1];
    var n, h := RoundEnd(tp, acts, ends, path, k.ip, k.mask), HopKey(tp, last, k.ip, k.mask);
    StoredMetricsSound(tp, ns, acts, n, last.to, h);
    var d: nat :| HopDistance(tp, last.to, k.ip, k.mask, d) && Hops(RouteOf(ns[n].routers[last.to].db, h)) >= Capped(d);
    DistanceUnique(tp, last.to, k.ip, k.mask, d, |path|);
  }

  /** The step at which the last round is over. */
  ghost function RoundEnd(tp: Topology, acts: seq<Action>, ends: seq<nat>, path: seq<Link>, ip: U32, mask: U32): (n: nat)
    requires RoundsAlong(tp, acts, ends, path, ip, mask)
    ensures n <= |acts| && |ends| == |path| + 1
  {
    ends[|path|]
  }
}
