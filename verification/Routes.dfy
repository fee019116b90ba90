/** The state of one router: its two route tables, its timers, and the part of
    the kernel's routing table that it owns.
 */
module Routes {
  import opened Wire

  /** The fields by which routes are compared and hashed. */
  datatype RouteKey = RouteKey(ifIndex: nat, ip: U32, mask: U32, nextHop: U32)

  /** The remaining fields of a route. The metric is kept in network order. */
  datatype RouteInfo = RouteInfo(
    family: U16,
    tag: U16,
    metric: U32,
    changed: bool,
    isLocal: bool,
    inRoutingTable: bool,
    timeoutCnt: int,
    gcStartedAt: int)

  type RouteTable = map<RouteKey, RouteInfo>

  datatype Db = Db(ok: RouteTable, garbage: RouteTable, anyChanged: bool)

  datatype Timers = Timers(update: bool, lock: bool, warmup: bool, timeout: bool, gc: bool)

  /** What the kernel tells routes apart by. */
  datatype KernelKey = KernelKey(ip: U32, prefixLen: int, nextHop: U32, ifIndex: nat, priority: nat)

  datatype State = State(db: Db, kernel: set<KernelKey>, timers: Timers)

  /** A response handed to one interface. */
  datatype Message = Message(ifIndex: nat, entries: seq<Entry>)

  /** The metric of a stored route in host order. */
  function Hops(info: RouteInfo): U32 {
    Swap32(info.metric)
  }

  /** The kernel is given 20 plus the low byte of the network-order metric. */
  function KernelKeyOf(k: RouteKey, info: RouteInfo): KernelKey {
    KernelKey(k.ip, GetPrefixLen(k.mask), k.nextHop, k.ifIndex, 20 + info.metric % 0x100)
  }

  function Learned(t: RouteTable): set<RouteKey> {
    set k | k in t && !t[k].isLocal
  }

  function KernelKeys(t: RouteTable, ks: set<RouteKey>): set<KernelKey>
    requires ks <= t.Keys
  {
    set k | k in ks :: KernelKeyOf(k, t[k])
  }

  predicate MetricStored(info: RouteInfo) {
    1 <= Hops(info) <= INFINITY_METRIC
  }

  lemma StoredMetric(info: RouteInfo)
    requires MetricStored(info)
    ensures info.metric == Hops(info) * 0x100_0000 && info.metric % 0x100 == 0
  {
    SmallMetric(Hops(info));
    Swap32Twice(info.metric);
  }

  /** Comparing two stored metrics in network order is comparing the metrics. */
  lemma MetricOrder(a: RouteInfo, b: RouteInfo)
    requires MetricStored(a) && MetricStored(b)
    ensures a.metric > b.metric <==> Hops(a) > Hops(b)
    ensures a.metric == b.metric <==> Hops(a) == Hops(b)
  {
    StoredMetric(a);
    StoredMetric(b);
  }

  /** The kernel key of a learned route determines the route and does not depend
      on the metric. */
  lemma KernelKeyInjective(k: RouteKey, a: RouteInfo, l: RouteKey, b: RouteInfo)
    requires IsNetMaskValid(k.mask) && IsNetMaskValid(l.mask) && MetricStored(a) && MetricStored(b)
    ensures KernelKeyOf(k, a) == KernelKeyOf(l, b) <==> k == l
  {
    StoredMetric(a);
    StoredMetric(b);
    if KernelKeyOf(k, a) == KernelKeyOf(l, b) {
      PrefixLenInjective(k.mask, l.mask);
    }
  }
}
