/** What each event does to the state of one router, on values. The imperative
    daemon is proved to do exactly this, and the theorems about runs and about
    networks are stated over these steps.
 */
module RouterSpec {
  import opened Wire
  import opened Routes

  const TIMEOUT_PERIOD_TIMER: int := 15
  const TIMEOUT_PERIOD: int := 180
  const GC_PERIOD: int := 120

  // ------------------------------------------------------------ the database

  /** Adding a route marks it changed. A route that was already there is
      overwritten all the same, but then the change is not signalled. */
  function DbAdd(db: Db, k: RouteKey, info: RouteInfo): Db {
    db.(ok := db.ok[k := info.(changed := true)], anyChanged := db.anyChanged || k !in db.ok)
  }

  /** Removing tries the ok table first. */
  function DbRemove(db: Db, k: RouteKey): Db {
    if k in db.ok then db.(ok := db.ok - {k}) else db.(garbage := db.garbage - {k})
  }

  function DbMoveToGarbage(db: Db, k: RouteKey): Db
    requires k in db.ok
  {
    db.(ok := db.ok - {k},
        garbage := db.garbage[k := db.ok[k]],
        anyChanged := db.anyChanged || db.ok[k].changed)
  }

  function Rewritten(t: RouteTable, f: RouteInfo -> RouteInfo): (r: RouteTable)
    ensures r.Keys == t.Keys
    ensures forall k :: k in t ==> r[k] == f(t[k])
  {
    map k | k in t :: f(t[k])
  }

  function ClearChanged(info: RouteInfo): RouteInfo {
    info.(changed := false)
  }

  function DbMarkUnchanged(db: Db): Db {
    if db.anyChanged
    then Db(Rewritten(db.ok, ClearChanged), Rewritten(db.garbage, ClearChanged), false)
    else db
  }

  // ------------------------------------------------------------------- start

  const AF_INET: U16 := 2

  /** A configured network: an address in host order and a prefix length. */
  datatype Network = Network(ifIndex: nat, address: U32, prefix: nat)

  predicate PrefixOk(net: Network) {
    1 <= net.prefix <= 32
  }

  /** Address and mask of a configured network, in network order. The address is
      masked, which clears its low bits. */
  function LocalKey(net: Network): RouteKey
    requires PrefixOk(net)
  {
    RouteKey(net.ifIndex, Swap32(NetworkPart(net.address, net.prefix)),
             PrefixLenToSubnet(net.prefix).value, 0)
  }

  function LocalInfo(): RouteInfo {
    RouteInfo(Swap16(AF_INET), 0, Swap32(1), false, true, false, 0, 0)
  }

  predicate WellConfigured(nets: seq<Network>) {
    && (forall i :: 0 <= i < |nets| ==> PrefixOk(nets[i]))
    && (forall i, j :: 0 <= i < j < |nets| ==> LocalKey(nets[i]) != LocalKey(nets[j]))
  }

  function InitialDb(nets: seq<Network>): Db
    requires forall i :: 0 <= i < |nets| ==> PrefixOk(nets[i])
  {
    if nets == [] then Db(map[], map[], false) else
      DbAdd(InitialDb(nets[..|nets| - 1]), LocalKey(nets[|nets| - 1]), LocalInfo())
  }

  function InitialState(nets: seq<Network>): State
    requires WellConfigured(nets)
  {
    State(InitialDb(nets), {}, Timers(true, false, true, true, false))
  }

  /** The initial table holds exactly the configured networks. */
  lemma {:induction false} InitialKeys(nets: seq<Network>)
    requires forall i :: 0 <= i < |nets| ==> PrefixOk(nets[i])
    ensures forall k :: k in InitialDb(nets).ok <==> exists i :: 0 <= i < |nets| && k == LocalKey(nets[i])
    ensures forall k :: k in InitialDb(nets).ok ==> InitialDb(nets).ok[k] == LocalInfo().(changed := true)
    ensures InitialDb(nets).garbage == map[] && (nets != [] ==> InitialDb(nets).anyChanged)
    decreases |nets|
  {
    hide LocalKey, LocalInfo;
    if nets != [] {
      var n := |nets| - 1;
      InitialKeys(nets[..n]);
      forall k
        ensures k in InitialDb(nets).ok <==> exists i :: 0 <= i < |nets| && k == LocalKey(nets[i])
      {
        if k in InitialDb(nets[..n]).ok {
          var i :| 0 <= i < n && k == LocalKey(nets[..n][i]);
          assert nets[i] == nets[..n][i];
        }
        if i :| 0 <= i < |nets| && k == LocalKey(nets[i]) {
          if i < n {
            assert nets[..n][i] == nets[i];
          }
        }
      }
    }
  }

  // ----------------------------------------------------- receiving a response

  datatype Outcome = Outcome(state: State, ok: bool)

  /** The key under which an entry received from `sender` is filed. */
  function IncomingKey(e: Entry, sender: U32, ifIndex: nat): RouteKey {
    RouteKey(ifIndex, e.ip, e.mask, sender)
  }

  /** The cost of a received entry: one more hop, at most infinity. */
  function Cost(e: Entry): (c: U32)
    requires IsEntryValid(EntryNtoh(e))
    ensures 2 <= c <= INFINITY_METRIC
  {
    UpdateMetric(Swap32(e.metric))
  }

  /** The route made from a received entry. */
  function IncomingInfo(e: Entry): RouteInfo
    requires IsEntryValid(EntryNtoh(e))
  {
    RouteInfo(e.family, e.tag, Swap32(Cost(e)), false, false, true, 0, 0)
  }

  /** A route unknown to both tables: first the kernel, then the database. The
      kernel refuses a route it has, and may refuse any other. */
  function InstallRoute(s: State, k: RouteKey, info: RouteInfo, grant: bool): Outcome {
    var kk := KernelKeyOf(k, info);
    if grant && kk !in s.kernel
    then Outcome(s.(kernel := s.kernel + {kk}, db := DbAdd(s.db, k, info)), k !in s.db.ok)
    else Outcome(s, false)
  }

  /** A route that is in the ok table is replaced by a strictly better one, and
      otherwise nothing happens. */
  function UpdateOkRoute(s: State, k: RouteKey, info: RouteInfo, grant: bool): Outcome
    requires k in s.db.ok
  {
    if s.db.ok[k].metric > info.metric then
      var kk := KernelKeyOf(k, s.db.ok[k]);
      if kk in s.kernel
      then InstallRoute(s.(kernel := s.kernel - {kk}, db := DbRemove(s.db, k)), k, info, grant)
      else Outcome(s, false)
    else Outcome(s, true)
  }

  function ReceiveEntry(s: State, e: Entry, sender: U32, ifIndex: nat, grant: bool): Outcome {
    if !IsEntryValid(EntryNtoh(e)) then Outcome(s, true) else
      var k := IncomingKey(e, sender, ifIndex);
      var info := IncomingInfo(e);
      if k in s.db.ok then UpdateOkRoute(s, k, info, grant)
      else if k in s.db.garbage then InstallRoute(s.(db := DbRemove(s.db, k)), k, info, grant)
      else InstallRoute(s, k, info, grant)
  }

  function ReceiveResponse(s: State, es: seq<Entry>, sender: U32, ifIndex: nat, grants: seq<bool>): State
    requires |grants| == |es|
  {
    if es == [] then s else
      var n := |es| - 1;
      ReceiveEntry(ReceiveResponse(s, es[..n], sender, ifIndex, grants[..n]), es[n], sender, ifIndex, grants[n]).state
  }

  /** Every entry of a response could be dealt with. */
  ghost predicate AllHandled(s: State, es: seq<Entry>, sender: U32, ifIndex: nat, grants: seq<bool>)
    requires |grants| == |es|
  {
    forall i :: 0 <= i < |es| ==> EntryHandled(s, es, sender, ifIndex, grants, i)
  }

  ghost predicate EntryHandled(s: State, es: seq<Entry>, sender: U32, ifIndex: nat, grants: seq<bool>, i: nat)
    requires i < |es| == |grants|
  {
    ReceiveEntry(ReceiveResponse(s, es[..i], sender, ifIndex, grants[..i]), es[i], sender, ifIndex, grants[i]).ok
  }

  // ------------------------------------------------------------ advertising

  /** What a route looks like in a message: the next hop is always zero. */
  function AdvertEntry(k: RouteKey, info: RouteInfo): Entry {
    Entry(info.family, info.tag, k.ip, k.mask, 0, info.metric)
  }

  /** The routes of `t` that go to interface `dest`: split horizon leaves out
      those learned there. */
  function Selected(t: RouteTable, dest: nat, onlyChanged: bool): set<RouteKey> {
    set k | k in t && k.ifIndex != dest && (onlyChanged ==> t[k].changed)
  }

  ghost predicate Enumerates(ks: seq<RouteKey>, s: set<RouteKey>) {
    && (forall i, j :: 0 <= i < j < |ks| ==> ks[i] != ks[j])
    && (forall k :: k in ks <==> k in s)
  }

  function EntriesOf(t: RouteTable, ks: seq<RouteKey>): (es: seq<Entry>)
    requires forall k :: k in ks ==> k in t
    ensures |es| == |ks|
    ensures forall i :: 0 <= i < |ks| ==> es[i] == AdvertEntry(ks[i], t[ks[i]])
  {
    seq(|ks|, i requires 0 <= i < |ks| => AdvertEntry(ks[i], t[ks[i]]))
  }

  /** The message holds every selected route exactly once and nothing else; the
      two lists of keys say in which order. */
  ghost predicate AdvertisesAs(es: seq<Entry>, db: Db, dest: nat, onlyChanged: bool, oks: seq<RouteKey>, gcs: seq<RouteKey>) {
    && Enumerates(oks, Selected(db.ok, dest, onlyChanged))
    && Enumerates(gcs, Selected(db.garbage, dest, onlyChanged))
    && es == EntriesOf(db.ok, oks) + EntriesOf(db.garbage, gcs)
  }

  ghost predicate Advertises(es: seq<Entry>, db: Db, dest: nat, onlyChanged: bool) {
    exists oks, gcs :: AdvertisesAs(es, db, dest, onlyChanged, oks, gcs)
  }

  /** One message per interface. */
  ghost predicate Multicasts(out: seq<Message>, db: Db, ifcs: seq<nat>, onlyChanged: bool) {
    && |out| == |ifcs|
    && forall i :: 0 <= i < |ifcs| ==> out[i].ifIndex == ifcs[i] && Advertises(out[i].entries, db, ifcs[i], onlyChanged)
  }

  // ----------------------------------------------------------- timer events

  /** The periodic timer is restarted only if everything could be sent. */
  function UpdateExpired(s: State, sent: bool): State {
    s.(db := DbMarkUnchanged(s.db), timers := s.timers.(update := sent))
  }

  predicate Triggers(s: State) {
    !s.timers.lock && s.db.anyChanged
  }

  /** The check after each batch of events. If it could not send, the daemon
      leaves its event loop. */
  function CheckRouteChanged(s: State, sent: bool): State {
    if Triggers(s) then s.(db := DbMarkUnchanged(s.db), timers := s.timers.(lock := sent)) else s
  }

  /** `b` is `a` with its timeout counter raised by between `lo` and `hi` ticks. */
  ghost predicate Aged(a: RouteInfo, b: RouteInfo, lo: nat, hi: nat) {
    var d := b.timeoutCnt - a.timeoutCnt;
    b == a.(timeoutCnt := b.timeoutCnt) && lo * 15 <= d <= hi * 15 && d % 15 == 0
  }

  function Expire(info: RouteInfo, now: int): RouteInfo {
    info.(changed := true, metric := Swap32(INFINITY_METRIC), inRoutingTable := false, gcStartedAt := now)
  }

  /** One more tick on the timeout counter. */
  function Tick(info: RouteInfo): RouteInfo {
    info.(timeoutCnt := info.timeoutCnt + TIMEOUT_PERIOD_TIMER)
  }

  /** One visit of a sweep to the ok route `k`: count a tick, and at the limit leave
      the kernel and become garbage. A route the kernel does not have is dropped. */
  function Visit(s: State, k: RouteKey, now: int): State
    requires k in s.db.ok
  {
    var aged := Tick(s.db.ok[k]);
    var db := s.db.(ok := s.db.ok[k := aged]);
    if aged.timeoutCnt < TIMEOUT_PERIOD then s.(db := db)
    else if KernelKeyOf(k, aged) in s.kernel then
      s.(kernel := s.kernel - {KernelKeyOf(k, aged)}, db := DbMoveToGarbage(db.(ok := db.ok[k := Expire(aged, now)]), k))
    else s.(db := DbRemove(db, k))
  }

  /** The visits of a sweep, in order. */
  function VisitAll(s: State, visits: seq<RouteKey>, now: int): State {
    if visits == [] then s else
      var p := VisitAll(s, visits[..|visits| - 1], now);
      var k := visits[|visits| - 1];
      if k in p.db.ok then Visit(p, k, now) else p
  }

  /** The routes visited since the iteration was last restarted. */
  function Pass(s: State, visits: seq<RouteKey>, now: int): set<RouteKey> {
    if visits == [] then {} else
      var k := visits[|visits| - 1];
      if k in VisitAll(s, visits, now).db.ok then Pass(s, visits[..|visits| - 1], now) + {k} else {}
  }

  /** Every visit is to a learned ok route not yet visited since the last restart. */
  ghost predicate Scheduled(s: State, visits: seq<RouteKey>, now: int) {
    visits == [] || (
      var before := visits[..|visits| - 1];
      var k := visits[|visits| - 1];
      Scheduled(s, before, now) && k in Learned(VisitAll(s, before, now).db.ok) && k !in Pass(s, before, now))
  }

  /** The visits are those of a whole sweep: every learned route that is left has
      been visited since the last restart. */
  ghost predicate Completed(s: State, visits: seq<RouteKey>, now: int) {
    Scheduled(s, visits, now) && Pass(s, visits, now) == Learned(VisitAll(s, visits, now).db.ok)
  }

  lemma VisitNothing(s: State, now: int)
    ensures VisitAll(s, [], now) == s && Scheduled(s, [], now) && Pass(s, [], now) == {}
  {
  }

  /** A schedule grows by one visit. */
  lemma VisitOne(s: State, visits: seq<RouteKey>, k: RouteKey, now: int)
    requires Scheduled(s, visits, now)
    requires k in Learned(VisitAll(s, visits, now).db.ok) && k !in Pass(s, visits, now)
    ensures Scheduled(s, visits + [k], now)
    ensures VisitAll(s, visits + [k], now) == Visit(VisitAll(s, visits, now), k, now)
    ensures Pass(s, visits + [k], now) ==
            if k in VisitAll(s, visits + [k], now).db.ok then Pass(s, visits, now) + {k} else {}
  {
    hide Visit;
    var more := visits + [k];
    assert more[..|more| - 1] == visits && more[|more| - 1] == k;
  }

  /** A visit changes nothing about other routes, and the visited route leaves the ok
      table exactly when it reaches its limit. */
  lemma VisitTable(s: State, k: RouteKey, now: int)
    requires k in s.db.ok
    ensures var t := Visit(s, k, now).db.ok;
            && (k in t <==> Tick(s.db.ok[k]).timeoutCnt < TIMEOUT_PERIOD)
            && (k in t ==> t[k] == Tick(s.db.ok[k]))
            && (forall l :: l != k ==> (l in t <==> l in s.db.ok))
            && (forall l :: l != k && l in t ==> t[l] == s.db.ok[l])
  {
    hide KernelKeyOf, Expire;
  }

  /** `b` is `a`, aged to the limit and then expired. */
  ghost predicate ExpiredFrom(a: RouteInfo, b: RouteInfo, now: int, ticks: nat) {
    var c := a.(timeoutCnt := b.timeoutCnt);
    Aged(a, c, 1, ticks) && c.timeoutCnt >= TIMEOUT_PERIOD && b == Expire(c, now)
  }

  /** What is left of the ok table after a sweep that expired `gone`. */
  ghost predicate OkSwept(t: RouteTable, t': RouteTable, gone: set<RouteKey>) {
    && (forall k :: k in t' <==> k in t && k !in gone)
    && (forall k :: k in t' && t[k].isLocal ==> t'[k] == t[k])
    && (forall k :: k in t' && !t[k].isLocal ==>
                      Aged(t[k], t'[k], 1, 1 + |gone|) && t'[k].timeoutCnt < TIMEOUT_PERIOD)
  }

  /** The garbage table `g'` is `g` with the routes `gone` of the ok table `t`
      expired into it. The first to expire had been counted once. */
  ghost predicate GarbageSwept(t: RouteTable, g: RouteTable, g': RouteTable, now: int, gone: set<RouteKey>) {
    && gone <= t.Keys
    && (forall k :: k in g' <==> k in g || k in gone)
    && (forall k :: k in gone ==> ExpiredFrom(t[k], g'[k], now, |gone|))
    && (forall k :: k in g && k !in gone ==> g'[k] == g[k])
    && (gone != {} ==> exists k :: k in gone && OneTick(t[k], g'[k]))
  }

  /** The route was one tick short of its limit when the sweep began. */
  predicate OneTick(a: RouteInfo, b: RouteInfo) {
    b.timeoutCnt == a.timeoutCnt + TIMEOUT_PERIOD_TIMER
  }

  /** A completed timeout sweep that expired exactly the routes `expired`. */
  ghost predicate TimeoutSwept(s: State, s': State, now: int, expired: set<RouteKey>) {
    && expired <= Learned(s.db.ok)
    && OkSwept(s.db.ok, s'.db.ok, expired)
    && GarbageSwept(s.db.ok, s.db.garbage, s'.db.garbage, now, expired)
    && s'.db.anyChanged == (s.db.anyChanged || expired != {})
    && s'.kernel == s.kernel - KernelKeys(s.db.ok, expired)
    && s'.timers == s.timers.(timeout := true, gc := s.timers.gc || expired != {})
  }

  /** The garbage routes that stay: expired less than two minutes ago. */
  function Fresh(t: RouteTable, now: int): RouteTable {
    map k | k in t && now - t[k].gcStartedAt < GC_PERIOD :: t[k]
  }

  /** The garbage routes that go. */
  function Stale(t: RouteTable, now: int): set<RouteKey> {
    set k | k in t && now - t[k].gcStartedAt >= GC_PERIOD
  }

  /** Removing looks in the ok table first, so a key in both tables leaves both. */
  function DbCollected(db: Db, now: int): Db {
    db.(ok := db.ok - Stale(db.garbage, now), garbage := Fresh(db.garbage, now))
  }

  function GcSwept(s: State, now: int): State {
    var db := DbCollected(s.db, now);
    s.(db := db, timers := s.timers.(gc := |db.garbage| > 0))
  }

  /** With disjoint tables garbage collection leaves the ok table alone. */
  lemma GcLeavesOk(db: Db, now: int)
    requires forall k :: k in db.ok ==> k !in db.garbage
    ensures DbCollected(db, now).ok == db.ok
  {
  }

  // ---------------------------------------------------------------- shutdown

  function Poison(info: RouteInfo): RouteInfo {
    info.(metric := Swap32(INFINITY_METRIC))
  }

  function Poisoned(db: Db): Db {
    db.(ok := Rewritten(db.ok, Poison), garbage := Rewritten(db.garbage, Poison))
  }

  function Cleanup(s: State): State {
    var db := DbMarkUnchanged(Poisoned(s.db));
    s.(db := db, kernel := s.kernel - KernelKeys(db.ok, Learned(db.ok)))
  }
}
