/** The smallest network that converges: one router with a configured network, one
    neighbour, one round. It shows that the hypotheses of the convergence theorems
    can be met, and what they then say.
 */
module TwoRouters {
  import opened Wire
  import opened Routes
  import opened RouterSpec
  import opened RouterRuns
  import opened Networks
  import opened Convergence

  /** 10.0.2.0/24 on interface 1 of router 0. */
  const NET: Network := Network(1, 0x0A00_0200, 24)
  const LINK: Link := Link(0, 2, 1, 3)
  const ADDRESS: U32 := 7

  function Topo(): Topology {
    Topology(map[0 := [NET], 1 := []], map[0 := [2], 1 := [3]], {LINK}, (r, i) => ADDRESS)
  }

  function Key(): RouteKey {
    LocalKey(NET)
  }

  function Entries(): seq<Entry> {
    [AdvertEntry(Key(), LocalInfo().(changed := true))]
  }

  function Actions(): seq<Action> {
    [Local(0, UpdateTick(true), [Message(2, Entries())]), Deliver(Packet(0, 2, Entries()), LINK, [true])]
  }

  function States(): seq<Net> {
    var s0, s1 := InitialState([NET]), InitialState([]);
    var packets := {Packet(0, 2, Entries())};
    [Net(map[0 := s0, 1 := s1], {}),
     Net(map[0 := UpdateExpired(s0, true), 1 := s1], packets),
     Net(map[0 := UpdateExpired(s0, true), 1 := ReceiveResponse(s1, Entries(), ADDRESS, 3, [true])], packets)]
  }

  lemma Start()
    ensures InitialDb([NET]) == Db(map[Key() := LocalInfo().(changed := true)], map[], true)
    ensures InitialDb([]) == Db(map[], map[], false)
  {
    hide LocalKey, LocalInfo;
    assert [NET][..0] == [];
  }

  lemma AlreadyMasked()
    ensures NetworkPart(NET.address, NET.prefix) == NET.address
  {
    assert Pow2(8) == 0x100;
  }

  lemma KeyIsRoutable()
    ensures Routable(Key().ip, Key().mask) && Key().ifIndex == 1
  {
    hide IsNetMaskValid, PrefixLenToSubnet, NetworkPart, Swap32;
    AlreadyMasked();
    PrefixLenRoundTrip(24);
    Swap32Twice(NET.address);
  }

  lemma Advertised()
    ensures Advertises(Entries(), InitialDb([NET]), 2, false)
  {
    hide LocalInfo, PrefixLenToSubnet, NetworkPart;
    Start();
    var db := InitialDb([NET]);
    assert Selected(db.ok, 2, false) == {Key()};
    assert Selected(db.garbage, 2, false) == {};
    assert EntriesOf(db.ok, [Key()]) + EntriesOf(db.garbage, []) == Entries();
    assert AdvertisesAs(Entries(), db, 2, false, [Key()], []);
  }

  lemma ActionsRun()
    ensures IsNetRun(Topo(), States(), Actions())
  {
    hide LocalKey, LocalInfo, Advertises, ReceiveResponse, DbMarkUnchanged;
    Advertised();
    var ns, acts := States(), Actions();
    assert WellConfigured([NET]) && WellConfigured([]);
    assert Packets(0, [Message(2, Entries())]) == {Packet(0, 2, Entries())} by {
      assert [Message(2, Entries())][0] == Message(2, Entries());
    }
    assert NetStep(Topo(), ns[0], acts[0], ns[1]);
    assert NetStep(Topo(), ns[1], acts[1], ns[2]);
  }

  lemma Distance()
    ensures WellFormed(Topo()) && HopDistance(Topo(), 1, Key().ip, Key().mask, 1)
  {
    hide LocalKey;
    assert WellConfigured([NET]) && WellConfigured([]);
    assert IsNetwork(Topo().nets[0], 0, Key().ip, Key().mask);
    assert Within(Topo(), 0, Key().ip, Key().mask, 0);
    assert LINK in Topo().links;
  }

  lemma OneRound()
    ensures RoundsAlong(Topo(), Actions(), [0, 2], [LINK], Key().ip, Key().mask)
  {
    hide LocalKey, LocalInfo, IsEntryValid;
    var acts := Actions();
    assert [Message(2, Entries())][0].ifIndex == LINK.outIf;
    assert Crosses(Topo(), acts, LINK, 0, 1);
    assert Carries(Topo(), acts, LINK, 0, 2);
    assert CalmAtHop(Topo(), acts, [0, 2], [LINK], Key().ip, Key().mask, 1);
  }

  /** After the round the neighbour has the network at metric 2. */
  lemma NeighbourLearns()
    ensures var k := RouteKey(3, Key().ip, Key().mask, ADDRESS);
            var t := States()[2].routers[1].db.ok;
            k in t && Hops(t[k]) == 2
  {
    hide LocalKey, LocalInfo, IsNetRun, RoundsAlong, HopDistance, Routable, Hops, ReceiveResponse;
    ActionsRun();
    OneRound();
    Distance();
    KeyIsRoutable();
    ShortestPathMetric(Topo(), States(), Actions(), [0, 2], [LINK], 0);
  }
}
