/** Composing and sending advertisements. */
module RipUpdate {
  import opened Wire
  import opened Routes
  import opened RouterSpec
  import opened RipDbs
  import HashMaps
  import Table

  const MAX_ENTRIES: nat := 500

  /** The message buffer is large enough for what is to go to `dest`. */
  ghost predicate FitsBuffer(db: Db, dest: nat, onlyChanged: bool) {
    |Selected(db.ok, dest, onlyChanged)| + |Selected(db.garbage, dest, onlyChanged)| <= MAX_ENTRIES
  }

  ghost predicate AllFit(db: Db, ifcs: seq<nat>, onlyChanged: bool) {
    forall i :: 0 <= i < |ifcs| ==> FitsBuffer(db, ifcs[i], onlyChanged)
  }

  // ------------------------------------------------- enumerating a table

  /** The keys listed so far are the selected ones among those seen. */
  ghost predicate ListsSeen(ks: seq<RouteKey>, t: RouteTable, dest: nat, onlyChanged: bool, seen: set<RouteKey>) {
    Enumerates(ks, Selected(t, dest, onlyChanged) * seen)
  }

  lemma {:induction false} EnumerationLength(ks: seq<RouteKey>, s: set<RouteKey>)
    requires Enumerates(ks, s)
    ensures |ks| == |s|
    decreases |ks|
  {
    if ks == [] {
      assert s == {};
    } else {
      var n := |ks| - 1;
      EnumerationLength(ks[..n], s - {ks[n]});
      assert s == s - {ks[n]} + {ks[n]};
    }
  }

  lemma ListMore(ks: seq<RouteKey>, t: RouteTable, dest: nat, onlyChanged: bool, seen: set<RouteKey>, k: RouteKey)
    requires ListsSeen(ks, t, dest, onlyChanged, seen) && k in t && k !in seen
    ensures k in Selected(t, dest, onlyChanged) ==> ListsSeen(ks + [k], t, dest, onlyChanged, seen + {k})
    ensures k in Selected(t, dest, onlyChanged) ==> |ks| < |Selected(t, dest, onlyChanged)|
    ensures k !in Selected(t, dest, onlyChanged) ==> ListsSeen(ks, t, dest, onlyChanged, seen + {k})
  {
    var sel := Selected(t, dest, onlyChanged);
    if k in sel {
      EnumerationLength(ks, sel * seen);
      assert sel == (sel - {k}) + {k};
      assert sel * seen <= sel - {k};
      Table.SubsetSize(sel * seen, sel - {k});
      assert sel * (seen + {k}) == sel * seen + {k};
    } else {
      assert sel * (seen + {k}) == sel * seen;
    }
  }

  lemma ListAll(ks: seq<RouteKey>, t: RouteTable, dest: nat, onlyChanged: bool)
    requires ListsSeen(ks, t, dest, onlyChanged, t.Keys)
    ensures Enumerates(ks, Selected(t, dest, onlyChanged))
    ensures |ks| == |Selected(t, dest, onlyChanged)|
  {
    var sel := Selected(t, dest, onlyChanged);
    assert sel * t.Keys == sel;
    EnumerationLength(ks, sel);
  }

  lemma EntriesMore(t: RouteTable, ks: seq<RouteKey>, k: RouteKey)
    requires forall l :: l in ks ==> l in t
    requires k in t
    ensures forall l :: l in ks + [k] ==> l in t
    ensures EntriesOf(t, ks + [k]) == EntriesOf(t, ks) + [AdvertEntry(k, t[k])]
  {
  }

  /** A message under construction: what it holds so far, and which keys of each
      table that covers. */
  ghost predicate Filling(es: seq<Entry>, db: Db, dest: nat, onlyChanged: bool,
                          oks: seq<RouteKey>, seenOk: set<RouteKey>, gcs: seq<RouteKey>, seenGc: set<RouteKey>)
  {
    && ListsSeen(oks, db.ok, dest, onlyChanged, seenOk)
    && ListsSeen(gcs, db.garbage, dest, onlyChanged, seenGc)
    && es == EntriesOf(db.ok, oks) + EntriesOf(db.garbage, gcs)
  }

  lemma FillOk(es: seq<Entry>, db: Db, dest: nat, onlyChanged: bool, oks: seq<RouteKey>, seen: set<RouteKey>, k: RouteKey)
    requires Filling(es, db, dest, onlyChanged, oks, seen, [], {}) && FitsBuffer(db, dest, onlyChanged)
    requires k in db.ok && k !in seen
    ensures if k in Selected(db.ok, dest, onlyChanged)
            then |es| < MAX_ENTRIES
                 && Filling(es + [AdvertEntry(k, db.ok[k])], db, dest, onlyChanged, oks + [k], seen + {k}, [], {})
            else Filling(es, db, dest, onlyChanged, oks, seen + {k}, [], {})
  {
    ListMore(oks, db.ok, dest, onlyChanged, seen, k);
    EntriesMore(db.ok, oks, k);
    assert EntriesOf(db.garbage, []) == [];
  }

  lemma FillGarbage(es: seq<Entry>, db: Db, dest: nat, onlyChanged: bool,
                    oks: seq<RouteKey>, gcs: seq<RouteKey>, seen: set<RouteKey>, k: RouteKey)
    requires Filling(es, db, dest, onlyChanged, oks, db.ok.Keys, gcs, seen) && FitsBuffer(db, dest, onlyChanged)
    requires k in db.garbage && k !in seen
    ensures if k in Selected(db.garbage, dest, onlyChanged)
            then |es| < MAX_ENTRIES
                 && Filling(es + [AdvertEntry(k, db.garbage[k])], db, dest, onlyChanged, oks, db.ok.Keys, gcs + [k], seen + {k})
            else Filling(es, db, dest, onlyChanged, oks, db.ok.Keys, gcs, seen + {k})
  {
    ListAll(oks, db.ok, dest, onlyChanged);
    ListMore(gcs, db.garbage, dest, onlyChanged, seen, k);
    EntriesMore(db.garbage, gcs, k);
  }

  // ------------------------------------------------------------- sending

  /** Fill the buffer from its start; whatever it held before lies beyond the
      returned count. */
  method FillBuffer(db: RipDb, dest: nat, buffer: array<Entry>, onlyChanged: bool)
    returns (n: nat, ghost oks: seq<RouteKey>, ghost gcs: seq<RouteKey>)
    requires db.Valid() && buffer.Length == MAX_ENTRIES && FitsBuffer(db.Abs(), dest, onlyChanged)
    modifies buffer
    ensures n <= MAX_ENTRIES && AdvertisesAs(buffer[..n], db.Abs(), dest, onlyChanged, oks, gcs)
  {
    hide HashMaps.HashMap.Valid, HashMaps.HashMap.Seen, HashMaps.HashMap.Yields;
    hide FitsBuffer, ListsSeen, Enumerates;
    ghost var a := db.Abs();
    n, oks, gcs := 0, [], [];
    var it := ITER_START;
    db.ok.SeenNone();
    db.garbage.SeenNone();
    FillStarts(a, dest, onlyChanged);
    while true
      invariant db.Valid() && db.Abs() == a
      invariant n <= MAX_ENTRIES
      invariant Filling(buffer[..n], a, dest, onlyChanged, oks, db.SeenOk(it), gcs, db.SeenGarbage(it))
      invariant !it.okIterated ==> gcs == [] && it.garbageIter == 0
      decreases !it.okIterated, if it.okIterated then 0 else db.ok.buckets.Length - it.okIter,
                db.garbage.buckets.Length - it.garbageIter
    {
      var found, it', k, info := db.IterAll(it);
      if !found {
        break;
      }
      ghost var es := buffer[..n];
      if it'.okIterated {
        FillGarbage(es, a, dest, onlyChanged, oks, gcs, db.SeenGarbage(it), k);
      } else {
        FillOk(es, a, dest, onlyChanged, oks, db.SeenOk(it), k);
      }
      it := it';
      if (onlyChanged && !info.changed) || k.ifIndex == dest {
        continue;
      }
      buffer[n] := AdvertEntry(k, info);
      n := n + 1;
      assert buffer[..n] == es + [AdvertEntry(k, info)];
      if it.okIterated {
        gcs := gcs + [k];
      } else {
        oks := oks + [k];
      }
    }
    ListAll(oks, a.ok, dest, onlyChanged);
    ListAll(gcs, a.garbage, dest, onlyChanged);
  }

  lemma FillStarts(db: Db, dest: nat, onlyChanged: bool)
    ensures Filling([], db, dest, onlyChanged, [], {}, [], {})
  {
  }

  /** Compose a response for one interface and hand it to the socket. An empty
      response is not sent and cannot fail. */
  method SendResponse(db: RipDb, dest: nat, buffer: array<Entry>, onlyChanged: bool, sent: bool)
    returns (ret: int, msg: Message)
    requires db.Valid() && buffer.Length == MAX_ENTRIES && FitsBuffer(db.Abs(), dest, onlyChanged)
    modifies buffer
    ensures msg.ifIndex == dest && Advertises(msg.entries, db.Abs(), dest, onlyChanged)
    ensures ret == if msg.entries != [] && !sent then 1 else 0
  {
    var n, oks, gcs := FillBuffer(db, dest, buffer, onlyChanged);
    msg := Message(dest, buffer[..n]);
    ret := if n != 0 && !sent then 1 else 0;
  }

  /** One response per interface, then every change flag is cleared, whether or
      not the responses could be sent. */
  method SendMulticast(db: RipDb, ifcs: seq<nat>, onlyChanged: bool, sent: seq<bool>)
    returns (ret: int, out: seq<Message>)
    requires db.Valid() && |sent| == |ifcs| && AllFit(db.Abs(), ifcs, onlyChanged)
    modifies db.Repr()
    ensures db.Valid() && db.Repr() == old(db.Repr())
    ensures db.Abs() == DbMarkUnchanged(old(db.Abs()))
    ensures Multicasts(out, old(db.Abs()), ifcs, onlyChanged)
    ensures ret == 0 || ret == 1
    ensures ret == 0 <==> forall i :: 0 <= i < |ifcs| && out[i].entries != [] ==> sent[i]
  {
    hide HashMaps.HashMap.Valid, Advertises, FitsBuffer;
    var buffer := new Entry[MAX_ENTRIES](_ => Entry(0, 0, 0, 0, 0, 0));
    out, ret := [], 0;
    for i := 0 to |ifcs|
      invariant db.Valid() && |out| == i && (ret == 0 || ret == 1)
      invariant forall j :: 0 <= j < i ==> out[j].ifIndex == ifcs[j]
      invariant forall j :: 0 <= j < i ==> Advertises(out[j].entries, db.Abs(), ifcs[j], onlyChanged)
      invariant ret == 0 <==> forall j :: 0 <= j < i && out[j].entries != [] ==> sent[j]
      modifies buffer
    {
      var r, msg := SendResponse(db, ifcs[i], buffer, onlyChanged, sent[i]);
      out := out + [msg];
      if r != 0 {
        ret := 1;
      }
    }
    db.MarkAllRoutesAsUnchanged();
  }

  predicate IsInitialRequest(es: seq<Entry>) {
    |es| == 1 && Swap32(es[0].metric) >= 16 && Swap16(es[0].family) == 0
  }

  /** A request for the whole table has one entry, of family 0 and with a metric of 16
      or more; all other requests are refused. */
  lemma InitialRequests(es: seq<Entry>)
    ensures |es| != 1 ==> !IsInitialRequest(es)
    ensures |es| == 1 ==> (IsInitialRequest(es) <==> es[0].family == 0 && (es[0].metric % 0x100_0000 != 0 || es[0].metric >= 0x1000_0000))
  {
    if |es| == 1 {
      var m := es[0].metric;
      Swap16Twice(es[0].family);
      Swap32Twice(m);
      if m % 0x100_0000 == 0 {
        var d := m / 0x100_0000;
        SwapBytes(d, 0, 0, 0);
      } else {
        LowBytesCount(m);
      }
    }
  }

  /** A value whose upper bytes are not its only ones is at least 256 in the other
      byte order. */
  lemma LowBytesCount(m: U32)
    requires m % 0x100_0000 != 0
    ensures Swap32(m) >= 0x100
  {
    if Swap32(m) < 0x100 {
      SmallMetric(Swap32(m));
      Swap32Twice(m);
      assert false;
    }
  }

  /** Ask every neighbour for its whole table. */
  method SendRequestMulticast(ifcs: seq<nat>, sent: seq<bool>) returns (ret: int, requests: seq<Message>)
    requires |sent| == |ifcs|
    ensures |requests| == |ifcs|
    ensures forall i :: 0 <= i < |ifcs| ==> requests[i].ifIndex == ifcs[i] && IsInitialRequest(requests[i].entries)
    ensures forall i :: 0 <= i < |ifcs| ==> requests[i].entries == [Entry(0, 0, 0, 0, 0, 0x1000_0000)]
    ensures ret == 0 <==> forall i :: 0 <= i < |ifcs| ==> sent[i]
  {
    hide IsInitialRequest, Swap32;
    var entry := Entry(0, 0, 0, 0, 0, Swap32(INFINITY_METRIC));
    SmallMetric(INFINITY_METRIC);
    InitialRequests([entry]);
    ret, requests := 0, [];
    for i := 0 to |ifcs|
      invariant |requests| == i
      invariant forall j :: 0 <= j < i ==> requests[j] == Message(ifcs[j], [entry])
      invariant ret == 0 <==> forall j :: 0 <= j < i ==> sent[j]
    {
      requests := requests + [Message(ifcs[i], [entry])];
      if !sent[i] {
        ret := 1;
      }
    }
  }

  /** Answer a request for the whole table; other requests are refused. */
  method SendUnicast(db: RipDb, es: seq<Entry>, ifIndex: nat, socketOk: bool, sent: bool)
    returns (ret: int, out: seq<Message>)
    requires db.Valid() && FitsBuffer(db.Abs(), ifIndex, false)
    ensures out == [] <==> !(IsInitialRequest(es) && socketOk)
    ensures out != [] ==> |out| == 1 && out[0].ifIndex == ifIndex && Advertises(out[0].entries, db.Abs(), ifIndex, false)
    ensures ret == 0 <==> out != [] && (out[0].entries != [] ==> sent)
  {
    if |es| == 0 {
      return 1, [];
    }
    if !IsInitialRequest(es) {
      return 1, [];
    }
    if !socketOk {
      return 1, [];
    }
    var buffer := new Entry[MAX_ENTRIES](_ => Entry(0, 0, 0, 0, 0, 0));
    var msg;
    ret, msg := SendResponse(db, ifIndex, buffer, false, sent);
    out := [msg];
  }

  /** Set every metric to infinity and advertise everything. */
  method SendShutdown(db: RipDb, ifcs: seq<nat>, sent: seq<bool>) returns (out: seq<Message>)
    requires db.Valid() && |sent| == |ifcs| && AllFit(Poisoned(db.Abs()), ifcs, false)
    modifies db.Repr()
    ensures db.Valid() && db.Repr() == old(db.Repr())
    ensures db.Abs() == DbMarkUnchanged(Poisoned(old(db.Abs())))
    ensures Multicasts(out, Poisoned(old(db.Abs())), ifcs, false)
  {
    hide HashMaps.HashMap.Valid;
    db.RewriteAll(Poison);
    var _, o := SendMulticast(db, ifcs, false, sent);
    out := o;
  }
}
