/** The route database: two hash maps and a flag saying that some route has
    changed since the last advertisement. Memory is assumed not to run out here.
 */
module RipDbs {
  import opened Options
  import opened HashMaps
  import opened Routes
  import opened RouterSpec

  datatype DbType = DbAll | DbOk | DbGarbage

  datatype DbIter = DbIter(okIter: nat, okIterated: bool, garbageIter: nat)

  const ITER_START: DbIter := DbIter(0, false, 0)

  class RipDb {
    const ok: HashMap<RouteKey, RouteInfo>
    const garbage: HashMap<RouteKey, RouteInfo>
    var anyRouteChanged: bool

    ghost function Repr(): set<object>
      reads this, ok, garbage
    {
      {this, ok, garbage, ok.buckets, garbage.buckets}
    }

    ghost predicate Valid()
      reads this, ok, garbage, ok.buckets, garbage.buckets
    {
      ok != garbage && ok.buckets != garbage.buckets && ok.Valid() && garbage.Valid()
    }

    /** The database as a value. */
    ghost function Abs(): Db
      reads this, ok, garbage
    {
      Db(ok.Contents, garbage.Contents, anyRouteChanged)
    }

    constructor (okRoutes: HashMap<RouteKey, RouteInfo>, garbageRoutes: HashMap<RouteKey, RouteInfo>)
      requires okRoutes.Valid() && garbageRoutes.Valid()
      requires okRoutes != garbageRoutes && okRoutes.buckets != garbageRoutes.buckets
      ensures Valid() && ok == okRoutes && garbage == garbageRoutes
      ensures Abs() == Db(okRoutes.Contents, garbageRoutes.Contents, false)
    {
      ok := okRoutes;
      garbage := garbageRoutes;
      anyRouteChanged := false;
    }

    /** File a route. If the table has to grow and memory is refused, nothing
        changes. */
    method Add(k: RouteKey, info: RouteInfo, alloc: bool) returns (ret: int)
      requires Valid()
      modifies Repr()
      ensures Valid() && fresh(Repr() - old(Repr()))
      ensures if old(ok.Full()) && !alloc
              then ret == 1 && Abs() == old(Abs())
              else ret == (if k in old(Abs()).ok then 1 else 0) && Abs() == DbAdd(old(Abs()), k, info)
      ensures ret == 1 ==> anyRouteChanged == old(anyRouteChanged)
    {
      hide HashMap.Valid, HashMap.Full;
      var prev := ok.Set(k, info.(changed := true), alloc);
      if prev.Some? {
        return 1;
      }
      if ok.oom {
        return 1;
      }
      anyRouteChanged := true;
      return 0;
    }

    method Get(t: DbType, k: RouteKey) returns (item: Option<RouteInfo>)
      requires Valid()
      ensures t.DbOk? ==> item == Lookup(Abs().ok, k)
      ensures t.DbGarbage? ==> item == Lookup(Abs().garbage, k)
      ensures t.DbAll? ==> item == if k in Abs().ok then Some(Abs().ok[k]) else Lookup(Abs().garbage, k)
    {
      match t
      case DbOk => item := ok.Get(k);
      case DbGarbage => item := garbage.Get(k);
      case DbAll =>
        item := ok.Get(k);
        if item.None? {
          item := garbage.Get(k);
        }
    }

    method Remove(k: RouteKey) returns (ret: int)
      requires Valid()
      modifies Repr()
      ensures Valid() && fresh(Repr() - old(Repr()))
      ensures Abs() == DbRemove(old(Abs()), k)
      ensures ret == if k in old(Abs()).ok || k in old(Abs()).garbage then 0 else 1
    {
      hide HashMap.Valid, ShrinksBy, Lookup;
      var el := ok.Delete(k, true);
      assert garbage.Valid() && ok.buckets != garbage.buckets;
      if el.Some? {
        return 0;
      }
      el := garbage.Delete(k, true);
      assert ok.Valid() && ok.buckets != garbage.buckets;
      ret := if el.Some? then 0 else 1;
    }

    /** Move a route to the garbage table; `changed` is its change flag. A route
        that is not in the ok table is an error. If the garbage table has to grow
        and memory is refused, the route is lost and no error is reported. */
    method MoveToGarbage(k: RouteKey, changed: bool, alloc: bool) returns (ret: int)
      requires Valid()
      modifies Repr()
      ensures Valid() && fresh(Repr() - old(Repr()))
      ensures Abs().anyChanged == (old(Abs()).anyChanged || changed)
      ensures Abs().ok == old(Abs()).ok - {k}
      ensures Abs().garbage ==
              if k in old(Abs()).ok && !(old(garbage.Full()) && !alloc)
              then old(Abs()).garbage[k := old(Abs()).ok[k]] else old(Abs()).garbage
      ensures ret ==
              if k !in old(Abs()).ok then 1
              else if old(garbage.Full()) && !alloc then 0
              else if k in old(Abs()).garbage then 1 else 0
    {
      hide HashMap.Valid, HashMap.Full, ShrinksBy;
      if changed {
        anyRouteChanged := true;
      }
      var el := ok.Delete(k, true);
      if el.None? {
        return 1;
      }
      var prev := garbage.Set(k, el.value, alloc);
      if prev.Some? {
        return 1;
      }
      return 0;
    }

    method Count(t: DbType) returns (n: nat)
      requires Valid()
      ensures t.DbOk? ==> n == |Abs().ok|
      ensures t.DbGarbage? ==> n == |Abs().garbage|
      ensures t.DbAll? ==> n == |Abs().ok| + |Abs().garbage|
    {
      var a := ok.Count();
      var b := garbage.Count();
      match t
      case DbOk => return a;
      case DbGarbage => return b;
      case DbAll => return a + b;
    }

    /** The part of an iteration over both tables that is behind the cursor. */
    ghost function SeenOk(it: DbIter): set<RouteKey>
      reads this, ok, ok.buckets
    {
      if it.okIterated then ok.Contents.Keys else ok.Seen(it.okIter)
    }

    ghost function SeenGarbage(it: DbIter): set<RouteKey>
      reads this, garbage, garbage.buckets
    {
      garbage.Seen(it.garbageIter)
    }

    /** One step over both tables: the ok routes first, then the garbage routes,
        each exactly once. */
    method IterAll(it: DbIter) returns (found: bool, it': DbIter, k: RouteKey, info: RouteInfo)
      requires Valid()
      ensures found && !it'.okIterated ==>
                && !it.okIterated && it'.garbageIter == it.garbageIter
                && it.okIter < it'.okIter <= ok.buckets.Length
                && ok.Yields(it'.okIter, k) && k in Abs().ok && Abs().ok[k] == info
                && k !in SeenOk(it) && SeenOk(it') == SeenOk(it) + {k}
      ensures found && it'.okIterated ==>
                && SeenOk(it) == Abs().ok.Keys
                && it.garbageIter < it'.garbageIter <= garbage.buckets.Length
                && garbage.Yields(it'.garbageIter, k) && k in Abs().garbage && Abs().garbage[k] == info
                && k !in SeenGarbage(it) && SeenGarbage(it') == SeenGarbage(it) + {k}
      ensures !found ==> SeenOk(it) == Abs().ok.Keys && SeenGarbage(it) == Abs().garbage.Keys
    {
      hide HashMap.Valid;
      if it.okIterated {
        var c;
        found, c, k, info := garbage.Iter(it.garbageIter);
        it' := it.(garbageIter := c);
        return;
      }
      var c;
      found, c, k, info := ok.Iter(it.okIter);
      if found {
        it' := it.(okIter := c);
        return;
      }
      var g;
      found, g, k, info := garbage.Iter(it.garbageIter);
      it' := DbIter(c, true, g);
    }

    /** Write through the reference the last step has yielded. */
    method WriteAt(it: DbIter, k: RouteKey, info: RouteInfo)
      requires Valid() && (if it.okIterated then garbage.Yields(it.garbageIter, k) else ok.Yields(it.okIter, k))
      modifies Repr()
      ensures Valid() && ok.buckets == old(ok.buckets) && garbage.buckets == old(garbage.buckets)
      ensures it.okIterated ==>
                && k in old(Abs()).garbage
                && Abs() == old(Abs()).(garbage := old(Abs()).garbage[k := info])
      ensures !it.okIterated ==> k in old(Abs()).ok && Abs() == old(Abs()).(ok := old(Abs()).ok[k := info])
      ensures SeenOk(it) == old(SeenOk(it)) && SeenGarbage(it) == old(SeenGarbage(it))
      ensures if it.okIterated then garbage.Yields(it.garbageIter, k) else ok.Yields(it.okIter, k)
    {
      hide HashMap.Valid;
      if it.okIterated {
        garbage.Write(it.garbageIter, k, info);
      } else {
        ok.Write(it.okIter, k, info);
      }
    }

    /** Walk over both tables and rewrite every route in place. */
    method RewriteAll(f: RouteInfo -> RouteInfo)
      requires Valid()
      modifies Repr()
      ensures Valid() && ok.buckets == old(ok.buckets) && garbage.buckets == old(garbage.buckets)
      ensures Abs() == Db(Rewritten(old(Abs()).ok, f), Rewritten(old(Abs()).garbage, f), old(anyRouteChanged))
    {
      hide HashMap.Valid, HashMap.Seen, HashMap.Yields, PartlyRewritten;
      ghost var db0 := Abs();
      var it := ITER_START;
      ok.SeenNone();
      garbage.SeenNone();
      RewriteStarts(db0.ok, f);
      RewriteStarts(db0.garbage, f);
      while true
        invariant Valid() && ok.buckets == old(ok.buckets) && garbage.buckets == old(garbage.buckets)
        invariant anyRouteChanged == db0.anyChanged
        invariant PartlyRewritten(db0.ok, ok.Contents, SeenOk(it), f)
        invariant PartlyRewritten(db0.garbage, garbage.Contents, SeenGarbage(it), f)
        invariant !it.okIterated ==> it.garbageIter == 0
        decreases !it.okIterated, if it.okIterated then 0 else ok.buckets.Length - it.okIter,
                  garbage.buckets.Length - it.garbageIter
      {
        var found, it', k, info := IterAll(it);
        if !found {
          break;
        }
        if it'.okIterated {
          RewriteSteps(db0.garbage, garbage.Contents, SeenGarbage(it), k, f);
        } else {
          RewriteSteps(db0.ok, ok.Contents, SeenOk(it), k, f);
        }
        WriteAt(it', k, f(info));
        it := it';
      }
      RewriteEnds(db0.ok, ok.Contents, SeenOk(it), f);
      RewriteEnds(db0.garbage, garbage.Contents, SeenGarbage(it), f);
    }

    method MarkAllRoutesAsUnchanged()
      requires Valid()
      modifies Repr()
      ensures Valid() && ok.buckets == old(ok.buckets) && garbage.buckets == old(garbage.buckets)
      ensures Abs() == DbMarkUnchanged(old(Abs()))
    {
      hide HashMap.Valid;
      if anyRouteChanged {
        RewriteAll(ClearChanged);
        anyRouteChanged := false;
      }
    }
  }

  /** `u` is `t` with the routes in `done` rewritten. */
  ghost predicate PartlyRewritten(t: RouteTable, u: RouteTable, done: set<RouteKey>, f: RouteInfo -> RouteInfo) {
    && u.Keys == t.Keys
    && forall k :: k in t ==> u[k] == if k in done then f(t[k]) else t[k]
  }

  lemma RewriteStarts(t: RouteTable, f: RouteInfo -> RouteInfo)
    ensures PartlyRewritten(t, t, {}, f)
  {
  }

  lemma RewriteSteps(t: RouteTable, u: RouteTable, done: set<RouteKey>, k: RouteKey, f: RouteInfo -> RouteInfo)
    requires PartlyRewritten(t, u, done, f) && k in u && k !in done
    ensures PartlyRewritten(t, u[k := f(u[k])], done + {k}, f)
  {
  }

  lemma RewriteEnds(t: RouteTable, u: RouteTable, done: set<RouteKey>, f: RouteInfo -> RouteInfo)
    requires PartlyRewritten(t, u, done, f) && done == u.Keys
    ensures u == Rewritten(t, f)
  {
  }

  /** A new database, or nothing if memory is refused for it or for one of its
      tables. */
  method Init(hash: RouteKey -> nat, alloc: bool, allocOk: bool, allocGarbage: bool) returns (db: RipDb?)
    ensures db == null <==> !(alloc && allocOk && allocGarbage)
    ensures db != null ==> db.Valid() && fresh(db) && fresh(db.Repr()) && db.Abs() == Db(map[], map[], false)
  {
    if !alloc {
      return null;
    }
    var okRoutes := Create<RouteKey, RouteInfo>(hash, 0, allocOk);
    var garbageRoutes := Create<RouteKey, RouteInfo>(hash, 0, allocGarbage);
    if okRoutes == null || garbageRoutes == null {
      return null;
    }
    db := new RipDb(okRoutes, garbageRoutes);
  }
}
