/** The open-addressed hash map with Robin Hood displacement, backward-shift
    deletion, growing, shrinking and the in-place iterator.

    The hash is any function of the key and two items compare equal exactly
    when their keys are equal. Whether an allocation is granted is a parameter
    of the operations that may allocate.
 */
module HashMaps {
  import opened Options
  import opened Table

  const MIN_BUCKETS: nat := 16

  function GrowAt(n: nat): nat { n * 6 / 10 }

  function ShrinkAt(n: nat): nat { n / 10 }

  /** A table is full at 60 percent and mostly empty at 10 percent, rounded down. */
  lemma Thresholds(n: nat, count: nat)
    ensures count >= GrowAt(n) <==> 10 * (count + 1) > 6 * n
    ensures count <= ShrinkAt(n) <==> 10 * count <= n
  {
  }

  predicate IsPow2(n: nat) {
    n == 1 || (n > 1 && n % 2 == 0 && IsPow2(n / 2))
  }

  lemma {:induction false} Pow2Gap(a: nat, b: nat)
    requires IsPow2(a) && IsPow2(b) && a < b
    ensures 2 * a <= b
  {
    if a > 1 {
      Pow2Gap(a / 2, b / 2);
    }
  }

  function Lookup<K, V>(m: map<K, V>, k: K): Option<V> {
    if k in m then Some(m[k]) else None
  }

  /** `n` is no less than 16 and the request, and half of it would be too small. */
  predicate Rounds(cap: nat, n: nat) {
    MIN_BUCKETS <= n && cap <= n && (n == MIN_BUCKETS || n / 2 < cap)
  }

  /** The bucket count chosen for a requested capacity: the least power of two
      that is at least 16 and at least the request. */
  method RoundCapacity(cap: nat) returns (n: nat)
    ensures IsPow2(n) && Rounds(cap, n)
  {
    n := 16;
    assert IsPow2(8) && IsPow2(4);
    while n < cap
      invariant IsPow2(n) && n >= 16
      invariant n == 16 || n / 2 < cap
      decreases cap - n
    {
      var half := n;
      n := n * 2;
      assert n / 2 == half && n % 2 == 0;
    }
  }

  ghost predicate Sized(n: nat, cap: nat) {
    IsPow2(cap) && IsPow2(n) && MIN_BUCKETS <= cap <= n
  }

  /** The bucket count after a deletion that leaves `left` items: halved exactly if
      something was deleted, the table is mostly empty and above its initial
      capacity, and memory is granted. */
  predicate ShrinksBy(n: nat, n': nat, cap: nat, deleted: bool, left: nat, alloc: bool) {
    n' == if deleted && n > cap && left <= ShrinkAt(n) && alloc then n / 2 else n
  }

  /** Doubling leaves room for one more item than a full table holds. */
  lemma Doubled(n: nat, cap: nat)
    requires Sized(n, cap)
    ensures Sized(2 * n, cap) && GrowAt(n) < GrowAt(2 * n) < 2 * n
  {
    assert 2 * n / 2 == n;
  }

  /** Halving a table above its initial capacity leaves room for every item of
      a table that is due to shrink. */
  lemma Halved(n: nat, cap: nat)
    requires Sized(n, cap) && n > cap
    ensures Sized(n / 2, cap) && ShrinkAt(n) < GrowAt(n / 2) < n / 2
  {
    Pow2Gap(cap, n);
  }

  /** The bucket array `t` is a sound table for exactly the bindings of `m`. */
  ghost predicate Stores<K(!new), V>(t: seq<Bucket<K, V>>, hash: K -> nat, m: map<K, V>) {
    Sound(t, hash) && Represents(t, m)
  }

  class HashMap<K(==, !new, 0), V(0)> {
    const hash: K -> nat
    const cap: nat
    var buckets: array<Bucket<K, V>>
    var count: nat
    var growat: nat
    var shrinkat: nat
    var oom: bool
    ghost var Contents: map<K, V>

    ghost predicate Valid()
      reads this, buckets
    {
      && Sized(buckets.Length, cap)
      && growat == GrowAt(buckets.Length)
      && shrinkat == ShrinkAt(buckets.Length)
      && Stores(buckets[..], hash, Contents)
      && count == |Contents| <= growat
    }

    constructor (hash: K -> nat, cap: nat)
      ensures Valid() && fresh(buckets)
      ensures this.hash == hash && Contents == map[] && !oom
      ensures buckets.Length == this.cap && Rounds(cap, this.cap)
    {
      var n := RoundCapacity(cap);
      var key: K := *;
      var val: V := *;
      this.hash := hash;
      this.cap := n;
      buckets := new Bucket<K, V>[n](_ => Bucket(0, 0, key, val));
      count := 0;
      growat := GrowAt(n);
      shrinkat := ShrinkAt(n);
      oom := false;
      Contents := map[];
    }

    /** A stored bucket carries its key's hash, so comparing hashes first loses
        no match. */
    lemma HashAgrees(i: nat)
      requires Valid() && i < buckets.Length && Used(buckets[i])
      ensures buckets[i].hash == hash(buckets[i].key)
      ensures Lookup(Contents, buckets[i].key) == Some(buckets[i].val)
    {
      assert FitsAt(buckets[..][i], hash, i, buckets.Length);
    }

    /** The next insertion has to grow the table first. */
    ghost predicate Full()
      reads this
    {
      count >= growat
    }

    lemma FullAt()
      requires Valid()
      ensures Full() <==> |Contents| >= GrowAt(buckets.Length)
    {
    }

    /** Probe distances never exceed the number of items, so a 16-bit field holds
        them as long as there are at most 65535 items. */
    lemma ProbeBound(i: nat)
      requires Valid() && i < buckets.Length
      ensures buckets[i].dib <= count < buckets.Length
    {
      DibAtMostCount(buckets[..], hash, Contents, i);
    }

    /** Every probe loop ends, because a free bucket lies ahead. */
    lemma FreeSlot() returns (free: nat)
      requires Valid()
      ensures free < buckets.Length && !Used(buckets[free])
    {
      FreeSlotExists(buckets[..], Contents);
      var f :| 0 <= f < |buckets[..]| && !Used(buckets[..][f]);
      free := f;
    }

    method Get(k: K) returns (item: Option<V>)
      requires Valid()
      ensures item == Lookup(Contents, k)
    {
      var n := buckets.Length;
      ghost var t := buckets[..];
      ghost var free := FreeSlot();
      var h := hash(k);
      ghost var home := Home(h, n);
      var i: nat := Home(h, n);
      while true
        invariant i < n && Dist(home, i, n) <= Dist(home, free, n)
        invariant Scanned(t, home, i, k)
        decreases Dist(i, free, n)
      {
        var bucket := buckets[i];
        assert bucket == t[i];
        if bucket.dib == 0 {
          ProbeMayStop(t, hash, k, i);
          return None;
        }
        HashAgrees(i);
        if bucket.hash == h && bucket.key == k {
          return Some(bucket.val);
        }
        ScanOn(t, home, i, free, k);
        i := Next(i, n);
      }
    }

    /** Rehash into a new table of the requested size. */
    method Resize(newCap: nat, alloc: bool) returns (ok: bool)
      requires Valid()
      requires Sized(newCap, cap)
      requires count <= GrowAt(newCap)
      modifies this, buckets
      ensures Valid() && ok == alloc
      ensures Contents == old(Contents) && oom == old(oom)
      ensures alloc ==> fresh(buckets) && buckets.Length == newCap
      ensures !alloc ==> buckets == old(buckets) && unchanged(buckets)
    {
      hide Sound, Represents, IsPow2;
      var map2 := Create<K, V>(hash, newCap, alloc);
      if map2 == null {
        return false;
      }
      if newCap < map2.cap {
        Pow2Gap(newCap, map2.cap);
      }
      MoveAll(buckets, map2.buckets, hash, Contents);
      buckets := map2.buckets;
      growat := map2.growat;
      shrinkat := map2.shrinkat;
      return true;
    }

    /** Insert or replace. A full table grows first, even when the key is
        already present; if the allocator refuses, nothing changes but `oom`. */
    method Set(k: K, v: V, alloc: bool) returns (prev: Option<V>)
      requires Valid()
      modifies this, buckets
      ensures Valid() && (buckets == old(buckets) || fresh(buckets))
      ensures oom == (old(Full()) && !alloc)
      ensures oom ==> prev == None && Contents == old(Contents)
                      && buckets == old(buckets) && unchanged(buckets)
      ensures !oom ==> prev == Lookup(old(Contents), k) && Contents == old(Contents)[k := v]
      ensures buckets.Length == if old(Full()) && alloc then 2 * old(buckets.Length) else old(buckets.Length)
    {
      hide Stores, Sized;
      oom := false;
      ghost var m := Contents;
      if count >= growat {
        Doubled(buckets.Length, cap);
        var ok := Resize(2 * buckets.Length, alloc);
        if !ok {
          oom := true;
          return None;
        }
      }
      ghost var free := FreeSlot();
      prev := Insert(buckets, hash, k, v, m, free);
      if prev == None {
        count := count + 1;
      }
      Contents := m[k := v];
    }

    /** Delete. A table that is mostly empty is halved afterwards, never below
        its initial capacity; the result does not depend on whether the
        allocator grants that. */
    method Delete(k: K, alloc: bool) returns (prev: Option<V>)
      requires Valid()
      modifies this, buckets
      ensures Valid() && (buckets == old(buckets) || fresh(buckets))
      ensures prev == Lookup(old(Contents), k) && Contents == old(Contents) - {k} && !oom
      ensures prev.Some? <==> k in old(Contents)
      ensures prev == None ==> Contents == old(Contents)
      ensures ShrinksBy(old(buckets.Length), buckets.Length, cap, k in old(Contents), |Contents|, alloc)
    {
      hide Stores, Sized, GrowAt, ShrinkAt;
      oom := false;
      ghost var free := FreeSlot();
      prev := Remove(buckets, hash, k, Contents, free);
      Contents := Contents - {k};
      if prev == None {
        return;
      }
      count := count - 1;
      if buckets.Length > cap && count <= shrinkat {
        Halved(buckets.Length, cap);
        var _ := Resize(buckets.Length / 2, alloc);
      }
    }

    method Count() returns (n: nat)
      requires Valid()
      ensures n == |Contents|
    {
      n := count;
    }

    /** The keys in the first `c` buckets: what an iteration has yielded when its
        cursor stands at `c`. */
    ghost function Seen(c: nat): set<K>
      reads this, buckets
    {
      KeysBefore(buckets[..], c)
    }

    lemma SeenNone()
      ensures Seen(0) == {}
    {
    }

    /** One step of an iteration. It yields a key not seen before, or reports the
        end, and then every key has been seen. */
    method Iter(c: nat) returns (found: bool, c': nat, k: K, v: V)
      requires Valid()
      ensures found ==> c < c' <= buckets.Length && k in Contents && Contents[k] == v
      ensures found ==> Yields(c', k) && k !in Seen(c) && Seen(c') == Seen(c) + {k}
      ensures !found ==> Seen(c) == Contents.Keys
    {
      c' := c;
      k, v := buckets[0].key, buckets[0].val;
      while true
        invariant c <= c' && (c' <= buckets.Length || c' == c)
        invariant forall i :: c <= i < c' && i < buckets.Length ==> !Used(buckets[i])
        decreases buckets.Length - c'
      {
        if c' >= buckets.Length {
          found := false;
          SeenAll(buckets[..], c, Contents);
          return;
        }
        var bucket := buckets[c'];
        c' := c' + 1;
        if bucket.dib != 0 {
          found, k, v := true, bucket.key, bucket.val;
          SeenOneMore(buckets[..], c, c' - 1);
          return;
        }
      }
    }

    /** The iteration step that left the cursor at `c` yielded `k`. */
    ghost predicate Yields(c: nat, k: K)
      reads this, buckets
    {
      0 < c <= buckets.Length && Used(buckets[c - 1]) && buckets[c - 1].key == k
    }

    /** Write through the reference an iteration step has yielded: the fields
        that are not part of the key may change. */
    method Write(c: nat, k: K, v: V)
      requires Valid() && Yields(c, k)
      modifies this, buckets
      ensures Valid() && buckets == old(buckets)
      ensures Contents == old(Contents)[k := v] && k in old(Contents)
      ensures forall d :: Seen(d) == old(Seen(d))
      ensures oom == old(oom) && Yields(c, k)
    {
      ghost var t := buckets[..];
      Overwrite(buckets, c - 1, v, hash, Contents);
      Contents := Contents[k := v];
      assert Contents.Keys == old(Contents).Keys;
      forall d: nat
        ensures Seen(d) == old(Seen(d))
      {
        SeenSame(t, buckets[..], d);
      }
    }
  }

  method Overwrite<K(!new), V>(a: array<Bucket<K, V>>, i: nat, v: V, ghost hash: K -> nat, ghost m: map<K, V>)
    requires Stores(a[..], hash, m) && i < a.Length && Used(a[i])
    modifies a
    ensures Stores(a[..], hash, m[old(a[i]).key := v]) && old(a[i]).key in m
    ensures forall j :: 0 <= j < a.Length ==> a[j].dib == old(a[j]).dib && a[j].key == old(a[j]).key
  {
    ghost var t := a[..];
    assert t[i] == a[i];
    OverwriteRepresents(t, hash, i, v, m);
    a[i] := a[i].(val := v);
    assert a[..] == t[i := t[i].(val := v)];
  }

  ghost function KeysBefore<K, V>(t: seq<Bucket<K, V>>, c: nat): set<K> {
    set i | 0 <= i < c && i < |t| && Used(t[i]) :: t[i].key
  }

  lemma SeenAll<K, V>(t: seq<Bucket<K, V>>, c: nat, m: map<K, V>)
    requires Represents(t, m)
    requires forall i :: c <= i < |t| ==> !Used(t[i])
    ensures KeysBefore(t, c) == m.Keys
  {
    forall k | k in m
      ensures k in KeysBefore(t, c)
    {
      var i :| 0 <= i < |t| && Used(t[i]) && t[i].key == k;
    }
  }

  lemma SeenOneMore<K, V>(t: seq<Bucket<K, V>>, c: nat, i: nat)
    requires Distinct(t) && c <= i < |t| && Used(t[i])
    requires forall j :: c <= j < i ==> !Used(t[j])
    ensures t[i].key !in KeysBefore(t, c)
    ensures KeysBefore(t, i + 1) == KeysBefore(t, c) + {t[i].key}
  {
  }

  lemma SeenSame<K, V>(t: seq<Bucket<K, V>>, u: seq<Bucket<K, V>>, c: nat)
    requires |t| == |u| && forall i :: 0 <= i < |t| ==> u[i].dib == t[i].dib && u[i].key == t[i].key
    ensures KeysBefore(t, c) == KeysBefore(u, c)
  {
    assert forall k :: k in KeysBefore(t, c) ==> k in KeysBefore(u, c) by {
      forall k | k in KeysBefore(t, c)
        ensures k in KeysBefore(u, c)
      {
        var i :| 0 <= i < c && i < |t| && Used(t[i]) && t[i].key == k;
        assert Used(u[i]);
      }
    }
    assert forall k :: k in KeysBefore(u, c) ==> k in KeysBefore(t, c) by {
      forall k | k in KeysBefore(u, c)
        ensures k in KeysBefore(t, c)
      {
        var i :| 0 <= i < c && i < |u| && Used(u[i]) && u[i].key == k;
        assert Used(t[i]);
      }
    }
  }

  /** The state of an insertion of `k` with `v` into a table that held `m`. Until
      the first displacement the table is untouched and the slots passed do not
      hold the key; afterwards the entry in hand is a displaced one, and table
      and entry together hold the result. */
  ghost predicate Inserting<K(!new), V>(t: seq<Bucket<K, V>>, hash: K -> nat, m: map<K, V>, k: K, v: V,
                                        e: Bucket<K, V>, i: nat, free: nat, displaced: bool)
  {
    && AtSlot(t, hash, e, i, free)
    && if displaced
       then k !in m && Carrying(t, e, m[k := v])
       else e.key == k && e.val == v && Represents(t, m) && Scanned(t, Home(hash(k), |t|), i, k)
  }

  /** Where the entry is about to be stored, its key is nowhere in the table. */
  lemma InsertStores<K(!new), V>(t: seq<Bucket<K, V>>, hash: K -> nat, m: map<K, V>, k: K, v: V,
                                 e: Bucket<K, V>, i: nat, free: nat, displaced: bool)
    requires Inserting(t, hash, m, k, v, e, i, free, displaced) && t[i].dib < e.dib
    ensures k !in m && Carrying(t, e, m[k := v]) && !Has(t, e.key)
  {
    if !displaced {
      ProbeMayStop(t, hash, k, i);
      assert m[k := v] - {k} == m;
    }
  }

  /** A match can only be the key being inserted, never a displaced entry. */
  lemma InsertReplaces<K(!new), V>(t: seq<Bucket<K, V>>, hash: K -> nat, m: map<K, V>, k: K, v: V,
                                   e: Bucket<K, V>, i: nat, free: nat, displaced: bool)
    requires Inserting(t, hash, m, k, v, e, i, free, displaced) && Used(t[i]) && t[i].key == e.key
    ensures !displaced && e.key == k && Lookup(m, k) == Some(t[i].val)
    ensures Stores(t[i := t[i].(val := e.val)], hash, m[k := v])
  {
    if displaced {
      CarriedIsAbsent(t, e, m[k := v]);
      assert false;
    } else {
      OverwriteRepresents(t, hash, i, v, m);
    }
  }

  lemma InsertPasses<K(!new), V>(t: seq<Bucket<K, V>>, hash: K -> nat, m: map<K, V>, k: K, v: V,
                                 e: Bucket<K, V>, i: nat, free: nat, displaced: bool)
    requires Inserting(t, hash, m, k, v, e, i, free, displaced) && e.dib <= t[i].dib && t[i].key != e.key
    ensures Inserting(t, hash, m, k, v, e.(dib := e.dib + 1), Next(i, |t|), free, displaced)
  {
    PassBy(t, hash, e, i, free);
    if !displaced {
      ScanOn(t, Home(hash(k), |t|), i, free, k);
    }
  }

  lemma InsertStarts<K(!new), V>(t: seq<Bucket<K, V>>, hash: K -> nat, m: map<K, V>, k: K, v: V, free: nat)
    requires Stores(t, hash, m) && free < |t| && !Used(t[free])
    ensures Inserting(t, hash, m, k, v, Bucket(hash(k), 1, k, v), Home(hash(k), |t|), free, false)
  {
  }

  /** What the loop knows at a slot: the entry and the bucket there carry their
      keys' hashes, and the free slot has not been passed. */
  lemma InsertHere<K(!new), V>(t: seq<Bucket<K, V>>, hash: K -> nat, m: map<K, V>, k: K, v: V,
                               e: Bucket<K, V>, i: nat, free: nat, displaced: bool)
    requires Inserting(t, hash, m, k, v, e, i, free, displaced)
    ensures i < |t| && free < |t| && !Used(t[free])
    ensures e.dib > 0 && e.hash == hash(e.key) && (Used(t[i]) ==> t[i].hash == hash(t[i].key))
  {
    if Used(t[i]) {
      assert FitsAt(t[i], hash, i, |t|);
    }
  }

  lemma InsertEnds<K(!new), V>(t: seq<Bucket<K, V>>, hash: K -> nat, m: map<K, V>, k: K, v: V,
                               e: Bucket<K, V>, i: nat, free: nat, displaced: bool)
    requires Inserting(t, hash, m, k, v, e, i, free, displaced) && !Used(t[i]) && e.dib > 0
    ensures k !in m && Stores(t[i := e], hash, m[k := v])
  {
    InsertStores(t, hash, m, k, v, e, i, free, displaced);
    StoreInFree(t, hash, e, i, free, m[k := v]);
  }

  lemma InsertDisplaces<K(!new), V>(t: seq<Bucket<K, V>>, hash: K -> nat, m: map<K, V>, k: K, v: V,
                                    e: Bucket<K, V>, i: nat, free: nat, displaced: bool)
    requires Inserting(t, hash, m, k, v, e, i, free, displaced) && Used(t[i]) && t[i].dib < e.dib
    ensures Inserting(t[i := e], hash, m, k, v, t[i].(dib := t[i].dib + 1), Next(i, |t|), free, true)
  {
    InsertStores(t, hash, m, k, v, e, i, free, displaced);
    Displace(t, hash, e, i, free, m[k := v]);
  }

  /** The Robin Hood insertion loop. */
  method Insert<K(==, !new), V>(a: array<Bucket<K, V>>, hash: K -> nat, k: K, v: V, ghost m: map<K, V>, ghost free: nat)
    returns (prev: Option<V>)
    requires Stores(a[..], hash, m)
    requires free < a.Length && !Used(a[free])
    modifies a
    ensures Stores(a[..], hash, m[k := v]) && prev == Lookup(m, k)
  {
    hide Inserting, Stores;
    var n := a.Length;
    TwoSlots(a[..], hash, m);
    var entry := Bucket(hash(k), 1, k, v);
    var i: nat := Home(entry.hash, n);
    ghost var displaced := false;
    InsertStarts(a[..], hash, m, k, v, free);
    while true
      invariant i < n && Inserting(a[..], hash, m, k, v, entry, i, free, displaced)
      decreases Dist(i, free, n)
    {
      ghost var t, e := a[..], entry;
      InsertHere(t, hash, m, k, v, e, i, free, displaced);
      var bucket := a[i];
      assert bucket == t[i];
      if bucket.dib == 0 {
        InsertEnds(t, hash, m, k, v, e, i, free, displaced);
        a[i] := entry;
        assert a[..] == t[i := e];
        return None;
      }
      if entry.hash == bucket.hash && entry.key == bucket.key {
        InsertReplaces(t, hash, m, k, v, e, i, free, displaced);
        a[i] := bucket.(val := entry.val);
        assert a[..] == t[i := t[i].(val := e.val)];
        return Some(bucket.val);
      }
      if bucket.dib < entry.dib {
        InsertDisplaces(t, hash, m, k, v, e, i, free, displaced);
        a[i], entry := entry, bucket;
        assert a[..] == t[i := e];
        displaced := true;
      } else {
        InsertPasses(t, hash, m, k, v, e, i, free, displaced);
      }
      i := Next(i, n);
      entry := entry.(dib := entry.dib + 1);
    }
  }

  lemma TwoSlots<K(!new), V>(t: seq<Bucket<K, V>>, hash: K -> nat, m: map<K, V>)
    requires Stores(t, hash, m)
    ensures |t| >= 2
  {
  }

  /** Find the key as a lookup does and close the gap it leaves. */
  method Remove<K(==, !new), V>(a: array<Bucket<K, V>>, hash: K -> nat, k: K, ghost m: map<K, V>, ghost free: nat)
    returns (prev: Option<V>)
    requires Stores(a[..], hash, m)
    requires free < a.Length && !Used(a[free])
    modifies a
    ensures Stores(a[..], hash, m - {k}) && prev == Lookup(m, k)
    ensures prev == None ==> a[..] == old(a[..])
  {
    var n := a.Length;
    var h := hash(k);
    var i: nat := Home(h, n);
    ghost var t := a[..];
    while true
      invariant i < n && Dist(Home(h, n), i, n) <= Dist(Home(h, n), free, n)
      invariant a[..] == t && Scanned(t, Home(h, n), i, k)
      decreases Dist(i, free, n)
    {
      var bucket := a[i];
      assert bucket == t[i];
      if bucket.dib == 0 {
        ProbeMayStop(t, hash, k, i);
        assert m - {k} == m;
        return None;
      }
      assert FitsAt(t[i], hash, i, n);
      if bucket.hash == h && bucket.key == k {
        OpenHole(t, hash, i, m);
        CloseGap(a, i, hash, m - {k}, free);
        return Some(bucket.val);
      }
      ScanOn(t, Home(h, n), i, free, k);
      i := Next(i, n);
    }
  }

  /** The backward-shift loop: pull buckets one slot back until a free bucket or
      one at home is met. The bucket at the hole is a stale copy, apart from the
      first, which is marked free at once. */
  method CloseGap<K(!new), V>(a: array<Bucket<K, V>>, hole: nat, ghost hash: K -> nat, ghost m: map<K, V>, ghost free: nat)
    requires Hole(a[..], hash, hole) && Represents(Punched(a[..], hole), m)
    requires free < a.Length && free != hole && !Used(a[free])
    modifies a
    ensures Stores(a[..], hash, m)
  {
    hide Local, Distinct, Represents;
    var n := a.Length;
    ghost var g := a[..];
    var prev: nat := hole;
    a[prev] := a[prev].(dib := 0);
    while true
      invariant |g| == n && Hole(g, hash, prev) && Represents(Punched(g, prev), m)
      invariant free != prev && !Used(g[free])
      invariant a[..] == g || a[..] == Punched(g, prev)
      decreases Dist(prev, free, n)
    {
      var i := Next(prev, n);
      var bucket := a[i];
      assert bucket == g[i];
      if bucket.dib <= 1 {
        CloseHole(g, hash, prev);
        a[prev] := a[prev].(dib := 0);
        assert a[..] == Punched(g, prev);
        return;
      }
      ShiftBack(g, hash, prev, m);
      a[prev] := bucket.(dib := bucket.dib - 1);
      g := Shifted(g, prev);
      assert a[..] == g;
      prev := i;
    }
  }

  /** A new map, or nothing if memory is refused. */
  method Create<K(==, !new, 0), V(0)>(hash: K -> nat, cap: nat, alloc: bool) returns (hm: HashMap?<K, V>)
    ensures hm == null <==> !alloc
    ensures hm != null ==>
              && fresh(hm) && fresh(hm.buckets) && hm.Valid()
              && hm.hash == hash && hm.Contents == map[] && !hm.oom
              && Rounds(cap, hm.cap) && hm.buckets.Length == hm.cap
  {
    if !alloc {
      return null;
    }
    hm := new HashMap<K, V>(hash, cap);
  }

  /** Move every bucket of a sound table into an empty one that has room. */
  method MoveAll<K(==, !new), V>(from: array<Bucket<K, V>>, into: array<Bucket<K, V>>,
                                 ghost hash: K -> nat, ghost all: map<K, V>)
    requires from != into
    requires Stores(from[..], hash, all)
    requires Stores(into[..], hash, map[]) && |all| < into.Length
    modifies from, into
    ensures Stores(into[..], hash, all)
  {
    ghost var t0 := from[..];
    ghost var done: map<K, V> := map[];
    var i := 0;
    while i < from.Length
      invariant i <= from.Length
      invariant forall j :: i <= j < from.Length ==> from[j] == t0[j]
      invariant Stores(into[..], hash, done)
      invariant MovedUpTo(t0, i, done, all)
    {
      if from[i].dib != 0 {
        assert FitsAt(t0[i], hash, i, |t0|);
        ghost var free := RoomFor(into[..], done, all);
        done := MoveBucket(from, i, into, hash, done, free);
      }
      i := i + 1;
    }
    AllMoved(t0, done, all);
  }

  /** Insert the bucket in slot `i` of the old table into the new one. The
      bucket in hand is kept in the old slot all along, so a displaced bucket of
      the new table is parked there while it travels on. */
  method MoveBucket<K(==, !new), V>(from: array<Bucket<K, V>>, i: nat, into: array<Bucket<K, V>>,
                                    ghost hash: K -> nat, ghost done: map<K, V>, ghost free: nat)
    returns (ghost done': map<K, V>)
    requires from != into && i < from.Length && Used(from[i]) && from[i].hash == hash(from[i].key)
    requires Stores(into[..], hash, done) && from[i].key !in done
    requires free < into.Length && !Used(into[free])
    modifies from, into
    ensures forall j :: 0 <= j < from.Length && j != i ==> from[j] == old(from[j])
    ensures done' == done[old(from[i]).key := old(from[i]).val]
    ensures Stores(into[..], hash, done')
  {
    hide Placed, Local, Distinct, Represents;
    done' := done[from[i].key := from[i].val];
    assert done' - {from[i].key} == done;
    var n := into.Length;
    from[i] := from[i].(dib := 1);
    var j: nat := Home(from[i].hash, n);
    while true
      invariant forall p :: 0 <= p < from.Length && p != i ==> from[p] == old(from[p])
      invariant AtSlot(into[..], hash, from[i], j, free)
      invariant Carrying(into[..], from[i], done')
      decreases Dist(j, free, n)
    {
      ghost var t, e := into[..], from[i];
      var bucket := into[j];
      if bucket.dib == 0 {
        StoreInFree(t, hash, e, j, free, done');
        into[j] := from[i];
        assert into[..] == t[j := e];
        return;
      }
      if bucket.dib < from[i].dib {
        Displace(t, hash, e, j, free, done');
        into[j] := from[i];
        from[i] := bucket;
        assert into[..] == t[j := e];
      } else {
        PassBy(t, hash, e, j, free);
      }
      j := Next(j, n);
      from[i] := from[i].(dib := from[i].dib + 1);
    }
  }

  /** The keys moved so far are those of the first `i` old buckets. */
  ghost predicate MovedUpTo<K(!new), V>(t0: seq<Bucket<K, V>>, i: nat, done: map<K, V>, all: map<K, V>)
    requires i <= |t0|
  {
    && Distinct(t0) && Represents(t0, all)
    && done.Keys <= all.Keys
    && (forall k :: k in done ==> done[k] == all[k])
    && (forall j :: 0 <= j < i && Used(t0[j]) ==> t0[j].key in done)
    && (forall j :: i <= j < |t0| && Used(t0[j]) ==> t0[j].key !in done)
  }

  lemma AllMoved<K(!new), V>(t0: seq<Bucket<K, V>>, done: map<K, V>, all: map<K, V>)
    requires MovedUpTo(t0, |t0|, done, all)
    ensures done == all
  {
    forall k | k in all
      ensures k in done
    {
      assert Has(t0, k);
    }
  }

  lemma RoomFor<K(!new), V>(t: seq<Bucket<K, V>>, done: map<K, V>, all: map<K, V>) returns (free: nat)
    requires Distinct(t) && Represents(t, done)
    requires done.Keys <= all.Keys && |all| < |t|
    ensures free < |t| && !Used(t[free])
  {
    SubsetSize(done.Keys, all.Keys);
    FreeSlotExists(t, done);
    var f :| 0 <= f < |t| && !Used(t[f]);
    free := f;
  }
}
