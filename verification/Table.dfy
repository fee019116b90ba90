/** Bucket arrays of the Robin Hood hash map, seen as sequences.

    A bucket stores its hash, its probe distance plus one (`dib`, 0 when the
    bucket is free) and an item. The facts below are about whole tables: where
    a key can lie, why a probe may stop, and what one displacement or one
    backward shift does to the table.
 */
module Table {

  datatype Bucket<K, V> = Bucket(hash: nat, dib: nat, key: K, val: V)

  // ---------------------------------------------------------------- positions

  /** The slot after `i`, wrapping around. */
  function Next(i: nat, n: nat): (r: nat)
    requires i < n
    ensures r < n
  {
    if i + 1 == n then 0 else i + 1
  }

  function Prev(i: nat, n: nat): (r: nat)
    requires i < n
    ensures r < n && Next(r, n) == i
  {
    if i == 0 then n - 1 else i - 1
  }

  /** The number of forward steps from `a` to `b` around the table. */
  function Dist(a: nat, b: nat, n: nat): (d: nat)
    requires a < n && b < n
    ensures d < n && (d == 0 <==> a == b)
  {
    if a <= b then b - a else b - a + n
  }

  /** The slot a hash is probed from: the table size is a power of two, so the
      masked hash is the remainder. */
  function Home(hash: nat, n: nat): (r: nat)
    requires n > 0
    ensures r < n
  {
    hash % n
  }

  // --------------------------------------------------------------- invariants

  predicate Used<K, V>(b: Bucket<K, V>) {
    b.dib > 0
  }

  /** Bucket `b` may stand in slot `i`: it carries its key's hash and the exact
      distance from the home slot. */
  ghost predicate FitsAt<K(!new), V>(b: Bucket<K, V>, hash: K -> nat, i: nat, n: nat)
    requires i < n
  {
    b.hash == hash(b.key) && b.dib == Dist(Home(b.hash, n), i, n) + 1
  }

  ghost predicate Placed<K(!new), V>(t: seq<Bucket<K, V>>, hash: K -> nat) {
    forall i :: 0 <= i < |t| && Used(t[i]) ==> FitsAt(t[i], hash, i, |t|)
  }

  /** The Robin Hood invariant at slot `i`. */
  ghost predicate StepOk<K, V>(t: seq<Bucket<K, V>>, i: nat)
    requires i < |t|
  {
    t[Next(i, |t|)].dib <= t[i].dib + 1
  }

  ghost predicate Local<K, V>(t: seq<Bucket<K, V>>) {
    forall i :: 0 <= i < |t| ==> StepOk(t, i)
  }

  ghost predicate Distinct<K, V>(t: seq<Bucket<K, V>>) {
    forall i, j :: 0 <= i < |t| && 0 <= j < |t| && Used(t[i]) && Used(t[j]) && t[i].key == t[j].key ==> i == j
  }

  ghost predicate Has<K, V>(t: seq<Bucket<K, V>>, k: K) {
    exists i :: 0 <= i < |t| && Used(t[i]) && t[i].key == k
  }

  /** The used buckets of `t` are exactly the bindings of `m`. */
  ghost predicate Represents<K, V>(t: seq<Bucket<K, V>>, m: map<K, V>) {
    && (forall i :: 0 <= i < |t| && Used(t[i]) ==> t[i].key in m && m[t[i].key] == t[i].val)
    && (forall k :: k in m ==> Has(t, k))
  }

  ghost predicate Sound<K(!new), V>(t: seq<Bucket<K, V>>, hash: K -> nat) {
    |t| >= 2 && Placed(t, hash) && Local(t) && Distinct(t)
  }

  // ------------------------------------------------------ reading a table

  /** A bucket far from home is preceded by a run of buckets at least as far
      along: walking back from slot `s` to slot `p` loses at most one `dib` per
      step. */
  lemma {:induction false} RunBehind<K, V>(t: seq<Bucket<K, V>>, p: nat, s: nat)
    requires p < |t| && s < |t| && Local(t)
    ensures t[p].dib + Dist(p, s, |t|) >= t[s].dib
    decreases Dist(p, s, |t|)
  {
    if p != s {
      RunBehind(t, Next(p, |t|), s);
      assert StepOk(t, p);
    }
  }

  /** No free slot lies between the home of a stored key and the key itself. */
  lemma FreeSlotAhead<K(!new), V>(t: seq<Bucket<K, V>>, hash: K -> nat, i: nat, free: nat)
    requires Placed(t, hash) && Local(t) && i < |t| && free < |t|
    requires Used(t[i]) && !Used(t[free])
    ensures Dist(Home(t[i].hash, |t|), i, |t|) < Dist(Home(t[i].hash, |t|), free, |t|)
  {
    assert FitsAt(t[i], hash, i, |t|);
    RunBehind(t, free, i);
  }

  /** The slots probed before reaching `i` do not hold `k`. */
  ghost predicate Scanned<K, V>(t: seq<Bucket<K, V>>, home: nat, i: nat, k: K)
    requires home < |t| && i < |t|
  {
    forall p :: 0 <= p < |t| && Used(t[p]) && Dist(home, p, |t|) < Dist(home, i, |t|) ==> t[p].key != k
  }

  /** A probe that passes a used bucket with another key has scanned one more
      slot, and has not yet gone around. */
  lemma ScanOn<K(!new), V>(t: seq<Bucket<K, V>>, home: nat, i: nat, free: nat, k: K)
    requires home < |t| && i < |t| && free < |t| && !Used(t[free])
    requires Used(t[i]) && t[i].key != k && Scanned(t, home, i, k)
    requires Dist(home, i, |t|) <= Dist(home, free, |t|)
    ensures Scanned(t, home, Next(i, |t|), k)
    ensures Dist(home, Next(i, |t|), |t|) <= Dist(home, free, |t|)
    ensures Dist(Next(i, |t|), free, |t|) < Dist(i, free, |t|)
  {
    var x := Next(i, |t|);
    forall p | 0 <= p < |t| && Used(t[p]) && Dist(home, p, |t|) < Dist(home, x, |t|)
      ensures t[p].key != k
    {
      assert p == i || Dist(home, p, |t|) < Dist(home, i, |t|);
    }
  }

  /** Why a probe may stop: once it meets a bucket closer to its own home than
      the probe is, the key is nowhere in the table. A free bucket has `dib` 0,
      so this covers lookups as well as insertions. */
  lemma ProbeMayStop<K(!new), V>(t: seq<Bucket<K, V>>, hash: K -> nat, k: K, i: nat)
    requires Placed(t, hash) && Local(t) && i < |t|
    requires Scanned(t, Home(hash(k), |t|), i, k)
    requires t[i].dib <= Dist(Home(hash(k), |t|), i, |t|)
    ensures !Has(t, k)
  {
    var home := Home(hash(k), |t|);
    if Has(t, k) {
      var s :| 0 <= s < |t| && Used(t[s]) && t[s].key == k;
      assert FitsAt(t[s], hash, s, |t|);
      RunBehind(t, i, s);
      assert false;
    }
  }

  /** A key set of distinct used slots is as large as the slot set. */
  lemma {:induction false} SlotsBound<K, V>(t: seq<Bucket<K, V>>, m: map<K, V>, slots: set<nat>)
    requires Distinct(t) && Represents(t, m)
    requires forall i :: i in slots ==> i < |t| && Used(t[i])
    ensures |slots| <= |m|
  {
    var keys := set i | i in slots :: t[i].key;
    SlotKeys(t, slots, keys);
    assert keys <= m.Keys;
    SubsetSize(keys, m.Keys);
  }

  lemma {:induction false} SlotKeys<K, V>(t: seq<Bucket<K, V>>, slots: set<nat>, keys: set<K>)
    requires Distinct(t)
    requires forall i :: i in slots ==> i < |t| && Used(t[i])
    requires keys == set i | i in slots :: t[i].key
    ensures |keys| == |slots|
    decreases |slots|
  {
    if slots == {} {
      assert keys == {};
    } else {
      var i :| i in slots;
      var rest := set j | j in slots - {i} :: t[j].key;
      SlotKeys(t, slots - {i}, rest);
      assert t[i].key !in rest;
      assert keys == rest + {t[i].key};
    }
  }

  lemma {:induction false} SubsetSize<T>(a: set<T>, b: set<T>)
    requires a <= b
    ensures |a| <= |b|
  {
    assert b == a + (b - a);
  }

  lemma {:induction false} RangeSize(n: nat, s: set<nat>)
    requires forall i: nat :: i in s <==> i < n
    ensures |s| == n
    decreases n
  {
    if n == 0 {
      assert s == {};
    } else {
      RangeSize(n - 1, s - {n - 1});
      assert s == s - {n - 1} + {n - 1};
    }
  }

  /** A table larger than the map it holds has a free slot. */
  lemma FreeSlotExists<K, V>(t: seq<Bucket<K, V>>, m: map<K, V>)
    requires Distinct(t) && Represents(t, m) && |m| < |t|
    ensures exists free :: 0 <= free < |t| && !Used(t[free])
  {
    if forall i :: 0 <= i < |t| ==> Used(t[i]) {
      var slots := set i: nat | i < |t| && Used(t[i]);
      RangeSize(|t|, slots);
      SlotsBound(t, m, slots);
      assert false;
    }
  }

  /** Every probe distance is bounded by the number of items: the `dib` buckets
      up to and including slot `i` are all in use. */
  lemma {:induction false} DibAtMostCount<K(!new), V>(t: seq<Bucket<K, V>>, hash: K -> nat, m: map<K, V>, i: nat)
    requires Sound(t, hash) && Represents(t, m) && i < |t|
    ensures t[i].dib <= |m|
  {
    if Used(t[i]) {
      assert FitsAt(t[i], hash, i, |t|);
      var run := set p: nat | p < |t| && Dist(p, i, |t|) < t[i].dib;
      forall p | p in run
        ensures Used(t[p])
      {
        RunBehind(t, p, i);
      }
      RunSize(i, |t|, t[i].dib, run);
      SlotsBound(t, m, run);
    }
  }

  /** The same for the entry in hand during an insertion, which counts as one more
      item. */
  lemma EntryDibBound<K(!new), V>(t: seq<Bucket<K, V>>, hash: K -> nat, m: map<K, V>, e: Bucket<K, V>, i: nat, free: nat)
    requires AtSlot(t, hash, e, i, free) && Represents(t, m)
    ensures e.dib <= |m| + 1
  {
    DibAtMostCount(t, hash, m, Prev(i, |t|));
  }

  lemma {:induction false} RunSize(i: nat, n: nat, d: nat, run: set<nat>)
    requires i < n && d <= n
    requires forall p: nat :: p in run <==> p < n && Dist(p, i, n) < d
    ensures |run| == d
    decreases d
  {
    if d == 0 {
      assert run == {};
    } else {
      var far := if i >= d - 1 then i - (d - 1) else i - (d - 1) + n;
      RunSize(i, n, d - 1, run - {far});
      assert run == run - {far} + {far};
    }
  }

  // ------------------------------------------------- changing one slot

  lemma StoreRepresents<K, V>(t: seq<Bucket<K, V>>, i: nat, e: Bucket<K, V>, m: map<K, V>)
    requires i < |t| && Distinct(t) && Represents(t, m)
    requires Used(e) && !Has(t, e.key)
    ensures Distinct(t[i := e])
    ensures Represents(t[i := e], (if Used(t[i]) then m - {t[i].key} else m)[e.key := e.val])
  {
    var u := t[i := e];
    var m' := (if Used(t[i]) then m - {t[i].key} else m)[e.key := e.val];
    assert forall j :: 0 <= j < |t| && Used(t[j]) ==> t[j].key != e.key;
    forall k | k in m'
      ensures Has(u, k)
    {
      if k == e.key {
        assert u[i] == e;
      } else {
        var j :| 0 <= j < |t| && Used(t[j]) && t[j].key == k;
        assert u[j] == t[j];
      }
    }
  }

  lemma ClearRepresents<K, V>(t: seq<Bucket<K, V>>, i: nat, m: map<K, V>)
    requires i < |t| && Distinct(t) && Represents(t, m) && Used(t[i])
    ensures Distinct(t[i := t[i].(dib := 0)])
    ensures Represents(t[i := t[i].(dib := 0)], m - {t[i].key})
  {
    var u := t[i := t[i].(dib := 0)];
    forall k | k in m - {t[i].key}
      ensures Has(u, k)
    {
      var j :| 0 <= j < |t| && Used(t[j]) && t[j].key == k;
      assert u[j] == t[j];
    }
  }

  lemma OverwriteRepresents<K(!new), V>(t: seq<Bucket<K, V>>, hash: K -> nat, i: nat, v: V, m: map<K, V>)
    requires Sound(t, hash) && i < |t| && Used(t[i]) && Represents(t, m)
    ensures Sound(t[i := t[i].(val := v)], hash)
    ensures Represents(t[i := t[i].(val := v)], m[t[i].key := v])
  {
    var u := t[i := t[i].(val := v)];
    assert forall j :: 0 <= j < |t| ==> u[j].dib == t[j].dib && u[j].key == t[j].key && u[j].hash == t[j].hash;
    forall j | 0 <= j < |t|
      ensures StepOk(u, j)
    {
      assert StepOk(t, j);
    }
    forall j | 0 <= j < |t| && Used(u[j])
      ensures FitsAt(u[j], hash, j, |t|)
    {
      assert FitsAt(t[j], hash, j, |t|);
    }
    forall k | k in m[t[i].key := v]
      ensures Has(u, k)
    {
      assert k == t[i].key || Has(t, k);
      var j :| 0 <= j < |t| && Used(t[j]) && t[j].key == k;
      assert Used(u[j]);
    }
  }

  // ------------------------------------------------------------- insertion

  /** An entry in hand, about to be compared with slot `i`: it has the distance
      it would have there, everything up to slot `i` is in use, and slot `free`
      still lies ahead. */
  ghost predicate AtSlot<K(!new), V>(t: seq<Bucket<K, V>>, hash: K -> nat, e: Bucket<K, V>, i: nat, free: nat) {
    && Sound(t, hash) && i < |t| && free < |t| && !Used(t[free])
    && FitsAt(e, hash, i, |t|)
    && Dist(Home(e.hash, |t|), i, |t|) <= Dist(Home(e.hash, |t|), free, |t|)
    && (e.dib > 1 ==> e.dib <= t[Prev(i, |t|)].dib + 1)
  }

  /** The table together with the entry in hand holds `m`. */
  ghost predicate Carrying<K(!new), V>(t: seq<Bucket<K, V>>, e: Bucket<K, V>, m: map<K, V>) {
    e.key in m && m[e.key] == e.val && Represents(t, m - {e.key})
  }

  lemma CarriedIsAbsent<K(!new), V>(t: seq<Bucket<K, V>>, e: Bucket<K, V>, m: map<K, V>)
    requires Carrying(t, e, m)
    ensures !Has(t, e.key)
  {
  }

  lemma StoreKeepsSound<K(!new), V>(t: seq<Bucket<K, V>>, hash: K -> nat, e: Bucket<K, V>, i: nat, free: nat)
    requires AtSlot(t, hash, e, i, free) && t[i].dib < e.dib && !Has(t, e.key)
    ensures Sound(t[i := e], hash)
  {
    var u := t[i := e];
    forall j | 0 <= j < |t|
      ensures StepOk(u, j)
    {
      assert StepOk(t, j);
      assert j == Prev(i, |t|) <==> Next(j, |t|) == i;
    }
    forall j | 0 <= j < |t| && Used(u[j])
      ensures FitsAt(u[j], hash, j, |t|)
    {
      assert j != i ==> FitsAt(t[j], hash, j, |t|);
    }
    assert forall j :: 0 <= j < |t| && Used(t[j]) ==> t[j].key != e.key;
  }

  /** Insertion ends: the entry goes into a free slot. */
  lemma StoreInFree<K(!new), V>(t: seq<Bucket<K, V>>, hash: K -> nat, e: Bucket<K, V>, i: nat, free: nat, m: map<K, V>)
    requires AtSlot(t, hash, e, i, free) && Carrying(t, e, m) && !Used(t[i])
    ensures Sound(t[i := e], hash) && Represents(t[i := e], m)
  {
    CarriedIsAbsent(t, e, m);
    StoreKeepsSound(t, hash, e, i, free);
    StoreRepresents(t, i, e, m - {e.key});
    assert (m - {e.key})[e.key := e.val] == m;
  }

  /** Insertion displaces: the entry takes the slot and the bucket that was
      there travels on. */
  lemma Displace<K(!new), V>(t: seq<Bucket<K, V>>, hash: K -> nat, e: Bucket<K, V>, i: nat, free: nat, m: map<K, V>)
    requires AtSlot(t, hash, e, i, free) && Carrying(t, e, m) && Used(t[i]) && t[i].dib < e.dib
    ensures AtSlot(t[i := e], hash, t[i].(dib := t[i].dib + 1), Next(i, |t|), free)
    ensures Carrying(t[i := e], t[i].(dib := t[i].dib + 1), m)
  {
    CarriedIsAbsent(t, e, m);
    StoreKeepsSound(t, hash, e, i, free);
    StoreRepresents(t, i, e, m - {e.key});
    assert t[i].key != e.key;
    assert (m - {e.key} - {t[i].key})[e.key := e.val] == m - {t[i].key};
    FreeSlotAhead(t, hash, i, free);
    assert FitsAt(t[i], hash, i, |t|);
  }

  /** Insertion passes a bucket at least as far from home. */
  lemma PassBy<K(!new), V>(t: seq<Bucket<K, V>>, hash: K -> nat, e: Bucket<K, V>, i: nat, free: nat)
    requires AtSlot(t, hash, e, i, free) && Used(t[i]) && t[i].dib >= e.dib
    ensures AtSlot(t, hash, e.(dib := e.dib + 1), Next(i, |t|), free)
  {
  }

  // -------------------------------------------------------------- deletion

  /** A table with a hole at slot `h`: the bucket there is regarded as free, and
      the next bucket may be one step too far along. */
  ghost predicate Hole<K(!new), V>(t: seq<Bucket<K, V>>, hash: K -> nat, h: nat) {
    && |t| >= 2 && h < |t| && Used(t[h])
    && (forall i :: 0 <= i < |t| && i != h && Used(t[i]) ==> FitsAt(t[i], hash, i, |t|))
    && Local(t)
    && Distinct(Punched(t, h))
  }

  function Punched<K, V>(t: seq<Bucket<K, V>>, h: nat): (u: seq<Bucket<K, V>>)
    requires h < |t|
    ensures |u| == |t|
  {
    t[h := t[h].(dib := 0)]
  }

  /** The table after pulling the bucket behind the hole one slot back. */
  ghost function Shifted<K, V>(t: seq<Bucket<K, V>>, h: nat): (u: seq<Bucket<K, V>>)
    requires h < |t| && t[Next(h, |t|)].dib > 1
    ensures |u| == |t|
  {
    var b := t[Next(h, |t|)];
    t[h := b.(dib := b.dib - 1)]
  }

  /** Pulling a bucket back keeps what is stored: it is a clear and a store. */
  lemma ShiftRepresents<K(!new), V>(t: seq<Bucket<K, V>>, h: nat, m: map<K, V>)
    requires |t| >= 2 && h < |t| && t[Next(h, |t|)].dib > 1
    requires Distinct(Punched(t, h)) && Represents(Punched(t, h), m)
    ensures var p := Punched(Shifted(t, h), Next(h, |t|)); Distinct(p) && Represents(p, m)
  {
    var x := Next(h, |t|);
    var b := t[x];
    var c := b.(dib := b.dib - 1);
    var p := Punched(t, h);
    assert p[x] == b;
    ClearRepresents(p, x, m);
    var q := Punched(p, x);
    assert !Has(q, b.key);
    StoreRepresents(q, h, c, m - {b.key});
    assert q[h := c] == Punched(Shifted(t, h), x);
    assert b.key in m && (m - {b.key})[b.key := b.val] == m;
  }

  /** Backward shift moves the hole one slot on. */
  lemma ShiftBack<K(!new), V>(t: seq<Bucket<K, V>>, hash: K -> nat, h: nat, m: map<K, V>)
    requires Hole(t, hash, h) && Represents(Punched(t, h), m)
    requires t[Next(h, |t|)].dib > 1
    ensures Hole(Shifted(t, h), hash, Next(h, |t|))
    ensures Represents(Punched(Shifted(t, h), Next(h, |t|)), m)
  {
    ShiftRepresents(t, h, m);
    var u := Shifted(t, h);
    assert FitsAt(t[Next(h, |t|)], hash, Next(h, |t|), |t|);
    assert FitsAt(u[h], hash, h, |t|);
    assert StepOk(t, h);
    forall i | 0 <= i < |t|
      ensures StepOk(u, i)
    {
      assert StepOk(t, i);
    }
  }

  /** Backward shift ends: the hole is in front of a free bucket or of one at
      home, and clearing it leaves a sound table. */
  lemma CloseHole<K(!new), V>(t: seq<Bucket<K, V>>, hash: K -> nat, h: nat)
    requires Hole(t, hash, h) && t[Next(h, |t|)].dib <= 1
    ensures Sound(Punched(t, h), hash)
  {
    var u := Punched(t, h);
    forall i | 0 <= i < |t|
      ensures StepOk(u, i)
    {
      assert StepOk(t, i);
    }
  }

  /** Deleting the key of slot `h` starts with a hole there. */
  lemma OpenHole<K(!new), V>(t: seq<Bucket<K, V>>, hash: K -> nat, h: nat, m: map<K, V>)
    requires Sound(t, hash) && Represents(t, m) && h < |t| && Used(t[h])
    ensures Hole(t, hash, h) && Represents(Punched(t, h), m - {t[h].key})
  {
    ClearRepresents(t, h, m);
  }
}
