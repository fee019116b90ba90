/** Any sequence of operations on a hash map gives the answers of a finite map. */
module HashMapRuns {
  import opened Options
  import opened HashMaps

  /** An operation, with whether an allocation it may ask for is granted. */
  datatype Op<K, V> = SetOp(k: K, v: V, alloc: bool) | GetOp(k: K) | DeleteOp(k: K, alloc: bool)

  datatype Reply<V> = Reply(item: Option<V>, oom: bool)

  /** A finite map; the bucket count and its lower bound matter only for when
      memory is asked for. */
  datatype Model<K, V> = Model(m: map<K, V>, buckets: nat, cap: nat)

  predicate Refused<K, V>(s: Model<K, V>, op: Op<K, V>) {
    op.SetOp? && |s.m| >= GrowAt(s.buckets) && !op.alloc
  }

  function Apply<K, V>(s: Model<K, V>, op: Op<K, V>): (s': Model<K, V>) {
    if Refused(s, op) then s else
      match op
      case SetOp(k, v, _) => s.(m := s.m[k := v], buckets := if |s.m| >= GrowAt(s.buckets) then 2 * s.buckets else s.buckets)
      case GetOp(_) => s
      case DeleteOp(k, alloc) =>
        var shrinks := k in s.m && s.buckets > s.cap && |s.m - {k}| <= ShrinkAt(s.buckets) && alloc;
        s.(m := s.m - {k}, buckets := if shrinks then s.buckets / 2 else s.buckets)
  }

  /** Set and delete answer with the previous item, get with the current one, and
      a refused set with nothing. */
  function Answer<K, V>(s: Model<K, V>, op: Op<K, V>): Reply<V> {
    if Refused(s, op) then Reply(None, true) else Reply(Lookup(s.m, op.k), false)
  }

  /** After the first `n` operations on a new map of `cap` buckets. */
  function After<K, V>(cap: nat, ops: seq<Op<K, V>>, n: nat): Model<K, V>
    requires n <= |ops|
  {
    if n == 0 then Model(map[], cap, cap) else Apply(After(cap, ops, n - 1), ops[n - 1])
  }

  lemma AfterSteps<K, V>(cap: nat, ops: seq<Op<K, V>>, n: nat)
    requires n < |ops|
    ensures After(cap, ops, n + 1) == Apply(After(cap, ops, n), ops[n])
  {
  }

  ghost function ModelOf<K(!new, 0), V(0)>(hm: HashMap<K, V>): Model<K, V>
    reads hm
  {
    Model(hm.Contents, hm.buckets.Length, hm.cap)
  }

  /** One operation does what it does on the model. */
  method Perform<K(==, !new, 0), V(0)>(hm: HashMap<K, V>, op: Op<K, V>) returns (reply: Reply<V>)
    requires hm.Valid()
    modifies hm, hm.buckets
    ensures hm.Valid() && (hm.buckets == old(hm.buckets) || fresh(hm.buckets))
    ensures reply == Answer(old(ModelOf(hm)), op) && ModelOf(hm) == Apply(old(ModelOf(hm)), op)
  {
    hide HashMap.Valid, HashMap.Full;
    hm.FullAt();
    match op {
      case SetOp(k, v, alloc) =>
        var item := hm.Set(k, v, alloc);
        reply := Reply(item, hm.oom);
      case GetOp(k) =>
        var item := hm.Get(k);
        reply := Reply(item, false);
      case DeleteOp(k, alloc) =>
        var item := hm.Delete(k, alloc);
        reply := Reply(item, false);
    }
  }

  /** Perform the operations on a new map of the requested capacity and note every
      answer; `cap` is the bucket count it starts with. */
  method Replay<K(==, !new, 0), V(0)>(hash: K -> nat, request: nat, ops: seq<Op<K, V>>)
    returns (cap: nat, replies: seq<Reply<V>>, count: nat)
    ensures Rounds(request, cap) && |replies| == |ops|
    ensures forall i :: 0 <= i < |ops| ==> replies[i] == Answer(After(cap, ops, i), ops[i])
    ensures count == |After(cap, ops, |ops|).m|
  {
    hide HashMap.Valid, Answer, Apply;
    var hm := new HashMap<K, V>(hash, request);
    cap := hm.cap;
    replies := [];
    assert After(cap, ops, 0) == ModelOf(hm);
    hide After;
    for i := 0 to |ops|
      invariant hm.Valid() && fresh(hm) && fresh(hm.buckets)
      invariant After(cap, ops, i) == ModelOf(hm)
      invariant |replies| == i
      invariant forall j :: 0 <= j < i ==> replies[j] == Answer(After(cap, ops, j), ops[j])
    {
      AfterSteps(cap, ops, i);
      var reply := Perform(hm, ops[i]);
      replies := replies + [reply];
    }
    count := hm.Count();
  }
}
