/** What the key-value store of kv.c is for: a map, and what is found in it after any run of calls. */
module KvMap {
  import opened KvLog

  type Map = map<Bytes, Bytes>

  /** The calls that may change the map, a set only if it succeeds, and compaction. */
  datatype Op = Put(key: Bytes, val: Bytes) | Drop(key: Bytes) | DropPrefix(prefix: Bytes) | Compact | Refused

  /** What a call does to the map. */
  ghost predicate Step(m: Map, op: Op, m': Map) {
    match op
    case Put(key, val) => m' == m[key := val]
    case Drop(key) => m' == m - {key}
    case DropPrefix(p) =>
      && (forall k :: k in m' <==> k in m && !HasPrefix(k, p))
      && (forall k :: k in m' ==> m'[k] == m[k])
    case Compact => m' == m
    case Refused => m' == m
  }

  ghost predicate Run(ms: seq<Map>, ops: seq<Op>) {
    |ms| == |ops| + 1 && forall i :: 0 <= i < |ops| ==> Step(ms[i], ops[i], ms[i + 1])
  }

  predicate Touches(op: Op, key: Bytes) {
    match op
    case Put(k, _) => k == key
    case Drop(k) => k == key
    case DropPrefix(p) => HasPrefix(key, p)
    case _ => false
  }

  /** A call that does not touch the key leaves it as it is. */
  lemma Untouched(m: Map, op: Op, m': Map, key: Bytes)
    requires Step(m, op, m') && !Touches(op, key)
    ensures (key in m' <==> key in m) && (key in m ==> m'[key] == m[key])
  {}

  /** What is found under a key at the end of a run: the value of the last set, if nothing after it
      touched the key; and nothing, if the last call that touched it was a deletion. */
  lemma {:induction false} LastCallDecides(ms: seq<Map>, ops: seq<Op>, key: Bytes, i: nat)
    requires Run(ms, ops) && i < |ops| && Touches(ops[i], key)
    requires forall j :: i < j < |ops| ==> !Touches(ops[j], key)
    ensures var m := ms[|ops|];
            if ops[i].Put? then key in m && m[key] == ops[i].val else key !in m
    decreases |ops|
  {
    var n := |ops| - 1;
    if i < n {
      assert Run(ms[..n + 1], ops[..n]);
      LastCallDecides(ms[..n + 1], ops[..n], key, i);
      Untouched(ms[n], ops[n], ms[n + 1], key);
    } else {
      assert Step(ms[n], ops[n], ms[n + 1]);
    }
  }
}
