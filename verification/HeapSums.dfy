/** Sums over the blocks handed out, and the bytes that belong to them. */
module HeapSums {

  /** The bytes taken by a set of blocks: payloads and headers. */
  ghost function Span(head: nat, m: map<nat, nat>): (r: nat)
  {
    if m == map[] then 0
    else
      var b :| b in m;
      m[b] + head + Span(head, m - {b})
  }

  lemma {:induction false} SpanTake(head: nat, m: map<nat, nat>, b: nat)
    requires b in m
    ensures Span(head, m) == m[b] + head + Span(head, m - {b})
    decreases |m|
  {
    var a :| a in m && Span(head, m) == m[a] + head + Span(head, m - {a});
    if a != b {
      SpanTake(head, m - {a}, b);
      SpanTake(head, m - {b}, a);
      assert m - {a} - {b} == m - {b} - {a};
    }
  }

  lemma SpanPut(head: nat, m: map<nat, nat>, b: nat, size: nat)
    requires b !in m
    ensures Span(head, m[b := size]) == Span(head, m) + size + head
  {
    SpanTake(head, m[b := size], b);
    assert m[b := size] - {b} == m;
  }

  lemma SpanReplace(head: nat, m: map<nat, nat>, b: nat, size: nat)
    requires b in m
    ensures Span(head, m[b := size]) == Span(head, m) - m[b] + size
  {
    SpanTake(head, m, b);
    SpanTake(head, m[b := size], b);
    assert m[b := size] - {b} == m - {b};
  }

  /** The payloads of the blocks in `live` have the same bytes in both memories. */
  ghost predicate Kept(head: nat, live: map<nat, nat>, m0: seq<int>, m1: seq<int>) {
    |m0| == |m1| &&
    forall b :: b in live ==> KeptAt(head, b, live[b], m0, m1)
  }

  ghost predicate KeptAt(head: nat, b: nat, size: nat, m0: seq<int>, m1: seq<int>)
    requires |m0| == |m1|
  {
    forall i :: b + head <= i < b + head + size && i < |m0| ==> m1[i] == m0[i]
  }

  lemma KeptTrans(head: nat, live: map<nat, nat>, m0: seq<int>, m1: seq<int>, m2: seq<int>)
    requires Kept(head, live, m0, m1) && Kept(head, live, m1, m2)
    ensures Kept(head, live, m0, m2)
  {
    forall b | b in live ensures KeptAt(head, b, live[b], m0, m2) {
      assert KeptAt(head, b, live[b], m0, m1) && KeptAt(head, b, live[b], m1, m2);
    }
  }
}
