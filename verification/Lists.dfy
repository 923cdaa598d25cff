/** Facts about the kernel's linked lists, modelled as sequences with their
    first element at index 0 (`klist_t` rings without the head node). */
module Lists {

  ghost predicate NoDup<T>(xs: seq<T>) {
    forall i, j :: 0 <= i < j < |xs| ==> xs[i] != xs[j]
  }

  lemma NoDupCons<T>(x: T, xs: seq<T>)
    requires NoDup(xs) && x !in xs
    ensures NoDup([x] + xs)
  {}

  /** `klist_rm`: the list without the node `x`. */
  function Without<T(==)>(xs: seq<T>, x: T): (r: seq<T>)
    ensures forall y :: y in r ==> y in xs
    ensures forall y :: y in xs && y != x ==> y in r
    ensures x !in xs ==> r == xs
    ensures |r| == if x in xs then |xs| - 1 else |xs|
  {
    if xs == [] then []
    else if xs[0] == x then xs[1..]
    else [xs[0]] + Without(xs[1..], x)
  }

  lemma {:induction false} WithoutNoDup<T>(xs: seq<T>, x: T)
    requires NoDup(xs)
    ensures NoDup(Without(xs, x)) && x !in Without(xs, x)
  {
    if xs != [] && xs[0] != x {
      assert NoDup(xs[1..]);
      WithoutNoDup(xs[1..], x);
      NoDupCons(xs[0], Without(xs[1..], x));
    } else if xs != [] {
      assert x !in xs[1..];
    }
  }

  /** `klist_rm` closes the gap: what was before the node and what was behind it stay in order. */
  lemma {:induction false} WithoutAt<T>(xs: seq<T>, x: T, i: nat)
    requires i < |xs| && xs[i] == x && x !in xs[..i]
    ensures Without(xs, x) == xs[..i] + xs[i + 1..]
  {
    if i > 0 {
      assert xs[0] in xs[..i];
      assert xs[1..][..i - 1] == xs[..i][1..] && xs[1..][i..] == xs[i + 1..];
      WithoutAt(xs[1..], x, i - 1);
    }
  }

  /** Removing the first element of a list. */
  lemma WithoutHead<T>(xs: seq<T>)
    requires xs != []
    ensures Without(xs, xs[0]) == xs[1..]
  {}

  /** Removing a later element leaves the first one in place. */
  lemma WithoutKeepsHead<T>(xs: seq<T>, x: T)
    requires xs != [] && xs[0] != x
    ensures Without(xs, x) != [] && Without(xs, x)[0] == xs[0]
  {}

  /** Every element of `xs` has a key. */
  predicate Keyed(keys: seq<nat>, xs: seq<nat>) {
    forall i :: 0 <= i < |xs| ==> xs[i] < |keys|
  }

  /** The list is ordered by key, first the least. */
  ghost predicate Sorted(keys: seq<nat>, xs: seq<nat>)
    requires Keyed(keys, xs)
  {
    forall i, j :: 0 <= i < j < |xs| ==> keys[xs[i]] <= keys[xs[j]]
  }

  /** Insert `x` in front of the first element whose key is greater than `v`. */
  function Insert(keys: seq<nat>, xs: seq<nat>, v: nat, x: nat): (r: seq<nat>)
    requires Keyed(keys, xs)
    ensures |r| == |xs| + 1
    ensures forall y :: y in r <==> y == x || y in xs
  {
    if xs == [] then [x]
    else if keys[xs[0]] > v then [x] + xs
    else [xs[0]] + Insert(keys, xs[1..], v, x)
  }

  lemma {:induction false} InsertNoDup(keys: seq<nat>, xs: seq<nat>, v: nat, x: nat)
    requires Keyed(keys, xs) && NoDup(xs) && x !in xs
    ensures NoDup(Insert(keys, xs, v, x))
  {
    if xs != [] && keys[xs[0]] <= v {
      assert NoDup(xs[1..]) && x !in xs[1..];
      InsertNoDup(keys, xs[1..], v, x);
      NoDupCons(xs[0], Insert(keys, xs[1..], v, x));
    } else {
      NoDupCons(x, xs);
    }
  }

  /** A list is ordered if its tail is, and its head has the least key. */
  lemma SortedCons(keys: seq<nat>, x: nat, xs: seq<nat>)
    requires Keyed(keys, xs) && Sorted(keys, xs) && x < |keys|
    requires forall y :: y in xs ==> keys[x] <= keys[y]
    ensures Keyed(keys, [x] + xs) && Sorted(keys, [x] + xs)
  {
    var zs := [x] + xs;
    assert forall i :: 0 < i < |zs| ==> zs[i] == xs[i - 1] && xs[i - 1] in xs;
  }

  lemma SortedHead(keys: seq<nat>, xs: seq<nat>)
    requires Keyed(keys, xs) && Sorted(keys, xs) && xs != []
    ensures Sorted(keys, xs[1..]) && forall y :: y in xs[1..] ==> keys[xs[0]] <= keys[y]
  {}

  lemma {:induction false} InsertSorted(keys: seq<nat>, xs: seq<nat>, x: nat)
    requires Keyed(keys, xs) && Sorted(keys, xs) && x < |keys|
    ensures Keyed(keys, Insert(keys, xs, keys[x], x))
    ensures Sorted(keys, Insert(keys, xs, keys[x], x))
  {
    if xs != [] {
      SortedHead(keys, xs);
      if keys[xs[0]] <= keys[x] {
        InsertSorted(keys, xs[1..], x);
        SortedCons(keys, xs[0], Insert(keys, xs[1..], keys[x], x));
      } else {
        SortedCons(keys, x, xs);
      }
    }
  }

  lemma {:induction false} WithoutSorted(keys: seq<nat>, xs: seq<nat>, x: nat)
    requires Keyed(keys, xs) && Sorted(keys, xs)
    ensures Keyed(keys, Without(xs, x)) && Sorted(keys, Without(xs, x))
  {
    if xs != [] {
      SortedHead(keys, xs);
      if xs[0] != x {
        WithoutSorted(keys, xs[1..], x);
        SortedCons(keys, xs[0], Without(xs[1..], x));
      }
    }
  }

  /** `Insert`, by the place it finds. */
  lemma {:induction false} InsertAt(keys: seq<nat>, xs: seq<nat>, v: nat, x: nat, i: nat)
    requires Keyed(keys, xs) && i <= |xs| && (forall j :: 0 <= j < i ==> keys[xs[j]] <= v) && (i < |xs| ==> keys[xs[i]] > v)
    ensures Insert(keys, xs, v, x) == xs[..i] + [x] + xs[i..]
  {
    if i == 0 {
      assert xs[..0] + [x] + xs[0..] == [x] + xs;
    } else {
      InsertAt(keys, xs[1..], v, x, i - 1);
      Reassemble(xs, x, i);
    }
  }

  lemma Reassemble<T>(xs: seq<T>, x: T, i: nat)
    requires 0 < i <= |xs|
    ensures [xs[0]] + (xs[1..][..i - 1] + [x] + xs[1..][i - 1..]) == xs[..i] + [x] + xs[i..]
  {}

  /** A list without duplicates of numbers below `n` has at most `n` elements. */
  lemma {:induction false} NoDupBound(xs: seq<nat>, n: nat)
    requires NoDup(xs) && forall i :: 0 <= i < |xs| ==> xs[i] < n
    ensures |xs| <= n
    decreases n
  {
    hide NoDup, Without;
    assert xs == [] || xs[0] < n;
    if n > 0 {
      var top: nat := n - 1;
      var r := Without(xs, top);
      WithoutNoDup(xs, top);
      forall i | 0 <= i < |r| ensures r[i] < top {
        assert r[i] in r && r[i] in xs;
        var j :| 0 <= j < |xs| && xs[j] == r[i];
      }
      NoDupBound(r, top);
    }
  }

  /** `Insert` into an ordered list: behind all keys that are not greater, before all that are. */
  lemma InsertPlace(keys: seq<nat>, xs: seq<nat>, v: nat, x: nat) returns (i: nat)
    requires Keyed(keys, xs) && Sorted(keys, xs)
    ensures i <= |xs| && Insert(keys, xs, v, x) == xs[..i] + [x] + xs[i..]
    ensures forall j :: 0 <= j < |xs| ==> (j < i <==> keys[xs[j]] <= v)
  {
    i := 0;
    while i < |xs| && keys[xs[i]] <= v
      invariant i <= |xs| && forall j :: 0 <= j < i ==> keys[xs[j]] <= v
    {
      i := i + 1;
    }
    InsertAt(keys, xs, v, x, i);
  }
}
