/** Red-black trees as values, and how linked nodes represent them, for k_rbtree.c. */
module RbModel {

  /** A node pointer. */
  datatype Ptr = Null | Addr(n: nat)

  /** `struct k_rbtree_node_t` and the key of the entry that contains it. */
  datatype Node = Node(key: int, parent: Ptr, red: bool, left: Ptr, right: Ptr)
  {
    function Kid(s: Side): Ptr { if s == Left then left else right }

    function WithKid(s: Side, p: Ptr): (n: Node)
      ensures n.key == key && n.parent == parent && n.red == red
      ensures n.Kid(s) == p && n.Kid(s.Other()) == Kid(s.Other())
    {
      if s == Left then this.(left := p) else this.(right := p)
    }
  }

  type Nodes = map<Ptr, Node>

  datatype Side = Left | Right
  {
    function Other(): Side { if this == Left then Right else Left }
  }

  datatype Tree = Leaf | Fork(l: Tree, id: Ptr, red: bool, r: Tree)
  {
    function Kid(s: Side): Tree
      requires Fork?
    {
      if s == Left then l else r
    }

    predicate Black() { Fork? ==> !red }

    function Top(): Ptr { if Leaf? then Null else id }
  }

  /** The tree with `a` on side `s` of its root, and `b` on the other side. */
  function Mk(s: Side, a: Tree, id: Ptr, red: bool, b: Tree): (r: Tree)
    ensures r.Fork? && r.Kid(s) == a && r.Kid(s.Other()) == b
  {
    if s == Left then Fork(a, id, red, b) else Fork(b, id, red, a)
  }

  /** A tree with a hole on side `s` of its lowest node, seen from the hole upwards. */
  datatype Ctx = Root | In(up: Ctx, s: Side, id: Ptr, red: bool, o: Tree)
  {
    predicate Red() { In? && red }

    function Parent(): Ptr { if In? then id else Null }
  }

  function Plug(c: Ctx, t: Tree): Tree
    decreases c
  {
    match c
    case Root => t
    case In(up, s, id, red, o) => Plug(up, Mk(s, t, id, red, o))
  }

  function Ids(t: Tree): set<Ptr> {
    if t.Leaf? then {} else {t.id} + Ids(t.l) + Ids(t.r)
  }

  function CtxIds(c: Ctx): set<Ptr> {
    if c.Root? then {} else {c.id} + Ids(c.o) + CtxIds(c.up)
  }

  /** No node occurs twice, and none is NULL. */
  ghost predicate Wf(t: Tree) {
    t.Fork? ==> t.id != Null && t.id !in Ids(t.l) && t.id !in Ids(t.r) && Ids(t.l) !! Ids(t.r) && Wf(t.l) && Wf(t.r)
  }

  ghost predicate CtxWf(c: Ctx) {
    c.In? ==> c.id != Null && c.id !in Ids(c.o) && Wf(c.o) && CtxWf(c.up) && ({c.id} + Ids(c.o)) !! CtxIds(c.up)
  }

  ghost predicate Distinct(c: Ctx, t: Tree) {
    Wf(t) && CtxWf(c) && CtxIds(c) !! Ids(t)
  }

  lemma {:induction false} PlugDistinct(c: Ctx, t: Tree)
    ensures Distinct(c, t) <==> Wf(Plug(c, t))
    ensures Ids(Plug(c, t)) == CtxIds(c) + Ids(t)
    decreases c
  {
    if c.In? {
      var u := Mk(c.s, t, c.id, c.red, c.o);
      PlugDistinct(c.up, u);
      assert Ids(u) == {c.id} + Ids(c.o) + Ids(t);
      assert Distinct(c, t) <==> Distinct(c.up, u);
    }
  }

  function InOrder(t: Tree): seq<Ptr> {
    if t.Leaf? then [] else InOrder(t.l) + [t.id] + InOrder(t.r)
  }

  /** The nodes and the order of a tree, by side. */
  lemma {:induction false} MkIds(s: Side, a: Tree, id: Ptr, red: bool, b: Tree)
    ensures Ids(Mk(s, a, id, red, b)) == {id} + Ids(a) + Ids(b)
    ensures Wf(Mk(s, a, id, red, b)) <==>
              id != Null && id !in Ids(a) && id !in Ids(b) && Ids(a) !! Ids(b) && Wf(a) && Wf(b)
    ensures InOrder(Mk(s, a, id, red, b)) ==
              if s == Left then InOrder(a) + [id] + InOrder(b) else InOrder(b) + [id] + InOrder(a)
  {}

  function Before(c: Ctx): seq<Ptr> {
    if c.Root? then [] else if c.s == Left then Before(c.up) else Before(c.up) + InOrder(c.o) + [c.id]
  }

  function After(c: Ctx): seq<Ptr> {
    if c.Root? then [] else if c.s == Left then [c.id] + InOrder(c.o) + After(c.up) else After(c.up)
  }

  lemma {:induction false} PlugInOrder(c: Ctx, t: Tree)
    ensures InOrder(Plug(c, t)) == Before(c) + InOrder(t) + After(c)
    decreases c
  {
    if c.In? {
      PlugInOrder(c.up, Mk(c.s, t, c.id, c.red, c.o));
      if c.s == Left {
        Assoc(Before(c.up), InOrder(t), [c.id], InOrder(c.o), After(c.up));
      } else {
        Assoc(Before(c.up), InOrder(c.o), [c.id], InOrder(t), After(c.up));
      }
    }
  }

  lemma {:induction false} Assoc(a: seq<Ptr>, b: seq<Ptr>, x: seq<Ptr>, c: seq<Ptr>, d: seq<Ptr>)
    ensures a + (b + x + c) + d == a + b + (x + c + d) == a + b + x + c + d
  {}

  lemma {:induction false} InOrderIds(t: Tree, x: Ptr)
    ensures x in InOrder(t) <==> x in Ids(t)
  {
    if t.Fork? {
      InOrderIds(t.l, x);
      InOrderIds(t.r, x);
    }
  }

  // ------------------------------------------------------------- representation

  /** The nodes from `p` down are the tree `t`, with right parent links and colours. */
  ghost predicate Rep(m: Nodes, p: Ptr, par: Ptr, t: Tree)
    decreases t
  {
    match t
    case Leaf => p == Null
    case Fork(l, id, red, r) =>
      && p == id != Null && id in m && m[id].parent == par && m[id].red == red
      && Rep(m, m[id].left, id, l) && Rep(m, m[id].right, id, r)
  }

  /** The nodes from `par` up to `root` are the context `c`, with `p` in its hole. */
  ghost predicate RepCtx(m: Nodes, root: Ptr, c: Ctx, p: Ptr)
    decreases c
  {
    match c
    case Root => root == p
    case In(up, s, id, red, o) =>
      && id != Null && id in m && m[id].Kid(s) == p && m[id].red == red && m[id].parent == up.Parent()
      && Rep(m, m[id].Kid(s.Other()), id, o) && RepCtx(m, root, up, id)
  }

  lemma {:induction false} RepTop(m: Nodes, p: Ptr, par: Ptr, t: Tree)
    requires Rep(m, p, par, t)
    ensures p == t.Top() && (p == Null <==> t.Leaf?)
  {}

  /** One level of a tree, by side. */
  lemma {:induction false} RepMk(m: Nodes, p: Ptr, par: Ptr, s: Side, a: Tree, id: Ptr, red: bool, b: Tree)
    ensures Rep(m, p, par, Mk(s, a, id, red, b)) <==>
              && p == id != Null && id in m && m[id].parent == par && m[id].red == red
              && Rep(m, m[id].Kid(s), id, a) && Rep(m, m[id].Kid(s.Other()), id, b)
  {}

  lemma {:induction false} PlugRep(m: Nodes, root: Ptr, c: Ctx, p: Ptr, t: Tree)
    requires p == t.Top()
    ensures RepCtx(m, root, c, p) && Rep(m, p, c.Parent(), t) <==> Rep(m, root, Null, Plug(c, t))
    decreases c
  {
    if c.In? {
      var u := Mk(c.s, t, c.id, c.red, c.o);
      PlugRep(m, root, c.up, c.id, u);
      RepMk(m, c.id, c.up.Parent(), c.s, t, c.id, c.red, c.o);
      if c.id in m && Rep(m, m[c.id].Kid(c.s), c.id, t) { RepTop(m, m[c.id].Kid(c.s), c.id, t); }
    } else if Rep(m, root, Null, t) {
      RepTop(m, root, Null, t);
    }
  }

  /** A subtree stays what it is where its nodes stay, but for a new parent of its root. */
  lemma {:induction false} RepMoved(m: Nodes, m': Nodes, p: Ptr, par: Ptr, par': Ptr, t: Tree)
    requires Rep(m, p, par, t) && Wf(t)
    requires forall x :: x in Ids(t) && x != p && x in m ==> x in m' && m'[x] == m[x]
    requires p != Null ==> p in m' && m'[p] == m[p].(parent := par')
    ensures Rep(m', p, par', t)
    decreases t
  {
    if t.Fork? {
      var l, r := m[t.id].left, m[t.id].right;
      RepTop(m, l, t.id, t.l);
      RepTop(m, r, t.id, t.r);
      RepMoved(m, m', l, t.id, t.id, t.l);
      RepMoved(m, m', r, t.id, t.id, t.r);
    }
  }

  lemma {:induction false} RepSame(m: Nodes, m': Nodes, p: Ptr, par: Ptr, t: Tree)
    requires Rep(m, p, par, t)
    requires forall x :: x in Ids(t) && x in m ==> x in m' && m'[x] == m[x]
    ensures Rep(m', p, par, t)
    decreases t
  {
    if t.Fork? {
      RepSame(m, m', m[t.id].left, t.id, t.l);
      RepSame(m, m', m[t.id].right, t.id, t.r);
    }
  }

  /** A context stays what it is where its nodes stay. */
  lemma {:induction false} CtxSame(m: Nodes, m': Nodes, root: Ptr, c: Ctx, p: Ptr)
    requires RepCtx(m, root, c, p)
    requires forall x :: x in CtxIds(c) && x in m ==> x in m' && m'[x] == m[x]
    ensures RepCtx(m', root, c, p)
    decreases c
  {
    if c.In? {
      RepSame(m, m', m[c.id].Kid(c.s.Other()), c.id, c.o);
      CtxSame(m, m', root, c.up, c.id);
    }
  }

  /** `rbtree_change_child`: what replaces `was` in the hole. */
  function ChangeChild(m: Nodes, was: Ptr, p: Ptr, parent: Ptr): Nodes
    requires parent != Null ==> parent in m
  {
    if parent == Null then m
    else if m[parent].left == was then m[parent := m[parent].(left := p)]
    else m[parent := m[parent].(right := p)]
  }

  function ChangeRoot(root: Ptr, p: Ptr, parent: Ptr): Ptr {
    if parent == Null then p else root
  }

  /** After `rbtree_change_child` the context holds the new node; the nodes below are free to differ. */
  lemma {:induction false} CtxChanged(m: Nodes, m': Nodes, root: Ptr, c: Ctx, was: Ptr, p: Ptr)
    requires RepCtx(m, root, c, was) && CtxWf(c) && was != Null && was !in CtxIds(c)
    requires c.Parent() != Null ==> c.Parent() in m'
    requires forall x :: x in CtxIds(c) && x in m ==> x in m' && m'[x] == m[x]
    ensures RepCtx(ChangeChild(m', was, p, c.Parent()), ChangeRoot(root, p, c.Parent()), c, p)
  {
    if c.In? {
      var m2 := ChangeChild(m', was, p, c.id);
      if c.s == Right {
        OtherTop(m, c, was);
        assert m[c.id].left != was;
      }
      RepSame(m, m2, m[c.id].Kid(c.s.Other()), c.id, c.o);
      CtxSame(m, m2, root, c.up, c.id);
      assert m2[c.id].Kid(c.s) == p && m2[c.id].Kid(c.s.Other()) == m[c.id].Kid(c.s.Other());
    }
  }

  lemma {:induction false} OtherTop(m: Nodes, c: Ctx, was: Ptr)
    requires c.In? && c.id in m && Rep(m, m[c.id].Kid(c.s.Other()), c.id, c.o) && was != Null && was !in CtxIds(c)
    ensures m[c.id].Kid(c.s.Other()) != was
  {
    RepTop(m, m[c.id].Kid(c.s.Other()), c.id, c.o);
  }

  // -------------------------------------------------------------- the colour rules

  /** Every path to a leaf passes `n` black nodes. */
  ghost predicate Bal(t: Tree, n: nat) {
    match t
    case Leaf => n == 0
    case Fork(l, _, red, r) =>
      if red then Bal(l, n) && Bal(r, n) else n > 0 && Bal(l, n - 1) && Bal(r, n - 1)
  }

  /** No red node has a red child. */
  ghost predicate NoRedRed(t: Tree) {
    t.Fork? ==> NoRedRed(t.l) && NoRedRed(t.r) && (t.red ==> t.l.Black() && t.r.Black())
  }

  /** The red-black rules, at black height `n`. */
  ghost predicate RedBlack(t: Tree, n: nat) {
    Bal(t, n) && NoRedRed(t) && t.Black()
  }

  /** The rules of a tree, by side. */
  lemma {:induction false} MkRules(s: Side, a: Tree, id: Ptr, red: bool, b: Tree, n: nat)
    ensures Bal(Mk(s, a, id, red, b), n) <==>
              if red then Bal(a, n) && Bal(b, n) else n > 0 && Bal(a, n - 1) && Bal(b, n - 1)
    ensures NoRedRed(Mk(s, a, id, red, b)) <==> NoRedRed(a) && NoRedRed(b) && (red ==> a.Black() && b.Black())
  {}

  lemma {:induction false} BalFork(t: Tree, n: nat)
    requires Bal(t, n) && n > 0
    ensures t.Fork?
  {}

  /** The context is balanced around a subtree of black height `n`; `total` is the height of the whole. */
  ghost predicate CtxBal(c: Ctx, n: nat, total: nat) {
    match c
    case Root => n == total
    case In(up, _, _, red, o) => Bal(o, n) && CtxBal(up, if red then n else n + 1, total)
  }

  /** No red-red in the context itself; its topmost node is black. */
  ghost predicate CtxRules(c: Ctx) {
    c.In? ==> NoRedRed(c.o) && (c.red ==> c.o.Black() && c.up.In? && !c.up.red) && CtxRules(c.up)
  }

  lemma {:induction false} PlugRules(c: Ctx, t: Tree, n: nat, total: nat)
    requires CtxBal(c, n, total) && CtxRules(c) && Bal(t, n) && NoRedRed(t)
    requires c.Red() || c.Root? ==> t.Black()
    ensures RedBlack(Plug(c, t), total)
    decreases c
  {
    if c.In? { PlugRules(c.up, Mk(c.s, t, c.id, c.red, c.o), if c.red then n else n + 1, total); }
  }

  /** Any place in a red-black tree has a black height. */
  lemma {:induction false} UnplugRules(c: Ctx, t: Tree, total: nat) returns (n: nat)
    requires Bal(Plug(c, t), total) && NoRedRed(Plug(c, t)) && Plug(c, t).Black()
    ensures CtxBal(c, n, total) && CtxRules(c) && Bal(t, n) && NoRedRed(t)
    ensures c.Red() || c.Root? ==> t.Black()
    decreases c
  {
    if c.Root? { return total; }
    var u := Mk(c.s, t, c.id, c.red, c.o);
    var k := UnplugRules(c.up, u, total);
    n := if c.red then k else k - 1;
  }

  // --------------------------------------------------------------------- the order

  /** The nodes are in the order of their keys. */
  ghost predicate SortedBy(m: Nodes, s: seq<Ptr>) {
    && (forall i :: 0 <= i < |s| ==> s[i] in m)
    && forall i, j :: 0 <= i < j < |s| ==> m[s[i]].key <= m[s[j]].key
  }

  ghost predicate AllBelow(m: Nodes, s: seq<Ptr>, key: int) {
    forall i :: 0 <= i < |s| ==> s[i] in m && m[s[i]].key < key
  }

  ghost predicate AllFrom(m: Nodes, s: seq<Ptr>, key: int) {
    forall i :: 0 <= i < |s| ==> s[i] in m && key <= m[s[i]].key
  }

  /** In a sorted sequence, what comes before or after a node is bounded by its key. */
  lemma {:induction false} SortedAround(m: Nodes, a: seq<Ptr>, l: seq<Ptr>, x: Ptr, r: seq<Ptr>, b: seq<Ptr>, key: int)
    requires SortedBy(m, a + (l + [x] + r) + b) && AllBelow(m, a, key) && AllFrom(m, b, key)
    ensures x in m && (key <= m[x].key ==> AllFrom(m, [x] + r + b, key)) && (m[x].key < key ==> AllBelow(m, a + l + [x], key))
  {
    var s, k := a + (l + [x] + r) + b, |a| + |l|;
    assert s[k] == x;
    if key <= m[x].key {
      var q := [x] + r + b;
      forall i | 0 <= i < |q| ensures q[i] in m && key <= m[q[i]].key { assert q[i] == s[k + i]; }
    } else {
      var q := a + l + [x];
      forall i | 0 <= i < |q| ensures q[i] in m && m[q[i]].key < key { assert q[i] == s[i]; }
    }
  }

  /** Where `node_insert` puts a node: before the first whose key is not less. */
  function Placed(m: Nodes, s: seq<Ptr>, key: int, x: Ptr): seq<Ptr>
    requires forall i :: 0 <= i < |s| ==> s[i] in m
  {
    if s == [] then [x]
    else if key <= m[s[0]].key then [x] + s
    else [s[0]] + Placed(m, s[1..], key, x)
  }

  lemma {:induction false} PlacedBetween(m: Nodes, a: seq<Ptr>, b: seq<Ptr>, key: int, x: Ptr)
    requires AllBelow(m, a, key) && AllFrom(m, b, key)
    ensures Placed(m, a + b, key, x) == a + [x] + b
  {
    if a == [] {
      assert a + b == b && a + [x] + b == [x] + b;
    } else {
      PlacedBetween(m, a[1..], b, key, x);
      assert (a + b)[1..] == a[1..] + b;
      assert a == [a[0]] + a[1..];
    }
  }

  lemma {:induction false} SortedPlaced(m: Nodes, a: seq<Ptr>, b: seq<Ptr>, x: Ptr)
    requires SortedBy(m, a + b) && x in m
    requires forall i :: 0 <= i < |a| ==> m[(a + b)[i]].key <= m[x].key
    requires forall i :: |a| <= i < |a + b| ==> m[x].key <= m[(a + b)[i]].key
    ensures SortedBy(m, a + [x] + b)
  {
    var s, r := a + b, a + [x] + b;
    var at := (i: int) requires 0 <= i < |r| => if i < |a| then i else i - 1;
    forall i | 0 <= i < |r| ensures r[i] in m && (i != |a| ==> r[i] == s[at(i)]) {
      if i != |a| { assert s[at(i)] in m; }
    }
    forall i, j | 0 <= i < j < |r| ensures m[r[i]].key <= m[r[j]].key {
      if i == |a| {
        assert m[x].key <= m[s[at(j)]].key;
      } else if j == |a| {
        assert m[s[at(i)]].key <= m[x].key;
      } else {
        assert m[s[at(i)]].key <= m[s[at(j)]].key;
      }
    }
  }

  /** The first or the last of a sequence. */
  function End(s: seq<Ptr>, side: Side): Ptr
    requires s != []
  {
    if side == Left then s[0] else s[|s| - 1]
  }

  /** A node of a tree has a place in it. */
  lemma {:induction false} Locate(c: Ctx, t: Tree, x: Ptr) returns (c': Ctx, s: Tree)
    requires x in Ids(t)
    ensures Plug(c', s) == Plug(c, t) && s.Fork? && s.id == x
    decreases t
  {
    if t.id == x {
      return c, t;
    } else if x in Ids(t.l) {
      c', s := Locate(In(c, Left, t.id, t.red, t.r), t.l, x);
    } else {
      c', s := Locate(In(c, Right, t.id, t.red, t.l), t.r, x);
    }
  }

  /** What comes after a place, on side `s`. */
  function Beyond(c: Ctx, s: Side): seq<Ptr> {
    if s == Right then After(c) else Before(c)
  }

  lemma {:induction false} BeyondStep(c: Ctx, s: Side)
    requires c.In?
    ensures c.s == s ==> Beyond(c, s) == Beyond(c.up, s)
    ensures c.s != s ==> Beyond(c, s) != [] && End(Beyond(c, s), s.Other()) == c.id
  {}
}
