/** What unlinking a node does to nodes, trees and colours: `rbtree_erase_augmented` of k_rbtree.h. */
module RbRemove {
  import opened RbErase
  import opened RbModel
  import opened RbRotate

  /** A tree that takes over a colour, if there is one to take it. */
  function Coloured(a: Tree, red: bool): Tree {
    if a.Leaf? then Leaf else a.(red := red)
  }

  /** The nodes after a node with at most one child `a` has given its place and colour to it. */
  function Unlinked(m: Nodes, x: Ptr, a: Ptr, parent: Ptr, red: bool): Nodes
    requires (a != Null ==> a in m) && (parent != Null ==> parent in m)
  {
    ChangeChild(if a == Null then m else m[a := m[a].(parent := parent, red := red)], x, a, parent)
  }

  lemma {:induction false} UnlinkAt(m: Nodes, root: Ptr, c: Ctx, s: Side, x: Ptr, red: bool, a: Tree)
    requires At(m, root, c, Mk(s, Leaf, x, red, a))
    ensures (a.Fork? ==> a.id in m && a.id != Null) && (c.Parent() != Null ==> c.Parent() in m)
    ensures At(Unlinked(m, x, a.Top(), c.Parent(), red), ChangeRoot(root, a.Top(), c.Parent()), c, Coloured(a, red))
    ensures SameKeys(m, Unlinked(m, x, a.Top(), c.Parent(), red))
  {
    AtTop(m, root, c, s, Leaf, x, red, a);
    RepMk(m, x, c.Parent(), s, Leaf, x, red, a);
    MkIds(s, Leaf, x, red, a);
    ParentIn(c);
    assert CtxIds(c) !! Ids(a) && x !in CtxIds(c) && Wf(a) && CtxWf(c) && Rep(m, a.Top(), x, a);
    assert Coloured(a, red).Top() == a.Top() && Ids(Coloured(a, red)) == Ids(a) && Wf(Coloured(a, red));
    var m1 := if a.Leaf? then m else m[a.id := m[a.id].(parent := c.Parent(), red := red)];
    var m2 := Unlinked(m, x, a.Top(), c.Parent(), red);
    TopIn(a);
    assert m2 == ChangeChild(m1, x, a.Top(), c.Parent()) && SameKeys(m, m1);
    hide CtxIds, CtxWf, RepCtx, ChangeChild, Unlinked, Ids, Wf;
    CtxChanged(m, m1, root, c, x, a.Top());
    ChangeKeys(m1, x, a.Top(), c.Parent());
    if a.Fork? {
      SubtreeColoured(m, m1, m2, c.Parent(), a, red, x, CtxIds(c));
    }
  }

  lemma {:induction false} ChangeKeys(m: Nodes, was: Ptr, p: Ptr, parent: Ptr)
    requires parent != Null ==> parent in m
    ensures SameKeys(m, ChangeChild(m, was, p, parent))
  {}

  /** A subtree under a new parent, its root in a new colour. */
  lemma {:induction false} SubtreeColoured(m: Nodes, m1: Nodes, m2: Nodes, par: Ptr, a: Tree, red: bool, x: Ptr, up: set<Ptr>)
    requires a.Fork? && Rep(m, a.id, x, a) && Wf(a) && up !! Ids(a) && (par != Null ==> par in up && par in m1)
    requires m1 == m[a.id := m[a.id].(parent := par, red := red)] && m2 == ChangeChild(m1, x, a.id, par)
    ensures Rep(m2, a.id, par, Coloured(a, red))
  {
    assert forall y :: y in Ids(a) && y in m1 ==> y in m2 && m2[y] == m1[y];
    RepSame(m, m2, m[a.id].left, a.id, a.l);
    RepSame(m, m2, m[a.id].right, a.id, a.r);
  }

  /** The rules around an unlinked node. */
  lemma {:induction false} UnlinkRules(c: Ctx, s: Side, x: Ptr, red: bool, a: Tree, height: nat)
    requires RedBlack(Plug(c, Mk(s, Leaf, x, red, a)), height)
    ensures a.Fork? ==> !red && a.red
    ensures a.Fork? || red ==> RedBlack(Plug(c, Coloured(a, red)), height)
    ensures a.Leaf? && !red ==> if c.In? then Short(c, Leaf, 0, height) else RedBlack(Plug(c, Leaf), 0)
  {
    var n := UnplugRules(c, Mk(s, Leaf, x, red, a), height);
    MkRules(s, Leaf, x, red, a, n);
    if a.Fork? {
      assert Bal(a, 0);
      PlugRules(c, a.(red := false), n, height);
    } else if red {
      PlugRules(c, Leaf, n, height);
    }
  }

  lemma {:induction false} UnlinkOrder(c: Ctx, s: Side, x: Ptr, red: bool, a: Tree)
    ensures InOrder(Plug(c, Mk(s, Leaf, x, red, a))) == Before(c) + InOrder(Mk(s, Leaf, x, red, a)) + After(c)
    ensures InOrder(Mk(s, Leaf, x, red, a)) == if s == Left then [x] + InOrder(a) else InOrder(a) + [x]
    ensures InOrder(Plug(c, Coloured(a, red))) == Before(c) + InOrder(a) + After(c)
  {
    MkIds(s, Leaf, x, red, a);
    PlugInOrder(c, Mk(s, Leaf, x, red, a));
    PlugInOrder(c, Coloured(a, red));
    assert InOrder(Leaf) == [];
    assert [] + [x] + InOrder(a) == [x] + InOrder(a);
    assert InOrder(a) + [x] + [] == InOrder(a) + [x];
  }

  // -------------------------------------------------- the successor takes a place

  /** The pointer `p`, where `x` stands for `node`. */
  function Ren(p: Ptr, node: Ptr, x: Ptr): Ptr {
    if p == node then x else p
  }

  function RenTree(t: Tree, node: Ptr, x: Ptr): Tree {
    if t.Leaf? then Leaf else Fork(RenTree(t.l, node, x), Ren(t.id, node, x), t.red, RenTree(t.r, node, x))
  }

  function RenCtx(c: Ctx, node: Ptr, x: Ptr): Ctx {
    if c.Root? then Root else In(RenCtx(c.up, node, x), c.s, Ren(c.id, node, x), c.red, RenTree(c.o, node, x))
  }

  /** `m'` is `m` with `x` in the place of `node`. */
  ghost predicate Renamed(m: Nodes, m': Nodes, ids: set<Ptr>, node: Ptr, x: Ptr) {
    forall y :: y in ids && y in m ==> Ren(y, node, x) in m' && RenamedNode(m[y], m'[Ren(y, node, x)], node, x)
  }

  predicate RenamedNode(n: Node, n': Node, node: Ptr, x: Ptr) {
    && n'.parent == Ren(n.parent, node, x) && n'.left == Ren(n.left, node, x)
    && n'.right == Ren(n.right, node, x) && n'.red == n.red
  }

  lemma {:induction false} RenRep(m: Nodes, m': Nodes, p: Ptr, par: Ptr, t: Tree, node: Ptr, x: Ptr)
    requires Rep(m, p, par, t) && Renamed(m, m', Ids(t), node, x) && node != Null && x != Null
    ensures Rep(m', Ren(p, node, x), Ren(par, node, x), RenTree(t, node, x))
    decreases t
  {
    if t.Fork? {
      RenRep(m, m', m[t.id].left, t.id, t.l, node, x);
      RenRep(m, m', m[t.id].right, t.id, t.r, node, x);
    }
  }

  lemma {:induction false} RenRepCtx(m: Nodes, m': Nodes, root: Ptr, c: Ctx, p: Ptr, node: Ptr, x: Ptr)
    requires RepCtx(m, root, c, p) && Renamed(m, m', CtxIds(c), node, x) && node != Null && x != Null
    ensures RepCtx(m', Ren(root, node, x), RenCtx(c, node, x), Ren(p, node, x))
    decreases c
  {
    if c.In? {
      RenRep(m, m', m[c.id].Kid(c.s.Other()), c.id, c.o, node, x);
      RenRepCtx(m, m', root, c.up, c.id, node, x);
      RenParent(c.up, node, x);
    }
  }

  lemma {:induction false} RenParent(c: Ctx, node: Ptr, x: Ptr)
    requires node != Null
    ensures RenCtx(c, node, x).Parent() == Ren(c.Parent(), node, x)
  {}

  lemma {:induction false} RenIds(t: Tree, node: Ptr, x: Ptr)
    requires Wf(t) && x !in Ids(t) && x != Null
    ensures Ids(RenTree(t, node, x)) == if node in Ids(t) then Ids(t) - {node} + {x} else Ids(t)
    ensures Wf(RenTree(t, node, x))
    ensures node !in Ids(t) ==> RenTree(t, node, x) == t
  {
    if t.Fork? {
      RenIds(t.l, node, x);
      RenIds(t.r, node, x);
    }
  }

  lemma {:induction false} RenCtxIds(c: Ctx, node: Ptr, x: Ptr)
    requires CtxWf(c) && x !in CtxIds(c) && x != Null
    ensures CtxIds(RenCtx(c, node, x)) == if node in CtxIds(c) then CtxIds(c) - {node} + {x} else CtxIds(c)
    ensures CtxWf(RenCtx(c, node, x))
  {
    if c.In? {
      RenIds(c.o, node, x);
      RenCtxIds(c.up, node, x);
    }
  }

  lemma {:induction false} RenAt(m: Nodes, m': Nodes, root: Ptr, c: Ctx, t: Tree, node: Ptr, x: Ptr)
    requires At(m, root, c, t) && Renamed(m, m', CtxIds(c) + Ids(t), node, x) && node != Null && x != Null
    requires x !in CtxIds(c) + Ids(t) && node !in Ids(t)
    ensures At(m', Ren(root, node, x), RenCtx(c, node, x), t)
  {
    RenIds(t, node, x);
    RenCtxIds(c, node, x);
    RenRep(m, m', t.Top(), c.Parent(), t, node, x);
    RenRepCtx(m, m', root, c, t.Top(), node, x);
    RenParent(c, node, x);
    TopIn(t);
    assert Ren(t.Top(), node, x) == t.Top();
  }

  lemma {:induction false} RenTreeRules(t: Tree, node: Ptr, x: Ptr, n: nat)
    ensures Bal(RenTree(t, node, x), n) <==> Bal(t, n)
    ensures NoRedRed(RenTree(t, node, x)) <==> NoRedRed(t)
  {
    if t.Fork? {
      var k: nat := if t.red then n else if n > 0 then n - 1 else 0;
      RenTreeRules(t.l, node, x, k);
      RenTreeRules(t.r, node, x, k);
    }
  }

  lemma {:induction false} RenCtxRules(c: Ctx, node: Ptr, x: Ptr, n: nat, total: nat)
    ensures CtxBal(RenCtx(c, node, x), n, total) <==> CtxBal(c, n, total)
    ensures CtxRules(RenCtx(c, node, x)) <==> CtxRules(c)
  {
    if c.In? {
      RenTreeRules(c.o, node, x, n);
      RenCtxRules(c.up, node, x, if c.red then n else n + 1, total);
    }
  }

  lemma {:induction false} RenPlug(c: Ctx, t: Tree, node: Ptr, x: Ptr)
    ensures Plug(RenCtx(c, node, x), RenTree(t, node, x)) == RenTree(Plug(c, t), node, x)
    decreases c
  {
    if c.In? { RenPlug(c.up, Mk(c.s, t, c.id, c.red, c.o), node, x); }
  }

  function RenSeq(s: seq<Ptr>, node: Ptr, x: Ptr): seq<Ptr> {
    if s == [] then [] else [Ren(s[0], node, x)] + RenSeq(s[1..], node, x)
  }

  lemma {:induction false} RenSeqAppend(a: seq<Ptr>, b: seq<Ptr>, node: Ptr, x: Ptr)
    ensures RenSeq(a + b, node, x) == RenSeq(a, node, x) + RenSeq(b, node, x)
  {
    if a == [] {
      assert a + b == b;
    } else {
      RenSeqAppend(a[1..], b, node, x);
      var r := Ren(a[0], node, x);
      assert a + b != [] && (a + b)[0] == a[0] && (a + b)[1..] == a[1..] + b;
      assert [r] + (RenSeq(a[1..], node, x) + RenSeq(b, node, x)) == [r] + RenSeq(a[1..], node, x) + RenSeq(b, node, x);
    }
  }

  lemma {:induction false} RenSeqSame(s: seq<Ptr>, node: Ptr, x: Ptr)
    requires node !in s
    ensures RenSeq(s, node, x) == s
  {
    if s != [] { RenSeqSame(s[1..], node, x); }
  }

  lemma {:induction false} RenInOrder(t: Tree, node: Ptr, x: Ptr)
    ensures InOrder(RenTree(t, node, x)) == RenSeq(InOrder(t), node, x)
  {
    if t.Fork? {
      RenInOrder(t.l, node, x);
      RenInOrder(t.r, node, x);
      RenSeqAppend(InOrder(t.l) + [t.id], InOrder(t.r), node, x);
      RenSeqAppend(InOrder(t.l), [t.id], node, x);
    }
  }

  // ------------------------------------------------------------ the way to the successor

  /** The context `cr` on top of `base`. */
  function Over(cr: Ctx, base: Ctx): Ctx {
    if cr.Root? then base else In(Over(cr.up, base), cr.s, cr.id, cr.red, cr.o)
  }

  lemma {:induction false} OverPlug(cr: Ctx, base: Ctx, t: Tree)
    ensures Plug(Over(cr, base), t) == Plug(base, Plug(cr, t))
    ensures CtxIds(Over(cr, base)) == CtxIds(cr) + CtxIds(base)
    ensures Over(cr, base).Parent() == if cr.Root? then base.Parent() else cr.id
    ensures CtxWf(Over(cr, base)) ==> CtxWf(cr) && CtxWf(base) && CtxIds(cr) !! CtxIds(base)
    decreases cr
  {
    if cr.In? { OverPlug(cr.up, base, Mk(cr.s, t, cr.id, cr.red, cr.o)); }
  }

  /** A way down that always went left. */
  ghost predicate AllLeft(cr: Ctx) {
    cr.In? ==> cr.s == Left && AllLeft(cr.up)
  }

  lemma {:induction false} AllLeftBefore(cr: Ctx)
    requires AllLeft(cr)
    ensures Before(cr) == []
  {
    if cr.In? { AllLeftBefore(cr.up); }
  }

  lemma {:induction false} PlugTop(cr: Ctx, t: Tree)
    requires t.Fork?
    ensures Plug(cr, t).Fork? && (cr.In? ==> Plug(cr, t).id in CtxIds(cr)) && (cr.Root? ==> Plug(cr, t) == t)
    decreases cr
  {
    if cr.In? { PlugTop(cr.up, Mk(cr.s, t, cr.id, cr.red, cr.o)); }
  }

  // ---------------------------------------------------- pointers stay inside the tree

  lemma {:induction false} RepPointers(m: Nodes, p: Ptr, par: Ptr, t: Tree, y: Ptr)
    requires Rep(m, p, par, t) && Wf(t) && y in Ids(t)
    ensures y in m && (m[y].left == Null || m[y].left in Ids(t)) && (m[y].right == Null || m[y].right in Ids(t))
    ensures if y == p then m[y].parent == par else m[y].parent in Ids(t)
    decreases t
  {
    RepTop(m, m[t.id].left, t.id, t.l);
    RepTop(m, m[t.id].right, t.id, t.r);
    if y in Ids(t.l) {
      RepPointers(m, m[t.id].left, t.id, t.l, y);
    } else if y in Ids(t.r) {
      RepPointers(m, m[t.id].right, t.id, t.r, y);
    }
  }

  lemma {:induction false} CtxPointers(m: Nodes, root: Ptr, c: Ctx, p: Ptr, y: Ptr)
    requires RepCtx(m, root, c, p) && CtxWf(c) && y in CtxIds(c) && p !in CtxIds(c) && p != Null
    ensures y in m && (m[y].parent == Null || m[y].parent in CtxIds(c))
    ensures y != c.Parent() ==> m[y].left != p && m[y].right != p
    ensures y == c.Parent() ==> m[y].Kid(c.s) == p && m[y].Kid(c.s.Other()) != p
    decreases c
  {
    var q := m[c.id].Kid(c.s.Other());
    RepTop(m, q, c.id, c.o);
    ParentIn(c.up);
    if y == c.id {
    } else if y in Ids(c.o) {
      RepPointers(m, q, c.id, c.o, y);
    } else {
      CtxPointersUp(m, root, c, p, y);
    }
  }

  lemma {:induction false} CtxPointersUp(m: Nodes, root: Ptr, c: Ctx, p: Ptr, y: Ptr)
    requires RepCtx(m, root, c, p) && CtxWf(c) && c.In? && y in CtxIds(c.up) && p !in CtxIds(c) && p != Null
    ensures y in m && (m[y].parent == Null || m[y].parent in CtxIds(c))
    ensures m[y].left != p && m[y].right != p
    decreases c, 0
  {
    UpKids(m, root, c.up, c.id, y);
  }

  /** The children of a node of a context are of the context, or in its hole. */
  lemma {:induction false} UpKids(m: Nodes, root: Ptr, c: Ctx, p: Ptr, y: Ptr)
    requires RepCtx(m, root, c, p) && CtxWf(c) && y in CtxIds(c)
    ensures y in m && (m[y].parent == Null || m[y].parent in CtxIds(c))
    ensures m[y].left == Null || m[y].left == p || m[y].left in CtxIds(c)
    ensures m[y].right == Null || m[y].right == p || m[y].right in CtxIds(c)
    decreases c
  {
    var q := m[c.id].Kid(c.s.Other());
    RepTop(m, q, c.id, c.o);
    TopIn(c.o);
    ParentIn(c.up);
    if y in Ids(c.o) {
      RepPointers(m, q, c.id, c.o, y);
    } else if y in CtxIds(c.up) {
      UpKids(m, root, c.up, c.id, y);
    }
  }

  lemma {:induction false} RootIn(m: Nodes, root: Ptr, c: Ctx, p: Ptr)
    requires RepCtx(m, root, c, p)
    ensures if c.Root? then root == p else root in CtxIds(c)
    decreases c
  {
    if c.In? { RootIn(m, root, c.up, c.id); }
  }

  /** `x` has taken the links and the colour of `node`; the rest is the same. */
  ghost predicate TookPlace(m: Nodes, m': Nodes, node: Ptr, x: Ptr, l: Ptr, r: Ptr, cp: Ptr)
    requires node in m && (l != Null ==> l in m) && (r != Null ==> r in m) && (cp != Null ==> cp in m)
  {
    && x in m' && m'[x].parent == cp && m'[x].red == m[node].red && m'[x].left == l && m'[x].right == r
    && (l != Null ==> l in m' && m'[l] == m[l].(parent := x))
    && (r != Null ==> r in m' && m'[r] == m[r].(parent := x))
    && (cp != Null ==> cp in m' && m'[cp] == if m[cp].left == node then m[cp].(left := x) else m[cp].(right := x))
    && forall y :: y in m && y != x && y != node && (y != l || l == Null) && (y != r || r == Null) && (y != cp || cp == Null) ==> y in m' && m'[y] == m[y]
  }

  lemma {:induction false} TookPlaceRenamed(m: Nodes, m': Nodes, root: Ptr, c: Ctx, l: Tree, node: Ptr, red: bool, r: Tree, x: Ptr)
    requires At(m, root, c, Fork(l, node, red, r)) && x != Null && x !in CtxIds(c) + Ids(Fork(l, node, red, r))
    requires node in m && (l.Fork? ==> l.id in m) && (r.Fork? ==> r.id in m) && (c.Parent() != Null ==> c.Parent() in m)
    requires TookPlace(m, m', node, x, l.Top(), r.Top(), c.Parent())
    ensures Renamed(m, m', CtxIds(c) + Ids(Fork(l, node, red, r)), node, x)
    ensures Ren(root, node, x) == ChangeRoot(root, x, c.Parent())
  {
    var t := Fork(l, node, red, r);
    NodeParts(m, root, c, l, node, red, r);
    RootIn(m, root, c, node);
    forall y | y in CtxIds(c) + Ids(t) && y in m ensures Ren(y, node, x) in m' && RenamedNode(m[y], m'[Ren(y, node, x)], node, x) {
      if y == node {
        assert m[node].left == l.Top() && m[node].right == r.Top();
        NotSelf(c, l, node, red, r);
      } else {
        RenamedElsewhere(m, m', root, c, l, node, red, r, x, y);
      }
    }
  }

  lemma {:induction false} NotSelf(c: Ctx, l: Tree, node: Ptr, red: bool, r: Tree)
    requires Distinct(c, Fork(l, node, red, r))
    ensures l.Top() != node && r.Top() != node && c.Parent() != node
  {
    TopIn(l);
    TopIn(r);
    ParentIn(c);
  }

  /** A node in a tree, and what is below and above it. */
  lemma {:induction false} NodeParts(m: Nodes, root: Ptr, c: Ctx, l: Tree, node: Ptr, red: bool, r: Tree)
    requires At(m, root, c, Fork(l, node, red, r))
    ensures Rep(m, l.Top(), node, l) && Rep(m, r.Top(), node, r) && RepCtx(m, root, c, node)
    ensures Wf(l) && Wf(r) && CtxWf(c) && node != Null && node !in Ids(l) && node !in Ids(r) && node !in CtxIds(c)
    ensures Ids(l) !! Ids(r) && CtxIds(c) !! Ids(l) && CtxIds(c) !! Ids(r)
    ensures TopSet(l) <= Ids(l) && TopSet(r) <= Ids(r) && (c.Parent() != Null ==> c.Parent() in CtxIds(c))
    ensures node in m && m[node].left == l.Top() && m[node].right == r.Top() && m[node].red == red && m[node].parent == c.Parent()
    ensures (l.Fork? ==> l.id != Null) && (r.Fork? ==> r.id != Null)
  {
    RepTop(m, m[node].left, node, l);
    RepTop(m, m[node].right, node, r);
    TopIn(l);
    TopIn(r);
    ParentIn(c);
  }

  lemma {:induction false} RenamedElsewhere(m: Nodes, m': Nodes, root: Ptr, c: Ctx, l: Tree, node: Ptr, red: bool, r: Tree, x: Ptr, y: Ptr)
    requires At(m, root, c, Fork(l, node, red, r)) && x != Null && x !in CtxIds(c) + Ids(Fork(l, node, red, r))
    requires node in m && (l.Fork? ==> l.id in m) && (r.Fork? ==> r.id in m) && (c.Parent() != Null ==> c.Parent() in m)
    requires TookPlace(m, m', node, x, l.Top(), r.Top(), c.Parent())
    requires y in CtxIds(c) + Ids(Fork(l, node, red, r)) && y in m && y != node
    ensures y in m' && RenamedNode(m[y], m'[y], node, x)
  {
    NodeParts(m, root, c, l, node, red, r);
    assert y in Ids(l) || y in Ids(r) || y in CtxIds(c);
    assert (y in CtxIds(c) ==> c.In? && c.id != Null) && (y in Ids(l) ==> l.Fork?) && (y in Ids(r) ==> r.Fork?);
    IdsNotNull(c, Fork(l, node, red, r));
    hide Rep, RepCtx, Wf, CtxWf, At;
    assert x != y;
    if y in Ids(l) {
      assert y != r.Top() && y != c.Parent();
      hide Ids, CtxIds, Rep, RepCtx, Wf, CtxWf, RenamedNode, At, TookPlace;
      TookElsewhere(m, m', node, x, l.Top(), r.Top(), c.Parent(), y);
      RenamedBelow(m, m', node, l, x, y);
    } else if y in Ids(r) {
      assert y != l.Top() && y != c.Parent();
      hide Ids, CtxIds, Rep, RepCtx, Wf, CtxWf, RenamedNode, At, TookPlace;
      TookElsewhere(m, m', node, x, l.Top(), r.Top(), c.Parent(), y);
      RenamedBelow(m, m', node, r, x, y);
    } else {
      assert y != l.Top() && y != r.Top();
      hide Ids, CtxIds, Rep, RepCtx, Wf, CtxWf, RenamedNode, At, TookPlace;
      TookElsewhere(m, m', node, x, l.Top(), r.Top(), c.Parent(), y);
      RenamedAbove(m, m', root, c, node, x, y);
    }
  }

  lemma {:induction false} TreeNotNull(t: Tree)
    requires Wf(t)
    ensures Null !in Ids(t)
  {
    if t.Fork? {
      TreeNotNull(t.l);
      TreeNotNull(t.r);
    }
  }

  lemma {:induction false} CtxNotZero(c: Ctx)
    requires CtxWf(c)
    ensures Null !in CtxIds(c)
  {
    if c.In? {
      TreeNotNull(c.o);
      CtxNotZero(c.up);
    }
  }

  lemma {:induction false} IdsNotNull(c: Ctx, t: Tree)
    requires Distinct(c, t)
    ensures Null !in CtxIds(c) + Ids(t)
  {
    TreeNotNull(t);
    CtxNotZero(c);
  }

  lemma {:induction false} TookElsewhere(m: Nodes, m': Nodes, node: Ptr, x: Ptr, l: Ptr, r: Ptr, cp: Ptr, y: Ptr)
    requires node in m && (l != Null ==> l in m) && (r != Null ==> r in m) && (cp != Null ==> cp in m)
    requires TookPlace(m, m', node, x, l, r, cp) && y in m && y != x && y != node && y != Null
    ensures y in m' && (y == l || y == r ==> m'[y] == m[y].(parent := x))
    ensures y == cp ==> m'[y] == if m[y].left == node then m[y].(left := x) else m[y].(right := x)
    ensures y != l && y != r && y != cp ==> m'[y] == m[y]
  {}

  lemma {:induction false} RenamedBelow(m: Nodes, m': Nodes, node: Ptr, t: Tree, x: Ptr, y: Ptr)
    requires Rep(m, t.Top(), node, t) && Wf(t) && y in Ids(t) && node !in Ids(t) && node != Null
    requires y in m && y in m' && m'[y] == if y == t.Top() then m[y].(parent := x) else m[y]
    ensures RenamedNode(m[y], m'[y], node, x)
  {
    RepPointers(m, t.Top(), node, t, y);
  }

  lemma {:induction false} RenamedAbove(m: Nodes, m': Nodes, root: Ptr, c: Ctx, node: Ptr, x: Ptr, y: Ptr)
    requires RepCtx(m, root, c, node) && CtxWf(c) && y in CtxIds(c) && node !in CtxIds(c) && node != Null
    requires y in m && y in m'
    requires m'[y] == if y != c.Parent() then m[y] else if m[y].left == node then m[y].(left := x) else m[y].(right := x)
    ensures RenamedNode(m[y], m'[y], node, x)
  {
    CtxPointers(m, root, c, node, y);
  }

  // ------------------------------------------------------------ the two-children case

  /** The links around a node with two children, and of its successor `x` with right child `c2`:
      `r` is the right child of the node, and `px` the parent of `x`. */
  predicate SuccLinks(m: Nodes, node: Ptr, l: Ptr, r: Ptr, cp: Ptr, red: bool, x: Ptr, px: Ptr, c2: Ptr, xRed: bool) {
    SuccPointers(m, node, l, r, cp, red, x, px, c2, xRed) && SuccDistinct(node, l, r, cp, x, px, c2)
  }

  predicate SuccPointers(m: Nodes, node: Ptr, l: Ptr, r: Ptr, cp: Ptr, red: bool, x: Ptr, px: Ptr, c2: Ptr, xRed: bool) {
    && node in m && l in m && r in m && x in m && px in m && (cp != Null ==> cp in m)
    && m[node].left == l && m[node].right == r && m[node].parent == cp && m[node].red == red
    && m[x].left == Null && m[x].right == c2 && m[x].red == xRed && (c2 != Null ==> c2 in m && !xRed)
    && (x != r ==> m[px].left == x)
  }

  predicate SuccDistinct(node: Ptr, l: Ptr, r: Ptr, cp: Ptr, x: Ptr, px: Ptr, c2: Ptr) {
    && node != Null && l != Null && r != Null && x != Null && px != Null
    && cp != node && cp != l && cp != r && cp != x && cp != px && l != node && l != r && l != x && l != px && node != r && node != x
    && (c2 != Null ==> c2 != node && c2 != l && c2 != r && c2 != x && c2 != px && c2 != cp)
    && (if x == r then px == node else px != node && px != x)
  }

  /** The successor takes its place: the tail of `rbtree_erase_augmented`. */
  function PlaceTail(m: Nodes, node: Ptr, x: Ptr, l: Ptr, cp: Ptr, red: bool, c2: Ptr, parent: Ptr): Nodes
    requires x in m && l in m && (cp != Null ==> cp in m) && (c2 != Null ==> c2 in m)
  {
    var m1 := m[x := m[x].(left := l)];
    var m2 := m1[l := m1[l].(parent := x)];
    var m3 := ChangeChild(m2, node, x, cp);
    var m4 := m3[x := m3[x].(parent := cp, red := red)];
    if c2 == Null then m4 else m4[c2 := m4[c2].(parent := parent, red := false)]
  }

  /** ... and, when it is not the right child itself, what comes before. */
  function PlaceHead(m: Nodes, x: Ptr, r: Ptr, px: Ptr, c2: Ptr): Nodes
    requires x in m && r in m && px in m
  {
    var m1 := m[px := m[px].(left := c2)];
    var m2 := m1[x := m1[x].(right := r)];
    m2[r := m2[r].(parent := x)]
  }

  lemma {:induction false} TailAt(m: Nodes, node: Ptr, x: Ptr, l: Ptr, cp: Ptr, red: bool, c2: Ptr, parent: Ptr)
    requires x in m && l in m && (cp != Null ==> cp in m) && (c2 != Null ==> c2 in m) && x != l && x != Null && l != Null
    requires cp != x && cp != l && (c2 != Null ==> c2 != x && c2 != l && c2 != cp)
    ensures var mf := PlaceTail(m, node, x, l, cp, red, c2, parent);
            && mf.Keys == m.Keys && mf[x] == m[x].(left := l, parent := cp, red := red) && mf[l] == m[l].(parent := x)
            && (cp != Null ==> mf[cp] == if m[cp].left == node then m[cp].(left := x) else m[cp].(right := x))
            && (c2 != Null ==> mf[c2] == m[c2].(parent := parent, red := false))
            && forall y :: y in m && y != x && y != l && (y != cp || cp == Null) && (y != c2 || c2 == Null) ==> mf[y] == m[y]
  {}

  lemma {:induction false} HeadAt(m: Nodes, x: Ptr, r: Ptr, px: Ptr, c2: Ptr)
    requires x in m && r in m && px in m && x != r && x != px
    ensures var m2 := PlaceHead(m, x, r, px, c2);
            && m2.Keys == m.Keys && m2[x] == m[x].(right := r)
            && m2[r] == (if r == px then m[r].(left := c2) else m[r]).(parent := x)
            && (r != px ==> m2[px] == m[px].(left := c2))
            && forall y :: y in m && y != x && y != r && y != px ==> m2[y] == m[y]
  {}

  lemma {:induction false} UnlinkedLinks(m: Nodes, x: Ptr, a: Ptr, parent: Ptr, red: bool)
    requires (a != Null ==> a in m) && parent in m && parent != Null && a != parent
    ensures var m1 := Unlinked(m, x, a, parent, red);
            && m1.Keys == m.Keys && (a != Null ==> m1[a] == m[a].(parent := parent, red := red))
            && m1[parent] == (if m[parent].left == x then m[parent].(left := a) else m[parent].(right := a))
            && forall y :: y in m && y != parent && (y != a || a == Null) ==> m1[y] == m[y]
  {}

  lemma {:induction false} NearTook(m: Nodes, node: Ptr, l: Ptr, cp: Ptr, red: bool, x: Ptr, c2: Ptr, xRed: bool)
    requires SuccLinks(m, node, l, x, cp, red, x, node, c2, xRed)
    ensures var m1 := Unlinked(m, x, c2, node, xRed);
            node in m1 && l in m1 && (c2 != Null ==> c2 in m1) && (cp != Null ==> cp in m1) &&
            TookPlace(m1, PlaceTail(m, node, x, l, cp, red, c2, x), node, x, l, c2, cp)
    ensures SameKeys(m, PlaceTail(m, node, x, l, cp, red, c2, x))
  {
    TailAt(m, node, x, l, cp, red, c2, x);
    UnlinkedLinks(m, x, c2, node, xRed);
    hide PlaceTail, Unlinked;
  }

  lemma {:induction false} FarKeys(m: Nodes, node: Ptr, l: Ptr, r: Ptr, cp: Ptr, red: bool, x: Ptr, px: Ptr, c2: Ptr, xRed: bool)
    requires SuccLinks(m, node, l, r, cp, red, x, px, c2, xRed) && x != r
    ensures SameKeys(m, PlaceTail(PlaceHead(m, x, r, px, c2), node, x, l, cp, red, c2, px))
  {
    hide PlaceHead, PlaceTail;
    HeadAt(m, x, r, px, c2);
    var m2 := PlaceHead(m, x, r, px, c2);
    TailAt(m2, node, x, l, cp, red, c2, px);
    assert SameKeys(m, m2);
  }

  lemma {:induction false} FarTook(m: Nodes, node: Ptr, l: Ptr, r: Ptr, cp: Ptr, red: bool, x: Ptr, px: Ptr, c2: Ptr, xRed: bool)
    requires SuccLinks(m, node, l, r, cp, red, x, px, c2, xRed) && x != r
    ensures var m1, m2 := Unlinked(m, x, c2, px, xRed), PlaceHead(m, x, r, px, c2);
            node in m1 && l in m1 && r in m1 && (cp != Null ==> cp in m1) &&
            TookPlace(m1, PlaceTail(m2, node, x, l, cp, red, c2, px), node, x, l, r, cp)
  {
    hide PlaceHead, PlaceTail, Unlinked;
    HeadAt(m, x, r, px, c2);
    var m2 := PlaceHead(m, x, r, px, c2);
    TailAt(m2, node, x, l, cp, red, c2, px);
    UnlinkedLinks(m, x, c2, px, xRed);
    var m1, mf := Unlinked(m, x, c2, px, xRed), PlaceTail(m2, node, x, l, cp, red, c2, px);
    assert mf[l] == m1[l].(parent := x) && mf[r] == m1[r].(parent := x) && (c2 != Null ==> mf[c2] == m1[c2]);
    assert r != px ==> mf[px] == m1[px];
    assert mf[x].right == r && (cp != Null ==> m1[cp] == m[cp] == m2[cp]) && m1[node] == m[node];
    FarOthers(m, m1, m2, mf, node, l, r, cp, x, px, c2);
  }

  lemma {:induction false} FarOthers(m: Nodes, m1: Nodes, m2: Nodes, mf: Nodes, node: Ptr, l: Ptr, r: Ptr, cp: Ptr, x: Ptr, px: Ptr, c2: Ptr)
    requires m1.Keys == m.Keys == m2.Keys == mf.Keys && (c2 != Null ==> c2 in m && mf[c2] == m1[c2]) && px in m && (r != px ==> mf[px] == m1[px])
    requires forall y :: y in m && y != px && (y != c2 || c2 == Null) ==> m1[y] == m[y]
    requires forall y :: y in m && y != x && y != r && y != px ==> m2[y] == m[y]
    requires forall y :: y in m2 && y != x && y != l && (y != cp || cp == Null) && (y != c2 || c2 == Null) ==> mf[y] == m2[y]
    ensures forall y :: y in m1 && y != x && y != node && (y != l || l == Null) && (y != r || r == Null) && (y != cp || cp == Null) && l != Null && r != Null ==> mf[y] == m1[y]
  {}

  /** The links of the successor, from its place in the tree. */
  lemma {:induction false} IsSuccLinks(m: Nodes, root: Ptr, c: Ctx, l: Tree, node: Ptr, red: bool, r: Tree, cr: Ctx, x: Ptr, xRed: bool, xr: Tree, px: Ptr, height: nat)
    requires At(m, root, c, Fork(l, node, red, r)) && l.Fork? && r == Plug(cr, Fork(Leaf, x, xRed, xr)) && AllLeft(cr)
    requires RedBlack(Plug(c, Fork(l, node, red, r)), height)
    requires px == if cr.Root? then node else cr.id
    ensures r.Fork? && SuccLinks(m, node, l.id, r.id, c.Parent(), red, x, px, xr.Top(), xRed) && (x == r.id <==> cr.Root?)
    ensures xr.Fork? ==> xr.id != Null
  {
    var base, tx := In(c, Right, node, red, l), Fork(Leaf, x, xRed, xr);
    var top := Over(cr, base);
    SuccAt(m, root, c, l, node, red, r, cr, tx);
    OverPlug(cr, base, tx);
    assert Plug(top, tx) == Plug(c, Fork(l, node, red, r)) && Mk(Left, Leaf, x, xRed, xr) == tx;
    assert top.In? && (cr.In? ==> top.id == cr.id && cr.s == Left && top.s == Left);
    AtDistinct(m, root, top, tx);
    hide At, Rep, RepCtx, Plug, Ids, CtxIds, Wf, CtxWf, Over, RedBlack, AllLeft;
    NodeLinks(m, root, c, l, node, red, r);
    NodeLinks(m, root, top, Leaf, x, xRed, xr);
    UnlinkRules(top, Left, x, xRed, xr, height);
    SuccsDiffer(c, l, node, red, r, cr, x, xRed, xr, px);
    RepCtxTop(m, root, top, x);
    hide SuccDistinct;
  }

  lemma {:induction false} NodeLinks(m: Nodes, root: Ptr, c: Ctx, l: Tree, node: Ptr, red: bool, r: Tree)
    requires At(m, root, c, Fork(l, node, red, r))
    ensures node in m && m[node].left == l.Top() && m[node].right == r.Top() && m[node].red == red && m[node].parent == c.Parent()
    ensures (l.Fork? ==> l.id in m && l.id != Null) && (r.Fork? ==> r.id in m && r.id != Null) && (c.Parent() != Null ==> c.Parent() in m)
    ensures RepCtx(m, root, c, node)
  {
    NodeParts(m, root, c, l, node, red, r);
    TopsIn(m, node, l, r);
    UpperIn(m, root, c, node);
  }

  lemma {:induction false} UpperIn(m: Nodes, root: Ptr, c: Ctx, p: Ptr)
    requires RepCtx(m, root, c, p)
    ensures c.Parent() != Null ==> c.Parent() in m
  {}

  lemma {:induction false} AtDistinct(m: Nodes, root: Ptr, c: Ctx, t: Tree)
    requires At(m, root, c, t)
    ensures Distinct(c, t)
  {}

  lemma {:induction false} TopsIn(m: Nodes, node: Ptr, l: Tree, r: Tree)
    requires Rep(m, l.Top(), node, l) && Rep(m, r.Top(), node, r)
    ensures (l.Fork? ==> l.id in m) && (r.Fork? ==> r.id in m)
  {}

  lemma {:induction false} SuccAt(m: Nodes, root: Ptr, c: Ctx, l: Tree, node: Ptr, red: bool, r: Tree, cr: Ctx, tx: Tree)
    requires At(m, root, c, Fork(l, node, red, r)) && r == Plug(cr, tx)
    ensures At(m, root, Over(cr, In(c, Right, node, red, l)), tx)
  {
    var base := In(c, Right, node, red, l);
    AtUp(m, root, c, Right, node, red, l, r);
    OverPlug(cr, base, tx);
    AtWhole(m, root, base, r);
    AtWhole(m, root, Over(cr, base), tx);
  }

  /** A place is a matter of the whole tree. */
  lemma {:induction false} AtWhole(m: Nodes, root: Ptr, c: Ctx, t: Tree)
    ensures At(m, root, c, t) <==> Rep(m, root, Null, Plug(c, t)) && Wf(Plug(c, t))
  {
    PlugRep(m, root, c, t.Top(), t);
    PlugDistinct(c, t);
  }

  lemma {:induction false} RepCtxTop(m: Nodes, root: Ptr, c: Ctx, p: Ptr)
    requires RepCtx(m, root, c, p) && c.In?
    ensures c.id in m && m[c.id].Kid(c.s) == p
  {}

  lemma {:induction false} SuccsDiffer(c: Ctx, l: Tree, node: Ptr, red: bool, r: Tree, cr: Ctx, x: Ptr, xRed: bool, xr: Tree, px: Ptr)
    requires Distinct(Over(cr, In(c, Right, node, red, l)), Fork(Leaf, x, xRed, xr)) && l.Fork? && AllLeft(cr)
    requires r == Plug(cr, Fork(Leaf, x, xRed, xr)) && px == if cr.Root? then node else cr.id
    ensures r.Fork? && SuccDistinct(node, l.id, r.id, c.Parent(), x, px, xr.Top()) && (x == r.id <==> cr.Root?)
  {
    SuccApart(c, l, node, red, cr, x, xRed, xr);
    PlugTop(cr, Fork(Leaf, x, xRed, xr));
    TopIn(l);
    TopIn(xr);
    ParentIn(c);
    ParentIn(cr);
    hide Plug, Over, Wf, CtxWf, AllLeft, Ids, CtxIds, Distinct;
    if cr.In? {
      Different(node, l.id, r.id, c.Parent(), x, cr.id, xr.Top(), Ids(l), CtxIds(c), CtxIds(cr), Ids(xr));
    } else {
      Different(node, l.id, x, c.Parent(), x, node, xr.Top(), Ids(l), CtxIds(c), CtxIds(cr), Ids(xr));
    }
  }

  lemma {:induction false} Different(node: Ptr, l: Ptr, r: Ptr, cp: Ptr, x: Ptr, px: Ptr, c2: Ptr, L: set<Ptr>, C: set<Ptr>, R: set<Ptr>, X: set<Ptr>)
    requires node != Null && x != Null && Null !in L && Null !in C && Null !in R && Null !in X
    requires node !in L && node !in C && node !in R && node !in X && node != x && x !in L && x !in C && x !in R && x !in X
    requires L !! C && L !! R && L !! X && C !! R && C !! X && R !! X
    requires l in L && (cp != Null ==> cp in C) && (c2 != Null ==> c2 in X)
    requires if x == r then px == node else r in R && px in R
    ensures SuccDistinct(node, l, r, cp, x, px, c2)
  {}

  lemma {:induction false} SuccApart(c: Ctx, l: Tree, node: Ptr, red: bool, cr: Ctx, x: Ptr, xRed: bool, xr: Tree)
    requires Distinct(Over(cr, In(c, Right, node, red, l)), Fork(Leaf, x, xRed, xr)) && AllLeft(cr)
    ensures var L, C, R, X := Ids(l), CtxIds(c), CtxIds(cr), Ids(xr);
            && node != Null && x != Null && Null !in L && Null !in C && Null !in R && Null !in X
            && node !in L && node !in C && node !in R && node !in X && node != x && x !in L && x !in C && x !in R && x !in X
            && L !! C && L !! R && L !! X && C !! R && C !! X && R !! X
    ensures cr.In? ==> cr.id != Null
  {
    var base, tx := In(c, Right, node, red, l), Fork(Leaf, x, xRed, xr);
    OverPlug(cr, base, tx);
    var R, L, C, X := CtxIds(cr), Ids(l), CtxIds(c), Ids(xr);
    assert CtxIds(base) == {node} + L + C && Ids(tx) == {x} + X && CtxWf(base) && Wf(tx) && Wf(l) && Wf(xr) && CtxWf(c) && CtxWf(cr);
    assert node != Null && x != Null && x !in X && node !in L && node !in C && L !! C && (cr.In? ==> cr.id != Null);
    assert R !! CtxIds(base) && Ids(tx) !! R + CtxIds(base);
    hide Ids, CtxIds, Wf, CtxWf, Plug, Over, AllLeft, Distinct;
    TreeNotNull(l);
    TreeNotNull(xr);
    CtxNotZero(c);
    CtxNotZero(cr);
    FiveApart(node, L, C, R, x, X);
  }

  lemma {:induction false} FiveApart(node: Ptr, L: set<Ptr>, C: set<Ptr>, R: set<Ptr>, x: Ptr, X: set<Ptr>)
    requires node !in L && node !in C && L !! C && R !! {node} + L + C && {x} + X !! R + ({node} + L + C)
    ensures node !in R && node !in X && node != x && x !in L && x !in C && x !in R
    ensures L !! R && L !! X && C !! R && C !! X && R !! X
  {}

  lemma {:induction false} RootPlug(t: Tree)
    ensures Plug(Root, t) == t && AllLeft(Root)
  {}

  lemma {:induction false} LeftPlug(cr: Ctx, t: Tree)
    requires t.Fork? && AllLeft(cr)
    ensures Plug(In(cr, Left, t.id, t.red, t.r), t.l) == Plug(cr, t) && AllLeft(In(cr, Left, t.id, t.red, t.r))
  {}

  /** The left link on the way to the successor. */
  lemma {:induction false} SuccLeft(m: Nodes, root: Ptr, c: Ctx, l: Tree, node: Ptr, red: bool, r: Tree, cr: Ctx, t: Tree)
    requires At(m, root, c, Fork(l, node, red, r)) && r == Plug(cr, t) && t.Fork?
    ensures t.id in m && m[t.id].left == t.l.Top() && (t.l.Fork? ==> t.l.id != Null)
  {
    SuccAt(m, root, c, l, node, red, r, cr, t);
    NodeLinks(m, root, Over(cr, In(c, Right, node, red, l)), t.l, t.id, t.red, t.r);
  }

  /** The nodes of the tree after the successor has taken the place of the node. */
  lemma {:induction false} UnlinkedTwo(m: Nodes, root: Ptr, c: Ctx, l: Tree, node: Ptr, red: bool, r: Tree, cr: Ctx, x: Ptr, xRed: bool, xr: Tree,
                                       px: Ptr, mf: Nodes, rootf: Ptr)
    requires At(m, root, c, Fork(l, node, red, r)) && l.Fork? && r == Plug(cr, Fork(Leaf, x, xRed, xr)) && r.Fork?
    requires px == if cr.Root? then node else cr.id
    requires SuccLinks(m, node, l.id, r.id, c.Parent(), red, x, px, xr.Top(), xRed) && (x == r.id <==> cr.Root?)
    requires if cr.Root? then mf == PlaceTail(m, node, x, l.id, c.Parent(), red, xr.Top(), x)
             else mf == PlaceTail(PlaceHead(m, x, r.id, px, xr.Top()), node, x, l.id, c.Parent(), red, xr.Top(), px)
    requires rootf == ChangeRoot(root, x, c.Parent())
    ensures At(mf, rootf, RenCtx(Over(cr, In(c, Right, node, red, l)), node, x), Coloured(xr, xRed)) && SameKeys(m, mf)
  {
    var base, tx, a := In(c, Right, node, red, l), Fork(Leaf, x, xRed, xr), Coloured(xr, xRed);
    var top, m1, r1 := Over(cr, base), Unlinked(m, x, xr.Top(), px, xRed), Plug(cr, a);
    SuccAt(m, root, c, l, node, red, r, cr, tx);
    assert Mk(Left, Leaf, x, xRed, xr) == tx;
    OverPlug(cr, base, tx);
    SuccGone(m, root, c, l, node, red, cr, x, xRed, xr, px);
    if cr.Root? {
      NearTook(m, node, l.id, c.Parent(), red, x, xr.Top(), xRed);
    } else {
      FarTook(m, node, l.id, r.id, c.Parent(), red, x, px, xr.Top(), xRed);
      FarKeys(m, node, l.id, r.id, c.Parent(), red, x, px, xr.Top(), xRed);
    }
    TopAfter(r, cr, x, xRed, xr);
    hide SuccLinks, TookPlace, At, PlaceTail, PlaceHead, Unlinked, Plug, Over, Coloured, Renamed;
    NodeLinks(m1, root, c, l, node, red, r1);
    TookPlaceRenamed(m1, mf, root, c, l, node, red, r1, x);
    RenAt(m1, mf, root, top, a, node, x);
  }

  /** The top of the right subtree after its leftmost node has gone. */
  lemma {:induction false} TopAfter(r: Tree, cr: Ctx, x: Ptr, xRed: bool, xr: Tree)
    requires r == Plug(cr, Fork(Leaf, x, xRed, xr)) && r.Fork?
    ensures Plug(cr, Coloured(xr, xRed)).Top() == if cr.Root? then xr.Top() else r.id
  {
    PlugTops(cr, Fork(Leaf, x, xRed, xr), Coloured(xr, xRed));
  }

  lemma {:induction false} PlugTops(cr: Ctx, t: Tree, t': Tree)
    ensures cr.In? ==> Plug(cr, t).Fork? && Plug(cr, t').Fork? && Plug(cr, t).id == Plug(cr, t').id
    ensures cr.Root? ==> Plug(cr, t) == t && Plug(cr, t') == t'
    decreases cr
  {
    if cr.In? { PlugTops(cr.up, Mk(cr.s, t, cr.id, cr.red, cr.o), Mk(cr.s, t', cr.id, cr.red, cr.o)); }
  }

  /** The tree after the successor has left its own place. */
  lemma {:induction false} SuccGone(m: Nodes, root: Ptr, c: Ctx, l: Tree, node: Ptr, red: bool, cr: Ctx, x: Ptr, xRed: bool, xr: Tree, px: Ptr)
    requires At(m, root, Over(cr, In(c, Right, node, red, l)), Mk(Left, Leaf, x, xRed, xr))
    requires px == (if cr.Root? then node else cr.id)
    ensures (xr.Fork? ==> xr.id in m) && px in m && px != Null
    ensures var m1, a, top := Unlinked(m, x, xr.Top(), px, xRed), Coloured(xr, xRed), Over(cr, In(c, Right, node, red, l));
            && At(m1, root, top, a) && At(m1, root, c, Fork(l, node, red, Plug(cr, a))) && SameKeys(m, m1)
            && CtxIds(top) + Ids(a) == CtxIds(c) + Ids(Fork(l, node, red, Plug(cr, a)))
            && x !in CtxIds(top) + Ids(a) && node !in Ids(a) && node != Null && x != Null
  {
    hide At, Rep, RepCtx, Unlinked, Coloured, Plug, Over, Ids, CtxIds, CtxWf, Wf, Distinct;
    var base, a := In(c, Right, node, red, l), Coloured(xr, xRed);
    var top := Over(cr, base);
    OverPlug(cr, base, a);
    OverIn(cr, base);
    AtDistinct(m, root, top, Mk(Left, Leaf, x, xRed, xr));
    SuccIds(c, l, node, red, cr, x, xRed, xr);
    NotNull(m, root, top, Mk(Left, Leaf, x, xRed, xr));
    NodeLinks(m, root, top, Leaf, x, xRed, xr);
    UnlinkAt(m, root, top, Left, x, xRed, xr);
    var m1 := Unlinked(m, x, xr.Top(), px, xRed);
    InRight(c, l, node, red, Plug(cr, a));
    AtWhole(m1, root, top, a);
    AtWhole(m1, root, c, Fork(l, node, red, Plug(cr, a)));
  }

  lemma {:induction false} OverIn(cr: Ctx, base: Ctx)
    requires base.In?
    ensures Over(cr, base).In? && Over(cr, base).id == if cr.Root? then base.id else cr.id
  {}

  lemma {:induction false} InRight(c: Ctx, l: Tree, node: Ptr, red: bool, t: Tree)
    ensures Plug(In(c, Right, node, red, l), t) == Plug(c, Fork(l, node, red, t))
  {}

  /** The names in the tree without the successor. */
  lemma {:induction false} SuccIds(c: Ctx, l: Tree, node: Ptr, red: bool, cr: Ctx, x: Ptr, xRed: bool, xr: Tree)
    requires Distinct(Over(cr, In(c, Right, node, red, l)), Mk(Left, Leaf, x, xRed, xr))
    ensures var a, top := Coloured(xr, xRed), Over(cr, In(c, Right, node, red, l));
            && CtxIds(top) + Ids(a) == CtxIds(c) + Ids(Fork(l, node, red, Plug(cr, a)))
            && x !in CtxIds(top) + Ids(a) && node !in Ids(a) && node != Null && x != Null
  {
    hide Plug, Over;
    var base, a := In(c, Right, node, red, l), Coloured(xr, xRed);
    OverPlug(cr, base, a);
    MkIds(Left, Leaf, x, xRed, xr);
    PlugDistinct(cr, a);
    assert Ids(a) == Ids(xr) && CtxIds(base) == {node} + Ids(l) + CtxIds(c);
  }

  // ------------------------------------------------------------ the result of unlinking

  /** What is left to do at the place `c`: nothing, or to restore one black node. */
  ghost predicate Unbalanced(c: Ctx, a: Tree, rebalance: Ptr, height: nat) {
    if rebalance == Null then RedBlack(Plug(c, a), height)
    else a.Leaf? && Short(c, Leaf, 0, height) && rebalance == c.Parent()
  }

  /** The order without the one place of `x`. */
  lemma {:induction false} WithoutMiddle(a: seq<Ptr>, x: Ptr, b: seq<Ptr>)
    requires x !in a
    ensures Dropped(a + [x] + b, x) == a + b
  {
    var s := a + [x] + b;
    if a == [] {
      assert s[1..] == b && a + b == b;
    } else {
      WithoutMiddle(a[1..], x, b);
      assert s[1..] == a[1..] + [x] + b;
      assert a + b == [a[0]] + (a[1..] + b);
    }
  }

  /** The sequence without the first `x`. */
  function Dropped(s: seq<Ptr>, x: Ptr): seq<Ptr> {
    if s == [] then [] else if s[0] == x then s[1..] else [s[0]] + Dropped(s[1..], x)
  }

  lemma {:induction false} NotBefore(c: Ctx, t: Tree, x: Ptr)
    requires Wf(Plug(c, t)) && t.Fork? && x == t.id
    ensures x !in Before(c) && x !in InOrder(t.l)
  {
    PlugDistinct(c, t);
    BeforeIds(c, x);
    InOrderIds(t.l, x);
  }

  lemma {:induction false} BeforeIds(c: Ctx, x: Ptr)
    ensures x in Before(c) || x in After(c) ==> x in CtxIds(c)
  {
    if c.In? {
      BeforeIds(c.up, x);
      InOrderIds(c.o, x);
    }
  }

  /** A sequence `a` with `x` on its side `s`, between two others. */
  lemma {:induction false} DropSide(s: Side, b: seq<Ptr>, x: Ptr, a: seq<Ptr>, e: seq<Ptr>)
    requires x !in b && (s == Right ==> x !in a)
    ensures Dropped(b + (if s == Left then [x] + a else a + [x]) + e, x) == b + a + e
  {
    if s == Left {
      assert b + ([x] + a) + e == b + [x] + (a + e);
      WithoutMiddle(b, x, a + e);
    } else {
      assert b + (a + [x]) + e == (b + a) + [x] + e;
      WithoutMiddle(b + a, x, e);
    }
    assert b + (a + e) == b + a + e;
  }

  lemma {:induction false} OneOrder(c: Ctx, s: Side, x: Ptr, red: bool, a: Tree)
    requires Wf(Plug(c, Mk(s, Leaf, x, red, a)))
    ensures InOrder(Plug(c, Coloured(a, red))) == Dropped(InOrder(Plug(c, Mk(s, Leaf, x, red, a))), x)
  {
    NotBefore(c, Mk(s, Leaf, x, red, a), x);
    assert s == Right ==> Mk(s, Leaf, x, red, a).l == a;
    hide Plug, InOrder, Before, After, Coloured, Mk, Wf;
    UnlinkOrder(c, s, x, red, a);
    DropSide(s, Before(c), x, InOrder(a), After(c));
  }

  lemma {:induction false} OneResult(c: Ctx, s: Side, x: Ptr, red: bool, a: Tree, height: nat, rebalance: Ptr) returns (h: nat)
    requires RedBlack(Plug(c, Mk(s, Leaf, x, red, a)), height) && Wf(Plug(c, Mk(s, Leaf, x, red, a)))
    requires rebalance == if a.Leaf? && !red then c.Parent() else Null
    ensures Unbalanced(c, Coloured(a, red), rebalance, h)
  {
    PlugDistinct(c, Mk(s, Leaf, x, red, a));
    ParentThere(c);
    hide RedBlack, Plug, Short, Mk, Wf;
    UnlinkRules(c, s, x, red, a, height);
    h := if a.Leaf? && !red && c.Root? then 0 else height;
  }

  lemma {:induction false} ParentThere(c: Ctx)
    requires CtxWf(c)
    ensures c.Parent() == Null <==> c.Root?
  {}

  lemma {:induction false} OverBefore(cr: Ctx, base: Ctx)
    ensures Before(Over(cr, base)) == Before(base) + Before(cr)
  {
    if cr.In? { OverBefore(cr.up, base); }
  }

  lemma {:induction false} TwoResult(c: Ctx, l: Tree, node: Ptr, red: bool, r: Tree, cr: Ctx, x: Ptr, xRed: bool, xr: Tree, height: nat, rebalance: Ptr)
    requires RedBlack(Plug(c, Fork(l, node, red, r)), height) && Wf(Plug(c, Fork(l, node, red, r)))
    requires r == Plug(cr, Fork(Leaf, x, xRed, xr)) && AllLeft(cr)
    requires rebalance == if xr.Leaf? && !xRed then (if cr.Root? then x else cr.id) else Null
    ensures var c' := RenCtx(Over(cr, In(c, Right, node, red, l)), node, x);
            && Unbalanced(c', Coloured(xr, xRed), rebalance, height)
            && InOrder(Plug(c', Coloured(xr, xRed))) == Dropped(InOrder(Plug(c, Fork(l, node, red, r))), node)
  {
    var base, tx, a := In(c, Right, node, red, l), Fork(Leaf, x, xRed, xr), Coloured(xr, xRed);
    var top := Over(cr, base);
    OverPlug(cr, base, tx);
    assert Plug(base, r) == Plug(c, Fork(l, node, red, r)) && tx == Mk(Left, Leaf, x, xRed, xr) && top.In?;
    PlugDistinct(top, tx);
    assert Wf(tx) && Wf(xr);
    assert Ids(a) == Ids(xr) && Wf(a) && (a.Leaf? <==> xr.Leaf?) && (a.Leaf? ==> a == Leaf);
    var c' := RenCtx(top, node, x);
    RenParent(top, node, x);
    assert c'.In?;
    hide RedBlack, Plug, Short, Mk, Wf, Ids, CtxIds, CtxWf, InOrder, Over, RenTree, RenCtx, Distinct, Coloured, AllLeft;
    SuccApart(c, l, node, red, cr, x, xRed, xr);
    RenIds(a, node, x);
    RenRules(top, a, node, x, height);
    UnlinkRules(top, Left, x, xRed, xr, height);
    TwoOrder(c, l, node, red, cr, x, xRed, xr);
  }

  lemma {:induction false} RenRules(c: Ctx, a: Tree, node: Ptr, x: Ptr, height: nat)
    ensures RedBlack(RenTree(Plug(c, a), node, x), height) <==> RedBlack(Plug(c, a), height)
    ensures Plug(RenCtx(c, node, x), RenTree(a, node, x)) == RenTree(Plug(c, a), node, x)
    ensures Short(RenCtx(c, node, x), Leaf, 0, height) <==> Short(c, Leaf, 0, height)
  {
    RenPlug(c, a, node, x);
    RenTreeRules(Plug(c, a), node, x, height);
    RenCtxRules(c, node, x, 1, height);
  }

  lemma {:induction false} TwoOrder(c: Ctx, l: Tree, node: Ptr, red: bool, cr: Ctx, x: Ptr, xRed: bool, xr: Tree)
    requires AllLeft(cr) && Distinct(Over(cr, In(c, Right, node, red, l)), Fork(Leaf, x, xRed, xr))
    ensures var top, a, tx := Over(cr, In(c, Right, node, red, l)), Coloured(xr, xRed), Fork(Leaf, x, xRed, xr);
            InOrder(RenTree(Plug(top, a), node, x)) == Dropped(InOrder(Plug(top, tx)), node)
  {
    var base, tx, a := In(c, Right, node, red, l), Fork(Leaf, x, xRed, xr), Coloured(xr, xRed);
    var top := Over(cr, base);
    var pre, xs, aft := Before(c) + InOrder(l), InOrder(xr), After(top);
    OverBefore(cr, base);
    AllLeftBefore(cr);
    assert Before(top) == pre + [node];
    assert tx == Mk(Left, Leaf, x, xRed, xr);
    hide InOrder, Plug, Over, Before, After, Coloured, Distinct, RenTree, Mk, RenSeq, Dropped, AllLeft;
    UnlinkOrder(top, Left, x, xRed, xr);
    RenInOrder(Plug(top, a), node, x);
    NodeOnce(c, l, node, red, cr, x, xRed, xr);
    DropRenamed(pre, node, x, xs, aft);
  }

  lemma {:induction false} DropRenamed(pre: seq<Ptr>, node: Ptr, x: Ptr, xs: seq<Ptr>, aft: seq<Ptr>)
    requires node !in pre && node !in xs + aft
    ensures RenSeq(pre + [node] + xs + aft, node, x) == Dropped(pre + [node] + ([x] + xs) + aft, node)
  {
    var post := xs + aft;
    assert pre + [node] + xs + aft == pre + [node] + post;
    assert pre + [node] + ([x] + xs) + aft == pre + [node] + ([x] + post);
    assert pre + [x] + post == pre + ([x] + post);
    OneRenamed(pre, node, x, post);
    hide RenSeq, Dropped;
    WithoutMiddle(pre, node, [x] + post);
  }

  lemma {:induction false} OneRenamed(pre: seq<Ptr>, node: Ptr, x: Ptr, post: seq<Ptr>)
    requires node !in pre && node !in post
    ensures RenSeq(pre + [node] + post, node, x) == pre + [x] + post
  {
    assert RenSeq([node], node, x) == [x];
    hide RenSeq;
    RenSeqAppend(pre + [node], post, node, x);
    RenSeqAppend(pre, [node], node, x);
    RenSeqSame(pre, node, x);
    RenSeqSame(post, node, x);
  }

  lemma {:induction false} NodeOnce(c: Ctx, l: Tree, node: Ptr, red: bool, cr: Ctx, x: Ptr, xRed: bool, xr: Tree)
    requires AllLeft(cr) && Distinct(Over(cr, In(c, Right, node, red, l)), Fork(Leaf, x, xRed, xr))
    ensures node !in Before(c) + InOrder(l) && node !in InOrder(xr) + After(Over(cr, In(c, Right, node, red, l)))
  {
    SuccApart(c, l, node, red, cr, x, xRed, xr);
    BeforeIds(c, node);
    InOrderIds(l, node);
    InOrderIds(xr, node);
    AfterOver(cr, In(c, Right, node, red, l), node);
  }

  lemma {:induction false} AfterOver(cr: Ctx, base: Ctx, x: Ptr)
    ensures x in After(Over(cr, base)) ==> x in CtxIds(cr) || x in After(base)
  {
    if cr.In? {
      AfterOver(cr.up, base, x);
      InOrderIds(cr.o, x);
    }
  }

  lemma {:induction false} SortedDropped(m: Nodes, m': Nodes, s: seq<Ptr>, x: Ptr)
    requires SortedBy(m, s) && SameKeys(m, m')
    ensures SortedBy(m', Dropped(s, x))
  {
    if s != [] && s[0] != x {
      var d, t := Dropped(s[1..], x), s[1..];
      assert forall i :: 0 <= i < |t| ==> t[i] == s[i + 1];
      SortedDropped(m, m', t, x);
      DroppedIn(t, x);
      forall i | 0 <= i < |d| ensures m'[s[0]].key <= m'[d[i]].key {
        assert d[i] in t;
        var k :| 0 <= k < |t| && t[k] == d[i];
        assert s[k + 1] == d[i];
      }
    }
  }

  lemma {:induction false} DroppedIn(s: seq<Ptr>, x: Ptr)
    ensures forall y :: y in Dropped(s, x) ==> y in s
  {
    if s != [] && s[0] != x { DroppedIn(s[1..], x); }
  }
}
