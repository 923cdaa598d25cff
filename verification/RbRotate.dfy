/** Rotation and recolouring of linked nodes, and what they do to the tree. */
module RbRotate {
  import opened RbModel

  /** The nodes apart from `xs` are the same. */
  ghost predicate SameBut(m: Nodes, m': Nodes, xs: set<Ptr>) {
    m'.Keys == m.Keys && forall x :: x in m && x !in xs ==> m'[x] == m[x]
  }

  /** Links and colours may change; nodes and keys do not. */
  ghost predicate SameKeys(m: Nodes, m': Nodes) {
    m'.Keys == m.Keys && forall x :: x in m ==> m'[x].key == m[x].key
  }

  /** `p`, the child of `g` on side `s`, takes the place of `g`, which becomes its child on the other
      side and takes over `b`, its grandchild between them. Both get new colours. */
  function Rotate(m: Nodes, s: Side, g: Ptr, p: Ptr, b: Ptr, gRed: bool, pRed: bool): Nodes
    requires g in m && p in m && (b != Null ==> b in m) && (m[g].parent != Null ==> m[g].parent in m)
  {
    ChangeChild(RotateInner(m, s, g, p, b, gRed, pRed), g, p, m[g].parent)
  }

  /** ... but for the link from above. */
  function RotateInner(m: Nodes, s: Side, g: Ptr, p: Ptr, b: Ptr, gRed: bool, pRed: bool): (r: Nodes)
    requires g in m && p in m && (b != Null ==> b in m)
    ensures r.Keys == m.Keys
  {
    var m1 := m[g := m[g].WithKid(s, b).(parent := p, red := gRed)];
    var m2 := m1[p := m1[p].WithKid(s.Other(), g).(parent := m[g].parent, red := pRed)];
    if b == Null then m2 else m2[b := m2[b].(parent := g)]
  }

  /** The links of `g` and its child `p`, with what hangs from them. */
  ghost predicate Linked(m: Nodes, root: Ptr, up: Ctx, s: Side, g: Ptr, p: Ptr, a: Tree, b: Tree, u: Tree) {
    && p in m && g in m && m[p].parent == g && m[g].Kid(s) == p && m[g].parent == up.Parent()
    && (up.Parent() != Null ==> up.Parent() in m)
    && Rep(m, m[p].Kid(s), p, a) && Rep(m, m[p].Kid(s.Other()), p, b) && Rep(m, m[g].Kid(s.Other()), g, u)
    && m[p].Kid(s.Other()) == b.Top() && (b.Fork? ==> b.id in m)
    && RepCtx(m, root, up, g)
  }

  /** The parts of the tree share no node. */
  ghost predicate Apart(up: Ctx, g: Ptr, p: Ptr, a: Tree, b: Tree, u: Tree) {
    && Wf(a) && Wf(b) && Wf(u) && CtxWf(up) && p != Null && g != Null && p != g
    && Ids(a) !! Ids(b) && Ids(a) !! Ids(u) && Ids(b) !! Ids(u)
    && CtxIds(up) !! Ids(a) && CtxIds(up) !! Ids(b) && CtxIds(up) !! Ids(u)
    && p !in Ids(a) && p !in Ids(b) && p !in Ids(u) && p !in CtxIds(up)
    && g !in Ids(a) && g !in Ids(b) && g !in Ids(u) && g !in CtxIds(up)
  }

  lemma {:induction false} IsLinked(m: Nodes, root: Ptr, up: Ctx, s: Side, g: Ptr, gRed: bool, p: Ptr, pRed: bool, a: Tree, b: Tree, u: Tree)
    requires RepCtx(m, root, up, g) && Rep(m, g, up.Parent(), Mk(s, Mk(s, a, p, pRed, b), g, gRed, u))
    requires Distinct(up, Mk(s, Mk(s, a, p, pRed, b), g, gRed, u))
    ensures Linked(m, root, up, s, g, p, a, b, u) && Apart(up, g, p, a, b, u)
    ensures m[p].red == pRed && m[g].red == gRed
  {
    var q := Mk(s, a, p, pRed, b);
    RepMk(m, g, up.Parent(), s, q, g, gRed, u);
    RepMk(m, m[g].Kid(s), g, s, a, p, pRed, b);
    RepTop(m, m[p].Kid(s.Other()), p, b);
    hide Ids, Wf, CtxIds, CtxWf, InOrder, Mk, Rep, RepCtx;
    MkIds(s, a, p, pRed, b);
    MkIds(s, q, g, gRed, u);
  }

  function TopSet(t: Tree): set<Ptr> {
    if t.Leaf? then {} else {t.id}
  }

  lemma {:induction false} TopIn(t: Tree)
    ensures TopSet(t) <= Ids(t)
  {}

  /** The node that the context hangs from is one of its own. */
  lemma {:induction false} ParentIn(c: Ctx)
    ensures c.Parent() != Null ==> c.Parent() in CtxIds(c)
  {}

  /** The fields of a node, its children by side. */
  ghost predicate Has(n: Node, s: Side, near: Ptr, far: Ptr, parent: Ptr, red: bool, key: int) {
    n.Kid(s) == near && n.Kid(s.Other()) == far && n.parent == parent && n.red == red && n.key == key
  }

  /** A subtree that has no node in `xs`. */
  lemma {:induction false} RepBut(m: Nodes, m': Nodes, p: Ptr, par: Ptr, t: Tree, xs: set<Ptr>)
    requires Rep(m, p, par, t) && SameBut(m, m', xs) && xs !! Ids(t)
    ensures Rep(m', p, par, t)
  {
    RepSame(m, m', p, par, t);
  }

  /** A subtree that has only its root in `xs`, and that root has a new parent. */
  lemma {:induction false} RepMovedBut(m: Nodes, m': Nodes, par: Ptr, par': Ptr, t: Tree, xs: set<Ptr>)
    requires Rep(m, t.Top(), par, t) && Wf(t) && SameBut(m, m', xs) && (xs - TopSet(t)) !! Ids(t)
    requires t.Fork? ==> t.id in m && m'[t.id] == m[t.id].(parent := par')
    ensures Rep(m', t.Top(), par', t)
  {
    RepMoved(m, m', t.Top(), par, par', t);
  }

  lemma {:induction false} RotateHas(m: Nodes, s: Side, g: Ptr, p: Ptr, b: Tree, gRed: bool, pRed: bool)
    requires g in m && p in m && (b.Fork? ==> b.id in m && b.id != Null && b.id != g && b.id != p) && g != p
    ensures var m' := RotateInner(m, s, g, p, b.Top(), gRed, pRed);
            && SameBut(m, m', {g, p} + TopSet(b)) && SameKeys(m, m')
            && Has(m'[g], s, b.Top(), m[g].Kid(s.Other()), p, gRed, m[g].key)
            && Has(m'[p], s, m[p].Kid(s), g, m[g].parent, pRed, m[p].key)
            && (b.Fork? ==> m'[b.id] == m[b.id].(parent := g))
  {}

  /** Where a context takes a new node, and nothing else changes but what is in `xs`. */
  lemma {:induction false} Swapped(m: Nodes, m': Nodes, root: Ptr, up: Ctx, g: Ptr, p: Ptr, xs: set<Ptr>)
    requires RepCtx(m, root, up, g) && CtxWf(up) && g != Null && g in m && g !in CtxIds(up)
    requires SameBut(m, m', xs) && xs !! CtxIds(up) && SameKeys(m, m') && (up.Parent() != Null ==> up.Parent() in m)
    ensures var mf := ChangeChild(m', g, p, up.Parent());
            && RepCtx(mf, ChangeRoot(root, p, up.Parent()), up, p) && SameKeys(m, mf)
            && SameBut(m, mf, xs + CtxIds(up)) && forall x :: x in m && x in xs ==> mf[x] == m'[x]
  {
    ParentIn(up);
    hide Ids, CtxIds, Wf, CtxWf, Rep, RepCtx;
    CtxChanged(m, m', root, up, g, p);
  }

  lemma {:induction false} RotateSets(up: Ctx, g: Ptr, p: Ptr, a: Tree, b: Tree, u: Tree, xs: set<Ptr>)
    requires Apart(up, g, p, a, b, u) && xs == {g, p} + TopSet(b)
    ensures xs !! CtxIds(up) && (xs + CtxIds(up)) !! Ids(a) && (xs + CtxIds(up)) !! Ids(u)
    ensures (xs + CtxIds(up) - TopSet(b)) !! Ids(b) && g !in CtxIds(up) && g != Null && p != Null && g != p
    ensures Wf(b) && CtxWf(up) && p in xs && g in xs && (b.Fork? ==> b.id in xs && b.id != g && b.id != p && b.id != Null)
  {
    TopIn(b);
    hide Ids, CtxIds, CtxWf;
  }

  /** A rotation turns one tree around; everything else stays in place. */
  lemma {:induction false} RotateRep(m: Nodes, root: Ptr, up: Ctx, s: Side, g: Ptr, p: Ptr, a: Tree, b: Tree, u: Tree, gRed: bool, pRed: bool)
    requires Linked(m, root, up, s, g, p, a, b, u) && Apart(up, g, p, a, b, u)
    ensures var mf := Rotate(m, s, g, p, b.Top(), gRed, pRed);
            && RepCtx(mf, ChangeRoot(root, p, up.Parent()), up, p)
            && Rep(mf, p, up.Parent(), Mk(s, a, p, pRed, Mk(s, b, g, gRed, u)))
            && SameKeys(m, mf)
  {
    var xs := {g, p} + TopSet(b);
    RotateSets(up, g, p, a, b, u, xs);
    hide Ids, CtxIds, Wf, CtxWf, Rep, RepCtx, Node.Kid, Node.WithKid, Side.Other, Mk, Apart, TopSet;
    var m' := RotateInner(m, s, g, p, b.Top(), gRed, pRed);
    RotateHas(m, s, g, p, b, gRed, pRed);
    hide RotateInner;
    Swapped(m, m', root, up, g, p, xs);
    var mf := ChangeChild(m', g, p, up.Parent());
    var ys := xs + CtxIds(up);
    hide ChangeChild, SameBut, SameKeys;
    RepBut(m, mf, m[p].Kid(s), p, a, ys);
    RepMovedBut(m, mf, p, g, b, ys);
    RepBut(m, mf, m[g].Kid(s.Other()), g, u, ys);
    RepMk(mf, g, p, s, b, g, gRed, u);
    RepMk(mf, p, up.Parent(), s, a, p, pRed, Mk(s, b, g, gRed, u));
  }

  lemma {:induction false} RotateOrder(s: Side, a: Tree, p: Ptr, pRed: bool, b: Tree, g: Ptr, gRed: bool, u: Tree, pRed': bool, gRed': bool)
    ensures var t, t' := Mk(s, Mk(s, a, p, pRed, b), g, gRed, u), Mk(s, a, p, pRed', Mk(s, b, g, gRed', u));
            InOrder(t') == InOrder(t) && Ids(t') == Ids(t) && (Wf(t) ==> Wf(t'))
  {
    var l, r := Mk(s, a, p, pRed, b), Mk(s, b, g, gRed', u);
    MkIds(s, a, p, pRed, b);
    MkIds(s, l, g, gRed, u);
    MkIds(s, b, g, gRed', u);
    MkIds(s, a, p, pRed', r);
    hide Ids, Wf, InOrder, Mk;
    Assoc(InOrder(a), [p], InOrder(b), [g], InOrder(u));
    Assoc(InOrder(u), [g], InOrder(b), [p], InOrder(a));
  }

  // ---------------------------------------------------------- a place in a tree

  /** The nodes are the tree `t` at the place `c`. */
  ghost predicate At(m: Nodes, root: Ptr, c: Ctx, t: Tree) {
    RepCtx(m, root, c, t.Top()) && Rep(m, t.Top(), c.Parent(), t) && Distinct(c, t)
  }

  /** The same place seen from one node higher. */
  lemma {:induction false} AtUp(m: Nodes, root: Ptr, up: Ctx, s: Side, id: Ptr, red: bool, o: Tree, t: Tree)
    ensures At(m, root, In(up, s, id, red, o), t) <==> At(m, root, up, Mk(s, t, id, red, o))
  {
    var c, u := In(up, s, id, red, o), Mk(s, t, id, red, o);
    PlugDistinct(c, t);
    PlugDistinct(up, u);
    PlugRep(m, root, c, t.Top(), t);
    PlugRep(m, root, up, u.Top(), u);
  }

  /** The node at the top of a place, and its parent's link. */
  lemma {:induction false} AtTop(m: Nodes, root: Ptr, c: Ctx, s: Side, a: Tree, id: Ptr, red: bool, b: Tree)
    requires At(m, root, c, Mk(s, a, id, red, b))
    ensures id in m && id != Null && m[id].Kid(s) == a.Top() && m[id].Kid(s.Other()) == b.Top() && m[id].red == red
    ensures m[id].parent == c.Parent() && (a.Fork? ==> a.id in m && m[a.id].red == a.red && m[a.id].parent == id && a.id != id)
    ensures b.Fork? ==> b.id in m && m[b.id].red == b.red && m[b.id].parent == id && b.id != id
    ensures a.Fork? && b.Fork? ==> a.id != b.id
    ensures c.Parent() != Null ==> c.Parent() in m && c.Parent() != id
    ensures a.Fork? ==> a.id != Null && a.id != c.Parent()
    ensures b.Fork? ==> b.id != Null && b.id != c.Parent()
  {
    RepMk(m, id, c.Parent(), s, a, id, red, b);
    RepTop(m, m[id].Kid(s), id, a);
    RepTop(m, m[id].Kid(s.Other()), id, b);
    MkIds(s, a, id, red, b);
    ParentIn(c);
    TopIn(a);
    TopIn(b);
  }

  lemma {:induction false} RotateAt(m: Nodes, root: Ptr, up: Ctx, s: Side, g: Ptr, gRed: bool, p: Ptr, pRed: bool,
                 a: Tree, b: Tree, u: Tree, gRed': bool, pRed': bool)
    requires At(m, root, up, Mk(s, Mk(s, a, p, pRed, b), g, gRed, u))
    ensures Linked(m, root, up, s, g, p, a, b, u)
    ensures At(Rotate(m, s, g, p, b.Top(), gRed', pRed'), ChangeRoot(root, p, up.Parent()), up, Mk(s, a, p, pRed', Mk(s, b, g, gRed', u)))
    ensures SameKeys(m, Rotate(m, s, g, p, b.Top(), gRed', pRed'))
  {
    IsLinked(m, root, up, s, g, gRed, p, pRed, a, b, u);
    RotateOrder(s, a, p, pRed, b, g, gRed, u, pRed', gRed');
    hide Rep, RepCtx, Rotate, Ids, CtxIds, Wf, CtxWf;
    RotateRep(m, root, up, s, g, p, a, b, u, gRed', pRed');
  }

  /** `rbtree_set_parent_color` with the parent a node has already. */
  lemma {:induction false} ColourAt(m: Nodes, root: Ptr, c: Ctx, s: Side, a: Tree, id: Ptr, red: bool, b: Tree, red': bool)
    requires At(m, root, c, Mk(s, a, id, red, b))
    ensures id in m && At(m[id := m[id].(red := red')], root, c, Mk(s, a, id, red', b))
  {
    var m' := m[id := m[id].(red := red')];
    MkIds(s, a, id, red, b);
    MkIds(s, a, id, red', b);
    RepMk(m, id, c.Parent(), s, a, id, red, b);
    assert id !in Ids(a) && id !in Ids(b) && id !in CtxIds(c);
    CtxSame(m, m', root, c, id);
    RepSame(m, m', m[id].Kid(s), id, a);
    RepSame(m, m', m[id].Kid(s.Other()), id, b);
    RepMk(m', id, c.Parent(), s, a, id, red', b);
  }

  lemma {:induction false} SameKeysTrans(a: Nodes, b: Nodes, c: Nodes)
    requires SameKeys(a, b) && SameKeys(b, c)
    ensures SameKeys(a, c)
  {}

  /** Trees of the same order are so in any context. */
  lemma {:induction false} PlugSameOrder(c: Ctx, t: Tree, t': Tree)
    requires InOrder(t') == InOrder(t)
    ensures InOrder(Plug(c, t')) == InOrder(Plug(c, t))
  {
    PlugInOrder(c, t);
    PlugInOrder(c, t');
  }

  lemma {:induction false} MkSwap(s: Side, a: Tree, id: Ptr, red: bool, b: Tree)
    ensures Mk(s.Other(), b, id, red, a) == Mk(s, a, id, red, b)
    ensures s.Other().Other() == s
  {}

  // ------------------------------------------------- the three cases of `rbtree_insert`

  /** Below a red parent `p` and a red uncle: both become black, and `g` red. */
  lemma {:induction false} RecolourAt(m: Nodes, root: Ptr, up: Ctx, s2: Side, g: Ptr, u: Tree, s: Side, p: Ptr, sib: Tree, t: Tree)
    requires At(m, root, In(In(up, s2, g, false, u), s, p, true, sib), t) && u.Fork? && u.red
    ensures g in m && p in m && u.id in m && g != p && g != u.id && p != u.id
    ensures var m' := m[p := m[p].(red := false)][g := m[g].(red := true)][u.id := m[u.id].(red := false)];
            At(m', root, up, Mk(s2, Mk(s, t, p, false, sib), g, true, u.(red := false)))
  {
    hide At;
    var q := Mk(s, t, p, false, sib);
    AtUp(m, root, In(up, s2, g, false, u), s, p, true, sib, t);
    ColourAt(m, root, In(up, s2, g, false, u), s, t, p, true, sib, false);
    var m1 := m[p := m[p].(red := false)];
    AtUp(m1, root, up, s2, g, false, u, q);
    AtTop(m1, root, up, s2, q, g, false, u);
    ColourAt(m1, root, up, s2, q, g, false, u, true);
    var m2 := m1[g := m1[g].(red := true)];
    MkSwap(s2, q, g, true, u);
    AtUp(m2, root, up, s2.Other(), g, true, q, u);
    ColourAt(m2, root, In(up, s2.Other(), g, true, q), Left, u.l, u.id, true, u.r, false);
    var u' := u.(red := false);
    AtUp(m2[u.id := m2[u.id].(red := false)], root, up, s2.Other(), g, true, q, u');
    MkSwap(s2, q, g, true, u');
  }

  lemma {:induction false} RecolourRules(up: Ctx, s2: Side, g: Ptr, u: Tree, s: Side, p: Ptr, sib: Tree, t: Tree, n: nat, total: nat)
    requires CtxBal(In(In(up, s2, g, false, u), s, p, true, sib), n, total)
    requires CtxRules(In(In(up, s2, g, false, u), s, p, true, sib))
    requires Bal(t, n) && NoRedRed(t) && u.Fork? && u.red
    ensures var t' := Mk(s2, Mk(s, t, p, false, sib), g, true, u.(red := false));
            CtxBal(up, n + 1, total) && CtxRules(up) && Bal(t', n + 1) && NoRedRed(t')
  {}

  lemma {:induction false} RecolourOrder(s2: Side, g: Ptr, u: Tree, s: Side, p: Ptr, sib: Tree, t: Tree)
    requires u.Fork?
    ensures InOrder(Mk(s2, Mk(s, t, p, false, sib), g, true, u.(red := false))) == InOrder(Mk(s2, Mk(s, t, p, true, sib), g, false, u))
  {
    MkIds(s, t, p, false, sib);
    MkIds(s, t, p, true, sib);
    MkIds(s2, Mk(s, t, p, false, sib), g, true, u.(red := false));
    MkIds(s2, Mk(s, t, p, true, sib), g, false, u);
  }

  /** Below a red parent `p`, a black uncle, on the outer side: one rotation. */
  lemma {:induction false} OuterRules(up: Ctx, s: Side, g: Ptr, u: Tree, p: Ptr, sib: Tree, t: Tree, n: nat, total: nat)
    requires CtxBal(In(In(up, s, g, false, u), s, p, true, sib), n, total)
    requires CtxRules(In(In(up, s, g, false, u), s, p, true, sib))
    requires Bal(t, n) && NoRedRed(t) && u.Black()
    ensures var t' := Mk(s, t, p, false, Mk(s, sib, g, true, u));
            CtxBal(up, n + 1, total) && CtxRules(up) && Bal(t', n + 1) && NoRedRed(t') && sib.Black()
  {}

  /** ... on the inner side: two. */
  lemma {:induction false} InnerRules(up: Ctx, s: Side, g: Ptr, u: Tree, p: Ptr, sib: Tree, a: Tree, b: Tree, node: Ptr, n: nat, total: nat)
    requires CtxBal(In(In(up, s, g, false, u), s.Other(), p, true, sib), n, total)
    requires CtxRules(In(In(up, s, g, false, u), s.Other(), p, true, sib))
    requires Bal(Mk(s, a, node, true, b), n) && NoRedRed(Mk(s, a, node, true, b)) && u.Black()
    ensures var t' := Mk(s, Mk(s, sib, p, true, a), node, false, Mk(s, b, g, true, u));
            CtxBal(up, n + 1, total) && CtxRules(up) && Bal(t', n + 1) && NoRedRed(t') && a.Black() && b.Black()
  {}

  lemma {:induction false} OuterAt(m: Nodes, root: Ptr, up: Ctx, s: Side, g: Ptr, u: Tree, p: Ptr, sib: Tree, t: Tree)
    requires At(m, root, In(In(up, s, g, false, u), s, p, true, sib), t)
    ensures Linked(m, root, up, s, g, p, t, sib, u) && At(m, root, up, Mk(s, Mk(s, t, p, true, sib), g, false, u))
    ensures var m' := Rotate(m, s, g, p, sib.Top(), true, false);
            && At(m', ChangeRoot(root, p, up.Parent()), up, Mk(s, t, p, false, Mk(s, sib, g, true, u)))
            && SameKeys(m, m')
  {
    hide At, Rotate;
    AtUp(m, root, In(up, s, g, false, u), s, p, true, sib, t);
    AtUp(m, root, up, s, g, false, u, Mk(s, t, p, true, sib));
    RotateAt(m, root, up, s, g, false, p, true, t, sib, u, true, false);
  }

  /** The lower of the two rotations, below `g`. */
  lemma {:induction false} LowerAt(m: Nodes, root: Ptr, c: Ctx, s: Side, p: Ptr, pRed: bool, sib: Tree, a: Tree, b: Tree, node: Ptr, nRed: bool, pRed': bool, nRed': bool)
    requires At(m, root, In(c, s.Other(), p, pRed, sib), Mk(s, a, node, nRed, b)) && c.In?
    ensures Linked(m, root, c, s.Other(), p, node, b, a, sib)
    ensures var m' := Rotate(m, s.Other(), p, node, a.Top(), pRed', nRed');
            && At(m', root, c, Mk(s, Mk(s, sib, p, pRed', a), node, nRed', b)) && SameKeys(m, m')
  {
    var o := s.Other();
    MkSwap(s, a, node, nRed, b);
    MkSwap(s, sib, p, pRed', a);
    MkSwap(s, Mk(s, sib, p, pRed', a), node, nRed', b);
    hide Rotate, Mk, Rep, RepCtx;
    AtUp(m, root, c, o, p, pRed, sib, Mk(o, b, node, nRed, a));
    RotateAt(m, root, c, o, p, pRed, node, nRed, b, a, sib, pRed', nRed');
    CtxNotNull(c);
  }

  lemma {:induction false} CtxNotNull(c: Ctx)
    requires CtxWf(c)
    ensures c.In? ==> c.Parent() != Null
  {}

  lemma {:induction false} InnerAt(m: Nodes, root: Ptr, up: Ctx, s: Side, g: Ptr, u: Tree, p: Ptr, sib: Tree, a: Tree, b: Tree, node: Ptr)
    requires At(m, root, In(In(up, s, g, false, u), s.Other(), p, true, sib), Mk(s, a, node, true, b))
    ensures Linked(m, root, In(up, s, g, false, u), s.Other(), p, node, b, a, sib)
    ensures var m1 := Rotate(m, s.Other(), p, node, a.Top(), true, true);
            && Linked(m1, root, up, s, g, node, Mk(s, sib, p, true, a), b, u)
            && var m2 := Rotate(m1, s, g, node, b.Top(), true, false);
               && At(m2, ChangeRoot(root, node, up.Parent()), up, Mk(s, Mk(s, sib, p, true, a), node, false, Mk(s, b, g, true, u)))
               && SameKeys(m, m2)
  {
    hide At, Rotate;
    LowerAt(m, root, In(up, s, g, false, u), s, p, true, sib, a, b, node, true, true, true);
    hide Mk;
    var m1, q := Rotate(m, s.Other(), p, node, a.Top(), true, true), Mk(s, sib, p, true, a);
    AtUp(m1, root, up, s, g, false, u, Mk(s, q, node, true, b));
    RotateAt(m1, root, up, s, g, false, node, true, q, b, u, true, false);
  }

  lemma {:induction false} InsertPlug(up: Ctx, s: Side, g: Ptr, u: Tree, sp: Side, p: Ptr, sib: Tree, t: Tree)
    ensures Plug(In(In(up, s, g, false, u), sp, p, true, sib), t) == Plug(up, Mk(s, Mk(sp, t, p, true, sib), g, false, u))
  {}
}
