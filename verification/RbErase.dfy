/** What the four cases of `rbtree_erase_color` do to nodes, trees and colours. */
module RbErase {
  import opened RbModel
  import opened RbRotate

  /** A subtree one black node short: `t` at `c` has black height `n` where `n + 1` is expected. */
  ghost predicate Short(c: Ctx, t: Tree, n: nat, total: nat) {
    c.In? && Bal(t, n) && NoRedRed(t) && t.Black() && CtxBal(c, n + 1, total) && CtxRules(c)
  }

  /** The sibling of such a subtree is there, and so are its children if it is red. */
  lemma {:induction false} SiblingThere(up: Ctx, s: Side, p: Ptr, pRed: bool, sib: Tree, t: Tree, n: nat, total: nat)
    requires Short(In(up, s, p, pRed, sib), t, n, total)
    ensures sib.Fork? && (sib.red ==> !pRed && sib.l.Fork? && sib.r.Fork? && sib.l.Black() && sib.r.Black())
    ensures !sib.red ==> Bal(sib.l, n) && Bal(sib.r, n)
    ensures NoRedRed(sib) && Bal(sib, n + 1)
  {
    BalFork(sib, n + 1);
    if sib.red {
      BalFork(sib.l, n + 1);
      BalFork(sib.r, n + 1);
    }
  }

  /** The links of the parent, the sibling and the subtree, and of what hangs between. */
  lemma {:induction false} EraseLinks(m: Nodes, root: Ptr, up: Ctx, s: Side, p: Ptr, pRed: bool, sib: Tree, t: Tree)
    requires At(m, root, In(up, s, p, pRed, sib), t) && sib.Fork?
    ensures p in m && sib.id in m && p != Null && sib.id != Null && p != sib.id && t.Top() != sib.id && t.Top() != p
    ensures m[p].Kid(s) == t.Top() && m[p].Kid(s.Other()) == sib.id && m[p].parent == up.Parent() && m[p].red == pRed
    ensures m[sib.id].red == sib.red && m[sib.id].parent == p
    ensures up.Parent() != Null ==> up.Parent() in m && up.Parent() != p && up.Parent() != sib.id
    ensures KidLinks(m, p, up.Parent(), sib, Left) && KidLinks(m, p, up.Parent(), sib, Right)
  {
    var o := s.Other();
    AtUp(m, root, up, s, p, pRed, sib, t);
    AtTop(m, root, up, s, t, p, pRed, sib);
    MkSwap(s, t, p, pRed, sib);
    AtUp(m, root, up, o, p, pRed, t, sib);
    AtTop(m, root, In(up, o, p, pRed, t), Left, sib.l, sib.id, sib.red, sib.r);
    KidsBelow(m, root, up, o, p, pRed, t, sib);
  }

  ghost predicate KidLinks(m: Nodes, p: Ptr, g: Ptr, sib: Tree, s: Side)
    requires sib.Fork?
  {
    var k := sib.Kid(s);
    && sib.id in m && m[sib.id].Kid(s) == k.Top()
    && (k.Fork? ==>
          && k.id in m && k.id != Null && m[k.id].red == k.red && m[k.id].parent == sib.id
          && k.id != p && k.id != g && k.id != sib.id && k.id != sib.Kid(s.Other()).Top())
  }

  lemma {:induction false} KidsBelow(m: Nodes, root: Ptr, up: Ctx, o: Side, p: Ptr, pRed: bool, t: Tree, sib: Tree)
    requires At(m, root, In(up, o, p, pRed, t), sib) && sib.Fork?
    ensures sib.l.Fork? ==> sib.l.id != p && sib.l.id != up.Parent() && sib.l.id != sib.id
    ensures sib.r.Fork? ==> sib.r.id != p && sib.r.id != up.Parent() && sib.r.id != sib.id
  {
    var c := In(up, o, p, pRed, t);
    assert CtxIds(c) == {p} + Ids(t) + CtxIds(up);
    ParentIn(up);
    TopIn(sib.l);
    TopIn(sib.r);
    assert Wf(sib.l) && Wf(sib.r) && Ids(sib.l) <= Ids(sib) && Ids(sib.r) <= Ids(sib);
  }

  /** One rotation that brings the sibling up, in any colours. */
  lemma {:induction false} SiblingUp(m: Nodes, root: Ptr, up: Ctx, s: Side, p: Ptr, pRed: bool, sib: Tree, t: Tree, pRed': bool, sRed': bool)
    requires At(m, root, In(up, s, p, pRed, sib), t) && sib.Fork?
    ensures var o := s.Other(); var far, near := sib.Kid(o), sib.Kid(s);
            && Linked(m, root, up, o, p, sib.id, far, near, t)
            && var m' := Rotate(m, o, p, sib.id, near.Top(), pRed', sRed');
               && At(m', ChangeRoot(root, sib.id, up.Parent()), up, Mk(o, far, sib.id, sRed', Mk(o, near, p, pRed', t)))
               && SameKeys(m, m')
    ensures InOrder(Mk(s.Other(), sib.Kid(s.Other()), sib.id, sRed', Mk(s.Other(), sib.Kid(s), p, pRed', t))) ==
            InOrder(Mk(s, t, p, pRed, sib))
  {
    var o := s.Other();
    var far, near := sib.Kid(o), sib.Kid(s);
    assert sib == Mk(o, far, sib.id, sib.red, near);
    MkSwap(s, t, p, pRed, sib);
    hide At, Rotate, Linked, Mk, InOrder;
    AtUp(m, root, up, s, p, pRed, sib, t);
    RotateAt(m, root, up, o, p, pRed, sib.id, sib.red, far, near, t, pRed', sRed');
    RotateOrder(o, far, sib.id, sib.red, near, p, pRed, t, sRed', pRed');
  }

  /** A red sibling: after the rotation the subtree is still short, below a red parent. */
  lemma {:induction false} RedSibling(m: Nodes, root: Ptr, up: Ctx, s: Side, p: Ptr, sib: Tree, far: Tree, near: Tree, t: Tree, c': Ctx)
    requires At(m, root, In(up, s, p, false, sib), t) && sib.Fork? && far == sib.Kid(s.Other()) && near == sib.Kid(s)
    requires c' == In(In(up, s, sib.id, false, far), s, p, true, near)
    ensures Linked(m, root, up, s.Other(), p, sib.id, far, near, t)
    ensures var m' := Rotate(m, s.Other(), p, sib.id, near.Top(), true, false);
            At(m', ChangeRoot(root, sib.id, up.Parent()), c', t) && SameKeys(m, m')
    ensures InOrder(Plug(c', t)) == InOrder(Plug(In(up, s, p, false, sib), t))
  {
    var o := s.Other();
    SiblingUp(m, root, up, s, p, false, sib, t, true, false);
    var m', root' := Rotate(m, o, p, sib.id, near.Top(), true, false), ChangeRoot(root, sib.id, up.Parent());
    var q := Mk(o, near, p, true, t);
    MkSwap(s, t, p, true, near);
    MkSwap(s, q, sib.id, false, far);
    PlugSameOrder(up, Mk(s, q, sib.id, false, far), Mk(s, t, p, false, sib));
    assert Plug(c', t) == Plug(up, Mk(s, q, sib.id, false, far));
    hide At, Rotate, InOrder;
    AtUp(m', root', up, s, sib.id, false, far, q);
    AtUp(m', root', In(up, s, sib.id, false, far), s, p, true, near, t);
  }

  lemma {:induction false} RedRules(up: Ctx, s: Side, p: Ptr, pRed: bool, sib: Tree, t: Tree, n: nat, total: nat)
    requires Short(In(up, s, p, pRed, sib), t, n, total) && sib.Fork? && sib.red
    ensures !pRed && sib.Kid(s).Fork? && sib.Kid(s).Black()
    ensures Short(In(In(up, s, sib.id, false, sib.Kid(s.Other())), s, p, true, sib.Kid(s)), t, n, total)
  {
    SiblingThere(up, s, p, false, sib, t, n, total);
    MkRules(s, sib.Kid(s), sib.id, true, sib.Kid(s.Other()), n + 1);
  }

  /** A black sibling with black children turns red. */
  lemma {:induction false} RecolourSibling(m: Nodes, root: Ptr, up: Ctx, s: Side, p: Ptr, pRed: bool, sib: Tree, t: Tree)
    requires At(m, root, In(up, s, p, pRed, sib), t) && sib.Fork?
    ensures sib.id in m && At(m[sib.id := m[sib.id].(red := true)], root, up, Mk(s, t, p, pRed, sib.(red := true)))
    ensures InOrder(Mk(s, t, p, pRed, sib.(red := true))) == InOrder(Mk(s, t, p, pRed, sib))
  {
    var o := s.Other();
    var sib' := sib.(red := true);
    MkSwap(s, t, p, pRed, sib);
    MkSwap(s, t, p, pRed, sib');
    MkIds(s, t, p, pRed, sib);
    MkIds(s, t, p, pRed, sib');
    AtUp(m, root, up, s, p, pRed, sib, t);
    AtUp(m, root, up, o, p, pRed, t, sib);
    ColourAt(m, root, In(up, o, p, pRed, t), Left, sib.l, sib.id, sib.red, sib.r, true);
    AtUp(m[sib.id := m[sib.id].(red := true)], root, up, o, p, pRed, t, sib');
  }

  lemma {:induction false} RecolourRules2(up: Ctx, s: Side, p: Ptr, pRed: bool, sib: Tree, t: Tree, n: nat, total: nat)
    requires Short(In(up, s, p, pRed, sib), t, n, total) && sib.Fork? && !sib.red && sib.l.Black() && sib.r.Black()
    ensures var q := Mk(s, t, p, false, sib.(red := true)); Bal(q, n + 1) && NoRedRed(q)
    ensures pRed ==> CtxBal(up, n + 1, total) && CtxRules(up)
    ensures !pRed ==> CtxBal(up, n + 2, total) && CtxRules(up)
  {}

  /** A black sibling whose far child is red: one rotation makes up for the missing black. */
  lemma {:induction false} FarRules(up: Ctx, s: Side, p: Ptr, pRed: bool, sib: Tree, t: Tree, n: nat, total: nat)
    requires Short(In(up, s, p, pRed, sib), t, n, total) && sib.Fork? && !sib.red
    requires sib.Kid(s.Other()).Fork? && sib.Kid(s.Other()).red
    ensures var o := s.Other(); var far, near := sib.Kid(o), sib.Kid(s);
            var k := if pRed then n + 1 else n + 2; var q := Mk(o, far.(red := false), sib.id, pRed, Mk(o, near, p, false, t));
            Bal(q, k) && NoRedRed(q) && CtxBal(up, k, total) && CtxRules(up) && (up.Red() || up.Root? ==> q.Black())
  {
    var o := s.Other();
    var far, near := sib.Kid(o), sib.Kid(s);
    SiblingThere(up, s, p, pRed, sib, t, n, total);
    MkRules(Left, far.l, far.id, true, far.r, n);
    MkRules(Left, far.l, far.id, false, far.r, n + 1);
    MkRules(o, near, p, false, t, n + 1);
    MkRules(o, far.(red := false), sib.id, pRed, Mk(o, near, p, false, t), if pRed then n + 1 else n + 2);
  }

  /** ... whose near child is red: two rotations. */
  lemma {:induction false} NearRules(up: Ctx, s: Side, p: Ptr, pRed: bool, sib: Tree, t: Tree, n: nat, total: nat)
    requires Short(In(up, s, p, pRed, sib), t, n, total) && sib.Fork? && !sib.red
    requires sib.Kid(s).Fork? && sib.Kid(s).red && sib.Kid(s.Other()).Black()
    ensures var o := s.Other(); var far, near := sib.Kid(o), sib.Kid(s); var x, y := near.Kid(s), near.Kid(o);
            var k := if pRed then n + 1 else n + 2;
            var q := Mk(o, Mk(s, y, sib.id, false, far), near.id, pRed, Mk(o, x, p, false, t));
            Bal(q, k) && NoRedRed(q) && CtxBal(up, k, total) && CtxRules(up) && (up.Red() || up.Root? ==> q.Black()) && y.Black()
  {
    var o := s.Other();
    var far, near := sib.Kid(o), sib.Kid(s);
    var x, y := near.Kid(s), near.Kid(o);
    SiblingThere(up, s, p, pRed, sib, t, n, total);
    MkRules(s, x, near.id, true, y, n);
    MkRules(s, y, sib.id, false, far, n + 1);
    MkRules(o, x, p, false, t, n + 1);
    MkRules(o, Mk(s, y, sib.id, false, far), near.id, pRed, Mk(o, x, p, false, t), if pRed then n + 1 else n + 2);
  }

  /** The far child turns black. */
  lemma {:induction false} FarBlack(m: Nodes, root: Ptr, up: Ctx, o: Side, far: Tree, id: Ptr, red: bool, q: Tree)
    requires At(m, root, up, Mk(o, far, id, red, q)) && far.Fork?
    ensures far.id in m && At(m[far.id := m[far.id].(red := false)], root, up, Mk(o, far.(red := false), id, red, q))
    ensures InOrder(Mk(o, far.(red := false), id, red, q)) == InOrder(Mk(o, far, id, red, q))
  {
    var far' := far.(red := false);
    MkIds(o, far, id, red, q);
    MkIds(o, far', id, red, q);
    AtUp(m, root, up, o, id, red, q, far);
    ColourAt(m, root, In(up, o, id, red, q), Left, far.l, far.id, far.red, far.r, false);
    AtUp(m[far.id := m[far.id].(red := false)], root, up, o, id, red, q, far');
  }

  /** The lower of two rotations brings the near child up to the sibling's place. */
  lemma {:induction false} NearUp(m: Nodes, root: Ptr, up: Ctx, s: Side, p: Ptr, pRed: bool, sib: Tree, t: Tree)
    requires At(m, root, In(up, s, p, pRed, sib), t) && sib.Fork? && sib.Kid(s).Fork?
    ensures var o := s.Other(); var far, near := sib.Kid(o), sib.Kid(s); var x, y := near.Kid(s), near.Kid(o);
            var sib' := Mk(s, x, near.id, true, Mk(s, y, sib.id, false, far));
            && Linked(m, root, In(up, o, p, pRed, t), s, sib.id, near.id, x, y, far)
            && var m' := Rotate(m, s, sib.id, near.id, y.Top(), false, true);
               && At(m', root, In(up, s, p, pRed, sib'), t) && SameKeys(m, m')
               && InOrder(sib') == InOrder(sib) && InOrder(Mk(s, t, p, pRed, sib')) == InOrder(Mk(s, t, p, pRed, sib))
  {
    hide At, Rotate, Mk, InOrder;
    var o := s.Other();
    var far, near := sib.Kid(o), sib.Kid(s);
    var x, y := near.Kid(s), near.Kid(o);
    var sib' := Mk(s, x, near.id, true, Mk(s, y, sib.id, false, far));
    NearParts(s, sib);
    NearOrder(s, p, pRed, sib, t);
    MkSwap(s, t, p, pRed, sib);
    MkSwap(s, t, p, pRed, sib');
    AtUp(m, root, up, s, p, pRed, sib, t);
    AtUp(m, root, up, o, p, pRed, t, sib);
    NotNull(m, root, In(up, o, p, pRed, t), sib);
    RotateAt(m, root, In(up, o, p, pRed, t), s, sib.id, sib.red, near.id, near.red, x, y, far, false, true);
    var m' := Rotate(m, s, sib.id, near.id, y.Top(), false, true);
    AtUp(m', root, up, o, p, pRed, t, sib');
    AtUp(m', root, up, s, p, pRed, sib', t);
  }

  lemma {:induction false} NearParts(s: Side, sib: Tree)
    requires sib.Fork? && sib.Kid(s).Fork?
    ensures var o := s.Other(); var far, near := sib.Kid(o), sib.Kid(s);
            near == Mk(s, near.Kid(s), near.id, near.red, near.Kid(o)) && sib == Mk(s, near, sib.id, sib.red, far)
  {}

  lemma {:induction false} NearOrder(s: Side, p: Ptr, pRed: bool, sib: Tree, t: Tree)
    requires sib.Fork? && sib.Kid(s).Fork?
    ensures var o := s.Other(); var far, near := sib.Kid(o), sib.Kid(s);
            var sib' := Mk(s, near.Kid(s), near.id, true, Mk(s, near.Kid(o), sib.id, false, far));
            InOrder(sib') == InOrder(sib) && InOrder(Mk(s, t, p, pRed, sib')) == InOrder(Mk(s, t, p, pRed, sib))
  {
    hide Mk, InOrder;
    var o := s.Other();
    var far, near := sib.Kid(o), sib.Kid(s);
    var x, y := near.Kid(s), near.Kid(o);
    var sib' := Mk(s, x, near.id, true, Mk(s, y, sib.id, false, far));
    NearParts(s, sib);
    MkIds(s, t, p, pRed, sib);
    MkIds(s, t, p, pRed, sib');
    RotateOrder(s, x, near.id, near.red, y, sib.id, sib.red, far, true, false);
  }

  lemma {:induction false} NotNull(m: Nodes, root: Ptr, c: Ctx, t: Tree)
    requires At(m, root, c, t)
    ensures c.In? ==> c.id != Null
  {}

  /** The far child of the sibling turns black before the rotation. */
  lemma {:induction false} FarFirst(m: Nodes, root: Ptr, up: Ctx, s: Side, p: Ptr, pRed: bool, sib: Tree, t: Tree)
    requires At(m, root, In(up, s, p, pRed, sib), t) && sib.Fork? && sib.Kid(s.Other()).Fork?
    ensures var o := s.Other(); var far := sib.Kid(o); var sib' := Mk(o, far.(red := false), sib.id, sib.red, sib.Kid(s));
            && far.id in m && At(m[far.id := m[far.id].(red := false)], root, In(up, s, p, pRed, sib'), t)
            && InOrder(Mk(s, t, p, pRed, sib')) == InOrder(Mk(s, t, p, pRed, sib))
  {
    var o := s.Other();
    var far, near := sib.Kid(o), sib.Kid(s);
    var sib' := Mk(o, far.(red := false), sib.id, sib.red, near);
    assert sib == Mk(o, far, sib.id, sib.red, near);
    MkSwap(s, t, p, pRed, sib);
    MkSwap(s, t, p, pRed, sib');
    MkIds(s, t, p, pRed, sib);
    MkIds(s, t, p, pRed, sib');
    hide At, Mk, InOrder;
    AtUp(m, root, up, s, p, pRed, sib, t);
    AtUp(m, root, up, o, p, pRed, t, sib);
    FarBlack(m, root, In(up, o, p, pRed, t), o, far, sib.id, sib.red, near);
    var m' := m[far.id := m[far.id].(red := false)];
    AtUp(m', root, up, o, p, pRed, t, sib');
    AtUp(m', root, up, s, p, pRed, sib', t);
  }
}
