/** The red-black tree of k_rbtree.c, with parent links, and the ordered insertion of k_cfs.c. */
module RbTree {
  import opened RbModel
  import opened RbRemove
  import opened RbErase
  import opened RbRotate

  class RbTree {
    var nodes: Nodes
    var root: Ptr
    /** The tree that the nodes are, and its black height. */
    ghost var shape: Tree
    ghost var height: nat

    /** The links are right, the colour rules hold, and the keys are in order. */
    ghost predicate Valid()
      reads this
    {
      Rep(nodes, root, Null, shape) && Wf(shape) && RedBlack(shape, height) && SortedBy(nodes, InOrder(shape))
    }

    // ------------------------------------------------- the inline helpers of k_rbtree.h

    /** `rbtree_set_parent_color` */
    method SetParentColor(p: Ptr, parent: Ptr, red: bool)
      requires p in nodes
      modifies this`nodes
      ensures nodes == old(nodes)[p := old(nodes[p]).(parent := parent, red := red)]
    {
      nodes := nodes[p := nodes[p].(parent := parent, red := red)];
    }

    method SetKid(p: Ptr, s: Side, kid: Ptr)
      requires p in nodes
      modifies this`nodes
      ensures nodes == old(nodes)[p := old(nodes[p]).WithKid(s, kid)]
    {
      nodes := nodes[p := nodes[p].WithKid(s, kid)];
    }

    /** `rbtree_rotate_set_parents` */
    method RotateSetParents(was: Ptr, p: Ptr, red: bool)
      requires was in nodes && p in nodes && was != p && (nodes[was].parent != Null ==> nodes[was].parent in nodes)
      modifies this`nodes, this`root
      ensures root == ChangeRoot(old(root), p, old(nodes[was].parent))
      ensures nodes.Keys == old(nodes.Keys)
      ensures nodes == ChangeChild(
                old(nodes)[p := old(nodes[p]).(parent := old(nodes[was].parent), red := old(nodes[was].red))]
                          [was := old(nodes[was]).(parent := p, red := red)], was, p, old(nodes[was].parent))
    {
      var parent := nodes[was].parent;
      SetParentColor(p, parent, nodes[was].red);
      SetParentColor(was, p, red);
      nodes := ChangeChild(nodes, was, p, parent);
      root := ChangeRoot(root, p, parent);
    }

    /** Where `rbtree_insert` is in the tree: a red node `t` at `c`, the only possible offence. */
    ghost predicate Inserting(c: Ctx, t: Tree, n: nat, total: nat)
      reads this
    {
      && At(nodes, root, c, t) && t.Fork? && t.red && NoRedRed(t) && Bal(t, n)
      && CtxBal(c, n, total) && CtxRules(c)
    }

    /** The red-uncle case of `rbtree_insert`. */
    method Recolour(parent: Ptr, gparent: Ptr, uncle: Ptr,
                    ghost up: Ctx, ghost s: Side, ghost u: Tree, ghost sp: Side, ghost sib: Tree, ghost t: Tree,
                    ghost n: nat, ghost total: nat) returns (ghost t': Tree)
      requires Inserting(In(In(up, s, gparent, false, u), sp, parent, true, sib), t, n, total)
      requires u.Fork? && u.red && uncle == u.id
      modifies this`nodes, this`root
      ensures Inserting(up, t', n + 1, total) && t'.id == gparent && SameKeys(old(nodes), nodes)
      ensures InOrder(Plug(up, t')) == InOrder(Plug(In(In(up, s, gparent, false, u), sp, parent, true, sib), t))
    {
      hide At, Bal, CtxBal, NoRedRed, CtxRules, Plug, InOrder;
      RecolourRules(up, s, gparent, u, sp, parent, sib, t, n, total);
      RecolourAt(nodes, root, up, s, gparent, u, sp, parent, sib, t);
      RecolourOrder(s, gparent, u, sp, parent, sib, t);
      GrandLinks(nodes, root, up, s, gparent, u, sp, parent, sib, t);
      t' := Mk(s, Mk(sp, t, parent, false, sib), gparent, true, u.(red := false));
      PlugSameOrder(up, t', Mk(s, Mk(sp, t, parent, true, sib), gparent, false, u));
      InsertPlug(up, s, gparent, u, sp, parent, sib, t);
      ghost var m0 := nodes;
      hide Mk;
      SetParentColor(uncle, gparent, false);
      SetParentColor(parent, gparent, false);
      SetParentColor(gparent, nodes[gparent].parent, true);
      assert nodes == m0[parent := m0[parent].(red := false)][gparent := m0[gparent].(red := true)][uncle := m0[uncle].(red := false)];
    }

    /** The black-uncle cases of `rbtree_insert`: one rotation, or two, of the links. */
    method Straighten(node0: Ptr, parent0: Ptr, gparent: Ptr, s: Side)
      requires Links3(nodes, node0, parent0, gparent, s)
      modifies this`nodes, this`root
      ensures CanRotate(old(nodes), s, gparent, parent0)
      ensures node0 == old(nodes)[parent0].Kid(s) ==>
                && root == ChangeRoot(old(root), parent0, old(nodes[gparent].parent))
                && nodes == Rotate(old(nodes), s, gparent, parent0, old(nodes)[parent0].Kid(s.Other()), true, false)
      ensures node0 != old(nodes)[parent0].Kid(s) ==>
                && CanRotate(old(nodes), s.Other(), parent0, node0)
                && var m1 := Rotate(old(nodes), s.Other(), parent0, node0, old(nodes)[node0].Kid(s), true, true);
                && CanRotate(m1, s, gparent, node0)
                && root == ChangeRoot(old(root), node0, old(nodes[gparent].parent))
                && nodes == Rotate(m1, s, gparent, node0, m1[node0].Kid(s.Other()), true, false)
    {
      var node, parent := node0, parent0;
      var tmp := nodes[parent].Kid(s.Other());
      if node == tmp {
        ghost var a := nodes[node].Kid(s);
        LowerLinks(nodes, node, parent, gparent, s, a);
        LoweredTurn(nodes, node, parent, gparent, s, a);
        ghost var m1 := Rotate(nodes, s.Other(), parent, node, a, true, true);
        tmp := TurnLower(node, parent, s);
        TurnsAlike(m1, nodes, s, gparent, node, tmp, true, false);
        parent := node;
      }
      TurnUpper(parent, gparent, s, tmp);
    }

    /** The first rotation, of a node on the inner side; the link from above is left for the second. */
    method TurnLower(node: Ptr, parent: Ptr, s: Side) returns (tmp: Ptr)
      requires node in nodes && parent in nodes && node != parent
      requires nodes[node].Kid(s) != Null ==> nodes[node].Kid(s) in nodes && nodes[node].Kid(s) !in {node, parent}
      modifies this`nodes
      ensures nodes == Lowered(old(nodes), node, parent, s, old(nodes)[node].Kid(s))
      ensures tmp == old(nodes)[node].Kid(s.Other())
    {
      hide Node.WithKid, Node.Kid, Side.Other;
      ghost var m0, a := nodes, nodes[node].Kid(s);
      tmp := nodes[node].Kid(s);
      SetKid(parent, s.Other(), tmp);
      SetKid(node, s, parent);
      if tmp != Null {
        SetParentColor(tmp, parent, false);
      }
      SetParentColor(parent, node, true);
      tmp := nodes[node].Kid(s.Other());
      SetLast(m0, parent, m0[parent].WithKid(s.Other(), a), m0[parent].WithKid(s.Other(), a).(parent := node, red := true),
              node, m0[node].WithKid(s, parent), a, if a == Null then m0[parent] else m0[a].(parent := parent, red := false));
    }

    /** The rotation at the grandparent. */
    method TurnUpper(parent: Ptr, gparent: Ptr, s: Side, tmp: Ptr)
      requires TurnOk(nodes, gparent, parent, tmp)
      modifies this`nodes, this`root
      ensures nodes == Rotate(old(nodes), s, gparent, parent, tmp, true, false)
      ensures root == ChangeRoot(old(root), parent, old(nodes[gparent].parent))
    {
      hide Node.WithKid, Node.Kid, Side.Other, ChangeChild, ChangeRoot;
      ghost var m0, up := nodes, nodes[gparent].parent;
      SetKid(gparent, s, tmp);
      SetKid(parent, s.Other(), gparent);
      if tmp != Null {
        SetParentColor(tmp, gparent, false);
      }
      ghost var m1 := nodes;
      assert m1[gparent] == m0[gparent].WithKid(s, tmp) && m1[parent] == m0[parent].WithKid(s.Other(), gparent);
      assert (tmp != Null ==> m1[tmp] == m0[tmp].(parent := gparent)) && m1.Keys == m0.Keys;
      assert forall x :: x in m0 && x != gparent && x != parent && (x != tmp || tmp == Null) ==> m1[x] == m0[x];
      BeforeLink(m0, m1, s, gparent, parent, tmp, up, true, false);
      hide RotateInner;
      ghost var m2 := m1[parent := m1[parent].(parent := up, red := false)][gparent := m1[gparent].(parent := parent, red := true)];
      assert m2 == RotateInner(m0, s, gparent, parent, tmp, true, false);
      RotateSetParents(gparent, parent, true);
    }

    /** ... and what that makes of the tree. */
    method StraightenTree(node: Ptr, parent: Ptr, gparent: Ptr, s: Side,
                          ghost up: Ctx, ghost u: Tree, ghost sp: Side, ghost sib: Tree, ghost t: Tree,
                          ghost n: nat, ghost total: nat) returns (ghost tree: Tree)
      requires Inserting(In(In(up, s, gparent, false, u), sp, parent, true, sib), t, n, total)
      requires u.Black() && node == t.id
      modifies this`nodes, this`root
      ensures Rep(nodes, root, Null, tree) && Wf(tree) && RedBlack(tree, total) && SameKeys(old(nodes), nodes)
      ensures InOrder(tree) == InOrder(Plug(In(In(up, s, gparent, false, u), sp, parent, true, sib), t))
    {
      hide At, Bal, CtxBal, NoRedRed, Plug, Rotate, RedBlack;
      ghost var m0, root0 := nodes, root;
      IsLinks3(nodes, root, up, s, gparent, u, sp, parent, sib, t);
      InsertPlug(up, s, gparent, u, sp, parent, sib, t);
      Straighten(node, parent, gparent, s);
      ghost var t' := Straightened(m0, root0, up, s, gparent, u, sp, parent, sib, t, n, total, nodes, root);
      tree := Plug(up, t');
      PlugSameOrder(up, t', Mk(s, Mk(sp, t, parent, true, sib), gparent, false, u));
      Finish(nodes, root, up, t', n + 1, total);
    }

    /** `rbtree_insert`: from a red node whose parent may be red, restores the colour rules, and keeps
        the order. */
    method InsertFix(node0: Ptr, ghost c0: Ctx, ghost t0: Tree, ghost n0: nat, ghost total0: nat)
        returns (ghost tree: Tree, ghost total: nat)
      requires Inserting(c0, t0, n0, total0) && node0 == t0.id
      modifies this`nodes, this`root
      ensures Rep(nodes, root, Null, tree) && Wf(tree) && RedBlack(tree, total)
      ensures InOrder(tree) == InOrder(Plug(c0, t0)) && SameKeys(old(nodes), nodes)
    {
      hide At, Bal, CtxBal, NoRedRed, Plug, Rotate, RedBlack;
      var node := node0;
      ghost var c, t, n := c0, t0, n0;
      total := total0;
      AtNode(nodes, root, c, t);
      var parent := nodes[node].parent;
      while true
        invariant Inserting(c, t, n, total) && node == t.id && parent == c.Parent()
        invariant InOrder(Plug(c, t)) == InOrder(Plug(c0, t0)) && SameKeys(old(nodes), nodes)
        decreases c
      {
        AtNode(nodes, root, c, t);
        if parent == Null {
          TopBlack(nodes, root, t, n, total);
          SetParentColor(node, Null, false);
          tree := t.(red := false);
          total := n + 1;
          return;
        } else if !nodes[parent].red {
          tree := Plug(c, t);
          Finish(nodes, root, c, t, n, total);
          return;
        }
        ghost var up, s0, u, sp, sib := c.up.up, c.up.s, c.up.o, c.s, c.o;
        GrandLinks(nodes, root, up, s0, c.up.id, u, sp, parent, sib, t);
        var gparent := nodes[parent].parent;
        var s := if nodes[gparent].right != parent then Left else Right;
        var uncle := nodes[gparent].Kid(s.Other());
        assert s == s0 && uncle == u.Top();
        if uncle != Null && nodes[uncle].red {
          t := Recolour(parent, gparent, uncle, up, s, u, sp, sib, t, n, total);
          c, n := up, n + 1;
          node := gparent;
          AtNode(nodes, root, c, t);
          parent := nodes[node].parent;
        } else {
          tree := StraightenTree(node, parent, gparent, s, up, u, sp, sib, t, n, total);
          return;
        }
      }
    }

    // -------------------------------------------------------------- the walkers

    /** Down from `p` to the end of its subtree `t`: the loops of `k_rbtree_first` and `k_rbtree_last`. */
    method Outermost(p: Ptr, s: Side, ghost par: Ptr, ghost t: Tree) returns (r: Ptr)
      requires Rep(nodes, p, par, t) && t.Fork?
      ensures r == End(InOrder(t), s)
    {
      r := p;
      ghost var par', t' := par, t;
      while nodes[r].Kid(s) != Null
        invariant Rep(nodes, r, par', t') && t'.Fork? && End(InOrder(t'), s) == End(InOrder(t), s)
        decreases t'
      {
        RepTop(nodes, nodes[r].Kid(s), r, t'.Kid(s));
        par', t' := r, t'.Kid(s);
        r := nodes[r].Kid(s);
      }
      RepTop(nodes, nodes[r].Kid(s), r, t'.Kid(s));
    }

    /** `k_rbtree_next` (`s` is `Right`) and `k_rbtree_prev`: the neighbour of a node in the order. */
    method Neighbour(node: Ptr, s: Side, ghost c: Ctx, ghost t: Tree) returns (r: Ptr)
      requires At(nodes, root, c, t) && t.Fork? && t.id == node
      ensures t.Kid(s).Fork? ==> r == End(InOrder(t.Kid(s)), s.Other())
      ensures t.Kid(s).Leaf? ==> r == if Beyond(c, s) == [] then Null else End(Beyond(c, s), s.Other())
    {
      AtTop(nodes, root, c, s, t.Kid(s), t.id, t.red, t.Kid(s.Other()));
      if nodes[node].Kid(s) != Null {
        r := Outermost(nodes[node].Kid(s), s.Other(), node, t.Kid(s));
        return;
      }
      var n := node;
      ghost var c', t' := c, t;
      r := nodes[n].parent;
      while r != Null && n == nodes[r].Kid(s)
        invariant At(nodes, root, c', t') && t'.Fork? && t'.id == n && r == c'.Parent() && Beyond(c', s) == Beyond(c, s)
        decreases c'
      {
        AtNode(nodes, root, c', t');
        Climb(nodes, root, c', t', s);
        t', c' := Mk(c'.s, t', c'.id, c'.red, c'.o), c'.up;
        n := r;
        r := nodes[n].parent;
      }
      AtNode(nodes, root, c', t');
      if c'.In? { Climb(nodes, root, c', t', s); }
    }

    /** The descent of `node_insert` to the link that gets a node of this key. */
    method Search(key: int) returns (parent: Ptr, s: Side, ghost c: Ctx)
      requires Valid()
      ensures At(nodes, root, c, Leaf) && Plug(c, Leaf) == shape && parent == c.Parent() && (c.In? ==> s == c.s)
      ensures AllBelow(nodes, Before(c), key) && AllFrom(nodes, After(c), key)
    {
      hide Bal, NoRedRed, RedBlack;
      var cur := root;
      parent, s, c := Null, Left, Root;
      ghost var t := shape;
      PlugRep(nodes, root, Root, root, shape);
      hide At, AllBelow, AllFrom, SortedBy, Plug;
      while cur != Null
        invariant At(nodes, root, c, t) && t.Top() == cur && Plug(c, t) == shape
        invariant parent == c.Parent() && (c.In? ==> s == c.s)
        invariant AllBelow(nodes, Before(c), key) && AllFrom(nodes, After(c), key)
        decreases t
      {
        AtTop(nodes, root, c, Left, t.l, t.id, t.red, t.r);
        PlugInOrder(c, t);
        parent := cur;
        s := if key <= nodes[cur].key then Left else Right;
        Descend(nodes, root, c, t, s, key, InOrder(shape));
        c, t := In(c, s, t.id, t.red, t.Kid(s.Other())), t.Kid(s);
        cur := nodes[cur].Kid(s);
      }
      TopNull(nodes, root, c, t);
    }

    /** `k_rbtree_link_node`: the red node hangs from the link. */
    method Link(node: Ptr, key: int, parent: Ptr, s: Side, ghost c: Ctx)
      requires At(nodes, root, c, Leaf) && parent == c.Parent() && (c.In? ==> s == c.s) && node != Null && node !in CtxIds(c)
      modifies this`nodes, this`root
      ensures At(nodes, root, c, Fork(Leaf, node, true, Leaf)) && node in nodes && nodes[node].key == key
      ensures forall x :: x in old(nodes) && x != node ==> x in nodes && nodes[x].key == old(nodes)[x].key
    {
      LinkAt(nodes, root, c, node, key);
      hide At;
      nodes := nodes[node := Node(key, parent, true, Null, Null)];
      if parent == Null {
        root := node;
      } else {
        SetKid(parent, s, node);
      }
    }

    /** `node_insert`, with `k_rbtree_link_node`: the node takes its place in the order of keys. */
    method Insert(node: Ptr, key: int)
      requires Valid() && node != Null && node !in Ids(shape)
      modifies this
      ensures Valid()
      ensures SortedBy(old(nodes), old(InOrder(shape))) &&
              InOrder(shape) == Placed(old(nodes), old(InOrder(shape)), key, node)
      ensures node in nodes && nodes[node].key == key
      ensures forall x :: x in old(nodes) && x != node ==> x in nodes && nodes[x].key == old(nodes)[x].key
    {
      hide Bal, CtxBal, NoRedRed, CtxRules, RedBlack, Placed, At, AllBelow, AllFrom, SortedBy, Rep, Wf, InOrder, Ids, Plug;
      ghost var m0, order := nodes, InOrder(shape);
      var parent, s;
      ghost var c;
      parent, s, c := Search(key);
      ghost var a, b, leaf := Before(c), After(c), Fork(Leaf, node, true, Leaf);
      PlaceFor(nodes, shape, height, c, node, key);
      hide Before, After, CtxIds;
      Link(node, key, parent, s, c);
      ghost var m1 := nodes;
      SortedLinked(m0, m1, a, b, node, key);
      shape, height := InsertFix(node, c, leaf, 0, height);
      SortedSame(m1, nodes, InOrder(shape));
    }

    /** `k_rbtree_first`: the node of least key, or NULL. */
    method First() returns (r: Ptr)
      requires Valid()
      ensures r == if InOrder(shape) == [] then Null else InOrder(shape)[0]
      ensures r != Null ==> r in nodes && forall x :: x in Ids(shape) ==> x in nodes && nodes[r].key <= nodes[x].key
      ensures r == Null <==> Ids(shape) == {}
    {
      hide Rep;
      RepTop(nodes, root, Null, shape);
      forall x: Ptr ensures x in InOrder(shape) <==> x in Ids(shape) { InOrderIds(shape, x); }
      if root == Null { return Null; }
      TopIn(shape);
      assert shape.id in Ids(shape) && shape.id in InOrder(shape);
      r := Outermost(root, Left, Null, shape);
      InOrderIds(shape, Null);
      TreeNotNull(shape);
    }

    /** `k_rbtree_last` */
    method Last() returns (r: Ptr)
      requires Valid()
      ensures r == if InOrder(shape) == [] then Null else End(InOrder(shape), Right)
    {
      RepTop(nodes, root, Null, shape);
      if root == Null { return Null; }
      r := Outermost(root, Right, Null, shape);
    }

    /** `cfs_node_min_get`: the least key, or 0. */
    method MinKey() returns (key: int)
      requires Valid()
      ensures Ids(shape) == {} ==> key == 0
      ensures Ids(shape) != {} ==> exists x :: x in Ids(shape) && x in nodes && nodes[x].key == key
      ensures forall x :: x in Ids(shape) ==> x in nodes && key <= nodes[x].key
    {
      var first := First();
      if first == Null { return 0; }
      InOrderIds(shape, first);
      key := nodes[first].key;
    }

    /** `k_rbtree_next`, by the place of the node in the order. */
    method Next(node: Ptr, ghost i: nat) returns (r: Ptr)
      requires Valid() && i < |InOrder(shape)| && InOrder(shape)[i] == node
      ensures r == if i + 1 < |InOrder(shape)| then InOrder(shape)[i + 1] else Null
    {
      ghost var c, t := FindPlace(nodes, root, shape, i);
      r := Neighbour(node, Right, c, t);
    }

    /** `k_rbtree_prev` */
    method Prev(node: Ptr, ghost i: nat) returns (r: Ptr)
      requires Valid() && i < |InOrder(shape)| && InOrder(shape)[i] == node
      ensures r == if i > 0 then InOrder(shape)[i - 1] else Null
    {
      ghost var c, t := FindPlace(nodes, root, shape, i);
      r := Neighbour(node, Left, c, t);
    }

    /** `RBT_ROOT`, for nodes that are not linked yet. */
    constructor (nodes: Nodes)
      ensures Valid() && this.nodes == nodes && shape == Leaf
    {
      this.nodes, root, shape, height := nodes, Null, Leaf, 0;
    }

    // ---------------------------------------------------------------------- erasing

    /** The last rotation of `rbtree_erase_color`: the far child `tmp1` turns black, the sibling takes
        the place and colour of `parent`, and `parent` turns black. */
    method EraseTurn(parent: Ptr, sibling: Ptr, s: Side, tmp1: Ptr)
      requires sibling in nodes && TurnFits(nodes, parent, sibling, nodes[sibling].Kid(s)) && tmp1 in nodes
      requires tmp1 !in {parent, sibling, nodes[sibling].Kid(s), nodes[parent].parent}
      modifies this`nodes, this`root
      ensures var m := old(nodes)[tmp1 := old(nodes[tmp1]).(parent := sibling, red := false)];
              nodes == Rotate(m, s.Other(), parent, sibling, old(nodes)[sibling].Kid(s), false, old(nodes)[parent].red)
      ensures root == ChangeRoot(old(root), sibling, old(nodes[parent].parent))
    {
      assert s.Other().Other() == s;
      ghost var m0, up, red := nodes, nodes[parent].parent, nodes[parent].red;
      var tmp2 := nodes[sibling].Kid(s);
      hide Node.WithKid, Node.Kid, Side.Other, ChangeChild, ChangeRoot;
      SetKid(parent, s.Other(), tmp2);
      SetKid(sibling, s, parent);
      SetParentColor(tmp1, sibling, false);
      if tmp2 != Null {
        SetParentColor(tmp2, parent, nodes[tmp2].red);
      }
      ghost var m1, m := nodes, m0[tmp1 := m0[tmp1].(parent := sibling, red := false)];
      assert m1[parent] == m0[parent].WithKid(s.Other(), tmp2) && m1[sibling] == m0[sibling].WithKid(s, parent);
      assert m1[tmp1] == m[tmp1] && (tmp2 != Null ==> m1[tmp2] == m[tmp2].(parent := parent));
      assert m1.Keys == m.Keys && forall x :: x in m && x != parent && x != sibling && (x != tmp2 || tmp2 == Null) ==> m1[x] == m[x];
      BeforeLink(m, m1, s.Other(), parent, sibling, tmp2, up, false, red);
      hide RotateInner;
      ghost var m2 := m1[sibling := m1[sibling].(parent := up, red := red)][parent := m1[parent].(parent := sibling, red := false)];
      assert m2 == RotateInner(m, s.Other(), parent, sibling, tmp2, false, red);
      RotateSetParents(parent, sibling, false);
    }

    /** The first rotation when only the near child is red: it comes up between parent and sibling. */
    method EraseLower(parent: Ptr, sibling: Ptr, near: Ptr, s: Side)
      requires parent in nodes && sibling in nodes && near in nodes && parent != sibling && near != parent && near != sibling
      requires nodes[near].Kid(s.Other()) != Null ==> nodes[near].Kid(s.Other()) in nodes && nodes[near].Kid(s.Other()) !in {parent, sibling, near}
      modifies this`nodes
      ensures nodes == NearMoved(old(nodes), parent, sibling, near, s, old(nodes)[near].Kid(s.Other()))
    {
      var tmp1 := nodes[near].Kid(s.Other());
      SetKid(sibling, s, tmp1);
      SetKid(near, s.Other(), sibling);
      SetKid(parent, s.Other(), near);
      if tmp1 != Null {
        SetParentColor(tmp1, sibling, false);
      }
    }

    /** The far child of the black sibling is red. */
    method EraseFar(parent: Ptr, sibling: Ptr, s: Side, far: Ptr,
                    ghost up: Ctx, ghost pRed: bool, ghost sib: Tree, ghost t: Tree, ghost n: nat, ghost total: nat)
        returns (ghost tree: Tree)
      requires At(nodes, root, In(up, s, parent, pRed, sib), t) && Short(In(up, s, parent, pRed, sib), t, n, total)
      requires sib.Fork? && !sib.red && sibling == sib.id
      requires sib.Kid(s.Other()).Fork? && sib.Kid(s.Other()).red && far == sib.Kid(s.Other()).id
      modifies this`nodes, this`root
      ensures Rep(nodes, root, Null, tree) && Wf(tree) && RedBlack(tree, total) && SameKeys(old(nodes), nodes)
      ensures InOrder(tree) == InOrder(Plug(In(up, s, parent, pRed, sib), t))
    {
      hide At, Short, Plug, Rotate, RedBlack, Bal, CtxBal, NoRedRed, CtxRules, InOrder;
      ghost var m0, o := nodes, s.Other();
      ghost var sib' := Mk(o, sib.Kid(o).(red := false), sib.id, sib.red, sib.Kid(s));
      EraseLinks(nodes, root, up, s, parent, pRed, sib, t);
      FarFirst(nodes, root, up, s, parent, pRed, sib, t);
      FarRules(up, s, parent, pRed, sib, t, n, total);
      ghost var m := m0[far := m0[far].(red := false)];
      SiblingUp(m, root, up, s, parent, pRed, sib', t, false, pRed);
      ghost var q := Mk(o, sib'.Kid(o), sib.id, pRed, Mk(o, sib'.Kid(s), parent, false, t));
      assert m == m0[far := m0[far].(parent := sibling, red := false)];
      EraseTurn(parent, sibling, s, far);
      tree := Plug(up, q);
      InPlug(up, s, parent, pRed, sib, t);
      PlugSameOrder(up, q, Mk(s, t, parent, pRed, sib));
      Finish(nodes, root, up, q, if pRed then n + 1 else n + 2, total);
    }

    /** Only the near child of the black sibling is red. */
    method EraseNear(parent: Ptr, sibling: Ptr, s: Side, near: Ptr,
                     ghost up: Ctx, ghost pRed: bool, ghost sib: Tree, ghost t: Tree, ghost n: nat, ghost total: nat)
        returns (ghost tree: Tree)
      requires At(nodes, root, In(up, s, parent, pRed, sib), t) && Short(In(up, s, parent, pRed, sib), t, n, total)
      requires sib.Fork? && !sib.red && sibling == sib.id && sib.Kid(s.Other()).Black()
      requires sib.Kid(s).Fork? && sib.Kid(s).red && near == sib.Kid(s).id
      modifies this`nodes, this`root
      ensures Rep(nodes, root, Null, tree) && Wf(tree) && RedBlack(tree, total) && SameKeys(old(nodes), nodes)
      ensures InOrder(tree) == InOrder(Plug(In(up, s, parent, pRed, sib), t))
    {
      hide At, Short, Plug, Rotate, RedBlack, Bal, CtxBal, NoRedRed, CtxRules, InOrder, NearLinks, Rep, RepCtx, Wf, CtxWf, Ids, CtxIds;
      ghost var m0, o := nodes, s.Other();
      ghost var x, y := sib.Kid(s).Kid(s), sib.Kid(s).Kid(o);
      ghost var sib' := Mk(s, x, near, true, Mk(s, y, sib.id, false, sib.Kid(o)));
      NearRules(up, s, parent, pRed, sib, t, n, total);
      IsNearLinks(nodes, root, up, s, parent, pRed, sib, t);
      NearMovedTurn(m0, parent, sibling, near, s, x.Top(), y.Top());
      NearUp(nodes, root, up, s, parent, pRed, sib, t);
      ghost var m1 := Rotate(m0, s, sibling, near, y.Top(), false, true);
      SiblingUp(m1, root, up, s, parent, pRed, sib', t, false, pRed);
      ghost var q := Mk(o, Mk(s, y, sib.id, false, sib.Kid(o)), near, pRed, Mk(o, x, parent, false, t));
      MkSwap(s, x, near, true, Mk(s, y, sib.id, false, sib.Kid(o)));
      EraseLower(parent, sibling, near, s);
      ghost var m2 := nodes[sibling := nodes[sibling].(parent := near, red := false)];
      TurnsAlike(m1, m2, o, parent, near, x.Top(), false, pRed);
      EraseTurn(parent, near, s, sibling);
      tree := Plug(up, q);
      InPlug(up, s, parent, pRed, sib, t);
      PlugSameOrder(up, q, Mk(s, t, parent, pRed, sib));
      Finish(nodes, root, up, q, if pRed then n + 1 else n + 2, total);
      SameKeysTrans(m0, m1, nodes);
    }

    /** The red sibling of `rbtree_erase_color`: it is rotated up, and a black one takes its place. */
    method EraseRed(parent: Ptr, sibling: Ptr, s: Side,
                    ghost up: Ctx, ghost sib: Tree, ghost t: Tree, ghost n: nat, ghost total: nat) returns (tmp1: Ptr, ghost c': Ctx)
      requires At(nodes, root, In(up, s, parent, false, sib), t) && Short(In(up, s, parent, false, sib), t, n, total)
      requires sib.Fork? && sib.red && sibling == sib.id
      modifies this`nodes, this`root
      ensures c' == In(In(up, s, sib.id, false, sib.Kid(s.Other())), s, parent, true, sib.Kid(s)) && tmp1 == sib.Kid(s).Top()
      ensures At(nodes, root, c', t) && Short(c', t, n, total) && sib.Kid(s).Fork? && !sib.Kid(s).red
      ensures SameKeys(old(nodes), nodes) && InOrder(Plug(c', t)) == InOrder(Plug(In(up, s, parent, false, sib), t))
    {
      hide At, Short, Plug, Rotate, InOrder;
      c' := In(In(up, s, sib.id, false, sib.Kid(s.Other())), s, parent, true, sib.Kid(s));
      EraseLinks(nodes, root, up, s, parent, false, sib, t);
      RedRules(up, s, parent, false, sib, t, n, total);
      RedSibling(nodes, root, up, s, parent, sib, sib.Kid(s.Other()), sib.Kid(s), t, c');
      tmp1 := nodes[sibling].Kid(s);
      TurnUpper(sibling, parent, s.Other(), tmp1);
    }

    /** The black sibling with black children of `rbtree_erase_color`: it turns red, and a red parent
        black. If the parent was black, the whole is short now. */
    method EraseBlack(parent: Ptr, sibling: Ptr,
                      ghost s: Side, ghost up: Ctx, ghost pRed: bool, ghost sib: Tree, ghost t: Tree, ghost n: nat, ghost total: nat)
        returns (done: bool, ghost q: Tree)
      requires At(nodes, root, In(up, s, parent, pRed, sib), t) && Short(In(up, s, parent, pRed, sib), t, n, total)
      requires sib.Fork? && !sib.red && sibling == sib.id && sib.l.Black() && sib.r.Black()
      modifies this`nodes
      ensures done == pRed && At(nodes, root, up, q) && q.Top() == parent && SameKeys(old(nodes), nodes)
      ensures Bal(q, n + 1) && NoRedRed(q) && q.Black() && CtxRules(up) && CtxBal(up, if pRed then n + 1 else n + 2, total)
      ensures InOrder(Plug(up, q)) == InOrder(Plug(In(up, s, parent, pRed, sib), t))
    {
      hide At, Short, Plug, InOrder, Bal, NoRedRed, CtxBal, CtxRules;
      ghost var q0, m0 := Mk(s, t, parent, pRed, sib.(red := true)), nodes;
      q := Mk(s, t, parent, false, sib.(red := true));
      EraseLinks(nodes, root, up, s, parent, pRed, sib, t);
      RecolourSibling(nodes, root, up, s, parent, pRed, sib, t);
      RecolourRules2(up, s, parent, pRed, sib, t, n, total);
      SetParentColor(sibling, parent, true);
      assert nodes == m0[sibling := m0[sibling].(red := true)];
      ColourAt(nodes, root, up, s, t, parent, pRed, sib.(red := true), false);
      ghost var m1 := nodes;
      done := nodes[parent].red;
      if done {
        SetParentColor(parent, nodes[parent].parent, false);
      }
      assert nodes == m1[parent := m1[parent].(red := false)];
      MkIds(s, t, parent, pRed, sib.(red := true));
      MkIds(s, t, parent, false, sib.(red := true));
      InPlug(up, s, parent, pRed, sib, t);
      PlugSameOrder(up, q, Mk(s, t, parent, pRed, sib));
    }

    /** The rotations of `rbtree_erase_color`. */
    method EraseTurns(parent: Ptr, sibling: Ptr, s: Side, tmp1: Ptr,
                      ghost up: Ctx, ghost pRed: bool, ghost sib: Tree, ghost t: Tree, ghost n: nat, ghost total: nat)
        returns (ghost tree: Tree)
      requires At(nodes, root, In(up, s, parent, pRed, sib), t) && Short(In(up, s, parent, pRed, sib), t, n, total)
      requires sib.Fork? && !sib.red && sibling == sib.id && tmp1 == sib.Kid(s.Other()).Top() && !(sib.l.Black() && sib.r.Black())
      modifies this`nodes, this`root
      ensures Rep(nodes, root, Null, tree) && Wf(tree) && RedBlack(tree, total) && SameKeys(old(nodes), nodes)
      ensures InOrder(tree) == InOrder(Plug(In(up, s, parent, pRed, sib), t))
    {
      hide At, Short, Plug, RedBlack, InOrder, Rep;
      EraseLinks(nodes, root, up, s, parent, pRed, sib, t);
      if tmp1 == Null || !nodes[tmp1].red {
        tree := EraseNear(parent, sibling, s, nodes[sibling].Kid(s), up, pRed, sib, t, n, total);
      } else {
        tree := EraseFar(parent, sibling, s, tmp1, up, pRed, sib, t, n, total);
      }
    }

    /** `rbtree_erase_color`: from a place that is one black node short, restores the colour rules, and
        keeps the order. */
    method EraseFix(parent0: Ptr, ghost c0: Ctx, ghost n0: nat, ghost total0: nat) returns (ghost tree: Tree, ghost total: nat)
      requires At(nodes, root, c0, Leaf) && Short(c0, Leaf, n0, total0) && parent0 == c0.Parent()
      modifies this`nodes, this`root
      ensures Rep(nodes, root, Null, tree) && Wf(tree) && RedBlack(tree, total)
      ensures InOrder(tree) == InOrder(Plug(c0, Leaf)) && SameKeys(old(nodes), nodes)
    {
      hide At, Plug, RedBlack, InOrder, Rep, Bal, NoRedRed, CtxBal, CtxRules;
      var node, parent := Null, parent0;
      ghost var c, t, n := c0, Leaf, n0;
      total := total0;
      while true
        invariant At(nodes, root, c, t) && Short(c, t, n, total) && node == t.Top() && parent == c.Parent()
        invariant InOrder(Plug(c, t)) == InOrder(Plug(c0, Leaf)) && SameKeys(old(nodes), nodes)
        decreases c
      {
        ghost var up, pRed, sib, s0 := c.up, c.red, c.o, c.s;
        SiblingThere(up, s0, parent, pRed, sib, t, n, total);
        EraseLinks(nodes, root, up, s0, parent, pRed, sib, t);
        var s := if node != nodes[parent].right then Left else Right;
        assert s == s0;
        var sibling := nodes[parent].Kid(s.Other());
        if nodes[sibling].red {
          ghost var c', far := c, sib.Kid(s.Other());
          sibling, c' := EraseRed(parent, sibling, s, up, sib, t, n, total);
          up, pRed, sib := In(up, s, sib.id, false, far), true, sib.Kid(s);
          EraseLinks(nodes, root, up, s, parent, pRed, sib, t);
        }
        var tmp1, tmp2 := nodes[sibling].Kid(s.Other()), nodes[sibling].Kid(s);
        if (tmp1 == Null || !nodes[tmp1].red) && (tmp2 == Null || !nodes[tmp2].red) {
          var done;
          ghost var q;
          done, q := EraseBlack(parent, sibling, s, up, pRed, sib, t, n, total);
          if !done {
            node := parent;
            parent := ParentOf(node, up, q);
          }
          if done || parent == Null {
            tree := Plug(up, q);
            total := if done then total else n + 1;
            FinishBlack(nodes, root, up, q, n + 1, done, total);
            return;
          }
          c, t, n := up, q, n + 1;
        } else {
          tree := EraseTurns(parent, sibling, s, tmp1, up, pRed, sib, t, n, total);
          return;
        }
      }
    }

    /** `rbtree_erase_augmented` of a node without a child on side `s`. Returns where the tree is one
        black node short, or NULL. */
    method UnlinkOne(node: Ptr, s: Side, ghost c: Ctx, ghost red: bool, ghost a: Tree) returns (rebalance: Ptr)
      requires At(nodes, root, c, Mk(s, Leaf, node, red, a)) && (s == Right ==> a.Fork?)
      modifies this`nodes, this`root
      ensures (a.Fork? ==> a.id in old(nodes)) && (c.Parent() != Null ==> c.Parent() in old(nodes))
      ensures nodes == Unlinked(old(nodes), node, a.Top(), c.Parent(), red) && root == ChangeRoot(old(root), a.Top(), c.Parent())
      ensures rebalance == if a.Leaf? && !red then c.Parent() else Null
    {
      AtTop(nodes, root, c, s, Leaf, node, red, a);
      hide At, Mk;
      var child, parent, pcRed := nodes[node].Kid(s.Other()), nodes[node].parent, nodes[node].red;
      if s == Left {
        nodes := ChangeChild(nodes, node, child, parent);
        root := ChangeRoot(root, child, parent);
        if child != Null {
          SetParentColor(child, parent, pcRed);
          rebalance := Null;
        } else {
          rebalance := if !pcRed then parent else Null;
        }
      } else {
        SetParentColor(child, parent, pcRed);
        nodes := ChangeChild(nodes, node, child, parent);
        root := ChangeRoot(root, child, parent);
        rebalance := Null;
      }
    }

    /** The successor of a node with two children: the leftmost of its right subtree `r`. */
    method Successor(child: Ptr, ghost c: Ctx, ghost l: Tree, ghost node: Ptr, ghost red: bool, ghost r: Tree)
        returns (successor: Ptr, parent: Ptr, ghost cr: Ctx, ghost xRed: bool, ghost xr: Tree)
      requires At(nodes, root, c, Fork(l, node, red, r)) && r.Fork? && child == r.id
      ensures r == Plug(cr, Fork(Leaf, successor, xRed, xr)) && AllLeft(cr)
      ensures parent == if cr.Root? then child else cr.id
    {
      hide Plug, At, RepCtx;
      successor, parent, cr := child, child, Root;
      ghost var t := r;
      assert Plug(cr, t) == r by { RootPlug(r); }
      SuccLeft(nodes, root, c, l, node, red, r, cr, t);
      var tmp := nodes[child].left;
      while tmp != Null
        invariant r == Plug(cr, t) && t.Fork? && t.id == successor && AllLeft(cr)
        invariant successor in nodes && tmp == nodes[successor].left && tmp == t.l.Top() && (t.l.Fork? ==> t.l.id != Null)
        invariant parent == if cr.Root? then child else cr.id
        decreases t
      {
        parent := successor;
        successor := tmp;
        LeftPlug(cr, t);
        cr, t := In(cr, Left, t.id, t.red, t.r), t.l;
        SuccLeft(nodes, root, c, l, node, red, r, cr, t);
        tmp := nodes[successor].left;
      }
      xRed, xr := t.red, t.r;
      assert t.l == Leaf;
    }

    /** `rbtree_erase_augmented` of a node with two children: its successor `x` leaves its own place,
        and takes the links and the colour of the node. */
    method UnlinkTwo(node: Ptr, ghost c: Ctx, ghost l: Tree, ghost red: bool, ghost r: Tree, ghost height: nat)
        returns (rebalance: Ptr, ghost cr: Ctx, ghost x: Ptr, ghost xRed: bool, ghost xr: Tree)
      requires At(nodes, root, c, Fork(l, node, red, r)) && l.Fork? && r.Fork? && RedBlack(Plug(c, Fork(l, node, red, r)), height)
      modifies this`nodes, this`root
      ensures r == Plug(cr, Fork(Leaf, x, xRed, xr)) && AllLeft(cr) && SameKeys(old(nodes), nodes)
      ensures var top := Over(cr, In(c, Right, node, red, l));
              At(nodes, root, RenCtx(top, node, x), Coloured(xr, xRed))
      ensures rebalance == if xr.Leaf? && !xRed then (if cr.Root? then x else cr.id) else Null
    {
      hide At, RedBlack, Plug, Over, AllLeft, SuccPointers, SuccDistinct, RenCtx, Coloured, PlaceHead, PlaceTail;
      ghost var m0, root0 := nodes, root;
      NodeLinks(nodes, root, c, l, node, red, r);
      var child := nodes[node].right;
      var successor, parent;
      successor, parent, cr, xRed, xr := Successor(child, c, l, node, red, r);
      x := successor;
      ghost var px := if cr.Root? then node else cr.id;
      IsSuccLinks(m0, root, c, l, node, red, r, cr, x, xRed, xr, px, height);
      SuccFacts(m0, node, l.id, r.id, c.Parent(), red, x, px, xr.Top(), xRed);
      var child2 := nodes[successor].right;
      if successor != child {
        MoveRight(successor, child, parent, child2);
        HeadFacts(m0, node, l.id, r.id, c.Parent(), red, x, px, xr.Top(), xRed);
      }
      rebalance := MoveUp(node, successor, nodes[node].left, child2, parent);
      UnlinkedTwo(m0, root0, c, l, node, red, r, cr, x, xRed, xr, px, nodes, root);
    }

    /** The successor gives its child to its parent, and gets the right child of the node. */
    method MoveRight(successor: Ptr, child: Ptr, parent: Ptr, child2: Ptr)
      requires successor in nodes && child in nodes && parent in nodes && successor != child && successor != parent
      modifies this`nodes
      ensures nodes == PlaceHead(old(nodes), successor, child, parent, child2)
    {
      SetKid(parent, Left, child2);
      SetKid(successor, Right, child);
      SetParentColor(child, successor, nodes[child].red);
    }

    /** The successor gets the left child, the place and the colour of the node. */
    method MoveUp(node: Ptr, successor: Ptr, tmp: Ptr, child2: Ptr, parent: Ptr) returns (rebalance: Ptr)
      requires node in nodes && successor in nodes && tmp in nodes && successor != tmp && successor != node && tmp != node
      requires nodes[node].parent != Null ==> nodes[node].parent in nodes
      requires nodes[node].parent != node && nodes[node].parent != successor && nodes[node].parent != tmp
      requires child2 != Null ==> child2 in nodes && child2 != successor && child2 != tmp && child2 != node && child2 != nodes[node].parent
      modifies this`nodes, this`root
      ensures nodes == PlaceTail(old(nodes), node, successor, tmp, old(nodes[node].parent), old(nodes[node].red), child2, parent)
      ensures root == ChangeRoot(old(root), successor, old(nodes[node].parent))
      ensures rebalance == if child2 == Null && !old(nodes[successor].red) then parent else Null
    {
      var pcParent, pcRed := nodes[node].parent, nodes[node].red;
      SetKid(successor, Left, tmp);
      SetParentColor(tmp, successor, nodes[tmp].red);
      nodes := ChangeChild(nodes, node, successor, pcParent);
      root := ChangeRoot(root, successor, pcParent);
      var xWasRed := nodes[successor].red;
      SetParentColor(successor, pcParent, pcRed);
      if child2 != Null {
        SetParentColor(child2, parent, false);
        rebalance := Null;
      } else {
        rebalance := if !xWasRed then parent else Null;
      }
    }

    /** `k_rbtree_erase`: the node leaves the tree. */
    method Erase(node: Ptr)
      requires Valid() && node in Ids(shape)
      modifies this
      ensures Valid() && SameKeys(old(nodes), nodes)
      ensures InOrder(shape) == Dropped(old(InOrder(shape)), node)
    {
      hide Bal, NoRedRed, RedBlack, Rep, Wf, InOrder, Ids, Plug, SortedBy, Dropped, At, CtxIds, Short;
      ghost var m0, order := nodes, InOrder(shape);
      ghost var c, t := PlaceOf(nodes, root, shape, node);
      AtTop(nodes, root, c, Left, t.l, node, t.red, t.r);
      ghost var c', a', h: nat;
      var rebalance;
      if nodes[node].left == Null {
        rebalance, c', a', h := EraseOne(node, Left, c, t.red, t.r, height);
      } else if nodes[node].right == Null {
        rebalance, c', a', h := EraseOne(node, Right, c, t.red, t.l, height);
      } else {
        rebalance, c', a', h := EraseTwo(node, c, t, height);
      }
      ghost var m1 := nodes;
      if rebalance != Null {
        shape, height := EraseFix(rebalance, c', 0, h);
      } else {
        AtWhole(nodes, root, c', a');
        shape, height := Plug(c', a'), h;
      }
      SameKeysTrans(m0, m1, nodes);
      SortedDropped(m0, nodes, order, node);
    }

    /** ... with at most one child. */
    method EraseOne(node: Ptr, s: Side, ghost c: Ctx, ghost red: bool, ghost a: Tree, ghost height: nat)
        returns (rebalance: Ptr, ghost c': Ctx, ghost a': Tree, ghost h: nat)
      requires At(nodes, root, c, Mk(s, Leaf, node, red, a)) && (s == Right ==> a.Fork?)
      requires RedBlack(Plug(c, Mk(s, Leaf, node, red, a)), height)
      modifies this`nodes, this`root
      ensures At(nodes, root, c', a') && Unbalanced(c', a', rebalance, h) && SameKeys(old(nodes), nodes)
      ensures InOrder(Plug(c', a')) == Dropped(InOrder(Plug(c, Mk(s, Leaf, node, red, a))), node)
    {
      hide At, RedBlack, Plug, Mk, InOrder, Unbalanced, Dropped, Unlinked, Coloured;
      AtWhole(nodes, root, c, Mk(s, Leaf, node, red, a));
      UnlinkAt(nodes, root, c, s, node, red, a);
      rebalance := UnlinkOne(node, s, c, red, a);
      c', a' := c, Coloured(a, red);
      h := OneResult(c, s, node, red, a, height, rebalance);
      OneOrder(c, s, node, red, a);
    }

    /** ... with two. */
    method EraseTwo(node: Ptr, ghost c: Ctx, ghost t: Tree, ghost height: nat)
        returns (rebalance: Ptr, ghost c': Ctx, ghost a': Tree, ghost h: nat)
      requires At(nodes, root, c, t) && t.Fork? && t.id == node && t.l.Fork? && t.r.Fork? && RedBlack(Plug(c, t), height)
      modifies this`nodes, this`root
      ensures At(nodes, root, c', a') && Unbalanced(c', a', rebalance, h) && SameKeys(old(nodes), nodes)
      ensures InOrder(Plug(c', a')) == Dropped(InOrder(Plug(c, t)), node)
    {
      hide At, RedBlack, Plug, Over, AllLeft, RenCtx, Coloured, InOrder, Unbalanced, Dropped;
      AtWhole(nodes, root, c, t);
      ghost var cr, x, xRed, xr;
      rebalance, cr, x, xRed, xr := UnlinkTwo(node, c, t.l, t.red, t.r, height);
      TwoResult(c, t.l, node, t.red, t.r, cr, x, xRed, xr, height, rebalance);
      c', a', h := RenCtx(Over(cr, In(c, Right, node, t.red, t.l)), node, x), Coloured(xr, xRed), height;
    }

    method ParentOf(node: Ptr, ghost c: Ctx, ghost t: Tree) returns (parent: Ptr)
      requires At(nodes, root, c, t) && t.Fork? && t.id == node
      ensures parent == c.Parent() && (parent == Null <==> c.Root?)
    {
      AtNode(nodes, root, c, t);
      parent := nodes[node].parent;
    }
  }

  /** The last of several updates might as well be the first. */
  lemma {:induction false} SetLast(m: Nodes, p: Ptr, x: Node, x': Node, n: Ptr, y: Node, a: Ptr, z: Node)
    requires p != n
    ensures m[p := x][n := y][p := x'] == m[p := x'][n := y]
    ensures p != a ==> m[p := x][n := y][a := z][p := x'] == m[p := x'][n := y][a := z]
  {}

  /** The place of a node. */
  lemma {:induction false} PlaceOf(m: Nodes, root: Ptr, tree: Tree, node: Ptr) returns (c: Ctx, t: Tree)
    requires Rep(m, root, Null, tree) && Wf(tree) && node in Ids(tree)
    ensures At(m, root, c, t) && t.Fork? && t.id == node && Plug(c, t) == tree
  {
    c, t := Locate(Root, tree, node);
    AtWhole(m, root, c, t);
  }

  /** What the moves of a successor need of its links. */
  lemma {:induction false} SuccFacts(m: Nodes, node: Ptr, l: Ptr, r: Ptr, cp: Ptr, red: bool, x: Ptr, px: Ptr, c2: Ptr, xRed: bool)
    requires SuccLinks(m, node, l, r, cp, red, x, px, c2, xRed)
    ensures node in m && l in m && r in m && x in m && px in m && x != l && x != node && l != node && (cp != Null ==> cp in m)
    ensures cp != node && cp != x && cp != l && m[node].left == l && m[node].right == r && m[node].parent == cp && m[node].red == red
    ensures c2 != Null ==> c2 in m && c2 != x && c2 != l && c2 != node && c2 != cp
    ensures m[x].right == c2 && m[x].red == xRed && (x != r ==> x != px) && (c2 != Null ==> !xRed)
  {}

  lemma {:induction false} HeadFacts(m: Nodes, node: Ptr, l: Ptr, r: Ptr, cp: Ptr, red: bool, x: Ptr, px: Ptr, c2: Ptr, xRed: bool)
    requires SuccLinks(m, node, l, r, cp, red, x, px, c2, xRed) && x != r
    ensures var m2 := PlaceHead(m, x, r, px, c2);
            m2.Keys == m.Keys && m2[node] == m[node] && m2[x].red == xRed
  {}

  lemma {:induction false} FinishBlack(m: Nodes, root: Ptr, c: Ctx, t: Tree, n: nat, done: bool, total: nat)
    requires At(m, root, c, t) && Bal(t, n) && NoRedRed(t) && t.Black() && CtxRules(c)
    requires if done then CtxBal(c, n, total) else c.Root? && total == n
    ensures Rep(m, root, Null, Plug(c, t)) && Wf(Plug(c, t)) && RedBlack(Plug(c, t), total)
  {
    Finish(m, root, c, t, n, total);
  }

  lemma {:induction false} InPlug(up: Ctx, s: Side, p: Ptr, pRed: bool, sib: Tree, t: Tree)
    ensures Plug(In(up, s, p, pRed, sib), t) == Plug(up, Mk(s, t, p, pRed, sib))
  {}

  lemma {:induction false} IsNearLinks(m: Nodes, root: Ptr, up: Ctx, s: Side, p: Ptr, pRed: bool, sib: Tree, t: Tree)
    requires At(m, root, In(up, s, p, pRed, sib), t) && sib.Fork? && sib.Kid(s).Fork? && sib.Kid(s).red && sib.Kid(s).Kid(s.Other()).Black()
    ensures var near := sib.Kid(s); NearLinks(m, p, sib.id, near.id, s, near.Kid(s).Top(), near.Kid(s.Other()).Top())
    ensures m[p].red == pRed && m[p].parent == up.Parent()
    ensures sib.id != up.Parent() && sib.id != sib.Kid(s).Kid(s).Top()
  {
    var near, o := sib.Kid(s), s.Other();
    EraseLinks(m, root, up, s, p, pRed, sib, t);
    AtUp(m, root, up, s, p, pRed, sib, t);
    MkSwap(s, t, p, pRed, sib);
    AtUp(m, root, up, o, p, pRed, t, sib);
    assert sib == Mk(s, near, sib.id, sib.red, sib.Kid(o));
    AtUp(m, root, In(up, o, p, pRed, t), s, sib.id, sib.red, sib.Kid(o), near);
    var c := In(In(up, o, p, pRed, t), s, sib.id, sib.red, sib.Kid(o));
    assert near == Mk(s, near.Kid(s), near.id, near.red, near.Kid(o));
    AtTop(m, root, c, s, near.Kid(s), near.id, near.red, near.Kid(o));
    NearApart(c, near, up);
  }

  /** The children of the near child are none of the nodes above. */
  lemma {:induction false} NearApart(c: Ctx, near: Tree, up: Ctx)
    requires Distinct(c, near) && near.Fork? && c.In? && c.up.In? && up == c.up.up
    ensures near.l.Fork? ==> near.l.id !in {c.id, c.up.id, up.Parent()}
    ensures near.r.Fork? ==> near.r.id !in {c.id, c.up.id, up.Parent()}
  {
    assert CtxIds(c) == {c.id} + Ids(c.o) + CtxIds(c.up) && CtxIds(c.up) == {c.up.id} + Ids(c.up.o) + CtxIds(up);
    ParentIn(up);
    TopIn(near.l);
    TopIn(near.r);
    assert Wf(near.l) && Wf(near.r) && Ids(near.l) <= Ids(near) && Ids(near.r) <= Ids(near);
  }

  /** The nodes before the last link of a rotation. */
  lemma {:induction false} BeforeLink(m: Nodes, m1: Nodes, o: Side, g: Ptr, p: Ptr, b: Ptr, up: Ptr, gRed: bool, red: bool)
    requires g in m && p in m && g != p && (b != Null ==> b in m && b != g && b != p) && m[g].parent == up && m1.Keys == m.Keys
    requires m1[g] == m[g].WithKid(o, b) && m1[p] == m[p].WithKid(o.Other(), g) && (b != Null ==> m1[b] == m[b].(parent := g))
    requires forall x :: x in m && x != g && x != p && (x != b || b == Null) ==> m1[x] == m[x]
    ensures m1[p := m1[p].(parent := up, red := red)][g := m1[g].(parent := p, red := gRed)] == RotateInner(m, o, g, p, b, gRed, red)
  {
    hide Node.WithKid, Node.Kid, Side.Other;
    var r := RotateInner(m, o, g, p, b, gRed, red);
    assert r[g] == m1[g].(parent := p, red := gRed) && r[p] == m1[p].(parent := up, red := red);
    assert forall x :: x in m && x != g && x != p ==> r[x] == m1[x];
  }

  function NearMoved(m: Nodes, p: Ptr, sib: Ptr, near: Ptr, s: Side, y: Ptr): Nodes
    requires p in m && sib in m && near in m && (y != Null ==> y in m)
  {
    var m1 := m[sib := m[sib].WithKid(s, y)][near := m[near].WithKid(s.Other(), sib)][p := m[p].WithKid(s.Other(), near)];
    if y == Null then m1 else m1[y := m1[y].(parent := sib, red := false)]
  }

  /** The links of a black sibling whose near child is red. */
  predicate NearLinks(m: Nodes, p: Ptr, sib: Ptr, near: Ptr, s: Side, x: Ptr, y: Ptr) {
    && p in m && sib in m && near in m && p != Null && p != sib && p != near && sib != near
    && m[p].Kid(s.Other()) == sib && m[p].Kid(s) != sib && m[sib].parent == p && m[sib].Kid(s) == near && m[near].red
    && m[near].parent == sib && m[near].Kid(s) == x && m[near].Kid(s.Other()) == y
    && (y != Null ==> y in m && y != p && y != sib && y != near && y != x && !m[y].red)
    && (x != Null ==> x in m && x != p && x != sib && x != near && x != m[p].parent)
    && (m[p].parent != Null ==> m[p].parent in m && m[p].parent != p && m[p].parent != sib && m[p].parent != near)
  }

  /** The lower rotation, with the sibling's own link set by the upper one, is a rotation. */
  lemma {:induction false} NearMovedTurn(m: Nodes, p: Ptr, sib: Ptr, near: Ptr, s: Side, x: Ptr, y: Ptr)
    requires NearLinks(m, p, sib, near, s, x, y)
    ensures CanRotate(m, s, sib, near)
    ensures var m1 := Rotate(m, s, sib, near, y, false, true); var mid := NearMoved(m, p, sib, near, s, y);
            var m2 := mid[sib := mid[sib].(parent := near, red := false)];
            && SameTurn(m1, m2, s.Other(), p, near) && TurnFits(m2, p, near, x)
            && m1[near].Kid(s) == x && mid[near].Kid(s) == x && mid[p].red == m[p].red && mid[p].parent == m[p].parent
            && m1[p].red == m[p].red && TurnFits(mid, p, near, x) && mid[sib].red == m[sib].red
  {}

  lemma {:induction false} TopNull(m: Nodes, root: Ptr, c: Ctx, t: Tree)
    requires At(m, root, c, t) && t.Top() == Null
    ensures t == Leaf
  {}

  /** One step down in `node_insert`. */
  lemma {:induction false} Descend(m: Nodes, root: Ptr, c: Ctx, t: Tree, s: Side, key: int, all: seq<Ptr>)
    requires At(m, root, c, t) && t.Fork? && t.id in m && SortedBy(m, all) && all == Before(c) + InOrder(t) + After(c)
    requires s == (if key <= m[t.id].key then Left else Right) && AllBelow(m, Before(c), key) && AllFrom(m, After(c), key)
    ensures var c' := In(c, s, t.id, t.red, t.Kid(s.Other()));
            && At(m, root, c', t.Kid(s)) && m[t.id].Kid(s) == t.Kid(s).Top() && Plug(c', t.Kid(s)) == Plug(c, t)
            && AllBelow(m, Before(c'), key) && AllFrom(m, After(c'), key)
  {
    SortedAround(m, Before(c), InOrder(t.l), t.id, InOrder(t.r), After(c), key);
    hide At, SortedBy, AllBelow, AllFrom;
    AtUp(m, root, c, s, t.id, t.red, t.Kid(s.Other()), t.Kid(s));
    AtTop(m, root, c, s, t.Kid(s), t.id, t.red, t.Kid(s.Other()));
  }

  /** What `node_insert` needs to know of the place it has found. */
  lemma {:induction false} PlaceFor(m: Nodes, tree: Tree, height: nat, c: Ctx, x: Ptr, key: int)
    requires Plug(c, Leaf) == tree && RedBlack(tree, height) && x !in Ids(tree) && SortedBy(m, InOrder(tree))
    requires AllBelow(m, Before(c), key) && AllFrom(m, After(c), key)
    ensures x !in CtxIds(c) && SortedBy(m, Before(c) + After(c)) && x !in Before(c) + After(c)
    ensures Placed(m, InOrder(tree), key, x) == Before(c) + [x] + After(c)
    ensures var leaf := Fork(Leaf, x, true, Leaf);
            && InOrder(Plug(c, leaf)) == Before(c) + [x] + After(c) && NoRedRed(leaf) && Bal(leaf, 0)
    ensures CtxBal(c, 0, height) && CtxRules(c)
  {
    PlugInOrder(c, Leaf);
    PlugInOrder(c, Fork(Leaf, x, true, Leaf));
    PlugDistinct(c, Leaf);
    InOrderIds(tree, x);
    LinkRules(c, x, height);
    assert InOrder(tree) == Before(c) + After(c);
    PlacedBetween(m, Before(c), After(c), key, x);
  }

  lemma {:induction false} LinkRules(c: Ctx, x: Ptr, height: nat)
    requires RedBlack(Plug(c, Leaf), height)
    ensures CtxBal(c, 0, height) && CtxRules(c)
    ensures NoRedRed(Fork(Leaf, x, true, Leaf)) && Bal(Fork(Leaf, x, true, Leaf), 0)
  {
    var n := UnplugRules(c, Leaf, height);
  }

  /** `k_rbtree_link_node` */
  lemma {:induction false} LinkAt(m: Nodes, root: Ptr, c: Ctx, x: Ptr, key: int)
    requires At(m, root, c, Leaf) && x != Null && x !in CtxIds(c)
    ensures c.In? ==> c.id in m && c.id != x && c.id != Null
    ensures var m1 := m[x := Node(key, c.Parent(), true, Null, Null)];
            var m2 := if c.In? then m1[c.id := m1[c.id].WithKid(c.s, x)] else m1;
            At(m2, if c.In? then root else x, c, Fork(Leaf, x, true, Leaf))
  {
    var m1 := m[x := Node(key, c.Parent(), true, Null, Null)];
    if c.In? {
      var m2 := m1[c.id := m1[c.id].WithKid(c.s, x)];
      ParentIn(c);
      RepSame(m, m2, m[c.id].Kid(c.s.Other()), c.id, c.o);
      CtxSame(m, m2, root, c.up, c.id);
    }
  }

  lemma {:induction false} SortedLinked(m: Nodes, m': Nodes, a: seq<Ptr>, b: seq<Ptr>, x: Ptr, key: int)
    requires SortedBy(m, a + b) && x in m' && m'[x].key == key
    requires AllBelow(m, a, key) && AllFrom(m, b, key)
    requires forall y :: y in m && y != x ==> y in m' && m'[y].key == m[y].key
    requires x !in a + b
    ensures SortedBy(m', a + [x] + b)
  {
    var s := a + b;
    forall i | 0 <= i < |s| ensures s[i] in m && s[i] != x && s[i] in m' && m'[s[i]].key == m[s[i]].key {
      assert s[i] in s;
    }
    SortedPlaced(m', a, b, x);
  }

  lemma {:induction false} SortedSame(m: Nodes, m': Nodes, s: seq<Ptr>)
    requires SortedBy(m, s) && SameKeys(m, m')
    ensures SortedBy(m', s)
  {}

  /** The place of the node at index `i` of the order. */
  lemma {:induction false} FindPlace(m: Nodes, root: Ptr, tree: Tree, i: nat) returns (c: Ctx, t: Tree)
    requires Rep(m, root, Null, tree) && Wf(tree) && i < |InOrder(tree)|
    ensures At(m, root, c, t) && t.Fork? && t.id == InOrder(tree)[i]
    ensures var k := |Before(c)| + |InOrder(t.l)|; k == i
    ensures InOrder(tree) == Before(c) + InOrder(t.l) + [t.id] + InOrder(t.r) + After(c)
  {
    c, t := PlaceAt(Root, tree, i);
    PlugRep(m, root, c, t.Top(), t);
    PlugDistinct(c, t);
    RepTop(m, root, Null, tree);
    PlugInOrder(c, t);
  }

  lemma {:induction false} PlaceAt(c: Ctx, t: Tree, i: nat) returns (c': Ctx, s: Tree)
    requires i < |InOrder(t)|
    ensures Plug(c', s) == Plug(c, t) && s.Fork? && |Before(c')| + |InOrder(s.l)| == |Before(c)| + i
    decreases t
  {
    if i < |InOrder(t.l)| {
      c', s := PlaceAt(In(c, Left, t.id, t.red, t.r), t.l, i);
    } else if i == |InOrder(t.l)| {
      return c, t;
    } else {
      c', s := PlaceAt(In(c, Right, t.id, t.red, t.l), t.r, i - |InOrder(t.l)| - 1);
    }
  }

  /** One step up in `k_rbtree_next` and `k_rbtree_prev`. */
  lemma {:induction false} Climb(m: Nodes, root: Ptr, c: Ctx, t: Tree, s: Side)
    requires At(m, root, c, t) && t.Fork? && c.In?
    ensures c.id in m && (m[c.id].Kid(s) == t.id <==> c.s == s)
    ensures At(m, root, c.up, Mk(c.s, t, c.id, c.red, c.o)) && m[c.id].parent == c.up.Parent()
    ensures c.s == s ==> Beyond(c, s) == Beyond(c.up, s)
    ensures c.s != s ==> Beyond(c, s) != [] && End(Beyond(c, s), s.Other()) == c.id
  {
    AtUp(m, root, c.up, c.s, c.id, c.red, c.o, t);
    AtTop(m, root, c.up, c.s, t, c.id, c.red, c.o);
    BeyondStep(c, s);
  }

  /** The nodes after the lower of two rotations. */
  lemma {:induction false} LowerLinks(m: Nodes, node: Ptr, p: Ptr, g: Ptr, s: Side, a: Ptr)
    requires Links3(m, node, p, g, s) && node == m[p].Kid(s.Other()) && a == m[node].Kid(s)
    ensures node in m && p in m && g in m && node != p && node != g && p != g && s.Other().Other() == s
    ensures a != Null ==> a in m && a != p && a != g && a != node && !m[a].red
    ensures m[p].parent == g && CanRotate(m, s.Other(), p, node)
    ensures var m1, b := Rotate(m, s.Other(), p, node, a, true, true), m[node].Kid(s.Other());
            && m1.Keys == m.Keys && m1[p] == m[p].WithKid(s.Other(), a).(parent := node, red := true)
            && m1[node] == m[node].WithKid(s, p).(parent := g) && m1[g] == m[g].WithKid(s, node)
            && m1[g].WithKid(s, m[g].Kid(s)) == m[g]
            && (a != Null ==> m1[a] == m[a].(parent := p))
            && (forall x :: x in m && x != p && x != node && x != g && x != a ==> m1[x] == m[x])
            && (b != Null ==> b in m && b != g && b != node && b != p && b != a && b != m[g].parent && !m[b].red)
            && (m[g].parent != Null ==> m[g].parent in m && m[g].parent != g && m[g].parent != node)
            && !m[g].red
  {}

  /** The nodes after the first rotation of `rbtree_insert`, its link from above still to be set. */
  function Lowered(m: Nodes, node: Ptr, p: Ptr, s: Side, a: Ptr): Nodes
    requires node in m && p in m && (a != Null ==> a in m)
  {
    var m1 := m[p := m[p].WithKid(s.Other(), a).(parent := node, red := true)][node := m[node].WithKid(s, p)];
    if a == Null then m1 else m1[a := m1[a].(parent := p, red := false)]
  }

  lemma {:induction false} LoweredTurn(m: Nodes, node: Ptr, p: Ptr, g: Ptr, s: Side, a: Ptr)
    requires Links3(m, node, p, g, s) && node == m[p].Kid(s.Other()) && a == m[node].Kid(s)
    ensures CanRotate(m, s.Other(), p, node) && (a != Null ==> a in m)
    ensures var m1, m2, b := Rotate(m, s.Other(), p, node, a, true, true), Lowered(m, node, p, s, a), m[node].Kid(s.Other());
            && SameTurn(m1, m2, s, g, node) && CanRotate(m1, s, g, node) && b == m1[node].Kid(s.Other())
            && TurnOk(m2, g, node, b) && m2[g].parent == m[g].parent
  {
    LowerLinks(m, node, p, g, s, a);
    hide Rotate, Links3;
  }

  /** What a rotation of a black `g` and its child needs of the nodes. */
  predicate TurnOk(m: Nodes, g: Ptr, p: Ptr, b: Ptr) {
    TurnFits(m, g, p, b) && !m[g].red && (b != Null ==> !m[b].red)
  }

  /** ... and of any colours. */
  predicate TurnFits(m: Nodes, g: Ptr, p: Ptr, b: Ptr) {
    && g in m && p in m && g != p
    && (b != Null ==> b in m && b != g && b != p && b != m[g].parent)
    && (m[g].parent != Null ==> m[g].parent in m && m[g].parent != g && m[g].parent != p)
  }

  /** Nodes that differ only in what a rotation of `g` and `p` overwrites: the link between them. */
  ghost predicate SameTurn(m: Nodes, m': Nodes, s: Side, g: Ptr, p: Ptr) {
    && g in m && p in m && g != p && m'.Keys == m.Keys
    && (forall x :: x in m && x != g && x != p ==> m'[x] == m[x])
    && m'[g] == m[g].WithKid(s, m'[g].Kid(s)) && m'[p] == m[p].(parent := m'[p].parent)
  }

  lemma {:induction false} SameNodeTurn(n: Node, n': Node, q: Node, q': Node, s: Side, b: Ptr, g: Ptr, parent: Ptr, red: bool)
    requires n' == n.WithKid(s, n'.Kid(s)) && q' == q.(parent := q'.parent)
    ensures n'.WithKid(s, b) == n.WithKid(s, b) && n'.parent == n.parent
    ensures q'.WithKid(s.Other(), g).(parent := parent, red := red) == q.WithKid(s.Other(), g).(parent := parent, red := red)
  {}

  lemma {:induction false} TurnsAlike(m: Nodes, m': Nodes, s: Side, g: Ptr, p: Ptr, b: Ptr, gRed: bool, pRed: bool)
    requires SameTurn(m, m', s, g, p) && TurnFits(m', g, p, b)
    ensures Rotate(m', s, g, p, b, gRed, pRed) == Rotate(m, s, g, p, b, gRed, pRed)
  {
    var r, r' := RotateInner(m, s, g, p, b, gRed, pRed), RotateInner(m', s, g, p, b, gRed, pRed);
    SameNodeTurn(m[g], m'[g], m[p], m'[p], s, b, g, m[g].parent, pRed);
    hide Node.WithKid, Node.Kid, Side.Other, ChangeChild;
    assert r'[g] == r[g] && r'[p] == r[p];
    assert r' == r;
  }

  /** The rules at the end of the loop. */
  lemma {:induction false} Finish(m: Nodes, root: Ptr, c: Ctx, t: Tree, n: nat, total: nat)
    requires At(m, root, c, t) && CtxBal(c, n, total) && CtxRules(c) && Bal(t, n) && NoRedRed(t)
    requires c.Red() || c.Root? ==> t.Black()
    ensures Rep(m, root, Null, Plug(c, t)) && Wf(Plug(c, t)) && RedBlack(Plug(c, t), total)
  {
    PlugRep(m, root, c, t.Top(), t);
    PlugDistinct(c, t);
    PlugRules(c, t, n, total);
  }

  lemma {:induction false} TopBlack(m: Nodes, root: Ptr, t: Tree, n: nat, total: nat)
    requires At(m, root, Root, t) && t.Fork? && t.red && Bal(t, n) && NoRedRed(t)
    ensures t.id in m && m[t.id].parent == Null
    ensures var m', t' := m[t.id := m[t.id].(parent := Null, red := false)], t.(red := false);
            Rep(m', root, Null, t') && Wf(t') && RedBlack(t', n + 1) && SameKeys(m, m') && InOrder(t') == InOrder(Plug(Root, t))
  {
    ColourAt(m, root, Root, Left, t.l, t.id, true, t.r, false);
    assert m[t.id].(parent := Null, red := false) == m[t.id].(red := false);
  }

  lemma {:induction false} IsLinks3(m: Nodes, root: Ptr, up: Ctx, s: Side, g: Ptr, u: Tree, sp: Side, p: Ptr, sib: Tree, t: Tree)
    requires At(m, root, In(In(up, s, g, false, u), sp, p, true, sib), t) && t.Fork? && t.red && NoRedRed(t) && sib.Black()
    ensures Links3(m, t.id, p, g, s)
  {
    hide At, NoRedRed;
    GrandLinks(m, root, up, s, g, u, sp, p, sib, t);
    AtTop(m, root, In(In(up, s, g, false, u), sp, p, true, sib), Left, t.l, t.id, true, t.r);
    KidsApart(m, root, up, s, g, u, sp, p, sib, t);
  }

  lemma {:induction false} KidsApart(m: Nodes, root: Ptr, up: Ctx, s: Side, g: Ptr, u: Tree, sp: Side, p: Ptr, sib: Tree, t: Tree)
    requires At(m, root, In(In(up, s, g, false, u), sp, p, true, sib), t) && t.Fork? && NoRedRed(t) && t.red
    ensures t.l.Fork? ==> t.l.id != p && t.l.id != g && t.l.id != up.Parent() && !t.l.red
    ensures t.r.Fork? ==> t.r.id != p && t.r.id != g && t.r.id != up.Parent() && !t.r.red
    ensures sib.Fork? ==> sib.id != up.Parent()
  {
    var c := In(In(up, s, g, false, u), sp, p, true, sib);
    assert CtxIds(c) == {p} + Ids(sib) + CtxIds(c.up) && CtxIds(c.up) == {g} + Ids(u) + CtxIds(up);
    assert CtxWf(c.up);
    ParentIn(up);
    TopIn(sib);
    TopIn(t.l);
    TopIn(t.r);
    assert Wf(t.l) && Wf(t.r) && Ids(t.l) <= Ids(t) && Ids(t.r) <= Ids(t) && CtxWf(up);
  }

  /** What the rotations of `rbtree_insert` leave at the place of the grandparent. */
  lemma {:induction false} Straightened(m: Nodes, root: Ptr, up: Ctx, s: Side, g: Ptr, u: Tree, sp: Side, p: Ptr, sib: Tree, t: Tree,
                     n: nat, total: nat, m': Nodes, root': Ptr) returns (t': Tree)
    requires var c := In(In(up, s, g, false, u), sp, p, true, sib);
             At(m, root, c, t) && CtxBal(c, n, total) && CtxRules(c)
    requires t.Fork? && t.red && NoRedRed(t) && Bal(t, n) && u.Black()
    requires CanRotate(m, s, g, p) && g in m && p in m && t.id in m
    requires t.id == m[p].Kid(s) ==>
               root' == ChangeRoot(root, p, m[g].parent) && m' == Rotate(m, s, g, p, m[p].Kid(s.Other()), true, false)
    requires t.id != m[p].Kid(s) ==>
               && CanRotate(m, s.Other(), p, t.id)
               && var m1 := Rotate(m, s.Other(), p, t.id, m[t.id].Kid(s), true, true);
               && CanRotate(m1, s, g, t.id) && root' == ChangeRoot(root, t.id, m[g].parent)
               && m' == Rotate(m1, s, g, t.id, m1[t.id].Kid(s.Other()), true, false)
    ensures At(m', root', up, t') && CtxBal(up, n + 1, total) && CtxRules(up) && Bal(t', n + 1) && NoRedRed(t') && t'.Black()
    ensures SameKeys(m, m') && InOrder(t') == InOrder(Mk(s, Mk(sp, t, p, true, sib), g, false, u))
  {
    hide At, Rotate, Bal, CtxBal, NoRedRed, CtxRules;
    GrandLinks(m, root, up, s, g, u, sp, p, sib, t);
    if sp == s {
      t' := Mk(s, t, p, false, Mk(s, sib, g, true, u));
      OuterAt(m, root, up, s, g, u, p, sib, t);
      OuterRules(up, s, g, u, p, sib, t, n, total);
      RotateOrder(s, t, p, true, sib, g, false, u, false, true);
    } else {
      var a, b := t.Kid(s), t.Kid(s.Other());
      assert t == Mk(s, a, t.id, true, b);
      t' := Mk(s, Mk(s, sib, p, true, a), t.id, false, Mk(s, b, g, true, u));
      AtTop(m, root, In(In(up, s, g, false, u), sp, p, true, sib), s, a, t.id, true, b);
      InnerAt(m, root, up, s, g, u, p, sib, a, b, t.id);
      InnerRules(up, s, g, u, p, sib, a, b, t.id, n, total);
      InnerOrder(s, a, b, t.id, p, sib, g, u);
    }
  }

  lemma {:induction false} InnerOrder(s: Side, a: Tree, b: Tree, node: Ptr, p: Ptr, sib: Tree, g: Ptr, u: Tree)
    ensures InOrder(Mk(s, Mk(s, sib, p, true, a), node, false, Mk(s, b, g, true, u))) ==
            InOrder(Mk(s, Mk(s.Other(), Mk(s, a, node, true, b), p, true, sib), g, false, u))
  {
    var o, q := s.Other(), Mk(s, sib, p, true, a);
    MkSwap(s, a, node, true, b);
    MkSwap(s, sib, p, true, a);
    MkSwap(s, q, node, true, b);
    RotateOrder(o, b, node, true, a, p, true, sib, true, true);
    RotateOrder(s, q, node, true, b, g, false, u, false, true);
    MkIds(s, Mk(s, q, node, true, b), g, false, u);
    MkIds(s, Mk(o, Mk(s, a, node, true, b), p, true, sib), g, false, u);
  }

  /** The arguments of a rotation make sense. */
  predicate CanRotate(m: Nodes, s: Side, g: Ptr, p: Ptr) {
    && g in m && p in m && (m[p].Kid(s.Other()) != Null ==> m[p].Kid(s.Other()) in m)
    && (m[g].parent != Null ==> m[g].parent in m)
  }

  /** The links of a red node, its red parent and its black grandparent, and of what hangs between them. */
  predicate Links3(m: Nodes, node: Ptr, p: Ptr, g: Ptr, s: Side) {
    && node in m && p in m && g in m && node != p && node != g && p != g && node != Null && g != Null
    && m[p].parent == g && m[g].Kid(s) == p && m[g].Kid(s.Other()) != p && m[node].parent == p && m[node].red && m[p].red && !m[g].red
    && (node == m[p].left || node == m[p].right) && m[p].left != m[p].right
    && (m[g].parent != Null ==> m[g].parent in m && m[g].parent != g && m[g].parent != p && m[g].parent != node)
    && Between(m, m[p].Kid(s.Other()), p, p, g, node) && Between(m, m[node].Kid(s), node, p, g, node) && Between(m, m[node].Kid(s.Other()), node, p, g, node)
    && (m[node].left != Null ==> m[node].left != m[node].right)
    && node !in {m[node].left, m[node].right}
  }

  /** A subtree that a rotation moves: absent, or black (unless it is `node`) and none of the nodes that turn. */
  predicate Between(m: Nodes, b: Ptr, parent: Ptr, p: Ptr, g: Ptr, node: Ptr)
    requires g in m
  {
    b != Null ==> b in m && m[b].parent == parent && b != p && b != g && b != m[g].parent && (b != node ==> !m[b].red)
  }

  /** The links of a node, its parent and its grandparent. */
  lemma {:induction false} GrandLinks(m: Nodes, root: Ptr, up: Ctx, s: Side, g: Ptr, u: Tree, sp: Side, p: Ptr, sib: Tree, t: Tree)
    requires At(m, root, In(In(up, s, g, false, u), sp, p, true, sib), t) && t.Fork?
    ensures p in m && g in m && t.id in m && p != Null && g != Null && t.id != Null && p != g && p != t.id && g != t.id
    ensures m[p].parent == g && m[t.id].parent == p && m[g].parent == up.Parent() && m[p].red && !m[g].red && m[t.id].red == t.red
    ensures m[p].Kid(sp) == t.id && m[p].Kid(sp.Other()) == sib.Top() && sib.Top() != t.id
    ensures m[g].Kid(s) == p && m[g].Kid(s.Other()) == u.Top() && u.Top() != p
    ensures u.Fork? ==> u.id in m && u.id != Null && m[u.id].red == u.red && m[u.id].parent == g && u.id != t.id && u.id != p && u.id != g
    ensures sib.Fork? ==> sib.id in m && m[sib.id].red == sib.red && m[sib.id].parent == p && sib.id != p && sib.id != g
    ensures up.Parent() != Null ==> up.Parent() in m && up.Parent() != p && up.Parent() != g && up.Parent() != t.id
  {
    var q := Mk(sp, t, p, true, sib);
    AtUp(m, root, In(up, s, g, false, u), sp, p, true, sib, t);
    AtTop(m, root, In(up, s, g, false, u), sp, t, p, true, sib);
    AtUp(m, root, up, s, g, false, u, q);
    AtTop(m, root, up, s, q, g, false, u);
    MkIds(sp, t, p, true, sib);
    MkIds(s, q, g, false, u);
    TopIn(t);
    TopIn(u);
    TopIn(sib);
    ParentIn(up);
  }

  lemma {:induction false} AtNode(m: Nodes, root: Ptr, c: Ctx, t: Tree)
    requires At(m, root, c, t) && t.Fork?
    ensures t.id in m && m[t.id].parent == c.Parent() && m[t.id].red == t.red
    ensures c.Parent() == Null <==> c.Root?
    ensures c.In? ==> c.id in m && m[c.id].red == c.red && m[c.id].parent == c.up.Parent()
  {}
}
