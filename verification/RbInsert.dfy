/** Insertion: rb_link_node and the fix-up loop of __rb_insert (include/linux/rbtree.h, util/rbtree.c). */
module RbInsert {
  import opened RbTree

  /** The assignments of case 2 of __rb_insert. */
  method InsertInnerLinks(s: Side, node: RbNode, p: RbNode)
    requires node != p && node.Child(s) != node && node.Child(s) != p
    modifies node, p, if node.Child(s) == null then {} else {node.Child(s)}
    ensures p.Links() == MkCell(s, old(p.Child(s)), old(node.Child(s)), node, true)
    ensures node.Links() == MkCell(s, p, old(node.Child(Other(s))), old(node.parent), old(node.red))
    ensures var tmp := old(node.Child(s)); tmp != null ==>
            tmp.Links() == old(node.Child(s).Links()).(parent := p, red := false)
  {
    var tmp := node.Child(s);
    p.SetChild(Other(s), tmp);
    node.SetChild(s, p);
    if tmp != null {
      tmp.parent, tmp.red := p, false;
    }
    p.parent, p.red := node, true;
  }

  /** Case 2 of __rb_insert: rotate at the parent. */
  method InsertInner(s: Side, node: RbNode, p: RbNode, root: RbNode?,
                     ghost S: set<RbNode>, ghost up: Ctx, ghost x: Tree, ghost i: Tree, ghost o: Tree, ghost g: RbNode,
                       ghost u: Tree)
    requires At(Mem(S), root, up, Mk(s, Mk(Other(s), Mk(s, i, node, true, o), p, true, x), g, false, u)) && !IsRed(i)
    modifies S
    ensures Lined(Mem(S), root, up, s, Mk(s, x, p, true, i), node, node, o, g, u, false)
  {
    hide Nodes, CtxNodes, Sep, SepCtx, Sep3, Rep, RepCtx, Mk, At, Mem, Only, Lined;
    ghost var m := Mem(S);
    InnerFacts(m, root, up, s, x, p, i, node, o, g, u, true, false);
    MemAll(S);
    InsertInnerLinks(s, node, p);
    MemOnly(m, S, {p, node, g} + Opt(i));
    MemAll(S);
    InnerShape(m, root, up, s, x, p, i, node, o, g, u, true, false, node, Mem(S));
  }

  /** Case 1 of __rb_insert: colour flips. */
  method InsertFlip(p: RbNode, g: RbNode, u: RbNode, root: RbNode?,
                    ghost S: set<RbNode>, ghost up: Ctx, ghost s: Side, ghost s': Side, ghost t: Tree, ghost sib: Tree,
                      ghost uncle: Tree)
    requires At(Mem(S), root, up, Mk(s, Mk(s', t, p, true, sib), g, false, uncle)) && IsRed(uncle) && u == uncle.n
    modifies S
    ensures At(Mem(S), root, up, Mk(s, Mk(s', t, p, false, sib), g, true, Tint(uncle, false)))
  {
    hide Nodes, CtxNodes, Sep, SepCtx, Sep3, Rep, RepCtx, At, Mem, Only;
    ghost var par := Mk(s', t, p, true, sib);
    Focus(Mem(S), root, Step(up, Other(s), g, false, par), uncle);
    Paint(u, false, root, S, Step(up, Other(s), g, false, par), uncle);
    Focus(Mem(S), root, Step(up, Other(s), g, false, par), Tint(uncle, false));
    Focus(Mem(S), root, Step(up, s, g, false, Tint(uncle, false)), par);
    Paint(p, false, root, S, Step(up, s, g, false, Tint(uncle, false)), par);
    Focus(Mem(S), root, Step(up, s, g, false, Tint(uncle, false)), Tint(par, false));
    Paint(g, true, root, S, up, Mk(s, Tint(par, false), g, false, Tint(uncle, false)));
  }

  /** The two nodes above the focus. */
  lemma {:induction false} GrandFacts(m: Memory, root: RbNode?, c: Ctx, t: Tree)
    requires At(m, root, c, t) && t.Node? && c.Step? && c.up.Step?
    ensures At(m, root, c.up.up, Mk(c.up.side, Mk(c.side, t, c.n, c.red, c.sib), c.up.n, c.up.red, c.up.sib))
    ensures c.n in m && m[c.n] == MkCell(c.side, t.n, Ptr(c.sib), c.up.n, c.red)
    ensures c.up.n in m && m[c.up.n] == MkCell(c.up.side, c.n, Ptr(c.up.sib), Above(c.up.up), c.up.red)
    ensures Ptr(c.up.sib) != c.n && Ptr(c.sib) != t.n && t.n in m
    ensures c.up.sib.Node? ==> c.up.sib.n in m && m[c.up.sib.n].red == c.up.sib.red
  {
    hide Nodes, CtxNodes, Sep, SepCtx, Rep, RepCtx, At, Mk, Ptr;
    var g := c.up;
    Focus(m, root, c, t);
    Focus(m, root, g, Mk(c.side, t, c.n, c.red, c.sib));
    AtApart(m, root, g.up, g.side, c.side, t, c.n, c.sib, g.n, g.sib, c.red, g.red);
    RootNode(m, t, c.n);
    RootPtr(t);
    RootPtr(c.sib);
    RootPtr(g.sib);
    RootNode(m, g.sib, g.n);
  }

  /** One turn of the loop of __rb_insert with a red parent p. */
  method InsertCases(root: RbRoot, node: RbNode, p: RbNode, ghost S: set<RbNode>, ghost c: Ctx, ghost t: Tree,
                     ghost h: nat)
    returns (done: bool, node': RbNode, ghost c': Ctx, ghost t': Tree)
    requires At(Mem(S), root.node, c, t) && IsRed(t) && t.n == node && c.Step? && c.n == p && c.red
    requires Balanced(t, h) && BalancedCtx(c, h)
    modifies root`node, S
    ensures At(Mem(S), root.node, c', t') && t'.Node? && t'.n == node' && t'.red == !done
    ensures Balanced(t', h + 1) && BalancedCtx(c', h + 1) && c.up.Step? && c' == c.up.up
    ensures Inorder(Plug(c', t')) == Inorder(Plug(c, t))
  {
    hide Nodes, CtxNodes, Sep, SepCtx, Sep3, Rep, RepCtx, At, Mem, Only, Mk, Inorder, Lined, Plug;
    ghost var up, s0, sib, uncle := c.up.up, c.side, c.sib, c.up.sib;
    MemAll(S);
    GrandFacts(Mem(S), root.node, c, t);
    PlugUp(c, t);
    var g := p.parent;
    var s: Side := if p != g.right then Left else Right;
    assert s == c.up.side;
    var tmp := g.Child(Other(s));
    if tmp != null && tmp.red {
      FlipBalance(up, s, s0, t, p, sib, g, uncle, h);
      InsertFlip(p, g, tmp, root.node, S, up, s, s0, t, sib, uncle);
      done, node', c', t' := false, g, up, Mk(s, Mk(s0, t, p, false, sib), g, true, Tint(uncle, false));
      FlipInorder(up, s, s0, t, p, sib, g, uncle);
      MkRoot(s, Mk(s0, t, p, false, sib), g, true, Tint(uncle, false));
    } else {
      done, c' := true, up;
      tmp := p.Child(Other(s));
      if node == tmp {
        node' := node;
        MkOn(s, t);
        t' := InsertDouble(root, s, node, p, g, S, up, sib, On(s, t), On(Other(s), t), uncle, h);
      } else {
        node' := p;
        LinedUp(Mem(S), root.node, up, s, t, p, sib, g, uncle, true, false);
        Rotate(root, s, p, g, tmp, S, up, t, sib, uncle);
        t' := Mk(Other(s), Mk(s, sib, g, true, uncle), p, false, t);
        InsertBalance(up, s, t, p, sib, g, uncle, h);
        RotateInorder(s, t, p, sib, g, uncle, true, false, true, false);
        PlugInorder(up, t', Mk(s, Mk(s, t, p, true, sib), g, false, uncle));
        MkRoot(Other(s), Mk(s, sib, g, true, uncle), p, false, t);
      }
    }
  }

  lemma {:induction false} FlipInorder(up: Ctx, s: Side, s0: Side, t: Tree, p: RbNode, sib: Tree, g: RbNode,
                                       uncle: Tree)
    ensures Inorder(Plug(up, Mk(s, Mk(s0, t, p, false, sib), g, true, Tint(uncle, false)))) ==
            Inorder(Plug(up, Mk(s, Mk(s0, t, p, true, sib), g, false, uncle)))
  {
    TintNodes(uncle, false);
    assert Inorder(Mk(s0, t, p, false, sib)) == Inorder(Mk(s0, t, p, true, sib));
    PlugInorder(up, Mk(s, Mk(s0, t, p, false, sib), g, true, Tint(uncle, false)),
      Mk(s, Mk(s0, t, p, true, sib), g, false, uncle));
  }

  /** Cases 2 and 3 of __rb_insert in a row. */
  method InsertDouble(root: RbRoot, s: Side, node: RbNode, p: RbNode, g: RbNode,
                      ghost S: set<RbNode>, ghost up: Ctx, ghost x: Tree, ghost i: Tree, ghost o: Tree, ghost u: Tree,
                        ghost h: nat)
    returns (ghost t': Tree)
    requires At(Mem(S), root.node, up, Mk(s, Mk(Other(s), Mk(s, i, node, true, o), p, true, x), g, false, u))
    requires BalancedCtx(Step(up, s, g, false, u), h) && !IsRed(u)
    requires Balanced(x, h) && Balanced(i, h) && Balanced(o, h) && !IsRed(x) && !IsRed(i) && !IsRed(o)
    modifies root`node, S
    ensures At(Mem(S), root.node, up, t') && t'.Node? && t'.n == node && !t'.red
    ensures Balanced(t', h + 1) && BalancedCtx(up, h + 1)
    ensures Inorder(Plug(up, t')) == Inorder(Plug(up, Mk(s, Mk(Other(s), Mk(s, i, node, true, o), p, true, x), g, false,
            u)))
  {
    hide Nodes, CtxNodes, Sep, SepCtx, Sep3, Rep, RepCtx, At, Mem, Only, Mk, Inorder, Lined, Plug;
    InsertInner(s, node, p, root.node, S, up, x, i, o, g, u);
    MemAll(S);
    ghost var a := Mk(s, x, p, true, i);
    LinedFacts(Mem(S), root.node, up, s, a, node, node, o, g, u, false);
    var tmp := node.Child(Other(s));
    Rotate(root, s, node, g, tmp, S, up, a, o, u);
    t' := Mk(Other(s), Mk(s, o, g, true, u), node, false, a);
    RedBalance(s, x, p, i, h);
    InsertBalance(up, s, a, node, o, g, u, h);
    DoubleInorder(s, x, p, i, node, o, g, u, true, false, true, true, true, false);
    PlugInorder(up, t', Mk(s, Mk(Other(s), Mk(s, i, node, true, o), p, true, x), g, false, u));
    MkRoot(Other(s), Mk(s, o, g, true, u), node, false, a);
  }

  lemma {:induction false} RedBalance(s: Side, x: Tree, p: RbNode, i: Tree, h: nat)
    requires Balanced(x, h) && Balanced(i, h) && !IsRed(x) && !IsRed(i)
    ensures Balanced(Mk(s, x, p, true, i), h)
  {
  }

  /** rb_link_node: hang node, red and childless, into the empty slot on side s of parent. */
  method LinkNode(root: RbRoot, node: RbNode, parent: RbNode?, s: Side, ghost c: Ctx)
    requires root.Valid() && root.tree == Plug(c, Nil) && node !in Nodes(root.tree)
    requires parent == Above(c) && (c.Step? ==> s == c.side)
    modifies root`node, node, if parent == null then {} else {parent}
    ensures At(Mem(CtxNodes(c) + {node}), root.node, c, Node(Nil, node, true, Nil))
  {
    hide Nodes, CtxNodes, Sep, SepCtx, Rep, RepCtx, RedBlack, Plug, Mem;
    ghost var S := CtxNodes(c) + {node};
    ghost var m := Mem(S);
    MemAll(S);
    SlotFacts(root, c, S);
    node.parent, node.red := parent, true;
    node.left, node.right := null, null;
    if parent == null {
      root.node := node;
    } else {
      parent.SetChild(s, node);
    }
    MemAll(S);
    ghost var D := OptUp(c) + {node};
    MemOnly(m, S, D);
    LeafShape(m, old(root.node), c, node, Mem(S), root.node);
  }

  lemma {:induction false} SlotFacts(root: RbRoot, c: Ctx, S: set<RbNode>)
    requires root.Valid() && root.tree == Plug(c, Nil) && CtxNodes(c) <= S
    ensures At(Mem(S), root.node, c, Nil) && CtxNodes(c) == Nodes(root.tree)
    ensures c.Step? ==> c.n in CtxNodes(c) && c.n.Links() == MkCell(c.side, null, Ptr(c.sib), Above(c.up), c.red)
  {
    InorderPlug(c, Nil);
    AtPlug(Mem(Nodes(root.tree)), root.node, c, Nil);
    GrowCtx(Mem(Nodes(root.tree)), Mem(S), root.node, c, null);
  }

  lemma {:induction false} LeafShape(m: Memory, root: RbNode?, c: Ctx, node: RbNode, m': Memory, root': RbNode?)
    requires At(m, root, c, Nil) && node !in CtxNodes(c)
    requires Only(m, m', OptUp(c) + {node}) && Hooked(root, m', root', c, node)
    requires node in m' && m'[node] == Cell(null, null, Above(c), true)
    ensures At(m', root', c, Node(Nil, node, true, Nil))
  {
    Rehook(m, root, m', root', OptUp(c) + {node}, c, null, node);
  }

  /** __rb_insert, called by rb_insert_color on a node that rb_link_node has just linked. */
  method InsertColor(root: RbRoot, node0: RbNode, ghost c0: Ctx)
    requires At(Mem(CtxNodes(c0) + {node0}), root.node, c0, Node(Nil, node0, true, Nil)) && RedBlack(Plug(c0, Nil))
    modifies root, CtxNodes(c0) + {node0}
    ensures root.Valid()
    ensures root.Elements() == Before(c0) + [node0] + After(c0)
  {
    hide Nodes, CtxNodes, Sep, SepCtx, Rep, RepCtx, At, Mem, Plug, Inorder, Before, After;
    ghost var S := CtxNodes(c0) + {node0};
    var node := node0;
    ghost var c, t := c0, Node(Nil, node0, true, Nil);
    ghost var h := SplitBalanced(c0, Nil);
    LeafInorder(c0, node0);
    while true
      invariant At(Mem(S), root.node, c, t) && t.Node? && t.n == node && t.red
      invariant Balanced(t, h) && BalancedCtx(c, h)
      invariant Inorder(Plug(c, t)) == Before(c0) + [node0] + After(c0)
      decreases c
    {
      FocusFacts(S, root.node, c, t);
      var parent := node.parent;
      if parent == null {
        Paint(node, false, root.node, S, c, t);
        TintNodes(t, false);
        PlugInorder(c, t, Tint(t, false));
        t, h := Tint(t, false), h + 1;
        break;
      } else if !parent.red {
        break;
      }
      var done;
      ghost var c', t';
      done, node, c', t' := InsertCases(root, node, parent, S, c, t, h);
      c, t, h := c', t', h + 1;
      if done {
        break;
      }
    }
    LeafNodes(c0, node0);
    Finish(S, root, c, t, h, Before(c0) + [node0] + After(c0));
    root.tree := Plug(c, t);
  }

  lemma {:induction false} LeafInorder(c: Ctx, node: RbNode)
    ensures Inorder(Plug(c, Node(Nil, node, true, Nil))) == Before(c) + [node] + After(c)
  {
    InorderPlug(c, Node(Nil, node, true, Nil));
    assert Inorder(Node(Nil, node, true, Nil)) == [node];
  }

  lemma {:induction false} LeafNodes(c: Ctx, node: RbNode)
    ensures CtxNodes(c) + {node} == Elems(Before(c) + [node] + After(c))
  {
    var t := Node(Nil, node, true, Nil);
    InorderPlug(c, t);
    NodesInorder(Plug(c, t));
    assert Nodes(t) == {node};
    LeafInorder(c, node);
  }

}
