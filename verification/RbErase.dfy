/** Erasure: __rb_erase_augmented and the fix-up loop of ____rb_erase_color
    (include/linux/rbtree_augmented.h, util/rbtree.c). */
module RbErase {
  import opened RbTree

  // ---------------------------------------------------------------- the fix-up loop

  lemma {:induction false} EraseBalance(up: Ctx, s: Side, far: Tree, sib: RbNode, near: Tree, p: RbNode, t: Tree,
                                        pr: bool, h: nat)
    requires Balanced(t, h) && Balanced(near, h) && Balanced(far, h) && IsRed(far)
    requires BalancedCtx(Step(up, Other(s), p, pr, Mk(s, far, sib, false, near)), h + 1)
    ensures var t' := Mk(Other(s), Mk(s, near, p, false, t), sib, pr, Tint(far, false));
      var h' := if pr then h + 1 else h + 2;
      Balanced(t', h') && BalancedCtx(up, h') && (pr ==> RedFits(up))
  {
  }

  /** The assignments of case 4 of ____rb_erase_color. */
  method EraseOuterLinks(root: RbRoot, s: Side, sib: RbNode, p: RbNode, far: RbNode, ghost c: Ctx)
    requires p.parent == Above(c) && sib.Child(s) == far
    requires var near := sib.Child(Other(s));
      sib != p && far != sib && far != p && near != sib && near != p && near != far
        && (near != null ==> near != Above(c)) && far != Above(c)
    requires sib != Above(c) && p != Above(c)
    requires c.Step? ==> c.n.Links() == MkCell(c.side, p, Ptr(c.sib), Above(c.up), c.red) && Ptr(c.sib) != p
    modifies root`node, sib, p, far
    modifies if sib.Child(Other(s)) == null then {} else {sib.Child(Other(s))}
    modifies if p.parent == null then {} else {p.parent}
    ensures sib.Links() == MkCell(s, far, p, Above(c), old(p.red))
    ensures p.Links() == MkCell(s, old(sib.Child(Other(s))), old(p.Child(Other(s))), sib, false)
    ensures far.Links() == old(far.Links()).(parent := sib, red := false)
    ensures var near := old(sib.Child(Other(s))); near != null ==>
            near.Links() == old(sib.Child(Other(s)).Links()).(parent := p)
    ensures c.Top? ==> root.node == sib
    ensures c.Step? ==>
              root.node == old(root.node) && c.n.Links() == MkCell(c.side, sib, Ptr(c.sib), Above(c.up), c.red)
  {
    var near := sib.Child(Other(s));
    p.SetChild(s, near);
    sib.SetChild(Other(s), p);
    far.parent, far.red := sib, false;
    if near != null {
      near.parent := p;
    }
    RotateSetParents(p, sib, root, false, c);
  }

  /** Case 4 of ____rb_erase_color: rotate at the parent and flip colours. */
  method EraseOuter(root: RbRoot, s: Side, sib: RbNode, p: RbNode, far: RbNode, ghost pr: bool,
                    ghost S: set<RbNode>, ghost up: Ctx, ghost a: Tree, ghost q: RbNode?, ghost b: Tree, ghost t: Tree)
    requires Lined(Mem(S), root.node, up, s, a, q, sib, b, p, t, pr) && a.Node? && a.n == far
    modifies root`node, S
    ensures At(Mem(S), root.node, up, Mk(Other(s), Mk(s, b, p, false, t), sib, pr, Tint(a, false)))
  {
    hide Nodes, CtxNodes, Sep, SepCtx, Sep3, Rep, RepCtx, Mk, At, Mem, Only, Lined;
    ghost var m := Mem(S);
    LinedFacts(m, root.node, up, s, a, q, sib, b, p, t, pr);
    MemAll(S);
    EraseOuterLinks(root, s, sib, p, far, up);
    MemOnly(m, S, {sib, p} + Opt(a) + Opt(b) + OptUp(up));
    MemAll(S);
    OuterShape(m, old(root.node), up, s, a, q, sib, b, p, t, pr, false, false, Mem(S), root.node);
  }

  /** The assignments of case 3 of ____rb_erase_color. */
  method EraseInnerLinks(s: Side, sib: RbNode, near: RbNode, p: RbNode)
    requires sib != near && sib != p && near != p && sib.Child(Other(s)) == near
    requires near.Child(s) != near && near.Child(s) != sib && near.Child(s) != p
    modifies sib, near, p, if near.Child(s) == null then {} else {near.Child(s)}
    ensures sib.Links() == MkCell(s, old(sib.Child(s)), old(near.Child(s)), old(sib.parent), old(sib.red))
    ensures near.Links() == MkCell(s, sib, old(near.Child(Other(s))), old(near.parent), old(near.red))
    ensures p.Links() == MkCell(s, near, old(p.Child(Other(s))), old(p.parent), old(p.red))
    ensures var tmp := old(near.Child(s)); tmp != null ==>
            tmp.Links() == old(near.Child(s).Links()).(parent := sib, red := false)
  {
    var tmp := near.Child(s);
    sib.SetChild(Other(s), tmp);
    near.SetChild(s, sib);
    p.SetChild(s, near);
    if tmp != null {
      tmp.parent, tmp.red := sib, false;
    }
  }

  /** Case 3 of ____rb_erase_color: rotate at the sibling. */
  method EraseInner(s: Side, sib: RbNode, near: RbNode, p: RbNode, root: RbNode?, ghost pr: bool,
                    ghost S: set<RbNode>, ghost up: Ctx, ghost x: Tree, ghost i: Tree, ghost o: Tree, ghost t: Tree)
    requires At(Mem(S), root, up, Mk(s, Mk(Other(s), Mk(s, i, near, true, o), sib, false, x), p, pr, t)) && !IsRed(i)
    modifies S
    ensures Lined(Mem(S), root, up, s, Mk(s, x, sib, false, i), p, near, o, p, t, pr)
  {
    hide Nodes, CtxNodes, Sep, SepCtx, Sep3, Rep, RepCtx, Mk, At, Mem, Only, Lined;
    ghost var m := Mem(S);
    InnerFacts(m, root, up, s, x, sib, i, near, o, p, t, false, pr);
    MemAll(S);
    ghost var D := {sib, near, p} + Opt(i);
    assert sib.Child(s) == Ptr(x) && near.Child(Other(s)) == Ptr(o) && near.Child(s) == Ptr(i)
      && p.Child(Other(s)) == Ptr(t);
    hide MkCell, Ptr;
    EraseInnerLinks(s, sib, near, p);
    MemOnly(m, S, D);
    MemAll(S);
    InnerShape(m, root, up, s, x, sib, i, near, o, p, t, false, pr, p, Mem(S));
  }

  /** The node above the focus and the sibling of the focus. */
  lemma {:induction false} SibFacts(m: Memory, root: RbNode?, c: Ctx, t: Tree)
    requires At(m, root, c, t) && c.Step? && c.sib.Node?
    ensures c.n in m && m[c.n] == MkCell(c.side, Ptr(t), c.sib.n, Above(c.up), c.red) && Ptr(t) != c.sib.n
    ensures At(m, root, c.up, Mk(Other(c.side), c.sib, c.n, c.red, t))
    ensures var o := Other(c.side); var far, near := On(o, c.sib), On(c.side, c.sib);
      && c.sib.n in m && m[c.sib.n] == MkCell(o, Ptr(far), Ptr(near), c.n, c.sib.red)
      && (far.Node? ==> far.n in m && m[far.n].red == far.red)
      && (near.Node? ==> near.n in m && m[near.n].red == near.red)
  {
    hide Nodes, CtxNodes, Sep, SepCtx, Rep, RepCtx, At, Mk;
    var o := Other(c.side);
    var far, near := On(o, c.sib), On(c.side, c.sib);
    Focus(m, root, c, t);
    MkOn(o, c.sib);
    MkFlip(c.side, t, c.n, c.red, c.sib);
    AtApart(m, root, c.up, o, o, far, c.sib.n, near, c.n, t, c.sib.red, c.red);
    RootPtr(t);
    RootPtr(c.sib);
    RootNode(m, far, c.sib.n);
    RootNode(m, near, c.sib.n);
    SibPtr(m, root, c, t);
  }

  lemma {:induction false} SibPtr(m: Memory, root: RbNode?, c: Ctx, t: Tree)
    requires At(m, root, c, t) && c.Step? && c.sib.Node?
    ensures Ptr(t) != c.sib.n
  {
  }

  /** Case 1 of ____rb_erase_color: the sibling is red.  Afterwards it is black and p is red. */
  method EraseRedSibling(root: RbRoot, s: Side, sib: RbNode, p: RbNode, ghost S: set<RbNode>, ghost c: Ctx,
                         ghost t: Tree, ghost h: nat)
    returns (sib': RbNode, ghost c': Ctx)
    requires At(Mem(S), root.node, c, t) && c.Step? && c.n == p && IsRed(c.sib) && c.sib.n == sib && s == Other(c.side)
    requires BalancedCtx(c, h + 1)
    modifies root`node, S
    ensures At(Mem(S), root.node, c', t) && c'.Step? && c'.n == p && c'.side == c.side && c'.red
    ensures c'.sib.Node? && !c'.sib.red && c'.sib.n == sib' && BalancedCtx(c', h + 1)
    ensures Inorder(Plug(c', t)) == Inorder(Plug(c, t))
  {
    hide Nodes, CtxNodes, Sep, SepCtx, Sep3, Rep, RepCtx, At, Mem, Only, Mk, Inorder, Lined, Plug;
    ghost var up, far, near := c.up, On(s, c.sib), On(Other(s), c.sib);
    assert Balanced(near, h + 1);
    MemAll(S);
    SibFacts(Mem(S), root.node, c, t);
    MkOn(s, c.sib);
    LinedUp(Mem(S), root.node, up, s, far, sib, near, p, t, true, false);
    var tmp := sib.Child(Other(s));
    Rotate(root, s, sib, p, tmp, S, up, far, near, t);
    sib' := tmp;
    c' := Step(Step(up, Other(s), sib, false, far), Other(s), p, true, near);
    MkFlip(s, near, p, true, t);
    Focus(Mem(S), root.node, c', t);
    Focus(Mem(S), root.node, c'.up, Mk(Other(s), t, p, true, near));
    RotateInorder(s, far, sib, near, p, t, true, false, true, false);
    PlugUp(c', t);
    PlugOne(c, t);
    MkFlip(s, c.sib, p, false, t);
    PlugInorder(up, Mk(Other(s), Mk(s, near, p, true, t), sib, false, far), Mk(s, c.sib, p, false, t));
  }

  lemma {:induction false} PlugOne(c: Ctx, t: Tree)
    requires c.Step?
    ensures Plug(c, t) == Plug(c.up, Mk(c.side, t, c.n, c.red, c.sib))
  {
  }

  /** Case 2 of ____rb_erase_color: the sibling's colour flips; a red parent turns black and ends the
      loop, a black one becomes the node to look at. */
  method EraseFlip(root: RbNode?, sib: RbNode, p: RbNode, ghost S: set<RbNode>, ghost c: Ctx, ghost t: Tree,
                   ghost h: nat)
    returns (red: bool, ghost t': Tree)
    requires At(Mem(S), root, c, t) && c.Step? && c.n == p && c.sib.Node? && c.sib.n == sib && !c.sib.red
    requires !IsRed(c.sib.l) && !IsRed(c.sib.r)
    requires Balanced(t, h) && !IsRed(t) && BalancedCtx(c, h + 1)
    modifies S
    ensures At(Mem(S), root, c.up, t') && t'.Node? && t'.n == p && !t'.red && red == c.red
    ensures Balanced(t', h + 1) && BalancedCtx(c.up, if red then h + 1 else h + 2)
    ensures Inorder(Plug(c.up, t')) == Inorder(Plug(c, t))
  {
    hide Nodes, CtxNodes, Sep, SepCtx, Rep, RepCtx, At, Mem, Only, Inorder, Plug;
    ghost var cs := Step(c.up, Other(c.side), p, c.red, t);
    ghost var sib' := Tint(c.sib, true);
    Focus(Mem(S), root, c, t);
    Focus(Mem(S), root, cs, c.sib);
    Paint(sib, true, root, S, cs, c.sib);
    Focus(Mem(S), root, cs, sib');
    t' := Mk(c.side, t, p, c.red, sib');
    PlugOne(c, t);
    FlipOrder(c, t);
    FocusFacts(S, root, c.up, t');
    red := p.red;
    if red {
      Paint(p, false, root, S, c.up, t');
      t' := Mk(c.side, t, p, false, sib');
    }
  }

  lemma {:induction false} FlipOrder(c: Ctx, t: Tree)
    requires c.Step?
    ensures var t0 := Mk(c.side, t, c.n, c.red, c.sib);
      forall red: bool :: Inorder(Plug(c.up, Mk(c.side, t, c.n, red, Tint(c.sib, true)))) == Inorder(Plug(c.up, t0))
  {
    TintNodes(c.sib, true);
    forall red: bool
      ensures Inorder(Plug(c.up, Mk(c.side, t, c.n, red, Tint(c.sib, true)))) ==
              Inorder(Plug(c.up, Mk(c.side, t, c.n, c.red, c.sib)))
    {
      PlugInorder(c.up, Mk(c.side, t, c.n, red, Tint(c.sib, true)), Mk(c.side, t, c.n, c.red, c.sib));
    }
  }

  /** Case 4 of ____rb_erase_color, reached directly. */
  method EraseSingle(root: RbRoot, s: Side, sib: RbNode, p: RbNode, far: RbNode,
                     ghost S: set<RbNode>, ghost c: Ctx, ghost t: Tree, ghost h: nat)
    returns (ghost t': Tree)
    requires At(Mem(S), root.node, c, t) && c.Step? && c.n == p && c.sib.Node? && c.sib.n == sib && !c.sib.red
             && s == Other(c.side)
    requires IsRed(On(s, c.sib)) && On(s, c.sib).n == far
    requires Balanced(t, h) && BalancedCtx(c, h + 1)
    modifies root`node, S
    ensures At(Mem(S), root.node, c.up, t') && (IsRed(t') ==> RedFits(c.up))
    ensures var h' := if c.red then h + 1 else h + 2; Balanced(t', h') && BalancedCtx(c.up, h')
    ensures Inorder(Plug(c.up, t')) == Inorder(Plug(c, t))
  {
    hide Nodes, CtxNodes, Sep, SepCtx, Sep3, Rep, RepCtx, At, Mem, Only, Mk, Inorder, Lined, Plug;
    ghost var up, a, b := c.up, On(s, c.sib), On(Other(s), c.sib);
    SibFacts(Mem(S), root.node, c, t);
    MkOn(s, c.sib);
    LinedUp(Mem(S), root.node, up, s, a, sib, b, p, t, false, c.red);
    EraseOuter(root, s, sib, p, far, c.red, S, up, a, sib, b, t);
    t' := Mk(Other(s), Mk(s, b, p, false, t), sib, c.red, Tint(a, false));
    EraseBalance(up, s, a, sib, b, p, t, c.red, h);
    MkRoot(Other(s), Mk(s, b, p, false, t), sib, c.red, Tint(a, false));
    TintNodes(a, false);
    RotateInorder(s, Tint(a, false), sib, b, p, t, false, c.red, false, c.red);
    PlugOne(c, t);
    MkFlip(s, c.sib, p, c.red, t);
    MkInorder(s, a, sib, false, b);
    MkInorder(s, Tint(a, false), sib, false, b);
    MkInorder(s, c.sib, p, c.red, t);
    MkInorder(s, Mk(s, Tint(a, false), sib, false, b), p, c.red, t);
    PlugInorder(up, t', Mk(s, c.sib, p, c.red, t));
  }

  lemma {:induction false} EraseDoubleBalance(up: Ctx, s: Side, x: Tree, sib: RbNode, i: Tree, n: RbNode, o: Tree,
                                              p: RbNode, t: Tree, pr: bool, h: nat)
    requires Balanced(t, h) && !IsRed(x)
    requires BalancedCtx(Step(up, Other(s), p, pr, Mk(Other(s), Mk(s, i, n, true, o), sib, false, x)), h + 1)
    ensures var t' := Mk(Other(s), Mk(s, o, p, false, t), n, pr, Mk(s, x, sib, false, i));
      var h' := if pr then h + 1 else h + 2;
      Balanced(t', h') && BalancedCtx(up, h') && (pr ==> RedFits(up)) && !IsRed(i)
  {
    var N := Mk(s, i, n, true, o);
    assert Balanced(Mk(Other(s), N, sib, false, x), h + 1);
    assert Balanced(N, h) && Balanced(x, h);
    assert Balanced(Mk(s, o, p, false, t), h + 1) && Balanced(Mk(s, x, sib, false, i), h + 1);
  }

  /** Cases 3 and 4 of ____rb_erase_color in a row. */
  method EraseDouble(root: RbRoot, s: Side, sib: RbNode, p: RbNode, near: RbNode,
                     ghost S: set<RbNode>, ghost c: Ctx, ghost t: Tree, ghost h: nat)
    returns (ghost t': Tree)
    requires At(Mem(S), root.node, c, t) && c.Step? && c.n == p && c.sib.Node? && c.sib.n == sib && !c.sib.red
             && s == Other(c.side)
    requires IsRed(On(Other(s), c.sib)) && On(Other(s), c.sib).n == near && !IsRed(On(s, c.sib))
    requires Balanced(t, h) && BalancedCtx(c, h + 1)
    modifies root`node, S
    ensures At(Mem(S), root.node, c.up, t') && (IsRed(t') ==> RedFits(c.up))
    ensures var h' := if c.red then h + 1 else h + 2; Balanced(t', h') && BalancedCtx(c.up, h')
    ensures Inorder(Plug(c.up, t')) == Inorder(Plug(c, t))
  {
    hide Nodes, CtxNodes, Sep, SepCtx, Sep3, Rep, RepCtx, At, Mem, Only, Mk, Inorder, Lined, Plug, Balanced,
      BalancedCtx;
    ghost var up, x, N := c.up, On(s, c.sib), On(Other(s), c.sib);
    ghost var i, o := On(s, N), On(Other(s), N);
    SibFacts(Mem(S), root.node, c, t);
    MkOn(s, N);
    MkOn(s, c.sib);
    MkFlip(s, x, sib, false, N);
    EraseDoubleBalance(up, s, x, sib, i, near, o, p, t, c.red, h);
    EraseInner(s, sib, near, p, root.node, c.red, S, up, x, i, o, t);
    ghost var a := Mk(s, x, sib, false, i);
    MkRoot(s, x, sib, false, i);
    EraseOuter(root, s, near, p, sib, c.red, S, up, a, p, o, t);
    assert Tint(a, false) == a;
    t' := Mk(Other(s), Mk(s, o, p, false, t), near, c.red, a);
    MkRoot(Other(s), Mk(s, o, p, false, t), near, c.red, a);
    DoubleInorder(s, x, sib, i, near, o, p, t, false, c.red, false, true, false, c.red);
    PlugOne(c, t);
    MkFlip(s, c.sib, p, c.red, t);
    PlugInorder(up, t', Mk(s, c.sib, p, c.red, t));
  }

  /** One turn of the loop of ____rb_erase_color with a black sibling. */
  method EraseBlackSibling(root: RbRoot, s: Side, sib: RbNode, p: RbNode,
                           ghost S: set<RbNode>, ghost c: Ctx, ghost t: Tree, ghost h: nat)
    returns (done: bool, ghost t': Tree, ghost h': nat)
    requires At(Mem(S), root.node, c, t) && c.Step? && c.n == p && c.sib.Node? && c.sib.n == sib && !c.sib.red
             && s == Other(c.side)
    requires Balanced(t, h) && !IsRed(t) && BalancedCtx(c, h + 1)
    modifies root`node, S
    ensures At(Mem(S), root.node, c.up, t') && Balanced(t', h')
    ensures done ==> BalancedCtx(c.up, h') && (IsRed(t') ==> RedFits(c.up))
    ensures !done ==> BalancedCtx(c.up, h' + 1) && t'.Node? && !t'.red && t'.n == p && !c.red
    ensures Inorder(Plug(c.up, t')) == Inorder(Plug(c, t))
  {
    hide Nodes, CtxNodes, Sep, SepCtx, Sep3, Rep, RepCtx, At, Mem, Only, Mk, Inorder, Lined, Plug, Balanced,
      BalancedCtx;
    MemAll(S);
    SibFacts(Mem(S), root.node, c, t);
    var tmp1 := sib.Child(s);
    if tmp1 == null || !tmp1.red {
      var tmp2 := sib.Child(Other(s));
      if tmp2 == null || !tmp2.red {
        done, t' := EraseFlip(root.node, sib, p, S, c, t, h);
        h' := h + 1;
      } else {
        t' := EraseDouble(root, s, sib, p, tmp2, S, c, t, h);
        done, h' := true, if c.red then h + 1 else h + 2;
      }
    } else {
      t' := EraseSingle(root, s, sib, p, tmp1, S, c, t, h);
      done, h' := true, if c.red then h + 1 else h + 2;
    }
  }

  /** ____rb_erase_color: the hole of c0 is empty and one black node short. */
  method EraseColor(root: RbRoot, parent0: RbNode, ghost S: set<RbNode>, ghost c0: Ctx, ghost order: seq<RbNode>)
    requires At(Mem(S), root.node, c0, Nil) && c0.Step? && c0.n == parent0 && BalancedCtx(c0, 1)
    requires Inorder(Plug(c0, Nil)) == order && S == Elems(order)
    modifies root, S
    ensures root.Valid() && root.Elements() == order
  {
    hide Nodes, CtxNodes, Sep, SepCtx, Rep, RepCtx, At, Mem, Plug, Inorder;
    var parent: RbNode, node: RbNode? := parent0, null;
    ghost var c, t, h := c0, Nil, 0;
    while true
      invariant At(Mem(S), root.node, c, t) && c.Step? && c.n == parent && node == Ptr(t) && !IsRed(t)
      invariant Balanced(t, h) && BalancedCtx(c, h + 1)
      invariant Inorder(Plug(c, t)) == order
      decreases c
    {
      assert c.sib.Node?;
      SibFacts(Mem(S), root.node, c, t);
      MemAll(S);
      var sib: RbNode? := parent.right;
      var s: Side := if node != sib then Right else Left;
      sib := parent.Child(s);
      ghost var c1 := c;
      var sibling: RbNode := sib;
      if sib.red {
        sibling, c1 := EraseRedSibling(root, s, sib, parent, S, c, t, h);
      }
      var done;
      ghost var up := c1.up;
      done, t, h := EraseBlackSibling(root, s, sibling, parent, S, c1, t, h);
      c := up;
      if done {
        break;
      }
      FocusFacts(S, root.node, c, t);
      node := parent;
      if parent.parent == null {
        break;
      }
      parent := parent.parent;
    }
    Finish(S, root, c, t, h, order);
    root.tree := Plug(c, t);
  }

  // ---------------------------------------------------------------- taking a node out

  /** node has at most one child, k, which takes its place and colour. */
  lemma {:induction false} SpliceShape(m: Memory, root: RbNode?, c: Ctx, s: Side, k: Tree, node: RbNode, nr: bool,
                                       m': Memory, root': RbNode?)
    requires At(m, root, c, Mk(s, k, node, nr, Nil))
    requires Only(m, m', Opt(k) + OptUp(c)) && Hooked(root, m', root', c, Ptr(k))
    requires k.Node? ==> k.n in m && m'[k.n] == m[k.n].(parent := Above(c), red := nr)
    ensures At(m', root', c, Tint(k, nr)) && node !in CtxNodes(c) && node !in Nodes(k)
  {
    hide CtxNodes, SepCtx, RepCtx, Mk, Hooked;
    var D := Opt(k) + OptUp(c);
    SepMk(s, k, node, nr, Nil);
    RepMk(m, s, k, node, nr, Nil, Above(c));
    TopNode(c);
    RootPtr(k);
    TintNodes(k, nr);
    hide Nodes, Sep, Rep, Ptr;
    Rehook(m, root, m', root', D, c, node, Ptr(k));
    Reroot(m, m', D, k, node, Above(c), nr);
  }

  lemma {:induction false} SpliceBalance(s: Side, k: Tree, node: RbNode, nr: bool, h: nat)
    requires Balanced(Mk(s, k, node, nr, Nil), h)
    ensures k.Node? ==> !nr && Balanced(Tint(k, nr), h)
    ensures k.Nil? ==> h == if nr then 0 else 1
  {
    assert k.Node? ==> !nr && k.red && Balanced(k.l, 0) && Balanced(k.r, 0);
  }

  // ------- the successor: the context of a node far below another

  /** The context `path`, which ends at a hole of `outer`. */
  function Compose(path: Ctx, outer: Ctx): Ctx {
    if path.Top? then outer else Step(Compose(path.up, outer), path.side, path.n, path.red, path.sib)
  }

  /** The uppermost node of a path. */
  function Last(path: Ctx): RbNode
    requires path.Step?
  {
    if path.up.Top? then path.n else Last(path.up)
  }

  function Head(path: Ctx, hole: RbNode?): RbNode? {
    if path.Top? then hole else Last(path)
  }

  predicate AllLeft(path: Ctx) {
    path.Step? ==> path.side == Left && AllLeft(path.up)
  }

  /** The links of m spell out path between the node `top` above it and the pointer `hole` below. */
  ghost predicate RepPath(m: Memory, path: Ctx, top: RbNode, hole: RbNode?) {
    path.Step? ==>
      && path.n in m && m[path.n] == MkCell(path.side, hole, Ptr(path.sib), if path.up.Top? then top
        else path.up.n, path.red)
      && Rep(m, path.sib, path.n)
      && RepPath(m, path.up, top, path.n)
  }

  lemma {:induction false} PlugCompose(path: Ctx, outer: Ctx, t: Tree)
    ensures Plug(Compose(path, outer), t) == Plug(outer, Plug(path, t))
  {
    if path.Step? {
      PlugCompose(path.up, outer, Mk(path.side, t, path.n, path.red, path.sib));
    }
  }

  lemma {:induction false} ComposeRep(m: Memory, root: RbNode?, path: Ctx, up: Ctx, s: Side, n: RbNode, nr: bool,
                                      x: Tree, hole: RbNode?)
    ensures RepCtx(m, root, Compose(path, Step(up, s, n, nr, x)), hole) <==>
      && RepPath(m, path, n, hole)
      && n in m && m[n] == MkCell(s, Head(path, hole), Ptr(x), Above(up), nr) && Rep(m, x, n) && RepCtx(m, root, up, n)
  {
    if path.Step? {
      ComposeRep(m, root, path.up, up, s, n, nr, x, path.n);
      assert Head(path.up, path.n) == Head(path, hole);
    }
  }

  lemma {:induction false} ComposeSep(path: Ctx, outer: Ctx)
    ensures CtxNodes(Compose(path, outer)) == CtxNodes(path) + CtxNodes(outer)
    ensures SepCtx(Compose(path, outer)) <==> SepCtx(path) && SepCtx(outer) && CtxNodes(path) !! CtxNodes(outer)
  {
    if path.Step? {
      ComposeSep(path.up, outer);
    }
  }

  lemma {:induction false} LastIn(path: Ctx)
    requires path.Step?
    ensures Last(path) in CtxNodes(path) && (path.up.Step? && SepCtx(path) ==>
              Last(path) != path.n && Last(path) in CtxNodes(path.up))
  {
    if path.up.Step? {
      LastIn(path.up);
    }
  }

  /** The uppermost node of a path gets another parent. */
  lemma {:induction false} PathTop(m: Memory, m': Memory, D: set<RbNode>, path: Ctx, top: RbNode, top': RbNode,
                                   hole: RbNode?)
    requires RepPath(m, path, top, hole) && SepCtx(path) && Only(m, m', D)
    requires path.Step? ==>
               D * CtxNodes(path) <= {Last(path)} && Last(path) in m && Last(path) in m'
               && m'[Last(path)] == m[Last(path)].(parent := top')
    ensures RepPath(m', path, top', hole)
  {
    if path.Step? {
      LastIn(path);
      forall n | n in D
        ensures n !in Nodes(path.sib) && (n == path.n || n in CtxNodes(path.up) ==> n == Last(path))
      {
        if n in CtxNodes(path) {
          assert n in D * CtxNodes(path);
        }
      }
      Frame(m, m', D, path.sib, path.n);
      PathTop(m, m', D, path.up, top, top', path.n);
    }
  }

  /** The cells after __rb_erase_augmented has put the successor s of n, at the end of path, in n's
      place; k is what hung below s. */
  ghost predicate Moved(m: Memory, root: RbNode?, m': Memory, root': RbNode?, c: Ctx, x: Tree, nr: bool, path: Ctx,
                        s: RbNode, k: Tree) {
    && Only(m, m', {s} + Opt(x) + Opt(k) + OptUp(c) + OptUp(path) + (if path.Top? then {} else {Last(path)}))
    && Hooked(root, m', root', c, s)
    && s in m' && m'[s] == Cell(Ptr(x), Head(path, Ptr(k)), Above(c), nr)
    && (x.Node? ==> x.n in m && m'[x.n] == m[x.n].(parent := s))
    && (k.Node? ==> k.n in m && m'[k.n] == m[k.n].(parent := (if path.Top? then s else path.n), red := false))
    && (path.Step? ==>
        && path.n in m && Last(path) in m
        && m'[path.n] == m[path.n].(left := Ptr(k), parent := if path.up.Top? then s else m[path.n].parent)
        && (path.up.Step? ==> m'[Last(path)] == m[Last(path)].(parent := s)))
  }

  /** Everything below and around the node to erase is disjoint. */
  predicate MoveSep(c: Ctx, x: Tree, n: RbNode, path: Ctx, s: RbNode, k: Tree) {
    && SepCtx(c) && Sep(x) && SepCtx(path) && Sep(k) && n != s
    && n !in CtxNodes(c) && n !in Nodes(x) && n !in CtxNodes(path) && n !in Nodes(k)
    && s !in CtxNodes(c) && s !in Nodes(x) && s !in CtxNodes(path) && s !in Nodes(k)
    && CtxNodes(c) !! Nodes(x) && CtxNodes(c) !! CtxNodes(path) && CtxNodes(c) !! Nodes(k)
    && Nodes(x) !! CtxNodes(path) && Nodes(x) !! Nodes(k) && CtxNodes(path) !! Nodes(k)
  }

  /** The tree around n and its successor s, taken apart. */
  lemma {:induction false} MoveParts(m: Memory, root: RbNode?, c: Ctx, x: Tree, n: RbNode, nr: bool, path: Ctx,
                                     s: RbNode, sr: bool, k: Tree)
    requires At(m, root, c, Node(x, n, nr, Plug(path, Node(Nil, s, sr, k))))
    ensures MoveSep(c, x, n, path, s, k)
    ensures RepCtx(m, root, c, n) && Rep(m, x, n) && RepPath(m, path, n, s) && Rep(m, k, s)
    ensures n in m && m[n] == Cell(Ptr(x), Head(path, s), Above(c), nr)
    ensures s in m && m[s] == Cell(null, Ptr(k), if path.Top? then n else path.n, sr)
  {
    var y := Node(Nil, s, sr, k);
    var outer := Step(c, Right, n, nr, x);
    Focus(m, root, outer, Plug(path, y));
    PlugCompose(path, outer, y);
    AtPlug(m, root, outer, Plug(path, y));
    AtPlug(m, root, Compose(path, outer), y);
    ComposeSep(path, outer);
    ComposeRep(m, root, path, c, Right, n, nr, x, s);
  }

  lemma {:induction false} MoveMiss(c: Ctx, x: Tree, n: RbNode, path: Ctx, s: RbNode, k: Tree, D: set<RbNode>)
    requires MoveSep(c, x, n, path, s, k)
    requires D == {s} + Opt(x) + Opt(k) + OptUp(c) + OptUp(path) + (if path.Top? then {} else {Last(path)})
    ensures D * CtxNodes(c) <= OptUp(c) && D * Nodes(x) <= Opt(x) && D * Nodes(k) <= Opt(k)
    ensures path.Step? ==> D * CtxNodes(path) <= {path.n, Last(path)}
  {
    OptNodes(x);
    OptNodes(k);
    TopNode(c);
    TopNode(path);
    if path.Step? {
      LastIn(path);
    }
    hide Nodes, CtxNodes, Sep, SepCtx, Opt, Last;
    assert OptUp(c) <= CtxNodes(c) && OptUp(path) <= CtxNodes(path);
  }

  lemma {:induction false} PathMoved(m: Memory, m': Memory, D: set<RbNode>, path: Ctx, top: RbNode, top': RbNode,
                                     hole: RbNode?, hole': RbNode?)
    requires RepPath(m, path, top, hole) && SepCtx(path) && AllLeft(path) && Only(m, m', D)
    requires path.Step? ==>
      && D * CtxNodes(path) <= {path.n, Last(path)} && path.n in m && Last(path) in m && path.n in m'
        && Last(path) in m'
      && m'[path.n] == m[path.n].(left := hole', parent := if path.up.Top? then top' else m[path.n].parent)
      && (path.up.Step? ==> m'[Last(path)] == m[Last(path)].(parent := top'))
    ensures RepPath(m', path, top', hole')
  {
    if path.Step? {
      LastIn(path);
      forall n | n in D
        ensures n !in Nodes(path.sib) && (n in CtxNodes(path.up) ==> n == Last(path))
      {
        if n in Nodes(path.sib) || n in CtxNodes(path.up) {
          assert n in D * CtxNodes(path);
        }
      }
      Frame(m, m', D, path.sib, path.n);
      assert path.up.Step? ==> Last(path.up) == Last(path);
      PathTop(m, m', D, path.up, top, top', path.n);
    }
  }

  lemma {:induction false} MovedAt(m: Memory, root: RbNode?, c: Ctx, x: Tree, n: RbNode, nr: bool, path: Ctx, s: RbNode,
                                   k: Tree)
    requires MoveSep(c, x, n, path, s, k)
    requires RepCtx(m, root, Compose(path, Step(c, Right, s, nr, x)), Ptr(k))
    requires Rep(m, Tint(k, false), if path.Top? then s else path.n)
    ensures At(m, root, Compose(path, Step(c, Right, s, nr, x)), Tint(k, false))
    ensures n !in CtxNodes(Compose(path, Step(c, Right, s, nr, x))) && n !in Nodes(k)
  {
    var outer := Step(c, Right, s, nr, x);
    ComposeSep(path, outer);
    assert CtxNodes(outer) == CtxNodes(c) + {s} + Nodes(x) && SepCtx(outer);
    assert Above(Compose(path, outer)) == if path.Top? then s else path.n;
    hide Compose, CtxNodes, SepCtx, Rep, RepCtx;
    TintNodes(k, false);
  }

  /** __rb_erase_augmented with two children: s, at the end of the leftmost path of n's right subtree,
      takes n's place and colour, and k takes the place of s. */
  lemma {:induction false} MoveShape(m: Memory, root: RbNode?, c: Ctx, x: Tree, n: RbNode, nr: bool, path: Ctx,
                                     s: RbNode, sr: bool, k: Tree,
                                     m': Memory, root': RbNode?)
    requires At(m, root, c, Node(x, n, nr, Plug(path, Node(Nil, s, sr, k)))) && AllLeft(path)
    requires Moved(m, root, m', root', c, x, nr, path, s, k)
    ensures At(m', root', Compose(path, Step(c, Right, s, nr, x)), Tint(k, false))
    ensures n !in CtxNodes(Compose(path, Step(c, Right, s, nr, x))) && n !in Nodes(k)
  {
    hide Nodes, CtxNodes, Sep, SepCtx, Rep, RepCtx, At, Plug, Hooked, Only, RepPath, Compose;
    var D := {s} + Opt(x) + Opt(k) + OptUp(c) + OptUp(path) + (if path.Top? then {} else {Last(path)});
    MoveParts(m, root, c, x, n, nr, path, s, sr, k);
    OnlyKeys(m, m', D);
    MoveMiss(c, x, n, path, s, k, D);
    Rehook(m, root, m', root', D, c, n, s);
    Reparent(m, m', D, x, n, s);
    Reroot(m, m', D, k, s, if path.Top? then s else path.n, false);
    PathMoved(m, m', D, path, n, s, s, Ptr(k));
    TintNodes(k, false);
    ComposeRep(m', root', path, c, Right, s, nr, x, Ptr(k));
    MovedAt(m', root', c, x, n, nr, path, s, k);
  }

  /** The one-child case of __rb_erase_augmented: the child, if any, takes node's place and colour. */
  method EraseOne(root: RbRoot, node: RbNode, child: RbNode?, ghost S: set<RbNode>, ghost c: Ctx, ghost s: Side,
                  ghost k: Tree, ghost nr: bool)
    requires At(Mem(S), root.node, c, Mk(s, k, node, nr, Nil)) && child == Ptr(k)
    modifies root`node, S
    ensures At(Mem(S), root.node, c, Tint(k, nr)) && node !in CtxNodes(c) && node !in Nodes(k)
    ensures node.Links() == old(node.Links())
  {
    hide Nodes, CtxNodes, Sep, SepCtx, Rep, RepCtx, At, Mem, Only, Mk;
    ghost var m := Mem(S);
    MemAll(S);
    OneFacts(m, root.node, c, s, k, node, nr);
    ghost var D := Opt(k) + OptUp(c);
    var parent := node.parent;
    ChangeChild(node, child, parent, root, c);
    if child != null {
      child.parent, child.red := node.parent, node.red;
    }
    MemOnly(m, S, D);
    MemAll(S);
    SpliceShape(m, old(root.node), c, s, k, node, nr, Mem(S), root.node);
  }

  lemma {:induction false} OneFacts(m: Memory, root: RbNode?, c: Ctx, s: Side, k: Tree, node: RbNode, nr: bool)
    requires At(m, root, c, Mk(s, k, node, nr, Nil))
    ensures node in m && m[node].parent == Above(c) && m[node].red == nr && node != Ptr(k) && node != Above(c)
    ensures k.Node? ==> k.n in m && k.n != Above(c)
    ensures c.Step? ==> c.n in m && m[c.n] == MkCell(c.side, node, Ptr(c.sib), Above(c.up), c.red) && Ptr(c.sib) != node
  {
    hide Mk, CtxNodes, SepCtx, RepCtx;
    SepMk(s, k, node, nr, Nil);
    RepMk(m, s, k, node, nr, Nil, Above(c));
    HoleFacts(m, root, c, node);
    RootNode(m, k, node);
  }

  /** Case 2 of __rb_erase_augmented: the successor is node's right child. */
  method EraseNextLinks(root: RbRoot, node: RbNode, successor: RbNode, ghost c: Ctx)
    requires node.right == successor && node.left != null && successor.left == null && node.parent == Above(c)
    requires node != successor && node.left != node && node.left != successor
    requires node != Above(c) && successor != Above(c) && node.left != Above(c)
    requires var child2 := successor.right; child2 != null ==>
               child2 != node && child2 != successor && child2 != node.left && child2 != Above(c)
    requires c.Step? ==> c.n.Links() == MkCell(c.side, node, Ptr(c.sib), Above(c.up), c.red) && Ptr(c.sib) != node
    modifies root`node, successor, node.left, if successor.right == null then {}
        else {successor.right}, if node.parent == null then {} else {node.parent}
    ensures successor.Links() == old(Cell(node.left, successor.right, node.parent, node.red))
    ensures old(node.left).Links() == old(node.left.Links()).(parent := successor)
    ensures var child2 := old(successor.right); child2 != null ==>
            child2.Links() == old(successor.right.Links()).(parent := successor, red := false)
    ensures c.Top? ==> root.node == successor
    ensures c.Step? ==>
              root.node == old(root.node) && c.n.Links() == MkCell(c.side, successor, Ptr(c.sib), Above(c.up), c.red)
  {
    var child2 := successor.right;
    var tmp := node.left;
    successor.left := tmp;
    tmp.parent := successor;
    ChangeChild(node, successor, node.parent, root, c);
    successor.parent, successor.red := node.parent, node.red;
    if child2 != null {
      child2.parent, child2.red := successor, false;
    }
  }

  /** Case 3 of __rb_erase_augmented: the successor is further down; parent is the node above it. */
  method EraseFarLinks(root: RbRoot, node: RbNode, child: RbNode, parent: RbNode, successor: RbNode, ghost c: Ctx)
    requires node.right == child && node.left != null && successor.left == null && node.parent == Above(c)
             && parent.left == successor
    requires node != successor && node != child && node != parent && successor != child && successor != parent
    requires node.left != node && node.left != successor && node.left != child && node.left != parent
    requires node != Above(c) && successor != Above(c) && node.left != Above(c) && child != Above(c)
             && parent != Above(c)
    requires var k := successor.right; k != null ==>
               k != node && k != successor && k != node.left && k != Above(c) && k != child && k != parent
    requires c.Step? ==> c.n.Links() == MkCell(c.side, node, Ptr(c.sib), Above(c.up), c.red) && Ptr(c.sib) != node
    modifies root`node, successor, node.left, child, parent, if successor.right == null then {}
        else {successor.right}, if node.parent == null then {} else {node.parent}
    ensures successor.Links() == old(Cell(node.left, child, node.parent, node.red))
    ensures old(node.left).Links() == old(node.left.Links()).(parent := successor)
    ensures var k := old(successor.right); k != null ==>
            k.Links() == old(successor.right.Links()).(parent := parent, red := false)
    ensures parent.Links() == old(parent.Links()).(left := old(successor.right), parent := if parent == child
            then successor else old(parent.parent))
    ensures parent != child ==> child.Links() == old(child.Links()).(parent := successor)
    ensures c.Top? ==> root.node == successor
    ensures c.Step? ==>
              root.node == old(root.node) && c.n.Links() == MkCell(c.side, successor, Ptr(c.sib), Above(c.up), c.red)
  {
    var child2 := successor.right;
    parent.left := child2;
    successor.right := child;
    child.parent := successor;
    var tmp := node.left;
    successor.left := tmp;
    tmp.parent := successor;
    ChangeChild(node, successor, node.parent, root, c);
    successor.parent, successor.red := node.parent, node.red;
    if child2 != null {
      child2.parent, child2.red := parent, false;
    }
  }

  /** The successor of a node in its right subtree y: the end of the leftmost path. */
  method FindSuccessor(child: RbNode, ghost S: set<RbNode>, ghost y: Tree, ghost top: RbNode)
    returns (parent: RbNode, successor: RbNode, ghost path: Ctx, ghost sr: bool, ghost k: Tree)
    requires y.Node? && y.n == child && Rep(Mem(S), y, top)
    ensures y == Plug(path, Node(Nil, successor, sr, k)) && AllLeft(path)
    ensures parent == if path.Top? then successor else path.n
  {
    hide Mem, Plug;
    MemAll(S);
    parent, successor, path := child, child, Top;
    ghost var cur := y;
    ghost var above := top;
    PlugTop(y);
    var tmp := child.left;
    while tmp != null
      invariant y == Plug(path, cur) && AllLeft(path)
      invariant cur.Node? && cur.n == successor && Rep(Mem(S), cur, above) && tmp == Ptr(cur.l)
      invariant parent == if path.Top? then successor else path.n
      decreases cur
    {
      ghost var path' := Step(path, Left, successor, cur.red, cur.r);
      PlugOne(path', cur.l);
      parent, above := successor, successor;
      path, cur := path', cur.l;
      successor := tmp;
      tmp := tmp.left;
    }
    sr, k := cur.red, cur.r;
  }

  lemma {:induction false} PlugTop(t: Tree)
    ensures Plug(Top, t) == t
  {
  }

  /** Distinctness of the nodes the two-children case writes to. */
  lemma {:induction false} TwoFacts(m: Memory, root: RbNode?, c: Ctx, x: Tree, n: RbNode, nr: bool, path: Ctx,
                                    s: RbNode, sr: bool, k: Tree)
    requires At(m, root, c, Node(x, n, nr, Plug(path, Node(Nil, s, sr, k)))) && x.Node? && AllLeft(path)
    ensures n in m && s in m && x.n in m && m[n] == Cell(x.n, Head(path, s), Above(c), nr)
            && m[s] == Cell(null, Ptr(k), if path.Top? then n else path.n, sr)
    ensures n != s && x.n != n && x.n != s && n != Above(c) && s != Above(c) && x.n != Above(c)
    ensures k.Node? ==> k.n in m && k.n != n && k.n != s && k.n != x.n && k.n != Above(c)
    ensures c.Step? ==> c.n in m && m[c.n] == MkCell(c.side, n, Ptr(c.sib), Above(c.up), c.red) && Ptr(c.sib) != n
    ensures path.Step? ==>
      && path.n in m && Last(path) in m && m[path.n].left == s && (path.up.Top? <==> path.n == Last(path))
      && path.n != n && path.n != s && path.n != x.n && path.n != Above(c) && path.n != Ptr(k)
      && Last(path) != n && Last(path) != s && Last(path) != x.n && Last(path) != Above(c) && Last(path) != Ptr(k)
  {
    hide Nodes, CtxNodes, Sep, SepCtx, Rep, RepCtx, At, Plug, RepPath;
    MoveParts(m, root, c, x, n, nr, path, s, sr, k);
    HoleFacts(m, root, c, n);
    RootNode(m, x, n);
    RootNode(m, k, s);
    if path.Step? {
      PathFacts(m, path, n, s);
      LastIn(path);
      TopNode(path);
    }
  }

  lemma {:induction false} PathFacts(m: Memory, path: Ctx, top: RbNode, hole: RbNode?)
    requires path.Step? && RepPath(m, path, top, hole)
    ensures path.n in m && Last(path) in m && (path.side == Left ==> m[path.n].left == hole)
  {
    if path.up.Step? {
      PathFacts(m, path.up, top, path.n);
    }
  }

  /** Case 2 of __rb_erase_augmented. */
  method EraseNext(root: RbRoot, node: RbNode, successor: RbNode, ghost S: set<RbNode>, ghost c: Ctx, ghost x: Tree,
                   ghost nr: bool, ghost sr: bool, ghost k: Tree)
    requires At(Mem(S), root.node, c, Node(x, node, nr, Plug(Top, Node(Nil, successor, sr, k)))) && x.Node?
    modifies root`node, S
    ensures Moved(old(Mem(S)), old(root.node), Mem(S), root.node, c, x, nr, Top, successor, k)
    ensures node.Links() == old(node.Links())
  {
    hide Nodes, CtxNodes, Sep, SepCtx, Rep, RepCtx, At, Plug, RepPath, Mem, Only, MkCell;
    ghost var m := Mem(S);
    MemAll(S);
    TwoFacts(m, root.node, c, x, node, nr, Top, successor, sr, k);
    EraseNextLinks(root, node, successor, c);
    MemOnly(m, S, {successor} + Opt(x) + Opt(k) + OptUp(c) + OptUp(Top) + {});
    MemAll(S);
  }

  /** Case 3 of __rb_erase_augmented. */
  method EraseFar(root: RbRoot, node: RbNode, child: RbNode, parent: RbNode, successor: RbNode,
                  ghost S: set<RbNode>, ghost c: Ctx, ghost x: Tree, ghost nr: bool, ghost path: Ctx, ghost sr: bool,
                    ghost k: Tree)
    requires At(Mem(S), root.node, c, Node(x, node, nr, Plug(path, Node(Nil, successor, sr, k)))) && x.Node?
             && AllLeft(path)
    requires path.Step? && parent == path.n && child == Last(path)
    modifies root`node, S
    ensures Moved(old(Mem(S)), old(root.node), Mem(S), root.node, c, x, nr, path, successor, k)
    ensures node.Links() == old(node.Links())
  {
    hide Nodes, CtxNodes, Sep, SepCtx, Rep, RepCtx, At, Plug, RepPath, Mem, Only, MkCell, Last, AllLeft;
    ghost var m := Mem(S);
    MemAll(S);
    TwoFacts(m, root.node, c, x, node, nr, path, successor, sr, k);
    EraseFarLinks(root, node, child, parent, successor, c);
    MemOnly(m, S, {successor} + Opt(x) + Opt(k) + OptUp(c) + OptUp(path) + {child});
    MemAll(S);
  }

  /** The two-children cases of __rb_erase_augmented. */
  method EraseTwo(root: RbRoot, node: RbNode, child: RbNode, ghost S: set<RbNode>, ghost c: Ctx, ghost x: Tree,
                  ghost nr: bool, ghost y: Tree)
    returns (rebalance: RbNode?, ghost path: Ctx, ghost s: RbNode, ghost sr: bool, ghost k: Tree)
    requires At(Mem(S), root.node, c, Node(x, node, nr, y)) && x.Node? && y.Node? && child == y.n
    modifies root`node, S
    ensures y == Plug(path, Node(Nil, s, sr, k)) && AllLeft(path)
    ensures var c' := Compose(path, Step(c, Right, s, nr, x));
      && At(Mem(S), root.node, c', Tint(k, false)) && node !in CtxNodes(c') && node !in Nodes(k)
      && rebalance == if k.Nil? && !sr then Above(c') else null
    ensures node.Links() == old(node.Links())
  {
    hide Nodes, CtxNodes, Sep, SepCtx, Rep, RepCtx, At, Plug, RepPath, Mem, Only, MkCell, Moved;
    ghost var m := Mem(S);
    MemAll(S);
    RightRep(m, root.node, c, x, node, nr, y);
    var parent, successor;
    parent, successor, path, sr, k := FindSuccessor(child, S, y, node);
    s := successor;
    TwoFacts(m, root.node, c, x, node, nr, path, s, sr, k);
    var child2 := successor.right;
    var red := successor.red;
    rebalance := if child2 == null && !red then parent else null;
    if successor == child {
      EraseNext(root, node, successor, S, c, x, nr, sr, k);
    } else {
      EraseFar(root, node, child, parent, successor, S, c, x, nr, path, sr, k);
    }
    MoveShape(m, old(root.node), c, x, node, nr, path, s, sr, k, Mem(S), root.node);
  }

  lemma {:induction false} RightRep(m: Memory, root: RbNode?, c: Ctx, x: Tree, n: RbNode, nr: bool, y: Tree)
    requires At(m, root, c, Node(x, n, nr, y))
    ensures Rep(m, y, n) && n in m && m[n] == Cell(Ptr(x), Ptr(y), Above(c), nr)
  {
  }

  // ---------------------------------------------------------------- rb_erase

  lemma {:induction false} LocateIn(c: Ctx, t: Tree, node: RbNode) returns (c': Ctx, l: Tree, red: bool, r: Tree)
    requires node in Nodes(t)
    ensures Plug(c, t) == Plug(c', Node(l, node, red, r))
    decreases t
  {
    if t.n == node {
      c', l, red, r := c, t.l, t.red, t.r;
    } else if node in Nodes(t.l) {
      c', l, red, r := LocateIn(Step(c, Left, t.n, t.red, t.r), t.l, node);
    } else {
      c', l, red, r := LocateIn(Step(c, Right, t.n, t.red, t.l), t.r, node);
    }
  }

  lemma {:induction false} Renamed(path: Ctx, c: Ctx, n: RbNode, s: RbNode, nr: bool, x: Tree, h: nat)
    ensures BalancedCtx(Compose(path, Step(c, Right, n, nr, x)), h) ==
            BalancedCtx(Compose(path, Step(c, Right, s, nr, x)), h)
    ensures RedFits(Compose(path, Step(c, Right, n, nr, x))) == RedFits(Compose(path, Step(c, Right, s, nr, x)))
    decreases path
  {
    if path.Step? {
      Renamed(path.up, c, n, s, nr, x, if path.red then h else h + 1);
    }
  }

  lemma {:induction false} LeftBefore(path: Ctx)
    requires AllLeft(path)
    ensures Before(path) == []
  {
    if path.Step? {
      LeftBefore(path.up);
    }
  }

  /** The order once the successor has moved up. */
  lemma {:induction false} MovedOrder(c: Ctx, x: Tree, nr: bool, path: Ctx, s: RbNode, sr: bool, k: Tree)
    requires AllLeft(path)
    ensures Inorder(Plug(Compose(path, Step(c, Right, s, nr, x)), Tint(k, false))) ==
            Before(c) + (Inorder(x) + Inorder(Plug(path, Node(Nil, s, sr, k)))) + After(c)
  {
    hide Plug, Compose, Before, After, Tint, Inorder;
    var k', low, outer := Tint(k, false), Node(Nil, s, sr, k), Step(c, Right, s, nr, x);
    TintNodes(k, false);
    PlugCompose(path, outer, k');
    PlugOne(outer, Plug(path, k'));
    InorderPlug(c, Node(x, s, nr, Plug(path, k')));
    InorderPlug(path, k');
    InorderPlug(path, low);
    LeftBefore(path);
    MkInorder(Left, x, s, nr, Plug(path, k'));
    MkInorder(Left, Nil, s, sr, k);
    InorderNil();
    SeqMove(Inorder(x), s, Inorder(k), After(path));
  }

  lemma {:induction false} InorderNil()
    ensures Inorder(Nil) == []
  {
  }

  lemma {:induction false} SeqMove(a: seq<RbNode>, s: RbNode, b: seq<RbNode>, f: seq<RbNode>)
    ensures a + [s] + ([] + b + f) == a + ([] + ([] + [s] + b) + f)
  {
    assert [] + b + f == b + f;
    assert [] + ([] + [s] + b) + f == [s] + (b + f);
  }

  /** What is left of the balance once node is out: with k the subtree now in the hole of c', either
      the tree is red-black again, or the hole is empty and one black node short. */
  ghost predicate Spliced(c': Ctx, t': Tree, short: bool) {
    if short then t'.Nil? && BalancedCtx(c', 1)
    else exists h: nat :: BalancedCtx(c', h) && Balanced(t', h) && (IsRed(t') ==> RedFits(c'))
  }

  lemma {:induction false} OneBalance(c: Ctx, s: Side, k: Tree, node: RbNode, nr: bool)
    requires RedBlack(Plug(c, Mk(s, k, node, nr, Nil)))
    ensures Spliced(c, Tint(k, nr), k.Nil? && !nr)
  {
    var h := SplitBalanced(c, Mk(s, k, node, nr, Nil));
    SpliceBalance(s, k, node, nr, h);
  }

  lemma {:induction false} TwoBalance(c: Ctx, x: Tree, node: RbNode, nr: bool, path: Ctx, s: RbNode, sr: bool, k: Tree)
    requires RedBlack(Plug(c, Node(x, node, nr, Plug(path, Node(Nil, s, sr, k)))))
    ensures Spliced(Compose(path, Step(c, Right, s, nr, x)), Tint(k, false), k.Nil? && !sr)
  {
    var outer, low := Step(c, Right, node, nr, x), Node(Nil, s, sr, k);
    PlugOne(outer, Plug(path, low));
    PlugCompose(path, outer, low);
    var h := SplitBalanced(Compose(path, outer), low);
    Renamed(path, c, node, s, nr, x, h);
    assert low == Mk(Right, k, s, sr, Nil);
    SpliceBalance(Right, k, s, sr, h);
    hide Compose, Plug;
    if k.Node? {
      assert Balanced(Tint(k, false), h);
    }
  }

  /** Memory restricted to the nodes that are still in the tree. */
  lemma {:induction false} Forget(S: set<RbNode>, S': set<RbNode>, root: RbNode?, c: Ctx, t: Tree)
    requires At(Mem(S), root, c, t) && CtxNodes(c) + Nodes(t) <= S'
    ensures At(Mem(S'), root, c, t)
  {
    hide Nodes, CtxNodes, Sep, SepCtx, Rep, RepCtx;
    Grow(Mem(S), Mem(S'), t, Above(c));
    GrowCtx(Mem(S), Mem(S'), root, c, Ptr(t));
  }

  lemma {:induction false} OneOrder(c: Ctx, x: Tree, y: Tree, k: Tree, nr: bool)
    requires (x == k && y.Nil?) || (y == k && x.Nil?)
    ensures Inorder(Plug(c, Tint(k, nr))) == Before(c) + (Inorder(x) + Inorder(y)) + After(c)
  {
    TintNodes(k, nr);
    InorderPlug(c, Tint(k, nr));
    assert Inorder(x) + Inorder(y) == Inorder(k);
  }

  lemma {:induction false} Kept(S: set<RbNode>, c: Ctx, x: Tree, node: RbNode, nr: bool, y: Tree, c': Ctx, t': Tree,
                                order: seq<RbNode>)
    requires S == Nodes(Plug(c, Node(x, node, nr, y))) && order == Before(c) + (Inorder(x) + Inorder(y)) + After(c)
    requires Inorder(Plug(c', t')) == order
    ensures Elems(order) <= S && CtxNodes(c') + Nodes(t') == Elems(order)
  {
    hide Nodes, CtxNodes, Plug, Inorder, Before, After;
    NodesInorder(Plug(c, Node(x, node, nr, y)));
    InorderPlug(c, Node(x, node, nr, y));
    MkInorder(Left, x, node, nr, y);
    NodesInorder(Plug(c', t'));
    InorderPlug(c', t');
  }

  /** The fix-up that ends rb_erase. */
  method EraseFinish(root: RbRoot, rebalance: RbNode?, ghost S: set<RbNode>, ghost c: Ctx, ghost t: Tree,
                     ghost order: seq<RbNode>, ghost short: bool)
    requires At(Mem(S), root.node, c, t) && S == Elems(order) && Inorder(Plug(c, t)) == order
    requires Spliced(c, t, short) && rebalance == if short then Above(c) else null
    modifies root, S
    ensures root.Valid() && root.Elements() == order
  {
    hide Nodes, CtxNodes, Sep, SepCtx, Rep, RepCtx, At, Mem, Plug, Inorder;
    if rebalance != null {
      EraseColor(root, rebalance, S, c, order);
    } else {
      ghost var h: nat;
      if short {
        h := 0;
      } else {
        h :| BalancedCtx(c, h) && Balanced(t, h) && (IsRed(t) ==> RedFits(c));
      }
      Finish(S, root, c, t, h, order);
      root.tree := Plug(c, t);
    }
  }

  /** rb_erase of the node at the hole of c. */
  method EraseAt(root: RbRoot, node: RbNode, ghost c: Ctx, ghost x: Tree, ghost nr: bool, ghost y: Tree)
    requires root.Valid() && root.tree == Plug(c, Node(x, node, nr, y))
    modifies root, Nodes(root.tree)
    ensures root.Valid()
    ensures root.Elements() == Before(c) + (Inorder(x) + Inorder(y)) + After(c)
  {
    hide Nodes, CtxNodes, Sep, SepCtx, Rep, RepCtx, At, Mem, Plug, Inorder, Before, After, Compose, RedBlack, Spliced,
      Balanced, BalancedCtx;
    ghost var S := Nodes(root.tree);
    ghost var order := Before(c) + (Inorder(x) + Inorder(y)) + After(c);
    PlugTop(root.tree);
    AtPlug(Mem(S), root.node, c, Node(x, node, nr, y));
    MemAll(S);
    RightRep(Mem(S), root.node, c, x, node, nr, y);
    var child, tmp := node.right, node.left;
    var rebalance: RbNode? := null;
    ghost var c', t', short;
    if tmp == null {
      OneBalance(c, Right, y, node, nr);
      rebalance := if child == null && !node.red then node.parent else null;
      EraseOne(root, node, child, S, c, Right, y, nr);
      c', t', short := c, Tint(y, nr), y.Nil? && !nr;
      OneOrder(c, x, y, y, nr);
    } else if child == null {
      OneBalance(c, Left, x, node, nr);
      EraseOne(root, node, tmp, S, c, Left, x, nr);
      c', t', short := c, Tint(x, nr), false;
      OneOrder(c, x, y, x, nr);
    } else {
      ghost var path, s, sr, k;
      rebalance, path, s, sr, k := EraseTwo(root, node, child, S, c, x, nr, y);
      TwoBalance(c, x, node, nr, path, s, sr, k);
      MovedOrder(c, x, nr, path, s, sr, k);
      c', t', short := Compose(path, Step(c, Right, s, nr, x)), Tint(k, false), k.Nil? && !sr;
    }
    Kept(S, c, x, node, nr, y, c', t', order);
    Forget(S, Elems(order), root.node, c', t');
    EraseFinish(root, rebalance, Elems(order), c', t', order, short);
  }

  /** rb_erase: the elements of the tree are the old ones without node, in the old order. */
  method Erase(root: RbRoot, node: RbNode)
    requires root.Valid() && node in root.Elements()
    modifies root, Nodes(root.tree)
    ensures root.Valid()
    ensures exists i :: 0 <= i < |old(root.Elements())| && old(root.Elements())[i] == node
                        && root.Elements() == old(root.Elements())[..i] + old(root.Elements())[i + 1..]
  {
    hide Nodes, CtxNodes, Sep, SepCtx, Rep, RepCtx, At, Mem, Plug, Inorder, Before, After, RedBlack;
    ghost var order := root.Elements();
    NodesInorder(root.tree);
    PlugTop(root.tree);
    ghost var c, x, nr, y := LocateIn(Top, root.tree, node);
    InorderPlug(c, Node(x, node, nr, y));
    MkInorder(Left, x, node, nr, y);
    ghost var b, f := Before(c) + Inorder(x), Inorder(y) + After(c);
    DropMiddle(Before(c), Inorder(x), node, Inorder(y), After(c));
    EraseAt(root, node, c, x, nr, y);
    assert order[|b|] == node && root.Elements() == order[..|b|] + order[|b| + 1..];
  }

  lemma {:induction false} DropMiddle(a: seq<RbNode>, x: seq<RbNode>, n: RbNode, y: seq<RbNode>, f: seq<RbNode>)
    ensures var order := a + (x + [n] + y) + f; var k := |a + x|;
      k < |order| && order[k] == n && a + (x + y) + f == order[..k] + order[k + 1..]
  {
    var order := a + (x + [n] + y) + f;
    assert order == (a + x) + [n] + (y + f);
    assert a + (x + y) + f == (a + x) + (y + f);
  }

  /** Every node occurs once in the order, so erasing removes it for good. */
  lemma {:induction false} InorderDistinct(t: Tree)
    requires Sep(t)
    ensures forall i, j :: 0 <= i < j < |Inorder(t)| ==> Inorder(t)[i] != Inorder(t)[j]
  {
    if t.Node? {
      InorderDistinct(t.l);
      InorderDistinct(t.r);
      NodesInorder(t.l);
      NodesInorder(t.r);
      var a, b := Inorder(t.l), Inorder(t.r);
      forall i, j | 0 <= i < j < |Inorder(t)|
        ensures Inorder(t)[i] != Inorder(t)[j]
      {
        assert i < |a| ==> a[i] in Nodes(t.l);
        assert j > |a| ==> b[j - |a| - 1] in Nodes(t.r);
      }
    }
  }
}
