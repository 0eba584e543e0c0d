/** Red-black trees linked through left, right and parent pointers
    (util/rbtree.c, include/linux/rbtree_augmented.h, include/linux/rbtree.h).

    The nodes live in the heap and are rewritten in place.  A ghost value of type
    `Tree` says which tree the pointers spell out, and a ghost `Ctx` is the part of
    the tree above the place where a fix-up loop is working (a zipper).  The two
    mirror-image halves of each fix-up are one body, parameterised by a `Side`. */
module RbTree {

  datatype Side = Left | Right

  function Other(s: Side): Side { if s == Left then Right else Left }

  /** What the structure that embeds a tree node holds besides the links. */
  datatype Entry = Entry(low: nat, high: nat, handler: nat)

  /** struct rb_node; __rb_parent_color is kept as two fields. */
  class RbNode {
    var left: RbNode?
    var right: RbNode?
    var parent: RbNode?
    var red: bool
    const entry: Entry

    constructor (entry: Entry)
      ensures this.entry == entry
    {
      this.entry := entry;
      left, right, parent, red := null, null, null, true;
    }

    ghost function Links(): Cell
      reads this
    {
      Cell(left, right, parent, red)
    }

    function Child(s: Side): RbNode?
      reads this
    {
      if s == Left then left else right
    }

    method SetChild(s: Side, c: RbNode?)
      modifies this
      ensures Child(s) == c && Child(Other(s)) == old(Child(Other(s)))
      ensures parent == old(parent) && red == old(red)
    {
      if s == Left { left := c; } else { right := c; }
    }
  }

  // ---------------------------------------------------------------- trees

  datatype Tree = Nil | Node(l: Tree, n: RbNode, red: bool, r: Tree)

  /** The path from a hole in a tree up to the root: the hole is the child on `side` of
      `n`, whose other child is `sib`. */
  datatype Ctx = Top | Step(up: Ctx, side: Side, n: RbNode, red: bool, sib: Tree)

  /** The tree with root n whose child on side s is `near`. */
  function Mk(s: Side, near: Tree, n: RbNode, red: bool, far: Tree): Tree {
    if s == Left then Node(near, n, red, far) else Node(far, n, red, near)
  }

  function On(s: Side, t: Tree): Tree
    requires t.Node?
  {
    if s == Left then t.l else t.r
  }

  function Plug(c: Ctx, t: Tree): Tree {
    if c.Top? then t else Plug(c.up, Mk(c.side, t, c.n, c.red, c.sib))
  }

  function Nodes(t: Tree): set<RbNode> {
    if t.Nil? then {} else Nodes(t.l) + {t.n} + Nodes(t.r)
  }

  function CtxNodes(c: Ctx): set<RbNode> {
    if c.Top? then {} else CtxNodes(c.up) + {c.n} + Nodes(c.sib)
  }

  function Inorder(t: Tree): seq<RbNode> {
    if t.Nil? then [] else Inorder(t.l) + [t.n] + Inorder(t.r)
  }

  /** The nodes in order before, respectively after, the hole of a context. */
  function Before(c: Ctx): seq<RbNode> {
    if c.Top? then [] else if c.side == Left then Before(c.up) else Before(c.up) + Inorder(c.sib) + [c.n]
  }

  function After(c: Ctx): seq<RbNode> {
    if c.Top? then [] else if c.side == Left then [c.n] + Inorder(c.sib) + After(c.up) else After(c.up)
  }

  lemma {:induction false} InorderPlug(c: Ctx, t: Tree)
    ensures Inorder(Plug(c, t)) == Before(c) + Inorder(t) + After(c)
    ensures Nodes(Plug(c, t)) == CtxNodes(c) + Nodes(t)
  {
    if c.Step? {
      var u := Mk(c.side, t, c.n, c.red, c.sib);
      InorderPlug(c.up, u);
      hide Balanced, BalancedCtx;
      var b, x, a := Before(c.up), Inorder(t), After(c.up);
      var y := Inorder(c.sib);
      if c.side == Left {
        Assoc(b, x, [c.n], y, a);
      } else {
        Assoc(b, y, [c.n], x, a);
      }
    }
  }

  lemma {:induction false} Assoc<T>(a: seq<T>, b: seq<T>, c: seq<T>, d: seq<T>, e: seq<T>)
    ensures a + (b + c + d) + e == a + b + (c + d + e)
    ensures a + (b + c + d) + e == (a + b + c) + d + e
  {
  }

  /** No node occurs twice. */
  predicate Sep(t: Tree) {
    t.Node? ==>
      && t.n !in Nodes(t.l) && t.n !in Nodes(t.r)
      && Nodes(t.l) !! Nodes(t.r)
      && Sep(t.l) && Sep(t.r)
  }

  predicate SepCtx(c: Ctx) {
    c.Step? ==>
      && c.n !in Nodes(c.sib) && c.n !in CtxNodes(c.up)
      && Nodes(c.sib) !! CtxNodes(c.up)
      && Sep(c.sib) && SepCtx(c.up)
  }

  lemma {:induction false} SepPlug(c: Ctx, t: Tree)
    ensures Sep(Plug(c, t)) <==> SepCtx(c) && Sep(t) && CtxNodes(c) !! Nodes(t)
  {
    if c.Step? {
      SepPlug(c.up, Mk(c.side, t, c.n, c.red, c.sib));
    }
  }

  // ---------------------------------------------------------------- the five properties

  predicate IsRed(t: Tree) { t.Node? && t.red }

  /** Every path from t down crosses h black nodes and no red node has a red child
      (properties 4 and 5 of util/rbtree.c). */
  predicate Balanced(t: Tree, h: nat) {
    if t.Nil? then h == 0
    else if t.red then !IsRed(t.l) && !IsRed(t.r) && Balanced(t.l, h) && Balanced(t.r, h)
    else h >= 1 && Balanced(t.l, h - 1) && Balanced(t.r, h - 1)
  }

  /** A red-black tree: balanced, with a black root (property 2). */
  ghost predicate RedBlack(t: Tree) {
    !IsRed(t) && exists h: nat :: Balanced(t, h)
  }

  predicate BalancedCtx(c: Ctx, h: nat) {
    c.Step? ==>
      && Balanced(c.sib, h)
      && (c.red ==> !IsRed(c.sib) && c.up.Step? && !c.up.red)
      && BalancedCtx(c.up, if c.red then h else h + 1)
  }

  /** Whether the hole of c may hold a red root. */
  predicate RedFits(c: Ctx) { c.Step? && !c.red }

  lemma {:induction false} BalancedPlug(c: Ctx, t: Tree, h: nat)
    requires BalancedCtx(c, h) && Balanced(t, h) && (IsRed(t) ==> RedFits(c))
    ensures RedBlack(Plug(c, t))
  {
    if c.Step? {
      BalancedPlug(c.up, Mk(c.side, t, c.n, c.red, c.sib), if c.red then h else h + 1);
    }
  }

  /** Conversely a red-black tree splits at any hole. */
  lemma {:induction false} SplitBalanced(c: Ctx, t: Tree) returns (h: nat)
    requires RedBlack(Plug(c, t))
    ensures BalancedCtx(c, h) && Balanced(t, h) && (IsRed(t) ==> RedFits(c))
  {
    if c.Top? {
      h :| Balanced(t, h);
    } else {
      var k := SplitBalanced(c.up, Mk(c.side, t, c.n, c.red, c.sib));
      h := if c.red then k else k - 1;
    }
  }

  // ---------------------------------------------------------------- memory

  /** The links of one node. */
  datatype Cell = Cell(left: RbNode?, right: RbNode?, parent: RbNode?, red: bool) {
    function Kid(s: Side): RbNode? { if s == Left then left else right }
  }

  type Memory = map<RbNode, Cell>

  function Ptr(t: Tree): RbNode? { if t.Nil? then null else t.n }

  function Above(c: Ctx): RbNode? { if c.Top? then null else c.n }

  function MkCell(s: Side, near: RbNode?, far: RbNode?, parent: RbNode?, red: bool): Cell {
    if s == Left then Cell(near, far, parent, red) else Cell(far, near, parent, red)
  }

  /** The links of m spell out t, hanging below `parent`. */
  ghost predicate Rep(m: Memory, t: Tree, parent: RbNode?) {
    t.Node? ==>
      && t.n in m && m[t.n] == Cell(Ptr(t.l), Ptr(t.r), parent, t.red)
      && Rep(m, t.l, t.n) && Rep(m, t.r, t.n)
  }

  /** The links of m, with root pointer `root`, spell out c above a hole that holds `hole`. */
  ghost predicate RepCtx(m: Memory, root: RbNode?, c: Ctx, hole: RbNode?) {
    if c.Top? then root == hole
    else
      && c.n in m && m[c.n] == MkCell(c.side, hole, Ptr(c.sib), Above(c.up), c.red)
      && Rep(m, c.sib, c.n)
      && RepCtx(m, root, c.up, c.n)
  }

  /** m holds t in the hole of c, without sharing. */
  ghost predicate At(m: Memory, root: RbNode?, c: Ctx, t: Tree) {
    && SepCtx(c) && Sep(t) && CtxNodes(c) !! Nodes(t)
    && RepCtx(m, root, c, Ptr(t)) && Rep(m, t, Above(c))
  }

  /** t with its root painted; a leaf has no colour. */
  function Tint(t: Tree, red: bool): Tree { if t.Nil? then t else t.(red := red) }

  function Opt(t: Tree): set<RbNode> { if t.Nil? then {} else {t.n} }

  function OptUp(c: Ctx): set<RbNode> { if c.Top? then {} else {c.n} }

  /** m' differs from m at the nodes of D at most. */
  ghost predicate Only(m: Memory, m': Memory, D: set<RbNode>) {
    m'.Keys == m.Keys && forall n | n in m && n !in D :: m'[n] == m[n]
  }

  lemma {:induction false} OnlyKeys(m: Memory, m': Memory, D: set<RbNode>)
    requires Only(m, m', D)
    ensures m'.Keys == m.Keys
  {
  }

  lemma {:induction false} Frame(m: Memory, m': Memory, D: set<RbNode>, t: Tree, parent: RbNode?)
    requires Rep(m, t, parent) && Only(m, m', D) && D !! Nodes(t)
    ensures Rep(m', t, parent)
  {
    if t.Node? {
      Frame(m, m', D, t.l, t.n);
      Frame(m, m', D, t.r, t.n);
    }
  }

  lemma {:induction false} FrameCtx(m: Memory, m': Memory, D: set<RbNode>, root: RbNode?, c: Ctx, hole: RbNode?)
    requires RepCtx(m, root, c, hole) && Only(m, m', D) && D !! CtxNodes(c)
    ensures RepCtx(m', root, c, hole)
  {
    if c.Step? {
      Frame(m, m', D, c.sib, c.n);
      FrameCtx(m, m', D, root, c.up, c.n);
    }
  }

  /** In t only the root's cell changed: it has another parent and another colour. */
  lemma {:induction false} Reroot(m: Memory, m': Memory, D: set<RbNode>, t: Tree, parent: RbNode?, parent': RbNode?,
                                  red': bool)
    requires Sep(t) && Rep(m, t, parent) && Only(m, m', D) && D * Nodes(t) <= Opt(t)
    requires t.Node? ==> t.n in m && t.n in m' && m'[t.n] == m[t.n].(parent := parent', red := red')
    ensures Rep(m', Tint(t, red'), parent')
  {
    if t.Node? {
      Frame(m, m', D, t.l, t.n);
      Frame(m, m', D, t.r, t.n);
    }
  }

  lemma {:induction false} Reparent(m: Memory, m': Memory, D: set<RbNode>, t: Tree, parent: RbNode?, parent': RbNode?)
    requires Sep(t) && Rep(m, t, parent) && Only(m, m', D) && D * Nodes(t) <= Opt(t)
    requires t.Node? ==> t.n in m && t.n in m' && m'[t.n] == m[t.n].(parent := parent')
    ensures Rep(m', t, parent')
  {
    if t.Node? {
      Reroot(m, m', D, t, parent, parent', t.red);
    }
  }

  /** {x, y, z} and I miss S. */
  lemma {:induction false} Miss(x: RbNode, y: RbNode, z: RbNode, I: set<RbNode>, S: set<RbNode>)
    requires x !in S && y !in S && z !in S && I !! S
    ensures ({x, y, z} + I) !! S
  {
  }

  /** The pointer in the hole of c now is `new_`; nothing else in the cell above it changed. */
  ghost predicate Hooked(root: RbNode?, m': Memory, root': RbNode?, c: Ctx, new_: RbNode?) {
    if c.Top? then root' == new_
    else root' == root && c.n in m' && m'[c.n] == MkCell(c.side, new_, Ptr(c.sib), Above(c.up), c.red)
  }

  lemma {:induction false} Rehook(m: Memory, root: RbNode?, m': Memory, root': RbNode?, D: set<RbNode>, c: Ctx,
                                  old_: RbNode?, new_: RbNode?)
    requires SepCtx(c) && RepCtx(m, root, c, old_) && Only(m, m', D) && Hooked(root, m', root', c, new_)
    requires D * CtxNodes(c) <= OptUp(c)
    ensures RepCtx(m', root', c, new_)
  {
    if c.Step? {
      Frame(m, m', D, c.sib, c.n);
      FrameCtx(m, m', D, root, c.up, c.n);
    }
  }

  /** Moving the focus one level up or down. */
  lemma {:induction false} Focus(m: Memory, root: RbNode?, c: Ctx, t: Tree)
    requires c.Step?
    ensures At(m, root, c, t) <==> At(m, root, c.up, Mk(c.side, t, c.n, c.red, c.sib))
  {
  }

  lemma {:induction false} AtPlug(m: Memory, root: RbNode?, c: Ctx, t: Tree)
    ensures At(m, root, c, t) <==> At(m, root, Top, Plug(c, t))
    decreases c
  {
    if c.Step? {
      Focus(m, root, c, t);
      AtPlug(m, root, c.up, Mk(c.side, t, c.n, c.red, c.sib));
    }
  }

  /** Two nodes and the three subtrees around them, below c, all disjoint. */
  predicate Sep3(c: Ctx, a: Tree, x: RbNode, b: Tree, y: RbNode, d: Tree) {
    && SepCtx(c) && Sep(a) && Sep(b) && Sep(d) && x != y
    && x !in CtxNodes(c) && x !in Nodes(a) && x !in Nodes(b) && x !in Nodes(d)
    && y !in CtxNodes(c) && y !in Nodes(a) && y !in Nodes(b) && y !in Nodes(d)
    && CtxNodes(c) !! Nodes(a) && CtxNodes(c) !! Nodes(b) && CtxNodes(c) !! Nodes(d)
    && Nodes(a) !! Nodes(b) && Nodes(a) !! Nodes(d) && Nodes(b) !! Nodes(d)
  }

  lemma {:induction false} SepMk(s: Side, near: Tree, n: RbNode, red: bool, far: Tree)
    ensures Nodes(Mk(s, near, n, red, far)) == Nodes(near) + {n} + Nodes(far)
    ensures Sep(Mk(s, near, n, red, far)) <==>
              Sep(near) && Sep(far) && n !in Nodes(near) && n !in Nodes(far) && Nodes(near) !! Nodes(far)
  {
  }

  lemma {:induction false} Sep3Tree(c: Ctx, s: Side, s': Side, a: Tree, x: RbNode, b: Tree, y: RbNode, d: Tree,
                                    rx: bool, ry: bool)
    ensures var t := Mk(s, Mk(s', a, x, rx, b), y, ry, d);
      SepCtx(c) && Sep(t) && CtxNodes(c) !! Nodes(t) <==> Sep3(c, a, x, b, y, d)
  {
    var p := Mk(s', a, x, rx, b);
    SepMk(s', a, x, rx, b);
    SepMk(s, p, y, ry, d);
    var t := Mk(s, p, y, ry, d);
    assert CtxNodes(c) !! Nodes(t) <==>
        CtxNodes(c) !! Nodes(a) && x !in CtxNodes(c) && CtxNodes(c) !! Nodes(b) && y !in CtxNodes(c)
        && CtxNodes(c) !! Nodes(d);
  }

  lemma {:induction false} RepMk(m: Memory, s: Side, near: Tree, n: RbNode, red: bool, far: Tree, parent: RbNode?)
    ensures Ptr(Mk(s, near, n, red, far)) == n
    ensures Rep(m, Mk(s, near, n, red, far), parent) <==>
      n in m && m[n] == MkCell(s, Ptr(near), Ptr(far), parent, red) && Rep(m, near, n) && Rep(m, far, n)
  {
  }

  /** c with a tree two levels deep in its hole, taken apart: y with child x on side s, x with
      child a on side s'. */
  ghost predicate Apart(m: Memory, root: RbNode?, c: Ctx, s: Side, s': Side, a: Tree, x: RbNode, b: Tree, y: RbNode,
                        d: Tree, rx: bool, ry: bool) {
    && Sep3(c, a, x, b, y, d) && RepCtx(m, root, c, y)
    && x in m && m[x] == MkCell(s', Ptr(a), Ptr(b), y, rx)
    && y in m && m[y] == MkCell(s, x, Ptr(d), Above(c), ry)
    && Rep(m, a, x) && Rep(m, b, x) && Rep(m, d, y)
  }

  lemma {:induction false} AtApart(m: Memory, root: RbNode?, c: Ctx, s: Side, s': Side, a: Tree, x: RbNode, b: Tree,
                                   y: RbNode, d: Tree, rx: bool, ry: bool)
    ensures At(m, root, c, Mk(s, Mk(s', a, x, rx, b), y, ry, d)) <==> Apart(m, root, c, s, s', a, x, b, y, d, rx, ry)
  {
    hide Nodes, CtxNodes, Sep, SepCtx, Rep, RepCtx, Sep3, Ptr, Above, Mk, MkCell;
    var p := Mk(s', a, x, rx, b);
    Sep3Tree(c, s, s', a, x, b, y, d, rx, ry);
    RepMk(m, s', a, x, rx, b, y);
    RepMk(m, s, p, y, ry, d, Above(c));
  }

  lemma {:induction false} RootNode(m: Memory, t: Tree, parent: RbNode?)
    requires Rep(m, t, parent)
    ensures t.Node? ==> t.n in Nodes(t) && t.n in m && m[t.n].red == t.red && m[t.n].parent == parent
  {
  }

  lemma {:induction false} TopNode(c: Ctx)
    ensures c.Step? ==> c.n in CtxNodes(c)
  {
  }

  // ---------------------------------------------------------------- what each kind of rewrite does to the tree

  lemma {:induction false} TintNodes(t: Tree, red: bool)
    ensures Nodes(Tint(t, red)) == Nodes(t) && Sep(Tint(t, red)) == Sep(t) && Ptr(Tint(t, red)) == Ptr(t)
    ensures Inorder(Tint(t, red)) == Inorder(t)
    ensures t.Node? ==> Tint(t, t.red) == t
  {
  }

  /** Painting one node. */
  lemma {:induction false} PaintShape(m: Memory, root: RbNode?, c: Ctx, t: Tree, red: bool, m': Memory)
    requires t.Node? && At(m, root, c, t) && t.n in m
    requires m' == m[t.n := m[t.n].(red := red)]
    ensures At(m', root, c, Tint(t, red))
  {
    hide Nodes, CtxNodes, Sep, SepCtx, Rep, RepCtx, Ptr, Above;
    RootNode(m, t, Above(c));
    TintNodes(t, red);
    FrameCtx(m, m', {t.n}, root, c, Ptr(t));
    Reroot(m, m', {t.n}, t, Above(c), Above(c), red);
  }

  /** The state a rotation of g with its child p on side s starts from.  After an inner rotation
      g's link to p, p's link to g and the parent link q of a's root may be stale. */
  ghost predicate Lined(m: Memory, root: RbNode?, up: Ctx, s: Side, a: Tree, q: RbNode?, p: RbNode, b: Tree, g: RbNode,
                        u: Tree, gr: bool) {
    && Sep3(up, a, p, b, g, u) && RepCtx(m, root, up, g)
    && p in m && m[p].Kid(s) == Ptr(a) && m[p].Kid(Other(s)) == Ptr(b)
    && g in m && m[g].Kid(Other(s)) == Ptr(u) && m[g].parent == Above(up) && m[g].red == gr
    && Rep(m, a, q) && Rep(m, b, p) && Rep(m, u, g)
  }

  lemma {:induction false} LinedUp(m: Memory, root: RbNode?, up: Ctx, s: Side, a: Tree, p: RbNode, b: Tree, g: RbNode,
                                   u: Tree, pr: bool, gr: bool)
    requires At(m, root, up, Mk(s, Mk(s, a, p, pr, b), g, gr, u))
    ensures Lined(m, root, up, s, a, p, p, b, g, u, gr)
  {
    hide Nodes, CtxNodes, Sep, SepCtx, Rep, RepCtx, Sep3, Ptr, Above, Mk, At;
    AtApart(m, root, up, s, s, a, p, b, g, u, pr, gr);
  }

  lemma {:induction false} InnerSep(c: Ctx, s: Side, i: Tree, n: RbNode, o: Tree, p: RbNode, pr: bool, x: Tree,
                                    g: RbNode, u: Tree)
    requires Sep3(c, Mk(s, i, n, true, o), p, x, g, u)
    ensures Sep3(c, Mk(s, x, p, pr, i), n, o, g, u) && Sep(i)
  {
    hide Nodes, CtxNodes, Sep, SepCtx, Mk;
    SepMk(s, i, n, true, o);
    SepMk(s, x, p, pr, i);
  }

  lemma {:induction false} InnerMiss(c: Ctx, s: Side, i: Tree, n: RbNode, o: Tree, p: RbNode, x: Tree, g: RbNode,
                                     u: Tree)
    requires Sep3(c, Mk(s, i, n, true, o), p, x, g, u)
    ensures var D := {p, n, g} + Opt(i);
            D !! CtxNodes(c) && D !! Nodes(o) && D !! Nodes(x) && D !! Nodes(u) && D * Nodes(i) <= Opt(i)
  {
    hide CtxNodes, Nodes, Sep, SepCtx, Mk, Opt;
    OptNodes(i);
    SepMk(s, i, n, true, o);
    Miss(p, n, g, Opt(i), CtxNodes(c));
    Miss(p, n, g, Opt(i), Nodes(o));
    Miss(p, n, g, Opt(i), Nodes(x));
    Miss(p, n, g, Opt(i), Nodes(u));
    Miss(p, n, g, {}, Nodes(i));
    calc {
      ({p, n, g} + Opt(i)) * Nodes(i);
      ({p, n, g} + {}) * Nodes(i) + Opt(i) * Nodes(i);
      Opt(i);
    }
  }

  lemma {:induction false} OptNodes(t: Tree)
    ensures Opt(t) <= Nodes(t)
  {
  }

  lemma {:induction false} OuterSep(c: Ctx, a: Tree, p: RbNode, b: Tree, g: RbNode, u: Tree, ar: bool)
    requires Sep3(c, a, p, b, g, u)
    ensures SepCtx(c) && Sep(a) && Sep(b) && Sep3(c, b, g, u, p, Tint(a, ar))
    ensures var D := {p, g} + Opt(a) + Opt(b) + OptUp(c);
      D * CtxNodes(c) <= OptUp(c) && D * Nodes(a) <= Opt(a) && D * Nodes(b) <= Opt(b) && D !! Nodes(u)
  {
    assert OptUp(c) <= CtxNodes(c) && Opt(a) <= Nodes(a) && Opt(b) <= Nodes(b);
    hide Nodes, CtxNodes, Opt, OptUp, Sep, SepCtx, Tint;
    TintNodes(a, ar);
  }

  /** Rotation at the child p of g, which lines p's child n up for the rotation at g
      (case 2 of __rb_insert, case 3 of ____rb_erase_color). */
  lemma {:induction false} InnerShape(m: Memory, root: RbNode?, up: Ctx, s: Side, x: Tree, p: RbNode, i: Tree,
                                      n: RbNode, o: Tree, g: RbNode, u: Tree,
                   pr: bool, gr: bool, q: RbNode?, m': Memory)
    requires At(m, root, up, Mk(s, Mk(Other(s), Mk(s, i, n, true, o), p, pr, x), g, gr, u))
    requires p in m && n in m && g in m && Only(m, m', {p, n, g} + Opt(i))
    requires m'[p] == MkCell(s, Ptr(x), Ptr(i), q, pr) && m'[n] == MkCell(s, p, Ptr(o), p, true)
    requires m'[g].Kid(Other(s)) == m[g].Kid(Other(s)) && m'[g].parent == m[g].parent && m'[g].red == m[g].red
    requires i.Node? ==> i.n in m && m'[i.n] == m[i.n].(parent := p)
    ensures Lined(m', root, up, s, Mk(s, x, p, pr, i), q, n, o, g, u, gr)
  {
    hide Nodes, CtxNodes, Sep, SepCtx, Sep3, Rep, RepCtx, Mk, At, Ptr, Above, Only;
    var D := {p, n, g} + Opt(i);
    assert m'.Keys == m.Keys by { OnlyKeys(m, m', D); }
    AtApart(m, root, up, s, Other(s), Mk(s, i, n, true, o), p, x, g, u, pr, gr);
    InnerSep(up, s, i, n, o, p, pr, x, g, u);
    InnerMiss(up, s, i, n, o, p, x, g, u);
    RepMk(m, s, i, n, true, o, p);
    RootNode(m, i, n);
    FrameCtx(m, m', D, root, up, g);
    Frame(m, m', D, x, p);
    Frame(m, m', D, u, g);
    Frame(m, m', D, o, n);
    Reparent(m, m', D, i, n, p);
    RepMk(m', s, x, p, pr, i, q);
  }

  /** Rotation at g: p takes g's place and colour, g becomes its child with colour k, and a's root
      is painted (case 3 of __rb_insert, cases 1 and 4 of ____rb_erase_color). */
  lemma {:induction false} OuterShape(m: Memory, root: RbNode?, up: Ctx, s: Side, a: Tree, q: RbNode?, p: RbNode,
                                      b: Tree, g: RbNode, u: Tree,
                   gr: bool, k: bool, ar: bool, m': Memory, root': RbNode?)
    requires Lined(m, root, up, s, a, q, p, b, g, u, gr)
    requires Only(m, m', {p, g} + Opt(a) + Opt(b) + OptUp(up)) && Hooked(root, m', root', up, p)
    requires m'[p] == MkCell(s, Ptr(a), g, Above(up), gr) && m'[g] == MkCell(s, Ptr(b), Ptr(u), p, k)
    requires b.Node? ==> b.n in m && m'[b.n] == m[b.n].(parent := g)
    requires a.Node? ==> a.n in m && m'[a.n] == m[a.n].(parent := p, red := ar)
    ensures At(m', root', up, Mk(Other(s), Mk(s, b, g, k, u), p, gr, Tint(a, ar)))
  {
    hide Nodes, CtxNodes, Sep, SepCtx, Sep3, Rep, RepCtx, Mk, At, Ptr, Above, Hooked, Only;
    var D := {p, g} + Opt(a) + Opt(b) + OptUp(up);
    OnlyKeys(m, m', D);
    OuterSep(up, a, p, b, g, u, ar);
    RootNode(m, b, p);
    TintNodes(a, ar);
    Rehook(m, root, m', root', D, up, g, p);
    Reroot(m, m', D, a, q, p, ar);
    Frame(m, m', D, u, g);
    Reparent(m, m', D, b, p, g);
    AtApart(m', root', up, Other(s), s, b, g, u, p, Tint(a, ar), k, gr);
  }

  // ---------------------------------------------------------------- order and balance of each rewrite

  function Elems(order: seq<RbNode>): set<RbNode> { set n | n in order }

  lemma {:induction false} NodesInorder(t: Tree)
    ensures Nodes(t) == Elems(Inorder(t))
  {
    if t.Node? {
      NodesInorder(t.l);
      NodesInorder(t.r);
    }
  }

  lemma {:induction false} PlugInorder(c: Ctx, t: Tree, t': Tree)
    requires Inorder(t) == Inorder(t')
    ensures Inorder(Plug(c, t)) == Inorder(Plug(c, t'))
  {
    InorderPlug(c, t);
    InorderPlug(c, t');
  }

  lemma {:induction false} MkInorder(s: Side, near: Tree, n: RbNode, red: bool, far: Tree)
    ensures Inorder(Mk(s, near, n, red, far)) ==
            if s == Left then Inorder(near) + [n] + Inorder(far) else Inorder(far) + [n] + Inorder(near)
  {
  }

  /** A rotation keeps the order, whatever the colours. */
  lemma {:induction false} RotateInorder(s: Side, a: Tree, p: RbNode, b: Tree, g: RbNode, u: Tree, r1: bool, r2: bool,
                                         r3: bool, r4: bool)
    ensures Inorder(Mk(Other(s), Mk(s, b, g, r1, u), p, r2, a)) == Inorder(Mk(s, Mk(s, a, p, r3, b), g, r4, u))
  {
    hide Mk, Inorder;
    MkInorder(s, b, g, r1, u);
    MkInorder(Other(s), Mk(s, b, g, r1, u), p, r2, a);
    MkInorder(s, a, p, r3, b);
    MkInorder(s, Mk(s, a, p, r3, b), g, r4, u);
    if s == Left {
      Assoc([], Inorder(a), [p], Inorder(b), [g] + Inorder(u));
      assert Inorder(a) + [p] + (Inorder(b) + [g] + Inorder(u)) == Inorder(a) + [p] + Inorder(b) + [g] + Inorder(u);
    } else {
      assert Inorder(u) + [g] + (Inorder(b) + [p] + Inorder(a)) == Inorder(u) + [g] + Inorder(b) + [p] + Inorder(a);
    }
  }

  /** So does the double rotation. */
  lemma {:induction false} DoubleInorder(s: Side, x: Tree, p: RbNode, i: Tree, n: RbNode, o: Tree, g: RbNode, u: Tree,
                      r1: bool, r2: bool, r3: bool, r4: bool, r5: bool, r6: bool)
    ensures Inorder(Mk(Other(s), Mk(s, o, g, r1, u), n, r2, Mk(s, x, p, r3, i))) ==
            Inorder(Mk(s, Mk(Other(s), Mk(s, i, n, r4, o), p, r5, x), g, r6, u))
  {
    hide Mk, Inorder;
    var a := Mk(s, x, p, r3, i);
    RotateInorder(s, a, n, o, g, u, r1, r2, true, r6);
    RotateInorder(Other(s), o, n, i, p, x, r3, true, r4, r5);
    MkInorder(s, Mk(s, a, n, true, o), g, r6, u);
    MkInorder(s, Mk(Other(s), Mk(s, i, n, r4, o), p, r5, x), g, r6, u);
    MkFlip(s, i, n, r4, o);
    MkFlip(s, a, n, true, o);
    MkFlip(s, x, p, r3, i);
  }

  lemma {:induction false} FlipBalance(up: Ctx, s: Side, s': Side, t: Tree, p: RbNode, sib: Tree, g: RbNode, u: Tree,
                                       h: nat)
    requires BalancedCtx(Step(Step(up, s, g, false, u), s', p, true, sib), h) && Balanced(t, h) && IsRed(u)
    ensures Balanced(Mk(s, Mk(s', t, p, false, sib), g, true, Tint(u, false)), h + 1) && BalancedCtx(up, h + 1)
  {
  }

  lemma {:induction false} InsertBalance(up: Ctx, s: Side, a: Tree, p: RbNode, b: Tree, g: RbNode, u: Tree, h: nat)
    requires BalancedCtx(Step(up, s, g, false, u), h) && Balanced(a, h) && Balanced(b, h) && !IsRed(b) && !IsRed(u)
    ensures Balanced(Mk(Other(s), Mk(s, b, g, true, u), p, false, a), h + 1) && BalancedCtx(up, h + 1)
  {
  }

  // ---------------------------------------------------------------- the heap

  /** What memory holds at the nodes of S. */
  ghost function Mem(S: set<RbNode>): Memory
    reads S
  {
    map n | n in S :: n.Links()
  }

  lemma {:induction false} MemAll(S: set<RbNode>)
    ensures Mem(S).Keys == S && forall n | n in S :: Mem(S)[n] == n.Links()
  {
  }

  lemma {:induction false} MemOnly(m: Memory, S: set<RbNode>, D: set<RbNode>)
    requires m.Keys == S && forall n | n in S && n !in D :: n.Links() == m[n]
    ensures Only(m, Mem(S), D)
  {
  }

  class RbRoot {
    var node: RbNode?
    ghost var tree: Tree

    ghost predicate Valid()
      reads this, Nodes(tree)
    {
      At(Mem(Nodes(tree)), node, Top, tree) && RedBlack(tree)
    }

    ghost function Elements(): seq<RbNode>
      reads this
    {
      Inorder(tree)
    }

    constructor ()
      ensures Valid() && Elements() == []
    {
      node := null;
      tree := Nil;
      new;
      assert Balanced(Nil, 0);
    }
  }

  lemma {:induction false} HoleFacts(m: Memory, root: RbNode?, c: Ctx, hole: RbNode)
    requires RepCtx(m, root, c, hole) && hole !in CtxNodes(c)
    ensures c.Step? ==>
              c.n in m && c.n in CtxNodes(c) && m[c.n] == MkCell(c.side, hole, Ptr(c.sib), Above(c.up), c.red)
              && Ptr(c.sib) != hole
  {
  }

  /** __rb_change_child */
  method ChangeChild(old_: RbNode, new_: RbNode?, parent: RbNode?, root: RbRoot, ghost c: Ctx)
    requires parent == Above(c)
    requires c.Step? ==> c.n.Links() == MkCell(c.side, old_, Ptr(c.sib), Above(c.up), c.red) && Ptr(c.sib) != old_
    modifies root`node, if parent == null then {} else {parent}
    ensures c.Top? ==> root.node == new_
    ensures c.Step? ==>
              root.node == old(root.node) && c.n.Links() == MkCell(c.side, new_, Ptr(c.sib), Above(c.up), c.red)
  {
    if parent != null {
      if parent.left == old_ { parent.left := new_; } else { parent.right := new_; }
    } else {
      root.node := new_;
    }
  }

  /** __rb_rotate_set_parents: new_ takes old_'s place, parent and colour; old_ becomes its
      child with the given colour. */
  method RotateSetParents(old_: RbNode, new_: RbNode, root: RbRoot, red: bool, ghost c: Ctx)
    requires old_.parent == Above(c) && old_ != new_ && old_ != Above(c) && new_ != Above(c)
    requires c.Step? ==> c.n.Links() == MkCell(c.side, old_, Ptr(c.sib), Above(c.up), c.red) && Ptr(c.sib) != old_
    modifies root`node, old_`parent, old_`red, new_`parent, new_`red, if old_.parent == null then {} else {old_.parent}
    ensures c.Top? ==> root.node == new_
    ensures c.Step? ==>
              root.node == old(root.node) && c.n.Links() == MkCell(c.side, new_, Ptr(c.sib), Above(c.up), c.red)
    ensures new_.parent == old(old_.parent) && new_.red == old(old_.red)
    ensures old_.parent == new_ && old_.red == red
  {
    var parent := old_.parent;
    new_.parent, new_.red := old_.parent, old_.red;
    old_.parent, old_.red := new_, red;
    ChangeChild(old_, new_, parent, root, c);
  }

  lemma {:induction false} LinedFacts(m: Memory, root: RbNode?, up: Ctx, s: Side, a: Tree, q: RbNode?, p: RbNode,
                                      b: Tree, g: RbNode, u: Tree, gr: bool)
    requires Lined(m, root, up, s, a, q, p, b, g, u, gr)
    ensures p in m && m[p].Kid(s) == Ptr(a) && m[p].Kid(Other(s)) == Ptr(b)
    ensures g in m && m[g].Kid(Other(s)) == Ptr(u) && m[g].parent == Above(up) && m[g].red == gr
    ensures p != g && p != Above(up) && g != Above(up)
    ensures b.Node? ==> b.n in m && b.n != p && b.n != g && b.n != Above(up) && m[b.n].red == b.red && Ptr(a) != b.n
    ensures a.Node? ==>
              a.n in m && a.n != p && a.n != g && a.n != Above(up) && m[a.n].red == a.red && m[a.n].parent == q
    ensures up.Step? ==>
              up.n in m && m[up.n] == MkCell(up.side, g, Ptr(up.sib), Above(up.up), up.red) && Ptr(up.sib) != g
  {
    hide Nodes, CtxNodes, Sep, SepCtx, Rep, RepCtx, Mk, At;
    HoleFacts(m, root, up, g);
    RootNode(m, b, p);
    RootNode(m, a, q);
  }

  lemma {:induction false} InnerFacts(m: Memory, root: RbNode?, up: Ctx, s: Side, x: Tree, p: RbNode, i: Tree,
                                      n: RbNode, o: Tree, g: RbNode, u: Tree, pr: bool, gr: bool)
    requires At(m, root, up, Mk(s, Mk(Other(s), Mk(s, i, n, true, o), p, pr, x), g, gr, u))
    ensures p in m && n in m && g in m && p != n && p != g && n != g
    ensures m[p] == MkCell(Other(s), n, Ptr(x), g, pr) && m[n] == MkCell(s, Ptr(i), Ptr(o), p, true)
            && m[g] == MkCell(s, p, Ptr(u), Above(up), gr)
    ensures i.Node? ==> i.n in m && i.n != p && i.n != n && i.n != g && m[i.n].red == i.red
  {
    hide Nodes, CtxNodes, Sep, SepCtx, Rep, RepCtx, Mk, At;
    AtApart(m, root, up, s, Other(s), Mk(s, i, n, true, o), p, x, g, u, pr, gr);
    SepMk(s, i, n, true, o);
    RepMk(m, s, i, n, true, o, p);
    RootNode(m, i, n);
  }

  lemma {:induction false} RootPtr(t: Tree)
    ensures Ptr(t) == if t.Nil? then null else t.n
    ensures t.Node? ==> t.n in Nodes(t)
  {
  }

  lemma {:induction false} MkRoot(s: Side, near: Tree, n: RbNode, red: bool, far: Tree)
    ensures var t := Mk(s, near, n, red, far);
            t.Node? && t.n == n && t.red == red && On(s, t) == near && On(Other(s), t) == far
  {
  }

  lemma {:induction false} MkOn(s: Side, t: Tree)
    requires t.Node?
    ensures Mk(s, On(s, t), t.n, t.red, On(Other(s), t)) == t
  {
  }

  lemma {:induction false} MkFlip(s: Side, near: Tree, n: RbNode, red: bool, far: Tree)
    ensures Mk(Other(s), far, n, red, near) == Mk(s, near, n, red, far) && Other(Other(s)) == s
  {
  }

  ghost predicate Agree(m: Memory, m': Memory, S: set<RbNode>) {
    forall n | n in S && n in m :: n in m' && m'[n] == m[n]
  }

  lemma {:induction false} Grow(m: Memory, m': Memory, t: Tree, parent: RbNode?)
    requires Rep(m, t, parent) && Agree(m, m', Nodes(t))
    ensures Rep(m', t, parent)
  {
    if t.Node? {
      Grow(m, m', t.l, t.n);
      Grow(m, m', t.r, t.n);
    }
  }

  lemma {:induction false} GrowCtx(m: Memory, m': Memory, root: RbNode?, c: Ctx, hole: RbNode?)
    requires RepCtx(m, root, c, hole) && Agree(m, m', CtxNodes(c))
    ensures RepCtx(m', root, c, hole)
  {
    if c.Step? {
      Grow(m, m', c.sib, c.n);
      GrowCtx(m, m', root, c.up, c.n);
    }
  }

  /** The assignments of case 3 of __rb_insert and of case 1 of ____rb_erase_color. */
  method RotateLinks(root: RbRoot, s: Side, p: RbNode, g: RbNode, tmp: RbNode?, ghost c: Ctx)
    requires tmp == p.Child(Other(s)) && g.parent == Above(c)
    requires p != g && tmp != p && tmp != g && (tmp != null ==> tmp != Above(c)) && p != Above(c) && g != Above(c)
    requires c.Step? ==> c.n.Links() == MkCell(c.side, g, Ptr(c.sib), Above(c.up), c.red) && Ptr(c.sib) != g
    modifies root`node, p, g, if tmp == null then {} else {tmp}, if g.parent == null then {} else {g.parent}
    ensures p.Links() == MkCell(s, old(p.Child(s)), g, Above(c), old(g.red))
    ensures g.Links() == MkCell(s, tmp, old(g.Child(Other(s))), p, true)
    ensures tmp != null ==> tmp.Links() == old(tmp.Links()).(parent := g, red := false)
    ensures c.Top? ==> root.node == p
    ensures c.Step? ==> root.node == old(root.node) && c.n.Links() == MkCell(c.side, p, Ptr(c.sib), Above(c.up), c.red)
  {
    g.SetChild(s, tmp);
    p.SetChild(Other(s), g);
    if tmp != null {
      tmp.parent, tmp.red := g, false;
    }
    RotateSetParents(g, p, root, true, c);
  }

  /** Case 3 of __rb_insert (p is the parent, g the grandparent) and case 1 of ____rb_erase_color
      (p is the sibling, g the parent): rotate at g, which becomes red. */
  method Rotate(root: RbRoot, s: Side, p: RbNode, g: RbNode, tmp: RbNode?,
                     ghost S: set<RbNode>, ghost up: Ctx, ghost a: Tree, ghost b: Tree, ghost u: Tree)
    requires Lined(Mem(S), root.node, up, s, a, p, p, b, g, u, false) && !IsRed(b) && tmp == Ptr(b)
    modifies root`node, S
    ensures At(Mem(S), root.node, up, Mk(Other(s), Mk(s, b, g, true, u), p, false, a))
  {
    hide Nodes, CtxNodes, Sep, SepCtx, Sep3, Rep, RepCtx, Mk, At, Mem, Only, Lined;
    ghost var m := Mem(S);
    LinedFacts(m, root.node, up, s, a, p, p, b, g, u, false);
    MemAll(S);
    ghost var D := {p, g} + Opt(a) + Opt(b) + OptUp(up);
    RotateLinks(root, s, p, g, tmp, up);
    MemOnly(m, S, D);
    MemAll(S);
    ghost var ar := a.Node? && a.red;
    TintNodes(a, ar);
    OuterShape(m, old(root.node), up, s, a, p, p, b, g, u, false, true, ar, Mem(S), root.node);
  }

  method Paint(n: RbNode, red: bool, root: RbNode?, ghost S: set<RbNode>, ghost c: Ctx, ghost t: Tree)
    requires t.Node? && t.n == n && At(Mem(S), root, c, t)
    modifies S
    ensures At(Mem(S), root, c, Tint(t, red))
  {
    hide Nodes, CtxNodes, Sep, SepCtx, Rep, RepCtx;
    ghost var m := Mem(S);
    RootNode(m, t, Above(c));
    n.red := red;
    assert Mem(S) == m[n := m[n].(red := red)];
    PaintShape(m, root, c, t, red, Mem(S));
  }

  lemma {:induction false} PlugUp(c: Ctx, t: Tree)
    requires c.Step? && c.up.Step?
    ensures Plug(c, t) == Plug(c.up.up, Mk(c.up.side, Mk(c.side, t, c.n, c.red, c.sib), c.up.n, c.up.red, c.up.sib))
  {
  }

  lemma {:induction false} FocusFacts(S: set<RbNode>, root: RbNode?, c: Ctx, t: Tree)
    requires At(Mem(S), root, c, t) && t.Node?
    ensures t.n in S && t.n.parent == Above(c) && t.n.red == t.red
    ensures c.Step? ==> c.n in S && c.n.red == c.red
  {
  }

  lemma {:induction false} Finish(S: set<RbNode>, root: RbRoot, c: Ctx, t: Tree, h: nat, order: seq<RbNode>)
    requires At(Mem(S), root.node, c, t) && S == Elems(order)
    requires Balanced(t, h) && BalancedCtx(c, h) && (IsRed(t) ==> RedFits(c))
    requires Inorder(Plug(c, t)) == order
    ensures RedBlack(Plug(c, t)) && Nodes(Plug(c, t)) == S && At(Mem(S), root.node, Top, Plug(c, t))
  {
    hide Nodes, CtxNodes, Sep, SepCtx, Rep, RepCtx, At, Mem, Plug, Inorder, RedBlack;
    BalancedPlug(c, t, h);
    AtPlug(Mem(S), root.node, c, t);
    NodesInorder(Plug(c, t));
  }
}
