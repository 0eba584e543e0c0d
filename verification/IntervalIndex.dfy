/** The interval index of util/rbtree-interval.c and its MMIO client, mmio.c. */
module IntervalIndex {
  import opened RbTree
  import RbInsert
  import RbErase

  // ---------------------------------------------------------------- lists of intervals

  predicate Contains(e: Entry, point: nat) { e.low <= point < e.high }

  /** Neither interval lies entirely before the other.  For non-empty intervals this means that they
      share a point (OverlapSharesPoint). */
  predicate Overlap(a: Entry, b: Entry) { !(a.high <= b.low) && !(b.high <= a.low) }

  /** Each interval ends before the next one starts. */
  predicate Ordered(s: seq<Entry>) {
    && (forall i | 0 <= i < |s| :: s[i].low <= s[i].high)
    && (forall i, j | 0 <= i < j < |s| :: s[i].high <= s[j].low)
  }

  /** The linear scan the tree search stands for. */
  function Scan(s: seq<Entry>, point: nat): (r: int)
    ensures -1 <= r < |s|
    ensures r >= 0 ==> Contains(s[r], point)
    ensures r < 0 ==> forall i | 0 <= i < |s| :: !Contains(s[i], point)
  {
    if s == [] then -1
    else
      var last := |s| - 1;
      if Contains(s[last], point) then last else Scan(s[..last], point)
  }

  lemma {:induction false} OverlapSharesPoint(a: Entry, b: Entry)
    requires a.low < a.high && b.low < b.high
    ensures Overlap(a, b) <==> exists p :: Contains(a, p) && Contains(b, p)
  {
    if Overlap(a, b) {
      var p := if a.low < b.low then b.low else a.low;
      assert Contains(a, p) && Contains(b, p);
    }
  }

  /** In an ordered list no two intervals overlap and at most one contains a given point. */
  lemma {:induction false} OrderedDisjoint(s: seq<Entry>, i: nat, j: nat, point: nat)
    requires Ordered(s) && i < j < |s|
    ensures !Overlap(s[i], s[j]) && !(Contains(s[i], point) && Contains(s[j], point))
  {
    assert s[i].high <= s[j].low;
  }

  /** A new interval keeps the list ordered exactly where everything before it ends before it starts
      and everything after it starts after it ends. */
  lemma {:induction false} InsertOrdered(a: seq<Entry>, e: Entry, b: seq<Entry>)
    requires Ordered(a + b)
    requires forall i | 0 <= i < |a| :: a[i].high <= e.low
    requires forall i | 0 <= i < |b| :: e.high <= b[i].low
    ensures Ordered(a + [e] + b) <==> e.low <= e.high
    ensures forall i | 0 <= i < |a + b| :: !Overlap((a + b)[i], e)
  {
    var s, s' := a + b, a + [e] + b;
    forall i, j | 0 <= i < j < |s'|
      ensures s'[i].high <= s'[j].low
    {
      var i' := if i <= |a| then i else i - 1;
      var j' := if j <= |a| then j else j - 1;
      if i != |a| && j != |a| {
        assert s[i'] == s'[i] && s[j'] == s'[j];
      } else if i == |a| {
        assert s'[j] == b[j - |a| - 1];
      }
    }
    forall i | 0 <= i < |s'| && i != |a|
      ensures s'[i].low <= s'[i].high
    {
      assert s'[i] == s[if i < |a| then i else i - 1];
    }
    assert s'[|a|] == e;
  }

  lemma {:induction false} EraseOrdered(s: seq<Entry>, i: nat)
    requires Ordered(s) && i < |s|
    ensures Ordered(s[..i] + s[i + 1..])
  {
    var s' := s[..i] + s[i + 1..];
    forall p | 0 <= p < |s'|
      ensures s'[p] == s[if p < i then p else p + 1]
    {
    }
  }

  // ---------------------------------------------------------------- the index

  ghost function Entries(nodes: seq<RbNode>): (r: seq<Entry>)
    ensures |r| == |nodes| && forall i | 0 <= i < |nodes| :: r[i] == nodes[i].entry
  {
    if nodes == [] then [] else Entries(nodes[..|nodes| - 1]) + [nodes[|nodes| - 1].entry]
  }

  lemma {:induction false} EntriesJoin(a: seq<RbNode>, b: seq<RbNode>)
    ensures Entries(a + b) == Entries(a) + Entries(b)
  {
  }

  ghost predicate ValidIndex(root: RbRoot)
    reads root, Nodes(root.tree)
  {
    root.Valid() && Ordered(Entries(root.Elements()))
  }

  /** The subtree t in the hole of c is all that can still matter for `low`..`high`: what comes
      before ends at or before low and what comes after starts at or after high. */
  ghost predicate Narrowed(c: Ctx, low: nat, high: nat) {
    && (forall n | n in Before(c) :: n.entry.high <= low)
    && (forall n | n in After(c) :: high <= n.entry.low)
  }

  /** The intervals on either side of n. */
  lemma {:induction false} AroundNode(b: seq<RbNode>, l: seq<RbNode>, n: RbNode, r: seq<RbNode>, f: seq<RbNode>)
    requires Ordered(Entries(b + (l + [n] + r) + f))
    ensures n.entry.low <= n.entry.high
    ensures forall k | 0 <= k < |l| :: l[k].entry.high <= n.entry.low
    ensures forall k | 0 <= k < |r| :: n.entry.high <= r[k].entry.low
  {
    var all, i := b + (l + [n] + r) + f, |b| + |l|;
    var e := Entries(all);
    assert all[i] == n;
    hide Entries;
    forall k | 0 <= k < |l|
      ensures l[k].entry.high <= n.entry.low
    {
      assert all[|b| + k] == l[k] && e[|b| + k].high <= e[i].low;
    }
    forall k | 0 <= k < |r|
      ensures n.entry.high <= r[k].entry.low
    {
      assert all[i + 1 + k] == r[k] && e[i].high <= e[i + 1 + k].low;
    }
  }

  lemma {:induction false} GoLeft(c: Ctx, t: Tree, low: nat, high: nat)
    requires t.Node? && Narrowed(c, low, high) && Ordered(Entries(Inorder(Plug(c, t)))) && high <= t.n.entry.low
    ensures Narrowed(Step(c, Left, t.n, t.red, t.r), low, high)
  {
    hide Plug, Ordered, Entries;
    InorderPlug(c, t);
    AroundNode(Before(c), Inorder(t.l), t.n, Inorder(t.r), After(c));
    hide Inorder;
    assert forall n | n in Inorder(t.r) :: high <= n.entry.low;
  }

  lemma {:induction false} GoRight(c: Ctx, t: Tree, low: nat, high: nat)
    requires t.Node? && Narrowed(c, low, high) && Ordered(Entries(Inorder(Plug(c, t)))) && t.n.entry.high <= low
    ensures Narrowed(Step(c, Right, t.n, t.red, t.l), low, high)
  {
    hide Plug, Ordered, Entries;
    InorderPlug(c, t);
    AroundNode(Before(c), Inorder(t.l), t.n, Inorder(t.r), After(c));
    hide Inorder;
    assert forall n | n in Inorder(t.l) :: n.entry.high <= low;
  }

  lemma {:induction false} FocusLinks(S: set<RbNode>, root: RbNode?, c: Ctx, t: Tree)
    requires At(Mem(S), root, c, t)
    ensures t.Node? ==>
      && t.n in S && t.n.left == Ptr(t.l) && t.n.right == Ptr(t.r)
      && At(Mem(S), root, Step(c, Left, t.n, t.red, t.r), t.l)
      && At(Mem(S), root, Step(c, Right, t.n, t.red, t.l), t.r)
  {
    if t.Node? {
      Focus(Mem(S), root, Step(c, Left, t.n, t.red, t.r), t.l);
      Focus(Mem(S), root, Step(c, Right, t.n, t.red, t.l), t.r);
    }
  }

  lemma {:induction false} PlugNode(c: Ctx, t: Tree)
    requires t.Node?
    ensures Plug(Step(c, Left, t.n, t.red, t.r), t.l) == Plug(c, t) == Plug(Step(c, Right, t.n, t.red, t.l), t.r)
  {
  }

  /** A node that is reached lies in the tree. */
  lemma {:induction false} Reached(c: Ctx, t: Tree, tree: Tree)
    requires t.Node? && Plug(c, t) == tree
    ensures t.n in Inorder(tree) && t.n in Nodes(tree)
  {
    InorderPlug(c, t);
    NodesInorder(tree);
    assert t.n in Inorder(t);
  }

  /** Nothing is left in the hole: the whole tree misses low..high. */
  lemma {:induction false} Exhausted(c: Ctx, low: nat, high: nat)
    requires Narrowed(c, low, high)
    ensures forall n | n in Inorder(Plug(c, Nil)) :: n.entry.high <= low || high <= n.entry.low
  {
    InorderPlug(c, Nil);
  }

  /** What the linear scan of the nodes in order finds. */
  ghost function ScanNodes(nodes: seq<RbNode>, point: nat): RbNode? {
    var k := Scan(Entries(nodes), point);
    if k < 0 then null else nodes[k]
  }

  lemma {:induction false} ScanUnique(nodes: seq<RbNode>, point: nat, n: RbNode)
    requires Ordered(Entries(nodes)) && n in nodes && Contains(n.entry, point)
    ensures ScanNodes(nodes, point) == n
  {
    var k, j := Scan(Entries(nodes), point), 0;
    j :| 0 <= j < |nodes| && nodes[j] == n;
    assert Entries(nodes)[j] == n.entry;
    assert k >= 0 && k == j;
  }

  lemma {:induction false} ScanMiss(nodes: seq<RbNode>, point: nat)
    requires forall n | n in nodes :: n.entry.high <= point || point + 1 <= n.entry.low
    ensures ScanNodes(nodes, point) == null
  {
    var e := Entries(nodes);
    assert forall i | 0 <= i < |e| :: nodes[i] in nodes && !Contains(e[i], point);
  }

  /** rb_int_search_single: the stored interval that contains point, or none. */
  method SearchSingle(root: RbRoot, point: nat) returns (r: RbNode?)
    requires ValidIndex(root)
    ensures r == ScanNodes(root.Elements(), point) && ValidIndex(root)
  {
    hide Nodes, CtxNodes, Sep, SepCtx, Rep, RepCtx, At, Mem, Plug, Inorder, Before, After, RedBlack, Ordered, Entries,
      Narrowed;
    ghost var S := Nodes(root.tree);
    ghost var c, t := Top, root.tree;
    RbErase.PlugTop(root.tree);
    TopNarrowed(point, point + 1);
    TopPtr(S, root.node, root.tree);
    var node := root.node;
    while node != null
      invariant At(Mem(S), root.node, c, t) && node == Ptr(t) && Plug(c, t) == root.tree
      invariant Narrowed(c, point, point + 1)
      invariant ValidIndex(root)
      decreases t
    {
      FocusLinks(S, root.node, c, t);
      PlugNode(c, t);
      if point < node.entry.low {
        GoLeft(c, t, point, point + 1);
        c, t := Step(c, Left, t.n, t.red, t.r), t.l;
        node := node.left;
      } else if node.entry.high <= point {
        GoRight(c, t, point, point + 1);
        c, t := Step(c, Right, t.n, t.red, t.l), t.r;
        node := node.right;
      } else {
        Reached(c, t, root.tree);
        ScanUnique(root.Elements(), point, node);
        return node;
      }
    }
    Exhausted(c, point, point + 1);
    ScanMiss(root.Elements(), point);
    return null;
  }

  lemma {:induction false} TopNarrowed(low: nat, high: nat)
    ensures Narrowed(Top, low, high)
  {
  }

  lemma {:induction false} TopPtr(S: set<RbNode>, root: RbNode?, t: Tree)
    requires At(Mem(S), root, Top, t)
    ensures root == Ptr(t)
  {
  }

  /** rb_int_search_range: the stored interval that contains low and does not end before high. */
  method SearchRange(root: RbRoot, low: nat, high: nat) returns (r: RbNode?)
    requires ValidIndex(root)
    ensures var hit := ScanNodes(root.Elements(), low);
      r == if hit != null && high <= hit.entry.high then hit else null
    ensures ValidIndex(root)
  {
    hide RbRoot.Valid, ScanNodes;
    var range := SearchSingle(root, low);
    if range == null {
      return null;
    }
    if range.entry.high < high {
      return null;
    }
    return range;
  }

  /** Where a new interval goes, or that it overlaps one that is stored. */
  method Descend(root: RbRoot, low: nat, high: nat) returns (found: bool, parent: RbNode?, s: Side, ghost c: Ctx)
    requires ValidIndex(root)
    ensures !found ==>
              Plug(c, Nil) == root.tree && parent == Above(c) && (c.Step? ==> s == c.side) && Narrowed(c, low, high)
    ensures ValidIndex(root)
    ensures found ==> exists i ::
              0 <= i < |root.Elements()| && !(root.Elements()[i].entry.high <= low)
              && !(high <= root.Elements()[i].entry.low)
  {
    hide Nodes, CtxNodes, Sep, SepCtx, Rep, RepCtx, At, Mem, Plug, Inorder, Before, After, RedBlack, Ordered, Entries,
      Narrowed;
    ghost var S := Nodes(root.tree);
    ghost var t := root.tree;
    found, parent, s, c := false, null, Left, Top;
    RbErase.PlugTop(root.tree);
    TopNarrowed(low, high);
    TopPtr(S, root.node, root.tree);
    var node := root.node;
    while node != null
      invariant At(Mem(S), root.node, c, t) && node == Ptr(t) && Plug(c, t) == root.tree && !found
      invariant Narrowed(c, low, high) && parent == Above(c) && (c.Step? ==> s == c.side)
      invariant ValidIndex(root)
      decreases t
    {
      FocusLinks(S, root.node, c, t);
      PlugNode(c, t);
      parent := node;
      if high <= node.entry.low {
        GoLeft(c, t, low, high);
        c, t := Step(c, Left, t.n, t.red, t.r), t.l;
        node, s := node.left, Left;
      } else if node.entry.high <= low {
        GoRight(c, t, low, high);
        c, t := Step(c, Right, t.n, t.red, t.l), t.r;
        node, s := node.right, Right;
      } else {
        Reached(c, t, root.tree);
        found := true;
        return;
      }
    }
  }

  /** rb_int_insert: fails (-EEXIST) exactly when a stored interval overlaps the new one; otherwise the
      new one is added in its place.  The intervals stay ordered if and only if it does not end before it starts. */
  method Insert(root: RbRoot, node: RbNode) returns (ok: bool)
    requires ValidIndex(root) && node !in root.Elements()
    modifies root, node, Nodes(root.tree)
    ensures root.Valid() && (ValidIndex(root) <==> !ok || node.entry.low <= node.entry.high)
    ensures !ok <==> exists i :: 0 <= i < |old(root.Elements())| && Overlap(old(root.Elements())[i].entry, node.entry)
    ensures !ok ==> root.Elements() == old(root.Elements())
    ensures ok ==> exists a, b :: old(root.Elements()) == a + b && root.Elements() == a + [node] + b
  {
    hide Nodes, CtxNodes, Sep, SepCtx, Rep, RepCtx, At, Mem, Plug, Inorder, Before, After, RedBlack, Ordered, Entries,
      RbRoot.Valid;
    NodesInorder(root.tree);
    var found, parent, s;
    ghost var c;
    found, parent, s, c := Descend(root, node.entry.low, node.entry.high);
    if found {
      return false;
    }
    Exhausted(c, node.entry.low, node.entry.high);
    RbErase.InorderNil();
    InorderPlug(c, Nil);
    SlotNodes(root, c);
    ghost var a, b := Before(c), After(c);
    assert a + [] + b == a + b;
    EntriesJoin(a, b);
    EntriesJoin(a + [node], b);
    EntriesJoin(a, [node]);
    EntriesOne(node);
    EntriesIn(a);
    EntriesIn(b);
    InsertOrdered(Entries(a), node.entry, Entries(b));
    RbInsert.LinkNode(root, node, parent, s, c);
    RbInsert.InsertColor(root, node, c);
    return true;
  }

  lemma {:induction false} SlotNodes(root: RbRoot, c: Ctx)
    requires root.Valid() && root.tree == Plug(c, Nil)
    ensures CtxNodes(c) == Nodes(root.tree) && (c.Step? ==> c.n in CtxNodes(c)) && RedBlack(Plug(c, Nil))
  {
    InorderPlug(c, Nil);
  }

  lemma {:induction false} EntriesOne(n: RbNode)
    ensures Entries([n]) == [n.entry]
  {
  }

  lemma {:induction false} EntriesIn(nodes: seq<RbNode>)
    ensures |Entries(nodes)| == |nodes| && forall i | 0 <= i < |nodes| ::
              Entries(nodes)[i] == nodes[i].entry && nodes[i] in nodes
  {
  }

  /** rb_int_erase */
  method Remove(root: RbRoot, node: RbNode)
    requires ValidIndex(root) && node in root.Elements()
    modifies root, Nodes(root.tree)
    ensures ValidIndex(root)
    ensures exists i :: 0 <= i < |old(root.Elements())| && old(root.Elements())[i] == node
                        && root.Elements() == old(root.Elements())[..i] + old(root.Elements())[i + 1..]
  {
    hide RbRoot.Valid, RbRoot.Elements, Ordered, Entries;
    ghost var s := root.Elements();
    RbErase.Erase(root, node);
    ghost var i :| 0 <= i < |s| && s[i] == node && root.Elements() == s[..i] + s[i + 1..];
    EntriesDrop(s, i);
    EraseOrdered(Entries(s), i);
  }

  lemma {:induction false} EntriesInsert(a: seq<RbNode>, n: RbNode, b: seq<RbNode>)
    ensures Entries(a + [n] + b) == Entries(a + b)[..|a|] + [n.entry] + Entries(a + b)[|a|..]
  {
  }

  lemma {:induction false} ElementsDistinct(root: RbRoot)
    requires root.Valid()
    ensures forall i, j :: 0 <= i < j < |root.Elements()| ==> root.Elements()[i] != root.Elements()[j]
  {
    RbErase.InorderDistinct(root.tree);
  }

  lemma {:induction false} NodesAllocated(t: Tree)
    ensures forall n | n in Nodes(t) :: allocated(n)
  {
    if t.Node? {
      NodesAllocated(t.l);
      NodesAllocated(t.r);
    }
  }

  lemma {:induction false} EntriesDrop(s: seq<RbNode>, i: nat)
    requires i < |s|
    ensures |Entries(s)| == |s| && Entries(s[..i] + s[i + 1..]) == Entries(s)[..i] + Entries(s)[i + 1..]
  {
  }
}

/** mmio.c: the MMIO dispatcher, a client of the interval index. */
module Mmio {
  import opened Bytes
  import opened RbTree
  import opened IntervalIndex

  /** The mapping an access of len bytes at addr is dispatched to.  The end of the access is computed
      in 64 bits. */
  ghost function Target(s: seq<Entry>, addr: nat, len: nat): (r: int)
    ensures -1 <= r < |s|
  {
    var k := Scan(s, addr);
    if k >= 0 && (addr + len) % U64 <= s[k].high then k else -1
  }

  /** The dispatch rule says what it should: an access that does not wrap reaches the one mapping that
      contains all of it, or none does. */
  lemma {:induction false} TargetContainsAccess(s: seq<Entry>, addr: nat, len: nat)
    requires Ordered(s) && addr + len < U64 && len > 0
    ensures var k := Target(s, addr, len);
      && (k >= 0 ==> s[k].low <= addr && addr + len <= s[k].high)
      && (forall j | 0 <= j < |s| && s[j].low <= addr && addr + len <= s[j].high :: j == k)
  {
    var m := Scan(s, addr);
    forall j | 0 <= j < |s| && s[j].low <= addr && addr + len <= s[j].high
      ensures j == m
    {
      assert Contains(s[j], addr);
    }
  }

  /** The ends of the mappings are 64 bits wide. */
  predicate Bounded(s: seq<Entry>) { forall i | 0 <= i < |s| :: s[i].high < U64 }

  /** An access that wraps past the end of the address space is dispatched although no mapping
      contains it: the 64-bit end of the access is small. */
  lemma {:induction false} WrappingAccessIsDispatched()
    ensures var s := [Entry(0x1000, 0xffff_ffff_ffff_ffff, 7)];
      var addr, len := 0xffff_ffff_ffff_fff0, 0x20;
      Ordered(s) && Target(s, addr, len) == 0 && addr + len > s[0].high
  {
    var s := [Entry(0x1000, 0xffff_ffff_ffff_ffff, 7)];
    assert Scan(s, 0xffff_ffff_ffff_fff0) == 0;
  }

  /** Whatever is registered, an access reaches only a mapping that contains all of it: this holds if and only
      if the access does not wrap, or starts at the very last address, which no mapping contains. */
  lemma {:induction false} DispatchExact(addr: nat, len: nat)
    requires 0 < len < U64 && addr < U64
    ensures (forall s: seq<Entry> | Ordered(s) && Bounded(s) && Target(s, addr, len) >= 0 ::
               addr + len <= s[Target(s, addr, len)].high)
            <==> addr + len < U64 || addr == U64 - 1
  {
    if addr + len < U64 {
      forall s: seq<Entry> | Ordered(s) && Bounded(s) && Target(s, addr, len) >= 0
        ensures addr + len <= s[Target(s, addr, len)].high
      {
        TargetContainsAccess(s, addr, len);
      }
    } else if addr < U64 - 1 {
      var s := [Entry(addr, addr + 1, 0)];
      assert Contains(s[0], addr);
      assert Ordered(s) && Bounded(s) && Target(s, addr, len) == 0;
    }
  }

  /** s' is s with e put in at position k. */
  predicate InsertedAt(s: seq<Entry>, e: Entry, s': seq<Entry>, k: int) {
    0 <= k <= |s| && s' == s[..k] + [e] + s[k..]
  }

  lemma {:induction false} BoundedInsert(s: seq<Entry>, e: Entry, k: nat)
    requires Bounded(s) && e.high < U64 && k <= |s|
    ensures Bounded(s[..k] + [e] + s[k..])
  {
  }

  lemma {:induction false} BoundedErase(s: seq<Entry>, k: nat)
    requires Bounded(s) && k < |s|
    ensures Bounded(s[..k] + s[k + 1..])
  {
  }

  class Bus {
    const tree: RbRoot

    ghost predicate Valid()
      reads this, tree, Nodes(tree.tree)
    {
      ValidIndex(tree) && Bounded(Mappings())
    }

    /** The registered mappings in address order. */
    ghost function Mappings(): seq<Entry>
      reads this, tree
    {
      Entries(tree.Elements())
    }

    constructor ()
      ensures Valid() && Mappings() == [] && fresh(tree)
    {
      tree := new RbRoot();
    }

    /** kvm__register_mmio: the end of the range is computed in 64 bits, and the index stays valid if and only if
        the range is refused or does not wrap. */
    method Register(physAddr: nat, len: nat, handler: nat) returns (ok: bool)
      requires Valid() && physAddr < U64 && len < U64
      modifies tree, Nodes(tree.tree)
      ensures tree.Valid() && (Valid() <==> !ok || physAddr + len < U64)
      ensures var e := Entry(physAddr, (physAddr + len) % U64, handler);
        && (!ok <==> exists i :: 0 <= i < |old(Mappings())| && Overlap(old(Mappings())[i], e))
        && (!ok ==> Mappings() == old(Mappings()))
        && (ok ==> exists k :: InsertedAt(old(Mappings()), e, Mappings(), k))
      ensures fresh(Nodes(tree.tree) - old(Nodes(tree.tree)))
    {
      hide RbRoot.Valid, Ordered, Entries, Nodes, Inorder, Bounded;
      ghost var old_ := tree.Elements();
      NodesInorder(tree.tree);
      EntriesIn(old_);
      NodesAllocated(tree.tree);
      var node := new RbNode(Entry(physAddr, (physAddr + len) % U64, handler));
      assert node !in Nodes(tree.tree);
      assert ValidIndex(tree);
      ok := IntervalIndex.Insert(tree, node);
      NodesInorder(tree.tree);
      if ok {
        ghost var a, b :| old_ == a + b && tree.Elements() == a + [node] + b;
        EntriesInsert(a, node, b);
        assert InsertedAt(Entries(old_), node.entry, Mappings(), |a|);
        BoundedInsert(Entries(old_), node.entry, |a|);
      }
      assert old(Mappings()) == Entries(old_);
    }

    /** kvm__deregister_mmio */
    method Deregister(physAddr: nat) returns (found: bool)
      requires Valid()
      modifies tree, Nodes(tree.tree)
      ensures Valid()
      ensures var k := Scan(old(Mappings()), physAddr);
        && found == (k >= 0)
        && Mappings() == if found then old(Mappings())[..k] + old(Mappings())[k + 1..] else old(Mappings())
    {
      hide RbRoot.Valid, Ordered, Entries, Nodes, Inorder;
      ghost var s := tree.Elements();
      ghost var k := Scan(Entries(s), physAddr);
      EntriesIn(s);
      var mmio := SearchSingle(tree, physAddr);
      if mmio == null {
        return false;
      }
      ElementsDistinct(tree);
      IntervalIndex.Remove(tree, mmio);
      ghost var i :| 0 <= i < |s| && s[i] == mmio && tree.Elements() == s[..i] + s[i + 1..];
      assert i == k;
      EntriesDrop(s, i);
      BoundedErase(Entries(s), i);
      return true;
    }

    /** kvm__emulate_mmio: the handler that is called, if any. */
    method Emulate(physAddr: nat, len: nat) returns (hit: bool, handler: nat)
      requires Valid()
      ensures var k := Target(Mappings(), physAddr, len);
        hit == (k >= 0) && (hit ==> handler == Mappings()[k].handler)
    {
      hide RbRoot.Valid, Ordered, Entries, Nodes, Inorder;
      EntriesIn(tree.Elements());
      var mmio := SearchRange(tree, physAddr, (physAddr + len) % U64);
      EntriesIn(tree.Elements());
      if mmio == null {
        return false, 0;
      }
      return true, mmio.entry.handler;
    }
  }
}
