/** The refcounting cluster allocator of disk/qcow.c: qcow_alloc_clusters, update_cluster_refcount and
    qcow_grow_refcount_block call each other.  All I/O is taken to succeed, so a refcount block on disk and
    its cached copy are the same thing. */
module QcowAlloc {

  import opened Bytes

  /** The refcount metadata.  perBlock is the number of 16-bit entries in a refcount block, which fills one
      cluster; table maps the index of a refcount block to its offset in the file, or 0; blocks holds the
      entries by offset; free is free_clust_idx. */
  datatype Meta = Meta(perBlock: nat, table: seq<nat>, blocks: map<nat, seq<nat>>, free: nat) {
    function ClusterSize(): nat { 2 * perBlock }

    /** The number of clusters the table can count. */
    function Limit(): nat { |table| * perBlock }
  }

  ghost predicate Shape(m: Meta) {
    && m.perBlock > 0
    && (forall k | 0 <= k < |m.table| && m.table[k] != 0 ::
          && m.table[k] % m.ClusterSize() == 0 && m.table[k] in m.blocks
          && |m.blocks[m.table[k]]| == m.perBlock
          && forall i | 0 <= i < m.perBlock :: m.blocks[m.table[k]][i] < U16)
    && (forall j, k | 0 <= j < k < |m.table| && m.table[j] != 0 :: m.table[j] != m.table[k])
  }

  /** The refcount of a cluster (qcow_get_refcount). */
  function Ref(m: Meta, idx: nat): nat
    requires Shape(m)
  {
    var k := idx / m.perBlock;
    if k >= |m.table| || m.table[k] == 0 then 0 else m.blocks[m.table[k]][idx % m.perBlock]
  }

  /** The cluster that holds refcount block k. */
  function BlockCluster(m: Meta, k: nat): nat
    requires m.perBlock > 0 && k < |m.table|
  {
    DivNat(m.table[k], m.ClusterSize());
    m.table[k] / m.ClusterSize()
  }

  lemma {:induction false} DivNat(a: nat, s: nat)
    requires s > 0
    ensures a / s >= 0
  {
  }

  function ZeroSlots(table: seq<nat>): nat {
    if table == [] then 0 else (if table[0] == 0 then 1 else 0) + ZeroSlots(table[1..])
  }

  /** The highest cluster index the allocator can get to. */
  function Top(m: Meta): nat { (if m.free < m.Limit() then m.Limit() else m.free) + ZeroSlots(m.table) }

  /** The clusters that hold refcount blocks are in use, or at least behind free_clust_idx, and so is
      the header. */
  ghost predicate Anchored(m: Meta) {
    && Shape(m) && Ref(m, 0) > 0
    && forall k | 0 <= k < |m.table| && m.table[k] != 0 :: Ref(m, BlockCluster(m, k)) > 0 || BlockCluster(m, k) < m.free
  }

  /** Between operations the clusters that hold refcount blocks are counted. */
  ghost predicate Settled(m: Meta) {
    && Shape(m) && Ref(m, 0) > 0
    && forall k | 0 <= k < |m.table| && m.table[k] != 0 :: Ref(m, BlockCluster(m, k)) > 0
  }

  // ---------------------------------------------------------------- arithmetic of cluster numbers

  lemma {:induction false} DivMod(a: nat, b: nat, e: nat)
    requires e > 0 && a / e == b / e && a % e == b % e
    ensures a == b
  {
    assert a == (a / e) * e + a % e;
    assert b == (b / e) * e + b % e;
  }

  lemma {:induction false} MulDiv(c: nat, s: nat)
    requires s > 0
    ensures (c * s) / s == c && (c * s) % s == 0
  {
    Quotient(c * s, s, c, 0);
  }

  lemma {:induction false} ZeroSlotsUpdate(table: seq<nat>, k: nat, v: nat)
    requires k < |table| && table[k] == 0 && v != 0
    ensures ZeroSlots(table[k := v]) + 1 == ZeroSlots(table)
  {
    if k == 0 {
      assert table[k := v][1..] == table[1..];
    } else {
      ZeroSlotsUpdate(table[1..], k - 1, v);
      assert table[k := v][1..] == table[1..][k - 1 := v];
    }
  }

  // ---------------------------------------------------------------- the two elementary writes

  /** The refcount block of the cluster exists. */
  predicate HasSlot(m: Meta, idx: nat) {
    m.perBlock > 0 && idx / m.perBlock < |m.table| && m.table[idx / m.perBlock] != 0
  }

  function SetEntry(m: Meta, idx: nat, v: nat): Meta
    requires Shape(m) && HasSlot(m, idx)
  {
    var off := m.table[idx / m.perBlock];
    var entries: seq<nat> := m.blocks[off][idx % m.perBlock := v];
    m.(blocks := m.blocks[off := entries])
  }

  function AddBlock(m: Meta, k: nat, off: nat): Meta
    requires k < |m.table|
  {
    m.(table := m.table[k := off], blocks := m.blocks[off := seq(m.perBlock, _ => 0)])
  }

  /** Writing one entry changes one refcount. */
  lemma {:induction false} SetEntryShape(m: Meta, idx: nat, v: nat)
    requires Shape(m) && HasSlot(m, idx) && v < U16
    ensures Shape(SetEntry(m, idx, v))
  {
  }

  lemma {:induction false} SetEntryRef(m: Meta, idx: nat, v: nat, c: nat)
    requires Shape(m) && HasSlot(m, idx) && v < U16
    ensures Shape(SetEntry(m, idx, v)) && Ref(SetEntry(m, idx, v), c) == if c == idx then v else Ref(m, c)
  {
    SetEntryShape(m, idx, v);
    var k, q := idx / m.perBlock, c / m.perBlock;
    if q < |m.table| && m.table[q] != 0 && q == k && c != idx {
      if c % m.perBlock == idx % m.perBlock {
        DivMod(c, idx, m.perBlock);
      }
    }
  }

  /** A new refcount block of zeros changes no refcount. */
  lemma {:induction false} AddBlockShape(m: Meta, k: nat, off: nat)
    requires Shape(m) && k < |m.table| && m.table[k] == 0 && off != 0 && off % m.ClusterSize() == 0
    requires forall j | 0 <= j < |m.table| :: m.table[j] != off
    ensures Shape(AddBlock(m, k, off))
  {
  }

  lemma {:induction false} AddBlockRef(m: Meta, k: nat, off: nat, c: nat)
    requires Shape(m) && k < |m.table| && m.table[k] == 0 && off != 0 && off % m.ClusterSize() == 0
    requires forall j | 0 <= j < |m.table| :: m.table[j] != off
    ensures Shape(AddBlock(m, k, off)) && Ref(AddBlock(m, k, off), c) == Ref(m, c)
  {
    AddBlockShape(m, k, off);
  }

  // ---------------------------------------------------------------- what an allocation may change

  /** Cluster c holds a refcount block that m' has and m has not. */
  ghost predicate NewBlock(m: Meta, m': Meta, c: int) {
    m'.perBlock > 0 && exists k ::
        0 <= k < |m.table| == |m'.table| && m.table[k] == 0 && m'.table[k] != 0 && BlockCluster(m', k) == c
  }

  /** From m to m' the refcount of c stayed as it was, or went from 0 to 1 for a new refcount block. */
  ghost predicate Kept(m: Meta, m': Meta, c: nat)
    requires Shape(m) && Shape(m')
  {
    Ref(m', c) == Ref(m, c) || (Ref(m, c) == 0 && Ref(m', c) == 1 && NewBlock(m, m', c))
  }

  /** m' has the refcount blocks of m and maybe more, in clusters that were free in m and are now behind
      free_clust_idx. */
  ghost predicate Extends(m: Meta, m': Meta) {
    && Anchored(m) && Anchored(m')
    && m'.perBlock == m.perBlock && |m'.table| == |m.table| && m.free <= m'.free
    && ZeroSlots(m'.table) <= ZeroSlots(m.table)
    && (forall k | 0 <= k < |m.table| && m.table[k] != 0 :: m'.table[k] == m.table[k])
    && (forall k | 0 <= k < |m.table| && m.table[k] == 0 && m'.table[k] != 0 ::
          var c := BlockCluster(m', k); m.free <= c < m'.free && Ref(m, c) == 0 && Ref(m', c) > 0)
  }

  /** n clusters from a on went from 0 to 1, and nothing else but new refcount blocks changed. */
  ghost predicate Counted(m: Meta, m': Meta, a: nat, n: nat) {
    && Extends(m, m')
    && (forall c: nat | a <= c < a + n :: Ref(m, c) == 0 && Ref(m', c) == 1)
    && (forall c: nat | !(a <= c < a + n) :: Kept(m, m', c))
  }

  lemma {:induction false} NewBlockBehind(m: Meta, m': Meta, c: int)
    requires Extends(m, m') && NewBlock(m, m', c)
    ensures m.free <= c < m'.free
  {
    var k :| 0 <= k < |m.table| && m.table[k] == 0 && m'.table[k] != 0 && BlockCluster(m', k) == c;
  }

  lemma {:induction false} NewBlockStays(m: Meta, m1: Meta, m2: Meta, c: int)
    requires Extends(m, m1) && Extends(m1, m2) && (NewBlock(m, m1, c) || NewBlock(m1, m2, c))
    ensures NewBlock(m, m2, c)
  {
    if NewBlock(m, m1, c) {
      var k :| 0 <= k < |m.table| && m.table[k] == 0 && m1.table[k] != 0 && BlockCluster(m1, k) == c;
      assert m2.table[k] == m1.table[k];
      assert BlockCluster(m2, k) == c;
    } else {
      var k :| 0 <= k < |m1.table| && m1.table[k] == 0 && m2.table[k] != 0 && BlockCluster(m2, k) == c;
      assert m.table[k] == 0;
    }
  }

  lemma {:induction false} ExtendsTransitive(m: Meta, m1: Meta, m2: Meta)
    requires Extends(m, m1) && Extends(m1, m2)
    requires forall c: nat :: (Ref(m, c) > 0 ==> Ref(m1, c) > 0) && (Ref(m1, c) > 0 ==> Ref(m2, c) > 0)
    ensures Extends(m, m2)
  {
    forall k | 0 <= k < |m.table| && m.table[k] == 0 && m2.table[k] != 0
      ensures var c := BlockCluster(m2, k); m.free <= c < m2.free && Ref(m, c) == 0 && Ref(m2, c) > 0
    {
      if m1.table[k] != 0 {
        assert m2.table[k] == m1.table[k];
        assert BlockCluster(m2, k) == BlockCluster(m1, k);
      }
    }
  }

  lemma {:induction false} CountedKeeps(m: Meta, m': Meta, a: nat, n: nat)
    requires Counted(m, m', a, n)
    ensures Shape(m) && Shape(m') && forall c: nat | Ref(m, c) > 0 :: Ref(m', c) == Ref(m, c)
  {
    forall c: nat | Ref(m, c) > 0
      ensures Ref(m', c) == Ref(m, c)
    {
      if !(a <= c < a + n) {
        assert Kept(m, m', c);
      }
    }
  }

  /** One more cluster of the range is counted. */
  lemma {:induction false} CountOne(m: Meta, m1: Meta, m2: Meta, a: nat, i: nat)
    requires Counted(m, m1, a, i) && Counted(m1, m2, a + i, 1) && a + i < m.free
    ensures Counted(m, m2, a, i + 1)
  {
    CountedKeeps(m, m1, a, i);
    CountedKeeps(m1, m2, a + i, 1);
    hide Shape, Anchored, Extends, NewBlock, Ref;
    ExtendsTransitive(m, m1, m2);
    ExtendsShape(m, m1);
    ExtendsShape(m1, m2);
    forall c: nat | a <= c < a + i + 1
      ensures Ref(m, c) == 0 && Ref(m2, c) == 1
    {
      if c == a + i {
        assert Kept(m, m1, c);
      } else {
        assert Kept(m1, m2, c);
      }
    }
    forall c: nat | !(a <= c < a + i + 1)
      ensures Kept(m, m2, c)
    {
      assert Kept(m, m1, c) && Kept(m1, m2, c);
      if NewBlock(m, m1, c) || NewBlock(m1, m2, c) {
        NewBlockStays(m, m1, m2, c);
      }
    }
  }

  lemma {:induction false} ExtendsShape(m: Meta, m': Meta)
    requires Extends(m, m')
    ensures Shape(m) && Shape(m')
  {
  }

  // ---------------------------------------------------------------- the steps of the allocator

  lemma {:induction false} ScanStays(m: Meta, f: nat)
    requires Anchored(m) && f >= m.free
    ensures Anchored(m.(free := f)) && forall c: nat :: Ref(m.(free := f), c) == Ref(m, c)
  {
    var m1 := m.(free := f);
    assert Shape(m1);
    assert forall c: nat :: Ref(m1, c) == Ref(m, c);
    forall k | 0 <= k < |m1.table| && m1.table[k] != 0
      ensures Ref(m1, BlockCluster(m1, k)) > 0 || BlockCluster(m1, k) < f
    {
      assert BlockCluster(m1, k) == BlockCluster(m, k);
    }
  }

  /** Counting a free cluster whose refcount block exists. */
  lemma {:induction false} BumpCounted(m: Meta, idx: nat)
    requires Anchored(m) && HasSlot(m, idx) && Ref(m, idx) == 0
    ensures Counted(m, SetEntry(m, idx, 1), idx, 1)
  {
    var m1 := SetEntry(m, idx, 1);
    SetEntryShape(m, idx, 1);
    forall c: nat
      ensures Ref(m1, c) == if c == idx then 1 else Ref(m, c)
    {
      SetEntryRef(m, idx, 1, c);
    }
    assert Ref(m1, 0) > 0;
    forall k | 0 <= k < |m1.table| && m1.table[k] != 0
      ensures Ref(m1, BlockCluster(m1, k)) > 0 || BlockCluster(m1, k) < m1.free
    {
      assert BlockCluster(m1, k) == BlockCluster(m, k);
    }
    assert Extends(m, m1);
  }

  /** The state in which a grown refcount block is entered in the table but not yet counted. */
  function Grown(m: Meta, k: nat, a: nat): Meta
    requires k < |m.table|
  {
    AddBlock(m.(free := a + 1), k, a * m.ClusterSize())
  }

  lemma {:induction false} FreshOffset(m: Meta, a: nat)
    requires Anchored(m) && a >= m.free && Ref(m, a) == 0
    ensures a * m.ClusterSize() != 0 && (a * m.ClusterSize()) % m.ClusterSize() == 0
    ensures forall j | 0 <= j < |m.table| :: m.table[j] != a * m.ClusterSize()
  {
    MulDiv(a, m.ClusterSize());
    assert a > 0;
    ProductOrder(1, a, m.ClusterSize());
    forall j | 0 <= j < |m.table|
      ensures m.table[j] != a * m.ClusterSize()
    {
      if m.table[j] != 0 {
        assert BlockCluster(m, j) != a;
      }
    }
  }

  lemma {:induction false} GrownShape(m: Meta, k: nat, a: nat)
    requires Anchored(m) && k < |m.table| && m.table[k] == 0 && a >= m.free && Ref(m, a) == 0
    ensures Shape(Grown(m, k, a)) && forall c: nat :: Ref(Grown(m, k, a), c) == Ref(m, c)
    ensures Grown(m, k, a).table[k] != 0 && BlockCluster(Grown(m, k, a), k) == a
    ensures ZeroSlots(Grown(m, k, a).table) + 1 == ZeroSlots(m.table)
  {
    var m1 := m.(free := a + 1);
    var off := a * m.ClusterSize();
    FreshOffset(m, a);
    ScanStays(m, a + 1);
    MulDiv(a, m.ClusterSize());
    ZeroSlotsUpdate(m.table, k, off);
    AddBlockShape(m1, k, off);
    forall c: nat
      ensures Ref(Grown(m, k, a), c) == Ref(m, c)
    {
      AddBlockRef(m1, k, off, c);
    }
  }

  lemma {:induction false} GrownAnchored(m: Meta, k: nat, a: nat)
    requires Anchored(m) && k < |m.table| && m.table[k] == 0 && a >= m.free && Ref(m, a) == 0
    ensures Anchored(Grown(m, k, a))
  {
    GrownShape(m, k, a);
    var m2 := Grown(m, k, a);
    forall j | 0 <= j < |m2.table| && m2.table[j] != 0
      ensures Ref(m2, BlockCluster(m2, j)) > 0 || BlockCluster(m2, j) < m2.free
    {
      if j != k {
        assert m.table[j] == m2.table[j];
        assert BlockCluster(m2, j) == BlockCluster(m, j);
      }
    }
  }

  /** Once the block's own cluster is counted, growing has changed nothing but new refcount blocks. */
  lemma {:induction false} GrowDone(m: Meta, k: nat, a: nat, m3: Meta)
    requires Anchored(m) && k < |m.table| && m.table[k] == 0 && a >= m.free && Ref(m, a) == 0
    requires Counted(Grown(m, k, a), m3, a, 1)
    ensures Counted(m, m3, 0, 0) && m3.table[k] != 0
  {
    var m2 := Grown(m, k, a);
    GrownShape(m, k, a);
    assert m3.table[k] == m2.table[k];
    assert BlockCluster(m3, k) == a;
    assert NewBlock(m, m3, a);
    GrowExtends(m, k, a, m3);
    forall c: nat
      ensures Kept(m, m3, c)
    {
      if c != a {
        assert Kept(m2, m3, c);
        if NewBlock(m2, m3, c) {
          var j :| 0 <= j < |m2.table| && m2.table[j] == 0 && m3.table[j] != 0 && BlockCluster(m3, j) == c;
          assert m.table[j] == 0;
        }
      }
    }
  }

  lemma {:induction false} GrowExtends(m: Meta, k: nat, a: nat, m3: Meta)
    requires Anchored(m) && k < |m.table| && m.table[k] == 0 && a >= m.free && Ref(m, a) == 0
    requires Counted(Grown(m, k, a), m3, a, 1)
    ensures Extends(m, m3)
  {
    var m2 := Grown(m, k, a);
    GrownShape(m, k, a);
    assert m3.table[k] == m2.table[k];
    assert BlockCluster(m3, k) == a;
    forall j | 0 <= j < |m.table| && m.table[j] != 0
      ensures m3.table[j] == m.table[j]
    {
      assert m2.table[j] == m.table[j];
    }
    forall j | 0 <= j < |m.table| && m.table[j] == 0 && m3.table[j] != 0
      ensures var c := BlockCluster(m3, j); m.free <= c < m3.free && Ref(m, c) == 0 && Ref(m3, c) > 0
    {
      if j != k {
        assert m2.table[j] == 0;
      }
    }
  }

  lemma {:induction false} DropSlotShape(m: Meta, k: nat)
    requires Shape(m) && k < |m.table|
    ensures Shape(m.(table := m.table[k := 0]))
  {
  }

  /** Two states with one table and the same refcounts. */
  lemma {:induction false} SameCounted(m: Meta, m': Meta)
    requires Anchored(m) && Shape(m') && m'.perBlock == m.perBlock && m'.table == m.table && m'.free >= m.free
    requires forall c: nat :: Ref(m', c) == Ref(m, c)
    ensures Counted(m, m', 0, 0)
  {
    forall j | 0 <= j < |m'.table| && m'.table[j] != 0
      ensures Ref(m', BlockCluster(m', j)) > 0 || BlockCluster(m', j) < m'.free
    {
      assert BlockCluster(m', j) == BlockCluster(m, j);
    }
    assert Anchored(m');
    assert Extends(m, m');
  }

  lemma {:induction false} CountedSameTable(m: Meta, m': Meta, c: nat)
    requires Counted(m, m', 0, 0) && m'.table == m.table
    ensures Shape(m) && Shape(m') && Ref(m', c) == Ref(m, c)
  {
    hide Shape, Anchored, Ref, Extends;
    ExtendsShape(m, m');
    assert Kept(m, m', c);
  }

  lemma {:induction false} DropSlotRef(m: Meta, k: nat, c: nat)
    requires Shape(m) && k < |m.table|
    ensures Shape(m.(table := m.table[k := 0]))
    ensures Ref(m.(table := m.table[k := 0]), c) == if c / m.perBlock == k then 0 else Ref(m, c)
  {
    DropSlotShape(m, k);
  }

  lemma {:induction false} NoSlotNoRef(m: Meta, c: nat)
    requires Shape(m) && c / m.perBlock < |m.table| && m.table[c / m.perBlock] == 0
    ensures Ref(m, c) == 0
  {
  }

  lemma {:induction false} CountedFrame(m: Meta, m': Meta)
    requires Counted(m, m', 0, 0)
    ensures Shape(m) && Shape(m') && m'.perBlock == m.perBlock && |m'.table| == |m.table| && m'.free >= m.free
  {
  }

  lemma {:induction false} AnchoredShape(m: Meta)
    requires Anchored(m)
    ensures Shape(m) && m.perBlock > 0
  {
  }

  /** Taking the table slot back undoes a grow that failed. */
  lemma {:induction false} GrowUndone(m: Meta, k: nat, a: nat, m3: Meta)
    requires Anchored(m) && k < |m.table| && m.table[k] == 0 && a >= m.free && Ref(m, a) == 0
    requires Counted(Grown(m, k, a), m3, 0, 0) && m3.table == Grown(m, k, a).table
    ensures Counted(m, m3.(table := m3.table[k := 0]), 0, 0) && m3.table[k := 0] == m.table
  {
    hide Shape, Ref, Counted, Anchored;
    AnchoredShape(m);
    var m2 := Grown(m, k, a);
    var m4 := m3.(table := m3.table[k := 0]);
    GrownShape(m, k, a);
    CountedFrame(m2, m3);
    assert m4.table == m.table;
    DropSlotShape(m3, k);
    forall c: nat
      ensures Ref(m4, c) == Ref(m, c)
    {
      CountedSameTable(m2, m3, c);
      DropSlotRef(m3, k, c);
      if c / m.perBlock == k {
        NoSlotNoRef(m, c);
      }
    }
    SameCounted(m, m4);
  }

  /** A cluster behind free_clust_idx keeps its refcount while refcount blocks are added. */
  lemma {:induction false} BehindKept(m: Meta, m1: Meta, a: nat, i: nat, c: nat)
    requires Counted(m, m1, a, i) && c < m.free && !(a <= c < a + i)
    ensures Shape(m) && Shape(m1) && Ref(m1, c) == Ref(m, c)
  {
    assert Kept(m, m1, c);
    if NewBlock(m, m1, c) {
      NewBlockBehind(m, m1, c);
    }
  }

  lemma {:induction false} UpdateGrown(m: Meta, m1: Meta, idx: nat)
    requires Counted(m, m1, 0, 0) && idx < m.free && Ref(m, idx) == 0
    requires HasSlot(m1, idx)
    ensures Counted(m, SetEntry(m1, idx, 1), idx, 1)
  {
    BehindKept(m, m1, 0, 0, idx);
    BumpCounted(m1, idx);
    assert Counted(m, m1, idx, 0);
    CountOne(m, m1, SetEntry(m1, idx, 1), idx, 0);
  }

  /** What is counted from the end of the scan is counted from its start. */
  lemma {:induction false} Rebase(m: Meta, f: nat, m': Meta, a: nat, n: nat)
    requires Anchored(m) && f >= m.free && Counted(m.(free := f), m', a, n)
    ensures Counted(m, m', a, n)
  {
    var m1 := m.(free := f);
    ScanStays(m, f);
    assert Extends(m, m') by {
      forall k | 0 <= k < |m.table| && m.table[k] != 0
        ensures m'.table[k] == m.table[k]
      {
        assert m1.table[k] == m.table[k];
      }
    }
    forall c: nat | !(a <= c < a + n)
      ensures Kept(m, m', c)
    {
      assert Kept(m1, m', c);
      if NewBlock(m1, m', c) {
        assert NewBlock(m, m', c);
      }
    }
  }

  // ---------------------------------------------------------------- the image

  /** An offset in the file, or (u64)-1. */
  datatype Placement = NoSpace | At(offset: nat)

  type Positive = n: nat | n > 0 witness 1

  /** The number of clusters that size bytes need. */
  function Clusters(size: nat, clusterSize: nat): nat
    requires clusterSize > 0
  {
    DivNat(size + clusterSize - 1, clusterSize);
    (size + clusterSize - 1) / clusterSize
  }

  /** The first n free clusters in a row from free_clust_idx on were passed over, and nothing else changed. */
  ghost predicate Scanned(m: Meta, m': Meta, a: nat, n: nat) {
    && Shape(m) && m.free <= a <= Max(m.free, m.Limit()) && m' == m.(free := a + n)
    && forall c: nat | a <= c < a + n :: Ref(m, c) == 0
  }

  /** Some cluster of the run of n from a on is in use. */
  ghost predicate Busy(m: Meta, a: nat, n: nat)
    requires Shape(m)
  {
    exists c: nat :: a <= c < a + n && Ref(m, c) > 0
  }

  /** The first run of n free clusters from free_clust_idx on starts at a. */
  ghost predicate FirstRun(m: Meta, a: nat, n: nat) {
    && Shape(m) && m.free <= a && (forall c: nat | a <= c < a + n :: Ref(m, c) == 0)
    && forall b: nat | m.free <= b < a :: Busy(m, b, n)
  }

  /** A cluster with a full refcount stands before the end of the first run of n free clusters. */
  ghost predicate FullMet(m: Meta, n: nat)
    requires Shape(m)
  {
    exists c: nat :: m.free <= c && Ref(m, c) == 0xffff && forall b: nat | m.free <= b && b + n <= c :: Busy(m, b, n)
  }

  /** No cluster from free_clust_idx on has a full refcount. */
  ghost predicate NoFull(m: Meta)
    requires Shape(m)
  {
    forall c: nat | m.free <= c :: Ref(m, c) != 0xffff
  }

  /** The number of free clusters, from f on, that the table can count. */
  ghost function FreeFrom(m: Meta, f: nat): nat
    requires Shape(m)
    decreases m.Limit() - f
  {
    if f >= m.Limit() then 0 else (if Ref(m, f) == 0 then 1 else 0) + FreeFrom(m, f + 1)
  }

  /** There are free clusters for all refcount blocks that may have to be added. */
  ghost predicate Room(m: Meta)
    requires Shape(m)
  {
    FreeFrom(m, m.free) >= ZeroSlots(m.table)
  }

  /** The first run of n free clusters can be counted, and leaves room for refcount blocks. */
  ghost predicate Suffices(m: Meta, n: nat)
    requires Shape(m)
  {
    exists a: nat :: FirstRun(m, a, n) && a + n <= m.Limit() && FreeFrom(m, a + n) >= ZeroSlots(m.table)
  }

  /** A cluster in use makes busy every run that holds it. */
  lemma {:induction false} InUse(m: Meta, c: nat, n: nat)
    requires Shape(m) && Ref(m, c) > 0
    ensures forall b: nat | b <= c < b + n :: Busy(m, b, n)
  {
    forall b: nat | b <= c < b + n
      ensures Busy(m, b, n)
    {
    }
  }

  lemma {:induction false} NotMet(m: Meta, a: nat, n: nat)
    requires FirstRun(m, a, n) && forall c: nat | m.free <= c < a + n :: Ref(m, c) != 0xffff
    ensures !FullMet(m, n)
  {
    assert !Busy(m, a, n);
  }

  lemma {:induction false} MetAt(m: Meta, c: nat, i: nat, n: nat)
    requires Shape(m) && m.free <= c && Ref(m, c) == 0xffff && i < n
    requires forall b: nat | m.free <= b < c - i :: Busy(m, b, n)
    ensures FullMet(m, n)
  {
    assert forall b: nat | m.free <= b && b + n <= c :: Busy(m, b, n);
  }

  lemma {:induction false} MetFull(m: Meta, n: nat)
    requires Shape(m) && FullMet(m, n)
    ensures !NoFull(m)
  {
  }

  /** There is only one first run. */
  lemma {:induction false} FirstRunUnique(m: Meta, a: nat, b: nat, n: nat)
    requires FirstRun(m, a, n) && FirstRun(m, b, n)
    ensures a == b
  {
    assert !Busy(m, a, n) && !Busy(m, b, n);
  }

  lemma {:induction false} FreeSame(m: Meta, m': Meta, f: nat)
    requires Shape(m) && Shape(m') && m'.Limit() == m.Limit() && forall c: nat | f <= c :: Ref(m', c) == Ref(m, c)
    ensures FreeFrom(m', f) == FreeFrom(m, f)
    decreases m.Limit() - f
  {
    if f < m.Limit() {
      FreeSame(m, m', f + 1);
    }
  }

  /** The first free cluster is one of those that count. */
  lemma {:induction false} OneTaken(m: Meta, f: nat, a: nat)
    requires Shape(m) && f <= a && Ref(m, a) == 0 && (forall b: nat | f <= b < a :: Busy(m, b, 1)) && FreeFrom(m, f) > 0
    ensures a < m.Limit() && FreeFrom(m, f) == 1 + FreeFrom(m, a + 1)
    decreases a - f
  {
    hide Shape, Ref;
    if f < a {
      assert Busy(m, f, 1);
      OneTaken(m, f + 1, a);
    }
  }

  lemma {:induction false} CountedNoFull(m: Meta, m': Meta, a: nat, n: nat)
    requires Counted(m, m', a, n) && NoFull(m)
    ensures NoFull(m')
  {
    hide Shape, Anchored, Ref;
    CountedAnchored(m, m', a, n);
    CountedKeeps(m, m', a, n);
    forall c: nat | m'.free <= c
      ensures Ref(m', c) != 0xffff
    {
      if !(a <= c < a + n) {
        assert Kept(m, m', c);
      }
    }
  }

  /** A refcount before free_clust_idx changes no room. */
  lemma {:induction false} StoredRoom(m: Meta, idx: nat)
    requires Shape(m) && HasSlot(m, idx) && idx < m.free
    ensures Shape(SetEntry(m, idx, 1)) && (Room(m) ==> Room(SetEntry(m, idx, 1)))
    ensures NoFull(m) ==> NoFull(SetEntry(m, idx, 1))
  {
    var m' := SetEntry(m, idx, 1);
    SetEntryShape(m, idx, 1);
    forall c: nat | m.free <= c
      ensures Ref(m', c) == Ref(m, c)
    {
      SetEntryRef(m, idx, 1, c);
    }
    hide Shape, Ref;
    FreeSame(m, m', m.free);
  }

  /** A new refcount block takes one cluster and fills one slot. */
  lemma {:induction false} GrownRoom(m: Meta, k: nat, a: nat)
    requires Anchored(m) && k < |m.table| && m.table[k] == 0 && a >= m.free && Ref(m, a) == 0
    requires forall b: nat | m.free <= b < a :: Busy(m, b, 1)
    ensures Shape(Grown(m, k, a)) && (NoFull(m) ==> NoFull(Grown(m, k, a)))
    ensures Room(m) ==> a < m.Limit() && Room(Grown(m, k, a))
  {
    hide Shape, Ref, ZeroSlots;
    AnchoredShape(m);
    GrownShape(m, k, a);
    var m2 := Grown(m, k, a);
    ZeroSlotThere(m.table, k);
    if Room(m) {
      OneTaken(m, m.free, a);
      FreeSame(m, m2, a + 1);
    }
  }

  /** After the scan of a sufficient image there is room. */
  lemma {:induction false} ScannedRoom(m: Meta, m': Meta, a: nat, n: nat)
    requires Anchored(m) && Scanned(m, m', a, n) && FirstRun(m, a, n)
    ensures Shape(m') && (NoFull(m) ==> NoFull(m')) && (Suffices(m, n) ==> Room(m') && a + n <= m.Limit())
  {
    ScannedAnchored(m, m', a, n);
    hide Ref, Anchored;
    if Suffices(m, n) {
      var b: nat :| FirstRun(m, b, n) && b + n <= m.Limit() && FreeFrom(m, b + n) >= ZeroSlots(m.table);
      FirstRunUnique(m, a, b, n);
      FreeSame(m, m', a + n);
    }
  }

  /** Refcount blocks that m' has and m has not lie at or after cluster f. */
  ghost predicate BlocksFrom(m: Meta, m': Meta, f: nat) {
    forall k | 0 <= k < |m.table| == |m'.table| && m'.perBlock > 0 && m.table[k] == 0 && m'.table[k] != 0 ::
      BlockCluster(m', k) >= f
  }

  /** A refcount is stored, and free_clust_idx is lowered when it became zero. */
  function Stored(m: Meta, idx: nat, v: nat): Meta
    requires Shape(m) && HasSlot(m, idx)
  {
    var m1 := SetEntry(m, idx, v);
    if v == 0 && idx < m.free then m1.(free := idx) else m1
  }

  lemma {:induction false} RefBound(m: Meta, c: nat)
    requires Shape(m)
    ensures Ref(m, c) < U16 && (Ref(m, c) > 0 ==> c < m.Limit())
  {
    DivideBound(c, m.perBlock, |m.table|);
    if HasSlot(m, c) {
      assert 0 <= c % m.perBlock < m.perBlock;
    }
  }

  lemma {:induction false} ScannedAnchored(m: Meta, m': Meta, a: nat, n: nat)
    requires Anchored(m) && Scanned(m, m', a, n)
    ensures Anchored(m') && (forall c: nat :: Ref(m', c) == Ref(m, c)) && Top(m') <= Top(m) + n
    ensures Counted(m', m', a, 0)
  {
    ScanStays(m, a + n);
    assert Extends(m', m');
  }

  lemma {:induction false} ScanOnly(m: Meta, f: nat)
    requires Anchored(m) && f >= m.free
    ensures Counted(m, m.(free := f), 0, 0)
  {
    ScanStays(m, f);
    SameCounted(m, m.(free := f));
  }

  lemma {:induction false} ExtendsBlocksFrom(m: Meta, f: nat, m': Meta, a: nat, n: nat)
    requires Counted(m.(free := f), m', a, n)
    ensures BlocksFrom(m, m', f)
  {
    var m1 := m.(free := f);
    forall k | 0 <= k < |m.table| == |m'.table| && m'.perBlock > 0 && m.table[k] == 0 && m'.table[k] != 0
      ensures BlockCluster(m', k) >= f
    {
      assert m1.table[k] == 0;
    }
  }

  lemma {:induction false} ZeroSlotThere(table: seq<nat>, k: nat)
    requires k < |table| && table[k] == 0
    ensures ZeroSlots(table) > 0
  {
    if k > 0 {
      ZeroSlotThere(table[1..], k - 1);
    }
  }

  lemma {:induction false} GrownTop(m: Meta, k: nat, a: nat)
    requires Anchored(m) && k < |m.table| && m.table[k] == 0 && m.free <= a <= Max(m.free, m.Limit()) && Ref(m, a) == 0
    ensures Top(Grown(m, k, a)) <= Top(m)
  {
    GrownShape(m, k, a);
  }

  lemma {:induction false} SmallMod(a: nat, b: nat)
    requires a < b
    ensures a % b == a
  {
  }

  lemma {:induction false} ClustersZero(size: nat, s: nat)
    requires s > 0
    ensures Clusters(size, s) == 0 <==> size == 0
  {
    DivideBound(size + s - 1, s, 1);
  }

  lemma {:induction false} OneCluster(s: nat)
    requires s > 0
    ensures Clusters(s, s) == 1
  {
    ClustersZero(s, s);
    DivideBound(s + s - 1, s, 2);
  }

  lemma {:induction false} ScannedFrom(m: Meta, m': Meta, a: nat, n: nat)
    requires Scanned(m, m', a, n)
    ensures m.free <= a <= Max(m.free, m.Limit()) && m' == m.(free := a + n)
  {
  }

  lemma {:induction false} ScannedZero(m: Meta, m': Meta, a: nat, n: nat, c: nat)
    requires Anchored(m) && Scanned(m, m', a, n) && a <= c < a + n
    ensures Shape(m) && Shape(m') && Ref(m, c) == 0 && Ref(m', c) == 0
  {
    ScanStays(m, a + n);
  }

  lemma {:induction false} CountedAnchored(m: Meta, m': Meta, a: nat, n: nat)
    requires Counted(m, m', a, n)
    ensures Anchored(m') && Shape(m') && m'.perBlock == m.perBlock && m'.free >= m.free
    ensures ZeroSlots(m'.table) <= ZeroSlots(m.table)
  {
  }

  lemma {:induction false} CountNone(m: Meta, m1: Meta, m2: Meta, a: nat, i: nat)
    requires Counted(m, m1, a, i) && Counted(m1, m2, 0, 0) && a + i <= m.free
    ensures Counted(m, m2, a, i)
  {
    CountedKeeps(m, m1, a, i);
    CountedKeeps(m1, m2, 0, 0);
    hide Shape, Anchored, Extends, NewBlock, Ref;
    ExtendsTransitive(m, m1, m2);
    forall c: nat | !(a <= c < a + i)
      ensures Kept(m, m2, c)
    {
      assert Kept(m, m1, c) && Kept(m1, m2, c);
      if NewBlock(m, m1, c) || NewBlock(m1, m2, c) {
        NewBlockStays(m, m1, m2, c);
      }
    }
  }

  lemma {:induction false} NoSlot(m: Meta, idx: nat)
    requires Shape(m) && !HasSlot(m, idx)
    ensures Ref(m, idx) == 0
  {
  }

  lemma {:induction false} ShapeEntry(m: Meta, idx: nat)
    requires Shape(m) && HasSlot(m, idx)
    ensures var off := m.table[idx / m.perBlock];
            off in m.blocks && |m.blocks[off]| == m.perBlock && m.blocks[off][idx % m.perBlock] == Ref(m, idx)
  {
  }

  // ---------------------------------------------------------------- owners

  /** The n clusters from a on. */
  function Run(a: nat, n: nat): (r: set<nat>)
    ensures forall c: nat :: c in r <==> a <= c < a + n
  {
    if n == 0 then {} else Run(a, n - 1) + {a + n - 1}
  }

  function First(start: nat, s: Positive): nat {
    DivNat(start, s);
    start / s
  }

  /** One past the last cluster that the bytes touch. */
  function End(start: nat, size: nat, s: Positive): nat
    requires start + size > 0
  {
    DivNat(start + size - 1, s);
    Max(First(start, s), (start + size - 1) / s + 1)
  }

  ghost predicate Owned(m: Meta, live: set<nat>) {
    && Shape(m) && 0 !in live
    && (forall c | c in live :: Ref(m, c) > 0)
    && forall k | 0 <= k < |m.table| && m.table[k] != 0 :: BlockCluster(m, k) !in live
  }

  /** The clusters in [a, e) lost one reference each, and free_clust_idx is behind those that became free. */
  ghost predicate Freed(m: Meta, m': Meta, a: nat, e: nat) {
    && Shape(m) && Shape(m') && m'.perBlock == m.perBlock && m'.table == m.table && m'.free <= m.free
    && (forall c: nat | a <= c < e :: Ref(m, c) == Ref(m', c) + 1 && (Ref(m', c) == 0 ==> m'.free <= c))
    && (forall c: nat | !(a <= c < e) :: Ref(m', c) == Ref(m, c))
    && (m'.free == m.free || a <= m'.free < e)
  }

  /** An image of a header and one refcount block, with room in the table for another. */
  function SmallImage(perBlock: nat): Meta
    requires perBlock > 1
  {
    var entries: seq<nat> := seq(perBlock, i => if i < 2 then 1 else 0);
    Meta(perBlock, [2 * perBlock, 0], map[2 * perBlock := entries], 0)
  }

  /** It is settled, and a cluster can be allocated from it. */
  lemma {:induction false} SmallImageSettled(perBlock: nat)
    requires perBlock > 1
    ensures var m := SmallImage(perBlock);
            Settled(m) && Owned(m, {}) && ZeroSlots(m.table) == 1 && NoFull(m) && Suffices(m, 1)
  {
    var m := SmallImage(perBlock);
    Quotient(2 * perBlock, 2 * perBlock, 1, 0);
    var tail: seq<nat> := [0];
    assert m.table[1..] == tail && tail[1..] == [];
    assert ZeroSlots(tail) == 1 + ZeroSlots([]);
    assert Shape(m);
    assert BlockCluster(m, 0) == 1;
    forall c: nat
      ensures Ref(m, c) == if c < 2 then 1 else 0
    {
      SmallImageRef(perBlock, c);
    }
    hide Shape, Ref;
    assert FirstRun(m, 2, 1) by {
      InUse(m, 0, 1);
      InUse(m, 1, 1);
    }
    assert FreeFrom(m, 3) >= 1;
  }

  lemma {:induction false} SmallImageRef(perBlock: nat, c: nat)
    requires perBlock > 1
    ensures Shape(SmallImage(perBlock)) && Ref(SmallImage(perBlock), c) == if c < 2 then 1 else 0
  {
    Quotient(2 * perBlock, 2 * perBlock, 1, 0);
    Division(c, perBlock);
    if c < perBlock {
      Quotient(c, perBlock, 0, c);
    }
  }

  lemma {:induction false} SettledAnchored(m: Meta)
    requires Settled(m)
    ensures Anchored(m)
  {
  }

  lemma {:induction false} SettledStays(m: Meta, m': Meta, a: nat, n: nat)
    requires Settled(m) && Counted(m, m', a, n)
    ensures Settled(m')
  {
    CountedKeeps(m, m', a, n);
    forall k | 0 <= k < |m'.table| && m'.table[k] != 0
      ensures Ref(m', BlockCluster(m', k)) > 0
    {
      if m.table[k] != 0 {
        assert BlockCluster(m', k) == BlockCluster(m, k);
      }
    }
  }

  lemma {:induction false} OwnedKept(m: Meta, m': Meta, a: nat, n: nat, live: set<nat>)
    requires Owned(m, live) && Counted(m, m', a, n)
    ensures Owned(m', live)
  {
    CountedKeeps(m, m', a, n);
    forall k | 0 <= k < |m'.table| && m'.table[k] != 0
      ensures BlockCluster(m', k) !in live
    {
      if m.table[k] != 0 {
        assert BlockCluster(m', k) == BlockCluster(m, k);
      }
    }
  }

  lemma {:induction false} OwnedMore(m: Meta, m': Meta, a: nat, n: nat, live: set<nat>)
    requires Settled(m) && Owned(m, live) && Counted(m, m', a, n) && BlocksFrom(m, m', a + n)
    ensures live !! Run(a, n) && Owned(m', live + Run(a, n))
  {
    OwnedKept(m, m', a, n, live);
    forall k | 0 <= k < |m'.table| && m'.table[k] != 0
      ensures BlockCluster(m', k) !in Run(a, n)
    {
      if m.table[k] != 0 {
        assert BlockCluster(m', k) == BlockCluster(m, k);
      }
    }
  }

  lemma {:induction false} OwnedRef(m: Meta, live: set<nat>, c: nat)
    requires Owned(m, live) && c in live
    ensures Shape(m) && Ref(m, c) > 0 && HasSlot(m, c)
  {
    if !HasSlot(m, c) {
      NoSlot(m, c);
    }
  }

  lemma {:induction false} StoredRef(m: Meta, idx: nat, v: nat, c: nat)
    requires Shape(m) && HasSlot(m, idx) && v < U16
    ensures Shape(Stored(m, idx, v)) && Ref(Stored(m, idx, v), c) == if c == idx then v else Ref(m, c)
  {
    SetEntryRef(m, idx, v, c);
    var m1 := SetEntry(m, idx, v);
    assert Shape(m1.(free := idx)) && Ref(m1.(free := idx), c) == Ref(m1, c);
  }

  lemma {:induction false} FreedNone(m: Meta, a: nat, live: set<nat>)
    requires Owned(m, live)
    ensures Freed(m, m, a, a)
  {
  }

  /** The test of the loop over offsets, in cluster numbers. */
  lemma {:induction false} Bounds(start: nat, size: nat, s: Positive, i: nat)
    requires start + size > 0 && First(start, s) <= i
    ensures First(start, s) == start / s && First(start, s) <= End(start, size, s)
    ensures i * s <= ((start + size - 1) / s) * s <==> i < End(start, size, s)
    ensures i > 0 ==> (i - 1) * s + s == i * s
  {
    DivNat(start + size - 1, s);
    Ordered(i, (start + size - 1) / s, s);
  }

  lemma {:induction false} FreedTable(m: Meta, m': Meta, a: nat, e: nat)
    requires Freed(m, m', a, e)
    ensures m'.table == m.table
  {
  }

  /** The state after one cluster lost a reference: 0xffff is added in 16 bits. */
  function Dropped(m: Meta, idx: nat): Meta
    requires Shape(m) && HasSlot(m, idx)
  {
    Stored(m, idx, (Ref(m, idx) + 0xffff) % U16)
  }

  lemma {:induction false} DroppedRef(m: Meta, idx: nat, c: nat)
    requires Shape(m) && HasSlot(m, idx) && Ref(m, idx) > 0
    ensures Shape(Dropped(m, idx)) && Ref(Dropped(m, idx), c) == if c == idx then Ref(m, c) - 1 else Ref(m, c)
  {
    RefBound(m, idx);
    StoredRef(m, idx, Ref(m, idx) - 1, c);
  }

  lemma {:induction false} DroppedFree(m: Meta, idx: nat)
    requires Shape(m) && HasSlot(m, idx) && Ref(m, idx) > 0
    ensures var m' := Dropped(m, idx); m'.perBlock == m.perBlock && m'.table == m.table && Top(m') <= Top(m)
    ensures Dropped(m, idx).free == if Ref(m, idx) == 1 && idx < m.free then idx else m.free
  {
    RefBound(m, idx);
  }

  lemma {:induction false} FreedOne(m: Meta, m1: Meta, a: nat, i: nat)
    requires Freed(m, m1, a, i) && a <= i && HasSlot(m1, i) && Ref(m1, i) > 0
    ensures Freed(m, Dropped(m1, i), a, i + 1)
  {
    var m2 := Dropped(m1, i);
    DroppedFree(m1, i);
    DroppedRef(m1, i, i);
    forall c: nat
      ensures Ref(m2, c) == if c == i then Ref(m1, c) - 1 else Ref(m1, c)
    {
      DroppedRef(m1, i, c);
    }
    hide Shape, Ref;
    assert forall c: nat | a <= c < i + 1 :: Ref(m, c) == Ref(m2, c) + 1;
    assert forall c: nat | !(a <= c < i + 1) :: Ref(m, c) == Ref(m2, c);
  }

  lemma {:induction false} OwnedLess(m: Meta, i: nat, live: set<nat>)
    requires Settled(m) && Owned(m, live) && i in live && HasSlot(m, i) && Ref(m, i) > 0
    ensures Settled(Dropped(m, i)) && Owned(Dropped(m, i), live - {i})
  {
    var m' := Dropped(m, i);
    DroppedFree(m, i);
    DroppedRef(m, i, 0);
    forall c: nat
      ensures Ref(m', c) == if c == i then Ref(m, c) - 1 else Ref(m, c)
    {
      DroppedRef(m, i, c);
    }
    forall k | 0 <= k < |m'.table| && m'.table[k] != 0
      ensures Ref(m', BlockCluster(m', k)) > 0 && BlockCluster(m', k) !in live
    {
      assert BlockCluster(m', k) == BlockCluster(m, k);
    }
  }

  lemma {:induction false} Ordered(i: nat, z: nat, s: nat)
    requires s > 0
    ensures i * s <= z * s <==> i <= z
  {
    if i <= z {
      ProductOrder(i, z, s);
    } else {
      ProductOrder(z + 1, i, s);
    }
  }

  lemma {:induction false} SameLimit(m: Meta, m': Meta)
    requires m'.perBlock == m.perBlock && |m'.table| == |m.table|
    ensures m'.Limit() == m.Limit()
  {
  }

  lemma {:induction false} StoredFacts(m: Meta, idx: nat, append: nat)
    requires Shape(m) && HasSlot(m, idx)
    ensures var m' := Stored(m, idx, (Ref(m, idx) + append) % U16);
            && m'.perBlock == m.perBlock && m'.table == m.table && Top(m') <= Top(m)
            && (append == 1 && Ref(m, idx) == 0 ==> m' == SetEntry(m, idx, 1))
    ensures idx < m.free && append == 1 && Ref(m, idx) == 0 ==>
              Shape(SetEntry(m, idx, 1)) && (Room(m) ==> Room(SetEntry(m, idx, 1)))
  {
    hide Shape, Ref;
    if idx < m.free {
      StoredRoom(m, idx);
    }
  }

  class Image {
    const perBlock: Positive
    var table: seq<nat>
    var blocks: map<nat, seq<nat>>
    var free: nat
    /** The clusters handed out and not yet freed. */
    ghost var live: set<nat>

    ghost function View(): Meta
      reads this
    {
      Meta(perBlock, table, blocks, free)
    }

    method GetRefcount(idx: nat) returns (r: nat)
      requires Shape(View())
      ensures r == Ref(View(), idx)
    {
      var k := idx / perBlock;
      if k >= |table| || table[k] == 0 {
        return 0;
      }
      r := blocks[table[k]][idx % perBlock];
    }

    /** The first loop of Alloc, which starts over at every cluster in use: gives the last cluster of the run,
        or 0 when n is 0, unless it meets a full refcount. */
    method Scan(n: nat) returns (ok: bool, idx: nat)
      requires Anchored(View()) && Max(free, View().Limit()) + n < U32
      modifies this`free
      ensures ok && n == 0 ==> idx == 0 && View() == old(View())
      ensures ok && n > 0 ==> idx + 1 >= n && Scanned(old(View()), View(), idx + 1 - n, n)
      ensures ok && n > 0 ==> FirstRun(old(View()), idx + 1 - n, n)
      ensures !ok <==> FullMet(old(View()), n)
      ensures free >= old(free) && View() == old(View()).(free := free) && (n == 0 ==> ok)
    {
      hide Shape, Anchored, Ref, Meta.Limit, Busy, FullMet;
      ghost var m := View();
      ghost var top := Max(free, m.Limit());
      AnchoredShape(m);
      ok, idx := true, 0;
      var i := 0;
      while i < n
        invariant 0 <= i <= n
        invariant m.free <= free - i <= top && View() == m.(free := free)
        invariant forall c: nat | free - i <= c < free :: Ref(m, c) == 0
        invariant forall a: nat | m.free <= a < free - i :: Busy(m, a, n)
        invariant forall c: nat | m.free <= c < free :: Ref(m, c) != 0xffff
        invariant i > 0 ==> idx == free - 1
        invariant n == 0 ==> idx == 0 && free == m.free
        decreases top + n - free
      {
        SmallMod(free, U32);
        idx := free % U32;
        free := free + 1;
        ScanStays(m, free);
        AnchoredShape(View());
        var count := GetRefcount(idx);
        RefBound(m, idx);
        if count == 0xffff {
          MetAt(m, idx, i, n);
          return false, idx;
        }
        if count > 0 {
          InUse(m, idx, n);
        }
        i := if count > 0 then 0 else i + 1;
      }
      NotMet(m, free - i, n);
    }

    method Alloc(size: nat, updateRef: bool) returns (r: Placement)
      requires Anchored(View())
      requires (if updateRef then Top(View()) else Max(free, View().Limit())) + Clusters(size, 2 * perBlock) < U32
      modifies this`table, this`blocks, this`free
      decreases ZeroSlots(table), if updateRef then 3 else 0
      ensures size == 0 ==> r == At(2 * perBlock) && View() == old(View())
      ensures r.At? ==> r.offset % (2 * perBlock) == 0
      ensures r.At? && size > 0 && !updateRef ==>
                Scanned(old(View()), View(), r.offset / (2 * perBlock), Clusters(size, 2 * perBlock))
      ensures r.At? && size > 0 && updateRef ==>
                var a, n := r.offset / (2 * perBlock), Clusters(size, 2 * perBlock);
                old(free) <= a && Counted(old(View()), View(), a, n) && BlocksFrom(old(View()), View(), a + n)
      ensures r.At? ==> Top(View()) <= old(Top(View())) + Clusters(size, 2 * perBlock)
      ensures r.NoSpace? && !updateRef ==> Counted(old(View()), View(), 0, 0) && table == old(table)
      ensures r.NoSpace? ==> exists a: nat, j: nat ::
                j <= Clusters(size, 2 * perBlock) && Counted(old(View()), View(), a, j)
      ensures r.At? && size > 0 ==> FirstRun(old(View()), r.offset / (2 * perBlock), Clusters(size, 2 * perBlock))
      ensures old(FullMet(View(), Clusters(size, 2 * perBlock))) ==> r.NoSpace?
      ensures r.NoSpace? && !updateRef ==> old(FullMet(View(), Clusters(size, 2 * perBlock)))
      ensures r.NoSpace? && old(NoFull(View())) ==> free > View().Limit()
      ensures old(NoFull(View()) && Suffices(View(), Clusters(size, 2 * perBlock))) ==> r.At?
    {
      hide Shape, Anchored, Ref, Counted, BlocksFrom, Scanned, ZeroSlots, FirstRun, FullMet, NoFull, Suffices, Room;
      ghost var m := View();
      AnchoredShape(m);
      ClustersZero(size, 2 * perBlock);
      var n := Clusters(size, 2 * perBlock);
      var ok, idx := Scan(n);
      if !ok {
        ScanOnly(m, free);
        MetFull(m, n);
        return NoSpace;
      }
      idx := idx + 1;
      MulDiv(idx - n, 2 * perBlock);
      if n > 0 {
        ScannedAnchored(m, View(), idx - n, n);
        ScannedFrom(m, View(), idx - n, n);
        ScannedRoom(m, View(), idx - n, n);
      }
      if updateRef && n > 0 {
        ok := CountRange(m, idx - n, n);
        if !ok {
          return NoSpace;
        }
      }
      r := At((idx - n) * (2 * perBlock));
    }

    /** The second loop of Alloc: counts the clusters that the scan found. */
    method CountRange(ghost m: Meta, a: nat, n: nat) returns (ok: bool)
      requires Anchored(m) && Scanned(m, View(), a, n)
      requires Top(View()) < U32
      modifies this`table, this`blocks, this`free
      decreases ZeroSlots(table), 2, 1
      ensures ok ==> Top(View()) <= old(Top(View()))
      ensures ok ==> Counted(m, View(), a, n) && BlocksFrom(m, View(), a + n)
      ensures !ok ==> exists j: nat :: j <= n && Counted(m, View(), a, j)
      ensures !ok && old(NoFull(View())) ==> free > View().Limit()
      ensures old(NoFull(View()) && Room(View())) && a + n <= m.Limit() ==> ok
    {
      hide Shape, Anchored, Ref, Counted, BlocksFrom, Scanned, ZeroSlots, Top, NoFull, Room;
      ghost var m1 := View();
      ScannedAnchored(m, m1, a, n);
      ScannedFrom(m, m1, a, n);
      var i := 0;
      while i < n
        invariant 0 <= i <= n
        invariant Counted(m1, View(), a, i) && Top(View()) <= Top(m1) && |table| == |m.table|
        invariant Shape(View()) && (NoFull(m1) && Room(m1) && a + n <= m.Limit() ==> Room(View()))
      {
        ghost var m2 := View();
        CountedAnchored(m1, m2, a, i);
        if NoFull(m1) {
          CountedNoFull(m1, m2, a, i);
        }
        ScannedZero(m, m1, a, n, a + i);
        BehindKept(m1, m2, a, i, a + i);
        ok := Update(a + i, 1);
        if !ok {
          CountNone(m1, m2, View(), a, i);
          Rebase(m, a + n, View(), a, i);
          return;
        }
        CountOne(m1, m2, View(), a, i);
        i := i + 1;
        CountedAnchored(m1, View(), a, i);
      }
      Rebase(m, a + n, View(), a, n);
      ExtendsBlocksFrom(m, a + n, View(), a, n);
      ok := true;
    }

    /** The second half of Update: the entry is stored. */
    method StoreEntry(idx: nat, append: nat)
      requires Shape(View()) && HasSlot(View(), idx)
      modifies this`blocks, this`free
      ensures View() == old(Stored(View(), idx, (Ref(View(), idx) + append) % U16))
    {
      hide Shape, Ref;
      ghost var m := View();
      ShapeEntry(m, idx);
      var off := table[idx / perBlock];
      var count := (blocks[off][idx % perBlock] + append) % U16;
      var entries: seq<nat> := blocks[off][idx % perBlock := count];
      blocks := blocks[off := entries];
      if count == 0 && idx < free {
        free := idx;
      }
      assert View() == Stored(m, idx, count);
    }

    method Update(idx: nat, append: nat) returns (ok: bool)
      requires Anchored(View()) && Top(View()) < U32 && append < U16
      requires HasSlot(View(), idx) || (idx < free && append == 1)
      modifies this`table, this`blocks, this`free
      decreases ZeroSlots(table), 2, 0
      ensures old(HasSlot(View(), idx)) ==> ok && View() == old(Stored(View(), idx, (Ref(View(), idx) + append) % U16))
      ensures ok && append == 1 && old(Ref(View(), idx)) == 0 ==> Counted(old(View()), View(), idx, 1)
      ensures ok ==> Top(View()) <= old(Top(View()))
      ensures !ok ==> Counted(old(View()), View(), 0, 0) && table == old(table)
      ensures |table| == |old(table)| && (!ok && old(NoFull(View())) ==> free > View().Limit())
      ensures old(NoFull(View()) && Room(View())) && idx < old(free) && idx < old(View().Limit()) ==> ok
      ensures old(NoFull(View()) && Room(View())) && idx < old(free) && idx < old(View().Limit())
              && append == 1 && old(Ref(View(), idx)) == 0 ==>
                Shape(View()) && Room(View())
    {
      hide Shape, Anchored, Ref, Counted, ZeroSlots, NoFull, Room, Meta.Limit, Stored, SetEntry;
      ghost var m := View();
      AnchoredShape(m);
      var k := idx / perBlock;
      if k >= |table| || table[k] == 0 {
        NoSlot(m, idx);
        ok := Grow(idx);
        SameLimit(m, View());
        CountedFrame(m, View());
        if !ok {
          return;
        }
        UpdateGrown(m, View(), idx);
        BehindKept(m, View(), 0, 0, idx);
      } else if append == 1 && Ref(m, idx) == 0 {
        BumpCounted(m, idx);
      }
      ghost var m1 := View();
      StoredFacts(m1, idx, append);
      StoreEntry(idx, append);
      SameLimit(m, View());
      ok := true;
    }

    method Grow(idx: nat) returns (ok: bool)
      requires Anchored(View()) && Top(View()) < U32 && !HasSlot(View(), idx)
      modifies this`table, this`blocks, this`free
      decreases ZeroSlots(table), 1
      ensures Counted(old(View()), View(), 0, 0)
      ensures ok ==> HasSlot(View(), idx) && Top(View()) <= old(Top(View()))
      ensures !ok ==> table == old(table)
      ensures |table| == |old(table)|
      ensures !ok && old(NoFull(View())) ==> idx >= View().Limit() || free > View().Limit()
      ensures old(NoFull(View()) && Room(View())) && idx < old(View().Limit()) ==> ok && Shape(View()) && Room(View())
    {
      hide Shape, Anchored, Ref, Counted, ZeroSlots, Scanned, NoFull, Room, FullMet;
      ghost var m := View();
      AnchoredShape(m);
      ScanOnly(m, free);
      DivideBound(idx, perBlock, |table|);
      var k := idx / perBlock;
      if k >= |table| {
        return false;
      }
      ZeroSlotThere(table, k);
      OneCluster(2 * perBlock);
      var at := Alloc(2 * perBlock, false);
      if at.NoSpace? {
        MetFull(m, 1);
        return false;
      }
      ghost var a := at.offset / (2 * perBlock);
      assert at.offset == a * (2 * perBlock);
      ScannedZero(m, View(), a, 1, a);
      ScannedFrom(m, View(), a, 1);
      GrownShape(m, k, a);
      GrownAnchored(m, k, a);
      GrownTop(m, k, a);
      GrownRoom(m, k, a);
      blocks := blocks[at.offset := seq(perBlock, _ => 0)];
      table := table[k := at.offset];
      assert View() == Grown(m, k, a);
      ok := Update(at.offset / (2 * perBlock), 1);
      if ok {
        GrowDone(m, k, a, View());
        CountedFrame(m, View());
      } else {
        GrowUndone(m, k, a, View());
        table := table[k := 0];
      }
    }

    // -------------------------------------------------------------- the owners of clusters

    /** Every cluster handed out and not yet freed is counted, and none of them holds the header or a
        refcount block. */
    ghost predicate Valid()
      reads this
    {
      Settled(View()) && Owned(View(), live)
    }

    /** An image as it is opened. */
    constructor (perBlock: Positive, table: seq<nat>, blocks: map<nat, seq<nat>>, ghost inUse: set<nat>)
      requires Settled(Meta(perBlock, table, blocks, 0)) && Owned(Meta(perBlock, table, blocks, 0), inUse)
      ensures Valid() && View() == Meta(perBlock, table, blocks, 0) && live == inUse
    {
      this.perBlock := perBlock;
      this.table, this.blocks, this.free := table, blocks, 0;
      this.live := inUse;
    }

    method AllocClusters(size: nat) returns (r: Placement)
      requires Valid() && Top(View()) + Clusters(size, 2 * perBlock) < U32
      modifies this
      ensures Valid()
      ensures r.At? && size > 0 ==>
                var a, n := r.offset / (2 * perBlock), Clusters(size, 2 * perBlock);
                && r.offset % (2 * perBlock) == 0 && old(free) <= a && Counted(old(View()), View(), a, n)
                && old(live) !! Run(a, n) && live == old(live) + Run(a, n)
      ensures size == 0 ==> r == At(2 * perBlock) && View() == old(View()) && live == old(live)
      ensures r.NoSpace? ==> live == old(live)
      ensures r.NoSpace? ==> exists a: nat, j: nat ::
                j <= Clusters(size, 2 * perBlock) && Counted(old(View()), View(), a, j)
      ensures r.At? && size > 0 ==> FirstRun(old(View()), r.offset / (2 * perBlock), Clusters(size, 2 * perBlock))
      ensures old(FullMet(View(), Clusters(size, 2 * perBlock))) ==> r.NoSpace?
      ensures r.NoSpace? && old(NoFull(View())) ==> free > View().Limit()
      ensures old(NoFull(View()) && Suffices(View(), Clusters(size, 2 * perBlock))) ==> r.At?
    {
      hide Shape, Anchored, Settled, Owned, Ref, Counted, BlocksFrom, Scanned, ZeroSlots, FirstRun, FullMet, NoFull,
           Suffices;
      ghost var m := View();
      SettledAnchored(m);
      r := Alloc(size, true);
      if size > 0 {
        if r.At? {
          ghost var a, n := r.offset / (2 * perBlock), Clusters(size, 2 * perBlock);
          SettledStays(m, View(), a, n);
          OwnedMore(m, View(), a, n, live);
          live := live + Run(a, n);
        } else {
          ghost var a: nat, j: nat :| j <= Clusters(size, 2 * perBlock) && Counted(m, View(), a, j);
          SettledStays(m, View(), a, j);
          OwnedKept(m, View(), a, j, live);
        }
      }
    }

    /** One round of FreeClusters. */
    method FreeOne(ghost m: Meta, ghost live0: set<nat>, ghost a: nat, ghost i: nat, idx: nat) returns (ghost i': nat)
      requires Valid() && Freed(m, View(), a, i) && Top(View()) <= Top(m) < U32 && a <= i == idx && idx in live
      requires live == live0 - Run(a, i - a)
      modifies this
      ensures Valid() && Freed(m, View(), a, i') && Top(View()) <= Top(m) && i' == i + 1
      ensures live == live0 - Run(a, i' - a)
    {
      hide Shape, Anchored, Settled, Owned, Ref, Freed, Stored, HasSlot, Top;
      ghost var m1 := View();
      SettledAnchored(m1);
      OwnedRef(m1, live, idx);
      var ok := Update(idx, 0xffff);
      FreedOne(m, m1, a, i);
      DroppedFree(m1, i);
      OwnedLess(m1, i, live);
      live := live - {i};
      i' := i + 1;
    }

    /** Every cluster that the bytes touch loses one reference. */
    method FreeClusters(start: nat, size: nat)
      requires Valid() && Top(View()) < U32 && start + size > 0
      requires forall c: nat | First(start, 2 * perBlock) <= c < End(start, size, 2 * perBlock) :: c in live
      modifies this
      ensures Valid() && table == old(table)
      ensures var a, e := First(start, 2 * perBlock), End(start, size, 2 * perBlock);
              Freed(old(View()), View(), a, e) && live == old(live) - Run(a, e - a)
    {
      hide Shape, Anchored, Settled, Owned, Ref, Freed, Stored, HasSlot, Top, First, End;
      ghost var m, live0 := View(), live;
      var s: Positive := 2 * perBlock;
      ghost var a, e := First(start, s), End(start, size, s);
      var offset := (start / s) * s;
      var end := ((start + size - 1) / s) * s;
      ghost var i := a;
      FreedNone(m, a, live);
      Bounds(start, size, s, a);
      while offset <= end
        invariant offset == i * s && a <= i <= e
        invariant offset <= end <==> i < e
        invariant Valid() && Freed(m, View(), a, i) && Top(View()) <= Top(m)
        invariant live == live0 - Run(a, i - a)
        decreases end + s - offset
      {
        MulDiv(i, s);
        i := FreeOne(m, live0, a, i, offset / s);
        offset := offset + s;
        Bounds(start, size, s, i);
      }
      FreedTable(m, View(), a, i);
    }
  }
}
