/** The order of the L2 table cache of disk/qcow.c: a list with the least recently used table first. */
module Lru {
  import opened Sequences

  function Without(s: seq<nat>, x: nat): seq<nat> {
    if s == [] then [] else (if s[0] == x then [] else [s[0]]) + Without(s[1..], x)
  }

  /** The offsets of a history of accesses, each once, ordered by their last access. */
  function Recent(history: seq<nat>): seq<nat> {
    if history == [] then []
    else Without(Recent(history[..|history| - 1]), history[|history| - 1]) + [history[|history| - 1]]
  }

  function Last(s: seq<nat>, n: nat): seq<nat> { if |s| <= n then s else s[|s| - n..] }

  /** The list after an access: list_move_tail on a hit; on a miss list_add_tail, after the head made room. */
  function Access(list: seq<nat>, max: nat, x: nat): seq<nat> {
    if x in list then Without(list, x) + [x] else (if |list| == max && max > 0 then list[1..] else list) + [x]
  }

  lemma {:induction false} WithoutFacts(s: seq<nat>, x: nat)
    ensures x !in Without(s, x) && forall y :: y in Without(s, x) <==> y in s && y != x
    ensures Distinct(s) ==> Distinct(Without(s, x)) && |Without(s, x)| == |s| - if x in s then 1 else 0
    ensures x !in s ==> Without(s, x) == s
  {
    if s != [] {
      WithoutFacts(s[1..], x);
      assert s == [s[0]] + s[1..];
      var t := Without(s[1..], x);
      if Distinct(s) {
        assert Distinct(s[1..]);
        assert s[0] !in s[1..];
        if s[0] == x {
          assert Without(s, x) == t;
        } else {
          assert Without(s, x) == [s[0]] + t;
        }
      }
    }
  }

  lemma {:induction false} WithoutAppend(s: seq<nat>, t: seq<nat>, x: nat)
    ensures Without(s + t, x) == Without(s, x) + Without(t, x)
  {
    if s == [] {
      assert s + t == t;
    } else {
      assert (s + t)[1..] == s[1..] + t;
      WithoutAppend(s[1..], t, x);
    }
  }

  lemma {:induction false} RecentDistinct(history: seq<nat>)
    ensures Distinct(Recent(history))
  {
    if history != [] {
      var h, x := history[..|history| - 1], history[|history| - 1];
      RecentDistinct(h);
      WithoutFacts(Recent(h), x);
    }
  }

  lemma {:induction false} DistinctSplit(s: seq<nat>, t: seq<nat>)
    requires Distinct(s + t)
    ensures Distinct(t) && forall x | x in t :: x !in s
  {
    var r := s + t;
    assert t == r[|s|..];
    forall i, j | 0 <= i < |s| && 0 <= j < |t|
      ensures s[i] != t[j]
    {
      assert r[i] == s[i] && r[|s| + j] == t[j];
    }
  }

  lemma {:induction false} LastHit(older: seq<nat>, list: seq<nat>, max: nat, x: nat)
    requires Distinct(older + list) && x in list && |list| <= max && (older == [] || |list| == max)
    ensures Last(Without(older + list, x) + [x], max) == Without(list, x) + [x]
  {
    hide Distinct, Without;
    DistinctSplit(older, list);
    WithoutAppend(older, list, x);
    WithoutFacts(older, x);
    WithoutFacts(list, x);
    var w := Without(list, x) + [x];
    assert Without(older + list, x) + [x] == older + w;
    assert |w| == |list|;
    assert (older + w)[|older|..] == w;
  }

  lemma {:induction false} LastMiss(older: seq<nat>, list: seq<nat>, max: nat, x: nat)
    requires max > 0 && x !in list && |list| <= max && (older == [] || |list| == max)
    ensures Last(Without(older + list, x) + [x], max) == (if |list| == max then list[1..] else list) + [x]
  {
    WithoutAppend(older, list, x);
    WithoutFacts(older, x);
    WithoutFacts(list, x);
    var w := Without(older, x);
    hide Distinct, Without;
    assert Without(older + list, x) + [x] == w + list + [x];
    if |list| == max {
      assert (w + list + [x])[|w| + 1..] == list[1..] + [x];
    }
  }

  /** Replacing the least recently used entry keeps exactly the max most recently used ones. */
  lemma {:induction false} AccessKeepsRecent(history: seq<nat>, max: nat, x: nat)
    requires max > 0
    ensures Access(Last(Recent(history), max), max, x) == Last(Recent(history + [x]), max)
  {
    var r := Recent(history);
    RecentDistinct(history);
    assert (history + [x])[..|history|] == history;
    assert Recent(history + [x]) == Without(r, x) + [x];
    var list := Last(r, max);
    var older := r[..|r| - |list|];
    assert older + list == r;
    hide Distinct, Without, Recent;
    if x in list {
      LastHit(older, list, max, x);
    } else {
      LastMiss(older, list, max, x);
    }
  }
}

/** The read path of disk/qcow.c: sectors through the L1 and L2 tables, with cached L2 tables. */
module QcowRead {
  import opened Bytes
  import opened Iovec
  import opened Lru
  import opened Sequences

  /** MAX_CACHE_NODES */
  const MaxCached: nat := 32

  const SectorSize: nat := 512

  /** The image file and its header.  The L1 table of l1Size entries stands at l1Offset; it was read when the image
      was opened.  Bit 63 of an entry is the COPIED flag and bit 62 of an L2 entry the COMPRESSED flag. */
  datatype Layout = Layout(file: nat -> byte, l1Offset: nat, l1Size: nat, clusterBits: nat, l2Bits: nat, size: nat) {
    /** An entry of the L1 table, in the host's byte order. */
    function L1(k: nat): nat { BigEndian(file, l1Offset + 8 * k, 8) }

    function ClusterSize(): nat { Pow2(clusterBits) }

    function L2Size(): nat { Pow2(l2Bits) }

    /** The number of clusters and of bytes that the L1 table maps. */
    function Clusters(): nat { l1Size * L2Size() }

    function Cover(): nat { Clusters() * ClusterSize() }

    function Cluster(offset: nat): nat {
      Division(offset, ClusterSize());
      offset / ClusterSize()
    }

    function InCluster(offset: nat): nat {
      Division(offset, ClusterSize());
      offset % ClusterSize()
    }

    /** Where the entries of a cluster stand: in the L1 table, and in the L2 table at an offset. */
    function L1Slot(cluster: nat): nat {
      Division(cluster, L2Size());
      l1Offset + 8 * (cluster / L2Size())
    }

    function L2Slot(table: nat, cluster: nat): nat {
      Division(cluster, L2Size());
      table + 8 * (cluster % L2Size())
    }

    /** The L2 table in the file at an offset. */
    function TableAt(offset: nat): seq<nat> { seq(L2Size(), i requires 0 <= i => BigEndian(file, offset + 8 * i, 8)) }

    /** The host offset of a guest cluster, or 0 when it is not allocated. */
    function Mapped(cluster: nat): nat
      requires cluster < Clusters()
    {
      DivideBound(cluster, L2Size(), l1Size);
      var table := L1(cluster / L2Size()) % Pow2(63);
      if table == 0 then 0 else BigEndian(file, table + 8 * (cluster % L2Size()), 8) % Pow2(62)
    }

    /** A byte of the flat virtual disk. */
    function Disk(offset: nat): byte
      requires offset < Cover()
    {
      DivideBound(offset, ClusterSize(), Clusters());
      var host := Mapped(Cluster(offset));
      if host == 0 then 0 else file(host + InCluster(offset))
    }

    /** No L2 entry has the COMPRESSED flag. */
    ghost predicate Plain() {
      forall k, i | 0 <= k < l1Size && 0 <= i < L2Size() && L1(k) % Pow2(63) != 0 ::
        !Compressed(TableAt(L1(k) % Pow2(63))[i])
    }
  }

  predicate Compressed(entry: nat) { (entry / Pow2(62)) % 2 == 1 }

  lemma {:induction false} Shifted(offset: nat, c: nat, t: nat, n: nat, p: nat)
    requires c > 0 && t > 0 && p == t * c
    ensures p > 0 && offset / c >= 0
    ensures offset / p == (offset / c) / t
    ensures offset / p < n <==> offset < (n * t) * c
  {
    DivideTwice(offset, c, t);
    DivideBound(offset, c, n * t);
    DivideBound(offset / c, t, n);
  }

  /** The shifts and masks of the translation, in cluster numbers. */
  lemma {:induction false} Translation(d: Layout, offset: nat)
    ensures offset / Pow2(d.l2Bits + d.clusterBits) == d.Cluster(offset) / d.L2Size() >= 0
    ensures offset / Pow2(d.l2Bits + d.clusterBits) < d.l1Size <==> offset < d.Cover()
    ensures offset < d.Cover() <==> d.Cluster(offset) < d.Clusters()
  {
    hide Pow2;
    Pow2Sum(d.l2Bits, d.clusterBits);
    Shifted(offset, d.ClusterSize(), d.L2Size(), d.l1Size, Pow2(d.l2Bits + d.clusterBits));
    Division(d.Cluster(offset), d.L2Size());
    DivideBound(offset, d.ClusterSize(), d.Clusters());
  }

  /** Bytes of one cluster lie side by side in the file. */
  lemma {:induction false} DiskWithin(d: Layout, offset: nat, i: nat)
    requires offset < d.Cover() && d.InCluster(offset) + i < d.ClusterSize()
    ensures d.Cluster(offset) < d.Clusters() && offset + i < d.Cover()
    ensures var host := d.Mapped(d.Cluster(offset));
            d.Disk(offset + i) == if host == 0 then 0 else d.file(host + d.InCluster(offset) + i)
  {
    hide Layout.Mapped, Pow2;
    var c, n := d.ClusterSize(), d.Clusters();
    Within(offset, c, i);
    DivideBound(offset, c, n);
    DivideBound(offset + i, c, n);
    assert d.Cluster(offset + i) == d.Cluster(offset);
    assert d.InCluster(offset + i) == d.InCluster(offset) + i;
  }

  const COPIED: nat := 0x8000_0000_0000_0000
  const COMPRESSED: nat := 0x4000_0000_0000_0000

  lemma {:induction false} FlagBits()
    ensures Pow2(62) == COMPRESSED && Pow2(63) == COPIED && Pow2(64) == 2 * COPIED
  {
    Pow2Sixteen();
    Pow2Sum(16, 16);
    Pow2Sum(32, 30);
    assert Pow2(14) == 0x4000;
    Pow2Sum(16, 14);
    assert Pow2(63) == 2 * Pow2(62) && Pow2(64) == 2 * Pow2(63);
  }

  /** An entry of a table without its flags. */
  lemma {:induction false} EntryValue(file: nat -> byte, at: nat, flag: nat, flags: nat, v: nat)
    requires (flag == COPIED && flags < 2) || (flag == COMPRESSED && flags < 4)
    requires v < flag && WordAt(file, at, flags * flag + v, 8)
    ensures BigEndian(file, at, 8) % flag == v
  {
    hide WordAt;
    FlagBits();
    BigEndianValue(file, at, 8, flags * flag + v);
    Quotient(flags * flag + v, flag, flags, v);
  }

  /** An L2 table, by the bytes of the file. */
  lemma {:induction false} TableByBytes(d: Layout, offset: nat, i: nat, k: nat)
    requires i < d.L2Size() && k < 8
    ensures Digit(d.TableAt(offset)[i], k) == d.file(offset + 8 * i + (7 - k))
  {
    BigEndianBytes(d.file, offset + 8 * i, 8, 7 - k);
  }

  /** The flat disk, by the bytes of the file: the eight bytes of the L1 entry of cluster c are table, most
      significant byte first, with the COPIED flag or not; those of its entry in that table are host, with any
      flags.  Then the cluster holds the bytes of the file at host, or zeros if table or host is 0. */
  lemma {:induction false} DiskByBytes(d: Layout, c: nat, flag: nat, table: nat, flags: nat, host: nat, i: nat)
    requires c < d.Clusters() && i < d.ClusterSize() && flag < 2 && table < COPIED && flags < 4 && host < COMPRESSED
    requires WordAt(d.file, d.L1Slot(c), flag * COPIED + table, 8)
    requires table != 0 ==> WordAt(d.file, d.L2Slot(table, c), flags * COMPRESSED + host, 8)
    ensures var offset := c * d.ClusterSize() + i;
            offset < d.Cover() && d.Disk(offset) == if table == 0 || host == 0 then 0 else d.file(host + i)
  {
    hide WordAt, Pow2, BigEndian;
    FlagBits();
    EntryValue(d.file, d.L1Slot(c), COPIED, flag, table);
    if table != 0 {
      EntryValue(d.file, d.L2Slot(table, c), COMPRESSED, flags, host);
    }
    assert d.Mapped(c) == if table == 0 then 0 else host;
    Quotient(c * d.ClusterSize() + i, d.ClusterSize(), c, i);
    ProductOrder(c + 1, d.Clusters(), d.ClusterSize());
  }

  lemma {:induction false} PlainEntry(d: Layout, k: nat, i: nat)
    requires d.Plain() && k < d.l1Size && i < d.L2Size() && d.L1(k) % Pow2(63) != 0
    ensures !Compressed(d.TableAt(d.L1(k) % Pow2(63))[i])
  {
  }

  /** s holds n bytes of the virtual disk, from offset on, at position at. */
  ghost predicate Holds(d: Layout, s: seq<byte>, at: nat, offset: nat, n: nat) {
    && at + n <= |s| && (n > 0 ==> offset + n <= d.Cover())
    && forall j | at <= j < at + n :: s[j] == d.Disk(offset + (j - at))
  }

  lemma {:induction false} OneCluster(d: Layout, s: seq<byte>, at: nat, offset: nat, n: nat)
    requires offset < d.Cover() && d.InCluster(offset) + n <= d.ClusterSize() && at + n <= |s|
    requires d.Cluster(offset) < d.Clusters()
    requires var host := d.Mapped(d.Cluster(offset));
             forall j | at <= j < at + n ::
               s[j] == if host == 0 then 0 else d.file(host + d.InCluster(offset) + (j - at))
    ensures Holds(d, s, at, offset, n)
  {
    hide Layout.Mapped, Layout.Disk, Layout.Cover, Pow2;
    if n > 0 {
      DiskWithin(d, offset, n - 1);
    }
    forall j | at <= j < at + n
      ensures s[j] == d.Disk(offset + (j - at))
    {
      DiskWithin(d, offset, j - at);
    }
  }

  lemma {:induction false} SectorsInCluster(d: Layout)
    requires d.clusterBits >= 9
    ensures d.ClusterSize() == Pow2(d.clusterBits - 9) * SectorSize
  {
    Pow2Sum(d.clusterBits - 9, 9);
    assert Pow2(9) == 512;
  }

  function Chunk(d: Layout, offset: nat, left: nat): (r: nat)
    ensures r <= left && (left > 0 ==> r > 0)
  {
    Division(offset, d.ClusterSize());
    Min(d.ClusterSize() - d.InCluster(offset), left)
  }

  /** The offset of the last cluster that a read of n bytes at start visits, or start. */
  function LastVisit(d: Layout, start: nat, n: nat): nat
    requires n > 0
  {
    Max(start, d.Cluster(start + n - 1) * d.ClusterSize())
  }

  lemma {:induction false} SectorMultiple(q: nat, e: nat, c: nat)
    requires c == e * SectorSize
    ensures (q * c) % SectorSize == 0
  {
    assert q * (e * SectorSize) == (q * e) * SectorSize;
    Quotient(q * c, SectorSize, q * e, 0);
  }

  lemma {:induction false} SectorDifference(a: nat, b: nat)
    requires a <= b && a % SectorSize == 0 && b % SectorSize == 0
    ensures (b - a) % SectorSize == 0
  {
  }

  lemma {:induction false} ClusterEnd(offset: nat, c: nat, clusters: nat)
    requires c > 0
    ensures offset / c >= 0 && offset - offset % c + c == (offset / c + 1) * c
    ensures ((offset / c + 1) * c) % c == 0
    ensures offset < clusters * c ==> (offset / c + 1) * c <= clusters * c
  {
    Division(offset, c);
    var q := offset / c;
    assert (q + 1) * c == q * c + c;
    Quotient((q + 1) * c, c, q + 1, 0);
    DivideBound(offset, c, clusters);
    if offset < clusters * c {
      ProductOrder(q + 1, clusters, c);
    }
  }

  lemma {:induction false} ChunkEnds(offset: nat, c: nat, e: nat, clusters: nat, left: nat)
    requires c == e * SectorSize > 0 && offset % SectorSize == 0
    ensures 0 <= offset % c < c
    ensures var r := Min(c - offset % c, left);
            && (r < left ==> r % SectorSize == 0 && (offset + r) % c == 0)
            && (offset < clusters * c ==> offset + r <= clusters * c)
  {
    Division(offset, c);
    ClusterEnd(offset, c, clusters);
    SectorMultiple(offset / c + 1, e, c);
    var m, end := offset % c, (offset / c + 1) * c;
    EndsAt(offset, m, c, end, clusters * c, left);
  }

  /** The linear part of ChunkEnds: m bytes into a cluster that ends at end. */
  lemma {:induction false} EndsAt(offset: nat, m: nat, c: nat, end: nat, limit: nat, left: nat)
    requires m < c && offset - m + c == end && offset % SectorSize == 0 && end % SectorSize == 0 && end % c == 0
    requires offset < limit ==> end <= limit
    ensures var r := Min(c - m, left);
            && (r < left ==> r % SectorSize == 0 && (offset + r) % c == 0)
            && (offset < limit ==> offset + r <= limit)
  {
    SectorDifference(offset, end);
  }

  /** A round that does not finish a read ends on a cluster boundary. */
  lemma {:induction false} NextCluster(d: Layout, offset: nat, left: nat)
    requires d.clusterBits >= 9 && offset % SectorSize == 0
    ensures var r := Chunk(d, offset, left);
            r < left ==> r % SectorSize == 0 && d.InCluster(offset + r) == 0
    ensures offset < d.Cover() ==> offset + Chunk(d, offset, left) <= d.Cover()
  {
    hide Pow2;
    SectorsInCluster(d);
    ChunkEnds(offset, d.ClusterSize(), Pow2(d.clusterBits - 9), d.Clusters(), left);
  }

  /** The start of the cluster that holds byte o + i. */
  lemma {:induction false} ClusterStart(o: nat, i: nat, c: nat)
    requires c > 0
    ensures o / c >= 0 && (o + i) / c >= 0 && (o / c) * c <= o && (o / c) * c <= ((o + i) / c) * c
    ensures o % c == 0 ==> (o / c) * c == o
    ensures o % c + i < c ==> ((o + i) / c) * c == (o / c) * c
  {
    Division(o, c);
    Division(o + i, c);
    if (o + i) / c < o / c {
      ProductOrder((o + i) / c + 1, o / c, c);
    }
    ProductOrder(o / c, (o + i) / c, c);
    if o % c + i < c {
      Within(o, c, i);
    }
  }

  lemma {:induction false} Visited(d: Layout, start: nat, k: nat, left: nat)
    requires left > 0 && (k == 0 || d.InCluster(start + k) == 0)
    ensures LastVisit(d, start, k + Chunk(d, start + k, left)) == start + k
    ensures LastVisit(d, start, k + left) >= start + k
  {
    hide Pow2;
    var c, o := d.ClusterSize(), start + k;
    var r := Chunk(d, o, left);
    Division(o, c);
    ClusterStart(o, r - 1, c);
    ClusterStart(o, left - 1, c);
    assert start + (k + r) - 1 == o + (r - 1);
    assert start + (k + left) - 1 == o + (left - 1);
  }

  /** The number of mapped bytes from an offset on. */
  function Left(d: Layout, start: nat): nat { if start < d.Cover() then d.Cover() - start else 0 }

  /** The first k bytes of the buffer came from the virtual disk; the others are as they were. */
  ghost predicate Reads(d: Layout, was: seq<byte>, now: seq<byte>, start: nat, k: nat) {
    |now| == |was| && Holds(d, now, 0, start, k) && forall i | k <= i < |now| :: now[i] == was[i]
  }

  /** The variables of the read loop; k counts the bytes read and failures the cluster reads that gave -1. */
  datatype Cursor = Cursor(nrRead: nat, at: nat, sector: nat, k: nat, failures: nat) {
    predicate Failed() { failures > 0 }
  }

  /** What a cluster read that gave -1 adds to the offset. */
  const Leap: nat := (U32 - 1) / SectorSize * SectorSize

  /** Whether a read reports success.  When the range is not mapped to its end, the first failure finds
      Left(d, start) bytes read; each one takes one off that number and leaps ahead, until the number wraps, which
      ends the loop with success, or the offset reaches the size of the disk. */
  predicate Succeeds(d: Layout, start: nat, dstLen: nat) {
    if dstLen <= Left(d, start) then dstLen == 0 || LastVisit(d, start, dstLen) < d.size
    else Max(start, d.Cover()) + Left(d, start) * Leap < d.size
  }

  /** While no cluster read has failed, the read goes from one cluster to the next; once one has, no more
      cluster is mapped. */
  ghost predicate Progress(d: Layout, start: nat, dstLen: nat, c: Cursor) {
    if c.Failed() then
      && c.k == Left(d, start) < dstLen < U32 && c.failures <= c.k + 1
      && c.sector * SectorSize == Max(start, d.Cover()) + c.failures * Leap
      && Max(start, d.Cover()) + (c.failures - 1) * Leap < d.size
      && c.nrRead == if c.failures <= c.k then c.k - c.failures else U32 - 1
    else
      && c.k == c.nrRead == c.at <= dstLen < U32 && c.k <= Left(d, start)
      && (c.k < dstLen ==> c.sector * SectorSize == start + c.k && (c.k == 0 || d.InCluster(start + c.k) == 0))
      && (c.k > 0 ==> LastVisit(d, start, c.k) < d.size)
  }

  /** One round of the loop. */
  function Advance(d: Layout, dstLen: nat, c: Cursor): Cursor
    requires c.nrRead < dstLen
  {
    var offset := c.sector * SectorSize;
    if offset >= d.Cover() then
      Cursor((c.nrRead + U32 - 1) % U32, c.at + U32 - 1, c.sector + (U32 - 1) / SectorSize, c.k, c.failures + 1)
    else
      var nr := Chunk(d, offset, dstLen - c.nrRead);
      Cursor((c.nrRead + nr) % U32, c.at + nr, c.sector + nr / SectorSize, c.k + nr, c.failures)
  }

  function ToEnd(d: Layout, sector: nat): nat { Max(sector * SectorSize, d.size) - sector * SectorSize }

  lemma {:induction false} ProgressStart(d: Layout, sector0: nat, dstLen: nat)
    requires dstLen < U32
    ensures Progress(d, sector0 * SectorSize, dstLen, Cursor(0, 0, sector0, 0, 0))
  {
  }

  lemma {:induction false} RoundMapped(d: Layout, start: nat, dstLen: nat, c: Cursor)
    requires d.clusterBits >= 9 && Progress(d, start, dstLen, c) && c.nrRead < dstLen
    requires !c.Failed() && c.sector * SectorSize < d.size && c.sector * SectorSize < d.Cover()
    ensures Progress(d, start, dstLen, Advance(d, dstLen, c)) && c.nrRead < Advance(d, dstLen, c).nrRead <= dstLen
  {
    hide Pow2, Layout.Cover, Layout.InCluster, LastVisit, Chunk;
    var offset := c.sector * SectorSize;
    assert offset == start + c.k;
    var nr := Chunk(d, offset, dstLen - c.k);
    NextCluster(d, offset, dstLen - c.k);
    Visited(d, start, c.k, dstLen - c.k);
    Quotient(c.k + nr, U32, 0, c.k + nr);
    var c' := Advance(d, dstLen, c);
    assert c'.k == c'.nrRead == c'.at == c.k + nr;
    if c'.k < dstLen {
      assert c'.sector * SectorSize == start + c'.k;
    }
  }

  lemma {:induction false} LeapMore(f: nat)
    ensures (f + 1) * Leap == f * Leap + Leap && Leap == (U32 - 1) / SectorSize * SectorSize > 0
  {
  }

  lemma {:induction false} RoundUnmapped(d: Layout, start: nat, dstLen: nat, c: Cursor)
    requires Progress(d, start, dstLen, c) && c.nrRead < dstLen
    requires c.sector * SectorSize < d.size && c.sector * SectorSize >= d.Cover()
    ensures Progress(d, start, dstLen, Advance(d, dstLen, c))
            && ToEnd(d, Advance(d, dstLen, c).sector) < ToEnd(d, c.sector)
  {
    hide Pow2, Layout.Cover, Layout.InCluster, LastVisit, Chunk;
    LeapMore(c.failures);
    if !c.Failed() {
      assert c.sector * SectorSize == Max(start, d.Cover()) && c.k == Left(d, start);
    }
  }

  lemma {:induction false} FailedUnmapped(d: Layout, start: nat, dstLen: nat, c: Cursor)
    requires Progress(d, start, dstLen, c) && c.Failed()
    ensures c.sector * SectorSize >= d.Cover()
  {
    ProductOrder(0, c.failures, Leap);
  }

  lemma {:induction false} ProgressRound(d: Layout, start: nat, dstLen: nat, c: Cursor)
    requires d.clusterBits >= 9 && Progress(d, start, dstLen, c) && c.nrRead < dstLen && c.sector * SectorSize < d.size
    ensures Progress(d, start, dstLen, Advance(d, dstLen, c))
    ensures c.sector * SectorSize < d.Cover() ==>
              !c.Failed() && c.at == c.k == c.nrRead && c.sector * SectorSize == start + c.k
    ensures var c' := Advance(d, dstLen, c);
            if c'.Failed() then (c.Failed() ==> ToEnd(d, c'.sector) < ToEnd(d, c.sector))
            else c.nrRead < c'.nrRead <= dstLen && !c.Failed()
  {
    hide Pow2, Layout.Cover, Layout.InCluster, LastVisit, Chunk, Left, ToEnd;
    if c.Failed() {
      FailedUnmapped(d, start, dstLen, c);
    }
    if c.sector * SectorSize < d.Cover() {
      RoundMapped(d, start, dstLen, c);
    } else {
      RoundUnmapped(d, start, dstLen, c);
    }
  }

  lemma {:induction false} ProgressStops(d: Layout, start: nat, dstLen: nat, c: Cursor)
    requires Progress(d, start, dstLen, c) && c.nrRead < dstLen && c.sector * SectorSize >= d.size
    ensures !Succeeds(d, start, dstLen) && c.k <= dstLen
  {
    hide Layout.Cover, LastVisit, Layout.InCluster, Chunk;
    if c.Failed() {
      ProductOrder(c.failures, c.k, Leap);
    } else {
      Visited(d, start, c.k, dstLen - c.k);
      ProductOrder(0, Left(d, start), Leap);
    }
  }

  lemma {:induction false} ProgressEnds(d: Layout, start: nat, dstLen: nat, c: Cursor)
    requires Progress(d, start, dstLen, c) && c.nrRead >= dstLen
    ensures c.k == Min(dstLen, Left(d, start)) && Succeeds(d, start, dstLen)
  {
    hide Layout.Cover, LastVisit, Layout.InCluster, Chunk;
  }

  lemma {:induction false} ReadsNone(d: Layout, was: seq<byte>, start: nat)
    ensures Reads(d, was, was, start, 0)
  {
  }

  lemma {:induction false} ReadsMore(d: Layout, was: seq<byte>, mid: seq<byte>, now: seq<byte>, start: nat, k: nat,
                                     n: nat)
    requires Reads(d, was, mid, start, k) && |now| == |mid| && Holds(d, now, k, start + k, n)
    requires forall i | 0 <= i < |now| && !(k <= i < k + n) :: now[i] == mid[i]
    ensures Reads(d, was, now, start, k + n)
  {
    hide Layout.Disk, Layout.Cover;
    forall j | 0 <= j < k + n
      ensures start + j < d.Cover() && now[j] == d.Disk(start + j)
    {
      if j >= k {
        assert now[j] == d.Disk(start + k + (j - k));
      } else {
        assert mid[j] == d.Disk(start + (j - 0));
      }
    }
  }

  /** The list and the tree hold the same tables. */
  ghost predicate InStep(list: seq<nat>, tables: map<nat, seq<nat>>) {
    Distinct(list) && forall x :: x in list <==> x in tables
  }

  lemma {:induction false} Evicted(list: seq<nat>, tables: map<nat, seq<nat>>)
    requires InStep(list, tables) && |list| == |tables| > 0
    ensures InStep(list[1..], tables - {list[0]}) && |tables - {list[0]}| == |list| - 1
  {
    var x := list[0];
    assert list == [x] + list[1..];
    assert (tables - {x}).Keys == tables.Keys - {x};
  }

  lemma {:induction false} Added(list: seq<nat>, tables: map<nat, seq<nat>>, x: nat, t: seq<nat>)
    requires InStep(list, tables) && |list| == |tables| && x !in tables
    ensures InStep(list + [x], tables[x := t]) && |tables[x := t]| == |list| + 1
  {
    assert (tables[x := t]).Keys == tables.Keys + {x};
  }

  lemma {:induction false} StepMiss(list: seq<nat>, tables: map<nat, seq<nat>>, x: nat)
    requires InStep(list, tables)
    ensures x in list <==> x in tables
  {
  }

  lemma {:induction false} Moved(list: seq<nat>, tables: map<nat, seq<nat>>, x: nat)
    requires InStep(list, tables) && x in list
    ensures InStep(Without(list, x) + [x], tables) && |Without(list, x)| + 1 == |list|
  {
    WithoutFacts(list, x);
  }

  class Reader {
    const image: Layout
    /** The tree of cached tables, by offset. */
    var tables: map<nat, seq<nat>>
    /** lru_list, least recently used first. */
    var list: seq<nat>
    var nrCached: nat
    /** The tables read so far, in order. */
    ghost var history: seq<nat>

    /** Tree and list hold the same tables, each equal to its copy in the file; they are the last 32 used. */
    ghost predicate Valid()
      reads this
    {
      && image.clusterBits >= 9 && image.Plain()
      && nrCached == |list| == |tables| <= MaxCached && InStep(list, tables)
      && (forall x | x in tables :: tables[x] == image.TableAt(x))
      && list == Last(Recent(history), MaxCached)
    }

    lemma {:induction false} ValidBits()
      requires Valid()
      ensures image.clusterBits >= 9
    {
    }

    constructor (image: Layout)
      requires image.clusterBits >= 9 && image.Plain()
      ensures Valid() && this.image == image && history == []
    {
      this.image := image;
      tables, list, nrCached, history := map[], [], 0, [];
    }

    /** l2_table_search */
    method Search(offset: nat) returns (hit: bool, table: seq<nat>)
      requires Valid()
      modifies this`list
      ensures hit <==> offset in tables
      ensures hit ==> table == tables[offset] && list == Access(old(list), MaxCached, offset)
      ensures !hit ==> list == old(list)
    {
      hit, table := offset in tables, [];
      if hit {
        table := tables[offset];
        list := Without(list, offset) + [offset];
      }
    }

    /** Drops the least recently used table from a full cache. */
    method MakeRoom()
      requires Valid()
      modifies this`tables, this`list, this`nrCached
      ensures list == (if |old(list)| == MaxCached then old(list)[1..] else old(list))
      ensures nrCached == |list| == |tables| < MaxCached && InStep(list, tables)
      ensures forall x | x in tables :: x in old(tables) && tables[x] == image.TableAt(x)
    {
      hide Layout.Plain, Layout.TableAt, Recent, Last, Pow2, InStep, Without;
      if nrCached == MaxCached {
        Evicted(list, tables);
        tables := tables - {list[0]};
        list := list[1..];
        nrCached := nrCached - 1;
      }
    }

    /** cache_table */
    method Cache(offset: nat, table: seq<nat>)
      requires Valid() && offset !in tables && table == image.TableAt(offset)
      modifies this`tables, this`list, this`nrCached, this`history
      ensures Valid() && offset in tables && history == old(history) + [offset]
    {
      hide Layout.Plain, Layout.TableAt, Recent, Last, Pow2, InStep, Without;
      AccessKeepsRecent(history, MaxCached, offset);
      assert offset !in list by {
        StepMiss(list, tables, offset);
      }
      MakeRoom();
      Added(list, tables, offset, table);
      tables := tables[offset := table];
      list := list + [offset];
      nrCached := nrCached + 1;
      history := history + [offset];
    }

    /** qcow_read_l2_table */
    method ReadL2Table(offset: nat) returns (table: seq<nat>)
      requires Valid()
      modifies this`tables, this`list, this`nrCached, this`history
      ensures Valid() && table == image.TableAt(offset) && history == old(history) + [offset]
    {
      hide Layout.Plain, Layout.TableAt, Recent, Last, Pow2, InStep, Without;
      StepMiss(list, tables, offset);
      var hit;
      hit, table := Search(offset);
      if hit {
        AccessKeepsRecent(history, MaxCached, offset);
        Moved(old(list), tables, offset);
        history := history + [offset];
        return;
      }
      table := image.TableAt(offset);
      Cache(offset, table);
    }

    /** The host offset of the cluster that holds a byte, or 0. */
    method Lookup(offset: nat) returns (host: nat)
      requires Valid() && offset < image.Cover() && image.Cluster(offset) < image.Clusters()
      modifies this`tables, this`list, this`nrCached, this`history
      ensures Valid() && host == image.Mapped(image.Cluster(offset))
    {
      hide Pow2, InStep, Recent, Last, Layout.Plain;
      Translation(image, offset);
      var tableOffset := image.L1(offset / Pow2(image.l2Bits + image.clusterBits)) % Pow2(63);
      if tableOffset == 0 {
        return 0;
      }
      var table := ReadL2Table(tableOffset);
      var l2Index := image.Cluster(offset) % image.L2Size();
      Division(image.Cluster(offset), image.L2Size());
      PlainEntry(image, offset / Pow2(image.l2Bits + image.clusterBits), l2Index);
      assert !Compressed(table[l2Index]);
      host := table[l2Index] % Pow2(62);
    }

    /** qcow2_read_cluster: reads into buf from at on, up to the end of the cluster. */
    method ReadCluster(offset: nat, buf: array<byte>, at: nat, dstLen: nat) returns (r: int)
      requires Valid() && (offset < image.Cover() ==> at + dstLen <= buf.Length)
      modifies this`tables, this`list, this`nrCached, this`history, buf
      ensures Valid()
      ensures offset >= image.Cover() ==> r == -1 && buf[..] == old(buf[..])
      ensures offset < image.Cover() ==>
                r == Chunk(image, offset, dstLen) && Holds(image, buf[..], at, offset, r)
                && forall i | 0 <= i < buf.Length && !(at <= i < at + r) :: buf[i] == old(buf[i])
    {
      hide Pow2, InStep, Recent, Last, Layout.Plain, Layout.Mapped, Layout.Disk, Layout.Cover, Holds;
      Translation(image, offset);
      var l1Index := offset / Pow2(image.l2Bits + image.clusterBits);
      if l1Index >= image.l1Size {
        return -1;
      }
      var inCluster := image.InCluster(offset);
      var length := Min(image.ClusterSize() - inCluster, dstLen);
      var host := Lookup(offset);
      forall j | at <= j < at + length {
        buf[j] := if host == 0 then 0 else image.file(host + inCluster + (j - at));
      }
      OneCluster(image, buf[..], at, offset, length);
      r := length;
    }

    /** One cluster read of the loop below: the number of bytes that it takes as read. */
    method ReadRound(buf: array<byte>, dstLen: nat, ghost c: Cursor, offset: nat, at: nat, left: nat, ghost start: nat,
                     ghost was: seq<byte>)
      returns (n: nat)
      requires Valid() && Progress(image, start, dstLen, c) && c.nrRead < dstLen <= buf.Length
               && Reads(image, was, buf[..], start, c.k)
      requires offset == c.sector * SectorSize < image.size && at == c.at && left == dstLen - c.nrRead
      modifies this`tables, this`list, this`nrCached, this`history, buf
      ensures Valid() && n == (if offset < image.Cover() then Chunk(image, offset, left) else U32 - 1)
      ensures Reads(image, was, buf[..], start, Advance(image, dstLen, c).k)
    {
      hide Pow2, Valid, Layout.Cover, Reads, LastVisit, Layout.InCluster, Chunk, Holds, Progress, Left, ToEnd, Succeeds;
      ValidBits();
      ProgressRound(image, start, dstLen, c);
      ghost var mid := buf[..];
      var nr := ReadCluster(offset, buf, at, left);
      if offset < image.Cover() {
        ReadsMore(image, was, mid, buf[..], start, c.k, nr);
      }
      n := if nr < 0 then U32 - 1 else nr;
    }

    /** qcow_read_sector_single.  A cluster read that fails gives -1, which the caller holds in 32 unsigned bits:
        it is not seen as an error, but as a very long read. */
    method ReadSingle(sector0: nat, buf: array<byte>, dstLen: nat) returns (r: int)
      requires Valid() && dstLen <= buf.Length && dstLen < U32
      modifies this`tables, this`list, this`nrCached, this`history, buf
      ensures Valid() && (r == dstLen || r == -1)
      ensures r == dstLen ==> Reads(image, old(buf[..]), buf[..], sector0 * SectorSize,
              Min(dstLen, Left(image, sector0 * SectorSize)))
      ensures exists k: nat :: k <= dstLen && Reads(image, old(buf[..]), buf[..], sector0 * SectorSize, k)
      ensures r == dstLen <==> Succeeds(image, sector0 * SectorSize, dstLen)
    {
      hide Pow2, Valid, Layout.Cover, Reads, LastVisit, Layout.InCluster, Chunk, Holds, Progress, Left, ToEnd, Succeeds;
      ValidBits();
      ghost var start, was := sector0 * SectorSize, buf[..];
      var nrRead: nat, at: nat, sector: nat := 0, 0, sector0;
      ghost var k: nat, failures: nat := 0, 0;
      ReadsNone(image, was, start);
      ProgressStart(image, sector0, dstLen);
      while nrRead < dstLen
        invariant Valid() && Reads(image, was, buf[..], start, k)
        invariant Progress(image, start, dstLen, Cursor(nrRead, at, sector, k, failures))
        decreases if failures > 0 then 0 else 1,
                  if failures > 0 then ToEnd(image, sector) else dstLen - nrRead
      {
        ghost var c := Cursor(nrRead, at, sector, k, failures);
        var offset := sector * SectorSize;
        if offset >= image.size {
          r := -1;
          ProgressStops(image, start, dstLen, c);
          return;
        }
        ProgressRound(image, start, dstLen, c);
        var n := ReadRound(buf, dstLen, c, offset, at, dstLen - nrRead, start, was);
        k, failures := Advance(image, dstLen, c).k, Advance(image, dstLen, c).failures;
        nrRead := (nrRead + n) % U32;
        at := at + n;
        sector := sector + n / SectorSize;
        assert Cursor(nrRead, at, sector, k, failures) == Advance(image, dstLen, c);
      }
      ProgressEnds(image, start, dstLen, Cursor(nrRead, at, sector, k, failures));
      r := dstLen;
    }

    /** The read into one buffer of qcow_read_sector. */
    method ReadBuffer(sector: nat, buf: array<byte>) returns (nr: int)
      requires Valid()
      modifies this`tables, this`list, this`nrCached, this`history, buf
      ensures Valid()
      ensures nr == buf.Length ==> Filled(image, sector, old(buf[..]), buf[..])
      ensures nr == buf.Length <==> InBounds(image, sector, buf.Length)
    {
      hide Pow2, Valid, Layout.Cover, Reads, LastVisit, Left, Succeeds;
      nr := ReadSingle(sector, buf, buf.Length % U32);
    }

    /** qcow_read_sector */
    method Read(sector0: nat, iov: seq<array<byte>>) returns (total: int)
      requires Valid() && forall i, j | 0 <= i < j < |iov| :: iov[i] != iov[j]
      modifies this`tables, this`list, this`nrCached, this`history, set b | b in iov
      ensures Valid() && (total == -1 || total == Length(iov))
      ensures total >= 0 ==> forall i | 0 <= i < |iov| ::
              Filled(image, SectorAt(iov, sector0, i), old(iov[i][..]), iov[i][..])
      ensures total >= 0 <==> forall i | 0 <= i < |iov| :: InBounds(image, SectorAt(iov, sector0, i), iov[i].Length)
      ensures total >= 0 && Aligned(iov) && sector0 * SectorSize + total <= image.Cover() ==>
                Holds(image, Gather(iov), 0, sector0 * SectorSize, total)
    {
      hide Pow2, Valid, Filled, Left, InBounds, SectorAt, Length, Aligned, Gather, Layout.Cover, Holds;
      total := 0;
      SectorNext(iov, sector0, 0);
      var sector: nat, i := sector0, 0;
      while i < |iov|
        invariant 0 <= i <= |iov| && Valid() && sector == SectorAt(iov, sector0, i) && total == Length(iov[..i])
        invariant forall j | 0 <= j < i :: Filled(image, SectorAt(iov, sector0, j), old(iov[j][..]), iov[j][..])
        invariant forall j | i <= j < |iov| :: iov[j][..] == old(iov[j][..])
        invariant forall j | 0 <= j < i :: InBounds(image, SectorAt(iov, sector0, j), iov[j].Length)
      {
        var nr := ReadBuffer(sector, iov[i]);
        if nr != iov[i].Length {
          return -1;
        }
        LengthNext(iov, i);
        SectorNext(iov, sector0, i + 1);
        sector := sector + iov[i].Length / SectorSize;
        total := total + nr;
        i := i + 1;
      }
      assert iov[..|iov|] == iov;
      if Aligned(iov) && sector0 * SectorSize + total <= image.Cover() {
        forall j | 0 <= j < |iov|
          ensures Holds(image, iov[j][..], 0, SectorAt(iov, sector0, j) * SectorSize, iov[j].Length)
        {
          AlignedAt(iov, sector0, j);
          FilledWhole(image, SectorAt(iov, sector0, j), old(iov[j][..]), iov[j][..]);
        }
        GatherIsDisk(image, iov, sector0);
      }
    }
  }

  /** Every buffer but the last is a whole number of sectors. */
  predicate Aligned(iov: seq<array<byte>>) {
    forall i | 0 <= i < |iov| - 1 :: iov[i].Length % SectorSize == 0
  }

  lemma {:induction false} AlignedAt(iov: seq<array<byte>>, sector: nat, j: nat)
    requires Aligned(iov) && j < |iov|
    ensures SectorAt(iov, sector, j) * SectorSize + iov[j].Length <= sector * SectorSize + Length(iov)
  {
    if j > 0 {
      SectorShift(iov, sector, j - 1);
      AlignedAt(iov[1..], sector + iov[0].Length / SectorSize, j - 1);
    }
  }

  lemma {:induction false} FilledWhole(d: Layout, sector: nat, was: seq<byte>, now: seq<byte>)
    requires Filled(d, sector, was, now) && sector * SectorSize + |now| <= d.Cover()
    ensures Holds(d, now, 0, sector * SectorSize, |now|)
  {
    hide Layout.Cover, Holds;
  }

  /** A buffer was filled as far as the L1 table maps the disk. */
  ghost predicate Filled(d: Layout, sector: nat, was: seq<byte>, now: seq<byte>) {
    Reads(d, was, now, sector * SectorSize, Min(|now|, Left(d, sector * SectorSize)))
  }

  /** The sector at which the read into buffer i starts: a buffer moves on by its whole sectors. */
  function SectorAt(iov: seq<array<byte>>, sector: nat, i: nat): nat
    requires i <= |iov|
  {
    if i == 0 then sector else SectorAt(iov, sector, i - 1) + iov[i - 1].Length / SectorSize
  }

  /** A read into a buffer of this length that reports success: the length is cut to 32 bits. */
  predicate InBounds(d: Layout, sector: nat, len: nat) { len < U32 && Succeeds(d, sector * SectorSize, len) }

  lemma {:induction false} SectorNext(iov: seq<array<byte>>, sector: nat, i: nat)
    requires i <= |iov|
    ensures SectorAt(iov, sector, i) == if i == 0 then sector
            else SectorAt(iov, sector, i - 1) + iov[i - 1].Length / SectorSize
    ensures Length([]) == 0
  {
  }

  /** With all buffers but the last a whole number of sectors, a read that every buffer took part in whole is
      the flat virtual disk. */
  lemma {:induction false} GatherIsDisk(d: Layout, iov: seq<array<byte>>, sector: nat)
    requires forall i | 0 <= i < |iov| :: Holds(d, iov[i][..], 0, SectorAt(iov, sector, i) * SectorSize, iov[i].Length)
    requires Aligned(iov)
    ensures |Gather(iov)| == Length(iov) && Holds(d, Gather(iov), 0, sector * SectorSize, Length(iov))
  {
    hide Layout.Disk, Layout.Cover, Layout.InCluster, Pow2;
    if iov != [] {
      var rest, next := iov[1..], sector + iov[0].Length / SectorSize;
      forall i | 0 <= i < |rest|
        ensures Holds(d, rest[i][..], 0, SectorAt(rest, next, i) * SectorSize, rest[i].Length)
      {
        SectorShift(iov, sector, i);
        assert rest[i] == iov[i + 1];
      }
      GatherIsDisk(d, rest, next);
      Joined(d, iov[0][..], Gather(rest), sector * SectorSize);
    }
  }

  lemma {:induction false} SectorShift(iov: seq<array<byte>>, sector: nat, i: nat)
    requires i < |iov|
    ensures SectorAt(iov[1..], sector + iov[0].Length / SectorSize, i) == SectorAt(iov, sector, i + 1)
  {
    if i > 0 {
      SectorShift(iov, sector, i - 1);
    }
  }

  lemma {:induction false} Joined(d: Layout, s: seq<byte>, t: seq<byte>, start: nat)
    requires Holds(d, s, 0, start, |s|) && Holds(d, t, 0, start + |s|, |t|)
    ensures Holds(d, s + t, 0, start, |s + t|)
  {
    hide Layout.Disk, Layout.Cover;
    forall j | 0 <= j < |s + t|
      ensures start + (j - 0) < d.Cover() && (s + t)[j] == d.Disk(start + (j - 0))
    {
      if j < |s| {
        assert s[j] == d.Disk(start + (j - 0));
      } else {
        assert t[j - |s|] == d.Disk(start + |s| + (j - |s| - 0));
      }
    }
  }
}
