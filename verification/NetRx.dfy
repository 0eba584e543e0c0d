/** The mergeable-buffer receive loop of virtio/net.c, with memcpy_toiovec of util/iovec.c. */
module NetRx {
  import opened Bytes
  import opened Sequences
  import opened Virtqueue

  /** A struct iovec: a piece of guest memory. */
  datatype Span = Span(base: nat, len: nat)

  /** The addresses of a scatter-gather list, in order. */
  function Addresses(iov: seq<Span>): (r: seq<nat>)
    ensures |r| == Size(iov)
  {
    if iov == [] then [] else seq(iov[0].len, i requires 0 <= i => iov[0].base + i) + Addresses(iov[1..])
  }

  /** iov_size */
  function Size(iov: seq<Span>): nat { if iov == [] then 0 else iov[0].len + Size(iov[1..]) }

  ghost predicate Below(s: seq<nat>, n: nat) { forall i | 0 <= i < |s| :: s[i] < n }

  /** From m to m' the first n addresses received the first n bytes, and the rest of memory stayed. */
  ghost predicate Wrote(m: seq<byte>, m': seq<byte>, addr: seq<nat>, data: seq<byte>, n: nat) {
    && |m'| == |m| && n <= |addr| && n <= |data|
    && (forall i | 0 <= i < n :: addr[i] < |m| && m'[addr[i]] == data[i])
    && forall a | 0 <= a < |m| && a !in addr[..n] :: m'[a] == m[a]
  }

  /** Memory after the bytes were written one after the other; a later one wins where addresses are the same. */
  function Scatter(m: seq<byte>, addr: seq<nat>, data: seq<byte>): (r: seq<byte>)
    requires |data| <= |addr| && Below(addr, |m|)
    ensures |r| == |m|
  {
    if data == [] then m
    else
      var n := |data| - 1;
      Scatter(m, addr, data[..n])[addr[n] := data[n]]
  }

  /** On distinct addresses every byte is found where it was written. */
  lemma {:induction false} ScatterDistinct(m: seq<byte>, addr: seq<nat>, data: seq<byte>)
    requires |data| <= |addr| && Below(addr, |m|) && Distinct(addr)
    ensures Wrote(m, Scatter(m, addr, data), addr, data, |data|)
  {
    if data != [] {
      var n := |data| - 1;
      ScatterDistinct(m, addr, data[..n]);
      WroteOne(m, Scatter(m, addr, data[..n]), addr, data, n);
    }
  }

  lemma {:induction false} WroteOne(m: seq<byte>, m1: seq<byte>, addr: seq<nat>, data: seq<byte>, n: nat)
    requires n < |addr| && n < |data| && Wrote(m, m1, addr, data[..n], n) && Distinct(addr) && addr[n] < |m|
    ensures Wrote(m, m1[addr[n] := data[n]], addr, data, n + 1)
  {
    var m2 := m1[addr[n] := data[n]];
    assert addr[..n + 1] == addr[..n] + [addr[n]];
    forall i | 0 <= i < n + 1
      ensures addr[i] < |m| && m2[addr[i]] == data[i]
    {
      if i < n {
        assert addr[i] != addr[n] && data[..n][i] == data[i];
      }
    }
  }

  /** A run of bytes written at consecutive addresses. */
  lemma {:induction false} ScatterRun(m: seq<byte>, m': seq<byte>, addr: seq<nat>, data: seq<byte>, base: nat)
    requires |m'| == |m| && |addr| == |data| && base + |data| <= |m| && Below(addr, |m|)
    requires forall i | 0 <= i < |addr| :: addr[i] == base + i
    requires forall a | 0 <= a < |m| :: m'[a] == if base <= a < base + |data| then data[a - base] else m[a]
    ensures m' == Scatter(m, addr, data)
    decreases |data|
  {
    if data != [] {
      var n := |data| - 1;
      var m1 := m'[base + n := m[base + n]];
      ScatterRun(m, m1, addr[..n], data[..n], base);
      ScatterPrefix(m, addr, data[..n], n);
      assert m' == m1[base + n := data[n]];
    }
  }

  lemma {:induction false} ScatterPrefix(m: seq<byte>, addr: seq<nat>, data: seq<byte>, n: nat)
    requires |data| <= n <= |addr| && Below(addr, |m|)
    ensures Below(addr[..n], |m|) && Scatter(m, addr[..n], data) == Scatter(m, addr, data)
  {
    if data != [] {
      ScatterPrefix(m, addr, data[..|data| - 1], n);
    }
  }

  /** Two writes to consecutive parts of a list of addresses. */
  lemma {:induction false} ScatterMore(m: seq<byte>, addr: seq<nat>, data: seq<byte>, n: nat, c: nat)
    requires n + c <= |addr| && n + c <= |data| && Below(addr, |m|)
    ensures Below(addr[n..n + c], |m|)
    ensures Scatter(Scatter(m, addr, data[..n]), addr[n..n + c], data[n..n + c]) == Scatter(m, addr, data[..n + c])
    decreases c
  {
    if c > 0 {
      ScatterMore(m, addr, data, n, c - 1);
      var part, bytes := addr[n..n + c], data[n..n + c];
      assert bytes[..c - 1] == data[n..n + c - 1] && part[..c - 1] == addr[n..n + c - 1];
      ScatterPrefix(Scatter(m, addr, data[..n]), part, bytes[..c - 1], c - 1);
      assert data[..n + c][..n + c - 1] == data[..n + c - 1];
    }
  }

  lemma {:induction false} AddressesSplit(iov: seq<Span>, k: nat)
    requires k <= |iov|
    ensures Addresses(iov) == Addresses(iov[..k]) + Addresses(iov[k..])
  {
    if k == 0 {
      assert iov[..0] == [] && iov[0..] == iov;
    } else {
      AddressesSplit(iov[1..], k - 1);
      assert iov[..k][1..] == iov[1..][..k - 1];
      assert iov[1..][k - 1..] == iov[k..];
    }
  }

  /** Taking bytes off the front of a span, or dropping an emptied span, takes addresses off the list. */
  lemma {:induction false} FirstSpan(iov: seq<Span>, c: nat)
    requires iov != [] && c <= iov[0].len
    ensures |Addresses(iov)| >= c && Addresses([Span(iov[0].base + c, iov[0].len - c)] + iov[1..]) ==
            Addresses(iov)[c..]
    ensures forall i | 0 <= i < c :: Addresses(iov)[i] == iov[0].base + i
    ensures iov[0].len == 0 ==> Addresses(iov) == Addresses(iov[1..])
  {
    var rest := [Span(iov[0].base + c, iov[0].len - c)] + iov[1..];
    assert rest[1..] == iov[1..];
  }

  /** The list after c bytes were taken off span k, when the spans before it are empty. */
  lemma {:induction false} TakeSpan(iov: seq<Span>, k: nat, c: nat)
    requires k < |iov| && c <= iov[k].len && Addresses(iov[..k]) == []
    ensures |Addresses(iov)| >= c && Addresses(iov[k := Span(iov[k].base + c, iov[k].len - c)]) == Addresses(iov)[c..]
    ensures forall i | 0 <= i < c :: Addresses(iov)[i] == iov[k].base + i
    ensures c == iov[k].len ==> Addresses(iov[k := Span(iov[k].base + c, iov[k].len - c)][..k + 1]) == []
  {
    hide Addresses, Size;
    var iov' := iov[k := Span(iov[k].base + c, iov[k].len - c)];
    AddressesSplit(iov, k);
    AddressesSplit(iov', k);
    assert iov'[..k] == iov[..k];
    assert iov'[k..] == [iov'[k]] + iov[k..][1..];
    FirstSpan(iov[k..], c);
    if c == iov[k].len {
      AddressesSplit(iov'[..k + 1], k);
      assert iov'[..k + 1][..k] == iov[..k];
      assert iov'[..k + 1][k..] == [iov'[k]];
      FirstSpan([iov'[k]], 0);
      NoSpans();
      assert [iov'[k]][1..] == [];
    }
  }

  lemma {:induction false} NoSpans()
    ensures Addresses([]) == []
  {
  }

  /** Addresses left over mean that some span is left. */
  lemma {:induction false} SpanLeft(iov: seq<Span>, k: nat)
    requires k <= |iov| && Addresses(iov[..k]) == [] && Addresses(iov) != []
    ensures k < |iov|
  {
    assert iov[..|iov|] == iov;
  }

  lemma {:induction false} RunFits(addr: seq<nat>, tail: seq<nat>, part: seq<nat>, n: nat, c: nat, base: nat,
                                   limit: nat)
    requires n + c <= |addr| && c > 0 && Below(addr, limit) && tail == addr[n..] && part == addr[n..n + c]
    requires forall i | 0 <= i < c :: tail[i] == base + i
    ensures base + c <= limit && forall i | 0 <= i < c :: part[i] == base + i
  {
    assert tail[c - 1] == addr[n + c - 1];
    assert part == tail[..c];
  }

  /** memcpy_toiovec: copies the data and takes the filled part off the list. */
  method CopyToIov(mem: array<byte>, iov: array<Span>, data: seq<byte>)
    requires |data| <= Size(iov[..]) && Below(Addresses(iov[..]), mem.Length)
    modifies mem, iov
    ensures mem[..] == Scatter(old(mem[..]), old(Addresses(iov[..])), data)
    ensures Addresses(iov[..]) == old(Addresses(iov[..]))[|data|..]
  {
    hide Addresses, Scatter, Below;
    ghost var addr, was := Addresses(iov[..]), mem[..];
    ScatterNone(was, addr, data[..0]);
    NoSpans();
    var k, done := 0, 0;
    assert iov[..0] == [];
    while done < |data|
      invariant 0 <= k <= iov.Length && 0 <= done <= |data| && mem[..] == Scatter(was, addr, data[..done])
      invariant Addresses(iov[..]) == addr[done..] && (done < |data| ==> Addresses(iov[..k]) == [])
      decreases iov.Length - k
    {
      SpanLeft(iov[..], k);
      assert iov[..][..k] == iov[..k];
      if iov[k].len > 0 {
        done := CopySpan(mem, iov, data, k, done, addr, was);
      } else {
        TakeSpan(iov[..], k, 0);
        assert iov[..][k := Span(iov[k].base + 0, iov[k].len - 0)] == iov[..];
        assert iov[..][..k + 1] == iov[..k + 1];
      }
      k := k + 1;
    }
    assert data[..done] == data;
  }

  lemma {:induction false} ScatterNone(m: seq<byte>, addr: seq<nat>, data: seq<byte>)
    requires data == [] && Below(addr, |m|)
    ensures Scatter(m, addr, data) == m
  {
  }

  /** The copy into one span. */
  method CopySpan(mem: array<byte>, iov: array<Span>, data: seq<byte>, k: nat, done: nat, ghost addr: seq<nat>,
                  ghost was: seq<byte>)
    returns (done': nat)
    requires done < |data| <= |addr| && k < iov.Length && iov[k].len > 0
    requires Addresses(iov[..]) == addr[done..] && Addresses(iov[..k]) == []
    requires |was| == mem.Length && Below(addr, mem.Length) && mem[..] == Scatter(was, addr, data[..done])
    modifies mem, iov
    ensures done <= done' <= |data| && mem[..] == Scatter(was, addr, data[..done'])
    ensures Addresses(iov[..]) == addr[done'..] && (done' < |data| ==> Addresses(iov[..k + 1]) == [])
  {
    hide Addresses, Scatter, Below;
    var base, copy := iov[k].base, Min(iov[k].len, |data| - done);
    ghost var mid, spans := mem[..], iov[..];
    ghost var part := addr[done..done + copy];
    assert spans[..k] == iov[..k];
    TakeSpan(spans, k, copy);
    RunFits(addr, addr[done..], part, done, copy, base, mem.Length);
    ScatterMore(was, addr, data, done, copy);
    forall a | base <= a < base + copy {
      mem[a] := data[done + (a - base)];
    }
    ScatterRun(mid, mem[..], part, data[done..done + copy], base);
    iov[k] := Span(base + copy, iov[k].len - copy);
    assert iov[..] == spans[k := Span(base + copy, spans[k].len - copy)];
    assert iov[..][..k + 1] == iov[..k + 1];
    done' := done + copy;
  }

  // ---------------------------------------------------------------- chains

  /** The addresses of several descriptor chains, one chain after the other. */
  function ChainAddresses(heads: seq<nat>, desc: nat -> seq<Span>): seq<nat> {
    if heads == [] then [] else Addresses(desc(heads[0])) + ChainAddresses(heads[1..], desc)
  }

  /** The used elements for len bytes spread over the chains: each chain takes what it has room for. */
  function Used(heads: seq<nat>, desc: nat -> seq<Span>, len: nat): seq<Elem> {
    if len == 0 || heads == [] then []
    else
      var n := Min(len, Size(desc(heads[0])));
      [Elem(heads[0], n)] + Used(heads[1..], desc, len - n)
  }

  function Sum(elems: seq<Elem>): nat { if elems == [] then 0 else elems[0].len + Sum(elems[1..]) }

  /** The used lengths add up to the packet, and every used element is the next chain. */
  lemma {:induction false} UsedConserves(heads: seq<nat>, desc: nat -> seq<Span>, len: nat)
    requires len <= |ChainAddresses(heads, desc)|
    ensures Sum(Used(heads, desc, len)) == len && |Used(heads, desc, len)| <= |heads|
    ensures forall i | 0 <= i < |Used(heads, desc, len)| :: Used(heads, desc, len)[i].id == heads[i]
  {
    if len > 0 && heads != [] {
      var n := Min(len, Size(desc(heads[0])));
      var rest := Used(heads[1..], desc, len - n);
      UsedConserves(heads[1..], desc, len - n);
      assert ([Elem(heads[0], n)] + rest)[1..] == rest;
    }
  }

  /** Each chain but the last is filled, and the last holds the rest, which is not empty unless the chain is. */
  lemma {:induction false} UsedFills(heads: seq<nat>, desc: nat -> seq<Span>, len: nat, i: nat)
    requires len <= |ChainAddresses(heads, desc)| && i < |Used(heads, desc, len)|
    ensures i < |heads|
    ensures var before := Min(len, |ChainAddresses(heads[..i], desc)|);
            Used(heads, desc, len)[i] == Elem(heads[i], Min(len - before, Size(desc(heads[i]))))
    ensures i < |Used(heads, desc, len)| - 1 ==> Used(heads, desc, len)[i].len == Size(desc(heads[i]))
  {
    var n := Min(len, Size(desc(heads[0])));
    var rest := Used(heads[1..], desc, len - n);
    if i == 0 {
      assert heads[..0] == [];
    } else {
      UsedFills(heads[1..], desc, len - n, i - 1);
      assert heads[..i][1..] == heads[1..][..i - 1];
    }
  }

  lemma {:induction false} UsedFirst(heads: seq<nat>, desc: nat -> seq<Span>, len: nat)
    requires 0 < len <= |ChainAddresses(heads, desc)|
    ensures heads != []
    ensures var n := Min(len, Size(desc(heads[0])));
            Used(heads, desc, len) == [Elem(heads[0], n)] + Used(heads[1..], desc, len - n)
    ensures ChainAddresses(heads, desc) == Addresses(desc(heads[0])) + ChainAddresses(heads[1..], desc)
    ensures |Addresses(desc(heads[0]))| == Size(desc(heads[0]))
  {
  }

  /** What the loop has left to do: len - copied bytes for the chains from j on. */
  ghost predicate Pending(heads: seq<nat>, desc: nat -> seq<Span>, addr: seq<nat>, len: nat, j: nat, copied: nat,
                          staged: seq<Elem>) {
    && j <= |heads| && copied <= len <= |addr| && |staged| == j
    && staged + Used(heads[j..], desc, len - copied) == Used(heads, desc, len)
    && (copied < len ==> addr[copied..] == ChainAddresses(heads[j..], desc))
  }

  lemma {:induction false} PendingStart(heads: seq<nat>, desc: nat -> seq<Span>, len: nat)
    requires len <= |ChainAddresses(heads, desc)|
    ensures Pending(heads, desc, ChainAddresses(heads, desc), len, 0, 0, [])
  {
    assert heads[0..] == heads;
    assert ChainAddresses(heads, desc)[0..] == ChainAddresses(heads, desc);
    assert [] + Used(heads, desc, len) == Used(heads, desc, len);
  }

  lemma {:induction false} PendingChain(heads: seq<nat>, desc: nat -> seq<Span>, addr: seq<nat>, len: nat, j: nat,
                                        copied: nat, staged: seq<Elem>)
    requires Pending(heads, desc, addr, len, j, copied, staged) && copied < len
    ensures j < |heads| && copied + Size(desc(heads[j])) <= |addr|
    ensures addr[copied..copied + Size(desc(heads[j]))] == Addresses(desc(heads[j]))
    ensures var n := Min(len - copied, Size(desc(heads[j])));
            Pending(heads, desc, addr, len, j + 1, copied + n, staged + [Elem(heads[j], n)])
  {
    hide Used, ChainAddresses, Addresses, Size;
    UsedFirst(heads[j..], desc, len - copied);
    var n, size := Min(len - copied, Size(desc(heads[j]))), Size(desc(heads[j]));
    var rest := addr[copied..];
    assert rest[..size] == Addresses(desc(heads[j]));
    assert heads[j..][1..] == heads[j + 1..];
    var e := Elem(heads[j], n);
    assert staged + ([e] + Used(heads[j + 1..], desc, len - copied - n)) == (staged + [e])
      + Used(heads[j + 1..], desc, len - copied - n);
    if copied + n < len {
      assert n == size;
      assert addr[copied + n..] == rest[size..] == ChainAddresses(heads[j + 1..], desc);
    }
  }

  lemma {:induction false} PartOf(addr: seq<nat>, n: nat, c: nat, limit: nat)
    requires Below(addr, limit) && n + c <= |addr|
    ensures Below(addr[n..n + c], limit)
  {
  }

  /** Copies what fits into one chain and writes its used element. */
  method FillChain(q: Queue, mem: array<byte>, desc: nat -> seq<Span>, packet: seq<byte>, head: nat, j: nat,
                   copied: nat,
                   ghost heads: seq<nat>, ghost addr: seq<nat>, ghost was: seq<byte>)
    returns (copied': nat)
    requires q.Valid() && |q.completed| + j < q.seen + q.num
    requires Pending(heads, desc, addr, |packet|, j, copied, q.staged) && copied < |packet| && j < |heads|
             && head == heads[j]
    requires |packet| <= |addr| && |was| == mem.Length
    requires Below(addr, mem.Length) && mem[..] == Scatter(was, addr, packet[..copied])
    modifies q`staged, q.used, mem
    ensures q.Valid() && copied <= copied' <= |packet| && mem[..] == Scatter(was, addr, packet[..copied'])
    ensures Pending(heads, desc, addr, |packet|, j + 1, copied', q.staged)
  {
    hide Below, Scatter, Pending, Addresses, Size;
    PendingChain(heads, desc, addr, |packet|, j, copied, q.staged);
    var spans := desc(head);
    var iov := new Span[|spans|](i requires 0 <= i < |spans| => spans[i]);
    assert iov[..] == spans;
    var n := Min(|packet| - copied, Size(spans));
    PartOf(addr, copied, Size(spans), mem.Length);
    ghost var mid, chain, bytes := mem[..], Addresses(spans), packet[copied..copied + n];
    ScatterMore(was, addr, packet, copied, n);
    ScatterPrefix(mid, chain, bytes, n);
    assert chain[..n] == addr[copied..copied + n];
    CopyToIov(mem, iov, packet[copied..copied + n]);
    StagedCount(heads, desc, addr, |packet|, j, copied, q.staged);
    q.SetUsedNoUpdate(head, n, j);
    assert q.staged == old(q.staged) + [Elem(head, n)];
    copied' := copied + n;
  }

  lemma {:induction false} StagedCount(heads: seq<nat>, desc: nat -> seq<Span>, addr: seq<nat>, len: nat, j: nat,
                                       copied: nat, staged: seq<Elem>)
    requires Pending(heads, desc, addr, len, j, copied, staged)
    ensures |staged| == j <= |heads| && copied <= len <= |addr|
    ensures copied == len ==> staged == Used(heads, desc, len)
  {
  }

  lemma {:induction false} StagedLess(heads: seq<nat>, desc: nat -> seq<Span>, addr: seq<nat>, len: nat, j: nat,
                                      copied: nat, staged: seq<Elem>)
    requires Pending(heads, desc, addr, len, j, copied, staged) && copied < len
    ensures j < |Used(heads, desc, len)|
  {
    PendingChain(heads, desc, addr, len, j, copied, staged);
    assert |staged + Used(heads[j..], desc, len - copied)| == |Used(heads, desc, len)|;
  }

  /** The next chain; while there is none, the device waits until the driver has made one available. */
  method NextChain(q: Queue, future: seq<nat>, waited: nat) returns (head: nat, waited': nat)
    requires q.Valid() && (q.taken == |q.pushed| ==> waited < |future|)
    modifies q, q.avail
    ensures q.Valid() && old(q.taken) < q.taken == old(q.taken) + 1 <= |q.pushed| && head == q.pushed[old(q.taken)]
    ensures waited' == (if old(q.taken) == |old(q.pushed)| then waited + 1 else waited)
    ensures q.pushed == old(q.pushed) + (if waited' > waited then [future[waited]] else [])
    ensures q.staged == old(q.staged) && q.completed == old(q.completed) && q.seen == old(q.seen)
            && q.received == old(q.received)
  {
    waited' := waited;
    var ready := q.Available();
    if !ready {
      q.GuestPush(future[waited]);
      waited' := waited + 1;
    }
    head := q.Pop();
  }

  /** The stream of chains that the device sees: those available, and those of future that the driver makes
      available while the device waits. */
  ghost predicate Stream(now: seq<nat>, t: nat, pushed: seq<nat>, taken: nat, future: seq<nat>, waited: nat) {
    && waited <= |future| && now == pushed + future[..waited] && taken <= t <= |now| && taken <= |pushed|
    && waited == Max(t, |pushed|) - |pushed|
  }

  lemma {:induction false} StreamNext(pushed: seq<nat>, taken: nat, future: seq<nat>, waited: nat, t: nat,
                                      now: seq<nat>)
    requires taken <= t <= |now| && taken <= |pushed| && waited <= |future| && now == pushed + future[..waited]
    requires waited == Max(t, |pushed|) - |pushed| && t - taken < |pushed[taken..] + future|
    ensures t == |now| ==> waited < |future| && now + [future[waited]] == pushed + future[..waited + 1]
    ensures (if t == |now| then now + [future[waited]] else now)[t] == (pushed[taken..] + future)[t - taken]
  {
    if t == |now| {
      assert future[..waited + 1] == future[..waited] + [future[waited]];
    }
  }

  /** Pops the next chain of the stream. */
  method PopStream(q: Queue, future: seq<nat>, waited: nat, ghost pushed: seq<nat>, ghost taken: nat)
    returns (head: nat, waited': nat)
    requires q.Valid() && Stream(q.pushed, q.taken, pushed, taken, future, waited)
             && q.taken - taken < |pushed[taken..] + future|
    modifies q, q.avail
    ensures q.Valid() && Stream(q.pushed, q.taken, pushed, taken, future, waited') && q.taken == old(q.taken) + 1
    ensures q.taken - 1 - taken < |pushed[taken..] + future| && head == (pushed[taken..] + future)[q.taken - 1 - taken]
    ensures q.staged == old(q.staged) && q.completed == old(q.completed) && q.seen == old(q.seen)
            && q.received == old(q.received)
  {
    hide Queue.Valid;
    StreamNext(pushed, taken, future, waited, q.taken, q.pushed);
    head, waited' := NextChain(q, future, waited);
  }

  /** The copying loop: the used elements are written, but not yet visible. */
  method FillChains(q: Queue, mem: array<byte>, desc: nat -> seq<Span>, packet: seq<byte>, future: seq<nat>,
                    ghost heads: seq<nat>, ghost addr: seq<nat>)
    returns (numBuffers: nat, waited: nat)
    requires q.Valid() && q.staged == [] && q.taken < |q.pushed|
    requires heads == q.pushed[q.taken..] + future && addr == ChainAddresses(heads, desc)
    requires |packet| <= |addr| && Below(addr, mem.Length)
    requires |q.completed| + |Used(heads, desc, |packet|)| <= q.seen + q.num
    modifies q, q.used, q.avail, mem
    ensures q.Valid() && q.completed == old(q.completed) && q.seen == old(q.seen) && q.received == old(q.received)
    ensures mem[..] == Scatter(old(mem[..]), addr, packet)
    ensures q.staged == Used(heads, desc, |packet|) && numBuffers == |q.staged|
    ensures q.taken == old(q.taken) + Max(1, numBuffers)
    ensures Stream(q.pushed, q.taken, old(q.pushed), old(q.taken), future, waited)
  {
    hide Queue.Valid, Below, Scatter, Pending, Addresses, ChainAddresses, Used, Stream;
    ghost var pushed, was, taken := q.pushed, mem[..], q.taken;
    PendingStart(heads, desc, |packet|);
    ScatterNone(was, addr, packet[..0]);
    StreamStart(q.pushed, q.taken, future);
    var copied, head := 0, 0;
    numBuffers, waited := 0, 0;
    head, waited := PopStream(q, future, waited, pushed, taken);
    while copied < |packet|
      invariant q.Valid() && 0 <= copied <= |packet| && mem[..] == Scatter(was, addr, packet[..copied])
      invariant Pending(heads, desc, addr, |packet|, numBuffers, copied, q.staged)
      invariant Stream(q.pushed, q.taken, pushed, taken, future, waited)
      invariant q.taken == taken + Max(1, if copied < |packet| then numBuffers + 1 else numBuffers)
      invariant copied < |packet| ==> numBuffers < |heads| && head == heads[numBuffers]
      invariant q.seen == old(q.seen) && q.received == old(q.received) && q.completed == old(q.completed)
      invariant copied == 0 || numBuffers > 0
      decreases |heads| - numBuffers
    {
      StagedLess(heads, desc, addr, |packet|, numBuffers, copied, q.staged);
      copied := FillChain(q, mem, desc, packet, head, numBuffers, copied, heads, addr, was);
      numBuffers := numBuffers + 1;
      if copied == |packet| {
        break;
      }
      PendingChain(heads, desc, addr, |packet|, numBuffers, copied, q.staged);
      head, waited := PopStream(q, future, waited, pushed, taken);
    }
    assert packet[..copied] == packet;
    StagedCount(heads, desc, addr, |packet|, numBuffers, copied, q.staged);
  }

  /** The reception of one packet into the chains that the driver has made available or, while the device waits,
      makes available: the packet is written through the chains, in order; the used elements, whose lengths add up
      to it, become visible in one index advance. */
  method Receive(q: Queue, mem: array<byte>, desc: nat -> seq<Span>, packet: seq<byte>, future: seq<nat>,
                 ghost heads: seq<nat>, ghost addr: seq<nat>)
    returns (numBuffers: nat, waited: nat)
    requires q.Valid() && q.staged == [] && q.taken < |q.pushed|
    requires heads == q.pushed[q.taken..] + future && addr == ChainAddresses(heads, desc)
    requires |packet| <= |addr| && Below(addr, mem.Length)
    requires |q.completed| + |Used(heads, desc, |packet|)| <= q.seen + q.num
    modifies q, q.used, q.avail, mem
    ensures q.Valid() && q.staged == [] && q.seen == old(q.seen) && q.received == old(q.received)
    ensures mem[..] == Scatter(old(mem[..]), addr, packet)
    ensures Distinct(addr) ==> Wrote(old(mem[..]), mem[..], addr, packet, |packet|)
    ensures q.completed == old(q.completed) + Used(heads, desc, |packet|) && numBuffers == |Used(heads, desc, |packet|)|
    ensures Sum(Used(heads, desc, |packet|)) == |packet|
    ensures q.taken == old(q.taken) + Max(1, numBuffers)
    ensures Stream(q.pushed, q.taken, old(q.pushed), old(q.taken), future, waited)
  {
    hide Queue.Valid, Distinct, Below, Scatter, Wrote, Addresses, ChainAddresses, Used, Sum, Stream;
    ghost var was := mem[..];
    UsedConserves(heads, desc, |packet|);
    numBuffers, waited := FillChains(q, mem, desc, packet, future, heads, addr);
    if Distinct(addr) {
      ScatterDistinct(was, addr, packet);
    }
    q.UsedIdxAdvance(numBuffers);
  }

  lemma {:induction false} StreamStart(pushed: seq<nat>, taken: nat, future: seq<nat>)
    requires taken <= |pushed|
    ensures Stream(pushed, taken, pushed, taken, future, 0)
  {
  }
}
