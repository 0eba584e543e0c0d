/** The device's side of a split virtqueue (virtio/core.c, include/kvm/virtio.h), and the driver that reads
    the used ring and fills the available ring.  Indices are 16 bits wide and wrap. */
module Virtqueue {
  import opened Bytes

  /** A used ring element: the head of a descriptor chain and the number of bytes written to it. */
  datatype Elem = Elem(id: nat, len: nat)

  function Wrap(k: int): nat { k % U16 }

  // ---------------------------------------------------------------- slots

  lemma {:induction false} Regroup(q: nat, m: nat, p: nat, n: nat)
    ensures q * (m * n) + p * n == (q * m + p) * n
  {
  }

  lemma {:induction false} WrapSum(k: nat, offset: nat)
    ensures Wrap(Wrap(k) + offset) == Wrap(k + offset) == (k + offset) % U16
  {
  }

  lemma {:induction false} ModuloTwice(a: nat, m: nat, n: nat, p: nat)
    requires n > 0 && m * n == p > 0
    ensures a % p >= 0 && (a % p) % n == a % n
  {
    var q, r := a / p, a % p;
    Division(a, p);
    Division(r, n);
    Regroup(q, m, r / n, n);
    Quotient(a, n, q * m + r / n, r % n);
  }

  /** Advancing a wrapped index and then taking it modulo the ring size is the same as not wrapping. */
  lemma {:induction false} SlotWrap(k: nat, offset: nat, bits: nat)
    requires bits <= 16
    ensures Wrap(Wrap(k) + offset) % Pow2(bits) == (k + offset) % Pow2(bits)
  {
    hide Pow2, Wrap;
    Pow2Sum(16 - bits, bits);
    Pow2Sixteen();
    ModuloTwice(k + offset, Pow2(16 - bits), Pow2(bits), U16);
    WrapSum(k, offset);
  }

  /** Fewer than a ring size apart, two entries have different slots. */
  lemma {:induction false} SlotsApart(a: nat, b: nat, n: nat)
    requires a < b < a + n
    ensures a % n != b % n
  {
    Division(a, n);
    Division(b, n);
    var p, q := a / n, b / n;
    if a % n == b % n {
      assert b - a == q * n - p * n == (q - p) * n;
      if q > p {
        ProductOrder(1, q - p, n);
      } else {
        ProductOrder(q, p, n);
      }
    }
  }

  // ---------------------------------------------------------------- notification suppression

  /** vring_need_event of the virtio headers. */
  predicate NeedEvent(event: nat, new_: nat, old_: nat) { Wrap(new_ - event - 1) < Wrap(new_ - old_) }

  /** Between counts a and b the entry whose index is event was completed. */
  ghost predicate Crossed(a: nat, b: nat, event: nat) { exists k: nat :: a <= k < b && Wrap(k) == event }

  lemma {:induction false} WrapUnique(q: int, r: nat)
    requires r < U16
    ensures Wrap(q * U16 + r) == r
  {
  }

  lemma {:induction false} WrapParts(x: int)
    ensures x == (x / U16) * U16 + Wrap(x) && 0 <= Wrap(x) < U16
  {
  }

  lemma {:induction false} WrapMinus(a: nat, b: int)
    ensures Wrap(Wrap(a) - b) == Wrap(a - b)
  {
  }

  lemma {:induction false} WindowExact(a: nat, b: nat, event: nat)
    requires a <= b < a + U16 && event < U16
    ensures NeedEvent(event, Wrap(b), Wrap(a)) <==> Crossed(a, b, event)
  {
    hide Wrap;
    var x := b - event - 1;
    var t := Wrap(x);
    WrapParts(a);
    WrapParts(x);
    WrapMinus(b, event + 1);
    WrapMinus(b, Wrap(a));
    assert Wrap(b - Wrap(a)) == b - a by {
      assert b - Wrap(a) == (a / U16) * U16 + (b - a);
      WrapUnique(a / U16, b - a);
    }
    if t < b - a {
      var q := x / U16;
      assert b - 1 - t == q * U16 + event;
      WrapUnique(q, event);
      assert Crossed(a, b, event);
    }
    if Crossed(a, b, event) {
      var k: nat :| a <= k < b && Wrap(k) == event;
      var q := k / U16;
      WrapParts(k);
      assert x == q * U16 + (b - 1 - k);
      WrapUnique(q, b - 1 - k);
    }
  }

  /** The test is exact for every event index if and only if fewer than 2^16 entries completed since the last
      signal. */
  lemma {:induction false} SignalExactness(a: nat, b: nat)
    requires a <= b
    ensures (forall event: nat | event < U16 :: NeedEvent(event, Wrap(b), Wrap(a)) <==> Crossed(a, b, event)) <==>
            b - a < U16
  {
    if b - a < U16 {
      forall event: nat | event < U16
        ensures NeedEvent(event, Wrap(b), Wrap(a)) <==> Crossed(a, b, event)
      {
        WindowExact(a, b, event);
      }
    } else {
      var event := Wrap(b - U16);
      assert Crossed(a, b, event);
      assert Wrap(Wrap(b) - event - 1) == U16 - 1;
      assert !NeedEvent(event, Wrap(b), Wrap(a));
    }
  }

  // ---------------------------------------------------------------- rings

  /** The ring holds the entries of all from index start on. */
  ghost predicate InRing<T>(ring: seq<T>, all: seq<T>, start: nat) {
    |ring| > 0 && start <= |all| <= start + |ring| && forall k | start <= k < |all| :: ring[k % |ring|] == all[k]
  }

  /** Entry k of a stream is written: a new one at the end, or an earlier one again. */
  function Put<T>(all: seq<T>, k: nat, e: T): (r: seq<T>)
    requires k <= |all|
    ensures |r| == Max(|all|, k + 1) && r[k] == e && forall i | 0 <= i < |all| && i != k :: r[i] == all[i]
  {
    all[..k] + [e] + if k < |all| then all[k + 1..] else []
  }

  lemma {:induction false} RingPut<T>(ring: seq<T>, all: seq<T>, start: nat, k: nat, e: T)
    requires InRing(ring, all, start) && start <= k <= |all| && k < start + |ring|
    ensures 0 <= k % |ring| < |ring| && InRing(ring[k % |ring| := e], Put(all, k, e), start)
  {
    Division(k, |ring|);
    var ring' := ring[k % |ring| := e];
    forall i | start <= i < |Put(all, k, e)|
      ensures ring'[i % |ring'|] == Put(all, k, e)[i]
    {
      Division(i, |ring|);
      if i < k {
        SlotsApart(i, k, |ring|);
      } else if k < i {
        SlotsApart(k, i, |ring|);
      }
    }
  }

  lemma {:induction false} RingGet<T>(ring: seq<T>, all: seq<T>, start: nat)
    requires InRing(ring, all, start) && start < |all|
    ensures 0 <= start % |ring| < |ring| && ring[start % |ring|] == all[start] && InRing(ring, all, start + 1)
  {
    Division(start, |ring|);
  }

  class Queue {
    /** The ring size is 2 to the power bits. */
    const bits: nat
    const num: nat
    const used: array<Elem>
    const avail: array<nat>
    var usedIdx: nat
    var availIdx: nat
    var usedEvent: nat
    var availEvent: nat
    var noInterrupt: bool
    // the device
    var useEventIdx: bool
    var lastAvail: nat
    var lastSignalled: nat
    // the driver
    var guestUsed: nat

    /** The elements made visible to the driver, those written beyond the used index, and how many of the
        former the driver has read. */
    ghost var completed: seq<Elem>
    ghost var staged: seq<Elem>
    ghost var seen: nat
    /** What the driver has read. */
    ghost var received: seq<Elem>
    /** How many elements were visible at the last signal. */
    ghost var signalledAt: nat
    /** The chains the driver made available, and how many of them the device has taken. */
    ghost var pushed: seq<nat>
    ghost var taken: nat

    ghost predicate Valid()
      reads this, used, avail
    {
      && bits <= 15 && num == Pow2(bits) == used.Length == avail.Length
      && usedIdx == Wrap(|completed|) && guestUsed == Wrap(seen) && seen <= |completed|
      && InRing(used[..], completed + staged, seen) && received == completed[..seen]
      && availIdx == Wrap(|pushed|) && lastAvail == Wrap(taken) && InRing(avail[..], pushed, taken)
      && lastSignalled == Wrap(signalledAt) && signalledAt <= |completed| && usedEvent < U16
    }

    constructor (bits: nat, useEventIdx: bool)
      requires bits <= 15
      ensures Valid() && fresh(used) && fresh(avail) && this.bits == bits
      ensures completed == [] && staged == [] && pushed == [] && seen == taken == signalledAt == 0
    {
      this.bits, this.useEventIdx := bits, useEventIdx;
      num := Pow2(bits);
      used := new Elem[Pow2(bits)](_ => Elem(0, 0));
      avail := new nat[Pow2(bits)](_ => 0);
      usedIdx, availIdx, usedEvent, availEvent, noInterrupt := 0, 0, 0, 0, false;
      lastAvail, lastSignalled, guestUsed := 0, 0, 0;
      completed, staged, received, pushed, seen, taken, signalledAt := [], [], [], [], 0, 0, 0;
    }

    // -------------------------------------------------------------- the device

    /** virt_queue__set_used_elem_no_update */
    method SetUsedNoUpdate(head: nat, len: nat, offset: nat)
      requires Valid() && offset <= |staged| && |completed| + offset < seen + num
      modifies this`staged, used
      ensures Valid() && staged == Put(old(staged), offset, Elem(head, len))
    {
      hide InRing, Pow2, Wrap;
      SizeFits(used[..], completed + staged, seen);
      var idx := Wrap(usedIdx + offset);
      SlotWrap(|completed|, offset, bits);
      RingPut(used[..], completed + staged, seen, |completed| + offset, Elem(head, len));
      used[idx % num] := Elem(head, len);
      staged := Put(staged, offset, Elem(head, len));
      assert Put(completed + old(staged), |completed| + offset, Elem(head, len)) == completed + staged;
      assert used[..] == old(used[..])[idx % num := Elem(head, len)];
    }

    /** virt_queue__used_idx_advance */
    method UsedIdxAdvance(jump: nat)
      requires Valid() && jump <= |staged|
      modifies this`usedIdx, this`completed, this`staged
      ensures Valid() && completed == old(completed) + old(staged)[..jump] && staged == old(staged)[jump..]
    {
      hide InRing, Pow2;
      usedIdx := Wrap(usedIdx + jump);
      assert completed + staged == (completed + staged[..jump]) + staged[jump..];
      completed, staged := completed + staged[..jump], staged[jump..];
      assert completed[..seen] == old(completed)[..seen];
    }

    /** virt_queue__set_used_elem */
    method SetUsed(head: nat, len: nat)
      requires Valid() && staged == [] && |completed| < seen + num
      modifies this`usedIdx, this`completed, this`staged, used
      ensures Valid() && completed == old(completed) + [Elem(head, len)] && staged == []
    {
      SetUsedNoUpdate(head, len, 0);
      UsedIdxAdvance(1);
    }

    /** virtio_queue__should_signal */
    method ShouldSignal() returns (signal: bool)
      requires Valid()
      modifies this`lastSignalled, this`signalledAt
      ensures Valid()
      ensures !useEventIdx ==> signal == !noInterrupt
      ensures useEventIdx && |completed| - old(signalledAt) < U16 ==>
                (signal <==> Crossed(old(signalledAt), |completed|, usedEvent))
      ensures signalledAt == if useEventIdx && signal then |completed| else old(signalledAt)
    {
      hide InRing, Pow2, Crossed;
      if !useEventIdx {
        return !noInterrupt;
      }
      if |completed| - signalledAt < U16 {
        WindowExact(signalledAt, |completed|, usedEvent);
      }
      signal := NeedEvent(usedEvent, usedIdx, lastSignalled);
      if signal {
        lastSignalled := usedIdx;
        signalledAt := |completed|;
      }
    }

    /** virt_queue__available */
    method Available() returns (r: bool)
      requires Valid()
      modifies this`availEvent
      ensures Valid() && (r <==> taken < |pushed|)
      ensures availEvent == if useEventIdx then lastAvail else old(availEvent)
    {
      hide InRing, Pow2, Wrap;
      SizeFits(avail[..], pushed, taken);
      RingBits(bits);
      WrapSame(taken, |pushed|);
      if useEventIdx {
        availEvent := lastAvail;
      }
      r := availIdx != lastAvail;
    }

    /** virt_queue__pop */
    method Pop() returns (head: nat)
      requires Valid() && taken < |pushed|
      modifies this`lastAvail, this`taken
      ensures Valid() && head == pushed[old(taken)] && taken == old(taken) + 1
    {
      hide InRing, Pow2, Wrap;
      SlotWrap(taken, 0, bits);
      WrapOnce(taken);
      RingGet(avail[..], pushed, taken);
      head := avail[lastAvail % num];
      lastAvail := Wrap(lastAvail + 1);
      taken := taken + 1;
    }

    // -------------------------------------------------------------- the driver

    /** Reads the next used element, if there is one. */
    method GuestPoll() returns (got: bool, e: Elem)
      requires Valid()
      modifies this`guestUsed, this`seen, this`received
      ensures Valid() && (got <==> old(seen) < |completed|)
      ensures got ==> e == completed[old(seen)] && seen == old(seen) + 1 && received == old(received) + [e]
      ensures !got ==> seen == old(seen) && received == old(received)
    {
      hide InRing, Pow2, Wrap;
      SizeFits(used[..], completed + staged, seen);
      RingBits(bits);
      WrapSame(seen, |completed|);
      WrapOnce(seen);
      got, e := guestUsed != usedIdx, Elem(0, 0);
      if got {
        SlotWrap(seen, 0, bits);
        RingGet(used[..], completed + staged, seen);
        e := used[guestUsed % num];
        guestUsed := Wrap(guestUsed + 1);
        seen := seen + 1;
        received := received + [e];
        assert completed[..seen] == completed[..seen - 1] + [completed[seen - 1]];
      }
    }

    /** Makes a chain available. */
    method GuestPush(head: nat)
      requires Valid() && |pushed| < taken + num
      modifies this`availIdx, this`pushed, avail
      ensures Valid() && pushed == old(pushed) + [head]
    {
      hide InRing, Pow2, Wrap;
      SizeFits(avail[..], pushed, taken);
      SlotWrap(|pushed|, 0, bits);
      WrapOnce(|pushed|);
      RingPut(avail[..], pushed, taken, |pushed|, head);
      avail[availIdx % num] := head;
      assert avail[..] == old(avail[..])[availIdx % num := head];
      availIdx := Wrap(availIdx + 1);
      pushed := Put(pushed, |pushed|, head);
      assert pushed == old(pushed) + [head];
    }

    /** Asks for a signal when the element with this index is used. */
    method GuestArm(event: nat)
      requires Valid() && event < U16
      modifies this`usedEvent
      ensures Valid() && usedEvent == event
    {
      usedEvent := event;
    }
  }

  lemma {:induction false} SizeFits<T>(ring: seq<T>, all: seq<T>, start: nat)
    requires InRing(ring, all, start)
    ensures |ring| > 0 && start <= |all| <= start + |ring|
  {
  }

  lemma {:induction false} RingBits(bits: nat)
    requires bits <= 15
    ensures Pow2(bits) < U16
  {
    Pow2Sum(16 - bits, bits);
    Pow2Sixteen();
    ProductOrder(2, Pow2(16 - bits), Pow2(bits));
  }

  lemma {:induction false} WrapSame(a: nat, b: nat)
    requires a <= b < a + U16
    ensures Wrap(a) == Wrap(b) <==> a == b
  {
  }

  lemma {:induction false} WrapOnce(k: nat)
    ensures Wrap(Wrap(k) + 0) == Wrap(k) && Wrap(Wrap(k) + 1) == Wrap(k + 1)
  {
  }
}
