/** The guest memory map of kvm.c: a list of banks, in which overlapping reserved ranges are merged while the
    list is scanned. */
module MemBanks {
  import opened Bytes

  datatype Kind = Ram | Device | Reserved

  datatype Bank = Bank(start: nat, size: nat, host: nat, kind: Kind)

  predicate In(b: Bank, a: int) { b.start <= a < b.start + b.size }

  /** The test of kvm__register_mem, on the last addresses of the two ranges. */
  predicate Overlap(b: Bank, c: Bank) { !(c.start > b.start + b.size - 1 || c.start + c.size - 1 < b.start) }

  /** A range that is not empty and does not wrap. */
  predicate Proper(b: Bank) { b.size > 0 && b.start + b.size <= U64 }

  ghost predicate Covered(banks: seq<Bank>, a: int) { exists j :: 0 <= j < |banks| && In(banks[j], a) }

  ghost predicate Disjoint(banks: seq<Bank>) {
    forall i, j | 0 <= i < j < |banks| :: !Overlap(banks[i], banks[j])
  }

  ghost predicate AllProper(banks: seq<Bank>) { forall j | 0 <= j < |banks| :: Proper(banks[j]) }

  /** Two ranges that may share addresses: both are reserved. */
  predicate Compatible(b: Bank, r: Bank) { Overlap(b, r) ==> b.kind == Reserved && r.kind == Reserved }

  lemma {:induction false} OverlapPoint(b: Bank, c: Bank)
    requires b.size > 0 && c.size > 0
    ensures Overlap(b, c) <==> exists a :: In(b, a) && In(c, a)
    ensures Overlap(b, c) <==> Overlap(c, b)
  {
    var a := if b.start < c.start then c.start else b.start;
    if Overlap(b, c) {
      assert In(b, a) && In(c, a);
    }
  }

  /** The smallest range that holds two overlapping ones. */
  function Merge(b: Bank, r: Bank): Bank
    requires b.size > 0 && r.size > 0
  {
    var start := if b.start < r.start then b.start else r.start;
    var bankEnd, end := b.start + b.size - 1, r.start + r.size - 1;
    b.(start := start, size := (if bankEnd < end then end else bankEnd) - start + 1)
  }

  lemma {:induction false} MergeIsUnion(b: Bank, r: Bank, a: int)
    requires b.size > 0 && r.size > 0 && Overlap(b, r)
    ensures In(Merge(b, r), a) <==> In(b, a) || In(r, a)
  {
  }

  /** The state of the scan of kvm__register_mem.  past are the banks passed so far as they were at first, seen
      what they have become; r is what the range asked for has grown to, and merged the bank in seen that holds
      it, or -1. */
  datatype Scan = Scan(seen: seq<Bank>, past: seq<Bank>, r: Bank, merged: int)

  ghost predicate Shape(r0: Bank, s: Scan) {
    && -1 <= s.merged < |s.seen| && Proper(r0) && Proper(s.r) && s.r.kind == r0.kind
    && AllProper(s.past) && Disjoint(s.past)
    && (s.merged == -1 ==> s.r == r0 && s.seen == s.past)
    && (s.merged >= 0 ==> r0.kind == Reserved && s.seen[s.merged] == s.r.(host := s.seen[s.merged].host))
  }

  /** The banks seen, but for the merged one, are as they were and apart from the range. */
  ghost predicate Apart(s: Scan) {
    && Disjoint(s.seen)
    && forall j | 0 <= j < |s.seen| && j != s.merged :: !Overlap(s.seen[j], s.r) && s.seen[j] in s.past
  }

  ghost predicate ReservedAt(banks: seq<Bank>, a: int) {
    exists j :: 0 <= j < |banks| && banks[j].kind == Reserved && In(banks[j], a)
  }

  ghost predicate Within(b: Bank, c: Bank) { forall a | In(b, a) :: In(c, a) }

  /** The range grew by exactly the banks that are gone. */
  ghost predicate Grown(r0: Bank, s: Scan) {
    && Within(r0, s.r)
    && (forall a | In(s.r, a) :: In(r0, a) || ReservedAt(s.past, a))
    && forall j | 0 <= j < |s.past| && s.past[j] !in s.seen :: s.past[j].kind == Reserved && Within(s.past[j], s.r)
  }

  ghost predicate NoConflict(r0: Bank, s: Scan) {
    && (forall j | 0 <= j < |s.past| :: Compatible(s.past[j], r0))
    && (s.merged == -1 <==> forall j | 0 <= j < |s.past| :: !Overlap(s.past[j], r0))
  }

  ghost predicate Inv(r0: Bank, s: Scan) { Shape(r0, s) && Apart(s) && Grown(r0, s) && NoConflict(r0, s) }

  /** A bank that is apart from those passed. */
  ghost predicate Next(s: Scan, b: Bank) {
    Proper(b) && forall j | 0 <= j < |s.past| :: !Overlap(s.past[j], b)
  }

  lemma {:induction false} Start(r0: Bank)
    requires Proper(r0)
    ensures Inv(r0, Scan([], [], r0, -1))
  {
  }

  /** What the grown range overlaps of the banks to come, the original range overlaps too. */
  lemma {:induction false} SameOverlap(r0: Bank, s: Scan, b: Bank)
    requires Inv(r0, s) && Next(s, b)
    ensures Overlap(b, s.r) <==> Overlap(b, r0)
  {
    OverlapPoint(b, s.r);
    OverlapPoint(b, r0);
    if Overlap(b, s.r) {
      var a :| In(b, a) && In(s.r, a);
      assert In(r0, a);
    }
  }

  function Passed(s: Scan, b: Bank): Scan { s.(seen := s.seen + [b], past := s.past + [b]) }

  lemma {:induction false} DisjointAppend(banks: seq<Bank>, b: Bank)
    requires Disjoint(banks) && forall j | 0 <= j < |banks| :: !Overlap(banks[j], b)
    ensures Disjoint(banks + [b])
  {
  }

  lemma {:induction false} PassedApart(r0: Bank, s: Scan, b: Bank)
    requires Inv(r0, s) && Next(s, b) && !Overlap(b, s.r)
    ensures Apart(Passed(s, b))
  {
    OverlapPoint(b, s.r);
    forall j | 0 <= j < |s.seen|
      ensures !Overlap(s.seen[j], b)
    {
      if j != s.merged {
        var q :| 0 <= q < |s.past| && s.past[q] == s.seen[j];
      }
    }
    DisjointAppend(s.seen, b);
  }

  lemma {:induction false} ReservedMore(banks: seq<Bank>, b: Bank, a: int)
    ensures ReservedAt(banks + [b], a) <==> ReservedAt(banks, a) || (b.kind == Reserved && In(b, a))
  {
    if ReservedAt(banks, a) {
      var j :| 0 <= j < |banks| && banks[j].kind == Reserved && In(banks[j], a);
      assert (banks + [b])[j] == banks[j];
    }
    assert (banks + [b])[|banks|] == b;
  }

  lemma {:induction false} PassedGrown(r0: Bank, s: Scan, b: Bank)
    requires Grown(r0, s)
    ensures Grown(r0, Passed(s, b))
  {
    hide In, Within;
    forall a | In(s.r, a) && !In(r0, a)
      ensures ReservedAt(s.past + [b], a)
    {
      ReservedMore(s.past, b, a);
    }
  }

  lemma {:induction false} NextShape(s: Scan, b: Bank)
    requires AllProper(s.past) && Disjoint(s.past) && Next(s, b)
    ensures AllProper(s.past + [b]) && Disjoint(s.past + [b])
  {
    DisjointAppend(s.past, b);
  }

  /** A bank apart from the range is passed over. */
  lemma {:induction false} Skip(r0: Bank, s: Scan, b: Bank)
    requires Inv(r0, s) && Next(s, b) && !Overlap(b, s.r)
    ensures Inv(r0, Passed(s, b))
  {
    hide Apart, Grown, Disjoint, AllProper, In, Overlap, Next;
    SameOverlap(r0, s, b);
    PassedApart(r0, s, b);
    PassedGrown(r0, s, b);
    NextShape(s, b);
    CompatibleMore(r0, s.past, b);
  }

  lemma {:induction false} CompatibleMore(r0: Bank, past: seq<Bank>, b: Bank)
    ensures (forall j | 0 <= j < |past + [b]| :: Compatible((past + [b])[j], r0)) <==>
              (forall j | 0 <= j < |past| :: Compatible(past[j], r0)) && Compatible(b, r0)
    ensures (forall j | 0 <= j < |past + [b]| :: !Overlap((past + [b])[j], r0)) <==>
              (forall j | 0 <= j < |past| :: !Overlap(past[j], r0)) && !Overlap(b, r0)
  {
    hide Compatible, Overlap;
    var all := past + [b];
    assert all[|past|] == b;
    assert forall j | 0 <= j < |past| :: all[j] == past[j];
  }

  function RemoveAt(banks: seq<Bank>, m: nat): seq<Bank>
    requires m < |banks|
  {
    banks[..m] + banks[m + 1..]
  }

  /** The banks seen without the one that holds the range. */
  function Kept(s: Scan): seq<Bank>
    requires s.merged < |s.seen|
  {
    if s.merged >= 0 then RemoveAt(s.seen, s.merged) else s.seen
  }

  /** A reserved bank takes in the range; the bank that held the range before is removed. */
  function Absorbed(s: Scan, b: Bank): Scan
    requires s.merged < |s.seen| && b.size > 0 && s.r.size > 0
  {
    var m := Merge(b, s.r);
    Scan(Kept(s) + [m], s.past + [b], s.r.(start := m.start, size := m.size), |Kept(s)|)
  }

  lemma {:induction false} RemoveAtFacts(banks: seq<Bank>, m: nat)
    requires m < |banks|
    ensures |RemoveAt(banks, m)| == |banks| - 1
    ensures forall j | 0 <= j < |banks| - 1 :: RemoveAt(banks, m)[j] == banks[if j < m then j else j + 1]
    ensures forall b | b in banks :: b in RemoveAt(banks, m) || b == banks[m]
  {
    assert banks == banks[..m] + [banks[m]] + banks[m + 1..];
  }

  lemma {:induction false} KeptApart(r0: Bank, s: Scan)
    requires Inv(r0, s)
    ensures Disjoint(Kept(s)) && forall j | 0 <= j < |Kept(s)| :: !Overlap(Kept(s)[j], s.r) && Kept(s)[j] in s.past
    ensures forall b | b in s.seen :: b in Kept(s) || (s.merged >= 0 && b == s.seen[s.merged])
  {
    hide Grown, NoConflict, Overlap, AllProper, Proper, RemoveAt;
    if s.merged >= 0 {
      RemoveAtFacts(s.seen, s.merged);
    }
  }

  lemma {:induction false} AbsorbedApart(r0: Bank, s: Scan, b: Bank)
    requires Inv(r0, s) && Next(s, b) && Overlap(b, s.r)
    ensures Apart(Absorbed(s, b))
  {
    hide Kept, Apart, Grown, NoConflict;
    KeptApart(r0, s);
    var kept, m := Kept(s), Merge(b, s.r);
    forall j | 0 <= j < |kept|
      ensures !Overlap(kept[j], m) && !Overlap(kept[j], Absorbed(s, b).r)
    {
      var q :| 0 <= q < |s.past| && s.past[q] == kept[j];
      UnionApart(kept[j], b, s.r);
    }
    DisjointAppend(kept, m);
    assert kept == Absorbed(s, b).seen[..|kept|];
    ApartAppend(kept, m, Absorbed(s, b));
  }

  lemma {:induction false} UnionApart(c: Bank, b: Bank, r: Bank)
    requires Proper(c) && Proper(b) && Proper(r) && Overlap(b, r) && !Overlap(c, b) && !Overlap(c, r)
    ensures !Overlap(c, Merge(b, r)) && !Overlap(c, r.(start := Merge(b, r).start, size := Merge(b, r).size))
  {
  }

  lemma {:induction false} ApartAppend(kept: seq<Bank>, m: Bank, t: Scan)
    requires t.seen == kept + [m] && t.merged == |kept| && Disjoint(t.seen)
    requires forall j | 0 <= j < |kept| :: !Overlap(kept[j], t.r) && kept[j] in t.past
    ensures Apart(t)
  {
    hide Overlap, Disjoint;
  }

  lemma {:induction false} AbsorbedGrown(r0: Bank, s: Scan, b: Bank)
    requires Inv(r0, s) && Next(s, b) && Overlap(b, s.r) && b.kind == Reserved
    ensures Grown(r0, Absorbed(s, b))
  {
    hide Kept, Overlap, Disjoint, Merge;
    var t := Absorbed(s, b);
    KeptApart(r0, s);
    forall a
      ensures In(t.r, a) <==> In(b, a) || In(s.r, a)
    {
      MergeIsUnion(b, s.r, a);
    }
    forall a | In(t.r, a) && !In(r0, a)
      ensures ReservedAt(t.past, a)
    {
      ReservedMore(s.past, b, a);
    }
    forall j | 0 <= j < |t.past| && t.past[j] !in t.seen
      ensures t.past[j].kind == Reserved && Within(t.past[j], t.r)
    {
      GoneWithin(r0, s, b, t.past[j]);
    }
  }

  /** A bank that is no longer in the list lies in the range. */
  lemma {:induction false} GoneWithin(r0: Bank, s: Scan, b: Bank, c: Bank)
    requires Inv(r0, s) && b.size > 0 && b.kind == Reserved && c in s.past + [b] && c !in Kept(s)
    ensures c.kind == Reserved && forall a | In(c, a) :: In(b, a) || In(s.r, a)
  {
    hide Kept, Overlap, Disjoint;
    KeptApart(r0, s);
    if c != b {
      assert c in s.past;
      if c in s.seen {
        assert c == s.seen[s.merged];
      } else {
        assert Within(c, s.r);
      }
    }
  }

  /** A reserved bank that overlaps the range takes it in. */
  lemma {:induction false} Absorb(r0: Bank, s: Scan, b: Bank)
    requires Inv(r0, s) && Next(s, b) && Overlap(b, s.r) && b.kind == Reserved && r0.kind == Reserved
    ensures Inv(r0, Absorbed(s, b))
  {
    hide Apart, Grown, Disjoint, AllProper, In, Overlap, Next, Kept;
    SameOverlap(r0, s, b);
    AbsorbedApart(r0, s, b);
    AbsorbedGrown(r0, s, b);
    NextShape(s, b);
    CompatibleMore(r0, s.past, b);
    NextProper(s, b);
    MergeProper(b, s.r);
  }

  lemma {:induction false} NextProper(s: Scan, b: Bank)
    requires Next(s, b)
    ensures Proper(b)
  {
  }

  lemma {:induction false} MergeProper(b: Bank, r: Bank)
    requires Proper(b) && Proper(r)
    ensures Proper(Merge(b, r)) && Merge(b, r).kind == b.kind
  {
  }

  // ---------------------------------------------------------------- the end of the scan

  /** After a merge: the banks are apart, and they cover what they did and the range asked for. */
  lemma {:induction false} MergedCover(r0: Bank, s: Scan, a: int)
    requires Inv(r0, s) && s.merged >= 0
    ensures Covered(s.seen, a) <==> Covered(s.past, a) || In(r0, a)
  {
    hide Overlap, Disjoint, AllProper;
    assert In(s.r, a) ==> In(s.seen[s.merged], a);
    if Covered(s.seen, a) {
      var j :| 0 <= j < |s.seen| && In(s.seen[j], a);
      if j != s.merged {
        assert s.seen[j] in s.past;
      }
    }
    if Covered(s.past, a) {
      var j :| 0 <= j < |s.past| && In(s.past[j], a);
      if s.past[j] !in s.seen {
        assert Within(s.past[j], s.r);
      }
    }
  }

  /** Banks that are not reserved are neither lost nor gained in the scan. */
  lemma {:induction false} BackedKept(r0: Bank, s: Scan, b: Bank)
    requires Inv(r0, s) && b.kind != Reserved
    ensures b in s.seen <==> b in s.past
  {
    hide Overlap, Disjoint, AllProper, In;
  }

  lemma {:induction false} AddedCover(past: seq<Bank>, b: Bank, a: int)
    ensures Covered([b] + past, a) <==> Covered(past, a) || In(b, a)
  {
    var all := [b] + past;
    assert all[0] == b;
    if Covered(past, a) {
      var j :| 0 <= j < |past| && In(past[j], a);
      assert all[j + 1] == past[j];
    }
  }

  // ---------------------------------------------------------------- the list

  lemma {:induction false} NextOf(s: Scan, rest: seq<Bank>)
    requires AllProper(s.past + rest) && Disjoint(s.past + rest) && rest != []
    ensures Next(s, rest[0]) && s.past + rest == (s.past + [rest[0]]) + rest[1..]
  {
    var all := s.past + rest;
    assert all[|s.past|] == rest[0];
    forall j | 0 <= j < |s.past|
      ensures !Overlap(s.past[j], rest[0])
    {
      assert all[j] == s.past[j];
    }
  }

  /** A conflict found after a merge leaves two banks that overlap. */
  lemma {:induction false} BrokenByConflict(r0: Bank, s: Scan, rest: seq<Bank>)
    requires Inv(r0, s) && rest != [] && rest[0].size > 0 && Overlap(rest[0], s.r) && s.merged >= 0
    ensures !Disjoint(s.seen + rest)
  {
    var all := s.seen + rest;
    assert all[s.merged] == s.seen[s.merged] && all[|s.seen|] == rest[0];
    OverlapPoint(rest[0], s.r);
    assert Overlap(all[s.merged], all[|s.seen|]);
  }

  lemma {:induction false} ListUpdate(seen: seq<Bank>, rest: seq<Bank>, b: Bank)
    requires rest != []
    ensures (seen + rest)[|seen| := b] == (seen + [b]) + rest[1..] && (seen + rest)[|seen|] == rest[0]
    ensures seen + rest == (seen + [rest[0]]) + rest[1..]
  {
  }

  lemma {:induction false} ListRemove(seen: seq<Bank>, b: Bank, rest: seq<Bank>, m: nat)
    requires m < |seen|
    ensures RemoveAt((seen + [b]) + rest, m) == (RemoveAt(seen, m) + [b]) + rest
  {
  }

  /** What a merge does to the list. */
  lemma {:induction false} AbsorbedList(s: Scan, rest: seq<Bank>)
    requires rest != [] && -1 <= s.merged < |s.seen| && rest[0].size > 0 && s.r.size > 0
    ensures var m, t, banks := Merge(rest[0], s.r), Absorbed(s, rest[0]), s.seen + rest;
            && |s.seen| < |banks| && t.past == s.past + [rest[0]] && t.r == s.r.(start := m.start, size := m.size)
            && t.seen + rest[1..] ==
               (if s.merged >= 0 then RemoveAt(banks[|s.seen| := m], s.merged) else banks[|s.seen| := m])
            && |t.seen| == t.merged + 1 && t.merged == if s.merged >= 0 then |s.seen| - 1 else |s.seen|
  {
    var m := Merge(rest[0], s.r);
    ListUpdate(s.seen, rest, m);
    if s.merged >= 0 {
      ListRemove(s.seen, m, rest[1..], s.merged);
    }
  }

  /** The list that a successful scan ends with. */
  ghost predicate Registered(all: seq<Bank>, banks: seq<Bank>, r0: Bank) {
    && AllProper(banks) && Disjoint(banks)
    && (forall a :: Covered(banks, a) <==> Covered(all, a) || In(r0, a))
    && forall b: Bank | b.kind != Reserved :: b in banks <==> b in all || b == r0
  }

  lemma {:induction false} MergedRegistered(r0: Bank, s: Scan)
    requires Inv(r0, s) && s.merged >= 0
    ensures Registered(s.past, s.seen, r0)
  {
    hide Overlap, In, Covered, Grown, NoConflict, Disjoint;
    assert AllProper(s.seen);
    forall a
      ensures Covered(s.seen, a) <==> Covered(s.past, a) || In(r0, a)
    {
      MergedCover(r0, s, a);
    }
    forall b: Bank | b.kind != Reserved
      ensures b in s.seen <==> b in s.past
    {
      BackedKept(r0, s, b);
    }
  }

  lemma {:induction false} AddedRegistered(r0: Bank, s: Scan)
    requires Inv(r0, s) && s.merged == -1
    ensures Registered(s.past, [r0] + s.past, r0)
  {
    hide In, Covered, Grown;
    var banks := [r0] + s.past;
    forall j | 0 <= j < |s.past|
      ensures !Overlap(r0, s.past[j])
    {
      OverlapPoint(s.past[j], r0);
    }
    forall i, j | 0 <= i < j < |banks|
      ensures !Overlap(banks[i], banks[j])
    {
      assert banks[j] == s.past[j - 1];
      if i > 0 {
        assert banks[i] == s.past[i - 1];
      }
    }
    forall a
      ensures Covered(banks, a) <==> Covered(s.past, a) || In(r0, a)
    {
      AddedCover(s.past, r0, a);
    }
  }

  class Vm {
    var banks: seq<Bank>
    var slots: nat
    /** The ranges registered so far. */
    ghost var requested: seq<Bank>

    /** The banks do not overlap and cover exactly what was registered. */
    ghost predicate Valid()
      reads this
    {
      AllProper(banks) && Disjoint(banks) && forall a :: Covered(banks, a) <==> Covered(requested, a)
    }

    constructor ()
      ensures Valid() && banks == [] && requested == [] && slots == 0
    {
      banks, slots, requested := [], 0, [];
    }

    /** kvm__register_mem */
    method RegisterMem(start: nat, size: nat, host: nat, kind: Kind) returns (ok: bool)
      requires Valid() && Proper(Bank(start, size, host, kind))
      modifies this
      ensures ok <==> forall j | 0 <= j < |old(banks)| :: Compatible(old(banks)[j], Bank(start, size, host, kind))
      ensures ok ==> Valid() && requested == old(requested) + [Bank(start, size, host, kind)]
      ensures ok ==> Registered(old(banks), banks, Bank(start, size, host, kind))
      ensures slots == old(slots) + if ok && kind != Reserved then 1 else 0
      ensures !ok ==> Rejected(old(banks), banks, Bank(start, size, host, kind))
    {
      hide Inv, Overlap, In, Covered, Disjoint, AllProper, Next, Registered, Rejected, Proper, Merge, Absorbed;
      hide RemoveAt;
      ghost var r0, all := Bank(start, size, host, kind), banks;
      ghost var rest, s := banks, Scan([], [], r0, -1);
      Start(r0);
      var guestPhys, length, merged, i := start, size, -1, 0;
      while i < |banks|
        invariant banks == s.seen + rest && all == s.past + rest && i == |s.seen| && merged == s.merged
        invariant s.r == r0.(start := guestPhys, size := length) && Inv(r0, s)
        invariant requested == old(requested) && slots == old(slots)
        decreases |rest|
      {
        var bank := banks[i];
        NextOf(s, rest);
        ListUpdate(s.seen, rest, bank);
        SameOverlap(r0, s, bank);
        Sizes(r0, s, bank);
        if !Overlap(bank, Bank(guestPhys, length, host, kind)) {
          Skip(r0, s, bank);
          s := Passed(s, bank);
          i := i + 1;
        } else if bank.kind == Reserved && kind == Reserved {
          Absorb(r0, s, bank);
          AbsorbedList(s, rest);
          bank := Merge(bank, Bank(guestPhys, length, host, kind));
          banks := banks[i := bank];
          if merged >= 0 {
            banks := RemoveAt(banks, merged);
            i := i - 1;
          }
          s := Absorbed(s, rest[0]);
          guestPhys, length, merged := bank.start, bank.size, i;
          i := i + 1;
        } else {
          Refused(r0, s, rest);
          return false;
        }
        rest := rest[1..];
      }
      assert rest == [] && banks == s.seen && all == s.past;
      Accepted(r0, s);
      ok := true;
      if merged < 0 {
        AddedRegistered(r0, s);
        slots := slots + if kind != Reserved then 1 else 0;
        banks := [Bank(guestPhys, length, host, kind)] + banks;
      } else {
        MergedRegistered(r0, s);
      }
      requested := requested + [r0];
      RegisteredValid(all, banks, old(requested), r0);
    }
  }

  lemma {:induction false} Sizes(r0: Bank, s: Scan, b: Bank)
    requires Inv(r0, s) && Next(s, b)
    ensures b.size > 0 && s.r.size > 0 && -1 <= s.merged < |s.seen| && (s.merged >= 0 ==> r0.kind == Reserved)
  {
  }

  /** A refused call: the list is as it was, or its banks overlap; the latter when a reserved bank that the
      range overlaps comes before the first one that it conflicts with. */
  ghost predicate Rejected(all: seq<Bank>, banks: seq<Bank>, r0: Bank) {
    && (Disjoint(banks) <==> banks == all)
    && exists i :: 0 <= i < |all| && !Compatible(all[i], r0) && (forall j | 0 <= j < i :: Compatible(all[j], r0))
                   && (banks == all <==> forall j | 0 <= j < i :: !Overlap(all[j], r0))
  }

  lemma {:induction false} Refused(r0: Bank, s: Scan, rest: seq<Bank>)
    requires Inv(r0, s) && rest != [] && Next(s, rest[0]) && Disjoint(s.past + rest)
    requires Overlap(rest[0], s.r) && !(rest[0].kind == Reserved && r0.kind == Reserved)
    ensures Rejected(s.past + rest, s.seen + rest, r0)
    ensures exists j :: 0 <= j < |s.past + rest| && !Compatible((s.past + rest)[j], r0)
  {
    var all, banks := s.past + rest, s.seen + rest;
    SameOverlap(r0, s, rest[0]);
    var k := |s.past|;
    assert all[k] == rest[0];
    assert forall j | 0 <= j < k :: all[j] == s.past[j];
    if s.merged >= 0 {
      BrokenByConflict(r0, s, rest);
    }
    hide Overlap, In, Disjoint, Grown, Apart;
    assert !Compatible(all[k], r0) && forall j | 0 <= j < k :: Compatible(all[j], r0);
    assert banks == all <==> forall j | 0 <= j < k :: !Overlap(all[j], r0);
  }

  lemma {:induction false} Accepted(r0: Bank, s: Scan)
    requires Inv(r0, s)
    ensures forall j | 0 <= j < |s.past| :: Compatible(s.past[j], r0)
    ensures -1 <= s.merged && (s.merged == -1 ==> s.r == r0 && s.seen == s.past)
            && (s.merged >= 0 ==> r0.kind == Reserved)
  {
  }

  lemma {:induction false} RegisteredValid(all: seq<Bank>, banks: seq<Bank>, requested: seq<Bank>, r0: Bank)
    requires Registered(all, banks, r0) && forall a :: Covered(all, a) <==> Covered(requested, a)
    ensures AllProper(banks) && Disjoint(banks) && forall a :: Covered(banks, a) <==> Covered(requested + [r0], a)
  {
    forall a
      ensures Covered(banks, a) <==> Covered(requested + [r0], a)
    {
      AppendedCover(requested, r0, a);
    }
  }

  lemma {:induction false} AppendedCover(past: seq<Bank>, b: Bank, a: int)
    ensures Covered(past + [b], a) <==> Covered(past, a) || In(b, a)
  {
    var all := past + [b];
    assert all[|past|] == b;
    if Covered(past, a) {
      var j :| 0 <= j < |past| && In(past[j], a);
      assert all[j] == past[j];
    }
  }

  // ---------------------------------------------------------------- address translation

  datatype Option<T> = None | Some(value: T)

  /** The scan of guest_flat_to_host: the end of a bank is computed in 64 bits. */
  predicate GuestHit(b: Bank, a: nat) { b.start <= a < (b.start + b.size) % U64 }

  predicate HostHit(b: Bank, p: nat) { b.host <= p < b.host + b.size }

  function ToHost(banks: seq<Bank>, a: nat): Option<nat> {
    if banks == [] then None
    else if GuestHit(banks[0], a) then Some(banks[0].host + (a - banks[0].start))
    else ToHost(banks[1..], a)
  }

  function ToGuest(banks: seq<Bank>, p: nat): Option<nat> {
    if banks == [] then None
    else if HostHit(banks[0], p) then Some(banks[0].start + (p - banks[0].host))
    else ToGuest(banks[1..], p)
  }

  /** guest_flat_to_host */
  method GuestFlatToHost(banks: seq<Bank>, a: nat) returns (r: Option<nat>)
    ensures r == ToHost(banks, a)
  {
    var i := 0;
    while i < |banks|
      invariant 0 <= i <= |banks| && ToHost(banks, a) == ToHost(banks[i..], a)
    {
      var b := banks[i];
      assert banks[i..][1..] == banks[i + 1..];
      if a >= b.start && a < (b.start + b.size) % U64 {
        return Some(b.host + (a - b.start));
      }
      i := i + 1;
    }
    r := None;
  }

  /** host_to_guest_flat */
  method HostToGuestFlat(banks: seq<Bank>, p: nat) returns (r: Option<nat>)
    ensures r == ToGuest(banks, p)
  {
    var i := 0;
    while i < |banks|
      invariant 0 <= i <= |banks| && ToGuest(banks, p) == ToGuest(banks[i..], p)
    {
      var b := banks[i];
      assert banks[i..][1..] == banks[i + 1..];
      if p >= b.host && p < b.host + b.size {
        return Some(b.start + (p - b.host));
      }
      i := i + 1;
    }
    r := None;
  }

  /** No other bank uses the host range of a bank that is backed. */
  ghost predicate HostDisjoint(banks: seq<Bank>) {
    forall i, j | 0 <= i < |banks| && 0 <= j < |banks| && i != j && banks[i].kind != Reserved ::
      banks[i].host + banks[i].size <= banks[j].host || banks[j].host + banks[j].size <= banks[i].host
  }

  lemma {:induction false} ToHostAt(banks: seq<Bank>, j: nat, a: nat)
    requires j < |banks| && AllProper(banks) && Disjoint(banks) && In(banks[j], a)
    ensures ToHost(banks, a) ==
            if banks[j].start + banks[j].size < U64 then Some(banks[j].host + (a - banks[j].start)) else None
  {
    if j > 0 {
      OverlapPoint(banks[0], banks[j]);
      assert !In(banks[0], a);
      assert banks[1..][j - 1] == banks[j];
      DisjointTail(banks);
      ToHostAt(banks[1..], j - 1, a);
    } else {
      DisjointTail(banks);
      if banks[0].start + banks[0].size == U64 {
        NoHit(banks[1..], a);
      }
    }
  }

  lemma {:induction false} DisjointTail(banks: seq<Bank>)
    requires banks != [] && AllProper(banks) && Disjoint(banks)
    ensures AllProper(banks[1..]) && Disjoint(banks[1..])
    ensures forall a: nat | In(banks[0], a) :: forall i | 0 <= i < |banks[1..]| :: !In(banks[1..][i], a)
  {
    forall a: nat, i | In(banks[0], a) && 0 <= i < |banks[1..]|
      ensures !In(banks[1..][i], a)
    {
      OverlapPoint(banks[0], banks[i + 1]);
    }
  }

  lemma {:induction false} NoHit(banks: seq<Bank>, a: nat)
    requires AllProper(banks) && forall i | 0 <= i < |banks| :: !In(banks[i], a)
    ensures ToHost(banks, a) == None
  {
    if banks != [] {
      assert !In(banks[0], a);
      NoHit(banks[1..], a);
    }
  }

  /** An address that no bank holds is not translated, in either direction. */
  lemma {:induction false} GuestMiss(banks: seq<Bank>, a: nat)
    requires AllProper(banks) && !Covered(banks, a)
    ensures ToHost(banks, a) == None
  {
    NoHit(banks, a);
  }

  lemma {:induction false} HostMiss(banks: seq<Bank>, p: nat)
    requires forall i | 0 <= i < |banks| :: !HostHit(banks[i], p)
    ensures ToGuest(banks, p) == None
  {
    if banks != [] {
      HostMiss(banks[1..], p);
    }
  }

  lemma {:induction false} ToGuestAt(banks: seq<Bank>, j: nat, p: nat)
    requires j < |banks| && HostDisjoint(banks) && banks[j].kind != Reserved && HostHit(banks[j], p)
    ensures ToGuest(banks, p) == Some(banks[j].start + (p - banks[j].host))
  {
    if j > 0 {
      assert !HostHit(banks[0], p);
      ToGuestAt(banks[1..], j - 1, p);
    }
  }

  /** On backed memory the two translations are inverse to each other, in both directions, if and only if the
      bank does not end at 2^64. */
  lemma {:induction false} TranslationsInverse(banks: seq<Bank>, j: nat, a: nat)
    requires AllProper(banks) && Disjoint(banks) && HostDisjoint(banks)
    requires j < |banks| && banks[j].kind != Reserved && In(banks[j], a)
    ensures var p := banks[j].host + (a - banks[j].start);
            && ToGuest(banks, p) == Some(a)
            && (ToHost(banks, a) == Some(p) <==> banks[j].start + banks[j].size < U64)
            && (ToHost(banks, a) == None <==> banks[j].start + banks[j].size == U64)
  {
    ToHostAt(banks, j, a);
    ToGuestAt(banks, j, banks[j].host + (a - banks[j].start));
  }
}
