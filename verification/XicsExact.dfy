/** The exact conditions of module Xics: which operations write outside the irqs array, which states can lose a
    raised interrupt, and what holds after the resend passes of whole runs. */
module XicsExact {
  import opened Xics
  import XicsDelivery

  // ---------------------------------------------------------------- when an operation faults

  /** A source of this priority, given to a server in this state, displaces the IPI that it presents. */
  predicate DisplacesIpi(s: Server, priority: nat) { s.xisr == IPI && priority < s.cppr && priority < s.pending }

  /** Source i, when it is sent again, takes the place of what server q presents. */
  predicate Bumps(st: State, i: nat, q: nat)
    requires WellFormed(st) && i < |st.irqs| && q < |st.ss|
  {
    var irq := st.irqs[i];
    irq.priority != MASKED && irq.server == q && irq.priority < st.ss[q].cppr && irq.priority < st.ss[q].pending
  }

  /** A resend pass from st finds source k rejected: it is now, or it is presented and an earlier source of the
      pass takes its place. */
  ghost predicate Reached(st: State, k: nat)
    requires WellFormed(st) && k < |st.irqs|
    decreases k, 1
  {
    st.irqs[k].rejected || exists q :: 0 <= q < |st.ss| && st.ss[q].xisr == k + OFFSET && Bumped(st, q, k)
  }

  /** What server q presents is displaced by one of the first j sources. */
  ghost predicate Bumped(st: State, q: nat, j: nat)
    requires WellFormed(st) && q < |st.ss| && j <= |st.irqs|
    decreases j, 0
  {
    exists i :: 0 <= i < j && Reached(st, i) && Bumps(st, i, q)
  }

  /** A resend pass displaces an IPI. */
  ghost predicate PassDisplaces(st: State, i: nat)
    requires WellFormed(st)
  {
    exists k :: i <= k < |st.irqs| && Reached(st, k) && st.irqs[k].priority != MASKED && WouldDisplaceIpi(st, k)
  }

  /** The state of a pass from st that has come to source j: a server is as it was, or presents a source already
      passed; a source not yet passed is rejected if it was or is no longer presented. */
  ghost predicate PassServer(st: State, cur: State, j: nat, q: nat)
    requires WellFormed(st) && j <= |st.irqs| && q < |st.ss| == |cur.ss|
  {
    && (cur.ss[q] == st.ss[q] || (OFFSET <= cur.ss[q].xisr < j + OFFSET && st.ss[q].xisr != IPI))
    && (j + OFFSET <= st.ss[q].xisr && Bumped(st, q, j) ==> cur.ss[q].xisr != st.ss[q].xisr)
    && (j + OFFSET <= st.ss[q].xisr && !Bumped(st, q, j) ==> cur.ss[q] == st.ss[q])
  }

  ghost predicate PassSource(st: State, cur: State, k: nat)
    requires k < |st.irqs| == |cur.irqs| && |cur.ss| == |st.ss|
  {
    cur.irqs[k].rejected <==>
      st.irqs[k].rejected || exists q :: 0 <= q < |st.ss| && st.ss[q].xisr == k + OFFSET && cur.ss[q].xisr != k + OFFSET
  }

  ghost predicate PassInv(st: State, cur: State, j: nat) {
    && WellFormed(st) && WellFormed(cur) && Same(st, cur) && !st.fault && !cur.fault && j <= |st.irqs|
    && (forall q | 0 <= q < |st.ss| :: PassServer(st, cur, j, q))
    && forall k | j <= k < |st.irqs| :: PassSource(st, cur, k)
  }

  lemma {:induction false} PassStart(st: State)
    requires WellFormed(st) && !st.fault
    ensures PassInv(st, st, 0)
  {
  }

  /** When the pass comes to source j, it is rejected exactly as foretold, and would displace an IPI exactly as
      in the beginning. */
  lemma {:induction false} PassFinds(st: State, cur: State, j: nat)
    requires PassInv(st, cur, j) && j < |st.irqs|
    ensures cur.irqs[j].rejected <==> Reached(st, j)
    ensures WouldDisplaceIpi(cur, j) <==> WouldDisplaceIpi(st, j)
  {
    hide Bumped;
    assert PassSource(st, cur, j);
    forall q | 0 <= q < |st.ss| && st.ss[q].xisr == j + OFFSET
      ensures cur.ss[q].xisr != j + OFFSET <==> Bumped(st, q, j)
    {
      assert PassServer(st, cur, j, q);
    }
    var q := st.irqs[j].server;
    assert PassServer(st, cur, j, q);
  }

  lemma {:induction false} BumpedNext(st: State, q: nat, j: nat)
    requires WellFormed(st) && q < |st.ss| && j < |st.irqs|
    ensures Bumped(st, q, j + 1) <==> Bumped(st, q, j) || (Reached(st, j) && Bumps(st, j, q))
  {
    hide Reached, Bumps;
    if Bumped(st, q, j) {
      var i :| 0 <= i < j && Reached(st, i) && Bumps(st, i, q);
      assert 0 <= i < j + 1 && Reached(st, i) && Bumps(st, i, q);
    }
  }

  /** What a round does to a server. */
  lemma {:induction false} RoundServer(cur: State, j: nat, q: nat)
    requires WellFormed(cur) && j < |cur.irqs| && q < |cur.ss| && !ResendOne(cur, j).fault && !cur.fault
    ensures |ResendOne(cur, j).ss| == |cur.ss|
    ensures var s, irq, s' := cur.ss[q], cur.irqs[j], ResendOne(cur, j).ss[q];
            if irq.rejected && irq.priority != MASKED && irq.server == q && irq.priority < s.cppr
               && (s.xisr == 0 || irq.priority < s.pending)
            then s'.xisr == j + OFFSET && s.xisr != IPI
            else s' == s
  {
  }

  lemma {:induction false} PassServerNext(st: State, cur: State, j: nat, q: nat)
    requires PassInv(st, cur, j) && j < |st.irqs| && q < |st.ss| && !ResendOne(cur, j).fault
    ensures |ResendOne(cur, j).ss| == |st.ss| && PassServer(st, ResendOne(cur, j), j + 1, q)
  {
    assert PassServer(st, cur, j, q);
    PassFinds(st, cur, j);
    BumpedNext(st, q, j);
    RoundServer(cur, j, q);
    hide Bumped, Reached, ResendOne, WouldDisplaceIpi, PassSource;
  }

  /** What a round does to a later source. */
  lemma {:induction false} RoundSource(cur: State, j: nat, k: nat)
    requires WellFormed(cur) && j < k < |cur.irqs| && !ResendOne(cur, j).fault && !cur.fault
    ensures |ResendOne(cur, j).irqs| == |cur.irqs| && |ResendOne(cur, j).ss| == |cur.ss|
    ensures ResendOne(cur, j).irqs[k].rejected <==>
              || cur.irqs[k].rejected
              || exists q :: 0 <= q < |cur.ss| && cur.ss[q].xisr == k + OFFSET
                             && ResendOne(cur, j).ss[q].xisr != k + OFFSET
  {
    ResendOneShape(cur, j);
    var q := cur.irqs[j].server;
    var cur' := ResendOne(cur, j);
    assert forall r | 0 <= r < |cur.ss| && r != q :: cur'.ss[r] == cur.ss[r];
    if cur.ss[q].xisr == k + OFFSET && cur'.ss[q].xisr != k + OFFSET {
      assert cur'.irqs[k].rejected;
    }
  }

  lemma {:induction false} PassSourceNext(st: State, cur: State, j: nat, k: nat)
    requires PassInv(st, cur, j) && j < k < |st.irqs| && !ResendOne(cur, j).fault
    ensures |ResendOne(cur, j).ss| == |st.ss| && |ResendOne(cur, j).irqs| == |st.irqs|
    ensures PassSource(st, ResendOne(cur, j), k)
  {
    assert PassSource(st, cur, k);
    RoundSource(cur, j, k);
    var cur' := ResendOne(cur, j);
    hide ResendOne, Bumped;
    var now := cur'.ss;
    forall q | 0 <= q < |st.ss| && cur.ss[q].xisr == k + OFFSET
      ensures st.ss[q].xisr == k + OFFSET
    {
      assert PassServer(st, cur, j, q);
    }
    forall q | 0 <= q < |st.ss| && now[q].xisr == k + OFFSET
      ensures cur.ss[q].xisr == k + OFFSET
    {
      assert PassServer(st, cur, j, q);
      PassServerNext(st, cur, j, q);
    }
  }

  lemma {:induction false} PassNext(st: State, cur: State, j: nat)
    requires PassInv(st, cur, j) && j < |st.irqs| && !ResendOne(cur, j).fault
    ensures PassInv(st, ResendOne(cur, j), j + 1)
  {
    hide PassServer, PassSource, ResendOne, Lines, Beats, AsConfigured;
    ResendOneKeeps(cur, j);
    var next, n := ResendOne(cur, j), j + 1;
    SameTransitive(st, cur, next);
    forall q | 0 <= q < |st.ss|
      ensures PassServer(st, next, n, q)
    {
      PassServerNext(st, cur, j, q);
    }
    forall k | n <= k < |st.irqs|
      ensures PassSource(st, next, k)
    {
      PassSourceNext(st, cur, j, k);
    }
  }

  /** A resend pass, from any state, writes outside the array exactly when it finds a source rejected that would
      displace an IPI; both can be told from the state before the pass. */
  lemma {:induction false} PassFaults(st: State, cur: State, j: nat)
    requires PassInv(st, cur, j)
    ensures ResendFrom(cur, j).fault <==> PassDisplaces(st, j)
    decreases |st.irqs| - j
  {
    hide PassServer, PassSource, ResendOne, Reached, WouldDisplaceIpi, Lines, Beats, AsConfigured;
    if j < |st.irqs| {
      ResendOneFaults(cur, j);
      PassFinds(st, cur, j);
      ResendOneKeeps(cur, j);
      if ResendOne(cur, j).fault {
        ResendKeeps(ResendOne(cur, j), j + 1);
      } else {
        PassNext(st, cur, j);
        PassFaults(st, ResendOne(cur, j), j + 1);
      }
    }
  }

  /** The state from which a server that presents nothing resends with this CPPR: its own IPI is presented first
      if its MFRR beats the CPPR. */
  function Refreshed(st: State, server: nat, cppr: nat): State
    requires server < |st.ss|
  {
    var s := st.ss[server].(cppr := cppr);
    st.(ss := st.ss[server := if s.mfrr < cppr then s.(xisr := IPI, pending := s.mfrr, line := true) else s])
  }

  lemma {:induction false} RefreshedShape(st: State, server: nat, cppr: nat)
    requires WellFormed(st) && server < |st.ss| && cppr < 256
    ensures WellFormed(Refreshed(st, server, cppr))
  {
  }

  ghost predicate ResendDisplaces(st: State, server: nat, cppr: nat)
    requires WellFormed(st) && server < |st.ss| && cppr < 256
  {
    RefreshedShape(st, server, cppr);
    PassDisplaces(Refreshed(st, server, cppr), 0)
  }

  /** The operation makes ics_reject_msi index its array with the number of the IPI. */
  ghost predicate Faults(st: State, op: Op)
    requires WellFormed(st) && Enabled(st, op)
  {
    match op
    case Raise(i) => st.irqs[i].priority != MASKED && WouldDisplaceIpi(st, i)
    case SetXive(i, server, priority) =>
      st.irqs[i].maskedPending && priority != MASKED && DisplacesIpi(st.ss[server], priority)
    case HCppr(server, cppr) =>
      var s := st.ss[server];
      if cppr < s.cppr then s.xisr == IPI && cppr <= s.pending else s.xisr == 0 && ResendDisplaces(st, server, cppr)
    case HIpi(server, mfrr) => DisplacesIpi(st.ss[server], mfrr)
    case HXirr(_) => false
    case HEoi(server, xirr) => st.ss[server].xisr == 0 && ResendDisplaces(st, server, xirr / 0x100_0000)
  }

  lemma {:induction false} ResendFaultsAfter(st: State, server: nat, cppr: nat)
    requires WellFormed(st) && !st.fault && server < |st.ss| && cppr < 256 && st.ss[server].xisr == 0
    ensures var st1 := st.(ss := st.ss[server := st.ss[server].(cppr := cppr)]);
            WellFormed(st1) && (IcpResend(st1, server).fault <==> ResendDisplaces(st, server, cppr))
  {
    hide ResendFrom, Lines, Beats, PassDisplaces, PassInv;
    var s := st.ss[server].(cppr := cppr);
    var st1 := st.(ss := st.ss[server := s]);
    SetServer(st, server, s);
    var st2 := if s.mfrr < cppr then CheckIpi(st1, server) else st1;
    RefreshedShape(st, server, cppr);
    assert st2 == Refreshed(st, server, cppr);
    PassStart(st2);
    PassFaults(st2, st2, 0);
  }

  /** For every operation in every state, the condition before it under which it writes outside the array. */
  lemma {:induction false} DoFaults(st: State, op: Op)
    requires WellFormed(st) && Enabled(st, op) && !st.fault
    ensures Do(st, op).fault <==> Faults(st, op)
  {
    hide ResendDisplaces, IcpResend;
    match op
    case Raise(i) =>
      if st.irqs[i].priority != MASKED {
        IcpIrqFaults(st, i + OFFSET);
      }
    case SetXive(i, server, priority) => XiveFaults(st, i, server, priority);
    case HCppr(server, cppr) =>
      if st.ss[server].xisr == 0 {
        ResendFaultsAfter(st, server, cppr);
      }
    case HIpi(server, mfrr) =>
    case HXirr(server) =>
    case HEoi(server, xirr) =>
      if st.ss[server].xisr == 0 {
        ResendFaultsAfter(st, server, xirr / 0x100_0000);
      }
  }

  /** Where presented sources are presented as configured, a pass displaces an IPI exactly when a source that is
      rejected before it would. */
  lemma {:induction false} PassDisplacesConfigured(st: State)
    requires WellFormed(st) && AsConfigured(st) && !st.fault
    ensures PassDisplaces(st, 0) <==>
              exists k :: 0 <= k < |st.irqs| && st.irqs[k].rejected && st.irqs[k].priority != MASKED
                          && WouldDisplaceIpi(st, k)
  {
    hide PassDisplaces, ResendFrom, PassInv, WouldDisplaceIpi;
    PassStart(st);
    PassFaults(st, st, 0);
    ResendFaults(st, 0);
  }

  lemma {:induction false} XiveFaults(st: State, i: nat, server: nat, priority: nat)
    requires WellFormed(st) && i < |st.irqs| && server < |st.ss| && priority < 256 && !st.fault
    ensures WriteXive(st, i, server, priority).fault <==>
              st.irqs[i].maskedPending && priority != MASKED && DisplacesIpi(st.ss[server], priority)
  {
  }

  /** No operation of the run reconfigures a source that is presented. */
  ghost predicate Configured(st: State, ops: seq<Op>)
    requires WellFormed(st) && Runs(st, ops)
    decreases |ops|
  {
    ops == [] || (
      !(ops[0].SetXive? && Presented(st, ops[0].i)) && (DoKeeps(st, ops[0]); Configured(Do(st, ops[0]), ops[1..])))
  }

  /** No operation of the run meets its condition for a fault. */
  ghost predicate NoFaults(st: State, ops: seq<Op>)
    requires WellFormed(st) && Runs(st, ops)
    decreases |ops|
  {
    ops == [] || (!Faults(st, ops[0]) && (DoKeeps(st, ops[0]); NoFaults(Do(st, ops[0]), ops[1..])))
  }

  /** A run writes outside the array if and only if one of its operations meets its condition. */
  lemma {:induction false} RunFaults(st: State, ops: seq<Op>)
    requires WellFormed(st) && Runs(st, ops) && !st.fault
    ensures Run(st, ops).fault <==> !NoFaults(st, ops)
    decreases |ops|
  {
    hide WellFormed, Lines, Beats, Enabled, Do, Faults;
    if ops != [] {
      DoKeeps(st, ops[0]);
      DoFaults(st, ops[0]);
      if !Do(st, ops[0]).fault {
        RunFaults(Do(st, ops[0]), ops[1..]);
      }
    }
  }

  lemma {:induction false} ConfiguredStays(st: State, ops: seq<Op>)
    requires WellFormed(st) && AsConfigured(st) && Runs(st, ops) && Configured(st, ops)
    ensures AsConfigured(Run(st, ops))
    decreases |ops|
  {
    if ops != [] {
      DoKeeps(st, ops[0]);
      ConfiguredStays(Do(st, ops[0]), ops[1..]);
    }
  }

  /** One server that presents an IPI at priority 5, and one masked source. */
  function PresentedIpi(): State { State([Server(IPI, 255, 5, 5, true)], [Source(0, MASKED, false, false)], false) }

  lemma {:induction false} ReachPresentedIpi()
    ensures WellFormed(PresentedIpi()) && AsConfigured(PresentedIpi())
    ensures Enabled(Init(1, 1), HCppr(0, 255)) && WellFormed(Do(Init(1, 1), HCppr(0, 255)))
    ensures Enabled(Do(Init(1, 1), HCppr(0, 255)), HIpi(0, 5))
    ensures Do(Do(Init(1, 1), HCppr(0, 255)), HIpi(0, 5)) == PresentedIpi()
  {
    var st := State([Server(0, 255, 0, 255, false)], [Source(0, MASKED, false, false)], false);
    var init := Init(1, 1);
    assert init.ss == [Server(0, 0, 0, 255, false)] && init.irqs == st.irqs;
    assert init.(ss := init.ss[0 := init.ss[0].(cppr := 255)]) == st;
    assert Do(init, HCppr(0, 255)) == IcpResend(st, 0) == ResendFrom(st, 0);
    assert ResendOne(st, 0) == st;
    assert ResendFrom(st, 0) == ResendFrom(st, 1) == st;
    assert Do(st, HIpi(0, 5)) == PresentedIpi();
  }

  /** Two H_CPPR and H_IPI calls from the initial state bring an IPI up without a fault; no source could displace
      it, but lowering the MFRR again, or the CPPR to below its priority, faults. */
  lemma {:induction false} LoweringUnderAnIpiFaults()
    ensures Runs(Init(1, 1), [HCppr(0, 255), HIpi(0, 5)])
    ensures Run(Init(1, 1), [HCppr(0, 255), HIpi(0, 5)]) == PresentedIpi() && !PresentedIpi().fault
    ensures WellFormed(PresentedIpi()) && !WouldDisplaceIpi(PresentedIpi(), 0)
    ensures Do(PresentedIpi(), HIpi(0, 3)).fault && Do(PresentedIpi(), HCppr(0, 3)).fault
  {
    ReachPresentedIpi();
    var st, st1 := Init(1, 1), Do(Init(1, 1), HCppr(0, 255));
    var ops: seq<Op> := [HCppr(0, 255), HIpi(0, 5)];
    hide Do, Init;
    assert ops[1..] == [HIpi(0, 5)] && ops[1..][1..] == [];
    LowerIpi();
  }

  lemma {:induction false} LowerIpi()
    ensures WellFormed(PresentedIpi())
    ensures Do(PresentedIpi(), HIpi(0, 3)).fault && Do(PresentedIpi(), HCppr(0, 3)).fault
  {
    DoFaults(PresentedIpi(), HIpi(0, 3));
    DoFaults(PresentedIpi(), HCppr(0, 3));
  }

  // ---------------------------------------------------------------- fairness over runs

  /** The operation ends in a resend pass. */
  predicate Resends(st: State, op: Op)
    requires Enabled(st, op)
  {
    match op
    case HCppr(server, cppr) => cppr >= st.ss[server].cppr && st.ss[server].xisr == 0
    case HEoi(server, _) => st.ss[server].xisr == 0
    case _ => false
  }

  /** The operation raises source k. */
  predicate Raises(st: State, op: Op, k: nat)
    requires Enabled(st, op)
  {
    match op
    case Raise(i) => i == k && st.irqs[k].priority != MASKED
    case SetXive(i, _, priority) => i == k && st.irqs[k].maskedPending && priority != MASKED
    case _ => false
  }

  /** In every run from the initial state that never reconfigures a presented source and meets no condition for a
      fault: after every operation that resends, each source still rejected is not more favoured than its server's
      CPPR or no more favoured than what that server now presents; after every operation that raises a source, the
      same holds of that source; and nothing was written outside the array. */
  lemma {:induction false} FairAlways(servers: nat, sources: nat, ops: seq<Op>, op: Op)
    requires servers > 0 && Runs(Init(servers, sources), ops) && Configured(Init(servers, sources), ops)
    requires NoFaults(Init(servers, sources), ops)
    requires var st := Run(Init(servers, sources), ops); Enabled(st, op) && !Faults(st, op)
    ensures var st := Run(Init(servers, sources), ops);
            var st' := Do(st, op);
            && WellFormed(st') && !st'.fault
            && (Resends(st, op) ==> forall k | 0 <= k < |st'.irqs| && st'.irqs[k].rejected :: NotBetter(st', k))
            && forall k: nat | Raises(st, op, k) :: k < |st'.irqs| && NotBetter(st', k)
  {
    var st := Run(Init(servers, sources), ops);
    RunFaults(Init(servers, sources), ops);
    ConfiguredStays(Init(servers, sources), ops);
    DoFaults(st, op);
    DoKeeps(st, op);
    hide Do;
    if Resends(st, op) {
      DoFair(st, op);
    }
    forall k: nat | Raises(st, op, k)
      ensures k < |Do(st, op).irqs| && NotBetter(Do(st, op), k)
    {
      RaisedFair(st, op, k);
    }
  }

  lemma {:induction false} RaisedFair(st: State, op: Op, k: nat)
    requires WellFormed(st) && Enabled(st, op) && Raises(st, op, k)
    ensures WellFormed(Do(st, op)) && k < |Do(st, op).irqs| && NotBetter(Do(st, op), k)
  {
    hide Do, WellFormed;
    DoKeeps(st, op);
    if op.Raise? {
      XicsDelivery.RaiseDelivers(st, k);
    } else {
      XicsDelivery.SetXiveDelivers(st, k, op.server, op.priority);
    }
  }

  lemma {:induction false} DoFair(st: State, op: Op)
    requires WellFormed(st) && AsConfigured(st) && Enabled(st, op) && Resends(st, op)
    ensures WellFormed(Do(st, op))
    ensures forall k | 0 <= k < |Do(st, op).irqs| && Do(st, op).irqs[k].rejected :: NotBetter(Do(st, op), k)
  {
    hide ResendFrom, CheckIpi, Lines, Beats, NotBetter;
    var server, cppr := op.server, if op.HCppr? then op.cppr else op.xirr / 0x100_0000;
    var s := st.ss[server].(cppr := cppr);
    var st1 := st.(ss := st.ss[server := s]);
    SetServer(st, server, s);
    var st2 := if s.mfrr < cppr then CheckIpi(st1, server) else st1;
    if s.mfrr < cppr {
      CheckIpiKeeps(st1, server);
    }
    ResendPassIsFair(st2);
    assert Do(st, op) == ResendFrom(st2, 0);
  }

  // ---------------------------------------------------------------- conservation, exactly

  /** If k is masked, it is neither presented nor rejected, or is recorded as masked-pending. */
  ghost predicate Kept(st: State, k: nat) {
    k < |st.irqs| && (st.irqs[k].priority == MASKED ==> Quiet(st, k) || st.irqs[k].maskedPending)
  }

  /** Source k is masked and recorded as masked-pending. */
  predicate Recorded(st: State, k: nat) {
    k < |st.irqs| && st.irqs[k].maskedPending && st.irqs[k].priority == MASKED
  }

  lemma {:induction false} IrqRecord(st: State, server: nat, nr: nat, priority: nat, k: nat)
    requires server < |st.ss| && Recorded(st, k)
    ensures Recorded(IcpIrq(st, server, nr, priority), k)
  {
  }

  lemma {:induction false} CpprRecord(st: State, server: nat, cppr: nat, k: nat)
    requires WellFormed(st) && server < |st.ss| && cppr < 256 && Recorded(st, k)
    ensures Recorded(SetCppr(st, server, cppr), k)
  {
    hide IcpResend;
    ResendRecord(st, server, st.ss[server].(cppr := cppr), k);
  }

  lemma {:induction false} IpiRecord(st: State, server: nat, k: nat)
    requires server < |st.ss| && Recorded(st, k)
    ensures Recorded(CheckIpi(st, server), k)
  {
  }

  /** Nothing but unmasking takes the record off. */
  lemma {:induction false} RecordStays(st: State, op: Op, k: nat)
    requires WellFormed(st) && Enabled(st, op) && Recorded(st, k)
    requires op.SetXive? && op.i == k ==> op.priority == MASKED
    ensures Recorded(Do(st, op), k)
  {
    hide IcpIrq, IcpResend, CheckIpi, SetCppr, WellFormed;
    match op
    case Raise(i) =>
      if st.irqs[i].priority != MASKED {
        Servers(st, i);
        IrqRecord(st, st.irqs[i].server, i + OFFSET, st.irqs[i].priority, k);
      }
    case SetXive(i, server, priority) =>
      if st.irqs[i].maskedPending && priority != MASKED {
        var irq := st.irqs[i].(server := server, priority := priority, maskedPending := false);
        IrqRecord(st.(irqs := st.irqs[i := irq]), server, i + OFFSET, priority, k);
      }
    case HCppr(server, cppr) => CpprRecord(st, server, cppr, k);
    case HIpi(server, mfrr) => IpiRecord(st.(ss := st.ss[server := st.ss[server].(mfrr := mfrr)]), server, k);
    case HXirr(server) =>
    case HEoi(server, xirr) =>
      Widths(st, server);
      ResendRecord(st, server, st.ss[server].(cppr := xirr / 0x100_0000), k);
  }

  lemma {:induction false} Servers(st: State, i: nat)
    requires WellFormed(st) && i < |st.irqs|
    ensures st.irqs[i].server < |st.ss|
  {
  }

  lemma {:induction false} Widths(st: State, server: nat)
    requires WellFormed(st) && server < |st.ss|
    ensures st.ss[server].cppr < 256 && st.ss[server].pending < 256 && st.ss[server].mfrr < 256
  {
  }

  lemma {:induction false} ResendRecord(st: State, server: nat, s: Server, k: nat)
    requires WellFormed(st) && server < |st.ss| && k < |st.irqs|
    requires s.cppr < 256 && s.pending < 256 && s.mfrr < 256 && s.xisr == st.ss[server].xisr
             && s.line == st.ss[server].line
    ensures var st1 := st.(ss := st.ss[server := s]);
            && WellFormed(st1) && |IcpResend(st1, server).irqs| == |st.irqs|
            && IcpResend(st1, server).irqs[k].maskedPending == st.irqs[k].maskedPending
            && IcpResend(st1, server).irqs[k].priority == st.irqs[k].priority
  {
    hide ResendFrom, Lines, Beats, AsConfigured;
    var st1 := st.(ss := st.ss[server := s]);
    SetServer(st, server, s);
    var st2 := if s.mfrr < s.cppr then CheckIpi(st1, server) else st1;
    if s.mfrr < s.cppr {
      CheckIpiKeeps(st1, server);
      IpiMaskedStays(st1, server, k);
    }
    NeverMasked(st2, 0, k);
    ResendKeeps(st2, 0);
  }

  /** Unmasking k raises it. */
  lemma {:induction false} UnmaskPending(st: State, server: nat, priority: nat, k: nat)
    requires WellFormed(st) && k < |st.irqs| && server < |st.ss| && priority < 256 && priority != MASKED
    requires st.irqs[k].maskedPending
    ensures var st' := WriteXive(st, k, server, priority); Pending(st', k) && st'.irqs[k].priority == priority
  {
    hide IcpIrq, Lines, Beats, AsConfigured, Presented;
    var irq := st.irqs[k].(server := server, priority := priority, maskedPending := false);
    var st1 := st.(irqs := st.irqs[k := irq]);
    WriteKeeps(st, k, irq);
    IcpIrqRaises(st1, server, k + OFFSET, priority);
    IcpIrqKeeps(st1, server, k + OFFSET, priority);
  }

  lemma {:induction false} DoKept(st: State, op: Op, k: nat)
    requires WellFormed(st) && Enabled(st, op) && Kept(st, k) && Pending(st, k) && !Do(st, op).fault
             && Allowed(st, op, k)
    ensures Pending(Do(st, op), k) && Kept(Do(st, op), k)
  {
    if MaskSafe(st, k) {
      DoPending(st, op, k);
    } else if op.SetXive? && op.i == k && op.priority != MASKED {
      UnmaskPending(st, op.server, op.priority, k);
    } else {
      RecordStays(st, op, k);
    }
  }

  lemma {:induction false} RunKept(st: State, ops: seq<Op>, k: nat)
    requires WellFormed(st) && Runs(st, ops) && AllowedRun(st, ops, k) && Kept(st, k)
    requires Pending(st, k) && !Run(st, ops).fault
    ensures Pending(Run(st, ops), k)
    decreases |ops|
  {
    if ops != [] {
      DoKeeps(st, ops[0]);
      DoKept(st, ops[0], k);
      RunKept(Do(st, ops[0]), ops[1..], k);
    }
  }

  // ------- the other direction: how the interrupt is lost

  /** ops is a run without a fault, allowed for k, from st to st'. */
  ghost predicate Leads(st: State, ops: seq<Op>, st': State, k: nat) {
    && WellFormed(st) && Runs(st, ops) && AllowedRun(st, ops, k) && Run(st, ops) == st' && WellFormed(st')
    && !st.fault && !st'.fault
  }

  lemma {:induction false} LeadsOne(st: State, op: Op, k: nat)
    requires WellFormed(st) && Enabled(st, op) && Allowed(st, op, k) && !Do(st, op).fault
    ensures Leads(st, [op], Do(st, op), k)
  {
    DoKeeps(st, op);
    assert [op][1..] == [];
  }

  lemma {:induction false} LeadsOn(st: State, a: seq<Op>, st1: State, b: seq<Op>, st2: State, k: nat)
    requires Leads(st, a, st1, k) && Leads(st1, b, st2, k)
    ensures Leads(st, a + b, st2, k)
    decreases |a|
  {
    hide Do, WellFormed, Enabled, Allowed;
    if a == [] {
      assert a + b == b;
    } else {
      DoKeeps(st, a[0]);
      var mid := Do(st, a[0]);
      RunFault(mid, a[1..]);
      LeadsOn(mid, a[1..], st1, b, st2, k);
      assert (a + b)[1..] == a[1..] + b;
    }
  }

  lemma {:induction false} RunFault(st: State, ops: seq<Op>)
    requires WellFormed(st) && Runs(st, ops)
    ensures st.fault ==> Run(st, ops).fault
  {
  }

  ghost predicate MaskedBelow(st: State, n: nat) {
    n <= |st.irqs| && forall i | 0 <= i < n :: st.irqs[i].priority == MASKED
  }

  /** What the construction keeps of k: masked and not recorded. */
  ghost predicate Exposed(st: State, k: nat) {
    k < |st.irqs| && st.irqs[k].priority == MASKED && !st.irqs[k].maskedPending
  }

  /** All sources are masked, one after the other. */
  lemma {:induction false} MaskAll(st: State, k: nat, n: nat) returns (ops: seq<Op>, st': State)
    requires WellFormed(st) && !st.fault && Exposed(st, k) && n <= |st.irqs|
    ensures Leads(st, ops, st', k) && st'.ss == st.ss && |st'.irqs| == |st.irqs| && Exposed(st', k)
            && MaskedBelow(st', n)
  {
    if n == 0 {
      ops, st' := [], st;
    } else {
      ops, st' := MaskAll(st, k, n - 1);
      var i := n - 1;
      if i != k {
        var op := SetXive(i, 0, MASKED);
        assert 0 < |st'.ss| by {
          assert st'.irqs[i].server < |st'.ss|;
        }
        var next := Do(st', op);
        LeadsOne(st', op, k);
        LeadsOn(st, ops, st', [op], next, k);
        ops, st' := ops + [op], next;
      }
    }
  }

  /** A server takes k back: its CPPR is raised to the top and lowered to 0. */
  lemma {:induction false} TakeBack(st: State, k: nat, q: nat) returns (st': State)
    requires WellFormed(st) && !st.fault && Exposed(st, k) && MaskedBelow(st, |st.irqs|)
    requires q < |st.ss| && st.ss[q].xisr == k + OFFSET
    ensures Leads(st, [HCppr(q, 255)] + [HCppr(q, 0)], st', k)
    ensures |st'.ss| == |st.ss| && st'.ss[q].xisr == 0 && (forall p | 0 <= p < |st.ss| && p != q ::
            st'.ss[p] == st.ss[p])
    ensures |st'.irqs| == |st.irqs| && Exposed(st', k) && MaskedBelow(st', |st'.irqs|)
  {
    var st1 := Do(st, HCppr(q, 255));
    assert st1 == st.(ss := st.ss[q := st.ss[q].(cppr := 255)]);
    LeadsOne(st, HCppr(q, 255), k);
    st' := Do(st1, HCppr(q, 0));
    LeadsOne(st1, HCppr(q, 0), k);
    LeadsOn(st, [HCppr(q, 255)], st1, [HCppr(q, 0)], st', k);
  }

  /** No server presents k any more. */
  lemma {:induction false} TakeBackAll(st: State, k: nat, n: nat) returns (ops: seq<Op>, st': State)
    requires WellFormed(st) && !st.fault && Exposed(st, k) && MaskedBelow(st, |st.irqs|) && n <= |st.ss|
    ensures Leads(st, ops, st', k) && |st'.ss| == |st.ss| && |st'.irqs| == |st.irqs|
    ensures Exposed(st', k) && MaskedBelow(st', |st'.irqs|) && forall q | 0 <= q < n :: st'.ss[q].xisr != k + OFFSET
  {
    if n == 0 {
      ops, st' := [], st;
    } else {
      ops, st' := TakeBackAll(st, k, n - 1);
      if st'.ss[n - 1].xisr == k + OFFSET {
        var next := TakeBack(st', k, n - 1);
        LeadsOn(st, ops, st', [HCppr(n - 1, 255)] + [HCppr(n - 1, 0)], next, k);
        ops, st' := ops + ([HCppr(n - 1, 255)] + [HCppr(n - 1, 0)]), next;
      }
    }
  }

  /** A pass over masked sources presents nothing. */
  lemma {:induction false} MaskedPass(st: State, i: nat)
    requires WellFormed(st) && i <= |st.irqs| && MaskedBelow(st, |st.irqs|)
    ensures ResendFrom(st, i).ss == st.ss && ResendFrom(st, i).fault == st.fault
    decreases |st.irqs| - i
  {
    if i < |st.irqs| {
      ResendOneShape(st, i);
      assert ResendOne(st, i).ss == st.ss;
      MaskedPass(ResendOne(st, i), i + 1);
    }
  }

  /** The server of k accepts what it presents and ends it with CPPR 0: the pass that follows drops k. */
  lemma {:induction false} Dropped(st: State, k: nat) returns (ops: seq<Op>, st': State)
    requires WellFormed(st) && !st.fault && Exposed(st, k) && MaskedBelow(st, |st.irqs|) && !Presented(st, k)
    ensures Leads(st, ops, st', k) && !Pending(st', k)
  {
    var q := st.irqs[k].server;
    var st1 := Do(st, HXirr(q));
    assert !Presented(st1, k);
    LeadsOne(st, HXirr(q), k);
    var st2 := st1.(ss := st1.ss[q := st1.ss[q].(cppr := 0)]);
    assert forall p | 0 <= p < |st2.ss| :: st2.ss[p].xisr == st1.ss[p].xisr;
    SetServer(st1, q, st1.ss[q].(cppr := 0));
    st' := Do(st1, HEoi(q, 0));
    assert st' == IcpResend(st2, q) == ResendFrom(st2, 0);
    MaskedPass(st2, 0);
    LeadsOne(st1, HEoi(q, 0), k);
    LeadsOn(st, [HXirr(q)], st1, [HEoi(q, 0)], st', k);
    ops := [HXirr(q)] + [HEoi(q, 0)];
    if st2.irqs[k].rejected {
      MaskedRejectIsLost(st2, 0, k);
    } else {
      ResendQuiet(st2, 0, k);
      NeverMasked(st2, 0, k);
    }
  }

  /** From a state in which k is masked while presented or rejected, and not recorded, it can be lost. */
  lemma {:induction false} Losable(st: State, k: nat) returns (ops: seq<Op>)
    requires WellFormed(st) && !st.fault && k < |st.irqs| && !Kept(st, k)
    ensures Runs(st, ops) && AllowedRun(st, ops, k) && !Run(st, ops).fault && !Pending(Run(st, ops), k)
  {
    var a, st1 := MaskAll(st, k, |st.irqs|);
    var b, st2 := TakeBackAll(st1, k, |st1.ss|);
    var c, st3 := Dropped(st2, k);
    LeadsOn(st, a, st1, b, st2, k);
    LeadsOn(st, a + b, st2, c, st3, k);
    ops := a + b + c;
  }

  /** Every run without a fault that neither accepts a pending source k nor masks it while it is presented or
      rejected keeps k pending, if and only if k is not already masked while presented or rejected without being
      recorded as masked-pending. */
  lemma {:induction false} ConservationExact(st: State, k: nat)
    requires WellFormed(st) && !st.fault && Pending(st, k)
    ensures (forall ops: seq<Op> | Runs(st, ops) && AllowedRun(st, ops, k) && !Run(st, ops).fault ::
            Pending(Run(st, ops), k))
            <==> (st.irqs[k].priority == MASKED ==> Quiet(st, k) || st.irqs[k].maskedPending)
  {
    if Kept(st, k) {
      forall ops: seq<Op> | Runs(st, ops) && AllowedRun(st, ops, k) && !Run(st, ops).fault
        ensures Pending(Run(st, ops), k)
      {
        RunKept(st, ops, k);
      }
    } else {
      var ops := Losable(st, k);
    }
  }

  /** Masking a source that is presented or rejected, and not recorded, makes it losable: the guard on runs that
      Allowed puts on SetXive is needed for every such source. */
  lemma {:induction false} MaskingExposes(st: State, k: nat, server: nat) returns (ops: seq<Op>)
    requires WellFormed(st) && !st.fault && k < |st.irqs| && server < |st.ss|
    requires !Quiet(st, k) && !st.irqs[k].maskedPending
    ensures var st' := Do(st, SetXive(k, server, MASKED));
            && WellFormed(st') && Pending(st', k)
            && Runs(st', ops) && AllowedRun(st', ops, k) && !Run(st', ops).fault && !Pending(Run(st', ops), k)
  {
    var st' := Do(st, SetXive(k, server, MASKED));
    DoKeeps(st, SetXive(k, server, MASKED));
    assert st'.ss == st.ss;
    assert Presented(st', k) == Presented(st, k);
    ops := Losable(st', k);
  }
}
