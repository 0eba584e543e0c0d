/** The PAPR interrupt controller of powerpc/xics.c: a presentation layer (one ICP per server) on top
    of a source layer (ICS).  The state is a value here; the module XicsDevice updates it in place. */
module Xics {

  /** XICS_IPI, XICS_IRQ_OFFSET and the priority that masks a source. */
  const IPI: nat := 2
  const OFFSET: nat := 16
  const MASKED: nat := 0xff

  /** struct icp_server_state.  xirr is kept as its two parts; line is the level of the CPU's
      external interrupt line. */
  datatype Server = Server(xisr: nat, cppr: nat, pending: nat, mfrr: nat, line: bool)

  /** struct ics_irq_state */
  datatype Source = Source(server: nat, priority: nat, rejected: bool, maskedPending: bool)

  /** fault records that ics_reject was given a number that is not a source: the C code then writes
      outside the irqs array. */
  datatype State = State(ss: seq<Server>, irqs: seq<Source>, fault: bool)

  predicate SourceNr(st: State, nr: int) { OFFSET <= nr < OFFSET + |st.irqs| }

  predicate WellFormed(st: State) {
    && (forall s | 0 <= s < |st.ss| ::
          && (st.ss[s].xisr == 0 || st.ss[s].xisr == IPI || SourceNr(st, st.ss[s].xisr))
          && st.ss[s].cppr < 256 && st.ss[s].pending < 256 && st.ss[s].mfrr < 256)
    && (forall i | 0 <= i < |st.irqs| :: st.irqs[i].server < |st.ss| && st.irqs[i].priority < 256)
  }

  // ---------------------------------------------------------------- the functions of xics.c

  /** ics_reject_msi */
  function Reject(st: State, nr: int): State {
    if SourceNr(st, nr) then st.(irqs := st.irqs[nr - OFFSET := st.irqs[nr - OFFSET].(rejected := true)])
    else st.(fault := true)
  }

  /** Give xisr to the server with the given priority and raise its line. */
  function Present(st: State, server: nat, xisr: nat, priority: nat): State
    requires server < |st.ss|
  {
    st.(ss := st.ss[server := st.ss[server].(xisr := xisr, pending := priority, line := true)])
  }

  /** icp_check_ipi */
  function CheckIpi(st: State, server: nat): State
    requires server < |st.ss|
  {
    var s := st.ss[server];
    if s.xisr != 0 && s.pending <= s.mfrr then st
    else
      var st1 := if s.xisr != 0 then Reject(st, s.xisr) else st;
      Present(st1, server, IPI, s.mfrr)
  }

  /** icp_irq */
  function IcpIrq(st: State, server: nat, nr: nat, priority: nat): State
    requires server < |st.ss|
  {
    var s := st.ss[server];
    if priority >= s.cppr || (s.xisr != 0 && s.pending <= priority) then Reject(st, nr)
    else
      var st1 := if s.xisr != 0 then Reject(st, s.xisr) else st;
      Present(st1, server, nr, priority)
  }

  /** The body of the loop of ics_resend_msi. */
  function ResendOne(st: State, i: nat): State
    requires i < |st.irqs| && st.irqs[i].server < |st.ss|
  {
    var irq := st.irqs[i];
    if !irq.rejected then st
    else
      var st1 := st.(irqs := st.irqs[i := irq.(rejected := false)]);
      if irq.priority == MASKED then st1 else IcpIrq(st1, irq.server, i + OFFSET, irq.priority)
  }

  /** ics_resend_msi, after the sources before i have been looked at. */
  function ResendFrom(st: State, i: nat): State
    requires WellFormed(st) && i <= |st.irqs|
    decreases |st.irqs| - i
  {
    if i == |st.irqs| then st
    else
      ResendOneShape(st, i);
      ResendFrom(ResendOne(st, i), i + 1)
  }

  /** icp_resend */
  function IcpResend(st: State, server: nat): State
    requires WellFormed(st) && server < |st.ss|
  {
    var st1 := if st.ss[server].mfrr < st.ss[server].cppr then CheckIpi(st, server) else st;
    CheckIpiShape(st, server);
    ResendFrom(st1, 0)
  }

  /** icp_set_cppr, the body of H_CPPR */
  function SetCppr(st: State, server: nat, cppr: nat): State
    requires WellFormed(st) && server < |st.ss| && cppr < 256
  {
    var s := st.ss[server];
    var st1 := st.(ss := st.ss[server := s.(cppr := cppr)]);
    if cppr < s.cppr then
      if s.xisr != 0 && cppr <= s.pending then
        Reject(st1.(ss := st1.ss[server := s.(cppr := cppr, xisr := 0, line := false)]), s.xisr)
      else st1
    else if s.xisr == 0 then IcpResend(st1, server)
    else st1
  }

  /** icp_set_mfrr, the body of H_IPI */
  function SetMfrr(st: State, server: nat, mfrr: nat): State
    requires server < |st.ss|
  {
    var st1 := st.(ss := st.ss[server := st.ss[server].(mfrr := mfrr)]);
    if mfrr < st.ss[server].cppr then CheckIpi(st1, server) else st1
  }

  /** icp_accept, the body of H_XIRR; the value it returns is Xirr of the server before. */
  function Accept(st: State, server: nat): State
    requires server < |st.ss|
  {
    var s := st.ss[server];
    st.(ss := st.ss[server := s.(xisr := 0, cppr := s.pending, line := false)])
  }

  /** The packed XIRR register. */
  function Xirr(s: Server): nat { s.cppr * 0x100_0000 + s.xisr }

  /** icp_eoi, the body of H_EOI */
  function Eoi(st: State, server: nat, xirr: nat): State
    requires WellFormed(st) && server < |st.ss| && xirr < 0x1_0000_0000
  {
    var s := st.ss[server];
    var st1 := st.(ss := st.ss[server := s.(cppr := xirr / 0x100_0000)]);
    if s.xisr == 0 then IcpResend(st1, server) else st1
  }

  /** ics_set_irq_msi with a non-zero level */
  function RaiseIrq(st: State, i: nat): State
    requires WellFormed(st) && i < |st.irqs|
  {
    var irq := st.irqs[i];
    if irq.priority == MASKED then st.(irqs := st.irqs[i := irq.(maskedPending := true)])
    else IcpIrq(st, irq.server, i + OFFSET, irq.priority)
  }

  /** ics_write_xive_msi */
  function WriteXive(st: State, i: nat, server: nat, priority: nat): State
    requires i < |st.irqs| && server < |st.ss|
  {
    var irq := st.irqs[i].(server := server, priority := priority);
    if !irq.maskedPending || priority == MASKED then st.(irqs := st.irqs[i := irq])
    else IcpIrq(st.(irqs := st.irqs[i := irq.(maskedPending := false)]), server, i + OFFSET, priority)
  }

  lemma {:induction false} CheckIpiShape(st: State, server: nat)
    requires WellFormed(st) && server < |st.ss|
    ensures WellFormed(CheckIpi(st, server))
    ensures |CheckIpi(st, server).ss| == |st.ss| && |CheckIpi(st, server).irqs| == |st.irqs|
  {
  }

  lemma {:induction false} IcpIrqShape(st: State, server: nat, nr: nat, priority: nat)
    requires WellFormed(st) && server < |st.ss| && SourceNr(st, nr) && priority < 256
    ensures WellFormed(IcpIrq(st, server, nr, priority))
    ensures |IcpIrq(st, server, nr, priority).ss| == |st.ss| && |IcpIrq(st, server, nr, priority).irqs| == |st.irqs|
  {
  }

  lemma {:induction false} ResendOneShape(st: State, i: nat)
    requires WellFormed(st) && i < |st.irqs|
    ensures WellFormed(ResendOne(st, i))
    ensures |ResendOne(st, i).ss| == |st.ss| && |ResendOne(st, i).irqs| == |st.irqs|
  {
    var irq := st.irqs[i];
    if irq.rejected && irq.priority != MASKED {
      IcpIrqShape(st.(irqs := st.irqs[i := irq.(rejected := false)]), irq.server, i + OFFSET, irq.priority);
    }
  }

  // ---------------------------------------------------------------- invariants

  /** The external line of every server is high exactly when its XISR is non-zero. */
  predicate Lines(st: State) {
    forall s | 0 <= s < |st.ss| :: st.ss[s].line <==> st.ss[s].xisr != 0
  }

  /** What a server presents is more favoured than its CPPR. */
  predicate Beats(st: State) {
    forall s | 0 <= s < |st.ss| && st.ss[s].xisr != 0 :: st.ss[s].pending < st.ss[s].cppr
  }

  /** A presented source is presented where and as it is configured. */
  predicate AsConfigured(st: State) {
    forall s | 0 <= s < |st.ss| && SourceNr(st, st.ss[s].xisr) ::
      st.irqs[st.ss[s].xisr - OFFSET].server == s && st.irqs[st.ss[s].xisr - OFFSET].priority == st.ss[s].pending
  }

  /** Source i is presented by some server. */
  ghost predicate Presented(st: State, i: int) {
    exists s :: 0 <= s < |st.ss| && st.ss[s].xisr == i + OFFSET
  }

  /** A raised interrupt that no server has accepted yet. */
  ghost predicate Pending(st: State, i: int) {
    0 <= i < |st.irqs| && (Presented(st, i) || st.irqs[i].rejected || st.irqs[i].maskedPending)
  }

  /** st' has the same servers and sources as st, configured alike, and faults if st does. */
  ghost predicate Same(st: State, st': State) {
    && |st'.ss| == |st.ss| && |st'.irqs| == |st.irqs| && (st.fault ==> st'.fault)
    && (forall i | 0 <= i < |st.irqs| ::
          st'.irqs[i].server == st.irqs[i].server && st'.irqs[i].priority == st.irqs[i].priority)
    && (forall s | 0 <= s < |st.ss| :: st'.ss[s].cppr == st.ss[s].cppr && st'.ss[s].mfrr == st.ss[s].mfrr)
  }

  /** The invariants that a step must keep. */
  ghost predicate Keeps(st: State, st': State) {
    && WellFormed(st')
    && (Lines(st) ==> Lines(st')) && (Beats(st) ==> Beats(st')) && (AsConfigured(st) ==> AsConfigured(st'))
  }

  lemma {:induction false} SameTransitive(a: State, b: State, c: State)
    requires Same(a, b) && Same(b, c)
    ensures Same(a, c)
  {
  }

  lemma {:induction false} RejectKeeps(st: State, nr: int)
    requires WellFormed(st)
    ensures Same(st, Reject(st, nr)) && Keeps(st, Reject(st, nr)) && Reject(st, nr).ss == st.ss
  {
  }

  lemma {:induction false} PresentKeeps(st: State, server: nat, xisr: nat, priority: nat)
    requires WellFormed(st) && server < |st.ss| && priority < st.ss[server].cppr
    requires xisr == IPI || (SourceNr(st, xisr) && st.irqs[xisr - OFFSET].server == server
             && st.irqs[xisr - OFFSET].priority == priority)
    ensures Same(st, Present(st, server, xisr, priority)) && Keeps(st, Present(st, server, xisr, priority))
  {
  }

  lemma {:induction false} IcpIrqKeeps(st: State, server: nat, nr: nat, priority: nat)
    requires WellFormed(st) && server < |st.ss| && SourceNr(st, nr)
    requires st.irqs[nr - OFFSET].server == server && st.irqs[nr - OFFSET].priority == priority
    ensures Same(st, IcpIrq(st, server, nr, priority)) && Keeps(st, IcpIrq(st, server, nr, priority))
  {
    var s := st.ss[server];
    RejectKeeps(st, nr);
    if priority < s.cppr && (s.xisr == 0 || priority < s.pending) {
      var st1 := if s.xisr != 0 then Reject(st, s.xisr) else st;
      RejectKeeps(st, s.xisr);
      PresentKeeps(st1, server, nr, priority);
      hide WellFormed, Lines, Beats, AsConfigured, Present, Reject;
      SameTransitive(st, st1, Present(st1, server, nr, priority));
    }
  }

  lemma {:induction false} RejectPending(st: State, nr: int, i: int)
    requires Pending(st, i)
    ensures Pending(Reject(st, nr), i)
    ensures SourceNr(st, nr) ==> Pending(Reject(st, nr), nr - OFFSET)
  {
    if Presented(st, i) {
      var s :| 0 <= s < |st.ss| && st.ss[s].xisr == i + OFFSET;
      assert Reject(st, nr).ss[s].xisr == i + OFFSET;
    }
  }

  /** Presenting loses only what the server presented before; that must have been rejected first. */
  lemma {:induction false} PresentPending(st: State, server: nat, xisr: nat, priority: nat, i: int)
    requires server < |st.ss| && Pending(st, i)
    requires st.ss[server].xisr == i + OFFSET ==> st.irqs[i].rejected
    ensures Pending(Present(st, server, xisr, priority), i)
  {
    var st' := Present(st, server, xisr, priority);
    if Presented(st, i) && !st.irqs[i].rejected {
      var s :| 0 <= s < |st.ss| && st.ss[s].xisr == i + OFFSET;
      assert st'.ss[s].xisr == i + OFFSET;
    }
  }

  lemma {:induction false} IcpIrqPending(st: State, server: nat, nr: nat, priority: nat, i: int)
    requires WellFormed(st) && server < |st.ss| && SourceNr(st, nr)
    requires Pending(st, i) && !IcpIrq(st, server, nr, priority).fault
    ensures Pending(IcpIrq(st, server, nr, priority), i)
  {
    hide Pending, WellFormed;
    var s := st.ss[server];
    RejectPending(st, nr, i);
    if priority < s.cppr && (s.xisr == 0 || priority < s.pending) {
      RejectPending(st, s.xisr, i);
      var st1 := if s.xisr != 0 then Reject(st, s.xisr) else st;
      PresentPending(st1, server, nr, priority, i);
    }
  }

  /** Whatever happens, the source itself is pending afterwards. */
  lemma {:induction false} IcpIrqRaises(st: State, server: nat, nr: nat, priority: nat)
    requires WellFormed(st) && server < |st.ss| && SourceNr(st, nr)
    ensures Pending(IcpIrq(st, server, nr, priority), nr - OFFSET)
  {
    var st' := IcpIrq(st, server, nr, priority);
    var s := st.ss[server];
    if priority < s.cppr && (s.xisr == 0 || priority < s.pending) {
      assert st'.ss[server].xisr == (nr - OFFSET) + OFFSET;
    }
  }

  lemma {:induction false} CheckIpiKeeps(st: State, server: nat)
    requires WellFormed(st) && server < |st.ss| && st.ss[server].mfrr < st.ss[server].cppr
    ensures Same(st, CheckIpi(st, server)) && Keeps(st, CheckIpi(st, server))
  {
    var s := st.ss[server];
    if !(s.xisr != 0 && s.pending <= s.mfrr) {
      var st1 := if s.xisr != 0 then Reject(st, s.xisr) else st;
      RejectKeeps(st, s.xisr);
      PresentKeeps(st1, server, IPI, s.mfrr);
      hide WellFormed, Lines, Beats, AsConfigured, Present, Reject;
      SameTransitive(st, st1, Present(st1, server, IPI, s.mfrr));
    }
  }

  lemma {:induction false} CheckIpiPending(st: State, server: nat, i: int)
    requires WellFormed(st) && server < |st.ss| && Pending(st, i) && !CheckIpi(st, server).fault
    ensures Pending(CheckIpi(st, server), i)
  {
    hide Pending, WellFormed;
    var s := st.ss[server];
    if !(s.xisr != 0 && s.pending <= s.mfrr) {
      RejectPending(st, s.xisr, i);
      PresentPending(if s.xisr != 0 then Reject(st, s.xisr) else st, server, IPI, s.mfrr, i);
    }
  }

  // ---------------------------------------------------------------- the resend pass

  /** Source i is not more favoured than its server's CPPR, or no more favoured than what the server
      presents. */
  predicate NotBetter(st: State, i: nat)
    requires WellFormed(st) && i < |st.irqs|
  {
    var irq := st.irqs[i];
    var s := st.ss[irq.server];
    irq.priority >= s.cppr || (s.xisr != 0 && s.pending <= irq.priority)
  }

  lemma {:induction false} ClearKeeps(st: State, i: nat)
    requires WellFormed(st) && i < |st.irqs|
    ensures var st1 := st.(irqs := st.irqs[i := st.irqs[i].(rejected := false)]); Same(st, st1) && Keeps(st, st1)
  {
  }

  lemma {:induction false} ResendOneKeeps(st: State, i: nat)
    requires WellFormed(st) && i < |st.irqs|
    ensures Same(st, ResendOne(st, i)) && Keeps(st, ResendOne(st, i))
  {
    var irq := st.irqs[i];
    var st1 := st.(irqs := st.irqs[i := irq.(rejected := false)]);
    ClearKeeps(st, i);
    if irq.rejected && irq.priority != MASKED {
      IcpIrqKeeps(st1, irq.server, i + OFFSET, irq.priority);
      hide WellFormed, Lines, Beats, AsConfigured, IcpIrq;
      SameTransitive(st, st1, IcpIrq(st1, irq.server, i + OFFSET, irq.priority));
    }
  }

  lemma {:induction false} ResendOnePending(st: State, i: nat, k: int)
    requires WellFormed(st) && i < |st.irqs| && Pending(st, k) && !ResendOne(st, i).fault
    requires k == i ==> !(st.irqs[i].rejected && st.irqs[i].priority == MASKED)
    ensures Pending(ResendOne(st, i), k)
  {
    var irq := st.irqs[i];
    var st1 := st.(irqs := st.irqs[i := irq.(rejected := false)]);
    if irq.rejected {
      ClearPending(st, i, k);
      if irq.priority != MASKED {
        if k == i {
          IcpIrqRaises(st1, irq.server, i + OFFSET, irq.priority);
        } else {
          IcpIrqPending(st1, irq.server, i + OFFSET, irq.priority, k);
        }
      }
    }
  }

  lemma {:induction false} ClearPending(st: State, i: nat, k: int)
    requires i < |st.irqs| && Pending(st, k)
    ensures k != i ==> Pending(st.(irqs := st.irqs[i := st.irqs[i].(rejected := false)]), k)
  {
    if Presented(st, k) {
      var s :| 0 <= s < |st.ss| && st.ss[s].xisr == k + OFFSET;
      assert st.(irqs := st.irqs[i := st.irqs[i].(rejected := false)]).ss[s].xisr == k + OFFSET;
    }
  }

  /** A whole pass keeps the invariants, and loses a pending source only if that is rejected and masked
      when the pass reaches it. */
  lemma {:induction false} ResendKeeps(st: State, i: nat)
    requires WellFormed(st) && i <= |st.irqs|
    ensures Same(st, ResendFrom(st, i)) && Keeps(st, ResendFrom(st, i))
    decreases |st.irqs| - i
  {
    if i < |st.irqs| {
      ResendOneKeeps(st, i);
      ResendKeeps(ResendOne(st, i), i + 1);
      hide WellFormed, Lines, Beats, AsConfigured, ResendOne;
      SameTransitive(st, ResendOne(st, i), ResendFrom(st, i));
    }
  }

  lemma {:induction false} MaskedStays(st: State, i: nat, k: int)
    requires WellFormed(st) && i < |st.irqs| && 0 <= k < |st.irqs|
    ensures |ResendOne(st, i).irqs| == |st.irqs| && ResendOne(st, i).irqs[k].maskedPending == st.irqs[k].maskedPending
  {
  }

  lemma {:induction false} ResendPending(st: State, i: nat, k: int)
    requires WellFormed(st) && i <= |st.irqs| && Pending(st, k) && !ResendFrom(st, i).fault
    requires st.irqs[k].priority != MASKED || st.irqs[k].maskedPending
    ensures Pending(ResendFrom(st, i), k)
    decreases |st.irqs| - i
  {
    hide ResendOne, Presented, Lines, Beats, AsConfigured;
    if i < |st.irqs| {
      var st1 := ResendOne(st, i);
      ResendOneKeeps(st, i);
      ResendKeeps(st1, i + 1);
      MaskedStays(st, i, k);
      if st.irqs[k].priority != MASKED {
        ResendOnePending(st, i, k);
      }
      ResendPending(st1, i + 1, k);
    }
  }

  /** The sources rejected in st are not better than what their servers do. */
  predicate RejectedFairly(st: State, upTo: nat)
    requires WellFormed(st) && upTo <= |st.irqs|
  {
    forall k | 0 <= k < upTo && st.irqs[k].rejected :: NotBetter(st, k)
  }

  lemma {:induction false} IcpIrqFair(st: State, server: nat, nr: nat, priority: nat, k: nat)
    requires WellFormed(st) && AsConfigured(st) && server < |st.ss| && SourceNr(st, nr) && k < |st.irqs|
    requires st.irqs[nr - OFFSET].server == server && st.irqs[nr - OFFSET].priority == priority
    requires st.irqs[k].rejected ==> NotBetter(st, k)
    ensures WellFormed(IcpIrq(st, server, nr, priority)) && k < |IcpIrq(st, server, nr, priority).irqs|
    ensures IcpIrq(st, server, nr, priority).irqs[k].rejected ==> NotBetter(IcpIrq(st, server, nr, priority), k)
  {
    IcpIrqShape(st, server, nr, priority);
  }

  lemma {:induction false} ClearFair(st: State, i: nat)
    requires WellFormed(st) && i < |st.irqs| && RejectedFairly(st, i)
    ensures var st1 := st.(irqs := st.irqs[i := st.irqs[i].(rejected := false)]);
            WellFormed(st1) && RejectedFairly(st1, i + 1)
  {
    var st1 := st.(irqs := st.irqs[i := st.irqs[i].(rejected := false)]);
    ClearKeeps(st, i);
    forall k | 0 <= k < i + 1 && st1.irqs[k].rejected
      ensures NotBetter(st1, k)
    {
      assert NotBetter(st, k);
    }
  }

  lemma {:induction false} ResendOneFair(st: State, i: nat)
    requires WellFormed(st) && AsConfigured(st) && i < |st.irqs| && RejectedFairly(st, i)
    ensures WellFormed(ResendOne(st, i)) && |ResendOne(st, i).irqs| == |st.irqs|
            && RejectedFairly(ResendOne(st, i), i + 1)
  {
    hide IcpIrq, NotBetter, Lines, Beats, AsConfigured;
    ResendOneShape(st, i);
    var irq := st.irqs[i];
    if irq.rejected {
      var st1 := st.(irqs := st.irqs[i := irq.(rejected := false)]);
      ClearKeeps(st, i);
      ClearFair(st, i);
      if irq.priority != MASKED {
        forall k | 0 <= k < i + 1 && ResendOne(st, i).irqs[k].rejected
          ensures NotBetter(ResendOne(st, i), k)
        {
          IcpIrqFair(st1, irq.server, i + OFFSET, irq.priority, k);
        }
      }
    }
  }

  lemma {:induction false} ResendFair(st: State, i: nat)
    requires WellFormed(st) && AsConfigured(st) && i <= |st.irqs| && RejectedFairly(st, i)
    ensures WellFormed(ResendFrom(st, i)) && |ResendFrom(st, i).irqs| == |st.irqs|
            && RejectedFairly(ResendFrom(st, i), |st.irqs|)
    decreases |st.irqs| - i
  {
    if i < |st.irqs| {
      ResendOneFair(st, i);
      ResendOneKeeps(st, i);
      ResendFair(ResendOne(st, i), i + 1);
    }
  }

  /** After a resend pass every source that is still rejected is not more favoured than its server's
      CPPR, or no more favoured than what that server now presents. */
  lemma {:induction false} ResendPassIsFair(st: State)
    requires WellFormed(st) && AsConfigured(st)
    ensures var st' := ResendFrom(st, 0);
      WellFormed(st') && |st'.irqs| == |st.irqs| && forall k | 0 <= k < |st.irqs| && st'.irqs[k].rejected ::
        NotBetter(st', k)
  {
    ResendFair(st, 0);
  }

  // ---------------------------------------------------------------- runs

  /** The ways into the controller: kvm__irq_line, the ibm,set-xive RTAS call and the four hcalls. */
  datatype Op =
    | Raise(i: nat)
    | SetXive(i: nat, server: nat, priority: nat)
    | HCppr(server: nat, cppr: nat)
    | HIpi(server: nat, mfrr: nat)
    | HXirr(server: nat)
    | HEoi(server: nat, xirr: nat)

  /** The arguments are in range: rtas_set_xive and h_ipi return an error otherwise, the other
      servers are VCPU numbers, and register values have the width of the register. */
  predicate Enabled(st: State, op: Op) {
    match op
    case Raise(i) => i < |st.irqs|
    case SetXive(i, server, priority) => i < |st.irqs| && server < |st.ss| && priority < 256
    case HCppr(server, cppr) => server < |st.ss| && cppr < 256
    case HIpi(server, mfrr) => server < |st.ss| && mfrr < 256
    case HXirr(server) => server < |st.ss|
    case HEoi(server, xirr) => server < |st.ss| && xirr < 0x1_0000_0000
  }

  function Do(st: State, op: Op): State
    requires WellFormed(st) && Enabled(st, op)
  {
    match op
    case Raise(i) => RaiseIrq(st, i)
    case SetXive(i, server, priority) => WriteXive(st, i, server, priority)
    case HCppr(server, cppr) => SetCppr(st, server, cppr)
    case HIpi(server, mfrr) => SetMfrr(st, server, mfrr)
    case HXirr(server) => Accept(st, server)
    case HEoi(server, xirr) => Eoi(st, server, xirr)
  }

  lemma {:induction false} IcpResendKeeps(st: State, server: nat)
    requires WellFormed(st) && server < |st.ss|
    ensures Same(st, IcpResend(st, server)) && Keeps(st, IcpResend(st, server))
  {
    var st1 := if st.ss[server].mfrr < st.ss[server].cppr then CheckIpi(st, server) else st;
    if st.ss[server].mfrr < st.ss[server].cppr {
      CheckIpiKeeps(st, server);
    }
    ResendKeeps(st1, 0);
    hide WellFormed, Lines, Beats, AsConfigured, CheckIpi, ResendFrom;
    SameTransitive(st, st1, ResendFrom(st1, 0));
  }

  lemma {:induction false} IcpResendPending(st: State, server: nat, k: int)
    requires WellFormed(st) && server < |st.ss| && Pending(st, k) && !IcpResend(st, server).fault
    requires st.irqs[k].priority != MASKED || st.irqs[k].maskedPending
    ensures Pending(IcpResend(st, server), k)
  {
    var st1 := if st.ss[server].mfrr < st.ss[server].cppr then CheckIpi(st, server) else st;
    if st.ss[server].mfrr < st.ss[server].cppr {
      CheckIpiKeeps(st, server);
      ResendKeeps(st1, 0);
      CheckIpiPending(st, server, k);
      IpiMaskedStays(st, server, k);
    }
    ResendPending(st1, 0, k);
  }

  lemma {:induction false} IpiMaskedStays(st: State, server: nat, k: int)
    requires WellFormed(st) && server < |st.ss| && 0 <= k < |st.irqs|
    ensures |CheckIpi(st, server).irqs| == |st.irqs| && CheckIpi(st, server).irqs[k].maskedPending ==
            st.irqs[k].maskedPending
  {
  }

  lemma {:induction false} SetServer(st: State, server: nat, s': Server)
    requires WellFormed(st) && server < |st.ss| && s'.cppr < 256 && s'.pending < 256 && s'.mfrr < 256
    requires s'.xisr == st.ss[server].xisr && s'.line == st.ss[server].line
    ensures var st1 := st.(ss := st.ss[server := s']);
      && WellFormed(st1) && (Lines(st) ==> Lines(st1))
      && (s'.pending == st.ss[server].pending && AsConfigured(st) ==> AsConfigured(st1))
  {
  }

  /** What every operation keeps. */
  ghost predicate Sound(st: State, st': State) {
    && WellFormed(st') && |st'.ss| == |st.ss| && |st'.irqs| == |st.irqs|
    && (Lines(st) ==> Lines(st')) && (st.fault ==> st'.fault)
  }

  lemma {:induction false} RaiseKeeps(st: State, i: nat)
    requires WellFormed(st) && i < |st.irqs|
    ensures Sound(st, RaiseIrq(st, i)) && (AsConfigured(st) ==> AsConfigured(RaiseIrq(st, i)))
            && (Beats(st) ==> Beats(RaiseIrq(st, i)))
  {
    if st.irqs[i].priority != MASKED {
      IcpIrqKeeps(st, st.irqs[i].server, i + OFFSET, st.irqs[i].priority);
    }
  }

  lemma {:induction false} WriteKeeps(st: State, i: nat, irq: Source)
    requires WellFormed(st) && i < |st.irqs| && irq.server < |st.ss| && irq.priority < 256
    ensures var st1 := st.(irqs := st.irqs[i := irq]);
      && Sound(st, st1) && (Beats(st) ==> Beats(st1))
      && (AsConfigured(st) && !Presented(st, i) ==> AsConfigured(st1))
  {
  }

  lemma {:induction false} WriteXiveKeeps(st: State, i: nat, server: nat, priority: nat)
    requires WellFormed(st) && i < |st.irqs| && server < |st.ss| && priority < 256
    ensures var st' := WriteXive(st, i, server, priority);
      Sound(st, st') && (AsConfigured(st) && !Presented(st, i) ==> AsConfigured(st')) && (Beats(st) ==> Beats(st'))
  {
    hide WellFormed, Lines, Beats, AsConfigured, Presented, IcpIrq;
    var irq := st.irqs[i].(server := server, priority := priority);
    WriteKeeps(st, i, irq);
    if irq.maskedPending && priority != MASKED {
      WriteKeeps(st, i, irq.(maskedPending := false));
      IcpIrqKeeps(st.(irqs := st.irqs[i := irq.(maskedPending := false)]), server, i + OFFSET, priority);
    }
  }

  lemma {:induction false} ClearServer(st: State, server: nat, cppr: nat)
    requires WellFormed(st) && server < |st.ss| && cppr < 256
    ensures var st1 := st.(ss := st.ss[server := st.ss[server].(cppr := cppr, xisr := 0, line := false)]);
      Sound(st, st1) && (AsConfigured(st) ==> AsConfigured(st1)) && (Beats(st) ==> Beats(st1))
  {
  }

  lemma {:induction false} SetCpprKeeps(st: State, server: nat, cppr: nat)
    requires WellFormed(st) && server < |st.ss| && cppr < 256
    ensures var st' := SetCppr(st, server, cppr);
      && Sound(st, st') && (AsConfigured(st) ==> AsConfigured(st')) && (Beats(st) ==> Beats(st'))
      && st'.ss[server].cppr == cppr
      && (forall q | 0 <= q < |st.ss| && q != server :: st'.ss[q].cppr == st.ss[q].cppr)
  {
    var s := st.ss[server];
    var st1 := st.(ss := st.ss[server := s.(cppr := cppr)]);
    SetServer(st, server, s.(cppr := cppr));
    if cppr < s.cppr {
      if s.xisr != 0 && cppr <= s.pending {
        ClearServer(st, server, cppr);
        RejectKeeps(st.(ss := st.ss[server := s.(cppr := cppr, xisr := 0, line := false)]), s.xisr);
        assert st1.ss[server := s.(cppr := cppr, xisr := 0, line := false)] ==
          st.ss[server := s.(cppr := cppr, xisr := 0, line := false)];
      }
    } else {
      assert Beats(st) ==> Beats(st1);
      hide WellFormed, Lines, Beats, AsConfigured, IcpResend;
      IcpResendKeeps(st1, server);
    }
  }

  lemma {:induction false} SetMfrrKeeps(st: State, server: nat, mfrr: nat)
    requires WellFormed(st) && server < |st.ss| && mfrr < 256
    ensures var st' := SetMfrr(st, server, mfrr);
      && Sound(st, st') && (AsConfigured(st) ==> AsConfigured(st')) && (Beats(st) ==> Beats(st'))
      && (forall q | 0 <= q < |st.ss| :: st'.ss[q].cppr == st.ss[q].cppr)
  {
    var st1 := st.(ss := st.ss[server := st.ss[server].(mfrr := mfrr)]);
    SetServer(st, server, st.ss[server].(mfrr := mfrr));
    assert Beats(st) ==> Beats(st1);
    if mfrr < st.ss[server].cppr {
      hide WellFormed, Lines, Beats, AsConfigured, CheckIpi;
      CheckIpiKeeps(st1, server);
    }
  }

  lemma {:induction false} EoiKeeps(st: State, server: nat, xirr: nat)
    requires WellFormed(st) && server < |st.ss| && xirr < 0x1_0000_0000
    ensures var st' := Eoi(st, server, xirr);
      && Sound(st, st') && (AsConfigured(st) ==> AsConfigured(st'))
      && (Beats(st) && xirr / 0x100_0000 >= st.ss[server].cppr ==> Beats(st'))
      && st'.ss[server].cppr == xirr / 0x100_0000
      && (forall q | 0 <= q < |st.ss| && q != server :: st'.ss[q].cppr == st.ss[q].cppr)
  {
    var c := xirr / 0x100_0000;
    var st1 := st.(ss := st.ss[server := st.ss[server].(cppr := c)]);
    SetServer(st, server, st.ss[server].(cppr := c));
    assert Beats(st) && c >= st.ss[server].cppr ==> Beats(st1);
    hide WellFormed, Lines, Beats, AsConfigured, IcpResend;
    IcpResendKeeps(st1, server);
  }

  /** The invariants every operation keeps; only an EOI that lowers the CPPR can break Beats, and
      only reconfiguring a presented source can break AsConfigured. */
  lemma {:induction false} DoKeeps(st: State, op: Op)
    requires WellFormed(st) && Enabled(st, op)
    ensures Sound(st, Do(st, op))
    ensures AsConfigured(st) && !(op.SetXive? && Presented(st, op.i)) ==> AsConfigured(Do(st, op))
    ensures Beats(st) && (op.HEoi? ==> op.xirr / 0x100_0000 >= st.ss[op.server].cppr) ==> Beats(Do(st, op))
  {
    match op
    case Raise(i) => RaiseKeeps(st, i);
    case SetXive(i, server, priority) => WriteXiveKeeps(st, i, server, priority);
    case HCppr(server, cppr) => SetCpprKeeps(st, server, cppr);
    case HIpi(server, mfrr) => SetMfrrKeeps(st, server, mfrr);
    case HXirr(server) => ClearServer(st, server, st.ss[server].pending);
    case HEoi(server, xirr) => EoiKeeps(st, server, xirr);
  }

  // ---------------------------------------------------------------- conservation

  /** Neither presented nor rejected. */
  ghost predicate Quiet(st: State, k: nat) {
    k < |st.irqs| && !st.irqs[k].rejected && !Presented(st, k)
  }

  /** If k is masked, the only way it can be pending is as masked-pending. */
  ghost predicate MaskSafe(st: State, k: nat) {
    k < |st.irqs| && (st.irqs[k].priority == MASKED ==> Quiet(st, k))
  }

  lemma {:induction false} RejectQuiet(st: State, nr: int, k: nat)
    requires Quiet(st, k) && nr != k + OFFSET
    ensures Quiet(Reject(st, nr), k)
  {
    assert Reject(st, nr).ss == st.ss;
  }

  lemma {:induction false} PresentQuiet(st: State, server: nat, xisr: nat, priority: nat, k: nat)
    requires server < |st.ss| && Quiet(st, k) && xisr != k + OFFSET
    ensures Quiet(Present(st, server, xisr, priority), k)
  {
    var st' := Present(st, server, xisr, priority);
    assert forall s | 0 <= s < |st.ss| && s != server :: st'.ss[s] == st.ss[s];
  }

  lemma {:induction false} IcpIrqQuiet(st: State, server: nat, nr: nat, priority: nat, k: nat)
    requires server < |st.ss| && Quiet(st, k) && nr != k + OFFSET
    ensures Quiet(IcpIrq(st, server, nr, priority), k)
  {
    var s := st.ss[server];
    assert s.xisr != k + OFFSET;
    hide Quiet;
    RejectQuiet(st, nr, k);
    RejectQuiet(st, s.xisr, k);
    PresentQuiet(if s.xisr != 0 then Reject(st, s.xisr) else st, server, nr, priority, k);
  }

  lemma {:induction false} CheckIpiQuiet(st: State, server: nat, k: nat)
    requires server < |st.ss| && Quiet(st, k)
    ensures Quiet(CheckIpi(st, server), k)
  {
    var s := st.ss[server];
    assert s.xisr != k + OFFSET;
    hide Quiet;
    RejectQuiet(st, s.xisr, k);
    PresentQuiet(if s.xisr != 0 then Reject(st, s.xisr) else st, server, IPI, s.mfrr, k);
  }

  lemma {:induction false} ResendQuiet(st: State, i: nat, k: nat)
    requires WellFormed(st) && i <= |st.irqs| && Quiet(st, k)
    ensures Quiet(ResendFrom(st, i), k)
    decreases |st.irqs| - i
  {
    if i < |st.irqs| {
      var irq := st.irqs[i];
      var st1 := st.(irqs := st.irqs[i := irq.(rejected := false)]);
      ResendOneShape(st, i);
      if irq.rejected {
        assert Quiet(st1, k) by { assert st1.ss == st.ss; }
        if irq.priority != MASKED {
          IcpIrqQuiet(st1, irq.server, i + OFFSET, irq.priority, k);
        }
      }
      ResendQuiet(ResendOne(st, i), i + 1, k);
    }
  }

  lemma {:induction false} IcpResendQuiet(st: State, server: nat, k: nat)
    requires WellFormed(st) && server < |st.ss| && Quiet(st, k)
    ensures Quiet(IcpResend(st, server), k)
  {
    var st1 := if st.ss[server].mfrr < st.ss[server].cppr then CheckIpi(st, server) else st;
    CheckIpiQuiet(st, server, k);
    CheckIpiShape(st, server);
    ResendQuiet(st1, 0, k);
  }

  /** The cell of a server changed, but not what it presents. */
  lemma {:induction false} ServerPending(st: State, server: nat, s': Server, k: nat)
    requires server < |st.ss| && k < |st.irqs| && s'.xisr == st.ss[server].xisr
    ensures var st1 := st.(ss := st.ss[server := s']);
            (Pending(st1, k) <==> Pending(st, k)) && (Quiet(st1, k) <==> Quiet(st, k))
  {
    var st1 := st.(ss := st.ss[server := s']);
    assert forall q | 0 <= q < |st.ss| :: st1.ss[q].xisr == st.ss[q].xisr;
  }

  /** Clearing what a server presents. */
  lemma {:induction false} UnpresentPending(st: State, server: nat, s': Server, k: nat)
    requires server < |st.ss| && k < |st.irqs| && s'.xisr == 0
    ensures var st1 := st.(ss := st.ss[server := s']);
      && (Pending(st, k) && st.ss[server].xisr != k + OFFSET ==> Pending(st1, k))
      && (Quiet(st, k) ==> Quiet(st1, k))
  {
    var st1 := st.(ss := st.ss[server := s']);
    assert forall q | 0 <= q < |st.ss| && q != server :: st1.ss[q].xisr == st.ss[q].xisr;
    if Presented(st, k) && st.ss[server].xisr != k + OFFSET {
      var q :| 0 <= q < |st.ss| && st.ss[q].xisr == k + OFFSET;
      assert st1.ss[q].xisr == k + OFFSET;
    }
  }

  lemma {:induction false} SourcePending(st: State, i: nat, irq: Source, k: nat)
    requires i < |st.irqs| && k < |st.irqs|
    requires irq.rejected == st.irqs[i].rejected && (irq.maskedPending == st.irqs[i].maskedPending || i != k)
    ensures var st1 := st.(irqs := st.irqs[i := irq]);
            (Pending(st1, k) <==> Pending(st, k)) && (Quiet(st1, k) <==> Quiet(st, k))
  {
    var st1 := st.(irqs := st.irqs[i := irq]);
    assert st1.ss == st.ss;
  }

  lemma {:induction false} RaisePending(st: State, i: nat, k: nat)
    requires WellFormed(st) && i < |st.irqs| && MaskSafe(st, k) && !RaiseIrq(st, i).fault
    ensures Pending(st, k) || i == k ==> Pending(RaiseIrq(st, i), k)
    ensures MaskSafe(RaiseIrq(st, i), k)
  {
    var irq := st.irqs[i];
    if irq.priority == MASKED {
      if i == k {
        assert RaiseIrq(st, i).irqs[k].maskedPending;
        assert Quiet(st, k) ==> Quiet(RaiseIrq(st, i), k) by { assert RaiseIrq(st, i).ss == st.ss; }
      } else {
        SourcePending(st, i, irq.(maskedPending := true), k);
      }
    } else {
      IcpIrqKeeps(st, irq.server, i + OFFSET, irq.priority);
      if i == k {
        IcpIrqRaises(st, irq.server, i + OFFSET, irq.priority);
      } else {
        if Pending(st, k) {
          IcpIrqPending(st, irq.server, i + OFFSET, irq.priority, k);
        }
        if Quiet(st, k) {
          IcpIrqQuiet(st, irq.server, i + OFFSET, irq.priority, k);
        }
      }
    }
  }

  lemma {:induction false} WriteXivePending(st: State, i: nat, server: nat, priority: nat, k: nat)
    requires WellFormed(st) && i < |st.irqs| && server < |st.ss| && priority < 256 && MaskSafe(st, k)
    requires !WriteXive(st, i, server, priority).fault
    requires i == k && priority == MASKED ==> Quiet(st, k)
    ensures Pending(st, k) ==> Pending(WriteXive(st, i, server, priority), k)
    ensures MaskSafe(WriteXive(st, i, server, priority), k)
  {
    hide WellFormed, Lines, Beats, AsConfigured, IcpIrq, Pending, Presented, Quiet;
    var irq := st.irqs[i].(server := server, priority := priority);
    SourcePending(st, i, irq, k);
    WriteKeeps(st, i, irq);
    if irq.maskedPending && priority != MASKED {
      var irq1 := irq.(maskedPending := false);
      var st1 := st.(irqs := st.irqs[i := irq1]);
      WriteKeeps(st, i, irq1);
      IcpIrqKeeps(st1, server, i + OFFSET, priority);
      if i == k {
        IcpIrqRaises(st1, server, i + OFFSET, priority);
      } else {
        SourcePending(st, i, irq1, k);
        if Pending(st1, k) {
          IcpIrqPending(st1, server, i + OFFSET, priority, k);
        }
        if Quiet(st1, k) {
          IcpIrqQuiet(st1, server, i + OFFSET, priority, k);
        }
      }
    }
  }

  /** A resend on behalf of a server whose registers have just changed. */
  lemma {:induction false} ResendAfter(st: State, server: nat, s': Server, k: nat)
    requires WellFormed(st) && server < |st.ss| && k < |st.irqs|
    requires s'.xisr == st.ss[server].xisr && s'.cppr < 256 && s'.pending < 256 && s'.mfrr < 256
    requires WellFormed(st.(ss := st.ss[server := s'])) && MaskSafe(st, k)
    ensures var st1 := st.(ss := st.ss[server := s']); var st' := IcpResend(st1, server);
      !st'.fault ==> (Pending(st, k) ==> Pending(st', k)) && MaskSafe(st', k)
  {
    var st1 := st.(ss := st.ss[server := s']);
    var st' := IcpResend(st1, server);
    ServerPending(st, server, s', k);
    IcpResendKeeps(st1, server);
    if Quiet(st1, k) {
      IcpResendQuiet(st1, server, k);
    }
    if !st'.fault && Pending(st1, k) {
      IcpResendPending(st1, server, k);
    }
  }

  lemma {:induction false} CpprPending(st: State, server: nat, cppr: nat, k: nat)
    requires WellFormed(st) && server < |st.ss| && cppr < 256 && MaskSafe(st, k) && !SetCppr(st, server, cppr).fault
    ensures Pending(st, k) ==> Pending(SetCppr(st, server, cppr), k)
    ensures MaskSafe(SetCppr(st, server, cppr), k)
  {
    var s := st.ss[server];
    SetServer(st, server, s.(cppr := cppr));
    ServerPending(st, server, s.(cppr := cppr), k);
    if cppr < s.cppr {
      if s.xisr != 0 && cppr <= s.pending {
        var s1 := s.(cppr := cppr, xisr := 0, line := false);
        var st1 := st.(ss := st.ss[server := s.(cppr := cppr)]);
        assert st1.ss[server := s1] == st.ss[server := s1];
        DropPending(st, server, s1, k);
      }
    } else {
      ResendAfter(st, server, s.(cppr := cppr), k);
    }
  }

  /** A server drops what it presents, and the source is rejected. */
  lemma {:induction false} DropPending(st: State, server: nat, s1: Server, k: nat)
    requires WellFormed(st) && server < |st.ss| && MaskSafe(st, k) && s1.xisr == 0 && st.ss[server].xisr != 0
    requires !Reject(st.(ss := st.ss[server := s1]), st.ss[server].xisr).fault
    ensures var st' := Reject(st.(ss := st.ss[server := s1]), st.ss[server].xisr);
      (Pending(st, k) ==> Pending(st', k)) && MaskSafe(st', k)
  {
    var st2 := st.(ss := st.ss[server := s1]);
    var nr := st.ss[server].xisr;
    UnpresentPending(st, server, s1, k);
    if nr == k + OFFSET {
      assert Reject(st2, nr).irqs[k].rejected;
      assert Presented(st, k);
    } else {
      if Pending(st, k) {
        RejectPending(st2, nr, k);
      }
      if Quiet(st, k) {
        RejectQuiet(st2, nr, k);
      }
    }
  }

  lemma {:induction false} MfrrPending(st: State, server: nat, mfrr: nat, k: nat)
    requires WellFormed(st) && server < |st.ss| && mfrr < 256 && MaskSafe(st, k) && !SetMfrr(st, server, mfrr).fault
    ensures Pending(st, k) ==> Pending(SetMfrr(st, server, mfrr), k)
    ensures MaskSafe(SetMfrr(st, server, mfrr), k)
  {
    var s' := st.ss[server].(mfrr := mfrr);
    var st1 := st.(ss := st.ss[server := s']);
    SetServer(st, server, s');
    ServerPending(st, server, s', k);
    if mfrr < st.ss[server].cppr {
      CheckIpiKeeps(st1, server);
      if Pending(st1, k) {
        CheckIpiPending(st1, server, k);
      }
      if Quiet(st1, k) {
        CheckIpiQuiet(st1, server, k);
      }
    }
  }

  /** An operation that neither accepts source k nor masks it while it is presented or rejected keeps k
      pending, and raising k makes it pending. */
  lemma {:induction false} DoPending(st: State, op: Op, k: nat)
    requires WellFormed(st) && Enabled(st, op) && MaskSafe(st, k) && !Do(st, op).fault && Allowed(st, op, k)
    ensures Pending(st, k) || op == Raise(k) ==> Pending(Do(st, op), k)
    ensures MaskSafe(Do(st, op), k)
  {
    match op
    case Raise(i) => RaisePending(st, i, k);
    case SetXive(i, server, priority) => WriteXivePending(st, i, server, priority, k);
    case HCppr(server, cppr) => CpprPending(st, server, cppr, k);
    case HIpi(server, mfrr) => MfrrPending(st, server, mfrr, k);
    case HXirr(server) => UnpresentPending(st, server, Accept(st, server).ss[server], k);
    case HEoi(server, xirr) =>
      SetServer(st, server, st.ss[server].(cppr := xirr / 0x100_0000));
      ServerPending(st, server, st.ss[server].(cppr := xirr / 0x100_0000), k);
      ResendAfter(st, server, st.ss[server].(cppr := xirr / 0x100_0000), k);
  }

  /** op neither accepts source k nor masks it while it is presented or rejected. */
  ghost predicate Allowed(st: State, op: Op, k: nat)
    requires Enabled(st, op)
  {
    && (op.HXirr? ==> st.ss[op.server].xisr != k + OFFSET)
    && (op.SetXive? && op.i == k && op.priority == MASKED ==> Quiet(st, k))
  }

  /** The state after a run of operations. */
  ghost function Run(st: State, ops: seq<Op>): (r: State)
    requires WellFormed(st) && Runs(st, ops)
    ensures WellFormed(r) && (st.fault ==> r.fault) && (Lines(st) ==> Lines(r))
    decreases |ops|
  {
    if ops == [] then st
    else
      DoKeeps(st, ops[0]);
      Run(Do(st, ops[0]), ops[1..])
  }

  /** Every operation of the run is enabled when its turn comes. */
  ghost predicate Runs(st: State, ops: seq<Op>)
    requires WellFormed(st)
    decreases |ops|
  {
    ops == [] || (
      Enabled(st, ops[0]) && (DoKeeps(st, ops[0]); Runs(Do(st, ops[0]), ops[1..])))
  }

  /** Every operation of the run is allowed for source k. */
  ghost predicate AllowedRun(st: State, ops: seq<Op>, k: nat)
    requires WellFormed(st) && Runs(st, ops)
    decreases |ops|
  {
    ops == [] || (
      Allowed(st, ops[0], k) && (DoKeeps(st, ops[0]); AllowedRun(Do(st, ops[0]), ops[1..], k)))
  }

  /** Conservation: once raised, a source stays presented, rejected or masked-pending through any
      run in which no server accepts it. */
  lemma {:induction false} Conservation(st: State, ops: seq<Op>, k: nat)
    requires WellFormed(st) && Runs(st, ops) && AllowedRun(st, ops, k) && MaskSafe(st, k)
    requires Pending(st, k) && !Run(st, ops).fault
    ensures Pending(Run(st, ops), k) && MaskSafe(Run(st, ops), k)
    decreases |ops|
  {
    if ops != [] {
      DoKeeps(st, ops[0]);
      DoPending(st, ops[0], k);
      Conservation(Do(st, ops[0]), ops[1..], k);
    }
  }

  /** The state xics_init leaves. */
  function Init(servers: nat, sources: nat): (st: State)
    requires servers > 0
    ensures WellFormed(st) && Lines(st) && Beats(st) && AsConfigured(st) && !st.fault
    ensures forall k: nat | k < sources :: MaskSafe(st, k) && !Pending(st, k)
  {
    State(seq(servers, _ => Server(0, 0, 0, 0xff, false)), seq(sources, _ => Source(0, MASKED, false, false)), false)
  }

  /** In every run from the initial state the external lines follow the XISRs. */
  lemma {:induction false} LinesAlways(servers: nat, sources: nat, ops: seq<Op>)
    requires servers > 0 && Runs(Init(servers, sources), ops)
    ensures Lines(Run(Init(servers, sources), ops))
  {
    assert Lines(Init(servers, sources));
  }

  // ---------------------------------------------------------------- when conservation fails

  /** A source that is rejected while it is masked is dropped by the next resend pass. */
  lemma {:induction false} MaskedRejectIsLost(st: State, i: nat, k: nat)
    requires WellFormed(st) && i <= k < |st.irqs| && !Presented(st, k)
    requires st.irqs[k].priority == MASKED && st.irqs[k].rejected && !st.irqs[k].maskedPending
    ensures !Pending(ResendFrom(st, i), k)
    decreases k - i
  {
    ResendOneKeeps(st, i);
    var st1 := ResendOne(st, i);
    var irq := st.irqs[i];
    MaskedStays(st, i, k);
    if i < k {
      UnpresentedStays(st, i, k);
      MaskedRejectIsLost(st1, i + 1, k);
    } else {
      assert st1.ss == st.ss;
      assert Quiet(st1, k);
      ResendQuiet(st1, i + 1, k);
      NeverMasked(st1, i + 1, k);
      ResendKeeps(st1, i + 1);
    }
  }

  lemma {:induction false} NeverMasked(st: State, i: nat, k: nat)
    requires WellFormed(st) && i <= |st.irqs| && k < |st.irqs|
    ensures |ResendFrom(st, i).irqs| == |st.irqs| && ResendFrom(st, i).irqs[k].maskedPending == st.irqs[k].maskedPending
    decreases |st.irqs| - i
  {
    if i < |st.irqs| {
      MaskedStays(st, i, k);
      ResendOneShape(st, i);
      NeverMasked(ResendOne(st, i), i + 1, k);
    }
  }

  lemma {:induction false} UnpresentedStays(st: State, i: nat, k: nat)
    requires WellFormed(st) && i < k < |st.irqs| && !Presented(st, k) && st.irqs[k].rejected
    ensures |ResendOne(st, i).irqs| == |st.irqs| && !Presented(ResendOne(st, i), k) && ResendOne(st, i).irqs[k].rejected
  {
    ResendOneShape(st, i);
  }

  /** One server and one source, at the four moments of the run below. */
  function LostRun(i: nat): State
    requires i < 4
  {
    if i == 0 then State([Server(16, 255, 5, 0xff, true)], [Source(0, 5, false, false)], false)
    else if i == 1 then State([Server(16, 255, 5, 0xff, true)], [Source(0, MASKED, false, false)], false)
    else if i == 2 then State([Server(0, 3, 5, 0xff, false)], [Source(0, MASKED, true, false)], false)
    else State([Server(0, 255, 5, 0xff, false)], [Source(0, MASKED, false, false)], false)
  }

  lemma {:induction false} LostRunMasked()
    ensures WellFormed(LostRun(0)) && Do(LostRun(0), SetXive(0, 0, MASKED)) == LostRun(1)
  {
  }

  lemma {:induction false} LostRunRejected()
    ensures WellFormed(LostRun(1)) && Do(LostRun(1), HCppr(0, 3)) == LostRun(2)
  {
  }

  lemma {:induction false} LostRunPass()
    ensures var st := State([Server(0, 255, 5, 0xff, false)], [Source(0, MASKED, true, false)], false);
      WellFormed(st) && ResendFrom(st, 0) == LostRun(3)
  {
    var st := State([Server(0, 255, 5, 0xff, false)], [Source(0, MASKED, true, false)], false);
    assert ResendOne(st, 0) == LostRun(3);
    assert ResendFrom(LostRun(3), 1) == LostRun(3);
  }

  lemma {:induction false} LostRunDropped()
    ensures WellFormed(LostRun(2)) && Do(LostRun(2), HCppr(0, 255)) == LostRun(3)
  {
    hide ResendFrom;
    var st2 := LostRun(2);
    var st := st2.(ss := st2.ss[0 := st2.ss[0].(cppr := 255)]);
    LostRunPass();
    assert st == State([Server(0, 255, 5, 0xff, false)], [Source(0, MASKED, true, false)], false);
  }

  /** Masking a presented source is enough: it is dropped once it has been rejected.  Source 16 is
      presented at priority 5, masked, rejected by H_CPPR 3, and gone after H_CPPR 255. */
  lemma {:induction false} MaskedWhilePresentedIsLost()
    ensures var st := LostRun(0);
      && WellFormed(st) && Lines(st) && Beats(st) && AsConfigured(st) && MaskSafe(st, 0) && Pending(st, 0)
      && (var st1 := Do(st, SetXive(0, 0, MASKED));
          && WellFormed(st1)
          && (var st2 := Do(st1, HCppr(0, 3));
              && WellFormed(st2) && !Do(st2, HCppr(0, 255)).fault && !Pending(Do(st2, HCppr(0, 255)), 0)))
  {
    hide Do;
    LostRunMasked();
    LostRunRejected();
    LostRunDropped();
    assert LostRun(0).ss[0].xisr == 0 + OFFSET;
  }

  /** Source i, if rejected, would displace the IPI its server presents. */
  predicate WouldDisplaceIpi(st: State, i: nat)
    requires WellFormed(st) && i < |st.irqs|
  {
    var irq := st.irqs[i];
    var s := st.ss[irq.server];
    s.xisr == IPI && irq.priority < s.cppr && irq.priority < s.pending
  }

  /** Presenting a source writes outside the irqs array exactly when it displaces an IPI. */
  lemma {:induction false} IcpIrqFaults(st: State, nr: nat)
    requires WellFormed(st) && SourceNr(st, nr) && !st.fault
    ensures IcpIrq(st, st.irqs[nr - OFFSET].server, nr, st.irqs[nr - OFFSET].priority).fault <==>
            WouldDisplaceIpi(st, nr - OFFSET)
  {
  }

  lemma {:induction false} ResendOneFaults(st: State, i: nat)
    requires WellFormed(st) && i < |st.irqs| && !st.fault
    ensures ResendOne(st, i).fault <==> st.irqs[i].rejected && st.irqs[i].priority != MASKED && WouldDisplaceIpi(st, i)
  {
    var irq := st.irqs[i];
    var st1 := st.(irqs := st.irqs[i := irq.(rejected := false)]);
    ClearKeeps(st, i);
    if irq.rejected && irq.priority != MASKED {
      IcpIrqFaults(st1, i + OFFSET);
    }
  }

  /** What a later source of the pass would do does not change. */
  lemma {:induction false} DisplacementStays(st: State, i: nat, k: nat)
    requires WellFormed(st) && AsConfigured(st) && i < k < |st.irqs| && !st.fault && !ResendOne(st, i).fault
    ensures WellFormed(ResendOne(st, i)) && |ResendOne(st, i).irqs| == |st.irqs|
    ensures ResendOne(st, i).irqs[k].rejected && WouldDisplaceIpi(ResendOne(st, i), k) <==>
              st.irqs[k].rejected && WouldDisplaceIpi(st, k)
  {
    ResendOneShape(st, i);
  }

  /** A resend pass writes outside the irqs array exactly when some rejected source would displace an
      IPI: the caller can tell from the state before the pass. */
  lemma {:induction false} ResendFaults(st: State, i: nat)
    requires WellFormed(st) && AsConfigured(st) && i <= |st.irqs| && !st.fault
    ensures ResendFrom(st, i).fault <==>
      exists k :: i <= k < |st.irqs| && st.irqs[k].rejected && st.irqs[k].priority != MASKED && WouldDisplaceIpi(st, k)
    decreases |st.irqs| - i
  {
    if i < |st.irqs| {
      var st1 := ResendOne(st, i);
      ResendOneFaults(st, i);
      ResendOneKeeps(st, i);
      ResendKeeps(st1, i + 1);
      if !st1.fault {
        ResendFaults(st1, i + 1);
        forall k | i < k < |st.irqs|
          ensures st1.irqs[k].rejected && WouldDisplaceIpi(st1, k) <==> st.irqs[k].rejected && WouldDisplaceIpi(st, k)
        {
          DisplacementStays(st, i, k);
        }
      }
    }
  }

  // ---------------------------------------------------------------- nesting

  /** The controller with, for each server, the XIRRs it has accepted and not yet ended. */
  datatype Nest = Nest(st: State, open: seq<seq<nat>>)

  /** Accepts only when there is something to accept, EOIs last-in first-out with the accepted XIRR, and
      no H_CPPR while an interrupt is being handled. */
  ghost predicate Disciplined(n: Nest, op: Op) {
    && WellFormed(n.st) && |n.open| == |n.st.ss| && Enabled(n.st, op)
    && (op.HXirr? ==> n.st.ss[op.server].xisr != 0)
    && (op.HEoi? ==> n.open[op.server] != [] && op.xirr == n.open[op.server][|n.open[op.server]| - 1])
    && (op.HCppr? ==> n.open[op.server] == [])
  }

  ghost function NestDo(n: Nest, op: Op): Nest
    requires Disciplined(n, op)
  {
    var open :=
      match op
      case HXirr(server) => n.open[server := n.open[server] + [Xirr(n.st.ss[server])]]
      case HEoi(server, xirr) => n.open[server := n.open[server][..|n.open[server]| - 1]]
      case _ => n.open;
    Nest(Do(n.st, op), open)
  }

  /** The CPPRs a server has interrupted, oldest first, and the current one. */
  ghost function Levels(n: Nest, server: nat): (r: seq<nat>)
    requires |n.open| == |n.st.ss| && server < |n.st.ss|
    ensures |r| == |n.open[server]| + 1
  {
    seq(|n.open[server]|, (j: nat) requires j < |n.open[server]| => n.open[server][j] / 0x100_0000)
      + [n.st.ss[server].cppr]
  }

  predicate Decreasing(s: seq<nat>) {
    forall i, j | 0 <= i < j < |s| :: s[i] > s[j]
  }

  /** XICS_NUM_IRQS */
  const NUM_IRQS: nat := 1024

  ghost predicate NestInv(n: Nest) {
    && |n.st.irqs| <= NUM_IRQS && WellFormed(n.st) && Beats(n.st) && |n.open| == |n.st.ss|
    && (forall s | 0 <= s < |n.st.ss| :: Decreasing(Levels(n, s)) && forall x | x in n.open[s] :: x < 0x1_0000_0000)
  }

  lemma {:induction false} XirrParts(s: Server)
    requires s.xisr < 0x100_0000
    ensures Xirr(s) / 0x100_0000 == s.cppr
  {
  }

  /** The CPPRs of the servers after each operation. */
  lemma {:induction false} DoCppr(st: State, op: Op, q: nat)
    requires WellFormed(st) && Enabled(st, op) && q < |st.ss|
    ensures |Do(st, op).ss| == |st.ss|
    ensures Do(st, op).ss[q].cppr ==
      if op.HCppr? && op.server == q then op.cppr
      else if op.HXirr? && op.server == q then st.ss[q].pending
      else if op.HEoi? && op.server == q then op.xirr / 0x100_0000
      else st.ss[q].cppr
  {
    hide IcpIrq, IcpResend, CheckIpi, Lines, Beats, AsConfigured;
    match op
    case Raise(i) =>
      if st.irqs[i].priority != MASKED {
        IcpIrqKeeps(st, st.irqs[i].server, i + OFFSET, st.irqs[i].priority);
      }
    case SetXive(i, server, priority) =>
      var irq := st.irqs[i].(server := server, priority := priority);
      if irq.maskedPending && priority != MASKED {
        WriteKeeps(st, i, irq.(maskedPending := false));
        IcpIrqKeeps(st.(irqs := st.irqs[i := irq.(maskedPending := false)]), server, i + OFFSET, priority);
      }
    case HCppr(server, cppr) => SetCpprKeeps(st, server, cppr);
    case HIpi(server, mfrr) => SetMfrrKeeps(st, server, mfrr);
    case HXirr(server) =>
    case HEoi(server, xirr) => EoiKeeps(st, server, xirr);
  }

  /** How the levels of one server move: an accept adds a more favoured one, an EOI takes the last off. */
  lemma {:induction false} NestLevels(n: Nest, op: Op, q: nat)
    requires NestInv(n) && Disciplined(n, op) && q < |n.st.ss|
    ensures var n' := NestDo(n, op);
      && |n'.st.ss| == |n.st.ss| && |n'.open| == |n'.st.ss|
      && Levels(n', q) ==
           (if op.HXirr? && op.server == q then Levels(n, q) + [n.st.ss[q].pending]
            else if op.HEoi? && op.server == q then Levels(n, q)[..|n.open[q]|]
            else if op.HCppr? && op.server == q then [op.cppr]
            else Levels(n, q))
  {
    hide Do;
    DoCppr(n.st, op, q);
    var n' := NestDo(n, op);
    if op.HXirr? && op.server == q {
      XirrParts(n.st.ss[q]);
      assert Levels(n', q) == Levels(n, q) + [n.st.ss[q].pending];
    } else if op.HEoi? && op.server == q {
      assert Levels(n', q) == Levels(n, q)[..|n.open[q]|];
    } else if op.HCppr? && op.server == q {
      assert Levels(n', q) == [op.cppr];
    } else {
      assert Levels(n', q) == Levels(n, q);
    }
  }

  /** One disciplined step keeps the nesting invariant, and no step but an outermost H_CPPR changes the
      level a server started from. */
  lemma {:induction false} NestStep(n: Nest, op: Op)
    requires NestInv(n) && Disciplined(n, op)
    ensures NestInv(NestDo(n, op))
    ensures |NestDo(n, op).st.ss| == |n.st.ss|
    ensures forall q | 0 <= q < |n.st.ss| && !(op.HCppr? && op.server == q) ::
            Levels(NestDo(n, op), q)[0] == Levels(n, q)[0]
  {
    hide Do, WellFormed, Beats, Lines, AsConfigured, Levels, Decreasing, Xirr;
    var n' := NestDo(n, op);
    NestEoi(n, op);
    DoKeeps(n.st, op);
    forall q | 0 <= q < |n.st.ss|
      ensures Decreasing(Levels(n', q)) && (forall x | x in n'.open[q] :: x < 0x1_0000_0000)
      ensures !(op.HCppr? && op.server == q) ==> Levels(n', q)[0] == Levels(n, q)[0]
    {
      NestServer(n, op, q);
    }
  }

  /** An EOI goes back to a less favoured CPPR. */
  lemma {:induction false} NestEoi(n: Nest, op: Op)
    requires NestInv(n) && Disciplined(n, op)
    ensures op.HEoi? ==> op.xirr / 0x100_0000 > n.st.ss[op.server].cppr
  {
    if op.HEoi? {
      var l := Levels(n, op.server);
      assert Decreasing(l) && l[|l| - 2] > l[|l| - 1];
    }
  }

  lemma {:induction false} NestServer(n: Nest, op: Op, q: nat)
    requires NestInv(n) && Disciplined(n, op) && q < |n.st.ss|
    ensures var n' := NestDo(n, op);
      && |n'.st.ss| == |n.st.ss| && |n'.open| == |n'.st.ss|
      && Decreasing(Levels(n', q)) && (forall x | x in n'.open[q] :: x < 0x1_0000_0000)
      && (!(op.HCppr? && op.server == q) ==> Levels(n', q)[0] == Levels(n, q)[0])
  {
    hide Do, WellFormed, Beats, Lines, AsConfigured, Xirr;
    NestLevels(n, op, q);
    NestOpen(n, op, q);
    BeatsAt(n.st, q);
    var l := Levels(n, q);
    assert Decreasing(l) && l[|l| - 1] == n.st.ss[q].cppr;
    if op.HXirr? && op.server == q {
      DecreasingAppend(l, n.st.ss[q].pending);
    }
  }

  lemma {:induction false} DecreasingAppend(l: seq<nat>, x: nat)
    requires Decreasing(l) && l != [] && l[|l| - 1] > x
    ensures Decreasing(l + [x])
  {
    forall i, j | 0 <= i < j < |l + [x]|
      ensures (l + [x])[i] > (l + [x])[j]
    {
      assert i < |l| - 1 ==> l[i] > l[|l| - 1];
    }
  }

  lemma {:induction false} BeatsAt(st: State, q: nat)
    requires Beats(st) && q < |st.ss|
    ensures st.ss[q].xisr != 0 ==> st.ss[q].pending < st.ss[q].cppr
  {
  }

  lemma {:induction false} NestOpen(n: Nest, op: Op, q: nat)
    requires NestInv(n) && Disciplined(n, op) && q < |n.st.ss|
    ensures forall x | x in NestDo(n, op).open[q] :: x < 0x1_0000_0000
  {
    hide Do;
    var s := n.st.ss[q];
    var open, open' := n.open[q], NestDo(n, op).open[q];
    assert Xirr(s) < 0x1_0000_0000;
    assert open' == open || open' == open + [Xirr(s)] || (open != [] && open' == open[..|open| - 1]);
    assert forall j | 0 <= j < |open| :: open[j] in open;
  }

  ghost predicate NestRuns(n: Nest, ops: seq<Op>)
    decreases |ops|
  {
    ops == [] || (Disciplined(n, ops[0]) && NestRuns(NestDo(n, ops[0]), ops[1..]))
  }

  ghost function NestRun(n: Nest, ops: seq<Op>): Nest
    requires NestRuns(n, ops)
    decreases |ops|
  {
    if ops == [] then n else NestRun(NestDo(n, ops[0]), ops[1..])
  }

  /** In every disciplined run what is presented beats the CPPR, the CPPRs along nested accepts strictly
      decrease, and a server back at the outermost level without an H_CPPR has its old CPPR. */
  lemma {:induction false} Nesting(n: Nest, ops: seq<Op>, q: nat)
    requires NestInv(n) && NestRuns(n, ops) && q < |n.st.ss|
    ensures NestInv(NestRun(n, ops)) && |NestRun(n, ops).st.ss| == |n.st.ss|
    ensures (forall op | op in ops :: !(op.HCppr? && op.server == q)) ==>
            Levels(NestRun(n, ops), q)[0] == Levels(n, q)[0]
    decreases |ops|
  {
    if ops != [] {
      NestStep(n, ops[0]);
      Nesting(NestDo(n, ops[0]), ops[1..], q);
    }
  }

  lemma {:induction false} UnwindingRestores(n: Nest, ops: seq<Op>, q: nat)
    requires NestInv(n) && NestRuns(n, ops) && q < |n.st.ss| && n.open[q] == []
    requires forall op | op in ops :: !(op.HCppr? && op.server == q)
    ensures |NestRun(n, ops).open| == |NestRun(n, ops).st.ss| == |n.st.ss|
    ensures NestRun(n, ops).open[q] == [] ==> NestRun(n, ops).st.ss[q].cppr == n.st.ss[q].cppr
    ensures NestRun(n, ops).open[q] != [] ==> NestRun(n, ops).st.ss[q].cppr < n.st.ss[q].cppr
  {
    Nesting(n, ops, q);
    var l := Levels(NestRun(n, ops), q);
    assert Decreasing(l) && l[|l| - 1] == NestRun(n, ops).st.ss[q].cppr && Levels(n, q)[0] == n.st.ss[q].cppr;
    assert |l| > 1 ==> l[0] > l[|l| - 1];
  }
}
