/** What becomes of a raised interrupt and of an MFRR: where it goes, when it is presented, and what it displaces. */
module XicsDelivery {
  import opened Xics

  // ---------------------------------------------------------------- sources

  /** A server presents an interrupt of this priority: it beats the CPPR and what is presented now. */
  predicate Takes(s: Server, priority: nat) { priority < s.cppr && (s.xisr == 0 || priority < s.pending) }

  /** From st, source k was sent to a server: it is presented there exactly when the server takes it, and then what
      it displaced is rejected; otherwise it is rejected itself.  Nothing else changed. */
  ghost predicate Delivered(st: State, st': State, k: nat, server: nat, priority: nat)
    requires server < |st.ss| && k < |st.irqs|
  {
    var s := st.ss[server];
    && |st'.ss| == |st.ss| && |st'.irqs| == |st.irqs|
    && st'.ss[server] ==
       (if Takes(s, priority) then s.(xisr := k + OFFSET, pending := priority, line := true) else s)
    && (forall q | 0 <= q < |st.ss| && q != server :: st'.ss[q] == st.ss[q])
    && forall i | 0 <= i < |st.irqs| ::
         var hit := if Takes(s, priority) then s.xisr == i + OFFSET else i == k;
         st'.irqs[i] == if hit then st.irqs[i].(rejected := true) else st.irqs[i]
  }

  lemma {:induction false} IrqDelivers(st: State, k: nat, server: nat, priority: nat)
    requires WellFormed(st) && k < |st.irqs| && server < |st.ss|
    ensures Delivered(st, IcpIrq(st, server, k + OFFSET, priority), k, server, priority)
  {
  }

  lemma {:induction false} DeliveredPresented(st: State, st': State, k: nat, server: nat, priority: nat)
    requires server < |st.ss| && k < |st.irqs| && Delivered(st, st', k, server, priority)
    ensures Presented(st', k) <==> Takes(st.ss[server], priority) || Presented(st, k)
    ensures st'.irqs[k].rejected <==>
              || st.irqs[k].rejected || !Takes(st.ss[server], priority) || st.ss[server].xisr == k + OFFSET
  {
    if Presented(st, k) && !Takes(st.ss[server], priority) {
      var q :| 0 <= q < |st.ss| && st.ss[q].xisr == k + OFFSET;
      assert st'.ss[q].xisr == k + OFFSET;
    }
    if Takes(st.ss[server], priority) {
      assert st'.ss[server].xisr == k + OFFSET;
    }
    if Presented(st, k) && Takes(st.ss[server], priority) {
      assert st'.ss[server].xisr == k + OFFSET;
    }
  }

  /** A raised interrupt: an unmasked source is presented by its server exactly when it beats the server's CPPR and
      what that presents, and then what it displaced is rejected; a masked one is recorded. */
  lemma {:induction false} RaiseDelivers(st: State, k: nat)
    requires WellFormed(st) && k < |st.irqs|
    ensures var st', irq := Do(st, Raise(k)), st.irqs[k];
            if irq.priority == MASKED then
              st' == st.(irqs := st.irqs[k := irq.(maskedPending := true)])
            else
              && Delivered(st, st', k, irq.server, irq.priority)
              && (Presented(st', k) <==> Takes(st.ss[irq.server], irq.priority) || Presented(st, k))
              && WellFormed(st') && NotBetter(st', k)
  {
    var irq := st.irqs[k];
    if irq.priority != MASKED {
      IrqDelivers(st, k, irq.server, irq.priority);
      DeliveredPresented(st, Do(st, Raise(k)), k, irq.server, irq.priority);
      DoKeeps(st, Raise(k));
      hide IcpIrq, Lines, Beats, AsConfigured, Presented;
      assert Do(st, Raise(k)).irqs[k].server == irq.server;
    }
  }

  /** A source that is unmasked while it is recorded as masked-pending is raised, with its new server and priority;
      otherwise only the configuration changes. */
  lemma {:induction false} SetXiveDelivers(st: State, k: nat, server: nat, priority: nat)
    requires WellFormed(st) && k < |st.irqs| && server < |st.ss| && priority < 256
    ensures var st', irq := Do(st, SetXive(k, server, priority)), st.irqs[k].(server := server, priority := priority);
            if irq.maskedPending && priority != MASKED then
              var st1 := st.(irqs := st.irqs[k := irq.(maskedPending := false)]);
              && Delivered(st1, st', k, server, priority)
              && (Presented(st', k) <==> Takes(st.ss[server], priority) || Presented(st, k))
              && WellFormed(st') && NotBetter(st', k)
            else st' == st.(irqs := st.irqs[k := irq])
  {
    var irq := st.irqs[k].(server := server, priority := priority);
    if irq.maskedPending && priority != MASKED {
      var st1 := st.(irqs := st.irqs[k := irq.(maskedPending := false)]);
      var st' := Do(st, SetXive(k, server, priority));
      WriteKeeps(st, k, irq.(maskedPending := false));
      IrqDelivers(st1, k, server, priority);
      DeliveredPresented(st1, st', k, server, priority);
      assert Presented(st1, k) <==> Presented(st, k) by {
        assert st1.ss == st.ss;
      }
      DoKeeps(st, SetXive(k, server, priority));
      hide IcpIrq, Lines, Beats, AsConfigured, Presented;
      assert st'.irqs[k].server == server;
    }
  }

  // ---------------------------------------------------------------- routing

  /** Only SetXive configures a source, and it configures the one it names. */
  lemma {:induction false} DoConfig(st: State, op: Op, k: nat)
    requires WellFormed(st) && Enabled(st, op) && k < |st.irqs|
    ensures k < |Do(st, op).irqs|
    ensures var irq := Do(st, op).irqs[k];
            if op.SetXive? && op.i == k then irq.server == op.server && irq.priority == op.priority
            else irq.server == st.irqs[k].server && irq.priority == st.irqs[k].priority
  {
    hide IcpIrq, IcpResend, CheckIpi, Lines, Beats, AsConfigured;
    match op
    case Raise(i) =>
      if st.irqs[i].priority != MASKED {
        IcpIrqKeeps(st, st.irqs[i].server, i + OFFSET, st.irqs[i].priority);
      }
    case SetXive(i, server, priority) => XiveConfig(st, i, server, priority, k);
    case HCppr(server, cppr) => CpprConfig(st, server, cppr, k);
    case HIpi(server, mfrr) =>
      var st1 := st.(ss := st.ss[server := st.ss[server].(mfrr := mfrr)]);
      SetServer(st, server, st.ss[server].(mfrr := mfrr));
      if mfrr < st.ss[server].cppr {
        CheckIpiKeeps(st1, server);
      }
    case HXirr(server) =>
    case HEoi(server, xirr) =>
      var c := xirr / 0x100_0000;
      SetServer(st, server, st.ss[server].(cppr := c));
      IcpResendKeeps(st.(ss := st.ss[server := st.ss[server].(cppr := c)]), server);
  }

  lemma {:induction false} XiveConfig(st: State, i: nat, server: nat, priority: nat, k: nat)
    requires WellFormed(st) && i < |st.irqs| && server < |st.ss| && priority < 256 && k < |st.irqs|
    ensures k < |WriteXive(st, i, server, priority).irqs|
    ensures var irq := WriteXive(st, i, server, priority).irqs[k];
            if i == k then irq.server == server && irq.priority == priority
            else irq.server == st.irqs[k].server && irq.priority == st.irqs[k].priority
  {
    hide IcpIrq, Lines, Beats, AsConfigured;
    var irq := st.irqs[i].(server := server, priority := priority);
    if irq.maskedPending && priority != MASKED {
      WriteKeeps(st, i, irq.(maskedPending := false));
      IcpIrqKeeps(st.(irqs := st.irqs[i := irq.(maskedPending := false)]), server, i + OFFSET, priority);
    }
  }

  lemma {:induction false} CpprConfig(st: State, server: nat, cppr: nat, k: nat)
    requires WellFormed(st) && server < |st.ss| && cppr < 256 && k < |st.irqs|
    ensures k < |SetCppr(st, server, cppr).irqs|
    ensures var irq := SetCppr(st, server, cppr).irqs[k];
            irq.server == st.irqs[k].server && irq.priority == st.irqs[k].priority
  {
    hide IcpResend, Lines, Beats, AsConfigured;
    SetServer(st, server, st.ss[server].(cppr := cppr));
    IcpResendKeeps(st.(ss := st.ss[server := st.ss[server].(cppr := cppr)]), server);
  }

  lemma {:induction false} RunConfig(st: State, ops: seq<Op>, k: nat)
    requires WellFormed(st) && Runs(st, ops) && k < |st.irqs| && forall op | op in ops :: !(op.SetXive? && op.i == k)
    ensures k < |Run(st, ops).irqs|
    ensures Run(st, ops).irqs[k].server == st.irqs[k].server && Run(st, ops).irqs[k].priority == st.irqs[k].priority
    decreases |ops|
  {
    hide Do, WellFormed, Enabled;
    if ops != [] {
      DoKeeps(st, ops[0]);
      DoConfig(st, ops[0], k);
      assert forall op | op in ops[1..] :: op in ops;
      RunConfig(Do(st, ops[0]), ops[1..], k);
    }
  }

  /** The server and priority given to a source are those that a later interrupt of it goes to, whatever happens in
      between but another SetXive of the same source. */
  lemma {:induction false} Routing(st: State, k: nat, server: nat, priority: nat, ops: seq<Op>)
    requires WellFormed(st) && k < |st.irqs| && server < |st.ss| && priority < 256 && priority != MASKED
    requires WellFormed(Do(st, SetXive(k, server, priority))) && Runs(Do(st, SetXive(k, server, priority)), ops)
    requires forall op | op in ops :: !(op.SetXive? && op.i == k)
    ensures var st1 := Run(Do(st, SetXive(k, server, priority)), ops);
            && server < |st1.ss| && k < |st1.irqs| && Enabled(st1, Raise(k))
            && Delivered(st1, Do(st1, Raise(k)), k, server, priority)
  {
    hide Do, WellFormed, Delivered;
    DoKeeps(st, SetXive(k, server, priority));
    DoConfig(st, SetXive(k, server, priority), k);
    RunConfig(Do(st, SetXive(k, server, priority)), ops, k);
    RunSizes(Do(st, SetXive(k, server, priority)), ops);
    RaiseDelivers(Run(Do(st, SetXive(k, server, priority)), ops), k);
  }

  lemma {:induction false} RunSizes(st: State, ops: seq<Op>)
    requires WellFormed(st) && Runs(st, ops)
    ensures |Run(st, ops).ss| == |st.ss| && |Run(st, ops).irqs| == |st.irqs|
    decreases |ops|
  {
    hide Do, WellFormed, Enabled;
    if ops != [] {
      DoKeeps(st, ops[0]);
      RunSizes(Do(st, ops[0]), ops[1..]);
    }
  }

  // ---------------------------------------------------------------- inter-processor interrupts

  /** H_IPI: an IPI is presented exactly when its MFRR beats the CPPR and what is presented, and then what it
      displaced is rejected; the MFRR is kept in any case. */
  lemma {:induction false} IpiDelivers(st: State, q: nat, mfrr: nat)
    requires WellFormed(st) && q < |st.ss| && mfrr < 256
    ensures var st', s := Do(st, HIpi(q, mfrr)), st.ss[q].(mfrr := mfrr);
            && |st'.ss| == |st.ss| && |st'.irqs| == |st.irqs|
            && st'.ss[q] == (if Takes(s, mfrr) then s.(xisr := IPI, pending := mfrr, line := true) else s)
            && (forall p | 0 <= p < |st.ss| && p != q :: st'.ss[p] == st.ss[p])
            && forall i | 0 <= i < |st.irqs| ::
                 st'.irqs[i] ==
                 if Takes(s, mfrr) && s.xisr == i + OFFSET then st.irqs[i].(rejected := true) else st.irqs[i]
  {
  }

  /** An MFRR that beats the CPPR is presented, or something at least as favoured is. */
  predicate IpiAt(s: Server) { s.mfrr < s.cppr ==> s.xisr != 0 && s.pending <= s.mfrr }

  predicate IpiAll(st: State) { forall q | 0 <= q < |st.ss| :: IpiAt(st.ss[q]) }

  lemma {:induction false} IrqIpi(st: State, server: nat, k: nat, priority: nat)
    requires WellFormed(st) && server < |st.ss| && k < |st.irqs| && IpiAll(st)
    ensures IpiAll(IcpIrq(st, server, k + OFFSET, priority))
  {
    IrqDelivers(st, k, server, priority);
    var st' := IcpIrq(st, server, k + OFFSET, priority);
    hide IcpIrq, WellFormed;
    forall q | 0 <= q < |st'.ss|
      ensures IpiAt(st'.ss[q])
    {
      assert IpiAt(st.ss[q]);
    }
  }

  lemma {:induction false} PassIpi(st: State, i: nat)
    requires WellFormed(st) && i <= |st.irqs| && IpiAll(st)
    ensures IpiAll(ResendFrom(st, i))
    decreases |st.irqs| - i
  {
    hide IcpIrq;
    if i < |st.irqs| {
      ResendOneShape(st, i);
      var irq := st.irqs[i];
      var st1 := st.(irqs := st.irqs[i := irq.(rejected := false)]);
      if irq.rejected {
        WriteKeeps(st, i, irq.(rejected := false));
        assert IpiAll(st1);
        if irq.priority != MASKED {
          IrqIpi(st1, irq.server, i, irq.priority);
        }
      }
      PassIpi(ResendOne(st, i), i + 1);
    }
  }

  /** A resend on behalf of a server that presents nothing, after its CPPR was set. */
  lemma {:induction false} ResendIpi(st: State, q: nat, cppr: nat)
    requires WellFormed(st) && IpiAll(st) && q < |st.ss| && cppr < 256 && st.ss[q].xisr == 0
    ensures var st1 := st.(ss := st.ss[q := st.ss[q].(cppr := cppr)]); WellFormed(st1) && IpiAll(IcpResend(st1, q))
  {
    hide ResendFrom, Lines, Beats, AsConfigured;
    var s := st.ss[q].(cppr := cppr);
    var st1 := st.(ss := st.ss[q := s]);
    SetServer(st, q, s);
    var st2 := if s.mfrr < cppr then CheckIpi(st1, q) else st1;
    if s.mfrr < cppr {
      CheckIpiKeeps(st1, q);
    }
    forall p | 0 <= p < |st2.ss|
      ensures IpiAt(st2.ss[p])
    {
      if p != q {
        assert st2.ss[p] == st.ss[p];
      }
    }
    PassIpi(st2, 0);
  }

  /** Setting the CPPR of a server that presents something more favoured than its old one. */
  lemma {:induction false} CpprIpi(st: State, q: nat, cppr: nat)
    requires WellFormed(st) && Beats(st) && IpiAll(st) && q < |st.ss| && cppr < 256
    ensures st.ss[q].xisr != 0 ==> IpiAt(st.ss[q].(cppr := cppr))
    ensures cppr <= st.ss[q].cppr ==> IpiAt(st.ss[q].(cppr := cppr))
    ensures st.ss[q].xisr != 0 && cppr < st.ss[q].cppr && cppr <= st.ss[q].pending ==>
              IpiAt(st.ss[q].(cppr := cppr, xisr := 0, line := false))
  {
    assert IpiAt(st.ss[q]);
  }

  lemma {:induction false} OneServer(st: State, q: nat, s: Server)
    requires IpiAll(st) && q < |st.ss| && IpiAt(s)
    ensures IpiAll(st.(ss := st.ss[q := s]))
  {
  }

  lemma {:induction false} DoCpprIpi(st: State, q: nat, cppr: nat)
    requires WellFormed(st) && Beats(st) && IpiAll(st) && q < |st.ss| && cppr < 256
    ensures IpiAll(SetCppr(st, q, cppr))
  {
    hide IcpResend, Beats;
    var s := st.ss[q];
    CpprIpi(st, q, cppr);
    if cppr < s.cppr {
      OneServer(st, q, s.(cppr := cppr));
      if s.xisr != 0 && cppr <= s.pending {
        var s1 := s.(cppr := cppr, xisr := 0, line := false);
        OneServer(st, q, s1);
        assert st.ss[q := s.(cppr := cppr)][q := s1] == st.ss[q := s1];
        var st1 := st.(ss := st.ss[q := s1]);
        assert Reject(st1, s.xisr).ss == st1.ss;
      }
    } else if s.xisr == 0 {
      ResendIpi(st, q, cppr);
    } else {
      OneServer(st, q, s.(cppr := cppr));
    }
  }

  lemma {:induction false} DoMfrrIpi(st: State, q: nat, mfrr: nat)
    requires WellFormed(st) && IpiAll(st) && q < |st.ss| && mfrr < 256
    ensures IpiAll(SetMfrr(st, q, mfrr))
  {
    var st' := SetMfrr(st, q, mfrr);
    IpiDelivers(st, q, mfrr);
    forall p | 0 <= p < |st'.ss|
      ensures IpiAt(st'.ss[p])
    {
      assert IpiAt(st.ss[p]);
    }
  }

  /** An accept by a server that presents nothing makes the priority presented last its CPPR; that hides an MFRR
      which beats it. */
  predicate Spurious(s: Server) { s.xisr == 0 && s.mfrr < s.pending }

  /** Every operation keeps this but an accept that hides the MFRR. */
  lemma {:induction false} DoIpi(st: State, op: Op)
    requires WellFormed(st) && Enabled(st, op) && Beats(st) && IpiAll(st)
    ensures IpiAll(Do(st, op)) <==> !(op.HXirr? && Spurious(st.ss[op.server]))
  {
    hide IcpIrq, IcpResend, SetCppr, SetMfrr, Lines, AsConfigured;
    match op
    case Raise(i) =>
      if st.irqs[i].priority != MASKED {
        IrqIpi(st, st.irqs[i].server, i, st.irqs[i].priority);
      }
    case SetXive(i, server, priority) =>
      var irq := st.irqs[i].(server := server, priority := priority, maskedPending := false);
      WriteKeeps(st, i, irq);
      IrqIpi(st.(irqs := st.irqs[i := irq]), server, i, priority);
    case HCppr(server, cppr) => DoCpprIpi(st, server, cppr);
    case HIpi(server, mfrr) => DoMfrrIpi(st, server, mfrr);
    case HXirr(server) =>
      assert IpiAt(st.ss[server]);
      if !Spurious(st.ss[server]) {
        OneServer(st, server, Accept(st, server).ss[server]);
      } else {
        assert !IpiAt(Accept(st, server).ss[server]);
      }
    case HEoi(server, xirr) =>
      var c := xirr / 0x100_0000;
      CpprIpi(st, server, c);
      if st.ss[server].xisr == 0 {
        ResendIpi(st, server, c);
      } else {
        OneServer(st, server, st.ss[server].(cppr := c));
      }
  }

  /** No EOI of the run makes the CPPR more favoured, and no accept hides an MFRR. */
  ghost predicate Orderly(st: State, ops: seq<Op>)
    requires WellFormed(st) && Runs(st, ops)
    decreases |ops|
  {
    ops == [] || (
      && (ops[0].HEoi? ==> ops[0].xirr / 0x100_0000 >= st.ss[ops[0].server].cppr)
      && !(ops[0].HXirr? && Spurious(st.ss[ops[0].server]))
      && (DoKeeps(st, ops[0]); Orderly(Do(st, ops[0]), ops[1..])))
  }

  /** In every such run from the initial state, an MFRR that beats its server's CPPR is presented, or something at
      least as favoured is: an MFRR set while it does not beat the CPPR is not lost. */
  lemma {:induction false} IpiAlways(servers: nat, sources: nat, ops: seq<Op>)
    requires servers > 0 && Runs(Init(servers, sources), ops) && Orderly(Init(servers, sources), ops)
    ensures IpiAll(Run(Init(servers, sources), ops))
  {
    RunIpi(Init(servers, sources), ops);
  }

  lemma {:induction false} RunIpi(st: State, ops: seq<Op>)
    requires WellFormed(st) && Beats(st) && IpiAll(st) && Runs(st, ops) && Orderly(st, ops)
    ensures IpiAll(Run(st, ops)) && Beats(Run(st, ops))
    decreases |ops|
  {
    hide Do, WellFormed, Beats, IpiAll;
    if ops != [] {
      DoKeeps(st, ops[0]);
      DoIpi(st, ops[0]);
      RunIpi(Do(st, ops[0]), ops[1..]);
    }
  }

  /** Only H_IPI changes an MFRR, that of its server. */
  lemma {:induction false} DoMfrr(st: State, op: Op, q: nat)
    requires WellFormed(st) && Enabled(st, op) && q < |st.ss|
    ensures q < |Do(st, op).ss|
    ensures Do(st, op).ss[q].mfrr == if op.HIpi? && op.server == q then op.mfrr else st.ss[q].mfrr
  {
    hide IcpIrq, IcpResend, CheckIpi, Lines, Beats, AsConfigured;
    match op
    case Raise(i) =>
      if st.irqs[i].priority != MASKED {
        IcpIrqKeeps(st, st.irqs[i].server, i + OFFSET, st.irqs[i].priority);
      }
    case SetXive(i, server, priority) =>
      var irq := st.irqs[i].(server := server, priority := priority, maskedPending := false);
      WriteKeeps(st, i, irq);
      IcpIrqKeeps(st.(irqs := st.irqs[i := irq]), server, i + OFFSET, priority);
    case HCppr(server, cppr) => CpprMfrr(st, server, cppr, q);
    case HIpi(server, mfrr) => IpiDelivers(st, server, mfrr);
    case HXirr(server) =>
    case HEoi(server, xirr) =>
      var s := st.ss[server].(cppr := xirr / 0x100_0000);
      SetServer(st, server, s);
      IcpResendKeeps(st.(ss := st.ss[server := s]), server);
  }

  lemma {:induction false} CpprMfrr(st: State, server: nat, cppr: nat, q: nat)
    requires WellFormed(st) && server < |st.ss| && cppr < 256 && q < |st.ss|
    ensures q < |SetCppr(st, server, cppr).ss| && SetCppr(st, server, cppr).ss[q].mfrr == st.ss[q].mfrr
  {
    hide IcpResend, Lines, Beats, AsConfigured;
    var s := st.ss[server].(cppr := cppr);
    SetServer(st, server, s);
    IcpResendKeeps(st.(ss := st.ss[server := s]), server);
  }

  // ------- an accept that hides an MFRR

  /** One server and no source, in the course of the run below. */
  function SpuriousRun(i: nat): State {
    State([match i
           case 0 => Server(0, 0, 0, 255, false)
           case 1 => Server(0, 255, 0, 255, false)
           case 2 => Server(IPI, 255, 200, 200, true)
           case 3 => Server(0, 200, 200, 200, false)
           case 4 => Server(0, 3, 200, 200, false)
           case 5 => Server(0, 3, 200, 5, false)
           case _ => Server(0, 200, 200, 5, false)], [], false)
  }

  function SpuriousOp(i: nat): Op {
    match i
    case 0 => HCppr(0, 255)
    case 1 => HIpi(0, 200)
    case 2 => HXirr(0)
    case 3 => HCppr(0, 3)
    case 4 => HIpi(0, 5)
    case _ => HXirr(0)
  }

  lemma {:induction false} SpuriousStep(i: nat)
    requires i < 6
    ensures WellFormed(SpuriousRun(i)) && Enabled(SpuriousRun(i), SpuriousOp(i))
    ensures Do(SpuriousRun(i), SpuriousOp(i)) == SpuriousRun(i + 1)
  {
    var st, st' := SpuriousRun(i), Do(SpuriousRun(i), SpuriousOp(i));
    assert st'.ss == SpuriousRun(i + 1).ss && st'.irqs == [];
  }

  /** A run from the initial state whose last call, an accept while nothing is presented, leaves an MFRR of 5 below a
      CPPR of 200 with nothing presented. */
  lemma {:induction false} SpuriousAcceptHidesIpi()
    ensures Init(1, 0) == SpuriousRun(0) && IpiAll(SpuriousRun(5)) && !IpiAll(SpuriousRun(6))
    ensures forall i: nat | i < 6 ::
              WellFormed(SpuriousRun(i)) && Enabled(SpuriousRun(i), SpuriousOp(i))
              && Do(SpuriousRun(i), SpuriousOp(i)) == SpuriousRun(i + 1)
  {
    assert Init(1, 0).ss == SpuriousRun(0).ss && Init(1, 0).irqs == [];
    assert !IpiAt(SpuriousRun(6).ss[0]);
    hide Do, WellFormed;
    forall i: nat | i < 6
      ensures WellFormed(SpuriousRun(i)) && Enabled(SpuriousRun(i), SpuriousOp(i))
      ensures Do(SpuriousRun(i), SpuriousOp(i)) == SpuriousRun(i + 1)
    {
      SpuriousStep(i);
    }
  }
}
