/** powerpc/xics.c as it stands: the server and source tables are arrays that the functions update in
    place.  Each method is proved to do to the tables what the function of the same name in module
    Xics does to the state. */
module XicsDevice {
  import opened Xics

  const H_SUCCESS: int := 0
  const H_PARAMETER: int := -4
  const RTAS_SUCCESS: int := 0
  const RTAS_PARAMETER: int := -3

  class Device {
    const ss: array<Server>
    const irqs: array<Source>
    /** set when ics_reject or ics_set_irq_msi goes outside irqs */
    ghost var fault: bool

    ghost function View(): State
      reads this, ss, irqs
    {
      State(ss[..], irqs[..], fault)
    }

    ghost predicate Valid()
      reads this, ss, irqs
    {
      WellFormed(View())
    }

    /** xics_init */
    constructor (servers: nat, sources: nat)
      requires servers > 0
      ensures View() == Init(servers, sources) && fresh(ss) && fresh(irqs)
    {
      ss := new Server[servers](_ => Server(0, 0, 0, 0xff, false));
      irqs := new Source[sources](_ => Source(0, MASKED, false, false));
      fault := false;
      new;
      assert View().ss == Init(servers, sources).ss && View().irqs == Init(servers, sources).irqs;
    }

    method IcsReject(nr: int)
      modifies this, irqs
      ensures View() == Reject(old(View()), nr)
    {
      if OFFSET <= nr < OFFSET + irqs.Length {
        irqs[nr - OFFSET] := irqs[nr - OFFSET].(rejected := true);
        assert View().irqs == Reject(old(View()), nr).irqs;
      } else {
        fault := true;
      }
    }

    method IcpPresent(server: nat, xisr: nat, priority: nat)
      requires server < ss.Length
      modifies ss
      ensures View() == Present(old(View()), server, xisr, priority)
    {
      ss[server] := ss[server].(xisr := xisr, pending := priority, line := true);
      assert View().ss == Present(old(View()), server, xisr, priority).ss;
    }

    method IcpCheckIpi(server: nat)
      requires server < ss.Length
      modifies this, ss, irqs
      ensures View() == CheckIpi(old(View()), server)
    {
      var s := ss[server];
      if s.xisr != 0 && s.pending <= s.mfrr {
        return;
      }
      if s.xisr != 0 {
        IcsReject(s.xisr);
      }
      IcpPresent(server, IPI, s.mfrr);
    }

    method IcpIrq_(server: nat, nr: nat, priority: nat)
      requires server < ss.Length
      modifies this, ss, irqs
      ensures View() == IcpIrq(old(View()), server, nr, priority)
    {
      var s := ss[server];
      if priority >= s.cppr || (s.xisr != 0 && s.pending <= priority) {
        IcsReject(nr);
      } else {
        if s.xisr != 0 {
          IcsReject(s.xisr);
        }
        IcpPresent(server, nr, priority);
      }
    }

    /** ics_resend_msi */
    method IcsResend()
      requires Valid()
      modifies this, ss, irqs
      ensures Valid() && View() == ResendFrom(old(View()), 0)
    {
      var i: nat := 0;
      while i < irqs.Length
        invariant i <= irqs.Length && Valid()
        invariant ResendFrom(View(), i) == ResendFrom(old(View()), 0)
      {
        ghost var st := View();
        ResendOneShape(st, i);
        var irq := irqs[i];
        if irq.rejected {
          irqs[i] := irq.(rejected := false);
          assert View() == st.(irqs := st.irqs[i := irq.(rejected := false)]);
          if irq.priority != MASKED {
            IcpIrq_(irq.server, i + OFFSET, irq.priority);
          }
        }
        assert View() == ResendOne(st, i);
        i := i + 1;
      }
    }

    method IcpResend_(server: nat)
      requires Valid() && server < ss.Length
      modifies this, ss, irqs
      ensures Valid() && View() == IcpResend(old(View()), server)
    {
      CheckIpiShape(View(), server);
      if ss[server].mfrr < ss[server].cppr {
        IcpCheckIpi(server);
      }
      IcsResend();
    }

    /** icp_set_cppr */
    method IcpSetCppr(server: nat, cppr: nat)
      requires Valid() && server < ss.Length && cppr < 256
      modifies this, ss, irqs
      ensures View() == SetCppr(old(View()), server, cppr)
    {
      var s := ss[server];
      SetServer(View(), server, s.(cppr := cppr));
      ss[server] := s.(cppr := cppr);
      assert View() == old(View()).(ss := old(View()).ss[server := s.(cppr := cppr)]);
      if cppr < s.cppr {
        if s.xisr != 0 && cppr <= s.pending {
          ghost var st1 := View();
          ss[server] := ss[server].(xisr := 0, line := false);
          assert View() == st1.(ss := st1.ss[server := s.(cppr := cppr, xisr := 0, line := false)]);
          IcsReject(s.xisr);
        }
      } else if s.xisr == 0 {
        IcpResend_(server);
      }
    }

    /** icp_set_mfrr */
    method IcpSetMfrr(server: nat, mfrr: nat)
      requires server < ss.Length
      modifies this, ss, irqs
      ensures View() == SetMfrr(old(View()), server, mfrr)
    {
      ss[server] := ss[server].(mfrr := mfrr);
      assert View() == old(View()).(ss := old(View()).ss[server := old(View()).ss[server].(mfrr := mfrr)]);
      if mfrr < ss[server].cppr {
        IcpCheckIpi(server);
      }
    }

    /** icp_accept, the body of h_xirr */
    method IcpAccept(server: nat) returns (xirr: nat)
      requires server < ss.Length
      modifies ss
      ensures View() == Accept(old(View()), server) && xirr == Xirr(old(View()).ss[server])
    {
      var s := ss[server];
      xirr := s.cppr * 0x100_0000 + s.xisr;
      ss[server] := s.(xisr := 0, cppr := s.pending, line := false);
      assert View().ss == Accept(old(View()), server).ss;
    }

    /** icp_eoi */
    method IcpEoi(server: nat, xirr: nat)
      requires Valid() && server < ss.Length && xirr < 0x1_0000_0000
      modifies this, ss, irqs
      ensures View() == Eoi(old(View()), server, xirr)
    {
      var s := ss[server];
      SetServer(View(), server, s.(cppr := xirr / 0x100_0000));
      ss[server] := s.(cppr := xirr / 0x100_0000);
      assert View() == old(View()).(ss := old(View()).ss[server := s.(cppr := xirr / 0x100_0000)]);
      if s.xisr == 0 {
        IcpResend_(server);
      }
    }

    /** kvm__irq_line and ics_set_irq_msi, which do not check the number */
    method IrqLine(irq: int, level: int)
      requires Valid()
      modifies this, ss, irqs
      ensures View() ==
              if level == 0 then old(View())
              else if SourceNr(old(View()), irq) then RaiseIrq(old(View()), irq - OFFSET)
              else old(View()).(fault := true)
    {
      if level != 0 {
        if !(OFFSET <= irq < OFFSET + irqs.Length) {
          fault := true;
          return;
        }
        var i: nat := irq - OFFSET;
        if irqs[i].priority == MASKED {
          irqs[i] := irqs[i].(maskedPending := true);
          assert View().irqs == RaiseIrq(old(View()), i).irqs;
        } else {
          IcpIrq_(irqs[i].server, i + OFFSET, irqs[i].priority);
        }
      }
    }

    /** ics_write_xive_msi */
    method IcsWriteXive(i: nat, server: nat, priority: nat)
      requires i < irqs.Length && server < ss.Length
      modifies this, ss, irqs
      ensures View() == WriteXive(old(View()), i, server, priority)
    {
      ghost var st := View();
      irqs[i] := irqs[i].(server := server, priority := priority);
      assert View() == st.(irqs := st.irqs[i := st.irqs[i].(server := server, priority := priority)]);
      if !irqs[i].maskedPending || priority == MASKED {
        return;
      }
      irqs[i] := irqs[i].(maskedPending := false);
      assert View() == st.(irqs := st.irqs[i := st.irqs[i].(server := server, priority := priority,
        maskedPending := false)]);
      IcpIrq_(server, i + OFFSET, priority);
    }

    // ------- the entry points, with their argument checks and truncations

    /** h_cppr: the argument is cut to 8 bits. */
    method HCpprCall(cpu: nat, arg: nat) returns (status: int)
      requires Valid() && cpu < ss.Length
      modifies this, ss, irqs
      ensures status == H_SUCCESS && View() == Do(old(View()), HCppr(cpu, arg % 256))
    {
      IcpSetCppr(cpu, arg % 256);
      status := H_SUCCESS;
    }

    /** h_ipi */
    method HIpiCall(server: nat, mfrr: nat) returns (status: int)
      requires Valid()
      modifies this, ss, irqs
      ensures status == if server < |old(View()).ss| then H_SUCCESS else H_PARAMETER
      ensures View() == if status == H_SUCCESS then Do(old(View()), HIpi(server, mfrr % 256)) else old(View())
    {
      if server >= ss.Length {
        return H_PARAMETER;
      }
      IcpSetMfrr(server, mfrr % 256);
      status := H_SUCCESS;
    }

    /** h_eoi: the argument is cut to 32 bits. */
    method HEoiCall(cpu: nat, arg: nat) returns (status: int)
      requires Valid() && cpu < ss.Length
      modifies this, ss, irqs
      ensures status == H_SUCCESS && View() == Do(old(View()), HEoi(cpu, arg % 0x1_0000_0000))
    {
      IcpEoi(cpu, arg % 0x1_0000_0000);
      status := H_SUCCESS;
    }

    /** rtas_set_xive */
    method RtasSetXive(nargs: nat, nret: nat, nr: nat, server: nat, priority: nat) returns (status: int)
      requires Valid()
      modifies this, ss, irqs
      ensures var st := old(View());
        && (status == RTAS_SUCCESS <==>
            nargs == 3 && nret == 1 && SourceNr(st, nr) && server < |st.ss| && priority <= 0xff)
        && View() == if status == RTAS_SUCCESS then Do(st, SetXive(nr - OFFSET, server, priority)) else st
    {
      if nargs != 3 || nret != 1 {
        return RTAS_PARAMETER;
      }
      if !(OFFSET <= nr < OFFSET + irqs.Length) || server >= ss.Length || priority > 0xff {
        return RTAS_PARAMETER;
      }
      IcsWriteXive(nr - OFFSET, server, priority);
      status := RTAS_SUCCESS;
    }
  }
}
