/** The stop-all-VCPUs handshake of kvm.c (kvm__pause, kvm__continue, kvm__notify_paused) and the signal
    handler of kvm-cpu.c, as a transition system with any number of VCPU threads and of other threads
    that pause and continue the machine. */
module Pause {

  /** Where a VCPU thread is; the line numbers are those of kvm-cpu.c and kvm.c. */
  datatype VcpuPc =
    | Guest        // running the guest, or anything else outside the handler
    | Entered      // kvm-cpu.c:58, the handler has been entered
    | Checked      // kvm-cpu.c:62
    | Notify       // kvm.c:806, about to write the eventfd
    | Blocked      // kvm.c:809, about to lock pause_lock
    | Locked       // kvm.c:810
    | Cleared      // kvm.c:811
    | Died         // kvm-cpu.c:59

  /** running: is_running is set and the thread exists; signalled: SIGKVMPAUSE is pending for the thread. */
  datatype Vcpu = Vcpu(pc: VcpuPc, running: bool, paused: bool, signalled: bool)

  /** A thread that calls kvm__pause and kvm__continue; counted is paused_vcpus. */
  datatype PauserPc =
    | Idle
    | Signalling(i: nat, counted: int)  // kvm.c:674
    | Reading(counted: int)             // kvm.c:681
    | Paused                            // kvm__pause has returned

  datatype Holder = Free | Vcpu_(v: nat) | Pauser(p: nat)

  /** lock is the holder of pause_lock, event the value of the eventfd, started whether the VCPU threads
      exist.  unwritten is history: the VCPUs that were signalled and have not written the eventfd. */
  datatype State = State(vcpu: seq<Vcpu>, pauser: seq<PauserPc>, lock: Holder, event: nat, started: bool,
    unwritten: set<int>)

  datatype Event =
    | PauseLock(p: nat) | SignalNext(p: nat) | ReadEvent(p: nat) | Continue(p: nat)
    | Deliver(v: nat) | Handler(v: nat)
    | Switch(v: nat)   // a VCPU starts or stops running, outside any pause

  predicate Enabled(s: State, e: Event) {
    match e
    case PauseLock(p) => p < |s.pauser| && s.pauser[p].Idle? && s.lock.Free?
    case SignalNext(p) => p < |s.pauser| && s.pauser[p].Signalling?
    case ReadEvent(p) => p < |s.pauser| && s.pauser[p].Reading? && (s.pauser[p].counted < |s.vcpu| ==> s.event > 0)
    case Continue(p) => p < |s.pauser| && s.pauser[p].Paused?
    case Deliver(v) => v < |s.vcpu| && s.vcpu[v].pc.Guest? && s.vcpu[v].signalled
    case Handler(v) =>
      v < |s.vcpu| && !s.vcpu[v].pc.Guest? && !s.vcpu[v].pc.Died? && (s.vcpu[v].pc.Blocked? ==> s.lock.Free?)
    case Switch(v) => v < |s.vcpu| && s.started && s.vcpu[v].pc.Guest? && !s.vcpu[v].signalled && !s.lock.Pauser?
  }

  function SetV(s: State, v: nat, x: Vcpu): State
    requires v < |s.vcpu|
  {
    s.(vcpu := s.vcpu[v := x])
  }

  function SetP(s: State, p: nat, x: PauserPc): State
    requires p < |s.pauser|
  {
    s.(pauser := s.pauser[p := x])
  }

  /** One statement of the signal handler or of kvm__notify_paused. */
  function HandlerStep(s: State, v: nat): State
    requires v < |s.vcpu|
  {
    var x := s.vcpu[v];
    match x.pc
    case Entered => SetV(s, v, x.(pc := if x.paused then Died else Checked))
    case Checked => SetV(s, v, x.(pc := Notify, paused := true))
    case Notify => SetV(s, v, x.(pc := Blocked)).(event := s.event + 1, unwritten := s.unwritten - {v})
    case Blocked => SetV(s, v, x.(pc := Locked)).(lock := Vcpu_(v))
    case Locked => SetV(s, v, x.(pc := Cleared, paused := false))
    case Cleared => SetV(s, v, x.(pc := Guest)).(lock := Free)
    case _ => s
  }

  function Next(s: State, e: Event): State
    requires Enabled(s, e)
  {
    match e
    case PauseLock(p) =>
      var s1 := s.(lock := Pauser(p));
      if !s.started then SetP(s1, p, Paused) else SetP(s1, p, Signalling(0, 0)).(event := 0)
    case SignalNext(p) =>
      var i, n := s.pauser[p].i, s.pauser[p].counted;
      if i >= |s.vcpu| then SetP(s, p, Reading(n))
      else if s.vcpu[i].running && !s.vcpu[i].paused then
        SetP(SetV(s, i, s.vcpu[i].(signalled := true)), p, Signalling(i + 1, n)).(unwritten := s.unwritten + {i})
      else SetP(s, p, Signalling(i + 1, n + 1))
    case ReadEvent(p) =>
      if s.pauser[p].counted >= |s.vcpu| then SetP(s, p, Paused)
      else SetP(s, p, Reading(s.pauser[p].counted + s.event)).(event := 0)
    case Continue(p) => SetP(s, p, Idle).(lock := Free)
    case Deliver(v) => SetV(s, v, s.vcpu[v].(pc := Entered, signalled := false))
    case Handler(v) => HandlerStep(s, v)
    case Switch(v) => SetV(s, v, s.vcpu[v].(running := !s.vcpu[v].running))
  }

  // ---------------------------------------------------------------- the invariant

  /** The signal is on its way or the handler has not reached the write. */
  predicate Unwritten(x: Vcpu) { x.signalled || x.pc.Entered? || x.pc.Checked? || x.pc.Notify? }

  /** What holds of every VCPU at all times. */
  predicate VcpuOk(s: State, v: nat)
    requires v < |s.vcpu|
  {
    var x := s.vcpu[v];
    && !x.pc.Died?
    && (x.paused <==> x.pc.Notify? || x.pc.Blocked? || x.pc.Locked?)
    && (x.signalled ==> x.pc.Guest?)
    && (x.signalled || !x.pc.Guest? ==> x.running)
    && (x.running ==> s.started)
    && (s.lock == Vcpu_(v) <==> x.pc.Locked? || x.pc.Cleared?)
    && (v in s.unwritten <==> Unwritten(x))
  }

  predicate HoldsLock(x: PauserPc) { !x.Idle? }

  /** The pauser in charge has accounted for every VCPU it has looked at; the eventfd count is exact. */
  predicate InCharge(s: State, p: nat)
    requires p < |s.pauser|
  {
    match s.pauser[p]
    case Idle => true
    case Signalling(i, n) =>
      && i <= |s.vcpu| && n + s.event + |s.unwritten| == i
      && (forall v | v in s.unwritten :: 0 <= v < i)
      && (forall v | 0 <= v < i && s.vcpu[v].running :: v in s.unwritten || s.vcpu[v].pc.Blocked?)
    case Reading(n) =>
      && n + s.event + |s.unwritten| == |s.vcpu|
      && (forall v | v in s.unwritten :: 0 <= v < |s.vcpu|)
      && (forall v | 0 <= v < |s.vcpu| && s.vcpu[v].running :: v in s.unwritten || s.vcpu[v].pc.Blocked?)
    case Paused =>
      && s.unwritten == {} && (s.started ==> s.event == 0)
      && (forall v | 0 <= v < |s.vcpu| && s.vcpu[v].running :: s.vcpu[v].pc.Blocked?)
  }

  ghost predicate Inv(s: State) {
    && (forall v | 0 <= v < |s.vcpu| :: VcpuOk(s, v))
    && (s.lock.Vcpu_? ==> s.lock.v < |s.vcpu|)
    && (s.lock.Pauser? ==> s.lock.p < |s.pauser|)
    && (forall p | 0 <= p < |s.pauser| :: (HoldsLock(s.pauser[p]) <==> s.lock == Pauser(p)) && InCharge(s, p))
    && (!s.lock.Pauser? ==> s.unwritten == {})
    && (forall v | v in s.unwritten :: 0 <= v < |s.vcpu|)
  }

  lemma {:induction false} DeliverInv(s: State, v: nat)
    requires Inv(s) && Enabled(s, Deliver(v))
    ensures Inv(Next(s, Deliver(v)))
  {
    var s' := Next(s, Deliver(v));
    forall u | 0 <= u < |s'.vcpu|
      ensures VcpuOk(s', u)
    {
      assert VcpuOk(s, u);
    }
    forall q | 0 <= q < |s'.pauser|
      ensures (HoldsLock(s'.pauser[q]) <==> s'.lock == Pauser(q)) && InCharge(s', q)
    {
      assert InCharge(s, q) && (HoldsLock(s.pauser[q]) <==> s.lock == Pauser(q));
    }
  }

  lemma {:induction false} SwitchInv(s: State, v: nat)
    requires Inv(s) && Enabled(s, Switch(v))
    ensures Inv(Next(s, Switch(v)))
  {
    var s' := Next(s, Switch(v));
    forall u | 0 <= u < |s'.vcpu|
      ensures VcpuOk(s', u)
    {
      assert VcpuOk(s, u);
    }
    forall q | 0 <= q < |s'.pauser|
      ensures (HoldsLock(s'.pauser[q]) <==> s'.lock == Pauser(q)) && InCharge(s', q)
    {
      assert InCharge(s, q) && (HoldsLock(s.pauser[q]) <==> s.lock == Pauser(q));
    }
  }

  lemma {:induction false} ContinueInv(s: State, p: nat)
    requires Inv(s) && Enabled(s, Continue(p))
    ensures Inv(Next(s, Continue(p)))
  {
    var s' := Next(s, Continue(p));
    assert InCharge(s, p);
    forall u | 0 <= u < |s'.vcpu|
      ensures VcpuOk(s', u)
    {
      assert VcpuOk(s, u);
    }
    forall q | 0 <= q < |s'.pauser|
      ensures (HoldsLock(s'.pauser[q]) <==> s'.lock == Pauser(q)) && InCharge(s', q)
    {
      assert InCharge(s, q) && (HoldsLock(s.pauser[q]) <==> s.lock == Pauser(q));
    }
  }

  lemma {:induction false} LockInv(s: State, p: nat)
    requires Inv(s) && Enabled(s, PauseLock(p))
    ensures Inv(Next(s, PauseLock(p)))
  {
    var s' := Next(s, PauseLock(p));
    assert InCharge(s, p);
    forall u | 0 <= u < |s.vcpu|
      ensures s.vcpu[u].running ==> s.started
    {
      assert VcpuOk(s, u);
    }
    forall u | 0 <= u < |s'.vcpu|
      ensures VcpuOk(s', u)
    {
      assert VcpuOk(s, u);
    }
    forall q | 0 <= q < |s'.pauser|
      ensures (HoldsLock(s'.pauser[q]) <==> s'.lock == Pauser(q)) && InCharge(s', q)
    {
      assert InCharge(s, q) && (HoldsLock(s.pauser[q]) <==> s.lock == Pauser(q));
    }
  }

  lemma {:induction false} ReadInv(s: State, p: nat)
    requires Inv(s) && Enabled(s, ReadEvent(p))
    ensures Inv(Next(s, ReadEvent(p)))
  {
    var s' := Next(s, ReadEvent(p));
    assert InCharge(s, p);
    forall u | 0 <= u < |s'.vcpu|
      ensures VcpuOk(s', u)
    {
      assert VcpuOk(s, u);
    }
    forall q | 0 <= q < |s'.pauser|
      ensures (HoldsLock(s'.pauser[q]) <==> s'.lock == Pauser(q)) && InCharge(s', q)
    {
      assert InCharge(s, q) && (HoldsLock(s.pauser[q]) <==> s.lock == Pauser(q));
    }
  }

  lemma {:induction false} SignalInv(s: State, p: nat)
    requires Inv(s) && Enabled(s, SignalNext(p))
    ensures Inv(Next(s, SignalNext(p)))
  {
    var s' := Next(s, SignalNext(p));
    assert InCharge(s, p);
    var i := s.pauser[p].i;
    assert i < |s.vcpu| ==> VcpuOk(s, i);
    forall u | 0 <= u < |s'.vcpu|
      ensures VcpuOk(s', u)
    {
      assert VcpuOk(s, u);
    }
    forall q | 0 <= q < |s'.pauser|
      ensures (HoldsLock(s'.pauser[q]) <==> s'.lock == Pauser(q)) && InCharge(s', q)
    {
      assert InCharge(s, q) && (HoldsLock(s.pauser[q]) <==> s.lock == Pauser(q));
    }
  }

  lemma {:induction false} HandlerInv(s: State, v: nat)
    requires Inv(s) && Enabled(s, Handler(v))
    ensures Inv(Next(s, Handler(v)))
  {
    var s' := Next(s, Handler(v));
    assert VcpuOk(s, v);
    forall u | 0 <= u < |s'.vcpu|
      ensures VcpuOk(s', u)
    {
      assert VcpuOk(s, u);
    }
    forall q | 0 <= q < |s'.pauser|
      ensures (HoldsLock(s'.pauser[q]) <==> s'.lock == Pauser(q)) && InCharge(s', q)
    {
      assert InCharge(s, q) && (HoldsLock(s.pauser[q]) <==> s.lock == Pauser(q));
    }
  }

  lemma {:induction false} NextInv(s: State, e: Event)
    requires Inv(s) && Enabled(s, e)
    ensures Inv(Next(s, e))
  {
    match e
    case PauseLock(p) => LockInv(s, p);
    case SignalNext(p) => SignalInv(s, p);
    case ReadEvent(p) => ReadInv(s, p);
    case Continue(p) => ContinueInv(s, p);
    case Deliver(v) => DeliverInv(s, v);
    case Handler(v) => HandlerInv(s, v);
    case Switch(v) => SwitchInv(s, v);
  }

  // ---------------------------------------------------------------- whole runs

  /** No pause in progress: every VCPU is in the guest or stopped. */
  ghost predicate Initial(s: State) {
    && s.lock.Free? && s.unwritten == {}
    && (forall v | 0 <= v < |s.vcpu| ::
        s.vcpu[v].pc.Guest? && !s.vcpu[v].paused && !s.vcpu[v].signalled && (s.vcpu[v].running ==> s.started))
    && (forall p | 0 <= p < |s.pauser| :: s.pauser[p].Idle?)
  }

  ghost predicate Follows(s: State, s': State) { exists e :: Enabled(s, e) && Next(s, e) == s' }

  ghost predicate Behaviour(b: seq<State>) {
    |b| > 0 && Initial(b[0]) && forall i | 0 <= i < |b| - 1 :: Follows(b[i], b[i + 1])
  }

  lemma {:induction false} BehaviourInv(b: seq<State>, k: nat)
    requires Behaviour(b) && k < |b|
    ensures Inv(b[k])
  {
    if k == 0 {
    } else {
      BehaviourInv(b, k - 1);
      assert Follows(b[k - 1], b[(k - 1) + 1]);
      var e :| Enabled(b[k - 1], e) && Next(b[k - 1], e) == b[k];
      NextInv(b[k - 1], e);
    }
  }

  /** When kvm__pause has returned every running VCPU is blocked inside kvm__notify_paused. */
  lemma {:induction false} PausedMeansStopped(b: seq<State>, k: nat, p: nat, v: nat)
    requires Behaviour(b) && k < |b| && p < |b[k].pauser| && b[k].pauser[p].Paused?
    requires v < |b[k].vcpu| && b[k].vcpu[v].running
    ensures b[k].vcpu[v].pc.Blocked? && b[k].vcpu[v].paused
    ensures forall e | Enabled(b[k], e) ::
              !(e.Deliver? && e.v == v) && !(e.Handler? && e.v == v) && !(e.Switch? && e.v == v)
  {
    BehaviourInv(b, k);
    var s := b[k];
    assert InCharge(s, p) && VcpuOk(s, v) && (HoldsLock(s.pauser[p]) <==> s.lock == Pauser(p));
  }

  lemma {:induction false} PausedStep(s: State, e: Event, p: nat, v: nat)
    requires Inv(s) && Enabled(s, e) && p < |s.pauser| && s.pauser[p].Paused? && v < |s.vcpu| && s.vcpu[v].running
    ensures |Next(s, e).vcpu| == |s.vcpu| && Next(s, e).vcpu[v] == s.vcpu[v]
  {
    assert InCharge(s, p) && VcpuOk(s, v) && (HoldsLock(s.pauser[p]) <==> s.lock == Pauser(p));
  }

  lemma {:induction false} SameVcpus(s: State, e: Event)
    requires Enabled(s, e)
    ensures |Next(s, e).vcpu| == |s.vcpu|
  {
  }

  /** It stays there until kvm__continue: as long as the same thread keeps the machine paused, no running
      VCPU changes at all. */
  lemma {:induction false} StaysStopped(b: seq<State>, k: nat, m: nat, p: nat, v: nat)
    requires Behaviour(b) && k <= m < |b| && v < |b[k].vcpu| && b[k].vcpu[v].running
    requires forall i | k <= i <= m :: p < |b[i].pauser| && b[i].pauser[p].Paused?
    ensures |b[m].vcpu| == |b[k].vcpu| && b[m].vcpu[v] == b[k].vcpu[v]
    decreases m - k
  {
    hide Inv, Enabled, Next, Initial;
    if k < m {
      StaysStopped(b, k, m - 1, p, v);
      BehaviourInv(b, m - 1);
      assert Follows(b[m - 1], b[(m - 1) + 1]);
      var e :| Enabled(b[m - 1], e) && Next(b[m - 1], e) == b[m];
      SameVcpus(b[m - 1], e);
      PausedStep(b[m - 1], e, p, v);
    }
  }

  /** A pause is never signalled to a VCPU that is already paused. */
  lemma {:induction false} NobodyDies(b: seq<State>, k: nat, v: nat)
    requires Behaviour(b) && k < |b| && v < |b[k].vcpu|
    ensures !b[k].vcpu[v].pc.Died?
  {
    BehaviourInv(b, k);
    assert VcpuOk(b[k], v);
  }

  /** While a pauser reads, what it has counted, what the eventfd holds and what has not been written yet
      add up to the number of VCPUs. */
  lemma {:induction false} EventCountExact(b: seq<State>, k: nat, p: nat)
    requires Behaviour(b) && k < |b| && p < |b[k].pauser| && b[k].pauser[p].Reading?
    ensures b[k].pauser[p].counted + b[k].event + |b[k].unwritten| == |b[k].vcpu|
    ensures b[k].pauser[p].counted <= |b[k].vcpu|
  {
    BehaviourInv(b, k);
    assert InCharge(b[k], p);
  }

  // ---------------------------------------------------------------- nothing gets stuck

  /** kvm__continue: pause_lock is free again, its caller is done, and every VCPU that waits in kvm__notify_paused can
      go on. */
  lemma {:induction false} ContinueReleases(s: State, p: nat)
    requires Inv(s) && Enabled(s, Continue(p))
    ensures var s' := Next(s, Continue(p));
            && s'.lock.Free? && s'.pauser == s.pauser[p := Idle] && s'.vcpu == s.vcpu
            && (forall v | 0 <= v < |s'.vcpu| && s'.vcpu[v].pc.Blocked? :: Enabled(s', Handler(v)))
            && forall q | 0 <= q < |s'.pauser| :: s'.pauser[q].Idle?
  {
    assert s.lock == Pauser(p);
    forall q | 0 <= q < |s.pauser| && q != p
      ensures s.pauser[q].Idle?
    {
      assert HoldsLock(s.pauser[q]) <==> s.lock == Pauser(q);
    }
  }

  /** How far a VCPU is from the write to the eventfd, and from the guest. */
  function ToWrite(x: Vcpu): nat {
    if x.signalled then 4 else match x.pc case Entered => 3 case Checked => 2 case Notify => 1 case _ => 0
  }

  function ToGuest(x: Vcpu): nat {
    match x.pc case Blocked => 3 case Locked => 2 case Cleared => 1 case _ => 0
  }

  function SumWrite(vs: seq<Vcpu>): nat { if vs == [] then 0 else ToWrite(vs[0]) + SumWrite(vs[1..]) }

  function SumGuest(vs: seq<Vcpu>): nat { if vs == [] then 0 else ToGuest(vs[0]) + SumGuest(vs[1..]) }

  lemma {:induction false} SumUpdate(vs: seq<Vcpu>, v: nat, x: Vcpu)
    requires v < |vs|
    ensures SumWrite(vs[v := x]) + ToWrite(vs[v]) == SumWrite(vs) + ToWrite(x)
    ensures SumGuest(vs[v := x]) + ToGuest(vs[v]) == SumGuest(vs) + ToGuest(x)
  {
    if v == 0 {
      assert vs[v := x][1..] == vs[1..];
    } else {
      SumUpdate(vs[1..], v - 1, x);
      assert vs[v := x][1..] == vs[1..][v - 1 := x];
    }
  }

  lemma {:induction false} SumZero(vs: seq<Vcpu>)
    ensures SumGuest(vs) == 0 <==> forall v | 0 <= v < |vs| :: ToGuest(vs[v]) == 0
  {
    if vs != [] {
      SumZero(vs[1..]);
      assert forall v | 0 < v < |vs| :: vs[v] == vs[1..][v - 1];
    }
  }

  predicate Pausing(x: PauserPc) { x.Signalling? || x.Reading? }

  /** How far pauser p is from the end of kvm__pause. */
  function Distance(s: State, p: nat): int
    requires p < |s.pauser|
  {
    match s.pauser[p]
    case Signalling(i, n) => 6 * (|s.vcpu| - i) + SumWrite(s.vcpu) + 2 * (|s.vcpu| - n) + 2
    case Reading(n) => SumWrite(s.vcpu) + 2 * (|s.vcpu| - n) + 1
    case _ => 0
  }

  lemma {:induction false} DistanceBound(s: State, p: nat)
    requires Inv(s) && p < |s.pauser| && Pausing(s.pauser[p])
    ensures Distance(s, p) > 0
  {
    assert InCharge(s, p);
  }

  /** What a VCPU that has not written the eventfd does next. */
  function NextWrite(x: Vcpu, v: nat): Event { if x.signalled then Deliver(v) else Handler(v) }

  lemma {:induction false} WriteProgress(s: State, v: nat)
    requires Inv(s) && v in s.unwritten
    ensures v < |s.vcpu| && Enabled(s, NextWrite(s.vcpu[v], v))
    ensures var s' := Next(s, NextWrite(s.vcpu[v], v));
            s'.pauser == s.pauser && |s'.vcpu| == |s.vcpu| && SumWrite(s'.vcpu) < SumWrite(s.vcpu)
  {
    assert VcpuOk(s, v);
    var s' := Next(s, NextWrite(s.vcpu[v], v));
    SumUpdate(s.vcpu, v, s'.vcpu[v]);
  }

  lemma {:induction false} Member<T>(S: set<T>) returns (v: T)
    requires |S| > 0
    ensures v in S
  {
    v :| v in S;
  }

  /** While a pauser is inside kvm__pause, it or a VCPU that it waits for has a step that brings it closer to the
      end. */
  lemma {:induction false} PauseProgress(s: State, p: nat) returns (e: Event)
    requires Inv(s) && p < |s.pauser| && Pausing(s.pauser[p])
    ensures Enabled(s, e)
    ensures var s' := Next(s, e);
            |s'.pauser| == |s.pauser| && !s'.pauser[p].Idle? && Distance(s', p) < Distance(s, p)
  {
    assert InCharge(s, p);
    if s.pauser[p].Signalling? {
      e := SignalNext(p);
      var i := s.pauser[p].i;
      if i < |s.vcpu| {
        SumUpdate(s.vcpu, i, s.vcpu[i].(signalled := true));
      }
    } else if s.pauser[p].counted >= |s.vcpu| || s.event > 0 {
      e := ReadEvent(p);
    } else {
      var v := Member(s.unwritten);
      WriteProgress(s, v);
      e := NextWrite(s.vcpu[v], v);
    }
  }

  /** A stretch of a run, from s to s'. */
  ghost predicate Leads(s: State, b: seq<State>, s': State) {
    |b| > 0 && b[0] == s && b[|b| - 1] == s' && forall i | 0 <= i < |b| - 1 :: Follows(b[i], b[i + 1])
  }

  lemma {:induction false} LeadsStep(s: State, e: Event, b: seq<State>, s': State)
    requires Enabled(s, e) && Leads(Next(s, e), b, s')
    ensures Leads(s, [s] + b, s')
  {
    var c := [s] + b;
    forall i | 0 <= i < |c| - 1
      ensures Follows(c[i], c[i + 1])
    {
      if i > 0 {
        assert c[i] == b[i - 1] && c[i + 1] == b[(i - 1) + 1];
      }
    }
  }

  /** From every state in which kvm__pause is under way it can return: the handshake has no deadlock of its own. */
  lemma {:induction false} PauseCompletes(s: State, p: nat) returns (b: seq<State>, s': State)
    requires Inv(s) && p < |s.pauser| && !s.pauser[p].Idle?
    ensures Leads(s, b, s') && Inv(s') && p < |s'.pauser| && s'.pauser[p].Paused?
    decreases if Pausing(s.pauser[p]) then Distance(s, p) else 0
  {
    hide Inv, Next, Enabled, Follows, Distance;
    if s.pauser[p].Paused? {
      b, s' := [s], s;
    } else {
      var e := PauseProgress(s, p);
      NextInv(s, e);
      DistanceBound(s, p);
      if Pausing(Next(s, e).pauser[p]) {
        DistanceBound(Next(s, e), p);
      }
      b, s' := PauseCompletes(Next(s, e), p);
      LeadsStep(s, e, b, s');
      b := [s] + b;
    }
  }

  /** While no pauser holds the lock, some VCPU in kvm__notify_paused has a step towards the guest. */
  lemma {:induction false} ReturnProgress(s: State) returns (v: nat)
    requires Inv(s) && !s.lock.Pauser? && SumGuest(s.vcpu) > 0
    ensures Enabled(s, Handler(v))
    ensures var s' := Next(s, Handler(v)); !s'.lock.Pauser? && SumGuest(s'.vcpu) < SumGuest(s.vcpu)
  {
    SumZero(s.vcpu);
    if s.lock.Vcpu_? {
      v := s.lock.v;
    } else {
      v :| v < |s.vcpu| && ToGuest(s.vcpu[v]) > 0;
    }
    assert VcpuOk(s, v);
    SumUpdate(s.vcpu, v, Next(s, Handler(v)).vcpu[v]);
  }

  /** From every state in which no pauser holds the lock, in particular after kvm__continue, all VCPUs can return to
      the guest. */
  lemma {:induction false} AllReturn(s: State) returns (b: seq<State>, s': State)
    requires Inv(s) && !s.lock.Pauser?
    ensures Leads(s, b, s') && forall v | 0 <= v < |s'.vcpu| :: s'.vcpu[v].pc.Guest? && !s'.vcpu[v].paused
    decreases SumGuest(s.vcpu)
  {
    hide Next, Enabled, Follows;
    SumZero(s.vcpu);
    if SumGuest(s.vcpu) == 0 {
      b, s' := [s], s;
      forall v | 0 <= v < |s.vcpu|
        ensures s.vcpu[v].pc.Guest? && !s.vcpu[v].paused
      {
        assert VcpuOk(s, v) && v !in s.unwritten;
      }
    } else {
      var v := ReturnProgress(s);
      NextInv(s, Handler(v));
      b, s' := AllReturn(Next(s, Handler(v)));
      LeadsStep(s, Handler(v), b, s');
      b := [s] + b;
    }
  }
}
