/** The fork hooks: the priority lists of util/init.c, the lock hooks of hw/serial.c, util/threadpool.c and
    kvm-ipc.c, and the fork path of kvm.c and kvm-ipc.c that runs them with pause_lock held. */
module ForkHooks {
  import opened Sequences

  datatype Lock = PauseLock | JobMutex | ThreadMutex | ForkMutex | Device(i: nat)

  datatype Act = Take(l: Lock) | Give(l: Lock)

  /** struct copy_item: what the hook does to locks, and what it returns. */
  datatype Hook = Hook(acts: seq<Act>, result: int)

  // ---------------------------------------------------------------- the lists of util/init.c

  const PRIORITY_LISTS: nat := 10

  function Flatten(lists: seq<seq<Hook>>): seq<Hook> {
    if lists == [] then [] else Flatten(lists[..|lists| - 1]) + lists[|lists| - 1]
  }

  /** The lock operations of a run over hs: up to and including the first hook that fails. */
  function Executed(hs: seq<Hook>): seq<Act> {
    if hs == [] then [] else if hs[0].result < 0 then hs[0].acts else hs[0].acts + Executed(hs[1..])
  }

  /** What the run returns: the first failure, or the result of the last hook. */
  function Result(hs: seq<Hook>): int {
    if hs == [] then 0 else if hs[0].result < 0 || |hs| == 1 then hs[0].result else Result(hs[1..])
  }

  predicate AllSucceed(hs: seq<Hook>) { forall i | 0 <= i < |hs| :: hs[i].result >= 0 }

  function Acts(hs: seq<Hook>): seq<Act> {
    if hs == [] then [] else hs[0].acts + Acts(hs[1..])
  }

  /** A run succeeds exactly when every hook does, and then all of them have run. */
  lemma {:induction false} RunOutcome(hs: seq<Hook>)
    ensures Result(hs) >= 0 <==> AllSucceed(hs)
    ensures AllSucceed(hs) ==> Executed(hs) == Acts(hs)
  {
    if hs != [] {
      RunOutcome(hs[1..]);
      assert AllSucceed(hs) <==> hs[0].result >= 0 && AllSucceed(hs[1..]) by {
        assert forall i | 0 < i < |hs| :: hs[i] == hs[1..][i - 1];
      }
    }
  }

  lemma {:induction false} ExecutedAppend(a: seq<Hook>, b: seq<Hook>)
    ensures AllSucceed(a) ==> Executed(a + b) == Acts(a) + Executed(b)
    ensures !AllSucceed(a) ==> Executed(a + b) == Executed(a) && Result(a + b) == Result(a)
    ensures AllSucceed(a) ==> Result(a + b) == if b == [] then Result(a) else Result(b)
  {
    if a == [] {
      assert a + b == b;
    } else {
      ExecutedAppend(a[1..], b);
      assert (a + b)[1..] == a[1..] + b;
      assert AllSucceed(a) <==> a[0].result >= 0 && AllSucceed(a[1..]) by {
        assert forall i | 0 < i < |a| :: a[i] == a[1..][i - 1];
      }
      assert b == [] ==> a + b == a;
      Associative(a[0].acts, Acts(a[1..]), Executed(b));
    }
  }

  /** A run that fails ends with the first hook that does, and returns what that returned. */
  lemma {:induction false} RunStops(hs: seq<Hook>, f: nat)
    requires f < |hs| && hs[f].result < 0 && forall i | 0 <= i < f :: hs[i].result >= 0
    ensures Executed(hs) == Acts(hs[..f]) + hs[f].acts && Result(hs) == hs[f].result
  {
    assert AllSucceed(hs[..f]);
    ExecutedAppend(hs[..f], hs[f..]);
    assert hs[..f] + hs[f..] == hs;
    assert hs[f..][0] == hs[f];
  }

  /** How many hooks come before those of level p. */
  function Before(lists: seq<seq<Hook>>, p: nat): nat
    requires p <= |lists|
  {
    if p == 0 then 0 else Before(lists, p - 1) + |lists[p - 1]|
  }

  /** Hooks run level by level, lower numbers first, and within a level from the head of its list. */
  lemma {:induction false} FlattenAt(lists: seq<seq<Hook>>, p: nat, k: nat)
    requires p < |lists| && k < |lists[p]|
    ensures Before(lists, p) + k < |Flatten(lists)| && Flatten(lists)[Before(lists, p) + k] == lists[p][k]
  {
    var n := |lists| - 1;
    FlattenLength(lists, n);
    if p < n {
      FlattenAt(lists[..n], p, k);
      BeforePrefix(lists, n, p);
    }
  }

  lemma {:induction false} BeforePrefix(lists: seq<seq<Hook>>, n: nat, p: nat)
    requires p <= n <= |lists|
    ensures Before(lists[..n], p) == Before(lists, p)
  {
    if p > 0 {
      BeforePrefix(lists, n, p - 1);
    }
  }

  lemma {:induction false} FlattenLength(lists: seq<seq<Hook>>, n: nat)
    requires n <= |lists|
    ensures |Flatten(lists[..n])| == Before(lists, n)
  {
    if n > 0 {
      FlattenLength(lists, n - 1);
      assert lists[..n][..n - 1] == lists[..n - 1];
    }
  }

  /** pre_copy_lists, post_copy_lists or post_copy_parent_lists. */
  class HookLists {
    var lists: seq<seq<Hook>>

    ghost predicate Valid()
      reads this
    {
      |lists| == PRIORITY_LISTS
    }

    constructor ()
      ensures Valid() && Flatten(lists) == []
    {
      lists := seq(PRIORITY_LISTS, _ => []);
      new;
      EmptyFlatten(lists);
    }

    /** pre_copy_list_add and its siblings: insertion at the head of the level's list. */
    method Add(h: Hook, priority: nat)
      requires Valid() && priority < PRIORITY_LISTS
      modifies this
      ensures Valid()
      ensures lists[priority] == [h] + old(lists)[priority]
      ensures forall p | 0 <= p < PRIORITY_LISTS && p != priority :: lists[p] == old(lists)[p]
    {
      lists := lists[priority := [h] + lists[priority]];
    }

    /** init_list__pre_copy and its siblings; log is what the hooks did to locks. */
    method Run() returns (r: int, log: seq<Act>)
      requires Valid()
      ensures r == Result(Flatten(lists)) && log == Executed(Flatten(lists))
    {
      hide Executed, Result, Acts, AllSucceed, Flatten;
      r, log := 0, [];
      EmptyRun();
      var i := 0;
      assert lists[..0] == [];
      while i < PRIORITY_LISTS
        invariant 0 <= i <= PRIORITY_LISTS
        invariant AllSucceed(Flatten(lists[..i])) && log == Acts(Flatten(lists[..i]))
            && r == Result(Flatten(lists[..i]))
      {
        ghost var before := Flatten(lists[..i]);
        FlattenNext(lists, i);
        var k := 0;
        assert before + lists[i][..k] == before;
        while k < |lists[i]|
          invariant 0 <= k <= |lists[i]|
          invariant AllSucceed(before + lists[i][..k]) && log == Acts(before + lists[i][..k])
              && r == Result(before + lists[i][..k])
        {
          ghost var done := before + lists[i][..k];
          var t := lists[i][k];
          assert before + lists[i][..k + 1] == done + [t];
          log := log + t.acts;
          r := t.result;
          if r < 0 {
            RunFails(lists, i, k);
            return;
          }
          RunGoesOn(done, t);
          k := k + 1;
        }
        assert lists[i][..k] == lists[i];
        i := i + 1;
      }
      assert lists[..i] == lists;
      RunOutcome(Flatten(lists));
    }
  }

  lemma {:induction false} EmptyRun()
    ensures Flatten([]) == [] && AllSucceed([]) && Acts([]) == [] && Result([]) == 0
  {
  }

  lemma {:induction false} FlattenNext(lists: seq<seq<Hook>>, i: nat)
    requires i < |lists|
    ensures Flatten(lists[..i + 1]) == Flatten(lists[..i]) + lists[i]
  {
    assert lists[..i + 1][..i] == lists[..i];
  }

  lemma {:induction false} RunGoesOn(done: seq<Hook>, t: Hook)
    requires AllSucceed(done) && t.result >= 0
    ensures AllSucceed(done + [t]) && Acts(done + [t]) == Acts(done) + t.acts && Result(done + [t]) == t.result
  {
    ActsAppend(done, [t]);
    ExecutedAppend(done, [t]);
    assert Acts([t]) == t.acts;
  }

  lemma {:induction false} RunFails(lists: seq<seq<Hook>>, i: nat, k: nat)
    requires i < |lists| && k < |lists[i]| && AllSucceed(Flatten(lists[..i]) + lists[i][..k]) && lists[i][k].result < 0
    ensures Result(Flatten(lists)) == lists[i][k].result
    ensures Executed(Flatten(lists)) == Acts(Flatten(lists[..i]) + lists[i][..k]) + lists[i][k].acts
  {
    var done, t := Flatten(lists[..i]) + lists[i][..k], lists[i][k];
    FlattenPrefix(lists, i, k);
    var rest :| Flatten(lists) == done + [t] + rest;
    ExecutedAppend(done + [t], rest);
    ExecutedAppend(done, [t]);
    assert (done + [t])[|done|] == t;
    assert Executed([t]) == t.acts;
  }

  lemma {:induction false} EmptyFlatten(lists: seq<seq<Hook>>)
    requires forall i | 0 <= i < |lists| :: lists[i] == []
    ensures Flatten(lists) == []
  {
    if lists != [] {
      EmptyFlatten(lists[..|lists| - 1]);
    }
  }

  lemma {:induction false} ActsAppend(a: seq<Hook>, b: seq<Hook>)
    ensures Acts(a + b) == Acts(a) + Acts(b)
  {
    hide Acts;
    if a == [] {
      assert a + b == b;
      EmptyRun();
    } else {
      ActsAppend(a[1..], b);
      assert (a + b)[1..] == a[1..] + b;
      ActsFirst(a);
      ActsFirst(a + b);
      Associative(a[0].acts, Acts(a[1..]), Acts(b));
    }
  }

  lemma {:induction false} ActsFirst(hs: seq<Hook>)
    requires hs != []
    ensures Acts(hs) == hs[0].acts + Acts(hs[1..])
  {
  }

  /** What has been run when list i has got to k is a prefix of the whole. */
  lemma {:induction false} FlattenPrefix(lists: seq<seq<Hook>>, i: nat, k: nat)
    requires i < |lists| && k < |lists[i]|
    ensures exists rest :: Flatten(lists) == Flatten(lists[..i]) + lists[i][..k] + [lists[i][k]] + rest
    decreases |lists|
  {
    var last := |lists| - 1;
    if i == last {
      var rest := lists[i][k + 1..];
      assert lists[i] == lists[i][..k] + [lists[i][k]] + rest;
      assert Flatten(lists) == Flatten(lists[..i]) + lists[i][..k] + [lists[i][k]] + rest;
    } else {
      FlattenPrefix(lists[..last], i, k);
      assert lists[..last][..i] == lists[..i];
      var rest :| Flatten(lists[..last]) == Flatten(lists[..i]) + lists[i][..k] + [lists[i][k]] + rest;
      assert Flatten(lists) == Flatten(lists[..i]) + lists[i][..k] + [lists[i][k]] + (rest + lists[last]);
    }
  }

  // ---------------------------------------------------------------- locks

  datatype Outcome = Stuck | Holds(held: set<Lock>)

  /** A thread's locks after acts.  Taking a lock it already holds blocks it for good, and so does, in this
      model, giving back a lock it does not hold. */
  function Exec(held: set<Lock>, acts: seq<Act>): Outcome
    decreases |acts|
  {
    if acts == [] then Holds(held)
    else if acts[0].Take? then
      if acts[0].l in held then Stuck else Exec(held + {acts[0].l}, acts[1..])
    else
      if acts[0].l !in held then Stuck else Exec(held - {acts[0].l}, acts[1..])
  }

  lemma {:induction false} ExecAppend(held: set<Lock>, a: seq<Act>, b: seq<Act>)
    ensures Exec(held, a + b) == match Exec(held, a) case Stuck => Stuck case Holds(h) => Exec(h, b)
    decreases |a|
  {
    if a == [] {
      assert a + b == b;
    } else {
      assert (a + b)[1..] == a[1..] + b;
      if a[0].Take? {
        ExecAppend(held + {a[0].l}, a[1..], b);
      } else {
        ExecAppend(held - {a[0].l}, a[1..], b);
      }
    }
  }

  /** acts takes exactly the locks of F, whatever else is held. */
  ghost predicate Takes(acts: seq<Act>, F: set<Lock>) {
    forall held: set<Lock> | held !! F :: Exec(held, acts) == Holds(held + F)
  }

  /** acts gives back exactly the locks of F. */
  ghost predicate Gives(acts: seq<Act>, F: set<Lock>) {
    forall held: set<Lock> | held !! F :: Exec(held + F, acts) == Holds(held)
  }

  // ------- the hooks

  /** Hooks by owner; Other stands for every hook that touches none of these locks. */
  datatype Owner = Serial | Pool | Ipc | Other(k: nat)

  /** serial8250__pre_copy over n devices, from device i. */
  function TakeDevices(i: nat, n: nat): seq<Act>
    requires i <= n
    decreases n - i
  {
    if i == n then [] else [Take(Device(i))] + TakeDevices(i + 1, n)
  }

  function GiveDevices(i: nat, n: nat): seq<Act>
    requires i <= n
    decreases n - i
  {
    if i == n then [] else [Give(Device(i))] + GiveDevices(i + 1, n)
  }

  /** serial8250__pre_copy, thread_pool__pre_copy, fork_pre_fork */
  function PreActs(o: Owner, n: nat): seq<Act> {
    match o
    case Serial => TakeDevices(0, n)
    case Pool => [Take(JobMutex), Take(ThreadMutex)]
    case Ipc => [Take(ForkMutex)]
    case Other(_) => []
  }

  /** serial8250__post_copy, thread_pool__post_copy (which also starts a worker, under thread_mutex),
      fork_complete */
  function ChildActs(o: Owner, n: nat): seq<Act> {
    match o
    case Serial => GiveDevices(0, n)
    case Pool => [Give(JobMutex), Give(ThreadMutex), Take(ThreadMutex), Give(ThreadMutex)]
    case Ipc => [Give(ForkMutex)]
    case Other(_) => []
  }

  /** serial8250__post_copy, thread_pool__post_copy_parent, fork_complete_parent */
  function ParentActs(o: Owner, n: nat): seq<Act> {
    match o
    case Serial => GiveDevices(0, n)
    case Pool => [Give(ThreadMutex), Give(JobMutex)]
    case Ipc => [Give(ForkMutex)]
    case Other(_) => []
  }

  function Devices(i: nat, n: nat): set<Lock> { set k: nat | i <= k < n :: Device(k) }

  function Footprint(o: Owner, n: nat): set<Lock> {
    match o
    case Serial => Devices(0, n)
    case Pool => {JobMutex, ThreadMutex}
    case Ipc => {ForkMutex}
    case Other(_) => {}
  }

  lemma {:induction false} DevicesTaken(i: nat, n: nat, held: set<Lock>)
    requires i <= n && held !! Devices(i, n)
    ensures Exec(held, TakeDevices(i, n)) == Holds(held + Devices(i, n))
    ensures Exec(held + Devices(i, n), GiveDevices(i, n)) == Holds(held)
    decreases n - i
  {
    if i < n {
      assert Devices(i, n) == {Device(i)} + Devices(i + 1, n) && Device(i) !in Devices(i + 1, n);
      DevicesTaken(i + 1, n, held + {Device(i)});
      DevicesTaken(i + 1, n, held);
      assert held + {Device(i)} + Devices(i + 1, n) == held + Devices(i, n);
      assert held + Devices(i, n) - {Device(i)} == held + Devices(i + 1, n);
      assert TakeDevices(i, n)[1..] == TakeDevices(i + 1, n) && GiveDevices(i, n)[1..] == GiveDevices(i + 1, n);
    } else {
      assert Devices(i, n) == {};
      assert held + {} == held;
    }
  }

  /** Each hook takes its own locks before the fork and gives them back after it, in parent and child. */
  lemma {:induction false} HookLocks(o: Owner, n: nat)
    ensures Takes(PreActs(o, n), Footprint(o, n))
    ensures Gives(ChildActs(o, n), Footprint(o, n)) && Gives(ParentActs(o, n), Footprint(o, n))
  {
    var F := Footprint(o, n);
    forall held: set<Lock> | held !! F
      ensures Exec(held, PreActs(o, n)) == Holds(held + F)
      ensures Exec(held + F, ChildActs(o, n)) == Holds(held) && Exec(held + F, ParentActs(o, n)) == Holds(held)
    {
      match o
      case Serial => DevicesTaken(0, n, held);
      case Pool => PoolLocks(held);
      case Ipc =>
        assert held + F - {ForkMutex} == held;
      case Other(_) =>
        assert held + {} == held;
    }
  }

  lemma {:induction false} PoolLocks(held: set<Lock>)
    requires JobMutex !in held && ThreadMutex !in held
    ensures var F := {JobMutex, ThreadMutex};
      && Exec(held, PreActs(Pool, 0)) == Holds(held + F)
      && Exec(held + F, ChildActs(Pool, 0)) == Holds(held) && Exec(held + F, ParentActs(Pool, 0)) == Holds(held)
  {
    var F := {JobMutex, ThreadMutex};
    assert held + {JobMutex} + {ThreadMutex} == held + F;
    assert held + F - {JobMutex} - {ThreadMutex} == held && held + F - {ThreadMutex} - {JobMutex} == held;
    assert held + {ThreadMutex} - {ThreadMutex} == held;
    assert Exec(held + F, [Give(JobMutex)] + [Give(ThreadMutex)]) == Holds(held) by {
      ExecAppend(held + F, [Give(JobMutex)], [Give(ThreadMutex)]);
    }
    assert Exec(held, [Take(ThreadMutex)] + [Give(ThreadMutex)]) == Holds(held) by {
      ExecAppend(held, [Take(ThreadMutex)], [Give(ThreadMutex)]);
    }
    ExecAppend(held + F, [Give(JobMutex)] + [Give(ThreadMutex)], [Take(ThreadMutex)] + [Give(ThreadMutex)]);
    assert ChildActs(Pool, 0) == ([Give(JobMutex)] + [Give(ThreadMutex)]) + ([Take(ThreadMutex)] + [Give(ThreadMutex)]);
    ExecAppend(held, [Take(JobMutex)], [Take(ThreadMutex)]);
    assert PreActs(Pool, 0) == [Take(JobMutex)] + [Take(ThreadMutex)];
    ExecAppend(held + F, [Give(ThreadMutex)], [Give(JobMutex)]);
    assert ParentActs(Pool, 0) == [Give(ThreadMutex)] + [Give(JobMutex)];
  }

  // ------- any order of the hooks

  function AllPre(os: seq<Owner>, n: nat): seq<Act> { if os == [] then [] else PreActs(os[0], n) + AllPre(os[1..], n) }
  function AllChild(os: seq<Owner>, n: nat): seq<Act> { if os == [] then []
                    else ChildActs(os[0], n) + AllChild(os[1..], n) }
  function AllParent(os: seq<Owner>, n: nat): seq<Act> { if os == [] then []
                     else ParentActs(os[0], n) + AllParent(os[1..], n) }

  function AllLocks(os: seq<Owner>, n: nat): set<Lock> { if os == [] then {}
                    else Footprint(os[0], n) + AllLocks(os[1..], n) }

  lemma {:induction false} TailDistinct(os: seq<Owner>, n: nat)
    requires Distinct(os) && os != []
    ensures Distinct(os[1..]) && Footprint(os[0], n) !! AllLocks(os[1..], n)
  {
    assert forall i | 0 < i < |os| :: os[i] == os[1..][i - 1];
    MissesAll(os[0], os[1..], n);
  }

  lemma {:induction false} MissesAll(o: Owner, os: seq<Owner>, n: nat)
    requires o !in os
    ensures Footprint(o, n) !! AllLocks(os, n)
  {
    if os != [] {
      MissesAll(o, os[1..], n);
    }
  }

  lemma {:induction false} PreRuns(os: seq<Owner>, n: nat, held: set<Lock>)
    requires Distinct(os) && held !! AllLocks(os, n)
    ensures Exec(held, AllPre(os, n)) == Holds(held + AllLocks(os, n))
    decreases |os|
  {
    if os == [] {
      assert held + {} == held;
    } else {
      var F := Footprint(os[0], n);
      TailDistinct(os, n);
      HookLocks(os[0], n);
      assert Exec(held, PreActs(os[0], n)) == Holds(held + F);
      PreRuns(os[1..], n, held + F);
      ExecAppend(held, PreActs(os[0], n), AllPre(os[1..], n));
      assert held + F + AllLocks(os[1..], n) == held + AllLocks(os, n);
    }
  }

  lemma {:induction false} PostRuns(os: seq<Owner>, n: nat, held: set<Lock>)
    requires Distinct(os) && held !! AllLocks(os, n)
    ensures Exec(held + AllLocks(os, n), AllChild(os, n)) == Holds(held)
    ensures Exec(held + AllLocks(os, n), AllParent(os, n)) == Holds(held)
    decreases |os|
  {
    if os == [] {
      assert held + {} == held;
    } else {
      var F, R := Footprint(os[0], n), AllLocks(os[1..], n);
      TailDistinct(os, n);
      HookLocks(os[0], n);
      assert held + AllLocks(os, n) == (held + R) + F;
      assert Exec((held + R) + F, ChildActs(os[0], n)) == Holds(held + R);
      assert Exec((held + R) + F, ParentActs(os[0], n)) == Holds(held + R);
      PostRuns(os[1..], n, held);
      ExecAppend((held + R) + F, ChildActs(os[0], n), AllChild(os[1..], n));
      ExecAppend((held + R) + F, ParentActs(os[0], n), AllParent(os[1..], n));
    }
  }

  /** The locks depend on which hooks there are, not on their order. */
  lemma {:induction false} SameLocks(os: seq<Owner>, os': seq<Owner>, n: nat)
    requires forall o | o in {Serial, Pool, Ipc} :: o in os <==> o in os'
    ensures AllLocks(os, n) == AllLocks(os', n)
  {
    LockIn(os, n);
    LockIn(os', n);
    assert Serial in {Serial, Pool, Ipc} && Pool in {Serial, Pool, Ipc} && Ipc in {Serial, Pool, Ipc};
  }

  lemma {:induction false} LockIn(os: seq<Owner>, n: nat)
    ensures AllLocks(os, n) == (if Serial in os then Footprint(Serial, n) else {})
            + (if Pool in os then Footprint(Pool, n) else {})
                              + (if Ipc in os then Footprint(Ipc, n) else {})
  {
    if os != [] {
      LockIn(os[1..], n);
    }
  }

  // ---------------------------------------------------------------- the fork

  /** handle_fork up to the fork: kvm__pause leaves pause_lock held, then the pre-copy hooks run. */
  function BeforeFork(pre: seq<Owner>, n: nat): seq<Act> { [Take(PauseLock)] + AllPre(pre, n) }

  /** The child: post-copy hooks, then kvm__continue. */
  function InChild(child: seq<Owner>, n: nat): seq<Act> { AllChild(child, n) + [Give(PauseLock)] }

  /** The parent: post-copy-parent hooks, then kvm__continue in handle_fork. */
  function InParent(parent: seq<Owner>, n: nat): seq<Act> { AllParent(parent, n) + [Give(PauseLock)] }

  /** A run over lists that hold the pre-copy hooks of os does what AllPre says; likewise after the fork. */
  lemma {:induction false} RunOfHooks(hs: seq<Hook>, os: seq<Owner>, n: nat)
    requires |hs| == |os| && AllSucceed(hs)
    ensures (forall i | 0 <= i < |hs| :: hs[i].acts == PreActs(os[i], n)) ==> Executed(hs) == AllPre(os, n)
    ensures (forall i | 0 <= i < |hs| :: hs[i].acts == ChildActs(os[i], n)) ==> Executed(hs) == AllChild(os, n)
    ensures (forall i | 0 <= i < |hs| :: hs[i].acts == ParentActs(os[i], n)) ==> Executed(hs) == AllParent(os, n)
  {
    hide PreActs, ChildActs, ParentActs;
    if hs != [] {
      assert forall i | 0 < i < |hs| :: hs[i] == hs[1..][i - 1] && os[i] == os[1..][i - 1];
      RunOfHooks(hs[1..], os[1..], n);
    }
  }

  /** The three lists hold the lock hooks, each once, in any order. */
  predicate Registered(os: seq<Owner>) { Distinct(os) && Serial in os && Pool in os && Ipc in os }

  /** Through any successful fork every lock taken before it, pause_lock included, is held at the fork and
      given back exactly once on either side, for any number of serial devices and any order of hooks. */
  lemma {:induction false} ForkBalanced(pre: seq<Owner>, child: seq<Owner>, parent: seq<Owner>, n: nat)
    requires Registered(pre) && Registered(child) && Registered(parent)
    ensures Exec({}, BeforeFork(pre, n)) == Holds({PauseLock} + AllLocks(pre, n))
    ensures AllLocks(pre, n) == {JobMutex, ThreadMutex, ForkMutex} + Devices(0, n)
    ensures Exec({PauseLock} + AllLocks(pre, n), InChild(child, n)) == Holds({})
    ensures Exec({PauseLock} + AllLocks(pre, n), InParent(parent, n)) == Holds({})
  {
    LockIn(pre, n);
    SameLocks(pre, child, n);
    SameLocks(pre, parent, n);
    PreRuns(pre, n, {PauseLock});
    assert {} + {PauseLock} == {PauseLock};
    assert BeforeFork(pre, n)[1..] == AllPre(pre, n);
    PostRuns(child, n, {PauseLock});
    PostRuns(parent, n, {PauseLock});
    ExecAppend({PauseLock} + AllLocks(pre, n), AllChild(child, n), [Give(PauseLock)]);
    ExecAppend({PauseLock} + AllLocks(pre, n), AllParent(parent, n), [Give(PauseLock)]);
    assert {PauseLock} - {PauseLock} == {};
  }

  /** The locks that are held at the instant of the fork. */
  function ForkLocks(n: nat): set<Lock> { {PauseLock, JobMutex, ThreadMutex, ForkMutex} + Devices(0, n) }

  datatype Phase = PreCopy | PostCopy | PostCopyParent

  function HookActs(phase: Phase, o: Owner, n: nat): seq<Act> {
    match phase
    case PreCopy => PreActs(o, n)
    case PostCopy => ChildActs(o, n)
    case PostCopyParent => ParentActs(o, n)
  }

  /** The lists hold the hooks of os for this phase, level by level in this order. */
  ghost predicate Carries(lists: seq<seq<Hook>>, phase: Phase, os: seq<Owner>, n: nat) {
    && |Flatten(lists)| == |os| && Registered(os)
    && forall i | 0 <= i < |os| :: Flatten(lists)[i].acts == HookActs(phase, os[i], n)
  }

  lemma {:induction false} CarriedRun(lists: seq<seq<Hook>>, phase: Phase, os: seq<Owner>, n: nat)
    requires Carries(lists, phase, os, n)
    ensures Result(Flatten(lists)) >= 0 <==> AllSucceed(Flatten(lists))
    ensures AllSucceed(Flatten(lists)) ==>
              Executed(Flatten(lists)) ==
              match phase case PreCopy => AllPre(os, n) case PostCopy => AllChild(os,
                n) case PostCopyParent => AllParent(os, n)
  {
    hide PreActs, ChildActs, ParentActs, Executed, AllPre, AllChild, AllParent, Registered;
    var hs := Flatten(lists);
    RunOutcome(hs);
    if AllSucceed(hs) {
      RunOfHooks(hs, os, n);
    }
  }

  /** handle_fork and kvm__fork on a machine that is not paused: what parent and child do to locks before the fork
      and after it.  The process dies if a hook fails. */
  method HandleFork(pre: HookLists, child: HookLists, parent: HookLists,
                    ghost os: seq<Owner>, ghost cs: seq<Owner>, ghost ps: seq<Owner>, ghost n: nat)
    returns (ok: bool, before: seq<Act>, inChild: seq<Act>, inParent: seq<Act>)
    requires pre.Valid() && child.Valid() && parent.Valid()
    requires Carries(pre.lists, PreCopy, os, n) && Carries(child.lists, PostCopy, cs, n)
    requires Carries(parent.lists, PostCopyParent, ps, n)
    ensures ok <==>
              AllSucceed(Flatten(pre.lists)) && AllSucceed(Flatten(child.lists)) && AllSucceed(Flatten(parent.lists))
    ensures ok ==>
              && Exec({}, before) == Holds(ForkLocks(n))
              && Exec(ForkLocks(n), inChild) == Holds({}) && Exec(ForkLocks(n), inParent) == Holds({})
  {
    hide Exec, Executed, Result, AllSucceed, Flatten, Carries, Registered, AllLocks;
    CarriedRun(pre.lists, PreCopy, os, n);
    CarriedRun(child.lists, PostCopy, cs, n);
    CarriedRun(parent.lists, PostCopyParent, ps, n);
    CarriesRegistered(pre.lists, PreCopy, os, n);
    CarriesRegistered(child.lists, PostCopy, cs, n);
    CarriesRegistered(parent.lists, PostCopyParent, ps, n);
    ForkBalanced(os, cs, ps, n);
    assert {PauseLock} + AllLocks(os, n) == ForkLocks(n);
    ok, inChild, inParent := false, [], [];
    var r, log := pre.Run();
    before := [Take(PauseLock)] + log;
    if r < 0 {
      return;
    }
    r, log := child.Run();
    inChild := log + [Give(PauseLock)];
    if r < 0 {
      return;
    }
    r, log := parent.Run();
    inParent := log + [Give(PauseLock)];
    ok := r >= 0;
  }

  lemma {:induction false} CarriesRegistered(lists: seq<seq<Hook>>, phase: Phase, os: seq<Owner>, n: nat)
    requires Carries(lists, phase, os, n)
    ensures Registered(os)
  {
  }

  /** An operation count: how often acts takes, respectively gives back, l. */
  function Count(acts: seq<Act>, a: Act): nat {
    if acts == [] then 0 else (if acts[0] == a then 1 else 0) + Count(acts[1..], a)
  }

  /** In any run that does not get stuck, what a lock was taken and given back differ by whether it is
      held at the ends. */
  lemma {:induction false} CountsBalance(held: set<Lock>, acts: seq<Act>, l: Lock)
    requires Exec(held, acts).Holds?
    ensures (if l in held then 1 else 0) + Count(acts, Take(l)) == Count(acts, Give(l))
            + (if l in Exec(held, acts).held then 1 else 0)
    decreases |acts|
  {
    if acts != [] {
      CountsBalance(if acts[0].Take? then held + {acts[0].l} else held - {acts[0].l}, acts[1..], l);
    }
  }

  // ------- the fork among other threads

  /** owner[l] is the thread that holds l, or -1; thread 0 forks and is about to do acts[pc]. */
  datatype System = System(owner: map<Lock, int>, pc: nat)

  /** Some other thread takes a free lock or gives its own back. */
  predicate OtherStep(s: System, s': System, t: int, l: Lock) {
    && t > 0 && l in s.owner && s'.pc == s.pc
    && ((s.owner[l] == -1 && s'.owner == s.owner[l := t]) || (s.owner[l] == t && s'.owner == s.owner[l := -1]))
  }

  ghost predicate SystemStep(acts: seq<Act>, s: System, s': System) {
    || (s.pc < |acts| && acts[s.pc].l in s.owner && s'.pc == s.pc + 1 &&
        if acts[s.pc].Take? then s.owner[acts[s.pc].l] == -1 && s'.owner == s.owner[acts[s.pc].l := 0]
        else s'.owner == s.owner[acts[s.pc].l := -1])
    || (exists t, l :: OtherStep(s, s', t, l))
  }

  ghost predicate SystemRun(acts: seq<Act>, b: seq<System>) {
    && |b| > 0 && b[0].pc == 0 && (forall l | l in b[0].owner :: b[0].owner[l] != 0)
    && forall i | 0 <= i < |b| - 1 :: SystemStep(acts, b[i], b[i + 1])
  }

  /** Thread 0 owns exactly what its own operations so far say it holds. */
  ghost predicate Agrees(acts: seq<Act>, s: System) {
    && s.pc <= |acts| && Exec({}, acts[..s.pc]).Holds?
    && forall l | l in s.owner :: s.owner[l] == 0 <==> l in Exec({}, acts[..s.pc]).held
  }

  lemma {:induction false} PrefixRuns(acts: seq<Act>, k: nat)
    requires Exec({}, acts).Holds? && k <= |acts|
    ensures Exec({}, acts[..k]).Holds?
    ensures k < |acts| ==> (var h := Exec({}, acts[..k]).held; var h' := Exec({}, acts[..k + 1]);
      h' == Holds(if acts[k].Take? then h + {acts[k].l} else h - {acts[k].l}))
  {
    assert acts == acts[..k] + acts[k..];
    ExecAppend({}, acts[..k], acts[k..]);
    if k < |acts| {
      assert acts[..k + 1] == acts[..k] + [acts[k]];
      ExecAppend({}, acts[..k], [acts[k]]);
      assert Exec(Exec({}, acts[..k]).held, [acts[k]][1..]) == Exec(Exec({}, acts[..k]).held, []);
    }
  }

  lemma {:induction false} SystemAgrees(acts: seq<Act>, b: seq<System>, k: nat)
    requires Exec({}, acts).Holds? && SystemRun(acts, b) && k < |b|
    ensures Agrees(acts, b[k])
  {
    if k == 0 {
      assert acts[..0] == [];
    } else {
      SystemAgrees(acts, b, k - 1);
      var s, s' := b[k - 1], b[(k - 1) + 1];
      assert SystemStep(acts, s, s');
      PrefixRuns(acts, s.pc);
    }
  }

  /** At the instant of the fork no other thread is inside a critical section that pause_lock or a lock of
      the hooks guards. */
  lemma {:induction false} NobodyElseInside(pre: seq<Owner>, n: nat, b: seq<System>, k: nat, l: Lock)
    requires Registered(pre) && SystemRun(BeforeFork(pre, n), b) && k < |b| && b[k].pc == |BeforeFork(pre, n)|
    requires l in b[k].owner && (l == PauseLock || l in {JobMutex, ThreadMutex, ForkMutex} || l in Devices(0, n))
    ensures b[k].owner[l] == 0
  {
    var acts := BeforeFork(pre, n);
    ForkBalanced(pre, pre, pre, n);
    SystemAgrees(acts, b, k);
    assert acts[..|acts|] == acts;
  }
}
