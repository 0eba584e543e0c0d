/** What one call of the pool of util/threadpool.c does when no other thread moves meanwhile. */
module ThreadCalls {
  import opened ThreadPool

  /** Thread t is at p, job j is x, and the rest is as in s. */
  function With(s: State, t: nat, p: Pc, qlock: int, j: nat, x: Job, queue: seq<nat>): State
    requires t < |s.pc| && j < |s.job|
  {
    s.(pc := s.pc[t := p], qlock := qlock, job := s.job[j := x], queue := queue)
  }

  /** A stretch of a run, from s to s'. */
  ghost predicate Leads(s: State, es: seq<Event>, s': State)
    decreases |es|
  {
    if es == [] then s == s' else Typed(s) && Enabled(s, es[0]) && Leads(Next(s, es[0]), es[1..], s')
  }

  lemma {:induction false} LeadsStep(s: State, e: Event, es: seq<Event>, s': State)
    requires Typed(s) && Enabled(s, e) && Leads(Next(s, e), es, s')
    ensures Leads(s, [e] + es, s')
  {
    assert ([e] + es)[1..] == es;
  }

  lemma {:induction false} InvTyped(s: State)
    requires Inv(s)
    ensures Typed(s)
  {
  }

  lemma {:induction false} Rewrite(s: State, t: nat, p: Pc, p': Pc, l: int, l': int, j: nat, x: Job, x': Job,
                                   q: seq<nat>, q': seq<nat>)
    requires t < |s.pc| && j < |s.job|
    ensures var s0 := With(s, t, p, l, j, x, q);
            && |s0.pc| == |s.pc| && |s0.job| == |s.job| && s0.pc[t] == p && s0.job[j] == x
            && With(s0, t, p', l', j, x', q') == With(s, t, p', l', j, x', q')
  {
  }

  /** One step of a thread that moves alone: afterwards it is at p', and so on. */
  lemma {:induction false} GoAlone(s: State, t: nat, p: Pc, p': Pc, l: int, l': int, j: nat, x: Job, x': Job,
                                   q: seq<nat>, q': seq<nat>)
    requires t < |s.pc| && j < |s.job| && Inv(With(s, t, p, l, j, x, q))
    requires var s0 := With(s, t, p, l, j, x, q);
             Enabled(s0, Go(t)) && Next(s0, Go(t)) == With(s0, t, p', l', j, x', q')
    ensures var s1 := With(s, t, p', l', j, x', q');
            Inv(s1) && Typed(With(s, t, p, l, j, x, q)) && Next(With(s, t, p, l, j, x, q), Go(t)) == s1
  {
    hide Enabled, Next, Inv;
    InvTyped(With(s, t, p, l, j, x, q));
    NextInv(With(s, t, p, l, j, x, q), Go(t));
    Rewrite(s, t, p, p', l, l', j, x, x', q, q');
  }

  // ---------------------------------------------------------------- thread_pool__do_job

  lemma {:induction false} DoNext(s0: State, t: nat, j: nat)
    requires Inv(s0) && t < |s0.pc| && j < |s0.job|
    requires NeedsQueueLock(s0.pc[t]) ==> s0.qlock == -1
    requires s0.pc[t] == DoLock(j) ==> s0.job[j].holder == -1
    ensures var x, q := s0.job[j], s0.queue;
            match s0.pc[t]
            case DoLock(i) => i == j ==>
              Enabled(s0, Go(t)) && Next(s0, Go(t)) == With(s0, t, DoCount(j), s0.qlock, j, x.(holder := t), q)
            case DoCount(i) => i == j ==>
              var x' := x.(count := x.count + 1, calls := x.calls + 1);
              && Enabled(s0, Go(t))
              && Next(s0, Go(t)) ==
                 (if x.count == 0 then With(s0, t, DoPushLock(j), s0.qlock, j, x'.(owner := t), q)
                  else With(s0, t, DoUnlock(j), s0.qlock, j, x', q))
            case DoPushLock(i) => i == j ==>
              Enabled(s0, Go(t)) && Next(s0, Go(t)) == With(s0, t, DoPush(j), t, j, x, q)
            case DoPush(i) => i == j ==>
              Enabled(s0, Go(t)) && Next(s0, Go(t)) == With(s0, t, DoUnlock(j), -1, j, x.(owner := -1), q + [j])
            case DoUnlock(i) => i == j ==>
              Enabled(s0, Go(t)) && Next(s0, Go(t)) == With(s0, t, SignalLock, s0.qlock, j, x.(holder := -1), q)
            case SignalLock =>
              Enabled(s0, Go(t)) && Next(s0, Go(t)) == With(s0, t, Signal, t, j, x, q)
            case _ => true
  {
    InvTyped(s0);
    hide Inv, GoWorker, GoHandle, GoCancel, Typed;
    assert s0.job[j := s0.job[j]] == s0.job;
  }

  /** The end of do_job: the mutex is given back, and a waiting worker, if any, is woken. */
  function Signalled(s: State, t: nat, j: nat, x: Job, q: seq<nat>, w: nat): State
    requires t < |s.pc| && j < |s.job|
  {
    var pc := s.pc[t := Outside];
    s.(pc := if w < s.workers && w < |s.pc| && s.pc[w].WorkerWait? && w != t then pc[w := WorkerLock] else pc,
       qlock := -1, job := s.job[j := x], queue := q)
  }

  lemma {:induction false} NotifyAlone(s: State, t: nat, j: nat, x: Job, q: seq<nat>, w: nat)
    requires t < |s.pc| && j < |s.job| && s.pc[t].Outside? && Inv(With(s, t, Signal, t, j, x, q))
    requires Waits(s, w) || forall u | 0 <= u < s.workers && u < |s.pc| :: !s.pc[u].WorkerWait?
    ensures var s0 := With(s, t, Signal, t, j, x, q);
            Typed(s0) && Enabled(s0, Notify(t, w)) && Next(s0, Notify(t, w)) == Signalled(s, t, j, x, q, w)
  {
    var s0 := With(s, t, Signal, t, j, x, q);
    InvTyped(s0);
    hide Inv;
    assert s0.pc[t := Outside] == s.pc[t := Outside];
    assert forall u | 0 <= u < |s.pc| && u != t :: s0.pc[u] == s.pc[u];
  }

  lemma {:induction false} DoTail(s: State, t: nat, j: nat, x: Job, q: seq<nat>, w: nat) returns (es: seq<Event>)
    requires t < |s.pc| && j < |s.job| && s.pc[t].Outside? && Inv(With(s, t, DoUnlock(j), -1, j, x, q))
    requires Waits(s, w) || forall u | 0 <= u < s.workers && u < |s.pc| :: !s.pc[u].WorkerWait?
    ensures Leads(With(s, t, DoUnlock(j), -1, j, x, q), es, Signalled(s, t, j, x.(holder := -1), q, w))
  {
    var x' := x.(holder := -1);
    var s0, s1 := With(s, t, DoUnlock(j), -1, j, x, q), With(s, t, SignalLock, -1, j, x', q);
    var s2 := With(s, t, Signal, t, j, x', q);
    hide Inv, Enabled, Next, Typed, Waits;
    DoNext(s0, t, j);
    GoAlone(s, t, DoUnlock(j), SignalLock, -1, -1, j, x, x', q, q);
    DoNext(s1, t, j);
    GoAlone(s, t, SignalLock, Signal, -1, t, j, x', x', q, q);
    NotifyAlone(s, t, j, x', q, w);
    var end := Signalled(s, t, j, x', q, w);
    hide With, Signalled;
    LeadsStep(s2, Notify(t, w), [], end);
    LeadsStep(s1, Go(t), [Notify(t, w)], end);
    LeadsStep(s0, Go(t), [Go(t)] + [Notify(t, w)], end);
    es := [Go(t)] + ([Go(t)] + [Notify(t, w)]);
  }

  lemma {:induction false} DoStart(s: State, t: nat, j: nat)
    requires Inv(s) && t < |s.pc| && s.pc[t].Outside? && j < |s.job| && s.qlock == -1
    requires forall u | 0 <= u < |s.pc| :: !InCancel(s.pc[u], j)
    ensures Typed(s) && Enabled(s, StartDo(t, j))
    ensures Next(s, StartDo(t, j)) == With(s, t, DoLock(j), -1, j, s.job[j], s.queue)
    ensures s.job[j].count == 0 ==> s.job[j].owner == -1
  {
    hide Accounts, Cancels, NoLostWakeup, QueueLock, JobLocks;
    assert s.job[j := s.job[j]] == s.job;
  }

  /** thread_pool__do_job: the signal is counted, the job goes to the end of the queue if it was not signalled yet, and
      a waiting worker, if there is one, is woken. */
  lemma {:induction false} DoJobAlone(s: State, t: nat, j: nat, w: nat) returns (es: seq<Event>)
    requires Inv(s) && t < |s.pc| && s.pc[t].Outside? && j < |s.job| && s.qlock == -1 && s.job[j].holder == -1
    requires forall u | 0 <= u < |s.pc| :: !InCancel(s.pc[u], j)
    requires Waits(s, w) || forall u | 0 <= u < s.workers && u < |s.pc| :: !s.pc[u].WorkerWait?
    ensures var x := s.job[j];
            Leads(s, es, Signalled(s, t, j, x.(count := x.count + 1, calls := x.calls + 1),
                                   if x.count == 0 then s.queue + [j] else s.queue, w))
  {
    hide Inv, Enabled, Next, Typed, Waits;
    var x, q := s.job[j], s.queue;
    var x1, x2 := x.(holder := t), x.(holder := t, count := x.count + 1, calls := x.calls + 1);
    DoStart(s, t, j);
    NextInv(s, StartDo(t, j));
    var s1, s2 := With(s, t, DoLock(j), -1, j, x, q), With(s, t, DoCount(j), -1, j, x1, q);
    DoNext(s1, t, j);
    GoAlone(s, t, DoLock(j), DoCount(j), -1, -1, j, x, x1, q, q);
    DoNext(s2, t, j);
    if x.count == 0 {
      es := DoPushing(s, t, j, w);
    } else {
      GoAlone(s, t, DoCount(j), DoUnlock(j), -1, -1, j, x1, x2, q, q);
      es := DoTail(s, t, j, x2, q, w);
      LeadsStep(s2, Go(t), es, Signalled(s, t, j, x2.(holder := -1), q, w));
      es := [Go(t)] + es;
    }
    var end := Signalled(s, t, j, x.(count := x.count + 1, calls := x.calls + 1),
                         if x.count == 0 then q + [j] else q, w);
    assert x2.(holder := -1) == x.(count := x.count + 1, calls := x.calls + 1);
    hide With, Signalled;
    LeadsStep(s1, Go(t), es, end);
    LeadsStep(s, StartDo(t, j), [Go(t)] + es, end);
    es := [StartDo(t, j)] + ([Go(t)] + es);
  }

  lemma {:induction false} DoPushing(s: State, t: nat, j: nat, w: nat) returns (es: seq<Event>)
    requires t < |s.pc| && s.pc[t].Outside? && j < |s.job| && s.job[j].count == 0 && s.job[j].owner == -1
    requires Inv(With(s, t, DoCount(j), -1, j, s.job[j].(holder := t), s.queue))
    requires Waits(s, w) || forall u | 0 <= u < s.workers && u < |s.pc| :: !s.pc[u].WorkerWait?
    ensures var x := s.job[j];
            Leads(With(s, t, DoCount(j), -1, j, x.(holder := t), s.queue), es,
                  Signalled(s, t, j, x.(holder := -1, count := 1, calls := x.calls + 1), s.queue + [j], w))
  {
    hide Inv, Enabled, Next, Typed, Waits;
    var x, q := s.job[j], s.queue;
    var x1, x2 := x.(holder := t), x.(holder := t, count := 1, calls := x.calls + 1);
    var x3 := x2.(owner := t);
    var s1, s2 := With(s, t, DoCount(j), -1, j, x1, q), With(s, t, DoPushLock(j), -1, j, x3, q);
    var s3 := With(s, t, DoPush(j), t, j, x3, q);
    DoNext(s1, t, j);
    GoAlone(s, t, DoCount(j), DoPushLock(j), -1, -1, j, x1, x3, q, q);
    DoNext(s2, t, j);
    GoAlone(s, t, DoPushLock(j), DoPush(j), -1, t, j, x3, x3, q, q);
    DoNext(s3, t, j);
    GoAlone(s, t, DoPush(j), DoUnlock(j), t, -1, j, x3, x2, q, q + [j]);
    es := DoTail(s, t, j, x2, q + [j], w);
    var end := Signalled(s, t, j, x2.(holder := -1), q + [j], w);
    hide With, Signalled;
    LeadsStep(s3, Go(t), es, end);
    LeadsStep(s2, Go(t), [Go(t)] + es, end);
    LeadsStep(s1, Go(t), [Go(t)] + ([Go(t)] + es), end);
    es := [Go(t)] + ([Go(t)] + ([Go(t)] + es));
  }

  // ---------------------------------------------------------------- a worker

  lemma {:induction false} WorkNext(s0: State, t: nat, j: nat)
    requires Inv(s0) && t < |s0.pc| && j < |s0.job| && (NeedsQueueLock(s0.pc[t]) ==> s0.qlock == -1)
    requires s0.pc[t] == HandleLock(j) ==> s0.job[j].holder == -1
    requires s0.pc[t].WorkerCheck? ==> s0.queue != [] && s0.queue[0] == j
    ensures var x, q, n := s0.job[j], s0.queue, s0.job[j].count - 1;
            match s0.pc[t]
            case WorkerLock =>
              Enabled(s0, Go(t)) && Next(s0, Go(t)) == With(s0, t, WorkerCheck, t, j, x, q)
            case WorkerCheck =>
              Enabled(s0, Go(t)) && Next(s0, Go(t)) == With(s0, t, WorkerUnlock(j), s0.qlock, j, x.(owner := t), q[1..])
            case WorkerUnlock(i) => i == j ==>
              Enabled(s0, Go(t)) && Next(s0, Go(t)) == With(s0, t, Callback(j), -1, j, x, q)
            case Callback(i) => i == j ==>
              && Enabled(s0, Go(t))
              && Next(s0, Go(t)) == With(s0, t, HandleLock(j), s0.qlock, j, x.(done := x.done + 1), q)
            case HandleLock(i) => i == j ==>
              Enabled(s0, Go(t)) && Next(s0, Go(t)) == With(s0, t, HandleCount(j), s0.qlock, j, x.(holder := t), q)
            case HandleCount(i) => i == j ==>
              && Enabled(s0, Go(t))
              && Next(s0, Go(t)) ==
                 (if n > 0 then With(s0, t, HandlePushLock(j), s0.qlock, j, x.(count := n), q)
                  else With(s0, t, HandleUnlock(j), s0.qlock, j, x.(count := n, owner := -1), q))
            case HandlePushLock(i) => i == j ==>
              Enabled(s0, Go(t)) && Next(s0, Go(t)) == With(s0, t, HandlePush(j), t, j, x, q)
            case HandlePush(i) => i == j ==>
              Enabled(s0, Go(t)) && Next(s0, Go(t)) == With(s0, t, HandleUnlock(j), -1, j, x.(owner := -1), q + [j])
            case HandleUnlock(i) => i == j ==>
              Enabled(s0, Go(t)) && Next(s0, Go(t)) == With(s0, t, PopLock, s0.qlock, j, x.(holder := -1), q)
            case _ => true
  {
    InvTyped(s0);
    hide Inv, GoDo, GoCancel, Typed;
    assert s0.job[j := s0.job[j]] == s0.job;
  }

  /** What a worker leaves when it has run the job at the head of the queue: the callback has run once, one signal is
      settled, and the job goes to the end of the queue if there are more. */
  function Served(s: State, t: nat, j: nat): State
    requires t < |s.pc| && j < |s.job| && s.queue != []
  {
    var x := s.job[j];
    With(s, t, PopLock, -1, j, x.(count := x.count - 1, done := x.done + 1),
         if x.count > 1 then s.queue[1..] + [j] else s.queue[1..])
  }

  /** The second half of handle_job, from the lock on. */
  lemma {:induction false} ServeTail(s: State, t: nat, j: nat, x: Job, q: seq<nat>) returns (es: seq<Event>)
    requires t < |s.pc| && j < |s.job| && Inv(With(s, t, HandleLock(j), -1, j, x, q)) && x.holder == -1
    ensures Leads(With(s, t, HandleLock(j), -1, j, x, q), es,
                  With(s, t, PopLock, -1, j, x.(count := x.count - 1, owner := -1), if x.count > 1 then q + [j] else q))
  {
    hide Inv, Enabled, Next, Typed;
    var x1, x2 := x.(holder := t), x.(holder := t, count := x.count - 1);
    var x3, x4 := x2.(owner := -1), x.(count := x.count - 1, owner := -1);
    var q' := if x.count > 1 then q + [j] else q;
    var s0, s1 := With(s, t, HandleLock(j), -1, j, x, q), With(s, t, HandleCount(j), -1, j, x1, q);
    WorkNext(s0, t, j);
    GoAlone(s, t, HandleLock(j), HandleCount(j), -1, -1, j, x, x1, q, q);
    WorkNext(s1, t, j);
    var s4, end := With(s, t, HandleUnlock(j), -1, j, x3, q'), With(s, t, PopLock, -1, j, x4, q');
    if x.count > 1 {
      var s2, s3 := With(s, t, HandlePushLock(j), -1, j, x2, q), With(s, t, HandlePush(j), t, j, x2, q);
      GoAlone(s, t, HandleCount(j), HandlePushLock(j), -1, -1, j, x1, x2, q, q);
      WorkNext(s2, t, j);
      GoAlone(s, t, HandlePushLock(j), HandlePush(j), -1, t, j, x2, x2, q, q);
      WorkNext(s3, t, j);
      GoAlone(s, t, HandlePush(j), HandleUnlock(j), t, -1, j, x2, x3, q, q');
      es := ServeEnd(s, t, j, x3, q');
      assert x3.(holder := -1) == x4;
      hide With;
      LeadsStep(s3, Go(t), es, end);
      LeadsStep(s2, Go(t), [Go(t)] + es, end);
      es := [Go(t)] + ([Go(t)] + es);
      LeadsStep(s1, Go(t), es, end);
    } else {
      GoAlone(s, t, HandleCount(j), HandleUnlock(j), -1, -1, j, x1, x3, q, q);
      es := ServeEnd(s, t, j, x3, q');
      assert x3.(holder := -1) == x4;
      hide With;
      LeadsStep(s1, Go(t), es, end);
    }
    LeadsStep(s0, Go(t), [Go(t)] + es, end);
    es := [Go(t)] + ([Go(t)] + es);
  }

  lemma {:induction false} ServeEnd(s: State, t: nat, j: nat, x: Job, q: seq<nat>) returns (es: seq<Event>)
    requires t < |s.pc| && j < |s.job| && Inv(With(s, t, HandleUnlock(j), -1, j, x, q))
    ensures Leads(With(s, t, HandleUnlock(j), -1, j, x, q), es, With(s, t, PopLock, -1, j, x.(holder := -1), q))
  {
    hide Inv, Enabled, Next, Typed;
    var s0, end := With(s, t, HandleUnlock(j), -1, j, x, q), With(s, t, PopLock, -1, j, x.(holder := -1), q);
    WorkNext(s0, t, j);
    GoAlone(s, t, HandleUnlock(j), PopLock, -1, -1, j, x, x.(holder := -1), q, q);
    hide With;
    LeadsStep(s0, Go(t), [], end);
    es := [Go(t)] + [];
  }

  lemma {:induction false} HeadJob(s: State)
    requires Inv(s) && s.queue != []
    ensures s.queue[0] < |s.job| && s.job[s.queue[0]].owner == -1
  {
    hide Accounts, Cancels, NoLostWakeup, QueueLock, JobLocks;
    assert s.queue[0] in s.queue;
  }

  /** thread_pool__threadfunc with work to do. */
  lemma {:induction false} WorkerAlone(s: State, t: nat) returns (es: seq<Event>)
    requires Inv(s) && t < |s.pc| && s.pc[t].WorkerLock? && s.qlock == -1 && s.queue != []
    requires s.queue[0] < |s.job| && s.job[s.queue[0]].holder == -1
    ensures Leads(s, es, Served(s, t, s.queue[0]))
  {
    hide Inv, Enabled, Next, Typed;
    var j, q := s.queue[0], s.queue;
    var x := s.job[j];
    HeadJob(s);
    var x1, x2 := x.(owner := t), x.(owner := t, done := x.done + 1);
    assert With(s, t, WorkerLock, -1, j, x, q) == s by {
      assert s.pc[t := WorkerLock] == s.pc && s.job[j := x] == s.job;
    }
    var s1, s2 := With(s, t, WorkerCheck, t, j, x, q), With(s, t, WorkerUnlock(j), t, j, x1, q[1..]);
    var s3, s4 := With(s, t, Callback(j), -1, j, x1, q[1..]), With(s, t, HandleLock(j), -1, j, x2, q[1..]);
    WorkNext(s, t, j);
    GoAlone(s, t, WorkerLock, WorkerCheck, -1, t, j, x, x, q, q);
    WorkNext(s1, t, j);
    GoAlone(s, t, WorkerCheck, WorkerUnlock(j), t, t, j, x, x1, q, q[1..]);
    WorkNext(s2, t, j);
    GoAlone(s, t, WorkerUnlock(j), Callback(j), t, -1, j, x1, x1, q[1..], q[1..]);
    WorkNext(s3, t, j);
    GoAlone(s, t, Callback(j), HandleLock(j), -1, -1, j, x1, x2, q[1..], q[1..]);
    es := ServeTail(s, t, j, x2, q[1..]);
    var end := Served(s, t, j);
    assert x2.(count := x2.count - 1, owner := -1) == x.(count := x.count - 1, done := x.done + 1);
    hide With, Served;
    LeadsStep(s3, Go(t), es, end);
    LeadsStep(s2, Go(t), [Go(t)] + es, end);
    LeadsStep(s1, Go(t), [Go(t)] + ([Go(t)] + es), end);
    LeadsStep(s, Go(t), [Go(t)] + ([Go(t)] + ([Go(t)] + es)), end);
    es := [Go(t)] + ([Go(t)] + ([Go(t)] + ([Go(t)] + es)));
  }

  // ---------------------------------------------------------------- thread_pool__cancel_job

  lemma {:induction false} CancelNext(s0: State, t: nat, j: nat)
    requires Inv(s0) && t < |s0.pc| && j < |s0.job| && (NeedsQueueLock(s0.pc[t]) ==> s0.qlock == -1)
    ensures var x, q := s0.job[j], s0.queue;
            match s0.pc[t]
            case CancelLock(i) => i == j ==>
              Enabled(s0, Go(t)) && Next(s0, Go(t)) == With(s0, t, CancelTest(j), t, j, x, q)
            case CancelTest(i) => i == j ==>
              && Enabled(s0, Go(t))
              && Next(s0, Go(t)) == With(s0, t, if j in q then CancelDelete(j) else CancelRead(j), s0.qlock, j, x, q)
            case CancelRead(i) => i == j ==>
              Enabled(s0, Go(t)) && Next(s0, Go(t)) == With(s0, t, CancelUnlock(j, x.count > 0), s0.qlock, j, x, q)
            case CancelDelete(i) => i == j ==>
              && Enabled(s0, Go(t))
              && Next(s0, Go(t)) ==
                 With(s0, t, CancelUnlock(j, false), s0.qlock, j, x.(count := 0, dropped := x.dropped + x.count),
                      Without(q, j))
            case CancelUnlock(i, running) => i == j ==>
              && Enabled(s0, Go(t))
              && Next(s0, Go(t)) == With(s0, t, if running then CancelLock(j) else Outside, -1, j, x, q)
            case _ => true
  {
    InvTyped(s0);
    hide Inv, GoDo, GoWorker, GoHandle, Typed, Without;
    assert s0.job[j := s0.job[j]] == s0.job;
  }

  lemma {:induction false} CancelStart(s: State, t: nat, j: nat)
    requires Inv(s) && t < |s.pc| && s.pc[t].Outside? && j < |s.job| && s.qlock == -1
    requires forall u | 0 <= u < |s.pc| :: !InDoJob(s.pc[u], j)
    ensures Typed(s) && Enabled(s, StartCancel(t, j))
    ensures Next(s, StartCancel(t, j)) == With(s, t, CancelLock(j), -1, j, s.job[j], s.queue)
  {
    hide Accounts, Cancels, NoLostWakeup, QueueLock, JobLocks, Owners, Active;
    assert s.job[j := s.job[j]] == s.job;
  }

  /** thread_pool__cancel_job of a job that is queued, or not signalled: it returns, and the job is out of the queue
      with no signal left. */
  lemma {:induction false} CancelAlone(s: State, t: nat, j: nat) returns (es: seq<Event>)
    requires Inv(s) && t < |s.pc| && s.pc[t].Outside? && j < |s.job| && s.qlock == -1
    requires forall u | 0 <= u < |s.pc| :: !InDoJob(s.pc[u], j)
    requires j in s.queue || s.job[j].count <= 0
    ensures var x := s.job[j];
            Leads(s, es,
                  if j in s.queue
                  then With(s, t, Outside, -1, j, x.(count := 0, dropped := x.dropped + x.count), Without(s.queue, j))
                  else With(s, t, Outside, -1, j, x, s.queue))
  {
    hide Inv, Enabled, Next, Typed, Without;
    var x, q := s.job[j], s.queue;
    CancelStart(s, t, j);
    NextInv(s, StartCancel(t, j));
    var s1, s2 := With(s, t, CancelLock(j), -1, j, x, q), With(s, t, CancelTest(j), t, j, x, q);
    CancelNext(s1, t, j);
    GoAlone(s, t, CancelLock(j), CancelTest(j), -1, t, j, x, x, q, q);
    CancelNext(s2, t, j);
    var p := if j in q then CancelDelete(j) else CancelRead(j);
    var s3 := With(s, t, p, t, j, x, q);
    GoAlone(s, t, CancelTest(j), p, t, t, j, x, x, q, q);
    CancelNext(s3, t, j);
    var x' := if j in q then x.(count := 0, dropped := x.dropped + x.count) else x;
    var q' := if j in q then Without(q, j) else q;
    var s4, end := With(s, t, CancelUnlock(j, false), t, j, x', q'), With(s, t, Outside, -1, j, x', q');
    GoAlone(s, t, p, CancelUnlock(j, false), t, t, j, x, x', q, q');
    CancelNext(s4, t, j);
    GoAlone(s, t, CancelUnlock(j, false), Outside, t, -1, j, x', x', q', q');
    hide With;
    LeadsStep(s4, Go(t), [], end);
    LeadsStep(s3, Go(t), [Go(t)] + [], end);
    LeadsStep(s2, Go(t), [Go(t)] + ([Go(t)] + []), end);
    LeadsStep(s1, Go(t), [Go(t)] + ([Go(t)] + ([Go(t)] + [])), end);
    LeadsStep(s, StartCancel(t, j), [Go(t)] + ([Go(t)] + ([Go(t)] + ([Go(t)] + []))), end);
    es := [StartCancel(t, j)] + ([Go(t)] + ([Go(t)] + ([Go(t)] + ([Go(t)] + []))));
  }

  // ---------------------------------------------------------------- no deadlock

  /** Whenever a thread is inside the pool's functions and not waiting for work, some thread can take a step: the
      mutexes are never held in a circle. */
  lemma {:induction false} SomeoneMoves(s: State, t: nat) returns (e: Event)
    requires Inv(s) && t < |s.pc| && !s.pc[t].Outside? && !s.pc[t].WorkerWait?
    ensures Enabled(s, e) && (e.Go? || e.Notify?)
  {
    hide Accounts, Cancels, NoLostWakeup, Owners, Active, Owns, WorkerPc, JobOf, InDoJob, InCancel;
    if s.qlock >= 0 {
      var u: nat := s.qlock;
      assert HoldsQueue(s.pc[u]);
      if s.pc[u].Signal? {
        if w: nat :| Waits(s, w) {
          e := Notify(u, w);
        } else {
          forall v | 0 <= v < s.workers
            ensures !s.pc[v].WorkerWait?
          {
            assert !Waits(s, v);
          }
          e := Notify(u, 0);
        }
      } else {
        e := Go(u);
      }
    } else {
      assert !HoldsQueue(s.pc[t]);
      var j := NeedsJobLock(s.pc[t]);
      if 0 <= j < |s.job| && s.job[j].holder >= 0 {
        assert HoldsJob(s.pc[s.job[j].holder]) == j;
        e := Go(s.job[j].holder);
      } else {
        e := Go(t);
      }
    }
  }
}
