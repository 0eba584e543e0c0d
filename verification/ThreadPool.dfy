/** The job pool of util/threadpool.c as a transition system: any number of workers in
    thread_pool__threadfunc and any number of threads that call thread_pool__do_job and
    thread_pool__cancel_job.  Mutexes are holder fields; a thread takes one step at a time. */
module ThreadPool {
  import opened Sequences

  /** Where a thread is.  The numbers are lines of util/threadpool.c. */
  datatype Pc =
    // thread_pool__threadfunc
    | WorkerLock                 // 86: about to lock job_mutex, or woken and about to get it back
    | WorkerCheck                // 87: holds job_mutex
    | WorkerWait                 // 88: in pthread_cond_wait
    | WorkerUnlock(job: nat)     // 89: has popped job, holds job_mutex
    // thread_pool__handle_job
    | Callback(job: nat)         // 58
    | HandleLock(job: nat)       // 60: the callback has returned
    | HandleCount(job: nat)      // 62: holds job->mutex
    | HandlePushLock(job: nat)   // 64 and 50: holds job->mutex
    | HandlePush(job: nat)       // 51: holds job->mutex and job_mutex
    | HandleUnlock(job: nat)     // 66: holds job->mutex
    | PopLock                    // 42
    | Pop                        // 43: holds job_mutex
    // a thread outside the pool
    | Outside
    // thread_pool__do_job
    | DoLock(job: nat)           // 206
    | DoCount(job: nat)          // 207: holds job->mutex
    | DoPushLock(job: nat)       // 208 and 50: holds job->mutex
    | DoPush(job: nat)           // 51: holds job->mutex and job_mutex
    | DoUnlock(job: nat)         // 209: holds job->mutex
    | SignalLock                 // 211
    | Signal                     // 212: holds job_mutex
    // thread_pool__cancel_job
    | CancelLock(job: nat)       // 227
    | CancelTest(job: nat)       // 228: holds job_mutex
    | CancelRead(job: nat)       // 229: holds job_mutex, found the job not queued
    | CancelDelete(job: nat)     // 231: holds job_mutex, found the job queued
    | CancelUnlock(job: nat, running: bool)  // 235: holds job_mutex

  /** struct thread_pool__job.  holder is the thread that holds job->mutex, or -1.  The other fields are
      history: owner is the thread that has taken the job out of the queue or is about to put it in, or -1;
      calls counts the increments of do_job, done the callbacks that returned, dropped what cancel_job
      threw away. */
  datatype Job = Job(count: int, holder: int, owner: int, calls: nat, done: nat, dropped: int)

  /** Threads below `workers` are workers; qlock is the holder of job_mutex, or -1. */
  datatype State = State(pc: seq<Pc>, workers: nat, qlock: int, job: seq<Job>, queue: seq<nat>)

  // ---------------------------------------------------------------- what a thread holds

  predicate HoldsQueue(p: Pc) {
    p.WorkerCheck? || p.WorkerUnlock? || p.HandlePush? || p.Pop? || p.DoPush? || p.Signal?
    || p.CancelTest? || p.CancelRead? || p.CancelDelete? || p.CancelUnlock?
  }

  /** The job whose mutex the thread holds, or -1. */
  function HoldsJob(p: Pc): int {
    match p
    case HandleCount(j) => j case HandlePushLock(j) => j case HandlePush(j) => j case HandleUnlock(j) => j
    case DoCount(j) => j case DoPushLock(j) => j case DoPush(j) => j case DoUnlock(j) => j
    case _ => -1
  }

  /** The job that is in the thread's hands: out of the queue, or on its way into it. */
  function Owns(p: Pc): int {
    match p
    case WorkerUnlock(j) => j case Callback(j) => j case HandleLock(j) => j
    case HandleCount(j) => j case HandlePushLock(j) => j case HandlePush(j) => j
    case DoPushLock(j) => j case DoPush(j) => j
    case _ => -1
  }

  /** The job a thread is concerned with, or -1. */
  function JobOf(p: Pc): int {
    match p
    case WorkerUnlock(j) => j case Callback(j) => j case HandleLock(j) => j case HandleCount(j) => j
    case HandlePushLock(j) => j case HandlePush(j) => j case HandleUnlock(j) => j
    case DoLock(j) => j case DoCount(j) => j case DoPushLock(j) => j case DoPush(j) => j case DoUnlock(j) => j
    case CancelLock(j) => j case CancelTest(j) => j case CancelRead(j) => j case CancelDelete(j) => j
    case CancelUnlock(j, _) => j
    case _ => -1
  }

  predicate WorkerPc(p: Pc) {
    p.WorkerLock? || p.WorkerCheck? || p.WorkerWait? || p.WorkerUnlock? || p.Callback? || p.HandleLock?
    || p.HandleCount? || p.HandlePushLock? || p.HandlePush? || p.HandleUnlock? || p.PopLock? || p.Pop?
  }

  /** Inside thread_pool__do_job for job j, up to the unlock of j's mutex. */
  predicate InDoJob(p: Pc, j: nat) {
    p == DoLock(j) || p == DoCount(j) || p == DoPushLock(j) || p == DoPush(j) || p == DoUnlock(j)
  }

  predicate InCancel(p: Pc, j: nat) {
    p == CancelLock(j) || p == CancelTest(j) || p == CancelRead(j) || p == CancelDelete(j)
    || (p.CancelUnlock? && p.job == j)
  }

  /** Between the push of do_job and its signal. */
  predicate AboutToSignal(p: Pc) { p.DoUnlock? || p.SignalLock? || p.Signal? }

  // ---------------------------------------------------------------- steps

  /** Go on: thread t takes its next step.  Wake: a waiting worker wakes up spuriously.  Notify: thread t
      signals and, if any worker is waiting, worker w wakes up. */
  datatype Event =
    | Go(t: nat)
    | Wake(t: nat)
    | Notify(t: nat, w: nat)
    | StartDo(t: nat, j: nat)
    | StartCancel(t: nat, j: nat)

  predicate NeedsQueueLock(p: Pc) {
    p.WorkerLock? || p.HandlePushLock? || p.PopLock? || p.DoPushLock? || p.SignalLock? || p.CancelLock?
  }

  function NeedsJobLock(p: Pc): int {
    match p case HandleLock(j) => j case DoLock(j) => j case _ => -1
  }

  predicate Waits(s: State, w: nat) { w < s.workers && w < |s.pc| && s.pc[w].WorkerWait? }

  /** cancel_job assumes that do_job is not called for its job while it runs. */
  predicate Enabled(s: State, e: Event) {
    e.t < |s.pc| &&
    match e
    case Go(t) =>
      var p := s.pc[t];
      && !p.WorkerWait? && !p.Outside? && !p.Signal?
      && (NeedsQueueLock(p) ==> s.qlock == -1)
      && (0 <= NeedsJobLock(p) < |s.job| ==> s.job[NeedsJobLock(p)].holder == -1)
    case Wake(t) => s.pc[t].WorkerWait?
    case Notify(t, w) =>
      s.pc[t].Signal? && s.workers <= |s.pc| &&
      (Waits(s, w) || forall u | 0 <= u < s.workers :: !s.pc[u].WorkerWait?)
    case StartDo(t, j) =>
      s.pc[t].Outside? && j < |s.job| && forall u | 0 <= u < |s.pc| :: !InCancel(s.pc[u], j)
    case StartCancel(t, j) =>
      s.pc[t].Outside? && j < |s.job| && forall u | 0 <= u < |s.pc| :: !InDoJob(s.pc[u], j)
  }

  function Move(s: State, t: nat, p: Pc): State
    requires t < |s.pc|
  {
    s.(pc := s.pc[t := p])
  }

  /** Move to p, having taken (or given back) job_mutex. */
  function MoveQueue(s: State, t: nat, p: Pc, lock: bool): State
    requires t < |s.pc|
  {
    s.(pc := s.pc[t := p], qlock := if lock then t else -1)
  }

  function SetJob(s: State, j: nat, x: Job): State
    requires j < |s.job|
  {
    s.(job := s.job[j := x])
  }

  function Without(q: seq<nat>, j: nat): seq<nat> {
    if q == [] then [] else if q[0] == j then q[1..] else [q[0]] + Without(q[1..], j)
  }

  /** thread_pool__job_pop_locked by thread t, which then is at `found` with the job or at `empty`. */
  function PopFirst(s: State, t: nat): State
    requires t < |s.pc| && s.queue != [] && s.queue[0] < |s.job|
  {
    SetJob(s, s.queue[0], s.job[s.queue[0]].(owner := t)).(queue := s.queue[1..])
  }

  /** thread_pool__job_push_locked */
  function Push(s: State, j: nat): State
    requires j < |s.job|
  {
    SetJob(s, j, s.job[j].(owner := -1)).(queue := s.queue + [j])
  }

  /** thread_pool__threadfunc and thread_pool__job_pop */
  function GoWorker(s: State, t: nat): State
    requires t < |s.pc| && (s.queue != [] ==> s.queue[0] < |s.job|)
  {
    match s.pc[t]
    case WorkerLock => MoveQueue(s, t, WorkerCheck, true)
    case WorkerCheck =>
      if s.queue == [] then MoveQueue(s, t, WorkerWait, false)
      else Move(PopFirst(s, t), t, WorkerUnlock(s.queue[0]))
    case WorkerUnlock(j) => MoveQueue(s, t, Callback(j), false)
    case PopLock => MoveQueue(s, t, Pop, true)
    case Pop =>
      if s.queue == [] then MoveQueue(s, t, WorkerLock, false)
      else MoveQueue(PopFirst(s, t), t, Callback(s.queue[0]), false)
    case _ => s
  }

  /** thread_pool__handle_job */
  function GoHandle(s: State, t: nat): State
    requires t < |s.pc| && JobOf(s.pc[t]) < |s.job|
  {
    match s.pc[t]
    case Callback(j) => Move(SetJob(s, j, s.job[j].(done := s.job[j].done + 1)), t, HandleLock(j))
    case HandleLock(j) => Move(SetJob(s, j, s.job[j].(holder := t)), t, HandleCount(j))
    case HandleCount(j) =>
      var n := s.job[j].count - 1;
      if n > 0 then Move(SetJob(s, j, s.job[j].(count := n)), t, HandlePushLock(j))
      else Move(SetJob(s, j, s.job[j].(count := n, owner := -1)), t, HandleUnlock(j))
    case HandlePushLock(j) => MoveQueue(s, t, HandlePush(j), true)
    case HandlePush(j) => MoveQueue(Push(s, j), t, HandleUnlock(j), false)
    case HandleUnlock(j) => Move(SetJob(s, j, s.job[j].(holder := -1)), t, PopLock)
    case _ => s
  }

  /** thread_pool__do_job, but for the signal itself */
  function GoDo(s: State, t: nat): State
    requires t < |s.pc| && JobOf(s.pc[t]) < |s.job|
  {
    match s.pc[t]
    case DoLock(j) => Move(SetJob(s, j, s.job[j].(holder := t)), t, DoCount(j))
    case DoCount(j) =>
      var x := s.job[j].(count := s.job[j].count + 1, calls := s.job[j].calls + 1);
      if s.job[j].count == 0 then Move(SetJob(s, j, x.(owner := t)), t, DoPushLock(j))
      else Move(SetJob(s, j, x), t, DoUnlock(j))
    case DoPushLock(j) => MoveQueue(s, t, DoPush(j), true)
    case DoPush(j) => MoveQueue(Push(s, j), t, DoUnlock(j), false)
    case DoUnlock(j) => Move(SetJob(s, j, s.job[j].(holder := -1)), t, SignalLock)
    case SignalLock => MoveQueue(s, t, Signal, true)
    case _ => s
  }

  /** thread_pool__cancel_job */
  function GoCancel(s: State, t: nat): State
    requires t < |s.pc| && JobOf(s.pc[t]) < |s.job|
  {
    match s.pc[t]
    case CancelLock(j) => MoveQueue(s, t, CancelTest(j), true)
    case CancelTest(j) => Move(s, t, if j in s.queue then CancelDelete(j) else CancelRead(j))
    case CancelRead(j) => Move(s, t, CancelUnlock(j, s.job[j].count > 0))
    case CancelDelete(j) =>
      var x := s.job[j].(count := 0, dropped := s.job[j].dropped + s.job[j].count);
      Move(SetJob(s, j, x).(queue := Without(s.queue, j)), t, CancelUnlock(j, false))
    case CancelUnlock(j, running) => MoveQueue(s, t, if running then CancelLock(j) else Outside, false)
    case _ => s
  }

  predicate WorkerPart(p: Pc) { p.WorkerLock? || p.WorkerCheck? || p.WorkerUnlock? || p.PopLock? || p.Pop? }

  predicate HandlePart(p: Pc) {
    p.Callback? || p.HandleLock? || p.HandleCount? || p.HandlePushLock? || p.HandlePush? || p.HandleUnlock?
  }

  predicate CancelPart(p: Pc) { p.CancelLock? || p.CancelTest? || p.CancelRead? || p.CancelDelete? || p.CancelUnlock? }

  function Go_(s: State, t: nat): State
    requires Typed(s) && t < |s.pc|
  {
    if WorkerPart(s.pc[t]) then GoWorker(s, t)
    else if HandlePart(s.pc[t]) then GoHandle(s, t)
    else if CancelPart(s.pc[t]) then GoCancel(s, t)
    else GoDo(s, t)
  }

  function Next(s: State, e: Event): State
    requires Enabled(s, e) && Typed(s)
  {
    match e
    case Go(t) => Go_(s, t)
    case Wake(t) => Move(s, t, WorkerLock)
    case Notify(t, w) =>
      var s1 := MoveQueue(s, t, Outside, false);
      if Waits(s, w) then Move(s1, w, WorkerLock) else s1
    case StartDo(t, j) => Move(s, t, DoLock(j))
    case StartCancel(t, j) => Move(s, t, CancelLock(j))
  }

  /** Job numbers are in range and threads play their roles. */
  predicate Typed(s: State) {
    && s.workers <= |s.pc|
    && (forall t | 0 <= t < |s.pc| :: JobOf(s.pc[t]) < |s.job| && (t < s.workers <==> WorkerPc(s.pc[t])))
    && (forall i | 0 <= i < |s.queue| :: s.queue[i] < |s.job|)
  }

  // ---------------------------------------------------------------- invariants

  predicate QueueLock(s: State) {
    && -1 <= s.qlock < |s.pc|
    && forall t | 0 <= t < |s.pc| :: HoldsQueue(s.pc[t]) <==> s.qlock == t
  }

  predicate JobLocks(s: State) {
    && (forall t | 0 <= t < |s.pc| && HoldsJob(s.pc[t]) >= 0 ::
        HoldsJob(s.pc[t]) < |s.job| && s.job[HoldsJob(s.pc[t])].holder == t)
    && (forall j | 0 <= j < |s.job| :: -1 <= s.job[j].holder < |s.pc|
         && (s.job[j].holder >= 0 ==> HoldsJob(s.pc[s.job[j].holder]) == j))
  }

  /** A job is in at most one thread's hands. */
  predicate Owners(s: State) {
    && (forall t | 0 <= t < |s.pc| && Owns(s.pc[t]) >= 0 :: Owns(s.pc[t]) < |s.job| && s.job[Owns(s.pc[t])].owner == t)
    && (forall j | 0 <= j < |s.job| :: -1 <= s.job[j].owner < |s.pc|
         && (s.job[j].owner >= 0 ==> Owns(s.pc[s.job[j].owner]) == j))
  }

  /** A signalled job is queued once or in one thread's hands, and never both; others are neither. */
  predicate Active(s: State) {
    && Distinct(s.queue)
    && forall j | 0 <= j < |s.job| ::
         && s.job[j].count >= 0
         && (s.job[j].count > 0 <==> j in s.queue || s.job[j].owner >= 0)
         && !(j in s.queue && s.job[j].owner >= 0)
  }

  /** The callback of j has returned and its signal is not yet taken off the count. */
  function Unsettled(s: State, j: nat): int
    requires j < |s.job|
  {
    var t := s.job[j].owner;
    if 0 <= t < |s.pc| && (s.pc[t] == HandleLock(j) || s.pc[t] == HandleCount(j)) then 1 else 0
  }

  /** Every do_job is a callback that returned, a signal still counted, or one that was cancelled. */
  predicate Accounts(s: State) {
    forall j | 0 <= j < |s.job| :: s.job[j].calls == s.job[j].done + s.job[j].dropped + s.job[j].count - Unsettled(s, j)
  }

  // ---------------------------------------------------------------- what one thread's step can touch

  predicate Within(x: int, jj: int) { x == -1 || x == jj }

  /** The step of thread t from s to s' concerns at most the job jj; mutexes and ownership move with t. */
  ghost predicate Foot(s: State, s': State, t: nat, jj: int) {
    && t < |s.pc| && |s'.pc| == |s.pc| && s'.pc == s.pc[t := s'.pc[t]]
    && s'.workers == s.workers && |s'.job| == |s.job| && -1 <= jj < |s.job|
    && (var p, p' := s.pc[t], s'.pc[t];
        && WorkerPc(p) == WorkerPc(p') && JobOf(p') < |s.job|
        && Within(HoldsJob(p), jj) && Within(HoldsJob(p'), jj) && Within(Owns(p), jj) && Within(Owns(p'), jj)
        && s'.qlock == (if HoldsQueue(p') then t else if HoldsQueue(p) then -1 else s.qlock)
        && (HoldsQueue(p') ==> HoldsQueue(p) || s.qlock == -1)
        && s'.job == (if jj < 0 then s.job else s.job[jj := s'.job[jj]])
        && (jj >= 0 ==>
            && s'.job[jj].holder == (if HoldsJob(p') == jj then t else if HoldsJob(p) == jj then -1
              else s.job[jj].holder)
            && (HoldsJob(p') == jj ==> HoldsJob(p) == jj || s.job[jj].holder == -1)
            && s'.job[jj].owner == (if Owns(p') == jj then t else if Owns(p) == jj then -1 else s.job[jj].owner)
            && (Owns(p') == jj ==> Owns(p) == jj || s.job[jj].owner == -1)))
  }

  /** What the step does to the queue and to the count of jj. */
  ghost predicate Queues(s: State, s': State, jj: int) {
    && Distinct(s'.queue)
    && (forall i | 0 <= i < |s'.queue| :: s'.queue[i] == jj || s'.queue[i] in s.queue)
    && (forall i | 0 <= i < |s.queue| :: s.queue[i] == jj || s.queue[i] in s'.queue)
    && (0 <= jj < |s'.job| ==>
        && s'.job[jj].count >= 0
        && (s'.job[jj].count > 0 <==> jj in s'.queue || s'.job[jj].owner >= 0)
        && !(jj in s'.queue && s'.job[jj].owner >= 0))
  }

  ghost predicate Basic(s: State) { Typed(s) && QueueLock(s) && JobLocks(s) && Owners(s) && Active(s) }

  lemma {:induction false} FootQueueLock(s: State, s': State, t: nat, jj: int)
    requires QueueLock(s) && Foot(s, s', t, jj)
    ensures QueueLock(s')
  {
    hide HoldsQueue, HoldsJob, Owns, WorkerPc, JobOf;
  }

  lemma {:induction false} FootJobLocks(s: State, s': State, t: nat, jj: int)
    requires JobLocks(s) && Foot(s, s', t, jj)
    ensures JobLocks(s')
  {
    hide HoldsQueue, HoldsJob, Owns, WorkerPc, JobOf;
  }

  lemma {:induction false} FootOwners(s: State, s': State, t: nat, jj: int)
    requires Owners(s) && Foot(s, s', t, jj)
    ensures Owners(s')
  {
    hide HoldsQueue, HoldsJob, Owns, WorkerPc, JobOf;
  }

  lemma {:induction false} FootActive(s: State, s': State, t: nat, jj: int)
    requires Typed(s) && Active(s) && Foot(s, s', t, jj) && Queues(s, s', jj)
    ensures Typed(s') && Active(s')
  {
    hide HoldsQueue, HoldsJob, Owns, WorkerPc, JobOf;
  }

  lemma {:induction false} FootBasic(s: State, s': State, t: nat, jj: int)
    requires Basic(s) && Foot(s, s', t, jj) && Queues(s, s', jj)
    ensures Basic(s')
  {
    hide Foot, Queues, QueueLock, JobLocks, Owners, Active, Typed;
    FootQueueLock(s, s', t, jj);
    FootJobLocks(s, s', t, jj);
    FootOwners(s, s', t, jj);
    FootActive(s, s', t, jj);
  }

  /** The job the next step of thread t is about, or -1. */
  function Affected(s: State, t: nat): int
    requires t < |s.pc|
  {
    if (s.pc[t].WorkerCheck? || s.pc[t].Pop?) && s.queue != [] then s.queue[0] else JobOf(s.pc[t])
  }

  /** The facts about thread t and its job that its step depends on. */
  ghost predicate Local(s: State, t: nat, jj: int) {
    && t < |s.pc| && -1 <= jj < |s.job|
    && (HoldsQueue(s.pc[t]) ==> s.qlock == t)
    && (0 <= jj ==>
        && (HoldsJob(s.pc[t]) == jj ==> s.job[jj].holder == t)
        && (Owns(s.pc[t]) == jj ==> s.job[jj].owner == t)
        && s.job[jj].count >= 0
        && (s.job[jj].count > 0 <==> jj in s.queue || s.job[jj].owner >= 0)
        && !(jj in s.queue && s.job[jj].owner >= 0)
        && -1 <= s.job[jj].owner < |s.pc|)
  }

  lemma {:induction false} LocalOf(s: State, t: nat)
    requires Basic(s) && t < |s.pc|
    ensures Local(s, t, Affected(s, t))
  {
    hide HoldsQueue, HoldsJob, Owns, WorkerPc, JobOf;
    assert s.queue != [] ==> s.queue[0] < |s.job|;
    assert JobOf(s.pc[t]) < |s.job|;
    JobOfLow(s.pc[t]);
  }

  lemma {:induction false} JobOfLow(p: Pc)
    ensures JobOf(p) >= -1
  {
  }

  lemma {:induction false} WorkerFoot(s: State, t: nat)
    requires t < |s.pc| && WorkerPart(s.pc[t]) && Enabled(s, Go(t)) && Local(s, t, Affected(s, t))
    requires s.queue != [] ==> s.queue[0] < |s.job|
    ensures Foot(s, GoWorker(s, t), t, Affected(s, t))
  {
  }

  lemma {:induction false} HandleFoot(s: State, t: nat)
    requires t < |s.pc| && HandlePart(s.pc[t]) && Enabled(s, Go(t)) && Local(s, t, JobOf(s.pc[t]))
    ensures Foot(s, GoHandle(s, t), t, JobOf(s.pc[t]))
  {
  }

  lemma {:induction false} DoFoot(s: State, t: nat)
    requires t < |s.pc| && Enabled(s, Go(t)) && Local(s, t, JobOf(s.pc[t]))
    requires !WorkerPart(s.pc[t]) && !HandlePart(s.pc[t]) && !CancelPart(s.pc[t])
    ensures Foot(s, GoDo(s, t), t, JobOf(s.pc[t]))
  {
  }

  lemma {:induction false} CancelFoot(s: State, t: nat)
    requires t < |s.pc| && CancelPart(s.pc[t]) && Enabled(s, Go(t)) && Local(s, t, JobOf(s.pc[t]))
    ensures Foot(s, GoCancel(s, t), t, JobOf(s.pc[t]))
  {
  }

  lemma {:induction false} WithoutFacts(q: seq<nat>, j: nat)
    requires Distinct(q)
    ensures Distinct(Without(q, j)) && j !in Without(q, j)
    ensures forall x :: x in Without(q, j) <==> x in q && x != j
  {
    if q != [] {
      assert forall i | 0 <= i < |q[1..]| :: q[1..][i] == q[i + 1];
      assert q[0] !in q[1..];
      WithoutFacts(q[1..], j);
      var w := Without(q[1..], j);
      if q[0] != j {
        assert forall i | 0 <= i < |w| :: w[i] in q[1..] && w[i] != q[0];
      } else {
        assert j !in q[1..];
      }
    }
  }

  /** The queue after a step: unchanged, popped, pushed or with jj taken out. */
  lemma {:induction false} QueueMoves(q: seq<nat>, jj: int)
    requires Distinct(q)
    ensures q != [] ==> Distinct(q[1..]) && q[0] !in q[1..]
    ensures jj >= 0 && jj !in q ==> Distinct(q + [jj as nat])
    ensures forall i | 0 <= i < |q| :: q[i] in q
    ensures q != [] ==> forall i | 0 < i < |q| :: q[i] in q[1..]
  {
    if q != [] {
      assert forall i | 0 < i < |q| :: q[i] == q[1..][i - 1];
    }
  }

  lemma {:induction false} WorkerQueues(s: State, t: nat)
    requires t < |s.pc| && WorkerPart(s.pc[t]) && Enabled(s, Go(t)) && Local(s, t, Affected(s, t)) && Distinct(s.queue)
    requires s.queue != [] ==> s.queue[0] < |s.job|
    ensures Queues(s, GoWorker(s, t), Affected(s, t))
  {
    QueueMoves(s.queue, Affected(s, t));
  }

  lemma {:induction false} HandleQueues(s: State, t: nat)
    requires t < |s.pc| && HandlePart(s.pc[t]) && Local(s, t, JobOf(s.pc[t])) && Distinct(s.queue)
    ensures Queues(s, GoHandle(s, t), JobOf(s.pc[t]))
  {
    QueueMoves(s.queue, JobOf(s.pc[t]));
  }

  lemma {:induction false} DoQueues(s: State, t: nat)
    requires t < |s.pc| && Local(s, t, JobOf(s.pc[t])) && Distinct(s.queue)
    requires !WorkerPart(s.pc[t]) && !HandlePart(s.pc[t]) && !CancelPart(s.pc[t])
    ensures Queues(s, GoDo(s, t), JobOf(s.pc[t]))
  {
    QueueMoves(s.queue, JobOf(s.pc[t]));
  }

  lemma {:induction false} CancelQueues(s: State, t: nat)
    requires t < |s.pc| && CancelPart(s.pc[t]) && Local(s, t, JobOf(s.pc[t])) && Distinct(s.queue)
    requires s.pc[t].CancelDelete? ==> s.pc[t].job in s.queue
    ensures Queues(s, GoCancel(s, t), JobOf(s.pc[t]))
  {
    QueueMoves(s.queue, JobOf(s.pc[t]));
    if s.pc[t].CancelDelete? {
      WithoutFacts(s.queue, s.pc[t].job);
    }
  }

  // ---------------------------------------------------------------- cancel_job

  /** What a canceller has seen is still so, and nobody signals a job that is being cancelled. */
  ghost predicate Cancels(s: State) {
    && (forall t | 0 <= t < |s.pc| ::
          && (s.pc[t].CancelRead? ==> s.pc[t].job !in s.queue)
          && (s.pc[t].CancelDelete? ==> s.pc[t].job in s.queue)
          && (s.pc[t].CancelUnlock? && !s.pc[t].running ==> s.pc[t].job < |s.job| && s.job[s.pc[t].job].count == 0))
    && (forall t, u, j: nat | 0 <= t < |s.pc| && 0 <= u < |s.pc| && InCancel(s.pc[t], j) :: !InDoJob(s.pc[u], j))
  }

  /** The effects of a step that matter to other threads. */
  ghost predicate Effects(s: State, s': State, t: nat, jj: int) {
    && t < |s.pc| && |s'.pc| == |s.pc| && |s'.job| == |s.job| && -1 <= jj < |s.job|
    && (s'.queue != s.queue ==> HoldsQueue(s.pc[t]))
    && (jj >= 0 && s'.job[jj].count != s.job[jj].count ==>
        s.pc[t] == HandleCount(jj) || s.pc[t] == DoCount(jj) || (s.pc[t] == CancelDelete(jj) && s'.job[jj].count == 0))
    && (forall j: nat :: InDoJob(s'.pc[t], j) ==> InDoJob(s.pc[t], j))
    && (forall j: nat :: InCancel(s'.pc[t], j) ==> InCancel(s.pc[t], j))
    && (s'.pc[t].CancelRead? ==> s'.pc[t].job == jj && jj !in s'.queue)
    && (s'.pc[t].CancelDelete? ==> s'.pc[t].job == jj && jj in s'.queue)
    && (s'.pc[t].CancelUnlock? && !s'.pc[t].running ==> s'.pc[t].job == jj && s'.job[jj].count == 0)
  }

  lemma {:induction false} WorkerEffects(s: State, t: nat)
    requires t < |s.pc| && WorkerPart(s.pc[t]) && Local(s, t, Affected(s, t))
             && (s.queue != [] ==> s.queue[0] < |s.job|)
    ensures Effects(s, GoWorker(s, t), t, Affected(s, t))
  {
  }

  lemma {:induction false} HandleEffects(s: State, t: nat)
    requires t < |s.pc| && HandlePart(s.pc[t]) && Local(s, t, JobOf(s.pc[t]))
    ensures Effects(s, GoHandle(s, t), t, JobOf(s.pc[t]))
  {
  }

  lemma {:induction false} DoEffects(s: State, t: nat)
    requires t < |s.pc| && Local(s, t, JobOf(s.pc[t]))
    requires !WorkerPart(s.pc[t]) && !HandlePart(s.pc[t]) && !CancelPart(s.pc[t])
    ensures Effects(s, GoDo(s, t), t, JobOf(s.pc[t]))
  {
  }

  lemma {:induction false} CancelEffects(s: State, t: nat)
    requires t < |s.pc| && CancelPart(s.pc[t]) && Local(s, t, JobOf(s.pc[t])) && Distinct(s.queue)
    requires s.pc[t].CancelRead? ==> s.pc[t].job !in s.queue
    ensures Effects(s, GoCancel(s, t), t, JobOf(s.pc[t]))
  {
  }

  lemma {:induction false} CancelsStay(s: State, s': State, t: nat, jj: int)
    requires Basic(s) && Cancels(s) && Foot(s, s', t, jj) && Effects(s, s', t, jj)
    ensures Cancels(s')
  {
    hide HoldsJob, WorkerPc, InDoJob, InCancel, Typed, JobLocks;
    forall u | 0 <= u < |s.pc| && u != t
      ensures s'.pc[u] == s.pc[u]
      ensures HoldsQueue(s.pc[u]) ==> s'.queue == s.queue
    {
      assert HoldsQueue(s.pc[u]) <==> s.qlock == u;
    }
    forall u | 0 <= u < |s.pc| && u != t && s.pc[u].CancelUnlock? && !s.pc[u].running
      ensures s.pc[u].job < |s'.job| && s'.job[s.pc[u].job].count == 0
    {
      var j := s.pc[u].job;
      if j == jj && s'.job[jj].count != s.job[jj].count {
        CancelExcludes(s, u, t, j);
      }
    }
  }

  lemma {:induction false} CancelExcludes(s: State, u: nat, t: nat, j: nat)
    requires Cancels(s) && u < |s.pc| && t < |s.pc| && s.pc[u].CancelUnlock? && s.pc[u].job == j
    ensures s.pc[t] != DoCount(j)
  {
    assert InCancel(s.pc[u], j);
    assert !InDoJob(s.pc[t], j);
  }

  // ---------------------------------------------------------------- accounting

  ghost predicate AccountsFor(s: State, j: nat) {
    j < |s.job| && s.job[j].calls == s.job[j].done + s.job[j].dropped + s.job[j].count - Unsettled(s, j)
  }

  lemma {:induction false} AccountsStay(s: State, s': State, t: nat, jj: int)
    requires Accounts(s) && Owners(s) && Foot(s, s', t, jj) && (jj >= 0 ==> AccountsFor(s', jj))
    ensures Accounts(s')
  {
    hide HoldsQueue, HoldsJob, WorkerPc, JobOf, Owns;
    forall j | 0 <= j < |s'.job| && j != jj
      ensures Unsettled(s', j) == Unsettled(s, j)
    {
      var u := s.job[j].owner;
      assert s'.job[j] == s.job[j];
      if u >= 0 {
        assert Owns(s.pc[u]) == j;
      }
    }
  }

  lemma {:induction false} WorkerAccounts(s: State, t: nat)
    requires t < |s.pc| && WorkerPart(s.pc[t]) && Local(s, t, Affected(s, t))
             && (s.queue != [] ==> s.queue[0] < |s.job|)
    requires Affected(s, t) >= 0 ==> AccountsFor(s, Affected(s, t))
    ensures Affected(s, t) >= 0 ==> AccountsFor(GoWorker(s, t), Affected(s, t))
  {
  }

  lemma {:induction false} HandleAccounts(s: State, t: nat)
    requires t < |s.pc| && HandlePart(s.pc[t]) && Local(s, t, JobOf(s.pc[t])) && AccountsFor(s, JobOf(s.pc[t]))
    requires s.job[JobOf(s.pc[t])].owner >= 0 && s.job[JobOf(s.pc[t])].owner != t ==>
             Owns(s.pc[s.job[JobOf(s.pc[t])].owner]) == JobOf(s.pc[t])
    ensures AccountsFor(GoHandle(s, t), JobOf(s.pc[t]))
  {
  }

  lemma {:induction false} DoAccounts(s: State, t: nat)
    requires t < |s.pc| && Local(s, t, JobOf(s.pc[t])) && !WorkerPart(s.pc[t]) && !HandlePart(s.pc[t])
             && !CancelPart(s.pc[t])
    requires JobOf(s.pc[t]) >= 0 ==> AccountsFor(s, JobOf(s.pc[t]))
    ensures JobOf(s.pc[t]) >= 0 ==> AccountsFor(GoDo(s, t), JobOf(s.pc[t]))
  {
  }

  lemma {:induction false} CancelAccounts(s: State, t: nat)
    requires t < |s.pc| && Local(s, t, JobOf(s.pc[t])) && CancelPart(s.pc[t]) && AccountsFor(s, JobOf(s.pc[t]))
    ensures AccountsFor(GoCancel(s, t), JobOf(s.pc[t]))
  {
  }

  // ---------------------------------------------------------------- wakeups

  ghost predicate SomeWorkerAwake(s: State) {
    exists u :: 0 <= u < s.workers <= |s.pc| && !s.pc[u].WorkerWait?
  }

  ghost predicate SomeoneSignals(s: State) {
    exists u :: 0 <= u < |s.pc| && AboutToSignal(s.pc[u])
  }

  /** With work in the queue some worker is not blocked in the condition wait, or some do_job is between
      its push and its signal. */
  ghost predicate NoLostWakeup(s: State) {
    s.workers > 0 && s.queue != [] ==> SomeWorkerAwake(s) || SomeoneSignals(s)
  }

  lemma {:induction false} WorkerWakeup(s: State, s': State, t: nat)
    requires Typed(s) && t < s.workers && |s'.pc| == |s.pc| && s'.workers == s.workers
    requires s'.pc[t].WorkerWait? ==> s'.queue == []
    ensures NoLostWakeup(s')
  {
    if s'.queue != [] {
      assert !s'.pc[t].WorkerWait?;
    }
  }

  lemma {:induction false} CallerWakeup(s: State, s': State, t: nat)
    requires Typed(s) && s.workers <= t < |s.pc| == |s'.pc| && s'.pc == s.pc[t := s'.pc[t]] && s'.workers == s.workers
    requires NoLostWakeup(s)
    requires AboutToSignal(s.pc[t]) ==> AboutToSignal(s'.pc[t])
    requires s'.queue != [] && s.queue == [] ==> AboutToSignal(s'.pc[t])
    ensures NoLostWakeup(s')
  {
    if s'.workers > 0 && s'.queue != [] {
      if s.queue == [] {
        assert SomeoneSignals(s');
      } else if SomeWorkerAwake(s) {
        var u :| 0 <= u < s.workers && !s.pc[u].WorkerWait?;
        assert s'.pc[u] == s.pc[u];
      } else {
        var u :| 0 <= u < |s.pc| && AboutToSignal(s.pc[u]);
        assert AboutToSignal(s'.pc[u]);
      }
    }
  }

  lemma {:induction false} GoWorkerWakeup(s: State, t: nat)
    requires Typed(s) && t < s.workers && (WorkerPart(s.pc[t]) || HandlePart(s.pc[t]))
    ensures NoLostWakeup(Go_(s, t))
  {
    hide HoldsQueue, HoldsJob, Owns;
    var s' := Go_(s, t);
    assert s'.pc[t].WorkerWait? ==> s'.queue == [];
    assert |s'.pc| == |s.pc| && s'.workers == s.workers;
    hide Go_;
    WorkerWakeup(s, s', t);
  }

  lemma {:induction false} GoCallerWakeup(s: State, t: nat)
    requires Typed(s) && s.workers <= t < |s.pc| && NoLostWakeup(s) && !WorkerPart(s.pc[t]) && !HandlePart(s.pc[t])
             && !s.pc[t].Signal?
    ensures NoLostWakeup(Go_(s, t))
  {
    hide HoldsQueue, HoldsJob, Owns;
    var s' := Go_(s, t);
    if s.pc[t].CancelDelete? {
      assert s.queue == [] ==> Without(s.queue, s.pc[t].job) == [];
    }
    CallerWakeup(s, s', t);
  }

  // ---------------------------------------------------------------- whole runs

  ghost predicate Inv(s: State) { Basic(s) && Accounts(s) && Cancels(s) && NoLostWakeup(s) }

  lemma {:induction false} RoleOf(p: Pc)
    ensures WorkerPc(p) <==> WorkerPart(p) || HandlePart(p) || p.WorkerWait?
  {
  }

  lemma {:induction false} OwnerFacts(s: State, t: nat)
    requires Basic(s) && t < |s.pc| && JobOf(s.pc[t]) >= 0
    ensures var j := JobOf(s.pc[t]); j < |s.job| && (s.job[j].owner >= 0 ==>
              s.job[j].owner < |s.pc| && Owns(s.pc[s.job[j].owner]) == j)
  {
    hide HoldsQueue, HoldsJob, Owns, WorkerPc, JobOf;
  }

  lemma {:induction false} AccountsAt(s: State, j: int)
    requires Accounts(s) && -1 <= j < |s.job|
    ensures j >= 0 ==> AccountsFor(s, j)
  {
  }

  lemma {:induction false} GoInv(s: State, t: nat)
    requires Inv(s) && Enabled(s, Go(t))
    ensures Inv(Next(s, Go(t)))
  {
    var p, jj := s.pc[t], Affected(s, t);
    var s' := Next(s, Go(t));
    LocalOf(s, t);
    RoleOf(p);
    AccountsAt(s, jj);
    assert Distinct(s.queue) && (s.queue != [] ==> s.queue[0] < |s.job|) && JobOf(p) < |s.job|
      && (t < s.workers <==> WorkerPc(p));
    assert p.CancelDelete? ==> p.job in s.queue;
    assert p.CancelRead? ==> p.job !in s.queue;
    hide Typed, QueueLock, JobLocks, Owners, Active, Accounts, Cancels, HoldsQueue, HoldsJob, Owns, Local, Foot, Queues,
      Effects;
    if WorkerPart(p) {
      WorkerFoot(s, t); WorkerQueues(s, t); WorkerEffects(s, t); WorkerAccounts(s, t);
    } else if HandlePart(p) {
      OwnerFacts(s, t);
      HandleFoot(s, t); HandleQueues(s, t); HandleEffects(s, t); HandleAccounts(s, t);
    } else if CancelPart(p) {
      CancelFoot(s, t); CancelQueues(s, t); CancelEffects(s, t); CancelAccounts(s, t);
    } else {
      DoFoot(s, t); DoQueues(s, t); DoEffects(s, t); DoAccounts(s, t);
    }
    if t < s.workers {
      GoWorkerWakeup(s, t);
    } else {
      GoCallerWakeup(s, t);
    }
    hide Next, AccountsFor, NoLostWakeup;
    FootBasic(s, s', t, jj);
    AccountsStay(s, s', t, jj);
    CancelsStay(s, s', t, jj);
  }

  /** A thread that is outside every critical section moves on without touching anything. */
  lemma {:induction false} PlainMove(s: State, t: nat, p': Pc)
    requires Basic(s) && Accounts(s) && t < |s.pc| && JobOf(p') < |s.job| && WorkerPc(s.pc[t]) == WorkerPc(p')
    requires !HoldsQueue(s.pc[t]) && !HoldsQueue(p') && HoldsJob(s.pc[t]) == HoldsJob(p') == Owns(s.pc[t]) ==
             Owns(p') == -1
    ensures Basic(Move(s, t, p')) && Accounts(Move(s, t, p'))
  {
    var s' := Move(s, t, p');
    assert Foot(s, s', t, -1);
    assert Queues(s, s', -1) by {
      QueueMoves(s.queue, -1);
    }
    hide Foot, Queues, Move;
    FootBasic(s, s', t, -1);
    AccountsStay(s, s', t, -1);
  }

  lemma {:induction false} PlainCancels(s: State, t: nat, p': Pc)
    requires Cancels(s) && t < |s.pc| && !p'.CancelRead? && !p'.CancelDelete? && !p'.CancelUnlock?
    requires forall j: nat, u | InDoJob(p', j) && 0 <= u < |s.pc| :: !InCancel(s.pc[u], j)
    requires forall j: nat, u | InCancel(p', j) && 0 <= u < |s.pc| :: !InDoJob(s.pc[u], j)
    requires forall j: nat :: !(InDoJob(p', j) && InCancel(p', j))
    ensures Cancels(Move(s, t, p'))
  {
    hide InDoJob, InCancel;
  }

  lemma {:induction false} StartInv(s: State, e: Event)
    requires Inv(s) && Enabled(s, e) && (e.StartDo? || e.StartCancel?)
    ensures Inv(Next(s, e))
  {
    hide Accounts, Cancels, NoLostWakeup, QueueLock, JobLocks, Owners, Active;
    var p' := if e.StartDo? then DoLock(e.j) else CancelLock(e.j);
    RoleOf(s.pc[e.t]);
    assert e.t >= s.workers;
    PlainMove(s, e.t, p');
    PlainCancels(s, e.t, p');
    assert Next(s, e) == Move(s, e.t, p');
    CallerWakeup(s, Move(s, e.t, p'), e.t);
  }

  lemma {:induction false} WakeInv(s: State, t: nat)
    requires Basic(s) && Accounts(s) && Cancels(s) && t < s.workers && s.pc[t].WorkerWait?
    ensures Inv(Move(s, t, WorkerLock))
  {
    hide Accounts, Cancels, QueueLock, JobLocks, Owners, Active, NoLostWakeup;
    PlainMove(s, t, WorkerLock);
    PlainCancels(s, t, WorkerLock);
    WorkerWakeup(s, Move(s, t, WorkerLock), t);
  }

  /** The signalling thread leaves do_job and gives job_mutex back. */
  lemma {:induction false} SignalLeaves(s: State, t: nat)
    requires Basic(s) && Accounts(s) && Cancels(s) && t < |s.pc| && s.pc[t].Signal?
    ensures var s1 := MoveQueue(s, t, Outside, false); Basic(s1) && Accounts(s1) && Cancels(s1)
  {
    var s1 := MoveQueue(s, t, Outside, false);
    assert Foot(s, s1, t, -1);
    assert Queues(s, s1, -1) by {
      QueueMoves(s.queue, -1);
    }
    PlainCancels(s, t, Outside);
    hide Foot, Queues, MoveQueue;
    FootBasic(s, s1, t, -1);
    AccountsStay(s, s1, t, -1);
  }

  lemma {:induction false} NotifyInv(s: State, t: nat, w: nat)
    requires Inv(s) && Enabled(s, Notify(t, w))
    ensures Inv(Next(s, Notify(t, w)))
  {
    var s1 := MoveQueue(s, t, Outside, false);
    SignalLeaves(s, t);
    if Waits(s, w) {
      WakeInv(s1, w);
    } else if s.workers > 0 {
      assert !s1.pc[0].WorkerWait?;
      assert SomeWorkerAwake(s1);
    }
  }

  /** Every step of every thread keeps the invariant. */
  lemma {:induction false} NextInv(s: State, e: Event)
    requires Inv(s) && Enabled(s, e)
    ensures Inv(Next(s, e))
  {
    match e
    case Go(t) => GoInv(s, t);
    case Wake(t) =>
      RoleOf(s.pc[t]);
      WakeInv(s, t);
    case Notify(t, w) => NotifyInv(s, t, w);
    case StartDo(t, j) => StartInv(s, e);
    case StartCancel(t, j) => StartInv(s, e);
  }

  /** thread_pool__init, with any number of workers, other threads and jobs. */
  function Init(workers: nat, others: nat, jobs: nat): State {
    State(seq(workers, _ => WorkerLock) + seq(others, _ => Outside), workers, -1,
      seq(jobs, _ => Job(0, -1, -1, 0, 0, 0)), [])
  }

  ghost predicate Step(s: State, e: Event, s': State) { Typed(s) && Enabled(s, e) && s' == Next(s, e) }

  ghost predicate Follows(s: State, s': State) { exists e :: Step(s, e, s') }

  lemma {:induction false} InitBasic(workers: nat, others: nat, jobs: nat)
    ensures Basic(Init(workers, others, jobs))
  {
    var s := Init(workers, others, jobs);
    assert forall t | 0 <= t < |s.pc| :: s.pc[t] == (if t < workers then WorkerLock else Outside);
  }

  lemma {:induction false} InitInv(workers: nat, others: nat, jobs: nat)
    ensures Inv(Init(workers, others, jobs))
  {
    hide Basic;
    InitBasic(workers, others, jobs);
    var s := Init(workers, others, jobs);
    assert forall t | 0 <= t < |s.pc| :: s.pc[t] == WorkerLock || s.pc[t] == Outside;
  }

  lemma {:induction false} FollowsInv(s: State, s': State)
    requires Inv(s) && Follows(s, s')
    ensures Inv(s')
  {
    hide Inv, Next, Enabled, Typed;
    var e :| Step(s, e, s');
    NextInv(s, e);
  }

  /** A run: states that follow one another from the initial one. */
  ghost predicate Behaviour(b: seq<State>, workers: nat, others: nat, jobs: nat) {
    && |b| > 0 && b[0] == Init(workers, others, jobs)
    && forall i | 0 <= i < |b| - 1 :: Follows(b[i], b[i + 1])
  }

  lemma {:induction false} BehaviourInv(b: seq<State>, workers: nat, others: nat, jobs: nat, k: nat)
    requires Behaviour(b, workers, others, jobs) && k < |b|
    ensures Inv(b[k])
  {
    hide Inv, Init, Follows;
    if k == 0 {
      InitInv(workers, others, jobs);
    } else {
      BehaviourInv(b, workers, others, jobs, k - 1);
      assert Follows(b[k - 1], b[(k - 1) + 1]);
      FollowsInv(b[k - 1], b[k]);
    }
  }

  /** In every state of every run a job is never queued twice, never run by two workers, and never both
      queued and running; and no wakeup is lost. */
  lemma {:induction false} ExclusionAlways(b: seq<State>, workers: nat, others: nat, jobs: nat, k: nat)
    requires Behaviour(b, workers, others, jobs) && k < |b|
    ensures Distinct(b[k].queue)
    ensures forall t, u | 0 <= t < u < |b[k].pc| && b[k].pc[t].Callback? && b[k].pc[u].Callback? ::
            b[k].pc[t].job != b[k].pc[u].job
    ensures forall t | 0 <= t < |b[k].pc| && b[k].pc[t].Callback? :: b[k].pc[t].job !in b[k].queue
    ensures NoLostWakeup(b[k])
  {
    BehaviourInv(b, workers, others, jobs, k);
    var s := b[k];
    hide Accounts, Cancels, NoLostWakeup, QueueLock, JobLocks;
    forall t | 0 <= t < |s.pc| && s.pc[t].Callback?
      ensures s.pc[t].job < |s.job| && s.job[s.pc[t].job].owner == t && s.pc[t].job !in s.queue
    {
      assert Owns(s.pc[t]) == s.pc[t].job;
    }
  }

  /** In every state of every run each do_job is accounted for: while no worker is between the return of
      j's callback and the decrement, and nothing was cancelled, completed callbacks plus signalcount is
      the number of do_job calls. */
  lemma {:induction false} AccountingAlways(b: seq<State>, workers: nat, others: nat, jobs: nat, k: nat, j: nat)
    requires Behaviour(b, workers, others, jobs) && k < |b| && j < |b[k].job| && b[k].job[j].dropped == 0
    requires forall t | 0 <= t < |b[k].pc| :: b[k].pc[t] != HandleLock(j) && b[k].pc[t] != HandleCount(j)
    ensures b[k].job[j].done + b[k].job[j].count == b[k].job[j].calls
  {
    BehaviourInv(b, workers, others, jobs, k);
    hide Basic, Cancels, NoLostWakeup;
    AccountsAt(b[k], j);
  }

  /** When cancel_job(j) is about to return, j is neither queued nor in any thread's hands.  Other threads that
      still refer to j are cancelling it as well, or are a worker about to unlock j's mutex; there is no such
      worker if and only if the mutex is free. */
  lemma {:induction false} CancelledIsIdle(b: seq<State>, workers: nat, others: nat, jobs: nat, k: nat, t: nat, j: nat)
    requires Behaviour(b, workers, others, jobs) && k < |b| && t < |b[k].pc| && b[k].pc[t] == CancelUnlock(j, false)
    ensures j !in b[k].queue && forall u | 0 <= u < |b[k].pc| :: Owns(b[k].pc[u]) != j
    ensures forall u | 0 <= u < |b[k].pc| && JobOf(b[k].pc[u]) == j ::
            InCancel(b[k].pc[u], j) || b[k].pc[u] == HandleUnlock(j)
    ensures j < |b[k].job|
    ensures (forall u | 0 <= u < |b[k].pc| :: b[k].pc[u] != HandleUnlock(j)) <==> b[k].job[j].holder == -1
  {
    BehaviourInv(b, workers, others, jobs, k);
    var s := b[k];
    hide Accounts, NoLostWakeup, QueueLock;
    assert j < |s.job| && s.job[j].count == 0;
    forall u | 0 <= u < |s.pc|
      ensures !InDoJob(s.pc[u], j)
    {
      assert InCancel(s.pc[t], j);
    }
    forall u | 0 <= u < |s.pc| && HoldsJob(s.pc[u]) == j
      ensures s.pc[u] == HandleUnlock(j)
    {
    }
  }

  // ---------------------------------------------------------------- a cancel that returns too early

  function Two(worker: Pc, caller: Pc, qlock: int, job: Job, queue: seq<nat>): State {
    State([worker, caller], 1, qlock, [job], queue)
  }

  /** One worker, one caller and one job: the caller queues the job, the worker runs it, and the caller cancels it
      before the worker has unlocked its mutex. */
  function EarlyRun(i: nat): State {
    match i
    case 0 => Two(WorkerLock, Outside, -1, Job(0, -1, -1, 0, 0, 0), [])
    case 1 => Two(WorkerLock, DoLock(0), -1, Job(0, -1, -1, 0, 0, 0), [])
    case 2 => Two(WorkerLock, DoCount(0), -1, Job(0, 1, -1, 0, 0, 0), [])
    case 3 => Two(WorkerLock, DoPushLock(0), -1, Job(1, 1, 1, 1, 0, 0), [])
    case 4 => Two(WorkerLock, DoPush(0), 1, Job(1, 1, 1, 1, 0, 0), [])
    case 5 => Two(WorkerLock, DoUnlock(0), -1, Job(1, 1, -1, 1, 0, 0), [0])
    case 6 => Two(WorkerLock, SignalLock, -1, Job(1, -1, -1, 1, 0, 0), [0])
    case 7 => Two(WorkerLock, Signal, 1, Job(1, -1, -1, 1, 0, 0), [0])
    case 8 => Two(WorkerLock, Outside, -1, Job(1, -1, -1, 1, 0, 0), [0])
    case 9 => Two(WorkerCheck, Outside, 0, Job(1, -1, -1, 1, 0, 0), [0])
    case 10 => Two(WorkerUnlock(0), Outside, 0, Job(1, -1, 0, 1, 0, 0), [])
    case 11 => Two(Callback(0), Outside, -1, Job(1, -1, 0, 1, 0, 0), [])
    case 12 => Two(HandleLock(0), Outside, -1, Job(1, -1, 0, 1, 1, 0), [])
    case 13 => Two(HandleCount(0), Outside, -1, Job(1, 0, 0, 1, 1, 0), [])
    case 14 => Two(HandleUnlock(0), Outside, -1, Job(0, 0, -1, 1, 1, 0), [])
    case 15 => Two(HandleUnlock(0), CancelLock(0), -1, Job(0, 0, -1, 1, 1, 0), [])
    case 16 => Two(HandleUnlock(0), CancelTest(0), 1, Job(0, 0, -1, 1, 1, 0), [])
    case 17 => Two(HandleUnlock(0), CancelRead(0), 1, Job(0, 0, -1, 1, 1, 0), [])
    case 18 => Two(HandleUnlock(0), CancelUnlock(0, false), 1, Job(0, 0, -1, 1, 1, 0), [])
    case _ => Two(HandleUnlock(0), Outside, -1, Job(0, 0, -1, 1, 1, 0), [])
  }

  function EarlyEvent(i: nat): Event {
    if i == 0 then StartDo(1, 0) else if i == 7 then Notify(1, 0) else if i == 14 then StartCancel(1, 0)
    else if i < 7 || i > 14 then Go(1) else Go(0)
  }

  lemma {:induction false} EarlyStepStart()
    ensures Step(EarlyRun(0), EarlyEvent(0), EarlyRun(1))
  {
    hide Go_;
  }

  lemma {:induction false} EarlyStepCount(i: nat)
    requires 1 <= i < 3
    ensures Step(EarlyRun(i), EarlyEvent(i), EarlyRun(i + 1))
  {
    hide GoWorker, GoHandle, GoCancel;
  }

  lemma {:induction false} EarlyStepPush(i: nat)
    requires 3 <= i < 5
    ensures Step(EarlyRun(i), EarlyEvent(i), EarlyRun(i + 1))
  {
    hide GoWorker, GoHandle, GoCancel;
  }

  lemma {:induction false} EarlyStepUnlock(i: nat)
    requires 5 <= i < 7
    ensures Step(EarlyRun(i), EarlyEvent(i), EarlyRun(i + 1))
  {
    hide GoWorker, GoHandle, GoCancel;
  }

  lemma {:induction false} EarlyStepNotify()
    ensures Step(EarlyRun(7), EarlyEvent(7), EarlyRun(8))
  {
    hide Go_;
  }

  lemma {:induction false} EarlyStepPop(i: nat)
    requires 8 <= i < 10
    ensures Step(EarlyRun(i), EarlyEvent(i), EarlyRun(i + 1))
  {
    hide GoHandle, GoDo, GoCancel;
  }

  lemma {:induction false} EarlyStepRun(i: nat)
    requires 10 <= i < 12
    ensures Step(EarlyRun(i), EarlyEvent(i), EarlyRun(i + 1))
  {
    hide GoDo, GoCancel;
  }

  lemma {:induction false} EarlyStepHandle(i: nat)
    requires 12 <= i < 14
    ensures Step(EarlyRun(i), EarlyEvent(i), EarlyRun(i + 1))
  {
    hide GoWorker, GoDo, GoCancel;
  }

  lemma {:induction false} EarlyStepCancel()
    ensures Step(EarlyRun(14), EarlyEvent(14), EarlyRun(15))
  {
    hide Go_;
  }

  lemma {:induction false} EarlyStepTest(i: nat)
    requires 15 <= i < 17
    ensures Step(EarlyRun(i), EarlyEvent(i), EarlyRun(i + 1))
  {
    hide GoWorker, GoHandle, GoDo;
  }

  lemma {:induction false} EarlyStepReturn(i: nat)
    requires 17 <= i < 19
    ensures Step(EarlyRun(i), EarlyEvent(i), EarlyRun(i + 1))
  {
    hide GoWorker, GoHandle, GoDo;
  }

  /** A run in which cancel_job returns while a worker is still about to unlock the job's mutex. */
  lemma {:induction false} CancelReturnsBeforeUnlock() returns (b: seq<State>)
    ensures Behaviour(b, 1, 1, 1) && |b| == 20
    ensures b[18].pc == [HandleUnlock(0), CancelUnlock(0, false)] && b[19].pc == [HandleUnlock(0), Outside]
  {
    b := seq(20, i requires 0 <= i => EarlyRun(i));
    assert Init(1, 1, 1) == EarlyRun(0) by {
      var s := Init(1, 1, 1);
      assert s.pc == [WorkerLock, Outside] && s.job == [Job(0, -1, -1, 0, 0, 0)];
    }
    forall i | 0 <= i < |b| - 1
      ensures Follows(b[i], b[i + 1])
    {
      hide EarlyRun, EarlyEvent, Step;
      if i < 1 {
        EarlyStepStart();
      } else if i < 3 {
        EarlyStepCount(i);
      } else if i < 5 {
        EarlyStepPush(i);
      } else if i < 7 {
        EarlyStepUnlock(i);
      } else if i < 8 {
        EarlyStepNotify();
      } else if i < 10 {
        EarlyStepPop(i);
      } else if i < 12 {
        EarlyStepRun(i);
      } else if i < 14 {
        EarlyStepHandle(i);
      } else if i < 15 {
        EarlyStepCancel();
      } else if i < 17 {
        EarlyStepTest(i);
      } else {
        EarlyStepReturn(i);
      }
    }
  }
}
