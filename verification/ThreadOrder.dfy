/** The order in which the pool of util/threadpool.c serves its jobs. */
module ThreadOrder {
  import opened Sequences
  import opened ThreadPool

  /** j stands before k. */
  ghost predicate Ahead(q: seq<nat>, j: nat, k: nat) {
    exists a, b :: 0 <= a < b < |q| && q[a] == j && q[b] == k
  }

  /** What a step does to the queue. */
  datatype Change = Same | Pushed(j: nat) | Popped | Cancelled(j: nat)

  function ChangeOf(s: State, e: Event): Change
    requires Enabled(s, e)
  {
    if !e.Go? then Same
    else
      match s.pc[e.t]
      case WorkerCheck => if s.queue == [] then Same else Popped
      case Pop => if s.queue == [] then Same else Popped
      case HandlePush(j) => Pushed(j)
      case DoPush(j) => Pushed(j)
      case CancelDelete(j) => Cancelled(j)
      case _ => Same
  }

  /** A job enters at the tail, a worker takes the one at the head, and a cancel takes its job from where it is. */
  lemma {:induction false} QueueStep(s: State, e: Event)
    requires Inv(s) && Enabled(s, e)
    ensures var q, s' := s.queue, Next(s, e);
            match ChangeOf(s, e)
            case Same => s'.queue == q
            case Pushed(j) => j !in q && s'.queue == q + [j]
            case Popped => q != [] && s'.queue == q[1..] && e.t < |s'.pc| && Owns(s'.pc[e.t]) == q[0]
            case Cancelled(j) => j in q && s'.queue == Without(q, j)
  {
    hide Accounts, NoLostWakeup, QueueLock, JobLocks;
    if e.Go? && (s.pc[e.t].HandlePush? || s.pc[e.t].DoPush?) {
      OwnerFacts(s, e.t);
      assert Owns(s.pc[e.t]) == s.pc[e.t].job;
    }
  }

  lemma {:induction false} WithoutIndex(q: seq<nat>, x: nat) returns (a: nat)
    requires x in q
    ensures a < |q| && q[a] == x && Without(q, x) == q[..a] + q[a + 1..]
  {
    if q[0] == x {
      a := 0;
    } else {
      a := WithoutIndex(q[1..], x);
      assert q[..a + 1] == [q[0]] + q[1..][..a];
      assert q[1..][a + 1..] == q[a + 2..];
      a := a + 1;
    }
  }

  lemma {:induction false} RemovedAhead(q: seq<nat>, r: seq<nat>, c: nat, j: nat, k: nat)
    requires c < |q| && |r| == |q| - 1 && forall i | 0 <= i < |r| :: r[i] == q[if i < c then i else i + 1]
    ensures Ahead(r, j, k) ==> Ahead(q, j, k)
    ensures Ahead(q, j, k) && j != q[c] && k != q[c] ==> Ahead(r, j, k)
  {
    if Ahead(r, j, k) {
      var a, b :| 0 <= a < b < |r| && r[a] == j && r[b] == k;
      var a', b' := if a < c then a else a + 1, if b < c then b else b + 1;
      assert 0 <= a' < b' < |q| && q[a'] == j && q[b'] == k;
    }
    if Ahead(q, j, k) && j != q[c] && k != q[c] {
      var a, b :| 0 <= a < b < |q| && q[a] == j && q[b] == k;
      var a', b' := if a < c then a else a - 1, if b < c then b else b - 1;
      assert 0 <= a' < b' < |r| && r[a'] == j && r[b'] == k;
    }
  }

  lemma {:induction false} WithoutAhead(q: seq<nat>, x: nat, j: nat, k: nat)
    requires x in q
    ensures Ahead(Without(q, x), j, k) ==> Ahead(q, j, k)
    ensures Ahead(q, j, k) && j != x && k != x ==> Ahead(Without(q, x), j, k)
  {
    var c := WithoutIndex(q, x);
    hide Without, Ahead;
    RemovedAhead(q, Without(q, x), c, j, k);
  }

  lemma {:induction false} AheadTail(q: seq<nat>, j: nat, k: nat)
    requires Distinct(q) && q != []
    ensures Ahead(q[1..], j, k) ==> Ahead(q, j, k)
    ensures Ahead(q, j, k) && j in q[1..] ==> Ahead(q[1..], j, k)
  {
    if Ahead(q[1..], j, k) {
      var a, b :| 0 <= a < b < |q| - 1 && q[1..][a] == j && q[1..][b] == k;
      assert q[a + 1] == j && q[b + 1] == k;
    }
    if Ahead(q, j, k) && j in q[1..] {
      var a, b :| 0 <= a < b < |q| && q[a] == j && q[b] == k;
      assert a > 0;
      assert q[1..][a - 1] == j && q[1..][b - 1] == k;
    }
  }

  lemma {:induction false} AheadPush(q: seq<nat>, x: nat, j: nat, k: nat)
    requires x !in q
    ensures Ahead(q, j, k) ==> Ahead(q + [x], j, k)
    ensures Ahead(q + [x], j, k) && k in q ==> Ahead(q, j, k)
  {
    var r := q + [x];
    if Ahead(q, j, k) {
      var a, b :| 0 <= a < b < |q| && q[a] == j && q[b] == k;
      assert r[a] == j && r[b] == k;
    }
    if Ahead(r, j, k) && k in q {
      var a, b :| 0 <= a < b < |r| && r[a] == j && r[b] == k;
      assert b < |q|;
      assert q[a] == j && q[b] == k;
    }
  }

  /** A step keeps the order of the jobs that stay in the queue, and puts none before one that was there. */
  lemma {:induction false} AheadStep(s: State, e: Event, j: nat, k: nat)
    requires Inv(s) && Enabled(s, e)
    ensures var q, q' := s.queue, Next(s, e).queue;
            && (Ahead(q, j, k) && j in q' && k in q' ==> Ahead(q', j, k))
            && (Ahead(q', j, k) && k in q ==> Ahead(q, j, k))
  {
    QueueStep(s, e);
    QueueDistinct(s);
    hide Inv, Next, Enabled, ChangeOf, Ahead, Distinct, Without;
    match ChangeOf(s, e)
    case Same =>
    case Pushed(x) => AheadPush(s.queue, x, j, k);
    case Popped => AheadTail(s.queue, j, k);
    case Cancelled(x) =>
      WithoutAhead(s.queue, x, j, k);
      WithoutFacts(s.queue, x);
  }

  lemma {:induction false} QueueDistinct(s: State)
    requires Inv(s)
    ensures Distinct(s.queue)
  {
  }

  // ---------------------------------------------------------------- whole runs

  /** The step from state m of a run. */
  lemma {:induction false} StepAt(b: seq<State>, workers: nat, others: nat, jobs: nat, m: nat) returns (e: Event)
    requires Behaviour(b, workers, others, jobs) && m + 1 < |b|
    ensures Inv(b[m]) && Enabled(b[m], e) && b[m + 1] == Next(b[m], e)
  {
    hide Inv, Init, Next, Enabled, Typed;
    BehaviourInv(b, workers, others, jobs, m);
    assert Follows(b[m], b[m + 1]);
    e :| Step(b[m], e, b[m + 1]);
  }

  /** Of two jobs that stay in the queue, the one that stands first goes on standing first. */
  lemma {:induction false} OrderKept(b: seq<State>, workers: nat, others: nat, jobs: nat, m: nat, n: nat, j: nat,
                                     k: nat)
    requires Behaviour(b, workers, others, jobs) && m <= n < |b| && Ahead(b[m].queue, j, k)
    requires forall u | m <= u <= n :: j in b[u].queue && k in b[u].queue
    ensures Ahead(b[n].queue, j, k)
    decreases n - m
  {
    hide Ahead, Behaviour, Inv, Next, Enabled, Typed;
    if m < n {
      OrderKept(b, workers, others, jobs, m, n - 1, j, k);
      var e := StepAt(b, workers, others, jobs, n - 1);
      AheadStep(b[n - 1], e, j, k);
    }
  }

  /** A job that enters the queue enters at its end, behind all that are there. */
  lemma {:induction false} EntersLast(b: seq<State>, workers: nat, others: nat, jobs: nat, m: nat, j: nat)
    requires Behaviour(b, workers, others, jobs) && m + 1 < |b| && j !in b[m].queue && j in b[m + 1].queue
    ensures b[m + 1].queue == b[m].queue + [j]
  {
    hide Behaviour, Inv, Next, Enabled, Typed, ChangeOf;
    var e := StepAt(b, workers, others, jobs, m);
    QueueStep(b[m], e);
    QueueDistinct(b[m]);
    if ChangeOf(b[m], e).Cancelled? {
      WithoutFacts(b[m].queue, ChangeOf(b[m], e).j);
    }
  }

  /** If j stands before k now and k has been queued since state i, then so has j, before k all the time. */
  lemma {:induction false} AheadBefore(b: seq<State>, workers: nat, others: nat, jobs: nat, i: nat, m: nat, j: nat,
                                       k: nat)
    requires Behaviour(b, workers, others, jobs) && i <= m < |b| && Ahead(b[m].queue, j, k)
    requires forall u | i <= u <= m :: k in b[u].queue
    ensures forall u | i <= u <= m :: Ahead(b[u].queue, j, k)
    decreases m - i
  {
    hide Ahead, Behaviour, Inv, Next, Enabled, Typed;
    if i < m {
      var e := StepAt(b, workers, others, jobs, m - 1);
      AheadStep(b[m - 1], e, j, k);
      AheadBefore(b, workers, others, jobs, i, m - 1, j, k);
    }
  }

  lemma {:induction false} HeadAhead(q: seq<nat>, k: nat)
    requires k in q && k != q[0]
    ensures Ahead(q, q[0], k)
  {
    var b :| 0 <= b < |q| && q[b] == k;
    assert 0 < b && q[0] == q[0];
  }

  lemma {:induction false} AheadMember(q: seq<nat>, j: nat, k: nat)
    requires Ahead(q, j, k)
    ensures j in q
  {
  }

  /** k has been in the queue from state i to state m. */
  ghost predicate QueuedSince(b: seq<State>, i: nat, m: nat, k: nat) {
    i <= m < |b| && forall u | i <= u <= m :: k in b[u].queue
  }

  lemma {:induction false} HeadSince(b: seq<State>, workers: nat, others: nat, jobs: nat, i: nat, m: nat, k: nat)
    requires Behaviour(b, workers, others, jobs) && QueuedSince(b, i, m, k)
    ensures b[m].queue != [] && QueuedSince(b, i, m, b[m].queue[0])
  {
    hide Ahead, Behaviour;
    assert k in b[m].queue;
    var j := b[m].queue[0];
    if k != j {
      HeadAhead(b[m].queue, k);
      AheadBefore(b, workers, others, jobs, i, m, j, k);
      forall u | i <= u <= m
        ensures j in b[u].queue
      {
        AheadMember(b[u].queue, j, k);
      }
    }
  }

  /** The job that a worker takes out of the queue is the one at its head, and has been queued longest: whenever
      another one was queued from some state on, so was this one. */
  lemma {:induction false} LongestFirst(b: seq<State>, workers: nat, others: nat, jobs: nat, m: nat, t: nat, j: nat)
    requires Behaviour(b, workers, others, jobs) && m + 1 < |b| && t < |b[m + 1].pc|
    requires j in b[m].queue && j !in b[m + 1].queue && Owns(b[m + 1].pc[t]) == j
    ensures j == b[m].queue[0] && b[m + 1].queue == b[m].queue[1..]
    ensures forall i: nat, k: nat | QueuedSince(b, i, m, k) :: QueuedSince(b, i, m, j)
  {
    hide Behaviour, QueuedSince, Owns;
    TakenIsHead(b, workers, others, jobs, m, t, j);
    forall i: nat, k: nat | QueuedSince(b, i, m, k)
      ensures QueuedSince(b, i, m, j)
    {
      HeadSince(b, workers, others, jobs, i, m, k);
    }
  }

  lemma {:induction false} TakenIsHead(b: seq<State>, workers: nat, others: nat, jobs: nat, m: nat, t: nat, j: nat)
    requires Behaviour(b, workers, others, jobs) && m + 1 < |b| && t < |b[m + 1].pc|
    requires j in b[m].queue && j !in b[m + 1].queue && Owns(b[m + 1].pc[t]) == j
    ensures j == b[m].queue[0] && b[m + 1].queue == b[m].queue[1..]
  {
    hide Behaviour, Inv, Next, Enabled, Typed, ChangeOf, Owns;
    var e := StepAt(b, workers, others, jobs, m);
    QueueStep(b[m], e);
    CancelLeavesNobody(b[m], e);
    var c := ChangeOf(b[m], e);
    if c.Popped? {
      assert b[m].queue == [b[m].queue[0]] + b[m].queue[1..];
    } else if c.Cancelled? {
      QueueDistinct(b[m]);
      WithoutFacts(b[m].queue, c.j);
    }
  }

  /** A cancelled job is in no thread's hands. */
  lemma {:induction false} CancelLeavesNobody(s: State, e: Event)
    requires Inv(s) && Enabled(s, e)
    ensures var s' := Next(s, e);
            ChangeOf(s, e).Cancelled? ==> forall t | 0 <= t < |s'.pc| :: Owns(s'.pc[t]) != ChangeOf(s, e).j
  {
    hide Accounts, NoLostWakeup, QueueLock, JobLocks;
    if ChangeOf(s, e).Cancelled? {
      var j := ChangeOf(s, e).j;
      assert j in s.queue && j < |s.job| && s.job[j].owner < 0;
      assert forall t | 0 <= t < |s.pc| :: Owns(s.pc[t]) != j;
    }
  }
}
