/** Theorems about every run of the protocol: any threads, any order, any spurious wakeups. */
module ProtocolTheorems {
  import opened Sums
  import opened Mutexes
  import opened Protocol
  import opened ProtocolInvariants

  // ----- every reachable state

  lemma {:induction false} RunInv(c: Config, ms: seq<Move>)
    ensures Run(c, ms).Reached? ==> Inv(c, Run(c, ms).s)
  {
    if ms == [] {
      InvStart(c);
    } else {
      RunInv(c, ms[..|ms| - 1]);
      if Run(c, ms).Reached? {
        InvStep(c, Run(c, ms[..|ms| - 1]).s, ms[|ms| - 1]);
      }
    }
  }

  // No run pops an empty queue, unlocks a mutex it does not own, or waits with the recursive
  // mutex held twice; the depth is at most 2; at most one thread is inside a locked section.
  lemma LockDiscipline(c: Config, ms: seq<Move>)
    requires Run(c, ms).Reached?
    ensures var s := Run(c, ms).s;
            && !s.fault
            && (s.mutex.Held? ==> 1 <= s.mutex.depth <= 2)
            && (forall i: nat :: i < |s.ws| && s.ws[i] == Decided(true) ==> s.mutex == Held(Worker(i), 1))
            && (forall i: nat, j: nat :: i < j < |s.ws| ==> WorkerDepth(s.ws[i]) == 0 || WorkerDepth(s.ws[j]) == 0)
            && (forall i: nat, p: nat :: i < |s.ws| && p < |s.ps| ==>
                  WorkerDepth(s.ws[i]) == 0 || PusherDepth(s.ps[p].pc) == 0)
  {
    RunInv(c, ms);
    var s := Run(c, ms).s;
    forall i: nat | i < |s.ws|
      ensures DepthOf(s.mutex, Worker(i)) == WorkerDepth(s.ws[i])
    {
    }
    forall p: nat | p < |s.ps|
      ensures DepthOf(s.mutex, Pusher(p)) == PusherDepth(s.ps[p].pc)
    {
    }
    if s.mutex.Held? {
      match s.mutex.owner
      case Worker(i) => assert DepthOf(s.mutex, Worker(i)) == WorkerDepth(s.ws[i]);
      case Pusher(p) => assert DepthOf(s.mutex, Pusher(p)) == PusherDepth(s.ps[p].pc);
    }
  }

  // A sleeping worker with items queued is always covered by a signal still owed or by a worker
  // that is up and will look again; with neither, the queue is empty.
  lemma NoLostWakeup(c: Config, ms: seq<Move>)
    requires Run(c, ms).Reached?
    ensures var s := Run(c, ms).s;
            SomeAsleep(s.ws) && Sum(Owed, s.ps) == 0 && Sum(Token, s.ws) == 0 ==> s.q == []
  {
    RunInv(c, ms);
  }

  // ----- the queue refines an atomic blocking FIFO

  datatype FifoEvent = Silent | Enqueue(job: Job) | Dequeue(job: Job)

  predicate FifoStepTo(q: seq<Job>, e: FifoEvent, q': seq<Job>)
  {
    match e
    case Silent => q' == q
    case Enqueue(job) => q' == q + [job]
    case Dequeue(job) => q == [job] + q'
  }

  // What a step does to the abstract queue: only a locked append and a locked removal touch it.
  function EventOf(s: State, m: Move): FifoEvent
  {
    match m
    case WorkerMove(i) =>
      if i < |s.ws| && s.ws[i] == Decided(false) && s.q != [] then Dequeue(s.q[0]) else Silent
    case PusherMove(p, _) =>
      if p < |s.ps| && s.ps[p].pc.AtEnqueue? && s.ps[p].todo != [] then Enqueue(s.ps[p].todo[0]) else Silent
    case _ => Silent
  }

  // The step a worker takes after is_empty has said no, and the step of a pusher at its append.
  lemma FifoWorkerStep(c: Config, s: State, i: nat)
    requires LockInv(c, s) && WorkerEnabled(c, s, i)
    ensures var s', e := ApplyWorker(c, s, i), EventOf(s, WorkerMove(i));
            && FifoStepTo(s.q, e, s'.q) && !e.Enqueue?
            && s'.pushed == s.pushed && s'.popped == s.popped + (if e.Dequeue? then [e.job] else [])
            && (s.ws[i] == Decided(false) ==> e.Dequeue? && s'.ws[i] == Took(e.job))
            && (e.Dequeue? ==> s.mutex == Held(Worker(i), 1))
  {
    assert DepthOf(s.mutex, Worker(i)) == WorkerDepth(s.ws[i]);
  }

  lemma FifoPusherStep(c: Config, s: State, p: nat, target: nat)
    requires LockInv(c, s) && PusherEnabled(c, s, p, target)
    ensures var s', e := ApplyPusher(c, s, p, target), EventOf(s, PusherMove(p, target));
            && FifoStepTo(s.q, e, s'.q) && !e.Dequeue?
            && Jobs(s'.pushed) == Jobs(s.pushed) + (if e.Enqueue? then [e.job] else []) && s'.popped == s.popped
            && (e.Enqueue? ==> s.mutex == Held(Pusher(p), 1))
  {
    assert DepthOf(s.mutex, Pusher(p)) == PusherDepth(s.ps[p].pc);
  }

  // Every step is an append, a removal of the front, or invisible; both kinds happen with the
  // mutex held once; a worker that was told "not empty" does get an item; and at all times what
  // was enqueued is what was dequeued followed by the queue.
  lemma FifoRefinement(c: Config, ms: seq<Move>, m: Move)
    requires Run(c, ms).Reached? && Enabled(c, Run(c, ms).s, m)
    ensures var s := Run(c, ms).s;
            var s' := Apply(c, s, m);
            var e := EventOf(s, m);
            && FifoStepTo(s.q, e, s'.q)
            && Jobs(s'.pushed) == Jobs(s.pushed) + (if e.Enqueue? then [e.job] else [])
            && s'.popped == s.popped + (if e.Dequeue? then [e.job] else [])
            && Jobs(s'.pushed) == s'.popped + s'.q
            && (m.WorkerMove? && s.ws[m.i] == Decided(false) ==> e.Dequeue? && s'.ws[m.i] == Took(e.job))
            && (!e.Silent? ==> s.mutex == Held(if m.WorkerMove? then Worker(m.i) else Pusher(m.p), 1))
  {
    RunInv(c, ms);
    var s := Run(c, ms).s;
    FifoStep(c, s, m);
    match m
    case WorkerMove(i) => FifoWorkerStep(c, s, i);
    case PusherMove(p, target) => FifoPusherStep(c, s, p, target);
    case MainMove =>
    case Spurious(i) =>
  }

  // ----- no deadlock

  predicate OnlyResting(ws: seq<WorkerPc>)
  {
    forall i :: 0 <= i < |ws| ==> ws[i].Unborn? || ws[i].Asleep? || ws[i].Exited?
  }

  // The first worker from `i` on that can step; |s.ws| if there is none.
  function FirstWorker(c: Config, s: State, i: nat): (r: nat)
    requires i <= |s.ws|
    ensures i <= r <= |s.ws|
    ensures r < |s.ws| ==> WorkerEnabled(c, s, r)
    ensures forall k :: i <= k < r ==> !WorkerEnabled(c, s, k)
    decreases |s.ws| - i
  {
    if i == |s.ws| || WorkerEnabled(c, s, i) then i else FirstWorker(c, s, i + 1)
  }

  function FirstPusher(c: Config, s: State, p: nat, target: nat): (r: nat)
    requires p <= |s.ps|
    ensures p <= r <= |s.ps|
    ensures r < |s.ps| ==> PusherEnabled(c, s, r, target)
    ensures forall k :: p <= k < r ==> !PusherEnabled(c, s, k, target)
    decreases |s.ps| - p
  {
    if p == |s.ps| || PusherEnabled(c, s, p, target) then p else FirstPusher(c, s, p + 1, target)
  }

  function FirstSleeper(ws: seq<WorkerPc>): (r: nat)
    ensures SomeAsleep(ws) ==> r < |ws| && ws[r].Asleep?
  {
    if ws == [] || ws[0].Asleep? then 0
    else
      assert SomeAsleep(ws) ==> SomeAsleep(ws[1..]) by {
        if SomeAsleep(ws) {
          var k :| 0 <= k < |ws| && ws[k].Asleep?;
          assert ws[1..][k - 1].Asleep?;
        }
      }
      1 + FirstSleeper(ws[1..])
  }

  // Some move that is not a spurious wakeup; MainMove when no thread but the main one can step.
  function NextMove(c: Config, s: State): (m: Move)
    ensures !m.Spurious?
  {
    var i := FirstWorker(c, s, 0);
    var target := FirstSleeper(s.ws);
    var p := FirstPusher(c, s, 0, target);
    if i < |s.ws| then WorkerMove(i)
    else if p < |s.ps| then PusherMove(p, target)
    else MainMove
  }

  lemma {:induction false} EmptiesOfPills(jobs: seq<Job>, n: nat)
    ensures Empties(jobs + Pills(n)) == Empties(jobs) + n
  {
    if n == 0 {
      assert jobs + Pills(0) == jobs;
    } else {
      PillsGrow(n - 1);
      assert (jobs + Pills(n))[..|jobs| + n - 1] == jobs + Pills(n - 1);
      EmptiesOfPills(jobs, n - 1);
    }
  }

  // A thread that holds the mutex can always go on.
  lemma OwnerCanStep(c: Config, s: State, target: nat)
    requires LockInv(c, s) && s.mutex.Held?
    requires SomeAsleep(s.ws) ==> target < |s.ws| && s.ws[target].Asleep?
    ensures match s.mutex.owner
            case Worker(i) => WorkerEnabled(c, s, i)
            case Pusher(p) => PusherEnabled(c, s, p, target)
  {
    match s.mutex.owner
    case Worker(i) => assert DepthOf(s.mutex, Worker(i)) == WorkerDepth(s.ws[i]);
    case Pusher(p) =>
      assert DepthOf(s.mutex, Pusher(p)) == PusherDepth(s.ps[p].pc);
      assert !s.ps[p].pc.Ready?;
  }

  // When the join loop is reached, a worker cannot be asleep with everything at rest: all the
  // destructor's empty functions would have been dequeued, one for each worker.
  lemma NoSleeperAtJoin(c: Config, s: State, k: nat)
    requires Inv(c, s) && s.phase.Joining? && OnlyResting(s.ws) && k < |s.ws|
    ensures !s.ws[k].Asleep?
  {
    if s.ws[k].Asleep? {
      SumZero(Owed, s.ps);
      SumZero(Token, s.ws);
      assert s.q == [];
      assert s.popped == Jobs(s.pushed);
      EmptiesOfPills(Adds(s.pushed), c.workers);
      SumFull(PillOf, s.ws);
      assert false;
    }
  }

  lemma Progress(c: Config, s: State)
    requires Inv(c, s) && !s.phase.Returned?
    ensures Enabled(c, s, NextMove(c, s))
  {
    var i := FirstWorker(c, s, 0);
    var target := FirstSleeper(s.ws);
    var p := FirstPusher(c, s, 0, target);
    if s.mutex.Held? {
      OwnerCanStep(c, s, target);
    } else if i == |s.ws| && p == |s.ps| {
      forall k | 0 <= k < |s.ws| ensures s.ws[k].Unborn? || s.ws[k].Asleep? || s.ws[k].Exited? {
        assert !WorkerEnabled(c, s, k);
      }
      if s.phase.Joining? && s.phase.next < |s.ws| {
        NoSleeperAtJoin(c, s, s.phase.next);
      } else if s.phase.Serving? {
        forall k | 1 <= k < |s.ps| ensures Quiet(s.ps[k]) {
          assert !PusherEnabled(c, s, k, target);
        }
      } else if s.phase.Destroying? {
        assert !PusherEnabled(c, s, 0, target);
      }
    }
  }

  // In every reachable state before the destructor has returned, some step other than a spurious
  // wakeup is enabled: neither the workers, the callers nor the destructor can be stuck.
  lemma NoDeadlock(c: Config, ms: seq<Move>)
    requires Run(c, ms).Reached? && !Run(c, ms).s.phase.Returned?
    ensures var m := NextMove(c, Run(c, ms).s);
            !m.Spurious? && Enabled(c, Run(c, ms).s, m) && Run(c, ms + [m]).Reached?
  {
    RunInv(c, ms);
    Progress(c, Run(c, ms).s);
    var m := NextMove(c, Run(c, ms).s);
    assert (ms + [m])[..|ms|] == ms;
  }
}
