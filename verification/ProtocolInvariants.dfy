/** What every step of the protocol keeps, one predicate and one preservation lemma at a time. */
module ProtocolInvariants {
  import opened Sums
  import opened Mutexes
  import opened Protocol

  // ----- who holds the mutex, and how often

  function WorkerDepth(pc: WorkerPc): nat
  {
    match pc
    case AtCheck => 1
    case InCheck => 2
    case Checked(_) => 2
    case Decided(_) => 1
    case Took(_) => 1
    case _ => 0
  }

  function PusherDepth(pc: PusherPc): nat
  {
    match pc
    case Ready => 0
    case AtEnqueue => 1
    case AtUnlock(_) => 1
    case AtSignal(locked) => if locked then 1 else 0
  }

  ghost predicate Shape(c: Config, s: State)
  {
    |s.ws| == c.workers && |s.ps| == |c.scripts| + 1
  }

  // The mutex is held exactly by the thread, and exactly as often, as program counters say.
  ghost predicate MutexOk(s: State)
  {
    && (s.mutex.Held? ==>
          && s.mutex.depth >= 1
          && match s.mutex.owner
             case Worker(i) => i < |s.ws|
             case Pusher(p) => p < |s.ps|)
    && (forall i: nat :: i < |s.ws| ==> DepthOf(s.mutex, Worker(i)) == WorkerDepth(s.ws[i]))
    && (forall p: nat :: p < |s.ps| ==> DepthOf(s.mutex, Pusher(p)) == PusherDepth(s.ps[p].pc))
  }

  // An answer of is_empty stays true until the asking worker acts on it.
  ghost predicate AnswersOk(s: State)
  {
    forall i :: 0 <= i < |s.ws| && (s.ws[i].Checked? || s.ws[i].Decided?) ==> s.ws[i].empty == (s.q == [])
  }

  ghost predicate LockInv(c: Config, s: State)
  {
    Shape(c, s) && MutexOk(s) && AnswersOk(s) && PhaseOk(c, s) && !s.fault
  }

  ghost predicate PhaseOk(c: Config, s: State)
    requires Shape(c, s)
  {
    && (forall p :: 0 <= p < |s.ps| && s.ps[p].pc.AtEnqueue? ==> s.ps[p].todo != [])
    && (s.phase.Launching? || s.phase.Serving? ==> s.ps[0] == PusherState(Ready, Pills(c.workers)))
    && (s.phase.Launching? ==>
          && s.phase.next <= c.workers
          && forall p :: 0 <= p < |s.ps| ==> s.ps[p].pc.Ready?)
    && (forall i :: 0 <= i < |s.ws| ==> (s.ws[i].Unborn? <==> s.phase.Launching? && i >= s.phase.next))
    && (s.phase.Destroying? || s.phase.Joining? || s.phase.Returned? ==>
          forall p :: 1 <= p < |s.ps| ==> Quiet(s.ps[p]))
    && (s.phase.Joining? || s.phase.Returned? ==> Quiet(s.ps[0]))
    && (s.phase.Joining? ==>
          && s.phase.next <= c.workers
          && forall i :: 0 <= i < s.phase.next ==> s.ws[i].Exited?)
    && (s.phase.Returned? ==> forall i :: 0 <= i < |s.ws| ==> s.ws[i].Exited?)
  }

  ghost predicate Newborn(s: State)
  {
    s.phase.Launching? && s.phase.next < |s.ws| ==> s.ws[s.phase.next].Unborn?
  }

  // The worker that a step of another thread may touch, and what it can do to it.
  function Touched(s: State, m: Move): nat
  {
    match m
    case PusherMove(_, target) => target
    case Spurious(i) => i
    case _ => if s.phase.Launching? then s.phase.next else 0
  }

  lemma OtherStep(c: Config, s: State, m: Move)
    requires Newborn(s) && Enabled(c, s, m) && !m.WorkerMove?
    ensures var s', k := Apply(c, s, m), Touched(s, m);
            && s'.popped == s.popped && s'.started == s.started && s'.finished == s.finished
            && (s'.ws == s.ws ||
                (k < |s.ws| && s.ws[k].Asleep? && s'.ws == s.ws[k := Woken]) ||
                (k < |s.ws| && s.ws[k].Unborn? && s'.ws == s.ws[k := AtPop]))
  {
    match m
    case PusherMove(p, target) =>
    case MainMove =>
    case Spurious(i) =>
  }

  lemma MutexWorkerStep(c: Config, s: State, i: nat)
    requires LockInv(c, s) && WorkerEnabled(c, s, i)
    ensures MutexOk(ApplyWorker(c, s, i))
  {
    var s' := ApplyWorker(c, s, i);
    forall k: nat | k < |s.ws| ensures DepthOf(s'.mutex, Worker(k)) == WorkerDepth(s'.ws[k]) {
      DepthAfter(s.mutex, Worker(i), Worker(k));
    }
    forall p: nat | p < |s.ps| ensures DepthOf(s'.mutex, Pusher(p)) == PusherDepth(s'.ps[p].pc) {
      DepthAfter(s.mutex, Worker(i), Pusher(p));
    }
  }

  lemma MutexPusherStep(c: Config, s: State, p: nat, target: nat)
    requires LockInv(c, s) && PusherEnabled(c, s, p, target)
    ensures MutexOk(ApplyPusher(c, s, p, target))
  {
    var s' := ApplyPusher(c, s, p, target);
    forall k: nat | k < |s.ws| ensures DepthOf(s'.mutex, Worker(k)) == WorkerDepth(s'.ws[k]) {
      DepthAfter(s.mutex, Pusher(p), Worker(k));
    }
    forall k: nat | k < |s.ps| ensures DepthOf(s'.mutex, Pusher(k)) == PusherDepth(s'.ps[k].pc) {
      DepthAfter(s.mutex, Pusher(p), Pusher(k));
    }
  }

  lemma MutexStep(c: Config, s: State, m: Move)
    requires LockInv(c, s) && Enabled(c, s, m)
    ensures MutexOk(Apply(c, s, m))
  {
    match m
    case WorkerMove(i) => MutexWorkerStep(c, s, i);
    case PusherMove(p, target) => MutexPusherStep(c, s, p, target);
    case MainMove =>
    case Spurious(i) =>
  }

  lemma AnswersWorkerStep(c: Config, s: State, i: nat)
    requires MutexOk(s) && AnswersOk(s) && !s.fault && WorkerEnabled(c, s, i)
    ensures AnswersOk(ApplyWorker(c, s, i)) && !ApplyWorker(c, s, i).fault
  {
    assert DepthOf(s.mutex, Worker(i)) == WorkerDepth(s.ws[i]);
    if s.ws[i].Decided? {
      forall k: nat | k < |s.ws| && (s.ws[k].Checked? || s.ws[k].Decided?) ensures k == i {
        assert DepthOf(s.mutex, Worker(k)) == WorkerDepth(s.ws[k]);
      }
    }
  }

  lemma AnswersPusherStep(c: Config, s: State, p: nat, target: nat)
    requires MutexOk(s) && AnswersOk(s) && !s.fault && PusherEnabled(c, s, p, target)
    ensures AnswersOk(ApplyPusher(c, s, p, target)) && !ApplyPusher(c, s, p, target).fault
  {
    assert DepthOf(s.mutex, Pusher(p)) == PusherDepth(s.ps[p].pc);
    if s.ps[p].pc.AtEnqueue? {
      forall k: nat | k < |s.ws| ensures !s.ws[k].Checked? && !s.ws[k].Decided? {
        assert DepthOf(s.mutex, Worker(k)) == WorkerDepth(s.ws[k]);
      }
    }
  }

  lemma PhaseWorkerStep(c: Config, s: State, i: nat)
    requires Shape(c, s) && PhaseOk(c, s) && WorkerEnabled(c, s, i)
    ensures Shape(c, ApplyWorker(c, s, i)) && PhaseOk(c, ApplyWorker(c, s, i))
  {
  }

  lemma PhasePusherStep(c: Config, s: State, p: nat, target: nat)
    requires Shape(c, s) && PhaseOk(c, s) && PusherEnabled(c, s, p, target)
    ensures Shape(c, ApplyPusher(c, s, p, target)) && PhaseOk(c, ApplyPusher(c, s, p, target))
  {
  }

  lemma PhaseMainStep(c: Config, s: State)
    requires Shape(c, s) && PhaseOk(c, s) && MainEnabled(s)
    ensures Shape(c, ApplyMain(s)) && PhaseOk(c, ApplyMain(s))
  {
  }

  lemma LockStep(c: Config, s: State, m: Move)
    requires LockInv(c, s) && Enabled(c, s, m)
    ensures LockInv(c, Apply(c, s, m))
  {
    MutexStep(c, s, m);
    match m
    case WorkerMove(i) =>
      AnswersWorkerStep(c, s, i);
      PhaseWorkerStep(c, s, i);
    case PusherMove(p, target) =>
      AnswersPusherStep(c, s, p, target);
      PhasePusherStep(c, s, p, target);
    case MainMove => PhaseMainStep(c, s);
    case Spurious(i) =>
  }

  // ----- histories

  function Jobs(log: seq<Entry>): (r: seq<Job>)
    ensures |r| == |log|
  {
    seq(|log|, (i: nat) requires i < |log| => log[i].job)
  }

  // What pusher `p` has enqueued, in order.
  function PushedBy(log: seq<Entry>, p: nat): seq<Job>
  {
    if log == [] then []
    else
      var last := log[|log| - 1];
      PushedBy(log[..|log| - 1], p) + if last.pusher == p then [last.job] else []
  }

  // What the callers have enqueued, that is everything but the destructor's empty functions.
  function Adds(log: seq<Entry>): seq<Job>
  {
    if log == [] then []
    else
      var last := log[|log| - 1];
      Adds(log[..|log| - 1]) + if last.pusher != 0 then [last.job] else []
  }

  // The queue holds the enqueued jobs that were not dequeued, in order.
  ghost predicate FifoOk(s: State)
  {
    Jobs(s.pushed) == s.popped + s.q
  }

  // Every pusher enqueues its script in program order.
  ghost predicate OrderOk(c: Config, s: State)
    requires Shape(c, s)
  {
    && (forall k :: 0 <= k < |s.pushed| ==> s.pushed[k].pusher < |s.ps|)
    && (forall p: nat :: p < |s.ps| ==> PushedBy(s.pushed, p) + s.ps[p].todo == ScriptOf(c, p))
  }

  // The destructor's empty functions come after all other jobs; `todo` are those still to come.
  ghost predicate AddsOk(c: Config, pushed: seq<Entry>, todo: seq<Job>)
  {
    && |todo| <= c.workers
    && todo == Pills(|todo|)
    && Jobs(pushed) == Adds(pushed) + Pills(c.workers - |todo|)
  }

  lemma FifoStep(c: Config, s: State, m: Move)
    requires FifoOk(s) && Enabled(c, s, m)
    ensures FifoOk(Apply(c, s, m))
  {
    var s' := Apply(c, s, m);
    if s'.pushed != s.pushed {
      assert Jobs(s'.pushed) == Jobs(s.pushed) + [s.ps[m.p].todo[0]];
    }
  }

  lemma OrderEnqueue(c: Config, s: State, p: nat, next: PusherPc)
    requires Shape(c, s) && OrderOk(c, s) && p < |s.ps| && s.ps[p].todo != []
    ensures OrderOk(c, s.(pushed := s.pushed + [Entry(p, s.ps[p].todo[0])],
                          ps := s.ps[p := PusherState(next, s.ps[p].todo[1..])]))
  {
    var todo, e := s.ps[p].todo, Entry(p, s.ps[p].todo[0]);
    var pushed' := s.pushed + [e];
    assert pushed'[..|pushed'| - 1] == s.pushed;
    assert todo == [e.job] + todo[1..];
    forall k: nat | k < |s.ps|
      ensures PushedBy(pushed', k) + (if k == p then todo[1..] else s.ps[k].todo) == ScriptOf(c, k)
    {
      assert PushedBy(s.pushed, k) + s.ps[k].todo == ScriptOf(c, k);
    }
  }

  lemma OrderStep(c: Config, s: State, m: Move)
    requires Shape(c, s) && OrderOk(c, s) && Enabled(c, s, m)
    ensures Shape(c, Apply(c, s, m)) && OrderOk(c, Apply(c, s, m))
  {
    if m.PusherMove? && s.ps[m.p].pc.AtEnqueue? {
      OrderEnqueue(c, s, m.p, Apply(c, s, m).ps[m.p].pc);
    }
  }

  lemma PillsGrow(k: nat)
    ensures Pills(k + 1) == Pills(k) + [Nothing] && Pills(k + 1)[1..] == Pills(k)
  {
  }

  lemma AddsEnqueue(c: Config, pushed: seq<Entry>, todo: seq<Job>, e: Entry)
    requires AddsOk(c, pushed, todo)
    requires if e.pusher == 0 then todo != [] && e.job == todo[0] else todo == Pills(c.workers)
    ensures AddsOk(c, pushed + [e], if e.pusher == 0 then todo[1..] else todo)
  {
    var pushed' := pushed + [e];
    assert pushed'[..|pushed'| - 1] == pushed;
    assert Jobs(pushed') == Jobs(pushed) + [e.job];
    if e.pusher == 0 {
      PillsGrow(c.workers - |todo|);
      PillsGrow(|todo| - 1);
    }
  }

  lemma AddsStep(c: Config, s: State, m: Move)
    requires Shape(c, s) && PhaseOk(c, s) && AddsOk(c, s.pushed, s.ps[0].todo) && Enabled(c, s, m)
    ensures var s' := Apply(c, s, m); Shape(c, s') && AddsOk(c, s'.pushed, s'.ps[0].todo)
  {
    var s' := Apply(c, s, m);
    if m.PusherMove? && s.ps[m.p].pc.AtEnqueue? {
      AddsEnqueue(c, s.pushed, s.ps[0].todo, Entry(m.p, s.ps[m.p].todo[0]));
    } else {
      assert s'.pushed == s.pushed && s'.ps[0].todo == s.ps[0].todo;
    }
  }

  // ----- one empty function per worker that stops

  function PillOf(pc: WorkerPc): nat
  {
    if pc == Took(Nothing) || pc == Holding(Nothing) || pc.Exited? then 1 else 0
  }

  function Empties(jobs: seq<Job>): nat
  {
    if jobs == [] then 0
    else Empties(jobs[..|jobs| - 1]) + if jobs[|jobs| - 1].Nothing? then 1 else 0
  }

  // Each worker has taken at most one empty function, and nothing was dequeued after the last one.
  ghost predicate PillsOk(popped: seq<Job>, ws: seq<WorkerPc>)
  {
    && Empties(popped) == Sum(PillOf, ws)
    && (Empties(popped) == |ws| ==> popped == [] || popped[|popped| - 1].Nothing?)
  }

  lemma PillsNeutral(popped: seq<Job>, ws: seq<WorkerPc>, i: nat, pc: WorkerPc)
    requires PillsOk(popped, ws) && i < |ws| && PillOf(pc) == PillOf(ws[i])
    ensures PillsOk(popped, ws[i := pc])
  {
    SumUpdate(PillOf, ws, i, pc);
  }

  lemma PillsDequeue(popped: seq<Job>, ws: seq<WorkerPc>, i: nat, job: Job)
    requires PillsOk(popped, ws) && i < |ws| && ws[i].Decided?
    ensures PillsOk(popped + [job], ws[i := Took(job)])
  {
    SumUpdate(PillOf, ws, i, Took(job));
    assert (popped + [job])[..|popped|] == popped;
    SumFull(PillOf, ws);
    SumFull(PillOf, ws[i := Took(job)]);
  }

  lemma PillsWorkerStep(c: Config, s: State, i: nat)
    requires PillsOk(s.popped, s.ws) && WorkerEnabled(c, s, i)
    ensures var s' := ApplyWorker(c, s, i); PillsOk(s'.popped, s'.ws)
  {
    var s' := ApplyWorker(c, s, i);
    if s.ws[i] == Decided(false) {
      if s.q != [] {
        PillsDequeue(s.popped, s.ws, i, s.q[0]);
      }
    } else {
      PillsNeutral(s.popped, s.ws, i, s'.ws[i]);
    }
  }

  lemma PillsStep(c: Config, s: State, m: Move)
    requires Newborn(s) && PillsOk(s.popped, s.ws) && Enabled(c, s, m)
    ensures var s' := Apply(c, s, m); PillsOk(s'.popped, s'.ws)
  {
    if m.WorkerMove? {
      PillsWorkerStep(c, s, m.i);
    } else {
      OtherStep(c, s, m);
      var s', k := Apply(c, s, m), Touched(s, m);
      if s'.ws != s.ws {
        PillsNeutral(s.popped, s.ws, k, s'.ws[k]);
      }
    }
  }

  // ----- no lost wakeup

  // Workers that will look at the queue again before they can sleep.
  function Token(pc: WorkerPc): nat
  {
    match pc
    case Woken => 1
    case AtCheck => 1
    case InCheck => 1
    case Checked(_) => 1
    case Decided(_) => 1
    case _ => 0
  }

  // Pushers that have enqueued and still owe the signal for it.
  function Owed(u: PusherState): nat
  {
    if u.pc == AtUnlock(true) || u.pc.AtSignal? then 1 else 0
  }

  // While somebody sleeps, every queued item is covered by a signal on its way or by a worker
  // that is already up and has not yet acted on the queue.
  ghost predicate WakeupOk(s: State)
  {
    SomeAsleep(s.ws) ==> |s.q| <= Sum(Owed, s.ps) + Sum(Token, s.ws)
  }

  lemma WakeupWorkerStep(c: Config, s: State, i: nat)
    requires AnswersOk(s) && WakeupOk(s) && WorkerEnabled(c, s, i)
    ensures WakeupOk(ApplyWorker(c, s, i))
  {
    var s' := ApplyWorker(c, s, i);
    assert s'.ws == s.ws[i := s'.ws[i]];
    SumUpdate(Token, s.ws, i, s'.ws[i]);
    if SomeAsleep(s'.ws) && !s'.ws[i].Asleep? {
      var k :| 0 <= k < |s'.ws| && s'.ws[k].Asleep?;
      assert s.ws[k].Asleep?;
    }
  }

  lemma WakeupPusherStep(c: Config, s: State, p: nat, target: nat)
    requires WakeupOk(s) && PusherEnabled(c, s, p, target)
    ensures WakeupOk(ApplyPusher(c, s, p, target))
  {
    var s' := ApplyPusher(c, s, p, target);
    assert s'.ps == s.ps[p := s'.ps[p]];
    SumUpdate(Owed, s.ps, p, s'.ps[p]);
    if s.ps[p].pc.AtSignal? && SomeAsleep(s.ws) {
      SumUpdate(Token, s.ws, target, Woken);
    }
  }

  lemma WakeupStep(c: Config, s: State, m: Move)
    requires Shape(c, s) && PhaseOk(c, s) && AnswersOk(s) && WakeupOk(s) && Enabled(c, s, m)
    ensures WakeupOk(Apply(c, s, m))
  {
    match m
    case WorkerMove(i) => WakeupWorkerStep(c, s, i);
    case PusherMove(p, target) => WakeupPusherStep(c, s, p, target);
    case MainMove =>
      if s.phase.Launching? && s.phase.next < |s.ws| {
        var s' := ApplyMain(s);
        SumUpdate(Token, s.ws, s.phase.next, AtPop);
        if SomeAsleep(s'.ws) {
          var k :| 0 <= k < |s'.ws| && s'.ws[k].Asleep?;
          assert s.ws[k].Asleep?;
        }
      }
    case Spurious(i) => SumUpdate(Token, s.ws, i, Woken);
  }

  // ----- every dequeued task is started once, every started task is finished or running

  // 1 if the worker has dequeued task `id` and not started it; 1 if it is running it.
  function HoldsTask(id: nat, pc: WorkerPc): nat
  {
    if pc == Took(Task(id)) || pc == Holding(Task(id)) then 1 else 0
  }

  function RunsTask(id: nat, pc: WorkerPc): nat
  {
    if pc == Running(id) then 1 else 0
  }

  function Holds(id: nat): WorkerPc -> nat
  {
    pc => HoldsTask(id, pc)
  }

  function Runs(id: nat): WorkerPc -> nat
  {
    pc => RunsTask(id, pc)
  }

  function TaskIds(jobs: seq<Job>): seq<nat>
  {
    if jobs == [] then []
    else
      var last := jobs[|jobs| - 1];
      TaskIds(jobs[..|jobs| - 1]) + if last.Task? then [last.id] else []
  }

  ghost predicate LogsOk(id: nat, popped: seq<Job>, started: seq<nat>, finished: seq<nat>, ws: seq<WorkerPc>)
  {
    && multiset(TaskIds(popped))[id] == multiset(started)[id] + Sum(Holds(id), ws)
    && multiset(started)[id] == multiset(finished)[id] + Sum(Runs(id), ws)
  }

  lemma LogsChange(id: nat, ws: seq<WorkerPc>, i: nat, pc: WorkerPc)
    requires i < |ws|
    ensures Sum(Holds(id), ws[i := pc]) + HoldsTask(id, ws[i]) == Sum(Holds(id), ws) + HoldsTask(id, pc)
    ensures Sum(Runs(id), ws[i := pc]) + RunsTask(id, ws[i]) == Sum(Runs(id), ws) + RunsTask(id, pc)
  {
    SumUpdate(Holds(id), ws, i, pc);
    SumUpdate(Runs(id), ws, i, pc);
  }

  lemma TaskIdsGrow(jobs: seq<Job>, job: Job, id: nat)
    ensures TaskIds(jobs + [job]) == TaskIds(jobs) + if job.Task? then [job.id] else []
    ensures multiset(TaskIds(jobs + [job]))[id] == multiset(TaskIds(jobs))[id] + if job == Task(id) then 1 else 0
  {
    assert (jobs + [job])[..|jobs|] == jobs;
  }

  lemma LogsNeutral(id: nat, s: State, i: nat, pc: WorkerPc)
    requires LogsOk(id, s.popped, s.started, s.finished, s.ws) && i < |s.ws|
    requires HoldsTask(id, pc) == HoldsTask(id, s.ws[i]) && RunsTask(id, pc) == RunsTask(id, s.ws[i])
    ensures LogsOk(id, s.popped, s.started, s.finished, s.ws[i := pc])
  {
    LogsChange(id, s.ws, i, pc);
  }

  lemma LogsDequeue(id: nat, s: State, i: nat, job: Job)
    requires LogsOk(id, s.popped, s.started, s.finished, s.ws) && i < |s.ws| && s.ws[i].Decided?
    ensures LogsOk(id, s.popped + [job], s.started, s.finished, s.ws[i := Took(job)])
  {
    LogsChange(id, s.ws, i, Took(job));
    TaskIdsGrow(s.popped, job, id);
  }

  lemma LogsRun(id: nat, s: State, i: nat)
    requires LogsOk(id, s.popped, s.started, s.finished, s.ws) && i < |s.ws|
    ensures s.ws[i].Holding? && s.ws[i].job.Task? ==>
              var t := s.ws[i].job.id;
              LogsOk(id, s.popped, s.started + [t], s.finished, s.ws[i := Running(t)])
    ensures s.ws[i].Running? ==>
              LogsOk(id, s.popped, s.started, s.finished + [s.ws[i].id], s.ws[i := AtPop])
  {
    if s.ws[i].Holding? && s.ws[i].job.Task? {
      LogsChange(id, s.ws, i, Running(s.ws[i].job.id));
    } else if s.ws[i].Running? {
      LogsChange(id, s.ws, i, AtPop);
    }
  }

  lemma LogsWorkerStep(c: Config, s: State, i: nat, id: nat)
    requires LogsOk(id, s.popped, s.started, s.finished, s.ws) && WorkerEnabled(c, s, i)
    ensures var s' := ApplyWorker(c, s, i); LogsOk(id, s'.popped, s'.started, s'.finished, s'.ws)
  {
    if s.ws[i] == Decided(false) {
      if s.q != [] {
        LogsDequeue(id, s, i, s.q[0]);
      }
    } else if s.ws[i].Running? || (s.ws[i].Holding? && s.ws[i].job.Task?) {
      LogsRun(id, s, i);
    } else {
      LogsNeutral(id, s, i, ApplyWorker(c, s, i).ws[i]);
    }
  }

  lemma LogsStep(c: Config, s: State, m: Move, id: nat)
    requires Newborn(s) && LogsOk(id, s.popped, s.started, s.finished, s.ws) && Enabled(c, s, m)
    ensures var s' := Apply(c, s, m); LogsOk(id, s'.popped, s'.started, s'.finished, s'.ws)
  {
    if m.WorkerMove? {
      LogsWorkerStep(c, s, m.i, id);
    } else {
      OtherStep(c, s, m);
      var s', k := Apply(c, s, m), Touched(s, m);
      if s'.ws != s.ws {
        LogsNeutral(id, s, k, s'.ws[k]);
      }
    }
  }

  // ----- all of it

  ghost predicate Inv(c: Config, s: State)
  {
    && LockInv(c, s)
    && FifoOk(s) && OrderOk(c, s) && AddsOk(c, s.pushed, s.ps[0].todo)
    && WakeupOk(s)
    && PillsOk(s.popped, s.ws)
    && forall id :: LogsOk(id, s.popped, s.started, s.finished, s.ws)
  }

  lemma InvStart(c: Config)
    ensures Inv(c, Start(c))
  {
    var s := Start(c);
    SumZero(PillOf, s.ws);
    forall id ensures LogsOk(id, s.popped, s.started, s.finished, s.ws) {
      SumZero(Holds(id), s.ws);
      SumZero(Runs(id), s.ws);
    }
  }

  lemma InvStep(c: Config, s: State, m: Move)
    requires Inv(c, s) && Enabled(c, s, m)
    ensures Inv(c, Apply(c, s, m))
  {
    LockStep(c, s, m);
    FifoStep(c, s, m);
    OrderStep(c, s, m);
    AddsStep(c, s, m);
    PillsStep(c, s, m);
    WakeupStep(c, s, m);
    var s' := Apply(c, s, m);
    forall id ensures LogsOk(id, s'.popped, s'.started, s'.finished, s'.ws) {
      LogsStep(c, s, m, id);
    }
  }
}
