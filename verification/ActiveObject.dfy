/** The one-worker case: the active object executes what was sent, in the order it was sent. */
module ActiveObject {
  import opened Sums
  import opened Mutexes
  import opened Protocol
  import opened ProtocolInvariants
  import opened ProtocolTheorems
  import opened ProtocolShutdown

  function HeldSeq(pc: WorkerPc): seq<nat>
  {
    match pc
    case Took(job) => if job.Task? then [job.id] else []
    case Holding(job) => if job.Task? then [job.id] else []
    case _ => []
  }

  function RunningSeq(pc: WorkerPc): seq<nat>
  {
    if pc.Running? then [pc.id] else []
  }

  // With one worker the logs are sequences in step with the dequeues.
  ghost predicate SerialOk(popped: seq<Job>, started: seq<nat>, finished: seq<nat>, pc: WorkerPc)
  {
    && TaskIds(popped) == started + HeldSeq(pc)
    && started == finished + RunningSeq(pc)
  }

  lemma SerialDequeue(popped: seq<Job>, started: seq<nat>, finished: seq<nat>, job: Job)
    requires SerialOk(popped, started, finished, Decided(false))
    ensures SerialOk(popped + [job], started, finished, Took(job))
  {
    TaskIdsGrow(popped, job, 0);
  }

  lemma SerialRun(popped: seq<Job>, started: seq<nat>, finished: seq<nat>, pc: WorkerPc)
    requires SerialOk(popped, started, finished, pc)
    ensures pc.Holding? && pc.job.Task? ==> SerialOk(popped, started + [pc.job.id], finished, Running(pc.job.id))
    ensures pc.Running? ==> SerialOk(popped, started, finished + [pc.id], AtPop)
  {
  }

  lemma SerialWorkerStep(c: Config, s: State)
    requires |s.ws| == 1 && WorkerEnabled(c, s, 0)
    requires SerialOk(s.popped, s.started, s.finished, s.ws[0])
    ensures var s' := ApplyWorker(c, s, 0); |s'.ws| == 1 && SerialOk(s'.popped, s'.started, s'.finished, s'.ws[0])
  {
    SerialRun(s.popped, s.started, s.finished, s.ws[0]);
    if s.ws[0] == Decided(false) {
      if s.q != [] {
        SerialDequeue(s.popped, s.started, s.finished, s.q[0]);
      }
    } else if !s.ws[0].Running? && !(s.ws[0].Holding? && s.ws[0].job.Task?) {
      var pc := ApplyWorker(c, s, 0).ws[0];
      assert HeldSeq(pc) == HeldSeq(s.ws[0]) && RunningSeq(pc) == RunningSeq(s.ws[0]);
    }
  }

  lemma SerialStep(c: Config, s: State, m: Move)
    requires Newborn(s) && |s.ws| == 1 && Enabled(c, s, m)
    requires SerialOk(s.popped, s.started, s.finished, s.ws[0])
    ensures var s' := Apply(c, s, m); |s'.ws| == 1 && SerialOk(s'.popped, s'.started, s'.finished, s'.ws[0])
  {
    if m.WorkerMove? {
      SerialWorkerStep(c, s);
    }
  }

  lemma {:induction false} RunSerial(c: Config, ms: seq<Move>)
    requires Run(c, ms).Reached? && c.workers == 1
    ensures var s := Run(c, ms).s; |s.ws| == 1 && SerialOk(s.popped, s.started, s.finished, s.ws[0])
  {
    if ms != [] {
      var before := ms[..|ms| - 1];
      RunInv(c, before);
      RunSerial(c, before);
      SerialStep(c, Run(c, before).s, ms[|ms| - 1]);
    }
  }

  // At every moment: at most one task is running, it is the last one started, and the tasks
  // started are a prefix of the tasks sent, in the order their sends took effect.
  lemma Serial(c: Config, ms: seq<Move>)
    requires Run(c, ms).Reached? && c.workers == 1
    ensures var s := Run(c, ms).s;
            && |s.ws| == 1
            && s.finished <= s.started <= TaskIds(Jobs(s.pushed))
            && |s.started| <= |s.finished| + 1
            && (|s.started| == |s.finished| + 1 <==> s.ws[0].Running?)
            && (s.ws[0].Running? ==> s.started[|s.finished|] == s.ws[0].id)
  {
    RunInv(c, ms);
    RunSerial(c, ms);
    var s := Run(c, ms).s;
    TaskIdsConcat(s.popped, s.q);
  }

  // When the destructor returns, the executed sequence is the sent sequence, if and only if no
  // task was sent behind an empty function; in particular whenever only callable tasks are sent.
  lemma Complete(c: Config, ms: seq<Move>)
    requires Run(c, ms).Reached? && Run(c, ms).s.phase.Returned? && c.workers == 1
    ensures var s := Run(c, ms).s;
            && (s.finished == TaskIds(Adds(s.pushed)) <==> Drainable(Adds(s.pushed), 1))
            && (Sum(Empties, c.scripts) == 0 ==> s.finished == TaskIds(Adds(s.pushed)))
  {
    var s := Run(c, ms).s;
    Executed(c, ms);
    Shutdown(c, ms);
    NoTasks(s.q);
    CutLosesNothing(Adds(s.pushed), 1, s.popped, s.q);
    CallersEmpties(c, ms);
    if Sum(Empties, c.scripts) == 0 {
      FewEmptiesDrain(Adds(s.pushed), 1);
    }
  }

  // What was executed, followed by the tasks still queued, is what was sent.
  lemma Executed(c: Config, ms: seq<Move>)
    requires Run(c, ms).Reached? && Run(c, ms).s.phase.Returned? && c.workers == 1
    ensures var s := Run(c, ms).s; TaskIds(Adds(s.pushed)) == s.finished + TaskIds(s.q)
  {
    var s := Run(c, ms).s;
    RunSerial(c, ms);
    Shutdown(c, ms);
    assert s.ws[0].Exited?;
    assert TaskIds(s.popped) == s.finished;
    SplitTasks(s.popped, s.q, Adds(s.pushed), 1);
  }

  // With one sender the executed sequence is that sender's sequence of calls.
  lemma OneSender(c: Config, ms: seq<Move>)
    requires Run(c, ms).Reached? && Run(c, ms).s.phase.Returned? && c.workers == 1 && |c.scripts| == 1
    ensures Run(c, ms).s.finished == TaskIds(c.scripts[0]) <==> Drainable(c.scripts[0], 1)
  {
    Complete(c, ms);
    Shutdown(c, ms);
    RunInv(c, ms);
    SingleCallerOrder(Run(c, ms).s.pushed);
  }

  // ----- the plain mutex

  ghost predicate PlainOk(s: State)
  {
    && (forall i :: 0 <= i < |s.ws| ==> !s.ws[i].InCheck? && !s.ws[i].Checked?)
    && (forall p :: 0 <= p < |s.ps| ==> s.ps[p].pc != AtSignal(false))
    && (forall p :: 0 <= p < |s.ps| ==> s.ps[p].pc != AtUnlock(true))
  }

  lemma PlainWorkerStep(c: Config, s: State, i: nat)
    requires PlainOk(s) && c.variant.Active? && WorkerEnabled(c, s, i)
    ensures PlainOk(ApplyWorker(c, s, i))
  {
    var pc := ApplyWorker(c, s, i).ws[i];
    assert !pc.InCheck? && !pc.Checked?;
  }

  lemma PlainPusherStep(c: Config, s: State, p: nat, target: nat)
    requires PlainOk(s) && c.variant.Active? && PusherEnabled(c, s, p, target)
    ensures PlainOk(ApplyPusher(c, s, p, target))
  {
    var pc := ApplyPusher(c, s, p, target).ps[p].pc;
    assert pc != AtSignal(false) && pc != AtUnlock(true);
  }

  lemma PlainStep(c: Config, s: State, m: Move)
    requires PlainOk(s) && c.variant.Active? && Enabled(c, s, m)
    ensures PlainOk(Apply(c, s, m))
  {
    match m
    case WorkerMove(i) => PlainWorkerStep(c, s, i);
    case PusherMove(p, target) => PlainPusherStep(c, s, p, target);
    case MainMove =>
    case Spurious(i) =>
  }

  lemma {:induction false} RunPlain(c: Config, ms: seq<Move>)
    requires Run(c, ms).Reached? && c.variant.Active?
    ensures PlainOk(Run(c, ms).s)
  {
    if ms != [] {
      RunPlain(c, ms[..|ms| - 1]);
      PlainStep(c, Run(c, ms[..|ms| - 1]).s, ms[|ms| - 1]);
    }
  }

  // Whether the thread is about to lock the mutex.
  predicate WorkerAtLock(pc: WorkerPc)
  {
    pc.AtPop? || pc.Woken?
  }

  // The active object's mutex is not recursive: no thread that is about to lock it holds it, its
  // is_empty does not lock at all, and a signal is only sent by the thread that holds the mutex.
  lemma PlainMutex(c: Config, ms: seq<Move>)
    requires Run(c, ms).Reached? && c.variant.Active?
    ensures var s := Run(c, ms).s;
            && (forall i: nat :: i < |s.ws| && WorkerAtLock(s.ws[i]) ==> DepthOf(s.mutex, Worker(i)) == 0)
            && (forall p: nat :: p < |s.ps| && s.ps[p].pc.Ready? ==> DepthOf(s.mutex, Pusher(p)) == 0)
            && (forall i: nat :: i < |s.ws| ==> !s.ws[i].InCheck?)
            && (forall p: nat :: p < |s.ps| && s.ps[p].pc.AtSignal? ==> s.mutex == Held(Pusher(p), 1))
  {
    RunPlain(c, ms);
    RunInv(c, ms);
    var s := Run(c, ms).s;
    forall p: nat | p < |s.ps| ensures DepthOf(s.mutex, Pusher(p)) == PusherDepth(s.ps[p].pc) {
    }
  }
}
