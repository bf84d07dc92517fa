/** How runs end: the destructor returns after boundedly many steps, and what has run by then. */
module ProtocolShutdown {
  import opened Sums
  import opened Protocol
  import opened ProtocolInvariants
  import opened ProtocolTheorems

  // ----- termination: a weight that every step but a spurious wakeup lowers

  function WorkerRank(pc: WorkerPc): nat
  {
    match pc
    case Took(_) => 9
    case Holding(_) => 8
    case Running(_) => 7
    case Unborn => 7
    case AtPop => 6
    case Woken => 6
    case AtCheck => 5
    case InCheck => 4
    case Checked(_) => 3
    case Decided(_) => 2
    case Asleep => 0
    case Exited => 0
  }

  function PusherRank(u: PusherState): nat
  {
    20 * |u.todo| +
    match u.pc
    case Ready => 1
    case AtEnqueue => 0
    case AtUnlock(due) => if due then 11 else 2
    case AtSignal(_) => 10
  }

  function PhaseRank(phase: Phase, n: nat): nat
  {
    match phase
    case Launching(k) => 2 * n + 5 - if k <= n then k else n
    case Serving => n + 4
    case Destroying => n + 3
    case Joining(k) => n + 1 - if k <= n then k else n
    case Returned => 0
  }

  function Measure(s: State): nat
  {
    8 * |s.q| + Sum(WorkerRank, s.ws) + Sum(PusherRank, s.ps) + PhaseRank(s.phase, |s.ws|)
  }

  lemma WorkerMeasure(c: Config, s: State, i: nat)
    requires WorkerEnabled(c, s, i) && !ApplyWorker(c, s, i).fault
    ensures Measure(ApplyWorker(c, s, i)) < Measure(s)
  {
    var s' := ApplyWorker(c, s, i);
    assert s'.ws == s.ws[i := s'.ws[i]];
    SumUpdate(WorkerRank, s.ws, i, s'.ws[i]);
  }

  lemma PusherMeasure(c: Config, s: State, p: nat, target: nat)
    requires PusherEnabled(c, s, p, target)
    ensures Measure(ApplyPusher(c, s, p, target)) < Measure(s)
  {
    var s' := ApplyPusher(c, s, p, target);
    assert s'.ps == s.ps[p := s'.ps[p]];
    SumUpdate(PusherRank, s.ps, p, s'.ps[p]);
    if s.ps[p].pc.AtSignal? && SomeAsleep(s.ws) {
      SumUpdate(WorkerRank, s.ws, target, Woken);
    }
  }

  lemma MainMeasure(s: State)
    requires MainEnabled(s) && Newborn(s) && (s.phase.Launching? || s.phase.Joining? ==> s.phase.next <= |s.ws|)
    ensures Measure(ApplyMain(s)) < Measure(s)
  {
    if s.phase.Launching? && s.phase.next < |s.ws| {
      SumUpdate(WorkerRank, s.ws, s.phase.next, AtPop);
    }
  }

  lemma MeasureDrops(c: Config, s: State, m: Move)
    requires LockInv(c, s) && Enabled(c, s, m)
    ensures if m.Spurious? then Measure(Apply(c, s, m)) == Measure(s) + 6
            else Measure(Apply(c, s, m)) < Measure(s)
  {
    match m
    case WorkerMove(i) =>
      AnswersWorkerStep(c, s, i);
      WorkerMeasure(c, s, i);
    case PusherMove(p, target) => PusherMeasure(c, s, p, target);
    case MainMove => MainMeasure(s);
    case Spurious(i) => SumUpdate(WorkerRank, s.ws, i, Woken);
  }

  function SpuriousIn(ms: seq<Move>): nat
  {
    if ms == [] then 0
    else SpuriousIn(ms[..|ms| - 1]) + if ms[|ms| - 1].Spurious? then 1 else 0
  }

  // A run with `k` spurious wakeups has at most Measure(Start(c)) + 7 * k steps.
  lemma {:induction false} RunLength(c: Config, ms: seq<Move>)
    requires Run(c, ms).Reached?
    ensures |ms| + Measure(Run(c, ms).s) <= Measure(Start(c)) + 7 * SpuriousIn(ms)
  {
    if ms != [] {
      var before := ms[..|ms| - 1];
      RunLength(c, before);
      RunInv(c, before);
      MeasureDrops(c, Run(c, before).s, ms[|ms| - 1]);
    }
  }

  // Every job a caller or the destructor still has to push weighs 20, every worker 7.
  lemma StartMeasure(c: Config)
    ensures Measure(Start(c)) == 29 * c.workers + 6 + |c.scripts| + 20 * Sum(LengthOf, c.scripts)
  {
    var s := Start(c);
    RepeatSum(WorkerRank, Unborn, c.workers);
    assert s.ws == seq(c.workers, _ => Unborn);
    assert s.ps == [PusherState(Ready, Pills(c.workers))] + Readied(c.scripts);
    ScriptsRank(c.scripts);
  }

  function Readied(scripts: seq<seq<Job>>): seq<PusherState>
  {
    seq(|scripts|, (p: nat) requires p < |scripts| => PusherState(Ready, scripts[p]))
  }

  function LengthOf(jobs: seq<Job>): nat
  {
    |jobs|
  }

  lemma {:induction false} RepeatSum(f: WorkerPc -> nat, x: WorkerPc, n: nat)
    ensures Sum(f, seq(n, _ => x)) == n * f(x)
  {
    var all := seq(n, _ => x);
    if n > 0 {
      assert all[1..] == seq(n - 1, _ => x);
      RepeatSum(f, x, n - 1);
      assert Sum(f, all) == f(x) + (n - 1) * f(x);
    }
  }

  lemma {:induction false} ScriptsRank(scripts: seq<seq<Job>>)
    ensures Sum(PusherRank, Readied(scripts)) == |scripts| + 20 * Sum(LengthOf, scripts)
  {
    if scripts != [] {
      assert Readied(scripts)[1..] == Readied(scripts[1..]);
      ScriptsRank(scripts[1..]);
    }
  }

  lemma {:induction false} SpuriousConcat(a: seq<Move>, b: seq<Move>)
    ensures SpuriousIn(a + b) == SpuriousIn(a) + SpuriousIn(b)
  {
    if b == [] {
      assert a + b == a;
    } else {
      assert (a + b)[..|a + b| - 1] == a + b[..|b| - 1];
      SpuriousConcat(a, b[..|b| - 1]);
    }
  }

  // Whatever has happened so far, the run goes on to the return of the destructor, without
  // needing any spurious wakeup and within the bound of RunLength. It can be stopped by nothing
  // but unboundedly many spurious wakeups.
  lemma {:induction false} EveryRunReturns(c: Config, ms: seq<Move>) returns (ext: seq<Move>)
    requires Run(c, ms).Reached?
    ensures SpuriousIn(ext) == 0
    ensures Run(c, ms + ext).Reached? && Run(c, ms + ext).s.phase.Returned?
    ensures |ms + ext| <= Measure(Start(c)) + 7 * SpuriousIn(ms)
    decreases Measure(Run(c, ms).s)
  {
    hide Run, Measure, SpuriousIn, NextMove;
    RunLength(c, ms);
    if Run(c, ms).s.phase.Returned? {
      ext := [];
      assert ms + [] == ms;
      NoMoves(c);
    } else {
      var m := NextMove(c, Run(c, ms).s);
      RunOn(c, ms, m);
      var more := EveryRunReturns(c, ms + [m]);
      ext := [m] + more;
      assert ms + ext == ms + [m] + more;
      SpuriousConcat([m], more);
      SpuriousConcat(ms, [m]);
    }
  }

  lemma NoMoves(c: Config)
    ensures SpuriousIn([]) == 0 && Run(c, []).Reached?
  {
  }

  lemma RunOn(c: Config, ms: seq<Move>, m: Move)
    requires Run(c, ms).Reached? && !Run(c, ms).s.phase.Returned? && m == NextMove(c, Run(c, ms).s)
    ensures Run(c, ms + [m]).Reached? && Measure(Run(c, ms + [m]).s) < Measure(Run(c, ms).s)
    ensures SpuriousIn([m]) == 0
  {
    assert SpuriousIn([m]) == SpuriousIn([]);
    NoDeadlock(c, ms);
    RunInv(c, ms);
    MeasureDrops(c, Run(c, ms).s, m);
    assert (ms + [m])[..|ms|] == ms;
  }

  // ----- what has run when the destructor returns

  lemma {:induction false} EmptiesConcat(a: seq<Job>, b: seq<Job>)
    ensures Empties(a + b) == Empties(a) + Empties(b)
  {
    if b == [] {
      assert a + b == a;
    } else {
      assert (a + b)[..|a + b| - 1] == a + b[..|b| - 1];
      EmptiesConcat(a, b[..|b| - 1]);
    }
  }

  lemma {:induction false} TaskIdsConcat(a: seq<Job>, b: seq<Job>)
    ensures TaskIds(a + b) == TaskIds(a) + TaskIds(b)
  {
    if b == [] {
      assert a + b == a;
    } else {
      assert (a + b)[..|a + b| - 1] == a + b[..|b| - 1];
      TaskIdsConcat(a, b[..|b| - 1]);
    }
  }

  lemma {:induction false} NoTasks(jobs: seq<Job>)
    ensures TaskIds(jobs) == [] <==> forall i :: 0 <= i < |jobs| ==> jobs[i].Nothing?
  {
    if jobs != [] {
      NoTasks(jobs[..|jobs| - 1]);
      assert forall i :: 0 <= i < |jobs| - 1 ==> jobs[..|jobs| - 1][i] == jobs[i];
    }
  }

  lemma LogsAtEnd(s: State)
    requires forall i :: 0 <= i < |s.ws| ==> s.ws[i].Exited?
    requires forall id: nat :: LogsOk(id, s.popped, s.started, s.finished, s.ws)
    ensures multiset(s.finished) == multiset(s.started) == multiset(TaskIds(s.popped))
  {
    forall id: nat
      ensures multiset(s.finished)[id] == multiset(s.started)[id] == multiset(TaskIds(s.popped))[id]
    {
      assert LogsOk(id, s.popped, s.started, s.finished, s.ws);
      SumZero(Holds(id), s.ws);
      SumZero(Runs(id), s.ws);
    }
  }

  // When the destructor returns, exactly the dequeued tasks have run to completion, each as often
  // as it was dequeued; the dequeued jobs are the shortest prefix of the push order that holds one
  // empty function per worker; what follows it is still in the queue.
  lemma Shutdown(c: Config, ms: seq<Move>)
    requires Run(c, ms).Reached? && Run(c, ms).s.phase.Returned?
    ensures var s := Run(c, ms).s;
            && multiset(s.finished) == multiset(s.started) == multiset(TaskIds(s.popped))
            && s.popped + s.q == Adds(s.pushed) + Pills(c.workers)
            && Empties(s.popped) == c.workers
            && (s.popped != [] ==> s.popped[|s.popped| - 1].Nothing?)
            && (forall p: nat :: 1 <= p <= |c.scripts| ==> PushedBy(s.pushed, p) == c.scripts[p - 1])
            && |s.ws| == c.workers
            && (forall i :: 0 <= i < |s.ws| ==> s.ws[i].Exited?)
  {
    RunInv(c, ms);
    var s := Run(c, ms).s;
    SumFull(PillOf, s.ws);
    forall id: nat ensures LogsOk(id, s.popped, s.started, s.finished, s.ws) {
    }
    LogsAtEnd(s);
    assert s.ps[0].todo == [];
    forall p: nat | 1 <= p <= |c.scripts| ensures PushedBy(s.pushed, p) == c.scripts[p - 1] {
      assert Quiet(s.ps[p]);
      assert PushedBy(s.pushed, p) + s.ps[p].todo == ScriptOf(c, p);
    }
  }

  // No task is queued behind the last empty function that can stop a worker.
  predicate Drainable(adds: seq<Job>, workers: nat)
  {
    forall i :: 0 <= i < |adds| && adds[i].Task? ==> Empties(adds[..i]) < workers
  }

  // `adds` followed by one empty function per worker, cut after the empty function number
  // `workers`: nothing callable is cut off exactly when `adds` is drainable.
  lemma CutLosesNothing(adds: seq<Job>, workers: nat, popped: seq<Job>, rest: seq<Job>)
    requires popped + rest == adds + Pills(workers)
    requires Empties(popped) == workers && (popped != [] ==> popped[|popped| - 1].Nothing?)
    ensures (forall i :: 0 <= i < |rest| ==> rest[i].Nothing?) <==> Drainable(adds, workers)
  {
    forall i | 0 <= i < |adds| ensures Empties(adds[..i]) < workers <==> i < |popped| {
      assert adds[..i] == (popped + rest)[..i];
      CutPosition(popped, rest, i);
    }
    CutTasks(adds, workers, popped, rest);
  }

  lemma CutPosition(popped: seq<Job>, rest: seq<Job>, i: nat)
    requires i <= |popped + rest|
    requires popped != [] ==> popped[|popped| - 1].Nothing?
    ensures Empties((popped + rest)[..i]) < Empties(popped) <==> i < |popped|
  {
    if i < |popped| {
      var k := |popped| - 1;
      assert (popped + rest)[..i] == popped[..i];
      assert popped == popped[..i] + popped[i..k] + [Nothing];
      BeforeLastEmpty(popped[..i], popped[i..k]);
    } else {
      assert (popped + rest)[..i] == popped + rest[..i - |popped|];
      EmptiesConcat(popped, rest[..i - |popped|]);
    }
  }

  lemma BeforeLastEmpty(head: seq<Job>, mid: seq<Job>)
    ensures Empties(head) < Empties(head + mid + [Nothing])
  {
    EmptiesConcat(head, mid);
    EmptiesConcat(head + mid, [Nothing]);
    assert Empties([Nothing]) == Empties([]) + 1;
  }

  lemma CutTasks(adds: seq<Job>, workers: nat, popped: seq<Job>, rest: seq<Job>)
    requires popped + rest == adds + Pills(workers)
    ensures (forall i :: 0 <= i < |rest| ==> rest[i].Nothing?) <==>
            (forall i :: 0 <= i < |adds| && adds[i].Task? ==> i < |popped|)
  {
    var all := adds + Pills(workers);
    assert forall i :: 0 <= i < |rest| ==> rest[i] == all[|popped| + i];
    assert forall i :: |popped| <= i < |adds| ==> adds[i] == rest[i - |popped|];
    if i :| 0 <= i < |rest| && !rest[i].Nothing? {
      assert adds[|popped| + i].Task?;
    }
  }

  // All added tasks have run when the destructor returns, if and only if no task was queued
  // behind `workers` empty functions. With no worker at all, that means: if there were no tasks.
  lemma DrainBeforeJoin(c: Config, ms: seq<Move>)
    requires Run(c, ms).Reached? && Run(c, ms).s.phase.Returned?
    ensures var s := Run(c, ms).s;
            multiset(s.finished) == multiset(TaskIds(Adds(s.pushed))) <==> Drainable(Adds(s.pushed), c.workers)
  {
    Shutdown(c, ms);
    var s := Run(c, ms).s;
    var adds := Adds(s.pushed);
    SplitTasks(s.popped, s.q, adds, c.workers);
    SameMultiset(TaskIds(s.popped), TaskIds(s.q));
    NoTasks(s.q);
    CutLosesNothing(adds, c.workers, s.popped, s.q);
  }

  lemma SplitTasks(popped: seq<Job>, rest: seq<Job>, adds: seq<Job>, n: nat)
    requires popped + rest == adds + Pills(n)
    ensures TaskIds(adds) == TaskIds(popped) + TaskIds(rest)
  {
    TaskIdsConcat(popped, rest);
    TaskIdsConcat(adds, Pills(n));
    NoTasks(Pills(n));
  }

  lemma SameMultiset(a: seq<nat>, b: seq<nat>)
    ensures multiset(a) == multiset(a + b) <==> b == []
  {
    assert |multiset(a + b)| == |a| + |b|;
    assert b == [] ==> a + b == a;
  }

  // ----- in terms of what the callers asked for

  lemma {:induction false} SingleCallerOrder(log: seq<Entry>)
    requires forall k :: 0 <= k < |log| ==> log[k].pusher < 2
    ensures Adds(log) == PushedBy(log, 1)
  {
    if log != [] {
      SingleCallerOrder(log[..|log| - 1]);
    }
  }

  // With one calling thread the condition is on its sequence of calls alone.
  lemma SingleCallerDrain(c: Config, ms: seq<Move>)
    requires Run(c, ms).Reached? && Run(c, ms).s.phase.Returned? && |c.scripts| == 1
    ensures multiset(Run(c, ms).s.finished) == multiset(TaskIds(c.scripts[0])) <==> Drainable(c.scripts[0], c.workers)
  {
    Shutdown(c, ms);
    DrainBeforeJoin(c, ms);
    RunInv(c, ms);
    SingleCallerOrder(Run(c, ms).s.pushed);
  }

  function PushedByAll(log: seq<Entry>, n: nat): seq<seq<Job>>
  {
    seq(n, (p: nat) => PushedBy(log, p + 1))
  }

  // A count that grows entry by entry is, over the push order, the sum of the callers' counts.
  lemma {:induction false} AddsSum(f: seq<Job> -> nat, log: seq<Entry>, n: nat)
    requires f([]) == 0 && forall jobs: seq<Job>, job: Job :: f(jobs + [job]) == f(jobs) + f([job])
    requires forall k :: 0 <= k < |log| ==> log[k].pusher <= n
    ensures f(Adds(log)) == Sum(f, PushedByAll(log, n))
  {
    var now := PushedByAll(log, n);
    if log == [] {
      SumZero(f, now);
    } else {
      var e := log[|log| - 1];
      var before := log[..|log| - 1];
      AddsSum(f, before, n);
      var was := PushedByAll(before, n);
      forall k: nat | k < n ensures now[k] == if e.pusher == k + 1 then was[k] + [e.job] else was[k] {
        assert now[k] == PushedBy(before, k + 1) + if e.pusher == k + 1 then [e.job] else [];
      }
      if e.pusher == 0 {
        assert now == was && Adds(log) == Adds(before);
      } else {
        var p := e.pusher - 1;
        assert Adds(log) == Adds(before) + [e.job];
        assert now == was[p := was[p] + [e.job]];
        SumUpdate(f, was, p, was[p] + [e.job]);
      }
    }
  }

  // How often task `id` occurs.
  function Times(id: nat): seq<Job> -> nat
  {
    jobs => multiset(TaskIds(jobs))[id]
  }

  lemma CallersSum(c: Config, ms: seq<Move>, f: seq<Job> -> nat)
    requires Run(c, ms).Reached? && Run(c, ms).s.phase.Returned?
    requires f([]) == 0 && forall jobs: seq<Job>, job: Job :: f(jobs + [job]) == f(jobs) + f([job])
    ensures f(Adds(Run(c, ms).s.pushed)) == Sum(f, c.scripts)
  {
    Shutdown(c, ms);
    RunInv(c, ms);
    var log := Run(c, ms).s.pushed;
    AddsSum(f, log, |c.scripts|);
    assert PushedByAll(log, |c.scripts|) == c.scripts;
  }

  lemma EmptiesAdditive()
    ensures forall jobs: seq<Job>, job: Job :: Empties(jobs + [job]) == Empties(jobs) + Empties([job])
  {
    forall jobs: seq<Job>, job: Job ensures Empties(jobs + [job]) == Empties(jobs) + Empties([job]) {
      EmptiesConcat(jobs, [job]);
    }
  }

  lemma CallersEmpties(c: Config, ms: seq<Move>)
    requires Run(c, ms).Reached? && Run(c, ms).s.phase.Returned?
    ensures Empties(Adds(Run(c, ms).s.pushed)) == Sum(Empties, c.scripts)
  {
    EmptiesAdditive();
    CallersSum(c, ms, Empties);
  }

  lemma CallersTasks(c: Config, ms: seq<Move>, id: nat)
    requires Run(c, ms).Reached? && Run(c, ms).s.phase.Returned?
    ensures multiset(TaskIds(Adds(Run(c, ms).s.pushed)))[id] == Sum(Times(id), c.scripts)
  {
    forall jobs: seq<Job>, job: Job ensures Times(id)(jobs + [job]) == Times(id)(jobs) + Times(id)([job]) {
      TaskIdsConcat(jobs, [job]);
    }
    CallersSum(c, ms, Times(id));
  }

  lemma FewEmptiesDrain(adds: seq<Job>, workers: nat)
    requires Empties(adds) < workers
    ensures Drainable(adds, workers)
  {
    forall i | 0 <= i < |adds| ensures Empties(adds[..i]) < workers {
      assert adds == adds[..i] + adds[i..];
      EmptiesConcat(adds[..i], adds[i..]);
    }
  }

  // With no empty function among the calls and at least one worker the queue ends up empty:
  // each worker has consumed one of the destructor's empty functions, and nothing remains.
  lemma QueueEndsEmpty(c: Config, ms: seq<Move>)
    requires Run(c, ms).Reached? && Run(c, ms).s.phase.Returned?
    requires Sum(Empties, c.scripts) == 0 && c.workers > 0
    ensures Run(c, ms).s.q == [] && Run(c, ms).s.popped == Adds(Run(c, ms).s.pushed) + Pills(c.workers)
  {
    var s := Run(c, ms).s;
    CallersEmpties(c, ms);
    Shutdown(c, ms);
    EmptiesOfPills(Adds(s.pushed), c.workers);
    EmptiesConcat(s.popped, s.q);
  }
}
