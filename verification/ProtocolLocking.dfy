/** Where the threads of pool and active object hold the mutex, and what they call in which order. */
module ProtocolLocking {
  import opened Sums
  import opened Mutexes
  import opened Protocol
  import opened ProtocolInvariants
  import opened ProtocolTheorems
  import opened ProtocolCallers

  // ----- the recursive mutex of the pool

  ghost predicate PoolOk(s: State)
  {
    forall p :: 0 <= p < |s.ps| ==> s.ps[p].pc != AtSignal(true) && s.ps[p].pc != AtUnlock(false)
  }

  lemma PoolStep(c: Config, s: State, m: Move)
    requires PoolOk(s) && c.variant.Pool? && Enabled(c, s, m)
    ensures PoolOk(Apply(c, s, m))
  {
    if m.PusherMove? {
      var pc := ApplyPusher(c, s, m.p, m.target).ps[m.p].pc;
      assert pc != AtSignal(true) && pc != AtUnlock(false);
    }
  }

  lemma {:induction false} RunPool(c: Config, ms: seq<Move>)
    requires Run(c, ms).Reached? && c.variant.Pool?
    ensures PoolOk(Run(c, ms).s)
  {
    if ms != [] {
      RunPool(c, ms[..|ms| - 1]);
      PoolStep(c, Run(c, ms[..|ms| - 1]).s, ms[|ms| - 1]);
    }
  }

  // The pool's mutex is held twice inside is_empty, once in the rest of pop and in push, and not
  // at all while a signal is sent, a task runs, or a worker sleeps or has yet to lock.
  lemma RecursiveMutex(c: Config, ms: seq<Move>)
    requires Run(c, ms).Reached? && c.variant.Pool?
    ensures var s := Run(c, ms).s;
            && (forall i: nat :: i < |s.ws| && (s.ws[i].InCheck? || s.ws[i].Checked?) ==>
                  s.mutex == Held(Worker(i), 2))
            && (forall i: nat :: i < |s.ws| && (s.ws[i].AtCheck? || s.ws[i].Decided? || s.ws[i].Took?) ==>
                  s.mutex == Held(Worker(i), 1))
            && (forall i: nat :: i < |s.ws| && (s.ws[i].AtPop? || s.ws[i].Asleep? || s.ws[i].Woken? ||
                                                s.ws[i].Holding? || s.ws[i].Running? || s.ws[i].Exited?) ==>
                  DepthOf(s.mutex, Worker(i)) == 0)
            && (forall p: nat :: p < |s.ps| && (s.ps[p].pc.AtEnqueue? || s.ps[p].pc.AtUnlock?) ==>
                  s.mutex == Held(Pusher(p), 1))
            && (forall p: nat :: p < |s.ps| && (s.ps[p].pc.Ready? || s.ps[p].pc.AtSignal?) ==>
                  DepthOf(s.mutex, Pusher(p)) == 0)
  {
    RunInv(c, ms);
    RunPool(c, ms);
    var s := Run(c, ms).s;
    forall i: nat | i < |s.ws| ensures DepthOf(s.mutex, Worker(i)) == WorkerDepth(s.ws[i]) {
    }
    forall p: nat | p < |s.ps| ensures DepthOf(s.mutex, Pusher(p)) == PusherDepth(s.ps[p].pc) {
    }
  }

  // A worker of the pool gets its answer only inside is_empty, with the mutex held twice, and the
  // answer is about the queue of that moment; it acts on it after one unlock.
  lemma AnswerUnderOwnLock(c: Config, ms: seq<Move>, i: nat)
    requires Run(c, ms).Reached? && c.variant.Pool? && WorkerEnabled(c, Run(c, ms).s, i)
    ensures var s := Run(c, ms).s;
            var s' := ApplyWorker(c, s, i);
            && (s'.ws[i].InCheck? ==>
                  s.ws[i].AtCheck? && s.mutex == Held(Worker(i), 1) && s'.mutex == Held(Worker(i), 2))
            && (s'.ws[i].Checked? ==> s.ws[i].InCheck? && s'.mutex == s.mutex == Held(Worker(i), 2) &&
                                      (s'.ws[i].empty <==> s.q == []))
            && (s'.ws[i].Decided? ==> s.ws[i] == Checked(s'.ws[i].empty) && s'.mutex == Held(Worker(i), 1))
  {
    hide Run, ApplyWorker;
    RecursiveMutex(c, ms);
    LockAt(c, ms);
    AnswerStep(c, Run(c, ms).s, i);
  }

  lemma AnswerStep(c: Config, s: State, i: nat)
    requires c.variant.Pool? && WorkerEnabled(c, s, i)
    ensures var s' := ApplyWorker(c, s, i);
            && (s'.ws[i].InCheck? ==> s.ws[i].AtCheck? && s'.mutex == Lock(s.mutex, Worker(i)))
            && (s'.ws[i].Checked? ==> s.ws[i].InCheck? && s'.mutex == s.mutex && (s'.ws[i].empty <==> s.q == []))
            && (s'.ws[i].Decided? && !s.ws[i].Decided? ==>
                  s.ws[i] == Checked(s'.ws[i].empty) && s'.mutex == Unlock(s.mutex, Worker(i)))
            && (s'.ws[i].Decided? && s.ws[i].Decided? ==> s.q == [] && !s.ws[i].empty)
  {
  }

  // With the mutex free, everybody who wants it can have it: workers that have never slept may
  // overtake woken ones. And every wait may end without a signal.
  lemma FreeForAll(c: Config, ms: seq<Move>, i: nat)
    requires Run(c, ms).Reached? && i < |Run(c, ms).s.ws|
    ensures var s := Run(c, ms).s;
            && (s.mutex.Free? && (s.ws[i].AtPop? || s.ws[i].Woken?) ==>
                  Run(c, ms + [WorkerMove(i)]) ==
                  Reached(s.(mutex := Held(Worker(i), 1), ws := s.ws[i := AtCheck])))
            && (s.ws[i].Asleep? ==> Run(c, ms + [Spurious(i)]) == Reached(s.(ws := s.ws[i := Woken])))
  {
    hide Run;
    var s := Run(c, ms).s;
    if s.mutex.Free? && (s.ws[i].AtPop? || s.ws[i].Woken?) {
      Then(c, ms, WorkerMove(i));
    } else if s.ws[i].Asleep? {
      Then(c, ms, Spurious(i));
    }
  }

  // So can every caller, as soon as the object is alive, and the destructor.
  lemma FreeForPushers(c: Config, ms: seq<Move>, p: nat, target: nat)
    requires Run(c, ms).Reached? && p < |Run(c, ms).s.ps| && Run(c, ms).s.mutex.Free?
    requires Run(c, ms).s.phase == (if p == 0 then Destroying else Serving)
    requires Run(c, ms).s.ps[p].pc.Ready? && Run(c, ms).s.ps[p].todo != []
    ensures var s := Run(c, ms).s;
            Run(c, ms + [PusherMove(p, target)]) ==
            Reached(s.(mutex := Held(Pusher(p), 1), ps := s.ps[p := s.ps[p].(pc := AtEnqueue)]))
  {
    hide Run;
    Then(c, ms, PusherMove(p, target));
  }

  // ----- the calls of push, as they show in the state

  datatype Call = LockMutex | UnlockMutex | Append(job: Job) | SignalOne | Other

  // What thread `p` has done between two states.
  function CallBetween(s: State, s': State, p: nat): Call
  {
    var before, after := DepthOf(s.mutex, Pusher(p)), DepthOf(s'.mutex, Pusher(p));
    if after == before + 1 && s'.q == s.q then LockMutex
    else if before == after + 1 && s'.q == s.q then UnlockMutex
    else if after == before && |s'.q| == |s.q| + 1 && s'.q[..|s.q|] == s.q then Append(s'.q[|s.q|])
    else if after == before && s'.q == s.q && OneWoken(s.ws, s'.ws) then SignalOne
    else Other
  }

  // A signal unblocks one sleeper, if there is one.
  predicate OneWoken(ws: seq<WorkerPc>, ws': seq<WorkerPc>)
  {
    if SomeAsleep(ws) then exists k :: 0 <= k < |ws| && ws[k].Asleep? && ws' == ws[k := Woken] else ws' == ws
  }

  function CallsOf(c: Config, ms: seq<Move>, p: nat): seq<Call>
    requires Run(c, ms).Reached?
  {
    if ms == [] then []
    else
      var before, last := ms[..|ms| - 1], ms[|ms| - 1];
      CallsOf(c, before, p) +
      if last.PusherMove? && last.p == p then [CallBetween(Run(c, before).s, Run(c, ms).s, p)] else []
  }

  // The body of push: the pool signals after unlocking, the active object before.
  function PushCalls(v: Variant, job: Job): seq<Call>
  {
    if v.Pool? then [LockMutex, Append(job), UnlockMutex, SignalOne]
    else [LockMutex, Append(job), SignalOne, UnlockMutex]
  }

  function CallsFor(v: Variant, jobs: seq<Job>): seq<Call>
  {
    if jobs == [] then [] else CallsFor(v, jobs[..|jobs| - 1]) + PushCalls(v, jobs[|jobs| - 1])
  }

  // What a push still has to call once its job is in the queue.
  function StillDue(pc: PusherPc): seq<Call>
  {
    match pc
    case AtUnlock(due) => if due then [UnlockMutex, SignalOne] else [UnlockMutex]
    case AtSignal(locked) => if locked then [SignalOne, UnlockMutex] else [SignalOne]
    case _ => []
  }

  ghost predicate CallsOk(v: Variant, calls: seq<Call>, enqueued: seq<Job>, pc: PusherPc)
  {
    calls + StillDue(pc) == CallsFor(v, enqueued) + if pc.AtEnqueue? then [LockMutex] else []
  }

  lemma CallsEnqueue(v: Variant, calls: seq<Call>, enqueued: seq<Job>, job: Job, pc: PusherPc)
    requires CallsOk(v, calls, enqueued, AtEnqueue)
    requires pc == if v.Pool? then AtUnlock(true) else AtSignal(true)
    ensures CallsOk(v, calls + [Append(job)], enqueued + [job], pc)
  {
    assert (enqueued + [job])[..|enqueued|] == enqueued;
    assert calls == CallsFor(v, enqueued) + [LockMutex];
    assert PushCalls(v, job) == [LockMutex] + [Append(job)] + StillDue(pc);
  }

  lemma CallsAdvance(v: Variant, calls: seq<Call>, enqueued: seq<Job>, pc: PusherPc, pc': PusherPc, call: Call)
    requires CallsOk(v, calls, enqueued, pc) && !pc'.AtEnqueue?
    requires !pc.AtEnqueue? && StillDue(pc) == [call] + StillDue(pc')
    ensures CallsOk(v, calls + [call], enqueued, pc')
  {
    assert calls + StillDue(pc) == calls + [call] + StillDue(pc');
  }

  // A move of the pusher itself, except for the append.
  lemma OwnCall(c: Config, s: State, p: nat, target: nat)
    requires LockInv(c, s) && PusherEnabled(c, s, p, target)
    ensures var s' := ApplyPusher(c, s, p, target);
            var pc, pc', call := s.ps[p].pc, s'.ps[p].pc, CallBetween(s, s', p);
            match pc
            case Ready => pc' == AtEnqueue && call == LockMutex
            case AtEnqueue =>
              pc' == (if c.variant.Pool? then AtUnlock(true) else AtSignal(true)) && call == Append(s.ps[p].todo[0])
            case _ => !pc'.AtEnqueue? && StillDue(pc) == [call] + StillDue(pc')
  {
    assert DepthOf(s.mutex, Pusher(p)) == PusherDepth(s.ps[p].pc);
    var s' := ApplyPusher(c, s, p, target);
    if s.ps[p].pc.AtSignal? {
      assert OneWoken(s.ws, s'.ws);
    }
  }

  lemma CallsStep(c: Config, s: State, p: nat, target: nat, calls: seq<Call>)
    requires LockInv(c, s) && PusherEnabled(c, s, p, target)
    requires CallsOk(c.variant, calls, PushedBy(s.pushed, p), s.ps[p].pc)
    ensures var s' := ApplyPusher(c, s, p, target);
            CallsOk(c.variant, calls + [CallBetween(s, s', p)], PushedBy(s'.pushed, p), s'.ps[p].pc)
  {
    OwnCall(c, s, p, target);
    var s' := ApplyPusher(c, s, p, target);
    var call := CallBetween(s, s', p);
    if s.ps[p].pc.AtEnqueue? {
      assert s'.pushed[..|s.pushed|] == s.pushed;
      CallsEnqueue(c.variant, calls, PushedBy(s.pushed, p), s.ps[p].todo[0], s'.ps[p].pc);
    } else if s.ps[p].pc.Ready? {
      assert calls == calls + [];
    } else {
      CallsAdvance(c.variant, calls, PushedBy(s.pushed, p), s.ps[p].pc, s'.ps[p].pc, call);
    }
  }

  lemma OtherMove(c: Config, s: State, m: Move, p: nat)
    requires Enabled(c, s, m) && p < |s.ps| && !(m.PusherMove? && m.p == p)
    ensures var s' := Apply(c, s, m);
            s'.ps[p].pc == s.ps[p].pc && PushedBy(s'.pushed, p) == PushedBy(s.pushed, p)
  {
    var s' := Apply(c, s, m);
    if s'.pushed != s.pushed {
      assert s'.pushed[..|s.pushed|] == s.pushed;
    }
  }

  lemma LockAt(c: Config, ms: seq<Move>)
    requires Run(c, ms).Reached?
    ensures LockInv(c, Run(c, ms).s)
  {
    RunInv(c, ms);
  }

  lemma CallsMove(c: Config, s: State, m: Move, p: nat, calls: seq<Call>)
    requires LockInv(c, s) && Enabled(c, s, m) && p < |s.ps|
    requires CallsOk(c.variant, calls, PushedBy(s.pushed, p), s.ps[p].pc)
    ensures var s' := Apply(c, s, m);
            var own := if m.PusherMove? && m.p == p then [CallBetween(s, s', p)] else [];
            |s'.ps| == |s.ps| && CallsOk(c.variant, calls + own, PushedBy(s'.pushed, p), s'.ps[p].pc)
  {
    hide ApplyPusher, PusherEnabled, CallsOk, CallBetween, PushedBy;
    assert calls + [] == calls;
    if m.PusherMove? && m.p == p {
      CallsStep(c, s, p, m.target, calls);
    } else {
      OtherMove(c, s, m, p);
    }
    SamePushers(c, s, m);
  }

  lemma SamePushers(c: Config, s: State, m: Move)
    requires Enabled(c, s, m)
    ensures |Apply(c, s, m).ps| == |s.ps|
  {
  }

  lemma {:induction false} RunCalls(c: Config, ms: seq<Move>, p: nat)
    requires Run(c, ms).Reached? && p <= |c.scripts|
    ensures var s := Run(c, ms).s;
            |s.ps| == |c.scripts| + 1 && CallsOk(c.variant, CallsOf(c, ms, p), PushedBy(s.pushed, p), s.ps[p].pc)
  {
    if ms != [] {
      hide Enabled, Apply, CallsOk, CallBetween, PushedBy;
      var before := ms[..|ms| - 1];
      RunCalls(c, before, p);
      LockAt(c, before);
      CallsMove(c, Run(c, before).s, ms[|ms| - 1], p, CallsOf(c, before, p));
    }
  }

  // In every run every thread that pushes has locked, appended, unlocked and signalled (active
  // object: signalled and unlocked) for one of its jobs after the other, the one under way
  // perhaps not to the end.
  lemma PushOrder(c: Config, ms: seq<Move>, p: nat)
    requires Run(c, ms).Reached? && p <= |c.scripts|
    ensures CallsOf(c, ms, p) <= CallsFor(c.variant, ScriptOf(c, p))
  {
    hide Run, CallsOf, PushedBy, LockInv;
    RunCalls(c, ms, p);
    InOrder(c, ms);
    LockAt(c, ms);
    var s := Run(c, ms).s;
    var enqueued, todo := PushedBy(s.pushed, p), s.ps[p].todo;
    assert enqueued + todo == ScriptOf(c, p);
    if s.ps[p].pc.AtEnqueue? {
      EnqueuingJob(c, s, p);
      CallsPrefix(c.variant, enqueued + todo[..1], ScriptOf(c, p));
      assert (enqueued + todo[..1])[..|enqueued|] == enqueued;
      assert CallsFor(c.variant, enqueued + todo[..1]) == CallsFor(c.variant, enqueued) + PushCalls(c.variant, todo[0]);
      assert [LockMutex] <= PushCalls(c.variant, todo[0]);
      assert CallsOf(c, ms, p) + [] == CallsOf(c, ms, p);
    } else {
      CallsPrefix(c.variant, enqueued, ScriptOf(c, p));
      assert CallsFor(c.variant, enqueued) + [] == CallsFor(c.variant, enqueued);
    }
  }

  lemma {:induction false} CallsPrefix(v: Variant, a: seq<Job>, b: seq<Job>)
    requires a <= b
    ensures CallsFor(v, a) <= CallsFor(v, b)
  {
    if |a| < |b| {
      CallsPrefix(v, a, b[..|b| - 1]);
    } else {
      assert a == b;
    }
  }

  lemma EnqueuingJob(c: Config, s: State, p: nat)
    requires LockInv(c, s) && p < |s.ps| && s.ps[p].pc.AtEnqueue?
    ensures s.ps[p].todo != []
  {
  }

  // ----- the signal after the unlock

  lemma SleepSteps(c: Config, s: State, i: nat)
    requires c.variant.Pool? && s.mutex.Free? && s.q == [] && i < |s.ws| && s.ws[i].AtPop?
    ensures var m := WorkerMove(i);
            Enabled(c, s, m) && Apply(c, s, m) == s.(mutex := Held(Worker(i), 1), ws := s.ws[i := AtCheck])
  {
  }

  lemma CheckSteps(c: Config, s: State, i: nat)
    requires c.variant.Pool? && s.mutex == Held(Worker(i), 1) && s.q == [] && i < |s.ws| && s.ws[i].AtCheck?
    ensures var m := WorkerMove(i);
            Enabled(c, s, m) && Enabled(c, Apply(c, s, m), m)
    ensures var m := WorkerMove(i);
            Apply(c, Apply(c, s, m), m) == s.(mutex := Held(Worker(i), 2), ws := s.ws[i := Checked(true)])
  {
  }

  lemma WaitSteps(c: Config, s: State, i: nat)
    requires c.variant.Pool? && s.mutex == Held(Worker(i), 2) && i < |s.ws| && s.ws[i] == Checked(true)
    ensures var m := WorkerMove(i);
            Enabled(c, s, m) && Enabled(c, Apply(c, s, m), m)
    ensures var m := WorkerMove(i);
            Apply(c, Apply(c, s, m), m) == s.(mutex := Free, ws := s.ws[i := Asleep])
  {
  }

  // A worker of the pool that finds the queue empty goes to sleep with five steps.
  lemma FallAsleep(c: Config, ms: seq<Move>, i: nat) returns (ms': seq<Move>)
    requires c.variant.Pool? && Run(c, ms).Reached?
    requires var s := Run(c, ms).s; s.mutex.Free? && s.q == [] && i < |s.ws| && s.ws[i].AtPop?
    ensures var s := Run(c, ms).s; Run(c, ms') == Reached(s.(ws := s.ws[i := Asleep]))
  {
    hide Run, Enabled, Apply;
    var s, m := Run(c, ms).s, WorkerMove(i);
    SleepSteps(c, s, i);
    Then(c, ms, m);
    var s1 := Run(c, ms + [m]).s;
    CheckSteps(c, s1, i);
    Then(c, ms + [m], m);
    Then(c, ms + [m] + [m], m);
    var three := ms + [m] + [m] + [m];
    WaitSteps(c, Run(c, three).s, i);
    Then(c, three, m);
    Then(c, three + [m], m);
    ms' := three + [m] + [m];
  }

  lemma PushFirst(c: Config, s: State, p: nat)
    requires c.variant.Pool? && s.mutex.Free? && s.phase.Serving? && 1 <= p < |s.ps|
    requires s.ps[p].pc.Ready? && s.ps[p].todo != []
    ensures var m := PusherMove(p, 0);
            && Enabled(c, s, m)
            && Apply(c, s, m) == s.(mutex := Held(Pusher(p), 1), ps := s.ps[p := s.ps[p].(pc := AtEnqueue)])
  {
  }

  lemma PushRest(c: Config, s: State, p: nat)
    requires c.variant.Pool? && s.mutex == Held(Pusher(p), 1) && s.phase.Serving? && 1 <= p < |s.ps|
    requires s.ps[p].pc.AtEnqueue? && s.ps[p].todo != []
    ensures var m := PusherMove(p, 0);
            Enabled(c, s, m) && Enabled(c, Apply(c, s, m), m)
    ensures var m := PusherMove(p, 0);
            var u := s.ps[p];
            Apply(c, Apply(c, s, m), m) ==
            s.(mutex := Free, q := s.q + [u.todo[0]], pushed := s.pushed + [Entry(p, u.todo[0])],
               ps := s.ps[p := PusherState(AtSignal(false), u.todo[1..])])
  {
  }

  // Caller `p` has pushed a job and unlocked, and still has to signal.
  lemma UpToSignal(c: Config, ms: seq<Move>, p: nat) returns (ms': seq<Move>)
    requires c.variant.Pool? && Run(c, ms).Reached?
    requires var s := Run(c, ms).s;
             && s.mutex.Free? && s.phase.Serving? && 1 <= p < |s.ps|
             && s.ps[p].pc.Ready? && s.ps[p].todo != []
    ensures var s := Run(c, ms).s;
            Run(c, ms') == Reached(s.(q := s.q + [s.ps[p].todo[0]],
                                      pushed := s.pushed + [Entry(p, s.ps[p].todo[0])],
                                      ps := s.ps[p := PusherState(AtSignal(false), s.ps[p].todo[1..])]))
  {
    hide Run, Enabled, Apply;
    var s, m := Run(c, ms).s, PusherMove(p, 0);
    PushFirst(c, s, p);
    Then(c, ms, m);
    PushRest(c, Run(c, ms + [m]).s, p);
    Then(c, ms + [m], m);
    Then(c, ms + [m] + [m], m);
    ms' := ms + [m] + [m] + [m];
  }

  // With at least one worker and a caller with a job there is a run to a state in which a worker
  // sleeps although the queue is not empty, the mutex is free, and only the signal is still owed.
  lemma LateSignal(c: Config, p: nat) returns (ms: seq<Move>)
    requires c.variant.Pool? && c.workers > 0 && 1 <= p <= |c.scripts| && c.scripts[p - 1] != []
    ensures Run(c, ms).Reached?
    ensures var s := Run(c, ms).s;
            && |s.ws| == c.workers && |s.ps| == |c.scripts| + 1
            && s.ws[0].Asleep? && s.q == [c.scripts[p - 1][0]] && s.mutex.Free? && s.ps[p].pc == AtSignal(false)
  {
    var alive := Constructed(c);
    var asleep := FallAsleep(c, alive, 0);
    ms := UpToSignal(c, asleep, p);
  }
}
