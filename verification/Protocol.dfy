/**
 The blocking queue, its worker threads and its callers as a small-step transition system.

 One system covers both users of the queue in the repository:
 - `Pool`: the thread pool. Recursive mutex, `is_empty` locks a second time, `push` signals
   after it has unlocked.
 - `Active`: the active object. Plain mutex, `is_empty` does not lock, `push` signals before
   it unlocks. It has one worker.

 A step is one mutex operation, one access to the queue, one condition-variable operation,
 one task start or end, one thread launch or one join. Undefined behaviour (front of an empty
 queue, releasing a mutex the thread does not own, waiting with the mutex not held exactly
 once) is recorded in `fault` instead of being excluded by a guard.
 */
module Protocol {
  import opened Mutexes

  // A std::function<void()>: a callable task, or an empty function. `nullptr` is the empty one.
  datatype Job = Task(id: nat) | Nothing

  datatype Variant = Pool | Active

  // `scripts` are the jobs of the callers of add_task / Send, one sequence per caller thread.
  datatype Config = Config(variant: Variant, workers: nat, scripts: seq<seq<Job>>)

  datatype WorkerPc =
    | Unborn
    | AtPop                   // about to lock at the top of pop
    | AtCheck                 // in the loop of pop, about to call is_empty
    | InCheck                 // inside is_empty, its own lock taken
    | Checked(empty: bool)    // inside is_empty, about to unlock
    | Decided(empty: bool)    // back in pop with the answer
    | Asleep                  // blocked in the condition wait
    | Woken                   // unblocked, has to take the mutex again
    | Took(job: Job)          // item copied and removed, about to unlock
    | Holding(job: Job)       // pop has returned
    | Running(id: nat)
    | Exited

  datatype PusherPc =
    | Ready                     // about to lock in push, or nothing left to push
    | AtEnqueue
    | AtUnlock(signalDue: bool)
    | AtSignal(locked: bool)

  // The job being pushed stays at the head of `todo` until it is in the queue.
  datatype PusherState = PusherState(pc: PusherPc, todo: seq<Job>)

  datatype Phase =
    | Launching(next: nat)   // constructor loop
    | Serving                // the object is alive
    | Destroying             // destructor, pushing one empty function per worker
    | Joining(next: nat)     // destructor, join loop
    | Returned

  datatype Entry = Entry(pusher: nat, job: Job)

  datatype State = State(
    q: seq<Job>,
    mutex: Mutex,
    ws: seq<WorkerPc>,
    ps: seq<PusherState>,
    phase: Phase,
    pushed: seq<Entry>,    // every enqueue so far, in order
    popped: seq<Job>,      // every dequeue so far, in order
    started: seq<nat>,     // tasks begun, in order
    finished: seq<nat>,    // tasks ended, in order
    fault: bool)

  datatype Move =
    | WorkerMove(i: nat)
    | PusherMove(p: nat, target: nat)   // `target`: which sleeper a signal unblocks
    | MainMove
    | Spurious(i: nat)                  // a wait that returns without a signal

  predicate CanLock(v: Variant, m: Mutex, t: Tid)
  {
    MayLock(v.Pool?, m, t)
  }

  // ----- the steps

  function Pills(n: nat): (r: seq<Job>)
    ensures |r| == n && forall k :: 0 <= k < n ==> r[k] == Nothing
  {
    seq(n, _ => Nothing)
  }

  function Start(c: Config): State
  {
    State([], Free, seq(c.workers, _ => Unborn),
          seq(|c.scripts| + 1, (p: nat) => PusherState(Ready, ScriptOf(c, p))),
          Launching(0), [], [], [], [], false)
  }

  // Pusher 0 pushes one empty function per worker.
  function ScriptOf(c: Config, p: nat): seq<Job>
  {
    if p == 0 then Pills(c.workers) else if p <= |c.scripts| then c.scripts[p - 1] else []
  }

  predicate Quiet(u: PusherState)
  {
    u == PusherState(Ready, [])
  }

  predicate SomeAsleep(ws: seq<WorkerPc>)
  {
    exists k :: 0 <= k < |ws| && ws[k].Asleep?
  }

  predicate WorkerEnabled(c: Config, s: State, i: nat)
  {
    i < |s.ws| &&
    match s.ws[i]
    case Unborn => false
    case AtPop => CanLock(c.variant, s.mutex, Worker(i))
    case AtCheck => c.variant.Pool? ==> CanLock(c.variant, s.mutex, Worker(i))
    case Asleep => false
    case Woken => CanLock(c.variant, s.mutex, Worker(i))
    case Exited => false
    case _ => true
  }

  predicate PusherEnabled(c: Config, s: State, p: nat, target: nat)
  {
    p < |s.ps| &&
    s.phase == (if p == 0 then Destroying else Serving) &&
    match s.ps[p].pc
    case Ready => s.ps[p].todo != [] && CanLock(c.variant, s.mutex, Pusher(p))
    case AtEnqueue => s.ps[p].todo != []
    case AtUnlock(_) => true
    case AtSignal(_) => SomeAsleep(s.ws) ==> target < |s.ws| && s.ws[target].Asleep?
  }

  predicate MainEnabled(s: State)
  {
    match s.phase
    case Launching(k) => true
    case Serving => forall p :: 1 <= p < |s.ps| ==> Quiet(s.ps[p])
    case Destroying => |s.ps| > 0 && Quiet(s.ps[0])
    case Joining(k) => k < |s.ws| ==> s.ws[k].Exited?
    case Returned => false
  }

  predicate Enabled(c: Config, s: State, m: Move)
  {
    match m
    case WorkerMove(i) => WorkerEnabled(c, s, i)
    case PusherMove(p, target) => PusherEnabled(c, s, p, target)
    case MainMove => MainEnabled(s)
    case Spurious(i) => i < |s.ws| && s.ws[i].Asleep?
  }

  // Worker `i` goes to `pc` and releases one level of the mutex.
  function WorkerRelease(s: State, i: nat, pc: WorkerPc, faulty: bool): State
    requires i < |s.ws|
  {
    s.(mutex := Unlock(s.mutex, Worker(i)), ws := s.ws[i := pc], fault := s.fault || faulty)
  }

  function ApplyWorker(c: Config, s: State, i: nat): State
    requires WorkerEnabled(c, s, i)
  {
    var t := Worker(i);
    match s.ws[i]
    case AtPop => s.(mutex := Lock(s.mutex, t), ws := s.ws[i := AtCheck])
    case Woken => s.(mutex := Lock(s.mutex, t), ws := s.ws[i := AtCheck])
    case AtCheck =>
      if c.variant.Pool?
      then s.(mutex := Lock(s.mutex, t), ws := s.ws[i := InCheck])
      else s.(ws := s.ws[i := Decided(s.q == [])])
    case InCheck => s.(ws := s.ws[i := Checked(s.q == [])])
    case Checked(b) => WorkerRelease(s, i, Decided(b), DepthOf(s.mutex, t) == 0)
    case Decided(b) =>
      if b then WorkerRelease(s, i, Asleep, DepthOf(s.mutex, t) != 1)
      else if s.q == [] then s.(fault := true)
      else s.(q := s.q[1..], popped := s.popped + [s.q[0]], ws := s.ws[i := Took(s.q[0])])
    case Took(j) => WorkerRelease(s, i, Holding(j), DepthOf(s.mutex, t) == 0)
    case Holding(j) =>
      if j.Task? then s.(ws := s.ws[i := Running(j.id)], started := s.started + [j.id])
      else s.(ws := s.ws[i := Exited])
    case Running(id) => s.(ws := s.ws[i := AtPop], finished := s.finished + [id])
  }

  function ApplyPusher(c: Config, s: State, p: nat, target: nat): State
    requires PusherEnabled(c, s, p, target)
  {
    var t := Pusher(p);
    var u := s.ps[p];
    match u.pc
    case Ready => s.(mutex := Lock(s.mutex, t), ps := s.ps[p := u.(pc := AtEnqueue)])
    case AtEnqueue =>
      var next := if c.variant.Pool? then AtUnlock(true) else AtSignal(true);
      s.(q := s.q + [u.todo[0]], pushed := s.pushed + [Entry(p, u.todo[0])],
         ps := s.ps[p := PusherState(next, u.todo[1..])])
    case AtUnlock(due) =>
      s.(mutex := Unlock(s.mutex, t), fault := s.fault || DepthOf(s.mutex, t) == 0,
         ps := s.ps[p := u.(pc := if due then AtSignal(false) else Ready)])
    case AtSignal(locked) =>
      s.(ws := if SomeAsleep(s.ws) then s.ws[target := Woken] else s.ws,
         ps := s.ps[p := u.(pc := if locked then AtUnlock(false) else Ready)])
  }

  function ApplyMain(s: State): State
    requires MainEnabled(s)
  {
    match s.phase
    case Launching(k) =>
      if k < |s.ws| then s.(ws := s.ws[k := AtPop], phase := Launching(k + 1))
      else s.(phase := Serving)
    case Serving => s.(phase := Destroying)
    case Destroying => s.(phase := Joining(0))
    case Joining(k) => s.(phase := if k < |s.ws| then Joining(k + 1) else Returned)
  }

  function Apply(c: Config, s: State, m: Move): State
    requires Enabled(c, s, m)
  {
    match m
    case WorkerMove(i) => ApplyWorker(c, s, i)
    case PusherMove(p, target) => ApplyPusher(c, s, p, target)
    case MainMove => ApplyMain(s)
    case Spurious(i) => s.(ws := s.ws[i := Woken])
  }

  datatype Outcome = Reached(s: State) | Impossible

  // Where the moves `ms` lead from the start: any threads in any order, with any spurious wakeups.
  function Run(c: Config, ms: seq<Move>): Outcome
  {
    if ms == [] then Reached(Start(c))
    else
      var last := ms[|ms| - 1];
      match Run(c, ms[..|ms| - 1])
      case Impossible => Impossible
      case Reached(s) => if Enabled(c, s, last) then Reached(Apply(c, s, last)) else Impossible
  }
}
