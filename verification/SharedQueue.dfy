/**
 The blocking queue of the thread pool under any threads that call push, pop and try_pop in any
 order and number. Pc by pc the steps are those of `Protocol`; here every operation also records,
 in `log`, the moment it takes effect, and hands its result to its caller.
 */
module SharedQueue {
  import opened Sums
  import opened Mutexes
  import opened BlockingQueue
  import Protocol

  type Job = Protocol.Job

  datatype Op = Push(job: Job) | Pop | TryPop

  datatype Pc =
    | Idle                    // between two operations
    | Entered                 // pop or try_pop, locked, about to call is_empty
    | InCheck                 // inside is_empty, its own lock taken
    | Checked(empty: bool)    // inside is_empty, about to unlock
    | Decided(empty: bool)    // back with the answer
    | Asleep                  // pop, blocked in the condition wait
    | Woken                   // pop, has to take the mutex again
    | Leaving(result: Option<Job>)  // the result is known, about to unlock and return
    | Enqueuing               // push, locked
    | PushUnlock              // push, about to unlock
    | Signalling              // push, about to signal and return

  // `todo` begins with the operation under way; `results` are those handed back so far.
  datatype Client = Client(pc: Pc, todo: seq<Op>, results: seq<Option<Job>>)

  // Operation `op` of thread `i` took effect with this result.
  datatype Event = Event(i: nat, op: Op, result: Option<Job>)

  datatype State = State(q: seq<Job>, mutex: Mutex, cs: seq<Client>, log: seq<Event>, fault: bool)

  datatype Step = Act(i: nat, target: nat) | Spurious(i: nat)

  function Start(scripts: seq<seq<Op>>): State
  {
    State([], Free, seq(|scripts|, (i: nat) requires i < |scripts| => Client(Idle, scripts[i], [])), [], false)
  }

  predicate SomeAsleep(cs: seq<Client>)
  {
    exists k :: 0 <= k < |cs| && cs[k].pc.Asleep?
  }

  predicate Enabled(s: State, m: Step)
  {
    m.i < |s.cs| &&
    if m.Spurious? then s.cs[m.i].pc.Asleep?
    else
      match s.cs[m.i].pc
      case Idle => s.cs[m.i].todo != [] && MayLock(true, s.mutex, Worker(m.i))
      case Entered => MayLock(true, s.mutex, Worker(m.i))
      case Woken => MayLock(true, s.mutex, Worker(m.i))
      case Asleep => false
      case Signalling => SomeAsleep(s.cs) ==> m.target < |s.cs| && s.cs[m.target].pc.Asleep?
      case _ => true
  }

  // Thread `i` goes to `pc`, having locked or unlocked once.
  function Goto(s: State, i: nat, pc: Pc): State
    requires i < |s.cs|
  {
    s.(cs := s.cs[i := s.cs[i].(pc := pc)])
  }

  function Locking(s: State, i: nat, pc: Pc): State
    requires i < |s.cs|
  {
    Goto(s.(mutex := Lock(s.mutex, Worker(i))), i, pc)
  }

  function Unlocking(s: State, i: nat, pc: Pc, faulty: bool): State
    requires i < |s.cs|
  {
    Goto(s.(mutex := Unlock(s.mutex, Worker(i)), fault := s.fault || faulty), i, pc)
  }

  // The operation under way takes effect, with a new queue and a result.
  function Effect(s: State, i: nat, q: seq<Job>, result: Option<Job>, pc: Pc): State
    requires i < |s.cs| && s.cs[i].todo != []
  {
    Goto(s.(q := q, log := s.log + [Event(i, s.cs[i].todo[0], result)]), i, pc)
  }

  function Return(s: State, i: nat, result: Option<Job>): State
    requires i < |s.cs| && s.cs[i].todo != []
  {
    s.(cs := s.cs[i := Client(Idle, s.cs[i].todo[1..], s.cs[i].results + [result])])
  }

  function Apply(s: State, m: Step): (s': State)
    requires Enabled(s, m)
    ensures |s'.cs| == |s.cs|
  {
    var i := m.i;
    var c := s.cs[i];
    var depth := DepthOf(s.mutex, Worker(i));
    if m.Spurious? then Goto(s, i, Woken)
    else if c.todo == [] then s.(fault := true)
    else
      match c.pc
      case Idle => Locking(s, i, if c.todo[0].Push? then Enqueuing else Entered)
      case Entered => Locking(s, i, InCheck)
      case Woken => Locking(s, i, Entered)
      case InCheck => Goto(s, i, Checked(s.q == []))
      case Checked(b) => Unlocking(s, i, Decided(b), depth == 0)
      case Decided(b) =>
        if b then
          if c.todo[0].TryPop? then Effect(s, i, s.q, None, Leaving(None))
          else Unlocking(s, i, Asleep, depth != 1)
        else if s.q == [] then s.(fault := true)
        else Effect(s, i, s.q[1..], Some(s.q[0]), Leaving(Some(s.q[0])))
      case Leaving(r) => Return(Unlocking(s, i, Idle, depth == 0), i, r)
      case Enqueuing =>
        if c.todo[0].Push? then Effect(s, i, s.q + [c.todo[0].job], None, PushUnlock) else s.(fault := true)
      case PushUnlock => Unlocking(s, i, Signalling, depth == 0)
      case Signalling => Return(if SomeAsleep(s.cs) then Goto(s, m.target, Woken) else s, i, None)
  }

  datatype Outcome = Reached(s: State) | Impossible

  function Run(scripts: seq<seq<Op>>, ms: seq<Step>): Outcome
  {
    if ms == [] then Reached(Start(scripts))
    else
      var last := ms[|ms| - 1];
      match Run(scripts, ms[..|ms| - 1])
      case Impossible => Impossible
      case Reached(s) => if Enabled(s, last) then Reached(Apply(s, last)) else Impossible
  }

  // ----- the sequential queue, one operation at a time

  datatype Replayed = Legal(q: seq<Job>) | Illegal

  function After(q: seq<Job>, e: Event): Replayed
  {
    match e.op
    case Push(job) => if e.result.None? then Legal(q + [job]) else Illegal
    case Pop => if q != [] && e.result == Some(q[0]) then Legal(q[1..]) else Illegal
    case TryPop =>
      if q == [] then (if e.result.None? then Legal(q) else Illegal)
      else if e.result == Some(q[0]) then Legal(q[1..])
      else Illegal
  }

  function Replay(log: seq<Event>): Replayed
  {
    if log == [] then Legal([])
    else
      match Replay(log[..|log| - 1])
      case Illegal => Illegal
      case Legal(q) => After(q, log[|log| - 1])
  }

  function OpsBy(log: seq<Event>, i: nat): seq<Op>
  {
    if log == [] then []
    else
      var e := log[|log| - 1];
      OpsBy(log[..|log| - 1], i) + if e.i == i then [e.op] else []
  }

  function ResultsBy(log: seq<Event>, i: nat): seq<Option<Job>>
  {
    if log == [] then []
    else
      var e := log[|log| - 1];
      ResultsBy(log[..|log| - 1], i) + if e.i == i then [e.result] else []
  }

  // ----- what every step keeps

  function Depth(pc: Pc): nat
  {
    match pc
    case Entered => 1
    case InCheck => 2
    case Checked(_) => 2
    case Decided(_) => 1
    case Leaving(_) => 1
    case Enqueuing => 1
    case PushUnlock => 1
    case _ => 0
  }

  // The results of operations that have taken effect but not returned.
  function Pending(pc: Pc): seq<Option<Job>>
  {
    match pc
    case Leaving(r) => [r]
    case PushUnlock => [None]
    case Signalling => [None]
    case _ => []
  }

  // The operations that have not taken effect.
  function Rest(c: Client): seq<Op>
  {
    if Pending(c.pc) != [] && c.todo != [] then c.todo[1..] else c.todo
  }

  predicate Fits(c: Client)
  {
    match c.pc
    case Idle => true
    case Enqueuing => c.todo != [] && c.todo[0].Push?
    case PushUnlock => c.todo != [] && c.todo[0].Push?
    case Signalling => c.todo != [] && c.todo[0].Push?
    case Asleep => c.todo != [] && c.todo[0].Pop?
    case Woken => c.todo != [] && c.todo[0].Pop?
    case _ => c.todo != [] && !c.todo[0].Push?
  }

  ghost predicate MutexOk(s: State)
  {
    && (s.mutex.Held? ==> s.mutex.depth >= 1 && s.mutex.owner.Worker? && s.mutex.owner.i < |s.cs|)
    && forall i: nat :: i < |s.cs| ==> DepthOf(s.mutex, Worker(i)) == Depth(s.cs[i].pc)
  }

  ghost predicate ClientsOk(s: State)
  {
    forall i :: 0 <= i < |s.cs| ==>
      && Fits(s.cs[i])
      && (s.cs[i].pc.Checked? || s.cs[i].pc.Decided? ==> s.cs[i].pc.empty == (s.q == []))
      && (s.cs[i].pc == Leaving(None) ==> s.q == [])
  }

  // What thread `i` has done and still has to do is its script; what it was told is in the log.
  ghost predicate InOrder(script: seq<Op>, c: Client, log: seq<Event>, i: nat)
  {
    OpsBy(log, i) + Rest(c) == script && ResultsBy(log, i) == c.results + Pending(c.pc)
  }

  ghost predicate Inv(scripts: seq<seq<Op>>, s: State)
  {
    && |s.cs| == |scripts| && MutexOk(s) && ClientsOk(s) && !s.fault
    && Replay(s.log) == Legal(s.q)
    && forall i: nat :: i < |s.cs| ==> InOrder(scripts[i], s.cs[i], s.log, i)
  }

  lemma MutexStep(s: State, m: Step)
    requires MutexOk(s) && ClientsOk(s) && !s.fault && Enabled(s, m)
    ensures MutexOk(Apply(s, m))
  {
    var s' := Apply(s, m);
    assert DepthOf(s.mutex, Worker(m.i)) == Depth(s.cs[m.i].pc);
    forall k: nat | k < |s.cs| ensures DepthOf(s'.mutex, Worker(k)) == Depth(s'.cs[k].pc) {
      DepthAfter(s.mutex, Worker(m.i), Worker(k));
    }
  }

  // A thread that changes the queue or the log holds the mutex, exactly once.
  lemma OwnerOnly(s: State, m: Step)
    requires MutexOk(s) && ClientsOk(s) && Enabled(s, m)
    ensures var s' := Apply(s, m); s'.q != s.q || s'.log != s.log ==> s.mutex == Held(Worker(m.i), 1)
  {
    assert DepthOf(s.mutex, Worker(m.i)) == Depth(s.cs[m.i].pc);
  }

  lemma ClientsStep(s: State, m: Step)
    requires MutexOk(s) && ClientsOk(s) && !s.fault && Enabled(s, m)
    ensures ClientsOk(Apply(s, m)) && !Apply(s, m).fault
  {
    var s' := Apply(s, m);
    assert DepthOf(s.mutex, Worker(m.i)) == Depth(s.cs[m.i].pc);
    forall k: nat | k < |s.cs| && k != m.i && s'.q != s.q ensures Depth(s.cs[k].pc) == 0 {
      OwnerOnly(s, m);
      assert DepthOf(s.mutex, Worker(k)) == Depth(s.cs[k].pc);
    }
  }

  // A step leaves queue and log alone, or one operation of its thread takes effect on the queue.
  lemma EffectOf(s: State, m: Step)
    requires ClientsOk(s) && Enabled(s, m)
    ensures var s' := Apply(s, m);
            || (s'.q == s.q && s'.log == s.log)
            || exists e: Event :: e.i == m.i && s'.log == s.log + [e] && After(s.q, e) == Legal(s'.q)
  {
    var s' := Apply(s, m);
    if s'.log != s.log {
      var e := s'.log[|s.log|];
      assert e.i == m.i && s'.log == s.log + [e];
      assert After(s.q, e) == Legal(s'.q);
    }
  }

  lemma ReplayStep(s: State, m: Step)
    requires ClientsOk(s) && Enabled(s, m) && Replay(s.log) == Legal(s.q)
    ensures Replay(Apply(s, m).log) == Legal(Apply(s, m).q)
  {
    hide Apply, Enabled, ClientsOk;
    EffectOf(s, m);
    var s' := Apply(s, m);
    if s'.log != s.log {
      assert s'.log[..|s.log|] == s.log;
    }
  }

  lemma LogGrows(log: seq<Event>, e: Event, k: nat)
    ensures OpsBy(log + [e], k) == OpsBy(log, k) + if e.i == k then [e.op] else []
    ensures ResultsBy(log + [e], k) == ResultsBy(log, k) + if e.i == k then [e.result] else []
  {
    assert (log + [e])[..|log|] == log;
  }

  // A step of another thread can do no more to a thread than wake it up.
  lemma OtherStep(s: State, m: Step, script: seq<Op>, k: nat)
    requires ClientsOk(s) && Enabled(s, m) && k < |s.cs| && k != m.i && InOrder(script, s.cs[k], s.log, k)
    ensures InOrder(script, Apply(s, m).cs[k], Apply(s, m).log, k)
  {
    hide Apply, Enabled, ClientsOk, OpsBy, ResultsBy;
    EffectOf(s, m);
    OtherClient(s, m, k);
    var log' := Apply(s, m).log;
    if log' != s.log {
      LogGrows(s.log, log'[|s.log|], k);
    }
  }

  lemma OtherClient(s: State, m: Step, k: nat)
    requires Enabled(s, m) && k < |s.cs| && k != m.i
    ensures var c' := Apply(s, m).cs[k];
            c' == s.cs[k] || (s.cs[k].pc.Asleep? && c' == s.cs[k].(pc := Woken))
  {
  }

  // What a step of a thread adds to the log is what it takes from the operations to come, and
  // what it returns is what was pending.
  lemma OwnStep(s: State, m: Step)
    requires ClientsOk(s) && Enabled(s, m) && !Apply(s, m).fault
    ensures var c, c', log' := s.cs[m.i], Apply(s, m).cs[m.i], Apply(s, m).log;
            || (log' == s.log && Rest(c') == Rest(c) && c'.results + Pending(c'.pc) == c.results + Pending(c.pc))
            || (exists e: Event :: e.i == m.i && log' == s.log + [e] && Rest(c) == [e.op] + Rest(c') &&
                  c'.results == c.results && Pending(c.pc) == [] && Pending(c'.pc) == [e.result])
  {
    var c, s' := s.cs[m.i], Apply(s, m);
    if s'.log != s.log {
      var e := s'.log[|s.log|];
      assert s'.log == s.log + [e] && c.todo == [e.op] + c.todo[1..];
    }
  }

  lemma OrderStep(s: State, m: Step, script: seq<Op>, k: nat)
    requires ClientsOk(s) && Enabled(s, m) && !Apply(s, m).fault
    requires k < |s.cs| && InOrder(script, s.cs[k], s.log, k)
    ensures InOrder(script, Apply(s, m).cs[k], Apply(s, m).log, k)
  {
    hide Apply, Enabled, Fits, OpsBy, ResultsBy, Rest, Pending;
    if k != m.i {
      OtherStep(s, m, script, k);
    } else {
      OwnStep(s, m);
      var c, c', log' := s.cs[k], Apply(s, m).cs[k], Apply(s, m).log;
      if log' != s.log {
        var e: Event :| e.i == k && log' == s.log + [e] && Rest(c) == [e.op] + Rest(c') &&
                        c'.results == c.results && Pending(c.pc) == [] && Pending(c'.pc) == [e.result];
        LogGrows(s.log, e, k);
      }
    }
  }

  lemma InvStep(scripts: seq<seq<Op>>, s: State, m: Step)
    requires Inv(scripts, s) && Enabled(s, m)
    ensures Inv(scripts, Apply(s, m))
  {
    MutexStep(s, m);
    ClientsStep(s, m);
    ReplayStep(s, m);
    forall k: nat | k < |s.cs| ensures InOrder(scripts[k], Apply(s, m).cs[k], Apply(s, m).log, k) {
      OrderStep(s, m, scripts[k], k);
    }
  }

  lemma {:induction false} RunInv(scripts: seq<seq<Op>>, ms: seq<Step>)
    ensures Run(scripts, ms).Reached? ==> Inv(scripts, Run(scripts, ms).s)
  {
    if ms != [] {
      RunInv(scripts, ms[..|ms| - 1]);
      if Run(scripts, ms).Reached? {
        InvStep(scripts, Run(scripts, ms[..|ms| - 1]).s, ms[|ms| - 1]);
      }
    }
  }

  // ----- the theorems

  // In every interleaving the operations, in the order they took effect, are what one thread
  // could have done on a plain queue, with the same results: pop and try_pop get the front, and
  // try_pop fails exactly if the queue is empty. The queue is what those operations leave.
  lemma Linearizable(scripts: seq<seq<Op>>, ms: seq<Step>)
    requires Run(scripts, ms).Reached?
    ensures var s := Run(scripts, ms).s;
            && !s.fault
            && Replay(s.log) == Legal(s.q)
            && |s.cs| == |scripts|
            && forall i: nat :: i < |scripts| ==>
                 OpsBy(s.log, i) + Rest(s.cs[i]) == scripts[i] &&
                 s.cs[i].results + Pending(s.cs[i].pc) == ResultsBy(s.log, i)
  {
    RunInv(scripts, ms);
  }

  // The mutex is held twice inside is_empty, once in the rest of a locked section, and not at all
  // while a thread sleeps, has yet to lock, or signals.
  lemma MutexHeld(scripts: seq<seq<Op>>, ms: seq<Step>, i: nat)
    requires Run(scripts, ms).Reached? && i < |Run(scripts, ms).s.cs|
    ensures var m := Run(scripts, ms).s.mutex;
            match Run(scripts, ms).s.cs[i].pc
            case InCheck => m == Held(Worker(i), 2)
            case Checked(_) => m == Held(Worker(i), 2)
            case Entered => m == Held(Worker(i), 1)
            case Decided(_) => m == Held(Worker(i), 1)
            case Leaving(_) => m == Held(Worker(i), 1)
            case Enqueuing => m == Held(Worker(i), 1)
            case PushUnlock => m == Held(Worker(i), 1)
            case _ => DepthOf(m, Worker(i)) == 0
  {
    RunInv(scripts, ms);
    assert DepthOf(Run(scripts, ms).s.mutex, Worker(i)) == Depth(Run(scripts, ms).s.cs[i].pc);
  }

  // While a thread is in a locked section, no step of another thread changes queue or log.
  lemma LockedSection(scripts: seq<seq<Op>>, ms: seq<Step>, i: nat, m: Step)
    requires Run(scripts, ms).Reached? && i < |Run(scripts, ms).s.cs| && Depth(Run(scripts, ms).s.cs[i].pc) > 0
    requires Enabled(Run(scripts, ms).s, m) && m.i != i
    ensures var s := Run(scripts, ms).s;
            Apply(s, m).q == s.q && Apply(s, m).log == s.log
  {
    RunInv(scripts, ms);
    var s := Run(scripts, ms).s;
    OwnerOnly(s, m);
    assert DepthOf(s.mutex, Worker(i)) == Depth(s.cs[i].pc);
  }

  // A try_pop that is about to fail, or has just failed, still holds the mutex and the queue is
  // empty; by LockedSection it was empty when this try_pop took the mutex.
  lemma TryPopRefused(scripts: seq<seq<Op>>, ms: seq<Step>, i: nat)
    requires Run(scripts, ms).Reached? && i < |Run(scripts, ms).s.cs|
    requires var c := Run(scripts, ms).s.cs[i];
             c.todo != [] && c.todo[0].TryPop? && (c.pc == Decided(true) || c.pc == Leaving(None))
    ensures var s := Run(scripts, ms).s; s.q == [] && s.mutex == Held(Worker(i), 1)
  {
    RunInv(scripts, ms);
    var s := Run(scripts, ms).s;
    assert DepthOf(s.mutex, Worker(i)) == Depth(s.cs[i].pc);
  }

  // ----- no lost wakeup, no deadlock

  // Threads that have appended and still owe the signal for it.
  function Owed(c: Client): nat
  {
    if c.pc.PushUnlock? || c.pc.Signalling? then 1 else 0
  }

  // Threads in pop that will look at the queue again before they can sleep.
  function Token(c: Client): nat
  {
    if c.todo != [] && c.todo[0].Pop? &&
       (c.pc.Woken? || c.pc.Entered? || c.pc.InCheck? || c.pc.Checked? || c.pc.Decided?)
    then 1 else 0
  }

  ghost predicate WakeupOk(s: State)
  {
    SomeAsleep(s.cs) ==> |s.q| <= Sum(Owed, s.cs) + Sum(Token, s.cs)
  }

  lemma WakeupChange(cs: seq<Client>, i: nat, c: Client)
    requires i < |cs|
    ensures Sum(Owed, cs[i := c]) + Owed(cs[i]) == Sum(Owed, cs) + Owed(c)
    ensures Sum(Token, cs[i := c]) + Token(cs[i]) == Sum(Token, cs) + Token(c)
    ensures !c.pc.Asleep? && SomeAsleep(cs[i := c]) ==> SomeAsleep(cs)
  {
    SumUpdate(Owed, cs, i, c);
    SumUpdate(Token, cs, i, c);
    if !c.pc.Asleep? && SomeAsleep(cs[i := c]) {
      var k :| 0 <= k < |cs| && cs[i := c][k].pc.Asleep?;
      assert cs[k].pc.Asleep?;
    }
  }

  // What a step other than a signal does to the counts: it never takes away cover that an item
  // in the queue still needs.
  lemma CoverStep(s: State, m: Step)
    requires ClientsOk(s) && Enabled(s, m) && !s.cs[m.i].pc.Signalling?
    ensures var s' := Apply(s, m);
            var c, c' := s.cs[m.i], s'.cs[m.i];
            && s'.cs == s.cs[m.i := c']
            && (!c'.pc.Asleep? ==> |s'.q| + Owed(c) + Token(c) <= |s.q| + Owed(c') + Token(c'))
            && (c'.pc.Asleep? ==> s'.q == [])
  {
  }

  lemma SignalStep(s: State, m: Step)
    requires ClientsOk(s) && Enabled(s, m) && s.cs[m.i].pc.Signalling? && !m.Spurious?
    ensures var s' := Apply(s, m);
            var c := s.cs[m.i];
            var woken := if SomeAsleep(s.cs) then s.cs[m.target := s.cs[m.target].(pc := Woken)] else s.cs;
            && s'.q == s.q && woken[m.i] == c
            && s'.cs == woken[m.i := Client(Idle, c.todo[1..], c.results + [None])]
  {
  }

  lemma SignalCover(s: State, m: Step)
    requires ClientsOk(s) && WakeupOk(s) && Enabled(s, m) && s.cs[m.i].pc.Signalling? && !m.Spurious?
    ensures WakeupOk(Apply(s, m))
  {
    hide Apply;
    SignalStep(s, m);
    var c := s.cs[m.i];
    var woken := s.cs;
    if SomeAsleep(s.cs) {
      var t := s.cs[m.target].(pc := Woken);
      woken := s.cs[m.target := t];
      WakeupChange(s.cs, m.target, t);
    }
    WakeupChange(woken, m.i, Client(Idle, c.todo[1..], c.results + [None]));
  }

  lemma WakeupStep(s: State, m: Step)
    requires ClientsOk(s) && WakeupOk(s) && Enabled(s, m)
    ensures WakeupOk(Apply(s, m))
  {
    if s.cs[m.i].pc.Signalling? {
      SignalCover(s, m);
    } else {
      hide Apply, ClientsOk, SomeAsleep, Owed, Token;
      CoverStep(s, m);
      WakeupChange(s.cs, m.i, Apply(s, m).cs[m.i]);
    }
  }

  lemma {:induction false} RunWakeup(scripts: seq<seq<Op>>, ms: seq<Step>)
    requires Run(scripts, ms).Reached?
    ensures WakeupOk(Run(scripts, ms).s)
  {
    if ms != [] {
      RunInv(scripts, ms[..|ms| - 1]);
      RunWakeup(scripts, ms[..|ms| - 1]);
      WakeupStep(Run(scripts, ms[..|ms| - 1]).s, ms[|ms| - 1]);
    }
  }

  // A step that is not a spurious wakeup.
  ghost predicate CanAct(s: State)
  {
    exists i: nat, target: nat :: Enabled(s, Act(i, target))
  }

  lemma OwnerActs(s: State)
    requires MutexOk(s) && ClientsOk(s) && s.mutex.Held?
    ensures CanAct(s)
  {
    var i := s.mutex.owner.i;
    assert DepthOf(s.mutex, Worker(i)) == Depth(s.cs[i].pc);
    assert Enabled(s, Act(i, 0));
  }

  lemma SignallerActs(s: State, i: nat)
    requires i < |s.cs| && s.cs[i].pc.Signalling?
    ensures CanAct(s)
  {
    if SomeAsleep(s.cs) {
      var k :| 0 <= k < |s.cs| && s.cs[k].pc.Asleep?;
      assert Enabled(s, Act(i, k));
    } else {
      assert Enabled(s, Act(i, 0));
    }
  }

  // A thread at rest while nobody can act: done, or in pop on a queue that is empty.
  predicate AtRest(s: State, c: Client)
  {
    (c.pc.Idle? && c.todo == []) || (c.pc.Asleep? && c.todo != [] && c.todo[0].Pop? && s.q == [])
  }

  lemma RestingThread(s: State, i: nat)
    requires MutexOk(s) && ClientsOk(s) && !CanAct(s) && i < |s.cs|
    ensures s.mutex.Free? && Owed(s.cs[i]) == 0 && Token(s.cs[i]) == 0
    ensures s.cs[i].pc.Asleep? || (s.cs[i].pc.Idle? && s.cs[i].todo == [])
  {
    if s.mutex.Held? {
      OwnerActs(s);
    }
    if s.cs[i].pc.Signalling? {
      SignallerActs(s, i);
    }
    assert DepthOf(s.mutex, Worker(i)) == Depth(s.cs[i].pc);
    assert !Enabled(s, Act(i, 0));
  }

  // In every reachable state of any mix of push, pop and try_pop: if a thread sleeps, every queued
  // item is covered by a signal still owed or by a thread in pop that will look again. A thread
  // that sleeps on a queue that is not empty is never left alone: somebody can act. And nobody
  // can act only if every thread is done or sleeps on an empty queue.
  lemma NoLostWakeup(scripts: seq<seq<Op>>, ms: seq<Step>)
    requires Run(scripts, ms).Reached?
    ensures var s := Run(scripts, ms).s;
            && (SomeAsleep(s.cs) ==> |s.q| <= Sum(Owed, s.cs) + Sum(Token, s.cs))
            && (SomeAsleep(s.cs) && s.q != [] ==> CanAct(s))
            && (!CanAct(s) ==> forall i :: 0 <= i < |s.cs| ==> AtRest(s, s.cs[i]))
  {
    RunInv(scripts, ms);
    RunWakeup(scripts, ms);
    var s := Run(scripts, ms).s;
    if !CanAct(s) {
      forall i: nat | i < |s.cs|
        ensures Owed(s.cs[i]) == 0 && Token(s.cs[i]) == 0
        ensures s.cs[i].pc.Asleep? || (s.cs[i].pc.Idle? && s.cs[i].todo == [])
      {
        RestingThread(s, i);
      }
      SumZero(Owed, s.cs);
      SumZero(Token, s.cs);
    }
  }

  // With the mutex free, every thread that wants it can have it.
  lemma FreeForAll(scripts: seq<seq<Op>>, ms: seq<Step>, i: nat, target: nat)
    requires Run(scripts, ms).Reached? && i < |Run(scripts, ms).s.cs| && Run(scripts, ms).s.mutex.Free?
    requires var c := Run(scripts, ms).s.cs[i]; c.pc.Woken? || (c.pc.Idle? && c.todo != [])
    ensures var s := Run(scripts, ms).s;
            && Run(scripts, ms + [Act(i, target)]).Reached?
            && var s' := Run(scripts, ms + [Act(i, target)]).s;
               s'.mutex == Held(Worker(i), 1) && s'.q == s.q && s'.log == s.log
  {
    RunInv(scripts, ms);
    assert (ms + [Act(i, target)])[..|ms|] == ms;
  }

  // Every wait may end without a signal.
  lemma WaitMayEnd(scripts: seq<seq<Op>>, ms: seq<Step>, i: nat)
    requires Run(scripts, ms).Reached? && i < |Run(scripts, ms).s.cs| && Run(scripts, ms).s.cs[i].pc.Asleep?
    ensures var s := Run(scripts, ms).s;
            Run(scripts, ms + [Spurious(i)]) == Reached(s.(cs := s.cs[i := s.cs[i].(pc := Woken)]))
  {
    assert (ms + [Spurious(i)])[..|ms|] == ms;
  }

  // The signal of a push wakes a sleeping thread, if there is one, and comes after the unlock.
  lemma SignalWakes(scripts: seq<seq<Op>>, ms: seq<Step>, i: nat, target: nat)
    requires Run(scripts, ms).Reached? && Enabled(Run(scripts, ms).s, Act(i, target))
    requires Run(scripts, ms).s.cs[i].pc.Signalling?
    ensures var s := Run(scripts, ms).s;
            var s' := Apply(s, Act(i, target));
            && DepthOf(s.mutex, Worker(i)) == 0 && s'.mutex == s.mutex && s'.q == s.q
            && (SomeAsleep(s.cs) ==> s.cs[target].pc.Asleep? && s'.cs[target] == s.cs[target].(pc := Woken))
  {
    RunInv(scripts, ms);
    assert DepthOf(Run(scripts, ms).s.mutex, Worker(i)) == Depth(Run(scripts, ms).s.cs[i].pc);
    SignalStep(Run(scripts, ms).s, Act(i, target));
  }
}
