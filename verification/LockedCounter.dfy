/** Threads that each add one to a shared counter `k` times under a mutex, load and store apart. */
module LockedCounter {
  import opened Sums

  datatype Pc = Unlocked | Locked | Loaded(value: nat) | Stored

  // `left` are the iterations not begun.
  datatype Thread = Thread(pc: Pc, left: nat)

  datatype Holder = Nobody | HeldBy(t: nat)

  datatype State = State(counter: nat, holder: Holder, threads: seq<Thread>)

  function Start(n: nat, k: nat): State
  {
    State(0, Nobody, seq(n, _ => Thread(Unlocked, k)))
  }

  predicate Enabled(s: State, t: nat)
  {
    t < |s.threads| &&
    match s.threads[t].pc
    case Unlocked => s.threads[t].left > 0 && s.holder.Nobody?
    case _ => true
  }

  function Step(s: State, t: nat): State
    requires Enabled(s, t)
  {
    var th := s.threads[t];
    match th.pc
    case Unlocked => s.(holder := HeldBy(t), threads := s.threads[t := Thread(Locked, th.left - 1)])
    case Locked => s.(threads := s.threads[t := th.(pc := Loaded(s.counter))])
    case Loaded(v) => s.(counter := v + 1, threads := s.threads[t := th.(pc := Stored)])
    case Stored => s.(holder := Nobody, threads := s.threads[t := th.(pc := Unlocked)])
  }

  datatype Outcome = Reached(s: State) | Impossible

  function Run(n: nat, k: nat, schedule: seq<nat>): Outcome
  {
    if schedule == [] then Reached(Start(n, k))
    else
      var last := schedule[|schedule| - 1];
      match Run(n, k, schedule[..|schedule| - 1])
      case Impossible => Impossible
      case Reached(s) => if Enabled(s, last) then Reached(Step(s, last)) else Impossible
  }

  // Stores a thread still has to make.
  function Left(th: Thread): nat
  {
    th.left + if th.pc.Locked? || th.pc.Loaded? then 1 else 0
  }

  // Steps a thread still has to make.
  function StepsLeft(th: Thread): nat
  {
    4 * th.left +
    match th.pc
    case Unlocked => 0
    case Locked => 3
    case Loaded(_) => 2
    case Stored => 1
  }

  // At most the holder is between lock and unlock; a loaded value is never stale; and stores
  // done and stores to come add up.
  ghost predicate Inv(n: nat, k: nat, s: State)
  {
    && |s.threads| == n
    && (forall t: nat :: t < n ==> (!s.threads[t].pc.Unlocked? <==> s.holder == HeldBy(t)))
    && (s.holder.HeldBy? ==> s.holder.t < n)
    && (forall t: nat :: t < n && s.threads[t].pc.Loaded? ==> s.threads[t].pc.value == s.counter)
    && s.counter + Sum(Left, s.threads) == n * k
  }

  lemma {:induction false} SumStart(f: Thread -> nat, n: nat, k: nat)
    ensures Sum(f, Start(n, k).threads) == n * f(Thread(Unlocked, k))
  {
    var all := Start(n, k).threads;
    if n > 0 {
      assert all[1..] == Start(n - 1, k).threads;
      SumStart(f, n - 1, k);
    }
  }

  lemma InvStep(n: nat, k: nat, s: State, t: nat)
    requires Inv(n, k, s) && Enabled(s, t)
    ensures Inv(n, k, Step(s, t))
    ensures Sum(StepsLeft, Step(s, t).threads) + 1 == Sum(StepsLeft, s.threads)
  {
    SumUpdate(Left, s.threads, t, Step(s, t).threads[t]);
    SumUpdate(StepsLeft, s.threads, t, Step(s, t).threads[t]);
  }

  // Exclusion, exactness and the number of steps, in every interleaving.
  lemma {:induction false} RunInv(n: nat, k: nat, schedule: seq<nat>)
    requires Run(n, k, schedule).Reached?
    ensures Inv(n, k, Run(n, k, schedule).s)
    ensures |schedule| + Sum(StepsLeft, Run(n, k, schedule).s.threads) == 4 * n * k
  {
    if schedule == [] {
      SumStart(Left, n, k);
      SumStart(StepsLeft, n, k);
      assert n * (4 * k) == 4 * n * k;
    } else {
      var before := schedule[..|schedule| - 1];
      RunInv(n, k, before);
      InvStep(n, k, Run(n, k, before).s, schedule[|schedule| - 1]);
    }
  }

  predicate Joined(s: State)
  {
    forall t :: 0 <= t < |s.threads| ==> s.threads[t] == Thread(Unlocked, 0)
  }

  // The threads can be joined exactly after 4 * n * k steps, the counter is n * k then, and before
  // that some thread can always go on.
  lemma CounterExact(n: nat, k: nat, schedule: seq<nat>)
    requires Run(n, k, schedule).Reached?
    ensures var s := Run(n, k, schedule).s;
            && (Joined(s) <==> |schedule| == 4 * n * k)
            && (Joined(s) ==> s.counter == n * k)
            && (!Joined(s) ==> exists t :: Enabled(s, t))
  {
    RunInv(n, k, schedule);
    var s := Run(n, k, schedule).s;
    SumZero(StepsLeft, s.threads);
    SumZero(Left, s.threads);
    if !Joined(s) {
      var t :| 0 <= t < |s.threads| && s.threads[t] != Thread(Unlocked, 0);
      if s.holder.HeldBy? {
        assert Enabled(s, s.holder.t);
      } else {
        assert Enabled(s, t);
      }
    }
  }
}
