/** Which calls guarantee that every task runs, on every run and with any number of callers. */
module ProtocolCallers {
  import opened Sums
  import opened Mutexes
  import opened Protocol
  import opened ProtocolInvariants
  import opened ProtocolTheorems
  import opened ProtocolShutdown

  // The empty functions that can get ahead of job `i` of caller `p`: those that this caller adds
  // before it, and all those of the other callers.
  function Ahead(scripts: seq<seq<Job>>, p: nat, i: nat): nat
    requires p < |scripts| && i <= |scripts[p]|
  {
    Sum(Empties, scripts[p := scripts[p][..i]])
  }

  predicate AlwaysDrainable(scripts: seq<seq<Job>>, workers: nat)
  {
    forall p: nat, i: nat :: p < |scripts| && i < |scripts[p]| && scripts[p][i].Task? ==> Ahead(scripts, p, i) < workers
  }

  // Every task has been run to completion exactly as often as the callers added it.
  ghost predicate AllRan(c: Config, s: State)
  {
    forall id: nat :: multiset(s.finished)[id] == Sum(Times(id), c.scripts)
  }

  lemma AllRanIsDrained(c: Config, ms: seq<Move>)
    requires Run(c, ms).Reached? && Run(c, ms).s.phase.Returned?
    ensures AllRan(c, Run(c, ms).s) <==> Drainable(Adds(Run(c, ms).s.pushed), c.workers)
  {
    DrainBeforeJoin(c, ms);
    var s := Run(c, ms).s;
    var ids: seq<nat> := TaskIds(Adds(s.pushed));
    forall id: nat ensures multiset(ids)[id] == Sum(Times(id), c.scripts) {
      CallersTasks(c, ms, id);
    }
    if AllRan(c, s) {
      forall id: nat ensures multiset(s.finished)[id] == multiset(ids)[id] {
      }
    }
  }

  // ----- the condition suffices

  lemma {:induction false} EmptiesPrefix(a: seq<Job>, b: seq<Job>)
    requires a <= b
    ensures Empties(a) <= Empties(b)
  {
    assert b == a + b[|a|..];
    EmptiesConcat(a, b[|a|..]);
  }

  lemma {:induction false} SumMonotone<T>(f: T -> nat, s: seq<T>, t: seq<T>)
    requires |s| == |t| && forall k :: 0 <= k < |s| ==> f(s[k]) <= f(t[k])
    ensures Sum(f, s) <= Sum(f, t)
  {
    if s != [] {
      forall k | 0 <= k < |s| - 1 ensures f(s[1..][k]) <= f(t[1..][k]) {
        assert s[1..][k] == s[k + 1] && t[1..][k] == t[k + 1];
      }
      SumMonotone(f, s[1..], t[1..]);
    }
  }

  // The entry of the push order that job number `k` of the callers comes from.
  lemma {:induction false} AddsPosition(log: seq<Entry>, k: nat) returns (n: nat)
    requires k < |Adds(log)|
    ensures n < |log| && Adds(log[..n]) == Adds(log)[..k]
    ensures log[n].pusher > 0 && log[n].job == Adds(log)[k]
  {
    var before := log[..|log| - 1];
    if k < |Adds(before)| {
      n := AddsPosition(before, k);
      assert before[..n] == log[..n];
    } else {
      n := |log| - 1;
    }
  }

  lemma {:induction false} PushedByPrefix(log: seq<Entry>, n: nat, p: nat)
    requires n <= |log|
    ensures PushedBy(log[..n], p) <= PushedBy(log, p)
  {
    if n < |log| {
      assert log[..|log| - 1][..n] == log[..n];
      PushedByPrefix(log[..|log| - 1], n, p);
    } else {
      assert log[..n] == log;
    }
  }

  // What is ahead of an entry in the push order is at most what can get ahead of its job.
  lemma AheadOfEntry(scripts: seq<seq<Job>>, log: seq<Entry>, n: nat) returns (i: nat)
    requires forall k :: 0 <= k < |log| ==> log[k].pusher <= |scripts|
    requires forall p: nat :: 1 <= p <= |scripts| ==> PushedBy(log, p) == scripts[p - 1]
    requires n < |log| && log[n].pusher > 0
    ensures var p := log[n].pusher - 1;
            i < |scripts[p]| && scripts[p][i] == log[n].job && Empties(Adds(log[..n])) <= Ahead(scripts, p, i)
  {
    var p := log[n].pusher - 1;
    var own := PushedBy(log[..n], p + 1);
    i := |own|;
    assert log[..n + 1][..n] == log[..n];
    assert PushedBy(log[..n + 1], p + 1) == own + [log[n].job];
    PushedByPrefix(log, n + 1, p + 1);
    assert (own + [log[n].job])[i] == log[n].job;
    assert scripts[p][..i] == own;
    SumAhead(scripts, log, n, p, own);
  }

  lemma SumAhead(scripts: seq<seq<Job>>, log: seq<Entry>, n: nat, p: nat, own: seq<Job>)
    requires forall k :: 0 <= k < |log| ==> log[k].pusher <= |scripts|
    requires forall k: nat :: 1 <= k <= |scripts| ==> PushedBy(log, k) == scripts[k - 1]
    requires n <= |log| && p < |scripts| && own == PushedBy(log[..n], p + 1)
    ensures Empties(Adds(log[..n])) <= Sum(Empties, scripts[p := own])
  {
    hide Adds, PushedBy, Empties, Sum;
    SumSoFar(log[..n], |scripts|);
    var now, ahead := PushedByAll(log[..n], |scripts|), scripts[p := own];
    forall k: nat | k < |scripts| ensures Empties(now[k]) <= Empties(ahead[k]) {
      PushedByPrefix(log, n, k + 1);
      EmptiesPrefix(now[k], scripts[k]);
    }
    SumMonotone(Empties, now, ahead);
  }

  lemma SumSoFar(log: seq<Entry>, n: nat)
    requires forall k :: 0 <= k < |log| ==> log[k].pusher <= n
    ensures Empties(Adds(log)) == Sum(Empties, PushedByAll(log, n))
  {
    EmptiesAdditive();
    AddsSum(Empties, log, n);
  }

  lemma Sufficient(c: Config, ms: seq<Move>)
    requires Run(c, ms).Reached? && Run(c, ms).s.phase.Returned?
    requires AlwaysDrainable(c.scripts, c.workers)
    ensures Drainable(Adds(Run(c, ms).s.pushed), c.workers)
  {
    Shutdown(c, ms);
    RunInv(c, ms);
    var log := Run(c, ms).s.pushed;
    var adds := Adds(log);
    forall k | 0 <= k < |adds| && adds[k].Task? ensures Empties(adds[..k]) < c.workers {
      var n := AddsPosition(log, k);
      var i := AheadOfEntry(c.scripts, log, n);
    }
  }

  // ----- the condition is necessary: a run in which all other callers come first

  lemma Then(c: Config, ms: seq<Move>, m: Move)
    requires Run(c, ms).Reached? && Enabled(c, Run(c, ms).s, m)
    ensures Run(c, ms + [m]) == Reached(Apply(c, Run(c, ms).s, m))
  {
    assert (ms + [m])[..|ms|] == ms;
  }

  // The object is alive and no thread is in the middle of anything.
  ghost predicate Calm(s: State)
  {
    && s.phase.Serving? && s.mutex.Free? && !SomeAsleep(s.ws)
    && forall p :: 0 <= p < |s.ps| ==> s.ps[p].pc.Ready?
  }

  // The state after the first `n` launches.
  function Launched(c: Config, n: nat): State
    requires n <= c.workers
  {
    Start(c).(ws := seq(c.workers, (i: nat) => if i < n then AtPop else Unborn), phase := Launching(n))
  }

  lemma {:induction false} Launch(c: Config, n: nat) returns (ms: seq<Move>)
    requires n <= c.workers
    ensures Run(c, ms) == Reached(Launched(c, n))
  {
    if n == 0 {
      ms := [];
      assert Launched(c, 0).ws == Start(c).ws;
    } else {
      var before := Launch(c, n - 1);
      Then(c, before, MainMove);
      ms := before + [MainMove];
      assert Launched(c, n - 1).ws[n - 1 := AtPop] == Launched(c, n).ws;
    }
  }

  lemma Constructed(c: Config) returns (ms: seq<Move>)
    ensures Run(c, ms) == Reached(Launched(c, c.workers).(phase := Serving))
    ensures Calm(Run(c, ms).s) && Run(c, ms).s.ps == Start(c).ps
  {
    var before := Launch(c, c.workers);
    Then(c, before, MainMove);
    ms := before + [MainMove];
  }

  // The four steps of one push, with nobody asleep.
  function AfterPush(s: State, p: nat): State
    requires p < |s.ps| && s.ps[p].todo != []
  {
    var job := s.ps[p].todo[0];
    s.(q := s.q + [job], pushed := s.pushed + [Entry(p, job)], ps := s.ps[p := PusherState(Ready, s.ps[p].todo[1..])])
  }

  lemma PushSteps(c: Config, s: State, p: nat)
    requires Calm(s) && 1 <= p < |s.ps| && s.ps[p].todo != []
    ensures var m := PusherMove(p, 0);
            Enabled(c, s, m) && Enabled(c, Apply(c, s, m), m)
    ensures var m := PusherMove(p, 0);
            var s' := Apply(c, Apply(c, s, m), m);
            && Enabled(c, s', m) && Enabled(c, Apply(c, s', m), m)
            && Apply(c, Apply(c, s', m), m) == AfterPush(s, p)
  {
    var m, job, rest := PusherMove(p, 0), s.ps[p].todo[0], s.ps[p].todo[1..];
    var s1 := Apply(c, s, m);
    assert s1 == s.(mutex := Held(Pusher(p), 1), ps := s.ps[p := PusherState(AtEnqueue, s.ps[p].todo)]);
    var s2 := Apply(c, s1, m);
    var pc := if c.variant.Pool? then AtUnlock(true) else AtSignal(true);
    assert s2.ps == s.ps[p := PusherState(pc, rest)];
    var s3 := Apply(c, s2, m);
    var pc3 := if c.variant.Pool? then AtSignal(false) else AtUnlock(false);
    assert s3.ps == s.ps[p := PusherState(pc3, rest)];
    var s4 := Apply(c, s3, m);
    assert s4.ps == AfterPush(s, p).ps;
  }

  lemma PushOne(c: Config, ms: seq<Move>, p: nat) returns (ms': seq<Move>)
    requires Run(c, ms).Reached? && Calm(Run(c, ms).s)
    requires 1 <= p < |Run(c, ms).s.ps| && Run(c, ms).s.ps[p].todo != []
    ensures Run(c, ms') == Reached(AfterPush(Run(c, ms).s, p)) && Calm(Run(c, ms').s)
  {
    hide Run, Enabled, Apply;
    var m := PusherMove(p, 0);
    PushSteps(c, Run(c, ms).s, p);
    Then(c, ms, m);
    Then(c, ms + [m], m);
    Then(c, ms + [m] + [m], m);
    Then(c, ms + [m] + [m] + [m], m);
    ms' := ms + [m] + [m] + [m] + [m];
  }

  // Caller `p` pushes its next `n` jobs, and nobody else does anything.
  lemma {:induction false} PushSome(c: Config, ms: seq<Move>, p: nat, n: nat) returns (ms': seq<Move>)
    requires Run(c, ms).Reached? && Calm(Run(c, ms).s)
    requires 1 <= p < |Run(c, ms).s.ps| && n <= |Run(c, ms).s.ps[p].todo|
    ensures Run(c, ms').Reached? && Calm(Run(c, ms').s)
    ensures var s := Run(c, ms).s; Run(c, ms').s.ps == s.ps[p := PusherState(Ready, s.ps[p].todo[n..])]
    decreases n
  {
    hide Run;
    var s := Run(c, ms).s;
    if n == 0 {
      ms' := ms;
      assert s.ps[p := PusherState(Ready, s.ps[p].todo[0..])] == s.ps;
    } else {
      var one := PushOne(c, ms, p);
      ms' := PushSome(c, one, p, n - 1);
      assert s.ps[p].todo[1..][n - 1..] == s.ps[p].todo[n..];
    }
  }

  // The callers 1 to `n` push all they have, except for caller `p`.
  lemma {:induction false} PushOthers(c: Config, p: nat, n: nat) returns (ms: seq<Move>)
    requires 1 <= p <= |c.scripts| && n <= |c.scripts|
    ensures Run(c, ms).Reached? && Calm(Run(c, ms).s) && |Run(c, ms).s.ps| == |c.scripts| + 1
    ensures forall k: nat :: 1 <= k <= |c.scripts| ==>
              Run(c, ms).s.ps[k] == PusherState(Ready, if k <= n && k != p then [] else ScriptOf(c, k))
  {
    if n == 0 {
      ms := Constructed(c);
    } else {
      ms := PushOthers(c, p, n - 1);
      if n != p {
        ms := PushSome(c, ms, n, |ScriptOf(c, n)|);
      }
    }
  }

  // What was pushed when the other callers are through and caller `p` has added `i` jobs.
  lemma AllAhead(c: Config, ms: seq<Move>, p: nat, i: nat)
    requires p < |c.scripts| && i <= |c.scripts[p]|
    requires Run(c, ms).Reached? && |Run(c, ms).s.ps| == |c.scripts| + 1
    requires forall k: nat :: 1 <= k <= |c.scripts| ==>
               Run(c, ms).s.ps[k].todo == if k == p + 1 then c.scripts[p][i..] else []
    ensures Empties(Adds(Run(c, ms).s.pushed)) == Ahead(c.scripts, p, i)
  {
    hide Run, Empties, Sum, PushedBy, Adds;
    InOrder(c, ms);
    var s := Run(c, ms).s;
    SumSoFar(s.pushed, |c.scripts|);
    var now := PushedByAll(s.pushed, |c.scripts|);
    forall k: nat | k < |c.scripts| ensures now[k] == if k == p then c.scripts[p][..i] else c.scripts[k] {
      assert PushedBy(s.pushed, k + 1) + s.ps[k + 1].todo == ScriptOf(c, k + 1);
      if k == p {
        BeforeRest(now[k], c.scripts[p], i);
      }
    }
    assert now == c.scripts[p := c.scripts[p][..i]];
  }

  lemma BeforeRest(a: seq<Job>, all: seq<Job>, i: nat)
    requires i <= |all| && a + all[i..] == all
    ensures a == all[..i]
  {
    assert |a| == i && (a + all[i..])[..i] == a;
  }

  lemma InOrder(c: Config, ms: seq<Move>)
    requires Run(c, ms).Reached?
    ensures Shape(c, Run(c, ms).s) && OrderOk(c, Run(c, ms).s)
  {
    RunInv(c, ms);
  }

  lemma PushedStep(c: Config, s: State, m: Move)
    requires Enabled(c, s, m)
    ensures s.pushed <= Apply(c, s, m).pushed
  {
  }

  lemma {:induction false} PushedGrows(c: Config, ms: seq<Move>, ext: seq<Move>)
    requires Run(c, ms + ext).Reached?
    ensures Run(c, ms).Reached? && Run(c, ms).s.pushed <= Run(c, ms + ext).s.pushed
  {
    if ext == [] {
      assert ms + ext == ms;
    } else {
      hide Enabled, Apply;
      assert (ms + ext)[..|ms + ext| - 1] == ms + ext[..|ext| - 1];
      PushedGrows(c, ms, ext[..|ext| - 1]);
      PushedStep(c, Run(c, ms + ext[..|ext| - 1]).s, ext[|ext| - 1]);
    }
  }

  lemma {:induction false} AddsPrefix(log: seq<Entry>, n: nat)
    requires n <= |log|
    ensures Adds(log[..n]) <= Adds(log)
  {
    if n < |log| {
      assert log[..|log| - 1][..n] == log[..n];
      AddsPrefix(log[..|log| - 1], n);
    } else {
      assert log[..n] == log;
    }
  }

  lemma AddsGrow(log: seq<Entry>, e: Entry)
    ensures Adds(log + [e]) == Adds(log) + if e.pusher != 0 then [e.job] else []
  {
    assert (log + [e])[..|log|] == log;
  }

  // The other callers have come first, caller `p` has added its jobs up to and including job `i`.
  lemma WorstStart(c: Config, p: nat, i: nat) returns (ms: seq<Move>, k: nat)
    requires p < |c.scripts| && i < |c.scripts[p]|
    ensures Run(c, ms).Reached?
    ensures var adds := Adds(Run(c, ms).s.pushed);
            |adds| == k + 1 && adds[k] == c.scripts[p][i] && Empties(adds[..k]) == Ahead(c.scripts, p, i)
  {
    hide Run, Empties, Ahead, Adds, Calm;
    var others := PushOthers(c, p + 1, |c.scripts|);
    var before := PushSome(c, others, p + 1, i);
    AllAhead(c, before, p, i);
    var log := Run(c, before).s.pushed;
    k := |Adds(log)|;
    ms := PushOne(c, before, p + 1);
    AddsGrow(log, Entry(p + 1, c.scripts[p][i]));
    assert Adds(Run(c, ms).s.pushed)[..k] == Adds(log);
  }

  // A run on which job `i` of caller `p` ends up behind everything that can get ahead of it.
  lemma WorstRun(c: Config, p: nat, i: nat) returns (ms: seq<Move>, k: nat)
    requires p < |c.scripts| && i < |c.scripts[p]|
    ensures Run(c, ms).Reached? && Run(c, ms).s.phase.Returned?
    ensures var adds := Adds(Run(c, ms).s.pushed);
            k < |adds| && adds[k] == c.scripts[p][i] && Empties(adds[..k]) == Ahead(c.scripts, p, i)
  {
    hide Run, Empties, Ahead, Adds;
    var start, k' := WorstStart(c, p, i);
    var ext := EveryRunReturns(c, start);
    ms, k := start + ext, k';
    PushedGrows(c, start, ext);
    var log, end := Run(c, start).s.pushed, Run(c, ms).s.pushed;
    AddsPrefix(end, |log|);
    assert end[..|log|] == log;
    assert Adds(end)[..k] == Adds(log)[..k];
  }

  // ----- the theorem

  // Every run ends with every task run as often as it was added, if and only if no task can have
  // as many empty functions ahead of it as there are workers.
  lemma DrainsOnEveryRun(c: Config)
    ensures AlwaysDrainable(c.scripts, c.workers) <==>
            forall ms | Run(c, ms).Reached? && Run(c, ms).s.phase.Returned? :: AllRan(c, Run(c, ms).s)
  {
    if AlwaysDrainable(c.scripts, c.workers) {
      forall ms | Run(c, ms).Reached? && Run(c, ms).s.phase.Returned? ensures AllRan(c, Run(c, ms).s) {
        Sufficient(c, ms);
        AllRanIsDrained(c, ms);
      }
    } else {
      var p: nat, i: nat :|
        p < |c.scripts| && i < |c.scripts[p]| && c.scripts[p][i].Task? && Ahead(c.scripts, p, i) >= c.workers;
      var ms, k := WorstRun(c, p, i);
      AllRanIsDrained(c, ms);
    }
  }

  // Then no task is left in the queue either.
  lemma EveryTaskOnce(c: Config, ms: seq<Move>)
    requires Run(c, ms).Reached? && Run(c, ms).s.phase.Returned?
    requires AlwaysDrainable(c.scripts, c.workers)
    ensures AllRan(c, Run(c, ms).s) && TaskIds(Run(c, ms).s.q) == []
  {
    var s := Run(c, ms).s;
    Sufficient(c, ms);
    AllRanIsDrained(c, ms);
    Shutdown(c, ms);
    CutLosesNothing(Adds(s.pushed), c.workers, s.popped, s.q);
    NoTasks(s.q);
  }
}
