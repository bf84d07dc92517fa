/**
 The search tree shared by threads: walks advance one node per step, any interleaving, under the
 readers-writer lock. A node is an index into the heap; allocation takes the next free index.
 */
module SharedTree {

  datatype Ref = Null | At(i: nat)

  datatype NodeRec = NodeRec(key: int, left: Ref, right: Ref)

  datatype Op = Insert(key: int) | Search(key: int)

  datatype Pc =
    | Idle
    | InsertEntered          // write lock taken
    | InsertWalk(at: nat)    // at a node, about to compare
    | InsertDone
    | SearchWalk(ref: Ref)   // read lock taken
    | SearchDone(found: bool)

  // `results` are the answers that search has returned to this thread.
  datatype Thread = Thread(pc: Pc, todo: seq<Op>, results: seq<bool>)

  datatype Event = Event(thread: nat, op: Op, found: bool)

  datatype Writer = NoWriter | WriterIs(t: nat)

  datatype State = State(
    heap: seq<NodeRec>,
    root: Ref,
    writer: Writer,
    readers: set<nat>,
    threads: seq<Thread>,
    log: seq<Event>)       // operations in the order they took effect

  function Start(scripts: seq<seq<Op>>): State
  {
    State([], Null, NoWriter, {}, seq(|scripts|, (t: nat) requires t < |scripts| => Thread(Idle, scripts[t], [])), [])
  }

  function InsertChild(n: NodeRec, key: int): Ref
  {
    if key < n.key then n.left else n.right
  }

  predicate Enabled(s: State, t: nat)
  {
    t < |s.threads| &&
    match s.threads[t].pc
    case Idle =>
      s.threads[t].todo != [] && s.writer.NoWriter? && (s.threads[t].todo[0].Insert? ==> s.readers == {})
    case InsertEntered => s.threads[t].todo != []
    case InsertWalk(v) => s.threads[t].todo != [] && v < |s.heap|
    case SearchWalk(v) => s.threads[t].todo != [] && (v.At? ==> v.i < |s.heap|)
    case InsertDone => true
    case SearchDone(_) => true
  }

  // The insert of thread `t` takes effect: `heap` and `root` hold the new node.
  function Linked(s: State, t: nat, heap: seq<NodeRec>, root: Ref): State
    requires t < |s.threads| && s.threads[t].todo != []
  {
    var th := s.threads[t];
    s.(heap := heap, root := root, log := s.log + [Event(t, th.todo[0], true)],
       threads := s.threads[t := Thread(InsertDone, th.todo[1..], th.results)])
  }

  function Attach(heap: seq<NodeRec>, v: nat, key: int): seq<NodeRec>
    requires v < |heap|
  {
    var n := heap[v];
    var child := At(|heap|);
    heap[v := if key < n.key then n.(left := child) else n.(right := child)] + [NodeRec(key, Null, Null)]
  }

  function Step(s: State, t: nat): State
    requires Enabled(s, t)
  {
    var th := s.threads[t];
    match th.pc
    case Idle =>
      if th.todo[0].Insert? then s.(writer := WriterIs(t), threads := s.threads[t := th.(pc := InsertEntered)])
      else s.(readers := s.readers + {t}, threads := s.threads[t := th.(pc := SearchWalk(s.root))])
    case InsertEntered =>
      if s.root.Null? then Linked(s, t, s.heap + [NodeRec(th.todo[0].key, Null, Null)], At(|s.heap|))
      else s.(threads := s.threads[t := th.(pc := InsertWalk(s.root.i))])
    case InsertWalk(v) =>
      var key := th.todo[0].key;
      var child := InsertChild(s.heap[v], key);
      if child.Null? then Linked(s, t, Attach(s.heap, v, key), s.root)
      else s.(threads := s.threads[t := th.(pc := InsertWalk(child.i))])
    case InsertDone => s.(writer := NoWriter, threads := s.threads[t := th.(pc := Idle)])
    case SearchWalk(v) =>
      var key := th.todo[0].key;
      if v.Null? || s.heap[v.i].key == key then
        s.(log := s.log + [Event(t, th.todo[0], v.At?)],
           threads := s.threads[t := Thread(SearchDone(v.At?), th.todo[1..], th.results)])
      else s.(threads := s.threads[t := th.(pc := SearchWalk(InsertChild(s.heap[v.i], key)))])
    case SearchDone(found) =>
      s.(readers := s.readers - {t}, threads := s.threads[t := Thread(Idle, th.todo, th.results + [found])])
  }

  datatype Outcome = Reached(s: State) | Impossible

  // Where a schedule, a sequence of thread numbers, leads.
  function Run(scripts: seq<seq<Op>>, schedule: seq<nat>): Outcome
  {
    if schedule == [] then Reached(Start(scripts))
    else
      var last := schedule[|schedule| - 1];
      match Run(scripts, schedule[..|schedule| - 1])
      case Impossible => Impossible
      case Reached(s) => if Enabled(s, last) then Reached(Step(s, last)) else Impossible
  }

  // ----- the heap

  // Whether a search for `key` from `r` succeeds.
  function Finds(heap: seq<NodeRec>, r: Ref, key: int): bool
    decreases if r.At? && r.i < |heap| then |heap| - r.i else 0
  {
    if r.Null? || r.i >= |heap| then false
    else if heap[r.i].key == key then true
    else
      var child := InsertChild(heap[r.i], key);
      if child.At? && child.i <= r.i then false else Finds(heap, child, key)
  }

  // Whether the insertion walk for `key` from node `v` comes to node `w`.
  predicate Passes(heap: seq<NodeRec>, v: nat, w: nat, key: int)
    decreases if v < |heap| then |heap| - v else 0
  {
    v < |heap| &&
    (v == w ||
     var child := InsertChild(heap[v], key);
     child.At? && child.i > v && Passes(heap, child.i, w, key))
  }

  ghost predicate HeapOk(heap: seq<NodeRec>, root: Ref)
  {
    && root == (if heap == [] then Null else At(0))
    && forall v: nat :: v < |heap| ==>
         && (heap[v].left.At? ==> v < heap[v].left.i < |heap|)
         && (heap[v].right.At? ==> v < heap[v].right.i < |heap|)
  }

  lemma {:induction false} AttachOthers(heap: seq<NodeRec>, v: nat, key: int, r: Ref, k: int)
    requires HeapOk(heap, At(0)) && v < |heap| && InsertChild(heap[v], key).Null? && k != key
    requires r.At? ==> r.i < |heap|
    ensures Finds(Attach(heap, v, key), r, k) == Finds(heap, r, k)
    decreases if r.At? then |heap| - r.i else 0
  {
    if r.At? && heap[r.i].key != k {
      var heap' := Attach(heap, v, key);
      var child, child' := InsertChild(heap[r.i], k), InsertChild(heap'[r.i], k);
      AttachOthers(heap, v, key, child, k);
      if child' != child {
        assert child.Null? && child' == At(|heap|);
        assert heap'[|heap|] == NodeRec(key, Null, Null);
      }
    }
  }

  lemma {:induction false} AttachFinds(heap: seq<NodeRec>, v: nat, key: int, w: nat)
    requires HeapOk(heap, At(0)) && v < |heap| && InsertChild(heap[v], key).Null?
    requires Passes(heap, w, v, key)
    ensures Finds(Attach(heap, v, key), At(w), key)
    decreases |heap| - w
  {
    var heap' := Attach(heap, v, key);
    if w == v {
      assert heap'[|heap|] == NodeRec(key, Null, Null);
      assert Finds(heap', At(|heap|), key);
    } else {
      AttachFinds(heap, v, key, InsertChild(heap[w], key).i);
    }
  }

  lemma {:induction false} PassesOn(heap: seq<NodeRec>, u: nat, v: nat, key: int)
    requires HeapOk(heap, At(0)) && Passes(heap, u, v, key) && v < |heap| && InsertChild(heap[v], key).At?
    ensures Passes(heap, u, InsertChild(heap[v], key).i, key)
    decreases if u < |heap| then |heap| - u else 0
  {
    if u == v {
      assert Passes(heap, InsertChild(heap[v], key).i, InsertChild(heap[v], key).i, key);
    } else {
      PassesOn(heap, InsertChild(heap[u], key).i, v, key);
    }
  }

  // ----- what every step keeps

  predicate Writing(pc: Pc)
  {
    pc.InsertEntered? || pc.InsertWalk? || pc.InsertDone?
  }

  predicate Reading(pc: Pc)
  {
    pc.SearchWalk? || pc.SearchDone?
  }

  // The lock is held as program counters say, and a writer is alone.
  ghost predicate LockOk(s: State)
  {
    && (forall t: nat :: t < |s.threads| ==> (Writing(s.threads[t].pc) <==> s.writer == WriterIs(t)))
    && (forall t: nat :: t < |s.threads| ==> (Reading(s.threads[t].pc) <==> t in s.readers))
    && (forall t :: t in s.readers ==> t < |s.threads|)
    && (s.writer.WriterIs? ==> s.writer.t < |s.threads| && s.readers == {})
  }

  predicate Contains(log: seq<Event>, key: int)
  {
    exists j :: 0 <= j < |log| && log[j].op == Insert(key)
  }

  // The keys that a search finds are exactly those whose insert has taken effect.
  ghost predicate MembersOk(s: State)
  {
    forall k: int :: Finds(s.heap, s.root, k) <==> Contains(s.log, k)
  }

  // A walk is where its key belongs.
  ghost predicate WalkOk(s: State, th: Thread)
  {
    match th.pc
    case Idle => true
    case InsertEntered => th.todo != [] && th.todo[0].Insert?
    case InsertWalk(v) => th.todo != [] && th.todo[0].Insert? && v < |s.heap| && Passes(s.heap, 0, v, th.todo[0].key)
    case InsertDone => true
    case SearchWalk(v) =>
      th.todo != [] && th.todo[0].Search? && (v.At? ==> v.i < |s.heap|) &&
      Finds(s.heap, v, th.todo[0].key) == Finds(s.heap, s.root, th.todo[0].key)
    case SearchDone(_) => true
  }

  ghost predicate Inv(s: State)
  {
    && HeapOk(s.heap, s.root) && LockOk(s) && MembersOk(s)
    && forall t: nat :: t < |s.threads| ==> WalkOk(s, s.threads[t])
  }

  // Every search in the log reports what the inserts before it say.
  ghost predicate Legal(log: seq<Event>)
  {
    forall i :: 0 <= i < |log| && log[i].op.Search? ==> (log[i].found <==> Contains(log[..i], log[i].op.key))
  }

  lemma LockStep(s: State, t: nat)
    requires LockOk(s) && Enabled(s, t) && WalkOk(s, s.threads[t])
    ensures LockOk(Step(s, t))
  {
  }

  lemma ContainsGrow(log: seq<Event>, e: Event, k: int)
    ensures Contains(log + [e], k) <==> Contains(log, k) || e.op == Insert(k)
  {
    if Contains(log, k) {
      var j :| 0 <= j < |log| && log[j].op == Insert(k);
      assert (log + [e])[j].op == Insert(k);
    }
    assert (log + [e])[|log|] == e;
  }

  // The step that links a new node: it is found from then on, and nothing else changes.
  lemma LinkStep(s: State, t: nat, k: int)
    requires Inv(s) && Enabled(s, t)
    requires var pc := s.threads[t].pc;
             if pc.InsertWalk? then InsertChild(s.heap[pc.at], s.threads[t].todo[0].key).Null?
             else pc.InsertEntered? && s.root.Null?
    ensures var s' := Step(s, t);
            && HeapOk(s'.heap, s'.root)
            && (Finds(s'.heap, s'.root, k) <==> Finds(s.heap, s.root, k) || k == s.threads[t].todo[0].key)
            && (Contains(s'.log, k) <==> Contains(s.log, k) || k == s.threads[t].todo[0].key)
  {
    var th := s.threads[t];
    ContainsGrow(s.log, Event(t, th.todo[0], true), k);
    if th.pc.InsertWalk? {
      var v, key := th.pc.at, th.todo[0].key;
      if k == key {
        AttachFinds(s.heap, v, key, 0);
      } else {
        AttachOthers(s.heap, v, key, At(0), k);
      }
    }
  }

  lemma MembersStep(s: State, t: nat)
    requires Inv(s) && Enabled(s, t)
    ensures HeapOk(Step(s, t).heap, Step(s, t).root) && MembersOk(Step(s, t))
  {
    var s' := Step(s, t);
    forall k: int ensures Finds(s'.heap, s'.root, k) <==> Contains(s'.log, k) {
      if s'.heap != s.heap {
        LinkStep(s, t, k);
      } else if s'.log != s.log {
        ContainsGrow(s.log, s'.log[|s.log|], k);
      }
    }
    if s'.heap != s.heap {
      LinkStep(s, t, 0);
    }
  }

  // While a walk is under way no other thread can change the heap below it.
  lemma WalkStep(s: State, t: nat, u: nat)
    requires Inv(s) && Enabled(s, t) && u < |s.threads|
    ensures WalkOk(Step(s, t), Step(s, t).threads[u])
  {
    var s' := Step(s, t);
    var th := s.threads[t];
    assert WalkOk(s, th) && WalkOk(s, s.threads[u]);
    if u == t {
      if th.pc.InsertWalk? && InsertChild(s.heap[th.pc.at], th.todo[0].key).At? {
        PassesOn(s.heap, 0, th.pc.at, th.todo[0].key);
      }
    } else if s'.heap != s.heap {
      assert Writing(th.pc) && s.writer == WriterIs(t);
      assert !Writing(s.threads[u].pc) && !Reading(s.threads[u].pc);
    }
  }

  lemma InvStep(s: State, t: nat)
    requires Inv(s) && Enabled(s, t)
    ensures Inv(Step(s, t))
  {
    assert WalkOk(s, s.threads[t]);
    LockStep(s, t);
    MembersStep(s, t);
    forall u: nat | u < |s.threads| ensures WalkOk(Step(s, t), Step(s, t).threads[u]) {
      WalkStep(s, t, u);
    }
  }

  lemma LegalStep(s: State, t: nat)
    requires Inv(s) && Enabled(s, t) && Legal(s.log)
    ensures Legal(Step(s, t).log)
  {
    var s' := Step(s, t);
    assert WalkOk(s, s.threads[t]);
    if s'.log != s.log {
      assert s'.log[..|s.log|] == s.log;
      forall i | 0 <= i < |s.log| ensures s'.log[..i] == s.log[..i] {
      }
    }
  }

  // ----- every run

  // Linearizability: in every interleaving the operations, in the order they take effect under
  // the lock, form a run of a set: every search answers membership among the inserts before it.
  lemma {:induction false} Linearizable(scripts: seq<seq<Op>>, schedule: seq<nat>)
    requires Run(scripts, schedule).Reached?
    ensures Inv(Run(scripts, schedule).s) && Legal(Run(scripts, schedule).s.log)
  {
    if schedule != [] {
      var before := schedule[..|schedule| - 1];
      Linearizable(scripts, before);
      InvStep(Run(scripts, before).s, schedule[|schedule| - 1]);
      LegalStep(Run(scripts, before).s, schedule[|schedule| - 1]);
    } else {
      assert forall k :: !Contains([], k);
    }
  }

  // Once a key has been found, every later search for it succeeds.
  lemma FoundStaysFound(scripts: seq<seq<Op>>, schedule: seq<nat>, i: nat, j: nat)
    requires Run(scripts, schedule).Reached?
    requires i < j < |Run(scripts, schedule).s.log|
    requires var log := Run(scripts, schedule).s.log;
             log[i].op.Search? && log[j].op == log[i].op && log[i].found
    ensures Run(scripts, schedule).s.log[j].found
  {
    Linearizable(scripts, schedule);
    var log := Run(scripts, schedule).s.log;
    var key := log[i].op.key;
    var n :| 0 <= n < |log[..i]| && log[..i][n].op == Insert(key);
    assert log[..j][n].op == Insert(key);
  }

  // During the whole critical section of a search the set of keys stands still: its answer is
  // membership at any instant of that section.
  lemma ReadersSeeOneSet(scripts: seq<seq<Op>>, schedule: seq<nat>, t: nat, u: nat)
    requires Run(scripts, schedule).Reached?
    requires var s := Run(scripts, schedule).s; u < |s.threads| && Reading(s.threads[u].pc) && Enabled(s, t)
    ensures var s := Run(scripts, schedule).s;
            var s' := Step(s, t);
            s'.heap == s.heap && s'.root == s.root && forall k: int :: Contains(s'.log, k) <==> Contains(s.log, k)
  {
    Linearizable(scripts, schedule);
    var s := Run(scripts, schedule).s;
    var s' := Step(s, t);
    assert s.readers != {} && !Writing(s.threads[t].pc);
    assert WalkOk(s, s.threads[t]);
    if s'.log != s.log {
      forall k: int ensures Contains(s'.log, k) <==> Contains(s.log, k) {
        ContainsGrow(s.log, s'.log[|s.log|], k);
      }
    }
  }

  // ----- program order, and the tree at the end

  function OpsOf(log: seq<Event>, t: nat): seq<Op>
  {
    if log == [] then []
    else
      var last := log[|log| - 1];
      OpsOf(log[..|log| - 1], t) + if last.thread == t then [last.op] else []
  }

  // Every thread's operations take effect once each, in program order.
  lemma {:induction false} ProgramOrder(scripts: seq<seq<Op>>, schedule: seq<nat>, t: nat)
    requires Run(scripts, schedule).Reached? && t < |scripts|
    ensures var s := Run(scripts, schedule).s;
            |s.threads| == |scripts| && OpsOf(s.log, t) + s.threads[t].todo == scripts[t]
  {
    if schedule != [] {
      var before := schedule[..|schedule| - 1];
      ProgramOrder(scripts, before, t);
      OrderStep(Run(scripts, before).s, schedule[|schedule| - 1], t);
    }
  }

  // An operation leaves the to-do list exactly when it enters the log.
  lemma OrderStep(s: State, u: nat, t: nat)
    requires Enabled(s, u) && t < |s.threads|
    ensures var s' := Step(s, u);
            |s'.threads| == |s.threads| &&
            OpsOf(s'.log, t) + s'.threads[t].todo == OpsOf(s.log, t) + s.threads[t].todo
  {
    var s' := Step(s, u);
    if s'.log == s.log {
      assert s'.threads[t].todo == s.threads[t].todo;
    } else {
      var e := s'.log[|s.log|];
      assert s'.log == s.log + [e] && e.thread == u && s.threads[u].todo == [e.op] + s'.threads[u].todo;
      assert (s.log + [e])[..|s.log|] == s.log;
    }
  }

  // ----- what the callers of search get

  function FoundBy(log: seq<Event>, t: nat): seq<bool>
  {
    if log == [] then []
    else
      var last := log[|log| - 1];
      FoundBy(log[..|log| - 1], t) + if last.thread == t && last.op.Search? then [last.found] else []
  }

  // The answer of a search that has not been returned.
  function Unreturned(pc: Pc): seq<bool>
  {
    if pc.SearchDone? then [pc.found] else []
  }

  // What a step puts into the log is what its thread is going to be told.
  lemma ResultsOwn(s: State, u: nat)
    requires Enabled(s, u) && WalkOk(s, s.threads[u])
    ensures var th, th', log' := s.threads[u], Step(s, u).threads[u], Step(s, u).log;
            || (log' == s.log && th'.results + Unreturned(th'.pc) == th.results + Unreturned(th.pc))
            || (exists e: Event :: e.thread == u && log' == s.log + [e] && th'.results == th.results &&
                  Unreturned(th.pc) == [] && Unreturned(th'.pc) == if e.op.Search? then [e.found] else [])
  {
    var log' := Step(s, u).log;
    if log' != s.log {
      var e := log'[|s.log|];
      assert e.thread == u && log' == s.log + [e];
    }
  }

  lemma ResultsStep(s: State, u: nat, t: nat)
    requires Inv(s) && Enabled(s, u) && t < |s.threads|
    requires FoundBy(s.log, t) == s.threads[t].results + Unreturned(s.threads[t].pc)
    ensures var s' := Step(s, u);
            |s'.threads| == |s.threads| &&
            FoundBy(s'.log, t) == s'.threads[t].results + Unreturned(s'.threads[t].pc)
  {
    assert WalkOk(s, s.threads[u]);
    hide WalkOk, Inv, Unreturned, Enabled;
    ResultsOwn(s, u);
    OthersRest(s, u, t);
    hide Step;
    var s' := Step(s, u);
    if s'.log != s.log {
      assert s'.log[..|s.log|] == s.log;
    }
  }

  lemma OthersRest(s: State, u: nat, t: nat)
    requires Enabled(s, u) && t < |s.threads|
    ensures |Step(s, u).threads| == |s.threads|
    ensures t != u ==> Step(s, u).threads[t] == s.threads[t]
    ensures t != u && Step(s, u).log != s.log ==> Step(s, u).log[|s.log|..] != [] && Step(s, u).log[|s.log|].thread == u
  {
  }

  // Every thread is told, search by search and in order, what the log says of its searches; so by
  // Linearizable each answer handed back is membership among the inserts before that search.
  lemma {:induction false} AnswersReturned(scripts: seq<seq<Op>>, schedule: seq<nat>, t: nat)
    requires Run(scripts, schedule).Reached? && t < |scripts|
    ensures var s := Run(scripts, schedule).s;
            && |s.threads| == |scripts|
            && FoundBy(s.log, t) == s.threads[t].results + Unreturned(s.threads[t].pc)
  {
    if schedule != [] {
      var before := schedule[..|schedule| - 1];
      AnswersReturned(scripts, before, t);
      Linearizable(scripts, before);
      ResultsStep(Run(scripts, before).s, schedule[|schedule| - 1], t);
    }
  }

  // The last event of thread `t`.
  function LastOf(log: seq<Event>, t: nat): (n: int)
    ensures -1 <= n < |log|
    ensures n >= 0 ==> log[n].thread == t
    ensures forall k :: n < k < |log| ==> log[k].thread != t
  {
    if log == [] then -1
    else if log[|log| - 1].thread == t then |log| - 1
    else LastOf(log[..|log| - 1], t)
  }

  lemma {:induction false} LastFound(log: seq<Event>, t: nat)
    requires var n := LastOf(log, t); n >= 0 && log[n].op.Search?
    ensures FoundBy(log, t) != [] && FoundBy(log, t)[|FoundBy(log, t)| - 1] == log[LastOf(log, t)].found
  {
    if log[|log| - 1].thread != t {
      LastFound(log[..|log| - 1], t);
    }
  }

  // A search that is about to return has, as its last event, a search with the answer it returns.
  lemma {:induction false} LastEventIsSearch(scripts: seq<seq<Op>>, schedule: seq<nat>, t: nat)
    requires Run(scripts, schedule).Reached? && t < |Run(scripts, schedule).s.threads|
    requires Run(scripts, schedule).s.threads[t].pc.SearchDone?
    ensures var s := Run(scripts, schedule).s; LastOf(s.log, t) >= 0 && s.log[LastOf(s.log, t)].op.Search?
  {
    var before, u := schedule[..|schedule| - 1], schedule[|schedule| - 1];
    var s, s' := Run(scripts, before).s, Run(scripts, schedule).s;
    Linearizable(scripts, before);
    assert WalkOk(s, s.threads[u]);
    if s'.log != s.log {
      assert s'.log[..|s.log|] == s.log;
    }
    if u != t {
      LastEventIsSearch(scripts, before, t);
    }
  }

  // What search returns is membership of its key among the keys inserted before it took effect.
  lemma SearchReturnsMembership(scripts: seq<seq<Op>>, schedule: seq<nat>, t: nat)
    requires Run(scripts, schedule).Reached? && t < |Run(scripts, schedule).s.threads|
    requires Run(scripts, schedule).s.threads[t].pc.SearchDone?
    ensures var s := Run(scripts, schedule).s;
            var n := LastOf(s.log, t);
            && n >= 0 && s.log[n].op.Search?
            && (s.threads[t].pc.found <==> Contains(s.log[..n], s.log[n].op.key))
  {
    Linearizable(scripts, schedule);
    LastEventIsSearch(scripts, schedule, t);
    ThreadCount(scripts, schedule);
    AnswersReturned(scripts, schedule, t);
    LastFound(Run(scripts, schedule).s.log, t);
  }

  lemma {:induction false} ThreadCount(scripts: seq<seq<Op>>, schedule: seq<nat>)
    requires Run(scripts, schedule).Reached?
    ensures |Run(scripts, schedule).s.threads| == |scripts|
  {
    if schedule != [] {
      ThreadCount(scripts, schedule[..|schedule| - 1]);
    }
  }

  // The lock admits a search exactly if nobody inserts, however many others search, and an insert
  // exactly if nobody inserts or searches.
  lemma Admission(scripts: seq<seq<Op>>, schedule: seq<nat>, t: nat)
    requires Run(scripts, schedule).Reached? && t < |Run(scripts, schedule).s.threads|
    requires var th := Run(scripts, schedule).s.threads[t]; th.pc.Idle? && th.todo != []
    ensures var s := Run(scripts, schedule).s;
            Enabled(s, t) <==>
            && (forall u :: 0 <= u < |s.threads| ==> !Writing(s.threads[u].pc))
            && (s.threads[t].todo[0].Insert? ==> forall u :: 0 <= u < |s.threads| ==> !Reading(s.threads[u].pc))
  {
    Linearizable(scripts, schedule);
    var s := Run(scripts, schedule).s;
    if s.writer.WriterIs? {
      assert Writing(s.threads[s.writer.t].pc);
    }
    if s.readers != {} {
      var u :| u in s.readers;
      assert Reading(s.threads[u].pc);
    }
  }

  // A lock holder can always go on, and with the lock free everybody can: only finished threads rest.
  lemma NoDeadlock(scripts: seq<seq<Op>>, schedule: seq<nat>, t: nat)
    requires Run(scripts, schedule).Reached?
    requires var s := Run(scripts, schedule).s; t < |s.threads| && !(s.threads[t].pc.Idle? && s.threads[t].todo == [])
    ensures exists u :: Enabled(Run(scripts, schedule).s, u)
  {
    Linearizable(scripts, schedule);
    var s := Run(scripts, schedule).s;
    assert forall u: nat :: u < |s.threads| ==> WalkOk(s, s.threads[u]);
    if s.writer.WriterIs? {
      assert Writing(s.threads[s.writer.t].pc) && WalkOk(s, s.threads[s.writer.t]);
      assert Enabled(s, s.writer.t);
    } else if s.readers != {} {
      var u :| u in s.readers;
      assert Reading(s.threads[u].pc) && WalkOk(s, s.threads[u]);
      assert Enabled(s, u);
    } else {
      assert s.threads[t].pc.Idle?;
      assert Enabled(s, t);
    }
  }
}
