/** A POSIX mutex, plain or recursive: who holds it, and how often. */
module Mutexes {

  // Worker `i`, or pusher `p`; pusher 0 is the thread that runs the destructor.
  datatype Tid = Worker(i: nat) | Pusher(p: nat)

  datatype Mutex = Free | Held(owner: Tid, depth: nat)

  function DepthOf(m: Mutex, t: Tid): nat
  {
    if m.Held? && m.owner == t then m.depth else 0
  }

  // Whether a call to lock returns at once.
  predicate MayLock(recursive: bool, m: Mutex, t: Tid)
  {
    m.Free? || (recursive && m.owner == t)
  }

  function Lock(m: Mutex, t: Tid): Mutex
  {
    Held(t, DepthOf(m, t) + 1)
  }

  // One level of unlocking; the mutex stays held while the owner has levels left.
  function Unlock(m: Mutex, t: Tid): Mutex
  {
    if DepthOf(m, t) == 0 then m
    else if m.depth == 1 then Free
    else Held(t, m.depth - 1)
  }

  // Only thread `t`'s count moves when `t` locks a mutex it may lock, or unlocks one it holds.
  lemma DepthAfter(m: Mutex, t: Tid, u: Tid)
    requires m.Held? ==> m.depth >= 1
    ensures m.Free? || m.owner == t ==>
              DepthOf(Lock(m, t), u) == if u == t then DepthOf(m, t) + 1 else DepthOf(m, u)
    ensures DepthOf(m, t) > 0 ==>
              DepthOf(Unlock(m, t), u) == if u == t then DepthOf(m, t) - 1 else DepthOf(m, u)
  {
  }
}
