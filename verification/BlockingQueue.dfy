/**
 The blocking queue of the thread pool as one thread executes it. `depth` is how often the
 calling thread holds the recursive mutex. Other threads act only inside the condition wait:
 the queue a wait finds when it has the mutex back is given from outside.
 */
module BlockingQueue {

  datatype Option<+T> = None | Some(value: T)

  // What a thread does with the mutex, the condition variable and the queue, in order.
  datatype Call = LockMutex | UnlockMutex | WaitForSignal | SignalOne | LookAtQueue | AppendItem | RemoveItem

  const IsEmptyCalls := [LockMutex, LookAtQueue, UnlockMutex]

  // Asking is_empty and waiting, `n` times.
  function WaitCalls(n: nat): seq<Call>
  {
    if n == 0 then [] else WaitCalls(n - 1) + (IsEmptyCalls + [WaitForSignal])
  }

  class ThreadSafeQueue<T> {
    var q: seq<T>
    var depth: nat
    var signals: nat
    ghost var calls: seq<Call>

    constructor ()
      ensures q == [] && depth == 0 && signals == 0 && calls == []
    {
      q, depth, signals, calls := [], 0, 0, [];
    }

    method Lock()
      modifies this`depth, this`calls
      ensures depth == old(depth) + 1 && calls == old(calls) + [LockMutex]
    {
      depth, calls := depth + 1, calls + [LockMutex];
    }

    method Unlock()
      requires depth > 0
      modifies this`depth, this`calls
      ensures depth == old(depth) - 1 && calls == old(calls) + [UnlockMutex]
    {
      depth, calls := depth - 1, calls + [UnlockMutex];
    }

    // Releases one level only, so the mutex is really free only if the depth is exactly 1.
    method CondWait(found: seq<T>)
      requires depth == 1
      modifies this`q, this`calls
      ensures q == found && calls == old(calls) + [WaitForSignal]
    {
      q, calls := found, calls + [WaitForSignal];
    }

    // The accesses to the queue; all of them happen with the mutex held.
    method Look() returns (empty: bool)
      requires depth > 0
      modifies this`calls
      ensures (empty <==> q == []) && calls == old(calls) + [LookAtQueue]
    {
      empty, calls := q == [], calls + [LookAtQueue];
    }

    method Append(item: T)
      requires depth > 0
      modifies this`q, this`calls
      ensures q == old(q) + [item] && calls == old(calls) + [AppendItem]
    {
      q, calls := q + [item], calls + [AppendItem];
    }

    method Remove() returns (item: T)
      requires depth > 0 && q != []
      modifies this`q, this`calls
      ensures old(q) == [item] + q && calls == old(calls) + [RemoveItem]
    {
      item := q[0];
      q, calls := q[1..], calls + [RemoveItem];
    }

    method Signal()
      modifies this`signals, this`calls
      ensures signals == old(signals) + 1 && calls == old(calls) + [SignalOne]
    {
      signals, calls := signals + 1, calls + [SignalOne];
    }

    method IsEmpty() returns (empty: bool)
      modifies this`depth, this`calls
      ensures empty <==> q == []
      ensures depth == old(depth) && calls == old(calls) + IsEmptyCalls
    {
      Lock();
      empty := Look();
      Unlock();
    }

    // Never waits; fails only on an empty queue, and leaves the mutex as it found it either way.
    method TryPop() returns (r: Option<T>)
      modifies this`q, this`depth, this`calls
      ensures depth == old(depth)
      ensures calls == old(calls) + [LockMutex] + IsEmptyCalls +
                       if r.None? then [UnlockMutex] else [RemoveItem, UnlockMutex]
      ensures r.None? <==> old(q) == []
      ensures if r.None? then q == old(q) else old(q) == [r.value] + q
    {
      Lock();
      var empty := IsEmpty();
      if empty {
        Unlock();
        return None;
      }
      var item := Remove();
      Unlock();
      return Some(item);
    }

    // The signal comes after the mutex has been released.
    method Push(item: T)
      modifies this
      ensures q == old(q) + [item]
      ensures depth == old(depth) && signals == old(signals) + 1
      ensures calls == old(calls) + [LockMutex, AppendItem, UnlockMutex, SignalOne]
    {
      Lock();
      Append(item);
      Unlock();
      Signal();
    }

    // `found[k]` is the queue when wait number `k` gets the mutex back; if there are no more,
    // the thread stays blocked (None). Otherwise it takes the front of the first queue that it
    // finds non-empty, whatever woke it.
    method Pop(found: seq<seq<T>>) returns (item: Option<T>, waits: nat)
      requires depth == 0
      modifies this`q, this`depth, this`calls
      ensures waits <= |found| && forall k :: 0 <= k < waits - 1 ==> found[k] == []
      ensures waits > 0 ==> old(q) == []
      ensures item.Some? ==> depth == 0 && [item.value] + q == if waits == 0 then old(q) else found[waits - 1]
      ensures item.Some? ==>
                calls == old(calls) + [LockMutex] + WaitCalls(waits) + IsEmptyCalls + [RemoveItem, UnlockMutex]
      ensures item.None? ==> depth == 0 && old(q) == [] && waits == |found|
      ensures item.None? ==> forall k :: 0 <= k < |found| ==> found[k] == []
      ensures item.None? ==> calls == old(calls) + [LockMutex] + WaitCalls(waits + 1)
    {
      Lock();
      waits := 0;
      var empty := IsEmpty();
      while empty
        invariant depth == 1 && waits <= |found|
        invariant forall k :: 0 <= k < waits - 1 ==> found[k] == []
        invariant waits > 0 ==> old(q) == []
        invariant q == if waits == 0 then old(q) else found[waits - 1]
        invariant empty <==> q == []
        invariant calls == old(calls) + [LockMutex] + WaitCalls(waits) + IsEmptyCalls
        decreases |found| - waits
      {
        if waits == |found| {
          depth, calls := 0, calls + [WaitForSignal];  // the wait that never ends has released the mutex
          return None, waits;
        }
        CondWait(found[waits]);
        waits := waits + 1;
        empty := IsEmpty();
      }
      var front := Remove();
      item := Some(front);
      Unlock();
    }
  }
}
