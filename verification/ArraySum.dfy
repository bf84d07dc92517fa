/** Summing an array in one thread, and in four threads that interleave in any order. */
module ArraySum {
  import opened Sums

  // unsigned long
  const MODULUS := 0x1_0000_0000_0000_0000

  type word = n: nat | n < MODULUS

  // The sum of the elements, modulo 2^64.
  function Total(s: seq<int>): int
  {
    if s == [] then 0 else Total(s[..|s| - 1]) + s[|s| - 1]
  }

  // With TotalConcat this says what the total is.
  lemma TotalOne(x: int)
    ensures Total([]) == 0 && Total([x]) == x
  {
    assert [x][..0] == [];
  }

  lemma {:induction false} TotalConcat(a: seq<int>, b: seq<int>)
    ensures Total(a + b) == Total(a) + Total(b)
  {
    if b == [] {
      assert a + b == a;
    } else {
      assert (a + b)[..|a + b| - 1] == a + b[..|b| - 1];
      TotalConcat(a, b[..|b| - 1]);
    }
  }

  lemma ModAdd(x: int, y: int)
    ensures (x % MODULUS + y) % MODULUS == (x + y) % MODULUS
  {
    assert x == MODULUS * (x / MODULUS) + x % MODULUS;
    ModShift(x % MODULUS + y, x / MODULUS);
  }

  lemma {:induction false} ModShift(z: int, q: int)
    ensures (z + MODULUS * q) % MODULUS == z % MODULUS
    decreases if q < 0 then -q else q
  {
    if q > 0 {
      ModShift(z, q - 1);
      assert z + MODULUS * q == (z + MODULUS * (q - 1)) + MODULUS;
    } else if q < 0 {
      ModShift(z, q + 1);
      assert z + MODULUS * q == (z + MODULUS * (q + 1)) - MODULUS;
    }
  }

  method OneThreadSum(a: array<int>, begin: nat, end: nat) returns (sum: word)
    requires begin <= end <= a.Length
    ensures sum == Total(a[begin..end]) % 0x1_0000_0000_0000_0000
    ensures 0 <= Total(a[begin..end]) < 0x1_0000_0000_0000_0000 ==> sum == Total(a[begin..end])
  {
    sum := 0;
    var p := begin;
    while p < end
      invariant begin <= p <= end
      invariant sum == Total(a[begin..p]) % MODULUS
    {
      assert a[begin..p + 1][..p - begin] == a[begin..p];
      ModAdd(Total(a[begin..p]), a[p]);
      sum := (sum + a[p]) % MODULUS;
      p := p + 1;
    }
  }

  // range_t; `first` is where the block began.
  datatype Range = Range(start: nat, end: nat, partial: word)

  const N := 4

  // The thread has summed up its block from `first` to where it is now.
  ghost predicate Summed(a: seq<int>, r: Range, first: nat)
  {
    first <= r.start <= r.end <= |a| && r.partial == Total(a[first..r.start]) % MODULUS
  }

  // One iteration of the loop of partial_sum.
  method Iterate(a: array<int>, r: Range, ghost first: nat) returns (r': Range)
    requires Summed(a[..], r, first) && r.start < r.end
    ensures Summed(a[..], r', first) && r'.start == r.start + 1 && r'.end == r.end
  {
    assert a[..][first..r.start + 1][..r.start - first] == a[..][first..r.start];
    ModAdd(Total(a[..][first..r.start]), a[r.start]);
    r' := Range(r.start + 1, r.end, (r.partial + a[r.start]) % MODULUS);
  }

  ghost predicate Partials(a: seq<int>, ranges: seq<Range>, first: seq<nat>)
    requires |ranges| == |first|
  {
    forall i :: 0 <= i < |ranges| ==> Summed(a, ranges[i], first[i])
  }

  lemma NothingSummed(a: seq<int>, ranges: seq<Range>, first: seq<nat>)
    requires |ranges| == |first|
    requires forall i :: 0 <= i < |ranges| ==>
               ranges[i] == Range(first[i], ranges[i].end, 0) && first[i] <= ranges[i].end <= |a|
    ensures Partials(a, ranges, first)
  {
    assert Total([]) == 0;
    assert forall i :: 0 <= i < |ranges| ==> a[first[i]..ranges[i].start] == [];
  }

  ghost predicate SameBlocks(now: seq<Range>, before: seq<Range>)
  {
    |now| == |before| && forall i :: 0 <= i < |now| ==> now[i].end == before[i].end
  }

  // From `r` to `r'` in `n` turns; a thread at the end of its block stays there.
  ghost predicate Moved(r: Range, r': Range, n: nat)
  {
    r'.end == r.end && r'.start == UpTo(r.start + n, r.end)
  }

  lemma NoTurns(a: seq<int>, ranges: seq<Range>, first: seq<nat>)
    requires |ranges| == |first| && Partials(a, ranges, first)
    ensures forall k :: 0 <= k < |ranges| ==> Moved(ranges[k], ranges[k], 0)
  {
  }

  lemma MovedOn(r: Range, r': Range, r'': Range, n: nat, m: nat)
    requires Moved(r, r', n) && Moved(r', r'', m)
    ensures Moved(r, r'', n + m)
  {
  }

  method Turn(a: array<int>, r: Range, ghost first: nat) returns (r': Range)
    requires Summed(a[..], r, first)
    ensures Summed(a[..], r', first) && Moved(r, r', 1)
  {
    r' := r;
    if r.start < r.end {
      r' := Iterate(a, r, first);
    }
  }

  // The threads run for a while: `schedule` says whose loop makes each iteration.
  method Interleave(a: array<int>, ranges: array<Range>, schedule: seq<nat>, ghost first: seq<nat>)
    requires ranges.Length == N && |first| == N && Partials(a[..], ranges[..], first)
    modifies ranges
    ensures Partials(a[..], ranges[..], first) && SameBlocks(ranges[..], old(ranges[..]))
    ensures forall k :: 0 <= k < N ==> Moved(old(ranges[k]), ranges[k], Turns(schedule, |schedule|, k))
  {
    hide Summed;
    NoTurns(a[..], ranges[..], first);
    for t := 0 to |schedule|
      invariant Partials(a[..], ranges[..], first)
      invariant forall k :: 0 <= k < N ==> Moved(old(ranges[k]), ranges[k], Turns(schedule, t, k))
    {
      var i := schedule[t];
      if i < N {
        ghost var r := ranges[..][i];
        ranges[i] := Turn(a, ranges[i], first[i]);
        MovedOn(old(ranges[..])[i], r, ranges[i], Turns(schedule, t, i), 1);
      }
    }
  }

  // Thread `i` to its end: what pthread_join waits for.
  method Finish(a: array<int>, ranges: array<Range>, i: nat, ghost first: seq<nat>)
    requires ranges.Length == N && |first| == N && i < N && Partials(a[..], ranges[..], first)
    modifies ranges
    ensures Partials(a[..], ranges[..], first) && SameBlocks(ranges[..], old(ranges[..]))
    ensures ranges[i].start == ranges[i].end
    ensures forall k :: 0 <= k < N && k != i ==> ranges[k] == old(ranges[k])
  {
    while ranges[i].start < ranges[i].end
      invariant Partials(a[..], ranges[..], first) && SameBlocks(ranges[..], old(ranges[..]))
      invariant forall k :: 0 <= k < N && k != i ==> ranges[k] == old(ranges[k])
      decreases ranges[i].end - ranges[i].start
    {
      ranges[i] := Iterate(a, ranges[i], first[i]);
    }
  }

  // Where block `i` begins; block 3 takes the remainder of the division.
  function BlockStart(begin: nat, end: nat, i: nat): (k: nat)
    requires begin <= end && i <= N
    ensures begin <= k <= end && (i == 0 ==> k == begin) && (i == N ==> k == end)
  {
    if i == N then end else begin + i * ((end - begin) / N)
  }

  lemma BlocksInOrder(begin: nat, end: nat, i: nat)
    requires begin <= end && i < N
    ensures BlockStart(begin, end, i) <= BlockStart(begin, end, i + 1)
  {
    var size := (end - begin) / N;
    assert (i + 1) * size == i * size + size;
  }

  // Four blocks of a quarter of the elements each, the last one with those that the division leaves.
  lemma BlockSizes(begin: nat, end: nat, i: nat)
    requires begin <= end && i < 4
    ensures BlockStart(begin, end, i + 1) - BlockStart(begin, end, i)
         == (end - begin) / 4 + if i == 3 then (end - begin) % 4 else 0
  {
  }

  lemma RangeSizes(begin: nat, end: nat, ranges: seq<Range>)
    requires begin <= end && |ranges| == N
    requires forall k :: 0 <= k < N ==> ranges[k] == Range(BlockStart(begin, end, k), BlockStart(begin, end, k + 1), 0)
    ensures forall k :: 0 <= k < 4 ==> Size(ranges[k]) == (end - begin) / 4 + if k == 3 then (end - begin) % 4 else 0
  {
    hide BlockStart;
    forall k | 0 <= k < 4
      ensures Size(ranges[k]) == (end - begin) / 4 + if k == 3 then (end - begin) % 4 else 0
    {
      BlockSizes(begin, end, k);
    }
  }

  function Size(r: Range): int
  {
    r.end - r.start
  }

  // The blocks tile the array: each begins where the one before ends.
  method Partition(begin: nat, end: nat, ranges: array<Range>)
    requires begin <= end && ranges.Length == N
    modifies ranges
    ensures forall k :: 0 <= k < N ==> ranges[k] == Range(BlockStart(begin, end, k), BlockStart(begin, end, k + 1), 0)
    ensures forall k :: 0 <= k < 4 ==>
              Size(ranges[k]) == (end - begin) / 4 + if k == 3 then (end - begin) % 4 else 0
  {
    var block_size := (end - begin) / N;
    var block_start := begin;
    for i := 0 to N - 1
      invariant block_start == BlockStart(begin, end, i)
      invariant forall k :: 0 <= k < i ==>
                  ranges[k] == Range(BlockStart(begin, end, k), BlockStart(begin, end, k + 1), 0)
    {
      var block_end := block_start + block_size;
      ranges[i] := Range(block_start, block_end, 0);
      block_start := block_end;
    }
    ranges[N - 1] := Range(block_start, end, 0);
    RangeSizes(begin, end, ranges[..]);
  }

  // Before join number `i` the threads interleave as `schedules[i]` says. Whatever that is, the
  // total is the one of the single loop.
  method MultithreadSum(a: array<int>, begin: nat, end: nat, schedules: seq<seq<nat>>) returns (sum: word)
    requires begin <= end <= a.Length && |schedules| == N
    ensures sum == Total(a[begin..end]) % 0x1_0000_0000_0000_0000
    ensures 0 <= Total(a[begin..end]) < 0x1_0000_0000_0000_0000 ==> sum == Total(a[begin..end])
  {
    var ranges := new Range[N];
    Partition(begin, end, ranges);
    ghost var first := seq(N, (i: nat) requires i < N => BlockStart(begin, end, i));
    forall k: nat | k < N ensures ranges[..][k] == Range(first[k], ranges[..][k].end, 0)
                          ensures first[k] <= ranges[..][k].end <= a.Length {
      BlocksInOrder(begin, end, k);
    }
    NothingSummed(a[..], ranges[..], first);
    sum := 0;
    for i := 0 to N
      invariant Partials(a[..], ranges[..], first)
      invariant forall k :: 0 <= k < N ==> ranges[..][k].end == BlockStart(begin, end, k + 1)
      invariant sum == Total(a[..][begin..BlockStart(begin, end, i)]) % MODULUS
    {
      sum := Join(a, ranges, i, schedules[i], sum, begin, first);
    }
    assert a[..][begin..end] == a[begin..end];
  }

  // One round of the join loop: the threads run, thread `i` to its end, and its sum is added.
  method Join(a: array<int>, ranges: array<Range>, i: nat, schedule: seq<nat>, sum: word,
              ghost begin: nat, ghost first: seq<nat>)
    returns (sum': word)
    requires ranges.Length == N && |first| == N && i < N && Partials(a[..], ranges[..], first)
    requires begin <= first[i] && sum == Total(a[..][begin..first[i]]) % MODULUS
    modifies ranges
    ensures Partials(a[..], ranges[..], first) && SameBlocks(ranges[..], old(ranges[..]))
    ensures sum' == Total(a[..][begin..ranges[i].end]) % MODULUS
  {
    Interleave(a, ranges, schedule, first);
    Finish(a, ranges, i, first);
    NextBlock(a[..], begin, first[i], ranges[i].end, sum, ranges[..][i].partial);
    sum' := (sum + ranges[i].partial) % MODULUS;
  }

  lemma NextBlock(a: seq<int>, begin: nat, mid: nat, end: nat, sum: word, partial: word)
    requires begin <= mid <= end <= |a|
    requires sum == Total(a[begin..mid]) % MODULUS && partial == Total(a[mid..end]) % MODULUS
    ensures (sum + partial) % MODULUS == Total(a[begin..end]) % MODULUS
  {
    assert a[begin..end] == a[begin..mid] + a[mid..end];
    TotalConcat(a[begin..mid], a[mid..end]);
    ModAdd(Total(a[begin..mid]), partial);
    ModAdd(Total(a[mid..end]), Total(a[begin..mid]));
  }
}
