/** Sums of a weight over the elements of a sequence, and how one update changes them; counting turns. */
module Sums {

  function Sum<T>(f: T -> nat, s: seq<T>): nat
  {
    if s == [] then 0 else f(s[0]) + Sum(f, s[1..])
  }

  lemma {:induction false} SumUpdate<T>(f: T -> nat, s: seq<T>, i: nat, x: T)
    requires i < |s|
    ensures Sum(f, s[i := x]) + f(s[i]) == Sum(f, s) + f(x)
    ensures Sum(f, s) >= f(s[i])
  {
    if i == 0 {
      assert s[0 := x][1..] == s[1..];
    } else {
      assert s[i := x][1..] == s[1..][i - 1 := x];
      SumUpdate(f, s[1..], i - 1, x);
    }
  }

  lemma {:induction false} SumZero<T>(f: T -> nat, s: seq<T>)
    ensures Sum(f, s) == 0 <==> forall i :: 0 <= i < |s| ==> f(s[i]) == 0
  {
    if s != [] {
      SumZero(f, s[1..]);
      assert forall i :: 0 <= i < |s| ==> i == 0 || s[i] == s[1..][i - 1];
      assert forall i :: 0 <= i < |s| - 1 ==> s[1..][i] == s[i + 1];
    }
  }

  // A 0/1 weight adds up to the length exactly when every element weighs 1.
  lemma {:induction false} SumFull<T>(f: T -> nat, s: seq<T>)
    requires forall x :: f(x) <= 1
    ensures Sum(f, s) <= |s|
    ensures Sum(f, s) == |s| <==> forall i :: 0 <= i < |s| ==> f(s[i]) == 1
  {
    if s != [] {
      SumFull(f, s[1..]);
      assert forall i :: 0 <= i < |s| ==> i == 0 || s[i] == s[1..][i - 1];
      assert forall i :: 0 <= i < |s| - 1 ==> s[1..][i] == s[i + 1];
    }
  }

  // How many of the first `n` turns of a schedule go to thread `i`.
  function Turns(schedule: seq<nat>, n: nat, i: nat): nat
    requires n <= |schedule|
  {
    if n == 0 then 0 else Turns(schedule, n - 1, i) + if schedule[n - 1] == i then 1 else 0
  }

  // A count that stops at `limit`.
  function UpTo(n: nat, limit: nat): nat
  {
    if n < limit then n else limit
  }
}
