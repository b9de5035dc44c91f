/** Two edits of a sequence, given by their effect on every index. */
module Seqs {
  function RemoveAt<T>(s: seq<T>, i: nat): (r: seq<T>)
    requires i < |s|
    ensures |r| == |s| - 1
    ensures forall k | 0 <= k < i :: r[k] == s[k]
    ensures forall k | i <= k < |r| :: r[k] == s[k + 1]
  {
    s[..i] + s[i + 1..]
  }

  function InsertAt<T>(s: seq<T>, i: nat, x: T): (r: seq<T>)
    requires i <= |s|
    ensures |r| == |s| + 1
    ensures forall k | 0 <= k < i :: r[k] == s[k]
    ensures r[i] == x
    ensures forall k | i < k < |r| :: r[k] == s[k - 1]
  {
    s[..i] + [x] + s[i..]
  }

  ghost predicate Distinct<T>(s: seq<T>) {
    forall i, j | 0 <= i < j < |s| :: s[i] != s[j]
  }

  lemma {:induction false} EditsKeepDistinct<T>(s: seq<T>, i: nat, x: T)
    requires Distinct(s) && i <= |s|
    ensures i < |s| ==> Distinct(RemoveAt(s, i))
    ensures x !in s ==> Distinct(InsertAt(s, i, x))
  {
  }

  lemma {:induction false} SliceGrows<T>(s: seq<T>, a: nat, i: nat)
    requires a <= i < |s|
    ensures s[a..i + 1] == s[a..i] + [s[i]]
  {
  }

  lemma {:induction false} SlicesJoin<T>(s: seq<T>, a: nat, b: nat)
    requires a <= b <= |s|
    ensures s[a..b] + s[b..] == s[a..]
  {
  }

  lemma {:induction false} ConcatAssociates<T>(a: seq<T>, b: seq<T>, c: seq<T>)
    ensures a + b + c == a + (b + c)
  {
  }

  /** What holds at one point of a run, and is kept by every step from there, holds later. */
  lemma {:induction false} Carries<S(!new)>(states: seq<S>, holds: S -> bool, a: nat, b: nat)
    requires a <= b < |states| && holds(states[a])
    requires forall i | a <= i < b && holds(states[i]) :: holds(states[i + 1])
    ensures holds(states[b])
    decreases b
  {
    if a < b {
      Carries(states, holds, a, b - 1);
    }
  }

  /** The items among the first n whose index i has lo <= i <= hi. */
  function FilterIndices<T>(s: seq<T>, lo: int, hi: int, n: nat): seq<T>
    requires n <= |s|
  {
    if n == 0 then []
    else FilterIndices(s, lo, hi, n - 1) + if lo <= n - 1 <= hi then [s[n - 1]] else []
  }

  lemma {:induction false} FilterIsSlice<T>(s: seq<T>, lo: int, hi: int, n: nat)
    requires n <= |s|
    ensures var a := if lo < 0 then 0 else if lo > n then n else lo;
            var b := if hi + 1 < a then a else if hi + 1 > n then n else hi + 1;
            FilterIndices(s, lo, hi, n) == s[a..b]
  {
    if n > 0 {
      FilterIsSlice(s, lo, hi, n - 1);
    }
  }
}
