/** Weighted sampling without replacement: a reservoir that jumps over items, and the category sampler on top of it.
    Keys and jumps are whatever the random draws make them, with the powers and logarithms of 0 and 1 as IEEE 754 has
    them. */
module Reservoirs {
  import opened Collections

  ghost predicate Ascending(s: seq<real>) {
    forall i, j :: 0 <= i <= j < |s| ==> s[i] <= s[j]
  }

  /** The first position from `from` on whose value is at least `x`. */
  method LowerBound(s: seq<real>, from: nat, x: real) returns (j: nat)
    requires from <= |s| && Ascending(s)
    ensures IsLowerBound(s, from, x, j)
  {
    var lo, hi := from, |s|;
    while lo < hi
      invariant from <= lo <= hi <= |s|
      invariant forall k :: from <= k < lo ==> s[k] < x
      invariant forall k :: hi <= k < |s| ==> s[k] >= x
    {
      var mid := (lo + hi) / 2;
      if s[mid] < x {
        lo := mid + 1;
      } else {
        hi := mid;
      }
    }
    j := lo;
  }

  ghost predicate IsLowerBound(s: seq<real>, from: nat, x: real, j: nat) {
    && from <= j <= |s|
    && (forall k :: from <= k < j ==> s[k] < x)
    && (j < |s| ==> s[j] >= x)
  }

  /** A jump from item `i` leaves it behind exactly when the jump is positive; otherwise `i` is drawn again. */
  lemma JumpMoves(sums: seq<real>, i: nat, jump: real, j: nat)
    requires i < |sums| && IsLowerBound(sums, i, jump + sums[i], j)
    ensures j > i <==> jump > 0.0
    ensures jump <= 0.0 ==> j == i
  {
  }

  /** The reservoir: a key and an item each. */
  type Heap = seq<(real, nat)>

  ghost predicate OneEach(heap: Heap) {
    forall a, b :: 0 <= a < b < |heap| ==> heap[a].1 != heap[b].1
  }

  ghost predicate Smallest(heap: Heap, t: nat)
    requires t < |heap|
  {
    forall a :: 0 <= a < |heap| ==> heap[t].0 <= heap[a].0
  }

  ghost predicate Below(heap: Heap, bound: nat) {
    forall a :: 0 <= a < |heap| ==> heap[a].1 < bound
  }

  /** The heap after its entry `t` gave way to a new one. */
  function Swap(heap: Heap, t: nat, entry: (real, nat)): (r: Heap)
    requires t < |heap|
    ensures |r| == |heap|
  {
    heap[..t] + heap[t + 1..] + [entry]
  }

  // ---------------------------------------------------------------------------------------------------------
  // What random draws can give. A draw `u` lies strictly between 0 and 1. Keys are powers of draws, so they lie there
  // too, unless a weight of 0 makes the exponent infinite (key 0) or raises the smallest key to the power 0 (key 1).

  predicate Inside(x: real) {
    0.0 < x < 1.0
  }

  /** `pow(u, 1 / weight)`. */
  predicate IsFirstKey(weight: real, key: real) {
    if weight > 0.0 then Inside(key) else key == 0.0
  }

  /** `pow(r, 1 / weight)` for a draw `r` between `pow(top, weight)` and 1. */
  predicate IsNextKey(weight: real, top: real, key: real) {
    if weight > 0.0 && top < 1.0 then Inside(key) && key >= top else key == 1.0
  }

  /** Where a jump of length `log(u) / log(top)` lands. From key 0 the length is 0, from key 1 it is minus infinity. */
  ghost predicate Lands(sums: seq<real>, top: real, i: nat, acc: real, j: nat) {
    if top >= 1.0 then j == i
    else if top <= 0.0 then IsLowerBound(sums, i, acc, j)
    else exists target: real :: target > acc && IsLowerBound(sums, i, target, j)
  }

  function Sums(w: seq<real>): (s: seq<real>)
    ensures |s| == |w| && forall i :: 0 <= i < |s| ==> s[i] == SumTo(w, i + 1)
  {
    seq(|w|, i requires 0 <= i < |w| => SumTo(w, i + 1))
  }

  ghost predicate NotNegative(w: seq<real>) {
    forall i :: 0 <= i < |w| ==> w[i] >= 0.0
  }

  lemma {:induction false} SumsAscend(w: seq<real>, i: nat, j: nat)
    requires NotNegative(w) && i <= j <= |w|
    ensures SumTo(w, i) <= SumTo(w, j)
  {
    if i < j {
      SumsAscend(w, i, j - 1);
    }
  }

  lemma SumsAreAscending(w: seq<real>)
    requires NotNegative(w)
    ensures Ascending(Sums(w))
  {
    forall a, b | 0 <= a <= b < |w|
      ensures Sums(w)[a] <= Sums(w)[b]
    {
      SumsAscend(w, a + 1, b + 1);
    }
  }

  /** The sampling loop between two rounds. */
  datatype Sampler = Sampler(heap: Heap, i: nat, acc: real)

  /** One round: fill the reservoir, or jump and let the smallest key give way, or jump past the end. */
  ghost predicate Moves(w: seq<real>, n: nat, s: Sampler, r: Sampler) {
    s.i < |w| && if |s.heap| < n then Fills(w, n, s, r) else exists t, j :: Jumps(w, s, t, j, r)
  }

  ghost predicate Fills(w: seq<real>, n: nat, s: Sampler, r: Sampler)
    requires s.i < |w|
  {
    && |r.heap| == |s.heap| + 1 && r.heap[..|s.heap|] == s.heap && r.heap[|s.heap|].1 == s.i
    && IsFirstKey(w[s.i], r.heap[|s.heap|].0)
    && r.i == s.i + 1 && r.acc == if |r.heap| == n then Sums(w)[s.i] else s.acc
  }

  ghost predicate Jumps(w: seq<real>, s: Sampler, t: nat, j: nat, r: Sampler) {
    && t < |s.heap| && Smallest(s.heap, t) && Lands(Sums(w), s.heap[t].0, s.i, s.acc, j)
    && if j >= |w| then r == s.(i := |w|)
       else exists key :: IsNextKey(w[j], s.heap[t].0, key) && r == Sampler(Swap(s.heap, t, (key, j)), j, Sums(w)[j])
  }

  // ---------------------------------------------------------------------------------------------------------
  // When no item is drawn twice.

  function Zeros(w: seq<real>, k: nat): nat
    requires k <= |w|
  {
    if k == 0 then 0 else Zeros(w, k - 1) + if w[k - 1] == 0.0 then 1 else 0
  }

  /** What a caller can check: there are no more items than asked for, or at most one of the first `n` weighs nothing
      and, if it is the only one asked for, the item after it weighs something. */
  ghost predicate Fit(w: seq<real>, n: nat) {
    n >= |w| || (Zeros(w, n) <= 1 && (Zeros(w, n) == 1 && n == 1 ==> w[n] > 0.0))
  }

  lemma {:induction false} NoZeros(w: seq<real>, k: nat)
    requires k <= |w| && forall i :: 0 <= i < k ==> w[i] > 0.0
    ensures Zeros(w, k) == 0
  {
    if k > 0 {
      NoZeros(w, k - 1);
    }
  }

  /** Positive weights are fit for samples of any size. */
  lemma PositiveIsFit(w: seq<real>, n: nat)
    requires forall i :: 0 <= i < |w| ==> w[i] > 0.0
    ensures Fit(w, n)
  {
    if n < |w| {
      NoZeros(w, n);
    }
  }

  /** Filling: item `a` has its first key. */
  ghost predicate Filled(w: seq<real>, heap: Heap)
    requires |heap| <= |w|
  {
    forall a :: 0 <= a < |heap| ==> heap[a].1 == a && IsFirstKey(w[a], heap[a].0)
  }

  /** After the first replacement: no key is 0 and some key is below 1. */
  ghost predicate Calm(heap: Heap) {
    (forall a :: 0 <= a < |heap| ==> 0.0 < heap[a].0 <= 1.0) && exists a: nat :: Under(heap, a)
  }

  ghost predicate Under(heap: Heap, a: nat) {
    a < |heap| && heap[a].0 < 1.0
  }

  ghost predicate Inv(w: seq<real>, n: nat, s: Sampler) {
    && NotNegative(w) && n >= 1 && Fit(w, n)
    && s.i <= |w| && |s.heap| <= n && |s.heap| <= |w| && OneEach(s.heap)
    && if s.i == |w| then |s.heap| == (if n < |w| then n else |w|) && Below(s.heap, |w|)
       else Filling(w, n, s) || Landed(w, n, s)
  }

  ghost predicate Filling(w: seq<real>, n: nat, s: Sampler)
    requires n >= 1
  {
    s.i == |s.heap| <= n && s.i < |w| && Filled(w, s.heap) && (s.i == n ==> s.acc == SumTo(w, n))
  }

  /** The reservoir took item `i` last. */
  ghost predicate Landed(w: seq<real>, n: nat, s: Sampler)
    requires n >= 1
  {
    && |s.heap| == n <= s.i < |w| && Below(s.heap, s.i + 1) && s.heap[n - 1].1 == s.i
    && s.acc == SumTo(w, s.i + 1) && Calm(s.heap)
  }

  /** Rounds left: items not reached, plus one as long as the reservoir only holds what filled it. */
  ghost function Left(w: seq<real>, s: Sampler): int {
    if s.i == |s.heap| <= |w| && Filled(w, s.heap) then |w| - s.i + 1 else |w| - s.i
  }

  lemma {:induction false} ZerosGrow(w: seq<real>, i: nat, j: nat)
    requires i <= j <= |w|
    ensures Zeros(w, i) <= Zeros(w, j)
  {
    if i < j {
      ZerosGrow(w, i, j - 1);
    }
  }

  lemma TwoZeros(w: seq<real>, a: nat, b: nat, k: nat)
    requires a < b < k <= |w| && w[a] == 0.0 && w[b] == 0.0
    ensures Zeros(w, k) >= 2
  {
    ZerosGrow(w, 0, a);
    ZerosGrow(w, a + 1, b);
    ZerosGrow(w, b + 1, k);
  }

  lemma OneZero(w: seq<real>, a: nat, k: nat)
    requires a < k <= |w| && w[a] == 0.0
    ensures Zeros(w, k) >= 1
  {
    ZerosGrow(w, 0, a);
    ZerosGrow(w, a + 1, k);
  }

  /** A positive jump only lands on items that weigh something, and moves on. */
  lemma LandsOnWeight(w: seq<real>, i: nat, acc: real, target: real, j: nat)
    requires NotNegative(w) && i <= j < |w| && target > acc && IsLowerBound(Sums(w), i, target, j)
    requires acc == SumTo(w, i) || acc == SumTo(w, i + 1)
    ensures w[j] > 0.0 && (acc == SumTo(w, i + 1) ==> j > i)
  {
    SumsAscend(w, i, i + 1);
    assert Sums(w)[j] == SumTo(w, j) + w[j];
    if j > i {
      assert Sums(w)[j - 1] < target;
    }
  }

  lemma SwapKeeps(heap: Heap, t: nat, key: real, j: nat)
    requires t < |heap| && OneEach(heap) && Below(heap, j)
    ensures OneEach(Swap(heap, t, (key, j))) && Below(Swap(heap, t, (key, j)), j + 1)
    ensures Swap(heap, t, (key, j))[|heap| - 1] == (key, j)
    ensures multiset(Swap(heap, t, (key, j))) == multiset(heap) - multiset{heap[t]} + multiset{(key, j)}
  {
    assert heap == heap[..t] + [heap[t]] + heap[t + 1..];
  }

  /** A key below 1 joins a heap without zeros. */
  lemma SwapCalm(heap: Heap, t: nat, key: real, j: nat)
    requires t < |heap| && Inside(key) && forall a :: 0 <= a < |heap| && a != t ==> 0.0 < heap[a].0 <= 1.0
    ensures Calm(Swap(heap, t, (key, j)))
  {
    assert Under(Swap(heap, t, (key, j)), |heap| - 1);
  }

  lemma SwapLast(heap: Heap, t: nat, j: nat)
    requires t < |heap| && |heap| >= 2 && forall a :: 0 <= a < |heap| && a != t ==> Inside(heap[a].0)
    ensures Calm(Swap(heap, t, (1.0, j)))
  {
    assert Under(Swap(heap, t, (1.0, j)), 0);
  }

  /** The first jump. */
  lemma FirstJump(w: seq<real>, n: nat, s: Sampler, t: nat, j: nat, key: real)
    requires Inv(w, n, s) && Filling(w, n, s) && s.i == n && t < n && Smallest(s.heap, t)
    requires Lands(Sums(w), s.heap[t].0, n, s.acc, j) && j < |w| && IsNextKey(w[j], s.heap[t].0, key)
    ensures j >= n && Landed(w, n, Sampler(Swap(s.heap, t, (key, j)), j, Sums(w)[j]))
    ensures OneEach(Swap(s.heap, t, (key, j)))
  {
    var top := s.heap[t].0;
    if top == 0.0 {
      OneZero(w, t, n);
      SumsAscend(w, n, n + 1);
      assert Sums(w)[n] == SumTo(w, n + 1);
      assert j == n;
      forall a | 0 <= a < n && a != t
        ensures Inside(s.heap[a].0)
      {
        if w[a] == 0.0 {
          TwoZeros(w, if a < t then a else t, if a < t then t else a, n);
        }
      }
      if w[n] > 0.0 {
        SwapCalm(s.heap, t, key, j);
      } else {
        SwapLast(s.heap, t, j);
      }
    } else {
      assert Inside(top);
      var target :| target > s.acc && IsLowerBound(Sums(w), n, target, j);
      LandsOnWeight(w, n, s.acc, target, j);
      SwapCalm(s.heap, t, key, j);
    }
    SwapKeeps(s.heap, t, key, j);
  }

  lemma LaterJump(w: seq<real>, n: nat, s: Sampler, t: nat, j: nat, key: real)
    requires Inv(w, n, s) && Landed(w, n, s) && t < n && Smallest(s.heap, t)
    requires Lands(Sums(w), s.heap[t].0, s.i, s.acc, j) && j < |w| && IsNextKey(w[j], s.heap[t].0, key)
    ensures j > s.i && Landed(w, n, Sampler(Swap(s.heap, t, (key, j)), j, Sums(w)[j]))
    ensures OneEach(Swap(s.heap, t, (key, j)))
  {
    var a: nat :| Under(s.heap, a);
    assert s.heap[t].0 <= s.heap[a].0;
    var target :| target > s.acc && IsLowerBound(Sums(w), s.i, target, j);
    LandsOnWeight(w, s.i, s.acc, target, j);
    SwapCalm(s.heap, t, key, j);
    SwapKeeps(s.heap, t, key, j);
  }

  lemma JumpKeeps(w: seq<real>, n: nat, s: Sampler, t: nat, j: nat, r: Sampler)
    requires Inv(w, n, s) && s.i < |w| && |s.heap| == n && Jumps(w, s, t, j, r)
    ensures Inv(w, n, r) && Left(w, r) < Left(w, s)
  {
    if j < |w| {
      var key :| IsNextKey(w[j], s.heap[t].0, key) && r == Sampler(Swap(s.heap, t, (key, j)), j, Sums(w)[j]);
      if Filling(w, n, s) {
        FirstJump(w, n, s, t, j, key);
      } else {
        LaterJump(w, n, s, t, j, key);
        assert s.heap[n - 1].1 != n - 1 || s.i < n;
      }
      assert r.heap[n - 1].1 == j >= n;
    }
  }

  lemma FillKeeps(w: seq<real>, n: nat, s: Sampler, r: Sampler)
    requires Inv(w, n, s) && s.i < |w| && |s.heap| < n && Fills(w, n, s, r)
    ensures Inv(w, n, r) && Left(w, r) < Left(w, s)
  {
    var k := |s.heap|;
    forall a | 0 <= a < |r.heap|
      ensures r.heap[a].1 == a && IsFirstKey(w[a], r.heap[a].0)
    {
      assert a < k ==> r.heap[a] == r.heap[..k][a];
    }
  }

  /** While weights and sample size fit, every round makes progress and no item is in the reservoir twice. */
  lemma MoveKeeps(w: seq<real>, n: nat, s: Sampler, r: Sampler)
    requires Inv(w, n, s) && Moves(w, n, s, r)
    ensures Inv(w, n, r) && Left(w, r) < Left(w, s)
  {
    if |s.heap| < n {
      FillKeeps(w, n, s, r);
    } else {
      var t, j :| Jumps(w, s, t, j, r);
      JumpKeeps(w, n, s, t, j, r);
    }
  }

  // ---------------------------------------------------------------------------------------------------------
  // All runs of the loop.

  ghost predicate IsRun(w: seq<real>, n: nat, run: seq<Sampler>) {
    |run| > 0 && run[0] == Sampler([], 0, 0.0) && forall k :: 0 < k < |run| ==> Moves(w, n, run[k - 1], run[k])
  }

  ghost predicate Ended(w: seq<real>, s: Sampler) {
    s.i >= |w|
  }

  /** What sampling promises: at most one round more than there are items, and as many different items as asked for. */
  ghost predicate KeepsPromise(w: seq<real>, n: nat, run: seq<Sampler>)
    requires |run| > 0
  {
    var last := run[|run| - 1];
    && |run| <= |w| + 2
    && (Ended(w, last) ==> OneEach(last.heap) && |last.heap| == if n < |w| then n else |w|)
  }

  lemma {:induction false} RunKeeps(w: seq<real>, n: nat, run: seq<Sampler>)
    requires NotNegative(w) && n >= 1 && Fit(w, n) && IsRun(w, n, run)
    ensures Inv(w, n, run[|run| - 1]) && |run| + Left(w, run[|run| - 1]) <= |w| + 2
  {
    var k := |run| - 1;
    if k > 0 {
      RunKeeps(w, n, run[..k]);
      MoveKeeps(w, n, run[k - 1], run[k]);
    }
  }

  // What goes wrong otherwise.

  function FillKey(weight: real): real {
    if weight > 0.0 then 0.5 else 0.0
  }

  /** The reservoir after `k` items, filled with draws that make every positive key one half. */
  function FillState(w: seq<real>, n: nat, k: nat): Sampler
    requires k <= n <= |w| && n >= 1
  {
    Sampler(seq(k, a requires 0 <= a < k => (FillKey(w[a]), a)), k, if k == n then SumTo(w, n) else 0.0)
  }

  lemma {:induction false} FillRun(w: seq<real>, n: nat, k: nat) returns (run: seq<Sampler>)
    requires NotNegative(w) && k <= n <= |w| && n >= 1
    ensures IsRun(w, n, run) && run[|run| - 1] == FillState(w, n, k)
  {
    if k == 0 {
      run := [FillState(w, n, 0)];
    } else {
      var before := FillRun(w, n, k - 1);
      var s, r := FillState(w, n, k - 1), FillState(w, n, k);
      assert r.heap[..k - 1] == s.heap;
      assert Fills(w, n, s, r);
      run := before + [r];
    }
  }

  ghost predicate Twice(heap: Heap, x: nat) {
    exists a, b :: 0 <= a < b < |heap| && heap[a].1 == x && heap[b].1 == x
  }

  ghost predicate AllOnes(heap: Heap) {
    forall a :: 0 <= a < |heap| ==> heap[a].0 == 1.0
  }

  /** Item `n` has been drawn twice, or will be drawn for ever. */
  ghost predicate Doomed(w: seq<real>, n: nat, s: Sampler) {
    && |s.heap| == n == s.i < |w| && n >= 1 && s.acc == SumTo(w, n + 1)
    && (forall a :: 0 <= a < n ==> 0.0 <= s.heap[a].0 <= 1.0) && (Twice(s.heap, n) || AllOnes(s.heap))
  }

  function NextKey(weight: real, top: real): real {
    if weight > 0.0 && top < 1.0 then 0.5 else 1.0
  }

  /** Another round that lands on item `n`. */
  function Again(w: seq<real>, n: nat, s: Sampler, t: nat): Sampler
    requires t < |s.heap| && n < |w|
  {
    Sampler(Swap(s.heap, t, (NextKey(w[n], s.heap[t].0), n)), n, SumTo(w, n + 1))
  }

  lemma AgainMoves(w: seq<real>, n: nat, s: Sampler, t: nat)
    requires NotNegative(w) && |s.heap| == n == s.i < |w| && n >= 1 && t < n && Smallest(s.heap, t)
    requires s.heap[t].0 == 1.0 || (s.heap[t].0 == 0.0 && s.acc <= SumTo(w, n + 1))
    ensures Moves(w, n, s, Again(w, n, s, t))
  {
    var r := Again(w, n, s, t);
    assert IsNextKey(w[n], s.heap[t].0, NextKey(w[n], s.heap[t].0)) && Sums(w)[n] == SumTo(w, n + 1);
    assert Lands(Sums(w), s.heap[t].0, n, s.acc, n);
    assert Jumps(w, s, t, n, r);
  }

  lemma {:induction false} SmallestAt(heap: Heap) returns (t: nat)
    requires |heap| > 0
    ensures t < |heap| && Smallest(heap, t)
  {
    var k := |heap| - 1;
    if k == 0 {
      t := 0;
    } else {
      t := SmallestAt(heap[..k]);
      assert forall a :: 0 <= a < k ==> heap[..k][a] == heap[a];
      if heap[k].0 < heap[t].0 {
        t := k;
      }
    }
  }

  lemma TwiceStays(heap: Heap, t: nat, key: real, x: nat)
    requires t < |heap| && Twice(heap, x)
    ensures Twice(Swap(heap, t, (key, x)), x)
  {
    var a, b :| 0 <= a < b < |heap| && heap[a].1 == x && heap[b].1 == x;
    var r, c := Swap(heap, t, (key, x)), if t == a then b else a;
    assert r[if c < t then c else c - 1].1 == x && r[|heap| - 1].1 == x;
  }

  /** A jump past everything. */
  lemma PastTheEnd(w: seq<real>, n: nat, s: Sampler, t: nat)
    requires NotNegative(w) && |s.heap| == n == s.i < |w| && t < n && Smallest(s.heap, t) && Inside(s.heap[t].0)
    requires s.acc >= 0.0
    ensures Moves(w, n, s, s.(i := |w|))
  {
    var far := SumTo(w, |w|) + 1.0;
    SumsAscend(w, 0, |w|);
    forall k | n <= k < |w|
      ensures Sums(w)[k] < far + s.acc
    {
      SumsAscend(w, k + 1, |w|);
    }
    assert IsLowerBound(Sums(w), n, far + s.acc, |w|);
    assert Jumps(w, s, t, |w|, s.(i := |w|));
  }

  lemma StaysDoomed(w: seq<real>, n: nat, s: Sampler, t: nat)
    requires NotNegative(w) && Doomed(w, n, s) && t < n && Smallest(s.heap, t) && !Inside(s.heap[t].0)
    ensures Moves(w, n, s, Again(w, n, s, t)) && Doomed(w, n, Again(w, n, s, t))
  {
    AgainMoves(w, n, s, t);
    if Twice(s.heap, n) {
      TwiceStays(s.heap, t, NextKey(w[n], s.heap[t].0), n);
    }
  }

  /** From there a run breaks the promise: it ends with a repeated item or goes on for as long as one likes. */
  lemma {:induction false} Prolong(w: seq<real>, n: nat, run: seq<Sampler>) returns (longer: seq<Sampler>)
    requires NotNegative(w) && IsRun(w, n, run) && Doomed(w, n, run[|run| - 1])
    ensures IsRun(w, n, longer) && !KeepsPromise(w, n, longer)
    decreases |w| + 3 - |run|
  {
    var s := run[|run| - 1];
    if |run| > |w| + 2 {
      longer := run;
    } else {
      var t := SmallestAt(s.heap);
      if Inside(s.heap[t].0) {
        SumsAscend(w, 0, n + 1);
        PastTheEnd(w, n, s, t);
        OneMore(w, n, run, s.(i := |w|));
        longer := run + [s.(i := |w|)];
      } else {
        StaysDoomed(w, n, s, t);
        OneMore(w, n, run, Again(w, n, s, t));
        longer := Prolong(w, n, run + [Again(w, n, s, t)]);
      }
    }
  }

  lemma {:induction false} FindZero(w: seq<real>, k: nat) returns (a: nat)
    requires k <= |w| && Zeros(w, k) >= 1
    ensures a < k && w[a] == 0.0 && Zeros(w, a) == Zeros(w, k) - 1
  {
    if w[k - 1] == 0.0 {
      a := k - 1;
    } else {
      a := FindZero(w, k - 1);
    }
  }

  lemma OneMore(w: seq<real>, n: nat, run: seq<Sampler>, r: Sampler)
    requires IsRun(w, n, run) && Moves(w, n, run[|run| - 1], r)
    ensures IsRun(w, n, run + [r])
  {
  }

  lemma FillKeys(w: seq<real>, n: nat)
    requires NotNegative(w) && 0 < n < |w|
    ensures forall a :: 0 <= a < n ==> FillState(w, n, n).heap[a] == (FillKey(w[a]), a) && FillKey(w[a]) >= 0.0
  {
  }

  /** With the zero key at `b` replaced, the one at `a` is still the smallest. */
  lemma AgainTwice(w: seq<real>, n: nat, a: nat, b: nat)
    requires NotNegative(w) && 0 < n < |w| && a < b < n && w[a] == 0.0 && w[b] == 0.0
    ensures var s1 := Again(w, n, FillState(w, n, n), b);
            a < |s1.heap| && s1.i == n == |s1.heap| && s1.acc == SumTo(w, n + 1) && s1.heap[a].0 == 0.0
            && Smallest(s1.heap, a) && Doomed(w, n, Again(w, n, s1, a))
  {
    var s1 := Again(w, n, FillState(w, n, n), b);
    FillKeys(w, n);
    assert s1.heap[a] == (0.0, a) && s1.heap[n - 1].1 == n;
    var s2 := Again(w, n, s1, a);
    assert s2.heap[n - 2] == s1.heap[n - 1] && s2.heap[n - 1].1 == n;
  }

  /** Item `n` is taken for the zero key at `b`, then again for the one at `a`. */
  lemma DrawnTwice(w: seq<real>, n: nat, run: seq<Sampler>, a: nat, b: nat) returns (longer: seq<Sampler>)
    requires NotNegative(w) && 0 < n < |w| && a < b < n && w[a] == 0.0 && w[b] == 0.0
    requires IsRun(w, n, run) && run[|run| - 1] == FillState(w, n, n)
    ensures IsRun(w, n, longer) && Doomed(w, n, longer[|longer| - 1])
  {
    var s0 := FillState(w, n, n);
    var s1 := Again(w, n, s0, b);
    AgainTwice(w, n, a, b);
    longer := RunAgain(w, n, run, s0, b);
    longer := RunAgain(w, n, longer, s1, a);
  }

  lemma RunAgain(w: seq<real>, n: nat, run: seq<Sampler>, s: Sampler, t: nat) returns (longer: seq<Sampler>)
    requires NotNegative(w) && IsRun(w, n, run) && run[|run| - 1] == s
    requires |s.heap| == n == s.i < |w| && n >= 1 && t < n && Smallest(s.heap, t)
    requires s.heap[t].0 == 1.0 || (s.heap[t].0 == 0.0 && s.acc <= SumTo(w, n) + w[n])
    ensures IsRun(w, n, longer) && longer[|longer| - 1] == Again(w, n, s, t)
  {
    AgainMoves(w, n, s, t);
    OneMore(w, n, run, Again(w, n, s, t));
    longer := run + [Again(w, n, s, t)];
  }

  /** The only item of the reservoir has key 1 and is drawn for ever. */
  lemma DrawnForever(w: seq<real>, run: seq<Sampler>) returns (longer: seq<Sampler>)
    requires NotNegative(w) && 1 < |w| && w[0] == 0.0 && w[1] == 0.0
    requires IsRun(w, 1, run) && run[|run| - 1] == FillState(w, 1, 1)
    ensures IsRun(w, 1, longer) && Doomed(w, 1, longer[|longer| - 1])
  {
    longer := RunAgain(w, 1, run, FillState(w, 1, 1), 0);
    assert longer[|longer| - 1].heap == [(1.0, 1)];
  }

  lemma BreaksPromise(w: seq<real>, n: nat) returns (run: seq<Sampler>)
    requires NotNegative(w) && n >= 1 && !Fit(w, n)
    ensures IsRun(w, n, run) && !KeepsPromise(w, n, run)
  {
    var filled := FillRun(w, n, n);
    var b := FindZero(w, n);
    if Zeros(w, n) >= 2 {
      var a := FindZero(w, b);
      run := DrawnTwice(w, n, filled, a, b);
    } else {
      run := DrawnForever(w, filled);
    }
    run := Prolong(w, n, run);
  }

  /** Sampling keeps its promise for all draws exactly when weights and sample size fit. */
  lemma PromiseIff(w: seq<real>, n: nat)
    requires NotNegative(w) && n >= 1
    ensures Fit(w, n) <==> forall run :: IsRun(w, n, run) ==> KeepsPromise(w, n, run)
  {
    if Fit(w, n) {
      forall run | IsRun(w, n, run)
        ensures KeepsPromise(w, n, run)
      {
        RunKeeps(w, n, run);
      }
    } else {
      var run := BreaksPromise(w, n);
    }
  }

  lemma ExampleStates()
    ensures var w := [0.0, 0.0, 1.0, 1.0];
            var s1, s2 := Sampler([(0.0, 1), (0.5, 2)], 2, 1.0), Sampler([(0.5, 2), (0.5, 2)], 2, 1.0);
            && FillState(w, 2, 2) == Sampler([(0.0, 0), (0.0, 1)], 2, 0.0) && SumTo(w, 2) == 0.0 && Zeros(w, 2) == 2
            && Again(w, 2, FillState(w, 2, 2), 0) == s1 && Again(w, 2, s1, 0) == s2
  {
    var w := [0.0, 0.0, 1.0, 1.0];
    assert Zeros(w, 1) == 1;
    assert SumTo(w, 1) == 0.0 && SumTo(w, 2) == 0.0 && SumTo(w, 3) == 1.0;
  }

  /** Two items of weight 0 fill the reservoir: item 2 is drawn for both, and returned twice. */
  lemma RepeatedItem() returns (run: seq<Sampler>)
    ensures !Fit([0.0, 0.0, 1.0, 1.0], 2) && IsRun([0.0, 0.0, 1.0, 1.0], 2, run)
    ensures run[|run| - 1] == Sampler([(0.5, 2), (0.5, 2)], 4, 1.0)
  {
    var w := [0.0, 0.0, 1.0, 1.0];
    ExampleStates();
    run := FillRun(w, 2, 2);
    run := RunAgain(w, 2, run, Sampler([(0.0, 0), (0.0, 1)], 2, 0.0), 0);
    run := RunAgain(w, 2, run, Sampler([(0.0, 1), (0.5, 2)], 2, 1.0), 0);
    var s := Sampler([(0.5, 2), (0.5, 2)], 2, 1.0);
    PastTheEnd(w, 2, s, 0);
    OneMore(w, 2, run, s.(i := 4));
    run := run + [s.(i := 4)];
  }

  // ---------------------------------------------------------------------------------------------------------

  /** Position of the smallest key. */
  method Top(heap: Heap) returns (t: nat)
    requires |heap| > 0
    ensures t < |heap| && Smallest(heap, t)
  {
    t := 0;
    for a := 1 to |heap|
      invariant t < |heap| && forall b :: 0 <= b < a ==> heap[t].0 <= heap[b].0
    {
      if heap[a].0 < heap[t].0 {
        t := a;
      }
    }
  }

  /** A random draw. */
  method Draw() returns (u: real)
    ensures Inside(u)
  {
    u := *;
    if !Inside(u) {
      u := 0.5;
    }
  }

  /** The logarithm of a number between 0 and 1: some negative number. */
  method Log(x: real) returns (y: real)
    requires Inside(x)
    ensures y < 0.0
  {
    y := *;
    if y >= 0.0 {
      y := -1.0;
    }
  }

  method FirstKey(weight: real) returns (key: real)
    requires weight >= 0.0
    ensures IsFirstKey(weight, key)
  {
    if weight > 0.0 {
      key := Draw();
    } else {
      key := 0.0;
    }
  }

  method LaterKey(weight: real, top: real) returns (key: real)
    requires weight >= 0.0 && 0.0 <= top
    ensures IsNextKey(weight, top, key)
  {
    if weight > 0.0 && top < 1.0 {
      key := *;
      if !(top < key < 1.0) {
        key := (top + 1.0) / 2.0;
      }
    } else {
      key := 1.0;
    }
  }

  lemma NegativeQuotient(a: real, b: real)
    requires a < 0.0 && b < 0.0
    ensures a / b > 0.0
  {
    assert a / b == (-a) / (-b);
  }

  /** The jump from the smallest key. */
  method Land(sums: seq<real>, top: real, i: nat, acc: real) returns (j: nat)
    requires i < |sums| && Ascending(sums)
    ensures Lands(sums, top, i, acc, j) && j <= |sums|
  {
    if top >= 1.0 {
      j := i;
    } else if top <= 0.0 {
      j := LowerBound(sums, i, 0.0 + acc);
    } else {
      var u := Draw();
      var x := Log(u);
      var y := Log(top);
      NegativeQuotient(x, y);
      var jump := x / y;
      j := LowerBound(sums, i, jump + acc);
    }
  }

  class AexpjMethod {
    var weights: seq<real>
    var sumWeights: seq<real>

    ghost predicate Valid()
      reads this
    {
      sumWeights == Sums(weights)
    }

    constructor ()
      ensures Valid() && weights == []
    {
      weights, sumWeights := [], [];
    }

    /** Stores the weights and their running sums, whatever they are. A weight of 0 is only reported in the log. */
    method Init(w: seq<real>)
      modifies this
      ensures Valid() && weights == w
      ensures forall i :: 0 <= i < |w| ==> sumWeights[i] == SumTo(w, i + 1)
    {
      weights, sumWeights := w, [];
      for i := 0 to |w|
        invariant weights == w && |sumWeights| == i
        invariant forall k :: 0 <= k < i ==> sumWeights[k] == SumTo(w, k + 1)
      {
        sumWeights := sumWeights + [if i == 0 then w[i] else sumWeights[i - 1] + w[i]];
      }
      assert sumWeights == Sums(w);
    }

    /** Draws `n` items, or all when there are fewer; no item twice, whatever the draws are. */
    method NSample(n: nat) returns (res: seq<nat>)
      requires Valid() && n >= 1 && NotNegative(weights) && Fit(weights, n)
      ensures |res| == if n < |weights| then n else |weights|
      ensures Distinct(res) && forall c :: c in res ==> c < |weights|
    {
      var heap: Heap := [];
      var i: nat, acc: real := 0, 0.0;
      while i < |weights|
        invariant Inv(weights, n, Sampler(heap, i, acc))
        decreases Left(weights, Sampler(heap, i, acc))
      {
        ghost var s := Sampler(heap, i, acc);
        if |heap| < n {
          var ki := FirstKey(weights[i]);
          heap := heap + [(ki, i)];
          i := i + 1;
          if |heap| == n {
            acc := sumWeights[i - 1];
          }
          FillKeeps(weights, n, s, Sampler(heap, i, acc));
          continue;
        }
        heap, i, acc := Jump(n, heap, i, acc);
      }
      res := Drain(heap);
    }

    /** One round with a full reservoir; a jump past the last item ends the loop. */
    method Jump(ghost n: nat, heap0: Heap, i0: nat, acc0: real) returns (heap: Heap, i: nat, acc: real)
      requires Valid() && Inv(weights, n, Sampler(heap0, i0, acc0)) && i0 < |weights| && |heap0| == n > 0
      ensures Inv(weights, n, Sampler(heap, i, acc))
      ensures Left(weights, Sampler(heap, i, acc)) < Left(weights, Sampler(heap0, i0, acc0))
    {
      ghost var s := Sampler(heap0, i0, acc0);
      heap, acc := heap0, acc0;
      SumsAreAscending(weights);
      var t := Top(heap);
      var j := Land(sumWeights, heap[t].0, i0, acc);
      if j >= |weights| {
        i := |weights|;
      } else {
        acc := sumWeights[j];
        var ki := LaterKey(weights[j], heap[t].0);
        heap := Swap(heap, t, (ki, j));
        i := j;
      }
      JumpKeeps(weights, n, s, t, j, Sampler(heap, i, acc));
    }
  }

  method Drain(heap0: Heap) returns (res: seq<nat>)
    requires OneEach(heap0)
    ensures |res| == |heap0| && Distinct(res)
    ensures forall c :: c in res <==> exists a :: 0 <= a < |heap0| && heap0[a].1 == c
  {
    var heap := heap0;
    res := [];
    while |heap| > 0
      invariant |res| + |heap| == |heap0| && Distinct(res) && OneEach(heap)
      invariant forall a :: 0 <= a < |heap| ==> heap[a].1 !in res && heap[a] in heap0
      invariant forall c :: c in res ==> exists a :: 0 <= a < |heap0| && heap0[a].1 == c
      invariant forall a :: 0 <= a < |heap0| ==> heap0[a].1 in res || heap0[a] in heap
    {
      var t := Top(heap);
      res := res + [heap[t].1];
      heap := heap[..t] + heap[t + 1..];
    }
  }

  // ---------------------------------------------------------------------------------------------------------

  /** Ids of `xs` that are not excluded. */
  function Outside(xs: seq<nat>, excluded: set<nat>): (r: seq<nat>)
    ensures forall x: nat :: x in r <==> x in xs && x !in excluded
  {
    if xs == [] then []
    else Outside(xs[..|xs| - 1], excluded) + if xs[|xs| - 1] in excluded then [] else [xs[|xs| - 1]]
  }

  lemma OutsideSnoc(xs: seq<nat>, x: nat, excluded: set<nat>)
    ensures Outside(xs + [x], excluded) == Outside(xs, excluded) + if x in excluded then [] else [x]
  {
    assert (xs + [x])[..|xs|] == xs;
  }

  lemma Regroup(x: seq<nat>, front: seq<nat>, whole: seq<nat>, rest: seq<nat>, tail: seq<nat>)
    requires whole == x + front && rest == front + tail
    ensures whole + tail == x + rest
  {
  }

  /** Nothing is reordered, and each occurrence is kept or dropped for itself. */
  lemma {:induction false} OutsideSplit(a: seq<nat>, b: seq<nat>, excluded: set<nat>)
    ensures Outside(a + b, excluded) == Outside(a, excluded) + Outside(b, excluded)
  {
    if b == [] {
      assert a + b == a;
    } else {
      var front, last := b[..|b| - 1], b[|b| - 1];
      Regroup(a, front, a + front, b, [last]);
      OutsideSplit(a, front, excluded);
      OutsideSnoc(front, last, excluded);
      OutsideSnoc(a + front, last, excluded);
      Regroup(Outside(a, excluded), Outside(front, excluded), Outside(a + front, excluded), Outside(b, excluded),
              if last in excluded then [] else [last]);
    }
  }

  lemma {:induction false} OutsideDistinct(xs: seq<nat>, excluded: set<nat>)
    requires Distinct(xs)
    ensures Distinct(Outside(xs, excluded)) && |Outside(xs, excluded)| <= |xs|
  {
    if xs != [] {
      OutsideDistinct(xs[..|xs| - 1], excluded);
    }
  }

  /** Excluding removes at most as many ids as are excluded. */
  lemma OutsideAtLeast(xs: seq<nat>, excluded: set<nat>)
    requires Distinct(xs)
    ensures |Outside(xs, excluded)| + |excluded| >= |xs|
  {
    OutsideDistinct(xs, excluded);
    SeqSetSize(xs);
    SeqSetSize(Outside(xs, excluded));
    var out := Elems(Outside(xs, excluded));
    assert Elems(xs) <= out + excluded;
    SubsetSize(Elems(xs), out + excluded);
  }

  /** Samples that are everything there is leave the same ids outside; a full draw leaves enough. */
  lemma EnoughOutside(ids: seq<nat>, drawn: seq<nat>, excluded: set<nat>, s: nat)
    requires Distinct(ids) && Distinct(drawn) && forall x: nat :: x in drawn ==> x in ids
    requires |drawn| == if s + |excluded| < |ids| then s + |excluded| else |ids|
    ensures |Outside(drawn, excluded)| >= s <==> |Outside(ids, excluded)| >= s
  {
    OutsideAtLeast(drawn, excluded);
    OutsideAtLeast(ids, excluded);
    OutsideDistinct(drawn, excluded);
    OutsideDistinct(ids, excluded);
    if |drawn| == |ids| {
      FullDraw(ids, drawn, excluded);
    }
  }

  lemma FullDraw(ids: seq<nat>, drawn: seq<nat>, excluded: set<nat>)
    requires Distinct(ids) && Distinct(drawn) && |drawn| == |ids| && forall x: nat :: x in drawn ==> x in ids
    ensures |Outside(drawn, excluded)| == |Outside(ids, excluded)|
  {
    SeqSetSize(drawn);
    SeqSetSize(ids);
    SameWhenFull(Elems(drawn), Elems(ids));
    OutsideDistinct(drawn, excluded);
    OutsideDistinct(ids, excluded);
    SeqSetSize(Outside(drawn, excluded));
    SeqSetSize(Outside(ids, excluded));
    OutsideElems(drawn, excluded);
    OutsideElems(ids, excluded);
  }

  lemma OutsideElems(xs: seq<nat>, excluded: set<nat>)
    ensures Elems(Outside(xs, excluded)) == Elems(xs) - excluded
  {
  }

  /** One category: distinct ids with their weights, sampled through a reservoir. */
  class ReservoirWeightedCollection {
    var ids: seq<nat>
    var weights: seq<real>
    const aexpj: AexpjMethod

    ghost predicate Valid()
      reads this, aexpj
    {
      aexpj.Valid() && |ids| == |weights| && aexpj.weights == weights
    }

    constructor ()
      ensures Valid() && fresh(aexpj) && ids == []
    {
      ids, weights := [], [];
      aexpj := new AexpjMethod();
    }

    method Init(ids: seq<nat>, weights: seq<real>) returns (ok: bool)
      requires Valid()
      modifies this, aexpj
      ensures Valid() && (ok <==> |ids| == |weights|)
      ensures ok ==> this.ids == ids && this.weights == weights
      ensures !ok ==> this.ids == old(this.ids) && this.weights == old(this.weights)
    {
      if |ids| != |weights| {
        return false;
      }
      this.ids, this.weights := ids, weights;
      aexpj.Init(weights);
      ok := true;
    }

    /** The pairs at the positions drawn, no position twice; so no id twice if none is listed twice. */
    method NSample(n: nat) returns (res: seq<(nat, real)>)
      requires Valid() && n >= 1 && NotNegative(weights) && Fit(weights, n)
      ensures |res| == if n < |ids| then n else |ids|
      ensures exists columns: seq<nat> :: Distinct(columns) && DrawnAt(ids, weights, columns, res)
      ensures Distinct(ids) ==> Distinct(Firsts(res))
      ensures forall k :: 0 <= k < |res| ==> Listed(ids, weights, res[k])
    {
      var columns := aexpj.NSample(n);
      res := [];
      for k := 0 to |columns|
        invariant |res| == k
        invariant forall a :: 0 <= a < k ==> columns[a] in columns && res[a] == (ids[columns[a]], weights[columns[a]])
      {
        assert columns[k] in columns;
        res := res + [(ids[columns[k]], weights[columns[k]])];
      }
      assert forall k :: 0 <= k < |columns| ==> columns[k] in columns;
      assert DrawnAt(ids, weights, columns, res);
    }
  }

  ghost predicate DrawnAt(ids: seq<nat>, weights: seq<real>, columns: seq<nat>, res: seq<(nat, real)>)
    requires |ids| == |weights|
  {
    |columns| == |res| && forall k :: 0 <= k < |res| ==> columns[k] < |ids| && res[k] == (ids[columns[k]], weights[columns[k]])
  }

  function Firsts(ps: seq<(nat, real)>): (r: seq<nat>)
    ensures |r| == |ps| && forall k :: 0 <= k < |r| ==> r[k] == ps[k].0
  {
    seq(|ps|, k requires 0 <= k < |ps| => ps[k].0)
  }

  ghost predicate Listed(ids: seq<nat>, weights: seq<real>, p: (nat, real))
    requires |ids| == |weights|
  {
    exists c :: 0 <= c < |ids| && p == (ids[c], weights[c])
  }

  lemma {:induction false} OutsideGrows(xs: seq<nat>, excluded: set<nat>, i: nat)
    requires i <= |xs|
    ensures |Outside(xs[..i], excluded)| <= |Outside(xs, excluded)|
  {
    if i < |xs| {
      OutsideGrows(xs[..|xs| - 1], excluded, i);
      assert xs[..|xs| - 1][..i] == xs[..i];
    } else {
      assert xs[..i] == xs;
    }
  }

  lemma OutsideNext(xs: seq<nat>, excluded: set<nat>, i: nat)
    requires i < |xs|
    ensures Outside(xs[..i + 1], excluded) == Outside(xs[..i], excluded) + if xs[i] in excluded then [] else [xs[i]]
  {
    assert xs[..i + 1][..i] == xs[..i];
  }

  lemma FirstsPush(ps: seq<(nat, real)>, p: (nat, real))
    ensures Firsts(ps + [p]) == Firsts(ps) + [p.0]
  {
  }

  lemma PickedOutside(ids: seq<nat>, dedup: set<nat>, i: nat, picked: seq<(nat, real)>)
    requires Distinct(ids) && i <= |ids| && Firsts(picked) == Outside(ids[..i], dedup)
    ensures Distinct(Firsts(picked)) && |picked| <= |Outside(ids, dedup)|
    ensures forall k :: 0 <= k < |picked| ==> picked[k].0 !in dedup
  {
    OutsideDistinct(ids[..i], dedup);
    OutsideGrows(ids, dedup, i);
    forall k | 0 <= k < |picked|
      ensures picked[k].0 !in dedup
    {
      assert Firsts(picked)[k] in Outside(ids[..i], dedup);
    }
  }

  /** Of the first `i` pairs, those whose id is not excluded. */
  ghost predicate PickedFrom(pairs: seq<(nat, real)>, dedup: set<nat>, i: nat, picked: seq<(nat, real)>) {
    && i <= |pairs| && Firsts(picked) == Outside(Firsts(pairs)[..i], dedup)
    && forall k :: 0 <= k < |picked| ==> picked[k] in pairs
  }

  lemma PickStep(pairs: seq<(nat, real)>, dedup: set<nat>, i: nat, picked: seq<(nat, real)>)
    requires i < |pairs| && PickedFrom(pairs, dedup, i, picked)
    ensures PickedFrom(pairs, dedup, i + 1, if pairs[i].0 in dedup then picked else picked + [pairs[i]])
  {
    OutsideNext(Firsts(pairs), dedup, i);
    FirstsPush(picked, pairs[i]);
  }

  /** Takes the first `count` pairs whose id is not excluded. */
  method Pick(pairs: seq<(nat, real)>, dedup: set<nat>, count: nat) returns (picked: seq<(nat, real)>)
    requires Distinct(Firsts(pairs))
    ensures |picked| == if count < |Outside(Firsts(pairs), dedup)| then count else |Outside(Firsts(pairs), dedup)|
    ensures Distinct(Firsts(picked))
    ensures forall k :: 0 <= k < |picked| ==> picked[k].0 !in dedup && picked[k] in pairs
  {
    ghost var i;
    picked, i := PickUpTo(pairs, dedup, count);
    PickedEnds(pairs, dedup, i, picked);
  }

  method PickUpTo(pairs: seq<(nat, real)>, dedup: set<nat>, count: nat) returns (picked: seq<(nat, real)>, ghost end: nat)
    ensures PickedFrom(pairs, dedup, end, picked) && |picked| <= count && (|picked| == count || end == |pairs|)
  {
    picked := [];
    var i := 0;
    PickStart(pairs, dedup);
    while i < |pairs| && |picked| < count
      invariant |picked| <= count && PickedFrom(pairs, dedup, i, picked)
    {
      picked := PickNext(pairs, dedup, i, picked);
      i := i + 1;
    }
    end := i;
  }

  lemma PickStart(pairs: seq<(nat, real)>, dedup: set<nat>)
    ensures PickedFrom(pairs, dedup, 0, [])
  {
  }

  method PickNext(pairs: seq<(nat, real)>, dedup: set<nat>, i: nat, picked: seq<(nat, real)>) returns (next: seq<(nat, real)>)
    requires i < |pairs| && PickedFrom(pairs, dedup, i, picked)
    ensures PickedFrom(pairs, dedup, i + 1, next) && |picked| <= |next| <= |picked| + 1
  {
    PickStep(pairs, dedup, i, picked);
    next := picked;
    if pairs[i].0 !in dedup {
      next := picked + [pairs[i]];
    }
  }

  lemma PickedEnds(pairs: seq<(nat, real)>, dedup: set<nat>, i: nat, picked: seq<(nat, real)>)
    requires Distinct(Firsts(pairs)) && PickedFrom(pairs, dedup, i, picked)
    ensures |picked| <= |Outside(Firsts(pairs), dedup)|
    ensures i == |pairs| ==> |picked| == |Outside(Firsts(pairs), dedup)|
    ensures Distinct(Firsts(picked))
    ensures forall k :: 0 <= k < |picked| ==> picked[k].0 !in dedup && picked[k] in pairs
  {
    PickedOutside(Firsts(pairs), dedup, i, picked);
    assert i == |pairs| ==> Firsts(pairs)[..i] == Firsts(pairs);
    assert |Firsts(picked)| == |picked|;
  }

  /** Draws `count` ids of one category that are not in the dedup set, with their weights. It succeeds exactly when
      the category has that many ids outside the set. */
  method NoPutBackSample(sampler: ReservoirWeightedCollection, dedup: set<nat>, count: nat)
    returns (ok: bool, picked: seq<(nat, real)>)
    requires sampler.Valid() && Distinct(sampler.ids) && count >= 1
    requires NotNegative(sampler.weights) && Fit(sampler.weights, count + |dedup|)
    ensures ok <==> |Outside(sampler.ids, dedup)| >= count
    ensures ok ==> |picked| == count && Distinct(Firsts(picked))
    ensures ok ==> forall k :: 0 <= k < count ==> picked[k].0 !in dedup && Listed(sampler.ids, sampler.weights, picked[k])
  {
    var pairs := sampler.NSample(count + |dedup|);
    DrawnFromIds(sampler.ids, sampler.weights, pairs);
    EnoughOutside(sampler.ids, Firsts(pairs), dedup, count);
    picked := Pick(pairs, dedup, count);
    ok := |picked| == count;
  }

  lemma DrawnFromIds(ids: seq<nat>, weights: seq<real>, pairs: seq<(nat, real)>)
    requires |ids| == |weights| && forall k :: 0 <= k < |pairs| ==> Listed(ids, weights, pairs[k])
    ensures forall x: nat :: x in Firsts(pairs) ==> x in ids
    ensures forall p :: p in pairs ==> Listed(ids, weights, p)
  {
    forall x: nat | x in Firsts(pairs)
      ensures x in ids
    {
      var k :| 0 <= k < |pairs| && pairs[k].0 == x;
      var c :| 0 <= c < |ids| && pairs[k] == (ids[c], weights[c]);
    }
  }
}
