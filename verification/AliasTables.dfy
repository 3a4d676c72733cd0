/** The alias table of the weighted sampler, over exact reals. */
module AliasTables {
  import opened Collections

  /** Weight other columns pass on to column `i`: the first `k` finished columns that name it as their alias. */
  ghost function Given(prob: seq<real>, alias: seq<nat>, done: seq<bool>, i: nat, k: nat): real
    requires k <= |prob| == |alias| == |done|
  {
    if k == 0 then 0.0
    else Given(prob, alias, done, i, k - 1) + if done[k - 1] && alias[k - 1] == i then 1.0 - prob[k - 1] else 0.0
  }

  /** Finishing column `c` adds what it passes on to its alias and changes nothing else. */
  lemma {:induction false} GivenStep(prob: seq<real>, alias: seq<nat>, done: seq<bool>, c: nat, p: real, a: nat, i: nat, k: nat)
    requires k <= |prob| == |alias| == |done| && c < |done| && !done[c]
    ensures Given(prob[c := p], alias[c := a], done[c := true], i, k) ==
            Given(prob, alias, done, i, k) + if c < k && a == i then 1.0 - p else 0.0
  {
    if k > 0 {
      GivenStep(prob, alias, done, c, p, a, i, k - 1);
    }
  }

  /** Weight and number of the columns that are not finished. */
  ghost function Open(w: seq<real>, done: seq<bool>, k: nat): real
    requires k <= |w| == |done|
  {
    if k == 0 then 0.0 else Open(w, done, k - 1) + if done[k - 1] then 0.0 else w[k - 1]
  }

  ghost function OpenCount(done: seq<bool>, k: nat): nat
    requires k <= |done|
  {
    if k == 0 then 0 else OpenCount(done, k - 1) + if done[k - 1] then 0 else 1
  }

  lemma {:induction false} OpenChange(w: seq<real>, done: seq<bool>, c: nat, x: real, k: nat)
    requires k <= |w| == |done| && c < |w| && !done[c]
    ensures Open(w[c := x], done, k) == Open(w, done, k) + if c < k then x - w[c] else 0.0
  {
    if k > 0 {
      OpenChange(w, done, c, x, k - 1);
    }
  }

  lemma {:induction false} OpenClose(w: seq<real>, done: seq<bool>, c: nat, k: nat)
    requires k <= |w| == |done| && c < |w| && !done[c]
    ensures Open(w, done[c := true], k) == Open(w, done, k) - if c < k then w[c] else 0.0
    ensures OpenCount(done[c := true], k) == OpenCount(done, k) - if c < k then 1 else 0
  {
    if k > 0 {
      OpenClose(w, done, c, k - 1);
    }
  }

  /** `k` times the average. */
  ghost function Times(k: nat, avg: real): real {
    if k == 0 then 0.0 else Times(k - 1, avg) + avg
  }

  lemma {:induction false} TimesIsProduct(k: nat, avg: real)
    ensures Times(k, avg) == k as real * avg
  {
    if k > 0 {
      TimesIsProduct(k - 1, avg);
      assert k as real * avg == (k - 1) as real * avg + avg;
    }
  }

  /** If no open column weighs more than `avg`, one that weighs less pulls the total below the average. */
  lemma {:induction false} OpenAtMost(w: seq<real>, done: seq<bool>, avg: real, i: nat, k: nat)
    requires k <= |w| == |done| && i < |w| && !done[i] && forall j :: 0 <= j < |w| && !done[j] ==> w[j] <= avg
    ensures Open(w, done, k) <= Times(OpenCount(done, k), avg) + if i < k then w[i] - avg else 0.0
  {
    if k > 0 {
      OpenAtMost(w, done, avg, i, k - 1);
    }
  }

  lemma {:induction false} OpenAbove(w: seq<real>, done: seq<bool>, avg: real, k: nat)
    requires k <= |w| == |done| && forall j :: 0 <= j < |w| && !done[j] ==> w[j] > avg
    ensures Open(w, done, k) >= Times(OpenCount(done, k), avg)
    ensures OpenCount(done, k) > 0 ==> Open(w, done, k) > Times(OpenCount(done, k), avg)
  {
    if k > 0 {
      OpenAbove(w, done, avg, k - 1);
    }
  }

  lemma {:induction false} OpenCounted(done: seq<bool>, i: nat, k: nat)
    requires i < k <= |done| && !done[i]
    ensures OpenCount(done, k) > 0
  {
    if i < k - 1 {
      OpenCounted(done, i, k - 1);
    }
  }

  /** The table while it is built. `scale` is the number of columns, `avg` its inverse. */
  datatype Work = Work(w: seq<real>, prob: seq<real>, alias: seq<nat>, done: seq<bool>, small: seq<nat>, large: seq<nat>)

  ghost predicate Sized(w0: seq<real>, t: Work) {
    |w0| == |t.w| == |t.prob| == |t.alias| == |t.done|
  }

  /** The two stacks hold each unfinished column once, on its side of the average. */
  ghost predicate Stacks(w0: seq<real>, t: Work, avg: real) {
    && Sized(w0, t) && Distinct(t.small) && Distinct(t.large)
    && (forall i: nat :: i in t.small ==> i < |w0| && !t.done[i] && i !in t.large && t.w[i] <= avg)
    && (forall i: nat :: i in t.large ==> i < |w0| && !t.done[i] && t.w[i] > avg)
    && forall i: nat :: i < |w0| && !t.done[i] ==> i in t.small || i in t.large
  }

  /** Column `i` still accounts for its own weight. */
  ghost predicate Balanced(w0: seq<real>, t: Work, scale: real, i: nat)
    requires Sized(w0, t) && i < |w0|
  {
    (if t.done[i] then t.prob[i] else scale * t.w[i]) + Given(t.prob, t.alias, t.done, i, |w0|) == scale * w0[i]
  }

  ghost predicate Inv(w0: seq<real>, t: Work, scale: real, avg: real) {
    && Stacks(w0, t, avg) && scale * avg == 1.0 && scale > 0.0
    && (forall i :: 0 <= i < |w0| ==> Balanced(w0, t, scale, i))
    && (forall i :: 0 <= i < |w0| && !t.done[i] ==> t.w[i] >= 0.0)
    && (forall i :: 0 <= i < |w0| && t.done[i] ==> 0.0 <= t.prob[i] <= 1.0 && t.alias[i] < |w0|)
    && Open(t.w, t.done, |w0|) == Times(OpenCount(t.done, |w0|), avg)
  }

  lemma ScaledBound(x: real, scale: real, avg: real)
    requires 0.0 <= x <= avg && scale > 0.0 && scale * avg == 1.0
    ensures 0.0 <= scale * x <= 1.0
  {
    ProductNotNegative(scale, x);
    ProductNotNegative(scale, avg - x);
    Distribute(scale, avg, x);
  }

  lemma ProductNotNegative(a: real, b: real)
    requires a >= 0.0 && b >= 0.0
    ensures a * b >= 0.0
  {
  }

  lemma Distribute(a: real, b: real, c: real)
    ensures a * (b - c) == a * b - a * c
  {
  }

  /** The stacks with their tops taken off. */
  ghost predicate Tops(t: Work, small: seq<nat>, large: seq<nat>, less: nat, more: nat) {
    t.small == small + [less] && t.large == large + [more]
  }

  /** One pairing, with `p` the scaled weight of the small column: the small column is finished and its gap is filled by the large one. */
  function Paired(t: Work, small: seq<nat>, large: seq<nat>, less: nat, more: nat, avg: real, p: real): Work
    requires |t.w| == |t.prob| == |t.alias| == |t.done| && less < |t.w| && more < |t.w|
  {
    var rest := t.w[more] + t.w[less] - avg;
    Work(t.w[more := rest], t.prob[less := p], t.alias[less := more], t.done[less := true],
         if rest > avg then small else small + [more], if rest > avg then large + [more] else large)
  }

  lemma TopFacts(w0: seq<real>, t: Work, avg: real, small: seq<nat>, large: seq<nat>, less: nat, more: nat)
    requires Stacks(w0, t, avg) && Tops(t, small, large, less, more)
    ensures less < |w0| && more < |w0| && less != more && !t.done[less] && !t.done[more]
    ensures t.w[less] <= avg < t.w[more]
    ensures Distinct(small) && Distinct(large) && less !in small && more !in large && more !in small && less !in large
    ensures forall i: nat :: i in t.small <==> i in small || i == less
    ensures forall i: nat :: i in t.large <==> i in large || i == more
  {
    assert less in t.small && more in t.large;
    LastOnce(t.small);
    LastOnce(t.large);
    assert t.small[..|t.small| - 1] == small && t.large[..|t.large| - 1] == large;
  }

  lemma LastOnce(s: seq<nat>)
    requires s != [] && Distinct(s)
    ensures Distinct(s[..|s| - 1]) && s[|s| - 1] !in s[..|s| - 1]
  {
  }

  lemma PushOnce(s: seq<nat>, x: nat)
    requires Distinct(s) && x !in s
    ensures Distinct(s + [x]) && forall i: nat :: i in s + [x] <==> i in s || i == x
  {
  }

  lemma PairedStacks(w0: seq<real>, t: Work, p: real, avg: real, small: seq<nat>, large: seq<nat>, less: nat, more: nat)
    requires Stacks(w0, t, avg) && Tops(t, small, large, less, more) && less < |w0| && more < |w0|
    ensures Stacks(w0, Paired(t, small, large, less, more, avg, p), avg)
  {
    TopFacts(w0, t, avg, small, large, less, more);
    PushOnce(small, more);
    PushOnce(large, more);
  }

  lemma PairedBalance(w0: seq<real>, t: Work, scale: real, avg: real, small: seq<nat>, large: seq<nat>,
                      less: nat, more: nat, p: real, i: nat)
    requires Sized(w0, t) && less < |w0| && more < |w0| && less != more && !t.done[less] && !t.done[more]
    requires scale * avg == 1.0 && p == scale * t.w[less] && i < |w0| && Balanced(w0, t, scale, i)
    ensures Balanced(w0, Paired(t, small, large, less, more, avg, p), scale, i)
  {
    GivenStep(t.prob, t.alias, t.done, less, p, more, i, |w0|);
    var r := Paired(t, small, large, less, more, avg, p);
    if i == more {
      FillGap(scale, t.w[more], t.w[less], avg, r.w[i], p);
    }
  }

  lemma FillGap(scale: real, a: real, b: real, avg: real, rest: real, p: real)
    requires scale * avg == 1.0 && rest == a + b - avg && p == scale * b
    ensures scale * rest == scale * a + p - 1.0
  {
  }

  lemma PairedOpen(w0: seq<real>, t: Work, p: real, avg: real, small: seq<nat>, large: seq<nat>, less: nat, more: nat)
    requires Sized(w0, t) && less < |w0| && more < |w0| && less != more && !t.done[less] && !t.done[more]
    requires Open(t.w, t.done, |w0|) == Times(OpenCount(t.done, |w0|), avg)
    ensures var r := Paired(t, small, large, less, more, avg, p);
            Open(r.w, r.done, |w0|) == Times(OpenCount(r.done, |w0|), avg)
  {
    var w, done, n := t.w[more := t.w[more] + t.w[less] - avg], t.done[less := true], |w0|;
    OpenChange(t.w, t.done, more, t.w[more] + t.w[less] - avg, n);
    OpenClose(w, t.done, less, n);
    assert w[less] == t.w[less];
  }

  lemma PairedBounds(w0: seq<real>, t: Work, scale: real, avg: real, small: seq<nat>, large: seq<nat>,
                     less: nat, more: nat, p: real)
    requires Sized(w0, t) && less < |w0| && more < |w0| && less != more && !t.done[less] && !t.done[more]
    requires t.w[less] <= avg < t.w[more] && p == scale * t.w[less] && scale * avg == 1.0 && scale > 0.0
    requires forall i :: 0 <= i < |w0| && !t.done[i] ==> t.w[i] >= 0.0
    requires forall i :: 0 <= i < |w0| && t.done[i] ==> 0.0 <= t.prob[i] <= 1.0 && t.alias[i] < |w0|
    ensures var r := Paired(t, small, large, less, more, avg, p);
            && (forall i :: 0 <= i < |w0| && !r.done[i] ==> r.w[i] >= 0.0)
            && (forall i :: 0 <= i < |w0| && r.done[i] ==> 0.0 <= r.prob[i] <= 1.0 && r.alias[i] < |w0|)
  {
    ScaledBound(t.w[less], scale, avg);
  }

  lemma PairedKeeps(w0: seq<real>, t: Work, scale: real, avg: real, small: seq<nat>, large: seq<nat>,
                    less: nat, more: nat, p: real)
    requires Inv(w0, t, scale, avg) && Tops(t, small, large, less, more) && less < |w0| && more < |w0|
    requires p == scale * t.w[less]
    ensures Inv(w0, Paired(t, small, large, less, more, avg, p), scale, avg)
  {
    TopFacts(w0, t, avg, small, large, less, more);
    PairedStacks(w0, t, p, avg, small, large, less, more);
    PairedOpen(w0, t, p, avg, small, large, less, more);
    forall i | 0 <= i < |w0|
      ensures Balanced(w0, Paired(t, small, large, less, more, avg, p), scale, i)
    {
      PairedBalance(w0, t, scale, avg, small, large, less, more, p, i);
    }
    PairedBounds(w0, t, scale, avg, small, large, less, more, p);
  }

  /** When one stack runs dry it is the large one, and what is left weighs exactly the average. */
  lemma Leftovers(w0: seq<real>, t: Work, scale: real, avg: real)
    requires Inv(w0, t, scale, avg) && (t.small == [] || t.large == [])
    ensures t.large == []
    ensures forall i: nat :: i in t.small ==> t.w[i] == avg
  {
    if t.large != [] {
      var i := t.large[0];
      assert i in t.large;
      OpenAbove(t.w, t.done, avg, |w0|);
      OpenCounted(t.done, i, |w0|);
    }
    forall i: nat | i in t.small && t.large == []
      ensures t.w[i] == avg
    {
      OpenAtMost(t.w, t.done, avg, i, |w0|);
    }
  }

  /** A draw from a table: the column itself when the coin falls below its probability, what it passes on to otherwise. */
  function Draw(prob: seq<real>, alias: seq<nat>, column: nat, coin: real): nat
    requires column < |prob| == |alias|
  {
    if coin < prob[column] then column else alias[column]
  }

  /** What column `c` contributes to drawing `i`. */
  function Share(prob: seq<real>, alias: seq<nat>, c: nat, i: nat): real
    requires c < |prob| == |alias|
  {
    (if c == i then prob[c] else 0.0) + (if alias[c] == i then 1.0 - prob[c] else 0.0)
  }

  /** The coins that draw `i` from column `c` are those from `lo` up to `hi`. */
  ghost predicate CoinsBetween(prob: seq<real>, alias: seq<nat>, c: nat, i: nat, lo: real, hi: real)
    requires c < |prob| == |alias|
  {
    forall coin: real :: 0.0 <= coin < 1.0 ==> (Draw(prob, alias, c, coin) == i <==> lo <= coin < hi)
  }

  /** And they make up its share of the coins. */
  lemma CoinShare(prob: seq<real>, alias: seq<nat>, c: nat, i: nat) returns (lo: real, hi: real)
    requires c < |prob| == |alias| && 0.0 <= prob[c] <= 1.0
    ensures 0.0 <= lo <= hi <= 1.0 && CoinsBetween(prob, alias, c, i, lo, hi)
    ensures hi - lo == Share(prob, alias, c, i)
  {
    lo := if c == i then 0.0 else if alias[c] == i then prob[c] else 1.0;
    hi := if c == i && alias[c] != i then prob[c] else 1.0;
  }

  function Shares(prob: seq<real>, alias: seq<nat>, i: nat): (s: seq<real>)
    requires |prob| == |alias|
    ensures |s| == |prob| && forall c :: 0 <= c < |s| ==> s[c] == Share(prob, alias, c, i)
  {
    seq(|prob|, c requires 0 <= c < |prob| => Share(prob, alias, c, i))
  }

  lemma {:induction false} SharesBefore(prob: seq<real>, alias: seq<nat>, i: nat, k: nat)
    requires k <= |prob| == |alias|
    ensures SumTo(Shares(prob, alias, i), k)
            == (if i < k then prob[i] else 0.0) + Given(prob, alias, AllDone(|prob|), i, k)
  {
    if k > 0 {
      SharesBefore(prob, alias, i, k - 1);
    }
  }

  /** A table represents weights exactly when, over all columns, the coins that draw an item make up the number of items
      times its weight: with columns and coins drawn uniformly every item comes up by its weight. */
  lemma DrawnByWeight(prob: seq<real>, alias: seq<nat>, w: seq<real>)
    requires |prob| == |alias| == |w| && forall c :: 0 <= c < |prob| ==> 0.0 <= prob[c] <= 1.0 && alias[c] < |prob|
    ensures Represents(prob, alias, w) <==>
            forall i :: 0 <= i < |w| ==> SumTo(Shares(prob, alias, i), |w|) == |w| as real * w[i]
  {
    forall i | 0 <= i < |w|
      ensures SumTo(Shares(prob, alias, i), |w|) == prob[i] + Given(prob, alias, AllDone(|w|), i, |w|)
    {
      SharesBefore(prob, alias, i, |w|);
    }
  }

  function NoneDone(n: nat): (r: seq<bool>)
    ensures |r| == n && forall i :: 0 <= i < n ==> !r[i]
  {
    seq(n, i => false)
  }

  function AllDone(n: nat): (r: seq<bool>)
    ensures |r| == n && forall i :: 0 <= i < n ==> r[i]
  {
    seq(n, i => true)
  }

  lemma {:induction false} NothingFinished(w: seq<real>, prob: seq<real>, alias: seq<nat>, i: nat, k: nat)
    requires k <= |w| == |prob| == |alias|
    ensures Given(prob, alias, NoneDone(|w|), i, k) == 0.0
    ensures Open(w, NoneDone(|w|), k) == SumTo(w, k) && OpenCount(NoneDone(|w|), k) == k
  {
    if k > 0 {
      NothingFinished(w, prob, alias, i, k - 1);
    }
  }

  /** Weights the table is meant for: they are not negative and sum to 1. */
  ghost predicate Normalised(w: seq<real>) {
    |w| > 0 && SumTo(w, |w|) == 1.0 && forall i :: 0 <= i < |w| ==> w[i] >= 0.0
  }

  /** All columns lie on one side of the average, so none can pass anything on. */
  ghost predicate OneSided(w: seq<real>, avg: real) {
    (forall i :: 0 <= i < |w| ==> w[i] <= avg) || (forall i :: 0 <= i < |w| ==> w[i] > avg)
  }

  /** The table as a distribution: a column and what others pass on to it carry `n` times its weight. */
  ghost predicate Represents(prob: seq<real>, alias: seq<nat>, w: seq<real>) {
    && |prob| == |alias| == |w|
    && (forall i :: 0 <= i < |w| ==> 0.0 <= prob[i] <= 1.0 && alias[i] < |w|)
    && forall i :: 0 <= i < |w| ==> prob[i] + Given(prob, alias, AllDone(|w|), i, |w|) == |w| as real * w[i]
  }

  lemma InvStart(w: seq<real>, t: Work, scale: real, avg: real)
    requires Normalised(w) && scale == |w| as real && scale * avg == 1.0
    requires t.w == w && t.done == NoneDone(|w|) && Stacks(w, t, avg)
    ensures Inv(w, t, scale, avg)
  {
    forall i | 0 <= i < |w|
      ensures Balanced(w, t, scale, i)
    {
      NothingFinished(w, t.prob, t.alias, i, |w|);
    }
    NothingFinished(w, t.prob, t.alias, 0, |w|);
    TimesIsProduct(|w|, avg);
  }

  /** The table when only columns of average weight are left. */
  ghost predicate Ending(w0: seq<real>, t: Work, scale: real, avg: real) {
    && Stacks(w0, t, avg) && t.large == [] && scale * avg == 1.0
    && (forall i :: 0 <= i < |w0| ==> Balanced(w0, t, scale, i))
    && (forall i :: 0 <= i < |w0| && t.done[i] ==> 0.0 <= t.prob[i] <= 1.0)
    && (forall i :: 0 <= i < |w0| ==> t.alias[i] < |w0|)
    && forall i: nat :: i in t.small ==> t.w[i] == avg
  }

  function Finished(t: Work, small: seq<nat>, c: nat): Work
    requires c < |t.prob| == |t.done|
  {
    t.(prob := t.prob[c := 1.0], done := t.done[c := true], small := small)
  }

  lemma FinishBalance(w0: seq<real>, t: Work, scale: real, avg: real, small: seq<nat>, c: nat, i: nat)
    requires Sized(w0, t) && c < |w0| && i < |w0| && !t.done[c] && t.w[c] == avg && scale * avg == 1.0
    requires Balanced(w0, t, scale, i)
    ensures Balanced(w0, Finished(t, small, c), scale, i)
  {
    GivenStep(t.prob, t.alias, t.done, c, 1.0, t.alias[c], i, |w0|);
    assert t.alias[c := t.alias[c]] == t.alias;
    if i == c {
      Unit(scale, t.w[c], avg);
    }
  }

  lemma Unit(scale: real, x: real, avg: real)
    requires x == avg && scale * avg == 1.0
    ensures scale * x == 1.0
  {
  }

  lemma FinishKeeps(w0: seq<real>, t: Work, scale: real, avg: real, small: seq<nat>, c: nat)
    requires Ending(w0, t, scale, avg) && t.small == small + [c] && c < |w0|
    ensures Ending(w0, Finished(t, small, c), scale, avg)
  {
    assert c in t.small;
    LastOnce(t.small);
    assert t.small[..|t.small| - 1] == small;
    assert forall i: nat :: i in t.small <==> i in small || i == c;
    forall i | 0 <= i < |w0|
      ensures Balanced(w0, Finished(t, small, c), scale, i)
    {
      FinishBalance(w0, t, scale, avg, small, c, i);
    }
  }

  lemma EndRepresents(w0: seq<real>, t: Work, scale: real, avg: real)
    requires Ending(w0, t, scale, avg) && t.small == [] && scale == |w0| as real
    ensures Represents(t.prob, t.alias, w0)
  {
    assert t.done == AllDone(|w0|);
    forall i | 0 <= i < |w0|
      ensures t.prob[i] + Given(t.prob, t.alias, AllDone(|w0|), i, |w0|) == |w0| as real * w0[i]
    {
      assert Balanced(w0, t, scale, i);
    }
  }

  /** Finishing all that is left completes the table. */
  lemma {:induction false} FinishRepresents(w0: seq<real>, t: Work, scale: real, avg: real, prob: seq<real>)
    requires Ending(w0, t, scale, avg) && scale == |w0| as real && |prob| == |w0|
    requires forall i: nat :: i < |w0| ==> prob[i] == if i in t.small then 1.0 else t.prob[i]
    ensures Represents(prob, t.alias, w0)
    decreases |t.small|
  {
    if t.small == [] {
      assert prob == t.prob;
      EndRepresents(w0, t, scale, avg);
    } else {
      var small, c := t.small[..|t.small| - 1], t.small[|t.small| - 1];
      assert t.small == small + [c] && c in t.small;
      FinishKeeps(w0, t, scale, avg, small, c);
      FinishRepresents(w0, Finished(t, small, c), scale, avg, prob);
    }
  }

  // ---------------------------------------------------------------------------------------------------------
  // Only normalised weights have a table.

  /** What the first `m` columns are given by the first `k`. */
  ghost function GivenTo(prob: seq<real>, alias: seq<nat>, m: nat, k: nat): real
    requires k <= |prob| == |alias|
  {
    if m == 0 then 0.0 else GivenTo(prob, alias, m - 1, k) + Given(prob, alias, AllDone(|prob|), m - 1, k)
  }

  /** One more column passes on its rest, if its alias is among the first `m`. */
  lemma {:induction false} GivenToStep(prob: seq<real>, alias: seq<nat>, m: nat, k: nat)
    requires k < |prob| == |alias|
    ensures GivenTo(prob, alias, m, k + 1) == GivenTo(prob, alias, m, k) + if alias[k] < m then 1.0 - prob[k] else 0.0
  {
    if m > 0 {
      GivenToStep(prob, alias, m - 1, k);
    }
  }

  /** With every alias in range, all that is not kept is given to someone. */
  lemma {:induction false} GivenTotal(prob: seq<real>, alias: seq<nat>, k: nat)
    requires k <= |prob| == |alias| && forall i :: 0 <= i < |alias| ==> alias[i] < |alias|
    ensures GivenTo(prob, alias, |prob|, k) + SumTo(prob, k) == k as real
  {
    if k > 0 {
      GivenToStep(prob, alias, |prob|, k - 1);
      GivenTotal(prob, alias, k - 1);
    } else {
      NothingGiven(prob, alias, |prob|);
    }
  }

  lemma {:induction false} NothingGiven(prob: seq<real>, alias: seq<nat>, m: nat)
    requires |prob| == |alias|
    ensures GivenTo(prob, alias, m, 0) == 0.0
  {
    if m > 0 {
      NothingGiven(prob, alias, m - 1);
    }
  }

  lemma {:induction false} SumOfColumns(prob: seq<real>, alias: seq<nat>, w: seq<real>, m: nat)
    requires Represents(prob, alias, w) && m <= |w|
    ensures SumTo(prob, m) + GivenTo(prob, alias, m, |w|) == |w| as real * SumTo(w, m)
  {
    if m > 0 {
      SumOfColumns(prob, alias, w, m - 1);
      Spread(|w| as real, SumTo(w, m - 1), w[m - 1]);
    }
  }

  lemma Spread(a: real, b: real, c: real)
    ensures a * (b + c) == a * b + a * c
  {
  }

  lemma {:induction false} GivenNotNegative(prob: seq<real>, alias: seq<nat>, done: seq<bool>, i: nat, k: nat)
    requires k <= |prob| == |alias| == |done| && forall j :: 0 <= j < |prob| ==> prob[j] <= 1.0
    ensures Given(prob, alias, done, i, k) >= 0.0
  {
    if k > 0 {
      GivenNotNegative(prob, alias, done, i, k - 1);
    }
  }

  lemma Divisible(n: real, x: real, y: real)
    requires n > 0.0 && y == n * x
    ensures y >= 0.0 ==> x >= 0.0
    ensures y == n ==> x == 1.0
  {
  }

  lemma TotalIsOne(prob: seq<real>, alias: seq<nat>, w: seq<real>)
    requires w != [] && Represents(prob, alias, w)
    ensures SumTo(w, |w|) == 1.0
  {
    SumOfColumns(prob, alias, w, |w|);
    GivenTotal(prob, alias, |w|);
    Divisible(|w| as real, SumTo(w, |w|), |w| as real);
  }

  lemma NoneNegative(prob: seq<real>, alias: seq<nat>, w: seq<real>, i: nat)
    requires Represents(prob, alias, w) && i < |w|
    ensures w[i] >= 0.0
  {
    GivenNotNegative(prob, alias, AllDone(|w|), i, |w|);
    Divisible(|w| as real, w[i], prob[i] + Given(prob, alias, AllDone(|w|), i, |w|));
  }

  /** Whatever table it is, the weights it represents are not negative and sum to 1. */
  lemma OnlyNormalised(prob: seq<real>, alias: seq<nat>, w: seq<real>)
    requires w != [] && Represents(prob, alias, w)
    ensures Normalised(w)
  {
    TotalIsOne(prob, alias, w);
    forall i | 0 <= i < |w|
      ensures w[i] >= 0.0
    {
      NoneNegative(prob, alias, w, i);
    }
  }

  // ---------------------------------------------------------------------------------------------------------

  lemma PairStep(w0: seq<real>, t: Work, scale: real, avg: real, small: seq<nat>, large: seq<nat>, less: nat, more: nat,
                 p: real, good: bool)
    requires Stacks(w0, t, avg) && Tops(t, small, large, less, more) && (less < |t.w| ==> p == scale * t.w[less])
    requires good ==> Inv(w0, t, scale, avg)
    ensures less < |w0| && more < |w0| && |t.w| == |w0|
    ensures var r := Paired(t, small, large, less, more, avg, p);
            && Stacks(w0, r, avg) && OpenCount(r.done, |w0|) < OpenCount(t.done, |w0|)
            && (good ==> Inv(w0, r, scale, avg))
  {
    TopFacts(w0, t, avg, small, large, less, more);
    OpenClose(t.w, t.done, less, |w0|);
    PairedStacks(w0, t, p, avg, small, large, less, more);
    if good {
      PairedKeeps(w0, t, scale, avg, small, large, less, more, p);
    }
  }

  lemma StartStacks(w: seq<real>, t: Work, avg: real)
    requires |t.prob| == |t.alias| == |w| && t.w == w && t.done == NoneDone(|w|) && Distinct(t.small) && Distinct(t.large)
    requires forall i: nat :: i in t.small <==> i < |w| && w[i] <= avg
    requires forall i: nat :: i in t.large <==> i < |w| && w[i] > avg
    ensures Stacks(w, t, avg)
  {
  }

  lemma NoPairs(w: seq<real>, avg: real, small: seq<nat>, large: seq<nat>)
    requires forall i: nat :: i in small <==> i < |w| && w[i] <= avg
    requires forall i: nat :: i in large <==> i < |w| && w[i] > avg
    ensures OneSided(w, avg) ==> small == [] || large == []
  {
    if small != [] && large != [] {
      assert small[0] in small && large[0] in large;
    }
  }

  lemma Inverse(n: nat, avg: real)
    requires n > 0 && avg == 1.0 / n as real
    ensures n as real * avg == 1.0 && avg > 0.0
  {
  }

  lemma Stretch(n: nat, u: real)
    requires n > 0 && 0.0 <= u < 1.0
    ensures 0.0 <= n as real * u < n as real
  {
  }

  class AliasMethod {
    var prob: seq<real>
    var alias: seq<nat>

    constructor ()
      ensures prob == [] && alias == []
    {
      prob, alias := [], [];
    }

    /** Builds the table. It represents the weights exactly when they are normalised; where all columns are on one
        side of the average, as with all-zero weights, it is the uniform table. */
    method Init(weights: seq<real>)
      modifies this
      ensures |prob| == |alias| == |weights|
      ensures weights != [] ==> (Represents(prob, alias, weights) <==> Normalised(weights))
      ensures weights != [] && Normalised(weights) ==>
                forall i :: 0 <= i < |weights| ==> SumTo(Shares(prob, alias, i), |weights|) == |weights| as real * weights[i]
      ensures weights != [] && OneSided(weights, 1.0 / |weights| as real) ==>
                forall i :: 0 <= i < |weights| ==> prob[i] == 1.0
    {
      Build(weights);
      if Represents(prob, alias, weights) {
        DrawnByWeight(prob, alias, weights);
      }
    }

    method Build(weights: seq<real>)
      modifies this
      ensures |prob| == |alias| == |weights|
      ensures weights != [] ==> (Represents(prob, alias, weights) <==> Normalised(weights))
      ensures weights != [] && OneSided(weights, 1.0 / |weights| as real) ==>
                forall i :: 0 <= i < |weights| ==> prob[i] == 1.0
    {
      var n := |weights|;
      if n == 0 {
        prob, alias := [], [];
        return;
      }
      var avg := 1.0 / n as real;
      var small, large := Split(weights, avg);
      prob, alias := seq(n, i => 0.0), seq(n, i => 0);
      ghost var t := Work(weights, prob, alias, NoneDone(n), small, large);
      StartStacks(weights, t, avg);
      NoPairs(weights, avg, small, large);
      Fill(weights, avg, small, large, t);
      if Represents(prob, alias, weights) {
        OnlyNormalised(prob, alias, weights);
      }
    }

    /** Draws an item with two random numbers: one is scaled to a column, each column getting an equal stretch of it, the
        other is the coin. */
    method Next(u: real, coin: real) returns (item: nat, ghost column: nat)
      requires 0 < |prob| == |alias| && 0.0 <= u < 1.0
      ensures column < |prob| && column as real <= |prob| as real * u < (column + 1) as real
      ensures item == Draw(prob, alias, column, coin)
    {
      Stretch(|prob|, u);
      var c := (|prob| as real * u).Floor;
      item, column := if coin < prob[c] then c else alias[c], c;
    }

    /** Both passes over the stacks. */
    method Fill(weights: seq<real>, avg: real, small0: seq<nat>, large0: seq<nat>, ghost t0: Work)
      requires weights != [] && avg == 1.0 / |weights| as real
      requires t0 == Work(weights, prob, alias, NoneDone(|weights|), small0, large0) && Stacks(weights, t0, avg)
      requires forall i :: 0 <= i < |alias| ==> alias[i] < |weights|
      modifies this
      ensures |prob| == |alias| == |weights|
      ensures Normalised(weights) ==> Represents(prob, alias, weights)
      ensures small0 == [] || large0 == [] ==> forall i :: 0 <= i < |weights| ==> prob[i] == 1.0
    {
      ghost var good, scale := Normalised(weights), |weights| as real;
      Inverse(|weights|, avg);
      if good {
        InvStart(weights, t0, scale, avg);
      }
      var small, large;
      ghost var t;
      small, large, t := PairUp(weights, avg, small0, large0, t0, good);
      Finish(small);
      if good {
        FinishRepresents(weights, t, scale, avg, prob);
      }
      ghost var paired := prob;
      Finish(large);
      assert good ==> prob == paired;
    }

    /** Pairs small columns with large ones until one stack is empty. For normalised weights it is the large one, so the
        last of the source's loops, which finishes large columns, has nothing to do. */
    method PairUp(weights: seq<real>, avg: real, small0: seq<nat>, large0: seq<nat>, ghost t0: Work, ghost good: bool)
      returns (small: seq<nat>, large: seq<nat>, ghost t: Work)
      requires t0 == Work(weights, prob, alias, t0.done, small0, large0) && Stacks(weights, t0, avg)
      requires good ==> Inv(weights, t0, |weights| as real, avg)
      requires forall i :: 0 <= i < |alias| ==> alias[i] < |weights|
      modifies this
      ensures t.prob == prob && t.alias == alias && t.small == small && t.large == large && Stacks(weights, t, avg)
      ensures good ==> Ending(weights, t, |weights| as real, avg)
      ensures small0 == [] || large0 == [] ==> t == t0
    {
      var w := weights;
      small, large, t := small0, large0, t0;
      while |large| > 0 && |small| > 0
        invariant t == Work(w, prob, alias, t.done, small, large) && Stacks(weights, t, avg)
        invariant good ==> Inv(weights, t, |weights| as real, avg)
        invariant small0 == [] || large0 == [] ==> t == t0
        invariant forall i :: 0 <= i < |alias| ==> alias[i] < |weights|
        decreases OpenCount(t.done, |weights|)
      {
        w, small, large, t := PairTop(weights, w, avg, small, large, t, good);
      }
      if good {
        Leftovers(weights, t, |weights| as real, avg);
      }
    }

    method PairTop(ghost weights: seq<real>, w0: seq<real>, avg: real, small0: seq<nat>, large0: seq<nat>, ghost t0: Work,
                   ghost good: bool)
      returns (w: seq<real>, small: seq<nat>, large: seq<nat>, ghost t: Work)
      requires t0 == Work(w0, prob, alias, t0.done, small0, large0) && small0 != [] && large0 != []
      requires Stacks(weights, t0, avg) && forall i :: 0 <= i < |alias| ==> alias[i] < |weights|
      requires good ==> Inv(weights, t0, |weights| as real, avg)
      modifies this
      ensures t == Work(w, prob, alias, t.done, small, large) && Stacks(weights, t, avg)
      ensures good ==> Inv(weights, t, |weights| as real, avg)
      ensures forall i :: 0 <= i < |alias| ==> alias[i] < |weights|
      ensures OpenCount(t.done, |weights|) < OpenCount(t0.done, |weights|)
    {
      w, small, large := w0, small0[..|small0| - 1], large0[..|large0| - 1];
      var less, more := small0[|small0| - 1], large0[|large0| - 1];
      assert small0 == small + [less] && large0 == large + [more];
      assert less in t0.small;
      var p := w[less] * |w| as real;
      PairStep(weights, t0, |weights| as real, avg, small, large, less, more, p, good);
      t := Paired(t0, small, large, less, more, avg, p);
      prob := prob[less := p];
      alias := alias[less := more];
      w := w[more := w[more] + w[less] - avg];
      if w[more] > avg {
        large := large + [more];
      } else {
        small := small + [more];
      }
    }

    /** Columns that are left keep everything for themselves. */
    method Finish(stack: seq<nat>)
      requires forall i :: i in stack ==> i < |prob|
      modifies this`prob
      ensures |prob| == |old(prob)|
      ensures forall i: nat :: i < |prob| ==> prob[i] == if i in stack then 1.0 else old(prob)[i]
    {
      var rest := stack;
      while |rest| > 0
        invariant |prob| == |old(prob)| && forall i :: i in rest ==> i in stack
        invariant forall i: nat :: i in stack && i !in rest ==> prob[i] == 1.0
        invariant forall i: nat :: i < |prob| && i !in stack ==> prob[i] == old(prob)[i]
      {
        var column := rest[|rest| - 1];
        assert column in rest && rest == rest[..|rest| - 1] + [column];
        rest := rest[..|rest| - 1];
        prob := prob[column := 1.0];
      }
    }
  }

  /** First pass: each column goes to the stack of its side of the average. */
  method Split(w: seq<real>, avg: real) returns (small: seq<nat>, large: seq<nat>)
    ensures Distinct(small) && Distinct(large)
    ensures forall i: nat :: i in small <==> i < |w| && w[i] <= avg
    ensures forall i: nat :: i in large <==> i < |w| && w[i] > avg
    ensures (forall i :: 0 <= i < |w| ==> w[i] <= avg) ==> large == []
  {
    small, large := [], [];
    for i := 0 to |w|
      invariant Distinct(small) && Distinct(large)
      invariant forall k: nat :: k in small <==> k < i && w[k] <= avg
      invariant forall k: nat :: k in large <==> k < i && w[k] > avg
      invariant (forall k :: 0 <= k < i ==> w[k] <= avg) ==> large == []
    {
      if w[i] > avg {
        PushOnce(large, i);
        large := large + [i];
      } else {
        PushOnce(small, i);
        small := small + [i];
      }
    }
  }

  lemma {:induction false} SumQuotient(w: seq<real>, norm: seq<real>, total: real, k: nat)
    requires total != 0.0 && k <= |w| == |norm| && forall i :: 0 <= i < |w| ==> norm[i] == w[i] / total
    ensures SumTo(norm, k) == SumTo(w, k) / total
  {
    if k > 0 {
      SumQuotient(w, norm, total, k - 1);
    }
  }

  lemma {:induction false} SumPositive(w: seq<real>, k: nat, i: nat)
    requires i < k <= |w| && forall j :: 0 <= j < |w| ==> w[j] >= 0.0
    ensures SumTo(w, k) >= w[i]
  {
    if i < k - 1 {
      SumPositive(w, k - 1, i);
    } else {
      SumNotNegative(w, k - 1);
    }
  }

  lemma {:induction false} SumNotNegative(w: seq<real>, k: nat)
    requires k <= |w| && forall j :: 0 <= j < |w| ==> w[j] >= 0.0
    ensures SumTo(w, k) >= 0.0
  {
    if k > 0 {
      SumNotNegative(w, k - 1);
    }
  }

  class FastWeightedCollection<T> {
    var ids: seq<T>
    var weights: seq<real>
    const alias: AliasMethod
    var sumWeight: real

    constructor ()
      ensures fresh(alias)
    {
      ids, weights, sumWeight := [], [], 0.0;
      alias := new AliasMethod();
    }

    /** Normalises the weights and builds the table, which represents each weight's share of the sum exactly when no
        share is negative. When weights that are not negative sum to zero, every column keeps to itself. */
    method Init(ids: seq<T>, weights: seq<real>) returns (ok: bool)
      modifies this, alias
      ensures ok <==> |ids| == |weights|
      ensures ok ==> this.ids == ids && this.weights == weights && |alias.prob| == |alias.alias| == |weights|
      ensures ok && SumTo(weights, |weights|) != 0.0 ==>
                (Represents(alias.prob, alias.alias, Scaled(weights, SumTo(weights, |weights|))) <==>
                 Agree(weights, SumTo(weights, |weights|)))
      ensures ok && SumTo(weights, |weights|) == 0.0 && Agree(weights, 1.0) ==>
                forall i :: 0 <= i < |weights| ==> alias.prob[i] == 1.0
    {
      if |ids| != |weights| {
        return false;
      }
      this.ids, this.weights := ids, weights;
      sumWeight := 0.0;
      for i := 0 to |weights|
        invariant sumWeight == SumTo(weights, i) && this.ids == ids && this.weights == weights
      {
        sumWeight := sumWeight + weights[i];
      }
      ghost var total := sumWeight;
      sumWeight := if sumWeight == 0.0 then 1.0 else sumWeight;
      var norm := Scaled(weights, sumWeight);
      NormIsFit(weights, total, norm);
      if norm != [] {
        Inverse(|norm|, 1.0 / |norm| as real);
      }
      alias.Init(norm);
      ok := true;
    }
  }

  function Scaled(w: seq<real>, total: real): (norm: seq<real>)
    requires total != 0.0
    ensures |norm| == |w| && forall i :: 0 <= i < |w| ==> norm[i] == w[i] / total
  {
    seq(|w|, i requires 0 <= i < |w| => w[i] / total)
  }

  /** No weight has the opposite sign of the total. */
  predicate Agree(w: seq<real>, total: real) {
    forall i :: 0 <= i < |w| ==> if total > 0.0 then w[i] >= 0.0 else w[i] <= 0.0
  }

  /** After division the weights sum to one, and none is negative exactly when all agree with the total; weights
      that are not negative and sum to zero are zero. */
  lemma NormIsFit(w: seq<real>, total: real, norm: seq<real>)
    requires total == SumTo(w, |w|) && norm == Scaled(w, if total == 0.0 then 1.0 else total)
    ensures total != 0.0 ==> SumTo(norm, |w|) == 1.0 && (Normalised(norm) <==> Agree(w, total))
    ensures total == 0.0 && Agree(w, 1.0) ==> forall i :: 0 <= i < |norm| ==> norm[i] == 0.0
  {
    if total != 0.0 {
      SumQuotient(w, norm, total, |w|);
      Quotient(total, total);
      forall i | 0 <= i < |norm|
        ensures norm[i] >= 0.0 <==> if total > 0.0 then w[i] >= 0.0 else w[i] <= 0.0
      {
        Quotient(w[i], total);
      }
    } else if Agree(w, 1.0) {
      forall i | 0 <= i < |norm|
        ensures norm[i] == 0.0
      {
        SumPositive(w, |w|, i);
        Quotient(w[i], 1.0);
      }
    }
  }

  lemma Quotient(x: real, total: real)
    requires total != 0.0
    ensures x / total >= 0.0 <==> if total > 0.0 then x >= 0.0 else x <= 0.0
    ensures x == total ==> x / total == 1.0
    ensures x == 0.0 ==> x / total == 0.0
  {
    var q := x / total;
    assert q * total == x;
    if q > 0.0 && total > 0.0 {
      ProductNotNegative(q, total);
    }
  }
}
