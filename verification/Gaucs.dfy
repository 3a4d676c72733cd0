/** Grouped AUC: the trapezoid sum of one group counts ordered pairs, and the scan picks the inner runs. */
module Gaucs {
  /** Binary labels: 1 for a click, 0 for none. */
  ghost predicate Binary(labels: seq<real>) {
    forall i :: 0 <= i < |labels| ==> labels[i] == 0.0 || labels[i] == 1.0
  }

  ghost predicate InGroup(order: seq<nat>, labels: seq<real>) {
    forall k :: 0 <= k < |order| ==> order[k] < |labels|
  }

  /** `order` lists positions of a group by ascending prediction. */
  ghost predicate Sorted(order: seq<nat>, labels: seq<real>, preds: seq<real>) {
    && |labels| == |preds| && InGroup(order, labels)
    && forall a, b :: 0 <= a < b < |order| ==> preds[order[a]] <= preds[order[b]]
  }

  function Clicks(order: seq<nat>, labels: seq<real>, k: nat): real
    requires k <= |order| && InGroup(order, labels)
  {
    if k == 0 then 0.0 else Clicks(order, labels, k - 1) + labels[order[k - 1]]
  }

  /** Pairs of a click and a non-click, the click listed first. */
  function Inverted(order: seq<nat>, labels: seq<real>, k: nat): real
    requires k <= |order| && InGroup(order, labels)
  {
    if k == 0 then 0.0
    else Inverted(order, labels, k - 1) + if labels[order[k - 1]] == 0.0 then Clicks(order, labels, k - 1) else 0.0
  }

  /** How one prediction compares with another. */
  datatype Side = Lower | Tied | Higher

  predicate On(side: Side, x: real, y: real) {
    match side
    case Lower => x < y
    case Tied => x == y
    case Higher => x > y
  }

  /** Clicks of the group that are predicted on the given side of position `b`. */
  function ClicksOn(side: Side, order: seq<nat>, labels: seq<real>, preds: seq<real>, b: nat, k: nat): real
    requires k <= |order| && b < |preds| == |labels| && InGroup(order, labels)
  {
    if k == 0 then 0.0
    else ClicksOn(side, order, labels, preds, b, k - 1)
         + if On(side, preds[order[k - 1]], preds[b]) then labels[order[k - 1]] else 0.0
  }

  /** Pairs of a click and a non-click, the click predicted on the given side. */
  function PairsOn(side: Side, order: seq<nat>, labels: seq<real>, preds: seq<real>, k: nat): real
    requires k <= |order| && |preds| == |labels| && InGroup(order, labels)
  {
    if k == 0 then 0.0
    else PairsOn(side, order, labels, preds, k - 1)
         + if labels[order[k - 1]] == 0.0 then ClicksOn(side, order, labels, preds, order[k - 1], |order|) else 0.0
  }

  /** Clicks listed before a position are all those predicted lower, and some of those tied with it. */
  lemma {:induction false} BeforeIsLower(order: seq<nat>, labels: seq<real>, preds: seq<real>, b: nat, k: nat)
    requires Sorted(order, labels, preds) && Binary(labels) && b < |order| && k <= |order|
    ensures var before := Clicks(order, labels, if k < b then k else b);
            && ClicksOn(Lower, order, labels, preds, order[b], k) <= before
            && before <= ClicksOn(Lower, order, labels, preds, order[b], k) + ClicksOn(Tied, order, labels, preds, order[b], k)
  {
    if k > 0 {
      BeforeIsLower(order, labels, preds, b, k - 1);
      if k - 1 < b {
        assert preds[order[k - 1]] <= preds[order[b]];
      } else if k - 1 > b {
        assert preds[order[b]] <= preds[order[k - 1]];
      }
    }
  }

  /** The pairs listed the wrong way round are all those predicted so, and some of the tied ones. */
  lemma {:induction false} InvertedIsLower(order: seq<nat>, labels: seq<real>, preds: seq<real>, k: nat)
    requires Sorted(order, labels, preds) && Binary(labels) && k <= |order|
    ensures PairsOn(Lower, order, labels, preds, k) <= Inverted(order, labels, k)
    ensures Inverted(order, labels, k) <= PairsOn(Lower, order, labels, preds, k) + PairsOn(Tied, order, labels, preds, k)
  {
    if k > 0 {
      InvertedIsLower(order, labels, preds, k - 1);
      BeforeIsLower(order, labels, preds, k - 1, |order|);
    }
  }

  datatype Group = Group(ok: bool, auc: real, clicks: real)

  /** The share of pairs that are not inverted; -0.5 when there are no pairs. */
  function Auc(inverted: real, tp: real, fp: real): real {
    if tp * fp > 0.0 then 1.0 - inverted / (tp * fp) else -0.5
  }

  ghost predicate HasLabel(order: seq<nat>, labels: seq<real>, x: real)
    requires InGroup(order, labels)
  {
    exists k :: 0 <= k < |order| && labels[order[k]] == x
  }

  lemma {:induction false} ClicksCount(order: seq<nat>, labels: seq<real>, k: nat)
    requires InGroup(order, labels) && Binary(labels) && k <= |order|
    ensures 0.0 <= Clicks(order, labels, k) <= k as real
    ensures Clicks(order, labels, k) == 0.0 <==> forall m :: 0 <= m < k ==> labels[order[m]] != 1.0
    ensures Clicks(order, labels, k) == k as real <==> forall m :: 0 <= m < k ==> labels[order[m]] != 0.0
  {
    if k > 0 {
      ClicksCount(order, labels, k - 1);
      assert labels[order[k - 1]] == 0.0 || labels[order[k - 1]] == 1.0;
    }
  }

  lemma NextBound(fp: real, tp: real, inverted: real)
    requires fp >= 0.0 && tp >= 0.0 && inverted <= Times(fp, tp)
    ensures inverted + tp <= Times(fp + 1.0, tp) && inverted <= Times(fp, tp + 1.0)
  {
    OneMoreTime(fp, tp);
    OneMoreTime(tp, fp);
    assert Times(fp, tp) == Times(tp, fp) && Times(fp, tp + 1.0) == Times(tp + 1.0, fp);
  }

  /** There are no more inverted pairs than pairs. */
  lemma {:induction false} InvertedBound(order: seq<nat>, labels: seq<real>, k: nat)
    requires InGroup(order, labels) && Binary(labels) && k <= |order|
    ensures 0.0 <= Inverted(order, labels, k) <= Times(k as real - Clicks(order, labels, k), Clicks(order, labels, k))
  {
    if k > 0 {
      InvertedBound(order, labels, k - 1);
      ClicksCount(order, labels, k - 1);
      var tp := Clicks(order, labels, k - 1);
      NextBound((k - 1) as real - tp, tp, Inverted(order, labels, k - 1));
      assert labels[order[k - 1]] == 1.0 ==> k as real - (tp + 1.0) == (k - 1) as real - tp;
      assert labels[order[k - 1]] == 0.0 ==> k as real - tp == (k - 1) as real - tp + 1.0;
    }
  }

  lemma AucBetween(inverted: real, tp: real, fp: real)
    requires tp >= 0.0 && fp >= 0.0 && 0.0 <= inverted <= Times(fp, tp)
    ensures if tp > 0.0 && fp > 0.0 then 0.0 <= Auc(inverted, tp, fp) <= 1.0 else Auc(inverted, tp, fp) == -0.5
  {
    NoPairs(tp, fp);
    Positive(tp, fp);
    if tp > 0.0 && fp > 0.0 {
      ShareRange(inverted, tp * fp);
    }
  }

  /** With one class the value is -0.5, with both a share. */
  lemma AucRange(order: seq<nat>, labels: seq<real>)
    requires InGroup(order, labels) && Binary(labels)
    ensures var tp := Clicks(order, labels, |order|);
            var auc := Auc(Inverted(order, labels, |order|), tp, |order| as real - tp);
            if HasLabel(order, labels, 1.0) && HasLabel(order, labels, 0.0) then 0.0 <= auc <= 1.0 else auc == -0.5
  {
    var tp := Clicks(order, labels, |order|);
    ClicksCount(order, labels, |order|);
    assert tp > 0.0 <==> HasLabel(order, labels, 1.0);
    assert |order| as real - tp > 0.0 <==> HasLabel(order, labels, 0.0);
    InvertedBound(order, labels, |order|);
    AucBetween(Inverted(order, labels, |order|), tp, |order| as real - tp);
  }

  lemma ShareRange(inverted: real, x: real)
    requires 0.0 <= inverted <= x && x > 0.0
    ensures 0.0 <= 1.0 - inverted / x <= 1.0
  {
    Quotients(inverted, x - inverted, x);
    InOrder(0.0, x - inverted, x);
    InOrder(0.0, inverted, x);
  }

  /** One pass over a group in the order the sort left it in. Binary labels, one column of them, no filter. */
  method ComputeGauc(order: seq<nat>, labels: seq<real>) returns (g: Group)
    requires InGroup(order, labels) && Binary(labels)
    ensures g.ok && g.clicks == Clicks(order, labels, |order|)
    ensures g.auc == Auc(Inverted(order, labels, |order|), g.clicks, |order| as real - g.clicks)
    ensures !HasLabel(order, labels, 1.0) || !HasLabel(order, labels, 0.0) ==> g.auc == -0.5
    ensures HasLabel(order, labels, 1.0) && HasLabel(order, labels, 0.0) ==> 0.0 <= g.auc <= 1.0
  {
    AucRange(order, labels);
    g := Evaluate(order, labels);
  }

  method Evaluate(order: seq<nat>, labels: seq<real>) returns (g: Group)
    requires InGroup(order, labels) && Binary(labels)
    ensures g.ok && g.clicks == Clicks(order, labels, |order|)
    ensures g.auc == Auc(Inverted(order, labels, |order|), g.clicks, |order| as real - g.clicks)
  {
    var fp, tp, auc, count := Sweep(order, labels);
    var threshold := |order| as real - 0.001;
    WholeGap(count, |order|);
    NoPairs(tp, fp);
    if tp > threshold || fp > threshold {
      return Group(true, -0.5, tp);
    }
    Positive(tp, fp);
    TwiceOver(auc, Inverted(order, labels, |order|), tp, fp);
    if tp * fp > 0.0 {
      return Group(true, 1.0 - auc / (2.0 * tp * fp), tp);
    }
    assert false;
    g := Group(false, 0.0, tp);
  }

  /** The running sums; every non-click adds twice the clicks before it. */
  method Sweep(order: seq<nat>, labels: seq<real>) returns (fp: real, tp: real, auc: real, ghost count: nat)
    requires InGroup(order, labels) && Binary(labels)
    ensures count <= |order| && tp == count as real == Clicks(order, labels, |order|) && fp == |order| as real - tp
    ensures auc == 2.0 * Inverted(order, labels, |order|)
  {
    var fp1, tp1, fp2, tp2 := 0.0, 0.0, 0.0, 0.0;
    auc, count := 0.0, 0;
    for k := 0 to |order|
      invariant tp1 == tp2 == Clicks(order, labels, k) && fp1 == fp2 == k as real - tp2
      invariant count <= k && tp2 == count as real
      invariant auc == 2.0 * Inverted(order, labels, k)
    {
      var i := order[k];
      fp2 := fp2 + (1.0 - labels[i]);
      tp2 := tp2 + labels[i];
      auc := AddArea(auc, fp1, tp1, fp2, tp2, labels[i]);
      fp1, tp1 := fp2, tp2;
      if labels[i] == 1.0 {
        count := count + 1;
      }
    }
    fp, tp := fp2, tp2;
  }

  /** One trapezoid: of width 1 at a non-click and without width at a click. */
  method AddArea(auc: real, fp1: real, tp1: real, fp2: real, tp2: real, ghost click: real) returns (sum: real)
    requires (click == 0.0 || click == 1.0) && fp2 == fp1 + (1.0 - click) && tp2 == tp1 + click
    ensures sum == auc + if click == 0.0 then 2.0 * tp1 else 0.0
  {
    Area(fp2 - fp1, tp2 + tp1, tp1, click);
    sum := auc + (fp2 - fp1) * (tp2 + tp1);
  }

  lemma Area(width: real, height: real, tp: real, click: real)
    requires (click == 0.0 || click == 1.0) && width == 1.0 - click && height == tp + click + tp
    ensures width * height == if click == 0.0 then 2.0 * tp else 0.0
  {
  }

  /** A whole number of clicks is within a thousandth of the total only if it is the total. */
  lemma WholeGap(count: nat, n: nat)
    requires count <= n
    ensures count as real > n as real - 0.001 <==> count == n
    ensures n as real - count as real > n as real - 0.001 <==> count == 0
  {
    assert count < n ==> count as real <= n as real - 1.0;
    assert count > 0 ==> count as real >= 1.0;
  }

  lemma NoPairs(tp: real, fp: real)
    ensures tp == 0.0 || fp == 0.0 ==> tp * fp == 0.0
  {
  }

  lemma Positive(a: real, b: real)
    requires a >= 0.0 && b >= 0.0
    ensures a > 0.0 && b > 0.0 ==> a * b > 0.0
  {
  }

  lemma TwiceOver(auc: real, pairs: real, tp: real, fp: real)
    requires auc == 2.0 * pairs
    ensures tp * fp > 0.0 ==> 2.0 * tp * fp != 0.0 && auc / (2.0 * tp * fp) == pairs / (tp * fp)
  {
    if tp * fp > 0.0 {
      var x := tp * fp;
      assert 2.0 * tp * fp == 2.0 * x;
      HalfBoth(pairs, x);
    }
  }

  lemma HalfBoth(p: real, x: real)
    requires x > 0.0
    ensures (2.0 * p) / (2.0 * x) == p / x
  {
    assert p / x * (2.0 * x) == 2.0 * p;
  }

  lemma {:induction false} EverySide(order: seq<nat>, labels: seq<real>, preds: seq<real>, b: nat, k: nat)
    requires |labels| == |preds| && InGroup(order, labels) && b < |labels| && k <= |order|
    ensures ClicksOn(Lower, order, labels, preds, b, k) + ClicksOn(Tied, order, labels, preds, b, k)
            + ClicksOn(Higher, order, labels, preds, b, k) == Clicks(order, labels, k)
  {
    if k > 0 {
      EverySide(order, labels, preds, b, k - 1);
    }
  }

  /** Every pair of a click and a non-click is on one side or tied. */
  lemma {:induction false} PairsSplit(order: seq<nat>, labels: seq<real>, preds: seq<real>, k: nat)
    requires |labels| == |preds| && InGroup(order, labels) && Binary(labels) && k <= |order|
    ensures PairsOn(Lower, order, labels, preds, k) + PairsOn(Tied, order, labels, preds, k)
            + PairsOn(Higher, order, labels, preds, k)
            == Times(k as real - Clicks(order, labels, k), Clicks(order, labels, |order|))
  {
    var all := Clicks(order, labels, |order|);
    if k > 0 {
      PairsSplit(order, labels, preds, k - 1);
      var before := (k - 1) as real - Clicks(order, labels, k - 1);
      if labels[order[k - 1]] == 0.0 {
        EverySide(order, labels, preds, order[k - 1], |order|);
        OneMoreTime(before, all);
      }
    }
  }

  function Times(a: real, b: real): real {
    a * b
  }

  lemma OneMoreTime(a: real, b: real)
    ensures Times(a + 1.0, b) == Times(a, b) + b
  {
  }

  /** The value of a sorted group with clicks and non-clicks is the share of pairs in which the click is predicted
      higher, counting some of the tied pairs, as the sort left them: with none tied it is exactly that share. */
  lemma IsPairShare(order: seq<nat>, labels: seq<real>, preds: seq<real>, tp: real, fp: real)
    requires Sorted(order, labels, preds) && Binary(labels)
    requires tp == Clicks(order, labels, |order|) && fp == |order| as real - tp && tp * fp > 0.0
    ensures var n, auc := |order|, Auc(Inverted(order, labels, |order|), tp, fp);
            && PairsOn(Higher, order, labels, preds, n) / (tp * fp) <= auc
            && auc <= (PairsOn(Higher, order, labels, preds, n) + PairsOn(Tied, order, labels, preds, n)) / (tp * fp)
            && (PairsOn(Tied, order, labels, preds, n) == 0.0 ==>
                auc == PairsOn(Higher, order, labels, preds, n) / (tp * fp))
  {
    var n, x := |order|, tp * fp;
    InvertedIsLower(order, labels, preds, n);
    PairsSplit(order, labels, preds, n);
    assert Times(fp, tp) == x;
    Share(Inverted(order, labels, n), PairsOn(Lower, order, labels, preds, n), PairsOn(Tied, order, labels, preds, n),
          PairsOn(Higher, order, labels, preds, n), x);
  }

  lemma Share(inverted: real, low: real, tied: real, high: real, x: real)
    requires x > 0.0 && low + tied + high == x && low <= inverted <= low + tied
    ensures high / x <= 1.0 - inverted / x <= (high + tied) / x
    ensures tied == 0.0 ==> 1.0 - inverted / x == high / x
  {
    Quotients(inverted, x - inverted, x);
    InOrder(high, x - inverted, x);
    InOrder(x - inverted, high + tied, x);
  }

  lemma Quotients(a: real, b: real, x: real)
    requires x > 0.0 && a + b == x
    ensures 1.0 - a / x == b / x
  {
    assert a / x + b / x == (a + b) / x == 1.0;
  }

  lemma InOrder(a: real, b: real, x: real)
    requires x > 0.0 && a <= b
    ensures a / x <= b / x
  {
  }

  /** Two tied predictions, one clicked: the value is 0 or 1 as the sort happens to list them. */
  lemma TiesAreOpen()
    ensures var labels, preds := [1.0, 0.0], [0.5, 0.5];
            && Sorted([0, 1], labels, preds) && Sorted([1, 0], labels, preds)
            && Clicks([0, 1], labels, 2) == Clicks([1, 0], labels, 2) == 1.0
            && Auc(Inverted([0, 1], labels, 2), 1.0, 1.0) == 0.0 && Auc(Inverted([1, 0], labels, 2), 1.0, 1.0) == 1.0
  {
    var labels := [1.0, 0.0];
    assert Clicks([0, 1], labels, 1) == 1.0 && Clicks([1, 0], labels, 1) == 0.0;
    assert Inverted([0, 1], labels, 1) == 0.0 && Inverted([1, 0], labels, 1) == 0.0;
    assert Inverted([0, 1], labels, 2) == 1.0 && Inverted([1, 0], labels, 2) == 0.0;
  }

  // ---------------------------------------------------------------------------------------------------------

  datatype Range = Range(begin: nat, end: nat)

  /** Maximal runs of equal indicators. */
  function Runs(ind: seq<int>): (rs: seq<Range>)
    ensures ind != [] ==> rs != [] && rs[|rs| - 1].end == |ind|
  {
    if ind == [] then [] else NextRuns(Runs(ind[..|ind| - 1]), ind)
  }

  function NextRuns(rs: seq<Range>, ind: seq<int>): (r: seq<Range>)
    requires ind != [] && (|ind| > 1 ==> rs != [])
    ensures r != [] && r[|r| - 1].end == |ind|
  {
    var n := |ind| - 1;
    if n > 0 && ind[n] == ind[n - 1] then rs[..|rs| - 1] + [Range(rs[|rs| - 1].begin, n + 1)] else rs + [Range(n, n + 1)]
  }

  ghost predicate Constant(ind: seq<int>, r: Range) {
    r.begin < r.end <= |ind| && forall i :: r.begin <= i < r.end ==> ind[i] == ind[r.begin]
  }

  /** `b` follows `a` with another value. */
  ghost predicate Follows(ind: seq<int>, a: Range, b: Range) {
    b.begin == a.end && a.begin < |ind| && b.begin < |ind| && ind[b.begin] != ind[a.begin]
  }

  /** What the runs are: they cover the sequence in order, each is constant, neighbours differ. */
  ghost predicate AreRuns(ind: seq<int>, rs: seq<Range>) {
    && (forall k :: 0 <= k < |rs| ==> Constant(ind, rs[k]))
    && (forall k :: 0 < k < |rs| ==> Follows(ind, rs[k - 1], rs[k]))
    && (|rs| > 0 ==> rs[0].begin == 0 && rs[|rs| - 1].end == |ind|)
    && (ind != [] <==> |rs| > 0)
  }

  /** Runs of all but the last element are still runs, apart from covering. */
  ghost predicate Chain(ind: seq<int>, rs: seq<Range>) {
    && (forall k :: 0 <= k < |rs| ==> Constant(ind, rs[k]))
    && forall k :: 0 < k < |rs| ==> Follows(ind, rs[k - 1], rs[k])
  }

  lemma ChainOfPrefix(ind: seq<int>, rs: seq<Range>)
    requires ind != [] && AreRuns(ind[..|ind| - 1], rs)
    ensures Chain(ind, rs)
  {
    var init := ind[..|ind| - 1];
    forall k | 0 <= k < |rs|
      ensures Constant(ind, rs[k])
    {
      assert Constant(init, rs[k]);
    }
    forall k | 0 < k < |rs|
      ensures Follows(ind, rs[k - 1], rs[k])
    {
      assert Follows(init, rs[k - 1], rs[k]);
    }
  }

  lemma ChainPush(ind: seq<int>, rs: seq<Range>, r: Range)
    requires Chain(ind, rs) && Constant(ind, r) && (rs != [] ==> Follows(ind, rs[|rs| - 1], r))
    ensures Chain(ind, rs + [r])
  {
  }

  lemma ChainStretch(ind: seq<int>, rs: seq<Range>, r: Range)
    requires Chain(ind, rs) && rs != [] && Constant(ind, r) && r.begin == rs[|rs| - 1].begin
    ensures Chain(ind, rs[..|rs| - 1] + [r])
  {
    var n := |rs| - 1;
    assert n > 0 ==> Follows(ind, rs[n - 1], rs[n]);
    ChainPush(ind, rs[..n], r);
  }

  lemma RunsStep(ind: seq<int>, rs: seq<Range>)
    requires ind != [] && AreRuns(ind[..|ind| - 1], rs)
    ensures (|ind| > 1 ==> rs != []) && AreRuns(ind, NextRuns(rs, ind))
  {
    var n := |ind| - 1;
    ChainOfPrefix(ind, rs);
    if n == 0 {
      ChainPush(ind, rs, Range(0, 1));
    } else {
      LastRun(ind, rs[|rs| - 1], n);
      if ind[n] == ind[n - 1] {
        ChainStretch(ind, rs, Range(rs[|rs| - 1].begin, n + 1));
      } else {
        ChainPush(ind, rs, Range(n, n + 1));
      }
    }
  }

  lemma LastRun(ind: seq<int>, last: Range, n: nat)
    requires n == |ind| - 1 && Constant(ind, last) && last.end == n
    ensures ind[n] == ind[n - 1] ==> Constant(ind, Range(last.begin, n + 1))
    ensures ind[n] != ind[n - 1] ==> Follows(ind, last, Range(n, n + 1))
    ensures Constant(ind, Range(n, n + 1))
  {
    assert ind[n - 1] == ind[last.begin];
  }

  lemma {:induction false} RunsAreRuns(ind: seq<int>)
    ensures AreRuns(ind, Runs(ind))
  {
    if ind != [] {
      RunsAreRuns(ind[..|ind| - 1]);
      RunsStep(ind, Runs(ind[..|ind| - 1]));
    }
  }

  /** A maximal run, said of the indicator alone: constant, and another value (or nothing) on either side. */
  ghost predicate IsRun(ind: seq<int>, r: Range) {
    && Constant(ind, r)
    && (r.begin > 0 ==> ind[r.begin - 1] != ind[r.begin])
    && (r.end < |ind| ==> ind[r.end] != ind[r.begin])
  }

  /** All runs but the first and the last. */
  function Inner(rs: seq<Range>): seq<Range> {
    if |rs| <= 2 then [] else rs[1..|rs| - 1]
  }

  lemma {:induction false} RunCovering(ind: seq<int>, rs: seq<Range>, p: nat) returns (k: nat)
    requires Chain(ind, rs) && rs != [] && rs[0].begin <= p < rs[|rs| - 1].end
    ensures k < |rs| && rs[k].begin <= p < rs[k].end
  {
    var n := |rs| - 1;
    if rs[n].begin <= p {
      k := n;
    } else {
      assert Follows(ind, rs[n - 1], rs[n]);
      k := RunCovering(ind, rs[..n], p);
    }
  }

  lemma RunAt(ind: seq<int>, rs: seq<Range>, k: nat)
    requires AreRuns(ind, rs) && k < |rs|
    ensures IsRun(ind, rs[k]) && (rs[k].begin > 0 <==> k > 0) && (rs[k].end < |ind| <==> k < |rs| - 1)
  {
    assert Constant(ind, rs[k]);
    if k > 0 {
      assert Follows(ind, rs[k - 1], rs[k]) && Constant(ind, rs[k - 1]);
    }
    if k < |rs| - 1 {
      assert Follows(ind, rs[k], rs[k + 1]) && Constant(ind, rs[k + 1]);
    }
  }

  lemma SameRun(ind: seq<int>, a: Range, b: Range)
    requires IsRun(ind, a) && IsRun(ind, b) && a.begin <= b.begin < a.end
    ensures a == b
  {
  }

  lemma InInner(rs: seq<Range>, r: Range)
    ensures r in Inner(rs) <==> exists k :: 0 < k < |rs| - 1 && rs[k] == r
  {
    if r in Inner(rs) {
      var k :| 0 <= k < |Inner(rs)| && Inner(rs)[k] == r;
      assert rs[k + 1] == r;
    }
    if k :| 0 < k < |rs| - 1 && rs[k] == r {
      assert Inner(rs)[k - 1] == r;
    }
  }

  lemma WhichRun(ind: seq<int>, rs: seq<Range>, r: Range) returns (k: nat)
    requires AreRuns(ind, rs) && IsRun(ind, r)
    ensures k < |rs| && rs[k] == r
  {
    k := RunCovering(ind, rs, r.begin);
    RunAt(ind, rs, k);
    SameRun(ind, rs[k], r);
  }

  lemma InnerHas(ind: seq<int>, rs: seq<Range>, r: Range)
    requires AreRuns(ind, rs)
    ensures r in Inner(rs) <==> IsRun(ind, r) && 0 < r.begin && r.end < |ind|
  {
    InInner(rs, r);
    if k: nat :| 0 < k < |rs| - 1 && rs[k] == r {
      RunAt(ind, rs, k);
    } else if IsRun(ind, r) {
      var k := WhichRun(ind, rs, r);
      RunAt(ind, rs, k);
    }
  }

  /** The inner runs: every maximal run that starts behind the first element and ends before the last, in order. */
  lemma InnerRuns(ind: seq<int>)
    ensures forall r :: r in Inner(Runs(ind)) <==> IsRun(ind, r) && 0 < r.begin && r.end < |ind|
    ensures forall k :: 0 < k < |Inner(Runs(ind))| ==> Inner(Runs(ind))[k].begin == Inner(Runs(ind))[k - 1].end
  {
    RunsAreRuns(ind);
    forall r
      ensures r in Inner(Runs(ind)) <==> IsRun(ind, r) && 0 < r.begin && r.end < |ind|
    {
      InnerHas(ind, Runs(ind), r);
    }
    forall k | 0 < k < |Inner(Runs(ind))|
      ensures Inner(Runs(ind))[k].begin == Inner(Runs(ind))[k - 1].end
    {
      assert Follows(ind, Runs(ind)[k], Runs(ind)[k + 1]);
    }
  }

  lemma InnerNext(rs: seq<Range>, r: Range)
    ensures |rs| >= 2 ==> Inner(rs + [r]) == Inner(rs) + [rs[|rs| - 1]]
    ensures |rs| <= 1 ==> Inner(rs + [r]) == []
    ensures |rs| >= 1 ==> Inner(rs[..|rs| - 1] + [r]) == Inner(rs)
  {
  }

  /** The scan after `end` elements: `begin` is where the current run started. */
  ghost predicate Scanned(ind: seq<int>, end: nat, rs: seq<Range>, begin: nat, first: bool, groups: seq<Range>)
    requires end <= |ind|
  {
    && rs == Runs(ind[..end]) && groups == Inner(rs) && (first <==> |rs| <= 1)
    && (if end == 0 then begin == 0 && rs == []
        else begin < end && ind[begin] == ind[end - 1] && |rs| > 0 && rs[|rs| - 1] == Range(begin, end))
  }

  lemma RunsNext(ind: seq<int>, end: nat)
    requires end < |ind|
    ensures Runs(ind[..end + 1]) == NextRuns(Runs(ind[..end]), ind[..end + 1])
  {
    assert ind[..end + 1][..end] == ind[..end];
  }

  lemma ScanStep(ind: seq<int>, end: nat, rs: seq<Range>, begin: nat, first: bool, groups: seq<Range>)
    requires end < |ind| && Scanned(ind, end, rs, begin, first, groups)
    ensures begin <= end
    ensures ind[end] == ind[begin] ==> Scanned(ind, end + 1, NextRuns(rs, ind[..end + 1]), begin, first, groups)
    ensures ind[end] != ind[begin] ==>
              Scanned(ind, end + 1, NextRuns(rs, ind[..end + 1]), end, false,
                      if first then groups else groups + [Range(begin, end)])
  {
    RunsNext(ind, end);
    InnerNext(rs, Range(begin, end + 1));
    InnerNext(rs, Range(end, end + 1));
  }

  /** The scan of the groups: it hands out a run when the next one starts, and skips the first. */
  method Scan(ind: seq<int>) returns (groups: seq<Range>)
    ensures groups == Inner(Runs(ind))
    ensures forall r :: r in groups <==> IsRun(ind, r) && 0 < r.begin && r.end < |ind|
    ensures forall k :: 0 < k < |groups| ==> groups[k].begin == groups[k - 1].end
  {
    groups := ScanRuns(ind);
    InnerRuns(ind);
  }

  method ScanRuns(ind: seq<int>) returns (groups: seq<Range>)
    ensures groups == Inner(Runs(ind))
  {
    groups := [];
    var first, begin := true, 0;
    ghost var rs: seq<Range> := [];
    for end := 0 to |ind|
      invariant Scanned(ind, end, rs, begin, first, groups)
    {
      ScanStep(ind, end, rs, begin, first, groups);
      rs := NextRuns(rs, ind[..end + 1]);
      if ind[end] == ind[begin] {
        continue;
      }
      if first {
        first := false;
      } else {
        groups := groups + [Range(begin, end)];
      }
      begin := end;
    }
    assert ind[..|ind|] == ind;
  }
}
