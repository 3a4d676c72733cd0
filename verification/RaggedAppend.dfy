/** Appending a run of rows of one ragged tensor to another, level by level. */
module RaggedAppend {
  import opened Ragged

  datatype Tensor<T> = Tensor(splits: seq<seq<nat>>, values: seq<T>) {
    ghost predicate Ok() {
      WellFormed(splits, |values|)
    }

    /** Number of rows. */
    function Rows(): int {
      Count(splits, |values|)
    }

    ghost function RowOf(i: nat): Nested<T>
      requires Ok() && i < Rows()
    {
      Row(splits, values, i)
    }
  }

  /** No rows yet: one split point per level. */
  function Empty<T>(rank: nat): (t: Tensor<T>)
    ensures |t.splits| == rank
  {
    Tensor(seq(rank, d => [0]), [])
  }

  lemma {:induction false} EmptyOk<T>(rank: nat)
    ensures Empty<T>(rank).Ok() && Empty<T>(rank).Rows() == 0
  {
    if rank > 0 {
      EmptyOk<T>(rank - 1);
      assert Empty<T>(rank).splits[1..] == Empty<T>(rank - 1).splits;
    }
  }

  /** The split points of segments `b..e`, moved to start at `base`. */
  function Shifted(split: seq<nat>, b: nat, e: nat, base: nat): (s: seq<nat>)
    requires IsSplit(split) && b <= e < |split|
    ensures |s| == e - b
  {
    seq(e - b, l requires 0 <= l < e - b => ShiftedPoint(split, b, l, base))
  }

  function ShiftedPoint(split: seq<nat>, b: nat, l: nat, base: nat): nat
    requires IsSplit(split) && b + 1 + l < |split|
  {
    SplitMono(split, b, b + 1 + l);
    base + split[b + 1 + l] - split[b]
  }

  /** Rows `b..e` of `src` appended to `out`. */
  ghost function Extend<T>(out: Tensor<T>, src: Tensor<T>, b: nat, e: nat): (r: Tensor<T>)
    requires out.Ok() && src.Ok() && |out.splits| == |src.splits| && b <= e <= src.Rows()
    ensures |r.splits| == |out.splits|
    decreases |out.splits|
  {
    if out.splits == [] then Tensor([], out.values + src.values[b..e])
    else
      var o, s := out.splits[0], src.splits[0];
      SplitMono(s, b, e);
      SplitMono(s, e, |s| - 1);
      var inner := Extend(Tensor(out.splits[1..], out.values), Tensor(src.splits[1..], src.values), s[b], s[e]);
      Tensor([o + Shifted(s, b, e, o[|o| - 1])] + inner.splits, inner.values)
  }

  lemma {:induction false} ShiftedKeepsSplit(o: seq<nat>, s: seq<nat>, b: nat, e: nat)
    requires IsSplit(o) && IsSplit(s) && b <= e < |s|
    ensures var r := o + Shifted(s, b, e, o[|o| - 1]);
            IsSplit(r) && r[|r| - 1] + s[b] == o[|o| - 1] + s[e]
  {
    var base := o[|o| - 1];
    if b == e {
      assert o + Shifted(s, b, e, base) == o;
    } else {
      ShiftedKeepsSplit(o, s, b, e - 1);
      SplitMono(s, e - 1, e);
      var r := o + Shifted(s, b, e, base);
      assert r[..|r| - 1] == o + Shifted(s, b, e - 1, base);
    }
  }

  /** The old rows stay, the appended ones are rows `b..e` of the source. */
  ghost predicate Appended<T>(out: Tensor<T>, src: Tensor<T>, b: nat, e: nat, r: Tensor<T>)
    requires out.Ok() && src.Ok() && b <= e <= src.Rows()
  {
    && r.Ok() && r.Rows() == out.Rows() + (e - b)
    && (forall i :: 0 <= i < out.Rows() ==> r.RowOf(i) == out.RowOf(i))
    && (forall i :: out.Rows() <= i < r.Rows() ==> r.RowOf(i) == src.RowOf(b + i - out.Rows()))
  }

  lemma {:induction false} ExtendMeaning<T>(out: Tensor<T>, src: Tensor<T>, b: nat, e: nat)
    requires out.Ok() && src.Ok() && |out.splits| == |src.splits| && b <= e <= src.Rows()
    ensures Appended(out, src, b, e, Extend(out, src, b, e))
    decreases |out.splits|
  {
    if out.splits == [] {
    } else {
      var s := src.splits[0];
      SplitMono(s, b, e);
      SplitMono(s, e, |s| - 1);
      ExtendMeaning(Tensor(out.splits[1..], out.values), Tensor(src.splits[1..], src.values), s[b], s[e]);
      AppendedOutside(out, src, b, e, Extend(out, src, b, e));
    }
  }

  lemma OldRow<T>(out: Tensor<T>, src: Tensor<T>, r: Tensor<T>, b: nat, e: nat, i: nat)
    requires out.Ok() && r.Ok() && out.splits != [] && r.splits != [] && i < out.Rows() <= r.Rows()
    requires r.splits[0][..|out.splits[0]|] == out.splits[0]
    requires var ri, oi := Tensor(r.splits[1..], r.values), Tensor(out.splits[1..], out.values);
             && oi.Rows() <= ri.Rows()
             && forall k :: 0 <= k < oi.Rows() ==> ri.RowOf(k) == oi.RowOf(k)
    ensures r.RowOf(i) == out.RowOf(i)
  {
    var o, p := out.splits[0], r.splits[0];
    assert p[i] == o[i] && p[i + 1] == o[i + 1];
    SplitMono(o, i + 1, |o| - 1);
    SplitMono(p, i + 1, |p| - 1);
    var ri, oi := Tensor(r.splits[1..], r.values), Tensor(out.splits[1..], out.values);
    forall k | 0 <= k < Width(o, i)
      ensures r.RowOf(i).items[k] == out.RowOf(i).items[k]
    {
      assert ri.RowOf(o[i] + k) == oi.RowOf(o[i] + k);
    }
    assert r.RowOf(i).items == out.RowOf(i).items;
  }

  lemma NewRow<T>(out: Tensor<T>, src: Tensor<T>, r: Tensor<T>, b: nat, e: nat, i: nat)
    requires out.Ok() && src.Ok() && r.Ok() && out.splits != [] && src.splits != [] && r.splits != []
    requires b + i < e <= src.Rows() && out.Rows() + i < r.Rows()
    requires r.splits[0] == out.splits[0] + Shifted(src.splits[0], b, e, out.splits[0][|out.splits[0]| - 1])
    requires var ri, si := Tensor(r.splits[1..], r.values), Tensor(src.splits[1..], src.values);
             var base, first := out.splits[0][|out.splits[0]| - 1], src.splits[0][b];
             && first <= src.splits[0][e] <= si.Rows() && ri.Rows() == base + src.splits[0][e] - first
             && forall k :: base <= k < ri.Rows() ==> ri.RowOf(k) == si.RowOf(first + k - base)
    ensures r.RowOf(out.Rows() + i) == src.RowOf(b + i)
  {
    var o, s, p := out.splits[0], src.splits[0], r.splits[0];
    var c, base := out.Rows() + i, o[|o| - 1];
    SplitMono(s, b, b + i);
    SplitMono(s, b + i, b + i + 1);
    SplitMono(s, b + i + 1, e);
    assert p[c + 1] == base + s[b + i + 1] - s[b];
    assert p[c] == base + s[b + i] - s[b];
    var ri, si := Tensor(r.splits[1..], r.values), Tensor(src.splits[1..], src.values);
    SplitMono(s, b + i + 1, |s| - 1);
    SplitMono(p, c + 1, |p| - 1);
    assert Width(p, c) == Width(s, b + i);
    forall k | 0 <= k < Width(s, b + i)
      ensures r.RowOf(c).items[k] == src.RowOf(b + i).items[k]
    {
      assert ri.RowOf(p[c] + k) == si.RowOf(s[b + i] + k);
    }
    assert r.RowOf(c).items == src.RowOf(b + i).items;
  }

  lemma OutsideOk<T>(out: Tensor<T>, src: Tensor<T>, b: nat, e: nat, r: Tensor<T>)
    requires out.Ok() && src.Ok() && out.splits != [] && src.splits != [] && r.splits != []
    requires b <= e <= src.Rows()
    requires r.splits[0] == out.splits[0] + Shifted(src.splits[0], b, e, out.splits[0][|out.splits[0]| - 1])
    requires var ri := Tensor(r.splits[1..], r.values);
             ri.Ok() && ri.Rows() + src.splits[0][b] == out.splits[0][|out.splits[0]| - 1] + src.splits[0][e]
    ensures r.Ok() && r.Rows() == out.Rows() + (e - b)
  {
    ShiftedKeepsSplit(out.splits[0], src.splits[0], b, e);
  }

  /** One level out: rows built from appended inner entries are appended rows. */
  lemma AppendedOutside<T>(out: Tensor<T>, src: Tensor<T>, b: nat, e: nat, r: Tensor<T>)
    requires out.Ok() && src.Ok() && out.splits != [] && src.splits != [] && r.splits != []
    requires b <= e <= src.Rows()
    requires r.splits[0] == out.splits[0] + Shifted(src.splits[0], b, e, out.splits[0][|out.splits[0]| - 1])
    requires src.splits[0][b] <= src.splits[0][e] <= Tensor(src.splits[1..], src.values).Rows()
    requires Appended(Tensor(out.splits[1..], out.values), Tensor(src.splits[1..], src.values),
                      src.splits[0][b], src.splits[0][e], Tensor(r.splits[1..], r.values))
    ensures Appended(out, src, b, e, r)
  {
    OutsideOk(out, src, b, e, r);
    forall i | 0 <= i < out.Rows()
      ensures r.RowOf(i) == out.RowOf(i)
    {
      OldRow(out, src, r, b, e, i);
    }
    forall i | out.Rows() <= i < r.Rows()
      ensures r.RowOf(i) == src.RowOf(b + i - out.Rows())
    {
      NewRow(out, src, r, b, e, i - out.Rows());
    }
  }

  /** The run of entries that rows `b..e` occupy at level `d`. */
  function RunAt(splits: seq<seq<nat>>, b: nat, e: nat, d: nat): (nat, nat) {
    if d == 0 then (b, e)
    else if splits == [] || b >= |splits[0]| || e >= |splits[0]| then (0, 0)
    else RunAt(splits[1..], splits[0][b], splits[0][e], d - 1)
  }

  lemma {:induction false} RunStep<T>(src: Tensor<T>, b: nat, e: nat, d: nat)
    requires src.Ok() && b <= e <= src.Rows() && d <= |src.splits|
    ensures var run := RunAt(src.splits, b, e, d);
            && run.0 <= run.1 <= (if d < |src.splits| then |src.splits[d]| - 1 else |src.values|)
            && (d < |src.splits| ==> RunAt(src.splits, b, e, d + 1) == (src.splits[d][run.0], src.splits[d][run.1]))
    decreases d
  {
    if src.splits != [] {
      var s := src.splits[0];
      SplitMono(s, b, e);
      SplitMono(s, e, |s| - 1);
      if d > 0 {
        RunStep(Tensor(src.splits[1..], src.values), s[b], s[e], d - 1);
      }
    }
  }

  /** Level by level: what `Extend` appends where. */
  lemma {:induction false} ExtendAt<T>(out: Tensor<T>, src: Tensor<T>, b: nat, e: nat, d: nat)
    requires out.Ok() && src.Ok() && |out.splits| == |src.splits| && b <= e <= src.Rows() && d <= |src.splits|
    ensures var run, r := RunAt(src.splits, b, e, d), Extend(out, src, b, e);
            if d < |src.splits| then
              && IsSplit(src.splits[d]) && |out.splits[d]| > 0 && run.0 <= run.1 < |src.splits[d]|
              && r.splits[d] == out.splits[d] + Shifted(src.splits[d], run.0, run.1, out.splits[d][|out.splits[d]| - 1])
            else
              && run.0 <= run.1 <= |src.values|
              && r.values == out.values + src.values[run.0..run.1]
    decreases d
  {
    if src.splits != [] {
      var s := src.splits[0];
      SplitMono(s, b, e);
      SplitMono(s, e, |s| - 1);
      if d > 0 {
        ExtendAt(Tensor(out.splits[1..], out.values), Tensor(src.splits[1..], src.values), s[b], s[e], d - 1);
      }
    }
  }
}
