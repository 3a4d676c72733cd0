/** `Pack`: gathers listed rows of ragged features into fresh tensors, counting first and copying second. */
module Packing {
  import opened Ragged
  import opened RaggedAppend

  /** A table and a row of it. */
  datatype Pick = Pick(table: nat, row: nat)

  ghost predicate Packable<T>(tables: seq<Tensor<T>>, rank: nat, picks: seq<Pick>) {
    && (forall t :: 0 <= t < |tables| ==> tables[t].Ok() && |tables[t].splits| == rank)
    && forall i :: 0 <= i < |picks| ==> picks[i].table < |tables| && picks[i].row < tables[picks[i].table].Rows()
  }

  /** Room taken at level `d`; the level past the innermost one is the values. */
  ghost function Room<T>(t: Tensor<T>, d: nat): nat
    requires d <= |t.splits|
  {
    if d < |t.splits| then |t.splits[d]| else |t.values|
  }

  /** The room the first `k` listed rows need, counted row by row. */
  ghost function Counted<T>(tables: seq<Tensor<T>>, rank: nat, picks: seq<Pick>, k: nat, d: nat): int
    requires Packable(tables, rank, picks) && k <= |picks|
  {
    if k == 0 then 0
    else Counted(tables, rank, picks, k - 1, d) + RunLength(tables[picks[k - 1].table], picks[k - 1].row, d)
  }

  lemma {:induction false} CountedGrows<T>(tables: seq<Tensor<T>>, rank: nat, picks: seq<Pick>, k: nat, l: nat, d: nat)
    requires Packable(tables, rank, picks) && k <= l <= |picks| && d <= rank
    ensures 0 <= Counted(tables, rank, picks, k, d) <= Counted(tables, rank, picks, l, d)
    decreases l
  {
    if l > 0 {
      var src, row := tables[picks[l - 1].table], picks[l - 1].row;
      RunStep(src, row, row + 1, d);
      CountedGrows(tables, rank, picks, if k == l then k - 1 else k, l - 1, d);
    }
  }

  /** `t` holds the first `k` listed rows in order, repeats and all, and takes the counted room. */
  ghost predicate Gathered<T>(tables: seq<Tensor<T>>, rank: nat, picks: seq<Pick>, k: nat, t: Tensor<T>)
    requires Packable(tables, rank, picks) && k <= |picks|
  {
    && t.Ok() && |t.splits| == rank && t.Rows() == k
    && GatheredRows(tables, picks, k, t)
    && forall d :: 0 <= d <= rank ==>
         Room(t, d) == Counted(tables, rank, picks, k, d) + (if d < rank then 1 else 0)
  }

  ghost predicate GatheredRows<T>(tables: seq<Tensor<T>>, picks: seq<Pick>, k: nat, t: Tensor<T>)
    requires k <= |picks| && t.Ok() && t.Rows() == k
    requires forall i :: 0 <= i < |picks| ==>
               picks[i].table < |tables| && tables[picks[i].table].Ok() && picks[i].row < tables[picks[i].table].Rows()
  {
    forall i :: 0 <= i < k ==> t.RowOf(i) == tables[picks[i].table].RowOf(picks[i].row)
  }

  lemma NothingGathered<T>(tables: seq<Tensor<T>>, rank: nat, picks: seq<Pick>)
    requires Packable(tables, rank, picks)
    ensures Gathered(tables, rank, picks, 0, Empty(rank))
  {
    EmptyOk<T>(rank);
  }

  /** Appending the next listed row. */
  lemma GatherNext<T>(tables: seq<Tensor<T>>, rank: nat, picks: seq<Pick>, k: nat, t: Tensor<T>)
    requires Packable(tables, rank, picks) && k < |picks| && Gathered(tables, rank, picks, k, t)
    ensures Gathered(tables, rank, picks, k + 1,
                     Extend(t, tables[picks[k].table], picks[k].row, picks[k].row + 1))
  {
    var src, row := tables[picks[k].table], picks[k].row;
    var r := Extend(t, src, row, row + 1);
    ExtendMeaning(t, src, row, row + 1);
    RowsGatherNext(tables, picks, k, t, r);
    forall d | 0 <= d <= rank
      ensures Room(r, d) == Room(t, d) + RunLength(src, row, d)
    {
      RoomStep(t, src, row, d);
    }
  }

  lemma RowsGatherNext<T>(tables: seq<Tensor<T>>, picks: seq<Pick>, k: nat, t: Tensor<T>, r: Tensor<T>)
    requires forall i :: 0 <= i < |picks| ==>
               picks[i].table < |tables| && tables[picks[i].table].Ok() && picks[i].row < tables[picks[i].table].Rows()
    requires k < |picks| && t.Ok() && t.Rows() == k && GatheredRows(tables, picks, k, t)
    requires Appended(t, tables[picks[k].table], picks[k].row, picks[k].row + 1, r)
    ensures GatheredRows(tables, picks, k + 1, r)
  {
  }

  lemma RoomStep<T>(t: Tensor<T>, src: Tensor<T>, row: nat, d: nat)
    requires t.Ok() && src.Ok() && |t.splits| == |src.splits| && row < src.Rows() && d <= |src.splits|
    ensures Room(Extend(t, src, row, row + 1), d) == Room(t, d) + RunLength(src, row, d)
  {
    ExtendAt(t, src, row, row + 1, d);
  }

  /** Entries of one row at level `d`. */
  ghost function RunLength<T>(src: Tensor<T>, row: nat, d: nat): int {
    RunAt(src.splits, row, row + 1, d).1 - RunAt(src.splits, row, row + 1, d).0
  }

  method CountRow<T>(src: Tensor<T>, row: nat, raggedSize: array<nat>)
    requires src.Ok() && row < src.Rows() && raggedSize.Length == |src.splits| + 1
    modifies raggedSize
    ensures forall d :: 0 <= d < raggedSize.Length ==> raggedSize[d] == old(raggedSize[d]) + RunLength(src, row, d)
  {
    var begin, end := row, row + 1;
    for d := 0 to |src.splits|
      invariant (begin, end) == RunAt(src.splits, row, row + 1, d)
      invariant forall e :: 0 <= e < d ==> raggedSize[e] == old(raggedSize[e]) + RunLength(src, row, e)
      invariant forall e :: d <= e < raggedSize.Length ==> raggedSize[e] == old(raggedSize[e])
    {
      RunStep(src, row, row + 1, d);
      raggedSize[d] := raggedSize[d] + (end - begin);
      begin, end := src.splits[d][begin], src.splits[d][end];
    }
    RunStep(src, row, row + 1, |src.splits|);
    raggedSize[|src.splits|] := raggedSize[|src.splits|] + (end - begin);
  }

  /** First pass: how much room every level needs, beyond its leading 0. */
  method Statistics<T>(tables: seq<Tensor<T>>, rank: nat, picks: seq<Pick>) returns (raggedSize: array<nat>)
    requires Packable(tables, rank, picks)
    ensures fresh(raggedSize) && raggedSize.Length == rank + 1
    ensures forall d :: 0 <= d <= rank ==> raggedSize[d] == Counted(tables, rank, picks, |picks|, d)
  {
    raggedSize := new nat[rank + 1](i => 0);
    for i := 0 to |picks|
      invariant forall d :: 0 <= d <= rank ==> raggedSize[d] == Counted(tables, rank, picks, i, d)
    {
      CountRow(tables[picks[i].table], picks[i].row, raggedSize);
    }
  }

  /** Buffers whose leading parts hold a tensor. */
  ghost predicate Holds<T>(splits: seq<array<nat>>, values: array<T>, t: Tensor<T>)
    reads splits, values
  {
    && |splits| == |t.splits|
    && (forall d :: 0 <= d < |splits| ==> Begins(splits[d], t.splits[d]))
    && Begins(values, t.values)
  }

  ghost predicate Begins<T>(a: array<T>, s: seq<T>)
    reads a
  {
    |s| <= a.Length && a[..|s|] == s
  }

  ghost predicate Separate<T>(splits: seq<array<nat>>, values: array<T>) {
    && (forall i, j :: 0 <= i < j < |splits| ==> splits[i] != splits[j])
    && forall i :: 0 <= i < |splits| ==> splits[i] as object != values as object
  }

  /** Copies a run of split points behind `offset`, moved to continue at `splitsOffset`. */
  method CopySplits(splits: array<nat>, cur: seq<nat>, begin: nat, end: nat, offset: nat, splitsOffset: nat)
    requires IsSplit(cur) && begin <= end < |cur|
    requires offset + (end - begin) < splits.Length
    modifies splits
    ensures splits[..offset + 1 + (end - begin)] == old(splits[..offset + 1]) + Shifted(cur, begin, end, splitsOffset)
  {
    ghost var before := splits[..offset + 1];
    ghost var shifted := Shifted(cur, begin, end, splitsOffset);
    for l := 1 to end - begin + 1
      invariant splits[..offset + l] == before + shifted[..l - 1]
    {
      SplitMono(cur, begin, begin + l);
      splits[offset + l] := cur[begin + l] + splitsOffset - cur[begin];
      assert shifted[..l] == shifted[..l - 1] + [shifted[l - 1]];
      assert splits[..offset + l + 1] == splits[..offset + l] + [splits[offset + l]];
    }
    assert shifted[..end - begin] == shifted;
  }

  /** Level by level, `after` is `before` with one row of `src` appended. */
  ghost predicate LevelAppended<T>(before: Tensor<T>, src: Tensor<T>, row: nat, after: Tensor<T>, d: nat)
    requires |before.splits| == |src.splits| == |after.splits| && d <= |src.splits|
  {
    var run := RunAt(src.splits, row, row + 1, d);
    if d < |src.splits| then
      && IsSplit(src.splits[d]) && run.0 <= run.1 < |src.splits[d]| && |before.splits[d]| > 0
      && after.splits[d] == before.splits[d]
                            + Shifted(src.splits[d], run.0, run.1, before.splits[d][|before.splits[d]| - 1])
      && RunAt(src.splits, row, row + 1, d + 1) == (src.splits[d][run.0], src.splits[d][run.1])
      && before.splits[d][|before.splits[d]| - 1] == NextOffset(before, d + 1)
    else
      run.0 <= run.1 <= |src.values| && after.values == before.values + src.values[run.0..run.1]
  }

  /** Where the next entry of level `d` goes. */
  ghost function NextOffset<T>(t: Tensor<T>, d: nat): int
    requires d <= |t.splits|
  {
    if d < |t.splits| then |t.splits[d]| - 1 else |t.values|
  }

  lemma ExtendAppendsLevels<T>(before: Tensor<T>, src: Tensor<T>, row: nat, d: nat)
    requires before.Ok() && src.Ok() && |before.splits| == |src.splits| && row < src.Rows() && d <= |src.splits|
    ensures LevelAppended(before, src, row, Extend(before, src, row, row + 1), d)
  {
    RunStep(src, row, row + 1, d);
    ExtendAt(before, src, row, row + 1, d);
    if d < |src.splits| {
      LevelFacts(before.splits, |before.values|, d);
    }
  }

  /** Appends a run of split points to one level, and tells where the level below goes on. */
  method CopyLevel(splits: array<nat>, cur: seq<nat>, begin: nat, end: nat, offset: nat, ghost before: seq<nat>, ghost after: seq<nat>)
    returns (splitsOffset: nat)
    requires IsSplit(cur) && begin <= end < |cur| && |before| > 0 && offset == |before| - 1
    requires after == before + Shifted(cur, begin, end, before[offset])
    requires |after| <= splits.Length && Begins(splits, before)
    modifies splits
    ensures Begins(splits, after) && splitsOffset == before[offset]
  {
    assert splits[offset] == splits[..|before|][offset];
    splitsOffset := splits[offset];
    CopySplits(splits, cur, begin, end, offset, splitsOffset);
  }

  method CopyNextLevel<T>(src: Tensor<T>, row: nat, splits: array<nat>, begin: nat, end: nat, offset: nat,
                          ghost before: Tensor<T>, ghost after: Tensor<T>, d: nat)
    returns (nextBegin: nat, nextEnd: nat, nextOffset: nat)
    requires |before.splits| == |src.splits| == |after.splits| && d < |src.splits|
    requires LevelAppended(before, src, row, after, d) && (begin, end) == RunAt(src.splits, row, row + 1, d)
    requires offset == NextOffset(before, d) && Begins(splits, before.splits[d]) && |after.splits[d]| <= splits.Length
    modifies splits
    ensures Begins(splits, after.splits[d])
    ensures (nextBegin, nextEnd) == RunAt(src.splits, row, row + 1, d + 1) && nextOffset == NextOffset(before, d + 1)
  {
    nextOffset := CopyLevel(splits, src.splits[d], begin, end, offset, before.splits[d], after.splits[d]);
    nextBegin, nextEnd := src.splits[d][begin], src.splits[d][end];
  }

  /** Appends the runs of one row to all levels, and tells where its values are and where they go. */
  method CopyLevels<T>(src: Tensor<T>, row: nat, splits: seq<array<nat>>, firstOffset: nat, ghost before: Tensor<T>,
                       ghost after: Tensor<T>) returns (begin: nat, end: nat, offset: nat)
    requires |splits| == |before.splits| == |src.splits| == |after.splits| && firstOffset == NextOffset(before, 0)
    requires forall d :: 0 <= d < |splits| ==> LevelAppended(before, src, row, after, d)
    requires forall i, j :: 0 <= i < j < |splits| ==> splits[i] != splits[j]
    requires forall d :: 0 <= d < |splits| ==> Begins(splits[d], before.splits[d]) && |after.splits[d]| <= splits[d].Length
    modifies splits
    ensures forall d :: 0 <= d < |splits| ==> Begins(splits[d], after.splits[d])
    ensures (begin, end) == RunAt(src.splits, row, row + 1, |splits|) && offset == NextOffset(before, |splits|)
  {
    begin, end, offset := row, row + 1, firstOffset;
    for d := 0 to |splits|
      invariant (begin, end) == RunAt(src.splits, row, row + 1, d)
      invariant offset == NextOffset(before, d)
      invariant forall e :: 0 <= e < d ==> Begins(splits[e], after.splits[e])
      invariant forall e :: d <= e < |splits| ==> Begins(splits[e], before.splits[e])
    {
      begin, end, offset := CopyNextLevel(src, row, splits[d], begin, end, offset, before, after, d);
    }
  }

  /** Copies one listed row behind the rows already there. */
  method CopyRow<T>(src: Tensor<T>, row: nat, splits: seq<array<nat>>, values: array<T>, nextOffset: nat,
                    ghost before: Tensor<T>, ghost after: Tensor<T>)
    requires |splits| == |before.splits| == |src.splits| == |after.splits|
    requires forall d :: 0 <= d <= |splits| ==> LevelAppended(before, src, row, after, d)
    requires Separate(splits, values) && Holds(splits, values, before) && nextOffset == NextOffset(before, 0)
    requires forall d :: 0 <= d < |splits| ==> |after.splits[d]| <= splits[d].Length
    requires |after.values| <= values.Length
    modifies splits, values
    ensures Holds(splits, values, after)
  {
    var begin, end, offset := CopyLevels(src, row, splits, nextOffset, before, after);
    assert LevelAppended(before, src, row, after, |splits|);
    CopyValues(values, src.values, begin, end, offset);
  }

  /** The block copy of the values. */
  method CopyValues<T>(values: array<T>, cur: seq<T>, begin: nat, end: nat, offset: nat)
    requires begin <= end <= |cur| && offset + (end - begin) <= values.Length
    modifies values
    ensures values[..offset + (end - begin)] == old(values[..offset]) + cur[begin..end]
  {
    ghost var before := values[..offset];
    for l := 0 to end - begin
      invariant values[..offset + l] == before + cur[begin..begin + l]
    {
      values[offset + l] := cur[begin + l];
      assert values[..offset + l + 1] == values[..offset + l] + [values[offset + l]];
    }
  }

  /** Fresh buffers of exactly the counted room, every level starting with 0. */
  method Allocate<T(0)>(raggedSize: array<nat>, rank: nat) returns (splits: seq<array<nat>>, values: array<T>)
    requires raggedSize.Length == rank + 1
    ensures |splits| == rank && Separate(splits, values)
    ensures fresh(values) && forall d :: 0 <= d < rank ==> fresh(splits[d])
    ensures forall d :: 0 <= d < rank ==> splits[d].Length == raggedSize[d] + 1 && splits[d][0] == 0
    ensures values.Length == raggedSize[rank]
  {
    splits := [];
    for k := 0 to rank
      invariant |splits| == k
      invariant forall d :: 0 <= d < k ==> fresh(splits[d]) && splits[d].Length == raggedSize[d] + 1 && splits[d][0] == 0
      invariant forall i, j :: 0 <= i < j < k ==> splits[i] != splits[j]
    {
      var level := new nat[raggedSize[k] + 1];
      level[0] := 0;
      splits := splits + [level];
    }
    values := new T[raggedSize[rank]];
  }

  /** The tensor two lists of buffers hold as a whole. */
  ghost function Contents<T>(splits: seq<array<nat>>, values: array<T>): (t: Tensor<T>)
    reads splits, values
  {
    Tensor(seq(|splits|, d requires 0 <= d < |splits| reads splits => splits[d][..]), values[..])
  }

  /** The next row as a value, with all that copying it needs to know. */
  lemma NextRow<T>(tables: seq<Tensor<T>>, rank: nat, picks: seq<Pick>, i: nat, t: Tensor<T>) returns (after: Tensor<T>)
    requires Packable(tables, rank, picks) && i < |picks| && Gathered(tables, rank, picks, i, t)
    ensures Gathered(tables, rank, picks, i + 1, after)
    ensures forall d :: 0 <= d <= rank ==> LevelAppended(t, tables[picks[i].table], picks[i].row, after, d)
    ensures forall d :: 0 <= d <= rank ==>
              Room(after, d) <= Counted(tables, rank, picks, |picks|, d) + (if d < rank then 1 else 0)
  {
    var src := tables[picks[i].table];
    GatherNext(tables, rank, picks, i, t);
    after := Extend(t, src, picks[i].row, picks[i].row + 1);
    forall d | 0 <= d <= rank
      ensures LevelAppended(t, src, picks[i].row, after, d)
    {
      ExtendAppendsLevels(t, src, picks[i].row, d);
    }
    forall d | 0 <= d <= rank
      ensures Counted(tables, rank, picks, i + 1, d) <= Counted(tables, rank, picks, |picks|, d)
    {
      CountedGrows(tables, rank, picks, i + 1, |picks|, d);
    }
  }

  /** Buffers sized to the entry for the listed rows. */
  ghost predicate Sized<T>(splits: seq<array<nat>>, values: array<T>, tables: seq<Tensor<T>>, rank: nat, picks: seq<Pick>)
    requires Packable(tables, rank, picks)
  {
    && |splits| == rank && Separate(splits, values)
    && (forall d :: 0 <= d < rank ==> splits[d].Length == Counted(tables, rank, picks, |picks|, d) + 1)
    && values.Length == Counted(tables, rank, picks, |picks|, rank)
  }

  method CopyPick<T>(tables: seq<Tensor<T>>, rank: nat, picks: seq<Pick>, i: nat,
                     splits: seq<array<nat>>, values: array<T>, ghost t: Tensor<T>) returns (ghost after: Tensor<T>)
    requires Packable(tables, rank, picks) && i < |picks| && Gathered(tables, rank, picks, i, t)
    requires Sized(splits, values, tables, rank, picks) && Holds(splits, values, t)
    modifies splits, values
    ensures Gathered(tables, rank, picks, i + 1, after) && Holds(splits, values, after)
  {
    after := NextRow(tables, rank, picks, i, t);
    assert Room(after, rank) <= Counted(tables, rank, picks, |picks|, rank);
    assert forall d :: 0 <= d < rank ==> Room(after, d) == |after.splits[d]|;
    assert NextOffset(t, 0) == i;
    CopyRow(tables[picks[i].table], picks[i].row, splits, values, i, t, after);
  }

  lemma FullBuffers<T>(tables: seq<Tensor<T>>, rank: nat, picks: seq<Pick>,
                       splits: seq<array<nat>>, values: array<T>, t: Tensor<T>)
    requires Packable(tables, rank, picks) && Gathered(tables, rank, picks, |picks|, t)
    requires Sized(splits, values, tables, rank, picks) && Holds(splits, values, t)
    ensures Contents(splits, values) == t
  {
    assert Room(t, rank) == values.Length;
    forall d | 0 <= d < rank
      ensures splits[d][..] == t.splits[d]
    {
      assert Room(t, d) == splits[d].Length;
    }
  }

  /** One feature: buffers are sized by the first pass and filled to the last entry by the second. */
  method PackTensor<T(0)>(tables: seq<Tensor<T>>, rank: nat, picks: seq<Pick>)
    returns (splits: seq<array<nat>>, values: array<T>)
    requires Packable(tables, rank, picks)
    ensures Gathered(tables, rank, picks, |picks|, Contents(splits, values))
  {
    var raggedSize := Statistics(tables, rank, picks);
    splits, values := Allocate<T>(raggedSize, rank);
    ghost var t := Empty<T>(rank);
    NothingGathered(tables, rank, picks);
    for i := 0 to |picks|
      invariant Gathered(tables, rank, picks, i, t)
      invariant Holds(splits, values, t)
    {
      t := CopyPick(tables, rank, picks, i, splits, values, t);
    }
    FullBuffers(tables, rank, picks, splits, values, t);
  }
}
