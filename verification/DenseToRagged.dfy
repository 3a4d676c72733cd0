/** `dense_to_ragged` with an invalid value on the CPU, and how it and `ragged_to_dense` undo each other. */
module DenseToRagged {
  import opened Collections
  import opened DenseShapes
  import opened Ragged
  import opened RaggedToDense

  /** Length of a row without its trailing invalid entries. */
  function TrimLen<T(==)>(row: seq<T>, x: T): (len: nat)
    ensures len <= |row|
    ensures forall j :: len <= j < |row| ==> row[j] == x
    ensures len > 0 ==> row[len - 1] != x
  {
    if row == [] then 0
    else if row[|row| - 1] != x then |row|
    else TrimLen(row[..|row| - 1], x)
  }

  ghost predicate Rectangular<T>(data: seq<seq<T>>, cols: nat) {
    forall i :: 0 <= i < |data| ==> |data[i]| == cols
  }

  /** The first `len` entries of `row` stand in `values` from `start` on. */
  ghost predicate RowAt<T>(values: seq<T>, start: nat, row: seq<T>, len: nat) {
    start + len <= |values| && len <= |row| && forall l :: 0 <= l < len ==> values[start + l] == row[l]
  }

  /** Offsets and values spell the trimmed rows one after another. */
  ghost predicate Spells<T>(data: seq<seq<T>>, x: T, offsets: seq<nat>, values: seq<T>) {
    && |offsets| == |data| + 1 && offsets[0] == 0 && offsets[|data|] == |values|
    && (forall i :: 0 <= i < |data| ==> offsets[i + 1] == offsets[i] + TrimLen(data[i], x))
    && forall i :: 0 <= i < |data| ==> RowAt(values, offsets[i], data[i], TrimLen(data[i], x))
  }

  method TrimLengths<T(==)>(data: seq<seq<T>>, x: T) returns (lengths: array<nat>)
    ensures fresh(lengths) && lengths.Length == |data|
    ensures forall k :: 0 <= k < |data| ==> lengths[k] == TrimLen(data[k], x)
  {
    lengths := new nat[|data|](i => 0);
    for i := 0 to |data|
      invariant forall k :: 0 <= k < i ==> lengths[k] == TrimLen(data[k], x)
    {
      var lastIndex := -1;
      for j := 0 to |data[i]|
        invariant lastIndex + 1 == TrimLen(data[i][..j], x)
      {
        assert data[i][..j + 1][..j] == data[i][..j];
        if data[i][j] != x {
          lastIndex := j;
        }
      }
      assert data[i][..|data[i]|] == data[i];
      lengths[i] := lastIndex + 1;
    }
  }

  method PartialSums(lengths: array<nat>) returns (offsets: array<nat>)
    ensures fresh(offsets) && offsets.Length == lengths.Length + 1 && offsets[0] == 0
    ensures forall k :: 0 <= k < lengths.Length ==> offsets[k + 1] == offsets[k] + lengths[k]
    ensures forall i, j :: 0 <= i <= j < offsets.Length ==> offsets[i] <= offsets[j]
  {
    offsets := new nat[lengths.Length + 1](i => 0);
    for i := 0 to lengths.Length
      invariant offsets[0] == 0
      invariant forall k :: 0 <= k < i ==> offsets[k + 1] == offsets[k] + lengths[k]
      invariant forall k, l :: 0 <= k <= l <= i ==> offsets[k] <= offsets[l]
    {
      offsets[i + 1] := offsets[i] + lengths[i];
    }
  }

  method CopyRows<T>(data: seq<seq<T>>, lengths: seq<nat>, offsets: seq<nat>, values: array<T>)
    requires |lengths| == |data| && |offsets| == |data| + 1
    requires forall k :: 0 <= k < |data| ==> lengths[k] <= |data[k]| && offsets[k + 1] == offsets[k] + lengths[k]
    requires forall i, j :: 0 <= i <= j < |offsets| ==> offsets[i] <= offsets[j]
    requires values.Length == offsets[|data|]
    modifies values
    ensures forall k :: 0 <= k < |data| ==> RowAt(values[..], offsets[k], data[k], lengths[k])
  {
    for i := 0 to |data|
      invariant forall k :: 0 <= k < i ==> RowAt(values[..], offsets[k], data[k], lengths[k])
    {
      var start, len := offsets[i], lengths[i];
      assert offsets[i + 1] == start + len <= values.Length;
      ghost var before := values[..];
      for j := 0 to len
        invariant values[..start] == before[..start]
        invariant RowAt(values[..], start, data[i], j)
      {
        values[start + j] := data[i][j];
      }
      forall k | 0 <= k < i
        ensures RowAt(values[..], offsets[k], data[k], lengths[k])
      {
        assert offsets[k + 1] <= start;
        RowKept(before, values[..], offsets[k], data[k], lengths[k], start);
      }
    }
  }

  lemma RowKept<T>(before: seq<T>, after: seq<T>, start: nat, row: seq<T>, len: nat, bound: nat)
    requires RowAt(before, start, row, len) && start + len <= bound <= |before| == |after|
    requires before[..bound] == after[..bound]
    ensures RowAt(after, start, row, len)
  {
    forall l | 0 <= l < len
      ensures after[start + l] == row[l]
    {
      assert after[start + l] == after[..bound][start + l];
      assert before[start + l] == before[..bound][start + l];
    }
  }

  method DenseToRaggedCpu<T(0,==)>(data: seq<seq<T>>, x: T) returns (values: array<T>, offsets: array<nat>)
    ensures Spells(data, x, offsets[..], values[..])
  {
    var lengths := TrimLengths(data, x);
    offsets := PartialSums(lengths);
    values := new T[offsets[|data|]];
    CopyRows(data, lengths[..], offsets[..], values);
    assert forall k :: 0 <= k < |data| ==> offsets[..][k + 1] == offsets[..][k] + lengths[k];
  }

  lemma {:induction false} GrowingIsSplit(offsets: seq<nat>)
    requires |offsets| > 0 && offsets[0] == 0
    requires forall k :: 0 <= k < |offsets| - 1 ==> offsets[k] <= offsets[k + 1]
    ensures IsSplit(offsets)
  {
    if |offsets| > 1 {
      GrowingIsSplit(offsets[..|offsets| - 1]);
    }
  }

  lemma SpelledIsRagged<T>(data: seq<seq<T>>, x: T, offsets: seq<nat>, values: seq<T>)
    requires Spells(data, x, offsets, values)
    ensures WellFormed([offsets], |values|) && Count([offsets], |values|) == |data|
  {
    GrowingIsSplit(offsets);
    assert [offsets][1..] == [] && WellFormed([offsets][1..], |values|);
  }

  lemma FindInLevel(offsets: seq<nat>, i: nat, j: nat)
    requires i + 1 < |offsets|
    ensures Find([offsets], i, [j]) == if offsets[i] + j < offsets[i + 1] then Some(offsets[i] + j) else None
  {
    assert [offsets][1..] == [] && [j][1..] == [];
    assert Find([], offsets[i] + j, []) == Some(offsets[i] + j);
  }

  /** One level: the element at row `i`, position `j`. */
  lemma OneLevel<T>(offsets: seq<nat>, values: seq<T>, i: nat, j: nat)
    requires WellFormed([offsets], |values|) && i + 1 < |offsets|
    ensures At(Row([offsets], values, i), [j]) ==
            if j < Width(offsets, i) then (SplitMono(offsets, i + 1, |offsets| - 1); Some(values[offsets[i] + j]))
            else None
  {
    SplitMono(offsets, i + 1, |offsets| - 1);
    FindIsAt([offsets], values, i, [j]);
    FindInLevel(offsets, i, j);
  }

  lemma OneLevelShape<T>(offsets: seq<nat>, values: seq<T>)
    requires WellFormed([offsets], |values|)
    ensures DenseShape([offsets], |values|) == [|offsets| - 1, MaxWidth(offsets)]
  {
    DenseShapeAt([offsets], |values|, 0);
    DenseShapeAt([offsets], |values|, 1);
  }

  /** What a dense result holds at row `i`, column `j`. */
  lemma DenseAt<T>(out: seq<T>, offsets: seq<nat>, values: seq<T>, x: T, i: nat, j: nat)
    requires WellFormed([offsets], |values|) && IsDenseOf(out, [offsets], values, x)
    requires i + 1 < |offsets| && j < MaxWidth(offsets)
    ensures CellValue(out, [i, j], [|offsets| - 1, MaxWidth(offsets)])
            == Some(if j < Width(offsets, i)
                    then (SplitMono(offsets, i + 1, |offsets| - 1); values[offsets[i] + j]) else x)
  {
    OneLevelShape(offsets, values);
    OneLevel(offsets, values, i, j);
    assert InShape([i, j], DenseShape([offsets], |values|)) && [i, j][1..] == [j];
  }

  /** One level, laid out flat: row `i` starts at `i` times the widest row, holds its values and is filled up with `x`. */
  lemma MatrixCell<T>(out: seq<T>, offsets: seq<nat>, values: seq<T>, x: T, i: nat, j: nat)
    requires WellFormed([offsets], |values|) && IsDenseOf(out, [offsets], values, x)
    requires i + 1 < |offsets| && j < MaxWidth(offsets)
    ensures |out| == (|offsets| - 1) * MaxWidth(offsets) && 0 <= i * MaxWidth(offsets) + j < |out|
    ensures out[i * MaxWidth(offsets) + j]
            == if j < Width(offsets, i)
               then (SplitMono(offsets, i + 1, |offsets| - 1); values[offsets[i] + j]) else x
  {
    DenseAt(out, offsets, values, x, i, j);
    PairCell(i, j, |offsets| - 1, MaxWidth(offsets));
    OneLevelShape(offsets, values);
  }

  lemma SpelledWidths<T>(data: seq<seq<T>>, x: T, offsets: seq<nat>, values: seq<T>)
    requires Spells(data, x, offsets, values) && IsSplit(offsets)
    ensures forall i :: 0 <= i < |data| ==> Width(offsets, i) == TrimLen(data[i], x) <= MaxWidth(offsets)
  {
    forall i | 0 <= i < |data|
      ensures Width(offsets, i) == TrimLen(data[i], x) <= MaxWidth(offsets)
    {
      WidthBound(offsets, i);
    }
  }

  /** Going to ragged and back with default `x` gives every kept cell its old value. */
  lemma DenseRoundTrip<T>(data: seq<seq<T>>, cols: nat, x: T, offsets: seq<nat>, values: seq<T>, out: seq<T>,
                          i: nat, j: nat)
    requires Rectangular(data, cols) && Spells(data, x, offsets, values)
    requires WellFormed([offsets], |values|) && IsDenseOf(out, [offsets], values, x)
    requires i < |data| && j < MaxWidth(offsets)
    ensures DenseShape([offsets], |values|) == [|data|, MaxWidth(offsets)]
    ensures j < cols && CellValue(out, [i, j], [|data|, MaxWidth(offsets)]) == Some(data[i][j])
  {
    OneLevelShape(offsets, values);
    SpelledCell(data, cols, x, offsets, values, i, j);
    DenseAt(out, offsets, values, x, i, j);
  }

  lemma SpelledCell<T>(data: seq<seq<T>>, cols: nat, x: T, offsets: seq<nat>, values: seq<T>, i: nat, j: nat)
    requires Rectangular(data, cols) && Spells(data, x, offsets, values) && IsSplit(offsets)
    requires i < |data| && j < MaxWidth(offsets)
    ensures j < cols && offsets[i + 1] <= |values|
    ensures data[i][j] == if j < Width(offsets, i) then values[offsets[i] + j] else x
  {
    SpelledWidths(data, x, offsets, values);
    DroppedColumns(data, cols, x, offsets, values);
  }

  /** The cells it does not keep are exactly the trailing all-`x` columns. */
  lemma DroppedColumns<T>(data: seq<seq<T>>, cols: nat, x: T, offsets: seq<nat>, values: seq<T>)
    requires Rectangular(data, cols) && Spells(data, x, offsets, values) && IsSplit(offsets)
    ensures data != [] ==> MaxWidth(offsets) <= cols
    ensures forall i, j :: 0 <= i < |data| && MaxWidth(offsets) <= j < cols ==> data[i][j] == x
    ensures MaxWidth(offsets) > 0 ==>
              exists i :: 0 <= i < |data| && data[i][MaxWidth(offsets) - 1] != x
  {
    SpelledWidths(data, x, offsets, values);
    if MaxWidth(offsets) > 0 {
      var r := WidthReached(offsets);
      assert TrimLen(data[r], x) == MaxWidth(offsets);
      assert data[r][MaxWidth(offsets) - 1] != x;
    }
  }

  /** The matrix a dense result is read as. */
  ghost predicate ReadsAs<T>(out: seq<T>, rows: nat, cols: nat, data: seq<seq<T>>) {
    && |data| == rows && Rectangular(data, cols)
    && forall i, j :: 0 <= i < rows && 0 <= j < cols ==> CellValue(out, [i, j], [rows, cols]) == Some(data[i][j])
  }

  ghost predicate EndsInX<T>(offsets: seq<nat>, values: seq<T>, x: T, i: nat)
    requires WellFormed([offsets], |values|) && i + 1 < |offsets|
  {
    SplitMono(offsets, i + 1, |offsets| - 1);
    offsets[i] < offsets[i + 1] && values[offsets[i + 1] - 1] == x
  }

  /** To ragged and back with default `x`: every column is back but those at the end that are `x` throughout. */
  method ThereAndBack<T(0,==)>(data: seq<seq<T>>, cols: nat, x: T) returns (shape: seq<nat>, out: array<T>)
    requires Rectangular(data, cols)
    ensures |shape| == 2 && shape[0] == |data|
    ensures forall i: nat, j: nat :: i < |data| && j < shape[1] ==> j < cols && CellValue(out[..], [i, j], shape) == Some(data[i][j])
    ensures forall i, j :: 0 <= i < |data| && shape[1] <= j < cols ==> data[i][j] == x
  {
    var values, offsets := DenseToRaggedCpu(data, x);
    ghost var vs, os := values[..], offsets[..];
    SpelledIsRagged(data, x, os, vs);
    shape, out := RaggedToDenseOp(values[..], [offsets[..]], x);
    OneLevelShape(os, vs);
    DroppedColumns(data, cols, x, os, vs);
    forall i: nat, j: nat | i < |data| && j < shape[1]
      ensures j < cols && CellValue(out[..], [i, j], shape) == Some(data[i][j])
    {
      DenseRoundTrip(data, cols, x, os, vs, out[..], i, j);
    }
  }

  lemma TrimAfter<T>(row: seq<T>, x: T, w: nat)
    requires w <= |row| && forall j :: w <= j < |row| ==> row[j] == x
    ensures TrimLen(row, x) <= w
    ensures TrimLen(row, x) == w <==> w == 0 || row[w - 1] != x
  {
  }

  /** Dense rows are the ragged rows followed by `x`. */
  ghost predicate PaddedRows<T>(offsets: seq<nat>, values: seq<T>, x: T, data: seq<seq<T>>)
    requires IsSplit(offsets)
  {
    && |data| == |offsets| - 1
    && forall i, j :: 0 <= i < |data| && 0 <= j < |data[i]| ==>
         if j < Width(offsets, i) then offsets[i] + j < |values| && data[i][j] == values[offsets[i] + j]
         else data[i][j] == x
  }

  lemma ReadsPadded<T>(offsets: seq<nat>, values: seq<T>, x: T, out: seq<T>, data: seq<seq<T>>)
    requires WellFormed([offsets], |values|) && IsDenseOf(out, [offsets], values, x)
    requires ReadsAs(out, |offsets| - 1, MaxWidth(offsets), data)
    ensures PaddedRows(offsets, values, x, data)
  {
    forall i, j | 0 <= i < |data| && 0 <= j < MaxWidth(offsets)
      ensures if j < Width(offsets, i) then offsets[i] + j < |values| && data[i][j] == values[offsets[i] + j]
              else data[i][j] == x
    {
      SplitMono(offsets, i + 1, |offsets| - 1);
      DenseAt(out, offsets, values, x, i, j);
    }
  }

  lemma RowBack<T>(offsets: seq<nat>, values: seq<T>, x: T, data: seq<seq<T>>, i: nat)
    requires WellFormed([offsets], |values|) && PaddedRows(offsets, values, x, data)
    requires i < |data| && |data[i]| == MaxWidth(offsets)
    ensures TrimLen(data[i], x) <= Width(offsets, i)
    ensures TrimLen(data[i], x) == Width(offsets, i) <==> !EndsInX(offsets, values, x, i)
  {
    WidthBound(offsets, i);
    TrimAfter(data[i], x, Width(offsets, i));
  }

  lemma {:induction false} SameOffsets(a: seq<nat>, b: seq<nat>, k: nat)
    requires |a| == |b| && k < |a| && a[0] == b[0]
    requires forall i :: 0 <= i < |a| - 1 ==> a[i + 1] + b[i] == b[i + 1] + a[i]
    ensures a[k] == b[k]
  {
    if k > 0 {
      SameOffsets(a, b, k - 1);
      assert a[k - 1 + 1] + b[k - 1] == b[k - 1 + 1] + a[k - 1];
    }
  }

  lemma SameValues<T>(data: seq<seq<T>>, offsets: seq<nat>, x: T, a: seq<T>, b: seq<T>)
    requires WellFormed([offsets], |a|) && |offsets| == |data| + 1
    requires Spells(data, x, offsets, b)
    requires forall i :: 0 <= i < |data| ==> RowAt(a, offsets[i], data[i], TrimLen(data[i], x))
    ensures a == b
  {
    assert [offsets][1..] == [];
    forall p: nat | p < |a|
      ensures a[p] == b[p]
    {
      var i := Seg(offsets, p);
      assert a[offsets[i] + (p - offsets[i])] == data[i][p - offsets[i]] == b[offsets[i] + (p - offsets[i])];
    }
  }

  /** Going to dense and back recovers a ragged list exactly when none of its non-empty rows ends in `x`. */
  lemma RaggedRoundTrip<T>(offsets: seq<nat>, values: seq<T>, x: T, out: seq<T>, data: seq<seq<T>>,
                           offsets': seq<nat>, values': seq<T>)
    requires WellFormed([offsets], |values|) && IsDenseOf(out, [offsets], values, x)
    requires ReadsAs(out, |offsets| - 1, MaxWidth(offsets), data)
    requires Spells(data, x, offsets', values')
    ensures offsets' == offsets && values' == values
            <==> forall i: nat :: i < |offsets| - 1 ==> !EndsInX(offsets, values, x, i)
  {
    ReadsPadded(offsets, values, x, out, data);
    forall i: nat | i < |data|
      ensures TrimLen(data[i], x) <= Width(offsets, i)
      ensures TrimLen(data[i], x) == Width(offsets, i) <==> !EndsInX(offsets, values, x, i)
    {
      RowBack(offsets, values, x, data, i);
    }
    if forall i: nat :: i < |data| ==> !EndsInX(offsets, values, x, i) {
      NothingTrimmed(data, offsets, values, x, offsets', values');
    } else {
      var i: nat :| i < |data| && EndsInX(offsets, values, x, i);
      assert offsets'[i + 1] == offsets'[i] + TrimLen(data[i], x);
    }
  }

  lemma NothingTrimmed<T>(data: seq<seq<T>>, offsets: seq<nat>, values: seq<T>, x: T,
                          offsets': seq<nat>, values': seq<T>)
    requires WellFormed([offsets], |values|) && PaddedRows(offsets, values, x, data)
    requires Spells(data, x, offsets', values')
    requires forall i: nat :: i < |data| ==> TrimLen(data[i], x) == Width(offsets, i)
    ensures offsets' == offsets && values' == values
  {
    SplitMono(offsets, 0, 0);
    forall k: nat | k < |offsets|
      ensures offsets[k] == offsets'[k]
    {
      SameOffsets(offsets, offsets', k);
    }
    assert offsets == offsets';
    RowsAt(data, offsets, values, x);
    SameValues(data, offsets, x, values, values');
  }

  lemma RowsAt<T>(data: seq<seq<T>>, offsets: seq<nat>, values: seq<T>, x: T)
    requires IsSplit(offsets) && offsets[|offsets| - 1] == |values| && PaddedRows(offsets, values, x, data)
    requires forall i: nat :: i < |data| ==> TrimLen(data[i], x) == Width(offsets, i)
    ensures forall i :: 0 <= i < |data| ==> RowAt(values, offsets[i], data[i], TrimLen(data[i], x))
  {
    forall i: nat | i < |data|
      ensures RowAt(values, offsets[i], data[i], TrimLen(data[i], x))
    {
      TrimmedRowAt(data, offsets, values, x, i);
    }
  }

  lemma TrimmedRowAt<T>(data: seq<seq<T>>, offsets: seq<nat>, values: seq<T>, x: T, i: nat)
    requires IsSplit(offsets) && offsets[|offsets| - 1] == |values| && PaddedRows(offsets, values, x, data)
    requires i < |data| && TrimLen(data[i], x) == Width(offsets, i)
    ensures RowAt(values, offsets[i], data[i], TrimLen(data[i], x))
  {
    SplitMono(offsets, i + 1, |offsets| - 1);
    OneRowAt(data, offsets, values, x, i, Width(offsets, i));
  }

  lemma OneRowAt<T>(data: seq<seq<T>>, offsets: seq<nat>, values: seq<T>, x: T, i: nat, w: nat)
    requires IsSplit(offsets) && PaddedRows(offsets, values, x, data) && i < |data| && w == Width(offsets, i) <= |data[i]|
    requires offsets[i + 1] <= |values|
    ensures RowAt(values, offsets[i], data[i], w)
  {
  }
}
