/** `ragged_to_dense` on the CPU: every value lands at its nested coordinate, every other cell keeps the default. */
module RaggedToDense {
  import opened Collections
  import opened DenseShapes
  import opened Odometer
  import opened Ragged

  /** The flat cell of value `p`. */
  ghost function CellOf(splits: seq<seq<nat>>, n: nat, p: nat): (k: nat)
    requires WellFormed(splits, n) && p < n
    ensures k < Size(DenseShape(splits, n))
  {
    CoordInShape(splits, n, p);
    CellBound(Coord(splits, n, p), DenseShape(splits, n));
    Cell(Coord(splits, n, p), DenseShape(splits, n))
  }

  lemma CellOfInjective(splits: seq<seq<nat>>, n: nat, p: nat, q: nat)
    requires WellFormed(splits, n) && p < n && q < n
    ensures CellOf(splits, n, p) == CellOf(splits, n, q) <==> p == q
  {
    CoordInShape(splits, n, p);
    CoordInShape(splits, n, q);
    CellInjective(Coord(splits, n, p), Coord(splits, n, q), DenseShape(splits, n));
    CoordInjective(splits, n, p, q);
  }

  /** The first `done` values sit in their cells; all other cells hold the default. */
  ghost predicate Filled<T>(out: seq<T>, splits: seq<seq<nat>>, values: seq<T>, default: T, done: nat)
    requires WellFormed(splits, |values|) && done <= |values|
  {
    && |out| == Size(DenseShape(splits, |values|))
    && (forall p: nat :: p < done ==> out[CellOf(splits, |values|, p)] == values[p])
    && forall k: nat :: k < |out| && (forall p: nat :: p < done ==> CellOf(splits, |values|, p) != k) ==>
         out[k] == default
  }

  lemma FillOne<T>(out: seq<T>, splits: seq<seq<nat>>, values: seq<T>, default: T, p: nat)
    requires WellFormed(splits, |values|) && p < |values| && Filled(out, splits, values, default, p)
    ensures Filled(out[CellOf(splits, |values|, p) := values[p]], splits, values, default, p + 1)
  {
    forall q: nat | q < p
      ensures CellOf(splits, |values|, q) != CellOf(splits, |values|, p)
    {
      CellOfInjective(splits, |values|, q, p);
    }
  }

  /** The dense tensor seen through the nested lists: the element a path leads to, or the default. */
  ghost predicate IsDenseOf<T>(out: seq<T>, splits: seq<seq<nat>>, values: seq<T>, default: T)
    requires WellFormed(splits, |values|) && splits != []
  {
    var shape := DenseShape(splits, |values|);
    && |out| == Size(shape)
    && forall c: seq<nat> :: InShape(c, shape) ==> CellValue(out, c, shape) == Some(Expected(splits, values, default, c))
  }

  ghost function CellValue<T>(out: seq<T>, c: seq<nat>, shape: seq<nat>): Option<T>
    requires |c| == |shape|
  {
    if Cell(c, shape) < |out| then Some(out[Cell(c, shape)]) else None
  }

  ghost function Expected<T>(splits: seq<seq<nat>>, values: seq<T>, default: T, c: seq<nat>): T
    requires WellFormed(splits, |values|) && splits != [] && |c| == |splits| + 1
  {
    if c[0] < Count(splits, |values|) then
      match At(Row(splits, values, c[0]), c[1..])
      case Some(v) => v
      case None => default
    else default
  }

  lemma FilledMeaning<T>(out: seq<T>, splits: seq<seq<nat>>, values: seq<T>, default: T)
    requires WellFormed(splits, |values|) && splits != [] && Filled(out, splits, values, default, |values|)
    ensures IsDenseOf(out, splits, values, default)
  {
    var n, shape := |values|, DenseShape(splits, |values|);
    forall c: seq<nat> | InShape(c, shape)
      ensures CellValue(out, c, shape) == Some(Expected(splits, values, default, c))
    {
      CellBound(c, shape);
      DenseShapeAt(splits, n, 0);
      CoordMeaning(splits, values, c);
      forall p: nat | p < n && CellOf(splits, n, p) == Cell(c, shape)
        ensures Coord(splits, n, p) == c
      {
        CoordInShape(splits, n, p);
        CellInjective(Coord(splits, n, p), c, shape);
      }
      if p: nat :| p < n && Coord(splits, n, p) == c {
        assert out[CellOf(splits, n, p)] == values[p];
      }
    }
  }

  /** The cells of one innermost segment follow each other. */
  lemma SegmentCell(splits: seq<seq<nat>>, n: nat, f: nat, i: nat)
    requires splits != [] && WellFormed(splits, n)
    requires f + 1 < |splits[|splits| - 1]|
    requires splits[|splits| - 1][f] + i < splits[|splits| - 1][f + 1]
    ensures var m := |splits| - 1;
            && splits[m][f] + i < n && WellFormed(splits[..m], |splits[m]| - 1)
            && CellOf(splits, n, splits[m][f] + i)
               == Dot(Coord(splits[..m], |splits[m]| - 1, f), Steps(DenseShape(splits, n)), m + 1) + i
  {
    CoordStep(splits, n, f, splits[|splits| - 1][f] + i);
    DotSnoc(Coord(splits[..|splits| - 1], |splits[|splits| - 1]| - 1, f), i, DenseShape(splits, n));
  }

  lemma FillInSegment<T>(out: seq<T>, splits: seq<seq<nat>>, values: seq<T>, default: T, f: nat, i: nat, base: nat)
    requires splits != [] && WellFormed(splits, |values|)
    requires f + 1 < |splits[|splits| - 1]|
    requires splits[|splits| - 1][f] + i < splits[|splits| - 1][f + 1] <= |values|
    requires Filled(out, splits, values, default, splits[|splits| - 1][f] + i)
    requires WellFormed(splits[..|splits| - 1], |splits[|splits| - 1]| - 1)
    requires base == Dot(Coord(splits[..|splits| - 1], |splits[|splits| - 1]| - 1, f),
                         Steps(DenseShape(splits, |values|)), |splits|)
    ensures base + i < |out|
    ensures var p := splits[|splits| - 1][f] + i;
            Filled(out[base + i := values[p]], splits, values, default, p + 1)
  {
    SegmentCell(splits, |values|, f, i);
    FillOne(out, splits, values, default, splits[|splits| - 1][f] + i);
  }

  method BaseOffset(prefix: array<nat>, steps: seq<nat>) returns (layerBaseOffset: nat)
    requires prefix.Length <= |steps|
    ensures layerBaseOffset == Dot(prefix[..], steps, prefix.Length)
  {
    layerBaseOffset := 0;
    for dim := 0 to prefix.Length
      invariant layerBaseOffset == Dot(prefix[..], steps, dim)
    {
      layerBaseOffset := layerBaseOffset + prefix[dim] * steps[dim];
    }
  }

  /** Writes the values of one innermost segment next to each other. */
  method CopySegment<T>(values: seq<T>, offsets: seq<seq<nat>>, steps: seq<nat>, output: array<T>, ghost default: T,
                        prefix: array<nat>, finalPos: nat)
    requires offsets != [] && WellFormed(offsets, |values|)
    requires steps == Steps(DenseShape(offsets, |values|))
    requires finalPos + 1 < |offsets[|offsets| - 1]|
    requires WellFormed(offsets[..|offsets| - 1], |offsets[|offsets| - 1]| - 1)
    requires prefix[..] == Coord(offsets[..|offsets| - 1], |offsets[|offsets| - 1]| - 1, finalPos)
    requires offsets[|offsets| - 1][finalPos] <= |values|
    requires Filled(output[..], offsets, values, default, offsets[|offsets| - 1][finalPos])
    modifies output
    ensures offsets[|offsets| - 1][finalPos + 1] <= |values|
    ensures Filled(output[..], offsets, values, default, offsets[|offsets| - 1][finalPos + 1])
  {
    var layerBaseOffset := BaseOffset(prefix, steps);
    var finalSplits := offsets[|offsets| - 1];
    WithoutInner(offsets, |values|);
    SplitMono(finalSplits, finalPos + 1, |finalSplits| - 1);
    var sliceLen := Width(finalSplits, finalPos);
    for i := 0 to sliceLen
      invariant Filled(output[..], offsets, values, default, finalSplits[finalPos] + i)
    {
      ghost var before := output[..];
      FillInSegment(before, offsets, values, default, finalPos, i, layerBaseOffset);
      output[layerBaseOffset + i] := values[finalSplits[finalPos] + i];
      assert output[..] == before[layerBaseOffset + i := values[finalSplits[finalPos] + i]];
    }
  }

  /** One basic segment: the odometer is brought up to it, its values are written, the odometer moves on. */
  method CopyNext<T>(values: seq<T>, offsets: seq<seq<nat>>, steps: seq<nat>, output: array<T>, ghost default: T,
                     pos: array<nat>, ghost last: nat, ghost w: nat)
    requires |offsets| == last + 1 == pos.Length && WellFormed(offsets, |values|) && pos[last] < w == |offsets[last]| - 1
    requires WellFormed(offsets[..last], w) && NotAhead(pos[..], offsets[..last], w)
    requires steps == Steps(DenseShape(offsets, |values|)) && offsets[last][pos[last]] <= |values|
    requires Filled(output[..], offsets, values, default, offsets[last][pos[last]])
    requires (pos as object) != output
    modifies pos, output
    ensures pos[last] == old(pos[last]) + 1 && NotAhead(pos[..], offsets[..last], w)
    ensures offsets[last][pos[last]] <= |values|
    ensures Filled(output[..], offsets, values, default, offsets[last][pos[last]])
  {
    ghost var before := output[..];
    var prefix := EnclosingPrefix(pos, offsets, w);
    assert output[..] == before;
    CopySegment(values, offsets, steps, output, default, prefix, pos[|offsets| - 1]);
    ghost var after := output[..];
    pos[|offsets| - 1] := pos[|offsets| - 1] + 1;
    assert output[..] == after;
  }

  /** The kernel: one basic segment per round. */
  method Kernel<T>(values: seq<T>, offsets: seq<seq<nat>>, steps: seq<nat>, output: array<T>, ghost default: T)
    requires offsets != [] && WellFormed(offsets, |values|)
    requires steps == Steps(DenseShape(offsets, |values|))
    requires Filled(output[..], offsets, values, default, 0)
    modifies output
    ensures Filled(output[..], offsets, values, default, |values|)
  {
    var last := |offsets| - 1;
    var maxFinalPos := |offsets[last]| - 1;
    WithoutInner(offsets, |values|);
    var pos := new nat[|offsets|](i => 0);
    SplitMono(offsets[last], 0, 0);
    while pos[last] < maxFinalPos
      invariant pos[last] <= maxFinalPos
      invariant NotAhead(pos[..], offsets[..last], maxFinalPos)
      invariant offsets[last][pos[last]] <= |values|
      invariant Filled(output[..], offsets, values, default, offsets[last][pos[last]])
      decreases maxFinalPos - pos[last]
    {
      CopyNext(values, offsets, steps, output, default, pos, last, maxFinalPos);
    }
  }

  method ComputeShape(offsets: seq<seq<nat>>, ghost n: nat) returns (shape: seq<nat>)
    requires offsets != [] && WellFormed(offsets, n)
    ensures shape == DenseShape(offsets, n)
  {
    shape := [|offsets[0]| - 1];
    DenseShapeAt(offsets, n, 0);
    for dim := 0 to |offsets|
      invariant |shape| == dim + 1
      invariant forall d :: 0 <= d <= dim ==> shape[d] == DenseShape(offsets, n)[d]
    {
      DenseShapeAt(offsets, n, dim + 1);
      shape := shape + [MaxWidth(offsets[dim])];
    }
  }

  /** The operator: row count and widest segments give the shape, the kernel fills a tensor of defaults. */
  method RaggedToDenseOp<T(0)>(values: seq<T>, offsets: seq<seq<nat>>, default: T)
    returns (shape: seq<nat>, output: array<T>)
    requires offsets != [] && WellFormed(offsets, |values|)
    ensures shape == DenseShape(offsets, |values|)
    ensures Filled(output[..], offsets, values, default, |values|)
    ensures IsDenseOf(output[..], offsets, values, default)
    ensures |offsets| == 1 ==> output.Length == (|offsets[0]| - 1) * MaxWidth(offsets[0])
    ensures forall k :: 0 <= k < output.Length ==> IsCell(k, shape)
  {
    shape := ComputeShape(offsets, |values|);
    if |values| == 0 {
      NoValuesNoCells(offsets);
      output := new T[0];
    } else {
      var steps := ComputeSteps(shape);
      StepsAt(shape, 0);
      output := new T[shape[0] * steps[0]](i => default);
      Kernel(values, offsets, steps[..], output, default);
    }
    FilledMeaning(output[..], offsets, values, default);
    CellsOf(offsets, |values|);
  }

  /** The cells of the dense tensor: no gaps, and for one level rows times the widest of them. */
  lemma CellsOf(offsets: seq<seq<nat>>, n: nat)
    requires offsets != [] && WellFormed(offsets, n)
    ensures forall k :: 0 <= k < Size(DenseShape(offsets, n)) ==> IsCell(k, DenseShape(offsets, n))
    ensures |offsets| == 1 ==> Size(DenseShape(offsets, n)) == (|offsets[0]| - 1) * MaxWidth(offsets[0])
  {
    var shape := DenseShape(offsets, n);
    forall k | 0 <= k < Size(shape)
      ensures IsCell(k, shape)
    {
      CellOnto(k, shape);
    }
    if |offsets| == 1 {
      DenseShapeAt(offsets, n, 0);
      DenseShapeAt(offsets, n, 1);
      assert shape == [|offsets[0]| - 1] + [MaxWidth(offsets[0])];
      SizeProduct([|offsets[0]| - 1], MaxWidth(offsets[0]));
      SizeProduct([], |offsets[0]| - 1);
    }
  }
}
