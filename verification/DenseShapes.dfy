/** Row-major addressing of a dense tensor. */
module DenseShapes {
  import opened BlockedArray
  import opened Ragged

  function Size(shape: seq<nat>): nat {
    if shape == [] then 1 else shape[0] * Size(shape[1..])
  }

  ghost predicate InShape(c: seq<nat>, shape: seq<nat>) {
    |c| == |shape| && forall d :: 0 <= d < |c| ==> c[d] < shape[d]
  }

  /** The flat position of a coordinate. */
  ghost function Cell(c: seq<nat>, shape: seq<nat>): nat
    requires |c| == |shape|
  {
    if c == [] then 0 else c[0] * Size(shape[1..]) + Cell(c[1..], shape[1..])
  }

  lemma {:induction false} CellBound(c: seq<nat>, shape: seq<nat>)
    requires InShape(c, shape)
    ensures Cell(c, shape) < Size(shape)
  {
    if c != [] {
      CellBound(c[1..], shape[1..]);
      RowBound(c[0], shape[0], Cell(c[1..], shape[1..]), Size(shape[1..]));
    }
  }

  lemma RowBound(row: nat, rows: nat, cell: nat, size: nat)
    requires row < rows && cell < size
    ensures row * size + cell < rows * size
  {
    MulMono(row + 1, rows, size);
  }

  /** Distinct coordinates inside the shape have distinct cells. */
  lemma {:induction false} CellInjective(c: seq<nat>, e: seq<nat>, shape: seq<nat>)
    requires InShape(c, shape) && InShape(e, shape)
    ensures Cell(c, shape) == Cell(e, shape) <==> c == e
  {
    if c != [] && Cell(c, shape) == Cell(e, shape) {
      var rest := Size(shape[1..]);
      CellBound(c[1..], shape[1..]);
      CellBound(e[1..], shape[1..]);
      DivUnique(c[0], Cell(c[1..], shape[1..]), rest);
      DivUnique(e[0], Cell(e[1..], shape[1..]), rest);
      CellInjective(c[1..], e[1..], shape[1..]);
      assert c == [c[0]] + c[1..] && e == [e[0]] + e[1..];
    }
  }

  /** Lexicographic order on coordinates of equal length. */
  predicate LexLess(a: seq<nat>, b: seq<nat>)
    requires |a| == |b|
  {
    a != [] && (a[0] < b[0] || (a[0] == b[0] && LexLess(a[1..], b[1..])))
  }

  /** Cells are numbered in the order of their coordinates. */
  lemma {:induction false} CellOrder(c: seq<nat>, e: seq<nat>, shape: seq<nat>)
    requires InShape(c, shape) && InShape(e, shape)
    ensures Cell(c, shape) < Cell(e, shape) <==> LexLess(c, e)
  {
    if c != [] {
      var rest := Size(shape[1..]);
      CellBound(c[1..], shape[1..]);
      CellBound(e[1..], shape[1..]);
      CellOrder(c[1..], e[1..], shape[1..]);
      if c[0] < e[0] {
        RowBound(c[0], e[0], Cell(c[1..], shape[1..]), rest);
      } else if e[0] < c[0] {
        RowBound(e[0], c[0], Cell(e[1..], shape[1..]), rest);
      }
    }
  }

  ghost predicate IsCell(k: nat, shape: seq<nat>) {
    exists c :: InShape(c, shape) && Cell(c, shape) == k
  }

  /** And none is left out: with order and bounds, this fixes every cell. */
  lemma {:induction false} CellOnto(k: nat, shape: seq<nat>)
    requires k < Size(shape)
    ensures IsCell(k, shape)
  {
    if shape == [] {
      assert InShape([], shape);
    } else {
      var rest := Size(shape[1..]);
      RestPositive(shape[0], rest, k);
      var row, inner := k / rest, k % rest;
      DivInRange(k, rest, shape[0]);
      CellOnto(inner, shape[1..]);
      var c :| InShape(c, shape[1..]) && Cell(c, shape[1..]) == inner;
      var e := [row] + c;
      assert e[1..] == c && InShape(e, shape);
      assert Cell(e, shape) == row * rest + inner;
    }
  }

  lemma PairCell(i: nat, j: nat, rows: nat, cols: nat)
    ensures Cell([i, j], [rows, cols]) == i * cols + j && Size([rows, cols]) == rows * cols
  {
    assert [i, j][1..] == [j] && [rows, cols][1..] == [cols] && [j][1..] == [] && [cols][1..] == [];
    assert Size([cols]) == cols && Cell([j], [cols]) == j;
  }

  lemma RestPositive(rows: nat, rest: nat, k: nat)
    requires k < rows * rest
    ensures rest > 0
  {
  }

  /** The size is the product of the dimensions. */
  lemma {:induction false} SizeProduct(shape: seq<nat>, w: nat)
    ensures Size(shape + [w]) == Size(shape) * w && Size([w]) == w
  {
    if shape == [] {
      assert [w][1..] == [] && shape + [w] == [w];
    } else {
      var rest := Size(shape[1..]);
      assert (shape + [w])[1..] == shape[1..] + [w];
      SizeProduct(shape[1..], w);
      assert shape[0] * (rest * w) == shape[0] * rest * w;
    }
  }

  /** The stride of each dimension. */
  ghost function Steps(shape: seq<nat>): (steps: seq<nat>)
    ensures |steps| == |shape|
  {
    if shape == [] then [] else [Size(shape[1..])] + Steps(shape[1..])
  }

  lemma {:induction false} StepsAt(shape: seq<nat>, d: nat)
    requires d < |shape|
    ensures Steps(shape)[d] == Size(shape[d + 1..])
  {
    if d > 0 {
      assert shape[1..][d..] == shape[d + 1..];
      StepsAt(shape[1..], d - 1);
    }
  }

  /** One step in dimension `d` moves the cell by `step`. */
  ghost predicate StrideOf(shape: seq<nat>, d: nat, step: nat)
    requires d < |shape|
  {
    forall c: seq<nat> :: |c| == |shape| ==> Cell(c[d := c[d] + 1], shape) == Cell(c, shape) + step
  }

  lemma {:induction false} StepMoves(c: seq<nat>, shape: seq<nat>, d: nat)
    requires d < |c| == |shape|
    ensures Cell(c[d := c[d] + 1], shape) == Cell(c, shape) + Size(shape[d + 1..])
  {
    var e, rest := c[d := c[d] + 1], Size(shape[1..]);
    if d == 0 {
      assert e[1..] == c[1..];
      assert (c[0] + 1) * rest == c[0] * rest + rest;
    } else {
      assert e[1..] == c[1..][d - 1 := c[1..][d - 1] + 1] && shape[1..][d..] == shape[d + 1..];
      StepMoves(c[1..], shape[1..], d - 1);
    }
  }

  /** Computes the strides from the innermost dimension outwards. */
  method ComputeSteps(shape: seq<nat>) returns (steps: array<nat>)
    requires shape != []
    ensures fresh(steps) && steps[..] == Steps(shape)
    ensures forall d :: 0 <= d < |shape| ==> StrideOf(shape, d, steps[d])
  {
    steps := new nat[|shape|];
    var dim := |shape| - 1;
    while dim >= 0
      invariant -1 <= dim < |shape|
      invariant forall d :: dim < d < |shape| ==> steps[d] == Size(shape[d + 1..])
    {
      if dim == |shape| - 1 {
        assert shape[dim + 1..] == [];
        steps[dim] := 1;
      } else {
        assert shape[dim + 1..][1..] == shape[dim + 2..];
        steps[dim] := shape[dim + 1] * steps[dim + 1];
      }
      dim := dim - 1;
    }
    forall d | 0 <= d < |shape|
      ensures steps[d] == Steps(shape)[d]
    {
      StepsAt(shape, d);
    }
    forall d, c: seq<nat> | 0 <= d < |shape| && |c| == |shape|
      ensures Cell(c[d := c[d] + 1], shape) == Cell(c, shape) + steps[d]
    {
      StepMoves(c, shape, d);
    }
  }

  /** The sum a kernel accumulates over the first `k` dimensions. */
  ghost function Dot(c: seq<nat>, steps: seq<nat>, k: nat): nat
    requires k <= |c| && k <= |steps|
  {
    if k == 0 then 0 else Dot(c, steps, k - 1) + c[k - 1] * steps[k - 1]
  }

  lemma {:induction false} DotShift(c: seq<nat>, steps: seq<nat>, k: nat)
    requires 0 < k <= |c| && k <= |steps|
    ensures Dot(c, steps, k) == c[0] * steps[0] + Dot(c[1..], steps[1..], k - 1)
  {
    if k > 1 {
      DotShift(c, steps, k - 1);
    }
  }

  lemma {:induction false} DotIsCell(c: seq<nat>, shape: seq<nat>)
    requires |c| == |shape|
    ensures Dot(c, Steps(shape), |c|) == Cell(c, shape)
  {
    if c != [] {
      DotShift(c, Steps(shape), |c|);
      DotIsCell(c[1..], shape[1..]);
    }
  }

  /** Same sum, with the last dimension (stride 1) added separately. */
  lemma DotSnoc(prefix: seq<nat>, last: nat, shape: seq<nat>)
    requires |prefix| + 1 == |shape|
    ensures Cell(prefix + [last], shape) == Dot(prefix, Steps(shape), |prefix|) + last
  {
    DotIsCell(prefix + [last], shape);
    DotPrefix(prefix, last, Steps(shape), |prefix|);
    StepsAt(shape, |prefix|);
    assert shape[|shape|..] == [];
  }

  lemma {:induction false} DotPrefix(prefix: seq<nat>, last: nat, steps: seq<nat>, k: nat)
    requires k <= |prefix| <= |steps|
    ensures Dot(prefix + [last], steps, k) == Dot(prefix, steps, k)
  {
    if k > 0 {
      DotPrefix(prefix, last, steps, k - 1);
    }
  }

  /** The widest segment of a level, 0 when it has none. */
  function MaxWidth(split: seq<nat>): nat
    requires IsSplit(split)
  {
    if |split| == 1 then 0
    else
      var n := |split| - 1;
      var before, last := MaxWidth(split[..n]), Width(split, n - 1);
      if before > last then before else last
  }

  lemma {:induction false} WidthBound(split: seq<nat>, i: nat)
    requires IsSplit(split) && i + 1 < |split|
    ensures Width(split, i) <= MaxWidth(split)
  {
    if i + 2 < |split| {
      WidthBound(split[..|split| - 1], i);
    }
  }

  lemma {:induction false} WidthReached(split: seq<nat>) returns (i: nat)
    requires IsSplit(split) && |split| > 1
    ensures i + 1 < |split| && Width(split, i) == MaxWidth(split)
  {
    var n := |split| - 1;
    if n > 1 && MaxWidth(split[..n]) > Width(split, n - 1) {
      i := WidthReached(split[..n]);
    } else {
      i := n - 1;
    }
  }

  /** The widest segment is one, and none is wider; without segments it is 0. */
  lemma WidestSegment(split: seq<nat>)
    requires IsSplit(split)
    ensures forall i :: 0 <= i < |split| - 1 ==> Width(split, i) <= MaxWidth(split)
    ensures if |split| == 1 then MaxWidth(split) == 0 else exists i :: 0 <= i < |split| - 1 && Width(split, i) == MaxWidth(split)
  {
    forall i | 0 <= i < |split| - 1
      ensures Width(split, i) <= MaxWidth(split)
    {
      WidthBound(split, i);
    }
    if |split| > 1 {
      var i := WidthReached(split);
    }
  }

  /** Row count first, then the widest segment of every level. */
  ghost function DenseShape(splits: seq<seq<nat>>, n: nat): (shape: seq<nat>)
    requires WellFormed(splits, n)
    ensures |shape| == |splits| + 1
    decreases |splits|
  {
    if splits == [] then [n]
    else
      WithoutInner(splits, n);
      var m := |splits| - 1;
      DenseShape(splits[..m], |splits[m]| - 1) + [MaxWidth(splits[m])]
  }

  lemma {:induction false} DenseShapeAt(splits: seq<seq<nat>>, n: nat, d: nat)
    requires WellFormed(splits, n) && d <= |splits|
    ensures d == 0 ==> DenseShape(splits, n)[0] == Count(splits, n)
    ensures d > 0 ==> IsSplit(splits[d - 1]) && DenseShape(splits, n)[d] == MaxWidth(splits[d - 1])
    decreases |splits|
  {
    if splits != [] {
      WithoutInner(splits, n);
      if d < |splits| {
        DenseShapeAt(splits[..|splits| - 1], |splits[|splits| - 1]| - 1, d);
      }
    }
  }

  /** Every value's coordinate lies inside the dense shape. */
  lemma {:induction false} CoordInShape(splits: seq<seq<nat>>, n: nat, p: nat)
    requires WellFormed(splits, n) && p < n
    ensures InShape(Coord(splits, n, p), DenseShape(splits, n))
    decreases |splits|
  {
    if splits != [] {
      WithoutInner(splits, n);
      var m := |splits| - 1;
      var s := Seg(splits[m], p);
      CoordInShape(splits[..m], |splits[m]| - 1, s);
      WidthBound(splits[m], s);
    }
  }

  /** Without values there are no cells either. */
  lemma NoValuesNoCells(splits: seq<seq<nat>>)
    requires splits != [] && WellFormed(splits, 0)
    ensures Size(DenseShape(splits, 0)) == 0
  {
    WithoutInner(splits, 0);
    var inner := splits[|splits| - 1];
    ZeroWidth(inner);
    ZeroSize(DenseShape(splits, 0), |splits|);
  }

  lemma {:induction false} ZeroWidth(split: seq<nat>)
    requires IsSplit(split) && split[|split| - 1] == 0
    ensures MaxWidth(split) == 0
  {
    if |split| > 1 {
      ZeroWidth(split[..|split| - 1]);
    }
  }

  lemma {:induction false} ZeroSize(shape: seq<nat>, d: nat)
    requires d < |shape| && shape[d] == 0
    ensures Size(shape) == 0
  {
    if d > 0 {
      ZeroSize(shape[1..], d - 1);
    }
  }
}
