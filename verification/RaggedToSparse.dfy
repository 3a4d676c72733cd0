/** `ragged_to_sparse` on the CPU: one coordinate per value, already in the order and form coalescing would give. */
module RaggedToSparse {
  import opened BlockedArray
  import opened DenseShapes
  import opened Odometer
  import opened Ragged
  import RaggedToDense

  lemma {:induction false} LexSnoc(a: seq<nat>, b: seq<nat>, x: nat, y: nat)
    requires |a| == |b|
    ensures LexLess(a + [x], b + [y]) <==> LexLess(a, b) || (a == b && x < y)
  {
    if a == [] {
    } else {
      assert (a + [x])[1..] == a[1..] + [x] && (b + [y])[1..] == b[1..] + [y];
      LexSnoc(a[1..], b[1..], x, y);
      assert a == [a[0]] + a[1..] && b == [b[0]] + b[1..];
    }
  }

  lemma {:induction false} LexOrder(a: seq<nat>, b: seq<nat>, c: seq<nat>)
    requires |a| == |b| == |c|
    ensures !LexLess(a, a)
    ensures LexLess(a, b) && LexLess(b, c) ==> LexLess(a, c)
    ensures LexLess(a, b) || LexLess(b, a) || a == b
  {
    if a != [] {
      LexOrder(a[1..], b[1..], c[1..]);
      assert a == [a[0]] + a[1..] && b == [b[0]] + b[1..];
    }
  }

  lemma SnocIncreases(a: seq<nat>, b: seq<nat>, x: nat, y: nat)
    requires |a| == |b| && (LexLess(a, b) || (a == b && x < y))
    ensures LexLess(a + [x], b + [y])
  {
    LexSnoc(a, b, x, y);
  }

  lemma LastOffset(splits: seq<seq<nat>>, n: nat, p: nat)
    requires splits != [] && WellFormed(splits, n) && p < n
    ensures var m := |splits| - 1;
            && IsSplit(splits[m]) && splits[m][|splits[m]| - 1] == n && WellFormed(splits[..m], |splits[m]| - 1)
            && var s := Seg(splits[m], p);
            && splits[m][s] <= p && Coord(splits, n, p) == Coord(splits[..m], |splits[m]| - 1, s) + [p - splits[m][s]]
  {
    WithoutInner(splits, n);
  }

  /** Segments of two values: in order, and both below the number of segments. */
  lemma OuterSegments(splits: seq<seq<nat>>, n: nat, p: nat, q: nat)
    requires splits != [] && WellFormed(splits, n) && p < q < n
    ensures var m := |splits| - 1;
            && IsSplit(splits[m]) && splits[m][|splits[m]| - 1] == n && WellFormed(splits[..m], |splits[m]| - 1)
            && Seg(splits[m], p) <= Seg(splits[m], q) < |splits[m]| - 1
  {
    WithoutInner(splits, n);
    SegMono(splits[|splits| - 1], p, q);
  }

  lemma CoordsNext(splits: seq<seq<nat>>, n: nat, p: nat, q: nat, s: nat, t: nat)
    requires splits != [] && WellFormed(splits, n) && p < q < n
    requires var m := |splits| - 1;
             && IsSplit(splits[m]) && splits[m][|splits[m]| - 1] == n && WellFormed(splits[..m], |splits[m]| - 1)
             && s == Seg(splits[m], p) && t == Seg(splits[m], q) && s <= t < |splits[m]| - 1
             && (s < t ==> LexLess(Coord(splits[..m], |splits[m]| - 1, s), Coord(splits[..m], |splits[m]| - 1, t)))
    ensures LexLess(Coord(splits, n, p), Coord(splits, n, q))
  {
    var m := |splits| - 1;
    LastOffset(splits, n, p);
    LastOffset(splits, n, q);
    SnocIncreases(Coord(splits[..m], |splits[m]| - 1, s), Coord(splits[..m], |splits[m]| - 1, t),
                  p - splits[m][s], q - splits[m][t]);
  }

  /** Later values have lexicographically larger coordinates. */
  lemma {:induction false} CoordsIncrease(splits: seq<seq<nat>>, n: nat, p: nat, q: nat)
    requires WellFormed(splits, n) && p < q < n
    ensures LexLess(Coord(splits, n, p), Coord(splits, n, q))
    decreases |splits|
  {
    if splits != [] {
      OuterSegments(splits, n, p, q);
      var m := |splits| - 1;
      var s, t := Seg(splits[m], p), Seg(splits[m], q);
      if s < t {
        CoordsIncrease(splits[..m], |splits[m]| - 1, s, t);
      }
      CoordsNext(splits, n, p, q, s, t);
    }
  }

  ghost function Coords(splits: seq<seq<nat>>, n: nat): (cs: seq<seq<nat>>)
    requires WellFormed(splits, n)
    ensures |cs| == n && forall p :: 0 <= p < n ==> cs[p] == Coord(splits, n, p)
  {
    FirstCoords(splits, n, n)
  }

  ghost function FirstCoords(splits: seq<seq<nat>>, n: nat, k: nat): (cs: seq<seq<nat>>)
    requires WellFormed(splits, n) && k <= n
    ensures |cs| == k && forall p :: 0 <= p < k ==> cs[p] == Coord(splits, n, p)
  {
    if k == 0 then [] else FirstCoords(splits, n, k - 1) + [Coord(splits, n, k - 1)]
  }

  ghost predicate Increasing(cs: seq<seq<nat>>, dims: nat) {
    && (forall i :: 0 <= i < |cs| ==> |cs[i]| == dims)
    && forall i, j :: 0 <= i < j < |cs| ==> LexLess(cs[i], cs[j])
  }

  /** What coalescing promises: the same coordinates, increasing, and a value that occurs under a coordinate
      of its own is kept as it is. (Values sharing a coordinate would be summed.) */
  ghost predicate Coalesces<T(!new)>(cs: seq<seq<nat>>, values: seq<T>, outCs: seq<seq<nat>>, outValues: seq<T>, dims: nat)
    requires |cs| == |values|
  {
    && |outCs| == |outValues|
    && Increasing(outCs, dims)
    && (forall c :: c in cs <==> c in outCs)
    && KeepsSingles(cs, values, outCs, outValues)
  }

  ghost predicate KeepsSingles<T(!new)>(cs: seq<seq<nat>>, values: seq<T>, outCs: seq<seq<nat>>, outValues: seq<T>)
    requires |cs| == |values| && |outCs| == |outValues|
  {
    forall k, p :: 0 <= k < |outCs| && 0 <= p < |cs| && cs[p] == outCs[k] && Unrepeated(cs, p) ==>
      outValues[k] == values[p]
  }

  ghost predicate Unrepeated(cs: seq<seq<nat>>, p: nat)
    requires p < |cs|
  {
    forall q :: 0 <= q < |cs| && cs[q] == cs[p] ==> q == p
  }

  lemma CoordsAreIncreasing(splits: seq<seq<nat>>, n: nat)
    requires WellFormed(splits, n)
    ensures Increasing(Coords(splits, n), |splits| + 1)
    ensures forall p :: 0 <= p < n ==> Unrepeated(Coords(splits, n), p)
  {
    var cs := Coords(splits, n);
    forall i, j | 0 <= i < j < n
      ensures LexLess(cs[i], cs[j])
    {
      CoordsIncrease(splits, n, i, j);
    }
    forall p, q | 0 <= p < n && 0 <= q < n && cs[q] == cs[p]
      ensures q == p
    {
      CoordInjective(splits, n, p, q);
    }
  }

  lemma SinglesKept<T(!new)>(cs: seq<seq<nat>>, values: seq<T>, outValues: seq<T>)
    requires |cs| == |values| == |outValues| && KeepsSingles(cs, values, cs, outValues)
    requires forall p :: 0 <= p < |cs| ==> Unrepeated(cs, p)
    ensures outValues == values
  {
  }

  /** Coalescing is bound to give these coordinates and values back as they are. */
  ghost predicate Unchanged<T(!new)>(cs: seq<seq<nat>>, values: seq<T>, dims: nat)
    requires |cs| == |values|
  {
    && Coalesces(cs, values, cs, values, dims)
    && forall outCs, outValues :: Coalesces(cs, values, outCs, outValues, dims) ==> outCs == cs && outValues == values
  }

  lemma CoalescesToItself<T(!new)>(cs: seq<seq<nat>>, values: seq<T>, dims: nat)
    requires |cs| == |values| && Increasing(cs, dims) && forall p :: 0 <= p < |cs| ==> Unrepeated(cs, p)
    ensures Unchanged(cs, values, dims)
  {
    forall outCs, outValues: seq<T> | Coalesces(cs, values, outCs, outValues, dims)
      ensures outCs == cs && outValues == values
    {
      SameIncreasing(cs, outCs, dims);
      SinglesKept(cs, values, outValues);
    }
  }

  /** The emitted coordinates are increasing, so coalescing neither merges nor moves anything. */
  lemma CoalesceChangesNothing<T(!new)>(splits: seq<seq<nat>>, values: seq<T>)
    requires WellFormed(splits, |values|)
    ensures Unchanged(Coords(splits, |values|), values, |splits| + 1)
  {
    CoordsAreIncreasing(splits, |values|);
    CoalescesToItself(Coords(splits, |values|), values, |splits| + 1);
  }

  /** Increasing lists with the same members are equal. */
  lemma {:induction false} SameIncreasing(a: seq<seq<nat>>, b: seq<seq<nat>>, dims: nat)
    requires Increasing(a, dims) && Increasing(b, dims)
    requires forall c :: c in a <==> c in b
    ensures a == b
  {
    assert (a != [] ==> a[0] in a) && (b != [] ==> b[0] in b);
    if a == [] || b == [] {
    } else {
      SameLast(a, b, dims);
      var m, k := |a| - 1, |b| - 1;
      forall c
        ensures c in a[..m] <==> c in b[..k]
      {
        InFront(a, c, dims);
        InFront(b, c, dims);
      }
      SameIncreasing(a[..m], b[..k], dims);
      assert a == a[..m] + [a[m]] && b == b[..k] + [b[k]];
    }
  }

  lemma InFront(a: seq<seq<nat>>, c: seq<nat>, dims: nat)
    requires Increasing(a, dims) && a != []
    ensures c in a[..|a| - 1] <==> c in a && c != a[|a| - 1]
  {
    var m := |a| - 1;
    assert a == a[..m] + [a[m]];
    forall i | 0 <= i < m
      ensures a[i] != a[m]
    {
      LexOrder(a[i], a[m], a[m]);
    }
  }

  lemma SameLast(a: seq<seq<nat>>, b: seq<seq<nat>>, dims: nat)
    requires Increasing(a, dims) && Increasing(b, dims) && a != [] && b != []
    requires forall c :: c in a <==> c in b
    ensures a[|a| - 1] == b[|b| - 1]
  {
    var x, y := a[|a| - 1], b[|b| - 1];
    assert x in a && y in b;
    var i :| 0 <= i < |b| && b[i] == x;
    var j :| 0 <= j < |a| && a[j] == y;
    LexOrder(x, y, x);
  }

  /** Scattering coordinates and values into a tensor, one after another. */
  ghost function ScatterAll<T>(base: seq<T>, cs: seq<seq<nat>>, values: seq<T>, shape: seq<nat>): (out: seq<T>)
    requires |cs| == |values|
    requires forall i :: 0 <= i < |cs| ==> InShape(cs[i], shape)
    requires |base| == Size(shape)
    ensures |out| == |base|
  {
    if cs == [] then base
    else
      var n := |cs| - 1;
      CellBound(cs[n], shape);
      ScatterAll(base, cs[..n], values[..n], shape)[Cell(cs[n], shape) := values[n]]
  }

  lemma ScatterSnoc<T>(base: seq<T>, cs: seq<seq<nat>>, values: seq<T>, shape: seq<nat>, c: seq<nat>, v: T)
    requires |cs| == |values| && |base| == Size(shape) && InShape(c, shape)
    requires forall i :: 0 <= i < |cs| ==> InShape(cs[i], shape)
    ensures Cell(c, shape) < |base|
    ensures ScatterAll(base, cs + [c], values + [v], shape) == ScatterAll(base, cs, values, shape)[Cell(c, shape) := v]
  {
    CellBound(c, shape);
    assert (cs + [c])[..|cs|] == cs && (values + [v])[..|cs|] == values;
  }

  lemma CoordsFit(splits: seq<seq<nat>>, n: nat, k: nat)
    requires WellFormed(splits, n) && k <= n
    ensures forall p :: 0 <= p < k ==> InShape(FirstCoords(splits, n, k)[p], DenseShape(splits, n))
  {
    forall p: nat | p < k
      ensures InShape(Coord(splits, n, p), DenseShape(splits, n))
    {
      CoordInShape(splits, n, p);
    }
  }

  /** The tensor after scattering the first `k` values. */
  ghost function Scattered<T>(base: seq<T>, splits: seq<seq<nat>>, values: seq<T>, k: nat): seq<T>
    requires WellFormed(splits, |values|) && k <= |values| && |base| == Size(DenseShape(splits, |values|))
  {
    CoordsFit(splits, |values|, k);
    ScatterAll(base, FirstCoords(splits, |values|, k), values[..k], DenseShape(splits, |values|))
  }

  lemma ScatterNext<T>(base: seq<T>, splits: seq<seq<nat>>, values: seq<T>, k: nat)
    requires WellFormed(splits, |values|) && k < |values| && |base| == Size(DenseShape(splits, |values|))
    ensures RaggedToDense.CellOf(splits, |values|, k) < |Scattered(base, splits, values, k)|
    ensures Scattered(base, splits, values, k + 1) ==
            Scattered(base, splits, values, k)[RaggedToDense.CellOf(splits, |values|, k) := values[k]]
  {
    CoordsFit(splits, |values|, k);
    CoordsFit(splits, |values|, k + 1);
    assert values[..k + 1] == values[..k] + [values[k]];
    CoordInShape(splits, |values|, k);
    ScatterSnoc(base, FirstCoords(splits, |values|, k), values[..k], DenseShape(splits, |values|),
                Coord(splits, |values|, k), values[k]);
  }

  lemma ScatterNone<T>(base: seq<T>, splits: seq<seq<nat>>, values: seq<T>)
    requires WellFormed(splits, |values|) && |base| == Size(DenseShape(splits, |values|))
    ensures Scattered(base, splits, values, 0) == base
  {
  }

  lemma {:induction false} ScatterFills<T>(base: seq<T>, splits: seq<seq<nat>>, values: seq<T>, default: T, k: nat)
    requires WellFormed(splits, |values|) && k <= |values|
    requires |base| == Size(DenseShape(splits, |values|)) && forall i :: 0 <= i < |base| ==> base[i] == default
    ensures RaggedToDense.Filled(Scattered(base, splits, values, k), splits, values, default, k)
  {
    if k == 0 {
      FilledNone(base, splits, values, default);
    } else {
      var j: nat := k - 1;
      ScatterFills(base, splits, values, default, j);
      FilledNext(base, splits, values, default, j, k);
    }
  }

  lemma FilledNone<T>(base: seq<T>, splits: seq<seq<nat>>, values: seq<T>, default: T)
    requires WellFormed(splits, |values|)
    requires |base| == Size(DenseShape(splits, |values|)) && forall i :: 0 <= i < |base| ==> base[i] == default
    ensures RaggedToDense.Filled(Scattered(base, splits, values, 0), splits, values, default, 0)
  {
    ScatterNone(base, splits, values);
  }

  lemma FilledNext<T>(base: seq<T>, splits: seq<seq<nat>>, values: seq<T>, default: T, j: nat, k: nat)
    requires WellFormed(splits, |values|) && j < |values| && k == j + 1 && |base| == Size(DenseShape(splits, |values|))
    requires RaggedToDense.Filled(Scattered(base, splits, values, j), splits, values, default, j)
    ensures RaggedToDense.Filled(Scattered(base, splits, values, k), splits, values, default, k)
  {
    ScatterNext(base, splits, values, j);
    RaggedToDense.FillOne(Scattered(base, splits, values, j), splits, values, default, j);
  }

  /** Scattering the sparse result into a tensor of defaults gives what `ragged_to_dense` computes. */
  lemma ScatterIsDense<T>(base: seq<T>, splits: seq<seq<nat>>, values: seq<T>, default: T, dense: seq<T>)
    requires WellFormed(splits, |values|)
    requires |base| == Size(DenseShape(splits, |values|)) && forall k :: 0 <= k < |base| ==> base[k] == default
    requires RaggedToDense.Filled(dense, splits, values, default, |values|)
    ensures forall p :: 0 <= p < |values| ==> InShape(Coords(splits, |values|)[p], DenseShape(splits, |values|))
    ensures ScatterAll(base, Coords(splits, |values|), values, DenseShape(splits, |values|)) == dense
  {
    var n := |values|;
    ScatterFills(base, splits, values, default, n);
    CoordsFit(splits, n, n);
    assert values[..n] == values;
    var out := ScatterAll(base, Coords(splits, n), values, DenseShape(splits, n));
    forall k: nat | k < |out|
      ensures out[k] == dense[k]
    {
      if p: nat :| p < n && RaggedToDense.CellOf(splits, n, p) == k {
        assert out[RaggedToDense.CellOf(splits, n, p)] == dense[RaggedToDense.CellOf(splits, n, p)];
      }
    }
  }

  /** Row `d`, column `p` of the coordinate matrix. */
  function Slot(p: nat, d: nat, nvals: nat): nat {
    d * nvals + p
  }

  /** A column's cells are those congruent to its number, further down for each next row. */
  lemma ColumnCell(p: nat, d: nat, nvals: nat, dims: nat)
    requires p < nvals && d < dims
    ensures Slot(p, d, nvals) < dims * nvals && Slot(p, d, nvals) % nvals == p
    ensures forall e: nat :: e < d ==> Slot(p, e, nvals) < Slot(p, d, nvals)
  {
    MulMono(d + 1, dims, nvals);
    DivUnique(d, p, nvals);
    forall e: nat | e < d
      ensures Slot(p, e, nvals) < Slot(p, d, nvals)
    {
      MulMono(e + 1, d, nvals);
    }
  }

  /** The first `done` columns hold the coordinates of the first `done` values. */
  ghost predicate Emitted(indices: seq<nat>, splits: seq<seq<nat>>, n: nat, done: nat)
    requires WellFormed(splits, n) && done <= n
  {
    && |indices| == (|splits| + 1) * n
    && forall p: nat, d: nat :: p < done && d <= |splits| ==>
         Slot(p, d, n) < |indices| && indices[Slot(p, d, n)] == Coord(splits, n, p)[d]
  }

  /** Dimension `d` of all coordinates is one run of the matrix, the `d`-th of its length. */
  ghost predicate HoldsDimension(indices: seq<nat>, n: nat, d: nat, cs: seq<seq<nat>>) {
    && |cs| == n && 0 <= d * n <= d * n + n <= |indices|
    && forall p :: 0 <= p < n ==> d < |cs[p]| && indices[d * n..d * n + n][p] == cs[p][d]
  }

  lemma DimensionHeld(indices: seq<nat>, n: nat, dims: nat, d: nat, cs: seq<seq<nat>>)
    requires |indices| == dims * n && d < dims && |cs| == n && forall p :: 0 <= p < n ==> |cs[p]| == dims
    requires forall p: nat :: p < n ==> Slot(p, d, n) < |indices| && indices[Slot(p, d, n)] == cs[p][d]
    ensures HoldsDimension(indices, n, d, cs)
  {
    MulMono(d + 1, dims, n);
    var start := d * n;
    forall p: nat | p < n
      ensures indices[start..start + n][p] == cs[p][d]
    {
      assert Slot(p, d, n) == start + p;
    }
  }

  lemma DimensionsHeld(indices: seq<nat>, splits: seq<seq<nat>>, n: nat)
    requires WellFormed(splits, n) && Emitted(indices, splits, n, n)
    ensures forall d :: 0 <= d <= |splits| ==> HoldsDimension(indices, n, d, Coords(splits, n))
  {
    forall d: nat | d <= |splits|
      ensures HoldsDimension(indices, n, d, Coords(splits, n))
    {
      DimensionHeld(indices, n, |splits| + 1, d, Coords(splits, n));
    }
  }

  /** Writes one column. */
  method EmitColumn(indices: array<nat>, prefix: array<nat>, i: nat, nextIndex: nat, nvals: nat)
    requires nextIndex < nvals && indices.Length == (prefix.Length + 1) * nvals && indices != prefix
    modifies indices
    ensures forall d: nat :: d <= prefix.Length ==>
              Slot(nextIndex, d, nvals) < indices.Length
              && indices[Slot(nextIndex, d, nvals)] == (prefix[..] + [i])[d]
    ensures forall p: nat, d: nat :: p < nvals && d <= prefix.Length && p != nextIndex ==>
              Slot(p, d, nvals) < indices.Length
              && indices[Slot(p, d, nvals)] == old(indices[..])[Slot(p, d, nvals)]
  {
    var dim := 0;
    while dim < prefix.Length
      invariant dim <= prefix.Length
      invariant forall d: nat :: d < dim ==>
                  Slot(nextIndex, d, nvals) < indices.Length && indices[Slot(nextIndex, d, nvals)] == prefix[d]
      invariant forall k: nat :: k < indices.Length && k % nvals != nextIndex ==> indices[k] == old(indices[..])[k]
    {
      ColumnCell(nextIndex, dim, nvals, prefix.Length + 1);
      indices[Slot(nextIndex, dim, nvals)] := prefix[dim];
      dim := dim + 1;
    }
    ColumnCell(nextIndex, dim, nvals, prefix.Length + 1);
    indices[Slot(nextIndex, dim, nvals)] := i;
    forall p: nat, d: nat | p < nvals && d <= prefix.Length
      ensures Slot(p, d, nvals) < indices.Length && Slot(p, d, nvals) % nvals == p
    {
      ColumnCell(p, d, nvals, prefix.Length + 1);
    }
  }

  /** The kernel: the odometer once per basic segment, then one column per value of the segment. */
  method Kernel(offsets: seq<seq<nat>>, nvals: nat, indices: array<nat>)
    requires offsets != [] && WellFormed(offsets, nvals)
    requires indices.Length == (|offsets| + 1) * nvals
    modifies indices
    ensures Emitted(indices[..], offsets, nvals, nvals)
  {
    var last := |offsets| - 1;
    var maxFinalPos := |offsets[last]| - 1;
    WithoutInner(offsets, nvals);
    var pos := new nat[|offsets|](i => 0);
    SplitMono(offsets[last], 0, 0);
    var nextIndex := 0;
    while pos[last] < maxFinalPos
      invariant pos[last] <= maxFinalPos
      invariant NotAhead(pos[..], offsets[..last], maxFinalPos)
      invariant nextIndex == offsets[last][pos[last]] <= nvals
      invariant Emitted(indices[..], offsets, nvals, nextIndex)
      decreases maxFinalPos - pos[last]
    {
      var prefix := EnclosingPrefix(pos, offsets, maxFinalPos);
      nextIndex := EmitSegment(offsets, nvals, indices, prefix, pos[last], nextIndex);
      pos[last] := pos[last] + 1;
    }
  }

  method EmitSegment(offsets: seq<seq<nat>>, nvals: nat, indices: array<nat>, prefix: array<nat>, finalPos: nat,
                     start: nat) returns (nextIndex: nat)
    requires offsets != [] && WellFormed(offsets, nvals) && indices != prefix
    requires finalPos + 1 < |offsets[|offsets| - 1]| && start == offsets[|offsets| - 1][finalPos] <= nvals
    requires WellFormed(offsets[..|offsets| - 1], |offsets[|offsets| - 1]| - 1)
    requires prefix[..] == Coord(offsets[..|offsets| - 1], |offsets[|offsets| - 1]| - 1, finalPos)
    requires Emitted(indices[..], offsets, nvals, start)
    modifies indices
    ensures nextIndex == offsets[|offsets| - 1][finalPos + 1] <= nvals
    ensures Emitted(indices[..], offsets, nvals, nextIndex)
  {
    var finalSplits := offsets[|offsets| - 1];
    WithoutInner(offsets, nvals);
    SplitMono(finalSplits, finalPos + 1, |finalSplits| - 1);
    var sliceLen := Width(finalSplits, finalPos);
    nextIndex := start;
    ghost var coord := prefix[..];
    for i := 0 to sliceLen
      invariant nextIndex == start + i
      invariant prefix[..] == coord
      invariant Emitted(indices[..], offsets, nvals, nextIndex)
    {
      CoordStep(offsets, nvals, finalPos, nextIndex);
      EmitColumn(indices, prefix, i, nextIndex, nvals);
      nextIndex := nextIndex + 1;
    }
  }

  /** The operator. It fails on a level without any segment, whose width cannot be computed, and when there is not
      one value for each coordinate. Otherwise the columns and the values go into a sparse tensor, and whatever
      coalescing makes of it is these columns and values again. */
  method RaggedToSparseOp<T(!new)>(values: seq<T>, offsets: seq<seq<nat>>)
    returns (ok: bool, shape: seq<nat>, indices: array<nat>, sparse: seq<T>)
    requires offsets != [] && offsets[|offsets| - 1] != []
    requires WellFormed(offsets, offsets[|offsets| - 1][|offsets[|offsets| - 1]| - 1])
    ensures ok <==> (forall d :: 0 <= d < |offsets| ==> |offsets[d]| > 1) && WellFormed(offsets, |values|)
    ensures ok ==> shape == DenseShape(offsets, |values|) && Emitted(indices[..], offsets, |values|, |values|)
    ensures ok ==> sparse == values && Unchanged(Coords(offsets, |values|), sparse, |offsets| + 1)
    ensures ok ==> forall d :: 0 <= d <= |offsets| ==> HoldsDimension(indices[..], |values|, d, Coords(offsets, |values|))
  {
    shape, indices, sparse := [], new nat[0], values;
    for dim := 0 to |offsets|
      invariant forall d :: 0 <= d < dim ==> |offsets[d]| > 1
    {
      if |offsets[dim]| <= 1 {
        return false, shape, indices, sparse;
      }
    }
    var nvals := offsets[|offsets| - 1][|offsets[|offsets| - 1]| - 1];
    shape := RaggedToDense.ComputeShape(offsets, nvals);
    indices := new nat[(|offsets| + 1) * nvals];
    Kernel(offsets, nvals, indices);
    ok := |values| == nvals;
    if ok {
      DimensionsHeld(indices[..], offsets, |values|);
      CoalesceChangesNothing(offsets, values);
    } else if WellFormed(offsets, |values|) {
      WithoutInner(offsets, |values|);
    }
  }
}
