/** The odometer both ragged kernels share: one position per level, moved up to the innermost segment at hand. */
module Odometer {
  import opened Ragged

  /** Where each level stands while innermost segment `f` is processed: the chain of enclosing segments. */
  ghost function Positions(levels: seq<seq<nat>>, w: nat, f: nat): (pos: seq<nat>)
    requires WellFormed(levels, w) && f < w
    ensures |pos| == |levels| + 1 && pos[|levels|] == f
    decreases |levels|
  {
    if levels == [] then [f]
    else
      WithoutInner(levels, w);
      var m := |levels| - 1;
      Positions(levels[..m], |levels[m]| - 1, Seg(levels[m], f)) + [f]
  }

  /** Each level's position is the segment holding the next level's position. */
  lemma {:induction false} PositionsChain(levels: seq<seq<nat>>, w: nat, f: nat, d: nat)
    requires WellFormed(levels, w) && f < w && d < |levels|
    ensures var pos := Positions(levels, w, f);
            && IsSplit(levels[d]) && pos[d + 1] < levels[d][|levels[d]| - 1]
            && pos[d] == Seg(levels[d], pos[d + 1])
    decreases |levels|
  {
    WithoutInner(levels, w);
    var m := |levels| - 1;
    if d < m {
      assert levels[..m][d] == levels[d];
      PositionsChain(levels[..m], |levels[m]| - 1, Seg(levels[m], f), d);
    }
  }

  /** The coordinate is each position counted from the start of the segment around it. */
  lemma {:induction false} PositionsAreCoord(levels: seq<seq<nat>>, w: nat, f: nat, d: nat)
    requires WellFormed(levels, w) && f < w && d <= |levels|
    ensures var pos, c := Positions(levels, w, f), Coord(levels, w, f);
            if d == 0 then c[0] == pos[0]
            else pos[d - 1] < |levels[d - 1]| && c[d] + levels[d - 1][pos[d - 1]] == pos[d]
    decreases |levels|
  {
    if levels != [] {
      WithoutInner(levels, w);
      var m := |levels| - 1;
      if d <= m {
        assert 0 < d ==> levels[..m][d - 1] == levels[d - 1];
        PositionsAreCoord(levels[..m], |levels[m]| - 1, Seg(levels[m], f), d);
      }
    }
  }

  lemma SegMono(split: seq<nat>, p: nat, q: nat)
    requires IsSplit(split) && p <= q < split[|split| - 1]
    ensures Seg(split, p) <= Seg(split, q)
  {
  }

  lemma {:induction false} PositionsMono(levels: seq<seq<nat>>, w: nat, f: nat, g: nat, d: nat)
    requires WellFormed(levels, w) && f <= g < w && d <= |levels|
    ensures Positions(levels, w, f)[d] <= Positions(levels, w, g)[d]
    decreases |levels|
  {
    if d < |levels| {
      WithoutInner(levels, w);
      var m := |levels| - 1;
      SegMono(levels[m], f, g);
      PositionsMono(levels[..m], |levels[m]| - 1, Seg(levels[m], f), Seg(levels[m], g), d);
      OuterPosition(levels, w, f, d);
      OuterPosition(levels, w, g, d);
    }
  }

  lemma OuterPosition(levels: seq<seq<nat>>, w: nat, f: nat, d: nat)
    requires WellFormed(levels, w) && f < w && d < |levels|
    ensures var m := |levels| - 1;
            && IsSplit(levels[m]) && levels[m][|levels[m]| - 1] == w && WellFormed(levels[..m], |levels[m]| - 1)
            && Positions(levels, w, f)[d] == Positions(levels[..m], |levels[m]| - 1, Seg(levels[m], f))[d]
  {
    WithoutInner(levels, w);
  }

  /** A segment is complete when the position inside it has reached its end. */
  predicate IsSegCompleted(pos: array<nat>, dim: nat, offsets: seq<seq<nat>>)
    requires dim + 1 < pos.Length && dim < |offsets| && pos[dim] + 1 < |offsets[dim]|
    reads pos
  {
    pos[dim + 1] >= offsets[dim][pos[dim] + 1]
  }

  /** Moves one level up to the segment around the next level's position. */
  method CompleteSegment(pos: array<nat>, offsets: seq<seq<nat>>, dim: nat, ghost target: nat)
    requires dim + 1 < pos.Length && dim < |offsets| && IsSplit(offsets[dim])
    requires pos[dim + 1] < offsets[dim][|offsets[dim]| - 1] && target == Seg(offsets[dim], pos[dim + 1])
    requires pos[dim] <= target
    modifies pos
    ensures pos[..] == old(pos[..])[dim := target]
  {
    ghost var before := pos[..];
    while IsSegCompleted(pos, dim, offsets)
      invariant pos[dim] <= target && pos[dim] + 1 < |offsets[dim]|
      invariant pos[..] == before[dim := pos[dim]]
      decreases target - pos[dim]
    {
      pos[dim] := pos[dim] + 1;
    }
  }

  /** The levels behind `dim` stand on the chain of enclosing segments, the others not ahead of it. */
  ghost predicate CompletedTo(pos: seq<nat>, target: seq<nat>, dim: int) {
    && |pos| == |target| && (forall d :: 0 <= d < |pos| ==> pos[d] <= target[d])
    && forall d :: 0 <= d < |pos| && dim < d ==> pos[d] == target[d]
  }

  /** Brings all outer levels up to the innermost position. */
  method CompleteSegments(pos: array<nat>, offsets: seq<seq<nat>>, ghost w: nat)
    requires pos.Length == |offsets| > 0
    requires WellFormed(offsets[..|offsets| - 1], w) && pos[|offsets| - 1] < w
    requires NotAhead(pos[..], offsets[..|offsets| - 1], w)
    modifies pos
    ensures pos[|offsets| - 1] == old(pos[|offsets| - 1])
    ensures pos[..] == Positions(offsets[..|offsets| - 1], w, pos[|offsets| - 1])
  {
    ghost var m := |offsets| - 1;
    ghost var target := Positions(offsets[..m], w, pos[m]);
    var dim := |offsets| - 2;
    while dim >= 0
      invariant -1 <= dim <= m - 1
      invariant CompletedTo(pos[..], target, dim)
    {
      PositionsChain(offsets[..m], w, target[m], dim);
      assert offsets[..m][dim] == offsets[dim];
      CompleteSegment(pos, offsets, dim, target[dim]);
      dim := dim - 1;
    }
  }

  /** The outer positions have not overtaken the segments around the innermost position. */
  ghost predicate NotAhead(pos: seq<nat>, levels: seq<seq<nat>>, w: nat)
    requires WellFormed(levels, w) && |pos| == |levels| + 1
  {
    var f := pos[|levels|];
    f < w ==> forall d :: 0 <= d < |levels| ==> pos[d] <= Positions(levels, w, f)[d]
  }

  lemma StaysBehind(levels: seq<seq<nat>>, w: nat, f: nat)
    requires WellFormed(levels, w) && f < w
    ensures NotAhead(Positions(levels, w, f)[|levels| := f + 1], levels, w)
  {
    if f + 1 < w {
      forall d | 0 <= d < |levels|
        ensures Positions(levels, w, f)[d] <= Positions(levels, w, f + 1)[d]
      {
        PositionsMono(levels, w, f, f + 1, d);
      }
    }
  }

  /** The offsets of the current segments inside the enclosing ones. */
  method IndexPrefix(pos: array<nat>, offsets: seq<seq<nat>>, ghost w: nat) returns (prefix: array<nat>)
    requires pos.Length == |offsets| > 0
    requires var m := |offsets| - 1;
             && WellFormed(offsets[..m], w) && pos[m] < w
             && pos[..] == Positions(offsets[..m], w, pos[m])
    ensures fresh(prefix)
    ensures prefix[..] == Coord(offsets[..|offsets| - 1], w, pos[|offsets| - 1])
  {
    ghost var m := |offsets| - 1;
    ghost var target, coord := Positions(offsets[..m], w, pos[m]), Coord(offsets[..m], w, pos[m]);
    assert forall d :: 0 <= d <= m ==> pos[d] == target[d];
    prefix := new nat[|offsets|];
    for dim := 0 to |offsets|
      invariant forall d :: 0 <= d < dim ==> prefix[d] == coord[d]
    {
      PositionsAreCoord(offsets[..m], w, target[m], dim);
      var start := if dim > 0 then offsets[dim - 1][pos[dim - 1]] else 0;
      prefix[dim] := pos[dim] - start;
    }
  }

  /** One round of either kernel: the odometer is brought up to the innermost segment and read off. Moving on to the
      next segment will not leave the outer levels ahead. */
  method EnclosingPrefix(pos: array<nat>, offsets: seq<seq<nat>>, ghost w: nat) returns (prefix: array<nat>)
    requires pos.Length == |offsets| > 0
    requires WellFormed(offsets[..|offsets| - 1], w) && pos[|offsets| - 1] < w
    requires NotAhead(pos[..], offsets[..|offsets| - 1], w)
    modifies pos
    ensures fresh(prefix) && pos[|offsets| - 1] == old(pos[|offsets| - 1])
    ensures prefix[..] == Coord(offsets[..|offsets| - 1], w, pos[|offsets| - 1])
    ensures NotAhead(pos[..][|offsets| - 1 := pos[|offsets| - 1] + 1], offsets[..|offsets| - 1], w)
  {
    CompleteSegments(pos, offsets, w);
    prefix := IndexPrefix(pos, offsets, w);
    StaysBehind(offsets[..|offsets| - 1], w, pos[|offsets| - 1]);
  }
}
