/** Slices of the residue space `[0, size)`: which table owns an id. */
module Slices {
  import opened ChildIds
  import opened Words

  datatype Slice = Slice(begin: int, end: int, size: int) {
    predicate IsEqualRange(that: Slice) {
      size == that.size
    }

    predicate IsIntersect(that: Slice) {
      IsIntersectInternal(this, that) || IsIntersectInternal(that, this)
    }

    predicate Holds(x: int) {
      begin <= x < end
    }

    predicate Ok() {
      0 <= begin <= end <= size && size > 0
    }
  }

  predicate IsIntersectInternal(a: Slice, b: Slice) {
    (a.begin <= b.begin < a.end) || (a.begin < b.end <= a.end)
  }

  /** The test is exact on slices that are not empty; it never rejects slices that share a residue. An empty slice passes
      with one that is not when it lies within its bounds, and never with another empty one. */
  lemma IntersectExact(a: Slice, b: Slice)
    ensures (exists x: int :: a.Holds(x) && b.Holds(x)) ==> a.IsIntersect(b)
    ensures a.begin < a.end && b.begin < b.end && a.IsIntersect(b) ==> exists x: int :: a.Holds(x) && b.Holds(x)
    ensures a.begin == a.end && b.begin <= b.end ==> (a.IsIntersect(b) <==> b.begin <= a.begin <= b.end && b.begin < b.end)
    ensures a.IsIntersect(b) <==> b.IsIntersect(a)
  {
    var m := if a.begin <= b.begin then b.begin else a.begin;
    if a.begin < a.end && b.begin < b.end && a.IsIntersect(b) {
      assert a.Holds(m) && b.Holds(m);
    }
  }

  /** The residue an id is owned by: the id read as an unsigned word. */
  function Residue(id: int64, size: int): (r: int)
    requires size > 0
    ensures 0 <= r < size
  {
    Unsigned(id) % size
  }

  predicate Accepts(s: Slice, id: int64)
    requires s.size > 0
  {
    s.Holds(Residue(id, s.size))
  }

  method MarkIdAcceptable(ids: seq<int64>, s: Slice) returns (accept: array<bool>)
    requires s.size > 0
    ensures fresh(accept) && accept.Length == |ids|
    ensures forall i :: 0 <= i < |ids| ==> (accept[i] <==> Accepts(s, ids[i]))
  {
    accept := new bool[|ids|];
    for i := 0 to |ids|
      invariant forall k :: 0 <= k < i ==> (accept[k] <==> Accepts(s, ids[k]))
    {
      var mod := Unsigned(ids[i]) % s.size;
      accept[i] := s.begin <= mod && mod < s.end;
    }
  }

  /** Encodes the accepted ids in place. */
  method EncodeIds(ids: array<int64>, accept: seq<bool>, child: int64)
    requires |accept| == ids.Length
    modifies ids
    ensures forall i :: 0 <= i < ids.Length ==>
              ids[i] == if accept[i] then EncodeId(old(ids[i]), child) else old(ids[i])
  {
    for i := 0 to ids.Length
      invariant forall k :: i <= k < ids.Length ==> ids[k] == old(ids[k])
      invariant forall k :: 0 <= k < i ==> ids[k] == if accept[k] then EncodeId(old(ids[k]), child) else old(ids[k])
    {
      if accept[i] {
        ids[i] := EncodeId(ids[i], child);
      }
    }
  }

  /** Slices cut one after another from `[0, size)`. */
  ghost predicate Tiles(ss: seq<Slice>, size: int) {
    && size > 0 && |ss| > 0 && ss[0].begin == 0 && ss[|ss| - 1].end == size
    && (forall i :: 0 <= i < |ss| ==> ss[i].size == size && ss[i].begin <= ss[i].end)
    && forall i :: 0 < i < |ss| ==> ss[i].begin == ss[i - 1].end
  }

  lemma {:induction false} TilesOrdered(ss: seq<Slice>, size: int, i: nat, j: nat)
    requires Tiles(ss, size) && i < j < |ss|
    ensures ss[i].end <= ss[j].begin
  {
    if i + 1 < j {
      TilesOrdered(ss, size, i, j - 1);
    }
  }

  lemma {:induction false} HolderBelow(ss: seq<Slice>, size: int, x: int, n: nat) returns (i: nat)
    requires Tiles(ss, size) && n < |ss| && 0 <= x < ss[n].end
    ensures i <= n && ss[i].Holds(x)
  {
    if x >= ss[n].begin {
      i := n;
    } else {
      i := HolderBelow(ss, size, x, n - 1);
    }
  }

  /** Of slices that tile the residues, exactly one accepts a given id. */
  lemma OneOwner(ss: seq<Slice>, size: int, id: int64) returns (owner: nat)
    requires Tiles(ss, size)
    ensures owner < |ss| && forall i: nat :: i < |ss| ==> (Accepts(ss[i], id) <==> i == owner)
  {
    owner := HolderBelow(ss, size, Residue(id, size), |ss| - 1);
    forall i: nat | i < |ss| && i != owner
      ensures !Accepts(ss[i], id)
    {
      if i < owner {
        TilesOrdered(ss, size, i, owner);
      } else {
        TilesOrdered(ss, size, owner, i);
      }
    }
  }
}
