/** `ids_partition_cpu`: distinct ids in residue order, cut into the parts their owners hold. What the tensor library
    computes enters as arguments with its specification. */
module IdsPartitions {
  import opened Collections
  import opened Slices
  import opened Words

  const SLICE_SIZE: int := 65536

  /** `abs(fmod(id, SLICE_SIZE))`: the remainder truncates toward zero, so this is the remainder of `|id|`. */
  function AbsRem(id: int64): (r: nat)
    ensures r < 65536 && (if id >= 0 then id - r else id + r) % 65536 == 0
  {
    var x: int := id;
    (if x < 0 then -x else x) % SLICE_SIZE
  }

  /** What is left of the id here and when tables are loaded: the same exactly for these ids. */
  lemma ResiduesAgree(id: int64)
    ensures AbsRem(id) == Residue(id, 65536) <==> id >= 0 || AbsRem(id) == 0 || AbsRem(id) == 32768
    ensures id < 0 && AbsRem(id) > 0 ==> Residue(id, 65536) == 65536 - AbsRem(id)
  {
    if id < 0 {
      var x: int := id;
      var q, r := (-x) / SLICE_SIZE, (-x) % SLICE_SIZE;
      assert -x == q * SLICE_SIZE + r;
      var k := 0x1_0000_0000_0000_0000 / SLICE_SIZE;
      if r == 0 {
        assert Unsigned(id) == (k - q) * SLICE_SIZE + 0;
        AddMultiple(0, k - q, SLICE_SIZE);
      } else {
        assert Unsigned(id) == (k - q - 1) * SLICE_SIZE + (SLICE_SIZE - r);
        AddMultiple(SLICE_SIZE - r, k - q - 1, SLICE_SIZE);
      }
    }
  }

  /** Sizes of the parts: `SLICE_SIZE` cut as evenly as it goes, larger parts first. */
  method PartSizes(numParts: nat) returns (parts: seq<nat>)
    requires numParts >= 1
    ensures parts == EvenCut(numParts)
    ensures |parts| == numParts && TotalTo(parts, numParts) == 65536
    ensures forall i, j :: 0 <= i < j < numParts ==> parts[j] <= parts[i] <= parts[j] + 1
  {
    var m, n := SLICE_SIZE / numParts, SLICE_SIZE % numParts;
    parts := seq(numParts, i => m);
    for i := 0 to n
      invariant |parts| == numParts
      invariant forall k :: 0 <= k < numParts ==> parts[k] == if k < i then m + 1 else m
    {
      parts := parts[i := parts[i] + 1];
    }
    EvenCutTotal(numParts);
    assert parts == EvenCut(numParts);
  }

  function EvenCut(numParts: nat): (parts: seq<nat>)
    requires numParts >= 1
    ensures |parts| == numParts
  {
    seq(numParts, i requires 0 <= i < numParts =>
      if i < SLICE_SIZE % numParts then SLICE_SIZE / numParts + 1 else SLICE_SIZE / numParts)
  }

  lemma EvenCutTotal(numParts: nat)
    requires numParts >= 1
    ensures TotalTo(EvenCut(numParts), numParts) == SLICE_SIZE
  {
    var m, n := SLICE_SIZE / numParts, SLICE_SIZE % numParts;
    TotalOfParts(EvenCut(numParts), m, n, numParts);
    assert SLICE_SIZE == m * numParts + n;
  }

  lemma {:induction false} TotalOfParts(parts: seq<nat>, m: nat, n: nat, k: nat)
    requires k <= |parts| && forall i :: 0 <= i < |parts| ==> parts[i] == if i < n then m + 1 else m
    ensures TotalTo(parts, k) == m * k + if k < n then k else n
  {
    if k > 0 {
      TotalOfParts(parts, m, n, k - 1);
      assert m * k == m * (k - 1) + m;
    }
  }

  lemma {:induction false} TotalMono(parts: seq<nat>, i: nat, j: nat)
    requires i <= j <= |parts|
    ensures TotalTo(parts, i) <= TotalTo(parts, j)
  {
    if i < j {
      TotalMono(parts, i, j - 1);
    }
  }

  /** The part that owns a residue. */
  ghost predicate OwnedBy(parts: seq<nat>, j: nat, r: nat)
    requires j < |parts|
  {
    TotalTo(parts, j) <= r < TotalTo(parts, j + 1)
  }

  /** Every residue has one owner. */
  lemma {:induction false} OwnerOf(parts: seq<nat>, r: nat, k: nat) returns (j: nat)
    requires k <= |parts| && r < TotalTo(parts, k)
    ensures j < k && OwnedBy(parts, j, r)
    ensures forall i :: 0 <= i < |parts| && OwnedBy(parts, i, r) ==> i == j
  {
    if r >= TotalTo(parts, k - 1) {
      j := k - 1;
    } else {
      j := OwnerOf(parts, r, k - 1);
    }
    forall i | 0 <= i < |parts| && i != j
      ensures !OwnedBy(parts, i, r)
    {
      if i < j {
        TotalMono(parts, i + 1, j);
      } else {
        TotalMono(parts, j + 1, i);
      }
    }
  }

  // ---------------------------------------------------------------------------------------------------------
  // The owner of an id here, and the table that accepts it when the residues are cut into slices the same way.

  ghost predicate Cuts(parts: seq<nat>) {
    |parts| >= 1 && TotalTo(parts, |parts|) == SLICE_SIZE
  }

  function PartSlice(parts: seq<nat>, j: nat): Slice
    requires j < |parts|
  {
    Slice(TotalTo(parts, j), TotalTo(parts, j + 1), SLICE_SIZE)
  }

  /** The part that gets the id is the part whose slice accepts it. */
  ghost predicate SameOwner(parts: seq<nat>, id: int64) {
    forall j: nat :: j < |parts| ==> (OwnedBy(parts, j, AbsRem(id)) <==> Accepts(PartSlice(parts, j), id))
  }

  ghost predicate InOnePart(parts: seq<nat>, r: nat, q: nat) {
    exists j: nat :: j < |parts| && OwnedBy(parts, j, r) && OwnedBy(parts, j, q)
  }

  lemma SliceIsPart(parts: seq<nat>, j: nat, id: int64)
    requires j < |parts|
    ensures Accepts(PartSlice(parts, j), id) <==> OwnedBy(parts, j, Residue(id, SLICE_SIZE))
  {
  }

  /** For a given cut the owners are the same exactly when both residues lie in one part. */
  lemma OwnersAgree(parts: seq<nat>, id: int64)
    requires Cuts(parts)
    ensures SameOwner(parts, id) <==> InOnePart(parts, AbsRem(id), Residue(id, SLICE_SIZE))
  {
    var r, q: nat := AbsRem(id), Residue(id, SLICE_SIZE);
    var j := OwnerOf(parts, r, |parts|);
    var i := OwnerOf(parts, q, |parts|);
    forall k: nat | k < |parts|
      ensures OwnedBy(parts, k, r) <==> k == j
      ensures Accepts(PartSlice(parts, k), id) <==> k == i
    {
      SliceIsPart(parts, k, id);
    }
    if SameOwner(parts, id) {
      assert OwnedBy(parts, j, r) && Accepts(PartSlice(parts, j), id);
    }
  }

  /** Ids that are not negative have the same owner under every cut. */
  lemma NotNegativeAgrees(parts: seq<nat>, id: int64)
    requires Cuts(parts) && id >= 0
    ensures SameOwner(parts, id)
  {
    ResiduesAgree(id);
    var j := OwnerOf(parts, AbsRem(id), |parts|);
    OwnersAgree(parts, id);
  }

  lemma {:induction false} UnitTotal(parts: seq<nat>, k: nat)
    requires k <= |parts| && forall i :: 0 <= i < |parts| ==> parts[i] == 1
    ensures TotalTo(parts, k) == k
  {
    if k > 0 {
      UnitTotal(parts, k - 1);
    }
  }

  /** One part per residue tells any two residues apart. */
  lemma FinestCut(r: nat, q: nat)
    requires r < SLICE_SIZE && q < SLICE_SIZE
    ensures InOnePart(EvenCut(SLICE_SIZE), r, q) ==> r == q
  {
    var parts := EvenCut(SLICE_SIZE);
    if InOnePart(parts, r, q) {
      var j: nat :| j < |parts| && OwnedBy(parts, j, r) && OwnedBy(parts, j, q);
      UnitTotal(parts, j);
      UnitTotal(parts, j + 1);
    }
  }

  /** The owners agree for every number of parts exactly for ids that are not negative and those whose remainder is
      0 or half the slice size. */
  lemma OwnersAlwaysAgree(id: int64)
    ensures (forall numParts: nat :: numParts >= 1 ==> SameOwner(EvenCut(numParts), id)) <==>
            id >= 0 || AbsRem(id) == 0 || AbsRem(id) == 32768
  {
    ResiduesAgree(id);
    var r, q: nat := AbsRem(id), Residue(id, SLICE_SIZE);
    if r == q {
      forall numParts: nat | numParts >= 1
        ensures SameOwner(EvenCut(numParts), id)
      {
        EvenCutTotal(numParts);
        OwnersAgree(EvenCut(numParts), id);
        var j := OwnerOf(EvenCut(numParts), r, numParts);
      }
    } else {
      EvenCutTotal(SLICE_SIZE);
      OwnersAgree(EvenCut(SLICE_SIZE), id);
      FinestCut(r, q);
    }
  }

  /** With two parts, -1 is sent to the first and accepted by the second; with three, -30000 has one owner although its
      residues differ. */
  lemma OwnerExamples()
    ensures !SameOwner([32768, 32768], -1)
    ensures SameOwner([21846, 21845, 21845], -30000) && AbsRem(-30000) != Residue(-30000, SLICE_SIZE)
  {
    var two, three := [32768, 32768], [21846, 21845, 21845];
    assert TotalTo(two, 1) == 32768 && TotalTo(two, 2) == SLICE_SIZE;
    assert TotalTo(three, 1) == 21846 && TotalTo(three, 2) == 43691 && TotalTo(three, 3) == SLICE_SIZE;
    assert AbsRem(-1) == 1 && AbsRem(-30000) == 30000;
    ResiduesAgree(-1);
    ResiduesAgree(-30000);
    assert OwnedBy(two, 0, 1) && !Accepts(PartSlice(two, 0), -1);
    assert OwnedBy(three, 1, 30000) && OwnedBy(three, 1, Residue(-30000, SLICE_SIZE));
    OwnersAgree(three, -30000);
  }

  // ---------------------------------------------------------------------------------------------------------
  // What the tensor library returns.

  /** `_unique2`: the distinct ids, and where each id went. */
  ghost predicate IsUnique(ids: seq<int64>, unique: seq<int64>, reverse: seq<nat>) {
    && Distinct(unique) && |reverse| == |ids|
    && (forall i :: 0 <= i < |ids| ==> reverse[i] < |unique| && unique[reverse[i]] == ids[i])
    && forall u :: u in unique ==> u in ids
  }

  /** `argsort`: an arrangement of the positions that lists the keys in order. */
  ghost predicate IsArgsort(keys: seq<nat>, pos: seq<nat>) {
    && |pos| == |keys| && Distinct(pos)
    && (forall i :: 0 <= i < |pos| ==> pos[i] < |keys|)
    && forall i, j :: 0 <= i < j < |pos| ==> keys[pos[i]] <= keys[pos[j]]
  }

  /** `searchsorted`: the first position whose key reaches `x`. */
  method SearchSorted(keys: seq<nat>, x: nat) returns (p: nat)
    requires forall i, j :: 0 <= i < j < |keys| ==> keys[i] <= keys[j]
    ensures p <= |keys|
    ensures forall i :: 0 <= i < |keys| ==> (i < p <==> keys[i] < x)
    ensures p < |keys| ==> keys[p] >= x
  {
    p := 0;
    while p < |keys| && keys[p] < x
      invariant p <= |keys| && forall i :: 0 <= i < p ==> keys[i] < x
    {
      p := p + 1;
    }
  }

  function Pick<T>(xs: seq<T>, pos: seq<nat>): (r: seq<T>)
    requires forall i :: 0 <= i < |pos| ==> pos[i] < |xs|
    ensures |r| == |pos| && forall i :: 0 <= i < |r| ==> r[i] == xs[pos[i]]
  {
    seq(|pos|, i requires 0 <= i < |pos| => xs[pos[i]])
  }

  function AbsRems(ids: seq<int64>): (r: seq<nat>)
    ensures |r| == |ids| && forall i :: 0 <= i < |r| ==> r[i] == AbsRem(ids[i])
  {
    seq(|ids|, i requires 0 <= i < |ids| => AbsRem(ids[i]))
  }

  /** Sorting a permutation gives its inverse. */
  lemma ArgsortInverse(pos: seq<nat>, range: seq<nat>)
    requires Distinct(pos) && (forall i :: 0 <= i < |pos| ==> pos[i] < |pos|) && IsArgsort(pos, range)
    ensures forall i: nat :: i < |pos| ==> range[i] < |pos| && pos[range[i]] == i
  {
    var sorted := Pick(pos, range);
    forall i, j | 0 <= i < j < |sorted|
      ensures sorted[i] < sorted[j]
    {
      assert pos[range[i]] <= pos[range[j]] && range[i] != range[j];
      assert range[i] < range[j] || range[j] < range[i];
    }
    forall i: nat | i < |pos|
      ensures sorted[i] == i
    {
      StepsUp(sorted, i);
    }
  }

  /** Strictly increasing numbers below their count are the positions themselves. */
  lemma StepsUp(s: seq<nat>, i: nat)
    requires (forall a, b :: 0 <= a < b < |s| ==> s[a] < s[b]) && (forall a :: 0 <= a < |s| ==> s[a] < |s|) && i < |s|
    ensures s[i] == i
  {
    AtLeastPosition(s, i);
    AtMostPosition(s, i);
  }

  lemma {:induction false} AtLeastPosition(s: seq<nat>, i: nat)
    requires (forall a, b :: 0 <= a < b < |s| ==> s[a] < s[b]) && i < |s|
    ensures s[i] >= i
  {
    if i > 0 {
      AtLeastPosition(s, i - 1);
      assert s[i - 1] < s[i];
    }
  }

  lemma {:induction false} AtMostPosition(s: seq<nat>, i: nat)
    requires (forall a, b :: 0 <= a < b < |s| ==> s[a] < s[b]) && (forall a :: 0 <= a < |s| ==> s[a] < |s|) && i < |s|
    ensures s[i] <= i
    decreases |s| - i
  {
    if i + 1 < |s| {
      AtMostPosition(s, i + 1);
      assert s[i] < s[i + 1];
    }
  }

  // ---------------------------------------------------------------------------------------------------------

  /** Cuts the ids into segments, one per part. `argPos` sorts the residues of the distinct ids, `range` sorts `argPos`. */
  method IdsPartition(ids: seq<int64>, numParts: nat, unique: seq<int64>, reverse: seq<nat>, argPos: seq<nat>, range: seq<nat>)
    returns (out: seq<int64>, segmentSize: seq<nat>, index: seq<nat>, ghost parts: seq<nat>)
    requires numParts >= 1 && IsUnique(ids, unique, reverse) && IsArgsort(AbsRems(unique), argPos) && IsArgsort(argPos, range)
    ensures |parts| == |segmentSize| == numParts && TotalTo(parts, numParts) == 65536
    ensures forall i, j :: 0 <= i < j < numParts ==> parts[j] <= parts[i] <= parts[j] + 1
    ensures Distinct(out) && |index| == |ids|
    ensures forall i :: 0 <= i < |ids| ==> index[i] < |out| && out[index[i]] == ids[i]
    ensures forall u :: u in out ==> u in ids
    ensures TotalTo(segmentSize, numParts) == |out|
    ensures forall j: nat, i: nat :: j < numParts && i < |out| ==>
              (TotalTo(segmentSize, j) <= i < TotalTo(segmentSize, j + 1) <==> OwnedBy(parts, j, AbsRem(out[i])))
  {
    var sortedIds := Pick(AbsRems(unique), argPos);
    var sizes := PartSizes(numParts);
    parts := sizes;
    out := Pick(unique, argPos);
    segmentSize := Segments(sortedIds, sizes);
    ArgsortInverse(argPos, range);
    index := Pick(range, reverse);
    forall i, j | 0 <= i < j < |out|
      ensures out[i] != out[j]
    {
      assert argPos[i] != argPos[j];
      assert unique[argPos[i]] != unique[argPos[j]] by {
        assert argPos[i] < argPos[j] || argPos[j] < argPos[i];
      }
    }
    forall i | 0 <= i < |ids|
      ensures index[i] < |out| && out[index[i]] == ids[i]
    {
      assert argPos[range[reverse[i]]] == reverse[i];
    }
  }

  /** Boundaries by a running sum and a search each, sizes as their differences. */
  method Segments(keys: seq<nat>, parts: seq<nat>) returns (sizes: seq<nat>)
    requires forall i, j :: 0 <= i < j < |keys| ==> keys[i] <= keys[j]
    requires |parts| >= 1 && forall i :: 0 <= i < |keys| ==> keys[i] < TotalTo(parts, |parts|)
    ensures |sizes| == |parts| && TotalTo(sizes, |sizes|) == |keys|
    ensures forall j: nat, i: nat :: j < |parts| && i < |keys| ==>
              (TotalTo(sizes, j) <= i < TotalTo(sizes, j + 1) <==> OwnedBy(parts, j, keys[i]))
  {
    sizes := [];
    var boundary, before := 0, 0;
    for j := 0 to |parts|
      invariant |sizes| == j && boundary == TotalTo(parts, j) && before == TotalTo(sizes, j) <= |keys|
      invariant forall i :: 0 <= i < |keys| ==> (i < before <==> keys[i] < boundary)
      invariant before < |keys| ==> keys[before] >= boundary
      invariant SegmentsFound(keys, parts, sizes)
    {
      boundary := boundary + parts[j];
      var p := SearchSorted(keys, boundary);
      SearchGrows(keys, before, p, boundary - parts[j], boundary);
      SegmentsStep(keys, parts, sizes, p - before);
      TotalPrefix(sizes, p - before, |sizes|);
      sizes := sizes + [p - before];
      before := p;
    }
    forall j: nat, i: nat | j < |parts| && i < |keys|
      ensures TotalTo(sizes, j) <= i < TotalTo(sizes, j + 1) <==> OwnedBy(parts, j, keys[i])
    {
      assert SegmentHolds(keys, parts, sizes, j, i);
    }
  }

  lemma OldSegment(keys: seq<nat>, parts: seq<nat>, sizes: seq<nat>, x: nat, j: nat, i: nat)
    requires j < |sizes| < |parts| && i < |keys| && SegmentHolds(keys, parts, sizes, j, i)
    ensures SegmentHolds(keys, parts, sizes + [x], j, i)
  {
    TotalPrefix(sizes, x, j);
    TotalPrefix(sizes, x, j + 1);
  }

  lemma NewSegment(keys: seq<nat>, parts: seq<nat>, sizes: seq<nat>, x: nat, i: nat)
    requires |sizes| < |parts| && i < |keys|
    requires i < TotalTo(sizes, |sizes|) <==> keys[i] < TotalTo(parts, |sizes|)
    requires i < TotalTo(sizes, |sizes|) + x <==> keys[i] < TotalTo(parts, |sizes| + 1)
    ensures SegmentHolds(keys, parts, sizes + [x], |sizes|, i)
  {
    TotalPrefix(sizes, x, |sizes|);
    assert TotalTo(sizes + [x], |sizes| + 1) == TotalTo(sizes, |sizes|) + x;
  }

  /** One more part whose segment has been found. */
  lemma SegmentsStep(keys: seq<nat>, parts: seq<nat>, sizes: seq<nat>, x: nat)
    requires |sizes| < |parts| && SegmentsFound(keys, parts, sizes)
    requires forall i :: 0 <= i < |keys| ==> (i < TotalTo(sizes, |sizes|) <==> keys[i] < TotalTo(parts, |sizes|))
    requires forall i :: 0 <= i < |keys| ==> (i < TotalTo(sizes, |sizes|) + x <==> keys[i] < TotalTo(parts, |sizes| + 1))
    ensures SegmentsFound(keys, parts, sizes + [x])
  {
    forall j: nat, i: nat | j < |sizes + [x]| && i < |keys|
      ensures SegmentHolds(keys, parts, sizes + [x], j, i)
    {
      if j < |sizes| {
        OldSegment(keys, parts, sizes, x, j, i);
      } else {
        NewSegment(keys, parts, sizes, x, i);
      }
    }
  }

  ghost predicate SegmentsFound(keys: seq<nat>, parts: seq<nat>, sizes: seq<nat>)
    requires |sizes| <= |parts|
  {
    forall j: nat, i: nat :: j < |sizes| && i < |keys| ==> SegmentHolds(keys, parts, sizes, j, i)
  }

  ghost predicate SegmentHolds(keys: seq<nat>, parts: seq<nat>, sizes: seq<nat>, j: nat, i: nat)
    requires j < |sizes| <= |parts| && i < |keys|
  {
    TotalTo(sizes, j) <= i < TotalTo(sizes, j + 1) <==> OwnedBy(parts, j, keys[i])
  }

  lemma SearchGrows(keys: seq<nat>, p: nat, q: nat, x: nat, y: nat)
    requires p <= |keys| && q <= |keys| && x <= y
    requires forall i :: 0 <= i < |keys| ==> (i < p <==> keys[i] < x)
    requires forall i :: 0 <= i < |keys| ==> (i < q <==> keys[i] < y)
    requires q < |keys| ==> keys[q] >= y
    ensures p <= q
  {
  }

  lemma {:induction false} TotalPrefix(sizes: seq<nat>, x: nat, k: nat)
    requires k <= |sizes|
    ensures TotalTo(sizes + [x], k) == TotalTo(sizes, k)
  {
    if k > 0 {
      TotalPrefix(sizes, x, k - 1);
    }
  }
}
