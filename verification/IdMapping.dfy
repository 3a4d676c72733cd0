/** The CPU id map: a hash map from id to row index, fed by the index allocator. */
module IdMapping {
  import opened Collections
  import opened IdAllocation
  import opened Words

  const NULL_INDEX: int := -1

  /** The indexes in use. */
  ghost function Live(m: map<int64, nat>): set<nat> {
    set k | k in m :: m[k]
  }

  ghost predicate Injective(m: map<int64, nat>) {
    forall a, b :: a in m && b in m && a != b ==> m[a] != m[b]
  }

  /** No id that is absent from the map occurs twice in the batch. */
  ghost predicate MissingDistinct<V>(m: map<int64, V>, ids: seq<int64>) {
    forall i, j :: 0 <= i < j < |ids| && ids[i] !in m ==> ids[i] != ids[j]
  }

  ghost function MissingPositions(m: map<int64, nat>, ids: seq<int64>): set<nat> {
    set i: nat | i < |ids| && ids[i] !in m
  }

  /** `insert` keeps the first index given to a key. */
  function InsertAll(m: map<int64, nat>, ids: seq<int64>, index: seq<nat>): map<int64, nat>
    requires |ids| == |index|
  {
    if ids == [] then m
    else
      var n := |ids| - 1;
      var before := InsertAll(m, ids[..n], index[..n]);
      if ids[n] in before then before else before[ids[n] := index[n]]
  }

  /** What remains of `m` after a batch insertion of absent ids with unused indexes. */
  ghost predicate Extends(m: map<int64, nat>, r: map<int64, nat>, ids: seq<int64>, index: seq<nat>) {
    && r.Keys == m.Keys + Elems(ids)
    && (forall k :: k in m ==> r[k] == m[k])
    && Injective(r)
    && Live(r) <= Live(m) + Elems(index)
    && (Distinct(ids) ==> Live(r) == Live(m) + Elems(index))
  }

  lemma {:induction false} InsertAllMeaning(m: map<int64, nat>, ids: seq<int64>, index: seq<nat>)
    requires |ids| == |index| && Injective(m) && Distinct(index)
    requires forall x :: x in index ==> x !in Live(m)
    requires forall x :: x in ids ==> x !in m
    ensures Extends(m, InsertAll(m, ids, index), ids, index)
  {
    if ids == [] {
    } else {
      var n := |ids| - 1;
      var before := InsertAll(m, ids[..n], index[..n]);
      InsertAllMeaning(m, ids[..n], index[..n]);
      assert ids[n] in ids && index[n] in index;
      assert forall x :: x in index[..n] ==> x != index[n];
      ExtendStep(m, before, ids[..n], index[..n], ids[n], index[n]);
      assert ids == ids[..n] + [ids[n]] && index == index[..n] + [index[n]];
    }
  }

  /** A known id keeps its index; a new one has the index drawn for its first occurrence. */
  lemma {:induction false} InsertAllAt(m: map<int64, nat>, ids: seq<int64>, index: seq<nat>, i: nat, id: int64)
    requires |ids| == |index|
    ensures id in m ==> id in InsertAll(m, ids, index) && InsertAll(m, ids, index)[id] == m[id]
    ensures id in InsertAll(m, ids, index) <==> id in m || id in ids
    ensures i < |ids| && ids[i] == id && id !in m && id !in ids[..i] ==>
              id in InsertAll(m, ids, index) && InsertAll(m, ids, index)[id] == index[i]
  {
    if ids != [] {
      var n := |ids| - 1;
      InsertAllAt(m, ids[..n], index[..n], i, id);
      assert ids == ids[..n] + [ids[n]];
      if i < n {
        assert ids[..n][..i] == ids[..i];
      }
    }
  }

  lemma ExtendStep(m: map<int64, nat>, before: map<int64, nat>, ids: seq<int64>, index: seq<nat>,
                   id: int64, idx: nat)
    requires Extends(m, before, ids, index)
    requires id !in m && idx !in Live(m) && idx !in index
    ensures Extends(m, if id in before then before else before[id := idx], ids + [id], index + [idx])
  {
    assert Elems(ids + [id]) == Elems(ids) + {id};
    assert Elems(index + [idx]) == Elems(index) + {idx};
    DistinctSnoc(ids, id);
    if id in before {
      assert id in Elems(ids);
    } else {
      InsertOne(before, id, idx);
    }
  }

  lemma InsertOne(m: map<int64, nat>, k: int64, v: nat)
    requires Injective(m) && k !in m && v !in Live(m)
    ensures Injective(m[k := v]) && Live(m[k := v]) == Live(m) + {v}
  {
    var r := m[k := v];
    assert r[k] == v;
    forall a | a in m
      ensures m[a] in Live(r) && m[a] in Live(m)
    {
      assert r[a] == m[a];
    }
  }

  lemma WithoutOne(m: map<int64, nat>, k: int64)
    requires Injective(m) && k in m
    ensures var rest := m - {k};
            && m == rest[k := m[k]] && m.Keys == rest.Keys + {k} && k !in rest && Injective(rest)
            && m[k] !in Live(rest)
  {
    var rest := m - {k};
    assert forall a :: a in rest ==> rest[a] == m[a];
  }

  lemma {:induction false} KeysMatchValues(m: map<int64, nat>)
    requires Injective(m)
    ensures |m.Keys| == |Live(m)|
    decreases |m|
  {
    if m.Keys == {} {
    } else {
      var k :| k in m.Keys;
      var rest := m - {k};
      WithoutOne(m, k);
      KeysMatchValues(rest);
      InsertOne(rest, k, m[k]);
    }
  }

  class CpuIdMap {
    const allocator: IdAllocator
    var idsMap: map<int64, nat>

    /** Live ids own distinct indexes below `cur`, and none of them is stacked. */
    ghost predicate Usable()
      reads this, allocator
    {
      && allocator.Valid() && Injective(idsMap)
      && (forall k :: k in idsMap ==> idsMap[k] < allocator.curSize)
      && Packed(Live(idsMap), allocator.Stack(), allocator.curSize)
    }

    /** And no index is lost: live and stacked indexes fill `[0, cur)`. */
    ghost predicate Valid()
      reads this, allocator
    {
      Usable() && Partition(Live(idsMap), allocator.Stack(), allocator.curSize)
    }

    constructor (freeBlockSize: nat)
      requires freeBlockSize > 0
      ensures Valid() && fresh(allocator) && idsMap == map[] && allocator.curSize == 0
    {
      allocator := new IdAllocator(0, freeBlockSize);
      idsMap := map[];
    }

    /** Admits every unknown id. The functor runs over the batch in no fixed order, as worker threads may.
        One index is drawn per missing occurrence, so a repeated missing id leaks one for good:
        the partition survives exactly when the missing ids of the batch are distinct. */
    method Lookup(ids: seq<int64>) returns (out: array<nat>)
      requires Usable()
      requires CastFits(allocator.freeSize, |MissingPositions(idsMap, ids)|)
      modifies this, allocator
      ensures fresh(out) && out.Length == |ids| && Usable()
      ensures idsMap.Keys == old(idsMap.Keys) + Elems(ids)
      ensures forall k :: k in old(idsMap) ==> idsMap[k] == old(idsMap)[k]
      ensures forall i :: 0 <= i < |ids| ==> out[i] == idsMap[ids[i]]
      ensures Valid() <==> old(Valid()) && MissingDistinct(old(idsMap), ids)
      ensures old(allocator.curSize) <= allocator.curSize <= old(allocator.curSize) + |ids|
      ensures allocator.Stack() <= old(allocator.Stack())
    {
      ghost var before := idsMap;
      var newIds, newPos;
      out, newIds, newPos := FindKnown(ids);
      ghost var stack, cur := allocator.Stack(), allocator.curSize;
      SeqSetSize(newPos);
      SubrangeSize(Elems(newPos), |ids|);
      Admit(newIds, newPos, out);
      LookupOutcome(before, ids, newPos, newIds, stack, cur, idsMap);
      forall i | 0 <= i < |ids|
        ensures out[i] == idsMap[ids[i]]
      {
        assert i in Elems(newPos) || ids[i] in before;
      }
    }

    method Admit(newIds: seq<int64>, newPos: seq<nat>, out: array<nat>)
      requires allocator.Valid() && CastFits(allocator.freeSize, |newIds|)
      requires |newIds| == |newPos| && Distinct(newPos)
      requires forall j :: 0 <= j < |newPos| ==> newPos[j] < out.Length
      modifies this, allocator, out
      ensures allocator.Valid()
      ensures idsMap == InsertAll(old(idsMap), newIds,
                                  Drawn(old(allocator.Stack()), old(allocator.curSize), |newIds|))
      ensures allocator.Stack() == old(allocator.Stack())[..Max0(old(allocator.freeSize) - |newIds|)]
      ensures allocator.curSize == old(allocator.curSize) + Max0(|newIds| - old(allocator.freeSize))
      ensures forall j :: 0 <= j < |newIds| ==> newIds[j] in idsMap && out[newPos[j]] == idsMap[newIds[j]]
      ensures forall p: nat :: p < out.Length && p !in newPos ==> out[p] == old(out[p])
    {
      var index := allocator.GenIds(|newIds|);
      InsertNew(newIds, newPos, index, out);
    }

    /** Second pass: the first occurrence of a new id keeps its index, every occurrence reports it. */
    method InsertNew(newIds: seq<int64>, newPos: seq<nat>, index: array<nat>, out: array<nat>)
      requires |newIds| == |newPos| == index.Length && Distinct(newPos) && index != out
      requires forall j :: 0 <= j < |newPos| ==> newPos[j] < out.Length
      modifies this, out
      ensures idsMap == InsertAll(old(idsMap), newIds, old(index[..]))
      ensures forall j :: 0 <= j < |newIds| ==> newIds[j] in idsMap && out[newPos[j]] == idsMap[newIds[j]]
      ensures forall p: nat :: p < out.Length && p !in newPos ==> out[p] == old(out[p])
      ensures forall i :: 0 <= i < |newIds| && newIds[i] !in old(idsMap) && newIds[i] !in newIds[..i] ==>
                out[newPos[i]] == old(index[i])
    {
      InsertAt(old(idsMap), newIds, index[..]);
      ghost var before, drawn := idsMap, index[..];
      for i := 0 to |newIds|
        invariant idsMap == InsertAll(before, newIds[..i], drawn[..i])
        invariant forall j :: 0 <= j < i ==> newIds[j] in idsMap && out[newPos[j]] == idsMap[newIds[j]]
        invariant forall p: nat :: p < out.Length && p !in newPos ==> out[p] == old(out[p])
      {
        assert newIds[..i + 1][..i] == newIds[..i] && drawn[..i + 1][..i] == drawn[..i];
        if newIds[i] !in idsMap {
          idsMap := idsMap[newIds[i] := index[i]];
        }
        out[newPos[i]] := idsMap[newIds[i]];
      }
      assert newIds[..|newIds|] == newIds && drawn[..|newIds|] == drawn;
    }

    /** First pass: known ids get their index, unknown ones are listed with their positions. */
    method FindKnown(ids: seq<int64>) returns (out: array<nat>, newIds: seq<int64>, newPos: seq<nat>)
      ensures fresh(out) && out.Length == |ids|
      ensures forall i :: 0 <= i < |ids| && ids[i] in idsMap ==> out[i] == idsMap[ids[i]]
      ensures ListsMissing(idsMap, ids, newPos, newIds)
    {
      out := new nat[|ids|];
      newIds, newPos := [], [];
      var todo := UpTo(|ids|);
      while todo != {}
        invariant forall i :: i in todo ==> i < |ids|
        invariant forall i: nat :: i < |ids| && i !in todo && ids[i] in idsMap ==> out[i] == idsMap[ids[i]]
        invariant Distinct(newPos) && |newIds| == |newPos|
        invariant forall i: nat :: i in newPos <==> i < |ids| && i !in todo && ids[i] !in idsMap
        invariant forall i :: 0 <= i < |newPos| ==> newPos[i] < |ids| && newIds[i] == ids[newPos[i]]
        decreases todo
      {
        var i :| i in todo;
        if ids[i] in idsMap {
          out[i] := idsMap[ids[i]];
        } else {
          newIds, newPos := newIds + [ids[i]], newPos + [i];
        }
        todo := todo - {i};
      }
    }

    method LookupReadOnly(ids: seq<int64>) returns (out: array<int>)
      ensures fresh(out) && out.Length == |ids|
      ensures forall i :: 0 <= i < |ids| ==>
                out[i] == if ids[i] in idsMap then idsMap[ids[i]] else NULL_INDEX
    {
      out := new int[|ids|];
      for i := 0 to |ids|
        invariant forall j :: 0 <= j < i ==>
                    out[j] == if ids[j] in idsMap then idsMap[ids[j]] else NULL_INDEX
      {
        out[i] := if ids[i] in idsMap then idsMap[ids[i]] else NULL_INDEX;
      }
    }

    /** Drops ids and hands their indexes back. The partition survives exactly when
        `index` lists the indexes of the dropped live ids, each once; so listed, they lose nothing more. */
    method DeleteIds(ids: seq<int64>, index: seq<nat>)
      requires Usable()
      modifies this, allocator
      ensures allocator.Valid() && Injective(idsMap) && allocator.curSize == old(allocator.curSize)
      ensures idsMap == old(idsMap) - Elems(ids)
      ensures ids != [] ==> allocator.Stack() == old(allocator.Stack()) + index
      ensures ids == [] ==> allocator.Stack() == old(allocator.Stack())
      ensures old(Valid()) && ids != [] ==>
                (Valid() <==> Distinct(index) && Elems(index) == Live(old(idsMap)) - Live(idsMap))
      ensures ids == [] || (Distinct(index) && Elems(index) == Live(old(idsMap)) - Live(idsMap)) ==>
                Usable() && (Valid() <==> old(Valid()))
    {
      if |ids| == 0 {
        assert Elems(ids) == {} && idsMap == idsMap - {};
        return;
      }
      ghost var before := idsMap;
      for i := 0 to |ids|
        invariant idsMap == before - Elems(ids[..i])
        invariant unchanged(allocator)
      {
        idsMap := idsMap - {ids[i]};
        assert Elems(ids[..i + 1]) == Elems(ids[..i]) + {ids[i]};
      }
      assert ids[..|ids|] == ids;
      ghost var stack := allocator.Stack();
      allocator.FreeIds(index);
      if Partition(Live(before), stack, allocator.curSize) {
        DeleteOutcome(before, idsMap, stack, allocator.curSize, index);
      }
      if Distinct(index) && Elems(index) == Live(before) - Live(idsMap) {
        DeleteLosesNone(before, idsMap, stack, allocator.curSize, index);
      }
    }

    /** All live pairs in the map's own (unspecified) order; fails when the counts disagree, which they do exactly when
        an index is lost. */
    method SnapShot() returns (ok: bool, ids: seq<int64>, index: seq<nat>)
      requires allocator.Valid()
      ensures ok <==> |idsMap| == allocator.curSize - allocator.freeSize
      ensures Usable() ==> (ok <==> Valid())
      ensures ok ==> |index| == |ids| && Distinct(ids) && Elems(ids) == idsMap.Keys
      ensures ok ==> forall i :: 0 <= i < |ids| ==> ids[i] in idsMap && index[i] == idsMap[ids[i]]
    {
      if Usable() {
        LiveCount(Live(idsMap), allocator.Stack(), allocator.curSize);
        KeysMatchValues(idsMap);
      }
      ok, ids, index := |idsMap| == allocator.curSize - allocator.freeSize, [], [];
      if !ok {
        return;
      }
      var rest := idsMap.Keys;
      while rest != {}
        invariant rest <= idsMap.Keys && |index| == |ids| && Distinct(ids)
        invariant forall k :: k in ids <==> k in idsMap && k !in rest
        invariant forall i :: 0 <= i < |ids| ==> ids[i] in idsMap && index[i] == idsMap[ids[i]]
        decreases rest
      {
        var k :| k in rest;
        ids, index, rest := ids + [k], index + [idsMap[k]], rest - {k};
      }
      assert forall k :: k in Elems(ids) <==> k in ids;
    }

    method Clear()
      requires Valid()
      modifies this, allocator
      ensures Valid() && idsMap == map[] && allocator.curSize == 0
    {
      allocator.Clear();
      idsMap := map[];
    }
  }

  lemma InsertAt(m: map<int64, nat>, ids: seq<int64>, index: seq<nat>)
    requires |ids| == |index|
    ensures forall i :: 0 <= i < |ids| && ids[i] !in m && ids[i] !in ids[..i] ==>
              ids[i] in InsertAll(m, ids, index) && InsertAll(m, ids, index)[ids[i]] == index[i]
  {
    forall i | 0 <= i < |ids| && ids[i] !in m && ids[i] !in ids[..i]
      ensures ids[i] in InsertAll(m, ids, index) && InsertAll(m, ids, index)[ids[i]] == index[i]
    {
      InsertAllAt(m, ids, index, i, ids[i]);
    }
  }

  lemma DrawnBelow(live: set<nat>, stack: seq<nat>, cur: nat, m: nat)
    requires Packed(live, stack, cur)
    ensures forall x :: x in live + Elems(Drawn(stack, cur, m)) ==> x < cur + Max0(m - |stack|)
  {
    DrawKeepsPartition(live, stack, cur, m);
  }

  lemma LiveBelow(m: map<int64, nat>, all: set<nat>, bound: nat)
    requires Live(m) <= all && forall x :: x in all ==> x < bound
    ensures forall k :: k in m ==> 0 <= m[k] < bound
  {
    assert forall k :: k in m ==> m[k] in Live(m);
  }

  lemma LookupOutcome(before: map<int64, nat>, ids: seq<int64>, newPos: seq<nat>, newIds: seq<int64>,
                      stack: seq<nat>, cur: nat, after: map<int64, nat>)
    requires Injective(before) && Packed(Live(before), stack, cur)
    requires ListsMissing(before, ids, newPos, newIds)
    requires after == InsertAll(before, newIds, Drawn(stack, cur, |newPos|))
    ensures after.Keys == before.Keys + Elems(ids)
    ensures forall k :: k in before ==> after[k] == before[k]
    ensures Injective(after)
    ensures forall k :: k in after ==> 0 <= after[k] < cur + Max0(|newPos| - |stack|)
    ensures Packed(Live(after), stack[..Max0(|stack| - |newPos|)], cur + Max0(|newPos| - |stack|))
    ensures Partition(Live(after), stack[..Max0(|stack| - |newPos|)], cur + Max0(|newPos| - |stack|))
            <==> Partition(Live(before), stack, cur) && MissingDistinct(before, ids)
  {
    var m := |newPos|;
    var drawn := Drawn(stack, cur, m);
    DrawKeepsPartition(Live(before), stack, cur, m);
    SameMissing(before, ids, newPos, newIds);
    InsertAllMeaning(before, newIds, drawn);
    DrawnBelow(Live(before), stack, cur, m);
    LiveBelow(after, Live(before) + Elems(drawn), cur + Max0(m - |stack|));
    if Partition(Live(after), stack[..Max0(|stack| - m)], cur + Max0(m - |stack|)) {
      LeakBreaksPartition(before, newIds, stack, cur, after);
    }
  }

  /** Counting: a partition after the draw forces as many new keys as drawn indexes. */
  lemma LeakBreaksPartition(before: map<int64, nat>, newIds: seq<int64>, stack: seq<nat>, cur: nat,
                            after: map<int64, nat>)
    requires Injective(before) && Packed(Live(before), stack, cur)
    requires Injective(after) && after.Keys == before.Keys + Elems(newIds) && before.Keys !! Elems(newIds)
    requires var m := |newIds|;
             Partition(Live(after), stack[..Max0(|stack| - m)], cur + Max0(m - |stack|))
    ensures Distinct(newIds) && Partition(Live(before), stack, cur)
  {
    var m := |newIds|;
    LiveCount(Live(before), stack, cur);
    LiveCount(Live(after), stack[..Max0(|stack| - m)], cur + Max0(m - |stack|));
    KeysMatchValues(before);
    KeysMatchValues(after);
    assert |before.Keys + Elems(newIds)| == |before.Keys| + |Elems(newIds)|;
    SeqSetSize(newIds);
  }

  /** `newPos` lists the missing positions of the batch, each once, in whatever order; `newIds` their ids. */
  ghost predicate ListsMissing(m: map<int64, nat>, ids: seq<int64>, newPos: seq<nat>, newIds: seq<int64>) {
    && Distinct(newPos) && Elems(newPos) == MissingPositions(m, ids)
    && |newIds| == |newPos|
    && forall i :: 0 <= i < |newPos| ==> newPos[i] < |ids| && newIds[i] == ids[newPos[i]]
  }

  lemma MissingListed(m: map<int64, nat>, ids: seq<int64>, newPos: seq<nat>, newIds: seq<int64>, i: nat)
    returns (k: nat)
    requires ListsMissing(m, ids, newPos, newIds) && i < |ids| && ids[i] !in m
    ensures k < |newPos| && newPos[k] == i && newIds[k] == ids[i]
  {
    assert i in Elems(newPos);
    k :| 0 <= k < |newPos| && newPos[k] == i;
  }

  lemma SameMissing(m: map<int64, nat>, ids: seq<int64>, newPos: seq<nat>, newIds: seq<int64>)
    requires ListsMissing(m, ids, newPos, newIds)
    ensures forall x :: x in newIds ==> x !in m
    ensures m.Keys + Elems(newIds) == m.Keys + Elems(ids) && m.Keys !! Elems(newIds)
    ensures Distinct(newIds) <==> MissingDistinct(m, ids)
  {
    forall i | 0 <= i < |newPos|
      ensures newIds[i] !in m && newIds[i] in ids
    {
      assert newPos[i] in Elems(newPos);
    }
    forall i: nat | i < |ids| && ids[i] !in m
      ensures ids[i] in newIds
    {
      var k := MissingListed(m, ids, newPos, newIds, i);
    }
    if Distinct(newIds) {
      DistinctListed(m, ids, newPos, newIds);
    } else {
      var a, b :| 0 <= a < b < |newIds| && newIds[a] == newIds[b];
      assert newPos[a] != newPos[b];
    }
  }

  lemma DistinctListed(m: map<int64, nat>, ids: seq<int64>, newPos: seq<nat>, newIds: seq<int64>)
    requires ListsMissing(m, ids, newPos, newIds) && Distinct(newIds)
    ensures MissingDistinct(m, ids)
  {
    forall i, j | 0 <= i < j < |ids| && ids[i] !in m && ids[j] !in m
      ensures ids[i] != ids[j]
    {
      var a := MissingListed(m, ids, newPos, newIds, i);
      var b := MissingListed(m, ids, newPos, newIds, j);
      assert a < b || b < a;
    }
  }

  lemma DeleteLosesNone(before: map<int64, nat>, after: map<int64, nat>, stack: seq<nat>, cur: nat, index: seq<nat>)
    requires Packed(Live(before), stack, cur) && Distinct(index) && Elems(index) == Live(before) - Live(after)
    requires after.Keys <= before.Keys && forall k :: k in after ==> after[k] == before[k]
    ensures Packed(Live(after), stack + index, cur)
    ensures Partition(Live(after), stack + index, cur) <==> Partition(Live(before), stack, cur)
  {
    assert forall x :: x in index ==> x in Elems(index);
    forall k | k in after
      ensures after[k] in Live(before)
    {
      assert k in before;
    }
    assert Live(before) - Elems(index) == Live(after);
    FreeKeepsPacked(Live(before), stack, cur, index);
  }

  lemma DeleteOutcome(before: map<int64, nat>, after: map<int64, nat>, stack: seq<nat>, cur: nat, index: seq<nat>)
    requires Injective(before) && Partition(Live(before), stack, cur)
    requires after.Keys <= before.Keys && forall k :: k in after ==> after[k] == before[k]
    ensures Injective(after)
    ensures Partition(Live(after), stack + index, cur)
            <==> Distinct(index) && Elems(index) == Live(before) - Live(after)
  {
    forall k | k in after
      ensures after[k] in Live(before)
    {
      assert k in before;
    }
    FreeKeepsPartition(Live(before), stack, cur, index);
    if Elems(index) == Live(before) - Live(after) {
      assert forall x :: x in index ==> x in Elems(index);
      assert Live(before) - Elems(index) == Live(after);
    }
    if Partition(Live(after), stack + index, cur) {
      forall x: nat
        ensures x in Elems(index) <==> x in Live(before) - Live(after)
      {
        assert x in stack + index <==> x in stack || x in index;
      }
      assert Live(before) - Elems(index) == Live(after);
    }
  }
}
