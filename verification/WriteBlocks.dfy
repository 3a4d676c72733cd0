/** Saving one table: its ids are split by child, and every slot writes one row per id of a child. */
module WriteBlocks {
  import opened ChildIds
  import opened Collections
  import opened HashTables
  import opened LoadTables
  import opened SlotGroups
  import opened Words

  /** The child a stored id is saved under; the arithmetic shift is the one the saver uses. */
  function ChildOf(key: int64, coalesce: bool): int {
    if coalesce then SignedChild(key) else 0
  }

  /** The id that is written. */
  function RawOf(key: int64, coalesce: bool): int64 {
    if coalesce then IdPart(key) else key
  }

  /** The stored id that was written as `id` under child `c`. */
  function Stored(c: nat, id: int64, coalesce: bool): int {
    if coalesce then c * ID_SPAN + id else id
  }

  lemma StoredIsKey(key: int64, coalesce: bool)
    requires ChildOf(key, coalesce) >= 0
    ensures Stored(ChildOf(key, coalesce), RawOf(key, coalesce), coalesce) == key
  {
  }

  /** Reading back encodes a saved id to the id it was saved from when children keep their positions. */
  lemma EncodeStored(c: nat, id: int64, coalesce: bool)
    requires c < 2048 && (coalesce ==> 0 <= id < ID_SPAN)
    ensures KeyOf(id, coalesce, c) == Stored(c, id, coalesce)
  {
  }

  /** The ids of child `c`, in the order they were found. */
  function IdsOf(keys: seq<int64>, coalesce: bool, c: nat): (ids: seq<int64>)
    ensures |ids| == |PositionsOf(keys, coalesce, c)|
  {
    if keys == [] then []
    else
      var n := |keys| - 1;
      IdsOf(keys[..n], coalesce, c) + if ChildOf(keys[n], coalesce) == c then [RawOf(keys[n], coalesce)] else []
  }

  /** Where those ids stand. */
  function PositionsOf(keys: seq<int64>, coalesce: bool, c: nat): (ps: seq<nat>)
    ensures forall i :: 0 <= i < |ps| ==> ps[i] < |keys|
    ensures forall i, j :: 0 <= i < j < |ps| ==> ps[i] < ps[j]
  {
    if keys == [] then []
    else
      var n := |keys| - 1;
      PositionsOf(keys[..n], coalesce, c) + if ChildOf(keys[n], coalesce) == c then [n] else []
  }

  lemma {:induction false} IdsOfAt(keys: seq<int64>, coalesce: bool, c: nat, p: nat)
    requires p < |IdsOf(keys, coalesce, c)|
    ensures var k := keys[PositionsOf(keys, coalesce, c)[p]];
            ChildOf(k, coalesce) == c && RawOf(k, coalesce) == IdsOf(keys, coalesce, c)[p]
  {
    var n := |keys| - 1;
    if p < |IdsOf(keys[..n], coalesce, c)| {
      IdsOfAt(keys[..n], coalesce, c, p);
      var q := PositionsOf(keys[..n], coalesce, c)[p];
      assert keys[..n][q] == keys[q];
    }
  }

  lemma {:induction false} PositionFound(keys: seq<int64>, coalesce: bool, i: nat)
    requires i < |keys| && ChildOf(keys[i], coalesce) >= 0
    ensures i in PositionsOf(keys, coalesce, ChildOf(keys[i], coalesce))
  {
    var n := |keys| - 1;
    if i < n {
      PositionFound(keys[..n], coalesce, i);
    }
  }

  /** `out` lists the rows at the given indexes. */
  ghost predicate Picked(rows: seq<Row>, index: seq<nat>, out: seq<Row>) {
    |out| == |index| && forall i :: 0 <= i < |index| ==> index[i] < |rows| && out[i] == rows[index[i]]
  }

  lemma PickedMore(group: SlotGroup, j: nat, index: seq<nat>, beg: nat, end: nat, rows: seq<Row>, more: seq<Row>)
    requires group.Valid() && j < |group.slots| && beg <= end <= |index|
    requires forall i :: 0 <= i < |index| ==> index[i] < group.blockNum * group.blockSize
    requires Picked(group.Rows(j), index[..beg], rows) && |more| == end - beg && group.Gathered(j, index, beg, end - beg, more)
    ensures Picked(group.Rows(j), index[..end], rows + more)
  {
    forall i | 0 <= i < end
      ensures (rows + more)[i] == group.Rows(j)[index[..end][i]]
    {
      if i >= beg {
        assert more[i - beg] == group.Read(j, index, beg + (i - beg));
      } else {
        assert index[..end][i] == index[..beg][i];
      }
    }
  }

  /** Rows are written in batches of `batch`. */
  method WriteRows(group: SlotGroup, j: nat, index: seq<nat>, batch: nat) returns (rows: seq<Row>)
    requires group.Valid() && j < |group.slots| && batch > 0
    requires forall i :: 0 <= i < |index| ==> index[i] < group.blockNum * group.blockSize
    ensures Picked(group.Rows(j), index, rows)
  {
    rows := [];
    var beg := 0;
    while beg < |index|
      invariant |rows| == if beg < |index| then beg else |index|
      invariant Picked(group.Rows(j), index[..|rows|], rows)
    {
      var end := if beg + batch < |index| then beg + batch else |index|;
      var ok, data := group.Gather(j, index, beg, end, false);
      PickedMore(group, j, index, beg, end, rows, data[..]);
      rows := rows + data[..];
      beg := beg + batch;
    }
    assert index[..|index|] == index;
  }

  /** The ids of child `c` with their indexes. */
  ghost predicate IsSplit(ids: seq<int64>, index: seq<nat>, coalesce: bool, c: nat, childIds: seq<int64>, childIndex: seq<nat>)
    requires |index| == |ids|
  {
    && childIds == IdsOf(ids, coalesce, c) && |childIndex| == |childIds|
    && forall p :: 0 <= p < |childIds| ==> childIndex[p] == index[PositionsOf(ids, coalesce, c)[p]]
  }

  lemma SplitStep(ids: seq<int64>, index: seq<nat>, coalesce: bool, c: nat, childIds: seq<int64>, childIndex: seq<nat>,
                  key: int64, k: nat)
    requires |index| == |ids| && IsSplit(ids, index, coalesce, c, childIds, childIndex)
    ensures ChildOf(key, coalesce) == c ==>
              IsSplit(ids + [key], index + [k], coalesce, c, childIds + [RawOf(key, coalesce)], childIndex + [k])
    ensures ChildOf(key, coalesce) != c ==> IsSplit(ids + [key], index + [k], coalesce, c, childIds, childIndex)
  {
    assert (ids + [key])[..|ids|] == ids;
  }

  /** The first `n` ids are split. */
  ghost predicate AllSplit(ids: seq<int64>, index: seq<nat>, coalesce: bool, n: nat, childIds: seq<seq<int64>>,
                           childIndexs: seq<seq<nat>>)
    requires n <= |ids| == |index|
  {
    && |childIds| == |childIndexs|
    && forall c :: 0 <= c < |childIds| ==> IsSplit(ids[..n], index[..n], coalesce, c, childIds[c], childIndexs[c])
  }

  lemma SplitNone(ids: seq<int64>, index: seq<nat>, coalesce: bool, childIds: seq<seq<int64>>, childIndexs: seq<seq<nat>>)
    requires |index| == |ids| && |childIds| == |childIndexs|
    requires forall c :: 0 <= c < |childIds| ==> childIds[c] == [] && childIndexs[c] == []
    ensures AllSplit(ids, index, coalesce, 0, childIds, childIndexs)
  {
  }

  lemma SplitWhole(ids: seq<int64>, index: seq<nat>, coalesce: bool, childIds: seq<seq<int64>>, childIndexs: seq<seq<nat>>)
    requires |index| == |ids| && AllSplit(ids, index, coalesce, |ids|, childIds, childIndexs)
    ensures forall c :: 0 <= c < |childIds| ==> IsSplit(ids, index, coalesce, c, childIds[c], childIndexs[c])
  {
    assert ids[..|ids|] == ids && index[..|ids|] == index;
  }

  lemma SplitAll(ids: seq<int64>, index: seq<nat>, coalesce: bool, i: nat, childIds: seq<seq<int64>>,
                 childIndexs: seq<seq<nat>>, c: nat)
    requires i < |ids| == |index| && AllSplit(ids, index, coalesce, i, childIds, childIndexs)
    requires c < |childIds| && ChildOf(ids[i], coalesce) == c
    ensures AllSplit(ids, index, coalesce, i + 1, childIds[c := childIds[c] + [RawOf(ids[i], coalesce)]],
                     childIndexs[c := childIndexs[c] + [index[i]]])
  {
    assert ids[..i + 1] == ids[..i] + [ids[i]] && index[..i + 1] == index[..i] + [index[i]];
    forall d | 0 <= d < |childIds|
      ensures IsSplit(ids[..i + 1], index[..i + 1], coalesce, d,
                      if d == c then childIds[d] + [RawOf(ids[i], coalesce)] else childIds[d],
                      if d == c then childIndexs[d] + [index[i]] else childIndexs[d])
    {
      SplitStep(ids[..i], index[..i], coalesce, d, childIds[d], childIndexs[d], ids[i], index[i]);
    }
  }

  /** One id joins the list of its child, if there is such a list; the shift that gives the child keeps the sign. */
  method AddToChild(ids: seq<int64>, index: seq<nat>, coalesce: bool, i: nat, childIds: seq<seq<int64>>, childIndexs: seq<seq<nat>>)
    returns (ok: bool, moreIds: seq<seq<int64>>, moreIndexs: seq<seq<nat>>)
    requires i < |ids| == |index| && AllSplit(ids, index, coalesce, i, childIds, childIndexs)
    ensures ok <==> 0 <= ChildOf(ids[i], coalesce) < |childIds|
    ensures |moreIds| == |childIds| && (ok ==> AllSplit(ids, index, coalesce, i + 1, moreIds, moreIndexs))
    ensures !ok ==> moreIds == childIds && moreIndexs == childIndexs
  {
    var c, id := 0, ids[i];
    if coalesce {
      c := SignedChild(id);
      id := IdPart(id);
    }
    ok, moreIds, moreIndexs := 0 <= c < |childIds|, childIds, childIndexs;
    if ok {
      SplitAll(ids, index, coalesce, i, childIds, childIndexs, c);
      moreIds := childIds[c := childIds[c] + [id]];
      moreIndexs := childIndexs[c := childIndexs[c] + [index[i]]];
    }
  }

  /** The loop over the snapshot: every id joins the list of its child. It fails at an id whose child has no list, where
      the source would write outside its lists. */
  method SplitByChild(ids: seq<int64>, index: seq<nat>, coalesce: bool, children: nat)
    returns (ok: bool, childIds: seq<seq<int64>>, childIndexs: seq<seq<nat>>)
    requires |index| == |ids| && children > 0
    ensures ok <==> forall i :: 0 <= i < |ids| ==> 0 <= ChildOf(ids[i], coalesce) < children
    ensures |childIds| == |childIndexs| == children
    ensures ok ==> forall c :: 0 <= c < children ==> IsSplit(ids, index, coalesce, c, childIds[c], childIndexs[c])
  {
    childIds, childIndexs := seq(children, c => []), seq(children, c => []);
    SplitNone(ids, index, coalesce, childIds, childIndexs);
    for i := 0 to |ids|
      invariant |childIds| == |childIndexs| == children
      invariant forall k :: 0 <= k < i ==> 0 <= ChildOf(ids[k], coalesce) < children
      invariant AllSplit(ids, index, coalesce, i, childIds, childIndexs)
    {
      ok, childIds, childIndexs := AddToChild(ids, index, coalesce, i, childIds, childIndexs);
      if !ok {
        return;
      }
    }
    ok := true;
    SplitWhole(ids, index, coalesce, childIds, childIndexs);
  }

  function AllSlots(n: nat): (s: seq<nat>)
    ensures |s| == n && forall j :: 0 <= j < n ==> s[j] == j
  {
    seq(n, j requires 0 <= j => j)
  }

  /** Piece `c` is what the table holds for child `c`: its ids without repeats, with the rows of every slot. */
  ghost predicate PieceOf(t: Table, children: seq<string>, coalesce: bool, p: Piece, c: nat)
    requires t.Ok() && c < |children|
  {
    && p.child == children[c] && p.slots == AllSlots(|t.rows|) && Fits(p, |t.rows|) && Distinct(p.ids)
    && (forall i :: 0 <= i < |p.ids| ==> SavedEntry(t, coalesce, p, c, i))
    && forall key :: key in t.ids && ChildOf(key, coalesce) == c ==> RawOf(key, coalesce) in p.ids
  }

  ghost predicate SavedEntry(t: Table, coalesce: bool, p: Piece, c: nat, i: nat)
    requires t.Ok() && |p.rows| == |t.rows| && i < |p.ids| && forall j :: 0 <= j < |p.rows| ==> |p.rows[j]| == |p.ids|
  {
    exists key :: key in t.ids && ChildOf(key, coalesce) == c && RawOf(key, coalesce) == p.ids[i]
                  && forall j :: 0 <= j < |t.rows| ==> p.rows[j][i] == t.View(j)[key]
  }

  /** Ids of one child come from different stored ids, so they differ. */
  lemma IdsDistinct(keys: seq<int64>, coalesce: bool, c: nat)
    requires Distinct(keys)
    ensures Distinct(IdsOf(keys, coalesce, c))
  {
    var ids, ps := IdsOf(keys, coalesce, c), PositionsOf(keys, coalesce, c);
    forall i, j | 0 <= i < j < |ids|
      ensures ids[i] != ids[j]
    {
      IdsOfAt(keys, coalesce, c, i);
      IdsOfAt(keys, coalesce, c, j);
      StoredIsKey(keys[ps[i]], coalesce);
      StoredIsKey(keys[ps[j]], coalesce);
    }
  }

  lemma IsPiece(t: Table, children: seq<string>, coalesce: bool, p: Piece, c: nat, keys: seq<int64>, index: seq<nat>,
                childIndex: seq<nat>)
    requires t.Ok() && c < |children| && p.child == children[c] && p.slots == AllSlots(|t.rows|) && |p.rows| == |t.rows|
    requires Distinct(keys) && Elems(keys) == t.ids.Keys && |index| == |keys|
    requires forall i :: 0 <= i < |keys| ==> keys[i] in t.ids && index[i] == t.ids[keys[i]]
    requires IsSplit(keys, index, coalesce, c, p.ids, childIndex)
    requires forall j :: 0 <= j < |t.rows| ==> Picked(t.rows[j], childIndex, p.rows[j])
    ensures PieceOf(t, children, coalesce, p, c)
  {
    IdsDistinct(keys, coalesce, c);
    forall i | 0 <= i < |p.ids|
      ensures SavedEntry(t, coalesce, p, c, i)
    {
      IdsOfAt(keys, coalesce, c, i);
      var key := keys[PositionsOf(keys, coalesce, c)[i]];
      assert key in t.ids && childIndex[i] == t.ids[key];
    }
    forall key | key in t.ids && ChildOf(key, coalesce) == c
      ensures RawOf(key, coalesce) in p.ids
    {
      assert key in Elems(keys);
      var i :| 0 <= i < |keys| && keys[i] == key;
      PositionFound(keys, coalesce, i);
      var q :| 0 <= q < |p.ids| && PositionsOf(keys, coalesce, c)[q] == i;
      IdsOfAt(keys, coalesce, c, q);
    }
  }

  method WriteSlots(ht: Hashtable, index: seq<nat>, batch: nat) returns (rows: seq<seq<Row>>)
    requires ht.Valid() && batch > 0 && forall i :: 0 <= i < |index| ==> index[i] < ht.State().cur
    ensures |rows| == |ht.State().rows|
    ensures forall j :: 0 <= j < |rows| ==> Picked(ht.State().rows[j], index, rows[j])
  {
    rows := [];
    for j := 0 to |ht.slotGroup.slots|
      invariant |rows| == j
      invariant forall k :: 0 <= k < j ==> Picked(ht.State().rows[k], index, rows[k])
    {
      var more := WriteRows(ht.slotGroup, j, index, batch);
      rows := rows + [more];
    }
  }

  /** The ids of child `c` and what every slot writes for them. */
  method WritePiece(ht: Hashtable, coalesce: bool, batch: nat, c: nat, ghost ids: seq<int64>, ghost index: seq<nat>,
                    childIds: seq<int64>, childIndex: seq<nat>)
    returns (p: Piece)
    requires ht.Valid() && batch > 0 && c < |ht.children|
    requires Distinct(ids) && Elems(ids) == ht.State().ids.Keys && |index| == |ids|
    requires forall i :: 0 <= i < |ids| ==> ids[i] in ht.State().ids && index[i] == ht.State().ids[ids[i]]
    requires IsSplit(ids, index, coalesce, c, childIds, childIndex)
    ensures PieceOf(ht.State(), ht.children, coalesce, p, c)
  {
    var rows := WriteSlots(ht, childIndex, batch);
    p := Piece(ht.children[c], childIds, AllSlots(|ht.slotGroup.slots|), rows);
    IsPiece(ht.State(), ht.children, coalesce, p, c, ids, index, childIndex);
  }

  /** What a table is saved as: one piece per child, provided that no index is lost and every stored id decodes to one of
      the children. */
  method MakeHTWriteBlock(ht: Hashtable, coalesce: bool, batch: nat) returns (ok: bool, pieces: seq<Piece>)
    requires ht.Usable() && batch > 0 && |ht.children| > 0
    ensures ok <==> ht.Valid() && forall key :: key in ht.State().ids ==> 0 <= ChildOf(key, coalesce) < |ht.children|
    ensures ok ==> |pieces| == |ht.children|
    ensures ok ==> forall c :: 0 <= c < |pieces| ==> PieceOf(ht.State(), ht.children, coalesce, pieces[c], c)
  {
    var found, ids, index := ht.idMap.SnapShot();
    if !found {
      return false, [];
    }
    ghost var t := ht.State();
    SameIds(t.ids, ids);
    var childIds, childIndexs;
    ok, childIds, childIndexs := SplitByChild(ids, index, coalesce, |ht.children|);
    if !ok {
      return false, [];
    }
    pieces := WritePieces(ht, coalesce, batch, ids, index, childIds, childIndexs);
  }

  method WritePieces(ht: Hashtable, coalesce: bool, batch: nat, ghost ids: seq<int64>, ghost index: seq<nat>,
                     childIds: seq<seq<int64>>, childIndexs: seq<seq<nat>>)
    returns (pieces: seq<Piece>)
    requires ht.Valid() && batch > 0 && |childIds| == |childIndexs| == |ht.children|
    requires Distinct(ids) && Elems(ids) == ht.State().ids.Keys && |index| == |ids|
    requires forall i :: 0 <= i < |ids| ==> ids[i] in ht.State().ids && index[i] == ht.State().ids[ids[i]]
    requires forall c :: 0 <= c < |childIds| ==> IsSplit(ids, index, coalesce, c, childIds[c], childIndexs[c])
    ensures |pieces| == |ht.children|
    ensures forall c :: 0 <= c < |pieces| ==> PieceOf(ht.State(), ht.children, coalesce, pieces[c], c)
  {
    ghost var t := ht.State();
    pieces := [];
    for c := 0 to |ht.children|
      invariant |pieces| == c
      invariant forall d :: 0 <= d < c ==> PieceOf(t, ht.children, coalesce, pieces[d], d)
    {
      var p := WritePiece(ht, coalesce, batch, c, ids, index, childIds[c], childIndexs[c]);
      pieces := pieces + [p];
    }
  }

  lemma SameIds(m: map<int64, nat>, ids: seq<int64>)
    requires Elems(ids) == m.Keys
    ensures forall i :: 0 <= i < |ids| ==> ids[i] in m
    ensures forall key :: key in m ==> exists i :: 0 <= i < |ids| && ids[i] == key
  {
    forall i | 0 <= i < |ids|
      ensures ids[i] in m
    {
      assert ids[i] in Elems(ids);
    }
    forall key | key in m
      ensures exists i :: 0 <= i < |ids| && ids[i] == key
    {
      assert key in Elems(ids);
    }
  }

  /** The id a table stores for child `c` can be saved exactly when the child's index is below 2048: from there on the
      saver's shift gives a negative child. */
  lemma SavesBelow(id: int64, c: nat, children: nat)
    requires c < children < MAX_CHILDREN
    ensures 0 <= ChildOf(KeyOf(id, true, c), true) < children <==> c < 2048
  {
    ChildRoundTrip(id, c);
  }
}
