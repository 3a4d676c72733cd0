/** Loading one saved piece of a table into a live one: chunk by chunk, ids first, then the rows of every slot. */
module LoadTables {
  import opened ChildIds
  import opened Collections
  import opened HashTables
  import opened IdAllocation
  import opened IdMapping
  import opened Slices
  import opened SlotGroups
  import opened Words

  /** What one saved table holds for one child: its ids, and for some slots of the target one row per id. */
  datatype Piece = Piece(child: string, ids: seq<int64>, slots: seq<nat>, rows: seq<seq<Row>>)

  ghost predicate Fits(p: Piece, slotNum: nat) {
    && |p.rows| == |p.slots| && Distinct(p.slots)
    && forall m :: 0 <= m < |p.slots| ==> p.slots[m] < slotNum && |p.rows[m]| == |p.ids|
  }

  /** The id a row is stored under in the target. */
  function KeyOf(id: int64, coalesce: bool, child: nat): int64
    requires child < 0x8000_0000
  {
    if coalesce then EncodeId(id, child) else id
  }

  /** The ids of a chunk as they are inserted: only accepted ones are encoded. */
  function Keys(ids: seq<int64>, s: Slice, coalesce: bool, child: nat): (ks: seq<int64>)
    requires s.size > 0 && child < 0x8000_0000
    ensures |ks| == |ids|
    ensures forall i :: 0 <= i < |ids| ==> ks[i] == if Accepts(s, ids[i]) then KeyOf(ids[i], coalesce, child) else ids[i]
  {
    seq(|ids|, i requires 0 <= i < |ids| => if Accepts(s, ids[i]) then KeyOf(ids[i], coalesce, child) else ids[i])
  }

  function Accepted(ids: seq<int64>, s: Slice): (r: seq<bool>)
    requires s.size > 0
    ensures |r| == |ids| && forall i :: 0 <= i < |ids| ==> (r[i] <==> Accepts(s, ids[i]))
  {
    seq(|ids|, i requires 0 <= i < |ids| => Accepts(s, ids[i]))
  }

  /** Writing rows through pairwise different indexes puts each row at its index and touches nothing else. */
  lemma {:induction false} ScatterAt(rows: seq<Row>, target: seq<int>, values: seq<Row>)
    requires |values| == |target| && InRange(target, |rows|)
    requires forall a, b :: 0 <= a < b < |target| && target[a] >= 0 ==> target[a] != target[b]
    ensures forall i :: 0 <= i < |target| && target[i] >= 0 ==> Scatter(rows, target, values)[target[i]] == values[i]
    ensures forall k :: 0 <= k < |rows| && (forall i :: 0 <= i < |target| ==> target[i] != k) ==>
              Scatter(rows, target, values)[k] == rows[k]
  {
    if target != [] {
      var n := |target| - 1;
      ScatterAt(rows, target[..n], values[..n]);
      forall i | 0 <= i < n && target[i] >= 0
        ensures Scatter(rows, target, values)[target[i]] == values[i]
      {
        assert target[..n][i] == target[i];
      }
    }
  }

  /** Row `k` belongs to a kept id of the chunk. */
  ghost predicate WrittenAt(after: Table, keys: seq<int64>, kept: seq<bool>, k: nat)
    requires |kept| == |keys|
  {
    exists i :: 0 <= i < |keys| && kept[i] && keys[i] in after.ids && after.ids[keys[i]] == k
  }

  /** The rows of one slot when its chunk rows are in. */
  ghost predicate Landed(before: seq<Row>, rows: seq<Row>, init: Row, after: Table, keys: seq<int64>, kept: seq<bool>,
                         values: seq<Row>)
    requires |kept| == |keys| == |values|
  {
    && |before| <= |rows|
    && (forall i :: 0 <= i < |keys| && kept[i] && keys[i] in after.ids && after.ids[keys[i]] < |rows| ==>
          rows[after.ids[keys[i]]] == values[i])
    && forall k: nat :: k < |rows| && !WrittenAt(after, keys, kept, k) ==>
         rows[k] == if k < |before| then before[k] else init
  }

  ghost predicate Skipped(before: seq<Row>, rows: seq<Row>, init: Row) {
    && |before| <= |rows|
    && forall k: nat :: k < |rows| ==> rows[k] == if k < |before| then before[k] else init
  }

  /** What one chunk does to the table. */
  ghost predicate ChunkStep(t: Table, after: Table, keys: seq<int64>, kept: seq<bool>, slots: seq<nat>, rows: seq<seq<Row>>)
    requires |kept| == |keys| && |rows| == |slots| && forall m :: 0 <= m < |rows| ==> |rows[m]| == |keys|
  {
    && t.Ok() && after.Ok() && after.inits == t.inits && t.cur <= after.cur && FreshLive(t, after)
    && after.ids.Keys == t.ids.Keys + Elems(Selected(keys, kept))
    && (forall id :: id in t.ids ==> after.ids[id] == t.ids[id])
    && (forall m :: 0 <= m < |slots| && slots[m] < |t.rows| ==>
          Landed(t.rows[slots[m]], after.rows[slots[m]], t.inits[slots[m]], after, keys, kept, rows[m]))
    && forall j: nat :: j < |t.rows| && j !in slots ==> Skipped(t.rows[j], after.rows[j], t.inits[j])
  }

  lemma GrownSkips(before: seq<Row>, rows: seq<Row>, init: Row)
    requires Grown(before, rows, init)
    ensures Skipped(before, rows, init)
  {
    forall k: nat | k < |rows|
      ensures rows[k] == if k < |before| then before[k] else init
    {
      if k < |before| {
        assert rows[..|before|][k] == rows[k];
      }
    }
  }

  lemma MaskedLands(before: seq<Row>, mid: seq<Row>, init: Row, t: Table, keys: seq<int64>, kept: seq<bool>,
                    index: seq<int>, values: seq<Row>)
    requires t.Ok() && Grown(before, mid, init) && |kept| == |keys| == |values| == |index|
    requires forall i :: 0 <= i < |keys| && kept[i] ==> keys[i] in t.ids && index[i] == t.ids[keys[i]] < |mid|
    requires forall i :: 0 <= i < |keys| && kept[i] ==> keys[i] !in keys[..i]
    ensures InRange(Masked(index, kept), |mid|)
    ensures Landed(before, Scatter(mid, Masked(index, kept), values), init, t, keys, kept, values)
  {
    var target := Masked(index, kept);
    forall a, b | 0 <= a < b < |target| && target[a] >= 0
      ensures target[a] != target[b]
    {
      if kept[b] {
        assert keys[a] in keys[..b];
      }
    }
    ScatterAt(mid, target, values);
    GrownSkips(before, mid, init);
    forall k: nat | k < |mid| && !WrittenAt(t, keys, kept, k)
      ensures Scatter(mid, target, values)[k] == mid[k]
    {
      forall i | 0 <= i < |target|
        ensures target[i] != k
      {
      }
    }
    forall i | 0 <= i < |keys| && kept[i]
      ensures Scatter(mid, target, values)[t.ids[keys[i]]] == values[i]
    {
      assert target[i] == t.ids[keys[i]];
    }
  }

  /** `after` is `mid` with the kept rows written to the listed slots. */
  ghost predicate RowsWritten(mid: Table, after: Table, target: seq<int>, slots: seq<nat>, values: seq<seq<Row>>)
    requires |values| == |slots| && forall m :: 0 <= m < |values| ==> |values[m]| == |target|
  {
    && after.ids == mid.ids && after.cur == mid.cur && after.inits == mid.inits && |after.rows| == |mid.rows|
    && (forall j: nat :: j < |mid.rows| && j !in slots ==> after.rows[j] == mid.rows[j])
    && forall m :: 0 <= m < |slots| && slots[m] < |mid.rows| ==>
         InRange(target, |mid.rows[slots[m]]|) && after.rows[slots[m]] == Scatter(mid.rows[slots[m]], target, values[m])
  }

  lemma ChunkDone(t: Table, mid: Table, after: Table, keys: seq<int64>, kept: seq<bool>, index: seq<int>,
                  slots: seq<nat>, values: seq<seq<Row>>)
    requires |kept| == |keys| == |index| && |values| == |slots| && forall m :: 0 <= m < |values| ==> |values[m]| == |keys|
    requires AdmitStep(t, mid, Selected(keys, kept)) && FreshLive(t, mid)
    requires RowsWritten(mid, after, Masked(index, kept), slots, values)
    requires forall i :: 0 <= i < |keys| && kept[i] ==> keys[i] in mid.ids && index[i] == mid.ids[keys[i]]
    requires forall i :: 0 <= i < |keys| && kept[i] ==> keys[i] !in keys[..i]
    ensures ChunkStep(t, after, keys, kept, slots, values)
  {
    forall m | 0 <= m < |slots| && slots[m] < |t.rows|
      ensures |after.rows[slots[m]]| == |mid.rows[slots[m]]|
      ensures Landed(t.rows[slots[m]], after.rows[slots[m]], t.inits[slots[m]], after, keys, kept, values[m])
    {
      var j := slots[m];
      MaskedLands(t.rows[j], mid.rows[j], t.inits[j], mid, keys, kept, index, values[m]);
    }
    forall j: nat | j < |t.rows| && j !in slots
      ensures Skipped(t.rows[j], after.rows[j], t.inits[j])
    {
      GrownSkips(t.rows[j], mid.rows[j], t.inits[j]);
    }
  }

  method InsertRows(ht: Hashtable, index: seq<int>, kept: seq<bool>, slots: seq<nat>, values: seq<seq<Row>>)
    requires ht.Valid() && |kept| == |index| && |values| == |slots| && Distinct(slots)
    requires forall m :: 0 <= m < |slots| ==> slots[m] < |ht.slotGroup.slots| && |values[m]| == |index|
    requires forall i :: 0 <= i < |index| && kept[i] ==> 0 <= index[i] < ht.State().cur
    modifies ht.slotGroup
    ensures ht.Valid() && ht.slotGroup.SameSlots()
    ensures RowsWritten(old(ht.State()), ht.State(), Masked(index, kept), slots, values)
  {
    ghost var mid, target := ht.State(), Masked(index, kept);
    for m := 0 to |slots|
      invariant ht.Valid() && ht.slotGroup.SameSlots()
      invariant ht.State().ids == mid.ids && ht.State().cur == mid.cur && ht.State().inits == mid.inits
      invariant |ht.State().rows| == |mid.rows|
      invariant forall j: nat :: j < |mid.rows| && j !in slots[..m] ==> ht.State().rows[j] == mid.rows[j]
      invariant forall n :: 0 <= n < m ==>
                  InRange(target, |mid.rows[slots[n]]|)
                  && ht.State().rows[slots[n]] == Scatter(mid.rows[slots[n]], target, values[n])
    {
      ht.slotGroup.IndexInsertMasked(slots[m], index, values[m], kept);
    }
    assert slots[..|slots|] == slots;
  }

  /** Reads ids `[beg, beg + num)` of a piece and their rows into the table. */
  method ProcessChunk(ht: Hashtable, p: Piece, s: Slice, coalesce: bool, beg: nat, num: nat)
    requires ht.Valid() && Fits(p, |ht.slotGroup.slots|) && beg + num <= |p.ids| && num < 0x8000_0000
    requires s.size > 0 && p.child in ht.children && |ht.children| < 0x8000_0000
    requires ht.idMap.allocator.freeSize < 0x8000_0000
    modifies ht.idMap, ht.idMap.allocator, ht.slotGroup
    ensures ht.Valid() && ht.slotGroup.SameSlots() && ht.idMap.allocator.freeSize <= old(ht.idMap.allocator.freeSize)
    ensures ChunkDid(old(ht.State()), ht.State(), p, s, coalesce, ChildIndex(ht.children, p.child), beg, num)
  {
    ghost var t := ht.State();
    var child := ChildIndex(ht.children, p.child);
    var chunkIds, accept := ReadIds(p.ids[beg..beg + num], s, coalesce, child);
    ghost var flags := accept[..];
    ChunkFits(ht.idMap.idsMap, chunkIds, FirstOnly(chunkIds, flags), ht.idMap.allocator.freeSize);
    var index := ht.InsertLookupIndexWithIndicator(chunkIds, accept);
    ghost var mid := ht.State();
    InsertRows(ht, index[..], accept[..], p.slots, Sliced(p.rows, beg, num));
    ChunkDone(t, mid, ht.State(), chunkIds, FirstOnly(chunkIds, flags), index[..], p.slots, Sliced(p.rows, beg, num));
  }

  /** Reads a chunk's ids, flags the ones this slice owns and encodes those for the child. */
  method ReadIds(ids: seq<int64>, s: Slice, coalesce: bool, child: nat) returns (chunkIds: seq<int64>, accept: array<bool>)
    requires s.size > 0 && child < 0x8000_0000
    ensures fresh(accept) && accept[..] == Accepted(ids, s) && chunkIds == Keys(ids, s, coalesce, child)
  {
    accept := MarkIdAcceptable(ids, s);
    var buffer := new int64[|ids|](i requires 0 <= i < |ids| => ids[i]);
    if coalesce {
      EncodeIds(buffer, accept[..], child);
    }
    chunkIds := buffer[..];
  }

  lemma ChunkFits(m: map<int64, nat>, ids: seq<int64>, flags: seq<bool>, free: nat)
    requires |flags| == |ids| < 0x8000_0000 && free < 0x8000_0000
    ensures CastFits(free, |MissingPositions(m, Selected(ids, flags))|)
  {
    var sel := Selected(ids, flags);
    SubrangeSize(MissingPositions(m, sel), |sel|);
    SelectedSize(ids, flags);
    RankBound(flags, |flags|);
  }

  lemma {:induction false} RankBound(flags: seq<bool>, i: nat)
    requires i <= |flags|
    ensures Rank(flags, i) <= i
  {
    if i > 0 {
      RankBound(flags, i - 1);
    }
  }

  function Sliced(rows: seq<seq<Row>>, beg: nat, num: nat): (r: seq<seq<Row>>)
    requires forall m :: 0 <= m < |rows| ==> beg + num <= |rows[m]|
    ensures |r| == |rows| && forall m :: 0 <= m < |r| ==> r[m] == rows[m][beg..beg + num]
  {
    seq(|rows|, m requires 0 <= m < |rows| => rows[m][beg..beg + num])
  }

  ghost predicate ChunkDid(t: Table, after: Table, p: Piece, s: Slice, coalesce: bool, child: nat, beg: nat, num: nat)
    requires |p.rows| == |p.slots| && (forall m :: 0 <= m < |p.rows| ==> |p.rows[m]| == |p.ids|)
    requires s.size > 0 && child < 0x8000_0000 && beg + num <= |p.ids|
  {
    var ids := p.ids[beg..beg + num];
    var keys := Keys(ids, s, coalesce, child);
    ChunkStep(t, after, keys, FirstOnly(keys, Accepted(ids, s)), p.slots, Sliced(p.rows, beg, num))
  }
}
