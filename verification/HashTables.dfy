/** The dynamic embedding table: an id map in front, slots of rows behind.
    Seen from outside, every slot is a plain map from id to row. */
module HashTables {
  import opened BlockedArray
  import opened ChildIds
  import opened Collections
  import opened IdAllocation
  import opened IdMapping
  import opened SlotGroups
  import opened Words

  const EMB: nat := 0   // the embedding slot is appended first

  ghost predicate Covers(m: map<int64, nat>, rows: seq<Row>) {
    forall id :: id in m ==> m[id] < |rows|
  }

  /** What a caller sees: each live id with the row its index points to. */
  ghost function ViewOf(m: map<int64, nat>, rows: seq<Row>): (v: map<int64, Row>)
    requires Covers(m, rows)
    ensures v.Keys == m.Keys
  {
    map id | id in m :: rows[m[id]]
  }

  lemma SameView(m: map<int64, nat>, rows: seq<Row>, v: map<int64, Row>)
    requires Covers(m, rows) && v.Keys == m.Keys
    requires forall id :: id in m ==> rows[m[id]] == v[id]
    ensures ViewOf(m, rows) == v
  {
  }

  /** Rows nobody owns hold the initial row. */
  ghost predicate CleanRows(m: map<int64, nat>, rows: seq<Row>, init: Row) {
    forall k: nat :: k < |rows| && k !in Live(m) ==> rows[k] == init
  }

  /** The plain map after admitting a batch. */
  ghost function Admitted(v: map<int64, Row>, ids: seq<int64>, init: Row): map<int64, Row> {
    map id | id in v.Keys + Elems(ids) :: if id in v then v[id] else init
  }

  /** The plain map after writing a batch of rows, one after another. */
  ghost function Written(v: map<int64, Row>, ids: seq<int64>, rows: seq<Row>): (r: map<int64, Row>)
    requires |ids| == |rows|
    ensures r.Keys == v.Keys + Elems(ids)
  {
    if ids == [] then
      assert Elems(ids) == {};
      v
    else
      var n := |ids| - 1;
      assert Elems(ids) == Elems(ids[..n]) + {ids[n]} by {
        assert ids == ids[..n] + [ids[n]];
      }
      Written(v, ids[..n], rows[..n])[ids[n] := rows[n]]
  }

  /** An id keeps the last of the rows written for it, and its old one when there is none. */
  lemma {:induction false} LastWritten(v: map<int64, Row>, ids: seq<int64>, rows: seq<Row>, i: nat, id: int64)
    requires |ids| == |rows|
    ensures id in v && id !in ids ==> Written(v, ids, rows)[id] == v[id]
    ensures i < |ids| && ids[i] == id && id !in ids[i + 1..] ==> Written(v, ids, rows)[id] == rows[i]
  {
    if ids != [] {
      var n := |ids| - 1;
      LastWritten(v, ids[..n], rows[..n], i, id);
      if i < n {
        assert ids[i + 1..] == ids[..n][i + 1..] + [ids[n]];
      }
    }
  }

  /** The sequence grown at its end by copies of `init`. */
  ghost predicate Grown(before: seq<Row>, after: seq<Row>, init: Row) {
    && |before| <= |after|
    && after[..|before|] == before
    && forall k :: |before| <= k < |after| ==> after[k] == init
  }

  lemma LiveGrows(m: map<int64, nat>, after: map<int64, nat>)
    requires m.Keys <= after.Keys && forall id :: id in m ==> after[id] == m[id]
    ensures Live(m) <= Live(after)
    ensures Injective(after) ==> forall id :: id in after && id !in m ==> after[id] !in Live(m)
  {
    forall a | a in m
      ensures m[a] in Live(after)
    {
      assert after[a] == m[a];
    }
  }

  /** A freshly admitted id reads the initial row, even when its index was used before. */
  lemma AdmitView(m: map<int64, nat>, after: map<int64, nat>, rows: seq<Row>, grown: seq<Row>,
                  ids: seq<int64>, init: Row)
    requires Covers(m, rows) && Grown(rows, grown, init) && Covers(after, grown)
    requires after.Keys == m.Keys + Elems(ids) && Injective(after)
    requires forall id :: id in m ==> after[id] == m[id]
    requires CleanRows(m, rows, init)
    ensures ViewOf(after, grown) == Admitted(ViewOf(m, rows), ids, init)
    ensures CleanRows(after, grown, init)
  {
    LiveGrows(m, after);
    assert forall k :: 0 <= k < |rows| ==> grown[k] == grown[..|rows|][k];
    SameView(after, grown, Admitted(ViewOf(m, rows), ids, init));
  }

  lemma WriteOne(m: map<int64, nat>, rows: seq<Row>, id: int64, row: Row, init: Row)
    requires Covers(m, rows) && Injective(m) && id in m
    ensures Covers(m, rows[m[id] := row])
    ensures ViewOf(m, rows[m[id] := row]) == ViewOf(m, rows)[id := row]
    ensures CleanRows(m, rows, init) ==> CleanRows(m, rows[m[id] := row], init)
  {
    assert m[id] in Live(m);
    SameView(m, rows[m[id] := row], ViewOf(m, rows)[id := row]);
  }

  lemma {:induction false} WriteView(m: map<int64, nat>, rows: seq<Row>, ids: seq<int64>, index: seq<int>,
                                     values: seq<Row>, init: Row)
    requires Covers(m, rows) && Injective(m)
    requires |index| == |ids| == |values|
    requires forall i :: 0 <= i < |ids| ==> ids[i] in m && index[i] == m[ids[i]]
    ensures InRange(index, |rows|)
    ensures Covers(m, Scatter(rows, index, values))
    ensures ViewOf(m, Scatter(rows, index, values)) == Written(ViewOf(m, rows), ids, values)
    ensures CleanRows(m, rows, init) ==> CleanRows(m, Scatter(rows, index, values), init)
  {
    if ids == [] {
    } else {
      var n := |ids| - 1;
      WriteView(m, rows, ids[..n], index[..n], values[..n], init);
      WriteOne(m, Scatter(rows, index[..n], values[..n]), ids[n], values[n], init);
    }
  }

  lemma DropLast<T>(m: map<int64, T>, ids: seq<int64>)
    requires ids != []
    ensures m - Elems(ids) == m - Elems(ids[..|ids| - 1]) - {ids[|ids| - 1]}
  {
    assert ids == ids[..|ids| - 1] + [ids[|ids| - 1]];
  }

  lemma LiveWithout(m: map<int64, nat>, id: int64)
    requires Injective(m) && id in m
    ensures Injective(m - {id}) && Live(m - {id}) + {m[id]} == Live(m) && m[id] !in Live(m - {id})
  {
    var after := m - {id};
    assert forall a :: a in after ==> a in m && a != id && after[a] == m[a];
    forall a | a in m && a != id
      ensures m[a] in Live(after)
    {
      assert after[a] == m[a];
    }
  }

  lemma DropOne(m: map<int64, nat>, rows: seq<Row>, id: int64, init: Row)
    requires Covers(m, rows) && Injective(m) && id in m
    ensures Injective(m - {id}) && Covers(m - {id}, rows[m[id] := init])
    ensures ViewOf(m - {id}, rows[m[id] := init]) == ViewOf(m, rows) - {id}
    ensures CleanRows(m, rows, init) ==> CleanRows(m - {id}, rows[m[id] := init], init)
  {
    LiveWithout(m, id);
    assert forall k :: k in Live(m) ==> k in Live(m - {id}) || k == m[id];
    SameView(m - {id}, rows[m[id] := init], ViewOf(m, rows) - {id});
  }

  /** Dropping ids and resetting their rows: the other ids keep theirs, the freed rows are initial again. */
  lemma {:induction false} DropView(m: map<int64, nat>, rows: seq<Row>, ids: seq<int64>, index: seq<int>,
                                    values: seq<Row>, init: Row)
    requires Covers(m, rows) && Injective(m) && Distinct(ids)
    requires |index| == |ids| == |values|
    requires forall i :: 0 <= i < |ids| ==> ids[i] in m && index[i] == m[ids[i]] && values[i] == init
    ensures InRange(index, |rows|) && Injective(m - Elems(ids))
    ensures Covers(m - Elems(ids), Scatter(rows, index, values))
    ensures ViewOf(m - Elems(ids), Scatter(rows, index, values)) == ViewOf(m, rows) - Elems(ids)
    ensures CleanRows(m, rows, init) ==> CleanRows(m - Elems(ids), Scatter(rows, index, values), init)
  {
    if ids == [] {
      assert m - Elems(ids) == m && ViewOf(m, rows) - Elems(ids) == ViewOf(m, rows);
    } else {
      var n := |ids| - 1;
      DropView(m, rows, ids[..n], index[..n], values[..n], init);
      assert ids[n] !in ids[..n];
      DropLast(m, ids);
      DropLast(ViewOf(m, rows), ids);
      DropOne(m - Elems(ids[..n]), Scatter(rows, index[..n], values[..n]), ids[n], init);
    }
  }

  /** The whole table as a value: the id map, the fresh-index mark, and per slot its rows and initial row. */
  datatype Table = Table(ids: map<int64, nat>, cur: nat, rows: seq<seq<Row>>, inits: seq<Row>) {
    ghost predicate Ok() {
      && |rows| == |inits| > 0
      && Injective(ids)
      && (forall id :: id in ids ==> ids[id] < cur)
      && (forall j :: 0 <= j < |rows| ==> cur <= |rows[j]|)
    }

    /** Slot `j` as a plain map from id to row. */
    ghost function View(j: nat): map<int64, Row>
      requires Ok() && j < |rows|
    {
      ViewOf(ids, rows[j])
    }

    /** No row of slot `j` outside the live ones differs from the initial row. */
    ghost predicate Clean(j: nat)
      requires Ok() && j < |rows|
    {
      CleanRows(ids, rows[j], inits[j])
    }
  }

  /** What admitting a batch does to the table. */
  ghost predicate AdmitStep(t: Table, after: Table, ids: seq<int64>) {
    && t.Ok() && after.Ok() && after.inits == t.inits
    && after.ids.Keys == t.ids.Keys + Elems(ids)
    && (forall id :: id in t.ids ==> after.ids[id] == t.ids[id])
    && t.cur <= after.cur <= t.cur + |ids|
    && (forall j :: 0 <= j < |t.rows| ==> Grown(t.rows[j], after.rows[j], t.inits[j]))
  }

  /** Every index drawn beyond the mark is in use. */
  ghost predicate FreshLive(t: Table, after: Table) {
    forall k: nat :: t.cur <= k < after.cur ==> k in Live(after.ids)
  }

  lemma AdmitStepView(t: Table, after: Table, ids: seq<int64>, j: nat)
    requires AdmitStep(t, after, ids) && j < |t.rows| && t.Clean(j)
    ensures after.View(j) == Admitted(t.View(j), ids, t.inits[j]) && after.Clean(j)
  {
    AdmitView(t.ids, after.ids, t.rows[j], after.rows[j], ids, t.inits[j]);
  }

  /** What a batch wrote over does not matter. */
  lemma {:induction false} WrittenSplit(v: map<int64, Row>, ids: seq<int64>, rows: seq<Row>)
    requires |ids| == |rows|
    ensures Written(v, ids, rows) == (v - Elems(ids)) + Written(map[], ids, rows)
  {
    if ids == [] {
      assert v - Elems(ids) == v;
    } else {
      var n := |ids| - 1;
      WrittenSplit(v, ids[..n], rows[..n]);
      DropLast(v, ids);
    }
  }

  lemma WrittenAfterAdmission(v: map<int64, Row>, ids: seq<int64>, rows: seq<Row>, init: Row)
    requires |ids| == |rows|
    ensures Written(Admitted(v, ids, init), ids, rows) == Written(v, ids, rows)
  {
    WrittenSplit(v, ids, rows);
    WrittenSplit(Admitted(v, ids, init), ids, rows);
    assert Admitted(v, ids, init) - Elems(ids) == v - Elems(ids);
  }

  /** What a batch insertion does: slot `EMB` gets the rows, the other slots admit the new ids. */
  ghost predicate InsertStep(t: Table, after: Table, ids: seq<int64>, rows: seq<Row>) {
    && |ids| == |rows|
    && t.Ok() && after.Ok() && after.inits == t.inits
    && after.ids.Keys == t.ids.Keys + Elems(ids)
    && t.cur <= after.cur <= t.cur + |ids|
    && forall j :: 0 <= j < |t.rows| && t.Clean(j) ==>
         && after.Clean(j)
         && after.View(j) == if j == EMB then Written(t.View(j), ids, rows) else Admitted(t.View(j), ids, t.inits[j])
  }

  lemma InsertStepView(t: Table, mid: Table, ids: seq<int64>, index: seq<int>, rows: seq<Row>)
    requires AdmitStep(t, mid, ids) && |index| == |ids| == |rows|
    requires forall i :: 0 <= i < |ids| ==> ids[i] in mid.ids && index[i] == mid.ids[ids[i]]
    ensures InRange(index, |mid.rows[EMB]|)
    ensures InsertStep(t, mid.(rows := mid.rows[EMB := Scatter(mid.rows[EMB], index, rows)]), ids, rows)
  {
    var after := mid.(rows := mid.rows[EMB := Scatter(mid.rows[EMB], index, rows)]);
    forall j | 0 <= j < |t.rows| && t.Clean(j)
      ensures after.Clean(j)
      ensures after.View(j) == if j == EMB then Written(t.View(j), ids, rows) else Admitted(t.View(j), ids, t.inits[j])
    {
      AdmitStepView(t, mid, ids, j);
      if j == EMB {
        WriteView(mid.ids, mid.rows[EMB], ids, index, rows, t.inits[EMB]);
        WrittenAfterAdmission(t.View(EMB), ids, rows, t.inits[EMB]);
      }
    }
  }

  /** What deleting does: every slot forgets the ids; all slots but the preserved one are clean again. */
  ghost predicate DropStep(t: Table, after: Table, ids: set<int64>, preserved: int) {
    && t.Ok() && after.Ok() && after.inits == t.inits && after.cur == t.cur
    && after.ids == t.ids - ids
    && (forall j :: 0 <= j < |t.rows| ==> after.View(j) == t.View(j) - ids)
    && (forall j :: 0 <= j < |t.rows| && j != preserved && t.Clean(j) ==> after.Clean(j))
    && (0 <= preserved < |t.rows| ==> |after.rows| == |t.rows| && after.rows[preserved] == t.rows[preserved])
  }

  /** What an id admitted after a deletion reads in the preserved slot: the row of the deleted id whose index it got,
      or the initial row when no deleted id had that index. */
  lemma ReusedRow(t: Table, mid: Table, after: Table, dropped: set<int64>, ids: seq<int64>, j: nat, id: int64)
    requires j < |t.rows| && DropStep(t, mid, dropped, j) && t.Clean(j)
    requires AdmitStep(mid, after, ids) && id in ids && id !in mid.ids
    ensures id in after.ids
    ensures forall d :: d in t.ids && t.ids[d] == after.ids[id] ==>
              d in dropped && after.View(j)[id] == t.View(j)[d]
    ensures (forall d :: d in t.ids ==> t.ids[d] != after.ids[id]) ==> after.View(j)[id] == t.inits[j]
  {
    var k := after.ids[id];
    assert Grown(mid.rows[j], after.rows[j], mid.inits[j]);
    assert k < |t.rows[j]| ==> after.rows[j][k] == after.rows[j][..|mid.rows[j]|][k] == t.rows[j][k];
    assert k !in Live(t.ids) && k < |t.rows[j]| ==> t.rows[j][k] == t.inits[j];
    assert after.View(j)[id] == after.rows[j][k];
    forall d | d in t.ids && t.ids[d] == k
      ensures d in dropped && after.View(j)[id] == t.View(j)[d]
    {
      assert d in dropped || d in mid.ids;
      assert t.View(j)[d] == t.rows[j][k];
    }
  }

  lemma DropStepView(t: Table, after: Table, ids: seq<int64>, index: seq<int>, preserved: int)
    requires t.Ok() && Distinct(ids) && |index| == |ids|
    requires forall i :: 0 <= i < |ids| ==> ids[i] in t.ids && index[i] == t.ids[ids[i]]
    requires after.inits == t.inits && after.cur == t.cur && after.ids == t.ids - Elems(ids)
    requires |after.rows| == |t.rows|
    requires forall j :: 0 <= j < |t.rows| ==>
               InRange(index, |t.rows[j]|) &&
               after.rows[j] == if j == preserved then t.rows[j]
                                else Scatter(t.rows[j], index, Repeat(t.inits[j], |ids|))
    ensures DropStep(t, after, Elems(ids), preserved)
  {
    assert forall id :: id in after.ids ==> id in t.ids && after.ids[id] == t.ids[id];
    forall j | 0 <= j < |t.rows|
      ensures after.View(j) == t.View(j) - Elems(ids)
      ensures j != preserved && t.Clean(j) ==> after.Clean(j)
    {
      if j == preserved {
        SameView(after.ids, after.rows[j], t.View(j) - Elems(ids));
      } else {
        DropView(t.ids, t.rows[j], ids, index, Repeat(t.inits[j], |ids|), t.inits[j]);
      }
    }
  }

  ghost predicate IndexOf(t: Table, ids: seq<int64>, index: seq<int>) {
    && |index| == |ids|
    && forall i :: 0 <= i < |ids| ==> index[i] == if ids[i] in t.ids then t.ids[ids[i]] else NULL_INDEX
  }

  /** The answer to a lookup: known ids give their index and row, unknown ones -1 and zeros. */
  ghost predicate Fetched(t: Table, ids: seq<int64>, index: seq<int>, emb: seq<Row>, dim: nat)
    requires t.Ok()
  {
    && IndexOf(t, ids, index) && |emb| == |ids|
    && forall i :: 0 <= i < |ids| ==> emb[i] == if ids[i] in t.ids then t.View(EMB)[ids[i]] else Zeros(dim)
  }

  lemma FetchedBounds(t: Table, ids: seq<int64>, index: seq<int>)
    requires t.Ok() && IndexOf(t, ids, index)
    ensures InRange(index, |t.rows[EMB]|)
  {
  }

  method AsInts(found: array<nat>) returns (index: array<int>)
    ensures fresh(index) && index.Length == found.Length
    ensures forall i :: 0 <= i < index.Length ==> index[i] == found[i]
  {
    index := new int[found.Length](i requires 0 <= i < found.Length reads found => found[i]);
  }

  class Hashtable {
    const idMap: CpuIdMap
    const slotGroup: SlotGroup
    const children: seq<string>

    /** Every live id has a row of its own in every slot. */
    ghost predicate Usable()
      reads this, idMap, idMap.allocator, slotGroup
    {
      && idMap.Usable() && slotGroup.Valid() && |slotGroup.slots| > 0
      && idMap.allocator.curSize <= slotGroup.blockNum * slotGroup.blockSize
    }

    /** And no index is lost: live and free indexes tile the drawn ones. */
    ghost predicate Valid()
      reads this, idMap, idMap.allocator, slotGroup
    {
      Usable() && idMap.Valid()
    }

    ghost function State(): (t: Table)
      requires Usable()
      reads this, idMap, idMap.allocator, slotGroup
      ensures t.Ok()
    {
      Table(idMap.idsMap, idMap.allocator.curSize, slotGroup.AllRows(), slotGroup.Inits())
    }

    constructor (blockSize: nat, freeBlockSize: nat, dim: nat, init: Row, children: seq<string>, coalesce: bool)
      requires blockSize > 0 && freeBlockSize > 0
      requires ValidChildren(children, coalesce)
      ensures Valid() && fresh(idMap) && fresh(idMap.allocator) && fresh(slotGroup)
      ensures State() == Table(map[], 0, [[]], [init]) && slotGroup.blockNum == 0
      ensures this.children == children
    {
      this.children := children;
      idMap := new CpuIdMap(freeBlockSize);
      slotGroup := new SlotGroup(blockSize);
      new;
      slotGroup.AppendSlot("embedding", dim, init);
    }

    /** Optimizer and filter slots. The new slot has no blocks, so the table stays uniform exactly when none of its slots
        had one; ids and the other slots stay as they are. */
    method AppendSlot(name: string, dim: nat, init: Row)
      requires Valid()
      modifies slotGroup
      ensures slotGroup.slots == old(slotGroup.slots) + [Slot(name, dim, init, [])]
      ensures slotGroup.blockNum == old(slotGroup.blockNum)
      ensures Valid() <==> slotGroup.blockNum == 0
      ensures Valid() ==> var t := old(State());
              State() == t.(rows := t.rows + [[]], inits := t.inits + [init])
    {
      slotGroup.AppendSlot(name, dim, init);
    }

    method ReserveBlocksForIds(idsNum: nat)
      requires slotGroup.Valid()
      modifies slotGroup
      ensures slotGroup.Valid() && slotGroup.SameSlots()
      ensures idsNum < slotGroup.blockNum * slotGroup.blockSize
      ensures slotGroup.Inits() == old(slotGroup.Inits())
      ensures forall j :: 0 <= j < |slotGroup.slots| ==>
                Grown(old(slotGroup.AllRows())[j], slotGroup.AllRows()[j], slotGroup.Inits()[j])
    {
      var blockNum := (idsNum + slotGroup.blockSize) / slotGroup.blockSize;
      DivInRange(idsNum + slotGroup.blockSize, slotGroup.blockSize, blockNum + 1);
      ghost var before := slotGroup.AllRows();
      while slotGroup.blockNum < blockNum
        invariant slotGroup.Valid() && slotGroup.SameSlots()
        invariant forall j :: 0 <= j < |slotGroup.slots| ==>
                    Grown(before[j], slotGroup.Rows(j), slotGroup.slots[j].init)
      {
        slotGroup.IncrementBlock();
      }
      MulMono(blockNum, slotGroup.blockNum, slotGroup.blockSize);
    }

    /** Admits the unknown ids of a batch. A repeated unknown id gets one row like any other, but the index drawn for the
        repetition is lost: a valid table stays valid exactly when no unknown id is repeated. */
    method InsertLookupIndex(ids: seq<int64>) returns (index: array<nat>)
      requires Usable()
      requires CastFits(idMap.allocator.freeSize, |MissingPositions(idMap.idsMap, ids)|)
      modifies idMap, idMap.allocator, slotGroup
      ensures fresh(index) && index.Length == |ids|
      ensures Usable() && slotGroup.SameSlots() && AdmitStep(old(State()), State(), ids)
      ensures Valid() <==> old(Valid()) && MissingDistinct(old(idMap.idsMap), ids)
      ensures Valid() ==> FreshLive(old(State()), State())
      ensures idMap.allocator.freeSize <= old(idMap.allocator.freeSize)
      ensures forall i :: 0 <= i < |ids| ==> ids[i] in idMap.idsMap && index[i] == idMap.idsMap[ids[i]]
    {
      index := idMap.Lookup(ids);
      assert forall k: nat :: k in idMap.allocator.Stack() ==> k in old(idMap.allocator.Stack());
      assert |idMap.allocator.Stack()| <= |old(idMap.allocator.Stack())|;
      assert forall i :: 0 <= i < |ids| ==> ids[i] in Elems(ids);
      ReserveBlocksForIds(idMap.allocator.curSize);
    }

    /** Admits the ids of a batch that are accepted where they occur first; `accept` is narrowed to those places. */
    method InsertLookupIndexWithIndicator(ids: seq<int64>, accept: array<bool>) returns (index: array<int>)
      requires Valid() && accept.Length == |ids|
      requires CastFits(idMap.allocator.freeSize,
                        |MissingPositions(idMap.idsMap, Selected(ids, FirstOnly(ids, accept[..])))|)
      modifies idMap, idMap.allocator, slotGroup, accept
      ensures fresh(index) && index.Length == |ids|
      ensures Valid() && slotGroup.SameSlots()
      ensures accept[..] == FirstOnly(ids, old(accept[..]))
      ensures AdmitStep(old(State()), State(), Selected(ids, accept[..])) && FreshLive(old(State()), State())
      ensures idMap.allocator.freeSize <= old(idMap.allocator.freeSize)
      ensures forall i :: 0 <= i < |ids| ==>
                (accept[i] ==> ids[i] in State().ids) && index[i] == if accept[i] then State().ids[ids[i]] else 0
    {
      KeepFirst(ids, accept);
      var insertIds := Selected(ids, accept[..]);
      SelectedDistinct(ids, accept[..]);
      var insertIndex := InsertLookupIndex(insertIds);
      SelectedSize(ids, accept[..]);
      index := MaskedScatter(accept[..], insertIndex[..]);
      forall i | 0 <= i < |ids| && accept[i]
        ensures ids[i] in State().ids && index[i] == State().ids[ids[i]]
      {
        SelectedAt(ids, accept[..], i);
      }
    }

    /** Looks rows up; read-only, an unknown id reads as index -1 and zeros, otherwise it is admitted. */
    method EmbeddingLookup(ids: seq<int64>, readonly: bool) returns (index: array<int>, emb: array<Row>)
      requires Usable()
      requires readonly || CastFits(idMap.allocator.freeSize, |MissingPositions(idMap.idsMap, ids)|)
      modifies idMap, idMap.allocator, slotGroup
      ensures Usable() && slotGroup.SameSlots()
      ensures Valid() <==> old(Valid()) && (readonly || MissingDistinct(old(idMap.idsMap), ids))
      ensures AdmitStep(old(State()), State(), if readonly then [] else ids)
      ensures Fetched(State(), ids, index[..], emb[..], slotGroup.slots[EMB].dim)
      ensures !readonly ==> forall i :: 0 <= i < |ids| ==> ids[i] in State().ids
      ensures forall i :: 0 <= i < |ids| && ids[i] !in State().ids ==> IsZero(emb[i], slotGroup.slots[EMB].dim)
    {
      if readonly {
        index, emb := EmbeddingLookupReadOnly(ids);
      } else {
        index, emb := EmbeddingLookupAdmitting(ids);
      }
    }

    method EmbeddingLookupAdmitting(ids: seq<int64>) returns (index: array<int>, emb: array<Row>)
      requires Usable() && CastFits(idMap.allocator.freeSize, |MissingPositions(idMap.idsMap, ids)|)
      modifies idMap, idMap.allocator, slotGroup
      ensures Usable() && slotGroup.SameSlots()
      ensures Valid() <==> old(Valid()) && MissingDistinct(old(idMap.idsMap), ids)
      ensures AdmitStep(old(State()), State(), ids)
      ensures Fetched(State(), ids, index[..], emb[..], slotGroup.slots[EMB].dim)
      ensures forall i :: 0 <= i < |ids| ==> ids[i] in State().ids
    {
      var found := InsertLookupIndex(ids);
      index := AsInts(found);
      emb := FetchRows(ids, index, false);
    }

    /** Reads the rows behind the indexes of a batch. */
    method FetchRows(ids: seq<int64>, index: array<int>, readonly: bool) returns (emb: array<Row>)
      requires Usable() && IndexOf(State(), ids, index[..]) && (readonly || NULL_INDEX !in index[..])
      ensures Fetched(State(), ids, index[..], emb[..], slotGroup.slots[EMB].dim)
    {
      FetchedBounds(State(), ids, index[..]);
      var ok;
      ok, emb := slotGroup.Gather(EMB, index[..], 0, index.Length, readonly);
    }

    method EmbeddingLookupReadOnly(ids: seq<int64>) returns (index: array<int>, emb: array<Row>)
      requires Usable()
      modifies slotGroup
      ensures Usable() && slotGroup.SameSlots() && (Valid() <==> old(Valid()))
      ensures AdmitStep(old(State()), State(), [])
      ensures Fetched(State(), ids, index[..], emb[..], slotGroup.slots[EMB].dim)
      ensures forall i :: 0 <= i < |ids| && ids[i] !in State().ids ==> IsZero(emb[i], slotGroup.slots[EMB].dim)
    {
      index := idMap.LookupReadOnly(ids);
      ReserveBlocksForIds(idMap.allocator.curSize);
      emb := FetchRows(ids, index, true);
    }

    /** Stores rows for ids in the embedding slot; fails on a length mismatch. */
    method Insert(ids: seq<int64>, embedding: seq<Row>) returns (ok: bool)
      requires Usable() && CastFits(idMap.allocator.freeSize, |MissingPositions(idMap.idsMap, ids)|)
      modifies idMap, idMap.allocator, slotGroup
      ensures Usable() && slotGroup.SameSlots()
      ensures Valid() <==> old(Valid()) && (!ok || MissingDistinct(old(idMap.idsMap), ids))
      ensures ok <==> |ids| == |embedding|
      ensures !ok ==> State() == old(State())
      ensures ok ==> InsertStep(old(State()), State(), ids, embedding)
    {
      if |ids| != |embedding| {
        return false;
      }
      ghost var t := State();
      var index := InsertLookupIndex(ids);
      ghost var mid := State();
      InsertStepView(t, mid, ids, index[..], embedding);
      PutRows(index[..], embedding);
      return true;
    }

    /** Writes one row for each index of a batch into the embedding slot. */
    method PutRows(index: seq<int>, embedding: seq<Row>)
      requires Usable() && |index| == |embedding| && InRange(index, |State().rows[EMB]|)
      modifies slotGroup
      ensures Usable() && slotGroup.SameSlots()
      ensures var t := old(State()); State() == t.(rows := t.rows[EMB := Scatter(t.rows[EMB], index, embedding)])
    {
      slotGroup.IndexInsert(EMB, index, embedding);
      assert Offered(embedding, |index|) == embedding;
    }

    /** Position of the slot a delete must leave alone, or -1. */
    function Preserved(preserve: string): int
      reads slotGroup
    {
      if preserve == "" then -1 else LastNamed(slotGroup.slots, preserve)
    }

    /** Forgets live ids, given with their own indexes, and resets their rows in all slots but `preserve`. */
    method Delete(ids: seq<int64>, index: seq<nat>, preserve: string)
      requires Usable() && Distinct(ids) && |index| == |ids|
      requires forall i :: 0 <= i < |ids| ==> ids[i] in idMap.idsMap && index[i] == idMap.idsMap[ids[i]]
      requires preserve == "" || LastNamed(slotGroup.slots, preserve) >= 0
      modifies idMap, idMap.allocator, slotGroup
      ensures Usable() && slotGroup.SameSlots() && (Valid() <==> old(Valid()))
      ensures DropStep(old(State()), State(), Elems(ids), old(Preserved(preserve)))
    {
      ghost var t, keep := State(), Preserved(preserve);
      if |ids| == 0 {
        assert Elems(ids) == {} && t.ids - {} == t.ids;
        assert forall j :: 0 <= j < |t.rows| ==> t.View(j) - {} == t.View(j);
        return;
      }
      ReturnedIndexes(t.ids, ids, index);
      assert forall i :: 0 <= i < |ids| ==> t.ids[ids[i]] < t.cur;
      idMap.DeleteIds(ids, index);
      ResetSlots(|ids|, index, preserve);
      DropStepView(t, State(), ids, index, keep);
    }

    method ResetSlots(count: nat, index: seq<nat>, preserve: string)
      requires slotGroup.Valid() && count == |index|
      requires InRange(index, slotGroup.blockNum * slotGroup.blockSize)
      modifies slotGroup
      ensures slotGroup.Valid() && slotGroup.SameSlots() && slotGroup.blockNum == old(slotGroup.blockNum)
      ensures slotGroup.Inits() == old(slotGroup.Inits())
      ensures forall j :: 0 <= j < |slotGroup.slots| ==>
                slotGroup.AllRows()[j] == if j == old(Preserved(preserve)) then old(slotGroup.AllRows())[j]
                                          else Scatter(old(slotGroup.AllRows())[j], index,
                                                       Repeat(slotGroup.Inits()[j], count))
    {
      ghost var slots, rows, keep := slotGroup.slots, slotGroup.AllRows(), Preserved(preserve);
      for j := 0 to |slotGroup.slots|
        invariant slotGroup.Valid() && slotGroup.SameSlots() && slotGroup.blockNum == old(slotGroup.blockNum)
        invariant forall k :: j <= k < |slots| ==> slotGroup.slots[k] == slots[k]
        invariant forall k :: 0 <= k < j ==>
                    slotGroup.Rows(k) == if k == keep then rows[k]
                                         else Scatter(rows[k], index, Repeat(slots[k].init, count))
        invariant Preserved(preserve) == keep
      {
        ResetSlot(j, count, index, preserve);
      }
    }

    method ResetSlot(j: nat, count: nat, index: seq<nat>, preserve: string)
      requires slotGroup.Valid() && count == |index| && j < |slotGroup.slots|
      requires InRange(index, slotGroup.blockNum * slotGroup.blockSize)
      modifies slotGroup
      ensures slotGroup.Valid() && slotGroup.SameSlots() && slotGroup.blockNum == old(slotGroup.blockNum)
      ensures Preserved(preserve) == old(Preserved(preserve))
      ensures forall k :: 0 <= k < |slotGroup.slots| && k != j ==> slotGroup.slots[k] == old(slotGroup.slots)[k]
      ensures slotGroup.Rows(j) == if j == Preserved(preserve) then old(slotGroup.Rows(j))
                                   else Scatter(old(slotGroup.Rows(j)), index, Repeat(slotGroup.slots[j].init, count))
    {
      if preserve != "" && LastNamed(slotGroup.slots, preserve) == j {
        return;
      }
      ghost var slots := slotGroup.slots;
      slotGroup.ResetSlotByIndex(j, count, index);
      SameNames(slots, slotGroup.slots, preserve);
    }

    /** What a list of ids of one child holds, said of encoded ids: those of the child itself, and only below 2048. */
    ghost predicate ListsChild(ids: seq<int64>, child: string)
      reads this, idMap
    {
      forall id: int64, d: nat :: d < |children| < 4095 && 0 <= id < ID_SPAN ==>
        (EncodeId(id, d) in ids <==> EncodeId(id, d) in idMap.idsMap && children[d] == child && d < 2048)
    }

    /** The live ids of one child, or all of them, with their indexes. It fails for an unknown child, and when an index
        is lost. */
    method GatherChildIds(child: string) returns (ok: bool, ids: seq<int64>, index: seq<nat>)
      requires Usable()
      ensures ok <==> Valid() && (child == "" || child in children)
      ensures ok ==> Distinct(ids) && |index| == |ids|
      ensures ok ==> Elems(ids) == OwnedBy(idMap.idsMap.Keys, children, child)
      ensures ok ==> forall i :: 0 <= i < |ids| ==> ids[i] in idMap.idsMap && index[i] == idMap.idsMap[ids[i]]
      ensures ok && child == "" ==> Elems(ids) == idMap.idsMap.Keys
      ensures ok && child != "" && ValidChildren(children, true) ==> ListsChild(ids, child)
    {
      ok, ids, index := FindChildIds(child);
      if ok && child != "" && ValidChildren(children, true) {
        forall id: int64, d: nat | d < |children| && 0 <= id < ID_SPAN
          ensures EncodeId(id, d) in ids <==> EncodeId(id, d) in idMap.idsMap && children[d] == child && d < 2048
        {
          OwnedEncoded(idMap.idsMap.Keys, children, child, id, d);
          assert EncodeId(id, d) in ids <==> EncodeId(id, d) in Elems(ids);
        }
      }
    }

    method FindChildIds(child: string) returns (ok: bool, ids: seq<int64>, index: seq<nat>)
      requires Usable()
      ensures ok <==> Valid() && (child == "" || child in children)
      ensures ok ==> Distinct(ids) && |index| == |ids|
      ensures ok ==> Elems(ids) == OwnedBy(idMap.idsMap.Keys, children, child)
      ensures ok ==> forall i :: 0 <= i < |ids| ==> ids[i] in idMap.idsMap && index[i] == idMap.idsMap[ids[i]]
    {
      ids, index := [], [];
      if child != "" && child !in children {
        return false, ids, index;
      }
      var found, allIds, allIndex := idMap.SnapShot();
      if !found {
        return false, ids, index;
      }
      if child == "" {
        return true, allIds, allIndex;
      }
      var childIndex := ChildIndex(children, child);
      for i := 0 to |allIds|
        invariant |index| == |ids| && Distinct(ids)
        invariant forall id :: id in ids <==> id in allIds[..i] && SignedChild(id) == childIndex
        invariant forall k :: 0 <= k < |ids| ==> ids[k] in idMap.idsMap && index[k] == idMap.idsMap[ids[k]]
      {
        assert allIds[i] !in allIds[..i];
        if SignedChild(allIds[i]) == childIndex {
          ids, index := ids + [allIds[i]], index + [allIndex[i]];
        }
      }
      ok := true;
      assert forall id :: id in idMap.idsMap <==> id in allIds[..|allIds|];
    }

    /** Forgets all ids of one child, or of the whole table. */
    method Clear(child: string) returns (ok: bool)
      requires Usable()
      modifies idMap, idMap.allocator, slotGroup
      ensures Usable() && slotGroup.SameSlots() && (Valid() <==> old(Valid()))
      ensures ok <==> old(Valid()) && (child == "" || child in children)
      ensures !ok ==> State() == old(State())
      ensures ok ==> DropStep(old(State()), State(), OwnedBy(old(State()).ids.Keys, children, child), -1)
      ensures ok && child == "" ==> State().ids == map[]
      ensures ok && child != "" && ValidChildren(children, true) ==> ChildCleared(old(State()), State(), children, child)
    {
      ok := ClearOwned(child);
      if ok && child != "" && ValidChildren(children, true) {
        DroppedEncoded(old(State()), State(), children, child);
      }
    }

    method ClearOwned(child: string) returns (ok: bool)
      requires Usable()
      modifies idMap, idMap.allocator, slotGroup
      ensures Usable() && slotGroup.SameSlots() && (Valid() <==> old(Valid()))
      ensures ok <==> old(Valid()) && (child == "" || child in children)
      ensures !ok ==> State() == old(State())
      ensures ok ==> DropStep(old(State()), State(), OwnedBy(old(State()).ids.Keys, children, child), -1)
    {
      var ids, index;
      ok, ids, index := GatherChildIds(child);
      if ok {
        Delete(ids, index, "");
      }
    }
  }

  /** The flagged items, in order. */
  function Selected<T>(items: seq<T>, flags: seq<bool>): (r: seq<T>)
    requires |flags| == |items|
  {
    if items == [] then []
    else
      var n := |items| - 1;
      Selected(items[..n], flags[..n]) + if flags[n] then [items[n]] else []
  }

  /** How many flags are set before position `i`. */
  function Rank(flags: seq<bool>, i: nat): (r: nat)
    requires i <= |flags|
  {
    if i == 0 then 0 else Rank(flags, i - 1) + if flags[i - 1] then 1 else 0
  }

  lemma {:induction false} RankPrefix(flags: seq<bool>, n: nat, i: nat)
    requires i <= n <= |flags|
    ensures Rank(flags[..n], i) == Rank(flags, i)
  {
    if i > 0 {
      RankPrefix(flags, n, i - 1);
    }
  }

  lemma {:induction false} SelectedAt<T>(items: seq<T>, flags: seq<bool>, i: nat)
    requires |flags| == |items| && i < |items| && flags[i]
    ensures |Selected(items, flags)| == Rank(flags, |flags|)
    ensures Rank(flags, i) < |Selected(items, flags)| && Selected(items, flags)[Rank(flags, i)] == items[i]
  {
    var n := |items| - 1;
    SelectedSize(items[..n], flags[..n]);
    RankPrefix(flags, n, n);
    if i < n {
      SelectedAt(items[..n], flags[..n], i);
      RankPrefix(flags, n, i);
    }
  }

  lemma {:induction false} SelectedSize<T>(items: seq<T>, flags: seq<bool>)
    requires |flags| == |items|
    ensures |Selected(items, flags)| == Rank(flags, |flags|)
  {
    if items != [] {
      var n := |items| - 1;
      SelectedSize(items[..n], flags[..n]);
      RankPrefix(flags, n, n);
    }
  }

  lemma {:induction false} SelectedOnly<T>(items: seq<T>, flags: seq<bool>, x: T)
    requires |flags| == |items|
    ensures x in Selected(items, flags) <==> exists i :: 0 <= i < |items| && flags[i] && items[i] == x
  {
    if items != [] {
      var n := |items| - 1;
      SelectedOnly(items[..n], flags[..n], x);
      if x in Selected(items[..n], flags[..n]) {
        var i :| 0 <= i < n && flags[..n][i] && items[..n][i] == x;
        assert flags[i] && items[i] == x;
      }
      if i :| 0 <= i < |items| && flags[i] && items[i] == x {
        assert i < n ==> flags[..n][i] && items[..n][i] == x;
      }
    }
  }

  /** Accepted, and not seen before in the batch. */
  function FirstOnly(ids: seq<int64>, accept: seq<bool>): (r: seq<bool>)
    requires |accept| == |ids|
    ensures |r| == |ids| && forall i :: 0 <= i < |ids| ==> (r[i] <==> accept[i] && ids[i] !in ids[..i])
  {
    seq(|ids|, i requires 0 <= i < |ids| => accept[i] && ids[i] !in ids[..i])
  }

  lemma {:induction false} SelectedDistinct(ids: seq<int64>, flags: seq<bool>)
    requires |flags| == |ids| && forall i :: 0 <= i < |ids| && flags[i] ==> ids[i] !in ids[..i]
    ensures Distinct(Selected(ids, flags))
  {
    if ids != [] {
      var n := |ids| - 1;
      forall i | 0 <= i < n && flags[..n][i]
        ensures ids[..n][i] !in ids[..n][..i]
      {
        assert ids[..n][..i] == ids[..i];
      }
      SelectedDistinct(ids[..n], flags[..n]);
      SelectedOnly(ids[..n], flags[..n], ids[n]);
    }
  }

  method KeepFirst(ids: seq<int64>, accept: array<bool>)
    requires accept.Length == |ids|
    modifies accept
    ensures accept[..] == FirstOnly(ids, old(accept[..]))
  {
    for i := 0 to |ids|
      invariant forall k :: i <= k < |ids| ==> accept[k] == old(accept[k])
      invariant forall k :: 0 <= k < i ==> (accept[k] <==> old(accept[k]) && ids[k] !in ids[..k])
    {
      accept[i] := accept[i] && ids[i] !in ids[..i];
    }
  }

  lemma {:induction false} RankMono(flags: seq<bool>, i: nat, j: nat)
    requires i <= j <= |flags|
    ensures Rank(flags, i) <= Rank(flags, j)
  {
    if i < j {
      RankMono(flags, i, j - 1);
    }
  }

  ghost predicate ScatteredAt(flags: seq<bool>, found: seq<nat>, i: nat, x: int)
    requires i < |flags|
  {
    if flags[i] then Rank(flags, i) < |found| && x == found[Rank(flags, i)] else x == 0
  }

  /** Deals `found` to the flagged positions in order; the others get 0. */
  method MaskedScatter(flags: seq<bool>, found: seq<nat>) returns (index: array<int>)
    requires |found| == Rank(flags, |flags|)
    ensures fresh(index) && index.Length == |flags|
    ensures forall i :: 0 <= i < |flags| ==> ScatteredAt(flags, found, i, index[i])
  {
    index := new int[|flags|];
    var next := 0;
    for i := 0 to |flags|
      invariant next == Rank(flags, i) <= |found|
      invariant forall k :: 0 <= k < i ==> ScatteredAt(flags, found, k, index[k])
    {
      RankMono(flags, i + 1, |flags|);
      index[i] := if flags[i] then found[next] else 0;
      if flags[i] {
        next := next + 1;
      }
      assert ScatteredAt(flags, found, i, index[i]);
    }
  }

  /** The keys a clear of `child` is about: those the signed shift decodes to the child's position. */
  ghost function OwnedBy(keys: set<int64>, children: seq<string>, child: string): set<int64>
    requires child == "" || child in children
  {
    if child == "" then keys else set id | id in keys && SignedChild(id) == ChildIndex(children, child)
  }

  /** In terms of ids and children: clearing finds the ids of the child itself, provided its index is below 2048, and none
      of another child. */
  lemma OwnedEncoded(keys: set<int64>, children: seq<string>, child: string, id: int64, d: nat)
    requires child != "" && child in children && ValidChildren(children, true) && d < |children| && 0 <= id < ID_SPAN
    ensures EncodeId(id, d) in OwnedBy(keys, children, child) <==> EncodeId(id, d) in keys && children[d] == child && d < 2048
  {
    ChildRoundTrip(id, d);
    var c := ChildIndex(children, child);
    assert children[d] == child <==> d == c;
  }

  /** After a clear no id of the child below 2048 is left, and every other id has its rows in every slot. */
  ghost predicate ChildCleared(t: Table, after: Table, children: seq<string>, child: string)
    requires t.Ok() && after.Ok() && |after.rows| == |t.rows|
  {
    forall id: int64, d: nat :: d < |children| < 4095 && 0 <= id < ID_SPAN && EncodeId(id, d) in t.ids ==>
      if children[d] == child && d < 2048 then EncodeId(id, d) !in after.ids
      else EncodeId(id, d) in after.ids && SameRows(t, after, EncodeId(id, d))
  }

  ghost predicate SameRows(t: Table, after: Table, id: int64)
    requires t.Ok() && after.Ok() && |after.rows| == |t.rows| && id in t.ids && id in after.ids
  {
    forall j :: 0 <= j < |t.rows| ==> after.View(j)[id] == t.View(j)[id]
  }

  lemma DroppedEncoded(t: Table, after: Table, children: seq<string>, child: string)
    requires child != "" && child in children && ValidChildren(children, true)
    requires DropStep(t, after, OwnedBy(t.ids.Keys, children, child), -1)
    ensures |after.rows| == |t.rows| && ChildCleared(t, after, children, child)
  {
    forall id: int64, d: nat | d < |children| && 0 <= id < ID_SPAN && EncodeId(id, d) in t.ids
      ensures if children[d] == child && d < 2048 then EncodeId(id, d) !in after.ids
              else EncodeId(id, d) in after.ids && SameRows(t, after, EncodeId(id, d))
    {
      OwnedEncoded(t.ids.Keys, children, child, id, d);
    }
  }

  /** The last slot of the given name, or -1. */
  function LastNamed(slots: seq<Slot>, name: string): (j: int)
    ensures -1 <= j < |slots| && (j >= 0 ==> slots[j].name == name)
    ensures forall k :: j < k < |slots| ==> slots[k].name != name
  {
    if slots == [] then -1
    else if slots[|slots| - 1].name == name then |slots| - 1
    else LastNamed(slots[..|slots| - 1], name)
  }

  lemma {:induction false} SameNames(a: seq<Slot>, b: seq<Slot>, name: string)
    requires |a| == |b| && forall j :: 0 <= j < |a| ==> a[j].name == b[j].name
    ensures LastNamed(a, name) == LastNamed(b, name)
  {
    if a != [] {
      SameNames(a[..|a| - 1], b[..|b| - 1], name);
    }
  }

  lemma ReturnedIndexes(m: map<int64, nat>, ids: seq<int64>, index: seq<nat>)
    requires Injective(m) && Distinct(ids) && |index| == |ids|
    requires forall i :: 0 <= i < |ids| ==> ids[i] in m && index[i] == m[ids[i]]
    ensures Distinct(index) && Elems(index) == Live(m) - Live(m - Elems(ids))
  {
    var after := m - Elems(ids);
    assert forall id :: id in m && id !in ids ==> id in after && after[id] == m[id];
    forall k: nat | k in Live(m)
      ensures k in Live(after) <==> k !in index
    {
      var id :| id in m && m[id] == k;
      if id in ids {
        var i :| 0 <= i < |ids| && ids[i] == id;
        assert index[i] == k;
      }
    }
    forall i | 0 <= i < |index|
      ensures index[i] in Live(m)
    {
      assert m[ids[i]] in Live(m);
    }
  }
}
