/** Embedding rows: every slot keeps its rows in blocks of `blockSize`, all slots grow together. */
module SlotGroups {
  import opened BlockedArray

  /** One embedding vector, or memory that no generator has filled yet. */
  datatype Row = Row(values: seq<real>) | Uninit

  /** One slot with a constant-row generator. */
  datatype Slot = Slot(name: string, dim: nat, init: Row, blocks: seq<seq<Row>>)

  /** A row of `dim` zeros. */
  ghost predicate IsZero(row: Row, dim: nat) {
    row.Row? && |row.values| == dim && forall i :: 0 <= i < dim ==> row.values[i] == 0.0
  }

  function Zeros(dim: nat): (row: Row)
    ensures IsZero(row, dim)
  {
    Row(seq(dim, i => 0.0))
  }

  function Repeat(row: Row, n: nat): (rows: seq<Row>)
    ensures |rows| == n && forall k :: 0 <= k < n ==> rows[k] == row
  {
    seq(n, i => row)
  }

  /** The rows offered for `n` positions; a single offered row serves every position. */
  function Offered(values: seq<Row>, n: nat): (rows: seq<Row>)
    requires |values| == n || |values| == 1
    ensures |rows| == n && forall k :: 0 <= k < n ==> rows[k] == if |values| == 1 then values[0] else values[k]
  {
    if |values| == 1 then Repeat(values[0], n) else values
  }

  function Max(a: nat, b: nat): (m: nat)
    ensures m >= a && m >= b && (m == a || m == b)
  {
    if a < b then b else a
  }

  ghost predicate InRange(index: seq<int>, size: nat) {
    forall i :: 0 <= i < |index| ==> -1 <= index[i] < size
  }

  /** Writing a batch of rows one after another; position -1 is skipped. */
  ghost function Scatter(rows: seq<Row>, index: seq<int>, values: seq<Row>): (r: seq<Row>)
    requires |values| == |index| && InRange(index, |rows|)
    ensures |r| == |rows|
  {
    if index == [] then rows
    else
      var n := |index| - 1;
      var before := Scatter(rows, index[..n], values[..n]);
      if index[n] == -1 then before else before[index[n] := values[n]]
  }

  /** A row keeps the last of the rows written to it, and its old one when there is none. */
  lemma {:induction false} ScatterAt(rows: seq<Row>, index: seq<int>, values: seq<Row>, i: nat, k: nat)
    requires |values| == |index| && InRange(index, |rows|) && k < |rows|
    ensures (forall m :: 0 <= m < |index| ==> index[m] != k) ==> Scatter(rows, index, values)[k] == rows[k]
    ensures i < |index| && index[i] == k && (forall m :: i < m < |index| ==> index[m] != k) ==>
              Scatter(rows, index, values)[k] == values[i]
  {
    if index != [] {
      var n := |index| - 1;
      ScatterAt(rows, index[..n], values[..n], i, k);
    }
  }

  class SlotGroup {
    const blockSize: nat
    var blockNum: nat
    var slots: seq<Slot>

    ghost predicate Valid()
      reads this
    {
      && blockSize > 0
      && forall j :: 0 <= j < |slots| ==> Shaped(slots[j].blocks, blockSize) && |slots[j].blocks| == blockNum
    }

    /** All rows of slot `j`, in index order. */
    ghost function Rows(j: nat): (rows: seq<Row>)
      requires Valid() && j < |slots|
      reads this
      ensures |rows| == blockNum * blockSize
    {
      Flat(slots[j].blocks, blockSize)
    }

    ghost function AllRows(): (rows: seq<seq<Row>>)
      requires Valid()
      reads this
      ensures |rows| == |slots| && forall j :: 0 <= j < |rows| ==> |rows[j]| == blockNum * blockSize
    {
      seq(|slots|, j requires 0 <= j < |slots| && Valid() reads this => Rows(j))
    }

    ghost function Inits(): (inits: seq<Row>)
      reads this
      ensures |inits| == |slots|
    {
      seq(|slots|, j requires 0 <= j < |slots| reads this => slots[j].init)
    }

    /** Same slots, possibly with other rows. */
    twostate predicate SameSlots()
      reads this
    {
      && |slots| == |old(slots)|
      && forall j :: 0 <= j < |slots| ==> slots[j].(blocks := []) == old(slots)[j].(blocks := [])
    }

    constructor (blockSize: nat)
      requires blockSize > 0
      ensures Valid() && slots == [] && blockNum == 0 && this.blockSize == blockSize
    {
      this.blockSize := blockSize;
      slots, blockNum := [], 0;
    }

    /** A slot added before the first block starts without rows, like all others. */
    method AppendSlot(name: string, dim: nat, init: Row)
      requires Valid()
      modifies this`slots
      ensures slots == old(slots) + [Slot(name, dim, init, [])]
      ensures Valid() <==> blockNum == 0
    {
      slots := slots + [Slot(name, dim, init, [])];
      assert slots[|slots| - 1].blocks == [];
    }

    method IncrementBlock()
      requires Valid()
      modifies this
      ensures Valid() && SameSlots() && blockNum == old(blockNum) + 1
      ensures forall j :: 0 <= j < |slots| ==>
                Rows(j) == old(Rows(j)) + Repeat(slots[j].init, blockSize)
    {
      for i := 0 to |slots|
        invariant SameSlots() && blockNum == old(blockNum)
        invariant forall j :: i <= j < |slots| ==> slots[j] == old(slots)[j]
        invariant forall j :: 0 <= j < i ==>
                    slots[j].blocks == old(slots)[j].blocks + [Repeat(slots[j].init, blockSize)]
      {
        var block := Repeat(slots[i].init, blockSize);
        slots := slots[i := slots[i].(blocks := slots[i].blocks + [block])];
      }
      blockNum := blockNum + 1;
      forall j | 0 <= j < |slots|
        ensures Shaped(slots[j].blocks, blockSize)
        ensures Flat(slots[j].blocks, blockSize)
                == Flat(old(slots)[j].blocks, blockSize) + Repeat(slots[j].init, blockSize)
      {
        FlatPush(old(slots)[j].blocks, blockSize, Repeat(slots[j].init, blockSize));
      }
    }

    /** Writes one row of slot `j`. */
    method PutRow(j: nat, dst: nat, emb: Row)
      requires Valid() && j < |slots| && dst < blockNum * blockSize
      modifies this`slots
      ensures Valid() && SameSlots()
      ensures forall i :: 0 <= i < |slots| && i != j ==> slots[i] == old(slots)[i]
      ensures Rows(j) == old(Rows(j))[dst := emb]
    {
      FlatPut(slots[j].blocks, blockSize, dst, emb);
      slots := slots[j := slots[j].(blocks := Put(slots[j].blocks, blockSize, dst, emb))];
    }

    /** Writes one row per position into slot `j`. */
    method IndexInsert(j: nat, index: seq<int>, values: seq<Row>)
      requires Valid() && j < |slots|
      requires |values| == |index| || |values| == 1
      requires InRange(index, blockNum * blockSize)
      modifies this`slots
      ensures Valid() && SameSlots()
      ensures forall i :: 0 <= i < |slots| && i != j ==> slots[i] == old(slots)[i]
      ensures Rows(j) == Scatter(old(Rows(j)), index, Offered(values, |index|))
    {
      ghost var rows, offered := Rows(j), Offered(values, |index|);
      for i := 0 to |index|
        invariant Valid() && SameSlots()
        invariant forall k :: 0 <= k < |slots| && k != j ==> slots[k] == old(slots)[k]
        invariant Rows(j) == Scatter(rows, index[..i], offered[..i])
      {
        var emb, dst := if |values| == 1 then values[0] else values[i], index[i];
        assert index[..i + 1][..i] == index[..i] && offered[..i + 1][..i] == offered[..i];
        if dst >= 0 {
          PutRow(j, dst, emb);
        }
      }
      assert index[..|index|] == index && offered[..|index|] == offered;
    }

    /** Writes the accepted rows only. */
    method IndexInsertMasked(j: nat, index: seq<int>, values: seq<Row>, accept: seq<bool>)
      requires Valid() && j < |slots|
      requires |values| == |index| == |accept|
      requires forall i :: 0 <= i < |index| && accept[i] ==> 0 <= index[i] < blockNum * blockSize
      modifies this`slots
      ensures Valid() && SameSlots()
      ensures forall i :: 0 <= i < |slots| && i != j ==> slots[i] == old(slots)[i]
      ensures Rows(j) == Scatter(old(Rows(j)), Masked(index, accept), values)
    {
      ghost var rows, target := Rows(j), Masked(index, accept);
      for i := 0 to |index|
        invariant Valid() && SameSlots()
        invariant forall k :: 0 <= k < |slots| && k != j ==> slots[k] == old(slots)[k]
        invariant Rows(j) == Scatter(rows, target[..i], values[..i])
      {
        assert target[..i + 1][..i] == target[..i] && values[..i + 1][..i] == values[..i];
        if accept[i] {
          PutRow(j, index[i], values[i]);
        }
      }
      assert target[..|index|] == target && values[..|index|] == values;
    }

    /** Puts the generator's row back at every listed position of slot `j`. */
    method ResetSlotByIndex(j: nat, count: nat, index: seq<int>)
      requires Valid() && j < |slots| && count == |index|
      requires InRange(index, blockNum * blockSize)
      modifies this`slots
      ensures Valid() && SameSlots()
      ensures forall i :: 0 <= i < |slots| && i != j ==> slots[i] == old(slots)[i]
      ensures Rows(j) == Scatter(old(Rows(j)), index, Repeat(slots[j].init, count))
    {
      IndexInsert(j, index, Repeat(slots[j].init, count));
      assert Offered(Repeat(slots[j].init, count), count) == Repeat(slots[j].init, count);
    }

    /** Replaces the generator of slot `j`; rows stay. */
    method SetGenerator(j: nat, init: Row)
      requires Valid() && j < |slots|
      modifies this`slots
      ensures Valid() && |slots| == |old(slots)|
      ensures forall i :: 0 <= i < |slots| ==>
                slots[i] == if i == j then old(slots)[i].(init := init) else old(slots)[i]
    {
      slots := slots[j := slots[j].(init := init)];
    }

    /** Runs the generator of slot `j` over all rows from index `from` on. */
    method FillFrom(j: nat, from: nat)
      requires Valid() && j < |slots| && from <= blockNum * blockSize
      modifies this`slots
      ensures Valid() && SameSlots()
      ensures forall i :: 0 <= i < |slots| && i != j ==> slots[i] == old(slots)[i]
      ensures Rows(j) == old(Rows(j))[..from] + Repeat(slots[j].init, blockNum * blockSize - from)
    {
      var first, start := from / blockSize, from % blockSize;
      ghost var blocks, v := slots[j].blocks, slots[j].init;
      DivInRange(from, blockSize, blockNum);
      for b := first to Max(first, blockNum)
        invariant SameSlots() && Shaped(slots[j].blocks, blockSize) && |slots[j].blocks| == blockNum
        invariant forall i :: 0 <= i < |slots| && i != j ==> slots[i] == old(slots)[i]
        invariant slots[j].init == v
        invariant forall c :: 0 <= c < blockNum ==>
                    slots[j].blocks[c] == if c < b then TailBlock(blocks[c], c, blockSize, from, v) else blocks[c]
      {
        var block := slots[j].blocks[b];
        var init := slots[j].init;
        var filled := if b > first then Repeat(init, blockSize) else block[..start] + Repeat(init, blockSize - start);
        assert filled == TailBlock(blocks[b], b, blockSize, from, v);
        slots := slots[j := slots[j].(blocks := slots[j].blocks[b := filled])];
      }
      FlatTail(blocks, slots[j].blocks, blockSize, from, v);
      assert Repeat(v, blockNum * blockSize - from) == seq(blockNum * blockSize - from, i => v);
    }

    /** What position `i` of a batch reads: the null index reads as zeros. */
    ghost function Read(j: nat, index: seq<int>, i: nat): Row
      requires Valid() && j < |slots| && InRange(index, blockNum * blockSize) && i < |index|
      reads this
    {
      if index[i] == -1 then Zeros(slots[j].dim) else Rows(j)[index[i]]
    }

    /** The first `n` rows read from position `beg` on. */
    ghost predicate Gathered(j: nat, index: seq<int>, beg: nat, n: nat, out: seq<Row>)
      requires Valid() && j < |slots| && InRange(index, blockNum * blockSize) && beg + n <= |index|
      reads this
    {
      n <= |out| && forall k :: 0 <= k < n ==> out[k] == Read(j, index, beg + k)
    }

    /** Copies the rows of positions `beg` to `end` out; with `readonly`, the null index reads as zeros. The zeros go to
        the row of the position itself, not counted from `beg`, so that a read-only range that does not start at 0 is
        right exactly when there is no null index in it. It fails when they would go past the end. */
    method Gather(j: nat, index: seq<int>, beg: nat, end: nat, readonly: bool) returns (ok: bool, out: array<Row>)
      requires Valid() && j < |slots| && beg <= end <= |index|
      requires InRange(index, blockNum * blockSize)
      requires readonly || FirstNull(index, beg, end) == end
      ensures fresh(out) && out.Length == end - beg
      ensures ok && Gathered(j, index, beg, end - beg, out[..]) <==> beg == 0 || FirstNull(index, beg, end) == end
      ensures beg == 0 ==> forall i :: 0 <= i < end && index[i] == -1 ==> IsZero(out[i], slots[j].dim)
    {
      ghost var first := FirstNull(index, beg, end);
      out := new Row[end - beg](i => Uninit);
      for i := beg to end
        invariant beg == 0 || first == end ==> Gathered(j, index, beg, i - beg, out[..])
        invariant beg > 0 && first < end ==> out[first - beg] == Uninit
      {
        ok := GatherOne(j, index, beg, i, readonly, out);
        if !ok {
          return;
        }
      }
      ok := true;
      assert first < end ==> Read(j, index, beg + (first - beg)) == Zeros(slots[j].dim);
    }

    method GatherOne(j: nat, index: seq<int>, beg: nat, i: nat, readonly: bool, out: array<Row>) returns (ok: bool)
      requires Valid() && j < |slots| && beg <= i < |index| && i - beg < out.Length
      requires InRange(index, blockNum * blockSize) && (readonly || index[i] != -1)
      modifies out
      ensures ok <==> index[i] != -1 || i < out.Length
      ensures ok ==> out[..] == old(out[..])[if index[i] == -1 then i else i - beg := Read(j, index, i)]
      ensures !ok ==> out[..] == old(out[..])
    {
      var src := index[i];
      ok := true;
      if readonly && src == -1 {
        if i >= out.Length {
          return false;
        }
        out[i] := Zeros(slots[j].dim);
      } else {
        out[i - beg] := At(slots[j].blocks, blockSize, src);
      }
    }
  }

  /** The first null index from `beg` on, or `end`. */
  ghost function FirstNull(index: seq<int>, beg: nat, end: nat): (i: nat)
    requires beg <= end <= |index|
    ensures beg <= i <= end && (i < end ==> index[i] == -1) && forall k :: beg <= k < i ==> index[k] != -1
    decreases end - beg
  {
    if beg == end || index[beg] == -1 then beg else FirstNull(index, beg + 1, end)
  }

  /** Positions that were not accepted count as skipped. */
  function Masked(index: seq<int>, accept: seq<bool>): (r: seq<int>)
    requires |index| == |accept|
    ensures |r| == |index| && forall i :: 0 <= i < |r| ==> r[i] == if accept[i] then index[i] else -1
  {
    seq(|index|, i requires 0 <= i < |index| => if accept[i] then index[i] else -1)
  }
}
