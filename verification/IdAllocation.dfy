/** Row indexes: fresh ones are counted up in `curSize`, returned ones wait on a LIFO stack that is
    stored in blocks of `freeBlockSize` entries. */
module IdAllocation {
  import opened BlockedArray
  import opened Collections
  import opened Words

  function Max0(x: int): (r: nat)
    ensures r >= x && (r == x || r == 0)
  {
    if x > 0 then x else 0
  }

  /** What a caller of `GenIds` must respect because of the narrowing in the stack-size update. */
  predicate CastFits(free: nat, num: nat) {
    if num <= free then free - num < 0x8000_0000 else (num - free) % 0x1_0000_0000 <= 0x8000_0000
  }

  /** The narrowed update is the intended one exactly when `CastFits` holds. */
  lemma NarrowedUpdateExact(free: nat, num: nat)
    ensures Max0(NarrowToInt(free - num)) == Max0(free - num) <==> CastFits(free, num)
  {
    var y: int := num - free;
    if y > 0 {
      var q, r := y / 0x1_0000_0000, y % 0x1_0000_0000;
      assert y == q * 0x1_0000_0000 + r;
      if r <= 0x8000_0000 {
        assert -y + 0x8000_0000 == -q * 0x1_0000_0000 + (0x8000_0000 - r);
        assert NarrowToInt(-y) == -r;
      } else {
        assert -y + 0x8000_0000 == (-q - 1) * 0x1_0000_0000 + (0x1_8000_0000 - r);
        assert NarrowToInt(-y) == 0x1_0000_0000 - r;
      }
    }
  }

  /** The indexes one draw hands out: the top of the stack first, and only when it runs dry fresh
      indexes, listed from the highest down, in front of it. */
  function Drawn(stack: seq<nat>, cur: nat, num: nat): (out: seq<nat>)
    ensures |out| == num
  {
    if num <= |stack| then stack[|stack| - num..]
    else seq(num - |stack|, i requires 0 <= i < num - |stack| => cur + (num - |stack|) - 1 - i) + stack
  }

  /** Counted from the end of the batch, draws pop the stack and then count up from `cur`. */
  lemma DrawnAt(stack: seq<nat>, cur: nat, num: nat)
    ensures forall i :: 0 <= i < num ==>
              Drawn(stack, cur, num)[i] == if num - i <= |stack| then stack[|stack| - (num - i)] else cur + (num - i) - |stack| - 1
  {
  }

  /** Live indexes and stacked ones are disjoint and together are exactly `[0, cur)`. */
  ghost predicate Partition(live: set<nat>, stack: seq<nat>, cur: nat) {
    && Distinct(stack)
    && (forall x :: x in live ==> x !in stack)
    && (forall x: nat :: x in live || x in stack <==> x < cur)
  }

  /** Live indexes and stacked ones are disjoint and below `cur`; some may be lost. */
  ghost predicate Packed(live: set<nat>, stack: seq<nat>, cur: nat) {
    && Distinct(stack)
    && (forall x :: x in live ==> x !in stack)
    && (forall x: nat :: x in live || x in stack ==> x < cur)
  }

  /** A draw returns distinct indexes that were not live; it loses none and finds none that was lost. */
  lemma DrawKeepsPartition(live: set<nat>, stack: seq<nat>, cur: nat, num: nat)
    requires Packed(live, stack, cur)
    ensures Distinct(Drawn(stack, cur, num))
    ensures forall x :: x in Drawn(stack, cur, num) ==> x !in live
    ensures var all, rest, more := live + Elems(Drawn(stack, cur, num)), stack[..Max0(|stack| - num)], cur + Max0(num - |stack|);
            Packed(all, rest, more) && (Partition(all, rest, more) <==> Partition(live, stack, cur))
  {
    if num <= |stack| {
      var keep := |stack| - num;
      assert stack == stack[..keep] + stack[keep..];
      assert forall x: nat :: x in stack <==> x in stack[..keep] || x in stack[keep..];
      forall x: nat | x in stack[keep..]
        ensures x !in stack[..keep]
      {
        var i :| keep <= i < |stack| && stack[i] == x;
      }
    } else {
      DrawnBeyondStack(stack, cur, num);
    }
  }

  lemma DrawnBeyondStack(stack: seq<nat>, cur: nat, num: nat)
    requires |stack| < num && Distinct(stack) && forall x: nat :: x in stack ==> x < cur
    ensures Distinct(Drawn(stack, cur, num))
    ensures forall x: nat :: x in Drawn(stack, cur, num) <==> cur <= x < cur + num - |stack| || x in stack
  {
    var out, extra := Drawn(stack, cur, num), num - |stack|;
    var counted := out[..extra];
    assert out == counted + stack && forall i :: 0 <= i < extra ==> counted[i] == cur + extra - 1 - i;
    CountedDown(counted, cur);
    FreshAndStacked(counted, stack, cur);
    forall x: nat
      ensures x in out <==> cur <= x < cur + extra || x in stack
    {
      assert x in out <==> x in counted || x in stack;
    }
  }

  lemma CountedDown(counted: seq<nat>, cur: nat)
    requires forall i :: 0 <= i < |counted| ==> counted[i] == cur + |counted| - 1 - i
    ensures Distinct(counted) && forall x: nat :: x in counted <==> cur <= x < cur + |counted|
  {
    forall x: nat | cur <= x < cur + |counted|
      ensures x in counted
    {
      assert counted[cur + |counted| - 1 - x] == x;
    }
  }

  lemma FreshAndStacked(counted: seq<nat>, stack: seq<nat>, cur: nat)
    requires Distinct(counted) && Distinct(stack)
    requires (forall x: nat :: x in counted ==> x >= cur) && forall x: nat :: x in stack ==> x < cur
    ensures Distinct(counted + stack)
  {
    var out := counted + stack;
    forall i, j | 0 <= i < j < |out|
      ensures out[i] != out[j]
    {
      if i < |counted| <= j {
        assert out[i] in counted && out[j] in stack;
      }
    }
  }

  /** Returning indexes keeps the partition exactly when they are distinct and live. */
  lemma FreeKeepsPartition(live: set<nat>, stack: seq<nat>, cur: nat, ids: seq<nat>)
    requires Partition(live, stack, cur)
    ensures Partition(live - Elems(ids), stack + ids, cur)
            <==> Distinct(ids) && forall x :: x in ids ==> x in live
  {
    var after := stack + ids;
    assert forall x :: x in after <==> x in stack || x in ids;
    assert forall i :: 0 <= i < |stack| ==> after[i] == stack[i];
    assert forall i :: 0 <= i < |ids| ==> after[|stack| + i] == ids[i];
    if Distinct(ids) && forall x :: x in ids ==> x in live {
      forall i, j | 0 <= i < j < |after|
        ensures after[i] != after[j]
      {
        if i < |stack| <= j {
          assert after[i] in stack && after[j] in ids;
        } else if |stack| <= i {
          assert ids[i - |stack|] != ids[j - |stack|];
        }
      }
    }
    if Distinct(after) {
      assert forall k, i :: 0 <= k < |ids| && 0 <= i < |stack| ==> stack[i] != ids[k];
    }
  }

  /** Returning distinct live indexes loses none. */
  lemma FreeKeepsPacked(live: set<nat>, stack: seq<nat>, cur: nat, ids: seq<nat>)
    requires Packed(live, stack, cur) && Distinct(ids) && forall x :: x in ids ==> x in live
    ensures Packed(live - Elems(ids), stack + ids, cur)
    ensures Partition(live - Elems(ids), stack + ids, cur) <==> Partition(live, stack, cur)
  {
    var after := stack + ids;
    assert forall x :: x in after <==> x in stack || x in ids;
    forall i, j | 0 <= i < j < |after|
      ensures after[i] != after[j]
    {
      if i < |stack| <= j {
        assert after[i] in stack && after[j] in ids;
      }
    }
    forall x: nat
      ensures x in live - Elems(ids) || x in after <==> x in live || x in stack
    {
    }
  }

  /** Live and stacked indexes number at most `cur`, and exactly `cur` when none is lost. */
  lemma LiveCount(live: set<nat>, stack: seq<nat>, cur: nat)
    requires Packed(live, stack, cur)
    ensures |live| + |stack| <= cur
    ensures |live| + |stack| == cur <==> Partition(live, stack, cur)
  {
    var all := live + Elems(stack);
    SeqSetSize(stack);
    assert forall x :: x in Elems(stack) <==> x in stack;
    assert live !! Elems(stack);
    assert |all| == |live| + |Elems(stack)|;
    SubrangeSize(all, cur);
    if |all| == cur {
      UpToSize(cur);
      SameWhenFull(all, UpTo(cur));
    }
    if Partition(live, stack, cur) {
      RangeSize(all, cur);
    }
  }

  /** The CPU kernel that fills a batch of drawn indexes. */
  method GenerateIds(genNum: nat, freeBlocks: seq<seq<nat>>, freeCount: nat, curCount: nat, freeBlockSize: nat)
    returns (out: array<nat>)
    requires Shaped(freeBlocks, freeBlockSize) && freeCount <= |freeBlocks| * freeBlockSize
    ensures fresh(out)
    ensures out[..] == Drawn(Flat(freeBlocks, freeBlockSize)[..freeCount], curCount, genNum)
  {
    ghost var stack := Flat(freeBlocks, freeBlockSize)[..freeCount];
    out := new nat[genNum];
    for i := 0 to genNum
      invariant forall k :: 0 <= k < i ==> out[k] == Drawn(stack, curCount, genNum)[k]
    {
      var freeIndex := freeCount - genNum + i;
      if freeIndex >= 0 {
        out[i] := At(freeBlocks, freeBlockSize, freeIndex);
        assert out[i] == stack[freeIndex];
      } else {
        out[i] := curCount - (freeIndex + 1);
      }
    }
  }

  /** The CPU kernel that writes returned indexes above the old top of the stack. */
  method WriteFreed(ids: seq<nat>, freeBlocks: seq<seq<nat>>, freeCount: nat, freeBlockSize: nat)
    returns (blocks: seq<seq<nat>>)
    requires Shaped(freeBlocks, freeBlockSize) && freeCount + |ids| <= |freeBlocks| * freeBlockSize
    ensures Shaped(blocks, freeBlockSize) && |blocks| == |freeBlocks|
    ensures Flat(blocks, freeBlockSize)[..freeCount + |ids|]
            == Flat(freeBlocks, freeBlockSize)[..freeCount] + ids
  {
    blocks := freeBlocks;
    ghost var stack := Flat(freeBlocks, freeBlockSize)[..freeCount];
    for i := 0 to |ids|
      invariant Shaped(blocks, freeBlockSize) && |blocks| == |freeBlocks|
      invariant Flat(blocks, freeBlockSize)[..freeCount + i] == stack + ids[..i]
    {
      FlatPut(blocks, freeBlockSize, freeCount + i, ids[i]);
      ghost var flat := Flat(blocks, freeBlockSize);
      blocks := Put(blocks, freeBlockSize, freeCount + i, ids[i]);
      assert flat[freeCount + i := ids[i]][..freeCount + i + 1] == flat[..freeCount + i] + [ids[i]];
    }
  }

  /** How many blocks a stack of the given size occupies. */
  function BlocksFor(size: nat, blockSize: nat): (n: nat)
    requires blockSize > 0
    ensures n > 0 && (n - 1) * blockSize <= size < n * blockSize
  {
    DivInRange(size, blockSize, size / blockSize + 1);
    size / blockSize + 1
  }

  lemma BlocksForMono(a: nat, b: nat, blockSize: nat)
    requires blockSize > 0 && a <= b
    ensures BlocksFor(a, blockSize) <= BlocksFor(b, blockSize)
  {
    DivInRange(a, blockSize, BlocksFor(b, blockSize));
  }

  class IdAllocator {
    var curSize: nat
    const freeBlockSize: nat
    var freeSize: nat
    var freeBlocks: seq<seq<nat>>

    ghost predicate Valid()
      reads this
    {
      Shaped(freeBlocks, freeBlockSize) && |freeBlocks| == BlocksFor(freeSize, freeBlockSize)
    }

    /** The free stack, bottom first. */
    ghost function Stack(): (s: seq<nat>)
      requires Valid()
      reads this
      ensures |s| == freeSize
    {
      Flat(freeBlocks, freeBlockSize)[..freeSize]
    }

    constructor (initSize: nat, freeBlockSize: nat)
      requires freeBlockSize > 0
      ensures Valid() && curSize == initSize && Stack() == [] && this.freeBlockSize == freeBlockSize
    {
      this.freeBlockSize := freeBlockSize;
      curSize, freeSize, freeBlocks := initSize, 0, [];
      new;
      IncreaseBlock(0);
    }

    method GenIds(num: nat) returns (out: array<nat>)
      requires Valid() && CastFits(freeSize, num)
      modifies this
      ensures Valid() && fresh(out)
      ensures out[..] == Drawn(old(Stack()), old(curSize), num)
      ensures forall i :: 0 <= i < num ==>
                out[i] == if num - i <= old(freeSize) then old(Stack())[old(freeSize) - (num - i)]
                          else old(curSize) + (num - i) - old(freeSize) - 1
      ensures Stack() == old(Stack())[..Max0(old(freeSize) - num)]
      ensures curSize == old(curSize) + Max0(num - old(freeSize))
    {
      DrawnAt(Stack(), curSize, num);
      out := GenerateIds(num, freeBlocks, freeSize, curSize, freeBlockSize);
      NarrowedUpdateExact(freeSize, num);
      var newIdNum := if freeSize >= num then 0 else num - freeSize;
      curSize := curSize + newIdNum;
      freeSize := Max0(NarrowToInt(freeSize - num));
      BlocksForMono(freeSize, old(freeSize), freeBlockSize);
      ReduceBlock();
    }

    method FreeIds(ids: seq<nat>)
      requires Valid()
      modifies this
      ensures Valid() && curSize == old(curSize)
      ensures Stack() == old(Stack()) + ids
    {
      var freeSizeBack := freeSize;
      ghost var flat := Flat(freeBlocks, freeBlockSize);
      IncreaseBlock(|ids|);
      assert Flat(freeBlocks, freeBlockSize)[..freeSizeBack] == flat[..freeSizeBack];
      freeBlocks := WriteFreed(ids, freeBlocks, freeSizeBack, freeBlockSize);
    }

    /** Drops the blocks above the top of the stack. */
    method ReduceBlock()
      requires Shaped(freeBlocks, freeBlockSize) && BlocksFor(freeSize, freeBlockSize) <= |freeBlocks|
      requires freeSize <= |freeBlocks| * freeBlockSize
      modifies this`freeBlocks
      ensures Valid() && Stack() == old(Flat(freeBlocks, freeBlockSize)[..freeSize])
    {
      ghost var stack := Flat(freeBlocks, freeBlockSize)[..freeSize];
      var reduceSize := BlocksFor(freeSize, freeBlockSize);
      var curBlockSize := |freeBlocks|;
      while curBlockSize > reduceSize
        invariant reduceSize <= curBlockSize == |freeBlocks|
        invariant Shaped(freeBlocks, freeBlockSize)
        invariant freeSize <= |freeBlocks| * freeBlockSize
        invariant Flat(freeBlocks, freeBlockSize)[..freeSize] == stack
      {
        MulMono(reduceSize, curBlockSize - 1, freeBlockSize);
        FlatPop(freeBlocks, freeBlockSize);
        freeBlocks := freeBlocks[..curBlockSize - 1];
        curBlockSize := curBlockSize - 1;
      }
    }

    /** Grows the stack by `increaseNum` entries of unspecified content, keeping every old entry. */
    method IncreaseBlock(increaseNum: nat)
      requires freeBlocks == [] || Valid()
      requires freeBlockSize > 0
      modifies this`freeSize, this`freeBlocks
      ensures Valid() && freeSize == old(freeSize) + increaseNum
      ensures old(freeBlocks) == [] || old(Flat(freeBlocks, freeBlockSize)) <= Flat(freeBlocks, freeBlockSize)
    {
      ghost var before := Flat(freeBlocks, freeBlockSize);
      BlocksForMono(freeSize, freeSize + increaseNum, freeBlockSize);
      freeSize := freeSize + increaseNum;
      var incSize := BlocksFor(freeSize, freeBlockSize);
      var curBlockSize := |freeBlocks|;
      while curBlockSize < incSize
        invariant curBlockSize == |freeBlocks| <= incSize == BlocksFor(freeSize, freeBlockSize)
        invariant freeSize == old(freeSize) + increaseNum
        invariant Shaped(freeBlocks, freeBlockSize)
        invariant before <= Flat(freeBlocks, freeBlockSize)
      {
        var block := new nat[freeBlockSize];
        FlatPush(freeBlocks, freeBlockSize, block[..]);
        freeBlocks := freeBlocks + [block[..]];
        curBlockSize := curBlockSize + 1;
      }
    }

    method Clear()
      requires Valid()
      modifies this
      ensures Valid() && curSize == 0 && Stack() == []
    {
      freeSize, curSize := 0, 0;
      freeBlocks := freeBlocks[..1];
      assert 0 / freeBlockSize == 0;
    }
  }
}
