/** Rows kept in a list of equally sized blocks, addressed by one running index.
    Both the free-index stack of the id allocator and every embedding slot are stored this way:
    entry `k` lives in block `k / bs` at offset `k % bs`. `Flat` is the plain sequence they stand for. */
module BlockedArray {
  ghost predicate Shaped<T>(blocks: seq<seq<T>>, bs: nat) {
    bs > 0 && forall b :: 0 <= b < |blocks| ==> |blocks[b]| == bs
  }

  lemma MulMono(a: nat, b: nat, c: nat)
    requires a <= b
    ensures a * c <= b * c
  {
  }

  lemma DivUnique(q: nat, r: nat, bs: nat)
    requires r < bs
    ensures (q * bs + r) / bs == q && (q * bs + r) % bs == r
  {
    var k := q * bs + r;
    assert k == bs * (k / bs) + k % bs;
    if k / bs < q {
      MulMono(k / bs + 1, q, bs);
      assert false;
    } else if k / bs > q {
      MulMono(q + 1, k / bs, bs);
      assert false;
    }
  }

  lemma DivInRange(k: nat, bs: nat, n: nat)
    requires bs > 0
    ensures k < n * bs <==> k / bs < n
    ensures k == (k / bs) * bs + k % bs
  {
    if k / bs < n {
      MulMono(k / bs + 1, n, bs);
    } else {
      MulMono(n, k / bs, bs);
    }
  }

  function At<T>(blocks: seq<seq<T>>, bs: nat, k: nat): T
    requires Shaped(blocks, bs) && k < |blocks| * bs
  {
    DivInRange(k, bs, |blocks|);
    blocks[k / bs][k % bs]
  }

  function Put<T>(blocks: seq<seq<T>>, bs: nat, k: nat, v: T): (r: seq<seq<T>>)
    requires Shaped(blocks, bs) && k < |blocks| * bs
    ensures Shaped(r, bs) && |r| == |blocks|
  {
    DivInRange(k, bs, |blocks|);
    blocks[k / bs := blocks[k / bs][k % bs := v]]
  }

  ghost function Flat<T>(blocks: seq<seq<T>>, bs: nat): (s: seq<T>)
    requires Shaped(blocks, bs)
    ensures |s| == |blocks| * bs
  {
    seq(|blocks| * bs, k requires 0 <= k < |blocks| * bs => At(blocks, bs, k))
  }

  /** The running sequence is the blocks one after another: entry `o` of block `b` is at `b * bs + o`. */
  lemma FlatAt<T>(blocks: seq<seq<T>>, bs: nat, b: nat, o: nat)
    requires Shaped(blocks, bs) && b < |blocks| && o < bs
    ensures 0 <= b * bs + o < |Flat(blocks, bs)| && Flat(blocks, bs)[b * bs + o] == blocks[b][o]
  {
    MulMono(b + 1, |blocks|, bs);
    DivUnique(b, o, bs);
  }

  lemma DistinctCells(j: nat, k: nat, bs: nat)
    requires bs > 0 && j != k
    ensures j / bs != k / bs || j % bs != k % bs
  {
    DivInRange(j, bs, 0);
    DivInRange(k, bs, 0);
  }

  lemma Inside(k: nat, bs: nat, n: nat)
    requires bs > 0 && k < n * bs
    ensures k / bs < n && k % bs < bs
  {
    DivInRange(k, bs, n);
  }

  lemma AtSame<T>(blocks: seq<seq<T>>, bs: nat, k: nat, v: T)
    requires Shaped(blocks, bs) && k < |blocks| * bs
    ensures At(Put(blocks, bs, k, v), bs, k) == v
  {
    Inside(k, bs, |blocks|);
  }

  lemma AtApart<T>(blocks: seq<seq<T>>, bs: nat, k: nat, v: T, j: nat)
    requires Shaped(blocks, bs) && k < |blocks| * bs && j < |blocks| * bs
    requires k / bs < |blocks| && j / bs < |blocks| && (j / bs != k / bs || j % bs != k % bs)
    ensures At(Put(blocks, bs, k, v), bs, j) == At(blocks, bs, j)
  {
  }

  lemma AtOther<T>(blocks: seq<seq<T>>, bs: nat, k: nat, v: T, j: nat)
    requires Shaped(blocks, bs) && k < |blocks| * bs && j < |blocks| * bs && j != k
    ensures At(Put(blocks, bs, k, v), bs, j) == At(blocks, bs, j)
  {
    Inside(j, bs, |blocks|);
    Inside(k, bs, |blocks|);
    DistinctCells(j, k, bs);
    AtApart(blocks, bs, k, v, j);
  }

  /** Writing one cell of one block changes exactly one entry of the running sequence. */
  lemma FlatPut<T>(blocks: seq<seq<T>>, bs: nat, k: nat, v: T)
    requires Shaped(blocks, bs) && k < |blocks| * bs
    ensures Flat(Put(blocks, bs, k, v), bs) == Flat(blocks, bs)[k := v]
  {
    forall j: nat | j < |blocks| * bs
      ensures At(Put(blocks, bs, k, v), bs, j) == if j == k then v else At(blocks, bs, j)
    {
      if j == k {
        AtSame(blocks, bs, k, v);
      } else {
        AtOther(blocks, bs, k, v, j);
      }
    }
  }

  lemma FlatPush<T>(blocks: seq<seq<T>>, bs: nat, block: seq<T>)
    requires Shaped(blocks, bs) && |block| == bs
    ensures Shaped(blocks + [block], bs)
    ensures Flat(blocks + [block], bs) == Flat(blocks, bs) + block
  {
    var n := |blocks|;
    assert (n + 1) * bs == n * bs + bs;
    forall k: nat | k < (n + 1) * bs
      ensures At(blocks + [block], bs, k) == (Flat(blocks, bs) + block)[k]
    {
      DivInRange(k, bs, n);
      if k >= n * bs {
        DivUnique(n, k - n * bs, bs);
      }
    }
  }

  lemma FlatPop<T>(blocks: seq<seq<T>>, bs: nat)
    requires Shaped(blocks, bs) && |blocks| > 0
    ensures Shaped(blocks[..|blocks| - 1], bs)
    ensures Flat(blocks[..|blocks| - 1], bs) == Flat(blocks, bs)[..(|blocks| - 1) * bs]
  {
    var n := |blocks| - 1;
    assert blocks == blocks[..n] + [blocks[n]];
    FlatPush(blocks[..n], bs, blocks[n]);
  }

  /** Block and offset compare like the running index. */
  lemma DivOrder(k: nat, from: nat, bs: nat)
    requires bs > 0
    ensures k < from <==> k / bs < from / bs || (k / bs == from / bs && k % bs < from % bs)
  {
    DivInRange(k, bs, from / bs);
    DivInRange(from, bs, k / bs);
    if k / bs < from / bs {
      MulMono(k / bs + 1, from / bs, bs);
    } else if k / bs > from / bs {
      MulMono(from / bs + 1, k / bs, bs);
    }
  }

  /** One block when everything from index `from` on is overwritten by `v`. */
  function TailBlock<T>(block: seq<T>, b: nat, bs: nat, from: nat, v: T): (r: seq<T>)
    requires |block| == bs > 0
    ensures |r| == bs
  {
    if b < from / bs then block
    else if b == from / bs then block[..from % bs] + seq(bs - from % bs, i => v)
    else seq(bs, i => v)
  }

  lemma TailAt<T>(block: seq<T>, b: nat, bs: nat, from: nat, v: T, r: nat)
    requires |block| == bs > 0 && r < bs
    ensures TailBlock(block, b, bs, from, v)[r] ==
            if b < from / bs || (b == from / bs && r < from % bs) then block[r] else v
  {
  }

  lemma AtTail<T>(blocks: seq<seq<T>>, after: seq<seq<T>>, bs: nat, from: nat, v: T, k: nat)
    requires Shaped(blocks, bs) && Shaped(after, bs) && |after| == |blocks| && k < |blocks| * bs
    requires forall b :: 0 <= b < |blocks| ==> after[b] == TailBlock(blocks[b], b, bs, from, v)
    ensures At(after, bs, k) == if k < from then At(blocks, bs, k) else v
  {
    DivInRange(k, bs, |blocks|);
    DivOrder(k, from, bs);
    TailAt(blocks[k / bs], k / bs, bs, from, v, k % bs);
  }

  lemma FlatTail<T>(blocks: seq<seq<T>>, after: seq<seq<T>>, bs: nat, from: nat, v: T)
    requires Shaped(blocks, bs) && |after| == |blocks| && from <= |blocks| * bs
    requires forall b :: 0 <= b < |blocks| ==> after[b] == TailBlock(blocks[b], b, bs, from, v)
    ensures Shaped(after, bs)
    ensures Flat(after, bs) == Flat(blocks, bs)[..from] + seq(|blocks| * bs - from, i => v)
  {
    forall k: nat | k < |blocks| * bs
      ensures At(after, bs, k) == if k < from then At(blocks, bs, k) else v
    {
      AtTail(blocks, after, bs, from, v, k);
    }
  }
}
