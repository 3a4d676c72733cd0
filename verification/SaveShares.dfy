/** The bundles the savers build are what the protocol asks for: sound on their own and apart from each other. */
module SaveShares {
  import opened Collections
  import opened IndexInfos
  import opened SaveBundles
  import opened SaveProtocol
  import opened SaveRuns

  /** What shard `shard` brings to the protocol once its blocks are added. */
  function ShareOf(b: Bundle, files: seq<string>): Share<string>
    requires |b.tables| == |files|
  {
    Share(b.index, b.tensorNames, seq(|b.tables|, w requires 0 <= w < |b.tables| => Keys(b.tables[w])), files,
          if |b.added| < |files| then |b.added| else |files|)
  }

  lemma {:induction false} KeysOfDealt(blocks: seq<Block>, parallel: nat, w: nat)
    requires parallel > 0
    ensures Keys(Dealt(blocks, parallel, w)) == Dealt(Keys(blocks), parallel, w)
  {
    if blocks != [] {
      var last := |blocks| - 1;
      KeysOfDealt(blocks[..last], parallel, w);
      assert Keys(blocks)[..last] == Keys(blocks[..last]);
      if Turn(last, parallel) == w {
        KeysStep(Dealt(blocks[..last], parallel, w), blocks[last]);
      }
    }
  }

  /** Blocks of one name are dealt to one writer. */
  ghost predicate OneFileEach<K>(keys: seq<K>, files: seq<K>)
    requires |files| > 0
  {
    forall i, j :: 0 <= i < j < |keys| && keys[i] == keys[j] ==> files[Turn(i, |files|)] == files[Turn(j, |files|)]
  }

  /** Item `i` goes by the name `k` and is dealt to the file `f`. */
  ghost predicate DealtTo<K>(keys: seq<K>, files: seq<K>, k: K, f: K, i: nat)
    requires |files| > 0
  {
    i < |keys| && keys[i] == k && files[Turn(i, |files|)] == f
  }

  lemma HeldByDealt<K(!new)>(p: Share<K>, keys: seq<K>, k: K, f: K)
    requires |p.files| == |p.tables| > 0
    requires forall w :: 0 <= w < |p.tables| ==> p.tables[w] == Dealt(keys, |p.tables|, w)
    ensures HeldAt(p, k, f) <==> exists i :: DealtTo(keys, p.files, k, f, i)
  {
    var n := |p.tables|;
    if HeldAt(p, k, f) {
      var w: nat :| w < n && k in p.tables[w] && f == p.files[w];
      DealtAt(keys, n, w, k);
      var i :| 0 <= i < |keys| && Turn(i, n) == w && keys[i] == k;
      assert DealtTo(keys, p.files, k, f, i);
    }
    if i :| DealtTo(keys, p.files, k, f, i) {
      DealtAt(keys, n, Turn(i, n), k);
      assert k in p.tables[Turn(i, n)];
    }
  }

  lemma SentIsDealt<K(!new)>(keys: seq<K>, files: seq<K>, k: K, f: K)
    requires |files| > 0 && OneFileEach(keys, files)
    ensures SentTo(keys, files, k, f) <==> exists i :: DealtTo(keys, files, k, f, i)
  {
    if SentTo(keys, files, k, f) {
      assert DealtTo(keys, files, k, f, LastAt(keys, k));
    }
  }

  lemma DealtTables(b: Bundle, shard: nat, shardNum: nat, files: seq<string>)
    requires BundleOk(b, shard, shardNum, files)
    ensures var p := ShareOf(b, files);
            && (forall w: nat :: w < |files| ==> p.tables[w] == Dealt(Keys(b.stored), |files|, w))
            && (forall w: nat :: w < |files| ==> (p.tables[w] != [] <==> w < p.valid))
  {
    forall w: nat | w < |files|
      ensures ShareOf(b, files).tables[w] == Dealt(Keys(b.stored), |files|, w)
      ensures ShareOf(b, files).tables[w] != [] <==> w < ShareOf(b, files).valid
    {
      KeysOfDealt(b.stored, |files|, w);
      NonEmptyPrefix(Keys(b.stored), |files|, w);
    }
  }

  lemma TwoFiles(p: Share<string>, keys: seq<string>, i: nat, j: nat)
    requires |p.files| == |p.tables| > 0 && i < |keys| && j < |keys| && keys[i] == keys[j]
    requires forall w :: 0 <= w < |p.tables| ==> p.tables[w] == Dealt(keys, |p.tables|, w)
    requires p.files[Turn(i, |p.files|)] != p.files[Turn(j, |p.files|)]
    ensures !ShareOk(p)
  {
    var x, y := p.files[Turn(i, |p.files|)], p.files[Turn(j, |p.files|)];
    assert DealtTo(keys, p.files, keys[i], x, i) && DealtTo(keys, p.files, keys[i], y, j);
    HeldByDealt(p, keys, keys[i], x);
    HeldByDealt(p, keys, keys[i], y);
    if ShareOk(p) {
      NamesOne(p.index, keys[i]);
    }
  }

  lemma NamesAreHeld(p: Share<string>, keys: seq<string>)
    requires |p.files| == |p.tables| > 0 && OneFileEach(keys, p.files)
    requires forall w :: 0 <= w < |p.tables| ==> p.tables[w] == Dealt(keys, |p.tables|, w)
    requires forall k, f :: IndexInfos.Names(p.index, k, f) <==> SentTo(keys, p.files, k, f)
    ensures forall k, f :: IndexInfos.Names(p.index, k, f) <==> HeldAt(p, k, f)
  {
    forall k, f
      ensures IndexInfos.Names(p.index, k, f) <==> HeldAt(p, k, f)
    {
      HeldByDealt(p, keys, k, f);
      SentIsDealt(keys, p.files, k, f);
    }
  }

  lemma OneFileShare(b: Bundle, shard: nat, shardNum: nat, files: seq<string>)
    requires BundleOk(b, shard, shardNum, files) && OneFileEach(Keys(b.stored), files)
    ensures ShareOk(ShareOf(b, files))
  {
    var p, keys := ShareOf(b, files), Keys(b.stored);
    DealtTables(b, shard, shardNum, files);
    assert p.files[..p.valid] == Used(files, |keys|);
    NamesAreHeld(p, keys);
  }

  /** A bundle is a sound share exactly when blocks of one name went to one file: the index knows only the last one. */
  lemma BundleIsShare(b: Bundle, shard: nat, shardNum: nat, files: seq<string>)
    requires BundleOk(b, shard, shardNum, files)
    ensures ShareOk(ShareOf(b, files)) <==> OneFileEach(Keys(b.stored), files)
  {
    var p, keys := ShareOf(b, files), Keys(b.stored);
    if OneFileEach(keys, files) {
      OneFileShare(b, shard, shardNum, files);
    } else {
      DealtTables(b, shard, shardNum, files);
      var i, j :| 0 <= i < j < |keys| && keys[i] == keys[j] && files[Turn(i, |files|)] != files[Turn(j, |files|)];
      TwoFiles(p, keys, i, j);
    }
  }

  /** The bundles of one checkpoint: dense tensors, stored under a blank slice, are saved by shard 0 only. */
  ghost predicate Bundles(bs: seq<Bundle>, parallel: nat) {
    && |bs| > 0 && parallel > 0
    && (forall s :: 0 <= s < |bs| ==> BundleOk(bs[s], s, |bs|, FileNames(s, |bs|, parallel)))
    && forall s, i :: 0 <= s < |bs| && 0 <= i < |bs[s].added| && bs[s].added[i].dense ==>
         s == 0 && bs[s].added[i].slice == " "
  }

  /** And blocks that one shard stores under one name go to one file. */
  ghost predicate Savers(bs: seq<Bundle>, parallel: nat) {
    && Bundles(bs, parallel)
    && forall s :: 0 <= s < |bs| ==> OneFileEach(Keys(bs[s].stored), FileNames(s, |bs|, parallel))
  }

  function Shares(bs: seq<Bundle>, parallel: nat): (c: seq<Share<string>>)
    requires forall s :: 0 <= s < |bs| ==> |bs[s].tables| == parallel
    ensures |c| == |bs| && forall s :: 0 <= s < |c| ==> c[s] == ShareOf(bs[s], FileNames(s, |bs|, parallel))
  {
    seq(|bs|, s requires 0 <= s < |bs| => ShareOf(bs[s], FileNames(s, |bs|, parallel)))
  }

  lemma {:induction false} NamedByTable(added: seq<Block>, shard: nat, shardNum: nat, k: string)
    requires k in TensorNames(added, shard, shardNum)
    ensures exists i :: 0 <= i < |added| && !added[i].dense && Key(Stored(added[i], shard, shardNum)) == k
  {
    var last := |added| - 1;
    var b := added[last];
    if k in TensorNames(added[..last], shard, shardNum) {
      NamedByTable(added[..last], shard, shardNum, k);
      var i :| 0 <= i < last && !added[..last][i].dense && Key(Stored(added[..last][i], shard, shardNum)) == k;
      assert added[i] == added[..last][i];
    } else {
      assert Stored(b, shard, shardNum).name == k && !b.dense;
      assert Key(Stored(b, shard, shardNum)) == k + "" + "";
      assert k + "" == k;
    }
  }

  lemma IndexedKey(b: Bundle, shard: nat, shardNum: nat, files: seq<string>, k: string) returns (i: nat)
    requires BundleOk(b, shard, shardNum, files) && k in b.index.blocks
    ensures i < |b.added| && Key(Stored(b.added[i], shard, shardNum)) == k
  {
    i := LastAt(Keys(b.stored), k);
  }

  lemma BlocksDiffer(bs: seq<Bundle>, parallel: nat, s: nat, t: nat, k: string)
    requires Savers(bs, parallel) && s < |bs| && t < |bs| && s != t && k in bs[s].index.blocks
    ensures k !in bs[t].index.blocks
  {
    if k in bs[t].index.blocks {
      var i := IndexedKey(bs[s], s, |bs|, FileNames(s, |bs|, parallel), k);
      var j := IndexedKey(bs[t], t, |bs|, FileNames(t, |bs|, parallel), k);
      Differ(bs, parallel, s, i, t, j);
    }
  }

  lemma Differ(bs: seq<Bundle>, parallel: nat, s: nat, i: nat, t: nat, j: nat)
    requires Savers(bs, parallel) && s < |bs| && t < |bs| && s != t && i < |bs[s].added| && j < |bs[t].added|
    ensures Key(Stored(bs[s].added[i], s, |bs|)) != Key(Stored(bs[t].added[j], t, |bs|))
  {
    if s != 0 {
      KeysApart(bs[s].added[i], s, bs[t].added[j], t, |bs|);
    } else {
      KeysApart(bs[t].added[j], t, bs[s].added[i], s, |bs|);
    }
  }

  lemma NamesDiffer(bs: seq<Bundle>, parallel: nat, s: nat, t: nat, k: string)
    requires Savers(bs, parallel) && s < |bs| && t < |bs| && s != t && k in bs[s].tensorNames
    ensures k !in bs[t].tensorNames
  {
    if k in bs[t].tensorNames {
      NamedByTable(bs[s].added, s, |bs|, k);
      NamedByTable(bs[t].added, t, |bs|, k);
      var i :| 0 <= i < |bs[s].added| && !bs[s].added[i].dense && Key(Stored(bs[s].added[i], s, |bs|)) == k;
      var j :| 0 <= j < |bs[t].added| && !bs[t].added[j].dense && Key(Stored(bs[t].added[j], t, |bs|)) == k;
      Differ(bs, parallel, s, i, t, j);
    }
  }

  lemma UsedFile(b: Bundle, shard: nat, shardNum: nat, files: seq<string>, f: string)
    requires BundleOk(b, shard, shardNum, files) && f in b.index.files
    ensures f in files
  {
    assert f in Used(files, |b.stored|);
  }

  lemma FilesDiffer(bs: seq<Bundle>, parallel: nat, s: nat, t: nat, f: string)
    requires Savers(bs, parallel) && s < |bs| && t < |bs| && s != t && f in bs[s].index.files
    ensures f !in bs[t].index.files
  {
    if f in bs[t].index.files {
      var xs, ys := FileNames(s, |bs|, parallel), FileNames(t, |bs|, parallel);
      UsedFile(bs[s], s, |bs|, xs, f);
      UsedFile(bs[t], t, |bs|, ys, f);
      var i :| 0 <= i < parallel && xs[i] == f;
      var j :| 0 <= j < parallel && ys[j] == f;
      WritersApart(|bs|, parallel, s, i, t, j);
    }
  }

  lemma PairApart(bs: seq<Bundle>, parallel: nat, s: nat, t: nat)
    requires Savers(bs, parallel) && s < |bs| && t < |bs| && s != t
    ensures Disjoint(bs[s].index.files, bs[t].index.files) && Disjoint(bs[s].index.blocks, bs[t].index.blocks)
    ensures bs[s].tensorNames.Keys !! bs[t].tensorNames.Keys
  {
    forall k | k in bs[s].index.blocks
      ensures k !in bs[t].index.blocks
    {
      BlocksDiffer(bs, parallel, s, t, k);
    }
    forall k | k in bs[s].index.files
      ensures k !in bs[t].index.files
    {
      FilesDiffer(bs, parallel, s, t, k);
    }
    forall k | k in bs[s].tensorNames
      ensures k !in bs[t].tensorNames
    {
      NamesDiffer(bs, parallel, s, t, k);
    }
  }

  lemma AllApart(bs: seq<Bundle>, parallel: nat)
    requires Savers(bs, parallel)
    ensures SharesApart(Shares(bs, parallel))
  {
    forall s, t | 0 <= s < |bs| && 0 <= t < |bs| && s != t
      ensures Disjoint(bs[s].index.files, bs[t].index.files) && Disjoint(bs[s].index.blocks, bs[t].index.blocks)
      ensures bs[s].tensorNames.Keys !! bs[t].tensorNames.Keys
    {
      PairApart(bs, parallel, s, t);
    }
  }

  /** Whatever blocks the shards save, the protocol's premises hold: sound shares, no name shared. */
  lemma SaversAreOk(bs: seq<Bundle>, parallel: nat)
    requires Savers(bs, parallel)
    ensures SaversOk(Shares(bs, parallel))
  {
    AllApart(bs, parallel);
    forall s | 0 <= s < |bs|
      ensures ShareOk(Shares(bs, parallel)[s])
    {
      BundleIsShare(bs[s], s, |bs|, FileNames(s, |bs|, parallel));
    }
  }

  /** Whatever the shards save and however their steps interleave: a final index means a whole checkpoint. */
  lemma EveryRunCommits(bs: seq<Bundle>, parallel: nat, run: seq<Step>)
    requires Savers(bs, parallel) && After(Shares(bs, parallel), run).Some?
    requires File(0, 0, FullIndex) in After(Shares(bs, parallel), run).value.files
    ensures Committed(Shares(bs, parallel), After(Shares(bs, parallel), run).value.files)
  {
    SaversAreOk(bs, parallel);
    CommitSafety(Shares(bs, parallel), run);
  }
}
