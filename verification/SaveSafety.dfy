/** What every run of the save protocol keeps: the file map is what the shards' positions say, and what has been
    merged is what has been consumed. */
module SaveSafety {
  import opened Collections
  import opened IndexInfos
  import opened SaveProtocol

  /** Some writer of `p` whose part has been merged holds block `k`. */
  ghost predicate InMerged<K>(p: Share<K>, left: set<nat>, k: K) {
    exists w: nat :: w < p.valid && w < |p.tables| && w !in left && k in p.tables[w]
  }

  /** The rank document of a shard after merging all parts but those in `left`. */
  ghost predicate RankMerged<K(!new)>(p: Share<K>, left: set<nat>, rank: Json<K>) {
    && (rank == Null <==> forall w: nat :: w < p.valid ==> w in left)
    && (rank.Object? ==> forall k :: k in rank.entries <==> InMerged(p, left, k))
  }

  ghost predicate NamesMerged<K>(c: seq<Share<K>>, left: set<nat>, names: map<K, K>) {
    && (forall s: nat :: s < |c| && s !in left ==> c[s].names.Keys <= names.Keys)
    && (forall s: nat, k :: s < |c| && s !in left && k in c[s].names ==> k in names && names[k] == c[s].names[k])
    && (forall k :: k in names ==> exists s: nat :: s < |c| && s !in left && k in c[s].names)
  }

  ghost predicate IndexMerged<K(!new)>(c: seq<Share<K>>, left: set<nat>, index: IndexDoc<K>) {
    && Ok(index)
    && (forall f :: f in index.files <==> FileMerged(c, left, f))
    && (forall k :: k in index.blocks <==> BlockMerged(c, left, k))
    && (forall k, f :: IndexInfos.Names(index, k, f) <==> NameMerged(c, left, k, f))
  }

  ghost predicate FileMerged<K>(c: seq<Share<K>>, left: set<nat>, f: K) {
    exists s: nat :: s < |c| && s !in left && f in c[s].index.files
  }

  ghost predicate BlockMerged<K>(c: seq<Share<K>>, left: set<nat>, k: K) {
    exists s: nat :: s < |c| && s !in left && k in c[s].index.blocks
  }

  ghost predicate NameMerged<K>(c: seq<Share<K>>, left: set<nat>, k: K, f: K) {
    exists s: nat :: s < |c| && s !in left && IndexInfos.Names(c[s].index, k, f)
  }

  /** The document a shard publishes: `null` when it has no blocks. */
  function RankDoc<K>(p: Share<K>): Json<K> {
    if p.valid == 0 then Null else Object(Blocks(p.tables, |p.tables|))
  }

  function Blocks<K>(tables: seq<seq<K>>, n: nat): (es: set<K>)
    requires n <= |tables|
    ensures forall w: nat, k :: w < n && k in tables[w] ==> k in es
    ensures forall k :: k in es ==> exists w: nat :: w < n && k in tables[w]
  {
    if n == 0 then {} else Blocks(tables, n - 1) + Elems(tables[n - 1])
  }

  /** The documents of the shards in `order`, merged in that order. */
  function Folded<K>(c: seq<Share<K>>, order: seq<nat>): Json<K>
    requires forall i :: 0 <= i < |order| ==> order[i] < |c|
  {
    if order == [] then Null
    else MergePatch(Folded(c, order[..|order| - 1]), RankDoc(c[order[|order| - 1]]))
  }

  ghost predicate RanksMerged<K>(c: seq<Share<K>>, left: set<nat>, zero: Shard<K>) {
    && (forall i :: 0 <= i < |zero.arrived| ==> zero.arrived[i] < |c|)
    && Distinct(zero.arrived)
    && (forall s: nat :: s in zero.arrived <==> s < |c| && s !in left)
    && (zero.arrived != [] ==> zero.arrived[0] == 0) && zero.all == Folded(c, zero.arrived)
  }

  /** Shard 0 (at `zero`) consumes a file of shard `s` (at `pc`) only after it is published. */
  predicate EarlyFree<K>(zero: Shard<K>, n: nat, s: nat, pc: nat) {
    && (s !in LeftAt(zero, TAKE_RANKS, n) ==> pc >= TAKE_RANKS)
    && (s !in LeftAt(zero, TAKE_NAMES, n) ==> pc >= WRITE)
    && (s !in LeftAt(zero, TAKE_INDEXES, n) ==> pc >= OPEN_NAMES)
  }

  ghost predicate NotEarly<K>(shards: seq<Shard<K>>)
    requires |shards| > 0
  {
    forall s: nat :: s < |shards| ==> EarlyFree(shards[0], |shards|, s, shards[s].pc)
  }

  ghost predicate ShardsOk<K(!new)>(c: seq<Share<K>>, shards: seq<Shard<K>>)
    requires |c| == |shards|
  {
    forall s: nat :: s < |c| ==>
      ShardOk(c[s], s, shards[s], |c|) && RankMerged(c[s], LeftAt(shards[s], TAKE_PARTS, c[s].valid), shards[s].rank)
  }

  ghost predicate ZeroOk<K(!new)>(c: seq<Share<K>>, zero: Shard<K>) {
    && NamesMerged(c, LeftAt(zero, TAKE_NAMES, |c|), zero.names)
    && IndexMerged(c, LeftAt(zero, TAKE_INDEXES, |c|), zero.index)
    && RanksMerged(c, LeftAt(zero, TAKE_RANKS, |c|), zero)
  }

  ghost predicate Inv<K(!new)>(c: seq<Share<K>>, st: State<K>) {
    && SaversOk(c) && |c| == |st.shards| && ShardsOk(c, st.shards) && NotEarly(st.shards)
    && ZeroOk(c, st.shards[0]) && FilesOk(c, st)
  }

  lemma StartFiles<K(!new)>(c: seq<Share<K>>)
    requires |c| > 0
    ensures FilesOk(c, Start(c)) && NotEarly(Start(c).shards)
  {
  }

  lemma StartShards<K(!new)>(c: seq<Share<K>>)
    requires SaversOk(c)
    ensures ShardsOk(c, Start(c).shards)
  {
    forall s: nat | s < |c|
      ensures RankMerged(c[s], LeftAt(Start(c).shards[s], TAKE_PARTS, c[s].valid), Start(c).shards[s].rank)
      ensures ShardOk(c[s], s, Start(c).shards[s], |c|)
    {
    }
  }

  lemma StartOk<K(!new)>(c: seq<Share<K>>)
    requires SaversOk(c)
    ensures Inv(c, Start(c))
  {
    var st := Start(c);
    StartFiles(c);
    StartShards(c);
    StartZero(c, st.shards[0]);
  }

  lemma StartZero<K(!new)>(c: seq<Share<K>>, zero: Shard<K>)
    requires zero.pc == OPEN_INDEX && zero.arrived == [] && zero.all == Null && zero.names == map[]
    requires zero.index == IndexDoc(map[], map[])
    ensures ZeroOk(c, zero)
  {
    assert forall s: nat :: s < |c| ==> s in UpTo(|c|);
  }

  // ---------------------------------------------------------------------------------------------------------
  // One step keeps the file map right.

  predicate SameWaits<K>(a: Shard<K>, b: Shard<K>, n: nat) {
    LeftAt(a, TAKE_RANKS, n) == LeftAt(b, TAKE_RANKS, n) && LeftAt(a, TAKE_NAMES, n) == LeftAt(b, TAKE_NAMES, n)
    && LeftAt(a, TAKE_INDEXES, n) == LeftAt(b, TAKE_INDEXES, n)
  }

  /** `files` is what is expected of shard `s` once it stands at `sh`. */
  ghost predicate OwnRight<K>(c: seq<Share<K>>, st: State<K>, s: nat, sh: Shard<K>, files: map<File, Content<K>>)
    requires |c| == |st.shards| > 0 && s < |c|
  {
    forall w, kind :: Look(files, File(s, w, kind)) ==
      if Consumed(st.shards[0], |c|, s, kind) then None else Own(c[s], sh, w, kind)
  }

  /** A step that touches only files of its own shard. */
  lemma LocalStep<K(!new)>(c: seq<Share<K>>, st: State<K>, s: nat, sh: Shard<K>, files: map<File, Content<K>>)
    requires |c| == |st.shards| > 0 && s < |c| && FilesOk(c, st)
    requires forall f: File :: f.shard != s ==> Look(files, f) == Look(st.files, f)
    requires OwnRight(c, st, s, sh, files)
    requires s == 0 ==> SameWaits(st.shards[0], sh, |c|)
    ensures FilesOk(c, State(files, st.shards[s := sh]))
  {
    var r := State(files, st.shards[s := sh]);
    forall f
      ensures Look(r.files, f) == Expect(c, r.shards, f)
    {
      assert Look(st.files, f) == Expect(c, st.shards, f);
      if f.shard == s {
        assert f == File(s, f.writer, f.kind);
      }
    }
  }

  predicate Prefix<K>(p: Share<K>) {
    && p.valid <= |p.tables|
    && forall w :: 0 <= w < |p.tables| ==> (p.tables[w] != [] <==> w < p.valid)
  }

  /** A file the step of a shard's program neither opens, fills nor renames. */
  lemma AdvanceElsewhere<K>(c: seq<Share<K>>, st: State<K>, s: nat, w: nat, kind: Kind)
    requires |c| == |st.shards| > 0 && s < |c| && Can(c, st, Advance(s))
    requires ShardOk(c[s], s, st.shards[s], |c|)
    requires w > 0 || (kind != Target(st.shards[s].pc) && kind != Final(st.shards[s].pc))
    ensures Look(Do(c, st, Advance(s)).files, File(s, w, kind)) == Look(st.files, File(s, w, kind))
    ensures Own(c[s], Do(c, st, Advance(s)).shards[s], w, kind) == Own(c[s], st.shards[s], w, kind)
  {
  }

  lemma AdvanceHere<K>(c: seq<Share<K>>, st: State<K>, s: nat, kind: Kind)
    requires |c| == |st.shards| > 0 && s < |c| && Can(c, st, Advance(s))
    requires ShardOk(c[s], s, st.shards[s], |c|) && EarlyFree(st.shards[0], |c|, s, st.shards[s].pc)
    requires kind == Target(st.shards[s].pc) || kind == Final(st.shards[s].pc)
    requires Look(st.files, File(s, 0, kind)) == Expect(c, st.shards, File(s, 0, kind))
    requires Look(st.files, File(s, 0, Target(st.shards[s].pc))) == Expect(c, st.shards, File(s, 0, Target(st.shards[s].pc)))
    ensures Look(Do(c, st, Advance(s)).files, File(s, 0, kind)) ==
            if Consumed(st.shards[0], |c|, s, kind) then None else Own(c[s], Do(c, st, Advance(s)).shards[s], 0, kind)
  {
  }

  lemma AdvanceAt<K>(c: seq<Share<K>>, st: State<K>, s: nat, w: nat, kind: Kind)
    requires |c| == |st.shards| > 0 && s < |c| && Can(c, st, Advance(s))
    requires ShardOk(c[s], s, st.shards[s], |c|) && EarlyFree(st.shards[0], |c|, s, st.shards[s].pc)
    requires Look(st.files, File(s, w, kind)) == Expect(c, st.shards, File(s, w, kind))
    requires Look(st.files, File(s, 0, Target(st.shards[s].pc))) == Expect(c, st.shards, File(s, 0, Target(st.shards[s].pc)))
    ensures Look(Do(c, st, Advance(s)).files, File(s, w, kind)) ==
            if Consumed(st.shards[0], |c|, s, kind) then None else Own(c[s], Do(c, st, Advance(s)).shards[s], w, kind)
  {
    if w > 0 || (kind != Target(st.shards[s].pc) && kind != Final(st.shards[s].pc)) {
      AdvanceElsewhere(c, st, s, w, kind);
    } else {
      AdvanceHere(c, st, s, kind);
    }
  }

  lemma AdvanceFiles<K(!new)>(c: seq<Share<K>>, st: State<K>, s: nat)
    requires |c| == |st.shards| > 0 && s < |c| && Can(c, st, Advance(s)) && FilesOk(c, st)
    requires ShardOk(c[s], s, st.shards[s], |c|) && EarlyFree(st.shards[0], |c|, s, st.shards[s].pc)
    ensures FilesOk(c, Do(c, st, Advance(s)))
  {
    var r := Do(c, st, Advance(s));
    forall w, kind
      ensures Look(r.files, File(s, w, kind)) ==
              if Consumed(st.shards[0], |c|, s, kind) then None else Own(c[s], r.shards[s], w, kind)
    {
      AdvanceAt(c, st, s, w, kind);
    }
    LocalStep(c, st, s, r.shards[s], r.files);
  }

  lemma WriteAt<K>(c: seq<Share<K>>, st: State<K>, s: nat, v: nat, w: nat, kind: Kind)
    requires |c| == |st.shards| > 0 && s < |c| && Can(c, st, Write(s, v))
    requires ShardOk(c[s], s, st.shards[s], |c|) && Prefix(c[s])
    requires Look(st.files, File(s, w, kind)) == Expect(c, st.shards, File(s, w, kind))
    ensures Look(Do(c, st, Write(s, v)).files, File(s, w, kind)) ==
            if Consumed(st.shards[0], |c|, s, kind) then None else Own(c[s], Do(c, st, Write(s, v)).shards[s], w, kind)
  {
  }

  lemma WriteFiles<K(!new)>(c: seq<Share<K>>, st: State<K>, s: nat, v: nat)
    requires |c| == |st.shards| > 0 && s < |c| && Can(c, st, Write(s, v)) && FilesOk(c, st)
    requires ShardOk(c[s], s, st.shards[s], |c|) && Prefix(c[s])
    ensures FilesOk(c, Do(c, st, Write(s, v)))
  {
    var r := Do(c, st, Write(s, v));
    forall w, kind
      ensures Look(r.files, File(s, w, kind)) ==
              if Consumed(st.shards[0], |c|, s, kind) then None else Own(c[s], r.shards[s], w, kind)
    {
      WriteAt(c, st, s, v, w, kind);
    }
    LocalStep(c, st, s, r.shards[s], r.files);
  }

  lemma PublishAt<K>(c: seq<Share<K>>, st: State<K>, s: nat, w: nat, kind: Kind)
    requires |c| == |st.shards| > 0 && s < |c| && Can(c, st, Publish(s))
    requires ShardOk(c[s], s, st.shards[s], |c|) && Prefix(c[s])
    requires Look(st.files, File(s, w, kind)) == Expect(c, st.shards, File(s, w, kind))
    requires var v, tmp := st.shards[s].published, if st.shards[s].half then PartTmp else DataTmp;
             Look(st.files, File(s, v, tmp)) == Expect(c, st.shards, File(s, v, tmp))
    ensures Look(Do(c, st, Publish(s)).files, File(s, w, kind)) ==
            if Consumed(st.shards[0], |c|, s, kind) then None else Own(c[s], Do(c, st, Publish(s)).shards[s], w, kind)
  {
  }

  lemma PublishFiles<K(!new)>(c: seq<Share<K>>, st: State<K>, s: nat)
    requires |c| == |st.shards| > 0 && s < |c| && Can(c, st, Publish(s)) && FilesOk(c, st)
    requires ShardOk(c[s], s, st.shards[s], |c|) && Prefix(c[s])
    ensures FilesOk(c, Do(c, st, Publish(s)))
  {
    var r := Do(c, st, Publish(s));
    forall w, kind
      ensures Look(r.files, File(s, w, kind)) ==
              if Consumed(st.shards[0], |c|, s, kind) then None else Own(c[s], r.shards[s], w, kind)
    {
      PublishAt(c, st, s, w, kind);
    }
    LocalStep(c, st, s, r.shards[s], r.files);
  }

  lemma TakePartAt<K>(c: seq<Share<K>>, st: State<K>, s: nat, i: nat, f: File)
    requires |c| == |st.shards| > 0 && s < |c| && Can(c, st, Take(s, i)) && st.shards[s].pc == TAKE_PARTS
    requires ShardOk(c[s], s, st.shards[s], |c|)
    requires Look(st.files, f) == Expect(c, st.shards, f)
    ensures Look(Do(c, st, Take(s, i)).files, f) == Expect(c, Do(c, st, Take(s, i)).shards, f)
  {
  }

  lemma ConsumedAfter<K>(zero: Shard<K>, n: nat, i: nat, text: Content<K>, s: nat, kind: Kind)
    requires Takes(zero.pc) && zero.pc != TAKE_PARTS && Readable(zero.pc, text)
    ensures Consumed(Merge(zero, i, text), n, s, kind) <==>
            Consumed(zero, n, s, kind) || (kind == Source(zero.pc, 0, i).kind && s == i)
  {
  }

  /** Two standings under which the shard's own files are the same. */
  predicate SameOwn<K>(a: Shard<K>, b: Shard<K>) {
    && a.pc == b.pc && a.writers == b.writers && a.published == b.published && a.half == b.half && a.rank == b.rank
    && (a.pc == TAKE_PARTS ==> a.left == b.left) && (a.pc > OPEN_JSON ==> a.all == b.all)
    && (a.pc > OPEN_FULL_NAMES ==> a.names == b.names) && (a.pc > OPEN_FULL_INDEX ==> a.index == b.index)
  }

  lemma OwnOfSame<K>(p: Share<K>, a: Shard<K>, b: Shard<K>, w: nat, kind: Kind)
    requires SameOwn(a, b)
    ensures Own(p, a, w, kind) == Own(p, b, w, kind)
  {
    assert OwnSingle(p, a, kind) == OwnSingle(p, b, kind);
  }

  lemma OwnAfter<K>(p: Share<K>, zero: Shard<K>, i: nat, text: Content<K>, w: nat, kind: Kind)
    requires Takes(zero.pc) && zero.pc != TAKE_PARTS && Readable(zero.pc, text)
    ensures Own(p, Merge(zero, i, text), w, kind) == Own(p, zero, w, kind)
  {
    OwnOfSame(p, Merge(zero, i, text), zero, w, kind);
  }

  /** Consuming the file of shard `i` makes exactly that file unexpected. */
  lemma TakeExpect<K>(c: seq<Share<K>>, shards: seq<Shard<K>>, i: nat, text: Content<K>, f: File)
    requires |c| == |shards| > 0 && Takes(shards[0].pc) && shards[0].pc != TAKE_PARTS && Readable(shards[0].pc, text)
    ensures Expect(c, shards[0 := Merge(shards[0], i, text)], f) ==
            if f == Source(shards[0].pc, 0, i) then None else Expect(c, shards, f)
  {
    var zero := shards[0];
    ConsumedAfter(zero, |c|, i, text, f.shard, f.kind);
    if f.shard < |c| {
      OwnAfter(c[0], zero, i, text, f.writer, f.kind);
      assert f.writer > 0 && f.kind == Source(zero.pc, 0, i).kind ==>
             Own(c[f.shard], shards[f.shard], f.writer, f.kind) == None;
    }
  }

  lemma TakeShardAt<K>(c: seq<Share<K>>, st: State<K>, i: nat, f: File)
    requires |c| == |st.shards| > 0 && Can(c, st, Take(0, i)) && st.shards[0].pc != TAKE_PARTS
    requires Look(st.files, f) == Expect(c, st.shards, f)
    ensures Look(Do(c, st, Take(0, i)).files, f) == Expect(c, Do(c, st, Take(0, i)).shards, f)
  {
    TakeExpect(c, st.shards, i, st.files[Source(st.shards[0].pc, 0, i)], f);
  }

  lemma TakeFiles<K(!new)>(c: seq<Share<K>>, st: State<K>, s: nat, i: nat)
    requires |c| == |st.shards| > 0 && s < |c| && Can(c, st, Take(s, i)) && FilesOk(c, st)
    requires ShardOk(c[s], s, st.shards[s], |c|) && Prefix(c[s])
    ensures FilesOk(c, Do(c, st, Take(s, i)))
  {
    var r := Do(c, st, Take(s, i));
    forall f
      ensures Look(r.files, f) == Expect(c, r.shards, f)
    {
      if st.shards[s].pc == TAKE_PARTS {
        TakePartAt(c, st, s, i, f);
      } else {
        TakeShardAt(c, st, i, f);
      }
    }
  }

  // ---------------------------------------------------------------------------------------------------------
  // One step keeps what has been merged right.

  /** What a consumable file holds, read off the invariant. */
  lemma SourceText<K(!new)>(c: seq<Share<K>>, st: State<K>, s: nat, i: nat)
    requires |c| == |st.shards| > 0 && s < |c| && FilesOk(c, st) && ShardOk(c[s], s, st.shards[s], |c|)
    requires Takes(st.shards[s].pc) && Source(st.shards[s].pc, s, i) in st.files
    ensures var pc, text := st.shards[s].pc, st.files[Source(st.shards[s].pc, s, i)];
            if pc == TAKE_PARTS then
              i < c[s].valid && i < |c[s].tables| && text == RankText(Object(Elems(c[s].tables[i])))
            else
              i < |c| && (if pc == TAKE_RANKS then st.shards[i].pc >= TAKE_RANKS && text == RankText(st.shards[i].rank)
                          else if pc == TAKE_NAMES then text == NamesText(c[i].names)
                          else text == IndexText(c[i].index))
  {
    var f := Source(st.shards[s].pc, s, i);
    assert Look(st.files, f) == Expect(c, st.shards, f);
  }

  lemma RankStep<K(!new)>(p: Share<K>, left: set<nat>, i: nat, rank: Json<K>)
    requires Prefix(p) && RankMerged(p, left, rank) && i in left && i < p.valid
    ensures RankMerged(p, left - {i}, MergePatch(rank, Object(Elems(p.tables[i]))))
  {
    var r := MergePatch(rank, Object(Elems(p.tables[i])));
    assert i !in left - {i};
    forall k
      ensures k in r.entries <==> InMerged(p, left - {i}, k)
    {
      assert InMerged(p, left - {i}, k) <==> InMerged(p, left, k) || k in p.tables[i] by {
        InMergedStep(p, left, i, k);
      }
      if rank == Null {
        assert !InMerged(p, left, k);
      }
    }
  }

  lemma InMergedStep<K>(p: Share<K>, left: set<nat>, i: nat, k: K)
    requires i < p.valid <= |p.tables|
    ensures InMerged(p, left - {i}, k) <==> InMerged(p, left, k) || k in p.tables[i]
  {
    if k in p.tables[i] {
      assert i !in left - {i};
    }
  }

  lemma NamesStep<K(!new)>(c: seq<Share<K>>, left: set<nat>, i: nat, names: map<K, K>)
    requires SharesApart(c) && NamesMerged(c, left, names) && i in left && i < |c|
    ensures NamesMerged(c, left - {i}, names + c[i].names)
  {
    var r := names + c[i].names;
    forall s: nat, k | s < |c| && s !in left - {i} && k in c[s].names
      ensures k in r && r[k] == c[s].names[k]
    {
      if s != i {
        assert c[s].names.Keys !! c[i].names.Keys;
        assert k !in c[i].names.Keys;
      }
    }
    forall k | k in r
      ensures exists s: nat :: s < |c| && s !in left - {i} && k in c[s].names
    {
      if k in c[i].names {
        assert i !in left - {i};
      } else {
        var s: nat :| s < |c| && s !in left && k in c[s].names;
        assert s !in left - {i};
      }
    }
  }

  lemma NotYetMerged<K(!new)>(c: seq<Share<K>>, left: set<nat>, i: nat, index: IndexDoc<K>)
    requires SharesApart(c) && i in left && i < |c| && IndexMerged(c, left, index)
    ensures Disjoint(index.files, c[i].index.files) && Disjoint(index.blocks, c[i].index.blocks)
  {
    forall f | f in index.files
      ensures f !in c[i].index.files
    {
      assert FileMerged(c, left, f);
      var s: nat :| s < |c| && s !in left && f in c[s].index.files;
      assert s != i && Disjoint(c[s].index.files, c[i].index.files);
    }
    forall k | k in index.blocks
      ensures k !in c[i].index.blocks
    {
      assert BlockMerged(c, left, k);
      var s: nat :| s < |c| && s !in left && k in c[s].index.blocks;
      assert s != i && Disjoint(c[s].index.blocks, c[i].index.blocks);
    }
  }

  lemma MergedMore<K>(c: seq<Share<K>>, left: set<nat>, i: nat, k: K, f: K)
    requires i in left && i < |c|
    ensures FileMerged(c, left - {i}, f) <==> FileMerged(c, left, f) || f in c[i].index.files
    ensures BlockMerged(c, left - {i}, k) <==> BlockMerged(c, left, k) || k in c[i].index.blocks
    ensures NameMerged(c, left - {i}, k, f) <==> NameMerged(c, left, k, f) || IndexInfos.Names(c[i].index, k, f)
  {
    assert i !in left - {i};
  }

  lemma MergedAt<K(!new)>(c: seq<Share<K>>, left: set<nat>, i: nat, index: IndexDoc<K>, k: K, f: K)
    requires i in left && i < |c| && Ok(index) && Ok(c[i].index) && IndexMerged(c, left, index)
    requires Disjoint(index.files, c[i].index.files) && Disjoint(index.blocks, c[i].index.blocks)
    ensures f in Merged(index, c[i].index).files <==> FileMerged(c, left - {i}, f)
    ensures k in Merged(index, c[i].index).blocks <==> BlockMerged(c, left - {i}, k)
    ensures IndexInfos.Names(Merged(index, c[i].index), k, f) <==> NameMerged(c, left - {i}, k, f)
  {
    MergeNamesAt(index, c[i].index, k, f);
    MergedMore(c, left, i, k, f);
  }

  lemma FilesMerged<K(!new)>(c: seq<Share<K>>, left: set<nat>, i: nat, index: IndexDoc<K>)
    requires i in left && i < |c| && Ok(index) && Ok(c[i].index) && IndexMerged(c, left, index)
    requires Disjoint(index.files, c[i].index.files) && Disjoint(index.blocks, c[i].index.blocks)
    ensures forall f :: f in Merged(index, c[i].index).files <==> FileMerged(c, left - {i}, f)
  {
    forall f
      ensures f in Merged(index, c[i].index).files <==> FileMerged(c, left - {i}, f)
    {
      MergedAt(c, left, i, index, f, f);
    }
  }

  lemma BlocksMerged<K(!new)>(c: seq<Share<K>>, left: set<nat>, i: nat, index: IndexDoc<K>)
    requires i in left && i < |c| && Ok(index) && Ok(c[i].index) && IndexMerged(c, left, index)
    requires Disjoint(index.files, c[i].index.files) && Disjoint(index.blocks, c[i].index.blocks)
    ensures forall k :: k in Merged(index, c[i].index).blocks <==> BlockMerged(c, left - {i}, k)
  {
    forall k
      ensures k in Merged(index, c[i].index).blocks <==> BlockMerged(c, left - {i}, k)
    {
      MergedAt(c, left, i, index, k, k);
    }
  }

  lemma PlacesMerged<K(!new)>(c: seq<Share<K>>, left: set<nat>, i: nat, index: IndexDoc<K>)
    requires i in left && i < |c| && Ok(index) && Ok(c[i].index) && IndexMerged(c, left, index)
    requires Disjoint(index.files, c[i].index.files) && Disjoint(index.blocks, c[i].index.blocks)
    ensures forall k, f :: IndexInfos.Names(Merged(index, c[i].index), k, f) <==> NameMerged(c, left - {i}, k, f)
  {
    forall k, f
      ensures IndexInfos.Names(Merged(index, c[i].index), k, f) <==> NameMerged(c, left - {i}, k, f)
    {
      MergedAt(c, left, i, index, k, f);
    }
  }

  lemma IndexStep<K(!new)>(c: seq<Share<K>>, left: set<nat>, i: nat, index: IndexDoc<K>)
    requires SharesApart(c) && i in left && i < |c| && Ok(c[i].index) && IndexMerged(c, left, index)
    ensures IndexMerged(c, left - {i}, Merged(index, c[i].index))
  {
    NotYetMerged(c, left, i, index);
    MergedOk(index, c[i].index);
    FilesMerged(c, left, i, index);
    BlocksMerged(c, left, i, index);
    PlacesMerged(c, left, i, index);
  }

  /** Once all parts are merged, the document is the shard's own. */
  lemma RankComplete<K(!new)>(p: Share<K>, rank: Json<K>)
    requires Prefix(p) && RankMerged(p, {}, rank)
    ensures rank == RankDoc(p)
  {
    if p.valid > 0 {
      var none: set<nat> := {};
      assert 0 !in none;
      var es := Blocks(p.tables, |p.tables|);
      forall k
        ensures k in rank.entries <==> k in es
      {
        assert k in rank.entries <==> InMerged(p, none, k);
        if k in es {
          var w: nat :| w < |p.tables| && k in p.tables[w];
          assert p.tables[w] != [] && w !in none;
        }
      }
      assert rank.entries == es;
    }
  }

  lemma RanksStep<K>(c: seq<Share<K>>, left: set<nat>, i: nat, zero: Shard<K>, r: Shard<K>)
    requires RanksMerged(c, left, zero) && i in left && i < |c| && (zero.arrived == [] ==> i == 0)
    requires r.arrived == zero.arrived + [i] && r.all == MergePatch(zero.all, RankDoc(c[i]))
    ensures RanksMerged(c, left - {i}, r)
  {
    assert r.arrived[..|r.arrived| - 1] == zero.arrived;
  }

  // ---------------------------------------------------------------------------------------------------------

  lemma ShardsFrame<K(!new)>(c: seq<Share<K>>, shards: seq<Shard<K>>, s: nat, sh: Shard<K>)
    requires |c| == |shards| && s < |c| && ShardsOk(c, shards)
    requires ShardOk(c[s], s, sh, |c|) && RankMerged(c[s], LeftAt(sh, TAKE_PARTS, c[s].valid), sh.rank)
    ensures ShardsOk(c, shards[s := sh])
  {
  }

  lemma EarlyFrame<K(!new)>(shards: seq<Shard<K>>, s: nat, sh: Shard<K>)
    requires s < |shards| && NotEarly(shards) && sh.pc >= shards[s].pc
    requires s == 0 ==> SameWaits(shards[0], sh, |shards|)
    ensures NotEarly(shards[s := sh])
  {
  }

  lemma AdvanceShard<K(!new)>(c: seq<Share<K>>, st: State<K>, s: nat)
    requires |c| == |st.shards| && s < |c| && Can(c, st, Advance(s))
    requires ShardOk(c[s], s, st.shards[s], |c|)
    ensures ShardOk(c[s], s, Do(c, st, Advance(s)).shards[s], |c|)
    ensures SameWaits(st.shards[s], Do(c, st, Advance(s)).shards[s], |c|)
    ensures LeftAt(st.shards[s], TAKE_PARTS, c[s].valid) == LeftAt(Do(c, st, Advance(s)).shards[s], TAKE_PARTS, c[s].valid)
  {
  }

  lemma AdvanceKeeps<K(!new)>(c: seq<Share<K>>, st: State<K>, s: nat)
    requires Inv(c, st) && Can(c, st, Advance(s))
    ensures Inv(c, Do(c, st, Advance(s)))
  {
    var r := Do(c, st, Advance(s));
    AdvanceShard(c, st, s);
    AdvanceFiles(c, st, s);
    ShardsFrame(c, st.shards, s, r.shards[s]);
    EarlyFrame(st.shards, s, r.shards[s]);
  }

  lemma WriteKeeps<K(!new)>(c: seq<Share<K>>, st: State<K>, s: nat, w: nat)
    requires Inv(c, st) && Can(c, st, Write(s, w))
    ensures Inv(c, Do(c, st, Write(s, w)))
  {
    var r := Do(c, st, Write(s, w));
    WriteFiles(c, st, s, w);
    ShardsFrame(c, st.shards, s, r.shards[s]);
    EarlyFrame(st.shards, s, r.shards[s]);
  }

  lemma PublishKeeps<K(!new)>(c: seq<Share<K>>, st: State<K>, s: nat)
    requires Inv(c, st) && Can(c, st, Publish(s))
    ensures Inv(c, Do(c, st, Publish(s)))
  {
    var r := Do(c, st, Publish(s));
    PublishFiles(c, st, s);
    ShardsFrame(c, st.shards, s, r.shards[s]);
    EarlyFrame(st.shards, s, r.shards[s]);
  }

  lemma TakePartKeeps<K(!new)>(c: seq<Share<K>>, st: State<K>, s: nat, i: nat)
    requires Inv(c, st) && Can(c, st, Take(s, i)) && st.shards[s].pc == TAKE_PARTS
    ensures Inv(c, Do(c, st, Take(s, i)))
  {
    var r := Do(c, st, Take(s, i));
    SourceText(c, st, s, i);
    TakeFiles(c, st, s, i);
    RankStep(c[s], st.shards[s].left, i, st.shards[s].rank);
    ShardsFrame(c, st.shards, s, r.shards[s]);
    EarlyFrame(st.shards, s, r.shards[s]);
  }

  lemma TakeShardKeeps<K(!new)>(c: seq<Share<K>>, st: State<K>, s: nat, i: nat)
    requires Inv(c, st) && Can(c, st, Take(s, i)) && st.shards[s].pc != TAKE_PARTS
    ensures Inv(c, Do(c, st, Take(s, i)))
  {
    var zero, r := st.shards[0], Do(c, st, Take(s, i));
    assert s == 0;
    SourceText(c, st, s, i);
    TakeFiles(c, st, s, i);
    TakeEarly(c, st, i);
    if zero.pc == TAKE_RANKS {
      var p := c[i];
      RankComplete(p, st.shards[i].rank);
      RanksStep(c, zero.left, i, zero, r.shards[0]);
    } else if zero.pc == TAKE_NAMES {
      NamesStep(c, zero.left, i, zero.names);
    } else {
      IndexStep(c, zero.left, i, zero.index);
    }
    ShardsFrame(c, st.shards, 0, r.shards[0]);
  }

  lemma TakeEarly<K(!new)>(c: seq<Share<K>>, st: State<K>, i: nat)
    requires |c| == |st.shards| > 0 && FilesOk(c, st) && NotEarly(st.shards) && ShardOk(c[0], 0, st.shards[0], |c|)
    requires Can(c, st, Take(0, i)) && st.shards[0].pc != TAKE_PARTS
    ensures NotEarly(Do(c, st, Take(0, i)).shards)
  {
    var zero := st.shards[0];
    var f := Source(zero.pc, 0, i);
    assert Look(st.files, f) == Expect(c, st.shards, f);
    forall s: nat | s < |c|
      ensures EarlyFree(Merge(zero, i, st.files[f]), |c|, s, st.shards[s].pc)
    {
      assert EarlyFree(zero, |c|, s, st.shards[s].pc);
    }
  }

  /** Every step keeps the invariant. */
  lemma StepKeeps<K(!new)>(c: seq<Share<K>>, st: State<K>, a: Step)
    requires Inv(c, st) && Can(c, st, a)
    ensures Inv(c, Do(c, st, a))
  {
    match a
    case Advance(s) => AdvanceKeeps(c, st, s);
    case Write(s, w) => WriteKeeps(c, st, s, w);
    case Publish(s) => PublishKeeps(c, st, s);
    case Take(s, i) =>
      if st.shards[s].pc == TAKE_PARTS {
        TakePartKeeps(c, st, s, i);
      } else {
        TakeShardKeeps(c, st, s, i);
      }
  }
}
