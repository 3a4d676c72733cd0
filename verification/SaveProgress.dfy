/** No saver waits for a file that never comes, no run goes on forever, and all complete runs leave the same
    checkpoint. */
module SaveProgress {
  import opened Collections
  import opened IndexInfos
  import opened SaveProtocol
  import opened SaveRuns
  import opened SaveSafety

  ghost predicate Finished<K>(st: State<K>) {
    forall s: nat :: s < |st.shards| ==> st.shards[s].pc == Last(s)
  }

  /** Between its merge loops a saver can always go on. */
  lemma GoOn<K(!new)>(c: seq<Share<K>>, st: State<K>, s: nat) returns (a: Step)
    requires |c| == |st.shards| > 0 && s < |c| && FilesOk(c, st)
    requires Prefix(c[s]) && ShardOk(c[s], s, st.shards[s], |c|) && st.shards[s].pc < Last(s)
    requires st.shards[s].pc in {TAKE_RANKS, TAKE_NAMES, TAKE_INDEXES} ==> st.shards[s].left == {}
    ensures Can(c, st, a) && a.s == s
  {
    var sh := st.shards[s];
    a := Advance(s);
    if Renames(sh.pc) {
      assert Look(st.files, File(s, 0, Target(sh.pc))) == Expect(c, st.shards, File(s, 0, Target(sh.pc)));
    } else if sh.pc == WRITE && !WritersDone(c[s], sh) {
      var w: nat :| w < |c[s].tables| && c[s].tables[w] != [] && sh.writers[w] != 4;
      a := Write(s, w);
    } else if sh.pc == PUBLISH && sh.published < c[s].valid {
      a := Publish(s);
      var f := File(s, sh.published, if sh.half then PartTmp else DataTmp);
      assert Look(st.files, f) == Expect(c, st.shards, f);
    } else if sh.pc == TAKE_PARTS && sh.left != {} {
      var i :| i in sh.left;
      a := Take(s, i);
      assert Look(st.files, File(s, i, Part)) == Expect(c, st.shards, File(s, i, Part));
    }
  }

  /** Every file shard 0 waits for is there once the other shards have come to their end. */
  lemma TakeNext<K(!new)>(c: seq<Share<K>>, st: State<K>) returns (a: Step)
    requires |c| == |st.shards| > 0 && FilesOk(c, st) && ShardOk(c[0], 0, st.shards[0], |c|)
    requires st.shards[0].pc in {TAKE_RANKS, TAKE_NAMES, TAKE_INDEXES} && st.shards[0].left != {}
    requires forall s: nat :: s < |c| ==> st.shards[s].pc >= TAKE_RANKS
    requires RanksMerged(c, LeftAt(st.shards[0], TAKE_RANKS, |c|), st.shards[0])
    ensures Can(c, st, a)
  {
    var i :| i in st.shards[0].left && (st.shards[0].pc == TAKE_RANKS && st.shards[0].arrived == [] ==> i == 0);
    var f := Source(st.shards[0].pc, 0, i);
    assert Look(st.files, f) == Expect(c, st.shards, f);
    a := Take(0, i);
  }

  /** A run that has not finished can take another step. */
  lemma Progress<K(!new)>(c: seq<Share<K>>, st: State<K>) returns (a: Step)
    requires Inv(c, st) && !Finished(st)
    ensures Can(c, st, a)
  {
    if s: nat :| 0 < s < |c| && st.shards[s].pc != Last(s) {
      a := GoOn(c, st, s);
    } else if st.shards[0].pc in {TAKE_RANKS, TAKE_NAMES, TAKE_INDEXES} && st.shards[0].left != {} {
      a := TakeNext(c, st);
    } else {
      a := GoOn(c, st, 0);
    }
  }

  // ---------------------------------------------------------------------------------------------------------
  // Every run is bounded.

  function Unwritten<K>(tables: seq<seq<K>>, writers: seq<nat>, n: nat): nat
    requires n <= |tables| && n <= |writers|
  {
    if n == 0 then 0
    else Unwritten(tables, writers, n - 1) + if tables[n - 1] == [] || writers[n - 1] >= 4 then 0 else 4 - writers[n - 1]
  }

  lemma {:induction false} UnwrittenStep<K>(tables: seq<seq<K>>, writers: seq<nat>, n: nat, w: nat)
    requires n <= |tables| && n <= |writers| && w < |writers| && w < |tables| && tables[w] != [] && writers[w] < 4
    ensures Unwritten(tables, writers[w := writers[w] + 1], n) == Unwritten(tables, writers, n) - if w < n then 1 else 0
    ensures Unwritten(tables, writers, n) <= 4 * n
  {
    if n > 0 {
      UnwrittenStep(tables, writers, n - 1, w);
    }
  }

  lemma {:induction false} UnwrittenBound<K>(tables: seq<seq<K>>, writers: seq<nat>, n: nat)
    requires n <= |tables| && n <= |writers|
    ensures Unwritten(tables, writers, n) <= 4 * n
  {
    if n > 0 {
      UnwrittenBound(tables, writers, n - 1);
    }
  }

  /** Steps left inside the stage a shard is in. */
  function Inner<K>(p: Share<K>, sh: Shard<K>): int
    requires |sh.writers| == |p.tables|
  {
    if sh.pc == WRITE then Unwritten(p.tables, sh.writers, |p.tables|)
    else if sh.pc == PUBLISH then 2 * (p.valid - sh.published) - if sh.half then 1 else 0
    else if Takes(sh.pc) then |sh.left|
    else 0
  }

  /** More than any stage can take. */
  function Room<K>(p: Share<K>, n: nat): nat {
    4 * |p.tables| + 2 * p.valid + n + 1
  }

  function Remaining<K>(p: Share<K>, sh: Shard<K>, n: nat): int
    requires |sh.writers| == |p.tables|
  {
    (DONE - sh.pc) * Room(p, n) + Inner(p, sh)
  }

  lemma WaitingSize(pc: nat, valid: nat, n: nat)
    ensures |Waiting(pc, valid, n)| <= valid + n
  {
    UpToSize(valid);
    UpToSize(n);
  }

  lemma NextStage(x: int, room: nat, before: int, after: int)
    requires x > 0 && 0 <= before && after < room
    ensures (x - 1) * room + after < x * room + before
  {
    assert x * room == (x - 1) * room + room;
  }

  lemma AdvanceInner<K>(c: seq<Share<K>>, st: State<K>, s: nat)
    requires |c| == |st.shards| && s < |c| && Can(c, st, Advance(s))
    requires ShardOk(c[s], s, st.shards[s], |c|) && Prefix(c[s])
    ensures 0 <= Inner(c[s], st.shards[s])
    ensures Inner(c[s], Do(c, st, Advance(s)).shards[s]) < Room(c[s], |c|)
  {
    var p, next := c[s], Do(c, st, Advance(s)).shards[s];
    UnwrittenBound(p.tables, next.writers, |p.tables|);
    WaitingSize(next.pc, p.valid, |c|);
  }

  lemma InnerStep<K>(c: seq<Share<K>>, st: State<K>, a: Step)
    requires |c| == |st.shards| && a.s < |c| && Can(c, st, a) && !a.Advance?
    requires ShardOk(c[a.s], a.s, st.shards[a.s], |c|)
    ensures var sh, next := st.shards[a.s], Do(c, st, a).shards[a.s];
            && next.pc == sh.pc && |next.writers| == |sh.writers| && Inner(c[a.s], next) == Inner(c[a.s], sh) - 1
  {
    var p, sh := c[a.s], st.shards[a.s];
    match a
    case Write(s, w) => UnwrittenStep(p.tables, sh.writers, |p.tables|, w);
    case Publish(s) =>
    case Take(s, i) => assert |sh.left - {i}| == |sh.left| - 1;
  }

  /** Every step uses up some of what is left. */
  lemma StepCosts<K>(c: seq<Share<K>>, st: State<K>, a: Step)
    requires |c| == |st.shards| && a.s < |c| && Can(c, st, a)
    requires ShardOk(c[a.s], a.s, st.shards[a.s], |c|) && Prefix(c[a.s])
    ensures var r := Do(c, st, a);
            && |r.shards| == |c| && |r.shards[a.s].writers| == |c[a.s].tables|
            && (forall s :: 0 <= s < |c| && s != a.s ==> r.shards[s] == st.shards[s])
            && Remaining(c[a.s], r.shards[a.s], |c|) < Remaining(c[a.s], st.shards[a.s], |c|)
  {
    var p, sh, next := c[a.s], st.shards[a.s], Do(c, st, a).shards[a.s];
    if a.Advance? {
      AdvanceInner(c, st, a.s);
      NextStage(DONE - sh.pc, Room(p, |c|), Inner(p, sh), Inner(p, next));
    } else {
      InnerStep(c, st, a);
    }
  }

  ghost function Total<K>(c: seq<Share<K>>, shards: seq<Shard<K>>, k: nat): int
    requires k <= |c| == |shards| && forall s :: 0 <= s < |c| ==> |shards[s].writers| == |c[s].tables|
  {
    if k == 0 then 0 else Total(c, shards, k - 1) + Remaining(c[k - 1], shards[k - 1], |c|)
  }

  lemma {:induction false} TotalStep<K>(c: seq<Share<K>>, before: seq<Shard<K>>, after: seq<Shard<K>>, s: nat, k: nat)
    requires k <= |c| == |before| == |after| && s < |c|
    requires forall t :: 0 <= t < |c| ==> |before[t].writers| == |c[t].tables| && |after[t].writers| == |c[t].tables|
    requires forall t :: 0 <= t < |c| && t != s ==> after[t] == before[t]
    ensures Total(c, after, k) - Total(c, before, k) ==
            if s < k then Remaining(c[s], after[s], |c|) - Remaining(c[s], before[s], |c|) else 0
  {
    if k > 0 {
      TotalStep(c, before, after, s, k - 1);
    }
  }

  lemma RemainingPositive<K>(p: Share<K>, s: nat, sh: Shard<K>, n: nat)
    requires ShardOk(p, s, sh, n)
    ensures Remaining(p, sh, n) >= 0
  {
    var x: nat, room := DONE - sh.pc, Room(p, n);
    assert x * room >= 0;
  }

  lemma {:induction false} TotalPositive<K(!new)>(c: seq<Share<K>>, shards: seq<Shard<K>>, k: nat)
    requires k <= |c| == |shards| && ShardsOk(c, shards)
    ensures Total(c, shards, k) >= 0
  {
    if k > 0 {
      TotalPositive(c, shards, k - 1);
      RemainingPositive(c[k - 1], k - 1, shards[k - 1], |c|);
    }
  }

  /** No run is longer than the work there was at the start. */
  lemma {:induction false} RunBound<K(!new)>(c: seq<Share<K>>, run: seq<Step>)
    requires SaversOk(c) && After(c, run).Some?
    ensures Inv(c, Start(c)) && Inv(c, After(c, run).value)
    ensures |run| + Total(c, After(c, run).value.shards, |c|) <= Total(c, Start(c).shards, |c|)
    ensures |run| <= Total(c, Start(c).shards, |c|)
  {
    StartOk(c);
    RunsKeep(c, run);
    if run != [] {
      var init, a := run[..|run| - 1], run[|run| - 1];
      RunBound(c, init);
      var before := After(c, init).value;
      StepCosts(c, before, a);
      TotalStep(c, before.shards, Do(c, before, a).shards, a.s, |c|);
    }
    TotalPositive(c, After(c, run).value.shards, |c|);
  }

  /** Every run can be completed, and only by finitely many steps. */
  lemma {:induction false} Completes<K(!new)>(c: seq<Share<K>>, run: seq<Step>) returns (longer: seq<Step>)
    requires SaversOk(c) && After(c, run).Some?
    ensures run <= longer && After(c, longer).Some? && Finished(After(c, longer).value)
    decreases Total(c, Start(c).shards, |c|) - |run|
  {
    RunBound(c, run);
    var st := After(c, run).value;
    if Finished(st) {
      longer := run;
    } else {
      var a := Progress(c, st);
      assert (run + [a])[..|run|] == run;
      RunBound(c, run + [a]);
      longer := Completes(c, run + [a]);
    }
  }

  // ---------------------------------------------------------------------------------------------------------
  // What a complete run leaves behind.

  /** The files of a complete checkpoint: the merged ones and the data files. */
  predicate Remains<K>(c: seq<Share<K>>, f: File) {
    if f.kind == Data then f.shard < |c| && f.writer < c[f.shard].valid && f.writer < |c[f.shard].tables|
    else f.shard == 0 && f.writer == 0 && f.kind in {FullJson, FullNames, FullIndex}
  }

  function Left<K>(c: seq<Share<K>>, zero: Shard<K>, f: File): Content<K>
    requires f.kind == Data ==> f.shard < |c| && f.writer < |c[f.shard].tables|
  {
    match f.kind
    case Data => TableBytes(c[f.shard].tables[f.writer])
    case FullJson => RankText(zero.all)
    case FullNames => NamesText(zero.names)
    case _ => IndexText(zero.index)
  }

  lemma LeftOwn<K>(c: seq<Share<K>>, shards: seq<Shard<K>>, f: File)
    requires |c| == |shards| > 0 && shards[0].pc == DONE
    requires f.shard < |c| ==> c[f.shard].valid <= |c[f.shard].tables| && shards[f.shard].pc == Last(f.shard)
    ensures Expect(c, shards, f) == if Remains(c, f) then Some(Left(c, shards[0], f)) else None
  {
  }

  lemma LeftBehind<K(!new)>(c: seq<Share<K>>, st: State<K>, f: File)
    requires |c| == |st.shards| > 0 && FilesOk(c, st) && Finished(st) && forall s :: 0 <= s < |c| ==> Prefix(c[s])
    ensures f in st.files <==> Remains(c, f)
    ensures Remains(c, f) ==> st.files[f] == Left(c, st.shards[0], f)
  {
    assert Look(st.files, f) == Expect(c, st.shards, f);
    LeftOwn(c, st.shards, f);
  }

  /** Two directories that hold the same checkpoint. */
  ghost predicate SameCheckpoint<K(!new)>(a: map<File, Content<K>>, b: map<File, Content<K>>)
    requires File(0, 0, FullIndex) in a && a[File(0, 0, FullIndex)].IndexText?
    requires File(0, 0, FullIndex) in b && b[File(0, 0, FullIndex)].IndexText?
  {
    && (forall f :: f in a <==> f in b)
    && (forall f :: f in a && f in b && f.kind in {Data, FullNames} ==> a[f] == b[f])
    && forall k, f :: IndexInfos.Names(a[File(0, 0, FullIndex)].doc, k, f) <==>
                      IndexInfos.Names(b[File(0, 0, FullIndex)].doc, k, f)
  }

  /** Two complete runs leave the same files; their name maps are equal and their indexes send every block to the
      same file, whatever order shard 0 met the others in. */
  lemma OrderFree<K(!new)>(c: seq<Share<K>>, run: seq<Step>, other: seq<Step>)
    requires SaversOk(c) && After(c, run).Some? && After(c, other).Some?
    requires Finished(After(c, run).value) && Finished(After(c, other).value)
    ensures Committed(c, After(c, run).value.files) && Committed(c, After(c, other).value.files)
    ensures SameCheckpoint(After(c, run).value.files, After(c, other).value.files)
  {
    RunsKeep(c, run);
    RunsKeep(c, other);
    SameEnd(c, After(c, run).value, After(c, other).value);
  }

  lemma EndCommitted<K(!new)>(c: seq<Share<K>>, st: State<K>)
    requires Inv(c, st) && Finished(st)
    ensures Committed(c, st.files)
    ensures st.files[File(0, 0, FullIndex)] == IndexText(st.shards[0].index)
    ensures IndexMerged(c, {}, st.shards[0].index) && NamesMerged(c, {}, st.shards[0].names)
    ensures RanksMerged(c, {}, st.shards[0])
  {
    LeftBehind(c, st, File(0, 0, FullIndex));
    CommittedNow(c, st);
  }

  lemma SameEnd<K(!new)>(c: seq<Share<K>>, s: State<K>, t: State<K>)
    requires Inv(c, s) && Finished(s) && Inv(c, t) && Finished(t)
    ensures Committed(c, s.files) && Committed(c, t.files) && SameCheckpoint(s.files, t.files)
  {
    EndCommitted(c, s);
    EndCommitted(c, t);
    SameNames(c, s.shards[0].names, t.shards[0].names);
    SameIndex(c, s.shards[0].index, t.shards[0].index);
    SameFiles(c, s, t);
  }

  lemma SameIndex<K(!new)>(c: seq<Share<K>>, a: IndexDoc<K>, b: IndexDoc<K>)
    requires IndexMerged(c, {}, a) && IndexMerged(c, {}, b)
    ensures forall k, f :: IndexInfos.Names(a, k, f) <==> IndexInfos.Names(b, k, f)
  {
    forall k, f
      ensures IndexInfos.Names(a, k, f) <==> IndexInfos.Names(b, k, f)
    {
      assert IndexInfos.Names(a, k, f) <==> NameMerged(c, {}, k, f);
      assert IndexInfos.Names(b, k, f) <==> NameMerged(c, {}, k, f);
    }
  }

  lemma SameFiles<K(!new)>(c: seq<Share<K>>, s: State<K>, t: State<K>)
    requires |c| == |s.shards| == |t.shards| > 0 && FilesOk(c, s) && FilesOk(c, t) && Finished(s) && Finished(t)
    requires (forall i :: 0 <= i < |c| ==> Prefix(c[i])) && s.shards[0].names == t.shards[0].names
    ensures forall f :: f in s.files <==> f in t.files
    ensures forall f :: f in s.files && f in t.files && f.kind in {Data, FullNames} ==> s.files[f] == t.files[f]
  {
    forall f
      ensures f in s.files <==> f in t.files
      ensures f in s.files && f in t.files && f.kind in {Data, FullNames} ==> s.files[f] == t.files[f]
    {
      LeftBehind(c, s, f);
      LeftBehind(c, t, f);
    }
  }

  lemma SameNames<K(!new)>(c: seq<Share<K>>, a: map<K, K>, b: map<K, K>)
    requires NamesMerged(c, {}, a) && NamesMerged(c, {}, b)
    ensures a == b
  {
    AllNames(c, a);
    AllNames(c, b);
    forall k, v
      ensures Entry(a, k, v) <==> Entry(b, k, v)
    {
    }
    SameEntries(a, b);
  }

  lemma SameEntries<K(!new)>(a: map<K, K>, b: map<K, K>)
    requires forall k, v :: Entry(a, k, v) <==> Entry(b, k, v)
    ensures a == b
  {
    forall k | k in a
      ensures k in b && b[k] == a[k]
    {
      assert Entry(a, k, a[k]);
    }
    forall k | k in b
      ensures k in a
    {
      assert Entry(b, k, b[k]);
    }
  }
}
