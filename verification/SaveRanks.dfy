/** The merged rank document, and what empty shards do to it. An empty shard publishes `null`, and merging `null`
    replaces everything merged before. */
module SaveRanks {
  import opened Collections
  import opened IndexInfos
  import opened SaveProgress
  import opened SaveProtocol
  import opened SaveRuns
  import opened SaveSafety

  function Items<K>(j: Json<K>): set<K> {
    if j.Object? then j.entries else {}
  }

  predicate InRange<K>(c: seq<Share<K>>, order: seq<nat>) {
    forall i :: 0 <= i < |order| ==> order[i] < |c|
  }

  /** No shard after position `i` is empty. */
  ghost predicate NoneEmptyAfter<K>(c: seq<Share<K>>, order: seq<nat>, i: nat)
    requires InRange(c, order)
  {
    forall j :: i < j < |order| ==> c[order[j]].valid > 0
  }

  ghost predicate SurvivesAt<K>(c: seq<Share<K>>, order: seq<nat>, k: K, i: nat)
    requires InRange(c, order)
  {
    i < |order| && k in Items(RankDoc(c[order[i]])) && NoneEmptyAfter(c, order, i)
  }

  ghost predicate Survives<K>(c: seq<Share<K>>, order: seq<nat>, k: K)
    requires InRange(c, order)
  {
    exists i: nat :: SurvivesAt(c, order, k, i)
  }

  lemma SurvivesStep<K>(c: seq<Share<K>>, init: seq<nat>, s: nat, k: K)
    requires InRange(c, init) && s < |c|
    ensures Survives(c, init + [s], k) <==> k in Items(RankDoc(c[s])) || (c[s].valid > 0 && Survives(c, init, k))
  {
    var order, n := init + [s], |init|;
    assert forall i :: 0 <= i < n ==> init[i] == order[i];
    assert SurvivesAt(c, order, k, n) <==> k in Items(RankDoc(c[s]));
    forall i: nat | i < n
      ensures SurvivesAt(c, order, k, i) <==> c[s].valid > 0 && SurvivesAt(c, init, k, i)
    {
      assert NoneEmptyAfter(c, order, i) <==> NoneEmptyAfter(c, init, i) && c[order[n]].valid > 0;
    }
  }

  /** An empty shard's `null` wipes out what came before it, and nothing else is lost. */
  lemma {:induction false} FoldedItems<K(!new)>(c: seq<Share<K>>, order: seq<nat>, k: K)
    requires InRange(c, order)
    ensures k in Items(Folded(c, order)) <==> Survives(c, order, k)
  {
    if order != [] {
      var n := |order| - 1;
      FoldedItems(c, order[..n], k);
      SurvivesStep(c, order[..n], order[n], k);
      assert order[..n] + [order[n]] == order;
    }
  }

  /** The merged document describes every block of every shard in `order`. */
  ghost predicate Whole<K(!new)>(c: seq<Share<K>>, order: seq<nat>, j: Json<K>)
    requires InRange(c, order)
  {
    forall i: nat, k :: i < |order| && k in Items(RankDoc(c[order[i]])) ==> k in Items(j)
  }

  /** Some shard with blocks is met before an empty one. */
  ghost predicate Wiped<K>(c: seq<Share<K>>, order: seq<nat>)
    requires InRange(c, order)
  {
    exists i: nat, j: nat :: i < j < |order| && c[order[i]].valid > 0 && c[order[j]].valid == 0
  }

  lemma InRankDoc<K(!new)>(p: Share<K>, k: K)
    requires ShareOk(p) && k in Items(RankDoc(p))
    ensures k in p.index.blocks
  {
    var w: nat :| w < |p.tables| && k in p.tables[w];
    assert HeldAt(p, k, p.files[w]);
    assert IndexInfos.Names(p.index, k, p.files[w]);
  }

  lemma BlocksApart<K(!new)>(c: seq<Share<K>>, s: nat, t: nat)
    requires SharesApart(c) && s < |c| && t < |c|
    ensures s == t || Disjoint(c[s].index.blocks, c[t].index.blocks)
  {
  }

  lemma OnlyOwner<K(!new)>(c: seq<Share<K>>, s: nat, t: nat, k: K)
    requires SaversOk(c) && s < |c| && t < |c| && k in Items(RankDoc(c[s])) && k in Items(RankDoc(c[t]))
    ensures s == t
  {
    InRankDoc(c[s], k);
    InRankDoc(c[t], k);
    BlocksApart(c, s, t);
  }

  lemma WipedLoses<K(!new)>(c: seq<Share<K>>, order: seq<nat>, i: nat, j: nat)
    requires SaversOk(c) && InRange(c, order) && Distinct(order)
    requires i < j < |order| && c[order[i]].valid > 0 && c[order[j]].valid == 0
    ensures !Whole(c, order, Folded(c, order))
  {
    var p := c[order[i]];
    assert p.tables[0] != [];
    var k := p.tables[0][0];
    assert k in p.tables[0] && k in Items(RankDoc(p));
    FoldedItems(c, order, k);
    forall m: nat
      ensures !SurvivesAt(c, order, k, m)
    {
      if m < |order| && k in Items(RankDoc(c[order[m]])) {
        OnlyOwner(c, order[i], order[m], k);
        assert m == i;
      }
    }
  }

  /** The merged rank document is whole exactly when no empty shard is met after one with blocks. */
  lemma WholeUnlessWiped<K(!new)>(c: seq<Share<K>>, order: seq<nat>)
    requires SaversOk(c) && InRange(c, order) && Distinct(order)
    ensures Whole(c, order, Folded(c, order)) <==> !Wiped(c, order)
  {
    if i: nat, j: nat :| i < j < |order| && c[order[i]].valid > 0 && c[order[j]].valid == 0 {
      WipedLoses(c, order, i, j);
    } else {
      forall i: nat, k | i < |order| && k in Items(RankDoc(c[order[i]]))
        ensures k in Items(Folded(c, order))
      {
        assert c[order[i]].valid > 0;
        assert SurvivesAt(c, order, k, i);
        FoldedItems(c, order, k);
      }
    }
  }

  /** What the merged rank document of a complete run holds: the shards' documents, shard 0's first and the others in
      some order, whole unless an empty shard came after one with blocks. */
  ghost predicate RankResult<K(!new)>(c: seq<Share<K>>, files: map<File, Content<K>>, order: seq<nat>) {
    && InRange(c, order) && Distinct(order) && (forall s: nat :: s < |c| ==> s in order) && |order| > 0 && order[0] == 0
    && File(0, 0, FullJson) in files && files[File(0, 0, FullJson)] == RankText(Folded(c, order))
    && (Whole(c, order, Folded(c, order)) <==> !Wiped(c, order))
  }

  lemma AllArrived<K(!new)>(c: seq<Share<K>>, files: map<File, Content<K>>, zero: Shard<K>)
    requires SaversOk(c) && RanksMerged(c, {}, zero)
    requires File(0, 0, FullJson) in files && files[File(0, 0, FullJson)] == RankText(zero.all)
    ensures RankResult(c, files, zero.arrived)
  {
    var none: set<nat> := {};
    WholeUnlessWiped(c, zero.arrived);
    assert forall s: nat :: s < |c| ==> s !in none;
    assert 0 in zero.arrived;
  }

  lemma AllTaken<K(!new)>(c: seq<Share<K>>, st: State<K>)
    requires Inv(c, st) && Finished(st)
    ensures st.shards[0].pc == DONE && RanksMerged(c, {}, st.shards[0])
  {
    assert LeftAt(st.shards[0], TAKE_RANKS, |c|) == {};
  }

  lemma JsonLeft<K>(c: seq<Share<K>>, st: State<K>)
    requires |c| == |st.shards| > 0 && st.shards[0].pc == DONE
    requires Look(st.files, File(0, 0, FullJson)) == Expect(c, st.shards, File(0, 0, FullJson))
    ensures File(0, 0, FullJson) in st.files && st.files[File(0, 0, FullJson)] == RankText(st.shards[0].all)
  {
  }

  lemma JsonExpected<K(!new)>(c: seq<Share<K>>, st: State<K>)
    requires Inv(c, st)
    ensures |c| == |st.shards| > 0 && Look(st.files, File(0, 0, FullJson)) == Expect(c, st.shards, File(0, 0, FullJson))
  {
  }

  lemma EndRanks<K(!new)>(c: seq<Share<K>>, st: State<K>)
    requires Inv(c, st) && Finished(st)
    ensures RankResult(c, st.files, st.shards[0].arrived)
  {
    AllTaken(c, st);
    JsonExpected(c, st);
    JsonLeft(c, st);
    AllArrived(c, st.files, st.shards[0]);
  }

  lemma RankOutcome<K(!new)>(c: seq<Share<K>>, run: seq<Step>)
    requires SaversOk(c) && After(c, run).Some? && Finished(After(c, run).value)
    ensures exists order :: RankResult(c, After(c, run).value.files, order)
  {
    RunsKeep(c, run);
    EndRanks(c, After(c, run).value);
  }

  // ---------------------------------------------------------------------------------------------------------
  // What a caller can tell beforehand, from which shards have blocks.

  ghost predicate Complete<K>(c: seq<Share<K>>, run: seq<Step>) {
    After(c, run).Some? && Finished(After(c, run).value)
  }

  /** The written rank document describes every block of every shard. */
  ghost predicate JsonWhole<K(!new)>(c: seq<Share<K>>, files: map<File, Content<K>>) {
    && File(0, 0, FullJson) in files && files[File(0, 0, FullJson)].RankText?
    && forall s: nat, k :: s < |c| && k in Items(RankDoc(c[s])) ==> k in Items(files[File(0, 0, FullJson)].json)
  }

  /** A shard with blocks, and an empty one that is not shard 0. */
  ghost predicate Mixed<K>(c: seq<Share<K>>, i: nat, j: nat) {
    i < |c| && 0 < j < |c| && c[i].valid > 0 && c[j].valid == 0
  }

  lemma WholeByOrder<K(!new)>(c: seq<Share<K>>, files: map<File, Content<K>>, order: seq<nat>)
    requires RankResult(c, files, order)
    ensures JsonWhole(c, files) <==> !Wiped(c, order)
  {
    if JsonWhole(c, files) {
      forall i: nat, k | i < |order| && k in Items(RankDoc(c[order[i]]))
        ensures k in Items(Folded(c, order))
      {
        assert order[i] < |c|;
      }
    }
    if Whole(c, order, Folded(c, order)) {
      forall s: nat, k | s < |c| && k in Items(RankDoc(c[s]))
        ensures k in Items(Folded(c, order))
      {
        assert s in order;
        var i: nat :| i < |order| && order[i] == s;
      }
    }
  }

  /** In an order that starts with shard 0, an empty shard can only come after one with blocks if it is another shard. */
  lemma WipedMixed<K>(c: seq<Share<K>>, order: seq<nat>)
    requires InRange(c, order) && Distinct(order) && |order| > 0 && order[0] == 0 && Wiped(c, order)
    ensures exists i, j :: Mixed(c, i, j)
  {
    var i: nat, j: nat :| i < j < |order| && c[order[i]].valid > 0 && c[order[j]].valid == 0;
    assert Mixed(c, order[i], order[j]);
  }

  /** Where shard 0 has blocks, any other shard without blocks wipes them out in every complete run. */
  lemma NeverWhole<K(!new)>(c: seq<Share<K>>, j: nat, run: seq<Step>)
    requires SaversOk(c) && Mixed(c, 0, j) && Complete(c, run)
    ensures !JsonWhole(c, After(c, run).value.files)
  {
    var st := After(c, run).value;
    RunsKeep(c, run);
    EndRanks(c, st);
    var order := st.shards[0].arrived;
    assert j in order;
    var p: nat :| p < |order| && order[p] == j;
    WholeByOrder(c, st.files, order);
  }

  lemma OneMoreStep<K>(c: seq<Share<K>>, run: seq<Step>, a: Step)
    requires After(c, run).Some? && Can(c, After(c, run).value, a)
    ensures After(c, run + [a]) == Some(Do(c, After(c, run).value, a))
  {
    assert (run + [a])[..|run|] == run;
  }

  lemma NextOf<K(!new)>(c: seq<Share<K>>, run: seq<Step>, s: nat) returns (a: Step)
    requires SaversOk(c) && s < |c| && After(c, run).Some?
    requires |After(c, run).value.shards| == |c| && After(c, run).value.shards[s].pc < TAKE_RANKS
    ensures Can(c, After(c, run).value, a) && a.s == s
  {
    RunsKeep(c, run);
    a := GoOn(c, After(c, run).value, s);
  }

  lemma SoloStep<K>(c: seq<Share<K>>, st: State<K>, a: Step)
    requires Can(c, st, a) && st.shards[a.s].pc < TAKE_RANKS
    ensures var before, after := st.shards, Do(c, st, a).shards;
            && |after| == |before| && after[a.s].pc <= TAKE_RANKS && after[a.s].arrived == before[a.s].arrived
            && forall t :: 0 <= t < |c| && t != a.s ==> after[t] == before[t]
  {
  }

  lemma Room<K(!new)>(c: seq<Share<K>>, run: seq<Step>)
    requires SaversOk(c) && After(c, run).Some?
    ensures forall s :: 0 <= s < |c| ==> |Start(c).shards[s].writers| == |c[s].tables|
    ensures |run| <= Total(c, Start(c).shards, |c|)
  {
    RunBound(c, run);
  }

  /** Shard `s` alone, up to where its rank document is out. */
  lemma {:induction false} Solo<K(!new)>(c: seq<Share<K>>, run: seq<Step>, s: nat) returns (longer: seq<Step>)
    requires SaversOk(c) && s < |c| && After(c, run).Some?
    requires |After(c, run).value.shards| == |c| && After(c, run).value.shards[s].pc <= TAKE_RANKS
    ensures After(c, longer).Some? && |After(c, longer).value.shards| == |c|
    ensures var before, after := After(c, run).value.shards, After(c, longer).value.shards;
            && after[s].pc == TAKE_RANKS && after[s].arrived == before[s].arrived
            && forall t :: 0 <= t < |c| && t != s ==> after[t] == before[t]
    decreases Total(c, Start(c).shards, |c|) - |run|
  {
    var st := After(c, run).value;
    if st.shards[s].pc == TAKE_RANKS {
      longer := run;
    } else {
      var a := NextOf(c, run, s);
      OneMoreStep(c, run, a);
      SoloStep(c, st, a);
      Room(c, run + [a]);
      longer := Solo(c, run + [a], s);
    }
  }

  /** A rank document that is out and not yet consumed can be consumed. */
  lemma CanTakeRank<K(!new)>(c: seq<Share<K>>, st: State<K>, i: nat)
    requires |c| == |st.shards| > 0 && i < |c| && FilesOk(c, st)
    requires RanksMerged(c, LeftAt(st.shards[0], TAKE_RANKS, |c|), st.shards[0])
    requires st.shards[0].pc == TAKE_RANKS && st.shards[i].pc >= TAKE_RANKS
    requires i !in st.shards[0].arrived && (st.shards[0].arrived == [] ==> i == 0)
    ensures Can(c, st, Take(0, i))
  {
    var f := File(i, 0, Rank);
    assert i in st.shards[0].left;
    assert Look(st.files, f) == Expect(c, st.shards, f);
  }

  lemma TakeRank<K(!new)>(c: seq<Share<K>>, run: seq<Step>, i: nat) returns (longer: seq<Step>)
    requires SaversOk(c) && After(c, run).Some? && i < |c|
    requires var st := After(c, run).value;
             && |st.shards| == |c| && st.shards[0].pc == TAKE_RANKS && st.shards[i].pc >= TAKE_RANKS
             && i !in st.shards[0].arrived && (st.shards[0].arrived == [] ==> i == 0)
    ensures After(c, longer).Some? && |After(c, longer).value.shards| == |c|
    ensures var before, after := After(c, run).value.shards, After(c, longer).value.shards;
            && after[0].pc == TAKE_RANKS && after[0].arrived == before[0].arrived + [i]
            && forall t :: 0 < t < |c| ==> after[t] == before[t]
  {
    RunsKeep(c, run);
    CanTakeRank(c, After(c, run).value, i);
    OneMoreStep(c, run, Take(0, i));
    longer := run + [Take(0, i)];
  }

  lemma ArrivedStep<K>(c: seq<Share<K>>, st: State<K>, a: Step)
    requires Can(c, st, a) && |c| > 0
    ensures |Do(c, st, a).shards| == |st.shards| && st.shards[0].arrived <= Do(c, st, a).shards[0].arrived
  {
  }

  lemma FrontArrived<K>(c: seq<Share<K>>, front: seq<Step>, a: Step, end: State<K>) returns (mid: State<K>)
    requires |c| > 0 && After(c, front + [a]) == Some(end)
    ensures After(c, front) == Some(mid) && |mid.shards| == |end.shards| == |c|
    ensures mid.shards[0].arrived <= end.shards[0].arrived
  {
    assert (front + [a])[..|front|] == front;
    mid := After(c, front).value;
    ArrivedStep(c, mid, a);
  }

  lemma ShorterPrefix<T>(run: seq<T>, front: seq<T>, a: T)
    requires run <= front + [a] && run != front + [a]
    ensures run <= front
  {
    assert |run| == |front| + 1 ==> run == front + [a];
  }

  lemma PrefixTrans<T>(a: seq<T>, b: seq<T>, c: seq<T>)
    requires a <= b <= c
    ensures a <= c
  {
  }

  lemma {:induction false} ArrivedGrows<K>(c: seq<Share<K>>, run: seq<Step>, longer: seq<Step>, st: State<K>, end: State<K>)
    requires |c| == |st.shards| > 0 && run <= longer && After(c, run) == Some(st) && After(c, longer) == Some(end)
    ensures |end.shards| == |c| && st.shards[0].arrived <= end.shards[0].arrived
  {
    if run != longer {
      var front, a := longer[..|longer| - 1], longer[|longer| - 1];
      assert longer == front + [a];
      var mid := FrontArrived(c, front, a, end);
      ShorterPrefix(run, front, a);
      ArrivedGrows(c, run, front, st, mid);
      PrefixTrans(st.shards[0].arrived, mid.shards[0].arrived, end.shards[0].arrived);
    }
  }

  lemma BothOut<K(!new)>(c: seq<Share<K>>, i: nat) returns (run: seq<Step>)
    requires SaversOk(c) && 0 < i < |c|
    ensures After(c, run).Some?
    ensures var shards := After(c, run).value.shards;
            |shards| == |c| && shards[0].pc == shards[i].pc == TAKE_RANKS && shards[0].arrived == []
  {
    run := Solo(c, [], 0);
    run := Solo(c, run, i);
  }

  /** A complete run in which shard `i` is met before every other shard but 0. */
  lemma MetEarly<K(!new)>(c: seq<Share<K>>, i: nat) returns (run: seq<Step>)
    requires SaversOk(c) && 0 < i < |c|
    ensures Complete(c, run) && |After(c, run).value.shards| == |c| && [0, i] <= After(c, run).value.shards[0].arrived
  {
    var start := BothOut(c, i);
    start := TakeRank(c, start, 0);
    start := TakeRank(c, start, i);
    run := Completes(c, start);
    ArrivedGrows(c, start, run, After(c, start).value, After(c, run).value);
  }

  /** Met right after shard 0, a shard with blocks is met before every empty one. */
  lemma EarlyWipes<K>(c: seq<Share<K>>, order: seq<nat>, i: nat, j: nat)
    requires InRange(c, order) && [0, i] <= order && j in order && Mixed(c, i, j)
    ensures Wiped(c, order)
  {
    assert order[0] == [0, i][0] && order[1] == [0, i][1];
    var p: nat :| p < |order| && order[p] == j;
    assert p > 1;
  }

  lemma SomeRunWipes<K(!new)>(c: seq<Share<K>>, i: nat, j: nat) returns (run: seq<Step>)
    requires SaversOk(c) && Mixed(c, i, j)
    ensures Complete(c, run) && !JsonWhole(c, After(c, run).value.files)
  {
    if i == 0 {
      run := Completes(c, []);
      NeverWhole(c, j, run);
    } else {
      run := MetEarly(c, i);
      RunsKeep(c, run);
      var st := After(c, run).value;
      EndRanks(c, st);
      var order := st.shards[0].arrived;
      EarlyWipes(c, order, i, j);
      WholeByOrder(c, st.files, order);
    }
  }

  /** Every complete run writes a whole rank document exactly when no shard other than 0 is empty, or all are. */
  lemma AlwaysWhole<K(!new)>(c: seq<Share<K>>)
    requires SaversOk(c)
    ensures (forall run :: Complete(c, run) ==> JsonWhole(c, After(c, run).value.files)) <==> !exists i, j :: Mixed(c, i, j)
  {
    if i, j :| Mixed(c, i, j) {
      var run := SomeRunWipes(c, i, j);
    } else {
      forall run | Complete(c, run)
        ensures JsonWhole(c, After(c, run).value.files)
      {
        var st := After(c, run).value;
        RunsKeep(c, run);
        EndRanks(c, st);
        if Wiped(c, st.shards[0].arrived) {
          WipedMixed(c, st.shards[0].arrived);
        }
        WholeByOrder(c, st.files, st.shards[0].arrived);
      }
    }
  }

  /** Two shards, the second without blocks: the save completes and loses what the first one described. */
  lemma EmptySecondShard() returns (c: seq<Share<string>>, run: seq<Step>)
    ensures SaversOk(c) && |c| == 2 && c[0].valid == 1 && c[1].valid == 0
    ensures Complete(c, run) && !JsonWhole(c, After(c, run).value.files)
  {
    var full := Share(IndexDoc(map["file" := 0], map["block" := 0]), map[], [["block"]], ["file"], 1);
    var none := Share(IndexDoc(map[], map[]), map[], [[]], ["other"], 0);
    FullShareOk(full);
    assert ShareOk(none);
    c := [full, none];
    assert Mixed(c, 0, 1);
    run := SomeRunWipes(c, 0, 1);
  }

  lemma FullDocOk(d: IndexDoc<string>)
    requires d == IndexDoc(map["file" := 0], map["block" := 0])
    ensures Ok(d) && forall k, f :: IndexInfos.Names(d, k, f) <==> k == "block" && f == "file"
  {
    assert |d.files| == 1 && d.files["file"] == 0 && Numbered(d.files, 0);
  }

  lemma FullShareOk(p: Share<string>)
    requires p == Share(IndexDoc(map["file" := 0], map["block" := 0]), map[], [["block"]], ["file"], 1)
    ensures ShareOk(p)
  {
    FullDocOk(p.index);
    assert p.files[..p.valid] == ["file"];
    forall k, f
      ensures HeldAt(p, k, f) <==> k == "block" && f == "file"
    {
      assert p.tables[0] == ["block"] && p.files[0] == "file";
    }
  }
}
