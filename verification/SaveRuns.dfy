/** Whole runs of the save protocol: in every interleaving, what holds whenever the final index exists. */
module SaveRuns {
  import opened Collections
  import opened IndexInfos
  import opened SaveProtocol
  import opened SaveSafety

  /** The state after `run`, if every step of it can be taken. */
  function After<K>(c: seq<Share<K>>, run: seq<Step>): Option<State<K>> {
    if run == [] then Some(Start(c))
    else
      var before := After(c, run[..|run| - 1]);
      if before.Some? && Can(c, before.value, run[|run| - 1]) then Some(Do(c, before.value, run[|run| - 1])) else None
  }

  lemma {:induction false} RunsKeep<K(!new)>(c: seq<Share<K>>, run: seq<Step>)
    requires SaversOk(c) && After(c, run).Some?
    ensures Inv(c, After(c, run).value)
  {
    if run == [] {
      StartOk(c);
    } else {
      RunsKeep(c, run[..|run| - 1]);
      StepKeeps(c, After(c, run[..|run| - 1]).value, run[|run| - 1]);
    }
  }

  // ---------------------------------------------------------------------------------------------------------
  // Commit safety.

  /** Every data file of every shard is in place with its blocks. */
  ghost predicate DataInPlace<K>(c: seq<Share<K>>, files: map<File, Content<K>>) {
    forall s: nat, w: nat :: s < |c| && w < c[s].valid && w < |c[s].tables| ==>
      File(s, w, Data) in files && files[File(s, w, Data)] == TableBytes(c[s].tables[w])
  }

  /** Block `k` of some shard is in the data file named `f`, and that file is in place. */
  ghost predicate StoredIn<K>(c: seq<Share<K>>, files: map<File, Content<K>>, k: K, f: K) {
    exists s: nat, w: nat ::
      && s < |c| && w < |c[s].tables| && w < |c[s].files| && c[s].files[w] == f
      && File(s, w, Data) in files && files[File(s, w, Data)].TableBytes? && k in files[File(s, w, Data)].blocks
  }

  /** The index numbers its files without gaps and sends every saved block to the one file that holds it. */
  ghost predicate IndexWhole<K(!new)>(c: seq<Share<K>>, files: map<File, Content<K>>, index: IndexDoc<K>) {
    && Ok(index)
    && (forall k, f :: IndexInfos.Names(index, k, f) <==> StoredIn(c, files, k, f))
    && forall s: nat, w: nat, k :: s < |c| && w < |c[s].tables| && k in c[s].tables[w] ==> k in index.blocks
  }

  ghost predicate NamesWhole<K(!new)>(c: seq<Share<K>>, names: map<K, K>) {
    forall k, v :: Entry(names, k, v) <==> exists s: nat :: s < |c| && Entry(c[s].names, k, v)
  }

  predicate Entry<K(==)>(names: map<K, K>, k: K, v: K) {
    k in names && names[k] == v
  }

  /** The checkpoint can be loaded: index, name map and data files are there, written out and whole. */
  ghost predicate Committed<K(!new)>(c: seq<Share<K>>, files: map<File, Content<K>>) {
    && File(0, 0, FullIndex) in files && files[File(0, 0, FullIndex)].IndexText?
    && File(0, 0, FullNames) in files && files[File(0, 0, FullNames)].NamesText?
    && DataInPlace(c, files)
    && IndexWhole(c, files, files[File(0, 0, FullIndex)].doc)
    && NamesWhole(c, files[File(0, 0, FullNames)].names)
  }

  lemma DataAt<K>(c: seq<Share<K>>, st: State<K>, s: nat, w: nat)
    requires |c| == |st.shards| > 0 && s < |c| && w < c[s].valid <= |c[s].tables| && st.shards[s].pc > PUBLISH
    requires Look(st.files, File(s, w, Data)) == Expect(c, st.shards, File(s, w, Data))
    ensures File(s, w, Data) in st.files && st.files[File(s, w, Data)] == TableBytes(c[s].tables[w])
  {
  }

  /** Data files are never touched again once shard 0 has merged all rank documents. */
  lemma DataStays<K(!new)>(c: seq<Share<K>>, st: State<K>)
    requires |c| == |st.shards| > 0 && FilesOk(c, st) && NotEarly(st.shards) && st.shards[0].pc > TAKE_RANKS
    requires forall s :: 0 <= s < |c| ==> Prefix(c[s])
    ensures DataInPlace(c, st.files)
  {
    forall s: nat, w: nat | s < |c| && w < c[s].valid && w < |c[s].tables|
      ensures File(s, w, Data) in st.files && st.files[File(s, w, Data)] == TableBytes(c[s].tables[w])
    {
      assert EarlyFree(st.shards[0], |c|, s, st.shards[s].pc);
      DataAt(c, st, s, w);
    }
  }

  /** A data file that exists belongs to a writer with blocks and holds them. */
  lemma DataOnly<K>(c: seq<Share<K>>, st: State<K>, s: nat, w: nat)
    requires |c| == |st.shards| > 0 && s < |c| && File(s, w, Data) in st.files
    requires Look(st.files, File(s, w, Data)) == Expect(c, st.shards, File(s, w, Data))
    ensures w < c[s].valid && w < |c[s].tables| && st.files[File(s, w, Data)] == TableBytes(c[s].tables[w])
  {
  }

  lemma StoredAt<K(!new)>(c: seq<Share<K>>, st: State<K>, k: K, f: K)
    requires |c| == |st.shards| > 0 && FilesOk(c, st) && (forall s :: 0 <= s < |c| ==> ShareOk(c[s]))
    requires DataInPlace(c, st.files)
    ensures NameMerged(c, {}, k, f) <==> StoredIn(c, st.files, k, f)
  {
    var none: set<nat> := {};
    if NameMerged(c, none, k, f) {
      var s: nat :| s < |c| && s !in none && IndexInfos.Names(c[s].index, k, f);
      assert HeldAt(c[s], k, f);
      var w: nat :| w < |c[s].tables| && k in c[s].tables[w] && f == c[s].files[w];
      assert c[s].tables[w] != [];
      assert File(s, w, Data) in st.files;
    }
    if StoredIn(c, st.files, k, f) {
      var s: nat, w: nat :| s < |c| && w < |c[s].tables| && w < |c[s].files| && c[s].files[w] == f
        && File(s, w, Data) in st.files && st.files[File(s, w, Data)].TableBytes? && k in st.files[File(s, w, Data)].blocks;
      DataOnly(c, st, s, w);
      assert HeldAt(c[s], k, f);
      assert IndexInfos.Names(c[s].index, k, f) && s !in none;
    }
  }

  lemma AllIndexed<K(!new)>(c: seq<Share<K>>, st: State<K>, index: IndexDoc<K>)
    requires |c| == |st.shards| > 0 && FilesOk(c, st) && (forall s :: 0 <= s < |c| ==> ShareOk(c[s]))
    requires DataInPlace(c, st.files) && IndexMerged(c, {}, index)
    ensures IndexWhole(c, st.files, index)
  {
    forall k, f
      ensures IndexInfos.Names(index, k, f) <==> StoredIn(c, st.files, k, f)
    {
      StoredAt(c, st, k, f);
    }
    forall s: nat, w: nat, k | s < |c| && w < |c[s].tables| && k in c[s].tables[w]
      ensures k in index.blocks
    {
      assert HeldAt(c[s], k, c[s].files[w]);
      assert IndexInfos.Names(c[s].index, k, c[s].files[w]);
      var none: set<nat> := {};
      assert s !in none && BlockMerged(c, none, k);
    }
  }

  lemma AllNames<K(!new)>(c: seq<Share<K>>, names: map<K, K>)
    requires NamesMerged(c, {}, names)
    ensures NamesWhole(c, names)
  {
    var none: set<nat> := {};
    forall k, v
      ensures Entry(names, k, v) <==> exists s: nat :: s < |c| && Entry(c[s].names, k, v)
    {
      if Entry(names, k, v) {
        var s: nat :| s < |c| && s !in none && k in c[s].names;
        assert Entry(c[s].names, k, v);
      }
      if s: nat :| s < |c| && Entry(c[s].names, k, v) {
        assert s !in none;
      }
    }
  }

  lemma FinalTexts<K>(c: seq<Share<K>>, st: State<K>)
    requires |c| == |st.shards| > 0 && File(0, 0, FullIndex) in st.files && st.shards[0].pc <= DONE
    requires Look(st.files, File(0, 0, FullIndex)) == Expect(c, st.shards, File(0, 0, FullIndex))
    requires Look(st.files, File(0, 0, FullNames)) == Expect(c, st.shards, File(0, 0, FullNames))
    ensures st.shards[0].pc == DONE && st.files[File(0, 0, FullIndex)] == IndexText(st.shards[0].index)
    ensures File(0, 0, FullNames) in st.files && st.files[File(0, 0, FullNames)] == NamesText(st.shards[0].names)
  {
  }

  lemma CommittedNow<K(!new)>(c: seq<Share<K>>, st: State<K>)
    requires Inv(c, st) && File(0, 0, FullIndex) in st.files
    ensures Committed(c, st.files)
  {
    FinalTexts(c, st);
    DataStays(c, st);
    AllIndexed(c, st, st.shards[0].index);
    AllNames(c, st.shards[0].names);
  }

  /** In every interleaving: once the final index exists, everything it needs is in place. */
  lemma CommitSafety<K(!new)>(c: seq<Share<K>>, run: seq<Step>)
    requires SaversOk(c) && After(c, run).Some? && File(0, 0, FullIndex) in After(c, run).value.files
    ensures Committed(c, After(c, run).value.files)
  {
    RunsKeep(c, run);
    CommittedNow(c, After(c, run).value);
  }
}
