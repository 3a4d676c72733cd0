/** A whole checkpoint, seen by a loader: every saved block is found under the name it was saved by, in the file that
    holds it, and the range read for it holds its bytes. */
module Checkpoints {
  import opened BlockNames
  import opened Collections
  import opened IndexInfos
  import opened OutputBuffers
  import opened SaveBundles
  import opened SaveProtocol
  import opened SaveRuns
  import opened SaveShares
  import opened TableFiles

  // ---------------------------------------------------------------------------------------------------------
  // Names.

  /** The name a loader asks for. */
  function Original(b: Block): string {
    BlockNameEncode(b.name, b.slice, "^")
  }

  lemma OriginalExample()
    ensures Original(Block("u@id", "00@10@10", false)) == "u@id^00@10@10" && Original(Block("w", " ", true)) == "w^ "
  {
  }

  ghost predicate NoCaret(s: string) {
    forall i :: 0 <= i < |s| ==> s[i] != '^'
  }

  /** A slice has no caret in its name, so it can be told from the tensor. */
  lemma OriginalApart(a: Block, b: Block)
    requires NoCaret(a.slice) && NoCaret(b.slice) && Original(a) == Original(b)
    ensures a.name == b.name && a.slice == b.slice
  {
    CaretAt(a, b);
    CaretAt(b, a);
    var n := |a.name|;
    assert Original(a)[..n] == a.name && Original(b)[..n] == b.name;
    assert Original(a)[n + 1..] == a.slice && Original(b)[n + 1..] == b.slice;
  }

  lemma CaretAt(a: Block, b: Block)
    requires NoCaret(b.slice) && Original(a) == Original(b)
    ensures |a.name| <= |b.name|
  {
    var n := |a.name|;
    assert Original(a)[n] == '^';
  }

  /** What the savers hand over: no two blocks have the same tensor and slice, table blocks have an `@` in their names, and
      the names of one shard are such that storing keeps them apart. */
  ghost predicate BlocksApart(bs: seq<Bundle>) {
    && (forall s, i :: 0 <= s < |bs| && 0 <= i < |bs[s].added| ==> NoCaret(bs[s].added[i].slice))
    && (forall s, i :: 0 <= s < |bs| && 0 <= i < |bs[s].added| && !bs[s].added[i].dense ==> '@' in bs[s].added[i].name)
    && (forall s :: 0 <= s < |bs| ==> NamesApart(bs[s].added))
    && forall s, i, t, j :: 0 <= s < |bs| && 0 <= t < |bs| && 0 <= i < |bs[s].added| && 0 <= j < |bs[t].added| && (s != t || i != j) ==>
         bs[s].added[i].name != bs[t].added[j].name || bs[s].added[i].slice != bs[t].added[j].slice
  }

  /** So the stored names of one shard differ. */
  lemma ShardApart(bs: seq<Bundle>, parallel: nat, s: nat)
    requires Bundles(bs, parallel) && BlocksApart(bs) && s < |bs|
    ensures Distinct(Keys(bs[s].stored))
  {
    StoredApart(bs[s].added, s, |bs|, bs[s].stored);
  }

  /** Savers that hand over such blocks are what the protocol assumes. */
  lemma ApartSavers(bs: seq<Bundle>, parallel: nat)
    requires Bundles(bs, parallel) && BlocksApart(bs)
    ensures Savers(bs, parallel)
  {
    forall s | 0 <= s < |bs|
      ensures OneFileEach(Keys(bs[s].stored), FileNames(s, |bs|, parallel))
    {
      ShardApart(bs, parallel, s);
    }
  }

  function KeyOf(bs: seq<Bundle>, s: nat, i: nat): string
    requires s < |bs| && i < |bs[s].added|
  {
    Key(Stored(bs[s].added[i], s, |bs|))
  }

  ghost predicate NamedLike(added: seq<Block>, shard: nat, shardNum: nat, k: string, j: nat) {
    j < |added| && !added[j].dense && Stored(added[j], shard, shardNum).name == k
  }

  lemma {:induction false} NamedIf(added: seq<Block>, shard: nat, shardNum: nat, k: string)
    requires k in TensorNames(added, shard, shardNum)
    ensures exists j :: NamedLike(added, shard, shardNum, k, j)
  {
    var n := |added| - 1;
    if k in TensorNames(added[..n], shard, shardNum) {
      NamedIf(added[..n], shard, shardNum, k);
      var j :| NamedLike(added[..n], shard, shardNum, k, j);
      assert NamedLike(added, shard, shardNum, k, j);
    } else {
      assert NamedLike(added, shard, shardNum, k, n);
    }
  }

  /** The name map of one shard gives a stored name the name of the first table block stored under it. */
  lemma {:induction false} OwnName(added: seq<Block>, shard: nat, shardNum: nat, k: string, i: nat)
    requires NamedLike(added, shard, shardNum, k, i) && forall j: nat :: NamedLike(added, shard, shardNum, k, j) ==> j >= i
    ensures Entry(TensorNames(added, shard, shardNum), k, Original(added[i]))
  {
    var n := |added| - 1;
    forall j: nat | NamedLike(added[..n], shard, shardNum, k, j)
      ensures NamedLike(added, shard, shardNum, k, j)
    {
    }
    if i < n {
      OwnName(added[..n], shard, shardNum, k, i);
    } else if k in TensorNames(added[..n], shard, shardNum) {
      NamedIf(added[..n], shard, shardNum, k);
    }
  }

  lemma OneNamed(b: Bundle, shard: nat, shardNum: nat, i: nat)
    requires AllStored(b.added, shard, shardNum, b.stored) && Distinct(Keys(b.stored)) && i < |b.added| && !b.added[i].dense
    ensures NamedLike(b.added, shard, shardNum, b.stored[i].name, i)
    ensures forall j: nat :: NamedLike(b.added, shard, shardNum, b.stored[i].name, j) ==> j == i
  {
    forall j: nat | NamedLike(b.added, shard, shardNum, b.stored[i].name, j)
      ensures j == i
    {
      TableKey(b.stored[i]);
      TableKey(b.stored[j]);
      assert Keys(b.stored)[j] == Keys(b.stored)[i];
    }
  }

  lemma NotATable(added: seq<Block>, shard: nat, shardNum: nat, k: string)
    requires k != "" && k[|k| - 1] == ' '
    ensures k !in TensorNames(added, shard, shardNum)
  {
    if k in TensorNames(added, shard, shardNum) {
      NamedIf(added, shard, shardNum, k);
    }
  }

  lemma DenseKept(bs: seq<Bundle>, parallel: nat, names: map<string, string>, k: string)
    requires Savers(bs, parallel) && NamesWhole(Shares(bs, parallel), names) && k != "" && k[|k| - 1] == ' '
    ensures k !in names
  {
    var c := Shares(bs, parallel);
    if k in names {
      assert Entry(names, k, names[k]);
      var t: nat :| t < |c| && Entry(c[t].names, k, names[k]);
      NotATable(bs[t].added, t, |bs|, k);
    }
  }

  lemma TableRenamed(bs: seq<Bundle>, parallel: nat, names: map<string, string>, s: nat, i: nat)
    requires Savers(bs, parallel) && NamesWhole(Shares(bs, parallel), names)
    requires s < |bs| && i < |bs[s].added| && !bs[s].added[i].dense && Distinct(Keys(bs[s].stored))
    ensures Entry(names, KeyOf(bs, s, i), Original(bs[s].added[i]))
  {
    OneNamed(bs[s], s, |bs|, i);
    OwnName(bs[s].added, s, |bs|, bs[s].stored[i].name, i);
    TableKey(bs[s].stored[i]);
    assert Entry(Shares(bs, parallel)[s].names, KeyOf(bs, s, i), Original(bs[s].added[i]));
  }

  /** Read through the merged name map, a stored name is the name the block was saved by. */
  lemma RenamedBack(bs: seq<Bundle>, parallel: nat, names: map<string, string>, s: nat, i: nat)
    requires Savers(bs, parallel) && BlocksApart(bs) && NamesWhole(Shares(bs, parallel), names)
    requires s < |bs| && i < |bs[s].added|
    ensures Rename(names, KeyOf(bs, s, i)) == Original(bs[s].added[i])
  {
    if bs[s].added[i].dense {
      LastChar(bs[s].added[i], s, |bs|);
      DenseKept(bs, parallel, names, KeyOf(bs, s, i));
    } else {
      ShardApart(bs, parallel, s);
      TableRenamed(bs, parallel, names, s, i);
    }
  }

  lemma RenamedOnce(bs: seq<Bundle>, parallel: nat, names: map<string, string>, s: nat, i: nat, t: nat, j: nat)
    requires Savers(bs, parallel) && BlocksApart(bs) && NamesWhole(Shares(bs, parallel), names)
    requires s < |bs| && i < |bs[s].added| && t < |bs| && j < |bs[t].added|
    requires Rename(names, KeyOf(bs, s, i)) == Rename(names, KeyOf(bs, t, j))
    ensures s == t && i == j
  {
    RenamedBack(bs, parallel, names, s, i);
    RenamedBack(bs, parallel, names, t, j);
    OriginalApart(bs[s].added[i], bs[t].added[j]);
  }

  lemma KeysDiffer(bs: seq<Bundle>, parallel: nat, s: nat, i: nat, t: nat, j: nat)
    requires Savers(bs, parallel) && BlocksApart(bs)
    requires s < |bs| && i < |bs[s].added| && t < |bs| && j < |bs[t].added| && KeyOf(bs, s, i) == KeyOf(bs, t, j)
    ensures s == t && i == j
  {
    if s != t {
      Differ(bs, parallel, s, i, t, j);
    } else {
      ShardApart(bs, parallel, s);
      assert Keys(bs[s].stored)[i] == KeyOf(bs, s, i) && Keys(bs[s].stored)[j] == KeyOf(bs, s, j);
    }
  }

  // ---------------------------------------------------------------------------------------------------------
  // Files.

  /** A data file that exists holds what its writer was dealt. */
  ghost predicate DataExact(bs: seq<Bundle>, parallel: nat, files: map<File, Content<string>>)
    requires Savers(bs, parallel)
  {
    forall t: nat, w: nat :: t < |bs| && w < parallel && File(t, w, Data) in files && files[File(t, w, Data)].TableBytes? ==>
      files[File(t, w, Data)].blocks == Shares(bs, parallel)[t].tables[w]
  }

  /** Block `i` of shard `s` is in the file of the writer whose turn it was, and in no other. */
  lemma StoredOnce(bs: seq<Bundle>, parallel: nat, files: map<File, Content<string>>, s: nat, i: nat, f: string)
    requires Savers(bs, parallel) && BlocksApart(bs) && DataInPlace(Shares(bs, parallel), files)
    requires s < |bs| && i < |bs[s].added|
    requires DataExact(bs, parallel, files)
    ensures StoredIn(Shares(bs, parallel), files, KeyOf(bs, s, i), f) <==> f == FileNames(s, |bs|, parallel)[Turn(i, parallel)]
  {
    var c, k, w := Shares(bs, parallel), KeyOf(bs, s, i), Turn(i, parallel);
    InTable(bs, parallel, s, w, k);
    assert Keys(bs[s].stored)[i] == k;
    assert k in c[s].tables[w];
    NonEmptyPrefix(bs[s].added, parallel, w);
    WriterHasTurn(i, |bs[s].added|, parallel);
    assert File(s, w, Data) in files && files[File(s, w, Data)] == TableBytes(c[s].tables[w]);
    if StoredIn(c, files, k, f) {
      var t: nat, v: nat :| t < |c| && v < |c[t].tables| && v < |c[t].files| && c[t].files[v] == f
        && File(t, v, Data) in files && files[File(t, v, Data)].TableBytes? && k in files[File(t, v, Data)].blocks;
      InTable(bs, parallel, t, v, k);
      var j :| 0 <= j < |bs[t].added| && Turn(j, parallel) == v && KeyOf(bs, t, j) == k;
      KeysDiffer(bs, parallel, s, i, t, j);
    }
  }

  /** The writer whose turn it is for an item is among those with blocks. */
  lemma {:induction false} WriterHasTurn(i: nat, n: nat, parallel: nat)
    requires i < n && parallel > 0
    ensures Turn(i, parallel) < n
  {
    if i > 0 {
      WriterHasTurn(i - 1, n - 1, parallel);
    }
  }

  lemma InTable(bs: seq<Bundle>, parallel: nat, s: nat, w: nat, k: string)
    requires Savers(bs, parallel) && s < |bs| && w < parallel
    ensures k in Shares(bs, parallel)[s].tables[w] <==>
            exists i :: 0 <= i < |bs[s].added| && Turn(i, parallel) == w && KeyOf(bs, s, i) == k
  {
    KeysOfDealt(bs[s].stored, parallel, w);
    var keys := Keys(bs[s].stored);
    DealtAt(keys, parallel, w, k);
    assert forall i :: 0 <= i < |bs[s].added| ==> keys[i] == KeyOf(bs, s, i);
  }

  lemma BlockKey(bs: seq<Bundle>, parallel: nat, s: nat, w: nat, k: string) returns (i: nat)
    requires Savers(bs, parallel) && s < |bs| && w < parallel && k in Shares(bs, parallel)[s].tables[w]
    ensures i < |bs[s].added| && Turn(i, parallel) == w && KeyOf(bs, s, i) == k
  {
    InTable(bs, parallel, s, w, k);
    i :| 0 <= i < |bs[s].added| && Turn(i, parallel) == w && KeyOf(bs, s, i) == k;
  }

  /** The index of a whole checkpoint knows only blocks that were handed over. */
  lemma IndexedBlock(bs: seq<Bundle>, parallel: nat, files: map<File, Content<string>>, d: IndexDoc<string>, k: string)
    returns (s: nat, i: nat)
    requires Savers(bs, parallel) && IndexWhole(Shares(bs, parallel), files, d) && k in d.blocks
    requires DataExact(bs, parallel, files)
    ensures s < |bs| && i < |bs[s].added| && KeyOf(bs, s, i) == k
  {
    NamesOne(d, k);
    var f :| IndexInfos.Names(d, k, f);
    var c := Shares(bs, parallel);
    var t: nat, w: nat :| t < |c| && w < |c[t].tables| && w < |c[t].files| && c[t].files[w] == f
      && File(t, w, Data) in files && files[File(t, w, Data)].TableBytes? && k in files[File(t, w, Data)].blocks;
    s := t;
    i := BlockKey(bs, parallel, t, w, k);
  }

  /** Renaming loses no block. */
  lemma RenamingApart(bs: seq<Bundle>, parallel: nat, files: map<File, Content<string>>, d: IndexDoc<string>,
                     names: map<string, string>)
    requires Savers(bs, parallel) && BlocksApart(bs) && IndexWhole(Shares(bs, parallel), files, d)
    requires NamesWhole(Shares(bs, parallel), names) && DataExact(bs, parallel, files)
    ensures forall a, b :: a in d.blocks && b in d.blocks && Rename(names, a) == Rename(names, b) ==> a == b
  {
    forall a, b | a in d.blocks && b in d.blocks && Rename(names, a) == Rename(names, b)
      ensures a == b
    {
      var s, i := IndexedBlock(bs, parallel, files, d, a);
      var t, j := IndexedBlock(bs, parallel, files, d, b);
      RenamedOnce(bs, parallel, names, s, i, t, j);
    }
  }

  lemma RunDataExact(bs: seq<Bundle>, parallel: nat, run: seq<Step>)
    requires Savers(bs, parallel) && After(Shares(bs, parallel), run).Some?
    ensures DataExact(bs, parallel, After(Shares(bs, parallel), run).value.files)
  {
    var c := Shares(bs, parallel);
    SaversAreOk(bs, parallel);
    RunsKeep(c, run);
    var st := After(c, run).value;
    forall t: nat, w: nat | t < |bs| && w < parallel && File(t, w, Data) in st.files
      ensures st.files[File(t, w, Data)] == TableBytes(c[t].tables[w])
    {
      DataOnly(c, st, t, w);
    }
  }

  /** The loader's index: the final one, read through the final name map. */
  ghost predicate ReadIndex(files: map<File, Content<string>>, r: IndexDoc<string>) {
    && File(0, 0, FullIndex) in files && files[File(0, 0, FullIndex)].IndexText?
    && File(0, 0, FullNames) in files && files[File(0, 0, FullNames)].NamesText?
    && r.files == files[File(0, 0, FullIndex)].doc.files
    && ReadThrough(files[File(0, 0, FullIndex)].doc.blocks, files[File(0, 0, FullNames)].names, r.blocks)
  }

  /** Whenever the final index exists, every block that was saved is sent, under the name it was saved by, to the file
      of the writer it was dealt to and to no other, and that file is in place. */
  lemma LoaderFinds(bs: seq<Bundle>, parallel: nat, run: seq<Step>, r: IndexDoc<string>, s: nat, i: nat)
    requires Bundles(bs, parallel) && BlocksApart(bs) && After(Shares(bs, parallel), run).Some?
    requires ReadIndex(After(Shares(bs, parallel), run).value.files, r) && s < |bs| && i < |bs[s].added|
    ensures Ok(r) && File(s, Turn(i, parallel), Data) in After(Shares(bs, parallel), run).value.files
    ensures forall f :: IndexInfos.Names(r, Original(bs[s].added[i]), f) <==> f == FileNames(s, |bs|, parallel)[Turn(i, parallel)]
  {
    ApartSavers(bs, parallel);
    var c, files := Shares(bs, parallel), After(Shares(bs, parallel), run).value.files;
    EveryRunCommits(bs, parallel, run);
    RunDataExact(bs, parallel, run);
    var d, names := files[File(0, 0, FullIndex)].doc, files[File(0, 0, FullNames)].names;
    RenamingApart(bs, parallel, files, d, names);
    ReadNames(d, names, r);
    RenamedBack(bs, parallel, names, s, i);
    SentBack(bs, parallel, files, d, s, i);
    forall f
      ensures IndexInfos.Names(r, Original(bs[s].added[i]), f) <==> f == FileNames(s, |bs|, parallel)[Turn(i, parallel)]
    {
      assert IndexInfos.Names(r, Rename(names, KeyOf(bs, s, i)), f) <==> IndexInfos.Names(d, KeyOf(bs, s, i), f);
    }
  }

  lemma SentBack(bs: seq<Bundle>, parallel: nat, files: map<File, Content<string>>, d: IndexDoc<string>, s: nat, i: nat)
    requires Savers(bs, parallel) && BlocksApart(bs) && IndexWhole(Shares(bs, parallel), files, d)
    requires DataExact(bs, parallel, files) && DataInPlace(Shares(bs, parallel), files) && s < |bs| && i < |bs[s].added|
    ensures KeyOf(bs, s, i) in d.blocks && File(s, Turn(i, parallel), Data) in files
    ensures forall f :: IndexInfos.Names(d, KeyOf(bs, s, i), f) <==> f == FileNames(s, |bs|, parallel)[Turn(i, parallel)]
  {
    var c, k, w := Shares(bs, parallel), KeyOf(bs, s, i), Turn(i, parallel);
    InTable(bs, parallel, s, w, k);
    assert k in c[s].tables[w];
    WriterHasTurn(i, |bs[s].added|, parallel);
    forall f
      ensures IndexInfos.Names(d, k, f) <==> f == FileNames(s, |bs|, parallel)[w]
    {
      StoredOnce(bs, parallel, files, s, i, f);
    }
  }

  // ---------------------------------------------------------------------------------------------------------
  // Bytes.

  /** Every block of shard `s` with its data, under the name a table file gives it. */
  function WithData(bs: seq<Bundle>, s: nat, data: seq<Payload>): (tbs: seq<TableBlock>)
    requires s < |bs| && |data| == |bs[s].added|
    ensures |tbs| == |data|
    ensures forall i :: 0 <= i < |tbs| ==> tbs[i] == TableBlock(MetaKey(Stored(bs[s].added[i], s, |bs|)), data[i])
  {
    seq(|data|, i requires 0 <= i < |data| => TableBlock(MetaKey(Stored(bs[s].added[i], s, |bs|)), data[i]))
  }

  /** No dense tensor has a name that its table file would take for a table's. */
  ghost predicate PlainDense(bs: seq<Bundle>) {
    forall s, i :: 0 <= s < |bs| && 0 <= i < |bs[s].added| && bs[s].added[i].dense ==> !Contains(bs[s].added[i].name, "/part_")
  }

  /** What writer `w` of shard `s` is dealt goes through its table writer: no file when there is nothing, and otherwise
      exactly the layout of its blocks, for every buffer size and batch size. */
  method WriteTable(ghost bs: seq<Bundle>, s: nat, stored: seq<Block>, data: seq<Payload>, parallel: nat, w: nat,
                    encode: Meta -> seq<byte>, bufferSize: nat, batch: nat)
    returns (written: bool, file: seq<byte>)
    requires s < |bs| && |data| == |bs[s].added| && AllStored(bs[s].added, s, |bs|, stored)
    requires parallel > 0 && bufferSize > 0 && batch > 0
    ensures written <==> Dealt(WithData(bs, s, data), parallel, w) != []
    ensures written ==> file == Layout(encode, Dealt(WithData(bs, s, data), parallel, w))
  {
    var writer := new TableWriter();
    var tableIndex := 0;
    ghost var all := WithData(bs, s, data);
    for i := 0 to |stored|
      invariant tableIndex == Turn(i, parallel) && writer.dataOffset == 0
      invariant writer.blocks == Dealt(all[..i], parallel, w)
    {
      assert all[..i + 1][..i] == all[..i];
      if tableIndex == w {
        writer.AppendWriteBlock(stored[i], data[i]);
      }
      tableIndex := if tableIndex + 1 == parallel then 0 else tableIndex + 1;
    }
    assert all[..|stored|] == all;
    written, file := writer.SequentialWrite(encode, bufferSize, batch);
  }

  lemma {:induction false} DealtOnce<T(!new)>(items: seq<T>, parallel: nat, w: nat)
    requires parallel > 0 && Distinct(items)
    ensures Distinct(Dealt(items, parallel, w))
  {
    if items != [] {
      var last := |items| - 1;
      DealtOnce(items[..last], parallel, w);
      DealtAt(items[..last], parallel, w, items[last]);
      DistinctSnoc(Dealt(items[..last], parallel, w), items[last]);
    }
  }

  lemma FileKey(bs: seq<Bundle>, parallel: nat, s: nat, data: seq<Payload>, i: nat)
    requires Savers(bs, parallel) && PlainDense(bs) && s < |bs| && |data| == |bs[s].added| && i < |data|
    ensures WithData(bs, s, data)[i].key == KeyOf(bs, s, i)
  {
    NamesAgree(bs[s].added[i], s, |bs|);
  }

  lemma DataDistinct(bs: seq<Bundle>, parallel: nat, s: nat, data: seq<Payload>)
    requires Savers(bs, parallel) && BlocksApart(bs) && PlainDense(bs) && s < |bs| && |data| == |bs[s].added|
    ensures Distinct(WithData(bs, s, data))
  {
    forall i, j | 0 <= i < j < |data|
      ensures WithData(bs, s, data)[i] != WithData(bs, s, data)[j]
    {
      FileKey(bs, parallel, s, data, i);
      FileKey(bs, parallel, s, data, j);
      if KeyOf(bs, s, i) == KeyOf(bs, s, j) {
        KeysDiffer(bs, parallel, s, i, s, j);
      }
    }
  }

  /** In the file of one writer, the loader's names are all different. */
  lemma FileApart(bs: seq<Bundle>, parallel: nat, names: map<string, string>, s: nat, w: nat, data: seq<Payload>)
    requires Savers(bs, parallel) && BlocksApart(bs) && PlainDense(bs) && NamesWhole(Shares(bs, parallel), names)
    requires s < |bs| && w < parallel && |data| == |bs[s].added|
    ensures TableFiles.RenamedApart(MetaKeys(Dealt(WithData(bs, s, data), parallel, w)), names)
  {
    var all, tbs := WithData(bs, s, data), Dealt(WithData(bs, s, data), parallel, w);
    DataDistinct(bs, parallel, s, data);
    DealtOnce(all, parallel, w);
    forall p, q | 0 <= p < q < |tbs|
      ensures Rename(names, tbs[p].key) != Rename(names, tbs[q].key)
    {
      DealtAt(all, parallel, w, tbs[p]);
      DealtAt(all, parallel, w, tbs[q]);
      var i :| 0 <= i < |all| && Turn(i, parallel) == w && all[i] == tbs[p];
      var j :| 0 <= j < |all| && Turn(j, parallel) == w && all[j] == tbs[q];
      FileKey(bs, parallel, s, data, i);
      FileKey(bs, parallel, s, data, j);
      if Rename(names, tbs[p].key) == Rename(names, tbs[q].key) {
        RenamedOnce(bs, parallel, names, s, i, s, j);
      }
    }
  }

  /** What a reader of the file of writer `w` of shard `s` makes of its description. */
  ghost predicate ReadFile(encode: Meta -> seq<byte>, decode: seq<byte> -> Meta, tbs: seq<TableBlock>,
                           names: map<string, string>, infos: Meta) {
    var file, size := Layout(encode, tbs), |MetaText(encode, tbs)|;
    |file| >= 8 + size && ReadThrough(Shifted(decode(file[8..8 + size]), 8 + size), names, infos)
  }

  lemma RangeBack(encode: Meta -> seq<byte>, decode: seq<byte> -> Meta, tbs: seq<TableBlock>,
                  names: map<string, string>, infos: Meta, p: nat)
    requires Parses(encode, decode) && |MetaText(encode, tbs)| < 0x1_0000_0000_0000_0000 && p < |tbs|
    requires (forall k :: 0 <= k < |tbs| ==> Sound(tbs[k].data)) && TableFiles.RenamedApart(MetaKeys(tbs), names)
    requires ReadFile(encode, decode, tbs, names, infos)
    ensures HoldsBytes(Layout(encode, tbs), infos, Rename(names, tbs[p].key), Bytes(tbs[p].data))
  {
    ReadsBack(encode, decode, tbs, names, infos, p);
  }

  /** The whole way: whenever the final index exists, a loader that asks for a block by the name it was saved by is sent
      to one file, which is in place, and the range it computes there holds exactly the bytes of that block, each at
      its place. */
  lemma ReadsBackWhole(bs: seq<Bundle>, parallel: nat, run: seq<Step>, r: IndexDoc<string>, s: nat, i: nat,
                       data: seq<Payload>, encode: Meta -> seq<byte>, decode: seq<byte> -> Meta, infos: Meta)
    requires Bundles(bs, parallel) && BlocksApart(bs) && PlainDense(bs) && After(Shares(bs, parallel), run).Some?
    requires ReadIndex(After(Shares(bs, parallel), run).value.files, r) && s < |bs| && i < |bs[s].added| == |data|
    requires Parses(encode, decode) && forall k :: 0 <= k < |data| ==> Sound(data[k])
    requires var tbs, files := Dealt(WithData(bs, s, data), parallel, Turn(i, parallel)), After(Shares(bs, parallel), run).value.files;
             |MetaText(encode, tbs)| < 0x1_0000_0000_0000_0000 && ReadFile(encode, decode, tbs, files[File(0, 0, FullNames)].names, infos)
    ensures File(s, Turn(i, parallel), Data) in After(Shares(bs, parallel), run).value.files
    ensures forall f :: IndexInfos.Names(r, Original(bs[s].added[i]), f) <==> f == FileNames(s, |bs|, parallel)[Turn(i, parallel)]
    ensures HoldsBytes(Layout(encode, Dealt(WithData(bs, s, data), parallel, Turn(i, parallel))), infos,
                       Original(bs[s].added[i]), Bytes(data[i]))
    ensures var r := infos[Original(bs[s].added[i])];
            && r.end == r.begin + Declared(data[i])
            && Laid(Layout(encode, Dealt(WithData(bs, s, data), parallel, Turn(i, parallel))), r.begin, data[i])
  {
    ApartSavers(bs, parallel);
    LoaderFinds(bs, parallel, run, r, s, i);
    EveryRunCommits(bs, parallel, run);
    BytesBack(bs, parallel, After(Shares(bs, parallel), run).value.files[File(0, 0, FullNames)].names, s, i, data, encode, decode, infos);
    HeldPositions(Layout(encode, Dealt(WithData(bs, s, data), parallel, Turn(i, parallel))), infos, Original(bs[s].added[i]), data[i]);
  }

  lemma WhereDealt<T>(items: seq<T>, parallel: nat, i: nat) returns (p: nat)
    requires parallel > 0 && i < |items|
    ensures p < |Dealt(items, parallel, Turn(i, parallel))| && Dealt(items, parallel, Turn(i, parallel))[p] == items[i]
  {
    DealtAt(items, parallel, Turn(i, parallel), items[i]);
    p :| p < |Dealt(items, parallel, Turn(i, parallel))| && Dealt(items, parallel, Turn(i, parallel))[p] == items[i];
  }

  lemma DealtSound(tbs: seq<TableBlock>, parallel: nat, w: nat)
    requires parallel > 0 && forall k :: 0 <= k < |tbs| ==> Sound(tbs[k].data)
    ensures forall q :: 0 <= q < |Dealt(tbs, parallel, w)| ==> Sound(Dealt(tbs, parallel, w)[q].data)
  {
    forall q | 0 <= q < |Dealt(tbs, parallel, w)|
      ensures Sound(Dealt(tbs, parallel, w)[q].data)
    {
      DealtAt(tbs, parallel, w, Dealt(tbs, parallel, w)[q]);
    }
  }

  lemma BytesBack(bs: seq<Bundle>, parallel: nat, names: map<string, string>, s: nat, i: nat,
                  data: seq<Payload>, encode: Meta -> seq<byte>, decode: seq<byte> -> Meta, infos: Meta)
    requires Savers(bs, parallel) && BlocksApart(bs) && PlainDense(bs) && NamesWhole(Shares(bs, parallel), names)
    requires s < |bs| && i < |bs[s].added| == |data|
    requires Parses(encode, decode) && forall k :: 0 <= k < |data| ==> Sound(data[k])
    requires var tbs := Dealt(WithData(bs, s, data), parallel, Turn(i, parallel));
             |MetaText(encode, tbs)| < 0x1_0000_0000_0000_0000 && ReadFile(encode, decode, tbs, names, infos)
    ensures HoldsBytes(Layout(encode, Dealt(WithData(bs, s, data), parallel, Turn(i, parallel))), infos,
                       Original(bs[s].added[i]), Bytes(data[i]))
  {
    var w, all := Turn(i, parallel), WithData(bs, s, data);
    var tbs := Dealt(all, parallel, w);
    var p := WhereDealt(all, parallel, i);
    DealtSound(all, parallel, w);
    FileApart(bs, parallel, names, s, w, data);
    RangeBack(encode, decode, tbs, names, infos, p);
    FileKey(bs, parallel, s, data, i);
    RenamedBack(bs, parallel, names, s, i);
  }
}
