/** `IndexInfo`: which numbered data file holds which block. */
module IndexInfos {
  import opened Collections

  /** The index as it is written to disk: file names to numbers, block names to file numbers. */
  datatype IndexDoc<!K> = IndexDoc(files: map<K, nat>, blocks: map<K, nat>)

  ghost predicate Disjoint<K>(a: map<K, nat>, b: map<K, nat>) {
    forall k :: k in a ==> k !in b
  }

  /** Files are numbered `0 .. |files| - 1`, each number used once. */
  ghost predicate Gapless<K>(files: map<K, nat>) {
    && (forall f :: f in files ==> files[f] < |files|)
    && Apart(files)
    && forall i: nat :: i < |files| ==> Numbered(files, i)
  }

  ghost predicate Apart<K>(files: map<K, nat>) {
    forall f, g :: f in files && g in files && files[f] == files[g] ==> f == g
  }

  ghost predicate Numbered<K>(files: map<K, nat>, i: nat) {
    exists f :: f in files && files[f] == i
  }

  ghost predicate Ok<K>(d: IndexDoc<K>) {
    Gapless(d.files) && forall b :: b in d.blocks ==> d.blocks[b] < |d.files|
  }

  /** The index sends block `b` to file `f`. */
  ghost predicate Names<K>(d: IndexDoc<K>, b: K, f: K) {
    b in d.blocks && f in d.files && d.blocks[b] == d.files[f]
  }

  /** Every block is sent to exactly one file. */
  lemma NamesOne<K(!new)>(d: IndexDoc<K>, b: K)
    requires Ok(d) && b in d.blocks
    ensures exists f :: Names(d, b, f)
    ensures forall f, g :: Names(d, b, f) && Names(d, b, g) ==> f == g
  {
    assert Numbered(d.files, d.blocks[b]);
    var f :| f in d.files && d.files[f] == d.blocks[b];
    assert Names(d, b, f);
  }

  function Merged<K>(a: IndexDoc<K>, b: IndexDoc<K>): IndexDoc<K> {
    IndexDoc(Over(a.files, b.files, |a.files|), Over(a.blocks, b.blocks, |a.files|))
  }

  /** `b`, its numbers moved up by `shift`, on top of `a`. */
  function Over<K>(a: map<K, nat>, b: map<K, nat>, shift: nat): (m: map<K, nat>)
    ensures m.Keys == a.Keys + b.Keys
  {
    map k | k in a.Keys + b.Keys :: if k in b then b[k] + shift else a[k]
  }

  lemma UnionSize<K>(a: map<K, nat>, b: map<K, nat>, m: map<K, nat>)
    requires m.Keys == a.Keys + b.Keys
    ensures |m| + |a.Keys * b.Keys| == |a| + |b|
  {
    assert |m| == |m.Keys| && |a| == |a.Keys| && |b| == |b.Keys|;
  }

  lemma OverNumbered<K>(a: map<K, nat>, b: map<K, nat>, i: nat)
    requires Gapless(a) && Gapless(b) && Disjoint(a, b) && i < |a| + |b|
    ensures Numbered(Over(a, b, |a|), i)
  {
    var m := Over(a, b, |a|);
    if i < |a| {
      assert Numbered(a, i);
      var f :| f in a && a[f] == i;
      assert f in m && m[f] == i;
    } else {
      assert Numbered(b, i - |a|);
      var f :| f in b && b[f] == i - |a|;
      assert f in m && m[f] == i;
    }
  }

  lemma OverApart<K>(a: map<K, nat>, b: map<K, nat>)
    requires Gapless(a) && Gapless(b) && Disjoint(a, b)
    ensures Apart(Over(a, b, |a|))
  {
  }

  lemma OverGapless<K>(a: map<K, nat>, b: map<K, nat>)
    requires Gapless(a) && Gapless(b) && Disjoint(a, b)
    ensures Gapless(Over(a, b, |a|)) && |Over(a, b, |a|)| == |a| + |b|
  {
    var m := Over(a, b, |a|);
    UnionSize(a, b, m);
    OverApart(a, b);
    forall i: nat | i < |m|
      ensures Numbered(m, i)
    {
      OverNumbered(a, b, i);
    }
    forall f | f in m
      ensures m[f] < |m|
    {
      assert f in b || f in a;
    }
  }

  lemma MergedOk<K(!new)>(a: IndexDoc<K>, b: IndexDoc<K>)
    requires Ok(a) && Ok(b) && Disjoint(a.files, b.files)
    ensures Ok(Merged(a, b))
  {
    OverGapless(a.files, b.files);
  }

  /** Merging is exact on disjoint indexes: the result sends each block where its own index sent it. */
  lemma MergeNames<K(!new)>(a: IndexDoc<K>, b: IndexDoc<K>)
    requires Ok(a) && Ok(b) && Disjoint(a.files, b.files) && Disjoint(a.blocks, b.blocks)
    ensures Ok(Merged(a, b))
    ensures forall k, f :: Names(Merged(a, b), k, f) <==> Names(a, k, f) || Names(b, k, f)
  {
    MergedOk(a, b);
    forall k, f
      ensures Names(Merged(a, b), k, f) <==> Names(a, k, f) || Names(b, k, f)
    {
      MergeNamesAt(a, b, k, f);
    }
  }

  lemma MergeNamesAt<K>(a: IndexDoc<K>, b: IndexDoc<K>, k: K, f: K)
    requires Ok(a) && Ok(b) && Disjoint(a.files, b.files) && Disjoint(a.blocks, b.blocks)
    ensures Names(Merged(a, b), k, f) <==> Names(a, k, f) || Names(b, k, f)
  {
    var m := Merged(a, b);
    if k in m.blocks && f in m.files {
      assert m.files[f] == if f in b.files then b.files[f] + |a.files| else a.files[f];
      assert m.blocks[k] == if k in b.blocks then b.blocks[k] + |a.files| else a.blocks[k];
    }
  }

  /** Numbers stay without gaps exactly when no file occurs in both indexes. */
  lemma MergeGapless<K>(a: IndexDoc<K>, b: IndexDoc<K>)
    requires Ok(a) && Ok(b)
    ensures Gapless(Merged(a, b).files) <==> Disjoint(a.files, b.files)
  {
    if Disjoint(a.files, b.files) {
      OverGapless(a.files, b.files);
    } else {
      var m := Merged(a, b).files;
      UnionSize(a.files, b.files, m);
      var both := a.files.Keys * b.files.Keys;
      var g :| g in a.files && g in b.files;
      assert g in both;
      assert |both| > 0 && |b.files| > b.files[g];
      assert Numbered(b.files, |b.files| - 1);
      var f :| f in b.files && b.files[f] == |b.files| - 1;
      assert f in m && m[f] == |a.files| + |b.files| - 1;
    }
  }

  /** A block name read back through the checkpoint's name map. */
  function Rename<K>(names: map<K, K>, b: K): K {
    if b in names then names[b] else b
  }

  /** `to` is what reading `from` through `names` may give: the last of several equal names wins. */
  ghost predicate ReadThrough<K, V>(from: map<K, V>, names: map<K, K>, to: map<K, V>) {
    && (forall b :: b in from ==> Rename(names, b) in to)
    && forall k :: k in to ==> exists b :: b in from && Rename(names, b) == k && to[k] == from[b]
  }

  /** When renaming keeps the block names apart, nothing is lost by it. */
  lemma ReadNames<K(!new)>(d: IndexDoc<K>, names: map<K, K>, r: IndexDoc<K>)
    requires Ok(d) && r.files == d.files && ReadThrough(d.blocks, names, r.blocks)
    requires forall a, b :: a in d.blocks && b in d.blocks && Rename(names, a) == Rename(names, b) ==> a == b
    ensures Ok(r)
    ensures forall b, f :: b in d.blocks ==> (Names(r, Rename(names, b), f) <==> Names(d, b, f))
  {
  }

  lemma OneMore<K>(files: map<K, nat>, file: K)
    requires Gapless(files) && file !in files
    ensures Gapless(files[file := |files|]) && |files[file := |files|]| == |files| + 1
  {
    var m := files[file := |files|];
    OneMoreKeys(files, file, m);
    forall i: nat | i < |m|
      ensures Numbered(m, i)
    {
      if i < |files| {
        assert Numbered(files, i);
        var f :| f in files && files[f] == i;
        assert f in m && m[f] == i;
      } else {
        assert file in m && m[file] == i;
      }
    }
  }

  lemma OneMoreKeys<K>(files: map<K, nat>, file: K, m: map<K, nat>)
    requires file !in files && m == files[file := |files|]
    ensures |m| == |files| + 1
  {
    assert m.Keys == files.Keys + {file} && |m| == |m.Keys| && |files| == |files.Keys|;
  }

  /** `r` is `d` with block `key` sent to `file`. */
  ghost predicate AppendedTo<K(!new)>(d: IndexDoc<K>, r: IndexDoc<K>, key: K, file: K) {
    && Ok(r) && r.blocks.Keys == d.blocks.Keys + {key} && r.files.Keys == d.files.Keys + {file}
    && forall b, f :: Names(r, b, f) <==> if b == key then f == file else Names(d, b, f)
  }

  ghost predicate WithEntry<K>(d: IndexDoc<K>, r: IndexDoc<K>, key: K, file: K) {
    && r.files == (if file in d.files then d.files else d.files[file := |d.files|])
    && r.blocks == d.blocks[key := r.files[file]]
  }

  lemma AppendKeys<K>(d: IndexDoc<K>, r: IndexDoc<K>, key: K, file: K)
    requires WithEntry(d, r, key, file)
    ensures r.blocks.Keys == d.blocks.Keys + {key} && r.files.Keys == d.files.Keys + {file}
  {
  }

  lemma AppendNamesAt<K>(d: IndexDoc<K>, r: IndexDoc<K>, key: K, file: K, b: K, f: K)
    requires Ok(d) && Gapless(r.files) && WithEntry(d, r, key, file)
    ensures Names(r, b, f) <==> if b == key then f == file else Names(d, b, f)
  {
    if b in d.blocks && b != key && f in r.files && f !in d.files {
      assert f == file && r.files[f] == |d.files|;
    }
  }

  lemma AppendNames<K(!new)>(d: IndexDoc<K>, r: IndexDoc<K>, key: K, file: K)
    requires Ok(d) && Gapless(r.files) && |d.files| <= |r.files| && WithEntry(d, r, key, file)
    ensures AppendedTo(d, r, key, file)
  {
    AppendKeys(d, r, key, file);
    forall b, f
      ensures Names(r, b, f) <==> if b == key then f == file else Names(d, b, f)
    {
      AppendNamesAt(d, r, key, file, b, f);
    }
  }

  class IndexInfo<K(==, !new)> {
    var fileIndex: map<K, nat>
    var indexFile: map<nat, K>
    var blockIndex: map<K, nat>

    constructor ()
      ensures Doc() == IndexDoc(map[], map[]) && indexFile == map[]
    {
      fileIndex, indexFile, blockIndex := map[], map[], map[];
    }

    ghost function Doc(): IndexDoc<K>
      reads this
    {
      IndexDoc(fileIndex, blockIndex)
    }

    method Append(block: K, file: K)
      requires Ok(Doc())
      modifies this
      ensures AppendedTo(old(Doc()), Doc(), block, file) && WithEntry(old(Doc()), Doc(), block, file)
      ensures indexFile == old(indexFile)
    {
      ghost var before := fileIndex;
      if file !in fileIndex {
        fileIndex := fileIndex[file := |fileIndex|];
        OneMore(before, file);
      }
      blockIndex := blockIndex[block := fileIndex[file]];
      AppendNames(old(Doc()), Doc(), block, file);
    }

    method MergeFrom(rhv: IndexInfo<K>)
      requires rhv != this
      modifies this
      ensures Doc() == Merged(old(Doc()), old(rhv.Doc())) && indexFile == old(indexFile)
    {
      var dataFileNum := |fileIndex|;
      fileIndex := MergeInto(fileIndex, rhv.fileIndex, dataFileNum);
      blockIndex := MergeInto(blockIndex, rhv.blockIndex, dataFileNum);
    }

    /** Looks a number up in the inverse of the numbering, which is built when there is none yet and never again. */
    method FileNameByIndex(index: nat) returns (file: Option<K>)
      modifies this`indexFile
      ensures old(indexFile) != map[] ==> indexFile == old(indexFile)
      ensures old(indexFile) == map[] ==> Inverts(fileIndex, indexFile)
      ensures file == if index in indexFile then Some(indexFile[index]) else None
    {
      if indexFile == map[] {
        indexFile := Invert(fileIndex);
      }
      file := if index in indexFile then Some(indexFile[index]) else None;
    }

    /** Reads a written index; block names are mapped back through the checkpoint's name map. */
    method Deserialize(d: IndexDoc<K>, names: map<K, K>)
      requires Doc() == IndexDoc(map[], map[])
      modifies this
      ensures fileIndex == d.files && ReadThrough(d.blocks, names, blockIndex) && indexFile == old(indexFile)
    {
      fileIndex := d.files;
      var todo := d.blocks.Keys;
      while todo != {}
        invariant todo <= d.blocks.Keys && fileIndex == d.files && indexFile == old(indexFile)
        invariant forall b :: b in d.blocks && b !in todo ==> Rename(names, b) in blockIndex
        invariant forall k :: k in blockIndex ==>
                    exists b :: b in d.blocks && Rename(names, b) == k && blockIndex[k] == d.blocks[b]
        decreases todo
      {
        var b :| b in todo;
        blockIndex := blockIndex[Rename(names, b) := d.blocks[b]];
        todo := todo - {b};
      }
    }
  }

  method MergeInto<K>(a: map<K, nat>, b: map<K, nat>, shift: nat) returns (m: map<K, nat>)
    ensures m == Over(a, b, shift)
  {
    m := a;
    var todo := b.Keys;
    while todo != {}
      invariant todo <= b.Keys && m.Keys == a.Keys + (b.Keys - todo)
      invariant forall k :: k in m ==> m[k] == if k in b && k !in todo then b[k] + shift else a[k]
      decreases todo
    {
      var k :| k in todo;
      m := m[k := b[k] + shift];
      todo := todo - {k};
    }
  }

  /** Every number leads to a file that has it, and every file's number leads somewhere. */
  ghost predicate Inverts<K>(files: map<K, nat>, names: map<nat, K>) {
    && (forall f :: f in files ==> files[f] in names)
    && forall i :: i in names ==> names[i] in files && files[names[i]] == i
  }

  /** Over numbers without gaps the inverse leads from each of them to the one file that has it. */
  lemma InverseIsExact<K>(files: map<K, nat>, names: map<nat, K>, i: nat)
    requires Gapless(files) && Inverts(files, names)
    ensures i in names <==> i < |files|
    ensures forall f :: f in files && files[f] == i ==> i in names && names[i] == f
  {
    if i < |files| {
      assert Numbered(files, i);
    }
  }

  /** A kept inverse outlives the appending of a block with every answer still right, but it is complete afterwards
      exactly when the block went to a file it knew: a new file's number is not found. */
  lemma KeptInverse<K(!new)>(d: IndexDoc<K>, r: IndexDoc<K>, key: K, file: K, names: map<nat, K>)
    requires Ok(d) && WithEntry(d, r, key, file) && Inverts(d.files, names)
    ensures forall i :: i in names ==> names[i] in r.files && r.files[names[i]] == i
    ensures Inverts(r.files, names) <==> file in d.files
    ensures file !in d.files ==> r.files[file] !in names
  {
    if file !in d.files {
      InverseIsExact(d.files, names, |d.files|);
      assert file in r.files;
    }
  }

  method Invert<K>(files: map<K, nat>) returns (names: map<nat, K>)
    ensures Inverts(files, names)
  {
    names := map[];
    var todo := files.Keys;
    while todo != {}
      invariant todo <= files.Keys
      invariant forall f :: f in files && f !in todo ==> files[f] in names
      invariant forall i :: i in names ==> names[i] in files && files[names[i]] == i
      decreases todo
    {
      var f :| f in todo;
      names := names[files[f] := f];
      todo := todo - {f};
    }
  }
}
