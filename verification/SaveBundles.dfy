/** `SaveBundle`: one shard deals its blocks to the table writers and indexes where each one goes. */
module SaveBundles {
  import opened BlockedArray
  import opened Collections
  import opened Decimals
  import opened IndexInfos

  /** A block as the saver hands it over: a table's ids or slot rows (`dense` false), or a dense tensor. */
  datatype Block = Block(name: string, slice: string, dense: bool)

  function BlockNameEncode(tensor: string, slice: string, sep: string): string {
    tensor + sep + slice
  }

  /** Replaces the first `@` by a dot. */
  function DotForAt(s: string): string {
    if s == [] then [] else if s[0] == '@' then "." + s[1..] else [s[0]] + DotForAt(s[1..])
  }

  ghost predicate FirstAt(s: string, k: nat) {
    k < |s| && s[k] == '@' && '@' !in s[..k]
  }

  lemma {:induction false} SomeFirst(s: string)
    requires '@' in s
    ensures exists k: nat :: FirstAt(s, k)
  {
    if s[0] == '@' {
      assert FirstAt(s, 0);
    } else {
      assert s == [s[0]] + s[1..];
      SomeFirst(s[1..]);
      var k: nat :| FirstAt(s[1..], k);
      assert s[..k + 1] == [s[0]] + s[1..][..k];
      assert FirstAt(s, k + 1);
    }
  }

  lemma FirstInRest(s: string, k: nat)
    requires FirstAt(s, k) && k > 0
    ensures s[0] != '@' && FirstAt(s[1..], k - 1)
  {
    assert s[..k] == [s[0]] + s[1..][..k - 1];
  }

  /** One character changes at most: the first `@`. */
  lemma {:induction false} DotPlace(s: string)
    ensures |DotForAt(s)| == |s|
    ensures '@' !in s ==> DotForAt(s) == s
    ensures forall k: nat :: FirstAt(s, k) ==> DotForAt(s) == s[k := '.']
  {
    if s != [] && s[0] != '@' {
      DotPlace(s[1..]);
      assert s == [s[0]] + s[1..];
      forall k: nat | FirstAt(s, k)
        ensures DotForAt(s) == s[k := '.']
      {
        FirstInRest(s, k);
      }
    }
  }

  /** `b` is `a` with its first `@` exchanged for a later dot, and no other `@` before that: "u@x.y" and "u.x@y". */
  ghost predicate MovedAt(a: string, b: string, i: nat, j: nat) {
    FirstAt(a, i) && i < j < |a| && a[j] == '.' && '@' !in a[i + 1..j] && b == a[i := '.'][j := '@']
  }

  ghost predicate AtMoved(a: string, b: string) {
    exists i: nat, j: nat :: MovedAt(a, b, i, j)
  }

  lemma MovedAlike(a: string, b: string, i: nat, j: nat)
    requires MovedAt(a, b, i, j)
    ensures DotForAt(a) == DotForAt(b)
  {
    forall m | 0 <= m < j
      ensures b[m] != '@'
    {
      assert m < i ==> a[..i][m] == a[m];
      assert i < m ==> a[i + 1..j][m - i - 1] == a[m];
    }
    assert FirstAt(b, j);
    DotPlace(a);
    DotPlace(b);
    assert b[j := '.'] == a[i := '.'];
  }

  lemma AlikeMoved(a: string, b: string, i: nat, j: nat)
    requires FirstAt(a, i) && FirstAt(b, j) && i < j && DotForAt(a) == DotForAt(b)
    ensures MovedAt(a, b, i, j)
  {
    DotPlace(a);
    DotPlace(b);
    assert a[i := '.'] == b[j := '.'];
    forall m | 0 <= m < |a| && m != i && m != j
      ensures a[m] == b[m]
    {
      assert a[i := '.'][m] == b[j := '.'][m];
    }
    assert a[j] == a[i := '.'][j] == '.' && b[i] == b[j := '.'][i] == '.';
    forall m | i + 1 <= m < j
      ensures a[m] != '@'
    {
      assert b[..j][m] == b[m];
    }
    assert b == a[i := '.'][j := '@'];
  }

  /** Two names with an `@` are stored alike exactly when they are the same or one is the other with its `@` moved. */
  lemma StoredAlike(a: string, b: string)
    requires '@' in a && '@' in b
    ensures DotForAt(a) == DotForAt(b) <==> a == b || AtMoved(a, b) || AtMoved(b, a)
  {
    DotPlace(a);
    DotPlace(b);
    if DotForAt(a) == DotForAt(b) {
      SomeFirst(a);
      SomeFirst(b);
      var i: nat :| FirstAt(a, i);
      var j: nat :| FirstAt(b, j);
      if i < j {
        AlikeMoved(a, b, i, j);
      } else if j < i {
        AlikeMoved(b, a, j, i);
      } else {
        assert a == a[i := '.'][i := '@'] && b == b[i := '.'][i := '@'];
      }
    } else if i: nat, j: nat :| MovedAt(a, b, i, j) {
      MovedAlike(a, b, i, j);
    } else if i: nat, j: nat :| MovedAt(b, a, i, j) {
      MovedAlike(b, a, i, j);
    }
  }

  function PartSuffix(shard: nat, shardNum: nat): string {
    "/part_" + Digits(shard) + "_" + Digits(shardNum)
  }

  /** A block as its writer keeps it: table blocks are renamed after their shard. */
  function Stored(b: Block, shard: nat, shardNum: nat): Block {
    if b.dense then b else b.(name := DotForAt(b.name) + PartSuffix(shard, shardNum))
  }

  /** The name under which a stored block is indexed. */
  function Key(b: Block): string {
    if b.dense then BlockNameEncode(b.name, b.slice, "^") else BlockNameEncode(b.name, "", "")
  }

  function DataFileName(position: nat, total: nat): string {
    "model-" + Padded(position, 6) + "-of-" + Padded(total, 6) + ".safetensors"
  }

  lemma KeyText(b: Block, shard: nat, shardNum: nat)
    requires !b.dense
    ensures Key(Stored(b, shard, shardNum)) == (DotForAt(b.name) + "/part_" + Digits(shard) + "_") + Digits(shardNum)
  {
    TableKey(Stored(b, shard, shardNum));
  }

  lemma SuffixesApart(x: string, y: string, s: nat, t: nat, n: nat)
    requires (x + "/part_" + Digits(s) + "_") + Digits(n) == (y + "/part_" + Digits(t) + "_") + Digits(n)
    ensures s == t
  {
    SplitAtDigits(x + "/part_" + Digits(s) + "_", y + "/part_" + Digits(t) + "_", Digits(n), Digits(n));
    CutTail(x + "/part_" + Digits(s), y + "/part_" + Digits(t), "_");
    SplitAtDigits(x + "/part_", y + "/part_", Digits(s), Digits(t));
    DigitsValue(s);
    DigitsValue(t);
  }

  /** Table blocks of different shards, or a table block and a dense one, never share a name. */
  lemma KeysApart(a: Block, s: nat, b: Block, t: nat, n: nat)
    requires !a.dense && s != t && (b.dense ==> b.slice == " ")
    ensures Key(Stored(a, s, n)) != Key(Stored(b, t, n))
  {
    if b.dense {
      LastChar(a, s, n);
      LastChar(b, t, n);
    } else if Key(Stored(a, s, n)) == Key(Stored(b, t, n)) {
      KeyText(a, s, n);
      KeyText(b, t, n);
      SuffixesApart(DotForAt(a.name), DotForAt(b.name), s, t, n);
    }
  }

  lemma TableKey(b: Block)
    ensures !b.dense ==> Key(b) == b.name
  {
    assert b.name + "" == b.name && b.name + "" + "" == b.name;
  }

  /** Stored names of table blocks end in a digit, those of dense tensors in a blank. */
  lemma LastChar(b: Block, shard: nat, shardNum: nat)
    ensures var k := Key(Stored(b, shard, shardNum));
            if b.dense then b.slice == " " ==> k != "" && k[|k| - 1] == ' ' else k != "" && k[|k| - 1] != ' '
  {
    var k := Key(Stored(b, shard, shardNum));
    if !b.dense {
      KeyText(b, shard, shardNum);
      var d := Digits(shardNum);
      assert k[|k| - 1] == d[|d| - 1];
    } else if b.slice == " " {
      assert k[|k| - 1] == ' ';
    }
  }

  lemma CutTail(a: string, b: string, t: string)
    requires a + t == b + t
    ensures a == b
  {
    assert |a + t| == |b + t|;
    assert (a + t)[..|a|] == a && (b + t)[..|b|] == b;
  }

  /** Data files of one checkpoint have different names. */
  lemma DataFilesApart(i: nat, j: nat, total: nat)
    requires DataFileName(i, total) == DataFileName(j, total)
    ensures i == j
  {
    var a, b := "model-" + Padded(i, 6), "model-" + Padded(j, 6);
    CutTail(a + "-of-" + Padded(total, 6), b + "-of-" + Padded(total, 6), ".safetensors");
    CutTail(a + "-of-", b + "-of-", Padded(total, 6));
    CutTail(a, b, "-of-");
    SplitAtDigits("model-", "model-", Padded(i, 6), Padded(j, 6));
    PaddedValue(i, 6);
    PaddedValue(j, 6);
  }

  lemma TableNameExample(b: Block)
    requires b == Block("u@id", "00@10@10", false)
    ensures DotForAt(b.name) == "u.id" && PartSuffix(0, 2) == "/part_0_2"
    ensures Key(Stored(b, 0, 2)) == DotForAt(b.name) + PartSuffix(0, 2)
  {
    assert FirstAt(b.name, 1);
    DotPlace(b.name);
    TableKey(Stored(b, 0, 2));
  }

  lemma NamesExample()
    ensures BlockNameEncode("user@id", "00@10@10", "^") == "user@id^00@10@10"
    ensures Key(Stored(Block("w@b", " ", true), 0, 2)) == "w@b^ "
    ensures DotForAt("u@x.y") == DotForAt("u.x@y")
  {
    assert FirstAt("u@x.y", 1) && MovedAt("u@x.y", "u.x@y", 1, 3);
    MovedAlike("u@x.y", "u.x@y", 1, 3);
  }

  lemma FileNameExample()
    ensures DataFileName(3, 3) == "model-000003-of-000003.safetensors"
  {
    PaddedExample();
  }

  /** Whose turn it is after `i` items when `parallel` writers take turns. */
  function Turn(i: nat, parallel: nat): (w: nat)
    requires parallel > 0
    ensures w < parallel
  {
    if i == 0 || Turn(i - 1, parallel) + 1 == parallel then 0 else Turn(i - 1, parallel) + 1
  }

  lemma {:induction false} TurnIsRemainder(i: nat, parallel: nat)
    requires parallel > 0
    ensures Turn(i, parallel) == i % parallel
  {
    if i > 0 {
      TurnIsRemainder(i - 1, parallel);
      NextIndex(i - 1, parallel);
    }
    SmallRemainder(Turn(i, parallel), parallel);
  }

  lemma SmallRemainder(r: nat, p: nat)
    requires p > 0
    ensures r < p ==> r % p == r
    ensures p % p == 0
  {
    DivUnique(1, 0, p);
    if r < p {
      DivUnique(0, r, p);
    }
  }

  lemma NextIndex(n: nat, p: nat)
    requires p > 0
    ensures (n + 1) % p == if n % p + 1 == p then 0 else n % p + 1
  {
    var q, r := n / p, n % p;
    assert n == q * p + r;
    if r + 1 == p {
      DivUnique(q + 1, 0, p);
      assert (q + 1) * p == n + 1;
    } else {
      DivUnique(q, r + 1, p);
    }
  }

  /** The items dealt to writer `w`. */
  function Dealt<T>(items: seq<T>, parallel: nat, w: nat): seq<T>
    requires parallel > 0
  {
    if items == [] then []
    else
      var last := |items| - 1;
      Dealt(items[..last], parallel, w) + if Turn(last, parallel) == w then [items[last]] else []
  }

  /** Dealing loses nothing: item `i` is at its writer, and a writer holds only items dealt to it. */
  lemma {:induction false} DealtAt<T>(items: seq<T>, parallel: nat, w: nat, b: T)
    requires parallel > 0
    ensures b in Dealt(items, parallel, w) <==>
            exists i :: 0 <= i < |items| && Turn(i, parallel) == w && items[i] == b
  {
    if items != [] {
      var last := |items| - 1;
      DealtAt(items[..last], parallel, w, b);
      if b in Dealt(items, parallel, w) && b in Dealt(items[..last], parallel, w) {
        var i :| 0 <= i < last && Turn(i, parallel) == w && items[..last][i] == b;
        assert items[i] == b;
      }
    }
  }

  lemma NextDealt(c: nat, w: nat, p: nat, last: nat)
    requires w < p && w + c * p >= last && (c > 0 ==> w + (c - 1) * p < last)
    ensures last % p == w <==> last == w + c * p
    ensures last == w + c * p ==> w + (c + 1) * p > last
  {
    DivUnique(c, w, p);
    assert (c + 1) * p == c * p + p;
    if last % p == w {
      var q, d: nat := last / p, if c > 0 then c - 1 else 0;
      assert last == q * p + w;
      if q <= d {
        MulMono(q, d, p);
      }
      if c <= q {
        MulMono(c, q, p);
      }
    }
  }

  /** How many items a writer has. */
  lemma {:induction false} DealtCount<T>(items: seq<T>, parallel: nat, w: nat)
    requires w < parallel
    ensures var c := |Dealt(items, parallel, w)|;
            w + c * parallel >= |items| && (c > 0 ==> w + (c - 1) * parallel < |items|)
  {
    if items != [] {
      var last := |items| - 1;
      DealtCount(items[..last], parallel, w);
      TurnIsRemainder(last, parallel);
      NextDealt(|Dealt(items[..last], parallel, w)|, w, parallel, last);
    }
  }

  /** Writer `w` has every `parallel`-th item from item `w` on, in order. */
  lemma {:induction false} DealtIndex<T>(items: seq<T>, parallel: nat, w: nat, m: nat)
    requires w < parallel && m < |Dealt(items, parallel, w)|
    ensures 0 <= w + m * parallel < |items| && Dealt(items, parallel, w)[m] == items[w + m * parallel]
  {
    var last := |items| - 1;
    var before := Dealt(items[..last], parallel, w);
    if m < |before| {
      DealtIndex(items[..last], parallel, w, m);
    } else {
      DealtCount(items[..last], parallel, w);
      TurnIsRemainder(last, parallel);
      NextDealt(|before|, w, parallel, last);
    }
  }

  lemma {:induction false} FirstTurns(i: nat, parallel: nat)
    requires i < parallel
    ensures Turn(i, parallel) == i
  {
    if i > 0 {
      FirstTurns(i - 1, parallel);
    }
  }

  /** The writers with items are the first `min(parallel, |items|)`. */
  lemma {:induction false} NonEmptyPrefix<T>(items: seq<T>, parallel: nat, w: nat)
    requires w < parallel
    ensures Dealt(items, parallel, w) != [] <==> w < |items|
  {
    if items != [] {
      var last := |items| - 1;
      NonEmptyPrefix(items[..last], parallel, w);
      if last < parallel {
        FirstTurns(last, parallel);
      }
    }
  }

  /** The last position that holds `k`, or -1. */
  function LastAt<K(==)>(keys: seq<K>, k: K): (i: int)
    ensures -1 <= i < |keys|
    ensures i >= 0 ==> keys[i] == k
    ensures forall j :: i < j < |keys| ==> keys[j] != k
  {
    if keys == [] then -1
    else if keys[|keys| - 1] == k then |keys| - 1 else LastAt(keys[..|keys| - 1], k)
  }

  lemma LastAtStep<K>(keys: seq<K>, key: K, k: K)
    ensures LastAt(keys + [key], k) == if k == key then |keys| else LastAt(keys, k)
  {
    assert (keys + [key])[..|keys|] == keys;
  }

  function Keys(blocks: seq<Block>): (ks: seq<string>)
    ensures |ks| == |blocks| && forall i :: 0 <= i < |ks| ==> ks[i] == Key(blocks[i])
  {
    seq(|blocks|, i requires 0 <= i < |blocks| => Key(blocks[i]))
  }

  /** Stored names of table blocks with the names the loader knows them by; the first block of a name counts. */
  function TensorNames(added: seq<Block>, shard: nat, shardNum: nat): map<string, string> {
    if added == [] then map[]
    else WithName(TensorNames(added[..|added| - 1], shard, shardNum), added[|added| - 1], shard, shardNum)
  }

  function WithName(m: map<string, string>, b: Block, shard: nat, shardNum: nat): map<string, string> {
    var k := Stored(b, shard, shardNum).name;
    if b.dense || k in m then m else m[k := BlockNameEncode(b.name, b.slice, "^")]
  }

  function FileNames(shard: nat, shardNum: nat, parallel: nat): (fs: seq<string>)
    ensures |fs| == parallel
  {
    NamesFrom(shard * parallel, parallel, parallel * shardNum)
  }

  function NamesFrom(first: nat, count: nat, total: nat): (fs: seq<string>)
    ensures |fs| == count && forall i :: 0 <= i < count ==> fs[i] == DataFileName(first + i, total)
  {
    seq(count, i requires 0 <= i => DataFileName(first + i, total))
  }

  lemma PositionsApart(s: nat, i: nat, t: nat, j: nat, parallel: nat)
    requires i < parallel && j < parallel && s * parallel + i == t * parallel + j
    ensures s == t && i == j
  {
    DivUnique(s, i, parallel);
    DivUnique(t, j, parallel);
  }

  /** No two writers of a checkpoint use one file. */
  lemma WritersApart(shardNum: nat, parallel: nat, s: nat, i: nat, t: nat, j: nat)
    requires i < parallel && j < parallel
    requires FileNames(s, shardNum, parallel)[i] == FileNames(t, shardNum, parallel)[j]
    ensures s == t && i == j
  {
    DataFilesApart(s * parallel + i, t * parallel + j, parallel * shardNum);
    PositionsApart(s, i, t, j, parallel);
  }

  /** File `k` of all files of a checkpoint belongs to writer `k % parallel` of shard `k / parallel`. */
  lemma FileByPosition(k: nat, shardNum: nat, parallel: nat)
    requires k < shardNum * parallel
    ensures parallel > 0 && k / parallel < shardNum
    ensures FileNames(k / parallel, shardNum, parallel)[k % parallel] == DataFileName(k, shardNum * parallel)
  {
    assert parallel > 0;
    DivInRange(k, parallel, shardNum);
    assert parallel * shardNum == shardNum * parallel;
  }

  /** What the index of one shard says: a name leads to the file of the writer its last block was dealt to,
      and the files it numbers are those of the writers with blocks. */
  ghost predicate Indexes<K(!new)>(d: IndexDoc<K>, keys: seq<K>, files: seq<K>)
    requires |files| > 0
  {
    && Ok(d) && IndexedBlocks(d, keys) && IndexedFiles(d, |keys|, files)
    && forall k, f :: Names(d, k, f) <==> SentTo(keys, files, k, f)
  }

  ghost predicate IndexedBlocks<K(!new)>(d: IndexDoc<K>, keys: seq<K>) {
    forall k :: k in d.blocks <==> LastAt(keys, k) >= 0
  }

  ghost predicate IndexedFiles<K(!new)>(d: IndexDoc<K>, n: nat, files: seq<K>) {
    forall f :: f in d.files <==> f in Used(files, n)
  }

  /** The files of the writers that have received one of `n` items. */
  function Used<K>(files: seq<K>, n: nat): seq<K> {
    if n < |files| then files[..n] else files
  }

  lemma UsedStep<K>(files: seq<K>, n: nat, f: K)
    requires |files| > 0
    ensures f in Used(files, n + 1) <==> f in Used(files, n) || f == files[Turn(n, |files|)]
  {
    if n < |files| {
      FirstTurns(n, |files|);
      assert Used(files, n + 1) == Used(files, n) + [files[n]];
    }
  }

  predicate SentTo<K(==)>(keys: seq<K>, files: seq<K>, k: K, f: K)
    requires |files| > 0
  {
    LastAt(keys, k) >= 0 && f == files[Turn(LastAt(keys, k), |files|)]
  }

  lemma FilesStep<K(!new)>(d: IndexDoc<K>, r: IndexDoc<K>, n: nat, files: seq<K>)
    requires |files| > 0 && IndexedFiles(d, n, files)
    requires r.files.Keys == d.files.Keys + {files[Turn(n, |files|)]}
    ensures IndexedFiles(r, n + 1, files)
  {
    forall f
      ensures f in r.files <==> f in Used(files, n + 1)
    {
      UsedStep(files, n, f);
    }
  }

  lemma IndexStep<K(!new)>(d: IndexDoc<K>, r: IndexDoc<K>, keys: seq<K>, key: K, files: seq<K>)
    requires |files| > 0 && Indexes(d, keys, files) && AppendedTo(d, r, key, files[Turn(|keys|, |files|)])
    ensures Indexes(r, keys + [key], files)
  {
    FilesStep(d, r, |keys|, files);
    forall k
      ensures k in r.blocks <==> LastAt(keys + [key], k) >= 0
    {
      LastAtStep(keys, key, k);
    }
    forall k, f
      ensures Names(r, k, f) <==> SentTo(keys + [key], files, k, f)
    {
      LastAtStep(keys, key, k);
      assert k != key ==> (Names(d, k, f) <==> SentTo(keys, files, k, f));
    }
  }

  ghost predicate AllStored(added: seq<Block>, shard: nat, shardNum: nat, stored: seq<Block>) {
    |stored| == |added| && forall i :: 0 <= i < |added| ==> stored[i] == Stored(added[i], shard, shardNum)
  }

  ghost predicate AllDealt(stored: seq<Block>, parallel: nat, tables: seq<seq<Block>>)
    requires parallel > 0
  {
    |tables| == parallel && forall w :: 0 <= w < parallel ==> tables[w] == Dealt(stored, parallel, w)
  }

  lemma StoredStep(added: seq<Block>, b: Block, shard: nat, shardNum: nat, stored: seq<Block>, kept: Block)
    requires AllStored(added, shard, shardNum, stored) && kept == Stored(b, shard, shardNum)
    ensures AllStored(added + [b], shard, shardNum, stored + [kept])
  {
  }

  lemma DealtStep(stored: seq<Block>, b: Block, parallel: nat, tables: seq<seq<Block>>)
    requires parallel > 0 && AllDealt(stored, parallel, tables)
    ensures AllDealt(stored + [b], parallel,
                     tables[Turn(|stored|, parallel) := tables[Turn(|stored|, parallel)] + [b]])
  {
    assert (stored + [b])[..|stored|] == stored;
  }

  lemma TensorNamesStep(added: seq<Block>, b: Block, shard: nat, shardNum: nat)
    ensures TensorNames(added + [b], shard, shardNum) == WithName(TensorNames(added, shard, shardNum), b, shard, shardNum)
  {
    assert (added + [b])[..|added|] == added;
  }

  lemma KeysStep(stored: seq<Block>, b: Block)
    ensures Keys(stored + [b]) == Keys(stored) + [Key(b)]
  {
  }

  /** Names of one shard that storing keeps apart: table blocks have different names, of which none is another with its
      `@` moved, and dense tensors have different names. */
  ghost predicate NamesApart(added: seq<Block>) {
    forall i, j :: 0 <= i < j < |added| && (added[i].dense <==> added[j].dense) ==>
      && added[i].name != added[j].name
      && (!added[i].dense ==> !AtMoved(added[i].name, added[j].name) && !AtMoved(added[j].name, added[i].name))
  }

  /** How a saver names blocks: tables and slots joined by an `@`, dense tensors under the blank slice. */
  ghost predicate Named(b: Block) {
    if b.dense then b.slice == " " else '@' in b.name
  }

  /** Two blocks of a shard are indexed under one name exactly when both are dense tensors of one name, or both belong to
      tables and storing does not tell their names apart. */
  lemma SameKey(a: Block, b: Block, shard: nat, shardNum: nat)
    requires Named(a) && Named(b)
    ensures Key(Stored(a, shard, shardNum)) == Key(Stored(b, shard, shardNum)) <==>
            && (a.dense <==> b.dense)
            && (a.name == b.name || (!a.dense && (AtMoved(a.name, b.name) || AtMoved(b.name, a.name))))
  {
    LastChar(a, shard, shardNum);
    LastChar(b, shard, shardNum);
    if a.dense && b.dense {
      if Key(a) == Key(b) {
        CutTail(a.name + "^", b.name + "^", " ");
        CutTail(a.name, b.name, "^");
      }
    } else if !a.dense && !b.dense {
      StoredAlike(a.name, b.name);
      TableKey(Stored(a, shard, shardNum));
      TableKey(Stored(b, shard, shardNum));
      if Key(Stored(a, shard, shardNum)) == Key(Stored(b, shard, shardNum)) {
        CutTail(DotForAt(a.name), DotForAt(b.name), PartSuffix(shard, shardNum));
      }
    }
  }

  /** The index of a shard keeps every block apart from the others exactly when the names handed over are apart. */
  lemma StoredApart(added: seq<Block>, shard: nat, shardNum: nat, stored: seq<Block>)
    requires AllStored(added, shard, shardNum, stored) && forall i :: 0 <= i < |added| ==> Named(added[i])
    ensures Distinct(Keys(stored)) <==> NamesApart(added)
  {
    var keys := Keys(stored);
    forall i, j | 0 <= i < j < |added|
      ensures keys[i] == keys[j] <==> Key(Stored(added[i], shard, shardNum)) == Key(Stored(added[j], shard, shardNum))
      ensures keys[i] == keys[j] <==>
              && (added[i].dense <==> added[j].dense)
              && (added[i].name == added[j].name
                  || (!added[i].dense && (AtMoved(added[i].name, added[j].name) || AtMoved(added[j].name, added[i].name))))
    {
      SameKey(added[i], added[j], shard, shardNum);
    }
  }

  /** One shard's bundle. `added` and `stored` are the blocks as handed over and as kept. */
  datatype Bundle = Bundle(added: seq<Block>, stored: seq<Block>, tableIndex: nat, tables: seq<seq<Block>>,
                           tensorNames: map<string, string>, index: IndexDoc<string>)

  ghost predicate BundleOk(b: Bundle, shard: nat, shardNum: nat, files: seq<string>) {
    && |files| > 0 && b.tableIndex == Turn(|b.added|, |files|)
    && AllStored(b.added, shard, shardNum, b.stored) && AllDealt(b.stored, |files|, b.tables)
    && b.tensorNames == TensorNames(b.added, shard, shardNum)
    && Indexes(b.index, Keys(b.stored), files)
  }

  function WithBlock(b: Bundle, x: Block, shard: nat, shardNum: nat, parallel: nat, index: IndexDoc<string>): Bundle
    requires b.tableIndex < |b.tables| && parallel > 0
  {
    var kept := Stored(x, shard, shardNum);
    Bundle(b.added + [x], b.stored + [kept], if b.tableIndex + 1 == parallel then 0 else b.tableIndex + 1,
           b.tables[b.tableIndex := b.tables[b.tableIndex] + [kept]],
           WithName(b.tensorNames, x, shard, shardNum), index)
  }

  lemma BundleStep(b: Bundle, x: Block, shard: nat, shardNum: nat, files: seq<string>, index: IndexDoc<string>)
    requires BundleOk(b, shard, shardNum, files)
    requires AppendedTo(b.index, index, Key(Stored(x, shard, shardNum)), files[b.tableIndex])
    ensures BundleOk(WithBlock(b, x, shard, shardNum, |files|, index), shard, shardNum, files)
  {
    var kept := Stored(x, shard, shardNum);
    StoredStep(b.added, x, shard, shardNum, b.stored, kept);
    IndexStep(b.index, index, Keys(b.stored), Key(kept), files);
    DealtStep(b.stored, kept, |files|, b.tables);
    TensorNamesStep(b.added, x, shard, shardNum);
    KeysStep(b.stored, kept);
  }

  class SaveBundle {
    const shardIndex: nat
    const shardNum: nat
    const parallel: nat
    const fileNames: seq<string>
    var tableIndex: nat
    var tables: seq<seq<Block>>
    var tensorNames: map<string, string>
    const index: IndexInfo<string>
    ghost var added: seq<Block>
    ghost var stored: seq<Block>

    ghost function State(): Bundle
      reads this, index
    {
      Bundle(added, stored, tableIndex, tables, tensorNames, index.Doc())
    }

    ghost predicate Valid()
      reads this, index
    {
      && |fileNames| == parallel && fileNames == FileNames(shardIndex, shardNum, parallel)
      && BundleOk(State(), shardIndex, shardNum, fileNames)
    }

    constructor (parallel: nat, shardIndex: nat, shardNum: nat)
      requires parallel > 0 && shardIndex < shardNum
      ensures Valid() && fresh(index) && added == []
      ensures this.parallel == parallel && this.shardIndex == shardIndex && this.shardNum == shardNum
    {
      this.parallel, this.shardIndex, this.shardNum := parallel, shardIndex, shardNum;
      fileNames := FileNames(shardIndex, shardNum, parallel);
      tableIndex, tables, tensorNames := 0, seq(parallel, i => []), map[];
      index := new IndexInfo();
      added, stored := [], [];
    }

    method IncTableIndex() returns (ret: nat)
      requires parallel > 0
      modifies this`tableIndex
      ensures ret == old(tableIndex)
      ensures ret < parallel ==> tableIndex == if ret + 1 == parallel then 0 else ret + 1
    {
      SmallRemainder(tableIndex + 1, parallel);
      ret := tableIndex;
      tableIndex := tableIndex + 1;
      tableIndex := tableIndex % parallel;
    }

    /** Renames a table block after this shard and remembers the name the loader asks for. */
    method KeepName(b: Block) returns (kept: Block)
      modifies this`tensorNames
      ensures kept == Stored(b, shardIndex, shardNum)
      ensures tensorNames == WithName(old(tensorNames), b, shardIndex, shardNum)
      ensures b.dense ==> kept == b
      ensures !b.dense && '@' !in b.name ==> kept.name == b.name + PartSuffix(shardIndex, shardNum)
      ensures !b.dense ==> forall k: nat :: FirstAt(b.name, k) ==>
                kept.name == b.name[k := '.'] + PartSuffix(shardIndex, shardNum)
    {
      DotPlace(b.name);
      kept := b;
      if !b.dense {
        var newName := DotForAt(b.name) + PartSuffix(shardIndex, shardNum);
        if newName !in tensorNames {
          tensorNames := tensorNames[newName := BlockNameEncode(b.name, b.slice, "^")];
        }
        kept := b.(name := newName);
      }
    }

    /** The kept block joins its table and the index. */
    method Place(b: Block, kept: Block, at: nat)
      requires at < |tables| && at < |fileNames| && Ok(index.Doc())
      modifies this`tables, this`added, this`stored, index
      ensures tables == old(tables)[at := old(tables)[at] + [kept]]
      ensures AppendedTo(old(index.Doc()), index.Doc(), Key(kept), fileNames[at])
      ensures added == old(added) + [b] && stored == old(stored) + [kept]
    {
      tables := tables[at := tables[at] + [kept]];
      index.Append(Key(kept), fileNames[at]);
      added, stored := added + [b], stored + [kept];
    }

    method AddBlock(b: Block)
      requires Valid()
      modifies this, index
      ensures Valid() && added == old(added) + [b]
    {
      PlaceNext(b);
      BundleStep(old(State()), b, shardIndex, shardNum, fileNames, index.Doc());
    }

    method PlaceNext(b: Block)
      requires |tables| == |fileNames| == parallel && tableIndex < parallel && Ok(index.Doc())
      modifies this, index
      ensures State() == WithBlock(old(State()), b, shardIndex, shardNum, parallel, index.Doc())
      ensures AppendedTo(old(index.Doc()), index.Doc(), Key(Stored(b, shardIndex, shardNum)), fileNames[old(tableIndex)])
    {
      var at := IncTableIndex();
      var kept := KeepName(b);
      Place(b, kept, at);
    }
  }
}
