/** A table file: a size header, the padded description of the blocks, then their bytes one after another. */
module TableFiles {
  import opened BlockNames
  import opened Collections
  import opened IndexInfos
  import opened OutputBuffers
  import opened SaveBundles

  /** What a block writes: bytes as they are, or rows of `width` bytes each, written in batches. */
  datatype Payload = Whole(bytes: seq<byte>) | Rows(rows: seq<seq<byte>>, width: nat)

  /** A block under the name its file describes it by. */
  datatype TableBlock = TableBlock(key: string, data: Payload)

  ghost predicate Sound(p: Payload) {
    p.Rows? ==> forall i :: 0 <= i < |p.rows| ==> |p.rows[i]| == p.width
  }

  function Bytes(p: Payload): seq<byte> {
    match p
    case Whole(bytes) => bytes
    case Rows(rows, _) => Flatten(rows)
  }

  /** The size a block declares before it writes. */
  function Declared(p: Payload): nat {
    match p
    case Whole(bytes) => |bytes|
    case Rows(rows, width) => |rows| * width
  }

  lemma DeclaredIsWritten(p: Payload)
    requires Sound(p)
    ensures |Bytes(p)| == Declared(p)
  {
    if p.Rows? {
      FlattenSize(p.rows);
      EvenStarts(p.rows, p.width, |p.rows|);
    }
  }

  /** Position `pos` of a file holds `x`. */
  ghost predicate ByteAt(file: seq<byte>, pos: int, x: byte) {
    0 <= pos < |file| && file[pos] == x
  }

  /** From `begin` on, every byte is at its place: byte `b` of row `row` is `row` widths and `b` bytes further on. */
  ghost predicate Laid(file: seq<byte>, begin: nat, p: Payload) {
    match p
    case Whole(bytes) => forall b :: 0 <= b < |bytes| ==> ByteAt(file, begin + b, bytes[b])
    case Rows(rows, width) =>
      forall row, b :: 0 <= row < |rows| && 0 <= b < |rows[row]| ==> ByteAt(file, begin + row * width + b, rows[row][b])
  }

  lemma RowByte(rows: seq<seq<byte>>, width: nat, file: seq<byte>, begin: nat, row: nat, b: nat, at: int)
    requires at == row * width + b && row < |rows| && b < width && forall i :: 0 <= i < |rows| ==> |rows[i]| == width
    requires begin + |Flatten(rows)| <= |file| && file[begin..begin + |Flatten(rows)|] == Flatten(rows)
    ensures ByteAt(file, begin + at, rows[row][b])
  {
    FlattenCell(rows, width, row, b);
    InSlice(file, begin, Flatten(rows), at);
  }

  lemma InSlice(file: seq<byte>, begin: nat, bytes: seq<byte>, at: int)
    requires begin + |bytes| <= |file| && file[begin..begin + |bytes|] == bytes && 0 <= at < |bytes|
    ensures ByteAt(file, begin + at, bytes[at])
  {
    assert file[begin..begin + |bytes|][at] == bytes[at];
  }

  lemma Positions(p: Payload, file: seq<byte>, begin: nat)
    requires Sound(p) && begin + |Bytes(p)| <= |file| && file[begin..begin + |Bytes(p)|] == Bytes(p)
    ensures Laid(file, begin, p)
  {
    match p
    case Whole(bytes) =>
      forall b | 0 <= b < |bytes|
        ensures ByteAt(file, begin + b, bytes[b])
      {
        InSlice(file, begin, bytes, b);
      }
    case Rows(rows, width) =>
      forall row, b | 0 <= row < |rows| && 0 <= b < |rows[row]|
        ensures ByteAt(file, begin + row * width + b, rows[row][b])
      {
        RowByte(rows, width, file, begin, row, b, row * width + b);
      }
  }

  lemma NextBatch(rows: seq<seq<byte>>, beg: nat, end: nat)
    requires beg <= end <= |rows|
    ensures Flatten(rows[..end]) == Flatten(rows[..beg]) + Flatten(rows[beg..end])
  {
    FlattenSplit(rows[..beg], rows[beg..end]);
    assert rows[..beg] + rows[beg..end] == rows[..end];
  }

  method WriteBatch(file: FileOutputBuffer, rows: seq<seq<byte>>, beg: nat, end: nat, ghost start: seq<byte>)
    requires file.Valid() && file.buffer.Length > 0 && beg <= end <= |rows|
    requires file.Contents() == start + Flatten(rows[..beg])
    modifies file, file.buffer
    ensures file.Valid() && file.Contents() == start + Flatten(rows[..end])
  {
    NextBatch(rows, beg, end);
    file.Append(Flatten(rows[beg..end]));
  }

  method WriteData(file: FileOutputBuffer, p: Payload, batch: nat)
    requires file.Valid() && file.buffer.Length > 0 && batch > 0
    modifies file, file.buffer
    ensures file.Valid() && file.Contents() == old(file.Contents()) + Bytes(p)
    ensures Sound(p) ==> |file.Contents()| == |old(file.Contents())| + Declared(p)
    ensures Sound(p) ==> Laid(file.Contents(), |old(file.Contents())|, p)
  {
    WriteAll(file, p, batch);
    if Sound(p) {
      DeclaredIsWritten(p);
      Positions(p, file.Contents(), |old(file.Contents())|);
    }
  }

  method WriteAll(file: FileOutputBuffer, p: Payload, batch: nat)
    requires file.Valid() && file.buffer.Length > 0 && batch > 0
    modifies file, file.buffer
    ensures file.Valid() && file.Contents() == old(file.Contents()) + Bytes(p)
  {
    if p.Whole? {
      file.Append(p.bytes);
      return;
    }
    var beg := 0;
    ghost var start, written := file.Contents(), 0;
    while beg < |p.rows|
      invariant file.Valid() && written == if beg < |p.rows| then beg else |p.rows|
      invariant file.Contents() == start + Flatten(p.rows[..written])
    {
      var end := if beg + batch < |p.rows| then beg + batch else |p.rows|;
      WriteBatch(file, p.rows, beg, end, start);
      beg, written := beg + batch, end;
    }
    assert p.rows[..|p.rows|] == p.rows;
  }

  // ---------------------------------------------------------------------------------------------------------

  datatype Range = Range(begin: nat, end: nat)

  type Meta = map<string, Range>

  /** Where the data of block `i` starts, counted from the first data byte. */
  function Start(blocks: seq<TableBlock>, i: nat): nat
    requires i <= |blocks|
  {
    if i == 0 then 0 else Start(blocks, i - 1) + Declared(blocks[i - 1].data)
  }

  function MetaKeys(blocks: seq<TableBlock>): (ks: seq<string>)
    ensures |ks| == |blocks| && forall i :: 0 <= i < |ks| ==> ks[i] == blocks[i].key
  {
    seq(|blocks|, i requires 0 <= i < |blocks| => blocks[i].key)
  }

  /** The first `n` blocks under their names; a repeated name describes its last block. */
  function Described<K>(keys: seq<K>, blocks: seq<TableBlock>, n: nat): map<K, Range>
    requires n <= |blocks| == |keys|
  {
    if n == 0 then map[]
    else Described(keys, blocks, n - 1)[keys[n - 1] := Range(Start(blocks, n - 1), Start(blocks, n))]
  }

  function MetaOf(blocks: seq<TableBlock>, n: nat): Meta
    requires n <= |blocks|
  {
    Described(MetaKeys(blocks), blocks, n)
  }

  function AllBytes(blocks: seq<TableBlock>, n: nat): seq<byte>
    requires n <= |blocks|
  {
    if n == 0 then [] else AllBytes(blocks, n - 1) + Bytes(blocks[n - 1].data)
  }

  lemma {:induction false} AllBytesSize(blocks: seq<TableBlock>, n: nat)
    requires n <= |blocks| && forall i :: 0 <= i < |blocks| ==> Sound(blocks[i].data)
    ensures |AllBytes(blocks, n)| == Start(blocks, n)
  {
    if n > 0 {
      AllBytesSize(blocks, n - 1);
      DeclaredIsWritten(blocks[n - 1].data);
    }
  }

  lemma {:induction false} AllBytesPrefix(blocks: seq<TableBlock>, m: nat, n: nat)
    requires m <= n <= |blocks|
    ensures AllBytes(blocks, m) <= AllBytes(blocks, n)
  {
    if m < n {
      AllBytesPrefix(blocks, m, n - 1);
    }
  }

  lemma MiddleOf(a: seq<byte>, b: seq<byte>, whole: seq<byte>, lo: nat, hi: nat)
    requires a + b <= whole && lo == |a| && hi == |a| + |b|
    ensures lo <= hi <= |whole| && whole[lo..hi] == b
  {
  }

  lemma NextBytes(blocks: seq<TableBlock>, i: nat)
    requires i < |blocks| && forall k :: 0 <= k < |blocks| ==> Sound(blocks[k].data)
    ensures |AllBytes(blocks, i)| == Start(blocks, i)
    ensures Start(blocks, i + 1) == Start(blocks, i) + |Bytes(blocks[i].data)|
    ensures AllBytes(blocks, i + 1) == AllBytes(blocks, i) + Bytes(blocks[i].data)
  {
    AllBytesSize(blocks, i);
    DeclaredIsWritten(blocks[i].data);
  }

  /** Block `i` occupies exactly its range of the data; ranges follow each other without gap or overlap. */
  lemma BlockBytes(blocks: seq<TableBlock>, n: nat, i: nat)
    requires i < n <= |blocks| && forall k :: 0 <= k < |blocks| ==> Sound(blocks[k].data)
    ensures Start(blocks, i) <= Start(blocks, i + 1) <= |AllBytes(blocks, n)|
    ensures AllBytes(blocks, n)[Start(blocks, i)..Start(blocks, i + 1)] == Bytes(blocks[i].data)
  {
    NextBytes(blocks, i);
    AllBytesPrefix(blocks, i + 1, n);
    MiddleOf(AllBytes(blocks, i), Bytes(blocks[i].data), AllBytes(blocks, n), Start(blocks, i), Start(blocks, i + 1));
  }

  lemma {:induction false} DescribedAt<K(!new)>(keys: seq<K>, blocks: seq<TableBlock>, n: nat, i: nat)
    requires i < n <= |blocks| == |keys| && Distinct(keys)
    ensures keys[i] in Described(keys, blocks, n)
    ensures Described(keys, blocks, n)[keys[i]] == Range(Start(blocks, i), Start(blocks, i + 1))
  {
    if i < n - 1 {
      DescribedAt(keys, blocks, n - 1, i);
    }
  }

  lemma {:induction false} DescribedOnly<K>(keys: seq<K>, blocks: seq<TableBlock>, n: nat, k: K)
    requires n <= |blocks| == |keys| && k in Described(keys, blocks, n)
    ensures exists i :: 0 <= i < n && keys[i] == k
  {
    if n > 0 && k != keys[n - 1] {
      DescribedOnly(keys, blocks, n - 1, k);
    }
  }

  // ---------------------------------------------------------------------------------------------------------
  // The header: the size of the description as eight bytes, low byte first.

  /** The low `k` bytes of a number. */
  function Word(n: nat, k: nat): (s: seq<byte>)
    ensures |s| == k
  {
    if k == 0 then [] else [n % 256] + Word(n / 256, k - 1)
  }

  function WordValue(s: seq<byte>): nat {
    if s == [] then 0 else s[0] + 256 * WordValue(s[1..])
  }

  function Pow256(k: nat): nat {
    if k == 0 then 1 else 256 * Pow256(k - 1)
  }

  lemma WordSize()
    ensures Pow256(8) == 0x1_0000_0000_0000_0000
  {
    assert Pow256(2) == 0x1_0000 && Pow256(4) == 0x1_0000_0000 && Pow256(6) == 0x1_0000_0000_0000;
  }

  lemma {:induction false} WordRoundTrip(n: nat, k: nat)
    requires n < Pow256(k)
    ensures WordValue(Word(n, k)) == n
  {
    if k > 0 {
      WordRoundTrip(n / 256, k - 1);
      assert Word(n, k)[1..] == Word(n / 256, k - 1);
    }
  }

  lemma WordExample()
    ensures Word(0x10203, 8) == [3, 2, 1, 0, 0, 0, 0, 0] && WordValue([3, 2, 1, 0, 0, 0, 0, 0]) == 0x10203
  {
    assert Word(0, 4) == [0, 0, 0, 0] && Word(0, 5) == [0] + Word(0, 4);
    assert Word(1, 6) == [1] + Word(0, 5);
    assert Word(0x102, 7) == [2] + Word(1, 6);
    WordRoundTrip(0x10203, 8);
  }

  function Spaces(n: nat): (s: seq<byte>)
    ensures |s| == n && forall i :: 0 <= i < n ==> s[i] == 0x20
  {
    seq(n, i => 32)
  }

  /** Padding brings the description to a multiple of eight; a size that already is one gets eight more. */
  function Padding(size: nat): (n: nat)
    ensures 1 <= n <= 8 && (size + n) % 8 == 0
  {
    8 - size % 8
  }

  function MetaText(encode: Meta -> seq<byte>, blocks: seq<TableBlock>): seq<byte> {
    var text := encode(MetaOf(blocks, |blocks|));
    text + Spaces(Padding(|text|))
  }

  function Header(encode: Meta -> seq<byte>, blocks: seq<TableBlock>): seq<byte> {
    Word(|MetaText(encode, blocks)|, 8) + MetaText(encode, blocks)
  }

  function Layout(encode: Meta -> seq<byte>, blocks: seq<TableBlock>): seq<byte> {
    Header(encode, blocks) + AllBytes(blocks, |blocks|)
  }

  class TableWriter {
    var blocks: seq<TableBlock>
    var dataOffset: nat

    constructor ()
      ensures blocks == [] && dataOffset == 0
    {
      blocks, dataOffset := [], 0;
    }

    method AppendWriteBlock(info: Block, data: Payload)
      modifies this
      ensures blocks == old(blocks) + [TableBlock(MetaKey(info), data)] && dataOffset == old(dataOffset)
    {
      blocks := blocks + [TableBlock(MetaKey(info), data)];
    }

    /** Describes the blocks, threading the running offset through them. */
    method Describe() returns (meta: Meta)
      requires dataOffset == 0
      modifies this`dataOffset
      ensures dataOffset == Start(blocks, |blocks|) && meta == MetaOf(blocks, |blocks|)
    {
      meta := map[];
      ghost var keys := MetaKeys(blocks);
      for i := 0 to |blocks|
        invariant dataOffset == Start(blocks, i) && meta == Described(keys, blocks, i)
      {
        var end := dataOffset + Declared(blocks[i].data);
        meta := meta[blocks[i].key := Range(dataOffset, end)];
        dataOffset := end;
      }
    }

    /** Writes header and padded description. */
    method SaveMeta(file: FileOutputBuffer, encode: Meta -> seq<byte>)
      requires file.Valid() && file.buffer.Length > 0 && dataOffset == 0
      modifies this`dataOffset, file, file.buffer
      ensures file.Valid() && dataOffset == Start(blocks, |blocks|)
      ensures file.Contents() == old(file.Contents()) + Header(encode, blocks)
    {
      var meta := Describe();
      var text := encode(meta);
      var appendSize := 8 - |text| % 8;
      text := text + Spaces(appendSize);
      assert text == MetaText(encode, blocks);
      file.Append(Word(|text|, 8));
      file.Append(text);
    }

    method SaveData(file: FileOutputBuffer, batch: nat)
      requires file.Valid() && file.buffer.Length > 0 && batch > 0
      modifies file, file.buffer
      ensures file.Valid() && file.Contents() == old(file.Contents()) + AllBytes(blocks, |blocks|)
    {
      for i := 0 to |blocks|
        invariant file.Valid() && file.Contents() == old(file.Contents()) + AllBytes(blocks, i)
      {
        WriteData(file, blocks[i].data, batch);
      }
    }

    /** Writes the whole file; a writer without blocks writes none. */
    method SequentialWrite(encode: Meta -> seq<byte>, bufferSize: nat, batch: nat) returns (written: bool, file: seq<byte>)
      requires bufferSize > 0 && batch > 0 && dataOffset == 0
      modifies this`dataOffset
      ensures written <==> blocks != []
      ensures written ==> file == Layout(encode, blocks)
    {
      if blocks == [] {
        return false, [];
      }
      var out := new FileOutputBuffer(bufferSize);
      SaveMeta(out, encode);
      assert out.Contents() == Header(encode, blocks);
      SaveData(out, batch);
      out.Close();
      written, file := true, out.file;
    }
  }

  // ---------------------------------------------------------------------------------------------------------

  /** What parsing gives back: the description, whatever blanks follow it. */
  ghost predicate Parses(encode: Meta -> seq<byte>, decode: seq<byte> -> Meta) {
    forall m: Meta, n: nat :: decode(encode(m) + Spaces(n)) == m
  }

  function Shifted<K>(m: map<K, Range>, shift: nat): (r: map<K, Range>)
    ensures r.Keys == m.Keys
  {
    map k | k in m :: Range(m[k].begin + shift, m[k].end + shift)
  }

  class TableReader {
    var offset: nat
    var blockInfos: Meta

    constructor ()
      ensures offset == 8 && blockInfos == map[]
    {
      offset, blockInfos := 8, map[];
    }

    /** Reads the description and moves every range behind header and description. */
    method LoadMeta(file: seq<byte>, decode: seq<byte> -> Meta, names: map<string, string>)
      requires offset == 8 && blockInfos == map[] && |file| >= 8 && 8 + WordValue(file[..8]) <= |file|
      modifies this
      ensures var size := WordValue(file[..8]);
              offset == 8 + size && ReadThrough(Shifted(decode(file[8..8 + size]), 8 + size), names, blockInfos)
    {
      var metaSize := WordValue(file[..8]);
      var json := decode(file[offset..offset + metaSize]);
      offset := offset + metaSize;
      ghost var all := Shifted(json, offset);
      var todo := json.Keys;
      while todo != {}
        invariant todo <= json.Keys && offset == 8 + metaSize
        invariant forall k :: k in json && k !in todo ==> Rename(names, k) in blockInfos
        invariant forall k :: k in blockInfos ==> exists b :: b in all && Rename(names, b) == k && blockInfos[k] == all[b]
        decreases todo
      {
        var k :| k in todo;
        blockInfos := blockInfos[Rename(names, k) := Range(json[k].begin + offset, json[k].end + offset)];
        todo := todo - {k};
      }
    }
  }

  /** Renaming keeps names apart. */
  ghost predicate RenamedApart<K(!new)>(keys: seq<K>, names: map<K, K>) {
    forall i, j :: 0 <= i < j < |keys| ==> Rename(names, keys[i]) != Rename(names, keys[j])
  }

  lemma LayoutParts(encode: Meta -> seq<byte>, decode: seq<byte> -> Meta, blocks: seq<TableBlock>)
    requires Parses(encode, decode) && |MetaText(encode, blocks)| < 0x1_0000_0000_0000_0000
    ensures var file, size := Layout(encode, blocks), |MetaText(encode, blocks)|;
            && |file| >= 8 + size && WordValue(file[..8]) == size
            && decode(file[8..8 + size]) == MetaOf(blocks, |blocks|) && file[8 + size..] == AllBytes(blocks, |blocks|)
  {
    var file, text := Layout(encode, blocks), MetaText(encode, blocks);
    WordSize();
    WordRoundTrip(|text|, 8);
    assert file[..8] == Word(|text|, 8) && file[8..8 + |text|] == text;
    assert text == encode(MetaOf(blocks, |blocks|)) + Spaces(Padding(|encode(MetaOf(blocks, |blocks|))|));
  }

  lemma InfoOf<K(!new)>(keys: seq<K>, blocks: seq<TableBlock>, names: map<K, K>, infos: map<K, Range>, shift: nat, i: nat)
    requires i < |blocks| == |keys| && RenamedApart(keys, names)
    requires ReadThrough(Shifted(Described(keys, blocks, |blocks|), shift), names, infos)
    ensures var key := Rename(names, keys[i]);
            key in infos && infos[key] == Range(Start(blocks, i) + shift, Start(blocks, i + 1) + shift)
  {
    var n := |blocks|;
    DescribedAt(keys, blocks, n, i);
    var key, all := Rename(names, keys[i]), Shifted(Described(keys, blocks, n), shift);
    assert keys[i] in all && key in infos;
    var b :| b in all && Rename(names, b) == key && infos[key] == all[b];
    DescribedOnly(keys, blocks, n, b);
    var j :| 0 <= j < n && keys[j] == b;
    assert i == j;
  }

  /** The bytes of a file in a range. */
  ghost predicate Spans(file: seq<byte>, r: Range, bytes: seq<byte>) {
    r.begin <= r.end <= |file| && file[r.begin..r.end] == bytes
  }

  /** The range known under `key` holds exactly `bytes`. */
  ghost predicate HoldsBytes(file: seq<byte>, infos: Meta, key: string, bytes: seq<byte>) {
    key in infos && Spans(file, infos[key], bytes)
  }

  /** A range that holds the bytes of a block has its size, and every byte at its place. */
  lemma HeldPositions(file: seq<byte>, infos: Meta, key: string, p: Payload)
    requires Sound(p) && HoldsBytes(file, infos, key, Bytes(p))
    ensures infos[key].end == infos[key].begin + Declared(p)
    ensures Laid(file, infos[key].begin, p)
  {
    DeclaredIsWritten(p);
    assert |file[infos[key].begin..infos[key].end]| == |Bytes(p)|;
    Positions(p, file, infos[key].begin);
  }

  /** The range a reader computes for a block of a file holds exactly the bytes that block wrote: byte `b` of row `row`
      is `row` widths and `b` bytes behind its begin. */
  lemma ReadsBack(encode: Meta -> seq<byte>, decode: seq<byte> -> Meta, blocks: seq<TableBlock>,
                  names: map<string, string>, infos: Meta, i: nat)
    requires Parses(encode, decode) && |MetaText(encode, blocks)| < 0x1_0000_0000_0000_0000 && i < |blocks|
    requires (forall k :: 0 <= k < |blocks| ==> Sound(blocks[k].data)) && RenamedApart(MetaKeys(blocks), names)
    requires var file, size := Layout(encode, blocks), |MetaText(encode, blocks)|;
             |file| >= 8 + size && ReadThrough(Shifted(decode(file[8..8 + size]), 8 + size), names, infos)
    ensures HoldsBytes(Layout(encode, blocks), infos, Rename(names, blocks[i].key), Bytes(blocks[i].data))
    ensures var r := infos[Rename(names, blocks[i].key)];
            r.end == r.begin + Declared(blocks[i].data) && Laid(Layout(encode, blocks), r.begin, blocks[i].data)
  {
    var shift := 8 + |MetaText(encode, blocks)|;
    LayoutParts(encode, decode, blocks);
    InfoAt(blocks, names, MetaOf(blocks, |blocks|), infos, shift, i);
    RangeHolds(blocks, Layout(encode, blocks), infos, Rename(names, blocks[i].key), shift, i);
    HeldPositions(Layout(encode, blocks), infos, Rename(names, blocks[i].key), blocks[i].data);
  }

  lemma RangeHolds(blocks: seq<TableBlock>, file: seq<byte>, infos: Meta, key: string, shift: nat, i: nat)
    requires (forall k :: 0 <= k < |blocks| ==> Sound(blocks[k].data)) && i < |blocks|
    requires shift <= |file| && file[shift..] == AllBytes(blocks, |blocks|)
    requires key in infos && infos[key] == Range(Start(blocks, i) + shift, Start(blocks, i + 1) + shift)
    ensures HoldsBytes(file, infos, key, Bytes(blocks[i].data))
  {
    BytesBehind(blocks, file, shift, i);
  }

  lemma InfoAt(blocks: seq<TableBlock>, names: map<string, string>, all: Meta, infos: Meta, shift: nat, i: nat)
    requires i < |blocks| && RenamedApart(MetaKeys(blocks), names)
    requires all == Described(MetaKeys(blocks), blocks, |blocks|) && ReadThrough(Shifted(all, shift), names, infos)
    ensures var key := Rename(names, blocks[i].key);
            key in infos && infos[key] == Range(Start(blocks, i) + shift, Start(blocks, i + 1) + shift)
  {
    InfoOf(MetaKeys(blocks), blocks, names, infos, shift, i);
  }

  lemma BytesBehind(blocks: seq<TableBlock>, file: seq<byte>, shift: nat, i: nat)
    requires (forall k :: 0 <= k < |blocks| ==> Sound(blocks[k].data)) && i < |blocks|
    requires shift <= |file| && file[shift..] == AllBytes(blocks, |blocks|)
    ensures Spans(file, Range(Start(blocks, i) + shift, Start(blocks, i + 1) + shift), Bytes(blocks[i].data))
  {
    BlockBytes(blocks, |blocks|, i);
    SliceBehind(file, shift, Start(blocks, i), Start(blocks, i + 1));
  }

  lemma SliceBehind(file: seq<byte>, shift: nat, a: nat, b: nat)
    requires a <= b && shift + b <= |file|
    ensures file[shift..][a..b] == file[a + shift..b + shift]
  {
  }

  /** Under the name the index gives it, a block is found in its file exactly when index and file agree on that name;
      so a dense tensor whose name contains "/part_" is saved but cannot be found again. */
  lemma FoundByIndexName(blocks: seq<TableBlock>, i: nat, b: Block, shard: nat, shardNum: nat)
    requires i < |blocks| && blocks[i].key == MetaKey(Stored(b, shard, shardNum))
    requires forall j :: 0 <= j < |blocks| && j != i ==> blocks[j].key != Key(Stored(b, shard, shardNum))
    ensures Key(Stored(b, shard, shardNum)) in MetaOf(blocks, |blocks|) <==> !b.dense || !Contains(b.name, "/part_")
  {
    var key := Key(Stored(b, shard, shardNum));
    NamesAgree(b, shard, shardNum);
    DescribedHas(MetaKeys(blocks), blocks, |blocks|, i);
    if key in MetaOf(blocks, |blocks|) {
      DescribedOnly(MetaKeys(blocks), blocks, |blocks|, key);
    }
  }

  lemma {:induction false} DescribedHas<K>(keys: seq<K>, blocks: seq<TableBlock>, n: nat, i: nat)
    requires i < n <= |blocks| == |keys|
    ensures keys[i] in Described(keys, blocks, n)
  {
    if i < n - 1 {
      DescribedHas(keys, blocks, n - 1, i);
    }
  }
}
