/** The savers as a protocol over a file map: every shard writes, renames and merges in its own program order,
    and the shards, like the writers of one shard, interleave freely. */
module SaveProtocol {
  import opened Collections
  import opened IndexInfos

  /** A JSON document: `null`, or an object, here the names of its entries. */
  datatype Json<!K> = Null | Object(entries: set<K>)

  /** JSON Merge Patch, section 2 of RFC 7396, for documents whose entries are never null. */
  function MergePatch<K>(target: Json<K>, patch: Json<K>): Json<K> {
    match patch
    case Null => Null
    case Object(es) => if target.Object? then Object(target.entries + es) else patch
  }

  /** What one shard brings: its index, its name map, and per writer the blocks and the name of the data file. */
  datatype Share<!K> = Share(index: IndexDoc<K>, names: map<K, K>, tables: seq<seq<K>>, files: seq<K>, valid: nat)

  datatype Kind = IndexTmp | Index | NamesTmp | Names | DataTmp | Data | PartTmp | Part | RankTmp | Rank
                | FullJson | FullNames | FullIndexTmp | FullIndex

  /** A file of the checkpoint: `kind` says which, `shard` who writes it, `writer` which of its writers. */
  datatype File = File(shard: nat, writer: nat, kind: Kind)

  /** What a file holds; `Opened` is a file that exists and is still being written. */
  datatype Content<!K> = Opened | IndexText(doc: IndexDoc<K>) | NamesText(names: map<K, K>)
                       | RankText(json: Json<K>) | TableBytes(blocks: seq<K>)

  /** One saver: where its program stands, how far its writers are, which files it still waits for, and what it
      has merged so far. */
  datatype Shard<!K> = Shard(pc: nat, writers: seq<nat>, published: nat, half: bool, left: set<nat>,
                             rank: Json<K>, all: Json<K>, arrived: seq<nat>, names: map<K, K>, index: IndexDoc<K>)

  datatype State<!K> = State(files: map<File, Content<K>>, shards: seq<Shard<K>>)

  // The program of a saver. Opening, filling and renaming a file are separate steps.
  const OPEN_INDEX: nat := 0
  const OPEN_NAMES: nat := 3
  const WRITE: nat := 6
  const PUBLISH: nat := 7
  const TAKE_PARTS: nat := 8
  const OPEN_RANK: nat := 9
  const TAKE_RANKS: nat := 12
  const OPEN_JSON: nat := 13
  const TAKE_NAMES: nat := 15
  const OPEN_FULL_NAMES: nat := 16
  const TAKE_INDEXES: nat := 18
  const OPEN_FULL_INDEX: nat := 19
  const DONE: nat := 22

  /** Where a shard's program ends: only shard 0 merges. */
  function Last(s: nat): nat {
    if s == 0 then DONE else TAKE_RANKS
  }

  datatype Step = Advance(s: nat) | Write(s: nat, w: nat) | Publish(s: nat) | Take(s: nat, i: nat)

  predicate Opens(pc: nat) {
    pc == OPEN_INDEX || pc == OPEN_NAMES || pc == OPEN_RANK || pc == OPEN_JSON || pc == OPEN_FULL_NAMES || pc == OPEN_FULL_INDEX
  }

  predicate Fills(pc: nat) {
    pc > 0 && Opens(pc - 1)
  }

  predicate Renames(pc: nat) {
    pc == OPEN_INDEX + 2 || pc == OPEN_NAMES + 2 || pc == OPEN_RANK + 2 || pc == OPEN_FULL_INDEX + 2
  }

  predicate Takes(pc: nat) {
    pc == TAKE_PARTS || pc == TAKE_RANKS || pc == TAKE_NAMES || pc == TAKE_INDEXES
  }

  /** The file a shard opens, fills or renames at `pc`. */
  function Target(pc: nat): Kind {
    if pc < OPEN_NAMES then IndexTmp else if pc < WRITE then NamesTmp else if pc < TAKE_RANKS then RankTmp
    else if pc < TAKE_NAMES then FullJson else if pc < TAKE_INDEXES then FullNames else FullIndexTmp
  }

  /** Its name after renaming. */
  function Final(pc: nat): Kind {
    if pc < OPEN_NAMES then Index else if pc < WRITE then Names else if pc < TAKE_RANKS then Rank else FullIndex
  }

  function Text<K>(p: Share<K>, sh: Shard<K>): Content<K> {
    if sh.pc < OPEN_NAMES then IndexText(p.index) else if sh.pc < WRITE then NamesText(p.names)
    else if sh.pc < TAKE_RANKS then RankText(sh.rank) else if sh.pc < TAKE_NAMES then RankText(sh.all)
    else if sh.pc < TAKE_INDEXES then NamesText(sh.names) else IndexText(sh.index)
  }

  /** The file a merge loop at `pc` waits for. */
  function Source(pc: nat, s: nat, i: nat): File {
    if pc == TAKE_PARTS then File(s, i, Part)
    else File(i, 0, if pc == TAKE_RANKS then Rank else if pc == TAKE_NAMES then Names else Index)
  }

  /** A merge loop can parse what it reads. */
  predicate Readable<K>(pc: nat, text: Content<K>) {
    if pc == TAKE_NAMES then text.NamesText? else if pc == TAKE_INDEXES then text.IndexText? else text.RankText?
  }

  predicate WritersDone<K>(p: Share<K>, sh: Shard<K>) {
    |sh.writers| == |p.tables| && forall w :: 0 <= w < |p.tables| ==> p.tables[w] == [] || sh.writers[w] == 4
  }

  /** Merge loops take what they find. The first rank document is shard 0's own: it is there when the loop starts, and
      every pass over the names starts with it. */
  predicate Can<K>(c: seq<Share<K>>, st: State<K>, a: Step) {
    && a.s < |c| == |st.shards|
    && var sh := st.shards[a.s];
       match a
       case Advance(s) =>
         && sh.pc < DONE && (sh.pc == TAKE_RANKS ==> s == 0)
         && (Renames(sh.pc) ==> File(s, 0, Target(sh.pc)) in st.files)
         && (sh.pc == WRITE ==> WritersDone(c[s], sh))
         && (sh.pc == PUBLISH ==> sh.published == c[s].valid)
         && (Takes(sh.pc) ==> sh.left == {})
       case Write(s, w) =>
         sh.pc == WRITE && w < |c[s].tables| && w < |sh.writers| && c[s].tables[w] != [] && sh.writers[w] < 4
       case Publish(s) =>
         && sh.pc == PUBLISH && sh.published < c[s].valid
         && File(s, sh.published, if sh.half then PartTmp else DataTmp) in st.files
       case Take(s, i) =>
         && Takes(sh.pc) && (sh.pc == TAKE_RANKS ==> s == 0) && i in sh.left && Source(sh.pc, s, i) in st.files
         && Readable(sh.pc, st.files[Source(sh.pc, s, i)])
         && (sh.pc == TAKE_RANKS && sh.arrived == [] ==> i == 0)
  }

  function Renamed<K>(files: map<File, Content<K>>, src: File, dst: File): map<File, Content<K>>
    requires src in files
  {
    (files - {src})[dst := files[src]]
  }

  /** Entering a merge loop. */
  function Waiting(pc: nat, valid: nat, n: nat): set<nat> {
    if pc == TAKE_PARTS then UpTo(valid)
    else if pc == TAKE_RANKS || pc == TAKE_NAMES || pc == TAKE_INDEXES then UpTo(n) else {}
  }

  function Do<K>(c: seq<Share<K>>, st: State<K>, a: Step): State<K>
    requires Can(c, st, a)
  {
    var s, sh, p := a.s, st.shards[a.s], c[a.s];
    match a
    case Advance(_) =>
      var here := File(s, 0, Target(sh.pc));
      var files := if Opens(sh.pc) then st.files[here := Opened]
                   else if Fills(sh.pc) then st.files[here := Text(p, sh)]
                   else if Renames(sh.pc) then Renamed(st.files, here, File(s, 0, Final(sh.pc)))
                   else st.files;
      State(files, st.shards[s := sh.(pc := sh.pc + 1, left := Waiting(sh.pc + 1, p.valid, |c|))])
    case Write(_, w) =>
      var step := sh.writers[w];
      var files := if step == 0 then st.files[File(s, w, DataTmp) := Opened]
                   else if step == 1 then st.files[File(s, w, PartTmp) := Opened]
                   else if step == 2 then st.files[File(s, w, PartTmp) := RankText(Object(Elems(p.tables[w])))]
                   else st.files[File(s, w, DataTmp) := TableBytes(p.tables[w])];
      State(files, st.shards[s := sh.(writers := sh.writers[w := step + 1])])
    case Publish(_) =>
      var w := sh.published;
      if !sh.half then
        State(Renamed(st.files, File(s, w, DataTmp), File(s, w, Data)), st.shards[s := sh.(half := true)])
      else
        State(Renamed(st.files, File(s, w, PartTmp), File(s, w, Part)), st.shards[s := sh.(half := false, published := w + 1)])
    case Take(_, i) =>
      var src := Source(sh.pc, s, i);
      State(st.files - {src}, st.shards[s := Merge(sh, i, st.files[src])])
  }

  /** Folds one consumed file into what the shard has merged. */
  function Merge<K>(sh: Shard<K>, i: nat, text: Content<K>): Shard<K>
    requires Takes(sh.pc) && Readable(sh.pc, text)
  {
    var r := sh.(left := sh.left - {i});
    if sh.pc == TAKE_PARTS then r.(rank := MergePatch(sh.rank, text.json))
    else if sh.pc == TAKE_RANKS then r.(all := MergePatch(sh.all, text.json), arrived := sh.arrived + [i])
    else if sh.pc == TAKE_NAMES then r.(names := sh.names + text.names)
    else r.(index := Merged(sh.index, text.doc))
  }

  function Start<K>(c: seq<Share<K>>): State<K> {
    State(map[], seq(|c|, s requires 0 <= s < |c| =>
      Shard(OPEN_INDEX, seq(|c[s].tables|, i => 0), 0, false, {}, Null, Null, [], map[], IndexDoc(map[], map[]))))
  }

  // ---------------------------------------------------------------------------------------------------------
  // What the savers bring.

  /** One shard's share is sound: the writers with blocks come first, and its index sends exactly its blocks to
      the files of their writers. */
  ghost predicate ShareOk<K(!new)>(p: Share<K>) {
    && |p.tables| == |p.files| && p.valid <= |p.tables|
    && (forall w :: 0 <= w < |p.tables| ==> (p.tables[w] != [] <==> w < p.valid))
    && Ok(p.index)
    && (forall f :: f in p.index.files <==> f in p.files[..p.valid])
    && (forall k, f :: IndexInfos.Names(p.index, k, f) <==> HeldAt(p, k, f))
  }

  /** Block `k` is in the data file `f`. */
  ghost predicate HeldAt<K>(p: Share<K>, k: K, f: K)
    requires |p.tables| == |p.files|
  {
    exists w: nat :: w < |p.tables| && k in p.tables[w] && f == p.files[w]
  }

  /** No two shards use one file name, one block name, or one entry of the name map. */
  ghost predicate SharesApart<K(!new)>(c: seq<Share<K>>) {
    forall s, t :: 0 <= s < |c| && 0 <= t < |c| && s != t ==>
      Disjoint(c[s].index.files, c[t].index.files) && Disjoint(c[s].index.blocks, c[t].index.blocks)
      && c[s].names.Keys !! c[t].names.Keys
  }

  ghost predicate SaversOk<K(!new)>(c: seq<Share<K>>) {
    |c| > 0 && (forall s :: 0 <= s < |c| ==> ShareOk(c[s])) && SharesApart(c)
  }

  // ---------------------------------------------------------------------------------------------------------
  // The invariant: the file map is a function of where the shards stand.

  /** Of `total` files a merge loop at stage `stage` consumes, those not yet consumed. */
  function LeftAt<K>(sh: Shard<K>, stage: nat, total: nat): set<nat> {
    if sh.pc < stage then UpTo(total) else if sh.pc == stage then sh.left else {}
  }

  function Temporary<K>(sh: Shard<K>, open: nat, text: Content<K>): Option<Content<K>> {
    if sh.pc == open + 1 then Some(Opened) else if sh.pc == open + 2 then Some(text) else None
  }

  predicate DataOut<K>(sh: Shard<K>, w: nat) {
    sh.pc > PUBLISH || (sh.pc == PUBLISH && (w < sh.published || (w == sh.published && sh.half)))
  }

  predicate PartOut<K>(sh: Shard<K>, w: nat) {
    sh.pc > PUBLISH || (sh.pc == PUBLISH && w < sh.published)
  }

  /** What a shard has written under a name, not counting what shard 0 has consumed since. */
  function Own<K>(p: Share<K>, sh: Shard<K>, w: nat, kind: Kind): Option<Content<K>> {
    match kind
    case DataTmp =>
      if w >= p.valid || w >= |p.tables| || w >= |sh.writers| || sh.writers[w] == 0 || DataOut(sh, w) then None
      else Some(if sh.writers[w] < 4 then Opened else TableBytes(p.tables[w]))
    case Data =>
      if w < p.valid && w < |p.tables| && DataOut(sh, w) then Some(TableBytes(p.tables[w])) else None
    case PartTmp =>
      if w >= p.valid || w >= |p.tables| || w >= |sh.writers| || sh.writers[w] <= 1 || PartOut(sh, w) then None
      else Some(if sh.writers[w] == 2 then Opened else RankText(Object(Elems(p.tables[w]))))
    case Part =>
      if w < p.valid && w < |p.tables| && PartOut(sh, w) && w in LeftAt(sh, TAKE_PARTS, p.valid)
      then Some(RankText(Object(Elems(p.tables[w])))) else None
    case _ => if w == 0 then OwnSingle(p, sh, kind) else None
  }

  function OwnSingle<K>(p: Share<K>, sh: Shard<K>, kind: Kind): Option<Content<K>> {
    match kind
    case IndexTmp => Temporary(sh, OPEN_INDEX, IndexText(p.index))
    case Index => if sh.pc >= OPEN_NAMES then Some(IndexText(p.index)) else None
    case NamesTmp => Temporary(sh, OPEN_NAMES, NamesText(p.names))
    case Names => if sh.pc >= WRITE then Some(NamesText(p.names)) else None
    case RankTmp => Temporary(sh, OPEN_RANK, RankText(sh.rank))
    case Rank => if sh.pc >= TAKE_RANKS then Some(RankText(sh.rank)) else None
    case FullJson =>
      if sh.pc > OPEN_JSON + 1 then Some(RankText(sh.all)) else if sh.pc == OPEN_JSON + 1 then Some(Opened) else None
    case FullNames =>
      if sh.pc > OPEN_FULL_NAMES + 1 then Some(NamesText(sh.names))
      else if sh.pc == OPEN_FULL_NAMES + 1 then Some(Opened) else None
    case FullIndexTmp => Temporary(sh, OPEN_FULL_INDEX, IndexText(sh.index))
    case FullIndex => if sh.pc >= DONE then Some(IndexText(sh.index)) else None
    case _ => None
  }

  /** Shard 0 has consumed the file `kind` of shard `s`. */
  predicate Consumed<K>(zero: Shard<K>, n: nat, s: nat, kind: Kind) {
    match kind
    case Rank => s !in LeftAt(zero, TAKE_RANKS, n)
    case Names => s !in LeftAt(zero, TAKE_NAMES, n)
    case Index => s !in LeftAt(zero, TAKE_INDEXES, n)
    case _ => false
  }

  function Expect<K>(c: seq<Share<K>>, shards: seq<Shard<K>>, f: File): Option<Content<K>>
    requires |c| == |shards| > 0
  {
    if f.shard >= |c| || Consumed(shards[0], |c|, f.shard, f.kind) then None
    else Own(c[f.shard], shards[f.shard], f.writer, f.kind)
  }

  function Look<K>(files: map<File, Content<K>>, f: File): Option<Content<K>> {
    if f in files then Some(files[f]) else None
  }

  ghost predicate FilesOk<K>(c: seq<Share<K>>, st: State<K>)
    requires |c| == |st.shards| > 0
  {
    forall f :: Look(st.files, f) == Expect(c, st.shards, f)
  }

  ghost predicate ShardOk<K>(p: Share<K>, s: nat, sh: Shard<K>, n: nat) {
    && sh.pc <= Last(s) && |sh.writers| == |p.tables|
    && (forall w :: 0 <= w < |sh.writers| ==> sh.writers[w] <= 4 && (p.tables[w] == [] ==> sh.writers[w] == 0))
    && (sh.pc > WRITE ==> WritersDone(p, sh)) && (sh.pc < WRITE ==> forall w :: 0 <= w < |sh.writers| ==> sh.writers[w] == 0)
    && sh.published <= p.valid && (sh.half ==> sh.published < p.valid && sh.pc == PUBLISH)
    && (sh.pc < PUBLISH ==> sh.published == 0) && (sh.pc > PUBLISH ==> sh.published == p.valid)
    && sh.left <= Waiting(sh.pc, p.valid, n)
  }
}
