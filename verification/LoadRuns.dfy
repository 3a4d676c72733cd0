/** A whole load: every chunk of every saved piece, in any order, then the rows nobody owns. */
module LoadRuns {
  import opened ChildIds
  import opened Collections
  import opened HashTables
  import opened IdMapping
  import opened LoadTables
  import opened Slices
  import opened SlotGroups
  import opened Words

  /** What is loaded where: the saved pieces, the slice of the target, and its children. */
  datatype Job = Job(pieces: seq<Piece>, slice: Slice, coalesce: bool, children: seq<string>)

  /** What goes into a coalesced table was masked to 52 bits when it was saved, or the low bits alone decide who owns it;
      a piece without slots is refused before. */
  ghost predicate JobOk(job: Job, slotNum: nat) {
    && job.slice.size > 0 && ValidChildren(job.children, job.coalesce)
    && forall c :: 0 <= c < |job.pieces| ==>
         && Fits(job.pieces[c], slotNum) && job.pieces[c].slots != [] && job.pieces[c].child in job.children
         && (job.coalesce && ID_SPAN % job.slice.size != 0 ==>
               forall p :: 0 <= p < |job.pieces[c].ids| ==> 0 <= job.pieces[c].ids[p] < ID_SPAN)
  }

  function Child(job: Job, c: nat): (i: nat)
    requires c < |job.pieces| && job.pieces[c].child in job.children
    ensures i < |job.children|
  {
    ChildIndex(job.children, job.pieces[c].child)
  }

  /** The target owns entry `p` of piece `c`. */
  ghost predicate Takes(job: Job, c: nat, p: nat)
    requires job.slice.size > 0
  {
    c < |job.pieces| && p < |job.pieces[c].ids| && Accepts(job.slice, job.pieces[c].ids[p])
  }

  /** The id it is stored under. */
  ghost function KeyAt(job: Job, c: nat, p: nat): int64
    requires c < |job.pieces| && p < |job.pieces[c].ids| && job.pieces[c].child in job.children
    requires |job.children| < 0x8000_0000
  {
    KeyOf(job.pieces[c].ids[p], job.coalesce, Child(job, c))
  }

  ghost predicate FromPiece(job: Job, slotNum: nat, id: int64)
    requires JobOk(job, slotNum)
  {
    exists c: nat, p: nat :: Takes(job, c, p) && KeyAt(job, c, p) == id
  }

  /** No entry was saved twice. */
  ghost predicate KeysApart(job: Job, slotNum: nat)
    requires JobOk(job, slotNum)
  {
    forall c: nat, p: nat, d: nat, q: nat ::
      Takes(job, c, p) && Takes(job, d, q) && KeyAt(job, c, p) == KeyAt(job, d, q) ==> c == d && p == q
  }

  /** A row that no id owns: slots being loaded get unfilled memory in new blocks. */
  ghost function Spare(t0: Table, swapped: set<nat>, j: nat, k: nat): Row
    requires j < |t0.rows| == |t0.inits|
  {
    if j in swapped && k >= |t0.rows[j]| then Uninit else t0.inits[j]
  }

  ghost predicate Shape(t0: Table, t: Table, swapped: set<nat>) {
    && t0.Ok() && t.Ok() && |t.rows| == |t0.rows| && t0.cur <= t.cur && FreshLive(t0, t)
    && (forall j: nat :: j < |t0.rows| ==>
          t.inits[j] == (if j in swapped then Uninit else t0.inits[j]) && |t0.rows[j]| <= |t.rows[j]|)
    && forall id :: id in t0.ids ==> id in t.ids && t.ids[id] == t0.ids[id]
  }

  /** Ids the table had before and that are not loaded keep their rows. */
  ghost predicate OldRows(t0: Table, t: Table, job: Job, slotNum: nat)
    requires t0.Ok() && t.Ok() && |t.rows| == |t0.rows| && JobOk(job, slotNum)
  {
    forall j: nat, id :: j < |t0.rows| && id in t0.ids && id in t.ids && !FromPiece(job, slotNum, id) ==>
      t.rows[j][t.ids[id]] == t0.rows[j][t0.ids[id]]
  }

  ghost predicate SpareRows(t0: Table, t: Table, swapped: set<nat>)
    requires |t0.inits| == |t0.rows| == |t.rows|
  {
    forall j: nat, k: nat :: j < |t.rows| && k < |t.rows[j]| && k !in Live(t.ids) ==>
      t.rows[j][k] == Spare(t0, swapped, j, k)
  }

  /** Slots a piece has no rows for: a newly admitted id gets what was in the row. */
  ghost predicate OtherSlots(t0: Table, t: Table, swapped: set<nat>, job: Job, slotNum: nat)
    requires t0.Ok() && t.Ok() && |t.rows| == |t0.rows| && JobOk(job, slotNum)
  {
    forall c: nat, p: nat, j: nat ::
      Takes(job, c, p) && KeyAt(job, c, p) in t.ids && KeyAt(job, c, p) !in t0.ids && j < |t.rows| && j !in job.pieces[c].slots ==>
        t.rows[j][t.ids[KeyAt(job, c, p)]] == Spare(t0, swapped, j, t.ids[KeyAt(job, c, p)])
  }

  /** Entry `p` of piece `c` is in the table, with its row in every slot the piece has. */
  ghost predicate Holds(t: Table, job: Job, slotNum: nat, c: nat, p: nat)
    requires t.Ok() && JobOk(job, slotNum) && |t.rows| == slotNum && Takes(job, c, p)
  {
    && KeyAt(job, c, p) in t.ids
    && forall m :: 0 <= m < |job.pieces[c].slots| ==>
         t.rows[job.pieces[c].slots[m]][t.ids[KeyAt(job, c, p)]] == job.pieces[c].rows[m][p]
  }

  ghost predicate OnlyPieces(t0: Table, t: Table, job: Job, slotNum: nat)
    requires JobOk(job, slotNum)
  {
    forall id :: id in t.ids ==> id in t0.ids || FromPiece(job, slotNum, id)
  }

  datatype Work = Work(piece: nat, beg: nat, num: nat)

  ghost predicate InWork(w: Work, c: nat, p: nat) {
    w.piece == c && w.beg <= p < w.beg + w.num
  }

  ghost predicate WorkOk(job: Job, w: Work) {
    w.piece < |job.pieces| && w.beg + w.num <= |job.pieces[w.piece].ids| && 0 < w.num < 0x8000_0000
  }

  ghost predicate LoadInv(t0: Table, t: Table, swapped: set<nat>, job: Job) {
    && JobOk(job, |t0.rows|) && Shape(t0, t, swapped) && OldRows(t0, t, job, |t0.rows|) && SpareRows(t0, t, swapped)
    && OtherSlots(t0, t, swapped, job, |t0.rows|) && OnlyPieces(t0, t, job, |t0.rows|)
  }

  // ---------------------------------------------------------------------------------------------------------
  // One chunk.

  lemma EncodedApart(a: int64, b: int64, child: nat)
    requires 0 <= a < ID_SPAN && 0 <= b < ID_SPAN && child < MAX_CHILDREN && EncodeId(a, child) == b
    ensures a == b
  {
    IdRoundTrip(a, child);
    assert IdPart(b) == b;
  }

  lemma EntryFirst(job: Job, slotNum: nat, w: Work, k: nat, i: nat)
    requires JobOk(job, slotNum) && KeysApart(job, slotNum) && WorkOk(job, w) && k < i < w.num
    requires Accepts(job.slice, job.pieces[w.piece].ids[w.beg + i])
    ensures var ids := job.pieces[w.piece].ids[w.beg..w.beg + w.num];
            var keys := Keys(ids, job.slice, job.coalesce, Child(job, w.piece));
            keys[k] != keys[i]
  {
    var c := w.piece;
    var ids := job.pieces[c].ids[w.beg..w.beg + w.num];
    var keys := Keys(ids, job.slice, job.coalesce, Child(job, c));
    assert Takes(job, c, w.beg + i) && KeyAt(job, c, w.beg + i) == keys[i];
    if Accepts(job.slice, ids[k]) {
      assert Takes(job, c, w.beg + k) && KeyAt(job, c, w.beg + k) == keys[k];
    } else if keys[k] == keys[i] && job.coalesce {
      if ID_SPAN % job.slice.size == 0 {
        EncodeKeepsResidue(ids[i], Child(job, c), job.slice.size);
      } else {
        EncodedApart(ids[i], ids[k], Child(job, c));
      }
    }
  }

  /** In a chunk nothing is dropped as a duplicate: exactly the accepted ids are kept. */
  lemma KeepsAccepted(job: Job, slotNum: nat, w: Work)
    requires JobOk(job, slotNum) && KeysApart(job, slotNum) && WorkOk(job, w)
    ensures var ids := job.pieces[w.piece].ids[w.beg..w.beg + w.num];
            FirstOnly(Keys(ids, job.slice, job.coalesce, Child(job, w.piece)), Accepted(ids, job.slice)) == Accepted(ids, job.slice)
  {
    var ids := job.pieces[w.piece].ids[w.beg..w.beg + w.num];
    var keys, accept := Keys(ids, job.slice, job.coalesce, Child(job, w.piece)), Accepted(ids, job.slice);
    forall i | 0 <= i < |ids| && accept[i]
      ensures keys[i] !in keys[..i]
    {
      forall k | 0 <= k < i
        ensures keys[k] != keys[i]
      {
        EntryFirst(job, slotNum, w, k, i);
      }
    }
  }

  /** The chunk's view of one step: ids in, rows in. */
  ghost predicate WorkStep(t: Table, after: Table, job: Job, w: Work)
    requires JobOk(job, |t.rows|) && WorkOk(job, w)
  {
    ChunkDid(t, after, job.pieces[w.piece], job.slice, job.coalesce, Child(job, w.piece), w.beg, w.num)
  }

  ghost predicate AddedBy(job: Job, slotNum: nat, w: Work, id: int64)
    requires JobOk(job, slotNum) && WorkOk(job, w)
  {
    exists p: nat :: InWork(w, w.piece, p) && Takes(job, w.piece, p) && KeyAt(job, w.piece, p) == id
  }

  /** Position `i` of a chunk is entry `w.beg + i` of its piece. */
  lemma ChunkEntry(job: Job, slotNum: nat, w: Work, i: nat)
    requires JobOk(job, slotNum) && WorkOk(job, w) && i < w.num
    ensures var ids := job.pieces[w.piece].ids[w.beg..w.beg + w.num];
            && (Accepted(ids, job.slice)[i] <==> Takes(job, w.piece, w.beg + i))
            && (Accepted(ids, job.slice)[i] ==>
                  Keys(ids, job.slice, job.coalesce, Child(job, w.piece))[i] == KeyAt(job, w.piece, w.beg + i))
  {
  }

  lemma EntryAdded(job: Job, slotNum: nat, w: Work, i: nat)
    requires JobOk(job, slotNum) && WorkOk(job, w) && i < w.num
    requires Accepted(job.pieces[w.piece].ids[w.beg..w.beg + w.num], job.slice)[i]
    ensures AddedBy(job, slotNum, w,
                    Keys(job.pieces[w.piece].ids[w.beg..w.beg + w.num], job.slice, job.coalesce, Child(job, w.piece))[i])
  {
    ChunkEntry(job, slotNum, w, i);
    assert InWork(w, w.piece, w.beg + i);
  }

  lemma AddedEntry(job: Job, slotNum: nat, w: Work, id: int64) returns (i: nat)
    requires JobOk(job, slotNum) && WorkOk(job, w) && AddedBy(job, slotNum, w, id)
    ensures i < w.num && Accepted(job.pieces[w.piece].ids[w.beg..w.beg + w.num], job.slice)[i]
    ensures Keys(job.pieces[w.piece].ids[w.beg..w.beg + w.num], job.slice, job.coalesce, Child(job, w.piece))[i] == id
  {
    var p: nat :| InWork(w, w.piece, p) && Takes(job, w.piece, p) && KeyAt(job, w.piece, p) == id;
    i := p - w.beg;
    ChunkEntry(job, slotNum, w, i);
  }

  lemma SelectedEntries(job: Job, slotNum: nat, w: Work, id: int64)
    requires JobOk(job, slotNum) && WorkOk(job, w)
    ensures var ids := job.pieces[w.piece].ids[w.beg..w.beg + w.num];
            id in Selected(Keys(ids, job.slice, job.coalesce, Child(job, w.piece)), Accepted(ids, job.slice)) <==>
            AddedBy(job, slotNum, w, id)
  {
    var ids := job.pieces[w.piece].ids[w.beg..w.beg + w.num];
    var keys, accept := Keys(ids, job.slice, job.coalesce, Child(job, w.piece)), Accepted(ids, job.slice);
    SelectedOnly(keys, accept, id);
    if AddedBy(job, slotNum, w, id) {
      var i := AddedEntry(job, slotNum, w, id);
    } else if i :| 0 <= i < |keys| && accept[i] && keys[i] == id {
      EntryAdded(job, slotNum, w, i);
    }
  }

  /** The ids a chunk adds. */
  lemma WorkIds(t: Table, after: Table, job: Job, w: Work, id: int64)
    requires JobOk(job, |t.rows|) && KeysApart(job, |t.rows|) && WorkOk(job, w) && WorkStep(t, after, job, w)
    ensures id in after.ids <==> id in t.ids || AddedBy(job, |t.rows|, w, id)
  {
    var ids := job.pieces[w.piece].ids[w.beg..w.beg + w.num];
    KeepsAccepted(job, |t.rows|, w);
    SelectedEntries(job, |t.rows|, w, id);
    assert id in Elems(Selected(Keys(ids, job.slice, job.coalesce, Child(job, w.piece)), Accepted(ids, job.slice))) <==>
           AddedBy(job, |t.rows|, w, id);
  }

  /** Row `k` is one the chunk writes. */
  ghost predicate WrittenBy(after: Table, job: Job, w: Work, k: nat)
    requires JobOk(job, |after.rows|) && WorkOk(job, w)
  {
    exists p: nat :: InWork(w, w.piece, p) && Takes(job, w.piece, p) && KeyAt(job, w.piece, p) in after.ids
                     && after.ids[KeyAt(job, w.piece, p)] == k
  }

  lemma WrittenEntries(after: Table, job: Job, w: Work, k: nat)
    requires JobOk(job, |after.rows|) && WorkOk(job, w)
    ensures var ids := job.pieces[w.piece].ids[w.beg..w.beg + w.num];
            WrittenAt(after, Keys(ids, job.slice, job.coalesce, Child(job, w.piece)), Accepted(ids, job.slice), k) ==>
            WrittenBy(after, job, w, k)
  {
    var c := w.piece;
    var ids := job.pieces[c].ids[w.beg..w.beg + w.num];
    var keys, accept := Keys(ids, job.slice, job.coalesce, Child(job, c)), Accepted(ids, job.slice);
    if i :| 0 <= i < |keys| && accept[i] && keys[i] in after.ids && after.ids[keys[i]] == k {
      assert InWork(w, c, w.beg + i) && Takes(job, c, w.beg + i) && KeyAt(job, c, w.beg + i) == keys[i];
    }
  }

  /** Rows a chunk does not write stay, or are what new blocks start with. */
  lemma WorkKeeps(t: Table, after: Table, job: Job, w: Work, j: nat, k: nat)
    requires JobOk(job, |t.rows|) && KeysApart(job, |t.rows|) && WorkOk(job, w) && WorkStep(t, after, job, w)
    requires j < |t.rows| && |after.rows| == |t.rows| && k < |after.rows[j]|
    requires !WrittenBy(after, job, w, k) || j !in job.pieces[w.piece].slots
    ensures |t.rows[j]| <= |after.rows[j]|
    ensures after.rows[j][k] == if k < |t.rows[j]| then t.rows[j][k] else t.inits[j]
  {
    KeepsAccepted(job, |t.rows|, w);
    WrittenEntries(after, job, w, k);
    if m :| 0 <= m < |job.pieces[w.piece].slots| && job.pieces[w.piece].slots[m] == j {
      assert job.pieces[w.piece].slots[m] < |t.rows|;
    }
  }

  lemma LandedRow(t: Table, after: Table, keys: seq<int64>, kept: seq<bool>, slots: seq<nat>, rows: seq<seq<Row>>,
                  m: nat, i: nat)
    requires |kept| == |keys| && |rows| == |slots| && forall n :: 0 <= n < |rows| ==> |rows[n]| == |keys|
    requires ChunkStep(t, after, keys, kept, slots, rows) && |after.rows| == |t.rows|
    requires m < |slots| && slots[m] < |t.rows| && i < |keys| && kept[i] && keys[i] in after.ids
    ensures after.rows[slots[m]][after.ids[keys[i]]] == rows[m][i]
  {
    assert Landed(t.rows[slots[m]], after.rows[slots[m]], t.inits[slots[m]], after, keys, kept, rows[m]);
  }

  function ChunkKeys(job: Job, w: Work): (ks: seq<int64>)
    requires job.slice.size > 0 && |job.children| < 0x8000_0000 && w.piece < |job.pieces|
    requires job.pieces[w.piece].child in job.children && w.beg + w.num <= |job.pieces[w.piece].ids|
    ensures |ks| == w.num
  {
    Keys(job.pieces[w.piece].ids[w.beg..w.beg + w.num], job.slice, job.coalesce, Child(job, w.piece))
  }

  function ChunkFlags(job: Job, w: Work): (r: seq<bool>)
    requires job.slice.size > 0 && w.piece < |job.pieces| && w.beg + w.num <= |job.pieces[w.piece].ids|
    ensures |r| == w.num
  {
    Accepted(job.pieces[w.piece].ids[w.beg..w.beg + w.num], job.slice)
  }

  lemma EntryFlag(job: Job, slotNum: nat, w: Work, i: nat)
    requires JobOk(job, slotNum) && WorkOk(job, w) && i < w.num && Takes(job, w.piece, w.beg + i)
    ensures ChunkFlags(job, w)[i] && ChunkKeys(job, w)[i] == KeyAt(job, w.piece, w.beg + i)
  {
    ChunkEntry(job, slotNum, w, i);
  }

  lemma PlainStep(t: Table, after: Table, job: Job, w: Work)
    requires JobOk(job, |t.rows|) && KeysApart(job, |t.rows|) && WorkOk(job, w) && WorkStep(t, after, job, w)
    ensures var p := job.pieces[w.piece];
            ChunkStep(t, after, ChunkKeys(job, w), ChunkFlags(job, w), p.slots, Sliced(p.rows, w.beg, w.num))
  {
    KeepsAccepted(job, |t.rows|, w);
  }

  lemma PieceFits(job: Job, slotNum: nat, w: Work)
    requires JobOk(job, slotNum) && WorkOk(job, w)
    ensures var p := job.pieces[w.piece];
            && |p.rows| == |p.slots| && (forall m :: 0 <= m < |p.slots| ==> p.slots[m] < slotNum)
            && forall m :: 0 <= m < |p.rows| ==> w.beg + w.num <= |p.rows[m]|
  {
  }

  /** What landing means for the entry at position `i` of a chunk. */
  lemma LandedAt(t: Table, after: Table, keys: seq<int64>, flags: seq<bool>, p: Piece, beg: nat, num: nat, i: nat, m: nat,
                 id: int64)
    requires |flags| == |keys| == num && |p.rows| == |p.slots| && forall n :: 0 <= n < |p.rows| ==> beg + num <= |p.rows[n]|
    requires ChunkStep(t, after, keys, flags, p.slots, Sliced(p.rows, beg, num)) && after.Ok() && |after.rows| == |t.rows|
    requires m < |p.slots| && p.slots[m] < |t.rows| && i < num && flags[i] && keys[i] == id && id in after.ids
    ensures after.rows[p.slots[m]][after.ids[id]] == p.rows[m][beg + i]
  {
    LandedRow(t, after, keys, flags, p.slots, Sliced(p.rows, beg, num), m, i);
  }

  lemma AllLanded(t: Table, after: Table, keys: seq<int64>, flags: seq<bool>, p: Piece, beg: nat, num: nat, i: nat, id: int64)
    requires |flags| == |keys| == num && |p.rows| == |p.slots| && forall n :: 0 <= n < |p.rows| ==> beg + num <= |p.rows[n]|
    requires ChunkStep(t, after, keys, flags, p.slots, Sliced(p.rows, beg, num)) && after.Ok() && |after.rows| == |t.rows|
    requires (forall m :: 0 <= m < |p.slots| ==> p.slots[m] < |t.rows|) && i < num && flags[i] && keys[i] == id && id in after.ids
    ensures forall m :: 0 <= m < |p.slots| ==> after.rows[p.slots[m]][after.ids[id]] == p.rows[m][beg + i]
  {
    forall m | 0 <= m < |p.slots|
      ensures after.rows[p.slots[m]][after.ids[id]] == p.rows[m][beg + i]
    {
      LandedAt(t, after, keys, flags, p, beg, num, i, m, id);
    }
  }

  lemma EntryIn(t: Table, after: Table, job: Job, w: Work, p: nat)
    requires JobOk(job, |t.rows|) && KeysApart(job, |t.rows|) && WorkOk(job, w) && WorkStep(t, after, job, w)
    requires InWork(w, w.piece, p) && Takes(job, w.piece, p)
    ensures KeyAt(job, w.piece, p) in after.ids
  {
    assert AddedBy(job, |t.rows|, w, KeyAt(job, w.piece, p));
    WorkIds(t, after, job, w, KeyAt(job, w.piece, p));
  }

  lemma LandedHolds(t: Table, after: Table, job: Job, w: Work, p: nat)
    requires JobOk(job, |t.rows|) && WorkOk(job, w) && after.Ok() && |after.rows| == |t.rows|
    requires ChunkStep(t, after, ChunkKeys(job, w), ChunkFlags(job, w), job.pieces[w.piece].slots,
                       Sliced(job.pieces[w.piece].rows, w.beg, w.num))
    requires InWork(w, w.piece, p) && Takes(job, w.piece, p) && KeyAt(job, w.piece, p) in after.ids
    ensures Holds(after, job, |t.rows|, w.piece, p)
  {
    var i: nat := p - w.beg;
    EntryFlag(job, |t.rows|, w, i);
    PieceFits(job, |t.rows|, w);
    AllLanded(t, after, ChunkKeys(job, w), ChunkFlags(job, w), job.pieces[w.piece], w.beg, w.num, i, KeyAt(job, w.piece, p));
  }

  /** The entries of a chunk are in place after it. */
  lemma WorkHolds(t: Table, after: Table, job: Job, w: Work, p: nat)
    requires JobOk(job, |t.rows|) && KeysApart(job, |t.rows|) && WorkOk(job, w) && WorkStep(t, after, job, w)
    requires after.Ok() && |after.rows| == |t.rows| && InWork(w, w.piece, p) && Takes(job, w.piece, p)
    ensures Holds(after, job, |t.rows|, w.piece, p)
  {
    EntryIn(t, after, job, w, p);
    PlainStep(t, after, job, w);
    LandedHolds(t, after, job, w, p);
  }

  // ---------------------------------------------------------------------------------------------------------
  // One chunk keeps the invariant.

  lemma StepFrame(t: Table, after: Table, job: Job, w: Work)
    requires JobOk(job, |t.rows|) && WorkOk(job, w) && WorkStep(t, after, job, w)
    ensures t.Ok() && after.Ok() && |after.rows| == |t.rows| && after.inits == t.inits && t.cur <= after.cur
    ensures FreshLive(t, after) && Live(t.ids) <= Live(after.ids)
    ensures forall id :: id in t.ids ==> id in after.ids && after.ids[id] == t.ids[id]
    ensures forall id :: id in after.ids && id !in t.ids ==> after.ids[id] !in Live(t.ids)
  {
    LiveGrows(t.ids, after.ids);
  }

  lemma StepGrows(t: Table, after: Table, job: Job, w: Work, j: nat)
    requires JobOk(job, |t.rows|) && WorkOk(job, w) && WorkStep(t, after, job, w) && j < |t.rows| == |after.rows|
    ensures |t.rows[j]| <= |after.rows[j]|
  {
    if m :| 0 <= m < |job.pieces[w.piece].slots| && job.pieces[w.piece].slots[m] == j {
      assert job.pieces[w.piece].slots[m] < |t.rows|;
    }
  }

  lemma StepShape(t0: Table, t: Table, after: Table, swapped: set<nat>, job: Job, w: Work)
    requires |t0.rows| == |t.rows| && JobOk(job, |t.rows|) && WorkOk(job, w) && WorkStep(t, after, job, w)
    requires Shape(t0, t, swapped)
    ensures Shape(t0, after, swapped)
  {
    StepFrame(t, after, job, w);
    forall j: nat | j < |t.rows|
      ensures |t.rows[j]| <= |after.rows[j]|
    {
      StepGrows(t, after, job, w, j);
    }
  }

  /** Entry (`c`, `p`) is the only owner of its row, so a chunk that writes the row holds the entry. */
  lemma OwnRow(after: Table, job: Job, w: Work, c: nat, p: nat)
    requires after.Ok() && JobOk(job, |after.rows|) && KeysApart(job, |after.rows|) && WorkOk(job, w)
    requires Takes(job, c, p) && KeyAt(job, c, p) in after.ids
    ensures WrittenBy(after, job, w, after.ids[KeyAt(job, c, p)]) ==> InWork(w, c, p)
  {
  }

  lemma StepHolds(t: Table, after: Table, job: Job, w: Work, c: nat, p: nat)
    requires t.Ok() && JobOk(job, |t.rows|) && KeysApart(job, |t.rows|) && WorkOk(job, w) && WorkStep(t, after, job, w)
    requires after.Ok() && |after.rows| == |t.rows| && Takes(job, c, p) && Holds(t, job, |t.rows|, c, p)
    ensures Holds(after, job, |t.rows|, c, p)
  {
    StepFrame(t, after, job, w);
    if InWork(w, c, p) {
      WorkHolds(t, after, job, w, p);
    } else {
      OwnRow(after, job, w, c, p);
      var k := t.ids[KeyAt(job, c, p)];
      forall m | 0 <= m < |job.pieces[c].slots|
        ensures after.rows[job.pieces[c].slots[m]][k] == job.pieces[c].rows[m][p]
      {
        WorkKeeps(t, after, job, w, job.pieces[c].slots[m], k);
      }
    }
  }

  lemma StepOld(t0: Table, t: Table, after: Table, job: Job, w: Work)
    requires t0.Ok() && t.Ok() && after.Ok() && |t0.rows| == |t.rows| == |after.rows|
    requires JobOk(job, |t.rows|) && KeysApart(job, |t.rows|) && WorkOk(job, w) && WorkStep(t, after, job, w)
    requires OldRows(t0, t, job, |t.rows|) && forall id :: id in t0.ids ==> id in t.ids
    ensures OldRows(t0, after, job, |t.rows|)
  {
    StepFrame(t, after, job, w);
    forall j: nat, id | j < |t0.rows| && id in t0.ids && id in after.ids && !FromPiece(job, |t.rows|, id)
      ensures after.rows[j][after.ids[id]] == t0.rows[j][t0.ids[id]]
    {
      NotWritten(after, job, w, id);
      WorkKeeps(t, after, job, w, j, t.ids[id]);
    }
  }

  lemma NotWritten(after: Table, job: Job, w: Work, id: int64)
    requires after.Ok() && JobOk(job, |after.rows|) && WorkOk(job, w) && id in after.ids && !FromPiece(job, |after.rows|, id)
    ensures !WrittenBy(after, job, w, after.ids[id])
  {
  }

  lemma StepSpare(t0: Table, t: Table, after: Table, swapped: set<nat>, job: Job, w: Work)
    requires Shape(t0, t, swapped) && |t0.rows| == |t.rows| == |after.rows| && SpareRows(t0, t, swapped)
    requires JobOk(job, |t.rows|) && KeysApart(job, |t.rows|) && WorkOk(job, w) && WorkStep(t, after, job, w)
    ensures SpareRows(t0, after, swapped)
  {
    StepFrame(t, after, job, w);
    forall j: nat, k: nat | j < |t.rows| && k < |after.rows[j]| && k !in Live(after.ids)
      ensures after.rows[j][k] == Spare(t0, swapped, j, k)
    {
      SpareNotWritten(after, job, w, k);
      WorkKeeps(t, after, job, w, j, k);
    }
  }

  lemma SpareNotWritten(after: Table, job: Job, w: Work, k: nat)
    requires JobOk(job, |after.rows|) && WorkOk(job, w) && k !in Live(after.ids)
    ensures !WrittenBy(after, job, w, k)
  {
    forall id | id in after.ids
      ensures after.ids[id] != k
    {
      assert after.ids[id] in Live(after.ids);
    }
  }

  lemma OtherAt(t0: Table, t: Table, after: Table, swapped: set<nat>, job: Job, w: Work, c: nat, p: nat, j: nat)
    requires Shape(t0, t, swapped) && |t0.rows| == |t.rows| == |after.rows| && after.Ok() && SpareRows(t0, t, swapped)
    requires JobOk(job, |t.rows|) && KeysApart(job, |t.rows|) && WorkOk(job, w) && WorkStep(t, after, job, w)
    requires OtherSlots(t0, t, swapped, job, |t.rows|)
    requires Takes(job, c, p) && KeyAt(job, c, p) in after.ids && KeyAt(job, c, p) !in t0.ids
    requires j < |t.rows| && j !in job.pieces[c].slots
    ensures after.rows[j][after.ids[KeyAt(job, c, p)]] == Spare(t0, swapped, j, after.ids[KeyAt(job, c, p)])
  {
    var id := KeyAt(job, c, p);
    var k := after.ids[id];
    StepFrame(t, after, job, w);
    OwnRow(after, job, w, c, p);
    WorkKeeps(t, after, job, w, j, k);
    if id in t.ids {
      assert t.rows[j][t.ids[id]] == Spare(t0, swapped, j, t.ids[id]);
    } else {
      assert k !in Live(t.ids);
    }
  }

  lemma StepOther(t0: Table, t: Table, after: Table, swapped: set<nat>, job: Job, w: Work)
    requires Shape(t0, t, swapped) && |t0.rows| == |t.rows| == |after.rows| && after.Ok() && SpareRows(t0, t, swapped)
    requires JobOk(job, |t.rows|) && KeysApart(job, |t.rows|) && WorkOk(job, w) && WorkStep(t, after, job, w)
    requires OtherSlots(t0, t, swapped, job, |t.rows|)
    ensures OtherSlots(t0, after, swapped, job, |t.rows|)
  {
    forall c: nat, p: nat, j: nat | Takes(job, c, p) && KeyAt(job, c, p) in after.ids && KeyAt(job, c, p) !in t0.ids
                                    && j < |after.rows| && j !in job.pieces[c].slots
      ensures after.rows[j][after.ids[KeyAt(job, c, p)]] == Spare(t0, swapped, j, after.ids[KeyAt(job, c, p)])
    {
      OtherAt(t0, t, after, swapped, job, w, c, p, j);
    }
  }

  lemma StepOnly(t0: Table, t: Table, after: Table, job: Job, w: Work)
    requires JobOk(job, |t.rows|) && KeysApart(job, |t.rows|) && WorkOk(job, w) && WorkStep(t, after, job, w)
    requires OnlyPieces(t0, t, job, |t.rows|)
    ensures OnlyPieces(t0, after, job, |t.rows|)
  {
    forall id | id in after.ids
      ensures id in t0.ids || FromPiece(job, |t.rows|, id)
    {
      WorkIds(t, after, job, w, id);
    }
  }

  /** One chunk keeps the invariant. */
  lemma StepInv(t0: Table, t: Table, after: Table, swapped: set<nat>, job: Job, w: Work)
    requires LoadInv(t0, t, swapped, job) && KeysApart(job, |t.rows|)
    requires |t0.rows| == |t.rows| && WorkOk(job, w) && WorkStep(t, after, job, w)
    ensures LoadInv(t0, after, swapped, job)
  {
    StepFrame(t, after, job, w);
    StepShape(t0, t, after, swapped, job, w);
    StepOld(t0, t, after, job, w);
    StepSpare(t0, t, after, swapped, job, w);
    StepOther(t0, t, after, swapped, job, w);
    StepOnly(t0, t, after, job, w);
  }

  // ---------------------------------------------------------------------------------------------------------
  // The whole load.

  /** The slots some piece has rows for. */
  ghost predicate Loads(job: Job, j: nat) {
    exists c: nat :: c < |job.pieces| && j in job.pieces[c].slots
  }

  /** Generators replaced by the empty one; `saved` remembers them. */
  ghost predicate Swapped(t0: Table, t: Table, saved: map<nat, Row>)
    requires t0.Ok()
  {
    && t.ids == t0.ids && t.cur == t0.cur && t.rows == t0.rows && |t.inits| == |t0.inits|
    && (forall j :: j in saved ==> j < |t0.inits| && saved[j] == t0.inits[j])
    && forall j: nat :: j < |t0.inits| ==> t.inits[j] == if j in saved then Uninit else t0.inits[j]
  }

  lemma StartInv(t0: Table, t: Table, saved: map<nat, Row>, job: Job)
    requires t0.Ok() && Swapped(t0, t, saved) && JobOk(job, |t0.rows|)
    requires forall j :: 0 <= j < |t0.rows| ==> t0.Clean(j)
    ensures LoadInv(t0, t, saved.Keys, job)
  {
    forall j: nat, k: nat | j < |t.rows| && k < |t.rows[j]| && k !in Live(t.ids)
      ensures t.rows[j][k] == Spare(t0, saved.Keys, j, k)
    {
      assert t0.Clean(j);
    }
  }

  lemma ReserveInv(t0: Table, t: Table, after: Table, swapped: set<nat>, job: Job)
    requires LoadInv(t0, t, swapped, job) && after.Ok() && after == t.(rows := after.rows) && |after.rows| == |t.rows|
    requires forall j :: 0 <= j < |t.rows| ==> Grown(t.rows[j], after.rows[j], t.inits[j])
    ensures LoadInv(t0, after, swapped, job)
  {
    forall j: nat, k: nat | j < |t.rows| && k < |after.rows[j]|
      ensures after.rows[j][k] == if k < |t.rows[j]| then t.rows[j][k] else t.inits[j]
    {
      GrownSkips(t.rows[j], after.rows[j], t.inits[j]);
    }
  }

  method SwapGenerator(ht: Hashtable, j: nat, before: map<nat, Row>, ghost t0: Table) returns (saved: map<nat, Row>)
    requires ht.Valid() && t0.Ok() && Swapped(t0, ht.State(), before) && j < |ht.slotGroup.slots|
    modifies ht.slotGroup
    ensures ht.Valid() && Swapped(t0, ht.State(), saved) && saved.Keys == before.Keys + {j}
  {
    saved := before;
    if j !in saved {
      saved := saved[j := ht.slotGroup.slots[j].init];
      ht.slotGroup.SetGenerator(j, Uninit);
    }
  }

  method SwapPiece(ht: Hashtable, slots: seq<nat>, before: map<nat, Row>, ghost t0: Table) returns (saved: map<nat, Row>)
    requires ht.Valid() && t0.Ok() && Swapped(t0, ht.State(), before)
    requires forall m :: 0 <= m < |slots| ==> slots[m] < |t0.rows|
    modifies ht.slotGroup
    ensures ht.Valid() && Swapped(t0, ht.State(), saved)
    ensures forall j: nat :: j in saved <==> j in before || j in slots
  {
    saved := before;
    for m := 0 to |slots|
      invariant ht.Valid() && Swapped(t0, ht.State(), saved)
      invariant forall j: nat :: j in saved <==> j in before || j in slots[..m]
    {
      saved := SwapGenerator(ht, slots[m], saved, t0);
    }
    assert slots[..|slots|] == slots;
  }

  method SwapGenerators(ht: Hashtable, pieces: seq<Piece>) returns (saved: map<nat, Row>)
    requires ht.Valid() && forall c :: 0 <= c < |pieces| ==> Fits(pieces[c], |ht.State().rows|)
    modifies ht.slotGroup
    ensures ht.Valid() && Swapped(old(ht.State()), ht.State(), saved)
    ensures forall j: nat :: j in saved <==> exists c: nat :: c < |pieces| && j in pieces[c].slots
  {
    ghost var t0 := ht.State();
    saved := map[];
    for c := 0 to |pieces|
      invariant ht.Valid() && Swapped(t0, ht.State(), saved)
      invariant forall j: nat :: j in saved <==> exists d: nat :: d < c && j in pieces[d].slots
    {
      saved := SwapPiece(ht, pieces[c].slots, saved, t0);
    }
  }

  /** The generators are back and have filled every row no id was given. */
  ghost predicate Filled(t: Table, after: Table, saved: map<nat, Row>) {
    && after.ids == t.ids && after.cur == t.cur && |after.rows| == |t.rows| == |t.inits| == |after.inits|
    && forall j: nat :: j < |t.rows| ==>
         && |after.rows[j]| == |t.rows[j]|
         && after.inits[j] == (if j in saved then saved[j] else t.inits[j])
         && forall k: nat :: k < |t.rows[j]| ==>
              after.rows[j][k] == if j in saved && k >= t.cur then saved[j] else t.rows[j][k]
  }

  /** The same for one slot. */
  ghost predicate FilledOne(t: Table, after: Table, j: nat, init: Row)
    requires j < |t.rows| == |t.inits|
  {
    && after.ids == t.ids && after.cur == t.cur && after.inits == t.inits[j := init]
    && |after.rows| == |t.rows| && (forall i: nat :: i < |t.rows| && i != j ==> after.rows[i] == t.rows[i])
    && |after.rows[j]| == |t.rows[j]|
    && forall k: nat :: k < |t.rows[j]| ==> after.rows[j][k] == if k >= t.cur then init else t.rows[j][k]
  }

  method FillTail(ht: Hashtable, j: nat, init: Row)
    requires ht.Valid() && j < |ht.slotGroup.slots|
    modifies ht.slotGroup
    ensures ht.Valid() && FilledOne(old(ht.State()), ht.State(), j, init)
  {
    ht.slotGroup.SetGenerator(j, init);
    ht.slotGroup.FillFrom(j, ht.idMap.allocator.curSize);
    assert ht.State().inits == old(ht.State()).inits[j := init];
  }

  lemma FilledStep(t: Table, mid: Table, after: Table, done: map<nat, Row>, j: nat, init: Row)
    requires Filled(t, mid, done) && j < |mid.rows| && FilledOne(mid, after, j, init) && j !in done
    ensures Filled(t, after, done[j := init])
  {
  }

  method FillNext(ht: Hashtable, j: nat, init: Row, ghost t: Table, ghost done: map<nat, Row>)
    requires ht.Valid() && j < |ht.slotGroup.slots| && Filled(t, ht.State(), done) && j !in done
    modifies ht.slotGroup
    ensures ht.Valid() && Filled(t, ht.State(), done[j := init])
  {
    ghost var mid := ht.State();
    FillTail(ht, j, init);
    FilledStep(t, mid, ht.State(), done, j, init);
  }

  lemma ReturnedOne(saved: map<nat, Row>, rest: set<nat>, j: nat)
    requires j in rest && j in saved
    ensures saved - (rest - {j}) == (saved - rest)[j := saved[j]]
  {
  }

  method FillTails(ht: Hashtable, saved: map<nat, Row>)
    requires ht.Valid() && forall j :: j in saved ==> j < |ht.slotGroup.slots|
    modifies ht.slotGroup
    ensures ht.Valid() && Filled(old(ht.State()), ht.State(), saved)
  {
    ghost var t := ht.State();
    var rest := saved.Keys;
    while rest != {}
      invariant ht.Valid() && rest <= saved.Keys && |ht.State().rows| == |t.rows|
      invariant Filled(t, ht.State(), saved - rest)
      decreases rest
    {
      var j: nat :| j in rest;
      ReturnedOne(saved, rest, j);
      FillNext(ht, j, saved[j], t, saved - rest);
      rest := rest - {j};
    }
    assert saved - {} == saved;
  }

  ghost predicate Covered(job: Job, works: seq<Work>) {
    && (forall w :: 0 <= w < |works| ==> WorkOk(job, works[w]))
    && forall c: nat, p: nat :: c < |job.pieces| && p < |job.pieces[c].ids| ==> Worked(works, c, p)
  }

  ghost predicate Worked(works: seq<Work>, c: nat, p: nat) {
    exists w: nat :: w < |works| && InWork(works[w], c, p)
  }

  /** Cuts every piece into chunks of `idsPerChunk` ids, the last one shorter. */
  method SliceUp(job: Job, idsPerChunk: nat) returns (works: seq<Work>)
    requires 0 < idsPerChunk < 0x8000_0000
    ensures Covered(job, works)
  {
    works := [];
    for c := 0 to |job.pieces|
      invariant forall w :: 0 <= w < |works| ==> WorkOk(job, works[w])
      invariant forall d: nat, p: nat :: d < c && p < |job.pieces[d].ids| ==> Worked(works, d, p)
    {
      var total := |job.pieces[c].ids|;
      var beg := 0;
      while beg < total
        invariant forall w :: 0 <= w < |works| ==> WorkOk(job, works[w])
        invariant forall d: nat, p: nat :: d < c && p < |job.pieces[d].ids| ==> Worked(works, d, p)
        invariant forall p: nat :: p < beg && p < total ==> Worked(works, c, p)
      {
        var work := Work(c, beg, if total - beg < idsPerChunk then total - beg else idsPerChunk);
        MoreWork(works, work);
        works := works + [work];
        beg := beg + idsPerChunk;
      }
    }
  }

  lemma MoreWork(works: seq<Work>, w: Work)
    ensures forall c: nat, p: nat :: Worked(works + [w], c, p) <==> Worked(works, c, p) || InWork(w, c, p)
  {
    var more := works + [w];
    forall c: nat, p: nat
      ensures Worked(more, c, p) <==> Worked(works, c, p) || InWork(w, c, p)
    {
      if Worked(works, c, p) {
        var v: nat :| v < |works| && InWork(works[v], c, p);
        assert more[v] == works[v];
      }
      if InWork(w, c, p) {
        assert more[|works|] == w;
      }
    }
  }

  /** The chunks not in `todo` are in the table. */
  ghost predicate DoneRows(t: Table, job: Job, works: seq<Work>, todo: set<nat>)
    requires t.Ok() && JobOk(job, |t.rows|)
  {
    forall w: nat, p: nat :: w < |works| && w !in todo && InWork(works[w], works[w].piece, p) && Takes(job, works[w].piece, p) ==>
      Holds(t, job, |t.rows|, works[w].piece, p)
  }

  lemma DoneStep(t: Table, after: Table, job: Job, works: seq<Work>, todo: set<nat>, w: nat)
    requires t.Ok() && after.Ok() && |after.rows| == |t.rows| && JobOk(job, |t.rows|) && KeysApart(job, |t.rows|)
    requires w < |works| && WorkOk(job, works[w]) && WorkStep(t, after, job, works[w]) && DoneRows(t, job, works, todo)
    ensures DoneRows(after, job, works, todo - {w})
  {
    forall v: nat, p: nat | v < |works| && v !in todo - {w} && InWork(works[v], works[v].piece, p) && Takes(job, works[v].piece, p)
      ensures Holds(after, job, |t.rows|, works[v].piece, p)
    {
      if v == w {
        WorkHolds(t, after, job, works[w], p);
      } else {
        StepHolds(t, after, job, works[w], works[v].piece, p);
      }
    }
  }

  /** What a load leaves behind. Every owned entry of every piece is in the table with its rows; nothing else came
      in; ids that were there before and are not loaded keep their rows; generators are back, and every row without
      an owner is what they make. In a slot its piece says nothing about, a new id reads the initial row, except that
      a new block of a slot which other pieces load is unfilled memory. */
  ghost predicate LoadResult(t0: Table, t: Table, job: Job) {
    && t0.Ok() && t.Ok() && |t.rows| == |t0.rows| && t.inits == t0.inits && JobOk(job, |t0.rows|)
    && (forall c: nat, p: nat :: Takes(job, c, p) ==> Holds(t, job, |t0.rows|, c, p))
    && (forall id :: id in t0.ids ==> id in t.ids && t.ids[id] == t0.ids[id])
    && OnlyPieces(t0, t, job, |t0.rows|) && OldRows(t0, t, job, |t0.rows|) && FreshLive(t0, t)
    && (forall j :: 0 <= j < |t.rows| ==> t.Clean(j))
    && forall c: nat, p: nat, j: nat ::
         Takes(job, c, p) && KeyAt(job, c, p) !in t0.ids && j < |t.rows| && j !in job.pieces[c].slots && KeyAt(job, c, p) in t.ids ==>
           t.rows[j][t.ids[KeyAt(job, c, p)]] ==
             if Loads(job, j) && t.ids[KeyAt(job, c, p)] >= |t0.rows[j]| then Uninit else t0.inits[j]
  }

  lemma AllDone(t: Table, job: Job, works: seq<Work>)
    requires t.Ok() && JobOk(job, |t.rows|) && Covered(job, works) && DoneRows(t, job, works, {})
    ensures forall c: nat, p: nat :: Takes(job, c, p) ==> Holds(t, job, |t.rows|, c, p)
  {
    var none: set<nat> := {};
    forall c: nat, p: nat | Takes(job, c, p)
      ensures Holds(t, job, |t.rows|, c, p)
    {
      assert Worked(works, c, p);
      var w: nat :| w < |works| && InWork(works[w], c, p);
      assert w !in none && works[w].piece == c;
    }
  }

  lemma FilledClean(t0: Table, t: Table, after: Table, saved: map<nat, Row>, j: nat)
    requires t0.Ok() && Shape(t0, t, saved.Keys) && SpareRows(t0, t, saved.Keys) && Filled(t, after, saved) && after.Ok()
    requires (forall i :: i in saved ==> i < |t0.inits| && saved[i] == t0.inits[i]) && j < |t0.rows|
    ensures after.inits[j] == t0.inits[j] && after.Clean(j)
    ensures forall id :: id in t.ids ==> after.rows[j][t.ids[id]] == t.rows[j][t.ids[id]]
  {
    forall k: nat | k < |after.rows[j]| && k !in Live(after.ids)
      ensures after.rows[j][k] == after.inits[j]
    {
    }
  }

  lemma LoadDone(t0: Table, t: Table, after: Table, saved: map<nat, Row>, job: Job)
    requires LoadInv(t0, t, saved.Keys, job) && Filled(t, after, saved) && after.Ok()
    requires forall j :: j in saved ==> j < |t0.inits| && saved[j] == t0.inits[j]
    requires forall j: nat :: j in saved <==> Loads(job, j)
    requires forall c: nat, p: nat :: Takes(job, c, p) ==> Holds(t, job, |t0.rows|, c, p)
    ensures LoadResult(t0, after, job)
  {
    forall j: nat | j < |t0.rows|
      ensures after.inits[j] == t0.inits[j] && after.Clean(j)
      ensures forall id :: id in t.ids ==> after.rows[j][t.ids[id]] == t.rows[j][t.ids[id]]
    {
      FilledClean(t0, t, after, saved, j);
    }
    assert after.inits == t0.inits;
  }

  method ReserveFirst(ht: Hashtable)
    requires ht.Valid()
    modifies ht.slotGroup
    ensures ht.Valid() && |ht.State().rows| == |old(ht.State()).rows|
    ensures ht.State() == old(ht.State()).(rows := ht.State().rows)
    ensures forall j :: 0 <= j < |ht.State().rows| ==>
              Grown(old(ht.State()).rows[j], ht.State().rows[j], old(ht.State()).inits[j])
  {
    ht.ReserveBlocksForIds(1);
    assert |old(ht.slotGroup.AllRows())[0]| <= |ht.slotGroup.AllRows()[0]|;
  }

  /** Loads saved pieces into a table. Chunks run in any order. */
  method Load(ht: Hashtable, job: Job, idsPerChunk: nat)
    requires ht.Valid() && ht.children == job.children && JobOk(job, |ht.State().rows|) && KeysApart(job, |ht.State().rows|)
    requires forall j :: 0 <= j < |ht.State().rows| ==> ht.State().Clean(j)
    requires 0 < idsPerChunk < 0x8000_0000 && ht.idMap.allocator.freeSize < 0x8000_0000
    modifies ht.idMap, ht.idMap.allocator, ht.slotGroup
    ensures ht.Valid() && LoadResult(old(ht.State()), ht.State(), job)
  {
    ghost var t0 := ht.State();
    var saved := SwapGenerators(ht, job.pieces);
    StartInv(t0, ht.State(), saved, job);
    for c := 0 to |job.pieces|
      invariant ht.Valid() && LoadInv(t0, ht.State(), saved.Keys, job) && ht.idMap.allocator.freeSize < 0x8000_0000
    {
      ghost var t := ht.State();
      ReserveFirst(ht);
      ReserveInv(t0, t, ht.State(), saved.Keys, job);
    }
    var works := SliceUp(job, idsPerChunk);
    var todo := UpTo(|works|);
    while todo != {}
      invariant ht.Valid() && LoadInv(t0, ht.State(), saved.Keys, job) && ht.idMap.allocator.freeSize < 0x8000_0000
      invariant todo <= UpTo(|works|) && DoneRows(ht.State(), job, works, todo)
      decreases todo
    {
      var w :| w in todo;
      ghost var t := ht.State();
      ProcessChunk(ht, job.pieces[works[w].piece], job.slice, job.coalesce, works[w].beg, works[w].num);
      StepInv(t0, t, ht.State(), saved.Keys, job, works[w]);
      DoneStep(t, ht.State(), job, works, todo, w);
      todo := todo - {w};
    }
    AllDone(ht.State(), job, works);
    ghost var t := ht.State();
    FillTails(ht, saved);
    LoadDone(t0, t, ht.State(), saved, job);
  }
}
