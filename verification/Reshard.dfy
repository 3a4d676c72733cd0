/** Saving tables under one slicing of the ids and loading them under another: every id comes back once, in the table
    that owns it, with all its rows. */
module Reshard {
  import opened ChildIds
  import opened Collections
  import opened HashTables
  import opened LoadRuns
  import opened LoadTables
  import opened Slices
  import opened Words
  import opened WriteBlocks

  /** One saved table: what it held, the slice it was saved under, and its pieces in the checkpoint. */
  datatype Saved = Saved(ghost table: Table, slice: Slice, pieces: seq<Piece>)

  ghost predicate SavedOk(x: Saved, children: seq<string>, coalesce: bool, n: nat, size: int) {
    && x.table.Ok() && |x.table.rows| == n && size > 0 && x.slice.size == size && |x.pieces| == |children|
    && (forall c :: 0 <= c < |children| ==> PieceOf(x.table, children, coalesce, x.pieces[c], c))
    && forall key :: key in x.table.ids ==> 0 <= ChildOf(key, coalesce) < |children|
  }

  function SlicesOf(xs: seq<Saved>): (ss: seq<Slice>)
    ensures |ss| == |xs| && forall s :: 0 <= s < |ss| ==> ss[s] == xs[s].slice
  {
    seq(|xs|, s requires 0 <= s < |xs| => xs[s].slice)
  }

  /** No id was in two of the tables. */
  ghost predicate SavedOnce(xs: seq<Saved>) {
    forall s, t, key :: 0 <= s < |xs| && 0 <= t < |xs| && key in xs[s].table.ids && key in xs[t].table.ids ==> s == t
  }

  /** A checkpoint of one table. */
  ghost predicate CheckpointOk(xs: seq<Saved>, children: seq<string>, coalesce: bool, n: nat, size: int) {
    && ValidChildren(children, coalesce) && size > 0 && n > 0 && SavedOnce(xs)
    && forall s :: 0 <= s < |xs| ==> SavedOk(xs[s], children, coalesce, n, size)
  }

  /** Every table owns what it holds. */
  ghost predicate Owned(xs: seq<Saved>, coalesce: bool) {
    forall s, key :: 0 <= s < |xs| && key in xs[s].table.ids ==> xs[s].slice.size > 0 && Accepts(xs[s].slice, RawOf(key, coalesce))
  }

  /** Tables that own what they hold, under slices that tile the residues, have no id in common. */
  lemma OwnedOnce(xs: seq<Saved>, coalesce: bool, size: int)
    requires Tiles(SlicesOf(xs), size) && Owned(xs, coalesce)
    ensures SavedOnce(xs)
  {
    forall s, t, key | 0 <= s < |xs| && 0 <= t < |xs| && key in xs[s].table.ids && key in xs[t].table.ids
      ensures s == t
    {
      var owner := OneOwner(SlicesOf(xs), size, RawOf(key, coalesce));
      assert Accepts(SlicesOf(xs)[s], RawOf(key, coalesce)) && Accepts(SlicesOf(xs)[t], RawOf(key, coalesce));
    }
  }

  datatype Origin = Origin(saved: nat, piece: nat)

  predicate Chosen(x: Saved, target: Slice) {
    x.slice.IsEqualRange(target) && x.slice.IsIntersect(target)
  }

  /** Where the pieces of a load come from: all pieces of the first `k` saved tables whose slice passes the filter. */
  function Origins(xs: seq<Saved>, target: Slice, k: nat): seq<Origin>
    requires k <= |xs|
  {
    if k == 0 then []
    else Origins(xs, target, k - 1)
         + if Chosen(xs[k - 1], target) then seq(|xs[k - 1].pieces|, c requires 0 <= c => Origin(k - 1, c)) else []
  }

  lemma {:induction false} OriginsExact(xs: seq<Saved>, target: Slice, k: nat)
    requires k <= |xs|
    ensures Distinct(Origins(xs, target, k))
    ensures forall o :: o in Origins(xs, target, k) <==>
              o.saved < k && Chosen(xs[o.saved], target) && o.piece < |xs[o.saved].pieces|
  {
    if k > 0 {
      OriginsExact(xs, target, k - 1);
      var init, all := Origins(xs, target, k - 1), Origins(xs, target, k);
      var more := all[|init|..];
      assert all == init + more;
      forall o
        ensures o in more <==> o.saved == k - 1 && Chosen(xs[k - 1], target) && o.piece < |xs[k - 1].pieces|
      {
        if o.saved == k - 1 && Chosen(xs[k - 1], target) && o.piece < |xs[k - 1].pieces| {
          assert more[o.piece] == o;
        }
      }
      forall i, j | 0 <= i < j < |all|
        ensures all[i] != all[j]
      {
        assert i < |init| ==> all[i] == init[i] && init[i] in init;
        assert j >= |init| ==> all[j] == more[j - |init|] && more[j - |init|] in more;
      }
    }
  }

  /** The plan of one load: the filter over all saved slices. A piece without slots is refused. */
  method BuildCollections(xs: seq<Saved>, target: Slice) returns (ok: bool, pieces: seq<Piece>)
    ensures ok <==> forall i :: 0 <= i < |pieces| ==> pieces[i].slots != []
    ensures |pieces| == |Origins(xs, target, |xs|)|
    ensures forall i :: 0 <= i < |pieces| ==> FromOrigin(xs, pieces[i], Origins(xs, target, |xs|)[i])
  {
    pieces := [];
    for s := 0 to |xs|
      invariant |pieces| == |Origins(xs, target, s)|
      invariant forall i :: 0 <= i < |pieces| ==> FromOrigin(xs, pieces[i], Origins(xs, target, s)[i])
    {
      if xs[s].slice.IsEqualRange(target) && xs[s].slice.IsIntersect(target) {
        pieces := pieces + xs[s].pieces;
      }
    }
    ok := true;
    for i := 0 to |pieces|
      invariant ok <==> forall k :: 0 <= k < i ==> pieces[k].slots != []
    {
      ok := ok && pieces[i].slots != [];
    }
  }

  ghost predicate FromOrigin(xs: seq<Saved>, p: Piece, o: Origin) {
    o.saved < |xs| && o.piece < |xs[o.saved].pieces| && p == xs[o.saved].pieces[o.piece]
  }

  /** A load of checkpoint `xs`, saved from coalesced tables or not, into the table that owns `job.slice`. Where ids are
      masked on the way in, their low bits decide who owns them. */
  ghost predicate IsLoad(xs: seq<Saved>, children: seq<string>, coalesced: bool, n: nat, job: Job) {
    && CheckpointOk(xs, children, coalesced, n, job.slice.size) && ValidChildren(job.children, job.coalesce)
    && (job.coalesce && !coalesced ==> ID_SPAN % job.slice.size == 0)
    && (forall c :: 0 <= c < |children| ==> children[c] in job.children)
    && |job.pieces| == |Origins(xs, job.slice, |xs|)|
    && forall i :: 0 <= i < |job.pieces| ==> FromOrigin(xs, job.pieces[i], Origins(xs, job.slice, |xs|)[i])
  }

  /** The id under which the target keeps what a saved table kept under `key`. */
  function TargetKey(key: int64, children: seq<string>, coalesced: bool, job: Job): int64
    requires 0 <= ChildOf(key, coalesced) < |children| && children[ChildOf(key, coalesced)] in job.children
    requires |job.children| < 0x8000_0000
  {
    KeyOf(RawOf(key, coalesced), job.coalesce, ChildIndex(job.children, children[ChildOf(key, coalesced)]))
  }

  /** With the children in the same order, ids do not change. */
  lemma SameChildrenSameKey(key: int64, children: seq<string>, job: Job)
    requires ValidChildren(children, job.coalesce) && job.children == children
    requires 0 <= ChildOf(key, job.coalesce) < |children|
    ensures TargetKey(key, children, job.coalesce, job) == key
  {
    var c := ChildOf(key, job.coalesce);
    assert ChildIndex(children, children[c]) == c;
    EncodeStored(c, RawOf(key, job.coalesce), job.coalesce);
    StoredIsKey(key, job.coalesce);
  }

  lemma TargetKeyInjective(a: int64, b: int64, children: seq<string>, job: Job)
    requires ValidChildren(children, job.coalesce) && ValidChildren(job.children, job.coalesce)
    requires forall c :: 0 <= c < |children| ==> children[c] in job.children
    requires 0 <= ChildOf(a, job.coalesce) < |children| && 0 <= ChildOf(b, job.coalesce) < |children|
    requires TargetKey(a, children, job.coalesce, job) == TargetKey(b, children, job.coalesce, job)
    ensures a == b
  {
    var c, d := ChildOf(a, job.coalesce), ChildOf(b, job.coalesce);
    var x, y := ChildIndex(job.children, children[c]), ChildIndex(job.children, children[d]);
    if job.coalesce {
      EncodeInjective(RawOf(a, true), x, RawOf(b, true), y);
      assert children[c] == children[d];
    }
    StoredIsKey(a, job.coalesce);
    StoredIsKey(b, job.coalesce);
  }

  /** Where only one side is coalesced, the child is lost: two ids meet in the target exactly when their low bits agree. */
  lemma TargetKeyMasks(a: int64, b: int64, children: seq<string>, coalesced: bool, job: Job)
    requires coalesced != job.coalesce && |job.children| < MAX_CHILDREN
    requires forall c :: 0 <= c < |children| ==> children[c] in job.children
    requires 0 <= ChildOf(a, coalesced) < |children| && 0 <= ChildOf(b, coalesced) < |children|
    ensures TargetKey(a, children, coalesced, job) == TargetKey(b, children, coalesced, job) <==> IdPart(a) == IdPart(b)
  {
    if job.coalesce {
      var x := ChildIndex(job.children, children[0]);
      EncodeInjective(IdPart(a), x, IdPart(b), x);
      assert EncodeId(a, x) == EncodeId(IdPart(a), x) && EncodeId(b, x) == EncodeId(IdPart(b), x);
    }
  }

  /** The id a saved table kept under `key`, in the target of a load. */
  /** The key in the target, in numbers: unchanged between tables that are not coalesced, otherwise the low 52 bits, under
      the index its child has in the target when that is coalesced. */
  lemma TargetKeyParts(key: int64, children: seq<string>, coalesced: bool, job: Job, c: nat)
    requires 0 <= ChildOf(key, coalesced) < |children| && children[ChildOf(key, coalesced)] in job.children
    requires ValidChildren(job.children, job.coalesce)
    requires c < |job.children| && job.children[c] == children[ChildOf(key, coalesced)]
    ensures !coalesced && !job.coalesce ==> TargetKey(key, children, coalesced, job) == key
    ensures coalesced && !job.coalesce ==> TargetKey(key, children, coalesced, job) == key % 0x10_0000_0000_0000
    ensures job.coalesce && c < 2048 ==>
              TargetKey(key, children, coalesced, job) == c * 0x10_0000_0000_0000 + key % 0x10_0000_0000_0000
  {
    var raw := RawOf(key, coalesced);
    if job.coalesce {
      EncodeValue(raw, c);
      EncodeValue(raw % 0x10_0000_0000_0000, c);
    }
  }

  ghost function KeyHere(xs: seq<Saved>, children: seq<string>, coalesced: bool, n: nat, job: Job, s: nat, key: int64): int64
    requires IsLoad(xs, children, coalesced, n, job) && s < |xs| && key in xs[s].table.ids
  {
    assert SavedOk(xs[s], children, coalesced, n, job.slice.size);
    TargetKey(key, children, coalesced, job)
  }

  /** A table holds the id and the target accepts it. */
  ghost predicate Wanted(t: Table, coalesced: bool, target: Slice, key: int64)
    requires target.size > 0
  {
    key in t.ids && Accepts(target, RawOf(key, coalesced))
  }

  /** Saved ids the target accepts stay apart in it. */
  ghost predicate TargetsApart(xs: seq<Saved>, children: seq<string>, coalesced: bool, n: nat, job: Job)
    requires IsLoad(xs, children, coalesced, n, job)
  {
    forall s: nat, a, t: nat, b ::
      (&& s < |xs| && t < |xs|
       && Wanted(xs[s].table, coalesced, job.slice, a) && Wanted(xs[t].table, coalesced, job.slice, b)
       && KeyHere(xs, children, coalesced, n, job, s, a) == KeyHere(xs, children, coalesced, n, job, t, b)) ==> a == b
  }

  ghost function TablesOf(xs: seq<Saved>): (ts: seq<Table>)
    ensures |ts| == |xs| && forall s :: 0 <= s < |xs| ==> ts[s] == xs[s].table
  {
    seq(|xs|, s requires 0 <= s < |xs| => xs[s].table)
  }

  /** No two ids of the tables that the target accepts have the same low bits. */
  ghost predicate MaskedApart(ts: seq<Table>, coalesced: bool, target: Slice)
    requires target.size > 0
  {
    forall s: nat, a, t: nat, b ::
      (&& s < |ts| && t < |ts|
       && Wanted(ts[s], coalesced, target, a) && Wanted(ts[t], coalesced, target, b) && IdPart(a) == IdPart(b)) ==> a == b
  }

  lemma KeysMeet(xs: seq<Saved>, children: seq<string>, coalesced: bool, n: nat, job: Job, s: nat, a: int64, t: nat, b: int64)
    requires IsLoad(xs, children, coalesced, n, job)
    requires s < |xs| && t < |xs| && a in xs[s].table.ids && b in xs[t].table.ids
    ensures KeyHere(xs, children, coalesced, n, job, s, a) == KeyHere(xs, children, coalesced, n, job, t, b) <==>
            if coalesced == job.coalesce then a == b else IdPart(a) == IdPart(b)
  {
    assert SavedOk(xs[s], children, coalesced, n, job.slice.size) && SavedOk(xs[t], children, coalesced, n, job.slice.size);
    if coalesced != job.coalesce {
      TargetKeyMasks(a, b, children, coalesced, job);
    } else if KeyHere(xs, children, coalesced, n, job, s, a) == KeyHere(xs, children, coalesced, n, job, t, b) {
      TargetKeyInjective(a, b, children, job);
    }
  }

  /** Saved ids always stay apart when both sides are coalesced or neither is, and otherwise exactly when no two of them
      have the same low bits. */
  lemma ApartWhen(xs: seq<Saved>, children: seq<string>, coalesced: bool, n: nat, job: Job)
    requires IsLoad(xs, children, coalesced, n, job)
    ensures TargetsApart(xs, children, coalesced, n, job) <==>
            coalesced == job.coalesce || MaskedApart(TablesOf(xs), coalesced, job.slice)
  {
    var ts := TablesOf(xs);
    forall s: nat, a, t: nat, b |
      s < |xs| && t < |xs| && Wanted(xs[s].table, coalesced, job.slice, a) && Wanted(xs[t].table, coalesced, job.slice, b)
      ensures Wanted(ts[s], coalesced, job.slice, a) && Wanted(ts[t], coalesced, job.slice, b)
      ensures KeyHere(xs, children, coalesced, n, job, s, a) == KeyHere(xs, children, coalesced, n, job, t, b) <==>
              if coalesced == job.coalesce then a == b else IdPart(a) == IdPart(b)
    {
      KeysMeet(xs, children, coalesced, n, job, s, a, t, b);
    }
  }

  /** Ids that meet in the target have one owner. */
  lemma MetOwner(xs: seq<Saved>, children: seq<string>, coalesced: bool, n: nat, job: Job, s: nat, a: int64, t: nat, b: int64)
    requires IsLoad(xs, children, coalesced, n, job)
    requires s < |xs| && t < |xs| && a in xs[s].table.ids && b in xs[t].table.ids
    requires KeyHere(xs, children, coalesced, n, job, s, a) == KeyHere(xs, children, coalesced, n, job, t, b)
    ensures Accepts(job.slice, RawOf(a, coalesced)) <==> Accepts(job.slice, RawOf(b, coalesced))
  {
    KeysMeet(xs, children, coalesced, n, job, s, a, t, b);
    if job.coalesce && !coalesced {
      LowBitsDecide(a, job.slice.size);
      LowBitsDecide(b, job.slice.size);
    }
  }

  lemma PieceEntry(t: Table, children: seq<string>, coalesce: bool, p: Piece, c: nat, i: nat) returns (key: int64)
    requires t.Ok() && c < |children| && PieceOf(t, children, coalesce, p, c) && i < |p.ids|
    ensures key in t.ids && ChildOf(key, coalesce) == c && RawOf(key, coalesce) == p.ids[i]
    ensures forall j :: 0 <= j < |t.rows| ==> p.rows[j][i] == t.View(j)[key]
  {
    assert SavedEntry(t, coalesce, p, c, i);
    key :| key in t.ids && ChildOf(key, coalesce) == c && RawOf(key, coalesce) == p.ids[i]
           && forall j :: 0 <= j < |t.rows| ==> p.rows[j][i] == t.View(j)[key];
  }

  /** Entry `p` of the load's piece `k` is a row of a saved table. */
  ghost predicate EntryOf(xs: seq<Saved>, children: seq<string>, coalesced: bool, n: nat, job: Job, k: nat, p: nat, s: nat, key: int64)
    requires IsLoad(xs, children, coalesced, n, job) && k < |job.pieces| && p < |job.pieces[k].ids|
  {
    && Origins(xs, job.slice, |xs|)[k] == Origin(s, if ChildOf(key, coalesced) >= 0 then ChildOf(key, coalesced) else 0)
    && s < |xs| && key in xs[s].table.ids && RawOf(key, coalesced) == job.pieces[k].ids[p]
    && |job.pieces[k].rows| == n
    && forall j :: 0 <= j < n ==> |job.pieces[k].rows[j]| == |job.pieces[k].ids| && job.pieces[k].rows[j][p] == xs[s].table.View(j)[key]
  }

  lemma EntryKey(xs: seq<Saved>, children: seq<string>, coalesced: bool, n: nat, job: Job, k: nat, p: nat) returns (s: nat, key: int64)
    requires IsLoad(xs, children, coalesced, n, job) && k < |job.pieces| && p < |job.pieces[k].ids|
    ensures EntryOf(xs, children, coalesced, n, job, k, p, s, key)
  {
    var o := Origins(xs, job.slice, |xs|)[k];
    assert FromOrigin(xs, job.pieces[k], o);
    s := o.saved;
    assert SavedOk(xs[s], children, coalesced, n, job.slice.size);
    key := PieceEntry(xs[s].table, children, coalesced, job.pieces[k], o.piece, p);
  }

  lemma PiecesFit(xs: seq<Saved>, children: seq<string>, coalesced: bool, n: nat, job: Job, k: nat)
    requires IsLoad(xs, children, coalesced, n, job) && k < |job.pieces|
    ensures Fits(job.pieces[k], n) && job.pieces[k].child in job.children
    ensures job.pieces[k].slots == AllSlots(n) && Distinct(job.pieces[k].ids)
    ensures Origins(xs, job.slice, |xs|)[k].piece < |children|
    ensures job.pieces[k].child == children[Origins(xs, job.slice, |xs|)[k].piece]
  {
    var o := Origins(xs, job.slice, |xs|)[k];
    assert FromOrigin(xs, job.pieces[k], o);
    assert SavedOk(xs[o.saved], children, coalesced, n, job.slice.size);
  }

  lemma LoadIsOk(xs: seq<Saved>, children: seq<string>, coalesced: bool, n: nat, job: Job)
    requires IsLoad(xs, children, coalesced, n, job)
    ensures JobOk(job, n)
  {
    forall k | 0 <= k < |job.pieces|
      ensures Fits(job.pieces[k], n) && job.pieces[k].slots != [] && job.pieces[k].child in job.children
      ensures job.coalesce && coalesced ==> forall p :: 0 <= p < |job.pieces[k].ids| ==> 0 <= job.pieces[k].ids[p] < ID_SPAN
    {
      PiecesFit(xs, children, coalesced, n, job, k);
      forall p | 0 <= p < |job.pieces[k].ids| && job.coalesce && coalesced
        ensures 0 <= job.pieces[k].ids[p] < ID_SPAN
      {
        var s, key := EntryKey(xs, children, coalesced, n, job, k, p);
      }
    }
  }

  lemma EntryTarget(xs: seq<Saved>, children: seq<string>, coalesced: bool, n: nat, job: Job, k: nat, p: nat, s: nat, key: int64)
    requires IsLoad(xs, children, coalesced, n, job) && JobOk(job, n) && k < |job.pieces| && p < |job.pieces[k].ids|
    requires EntryOf(xs, children, coalesced, n, job, k, p, s, key)
    ensures 0 <= ChildOf(key, coalesced) < |children| && TargetKey(key, children, coalesced, job) == KeyAt(job, k, p)
  {
    PiecesFit(xs, children, coalesced, n, job, k);
    assert SavedOk(xs[s], children, coalesced, n, job.slice.size);
  }

  /** Where saved ids stay apart, no two entries of a load end up under one id. */
  lemma LoadsApart(xs: seq<Saved>, children: seq<string>, coalesced: bool, n: nat, job: Job)
    requires IsLoad(xs, children, coalesced, n, job) && JobOk(job, n) && TargetsApart(xs, children, coalesced, n, job)
    ensures KeysApart(job, n)
  {
    forall c: nat, p: nat, d: nat, q: nat | Takes(job, c, p) && Takes(job, d, q) && KeyAt(job, c, p) == KeyAt(job, d, q)
      ensures c == d && p == q
    {
      var s, a := EntryKey(xs, children, coalesced, n, job, c, p);
      var t, b := EntryKey(xs, children, coalesced, n, job, d, q);
      EntryTarget(xs, children, coalesced, n, job, c, p, s, a);
      EntryTarget(xs, children, coalesced, n, job, d, q, t, b);
      assert KeyHere(xs, children, coalesced, n, job, s, a) == KeyHere(xs, children, coalesced, n, job, t, b);
      assert a == b && s == t;
      OriginsExact(xs, job.slice, |xs|);
      PiecesFit(xs, children, coalesced, n, job, c);
    }
  }

  /** A saved id the target owns is in some piece of the load, unless the filter passes its table over. */
  lemma FindEntry(xs: seq<Saved>, children: seq<string>, coalesced: bool, n: nat, job: Job, s: nat, key: int64) returns (k: nat, p: nat)
    requires IsLoad(xs, children, coalesced, n, job) && s < |xs| && key in xs[s].table.ids
    requires Accepts(job.slice, RawOf(key, coalesced)) && xs[s].slice.IsIntersect(job.slice)
    ensures k < |job.pieces| && p < |job.pieces[k].ids| && Takes(job, k, p) && EntryOf(xs, children, coalesced, n, job, k, p, s, key)
  {
    var x, c := xs[s], ChildOf(key, coalesced);
    assert SavedOk(x, children, coalesced, n, job.slice.size);
    OriginsExact(xs, job.slice, |xs|);
    assert Origin(s, c) in Origins(xs, job.slice, |xs|);
    k :| k < |job.pieces| && Origins(xs, job.slice, |xs|)[k] == Origin(s, c);
    assert FromOrigin(xs, job.pieces[k], Origin(s, c));
    assert PieceOf(x.table, children, coalesced, x.pieces[c], c);
    p :| p < |job.pieces[k].ids| && job.pieces[k].ids[p] == RawOf(key, coalesced);
    var other := PieceEntry(x.table, children, coalesced, x.pieces[c], c, p);
    StoredIsKey(key, coalesced);
    StoredIsKey(other, coalesced);
  }

  /** The filter passes no table over that owned an id the target owns. */
  lemma OwnedIntersects(x: Slice, target: Slice, raw: int64)
    requires x.size == target.size > 0 && Accepts(x, raw) && Accepts(target, raw)
    ensures x.IsIntersect(target)
  {
    assert x.Holds(Residue(raw, x.size)) && target.Holds(Residue(raw, x.size));
    IntersectExact(x, target);
  }

  /** The round trip: a table that was empty holds, after the load, exactly the saved ids its slice owns, as far as the
      slice they were saved under meets it, each once, with the rows it was saved with in every slot. */
  ghost predicate Restored(xs: seq<Saved>, children: seq<string>, coalesced: bool, n: nat, job: Job, t: Table)
    requires IsLoad(xs, children, coalesced, n, job) && t.Ok() && |t.rows| == n
  {
    && (forall s: nat, key :: s < |xs| && key in xs[s].table.ids ==> Back(xs, children, coalesced, n, job, t, s, key))
    && forall id :: id in t.ids ==> exists s: nat, key :: s < |xs| && key in xs[s].table.ids && SentHere(xs[s].slice, children, coalesced, job, key, id)
  }

  /** A saved id is back exactly if the target owns it and meets the slice it was saved under. */
  ghost predicate Back(xs: seq<Saved>, children: seq<string>, coalesced: bool, n: nat, job: Job, t: Table, s: nat, key: int64)
    requires IsLoad(xs, children, coalesced, n, job) && t.Ok() && |t.rows| == n && s < |xs| && key in xs[s].table.ids
  {
    assert SavedOk(xs[s], children, coalesced, n, job.slice.size);
    var id := TargetKey(key, children, coalesced, job);
    && (id in t.ids <==> Accepts(job.slice, RawOf(key, coalesced)) && xs[s].slice.IsIntersect(job.slice))
    && (id in t.ids ==> forall j :: 0 <= j < n ==> t.View(j)[id] == xs[s].table.View(j)[key])
  }

  ghost predicate SentHere(from: Slice, children: seq<string>, coalesced: bool, job: Job, key: int64, id: int64)
    requires |job.children| < 0x8000_0000 && job.slice.size > 0
  {
    && Accepts(job.slice, RawOf(key, coalesced)) && from.IsIntersect(job.slice)
    && 0 <= ChildOf(key, coalesced) < |children| && children[ChildOf(key, coalesced)] in job.children
    && TargetKey(key, children, coalesced, job) == id
  }

  lemma RowsBack(xs: seq<Saved>, children: seq<string>, coalesced: bool, n: nat, job: Job, t: Table, s: nat, key: int64)
    requires IsLoad(xs, children, coalesced, n, job) && JobOk(job, n) && t.Ok() && |t.rows| == n && s < |xs| && key in xs[s].table.ids
    requires forall c: nat, p: nat :: Takes(job, c, p) ==> Holds(t, job, n, c, p)
    requires Accepts(job.slice, RawOf(key, coalesced)) && xs[s].slice.IsIntersect(job.slice)
    ensures 0 <= ChildOf(key, coalesced) < |children| && TargetKey(key, children, coalesced, job) in t.ids
    ensures forall j :: 0 <= j < n ==> t.View(j)[TargetKey(key, children, coalesced, job)] == xs[s].table.View(j)[key]
  {
    var k, p := FindEntry(xs, children, coalesced, n, job, s, key);
    EntryTarget(xs, children, coalesced, n, job, k, p, s, key);
    PiecesFit(xs, children, coalesced, n, job, k);
    forall j | 0 <= j < n
      ensures t.View(j)[TargetKey(key, children, coalesced, job)] == xs[s].table.View(j)[key]
    {
      assert job.pieces[k].slots[j] == j;
    }
  }

  /** An entry the target takes was sent to it from some saved table. */
  lemma SentEntry(xs: seq<Saved>, children: seq<string>, coalesced: bool, n: nat, job: Job, k: nat, p: nat) returns (s: nat, key: int64)
    requires IsLoad(xs, children, coalesced, n, job) && JobOk(job, n) && Takes(job, k, p)
    ensures s < |xs| && key in xs[s].table.ids && SentHere(xs[s].slice, children, coalesced, job, key, KeyAt(job, k, p))
  {
    s, key := EntryKey(xs, children, coalesced, n, job, k, p);
    EntryTarget(xs, children, coalesced, n, job, k, p, s, key);
    OriginsExact(xs, job.slice, |xs|);
    assert Origins(xs, job.slice, |xs|)[k] in Origins(xs, job.slice, |xs|);
  }

  lemma RoundTrip(xs: seq<Saved>, children: seq<string>, coalesced: bool, n: nat, job: Job, t0: Table, t: Table)
    requires IsLoad(xs, children, coalesced, n, job) && TargetsApart(xs, children, coalesced, n, job)
    requires t0.ids == map[] && |t0.rows| == n && LoadResult(t0, t, job)
    ensures Restored(xs, children, coalesced, n, job, t)
  {
    forall id | id in t.ids
      ensures exists s: nat, key :: s < |xs| && key in xs[s].table.ids && SentHere(xs[s].slice, children, coalesced, job, key, id)
    {
      assert FromPiece(job, n, id);
      var k: nat, p: nat :| Takes(job, k, p) && KeyAt(job, k, p) == id;
      var s, key := SentEntry(xs, children, coalesced, n, job, k, p);
    }
    forall s: nat, key | s < |xs| && key in xs[s].table.ids
      ensures Back(xs, children, coalesced, n, job, t, s, key)
    {
      BackAt(xs, children, coalesced, n, job, t, s, key);
    }
  }

  lemma SentIsKey(xs: seq<Saved>, children: seq<string>, coalesced: bool, n: nat, job: Job, s: nat, key: int64, r: nat, other: int64)
    requires IsLoad(xs, children, coalesced, n, job) && TargetsApart(xs, children, coalesced, n, job)
    requires s < |xs| && key in xs[s].table.ids && r < |xs| && other in xs[r].table.ids
    requires SentHere(xs[r].slice, children, coalesced, job, other, KeyHere(xs, children, coalesced, n, job, s, key))
    ensures key == other && s == r
  {
    assert KeyHere(xs, children, coalesced, n, job, r, other) == KeyHere(xs, children, coalesced, n, job, s, key);
    MetOwner(xs, children, coalesced, n, job, s, key, r, other);
    assert Wanted(xs[s].table, coalesced, job.slice, key) && Wanted(xs[r].table, coalesced, job.slice, other);
  }

  lemma BackAt(xs: seq<Saved>, children: seq<string>, coalesced: bool, n: nat, job: Job, t: Table, s: nat, key: int64)
    requires IsLoad(xs, children, coalesced, n, job) && TargetsApart(xs, children, coalesced, n, job)
    requires JobOk(job, n) && t.Ok() && |t.rows| == n && s < |xs| && key in xs[s].table.ids
    requires forall c: nat, p: nat :: Takes(job, c, p) ==> Holds(t, job, n, c, p)
    requires forall id :: id in t.ids ==> exists s: nat, key :: s < |xs| && key in xs[s].table.ids && SentHere(xs[s].slice, children, coalesced, job, key, id)
    ensures Back(xs, children, coalesced, n, job, t, s, key)
  {
    var id := KeyHere(xs, children, coalesced, n, job, s, key);
    if id in t.ids {
      var r: nat, other :| r < |xs| && other in xs[r].table.ids && SentHere(xs[r].slice, children, coalesced, job, other, id);
      SentIsKey(xs, children, coalesced, n, job, s, key, r, other);
    }
    if Accepts(job.slice, RawOf(key, coalesced)) && xs[s].slice.IsIntersect(job.slice) {
      RowsBack(xs, children, coalesced, n, job, t, s, key);
    }
  }

  /** Where two ids meet, a table holds what was saved of both only if that was the same. */
  lemma MetIdsAgree(xs: seq<Saved>, children: seq<string>, coalesced: bool, n: nat, job: Job, t: Table, s: nat, a: int64, r: nat,
                    b: int64)
    requires IsLoad(xs, children, coalesced, n, job) && t.Ok() && |t.rows| == n
    requires s < |xs| && r < |xs| && a in xs[s].table.ids && b in xs[r].table.ids
    requires KeyHere(xs, children, coalesced, n, job, s, a) == KeyHere(xs, children, coalesced, n, job, r, b)
    requires Accepts(job.slice, RawOf(a, coalesced)) && xs[s].slice.IsIntersect(job.slice)
    ensures Restored(xs, children, coalesced, n, job, t) ==>
              xs[r].slice.IsIntersect(job.slice) && forall j :: 0 <= j < n ==> xs[s].table.View(j)[a] == xs[r].table.View(j)[b]
  {
    if Restored(xs, children, coalesced, n, job, t) {
      assert Back(xs, children, coalesced, n, job, t, s, a);
      assert Back(xs, children, coalesced, n, job, t, r, b);
    }
  }

  /** With the children in the same order, every id is back under its own key. */
  lemma RestoredSameKey(xs: seq<Saved>, children: seq<string>, coalesced: bool, n: nat, job: Job, t: Table, s: nat, key: int64)
    requires IsLoad(xs, children, coalesced, n, job) && job.coalesce == coalesced && job.children == children && t.Ok() && |t.rows| == n && Restored(xs, children, coalesced, n, job, t)
    requires s < |xs| && key in xs[s].table.ids
    ensures key in t.ids <==> Accepts(job.slice, RawOf(key, coalesced)) && xs[s].slice.IsIntersect(job.slice)
    ensures key in t.ids ==> forall j :: 0 <= j < n ==> t.View(j)[key] == xs[s].table.View(j)[key]
  {
    assert SavedOk(xs[s], children, coalesced, n, job.slice.size);
    assert Back(xs, children, coalesced, n, job, t, s, key);
    SameChildrenSameKey(key, children, job);
  }

  /** Loaded into tables whose slices tile the residues, a saved id can only be in the one that owns it, and it is there
      unless the filter passed its table over, which it does not do to a table that owned the id. */
  lemma ExactlyOneTarget(xs: seq<Saved>, children: seq<string>, coalesced: bool, n: nat, jobs: seq<Job>, ts: seq<Table>, size: int,
                         s: nat, key: int64)
    returns (owner: nat)
    requires |jobs| == |ts| && Tiles(seq(|jobs|, i requires 0 <= i < |jobs| => jobs[i].slice), size)
    requires forall i :: 0 <= i < |jobs| ==> IsLoad(xs, children, coalesced, n, jobs[i])
    requires forall i :: 0 <= i < |jobs| ==> jobs[i].slice.size == size
    requires forall i :: 0 <= i < |ts| ==> ts[i].Ok() && |ts[i].rows| == n && Restored(xs, children, coalesced, n, jobs[i], ts[i])
    requires s < |xs| && key in xs[s].table.ids
    ensures owner < |ts|
    ensures forall i :: 0 <= i < |ts| ==> Back(xs, children, coalesced, n, jobs[i], ts[i], s, key)
    ensures xs[s].slice.size == size && (Accepts(xs[s].slice, RawOf(key, coalesced)) ==> xs[s].slice.IsIntersect(jobs[owner].slice))
    ensures forall i :: 0 <= i < |ts| ==>
              (Accepts(jobs[i].slice, RawOf(key, coalesced)) <==> i == owner)
  {
    var ss := seq(|jobs|, i requires 0 <= i < |jobs| => jobs[i].slice);
    owner := OneOwner(ss, size, RawOf(key, coalesced));
    forall i: nat | i < |ts|
      ensures Accepts(jobs[i].slice, RawOf(key, coalesced)) <==> i == owner
    {
      assert ss[i] == jobs[i].slice;
    }
    assert SavedOk(xs[s], children, coalesced, n, size);
    if Accepts(xs[s].slice, RawOf(key, coalesced)) {
      OwnedIntersects(xs[s].slice, jobs[owner].slice, RawOf(key, coalesced));
    }
  }

  /** When the slice size divides 2^52, owning the stored id and owning the saved one are the same. */
  lemma StoredOwnership(key: int64, coalesce: bool, s: Slice)
    requires 0 <= ChildOf(key, coalesce) && s.size > 0 && ID_SPAN % s.size == 0
    ensures Accepts(s, key) <==> Accepts(s, RawOf(key, coalesce))
  {
    if coalesce {
      EncodeStored(SignedChild(key), IdPart(key), true);
      StoredIsKey(key, true);
      EncodeKeepsResidue(IdPart(key), SignedChild(key), s.size);
    }
  }

  /** Loads a checkpoint of coalesced tables, or of others, into an empty table that owns `target` and is coalesced or not.
      Where the two differ, ids must not meet. */
  method Reload(xs: seq<Saved>, children: seq<string>, ghost coalesced: bool, ht: Hashtable, target: Slice, coalesce: bool,
                idsPerChunk: nat)
    returns (ghost job: Job)
    requires ht.Valid() && ht.State().ids == map[] && ht.idMap.allocator.freeSize < 0x8000_0000
    requires forall j :: 0 <= j < |ht.State().rows| ==> ht.State().Clean(j)
    requires CheckpointOk(xs, children, coalesced, |ht.State().rows|, target.size) && ValidChildren(ht.children, coalesce)
    requires coalesced == coalesce || MaskedApart(TablesOf(xs), coalesced, target)
    requires coalesce && !coalesced ==> ID_SPAN % target.size == 0
    requires forall c :: 0 <= c < |children| ==> children[c] in ht.children
    requires 0 < idsPerChunk < 0x8000_0000
    modifies ht.idMap, ht.idMap.allocator, ht.slotGroup
    ensures ht.Valid() && |ht.State().rows| == |old(ht.State()).rows|
    ensures job.slice == target && job.coalesce == coalesce && job.children == ht.children
    ensures IsLoad(xs, children, coalesced, |ht.State().rows|, job)
    ensures Restored(xs, children, coalesced, |ht.State().rows|, job, ht.State())
    ensures forall j :: 0 <= j < |ht.State().rows| ==> ht.State().Clean(j)
    ensures ht.State().inits == old(ht.State()).inits
  {
    ghost var t0 := ht.State();
    var ok, pieces := BuildCollections(xs, target);
    var plan := Job(pieces, target, coalesce, ht.children);
    LoadIsOk(xs, children, coalesced, |t0.rows|, plan);
    assert ok;
    ApartWhen(xs, children, coalesced, |t0.rows|, plan);
    LoadsApart(xs, children, coalesced, |t0.rows|, plan);
    Load(ht, plan, idsPerChunk);
    RoundTrip(xs, children, coalesced, |t0.rows|, plan, t0, ht.State());
    job := plan;
  }

  /** A table object that holds `t` and can be saved: its ids decode to its children. */
  ghost predicate Savable(ht: Hashtable, t: Table, children: seq<string>, coalesce: bool, n: nat)
    reads ht, ht.idMap, ht.idMap.allocator, ht.slotGroup
  {
    && ht.Valid() && ht.State() == t && ht.children == children && |children| > 0 && |t.rows| == n
    && forall key :: key in t.ids ==> 0 <= ChildOf(key, coalesce) < |children|
  }

  /** Saves tables under their slices. */
  method SaveTables(sources: seq<Hashtable>, ghost tables: seq<Table>, slices: seq<Slice>, children: seq<string>,
                    coalesce: bool, batch: nat, ghost n: nat)
    returns (xs: seq<Saved>)
    requires |tables| == |slices| == |sources| && batch > 0
    requires forall s :: 0 <= s < |sources| ==> Savable(sources[s], tables[s], children, coalesce, n) && slices[s].size > 0
    ensures |xs| == |sources|
    ensures forall s :: 0 <= s < |xs| ==>
              xs[s].table == tables[s] && xs[s].slice == slices[s] && SavedOk(xs[s], children, coalesce, n, slices[s].size)
  {
    xs := [];
    for s := 0 to |sources|
      invariant |xs| == s
      invariant forall r :: 0 <= r < s ==>
                  xs[r].table == tables[r] && xs[r].slice == slices[r] && SavedOk(xs[r], children, coalesce, n, slices[r].size)
    {
      var ok, pieces := MakeHTWriteBlock(sources[s], coalesce, batch);
      xs := xs + [Saved(tables[s], slices[s], pieces)];
    }
  }

  /** From tables to a table: saved under one slicing and loaded into an empty table that owns `target`. */
  method SaveAndReload(sources: seq<Hashtable>, ghost tables: seq<Table>, slices: seq<Slice>, children: seq<string>,
                       coalesced: bool, ht: Hashtable, target: Slice, coalesce: bool, batch: nat, idsPerChunk: nat)
    returns (ghost xs: seq<Saved>, ghost job: Job)
    requires |tables| == |slices| == |sources| && batch > 0 && ValidChildren(children, coalesced) && target.size > 0
    requires ht.Valid() && ht.State().ids == map[] && ht.idMap.allocator.freeSize < 0x8000_0000
    requires forall j :: 0 <= j < |ht.State().rows| ==> ht.State().Clean(j)
    requires forall s :: 0 <= s < |sources| ==>
               Savable(sources[s], tables[s], children, coalesced, |ht.State().rows|) && slices[s].size == target.size
    requires forall s, t, key :: 0 <= s < |tables| && 0 <= t < |tables| && key in tables[s].ids && key in tables[t].ids ==> s == t
    requires coalesced == coalesce || MaskedApart(tables, coalesced, target)
    requires coalesce && !coalesced ==> ID_SPAN % target.size == 0
    requires ValidChildren(ht.children, coalesce) && forall c :: 0 <= c < |children| ==> children[c] in ht.children
    requires 0 < idsPerChunk < 0x8000_0000
    modifies ht.idMap, ht.idMap.allocator, ht.slotGroup
    ensures ht.Valid() && |ht.State().rows| == |old(ht.State()).rows| && |xs| == |tables|
    ensures forall s :: 0 <= s < |xs| ==> xs[s].table == tables[s] && xs[s].slice == slices[s]
    ensures job.slice == target && job.coalesce == coalesce && job.children == ht.children
    ensures IsLoad(xs, children, coalesced, |ht.State().rows|, job)
    ensures Restored(xs, children, coalesced, |ht.State().rows|, job, ht.State())
  {
    var saved := SaveTables(sources, tables, slices, children, coalesced, batch, |ht.State().rows|);
    assert TablesOf(saved) == tables;
    job := Reload(saved, children, coalesced, ht, target, coalesce, idsPerChunk);
    xs := saved;
  }
}
