/** Which rows of a loaded table are left unfilled. While a load runs, new blocks of the slots it brings are unfilled
    memory; an id whose piece lacks such a slot keeps what it finds there. */
module Unfilled {
  import opened HashTables
  import opened IdMapping
  import opened LoadRuns
  import opened LoadTables
  import opened Slices
  import opened SlotGroups
  import opened Words

  /** An owned entry whose piece lacks slot `j`, which another piece of the load brings. */
  ghost predicate Lacks(job: Job, c: nat, p: nat, j: nat)
    requires job.slice.size > 0
  {
    Takes(job, c, p) && j !in job.pieces[c].slots && Loads(job, j)
  }

  ghost predicate LeftUnfilled(t: Table, id: int64, j: nat)
    requires t.Ok()
  {
    id in t.ids && j < |t.rows| && t.rows[j][t.ids[id]] == Uninit
  }

  /** Nothing unfilled was there before or was saved. */
  ghost predicate AllFilled(t0: Table, job: Job) {
    && (forall j :: 0 <= j < |t0.inits| ==> t0.inits[j] != Uninit)
    && forall c, m, p :: 0 <= c < |job.pieces| && 0 <= m < |job.pieces[c].rows| && 0 <= p < |job.pieces[c].rows[m]| ==>
         job.pieces[c].rows[m][p] != Uninit
  }

  lemma EntryFilled(t0: Table, t: Table, job: Job, c: nat, p: nat, j: nat)
    requires LoadResult(t0, t, job) && AllFilled(t0, job) && Takes(job, c, p) && KeyAt(job, c, p) !in t0.ids
    requires j < |t.rows| && |t0.rows[j]| == 0 && (j in job.pieces[c].slots || !Loads(job, j))
    ensures !LeftUnfilled(t, KeyAt(job, c, p), j)
  {
    assert Holds(t, job, |t0.rows|, c, p);
    if j in job.pieces[c].slots {
      var m :| 0 <= m < |job.pieces[c].slots| && job.pieces[c].slots[m] == j;
    }
  }

  /** A table without blocks: some row stays unfilled exactly when some owned entry lacks a slot another piece brings. */
  lemma UnfilledIff(t0: Table, t: Table, job: Job)
    requires LoadResult(t0, t, job) && AllFilled(t0, job) && forall j :: 0 <= j < |t0.rows| ==> t0.rows[j] == []
    ensures (exists id, j :: LeftUnfilled(t, id, j)) <==> exists c, p, j :: Lacks(job, c, p, j)
  {
    assert t0.cur == 0 && t0.ids == map[] by {
      assert |t0.rows[0]| == 0;
    }
    if id, j :| LeftUnfilled(t, id, j) {
      var c: nat, p: nat :| Takes(job, c, p) && KeyAt(job, c, p) == id;
      if !Lacks(job, c, p, j) {
        EntryFilled(t0, t, job, c, p, j);
      }
    }
    if c, p, j :| Lacks(job, c, p, j) {
      LacksIsUnfilled(t0, t, job, c, p, j);
    }
  }

  lemma LacksIsUnfilled(t0: Table, t: Table, job: Job, c: nat, p: nat, j: nat)
    requires LoadResult(t0, t, job) && Lacks(job, c, p, j) && t0.ids == map[]
    requires j < |t0.rows| ==> t0.rows[j] == []
    ensures LeftUnfilled(t, KeyAt(job, c, p), j)
  {
    assert Holds(t, job, |t0.rows|, c, p);
    var d: nat :| d < |job.pieces| && j in job.pieces[d].slots;
    var m :| 0 <= m < |job.pieces[d].slots| && job.pieces[d].slots[m] == j;
    assert Fits(job.pieces[d], |t0.rows|);
  }

  // ---------------------------------------------------------------------------------------------------------
  // Room for all ids in the blocks there are.

  /** How many entries the first `k` pieces have. */
  function Entries(job: Job, k: nat): nat
    requires k <= |job.pieces|
  {
    if k == 0 then 0 else Entries(job, k - 1) + |job.pieces[k - 1].ids|
  }

  ghost function PieceKeys(job: Job, slotNum: nat, c: nat, n: nat): set<int64>
    requires JobOk(job, slotNum) && c < |job.pieces| && n <= |job.pieces[c].ids|
  {
    if n == 0 then {} else PieceKeys(job, slotNum, c, n - 1) + {KeyAt(job, c, n - 1)}
  }

  lemma {:induction false} PieceKeysAre(job: Job, slotNum: nat, c: nat, n: nat)
    requires JobOk(job, slotNum) && c < |job.pieces| && n <= |job.pieces[c].ids|
    ensures |PieceKeys(job, slotNum, c, n)| <= n
    ensures forall p: nat :: p < n ==> KeyAt(job, c, p) in PieceKeys(job, slotNum, c, n)
  {
    if n > 0 {
      PieceKeysAre(job, slotNum, c, n - 1);
    }
  }

  ghost function AllKeys(job: Job, slotNum: nat, k: nat): set<int64>
    requires JobOk(job, slotNum) && k <= |job.pieces|
  {
    if k == 0 then {} else AllKeys(job, slotNum, k - 1) + PieceKeys(job, slotNum, k - 1, |job.pieces[k - 1].ids|)
  }

  lemma {:induction false} AllKeysAre(job: Job, slotNum: nat, k: nat)
    requires JobOk(job, slotNum) && k <= |job.pieces|
    ensures |AllKeys(job, slotNum, k)| <= Entries(job, k)
    ensures forall c: nat, p: nat :: c < k && p < |job.pieces[c].ids| ==> KeyAt(job, c, p) in AllKeys(job, slotNum, k)
  {
    if k > 0 {
      AllKeysAre(job, slotNum, k - 1);
      PieceKeysAre(job, slotNum, k - 1, |job.pieces[k - 1].ids|);
    }
  }

  ghost predicate HeldBy(ids: map<int64, nat>, keys: set<int64>, k: nat) {
    exists id :: id in keys && id in ids && ids[id] == k
  }

  /** Indexes from `lo` to `hi` that are all held by ids of `keys` are no more than those ids. */
  lemma {:induction false} FewIndexes(ids: map<int64, nat>, keys: set<int64>, lo: nat, hi: nat)
    requires lo <= hi && Injective(ids) && forall k: nat :: lo <= k < hi ==> HeldBy(ids, keys, k)
    ensures hi - lo <= |keys|
  {
    if lo < hi {
      assert HeldBy(ids, keys, hi - 1);
      var id :| id in keys && id in ids && ids[id] == hi - 1;
      forall k: nat | lo <= k < hi - 1
        ensures HeldBy(ids, keys - {id}, k)
      {
        assert HeldBy(ids, keys, k);
        var other :| other in keys && other in ids && ids[other] == k;
        assert other != id;
      }
      FewIndexes(ids, keys - {id}, lo, hi - 1);
    }
  }

  /** A load draws at most one fresh index per entry. */
  lemma FreshBound(t0: Table, t: Table, job: Job)
    requires LoadResult(t0, t, job)
    ensures t.cur <= t0.cur + Entries(job, |job.pieces|)
  {
    if t.cur > t0.cur {
      var keys := AllKeys(job, |t0.rows|, |job.pieces|);
      AllKeysAre(job, |t0.rows|, |job.pieces|);
      forall k: nat | t0.cur <= k < t.cur
        ensures HeldBy(t.ids, keys, k)
      {
        assert k in Live(t.ids);
        var id :| id in t.ids && t.ids[id] == k;
        assert FromPiece(job, |t0.rows|, id);
        var c: nat, p: nat :| Takes(job, c, p) && KeyAt(job, c, p) == id;
      }
      FewIndexes(t.ids, keys, t0.cur, t.cur);
    }
  }

  /** Blocks with room for every entry of the load: each new id reads the initial row in a slot its piece lacks. */
  lemma RoomEnough(t0: Table, t: Table, job: Job, c: nat, p: nat, j: nat)
    requires LoadResult(t0, t, job) && Takes(job, c, p) && KeyAt(job, c, p) !in t0.ids
    requires j < |t.rows| && j !in job.pieces[c].slots && t0.cur + Entries(job, |job.pieces|) <= |t0.rows[j]|
    ensures KeyAt(job, c, p) in t.ids && t.rows[j][t.ids[KeyAt(job, c, p)]] == t0.inits[j]
  {
    FreshBound(t0, t, job);
    assert Holds(t, job, |t0.rows|, c, p);
  }

  // ---------------------------------------------------------------------------------------------------------

  /** Two pieces with one slot each: id 0 is left unfilled in slot 1, and id 1 in slot 0. */
  lemma UnfilledExample(row: Row, init: Row) returns (t0: Table, job: Job)
    ensures t0 == Table(map[], 0, [[], []], [init, init]) && t0.Ok() && |job.pieces| == 2
    ensures JobOk(job, 2) && KeysApart(job, 2)
    ensures forall t :: LoadResult(t0, t, job) ==> LeftUnfilled(t, 0, 1) && LeftUnfilled(t, 1, 0)
  {
    t0 := Table(map[], 0, [[], []], [init, init]);
    job := Job([Piece("child", [0], [0], [[row]]), Piece("child", [1], [1], [[row]])], Slice(0, 2, 2), false, ["child"]);
    assert Accepts(job.slice, 0) && Accepts(job.slice, 1);
    assert Takes(job, 0, 0) && Takes(job, 1, 0) && KeyAt(job, 0, 0) == 0 && KeyAt(job, 1, 0) == 1;
    assert 0 in job.pieces[0].slots && 1 in job.pieces[1].slots;
    assert Loads(job, 0) && Loads(job, 1);
    assert Lacks(job, 0, 0, 1) && Lacks(job, 1, 0, 0);
    forall t | LoadResult(t0, t, job)
      ensures LeftUnfilled(t, 0, 1) && LeftUnfilled(t, 1, 0)
    {
      LacksIsUnfilled(t0, t, job, 0, 0, 1);
      LacksIsUnfilled(t0, t, job, 1, 0, 0);
    }
  }
}
