/** All features of a batch: features are dealt to jobs of 16, every job reports to a counter, and the caller
    waits for the counter. */
module PackJobs {
  import opened Collections
  import opened Packing
  import opened RaggedAppend

  const BLOCK: nat := 16

  class BlockingCounter {
    var count: nat
    var done: bool

    constructor (initialCount: nat)
      ensures count == initialCount && !done
    {
      count, done := initialCount, false;
    }

    method DecrementCount()
      modifies this
      ensures count == if old(count) > 0 then old(count) - 1 else 0
      ensures done <==> old(done) || count == 0
    {
      if count > 0 {
        count := count - 1;
      }
      if count == 0 {
        done := true;
      }
    }
  }

  /** One table: the values of every feature, then the splits of all features in one list. */
  datatype FlatTable<T> = FlatTable(values: seq<seq<T>>, splits: seq<seq<nat>>)

  /** The splits of feature `i` start where those of the features before it end. */
  lemma {:induction false} RanksBefore(ranks: seq<nat>, i: nat, j: nat)
    requires i < j <= |ranks|
    ensures TotalTo(ranks, i) + ranks[i] <= TotalTo(ranks, j)
  {
    if i + 1 < j {
      RanksBefore(ranks, i, j - 1);
    }
  }

  ghost predicate Laid<T>(table: FlatTable<T>, ranks: seq<nat>) {
    |table.values| == |ranks| && |table.splits| == TotalTo(ranks, |ranks|)
  }

  function Feature<T>(table: FlatTable<T>, ranks: seq<nat>, j: nat): Tensor<T>
    requires Laid(table, ranks) && j < |ranks|
  {
    RanksBefore(ranks, j, |ranks|);
    Tensor(table.splits[TotalTo(ranks, j)..TotalTo(ranks, j) + ranks[j]], table.values[j])
  }

  function SplitsOf<T>(table: FlatTable<T>, ranks: seq<nat>, k: nat): (ss: seq<seq<seq<nat>>>)
    requires Laid(table, ranks) && k <= |ranks|
    ensures |ss| == k && forall j :: 0 <= j < k ==> ss[j] == Feature(table, ranks, j).splits
  {
    seq(k, j requires 0 <= j < k => Feature(table, ranks, j).splits)
  }

  lemma {:induction false} FeaturesBefore<T>(table: FlatTable<T>, ranks: seq<nat>, k: nat)
    requires Laid(table, ranks) && k <= |ranks|
    ensures TotalTo(ranks, k) <= |table.splits|
    ensures Flatten(SplitsOf(table, ranks, k)) == table.splits[..TotalTo(ranks, k)]
  {
    if k > 0 {
      FeaturesBefore(table, ranks, k - 1);
      RanksBefore(ranks, k - 1, |ranks|);
      var ss := SplitsOf(table, ranks, k);
      assert ss[..k - 1] == SplitsOf(table, ranks, k - 1);
      assert table.splits[..TotalTo(ranks, k)]
             == table.splits[..TotalTo(ranks, k - 1)] + table.splits[TotalTo(ranks, k - 1)..TotalTo(ranks, k)];
    }
  }

  /** A table is its features: one list of values each, as many levels each as its rank, and all levels listed feature
      after feature. */
  lemma FeaturesAreTable<T>(table: FlatTable<T>, ranks: seq<nat>)
    requires Laid(table, ranks)
    ensures Flatten(SplitsOf(table, ranks, |ranks|)) == table.splits
    ensures forall j :: 0 <= j < |ranks| ==>
              Feature(table, ranks, j).values == table.values[j] && |SplitsOf(table, ranks, |ranks|)[j]| == ranks[j]
  {
    FeaturesBefore(table, ranks, |ranks|);
    forall j | 0 <= j < |ranks|
      ensures |SplitsOf(table, ranks, |ranks|)[j]| == ranks[j]
    {
      FeatureLevels(table, ranks, j);
      assert SplitsOf(table, ranks, |ranks|)[j] == Feature(table, ranks, j).splits;
    }
  }

  lemma FeatureLevels<T>(table: FlatTable<T>, ranks: seq<nat>, j: nat)
    requires Laid(table, ranks) && j < |ranks|
    ensures |Feature(table, ranks, j).splits| == ranks[j]
  {
    RanksBefore(ranks, j, |ranks|);
  }

  function Features<T>(tables: seq<FlatTable<T>>, ranks: seq<nat>, j: nat): (fs: seq<Tensor<T>>)
    requires (forall t :: 0 <= t < |tables| ==> Laid(tables[t], ranks)) && j < |ranks|
    ensures |fs| == |tables| && forall t :: 0 <= t < |fs| ==> fs[t] == Feature(tables[t], ranks, j)
  {
    seq(|tables|, t requires 0 <= t < |tables| => Feature(tables[t], ranks, j))
  }

  /** Storing feature `j` leaves every other feature alone. */
  function Stored<T>(out: FlatTable<T>, ranks: seq<nat>, j: nat, f: Tensor<T>): (r: FlatTable<T>)
    requires Laid(out, ranks) && j < |ranks| && |f.splits| == ranks[j]
    ensures Laid(r, ranks) && Feature(r, ranks, j) == f
    ensures forall i :: 0 <= i < |ranks| && i != j ==> Feature(r, ranks, i) == Feature(out, ranks, i)
  {
    RanksBefore(ranks, j, |ranks|);
    var at := TotalTo(ranks, j);
    var r := FlatTable(out.values[j := f.values], out.splits[..at] + f.splits + out.splits[at + ranks[j]..]);
    StoredApart(out, r, ranks, j, f);
    r
  }

  lemma StoredApart<T>(out: FlatTable<T>, r: FlatTable<T>, ranks: seq<nat>, j: nat, f: Tensor<T>)
    requires Laid(out, ranks) && j < |ranks| && |f.splits| == ranks[j]
    requires TotalTo(ranks, j) + ranks[j] <= |out.splits|
    requires var at := TotalTo(ranks, j);
             r == FlatTable(out.values[j := f.values], out.splits[..at] + f.splits + out.splits[at + ranks[j]..])
    ensures Laid(r, ranks) && Feature(r, ranks, j) == f
    ensures forall i :: 0 <= i < |ranks| && i != j ==> Feature(r, ranks, i) == Feature(out, ranks, i)
  {
    var at := TotalTo(ranks, j);
    Replaced(out.splits, at, f.splits, at, at + ranks[j]);
    forall i | 0 <= i < |ranks| && i != j
      ensures Feature(r, ranks, i) == Feature(out, ranks, i)
    {
      RanksBefore(ranks, i, |ranks|);
      if i < j {
        RanksBefore(ranks, i, j);
      } else {
        RanksBefore(ranks, j, i);
      }
      Replaced(out.splits, at, f.splits, TotalTo(ranks, i), TotalTo(ranks, i) + ranks[i]);
    }
  }

  /** A stretch of a list replaced by another of its length: the new one is there, and what lies apart from it stays. */
  lemma Replaced<T>(s: seq<T>, at: nat, f: seq<T>, lo: nat, hi: nat)
    requires at + |f| <= |s| && lo <= hi <= |s|
    ensures var r := s[..at] + f + s[at + |f|..];
            && |r| == |s| && r[at..at + |f|] == f
            && (hi <= at || at + |f| <= lo ==> r[lo..hi] == s[lo..hi])
  {
  }

  /** What a batch needs: every table is laid out alike and every pick names a row of every feature. */
  ghost predicate Batch<T>(tables: seq<FlatTable<T>>, ranks: seq<nat>, picks: seq<Pick>) {
    && (forall t :: 0 <= t < |tables| ==> Laid(tables[t], ranks))
    && forall j :: 0 <= j < |ranks| ==> Packable(Features(tables, ranks, j), ranks[j], picks)
  }

  /** Feature `j` of `out` holds the picked rows of feature `j`. */
  ghost predicate Packed<T>(tables: seq<FlatTable<T>>, ranks: seq<nat>, picks: seq<Pick>, out: FlatTable<T>, j: nat)
    requires Batch(tables, ranks, picks) && Laid(out, ranks)
  {
    j < |ranks| && Gathered(Features(tables, ranks, j), ranks[j], picks, |picks|, Feature(out, ranks, j))
  }

  /** `order` lists features that are packed, none of them twice. */
  ghost predicate PackedOnce<T>(tables: seq<FlatTable<T>>, ranks: seq<nat>, picks: seq<Pick>,
                                out: FlatTable<T>, order: seq<nat>)
    requires Batch(tables, ranks, picks)
  {
    && Laid(out, ranks) && Distinct(order)
    && forall j: nat :: j in order ==> Packed(tables, ranks, picks, out, j)
  }

  method PackFeature<T(0)>(tables: seq<FlatTable<T>>, ranks: seq<nat>, picks: seq<Pick>,
                           before: FlatTable<T>, order: seq<nat>, j: nat)
    returns (out: FlatTable<T>)
    requires Batch(tables, ranks, picks) && PackedOnce(tables, ranks, picks, before, order)
    requires j < |ranks| && j !in order
    ensures PackedOnce(tables, ranks, picks, out, order + [j])
  {
    var splits, values := PackTensor(Features(tables, ranks, j), ranks[j], picks);
    var f := Tensor(seq(|splits|, d requires 0 <= d < |splits| reads splits => splits[d][..]), values[..]);
    assert f == Contents(splits, values);
    out := Stored(before, ranks, j, f);
    forall i: nat | i in order + [j]
      ensures Packed(tables, ranks, picks, out, i)
    {
      if i != j {
        assert Packed(tables, ranks, picks, before, i);
      }
    }
  }

  /** One job: a run of `BLOCK` features, the last job whatever is left. */
  method PackJob<T(0)>(tables: seq<FlatTable<T>>, ranks: seq<nat>, picks: seq<Pick>,
                       before: FlatTable<T>, done: seq<nat>, job: nat)
    returns (out: FlatTable<T>, order: seq<nat>)
    requires Batch(tables, ranks, picks) && PackedOnce(tables, ranks, picks, before, done)
    requires forall j: nat :: j in done ==> j / BLOCK != job
    requires job * BLOCK < |ranks|
    ensures PackedOnce(tables, ranks, picks, out, order)
    ensures forall j: nat :: j in order <==> j in done || (j < |ranks| && j / 16 == job)
  {
    out, order := before, done;
    var jobBegin := job * BLOCK;
    var jobEnd := if jobBegin + BLOCK < |ranks| then jobBegin + BLOCK else |ranks|;
    for j := jobBegin to jobEnd
      invariant PackedOnce(tables, ranks, picks, out, order)
      invariant forall i: nat :: i in order <==> i in done || jobBegin <= i < j
    {
      assert j / BLOCK == job;
      out := PackFeature(tables, ranks, picks, out, order, j);
      order := order + [j];
    }
  }

  /** Packs every feature. Jobs finish in any order, each reports once, and the counter opens after the last. */
  method Pack<T(0)>(tables: seq<FlatTable<T>>, ranks: seq<nat>, picks: seq<Pick>)
    returns (batchSize: nat, out: FlatTable<T>, order: seq<nat>, waited: bool)
    requires |ranks| > 0 && Batch(tables, ranks, picks)
    ensures batchSize == |picks| && waited
    ensures PackedOnce(tables, ranks, picks, out, order)
    ensures forall j: nat :: j in order <==> j < |ranks|
  {
    var numTensors := |ranks|;
    var jobs := (numTensors - 1) / BLOCK + 1;
    var counter := new BlockingCounter(jobs);
    out := FlatTable(seq(numTensors, i => []), seq(TotalTo(ranks, numTensors), i => []));
    order := [];
    var running := UpTo(jobs);
    UpToSize(jobs);
    while running != {}
      invariant PackedOnce(tables, ranks, picks, out, order)
      invariant forall j: nat :: j in order <==> j < |ranks| && j / BLOCK !in running
      invariant running <= UpTo(jobs) && fresh(counter)
      invariant counter.count == |running| && (counter.done <==> running == {})
      decreases running
    {
      var job :| job in running;
      out, order := PackJob(tables, ranks, picks, out, order, job);
      running := running - {job};
      counter.DecrementCount();
    }
    batchSize, waited := |picks|, counter.done;
  }
}
