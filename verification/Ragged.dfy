/** Ragged tensors: flat values plus one list of split points per nesting level, outermost first,
    and the nested lists they stand for. */
module Ragged {
  import opened Collections

  datatype Nested<T> = Leaf(value: T) | Node(items: seq<Nested<T>>)

  /** Split points start at 0 and never decrease. */
  ghost predicate IsSplit(split: seq<nat>) {
    && |split| > 0
    && if |split| == 1 then split[0] == 0
       else split[|split| - 2] <= split[|split| - 1] && IsSplit(split[..|split| - 1])
  }

  lemma {:induction false} SplitMono(split: seq<nat>, i: nat, j: nat)
    requires IsSplit(split) && i <= j < |split|
    ensures split[0] == 0 && split[i] <= split[j]
    decreases |split|
  {
    if |split| > 1 {
      var n := |split| - 1;
      if j < n {
        SplitMono(split[..n], i, j);
      } else if i < n {
        SplitMono(split[..n], i, n - 1);
      } else {
        SplitMono(split[..n], 0, 0);
      }
    }
  }

  function Width(split: seq<nat>, i: nat): nat
    requires IsSplit(split) && i + 1 < |split|
  {
    SplitMono(split, i, i + 1);
    split[i + 1] - split[i]
  }

  /** Number of segments a level offers to the level outside it. */
  function Count(splits: seq<seq<nat>>, n: nat): int {
    if splits == [] then n else |splits[0]| - 1
  }

  /** Every level's last split point is the number of segments of the next level, the innermost one's
      the number of values. */
  ghost predicate WellFormed(splits: seq<seq<nat>>, n: nat) {
    splits == [] ||
    (&& IsSplit(splits[0])
     && WellFormed(splits[1..], n)
     && splits[0][|splits[0]| - 1] == Count(splits[1..], n))
  }

  /** The nested list behind segment `i` of the outermost level. */
  ghost function Row<T>(splits: seq<seq<nat>>, values: seq<T>, i: nat): Nested<T>
    requires WellFormed(splits, |values|) && i < Count(splits, |values|)
    decreases |splits|
  {
    if splits == [] then Leaf(values[i])
    else
      SplitMono(splits[0], i + 1, |splits[0]| - 1);
      Node(seq(Width(splits[0], i), k requires 0 <= k < Width(splits[0], i) =>
                 Row(splits[1..], values, splits[0][i] + k)))
  }

  /** With one level, row `i` is the list of the values between two split points. */
  lemma RowItems<T>(split: seq<nat>, values: seq<T>, i: nat)
    requires WellFormed([split], |values|) && i + 1 < |split|
    ensures split[i] <= split[i + 1] <= |values|
    ensures Row([split], values, i).Node? && |Row([split], values, i).items| == split[i + 1] - split[i]
    ensures forall k :: 0 <= k < split[i + 1] - split[i] ==> Row([split], values, i).items[k] == Leaf(values[split[i] + k])
  {
    SplitMono(split, i, i + 1);
    SplitMono(split, i + 1, |split| - 1);
    forall k: nat | k < Width(split, i)
      ensures Row([split], values, i).items[k] == Leaf(values[split[i] + k])
    {
      assert [split][1..] == [] && Row([], values, split[i] + k) == Leaf(values[split[i] + k]);
    }
  }

  /** The element a path leads to. */
  ghost function At<T>(n: Nested<T>, path: seq<nat>): Option<T> {
    match n
    case Leaf(v) => if path == [] then Some(v) else None
    case Node(items) => if path != [] && path[0] < |items| then At(items[path[0]], path[1..]) else None
  }

  /** The flat position a path from segment `i` leads to, read off the split points alone. */
  ghost function Find(splits: seq<seq<nat>>, i: int, path: seq<nat>): Option<int>
    decreases |splits|
  {
    if splits == [] then if path == [] then Some(i) else None
    else if path != [] && 0 <= i && i + 1 < |splits[0]| && splits[0][i] + path[0] < splits[0][i + 1]
    then Find(splits[1..], splits[0][i] + path[0], path[1..])
    else None
  }

  lemma {:induction false} FindIsAt<T>(splits: seq<seq<nat>>, values: seq<T>, i: nat, path: seq<nat>)
    requires WellFormed(splits, |values|) && i < Count(splits, |values|)
    ensures var p := Find(splits, i, path);
            && (p.Some? ==> 0 <= p.value < |values|)
            && At(Row(splits, values, i), path) == if p.Some? then Some(values[p.value]) else None
    decreases |splits|
  {
    if splits != [] && path != [] && splits[0][i] + path[0] < splits[0][i + 1] {
      SplitMono(splits[0], i + 1, |splits[0]| - 1);
      FindIsAt(splits[1..], values, splits[0][i] + path[0], path[1..]);
    }
  }

  /** Dropping the innermost level leaves a well-formed tensor over its segments. */
  lemma {:induction false} WithoutInner(splits: seq<seq<nat>>, n: nat)
    requires WellFormed(splits, n) && splits != []
    ensures var m := |splits| - 1;
            && IsSplit(splits[m]) && splits[m][|splits[m]| - 1] == n
            && WellFormed(splits[..m], |splits[m]| - 1)
            && Count(splits[..m], |splits[m]| - 1) == Count(splits, n)
    decreases |splits|
  {
    var m := |splits| - 1;
    if m > 0 {
      assert splits[..m][1..] == splits[1..][..m - 1];
      WithoutInner(splits[1..], n);
    }
  }

  /** One more step: from segment `s` of a level into it, if the offset lies inside. */
  ghost function StepInto(split: seq<nat>, s: Option<int>, offset: nat): Option<int> {
    if s.Some? && 0 <= s.value && s.value + 1 < |split| && split[s.value] + offset < split[s.value + 1]
    then Some(split[s.value] + offset) else None
  }

  /** A path is resolved level by level; its last step moves inside one innermost segment. */
  lemma {:induction false} FindSnoc(splits: seq<seq<nat>>, i: int, path: seq<nat>)
    requires splits != [] && |path| == |splits|
    ensures var m := |splits| - 1;
            Find(splits, i, path) == StepInto(splits[m], Find(splits[..m], i, path[..m]), path[m])
    decreases |splits|
  {
    var m := |splits| - 1;
    if m == 0 {
      assert splits[1..] == [] && path[1..] == [];
    } else {
      assert splits[..m][1..] == splits[1..][..m - 1];
      assert path[..m][1..] == path[1..][..m - 1];
      if 0 <= i && i + 1 < |splits[0]| && splits[0][i] + path[0] < splits[0][i + 1] {
        FindSnoc(splits[1..], splits[0][i] + path[0], path[1..]);
      }
    }
  }

  /** The first segment at or after `i` that ends beyond position `p`. */
  function SegFrom(split: seq<nat>, p: nat, i: nat): (s: nat)
    requires IsSplit(split) && i < |split| - 1 && p < split[|split| - 1]
    ensures i <= s < |split| - 1 && p < split[s + 1]
    ensures forall k :: i < k <= s ==> split[k] <= p
    decreases |split| - i
  {
    if split[i + 1] > p then i else SegFrom(split, p, i + 1)
  }

  /** The segment that holds position `p`; empty segments are passed over. */
  function Seg(split: seq<nat>, p: nat): (s: nat)
    requires IsSplit(split) && p < split[|split| - 1]
    ensures s < |split| - 1 && split[s] <= p < split[s + 1]
    ensures forall k :: 0 <= k <= s ==> split[k] <= p
  {
    SplitMono(split, 0, 0);
    SegFrom(split, p, 0)
  }

  lemma SegUnique(split: seq<nat>, p: nat, s: nat)
    requires IsSplit(split) && s < |split| - 1 && split[s] <= p < split[s + 1]
    ensures p < split[|split| - 1] && Seg(split, p) == s
  {
    SplitMono(split, s + 1, |split| - 1);
    var t := Seg(split, p);
    if t < s {
      SplitMono(split, t + 1, s);
    }
  }

  /** The coordinate of value `p`: its offset inside each enclosing segment, outermost first. */
  ghost function Coord(splits: seq<seq<nat>>, n: nat, p: nat): (c: seq<nat>)
    requires WellFormed(splits, n) && p < n
    ensures |c| == |splits| + 1
    decreases |splits|
  {
    if splits == [] then [p]
    else
      WithoutInner(splits, n);
      var m := |splits| - 1;
      var s := Seg(splits[m], p);
      Coord(splits[..m], |splits[m]| - 1, s) + [p - splits[m][s]]
  }

  /** Any segment that holds `p` is the one the coordinate goes through. */
  lemma CoordStep(splits: seq<seq<nat>>, n: nat, s: nat, p: nat)
    requires WellFormed(splits, n) && splits != []
    requires var inner := splits[|splits| - 1];
             s < |inner| - 1 && inner[s] <= p < inner[s + 1]
    ensures var m := |splits| - 1;
            && p < n && WellFormed(splits[..m], |splits[m]| - 1)
            && Coord(splits, n, p) == Coord(splits[..m], |splits[m]| - 1, s) + [p - splits[m][s]]
  {
    WithoutInner(splits, n);
    SegUnique(splits[|splits| - 1], p, s);
  }

  /** `FindSnoc` for a path cut off its first step. */
  lemma FindFromFirst(splits: seq<seq<nat>>, front: seq<nat>, last: nat)
    requires splits != [] && |front| == |splits|
    ensures var path := front + [last];
            path[0] == front[0] &&
            Find(splits, path[0], path[1..])
            == StepInto(splits[|splits| - 1], Find(splits[..|splits| - 1], front[0], front[1..]), last)
  {
    var path := front + [last];
    assert path[1..][..|splits| - 1] == front[1..];
    FindSnoc(splits, path[0], path[1..]);
  }

  /** Walking down along the coordinate of `p` arrives at `p`. */
  lemma {:induction false} CoordFinds(splits: seq<seq<nat>>, n: nat, p: nat, c: seq<nat>)
    requires WellFormed(splits, n) && p < n && c == Coord(splits, n, p)
    ensures c[0] < Count(splits, n) && Find(splits, c[0], c[1..]) == Some(p)
    decreases |splits|
  {
    if splits == [] {
    } else {
      var m := |splits| - 1;
      WithoutInner(splits, n);
      var s := Seg(splits[m], p);
      var front := Coord(splits[..m], |splits[m]| - 1, s);
      CoordFinds(splits[..m], |splits[m]| - 1, s, front);
      FindInner(splits, front, s, p);
    }
  }

  lemma FindInner(splits: seq<seq<nat>>, front: seq<nat>, s: nat, p: nat)
    requires splits != [] && |front| == |splits|
    requires Find(splits[..|splits| - 1], front[0], front[1..]) == Some(s)
    requires var inner := splits[|splits| - 1];
             s + 1 < |inner| && inner[s] <= p < inner[s + 1]
    ensures var c := front + [p - splits[|splits| - 1][s]];
            c[0] == front[0] && Find(splits, c[0], c[1..]) == Some(p)
  {
    FindFromFirst(splits, front, p - splits[|splits| - 1][s]);
  }

  /** Conversely, a path that arrives anywhere is the coordinate of where it arrives. */
  lemma {:induction false} FoundIsCoord(splits: seq<seq<nat>>, n: nat, path: seq<nat>, p: int)
    requires WellFormed(splits, n) && |path| == |splits| + 1 && path[0] < Count(splits, n)
    requires Find(splits, path[0], path[1..]) == Some(p)
    ensures 0 <= p < n && Coord(splits, n, p) == path
    decreases |splits|
  {
    if splits == [] {
    } else {
      WithoutInner(splits, n);
      var m := |splits| - 1;
      var front := path[..m + 1];
      assert path == front + [path[m + 1]];
      var s := FoundInner(splits, front, path[m + 1], p);
      FoundIsCoord(splits[..m], |splits[m]| - 1, front, s);
      CoordStep(splits, n, s, p);
    }
  }

  lemma FoundInner(splits: seq<seq<nat>>, front: seq<nat>, last: nat, p: int) returns (s: nat)
    requires splits != [] && |front| == |splits|
    requires var c := front + [last];
             Find(splits, c[0], c[1..]) == Some(p)
    ensures Find(splits[..|splits| - 1], front[0], front[1..]) == Some(s)
    ensures var inner := splits[|splits| - 1];
            s + 1 < |inner| && p == inner[s] + last < inner[s + 1]
  {
    FindFromFirst(splits, front, last);
    s := Find(splits[..|splits| - 1], front[0], front[1..]).value;
  }

  /** Both directions in terms of nested lists: the coordinate of `p` leads to value `p`,
      and nothing else is reachable. */
  lemma CoordMeaning<T>(splits: seq<seq<nat>>, values: seq<T>, path: seq<nat>)
    requires WellFormed(splits, |values|) && |path| == |splits| + 1 && path[0] < Count(splits, |values|)
    ensures var found := At(Row(splits, values, path[0]), path[1..]);
            && (found.Some? <==> exists p: nat :: p < |values| && Coord(splits, |values|, p) == path)
            && forall p: nat :: p < |values| && Coord(splits, |values|, p) == path ==> found == Some(values[p])
  {
    var n := |values|;
    FindIsAt(splits, values, path[0], path[1..]);
    forall p: nat | p < n && Coord(splits, n, p) == path
      ensures At(Row(splits, values, path[0]), path[1..]) == Some(values[p])
    {
      CoordFinds(splits, n, p, path);
    }
    var found := Find(splits, path[0], path[1..]);
    if found.Some? {
      FoundIsCoord(splits, n, path, found.value);
    }
  }

  lemma CoordInjective(splits: seq<seq<nat>>, n: nat, p: nat, q: nat)
    requires WellFormed(splits, n) && p < n && q < n
    ensures Coord(splits, n, p) == Coord(splits, n, q) <==> p == q
  {
    CoordFinds(splits, n, p, Coord(splits, n, p));
    CoordFinds(splits, n, q, Coord(splits, n, q));
  }

  /** Levels are well-formed from any depth on. */
  lemma {:induction false} LevelFacts(splits: seq<seq<nat>>, n: nat, d: nat)
    requires WellFormed(splits, n) && d < |splits|
    ensures IsSplit(splits[d])
    ensures splits[d][|splits[d]| - 1] == if d + 1 < |splits| then |splits[d + 1]| - 1 else n
    decreases d
  {
    if d > 0 {
      LevelFacts(splits[1..], n, d - 1);
    }
  }
}
