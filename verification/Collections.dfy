/** Small facts about collections that several components share. */
module Collections {
  datatype Option<+T> = None | Some(value: T)

  function Elems<T>(s: seq<T>): set<T> {
    set x | x in s
  }

  ghost predicate Distinct<T(!new)>(s: seq<T>) {
    forall i, j :: 0 <= i < j < |s| ==> s[i] != s[j]
  }

  lemma DistinctSnoc<T(!new)>(s: seq<T>, x: T)
    ensures Distinct(s + [x]) <==> Distinct(s) && x !in s
  {
    var t := s + [x];
    assert forall i :: 0 <= i < |s| ==> t[i] == s[i];
    assert t[|s|] == x;
    assert Distinct(t) ==> forall i :: 0 <= i < |s| ==> s[i] != x;
  }

  lemma {:induction false} SeqSetSize<T(!new)>(s: seq<T>)
    ensures |Elems(s)| <= |s|
    ensures Distinct(s) <==> |Elems(s)| == |s|
  {
    if s != [] {
      var front, last := s[..|s| - 1], s[|s| - 1];
      SeqSetSize(front);
      var all, before := Elems(s), Elems(front);
      assert s == front + [last];
      assert all == before + {last};
      if last in front {
        assert all == before;
        var i :| 0 <= i < |front| && front[i] == last;
        assert s[i] == s[|s| - 1];
      } else {
        assert |all| == |before| + 1;
        forall i, j | Distinct(front) && 0 <= i < j < |s|
          ensures s[i] != s[j]
        {
          if j == |s| - 1 {
            assert front[i] == s[i];
          }
        }
        if Distinct(s) {
          assert forall i, j :: 0 <= i < j < |front| ==> s[i] == front[i] && s[j] == front[j];
        }
      }
    }
  }

  lemma {:induction false} SubrangeSize(s: set<nat>, n: nat)
    requires forall x: nat :: x in s ==> x < n
    ensures |s| <= n
  {
    if n > 0 {
      SubrangeSize(s - {n - 1}, n - 1);
    } else {
      assert forall x: nat :: x !in s;
    }
  }

  lemma {:induction false} RangeSize(s: set<nat>, n: nat)
    requires forall x: nat :: x in s <==> x < n
    ensures |s| == n
  {
    if n > 0 {
      RangeSize(s - {n - 1}, n - 1);
    } else {
      assert forall x: nat :: x !in s;
    }
  }

  lemma {:induction false} SubsetSize(a: set<nat>, b: set<nat>)
    requires a <= b
    ensures |a| <= |b|
    decreases a
  {
    if a != {} {
      var x :| x in a;
      SubsetSize(a - {x}, b - {x});
    }
  }

  lemma SameWhenFull(a: set<nat>, b: set<nat>)
    requires a <= b && |a| == |b|
    ensures a == b
  {
    assert |b - a| == |b| - |a|;
    assert b == a + (b - a);
  }

  function UpTo(n: nat): (s: set<nat>)
    ensures forall i: nat :: i in s <==> i < n
  {
    if n == 0 then {} else UpTo(n - 1) + {n - 1}
  }

  lemma {:induction false} UpToSize(n: nat)
    ensures |UpTo(n)| == n
  {
    if n > 0 {
      UpToSize(n - 1);
    }
  }

  // ---------------------------------------------------------------------------------------------------------
  // Sequences one after another.

  function Flatten<T>(blocks: seq<seq<T>>): seq<T> {
    if blocks == [] then [] else Flatten(blocks[..|blocks| - 1]) + blocks[|blocks| - 1]
  }

  function RowStart<T>(blocks: seq<seq<T>>, i: nat): nat
    requires i <= |blocks|
  {
    if i == 0 then 0 else RowStart(blocks, i - 1) + |blocks[i - 1]|
  }

  lemma {:induction false} FlattenAt<T>(blocks: seq<seq<T>>, i: nat)
    requires i < |blocks|
    ensures |Flatten(blocks)| == RowStart(blocks, |blocks|)
    ensures RowStart(blocks, i) + |blocks[i]| <= |Flatten(blocks)|
    ensures Flatten(blocks)[RowStart(blocks, i)..RowStart(blocks, i) + |blocks[i]|] == blocks[i]
  {
    var init := blocks[..|blocks| - 1];
    SamePrefixStarts(blocks, init, |init|);
    SamePrefixStarts(blocks, init, if i < |init| then i else 0);
    FlattenSize(init);
    if i < |init| {
      FlattenAt(init, i);
    }
  }

  lemma {:induction false} FlattenSize<T>(blocks: seq<seq<T>>)
    ensures |Flatten(blocks)| == RowStart(blocks, |blocks|)
  {
    if blocks != [] {
      FlattenSize(blocks[..|blocks| - 1]);
      SamePrefixStarts(blocks, blocks[..|blocks| - 1], |blocks| - 1);
    }
  }

  lemma {:induction false} SamePrefixStarts<T>(a: seq<seq<T>>, b: seq<seq<T>>, i: nat)
    requires i <= |b| <= |a| && a[..|b|] == b
    ensures RowStart(a, i) == RowStart(b, i)
  {
    if i > 0 {
      SamePrefixStarts(a, b, i - 1);
      assert a[..|b|][i - 1] == a[i - 1];
    }
  }

  lemma {:induction false} FlattenSplit<T>(a: seq<seq<T>>, b: seq<seq<T>>)
    ensures Flatten(a + b) == Flatten(a) + Flatten(b)
    ensures |b| == 1 ==> Flatten(b) == b[0]
  {
    if b == [] {
      assert a + b == a;
    } else {
      var n := |b| - 1;
      FlattenSplit(a, b[..n]);
      assert (a + b)[..|a + b| - 1] == a + b[..n];
    }
  }

  // Running sums.

  function TotalTo(xs: seq<nat>, k: nat): nat
    requires k <= |xs|
  {
    if k == 0 then 0 else TotalTo(xs, k - 1) + xs[k - 1]
  }

  function SumTo(w: seq<real>, k: nat): real
    requires k <= |w|
  {
    if k == 0 then 0.0 else SumTo(w, k - 1) + w[k - 1]
  }

  /** A running sum adds up, and the sum of one item is that item; this fixes it. */
  lemma {:induction false} SumToSplit(a: seq<real>, b: seq<real>, k: nat)
    requires k <= |b|
    ensures SumTo(a + b, |a| + k) == SumTo(a, |a|) + SumTo(b, k) && SumTo([], 0) == 0.0
    ensures k == 1 ==> SumTo(b, k) == b[0]
  {
    if k > 0 {
      SumToSplit(a, b, k - 1);
    } else {
      SumToPrefix(a, b, |a|);
    }
  }

  lemma {:induction false} SumToPrefix(a: seq<real>, b: seq<real>, k: nat)
    requires k <= |a|
    ensures SumTo(a + b, k) == SumTo(a, k)
  {
    if k > 0 {
      SumToPrefix(a, b, k - 1);
    }
  }

  lemma {:induction false} TotalToSplit(a: seq<nat>, b: seq<nat>, k: nat)
    requires k <= |b|
    ensures TotalTo(a + b, |a| + k) == TotalTo(a, |a|) + TotalTo(b, k) && TotalTo([], 0) == 0
    ensures k == 1 ==> TotalTo(b, k) == b[0]
  {
    if k > 0 {
      TotalToSplit(a, b, k - 1);
    } else {
      TotalToPrefix(a, b, |a|);
    }
  }

  lemma {:induction false} TotalToPrefix(a: seq<nat>, b: seq<nat>, k: nat)
    requires k <= |a|
    ensures TotalTo(a + b, k) == TotalTo(a, k)
  {
    if k > 0 {
      TotalToPrefix(a, b, k - 1);
    }
  }

  // ---------------------------------------------------------------------------------------------------------

  /** Blocks of one width start at multiples of it. */
  lemma {:induction false} EvenStarts<T>(blocks: seq<seq<T>>, width: nat, i: nat)
    requires i <= |blocks| && forall k :: 0 <= k < |blocks| ==> |blocks[k]| == width
    ensures RowStart(blocks, i) == i * width
  {
    if i > 0 {
      EvenStarts(blocks, width, i - 1);
      assert i * width == (i - 1) * width + width;
    }
  }

  /** Item `b` of block `i` is the item at `i * width + b`. */
  lemma FlattenCell<T>(blocks: seq<seq<T>>, width: nat, i: nat, b: nat)
    requires i < |blocks| && b < width && forall k :: 0 <= k < |blocks| ==> |blocks[k]| == width
    ensures |Flatten(blocks)| == |blocks| * width
    ensures i * width + b < |Flatten(blocks)| && Flatten(blocks)[i * width + b] == blocks[i][b]
  {
    EvenStarts(blocks, width, i);
    EvenStarts(blocks, width, |blocks|);
    FlattenAt(blocks, i);
    var start := RowStart(blocks, i);
    assert Flatten(blocks)[start..start + width][b] == blocks[i][b];
  }
}
