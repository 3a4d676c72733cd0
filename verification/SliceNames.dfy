/** Slice names: printed zero-padded so that the order of names is the order of slices, and read back. */
module SliceNames {
  import opened Collections
  import opened Decimals
  import opened Slices

  const INT_MAX: nat := 0x7FFF_FFFF
  const SEP: char := '@'

  /** The name of a slice. Padding to the width of the size fails when a bound is printed longer than that. */
  function ToString(begin: nat, end: nat, size: nat): Option<string> {
    var width := |Digits(size)|;
    if |Digits(end)| > width || |Digits(begin)| > width then None
    else Some(Padded(begin, width) + [SEP] + (Padded(end, width) + [SEP] + Digits(size)))
  }

  /** Splits at a character; empty tokens are dropped. */
  function Tokens(s: string, delim: char): (ts: seq<string>)
    decreases |s|
  {
    if s == [] then []
    else if s[0] == delim then Tokens(s[1..], delim)
    else [s[..TokenLen(s, delim)]] + Tokens(s[TokenLen(s, delim)..], delim)
  }

  function TokenLen(s: string, delim: char): (k: nat)
    ensures k <= |s| && (s != [] && s[0] != delim ==> k > 0)
  {
    if s == [] || s[0] == delim then 0 else 1 + TokenLen(s[1..], delim)
  }

  /** `std::stoi` on a token that starts with a digit: its leading digits, if their value fits an `int`. */
  function Stoi(t: string): Option<nat> {
    var k := DigitLen(t);
    if k == 0 || Value(t[..k]) > INT_MAX then None else Some(Value(t[..k]))
  }

  function DigitLen(t: string): (k: nat)
    ensures k <= |t| && AllDigits(t[..k])
  {
    if t == [] || !('0' <= t[0] <= '9') then 0
    else
      assert t[..1 + DigitLen(t[1..])] == [t[0]] + t[1..][..DigitLen(t[1..])];
      1 + DigitLen(t[1..])
  }

  function FromString(msg: string): Option<Slice> {
    var ts := Tokens(msg, SEP);
    if |ts| != 3 then None
    else
      match (Stoi(ts[0]), Stoi(ts[1]), Stoi(ts[2]))
      case (Some(b), Some(e), Some(z)) => Some(Slice(b, e, z))
      case _ => None
  }

  lemma {:induction false} DigitsOnly(t: string)
    requires AllDigits(t)
    ensures DigitLen(t) == |t| && TokenLen(t, SEP) == |t|
  {
    if t != [] {
      DigitsOnly(t[1..]);
    }
  }

  lemma {:induction false} TokenLenStops(t: string, rest: string)
    requires AllDigits(t) && (rest == [] || rest[0] == SEP)
    ensures TokenLen(t + rest, SEP) == |t|
  {
    if t != [] {
      TokenLenStops(t[1..], rest);
      assert (t + rest)[1..] == t[1..] + rest;
    } else {
      assert t + rest == rest;
    }
  }

  lemma FirstToken(t: string, rest: string)
    requires AllDigits(t) && t != []
    ensures Tokens(t + [SEP] + rest, SEP) == [t] + Tokens(rest, SEP)
    ensures Tokens(t, SEP) == [t]
  {
    TokenLenStops(t, [SEP] + rest);
    TokenLenStops(t, []);
    var s := t + [SEP] + rest;
    assert s == t + ([SEP] + rest) && s[..|t|] == t && s[|t|..] == [SEP] + rest && ([SEP] + rest)[1..] == rest;
    assert t + [] == t && t[..|t|] == t && t[|t|..] == [];
  }

  lemma NameExample()
    ensures ToString(3, 10, 10) == Some("03@10@10") && FromString("03@10@10") == Some(Slice(3, 10, 10))
  {
    assert Digits(3) == "3" && Digits(10) == "1" + "0";
    assert Padded(3, 2) == Zeros(1) + "3" == "03" && Padded(10, 2) == "10";
    assert "03" + [SEP] + ("10" + [SEP] + "10") == "03@10@10";
    NameRoundTrip(3, 10, 10);
  }

  /** Reading a printed slice gives it back exactly when its size fits an `int`. */
  lemma NameRoundTrip(begin: nat, end: nat, size: nat)
    requires begin <= end <= size
    ensures ToString(begin, end, size).Some?
    ensures FromString(ToString(begin, end, size).value) == if size < 0x8000_0000 then Some(Slice(begin, end, size)) else None
  {
    var width := |Digits(size)|;
    DigitsMono(begin, size);
    DigitsMono(end, size);
    ThreeTokens(Padded(begin, width), Padded(end, width), Digits(size));
    ReadsPadded(begin, width);
    ReadsPadded(end, width);
    ReadsPadded(size, 0);
  }

  lemma ThreeTokens(a: string, b: string, c: string)
    requires AllDigits(a) && AllDigits(b) && AllDigits(c) && a != [] && b != [] && c != []
    ensures Tokens(a + [SEP] + (b + [SEP] + c), SEP) == [a, b, c]
  {
    FirstToken(a, b + [SEP] + c);
    FirstToken(b, c);
    FirstToken(c, []);
  }

  lemma ReadsPadded(n: nat, width: nat)
    ensures Stoi(Padded(n, width)) == if n <= INT_MAX then Some(n) else None
  {
    var p := Padded(n, width);
    DigitsOnly(p);
    PaddedValue(n, width);
    assert p[..|p|] == p;
  }

  lemma {:induction false} BeforeConcat(x: string, y: string, u: string, v: string)
    requires |x| == |y|
    ensures Before(x + u, y + v) <==> Before(x, y) || (x == y && Before(u, v))
  {
    if x == [] {
      assert x + u == u && y + v == v;
    } else {
      BeforeConcat(x[1..], y[1..], u, v);
      assert (x + u)[1..] == x[1..] + u && (y + v)[1..] == y[1..] + v;
      SameFront(x, y);
    }
  }

  predicate NumericBefore(a: Slice, b: Slice) {
    a.begin < b.begin || (a.begin == b.begin && a.end < b.end)
  }

  /** Names of slices of one size sort like the slices. */
  lemma NameOrder(a: Slice, b: Slice)
    requires 0 <= a.begin <= a.end <= a.size && 0 <= b.begin <= b.end <= b.size && a.size == b.size
    ensures ToString(a.begin, a.end, a.size).Some? && ToString(b.begin, b.end, b.size).Some?
    ensures Before(ToString(a.begin, a.end, a.size).value, ToString(b.begin, b.end, b.size).value) <==> NumericBefore(a, b)
  {
    var w := |Digits(a.size)|;
    DigitsMono(a.begin, a.size);
    DigitsMono(a.end, a.size);
    DigitsMono(b.begin, b.size);
    DigitsMono(b.end, b.size);
    JoinedOrder(Padded(a.begin, w), Padded(b.begin, w), Padded(a.end, w), Padded(b.end, w), Digits(a.size));
    PaddedOrder(a.begin, b.begin, w);
    PaddedOrder(a.end, b.end, w);
  }

  lemma JoinedOrder(p: string, q: string, r: string, s: string, size: string)
    requires |p| == |q| && |r| == |s|
    ensures Before(p + [SEP] + (r + [SEP] + size), q + [SEP] + (s + [SEP] + size)) <==>
            Before(p, q) || (p == q && Before(r, s))
  {
    BeforeConcat(r + [SEP], s + [SEP], size, size);
    BeforeConcat(r, s, [SEP], [SEP]);
    BeforeConcat(p + [SEP], q + [SEP], r + [SEP] + size, s + [SEP] + size);
    BeforeConcat(p, q, [SEP], [SEP]);
    NotBeforeItself(size);
    NotBeforeItself([SEP]);
    SameButLast(p, q, SEP);
    SameButLast(r, s, SEP);
  }

  lemma SameButLast(a: string, b: string, c: char)
    ensures a + [c] == b + [c] <==> a == b
  {
    assert |a + [c]| == |a| + 1 && |b + [c]| == |b| + 1;
    assert (a + [c])[..|a|] == a && (b + [c])[..|b|] == b;
  }

  lemma PaddedOrder(m: nat, n: nat, width: nat)
    requires |Digits(m)| <= width && |Digits(n)| <= width
    ensures Before(Padded(m, width), Padded(n, width)) <==> m < n
    ensures Padded(m, width) == Padded(n, width) <==> m == n
  {
    SameWidthOrder(Padded(m, width), Padded(n, width));
    PaddedValue(m, width);
    PaddedValue(n, width);
  }

  lemma {:induction false} NotBeforeItself(s: string)
    ensures !Before(s, s)
  {
    if s != [] {
      NotBeforeItself(s[1..]);
    }
  }

  // ---------------------------------------------------------------------------------------------------------

  /** Names in the order of strings. */
  ghost predicate InOrder(names: seq<string>) {
    forall i, j :: 0 <= i < j < |names| ==> !Before(names[j], names[i])
  }

  /** What sorting the names gives. */
  ghost predicate IsSorting(names: seq<string>, sorted: seq<string>) {
    multiset(sorted) == multiset(names) && InOrder(sorted)
  }

  lemma {:induction false} BeforeTotal(a: string, b: string)
    ensures a == b || Before(a, b) || Before(b, a)
    ensures !(Before(a, b) && Before(b, a))
  {
    if a != [] && b != [] {
      BeforeTotal(a[1..], b[1..]);
      SameFront(a, b);
    }
  }

  lemma {:induction false} BeforeTrans(a: string, b: string, c: string)
    requires Before(a, b) && Before(b, c)
    ensures Before(a, c)
  {
    if a != [] && a[0] == b[0] == c[0] {
      BeforeTrans(a[1..], b[1..], c[1..]);
    }
  }

  lemma NotAfter(a: string, b: string, c: string)
    requires !Before(b, a) && !Before(c, b)
    ensures !Before(c, a)
  {
    BeforeTotal(a, b);
    BeforeTotal(b, c);
    if Before(c, a) {
      BeforeTotal(a, c);
      if a != b && b != c {
        BeforeTrans(a, b, c);
      }
    }
  }

  /** A list has one arrangement in order. */
  lemma {:induction false} SameSorted(a: seq<string>, b: seq<string>)
    requires multiset(a) == multiset(b) && InOrder(a) && InOrder(b)
    ensures a == b
  {
    SameLength(a, b);
    if a != [] {
      var n := |a| - 1;
      SameLast(a, b);
      CutFront(a, b, n);
      SameSorted(a[..n], b[..n]);
      Rejoin(a, b, n);
    }
  }

  lemma CutFront<T>(a: seq<T>, b: seq<T>, n: nat)
    requires multiset(a) == multiset(b) && |a| == |b| == n + 1 && a[n] == b[n]
    ensures multiset(a[..n]) == multiset(b[..n])
  {
    WithoutLast(a);
    WithoutLast(b);
  }

  lemma Rejoin<T>(a: seq<T>, b: seq<T>, n: nat)
    requires |a| == |b| == n + 1 && a[n] == b[n] && a[..n] == b[..n]
    ensures a == b
  {
    assert a == a[..n] + [a[n]] && b == b[..n] + [b[n]];
  }

  lemma SameLength<T>(a: seq<T>, b: seq<T>)
    requires multiset(a) == multiset(b)
    ensures |a| == |b|
  {
    assert |a| == |multiset(a)| && |b| == |multiset(b)|;
  }

  lemma SameLast(a: seq<string>, b: seq<string>)
    requires multiset(a) == multiset(b) && |a| == |b| > 0 && InOrder(a) && InOrder(b)
    ensures a[|a| - 1] == b[|b| - 1]
  {
    var n := |a| - 1;
    LastIsGreatest(a, b[n], b);
    LastIsGreatest(b, a[n], a);
    BeforeTotal(a[n], b[n]);
  }

  lemma LastIsGreatest(a: seq<string>, x: string, b: seq<string>)
    requires multiset(a) == multiset(b) && a != [] && InOrder(a) && x in b
    ensures !Before(a[|a| - 1], x)
  {
    assert x in multiset(a);
    var i :| 0 <= i < |a| && a[i] == x;
    NotBeforeItself(x);
  }

  /** Sorts a list of names. */
  method SortNames(names: seq<string>) returns (sorted: seq<string>)
    ensures IsSorting(names, sorted)
  {
    sorted := [];
    for i := 0 to |names|
      invariant IsSorting(names[..i], sorted)
    {
      var before := sorted;
      sorted := InsertName(before, names[i]);
      assert names[..i + 1] == names[..i] + [names[i]];
    }
    assert names[..|names|] == names;
  }

  method InsertName(sorted: seq<string>, name: string) returns (r: seq<string>)
    requires InOrder(sorted)
    ensures InOrder(r) && multiset(r) == multiset(sorted) + multiset{name}
  {
    var k := 0;
    while k < |sorted| && !Before(name, sorted[k])
      invariant k <= |sorted| && forall i :: 0 <= i < k ==> !Before(name, sorted[i])
    {
      k := k + 1;
    }
    r := sorted[..k] + [name] + sorted[k..];
    InsertedInOrder(sorted, name, k);
    assert sorted == sorted[..k] + sorted[k..];
  }

  lemma InsertedInOrder(sorted: seq<string>, name: string, k: nat)
    requires InOrder(sorted) && k <= |sorted| && forall i :: 0 <= i < k ==> !Before(name, sorted[i])
    requires k < |sorted| ==> Before(name, sorted[k])
    ensures InOrder(sorted[..k] + [name] + sorted[k..])
  {
    forall j | k <= j < |sorted|
      ensures !Before(sorted[j], name)
    {
      BeforeTotal(name, sorted[k]);
      if j > k {
        NotAfter(name, sorted[k], sorted[j]);
      }
    }
  }

  ghost predicate InBounds(s: Slice) {
    0 <= s.begin <= s.end <= s.size
  }

  function NameOf(s: Slice): string
    requires InBounds(s)
  {
    NameRoundTrip(s.begin, s.end, s.size);
    ToString(s.begin, s.end, s.size).value
  }

  lemma {:induction false} TileBounds(ss: seq<Slice>, size: int, i: nat)
    requires Tiles(ss, size) && i < |ss|
    ensures InBounds(ss[i])
  {
    if i > 0 {
      TileBounds(ss, size, i - 1);
    }
    if i + 1 < |ss| {
      TilesOrdered(ss, size, i, |ss| - 1);
    }
  }

  /** The names of slices that tile a tensor. */
  function NamesOf(ss: seq<Slice>): (names: seq<string>)
    requires forall i :: 0 <= i < |ss| ==> InBounds(ss[i])
    ensures |names| == |ss| && forall i :: 0 <= i < |ss| ==> names[i] == NameOf(ss[i])
  {
    seq(|ss|, i requires 0 <= i < |ss| => NameOf(ss[i]))
  }

  /** Tiles are in the order of their names, empty ones included. */
  lemma TilesInOrder(ss: seq<Slice>, size: int)
    requires Tiles(ss, size)
    ensures (forall i :: 0 <= i < |ss| ==> InBounds(ss[i])) && InOrder(NamesOf(ss))
  {
    forall i | 0 <= i < |ss|
      ensures InBounds(ss[i])
    {
      TileBounds(ss, size, i);
    }
    forall i, j | 0 <= i < j < |ss|
      ensures !Before(NamesOf(ss)[j], NamesOf(ss)[i])
    {
      TilesOrdered(ss, size, i, j);
      NameOrder(ss[j], ss[i]);
    }
  }

  /** However the slices of a tensor arrive, sorting their names lays them out in order. */
  lemma SortingRestores(tiling: seq<Slice>, size: int, sorted: seq<string>)
    requires Tiles(tiling, size)
    ensures forall i :: 0 <= i < |tiling| ==> InBounds(tiling[i])
    ensures IsSorting(NamesOf(tiling), sorted) ==> sorted == NamesOf(tiling)
  {
    TilesInOrder(tiling, size);
    if IsSorting(NamesOf(tiling), sorted) {
      SameSorted(sorted, NamesOf(tiling));
    }
  }

  lemma WithoutLast<T>(a: seq<T>)
    requires |a| > 0
    ensures multiset(a[..|a| - 1]) == multiset(a) - multiset{a[|a| - 1]}
  {
    assert a == a[..|a| - 1] + [a[|a| - 1]];
  }

  /** The rows stored under each name. */
  function BlocksOf<T>(names: seq<string>, read: map<string, seq<T>>): (blocks: seq<seq<T>>)
    requires forall k :: 0 <= k < |names| ==> names[k] in read
    ensures |blocks| == |names| && forall k :: 0 <= k < |names| ==> blocks[k] == read[names[k]]
  {
    seq(|names|, k requires 0 <= k < |names| => read[names[k]])
  }

  /** Reads a tensor whose slices are listed in any order. It fails without slices, or when several do not add up to the
      tensor's rows. */
  method LoadTensor<T(0)>(names: seq<string>, read: map<string, seq<T>>, fullRows: nat)
    returns (ok: bool, out: array<T>, sorted: seq<string>)
    requires forall k :: 0 <= k < |names| ==> names[k] in read
    ensures IsSorting(names, sorted) && forall k :: 0 <= k < |sorted| ==> sorted[k] in read
    ensures ok <==> |names| > 0 && (|names| == 1 || |Flatten(BlocksOf(sorted, read))| == fullRows)
    ensures ok ==> out[..] == Flatten(BlocksOf(sorted, read))
  {
    sorted := SortNames(names);
    SameLength(names, sorted);
    SortingReads(names, sorted, read);
    out := new T[0];
    if |sorted| == 0 {
      return false, out, sorted;
    }
    var blocks := BlocksOf(sorted, read);
    FlattenSize(blocks);
    var rowStarts, rowSum := RowStarts(blocks);
    if |sorted| > 1 && rowSum != fullRows {
      return false, out, sorted;
    }
    out := ReadSlices(blocks, rowStarts, rowSum);
    ok := true;
  }

  lemma SortingReads<T>(names: seq<string>, sorted: seq<string>, read: map<string, seq<T>>)
    requires IsSorting(names, sorted) && forall k :: 0 <= k < |names| ==> names[k] in read
    ensures forall k :: 0 <= k < |sorted| ==> sorted[k] in read
  {
    forall k | 0 <= k < |sorted|
      ensures sorted[k] in read
    {
      assert sorted[k] in multiset(names);
    }
  }

  ghost predicate AreStarts<T>(blocks: seq<seq<T>>, starts: seq<nat>) {
    |starts| <= |blocks| && forall k :: 0 <= k < |starts| ==> starts[k] == RowStart(blocks, k)
  }

  lemma NextStart<T>(blocks: seq<seq<T>>, starts: seq<nat>, sum: nat)
    requires AreStarts(blocks, starts) && |starts| < |blocks| && sum == RowStart(blocks, |starts|)
    ensures AreStarts(blocks, starts + [sum]) && sum + |blocks[|starts|]| == RowStart(blocks, |starts| + 1)
  {
  }

  /** Row starts by a running sum. */
  method RowStarts<T>(blocks: seq<seq<T>>) returns (rowStarts: seq<nat>, rowSum: nat)
    ensures AreStarts(blocks, rowStarts) && |rowStarts| == |blocks| && rowSum == RowStart(blocks, |blocks|)
  {
    rowStarts, rowSum := [], 0;
    for i := 0 to |blocks|
      invariant |rowStarts| == i && AreStarts(blocks, rowStarts) && rowSum == RowStart(blocks, i)
    {
      NextStart(blocks, rowStarts, rowSum);
      rowStarts := rowStarts + [rowSum];
      rowSum := rowSum + |blocks[i]|;
    }
  }

  /** Every slice is read to its place, in any order. */
  method ReadSlices<T(0)>(blocks: seq<seq<T>>, rowStarts: seq<nat>, rowSum: nat) returns (out: array<T>)
    requires AreStarts(blocks, rowStarts) && |rowStarts| == |blocks| && rowSum == RowStart(blocks, |blocks|)
    ensures fresh(out) && out[..] == Flatten(blocks)
  {
    FlattenSize(blocks);
    out := new T[rowSum];
    var todo := UpTo(|blocks|);
    while todo != {}
      invariant todo <= UpTo(|blocks|)
      invariant forall i: nat :: i < |blocks| && i !in todo ==> InPlace(blocks, out[..], i)
      decreases todo
    {
      var i :| i in todo;
      FlattenAt(blocks, i);
      ReadBlock(out, rowStarts[i], blocks, i);
      todo := todo - {i};
    }
    AllInPlace(blocks, out[..]);
  }

  /** The rows of a slice sit in the tensor from its begin to its end. */
  ghost predicate Placed<T>(s: Slice, rows: seq<T>, out: seq<T>) {
    && 0 <= s.begin && s.begin + |rows| == s.end <= |out|
    && forall o :: 0 <= o < |rows| ==> out[s.begin + o] == rows[o]
  }

  ghost predicate FullSlices<T>(tiling: seq<Slice>, blocks: seq<seq<T>>) {
    |blocks| == |tiling| && forall i :: 0 <= i < |tiling| ==> |blocks[i]| == tiling[i].end - tiling[i].begin
  }

  lemma {:induction false} TilingStarts<T>(tiling: seq<Slice>, size: int, blocks: seq<seq<T>>, i: nat)
    requires Tiles(tiling, size) && FullSlices(tiling, blocks) && i < |tiling|
    ensures RowStart(blocks, i) == tiling[i].begin && RowStart(blocks, i + 1) == tiling[i].end
  {
    if i > 0 {
      TilingStarts(tiling, size, blocks, i - 1);
    }
  }

  lemma TilingPlaced<T>(tiling: seq<Slice>, size: int, blocks: seq<seq<T>>)
    requires Tiles(tiling, size) && FullSlices(tiling, blocks)
    ensures |Flatten(blocks)| == size
    ensures forall i :: 0 <= i < |tiling| ==> Placed(tiling[i], blocks[i], Flatten(blocks))
  {
    TilingStarts(tiling, size, blocks, |tiling| - 1);
    FlattenSize(blocks);
    forall i | 0 <= i < |tiling|
      ensures Placed(tiling[i], blocks[i], Flatten(blocks))
    {
      TilingStarts(tiling, size, blocks, i);
      FlattenAt(blocks, i);
      OneSlice(tiling[i], blocks[i], Flatten(blocks));
    }
  }

  lemma OneSlice<T>(s: Slice, rows: seq<T>, out: seq<T>)
    requires 0 <= s.begin && s.begin + |rows| == s.end <= |out| && out[s.begin..s.end] == rows
    ensures Placed(s, rows, out)
  {
    assert forall o :: 0 <= o < |rows| ==> out[s.begin + o] == out[s.begin..s.end][o];
  }

  /** Slices that tile the rows of a tensor and arrive in any order are laid out one after another: every slice from its
      begin to its end, when each has as many rows as that. */
  method LoadTiling<T(0)>(names: seq<string>, read: map<string, seq<T>>, fullRows: nat, ghost tiling: seq<Slice>, ghost size: int)
    returns (ok: bool, out: array<T>)
    requires Tiles(tiling, size) && forall i :: 0 <= i < |tiling| ==> InBounds(tiling[i])
    requires multiset(names) == multiset(NamesOf(tiling)) && forall k :: 0 <= k < |names| ==> names[k] in read
    ensures forall i :: 0 <= i < |tiling| ==> NamesOf(tiling)[i] in read
    ensures |Flatten(BlocksOf(NamesOf(tiling), read))| == fullRows ==> ok
    ensures ok ==> out[..] == Flatten(BlocksOf(NamesOf(tiling), read))
    ensures FullSlices(tiling, BlocksOf(NamesOf(tiling), read)) && fullRows == size ==> ok
    ensures FullSlices(tiling, BlocksOf(NamesOf(tiling), read)) && ok ==>
              out.Length == size && forall i :: 0 <= i < |tiling| ==> Placed(tiling[i], read[NamesOf(tiling)[i]], out[..])
  {
    var sorted;
    SameLength(names, NamesOf(tiling));
    ok, out, sorted := LoadTensor(names, read, fullRows);
    SortingRestores(tiling, size, sorted);
    SortingReads(names, NamesOf(tiling), read);
    ghost var blocks := BlocksOf(NamesOf(tiling), read);
    if FullSlices(tiling, blocks) {
      TilingPlaced(tiling, size, blocks);
    }
  }

  ghost predicate InPlace<T>(blocks: seq<seq<T>>, out: seq<T>, i: nat)
    requires i < |blocks|
  {
    var start := RowStart(blocks, i);
    start + |blocks[i]| <= |out| && out[start..start + |blocks[i]|] == blocks[i]
  }

  lemma {:induction false} StartsApart<T>(blocks: seq<seq<T>>, i: nat, j: nat)
    requires i < j <= |blocks|
    ensures RowStart(blocks, i) + |blocks[i]| <= RowStart(blocks, j)
  {
    if i + 1 < j {
      StartsApart(blocks, i, j - 1);
    }
  }

  method ReadBlock<T>(out: array<T>, start: nat, blocks: seq<seq<T>>, i: nat)
    requires i < |blocks| && start == RowStart(blocks, i) && start + |blocks[i]| <= out.Length
    modifies out
    ensures InPlace(blocks, out[..], i)
    ensures forall j: nat :: j < |blocks| && j != i && old(InPlace(blocks, out[..], j)) ==> InPlace(blocks, out[..], j)
  {
    ghost var was := out[..];
    for k := 0 to |blocks[i]|
      invariant forall m :: 0 <= m < k ==> out[start + m] == blocks[i][m]
      invariant forall m :: 0 <= m < start ==> out[m] == was[m]
      invariant forall m :: start + |blocks[i]| <= m < out.Length ==> out[m] == was[m]
    {
      out[start + k] := blocks[i][k];
    }
    Untouched(blocks, was, out[..], i);
  }

  lemma Untouched<T>(blocks: seq<seq<T>>, was: seq<T>, now: seq<T>, i: nat)
    requires i < |blocks| && |now| == |was| && RowStart(blocks, i) + |blocks[i]| <= |was|
    requires forall m :: 0 <= m < RowStart(blocks, i) ==> now[m] == was[m]
    requires forall m :: RowStart(blocks, i) + |blocks[i]| <= m < |was| ==> now[m] == was[m]
    ensures forall j: nat :: j < |blocks| && j != i && InPlace(blocks, was, j) ==> InPlace(blocks, now, j)
  {
    forall j: nat | j < |blocks| && j != i && InPlace(blocks, was, j)
      ensures InPlace(blocks, now, j)
    {
      if j < i {
        StartsApart(blocks, j, i);
      } else {
        StartsApart(blocks, i, j);
      }
    }
  }

  lemma {:induction false} AllInPlace<T>(blocks: seq<seq<T>>, out: seq<T>)
    requires |out| == RowStart(blocks, |blocks|) && forall i: nat :: i < |blocks| ==> InPlace(blocks, out, i)
    ensures out == Flatten(blocks)
  {
    if blocks != [] {
      var n := |blocks| - 1;
      var init := blocks[..n];
      SamePrefixStarts(blocks, init, n);
      forall i: nat | i < n
        ensures InPlace(init, out[..RowStart(blocks, n)], i)
      {
        assert InPlace(blocks, out, i);
        SamePrefixStarts(blocks, init, i);
        StartsApart(blocks, i, n);
      }
      AllInPlace(init, out[..RowStart(blocks, n)]);
      assert InPlace(blocks, out, n);
    }
  }
}
