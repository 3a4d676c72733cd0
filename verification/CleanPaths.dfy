/** `CleanPath`: cleans a path in its own buffer, a write pointer following a read pointer. */
module CleanPaths {
  import opened Paths

  const NUL: char := '\0'

  predicate NoNul(s: string) {
    forall i :: 0 <= i < |s| ==> s[i] != NUL
  }

  /** From `src` on the buffer still holds the input and its terminator. */
  ghost predicate Unread(buf: array<char>, s: string, src: nat)
    reads buf
  {
    && NoNul(s) && buf.Length > |s| && src <= |s| && buf[|s|] == NUL
    && forall i :: src <= i < |s| ==> buf[i] == s[i]
  }

  /** Where the part that starts at `src` ends. */
  ghost function PartEnd(s: string, src: nat): (end: nat)
    requires src <= |s|
    ensures src <= end <= |s| && (end < |s| ==> s[end] == '/') && forall i :: src <= i < end ==> s[i] != '/'
  {
    var rest := s[src..];
    assert forall i :: src <= i < |s| ==> s[i] == rest[i - src];
    src + PartLen(rest)
  }

  lemma NextPart(s: string, src: nat)
    requires src < |s| && s[src] != '/'
    ensures src < PartEnd(s, src) && IsPart(s[src..PartEnd(s, src)])
    ensures Parts(s[src..]) == [s[src..PartEnd(s, src)]] + Parts(s[PartEnd(s, src)..])
  {
    var rest, k := s[src..], PartLen(s[src..]);
    assert rest[..k] == s[src..src + k] && rest[k..] == s[src + k..];
  }

  /** Behind a part and the slash that ends it. */
  ghost function PastPart(s: string, src: nat): (r: nat)
    requires src <= |s|
    ensures src <= r <= |s|
  {
    if PartEnd(s, src) < |s| then PartEnd(s, src) + 1 else PartEnd(s, src)
  }

  /** How the loop recognises `.` and `..`. */
  lemma DotsSeen(s: string, src: nat)
    requires src < |s| && s[src] != '/'
    ensures var p := s[src..PartEnd(s, src)];
            && (p == "." <==> s[src] == '.' && (src + 1 == |s| || s[src + 1] == '/'))
            && (p == ".." <==> s[src] == '.' && src + 1 < |s| && s[src + 1] == '.' && (src + 2 == |s| || s[src + 2] == '/'))
  {
    NextPart(s, src);
    var end := PartEnd(s, src);
    assert end > src + 1 ==> s[src + 1] != '/';
    assert end > src + 2 ==> s[src + 2] != '/';
    var p := s[src..end];
    assert |p| == end - src && p[0] == s[src];
    assert |p| > 1 ==> p[1] == s[src + 1];
  }

  lemma AfterSlash(s: string, src: nat)
    requires src < |s| && s[src] == '/'
    ensures Parts(s[src..]) == Parts(s[src + 1..])
  {
    assert s[src..][1..] == s[src + 1..];
  }

  method SkipSlashes(buf: array<char>, ghost s: string, from: nat) returns (src: nat)
    requires Unread(buf, s, from)
    ensures from <= src <= |s| && (src < |s| ==> s[src] != '/') && Parts(s[src..]) == Parts(s[from..])
  {
    src := from;
    ghost var rest := Parts(s[from..]);
    while buf[src] == '/'
      invariant from <= src <= |s| && Parts(s[src..]) == rest
      decreases |s| - src
    {
      assert s[src] == '/';
      AfterSlash(s, src);
      src := src + 1;
    }
  }

  method CopyChar(buf: array<char>, ghost s: string, dst: nat, src: nat)
    requires Unread(buf, s, src) && dst <= src < |s|
    modifies buf
    ensures Unread(buf, s, src) && buf[..dst + 1] == old(buf[..dst]) + [s[src]]
  {
    buf[dst] := buf[src];
  }

  lemma OneMoreChar(s: string, from: nat, to: nat)
    requires from <= to < |s|
    ensures s[from..to + 1] == s[from..to] + [s[to]]
  {
  }

  method CopyAlong(buf: array<char>, ghost s: string, dst: nat, src: nat, ghost from: nat, ghost start: string)
    requires Unread(buf, s, src) && dst <= src < |s| && from <= src && buf[..dst] == start + s[from..src]
    modifies buf
    ensures Unread(buf, s, src) && buf[..dst + 1] == start + s[from..src + 1]
  {
    CopyChar(buf, s, dst, src);
    OneMoreChar(s, from, src);
  }

  /** Copies up to the next slash, and the slash. */
  method CopyPart(buf: array<char>, ghost s: string, dst0: nat, src0: nat) returns (dst: nat, src: nat)
    requires Unread(buf, s, src0) && dst0 <= src0 < |s| && s[src0] != '/'
    modifies buf
    ensures Unread(buf, s, src) && dst <= src
    ensures src == PastPart(s, src0) && buf[..dst] == old(buf[..dst0]) + s[src0..src]
  {
    dst, src := dst0, src0;
    ghost var start := buf[..dst0];
    while buf[src] != NUL && buf[src] != '/'
      invariant Unread(buf, s, src) && dst <= src && src0 <= src <= PartEnd(s, src0)
      invariant buf[..dst] == start + s[src0..src]
      decreases |s| - src
    {
      CopyAlong(buf, s, dst, src, src0, start);
      dst, src := dst + 1, src + 1;
    }
    if buf[src] != NUL {
      CopyAlong(buf, s, dst, src, src0, start);
      dst, src := dst + 1, src + 1;
    }
  }

  /** Moves the write pointer back over the last part, never past the limit. */
  method BackUp(buf: array<char>, dst0: nat, limit: nat, ghost before: string, ghost last: string) returns (dst: nat)
    requires dst0 <= buf.Length && buf[..dst0] == before + last + "/" && IsPart(last)
    requires limit <= |before| && (|before| == limit || before[|before| - 1] == '/')
    ensures dst == |before|
  {
    dst := dst0 - 1;
    ghost var whole := before + last + "/";
    assert forall i :: |before| <= i < dst0 - 1 ==> whole[i] == last[i - |before|];
    assert forall i :: 0 <= i < dst0 ==> buf[i] == buf[..dst0][i] == whole[i];
    while dst != limit && buf[dst - 1] != '/'
      invariant |before| <= dst < dst0
      decreases dst
    {
      dst := dst - 1;
    }
  }

  /** Leading `..` of a stack: what can never be taken back. */
  function Lead(st: seq<string>): (k: nat)
    ensures k <= |st| && (forall i :: 0 <= i < k ==> st[i] == "..") && (k < |st| ==> st[k] != "..")
  {
    if st == [] || st[0] != ".." then 0 else 1 + Lead(st[1..])
  }

  lemma {:induction false} LeadIs(st: seq<string>, k: nat)
    requires k <= |st| && (forall i :: 0 <= i < k ==> st[i] == "..") && (k < |st| ==> st[k] != "..")
    ensures Lead(st) == k
  {
    if k > 0 {
      LeadIs(st[1..], k - 1);
    }
  }

  lemma {:induction false} NamesAfterLead(abs: bool, st: seq<string>, i: nat)
    requires Normal(abs, st) && Lead(st) <= i < |st|
    ensures st[i] != ".."
  {
    if i > Lead(st) {
      NamesAfterLead(abs, st, i - 1);
    }
  }

  ghost function LimitOf(abs: bool, st: seq<string>): nat {
    |Text(abs, st[..Lead(st)])|
  }

  lemma TextPush(abs: bool, st: seq<string>, p: string)
    ensures Text(abs, st + [p]) == Text(abs, st) + p + "/"
  {
    assert (st + [p])[..|st|] == st;
  }

  lemma {:induction false} TextGrows(abs: bool, st: seq<string>, k: nat)
    requires k <= |st|
    ensures |Text(abs, st[..k])| <= |Text(abs, st)| && (k < |st| ==> |Text(abs, st[..k])| < |Text(abs, st)|)
  {
    if k == |st| {
      assert st[..k] == st;
    } else {
      var n := |st| - 1;
      TextGrows(abs, st[..n], k);
      assert st[..n][..k] == st[..k] && st[..n] + [st[n]] == st;
      TextPush(abs, st[..n], st[n]);
    }
  }

  /** The pointer stands behind the stack's text, or at the end of the input one slash short of it. */
  ghost predicate Placed(abs: bool, st: seq<string>, t: string, limit: nat, atEnd: bool) {
    && Normal(abs, st)
    && ((t == Text(abs, st) && limit == LimitOf(abs, st)) || (atEnd && st != [] && t + "/" == Text(abs, st)))
  }

  /** A name is copied with its slash, if it has one. */
  lemma NamePlaced(abs: bool, st: seq<string>, t: string, limit: nat, s: string, src: nat)
    requires src < |s| && s[src] != '/' && Placed(abs, st, t, limit, false)
    requires s[src..PartEnd(s, src)] != "." && s[src..PartEnd(s, src)] != ".."
    ensures Placed(abs, Push(abs, st, s[src..PartEnd(s, src)]), t + s[src..PastPart(s, src)], limit, PastPart(s, src) == |s|)
  {
    var end := PartEnd(s, src);
    var p := s[src..end];
    NextPart(s, src);
    PushNormal(abs, st, p);
    TextPush(abs, st, p);
    LeadIs(st + [p], Lead(st));
    assert (st + [p])[..Lead(st)] == st[..Lead(st)];
    if end < |s| {
      OneMoreChar(s, src, end);
      assert t + s[src..end + 1] == t + p + "/";
    } else {
      assert (t + p) + "/" == Text(abs, st + [p]);
    }
  }

  /** Only `..` is on the stack of a relative path: one more is kept for good. */
  lemma UpKept(st: seq<string>, t: string, limit: nat)
    requires Placed(false, st, t, limit, false) && Lead(st) == |st|
    ensures Push(false, st, "..") == st + [".."] && Normal(false, st + [".."])
    ensures LimitOf(false, st + [".."]) == |Text(false, st + [".."])|
    ensures Text(false, st + [".."]) == t + ".." + "/"
  {
    TextPush(false, st, "..");
    LeadIs(st + [".."], |st| + 1);
    assert (st + [".."])[..|st| + 1] == st + [".."];
    PushNormal(false, st, "..");
  }

  /** The last name is taken back. */
  lemma NameDropped(abs: bool, st: seq<string>, t: string, limit: nat)
    requires Placed(abs, st, t, limit, false) && Lead(st) < |st|
    ensures var n := |st| - 1;
            && Push(abs, st, "..") == st[..n] && IsPart(st[n]) && t == Text(abs, st[..n]) + st[n] + "/"
            && Placed(abs, st[..n], Text(abs, st[..n]), limit, false) && limit <= |Text(abs, st[..n])|
            && (|Text(abs, st[..n])| == limit || Text(abs, st[..n])[|Text(abs, st[..n])| - 1] == '/')
  {
    var n := |st| - 1;
    NamesAfterLead(abs, st, n);
    PushNormal(abs, st, "..");
    assert st[..n] + [st[n]] == st;
    TextPush(abs, st[..n], st[n]);
    LeadIs(st[..n], Lead(st));
    assert st[..n][..Lead(st)] == st[..Lead(st)];
    TextGrows(abs, st[..n], Lead(st));
  }

  lemma AtLimit(abs: bool, st: seq<string>, t: string, limit: nat)
    requires Placed(abs, st, t, limit, false)
    ensures |t| == limit <==> Lead(st) == |st|
    ensures abs && |t| == limit ==> st == []
  {
    TextGrows(abs, st, Lead(st));
    if Lead(st) == |st| {
      assert st[..|st|] == st;
    }
  }

  /** Copies a `..` that cannot be taken back, with its slash if it has one; the read pointer stays on the slash. */
  method KeepUp(buf: array<char>, ghost s: string, dst0: nat, src0: nat) returns (dst: nat, src: nat)
    requires Unread(buf, s, src0) && dst0 <= src0 && src0 + 2 <= |s| && s[src0..src0 + 2] == ".."
    modifies buf
    ensures src == src0 + 2 && Unread(buf, s, src) && dst <= src + 1 && (src == |s| ==> dst <= src)
    ensures buf[..dst] == old(buf[..dst0]) + ".." + if src < |s| then [s[src]] else ""
  {
    dst, src := dst0, src0;
    ghost var t := buf[..dst];
    assert s[src] == s[src0..src0 + 2][0] && s[src + 1] == s[src0..src0 + 2][1];
    CopyChar(buf, s, dst, src);
    dst, src := dst + 1, src + 1;
    CopyChar(buf, s, dst, src);
    dst, src := dst + 1, src + 1;
    assert buf[..dst] == t + "..";
    if buf[src] != NUL {
      CopyChar(buf, s, dst, src);
      dst := dst + 1;
    }
  }

  method DropName(buf: array<char>, dst0: nat, limit: nat, abs: bool, ghost st: seq<string>) returns (dst: nat)
    requires dst0 <= buf.Length && Placed(abs, st, buf[..dst0], limit, false) && Lead(st) < |st|
    ensures dst <= dst0 && Placed(abs, Push(abs, st, ".."), buf[..dst], limit, false)
  {
    ghost var t, n := buf[..dst0], |st| - 1;
    NameDropped(abs, st, t, limit);
    dst := BackUp(buf, dst0, limit, Text(abs, st[..n]), st[n]);
    assert buf[..dst] == t[..dst] == Text(abs, st[..n]);
  }

  method KeepPlaced(buf: array<char>, ghost s: string, dst0: nat, src0: nat, ghost limit: nat, ghost st: seq<string>)
    returns (dst: nat, src: nat)
    requires Unread(buf, s, src0) && dst0 <= src0 < |s| && PartEnd(s, src0) == src0 + 2 && s[src0..src0 + 2] == ".."
    requires Placed(false, st, buf[..dst0], limit, false) && Lead(st) == |st|
    modifies buf
    ensures src == src0 + 2 && Unread(buf, s, src) && dst <= src + 1 && (src == |s| ==> dst <= src)
    ensures Placed(false, Push(false, st, ".."), buf[..dst], dst, src == |s|)
  {
    ghost var t := buf[..dst0];
    UpKept(st, t, limit);
    dst, src := KeepUp(buf, s, dst0, src0);
    KeptPlaced(st, t, buf[..dst], src == |s|);
  }

  method TakeUp(buf: array<char>, ghost s: string, dst0: nat, src0: nat, limit0: nat, abs: bool, ghost st: seq<string>)
    returns (dst: nat, src: nat, limit: nat)
    requires Unread(buf, s, src0) && dst0 <= src0 < |s| && PartEnd(s, src0) == src0 + 2 && s[src0..src0 + 2] == ".."
    requires Placed(abs, st, buf[..dst0], limit0, false)
    modifies buf
    ensures src == src0 + 2 && Unread(buf, s, src) && dst <= src + 1 && (src == |s| ==> dst <= src)
    ensures Placed(abs, Push(abs, st, ".."), buf[..dst], limit, src == |s|)
  {
    dst, limit := dst0, limit0;
    src := src0 + 2;
    AtLimit(abs, st, buf[..dst0], limit0);
    if dst != limit {
      dst := DropName(buf, dst, limit, abs, st);
    } else if !abs {
      src := src - 2;
      dst, src := KeepPlaced(buf, s, dst, src, limit, st);
      limit := dst;
    }
  }

  /** `..`: takes the last name back, or keeps itself in a relative path, or disappears at the root. */
  method GoUp(buf: array<char>, ghost s: string, dst0: nat, src0: nat, limit0: nat, abs: bool, ghost st0: seq<string>)
    returns (dst: nat, src: nat, limit: nat, ghost st: seq<string>)
    requires Unread(buf, s, src0) && dst0 <= src0 < |s| && PartEnd(s, src0) == src0 + 2 && s[src0..src0 + 2] == ".."
    requires Placed(abs, st0, buf[..dst0], limit0, false)
    modifies buf
    ensures Unread(buf, s, src) && dst <= src && src == PastPart(s, src0) && st == Push(abs, st0, "..")
    ensures Placed(abs, st, buf[..dst], limit, src == |s|)
  {
    st := Push(abs, st0, "..");
    dst, src, limit := TakeUp(buf, s, dst0, src0, limit0, abs, st0);
    if buf[src] != NUL {
      src := src + 1;
    }
  }

  lemma KeptPlaced(st: seq<string>, t: string, now: string, atEnd: bool)
    requires Normal(false, st + [".."]) && LimitOf(false, st + [".."]) == |Text(false, st + [".."])|
    requires Text(false, st + [".."]) == t + ".." + "/" && now == t + ".." + if atEnd then "" else "/"
    ensures Placed(false, st + [".."], now, |now|, atEnd)
  {
    assert atEnd ==> now == t + "..";
  }

  /** One part of the input. */
  method Step(buf: array<char>, ghost s: string, dst0: nat, src0: nat, limit0: nat, abs: bool, ghost st0: seq<string>)
    returns (dst: nat, src: nat, limit: nat, ghost st: seq<string>)
    requires Unread(buf, s, src0) && dst0 <= src0 < |s| && s[src0] != '/'
    requires Placed(abs, st0, buf[..dst0], limit0, false)
    modifies buf
    ensures Unread(buf, s, src) && dst <= src && src == PastPart(s, src0)
    ensures st == Push(abs, st0, s[src0..PartEnd(s, src0)]) && Placed(abs, st, buf[..dst], limit, src == |s|)
  {
    DotsSeen(s, src0);
    NextPart(s, src0);
    dst, src, limit, st := dst0, src0, limit0, Push(abs, st0, s[src0..PartEnd(s, src0)]);
    if buf[src] == '.' {
      if buf[src + 1] == '/' || buf[src + 1] == NUL {
        src := src + 1;
        if buf[src] != NUL {
          src := src + 1;
        }
        return;
      } else if buf[src + 1] == '.' && (buf[src + 2] == '/' || buf[src + 2] == NUL) {
        assert |s[src0..PartEnd(s, src0)]| == 2;
        dst, src, limit, st := GoUp(buf, s, dst, src, limit, abs, st0);
        return;
      }
    }
    NamePlaced(abs, st0, buf[..dst0], limit0, s, src0);
    dst, src := CopyPart(buf, s, dst, src);
  }

  /** What is in front of the pointer at the end, less one trailing slash, is the shown stack. */
  lemma Finished(abs: bool, st: seq<string>, t: string, limit: nat)
    requires Placed(abs, st, t, limit, true)
    ensures t == "" ==> Show(abs, st) == "."
    ensures |t| > 1 && t[|t| - 1] == '/' ==> Show(abs, st) == t[..|t| - 1]
    ensures t != "" && !(|t| > 1 && t[|t| - 1] == '/') ==> Show(abs, st) == t
  {
    if st != [] {
      var n := |st| - 1;
      assert st[..n] + [st[n]] == st;
      TextPush(abs, st[..n], st[n]);
      ShowForm(abs, st);
    }
  }

  /** All parts, one after another. */
  method CleanParts(buf: array<char>, ghost s: string, dst0: nat, src0: nat, abs: bool) returns (dst: nat, ghost st: seq<string>, ghost limit: nat)
    requires Unread(buf, s, src0) && dst0 <= src0 && (src0 < |s| ==> s[src0] != '/') && buf[..dst0] == Text(abs, [])
    modifies buf
    ensures dst <= |s| < buf.Length && st == Walk(abs, [], Parts(s[src0..])) && Placed(abs, st, buf[..dst], limit, true)
  {
    var src: nat, backtrackLimit: nat := src0, dst0;
    dst, st := dst0, [];
    while buf[src] != NUL
      invariant Unread(buf, s, src) && dst <= src && (src < |s| ==> s[src] != '/')
      invariant Placed(abs, st, buf[..dst], backtrackLimit, src == |s|)
      invariant Walk(abs, st, Parts(s[src..])) == Walk(abs, [], Parts(s[src0..]))
      decreases |s| - src
    {
      PastIsNext(abs, st, s, src);
      dst, src, backtrackLimit, st := Step(buf, s, dst, src, backtrackLimit, abs, st);
      src := SkipSlashes(buf, s, src);
    }
    limit := backtrackLimit;
  }

  lemma PastIsNext(abs: bool, st: seq<string>, s: string, src: nat)
    requires src < |s| && s[src] != '/'
    ensures src < PastPart(s, src)
    ensures Walk(abs, st, Parts(s[src..])) == Walk(abs, Push(abs, st, s[src..PartEnd(s, src)]), Parts(s[PastPart(s, src)..]))
  {
    NextPart(s, src);
    var end := PartEnd(s, src);
    if end < |s| {
      AfterSlash(s, end);
    }
    assert ([s[src..end]] + Parts(s[end..]))[1..] == Parts(s[end..]);
  }

  /** Drops one trailing slash, except the root; an empty result is spelled `.`. */
  method Trim(buf: array<char>, length: nat, abs: bool, ghost st: seq<string>, ghost limit: nat) returns (path: string)
    requires length <= buf.Length && Placed(abs, st, buf[..length], limit, true)
    ensures path == Show(abs, st)
  {
    Finished(abs, st, buf[..length], limit);
    if length != 0 {
      path := buf[..if length > 1 && buf[length - 1] == '/' then length - 1 else length];
      assert buf[..length][..length - 1] == buf[..length - 1];
    } else {
      path := ".";
    }
  }

  /** What the loop sees of a path: it ends at the first terminator. */
  function CString(s: string): (r: string)
    ensures NoNul(r) && r <= s && (|r| < |s| ==> s[|r|] == NUL)
  {
    if s == [] || s[0] == NUL then [] else [s[0]] + CString(s[1..])
  }

  lemma WholeCString(s: string)
    requires NoNul(s)
    ensures CString(s) == s
  {
    assert s[..|s|] == s;
  }

  method CopyOf(path: string) returns (buf: array<char>)
    ensures fresh(buf) && Unread(buf, CString(path), 0)
  {
    buf := new char[|path| + 1](i requires 0 <= i <= |path| => if i < |path| then path[i] else NUL);
  }

  /** Copies the slash of an absolute path and skips the slashes after it. */
  method Root(buf: array<char>, ghost s: string) returns (dst: nat, src: nat, abs: bool)
    requires Unread(buf, s, 0)
    modifies buf
    ensures Unread(buf, s, src) && dst <= src && (src < |s| ==> s[src] != '/')
    ensures abs == (s != [] && s[0] == '/') && buf[..dst] == Text(abs, []) && Parts(s[src..]) == Parts(s)
  {
    dst, src, abs := 0, 0, buf[0] == '/';
    assert s[0..] == s;
    if abs {
      CopyChar(buf, s, dst, src);
      dst, src := 1, 1;
      AfterSlash(s, 0);
      src := SkipSlashes(buf, s, src);
    }
  }

  /** Cleans a path: the result spells out the meaning of the path up to its first terminator. */
  method CleanPath(path: string) returns (cleaned: string)
    ensures cleaned == Clean(CString(path))
  {
    var buf := CopyOf(path);
    ghost var s := CString(path);
    ghost var st, limit;
    var dst, src, abs := Root(buf, s);
    dst, st, limit := CleanParts(buf, s, dst, src, abs);
    cleaned := Trim(buf, dst, abs, st, limit);
  }
}
