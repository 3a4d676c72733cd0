/** What a path means, apart from how it is spelled: its parts, the stack they leave, and the directory they name. */
module Paths {
  /** Characters before the first slash. */
  function PartLen(s: string): (k: nat)
    ensures k <= |s| && (k < |s| ==> s[k] == '/') && forall i :: 0 <= i < k ==> s[i] != '/'
  {
    if s == [] || s[0] == '/' then 0 else 1 + PartLen(s[1..])
  }

  /** The parts between slashes; repeated slashes count as one. */
  function Parts(s: string): (ps: seq<string>)
    ensures forall i :: 0 <= i < |ps| ==> IsPart(ps[i])
    decreases |s|
  {
    if s == [] then []
    else if s[0] == '/' then Parts(s[1..])
    else [s[..PartLen(s)]] + Parts(s[PartLen(s)..])
  }

  predicate IsPart(p: string) {
    p != [] && forall i :: 0 <= i < |p| ==> p[i] != '/'
  }

  predicate IsAbsolute(s: string) {
    s != [] && s[0] == '/'
  }

  /** One more part: `.` changes nothing, `..` takes the last name away, and where there is none it stays in a relative
      path and disappears at the root. */
  function Push(abs: bool, st: seq<string>, p: string): seq<string> {
    if p == "." then st
    else if p != ".." then st + [p]
    else if st != [] && st[|st| - 1] != ".." then st[..|st| - 1]
    else if abs then st
    else st + [p]
  }

  function Walk(abs: bool, st: seq<string>, ps: seq<string>): seq<string>
    decreases |ps|
  {
    if ps == [] then st else Walk(abs, Push(abs, st, ps[0]), ps[1..])
  }

  /** Names, possibly after some leading `..` of a relative path. */
  ghost predicate Normal(abs: bool, st: seq<string>) {
    && (forall i :: 0 <= i < |st| ==> IsPart(st[i]) && st[i] != ".")
    && (abs ==> forall i :: 0 <= i < |st| ==> st[i] != "..")
    && forall i :: 0 < i < |st| && st[i] == ".." ==> st[i - 1] == ".."
  }

  lemma PushNormal(abs: bool, st: seq<string>, p: string)
    requires Normal(abs, st) && IsPart(p)
    ensures Normal(abs, Push(abs, st, p))
  {
  }

  lemma {:induction false} WalkNormal(abs: bool, st: seq<string>, ps: seq<string>)
    requires Normal(abs, st) && forall i :: 0 <= i < |ps| ==> IsPart(ps[i])
    ensures Normal(abs, Walk(abs, st, ps))
    decreases |ps|
  {
    if ps != [] {
      PushNormal(abs, st, ps[0]);
      WalkNormal(abs, Push(abs, st, ps[0]), ps[1..]);
    }
  }

  /** Every part with a slash behind it. */
  function Slashed(st: seq<string>): string {
    if st == [] then "" else Slashed(st[..|st| - 1]) + st[|st| - 1] + "/"
  }

  function Text(abs: bool, st: seq<string>): string {
    (if abs then "/" else "") + Slashed(st)
  }

  /** A stack as a path: no slash at the end, and `.` for the empty relative path. */
  function Show(abs: bool, st: seq<string>): string {
    if st == [] then if abs then "/" else "."
    else Text(abs, st)[..|Text(abs, st)| - 1]
  }

  function Clean(s: string): string {
    Show(IsAbsolute(s), Walk(IsAbsolute(s), [], Parts(s)))
  }

  /** The directory or file a list of parts leads to from `cwd`; going up from the root stays there. */
  function Resolve(cwd: seq<string>, ps: seq<string>): seq<string> {
    if ps == [] then cwd else Follow(Resolve(cwd, ps[..|ps| - 1]), ps[|ps| - 1])
  }

  function Follow(at: seq<string>, p: string): seq<string> {
    if p == "." then at
    else if p == ".." then if at == [] then at else at[..|at| - 1]
    else at + [p]
  }

  lemma {:induction false} ResolveAppend(cwd: seq<string>, a: seq<string>, b: seq<string>)
    ensures Resolve(cwd, a + b) == Resolve(Resolve(cwd, a), b)
  {
    if b == [] {
      assert a + b == a;
    } else {
      ResolveAppend(cwd, a, b[..|b| - 1]);
      assert (a + b)[..|a + b| - 1] == a + b[..|b| - 1];
    }
  }

  lemma PushFollows(abs: bool, cwd: seq<string>, st: seq<string>, p: string)
    requires Normal(abs, st) && (abs ==> cwd == [])
    ensures Resolve(cwd, Push(abs, st, p)) == Follow(Resolve(cwd, st), p)
  {
    assert (st + [p])[..|st|] == st;
    if abs && p == ".." && st == [] {
      assert Resolve(cwd, st) == [];
    }
  }

  /** The stack leads where the parts lead, from every directory a relative path can be read in. */
  lemma {:induction false} WalkResolves(abs: bool, cwd: seq<string>, st: seq<string>, ps: seq<string>)
    requires Normal(abs, st) && (abs ==> cwd == []) && forall i :: 0 <= i < |ps| ==> IsPart(ps[i])
    ensures Resolve(cwd, Walk(abs, st, ps)) == Resolve(Resolve(cwd, st), ps)
    decreases |ps|
  {
    if ps != [] {
      var next := Push(abs, st, ps[0]);
      PushNormal(abs, st, ps[0]);
      PushFollows(abs, cwd, st, ps[0]);
      WalkResolves(abs, cwd, next, ps[1..]);
      assert ps == [ps[0]] + ps[1..];
      ResolveAppend(Resolve(cwd, st), [ps[0]], ps[1..]);
      assert [ps[0]][..0] == [];
    }
  }

  lemma PartsOfPart(p: string, s: string)
    requires IsPart(p)
    ensures Parts(p + "/" + s) == [p] + Parts(s)
    ensures Parts(p) == [p]
  {
    FirstSlash(p, "/" + s);
    FirstSlash(p, "");
    assert p + "/" + s == p + ("/" + s) && p + "" == p;
    assert (p + ("/" + s))[..|p|] == p && (p + ("/" + s))[|p|..] == "/" + s && ("/" + s)[1..] == s;
    assert p[..|p|] == p && p[|p|..] == [];
  }

  lemma {:induction false} FirstSlash(p: string, rest: string)
    requires (forall i :: 0 <= i < |p| ==> p[i] != '/') && (rest == [] || rest[0] == '/')
    ensures PartLen(p + rest) == |p|
  {
    if p != [] {
      FirstSlash(p[1..], rest);
      assert (p + rest)[1..] == p[1..] + rest;
    } else {
      assert p + rest == rest;
    }
  }

  lemma SlashedLast(st: seq<string>, s: string)
    requires st != []
    ensures Slashed(st) + s == Slashed(st[..|st| - 1]) + (st[|st| - 1] + "/" + s)
  {
    Regroup(Slashed(st[..|st| - 1]), st[|st| - 1], "/", s);
  }

  lemma Regroup(a: string, b: string, c: string, d: string)
    ensures a + b + c + d == a + (b + c + d)
  {
  }

  lemma {:induction false} PartsOfSlashed(st: seq<string>, s: string)
    requires forall i :: 0 <= i < |st| ==> IsPart(st[i])
    ensures Parts(Slashed(st) + s) == st + Parts(s)
  {
    if st == [] {
      assert Slashed(st) + s == s;
    } else {
      var n := |st| - 1;
      calc {
        Parts(Slashed(st) + s);
        { SlashedLast(st, s); }
        Parts(Slashed(st[..n]) + (st[n] + "/" + s));
        { PartsOfSlashed(st[..n], st[n] + "/" + s); }
        st[..n] + Parts(st[n] + "/" + s);
        { PartsOfPart(st[n], s); }
        st[..n] + ([st[n]] + Parts(s));
        st + Parts(s);
      }
    }
  }

  lemma ShowForm(abs: bool, st: seq<string>)
    requires Normal(abs, st) && st != []
    ensures Show(abs, st) == (if abs then "/" else "") + (Slashed(st[..|st| - 1]) + st[|st| - 1])
  {
    var n := |st| - 1;
    assert Text(abs, st) == ((if abs then "/" else "") + (Slashed(st[..n]) + st[n])) + "/";
  }

  lemma {:induction false} SlashedStart(st: seq<string>)
    requires st != [] && forall i :: 0 <= i < |st| ==> IsPart(st[i])
    ensures IsPart(st[0]) && Slashed(st) != [] && Slashed(st)[0] == st[0][0]
  {
    if |st| > 1 {
      SlashedStart(st[..|st| - 1]);
    } else {
      assert Slashed(st) == st[0] + "/";
    }
  }

  /** A shown stack is read back as it was. */
  lemma ShowReads(abs: bool, st: seq<string>)
    requires Normal(abs, st)
    ensures IsAbsolute(Show(abs, st)) == abs
    ensures Parts(Show(abs, st)) == if st == [] && !abs then ["."] else st
  {
    if st == [] {
      assert "/"[1..] == "" && Parts("") == [];
      if !abs {
        PartsOfPart(".", "");
      }
    } else {
      ShowForm(abs, st);
      TailReads(st);
      var tail := Slashed(st[..|st| - 1]) + st[|st| - 1];
      assert ("/" + tail)[1..] == tail && "" + tail == tail;
    }
  }

  lemma TailReads(st: seq<string>)
    requires st != [] && forall i :: 0 <= i < |st| ==> IsPart(st[i])
    ensures var tail := Slashed(st[..|st| - 1]) + st[|st| - 1];
            !IsAbsolute(tail) && Parts(tail) == st
  {
    var n := |st| - 1;
    PartsOfSlashed(st[..n], st[n]);
    PartsOfPart(st[n], "");
    assert st == st[..n] + [st[n]];
    if n > 0 {
      SlashedStart(st[..n]);
    } else {
      assert Slashed(st[..n]) + st[n] == st[n];
    }
  }

  /** A stack that is already in order is walked to itself. */
  lemma {:induction false} WalkStays(abs: bool, st: seq<string>, k: nat)
    requires Normal(abs, st) && k <= |st|
    ensures Walk(abs, st[..k], st[k..]) == st
    decreases |st| - k
  {
    if k == |st| {
      assert st[..k] == st && st[k..] == [];
    } else {
      WalkStays(abs, st, k + 1);
      assert st[..k + 1] == st[..k] + [st[k]] && st[k..][1..] == st[k + 1..];
      assert k > 0 ==> st[..k][k - 1] == st[k - 1];
    }
  }

  /** Cleaning a clean path changes nothing. */
  lemma CleanTwice(s: string)
    ensures Clean(Clean(s)) == Clean(s)
  {
    var abs := IsAbsolute(s);
    var st := Walk(abs, [], Parts(s));
    WalkNormal(abs, [], Parts(s));
    ShowReads(abs, st);
    WalkStays(abs, st, 0);
    assert st[..0] == [] && st[0..] == st;
    if st == [] && !abs {
      assert Walk(abs, [], ["."]) == Walk(abs, [], []) by {
        assert ["."][1..] == [];
      }
    }
  }

  /** The clean path leads where the path led: an absolute one from the root, a relative one from anywhere. */
  lemma CleanResolves(s: string, cwd: seq<string>)
    requires IsAbsolute(s) ==> cwd == []
    ensures IsAbsolute(Clean(s)) == IsAbsolute(s)
    ensures Resolve(cwd, Parts(Clean(s))) == Resolve(cwd, Parts(s))
  {
    var abs := IsAbsolute(s);
    var st := Walk(abs, [], Parts(s));
    WalkNormal(abs, [], Parts(s));
    WalkResolves(abs, cwd, [], Parts(s));
    ShowReads(abs, st);
    assert ["."][..0] == [];
  }

  /** What is left has no `.`, and `..` only at the front of a relative path. */
  lemma CleanIsNormal(s: string)
    ensures Clean(s) != "" && (Clean(s) == "." || Normal(IsAbsolute(s), Parts(Clean(s))))
  {
    var abs := IsAbsolute(s);
    var st := Walk(abs, [], Parts(s));
    WalkNormal(abs, [], Parts(s));
    ShowReads(abs, st);
    if st != [] {
      ShowForm(abs, st);
    }
  }

  ghost predicate SingleSlashes(s: string) {
    forall i :: 0 < i < |s| && s[i] == '/' ==> s[i - 1] != '/'
  }

  lemma OnePartMore(t: string, p: string)
    requires SingleSlashes(t) && (t != "" ==> t[0] != '/') && IsPart(p)
    ensures SingleSlashes(t + p + "/") && (t + p + "/")[0] != '/'
  {
    var s := t + p + "/";
    assert s[0] == if t == "" then p[0] else t[0];
    forall i | 0 < i < |s| && s[i] == '/'
      ensures s[i - 1] != '/'
    {
      if i < |t| {
        assert t[i - 1] != '/';
      } else {
        assert i == |t| + |p| && s[i - 1] == p[|p| - 1];
      }
    }
  }

  lemma {:induction false} SlashedShape(st: seq<string>)
    requires forall i :: 0 <= i < |st| ==> IsPart(st[i])
    ensures SingleSlashes(Slashed(st)) && (Slashed(st) != "" ==> Slashed(st)[0] != '/')
  {
    if st != [] {
      SlashedShape(st[..|st| - 1]);
      OnePartMore(Slashed(st[..|st| - 1]), st[|st| - 1]);
    }
  }

  /** No slash too many: none follows another, and none is at the end of a path other than the root. With its parts this
      fixes the text of a clean path. */
  lemma CleanShape(s: string)
    ensures SingleSlashes(Clean(s))
    ensures |Clean(s)| > 1 ==> Clean(s)[|Clean(s)| - 1] != '/'
    ensures Parts(s) == [] ==> Clean(s) == if IsAbsolute(s) then "/" else "."
  {
    var abs := IsAbsolute(s);
    var st := Walk(abs, [], Parts(s));
    WalkNormal(abs, [], Parts(s));
    if st != [] {
      SlashedShape(st);
      ShowForm(abs, st);
      assert SingleSlashes(Text(abs, st));
      assert Clean(s)[|Clean(s)| - 1] == st[|st| - 1][|st[|st| - 1]| - 1];
    }
  }
}
