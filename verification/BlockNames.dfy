/** The two names of a saved block: the one in the index and the one in the table file. */
module BlockNames {
  import Decimals
  import opened SaveBundles

  predicate Contains(s: string, part: string) {
    part <= s || (s != [] && Contains(s[1..], part))
  }

  /** Somewhere in the text. */
  lemma {:induction false} ContainsAt(s: string, part: string)
    ensures Contains(s, part) <==> exists i :: 0 <= i <= |s| && part <= s[i..]
  {
    if part <= s {
      assert part <= s[0..];
    } else if s != [] {
      ContainsAt(s[1..], part);
      if i :| 0 <= i <= |s| && part <= s[i..] {
        assert i > 0 && s[1..][i - 1..] == s[i..];
      }
      if i :| 0 <= i <= |s[1..]| && part <= s[1..][i..] {
        assert s[1..][i..] == s[i + 1..];
      }
    }
  }

  /** The name under which a table file describes a block. */
  function MetaKey(b: Block): string {
    if Contains(b.name, "/part_") then BlockNameEncode(b.name, "", "") else BlockNameEncode(b.name, b.slice, "^")
  }

  lemma MetaKeyExample()
    ensures MetaKey(Block("w", " ", true)) == "w^ " && MetaKey(Block("a/part_b", " ", true)) == "a/part_b"
  {
    ContainsMiddle("a", "/part_", "b");
    assert "a" + "/part_" + "b" == "a/part_b";
  }

  lemma {:induction false} ContainsMiddle(a: string, part: string, b: string)
    ensures Contains(a + part + b, part)
  {
    if a == [] {
      assert a + part + b == part + b && part <= part + b;
    } else {
      ContainsMiddle(a[1..], part, b);
      assert (a + part + b)[1..] == a[1..] + part + b;
    }
  }

  /** The file and the index agree on the name of every table block; for a dense tensor they agree exactly when
      its own name does not contain "/part_". */
  lemma NamesAgree(b: Block, shard: nat, shardNum: nat)
    ensures var kept := Stored(b, shard, shardNum);
            MetaKey(kept) == Key(kept) <==> !b.dense || !Contains(b.name, "/part_")
  {
    var kept := Stored(b, shard, shardNum);
    if !b.dense {
      ContainsMiddle(DotForAt(b.name), "/part_", Decimals.Digits(shard) + "_" + Decimals.Digits(shardNum));
      assert kept.name == DotForAt(b.name) + "/part_" + (Decimals.Digits(shard) + "_" + Decimals.Digits(shardNum));
    } else if Contains(b.name, "/part_") {
      assert |MetaKey(kept)| == |b.name| < |Key(kept)|;
    }
  }
}
