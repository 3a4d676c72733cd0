/** Machine words, written out over unbounded integers. */
module Words {
  /** Ids are 64-bit signed. */
  type int64 = x: int | -0x8000_0000_0000_0000 <= x < 0x8000_0000_0000_0000

  /** The word read as `uint64`. */
  function Unsigned(id: int64): (r: nat)
    ensures r < 0x1_0000_0000_0000_0000 && (r - id) % 0x1_0000_0000_0000_0000 == 0
  {
    if id >= 0 then id else id + 0x1_0000_0000_0000_0000
  }

  /** A 64-bit difference narrowed to a 32-bit `int`, in two's complement. */
  function NarrowToInt(x: int): (r: int)
    ensures -0x8000_0000 <= r < 0x8000_0000 && (r - x) % 0x1_0000_0000 == 0
  {
    (x + 0x8000_0000) % 0x1_0000_0000 - 0x8000_0000
  }

  lemma AddMultiple(x: int, q: int, n: int)
    requires n > 0
    ensures (x + q * n) % n == x % n
  {
    var y := x + q * n;
    assert y == (x / n + q) * n + x % n;
    var d := y / n - (x / n + q);
    assert d * n == x % n - y % n;
    assert d > 0 ==> d * n >= n;
    assert d < 0 ==> d * n <= -n;
  }
}
