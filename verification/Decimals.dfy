/** Printed decimal numbers: `std::to_string`, zero padding, and reading them back. */
module Decimals {
  predicate AllDigits(s: string) {
    forall i :: 0 <= i < |s| ==> '0' <= s[i] <= '9'
  }

  function Digit(d: nat): (c: char)
    requires d < 10
    ensures '0' <= c <= '9' && c as int == '0' as int + d
  {
    ('0' as int + d) as char
  }

  /** `std::to_string` of a non-negative number. */
  function Digits(n: nat): (s: string)
    ensures |s| > 0 && AllDigits(s)
    ensures |s| > 1 ==> s[0] != '0'
  {
    if n < 10 then [Digit(n)] else Digits(n / 10) + [Digit(n % 10)]
  }

  /** The number a run of digits stands for. */
  function Value(s: string): nat
    requires AllDigits(s)
  {
    if s == [] then 0 else 10 * Value(s[..|s| - 1]) + (s[|s| - 1] as int - '0' as int)
  }

  lemma {:induction false} DigitsValue(n: nat)
    ensures Value(Digits(n)) == n
  {
    if n >= 10 {
      DigitsValue(n / 10);
      assert Digits(n)[..|Digits(n)| - 1] == Digits(n / 10);
    } else {
      assert Value([]) == 0 && [Digit(n)][..0] == [];
    }
  }

  lemma {:induction false} DigitsMono(a: nat, b: nat)
    requires a <= b
    ensures |Digits(a)| <= |Digits(b)|
  {
    if a >= 10 {
      DigitsMono(a / 10, b / 10);
    }
  }

  function Zeros(n: nat): (s: string)
    ensures |s| == n && AllDigits(s) && forall i :: 0 <= i < n ==> s[i] == '0'
  {
    seq(n, i => '0')
  }

  lemma {:induction false} ZerosValue(n: nat, s: string)
    requires AllDigits(s)
    ensures Value(Zeros(n) + s) == Value(s)
    decreases |s|, n
  {
    if s == [] {
      assert Zeros(n) + s == Zeros(n);
      if n > 0 {
        ZerosValue(n - 1, s);
        assert Zeros(n)[..n - 1] == Zeros(n - 1) + s;
      }
    } else {
      var t := Zeros(n) + s;
      ZerosValue(n, s[..|s| - 1]);
      assert t[..|t| - 1] == Zeros(n) + s[..|s| - 1];
    }
  }

  /** A number printed with at least `width` characters, as `%0<width>lld` does. */
  function Padded(n: nat, width: nat): (s: string)
    ensures AllDigits(s) && |s| > 0 && |s| >= width
    ensures |Digits(n)| <= width ==> |s| == width
  {
    var d := Digits(n);
    if |d| >= width then d else Zeros(width - |d|) + d
  }

  lemma PaddedValue(n: nat, width: nat)
    ensures Value(Padded(n, width)) == n
  {
    DigitsValue(n);
    if |Digits(n)| < width {
      ZerosValue(width - |Digits(n)|, Digits(n));
    }
  }

  function Pow10(k: nat): nat {
    if k == 0 then 1 else 10 * Pow10(k - 1)
  }

  lemma {:induction false} ValueBound(s: string)
    requires AllDigits(s)
    ensures Value(s) < Pow10(|s|)
  {
    if s != [] {
      ValueBound(s[..|s| - 1]);
    }
  }

  /** `std::string`'s order. */
  lemma DigitsExample()
    ensures Digits(0) == "0" && Digits(4096) == "4096"
  {
    assert Digits(4) == "4" && Digits(40) == "4" + "0" && Digits(409) == "40" + "9" && Digits(4096) == "409" + "6";
  }

  lemma PaddedExample()
    ensures Padded(3, 6) == "000003" && Padded(12, 1) == "12"
  {
    assert Digits(3) == "3" && Digits(12) == "1" + "2";
    assert Padded(3, 6) == Zeros(5) + "3";
  }

  predicate Before(a: string, b: string) {
    b != [] && (a == [] || a[0] < b[0] || (a[0] == b[0] && Before(a[1..], b[1..])))
  }

  lemma TenTimes(x: int, p: int)
    ensures 10 * (x * p) == x * (10 * p)
  {
  }

  /** How the leading digit weighs. */
  lemma {:induction false} ValueFront(s: string)
    requires AllDigits(s) && s != []
    ensures Value(s) == (s[0] as int - '0' as int) * Pow10(|s| - 1) + Value(s[1..])
  {
    var n := |s| - 1;
    var x, low := s[0] as int - '0' as int, s[n] as int - '0' as int;
    if n > 0 {
      ValueFront(s[..n]);
      assert s[..n][1..] == s[1..][..n - 1];
      var p := Pow10(n - 1);
      assert Value(s[1..]) == 10 * Value(s[1..][..n - 1]) + low;
      TenTimes(x, p);
    } else {
      assert s[..0] == [] && s[1..] == [];
    }
  }

  lemma LeadingDigitDecides(x: nat, y: nat, u: nat, v: nat, p: nat)
    requires u < p && v < p
    ensures x * p + u < y * p + v <==> x < y || (x == y && u < v)
    ensures x * p + u == y * p + v <==> x == y && u == v
  {
    if x < y {
      assert (x + 1) * p <= y * p;
    } else if y < x {
      assert (y + 1) * p <= x * p;
    }
  }

  /** Equally long runs of digits compare as the numbers they stand for. */
  lemma {:induction false} SameWidthOrder(a: string, b: string)
    requires AllDigits(a) && AllDigits(b) && |a| == |b|
    ensures Before(a, b) <==> Value(a) < Value(b)
    ensures a == b <==> Value(a) == Value(b)
  {
    if a != [] {
      SameWidthOrder(a[1..], b[1..]);
      ValueFront(a);
      ValueFront(b);
      ValueBound(a[1..]);
      ValueBound(b[1..]);
      LeadingDigitDecides(a[0] as int - '0' as int, b[0] as int - '0' as int,
                          Value(a[1..]), Value(b[1..]), Pow10(|a| - 1));
      SameFront(a, b);
    }
  }

  lemma SameFront(a: string, b: string)
    requires a != [] && b != []
    ensures a == b <==> a[0] == b[0] && a[1..] == b[1..]
  {
    assert a == [a[0]] + a[1..] && b == [b[0]] + b[1..];
  }

  predicate EndsPlain(s: string) {
    s != [] && !('0' <= s[|s| - 1] <= '9')
  }

  lemma NoLaterSplit(a: string, b: string, s: string, t: string)
    requires AllDigits(s) && EndsPlain(b) && a + s == b + t
    ensures |b| <= |a|
  {
    assert (a + s)[|b| - 1] == b[|b| - 1];
  }

  /** The run of digits that ends a string, and what stands before it, are found in only one way. */
  lemma SplitAtDigits(a: string, b: string, s: string, t: string)
    requires AllDigits(s) && AllDigits(t) && EndsPlain(a) && EndsPlain(b) && a + s == b + t
    ensures a == b && s == t
  {
    NoLaterSplit(a, b, s, t);
    NoLaterSplit(b, a, t, s);
    assert (a + s)[..|a|] == a && (b + t)[..|b|] == b && (a + s)[|a|..] == s && (b + t)[|b|..] == t;
  }
}
