/** Decimal rendering of natural numbers, as Python's string formatting does it. */
module Decimal {
  const DIGITS: string := "0123456789"

  function Dec(n: nat): (s: string)
    ensures |s| > 0 && '_' !in s
  {
    if n < 10 then [DIGITS[n]] else Dec(n / 10) + [DIGITS[n % 10]]
  }

  lemma {:induction false} DecInjective(m: nat, n: nat)
    requires Dec(m) == Dec(n)
    ensures m == n
  {
    var s, t := Dec(m), Dec(n);
    assert s[|s| - 1] == DIGITS[m % 10] && t[|t| - 1] == DIGITS[n % 10];
    if m >= 10 && n >= 10 {
      assert s[..|s| - 1] == Dec(m / 10) && t[..|t| - 1] == Dec(n / 10);
      DecInjective(m / 10, n / 10);
    }
  }

  lemma SplitUnique(x: string, y: string, u: string, v: string)
    requires '_' !in x && '_' !in u && x + "_" + y == u + "_" + v
    ensures x == u && y == v
  {
    var s := x + "_" + y;
    assert s[|x|] == '_' && s[|u|] == '_';
    assert x == s[..|x|] && u == s[..|u|] && y == s[|x| + 1..] && v == s[|u| + 1..];
  }

  /** Two numbers joined by an underscore can be told apart. */
  lemma JoinInjective(a: nat, b: nat, c: nat, d: nat)
    requires Dec(a) + "_" + Dec(b) == Dec(c) + "_" + Dec(d)
    ensures a == c && b == d
  {
    SplitUnique(Dec(a), Dec(b), Dec(c), Dec(d));
    DecInjective(a, c);
    DecInjective(b, d);
  }
}
