/** Bytes and their little-endian values. */
module Bytes {
  import opened Arith

  type Byte = b: int | 0 <= b < 256

  function Pow256(n: nat): (p: nat)
    ensures p > 0
  {
    if n == 0 then 1 else 256 * Pow256(n - 1)
  }

  lemma {:induction false} Pow256Add(m: nat, n: nat)
    ensures Pow256(m + n) == Pow256(m) * Pow256(n)
  {
    if m > 0 {
      Pow256Add(m - 1, n);
      assert Pow256(m + n) == 256 * Pow256(m - 1 + n);
    }
  }

  lemma {:induction false} Pow256Monotone(m: nat, n: nat)
    requires m <= n
    ensures Pow256(m) <= Pow256(n)
    decreases n - m
  {
    if m < n {
      Pow256Monotone(m + 1, n);
    }
  }

  /** Value of a byte string, least significant byte first. */
  function LE(s: seq<Byte>): nat {
    if s == [] then 0 else s[0] + 256 * LE(s[1..])
  }

  /** The low `k` bytes of `n`, least significant first. */
  function ToLE(n: nat, k: nat): (s: seq<Byte>)
    ensures |s| == k
  {
    if k == 0 then [] else [n % 256] + ToLE(n / 256, k - 1)
  }

  lemma {:induction false} LEAppend(a: seq<Byte>, b: seq<Byte>)
    ensures LE(a + b) == LE(a) + Pow256(|a|) * LE(b)
  {
    if a == [] {
      assert a + b == b;
    } else {
      LEAppend(a[1..], b);
      assert (a + b)[1..] == a[1..] + b;
      assert 256 * (Pow256(|a| - 1) * LE(b)) == Pow256(|a|) * LE(b);
    }
  }

  lemma {:induction false} LEBound(s: seq<Byte>)
    ensures LE(s) < Pow256(|s|)
  {
    if s != [] {
      LEBound(s[1..]);
    }
  }

  lemma {:induction false} LEOfToLE(n: nat, k: nat)
    requires n < Pow256(k)
    ensures LE(ToLE(n, k)) == n
    decreases k
  {
    if k > 0 {
      LEOfToLE(n / 256, k - 1);
      assert ToLE(n, k)[1..] == ToLE(n / 256, k - 1);
    }
  }

  lemma {:induction false} ToLEOfLE(s: seq<Byte>)
    ensures ToLE(LE(s), |s|) == s
  {
    if s != [] {
      ToLEOfLE(s[1..]);
      assert LE(s) % 256 == s[0] && LE(s) / 256 == LE(s[1..]);
    }
  }

  lemma {:induction false} LEZeros(k: nat)
    ensures LE(seq(k, _ => 0)) == 0
  {
    if k > 0 {
      LEZeros(k - 1);
      var z: seq<Byte> := seq(k, _ => 0);
      assert z[1..] == seq(k - 1, _ => 0);
    }
  }

  /** Cutting `n` to its low bytes is taking it modulo a power. */
  lemma {:induction false} LEOfCut(n: nat, k: nat)
    ensures LE(ToLE(n, k)) == n % Pow256(k)
    decreases k
  {
    if k > 0 {
      LEOfCut(n / 256, k - 1);
      assert ToLE(n, k)[1..] == ToLE(n / 256, k - 1);
      DivDiv(n, 256, Pow256(k - 1));
    }
  }

  lemma {:induction false} ToLEAt(n: nat, k: nat, i: nat)
    requires i < k
    ensures ToLE(n, k)[i] == (n / Pow256(i)) % 256
    decreases k
  {
    if i > 0 {
      ToLEAt(n / 256, k - 1, i - 1);
      DivDiv(n, 256, Pow256(i - 1));
    }
  }

  /** Padding with zero bytes below multiplies, padding above changes nothing. */
  lemma LEPadded(x: seq<Byte>, below: nat, above: nat)
    ensures var lo: seq<Byte>, hi: seq<Byte> := seq(below, _ => 0), seq(above, _ => 0);
            LE(lo + (x + hi)) == Pow256(below) * LE(x)
  {
    var lo: seq<Byte>, hi: seq<Byte> := seq(below, _ => 0), seq(above, _ => 0);
    LEZeros(below);
    LEZeros(above);
    LEAppend(x, hi);
    LEAppend(lo, x + hi);
  }
}
