/** 256-bit chain work on little-endian byte arrays, against natural numbers. */
module ChainWork {
  import opened Arith
  import opened Bytes

  const WIDTH: nat := 32
  const UINT32: nat := 0x1_0000_0000
  const UINT64_MAX: nat := 0xFFFF_FFFF_FFFF_FFFF

  ghost const MAX_WORK: nat := Pow256(WIDTH) - 1

  type Bits = n: nat | n < UINT32

  function Size(nBits: Bits): nat {
    nBits / 0x100_0000
  }

  function Mantissa(nBits: Bits): nat {
    nBits % 0x100_0000
  }

  function WorkMantissa(nBits: Bits): (q: nat)
    requires Mantissa(nBits) != 0
    ensures q <= UINT64_MAX
  {
    UINT64_MAX / Mantissa(nBits)
  }

  /** Byte position of the work mantissa: 32 - size, kept within 0..31. */
  function BytePos(nBits: Bits): (p: nat)
    ensures p < WIDTH
  {
    if Size(nBits) > 32 then 0 else if Size(nBits) == 0 then 31 else 32 - Size(nBits)
  }

  /** The work of a block as a number: bytes that would fall beyond the 256 bits are lost. */
  ghost function Work(nBits: Bits): nat {
    if Mantissa(nBits) == 0 then MAX_WORK
    else Pow256(BytePos(nBits)) * (WorkMantissa(nBits) % Pow256(WIDTH - BytePos(nBits)))
  }

  /** Shift right by `i` bytes and mask. */
  function ByteAt(q: nat, i: nat): Byte {
    (q / Pow256(i)) % 256
  }

  /** The loop over the eight bytes of the work mantissa. */
  method ComputeChainWork(nBits: Bits) returns (proof: seq<Byte>)
    ensures |proof| == WIDTH && LE(proof) == Work(nBits)
  {
    var data := new Byte[WIDTH](_ => 0);
    if Mantissa(nBits) == 0 {
      AllOnes(WIDTH);
      return seq(WIDTH, _ => 0xFF);
    }
    var pos := BytePos(nBits);
    var q := WorkMantissa(nBits);
    var i := 0;
    while i < 8 && pos + i < WIDTH
      invariant 0 <= i <= 8 && pos + i <= WIDTH
      invariant forall j | 0 <= j < pos || pos + i <= j < WIDTH :: data[j] == 0
      invariant forall j | 0 <= j < i :: data[pos + j] == ByteAt(q, j)
    {
      data[pos + i] := ByteAt(q, i);
      i := i + 1;
    }
    proof := data[..];
    PlacedMantissa(proof, q, pos, i);
  }

  lemma Pow256Of8()
    ensures Pow256(8) == UINT64_MAX + 1
  {
    Pow256Add(4, 4);
  }

  /** Value of a string that holds the first `k` bytes of `q` at `pos` and zeros elsewhere. */
  lemma PlacedMantissa(s: seq<Byte>, q: nat, pos: nat, k: nat)
    requires |s| == WIDTH && pos + k <= WIDTH && q <= UINT64_MAX && (k == 8 || (k < 8 && pos + k == WIDTH))
    requires forall j | 0 <= j < pos || pos + k <= j < WIDTH :: s[j] == 0
    requires forall j | 0 <= j < k :: s[pos + j] == ByteAt(q, j)
    ensures LE(s) == Pow256(pos) * (q % Pow256(WIDTH - pos))
  {
    var lo: seq<Byte>, hi: seq<Byte> := seq(pos, _ => 0), seq(WIDTH - pos - k, _ => 0);
    forall j | 0 <= j < k ensures s[pos + j] == ToLE(q, k)[j] {
      ToLEAt(q, k, j);
      assert s[pos + j] == ByteAt(q, j);
    }
    assert s == lo + (ToLE(q, k) + hi);
    LEPadded(ToLE(q, k), pos, WIDTH - pos - k);
    LEOfCut(q, k);
    if k == 8 {
      Pow256Of8();
      Pow256Monotone(8, WIDTH - pos);
      ModSmall(q, Pow256(8));
      ModSmall(q, Pow256(WIDTH - pos));
    }
  }

  lemma {:induction false} AllOnes(k: nat)
    ensures LE(seq(k, _ => 255)) == Pow256(k) - 1
  {
    if k > 0 {
      AllOnes(k - 1);
      var s: seq<Byte> := seq(k, _ => 255);
      assert s[1..] == seq(k - 1, _ => 255);
    }
  }

  // ---- Truncation ----

  /** The byte layout gives the full quotient exactly when it fits the bytes above its position. */
  lemma TruncationExact(nBits: Bits)
    requires Mantissa(nBits) != 0 && 1 <= Size(nBits) <= 32
    ensures Work(nBits) == WorkMantissa(nBits) * Pow256(32 - Size(nBits)) <==> WorkMantissa(nBits) < Pow256(Size(nBits))
  {
    var q, p, d := WorkMantissa(nBits), Pow256(32 - Size(nBits)), Pow256(Size(nBits));
    ScaledCutExact(q, p, d);
  }

  /** Sizes from 8 up lose nothing. */
  lemma LargeSizesExact(nBits: Bits)
    requires Mantissa(nBits) != 0 && 8 <= Size(nBits) <= 32
    ensures WorkMantissa(nBits) < Pow256(Size(nBits))
  {
    Pow256Of8();
    Pow256Monotone(8, Size(nBits));
  }

  // ---- Work against targets ----

  /** The compact form's target. */
  function Target(nBits: Bits): nat
    requires Size(nBits) >= 3
  {
    Mantissa(nBits) * Pow256(Size(nBits) - 3)
  }

  predicate Exact(nBits: Bits) {
    Mantissa(nBits) != 0 && 3 <= Size(nBits) <= 32 && WorkMantissa(nBits) < Pow256(Size(nBits))
  }

  /** A compact form as nodes write it: the mantissa has a leading byte and no sign bit. */
  predicate Canonical(nBits: Bits) {
    0x8000 <= Mantissa(nBits) <= 0x7F_FFFF && 3 <= Size(nBits) <= 32
  }

  /** The error bound: work times target is below 2^296 (256^37, WIDTH + 5 bytes), and one more unit in the
      last place of the work reaches it. */
  lemma WorkBracketsTarget(nBits: Bits)
    requires Exact(nBits)
    ensures Work(nBits) * Target(nBits) < Pow256(WIDTH + 5)
    ensures Pow256(WIDTH + 5) <= (Work(nBits) + Pow256(32 - Size(nBits))) * Target(nBits)
  {
    TruncationExact(nBits);
    DivBracket(UINT64_MAX, Mantissa(nBits));
    BracketAt(Work(nBits), Target(nBits), Mantissa(nBits), WorkMantissa(nBits), 32 - Size(nBits), Size(nBits) - 3);
    Pow256Of296Bits();
  }

  lemma BracketAt(w: nat, target: nat, m: nat, q: nat, i: nat, j: nat)
    requires q * m <= UINT64_MAX < (q + 1) * m && w == q * Pow256(i) && target == m * Pow256(j)
    ensures w * target < (UINT64_MAX + 1) * Pow256(i + j) <= (w + Pow256(i)) * target
  {
    Pow256Add(i, j);
    ScaledBracket(UINT64_MAX, m, q, Pow256(i), Pow256(j), w, target, Pow256(i + j));
  }

  lemma Pow256Of296Bits()
    ensures Pow256(WIDTH + 5) == (UINT64_MAX + 1) * Pow256(WIDTH - 3)
  {
    Pow256Add(8, WIDTH - 3);
    Pow256Of8();
  }

  /** Within one size a smaller mantissa gives a strictly greater quotient. */
  lemma QuotientReverses(m: nat, n: nat)
    requires 0x8000 <= m < n <= 0x7F_FFFF
    ensures UINT64_MAX / m > UINT64_MAX / n
  {
    DivAntitone(UINT64_MAX, m, 0x7F_FFFF);
    QuotientStrict(UINT64_MAX, m, n);
  }

  /** Every quotient of a larger size, even scaled up by one byte, is below every quotient here. */
  lemma QuotientGap(m: nat, n: nat)
    requires 0x8000 <= m <= 0x7F_FFFF && 0x8000 <= n <= 0x7F_FFFF
    ensures 256 * (UINT64_MAX / m) > UINT64_MAX / n
  {
    DivAntitone(UINT64_MAX, m, 0x7F_FFFF);
    DivAntitone(UINT64_MAX, 0x8000, n);
  }

  /** The work without any loss of bytes. */
  ghost function Full(nBits: Bits): nat
    requires Canonical(nBits)
  {
    WorkMantissa(nBits) * Pow256(32 - Size(nBits))
  }

  lemma SmallerSizeMoreWork(a: Bits, b: Bits)
    requires Canonical(a) && Canonical(b) && Size(a) < Size(b)
    ensures Target(a) < Target(b) && Full(a) > Full(b)
  {
    QuotientGap(Mantissa(a), Mantissa(b));
    Pow256Monotone(33 - Size(b), 32 - Size(a));
    GapProduct(WorkMantissa(a), WorkMantissa(b), Pow256(32 - Size(a)), Pow256(32 - Size(b)), 256);
    Pow256Monotone(Size(a) - 2, Size(b) - 3);
    GapProduct(Mantissa(b), Mantissa(a), Pow256(Size(b) - 3), Pow256(Size(a) - 3), 256);
  }

  lemma SameSizeReverses(a: Bits, b: Bits)
    requires Canonical(a) && Canonical(b) && Size(a) == Size(b) && Mantissa(a) < Mantissa(b)
    ensures Target(a) < Target(b) && Full(a) > Full(b)
  {
    QuotientReverses(Mantissa(a), Mantissa(b));
    ScaleStrict(WorkMantissa(b), WorkMantissa(a), Pow256(32 - Size(a)));
    ScaleStrict(Mantissa(a), Mantissa(b), Pow256(Size(a) - 3));
  }

  lemma FullReversesTargets(a: Bits, b: Bits)
    requires Canonical(a) && Canonical(b)
    ensures Full(a) > Full(b) <==> Target(a) < Target(b)
  {
    if Size(a) < Size(b) {
      SmallerSizeMoreWork(a, b);
    } else if Size(b) < Size(a) {
      SmallerSizeMoreWork(b, a);
    } else if Mantissa(a) < Mantissa(b) {
      SameSizeReverses(a, b);
    } else if Mantissa(b) < Mantissa(a) {
      SameSizeReverses(b, a);
    }
  }

  lemma WorkAtMostFull(nBits: Bits)
    requires Canonical(nBits)
    ensures Work(nBits) <= Full(nBits) && (Exact(nBits) ==> Work(nBits) == Full(nBits))
  {
    ScaledCutExact(WorkMantissa(nBits), Pow256(32 - Size(nBits)), Pow256(Size(nBits)));
  }

  /** Order reversal: across all sizes, a block has strictly more work exactly when its target is
      strictly smaller. */
  lemma WorkReversesTargets(a: Bits, b: Bits)
    requires Canonical(a) && Canonical(b) && Exact(a) && Exact(b)
    ensures Work(a) > Work(b) <==> Target(a) < Target(b)
  {
    FullReversesTargets(a, b);
    WorkAtMostFull(a);
    WorkAtMostFull(b);
  }

  // ---- Where the order is kept ----

  /** The compact form with the smallest target that loses no byte. */
  const FIRST_EXACT: Bits := 0x0601_0000

  lemma Pow256Of6()
    ensures Pow256(6) == 0x1_0000_0000_0000
  {
    Pow256Add(3, 3);
  }

  lemma ExactSizes(a: Bits)
    requires Canonical(a)
    ensures Exact(a) <==> Size(a) > 6 || (Size(a) == 6 && Mantissa(a) >= 0x1_0000)
  {
    Pow256Of6();
    assert Pow256(7) == 256 * Pow256(6) && Pow256(6) == 256 * Pow256(5);
    DivAntitone(UINT64_MAX, 0x8000, Mantissa(a));
    DivAntitone(UINT64_MAX, Mantissa(a), 0x7F_FFFF);
    if Size(a) > 6 {
      Pow256Monotone(7, Size(a));
    } else if Size(a) < 6 {
      Pow256Monotone(Size(a), 5);
    } else if Mantissa(a) >= 0x1_0000 {
      DivAntitone(UINT64_MAX, 0x1_0000, Mantissa(a));
    } else {
      DivAntitone(UINT64_MAX, Mantissa(a), 0xFFFF);
    }
  }

  /** No byte is lost exactly from the target of `FIRST_EXACT` up. */
  lemma ExactFromFirst(a: Bits)
    requires Canonical(a)
    ensures Canonical(FIRST_EXACT) && (Exact(a) <==> Target(a) >= Target(FIRST_EXACT))
  {
    ExactSizes(a);
    if Size(a) < 6 {
      SmallerSizeMoreWork(a, FIRST_EXACT);
    } else if Size(a) > 6 {
      SmallerSizeMoreWork(FIRST_EXACT, a);
    } else if Mantissa(a) < 0x1_0000 {
      ScaleStrict(Mantissa(a), 0x1_0000, Pow256(3));
    } else {
      ScaleWeak(0x1_0000, Mantissa(a), Pow256(3));
    }
  }

  /** A cut quotient of `d` values, scaled by `p`, stays a unit of `p` below the whole. */
  lemma CutBelow(q: nat, p: nat, d: nat)
    requires d > 0
    ensures p * (q % d) + p <= p * d
  {
    ScaleWeak(q % d + 1, d, p);
    assert (q % d + 1) * p == p * (q % d) + p && d * p == p * d;
  }

  lemma WorkOfFirst()
    ensures Work(FIRST_EXACT) + Pow256(WIDTH - 6) == Pow256(WIDTH)
  {
    Pow256Of6();
    Pow256Add(WIDTH - 6, 6);
    var p := Pow256(WIDTH - 6);
    assert WorkMantissa(FIRST_EXACT) == 0xFFFF_FFFF_FFFF;
    ModSmall(0xFFFF_FFFF_FFFF, Pow256(6));
    assert Work(FIRST_EXACT) == p * 0xFFFF_FFFF_FFFF;
  }

  lemma WorkNotAboveFirst(a: Bits)
    requires Canonical(a) && Size(a) <= 6
    ensures Work(a) <= Work(FIRST_EXACT)
  {
    var k := Size(a);
    Pow256Add(32 - k, k);
    CutBelow(WorkMantissa(a), Pow256(32 - k), Pow256(k));
    Pow256Monotone(WIDTH - 6, 32 - k);
    WorkOfFirst();
  }

  /** A compact form has more work than every one with a greater target exactly when it loses no byte, that
      is, when its target is at least that of `FIRST_EXACT`. */
  lemma OrderReversalExact(a: Bits)
    requires Canonical(a)
    ensures (forall b: Bits | Canonical(b) && Target(a) < Target(b) :: Work(a) > Work(b)) <==> Exact(a)
    ensures Canonical(FIRST_EXACT) && (Exact(a) <==> Target(a) >= Target(FIRST_EXACT))
  {
    ExactFromFirst(a);
    if Exact(a) {
      forall b: Bits | Canonical(b) && Target(a) < Target(b) ensures Work(a) > Work(b) {
        FullReversesTargets(a, b);
        WorkAtMostFull(a);
        WorkAtMostFull(b);
      }
    } else {
      ExactSizes(a);
      WorkNotAboveFirst(a);
    }
  }

  /** Where bytes are lost the order can turn round: the smaller target has less work. */
  lemma TruncationReorders()
    ensures Target(0x0600_FFFF) < Target(0x0601_0000) && Work(0x0600_FFFF) < Work(0x0601_0000)
  {
    var p := Pow256(26);
    Pow256Add(3, 3);
    assert Pow256(6) == 0x1_0000_0000_0000;
    assert WorkMantissa(0x0600_FFFF) % Pow256(6) == 4295032833;
    assert WorkMantissa(0x0601_0000) % Pow256(6) == 281474976710655;
    ScaleStrict(4295032833, 281474976710655, p);
  }

  // ---- Addition and comparison ----

  function Min(a: nat, b: nat): nat {
    if a < b then a else b
  }

  ghost function SatAdd(a: nat, b: nat): nat {
    Min(a + b, MAX_WORK)
  }

  /** Byte-wise addition with carry. */
  method AddDigits(a: seq<Byte>, b: seq<Byte>) returns (digits: seq<Byte>, carry: nat)
    requires |a| == WIDTH && |b| == WIDTH
    ensures carry <= 1 && Carried(digits, a, b, carry)
  {
    var data := new Byte[WIDTH](_ => 0);
    carry := 0;
    for i := 0 to WIDTH
      invariant carry <= 1 && Carried(data[..i], a[..i], b[..i], carry)
    {
      var sum: int := a[i] as int + b[i] as int + carry;
      ghost var before := data[..i];
      data[i] := sum % 256;
      assert data[..i + 1] == before + [sum % 256];
      CarriedNext(before, a, b, i, carry);
      carry := sum / 256;
    }
    assert a[..WIDTH] == a && b[..WIDTH] == b && data[..WIDTH] == data[..];
    digits := data[..];
  }

  /** The digits of the sum, or all bytes set when the last carry is lost. */
  method AddChainWork(a: seq<Byte>, b: seq<Byte>) returns (r: seq<Byte>)
    requires |a| == WIDTH && |b| == WIDTH
    ensures |r| == WIDTH && LE(r) == SatAdd(LE(a), LE(b))
  {
    var digits, carry := AddDigits(a, b);
    LEBound(digits);
    AllOnes(WIDTH);
    Saturates(Pow256(WIDTH), LE(digits), carry, LE(a), LE(b));
    r := if carry != 0 then seq(WIDTH, _ => 0xFF) else digits;
  }

  /** The digits written so far and the carry stand for the sum of the digits read so far. */
  ghost predicate Carried(d: seq<Byte>, a: seq<Byte>, b: seq<Byte>, carry: nat) {
    |a| == |d| && |b| == |d| && LE(d) + Pow256(|d|) * carry == LE(a) + LE(b)
  }

  lemma CarriedStep(d: seq<Byte>, a: seq<Byte>, b: seq<Byte>, carry: nat, x: Byte, y: Byte)
    requires Carried(d, a, b, carry)
    ensures var sum: int := x as int + y as int + carry;
            Carried(d + [sum % 256], a + [x], b + [y], sum / 256)
  {
    var sum: int := x as int + y as int + carry;
    LEAppend(d, [sum % 256]);
    LEAppend(a, [x]);
    LEAppend(b, [y]);
    assert LE([sum % 256]) == sum % 256 && LE([x]) == x && LE([y]) == y;
    CarryStep(Pow256(|d|), LE(d), LE(a), LE(b), carry, x, y);
  }

  lemma CarriedNext(d: seq<Byte>, a: seq<Byte>, b: seq<Byte>, i: nat, carry: nat)
    requires i < |a| && i < |b| && Carried(d, a[..i], b[..i], carry)
    ensures var sum: int := a[i] as int + b[i] as int + carry;
            Carried(d + [sum % 256], a[..i + 1], b[..i + 1], sum / 256)
  {
    CarriedStep(d, a[..i], b[..i], carry, a[i], b[i]);
    assert a[..i + 1] == a[..i] + [a[i]] && b[..i + 1] == b[..i] + [b[i]];
  }

  lemma Saturates(p: nat, v: nat, carry: nat, x: nat, y: nat)
    requires v + p * carry == x + y && v < p && carry <= 1
    ensures Min(x + y, p - 1) == if carry != 0 then p - 1 else v
  {
  }

  lemma LESnoc(s: seq<Byte>, i: nat)
    requires i < |s|
    ensures LE(s[..i + 1]) == LE(s[..i]) + Pow256(i) * s[i]
  {
    assert s[..i + 1] == s[..i] + [s[i]];
    LEAppend(s[..i], [s[i]]);
    assert LE([s[i]]) == s[i];
  }

  /** Compares from the most significant byte down. */
  method ChainWorkGreaterOrEqual(a: seq<Byte>, b: seq<Byte>) returns (ge: bool)
    requires |a| == WIDTH && |b| == WIDTH
    ensures ge <==> LE(a) >= LE(b)
  {
    var i := WIDTH;
    while i > 0
      invariant 0 <= i <= WIDTH && a[i..] == b[i..]
    {
      i := i - 1;
      if a[i] != b[i] {
        TopByteDecides(a, b, i);
        return a[i] > b[i];
      }
    }
    ge := true;
  }

  lemma TopByteDecides(a: seq<Byte>, b: seq<Byte>, i: nat)
    requires |a| == |b| && i < |a| && a[i + 1..] == b[i + 1..] && a[i] != b[i]
    ensures LE(a) > LE(b) <==> a[i] > b[i]
    ensures LE(a) != LE(b)
  {
    LESplitAt(a, i);
    LESplitAt(b, i);
    LEBound(a[..i]);
    LEBound(b[..i]);
    LeadingDecides(Pow256(i), LE(a[..i]), LE(b[..i]), a[i], b[i], Pow256(i + 1) * LE(a[i + 1..]));
  }

  lemma LESplitAt(s: seq<Byte>, i: nat)
    requires i < |s|
    ensures LE(s) == LE(s[..i]) + s[i] * Pow256(i) + Pow256(i + 1) * LE(s[i + 1..])
  {
    assert s == s[..i + 1] + s[i + 1..];
    LEAppend(s[..i + 1], s[i + 1..]);
    LESnoc(s, i);
  }

  // ---- Whole chains ----

  ghost function Sum(works: seq<nat>): nat {
    if works == [] then 0 else Sum(works[..|works| - 1]) + works[|works| - 1]
  }

  ghost function SatSum(works: seq<nat>): nat {
    if works == [] then 0 else SatAdd(SatSum(works[..|works| - 1]), works[|works| - 1])
  }

  ghost function Works(bits: seq<Bits>): seq<nat> {
    seq(|bits|, i requires 0 <= i < |bits| => Work(bits[i]))
  }

  /** Accumulates the work of a chain of headers. */
  method TotalChainWork(bits: seq<Bits>) returns (total: seq<Byte>)
    ensures |total| == WIDTH && LE(total) == Min(Sum(Works(bits)), MAX_WORK)
  {
    total := seq(WIDTH, _ => 0);
    LEZeros(WIDTH);
    for i := 0 to |bits|
      invariant |total| == WIDTH && LE(total) == SatSum(Works(bits[..i]))
    {
      var work := ComputeChainWork(bits[i]);
      total := AddChainWork(total, work);
      assert Works(bits[..i + 1])[..i] == Works(bits[..i]);
    }
    assert bits[..|bits|] == bits;
    SatSumIsMin(Works(bits));
  }

  /** Saturating step by step is saturating once. */
  lemma {:induction false} SatSumIsMin(works: seq<nat>)
    ensures SatSum(works) == Min(Sum(works), MAX_WORK)
  {
    if works != [] {
      SatSumIsMin(works[..|works| - 1]);
    }
  }

  lemma {:induction false} SumAppend(a: seq<nat>, b: seq<nat>)
    ensures Sum(a + b) == Sum(a) + Sum(b)
    decreases |b|
  {
    if b == [] {
      assert a + b == a;
    } else {
      SumAppend(a, b[..|b| - 1]);
      assert (a + b)[..|a + b| - 1] == a + b[..|b| - 1];
    }
  }

  /** Folding a chain's work does not depend on how it is grouped, and never decreases on extension. */
  lemma GroupingIrrelevant(a: seq<nat>, b: seq<nat>)
    ensures SatSum(a + b) == SatAdd(SatSum(a), SatSum(b))
    ensures SatSum(a) <= SatSum(a + b)
  {
    SumAppend(a, b);
    SatSumIsMin(a);
    SatSumIsMin(b);
    SatSumIsMin(a + b);
  }

  /** Saturation never turns the exact comparison of two chains round; it only ties chains that both
      reach the maximum. */
  lemma SaturationKeepsOrder(a: seq<nat>, b: seq<nat>)
    ensures Sum(a) >= Sum(b) ==> SatSum(a) >= SatSum(b)
    ensures Sum(a) > Sum(b) ==> (SatSum(a) > SatSum(b) <==> Sum(b) < MAX_WORK)
  {
    SatSumIsMin(a);
    SatSumIsMin(b);
  }
}
