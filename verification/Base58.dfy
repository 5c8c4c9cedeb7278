/** The Base58 decoder used for bridge and change addresses, with the encoder it inverts. */
module Base58 {
  import opened Wrappers
  import opened Arith
  import opened Bytes

  const ALPHABET: string := "123456789" + "ABCDEFGH" + "JKLMN" + "PQRSTUVWXYZ" + "abcdefghijk" + "mnopqrstuvwxyz"

  // ---- Positional notation in any base ----

  predicate DigitsIn(ds: seq<nat>, base: nat) {
    forall i | 0 <= i < |ds| :: ds[i] < base
  }

  /** Value of a digit string, most significant digit first. */
  function Val(ds: seq<nat>, base: nat): nat {
    if ds == [] then 0 else Val(ds[..|ds| - 1], base) * base + ds[|ds| - 1]
  }

  /** The digits of `n`, none for zero and never a leading zero. */
  function Digits(n: nat, base: nat): (ds: seq<nat>)
    requires base >= 2
    ensures ds == [] || ds[0] != 0
  {
    if n == 0 then [] else Digits(n / base, base) + [n % base]
  }

  lemma {:induction false} DigitsInBase(n: nat, base: nat)
    requires base >= 2
    ensures DigitsIn(Digits(n, base), base)
    decreases n
  {
    if n > 0 {
      DigitsInBase(n / base, base);
    }
  }

  function Zeros(k: nat): seq<nat> {
    seq(k, _ => 0)
  }

  function LeadingZeros(ds: seq<nat>): (k: nat)
    ensures k <= |ds| && ds[..k] == Zeros(k) && (k < |ds| ==> ds[k] != 0)
  {
    if ds == [] || ds[0] != 0 then 0
    else
      assert ds == [0] + ds[1..];
      1 + LeadingZeros(ds[1..])
  }

  lemma ValSnoc(ds: seq<nat>, d: nat, base: nat)
    ensures Val(ds + [d], base) == Val(ds, base) * base + d
  {
    assert (ds + [d])[..|ds|] == ds;
  }

  lemma ValOfOneMore(n: nat, q: nat, r: nat, base: nat)
    requires base >= 2 && Val(Digits(q, base), base) == q
    requires n == q * base + r && Digits(n, base) == Digits(q, base) + [r]
    ensures Val(Digits(n, base), base) == n
  {
    ValSnoc(Digits(q, base), r, base);
  }

  lemma {:induction false} ValOfDigits(n: nat, base: nat)
    requires base >= 2
    ensures Val(Digits(n, base), base) == n
    decreases n
  {
    if n > 0 {
      DivLess(n, base);
      DivMod(n, base);
      ValOfDigits(n / base, base);
      ValOfOneMore(n, n / base, n % base, base);
    }
  }

  lemma {:induction false} NonZero(init: seq<nat>, d: nat, base: nat)
    requires base >= 2 && (if init == [] then d else init[0]) != 0
    ensures Val(init, base) * base + d > 0
    decreases |init|
  {
    if init != [] {
      NonZero(init[..|init| - 1], init[|init| - 1], base);
    }
  }

  lemma DigitsStep(v: nat, d: nat, base: nat)
    requires base >= 2 && d < base && v * base + d > 0
    ensures Digits(v * base + d, base) == Digits(v, base) + [d]
  {
    ModUnique(v * base + d, base, v, d);
  }

  lemma {:induction false} DigitsOfVal(ds: seq<nat>, base: nat)
    requires base >= 2 && DigitsIn(ds, base) && (ds == [] || ds[0] != 0)
    ensures Digits(Val(ds, base), base) == ds
    decreases |ds|
  {
    if ds != [] {
      var init, d := ds[..|ds| - 1], ds[|ds| - 1];
      DigitsOfVal(init, base);
      NonZero(init, d, base);
      DigitsStep(Val(init, base), d, base);
    }
  }

  /** Leading zeros do not change the value. */
  lemma {:induction false} ValOfPadded(k: nat, ds: seq<nat>, base: nat)
    ensures Val(Zeros(k) + ds, base) == Val(ds, base)
    decreases |ds|, k
  {
    var s := Zeros(k) + ds;
    if ds != [] {
      assert s[..|s| - 1] == Zeros(k) + ds[..|ds| - 1];
      ValOfPadded(k, ds[..|ds| - 1], base);
    } else if k > 0 {
      assert s[..|s| - 1] == Zeros(k - 1) + ds;
      ValOfPadded(k - 1, ds, base);
    }
  }

  /** Rewriting a digit string in another base, one zero digit for each leading zero digit. */
  function Convert(ds: seq<nat>, base: nat, base': nat): (r: seq<nat>)
    requires base' >= 2
    ensures DigitsIn(r, base')
  {
    DigitsInBase(Val(ds, base), base');
    Zeros(LeadingZeros(ds)) + Digits(Val(ds, base), base')
  }

  lemma {:induction false} LeadingZerosOfPadded(k: nat, ds: seq<nat>)
    requires ds == [] || ds[0] != 0
    ensures LeadingZeros(Zeros(k) + ds) == k
  {
    if k == 0 {
      assert Zeros(k) + ds == ds;
    } else {
      assert (Zeros(k) + ds)[1..] == Zeros(k - 1) + ds;
      LeadingZerosOfPadded(k - 1, ds);
    }
  }

  /** Conversion between any two bases is undone by the conversion back. */
  lemma ConvertInverts(ds: seq<nat>, base: nat, base': nat)
    requires base >= 2 && base' >= 2 && DigitsIn(ds, base)
    ensures Convert(Convert(ds, base, base'), base', base) == ds
  {
    var k := LeadingZeros(ds);
    var core := ds[k..];
    assert ds == Zeros(k) + core;
    var v := Val(ds, base);
    LeadingZerosOfPadded(k, Digits(v, base'));
    ValOfPadded(k, Digits(v, base'), base');
    ValOfDigits(v, base');
    ValOfPadded(k, core, base);
    DigitsOfVal(core, base);
  }

  // ---- The alphabet ----

  function Symbol(d: nat): char
    requires d < 58
  {
    ALPHABET[d]
  }

  /** Position of a character in the alphabet: the digits and letters without 0, O, I and l. */
  function Index(c: char): (d: Option<nat>)
    ensures d.Some? ==> d.value < 58
  {
    if '1' <= c <= '9' then Some(c as nat - '1' as nat)
    else if 'A' <= c <= 'H' then Some(c as nat - 'A' as nat + 9)
    else if 'J' <= c <= 'N' then Some(c as nat - 'J' as nat + 17)
    else if 'P' <= c <= 'Z' then Some(c as nat - 'P' as nat + 22)
    else if 'a' <= c <= 'k' then Some(c as nat - 'a' as nat + 33)
    else if 'm' <= c <= 'z' then Some(c as nat - 'm' as nat + 44)
    else None
  }

  lemma DigitOrCapitalCode(d: nat)
    requires d < 22
    ensures Symbol(d) as int == d + (if d < 9 then 49 else if d < 17 then 56 else 57)
  {
    var low := "123456789" + "ABCDEFGH" + "JKLMN";
    assert ALPHABET[..22] == low;
    assert Symbol(d) == low[d];
  }

  lemma LetterCode(d: nat)
    requires 22 <= d < 58
    ensures Symbol(d) as int == d + (if d < 33 then 58 else if d < 44 then 64 else 65)
  {
    var high := "PQRSTUVWXYZ" + "abcdefghijk" + "mnopqrstuvwxyz";
    assert ALPHABET[22..] == high;
    assert Symbol(d) == high[d - 22];
  }

  /** `Index` is the inverse of reading the alphabet. */
  lemma IndexExact(c: char, d: nat)
    requires d < 58
    ensures Index(c) == Some(d) <==> Symbol(d) == c
  {
    if d < 22 {
      DigitOrCapitalCode(d);
    } else {
      LetterCode(d);
    }
  }

  // ---- Decoding ----

  predicate InAlphabet(s: string) {
    forall i | 0 <= i < |s| :: Index(s[i]).Some?
  }

  function Indices(s: string): (ds: seq<nat>)
    requires InAlphabet(s)
    ensures DigitsIn(ds, 58)
  {
    seq(|s|, i requires 0 <= i < |s| => Index(s[i]).value)
  }

  function Symbols(ds: seq<nat>): (s: string)
    requires DigitsIn(ds, 58)
    ensures |s| == |ds| && forall i | 0 <= i < |s| :: s[i] == Symbol(ds[i])
  {
    seq(|ds|, i requires 0 <= i < |ds| => Symbol(ds[i]))
  }

  function AsBytes(ds: seq<nat>): (bs: seq<Byte>)
    requires DigitsIn(ds, 256)
    ensures bs == ds
  {
    ds
  }

  function Decode(s: string): Option<seq<Byte>> {
    if InAlphabet(s) then Some(AsBytes(Convert(Indices(s), 58, 256))) else None
  }

  function Encode(bytes: seq<Byte>): string {
    Symbols(Convert(bytes, 256, 58))
  }

  lemma IndicesOfSymbols(ds: seq<nat>)
    requires DigitsIn(ds, 58)
    ensures InAlphabet(Symbols(ds)) && Indices(Symbols(ds)) == ds
  {
    var s := Symbols(ds);
    forall i | 0 <= i < |s| ensures Index(s[i]) == Some(ds[i]) {
      IndexExact(s[i], ds[i]);
    }
  }

  lemma SymbolsOfIndices(s: string)
    requires InAlphabet(s)
    ensures Symbols(Indices(s)) == s
  {
    var ds := Indices(s);
    forall i | 0 <= i < |s| ensures Symbol(ds[i]) == s[i] {
      IndexExact(s[i], ds[i]);
    }
  }

  /** Decoding undoes encoding: every byte string has a Base58 form. */
  lemma DecodeOfEncode(bytes: seq<Byte>)
    ensures Decode(Encode(bytes)) == Some(bytes)
  {
    IndicesOfSymbols(Convert(bytes, 256, 58));
    ConvertInverts(bytes, 256, 58);
  }

  /** Encoding undoes decoding, so no two strings decode to the same bytes. */
  lemma EncodeOfDecode(s: string)
    requires Decode(s).Some?
    ensures Encode(Decode(s).value) == s
  {
    ConvertInverts(Indices(s), 58, 256);
    SymbolsOfIndices(s);
  }

  function Reversed<T>(s: seq<T>): seq<T> {
    seq(|s|, i requires 0 <= i < |s| => s[|s| - 1 - i])
  }

  /** Folds the characters into one number; fails at the first one outside the alphabet. */
  method ReadNumber(s: string) returns (r: Option<nat>)
    ensures r == if InAlphabet(s) then Some(Val(Indices(s), 58)) else None
  {
    var n: nat := 0;
    for i := 0 to |s|
      invariant InAlphabet(s[..i]) && n == Val(Indices(s[..i]), 58)
    {
      var d := Index(s[i]);
      if d.None? { return None; }
      IndicesSnoc(s, i);
      n := n * 58 + d.value;
    }
    assert s[..|s|] == s;
    r := Some(n);
  }

  lemma IndicesSnoc(s: string, i: nat)
    requires i < |s| && InAlphabet(s[..i]) && Index(s[i]).Some?
    ensures InAlphabet(s[..i + 1])
    ensures Val(Indices(s[..i + 1]), 58) == Val(Indices(s[..i]), 58) * 58 + Index(s[i]).value
  {
    assert Indices(s[..i + 1]) == Indices(s[..i]) + [Index(s[i]).value];
    ValSnoc(Indices(s[..i]), Index(s[i]).value, 58);
  }

  /** Peels off bytes, least significant first. */
  method LowBytes(number: nat) returns (result: seq<Byte>)
    ensures Reversed(result) == Digits(number, 256)
  {
    var n := number;
    result := [];
    while n > 0
      invariant Digits(number, 256) == Digits(n, 256) + Reversed(result)
    {
      ghost var before := result;
      result := result + [n % 256];
      assert Reversed(result) == [n % 256] + Reversed(before);
      n := n / 256;
    }
  }

  /** Adds one zero byte per leading '1' and reverses. */
  method Base58Decode(s: string) returns (r: Option<seq<Byte>>)
    ensures r == Decode(s)
  {
    var n := ReadNumber(s);
    if n.None? { return None; }
    var low := LowBytes(n.value);
    var result, k := low, 0;
    while k < |s| && s[k] == '1'
      invariant k <= |s| && result == low + Zeros(k) && Indices(s)[..k] == Zeros(k)
    {
      result := result + [0];
      k := k + 1;
    }
    LeadingZerosAt(Indices(s), k);
    assert Reversed(result) == Zeros(k) + Reversed(low);
    r := Some(Reversed(result));
  }

  lemma LeadingZerosAt(ds: seq<nat>, k: nat)
    requires k <= |ds| && ds[..k] == Zeros(k) && (k < |ds| ==> ds[k] != 0)
    ensures LeadingZeros(ds) == k
  {
    assert ds == Zeros(k) + ds[k..];
    LeadingZerosOfPadded(k, ds[k..]);
  }

  // ---- The checksum ----

  type Digest = d: seq<Byte> | |d| == 32 witness seq(32, _ => 0)

  function Checksum(hash: seq<Byte> -> Digest, payload: seq<Byte>): (c: seq<Byte>)
    ensures |c| == 4
  {
    hash(hash(payload))[..4]
  }

  /** Splits off the last four bytes (all of them when there are fewer) and compares the checksum. */
  function Verified(hash: seq<Byte> -> Digest, raw: seq<Byte>): Option<seq<Byte>> {
    var cut := if |raw| < 4 then 0 else |raw| - 4;
    if raw[cut..] == Checksum(hash, raw[..cut]) then Some(raw[..cut]) else None
  }

  function Base58CheckDecode(hash: seq<Byte> -> Digest, s: string): Option<seq<Byte>> {
    var raw := Decode(s);
    if raw.None? then None else Verified(hash, raw.value)
  }

  lemma VerifiedExact(hash: seq<Byte> -> Digest, raw: seq<Byte>, payload: seq<Byte>)
    ensures Verified(hash, raw) == Some(payload) <==> raw == payload + Checksum(hash, payload)
  {
    var full := payload + Checksum(hash, payload);
    assert full[..|full| - 4] == payload && full[|full| - 4..] == Checksum(hash, payload);
    if Verified(hash, raw) == Some(payload) {
      assert raw == payload + raw[|payload|..];
    }
  }

  /** The strings accepted for a payload: exactly the encoding of the payload with its checksum. */
  lemma CheckedAddressExact(hash: seq<Byte> -> Digest, s: string, payload: seq<Byte>)
    ensures Base58CheckDecode(hash, s) == Some(payload) <==> s == Encode(payload + hash(hash(payload))[..4])
  {
    DecodeOfEncode(payload + Checksum(hash, payload));
    if Decode(s).Some? {
      EncodeOfDecode(s);
      VerifiedExact(hash, Decode(s).value, payload);
    }
  }
}
