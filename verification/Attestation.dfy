/** Seed attestations for miner registration: the signed message, the 3-of-4 quorum and the on-chain
codec. SHA3-256 and Dilithium3 verification are parameters. */
module Attestation {
  import opened Wrappers
  import opened Bytes

  const NUM_SEEDS: nat := 4
  const MIN_ATTESTATIONS: nat := 3
  const MARKER: Byte := 0xDA
  const VALIDITY_WINDOW: int := 3600
  const PUBKEY_SIZE: nat := 1952
  const SIGNATURE_SIZE: nat := 3309
  const TIMESTAMP_SIZE: nat := 4
  const ENTRY_SIZE: nat := 1 + TIMESTAMP_SIZE + SIGNATURE_SIZE

  /** "DILV_ATTEST" */
  const DOMAIN: seq<Byte> := [0x44, 0x49, 0x4C, 0x56, 0x5F, 0x41, 0x54, 0x54, 0x45, 0x53, 0x54]

  type Timestamp = t: nat | t < 0x1_0000_0000

  datatype Entry = Entry(seedId: Byte, timestamp: Timestamp, signature: seq<Byte>)

  predicate IsValid(e: Entry) {
    e.seedId < NUM_SEEDS && |e.signature| == SIGNATURE_SIZE
  }

  // ---- The signed message ----

  function Preimage(mikPubkey: seq<Byte>, dnaHash: seq<Byte>, timestamp: Timestamp, seedId: Byte): seq<Byte> {
    DOMAIN + mikPubkey + dnaHash + ToLE(timestamp, TIMESTAMP_SIZE) + [seedId]
  }

  lemma {:induction false} TimestampBytes(t: Timestamp)
    ensures LE(ToLE(t, TIMESTAMP_SIZE)) == t
  {
    Pow256Add(2, 2);
    LEOfToLE(t, TIMESTAMP_SIZE);
  }

  /** The message determines key, hash, timestamp and seed, for keys of any length. */
  lemma PreimageInjective(k: seq<Byte>, h: seq<Byte>, t: Timestamp, i: Byte,
                          k': seq<Byte>, h': seq<Byte>, t': Timestamp, i': Byte)
    requires |h| == 32 && |h'| == 32 && Preimage(k, h, t, i) == Preimage(k', h', t', i')
    ensures k == k' && h == h' && t == t' && i == i'
  {
    var p, n := Preimage(k, h, t, i), |DOMAIN|;
    assert |p| == n + |k| + 37 && |p| == n + |k'| + 37;
    assert p[n..n + |k|] == k && p[n..n + |k|] == k';
    assert p[n + |k|..n + |k| + 32] == h && p[n + |k|..n + |k| + 32] == h';
    assert p[n + |k| + 32..n + |k| + 36] == ToLE(t, TIMESTAMP_SIZE);
    assert p[n + |k| + 32..n + |k| + 36] == ToLE(t', TIMESTAMP_SIZE);
    assert p[n + |k| + 36] == i && p[n + |k| + 36] == i';
    TimestampBytes(t);
    TimestampBytes(t');
  }

  // ---- The quorum ----

  /** The two cryptographic primitives. */
  datatype Crypto = Crypto(sha3: seq<Byte> -> seq<Byte>, verify: (seq<Byte>, seq<Byte>, seq<Byte>) -> bool)

  /** What a registration block is checked against. */
  datatype Claim = Claim(
    crypto: Crypto, mikPubkey: seq<Byte>, dnaHash: seq<Byte>, seedPubkeys: seq<seq<Byte>>, blockTime: int)

  predicate VerifyAttestation(c: Claim, e: Entry, seedPubkey: seq<Byte>) {
    && IsValid(e) && |seedPubkey| == PUBKEY_SIZE
    && c.crypto.verify(e.signature, c.crypto.sha3(Preimage(c.mikPubkey, c.dnaHash, e.timestamp, e.seedId)), seedPubkey)
  }

  /** A fresh, correctly signed entry of a known seed. */
  predicate Good(c: Claim, e: Entry) {
    && e.seedId < NUM_SEEDS && e.seedId < |c.seedPubkeys|
    && 0 <= c.blockTime - e.timestamp <= VALIDITY_WINDOW
    && VerifyAttestation(c, e, c.seedPubkeys[e.seedId])
  }

  function GoodSeeds(c: Claim, entries: seq<Entry>): set<int> {
    set e | e in entries && Good(c, e) :: e.seedId as int
  }

  /** Accepted: at least three distinct seeds have a good entry. */
  predicate Accepts(c: Claim, entries: seq<Entry>) {
    |c.seedPubkeys| == NUM_SEEDS && |GoodSeeds(c, entries)| >= MIN_ATTESTATIONS
  }

  /** The counting loop with its table of used seeds. */
  method VerifyAttestationSet(c: Claim, entries: seq<Entry>) returns (ok: bool)
    ensures ok <==> Accepts(c, entries)
  {
    if |c.seedPubkeys| != NUM_SEEDS { return false; }
    var used := new bool[NUM_SEEDS](_ => false);
    var count := 0;
    for i := 0 to |entries|
      invariant forall s | 0 <= s < NUM_SEEDS :: used[s] <==> s in GoodSeeds(c, entries[..i])
      invariant count == |GoodSeeds(c, entries[..i])|
    {
      var e := entries[i];
      GoodSeedsStep(c, entries, i);
      if e.seedId < NUM_SEEDS && !used[e.seedId] {
        var age := c.blockTime - e.timestamp;
        if !(age < 0 || age > VALIDITY_WINDOW) && VerifyAttestation(c, e, c.seedPubkeys[e.seedId]) {
          used[e.seedId] := true;
          count := count + 1;
        }
      }
    }
    assert entries[..|entries|] == entries;
    ok := count >= MIN_ATTESTATIONS;
  }

  /** Attests the claim: from one of the four seeds, not after the block and at most an hour before it, with a
      signature of the right size on this key and hash that verifies under that seed's key. */
  predicate Attests(c: Claim, e: Entry) {
    && e.seedId < 4 && |c.seedPubkeys| == 4 && |c.seedPubkeys[e.seedId]| == 1952 && |e.signature| == 3309
    && e.timestamp <= c.blockTime <= e.timestamp + 3600
    && c.crypto.verify(e.signature, c.crypto.sha3(Preimage(c.mikPubkey, c.dnaHash, e.timestamp, e.seedId)),
                       c.seedPubkeys[e.seedId])
  }

  /** Three entries from three different seeds attest the claim. */
  ghost predicate Quorum(c: Claim, entries: seq<Entry>, e0: Entry, e1: Entry, e2: Entry) {
    && e0 in entries && e1 in entries && e2 in entries && Attests(c, e0) && Attests(c, e1) && Attests(c, e2)
    && e0.seedId != e1.seedId && e0.seedId != e2.seedId && e1.seedId != e2.seedId
  }

  lemma OneOf<T>(s: set<T>) returns (x: T)
    requires |s| >= 1
    ensures x in s
  {
    assert s != {};
    x :| x in s;
  }

  lemma ThreeOf<T>(s: set<T>) returns (a: T, b: T, c: T)
    requires |s| >= 3
    ensures a in s && b in s && c in s && a != b && a != c && b != c
  {
    a := OneOf(s);
    b := OneOf(s - {a});
    c := OneOf(s - {a} - {b});
  }

  lemma QuorumAccepts(c: Claim, entries: seq<Entry>, e0: Entry, e1: Entry, e2: Entry)
    requires Quorum(c, entries, e0, e1, e2)
    ensures Accepts(c, entries)
  {
    var three: set<int> := {e0.seedId, e1.seedId, e2.seedId};
    assert Good(c, e0) && Good(c, e1) && Good(c, e2);
    assert three <= GoodSeeds(c, entries);
    SubsetSize(three, GoodSeeds(c, entries));
  }

  /** Accepted if and only if there is such a quorum. */
  lemma AcceptedExact(c: Claim, entries: seq<Entry>)
    ensures Accepts(c, entries) <==> exists e0, e1, e2 :: Quorum(c, entries, e0, e1, e2)
  {
    if Accepts(c, entries) {
      var s0, s1, s2 := ThreeOf(GoodSeeds(c, entries));
      var e0 :| e0 in entries && Good(c, e0) && e0.seedId as int == s0;
      var e1 :| e1 in entries && Good(c, e1) && e1.seedId as int == s1;
      var e2 :| e2 in entries && Good(c, e2) && e2.seedId as int == s2;
      assert Quorum(c, entries, e0, e1, e2);
    }
    if exists e0, e1, e2 :: Quorum(c, entries, e0, e1, e2) {
      var e0, e1, e2 :| Quorum(c, entries, e0, e1, e2);
      QuorumAccepts(c, entries, e0, e1, e2);
    }
  }

  lemma GoodSeedsStep(c: Claim, entries: seq<Entry>, i: nat)
    requires i < |entries|
    ensures GoodSeeds(c, entries[..i + 1]) ==
            GoodSeeds(c, entries[..i]) + if Good(c, entries[i]) then {entries[i].seedId as int} else {}
    ensures |GoodSeeds(c, entries[..i + 1])| ==
            |GoodSeeds(c, entries[..i])| +
            if Good(c, entries[i]) && entries[i].seedId !in GoodSeeds(c, entries[..i]) then 1 else 0
  {
    assert entries[..i + 1] == entries[..i] + [entries[i]];
    var old', s := GoodSeeds(c, entries[..i]), entries[i].seedId as int;
    assert s in old' ==> old' + {s} == old';
  }

  /** More entries never turn acceptance into rejection; so order and repetition do not matter. */
  lemma AcceptanceMonotone(c: Claim, entries: seq<Entry>, more: seq<Entry>)
    requires Accepts(c, entries) && forall e | e in entries :: e in more
    ensures Accepts(c, more)
  {
    assert GoodSeeds(c, entries) <= GoodSeeds(c, more);
    SubsetSize(GoodSeeds(c, entries), GoodSeeds(c, more));
  }

  lemma AcceptanceIgnoresOrder(c: Claim, entries: seq<Entry>, same: seq<Entry>)
    requires forall e :: e in entries <==> e in same
    ensures Accepts(c, entries) <==> Accepts(c, same)
  {
    assert GoodSeeds(c, entries) == GoodSeeds(c, same);
  }

  /** Two accepted sets, whatever they attest, have at least two seeds in common. */
  lemma QuorumsIntersect(c: Claim, entries: seq<Entry>, c': Claim, entries': seq<Entry>)
    requires Accepts(c, entries) && Accepts(c', entries')
    ensures |GoodSeeds(c, entries) * GoodSeeds(c', entries')| >= 2
  {
    var a, b, all := GoodSeeds(c, entries), GoodSeeds(c', entries'), {0, 1, 2, 3};
    assert a <= all && b <= all;
    assert |a + b| == |a| + |b| - |a * b|;
    SubsetSize(a + b, all);
  }

  /** Idealised primitives: no hash collisions, and no signature that fits two messages under one key. */
  ghost predicate Binding(cr: Crypto) {
    && (forall p, p' {:trigger cr.sha3(p), cr.sha3(p')} | cr.sha3(p) == cr.sha3(p') :: p == p')
    && (forall sig, m, m', k {:trigger cr.verify(sig, m, k), cr.verify(sig, m', k)}
          | cr.verify(sig, m, k) && cr.verify(sig, m', k) :: m == m')
  }

  /** An entry is good for one miner key and one hash only. */
  lemma EntryBindsClaim(c: Claim, c': Claim, e: Entry)
    requires Binding(c.crypto) && c'.crypto == c.crypto && c'.seedPubkeys == c.seedPubkeys
    requires |c.dnaHash| == 32 && |c'.dnaHash| == 32 && Good(c, e) && Good(c', e)
    ensures c.mikPubkey == c'.mikPubkey && c.dnaHash == c'.dnaHash
  {
    var p := Preimage(c.mikPubkey, c.dnaHash, e.timestamp, e.seedId);
    var p' := Preimage(c'.mikPubkey, c'.dnaHash, e.timestamp, e.seedId);
    assert c.crypto.sha3(p) == c.crypto.sha3(p');
    PreimageInjective(c.mikPubkey, c.dnaHash, e.timestamp, e.seedId, c'.mikPubkey, c'.dnaHash, e.timestamp, e.seedId);
  }

  /** So a set with one entry per seed cannot register two miners. */
  lemma SetBindsClaim(c: Claim, c': Claim, entries: seq<Entry>)
    requires Binding(c.crypto) && c'.crypto == c.crypto && c'.seedPubkeys == c.seedPubkeys
    requires |c.dnaHash| == 32 && |c'.dnaHash| == 32 && Accepts(c, entries) && Accepts(c', entries)
    requires forall e, e' | e in entries && e' in entries && e.seedId == e'.seedId :: e == e'
    ensures c.mikPubkey == c'.mikPubkey && c.dnaHash == c'.dnaHash
  {
    QuorumsIntersect(c, entries, c', entries);
    var both := GoodSeeds(c, entries) * GoodSeeds(c', entries);
    assert both != {};
    var s :| s in both;
    var e :| e in entries && Good(c, e) && e.seedId as int == s;
    var e' :| e' in entries && Good(c', e') && e'.seedId as int == s;
    EntryBindsClaim(c, c', e);
  }

  // ---- The on-chain codec ----

  function EntryBytes(e: Entry): seq<Byte> {
    [e.seedId] + ToLE(e.timestamp, TIMESTAMP_SIZE) + e.signature
  }

  function EntriesBytes(entries: seq<Entry>): seq<Byte> {
    if entries == [] then [] else EntriesBytes(entries[..|entries| - 1]) + EntryBytes(entries[|entries| - 1])
  }

  function ReadEntry(data: seq<Byte>): (e: Entry)
    requires |data| == ENTRY_SIZE
    ensures EntryBytes(e) == data && |e.signature| == SIGNATURE_SIZE
  {
    LEBound(data[1..5]);
    Pow256Add(2, 2);
    ToLEOfLE(data[1..5]);
    assert data == [data[0]] + data[1..5] + data[5..];
    Entry(data[0], LE(data[1..5]), data[5..])
  }

  /** Where entry `n` starts, counting from 0: past the header and the entries before it. */
  function EndOf(n: nat): (offset: nat)
    ensures offset >= 2
  {
    if n == 0 then 2 else EndOf(n - 1) + ENTRY_SIZE
  }

  lemma {:induction false} EndOfExact(n: nat)
    ensures EndOf(n) == 2 + n * ENTRY_SIZE
  {
    if n > 0 {
      EndOfExact(n - 1);
    }
  }

  /** The first `n` entries after the two header bytes. */
  function ReadEntries(data: seq<Byte>, n: nat): (es: seq<Entry>)
    requires |data| >= EndOf(n)
    ensures |es| == n
  {
    if n == 0 then [] else ReadEntries(data, n - 1) + [ReadEntry(data[EndOf(n - 1)..EndOf(n)])]
  }

  datatype Parsed = Parsed(entries: seq<Entry>, consumed: nat)

  function ParseSpec(data: seq<Byte>): Option<Parsed> {
    if |data| < 2 || data[0] != MARKER || |data| < EndOf(data[1]) then None
    else Some(Parsed(ReadEntries(data, data[1]), EndOf(data[1])))
  }

  /** Appends marker, count and entries; fails for 0 or more than 255 entries and at the first invalid one. */
  method BuildAttestationScriptData(entries: seq<Entry>, data: seq<Byte>) returns (ok: bool, out: seq<Byte>)
    ensures ok <==> 1 <= |entries| <= 255 && forall e | e in entries :: IsValid(e)
    ensures ok ==> out == data + [MARKER, |entries|] + EntriesBytes(entries)
    ensures |entries| == 0 || |entries| > 255 ==> out == data
    ensures data <= out
  {
    out := data;
    if |entries| == 0 || |entries| > 255 { return false, out; }
    out := out + [MARKER];
    out := out + [|entries|];
    for i := 0 to |entries|
      invariant out == data + [MARKER, |entries|] + EntriesBytes(entries[..i])
      invariant forall j | 0 <= j < i :: IsValid(entries[j])
    {
      var e := entries[i];
      if !IsValid(e) { return false, out; }
      assert entries[..i + 1][..i] == entries[..i];
      out := out + [e.seedId];
      out := out + ToLE(e.timestamp, TIMESTAMP_SIZE);
      out := out + e.signature;
    }
    assert entries[..|entries|] == entries;
    ok := true;
  }

  /** Reads the entries by advancing an offset; every read lies within the data. */
  method ParseAttestationScriptData(data: seq<Byte>) returns (ok: bool, entries: seq<Entry>, consumed: nat)
    ensures ok <==> ParseSpec(data).Some?
    ensures if ok then ParseSpec(data) == Some(Parsed(entries, consumed)) else entries == [] && consumed == 0
  {
    entries, consumed := [], 0;
    if |data| < 2 || data[0] != MARKER { return false, entries, consumed; }
    var count := data[1];
    EndOfExact(count);
    if |data| < 2 + count * ENTRY_SIZE { return false, entries, consumed; }
    var offset := 2;
    for i := 0 to count
      invariant offset == EndOf(i) <= |data| && entries == ReadEntries(data, i)
    {
      EndOfMonotone(i + 1, count);
      entries := entries + [ReadEntry(data[offset..offset + ENTRY_SIZE])];
      offset := offset + ENTRY_SIZE;
    }
    consumed := offset;
    ok := true;
  }

  lemma {:induction false} EndOfMonotone(m: nat, n: nat)
    requires m <= n
    ensures EndOf(m) <= EndOf(n)
  {
    if m < n {
      EndOfMonotone(m, n - 1);
    }
  }

  lemma {:induction false} EntriesLength(entries: seq<Entry>)
    requires forall e | e in entries :: |e.signature| == SIGNATURE_SIZE
    ensures 2 + |EntriesBytes(entries)| == EndOf(|entries|)
  {
    if entries != [] {
      EntriesLength(entries[..|entries| - 1]);
      assert |EntryBytes(entries[|entries| - 1])| == ENTRY_SIZE;
    }
  }

  lemma ReadEntryOfBytes(e: Entry)
    requires |e.signature| == SIGNATURE_SIZE
    ensures ReadEntry(EntryBytes(e)) == e
  {
    var d := EntryBytes(e);
    assert d[1..5] == ToLE(e.timestamp, TIMESTAMP_SIZE) && d[5..] == e.signature;
    TimestampBytes(e.timestamp);
  }

  lemma SliceOut(a: seq<Byte>, b: seq<Byte>, c: seq<Byte>, d: seq<Byte>)
    ensures a + (b + c) + d == a + b + (c + d)
    ensures (a + (b + c) + d)[|a| + |b|..|a| + |b| + |c|] == c
  {
  }

  lemma ReadStep(data: seq<Byte>, init: seq<Entry>, last: Entry)
    requires EndOf(|init| + 1) <= |data| && |last.signature| == SIGNATURE_SIZE
    requires ReadEntries(data, |init|) == init && data[EndOf(|init|)..EndOf(|init| + 1)] == EntryBytes(last)
    ensures ReadEntries(data, |init| + 1) == init + [last]
  {
    ReadEntryOfBytes(last);
  }

  lemma ReadOneMore(header: seq<Byte>, init: seq<Entry>, body: seq<Byte>, last: Entry,
                    bytes: seq<Byte>, tail: seq<Byte>)
    requires |header| == 2 && bytes == EntryBytes(last) && |last.signature| == SIGNATURE_SIZE
    requires 2 + |body| == EndOf(|init|) && ReadEntries(header + body + (bytes + tail), |init|) == init
    ensures ReadEntries(header + (body + bytes) + tail, |init| + 1) == init + [last]
  {
    SliceOut(header, body, bytes, tail);
    ReadStep(header + (body + bytes) + tail, init, last);
  }

  lemma {:induction false} ReadEntriesOfBytes(header: seq<Byte>, entries: seq<Entry>, tail: seq<Byte>)
    requires |header| == 2 && forall e | e in entries :: |e.signature| == SIGNATURE_SIZE
    ensures 2 + |EntriesBytes(entries)| == EndOf(|entries|)
    ensures ReadEntries(header + EntriesBytes(entries) + tail, |entries|) == entries
    decreases |entries|
  {
    EntriesLength(entries);
    if entries != [] {
      var init, last := entries[..|entries| - 1], entries[|entries| - 1];
      ReadEntriesOfBytes(header, init, EntryBytes(last) + tail);
      ReadOneMore(header, init, EntriesBytes(init), last, EntryBytes(last), tail);
      assert init + [last] == entries;
    }
  }

  /** Parsing built data, followed by anything, gives the entries back and consumes exactly their bytes. */
  lemma ParseOfBuilt(entries: seq<Entry>, tail: seq<Byte>)
    requires 1 <= |entries| <= 255 && forall e | e in entries :: IsValid(e)
    ensures ParseSpec([MARKER, |entries|] + EntriesBytes(entries) + tail)
         == Some(Parsed(entries, 2 + |EntriesBytes(entries)|))
  {
    ReadEntriesOfBytes([MARKER, |entries|], entries, tail);
  }

  lemma {:induction false} BytesOfReadEntries(data: seq<Byte>, n: nat)
    requires |data| >= EndOf(n)
    ensures EntriesBytes(ReadEntries(data, n)) == data[2..EndOf(n)]
    decreases n
  {
    if n > 0 {
      BytesOfReadEntries(data, n - 1);
      var es := ReadEntries(data, n);
      assert es[..n - 1] == ReadEntries(data, n - 1);
      assert data[2..EndOf(n)] == data[2..EndOf(n - 1)] + data[EndOf(n - 1)..EndOf(n)];
    }
  }

  /** Whatever parses is its own rebuilding: the bytes consumed are the header and the entries' bytes. */
  lemma BuiltOfParse(data: seq<Byte>)
    requires ParseSpec(data).Some?
    ensures var p := ParseSpec(data).value;
            && |p.entries| == data[1] && p.consumed == 2 + |p.entries| * ENTRY_SIZE <= |data|
            && data[..p.consumed] == [MARKER, |p.entries|] + EntriesBytes(p.entries)
  {
    BytesOfReadEntries(data, data[1]);
    EndOfExact(data[1]);
    var n := EndOf(data[1]);
    assert data[..n] == [data[0], data[1]] + data[2..n];
  }
}
