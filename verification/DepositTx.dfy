/** The raw deposit transaction, a reader for its serialisation, and the relayer's recognition of deposits. */
module DepositTx {
  import opened Wrappers
  import opened Bytes
  import opened Base58

  const U16: nat := 2
  const U32: nat := 4
  const U64: nat := 8
  const HASH: nat := 32

  datatype TxIn = TxIn(prev: seq<Byte>, index: nat, script: seq<Byte>, sequence: nat)
  datatype TxOut = TxOut(value: nat, script: seq<Byte>)
  datatype Tx = Tx(version: nat, inputs: seq<TxIn>, outputs: seq<TxOut>, lockTime: nat)

  // ---- Serialisation ----

  function CompactSize(n: nat): seq<Byte> {
    if n < 253 then [n]
    else if n < 0x1_0000 then [0xfd] + ToLE(n, U16)
    else if n < 0x1_0000_0000 then [0xfe] + ToLE(n, U32)
    else [0xff] + ToLE(n, U64)
  }

  function VarBytes(s: seq<Byte>): seq<Byte> {
    CompactSize(|s|) + s
  }

  function InBytes(i: TxIn): seq<Byte> {
    i.prev + (ToLE(i.index, U32) + (VarBytes(i.script) + ToLE(i.sequence, U32)))
  }

  function OutBytes(o: TxOut): seq<Byte> {
    ToLE(o.value, U64) + VarBytes(o.script)
  }

  function ManyBytes<T>(bytes: T -> seq<Byte>, xs: seq<T>): seq<Byte> {
    if xs == [] then [] else bytes(xs[0]) + ManyBytes(bytes, xs[1..])
  }

  function TxBytes(t: Tx): seq<Byte> {
    ToLE(t.version, U32) + (CompactSize(|t.inputs|) + (ManyBytes(InBytes, t.inputs)
    + (CompactSize(|t.outputs|) + (ManyBytes(OutBytes, t.outputs) + ToLE(t.lockTime, U32)))))
  }

  predicate Fits(n: nat, width: nat) {
    n < Pow256(width)
  }

  predicate InFits(i: TxIn) {
    |i.prev| == HASH && Fits(i.index, U32) && Fits(|i.script|, U64) && Fits(i.sequence, U32)
  }

  predicate OutFits(o: TxOut) {
    Fits(o.value, U64) && Fits(|o.script|, U64)
  }

  predicate TxFits(t: Tx) {
    && Fits(t.version, U32) && Fits(t.lockTime, U32) && Fits(|t.inputs|, U64) && Fits(|t.outputs|, U64)
    && (forall i | i in t.inputs :: InFits(i)) && (forall o | o in t.outputs :: OutFits(o))
  }

  // ---- Reading ----

  datatype Read<T> = Fail | Read(value: T, rest: seq<Byte>)

  function ReadInt(b: seq<Byte>, width: nat): Read<nat> {
    if |b| < width then Fail else Read(LE(b[..width]), b[width..])
  }

  function ReadRaw(b: seq<Byte>, n: nat): Read<seq<Byte>> {
    if |b| < n then Fail else Read(b[..n], b[n..])
  }

  function ReadCompact(b: seq<Byte>): Read<nat> {
    if b == [] then Fail
    else if b[0] < 253 then Read(b[0], b[1..])
    else ReadInt(b[1..], if b[0] == 0xfd then U16 else if b[0] == 0xfe then U32 else U64)
  }

  function ReadVar(b: seq<Byte>): Read<seq<Byte>> {
    var n := ReadCompact(b);
    if n.Fail? then Fail else ReadRaw(n.rest, n.value)
  }

  function ReadIn(b: seq<Byte>): Read<TxIn> {
    var prev := ReadRaw(b, HASH);
    if prev.Fail? then Fail else
    var index := ReadInt(prev.rest, U32);
    if index.Fail? then Fail else
    var script := ReadVar(index.rest);
    if script.Fail? then Fail else
    var sequence := ReadInt(script.rest, U32);
    if sequence.Fail? then Fail else Read(TxIn(prev.value, index.value, script.value, sequence.value), sequence.rest)
  }

  function ReadOut(b: seq<Byte>): Read<TxOut> {
    var value := ReadInt(b, U64);
    if value.Fail? then Fail else
    var script := ReadVar(value.rest);
    if script.Fail? then Fail else Read(TxOut(value.value, script.value), script.rest)
  }

  function ReadMany<T>(read: seq<Byte> -> Read<T>, b: seq<Byte>, n: nat): Read<seq<T>>
    decreases n
  {
    if n == 0 then Read([], b) else
    var first := read(b);
    if first.Fail? then Fail else
    var others := ReadMany(read, first.rest, n - 1);
    if others.Fail? then Fail else Read([first.value] + others.value, others.rest)
  }

  function ReadTx(b: seq<Byte>): Read<Tx> {
    var version := ReadInt(b, U32);
    if version.Fail? then Fail else
    var nIn := ReadCompact(version.rest);
    if nIn.Fail? then Fail else
    var ins := ReadMany(ReadIn, nIn.rest, nIn.value);
    if ins.Fail? then Fail else
    var nOut := ReadCompact(ins.rest);
    if nOut.Fail? then Fail else
    var outs := ReadMany(ReadOut, nOut.rest, nOut.value);
    if outs.Fail? then Fail else
    var lockTime := ReadInt(outs.rest, U32);
    if lockTime.Fail? then Fail else Read(Tx(version.value, ins.value, outs.value, lockTime.value), lockTime.rest)
  }

  // ---- Reading back what was written, followed by anything ----

  lemma IntReads(n: nat, width: nat, rest: seq<Byte>)
    requires Fits(n, width)
    ensures ReadInt(ToLE(n, width) + rest, width) == Read(n, rest)
  {
    LEOfToLE(n, width);
    var b := ToLE(n, width) + rest;
    assert b[..width] == ToLE(n, width) && b[width..] == rest;
  }

  lemma RawReads(s: seq<Byte>, rest: seq<Byte>)
    ensures ReadRaw(s + rest, |s|) == Read(s, rest)
  {
    assert (s + rest)[..|s|] == s && (s + rest)[|s|..] == rest;
  }

  lemma Widths()
    ensures Pow256(U16) == 0x1_0000 && Pow256(U32) == 0x1_0000_0000
  {
    Pow256Add(2, 2);
  }

  lemma CompactReads(n: nat, rest: seq<Byte>)
    requires Fits(n, U64)
    ensures ReadCompact(CompactSize(n) + rest) == Read(n, rest)
  {
    Widths();
    var b := CompactSize(n) + rest;
    if n < 253 {
      assert b[1..] == rest;
    } else {
      var width := if n < 0x1_0000 then U16 else if n < 0x1_0000_0000 then U32 else U64;
      assert b[1..] == ToLE(n, width) + rest;
      IntReads(n, width, rest);
    }
  }

  lemma VarReads(s: seq<Byte>, rest: seq<Byte>)
    requires Fits(|s|, U64)
    ensures ReadVar(VarBytes(s) + rest) == Read(s, rest)
  {
    CompactReads(|s|, s + rest);
    assert VarBytes(s) + rest == CompactSize(|s|) + (s + rest);
    RawReads(s, rest);
  }

  lemma InReads(i: TxIn, rest: seq<Byte>)
    requires InFits(i)
    ensures ReadIn(InBytes(i) + rest) == Read(i, rest)
  {
    var b3 := ToLE(i.sequence, U32) + rest;
    var b2 := VarBytes(i.script) + b3;
    var b1 := ToLE(i.index, U32) + b2;
    assert InBytes(i) + rest == i.prev + b1;
    RawReads(i.prev, b1);
    IntReads(i.index, U32, b2);
    VarReads(i.script, b3);
    IntReads(i.sequence, U32, rest);
  }

  lemma OutReads(o: TxOut, rest: seq<Byte>)
    requires OutFits(o)
    ensures ReadOut(OutBytes(o) + rest) == Read(o, rest)
  {
    assert OutBytes(o) + rest == ToLE(o.value, U64) + (VarBytes(o.script) + rest);
    IntReads(o.value, U64, VarBytes(o.script) + rest);
    VarReads(o.script, rest);
  }

  /** If every item is read back, so is the list of them. */
  lemma {:induction false} ManyRead<T(!new)>(read: seq<Byte> -> Read<T>, bytes: T -> seq<Byte>,
                                             xs: seq<T>, rest: seq<Byte>)
    requires forall x, r {:trigger bytes(x) + r} | x in xs :: read(bytes(x) + r) == Read(x, r)
    ensures ReadMany(read, ManyBytes(bytes, xs) + rest, |xs|) == Read(xs, rest)
    decreases |xs|
  {
    if xs == [] {
      assert ManyBytes(bytes, xs) + rest == rest;
    } else {
      var tail := ManyBytes(bytes, xs[1..]) + rest;
      assert ManyBytes(bytes, xs) + rest == bytes(xs[0]) + tail;
      ManyRead(read, bytes, xs[1..], rest);
      assert [xs[0]] + xs[1..] == xs;
    }
  }

  /** Every transaction within the field widths is read back exactly, whatever follows it. */
  lemma TxReads(t: Tx, rest: seq<Byte>)
    requires TxFits(t)
    ensures ReadTx(TxBytes(t) + rest) == Read(t, rest)
  {
    var b5 := ToLE(t.lockTime, U32) + rest;
    var b4 := ManyBytes(OutBytes, t.outputs) + b5;
    var b3 := CompactSize(|t.outputs|) + b4;
    var b2 := ManyBytes(InBytes, t.inputs) + b3;
    var b1 := CompactSize(|t.inputs|) + b2;
    assert TxBytes(t) + rest == ToLE(t.version, U32) + b1;
    IntReads(t.version, U32, b1);
    CompactReads(|t.inputs|, b2);
    forall i, r | i in t.inputs ensures ReadIn(InBytes(i) + r) == Read(i, r) {
      InReads(i, r);
    }
    ManyRead(ReadIn, InBytes, t.inputs, b3);
    CompactReads(|t.outputs|, b4);
    forall o, r | o in t.outputs ensures ReadOut(OutBytes(o) + r) == Read(o, r) {
      OutReads(o, r);
    }
    ManyRead(ReadOut, OutBytes, t.outputs, b5);
    IntReads(t.lockTime, U32, rest);
  }

  /** So no serialisation is a proper prefix of another, and equal bytes mean equal transactions. */
  lemma TxPrefixFree(t: Tx, t': Tx, rest: seq<Byte>)
    requires TxFits(t) && TxFits(t') && TxBytes(t) + rest == TxBytes(t')
    ensures t == t' && rest == []
  {
    TxReads(t, rest);
    TxReads(t', []);
    assert TxBytes(t') + [] == TxBytes(t');
  }

  // ---- Building the deposit ----

  const VERSION: nat := 1
  const SEQUENCE: nat := 0xFFFF_FFFF

  datatype PrevOut = PrevOut(txid: seq<Byte>, vout: int)

  datatype Request = Request(inputs: seq<PrevOut>, bridge: string, deposit: int, change: string, changeAmount: int,
                             data: seq<Byte>, opReturnValue: int)

  /** The address payload without its version byte. */
  function PubkeyHash(hash: seq<Byte> -> Digest, address: string): Option<seq<Byte>> {
    var payload := Base58CheckDecode(hash, address);
    if payload.None? then None else Some(if payload.value == [] then [] else payload.value[1..])
  }

  function P2pkh(h: seq<Byte>): seq<Byte>
    requires |h| < 256
  {
    [0x76, 0xa9, |h|] + h + [0x88, 0xac]
  }

  function OpReturn(data: seq<Byte>): seq<Byte>
    requires |data| < 76
  {
    [0x6a, |data|] + data
  }

  function InputOf(p: PrevOut): TxIn
    requires p.vout >= 0
  {
    TxIn(Reversed(p.txid), p.vout, [], SEQUENCE)
  }

  predicate Packs(n: int, width: nat) {
    n >= 0 && Fits(n, width)
  }

  predicate InputsPack(inputs: seq<PrevOut>) {
    forall i | 0 <= i < |inputs| :: Packs(inputs[i].vout, U32)
  }

  /** The request can be written: both addresses decode and every number fits its field. */
  predicate Buildable(hash: seq<Byte> -> Digest, r: Request) {
    var bridge, change := PubkeyHash(hash, r.bridge), PubkeyHash(hash, r.change);
    && InputsPack(r.inputs) && Fits(|r.inputs|, U64)
    && bridge.Some? && |bridge.value| < 256 && change.Some? && |change.value| < 256
    && |r.data| < 76
    && Packs(r.deposit, U64) && Packs(r.opReturnValue, U64) && Packs(r.changeAmount, U64)
  }

  function Inputs(inputs: seq<PrevOut>): seq<TxIn>
    requires InputsPack(inputs)
  {
    seq(|inputs|, i requires 0 <= i < |inputs| => InputOf(inputs[i]))
  }

  /** The transaction meant: payment to the bridge, metadata, change. */
  function DepositOf(hash: seq<Byte> -> Digest, r: Request): Tx
    requires Buildable(hash, r)
  {
    Tx(VERSION, Inputs(r.inputs),
       [TxOut(r.deposit, P2pkh(PubkeyHash(hash, r.bridge).value)),
        TxOut(r.opReturnValue, OpReturn(r.data)),
        TxOut(r.changeAmount, P2pkh(PubkeyHash(hash, r.change).value))],
       0)
  }

  /** The constants of a built deposit, opcode by opcode. */
  lemma DepositLayout(hash: seq<Byte> -> Digest, r: Request)
    requires Buildable(hash, r)
    ensures var t := DepositOf(hash, r);
            && t.version == 1 && t.lockTime == 0 && |t.inputs| == |r.inputs|
            && (forall i | 0 <= i < |r.inputs| :: t.inputs[i].script == [] && t.inputs[i].sequence == 0xFFFF_FFFF)
            && |t.outputs| == 3
            && (forall h | PubkeyHash(hash, r.bridge) == Some(h) ::
                  t.outputs[0] == TxOut(r.deposit, [0x76, 0xa9, |h|] + h + [0x88, 0xac]))
            && t.outputs[1] == TxOut(r.opReturnValue, [0x6a, |r.data|] + r.data)
            && (forall h | PubkeyHash(hash, r.change) == Some(h) ::
                  t.outputs[2] == TxOut(r.changeAmount, [0x76, 0xa9, |h|] + h + [0x88, 0xac]))
  {
  }

  lemma {:induction false} ManyBytesSnoc<T>(bytes: T -> seq<Byte>, xs: seq<T>, x: T)
    ensures ManyBytes(bytes, xs + [x]) == ManyBytes(bytes, xs) + bytes(x)
    decreases |xs|
  {
    if xs == [] {
      assert xs + [x] == [x];
      assert ManyBytes(bytes, [x]) == bytes(x) + ManyBytes(bytes, [x][1..]) == bytes(x);
    } else {
      assert (xs + [x])[1..] == xs[1..] + [x];
      ManyBytesSnoc(bytes, xs[1..], x);
    }
  }

  lemma InputsSnoc(inputs: seq<PrevOut>, i: nat)
    requires i < |inputs| && InputsPack(inputs[..i]) && Packs(inputs[i].vout, U32)
    ensures InputsPack(inputs[..i + 1])
    ensures ManyBytes(InBytes, Inputs(inputs[..i + 1]))
         == ManyBytes(InBytes, Inputs(inputs[..i])) + InBytes(InputOf(inputs[i]))
  {
    assert Inputs(inputs[..i + 1]) == Inputs(inputs[..i]) + [InputOf(inputs[i])];
    ManyBytesSnoc(InBytes, Inputs(inputs[..i]), InputOf(inputs[i]));
  }

  lemma InputAppended(tx: seq<Byte>, p: PrevOut)
    requires p.vout >= 0
    ensures tx + Reversed(p.txid) + ToLE(p.vout, U32) + CompactSize(0) + ToLE(SEQUENCE, U32) == tx + InBytes(InputOf(p))
  {
    assert VarBytes([]) == CompactSize(0);
  }

  /** The loop over the inputs; fails at the first index out of range. */
  method AppendInputs(start: seq<Byte>, inputs: seq<PrevOut>) returns (r: Option<seq<Byte>>)
    ensures r == if InputsPack(inputs) then Some(start + ManyBytes(InBytes, Inputs(inputs))) else None
  {
    var tx := start;
    for i := 0 to |inputs|
      invariant InputsPack(inputs[..i]) && tx == start + ManyBytes(InBytes, Inputs(inputs[..i]))
    {
      if !Packs(inputs[i].vout, U32) { return None; }
      InputAppended(tx, inputs[i]);
      InputsSnoc(inputs, i);
      tx := tx + Reversed(inputs[i].txid);
      tx := tx + ToLE(inputs[i].vout, U32);
      tx := tx + CompactSize(0);
      tx := tx + ToLE(SEQUENCE, U32);
    }
    assert inputs[..|inputs|] == inputs;
    r := Some(tx);
  }

  method AppendOutput(start: seq<Byte>, value: int, script: seq<Byte>) returns (r: Option<seq<Byte>>)
    ensures r == if Packs(value, U64) then Some(start + OutBytes(TxOut(value, script))) else None
  {
    if !Packs(value, U64) { return None; }
    var tx := start + ToLE(value, U64);
    tx := tx + CompactSize(|script|);
    tx := tx + script;
    assert tx == start + OutBytes(TxOut(value, script));
    r := Some(tx);
  }

  /** Writes exactly the serialisation of the deposit, or fails when the request cannot be written. */
  method BuildRawTransaction(hash: seq<Byte> -> Digest, r: Request) returns (raw: Option<seq<Byte>>)
    ensures raw == if Buildable(hash, r) then Some(TxBytes(DepositOf(hash, r))) else None
  {
    if !Fits(|r.inputs|, U64) { return None; }
    var start := ToLE(VERSION, U32) + CompactSize(|r.inputs|);
    var tx := AppendInputs(start, r.inputs);
    if tx.None? { return None; }
    var bridge := PubkeyHash(hash, r.bridge);
    if bridge.None? || |bridge.value| >= 256 { return None; }
    var t0 := AppendOutput(tx.value + CompactSize(3), r.deposit, P2pkh(bridge.value));
    if t0.None? || |r.data| >= 76 { return None; }
    var t1 := AppendOutput(t0.value, r.opReturnValue, OpReturn(r.data));
    if t1.None? { return None; }
    var change := PubkeyHash(hash, r.change);
    if change.None? || |change.value| >= 256 { return None; }
    var t2 := AppendOutput(t1.value, r.changeAmount, P2pkh(change.value));
    if t2.None? { return None; }
    raw := Some(t2.value + ToLE(0, U32));
    Assembled(DepositOf(hash, r));
  }

  lemma ThreeOutputs(a: TxOut, b: TxOut, c: TxOut)
    ensures ManyBytes(OutBytes, [a, b, c]) == OutBytes(a) + OutBytes(b) + OutBytes(c)
  {
    ManyBytesSnoc(OutBytes, [], a);
    ManyBytesSnoc(OutBytes, [a], b);
    ManyBytesSnoc(OutBytes, [a, b], c);
    assert [] + [a] == [a] && [a] + [b] == [a, b] && [a, b] + [c] == [a, b, c];
  }

  lemma Nested(p: seq<Byte>, q: seq<Byte>, r: seq<Byte>, s: seq<Byte>,
               a: seq<Byte>, b: seq<Byte>, c: seq<Byte>, z: seq<Byte>)
    ensures p + (q + (r + (s + ((a + b + c) + z)))) == p + q + r + s + a + b + c + z
  {
    var t := a + b + c;
    assert s + (t + z) == s + a + b + c + z;
    assert r + (s + a + b + c + z) == r + s + a + b + c + z;
    assert q + (r + s + a + b + c + z) == q + r + s + a + b + c + z;
    assert p + (q + r + s + a + b + c + z) == p + q + r + s + a + b + c + z;
  }

  lemma Assembled(t: Tx)
    requires |t.outputs| == 3
    ensures TxBytes(t) ==
            ToLE(t.version, U32) + CompactSize(|t.inputs|) + ManyBytes(InBytes, t.inputs) + CompactSize(3)
            + OutBytes(t.outputs[0]) + OutBytes(t.outputs[1]) + OutBytes(t.outputs[2]) + ToLE(t.lockTime, U32)
  {
    var a, b, c := t.outputs[0], t.outputs[1], t.outputs[2];
    assert t.outputs == [a, b, c];
    ThreeOutputs(a, b, c);
    Nested(ToLE(t.version, U32), CompactSize(|t.inputs|), ManyBytes(InBytes, t.inputs), CompactSize(3),
           OutBytes(a), OutBytes(b), OutBytes(c), ToLE(t.lockTime, U32));
  }

  // ---- The relayer's side ----

  /** "DBRG" */
  const TAG: seq<Byte> := [0x44, 0x42, 0x52, 0x47]

  function ZeroAddress(): seq<Byte> {
    seq(20, _ => 0)
  }

  function ParseBridgeOpReturn(data: seq<Byte>): Option<seq<Byte>> {
    if |data| < 2 || data[0] != 0x6a then None
    else
      var payload := data[2..];
      if |payload| != data[1] || data[1] != 24 then None
      else if payload[..4] != TAG || payload[4..24] == ZeroAddress() then None
      else Some(payload[4..24])
  }

  /** Exactly one script carries a given address, and the zero address is never carried. */
  lemma OpReturnExact(script: seq<Byte>, address: seq<Byte>)
    ensures ParseBridgeOpReturn(script) == Some(address) <==>
            |address| == 20 && address != ZeroAddress() && script == OpReturn(TAG + address)
  {
    if |address| == 20 && script == OpReturn(TAG + address) {
      var payload := script[2..];
      assert payload == TAG + address;
      assert payload[..4] == TAG && payload[4..24] == address;
    }
    if ParseBridgeOpReturn(script) == Some(address) {
      assert script[2..] == TAG + address;
      assert script == [0x6a, 24] + script[2..];
    }
  }

  datatype Detection =
    | NoPayment
    | NoMetadata(unclaimed: nat)
    | Detected(vout: nat, amount: nat, base: seq<Byte>)

  /** What the node reports as the address of an output script; the empty string if it has none. */
  type AddressOf = seq<Byte> -> string

  function LastPaid(outs: seq<TxOut>, node: AddressOf, bridge: string): (n: Option<nat>)
    ensures n.Some? ==> n.value < |outs| && node(outs[n.value].script) == bridge
    ensures forall i | 0 <= i < |outs| && node(outs[i].script) == bridge :: n.Some? && i <= n.value
  {
    if outs == [] then None
    else if node(outs[|outs| - 1].script) == bridge then Some(|outs| - 1)
    else LastPaid(outs[..|outs| - 1], node, bridge)
  }

  function FirstBase(outs: seq<TxOut>): Option<seq<Byte>> {
    if outs == [] then None
    else if ParseBridgeOpReturn(outs[0].script).Some? then ParseBridgeOpReturn(outs[0].script)
    else FirstBase(outs[1..])
  }

  function Detect(outs: seq<TxOut>, node: AddressOf, bridge: string): Detection {
    var n, base := LastPaid(outs, node, bridge), FirstBase(outs);
    if n.None? then NoPayment
    else if base.None? then NoMetadata(outs[n.value].value)
    else Detected(n.value, outs[n.value].value, base.value)
  }

  lemma {:induction false} FirstBaseExact(outs: seq<TxOut>, j: nat)
    requires j < |outs| && ParseBridgeOpReturn(outs[j].script).Some?
    requires forall i | 0 <= i < j :: ParseBridgeOpReturn(outs[i].script).None?
    ensures FirstBase(outs) == ParseBridgeOpReturn(outs[j].script)
    decreases |outs|
  {
    if j > 0 {
      FirstBaseExact(outs[1..], j - 1);
    }
  }

  lemma {:induction false} NoBaseExact(outs: seq<TxOut>)
    requires forall i | 0 <= i < |outs| :: ParseBridgeOpReturn(outs[i].script).None?
    ensures FirstBase(outs).None?
    decreases |outs|
  {
    if outs != [] {
      NoBaseExact(outs[1..]);
    }
  }

  /** What is detected, by position: with payments to the bridge, of which `n` is the last, and metadata, of which `j`
      is the first that parses, payment `n` is credited to the address in output `j`. */
  lemma DetectedByPosition(outs: seq<TxOut>, node: AddressOf, bridge: string, n: nat, j: nat)
    requires n < |outs| && node(outs[n].script) == bridge && forall i | n < i < |outs| :: node(outs[i].script) != bridge
    requires j <= |outs| && forall i | 0 <= i < j :: ParseBridgeOpReturn(outs[i].script).None?
    requires j < |outs| ==> ParseBridgeOpReturn(outs[j].script).Some?
    ensures Detect(outs, node, bridge) ==
            if j == |outs| then NoMetadata(outs[n].value)
            else Detected(n, outs[n].value, ParseBridgeOpReturn(outs[j].script).value)
  {
    if j < |outs| {
      FirstBaseExact(outs, j);
    } else {
      NoBaseExact(outs);
    }
  }

  /** Two passes over the outputs: the last payment to the bridge, then the first metadata that parses. */
  method CheckTxForDeposit(outs: seq<TxOut>, node: AddressOf, bridge: string) returns (r: Detection)
    ensures r == Detect(outs, node, bridge)
  {
    var vout: Option<nat> := None;
    var amount := 0;
    for i := 0 to |outs|
      invariant vout == LastPaid(outs[..i], node, bridge)
      invariant vout.Some? ==> amount == outs[vout.value].value
    {
      assert outs[..i + 1][..i] == outs[..i];
      if node(outs[i].script) == bridge {
        vout, amount := Some(i), outs[i].value;
      }
    }
    assert outs[..|outs|] == outs;
    if vout.None? { return NoPayment; }
    var base: Option<seq<Byte>> := None;
    var i := 0;
    while i < |outs|
      invariant i <= |outs| && FirstBase(outs) == FirstBase(outs[i..])
    {
      base := ParseBridgeOpReturn(outs[i].script);
      if base.Some? {
        return Detected(vout.value, amount, base.value);
      }
      assert outs[i..][1..] == outs[i + 1..];
      i := i + 1;
    }
    r := NoMetadata(amount);
  }

  // ---- From the sender to the relayer ----

  /** The address of a key hash on the network with version byte `v`. */
  function Address(hash: seq<Byte> -> Digest, v: Byte, h: seq<Byte>): string {
    Encode([v] + h + Checksum(hash, [v] + h))
  }

  lemma AddressDecodes(hash: seq<Byte> -> Digest, v: Byte, h: seq<Byte>)
    ensures PubkeyHash(hash, Address(hash, v, h)) == Some(h) && Address(hash, v, h) != ""
  {
    CheckedAddressExact(hash, Address(hash, v, h), [v] + h);
    assert ([v] + h)[1..] == h;
    CheckedAddressExact(hash, "", [v] + h);
    assert Decode("") == Some([]);
  }

  const KEY_HASH: nat := 20

  /** The node names outputs that pay a 20-byte key hash by their address on its network, and metadata outputs
      not at all. */
  ghost predicate Reports(hash: seq<Byte> -> Digest, node: AddressOf, v: Byte) {
    && (forall h: seq<Byte> {:trigger P2pkh(h)} | |h| == KEY_HASH :: node(P2pkh(h)) == Address(hash, v, h))
    && (forall d: seq<Byte> {:trigger OpReturn(d)} | |d| < 76 :: node(OpReturn(d)) == "")
  }

  /** A deposit that was built is read back whole, and the relayer credits its amount to its address. The
      exceptions are exact: an address of another network is never seen, and if the change goes to the
      bridge's own key hash, the change is taken for the payment. */
  lemma BuiltIsDetected(hash: seq<Byte> -> Digest, r: Request, address: seq<Byte>, node: AddressOf, v: Byte)
    requires Buildable(hash, r) && r.data == TAG + address && |address| == 20 && address != ZeroAddress()
    requires forall i | 0 <= i < |r.inputs| :: |r.inputs[i].txid| == HASH
    requires Reports(hash, node, v) && KeyHashes(hash, r)
    ensures var t := DepositOf(hash, r);
            var bridge := PubkeyHash(hash, r.bridge).value;
            && ReadTx(TxBytes(t)) == Read(t, [])
            && Detect(t.outputs, node, r.bridge) ==
               if r.bridge != Address(hash, v, bridge) then NoPayment
               else if PubkeyHash(hash, r.change).value == bridge then Detected(2, r.changeAmount, address)
               else Detected(0, r.deposit, address)
  {
    var t := DepositOf(hash, r);
    DepositFits(hash, r);
    TxReads(t, []);
    assert TxBytes(t) + [] == TxBytes(t);
    OpReturnExact(t.outputs[1].script, address);
    var bridge, change := PubkeyHash(hash, r.bridge).value, PubkeyHash(hash, r.change).value;
    ReportedOutputs(hash, r, node, v);
    ThreeOutputsDetected(t.outputs, node, r.bridge);
  }

  lemma DepositFits(hash: seq<Byte> -> Digest, r: Request)
    requires Buildable(hash, r) && forall i | 0 <= i < |r.inputs| :: |r.inputs[i].txid| == HASH
    ensures TxFits(DepositOf(hash, r))
  {
    Widths();
    Pow256Monotone(U32, U64);
  }

  /** Both addresses hold key hashes of the size that the network uses. */
  predicate KeyHashes(hash: seq<Byte> -> Digest, r: Request)
    requires Buildable(hash, r)
  {
    |PubkeyHash(hash, r.bridge).value| == KEY_HASH && |PubkeyHash(hash, r.change).value| == KEY_HASH
  }

  /** Which of the three outputs the node names as the bridge. */
  lemma ReportedOutputs(hash: seq<Byte> -> Digest, r: Request, node: AddressOf, v: Byte)
    requires Buildable(hash, r) && Reports(hash, node, v) && KeyHashes(hash, r)
    ensures var outs := DepositOf(hash, r).outputs;
            var bridge, change := PubkeyHash(hash, r.bridge).value, PubkeyHash(hash, r.change).value;
            var named := r.bridge == Address(hash, v, bridge);
            && (node(outs[0].script) == r.bridge <==> named)
            && (named ==> node(outs[1].script) != r.bridge)
            && (node(outs[1].script) == r.bridge ==> r.bridge == "")
            && (node(outs[2].script) == r.bridge <==> named && change == bridge)
  {
    var bridge, change := PubkeyHash(hash, r.bridge).value, PubkeyHash(hash, r.change).value;
    AddressDecodes(hash, v, bridge);
    AddressDecodes(hash, v, change);
    assert node(P2pkh(bridge)) == Address(hash, v, bridge) && node(P2pkh(change)) == Address(hash, v, change);
    assert node(OpReturn(r.data)) == "";
    assert Decode("") == Some([]);
  }

  lemma ThreeOutputsDetected(outs: seq<TxOut>, node: AddressOf, bridge: string)
    requires |outs| == 3 && node(outs[1].script) != bridge
    requires ParseBridgeOpReturn(outs[0].script).None? && ParseBridgeOpReturn(outs[1].script).Some?
    ensures FirstBase(outs) == ParseBridgeOpReturn(outs[1].script)
    ensures LastPaid(outs, node, bridge) ==
            if node(outs[2].script) == bridge then Some(2) else if node(outs[0].script) == bridge then Some(0) else None
  {
    assert outs[1..][0] == outs[1];
  }

  /** The sender compares address strings, but addresses that differ only in the version byte share their script. */
  lemma VersionIsDropped(hash: seq<Byte> -> Digest, h: seq<Byte>, v: Byte, v': Byte)
    requires v != v'
    ensures Address(hash, v, h) != Address(hash, v', h)
    ensures PubkeyHash(hash, Address(hash, v, h)) == PubkeyHash(hash, Address(hash, v', h)) == Some(h)
  {
    AddressDecodes(hash, v, h);
    AddressDecodes(hash, v', h);
    CheckedAddressExact(hash, Address(hash, v, h), [v] + h);
    CheckedAddressExact(hash, Address(hash, v', h), [v'] + h);
    assert ([v] + h)[0] != ([v'] + h)[0];
  }

  // ---- What is credited ----

  /** All that a transaction pays to the bridge. */
  function Paid(outs: seq<TxOut>, node: AddressOf, bridge: string): nat {
    if outs == [] then 0
    else
      var last := outs[|outs| - 1];
      Paid(outs[..|outs| - 1], node, bridge) + if node(last.script) == bridge then last.value else 0
  }

  lemma PaidSnoc(outs: seq<TxOut>, o: TxOut, node: AddressOf, bridge: string)
    ensures Paid(outs + [o], node, bridge) ==
            Paid(outs, node, bridge) + if node(o.script) == bridge then o.value else 0
  {
    assert (outs + [o])[..|outs|] == outs;
  }

  lemma {:induction false} PaidZero(outs: seq<TxOut>, node: AddressOf, bridge: string)
    ensures Paid(outs, node, bridge) == 0 <==>
            forall i | 0 <= i < |outs| && node(outs[i].script) == bridge :: outs[i].value == 0
    decreases |outs|
  {
    if outs != [] {
      var init := outs[..|outs| - 1];
      PaidZero(init, node, bridge);
      assert outs == init + [outs[|outs| - 1]];
    }
  }

  /** The credited amount is never more than what was paid; it is all of it exactly when every earlier
      payment to the bridge in the same transaction is zero. */
  lemma {:induction false} LastPaidExact(outs: seq<TxOut>, node: AddressOf, bridge: string)
    requires LastPaid(outs, node, bridge).Some?
    ensures var n := LastPaid(outs, node, bridge).value;
            && outs[n].value <= Paid(outs, node, bridge)
            && (outs[n].value == Paid(outs, node, bridge) <==>
                forall i | 0 <= i < n && node(outs[i].script) == bridge :: outs[i].value == 0)
    decreases |outs|
  {
    var init := outs[..|outs| - 1];
    if node(outs[|outs| - 1].script) == bridge {
      PaidZero(init, node, bridge);
      assert forall i | 0 <= i < |init| :: init[i] == outs[i];
    } else {
      LastPaidExact(init, node, bridge);
    }
  }

  lemma CreditedExact(outs: seq<TxOut>, node: AddressOf, bridge: string)
    requires Detect(outs, node, bridge).Detected?
    ensures var d := Detect(outs, node, bridge);
            && d.vout < |outs| && d.amount <= Paid(outs, node, bridge)
            && (d.amount == Paid(outs, node, bridge) <==>
                forall i | 0 <= i < d.vout && node(outs[i].script) == bridge :: outs[i].value == 0)
  {
    LastPaidExact(outs, node, bridge);
  }

  /** Two payments to the bridge in one transaction, with metadata: only the second is credited. */
  lemma SecondPaymentOnly(node: AddressOf, h: seq<Byte>, bridge: string, address: seq<Byte>)
    requires |h| < 256 && node(P2pkh(h)) == bridge && |address| == 20 && address != ZeroAddress()
    requires node(OpReturn(TAG + address)) != bridge
    ensures var outs := [TxOut(5, P2pkh(h)), TxOut(7, P2pkh(h)), TxOut(0, OpReturn(TAG + address))];
            Detect(outs, node, bridge) == Detected(1, 7, address) && Paid(outs, node, bridge) == 12
  {
    var a, b, m := TxOut(5, P2pkh(h)), TxOut(7, P2pkh(h)), TxOut(0, OpReturn(TAG + address));
    OpReturnExact(m.script, address);
    PaidSnoc([], a, node, bridge);
    PaidSnoc([a], b, node, bridge);
    PaidSnoc([a, b], m, node, bridge);
    assert [] + [a] == [a] && [a] + [b] == [a, b] && [a, b] + [m] == [a, b, m];
    assert [a, b, m][..2] == [a, b];
    assert [a, b, m][1..] == [b, m] && [b, m][1..] == [m];
    assert FirstBase([b, m]) == FirstBase([m]);
  }
}
