/** From the wallet to the relayer: a deposit that the sender plans from the wallet's outputs and builds is
recognised with its own amount and recipient. */
module DepositFlow {
  import opened Wrappers
  import opened Bytes
  import opened Base58
  import CoinSelection
  import opened DepositTx

  /** An address of the network with version byte `v`, as the node lists the wallet's outputs. */
  ghost predicate OnNetwork(hash: seq<Byte> -> Digest, v: Byte, address: string) {
    exists h: seq<Byte> :: |h| == KEY_HASH && address == Address(hash, v, h)
  }

  /** The request the sender makes of a plan: the change goes to the address of the first input. */
  function RequestOf(p: CoinSelection.Outcome, fromHex: string -> seq<Byte>, bridge: string, deposit: int,
                     address: seq<Byte>): Request
    requires p.Planned? && p.selected != []
  {
    var inputs := seq(|p.selected|, i requires 0 <= i < |p.selected| =>
                        PrevOut(fromHex(p.selected[i].txid), p.selected[i].vout));
    Request(inputs, bridge, deposit, p.selected[0].address, p.change, TAG + address, CoinSelection.OP_RETURN_VALUE)
  }

  lemma NetworkAddress(hash: seq<Byte> -> Digest, v: Byte, address: string)
    requires OnNetwork(hash, v, address)
    ensures PubkeyHash(hash, address).Some? && |PubkeyHash(hash, address).value| == KEY_HASH
    ensures address == Address(hash, v, PubkeyHash(hash, address).value)
  {
    var h: seq<Byte> :| |h| == KEY_HASH && address == Address(hash, v, h);
    AddressDecodes(hash, v, h);
  }

  /** The selection leaves the bridge's own outputs out, so the change never goes to the bridge. */
  lemma ChangeIsNotBridge(hash: seq<Byte> -> Digest, v: Byte, bridge: string, change: string)
    requires OnNetwork(hash, v, bridge) && OnNetwork(hash, v, change) && bridge != change
    ensures PubkeyHash(hash, bridge) != PubkeyHash(hash, change)
  {
    NetworkAddress(hash, v, bridge);
    NetworkAddress(hash, v, change);
  }

  /** All of the wallet's outputs are on the network, and their txids are 32 bytes. */
  ghost predicate WalletOn(hash: seq<Byte> -> Digest, v: Byte, fromHex: string -> seq<Byte>,
                           utxos: seq<CoinSelection.Utxo>)
  {
    forall u | u in utxos :: OnNetwork(hash, v, u.address) && |fromHex(u.txid)| == HASH
  }

  lemma ConservedIsDetected(hash: seq<Byte> -> Digest, node: AddressOf, v: Byte, utxos: seq<CoinSelection.Utxo>,
                            fromHex: string -> seq<Byte>, bridge: string, deposit: int, maxInputs: int,
                            address: seq<Byte>, p: CoinSelection.Outcome)
    requires Reports(hash, node, v) && OnNetwork(hash, v, bridge) && WalletOn(hash, v, fromHex, utxos)
    requires |address| == 20 && address != ZeroAddress()
    requires p.Planned? && CoinSelection.Conserves(p, utxos, bridge, deposit, maxInputs)
    requires Buildable(hash, RequestOf(p, fromHex, bridge, deposit, address))
    ensures var t := DepositOf(hash, RequestOf(p, fromHex, bridge, deposit, address));
            ReadTx(TxBytes(t)) == Read(t, []) && Detect(t.outputs, node, bridge) == Detected(0, deposit, address)
  {
    var r := RequestOf(p, fromHex, bridge, deposit, address);
    forall u | u in p.selected ensures u in utxos {
      assert u in multiset(p.selected);
      assert u in multiset(utxos);
    }
    assert p.selected[0] in p.selected;
    NetworkAddress(hash, v, bridge);
    NetworkAddress(hash, v, r.change);
    ChangeIsNotBridge(hash, v, bridge, r.change);
    BuiltIsDetected(hash, r, address, node, v);
  }

  /** Every planned deposit that can be written is credited in full to its own recipient. */
  lemma PlannedIsDetected(hash: seq<Byte> -> Digest, node: AddressOf, v: Byte, utxos: seq<CoinSelection.Utxo>,
                          fromHex: string -> seq<Byte>, bridge: string, deposit: int, maxInputs: int,
                          address: seq<Byte>, p: CoinSelection.Outcome)
    requires Reports(hash, node, v) && OnNetwork(hash, v, bridge) && WalletOn(hash, v, fromHex, utxos)
    requires |address| == 20 && address != ZeroAddress() && p.Planned?
    requires p == CoinSelection.Plan(CoinSelection.Sorted(CoinSelection.Candidates(utxos, bridge)), deposit, maxInputs)
    requires Buildable(hash, RequestOf(p, fromHex, bridge, deposit, address))
    ensures var t := DepositOf(hash, RequestOf(p, fromHex, bridge, deposit, address));
            ReadTx(TxBytes(t)) == Read(t, []) && Detect(t.outputs, node, bridge) == Detected(0, deposit, address)
  {
    CoinSelection.PlanConserves(utxos, bridge, deposit, maxInputs);
    ConservedIsDetected(hash, node, v, utxos, fromHex, bridge, deposit, maxInputs, address, p);
  }

  lemma ReversedTwice<T>(s: seq<T>)
    ensures Reversed(Reversed(s)) == s
  {
  }

  /** The inputs are the selected outputs, in their order. */
  ghost predicate Spends(t: Tx, selected: seq<CoinSelection.Utxo>, fromHex: string -> seq<Byte>) {
    && |t.inputs| == |selected|
    && forall i | 0 <= i < |selected| ::
         Reversed(t.inputs[i].prev) == fromHex(selected[i].txid) && t.inputs[i].index == selected[i].vout
  }

  lemma BuiltSpends(hash: seq<Byte> -> Digest, p: CoinSelection.Outcome, fromHex: string -> seq<Byte>,
                    bridge: string, deposit: int, address: seq<Byte>)
    requires p.Planned? && p.selected != [] && Buildable(hash, RequestOf(p, fromHex, bridge, deposit, address))
    ensures Spends(DepositOf(hash, RequestOf(p, fromHex, bridge, deposit, address)), p.selected, fromHex)
  {
    var r := RequestOf(p, fromHex, bridge, deposit, address);
    forall i | 0 <= i < |p.selected|
      ensures Reversed(DepositOf(hash, r).inputs[i].prev) == fromHex(p.selected[i].txid)
    {
      ReversedTwice(fromHex(p.selected[i].txid));
    }
  }

  /** Its three outputs and the fee for that many inputs add up to what the selected outputs are worth, and the
      change goes to the first one's address. */
  lemma BuiltBalances(hash: seq<Byte> -> Digest, p: CoinSelection.Outcome, fromHex: string -> seq<Byte>,
                      utxos: seq<CoinSelection.Utxo>, bridge: string, deposit: int, maxInputs: int, address: seq<Byte>)
    requires p.Planned? && p.selected != [] && CoinSelection.Conserves(p, utxos, bridge, deposit, maxInputs)
    requires Buildable(hash, RequestOf(p, fromHex, bridge, deposit, address))
    ensures var t := DepositOf(hash, RequestOf(p, fromHex, bridge, deposit, address));
            && |t.outputs| == 3
            && t.outputs[0].value + t.outputs[1].value + t.outputs[2].value + CoinSelection.Fee(|p.selected|)
               == CoinSelection.Total(p.selected)
            && t.outputs[2].script == P2pkh(PubkeyHash(hash, p.selected[0].address).value)
  {
  }

  /** Every planned deposit that can be written spends exactly the selected outputs and balances. */
  lemma PlannedBalances(hash: seq<Byte> -> Digest, utxos: seq<CoinSelection.Utxo>, fromHex: string -> seq<Byte>,
                        bridge: string, deposit: int, maxInputs: int, address: seq<Byte>, p: CoinSelection.Outcome)
    requires p.Planned? && p.selected != []
    requires p == CoinSelection.Plan(CoinSelection.Sorted(CoinSelection.Candidates(utxos, bridge)), deposit, maxInputs)
    requires Buildable(hash, RequestOf(p, fromHex, bridge, deposit, address))
    ensures var t := DepositOf(hash, RequestOf(p, fromHex, bridge, deposit, address));
            && Spends(t, p.selected, fromHex) && |t.outputs| == 3
            && t.outputs[0].value + t.outputs[1].value + t.outputs[2].value + CoinSelection.Fee(|t.inputs|)
               == CoinSelection.Total(p.selected)
            && t.outputs[2].script == P2pkh(PubkeyHash(hash, p.selected[0].address).value)
  {
    CoinSelection.PlanConserves(utxos, bridge, deposit, maxInputs);
    BuiltSpends(hash, p, fromHex, bridge, deposit, address);
    BuiltBalances(hash, p, fromHex, utxos, bridge, deposit, maxInputs, address);
  }
}
