/**
 The UTXO set as a value, and what applying and disconnecting blocks does to it
 (crates/zentra-core/src/utxo.rs).  Class UtxoSet changes such a value in place.

 Hashing and signatures are external: a transaction carries its txid and the answer of its
 signature check, an input carries the address derived from its public key, and a block carries
 its hash and the answer of its Merkle check.  Nothing is assumed about how these are computed.
 */
module Ledger {
  import opened Types

  type Address = nat

  datatype OutPoint = OutPoint(txHash: Hash, index: nat)

  datatype UtxoEntry = UtxoEntry(amount: u64, address: Address, blockHeight: u64, isCoinbase: bool)

  datatype TxOutput = Standard(address: Address, amount: u64) | Burn(amount: u64)

  datatype TxInput = TxInput(prev: OutPoint, signer: Address)

  datatype Transaction = Transaction(
    txid: Hash, isCoinbase: bool, signaturesOk: bool, inputs: seq<TxInput>, outputs: seq<TxOutput>)

  datatype Block = Block(
    hash: Hash, parents: seq<Hash>, blueScore: u64, lane: LaneId, timestamp: u64, bits: u32,
    merkleOk: bool, transactions: seq<Transaction>)

  /** Per transaction the entries its inputs took, and the outpoints credited to merged blocks. */
  datatype BlockUndo = BlockUndo(txs: seq<seq<UtxoEntry>>, mergeCoinbases: seq<OutPoint>)

  type Utxos = map<OutPoint, UtxoEntry>

  datatype State = State(utxos: Utxos, burned: u64)

  const EMPTY: State := State(map[], 0)

  // Loops are specified by how many elements they have done: `n` counts from the front.

  // ----- spending and restoring inputs

  /** `ok` is false when some input was missing; `utxos` then is what the loop left behind. */
  datatype Spend = Spend(utxos: Utxos, taken: seq<UtxoEntry>, ok: bool)

  ghost function SpendInputs(u: Utxos, inputs: seq<TxInput>, n: nat): Spend
    requires n <= |inputs|
  {
    if n == 0 then Spend(u, [], true)
    else
      var p := SpendInputs(u, inputs, n - 1);
      var o := inputs[n - 1].prev;
      if !p.ok then p
      else if o !in p.utxos then p.(ok := false)
      else Spend(p.utxos - {o}, p.taken + [p.utxos[o]], true)
  }

  ghost function RestoreInputs(u: Utxos, inputs: seq<TxInput>, taken: seq<UtxoEntry>, n: nat): Utxos
    requires n <= |inputs| && n <= |taken|
  {
    if n == 0 then u else RestoreInputs(u, inputs, taken, n - 1)[inputs[n - 1].prev := taken[n - 1]]
  }

  /** The outpoints that the first `n` inputs name. */
  ghost function Prevs(inputs: seq<TxInput>, n: nat): set<OutPoint>
    requires n <= |inputs|
  {
    if n == 0 then {} else Prevs(inputs, n - 1) + {inputs[n - 1].prev}
  }

  ghost predicate DistinctPrevs(inputs: seq<TxInput>, n: nat)
    requires n <= |inputs|
  {
    forall i, j :: 0 <= i < j < n ==> inputs[i].prev != inputs[j].prev
  }

  // ----- adding and removing outputs

  ghost function NewEntry(tx: Transaction, i: nat, height: u64): UtxoEntry
    requires i < |tx.outputs| && tx.outputs[i].Standard?
  {
    UtxoEntry(tx.outputs[i].amount, tx.outputs[i].address, height, tx.isCoinbase)
  }

  /** `o` names a Standard output of `tx`. No operation is defined by this; contracts speak of outputs with it. */
  ghost predicate Makes(tx: Transaction, o: OutPoint) {
    o.txHash == tx.txid && o.index < |tx.outputs| && tx.outputs[o.index].Standard?
  }

  /** Standard outputs enter the set, Burn outputs only the saturating counter. */
  ghost function AddOutputs(s: State, tx: Transaction, n: nat, height: u64): State
    requires n <= |tx.outputs|
  {
    if n == 0 then s
    else
      var p := AddOutputs(s, tx, n - 1, height);
      if tx.outputs[n - 1].Standard? then
        p.(utxos := p.utxos[OutPoint(tx.txid, n - 1) := NewEntry(tx, n - 1, height)])
      else
        p.(burned := Cap64(p.burned + tx.outputs[n - 1].amount))
  }

  ghost function RemoveOutputs(s: State, tx: Transaction, n: nat): State
    requires n <= |tx.outputs|
  {
    if n == 0 then s
    else
      var p := RemoveOutputs(s, tx, n - 1);
      if tx.outputs[n - 1].Standard? then p.(utxos := p.utxos - {OutPoint(tx.txid, n - 1)})
      else p.(burned := Max(p.burned - tx.outputs[n - 1].amount, 0))
  }

  /** The outpoints that the first `n` outputs of `tx` put into the set. */
  ghost function Created(tx: Transaction, n: nat): set<OutPoint>
    requires n <= |tx.outputs|
  {
    if n == 0 then {}
    else Created(tx, n - 1) + if tx.outputs[n - 1].Standard? then {OutPoint(tx.txid, n - 1)} else {}
  }

  ghost function Burned(outputs: seq<TxOutput>, n: nat): nat
    requires n <= |outputs|
  {
    if n == 0 then 0
    else Burned(outputs, n - 1) + if outputs[n - 1].Burn? then outputs[n - 1].amount else 0
  }

  ghost function OutSum(outputs: seq<TxOutput>, n: nat): nat
    requires n <= |outputs|
  {
    if n == 0 then 0 else OutSum(outputs, n - 1) + outputs[n - 1].amount
  }

  // ----- transactions and blocks

  /** A coinbase spends nothing, whatever inputs it lists. */
  ghost function SpendCount(tx: Transaction): nat { if tx.isCoinbase then 0 else |tx.inputs| }

  /** `undo` is None when the apply failed; `state` then is the half-applied state left behind. */
  datatype Applied<+U> = Applied(state: State, undo: Option<U>)

  ghost function ApplyTx(s: State, tx: Transaction, height: u64): Applied<seq<UtxoEntry>> {
    var p := SpendInputs(s.utxos, tx.inputs, SpendCount(tx));
    if p.ok then Applied(AddOutputs(s.(utxos := p.utxos), tx, |tx.outputs|, height), Some(p.taken))
    else Applied(s.(utxos := p.utxos), None)
  }

  ghost function ApplyTxs(s: State, txs: seq<Transaction>, n: nat, height: u64): Applied<seq<seq<UtxoEntry>>>
    requires n <= |txs|
  {
    if n == 0 then Applied(s, Some([]))
    else
      var p := ApplyTxs(s, txs, n - 1, height);
      if p.undo.None? then p
      else
        var q := ApplyTx(p.state, txs[n - 1], height);
        if q.undo.None? then Applied(q.state, None)
        else Applied(q.state, Some(p.undo.value + [q.undo.value]))
  }

  ghost function UndoTx(s: State, tx: Transaction, taken: seq<UtxoEntry>): State {
    var p := RemoveOutputs(s, tx, |tx.outputs|);
    p.(utxos := RestoreInputs(p.utxos, tx.inputs, taken, Min(|tx.inputs|, |taken|)))
  }

  /** The first `n` transactions undone, last first. */
  ghost function UndoTxs(s: State, txs: seq<Transaction>, taken: seq<seq<UtxoEntry>>, n: nat): State
    requires n <= |txs| && n <= |taken|
    decreases n
  {
    if n == 0 then s else UndoTxs(UndoTx(s, txs[n - 1], taken[n - 1]), txs, taken, n - 1)
  }

  /** Credits those of the first `n` outputs of a merged block's coinbase that are not in the set yet. */
  ghost function Credit(u: Utxos, cb: Transaction, n: nat, height: u64): (Utxos, seq<OutPoint>)
    requires n <= |cb.outputs|
  {
    if n == 0 then (u, [])
    else
      var (v, made) := Credit(u, cb, n - 1, height);
      var o := OutPoint(cb.txid, n - 1);
      if cb.outputs[n - 1].Standard? && o !in v then
        (v[o := NewEntry(cb, n - 1, height).(isCoinbase := true)], made + [o])
      else (v, made)
  }

  ghost predicate HasCoinbase(b: Block) { b.transactions != [] && b.transactions[0].isCoinbase }

  ghost function CreditBlock(u: Utxos, b: Block): (Utxos, seq<OutPoint>) {
    if HasCoinbase(b) then Credit(u, b.transactions[0], |b.transactions[0].outputs|, b.blueScore)
    else (u, [])
  }

  ghost function CreditAll(u: Utxos, merges: seq<Block>, n: nat): (Utxos, seq<OutPoint>)
    requires n <= |merges|
  {
    if n == 0 then (u, [])
    else
      var (v, made) := CreditAll(u, merges, n - 1);
      var (w, more) := CreditBlock(v, merges[n - 1]);
      (w, made + more)
  }

  ghost function ApplyAll(s: State, b: Block): Applied<seq<seq<UtxoEntry>>> {
    ApplyTxs(s, b.transactions, |b.transactions|, b.blueScore)
  }

  /** One selected-chain block and the coinbases of the blue blocks it merges. */
  ghost function Connect(s: State, b: Block, merges: seq<Block>): Applied<BlockUndo> {
    var p := ApplyAll(s, b);
    if p.undo.None? then Applied(p.state, None)
    else
      var (v, made) := CreditAll(p.state.utxos, merges, |merges|);
      Applied(p.state.(utxos := v), Some(BlockUndo(p.undo.value, made)))
  }

  ghost function Disconnect(s: State, b: Block, undo: BlockUndo): State
    requires |b.transactions| == |undo.txs|
  {
    var p := UndoTxs(s, b.transactions, undo.txs, |b.transactions|);
    p.(utxos := p.utxos - SeqSet(undo.mergeCoinbases))
  }
}
