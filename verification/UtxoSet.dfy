/** The mutable UTXO set (crates/zentra-core/src/utxo.rs), proved against module Ledger. */
module UtxoSets {
  import opened Types
  import opened Ledger
  import opened Undo

  class UtxoSet {
    var utxos: Utxos
    var totalBurned: u64

    constructor ()
      ensures Value() == EMPTY
    {
      utxos, totalBurned := map[], 0;
    }

    ghost function Value(): State
      reads this
    {
      State(utxos, totalBurned)
    }

    method ApplyTransaction(tx: Transaction, height: u64) returns (undo: Option<seq<UtxoEntry>>)
      modifies this
      ensures Applied(Value(), undo) == ApplyTx(old(Value()), tx, height)
      ensures undo.Some? ==>
                forall i :: 0 <= i < |tx.outputs| && tx.outputs[i].Standard? ==>
                  && OutPoint(tx.txid, i) in utxos
                  && utxos[OutPoint(tx.txid, i)]
                     == UtxoEntry(tx.outputs[i].amount, tx.outputs[i].address, height, tx.isCoinbase)
    {
      ApplyTxFields(Value(), tx, height);
      var taken: seq<UtxoEntry> := [];
      if !tx.isCoinbase {
        var i := 0;
        while i < |tx.inputs|
          invariant 0 <= i <= |tx.inputs| && totalBurned == old(totalBurned)
          invariant Spend(utxos, taken, true) == SpendInputs(old(utxos), tx.inputs, i)
        {
          var outpoint := tx.inputs[i].prev;
          if outpoint !in utxos {
            SpendStopsAtMissing(old(utxos), tx.inputs, i + 1, |tx.inputs|);
            return None;
          }
          taken := taken + [utxos[outpoint]];
          utxos := utxos - {outpoint};
          i := i + 1;
        }
      }
      ghost var spent := Value();
      var idx := 0;
      while idx < |tx.outputs|
        invariant 0 <= idx <= |tx.outputs|
        invariant Value() == AddOutputs(spent, tx, idx, height)
      {
        match tx.outputs[idx] {
          case Standard(address, amount) =>
            utxos := utxos[OutPoint(tx.txid, idx) := UtxoEntry(amount, address, height, tx.isCoinbase)];
          case Burn(amount) =>
            totalBurned := Cap64(totalBurned + amount);
        }
        idx := idx + 1;
      }
      return Some(taken);
    }

    method ApplyBlock(block: Block) returns (undo: Option<BlockUndo>)
      modifies this
      ensures Value() == ApplyAll(old(Value()), block).state
      ensures undo == match ApplyAll(old(Value()), block).undo
                      case None => None
                      case Some(txs) => Some(BlockUndo(txs, []))
    {
      var height := block.blueScore;
      var txsUndo: seq<seq<UtxoEntry>> := [];
      var i := 0;
      while i < |block.transactions|
        invariant 0 <= i <= |block.transactions|
        invariant Applied(Value(), Some(txsUndo)) == ApplyTxs(old(Value()), block.transactions, i, height)
      {
        var txUndo := ApplyTransaction(block.transactions[i], height);
        if txUndo.None? {
          ApplyStopsAtFailure(old(Value()), block.transactions, i + 1, |block.transactions|, height);
          return None;
        }
        txsUndo := txsUndo + [txUndo.value];
        i := i + 1;
      }
      return Some(BlockUndo(txsUndo, []));
    }

    method ApplyMergeCoinbase(block: Block) returns (created: seq<OutPoint>)
      modifies this`utxos
      ensures (utxos, created) == CreditBlock(old(utxos), block)
      ensures forall o :: o in created <==>
                && o !in old(utxos) && block.transactions != [] && block.transactions[0].isCoinbase
                && Makes(block.transactions[0], o)
      ensures forall o :: o in created && block.transactions != [] && Makes(block.transactions[0], o) ==>
                var out := block.transactions[0].outputs[o.index];
                o in utxos && utxos[o] == UtxoEntry(out.amount, out.address, block.blueScore, true)
    {
      if HasCoinbase(block) {
        CreditFields(utxos, block.transactions[0], |block.transactions[0].outputs|, block.blueScore);
      }
      var height := block.blueScore;
      created := [];
      if block.transactions == [] || !block.transactions[0].isCoinbase {
        return;
      }
      var cb := block.transactions[0];
      var idx := 0;
      while idx < |cb.outputs|
        invariant 0 <= idx <= |cb.outputs|
        invariant (utxos, created) == Credit(old(utxos), cb, idx, height)
      {
        if cb.outputs[idx].Standard? {
          var outpoint := OutPoint(cb.txid, idx);
          if outpoint !in utxos {
            utxos := utxos[outpoint := UtxoEntry(cb.outputs[idx].amount, cb.outputs[idx].address, height, true)];
            created := created + [outpoint];
          }
        }
        idx := idx + 1;
      }
    }

    /** Refuses, without a change, undo data of another length than the block's transactions. */
    method DisconnectBlock(block: Block, undo: BlockUndo) returns (ok: bool)
      modifies this
      ensures ok == (|block.transactions| == |undo.txs|)
      ensures Value() == if ok then Disconnect(old(Value()), block, undo) else old(Value())
    {
      if |block.transactions| != |undo.txs| {
        return false;
      }
      var i := |block.transactions|;
      ghost var goal := UndoTxs(old(Value()), block.transactions, undo.txs, i);
      while i > 0
        invariant 0 <= i <= |block.transactions|
        invariant UndoTxs(Value(), block.transactions, undo.txs, i) == goal
      {
        i := i - 1;
        UndoTransaction(block.transactions[i], undo.txs[i]);
      }
      var k := 0;
      while k < |undo.mergeCoinbases|
        invariant 0 <= k <= |undo.mergeCoinbases| && totalBurned == goal.burned
        invariant utxos == goal.utxos - SeqSet(undo.mergeCoinbases[..k])
      {
        utxos := utxos - {undo.mergeCoinbases[k]};
        assert SeqSet(undo.mergeCoinbases[..k + 1])
            == SeqSet(undo.mergeCoinbases[..k]) + {undo.mergeCoinbases[k]};
        k := k + 1;
      }
      assert undo.mergeCoinbases[..k] == undo.mergeCoinbases;
      return true;
    }

    /** The body of DisconnectBlock's loop: outputs out first, then the spent inputs back in. */
    method UndoTransaction(tx: Transaction, taken: seq<UtxoEntry>)
      modifies this
      ensures Value() == UndoTx(old(Value()), tx, taken)
    {
      var idx := 0;
      while idx < |tx.outputs|
        invariant 0 <= idx <= |tx.outputs|
        invariant Value() == RemoveOutputs(old(Value()), tx, idx)
      {
        match tx.outputs[idx] {
          case Standard(_, _) => utxos := utxos - {OutPoint(tx.txid, idx)};
          case Burn(amount) => totalBurned := Max(totalBurned - amount, 0);
        }
        idx := idx + 1;
      }
      ghost var before := Value();
      var n := Min(|tx.inputs|, |taken|);
      var j := 0;
      while j < n
        invariant 0 <= j <= n && totalBurned == before.burned
        invariant utxos == RestoreInputs(before.utxos, tx.inputs, taken, j)
      {
        utxos := utxos[tx.inputs[j].prev := taken[j]];
        j := j + 1;
      }
    }
  }

  /** Once an input is missing, later inputs change nothing. */
  lemma {:induction false} SpendStopsAtMissing(u: Utxos, inputs: seq<TxInput>, n: nat, m: nat)
    requires n <= m <= |inputs| && !SpendInputs(u, inputs, n).ok
    ensures SpendInputs(u, inputs, m) == SpendInputs(u, inputs, n)
  {
    if n < m {
      SpendStopsAtMissing(u, inputs, n, m - 1);
    }
  }

  /** Once a transaction fails, later transactions change nothing. */
  lemma {:induction false} ApplyStopsAtFailure(s: State, txs: seq<Transaction>, n: nat, m: nat, height: u64)
    requires n <= m <= |txs| && ApplyTxs(s, txs, n, height).undo.None?
    ensures ApplyTxs(s, txs, m, height) == ApplyTxs(s, txs, n, height)
  {
    if n < m {
      ApplyStopsAtFailure(s, txs, n, m - 1, height);
    }
  }
}
