/**
 Disconnecting a block undoes applying it (crates/zentra-core/src/utxo.rs:67-191,
 crates/zentrad/src/node.rs:1089-1103): exactly when it does, for blocks that spend their own
 outputs, burn, and pay merged coinbases.
 */
module Undo {
  import opened Types
  import opened Ledger

  // ----- what each loop does to the set, without its order

  /** Inputs can be spent iff they are present and distinct; spending takes exactly their entries. */
  lemma {:induction false} SpendMeaning(u: Utxos, inputs: seq<TxInput>, n: nat)
    requires n <= |inputs|
    ensures var p := SpendInputs(u, inputs, n);
            && (p.ok <==> DistinctPrevs(inputs, n) && Prevs(inputs, n) <= u.Keys)
            && (p.ok ==> p.utxos == u - Prevs(inputs, n) && |p.taken| == n)
            && (p.ok ==> forall i :: 0 <= i < n ==> inputs[i].prev in u && p.taken[i] == u[inputs[i].prev])
  {
    if n > 0 {
      SpendMeaning(u, inputs, n - 1);
      PrevsMeaning(inputs, n - 1);
      assert u - Prevs(inputs, n) == u - Prevs(inputs, n - 1) - {inputs[n - 1].prev};
    }
  }

  lemma {:induction false} PrevsMeaning(inputs: seq<TxInput>, n: nat)
    requires n <= |inputs|
    ensures forall i :: 0 <= i < n ==> inputs[i].prev in Prevs(inputs, n)
    ensures forall o :: o in Prevs(inputs, n) ==> exists i :: 0 <= i < n && inputs[i].prev == o
  {
    if n > 0 {
      PrevsMeaning(inputs, n - 1);
    }
  }

  lemma {:induction false} RestoreMeaning(u: Utxos, inputs: seq<TxInput>, taken: seq<UtxoEntry>, n: nat)
    requires n <= |inputs| && n <= |taken| && DistinctPrevs(inputs, n)
    ensures var r := RestoreInputs(u, inputs, taken, n);
            && r.Keys == u.Keys + Prevs(inputs, n)
            && (forall i :: 0 <= i < n ==> inputs[i].prev in r && r[inputs[i].prev] == taken[i])
            && (forall o :: o in u && o !in Prevs(inputs, n) ==> r[o] == u[o])
  {
    if n > 0 {
      RestoreMeaning(u, inputs, taken, n - 1);
    }
  }

  lemma {:induction false} CreatedMeaning(tx: Transaction, n: nat)
    requires n <= |tx.outputs|
    ensures forall o :: o in Created(tx, n) <==> o.index < n && Makes(tx, o)
  {
    if n > 0 {
      CreatedMeaning(tx, n - 1);
    }
  }

  /** Standard outputs enter the set under their names; burns only move the capped counter. */
  lemma {:induction false} AddOutputsMeaning(s: State, tx: Transaction, n: nat, height: u64)
    requires n <= |tx.outputs|
    ensures var r := AddOutputs(s, tx, n, height);
            && r.utxos.Keys == s.utxos.Keys + Created(tx, n)
            && (forall o :: o in s.utxos && o !in Created(tx, n) ==> r.utxos[o] == s.utxos[o])
            && (forall o :: o in Created(tx, n) ==>
                  && o.index < n && tx.outputs[o.index].Standard?
                  && r.utxos[o] == UtxoEntry(tx.outputs[o.index].amount, tx.outputs[o.index].address, height,
                                             tx.isCoinbase))
            && r.burned == Cap64(s.burned + Burned(tx.outputs, n))
  {
    if n > 0 {
      AddOutputsMeaning(s, tx, n - 1, height);
    }
  }

  lemma {:induction false} RemoveOutputsMeaning(s: State, tx: Transaction, n: nat)
    requires n <= |tx.outputs|
    ensures RemoveOutputs(s, tx, n).utxos == s.utxos - Created(tx, n)
    ensures RemoveOutputs(s, tx, n).burned == Max(s.burned - Burned(tx.outputs, n), 0)
  {
    if n > 0 {
      RemoveOutputsMeaning(s, tx, n - 1);
      assert s.utxos - Created(tx, n) == RemoveOutputs(s, tx, n).utxos;
    }
  }

  // ----- one transaction

  ghost function AllCreated(tx: Transaction): set<OutPoint> { Created(tx, |tx.outputs|) }

  /** The outpoints that `tx` takes out of the set. */
  ghost function AllSpent(tx: Transaction): set<OutPoint> { Prevs(tx.inputs, SpendCount(tx)) }

  ghost function AllBurned(tx: Transaction): nat { Burned(tx.outputs, |tx.outputs|) }

  /** A transaction that applies removes what it spends, adds what it creates, and keeps the rest. */
  lemma {:induction false} ApplyTxMeaning(s: State, tx: Transaction, height: u64)
    ensures ApplyTx(s, tx, height).undo.Some?
       <==> DistinctPrevs(tx.inputs, SpendCount(tx)) && AllSpent(tx) <= s.utxos.Keys
    ensures var a := ApplyTx(s, tx, height);
            a.undo.Some? ==>
              (&& a.state.utxos.Keys == s.utxos.Keys - AllSpent(tx) + AllCreated(tx)
               && (forall o :: o in s.utxos && o !in AllSpent(tx) && o !in AllCreated(tx) ==>
                     a.state.utxos[o] == s.utxos[o])
               && (forall o :: o in AllCreated(tx) ==>
                     && o.index < |tx.outputs| && tx.outputs[o.index].Standard?
                     && a.state.utxos[o] == UtxoEntry(tx.outputs[o.index].amount, tx.outputs[o.index].address, height,
                                                      tx.isCoinbase))
               && a.state.burned == Cap64(s.burned + AllBurned(tx)))
  {
    SpendMeaning(s.utxos, tx.inputs, SpendCount(tx));
    var p := SpendInputs(s.utxos, tx.inputs, SpendCount(tx));
    AddOutputsMeaning(s.(utxos := p.utxos), tx, |tx.outputs|, height);
  }

  /**
   The same field by field: when a transaction applies, what it hands out for undo, which outpoints are live
   afterwards, and with which entries.
   */
  lemma ApplyTxFields(s: State, tx: Transaction, height: u64)
    ensures ApplyTx(s, tx, height).undo.Some?
       <==> tx.isCoinbase || (&& (forall i :: 0 <= i < |tx.inputs| ==> tx.inputs[i].prev in s.utxos)
                              && (forall i, j :: 0 <= i < j < |tx.inputs| ==> tx.inputs[i].prev != tx.inputs[j].prev))
    ensures var a := ApplyTx(s, tx, height);
            a.undo.Some? ==>
              (&& |a.undo.value| == (if tx.isCoinbase then 0 else |tx.inputs|)
               && (forall i :: 0 <= i < |a.undo.value| ==>
                     tx.inputs[i].prev in s.utxos && a.undo.value[i] == s.utxos[tx.inputs[i].prev]))
    ensures var a := ApplyTx(s, tx, height);
            a.undo.Some? ==>
              forall o :: o in a.state.utxos <==>
                || Makes(tx, o)
                || (o in s.utxos && (tx.isCoinbase || forall i :: 0 <= i < |tx.inputs| ==> tx.inputs[i].prev != o))
    ensures var a := ApplyTx(s, tx, height);
            a.undo.Some? ==>
              forall o :: o in a.state.utxos ==>
                if Makes(tx, o) then
                  var out := tx.outputs[o.index];
                  a.state.utxos[o] == UtxoEntry(out.amount, out.address, height, tx.isCoinbase)
                else o in s.utxos && a.state.utxos[o] == s.utxos[o]
  {
    hide AddOutputs, SpendInputs, Prevs, Created;
    SpendMeaning(s.utxos, tx.inputs, SpendCount(tx));
    PrevsMeaning(tx.inputs, SpendCount(tx));
    CreatedMeaning(tx, |tx.outputs|);
    var p := SpendInputs(s.utxos, tx.inputs, SpendCount(tx));
    AddOutputsMeaning(s.(utxos := p.utxos), tx, |tx.outputs|, height);
  }

  /** Two maps say the same of an outpoint. */
  ghost predicate SameAt(u: Utxos, v: Utxos, o: OutPoint) {
    (o in u <==> o in v) && (o in u ==> u[o] == v[o])
  }

  /**
   What undoing a transaction does at one outpoint, in any set `v`: a spent entry comes back, any other
   output of the transaction goes, and the rest stays.
   */
  lemma UndoTxAt(s: State, tx: Transaction, height: u64, v: State, o: OutPoint)
    requires ApplyTx(s, tx, height).undo.Some?
    ensures var r := UndoTx(v, tx, ApplyTx(s, tx, height).undo.value).utxos;
            && (o in AllSpent(tx) ==> o in s.utxos && SameAt(r, s.utxos, o))
            && (o !in AllSpent(tx) && o in AllCreated(tx) ==> o !in r)
            && (o !in AllSpent(tx) && o !in AllCreated(tx) ==> SameAt(r, v.utxos, o))
  {
    hide AddOutputs, RemoveOutputs, RestoreInputs, SpendInputs, Prevs, Created;
    var n, taken := SpendCount(tx), ApplyTx(s, tx, height).undo.value;
    SpendMeaning(s.utxos, tx.inputs, n);
    RemoveOutputsMeaning(v, tx, |tx.outputs|);
    RestoreMeaning(v.utxos - AllCreated(tx), tx.inputs, taken, n);
    PrevsMeaning(tx.inputs, n);
    if o in AllSpent(tx) {
      var i :| 0 <= i < n && tx.inputs[i].prev == o;
    }
  }

  /** Undone, an applied transaction has lost exactly what it created over a live entry. */
  lemma UndoTxInverse(s: State, tx: Transaction, height: u64)
    requires ApplyTx(s, tx, height).undo.Some?
    ensures var a := ApplyTx(s, tx, height);
            UndoTx(a.state, tx, a.undo.value).utxos == s.utxos - (AllCreated(tx) - AllSpent(tx))
  {
    hide ApplyTx, UndoTx;
    var a := ApplyTx(s, tx, height);
    var r := UndoTx(a.state, tx, a.undo.value).utxos;
    ApplyTxMeaning(s, tx, height);
    forall o
      ensures SameAt(r, s.utxos - (AllCreated(tx) - AllSpent(tx)), o)
    {
      UndoTxAt(s, tx, height, a.state, o);
    }
    EqualMaps(r, s.utxos - (AllCreated(tx) - AllSpent(tx)));
  }

  lemma EqualMaps(u: Utxos, v: Utxos)
    requires forall o :: SameAt(u, v, o)
    ensures u == v
  {
    forall o
      ensures o in u <==> o in v
    {
      assert SameAt(u, v, o);
    }
    forall o | o in u
      ensures u[o] == v[o]
    {
      assert SameAt(u, v, o);
    }
    assert u.Keys == v.Keys;
  }

  // ----- a block's transactions

  ghost function BurnedTxs(txs: seq<Transaction>, n: nat): nat
    requires n <= |txs|
  {
    if n == 0 then 0 else BurnedTxs(txs, n - 1) + AllBurned(txs[n - 1])
  }

  lemma {:induction false} ApplyTxsBurned(s: State, txs: seq<Transaction>, n: nat, height: u64)
    requires n <= |txs| && ApplyTxs(s, txs, n, height).undo.Some?
    ensures ApplyTxs(s, txs, n, height).state.burned == Cap64(s.burned + BurnedTxs(txs, n))
    ensures |ApplyTxs(s, txs, n, height).undo.value| == n
  {
    if n > 0 {
      ApplyTxsBurned(s, txs, n - 1, height);
      ApplyTxMeaning(ApplyTxs(s, txs, n - 1, height).state, txs[n - 1], height);
    }
  }

  lemma {:induction false} UndoTxsBurned(s: State, txs: seq<Transaction>, taken: seq<seq<UtxoEntry>>, n: nat)
    requires n <= |txs| && n <= |taken|
    ensures UndoTxs(s, txs, taken, n).burned == Max(s.burned - BurnedTxs(txs, n), 0)
    decreases n
  {
    if n > 0 {
      RemoveOutputsMeaning(s, txs[n - 1], |txs[n - 1].outputs|);
      UndoTxsBurned(UndoTx(s, txs[n - 1], taken[n - 1]), txs, taken, n - 1);
    }
  }

  /** Every outpoint the first `n` transactions create. */
  ghost function CreatedBy(txs: seq<Transaction>, n: nat): set<OutPoint>
    requires n <= |txs|
  {
    if n == 0 then {} else CreatedBy(txs, n - 1) + AllCreated(txs[n - 1])
  }

  /** Every outpoint the first `n` transactions take out of the set. */
  ghost function SpentBy(txs: seq<Transaction>, n: nat): set<OutPoint>
    requires n <= |txs|
  {
    if n == 0 then {} else SpentBy(txs, n - 1) + AllSpent(txs[n - 1])
  }

  /** What the first `n` transactions touch at all. */
  ghost function Touched(txs: seq<Transaction>, n: nat): set<OutPoint>
    requires n <= |txs|
  {
    SpentBy(txs, n) + CreatedBy(txs, n)
  }

  /** Outpoints that some transaction creates although none up to and including it spends them. */
  ghost function Overwritten(txs: seq<Transaction>, n: nat): set<OutPoint>
    requires n <= |txs|
  {
    if n == 0 then {} else Overwritten(txs, n - 1) + (AllCreated(txs[n - 1]) - SpentBy(txs, n))
  }

  /** Outpoints that are spent and not created again afterwards. */
  ghost function Gone(txs: seq<Transaction>, n: nat): set<OutPoint>
    requires n <= |txs|
  {
    if n == 0 then {} else Gone(txs, n - 1) + AllSpent(txs[n - 1]) - AllCreated(txs[n - 1])
  }

  lemma {:induction false} SetsInside(txs: seq<Transaction>, n: nat)
    requires n <= |txs|
    ensures CreatedBy(txs, n) - SpentBy(txs, n) <= Overwritten(txs, n) <= CreatedBy(txs, n)
    ensures Gone(txs, n) <= SpentBy(txs, n) && SpentBy(txs, n) - CreatedBy(txs, n) <= Gone(txs, n)
  {
    if n > 0 {
      SetsInside(txs, n - 1);
    }
  }

  /** What a block's transactions make of a set, whatever they overwrite. */
  lemma {:induction false} ApplyTxsMeaning(s: State, txs: seq<Transaction>, n: nat, height: u64)
    requires n <= |txs| && ApplyTxs(s, txs, n, height).undo.Some?
    ensures var r := ApplyTxs(s, txs, n, height).state.utxos;
            && r.Keys <= s.utxos.Keys + CreatedBy(txs, n)
            && (forall o :: o in s.utxos ==> (o in r <==> o !in Gone(txs, n)))
            && (forall o :: o !in Touched(txs, n) ==> SameAt(r, s.utxos, o))
  {
    hide AllSpent, AllCreated, ApplyTx;
    if n > 0 {
      var p := ApplyTxs(s, txs, n - 1, height).state;
      ApplyTxsMeaning(s, txs, n - 1, height);
      ApplyTxMeaning(p, txs[n - 1], height);
      forall o | o !in Touched(txs, n)
        ensures SameAt(ApplyTxs(s, txs, n, height).state.utxos, s.utxos, o)
      {
        assert o !in Touched(txs, n - 1) && SameAt(p.utxos, s.utxos, o);
      }
    }
  }

  // ----- undoing a block's transactions, outpoint by outpoint

  lemma LastUndo(s: State, txs: seq<Transaction>, n: nat, height: u64, taken: seq<seq<UtxoEntry>>)
    requires 0 < n <= |txs| && n <= |taken| && ApplyTxs(s, txs, n, height).undo == Some(taken[..n])
    ensures var p := ApplyTxs(s, txs, n - 1, height);
            && p.undo == Some(taken[..n - 1])
            && ApplyTx(p.state, txs[n - 1], height).undo == Some(taken[n - 1])
            && ApplyTx(p.state, txs[n - 1], height).state == ApplyTxs(s, txs, n, height).state
  {
    hide ApplyTx;
    ApplyTxsBurned(s, txs, n - 1, height);
    assert taken[..n] == taken[..n - 1] + [taken[n - 1]];
    assert ApplyTxs(s, txs, n - 1, height).undo.value == taken[..n][..n - 1];
    assert taken[n - 1] == taken[..n][n - 1];
  }

  lemma {:induction false} UntouchedStays(s: State, txs: seq<Transaction>, n: nat, height: u64,
                                          taken: seq<seq<UtxoEntry>>, v: State, o: OutPoint)
    requires n <= |txs| && n <= |taken| && ApplyTxs(s, txs, n, height).undo == Some(taken[..n])
    requires o !in Touched(txs, n)
    ensures SameAt(UndoTxs(v, txs, taken, n).utxos, v.utxos, o)
    decreases n
  {
    hide ApplyTx, UndoTx, AllSpent, AllCreated, ApplyTxs;
    if n > 0 {
      LastUndo(s, txs, n, height, taken);
      UndoTxAt(ApplyTxs(s, txs, n - 1, height).state, txs[n - 1], height, v, o);
      UntouchedStays(s, txs, n - 1, height, taken, UndoTx(v, txs[n - 1], taken[n - 1]), o);
    }
  }

  /**
   Undoing all of them in a set `v` that agrees with the applied one at `o`, or anywhere if `o` was touched:
   at `o` the old set comes back, without what was overwritten.
   */
  lemma {:induction false} UndoTxsAt(s: State, txs: seq<Transaction>, n: nat, height: u64,
                                     taken: seq<seq<UtxoEntry>>, v: State, o: OutPoint)
    requires n <= |txs| && n <= |taken| && ApplyTxs(s, txs, n, height).undo == Some(taken[..n])
    requires o in Touched(txs, n) || SameAt(v.utxos, ApplyTxs(s, txs, n, height).state.utxos, o)
    ensures SameAt(UndoTxs(v, txs, taken, n).utxos, s.utxos - Overwritten(txs, n), o)
    decreases n
  {
    hide ApplyTx, UndoTx, AllSpent, AllCreated;
    if n > 0 {
      var p, tx := ApplyTxs(s, txs, n - 1, height), txs[n - 1];
      LastUndo(s, txs, n, height, taken);
      var w := UndoTx(v, tx, taken[n - 1]);
      UndoTxAt(p.state, tx, height, v, o);
      ApplyTxMeaning(p.state, tx, height);
      ApplyTxsMeaning(s, txs, n - 1, height);
      SetsInside(txs, n - 1);
      if o in Touched(txs, n - 1) || SameAt(w.utxos, p.state.utxos, o) {
        UndoTxsAt(s, txs, n - 1, height, taken, w, o);
      } else {
        UntouchedStays(s, txs, n - 1, height, taken, w, o);
      }
    }
  }

  /** Undone, a block's transactions have lost exactly the old entries they overwrote. */
  lemma UndoTxsInverse(s: State, txs: seq<Transaction>, n: nat, height: u64, taken: seq<seq<UtxoEntry>>)
    requires n <= |txs| && n <= |taken| && ApplyTxs(s, txs, n, height).undo == Some(taken[..n])
    ensures UndoTxs(ApplyTxs(s, txs, n, height).state, txs, taken, n).utxos == s.utxos - Overwritten(txs, n)
  {
    hide ApplyTxs, UndoTxs, Overwritten, Touched;
    var a := ApplyTxs(s, txs, n, height).state;
    forall o
      ensures SameAt(UndoTxs(a, txs, taken, n).utxos, s.utxos - Overwritten(txs, n), o)
    {
      UndoTxsAt(s, txs, n, height, taken, a, o);
    }
    EqualMaps(UndoTxs(a, txs, taken, n).utxos, s.utxos - Overwritten(txs, n));
  }

  // ----- merged coinbases

  /** The outpoints that crediting the first `n` of `merges` would name. */
  ghost function MergeOutputs(merges: seq<Block>, n: nat): set<OutPoint>
    requires n <= |merges|
  {
    if n == 0 then {}
    else MergeOutputs(merges, n - 1)
         + if HasCoinbase(merges[n - 1]) then AllCreated(merges[n - 1].transactions[0]) else {}
  }

  ghost function AllMerged(merges: seq<Block>): set<OutPoint> { MergeOutputs(merges, |merges|) }

  lemma SeqSetConcat(a: seq<OutPoint>, b: seq<OutPoint>)
    ensures SeqSet(a + b) == SeqSet(a) + SeqSet(b)
  {
  }

  /** Crediting adds exactly the named outpoints that are absent, and touches nothing else. */
  ghost predicate Credits(u: Utxos, v: Utxos, made: seq<OutPoint>, named: set<OutPoint>) {
    SeqSet(made) == named - u.Keys && v.Keys == u.Keys + named && v - SeqSet(made) == u
  }

  lemma {:induction false} CreditMeaning(u: Utxos, cb: Transaction, n: nat, height: u64)
    requires n <= |cb.outputs|
    ensures var (v, made) := Credit(u, cb, n, height); Credits(u, v, made, Created(cb, n))
  {
    if n > 0 {
      CreditMeaning(u, cb, n - 1, height);
      var (v, made) := Credit(u, cb, n - 1, height);
      var (v', made') := Credit(u, cb, n, height);
      SeqSetConcat(made, [OutPoint(cb.txid, n - 1)]);
      assert v' - SeqSet(made') == u;
    }
  }

  /** One merged block, field by field: its coinbase's absent outputs enter, under its own score. */
  lemma {:induction false} CreditFields(u: Utxos, cb: Transaction, n: nat, height: u64)
    requires n <= |cb.outputs|
    ensures var (v, made) := Credit(u, cb, n, height);
            && (forall o :: o in v <==> o in u || (o.index < n && Makes(cb, o)))
            && (forall o :: o in made <==> o in v && o !in u)
            && (forall o :: o in v ==>
                  if o in u then v[o] == u[o]
                  else
                    && o.index < n && Makes(cb, o)
                    && v[o] == UtxoEntry(cb.outputs[o.index].amount, cb.outputs[o.index].address, height, true))
  {
    if n > 0 {
      CreditFields(u, cb, n - 1, height);
    }
  }

  lemma CreditsThen(u: Utxos, v: Utxos, w: Utxos, made: seq<OutPoint>, more: seq<OutPoint>,
                    a: set<OutPoint>, b: set<OutPoint>)
    requires Credits(u, v, made, a) && Credits(v, w, more, b)
    ensures Credits(u, w, made + more, a + b)
  {
    SeqSetConcat(made, more);
    assert w - (SeqSet(made) + SeqSet(more)) == (w - SeqSet(more)) - SeqSet(made);
  }

  lemma {:induction false} CreditAllMeaning(u: Utxos, merges: seq<Block>, n: nat)
    requires n <= |merges|
    ensures var (v, made) := CreditAll(u, merges, n); Credits(u, v, made, MergeOutputs(merges, n))
  {
    if n > 0 {
      CreditAllMeaning(u, merges, n - 1);
      var (v, made) := CreditAll(u, merges, n - 1);
      var b := merges[n - 1];
      if HasCoinbase(b) {
        CreditMeaning(v, b.transactions[0], |b.transactions[0].outputs|, b.blueScore);
      }
      var (w, more) := CreditBlock(v, b);
      CreditsThen(u, v, w, made, more, MergeOutputs(merges, n - 1),
                  if HasCoinbase(b) then AllCreated(b.transactions[0]) else {});
    }
  }

  // ----- the theorem

  ghost function BlockBurns(b: Block): nat { BurnedTxs(b.transactions, |b.transactions|) }

  ghost function BlockSpent(b: Block): set<OutPoint> { SpentBy(b.transactions, |b.transactions|) }

  ghost function BlockCreated(b: Block): set<OutPoint> { CreatedBy(b.transactions, |b.transactions|) }

  /** The burn counter does not saturate, or has nothing to lose. */
  ghost predicate BurnsFit(s: State, b: Block) {
    s.burned == 0 || s.burned + BlockBurns(b) <= U64_MAX
  }

  /** The block creates nothing over a live entry. */
  ghost predicate NothingOverwritten(s: State, b: Block) {
    Overwritten(b.transactions, |b.transactions|) !! s.utxos.Keys
  }

  /** No old entry that the block takes out for good is credited back as a merged coinbase output. */
  ghost predicate MergesUnspent(s: State, b: Block, merges: seq<Block>) {
    forall o :: o in s.utxos && o in AllMerged(merges) ==> o !in Gone(b.transactions, |b.transactions|)
  }

  ghost predicate Undoable(s: State, b: Block, merges: seq<Block>) {
    BurnsFit(s, b) && NothingOverwritten(s, b) && MergesUnspent(s, b, merges)
  }

  /** Among the old outpoints, those credited are those taken out for good and merged. */
  lemma CreditedOld(s: State, b: Block, merges: seq<Block>)
    requires Connect(s, b, merges).undo.Some?
    ensures var made := SeqSet(Connect(s, b, merges).undo.value.mergeCoinbases);
            forall o :: o in s.utxos ==>
              (o in made <==> o in AllMerged(merges) && o in Gone(b.transactions, |b.transactions|))
  {
    hide Gone, MergeOutputs, ApplyTxs, CreditAll, SeqSet;
    ApplyTxsMeaning(s, b.transactions, |b.transactions|, b.blueScore);
    CreditAllMeaning(ApplyAll(s, b).state.utxos, merges, |merges|);
  }

  /**
   What is missing from the old ledger after a block came off a ledger that lacked `before`: what the block
   overwrote, what it took out for good and merged again, and what was missing and it did not touch.
   */
  ghost function LostBy(b: Block, merges: seq<Block>, before: set<OutPoint>): set<OutPoint> {
    var txs, n := b.transactions, |b.transactions|;
    Overwritten(txs, n) + AllMerged(merges) * Gone(txs, n) + (before - Touched(txs, n))
  }

  /** The undo data of a block that connected. */
  ghost function UndoOf(s: State, b: Block, merges: seq<Block>): (undo: BlockUndo)
    requires Connect(s, b, merges).undo.Some?
    ensures |undo.txs| == |b.transactions|
  {
    ApplyTxsBurned(s, b.transactions, |b.transactions|, b.blueScore);
    Connect(s, b, merges).undo.value
  }

  /** Disconnecting it from any ledger that lacks `before` of the connected one. */
  lemma DisconnectLost(s: State, b: Block, merges: seq<Block>, v: State, before: set<OutPoint>)
    requires Connect(s, b, merges).undo.Some? && v.utxos == Connect(s, b, merges).state.utxos - before
    ensures var r := Disconnect(v, b, UndoOf(s, b, merges));
            r.utxos == s.utxos - LostBy(b, merges, before) && r.burned == Max(v.burned - BlockBurns(b), 0)
  {
    hide Overwritten, Gone, UndoTxs, ApplyTxs, CreditAll, AllMerged, SeqSet, Touched;
    var a, p := Connect(s, b, merges), ApplyAll(s, b);
    var txs, n := p.undo.value, |b.transactions|;
    ApplyTxsBurned(s, b.transactions, n, b.blueScore);
    UndoTxsBurned(v, b.transactions, txs, n);
    CreditAllMeaning(p.state.utxos, merges, |merges|);
    CreditedOld(s, b, merges);
    assert txs[..n] == txs;
    var r, goal := Disconnect(v, b, a.undo.value).utxos, s.utxos - LostBy(b, merges, before);
    forall o
      ensures SameAt(r, goal, o)
    {
      DisconnectLostAt(s, b, merges, v, before, txs, o);
    }
    EqualMaps(r, goal);
  }

  lemma DisconnectLostAt(s: State, b: Block, merges: seq<Block>, v: State, before: set<OutPoint>,
                         txs: seq<seq<UtxoEntry>>, o: OutPoint)
    requires Connect(s, b, merges).undo.Some? && v.utxos == Connect(s, b, merges).state.utxos - before
    requires ApplyAll(s, b).undo == Some(txs) && |txs| == |b.transactions| && txs == txs[..|txs|]
    ensures var made := SeqSet(Connect(s, b, merges).undo.value.mergeCoinbases);
            SameAt(UndoTxs(v, b.transactions, txs, |txs|).utxos - made, s.utxos - LostBy(b, merges, before), o)
  {
    hide Overwritten, Gone, UndoTxs, ApplyTxs, CreditAll, AllMerged, SeqSet, Touched;
    var p, n := ApplyAll(s, b), |b.transactions|;
    var made := SeqSet(Connect(s, b, merges).undo.value.mergeCoinbases);
    CreditAllMeaning(p.state.utxos, merges, |merges|);
    CreditedOld(s, b, merges);
    if o !in made {
      assert Connect(s, b, merges).state.utxos - made == p.state.utxos;
      if o in Touched(b.transactions, n) || o !in before {
        UndoTxsAt(s, b.transactions, n, b.blueScore, txs, v, o);
      } else {
        UntouchedStays(s, b.transactions, n, b.blueScore, txs, v, o);
      }
    }
  }

  /** Main theorem: a block that connected is undone exactly iff the three conditions of Undoable hold. */
  lemma DisconnectRestoresIff(s: State, b: Block, merges: seq<Block>)
    requires Connect(s, b, merges).undo.Some?
    ensures var a := Connect(s, b, merges);
            Disconnect(a.state, b, UndoOf(s, b, merges)) == s <==> Undoable(s, b, merges)
  {
    var a := Connect(s, b, merges);
    ApplyTxsBurned(s, b.transactions, |b.transactions|, b.blueScore);
    hide Connect, Disconnect, AllMerged, Gone, Overwritten, Touched;
    assert a.state.utxos == a.state.utxos - {};
    DisconnectLost(s, b, merges, a.state, {});
    LostNothingIff(s, b, merges);
  }

  lemma LostNothingIff(s: State, b: Block, merges: seq<Block>)
    ensures s.utxos - LostBy(b, merges, {}) == s.utxos <==> NothingOverwritten(s, b) && MergesUnspent(s, b, merges)
  {
    hide AllMerged, Gone, Overwritten, Touched;
    LostIff(s.utxos, LostBy(b, merges, {}));
  }

  lemma LostIff(u: Utxos, lost: set<OutPoint>)
    ensures u - lost == u <==> lost !! u.Keys
  {
    if lost !! u.Keys {
      assert u - lost == u;
    } else {
      var o :| o in lost && o in u;
      assert o !in u - lost;
    }
  }

  /** The block connects, and disconnecting it does not give back the ledger. */
  ghost predicate NotUndone(s: State, b: Block, merges: seq<Block>) {
    var a := Connect(s, b, merges);
    a.undo.Some? && Disconnect(a.state, b, UndoOf(s, b, merges)) != s
  }

  lemma NotUndoneIff(s: State, b: Block, merges: seq<Block>)
    requires Connect(s, b, merges).undo.Some?
    ensures NotUndone(s, b, merges) <==> !Undoable(s, b, merges)
  {
    hide Connect, Disconnect, Undoable;
    DisconnectRestoresIff(s, b, merges);
  }

  /** Names new to the set, as distinct transaction hashes would give them, leave nothing to overwrite. */
  lemma NewNamesAreUndoable(s: State, b: Block, merges: seq<Block>)
    requires BurnsFit(s, b) && BlockCreated(b) !! s.utxos.Keys && AllMerged(merges) !! BlockSpent(b)
    ensures Undoable(s, b, merges)
  {
    SetsInside(b.transactions, |b.transactions|);
  }
}
