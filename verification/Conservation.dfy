/**
 Where value goes when a block is applied: nothing but the subsidy enters, and what leaves is burned
 (crates/zentra-core/src/utxo.rs:107-151, crates/zentrad/src/node.rs:995-1063).
 */
module Conservation {
  import opened Types
  import opened Ledger
  import opened Undo
  import opened Validation

  /** The sum of all amounts in the set. */
  ghost function Total(u: Utxos): nat {
    if u == map[] then 0
    else
      var o :| o in u;
      u[o].amount + Total(u - {o})
  }

  lemma {:induction false} TotalRemove(u: Utxos, o: OutPoint)
    requires o in u
    ensures Total(u) == u[o].amount + Total(u - {o})
    decreases |u|
  {
    var p :| p in u && Total(u) == u[p].amount + Total(u - {p});
    if p != o {
      TotalRemove(u - {p}, o);
      TotalRemove(u - {o}, p);
      assert u - {p} - {o} == u - {o} - {p};
    }
  }

  lemma TotalInsert(u: Utxos, o: OutPoint, e: UtxoEntry)
    requires o !in u
    ensures Total(u[o := e]) == Total(u) + e.amount
  {
    TotalRemove(u[o := e], o);
    assert u[o := e] - {o} == u;
  }

  /** Live value plus everything ever burned. */
  ghost function Worth(s: State): nat { Total(s.utxos) + s.burned }

  ghost function AmountSum(taken: seq<UtxoEntry>): nat {
    if taken == [] then 0 else AmountSum(taken[..|taken| - 1]) + taken[|taken| - 1].amount
  }

  lemma {:induction false} SpendTotal(u: Utxos, inputs: seq<TxInput>, n: nat)
    requires n <= |inputs| && SpendInputs(u, inputs, n).ok
    ensures Total(u) == Total(SpendInputs(u, inputs, n).utxos) + AmountSum(SpendInputs(u, inputs, n).taken)
  {
    if n > 0 {
      SpendTotal(u, inputs, n - 1);
      var p := SpendInputs(u, inputs, n - 1);
      TotalRemove(p.utxos, inputs[n - 1].prev);
      assert (p.taken + [p.utxos[inputs[n - 1].prev]])[..|p.taken|] == p.taken;
    }
  }

  lemma {:induction false} AddTotal(s: State, tx: Transaction, n: nat, height: u64)
    requires n <= |tx.outputs| && Created(tx, n) !! s.utxos.Keys
    ensures Total(AddOutputs(s, tx, n, height).utxos) + Burned(tx.outputs, n)
         == Total(s.utxos) + OutSum(tx.outputs, n)
  {
    if n > 0 {
      AddTotal(s, tx, n - 1, height);
      AddOutputsMeaning(s, tx, n - 1, height);
      CreatedMeaning(tx, n - 1);
      if tx.outputs[n - 1].Standard? {
        TotalInsert(AddOutputs(s, tx, n - 1, height).utxos, OutPoint(tx.txid, n - 1), NewEntry(tx, n - 1, height));
      }
    }
  }

  // ----- what validation counted is what the apply moved

  /** The evolving set gives every unspent old or new outpoint the amount validation looked up. */
  ghost predicate AmountsAgree(u: Utxos, made: Coins, now: Utxos) {
    && (forall o :: o in u && o in now ==> now[o] == u[o])
    && (forall o :: o in now && o !in u ==> o in made && now[o].amount == made[o].amount)
  }

  lemma {:induction false} TxAmounts(u: Utxos, p: State, tx: Transaction, made: Coins, height: u64)
    requires AmountsAgree(u, made, p.utxos) && ApplyTx(p, tx, height).undo.Some? && AllCreated(tx) !! u.Keys
    ensures AmountsAgree(u, AddCoins(made, tx, |tx.outputs|), ApplyTx(p, tx, height).state.utxos)
  {
    var q := SpendInputs(p.utxos, tx.inputs, SpendCount(tx)).utxos;
    SpendMeaning(p.utxos, tx.inputs, SpendCount(tx));
    AddOutputsMeaning(p.(utxos := q), tx, |tx.outputs|, height);
    AddCoinsMeaning(made, tx, |tx.outputs|);
  }

  /** Entries that agree with what validation looked up add up to the same sum. */
  lemma {:induction false} TakenIsInSum(u: Utxos, made: Coins, now: Utxos, inputs: seq<TxInput>, n: nat)
    requires n <= |inputs| && AmountsAgree(u, made, now) && SpendInputs(now, inputs, n).ok
    ensures AmountSum(SpendInputs(now, inputs, n).taken) == InSum(u, made, inputs, n)
  {
    if n > 0 {
      var p, o := SpendInputs(now, inputs, n - 1), inputs[n - 1].prev;
      TakenIsInSum(u, made, now, inputs, n - 1);
      assert (p.taken + [p.utxos[o]])[..|p.taken|] == p.taken;
      SpendMeaning(now, inputs, n - 1);
      assert p.utxos[o] == now[o];
    }
  }

  // ----- flow through a block

  ghost function InTotal(u: Utxos, txs: seq<Transaction>, n: nat): nat
    requires n <= |txs|
  {
    if n == 0 then 0 else InTotal(u, txs, n - 1) + TxIn(u, txs, n - 1)
  }

  ghost function OutTotal(txs: seq<Transaction>, n: nat): nat
    requires n <= |txs|
  {
    if n == 0 then 0 else OutTotal(txs, n - 1) + TxOut(txs[n - 1])
  }

  lemma {:induction false} TxFlow(u: Utxos, p: State, tx: Transaction, made: Coins, height: u64)
    requires AmountsAgree(u, made, p.utxos) && ApplyTx(p, tx, height).undo.Some?
    requires AllCreated(tx) !! p.utxos.Keys
    ensures Total(ApplyTx(p, tx, height).state.utxos) + AllBurned(tx) + InSum(u, made, tx.inputs, SpendCount(tx))
         == Total(p.utxos) + TxOut(tx)
  {
    var q := SpendInputs(p.utxos, tx.inputs, SpendCount(tx)).utxos;
    SpendMeaning(p.utxos, tx.inputs, SpendCount(tx));
    SpendTotal(p.utxos, tx.inputs, SpendCount(tx));
    TakenIsInSum(u, made, p.utxos, tx.inputs, SpendCount(tx));
    AddTotal(p.(utxos := q), tx, |tx.outputs|, height);
  }

  ghost predicate DistinctIds(txs: seq<Transaction>) {
    forall i, j :: 0 <= i < j < |txs| ==> txs[i].txid != txs[j].txid
  }

  /** Names new to the set and to each other; a repeated coinbase is accepted without them. */
  ghost predicate Fresh(u: Utxos, txs: seq<Transaction>) {
    CreatedBy(txs, |txs|) !! u.Keys && DistinctIds(txs)
  }

  lemma {:induction false} CreatedByMono(txs: seq<Transaction>, n: nat, m: nat)
    requires n <= m <= |txs|
    ensures CreatedBy(txs, n) <= CreatedBy(txs, m)
  {
    if n < m {
      CreatedByMono(txs, n, m - 1);
    }
  }

  lemma {:induction false} CreatedByIds(txs: seq<Transaction>, n: nat, tx: Transaction)
    requires n <= |txs| && forall i :: 0 <= i < n ==> txs[i].txid != tx.txid
    ensures CreatedBy(txs, n) !! AllCreated(tx)
  {
    if n > 0 {
      CreatedByIds(txs, n - 1, tx);
      CreatedMeaning(txs[n - 1], |txs[n - 1].outputs|);
      CreatedMeaning(tx, |tx.outputs|);
    }
  }

  /** The next transaction's outputs are new to the set that the transactions before it left. */
  lemma NextIsFresh(s: State, txs: seq<Transaction>, n: nat, height: u64)
    requires n < |txs| && Fresh(s.utxos, txs) && ApplyTxs(s, txs, n, height).undo.Some?
    ensures AllCreated(txs[n]) !! s.utxos.Keys + CreatedBy(txs, n)
    ensures AllCreated(txs[n]) !! ApplyTxs(s, txs, n, height).state.utxos.Keys
  {
    CreatedByMono(txs, n + 1, |txs|);
    CreatedByIds(txs, n, txs[n]);
    ApplyTxsMeaning(s, txs, n, height);
  }

  lemma {:induction false} AmountsFollow(s: State, txs: seq<Transaction>, n: nat, height: u64)
    requires n <= |txs| && ApplyTxs(s, txs, n, height).undo.Some? && Fresh(s.utxos, txs)
    ensures AmountsAgree(s.utxos, CoinsOf(txs, n), ApplyTxs(s, txs, n, height).state.utxos)
  {
    if n > 0 {
      AmountsFollow(s, txs, n - 1, height);
      NextIsFresh(s, txs, n - 1, height);
      CreatedByMono(txs, n, |txs|);
      TxAmounts(s.utxos, ApplyTxs(s, txs, n - 1, height).state, txs[n - 1], CoinsOf(txs, n - 1), height);
    }
  }

  /** With new names conservation is an equation: value before plus outputs is value after, inputs and burns. */
  lemma {:induction false} Flow(s: State, txs: seq<Transaction>, n: nat, height: u64)
    requires n <= |txs| && ApplyTxs(s, txs, n, height).undo.Some? && Fresh(s.utxos, txs)
    ensures Total(ApplyTxs(s, txs, n, height).state.utxos) + BurnedTxs(txs, n) + InTotal(s.utxos, txs, n)
         == Total(s.utxos) + OutTotal(txs, n)
  {
    if n > 0 {
      Flow(s, txs, n - 1, height);
      AmountsFollow(s, txs, n - 1, height);
      NextIsFresh(s, txs, n - 1, height);
      TxFlow(s.utxos, ApplyTxs(s, txs, n - 1, height).state, txs[n - 1], CoinsOf(txs, n - 1), height);
    }
  }

  // ----- the same for every block, what it overwrites included

  ghost function Amount(u: Utxos, o: OutPoint): nat { if o in u then u[o].amount else 0 }

  /** The entry that each unspent outpoint lost first, when an output of the same name replaced it. */
  ghost function ShadowAdd(s: State, shadow: Utxos, tx: Transaction, n: nat, height: u64): Utxos
    requires n <= |tx.outputs|
  {
    if n == 0 then shadow
    else
      var p, now := ShadowAdd(s, shadow, tx, n - 1, height), AddOutputs(s, tx, n - 1, height).utxos;
      var o := OutPoint(tx.txid, n - 1);
      if tx.outputs[n - 1].Standard? && o in now && o !in p then p[o := now[o]] else p
  }

  ghost function Spent(s: State, tx: Transaction): State {
    s.(utxos := SpendInputs(s.utxos, tx.inputs, SpendCount(tx)).utxos)
  }

  ghost function Shadow(s: State, txs: seq<Transaction>, n: nat, height: u64): Utxos
    requires n <= |txs|
  {
    if n == 0 then map[]
    else
      var p, tx := ApplyTxs(s, txs, n - 1, height).state, txs[n - 1];
      ShadowAdd(Spent(p, tx), Shadow(s, txs, n - 1, height) - AllSpent(tx), tx, |tx.outputs|, height)
  }

  /** What validation would look up for an unspent outpoint is there, live or in the shadow. */
  ghost predicate CoveredAt(u: Utxos, made: Coins, now: Utxos, shadow: Utxos, o: OutPoint) {
    if o in u then Amount(u, o) <= if o in shadow then Amount(shadow, o) else Amount(now, o)
    else o in made ==> made[o].amount <= Amount(now, o)
  }

  ghost predicate Covered(u: Utxos, made: Coins, now: Utxos, shadow: Utxos, spent: set<OutPoint>) {
    forall o :: o !in spent ==> CoveredAt(u, made, now, shadow, o)
  }

  /** Taking one outpoint out of a set and its shadow. */
  lemma TotalWithout(u: Utxos, o: OutPoint)
    ensures Total(u) == Amount(u, o) + Total(u - {o})
  {
    if o in u {
      TotalRemove(u, o);
    } else {
      assert u - {o} == u;
    }
  }

  lemma {:induction false} SpendBound(u: Utxos, made: Coins, now: Utxos, shadow: Utxos, spent: set<OutPoint>,
                                      inputs: seq<TxInput>, n: nat)
    requires n <= |inputs| && SpendInputs(now, inputs, n).ok && Covered(u, made, now, shadow, spent)
    requires Prevs(inputs, n) !! spent
    ensures InSum(u, made, inputs, n) + Total(SpendInputs(now, inputs, n).utxos) + Total(shadow - Prevs(inputs, n))
         <= Total(now) + Total(shadow)
  {
    if n == 0 {
      assert shadow - {} == shadow;
    } else {
      hide Total, Covered, Lookup, Amount;
      var q, o := SpendInputs(now, inputs, n - 1).utxos, inputs[n - 1].prev;
      var rest := shadow - Prevs(inputs, n - 1);
      SpendBound(u, made, now, shadow, spent, inputs, n - 1);
      NextInput(now, shadow, inputs, n);
      TotalWithout(q, o);
      TotalWithout(rest, o);
      CoversLookup(u, made, now, shadow, spent, o);
    }
  }

  lemma NextInput(now: Utxos, shadow: Utxos, inputs: seq<TxInput>, n: nat)
    requires 0 < n <= |inputs| && SpendInputs(now, inputs, n).ok
    ensures var q, o, rest := SpendInputs(now, inputs, n - 1).utxos, inputs[n - 1].prev, shadow - Prevs(inputs, n - 1);
            && SpendInputs(now, inputs, n).utxos == q - {o} && shadow - Prevs(inputs, n) == rest - {o}
            && Amount(q, o) == Amount(now, o) && Amount(rest, o) == Amount(shadow, o)
  {
    SpendMeaning(now, inputs, n);
    SpendMeaning(now, inputs, n - 1);
    PrevsMeaning(inputs, n - 1);
    assert inputs[n - 1].prev !in Prevs(inputs, n - 1);
  }

  lemma CoversLookup(u: Utxos, made: Coins, now: Utxos, shadow: Utxos, spent: set<OutPoint>, o: OutPoint)
    requires Covered(u, made, now, shadow, spent) && o !in spent
    ensures Lookup(u, made, o).Some? ==> Lookup(u, made, o).value.amount <= Amount(now, o) + Amount(shadow, o)
  {
    assert CoveredAt(u, made, now, shadow, o);
  }

  lemma {:induction false} AddBound(s: State, shadow: Utxos, tx: Transaction, n: nat, height: u64)
    requires n <= |tx.outputs|
    ensures Total(AddOutputs(s, tx, n, height).utxos) + Total(ShadowAdd(s, shadow, tx, n, height))
            + Burned(tx.outputs, n)
         <= Total(s.utxos) + Total(shadow) + OutSum(tx.outputs, n)
  {
    if n > 0 {
      hide Total;
      AddBound(s, shadow, tx, n - 1, height);
      if tx.outputs[n - 1].Standard? {
        var now, p := AddOutputs(s, tx, n - 1, height).utxos, ShadowAdd(s, shadow, tx, n - 1, height);
        var o, e := OutPoint(tx.txid, n - 1), NewEntry(tx, n - 1, height);
        TotalWithout(now, o);
        TotalWithout(now[o := e], o);
        assert now[o := e] - {o} == now - {o};
        if o in now && o !in p {
          TotalInsert(p, o, now[o]);
        }
      }
    }
  }

  lemma {:induction false} AddCovers(u: Utxos, made: Coins, s: State, shadow: Utxos, spent: set<OutPoint>,
                                     tx: Transaction, n: nat, height: u64)
    requires n <= |tx.outputs| && Covered(u, made, s.utxos, shadow, spent)
    ensures Covered(u, AddCoins(made, tx, n), AddOutputs(s, tx, n, height).utxos,
                    ShadowAdd(s, shadow, tx, n, height), spent)
  {
    if n > 0 {
      AddCovers(u, made, s, shadow, spent, tx, n - 1, height);
      var o := OutPoint(tx.txid, n - 1);
      forall x | x !in spent
        ensures CoveredAt(u, AddCoins(made, tx, n), AddOutputs(s, tx, n, height).utxos,
                          ShadowAdd(s, shadow, tx, n, height), x)
      {
        assert CoveredAt(u, AddCoins(made, tx, n - 1), AddOutputs(s, tx, n - 1, height).utxos,
                         ShadowAdd(s, shadow, tx, n - 1, height), x);
      }
    }
  }

  lemma SpendCovers(u: Utxos, made: Coins, s: State, shadow: Utxos, spent: set<OutPoint>, tx: Transaction)
    requires Covered(u, made, s.utxos, shadow, spent)
    requires SpendInputs(s.utxos, tx.inputs, SpendCount(tx)).ok
    ensures Covered(u, made, Spent(s, tx).utxos, shadow - AllSpent(tx), spent + AllSpent(tx))
  {
    SpendMeaning(s.utxos, tx.inputs, SpendCount(tx));
    forall o | o !in spent + AllSpent(tx)
      ensures CoveredAt(u, made, Spent(s, tx).utxos, shadow - AllSpent(tx), o)
    {
      assert CoveredAt(u, made, s.utxos, shadow, o);
    }
  }

  /** Value never appears: no accepted block, whatever it overwrites, leaves more than came in. */
  lemma {:induction false} FlowBound(s: State, txs: seq<Transaction>, n: nat, height: u64)
    requires n <= |txs| && TxsOk(s.utxos, txs, n, height)
    ensures var a := ApplyTxs(s, txs, n, height);
            && a.undo.Some?
            && Covered(s.utxos, CoinsOf(txs, n), a.state.utxos, Shadow(s, txs, n, height), SpentBy(txs, n))
            && Total(a.state.utxos) + Total(Shadow(s, txs, n, height)) + BurnedTxs(txs, n)
               + InTotal(s.utxos, txs, n)
               <= Total(s.utxos) + OutTotal(txs, n)
  {
    hide Total, Covered, AddOutputs, ShadowAdd, AddCoins, InSum, SpendInputs;
    AcceptableApplies(s, txs, n, height);
    if n == 0 {
      NothingInShadow(s.utxos);
    } else {
      FlowBound(s, txs, n - 1, height);
      var p, tx := ApplyTxs(s, txs, n - 1, height).state, txs[n - 1];
      var shadow, made, spent := Shadow(s, txs, n - 1, height), CoinsOf(txs, n - 1), SpentBy(txs, n - 1);
      NewlySpent(s.utxos, txs, n - 1, height);
      SpendBound(s.utxos, made, p.utxos, shadow, spent, tx.inputs, SpendCount(tx));
      SpendCovers(s.utxos, made, p, shadow, spent, tx);
      AddBound(Spent(p, tx), shadow - AllSpent(tx), tx, |tx.outputs|, height);
      AddCovers(s.utxos, made, Spent(p, tx), shadow - AllSpent(tx), spent + AllSpent(tx), tx, |tx.outputs|, height);
    }
  }

  lemma ValueBound(s: State, txs: seq<Transaction>, height: u64)
    requires TxsOk(s.utxos, txs, |txs|, height)
    ensures var a := ApplyTxs(s, txs, |txs|, height);
            && a.undo.Some?
            && Total(a.state.utxos) + BurnedTxs(txs, |txs|) + InTotal(s.utxos, txs, |txs|)
               <= Total(s.utxos) + OutTotal(txs, |txs|)
  {
    hide Total, Covered, Shadow, ApplyTxs, TxsOk;
    FlowBound(s, txs, |txs|, height);
  }

  lemma NothingInShadow(u: Utxos)
    ensures Covered(u, map[], u, map[], {}) && Total(map[]) == 0
  {
  }

  lemma NewlySpent(u: Utxos, txs: seq<Transaction>, i: nat, height: u64)
    requires i < |txs| && TxsOk(u, txs, i + 1, height)
    ensures AllSpent(txs[i]) !! SpentBy(txs, i)
  {
    var tx := txs[i];
    if i > 0 {
      InputsOkMeaning(u, CoinsOf(txs, i), SpentBy(txs, i), tx.inputs, |tx.inputs|, height);
      PrevsMeaning(tx.inputs, |tx.inputs|);
    }
  }

  ghost predicate OutputsFit(txs: seq<Transaction>) {
    forall i :: 0 <= i < |txs| ==> TxOut(txs[i]) <= U64_MAX
  }

  /** If output sums fit a word, all outputs plus counted fees are at most the inputs plus the coinbase's outputs. */
  lemma {:induction false} FeesAreCovered(u: Utxos, txs: seq<Transaction>, n: nat, height: u64)
    requires 0 < n <= |txs| && TxsOk(u, txs, n, height) && OutputsFit(txs)
    ensures OutTotal(txs, n) + Fees(u, txs, n) <= InTotal(u, txs, n) + TxOut(txs[0])
  {
    if n > 1 {
      FeesAreCovered(u, txs, n - 1, height);
    }
  }

  /**
   The guard of the coinbase check with its sums unsaturated: all outputs are paid for by inputs and subsidy,
   but for burns that the saturating counter does not show.
   */
  ghost predicate ExactSumsCover(s: State, b: Block, subsidy: u64) {
    var txs, n := b.transactions, |b.transactions|;
    OutTotal(txs, n) + Cap64(s.burned + BurnedTxs(txs, n))
      <= InTotal(s.utxos, txs, n) + subsidy + s.burned + BurnedTxs(txs, n)
  }

  /**
   Main theorem: a validated block raises live value plus burns by at most the subsidy if the exact sums
   cover it, although it may spend its own outputs, its coinbase among them, and overwrite live ones; and with
   new names only if they do.
   */
  lemma BlockConservesValue(s: State, b: Block, subsidy: u64)
    requires Acceptable(s.utxos, b, subsidy)
    ensures ApplyAll(s, b).undo.Some?
    ensures ExactSumsCover(s, b, subsidy) ==> Worth(ApplyAll(s, b).state) <= Worth(s) + subsidy
    ensures Fresh(s.utxos, b.transactions) ==>
              (Worth(ApplyAll(s, b).state) <= Worth(s) + subsidy <==> ExactSumsCover(s, b, subsidy))
  {
    hide Total, ApplyTxs, TxsOk, InTotal, OutTotal, BurnedTxs, Fees, Fresh;
    var txs, n := b.transactions, |b.transactions|;
    ValueBound(s, txs, b.blueScore);
    ApplyTxsBurned(s, txs, n, b.blueScore);
    if Fresh(s.utxos, txs) {
      Flow(s, txs, n, b.blueScore);
    }
  }

  /** Output sums that fit a word are covered, whatever the inputs and fees saturate to. */
  lemma FittingOutputsAreCovered(s: State, b: Block, subsidy: u64)
    requires Acceptable(s.utxos, b, subsidy) && OutputsFit(b.transactions)
    ensures ExactSumsCover(s, b, subsidy)
  {
    hide TxsOk, InTotal, OutTotal, BurnedTxs, Fees;
    OutputsCovered(s.utxos, b.transactions, b.blueScore, subsidy);
  }

  lemma OutputsCovered(u: Utxos, txs: seq<Transaction>, height: u64, subsidy: u64)
    requires TxsOk(u, txs, |txs|, height) && CoinbaseOk(u, txs, subsidy) && OutputsFit(txs)
    ensures OutTotal(txs, |txs|) <= InTotal(u, txs, |txs|) + subsidy
  {
    if txs != [] {
      FeesAreCovered(u, txs, |txs|, height);
    }
  }

  /** Fees are what inputs exceed outputs by, coinbase apart, when no sum saturates. */
  lemma {:induction false} FeesAreExact(u: Utxos, txs: seq<Transaction>, n: nat, height: u64)
    requires 0 < n <= |txs| && TxsOk(u, txs, n, height)
    requires OutTotal(txs, n) <= U64_MAX && InTotal(u, txs, n) <= U64_MAX
    ensures OutTotal(txs, n) + Fees(u, txs, n) == InTotal(u, txs, n) + TxOut(txs[0])
  {
    if n > 1 {
      FeesAreExact(u, txs, n - 1, height);
    }
  }

  /**
   When no sum saturates the reward check is conservation itself: the coinbase passes exactly if the outputs are
   covered, and with new names exactly if live value and burns grow by at most the subsidy.
   */
  lemma RewardCheckIsExact(s: State, b: Block, subsidy: u64)
    requires var txs, n := b.transactions, |b.transactions|;
             && txs != [] && TxsOk(s.utxos, txs, n, b.blueScore)
             && OutTotal(txs, n) <= U64_MAX && InTotal(s.utxos, txs, n) + subsidy <= U64_MAX
             && s.burned + BurnedTxs(txs, n) <= U64_MAX
    ensures CoinbaseOk(s.utxos, b.transactions, subsidy) <==> ExactSumsCover(s, b, subsidy)
    ensures Fresh(s.utxos, b.transactions) ==>
              (CoinbaseOk(s.utxos, b.transactions, subsidy) <==> Worth(ApplyAll(s, b).state) <= Worth(s) + subsidy)
  {
    hide Total, ApplyTxs, TxsOk, InTotal, OutTotal, BurnedTxs, Fees, Fresh, TxOut;
    var txs, n := b.transactions, |b.transactions|;
    FeesAreExact(s.utxos, txs, n, b.blueScore);
    FirstIsPart(txs, n);
    AcceptableApplies(s, txs, n, b.blueScore);
    ApplyTxsBurned(s, txs, n, b.blueScore);
    if Fresh(s.utxos, txs) {
      Flow(s, txs, n, b.blueScore);
    }
  }

  lemma {:induction false} FirstIsPart(txs: seq<Transaction>, n: nat)
    requires 0 < n <= |txs|
    ensures TxOut(txs[0]) <= OutTotal(txs, n)
  {
    if n > 1 {
      FirstIsPart(txs, n - 1);
    }
  }

  // ----- when one transfer can break it

  /** A block that is accepted although value grows beyond its subsidy. */
  ghost predicate Breaks(s: State, b: Block, subsidy: u64) {
    Acceptable(s.utxos, b, subsidy) && Worth(ApplyAll(s, b).state) > Worth(s) + subsidy
  }

  /** A coinbase that pays nothing, then `tx`. */
  ghost function OneTransfer(tx: Transaction): Block {
    Block(1, [], 1, 0, 0, 0, true, [Transaction(tx.txid + 1, true, true, [], []), tx])
  }

  /**
   A transfer that can be signed for is in some accepted block of this form that breaks conservation, exactly
   when its outputs exceed a word and not all of their value is burned.
   */
  lemma TransferBreaksIff(tx: Transaction)
    requires !tx.isCoinbase && tx.signaturesOk && tx.inputs != [] && DistinctPrevs(tx.inputs, |tx.inputs|)
    ensures (exists s: State, subsidy: u64 :: Breaks(s, OneTransfer(tx), subsidy))
       <==> TxOut(tx) > U64_MAX && AllBurned(tx) < TxOut(tx)
  {
    hide Breaks;
    if TxOut(tx) > U64_MAX && AllBurned(tx) < TxOut(tx) {
      LargeTransferBreaks(tx);
    } else {
      BurnedAtMostPaid(tx.outputs, |tx.outputs|);
      forall s: State, subsidy: u64
        ensures !Breaks(s, OneTransfer(tx), subsidy)
      {
        OtherTransferKeeps(tx, s, subsidy);
      }
    }
  }

  lemma {:induction false} BurnedAtMostPaid(outputs: seq<TxOutput>, n: nat)
    requires n <= |outputs|
    ensures Burned(outputs, n) <= OutSum(outputs, n)
  {
    if n > 0 {
      BurnedAtMostPaid(outputs, n - 1);
    }
  }

  lemma OneTransferSums(u: Utxos, tx: Transaction)
    ensures var txs := OneTransfer(tx).transactions;
            && TxOut(txs[0]) == 0 && OutTotal(txs, 2) == TxOut(tx) && BurnedTxs(txs, 2) == AllBurned(tx)
            && InTotal(u, txs, 2) == TxIn(u, txs, 1) && SpentBy(txs, 1) == {} && CoinsOf(txs, 1) == map[]
            && TxIn(u, txs, 1) == InSum(u, map[], tx.inputs, SpendCount(tx))
  {
    var txs := OneTransfer(tx).transactions;
    assert txs[1] == tx && AllSpent(txs[0]) == {};
    assert OutTotal(txs, 0) == 0 && OutTotal(txs, 1) == 0;
    assert BurnedTxs(txs, 0) == 0 && BurnedTxs(txs, 1) == 0;
    assert InTotal(u, txs, 0) == 0 && TxIn(u, txs, 0) == 0;
    assert SpentBy(txs, 0) == {} && CoinsOf(txs, 0) == map[];
  }

  lemma OtherTransferKeeps(tx: Transaction, s: State, subsidy: u64)
    requires !tx.isCoinbase && (TxOut(tx) <= U64_MAX || AllBurned(tx) == TxOut(tx))
    ensures !Breaks(s, OneTransfer(tx), subsidy)
  {
    hide Total, ApplyTxs, InTotal, OutTotal, BurnedTxs, TxIn, TxOut, InputsOk;
    var b := OneTransfer(tx);
    OneTransferSums(s.utxos, tx);
    if Acceptable(s.utxos, b, subsidy) {
      if TxOut(tx) <= U64_MAX {
        FittingOutputsAreCovered(s, b, subsidy);
        BlockConservesValue(s, b, subsidy);
      } else {
        ValueBound(s, b.transactions, b.blueScore);
        ApplyTxsBurned(s, b.transactions, 2, b.blueScore);
        assert TransferOk(s.utxos, b.transactions, 1, b.blueScore);
      }
    }
  }

  /** One input worth the largest word, the others nothing. */
  ghost function Funds(inputs: seq<TxInput>, n: nat): Utxos
    requires n <= |inputs|
  {
    if n == 0 then map[]
    else Funds(inputs, n - 1)[inputs[n - 1].prev := UtxoEntry(FundOf(n - 1), inputs[n - 1].signer, 0, false)]
  }

  ghost function FundOf(i: nat): u64 { if i == 0 then U64_MAX else 0 }

  lemma {:induction false} FundsMeaning(inputs: seq<TxInput>, n: nat)
    requires n <= |inputs| && DistinctPrevs(inputs, n)
    ensures Funds(inputs, n).Keys == Prevs(inputs, n) && Total(Funds(inputs, n)) == if n == 0 then 0 else U64_MAX
    ensures forall i :: 0 <= i < n ==>
              && inputs[i].prev in Funds(inputs, n)
              && Funds(inputs, n)[inputs[i].prev] == UtxoEntry(FundOf(i), inputs[i].signer, 0, false)
  {
    if n > 0 {
      FundsMeaning(inputs, n - 1);
      PrevsMeaning(inputs, n - 1);
      TotalInsert(Funds(inputs, n - 1), inputs[n - 1].prev, UtxoEntry(FundOf(n - 1), inputs[n - 1].signer, 0, false));
    }
  }

  lemma {:induction false} FundsSum(u: Utxos, inputs: seq<TxInput>, n: nat)
    requires n <= |inputs|
    requires forall i :: 0 <= i < n ==> inputs[i].prev in u && u[inputs[i].prev].amount == FundOf(i)
    ensures InSum(u, map[], inputs, n) == if n == 0 then 0 else U64_MAX
  {
    if n > 0 {
      FundsSum(u, inputs, n - 1);
    }
  }

  lemma LargeTransferBreaks(tx: Transaction)
    requires !tx.isCoinbase && tx.signaturesOk && tx.inputs != [] && DistinctPrevs(tx.inputs, |tx.inputs|)
    requires TxOut(tx) > U64_MAX && AllBurned(tx) < TxOut(tx)
    ensures exists s: State, subsidy: u64 :: Breaks(s, OneTransfer(tx), subsidy)
  {
    var n, b := |tx.inputs|, OneTransfer(tx);
    var s := State(Funds(tx.inputs, n), 0);
    FundsMeaning(tx.inputs, n);
    FundsSum(s.utxos, tx.inputs, n);
    OneTransferSums(s.utxos, tx);
    LargeTransferAccepted(tx, s.utxos);
    assert Worth(ApplyAll(s, b).state) > U64_MAX by {
      hide Acceptable, InSum, Total, AddOutputs, SpendInputs, Funds;
      var txs := b.transactions;
      assert ApplyTx(s, txs[0], 1) == Applied(s, Some([])) by {
        NothingApplied(s, txs[0]);
      }
      assert ApplyTxs(s, txs, 0, 1) == Applied(s, Some([]));
      assert ApplyTxs(s, txs, 1, 1).state == s && ApplyTxs(s, txs, 1, 1).undo.Some?;
      SpendMeaning(s.utxos, tx.inputs, n);
      var q := Spent(s, tx);
      assert q.utxos == map[];
      EmptyTotal();
      AddTotal(q, tx, |tx.outputs|, 1);
      AddOutputsMeaning(q, tx, |tx.outputs|, 1);
      assert ApplyAll(s, b).state == AddOutputs(q, tx, |tx.outputs|, 1);
    }
    assert Breaks(s, b, 0);
  }

  lemma EmptyTotal()
    ensures Total(map[]) == 0
  {
  }

  lemma NothingApplied(s: State, cb: Transaction)
    requires cb.inputs == [] && cb.outputs == []
    ensures ApplyTx(s, cb, 1) == Applied(s, Some([]))
  {
  }

  lemma LargeTransferAccepted(tx: Transaction, u: Utxos)
    requires !tx.isCoinbase && tx.signaturesOk && DistinctPrevs(tx.inputs, |tx.inputs|)
    requires forall i :: 0 <= i < |tx.inputs| ==>
               && tx.inputs[i].prev in u
               && u[tx.inputs[i].prev] == UtxoEntry(FundOf(i), tx.inputs[i].signer, 0, false)
    requires InSum(u, map[], tx.inputs, |tx.inputs|) == U64_MAX
    ensures Acceptable(u, OneTransfer(tx), 0)
  {
    hide InSum, TxOut, InputsOk;
    var txs := OneTransfer(tx).transactions;
    OneTransferSums(u, tx);
    InputsOkMeaning(u, map[], {}, tx.inputs, |tx.inputs|, 1);
    assert TransferOk(u, txs, 1, 1);
    assert TxsOk(u, txs, 0, 1) && TxsOk(u, txs, 1, 1) && TxsOk(u, txs, 2, 1);
  }

  /**
   The word-size hypothesis is needed: here the sums of a coinbase and of a fee both saturate, the block is
   accepted, and value grows by far more than the subsidy of 1.
   */
  lemma SaturatedSumsBreakConservation()
    ensures exists b: Block ::
              && Acceptable(map[], b, 1) && Fresh(map[], b.transactions) && !OutputsFit(b.transactions)
              && Worth(ApplyAll(EMPTY, b).state) == U64_MAX + 1
  {
    var cb := Transaction(1, true, true, [], [Standard(1, U64_MAX), Standard(1, U64_MAX)]);
    var tx := Transaction(2, false, true, [TxInput(OutPoint(1, 0), 1)], [Standard(1, 1)]);
    var b := Block(1, [], 1, 0, 0, 0, true, [cb, tx]);
    SaturatedBlockIsAcceptable(b, cb, tx);
    AcceptableApplies(EMPTY, b.transactions, 2, 1);
    Flow(EMPTY, b.transactions, 2, 1);
    ApplyTxsBurned(EMPTY, b.transactions, 2, 1);
  }

  lemma SaturatedBlockIsAcceptable(b: Block, cb: Transaction, tx: Transaction)
    requires cb == Transaction(1, true, true, [], [Standard(1, U64_MAX), Standard(1, U64_MAX)])
    requires tx == Transaction(2, false, true, [TxInput(OutPoint(1, 0), 1)], [Standard(1, 1)])
    requires b == Block(1, [], 1, 0, 0, 0, true, [cb, tx])
    ensures Acceptable(map[], b, 1) && Fresh(map[], b.transactions)
    ensures TxOut(cb) == 2 * U64_MAX && !OutputsFit(b.transactions)
    ensures InTotal(map[], b.transactions, 2) == U64_MAX && OutTotal(b.transactions, 2) == 2 * U64_MAX + 1
    ensures BurnedTxs(b.transactions, 2) == 0 && Total(map[]) == 0
  {
    var txs := b.transactions;
    var o := OutPoint(1, 0);
    assert OutSum(cb.outputs, 1) == U64_MAX && OutSum(tx.outputs, 1) == 1;
    var made := CoinsOf(txs, 1);
    assert CoinsOf(txs, 0) == map[];
    assert AddCoins(map[], cb, 1) == map[o := Coin(U64_MAX, 1)];
    assert made == map[o := Coin(U64_MAX, 1), OutPoint(1, 1) := Coin(U64_MAX, 1)];
    assert Lookup(map[], made, o) == Some(Coin(U64_MAX, 1));
    assert SpentBy(txs, 0) == {} && AllSpent(cb) == {} && SpentBy(txs, 1) == {};
    assert Prevs(tx.inputs, 0) == {} && InputsOk(map[], made, {}, tx.inputs, 0, 1);
    assert InSum(map[], made, tx.inputs, 0) == 0;
    assert TxIn(map[], txs, 1) == U64_MAX && TxIn(map[], txs, 0) == 0;
    assert TransferOk(map[], txs, 1, 1);
    assert Fees(map[], txs, 0) == 0 && Fees(map[], txs, 1) == 0 && Fees(map[], txs, 2) == U64_MAX - 1;
    assert TxsOk(map[], txs, 0, 1) && TxsOk(map[], txs, 1, 1);
    assert InTotal(map[], txs, 0) == 0 && OutTotal(txs, 0) == 0 && BurnedTxs(txs, 0) == 0;
    assert OutTotal(txs, 1) == 2 * U64_MAX;
    NothingBurned(cb.outputs, 2);
    NothingBurned(tx.outputs, 1);
    assert BurnedTxs(txs, 1) == 0;
  }

  lemma {:induction false} NothingBurned(outputs: seq<TxOutput>, n: nat)
    requires n <= |outputs| && forall i :: 0 <= i < n ==> outputs[i].Standard?
    ensures Burned(outputs, n) == 0
  {
    if n > 0 {
      NothingBurned(outputs, n - 1);
    }
  }

  // ----- merged coinbases are extra value

  ghost function CreditedBy(u: Utxos, cb: Transaction, n: nat, height: u64): nat
    requires n <= |cb.outputs|
  {
    if n == 0 then 0
    else
      CreditedBy(u, cb, n - 1, height)
      + if cb.outputs[n - 1].Standard? && OutPoint(cb.txid, n - 1) !in Credit(u, cb, n - 1, height).0
        then cb.outputs[n - 1].amount else 0
  }

  /** What the first `n` of `merges` add to the set: outputs already present are not paid again. */
  ghost function MergeCredit(u: Utxos, merges: seq<Block>, n: nat): nat
    requires n <= |merges|
  {
    if n == 0 then 0
    else
      var b := merges[n - 1];
      MergeCredit(u, merges, n - 1)
      + if HasCoinbase(b)
        then CreditedBy(CreditAll(u, merges, n - 1).0, b.transactions[0], |b.transactions[0].outputs|, b.blueScore)
        else 0
  }

  lemma {:induction false} CreditTotal(u: Utxos, cb: Transaction, n: nat, height: u64)
    requires n <= |cb.outputs|
    ensures Total(Credit(u, cb, n, height).0) == Total(u) + CreditedBy(u, cb, n, height)
  {
    if n > 0 {
      CreditTotal(u, cb, n - 1, height);
      var v := Credit(u, cb, n - 1, height).0;
      var o := OutPoint(cb.txid, n - 1);
      if cb.outputs[n - 1].Standard? && o !in v {
        TotalInsert(v, o, NewEntry(cb, n - 1, height).(isCoinbase := true));
      }
    }
  }

  lemma {:induction false} MergeTotal(u: Utxos, merges: seq<Block>, n: nat)
    requires n <= |merges|
    ensures Total(CreditAll(u, merges, n).0) == Total(u) + MergeCredit(u, merges, n)
  {
    if n > 0 {
      MergeTotal(u, merges, n - 1);
      var b := merges[n - 1];
      if HasCoinbase(b) {
        CreditTotal(CreditAll(u, merges, n - 1).0, b.transactions[0], |b.transactions[0].outputs|, b.blueScore);
      }
    }
  }
}
