/**
 Transaction validation against a UTXO set (crates/zentrad/src/node.rs:989-1066): the scanning loop
 accepts exactly the acceptable blocks, and an acceptable block always applies.
 */
module Validation {
  import opened Types
  import opened Ledger
  import opened UtxoSets
  import opened Undo

  const COINBASE_MATURITY: u64 := 10

  /** Value and owner of an output made earlier in the block being validated. */
  datatype Coin = Coin(amount: u64, owner: Address)

  type Coins = map<OutPoint, Coin>

  ghost function AddCoins(made: Coins, tx: Transaction, n: nat): Coins
    requires n <= |tx.outputs|
  {
    if n == 0 then made
    else
      var p := AddCoins(made, tx, n - 1);
      var out := tx.outputs[n - 1];
      if out.Standard? then p[OutPoint(tx.txid, n - 1) := Coin(out.amount, out.address)] else p
  }

  /** The coins that the first `n` transactions make. */
  ghost function CoinsOf(txs: seq<Transaction>, n: nat): Coins
    requires n <= |txs|
  {
    if n == 0 then map[] else AddCoins(CoinsOf(txs, n - 1), txs[n - 1], |txs[n - 1].outputs|)
  }

  /** The set before the block comes first, then what the block made so far. */
  ghost function Lookup(u: Utxos, made: Coins, o: OutPoint): Option<Coin> {
    if o in u then Some(Coin(u[o].amount, u[o].address))
    else if o in made then Some(made[o])
    else None
  }

  ghost predicate Mature(u: Utxos, o: OutPoint, height: u64) {
    o in u && u[o].isCoinbase ==> height >= Cap64(u[o].blockHeight + COINBASE_MATURITY)
  }

  ghost function InSum(u: Utxos, made: Coins, inputs: seq<TxInput>, n: nat): nat
    requires n <= |inputs|
  {
    if n == 0 then 0
    else
      var c := Lookup(u, made, inputs[n - 1].prev);
      InSum(u, made, inputs, n - 1) + if c.Some? then c.value.amount else 0
  }

  ghost predicate InputOk(u: Utxos, made: Coins, inp: TxInput, height: u64) {
    var c := Lookup(u, made, inp.prev);
    c.Some? && c.value.owner == inp.signer && Mature(u, inp.prev, height)
  }

  /**
   The rule for one input, field by field: an entry of the set is the signer's, and if a coinbase ten scores old,
   and anything else is a coin of the signer's that the block made. No operation is defined by this.
   */
  ghost predicate MaySpend(u: Utxos, made: Coins, inp: TxInput, height: u64) {
    if inp.prev in u then
      && u[inp.prev].address == inp.signer
      && (u[inp.prev].isCoinbase ==> height >= Min(u[inp.prev].blockHeight + 10, 0xFFFF_FFFF_FFFF_FFFF))
    else inp.prev in made && made[inp.prev].owner == inp.signer
  }

  ghost predicate AllMaySpend(u: Utxos, made: Coins, spent: set<OutPoint>, inputs: seq<TxInput>, height: u64) {
    && (forall i :: 0 <= i < |inputs| ==> inputs[i].prev !in spent && MaySpend(u, made, inputs[i], height))
    && (forall i, k :: 0 <= i < k < |inputs| ==> inputs[i].prev != inputs[k].prev)
  }

  /** Every input is found, owned and mature, and none was spent before, by the block or by this transaction. */
  ghost predicate InputsOk(u: Utxos, made: Coins, spent: set<OutPoint>, inputs: seq<TxInput>, n: nat, height: u64)
    requires n <= |inputs|
  {
    n == 0
    || (&& InputsOk(u, made, spent, inputs, n - 1, height)
        && inputs[n - 1].prev !in spent + Prevs(inputs, n - 1)
        && InputOk(u, made, inputs[n - 1], height))
  }

  /** What transaction `i` takes from the set and from the block's own earlier outputs. */
  ghost function TxIn(u: Utxos, txs: seq<Transaction>, i: nat): nat
    requires i < |txs|
  {
    InSum(u, CoinsOf(txs, i), txs[i].inputs, SpendCount(txs[i]))
  }

  ghost function TxOut(tx: Transaction): nat { OutSum(tx.outputs, |tx.outputs|) }

  ghost predicate TransferOk(u: Utxos, txs: seq<Transaction>, i: nat, height: u64)
    requires i < |txs|
  {
    var tx := txs[i];
    && tx.signaturesOk
    && InputsOk(u, CoinsOf(txs, i), SpentBy(txs, i), tx.inputs, |tx.inputs|, height)
    && Cap64(TxOut(tx)) <= Cap64(TxIn(u, txs, i))
  }

  /** A coinbase first and nowhere else, and every transfer fine after those before it. */
  ghost predicate TxsOk(u: Utxos, txs: seq<Transaction>, n: nat, height: u64)
    requires n <= |txs|
  {
    n == 0
    || (&& TxsOk(u, txs, n - 1, height)
        && (txs[n - 1].isCoinbase <==> n == 1)
        && (n > 1 ==> TransferOk(u, txs, n - 1, height)))
  }

  /** What transaction `i` leaves for the miner, as the saturated sums show it. */
  ghost function Fee(u: Utxos, txs: seq<Transaction>, i: nat): nat
    requires i < |txs|
  {
    if txs[i].isCoinbase then 0 else Max(Cap64(TxIn(u, txs, i)) - Cap64(TxOut(txs[i])), 0)
  }

  ghost function Fees(u: Utxos, txs: seq<Transaction>, n: nat): nat
    requires n <= |txs|
  {
    if n == 0 then 0 else Fees(u, txs, n - 1) + Fee(u, txs, n - 1)
  }

  ghost predicate CoinbaseOk(u: Utxos, txs: seq<Transaction>, subsidy: u64) {
    txs != [] ==> Cap64(TxOut(txs[0])) <= Cap64(subsidy + Cap64(Fees(u, txs, |txs|)))
  }

  /** The transaction rules listed at node.rs:794-801. */
  ghost predicate Acceptable(u: Utxos, b: Block, subsidy: u64) {
    && b.merkleOk
    && TxsOk(u, b.transactions, |b.transactions|, b.blueScore)
    && CoinbaseOk(u, b.transactions, subsidy)
  }

  datatype InputFault = DoubleSpend | Immature | NotFound | NotOwner

  datatype Reject =
    | MerkleMismatch
    | FirstNotCoinbase
    | ExtraCoinbase(i: nat)
    | BadSignature(i: nat)
    | BadInput(i: nat, j: nat, fault: InputFault)
    | Overspend(i: nat)
    | CoinbaseTooLarge

  ghost predicate FaultAt(u: Utxos, made: Coins, spent: set<OutPoint>, inputs: seq<TxInput>, j: nat,
                          fault: InputFault, height: u64)
  {
    && j < |inputs|
    && var c := Lookup(u, made, inputs[j].prev);
       match fault
       case DoubleSpend => inputs[j].prev in spent + Prevs(inputs, j)
       case Immature => !Mature(u, inputs[j].prev, height)
       case NotFound => c.None?
       case NotOwner => c.Some? && c.value.owner != inputs[j].signer
  }

  /** Each reported reason names a rule that the block really breaks. */
  ghost predicate Justified(u: Utxos, b: Block, subsidy: u64, r: Reject) {
    var txs := b.transactions;
    match r
    case MerkleMismatch => !b.merkleOk
    case FirstNotCoinbase => txs != [] && !txs[0].isCoinbase
    case ExtraCoinbase(i) => 0 < i < |txs| && txs[i].isCoinbase
    case BadSignature(i) => 0 < i < |txs| && !txs[i].signaturesOk
    case BadInput(i, j, fault) =>
      0 < i < |txs| && FaultAt(u, CoinsOf(txs, i), SpentBy(txs, i), txs[i].inputs, j, fault, b.blueScore)
    case Overspend(i) => 0 < i < |txs| && Cap64(TxOut(txs[i])) > Cap64(TxIn(u, txs, i))
    case CoinbaseTooLarge => !CoinbaseOk(u, txs, subsidy)
  }

  /** What each fault says of the input, field by field. */
  lemma FaultFields(u: Utxos, made: Coins, spent: set<OutPoint>, inputs: seq<TxInput>, j: nat, height: u64)
    requires j < |inputs|
    ensures var o, who := inputs[j].prev, inputs[j].signer;
            && (FaultAt(u, made, spent, inputs, j, DoubleSpend, height)
                <==> o in spent || exists i :: 0 <= i < j && inputs[i].prev == o)
            && (FaultAt(u, made, spent, inputs, j, Immature, height)
                <==> o in u && u[o].isCoinbase && height < Min(u[o].blockHeight + 10, 0xFFFF_FFFF_FFFF_FFFF))
            && (FaultAt(u, made, spent, inputs, j, NotFound, height) <==> o !in u && o !in made)
            && (FaultAt(u, made, spent, inputs, j, NotOwner, height)
                <==> if o in u then u[o].address != who else o in made && made[o].owner != who)
  {
    PrevsMeaning(inputs, j);
  }

  /** The saturating fold over output amounts, both kinds of output counted. */
  method SumOutputs(tx: Transaction) returns (sum: u64)
    ensures sum == Cap64(TxOut(tx))
  {
    sum := 0;
    for k := 0 to |tx.outputs|
      invariant sum == Cap64(OutSum(tx.outputs, k))
    {
      sum := Cap64(sum + tx.outputs[k].amount);
    }
  }

  /** The inner loop of the scan; on success `spent` has grown by the inputs' outpoints. */
  method ScanInputs(u: Utxos, made: Coins, spentBefore: set<OutPoint>, inputs: seq<TxInput>, height: u64)
    returns (fault: Option<InputFault>, j: nat, spent: set<OutPoint>, inSum: u64)
    ensures fault.None? <==> InputsOk(u, made, spentBefore, inputs, |inputs|, height)
    ensures fault.None? <==> AllMaySpend(u, made, spentBefore, inputs, height)
    ensures fault.None? ==> spent == spentBefore + Prevs(inputs, |inputs|)
    ensures fault.None? ==> inSum == Cap64(InSum(u, made, inputs, |inputs|))
    ensures fault.Some? ==> FaultAt(u, made, spentBefore, inputs, j, fault.value, height)
  {
    hide AllMaySpend;
    AllInputsOk(u, made, spentBefore, inputs, height);
    spent, inSum, j := spentBefore, 0, 0;
    while j < |inputs|
      invariant j <= |inputs|
      invariant InputsOk(u, made, spentBefore, inputs, j, height)
      invariant spent == spentBefore + Prevs(inputs, j)
      invariant inSum == Cap64(InSum(u, made, inputs, j))
    {
      var inp := inputs[j];
      var o := inp.prev;
      if !InputsOk(u, made, spentBefore, inputs, j + 1, height) {
        BadInputStays(u, made, spentBefore, inputs, j + 1, |inputs|, height);
      }
      if o in spent {
        return Some(DoubleSpend), j, spent, inSum;
      }
      var coin;
      if o in u {
        var e := u[o];
        if e.isCoinbase && height < Cap64(e.blockHeight + COINBASE_MATURITY) {
          return Some(Immature), j, spent, inSum;
        }
        coin := Coin(e.amount, e.address);
      } else if o in made {
        coin := made[o];
      } else {
        return Some(NotFound), j, spent, inSum;
      }
      if inp.signer != coin.owner {
        return Some(NotOwner), j, spent, inSum;
      }
      inSum := Cap64(inSum + coin.amount);
      spent := spent + {o};
      j := j + 1;
    }
    return None, j, spent, inSum;
  }

  lemma {:induction false} BadInputStays(u: Utxos, made: Coins, spent: set<OutPoint>, inputs: seq<TxInput>,
                                         n: nat, m: nat, height: u64)
    requires n <= m <= |inputs| && !InputsOk(u, made, spent, inputs, n, height)
    ensures !InputsOk(u, made, spent, inputs, m, height)
  {
    if n < m {
      BadInputStays(u, made, spent, inputs, n, m - 1, height);
    }
  }

  lemma {:induction false} BadTxStays(u: Utxos, txs: seq<Transaction>, n: nat, m: nat, height: u64)
    requires n <= m <= |txs| && !TxsOk(u, txs, n, height)
    ensures !TxsOk(u, txs, m, height)
  {
    if n < m {
      BadTxStays(u, txs, n, m - 1, height);
    }
  }

  /** The same rule about inputs, said about all of them at once and field by field. */
  lemma {:induction false} InputsOkMeaning(u: Utxos, made: Coins, spent: set<OutPoint>, inputs: seq<TxInput>,
                                           n: nat, height: u64)
    requires n <= |inputs|
    ensures InputsOk(u, made, spent, inputs, n, height)
       <==> (&& DistinctPrevs(inputs, n) && Prevs(inputs, n) !! spent
             && forall i :: 0 <= i < n ==> MaySpend(u, made, inputs[i], height))
  {
    if n > 0 {
      InputsOkMeaning(u, made, spent, inputs, n - 1, height);
      PrevsMeaning(inputs, n - 1);
    }
  }

  lemma AllInputsOk(u: Utxos, made: Coins, spent: set<OutPoint>, inputs: seq<TxInput>, height: u64)
    ensures InputsOk(u, made, spent, inputs, |inputs|, height) <==> AllMaySpend(u, made, spent, inputs, height)
  {
    hide MaySpend, InputsOk;
    InputsOkMeaning(u, made, spent, inputs, |inputs|, height);
    PrevsMeaning(inputs, |inputs|);
  }

  // ----- the rules, field by field

  lemma {:induction false} AddCoinsMeaning(made: Coins, tx: Transaction, n: nat)
    requires n <= |tx.outputs|
    ensures var r := AddCoins(made, tx, n);
            && r.Keys == made.Keys + Created(tx, n)
            && (forall o :: o in made && o !in Created(tx, n) ==> r[o] == made[o])
            && (forall o :: o in Created(tx, n) ==>
                  && o.index < n && tx.outputs[o.index].Standard?
                  && r[o] == Coin(tx.outputs[o.index].amount, tx.outputs[o.index].address))
  {
    if n > 0 {
      AddCoinsMeaning(made, tx, n - 1);
    }
  }

  /** Of the first `n` transactions the last one that has an output named `o`. */
  ghost predicate LastToMake(txs: seq<Transaction>, n: nat, k: int, o: OutPoint)
    requires n <= |txs|
  {
    0 <= k < n && Makes(txs[k], o) && forall l :: k < l < n ==> !Makes(txs[l], o)
  }

  /** The block's own outputs, as the scan knows them. */
  lemma {:induction false} CoinsMeaning(txs: seq<Transaction>, n: nat, o: OutPoint)
    requires n <= |txs|
    ensures o in CoinsOf(txs, n) <==> exists k :: LastToMake(txs, n, k, o)
    ensures forall k :: LastToMake(txs, n, k, o) ==>
              o in CoinsOf(txs, n)
              && CoinsOf(txs, n)[o] == Coin(txs[k].outputs[o.index].amount, txs[k].outputs[o.index].address)
  {
    if n > 0 {
      hide Makes, AddCoins, Created;
      var tx := txs[n - 1];
      CoinsMeaning(txs, n - 1, o);
      AddCoinsMeaning(CoinsOf(txs, n - 1), tx, |tx.outputs|);
      CreatedMeaning(tx, |tx.outputs|);
      IndexInside(tx, o);
      if Makes(tx, o) {
        assert LastToMake(txs, n, n - 1, o);
      } else {
        var m := n - 1;
        assert forall k :: LastToMake(txs, n, k, o) <==> LastToMake(txs, m, k, o);
        if k :| LastToMake(txs, m, k, o) {
          assert LastToMake(txs, n, k, o);
        }
      }
    }
  }

  lemma IndexInside(tx: Transaction, o: OutPoint)
    ensures Makes(tx, o) ==> o.index < |tx.outputs| && tx.outputs[o.index].Standard?
  {
  }

  /**
   An input of transaction `i`: an entry of the set is the signer's, and if a coinbase at least ten scores old;
   anything else is an output of the last earlier transaction of the block with that name, and the signer's.
   */
  ghost predicate SourceRule(u: Utxos, txs: seq<Transaction>, i: nat, inp: TxInput, height: u64)
    requires i < |txs|
  {
    var o := inp.prev;
    if o in u then
      && u[o].address == inp.signer
      && (u[o].isCoinbase ==> height >= Min(u[o].blockHeight + 10, 0xFFFF_FFFF_FFFF_FFFF))
    else
      exists k :: LastToMake(txs, i, k, o) && txs[k].outputs[o.index].address == inp.signer
  }

  /** No outpoint twice, in this transaction or in one after the coinbase and before it. */
  ghost predicate SpendsOnce(txs: seq<Transaction>, i: nat)
    requires i < |txs|
  {
    && (forall j, l :: 0 <= j < l < |txs[i].inputs| ==> txs[i].inputs[j].prev != txs[i].inputs[l].prev)
    && (forall k, j, l :: 0 < k < i && 0 <= j < |txs[k].inputs| && 0 <= l < |txs[i].inputs| ==>
          txs[k].inputs[j].prev != txs[i].inputs[l].prev)
  }

  ghost predicate TransferRule(u: Utxos, txs: seq<Transaction>, i: nat, height: u64)
    requires i < |txs|
  {
    && txs[i].signaturesOk && SpendsOnce(txs, i)
    && (forall j :: 0 <= j < |txs[i].inputs| ==> SourceRule(u, txs, i, txs[i].inputs[j], height))
    && Cap64(TxOut(txs[i])) <= Cap64(TxIn(u, txs, i))
  }

  /** The rules that a block has to follow. */
  ghost predicate FollowsRules(u: Utxos, b: Block, subsidy: u64) {
    var txs := b.transactions;
    && b.merkleOk
    && (forall i :: 0 <= i < |txs| ==> (txs[i].isCoinbase <==> i == 0))
    && (forall i :: 0 < i < |txs| ==> TransferRule(u, txs, i, b.blueScore))
    && CoinbaseOk(u, txs, subsidy)
  }

  lemma {:induction false} SpentByMeaning(txs: seq<Transaction>, n: nat, o: OutPoint)
    requires n <= |txs| && forall k :: 0 <= k < n ==> (txs[k].isCoinbase <==> k == 0)
    ensures o in SpentBy(txs, n)
       <==> exists k, j :: 0 < k < n && 0 <= j < |txs[k].inputs| && txs[k].inputs[j].prev == o
  {
    if n > 0 {
      SpentByMeaning(txs, n - 1, o);
      PrevsMeaning(txs[n - 1].inputs, SpendCount(txs[n - 1]));
    }
  }

  lemma SourceIff(u: Utxos, txs: seq<Transaction>, i: nat, inp: TxInput, height: u64)
    requires i < |txs|
    ensures MaySpend(u, CoinsOf(txs, i), inp, height) <==> SourceRule(u, txs, i, inp, height)
  {
    hide LastToMake, CoinsOf;
    CoinsMeaning(txs, i, inp.prev);
  }

  lemma TransferIff(u: Utxos, txs: seq<Transaction>, i: nat, height: u64)
    requires 0 < i < |txs| && forall k :: 0 <= k <= i ==> (txs[k].isCoinbase <==> k == 0)
    ensures TransferOk(u, txs, i, height) <==> TransferRule(u, txs, i, height)
  {
    hide SourceRule, MaySpend, CoinsOf, SpentBy, InputsOk, TxOut, TxIn;
    var inputs := txs[i].inputs;
    AllInputsOk(u, CoinsOf(txs, i), SpentBy(txs, i), inputs, height);
    forall j | 0 <= j < |inputs|
      ensures MaySpend(u, CoinsOf(txs, i), inputs[j], height) <==> SourceRule(u, txs, i, inputs[j], height)
      ensures inputs[j].prev in SpentBy(txs, i)
         <==> exists k, l :: 0 < k < i && 0 <= l < |txs[k].inputs| && txs[k].inputs[l].prev == inputs[j].prev
    {
      SourceIff(u, txs, i, inputs[j], height);
      SpentByMeaning(txs, i, inputs[j].prev);
    }
  }

  lemma {:induction false} TxsIff(u: Utxos, txs: seq<Transaction>, n: nat, height: u64)
    requires n <= |txs|
    ensures TxsOk(u, txs, n, height)
       <==> (&& (forall i :: 0 <= i < n ==> (txs[i].isCoinbase <==> i == 0))
             && forall i :: 0 < i < n ==> TransferRule(u, txs, i, height))
  {
    hide TransferOk, TransferRule;
    if n > 0 {
      TxsIff(u, txs, n - 1, height);
      if n > 1 && forall k :: 0 <= k < n ==> (txs[k].isCoinbase <==> k == 0) {
        TransferIff(u, txs, n - 1, height);
      }
    }
  }

  /** Main theorem: the blocks that the scan accepts are exactly those that follow the rules. */
  lemma AcceptableIff(u: Utxos, b: Block, subsidy: u64)
    ensures Acceptable(u, b, subsidy) <==> FollowsRules(u, b, subsidy)
  {
    hide TransferRule, TxsOk;
    TxsIff(u, b.transactions, |b.transactions|, b.blueScore);
  }

  method RecordOutputs(made: Coins, tx: Transaction) returns (r: Coins)
    ensures r == AddCoins(made, tx, |tx.outputs|)
  {
    r := made;
    for k := 0 to |tx.outputs|
      invariant r == AddCoins(made, tx, k)
    {
      if tx.outputs[k].Standard? {
        r := r[OutPoint(tx.txid, k) := Coin(tx.outputs[k].amount, tx.outputs[k].address)];
      }
    }
  }

  /** A reported reason is a rule that the block breaks. */
  lemma JustifiedIsBroken(u: Utxos, b: Block, subsidy: u64, r: Reject)
    requires Justified(u, b, subsidy, r)
    ensures !FollowsRules(u, b, subsidy)
    ensures match r
            case MerkleMismatch => !b.merkleOk
            case FirstNotCoinbase => b.transactions != [] && !b.transactions[0].isCoinbase
            case ExtraCoinbase(i) => 0 < i < |b.transactions| && b.transactions[i].isCoinbase
            case BadSignature(i) => 0 < i < |b.transactions| && !b.transactions[i].signaturesOk
            case BadInput(i, j, _) => 0 < i < |b.transactions| && j < |b.transactions[i].inputs|
            case Overspend(i) => 0 < i < |b.transactions|
            case CoinbaseTooLarge => !CoinbaseOk(u, b.transactions, subsidy)
  {
    var txs := b.transactions;
    match r {
      case BadSignature(i) => {
        assert !TransferRule(u, txs, i, b.blueScore);
      }
      case BadInput(i, j, fault) => {
        FaultBreaks(u, CoinsOf(txs, i), SpentBy(txs, i), txs[i].inputs, j, fault, b.blueScore);
        if forall k :: 0 <= k <= i ==> (txs[k].isCoinbase <==> k == 0) {
          TransferIff(u, txs, i, b.blueScore);
          assert !TransferRule(u, txs, i, b.blueScore);
        }
      }
      case Overspend(i) => {
        assert !TransferRule(u, txs, i, b.blueScore);
      }
      case _ => {
      }
    }
  }

  lemma FaultBreaks(u: Utxos, made: Coins, spent: set<OutPoint>, inputs: seq<TxInput>, j: nat, fault: InputFault,
                    height: u64)
    requires FaultAt(u, made, spent, inputs, j, fault, height)
    ensures !InputsOk(u, made, spent, inputs, |inputs|, height)
  {
    AllInputsOk(u, made, spent, inputs, height);
    FaultFields(u, made, spent, inputs, j, height);
  }

  lemma SpentNext(txs: seq<Transaction>, i: nat)
    requires i < |txs|
    ensures SpentBy(txs, i + 1)
         == SpentBy(txs, i) + if txs[i].isCoinbase then {} else Prevs(txs[i].inputs, |txs[i].inputs|)
  {
  }

  method ValidateBlockTransactions(block: Block, utxo: UtxoSet, subsidy: u64) returns (err: Option<Reject>)
    ensures err.None? <==> Acceptable(utxo.utxos, block, subsidy)
    ensures err.None? <==> FollowsRules(utxo.utxos, block, subsidy)
    ensures err.Some? ==> Justified(utxo.utxos, block, subsidy, err.value)
  {
    hide FollowsRules, Lookup, Mature, FaultAt, AddCoins, Prevs, AllSpent;
    AcceptableIff(utxo.utxos, block, subsidy);
    if !block.merkleOk {
      return Some(MerkleMismatch);
    }
    var txs, u, height := block.transactions, utxo.utxos, block.blueScore;
    var spent, made, totalFees: u64, i := {}, map[], 0, 0;
    while i < |txs|
      invariant 0 <= i <= |txs|
      invariant spent == SpentBy(txs, i) && made == CoinsOf(txs, i) && totalFees == Cap64(Fees(u, txs, i))
      invariant TxsOk(u, txs, i, height)
      invariant i > 0 ==> txs[0].isCoinbase
    {
      var tx := txs[i];
      if !TxsOk(u, txs, i + 1, height) {
        BadTxStays(u, txs, i + 1, |txs|, height);
      }
      if i == 0 && !tx.isCoinbase { return Some(FirstNotCoinbase); }
      if i > 0 && tx.isCoinbase { return Some(ExtraCoinbase(i)); }
      if !tx.isCoinbase {
        if !tx.signaturesOk { return Some(BadSignature(i)); }
        var fault, j, nowSpent, inSum := ScanInputs(u, made, spent, tx.inputs, height);
        if fault.Some? { return Some(BadInput(i, j, fault.value)); }
        var outSum := SumOutputs(tx);
        if outSum > inSum { return Some(Overspend(i)); }
        totalFees := Cap64(totalFees + (inSum - outSum));
        spent := nowSpent;
      }
      made := RecordOutputs(made, tx);
      SpentNext(txs, i);
      i := i + 1;
    }
    if txs != [] && txs[0].isCoinbase {
      var cbOut := SumOutputs(txs[0]);
      var cap := Cap64(subsidy + totalFees);
      if cbOut > cap {
        return Some(CoinbaseTooLarge);
      }
    }
    return None;
  }

  // ----- an acceptable block applies

  lemma {:induction false} CoinsKeys(txs: seq<Transaction>, n: nat)
    requires n <= |txs|
    ensures CoinsOf(txs, n).Keys == CreatedBy(txs, n)
  {
    if n > 0 {
      CoinsKeys(txs, n - 1);
      AddCoinsMeaning(CoinsOf(txs, n - 1), txs[n - 1], |txs[n - 1].outputs|);
    }
  }

  lemma {:induction false} InputsArePresent(u: Utxos, txs: seq<Transaction>, i: nat, height: u64, now: Utxos)
    requires i < |txs| && (i > 0 ==> TransferOk(u, txs, i, height)) && (txs[i].isCoinbase <==> i == 0)
    requires u.Keys + CreatedBy(txs, i) - SpentBy(txs, i) <= now.Keys
    ensures DistinctPrevs(txs[i].inputs, SpendCount(txs[i])) && AllSpent(txs[i]) <= now.Keys
  {
    var inputs := txs[i].inputs;
    if i > 0 {
      InputsOkMeaning(u, CoinsOf(txs, i), SpentBy(txs, i), inputs, |inputs|, height);
      PrevsMeaning(inputs, |inputs|);
      CoinsKeys(txs, i);
    }
  }

  /**
   The scan's bookkeeping never hides an output from the evolving set: whatever is in the old set
   or made by the block, and not spent yet, is there.  So no input is ever missing.
   */
  lemma {:induction false} AcceptableApplies(s: State, txs: seq<Transaction>, n: nat, height: u64)
    requires n <= |txs| && TxsOk(s.utxos, txs, n, height)
    ensures var a := ApplyTxs(s, txs, n, height);
            && a.undo.Some?
            && s.utxos.Keys + CreatedBy(txs, n) - SpentBy(txs, n) <= a.state.utxos.Keys
  {
    if n > 0 {
      AcceptableApplies(s, txs, n - 1, height);
      var p := ApplyTxs(s, txs, n - 1, height).state;
      InputsArePresent(s.utxos, txs, n - 1, height, p.utxos);
      ApplyTxMeaning(p, txs[n - 1], height);
    }
  }

  /** Validation implies applicability, for every set and block, fresh names or not. */
  lemma {:induction false} ValidatedBlockNeverFails(s: State, b: Block, merges: seq<Block>, subsidy: u64)
    requires Acceptable(s.utxos, b, subsidy)
    ensures Connect(s, b, merges).undo.Some?
  {
    AcceptableApplies(s, b.transactions, |b.transactions|, b.blueScore);
  }

  /** Maturity is asked of entries of the set only: a block may spend its own coinbase at once. */
  lemma OwnCoinbaseIsSpendable()
    ensures var o := OutPoint(7, 0);
            var cb := Transaction(7, true, true, [], [Standard(1, 5)]);
            var tx := Transaction(8, false, true, [TxInput(o, 1)], [Standard(2, 5)]);
            Acceptable(map[], Block(2, [], 1, 0, 0, 0, true, [cb, tx]), 5)
  {
    var o := OutPoint(7, 0);
    var cb := Transaction(7, true, true, [], [Standard(1, 5)]);
    var tx := Transaction(8, false, true, [TxInput(o, 1)], [Standard(2, 5)]);
    var txs := [cb, tx];
    assert CoinsOf(txs, 0) == map[] && AddCoins(map[], cb, 0) == map[] && CoinsOf(txs, 1) == map[o := Coin(5, 1)];
    assert InSum(map[], map[o := Coin(5, 1)], tx.inputs, 0) == 0 && TxIn(map[], txs, 1) == 5;
    assert OutSum(cb.outputs, 0) == 0 && TxOut(cb) == 5 && OutSum(tx.outputs, 0) == 0 && TxOut(tx) == 5;
    assert Fees(map[], txs, 0) == 0 && Fees(map[], txs, 1) == 0 && Fees(map[], txs, 2) == 0;
    assert LastToMake(txs, 1, 0, o);
    AcceptableIff(map[], Block(2, [], 1, 0, 0, 0, true, txs), 5);
  }

  // ----- accepted blocks that are not undone

  /** A block that repeats an old coinbase replaces its live output, and undoing it removes the output. */
  lemma RepeatedCoinbaseIsNotUndone()
    ensures exists s: State, b: Block ::
              Acceptable(s.utxos, b, 5) && BurnsFit(s, b) && MergesUnspent(s, b, []) && NotUndone(s, b, [])
  {
    var o := OutPoint(7, 0);
    var cb := Transaction(7, true, true, [], [Standard(1, 5)]);
    var s, b := State(map[o := UtxoEntry(5, 1, 0, true)], 0), Block(2, [], 20, 0, 0, 0, true, [cb]);
    hide Connect, NotUndone;
    assert OutSum(cb.outputs, 0) == 0 && TxOut(cb) == 5;
    assert TxsOk(s.utxos, [cb], 0, 20) && Acceptable(s.utxos, b, 5);
    ValidatedBlockNeverFails(s, b, [], 5);
    assert Created(cb, 0) == {} && o in AllCreated(cb);
    assert SpentBy([cb], 0) == {} && AllSpent(cb) == {} && o in Overwritten([cb], 1);
    NotUndoneIff(s, b, []);
  }

  /** A credited coinbase output, spent by a block that merges the same coinbase again, is lost as well. */
  lemma RemergedSpendIsNotUndone()
    ensures exists s: State, b: Block, merges: seq<Block> ::
              Acceptable(s.utxos, b, 0) && BurnsFit(s, b) && NothingOverwritten(s, b) && NotUndone(s, b, merges)
  {
    var o := OutPoint(7, 0);
    var cb := Transaction(7, true, true, [], [Standard(1, 5)]);
    var none, tx := Transaction(9, true, true, [], []), Transaction(8, false, true, [TxInput(o, 1)], []);
    var txs := [none, tx];
    var s, b := State(map[o := UtxoEntry(5, 1, 0, true)], 0), Block(2, [], 20, 0, 0, 0, true, txs);
    var m := Block(1, [], 1, 0, 0, 0, true, [cb]);
    hide Acceptable, NothingOverwritten, Connect, NotUndone;
    RemergeAccepted(s, b, o, none, tx);
    ValidatedBlockNeverFails(s, b, [m], 0);
    assert Created(cb, 0) == {} && MergeOutputs([m], 0) == {} && o in AllMerged([m]);
    NotUndoneIff(s, b, [m]);
  }

  lemma RemergeAccepted(s: State, b: Block, o: OutPoint, none: Transaction, tx: Transaction)
    requires s == State(map[o := UtxoEntry(5, 1, 0, true)], 0) && b == Block(2, [], 20, 0, 0, 0, true, [none, tx])
    requires none == Transaction(9, true, true, [], []) && tx == Transaction(8, false, true, [TxInput(o, 1)], [])
    ensures Acceptable(s.utxos, b, 0) && NothingOverwritten(s, b) && o in Gone(b.transactions, 2)
  {
    var txs := b.transactions;
    assert AllSpent(none) == {} && AllCreated(none) == {} && AllCreated(tx) == {};
    assert Prevs(tx.inputs, 0) == {} && AllSpent(tx) == {o};
    assert CoinsOf(txs, 0) == map[] && CoinsOf(txs, 1) == map[] && SpentBy(txs, 0) == {} && SpentBy(txs, 1) == {};
    assert InputsOk(s.utxos, map[], {}, tx.inputs, 0, 20) && InputsOk(s.utxos, map[], {}, tx.inputs, 1, 20);
    assert TransferOk(s.utxos, txs, 1, 20);
    assert TxsOk(s.utxos, txs, 0, 20) && TxsOk(s.utxos, txs, 1, 20) && TxsOk(s.utxos, txs, 2, 20);
    assert Overwritten(txs, 0) == {} && Overwritten(txs, 1) == {} && Overwritten(txs, 2) == {};
  }
}
