/**
 The selected chain of a block store, and the ledger that replaying it gives
 (crates/zentrad/src/node.rs:802-823 and 158-211).
 */
module Chain {
  import opened Types
  import opened Ledger
  import opened Undo
  import opened Ghostdag

  /** What is on disk: blocks and GhostDAG records by hash.  Either can lack an entry. */
  datatype Store = Store(blocks: map<Hash, Block>, ghostdag: map<Hash, GhostdagData>)

  /** One step down: the recorded selected parent, else the first header parent, else nothing. */
  function Next(store: Store, h: Hash): Hash {
    if h in store.ghostdag then store.ghostdag[h].selectedParent
    else if h in store.blocks && store.blocks[h].parents != [] then store.blocks[h].parents[0]
    else ZERO
  }

  ghost function Rank(store: Store, h: Hash): nat {
    if h == ZERO then 0
    else if h in store.ghostdag then 2 + store.ghostdag[h].blueScore
    else if h in store.blocks then 2 + store.blocks[h].blueScore
    else 1
  }

  /** Scores fall on every step; a store that connecting blocks builds keeps this. */
  ghost predicate Ranked(store: Store) {
    forall h :: h != ZERO && Next(store, h) != ZERO ==> Rank(store, Next(store, h)) < Rank(store, h)
  }

  /** From `h` down to the block without a parent, tip first. */
  ghost function SelectedChain(store: Store, h: Hash): seq<Hash>
    requires Ranked(store)
    decreases Rank(store, h)
  {
    if h == ZERO then [] else [h] + SelectedChain(store, Next(store, h))
  }

  /** Two selected chains that share a block share everything below it. */
  lemma {:induction false} ChainTail(store: Store, h: Hash, i: nat)
    requires Ranked(store) && i < |SelectedChain(store, h)|
    ensures SelectedChain(store, h)[i..] == SelectedChain(store, SelectedChain(store, h)[i])
    ensures SelectedChain(store, h)[i] != ZERO
    decreases i
  {
    if i > 0 {
      ChainTail(store, Next(store, h), i - 1);
    }
  }

  /** From a block to its recorded selected parent, without a record to its first header parent, else to none. */
  ghost predicate StepsTo(store: Store, h: Hash, next: Hash) {
    if h in store.ghostdag then next == store.ghostdag[h].selectedParent
    else if h in store.blocks && store.blocks[h].parents != [] then next == store.blocks[h].parents[0]
    else next == ZERO
  }

  ghost predicate IsWalk(store: Store, c: seq<Hash>) {
    (forall i :: 0 < i < |c| ==> StepsTo(store, c[i - 1], c[i])) && (c != [] ==> StepsTo(store, c[|c| - 1], ZERO))
  }

  ghost predicate WalksFrom(store: Store, h: Hash, c: seq<Hash>) {
    IsWalk(store, c) && if h == ZERO then c == [] else c != [] && c[0] == h
  }

  lemma {:induction false} ChainIsWalk(store: Store, h: Hash)
    requires Ranked(store)
    ensures WalksFrom(store, h, SelectedChain(store, h))
    decreases Rank(store, h)
  {
    hide Rank, IsWalk;
    var next := Next(store, h);
    if h == ZERO || next == ZERO {
      ShortWalk(store, h);
      assert SelectedChain(store, ZERO) == [] && [h] + [] == [h];
    } else {
      ChainIsWalk(store, next);
      WalkOn(store, h, SelectedChain(store, next));
    }
  }

  lemma ShortWalk(store: Store, h: Hash)
    ensures IsWalk(store, []) && (Next(store, h) == ZERO ==> IsWalk(store, [h]))
  {
  }

  lemma WalkOn(store: Store, h: Hash, rest: seq<Hash>)
    requires IsWalk(store, rest) && rest != [] && rest[0] == Next(store, h)
    ensures IsWalk(store, [h] + rest)
  {
    var c := [h] + rest;
    assert StepsTo(store, h, rest[0]);
    hide StepsTo;
    forall i | 0 < i < |c|
      ensures StepsTo(store, c[i - 1], c[i])
    {
      if i > 1 {
        assert c[i - 1] == rest[i - 2] && c[i] == rest[i - 1];
      }
    }
  }

  lemma {:induction false} ChainRanks(store: Store, h: Hash, i: nat)
    requires Ranked(store) && i < |SelectedChain(store, h)|
    ensures Rank(store, SelectedChain(store, h)[i]) <= Rank(store, h)
    ensures i > 0 ==> Rank(store, SelectedChain(store, h)[i]) < Rank(store, h)
    decreases i
  {
    if i > 0 {
      ChainRanks(store, Next(store, h), i - 1);
    }
  }

  lemma ChainNoRepeats(store: Store, h: Hash)
    requires Ranked(store)
    ensures NoRepeats(SelectedChain(store, h))
  {
    var c := SelectedChain(store, h);
    forall i, j | 0 <= i < j < |c|
      ensures c[i] != c[j]
    {
      ChainTail(store, h, i);
      ChainRanks(store, c[i], j - i);
      assert c[i..][j - i] == c[j];
    }
  }

  // ----- replay

  /** Those of the first `n` hashes whose block the store has. */
  ghost function Found(store: Store, hashes: seq<Hash>, n: nat): seq<Block>
    requires n <= |hashes|
  {
    if n == 0 then []
    else if hashes[n - 1] in store.blocks then Found(store, hashes, n - 1) + [store.blocks[hashes[n - 1]]]
    else Found(store, hashes, n - 1)
  }

  /** The blue blocks merged by `b`. */
  ghost function Merges(store: Store, b: Block): seq<Block> {
    if b.hash in store.ghostdag then Found(store, store.ghostdag[b.hash].blues, |store.ghostdag[b.hash].blues|)
    else []
  }

  /** Start-up's treatment of one block: errors of the apply are ignored, merges are credited anyway. */
  ghost function ReplayBlock(store: Store, s: State, b: Block): State {
    var p := ApplyAll(s, b).state;
    p.(utxos := CreditAll(p.utxos, Merges(store, b), |Merges(store, b)|).0)
  }

  /** The ledger after a chain, given tip first, starting from nothing. */
  ghost function Replay(store: Store, chain: seq<Hash>): State {
    if chain == [] then EMPTY
    else
      var s := Replay(store, chain[1..]);
      if chain[0] in store.blocks then ReplayBlock(store, s, store.blocks[chain[0]]) else s
  }

  // ----- what a replayed block pays, output by output

  lemma {:induction false} CreditNext(u: Utxos, before: seq<Block>, b: Block)
    ensures var (v, made) := CreditAll(u, before, |before|);
            var (w, more) := CreditBlock(v, b);
            CreditAll(u, before + [b], |before| + 1) == (w, made + more)
  {
    CreditPrefix(u, before + [b], before, |before|);
  }

  lemma {:induction false} CreditPrefix(u: Utxos, longer: seq<Block>, shorter: seq<Block>, n: nat)
    requires shorter <= longer && n <= |shorter|
    ensures CreditAll(u, longer, n) == CreditAll(u, shorter, n)
  {
    if n > 0 {
      CreditPrefix(u, longer, shorter, n - 1);
    }
  }

  /** `b` has a coinbase in front, and `o` names one of its Standard outputs. */
  ghost predicate CoinbaseMakes(b: Block, o: OutPoint) {
    b.transactions != [] && b.transactions[0].isCoinbase && Makes(b.transactions[0], o)
  }

  /** What a miner is to get for it: amount and address of the output, with the block's score. */
  ghost function CoinbaseEntry(b: Block, o: OutPoint): UtxoEntry
    requires CoinbaseMakes(b, o)
  {
    var out := b.transactions[0].outputs[o.index];
    UtxoEntry(out.amount, out.address, b.blueScore, true)
  }

  lemma CreditBlockFields(u: Utxos, b: Block)
    ensures var (v, made) := CreditBlock(u, b);
            && (forall o :: o in v <==> o in u || CoinbaseMakes(b, o))
            && (forall o :: o in made <==> o in v && o !in u)
            && (forall o :: o in v ==>
                  if o in u then v[o] == u[o] else CoinbaseMakes(b, o) && v[o] == CoinbaseEntry(b, o))
  {
    if HasCoinbase(b) {
      CreditFields(u, b.transactions[0], |b.transactions[0].outputs|, b.blueScore);
    }
  }

  /** The first stored block among the first `n` of a list that pays `o`. */
  ghost function Payer(store: Store, hashes: seq<Hash>, n: nat, o: OutPoint): Option<Block>
    requires n <= |hashes|
  {
    if n == 0 then None
    else
      var earlier := Payer(store, hashes, n - 1, o);
      if earlier.Some? then earlier
      else if hashes[n - 1] in store.blocks && CoinbaseMakes(store.blocks[hashes[n - 1]], o)
      then Some(store.blocks[hashes[n - 1]])
      else None
  }

  lemma {:induction false} PayerIsFirst(store: Store, hashes: seq<Hash>, n: nat, o: OutPoint)
    requires n <= |hashes|
    ensures Payer(store, hashes, n, o).None? <==>
              forall i :: 0 <= i < n && hashes[i] in store.blocks ==> !CoinbaseMakes(store.blocks[hashes[i]], o)
    ensures Payer(store, hashes, n, o).Some? ==>
              exists j :: 0 <= j < n && hashes[j] in store.blocks
                && Payer(store, hashes, n, o).value == store.blocks[hashes[j]]
                && CoinbaseMakes(store.blocks[hashes[j]], o)
                && forall i :: 0 <= i < j && hashes[i] in store.blocks ==> !CoinbaseMakes(store.blocks[hashes[i]], o)
  {
    hide CoinbaseMakes;
    if n > 0 {
      PayerIsFirst(store, hashes, n - 1, o);
    }
  }

  /** After crediting a list, at one outpoint. */
  ghost predicate PaidAt(u: Utxos, v: Utxos, made: seq<OutPoint>, payer: Option<Block>, o: OutPoint) {
    && (o in v <==> o in u || payer.Some?)
    && (o in made <==> o in v && o !in u)
    && (o in u ==> v[o] == u[o])
    && (o !in u && payer.Some? ==>
          CoinbaseMakes(payer.value, o) && v[o] == CoinbaseEntry(payer.value, o))
  }

  lemma {:induction false} FoundPays(store: Store, hashes: seq<Hash>, n: nat, u: Utxos, o: OutPoint)
    requires n <= |hashes|
    ensures var merges := Found(store, hashes, n);
            var (v, made) := CreditAll(u, merges, |merges|);
            PaidAt(u, v, made, Payer(store, hashes, n, o), o)
  {
    if n > 0 {
      FoundPays(store, hashes, n - 1, u, o);
      if hashes[n - 1] in store.blocks {
        hide CoinbaseMakes, CreditAll;
        var before, b := Found(store, hashes, n - 1), store.blocks[hashes[n - 1]];
        CreditNext(u, before, b);
        CreditBlockFields(CreditAll(u, before, |before|).0, b);
      }
    }
  }

  /**
   Main theorem on merges, at any outpoint: crediting what `b` merges adds exactly the outputs that coinbases of
   stored blocks listed among the recorded blues pay to absent outpoints, as the first block that pays it has it.
   */
  lemma MergesPaid(store: Store, b: Block, u: Utxos, o: OutPoint)
    ensures var (v, made) := CreditAll(u, Merges(store, b), |Merges(store, b)|);
            var blues := if b.hash in store.ghostdag then store.ghostdag[b.hash].blues else [];
            && (o in made <==>
                  o !in u && exists m :: m in blues && m in store.blocks && CoinbaseMakes(store.blocks[m], o))
            && (o in v <==> o in u || o in made)
            && (o in u ==> v[o] == u[o])
            && (o in made ==>
                  exists j :: 0 <= j < |blues| && blues[j] in store.blocks && CoinbaseMakes(store.blocks[blues[j]], o)
                    && v[o] == CoinbaseEntry(store.blocks[blues[j]], o)
                    && forall i :: 0 <= i < j && blues[i] in store.blocks ==> !CoinbaseMakes(store.blocks[blues[i]], o))
  {
    hide CoinbaseMakes, CreditAll, Payer;
    if b.hash in store.ghostdag {
      var blues := store.ghostdag[b.hash].blues;
      FoundPays(store, blues, |blues|, u, o);
      PayerIsFirst(store, blues, |blues|, o);
    } else {
      assert CreditAll(u, [], 0) == (u, []) by {
        NothingCredited(u);
      }
    }
  }

  lemma NothingCredited(u: Utxos)
    ensures CreditAll(u, [], 0) == (u, [])
  {
  }

  /** One step of the replay, at any outpoint: the block's own transactions, then what its blues are paid. */
  lemma ReplayStep(store: Store, chain: seq<Hash>, o: OutPoint)
    requires chain != []
    ensures chain[0] !in store.blocks ==> Replay(store, chain) == Replay(store, chain[1..])
    ensures chain[0] in store.blocks ==>
              var b := store.blocks[chain[0]];
              var own, r := ApplyAll(Replay(store, chain[1..]), b).state, Replay(store, chain);
              var blues := if b.hash in store.ghostdag then store.ghostdag[b.hash].blues else [];
              && r.burned == own.burned
              && (o in r.utxos <==>
                    || o in own.utxos
                    || exists m :: m in blues && m in store.blocks && CoinbaseMakes(store.blocks[m], o))
              && (o in own.utxos ==> r.utxos[o] == own.utxos[o])
              && (o in r.utxos && o !in own.utxos ==>
                    exists j :: 0 <= j < |blues| && blues[j] in store.blocks
                      && CoinbaseMakes(store.blocks[blues[j]], o)
                      && r.utxos[o] == CoinbaseEntry(store.blocks[blues[j]], o)
                      && forall i :: 0 <= i < j && blues[i] in store.blocks ==>
                           !CoinbaseMakes(store.blocks[blues[i]], o))
  {
    hide ApplyAll, CoinbaseMakes, CreditAll, Merges;
    if chain[0] in store.blocks {
      var b := store.blocks[chain[0]];
      MergesPaid(store, b, ApplyAll(Replay(store, chain[1..]), b).state.utxos, o);
    }
  }

  // ----- where live entries come from

  /** `e` is what output `o` of `tx` in a block of score `height` is to be stored as. */
  ghost predicate StoredAs(tx: Transaction, o: OutPoint, height: u64, e: UtxoEntry) {
    Makes(tx, o) && e == UtxoEntry(tx.outputs[o.index].amount, tx.outputs[o.index].address, height, tx.isCoinbase)
  }

  /** `h` is a stored block of the chain, or, for its first transaction, a blue of one. */
  ghost predicate OnChain(store: Store, chain: seq<Hash>, h: Hash, t: nat) {
    && h in store.blocks && t < |store.blocks[h].transactions|
    && (h in chain || (t == 0 && exists g :: g in chain && BlueOf(store, g, h)))
  }

  ghost predicate BlueOf(store: Store, g: Hash, h: Hash) {
    && g in store.blocks && store.blocks[g].hash in store.ghostdag
    && h in store.ghostdag[store.blocks[g].hash].blues
  }

  lemma {:induction false} SpendKeeps(u: Utxos, inputs: seq<TxInput>, n: nat, o: OutPoint)
    requires n <= |inputs|
    ensures var v := SpendInputs(u, inputs, n).utxos; o in v ==> o in u && v[o] == u[o]
  {
    if n > 0 {
      SpendKeeps(u, inputs, n - 1, o);
    }
  }

  /** A failed transaction leaves no output behind. */
  lemma TxOrigin(s: State, tx: Transaction, height: u64, o: OutPoint)
    ensures var v := ApplyTx(s, tx, height).state.utxos;
            o in v ==> (o in s.utxos && v[o] == s.utxos[o]) || StoredAs(tx, o, height, v[o])
  {
    SpendKeeps(s.utxos, tx.inputs, SpendCount(tx), o);
    ApplyTxFields(s, tx, height);
  }

  lemma {:induction false} TxsOrigin(s: State, txs: seq<Transaction>, n: nat, height: u64, o: OutPoint)
    requires n <= |txs|
    ensures var v := ApplyTxs(s, txs, n, height).state.utxos;
            o in v ==>
              || (o in s.utxos && v[o] == s.utxos[o])
              || exists t :: 0 <= t < n && StoredAs(txs[t], o, height, v[o])
  {
    hide StoredAs, ApplyTx;
    if n > 0 {
      TxsOrigin(s, txs, n - 1, height, o);
      TxOrigin(ApplyTxs(s, txs, n - 1, height).state, txs[n - 1], height, o);
    }
  }

  /**
   Every live entry of a replayed ledger is an output of some block on the chain or of a merged coinbase, stored
   with the output's amount and owner, that block's score, and whether the transaction is a coinbase.
   */
  lemma {:induction false} ReplayEntries(store: Store, chain: seq<Hash>, o: OutPoint) returns (h: Hash, t: nat)
    requires o in Replay(store, chain).utxos
    ensures OnChain(store, chain, h, t)
    ensures StoredAs(store.blocks[h].transactions[t], o, store.blocks[h].blueScore, Replay(store, chain).utxos[o])
  {
    hide Merges, CreditAll, ApplyTxs, StoredAs;
    var below := Replay(store, chain[1..]).utxos;
    ReplayStep(store, chain, o);
    if chain[0] !in store.blocks {
      h, t := ReplayEntries(store, chain[1..], o);
    } else {
      var b := store.blocks[chain[0]];
      var e := Replay(store, chain).utxos[o];
      TxsOrigin(Replay(store, chain[1..]), b.transactions, |b.transactions|, b.blueScore, o);
      if o !in ApplyAll(Replay(store, chain[1..]), b).state.utxos {
        t := 0;
        h := PaidOrigin(store, chain, b, o, e);
      } else if i :| 0 <= i < |b.transactions| && StoredAs(b.transactions[i], o, b.blueScore, e) {
        h, t := chain[0], i;
      } else {
        h, t := ReplayEntries(store, chain[1..], o);
      }
    }
  }

  lemma PaidOrigin(store: Store, chain: seq<Hash>, b: Block, o: OutPoint, e: UtxoEntry) returns (h: Hash)
    requires chain != [] && chain[0] in store.blocks && b == store.blocks[chain[0]]
    requires var blues := if b.hash in store.ghostdag then store.ghostdag[b.hash].blues else [];
             exists j :: 0 <= j < |blues| && blues[j] in store.blocks && CoinbaseMakes(store.blocks[blues[j]], o)
               && e == CoinbaseEntry(store.blocks[blues[j]], o)
    ensures OnChain(store, chain, h, 0) && StoredAs(store.blocks[h].transactions[0], o, store.blocks[h].blueScore, e)
  {
    var blues := store.ghostdag[b.hash].blues;
    var j :| 0 <= j < |blues| && blues[j] in store.blocks && CoinbaseMakes(store.blocks[blues[j]], o)
             && e == CoinbaseEntry(store.blocks[blues[j]], o);
    h := blues[j];
    assert BlueOf(store, chain[0], h);
  }

  // ----- names: where collision-freedom of transaction hashes enters

  /** Every outpoint that a chain's blocks and the blocks they merge can have put into the ledger. */
  ghost function Names(store: Store, chain: seq<Hash>): set<OutPoint> {
    if chain == [] then {}
    else
      Names(store, chain[1..])
      + if chain[0] in store.blocks
        then BlockCreated(store.blocks[chain[0]]) + AllMerged(Merges(store, store.blocks[chain[0]]))
        else {}
  }

  ghost function ChainBurns(store: Store, chain: seq<Hash>): nat {
    if chain == [] then 0
    else
      ChainBurns(store, chain[1..])
      + if chain[0] in store.blocks then BlockBurns(store.blocks[chain[0]]) else 0
  }

  /** A block that names its outputs anew and does not spend an output of a coinbase it merges. */
  ghost predicate SoundBlock(store: Store, b: Block, below: seq<Hash>) {
    BlockCreated(b) !! Names(store, below) && AllMerged(Merges(store, b)) !! BlockSpent(b)
  }

  ghost predicate SoundBlocks(store: Store, chain: seq<Hash>) {
    chain == []
    || (&& SoundBlocks(store, chain[1..])
        && (chain[0] in store.blocks ==> SoundBlock(store, store.blocks[chain[0]], chain[1..])))
  }

  /** A condition on the blocks alone, which mentions no ledger, and which suffices for exact undo. */
  ghost predicate Sound(store: Store, chain: seq<Hash>) {
    ChainBurns(store, chain) <= U64_MAX && SoundBlocks(store, chain)
  }

  lemma {:induction false} ApplyTxsKeys(s: State, txs: seq<Transaction>, n: nat, height: u64)
    requires n <= |txs|
    ensures ApplyTxs(s, txs, n, height).state.utxos.Keys <= s.utxos.Keys + CreatedBy(txs, n)
    ensures ApplyTxs(s, txs, n, height).state.burned <= s.burned + BurnedTxs(txs, n)
  {
    if n > 0 {
      ApplyTxsKeys(s, txs, n - 1, height);
      var p := ApplyTxs(s, txs, n - 1, height);
      if p.undo.Some? {
        ApplyTxMeaning(p.state, txs[n - 1], height);
        SpendKeys(p.state.utxos, txs[n - 1].inputs, SpendCount(txs[n - 1]));
      }
    }
  }

  lemma {:induction false} SpendKeys(u: Utxos, inputs: seq<TxInput>, n: nat)
    requires n <= |inputs|
    ensures SpendInputs(u, inputs, n).utxos.Keys <= u.Keys
  {
    if n > 0 {
      SpendKeys(u, inputs, n - 1);
    }
  }

  lemma {:induction false} ReplayStaysInNames(store: Store, chain: seq<Hash>)
    ensures Replay(store, chain).utxos.Keys <= Names(store, chain)
    ensures Replay(store, chain).burned <= ChainBurns(store, chain)
  {
    if chain != [] {
      ReplayStaysInNames(store, chain[1..]);
      if chain[0] in store.blocks {
        var s, b := Replay(store, chain[1..]), store.blocks[chain[0]];
        ApplyTxsKeys(s, b.transactions, |b.transactions|, b.blueScore);
        CreditAllMeaning(ApplyAll(s, b).state.utxos, Merges(store, b), |Merges(store, b)|);
      }
    }
  }

  // ----- one block on top of a replayed chain

  /** The tip is undone exactly from the replay that includes it. */
  ghost predicate UndoableTip(store: Store, h: Hash, below: seq<Hash>) {
    h in store.blocks ==> Undoable(Replay(store, below), store.blocks[h], Merges(store, store.blocks[h]))
  }

  /** So are the first `n` blocks of a chain, each in its place. */
  ghost predicate AllUndoable(store: Store, chain: seq<Hash>, n: nat)
    requires n <= |chain|
  {
    forall i :: 0 <= i < n ==> UndoableTip(store, chain[i], chain[i + 1..])
  }

  lemma {:induction false} SoundIsUndoable(store: Store, chain: seq<Hash>)
    requires Sound(store, chain)
    ensures AllUndoable(store, chain, |chain|)
  {
    hide Replay, Undoable;
    if chain != [] {
      SoundIsUndoable(store, chain[1..]);
      SoundTip(store, chain);
      forall i | 0 < i < |chain|
        ensures UndoableTip(store, chain[i], chain[i + 1..])
      {
        assert UndoableTip(store, chain[1..][i - 1], chain[1..][i..]);
        assert chain[1..][i..] == chain[i + 1..];
      }
    }
  }

  lemma SoundTip(store: Store, chain: seq<Hash>)
    requires chain != [] && Sound(store, chain)
    ensures UndoableTip(store, chain[0], chain[1..])
  {
    if chain[0] in store.blocks {
      var b := store.blocks[chain[0]];
      ReplayStaysInNames(store, chain[1..]);
      NewNamesAreUndoable(Replay(store, chain[1..]), b, Merges(store, b));
    }
  }

  /** The tip is stored and connects on the replay below it. */
  ghost predicate TipConnects(store: Store, chain: seq<Hash>) {
    && chain != [] && chain[0] in store.blocks
    && Connect(Replay(store, chain[1..]), store.blocks[chain[0]], Merges(store, store.blocks[chain[0]])).undo.Some?
  }

  /** What connecting the tip recorded. */
  ghost function TipUndo(store: Store, chain: seq<Hash>): (undo: BlockUndo)
    requires TipConnects(store, chain)
    ensures |undo.txs| == |store.blocks[chain[0]].transactions|
  {
    var b := store.blocks[chain[0]];
    UndoOf(Replay(store, chain[1..]), b, Merges(store, b))
  }

  /** Connecting the tip is replaying it. */
  lemma ConnectIsReplay(store: Store, chain: seq<Hash>)
    requires TipConnects(store, chain)
    ensures var b := store.blocks[chain[0]];
            Connect(Replay(store, chain[1..]), b, Merges(store, b)).state == Replay(store, chain)
  {
  }

  /** Disconnecting the tip goes back to the replay below exactly if the tip is undoable in its place. */
  lemma TipInverse(store: Store, chain: seq<Hash>)
    requires TipConnects(store, chain)
    ensures Disconnect(Replay(store, chain), store.blocks[chain[0]], TipUndo(store, chain)) == Replay(store, chain[1..])
       <==> UndoableTip(store, chain[0], chain[1..])
  {
    hide Replay, Connect, Disconnect, Undoable;
    var b := store.blocks[chain[0]];
    ConnectIsReplay(store, chain);
    DisconnectRestoresIff(Replay(store, chain[1..]), b, Merges(store, b));
  }

  // ----- several blocks off

  ghost predicate Connects(store: Store, chain: seq<Hash>, n: nat)
    requires n <= |chain|
  {
    n == 0 || (Connects(store, chain, n - 1) && TipConnects(store, chain[n - 1..]))
  }

  /** The ledger after the first `n` blocks came off the replay of `chain`, tip first. */
  ghost function Off(store: Store, chain: seq<Hash>, n: nat): State
    requires n <= |chain| && Connects(store, chain, n)
  {
    if n == 0 then Replay(store, chain)
    else Disconnect(Off(store, chain, n - 1), store.blocks[chain[n - 1]], TipUndo(store, chain[n - 1..]))
  }

  /** What that ledger lacks, and what was burned by the blocks that came off: read off the blocks alone. */
  ghost function LostIn(store: Store, chain: seq<Hash>, n: nat): set<OutPoint>
    requires n <= |chain|
  {
    if n == 0 then {}
    else if chain[n - 1] !in store.blocks then LostIn(store, chain, n - 1)
    else
      var b := store.blocks[chain[n - 1]];
      LostBy(b, Merges(store, b), LostIn(store, chain, n - 1))
  }

  ghost function BurnsOf(store: Store, chain: seq<Hash>, n: nat): nat
    requires n <= |chain|
  {
    if n == 0 then 0
    else
      BurnsOf(store, chain, n - 1)
      + if chain[n - 1] in store.blocks then BlockBurns(store.blocks[chain[n - 1]]) else 0
  }

  lemma ReplayBurned(store: Store, chain: seq<Hash>)
    requires TipConnects(store, chain)
    ensures Replay(store, chain).burned
         == Cap64(Replay(store, chain[1..]).burned + BlockBurns(store.blocks[chain[0]]))
  {
    var b := store.blocks[chain[0]];
    ApplyTxsBurned(Replay(store, chain[1..]), b.transactions, |b.transactions|, b.blueScore);
  }

  lemma {:induction false} OffMeaning(store: Store, chain: seq<Hash>, n: nat)
    requires n <= |chain| && Connects(store, chain, n)
    ensures Off(store, chain, n).utxos == Replay(store, chain[n..]).utxos - LostIn(store, chain, n)
    ensures Off(store, chain, n).burned == Max(Replay(store, chain).burned - BurnsOf(store, chain, n), 0)
    ensures Replay(store, chain).burned == Cap64(Replay(store, chain[n..]).burned + BurnsOf(store, chain, n))
  {
    hide Replay, Connect, Disconnect, LostBy, BlockBurns;
    if n == 0 {
      assert chain[0..] == chain;
      NothingLost(Replay(store, chain).utxos);
    } else {
      OffMeaning(store, chain, n - 1);
      var top := chain[n - 1..];
      assert top[0] == chain[n - 1] && top[1..] == chain[n..];
      var b := store.blocks[chain[n - 1]];
      ConnectIsReplay(store, top);
      ReplayBurned(store, top);
      DisconnectLost(Replay(store, chain[n..]), b, Merges(store, b), Off(store, chain, n - 1),
                     LostIn(store, chain, n - 1));
    }
  }

  lemma NothingLost(u: Utxos)
    ensures u == u - {}
  {
  }

  /** Nothing live is lost and no burn was cut off, when the first `n` blocks come off. */
  ghost predicate ForkKept(store: Store, chain: seq<Hash>, n: nat)
    requires n <= |chain|
  {
    var base := Replay(store, chain[n..]);
    && LostIn(store, chain, n) !! base.utxos.Keys
    && (base.burned == 0 || base.burned + BurnsOf(store, chain, n) <= U64_MAX)
  }

  /** Taking blocks off leads to the replay below them exactly then, whatever each of them does in its place. */
  lemma OffIff(store: Store, chain: seq<Hash>, n: nat)
    requires n <= |chain| && Connects(store, chain, n)
    ensures Off(store, chain, n) == Replay(store, chain[n..]) <==> ForkKept(store, chain, n)
  {
    hide Replay, LostIn, Off, BurnsOf, Connects;
    OffMeaning(store, chain, n);
    LostIff(Replay(store, chain[n..]).utxos, LostIn(store, chain, n));
  }

  /** Blocks that are each undoable in place keep the fork. */
  lemma {:induction false} UndoableKeepsFork(store: Store, chain: seq<Hash>, n: nat)
    requires n <= |chain| && Connects(store, chain, n) && AllUndoable(store, chain, n)
    ensures Off(store, chain, n) == Replay(store, chain[n..]) && ForkKept(store, chain, n)
  {
    hide Replay, Connect, Disconnect, Undoable, ForkKept;
    OffIff(store, chain, n);
    if n == 0 {
      assert chain[0..] == chain;
    } else {
      UndoableKeepsFork(store, chain, n - 1);
      assert chain[n - 1..][1..] == chain[n..];
      TipInverse(store, chain[n - 1..]);
    }
  }
}
