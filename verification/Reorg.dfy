/**
 Chain reorganisation (crates/zentrad/src/node.rs:1073-1239): moving the ledger from one selected
 chain to another block by block gives what a replay of the new chain would give, and a failure
 gives back the old ledger.  Start-up (node.rs:158-211) is the replay itself.
 */
module Reorg {
  import opened Types
  import opened Ledger
  import opened UtxoSets
  import opened Undo
  import opened Emission
  import opened Validation
  import opened Chain
  import opened Ghostdag

  datatype ReorgError =
    | MissingBlock(h: Hash)
    | MissingUndo(h: Hash)
    | Invalid(h: Hash, reason: Reject)

  type Undos = map<Hash, BlockUndo>

  /** Stored undo data is what connecting the block on top of the chain below it produced. */
  ghost predicate RecordedTip(store: Store, undos: Undos, h: Hash, below: seq<Hash>) {
    Stored(store, undos, h) ==>
      var b := store.blocks[h];
      Connect(Replay(store, below), b, Merges(store, b)).undo == Some(undos[h])
  }

  ghost predicate Recorded(store: Store, undos: Undos, chain: seq<Hash>) {
    chain == [] || (Recorded(store, undos, chain[1..]) && RecordedTip(store, undos, chain[0], chain[1..]))
  }

  ghost predicate Stored(store: Store, undos: Undos, h: Hash) { h in undos && h in store.blocks }

  /** The tip is present and acceptable on what is below it. */
  ghost predicate ValidTip(store: Store, s: EmissionSchedule, h: Hash, below: seq<Hash>) {
    && h in store.blocks
    && var b := store.blocks[h];
       Acceptable(Replay(store, below).utxos, b, Subsidy(s, b.blueScore))
  }

  /** How many blocks of `chain`, from its tip, are not in `other`. */
  ghost function Above(chain: seq<Hash>, other: seq<Hash>): (k: nat)
    ensures k <= |chain| && (forall i :: 0 <= i < k ==> chain[i] !in other)
    ensures k < |chain| ==> chain[k] in other
  {
    if chain == [] || chain[0] in other then 0 else 1 + Above(chain[1..], other)
  }

  /** When a move from `old` to `new` succeeds: undo data down to the fork, valid blocks up from it. */
  ghost predicate CanMove(store: Store, s: EmissionSchedule, undos: Undos, from: seq<Hash>, to: seq<Hash>) {
    && (forall i :: 0 <= i < Above(from, to) ==> Stored(store, undos, from[i]))
    && (forall i :: 0 <= i < Above(to, from) ==> ValidTip(store, s, to[i], to[i + 1..]))
  }

  ghost function ChainOf(store: Store, tip: Option<Hash>): seq<Hash>
    requires Ranked(store)
  {
    if tip.None? then [] else SelectedChain(store, tip.value)
  }

  /** Of the first `m` blocks, how many come off before one is missing. */
  ghost function Reach(store: Store, undos: Undos, chain: seq<Hash>, m: nat): (n: nat)
    requires m <= |chain|
    ensures n <= m
    decreases m
  {
    if m == 0 then 0
    else
      var n := Reach(store, undos, chain, m - 1);
      if n == m - 1 && Stored(store, undos, chain[n]) then m else n
  }

  /** How far up from `k` the blocks are valid in their places: those from the result on are. */
  ghost function Lowest(store: Store, s: EmissionSchedule, chain: seq<Hash>, k: nat): (j: nat)
    requires k <= |chain|
    ensures j <= k
    decreases k
  {
    if k == 0 || !ValidTip(store, s, chain[k - 1], chain[k..]) then k else Lowest(store, s, chain, k - 1)
  }

  /** The ledger comes out right at the fork, if the undo data reaches that far. */
  ghost predicate MeetsFork(store: Store, undos: Undos, from: seq<Hash>, m: nat)
    requires m <= |from|
  {
    Reach(store, undos, from, m) == m ==> ForkKept(store, from, m)
  }

  /**
   A failed move passes the fork again on its way back: where the first loop stopped, or below the new blocks
   that had been connected.
   */
  ghost predicate RollsBack(store: Store, s: EmissionSchedule, undos: Undos, from: seq<Hash>, m: nat,
                            to: seq<Hash>, k: nat)
    requires m <= |from| && k <= |to|
  {
    var n := Reach(store, undos, from, m);
    if n < m then ForkKept(store, from, n)
    else
      var j := Lowest(store, s, to, k);
      ForkKept(store, to[j..], k - j)
  }

  // ----- chains that fork

  /** Below the fork two selected chains are the same. */
  lemma ForkShares(store: Store, a: Hash, b: Hash)
    requires Ranked(store)
    ensures var from, to := SelectedChain(store, a), SelectedChain(store, b);
            from[Above(from, to)..] == to[Above(to, from)..]
  {
    var from, to := SelectedChain(store, a), SelectedChain(store, b);
    var m, k := Above(from, to), Above(to, from);
    if k < |to| {
      var i :| 0 <= i < |from| && from[i] == to[k];
      ChainTail(store, a, i);
      ChainTail(store, b, k);
      assert m <= i;
      var j :| 0 <= j < |to| && to[j] == from[m];
      assert k <= j;
      ChainTail(store, a, m);
      ChainTail(store, b, j);
      assert |from| - m == |to| - j && |from| - i == |to| - k;
      assert i == m;
    }
  }

  /** The first `n` blocks of `chain` can come off. */
  ghost predicate AllStored(store: Store, undos: Undos, chain: seq<Hash>, n: nat)
    requires n <= |chain|
  {
    n == 0 || (AllStored(store, undos, chain, n - 1) && Stored(store, undos, chain[n - 1]))
  }

  /** The blocks of `chain` from `j` up to but excluding `k` are valid in their places. */
  ghost predicate AllValid(store: Store, s: EmissionSchedule, chain: seq<Hash>, j: nat, k: nat)
    requires j <= k <= |chain|
    decreases k - j
  {
    j == k || (AllValid(store, s, chain, j + 1, k) && ValidTip(store, s, chain[j], chain[j + 1..]))
  }

  lemma {:induction false} AllStoredMeaning(store: Store, undos: Undos, chain: seq<Hash>, n: nat)
    requires n <= |chain|
    ensures AllStored(store, undos, chain, n) <==> forall i :: 0 <= i < n ==> Stored(store, undos, chain[i])
  {
    hide Stored;
    if n > 0 {
      AllStoredMeaning(store, undos, chain, n - 1);
    }
  }

  lemma {:induction false} AllValidMeaning(store: Store, s: EmissionSchedule, chain: seq<Hash>, j: nat, k: nat)
    requires j <= k <= |chain|
    ensures AllValid(store, s, chain, j, k)
       <==> forall i :: j <= i < k ==> ValidTip(store, s, chain[i], chain[i + 1..])
    decreases k - j
  {
    hide ValidTip;
    if j < k {
      AllValidMeaning(store, s, chain, j + 1, k);
    }
  }

  lemma {:induction false} ReachIs(store: Store, undos: Undos, chain: seq<Hash>, n: nat, m: nat)
    requires n <= m <= |chain| && AllStored(store, undos, chain, n)
    requires n < m ==> !Stored(store, undos, chain[n])
    ensures Reach(store, undos, chain, m) == n
    decreases m
  {
    hide Stored;
    if n < m {
      ReachIs(store, undos, chain, n, m - 1);
    } else if n > 0 {
      ReachIs(store, undos, chain, n - 1, m - 1);
    }
  }

  lemma {:induction false} LowestIs(store: Store, s: EmissionSchedule, chain: seq<Hash>, j: nat, k: nat)
    requires j <= k <= |chain| && AllValid(store, s, chain, j, k)
    requires j > 0 ==> !ValidTip(store, s, chain[j - 1], chain[j..])
    ensures Lowest(store, s, chain, k) == j
    decreases k
  {
    hide ValidTip;
    AllValidMeaning(store, s, chain, j, k);
    if j < k {
      AllValidMeaning(store, s, chain, j, k - 1);
      LowestIs(store, s, chain, j, k - 1);
    }
  }

  /** One block more comes off. */
  lemma NextOff(store: Store, undos: Undos, chain: seq<Hash>, n: nat)
    requires n < |chain| && Recorded(store, undos, chain) && Connects(store, chain, n)
    requires Stored(store, undos, chain[n])
    ensures Connects(store, chain, n + 1) && |undos[chain[n]].txs| == |store.blocks[chain[n]].transactions|
    ensures Off(store, chain, n + 1)
         == Disconnect(Off(store, chain, n), store.blocks[chain[n]], undos[chain[n]])
  {
    hide Replay, Connect, Disconnect;
    Suffixes(store, undos, chain, n);
    assert RecordedTip(store, undos, chain[n], chain[n + 1..]);
    assert chain[n..][0] == chain[n] && chain[n + 1 - 1..] == chain[n..];
    assert TipConnects(store, chain[n..]) && TipUndo(store, chain[n..]) == undos[chain[n]];
  }

  /** New undo data for a block outside the chain disturbs nothing. */
  lemma {:induction false} RecordedFrame(store: Store, undos: Undos, chain: seq<Hash>, h: Hash, undo: BlockUndo)
    requires Recorded(store, undos, chain) && h !in chain
    ensures Recorded(store, undos[h := undo], chain)
  {
    hide Connect, Replay;
    if chain != [] {
      RecordedFrame(store, undos, chain[1..], h, undo);
      assert chain[0] in chain;
    }
  }

  lemma {:induction false} Suffixes(store: Store, undos: Undos, chain: seq<Hash>, n: nat)
    requires n <= |chain|
    ensures Recorded(store, undos, chain) ==> Recorded(store, undos, chain[n..])
    ensures n < |chain| ==> chain[n..][1..] == chain[n + 1..]
  {
    hide RecordedTip;
    if n == 0 {
      assert chain[0..] == chain;
    } else {
      Suffixes(store, undos, chain[1..], n - 1);
      assert chain[1..][n - 1..] == chain[n..];
    }
  }

  /** Credits every blue block that `block` merges, as far as the store has it. */
  method CreditMerges(store: Store, utxo: UtxoSet, block: Block) returns (made: seq<OutPoint>)
    modifies utxo`utxos
    ensures (utxo.utxos, made) == CreditAll(old(utxo.utxos), Merges(store, block), |Merges(store, block)|)
    ensures var blues := if block.hash in store.ghostdag then store.ghostdag[block.hash].blues else [];
            && (forall o :: o in made <==>
                  && o !in old(utxo.utxos)
                  && exists m :: m in blues && m in store.blocks && CoinbaseMakes(store.blocks[m], o))
            && (forall o :: o in utxo.utxos <==> o in old(utxo.utxos) || o in made)
  {
    PaidByBlues(store, block, utxo.utxos);
    made := [];
    if block.hash in store.ghostdag {
      var blues := store.ghostdag[block.hash].blues;
      var i := 0;
      while i < |blues|
        invariant 0 <= i <= |blues|
        invariant (utxo.utxos, made)
               == CreditAll(old(utxo.utxos), Found(store, blues, i), |Found(store, blues, i)|)
      {
        if blues[i] in store.blocks {
          CreditNext(old(utxo.utxos), Found(store, blues, i), store.blocks[blues[i]]);
          var created := utxo.ApplyMergeCoinbase(store.blocks[blues[i]]);
          made := made + created;
        }
        i := i + 1;
      }
    }
  }

  lemma PaidByBlues(store: Store, b: Block, u: Utxos)
    ensures var (v, made) := CreditAll(u, Merges(store, b), |Merges(store, b)|);
            var blues := if b.hash in store.ghostdag then store.ghostdag[b.hash].blues else [];
            && (forall o :: o in made <==>
                  o !in u && exists m :: m in blues && m in store.blocks && CoinbaseMakes(store.blocks[m], o))
            && (forall o :: o in v <==> o in u || o in made)
  {
    hide CoinbaseMakes, CreditAll, Merges;
    var (v, made) := CreditAll(u, Merges(store, b), |Merges(store, b)|);
    var blues := if b.hash in store.ghostdag then store.ghostdag[b.hash].blues else [];
    forall o
      ensures o in made <==>
                o !in u && exists m :: m in blues && m in store.blocks && CoinbaseMakes(store.blocks[m], o)
      ensures o in v <==> o in u || o in made
    {
      MergesPaid(store, b, u, o);
    }
  }

  // ----- start-up

  /** Start-up's step down: a zero or missing selected parent falls back to the first header parent. */
  function Below(store: Store, h: Hash): Hash
    requires h in store.blocks
  {
    if h in store.ghostdag && store.ghostdag[h].selectedParent != ZERO then store.ghostdag[h].selectedParent
    else if store.blocks[h].parents != [] then store.blocks[h].parents[0]
    else ZERO
  }

  /** The walk ends. */
  ghost predicate Descends(store: Store) {
    forall h :: h != ZERO && h in store.blocks && Below(store, h) != ZERO ==>
      Rank(store, Below(store, h)) < Rank(store, h)
  }

  /** Down from `h` to the first block that is missing or has nothing below it. */
  ghost function StoredPath(store: Store, h: Hash): seq<Hash>
    requires Descends(store)
    decreases Rank(store, h)
  {
    if h == ZERO || h !in store.blocks then [] else [h] + StoredPath(store, Below(store, h))
  }

  ghost function PathOf(store: Store, tip: Option<Hash>): seq<Hash>
    requires Descends(store)
  {
    if tip.None? then [] else StoredPath(store, tip.value)
  }

  /** Only blocks without parents have no selected parent. */
  ghost predicate GenesisHasNoParents(store: Store) {
    forall h :: h in store.blocks && h in store.ghostdag && store.ghostdag[h].selectedParent == ZERO ==>
      store.blocks[h].parents == []
  }

  /** What start-up walks is the selected chain down to its first gap, all of it exactly if there is none. */
  lemma {:induction false} PathIsChainToGap(store: Store, h: Hash)
    requires Ranked(store) && Descends(store) && GenesisHasNoParents(store)
    ensures var path, chain := StoredPath(store, h), SelectedChain(store, h);
            && path <= chain && (|path| < |chain| ==> chain[|path|] !in store.blocks)
            && (path == chain <==> forall g :: g in chain ==> g in store.blocks)
    decreases Rank(store, h)
  {
    if h != ZERO && h in store.blocks {
      assert Below(store, h) == Next(store, h);
      PathIsChainToGap(store, Next(store, h));
    }
  }

  /**
   Start-up (node.rs:158-200): the stored path is walked down and applied from the bottom, ignoring failures;
   with nothing stored the genesis block is applied.
   */
  method StartUp(store: Store, tip: Option<Hash>, genesis: Block) returns (utxo: UtxoSet)
    requires Descends(store) && genesis.blueScore == 0
    ensures fresh(utxo)
    ensures utxo.Value() == if PathOf(store, tip) == [] then ApplyAll(EMPTY, genesis).state
                            else Replay(store, PathOf(store, tip))
  {
    hide ReplayBlock, ApplyAll, StoredPath;
    utxo := new UtxoSet();
    var path := WalkDown(store, tip);
    if path == [] {
      var _ := utxo.ApplyBlock(genesis);
      return;
    }
    var i := |path|;
    assert path[i..] == [];
    while i > 0
      invariant 0 <= i <= |path| && utxo.Value() == Replay(store, path[i..])
    {
      i := i - 1;
      assert path[i..][0] == path[i] && path[i..][1..] == path[i + 1..];
      ReplayStored(store, utxo, store.blocks[path[i]]);
    }
    assert path[0..] == path;
  }

  /** One iteration of the replay; an apply that fails is ignored, the merges are credited all the same. */
  method ReplayStored(store: Store, utxo: UtxoSet, block: Block)
    modifies utxo
    ensures utxo.Value() == ReplayBlock(store, old(utxo.Value()), block)
    ensures var own := ApplyAll(old(utxo.Value()), block).state.utxos;
            var blues := if block.hash in store.ghostdag then store.ghostdag[block.hash].blues else [];
            forall o :: o in utxo.utxos <==>
              o in own || exists m :: m in blues && m in store.blocks && CoinbaseMakes(store.blocks[m], o)
  {
    hide CoinbaseMakes, CreditAll, ApplyAll;
    var _ := utxo.ApplyBlock(block);
    var _ := CreditMerges(store, utxo, block);
  }

  /**
   From a stored block to its recorded selected parent, or, if that is zero or missing, to its first header parent,
   and at the end of the walk (`next` is None) to nothing stored.
   */
  ghost predicate StartUpStep(store: Store, h: Hash, next: Option<Hash>) {
    && h in store.blocks
    && var below := if h in store.ghostdag && store.ghostdag[h].selectedParent != ZERO
                    then store.ghostdag[h].selectedParent
                    else if store.blocks[h].parents != [] then store.blocks[h].parents[0] else ZERO;
       if next.Some? then next.value == below else below == ZERO || below !in store.blocks
  }

  ghost predicate IsStoredWalk(store: Store, path: seq<Hash>) {
    && (forall i :: 0 < i < |path| ==> StartUpStep(store, path[i - 1], Some(path[i])))
    && (path != [] ==> StartUpStep(store, path[|path| - 1], None))
  }

  lemma {:induction false} PathIsWalk(store: Store, tip: Hash)
    requires Descends(store)
    ensures var path := StoredPath(store, tip);
            && IsStoredWalk(store, path)
            && if tip == ZERO || tip !in store.blocks then path == [] else path != [] && path[0] == tip
    decreases Rank(store, tip)
  {
    hide Rank, IsStoredWalk, StartUpStep;
    if tip == ZERO || tip !in store.blocks {
      EmptyWalk(store);
    } else {
      var rest := StoredPath(store, Below(store, tip));
      if Below(store, tip) == ZERO {
        EmptyWalk(store);
      } else {
        PathIsWalk(store, Below(store, tip));
      }
      StoredWalkOn(store, tip, rest);
    }
  }

  lemma StoredWalkOn(store: Store, h: Hash, rest: seq<Hash>)
    requires h in store.blocks && IsStoredWalk(store, rest)
    requires if rest == [] then Below(store, h) == ZERO || Below(store, h) !in store.blocks
             else rest[0] == Below(store, h)
    ensures IsStoredWalk(store, [h] + rest)
  {
    var path := [h] + rest;
    assert StartUpStep(store, h, if rest != [] then Some(rest[0]) else None);
    hide StartUpStep;
    forall i | 0 < i < |path|
      ensures StartUpStep(store, path[i - 1], Some(path[i]))
    {
      if i > 1 {
        assert path[i - 1] == rest[i - 2] && path[i] == rest[i - 1];
      }
    }
  }

  lemma EmptyWalk(store: Store)
    ensures IsStoredWalk(store, [])
  {
  }

  /** The walk that collects the path. */
  method WalkDown(store: Store, tip: Option<Hash>) returns (path: seq<Hash>)
    requires Descends(store)
    ensures path == PathOf(store, tip) && forall h :: h in path ==> h in store.blocks
    ensures IsStoredWalk(store, path)
    ensures if tip.None? || tip.value == ZERO || tip.value !in store.blocks then path == []
            else path != [] && path[0] == tip.value
  {
    hide IsStoredWalk;
    assert IsStoredWalk(store, []) by {
      EmptyWalk(store);
    }
    if tip.Some? {
      PathIsWalk(store, tip.value);
    }
    var curr := tip;
    path := [];
    while curr.Some?
      invariant forall h :: h in path ==> h in store.blocks
      invariant PathOf(store, tip) == path + PathOf(store, curr)
      decreases if curr.Some? then 1 + Rank(store, curr.value) else 0
    {
      var h := curr.value;
      if h == ZERO || h !in store.blocks {
        break;
      }
      var next := if h in store.ghostdag && store.ghostdag[h].selectedParent != ZERO
                  then Some(store.ghostdag[h].selectedParent)
                  else if store.blocks[h].parents != [] then Some(store.blocks[h].parents[0])
                  else None;
      assert StoredPath(store, ZERO) == [] && PathOf(store, next) == StoredPath(store, Below(store, h));
      assert path + ([h] + PathOf(store, next)) == (path + [h]) + PathOf(store, next);
      path := path + [h];
      curr := next;
    }
  }

  class ZentraNode {
    const store: Store
    const emission: EmissionSchedule
    const utxo: UtxoSet
    var undos: Undos

    constructor (store: Store, emission: EmissionSchedule, utxo: UtxoSet)
      ensures this.store == store && this.emission == emission && this.utxo == utxo
    {
      this.store, this.emission, this.utxo, undos := store, emission, utxo, map[];
    }

    /** Walks down from `start` (node.rs:802-823). */
    method GetSelectedChain(start: Hash) returns (chain: seq<Hash>)
      requires Ranked(store)
      ensures chain == SelectedChain(store, start)
      ensures WalksFrom(store, start, chain)
    {
      hide WalksFrom;
      ChainIsWalk(store, start);
      chain := [];
      var current := start;
      while current != ZERO
        invariant chain + SelectedChain(store, current) == SelectedChain(store, start)
        decreases Rank(store, current)
      {
        assert chain + SelectedChain(store, current)
            == (chain + [current]) + SelectedChain(store, Next(store, current));
        chain := chain + [current];
        if current in store.ghostdag {
          current := store.ghostdag[current].selectedParent;
        } else if current in store.blocks {
          var parents := store.blocks[current].parents;
          if parents != [] { current := parents[0]; } else { current := ZERO; }
        } else {
          break;
        }
      }
    }

    /** Applies a block and credits the blue blocks it merges, undo data combined (node.rs:1089-1103). */
    method ApplyBlockWithMerges(block: Block) returns (undo: Option<BlockUndo>)
      modifies utxo
      ensures Applied(utxo.Value(), undo) == Connect(old(utxo.Value()), block, Merges(store, block))
      ensures undo.Some? ==>
                var own, made := ApplyAll(old(utxo.Value()), block).state.utxos, undo.value.mergeCoinbases;
                var blues := if block.hash in store.ghostdag then store.ghostdag[block.hash].blues else [];
                && (forall o :: o in made <==>
                      && o !in own
                      && exists m :: m in blues && m in store.blocks && CoinbaseMakes(store.blocks[m], o))
                && (forall o :: o in utxo.utxos <==> o in own || o in made)
    {
      hide CoinbaseMakes, CreditAll, ApplyTxs;
      undo := utxo.ApplyBlock(block);
      if undo.Some? {
        var made := CreditMerges(store, utxo, block);
        undo := Some(undo.value.(mergeCoinbases := made));
      }
    }

    /** The first loop: `n` of the first `m` blocks come off `chain`, tip first, until something is missing. */
    method DisconnectAll(chain: seq<Hash>, m: nat) returns (err: Option<ReorgError>, n: nat)
      requires m <= |chain| && Recorded(store, undos, chain)
      requires utxo.Value() == Replay(store, chain)
      modifies utxo
      ensures n == Reach(store, undos, chain, m) && AllStored(store, undos, chain, n)
      ensures Connects(store, chain, n) && utxo.Value() == Off(store, chain, n)
      ensures err.None? <==> n == m
    {
      hide Replay, Connect, Disconnect, Reach;
      err, n := None, 0;
      while n < m
        invariant err.None? && n <= m && AllStored(store, undos, chain, n)
        invariant Connects(store, chain, n) && utxo.Value() == Off(store, chain, n)
      {
        var h := chain[n];
        if h !in undos { ReachIs(store, undos, chain, n, m); err := Some(MissingUndo(h)); return; }
        if h !in store.blocks { ReachIs(store, undos, chain, n, m); err := Some(MissingBlock(h)); return; }
        NextOff(store, undos, chain, n);
        var ok := utxo.DisconnectBlock(store.blocks[h], undos[h]);
        n := n + 1;
      }
      ReachIs(store, undos, chain, n, m);
    }

    /** The body of the second loop: the block is validated, connected and its undo data stored. */
    method ConnectOne(h: Hash, ghost chain: seq<Hash>, ghost other: seq<Hash>) returns (err: Option<ReorgError>)
      requires chain != [] && chain[0] == h && h !in chain[1..] && h !in other
      requires utxo.Value() == Replay(store, chain[1..])
      requires Recorded(store, undos, chain[1..]) && Recorded(store, undos, other)
      modifies utxo, this
      ensures err.None? <==> ValidTip(store, emission, h, chain[1..])
      ensures err.None? ==> utxo.Value() == Replay(store, chain) && Recorded(store, undos, chain)
      ensures err.None? ==> h in undos && h in store.blocks && old(undos).Keys <= undos.Keys
      ensures err.Some? ==> utxo.Value() == old(utxo.Value()) && undos == old(undos)
      ensures Recorded(store, undos, other)
    {
      hide Disconnect, Undoable;
      if h !in store.blocks {
        return Some(MissingBlock(h));
      }
      var b := store.blocks[h];
      var subsidy := BlockReward(emission, b.blueScore);
      var reason := ValidateBlockTransactions(b, utxo, subsidy);
      if reason.Some? {
        return Some(Invalid(h, reason.value));
      }
      ValidatedBlockNeverFails(utxo.Value(), b, Merges(store, b), subsidy);
      ConnectIsReplay(store, chain);
      var undo := ApplyBlockWithMerges(b);
      RecordedFrame(store, undos, chain[1..], h, undo.value);
      RecordedFrame(store, undos, other, h, undo.value);
      undos := undos[h := undo.value];
      return None;
    }

    /** The second loop: up from `k`, until a block is missing or invalid; those from `j` on were connected. */
    method ConnectAll(chain: seq<Hash>, k: nat, ghost other: seq<Hash>) returns (err: Option<ReorgError>, j: nat)
      requires k <= |chain| && NoRepeats(chain)
      requires forall i :: 0 <= i < k ==> chain[i] !in other
      requires utxo.Value() == Replay(store, chain[k..])
      requires Recorded(store, undos, chain[k..]) && Recorded(store, undos, other)
      modifies utxo, this
      ensures j <= k && utxo.Value() == Replay(store, chain[j..])
      ensures Recorded(store, undos, chain[j..]) && Recorded(store, undos, other)
      ensures forall i :: j <= i < k ==> chain[i] in undos && chain[i] in store.blocks
      ensures j == Lowest(store, emission, chain, k) && AllValid(store, emission, chain, j, k)
      ensures old(undos).Keys <= undos.Keys && (err.None? <==> j == 0)
      ensures err.Some? ==> !ValidTip(store, emission, chain[j - 1], chain[j..])
    {
      hide Replay, ValidTip, Recorded, Lowest;
      err, j := None, k;
      while j > 0
        invariant err.None? && j <= k && utxo.Value() == Replay(store, chain[j..])
        invariant Recorded(store, undos, chain[j..]) && Recorded(store, undos, other)
        invariant forall i :: j <= i < k ==> chain[i] in undos && chain[i] in store.blocks
        invariant AllValid(store, emission, chain, j, k) && old(undos).Keys <= undos.Keys
      {
        var h := chain[j - 1];
        Suffixes(store, undos, chain, j - 1);
        err := ConnectOne(h, chain[j - 1..], other);
        if err.Some? {
          LowestIs(store, emission, chain, j, k);
          return;
        }
        j := j - 1;
      }
      LowestIs(store, emission, chain, 0, k);
    }

    /** Rollback, first loop: the blocks of `chain` from `j` up to `k` come off again. */
    method DisconnectConnected(chain: seq<Hash>, j: nat, k: nat)
      requires j <= k <= |chain|
      requires forall i :: j <= i < k ==> Stored(store, undos, chain[i])
      requires j < k ==> utxo.Value() == Replay(store, chain[j..]) && Recorded(store, undos, chain[j..])
      modifies utxo
      ensures j == k ==> utxo.Value() == old(utxo.Value())
      ensures j < k ==> Connects(store, chain[j..], k - j) && utxo.Value() == Off(store, chain[j..], k - j)
    {
      hide Replay, Connect, Disconnect;
      var i := j;
      while i < k
        invariant j <= i <= k
        invariant j < k ==> Connects(store, chain[j..], i - j) && utxo.Value() == Off(store, chain[j..], i - j)
        invariant j == k ==> utxo.Value() == old(utxo.Value())
      {
        var h := chain[i];
        assert chain[j..][i - j] == h;
        NextOff(store, undos, chain[j..], i - j);
        if h in undos && h in store.blocks {
          var _ := utxo.DisconnectBlock(store.blocks[h], undos[h]);
        }
        i := i + 1;
      }
    }

    /** Rollback, second loop: the first `m` blocks of `chain` are applied again, with the same undo data. */
    method ConnectDisconnected(chain: seq<Hash>, m: nat)
      requires m <= |chain| && Recorded(store, undos, chain)
      requires forall i :: 0 <= i < m ==> Stored(store, undos, chain[i])
      modifies utxo, this
      ensures old(utxo.Value()) == Replay(store, chain[m..]) ==>
                utxo.Value() == Replay(store, chain) && undos == old(undos)
      ensures undos.Keys == old(undos).Keys
    {
      hide Replay, Connect, Disconnect;
      ghost var good := utxo.Value() == Replay(store, chain[m..]);
      var n := m;
      while n > 0
        invariant 0 <= n <= m
        invariant undos.Keys == old(undos).Keys
        invariant good ==> undos == old(undos) && utxo.Value() == Replay(store, chain[n..])
      {
        n := n - 1;
        var h := chain[n];
        if good {
          Suffixes(store, undos, chain, n);
          assert TipConnects(store, chain[n..]);
          ConnectIsReplay(store, chain[n..]);
        }
        if h in store.blocks {
          var undo := ApplyBlockWithMerges(store.blocks[h]);
          if undo.Some? {
            undos := undos[h := undo.value];
          }
        }
      }
      assert chain[0..] == chain;
    }

    /** How far the two chains are above their fork (node.rs:1129-1160). */
    method FindFork(oldChain: seq<Hash>, newChain: seq<Hash>, ghost a: Hash, ghost b: Hash)
      returns (m: nat, k: nat)
      requires Ranked(store) && oldChain == SelectedChain(store, a) && newChain == SelectedChain(store, b)
      ensures m == Above(oldChain, newChain) && k == Above(newChain, oldChain)
    {
      ForkShares(store, a, b);
      ChainNoRepeats(store, a);
      hide SelectedChain, Ranked, Rank, Next;
      k := 0;
      while k < |newChain| && newChain[k] !in oldChain
        invariant k <= |newChain| && forall i :: 0 <= i < k ==> newChain[i] !in oldChain
      {
        k := k + 1;
      }
      m := |oldChain|;
      if k < |newChain| {
        m := 0;
        while oldChain[m] != newChain[k]
          invariant exists i :: m <= i < |oldChain| && oldChain[i] == newChain[k]
          invariant forall i :: 0 <= i < m ==> oldChain[i] != newChain[k]
          decreases |oldChain| - m
        {
          m := m + 1;
        }
      }
    }

    /** The body of Reorganize once the fork is found (node.rs:1162-1238). */
    method Move(oldChain: seq<Hash>, m: nat, newChain: seq<Hash>, k: nat) returns (err: Option<ReorgError>)
      requires m <= |oldChain| && k <= |newChain| && oldChain[m..] == newChain[k..]
      requires MeetsFork(store, undos, oldChain, m) && NoRepeats(newChain)
      requires forall i :: 0 <= i < k ==> newChain[i] !in oldChain
      requires utxo.Value() == Replay(store, oldChain) && Recorded(store, undos, oldChain)
      modifies utxo, this
      ensures err.None? <==> (&& AllStored(store, old(undos), oldChain, m)
                              && AllValid(store, emission, newChain, 0, k))
      ensures err.None? ==> utxo.Value() == Replay(store, newChain) && Recorded(store, undos, newChain)
      ensures err.Some? && RollsBack(store, emission, old(undos), oldChain, m, newChain, k) ==>
                utxo.Value() == old(utxo.Value()) && Recorded(store, undos, oldChain)
      ensures err.Some? ==> !(AllStored(store, undos, oldChain, m) && AllValid(store, emission, newChain, 0, k))
    {
      hide Replay, ValidTip, Recorded, AllStored, AllValid, Reach, Lowest, ForkKept, Connects, Off;
      Suffixes(store, undos, oldChain, m);
      ReachMeaning(store, undos, oldChain, m);
      LowestMeaning(store, emission, newChain, k);
      assert newChain[0..] == newChain;
      var n, j := 0, k;
      err, n := DisconnectAll(oldChain, m);
      OffIff(store, oldChain, n);
      AllStoredMeaning(store, undos, oldChain, n);
      if err.None? {
        err, j := ConnectAll(newChain, k, oldChain);
      }
      if err.Some? {
        DisconnectConnected(newChain, j, k);
        if j < k {
          OffIff(store, newChain[j..], k - j);
          assert newChain[j..][k - j..] == newChain[k..];
        }
        ghost var before := undos;
        ConnectDisconnected(oldChain, n);
        SameStored(store, before, undos, oldChain, m);
      }
    }

    /**
     Main theorem.  If the ledger is the replay of the old chain then a move to `newTip` ends, when it
     succeeds, in the replay of the new chain, and otherwise in the ledger it started from; it succeeds
     exactly when the undo data reaches down to the fork and every block above it is valid in its place.
     What it takes is that the ledger comes out right at the fork, and on the way back again; Chain.OffIff
     says exactly when it does.
     */
    method Reorganize(oldTip: Option<Hash>, newTip: Hash) returns (err: Option<ReorgError>)
      requires Ranked(store)
      requires oldTip.Some? ==> var from, to := SelectedChain(store, oldTip.value), SelectedChain(store, newTip);
                                MeetsFork(store, undos, from, Above(from, to))
      requires oldTip.None? ==> newTip != ZERO && Next(store, newTip) == ZERO
      requires utxo.Value() == Replay(store, ChainOf(store, oldTip))
      requires Recorded(store, undos, ChainOf(store, oldTip))
      modifies utxo, this
      ensures err.None? <==>
                CanMove(store, emission, old(undos), ChainOf(store, oldTip), SelectedChain(store, newTip))
      ensures err.None? ==> utxo.Value() == Replay(store, SelectedChain(store, newTip))
      ensures err.None? ==> Recorded(store, undos, SelectedChain(store, newTip))
      ensures err.Some? ==>
                var from, to := ChainOf(store, oldTip), SelectedChain(store, newTip);
                RollsBack(store, emission, old(undos), from, Above(from, to), to, Above(to, from)) ==>
                  utxo.Value() == old(utxo.Value()) && Recorded(store, undos, from)
      ensures err.Some? ==>
                !CanMove(store, emission, undos, ChainOf(store, oldTip), SelectedChain(store, newTip))
    {
      hide Replay, ValidTip, Recorded, AllStored, AllValid, Above, NoRepeats, SelectedChain, Stored;
      hide Reach, Lowest, ForkKept, RollsBack, MeetsFork, WalksFrom;
      if oldTip.None? {
        FirstBlock(store, emission, undos, newTip);
        assert [newTip][1..] == [];
        err := ConnectOne(newTip, [newTip], []);
        return;
      }
      if oldTip.value == newTip {
        StayingIsAMove(store, emission, undos, SelectedChain(store, newTip));
        return None;
      }
      var oldChain := GetSelectedChain(oldTip.value);
      var newChain := GetSelectedChain(newTip);
      var m, k := FindFork(oldChain, newChain, oldTip.value, newTip);
      ForkShares(store, oldTip.value, newTip);
      ChainNoRepeats(store, newTip);
      AllStoredMeaning(store, undos, oldChain, m);
      AllValidMeaning(store, emission, newChain, 0, k);
      err := Move(oldChain, m, newChain, k);
      AllStoredMeaning(store, undos, oldChain, m);
    }
  }

  lemma {:induction false} SameStored(store: Store, undos: Undos, undos': Undos, chain: seq<Hash>, m: nat)
    requires m <= |chain| && undos.Keys == undos'.Keys
    ensures AllStored(store, undos, chain, m) <==> AllStored(store, undos', chain, m)
  {
    if m > 0 {
      SameStored(store, undos, undos', chain, m - 1);
    }
  }

  lemma {:induction false} ReachMeaning(store: Store, undos: Undos, chain: seq<Hash>, m: nat)
    requires m <= |chain|
    ensures Reach(store, undos, chain, m) == m <==> AllStored(store, undos, chain, m)
  {
    hide Stored;
    if m > 0 {
      ReachMeaning(store, undos, chain, m - 1);
    }
  }

  lemma {:induction false} LowestMeaning(store: Store, s: EmissionSchedule, chain: seq<Hash>, k: nat)
    requires k <= |chain|
    ensures Lowest(store, s, chain, k) == 0 <==> AllValid(store, s, chain, 0, k)
    decreases k
  {
    hide ValidTip;
    AllValidMeaning(store, s, chain, 0, k);
    if k > 0 {
      AllValidMeaning(store, s, chain, 0, k - 1);
      LowestMeaning(store, s, chain, k - 1);
    }
  }

  lemma FirstBlock(store: Store, s: EmissionSchedule, undos: Undos, tip: Hash)
    requires Ranked(store) && tip != ZERO && Next(store, tip) == ZERO
    ensures SelectedChain(store, tip) == [tip]
    ensures CanMove(store, s, undos, [], [tip]) <==> ValidTip(store, s, tip, [])
  {
    hide ValidTip;
    assert SelectedChain(store, ZERO) == [];
    assert Above([], [tip]) == 0 && Above([tip][1..], []) == 0 && Above([tip], []) == 1;
    assert [tip][0] == tip && [tip][0 + 1..] == [];
  }

  lemma StayingIsAMove(store: Store, s: EmissionSchedule, undos: Undos, chain: seq<Hash>)
    ensures CanMove(store, s, undos, chain, chain)
  {
    assert Above(chain, chain) == 0;
  }

  // ----- validity of a whole chain

  ghost predicate ValidChain(store: Store, s: EmissionSchedule, chain: seq<Hash>) {
    chain == [] || (ValidChain(store, s, chain[1..]) && ValidTip(store, s, chain[0], chain[1..]))
  }

  lemma {:induction false} ValidSuffix(store: Store, s: EmissionSchedule, chain: seq<Hash>, n: nat)
    requires n <= |chain| && ValidChain(store, s, chain)
    ensures ValidChain(store, s, chain[n..])
  {
    hide ValidTip;
    if n == 0 {
      assert chain[0..] == chain;
    } else {
      ValidSuffix(store, s, chain[1..], n - 1);
      assert chain[1..][n - 1..] == chain[n..];
    }
  }

  lemma {:induction false} ValidExtend(store: Store, s: EmissionSchedule, chain: seq<Hash>, j: nat, k: nat)
    requires j <= k <= |chain| && ValidChain(store, s, chain[k..]) && AllValid(store, s, chain, j, k)
    ensures ValidChain(store, s, chain[j..])
    decreases k - j
  {
    hide ValidTip;
    if j < k {
      ValidExtend(store, s, chain, j + 1, k);
      assert chain[j..][1..] == chain[j + 1..];
    }
  }

  /** Successful moves keep the whole selected chain valid, each block in its place. */
  lemma MoveKeepsValid(store: Store, s: EmissionSchedule, undos: Undos, a: Hash, b: Hash)
    requires Ranked(store) && ValidChain(store, s, SelectedChain(store, a))
    requires CanMove(store, s, undos, SelectedChain(store, a), SelectedChain(store, b))
    ensures ValidChain(store, s, SelectedChain(store, b))
  {
    hide ValidTip;
    var from, to := SelectedChain(store, a), SelectedChain(store, b);
    var m, k := Above(from, to), Above(to, from);
    ForkShares(store, a, b);
    AllValidMeaning(store, s, to, 0, k);
    ValidSuffix(store, s, from, m);
    ValidExtend(store, s, to, 0, k);
    assert to[0..] == to;
  }

  // ----- what a valid block spends

  /**
   Whatever a valid block spends is an output of an earlier transaction of its own, or of a block below that is
   on the chain or merged into it; it is the signer's, and a coinbase below is at least ten scores old.
   */
  lemma SpendsWhatIsDue(store: Store, s: EmissionSchedule, chain: seq<Hash>, i: nat, j: nat) returns (h: Hash, t: nat)
    requires chain != [] && ValidTip(store, s, chain[0], chain[1..])
    requires 0 < i < |store.blocks[chain[0]].transactions| && j < |store.blocks[chain[0]].transactions[i].inputs|
    ensures h in store.blocks && t < |store.blocks[h].transactions|
    ensures var b, source := store.blocks[chain[0]], store.blocks[h].transactions[t];
            var inp := b.transactions[i].inputs[j];
            && Makes(source, inp.prev) && source.outputs[inp.prev.index].address == inp.signer
            && if inp.prev in Replay(store, chain[1..]).utxos then
                 && OnChain(store, chain[1..], h, t)
                 && (source.isCoinbase ==>
                       b.blueScore >= Min(store.blocks[h].blueScore + 10, 0xFFFF_FFFF_FFFF_FFFF))
               else h == chain[0] && t < i
  {
    hide Acceptable, Replay, TxOut, TxIn, CoinbaseOk, OnChain;
    var b := store.blocks[chain[0]];
    var u, inp := Replay(store, chain[1..]).utxos, b.transactions[i].inputs[j];
    AcceptableIff(u, b, Subsidy(s, b.blueScore));
    assert TransferRule(u, b.transactions, i, b.blueScore);
    assert SourceRule(u, b.transactions, i, inp, b.blueScore);
    if inp.prev in u {
      h, t := ReplayEntries(store, chain[1..], inp.prev);
      OnChainIsStored(store, chain[1..], h, t);
    } else {
      h := chain[0];
      t :| LastToMake(b.transactions, i, t, inp.prev)
           && b.transactions[t].outputs[inp.prev.index].address == inp.signer;
    }
  }

  lemma OnChainIsStored(store: Store, chain: seq<Hash>, h: Hash, t: nat)
    requires OnChain(store, chain, h, t)
    ensures h in store.blocks && t < |store.blocks[h].transactions|
  {
  }

  /** When a move is possible, in terms of what is stored and of the rules a block has to follow. */
  lemma CanMoveIff(store: Store, s: EmissionSchedule, undos: Undos, from: seq<Hash>, to: seq<Hash>)
    ensures CanMove(store, s, undos, from, to) <==>
              && (forall i :: 0 <= i < Above(from, to) ==> from[i] in undos && from[i] in store.blocks)
              && (forall i :: 0 <= i < Above(to, from) ==>
                    && to[i] in store.blocks
                    && var b := store.blocks[to[i]];
                       FollowsRules(Replay(store, to[i + 1..]).utxos, b, Subsidy(s, b.blueScore)))
  {
    hide Acceptable, FollowsRules, Replay, Above;
    forall i | 0 <= i < Above(to, from) && to[i] in store.blocks
      ensures ValidTip(store, s, to[i], to[i + 1..]) <==>
                FollowsRules(Replay(store, to[i + 1..]).utxos, store.blocks[to[i]],
                             Subsidy(s, store.blocks[to[i]].blueScore))
    {
      var b := store.blocks[to[i]];
      AcceptableIff(Replay(store, to[i + 1..]).utxos, b, Subsidy(s, b.blueScore));
    }
  }

  // ----- a move that the fork condition allows although a block that comes off is not undoable

  /** Blocks 2 and 3, on block 1, carry the same coinbase; block 4 is on block 1 as well. */
  ghost function RepeatedPair(): Store {
    var cb := Transaction(7, true, true, [], [Standard(1, 5)]);
    Store(map[1 := Block(1, [], 0, 0, 0, 0, true, []), 2 := Block(2, [1], 1, 0, 0, 0, true, [cb]),
              3 := Block(3, [2], 2, 0, 0, 0, true, [cb]), 4 := Block(4, [1], 1, 0, 0, 0, true, [])], map[])
  }

  lemma RepeatedPairChains()
    ensures var store := RepeatedPair();
            Ranked(store) && SelectedChain(store, 3) == [3, 2, 1] && SelectedChain(store, 4) == [4, 1]
            && Above([3, 2, 1], [4, 1]) == 2
  {
    var store := RepeatedPair();
    assert SelectedChain(store, ZERO) == [] && SelectedChain(store, 1) == [1];
    assert SelectedChain(store, 2) == [2, 1];
    assert [3, 2, 1][1..] == [2, 1] && [2, 1][1..] == [1];
    assert Above([1], [4, 1]) == 0 && Above([2, 1], [4, 1]) == 1;
  }

  lemma RepeatedPairReplay()
    ensures var store := RepeatedPair();
            && Replay(store, [1]) == EMPTY && OutPoint(7, 0) in Replay(store, [2, 1]).utxos
            && Acceptable(Replay(store, [1]).utxos, store.blocks[2], 5)
            && Acceptable(Replay(store, [2, 1]).utxos, store.blocks[3], 5)
  {
    var store := RepeatedPair();
    var two, three := store.blocks[2], store.blocks[3];
    var cb := two.transactions[0];
    assert OutSum(cb.outputs, 0) == 0 && TxOut(cb) == 5;
    assert Replay(store, []) == EMPTY && [1][1..] == [] && ReplayBlock(store, EMPTY, store.blocks[1]) == EMPTY;
    var s := Replay(store, [1]);
    assert TxsOk(s.utxos, [cb], 0, 1) && Acceptable(s.utxos, two, 5);
    assert [2, 1][1..] == [1] && Merges(store, two) == [];
    assert ApplyTxs(s, [cb], 0, 1) == Applied(s, Some([]));
    ApplyTxMeaning(s, cb, 1);
    assert Created(cb, 0) == {} && OutPoint(7, 0) in AllCreated(cb);
    var t := Replay(store, [2, 1]);
    assert TxsOk(t.utxos, [cb], 0, 2) && Acceptable(t.utxos, three, 5);
  }

  /**
   From 3 the ledger can move to 4: both blocks, accepted in their places, come off although the upper one is
   not undoable in its own, because what it overwrote the lower one had created.
   */
  lemma RepeatedPairComesOff()
    ensures var store := RepeatedPair();
            && Ranked(store) && SelectedChain(store, 3) == [3, 2, 1] && SelectedChain(store, 4) == [4, 1]
            && Acceptable(Replay(store, [1]).utxos, store.blocks[2], 5)
            && Acceptable(Replay(store, [2, 1]).utxos, store.blocks[3], 5)
            && !UndoableTip(store, 3, [2, 1])
            && Above([3, 2, 1], [4, 1]) == 2 && forall undos :: MeetsFork(store, undos, [3, 2, 1], 2)
  {
    var store := RepeatedPair();
    var cb := store.blocks[3].transactions[0];
    hide Replay, Acceptable, Touched, Above, SelectedChain, Ranked;
    RepeatedPairChains();
    RepeatedPairReplay();
    assert Created(cb, 0) == {} && OutPoint(7, 0) in AllCreated(cb) && AllSpent(cb) == {};
    assert SpentBy([cb], 0) == {} && OutPoint(7, 0) in Overwritten([cb], 1);
    assert [3, 2, 1][2..] == [1];
    assert ForkKept(store, [3, 2, 1], 2);
  }

  // ----- a blue is paid and a red is not

  /** Block 9, on block 1, has merged blue 7 and red 8, each with a coinbase of its own. */
  ghost function BlueAndRed(): Store {
    var seven := Transaction(70, true, true, [], [Standard(2, 5)]);
    var eight := Transaction(80, true, true, [], [Standard(3, 5)]);
    Store(map[1 := Block(1, [], 0, 0, 0, 0, true, []), 7 := Block(7, [1], 1, 0, 0, 0, true, [seven]),
              8 := Block(8, [1], 1, 0, 0, 0, true, [eight]), 9 := Block(9, [1, 7, 8], 2, 0, 0, 0, true, [])],
          map[9 := GhostdagData(2, 1, 1, [7], [8])])
  }

  lemma BlueIsPaidRedIsNot()
    ensures var store := BlueAndRed();
            && Ranked(store) && SelectedChain(store, 9) == [9, 1]
            && OutPoint(70, 0) in Replay(store, [9, 1]).utxos
            && Replay(store, [9, 1]).utxos[OutPoint(70, 0)] == UtxoEntry(5, 2, 1, true)
            && OutPoint(80, 0) !in Replay(store, [9, 1]).utxos
  {
    var store := BlueAndRed();
    var b := store.blocks[9];
    assert SelectedChain(store, ZERO) == [] && SelectedChain(store, 1) == [1] && SelectedChain(store, 9) == [9, 1];
    assert [1][1..] == [] && Replay(store, []) == EMPTY && Replay(store, [1]) == EMPTY;
    assert [9, 1][1..] == [1] && ApplyAll(EMPTY, b).state == EMPTY;
    hide Replay;
    ReplayStep(store, [9, 1], OutPoint(70, 0));
    ReplayStep(store, [9, 1], OutPoint(80, 0));
    assert 7 in [7] && CoinbaseMakes(store.blocks[7], OutPoint(70, 0));
  }
}
