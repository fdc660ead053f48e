/**
 The supply bound over a whole selected chain: what the ledger holds and what was burned never
 exceeds the emission schedule at the tip, merged coinbases counted apart
 (crates/zentra-consensus/src/emission.rs:25-65, crates/zentrad/src/node.rs:1050-1063).
 */
module Supply {
  import opened Types
  import opened Ledger
  import opened Undo
  import opened Emission
  import opened Validation
  import opened Conservation
  import opened Chain
  import opened Reorg
  import Ghostdag

  /** Block headers carry the score that GhostDAG computed; connecting a block checks this (node.rs:1316). */
  ghost predicate HeadersAgree(store: Store) {
    forall h :: h in store.blocks && h in store.ghostdag ==>
      store.blocks[h].blueScore == store.ghostdag[h].blueScore
  }

  /** The scores that GhostDAG computes make every walk down the selected parents end, start-up's too. */
  lemma StoreIsRanked(store: Store, d: Ghostdag.Dag, k: nat)
    requires Ghostdag.Consistent(d, k) && store.ghostdag == d.gd && store.blocks.Keys <= d.gd.Keys
    requires forall h :: h in store.blocks ==> store.blocks[h].parents == d.parents[h]
    ensures Ranked(store) && Descends(store) && GenesisHasNoParents(store)
  {
    forall h | h != ZERO && Next(store, h) != ZERO
      ensures Rank(store, Next(store, h)) < Rank(store, h)
    {
      Ghostdag.BlockStructure(d, h, k);
    }
    forall h | h in store.blocks
      ensures store.ghostdag[h].selectedParent == ZERO ==> store.blocks[h].parents == []
      ensures Below(store, h) != ZERO ==> Below(store, h) == Next(store, h)
    {
      Ghostdag.BlockStructure(d, h, k);
    }
  }

  /** What merged coinbases paid along a chain. */
  ghost function ChainCredit(store: Store, chain: seq<Hash>): nat {
    if chain == [] then 0
    else
      ChainCredit(store, chain[1..])
      + if chain[0] in store.blocks then
          var b := store.blocks[chain[0]];
          MergeCredit(ApplyAll(Replay(store, chain[1..]), b).state.utxos, Merges(store, b), |Merges(store, b)|)
        else 0
  }

  /** Every block's exact sums are covered in its place. */
  ghost predicate ChainCovered(store: Store, s: EmissionSchedule, chain: seq<Hash>) {
    chain == []
    || (ChainCovered(store, s, chain[1..]) && TipCovered(store, s, chain[0], chain[1..]))
  }

  ghost predicate TipCovered(store: Store, s: EmissionSchedule, h: Hash, below: seq<Hash>) {
    h in store.blocks ==>
      var b := store.blocks[h];
      ExactSumsCover(Replay(store, below), b, Subsidy(s, b.blueScore))
  }

  /** They are if output sums fit a word. */
  lemma {:induction false} FittingChainIsCovered(store: Store, s: EmissionSchedule, chain: seq<Hash>)
    requires ValidChain(store, s, chain)
    requires forall h :: h in chain && h in store.blocks ==> OutputsFit(store.blocks[h].transactions)
    ensures ChainCovered(store, s, chain)
  {
    hide Replay, Acceptable, OutputsFit, ExactSumsCover;
    if chain != [] {
      FittingChainIsCovered(store, s, chain[1..]);
      assert chain[0] in chain;
      var b := store.blocks[chain[0]];
      FittingOutputsAreCovered(Replay(store, chain[1..]), b, Subsidy(s, b.blueScore));
    }
  }

  /** One more valid block: worth grows by at most its subsidy and its merge credit. */
  lemma {:induction false} StepWorth(store: Store, s: EmissionSchedule, chain: seq<Hash>)
    requires chain != [] && ValidTip(store, s, chain[0], chain[1..]) && TipCovered(store, s, chain[0], chain[1..])
    ensures Worth(Replay(store, chain)) + ChainCredit(store, chain[1..])
         <= Worth(Replay(store, chain[1..])) + Subsidy(s, store.blocks[chain[0]].blueScore) + ChainCredit(store, chain)
  {
    hide ExactSumsCover, Fresh;
    var st, b := Replay(store, chain[1..]), store.blocks[chain[0]];
    BlockConservesValue(st, b, Subsidy(s, b.blueScore));
    MergeTotal(ApplyAll(st, b).state.utxos, Merges(store, b), |Merges(store, b)|);
  }

  /** Present, in place, and with a score above the block below: the shape of a selected chain. */
  ghost predicate Rising(store: Store, chain: seq<Hash>) {
    forall i :: 0 < i < |chain| && chain[i - 1] in store.blocks && chain[i] in store.blocks ==>
      store.blocks[chain[i]].blueScore < store.blocks[chain[i - 1]].blueScore
  }

  lemma {:induction false} SelectedRises(store: Store, h: Hash)
    requires Ranked(store) && HeadersAgree(store)
    ensures Rising(store, SelectedChain(store, h))
    decreases Rank(store, h)
  {
    if h != ZERO {
      var next := Next(store, h);
      var chain, below := SelectedChain(store, h), SelectedChain(store, next);
      SelectedRises(store, next);
      assert chain == [h] + below;
      forall i | 0 < i < |chain| && chain[i - 1] in store.blocks && chain[i] in store.blocks
        ensures store.blocks[chain[i]].blueScore < store.blocks[chain[i - 1]].blueScore
      {
        if i > 1 {
          assert chain[i] == below[i - 1] && chain[i - 1] == below[i - 2];
        }
      }
    }
  }

  lemma {:induction false} ChainSupply(store: Store, s: EmissionSchedule, chain: seq<Hash>)
    requires chain != [] && Rising(store, chain)
    requires ValidChain(store, s, chain) && ChainCovered(store, s, chain)
    ensures chain[0] in store.blocks
    ensures Worth(Replay(store, chain))
         <= Emitted(s, store.blocks[chain[0]].blueScore + 1) + ChainCredit(store, chain)
  {
    hide Replay, MergeCredit, Acceptable, ExactSumsCover;
    var below := chain[1..];
    StepWorth(store, s, chain);
    if below == [] {
      EmptyChain(store);
    } else {
      assert forall i :: 0 <= i < |below| ==> below[i] == chain[i + 1];
      ChainSupply(store, s, below);
      EmittedGrows(s, store.blocks[below[0]].blueScore + 1, store.blocks[chain[0]].blueScore);
    }
  }

  lemma EmptyChain(store: Store)
    ensures Worth(Replay(store, [])) == 0 && ChainCredit(store, []) == 0
  {
  }

  /** Main theorem: live value and burns stay within the schedule at the tip, plus merge credits. */
  lemma {:induction false} SupplyBound(store: Store, s: EmissionSchedule, tip: Hash)
    requires Ranked(store) && HeadersAgree(store) && tip in store.blocks && tip != ZERO
    requires var chain := SelectedChain(store, tip);
             ValidChain(store, s, chain) && ChainCovered(store, s, chain)
    ensures var chain := SelectedChain(store, tip);
            Worth(Replay(store, chain)) <= Emitted(s, store.blocks[tip].blueScore + 1) + ChainCredit(store, chain)
  {
    SelectedRises(store, tip);
    ChainSupply(store, s, SelectedChain(store, tip));
  }

  /** Above the fork towards `to`, nothing live is lost when the blocks of `from` come off. */
  ghost predicate KeepsFork(store: Store, from: Hash, to: Hash)
    requires Ranked(store)
  {
    var f, t := SelectedChain(store, from), SelectedChain(store, to);
    ForkKept(store, f, Above(f, t))
  }

  /** Nor wherever a move from one to the other can stop and turn back. */
  ghost predicate TurnsBack(store: Store, from: Hash, to: Hash)
    requires Ranked(store)
  {
    var f, t := SelectedChain(store, from), SelectedChain(store, to);
    && (forall n :: 0 <= n <= Above(f, t) ==> ForkKept(store, f, n))
    && (forall j :: 0 <= j <= Above(t, f) ==> ForkKept(store, t[j..], Above(t, f) - j))
  }

  ghost function TipAt(start: Hash, tips: seq<Hash>, i: nat): Hash
    requires i <= |tips|
  {
    if i == 0 then start else tips[i - 1]
  }

  /** The ledger is the replay of a valid selected chain and its worth is within the schedule. */
  ghost predicate InStep(store: Store, s: EmissionSchedule, st: State, tip: Hash)
    requires Ranked(store)
  {
    && st == Replay(store, SelectedChain(store, tip)) && ValidChain(store, s, SelectedChain(store, tip))
    && tip in store.blocks
    && Worth(st) <= Emitted(s, store.blocks[tip].blueScore + 1) + ChainCredit(store, SelectedChain(store, tip))
  }

  /**
   A run of tip changes (node.rs:1347-1352), up to the first that fails: throughout, the ledger is in step
   with the tip reached, whatever side chains the tips are on.
   */
  method FollowTips(node: ZentraNode, start: Hash, tips: seq<Hash>) returns (tip: Hash, done: nat)
    requires Ranked(node.store) && HeadersAgree(node.store)
    requires forall t :: t in tips ==>
               t != ZERO && ChainCovered(node.store, node.emission, SelectedChain(node.store, t))
    requires forall i :: 0 <= i < |tips| ==> KeepsFork(node.store, TipAt(start, tips, i), tips[i])
    requires InStep(node.store, node.emission, node.utxo.Value(), start)
    requires Recorded(node.store, node.undos, SelectedChain(node.store, start))
    modifies node, node.utxo
    ensures done <= |tips| && tip == TipAt(start, tips, done)
    ensures done < |tips| ==>
              !CanMove(node.store, node.emission, node.undos, SelectedChain(node.store, tip),
                       SelectedChain(node.store, tips[done]))
    ensures done == |tips| || TurnsBack(node.store, tip, tips[done]) ==>
              && InStep(node.store, node.emission, node.utxo.Value(), tip)
              && Recorded(node.store, node.undos, SelectedChain(node.store, tip))
  {
    hide Replay, Recorded, InStep, CanMove, ForkKept, ValidChain, HeadersAgree, SelectedChain, Ranked;
    hide KeepsFork, TurnsBack, RollsBack, MeetsFork, Above, ChainCovered;
    tip, done := start, 0;
    while done < |tips|
      invariant 0 <= done <= |tips| && tip == TipAt(start, tips, done)
      invariant InStep(node.store, node.emission, node.utxo.Value(), tip)
      invariant Recorded(node.store, node.undos, SelectedChain(node.store, tip))
    {
      ghost var before := node.undos;
      ForkAhead(node.store, node.emission, before, tip, tips[done]);
      InStepMeaning(node.store, node.emission, node.utxo.Value(), tip);
      var err := node.Reorganize(Some(tip), tips[done]);
      if err.Some? {
        return;
      }
      StaysInStep(node.store, node.emission, before, node.utxo.Value(), tip, tips[done]);
      tip, done := tips[done], done + 1;
    }
  }

  lemma ForkAhead(store: Store, s: EmissionSchedule, undos: Undos, from: Hash, to: Hash)
    requires Ranked(store) && KeepsFork(store, from, to)
    ensures var f, t := SelectedChain(store, from), SelectedChain(store, to);
            && MeetsFork(store, undos, f, Above(f, t))
            && (TurnsBack(store, from, to) ==> RollsBack(store, s, undos, f, Above(f, t), t, Above(t, f)))
  {
    hide ForkKept, Reach, Lowest, Above, SelectedChain, Ranked;
  }

  lemma InStepMeaning(store: Store, s: EmissionSchedule, st: State, tip: Hash)
    requires Ranked(store) && InStep(store, s, st, tip)
    ensures st == Replay(store, SelectedChain(store, tip)) && ValidChain(store, s, SelectedChain(store, tip))
  {
  }

  lemma StaysInStep(store: Store, s: EmissionSchedule, undos: Undos, st: State, from: Hash, to: Hash)
    requires Ranked(store) && HeadersAgree(store) && to != ZERO && ChainCovered(store, s, SelectedChain(store, to))
    requires ValidChain(store, s, SelectedChain(store, from)) && st == Replay(store, SelectedChain(store, to))
    requires CanMove(store, s, undos, SelectedChain(store, from), SelectedChain(store, to))
    ensures InStep(store, s, st, to)
  {
    hide CanMove, Replay, Acceptable;
    MoveKeepsValid(store, s, undos, from, to);
    assert SelectedChain(store, to)[0] == to;
    SupplyBound(store, s, to);
  }

  /** The cap itself: nothing but merged coinbases can lift the ledger above the maximum supply. */
  lemma SupplyCapped(store: Store, tip: Hash)
    requires Ranked(store) && HeadersAgree(store) && tip in store.blocks && tip != ZERO
    requires var chain := SelectedChain(store, tip);
             ValidChain(store, ZENTRA, chain) && ChainCovered(store, ZENTRA, chain)
    ensures var chain := SelectedChain(store, tip);
            Total(Replay(store, chain).utxos) < MAX_SUPPLY_ZENTS + ChainCredit(store, chain)
  {
    SupplyBound(store, ZENTRA, tip);
    CapNeverBinds(store.blocks[tip].blueScore + 1);
  }

  /** The genesis block, which no code validates, is acceptable: its reward is the subsidy at height 0. */
  lemma GenesisIsAcceptable(b: Block, miner: Address, txid: Hash)
    requires b.blueScore == 0 && b.merkleOk
    requires b.transactions == [Transaction(txid, true, true, [], [Standard(miner, INITIAL_REWARD_ZENTS)])]
    ensures Acceptable(map[], b, Subsidy(ZENTRA, 0))
  {
    var cb := b.transactions[0];
    assert OutSum(cb.outputs, 0) == 0 && TxOut(cb) == INITIAL_REWARD_ZENTS;
    assert Uncapped(ZENTRA, 0) == 0 && Uncapped(ZENTRA, 1) == EpochReward(ZENTRA, 0) == INITIAL_REWARD_ZENTS;
    assert TxsOk(map[], b.transactions, 0, 0);
  }
}
