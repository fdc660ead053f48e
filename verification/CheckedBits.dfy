/**
 What the difficulty check at node.rs:897-904 means for a whole block store, and when the miner, who builds on
 all tips and follows the selected one, meets it (crates/zentrad/src/node.rs:827-881 and 386-451).
 */
module CheckedBits {
  import opened Types
  import opened Ledger
  import opened Chain
  import opened Retarget
  import opened Agreement
  import opened Ghostdag
  import DagGraphs

  // ----- the miner's parents are the tips, and its manager follows the selected one

  ghost predicate SameHeaders(store: Store, hs: DagGraphs.Headers) {
    hs.Keys == store.blocks.Keys && forall h :: h in hs ==> hs[h].blueScore == store.blocks[h].blueScore
  }

  /** `j` is the last place of the highest known score. */
  ghost predicate LastHighest(store: Store, parents: seq<Hash>, n: nat, j: nat)
    requires n <= |parents|
  {
    && j < n && parents[j] in store.blocks
    && forall i :: 0 <= i < n && parents[i] in store.blocks ==>
         var mine, other := store.blocks[parents[j]].blueScore, store.blocks[parents[i]].blueScore;
         other <= mine && (j < i ==> other < mine)
  }

  lemma {:induction false} HeaviestIsLastHighest(store: Store, parents: seq<Hash>, n: nat) returns (j: nat)
    requires n <= |parents| && exists i :: 0 <= i < n && parents[i] in store.blocks
    ensures LastHighest(store, parents, n, j)
    ensures Heaviest(store, parents, n) == (parents[j], store.blocks[parents[j]].blueScore)
  {
    if exists i :: 0 <= i < n - 1 && parents[i] in store.blocks {
      j := HeaviestIsLastHighest(store, parents, n - 1);
      if parents[n - 1] in store.blocks
         && store.blocks[parents[n - 1]].blueScore >= store.blocks[parents[j]].blueScore {
        j := n - 1;
      }
    } else {
      NoneKnown(store, parents, n - 1);
      j := n - 1;
    }
  }

  lemma {:induction false} NoneKnown(store: Store, parents: seq<Hash>, n: nat)
    requires n <= |parents| && forall i :: 0 <= i < n ==> parents[i] !in store.blocks
    ensures Heaviest(store, parents, n) == (ZERO, 0)
  {
    if n > 0 {
      NoneKnown(store, parents, n - 1);
    }
  }

  /**
   Built on the tips, a block's heaviest parent is the selected tip exactly if, after some place of that tip
   in the list, no other known tip has its score.
   */
  lemma HeaviestIsSelectedIff(store: Store, hs: DagGraphs.Headers, tips: seq<Hash>, best: Hash)
    requires SameHeaders(store, hs) && DagGraphs.IsBest(hs, tips, best)
    ensures Heaviest(store, tips, |tips|).0 == best
       <==> exists j :: 0 <= j < |tips| && tips[j] == best
              && forall i :: j < i < |tips| && tips[i] in hs ==> hs[tips[i]].blueScore < hs[best].blueScore
  {
    var b :| 0 <= b < |tips| && tips[b] == best;
    var j := HeaviestIsLastHighest(store, tips, |tips|);
    assert tips[j] in tips;
    assert hs[tips[j]].blueScore == hs[best].blueScore;
  }

  /**
   Two tips of equal score and work, listed lowest hash first: the manager follows the first and validation
   the second, and the bits they ask of the miner's own block differ.
   */
  lemma TieSplitsMinerAndValidator(window: nat)
    requires window >= 1
    ensures exists store: Store, hs: DagGraphs.Headers, tips: seq<Hash>, best: Hash ::
              && Ranked(store) && SameHeaders(store, hs) && DagGraphs.IsBest(hs, tips, best)
              && ExpectedBits(store, best, 0, window)
                 != ExpectedBits(store, Heaviest(store, tips, |tips|).0, 0, window)
  {
    var store, hs := TiedStore(), TiedHeaders();
    TiedStoreIsRanked();
    assert DagGraphs.IsBest(hs, [7, 8], 7);
    assert Heaviest(store, [7, 8], 0) == (ZERO, 0) && Heaviest(store, [7, 8], 1) == (7, 1);
    assert Heaviest(store, [7, 8], 2) == (8, 1);
    TiedHistories();
    var e := Entry(0, GENESIS_BITS);
    assert Newest([e, e], window + 1) == [e, e] && Newest([e], window + 1) == [e];
    FastBlockIsHarder();
  }

  ghost function TiedBlock(h: Hash, parents: seq<Hash>, score: u64, lane: LaneId): Block {
    Block(h, parents, score, lane, 0, GENESIS_BITS, true, [])
  }

  /** A genesis block 1 and two children, the first in lane 0 and the second in lane 1. */
  ghost function TiedStore(): Store {
    Store(map[1 := TiedBlock(1, [], 0, 0), 7 := TiedBlock(7, [1], 1, 0), 8 := TiedBlock(8, [1], 1, 1)],
          map[1 := GENESIS_DATA, 7 := GhostdagData(1, 1, 1, [], []), 8 := GhostdagData(1, 1, 1, [], [])])
  }

  ghost function TiedHeaders(): DagGraphs.Headers {
    map[1 := DagGraphs.Header([], 0, 0), 7 := DagGraphs.Header([1], 1, 1), 8 := DagGraphs.Header([1], 1, 1)]
  }

  lemma TiedStoreIsRanked()
    ensures Ranked(TiedStore()) && SameHeaders(TiedStore(), TiedHeaders())
  {
  }

  lemma TiedHistories()
    requires Ranked(TiedStore())
    ensures var e := Entry(0, GENESIS_BITS);
            LaneHistory(TiedStore(), 7, 0) == [e, e] && LaneHistory(TiedStore(), 8, 0) == [e]
  {
    var store, e := TiedStore(), Entry(0, GENESIS_BITS);
    assert LaneHistory(store, ZERO, 0) == [];
    assert LaneHistory(store, 1, 0) == [] + [e];
    assert LaneHistory(store, 7, 0) == LaneHistory(store, 1, 0) + [e];
  }

  // ----- the retarget rule over a whole store

  ghost predicate HasPredecessor(store: Store, h: Hash) {
    h in store.blocks && (store.blocks[h].parents != [] || Next(store, h) != ZERO)
  }

  /** Each block but a first one carries the bits that validation expected of it (node.rs:897-904). */
  ghost predicate BitsChecked(store: Store, window: nat)
    requires Ranked(store)
  {
    forall h :: HasPredecessor(store, h) ==> BitsCheckedAt(store, window, h)
  }

  ghost predicate BitsCheckedAt(store: Store, window: nat, h: Hash)
    requires Ranked(store) && h in store.blocks
  {
    var b := store.blocks[h];
    var heaviest := Heaviest(store, b.parents, |b.parents|).0;
    b.bits == ExpectedBits(store, heaviest, b.lane, window) && Rank(store, heaviest) < Rank(store, h)
  }

  /** Then all of them are in range, and so is all but the oldest entry of every lane's history. */
  lemma {:induction false} StoredBlocksInRange(store: Store, window: nat, h: Hash)
    requires Ranked(store) && BitsChecked(store, window) && window <= 0x1000
    ensures HasPredecessor(store, h) ==> InRange(store.blocks[h].bits)
    ensures forall lane: LaneId :: NewerInRange(LaneHistory(store, h, lane))
    decreases Rank(store, h)
  {
    hide InRange, NextBits;
    if h in store.blocks && h != ZERO {
      if HasPredecessor(store, h) {
        assert BitsCheckedAt(store, window, h);
        var b := store.blocks[h];
        var heaviest := Heaviest(store, b.parents, |b.parents|).0;
        StoredBlocksInRange(store, window, heaviest);
        ExpectedInRange(store, heaviest, b.lane, window);
      }
      if Next(store, h) != ZERO {
        StoredBlocksInRange(store, window, Next(store, h));
      }
    }
  }

  lemma ExpectedInRange(store: Store, tip: Hash, lane: LaneId, window: nat)
    requires Ranked(store) && window <= 0x1000 && NewerInRange(LaneHistory(store, tip, lane))
    ensures var bits := ExpectedBits(store, tip, lane, window); 0 <= bits < 0x1_0000_0000 && InRange(bits)
  {
    hide InRange, NextBits;
    GenesisInRange();
    NextInRange(Newest(LaneHistory(store, tip, lane), window + 1));
  }

  lemma GenesisInRange()
    ensures InRange(GENESIS_BITS)
  {
    GenesisValue();
  }

  /** In a store that GhostDAG built the heaviest parent always has the lower rank. */
  lemma HeaviestIsLower(store: Store, d: Ghostdag.Dag, k: nat, h: Hash)
    requires Ghostdag.Consistent(d, k) && store.ghostdag == d.gd && store.blocks.Keys <= d.gd.Keys && h in store.blocks
    requires store.blocks[h].parents == d.parents[h]
    ensures Rank(store, Heaviest(store, d.parents[h], |d.parents[h]|).0) < Rank(store, h)
  {
    var ps := d.parents[h];
    Ghostdag.BlockStructure(d, h, k);
    HeaviestIsMaximal(store, ps, |ps|);
  }
}
