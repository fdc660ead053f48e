/**
 Miner and validator ask for the same difficulty: the manager rebuilt from the whole selected chain
 and the replay of its newest twenty same-lane blocks leave the same window
 (crates/zentrad/src/node.rs:825-882 and 1425-1455, crates/zentra-consensus/src/difficulty.rs:69-75).
 */
module Agreement {
  import opened Types
  import opened Ledger
  import opened Chain
  import opened Retarget

  const REPLAYED: nat := 20

  /** One lane's blocks on the way down from `h`, oldest first; the walk ends at a missing header. */
  ghost function LaneHistory(store: Store, h: Hash, lane: LaneId): seq<Entry>
    requires Ranked(store)
    decreases Rank(store, h)
  {
    if h == ZERO || h !in store.blocks then []
    else
      var b, older := store.blocks[h], LaneHistory(store, Next(store, h), lane);
      if b.lane == lane then older + [Entry(b.timestamp, b.bits)] else older
  }

  ghost predicate InLane(store: Store, h: Hash, lane: LaneId) { h in store.blocks && store.blocks[h].lane == lane }

  /** How many of the first `n` blocks of a chain are in the lane. */
  ghost function LaneCount(store: Store, c: seq<Hash>, n: nat, lane: LaneId): nat
    requires n <= |c|
  {
    if n == 0 then 0 else (if InLane(store, c[0], lane) then 1 else 0) + LaneCount(store, c[1..], n - 1, lane)
  }

  lemma ChainStarts(store: Store, tip: Hash)
    requires Ranked(store)
    ensures SelectedChain(store, tip) != [] ==> tip != ZERO && SelectedChain(store, tip)[0] == tip
  {
  }

  /** The history is that of the block below, and the block's own entry if it is in the lane. */
  lemma LaneStep(store: Store, tip: Hash, lane: LaneId)
    requires Ranked(store) && tip != ZERO && tip in store.blocks
    ensures var b, below := store.blocks[tip], Next(store, tip);
            && SelectedChain(store, tip) == [tip] + SelectedChain(store, below)
            && LaneHistory(store, tip, lane)
               == LaneHistory(store, below, lane) + if b.lane == lane then [Entry(b.timestamp, b.bits)] else []
  {
    NextIsLower(store, tip);
  }

  /** Down to the first missing block there are as many entries as blocks of the lane. */
  lemma {:induction false} LaneHistoryLength(store: Store, tip: Hash, lane: LaneId, n: nat)
    requires Ranked(store) && n <= |SelectedChain(store, tip)|
    requires forall j :: 0 <= j < n ==> SelectedChain(store, tip)[j] in store.blocks
    requires n < |SelectedChain(store, tip)| ==> SelectedChain(store, tip)[n] !in store.blocks
    ensures |LaneHistory(store, tip, lane)| == LaneCount(store, SelectedChain(store, tip), n, lane)
    decreases n
  {
    if n > 0 {
      hide LaneHistory, SelectedChain, Ranked, Next;
      var c, rest := SelectedChain(store, tip), SelectedChain(store, Next(store, tip));
      ChainStarts(store, tip);
      LaneStep(store, tip, lane);
      assert c[1..] == rest && forall j :: 0 <= j < |rest| ==> rest[j] == c[j + 1];
      LaneHistoryLength(store, Next(store, tip), lane, n - 1);
    }
  }

  /**
   And each block of the lane above the first missing one has its own timestamp and bits there, the nearer to the
   tip the later in the list.
   */
  lemma {:induction false} LaneHistoryAt(store: Store, tip: Hash, lane: LaneId, i: nat)
    requires Ranked(store) && i < |SelectedChain(store, tip)|
    requires forall j :: 0 <= j <= i ==> SelectedChain(store, tip)[j] in store.blocks
    requires store.blocks[SelectedChain(store, tip)[i]].lane == lane
    ensures var c, es := SelectedChain(store, tip), LaneHistory(store, tip, lane);
            var b, k := store.blocks[c[i]], LaneCount(store, c, i, lane);
            k < |es| && es[|es| - 1 - k] == Entry(b.timestamp, b.bits)
    decreases i
  {
    hide LaneHistory, SelectedChain, Ranked, Next;
    var c, rest := SelectedChain(store, tip), SelectedChain(store, Next(store, tip));
    ChainStarts(store, tip);
    LaneStep(store, tip, lane);
    if i > 0 {
      assert c[1..] == rest && forall j :: 0 <= j < |rest| ==> rest[j] == c[j + 1];
      LaneHistoryAt(store, Next(store, tip), lane, i - 1);
    }
  }

  lemma NextIsLower(store: Store, h: Hash)
    requires Ranked(store) && h != ZERO
    ensures Rank(store, Next(store, h)) < Rank(store, h)
  {
  }

  /** Recording entries one after the other into a window. */
  ghost function RecordAll(h: seq<Entry>, es: seq<Entry>, window: nat): seq<Entry>
    decreases |es|
  {
    if es == [] then h else RecordAll(Record(h, es[0], window), es[1..], window)
  }

  /** A window keeps exactly its newest entries. */
  lemma {:induction false} RecordAllKeepsNewest(h: seq<Entry>, es: seq<Entry>, window: nat)
    requires |h| <= window + 1
    ensures RecordAll(h, es, window) == Newest(h + es, window + 1)
    decreases |es|
  {
    if es == [] {
      assert h + es == h;
    } else {
      var next := Record(h, es[0], window);
      RecordAllKeepsNewest(next, es[1..], window);
      var all := h + [es[0]];
      assert h + es == all + es[1..];
      NewestOfNewest(all, es[1..], window + 1);
    }
  }

  lemma NewestOfNewest(a: seq<Entry>, b: seq<Entry>, n: nat)
    ensures Newest(Newest(a, n) + b, n) == Newest(a + b, n)
  {
    if |a| > n {
      var cut := |a| - n;
      assert Newest(a, n) + b == (a + b)[cut..];
      assert (a + b)[cut..][|b|..] == (a + b)[cut + |b|..];
    }
  }

  /** The two ways to fill the window, compared. */
  lemma {:induction false} SameWindow(all: seq<Entry>, window: nat)
    requires window + 1 <= REPLAYED
    ensures RecordAll([], all, window) == RecordAll([], Newest(all, REPLAYED), window) == Newest(all, window + 1)
  {
    RecordAllKeepsNewest([], all, window);
    RecordAllKeepsNewest([], Newest(all, REPLAYED), window);
    assert [] + all == all && [] + Newest(all, REPLAYED) == Newest(all, REPLAYED);
    if |all| > REPLAYED {
      assert all[|all| - REPLAYED..][REPLAYED - (window + 1)..] == all[|all| - (window + 1)..];
    }
  }

  // ----- the validator

  /** The heaviest known parent, the last among equals; ZERO if none is known. */
  ghost function Heaviest(store: Store, parents: seq<Hash>, n: nat): (Hash, nat)
    requires n <= |parents|
  {
    if n == 0 then (ZERO, 0)
    else
      var (best, score) := Heaviest(store, parents, n - 1);
      var p := parents[n - 1];
      if p in store.blocks && store.blocks[p].blueScore >= score then (p, store.blocks[p].blueScore)
      else (best, score)
  }

  lemma {:induction false} HeaviestIsMaximal(store: Store, parents: seq<Hash>, n: nat)
    requires n <= |parents|
    ensures var (best, score) := Heaviest(store, parents, n);
            && (forall i :: 0 <= i < n && parents[i] in store.blocks ==> store.blocks[parents[i]].blueScore <= score)
            && (best == ZERO || (best in store.blocks && store.blocks[best].blueScore == score
                                 && exists i :: 0 <= i < n && parents[i] == best))
  {
    if n > 0 {
      HeaviestIsMaximal(store, parents, n - 1);
    }
  }

  ghost function ExpectedBits(store: Store, tip: Hash, lane: LaneId, window: nat): int
    requires Ranked(store)
  {
    if tip == ZERO then GENESIS_BITS else NextBits(Newest(LaneHistory(store, tip, lane), window + 1))
  }

  method CalculateExpectedDifficulty(store: Store, parents: seq<Hash>, lane: LaneId, window: nat)
    returns (bits: u32)
    requires Ranked(store) && window + 1 <= REPLAYED
    ensures bits == ExpectedBits(store, Heaviest(store, parents, |parents|).0, lane, window)
  {
    hide NextBits;
    var selected, maxScore, i := ZERO, 0, 0;
    while i < |parents|
      invariant 0 <= i <= |parents| && (selected, maxScore) == Heaviest(store, parents, i)
    {
      if parents[i] in store.blocks && store.blocks[parents[i]].blueScore >= maxScore {
        selected, maxScore := parents[i], store.blocks[parents[i]].blueScore;
      }
      i := i + 1;
    }
    if selected == ZERO {
      return GENESIS_BITS;
    }
    var newest := CollectLane(store, selected, lane);
    var engine := new DifficultyEngine(window);
    var k := |newest|;
    assert newest[..k] == newest;
    while k > 0
      invariant 0 <= k <= |newest| && |engine.history| <= window + 1
      invariant fresh(engine)
      invariant RecordAll(engine.history, Oldest(newest[..k]), window) == RecordAll([], Oldest(newest), window)
    {
      k := k - 1;
      OldestFirst(newest[..k + 1]);
      assert newest[..k + 1][..k] == newest[..k];
      engine.RecordBlock(newest[k].timestamp, newest[k].bits);
    }
    SameWindow(LaneHistory(store, selected, lane), window);
    bits := engine.NextDifficulty();
  }

  /** Reversed, as the collected list is before it is recorded. */
  ghost function Oldest(newest: seq<Entry>): seq<Entry> {
    seq(|newest|, i requires 0 <= i < |newest| => newest[|newest| - 1 - i])
  }

  lemma OldestFirst(newest: seq<Entry>)
    requires newest != []
    ensures var n := |newest| - 1;
            Oldest(newest) == [newest[n]] + Oldest(newest[..n])
  {
  }

  /** Down from `start`, newest first, at most twenty entries of the lane. */
  method CollectLane(store: Store, start: Hash, lane: LaneId) returns (newest: seq<Entry>)
    requires Ranked(store)
    ensures Oldest(newest) == Newest(LaneHistory(store, start, lane), REPLAYED)
  {
    newest := [];
    var current := start;
    ghost var all := LaneHistory(store, start, lane);
    assert Oldest([]) == [];
    while current != ZERO && |newest| < REPLAYED && current in store.blocks
      invariant |newest| <= REPLAYED && LaneHistory(store, current, lane) + Oldest(newest) == all
      decreases Rank(store, current)
    {
      var b := store.blocks[current];
      if b.lane == lane {
        ghost var e := Entry(b.timestamp, b.bits);
        assert Oldest(newest + [e]) == [e] + Oldest(newest);
        newest := newest + [Entry(b.timestamp, b.bits)];
      }
      current := Next(store, current);
    }
  }

  // ----- the miner

  /** One engine per lane (difficulty.rs:136-181). */
  class DifficultyManager {
    const engines: seq<DifficultyEngine>
    const window: nat

    ghost predicate Valid()
      reads this, engines
    {
      && |engines| == 5
      && (forall i, j :: 0 <= i < j < 5 ==> engines[i] != engines[j])
      && (forall i :: 0 <= i < 5 ==> engines[i].window == window && |engines[i].history| <= window + 1)
    }

    constructor (window: nat)
      ensures Valid() && this.window == window && fresh(this) && fresh(engines)
    {
      this.window := window;
      var e0 := new DifficultyEngine(window);
      var e1 := new DifficultyEngine(window);
      var e2 := new DifficultyEngine(window);
      var e3 := new DifficultyEngine(window);
      var e4 := new DifficultyEngine(window);
      engines := [e0, e1, e2, e3, e4];
    }

    method Clear()
      requires Valid()
      modifies engines
      ensures Valid() && forall i :: 0 <= i < 5 ==> engines[i].history == []
    {
      var k := 0;
      while k < 5
        invariant 0 <= k <= 5 && Valid() && forall i :: 0 <= i < k ==> engines[i].history == []
      {
        engines[k].history := [];
        k := k + 1;
      }
    }

    method RecordBlock(lane: LaneId, timestamp: u64, bits: u32)
      requires Valid()
      modifies engines
      ensures Valid()
      ensures forall i :: 0 <= i < 5 ==>
                engines[i].history == if i == lane
                                      then Record(old(engines[i].history), Entry(timestamp, bits), window)
                                      else old(engines[i].history)
    {
      engines[lane].RecordBlock(timestamp, bits);
    }

    method GetNextDifficulty(lane: LaneId) returns (bits: u32)
      requires Valid() && window <= 0x800
      ensures bits == NextBits(engines[lane].history)
    {
      bits := engines[lane].NextDifficulty();
    }

    /** Records blocks that are listed newest first, from the end of the list. */
    method RecordAllBlocks(newest: seq<Block>)
      requires Valid() && forall i :: 0 <= i < 5 ==> engines[i].history == []
      modifies engines
      ensures Valid()
      ensures forall lane: LaneId :: engines[lane].history == RecordAll([], OfLane(newest, |newest|, lane), window)
    {
      hide Record;
      var k := |newest|;
      while k > 0
        invariant 0 <= k <= |newest| && Valid()
        invariant forall lane: LaneId ::
                    RecordAll(engines[lane].history, OfLane(newest, k, lane), window)
                    == RecordAll([], OfLane(newest, |newest|, lane), window)
      {
        k := k - 1;
        RecordBlock(newest[k].lane, newest[k].timestamp, newest[k].bits);
      }
    }

    /** Cleared, then the whole chain recorded from the bottom (node.rs:1425-1455). */
    method RebuildDifficultyHistory(store: Store, tip: Hash)
      requires Valid() && Ranked(store)
      modifies engines
      ensures Valid()
      ensures forall lane: LaneId :: engines[lane].history == Newest(LaneHistory(store, tip, lane), window + 1)
    {
      hide RecordAll, Newest, LaneHistory, OfLane;
      Clear();
      var toRecord := CollectChain(store, tip);
      RecordAllBlocks(toRecord);
      forall lane: LaneId
        ensures engines[lane].history == Newest(LaneHistory(store, tip, lane), window + 1)
      {
        RecordAllKeepsNewest([], LaneHistory(store, tip, lane), window);
        assert [] + LaneHistory(store, tip, lane) == LaneHistory(store, tip, lane);
      }
    }
  }

  /** The selected chain's blocks, newest first. */
  method CollectChain(store: Store, tip: Hash) returns (newest: seq<Block>)
    requires Ranked(store)
    ensures forall lane: LaneId :: OfLane(newest, |newest|, lane) == LaneHistory(store, tip, lane)
  {
    newest := [];
    var current := tip;
    forall lane: LaneId
      ensures LaneHistory(store, tip, lane) + OfLane([], 0, lane) == LaneHistory(store, tip, lane)
    {
    }
    while current != ZERO && current in store.blocks
      invariant forall lane: LaneId ::
                  LaneHistory(store, current, lane) + OfLane(newest, |newest|, lane) == LaneHistory(store, tip, lane)
      decreases Rank(store, current)
    {
      var b := store.blocks[current];
      forall lane: LaneId
        ensures LaneHistory(store, Next(store, current), lane) + OfLane(newest + [b], |newest| + 1, lane)
             == LaneHistory(store, tip, lane)
      {
        OfLanePrefix(newest, b, |newest|, lane);
        assert LaneHistory(store, current, lane) + OfLane(newest, |newest|, lane) == LaneHistory(store, tip, lane);
        var e := Entry(b.timestamp, b.bits);
        var older := LaneHistory(store, Next(store, current), lane);
        assert (older + [e]) + OfLane(newest, |newest|, lane) == older + ([e] + OfLane(newest, |newest|, lane));
      }
      newest := newest + [b];
      current := Next(store, current);
    }
    forall lane: LaneId
      ensures OfLane(newest, |newest|, lane) == LaneHistory(store, tip, lane)
    {
      assert LaneHistory(store, current, lane) + OfLane(newest, |newest|, lane) == OfLane(newest, |newest|, lane);
    }
  }

  /** The lane's entries among the first `n` of a list that is newest first, oldest first. */
  ghost function OfLane(newest: seq<Block>, n: nat, lane: LaneId): seq<Entry>
    requires n <= |newest|
  {
    if n == 0 then []
    else
      var b, newer := newest[n - 1], OfLane(newest, n - 1, lane);
      if b.lane == lane then [Entry(b.timestamp, b.bits)] + newer else newer
  }

  lemma {:induction false} OfLanePrefix(newest: seq<Block>, b: Block, n: nat, lane: LaneId)
    requires n <= |newest|
    ensures OfLane(newest + [b], n, lane) == OfLane(newest, n, lane)
  {
    if n > 0 {
      OfLanePrefix(newest, b, n - 1, lane);
    }
  }

  /**
   Main theorem: rebuild the manager from `tip`; then, in every lane, what it asks of the miner is what
   validation expects of any block whose heaviest known parent is `tip`.
   */
  method MinerMeetsValidator(manager: DifficultyManager, store: Store, tip: Hash, parents: seq<Hash>, lane: LaneId)
    returns (mined: u32, expected: u32)
    requires manager.Valid() && manager.window + 1 <= REPLAYED && Ranked(store) && tip != ZERO
    modifies manager.engines
    ensures mined == ExpectedBits(store, tip, lane, manager.window)
    ensures expected == ExpectedBits(store, Heaviest(store, parents, |parents|).0, lane, manager.window)
    ensures Heaviest(store, parents, |parents|).0 == tip ==> mined == expected
  {
    manager.RebuildDifficultyHistory(store, tip);
    mined := manager.GetNextDifficulty(lane);
    expected := CalculateExpectedDifficulty(store, parents, lane, manager.window);
  }
}
