/**
 The block subsidy and the supply cap (crates/zentra-consensus/src/emission.rs:25-65).  The reference
 is one subsidy per height, added up; the code computes whole halving epochs at a time.
 */
module Emission {
  import opened Types
  import opened Arithmetic

  const MAX_HALVINGS: u32 := 64
  const INITIAL_REWARD_ZENTS: u64 := 4_756_468_797
  const HALVING_INTERVAL_BLOCKS: u64 := 525_600
  const MAX_SUPPLY_ZENTS: u64 := 5_000_000_000_000_000

  /** The right shift `x >> n`. */
  function Shr(x: u64, n: nat): u64 {
    if n == 0 then x else Shr(x, n - 1) / 2
  }

  /** `halvingInterval` is not zero: block_reward divides by it. */
  datatype Raw = Schedule(initialReward: u64, halvingInterval: u64, maxSupply: u64)

  type EmissionSchedule = s: Raw | s.halvingInterval > 0 witness Schedule(0, 1, 0)

  const ZENTRA: EmissionSchedule := Schedule(INITIAL_REWARD_ZENTS, HALVING_INTERVAL_BLOCKS, MAX_SUPPLY_ZENTS)

  /** The uncapped reward of an epoch: a right shift, and nothing after 64 halvings. */
  function EpochReward(s: EmissionSchedule, epoch: nat): nat {
    if epoch < MAX_HALVINGS then Shr(s.initialReward, epoch) else 0
  }

  /** The first height of an epoch, and the epoch of a height, counted interval by interval. */
  ghost function Start(epoch: nat, interval: nat): nat {
    if epoch == 0 then 0 else Start(epoch - 1, interval) + interval
  }

  ghost function EpochAt(h: nat, interval: nat): nat
    requires interval > 0
  {
    if h < interval then 0 else 1 + EpochAt(h - interval, interval)
  }

  /** The uncapped rewards of all heights below `h`. */
  ghost function Uncapped(s: EmissionSchedule, h: nat): nat {
    if h == 0 then 0 else Uncapped(s, h - 1) + EpochReward(s, EpochAt(h - 1, s.halvingInterval))
  }

  ghost function Emitted(s: EmissionSchedule, h: nat): u64 { Min(Uncapped(s, h), s.maxSupply) }

  lemma {:induction false} EpochAtIsQuotient(h: nat, interval: nat)
    requires interval > 0
    ensures EpochAt(h, interval) == h / interval
  {
    if h < interval {
      DivUnique(h, interval, 0);
    } else {
      EpochAtIsQuotient(h - interval, interval);
      DivBounds(h - interval, interval);
      DivUnique(h, interval, 1 + (h - interval) / interval);
    }
  }

  lemma {:induction false} EpochAtStart(epoch: nat, interval: nat, h: nat)
    requires interval > 0 && Start(epoch, interval) <= h
    ensures epoch <= EpochAt(h, interval)
    ensures h < Start(epoch, interval) + interval ==> EpochAt(h, interval) == epoch
  {
    if epoch > 0 {
      EpochAtStart(epoch - 1, interval, h - interval);
    }
  }

  /** Inside an epoch every height adds the same reward. */
  lemma {:induction false} EpochSum(s: EmissionSchedule, epoch: nat, k: nat)
    requires k <= s.halvingInterval
    ensures Uncapped(s, Start(epoch, s.halvingInterval) + k)
         == Uncapped(s, Start(epoch, s.halvingInterval)) + k * EpochReward(s, epoch)
  {
    if k > 0 {
      EpochSum(s, epoch, k - 1);
      EpochAtStart(epoch, s.halvingInterval, Start(epoch, s.halvingInterval) + k - 1);
      MulStep(k, EpochReward(s, epoch));
    }
  }

  lemma {:induction false} RewardStaysZero(s: EmissionSchedule, epoch: nat, later: nat)
    requires EpochReward(s, epoch) == 0 && epoch <= later
    ensures EpochReward(s, later) == 0
  {
    if epoch < later {
      RewardStaysZero(s, epoch, later - 1);
    }
  }

  /** After the last rewarding epoch nothing is added. */
  lemma {:induction false} FlatTail(s: EmissionSchedule, epoch: nat, h: nat)
    requires EpochReward(s, epoch) == 0 && Start(epoch, s.halvingInterval) <= h
    ensures Uncapped(s, h) == Uncapped(s, Start(epoch, s.halvingInterval))
  {
    if Start(epoch, s.halvingInterval) < h {
      FlatTail(s, epoch, h - 1);
      EpochAtStart(epoch, s.halvingInterval, h - 1);
      RewardStaysZero(s, epoch, EpochAt(h - 1, s.halvingInterval));
    }
  }

  /** The epoch-by-epoch loop refines the height-by-height sum, its saturations included. */
  method TotalEmittedAtHeight(s: EmissionSchedule, height: u64) returns (r: u64)
    ensures r == Emitted(s, height)
  {
    var total: u64, remaining: u64, epoch := 0, height, 0;
    while remaining > 0 && epoch < MAX_HALVINGS
      invariant 0 <= epoch <= MAX_HALVINGS && remaining <= height
      invariant total == Cap64(Uncapped(s, height - remaining))
      invariant remaining > 0 ==> height - remaining == Start(epoch, s.halvingInterval)
      decreases MAX_HALVINGS - epoch
    {
      var reward := Shr(s.initialReward, epoch);
      if reward == 0 {
        break;
      }
      var blocks := Min(remaining, s.halvingInterval);
      EpochSum(s, epoch, blocks);
      MulMono(0, blocks, reward);
      total := Cap64(total + Cap64(blocks * reward));
      remaining := remaining - blocks;
      epoch := epoch + 1;
    }
    if remaining > 0 {
      FlatTail(s, epoch, height);
    }
    return Min(total, s.maxSupply);
  }

  /** The subsidy is what the capped total grows by. */
  method BlockReward(s: EmissionSchedule, height: u64) returns (r: u64)
    ensures r == Emitted(s, height + 1) - Emitted(s, height)
  {
    var epoch := height / s.halvingInterval;
    EpochAtIsQuotient(height, s.halvingInterval);
    if epoch >= MAX_HALVINGS {
      return 0;
    }
    var reward: u64 := Shr(s.initialReward, epoch);
    if reward == 0 {
      return 0;
    }
    var totalEmitted := TotalEmittedAtHeight(s, height);
    if totalEmitted >= s.maxSupply {
      return 0;
    }
    var remaining := s.maxSupply - totalEmitted;
    return Min(reward, remaining);
  }

  /**
   What each height adds before the cap: the initial reward in the first interval, half of what the same height one
   interval earlier added, rounded down, and nothing from the 64th interval on.
   */
  lemma {:induction false} RewardHalves(s: EmissionSchedule, h: nat)
    ensures var reward := Uncapped(s, h + 1) - Uncapped(s, h);
            && (h < s.halvingInterval ==> reward == s.initialReward)
            && (h >= 64 * s.halvingInterval ==> reward == 0)
            && (s.halvingInterval <= h < 64 * s.halvingInterval ==>
                  var before := h - s.halvingInterval;
                  reward == (Uncapped(s, before + 1) - Uncapped(s, before)) / 2)
  {
    hide Shr;
    var i: nat := s.halvingInterval;
    EpochAtIsQuotient(h, i);
    if h < i {
      assert EpochReward(s, 0) == s.initialReward by {
        NoShift(s.initialReward);
      }
    } else if h < 64 * i {
      QuotientBelow(h, i, 64);
      assert EpochAt(h, i) == 1 + EpochAt(h - i, i);
      OneShiftMore(s.initialReward, EpochAt(h, i));
    } else {
      QuotientIsLargest(h, i, 64);
    }
  }

  lemma NoShift(x: u64)
    ensures Shr(x, 0) == x
  {
  }

  lemma OneShiftMore(x: u64, n: nat)
    requires n > 0
    ensures Shr(x, n) == Shr(x, n - 1) / 2
  {
  }

  lemma QuotientBelow(h: nat, i: nat, n: nat)
    requires i > 0 && h < n * i
    ensures h / i < n
  {
    QuotientIsLargest(h, i, n);
  }

  ghost function Subsidy(s: EmissionSchedule, height: nat): (r: u64) {
    EmittedGrows(s, height, height + 1);
    Emitted(s, height + 1) - Emitted(s, height)
  }

  lemma {:induction false} EmittedGrows(s: EmissionSchedule, h: nat, later: nat)
    requires h <= later
    ensures Uncapped(s, h) <= Uncapped(s, later) && Emitted(s, h) <= Emitted(s, later) <= s.maxSupply
  {
    if h < later {
      EmittedGrows(s, h, later - 1);
    }
  }

  /** Twice the current reward for one more epoch is always enough to cover all that follows. */
  lemma {:induction false} EpochBound(s: EmissionSchedule, epoch: nat)
    ensures var i := s.halvingInterval;
            Uncapped(s, Start(epoch, i)) + 2 * (i * EpochReward(s, epoch)) <= 2 * (i * s.initialReward)
  {
    var i := s.halvingInterval;
    if epoch > 0 {
      EpochBound(s, epoch - 1);
      EpochSum(s, epoch - 1, i);
      MulDouble(i, EpochReward(s, epoch - 1), EpochReward(s, epoch));
    }
  }

  /** No schedule emits more than two first epochs; Zentra's constants keep that below the cap. */
  lemma CapNeverBinds(h: nat)
    ensures Uncapped(ZENTRA, h) <= 2 * (HALVING_INTERVAL_BLOCKS * INITIAL_REWARD_ZENTS) < MAX_SUPPLY_ZENTS
    ensures Emitted(ZENTRA, h) == Uncapped(ZENTRA, h)
  {
    EpochBound(ZENTRA, MAX_HALVINGS);
    var last := Start(MAX_HALVINGS, HALVING_INTERVAL_BLOCKS);
    if h <= last {
      EmittedGrows(ZENTRA, h, last);
    } else {
      FlatTail(ZENTRA, MAX_HALVINGS, h);
    }
  }
}
