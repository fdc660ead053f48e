/**
 The retarget rule (crates/zentra-consensus/src/difficulty.rs:34-126): its range over one step and
 over whole runs.
 */
module Retarget {
  import opened Types
  import opened Arithmetic
  import opened Bytes
  import opened Compact

  const TARGET_BLOCK_TIME_MS: u64 := 60_000
  const GENESIS_BITS: u32 := 0x1F0F_FFFF

  datatype Entry = Entry(timestamp: u64, bits: u32)

  ghost function TargetOf(bits: u32): nat { Decode(Unpack(bits)) }

  /** The easiest allowed target. */
  ghost function Genesis(): nat { TargetOf(GENESIS_BITS) }

  // ----- the rule on numbers

  /** The targets of entries 1 up to `n`: the oldest entry only opens the window. */
  ghost function SumTargets(h: seq<Entry>, n: nat): nat
    requires n <= |h|
  {
    if n <= 1 then 0 else SumTargets(h, n - 1) + TargetOf(h[n - 1].bits)
  }

  ghost function Average(h: seq<Entry>): nat
    requires |h| >= 2
  {
    Quotient(SumTargets(h, |h|) % Pow256(32), |h| - 1)
  }

  ghost function Timespan(h: seq<Entry>): nat
    requires |h| >= 2
  {
    Max(h[|h| - 1].timestamp - h[0].timestamp, 0)
  }

  function Clamp(x: nat, lo: nat, hi: nat): nat { if x < lo then lo else if x > hi then hi else x }

  /** Numerator and denominator, scaled down to keep the product small. */
  function Scaled(num: nat, den: nat): (nat, nat) {
    if num > 100 then
      var scale := num / 100;
      (num / scale, Max(den / scale, 1))
    else (num, den)
  }

  /** The clamped, scaled timespan over the expected one, for `n` intervals. */
  function Ratio(n: nat, timespan: nat): (nat, nat) {
    var expected := n * TARGET_BLOCK_TIME_MS;
    Scaled(Clamp(timespan, expected / 3, expected * 3), expected)
  }

  ghost function Adjusted(avg: nat, ratio: (nat, nat)): nat
    requires ratio.1 > 0
  {
    if Times(avg, ratio.0) >= Pow256(32) then Pow256(32) - 1 else Quotient(Times(avg, ratio.0), ratio.1)
  }

  ghost function Capped(adjusted: nat): nat {
    if adjusted > Genesis() || adjusted == 0 then Genesis() else adjusted
  }

  ghost function NextBits(h: seq<Entry>): int {
    if |h| <= 1 then GENESIS_BITS
    else
      RatioMeaning(|h| - 1, Timespan(h));
      Pack(Encode(Capped(Adjusted(Average(h), Ratio(|h| - 1, Timespan(h))))))
  }

  /** The clamped timespan, as the scaling sees it. */
  lemma ClampRange(n: nat, timespan: nat)
    requires n >= 1
    ensures var expected := n * TARGET_BLOCK_TIME_MS;
            var c := Clamp(timespan, expected / 3, expected * 3);
            n * 20_000 <= c <= n * 180_000
  {
  }

  /** The numerator is always 100 and the denominator lies in [33, 300]: the factor is within [1/3, 100/33]. */
  lemma RatioMeaning(n: nat, timespan: nat)
    requires n >= 1
    ensures Ratio(n, timespan).0 == 100 && 33 <= Ratio(n, timespan).1 <= 300
  {
    var expected := n * TARGET_BLOCK_TIME_MS;
    var c := Clamp(timespan, expected / 3, expected * 3);
    ClampRange(n, timespan);
    var scale := c / 100;
    DivUnique(c, scale, 100);
    QuotientRange(expected, scale, 33, 300);
  }

  lemma QuotientRange(n: nat, d: nat, lo: nat, hi: nat)
    requires d > 0 && lo * d <= n < (hi + 1) * d
    ensures lo <= n / d <= hi
  {
    DivBounds(n, d);
    var q := n / d;
    if q < lo {
      MulMono(q + 1, lo, d);
    } else if q > hi {
      MulMono(hi + 1, q, d);
    }
  }

  // ----- the range

  /** A target that is neither zero nor easier than genesis. */
  ghost predicate InRange(bits: u32) { 0 < TargetOf(bits) <= Genesis() }

  ghost predicate NewerInRange(h: seq<Entry>) { forall i :: 1 <= i < |h| ==> InRange(h[i].bits) }

  lemma GenesisValue()
    ensures Genesis() == Times(0xF_FFFF, Pow256(28))
    ensures Genesis() * 0x1000 < Pow256(32)
    ensures Genesis() < 0x80 * Pow256(31)
    ensures InRange(GENESIS_BITS)
  {
    hide Pow256;
    PowStep(28);
    PowStep(29);
    PowStep(30);
    PowStep(31);
  }

  lemma {:induction false} SumRange(h: seq<Entry>, n: nat)
    requires 1 <= n <= |h| && NewerInRange(h)
    ensures n - 1 <= SumTargets(h, n) <= (n - 1) * Genesis()
  {
    if n > 1 {
      SumRange(h, n - 1);
      MulStep(n - 1, Genesis());
    }
  }

  lemma {:induction false} AverageRange(h: seq<Entry>)
    requires 2 <= |h| <= 0x1001 && NewerInRange(h)
    ensures SumTargets(h, |h|) < Pow256(32)
    ensures 1 <= Average(h) <= Genesis()
  {
    hide SumTargets, TargetOf, Genesis, InRange;
    SumRange(h, |h|);
    GenesisValue();
    MulMono(|h| - 1, 0x1000, Genesis());
    SmallMod(SumTargets(h, |h|), Pow256(32));
    AverageBound(SumTargets(h, |h|), |h| - 1, Genesis());
  }

  lemma AverageBound(sum: nat, n: nat, g: nat)
    requires n >= 1 && n <= sum <= n * g
    ensures 1 <= sum / n <= g
  {
    AddColumns(g, 1, n);
    QuotientRange(sum, n, 1, g);
  }

  lemma SmallMod(n: nat, d: nat)
    requires n < d
    ensures n % d == n
  {
    DivUnique(n, d, 0);
    assert n == n / d * d + n % d;
  }

  /** The product never saturates, and the adjusted target is within a third and 100/33 of the average. */
  lemma AdjustedRange(avg: nat, n: nat, timespan: nat)
    requires n >= 1 && avg <= Genesis()
    ensures RatioMeaningHolds(n, timespan)
    ensures avg * 100 < Pow256(32)
    ensures Adjusted(avg, Ratio(n, timespan)) == avg * 100 / Ratio(n, timespan).1
    ensures avg / 3 <= Adjusted(avg, Ratio(n, timespan)) <= avg * 100 / 33
  {
    hide Genesis, Ratio;
    RatioMeaning(n, timespan);
    GenesisValue();
    var den := Ratio(n, timespan).1;
    DivAntitone(avg * 100, den, 300);
    DivAntitone(avg * 100, 33, den);
    assert avg * 100 / 300 == avg / 3;
  }

  ghost predicate RatioMeaningHolds(n: nat, timespan: nat) {
    Ratio(n, timespan).0 == 100 && 33 <= Ratio(n, timespan).1 <= 300
  }

  /** Any capped target decodes into the range again. */
  lemma CappedInRange(adjusted: nat)
    ensures var c := Capped(adjusted);
            && 0 <= Pack(Encode(c)) < 0x1_0000_0000
            && InRange(Pack(Encode(c))) && TargetOf(Pack(Encode(c))) == Trunc(c)
  {
    hide Encode, Decode, Trunc, Pow256, Times, Pack, Unpack;
    GenesisValue();
    var c := Capped(adjusted);
    ExponentFits(c, 32);
    UnpackPack(Encode(c));
    RoundTripIsTrunc(c);
    TruncError(c);
  }

  /** One retarget: from targets in range the next one is in range. */
  lemma {:induction false} NextInRange(h: seq<Entry>)
    requires |h| <= 0x1001 && NewerInRange(h)
    ensures 0 <= NextBits(h) < 0x1_0000_0000 && InRange(NextBits(h))
  {
    hide InRange;
    if |h| <= 1 {
      GenesisValue();
    } else {
      RatioMeaning(|h| - 1, Timespan(h));
      CappedInRange(Adjusted(Average(h), Ratio(|h| - 1, Timespan(h))));
    }
  }

  /** A longer timespan never makes the next target harder, once the average is at least 3. */
  lemma {:induction false} LongerIsEasier(avg: nat, n: nat, short: nat, long: nat)
    requires n >= 1 && 3 <= avg <= Genesis() && short <= long
    ensures RatioMeaningHolds(n, short) && RatioMeaningHolds(n, long)
    ensures Trunc(Capped(Adjusted(avg, Ratio(n, short)))) <= Trunc(Capped(Adjusted(avg, Ratio(n, long))))
  {
    hide Genesis;
    AdjustedRange(avg, n, short);
    AdjustedRange(avg, n, long);
    RatioAntitone(n, short, long);
    DivAntitone(avg * 100, Ratio(n, long).1, Ratio(n, short).1);
    TruncMonotone(Capped(Adjusted(avg, Ratio(n, short))), Capped(Adjusted(avg, Ratio(n, long))));
  }

  /** The target that the next block's bits decode to. */
  ghost function NextTarget(avg: nat, n: nat, timespan: nat): nat
    requires n >= 1
  {
    RatioMeaning(n, timespan);
    Trunc(Capped(Adjusted(avg, Ratio(n, timespan))))
  }

  /** Exactly then: of an average of 1 or 2 a short timespan leaves nothing, which becomes the genesis target. */
  lemma LongerIsEasierIff(avg: nat, n: nat)
    requires n >= 1 && avg <= Genesis()
    ensures (forall short: nat, long: nat :: short <= long ==> NextTarget(avg, n, short) <= NextTarget(avg, n, long))
       <==> avg == 0 || avg >= 3
  {
    hide Adjusted, Ratio, Capped, Trunc, Genesis;
    if avg == 0 || avg >= 3 {
      forall short: nat, long: nat | short <= long
        ensures NextTarget(avg, n, short) <= NextTarget(avg, n, long)
      {
        if avg == 0 {
          NothingStaysNothing(n, short);
          NothingStaysNothing(n, long);
        } else {
          LongerIsEasier(avg, n, short, long);
        }
      }
    } else {
      SmallAverageJumps(avg, n);
    }
  }

  lemma NothingStaysNothing(n: nat, timespan: nat)
    requires n >= 1
    ensures NextTarget(0, n, timespan) == Trunc(Genesis())
  {
    hide Trunc, Genesis, Ratio, Adjusted;
    AdjustedRange(0, n, timespan);
  }

  /** The ratio at both ends of the clamp. */
  lemma RatioEnds(n: nat)
    requires n >= 1
    ensures Ratio(n, 0) == (100, 300) && Ratio(n, n * 180_000) == (100, 33)
  {
    var expected := n * TARGET_BLOCK_TIME_MS;
    DivUnique(expected, 3, n * 20_000);
    assert Clamp(0, expected / 3, expected * 3) == n * 20_000;
    assert Clamp(n * 180_000, expected / 3, expected * 3) == n * 180_000;
    ScaledEnd(n * 20_000, expected, n * 200, 300);
    ScaledEnd(n * 180_000, expected, n * 1_800, 33);
  }

  lemma ScaledEnd(num: nat, den: nat, scale: nat, d: nat)
    requires scale >= 2 && num == 100 * scale && d >= 1 && d * scale <= den < d * scale + scale
    ensures Scaled(num, den) == (100, d)
  {
    DivUnique(num, 100, scale);
    DivUnique(num, scale, 100);
    DivUnique(den, scale, d);
  }

  lemma SmallAverageJumps(avg: nat, n: nat)
    requires n >= 1 && 1 <= avg <= 2
    ensures NextTarget(avg, n, 0) > NextTarget(avg, n, n * 180_000)
  {
    hide Ratio, Adjusted, Genesis;
    RatioEnds(n);
    GenesisIsLarge();
    AdjustedRange(avg, n, 0);
    AdjustedRange(avg, n, n * 180_000);
    TruncError(Genesis());
  }

  /** The same, for a history whose newest block came later. */
  lemma {:induction false} LaterBlockIsEasier(h: seq<Entry>, later: u64)
    requires 2 <= |h| <= 0x1001 && NewerInRange(h) && Average(h) >= 3
    requires h[|h| - 1].timestamp <= later
    ensures var h' := h[|h| - 1 := h[|h| - 1].(timestamp := later)];
            && 0 <= NextBits(h) < 0x1_0000_0000 && 0 <= NextBits(h') < 0x1_0000_0000
            && TargetOf(NextBits(h)) <= TargetOf(NextBits(h'))
  {
    hide Genesis, Ratio, Adjusted, Capped, InRange, TargetOf;
    var n := |h| - 1;
    var h' := h[n := h[n].(timestamp := later)];
    AverageIgnoresTimes(h, h');
    AverageRange(h);
    hide Average;
    LongerIsEasier(Average(h), n, Timespan(h), Timespan(h'));
    CappedInRange(Adjusted(Average(h), Ratio(n, Timespan(h))));
    CappedInRange(Adjusted(Average(h), Ratio(n, Timespan(h'))));
  }

  lemma AverageIgnoresTimes(h: seq<Entry>, h': seq<Entry>)
    requires 2 <= |h| == |h'| && forall i :: 0 <= i < |h| ==> h[i].bits == h'[i].bits
    ensures Average(h) == Average(h')
  {
    SumIgnoresTimes(h, h', |h|);
  }

  lemma {:induction false} SumIgnoresTimes(h: seq<Entry>, h': seq<Entry>, n: nat)
    requires n <= |h| == |h'| && forall i :: 0 <= i < |h| ==> h[i].bits == h'[i].bits
    ensures SumTargets(h, n) == SumTargets(h', n)
  {
    if n > 1 {
      SumIgnoresTimes(h, h', n - 1);
    }
  }

  lemma RatioAntitone(n: nat, short: nat, long: nat)
    requires n >= 1 && short <= long
    ensures Ratio(n, long).1 <= Ratio(n, short).1
  {
    var expected := n * TARGET_BLOCK_TIME_MS;
    ClampRange(n, short);
    ClampRange(n, long);
    var c, d := Clamp(short, expected / 3, expected * 3), Clamp(long, expected / 3, expected * 3);
    DivAntitone(expected, c / 100, d / 100);
  }

  // ----- the next target, from the timestamps and bits themselves

  /** `q` is x over d, rounded down. */
  ghost predicate IsFloor(x: nat, d: nat, q: nat) { d > 0 && q * d <= x < (q + 1) * d }

  lemma FloorBounds(x: nat, d: nat)
    requires d > 0
    ensures IsFloor(x, d, x / d)
  {
    DivBounds(x, d);
    assert (x / d + 1) * d == x / d * d + d;
  }

  lemma FloorUnique(x: nat, d: nat, q: nat, r: nat)
    requires IsFloor(x, d, q) && IsFloor(x, d, r)
    ensures q == r
  {
    assert (q + 1) * d == q * d + d && (r + 1) * d == r * d + d;
    DivUnique(x, d, q);
    DivUnique(x, d, r);
  }

  /**
   The rule in full: the span from the oldest to the newest entry, kept within a third and three times what was
   to be expected, over that expectation, both scaled down to two digits and rounded down at each division.
   */
  lemma NextTargetIs(h: seq<Entry>) returns (span: nat, den: nat, adjusted: nat)
    requires 2 <= |h| <= 0x1001 && NewerInRange(h)
    ensures var n := |h| - 1;
            var raw: int := h[n].timestamp - h[0].timestamp;
            && span == (if raw < n * 20_000 then n * 20_000 else if raw > n * 180_000 then n * 180_000 else raw)
            && IsFloor(n * 60_000, span / 100, den) && IsFloor(Average(h) * 100, den, adjusted)
            && 0 <= NextBits(h) < 0x1_0000_0000
            && TargetOf(NextBits(h)) == Trunc(if adjusted == 0 || adjusted > Genesis() then Genesis() else adjusted)
  {
    hide Genesis, TargetOf, Adjusted, InRange, Average, Trunc, Ratio, Encode, Pack, Pow256, NewerInRange, IsFloor;
    var n := |h| - 1;
    var ratio := Ratio(n, Timespan(h));
    span := Clamp(Timespan(h), n * 20_000, n * 180_000);
    RatioMeaning(n, Timespan(h));
    RatioFloors(n, Timespan(h));
    AverageRange(h);
    AdjustedRange(Average(h), n, Timespan(h));
    den, adjusted := ratio.1, Average(h) * 100 / ratio.1;
    FloorBounds(Average(h) * 100, den);
    CappedInRange(Adjusted(Average(h), ratio));
  }

  lemma RatioFloors(n: nat, timespan: nat)
    requires n >= 1
    ensures var c := Clamp(timespan, n * 20_000, n * 180_000);
            var den := Ratio(n, timespan).1;
            && c == Clamp(timespan, n * TARGET_BLOCK_TIME_MS / 3, n * TARGET_BLOCK_TIME_MS * 3)
            && IsFloor(n * 60_000, c / 100, den)
  {
    hide IsFloor;
    var expected := n * TARGET_BLOCK_TIME_MS;
    DivUnique(expected, 3, n * 20_000);
    RatioMeaning(n, timespan);
    ClampRange(n, timespan);
    var c := Clamp(timespan, n * 20_000, n * 180_000);
    var scale := c / 100;
    FloorBounds(expected, scale);
  }

  lemma {:induction false} SameBitsSum(h: seq<Entry>, n: nat, t: nat)
    requires 1 <= n <= |h| && forall i :: 1 <= i < n ==> TargetOf(h[i].bits) == t
    ensures SumTargets(h, n) == (n - 1) * t
  {
    if n > 1 {
      hide TargetOf;
      SameBitsSum(h, n - 1, t);
      MulStep(n - 1, t);
    }
  }

  /** The average of equal targets. */
  lemma SameBitsAverage(h: seq<Entry>, t: nat)
    requires 2 <= |h| <= 0x1001 && NewerInRange(h) && forall i :: 1 <= i < |h| ==> TargetOf(h[i].bits) == t
    ensures Average(h) == t
  {
    hide TargetOf, InRange, Genesis, Pow256, SumTargets;
    SameBitsSum(h, |h|, t);
    AverageRange(h);
    SmallMod(SumTargets(h, |h|), Pow256(32));
    DivUnique(SumTargets(h, |h|), |h| - 1, t);
  }

  /** Every entry but the oldest counts the same in the sum, and the oldest does not count. */
  lemma {:induction false} SumChanges(h: seq<Entry>, i: nat, bits: u32, n: nat)
    requires i < n <= |h|
    ensures SumTargets(h[i := h[i].(bits := bits)], n)
         == SumTargets(h, n) + if i == 0 then 0 else TargetOf(bits) - TargetOf(h[i].bits)
  {
    hide TargetOf;
    var h' := h[i := h[i].(bits := bits)];
    if n > 1 {
      if i < n - 1 {
        SumChanges(h, i, bits, n - 1);
      } else {
        SumIgnoresLater(h, h', n - 1);
      }
    }
  }

  lemma {:induction false} SumIgnoresLater(h: seq<Entry>, h': seq<Entry>, n: nat)
    requires n <= |h| == |h'| && forall i :: 0 <= i < n ==> h[i] == h'[i]
    ensures SumTargets(h, n) == SumTargets(h', n)
  {
    if n > 1 {
      SumIgnoresLater(h, h', n - 1);
    }
  }

  /** Blocks of one target that took exactly as long as they should leave the target as it is. */
  lemma OnScheduleKeepsTarget(h: seq<Entry>)
    requires 2 <= |h| <= 0x1001 && NewerInRange(h)
    requires var n := |h| - 1;
             && h[n].timestamp - h[0].timestamp == n * 60_000
             && forall i :: 1 <= i < |h| ==> h[i].bits == h[n].bits
    ensures 0 <= NextBits(h) < 0x1_0000_0000 && TargetOf(NextBits(h)) == TargetOf(h[|h| - 1].bits)
  {
    var n := |h| - 1;
    var t := TargetOf(h[n].bits);
    SameBitsAverage(h, t);
    assert InRange(h[n].bits);
    DecodedIsTruncated(Unpack(h[n].bits));
    hide TargetOf, Genesis, Average, NextBits, Trunc, IsFloor;
    var span, den, adjusted := NextTargetIs(h);
    SpanFloors(n);
    FloorsAt(n, n * 600, 100, span, den);
    WholeFloor(t);
    FloorUnique(t * 100, 100, adjusted, t);
  }

  lemma FloorsAt(n: nat, scale: nat, factor: nat, span: nat, den: nat)
    requires n >= 1 && IsFloor(n * 60_000, span / 100, den)
    requires span == 100 * scale && IsFloor(n * 60_000, scale, factor)
    ensures den == factor
  {
    hide IsFloor;
    DivUnique(span, 100, scale);
    FloorUnique(n * 60_000, scale, den, factor);
  }

  /** The denominators for a chain on schedule and at either end of the clamp. */
  lemma SpanFloors(n: nat)
    requires n >= 1
    ensures IsFloor(n * 60_000, n * 200, 300) && IsFloor(n * 60_000, n * 600, 100) && IsFloor(n * 60_000, n * 1_800, 33)
  {
  }

  lemma WholeFloor(t: nat)
    ensures IsFloor(t * 100, 100, t) && IsFloor(t * 100, 300, t / 3) && IsFloor(t * 100, 33, t * 100 / 33)
    ensures t > 0 ==> t * 100 / 33 > 0
  {
  }

  /** A third of the time or less gives a third of the average, or, if that is nothing, the genesis target. */
  lemma FastChainIsHarder(h: seq<Entry>)
    requires 2 <= |h| <= 0x1001 && NewerInRange(h)
    requires h[|h| - 1].timestamp - h[0].timestamp <= (|h| - 1) * 20_000
    ensures 0 <= NextBits(h) < 0x1_0000_0000
    ensures TargetOf(NextBits(h)) == Trunc(if Average(h) < 3 then Genesis() else Average(h) / 3)
  {
    AverageRange(h);
    hide TargetOf, Genesis, Average, NextBits, Trunc, InRange, IsFloor;
    var n := |h| - 1;
    var span, den, adjusted := NextTargetIs(h);
    FastFloors(n, span, den, Average(h), adjusted);
  }

  lemma FastFloors(n: nat, span: nat, den: nat, avg: nat, adjusted: nat)
    requires n >= 1 && span == n * 20_000 && IsFloor(n * 60_000, span / 100, den) && IsFloor(avg * 100, den, adjusted)
    ensures adjusted == avg / 3
  {
    hide IsFloor;
    SpanFloors(n);
    FloorsAt(n, n * 200, 300, span, den);
    WholeFloor(avg);
    FloorUnique(avg * 100, 300, adjusted, avg / 3);
  }

  /** Three times the time or more gives 100/33 of the average, but no more than the genesis target. */
  lemma SlowChainIsEasier(h: seq<Entry>)
    requires 2 <= |h| <= 0x1001 && NewerInRange(h)
    requires h[|h| - 1].timestamp - h[0].timestamp >= (|h| - 1) * 180_000
    ensures 0 <= NextBits(h) < 0x1_0000_0000
    ensures TargetOf(NextBits(h)) == Trunc(Min(Average(h) * 100 / 33, Genesis()))
  {
    AverageRange(h);
    hide TargetOf, Genesis, Average, NextBits, Trunc, InRange, IsFloor;
    var n := |h| - 1;
    var span, den, adjusted := NextTargetIs(h);
    SlowFloors(n, span, den, Average(h), adjusted);
  }

  lemma SlowFloors(n: nat, span: nat, den: nat, avg: nat, adjusted: nat)
    requires n >= 1 && span == n * 180_000 && IsFloor(n * 60_000, span / 100, den) && IsFloor(avg * 100, den, adjusted)
    ensures adjusted == avg * 100 / 33 && (avg > 0 ==> adjusted > 0)
  {
    hide IsFloor;
    SpanFloors(n);
    FloorsAt(n, n * 1_800, 33, span, den);
    WholeFloor(avg);
    FloorUnique(avg * 100, 33, adjusted, avg * 100 / 33);
  }

  /** A later oldest entry never makes the next target easier. */
  lemma {:induction false} LaterStartIsHarder(h: seq<Entry>, later: u64)
    requires 2 <= |h| <= 0x1001 && NewerInRange(h) && Average(h) >= 3 && h[0].timestamp <= later
    ensures var h' := h[0 := h[0].(timestamp := later)];
            && 0 <= NextBits(h) < 0x1_0000_0000 && 0 <= NextBits(h') < 0x1_0000_0000
            && TargetOf(NextBits(h')) <= TargetOf(NextBits(h))
  {
    hide Genesis, Ratio, Adjusted, Capped, InRange, TargetOf;
    var n := |h| - 1;
    var h' := h[0 := h[0].(timestamp := later)];
    AverageIgnoresTimes(h, h');
    AverageRange(h);
    hide Average;
    LongerIsEasier(Average(h), n, Timespan(h'), Timespan(h));
    CappedInRange(Adjusted(Average(h), Ratio(n, Timespan(h))));
    CappedInRange(Adjusted(Average(h), Ratio(n, Timespan(h'))));
  }

  // ----- runs

  /** The newest `n` elements. */
  function Newest(s: seq<Entry>, n: nat): seq<Entry> { if |s| <= n then s else s[|s| - n..] }

  function Record(h: seq<Entry>, e: Entry, window: nat): seq<Entry> { Newest(h + [e], window + 1) }

  /** Entry `first`, then one block per timestamp, each mined at the bits the rule asked for. */
  ghost function Run(first: Entry, stamps: seq<u64>, window: nat): seq<Entry> {
    if stamps == [] then [first]
    else
      var h := Run(first, stamps[..|stamps| - 1], window);
      var bits := NextBits(h);
      Record(h, Entry(stamps[|stamps| - 1], if 0 <= bits < 0x1_0000_0000 then bits else 0), window)
  }

  /** Over every run, whatever the timestamps and the first block's bits, every later block is in range. */
  lemma {:induction false} RunStaysInRange(first: Entry, stamps: seq<u64>, window: nat)
    requires 1 <= window <= 0x1000
    ensures var h := Run(first, stamps, window);
            && 1 <= |h| <= window + 1 && NewerInRange(h)
            && 0 <= NextBits(h) < 0x1_0000_0000 && InRange(NextBits(h))
    ensures |stamps| > window ==> InRange(Run(first, stamps, window)[0].bits)
  {
    hide InRange, NextBits;
    if stamps != [] {
      var before := stamps[..|stamps| - 1];
      RunStaysInRange(first, before, window);
      RunLength(first, before, window);
    }
    NextInRange(Run(first, stamps, window));
  }

  lemma {:induction false} RunLength(first: Entry, stamps: seq<u64>, window: nat)
    ensures |Run(first, stamps, window)| == Min(|stamps|, window) + 1
  {
    hide NextBits;
    if stamps != [] {
      RunLength(first, stamps[..|stamps| - 1], window);
    }
  }

  /** Two blocks at once at the genesis target: the next one has to be harder. */
  lemma FastBlockIsHarder()
    ensures var e := Entry(0, GENESIS_BITS); NextBits([e, e]) != GENESIS_BITS == NextBits([e])
  {
    hide Adjusted, Ratio, Average, Timespan, Encode, Decode, Unpack, Pack, Trunc, Genesis;
    var e := Entry(0, GENESIS_BITS);
    var h := [e, e];
    OneIntervalAverage(h);
    QuickRatio(h);
    ThirdOfGenesis();
    GenesisTarget();
    var adjusted := Adjusted(Genesis(), (100, 300));
    CappedInRange(adjusted);
    TruncError(adjusted);
  }

  lemma ThirdOfGenesis()
    ensures 0 < Adjusted(Genesis(), (100, 300)) < Genesis()
  {
    hide Pow256, Genesis;
    ScaledQuick();
    GenesisValue();
    GenesisIsLarge();
    AdjustedRange(Genesis(), 1, 0);
  }

  lemma GenesisIsLarge()
    ensures Genesis() >= 0x1_0000
  {
    GenesisValue();
    Pow256Grows(28);
  }

  lemma OneIntervalAverage(h: seq<Entry>)
    requires |h| == 2 && h[1].bits == GENESIS_BITS
    ensures Average(h) == Genesis()
  {
    hide TargetOf, Pow256, Genesis;
    GenesisValue();
    GenesisTarget();
    assert SumTargets(h, 1) == 0 && SumTargets(h, 2) == Genesis();
    SmallMod(Genesis(), Pow256(32));
    DivUnique(Genesis(), 1, Genesis());
  }

  lemma GenesisTarget()
    ensures TargetOf(GENESIS_BITS) == Genesis()
  {
  }

  lemma QuickRatio(h: seq<Entry>)
    requires |h| == 2 && h[0].timestamp == h[1].timestamp
    ensures Timespan(h) == 0 && Ratio(1, 0) == (100, 300)
  {
    assert Clamp(0, 60_000 / 3, 60_000 * 3) == 20_000;
    ScaledQuick();
  }

  lemma ScaledQuick()
    ensures Scaled(20_000, 60_000) == (100, 300)
  {
    var scale := 20_000 / 100;
    assert scale == 200 && 20_000 / scale == 100 && 60_000 / scale == 300;
  }

  // ----- the engine

  class DifficultyEngine {
    var history: seq<Entry>
    const window: nat

    constructor (window: nat)
      ensures this.window == window && history == []
    {
      this.window, history := window, [];
    }

    method RecordBlock(timestamp: u64, bits: u32)
      requires |history| <= window + 1
      modifies this
      ensures history == Record(old(history), Entry(timestamp, bits), window)
      ensures |history| == Min(|old(history)|, window) + 1 && history[|history| - 1] == Entry(timestamp, bits)
      ensures history[..|history| - 1] == old(history)[|old(history)| + 1 - |history|..]
    {
      history := history + [Entry(timestamp, bits)];
      while |history| > window + 1
        invariant |history| <= window + 2
        invariant Newest(history, window + 1) == Record(old(history), Entry(timestamp, bits), window)
      {
        history := history[1..];
      }
    }

    /** The number that MulDivTarget computes is the adjusted target. */
    method NextDifficulty() returns (r: u32)
      requires |history| <= 0x1000
      ensures r == NextBits(history)
    {
      hide Val, Pow256, Decode, Encode, Lo, Hi, Unpack, IsZero, LexLess, Ratio, Scaled, Clamp;
      var n := |history| - 1;
      if n <= 0 {
        return GENESIS_BITS;
      }
      var targetSum: Target := seq(32, _ => 0);
      ZeroTarget(targetSum);
      var i := 1;
      while i < |history|
        invariant 1 <= i <= |history| && Val(targetSum) == SumTargets(history, i) % Pow256(32)
      {
        var target := TargetFromBits(history[i].bits);
        ghost var sum := Val(targetSum);
        targetSum := AddTargets(targetSum, target);
        ModAdd(SumTargets(history, i), Val(target), Pow256(32));
        i := i + 1;
      }
      var targetAvg := DivTarget(targetSum, n);
      var actual := Max(history[n].timestamp - history[0].timestamp, 0);
      var expected := n * TARGET_BLOCK_TIME_MS;
      var clamped := Clamp(actual, expected / 3, expected * 3);
      var num, den: nat := clamped, expected;
      RatioMeaning(n, actual);
      ClampRange(n, actual);
      if num > 100 {
        var scale := num / 100;
        num := num / scale;
        den := Max(den / scale, 1);
      }
      RatioSteps(n, actual);
      var adjusted := MulDivTarget(targetAvg, num, den);
      var maxTarget := TargetFromBits(GENESIS_BITS);
      CapIsNeeded(maxTarget, adjusted);
      var result := adjusted;
      if LexLess(maxTarget, adjusted, 0) || IsZero(adjusted) {
        result := maxTarget;
      }
      r := TargetToBits(result);
    }
  }

  lemma RatioSteps(n: nat, actual: nat)
    requires n >= 1
    ensures var expected := n * TARGET_BLOCK_TIME_MS;
            var c := Clamp(actual, expected / 3, expected * 3);
            Ratio(n, actual) == if c > 100 then (c / (c / 100), Max(expected / (c / 100), 1)) else (c, expected)
  {
  }

  lemma ZeroTarget(s: Target)
    requires forall j :: 0 <= j < 32 ==> s[j] == 0
    ensures Val(s) == 0 && 0 % Pow256(32) == 0
  {
    ZeroVal(s, 32);
    SmallMod(0, Pow256(32));
  }

  lemma CapIsNeeded(maxTarget: Target, adjusted: Target)
    ensures LexLess(maxTarget, adjusted, 0) || IsZero(adjusted)
       <==> Val(adjusted) > Val(maxTarget) || Val(adjusted) == 0
  {
    LexIsLess(maxTarget, adjusted, 0);
    ValIsLo(maxTarget);
    ValIsLo(adjusted);
    IsZeroVal(adjusted);
  }

  lemma IsZeroVal(s: Target)
    ensures IsZero(s) <==> Val(s) == 0
  {
    ZeroVal(s, 32);
  }

  lemma ModAdd(a: nat, b: nat, m: nat)
    requires m > 0
    ensures (a % m + b) % m == (a + b) % m
  {
    var q, r := a / m, a % m;
    assert a == q * m + r;
    var q2, r2 := (r + b) / m, (r + b) % m;
    assert r + b == q2 * m + r2;
    AddColumns(q, q2, m);
    ModUnique(a + b, m, q + q2, r2);
  }
}
