/**
 The compact difficulty encoding (crates/zentra-consensus/src/difficulty.rs:244-271,
 crates/zentra-core/src/header.rs:43-79): what a round trip through 32 bits keeps of a target.
 */
module Compact {
  import opened Types
  import opened Arithmetic
  import opened Bytes

  const TWO23: nat := 0x80_0000
  const TWO24: nat := 0x100_0000

  /** Exponent and mantissa of a number, the mantissa's top bit kept clear. */
  datatype Parts = Parts(exponent: nat, mantissa: nat)

  /** Reference encoding: drop low bytes until 23 bits are left, counting them in the exponent. */
  ghost function Encode(t: nat): (p: Parts)
    ensures p.mantissa < TWO23
  {
    if t == 0 then Parts(0, 0)
    else if t < 0x80 then Parts(1, t * 0x1_0000)
    else if t < 0x8000 then Parts(2, t * 0x100)
    else if t < TWO23 then Parts(3, t)
    else
      var p := Encode(t / 256);
      Parts(p.exponent + 1, p.mantissa)
  }

  /** Reference decoding; exponents above 32 place the mantissa as 32 does. */
  ghost function Decode(p: Parts): nat {
    if p.exponent == 0 then 0
    else if p.exponent == 1 then p.mantissa / 0x1_0000
    else if p.exponent == 2 then p.mantissa / 0x100
    else if p.exponent == 3 then p.mantissa
    else Times(p.mantissa, Pow256(Min(p.exponent, 32) - 3))
  }

  ghost function Times(m: nat, p: nat): nat {
    MulMono(0, m, p);
    m * p
  }

  lemma Scale(m: nat, p: nat)
    ensures Times(m, 256 * p) == 256 * Times(m, p)
  {
  }

  /** Three bytes in a row as a number. */
  function Three(s: Target, i: nat): nat
    requires i <= 29
  {
    var b0: int, b1: int, b2: int := s[i], s[i + 1], s[i + 2];
    0x1_0000 * b0 + 0x100 * b1 + b2
  }

  ghost function Pack(p: Parts): nat { p.exponent * TWO24 + p.mantissa }

  ghost function Unpack(bits: u32): Parts { Parts(bits / TWO24, bits % TWO23) }

  // ----- the byte-level encoder is the reference encoder

  /** A number of more than three bytes: its first three bytes, or two of them after a shift. */
  lemma {:induction false} EncodeLeading(t: nat, n: nat)
    requires n >= 3 && Pow256(n - 1) <= t < Pow256(n)
    ensures var q := t / Pow256(n - 3);
            && 0x1_0000 <= q < TWO24
            && Encode(t) == if q < TWO23 then Parts(n, q) else Parts(n + 1, q / 256)
  {
    if n == 3 {
      assert Pow256(0) == 1 && Pow256(1) == 256 && Pow256(2) == 0x1_0000 && Pow256(3) == TWO24;
      assert t / 1 == t;
    } else {
      assert Pow256(n) == 256 * Pow256(n - 1) && Pow256(n - 1) == 256 * Pow256(n - 2);
      EncodeLeading(t / 256, n - 1);
      DivDiv(t, 256, Pow256(n - 4));
      assert Pow256(n - 3) == 256 * Pow256(n - 4);
      AtLeastTwo24(n - 1);
    }
  }

  lemma {:induction false} AtLeastTwo24(n: nat)
    requires n >= 3
    ensures Pow256(n) >= TWO24
  {
    if n == 3 {
      assert Pow256(0) == 1 && Pow256(1) == 256 && Pow256(2) == 0x1_0000 && Pow256(3) == TWO24;
    } else {
      AtLeastTwo24(n - 1);
    }
  }

  /** The first non-zero byte gives the length, and leading bytes give the quotients. */
  lemma LeadingBytes(s: Target, first: nat)
    requires first < 32 && s[first] != 0 && forall j :: 0 <= j < first ==> s[j] == 0
    ensures Pow256(31 - first) <= Val(s) < Pow256(32 - first)
    ensures first <= 29 ==> Val(s) / Pow256(29 - first) == Three(s, first)
  {
    ZeroVal(s, first);
    HiLo(s, first);
    HiLo(s, first + 1);
    assert Hi(s, first + 1) == s[first];
    MulMono(1, s[first], Pow256(31 - first));
    if first <= 29 {
      HiIsQuotient(s, first + 3);
      assert Hi(s, first + 3) == 256 * Hi(s, first + 2) + s[first + 2];
      assert Hi(s, first + 2) == 256 * Hi(s, first + 1) + s[first + 1];
    }
  }

  /** Short numbers: a left shift, then the same test of the top bit. */
  lemma EncodeShort(t: nat, n: nat)
    requires 1 <= n <= 3 && Pow256(n - 1) <= t < Pow256(n)
    ensures var m := t * Pow256(3 - n);
            Encode(t) == if m < TWO23 then Parts(n, m) else Parts(n + 1, m / 256)
  {
    assert Pow256(0) == 1 && Pow256(1) == 256 && Pow256(2) == 0x1_0000 && Pow256(3) == TWO24;
    if n == 1 {
      assert t * Pow256(2) == t * 0x1_0000;
    } else if n == 2 {
      assert t * Pow256(1) == t * 0x100;
    } else {
      EncodeLeading(t, 3);
      assert t / 1 == t;
    }
  }

  method TargetToBits(target: Target) returns (bits: u32)
    ensures bits == Pack(Encode(Val(target)))
  {
    hide Encode, Hi, Lo, Val, Three, Pow256;
    var first := 0;
    while first < 32 && target[first] == 0
      invariant 0 <= first <= 32 && forall j :: 0 <= j < first ==> target[j] == 0
    {
      first := first + 1;
    }
    if first == 32 {
      ZeroEncodes(target);
      return 0;
    }
    var exponent := 32 - first;
    LeadingBytes(target, first);
    var mantissa: int;
    if exponent <= 3 {
      var value: nat := 0;
      var i := first;
      ZeroPrefix(target, first);
      HiStep(target, 31);
      while i < 32
        invariant first <= i <= 32 && value == Hi(target, i)
      {
        HiStep(target, i);
        value := 256 * value + target[i];
        i := i + 1;
      }
      EncodeShort(Val(target), exponent);
      SmallPowers();
      mantissa := if exponent == 1 then value * 0x1_0000 else if exponent == 2 then value * 0x100 else value;
    } else {
      mantissa := Three(target, first);
      EncodeLeading(Val(target), exponent);
    }
    // The mantissa is below 2^24, so its top bit is set exactly when it reaches 2^23.
    if mantissa >= TWO23 {
      mantissa := mantissa / 256;
      exponent := exponent + 1;
    }
    return exponent * TWO24 + mantissa;
  }

  lemma ZeroEncodes(s: Target)
    requires forall j :: 0 <= j < 32 ==> s[j] == 0
    ensures Pack(Encode(Val(s))) == 0
  {
    ZeroVal(s, 32);
  }

  lemma ZeroPrefix(s: Target, first: nat)
    requires first <= 32 && forall j :: 0 <= j < first ==> s[j] == 0
    ensures Hi(s, first) == 0
  {
    ZeroVal(s, first);
  }

  lemma HiStep(s: Target, i: nat)
    requires i < 32
    ensures Hi(s, i + 1) == 256 * Hi(s, i) + s[i]
    ensures Hi(s, 32) == Val(s)
  {
  }

  // ----- the byte-level decoder is the reference decoder

  method TargetFromBits(bits: u32) returns (r: Target)
    ensures Val(r) == Decode(Unpack(bits))
  {
    hide Hi, Lo, Pow256, Val, Times;
    var exponent, mantissa := bits / TWO24, bits % TWO23;
    var target := new byte[32](_ => 0);
    if exponent == 0 {
      ZeroPrefix(target[..], 32);
      HiStep(target[..], 31);
      return target[..];
    }
    var pos: nat;
    if exponent <= 3 {
      var shifted := if exponent == 1 then mantissa / 0x1_0000
                     else if exponent == 2 then mantissa / 0x100 else mantissa;
      target[31] := shifted % 256;
      if exponent >= 2 { target[30] := shifted / 256 % 256; }
      if exponent >= 3 { target[29] := shifted / 0x1_0000 % 256; }
      pos := 29;
      Recompose(shifted);
      TimesOne(shifted);
    } else {
      pos := Max(32 - exponent, 0);
      target[pos] := mantissa / 0x1_0000;
      target[pos + 1] := mantissa / 256 % 256;
      target[pos + 2] := mantissa % 256;
      Recompose(mantissa);
    }
    r := target[..];
    ThreeBytes(r, pos);
  }

  lemma Recompose(m: nat)
    requires m < TWO23
    ensures 0x1_0000 * (m / 0x1_0000) + 0x100 * (m / 256 % 256) + m % 256 == m
    ensures 0 <= m / 0x1_0000 < 256 && m / 0x1_0000 % 256 == m / 0x1_0000
    ensures m < 0x1_0000 ==> m / 0x1_0000 == 0
    ensures m < 256 ==> m / 256 == 0
  {
  }

  lemma TimesOne(m: nat)
    ensures Times(m, Pow256(0)) == m
  {
  }

  lemma PowStep(n: nat)
    ensures Pow256(n + 1) == 256 * Pow256(n)
  {
  }

  lemma SmallPowers()
    ensures Pow256(0) == 1 && Pow256(1) == 256 && Pow256(2) == 0x1_0000 && Pow256(3) == TWO24
  {
  }

  /** Zeros but for three bytes in a row. */
  lemma ThreeBytes(s: Target, pos: nat)
    requires pos <= 29 && forall j :: 0 <= j < 32 && !(pos <= j < pos + 3) ==> s[j] == 0
    ensures Val(s) == Times(Three(s, pos), Pow256(29 - pos))
  {
    ZeroVal(s, pos);
    assert Hi(s, pos + 3) == 256 * Hi(s, pos + 2) + s[pos + 2];
    assert Hi(s, pos + 2) == 256 * Hi(s, pos + 1) + s[pos + 1];
    HiLo(s, pos + 3);
    ZeroTail(s, pos + 3);
  }

  lemma {:induction false} ZeroTail(s: Target, i: nat)
    requires i <= 32 && forall j :: i <= j < 32 ==> s[j] == 0
    ensures Lo(s, i) == 0
    decreases 32 - i
  {
    if i < 32 {
      ZeroTail(s, i + 1);
    }
  }

  // ----- what the round trip keeps

  /** The number with low bytes cleared until at most 23 bits are above them. */
  ghost function Trunc(t: nat): nat {
    if t < TWO23 then t else 256 * Trunc(t / 256)
  }

  ghost function RoundTrip(t: nat): nat { Decode(Encode(t)) }

  lemma {:induction false} EncodeExponent(t: nat)
    requires t >= TWO23
    ensures var p := Encode(t); p.exponent >= 4 && Times(p.mantissa, Pow256(p.exponent - 3)) == Trunc(t)
  {
    var q, p := t / 256, Encode(t);
    if q < TWO23 {
      assert Encode(q) == Parts(3, q) && Pow256(0) == 1 && Pow256(1) == 256;
    } else {
      EncodeExponent(q);
      Scale(p.mantissa, Pow256(p.exponent - 4));
    }
  }

  /** The exponent stays within 32 exactly for targets below 2^255. */
  lemma {:induction false} ExponentFits(t: nat, n: nat)
    requires n >= 3
    ensures Encode(t).exponent <= n <==> t < 0x80 * Pow256(n - 1)
  {
    assert Pow256(0) == 1 && Pow256(1) == 256 && Pow256(2) == 0x1_0000;
    if n == 3 {
      if t >= TWO23 {
        EncodeExponent(t);
      }
    } else {
      if t >= TWO23 {
        ExponentFits(t / 256, n - 1);
      } else {
        Pow256Grows(n - 1);
      }
    }
  }

  lemma {:induction false} Pow256Grows(n: nat)
    requires n >= 2
    ensures Pow256(n) >= 0x1_0000
  {
    if n == 2 {
      assert Pow256(0) == 1 && Pow256(1) == 256 && Pow256(2) == 0x1_0000;
    } else {
      Pow256Grows(n - 1);
    }
  }

  lemma ShortIsExact(t: nat)
    requires t < TWO23
    ensures RoundTrip(t) == t
  {
    SmallPowers();
    var p := Encode(t);
    if p.exponent == 1 {
      DivUnique(t * 0x1_0000, 0x1_0000, t);
    } else if p.exponent == 2 {
      DivUnique(t * 0x100, 0x100, t);
    } else if p.exponent == 3 {
      DivUnique(t, 1, t);
    }
  }

  /** Main theorem: below 2^255 decoding the encoding clears low bytes and does nothing else. */
  lemma RoundTripIsTrunc(t: nat)
    requires t < 0x80 * Pow256(31)
    ensures RoundTrip(t) == Trunc(t)
  {
    hide Times, Pow256;
    if t < TWO23 {
      ShortIsExact(t);
    } else {
      EncodeExponent(t);
      ExponentFits(t, 32);
    }
  }

  /** From 2^255 on the exponent leaves the 32 bytes and the value comes back 256 times too small. */
  lemma RoundTripOverflows(t: nat)
    requires 0x80 * Pow256(31) <= t < Pow256(32)
    ensures RoundTrip(t) * 256 == Trunc(t)
  {
    hide Pow256, Times, Encode, Trunc;
    PowStep(31);
    AtLeastTwo24(31);
    EncodeExponent(t);
    ExponentFits(t, 32);
    ExponentFits(t, 33);
    var m := Encode(t).mantissa;
    PowStep(29);
    Scale(m, Pow256(29));
  }

  /** Clearing loses less than one part in 2^15. */
  lemma {:induction false} TruncError(t: nat)
    ensures Trunc(t) <= t
    ensures t > 0 ==> (t - Trunc(t)) * 0x8000 < t
  {
    if t >= TWO23 {
      TruncError(t / 256);
      if t / 256 < TWO23 {
        assert Trunc(t / 256) == t / 256;
      }
      TruncGap(t / 256);
    }
  }

  /** The loss is a whole number of cleared units; with the next byte it still stays below 2^-15. */
  lemma {:induction false} TruncGap(q: nat)
    requires q >= 0x8000
    ensures (q - Trunc(q) + 1) * 0x8000 <= q
  {
    if q >= TWO23 {
      TruncGap(q / 256);
    }
  }

  lemma {:induction false} TruncMonotone(s: nat, t: nat)
    requires s <= t
    ensures Trunc(s) <= Trunc(t)
  {
    if s >= TWO23 {
      TruncMonotone(s / 256, t / 256);
    } else if t >= TWO23 {
      TruncAtLeast(t);
    }
  }

  lemma {:induction false} TruncAtLeast(t: nat)
    requires t >= TWO23
    ensures Trunc(t) >= TWO23
  {
    if t / 256 >= TWO23 {
      TruncAtLeast(t / 256);
    }
  }

  lemma {:induction false} EncodeOfTrunc(t: nat)
    ensures Encode(Trunc(t)) == Encode(t)
  {
    if t >= TWO23 {
      TruncAtLeast(t);
      EncodeOfTrunc(t / 256);
      DivUnique(256 * Trunc(t / 256), 256, Trunc(t / 256));
    }
  }

  ghost predicate Faithful(t: nat) {
    var d := RoundTrip(t);
    d <= t && (t - d) * 0x8000 < t && Encode(d) == Encode(t)
  }

  /** A positive target survives the round trip, to one part in 2^15 and the same bits again, iff it is below 2^255. */
  lemma FaithfulIff(t: nat)
    requires 0 < t < Pow256(32)
    ensures Faithful(t) <==> t < 0x80 * Pow256(31)
  {
    TruncError(t);
    if t < 0x80 * Pow256(31) {
      RoundTripIsTrunc(t);
      EncodeOfTrunc(t);
    } else {
      RoundTripOverflows(t);
    }
  }

  lemma RoundTripMonotone(s: nat, t: nat)
    requires s <= t < 0x80 * Pow256(31)
    ensures RoundTrip(s) <= RoundTrip(t)
  {
    RoundTripIsTrunc(s);
    RoundTripIsTrunc(t);
    TruncMonotone(s, t);
  }

  lemma {:induction false} TruncShift(t: nat)
    ensures Trunc(256 * t) == 256 * Trunc(t)
  {
    if 256 * t >= TWO23 {
      DivUnique(256 * t, 256, t);
    }
  }

  lemma {:induction false} TruncProduct(m: nat, k: nat)
    requires m < TWO23
    ensures Trunc(Times(m, Pow256(k))) == Times(m, Pow256(k))
  {
    if k == 0 {
      assert Times(m, 1) == m;
    } else {
      TruncProduct(m, k - 1);
      Scale(m, Pow256(k - 1));
      TruncShift(Times(m, Pow256(k - 1)));
    }
  }

  /** A decoded target loses nothing more. */
  lemma DecodedIsTruncated(p: Parts)
    requires p.mantissa < TWO23
    ensures Trunc(Decode(p)) == Decode(p)
  {
    hide Times, Pow256, Trunc;
    if p.exponent > 3 {
      TruncProduct(p.mantissa, Min(p.exponent, 32) - 3);
    } else {
      SmallIsTruncated(Decode(p));
    }
  }

  lemma SmallIsTruncated(t: nat)
    ensures t < TWO23 ==> Trunc(t) == t
  {
  }

  /**
   The value of the bits: the low 23 bits are shifted right for a top byte of 1 or 2, stand as they are for 3, and
   each step of the top byte up to 32 is a factor of 256; beyond 32 it changes nothing, and for 0 the value is 0.
   */
  lemma DecodeSteps(bits: u32)
    ensures var top, low := bits / 0x100_0000, bits % 0x80_0000;
            var v := Decode(Unpack(bits));
            && (top == 0 ==> v == 0) && (top == 1 ==> v == low / 0x1_0000) && (top == 2 ==> v == low / 0x100)
            && (top == 3 ==> v == low)
            && (top < 255 ==> bits + 0x100_0000 < 0x1_0000_0000)
            && (3 <= top < 32 ==> Decode(Unpack(bits + 0x100_0000)) == 256 * v)
            && (32 <= top < 255 ==> Decode(Unpack(bits + 0x100_0000)) == v)
  {
    hide Times, Pow256;
    if bits / 0x100_0000 < 255 {
      var p, q := Unpack(bits), Unpack(bits + 0x100_0000);
      assert q == Parts(p.exponent + 1, p.mantissa);
      if p.exponent == 3 {
        ScaleOnce(p.mantissa);
      } else if 3 < p.exponent < 32 {
        PowStep(p.exponent - 3);
        Scale(p.mantissa, Pow256(p.exponent - 3));
      }
    }
  }

  lemma ScaleOnce(m: nat)
    ensures Times(m, Pow256(1)) == 256 * m
  {
  }

  lemma UnpackPack(p: Parts)
    requires p.mantissa < TWO23 && p.exponent < 256
    ensures 0 <= Pack(p) < 0x1_0000_0000 && Unpack(Pack(p)) == p
  {
  }
}
