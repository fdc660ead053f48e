/**
 256-bit arithmetic on 32 big-endian bytes (crates/zentra-consensus/src/difficulty.rs:193-242): the
 carry and remainder loops compute what the numbers say.
 */
module Bytes {
  import opened Types
  import opened Arithmetic

  type byte = x: int | 0 <= x < 256

  /** A target as the code holds it. */
  type Target = s: seq<byte> | |s| == 32 witness seq(32, _ => 0)

  ghost function Pow256(n: nat): (p: nat)
    ensures p > 0
  {
    if n == 0 then 1 else 256 * Pow256(n - 1)
  }

  /** The number that the first `i` bytes spell, and what bytes `i` and on contribute to the whole. */
  ghost function Hi(s: seq<byte>, i: nat): nat
    requires i <= |s|
  {
    if i == 0 then 0 else 256 * Hi(s, i - 1) + s[i - 1]
  }

  ghost function Lo(s: seq<byte>, i: nat): nat
    requires i <= |s|
    decreases |s| - i
  {
    if i == |s| then 0 else s[i] * Pow256(|s| - 1 - i) + Lo(s, i + 1)
  }

  ghost function Val(s: seq<byte>): nat { Hi(s, |s|) }

  lemma {:induction false} HiLo(s: seq<byte>, i: nat)
    requires i <= |s|
    ensures Hi(s, i) * Pow256(|s| - i) + Lo(s, i) == Val(s)
    ensures Lo(s, i) < Pow256(|s| - i)
    decreases |s| - i
  {
    if i < |s| {
      HiLo(s, i + 1);
      var h, b, p := Hi(s, i), s[i], Pow256(|s| - 1 - i);
      Distribute(h, b, p);
      MulMono(b, 255, p);
    }
  }

  lemma Distribute(h: int, b: int, p: int)
    ensures (256 * h + b) * p == h * (256 * p) + b * p
  {
  }

  lemma ValIsLo(s: seq<byte>)
    ensures Lo(s, 0) == Val(s) < Pow256(|s|)
  {
    HiLo(s, 0);
  }

  /** The leading bytes are the number shifted right. */
  lemma HiIsQuotient(s: seq<byte>, i: nat)
    requires i <= |s|
    ensures Hi(s, i) == Val(s) / Pow256(|s| - i)
  {
    HiLo(s, i);
    DivUnique(Val(s), Pow256(|s| - i), Hi(s, i));
  }

  lemma {:induction false} LoFrame(s: seq<byte>, t: seq<byte>, i: nat)
    requires |s| == |t| && i <= |s| && forall j :: i <= j < |s| ==> s[j] == t[j]
    ensures Lo(s, i) == Lo(t, i)
    decreases |s| - i
  {
    if i < |s| {
      LoFrame(s, t, i + 1);
    }
  }

  lemma {:induction false} HiFrame(s: seq<byte>, t: seq<byte>, i: nat)
    requires i <= |s| && i <= |t| && forall j :: 0 <= j < i ==> s[j] == t[j]
    ensures Hi(s, i) == Hi(t, i)
  {
    if i > 0 {
      HiFrame(s, t, i - 1);
    }
  }

  /** One digit of a carry loop: `digit` is written, `carryOut` goes on, `x` is the column's own sum. */
  lemma CarryStep(p: nat, digit: nat, carryOut: nat, carryIn: nat, x: nat, done: nat, goal: nat)
    requires digit + 256 * carryOut == x + carryIn
    requires done + carryIn * p == goal
    ensures digit * p + done + carryOut * (256 * p) == x * p + goal
  {
    assert (digit + 256 * carryOut) * p == digit * p + carryOut * (256 * p);
    assert (x + carryIn) * p == x * p + carryIn * p;
  }

  /** The same step on the bytes: column `i` is written and the invariant moves one column up. */
  lemma {:induction false} CarryColumn(before: Target, after: Target, i: nat, carryOut: nat, carryIn: nat, x: nat,
                                       goal: nat)
    requires i < 32 && after == before[i := after[i]] && after[i] + 256 * carryOut == x + carryIn
    requires Lo(before, i + 1) + carryIn * Pow256(31 - i) == goal
    ensures Lo(after, i) + carryOut * Pow256(32 - i) == x * Pow256(31 - i) + goal
  {
    LoFrame(before, after, i + 1);
    CarryStep(Pow256(31 - i), after[i], carryOut, carryIn, x, Lo(before, i + 1), goal);
  }

  lemma {:induction false} SumColumn(a: Target, b: Target, i: nat)
    requires i < 32
    ensures Lo(a, i) + Lo(b, i) == (a[i] as int + b[i] as int) * Pow256(31 - i) + (Lo(a, i + 1) + Lo(b, i + 1))
  {
    AddColumns(a[i], b[i], Pow256(31 - i));
  }

  lemma {:induction false} ProductColumn(a: Target, i: nat, num: nat)
    requires i < 32
    ensures Lo(a, i) * num == (a[i] as int * num) * Pow256(31 - i) + Lo(a, i + 1) * num
  {
    MulColumns(a[i], Pow256(31 - i), Lo(a, i + 1), num);
  }

  lemma LoEnd(s: Target)
    ensures Lo(s, 32) == 0
  {
  }

  method AddTargets(a: Target, b: Target) returns (r: Target)
    ensures Val(r) == (Val(a) + Val(b)) % Pow256(32)
  {
    hide Lo, Hi, Pow256, Val;
    var result := new byte[32](_ => 0);
    var carry: int := 0;
    var i := 32;
    LoEnd(a); LoEnd(b); LoEnd(result[..]);
    while i > 0
      invariant 0 <= i <= 32 && 0 <= carry <= 1
      invariant Lo(result[..], i) + carry * Pow256(32 - i) == Lo(a, i) + Lo(b, i)
    {
      i := i - 1;
      var x: int, y: int := a[i], b[i];
      var val := x + y + carry;
      ghost var before := result[..];
      result[i] := val % 256;
      CarryColumn(before, result[..], i, val / 256, carry, x + y, Lo(a, i + 1) + Lo(b, i + 1));
      SumColumn(a, b, i);
      carry := val / 256;
    }
    r := result[..];
    ValIsLo(a);
    ValIsLo(b);
    ValIsLo(r);
    ModUnique(Val(a) + Val(b), Pow256(32), carry, Val(r));
  }

  lemma AddColumns(x: int, y: int, p: int)
    ensures (x + y) * p == x * p + y * p
  {
  }

  lemma ModUnique(n: nat, d: nat, q: nat, r: nat)
    requires d > 0 && n == r + q * d && r < d
    ensures n % d == r
  {
    DivUnique(n, d, q);
    assert n == n / d * d + n % d;
  }

  /** Zero divisors leave the target as it is. */
  method DivTarget(target: Target, divisor: u64) returns (r: Target)
    ensures Val(r) == if divisor == 0 then Val(target) else Val(target) / divisor
  {
    if divisor == 0 {
      return target;
    }
    var result := new byte[32](_ => 0);
    var rem := 0;
    var i := 0;
    while i < 32
      invariant 0 <= i <= 32 && 0 <= rem < divisor
      invariant Hi(result[..], i) * divisor + rem == Hi(target, i)
    {
      var val := rem * 256 + target[i];
      DivStep(Hi(result[..], i), divisor, rem, target[i]);
      ghost var before := result[..];
      result[i] := val / divisor;
      HiFrame(before, result[..], i);
      rem := val % divisor;
      i := i + 1;
    }
    r := result[..];
    DivUnique(Val(target), divisor, Val(r));
  }

  /** One digit of long division. */
  lemma DivStep(h: nat, d: nat, rem: nat, b: byte)
    requires 0 <= rem < d
    ensures var val := rem * 256 + b;
            && 0 <= val / d < 256 && 0 <= val % d < d
            && (256 * h + val / d) * d + val % d == 256 * (h * d + rem) + b
  {
    var val := rem * 256 + b;
    DivBounds(val, d);
    var q := val / d;
    MulCancelStrict(q, 256, d);
    assert val == q * d + val % d;
    AddColumns(256 * h, q, d);
  }

  lemma MulCancelStrict(a: int, b: int, c: nat)
    requires a * c < b * c
    ensures a < b
  {
    if b <= a {
      MulMono(b, a, c);
    }
  }

  /** Multiply then divide; a product that does not fit gives all ones. */
  method MulDivTarget(target: Target, num: u64, den: u64) returns (r: Target)
    requires den > 0
    ensures Val(r) == if Val(target) * num >= Pow256(32) then Pow256(32) - 1 else Val(target) * num / den
  {
    hide Lo, Hi, Pow256, Val;
    var multiplied := new byte[32](_ => 0);
    var carry: int := 0;
    var i := 32;
    LoEnd(target); LoEnd(multiplied[..]);
    while i > 0
      invariant 0 <= i <= 32 && 0 <= carry <= num
      invariant Lo(multiplied[..], i) + carry * Pow256(32 - i) == Lo(target, i) * num
    {
      i := i - 1;
      var value := target[i] * num + carry;
      CarryBound(target[i], num, carry);
      ghost var before := multiplied[..];
      multiplied[i] := value % 256;
      CarryColumn(before, multiplied[..], i, value / 256, carry, target[i] * num, Lo(target, i + 1) * num);
      ProductColumn(target, i, num);
      carry := value / 256;
    }
    var product := multiplied[..];
    ValIsLo(target);
    ValIsLo(product);
    if carry > 0 {
      MulMono(1, carry, Pow256(32));
      r := seq(32, _ => 255);
      AllOnesVal(r);
    } else {
      r := DivTarget(product, den);
    }
  }

  lemma AllOnesVal(s: Target)
    requires forall j :: 0 <= j < 32 ==> s[j] == 255
    ensures Val(s) == Pow256(32) - 1
  {
    AllOnes(s, 32);
  }

  lemma CarryBound(b: byte, num: nat, carry: nat)
    requires carry <= num
    ensures 0 <= b * num && b * num + carry < 256 * (num + 1)
  {
    MulMono(b, 255, num);
    MulMono(0, b, num);
  }

  lemma MulColumns(b: int, p: int, rest: int, num: int)
    ensures (b * p + rest) * num == (b * num) * p + rest * num
  {
  }

  lemma {:induction false} AllOnes(s: seq<byte>, i: nat)
    requires i <= |s| && forall j :: 0 <= j < |s| ==> s[j] == 255
    ensures Hi(s, i) == Pow256(i) - 1
  {
    if i > 0 {
      AllOnes(s, i - 1);
    }
  }

  // ----- comparison

  /** The byte-wise order of the derived comparison. */
  predicate LexLess(a: seq<byte>, b: seq<byte>, i: nat)
    requires |a| == |b| && i <= |a|
    decreases |a| - i
  {
    i < |a| && (a[i] < b[i] || (a[i] == b[i] && LexLess(a, b, i + 1)))
  }

  /** Comparing bytes from the front is comparing the numbers. */
  lemma {:induction false} LexIsLess(a: seq<byte>, b: seq<byte>, i: nat)
    requires |a| == |b| && i <= |a|
    ensures LexLess(a, b, i) <==> Lo(a, i) < Lo(b, i)
    decreases |a| - i
  {
    if i < |a| {
      LexIsLess(a, b, i + 1);
      HiLo(a, i + 1);
      HiLo(b, i + 1);
      var p := Pow256(|a| - 1 - i);
      if a[i] < b[i] {
        DigitDecides(a[i], b[i], p, Lo(a, i + 1), Lo(b, i + 1));
      } else if b[i] < a[i] {
        DigitDecides(b[i], a[i], p, Lo(b, i + 1), Lo(a, i + 1));
      }
    }
  }

  lemma DigitDecides(x: int, y: int, p: nat, restX: nat, restY: nat)
    requires x < y && restX < p
    ensures x * p + restX < y * p + restY
  {
    MulMono(x + 1, y, p);
    AddColumns(x, 1, p);
  }

  predicate IsZero(a: Target) { forall i :: 0 <= i < 32 ==> a[i] == 0 }

  lemma {:induction false} ZeroVal(a: seq<byte>, i: nat)
    requires i <= |a|
    ensures Hi(a, i) == 0 <==> forall j :: 0 <= j < i ==> a[j] == 0
  {
    if i > 0 {
      ZeroVal(a, i - 1);
    }
  }
}
