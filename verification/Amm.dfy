/**
 The ZTR/zUSD pool (crates/zentra-finance/src/amm.rs). Its operations are given as steps on values; the
 invariants are proved over every run of steps, error returns included, and the class performs the steps.
 */
module Amm {
  import opened Types
  import opened Arithmetic

  const FEE_BPS := 20
  const BPS_DENOM := 10_000

  datatype AmmError = InsufficientLiquidity | ZeroAmount | Overflow

  /** `Panic` is a call that aborts instead of returning. */
  datatype Outcome<+T> = Ok(value: T) | Err(error: AmmError) | Panic

  datatype SwapResult = SwapResult(amountOut: u128, fee: u128, newReserveIn: u128, newReserveOut: u128)

  datatype Pool = Pool(ztr: u128, zusd: u128, lp: u128, burned: u128, volume: u128, fees: u128)

  datatype Op = SwapZtr(x: u128) | SwapZusd(x: u128) | Add(a: u128, b: u128) | Inject(a: u128, b: u128)

  const EMPTY := Pool(0, 0, 0, 0, 0, 0)

  ghost function K(p: Pool): nat { p.ztr * p.zusd }

  /** The circulating tokens claim no more than the geometric mean of the reserves. */
  ghost predicate Backed(p: Pool) { p.lp * p.lp <= K(p) }

  lemma BackedHasReserves(p: Pool)
    requires Backed(p) && p.lp > 0
    ensures p.ztr > 0 && p.zusd > 0
  {
    MulStrict(0, p.lp, p.lp);
  }

  // ----- the integer square root

  ghost function Root(n: nat): (r: nat)
    ensures r * r <= n < (r + 1) * (r + 1)
  {
    if n == 0 then 0
    else
      var r := Root(n - 1);
      NextSquare(r);
      if (r + 1) * (r + 1) <= n then r + 1 else r
  }

  lemma NextSquare(r: nat)
    ensures (r + 1) * (r + 1) + 1 < (r + 2) * (r + 2)
  {
    assert (r + 2) * (r + 2) == (r + 1) * (r + 1) + 2 * r + 3;
  }

  lemma RootUnique(n: nat, r: nat)
    requires r * r <= n < (r + 1) * (r + 1)
    ensures r == Root(n)
  {
    var q := Root(n);
    SquareCancel(r, q + 1);
    SquareCancel(q, r + 1);
  }

  lemma DoubleSquare(b: int)
    ensures 2 * b * (2 * b) == 4 * (b * b)
  {
  }

  /** A number below (q + 1)x is below the square of any b that is at least the mean of q + 1 and x. */
  lemma BelowMeanSquare(n: nat, x: nat, q: nat, b: nat)
    requires n < q * x + x && q + 1 + x <= 2 * b
    ensures n < b * b
  {
    assert (q + 1) * x == q * x + x;
    MeanSquare(q + 1, x);
    MulBoth(q + 1 + x, 2 * b, q + 1 + x, 2 * b);
    DoubleSquare(b);
  }

  /** One Newton step never lands below the root. */
  lemma NewtonStaysAbove(n: nat, x: nat, y: nat)
    requires x > 0 && y == (x + Quotient(n, x)) / 2
    ensures n < (y + 1) * (y + 1)
  {
    hide Quotient;
    QuotientBounds(n, x);
    BelowMeanSquare(n, x, Quotient(n, x), y + 1);
  }

  /** A step that does not go down has reached the root. */
  lemma NewtonEnds(n: nat, x: nat)
    requires x > 0 && x <= (x + Quotient(n, x)) / 2 && n < (x + 1) * (x + 1)
    ensures x == Root(n)
  {
    hide Quotient, Root;
    QuotientIsLargest(n, x, x);
    RootUnique(n, x);
  }

  /** The floor root of everything but the largest word, on which the first addition overflows. */
  method IntegerSqrt(n: u128) returns (r: Option<u128>)
    ensures r == if n == U128_MAX then None else Some(Root(n))
  {
    hide Quotient, Root;
    if n == 0 {
      RootUnique(0, 0);
      return Some(0);
    }
    if n == U128_MAX {
      return None;
    }
    var x: u128 := n;
    var y: u128 := (x + 1) / 2;
    FirstStep(n);
    NewtonStaysAbove(n, x, y);
    while y < x
      invariant 0 < x <= n && y == (x + Quotient(n, x)) / 2 && n < (x + 1) * (x + 1) && n < (y + 1) * (y + 1)
      decreases x
    {
      AboveRootIsPositive(n, y);
      x := y;
      SumFits(n, x);
      y := (x + Quotient(n, x)) / 2;
      NewtonStaysAbove(n, x, y);
    }
    NewtonEnds(n, x);
    return Some(x);
  }

  lemma FirstStep(n: nat)
    requires n > 0
    ensures Quotient(n, n) == 1 && n < (n + 1) * (n + 1)
  {
    DivUnique(n, n, 1);
    MulMono(1, n + 1, n + 1);
  }

  lemma AboveRootIsPositive(n: nat, y: nat)
    requires 0 < n < (y + 1) * (y + 1)
    ensures y > 0
  {
  }

  /** The sum in a Newton step stays within one above the number. */
  lemma SumFits(n: nat, x: nat)
    requires 0 < x <= n
    ensures x + Quotient(n, x) <= n + 1
  {
    hide Quotient;
    QuotientBounds(n, x);
    var q := Quotient(n, x);
    if n + 1 < x + q {
      assert (q - 1) * (x - 1) == q * x - q - x + 1;
      MulMono(0, q - 1, x - 1);
    }
  }

  // ----- swaps

  function Fee(x: u128): (r: u128)
    ensures r <= x
  {
    x * FEE_BPS / BPS_DENOM
  }

  function Net(x: u128): u128 { x - Fee(x) }

  /** The pool's price for x of a token it holds rin of, in the token it holds rout of. */
  function Payout(rin: u128, rout: u128, x: u128): (o: nat)
    requires rin > 0
    ensures rout > 0 ==> o < rout
  {
    PayoutFits(rin, rout, Net(x));
    Quotient(rout * Net(x), rin + Net(x))
  }

  lemma PayoutFits(rin: nat, rout: nat, n: nat)
    requires rin > 0
    ensures rout > 0 ==> Quotient(rout * n, rin + n) < rout
  {
    if rout > 0 {
      hide Quotient;
      QuotientIsLargest(rout * n, rin + n, rout);
      assert rout * (rin + n) == rout * rin + rout * n;
      MulStrict(0, rin, rout);
    }
  }

  /** The payout is the largest one that does not lower the product of the reserves, the fee of 20/10000 set aside. */
  lemma PayoutIsLargest(rin: u128, rout: u128, x: u128, o: nat)
    requires rin > 0 && o <= rout
    ensures o <= Payout(rin, rout, x) <==> rin * rout <= (rin + (x - x * 20 / 10_000)) * (rout - o)
  {
    var n: int := Net(x);
    assert n == x - x * 20 / 10_000;
    hide Quotient, Net;
    QuotientIsLargest(rout * n, rin + n, o);
    ProductAfter(rin, rout, n, o);
  }

  lemma ProductAfter(rin: int, rout: int, n: int, o: int)
    ensures (rin + n) * (rout - o) == rin * rout + rout * n - o * (rin + n)
  {
  }

  /** Whether a swap goes through and what it pays. */
  function Trade(rin: u128, rout: u128, x: u128): (r: Outcome<u128>)
    ensures r.Ok? ==> 0 < r.value < rout && rin > 0 && rin + x <= U128_MAX && r.value == Payout(rin, rout, x)
  {
    if x == 0 then Err(ZeroAmount)
    else if rin == 0 || rout == 0 then Err(InsufficientLiquidity)
    else if x * FEE_BPS > U128_MAX then Err(Overflow)
    else if Payout(rin, rout, x) == 0 then Err(InsufficientLiquidity)
    else if rin + x > U128_MAX then Err(Overflow)
    else Ok(Payout(rin, rout, x))
  }

  lemma TradeMeaning(rin: u128, rout: u128, x: u128)
    requires Trade(rin, rout, x).Ok?
    ensures 0 < Trade(rin, rout, x).value < rout && rin > 0 && rin + x <= U128_MAX
  {
  }

  /** When a swap goes through, what it pays, and which error is reported otherwise. */
  lemma TradeFields(rin: u128, rout: u128, x: u128)
    ensures var net, t := x - x * 20 / 10_000, Trade(rin, rout, x);
            && (t.Ok? <==> && x > 0 && rin > 0 && rout > 0 && x * 20 <= U128_MAX && rin + x <= U128_MAX
                           && rin * rout <= (rin + net) * (rout - 1))
            && (t.Ok? ==> && t.value <= rout && rin * rout <= (rin + net) * (rout - t.value)
                          && (rin + net) * (rout - (t.value + 1)) < rin * rout)
    ensures var t := Trade(rin, rout, x);
            !t.Ok? ==> t == if x == 0 then Err(ZeroAmount)
                            else if rin == 0 || rout == 0 then Err(InsufficientLiquidity)
                            else if x * 20 > U128_MAX then Err(Overflow)
                            else if (rin + (x - x * 20 / 10_000)) * (rout - 1) < rin * rout
                            then Err(InsufficientLiquidity)
                            else Err(Overflow)
  {
    if rin > 0 && rout > 0 {
      hide Payout;
      PayoutIsLargest(rin, rout, x, 1);
      if Trade(rin, rout, x).Ok? {
        PayoutIsLargest(rin, rout, x, Trade(rin, rout, x).value);
        PayoutIsLargest(rin, rout, x, Trade(rin, rout, x).value + 1);
      }
    }
  }

  lemma TradeKeepsProduct(rin: u128, rout: u128, x: u128)
    requires Trade(rin, rout, x).Ok?
    ensures rin * rout <= (rin + x) * (rout - Trade(rin, rout, x).value)
  {
    var o := Payout(rin, rout, x);
    PayoutIsLargest(rin, rout, x, o);
    MulMono(rin + Net(x), rin + x, rout - o);
  }

  // ----- deposits

  /** The tokens a deposit would mint. */
  ghost function NewTokens(p: Pool, a: u128, b: u128): Outcome<nat>
    requires Backed(p)
  {
    BackedOrEmpty(p);
    if a == 0 || b == 0 then Err(ZeroAmount)
    else
      var m := if p.lp > 0 then
                 if a * p.lp > U128_MAX || b * p.lp > U128_MAX then Err(Overflow)
                 else Ok(Min(Quotient(a * p.lp, p.ztr), Quotient(b * p.lp, p.zusd)))
               else if a * b > U128_MAX then Err(Overflow)
               else if a * b == U128_MAX then Panic
               else Ok(Root(a * b));
      if m == Ok(0) then Err(InsufficientLiquidity) else m
  }

  lemma BackedOrEmpty(p: Pool)
    requires Backed(p)
    ensures p.lp > 0 ==> p.ztr > 0 && p.zusd > 0
  {
    if p.lp > 0 {
      BackedHasReserves(p);
    }
  }

  /** A deposit never dilutes: the new tokens' share is no more than what was paid in. */
  lemma DepositShare(p: Pool, a: u128, b: u128, m: nat)
    requires Backed(p) && NewTokens(p, a, b) == Ok(m)
    ensures p.lp > 0 ==> K(p) * ((p.lp + m) * (p.lp + m)) <= (p.ztr + a) * (p.zusd + b) * (p.lp * p.lp)
    ensures (p.lp + m) * (p.lp + m) <= (p.ztr + a) * (p.zusd + b)
  {
    hide Quotient, Root;
    BackedOrEmpty(p);
    if p.lp > 0 {
      QuotientIsLargest(a * p.lp, p.ztr, m);
      QuotientIsLargest(b * p.lp, p.zusd, m);
      ShareGrows(p.ztr, p.zusd, p.lp, a, b, m);
      StaysBacked(K(p), p.lp * p.lp, (p.ztr + a) * (p.zusd + b), (p.lp + m) * (p.lp + m));
    } else {
      MulBoth(a, p.ztr + a, b, p.zusd + b);
    }
  }

  /**
   The tokens of a deposit are the most that neither side's share allows to exceed, or for the first deposit the
   floor root of the product; and when there are any.
   */
  lemma DepositTokens(p: Pool, a: u128, b: u128)
    requires Backed(p)
    ensures var t := NewTokens(p, a, b);
            && (t.Ok? <==>
                  a > 0 && b > 0
                  && if p.lp > 0 then
                       a * p.lp <= U128_MAX && b * p.lp <= U128_MAX && p.ztr <= a * p.lp && p.zusd <= b * p.lp
                     else a * b < U128_MAX)
            && (t.Ok? ==>
                  var m := t.value;
                  if p.lp > 0 then
                    && m * p.ztr <= a * p.lp && m * p.zusd <= b * p.lp
                    && (a * p.lp < (m + 1) * p.ztr || b * p.lp < (m + 1) * p.zusd)
                  else m * m <= a * b < (m + 1) * (m + 1))
  {
    hide Quotient, Root, Backed;
    BackedOrEmpty(p);
    if a > 0 && b > 0 {
      if p.lp > 0 {
        SharesFloor(a * p.lp, p.ztr, b * p.lp, p.zusd);
      } else {
        MulStrict(0, a, b);
        RootIsPositive(a * b);
      }
    }
  }

  lemma SharesFloor(n: nat, c: nat, k: nat, d: nat)
    requires c > 0 && d > 0
    ensures var m := Min(Quotient(n, c), Quotient(k, d));
            && m * c <= n && m * d <= k && (n < (m + 1) * c || k < (m + 1) * d)
            && (m > 0 <==> c <= n && d <= k)
  {
    hide Quotient;
    var m := Min(Quotient(n, c), Quotient(k, d));
    QuotientIsLargest(n, c, m);
    QuotientIsLargest(k, d, m);
    QuotientIsLargest(n, c, m + 1);
    QuotientIsLargest(k, d, m + 1);
    QuotientIsLargest(n, c, 1);
    QuotientIsLargest(k, d, 1);
  }

  lemma RootIsPositive(n: nat)
    ensures n > 0 ==> Root(n) > 0
  {
  }

  lemma ShareGrows(r: nat, z: nat, l: nat, a: nat, b: nat, m: nat)
    requires m * r <= a * l && m * z <= b * l
    ensures r * z * ((l + m) * (l + m)) <= (r + a) * (z + b) * (l * l)
  {
    assert r * (l + m) == r * l + m * r && (r + a) * l == r * l + a * l;
    assert z * (l + m) == z * l + m * z && (z + b) * l == z * l + b * l;
    MulBoth(r * (l + m), (r + a) * l, z * (l + m), (z + b) * l);
    Exchange(r, l + m, z, l + m);
    Exchange(r + a, l, z + b, l);
  }

  /** If k'/l' >= k/l >= 1 then k' >= l'. */
  lemma StaysBacked(k: nat, l: nat, k': nat, l': nat)
    requires 0 < l <= k && k * l' <= k' * l
    ensures l' <= k'
  {
    MulMono(l, k, k');
    if k' < l' {
      MulStrict(k', l', k);
    }
  }

  // ----- steps and runs

  /** What a deposit does to the pool; a failed one may already have taken the ZTR in. */
  ghost function AfterAdd(p: Pool, a: u128, b: u128): Pool
    requires Backed(p)
  {
    match NewTokens(p, a, b)
    case Ok(m) =>
      TokensFit(p, a, b, m);
      if p.ztr + a > U128_MAX then p
      else if p.zusd + b > U128_MAX then p.(ztr := p.ztr + a)
      else p.(ztr := p.ztr + a, zusd := p.zusd + b, lp := p.lp + m)
    case _ => p
  }

  ghost function AddResult(p: Pool, a: u128, b: u128): Outcome<nat>
    requires Backed(p)
  {
    var m := NewTokens(p, a, b);
    if m.Ok? && (p.ztr + a > U128_MAX || p.zusd + b > U128_MAX) then Err(Overflow) else m
  }

  /** The token counter cannot overflow before a reserve does. */
  lemma TokensFit(p: Pool, a: u128, b: u128, m: nat)
    requires Backed(p) && NewTokens(p, a, b) == Ok(m)
    ensures p.ztr + a <= U128_MAX && p.zusd + b <= U128_MAX ==> p.lp + m <= U128_MAX
  {
    DepositShare(p, a, b, m);
    if p.ztr + a <= U128_MAX && p.zusd + b <= U128_MAX {
      WordProduct(p.lp + m, p.ztr + a, p.zusd + b);
    }
  }

  lemma WordProduct(l: nat, r: nat, z: nat)
    requires l * l <= r * z && r <= U128_MAX && z <= U128_MAX
    ensures l <= U128_MAX
  {
    MulBoth(r, U128_MAX, z, U128_MAX);
    NextSquare(U128_MAX - 1);
    SquareCancel(l, U128_MAX + 1);
  }

  /** The tokens destroyed for an injection; none of them ever circulates. */
  ghost function Destroyed(p: Pool, a: u128, b: u128): Option<nat>
    requires Backed(p)
  {
    BackedOrEmpty(p);
    if a == 0 && b == 0 then Some(0)
    else if p.lp == 0 then if a * b >= U128_MAX then None else Some(Root(a * b))
    else
      var x, y := Quotient(Cap128(a * p.lp), p.ztr), Quotient(Cap128(b * p.lp), p.zusd);
      Some(if x == 0 then y else if y == 0 then x else Min(x, y))
  }

  /** x and y are what the two sides would mint, products cut off at the largest word; the smaller one if both do. */
  lemma DestroyedTokens(p: Pool, a: u128, b: u128) returns (x: nat, y: nat)
    requires Backed(p)
    ensures Destroyed(p, a, b).None? <==> p.lp == 0 && a * b >= U128_MAX
    ensures Destroyed(p, a, b).Some? ==>
              var d := Destroyed(p, a, b).value;
              if p.lp == 0 then d * d <= a * b < (d + 1) * (d + 1)
              else
                && x * p.ztr <= Min(a * p.lp, U128_MAX) < (x + 1) * p.ztr
                && y * p.zusd <= Min(b * p.lp, U128_MAX) < (y + 1) * p.zusd
                && d == if x == 0 then y else if y == 0 then x else Min(x, y)
  {
    hide Quotient, Root, Backed;
    BackedOrEmpty(p);
    x, y := 0, 0;
    if p.lp > 0 {
      x, y := Quotient(Cap128(a * p.lp), p.ztr), Quotient(Cap128(b * p.lp), p.zusd);
      SideFloor(Cap128(a * p.lp), p.ztr);
      SideFloor(Cap128(b * p.lp), p.zusd);
      NothingIn(p);
    }
  }

  lemma SideFloor(n: nat, c: nat)
    requires c > 0
    ensures Quotient(n, c) * c <= n < (Quotient(n, c) + 1) * c
  {
    hide Quotient;
    QuotientBounds(n, c);
    assert (Quotient(n, c) + 1) * c == Quotient(n, c) * c + c;
  }

  lemma NothingIn(p: Pool)
    requires p.ztr > 0 && p.zusd > 0
    ensures Quotient(Cap128(0 * p.lp), p.ztr) == 0 && Quotient(Cap128(0 * p.lp), p.zusd) == 0
  {
    DivUnique(0, p.ztr, 0);
    DivUnique(0, p.zusd, 0);
  }

  ghost function AfterInject(p: Pool, a: u128, b: u128): Pool
    requires Backed(p)
  {
    match Destroyed(p, a, b)
    case None => p
    case Some(d) => p.(ztr := Cap128(p.ztr + a), zusd := Cap128(p.zusd + b), burned := Cap128(p.burned + d))
  }

  ghost function Step(p: Pool, op: Op): Pool
    requires Backed(p)
  {
    match op
    case SwapZtr(x) =>
      (match Trade(p.ztr, p.zusd, x)
       case Ok(o) => p.(ztr := p.ztr + x, zusd := p.zusd - o, volume := Cap128(p.volume + x),
                        fees := Cap128(p.fees + Fee(x)))
       case _ => p)
    case SwapZusd(x) =>
      (match Trade(p.zusd, p.ztr, x)
       case Ok(o) => p.(zusd := p.zusd + x, ztr := p.ztr - o, volume := Cap128(p.volume + o),
                        fees := Cap128(p.fees + Fee(x)))
       case _ => p)
    case Add(a, b) => AfterAdd(p, a, b)
    case Inject(a, b) => AfterInject(p, a, b)
  }

  /** q is worth no less per token than p, and in total. */
  ghost predicate NoWorse(p: Pool, q: Pool) {
    && p.lp <= q.lp && K(p) <= K(q)
    && K(p) * (q.lp * q.lp) <= K(q) * (p.lp * p.lp)
  }

  lemma TradeLeavesMore(p: Pool, q: Pool)
    requires Backed(p) && p.lp == q.lp && K(p) <= K(q)
    ensures Backed(q) && NoWorse(p, q)
  {
    hide K;
    MulMono(K(p), K(q), p.lp * p.lp);
  }

  lemma AddKeeps(p: Pool, a: u128, b: u128)
    requires Backed(p)
    ensures var q := AfterAdd(p, a, b);
            Backed(q) && p.lp <= q.lp && K(p) <= K(q) && (p.lp > 0 ==> NoWorse(p, q))
  {
    hide NewTokens;
    var q := AfterAdd(p, a, b);
    MulBoth(p.ztr, q.ztr, p.zusd, q.zusd);
    if q.lp == p.lp {
      TradeLeavesMore(p, q);
    } else {
      DepositShare(p, a, b, NewTokens(p, a, b).value);
    }
  }

  lemma StepKeeps(p: Pool, op: Op)
    requires Backed(p)
    ensures var q := Step(p, op);
            Backed(q) && p.lp <= q.lp && K(p) <= K(q) && (p.lp > 0 ==> NoWorse(p, q))
  {
    hide Backed, NoWorse, Trade, AfterAdd, Destroyed;
    var q := Step(p, op);
    match op {
      case SwapZtr(x) => {
        if Trade(p.ztr, p.zusd, x).Ok? {
          TradeKeepsProduct(p.ztr, p.zusd, x);
        }
        TradeLeavesMore(p, q);
      }
      case SwapZusd(x) => {
        if Trade(p.zusd, p.ztr, x).Ok? {
          TradeKeepsProduct(p.zusd, p.ztr, x);
        }
        TradeLeavesMore(p, q);
      }
      case Add(a, b) => {
        AddKeeps(p, a, b);
      }
      case Inject(a, b) => {
        MulBoth(p.ztr, q.ztr, p.zusd, q.zusd);
        TradeLeavesMore(p, q);
      }
    }
  }

  ghost function Run(p: Pool, ops: seq<Op>): (q: Pool)
    requires Backed(p)
    ensures Backed(q)
    decreases |ops|
  {
    if ops == [] then p
    else
      StepKeeps(p, ops[0]);
      Run(Step(p, ops[0]), ops[1..])
  }

  /** Over every run tokens stay backed, and neither the product nor its share per token squared falls. */
  lemma {:induction false} RunKeeps(p: Pool, ops: seq<Op>)
    requires Backed(p)
    ensures Backed(Run(p, ops)) && p.lp <= Run(p, ops).lp && K(p) <= K(Run(p, ops))
    ensures p.lp > 0 ==> NoWorse(p, Run(p, ops))
    decreases |ops|
  {
    if ops != [] {
      var q := Step(p, ops[0]);
      StepKeeps(p, ops[0]);
      RunKeeps(q, ops[1..]);
      if p.lp > 0 {
        var s := Run(q, ops[1..]);
        MulStrict(0, q.lp, q.lp);
        RatioTransitive(K(p), p.lp * p.lp, K(q), q.lp * q.lp, K(s), s.lp * s.lp);
      }
    }
  }

  lemma OtherFactor(a: nat, b: nat, c: nat, d: nat)
    requires a * b <= c * d && d <= b && b > 0
    ensures a <= c
  {
    MulMono(d, b, c);
    MulCancel(a, c, b);
  }

  /** No run takes value out: one that leaves one reserve no higher leaves the other no lower. */
  lemma NoFreeValue(p: Pool, ops: seq<Op>)
    requires Backed(p)
    ensures p.zusd > 0 && Run(p, ops).zusd <= p.zusd ==> p.ztr <= Run(p, ops).ztr
    ensures p.ztr > 0 && Run(p, ops).ztr <= p.ztr ==> p.zusd <= Run(p, ops).zusd
  {
    hide Run, Backed, NoWorse;
    RunKeeps(p, ops);
    var q := Run(p, ops);
    if p.zusd > 0 && q.zusd <= p.zusd {
      OtherFactor(p.ztr, p.zusd, q.ztr, q.zusd);
    }
    if p.ztr > 0 && q.ztr <= p.ztr {
      OtherFactor(p.zusd, p.ztr, q.zusd, q.ztr);
    }
  }

  /** Swapping out and straight back returns no more than was put in. */
  lemma OutAndBack(rin: u128, rout: u128, x: u128)
    requires Trade(rin, rout, x).Ok?
    ensures var o := Trade(rin, rout, x).value;
            var back := Trade(rout - o, rin + x, o);
            back.Ok? ==> back.value <= x
  {
    hide Trade;
    var o := Trade(rin, rout, x).value;
    TradeMeaning(rin, rout, x);
    var back := Trade(rout - o, rin + x, o);
    TradeKeepsProduct(rin, rout, x);
    if back.Ok? {
      TradeMeaning(rout - o, rin + x, o);
      TradeKeepsProduct(rout - o, rin + x, o);
      assert (rout - o) * (rin + x) == (rin + x) * (rout - o);
      assert (rout - o + o) * (rin + x - back.value) == (rin + x - back.value) * rout;
      MulCancel(rin, rin + x - back.value, rout);
    }
  }

  /** A deposit that reports failure leaves the pool alone except in exactly one case. */
  lemma FailedDepositIsFree(p: Pool, a: u128, b: u128)
    requires Backed(p) && !AddResult(p, a, b).Ok?
    ensures Step(p, Add(a, b)) == p <==>
            !(NewTokens(p, a, b).Ok? && p.ztr + a <= U128_MAX && p.zusd + b > U128_MAX)
  {
  }

  /** That case is reachable from the empty pool: the depositor gets an error and the pool keeps the ZTR. */
  lemma FailedDepositKeepsZtr()
    ensures Backed(EMPTY)
    ensures var p := Run(EMPTY, [Inject(0, U128_MAX)]);
            && p == Pool(0, U128_MAX, 0, 0, 0, 0)
            && AddResult(p, 1, 1) == Err(Overflow) && Step(p, Add(1, 1)) == Pool(1, U128_MAX, 0, 0, 0, 0)
  {
    var ops := [Inject(0, U128_MAX)];
    assert ops[1..] == [];
    RootUnique(0, 0);
    RootUnique(1, 1);
    var p := Step(EMPTY, ops[0]);
    assert p == Pool(0, U128_MAX, 0, 0, 0, 0);
    assert Run(p, []) == p;
  }

  class LiquidityPool {
    var reserveZtr: u128
    var reserveZusd: u128
    var totalLp: u128
    var totalLpBurned: u128
    var totalVolumeZtr: u128
    var totalFees: u128

    ghost function State(): Pool
      reads this
    {
      Pool(reserveZtr, reserveZusd, totalLp, totalLpBurned, totalVolumeZtr, totalFees)
    }

    ghost predicate Valid()
      reads this
    {
      Backed(State())
    }

    constructor ()
      ensures State() == EMPTY && Valid()
    {
      reserveZtr, reserveZusd, totalLp, totalLpBurned, totalVolumeZtr, totalFees := 0, 0, 0, 0, 0, 0;
    }

    method SwapZtrToZusd(x: u128) returns (r: Outcome<SwapResult>)
      requires Valid()
      modifies this
      ensures Valid() && State() == Step(old(State()), SwapZtr(x))
      ensures r == match Trade(old(reserveZtr), old(reserveZusd), x)
                   case Ok(o) => Ok(SwapResult(o, Fee(x), reserveZtr, reserveZusd))
                   case Err(e) => Err(e)
                   case Panic => Panic
      ensures if r.Ok? then
                && r.value == SwapResult(r.value.amountOut, x * 20 / 10_000, reserveZtr, reserveZusd)
                && reserveZtr == old(reserveZtr) + x && reserveZusd == old(reserveZusd) - r.value.amountOut
                && totalLp == old(totalLp) && totalLpBurned == old(totalLpBurned)
                && totalVolumeZtr == Min(old(totalVolumeZtr) + x, U128_MAX)
                && totalFees == Min(old(totalFees) + x * 20 / 10_000, U128_MAX)
              else State() == old(State())
    {
      hide Quotient, Backed;
      ghost var p := State();
      StepKeeps(p, SwapZtr(x));
      if x == 0 {
        return Err(ZeroAmount);
      }
      if reserveZtr == 0 || reserveZusd == 0 {
        return Err(InsufficientLiquidity);
      }
      if x * FEE_BPS > U128_MAX {
        return Err(Overflow);
      }
      var fee := x * FEE_BPS / BPS_DENOM;
      var net := x - fee;
      var out := Quotient(reserveZusd * net, reserveZtr + net);
      if out == 0 || out >= reserveZusd {
        return Err(InsufficientLiquidity);
      }
      if reserveZtr + x > U128_MAX {
        return Err(Overflow);
      }
      reserveZtr := reserveZtr + x;
      reserveZusd := reserveZusd - out;
      totalVolumeZtr := Cap128(totalVolumeZtr + x);
      totalFees := Cap128(totalFees + fee);
      return Ok(SwapResult(out, fee, reserveZtr, reserveZusd));
    }

    method SwapZusdToZtr(x: u128) returns (r: Outcome<SwapResult>)
      requires Valid()
      modifies this
      ensures Valid() && State() == Step(old(State()), SwapZusd(x))
      ensures r == match Trade(old(reserveZusd), old(reserveZtr), x)
                   case Ok(o) => Ok(SwapResult(o, Fee(x), reserveZusd, reserveZtr))
                   case Err(e) => Err(e)
                   case Panic => Panic
      ensures if r.Ok? then
                && r.value == SwapResult(r.value.amountOut, x * 20 / 10_000, reserveZusd, reserveZtr)
                && reserveZusd == old(reserveZusd) + x && reserveZtr == old(reserveZtr) - r.value.amountOut
                && totalLp == old(totalLp) && totalLpBurned == old(totalLpBurned)
                && totalVolumeZtr == Min(old(totalVolumeZtr) + r.value.amountOut, U128_MAX)
                && totalFees == Min(old(totalFees) + x * 20 / 10_000, U128_MAX)
              else State() == old(State())
    {
      hide Quotient, Backed;
      ghost var p := State();
      StepKeeps(p, SwapZusd(x));
      if x == 0 {
        return Err(ZeroAmount);
      }
      if reserveZtr == 0 || reserveZusd == 0 {
        return Err(InsufficientLiquidity);
      }
      if x * FEE_BPS > U128_MAX {
        return Err(Overflow);
      }
      var fee := x * FEE_BPS / BPS_DENOM;
      var net := x - fee;
      var out := Quotient(reserveZtr * net, reserveZusd + net);
      if out == 0 || out >= reserveZtr {
        return Err(InsufficientLiquidity);
      }
      if reserveZusd + x > U128_MAX {
        return Err(Overflow);
      }
      reserveZusd := reserveZusd + x;
      reserveZtr := reserveZtr - out;
      totalVolumeZtr := Cap128(totalVolumeZtr + out);
      totalFees := Cap128(totalFees + fee);
      return Ok(SwapResult(out, fee, reserveZusd, reserveZtr));
    }

    /** Neither division is by zero while tokens circulate: the tokens are backed. */
    method TokensFor(a: u128, b: u128) returns (r: Outcome<nat>)
      requires Valid()
      ensures r == NewTokens(State(), a, b)
    {
      hide Quotient, Backed, Root;
      BackedOrEmpty(State());
      if a == 0 || b == 0 {
        return Err(ZeroAmount);
      }
      var tokens: nat;
      if totalLp == 0 {
        if a * b > U128_MAX {
          return Err(Overflow);
        }
        var root := IntegerSqrt(a * b);
        if root.None? {
          return Panic;
        }
        tokens := root.value;
      } else {
        if a * totalLp > U128_MAX || b * totalLp > U128_MAX {
          return Err(Overflow);
        }
        tokens := Min(Quotient(a * totalLp, reserveZtr), Quotient(b * totalLp, reserveZusd));
      }
      return if tokens == 0 then Err(InsufficientLiquidity) else Ok(tokens);
    }

    method AddLiquidity(a: u128, b: u128) returns (r: Outcome<nat>)
      requires Valid()
      modifies this
      ensures Valid() && State() == Step(old(State()), Add(a, b)) && r == AddResult(old(State()), a, b)
      ensures r.Ok? <==> && NewTokens(old(State()), a, b).Ok?
                         && old(reserveZtr) + a <= U128_MAX && old(reserveZusd) + b <= U128_MAX
      ensures r.Ok? ==> && reserveZtr == old(reserveZtr) + a && reserveZusd == old(reserveZusd) + b
                        && totalLp == old(totalLp) + r.value
      ensures totalLpBurned == old(totalLpBurned) && totalFees == old(totalFees)
      ensures totalVolumeZtr == old(totalVolumeZtr) && (!r.Ok? ==> totalLp == old(totalLp))
    {
      hide NewTokens, Backed;
      ghost var p := State();
      StepKeeps(p, Add(a, b));
      r := TokensFor(a, b);
      if !r.Ok? {
        return;
      }
      var tokens := r.value;
      TokensFit(p, a, b, tokens);
      if reserveZtr + a > U128_MAX {
        return Err(Overflow);
      }
      reserveZtr := reserveZtr + a;
      if reserveZusd + b > U128_MAX {
        return Err(Overflow);
      }
      reserveZusd := reserveZusd + b;
      if totalLp + tokens > U128_MAX {
        return Err(Overflow);
      }
      totalLp := totalLp + tokens;
    }

    /** None is the abort in the square root. */
    method InjectProtocolLiquidity(a: u128, b: u128) returns (r: Option<nat>)
      requires Valid()
      modifies this
      ensures Valid() && State() == Step(old(State()), Inject(a, b)) && r == Destroyed(old(State()), a, b)
      ensures if r.Some? then
                && reserveZtr == Min(old(reserveZtr) + a, U128_MAX)
                && reserveZusd == Min(old(reserveZusd) + b, U128_MAX)
                && totalLpBurned == Min(old(totalLpBurned) + r.value, U128_MAX) && totalLp == old(totalLp)
                && totalVolumeZtr == old(totalVolumeZtr) && totalFees == old(totalFees)
              else State() == old(State())
    {
      ghost var p := State();
      hide Quotient, Backed, Root;
      StepKeeps(p, Inject(a, b));
      BackedOrEmpty(p);
      if a == 0 && b == 0 {
        return Some(0);
      }
      var lp: nat;
      if totalLp == 0 {
        var root := IntegerSqrt(Cap128(a * b));
        if root.None? {
          return None;
        }
        lp := root.value;
      } else {
        var fromZtr := if reserveZtr > 0 then Quotient(Cap128(a * totalLp), reserveZtr) else 0;
        var fromZusd := if reserveZusd > 0 then Quotient(Cap128(b * totalLp), reserveZusd) else 0;
        lp := if fromZtr == 0 then fromZusd else if fromZusd == 0 then fromZtr else Min(fromZtr, fromZusd);
      }
      reserveZtr := Cap128(reserveZtr + a);
      reserveZusd := Cap128(reserveZusd + b);
      totalLpBurned := Cap128(totalLpBurned + lp);
      return Some(lp);
    }
  }
}
