/**
 Protocol-owned liquidity and the ingest vault (crates/zentra-finance/src/pol.rs and vault.rs). A run is any
 sequence of calls, failing ones included; the books are proved to balance after every run.
 */
module Vault {
  import opened Types
  import opened Amm

  const INGEST_FEE_BPS := 50
  const U16 := 0x1_0000

  // ----- protocol-owned liquidity

  datatype Pol = Pol(pool: Pool, ingestFees: u128, swapFees: u128, burned: u128)

  const EMPTY_POL := Pol(EMPTY, 0, 0, 0)

  /** Half a percent, by a multiplication that wraps at 128 bits. */
  function IngestFee(x: u128): (fee: u128)
    ensures fee <= x / 200
  {
    WrapsDown(x * INGEST_FEE_BPS);
    x * INGEST_FEE_BPS % (U128_MAX + 1) / BPS_DENOM
  }

  lemma WrapsDown(n: nat)
    ensures 0 <= n % (U128_MAX + 1) <= n
  {
  }

  /** The fee is the exact half percent just when the multiplication does not wrap. */
  lemma FeeIsExactIff(x: u128)
    ensures IngestFee(x) == x * 50 % 0x1_0000_0000_0000_0000_0000_0000_0000_0000 / 10_000
    ensures IngestFee(x) == x * 50 / 10_000 <==> x * 50 <= U128_MAX
  {
    var n := x * INGEST_FEE_BPS;
    if n > U128_MAX {
      assert n % (U128_MAX + 1) <= n - (U128_MAX + 1);
    }
  }

  function IngestNet(x: u128): u128 { x - IngestFee(x) }

  lemma OneSidedNeverPanics(p: Pool, fee: u128)
    requires Backed(p)
    ensures Destroyed(p, 0, fee).Some?
  {
  }

  ghost function BurnedFor(p: Pool, a: u128, b: u128): nat
    requires Backed(p)
  {
    match Destroyed(p, a, b)
    case None => 0
    case Some(d) => d
  }

  ghost function AfterIngest(s: Pol, x: u128): Pol
    requires Backed(s.pool)
  {
    if x == 0 then s
    else
      var fee := IngestFee(x);
      s.(pool := AfterInject(s.pool, 0, fee), ingestFees := Cap128(s.ingestFees + fee),
         burned := Cap128(s.burned + BurnedFor(s.pool, 0, fee)))
  }

  ghost function AfterSwapFee(s: Pol, a: u128, b: u128): Pol
    requires Backed(s.pool)
  {
    if (a == 0 && b == 0) || Destroyed(s.pool, a, b).None? then s
    else s.(pool := AfterInject(s.pool, a, b), swapFees := Cap128(s.swapFees + a),
            burned := Cap128(s.burned + BurnedFor(s.pool, a, b)))
  }

  class ProtocolOwnedLiquidity {
    const pool: LiquidityPool
    var ingestFees: u128
    var swapFees: u128
    var burned: u128

    ghost function State(): Pol
      reads this, pool
    {
      Pol(pool.State(), ingestFees, swapFees, burned)
    }

    ghost predicate Valid()
      reads this, pool
    {
      pool.Valid()
    }

    constructor ()
      ensures Valid() && State() == EMPTY_POL && fresh(pool)
    {
      pool := new LiquidityPool();
      ingestFees, swapFees, burned := 0, 0, 0;
    }

    method ProcessCrossChainIngest(x: u128) returns (net: u128, fee: u128, lp: nat)
      requires Valid()
      modifies this, pool
      ensures Valid() && State() == AfterIngest(old(State()), x)
      ensures net == IngestNet(x) && fee == IngestFee(x) && lp == BurnedFor(old(pool.State()), 0, fee)
      ensures net + fee == x
      ensures && ingestFees == Min(old(ingestFees) + fee, U128_MAX) && burned == Min(old(burned) + lp, U128_MAX)
              && swapFees == old(swapFees)
      ensures && pool.reserveZusd == Min(old(pool.reserveZusd) + fee, U128_MAX)
              && pool.reserveZtr == old(pool.reserveZtr)
              && pool.totalLpBurned == Min(old(pool.totalLpBurned) + lp, U128_MAX)
              && pool.totalLp == old(pool.totalLp)
    {
      hide Backed, Destroyed;
      ghost var p := pool.State();
      if x == 0 {
        NothingInjected(p);
        return 0, 0, 0;
      }
      fee := IngestFee(x);
      net := Minus(x, fee);
      OneSidedNeverPanics(p, fee);
      var injected := pool.InjectProtocolLiquidity(0, fee);
      lp := injected.value;
      ingestFees := Cap128(ingestFees + fee);
      burned := Cap128(burned + lp);
    }

    /** The result says whether the call returned: a saturated product aborts it. */
    method ProcessSwapFee(a: u128, b: u128) returns (returned: bool)
      requires Valid()
      modifies this, pool
      ensures Valid() && State() == AfterSwapFee(old(State()), a, b)
      ensures returned == Destroyed(old(pool.State()), a, b).Some?
      ensures if returned then
                var lp := BurnedFor(old(pool.State()), a, b);
                && swapFees == Min(old(swapFees) + a, U128_MAX) && burned == Min(old(burned) + lp, U128_MAX)
                && ingestFees == old(ingestFees)
                && pool.reserveZtr == Min(old(pool.reserveZtr) + a, U128_MAX)
                && pool.reserveZusd == Min(old(pool.reserveZusd) + b, U128_MAX)
                && pool.totalLpBurned == Min(old(pool.totalLpBurned) + lp, U128_MAX)
              else State() == old(State())
    {
      hide Backed, Destroyed;
      ghost var p := pool.State();
      if a == 0 && b == 0 {
        NothingInjected(p);
        return true;
      }
      var injected := pool.InjectProtocolLiquidity(a, b);
      if injected.None? {
        return false;
      }
      swapFees := Cap128(swapFees + a);
      burned := Cap128(burned + injected.value);
      return true;
    }
  }

  lemma NothingInjected(p: Pool)
    requires Backed(p)
    ensures Destroyed(p, 0, 0) == Some(0)
  {
  }

  // ----- the vault

  datatype Status = Pending | Validated | Minted | Rejected

  datatype Request = Request(chain: string, txHash: string, depositor: nat, amount: u128, status: Status)

  datatype VaultError = ZeroIngest | Duplicate | OutOfRange | NotPending | TooFewSigners | InvalidSignature
                      | NotValidated | ZeroBurn | ExceedsSupply

  datatype State = State(pol: Pol, requests: seq<Request>, minted: u128, burned: u128)

  /**
   Validate carries the number of signatures and whether one of them is invalid; Market is a call by
   anyone else on the pool.
   */
  datatype Call = Submit(request: Request) | Validate(i: nat, sigs: nat, invalid: bool) | Mint(j: nat)
                | Burn(amount: u128) | SwapFee(ztr: u128, zusd: u128) | Market(op: Op)

  const EMPTY_VAULT := State(EMPTY_POL, [], 0, 0)

  function Hashes(rs: seq<Request>): set<string> {
    if rs == [] then {} else Hashes(rs[..|rs| - 1]) + {rs[|rs| - 1].txHash}
  }

  ghost function SubmitError(s: State, r: Request): Option<VaultError> {
    if r.amount == 0 then Some(ZeroIngest)
    else if r.txHash in Hashes(s.requests) then Some(Duplicate)
    else None
  }

  /** The signature count is truncated to 16 bits before it is compared. */
  ghost function ValidateError(s: State, threshold: nat, i: nat, sigs: nat, invalid: bool): Option<VaultError> {
    if i >= |s.requests| then Some(OutOfRange)
    else if s.requests[i].status != Pending then Some(NotPending)
    else if sigs % U16 < threshold then Some(TooFewSigners)
    else if invalid then Some(InvalidSignature)
    else None
  }

  ghost function MintError(s: State, i: nat): Option<VaultError> {
    if i >= |s.requests| then Some(OutOfRange)
    else if s.requests[i].status != Validated then Some(NotValidated)
    else None
  }

  ghost function BurnError(s: State, amount: u128): Option<VaultError> {
    if amount == 0 then Some(ZeroBurn)
    else if s.burned + amount > s.minted then Some(ExceedsSupply)
    else None
  }

  ghost function After(s: State, threshold: nat, c: Call): State
    requires Backed(s.pol.pool)
  {
    match c
    case Submit(r) => if SubmitError(s, r).None? then s.(requests := s.requests + [r]) else s
    case Validate(i, sigs, invalid) =>
      if ValidateError(s, threshold, i, sigs, invalid).Some? then s
      else s.(requests := s.requests[i := s.requests[i].(status := Validated)])
    case Mint(j) =>
      if MintError(s, j).Some? then s
      else
        var x := s.requests[j].amount;
        s.(pol := AfterIngest(s.pol, x), minted := Cap128(s.minted + IngestNet(x)),
           requests := s.requests[j := s.requests[j].(status := Minted)])
    case Burn(amount) => if BurnError(s, amount).Some? then s else s.(burned := Cap128(s.burned + amount))
    case SwapFee(a, b) => s.(pol := AfterSwapFee(s.pol, a, b))
    case Market(op) => s.(pol := s.pol.(pool := Step(s.pol.pool, op)))
  }

  // ----- the books

  ghost function GrossOf(r: Request): nat { if r.status == Minted then r.amount else 0 }

  ghost function FeeOf(r: Request): nat { if r.status == Minted then IngestFee(r.amount) else 0 }

  /** Gross value, and fees, of the minted requests. */
  ghost function Gross(rs: seq<Request>): nat {
    if rs == [] then 0 else Gross(rs[..|rs| - 1]) + GrossOf(rs[|rs| - 1])
  }

  ghost function Fees(rs: seq<Request>): (r: nat)
    ensures r <= Gross(rs)
  {
    if rs == [] then 0 else Fees(rs[..|rs| - 1]) + FeeOf(rs[|rs| - 1])
  }

  lemma {:induction false} SumsAfterChange(rs: seq<Request>, i: nat, r: Request)
    requires i < |rs|
    ensures Gross(rs[i := r]) == Gross(rs) - GrossOf(rs[i]) + GrossOf(r)
    ensures Fees(rs[i := r]) == Fees(rs) - FeeOf(rs[i]) + FeeOf(r)
    ensures r.txHash == rs[i].txHash ==> Hashes(rs[i := r]) == Hashes(rs)
  {
    var n := |rs| - 1;
    if i == n {
      assert rs[i := r][..n] == rs[..n];
    } else {
      assert rs[i := r][..n] == rs[..n][i := r];
      SumsAfterChange(rs[..n], i, r);
    }
  }

  lemma SumsAfterPush(rs: seq<Request>, r: Request)
    ensures Gross(rs + [r]) == Gross(rs) + GrossOf(r) && Fees(rs + [r]) == Fees(rs) + FeeOf(r)
    ensures Hashes(rs + [r]) == Hashes(rs) + {r.txHash}
  {
    assert (rs + [r])[..|rs|] == rs;
  }

  ghost predicate DistinctHashes(rs: seq<Request>) {
    forall i, j :: 0 <= i < j < |rs| ==> rs[i].txHash != rs[j].txHash
  }

  lemma {:induction false} HashesMeaning(rs: seq<Request>)
    ensures forall i :: 0 <= i < |rs| ==> rs[i].txHash in Hashes(rs)
  {
    if rs != [] {
      HashesMeaning(rs[..|rs| - 1]);
      assert forall i :: 0 <= i < |rs| - 1 ==> rs[i] == rs[..|rs| - 1][i];
    }
  }

  lemma {:induction false} HashesAre(rs: seq<Request>)
    ensures forall h :: h in Hashes(rs) <==> exists k :: 0 <= k < |rs| && rs[k].txHash == h
  {
    if rs != [] {
      HashesAre(rs[..|rs| - 1]);
    }
  }

  /**
   Counters are the sums of the minted requests, cut off at the largest word. The requests that came in as
   already minted, `pre`, are not counted.
   */
  ghost predicate Books(s: State, pre: seq<Request>) {
    var fees := Fees(s.requests) - Fees(pre);
    var net := Gross(s.requests) - Gross(pre) - fees;
    0 <= fees && 0 <= net && s.minted == Cap128(net) && s.pol.ingestFees == Cap128(fees)
  }

  ghost predicate Sound(s: State, pre: seq<Request>) {
    Backed(s.pol.pool) && Books(s, pre) && DistinctHashes(s.requests) && s.burned <= s.minted
  }

  /** The list with the request that the call brings in as already minted, if it does. */
  ghost function AddPremade(s: State, c: Call, pre: seq<Request>): seq<Request> {
    if c.Submit? && SubmitError(s, c.request).None? && c.request.status == Minted then pre + [c.request] else pre
  }

  lemma IngestKeeps(s: Pol, x: u128)
    requires Backed(s.pool)
    ensures Backed(AfterIngest(s, x).pool) && AfterIngest(s, x).ingestFees == Cap128(s.ingestFees + IngestFee(x))
    ensures s.burned == s.pool.burned ==> AfterIngest(s, x).burned == AfterIngest(s, x).pool.burned
  {
    if x != 0 {
      OneSidedNeverPanics(s.pool, IngestFee(x));
      StepKeeps(s.pool, Inject(0, IngestFee(x)));
    }
  }

  lemma SwapFeeKeeps(s: Pol, a: u128, b: u128)
    requires Backed(s.pool)
    ensures Backed(AfterSwapFee(s, a, b).pool) && AfterSwapFee(s, a, b).ingestFees == s.ingestFees
    ensures s.burned == s.pool.burned ==> AfterSwapFee(s, a, b).burned == AfterSwapFee(s, a, b).pool.burned
  {
    StepKeeps(s.pool, Inject(a, b));
  }

  lemma RequestsKept(s: State, threshold: nat, c: Call)
    requires Backed(s.pol.pool)
    ensures var t := After(s, threshold, c);
            |s.requests| <= |t.requests| &&
            forall i :: 0 <= i < |s.requests| ==> t.requests[i] == s.requests[i].(status := t.requests[i].status)
  {
    hide Backed, AfterIngest, AfterSwapFee, Step, IngestNet, SubmitError;
  }

  lemma DistinctKept(s: State, threshold: nat, c: Call)
    requires Backed(s.pol.pool) && DistinctHashes(s.requests)
    ensures DistinctHashes(After(s, threshold, c).requests)
  {
    hide Backed, AfterIngest, AfterSwapFee, Step, IngestNet;
    HashesMeaning(s.requests);
    RequestsKept(s, threshold, c);
  }

  lemma SubmitKeeps(s: State, threshold: nat, r: Request, pre: seq<Request>)
    requires Sound(s, pre) && DistinctHashes(After(s, threshold, Submit(r)).requests)
    ensures Sound(After(s, threshold, Submit(r)), AddPremade(s, Submit(r), pre))
  {
    hide Backed, DistinctHashes, IngestFee, Gross, Fees, Hashes;
    SumsAfterPush(s.requests, r);
    SumsAfterPush(pre, r);
  }

  lemma MintKeeps(s: State, threshold: nat, j: nat, pre: seq<Request>)
    requires Sound(s, pre) && DistinctHashes(After(s, threshold, Mint(j)).requests)
    ensures Sound(After(s, threshold, Mint(j)), pre)
  {
    hide Backed, AfterIngest, DistinctHashes, IngestFee, Gross, Fees;
    if j < |s.requests| {
      IngestKeeps(s.pol, s.requests[j].amount);
      SumsAfterChange(s.requests, j, s.requests[j].(status := Minted));
    }
  }

  lemma AfterKeeps(s: State, threshold: nat, c: Call, pre: seq<Request>)
    requires Sound(s, pre)
    ensures Sound(After(s, threshold, c), AddPremade(s, c, pre))
  {
    hide Backed, Step, AfterSwapFee, AfterIngest, DistinctHashes, IngestFee, Gross, Fees;
    DistinctKept(s, threshold, c);
    match c {
      case Submit(r) => {
        SubmitKeeps(s, threshold, r, pre);
      }
      case Validate(i, _, _) => {
        if i < |s.requests| {
          SumsAfterChange(s.requests, i, s.requests[i].(status := Validated));
        }
      }
      case Mint(j) => {
        MintKeeps(s, threshold, j, pre);
      }
      case Burn(_) => {
      }
      case SwapFee(a, b) => {
        SwapFeeKeeps(s.pol, a, b);
      }
      case Market(op) => {
        StepKeeps(s.pol.pool, op);
      }
    }
  }

  /** A submission keeps the books just when the request does not come in as already minted. */
  lemma SubmitKeepsBooksIff(s: State, threshold: nat, r: Request, pre: seq<Request>)
    requires Sound(s, pre) && SubmitError(s, r).None? && Gross(s.requests) - Gross(pre) + r.amount <= U128_MAX
    ensures Books(After(s, threshold, Submit(r)), pre) <==> r.status != Minted
  {
    SumsAfterPush(s.requests, r);
  }

  ghost function Run(threshold: nat, calls: seq<Call>): (s: State)
    ensures Backed(s.pol.pool)
  {
    if calls == [] then EMPTY_VAULT
    else
      var n := |calls| - 1;
      var s := Run(threshold, calls[..n]);
      PoolStaysBacked(s, threshold, calls[n]);
      After(s, threshold, calls[n])
  }

  lemma PoolStaysBacked(s: State, threshold: nat, c: Call)
    requires Backed(s.pol.pool)
    ensures Backed(After(s, threshold, c).pol.pool)
  {
    hide Backed, Step, AfterSwapFee, AfterIngest;
    match c {
      case Mint(j) => {
        if j < |s.requests| {
          IngestKeeps(s.pol, s.requests[j].amount);
        }
      }
      case SwapFee(a, b) => {
        SwapFeeKeeps(s.pol, a, b);
      }
      case Market(op) => {
        StepKeeps(s.pol.pool, op);
      }
      case _ => {
      }
    }
  }

  /** The requests that a run took in as already minted. */
  ghost function Premade(threshold: nat, calls: seq<Call>): seq<Request> {
    if calls == [] then []
    else
      var n := |calls| - 1;
      AddPremade(Run(threshold, calls[..n]), calls[n], Premade(threshold, calls[..n]))
  }

  /**
   Main theorem: after every run the hashes are distinct, no more is burned than minted, and minted value
   plus fees is the gross value of the requests minted here, unless that no longer fits a word.
   */
  lemma {:induction false} RunBalances(threshold: nat, calls: seq<Call>)
    ensures var s, pre := Run(threshold, calls), Premade(threshold, calls);
            && Sound(s, pre)
            && (Gross(s.requests) - Gross(pre) <= U128_MAX
                ==> s.minted + s.pol.ingestFees == Gross(s.requests) - Gross(pre))
    ensures (forall c :: c in calls && c.Submit? ==> c.request.status != Minted) ==> Premade(threshold, calls) == []
  {
    if calls != [] {
      hide Backed, After, DistinctHashes;
      var n := |calls| - 1;
      RunBalances(threshold, calls[..n]);
      AfterKeeps(Run(threshold, calls[..n]), threshold, calls[n], Premade(threshold, calls[..n]));
    }
  }

  /** What a run took out of circulation: every burn of a positive amount that was still in it. */
  ghost function BurnedBy(threshold: nat, calls: seq<Call>): nat {
    if calls == [] then 0
    else
      var n := |calls| - 1;
      var s, c := Run(threshold, calls[..n]), calls[n];
      BurnedBy(threshold, calls[..n])
      + if c.Burn? && 0 < c.amount <= s.minted - BurnedBy(threshold, calls[..n]) then c.amount else 0
  }

  /** The burn counter is the sum of the successful burns, and so nothing is burned twice. */
  lemma {:induction false} BurnsAddUp(threshold: nat, calls: seq<Call>)
    ensures Run(threshold, calls).burned == BurnedBy(threshold, calls) <= Run(threshold, calls).minted
  {
    if calls != [] {
      hide AfterIngest, AfterSwapFee, Step, Backed, SubmitError, ValidateError, IngestNet;
      BurnsAddUp(threshold, calls[..|calls| - 1]);
    }
  }

  /** Tokens the engine destroyed are the pool's burned tokens, if no one else injects. */
  lemma {:induction false} BurnCountersAgree(threshold: nat, calls: seq<Call>)
    requires forall c :: c in calls && c.Market? ==> !c.op.Inject?
    ensures Run(threshold, calls).pol.burned == Run(threshold, calls).pol.pool.burned
  {
    if calls != [] {
      var n := |calls| - 1;
      BurnCountersAgree(threshold, calls[..n]);
      StepKeepsCounters(Run(threshold, calls[..n]), threshold, calls[n]);
    }
  }

  lemma StepKeepsCounters(s: State, threshold: nat, c: Call)
    requires Backed(s.pol.pool) && s.pol.burned == s.pol.pool.burned && (c.Market? ==> !c.op.Inject?)
    ensures var t := After(s, threshold, c); t.pol.burned == t.pol.pool.burned
  {
    hide Backed, AfterSwapFee, AfterIngest, NewTokens, Trade;
    match c {
      case Mint(j) => {
        if j < |s.requests| {
          IngestKeeps(s.pol, s.requests[j].amount);
        }
      }
      case SwapFee(a, b) => {
        SwapFeeKeeps(s.pol, a, b);
      }
      case _ => {
      }
    }
  }

  // ----- one mint for each external transaction, and only after validation

  ghost predicate Pays(s: State, c: Call, hash: string) {
    c.Mint? && MintError(s, c.j).None? && s.requests[c.j].txHash == hash
  }

  ghost function Payments(threshold: nat, calls: seq<Call>, hash: string): nat {
    if calls == [] then 0
    else
      var n := |calls| - 1;
      Payments(threshold, calls[..n], hash) + if Pays(Run(threshold, calls[..n]), calls[n], hash) then 1 else 0
  }

  ghost predicate IsMinted(s: State, hash: string) {
    exists i :: 0 <= i < |s.requests| && s.requests[i].txHash == hash && s.requests[i].status == Minted
  }

  lemma PaysOnlyOnce(s: State, threshold: nat, c: Call, hash: string)
    requires Backed(s.pol.pool) && DistinctHashes(s.requests)
    ensures IsMinted(s, hash) ==> IsMinted(After(s, threshold, c), hash) && !Pays(s, c, hash)
    ensures Pays(s, c, hash) ==> IsMinted(After(s, threshold, c), hash)
  {
    hide Backed, Step, AfterSwapFee, AfterIngest, IngestNet, SubmitError;
    RequestsKept(s, threshold, c);
    var t := After(s, threshold, c);
    if IsMinted(s, hash) {
      var i :| 0 <= i < |s.requests| && s.requests[i].txHash == hash && s.requests[i].status == Minted;
      assert t.requests[i].txHash == hash && t.requests[i].status == Minted;
    }
    if Pays(s, c, hash) {
      assert t.requests[c.j].txHash == hash && t.requests[c.j].status == Minted;
    }
  }

  /** Each external transaction is paid out at most once over every run. */
  lemma {:induction false} PaidAtMostOnce(threshold: nat, calls: seq<Call>, hash: string)
    ensures DistinctHashes(Run(threshold, calls).requests)
    ensures Payments(threshold, calls, hash) == 0
         || (Payments(threshold, calls, hash) == 1 && IsMinted(Run(threshold, calls), hash))
  {
    if calls != [] {
      hide Backed, After, DistinctHashes, IsMinted, Pays;
      var n := |calls| - 1;
      var s := Run(threshold, calls[..n]);
      PaidAtMostOnce(threshold, calls[..n], hash);
      DistinctKept(s, threshold, calls[n]);
      PaysOnlyOnce(s, threshold, calls[n], hash);
    }
  }

  ghost predicate Approves(threshold: nat, c: Call, i: nat) {
    c.Validate? && c.i == i && threshold <= c.sigs && !c.invalid
  }

  ghost predicate Approved(threshold: nat, calls: seq<Call>, i: nat) {
    exists c :: c in calls && Approves(threshold, c, i)
  }

  /** A submission that becomes request `i` comes in as pending. */
  ghost predicate SubmittedPending(s: State, c: Call, i: nat) {
    c.Submit? && |s.requests| == i && SubmitError(s, c.request).None? ==> c.request.status == Pending
  }

  /** A request that came in as pending and is so no more was signed for by the threshold, truncated count or not. */
  lemma {:induction false} OnlyApprovedLeavePending(threshold: nat, calls: seq<Call>, i: nat)
    requires forall k :: 0 <= k < |calls| ==> SubmittedPending(Run(threshold, calls[..k]), calls[k], i)
    requires i < |Run(threshold, calls).requests| && Run(threshold, calls).requests[i].status != Pending
    ensures Approved(threshold, calls, i)
  {
    hide SubmittedPending;
    var n := |calls| - 1;
    var s, c := Run(threshold, calls[..n]), calls[n];
    assert c in calls;
    LeavesPending(s, threshold, c, i);
    if !Approves(threshold, c, i) {
      assert forall k :: 0 <= k < n ==> calls[..n][..k] == calls[..k];
      OnlyApprovedLeavePending(threshold, calls[..n], i);
      var a :| a in calls[..n] && Approves(threshold, a, i);
      assert a in calls;
    }
  }

  lemma LeavesPending(s: State, threshold: nat, c: Call, i: nat)
    requires Backed(s.pol.pool) && SubmittedPending(s, c, i)
    requires i < |After(s, threshold, c).requests| && After(s, threshold, c).requests[i].status != Pending
    ensures Approves(threshold, c, i) || (i < |s.requests| && s.requests[i].status != Pending)
  {
    hide Backed, Step, AfterSwapFee, AfterIngest, IngestNet, SubmitError;
    if c.Validate? {
      assert c.sigs % U16 <= c.sigs;
    }
  }

  class OmniVault {
    const threshold: nat
    const pol: ProtocolOwnedLiquidity
    var requests: seq<Request>
    var minted: u128
    var burned: u128

    ghost function Contents(): State
      reads this, pol, pol.pool
    {
      State(pol.State(), requests, minted, burned)
    }

    ghost predicate Valid()
      reads this, pol, pol.pool
    {
      pol.Valid() && burned <= minted
    }

    constructor (threshold: nat)
      requires threshold < U16
      ensures Valid() && Contents() == EMPTY_VAULT && this.threshold == threshold && fresh(pol) && fresh(pol.pool)
    {
      this.threshold := threshold;
      pol := new ProtocolOwnedLiquidity();
      requests, minted, burned := [], 0, 0;
    }

    method SubmitIngest(r: Request) returns (error: Option<VaultError>)
      requires Valid()
      modifies this
      ensures Valid() && Contents() == After(old(Contents()), threshold, Submit(r))
      ensures error == SubmitError(old(Contents()), r)
      ensures error.None? <==>
                r.amount > 0 && forall k :: 0 <= k < |old(requests)| ==> old(requests)[k].txHash != r.txHash
      ensures requests == (if error.None? then old(requests) + [r] else old(requests))
      ensures minted == old(minted) && burned == old(burned)
    {
      HashesAre(requests);
      if r.amount == 0 {
        return Some(ZeroIngest);
      }
      var i := 0;
      while i < |requests|
        invariant 0 <= i <= |requests| && r.txHash !in Hashes(requests[..i])
      {
        assert requests[..i + 1][..i] == requests[..i];
        if requests[i].txHash == r.txHash {
          HashesMeaning(requests);
          return Some(Duplicate);
        }
        i := i + 1;
      }
      assert requests[..i] == requests;
      requests := requests + [r];
      return None;
    }

    method ValidateIngest(i: nat, sigs: nat, invalid: bool) returns (error: Option<VaultError>)
      requires Valid()
      modifies this
      ensures Valid() && Contents() == After(old(Contents()), threshold, Validate(i, sigs, invalid))
      ensures error == ValidateError(old(Contents()), threshold, i, sigs, invalid)
      ensures error.None? <==> && i < |old(requests)| && old(requests)[i].status == Pending
                               && sigs % 0x1_0000 >= threshold && !invalid
      ensures requests == if error.None? then old(requests)[i := old(requests)[i].(status := Validated)]
                          else old(requests)
      ensures minted == old(minted) && burned == old(burned)
    {
      if i >= |requests| {
        return Some(OutOfRange);
      }
      if requests[i].status != Pending {
        return Some(NotPending);
      }
      if sigs % U16 < threshold {
        return Some(TooFewSigners);
      }
      if invalid {
        return Some(InvalidSignature);
      }
      requests := requests[i := requests[i].(status := Validated)];
      return None;
    }

    method MintZusd(i: nat) returns (error: Option<VaultError>, net: u128, fee: u128, lp: nat)
      requires Valid()
      modifies this, pol, pol.pool
      ensures Valid() && Contents() == After(old(Contents()), threshold, Mint(i))
      ensures error == MintError(old(Contents()), i)
      ensures error.None? ==> var x := old(requests)[i].amount;
                              net == IngestNet(x) && fee == IngestFee(x) && net + fee == x
                              && lp == BurnedFor(old(pol.pool.State()), 0, fee)
      ensures error.None? <==> i < |old(requests)| && old(requests)[i].status == Validated
      ensures requests == if error.None? then old(requests)[i := old(requests)[i].(status := Minted)] else old(requests)
      ensures minted == Min(old(minted) + net, U128_MAX) && burned == old(burned)
      ensures pol.ingestFees == Min(old(pol.ingestFees) + fee, U128_MAX)
    {
      hide Backed, AfterIngest, IngestFee;
      net, fee, lp := 0, 0, 0;
      if i >= |requests| {
        error := Some(OutOfRange);
        return;
      }
      if requests[i].status != Validated {
        error := Some(NotValidated);
        return;
      }
      net, fee, lp := pol.ProcessCrossChainIngest(requests[i].amount);
      minted := Cap128(minted + net);
      requests := requests[i := requests[i].(status := Minted)];
      error := None;
    }

    method BurnZusd(amount: u128) returns (error: Option<VaultError>)
      requires Valid()
      modifies this
      ensures Valid() && Contents() == After(old(Contents()), threshold, Burn(amount))
      ensures error == BurnError(old(Contents()), amount)
      ensures error.None? <==> amount > 0 && old(burned) + amount <= old(minted)
      ensures burned == (if error.None? then old(burned) + amount else old(burned))
      ensures minted == old(minted) && requests == old(requests)
    {
      if amount == 0 {
        return Some(ZeroBurn);
      }
      var circulating := Minus(minted, burned);
      if amount > circulating {
        return Some(ExceedsSupply);
      }
      burned := Cap128(burned + amount);
      return None;
    }
  }
}
