/**
 Coin selection of the wallet (crates/zentra-wallet/src/signer.rs, build_transfer): when it succeeds, that
 the transfer balances, and that no choice of fewer coins would do. Keys and signatures are left out.
 */
module CoinSelection {
  import opened Types
  import opened Ledger
  import opened Sorting

  datatype Coin = Coin(outpoint: OutPoint, amount: u64)

  datatype Output = ToRecipient(amount: u64) | Change(amount: u64)

  datatype Transfer = Transfer(inputs: seq<OutPoint>, outputs: seq<Output>, fee: u64)

  datatype Outcome = Built(transfer: Transfer) | NeededOverflow | SumOverflow
                   | InsufficientFunds(required: u64, available: u64)

  ghost function Sum(s: seq<Coin>): nat { if s == [] then 0 else s[0].amount + Sum(s[1..]) }

  ghost function Paid(outputs: seq<Output>): nat {
    if outputs == [] then 0 else outputs[0].amount + Paid(outputs[1..])
  }

  lemma {:induction false} SumSplit(a: seq<Coin>, b: seq<Coin>)
    ensures Sum(a + b) == Sum(a) + Sum(b)
  {
    if a == [] {
      assert a + b == b;
    } else {
      assert (a + b)[1..] == a[1..] + b;
      SumSplit(a[1..], b);
    }
  }

  lemma SumNext(s: seq<Coin>, n: nat)
    requires n < |s|
    ensures Sum(s[..n + 1]) == Sum(s[..n]) + s[n].amount
  {
    assert s[..n + 1] == s[..n] + [s[n]];
    SumSplit(s[..n], [s[n]]);
    assert Sum([s[n]]) == s[n].amount + Sum([]);
  }

  lemma PrefixSumGrows(s: seq<Coin>, m: nat, n: nat)
    requires m <= n <= |s|
    ensures Sum(s[..m]) <= Sum(s[..n])
  {
    assert s[..n] == s[..m] + s[m..n];
    SumSplit(s[..m], s[m..n]);
  }

  function Descending(c: Coin): int { 0 - c.amount as int }

  /** Taking a coin out of a list. */
  lemma TakeOut(s: seq<Coin>, i: nat)
    requires i < |s|
    ensures var r := s[..i] + s[i + 1..];
            multiset(s) == multiset(r) + multiset{s[i]} && Sum(s) == Sum(r) + s[i].amount && |r| == |s| - 1
  {
    assert s == s[..i] + ([s[i]] + s[i + 1..]);
    SumSplit(s[..i], [s[i]] + s[i + 1..]);
    SumSplit(s[..i], s[i + 1..]);
    SumSplit([s[i]], s[i + 1..]);
    assert Sum([s[i]]) == s[i].amount + Sum([]);
  }

  lemma SubBagFits(pick: seq<Coin>, s: seq<Coin>)
    requires multiset(pick) <= multiset(s)
    ensures |pick| <= |s|
  {
    var rest := multiset(s) - multiset(pick);
    assert multiset(s) == multiset(pick) + rest;
    assert |multiset(s)| == |multiset(pick)| + |rest|;
  }

  /** Any choice of coins is worth at most as many of the largest. */
  lemma {:induction false} LargestAreWorthMost(s: seq<Coin>, pick: seq<Coin>)
    requires SortedBy(s, Descending) && multiset(pick) <= multiset(s)
    ensures |pick| <= |s| && Sum(pick) <= Sum(s[..|pick|])
    decreases |s|
  {
    SubBagFits(pick, s);
    if pick != [] {
      var rest := s[1..];
      assert s == [s[0]] + rest;
      FirstIsLeast(s, Descending);
      var i := IndexOrFirst(pick, s[0]);
      var left := pick[..i] + pick[i + 1..];
      TakeOut(pick, i);
      Smaller(pick, i, s, left);
      LargestAreWorthMost(rest, left);
      SumSplit([s[0]], rest[..|left|]);
      assert s[..|pick|] == [s[0]] + rest[..|left|];
      assert Sum([s[0]]) == s[0].amount + Sum([]);
      assert pick[i] in multiset(s);
    }
  }

  ghost function IndexOrFirst(pick: seq<Coin>, c: Coin): (i: nat)
    requires pick != []
    ensures i < |pick| && (c in pick ==> pick[i] == c)
  {
    if c in pick then
      var i :| 0 <= i < |pick| && pick[i] == c; i
    else 0
  }

  lemma Smaller(pick: seq<Coin>, i: nat, s: seq<Coin>, left: seq<Coin>)
    requires i < |pick| && s != [] && multiset(pick) <= multiset(s)
    requires multiset(pick) == multiset(left) + multiset{pick[i]}
    requires s[0] in pick ==> pick[i] == s[0]
    ensures multiset(left) <= multiset(s[1..])
  {
    assert s == [s[0]] + s[1..];
    assert multiset(s) == multiset{s[0]} + multiset(s[1..]);
    assert s[0] in pick <==> s[0] in multiset(pick);
    forall c
      ensures multiset(left)[c] <= multiset(s[1..])[c]
    {
      assert multiset(pick)[c] <= multiset(s)[c];
    }
  }

  lemma SameCoinsSameSum(a: seq<Coin>, b: seq<Coin>)
    requires SortedBy(a, Descending) && multiset(a) == multiset(b)
    ensures Sum(a) == Sum(b)
  {
    SubBagFits(a, b);
    SubBagFits(b, a);
    LargestAreWorthMost(a, b);
    assert a[..|a|] == a;
    BagOfAll(a, b);
  }

  lemma {:induction false} BagOfAll(pick: seq<Coin>, s: seq<Coin>)
    requires multiset(pick) <= multiset(s)
    ensures Sum(pick) <= Sum(s)
  {
    if pick != [] {
      assert pick == [pick[0]] + pick[1..];
      assert pick[0] in multiset(s);
      var i :| 0 <= i < |s| && s[i] == pick[0];
      TakeOut(s, i);
      var left := s[..i] + s[i + 1..];
      assert multiset(pick) == multiset{pick[0]} + multiset(pick[1..]);
      forall c
        ensures multiset(pick[1..])[c] <= multiset(left)[c]
      {
        assert multiset(pick)[c] <= multiset(s)[c];
      }
      BagOfAll(pick[1..], left);
    }
  }

  /** How many of the largest coins are taken: at least one if there are any, and no more once they cover. */
  ghost predicate Taken(s: seq<Coin>, needed: nat, n: nat) {
    && n <= |s| && needed <= Sum(s[..n])
    && (s != [] ==> 0 < n) && forall m :: 0 < m < n ==> Sum(s[..m]) < needed
  }

  /** Fewer coins, whichever they are, never cover. */
  lemma GreedyIsMinimal(s: seq<Coin>, needed: nat, n: nat, pick: seq<Coin>)
    requires SortedBy(s, Descending) && needed > 0 && Taken(s, needed, n)
    requires multiset(pick) <= multiset(s) && Sum(pick) >= needed
    ensures n <= |pick|
  {
    LargestAreWorthMost(s, pick);
  }

  ghost predicate Fewest(coins: seq<Coin>, needed: nat, n: nat) {
    forall pick :: multiset(pick) <= multiset(coins) && Sum(pick) >= needed ==> n <= |pick|
  }

  lemma GreedyIsFewest(coins: seq<Coin>, s: seq<Coin>, needed: nat, n: nat)
    requires SortedBy(s, Descending) && multiset(s) == multiset(coins) && Taken(s, needed, n)
    ensures needed > 0 ==> Fewest(coins, needed, n)
  {
    if needed > 0 {
      forall pick | multiset(pick) <= multiset(coins) && Sum(pick) >= needed
        ensures n <= |pick|
      {
        GreedyIsMinimal(s, needed, n, pick);
      }
    }
  }

  /** How many are taken is fixed by the coins and the sum to cover. */
  lemma TakenUnique(s: seq<Coin>, needed: nat, m: nat, n: nat)
    requires Taken(s, needed, m) && Taken(s, needed, n)
    ensures m == n
  {
  }

  /** The payment, and the rest back if there is any. */
  function Outputs(amount: u64, change: u64): seq<Output> {
    [ToRecipient(amount)] + if change == 0 then [] else [Change(change)]
  }

  lemma OutputsPay(amount: u64, change: u64)
    ensures Paid(Outputs(amount, change)) == amount + change
  {
    var o := Outputs(amount, change);
    assert Paid(o) == amount + Paid(o[1..]);
    if change == 0 {
      assert o[1..] == [];
    } else {
      var rest := [Change(change)];
      assert o[1..] == rest && rest[1..] == [];
      assert Paid(rest) == change + Paid([]);
    }
  }

  function Outpoints(s: seq<Coin>): seq<OutPoint> {
    if s == [] then [] else Outpoints(s[..|s| - 1]) + [s[|s| - 1].outpoint]
  }

  function Sorted(coins: seq<Coin>): seq<Coin> { Sort(coins, Descending) }

  lemma SortedMeaning(coins: seq<Coin>)
    ensures SortedBy(Sorted(coins), Descending) && multiset(Sorted(coins)) == multiset(coins)
    ensures Sum(Sorted(coins)) == Sum(coins)
  {
    SortMeaning(coins, Descending);
    SameCoinsSameSum(Sorted(coins), coins);
  }

  /** The selection loop; `fits` is false when the running sum left the word. */
  method Select(s: seq<Coin>, needed: u64) returns (n: nat, inputs: seq<OutPoint>, accumulated: u64, fits: bool)
    ensures n <= |s| && fits == (Sum(s[..n]) <= U64_MAX)
    ensures fits ==> accumulated == Sum(s[..n]) && inputs == Outpoints(s[..n])
    ensures !fits || accumulated >= needed ==> Taken(s, needed, n)
    ensures fits && accumulated < needed ==> n == |s|
  {
    n, inputs, accumulated, fits := 0, [], 0, true;
    while n < |s|
      invariant n <= |s| && fits && accumulated == Sum(s[..n]) && inputs == Outpoints(s[..n])
      invariant forall m :: 0 < m <= n ==> Sum(s[..m]) < needed
    {
      SumNext(s, n);
      assert s[..n + 1][..n] == s[..n];
      inputs := inputs + [s[n].outpoint];
      fits := accumulated + s[n].amount <= U64_MAX;
      n := n + 1;
      if !fits {
        return;
      }
      accumulated := accumulated + s[n - 1].amount;
      if accumulated >= needed {
        return;
      }
    }
  }

  /** The coins taken for the sum fit a word together. */
  ghost predicate CoverFits(coins: seq<Coin>, needed: nat) {
    forall n :: 0 <= n <= |coins| && Taken(Sorted(coins), needed, n) ==> Sum(Sorted(coins)[..n]) <= U64_MAX
  }

  lemma CoverFitsIff(coins: seq<Coin>, needed: nat, n: nat)
    requires Taken(Sorted(coins), needed, n)
    ensures CoverFits(coins, needed) <==> Sum(Sorted(coins)[..n]) <= U64_MAX
  {
    SortMeaning(coins, Descending);
    forall m: nat | m <= |coins| && Taken(Sorted(coins), needed, m)
      ensures m == n
    {
      TakenUnique(Sorted(coins), needed, m, n);
    }
  }

  /**
   Main theorem. The call succeeds just when the sum to cover and the coins taken for it fit a word and the
   coins cover it; then the transfer pays the recipient exactly `amount`, its inputs equal its outputs plus
   the fee, and it takes the fewest coins possible.
   */
  method BuildTransfer(amount: u64, fee: u64, coins: seq<Coin>) returns (r: Outcome)
    ensures r == NeededOverflow <==> amount + fee > U64_MAX
    ensures r.InsufficientFunds? <==> amount + fee <= U64_MAX && Sum(coins) < amount + fee
    ensures r.InsufficientFunds? ==> r.required == amount + fee && r.available == Sum(coins)
    ensures r.Built? <==> amount + fee <= U64_MAX && Sum(coins) >= amount + fee && CoverFits(coins, amount + fee)
    ensures r == SumOverflow <==>
              amount + fee <= U64_MAX && Sum(coins) >= amount + fee && !CoverFits(coins, amount + fee)
    ensures r.Built? ==>
              var n := |r.transfer.inputs|;
              && Taken(Sorted(coins), amount + fee, n)
              && r.transfer.inputs == Outpoints(Sorted(coins)[..n]) && r.transfer.fee == fee
              && Sum(Sorted(coins)[..n]) == Paid(r.transfer.outputs) + fee <= U64_MAX
              && r.transfer.outputs == Outputs(amount, Sum(Sorted(coins)[..n]) - amount - fee)
              && (forall i :: 0 <= i < n ==> r.transfer.inputs[i] == Sorted(coins)[i].outpoint)
              && r.transfer.outputs[0] == ToRecipient(amount)
              && (|r.transfer.outputs| == 1 <==> Sum(Sorted(coins)[..n]) == amount + fee)
              && (|r.transfer.outputs| == 1
                  || r.transfer.outputs[1..] == [Change(Sum(Sorted(coins)[..n]) - amount - fee)])
              && (amount + fee > 0 ==> Fewest(coins, amount + fee, n))
  {
    hide Sum, Paid, Outpoints, Fewest, Sorted, Sort, SortedBy, Taken, CoverFits;
    if amount + fee > U64_MAX {
      return NeededOverflow;
    }
    var needed: u64 := amount + fee;
    var sorted := Sorted(coins);
    SortedMeaning(coins);
    var n, inputs, accumulated, fits := Select(sorted, needed);
    if n == |sorted| {
      assert sorted[..n] == sorted;
    }
    PrefixSumGrows(sorted, n, |sorted|);
    assert sorted[..|sorted|] == sorted;
    if !fits || accumulated >= needed {
      CoverFitsIff(coins, needed, n);
    }
    if !fits {
      return SumOverflow;
    }
    if accumulated < needed {
      return InsufficientFunds(needed, accumulated);
    }
    var change: u64 := accumulated - needed;
    OutputsPay(amount, change);
    var outputs := [ToRecipient(amount)];
    if change != 0 {
      outputs := outputs + [Change(change)];
    }
    assert outputs == Outputs(amount, change);
    OutpointsAre(sorted[..n]);
    GreedyIsFewest(coins, sorted, needed, n);
    return Built(Transfer(inputs, outputs, fee));
  }

  lemma {:induction false} OutpointsAre(s: seq<Coin>)
    ensures |Outpoints(s)| == |s| && forall i :: 0 <= i < |s| ==> Outpoints(s)[i] == s[i].outpoint
  {
    if s != [] {
      OutpointsAre(s[..|s| - 1]);
    }
  }
}
