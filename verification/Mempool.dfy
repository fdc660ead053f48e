/**
 The mempool's three indexes (crates/zentra-core/src/mempool.rs). What a call does is stated by the
 transactions it leaves; the class invariant fixes the other two indexes (IndexesAreDetermined).
 The serialised size and the clock are parameters.
 */
module Mempool {
  import opened Types
  import opened Arithmetic
  import opened Ledger
  import Undo

  datatype Entry = Entry(tx: Transaction, fee: u64, feeRate: u64, addedAt: u64)

  /** Ordered by falling fee rate, then by txid. */
  type Key = (u64, Hash)

  type Entries = map<Hash, Entry>

  type Spent = map<OutPoint, Hash>

  datatype PoolError = Known | Full | Conflict

  function Before(a: Key, b: Key): bool { a.0 > b.0 || (a.0 == b.0 && a.1 < b.1) }

  ghost predicate Ordered(s: seq<Key>) { forall i, j :: 0 <= i < j < |s| ==> Before(s[i], s[j]) }

  // ----- the ordered map

  function InsertKey(s: seq<Key>, k: Key): seq<Key> {
    if s == [] || Before(k, s[0]) then [k] + s
    else if k == s[0] then s
    else [s[0]] + InsertKey(s[1..], k)
  }

  lemma {:induction false} InsertKeyMeaning(s: seq<Key>, k: Key)
    requires Ordered(s)
    ensures Ordered(InsertKey(s, k)) && forall x :: x in InsertKey(s, k) <==> x in s || x == k
  {
    if s != [] {
      assert s == [s[0]] + s[1..];
      if !Before(k, s[0]) && k != s[0] {
        InsertKeyMeaning(s[1..], k);
        assert forall x :: x in s[1..] ==> Before(s[0], x);
        ConsOrdered(s[0], InsertKey(s[1..], k));
      } else if Before(k, s[0]) {
        assert forall x :: x in s[1..] ==> Before(s[0], x);
        ConsOrdered(k, s);
      }
    }
  }

  lemma ConsOrdered(k: Key, s: seq<Key>)
    requires Ordered(s) && forall x :: x in s ==> Before(k, x)
    ensures Ordered([k] + s)
  {
  }

  function Without(s: seq<Key>, id: Hash): seq<Key> {
    if s == [] then [] else (if s[0].1 == id then [] else [s[0]]) + Without(s[1..], id)
  }

  lemma {:induction false} WithoutMeaning(s: seq<Key>, id: Hash)
    requires Ordered(s)
    ensures Ordered(Without(s, id)) && forall x :: x in Without(s, id) <==> x in s && x.1 != id
  {
    if s != [] {
      assert s == [s[0]] + s[1..];
      WithoutMeaning(s[1..], id);
      assert forall x :: x in s[1..] ==> Before(s[0], x);
      ConsOrdered(s[0], Without(s[1..], id));
    }
  }

  /** An ordered list is fixed by its elements. */
  lemma {:induction false} OrderedIsDetermined(a: seq<Key>, b: seq<Key>)
    requires Ordered(a) && Ordered(b) && forall x :: x in a <==> x in b
    ensures a == b
  {
    if a == [] {
      if b != [] {
        HasElement(b);
      }
    } else if b == [] {
      HasElement(a);
    } else {
      assert a[0] in b && b[0] in a;
      assert a == [a[0]] + a[1..] && b == [b[0]] + b[1..];
      forall x
        ensures x in a[1..] <==> x in b[1..]
      {
        assert x in a <==> x in b;
      }
      OrderedIsDetermined(a[1..], b[1..]);
    }
  }

  lemma HasElement(s: seq<Key>)
    requires s != []
    ensures exists x :: x in s
  {
    assert s[0] in s;
  }

  // ----- the indexes

  ghost function Spends(tx: Transaction): set<OutPoint> {
    if tx.isCoinbase then {} else Prevs(tx.inputs, |tx.inputs|)
  }

  ghost predicate KeyedById(ts: Entries) { forall id :: id in ts ==> ts[id].tx.txid == id }

  /** One key for each transaction, with its fee rate. */
  ghost predicate KeysAgree(ts: Entries, keys: seq<Key>) {
    Ordered(keys) && forall k :: k in keys <==> k.1 in ts && ts[k.1].feeRate == k.0
  }

  /** Exactly the inputs of stored non-coinbase transactions, each with its one owner. */
  ghost predicate SpentAgrees(ts: Entries, spent: Spent) {
    && (forall o :: o in spent ==> spent[o] in ts && o in Spends(ts[spent[o]].tx))
    && (forall id, o :: id in ts && o in Spends(ts[id].tx) ==> o in spent && spent[o] == id)
  }

  ghost predicate Sound(ts: Entries, keys: seq<Key>, spent: Spent) {
    KeyedById(ts) && KeysAgree(ts, keys) && SpentAgrees(ts, spent)
  }

  /** No two stored transactions spend the same outpoint; what a coinbase lists is no spend. */
  lemma NoSharedInput(ts: Entries, keys: seq<Key>, spent: Spent, a: Hash, b: Hash)
    requires Sound(ts, keys, spent) && a in ts && b in ts && a != b
    requires !ts[a].tx.isCoinbase && !ts[b].tx.isCoinbase
    ensures forall i, j :: 0 <= i < |ts[a].tx.inputs| && 0 <= j < |ts[b].tx.inputs| ==>
              ts[a].tx.inputs[i].prev != ts[b].tx.inputs[j].prev
  {
    Undo.PrevsMeaning(ts[a].tx.inputs, |ts[a].tx.inputs|);
    Undo.PrevsMeaning(ts[b].tx.inputs, |ts[b].tx.inputs|);
    forall i, j | 0 <= i < |ts[a].tx.inputs| && 0 <= j < |ts[b].tx.inputs|
      ensures ts[a].tx.inputs[i].prev != ts[b].tx.inputs[j].prev
    {
      assert spent[ts[a].tx.inputs[i].prev] == a && spent[ts[b].tx.inputs[j].prev] == b;
    }
  }

  /** An input of `tx`, which is no coinbase, is one of a stored transaction that is none. */
  ghost predicate Conflicts(ts: Entries, tx: Transaction) {
    !tx.isCoinbase
    && exists id, i, j :: id in ts && !ts[id].tx.isCoinbase && 0 <= i < |tx.inputs| && 0 <= j < |ts[id].tx.inputs|
                          && tx.inputs[i].prev == ts[id].tx.inputs[j].prev
  }

  lemma ConflictsIff(ts: Entries, spent: Spent, tx: Transaction)
    requires SpentAgrees(ts, spent)
    ensures Conflicts(ts, tx) <==> !(Spends(tx) !! spent.Keys)
    ensures Conflicts(ts, tx) <==> !tx.isCoinbase && exists i :: 0 <= i < |tx.inputs| && tx.inputs[i].prev in spent
  {
    hide Prevs;
    Undo.PrevsMeaning(tx.inputs, |tx.inputs|);
    if o :| o in Spends(tx) && o in spent {
      var id := spent[o];
      Undo.PrevsMeaning(ts[id].tx.inputs, |ts[id].tx.inputs|);
      var i :| 0 <= i < |tx.inputs| && tx.inputs[i].prev == o;
      var j :| 0 <= j < |ts[id].tx.inputs| && ts[id].tx.inputs[j].prev == o;
    }
    if Conflicts(ts, tx) {
      var id, i, j :| id in ts && !ts[id].tx.isCoinbase && 0 <= i < |tx.inputs| && 0 <= j < |ts[id].tx.inputs|
                      && tx.inputs[i].prev == ts[id].tx.inputs[j].prev;
      Undo.PrevsMeaning(ts[id].tx.inputs, |ts[id].tx.inputs|);
      assert tx.inputs[i].prev in Spends(tx) && tx.inputs[i].prev in Spends(ts[id].tx);
    }
  }

  /** The stored transactions fix both other indexes, so that a call that gives them back gives back all. */
  lemma IndexesAreDetermined(ts: Entries, keys: seq<Key>, spent: Spent, keys': seq<Key>, spent': Spent)
    requires Sound(ts, keys, spent) && Sound(ts, keys', spent')
    ensures keys == keys' && spent == spent'
  {
    OrderedIsDetermined(keys, keys');
    assert forall o :: o in spent <==> o in spent';
    assert forall o :: o in spent ==> spent[o] == spent'[o];
  }

  // ----- the candidates for a block

  function Candidates(ts: Entries, keys: seq<Key>, n: nat): seq<Transaction>
    requires n <= |keys|
  {
    if n == 0 then []
    else
      Candidates(ts, keys, n - 1) + if keys[n - 1].1 in ts then [ts[keys[n - 1].1].tx] else []
  }

  lemma {:induction false} CandidatesAt(ts: Entries, keys: seq<Key>, n: nat)
    requires KeysAgree(ts, keys) && n <= |keys|
    ensures |Candidates(ts, keys, n)| == n
    ensures forall i :: 0 <= i < n ==> keys[i].1 in ts && Candidates(ts, keys, n)[i] == ts[keys[i].1].tx
  {
    if n > 0 {
      assert keys[n - 1] in keys;
      CandidatesAt(ts, keys, n - 1);
    }
  }

  ghost function Rate(ts: Entries, tx: Transaction): u64 { if tx.txid in ts then ts[tx.txid].feeRate else 0 }

  /**
   What a miner gets: stored transactions in non-increasing fee rate, as many as asked for, and none left
   out pays more than one taken.
   */
  lemma BestAreTaken(ts: Entries, keys: seq<Key>, spent: Spent, n: nat)
    requires Sound(ts, keys, spent) && n <= |keys|
    ensures var r := Candidates(ts, keys, n);
            && |r| == n && (forall i :: 0 <= i < n ==> r[i].txid in ts && ts[r[i].txid].tx == r[i])
            && (forall i, j :: 0 <= i < j < n ==>
                  || Rate(ts, r[i]) > Rate(ts, r[j])
                  || (Rate(ts, r[i]) == Rate(ts, r[j]) && r[i].txid < r[j].txid))
            && (forall i, id :: 0 <= i < n && id in ts && (forall j :: 0 <= j < n ==> r[j].txid != id) ==>
                  Rate(ts, r[i]) >= ts[id].feeRate)
  {
    CandidatesAt(ts, keys, n);
    var r := Candidates(ts, keys, n);
    forall i | 0 <= i < n
      ensures r[i].txid == keys[i].1 && Rate(ts, r[i]) == keys[i].0
    {
      assert keys[i] in keys;
    }
    forall i, j | 0 <= i < j < n
      ensures Rate(ts, r[i]) > Rate(ts, r[j]) || (Rate(ts, r[i]) == Rate(ts, r[j]) && r[i].txid < r[j].txid)
    {
      assert Before(keys[i], keys[j]) && keys[i] in keys && keys[j] in keys;
    }
    forall i, id | 0 <= i < n && id in ts && forall j :: 0 <= j < n ==> r[j].txid != id
      ensures Rate(ts, r[i]) >= ts[id].feeRate
    {
      assert (ts[id].feeRate, id) in keys;
      var k :| 0 <= k < |keys| && keys[k] == (ts[id].feeRate, id);
      assert forall j :: 0 <= j < n ==> keys[j].1 == r[j].txid != id;
    }
  }

  /** There are as many keys as transactions. */
  lemma KeysCount(ts: Entries, keys: seq<Key>)
    requires KeysAgree(ts, keys)
    ensures |keys| == |ts|
  {
    var ids := seq(|keys|, (i: nat) requires i < |keys| => keys[i].1);
    forall i, j | 0 <= i < j < |ids|
      ensures ids[i] != ids[j]
    {
      assert Before(keys[i], keys[j]) && keys[i] in keys && keys[j] in keys;
    }
    forall i | 0 <= i < |ids|
      ensures ids[i] in ts.Keys
    {
      assert keys[i] in keys;
    }
    forall id | id in ts.Keys
      ensures id in ids
    {
      assert (ts[id].feeRate, id) in keys;
      var k :| 0 <= k < |keys| && keys[k] == (ts[id].feeRate, id);
      assert ids[k] == id;
    }
    DistinctCount(ids, ts.Keys);
    assert |ts| == |ts.Keys|;
  }

  lemma {:induction false} DistinctCount(s: seq<int>, elements: set<int>)
    requires forall i, j :: 0 <= i < j < |s| ==> s[i] != s[j]
    requires forall x :: x in s <==> x in elements
    ensures |s| == |elements|
  {
    if s == [] {
      assert forall x :: x in elements ==> x in s;
    } else {
      assert s == [s[0]] + s[1..];
      DistinctCount(s[1..], elements - {s[0]});
    }
  }

  // ----- the loops over a transaction's inputs

  ghost function Claim(spent: Spent, inputs: seq<TxInput>, id: Hash, n: nat): Spent
    requires n <= |inputs|
  {
    if n == 0 then spent else Claim(spent, inputs, id, n - 1)[inputs[n - 1].prev := id]
  }

  ghost function Release(spent: Spent, inputs: seq<TxInput>, n: nat): Spent
    requires n <= |inputs|
  {
    if n == 0 then spent else Release(spent, inputs, n - 1) - {inputs[n - 1].prev}
  }

  lemma {:induction false} ClaimMeaning(spent: Spent, inputs: seq<TxInput>, id: Hash, n: nat)
    requires n <= |inputs|
    ensures forall o :: o in Claim(spent, inputs, id, n) <==> o in spent || o in Prevs(inputs, n)
    ensures forall o :: o in Claim(spent, inputs, id, n) ==>
              Claim(spent, inputs, id, n)[o] == if o in Prevs(inputs, n) then id else spent[o]
  {
    if n > 0 {
      ClaimMeaning(spent, inputs, id, n - 1);
    }
  }

  lemma {:induction false} ReleaseMeaning(spent: Spent, inputs: seq<TxInput>, n: nat)
    requires n <= |inputs|
    ensures forall o :: o in Release(spent, inputs, n) <==> o in spent && o !in Prevs(inputs, n)
    ensures forall o :: o in Release(spent, inputs, n) ==> Release(spent, inputs, n)[o] == spent[o]
  {
    if n > 0 {
      ReleaseMeaning(spent, inputs, n - 1);
    }
  }

  ghost function Claimed(spent: Spent, tx: Transaction): Spent {
    if tx.isCoinbase then spent else Claim(spent, tx.inputs, tx.txid, |tx.inputs|)
  }

  ghost function Released(spent: Spent, tx: Transaction): Spent {
    if tx.isCoinbase then spent else Release(spent, tx.inputs, |tx.inputs|)
  }

  lemma AddKeepsSpent(ts: Entries, spent: Spent, e: Entry)
    requires SpentAgrees(ts, spent) && e.tx.txid !in ts && Spends(e.tx) !! spent.Keys
    ensures SpentAgrees(ts[e.tx.txid := e], Claimed(spent, e.tx))
  {
    hide Claim, Prevs;
    ClaimMeaning(spent, e.tx.inputs, e.tx.txid, |e.tx.inputs|);
  }

  lemma RemoveKeepsSpent(ts: Entries, spent: Spent, id: Hash)
    requires SpentAgrees(ts, spent) && id in ts
    ensures SpentAgrees(ts - {id}, Released(spent, ts[id].tx))
  {
    hide Release, Prevs;
    var tx := ts[id].tx;
    ReleaseMeaning(spent, tx.inputs, |tx.inputs|);
    forall o | o in Released(spent, tx)
      ensures spent[o] != id
    {
      assert o in spent && o !in Spends(tx);
    }
    forall b, o | b in ts - {id} && o in Spends(ts[b].tx)
      ensures o in Released(spent, tx)
    {
      assert spent[o] == b;
      assert o !in Spends(tx);
    }
  }

  lemma AddKeepsKeys(ts: Entries, keys: seq<Key>, e: Entry)
    requires KeysAgree(ts, keys) && e.tx.txid !in ts
    ensures KeysAgree(ts[e.tx.txid := e], InsertKey(keys, (e.feeRate, e.tx.txid)))
  {
    hide InsertKey, Before;
    InsertKeyMeaning(keys, (e.feeRate, e.tx.txid));
  }

  lemma RemoveKeepsKeys(ts: Entries, keys: seq<Key>, id: Hash)
    requires KeysAgree(ts, keys)
    ensures KeysAgree(ts - {id}, Without(keys, id))
  {
    hide Without, Before;
    WithoutMeaning(keys, id);
  }

  function Stale(now: nat, maxAge: nat, e: Entry): bool { Minus(now, e.addedAt) > maxAge }

  function StaleIds(ts: Entries, now: nat, maxAge: nat): set<Hash> {
    set id | id in ts && Stale(now, maxAge, ts[id])
  }

  ghost function Ids(s: seq<Hash>, n: nat): set<Hash>
    requires n <= |s|
  {
    if n == 0 then {} else Ids(s, n - 1) + {s[n - 1]}
  }

  lemma {:induction false} IdsMeaning(s: seq<Hash>, n: nat)
    requires n <= |s|
    ensures forall id :: id in Ids(s, n) <==> id in s[..n]
  {
    if n > 0 {
      IdsMeaning(s, n - 1);
      assert s[..n] == s[..n - 1] + [s[n - 1]];
    }
  }

  lemma StaleMeaning(ts: Entries, now: nat, maxAge: nat)
    ensures forall id :: id in StaleIds(ts, now, maxAge) <==> id in ts && now > ts[id].addedAt + maxAge
  {
  }

  lemma RemainingMeaning(ts: Entries, gone: set<Hash>)
    ensures forall id :: id in Remaining(ts, gone) <==> id in ts && id !in gone
  {
  }

  lemma IdsStep(s: seq<Hash>, i: nat)
    requires i <= |s|
    ensures Ids(s, 0) == {} && (i < |s| ==> Ids(s, i + 1) == Ids(s, i) + {s[i]})
  {
  }

  ghost function Remaining(ts: Entries, gone: set<Hash>): Entries { ts - gone }

  lemma RemainingAll(ts: Entries)
    ensures Remaining(ts, {}) == ts
  {
  }

  lemma RemainingOneLess(ts: Entries, gone: set<Hash>, id: Hash)
    ensures Remaining(ts, gone) - {id} == Remaining(ts, gone + {id})
  {
  }

  class Pool {
    const maxSize: nat
    var transactions: Entries
    var keys: seq<Key>
    var spent: Spent

    ghost predicate Valid()
      reads this
    {
      Sound(transactions, keys, spent) && |transactions| <= maxSize
    }

    constructor (maxSize: nat)
      ensures Valid() && transactions == map[] && this.maxSize == maxSize
    {
      this.maxSize := maxSize;
      transactions, keys, spent := map[], [], map[];
    }

    /** The loop of AddTransaction that looks every input up. */
    method HasConflict(tx: Transaction) returns (clash: bool)
      requires Valid()
      ensures clash <==> Conflicts(transactions, tx)
      ensures clash <==> !(Spends(tx) !! spent.Keys)
    {
      hide SpentAgrees, KeysAgree, KeyedById, Conflicts, Spends;
      ConflictsIff(transactions, spent, tx);
      if !tx.isCoinbase {
        var i := 0;
        while i < |tx.inputs|
          invariant 0 <= i <= |tx.inputs| && forall k :: 0 <= k < i ==> tx.inputs[k].prev !in spent
        {
          if tx.inputs[i].prev in spent {
            return true;
          }
          i := i + 1;
        }
      }
      return false;
    }

    /** The error is the first that applies; without one the transaction is stored under its fee rate. */
    method AddTransaction(tx: Transaction, fee: u64, size: nat, now: u64) returns (error: Option<PoolError>)
      requires Valid()
      modifies this
      ensures Valid()
      ensures error == if tx.txid in old(transactions) then Some(Known)
                       else if |old(transactions)| >= maxSize then Some(Full)
                       else if Conflicts(old(transactions), tx) then Some(Conflict)
                       else None
      ensures transactions == if error.Some? then old(transactions)
                              else old(transactions)[tx.txid := Entry(tx, fee, fee / Max(size, 1), now)]
      ensures error.Some? ==> keys == old(keys) && spent == old(spent)
    {
      hide SpentAgrees, KeysAgree, Claim, Conflicts;
      if tx.txid in transactions {
        return Some(Known);
      }
      if |transactions| >= maxSize {
        return Some(Full);
      }
      var clash := HasConflict(tx);
      if clash {
        return Some(Conflict);
      }
      var rate := fee / Max(size, 1);
      RateFits(fee, Max(size, 1));
      var e := Entry(tx, fee, rate, now);
      AddKeepsSpent(transactions, spent, e);
      AddKeepsKeys(transactions, keys, e);
      ClaimStart(spent, tx);
      if !tx.isCoinbase {
        var i := 0;
        while i < |tx.inputs|
          invariant 0 <= i <= |tx.inputs| && spent == Claim(old(spent), tx.inputs, tx.txid, i)
          invariant transactions == old(transactions) && keys == old(keys)
        {
          ClaimStep(old(spent), tx.inputs, tx.txid, i);
          spent := spent[tx.inputs[i].prev := tx.txid];
          i := i + 1;
        }
      }
      transactions := transactions[tx.txid := e];
      keys := InsertKey(keys, (rate, tx.txid));
      return None;
    }

    method RemoveTransaction(id: Hash) returns (r: Option<Transaction>)
      requires Valid()
      modifies this
      ensures Valid() && transactions == old(transactions) - {id}
      ensures r == if id in old(transactions) then Some(old(transactions)[id].tx) else None
    {
      hide SpentAgrees, KeysAgree, Release;
      if id !in transactions {
        assert transactions - {id} == transactions;
        return None;
      }
      var e := transactions[id];
      RemoveKeepsSpent(transactions, spent, id);
      RemoveKeepsKeys(transactions, keys, id);
      transactions := transactions - {id};
      keys := Without(keys, id);
      ReleaseStart(spent, e.tx);
      if !e.tx.isCoinbase {
        var i := 0;
        while i < |e.tx.inputs|
          invariant 0 <= i <= |e.tx.inputs| && spent == Release(old(spent), e.tx.inputs, i)
          invariant transactions == old(transactions) - {id} && keys == Without(old(keys), id)
        {
          ReleaseStep(old(spent), e.tx.inputs, i);
          spent := spent - {e.tx.inputs[i].prev};
          i := i + 1;
        }
      }
      return Some(e.tx);
    }

    method GetTransactionsForBlock(maxCount: nat) returns (r: seq<Transaction>)
      requires Valid()
      ensures |r| == Min(maxCount, |transactions|) && |r| <= |keys| && r == Candidates(transactions, keys, |r|)
    {
      KeysCount(transactions, keys);
      var n := Min(maxCount, |keys|);
      r := [];
      var i := 0;
      while i < n
        invariant 0 <= i <= n && r == Candidates(transactions, keys, i)
      {
        if keys[i].1 in transactions {
          r := r + [transactions[keys[i].1].tx];
        }
        i := i + 1;
      }
      CandidatesAt(transactions, keys, n);
    }

    method RemoveConfirmed(ids: seq<Hash>)
      requires Valid()
      modifies this
      ensures Valid() && transactions == Remaining(old(transactions), Ids(ids, |ids|))
      ensures forall id :: id in transactions <==> id in old(transactions) && id !in ids
    {
      hide Sound, Remaining, Ids;
      RemainingAll(transactions);
      IdsStep(ids, 0);
      var i := 0;
      while i < |ids|
        invariant 0 <= i <= |ids| && Valid() && transactions == Remaining(old(transactions), Ids(ids, i))
      {
        RemainingOneLess(old(transactions), Ids(ids, i), ids[i]);
        IdsStep(ids, i);
        var _ := RemoveTransaction(ids[i]);
        i := i + 1;
      }
      IdsMeaning(ids, i);
      RemainingMeaning(old(transactions), Ids(ids, i));
      assert ids[..i] == ids;
    }

    /** The map may list the stale transactions in any order. */
    method EvictOlderThan(now: u64, maxAge: u64) returns (count: nat)
      requires Valid()
      modifies this
      ensures Valid() && transactions == Remaining(old(transactions), StaleIds(old(transactions), now, maxAge))
      ensures count == |StaleIds(old(transactions), now, maxAge)|
      ensures forall id :: id in transactions <==>
                id in old(transactions) && now <= old(transactions)[id].addedAt + maxAge
    {
      hide Sound, StaleIds, Remaining;
      var stale := StaleIds(transactions, now, maxAge);
      var left := stale;
      ghost var done := {};
      RemainingAll(transactions);
      while left != {}
        invariant Valid() && left + done == stale && transactions == Remaining(old(transactions), done)
        decreases |left|
      {
        var id :| id in left;
        RemainingOneLess(old(transactions), done, id);
        var _ := RemoveTransaction(id);
        left, done := left - {id}, done + {id};
      }
      StaleMeaning(old(transactions), now, maxAge);
      RemainingMeaning(old(transactions), stale);
      return |stale|;
    }

    method Clear()
      requires Valid()
      modifies this
      ensures Valid() && transactions == map[]
    {
      transactions, keys, spent := map[], [], map[];
    }
  }

  lemma RateFits(fee: nat, size: nat)
    requires size > 0
    ensures 0 <= fee / size <= fee
  {
    QuotientBounds(fee, size);
  }

  lemma ClaimStart(spent: Spent, tx: Transaction)
    ensures Claim(spent, tx.inputs, tx.txid, 0) == spent
  {
  }

  lemma ClaimStep(spent: Spent, inputs: seq<TxInput>, id: Hash, i: nat)
    requires i < |inputs|
    ensures Claim(spent, inputs, id, 0) == spent
    ensures Claim(spent, inputs, id, i + 1) == Claim(spent, inputs, id, i)[inputs[i].prev := id]
  {
  }

  lemma ReleaseStart(spent: Spent, tx: Transaction)
    ensures Release(spent, tx.inputs, 0) == spent
  {
  }

  lemma ReleaseStep(spent: Spent, inputs: seq<TxInput>, i: nat)
    requires i < |inputs|
    ensures Release(spent, inputs, i + 1) == Release(spent, inputs, i) - {inputs[i].prev}
  {
  }
}
