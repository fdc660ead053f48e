/**
 The sync slice (crates/zentrad/src/node.rs:1510-1532): although the search stops at the first block
 that is low enough, it misses nothing, and what it serves can be connected in order.
 */
module Sync {
  import opened Types
  import opened DagGraphs
  import opened Sorting
  import Ghostdag

  ghost function Score(hs: Headers, h: Hash): nat { if h in hs then hs[h].blueScore else 0 }

  /** Scores rise from parents to children; GhostDAG gives every connected block such a score. */
  ghost predicate Rising(hs: Headers) {
    forall h, p :: h in hs && p in hs[h].parents && p in hs ==> hs[p].blueScore < hs[h].blueScore
  }

  /** Stored headers that carry the computed scores rise. */
  lemma ScoresRise(hs: Headers, d: Ghostdag.Dag, k: nat)
    requires Ghostdag.Consistent(d, k)
    requires forall h :: h in hs ==>
               h in d.gd && hs[h].blueScore == d.gd[h].blueScore && hs[h].parents == d.parents[h]
    ensures Rising(hs)
  {
    forall h, p | h in hs && p in hs[h].parents && p in hs
      ensures hs[p].blueScore < hs[h].blueScore
    {
      Ghostdag.BlockStructure(d, h, k);
    }
  }

  ghost predicate Wanted(hs: Headers, from: nat, h: Hash) { h in hs && hs[h].blueScore > from }

  /** The search holds every wanted tip and every wanted parent of what it holds. */
  ghost predicate SearchClosed(hs: Headers, tips: seq<Hash>, from: nat, found: set<Hash>) {
    && (forall t :: t in tips && Wanted(hs, from, t) ==> t in found)
    && (forall x, p :: x in found && x in hs && p in hs[x].parents && Wanted(hs, from, p) ==> p in found)
  }

  ghost function Higher(hs: Headers, s: nat): set<Hash> { set h | h in hs && hs[h].blueScore > s }

  /** Upwards from any wanted block there is a path of wanted blocks to a tip. */
  lemma {:induction false} ClosedIsComplete(hs: Headers, tips: seq<Hash>, from: nat, found: set<Hash>, h: Hash)
    requires Closed(hs) && Rising(hs) && TipsAgree(hs, tips) && SearchClosed(hs, tips, from, found)
    requires Wanted(hs, from, h)
    ensures h in found
    decreases Higher(hs, Score(hs, h))
  {
    if h !in tips {
      assert !Childless(hs, h);
      var c :| c in hs && h in hs[c].parents;
      assert c in Higher(hs, Score(hs, h)) && c !in Higher(hs, Score(hs, c));
      ClosedIsComplete(hs, tips, from, found, c);
    }
  }

  // ----- the search

  ghost function Universe(hs: Headers, tips: seq<Hash>): set<Hash> {
    (set t | t in tips) + set h, p | h in hs && p in hs[h].parents :: p
  }

  /** What is collected is what was seen and wanted; its parents and the tips are seen or queued. */
  ghost predicate Searching(hs: Headers, tips: seq<Hash>, from: nat, seen: set<Hash>, found: seq<Hash>,
                            queue: seq<Hash>)
  {
    && (forall h :: h in found <==> h in seen && Wanted(hs, from, h)) && NoRepeats(found)
    && (forall h :: h in tips ==> h in seen || h in queue)
    && (forall x, p :: x in found && p in hs[x].parents ==> p in seen || p in queue)
    && seen <= Universe(hs, tips) && forall h :: h in queue ==> h in Universe(hs, tips)
  }

  lemma SearchSkips(hs: Headers, tips: seq<Hash>, from: nat, seen: set<Hash>, found: seq<Hash>, queue: seq<Hash>)
    requires queue != [] && Searching(hs, tips, from, seen, found, queue)
    ensures queue[0] in seen ==> Searching(hs, tips, from, seen, found, queue[1..])
    ensures queue[0] !in seen && !Wanted(hs, from, queue[0]) ==>
              Searching(hs, tips, from, seen + {queue[0]}, found, queue[1..])
    ensures queue[0] in Universe(hs, tips)
  {
    assert queue == [queue[0]] + queue[1..];
  }

  lemma SearchTakes(hs: Headers, tips: seq<Hash>, from: nat, seen: set<Hash>, found: seq<Hash>, queue: seq<Hash>,
                    more: seq<Hash>)
    requires queue != [] && Searching(hs, tips, from, seen, found, queue)
    requires queue[0] !in seen && Wanted(hs, from, queue[0])
    requires forall p :: p in more ==> p in hs[queue[0]].parents
    requires forall p :: p in hs[queue[0]].parents ==> p in more || p in seen + {queue[0]}
    ensures Searching(hs, tips, from, seen + {queue[0]}, found + [queue[0]], queue[1..] + more)
  {
    assert queue == [queue[0]] + queue[1..];
    var now := found + [queue[0]];
    assert queue[0] !in found;
    assert forall x :: x in now <==> x in found || x == queue[0];
  }

  lemma SearchEnds(hs: Headers, tips: seq<Hash>, from: nat, seen: set<Hash>, found: seq<Hash>)
    requires Closed(hs) && Rising(hs) && TipsAgree(hs, tips) && Searching(hs, tips, from, seen, found, [])
    ensures forall h :: h in found <==> Wanted(hs, from, h)
  {
    var s := set h | h in found;
    DoneIsClosed(hs, tips, from, seen, found);
    hide Searching, SearchClosed, TipsAgree, Wanted;
    forall h | Wanted(hs, from, h)
      ensures h in found
    {
      ClosedIsComplete(hs, tips, from, s, h);
    }
  }

  lemma DoneIsClosed(hs: Headers, tips: seq<Hash>, from: nat, seen: set<Hash>, found: seq<Hash>)
    requires Closed(hs) && Searching(hs, tips, from, seen, found, [])
    ensures SearchClosed(hs, tips, from, set h | h in found)
    ensures forall h :: h in found ==> Wanted(hs, from, h)
  {
  }

  lemma SetShrinks(universe: set<Hash>, seen: set<Hash>, h: Hash)
    requires h in universe && h !in seen
    ensures |universe - (seen + {h})| < |universe - seen|
  {
    assert universe - seen == (universe - (seen + {h})) + {h};
  }

  /** Everything wanted, each once. */
  method CollectAbove(g: DagGraph, from: nat) returns (found: seq<Hash>)
    requires g.Valid() && Rising(g.headers)
    ensures NoRepeats(found) && forall h :: h in found <==> Wanted(g.headers, from, h)
    ensures forall h :: h in found <==> h in g.headers && g.headers[h].blueScore > from
  {
    hide Searching, Universe;
    var hs, seen, queue := g.headers, {}, g.tips;
    found := [];
    SearchStart(hs, g.tips, from);
    while queue != []
      invariant Searching(hs, g.tips, from, seen, found, queue)
      decreases |Universe(hs, g.tips) - seen|, |queue|
    {
      var h := queue[0];
      SearchSkips(hs, g.tips, from, seen, found, queue);
      if h in seen {
        queue := queue[1..];
        continue;
      }
      SetShrinks(Universe(hs, g.tips), seen, h);
      if h in hs && hs[h].blueScore > from {
        var more := Unseen(hs[h].parents, seen + {h});
        UnseenMeaning(hs[h].parents, seen + {h});
        SearchTakes(hs, g.tips, from, seen, found, queue, more);
        queue := queue[1..] + more;
        found := found + [h];
      } else {
        queue := queue[1..];
      }
      seen := seen + {h};
    }
    SearchEnds(hs, g.tips, from, seen, found);
    SearchDistinct(hs, g.tips, from, seen, found, queue);
  }

  lemma SearchStart(hs: Headers, tips: seq<Hash>, from: nat)
    ensures Searching(hs, tips, from, {}, [], tips)
  {
  }

  lemma SearchDistinct(hs: Headers, tips: seq<Hash>, from: nat, seen: set<Hash>, found: seq<Hash>, queue: seq<Hash>)
    requires Searching(hs, tips, from, seen, found, queue)
    ensures NoRepeats(found)
  {
  }

  function Unseen(parents: seq<Hash>, seen: set<Hash>): seq<Hash> {
    if parents == [] then []
    else Unseen(parents[..|parents| - 1], seen)
         + if parents[|parents| - 1] in seen then [] else [parents[|parents| - 1]]
  }

  lemma {:induction false} UnseenMeaning(parents: seq<Hash>, seen: set<Hash>)
    ensures forall p :: p in Unseen(parents, seen) <==> p in parents && p !in seen
  {
    if parents != [] {
      var n := |parents| - 1;
      UnseenMeaning(parents[..n], seen);
      assert parents == parents[..n] + [parents[n]];
    }
  }

  /** Every parent that is above the requested height comes earlier in the slice. */
  ghost predicate ParentsEarlier(hs: Headers, from: nat, r: seq<Hash>) {
    forall i, p :: 0 <= i < |r| && r[i] in hs && p in hs[r[i]].parents ==>
      p in hs && hs[p].blueScore > from ==> p in r[..i]
  }

  /** A complete list in score order has parents before children, and so has each of its prefixes. */
  lemma SliceInOrder(hs: Headers, from: nat, all: seq<Hash>, n: nat, key: Hash -> int)
    requires Rising(hs) && n <= |all| && forall h :: h in all <==> Wanted(hs, from, h)
    requires SortedBy(all, key) && forall h :: key(h) == Score(hs, h)
    ensures ParentsEarlier(hs, from, all[..n])
  {
    var r := all[..n];
    forall i, p | 0 <= i < |r| && r[i] in hs && p in hs[r[i]].parents && p in hs && hs[p].blueScore > from
      ensures p in r[..i]
    {
      assert Wanted(hs, from, p);
      assert all[i] == r[i] && p in all;
      var j :| 0 <= j < |all| && all[j] == p;
      SmallerIsEarlier(all, key, j, i);
      assert r[..i][j] == p;
    }
  }

  /**
   Main theorem: without the limit the slice is exactly the blocks above `from`, and with any limit
   it can be connected from the front.
   */
  method BlocksAbove(g: DagGraph, from: nat, limit: nat) returns (r: seq<Hash>)
    requires g.Valid() && Rising(g.headers)
    ensures |r| <= limit && NoRepeats(r) && ParentsEarlier(g.headers, from, r)
    ensures forall h :: h in r ==> h in g.headers && g.headers[h].blueScore > from
    ensures |r| < limit ==> forall h :: h in r <==> h in g.headers && g.headers[h].blueScore > from
    ensures forall h, l :: h in r && Wanted(g.headers, from, l) && l !in r ==>
              Score(g.headers, h) <= Score(g.headers, l)
  {
    WantedMeaning(g.headers, from);
    hide Rising, ParentsEarlier, Wanted, NoRepeats, SortedBy;
    var hs := g.headers;
    var found := CollectAbove(g, from);
    var key := (h: Hash) => if h in hs then hs[h].blueScore else 0;
    var sorted := Sort(found, key);
    SortMeaning(found, key);
    SameElements(found, sorted);
    var n := Min(limit, |sorted|);
    SliceInOrder(hs, from, sorted, n, key);
    r := sorted[..n];
    assert |r| < limit ==> r == sorted;
    PrefixDistinct(sorted, n);
    forall h, l | h in r && Wanted(hs, from, l) && l !in r
      ensures Score(hs, h) <= Score(hs, l)
    {
      PrefixIsLeast(sorted, key, n, h, l);
    }
  }

  lemma WantedMeaning(hs: Headers, from: nat)
    ensures forall h :: Wanted(hs, from, h) <==> h in hs && hs[h].blueScore > from
  {
  }

  lemma PrefixDistinct(s: seq<Hash>, n: nat)
    requires NoRepeats(s) && n <= |s|
    ensures NoRepeats(s[..n])
  {
  }

  lemma SameElements(a: seq<Hash>, b: seq<Hash>)
    requires multiset(a) == multiset(b) && NoRepeats(a)
    ensures NoRepeats(b) && forall h :: h in a <==> h in b
  {
    forall h
      ensures h in a <==> h in b
    {
      assert h in a <==> h in multiset(a);
      assert h in b <==> h in multiset(b);
    }
    forall i, j | 0 <= i < j < |b|
      ensures b[i] != b[j]
    {
      if b[i] == b[j] {
        TwiceInSeq(b, i, j);
        OnceInSeq(a, b[i]);
      }
    }
  }

  lemma TwiceInSeq(s: seq<Hash>, i: nat, j: nat)
    requires i < j < |s| && s[i] == s[j]
    ensures multiset(s)[s[i]] >= 2
  {
    assert s == s[..i] + [s[i]] + s[i + 1..j] + [s[j]] + s[j + 1..];
  }

  lemma {:induction false} OnceInSeq(s: seq<Hash>, h: Hash)
    requires NoRepeats(s)
    ensures multiset(s)[h] <= 1
  {
    if s != [] {
      OnceInSeq(s[1..], h);
      assert s == [s[0]] + s[1..];
      assert s[0] !in s[1..];
    }
  }
}
