/**
 The block graph's indexes (crates/zentra-core/src/dag.rs): tips, children and ancestor search agree
 with the parent relation after any run of inserts.
 */
module DagGraphs {
  import opened Types

  datatype Header = Header(parents: seq<Hash>, blueScore: nat, blueWork: nat)

  type Headers = map<Hash, Header>

  ghost function Parents(hs: Headers, h: Hash): seq<Hash> { if h in hs then hs[h].parents else [] }

  /** `c` is a stored block that names `h` as a parent. */
  ghost predicate ChildOf(hs: Headers, c: Hash, h: Hash) { c in hs && h in hs[c].parents }

  ghost predicate Childless(hs: Headers, h: Hash) {
    h in hs && forall c :: c in hs ==> h !in hs[c].parents
  }

  ghost predicate Closed(hs: Headers) {
    forall h, p :: h in hs && p in hs[h].parents ==> p in hs
  }

  // ----- reachability

  /** Each element is a parent of the one before it. */
  ghost predicate IsPath(hs: Headers, path: seq<Hash>) {
    path != [] && forall i :: 0 < i < |path| ==> path[i] in Parents(hs, path[i - 1])
  }

  /** Reflexive and transitive: some path leads down from `d` to `a`. */
  ghost predicate Reaches(hs: Headers, d: Hash, a: Hash) {
    exists path :: IsPath(hs, path) && path[0] == d && path[|path| - 1] == a
  }

  lemma ReachesSelf(hs: Headers, d: Hash)
    ensures Reaches(hs, d, d)
  {
    assert IsPath(hs, [d]);
  }

  lemma ReachesParent(hs: Headers, d: Hash, x: Hash, p: Hash)
    requires Reaches(hs, d, x) && p in Parents(hs, x)
    ensures Reaches(hs, d, p)
  {
    var path :| IsPath(hs, path) && path[0] == d && path[|path| - 1] == x;
    assert IsPath(hs, path + [p]);
  }

  /** Down one parent and on from there: with Reaches(d, d) this is all there is. */
  lemma ReachesIff(hs: Headers, d: Hash, a: Hash)
    ensures Reaches(hs, d, a) <==> d == a || (d in hs && exists p :: p in hs[d].parents && Reaches(hs, p, a))
  {
    if Reaches(hs, d, a) && d != a {
      var path :| IsPath(hs, path) && path[0] == d && path[|path| - 1] == a;
      var rest := path[1..];
      assert path[1] in Parents(hs, path[0]);
      assert forall i :: 0 < i < |rest| ==> rest[i] == path[i + 1] && rest[i - 1] == path[i];
      assert IsPath(hs, rest) && rest[0] == path[1] && rest[|rest| - 1] == a;
    }
    if d == a {
      ReachesSelf(hs, d);
    } else if d in hs && exists p :: p in hs[d].parents && Reaches(hs, p, a) {
      var p :| p in hs[d].parents && Reaches(hs, p, a);
      var path :| IsPath(hs, path) && path[0] == p && path[|path| - 1] == a;
      var longer := [d] + path;
      forall i | 0 < i < |longer|
        ensures longer[i] in Parents(hs, longer[i - 1])
      {
        if i > 1 {
          assert longer[i] == path[i - 1] && longer[i - 1] == path[i - 2];
        }
      }
      assert IsPath(hs, longer);
    }
  }

  /** A set that contains `d` and all parents of its members contains everything `d` reaches. */
  lemma {:induction false} ReachesStaysInside(hs: Headers, s: set<Hash>, path: seq<Hash>)
    requires forall x, p :: x in s && p in Parents(hs, x) ==> p in s
    requires IsPath(hs, path) && path[0] in s
    ensures path[|path| - 1] in s
  {
    if |path| > 1 {
      var shorter := path[1..];
      assert path[1] in Parents(hs, path[0]);
      assert forall i :: 0 < i < |shorter| ==> shorter[i] == path[i + 1] && shorter[i - 1] == path[i];
      ReachesStaysInside(hs, s, shorter);
    }
  }

  /** Everything a search from `d` can ever visit. */
  ghost function Universe(hs: Headers, d: Hash): set<Hash> {
    {d} + set h, p | h in hs && p in hs[h].parents :: p
  }

  /** What has been visited is reached, so it lies in the universe. */
  ghost predicate Sound(hs: Headers, d: Hash, visited: set<Hash>) {
    visited <= Universe(hs, d) && forall x :: x in visited ==> Reaches(hs, d, x)
  }

  /** Parents of visited blocks are visited, but for blocks still queued or being expanded. */
  ghost predicate Frontier(hs: Headers, visited: set<Hash>, queue: seq<Hash>, open: set<Hash>) {
    && (forall x :: x in queue ==> x in visited)
    && (forall x, p :: x in visited && x !in queue && x !in open && p in Parents(hs, x) ==> p in visited)
  }

  lemma SearchStarts(hs: Headers, d: Hash)
    ensures Sound(hs, d, {d}) && Frontier(hs, {d}, [d], {})
  {
    ReachesSelf(hs, d);
  }

  lemma SearchPops(hs: Headers, visited: set<Hash>, queue: seq<Hash>)
    requires queue != [] && Frontier(hs, visited, queue, {})
    ensures var n := |queue| - 1;
            Frontier(hs, visited, queue[..n], {queue[n]}) && queue[n] in visited
  {
    var n := |queue| - 1;
    assert queue == queue[..n] + [queue[n]];
  }

  lemma SearchVisits(hs: Headers, d: Hash, visited: set<Hash>, queue: seq<Hash>, current: Hash, p: Hash)
    requires Sound(hs, d, visited) && Frontier(hs, visited, queue, {current})
    requires current in visited && p in Parents(hs, current)
    ensures Reaches(hs, d, p) && Sound(hs, d, visited + {p})
    ensures Frontier(hs, visited + {p}, queue + [p], {current})
  {
    ReachesParent(hs, d, current, p);
  }

  lemma SearchCloses(hs: Headers, d: Hash, before: set<Hash>, after: set<Hash>, queue: seq<Hash>, current: Hash)
    requires before <= after && Sound(hs, d, after) && Frontier(hs, after, queue, {current})
    requires forall i :: 0 <= i < |Parents(hs, current)| ==> Parents(hs, current)[i] in after
    ensures Frontier(hs, after, queue, {})
    ensures after != before ==> |Universe(hs, d) - after| < |Universe(hs, d) - before|
  {
    var universe := Universe(hs, d);
    if after != before {
      var x :| x in after && x !in before;
      assert universe - after <= (universe - before) - {x};
      SubsetSize(universe - after, (universe - before) - {x});
    }
  }

  lemma {:induction false} SubsetSize(a: set<Hash>, b: set<Hash>)
    requires a <= b
    ensures |a| <= |b|
  {
    if a != {} {
      var x :| x in a;
      SubsetSize(a - {x}, b - {x});
    }
  }

  lemma NothingElseReached(hs: Headers, d: Hash, visited: set<Hash>, a: Hash)
    requires d in visited && Frontier(hs, visited, [], {}) && a !in visited
    ensures !Reaches(hs, d, a)
  {
    forall path | IsPath(hs, path) && path[0] == d
      ensures path[|path| - 1] != a
    {
      ReachesStaysInside(hs, visited, path);
    }
  }

  // ----- the selected tip

  /** Higher score, then higher work, then lower hash. */
  predicate Better(hs: Headers, a: Hash, b: Hash)
    requires a in hs && b in hs
  {
    || hs[a].blueScore > hs[b].blueScore
    || (hs[a].blueScore == hs[b].blueScore && hs[a].blueWork > hs[b].blueWork)
    || (hs[a].blueScore == hs[b].blueScore && hs[a].blueWork == hs[b].blueWork && a < b)
  }

  ghost predicate IsBest(hs: Headers, tips: seq<Hash>, best: Hash) {
    best in tips && best in hs && forall t :: t in tips && t in hs && t != best ==> Better(hs, best, t)
  }

  /** The choice depends on which tips there are and not on their order. */
  lemma BestIgnoresOrder(hs: Headers, tips: seq<Hash>, others: seq<Hash>, a: Hash, b: Hash)
    requires IsBest(hs, tips, a) && IsBest(hs, others, b)
    requires forall t :: t in tips <==> t in others
    ensures a == b
  {
    assert b in tips && a in others;
  }

  // ----- the children index

  type Lists = map<Hash, seq<Hash>>

  ghost function ListOf(lists: Lists, h: Hash): seq<Hash> { if h in lists then lists[h] else [] }

  /** Each list holds exactly the blocks that name its key, once each. */
  ghost predicate ChildrenAgree(hs: Headers, lists: Lists) {
    forall h :: NoRepeats(ListOf(lists, h)) && forall c :: c in ListOf(lists, h) <==> ChildOf(hs, c, h)
  }

  ghost predicate TipsAgree(hs: Headers, tips: seq<Hash>) {
    NoRepeats(tips) && forall h :: h in tips <==> Childless(hs, h)
  }

  ghost predicate CachesAgree(hs: Headers, headerCache: Headers, lists: Lists, childrenCache: Lists) {
    && (forall h :: h in childrenCache ==> childrenCache[h] == ListOf(lists, h))
    && (forall h :: h in headerCache ==> h in hs && headerCache[h] == hs[h])
  }

  /** `child` appended to the lists of `parents`. */
  ghost predicate Linked(before: Lists, after: Lists, child: Hash, parents: seq<Hash>) {
    forall h :: ListOf(after, h) == if h in parents then ListOf(before, h) + [child] else ListOf(before, h)
  }

  lemma LinkOneMore(before: Lists, now: Lists, after: Lists, child: Hash, parents: seq<Hash>, p: Hash)
    requires Linked(before, now, child, parents) && child !in ListOf(before, p)
    requires after == if child in ListOf(now, p) then now else now[p := ListOf(now, p) + [child]]
    ensures Linked(before, after, child, parents + [p])
  {
  }

  lemma NothingLinked(lists: Lists, child: Hash)
    ensures Linked(lists, lists, child, [])
  {
  }

  class DagGraph {
    var headers: Headers
    var dbChildren: Lists
    var childrenCache: Lists
    var headerCache: Headers
    var tips: seq<Hash>

    ghost predicate CachesOk()
      reads this`headers, this`headerCache, this`dbChildren, this`childrenCache
    {
      CachesAgree(headers, headerCache, dbChildren, childrenCache)
    }

    ghost predicate Valid()
      reads this
    {
      Closed(headers) && CachesOk() && ChildrenAgree(headers, dbChildren) && TipsAgree(headers, tips)
    }

    constructor ()
      ensures Valid() && headers == map[]
    {
      headers, dbChildren, childrenCache, headerCache, tips := map[], map[], map[], map[], [];
    }

    method GetHeader(h: Hash) returns (r: Option<Header>)
      requires CachesOk()
      modifies this`headerCache
      ensures CachesOk()
      ensures r == if h in headers then Some(headers[h]) else None
    {
      if h in headerCache {
        return Some(headerCache[h]);
      }
      if h in headers {
        headerCache := headerCache[h := headers[h]];
        return Some(headers[h]);
      }
      return None;
    }

    method GetParents(h: Hash) returns (r: seq<Hash>)
      requires CachesOk()
      modifies this`headerCache
      ensures CachesOk() && r == Parents(headers, h)
    {
      var header := GetHeader(h);
      r := if header.Some? then header.value.parents else [];
    }

    /** Through the cache or the store; a store answer is cached, an empty one too. */
    method GetChildren(h: Hash) returns (r: seq<Hash>)
      requires CachesOk()
      modifies this`childrenCache
      ensures CachesOk() && r == ListOf(dbChildren, h)
    {
      if h in childrenCache {
        return childrenCache[h];
      }
      r := if h in dbChildren then dbChildren[h] else [];
      childrenCache := childrenCache[h := r];
    }

    method AddChildRelation(parent: Hash, child: Hash)
      requires CachesOk()
      modifies this`childrenCache, this`dbChildren
      ensures CachesOk()
      ensures if child in ListOf(old(dbChildren), parent) then dbChildren == old(dbChildren)
              else dbChildren == old(dbChildren)[parent := ListOf(old(dbChildren), parent) + [child]]
    {
      var children := GetChildren(parent);
      if child !in children {
        children := children + [child];
        dbChildren := dbChildren[parent := children];
        childrenCache := childrenCache[parent := children];
      }
    }

    /** InsertBlock's loop over the parents; a parent named twice is linked once. */
    method LinkParents(hash: Hash, parents: seq<Hash>)
      requires CachesOk() && forall h :: hash !in ListOf(dbChildren, h)
      modifies this`childrenCache, this`dbChildren
      ensures CachesOk() && Linked(old(dbChildren), dbChildren, hash, parents)
    {
      hide CachesAgree, Linked, ListOf;
      NothingLinked(dbChildren, hash);
      var i := 0;
      while i < |parents|
        invariant 0 <= i <= |parents| && CachesOk() && Linked(old(dbChildren), dbChildren, hash, parents[..i])
      {
        ghost var now := dbChildren;
        AddChildRelation(parents[i], hash);
        LinkOneMore(old(dbChildren), now, dbChildren, hash, parents[..i], parents[i]);
        assert parents[..i + 1] == parents[..i] + [parents[i]];
        i := i + 1;
      }
      assert parents[..i] == parents;
    }

    /** Inserting a new block with known parents keeps every index in step with the parent relation. */
    method InsertBlock(hash: Hash, header: Header)
      requires Valid() && hash !in headers && forall p :: p in header.parents ==> p in headers
      modifies this
      ensures Valid() && headers == old(headers)[hash := header]
      ensures NoRepeats(tips)
      ensures forall h :: h in tips <==> h in headers && forall c :: c in headers ==> h !in headers[c].parents
    {
      hide ChildrenAgree, TipsAgree, Linked;
      ghost var hs, kids := headers, dbChildren;
      UnknownHasNoLinks(hs, kids, hash);
      headers := headers[hash := header];
      headerCache := headerCache[hash := header];
      LinkParents(hash, header.parents);
      ChildrenExtended(hs, hash, header, kids, dbChildren);
      TipsExtended(hs, hash, header, tips);
      tips := Retain(tips, header.parents) + [hash];
      TipsAreChildless(headers, tips);
    }

    /** What callers see: exactly the blocks that name `h` as a parent. */
    method ChildrenOf(h: Hash) returns (r: seq<Hash>)
      requires Valid()
      modifies this`childrenCache
      ensures Valid() && NoRepeats(r) && forall c :: c in r <==> c in headers && h in headers[c].parents
    {
      r := GetChildren(h);
    }

    /** The search ends on every parent relation, cyclic ones included, and decides reachability. */
    method IsAncestor(ancestor: Hash, descendant: Hash) returns (r: bool)
      requires CachesOk()
      modifies this`headerCache
      ensures CachesOk() && r == Reaches(headers, descendant, ancestor)
    {
      hide Reaches, CachesAgree, Sound, Frontier, Universe, Parents;
      ReachesSelf(headers, descendant);
      if ancestor == descendant {
        return true;
      }
      var queue, visited := [descendant], {descendant};
      SearchStarts(headers, descendant);
      while queue != []
        invariant CachesOk() && ancestor !in visited && descendant in visited
        invariant Sound(headers, descendant, visited) && Frontier(headers, visited, queue, {})
        decreases |Universe(headers, descendant) - visited|, |queue|
      {
        var current := queue[|queue| - 1];
        SearchPops(headers, visited, queue);
        queue := queue[..|queue| - 1];
        ghost var visited0, length := visited, |queue|;
        var parents := GetParents(current);
        var i := 0;
        while i < |parents|
          invariant 0 <= i <= |parents| && CachesOk() && ancestor !in visited
          invariant visited0 <= visited && Sound(headers, descendant, visited)
          invariant Frontier(headers, visited, queue, {current})
          invariant forall j :: 0 <= j < i ==> parents[j] in visited
          invariant visited == visited0 ==> |queue| == length
        {
          var parent := parents[i];
          SearchVisits(headers, descendant, visited, queue, current, parent);
          if parent == ancestor {
            return true;
          }
          if parent !in visited {
            visited := visited + {parent};
            queue := queue + [parent];
          }
          i := i + 1;
        }
        SearchCloses(headers, descendant, visited0, visited, queue, current);
      }
      NothingElseReached(headers, descendant, visited, ancestor);
      return false;
    }

    /** The best tip that has a header; none if no tip has one. */
    method GetSelectedTip() returns (best: Option<Hash>)
      requires CachesOk()
      modifies this`headerCache
      ensures CachesOk()
      ensures best.None? <==> forall t :: t in tips ==> t !in headers
      ensures best.Some? ==> IsBest(headers, tips, best.value)
      ensures best.Some? ==>
                && best.value in tips && best.value in headers
                && forall t :: t in tips && t in headers && t != best.value ==>
                     var a, b := headers[best.value], headers[t];
                     || a.blueScore > b.blueScore
                     || (a.blueScore == b.blueScore && a.blueWork > b.blueWork)
                     || (a.blueScore == b.blueScore && a.blueWork == b.blueWork && best.value < t)
    {
      best := None;
      var i := 0;
      while i < |tips|
        invariant 0 <= i <= |tips| && CachesOk()
        invariant best.None? <==> forall t :: t in tips[..i] ==> t !in headers
        invariant best.Some? ==> IsBest(headers, tips[..i], best.value)
      {
        var header := GetHeader(tips[i]);
        if header.Some? && (best.None? || Better(headers, tips[i], best.value)) {
          best := Some(tips[i]);
        }
        assert tips[..i + 1] == tips[..i] + [tips[i]];
        i := i + 1;
      }
      assert tips[..i] == tips;
    }
  }

  function Retain(tips: seq<Hash>, parents: seq<Hash>): seq<Hash> {
    if tips == [] then []
    else (if tips[0] in parents then [] else [tips[0]]) + Retain(tips[1..], parents)
  }

  lemma {:induction false} RetainMeaning(tips: seq<Hash>, parents: seq<Hash>)
    ensures forall t :: t in Retain(tips, parents) <==> t in tips && t !in parents
    ensures NoRepeats(tips) ==> NoRepeats(Retain(tips, parents))
  {
    if tips != [] {
      RetainMeaning(tips[1..], parents);
      assert tips == [tips[0]] + tips[1..];
    }
  }

  lemma TipsAreChildless(hs: Headers, tips: seq<Hash>)
    requires TipsAgree(hs, tips)
    ensures NoRepeats(tips) && forall h :: h in tips <==> h in hs && forall c :: c in hs ==> h !in hs[c].parents
  {
  }

  lemma UnknownHasNoLinks(hs: Headers, lists: Lists, hash: Hash)
    requires ChildrenAgree(hs, lists) && hash !in hs
    ensures forall h :: hash !in ListOf(lists, h)
  {
  }

  lemma ChildrenExtended(hs: Headers, hash: Hash, header: Header, lists: Lists, after: Lists)
    requires ChildrenAgree(hs, lists) && hash !in hs && Linked(lists, after, hash, header.parents)
    ensures ChildrenAgree(hs[hash := header], after)
  {
    forall h
      ensures NoRepeats(ListOf(after, h))
      ensures forall c :: c in ListOf(after, h) <==> ChildOf(hs[hash := header], c, h)
    {
      assert hash !in ListOf(lists, h);
      assert forall c :: c in ListOf(lists, h) <==> ChildOf(hs, c, h);
    }
  }

  lemma TipsExtended(hs: Headers, hash: Hash, header: Header, tips: seq<Hash>)
    requires Closed(hs) && hash !in hs && TipsAgree(hs, tips)
    requires forall p :: p in header.parents ==> p in hs
    ensures TipsAgree(hs[hash := header], Retain(tips, header.parents) + [hash])
  {
    var after := hs[hash := header];
    RetainMeaning(tips, header.parents);
    forall h
      ensures Childless(after, h) <==> (h == hash || (Childless(hs, h) && h !in header.parents))
    {
      if h in hs && !Childless(hs, h) {
        var c :| c in hs && h in hs[c].parents;
        assert c in after && h in after[c].parents;
      } else if h in header.parents {
        assert hash in after && h in after[hash].parents;
      }
    }
  }
}
