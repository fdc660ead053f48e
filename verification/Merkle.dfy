/**
 Merkle roots and proofs (crates/zentra-core/src/merkle.rs), and the second builder of the state tree
 (crates/zentra-runtime/src/state.rs). The combining hash is a parameter.
 */
module Merkle {
  import opened Types

  type Combine = (Hash, Hash) -> Hash

  /** What stands to the right of an even position: the next entry, or the entry itself at an odd end. */
  function Right(s: seq<Hash>, i: nat): Hash
    requires i < |s|
  {
    if i + 1 < |s| then s[i + 1] else s[i]
  }

  /** The first n entries of the next level. */
  function Pairs(f: Combine, s: seq<Hash>, n: nat): (r: seq<Hash>)
    requires 2 * n <= |s| + 1
    ensures |r| == n && forall j :: 0 <= j < n ==> r[j] == f(s[2 * j], Right(s, 2 * j))
  {
    if n == 0 then [] else Pairs(f, s, n - 1) + [f(s[2 * n - 2], Right(s, 2 * n - 2))]
  }

  function Up(f: Combine, s: seq<Hash>): (r: seq<Hash>)
    ensures |r| == (|s| + 1) / 2
  {
    Pairs(f, s, (|s| + 1) / 2)
  }

  function Root(f: Combine, s: seq<Hash>): Hash
    decreases |s|
  {
    if s == [] then ZERO else if |s| == 1 then s[0] else Root(f, Up(f, s))
  }

  /** The root of three leaves: pairs in order, left before right, and an odd last one with itself. */
  lemma RootOfThree(f: Combine, a: Hash, b: Hash, c: Hash)
    ensures Root(f, []) == 0 && Root(f, [a]) == a && Root(f, [a, b]) == f(a, b)
    ensures Root(f, [a, b, c]) == f(f(a, b), f(c, c))
  {
    assert Root(f, [f(f(a, b), f(c, c))]) == f(f(a, b), f(c, c));
    assert Root(f, [f(a, b), f(c, c)]) == Root(f, Up(f, [f(a, b), f(c, c)]));
    assert Up(f, [a, b]) == [f(a, b)] && Up(f, [a, b, c]) == [f(a, b), f(c, c)];
    assert Up(f, [f(a, b), f(c, c)]) == [f(f(a, b), f(c, c))];
  }

  /** The sibling, and whether it stands on the right. */
  type Side = (Hash, bool)

  function Sibling(s: seq<Hash>, i: nat): Side
    requires i < |s|
  {
    if i % 2 == 0 then (Right(s, i), true) else (s[i - 1], false)
  }

  function Proof(f: Combine, s: seq<Hash>, i: nat): seq<Side>
    decreases |s|
  {
    if |s| <= 1 || i >= |s| then [] else [Sibling(s, i)] + Proof(f, Up(f, s), i / 2)
  }

  function Climb(f: Combine, x: Hash, side: Side): Hash { if side.1 then f(x, side.0) else f(side.0, x) }

  function Fold(f: Combine, x: Hash, proof: seq<Side>): Hash
    decreases |proof|
  {
    if proof == [] then x else Fold(f, Climb(f, x, proof[0]), proof[1..])
  }

  lemma ClimbToParent(f: Combine, s: seq<Hash>, i: nat)
    requires i < |s|
    ensures i / 2 < |Up(f, s)| && Climb(f, s[i], Sibling(s, i)) == Up(f, s)[i / 2]
  {
    assert i % 2 == 1 ==> i - 1 == 2 * (i / 2);
  }

  /** Every generated proof leads from its leaf to the root. */
  lemma {:induction false} ProofVerifies(f: Combine, s: seq<Hash>, i: nat)
    requires i < |s|
    ensures Fold(f, s[i], Proof(f, s, i)) == Root(f, s)
    decreases |s|
  {
    if |s| > 1 {
      ClimbToParent(f, s, i);
      ProofVerifies(f, Up(f, s), i / 2);
      assert Proof(f, s, i)[1..] == Proof(f, Up(f, s), i / 2);
    }
  }

  ghost predicate Injective(f: Combine) {
    forall a, b, c, d :: f(a, b) == f(c, d) ==> a == c && b == d
  }

  // ----- proofs of any length and with any sides

  /** How often a list of n leaves is halved. */
  function Levels(n: nat): nat { if n <= 1 then 0 else 1 + Levels((n + 1) / 2) }

  function SidesOf(proof: seq<Side>): (r: seq<bool>)
    ensures |r| == |proof|
  {
    if proof == [] then [] else [proof[0].1] + SidesOf(proof[1..])
  }

  /** The position that the sides lead down to; an odd end stands on both sides of itself. */
  function Place(n: nat, sides: seq<bool>): (i: nat)
    requires 0 < n && |sides| == Levels(n)
    ensures i < n
  {
    if n == 1 then 0
    else
      var j := 2 * Place((n + 1) / 2, sides[1..]);
      if sides[0] || j + 1 == n then j else j + 1
  }

  /** What stands beside the path that the sides lead down. */
  function PathTo(f: Combine, s: seq<Hash>, sides: seq<bool>): seq<Side>
    requires s != [] && |sides| == Levels(|s|)
    decreases |s|
  {
    if |s| == 1 then []
    else
      var j := 2 * Place((|s| + 1) / 2, sides[1..]);
      [(if sides[0] then Right(s, j) else s[j], sides[0])] + PathTo(f, Up(f, s), sides[1..])
  }

  /** The leaf at the position that the proof's sides lead to, and what stands beside the path there. */
  ghost predicate Belongs(f: Combine, s: seq<Hash>, x: Hash, proof: seq<Side>)
    requires s != []
  {
    var sides := SidesOf(proof);
    |proof| == Levels(|s|) && x == s[Place(|s|, sides)] && proof == PathTo(f, s, sides)
  }

  lemma ClimbIff(f: Combine, x: Hash, p: Side, a: Hash, b: Hash)
    requires Injective(f)
    ensures Climb(f, x, p) == f(a, b) <==> (x, p.0) == if p.1 then (a, b) else (b, a)
  {
  }

  lemma BelongsAbove(f: Combine, s: seq<Hash>, x: Hash, proof: seq<Side>)
    requires |s| > 1 && |proof| == Levels(|s|)
    ensures var up, rest := Up(f, s), proof[1..];
            var j := 2 * Place(|up|, SidesOf(rest));
            Belongs(f, s, x, proof) <==>
              && (x, proof[0].0) == (if proof[0].1 then (s[j], Right(s, j)) else (Right(s, j), s[j]))
              && rest == PathTo(f, up, SidesOf(rest))
  {
    hide Up, Climb, Fold, Root;
    var rest := proof[1..];
    assert proof == [proof[0]] + rest && SidesOf(proof) == [proof[0].1] + SidesOf(rest);
    var path := PathTo(f, s, SidesOf(proof));
    assert path[1..] == PathTo(f, Up(f, s), SidesOf(rest)) && path == [path[0]] + path[1..];
  }

  lemma ProofParts(f: Combine, s: seq<Hash>, i: nat)
    requires i < |s| && |s| > 1
    ensures var proof, rest := Proof(f, s, i), Proof(f, Up(f, s), i / 2);
            && i / 2 < |Up(f, s)| == (|s| + 1) / 2
            && proof[0] == Sibling(s, i) && proof[1..] == rest
            && SidesOf(proof) == [i % 2 == 0] + SidesOf(rest)
  {
    assert Proof(f, s, i) == [Sibling(s, i)] + Proof(f, Up(f, s), i / 2);
  }

  /** The sides of a generated proof lead down to its position. */
  lemma {:induction false} ProofPlace(f: Combine, s: seq<Hash>, i: nat)
    requires i < |s|
    ensures |Proof(f, s, i)| == Levels(|s|) && Place(|s|, SidesOf(Proof(f, s, i))) == i
    decreases |s|
  {
    if |s| > 1 {
      ProofParts(f, s, i);
      ProofPlace(f, Up(f, s), i / 2);
      hide Up, Proof, SidesOf, Sibling;
    }
  }

  /** And a generated proof is the path there. */
  lemma {:induction false} ProofBelongs(f: Combine, s: seq<Hash>, i: nat)
    requires i < |s|
    ensures Belongs(f, s, s[i], Proof(f, s, i))
    decreases |s|
  {
    ProofPlace(f, s, i);
    if |s| > 1 {
      var up := Up(f, s);
      ProofParts(f, s, i);
      ProofBelongs(f, up, i / 2);
      ProofPlace(f, up, i / 2);
      BelongsAbove(f, s, s[i], Proof(f, s, i));
      hide Up, Proof, PathTo, SidesOf, Place, Levels;
    }
  }

  /** A proof of the right length, its sides whatever they are, leads to the root just if it belongs there. */
  lemma {:induction false} RightLength(f: Combine, s: seq<Hash>, x: Hash, proof: seq<Side>)
    requires Injective(f) && s != [] && |proof| == Levels(|s|)
    ensures Fold(f, x, proof) == Root(f, s) <==> Belongs(f, s, x, proof)
    decreases |s|
  {
    if |s| > 1 {
      hide Injective, Climb, PathTo, SidesOf, Place;
      var up, rest := Up(f, s), proof[1..];
      var q := Place(|up|, SidesOf(rest));
      RightLength(f, up, Climb(f, x, proof[0]), rest);
      ClimbIff(f, x, proof[0], s[2 * q], Right(s, 2 * q));
      BelongsAbove(f, s, x, proof);
    } else {
      assert PathTo(f, s, SidesOf(proof)) == proof == [];
    }
  }

  /** A value of the combining hash, which no transaction id is. */
  ghost predicate IsNode(f: Combine, h: Hash) { exists x, y :: f(x, y) == h }

  ghost predicate PlainLeaves(f: Combine, s: seq<Hash>) { forall i :: 0 <= i < |s| ==> !IsNode(f, s[i]) }

  /** A shorter one starts above the leaves. */
  lemma {:induction false} TooShort(f: Combine, s: seq<Hash>, x: Hash, proof: seq<Side>)
    requires Injective(f) && |proof| < Levels(|s|) && Fold(f, x, proof) == Root(f, s)
    ensures IsNode(f, x)
    decreases |s|
  {
    var up := Up(f, s);
    if |proof| < Levels(|up|) {
      TooShort(f, up, x, proof);
    } else {
      RightLength(f, up, x, proof);
      var j :| 0 <= j < |up| && up[j] == x;
      assert f(s[2 * j], Right(s, 2 * j)) == x;
    }
  }

  /** A longer one makes a leaf a value of the hash. */
  lemma {:induction false} TooLong(f: Combine, s: seq<Hash>, x: Hash, proof: seq<Side>)
    requires Injective(f) && s != [] && |proof| > Levels(|s|) && Fold(f, x, proof) == Root(f, s)
    ensures !PlainLeaves(f, s)
    decreases |proof|
  {
    var y := Climb(f, x, proof[0]);
    if |proof| - 1 > Levels(|s|) {
      TooLong(f, s, y, proof[1..]);
    } else {
      RightLength(f, s, y, proof[1..]);
      assert IsNode(f, y);
    }
  }

  /** The empty list has the root of the list of the zero hash, which stands for it. */
  function OrZero(s: seq<Hash>): seq<Hash> { if s == [] then [ZERO] else s }

  /** Whatever proof is offered, for a leaf it is accepted exactly if it belongs to a position that holds the leaf. */
  lemma AcceptedIffBelongs(f: Combine, s: seq<Hash>, x: Hash, proof: seq<Side>)
    requires Injective(f) && PlainLeaves(f, OrZero(s)) && !IsNode(f, x)
    ensures Fold(f, x, proof) == Root(f, s) <==> Belongs(f, OrZero(s), x, proof)
  {
    var t := OrZero(s);
    assert Root(f, t) == Root(f, s) && Levels(|t|) == Levels(|s|);
    if |proof| == Levels(|s|) {
      RightLength(f, t, x, proof);
    } else if Fold(f, x, proof) == Root(f, t) {
      if |proof| < Levels(|s|) {
        TooShort(f, t, x, proof);
      } else {
        TooLong(f, t, x, proof);
      }
    }
  }

  /** So a leaf has an accepted proof exactly if it is in the list. */
  lemma AcceptedIffListed(f: Combine, s: seq<Hash>, x: Hash)
    requires Injective(f) && PlainLeaves(f, OrZero(s)) && !IsNode(f, x)
    ensures (exists proof :: Fold(f, x, proof) == Root(f, s)) <==> x in OrZero(s)
  {
    var t := OrZero(s);
    assert Root(f, t) == Root(f, s);
    forall proof | Fold(f, x, proof) == Root(f, s)
      ensures x in t
    {
      AcceptedIffBelongs(f, s, x, proof);
    }
    if x in t {
      var i :| 0 <= i < |t| && t[i] == x;
      ProofVerifies(f, t, i);
    }
  }

  // ----- when two roots agree

  /** The left, or the right, entries of the first n pairs. */
  function Half(s: seq<Hash>, n: nat, right: bool): (r: seq<Hash>)
    requires 2 * n <= |s| + 1
    ensures |r| == n && forall j :: 0 <= j < n ==> r[j] == if right then Right(s, 2 * j) else s[2 * j]
  {
    if n == 0 then [] else Half(s, n - 1, right) + [if right then Right(s, 2 * n - 2) else s[2 * n - 2]]
  }

  function Lefts(s: seq<Hash>): (r: seq<Hash>)
    ensures |r| == (|s| + 1) / 2
  {
    Half(s, (|s| + 1) / 2, false)
  }

  function Rights(s: seq<Hash>): (r: seq<Hash>)
    ensures |r| == (|s| + 1) / 2
  {
    Half(s, (|s| + 1) / 2, true)
  }

  /** The same leaf in every place of the tree, the repeated last ones included. No hash is computed. */
  predicate SameLeaves(a: seq<Hash>, b: seq<Hash>)
    decreases |a| + |b|
  {
    if |a| <= 1 || |b| <= 1 then a == b
    else SameLeaves(Lefts(a), Lefts(b)) && SameLeaves(Rights(a), Rights(b))
  }

  /** `u` combines `l` and `r` entry by entry. */
  ghost predicate Zips(f: Combine, u: seq<Hash>, l: seq<Hash>, r: seq<Hash>) {
    |u| == |l| == |r| && forall j :: 0 <= j < |u| ==> u[j] == f(l[j], r[j])
  }

  lemma ZipsHalf(f: Combine, u: seq<Hash>, l: seq<Hash>, r: seq<Hash>)
    requires Zips(f, u, l, r)
    ensures Zips(f, Lefts(u), Lefts(l), Lefts(r)) && Zips(f, Rights(u), Rights(l), Rights(r))
    ensures |Lefts(u)| == |Rights(u)| == (|u| + 1) / 2
  {
  }

  lemma {:induction false} ZipsAgree(f: Combine, u: seq<Hash>, l: seq<Hash>, r: seq<Hash>,
                                     v: seq<Hash>, m: seq<Hash>, q: seq<Hash>)
    requires Injective(f) && Zips(f, u, l, r) && Zips(f, v, m, q)
    requires u != [] && v != [] && Levels(|u|) == Levels(|v|)
    ensures SameLeaves(u, v) <==> SameLeaves(l, m) && SameLeaves(r, q)
    decreases |u|
  {
    if |u| <= 1 {
      assert |v| == 1 && u == [f(l[0], r[0])] && v == [f(m[0], q[0])];
      assert l == [l[0]] && m == [m[0]] && r == [r[0]] && q == [q[0]];
    } else {
      hide Zips, Lefts, Rights, Injective;
      ZipsHalf(f, u, l, r);
      ZipsHalf(f, v, m, q);
      SameLength(f, u, l, r);
      SameLength(f, v, m, q);
      ZipsAgree(f, Lefts(u), Lefts(l), Lefts(r), Lefts(v), Lefts(m), Lefts(q));
      ZipsAgree(f, Rights(u), Rights(l), Rights(r), Rights(v), Rights(m), Rights(q));
    }
  }

  lemma SameLength(f: Combine, u: seq<Hash>, l: seq<Hash>, r: seq<Hash>)
    requires Zips(f, u, l, r)
    ensures |u| == |l| == |r|
  {
  }

  lemma {:induction false} TreesAgreeIff(f: Combine, a: seq<Hash>, b: seq<Hash>)
    requires Injective(f) && a != [] && b != [] && Levels(|a|) == Levels(|b|)
    ensures Root(f, a) == Root(f, b) <==> SameLeaves(a, b)
    decreases |a|
  {
    if |a| > 1 {
      assert Zips(f, Up(f, a), Lefts(a), Rights(a)) && Zips(f, Up(f, b), Lefts(b), Rights(b));
      hide Up, Zips, Lefts, Rights;
      TreesAgreeIff(f, Up(f, a), Up(f, b));
      ZipsAgree(f, Up(f, a), Lefts(a), Rights(a), Up(f, b), Lefts(b), Rights(b));
    }
  }

  /** Lists of equally many levels have equal roots exactly if they have the same leaves. */
  lemma RootsAgreeIff(f: Combine, a: seq<Hash>, b: seq<Hash>)
    requires Injective(f) && Levels(|a|) == Levels(|b|)
    ensures Root(f, a) == Root(f, b) <==> SameLeaves(OrZero(a), OrZero(b))
  {
    assert Root(f, OrZero(a)) == Root(f, a) && Root(f, OrZero(b)) == Root(f, b);
    TreesAgreeIff(f, OrZero(a), OrZero(b));
  }

  /** And if no leaf is a value of the hash, the root tells the number of levels as well. */
  lemma RootsAgree(f: Combine, a: seq<Hash>, b: seq<Hash>)
    requires Injective(f) && PlainLeaves(f, OrZero(a)) && PlainLeaves(f, OrZero(b))
    ensures Root(f, a) == Root(f, b) <==> Levels(|a|) == Levels(|b|) && SameLeaves(OrZero(a), OrZero(b))
  {
    if Levels(|a|) == Levels(|b|) {
      RootsAgreeIff(f, a, b);
    } else if Root(f, a) == Root(f, b) {
      var t := OrZero(a);
      assert Root(f, t) == Root(f, a) && Levels(|t|) == Levels(|a|);
      ProofVerifies(f, t, 0);
      ProofBelongs(f, t, 0);
      AcceptedIffBelongs(f, b, t[0], Proof(f, t, 0));
    }
  }

  lemma HalvesDetermine(a: seq<Hash>, b: seq<Hash>)
    requires |a| == |b| && Lefts(a) == Lefts(b) && Rights(a) == Rights(b)
    ensures a == b
  {
    forall i | 0 <= i < |a|
      ensures a[i] == b[i]
    {
      var j := i / 2;
      if i % 2 == 0 {
        assert a[i] == Lefts(a)[j] && b[i] == Lefts(b)[j];
      } else {
        assert a[i] == Rights(a)[j] && b[i] == Rights(b)[j];
      }
    }
  }

  lemma {:induction false} SameLeavesOfOneLength(a: seq<Hash>, b: seq<Hash>)
    requires |a| == |b|
    ensures SameLeaves(a, b) <==> a == b
    decreases |a|
  {
    hide Lefts, Rights;
    if |a| > 1 {
      SameLeavesOfOneLength(Lefts(a), Lefts(b));
      SameLeavesOfOneLength(Rights(a), Rights(b));
      if Lefts(a) == Lefts(b) && Rights(a) == Rights(b) {
        HalvesDetermine(a, b);
      }
    }
  }

  /** Lists of one length are told apart by their roots. */
  lemma RootDeterminesList(f: Combine, a: seq<Hash>, b: seq<Hash>)
    requires Injective(f) && |a| == |b|
    ensures Root(f, a) == Root(f, b) <==> a == b
  {
    if a != [] {
      RootsAgreeIff(f, a, b);
      SameLeavesOfOneLength(a, b);
    }
  }

  function Padded(s: seq<Hash>): seq<Hash> { if |s| % 2 != 0 then s + [s[|s| - 1]] else s }

  lemma PaddedUp(f: Combine, s: seq<Hash>)
    ensures Up(f, Padded(s)) == Up(f, s)
  {
    var a, b := Up(f, Padded(s)), Up(f, s);
    forall j | 0 <= j < |b|
      ensures a[j] == b[j]
    {
      assert Padded(s)[2 * j] == s[2 * j] && Right(Padded(s), 2 * j) == Right(s, 2 * j);
    }
  }

  /** One turn of the proof loop; `whole` is the finished proof. */
  lemma ProofTurn(f: Combine, whole: seq<Side>, proof: seq<Side>, s: seq<Hash>, i: nat)
    requires |s| > 1 && i < |s| && whole == proof + Proof(f, s, i)
    ensures whole == proof + [Sibling(s, i)] + Proof(f, Up(f, s), i / 2)
  {
    hide Up, Sibling;
  }

  function Partner(i: nat): nat { if i % 2 == 0 then i + 1 else i - 1 }

  /** The proof loop looks for the sibling in the padded level. */
  lemma SiblingInPadded(f: Combine, s: seq<Hash>, i: nat)
    requires i < |s|
    ensures Partner(i) < |Padded(s)| && Sibling(s, i) == (Padded(s)[Partner(i)], i % 2 == 0)
    ensures i / 2 < |Up(f, s)| && (|s| > 1 ==> |Up(f, s)| < |s|)
  {
  }

  /** Of lists of different lengths this is not so: repeating the last of an odd number keeps the root. */
  lemma RepeatedLastKeepsRoot(f: Combine, s: seq<Hash>)
    requires |s| > 1
    ensures Root(f, Padded(s)) == Root(f, s) && (|s| % 2 != 0 ==> Padded(s) != s)
  {
    PaddedUp(f, s);
  }

  /** The last entry is pushed once more onto an odd level. */
  method Pad(s: seq<Hash>) returns (r: seq<Hash>)
    ensures r == Padded(s) && |r| % 2 == 0
  {
    r := s;
    if |s| % 2 != 0 {
      r := r + [s[|s| - 1]];
    }
  }

  /** The pairwise loop over a list of even length. */
  method CombinePairs(f: Combine, s: seq<Hash>) returns (next: seq<Hash>)
    requires |s| % 2 == 0
    ensures next == Up(f, s)
  {
    next := [];
    var i := 0;
    while i < |s|
      invariant 0 <= i <= |s| && i % 2 == 0 && |next| == i / 2
      invariant forall j :: 0 <= j < |next| ==> next[j] == Up(f, s)[j]
    {
      next := next + [f(s[i], s[i + 1])];
      i := i + 2;
    }
  }

  method ComputeMerkleRoot(f: Combine, hashes: seq<Hash>) returns (r: Hash)
    ensures r == Root(f, hashes)
  {
    if hashes == [] {
      return ZERO;
    }
    if |hashes| == 1 {
      return hashes[0];
    }
    hide Up, Padded;
    var level := hashes;
    while |level| > 1
      invariant level != [] && Root(f, level) == Root(f, hashes)
      decreases |level|
    {
      PaddedUp(f, level);
      level := Pad(level);
      level := CombinePairs(f, level);
    }
    return level[0];
  }

  method ComputeMerkleProof(f: Combine, hashes: seq<Hash>, index: nat) returns (proof: seq<Side>)
    ensures proof == Proof(f, hashes, index)
  {
    if |hashes| <= 1 || index >= |hashes| {
      return [];
    }
    hide Proof, Pairs, Up, Sibling, Padded, Right, Partner;
    proof := [];
    var level: seq<Hash>, i: nat := hashes, index;
    ghost var whole := Proof(f, hashes, index);
    while |level| > 1
      invariant i < |level| && whole == proof + Proof(f, level, i)
      decreases |level|
    {
      ProofTurn(f, whole, proof, level, i);
      SiblingInPadded(f, level, i);
      PaddedUp(f, level);
      level := Pad(level);
      proof := proof + [(level[Partner(i)], i % 2 == 0)];
      level := CombinePairs(f, level);
      i := i / 2;
    }
    SingleHasNoProof(f, level, i);
  }

  lemma SingleHasNoProof(f: Combine, s: seq<Hash>, i: nat)
    requires |s| <= 1
    ensures Proof(f, s, i) == []
  {
  }

  method VerifyMerkleProof(f: Combine, root: Hash, txid: Hash, proof: seq<Side>) returns (r: bool)
    ensures r <==> Fold(f, txid, proof) == root
  {
    var current: Hash, i := txid, 0;
    while i < |proof|
      invariant 0 <= i <= |proof| && Fold(f, txid, proof) == Fold(f, current, proof[i..])
    {
      assert proof[i..][1..] == proof[i + 1..];
      current := if proof[i].1 then f(current, proof[i].0) else f(proof[i].0, current);
      i := i + 1;
    }
    return current == root;
  }

  /** The state tree's builder pads nothing and pairs the last leaf with itself: the same root on every list. */
  method BuildMerkleTree(f: Combine, leaves: seq<Hash>) returns (r: Hash)
    ensures r == Root(f, leaves)
  {
    if leaves == [] {
      return ZERO;
    }
    if |leaves| == 1 {
      return leaves[0];
    }
    var level := leaves;
    while |level| > 1
      invariant level != [] && Root(f, level) == Root(f, leaves)
      decreases |level|
    {
      var next, i := [], 0;
      while i < |level|
        invariant 0 <= i <= |level| + 1 && i % 2 == 0 && |next| == i / 2
        invariant forall j :: 0 <= j < |next| ==> next[j] == Up(f, level)[j]
      {
        var left := level[i];
        var right := if i + 1 < |level| then level[i + 1] else left;
        next := next + [f(left, right)];
        i := i + 2;
      }
      assert next == Up(f, level);
      level := next;
    }
    return level[0];
  }
}
