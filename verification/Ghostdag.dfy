/**
 GhostDAG records (crates/zentra-consensus/src/ghostdag.rs): what every DAG that is built
 parents-first satisfies.  Scores are unbounded here; a u64 score would need 2^64 blocks to wrap.
 */
module Ghostdag {
  import opened Types

  datatype GhostdagData = GhostdagData(
    blueScore: nat, blueWork: nat, selectedParent: Hash, blues: seq<Hash>, reds: seq<Hash>)

  type Records = map<Hash, GhostdagData>

  const GENESIS_DATA := GhostdagData(0, 0, ZERO, [], [])

  function Data(gd: Records, h: Hash): GhostdagData { if h in gd then gd[h] else GENESIS_DATA }

  /** The highest score wins, the last parent among equals. */
  function SelectParent(gd: Records, parents: seq<Hash>): Hash
    requires parents != []
  {
    var n := |parents| - 1;
    if n == 0 then parents[0]
    else
      var best := SelectParent(gd, parents[..n]);
      if Data(gd, parents[n]).blueScore >= Data(gd, best).blueScore then parents[n] else best
  }

  /** One level of the past, as the record of the block keeps it. */
  function Past(gd: Records, h: Hash): set<Hash> {
    var d := Data(gd, h);
    {d.selectedParent} + SeqSet(d.blues) + SeqSet(d.reds)
  }

  function AnticoneSize(gd: Records, h: Hash, blueSet: set<Hash>): nat { |blueSet - Past(gd, h) - {h}| }

  /** Blues, reds and the growing blue set after the first `n` candidates. */
  datatype Sorted = Sorted(blues: seq<Hash>, reds: seq<Hash>, blueSet: set<Hash>)

  ghost function Classify(gd: Records, sel: GhostdagData, others: seq<Hash>, n: nat, k: nat): Sorted
    requires n <= |others|
  {
    if n == 0 then Sorted([], [], {sel.selectedParent} + SeqSet(sel.blues))
    else
      var c, h := Classify(gd, sel, others, n - 1, k), others[n - 1];
      if AnticoneSize(gd, h, c.blueSet) <= k
      then Sorted(c.blues + [h], c.reds, c.blueSet + {h} + SeqSet(Data(gd, h).blues))
      else Sorted(c.blues, c.reds + [h], c.blueSet)
  }

  function Others(parents: seq<Hash>, selected: Hash): seq<Hash> {
    if parents == [] then []
    else
      var n := |parents| - 1;
      Others(parents[..n], selected) + if parents[n] != selected then [parents[n]] else []
  }

  ghost function Process(gd: Records, parents: seq<Hash>, k: nat): GhostdagData {
    if parents == [] then GENESIS_DATA
    else
      var selected := SelectParent(gd, parents);
      var sel := Data(gd, selected);
      var others := Others(parents, selected);
      var c := Classify(gd, sel, others, |others|, k);
      GhostdagData(sel.blueScore + 1 + |c.blues|, sel.blueWork + 1, selected, c.blues, c.reds)
  }

  method ClassifyMergeset(gd: Records, sel: GhostdagData, others: seq<Hash>, k: nat)
    returns (blues: seq<Hash>, reds: seq<Hash>)
    ensures var c := Classify(gd, sel, others, |others|, k); blues == c.blues && reds == c.reds
  {
    hide AnticoneSize, SeqSet;
    blues, reds := [], [];
    var blueSet := {sel.selectedParent} + SeqSet(sel.blues);
    var i := 0;
    while i < |others|
      invariant 0 <= i <= |others| && Sorted(blues, reds, blueSet) == Classify(gd, sel, others, i, k)
    {
      var parent := others[i];
      var size := EstimateAnticoneSize(gd, parent, blueSet);
      if size <= k {
        blues := blues + [parent];
        blueSet := blueSet + {parent} + SeqSet(Data(gd, parent).blues);
      } else {
        reds := reds + [parent];
      }
      i := i + 1;
    }
  }

  method EstimateAnticoneSize(gd: Records, block: Hash, blueSet: set<Hash>) returns (size: nat)
    ensures size == AnticoneSize(gd, block, blueSet) == |Unknown(gd, block, blueSet)|
  {
    hide SeqSet, Unknown, AnticoneSize;
    var d := Data(gd, block);
    var past := {d.selectedParent};
    NextInSet(d.blues, 0);
    var i := 0;
    while i < |d.blues|
      invariant 0 <= i <= |d.blues| && past == {d.selectedParent} + SeqSet(d.blues[..i])
    {
      NextInSet(d.blues, i);
      past := past + {d.blues[i]};
      i := i + 1;
    }
    assert d.blues[..i] == d.blues;
    NextInSet(d.reds, 0);
    i := 0;
    while i < |d.reds|
      invariant 0 <= i <= |d.reds| && past == {d.selectedParent} + SeqSet(d.blues) + SeqSet(d.reds[..i])
    {
      NextInSet(d.reds, i);
      past := past + {d.reds[i]};
      i := i + 1;
    }
    assert d.reds[..i] == d.reds;
    EstimateIs(gd, block, blueSet, past);
    size := |set b | b in blueSet && b !in past && b != block|;
  }

  lemma EstimateIs(gd: Records, block: Hash, blueSet: set<Hash>, past: set<Hash>)
    requires past == Past(gd, block)
    ensures |set b | b in blueSet && b !in past && b != block| == AnticoneSize(gd, block, blueSet)
    ensures AnticoneSize(gd, block, blueSet) == |Unknown(gd, block, blueSet)|
  {
    SizeIsUnknown(gd, block, blueSet);
    hide SeqSet, Past, Unknown;
    assert (set b | b in blueSet && b !in past && b != block) == blueSet - past - {block};
  }

  lemma NextInSet(s: seq<Hash>, i: nat)
    requires i <= |s|
    ensures SeqSet(s[..0]) == {} && (i < |s| ==> SeqSet(s[..i + 1]) == SeqSet(s[..i]) + {s[i]})
  {
  }

  method ProcessBlock(gd: Records, parents: seq<Hash>, k: nat) returns (d: GhostdagData)
    ensures d == Process(gd, parents, k)
  {
    if parents == [] {
      return GENESIS_DATA;
    }
    var selected := SelectParent(gd, parents);
    var sel := Data(gd, selected);
    var blues, reds := ClassifyMergeset(gd, sel, Others(parents, selected), k);
    return GhostdagData(sel.blueScore + 1 + |blues|, sel.blueWork + 1, selected, blues, reds);
  }

  // ----- one block

  lemma {:induction false} SelectedIsHighest(gd: Records, parents: seq<Hash>)
    requires parents != []
    ensures SelectParent(gd, parents) in parents
    ensures forall p :: p in parents ==> Data(gd, p).blueScore <= Data(gd, SelectParent(gd, parents)).blueScore
  {
    var n := |parents| - 1;
    if n > 0 {
      SelectedIsHighest(gd, parents[..n]);
      assert parents == parents[..n] + [parents[n]];
    }
  }

  /** The score on record, 0 without a record. */
  ghost function ScoreOf(gd: Records, h: Hash): nat { if h in gd then gd[h].blueScore else 0 }

  /** Among parents of one score the last is selected. */
  lemma {:induction false} SelectedIsLastHighest(gd: Records, parents: seq<Hash>) returns (j: nat)
    requires parents != []
    ensures j < |parents| && SelectParent(gd, parents) == parents[j]
    ensures forall i :: 0 <= i < j ==> ScoreOf(gd, parents[i]) <= ScoreOf(gd, parents[j])
    ensures forall i :: j < i < |parents| ==> ScoreOf(gd, parents[i]) < ScoreOf(gd, parents[j])
  {
    var n := |parents| - 1;
    if n == 0 {
      j := 0;
    } else {
      j := SelectedIsLastHighest(gd, parents[..n]);
      if ScoreOf(gd, parents[n]) >= ScoreOf(gd, parents[j]) {
        j := n;
      }
    }
  }

  lemma BagWithout(bag: multiset<Hash>, rest: multiset<Hash>, x: Hash, s: Hash)
    requires rest == bag[s := 0]
    ensures rest + (if x != s then multiset{x} else multiset{}) == (bag + multiset{x})[s := 0]
  {
  }

  /** Every other parent as often as it is named; the selected one not at all. */
  lemma {:induction false} OthersPartition(parents: seq<Hash>, selected: Hash)
    ensures multiset(Others(parents, selected)) == multiset(parents)[selected := 0]
  {
    if parents != [] {
      var n := |parents| - 1;
      OthersPartition(parents[..n], selected);
      BagWithout(multiset(parents[..n]), multiset(Others(parents[..n], selected)), parents[n], selected);
      assert parents == parents[..n] + [parents[n]];
      assert multiset(parents) == multiset(parents[..n]) + multiset{parents[n]};
    }
  }

  ghost predicate PartitionOf(c: Sorted, all: seq<Hash>) {
    multiset(c.blues) + multiset(c.reds) == multiset(all)
  }

  lemma PartitionStep(c: Sorted, d: Sorted, all: seq<Hash>, h: Hash)
    requires PartitionOf(c, all)
    requires (d.blues == c.blues + [h] && d.reds == c.reds) || (d.blues == c.blues && d.reds == c.reds + [h])
    ensures PartitionOf(d, all + [h])
  {
    if d.reds == c.reds {
      assert multiset(d.blues) == multiset(c.blues) + multiset{h};
    } else {
      assert multiset(d.reds) == multiset(c.reds) + multiset{h};
    }
  }

  lemma ClassifyStep(gd: Records, sel: GhostdagData, others: seq<Hash>, n: nat, k: nat)
    requires n < |others|
    ensures var c, d := Classify(gd, sel, others, n, k), Classify(gd, sel, others, n + 1, k);
            || (d.blues == c.blues + [others[n]] && d.reds == c.reds)
            || (d.blues == c.blues && d.reds == c.reds + [others[n]])
  {
  }

  lemma NothingClassified(gd: Records, sel: GhostdagData, others: seq<Hash>, k: nat)
    ensures PartitionOf(Classify(gd, sel, others, 0, k), others[..0])
  {
    hide AnticoneSize, SeqSet;
    assert others[..0] == [];
  }

  lemma {:induction false} ClassifyPartition(gd: Records, sel: GhostdagData, others: seq<Hash>, n: nat, k: nat)
    requires n <= |others|
    ensures PartitionOf(Classify(gd, sel, others, n, k), others[..n])
  {
    hide Classify, PartitionOf;
    if n == 0 {
      NothingClassified(gd, sel, others, k);
    } else {
      ClassifyPartition(gd, sel, others, n - 1, k);
      ClassifyStep(gd, sel, others, n - 1, k);
      assert others[..n] == others[..n - 1] + [others[n - 1]];
      PartitionStep(Classify(gd, sel, others, n - 1, k), Classify(gd, sel, others, n, k), others[..n - 1],
                    others[n - 1]);
    }
  }

  /** Candidate `j` passes the size test against the blue set as it stands at its turn. */
  ghost predicate Passes(gd: Records, sel: GhostdagData, others: seq<Hash>, j: nat, k: nat)
    requires j < |others|
  {
    AnticoneSize(gd, others[j], Classify(gd, sel, others, j, k).blueSet) <= k
  }

  /** A block is blue iff it passed at some turn of its own, and red iff it failed at one. */
  lemma {:induction false} BlueIff(gd: Records, sel: GhostdagData, others: seq<Hash>, n: nat, k: nat, h: Hash)
    requires n <= |others|
    ensures var c := Classify(gd, sel, others, n, k);
            && (h in c.blues <==> exists j :: 0 <= j < n && others[j] == h && Passes(gd, sel, others, j, k))
            && (h in c.reds <==> exists j :: 0 <= j < n && others[j] == h && !Passes(gd, sel, others, j, k))
  {
    hide AnticoneSize, SeqSet, Data;
    if n > 0 {
      BlueIff(gd, sel, others, n - 1, k, h);
    }
  }

  /** Named twice in a row a blue parent is blue twice, and so it counts twice in the score. */
  lemma RepeatIsBlueAgain(gd: Records, sel: GhostdagData, others: seq<Hash>, j: nat, k: nat)
    requires j + 1 < |others| && others[j + 1] == others[j] && Passes(gd, sel, others, j, k)
    ensures Passes(gd, sel, others, j + 1, k)
    ensures Classify(gd, sel, others, j + 2, k).blues == Classify(gd, sel, others, j, k).blues + [others[j], others[j]]
  {
    hide AnticoneSize, SeqSet, Data;
    RepeatedSize(gd, others[j], Classify(gd, sel, others, j, k).blueSet);
    assert Classify(gd, sel, others, j + 1, k).blues == Classify(gd, sel, others, j, k).blues + [others[j]];
  }

  lemma RepeatedSize(gd: Records, h: Hash, blueSet: set<Hash>)
    ensures AnticoneSize(gd, h, blueSet + {h} + SeqSet(Data(gd, h).blues)) == AnticoneSize(gd, h, blueSet)
  {
    assert blueSet + {h} + SeqSet(Data(gd, h).blues) - Past(gd, h) - {h} == blueSet - Past(gd, h) - {h};
  }

  // ----- one record, turn by turn

  /** The blocks of `s` that are neither `h`, nor its selected parent, nor among its blues and reds. */
  ghost function Unknown(gd: Records, h: Hash, s: set<Hash>): set<Hash> {
    set x | x in s && x != h
            && if h in gd then x != gd[h].selectedParent && x !in gd[h].blues && x !in gd[h].reds else x != ZERO
  }

  lemma SizeIsUnknown(gd: Records, h: Hash, s: set<Hash>)
    ensures AnticoneSize(gd, h, s) == |Unknown(gd, h, s)|
  {
    assert s - Past(gd, h) - {h} == Unknown(gd, h, s);
  }

  /**
   In the blue set at the turn of parent `i`: the selected block's own selected parent and blues, and each earlier
   parent that came out blue with its blues.
   */
  ghost predicate InBlueSet(gd: Records, selected: Hash, parents: seq<Hash>, blue: seq<nat>, i: int, x: Hash) {
    || (if selected in gd then x == gd[selected].selectedParent || x in gd[selected].blues else x == ZERO)
    || exists j :: j in blue && j < i && j < |parents|
         && (x == parents[j] || (parents[j] in gd && x in gd[parents[j]].blues))
  }

  /** `out` lists the parents at rising positions `at`, below `m`. */
  ghost predicate PickedAt(parents: seq<Hash>, at: seq<nat>, m: nat, out: seq<Hash>)
    requires m <= |parents|
  {
    && |out| == |at| && (forall j :: 0 <= j < |at| ==> at[j] < m && out[j] == parents[at[j]])
    && (forall i, j :: 0 <= i < j < |at| ==> at[i] < at[j])
  }

  /** Blue and red positions among the first `m` parents, `seen[i]` being the blue set at the turn of parent `i`. */
  ghost predicate Turns(gd: Records, selected: Hash, parents: seq<Hash>, m: nat, k: nat, blue: seq<nat>, red: seq<nat>,
                        seen: seq<set<Hash>>)
    requires m <= |parents|
  {
    && |seen| == m
    && (forall i :: 0 <= i < m ==>
          && (i in blue <==> parents[i] != selected && |Unknown(gd, parents[i], seen[i])| <= k)
          && (i in red <==> parents[i] != selected && |Unknown(gd, parents[i], seen[i])| > k))
    && (forall i, x :: 0 <= i < m ==> (x in seen[i] <==> InBlueSet(gd, selected, parents, blue, i, x)))
  }

  lemma {:induction false} ClassifyPrefix(gd: Records, sel: GhostdagData, a: seq<Hash>, x: Hash, n: nat, k: nat)
    requires n <= |a|
    ensures Classify(gd, sel, a + [x], n, k) == Classify(gd, sel, a, n, k)
  {
    hide AnticoneSize, SeqSet, Data;
    if n > 0 {
      ClassifyPrefix(gd, sel, a, x, n - 1, k);
    }
  }

  /** The sorted parents after the first `m`. */
  ghost function SortedTo(gd: Records, selected: Hash, parents: seq<Hash>, m: nat, k: nat): Sorted
    requires m <= |parents|
  {
    var others := Others(parents[..m], selected);
    Classify(gd, Data(gd, selected), others, |others|, k)
  }

  lemma SortedNext(gd: Records, selected: Hash, parents: seq<Hash>, m: nat, k: nat)
    requires m < |parents|
    ensures var c, d, h := SortedTo(gd, selected, parents, m, k), SortedTo(gd, selected, parents, m + 1, k), parents[m];
            d == if h == selected then c
                 else if |Unknown(gd, h, c.blueSet)| <= k
                 then Sorted(c.blues + [h], c.reds, c.blueSet + {h} + SeqSet(Data(gd, h).blues))
                 else Sorted(c.blues, c.reds + [h], c.blueSet)
  {
    hide AnticoneSize, SeqSet, Data, Unknown;
    var h, others := parents[m], Others(parents[..m], selected);
    assert parents[..m + 1][..m] == parents[..m];
    SizeIsUnknown(gd, h, SortedTo(gd, selected, parents, m, k).blueSet);
    if h == selected {
      assert others + [] == others;
    } else {
      ClassifyPrefix(gd, Data(gd, selected), others, h, |others|, k);
    }
  }

  lemma PickedNext(parents: seq<Hash>, at: seq<nat>, m: nat, out: seq<Hash>)
    requires m < |parents| && PickedAt(parents, at, m, out)
    ensures PickedAt(parents, at, m + 1, out) && PickedAt(parents, at + [m], m + 1, out + [parents[m]])
    ensures forall i :: i in at ==> i < m
  {
  }

  /** A position of turn `m` is of no account before, and at turn m + 1 it adds its parent and that one's blues. */
  lemma BlueSetNext(gd: Records, selected: Hash, parents: seq<Hash>, blue: seq<nat>, m: nat, i: int, x: Hash)
    requires m < |parents| && forall j :: j in blue ==> j < m
    ensures i <= m ==>
              (InBlueSet(gd, selected, parents, blue + [m], i, x) <==> InBlueSet(gd, selected, parents, blue, i, x))
    ensures InBlueSet(gd, selected, parents, blue, m + 1, x) <==> InBlueSet(gd, selected, parents, blue, m, x)
    ensures InBlueSet(gd, selected, parents, blue + [m], m + 1, x)
       <==> (InBlueSet(gd, selected, parents, blue, m, x) || x == parents[m] || x in Data(gd, parents[m]).blues)
  {
    assert m in blue + [m];
    assert forall j :: j in blue + [m] <==> j in blue || j == m;
  }

  lemma BlueSetsNext(gd: Records, selected: Hash, parents: seq<Hash>, blue: seq<nat>, m: nat, before: set<Hash>)
    requires m < |parents| && forall j :: j in blue ==> j < m
    requires forall x :: x in before <==> InBlueSet(gd, selected, parents, blue, m, x)
    ensures forall x :: x in before <==> InBlueSet(gd, selected, parents, blue, m + 1, x)
    ensures forall x :: x in before + {parents[m]} + SeqSet(Data(gd, parents[m]).blues) <==>
              InBlueSet(gd, selected, parents, blue + [m], m + 1, x)
  {
    hide InBlueSet;
    forall x
      ensures x in before <==> InBlueSet(gd, selected, parents, blue, m + 1, x)
      ensures x in before + {parents[m]} + SeqSet(Data(gd, parents[m]).blues) <==>
                InBlueSet(gd, selected, parents, blue + [m], m + 1, x)
    {
      BlueSetNext(gd, selected, parents, blue, m, m, x);
    }
  }

  lemma TurnsNext(gd: Records, selected: Hash, parents: seq<Hash>, m: nat, k: nat, blue: seq<nat>, red: seq<nat>,
                  seen: seq<set<Hash>>, now: set<Hash>)
    requires m < |parents| && Turns(gd, selected, parents, m, k, blue, red, seen)
    requires (forall j :: j in blue ==> j < m) && (forall j :: j in red ==> j < m)
    requires forall x :: x in now <==> InBlueSet(gd, selected, parents, blue, m, x)
    ensures var h, size := parents[m], |Unknown(gd, parents[m], now)|;
            Turns(gd, selected, parents, m + 1, k, if h != selected && size <= k then blue + [m] else blue,
                  if h != selected && size > k then red + [m] else red, seen + [now])
  {
    hide InBlueSet, Unknown;
    forall i, x | 0 <= i <= m
      ensures InBlueSet(gd, selected, parents, blue + [m], i, x) <==> InBlueSet(gd, selected, parents, blue, i, x)
    {
      BlueSetNext(gd, selected, parents, blue, m, i, x);
    }
  }

  lemma NoTurns(gd: Records, selected: Hash, parents: seq<Hash>, k: nat)
    ensures var c := SortedTo(gd, selected, parents, 0, k);
            && PickedAt(parents, [], 0, c.blues) && PickedAt(parents, [], 0, c.reds)
            && Turns(gd, selected, parents, 0, k, [], [], [])
            && forall x :: x in c.blueSet <==> InBlueSet(gd, selected, parents, [], 0, x)
  {
    assert Others(parents[..0], selected) == [];
  }

  lemma {:induction false} TurnByTurn(gd: Records, selected: Hash, parents: seq<Hash>, m: nat, k: nat)
    returns (blue: seq<nat>, red: seq<nat>, seen: seq<set<Hash>>)
    requires m <= |parents|
    ensures var c := SortedTo(gd, selected, parents, m, k);
            && PickedAt(parents, blue, m, c.blues) && PickedAt(parents, red, m, c.reds)
            && Turns(gd, selected, parents, m, k, blue, red, seen)
            && forall x :: x in c.blueSet <==> InBlueSet(gd, selected, parents, blue, m, x)
  {
    hide SortedTo, Unknown, Turns, PickedAt, InBlueSet, Data, SeqSet;
    if m == 0 {
      blue, red, seen := [], [], [];
      NoTurns(gd, selected, parents, k);
    } else {
      var h, c := parents[m - 1], SortedTo(gd, selected, parents, m - 1, k);
      blue, red, seen := TurnByTurn(gd, selected, parents, m - 1, k);
      SortedNext(gd, selected, parents, m - 1, k);
      PickedNext(parents, blue, m - 1, c.blues);
      PickedNext(parents, red, m - 1, c.reds);
      BlueSetsNext(gd, selected, parents, blue, m - 1, c.blueSet);
      TurnsNext(gd, selected, parents, m - 1, k, blue, red, seen, c.blueSet);
      seen := seen + [c.blueSet];
      if h != selected {
        if |Unknown(gd, h, c.blueSet)| <= k {
          blue := blue + [m - 1];
        } else {
          red := red + [m - 1];
        }
      }
    }
  }

  /**
   Main theorem on colours: a parent other than the selected one is blue exactly if at most k blocks of the blue
   set at its turn are unknown to its record, and blues and reds are listed in the order of the parents.
   */
  lemma RecordTurnByTurn(gd: Records, parents: seq<Hash>, k: nat)
    returns (blue: seq<nat>, red: seq<nat>, seen: seq<set<Hash>>)
    requires parents != []
    ensures var d := Process(gd, parents, k);
            && PickedAt(parents, blue, |parents|, d.blues) && PickedAt(parents, red, |parents|, d.reds)
            && Turns(gd, d.selectedParent, parents, |parents|, k, blue, red, seen)
            && d.blueScore == ScoreOf(gd, d.selectedParent) + 1 + |blue|
  {
    hide Classify, SelectParent, Turns;
    assert parents[..|parents|] == parents;
    blue, red, seen := TurnByTurn(gd, SelectParent(gd, parents), parents, |parents|, k);
  }

  // ----- the whole DAG

  datatype Dag = Dag(parents: map<Hash, seq<Hash>>, gd: Records)

  /** A new block with known parents; that one of them is named twice is checked nowhere. */
  ghost predicate CanInsert(d: Dag, h: Hash, parents: seq<Hash>) {
    && h != ZERO && h !in d.parents
    && (forall p :: p in parents ==> p in d.parents)
  }

  ghost function Insert(d: Dag, h: Hash, parents: seq<Hash>, k: nat): Dag {
    Dag(d.parents[h := parents], d.gd[h := Process(d.gd, parents, k)])
  }

  datatype Step = Step(h: Hash, parents: seq<Hash>)

  ghost function Build(steps: seq<Step>, k: nat): Dag {
    if steps == [] then Dag(map[], map[])
    else
      var n := |steps| - 1;
      Insert(Build(steps[..n], k), steps[n].h, steps[n].parents, k)
  }

  ghost predicate ParentsFirst(steps: seq<Step>, k: nat) {
    steps == []
    || var n := |steps| - 1;
       ParentsFirst(steps[..n], k) && CanInsert(Build(steps[..n], k), steps[n].h, steps[n].parents)
  }

  /** Every record is what processing its block's parents gives, now as when it was made. */
  ghost predicate Consistent(d: Dag, k: nat) {
    && d.gd.Keys == d.parents.Keys && ZERO !in d.parents
    && (forall h :: h in d.parents ==> ConsistentAt(d, h, k))
  }

  ghost predicate ConsistentAt(d: Dag, h: Hash, k: nat)
    requires h in d.parents
  {
    var ps := d.parents[h];
    && h in d.gd && d.gd[h] == Process(d.gd, ps, k)
    && (forall p :: p in ps ==> p in d.parents && p in d.gd)
  }

  /** Processing looks at the parents' records only, so later blocks do not change it. */
  lemma {:induction false} ProcessFrame(gd: Records, gd': Records, parents: seq<Hash>, k: nat)
    requires forall p :: p in parents ==> Data(gd, p) == Data(gd', p)
    ensures Process(gd, parents, k) == Process(gd', parents, k)
  {
    hide Classify;
    if parents != [] {
      SelectFrame(gd, gd', parents);
      var selected := SelectParent(gd, parents);
      SelectedIsHighest(gd, parents);
      OthersAreParents(parents, selected);
      var others := Others(parents, selected);
      ClassifyFrame(gd, gd', Data(gd, selected), others, |others|, k);
    }
  }

  lemma {:induction false} SelectFrame(gd: Records, gd': Records, parents: seq<Hash>)
    requires parents != [] && forall p :: p in parents ==> Data(gd, p) == Data(gd', p)
    ensures SelectParent(gd, parents) == SelectParent(gd', parents)
  {
    var n := |parents| - 1;
    if n > 0 {
      SelectFrame(gd, gd', parents[..n]);
      SelectedIsHighest(gd, parents[..n]);
    }
  }

  lemma {:induction false} OthersAreParents(parents: seq<Hash>, selected: Hash)
    ensures forall p :: p in Others(parents, selected) ==> p in parents && p != selected
  {
    if parents != [] {
      OthersAreParents(parents[..|parents| - 1], selected);
    }
  }

  lemma AnticoneFrame(gd: Records, gd': Records, h: Hash, blueSet: set<Hash>)
    requires Data(gd, h) == Data(gd', h)
    ensures AnticoneSize(gd, h, blueSet) == AnticoneSize(gd', h, blueSet)
  {
  }

  lemma {:induction false} ClassifyFrame(gd: Records, gd': Records, sel: GhostdagData, others: seq<Hash>, n: nat,
                                         k: nat)
    requires n <= |others| && forall p :: p in others ==> Data(gd, p) == Data(gd', p)
    ensures Classify(gd, sel, others, n, k) == Classify(gd', sel, others, n, k)
  {
    hide AnticoneSize, SeqSet;
    if n > 0 {
      ClassifyFrame(gd, gd', sel, others, n - 1, k);
      assert others[n - 1] in others;
      AnticoneFrame(gd, gd', others[n - 1], Classify(gd, sel, others, n - 1, k).blueSet);
    }
  }

  lemma {:induction false} InsertKeepsConsistent(d: Dag, h: Hash, parents: seq<Hash>, k: nat)
    requires Consistent(d, k) && CanInsert(d, h, parents)
    ensures Consistent(Insert(d, h, parents, k), k)
  {
    hide Process;
    var e := Insert(d, h, parents, k);
    forall g | g in e.parents
      ensures ConsistentAt(e, g, k)
    {
      if g != h {
        assert ConsistentAt(d, g, k);
      }
      ProcessFrame(d.gd, e.gd, e.parents[g], k);
    }
  }

  lemma {:induction false} BuildIsConsistent(steps: seq<Step>, k: nat)
    requires ParentsFirst(steps, k)
    ensures Consistent(Build(steps, k), k)
  {
    hide Process;
    if steps != [] {
      var n := |steps| - 1;
      BuildIsConsistent(steps[..n], k);
      InsertKeepsConsistent(Build(steps[..n], k), steps[n].h, steps[n].parents, k);
    }
  }

  /**
   Main theorem, first part: scores rise, and blues and reds are the parents but for the selected one, each
   as often as it is named.
   */
  lemma {:induction false} BlockStructure(d: Dag, h: Hash, k: nat)
    requires Consistent(d, k) && h in d.parents
    ensures forall p :: p in d.parents[h] ==> p in d.gd && d.gd[p].blueScore < d.gd[h].blueScore
    ensures d.parents[h] == [] <==> d.gd[h].selectedParent == ZERO
    ensures d.parents[h] != [] ==>
              && d.gd[h].selectedParent in d.parents[h]
              && multiset(d.gd[h].blues) + multiset(d.gd[h].reds)
                 == multiset(d.parents[h])[d.gd[h].selectedParent := 0]
  {
    hide AnticoneSize;
    assert ConsistentAt(d, h, k);
    var ps := d.parents[h];
    if ps != [] {
      SelectedIsHighest(d.gd, ps);
      var selected := SelectParent(d.gd, ps);
      OthersPartition(ps, selected);
      var others := Others(ps, selected);
      ClassifyPartition(d.gd, d.gd[selected], others, |others|, k);
      assert others[..|others|] == others;
    }
  }

  ghost predicate Once(bag: multiset<Hash>) { forall h :: bag[h] <= 1 }

  /**
   Selected parent, blues and reds partition the parents exactly if the selected one is named once, and
   among blues and reds no block occurs twice exactly if no other parent is named twice.
   */
  lemma PartitionIff(d: Dag, h: Hash, k: nat)
    requires Consistent(d, k) && h in d.parents && d.parents[h] != []
    ensures var r, bag := d.gd[h], multiset(d.parents[h]);
            && (bag == multiset{r.selectedParent} + (multiset(r.blues) + multiset(r.reds))
                <==> bag[r.selectedParent] == 1)
            && (Once(multiset(r.blues) + multiset(r.reds)) <==> forall p :: p != r.selectedParent ==> bag[p] <= 1)
  {
    hide ConsistentAt, Once;
    BlockStructure(d, h, k);
    var r := d.gd[h];
    BagOfOthers(multiset(d.parents[h]), multiset(r.blues) + multiset(r.reds), r.selectedParent);
  }

  lemma BagOfOthers(bag: multiset<Hash>, rest: multiset<Hash>, s: Hash)
    requires s in bag && rest == bag[s := 0]
    ensures bag == multiset{s} + rest <==> bag[s] == 1
    ensures Once(rest) <==> forall p :: p != s ==> bag[p] <= 1
  {
    assert forall p :: p != s ==> rest[p] == bag[p];
    assert (multiset{s} + rest)[s] == 1;
  }

  /** Repeating a parent raises the score: the same two parents, one of them named once or twice. */
  lemma RepeatedParentRaisesScore(k: nat)
    ensures var two := [Step(1, []), Step(7, [1]), Step(8, [1])];
            && ParentsFirst(two + [Step(9, [7, 8])], k) && ParentsFirst(two + [Step(9, [7, 7, 8])], k)
            && Build(two + [Step(9, [7, 8])], k).gd[9].blueScore == 3
            && Build(two + [Step(9, [7, 7, 8])], k).gd[9].blueScore == 4
  {
    var two := [Step(1, []), Step(7, [1]), Step(8, [1])];
    TwoSiblings(k);
    var d := Build(two, k);
    forall ps | ps == [7, 8] || ps == [7, 7, 8]
      ensures ParentsFirst(two + [Step(9, ps)], k) && Build(two + [Step(9, ps)], k) == Insert(d, 9, ps, k)
    {
      assert (two + [Step(9, ps)])[..3] == two;
    }
    SiblingScores(d.gd, k);
  }

  lemma TwoSiblings(k: nat)
    ensures var two := [Step(1, []), Step(7, [1]), Step(8, [1])];
            && ParentsFirst(two, k)
            && Build(two, k).parents == map[1 := [], 7 := [1], 8 := [1]]
            && 7 in Build(two, k).gd && Build(two, k).gd[7] == GhostdagData(1, 1, 1, [], [])
            && 8 in Build(two, k).gd && Build(two, k).gd[8] == GhostdagData(1, 1, 1, [], [])
  {
    var two := [Step(1, []), Step(7, [1]), Step(8, [1])];
    assert two[..2] == [Step(1, []), Step(7, [1])] && two[..2][..1] == [Step(1, [])] && two[..1][..0] == [];
    var one, seven := Build([Step(1, [])], k), Build(two[..2], k);
    assert [Step(1, [])][..0] == [];
    assert ParentsFirst([], k) && Build([], k) == Dag(map[], map[]);
    assert one == Dag(map[1 := []], map[1 := GENESIS_DATA]) && ParentsFirst([Step(1, [])], k);
    OnlyParent(one.gd, 1, k);
    assert seven == Insert(one, 7, [1], k) && ParentsFirst(two[..2], k);
    OnlyParent(seven.gd, 1, k);
    assert Build(two, k) == Insert(seven, 8, [1], k);
  }

  lemma OnlyParent(gd: Records, p: Hash, k: nat)
    ensures Process(gd, [p], k) == GhostdagData(Data(gd, p).blueScore + 1, Data(gd, p).blueWork + 1, p, [], [])
  {
    assert SelectParent(gd, [p]) == p && [p][..0] == [];
    assert Others([], p) == [] && Others([p], p) == [];
  }

  lemma SiblingScores(gd: Records, k: nat)
    requires 7 in gd && gd[7] == GhostdagData(1, 1, 1, [], [])
    requires 8 in gd && gd[8] == GhostdagData(1, 1, 1, [], [])
    ensures Process(gd, [7, 8], k).blueScore == 3 && Process(gd, [7, 7, 8], k).blueScore == 4
  {
    hide Classify, SelectParent, Others, AnticoneSize;
    SiblingChoice(gd);
    SiblingsAreBlue(gd, gd[8], k);
  }

  lemma SiblingChoice(gd: Records)
    requires 7 in gd && 8 in gd && gd[7].blueScore == gd[8].blueScore
    ensures SelectParent(gd, [7, 8]) == 8 && Others([7, 8], 8) == [7]
    ensures SelectParent(gd, [7, 7, 8]) == 8 && Others([7, 7, 8], 8) == [7, 7]
  {
    hide SelectParent, Others;
    NextParent(gd, [], 7, 8);
    NextParent(gd, [7], 7, 8);
    NextParent(gd, [7], 8, 8);
    NextParent(gd, [7, 7], 8, 8);
    assert [] + [7] == [7] && [7] + [7] == [7, 7] && [7] + [8] == [7, 8] && [7, 7] + [8] == [7, 7, 8];
  }

  lemma NextParent(gd: Records, ps: seq<Hash>, p: Hash, selected: Hash)
    ensures Others([], selected) == []
    ensures Others(ps + [p], selected) == Others(ps, selected) + if p != selected then [p] else []
    ensures SelectParent(gd, ps + [p])
         == if ps == [] || Data(gd, p).blueScore >= Data(gd, SelectParent(gd, ps)).blueScore then p
            else SelectParent(gd, ps)
  {
    assert (ps + [p])[..|ps|] == ps;
  }

  lemma SiblingsAreBlue(gd: Records, sel: GhostdagData, k: nat)
    requires 7 in gd && gd[7] == sel == GhostdagData(1, 1, 1, [], [])
    ensures Classify(gd, sel, [7], 1, k).blues == [7] && Classify(gd, sel, [7, 7], 2, k).blues == [7, 7]
  {
    SiblingHasNoAnticone(gd);
    StartOf(gd, sel, [7], k);
    StartOf(gd, sel, [7, 7], k);
    RepeatIsBlueAgain(gd, sel, [7, 7], 0, k);
    hide AnticoneSize, SeqSet, Data;
    assert Passes(gd, sel, [7], 0, k);
    assert Classify(gd, sel, [7], 1, k).blues == [] + [7];
  }

  lemma SiblingHasNoAnticone(gd: Records)
    requires 7 in gd && gd[7] == GhostdagData(1, 1, 1, [], [])
    ensures AnticoneSize(gd, 7, {1}) == 0
  {
    assert Past(gd, 7) == {1};
    assert {1} - {1} - {7} == {};
  }

  lemma StartOf(gd: Records, sel: GhostdagData, others: seq<Hash>, k: nat)
    requires sel.blues == []
    ensures Classify(gd, sel, others, 0, k) == Sorted([], [], {sel.selectedParent})
  {
    assert SeqSet<Hash>([]) == {};
  }

  /** The numbers from 10 on, n of them. */
  function Tens(n: nat): (s: seq<Hash>)
    ensures |s| == n && forall h :: h in s <==> 10 <= h < 10 + n
  {
    if n == 0 then [] else Tens(n - 1) + [9 + n]
  }

  lemma LastInSet(s: seq<Hash>, x: Hash)
    ensures SeqSet<Hash>([]) == {} && SeqSet(s + [x]) == SeqSet(s) + {x}
  {
  }

  lemma {:induction false} TensCount(n: nat)
    ensures |{2} + SeqSet<Hash>(Tens(n))| == n + 1
  {
    hide SeqSet;
    if n == 0 {
      NoTens();
    } else {
      TensCount(n - 1);
      TensNext(n);
      OneMore({2} + SeqSet<Hash>(Tens(n - 1)), 9 + n);
    }
  }

  lemma NoTens()
    ensures {2} + SeqSet<Hash>(Tens(0)) == {2}
  {
  }

  lemma TensNext(n: nat)
    requires n > 0
    ensures 9 + n !in {2} + SeqSet<Hash>(Tens(n - 1))
    ensures {2} + SeqSet<Hash>(Tens(n)) == ({2} + SeqSet<Hash>(Tens(n - 1))) + {9 + n}
  {
    assert 9 + n !in Tens(n - 1);
    LastInSet(Tens(n - 1), 9 + n);
  }

  lemma OneMore(s: set<Hash>, x: Hash)
    requires x !in s
    ensures |s + {x}| == |s| + 1
  {
  }

  lemma OneCandidate(gd: Records, sel: GhostdagData, h: Hash, start: set<Hash>, k: nat)
    requires start == {sel.selectedParent} + SeqSet(sel.blues)
    ensures var c := Classify(gd, sel, [h], 1, k);
            c.blues == (if |Unknown(gd, h, start)| <= k then [h] else [])
            && c.reds == (if |Unknown(gd, h, start)| <= k then [] else [h])
  {
    hide AnticoneSize, Unknown, SeqSet;
    SizeIsUnknown(gd, h, start);
    assert Classify(gd, sel, [h], 0, k) == Sorted([], [], start);
    assert [] + [h] == [h];
  }

  /**
   Block 4 knows only block 1, and the selected parent 3 brings n + 1 other blocks into the blue set: 4 is blue
   exactly if that is at most k, and so red for k + 1 of them.
   */
  lemma UnknownBlocksDecide(n: nat, k: nat)
    ensures var gd := map[3 := GhostdagData(n + 2, 2, 2, Tens(n), []), 4 := GhostdagData(1, 1, 1, [], [])];
            var d := Process(gd, [3, 4], k);
            && d.selectedParent == 3
            && d.blues == (if n + 1 <= k then [4] else []) && d.reds == (if n + 1 <= k then [] else [4])
            && d.blueScore == n + 3 + if n + 1 <= k then 1 else 0
  {
    var gd := map[3 := GhostdagData(n + 2, 2, 2, Tens(n), []), 4 := GhostdagData(1, 1, 1, [], [])];
    hide SelectParent, Others, SeqSet, Classify, Unknown, Tens;
    TensCount(n);
    NextParent(gd, [], 3, 3);
    NextParent(gd, [3], 4, 3);
    assert [] + [3] == [3] && [3] + [4] == [3, 4] && [] + [4] == [4];
    var start := {2} + SeqSet<Hash>(Tens(n));
    OneCandidate(gd, gd[3], 4, start, k);
    AllUnknown(gd, start, n);
  }

  lemma AllUnknown(gd: Records, start: set<Hash>, n: nat)
    requires 4 in gd && gd[4] == GhostdagData(1, 1, 1, [], []) && start == {2} + SeqSet<Hash>(Tens(n))
    ensures Unknown(gd, 4, start) == start
  {
  }

  lemma BuildNext(steps: seq<Step>, s: Step, k: nat)
    ensures Build([], k) == Dag(map[], map[]) && ParentsFirst([], k)
    ensures Build(steps + [s], k) == Insert(Build(steps, k), s.h, s.parents, k)
    ensures ParentsFirst(steps + [s], k) <==> ParentsFirst(steps, k) && CanInsert(Build(steps, k), s.h, s.parents)
  {
    assert (steps + [s])[..|steps|] == steps;
  }

  lemma TwoInARow(k: nat)
    ensures var steps := [Step(1, []), Step(2, [1])];
            && ParentsFirst(steps, k) && Build(steps, k).parents.Keys == {1, 2}
            && Data(Build(steps, k).gd, 1) == GENESIS_DATA
            && Data(Build(steps, k).gd, 2) == GhostdagData(1, 1, 1, [], [])
  {
    var one := [Step(1, [])];
    hide Build, ParentsFirst, Process;
    BuildNext([], Step(1, []), k);
    BuildNext(one, Step(2, [1]), k);
    assert [] + [Step(1, [])] == one && one + [Step(2, [1])] == [Step(1, []), Step(2, [1])];
    NoParents(map[], k);
    OnlyParent(Build(one, k).gd, 1, k);
  }

  lemma ThreeInARow(k: nat)
    ensures var steps := [Step(1, []), Step(2, [1]), Step(3, [2])];
            && ParentsFirst(steps, k) && Build(steps, k).parents.Keys == {1, 2, 3}
            && Data(Build(steps, k).gd, 1) == GENESIS_DATA
            && Data(Build(steps, k).gd, 3) == GhostdagData(2, 2, 2, [], [])
  {
    var two := [Step(1, []), Step(2, [1])];
    hide Build, ParentsFirst, Process;
    TwoInARow(k);
    BuildNext(two, Step(3, [2]), k);
    assert two + [Step(3, [2])] == [Step(1, []), Step(2, [1]), Step(3, [2])];
    OnlyParent(Build(two, k).gd, 2, k);
  }

  lemma NoParents(gd: Records, k: nat)
    ensures Process(gd, [], k) == GENESIS_DATA
  {
  }

  lemma FourBlocks(k: nat)
    ensures var steps := [Step(1, []), Step(2, [1]), Step(3, [2]), Step(4, [1])];
            && ParentsFirst(steps, k) && Build(steps, k).parents.Keys == {1, 2, 3, 4}
            && Data(Build(steps, k).gd, 3) == GhostdagData(2, 2, 2, [], [])
            && Data(Build(steps, k).gd, 4) == GhostdagData(1, 1, 1, [], [])
  {
    var three := [Step(1, []), Step(2, [1]), Step(3, [2])];
    hide Build, ParentsFirst, Process;
    ThreeInARow(k);
    BuildNext(three, Step(4, [1]), k);
    assert three + [Step(4, [1])] == [Step(1, []), Step(2, [1]), Step(3, [2]), Step(4, [1])];
    OnlyParent(Build(three, k).gd, 1, k);
  }

  lemma CanFollowFour(d: Dag)
    requires d.parents.Keys == {1, 2, 3, 4}
    ensures CanInsert(d, 5, [3, 4])
  {
  }

  /** The same in a built DAG with one unknown block: the score of 5 shows whether 4 came out blue. */
  lemma OneUnknownBlock(k: nat)
    ensures var steps := [Step(1, []), Step(2, [1]), Step(3, [2]), Step(4, [1]), Step(5, [3, 4])];
            && ParentsFirst(steps, k)
            && 5 in Build(steps, k).gd && Build(steps, k).gd[5].blueScore == if k >= 1 then 4 else 3
  {
    var four := [Step(1, []), Step(2, [1]), Step(3, [2]), Step(4, [1])];
    hide Build, ParentsFirst, Process;
    FourBlocks(k);
    CanFollowFour(Build(four, k));
    hide CanInsert, Data;
    BuildNext(four, Step(5, [3, 4]), k);
    assert four + [Step(5, [3, 4])] == [Step(1, []), Step(2, [1]), Step(3, [2]), Step(4, [1]), Step(5, [3, 4])];
    FifthScore(Build(four, k).gd, k);
  }

  lemma FifthScore(gd: Records, k: nat)
    requires Data(gd, 3) == GhostdagData(2, 2, 2, [], []) && Data(gd, 4) == GhostdagData(1, 1, 1, [], [])
    ensures Process(gd, [3, 4], k).blueScore == if k >= 1 then 4 else 3
  {
    hide Process;
    var only := map[3 := GhostdagData(2, 2, 2, [], []), 4 := GhostdagData(1, 1, 1, [], [])];
    UnknownBlocksDecide(0, k);
    assert Tens(0) == [];
    ProcessFrame(gd, only, [3, 4], k);
  }

  /** The selected chain of a record set, tip first. */
  ghost function SelectedPath(d: Dag, h: Hash, k: nat): seq<Hash>
    requires Consistent(d, k) && h in d.parents
    decreases d.gd[h].blueScore
  {
    BlockStructure(d, h, k);
    var next := d.gd[h].selectedParent;
    if next == ZERO then [h] else [h] + SelectedPath(d, next, k)
  }

  ghost function BluesMerged(d: Dag, path: seq<Hash>): nat
    requires forall h :: h in path ==> h in d.gd
  {
    if path == [] then 0 else |d.gd[path[0]].blues| + BluesMerged(d, path[1..])
  }

  /** Main theorem, second part: work counts the chain, and score minus work the blues merged along it. */
  lemma {:induction false} ScoreAndWork(d: Dag, h: Hash, k: nat)
    requires Consistent(d, k) && h in d.parents
    ensures var path := SelectedPath(d, h, k);
            && (forall g :: g in path ==> g in d.gd)
            && d.parents[path[|path| - 1]] == []
            && d.gd[h].blueWork == |path| - 1
            && d.gd[h].blueScore == d.gd[h].blueWork + BluesMerged(d, path)
    decreases d.gd[h].blueScore
  {
    hide Classify;
    BlockStructure(d, h, k);
    assert ConsistentAt(d, h, k);
    var next := d.gd[h].selectedParent;
    if next != ZERO {
      ScoreAndWork(d, next, k);
      assert ([h] + SelectedPath(d, next, k))[1..] == SelectedPath(d, next, k);
    } else {
      assert SelectedPath(d, h, k)[1..] == [];
    }
  }

  ghost predicate Selects(d: Dag, h: Hash, parent: Hash) {
    h in d.gd && parent == d.gd[h].selectedParent && parent != ZERO
  }

  /** The loop ends, and at a block without parents. */
  method GetSelectedChain(d: Dag, tip: Hash, k: nat) returns (chain: seq<Hash>)
    requires Consistent(d, k)
    ensures chain == if tip in d.parents then SelectedPath(d, tip, k) else [tip]
    ensures chain != [] && chain[0] == tip
    ensures forall i :: 0 < i < |chain| ==> Selects(d, chain[i - 1], chain[i])
    ensures var last := chain[|chain| - 1]; last in d.gd ==> d.gd[last].selectedParent == ZERO
  {
    hide Process, SeqSet;
    chain := [tip];
    var current := tip;
    ghost var done: seq<Hash> := [];
    while current in d.gd && d.gd[current].selectedParent != ZERO
      invariant chain == done + [current] && chain[0] == tip
      invariant forall i :: 0 < i < |chain| ==> Selects(d, chain[i - 1], chain[i])
      invariant tip in d.parents ==> current in d.parents
      invariant tip in d.parents ==> SelectedPath(d, tip, k) == done + SelectedPath(d, current, k)
      invariant tip !in d.parents ==> chain == [tip] && current == tip
      decreases if current in d.gd then d.gd[current].blueScore else 0
    {
      BlockStructure(d, current, k);
      assert ConsistentAt(d, current, k);
      var next := d.gd[current].selectedParent;
      assert SelectedPath(d, current, k) == [current] + SelectedPath(d, next, k);
      done := chain;
      chain := chain + [next];
      current := next;
    }
  }
}
