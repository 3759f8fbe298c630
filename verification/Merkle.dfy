/**
 Merkle trees over a list of hashes. The hash type and the function that combines two hashes
 are parameters: everything here holds for every combining function.
 */
module Merkle {

  /** The hash above positions 2i and 2i+1; an odd last hash is paired with itself. */
  function Parent<D>(pair: (D, D) -> D, hs: seq<D>, i: nat): D
    requires 2 * i < |hs|
  {
    pair(hs[2 * i], if 2 * i + 1 < |hs| then hs[2 * i + 1] else hs[2 * i])
  }

  function NextLevel<D>(pair: (D, D) -> D, hs: seq<D>): (up: seq<D>)
    ensures |up| == (|hs| + 1) / 2
    ensures forall i :: 0 <= i < |up| ==> up[i] == Parent(pair, hs, i)
  {
    seq((|hs| + 1) / 2, i requires 0 <= i < (|hs| + 1) / 2 => Parent(pair, hs, i))
  }

  function Root<D>(pair: (D, D) -> D, hs: seq<D>): D
    requires |hs| > 0
    decreases |hs|
  {
    if |hs| == 1 then hs[0] else Root(pair, NextLevel(pair, hs))
  }

  /** The height of the tree over n leaves. */
  function Levels(n: nat): nat {
    if n <= 1 then 0 else 1 + Levels((n + 1) / 2)
  }

  /** The level with its odd last element repeated. */
  function Padded<D>(hs: seq<D>): (p: seq<D>)
    ensures |p| % 2 == 0 && |hs| <= |p| <= |hs| + 1
  {
    if |hs| % 2 == 1 then hs + [hs[|hs| - 1]] else hs
  }

  function Sibling(i: nat): nat { if i % 2 == 0 then i + 1 else i - 1 }

  /** The inclusion proof: the sibling at every level. */
  function ProofFor<D>(pair: (D, D) -> D, hs: seq<D>, index: nat): seq<D>
    requires index < |hs|
    decreases |hs|
  {
    if |hs| == 1 then [] else
      [Padded(hs)[Sibling(index)]] + ProofFor(pair, NextLevel(pair, hs), index / 2)
  }

  /** What a verifier computes from a leaf, its position and its proof. */
  function Fold<D>(pair: (D, D) -> D, leaf: D, proof: seq<D>, index: nat): D
    decreases |proof|
  {
    if proof == [] then leaf else
      Fold(pair, if index % 2 == 0 then pair(leaf, proof[0]) else pair(proof[0], leaf), proof[1..], index / 2)
  }

  /** The proof generateMerkleProofForIndex produces: it halves the index twice per level. */
  function WrittenProof<D>(pair: (D, D) -> D, hs: seq<D>, index: nat): seq<D>
    decreases |hs|
  {
    if |hs| <= 1 then []
    else if index < |Padded(hs)| then
      [Padded(hs)[Sibling(index)]] + WrittenProof(pair, NextLevel(pair, hs), index / 2 / 2)
    else WrittenProof(pair, NextLevel(pair, hs), index / 2)
  }

  /** Combining a hash with its sibling gives the hash above it. */
  lemma {:induction false} StepToParent<D>(pair: (D, D) -> D, hs: seq<D>, index: nat)
    requires index < |hs|
    ensures Sibling(index) < |Padded(hs)|
    ensures (if index % 2 == 0 then pair(hs[index], Padded(hs)[Sibling(index)])
             else pair(Padded(hs)[Sibling(index)], hs[index])) == NextLevel(pair, hs)[index / 2]
  {
    var i := index / 2;
    assert NextLevel(pair, hs)[i] == Parent(pair, hs, i);
    if index % 2 == 0 {
      assert index == 2 * i;
    } else {
      assert index == 2 * i + 1;
    }
  }

  /** A leaf folded with its siblings gives the root, with one entry per level. */
  lemma {:induction false} ProofFoldsToRoot<D>(pair: (D, D) -> D, hs: seq<D>, index: nat)
    requires index < |hs|
    ensures Fold(pair, hs[index], ProofFor(pair, hs, index), index) == Root(pair, hs)
    ensures |ProofFor(pair, hs, index)| == Levels(|hs|)
    decreases |hs|
  {
    if |hs| > 1 {
      var up := NextLevel(pair, hs);
      var rest := ProofFor(pair, up, index / 2);
      ProofFoldsToRoot(pair, up, index / 2);
      StepToParent(pair, hs, index);
      assert ProofFor(pair, hs, index)[1..] == rest;
    }
  }

  /** The generated proof has one entry per level, at every position. */
  lemma {:induction false} WrittenProofLength<D>(pair: (D, D) -> D, hs: seq<D>, index: nat)
    requires index < |hs|
    ensures |WrittenProof(pair, hs, index)| == Levels(|hs|)
    decreases |hs|
  {
    if |hs| > 1 { WrittenProofLength(pair, NextLevel(pair, hs), index / 2 / 2); }
  }

  lemma {:induction false} WrittenProofAtFirstPair<D>(pair: (D, D) -> D, hs: seq<D>, index: nat)
    requires index < |hs| && index < 2
    ensures WrittenProof(pair, hs, index) == ProofFor(pair, hs, index)
    decreases |hs|
  {
    if |hs| > 1 {
      var up := NextLevel(pair, hs);
      WrittenProofAtFirstPair(pair, up, 0);
      assert index / 2 == 0 && index / 2 / 2 == 0;
    }
  }

  // ---------- when no two pairs collide ----------

  /** The pairs combined on one level. */
  ghost function LevelPairs<D>(hs: seq<D>): set<(D, D)> {
    set i | 0 <= i < (|hs| + 1) / 2 :: (hs[2 * i], if 2 * i + 1 < |hs| then hs[2 * i + 1] else hs[2 * i])
  }

  /** All pairs combined in the tree over a list. */
  ghost function TreePairs<D>(pair: (D, D) -> D, hs: seq<D>): set<(D, D)>
    decreases |hs|
  {
    if |hs| <= 1 then {} else LevelPairs(hs) + TreePairs(pair, NextLevel(pair, hs))
  }

  /** All pairs a verifier combines on the way up from a leaf. */
  ghost function FoldPairs<D>(pair: (D, D) -> D, leaf: D, proof: seq<D>, index: nat): set<(D, D)>
    decreases |proof|
  {
    if proof == [] then {} else
      var p := if index % 2 == 0 then (leaf, proof[0]) else (proof[0], leaf);
      {p} + FoldPairs(pair, pair(p.0, p.1), proof[1..], index / 2)
  }

  /** Different pairs among these have different combinations. */
  ghost predicate NoCollision<D>(pair: (D, D) -> D, ps: set<(D, D)>) {
    forall p, q :: p in ps && q in ps && pair(p.0, p.1) == pair(q.0, q.1) ==> p == q
  }

  ghost predicate Distinct<D>(hs: seq<D>) {
    forall i, j :: 0 <= i < j < |hs| ==> hs[i] != hs[j]
  }

  lemma {:induction false} PairOfLevel<D>(hs: seq<D>, i: nat)
    requires 2 * i < |hs|
    ensures (hs[2 * i], if 2 * i + 1 < |hs| then hs[2 * i + 1] else hs[2 * i]) in LevelPairs(hs)
  {
  }

  lemma {:induction false} LevelStaysDistinct<D>(pair: (D, D) -> D, hs: seq<D>)
    requires NoCollision(pair, LevelPairs(hs)) && Distinct(hs)
    ensures Distinct(NextLevel(pair, hs))
  {
    var up := NextLevel(pair, hs);
    forall i, j | 0 <= i < j < |up| ensures up[i] != up[j] {
      assert up[i] == Parent(pair, hs, i) && up[j] == Parent(pair, hs, j);
      PairOfLevel(hs, i);
      PairOfLevel(hs, j);
      assert hs[2 * i] != hs[2 * j];
    }
  }

  // ---------- exactly where the generated proof fails ----------

  /** A hash beside its sibling, in the order they are combined. */
  function BesideSibling<D>(hs: seq<D>, index: nat): (D, D)
    requires index < |hs| && Sibling(index) < |Padded(hs)|
  {
    var other := Padded(hs)[Sibling(index)];
    if index % 2 == 0 then (hs[index], other) else (other, hs[index])
  }

  lemma {:induction false} SiblingPair<D>(hs: seq<D>, index: nat)
    requires index < |hs|
    ensures Sibling(index) < |Padded(hs)| && BesideSibling(hs, index) in LevelPairs(hs)
  {
    var i := index / 2;
    PairOfLevel(hs, i);
    assert index == 2 * i || index == 2 * i + 1;
  }

  /** The proof for a position combines pairs of the tree only. */
  lemma {:induction false} ProofPairs<D>(pair: (D, D) -> D, hs: seq<D>, index: nat)
    requires index < |hs|
    ensures FoldPairs(pair, hs[index], ProofFor(pair, hs, index), index) <= TreePairs(pair, hs)
    decreases |hs|
  {
    if |hs| > 1 {
      var up, proof := NextLevel(pair, hs), ProofFor(pair, hs, index);
      StepToParent(pair, hs, index);
      SiblingPair(hs, index);
      var p := BesideSibling(hs, index);
      ProofPairs(pair, up, index / 2);
      var rest := ProofFor(pair, up, index / 2);
      assert proof[0] == Padded(hs)[Sibling(index)] && proof[1..] == rest;
      assert FoldPairs(pair, hs[index], proof, index) == {p} + FoldPairs(pair, up[index / 2], rest, index / 2);
    }
  }

  /** Different proofs of equal length fold to different values, unless two of the pairs combined collide. */
  lemma {:induction false} FoldIsInjective<D>(
      pair: (D, D) -> D, a: D, p: seq<D>, b: D, q: seq<D>, index: nat, ps: set<(D, D)>)
    requires NoCollision(pair, ps) && FoldPairs(pair, a, p, index) <= ps && FoldPairs(pair, b, q, index) <= ps
    requires |p| == |q| && Fold(pair, a, p, index) == Fold(pair, b, q, index)
    ensures a == b && p == q
    decreases |p|
  {
    if p != [] {
      var x := if index % 2 == 0 then (a, p[0]) else (p[0], a);
      var y := if index % 2 == 0 then (b, q[0]) else (q[0], b);
      assert x in FoldPairs(pair, a, p, index) && y in FoldPairs(pair, b, q, index);
      FoldIsInjective(pair, pair(x.0, x.1), p[1..], pair(y.0, y.1), q[1..], index / 2, ps);
      assert p == [p[0]] + p[1..] && q == [q[0]] + q[1..];
    }
  }

  lemma {:induction false} SiblingsDiffer<D>(up: seq<D>, i: nat, j: nat)
    requires Distinct(up) && i < j < |up| && |up| > 1
    ensures Padded(up)[Sibling(i)] != Padded(up)[Sibling(j)]
  {
    var p := Padded(up);
    assert Sibling(i) != Sibling(j);
    if Sibling(j) == |up| {
      assert p[Sibling(j)] == up[|up| - 1] && Sibling(i) < |up| - 1;
    } else {
      assert Sibling(i) < |up| && Sibling(j) < |up|;
    }
  }

  /** Past the first pair the second entry is already wrong. */
  lemma {:induction false} WrittenProofGoesWrong<D>(pair: (D, D) -> D, hs: seq<D>, index: nat)
    requires NoCollision(pair, LevelPairs(hs)) && Distinct(hs) && 2 <= index < |hs|
    ensures WrittenProof(pair, hs, index) != ProofFor(pair, hs, index)
  {
    var up := NextLevel(pair, hs);
    LevelStaysDistinct(pair, hs);
    SiblingsDiffer(up, index / 2 / 2, index / 2);
    var written, right := WrittenProof(pair, up, index / 2 / 2), ProofFor(pair, up, index / 2);
    assert written[0] != right[0];
    assert WrittenProof(pair, hs, index)[1..] == written;
    assert ProofFor(pair, hs, index)[1..] == right;
  }

  /**
   Over distinct leaves the generated proof leads to the root of these leaves exactly at positions 0 and 1,
   unless two of the pairs combined in the tree and on the way up collide.
   */
  lemma {:induction false} WrittenProofVerifiesIff<D>(pair: (D, D) -> D, hs: seq<D>, index: nat)
    requires index < |hs| && Distinct(hs)
    requires NoCollision(pair, TreePairs(pair, hs) +
                               FoldPairs(pair, hs[index], WrittenProof(pair, hs, index), index))
    ensures Fold(pair, hs[index], WrittenProof(pair, hs, index), index) == Root(pair, hs) <==> index < 2
  {
    ProofFoldsToRoot(pair, hs, index);
    WrittenProofLength(pair, hs, index);
    var written, right := WrittenProof(pair, hs, index), ProofFor(pair, hs, index);
    if index < 2 {
      WrittenProofAtFirstPair(pair, hs, index);
    } else {
      WrittenProofGoesWrong(pair, hs, index);
      ProofPairs(pair, hs, index);
      if Fold(pair, hs[index], written, index) == Root(pair, hs) {
        FoldIsInjective(pair, hs[index], written, hs[index], right, index,
                        TreePairs(pair, hs) + FoldPairs(pair, hs[index], written, index));
      }
    }
  }

  /** The smallest failing input, for every combining function: the third of three leaves. */
  lemma {:induction false} ThirdOfThree<D>(pair: (D, D) -> D, a: D, b: D, c: D)
    ensures WrittenProof(pair, [a, b, c], 2) == [c, pair(c, c)]
    ensures Root(pair, [a, b, c]) == pair(pair(a, b), pair(c, c))
    ensures Fold(pair, c, WrittenProof(pair, [a, b, c], 2), 2) == pair(pair(c, c), pair(c, c))
  {
    var hs, up, top := [a, b, c], [pair(a, b), pair(c, c)], [pair(pair(a, b), pair(c, c))];
    assert NextLevel(pair, hs) == up && NextLevel(pair, up) == top;
    assert Padded(hs) == [a, b, c, c] && Padded(up) == up;
    assert Root(pair, up) == Root(pair, top);
    assert WrittenProof(pair, top, 0) == [] && WrittenProof(pair, up, 0) == [pair(c, c)] + [];
    var proof := [c, pair(c, c)];
    assert proof[1..] == [pair(c, c)] && proof[1..][1..] == [];
    assert Fold(pair, pair(c, c), proof[1..], 1) == Fold(pair, pair(pair(c, c), pair(c, c)), proof[1..][1..], 0);
  }

  // ---------- what a root determines ----------

  lemma {:induction false} SubsetNoCollision<D>(pair: (D, D) -> D, ps: set<(D, D)>, qs: set<(D, D)>)
    requires ps <= qs && NoCollision(pair, qs)
    ensures NoCollision(pair, ps)
  {
  }

  /** Lists of equal length have the same root exactly when they are equal, unless pairs collide. */
  lemma {:induction false} SameLengthRootIff<D>(pair: (D, D) -> D, hs: seq<D>, ks: seq<D>)
    requires |hs| == |ks| > 0 && NoCollision(pair, TreePairs(pair, hs) + TreePairs(pair, ks))
    ensures Root(pair, hs) == Root(pair, ks) <==> hs == ks
    decreases |hs|
  {
    if |hs| > 1 {
      var up, vp := NextLevel(pair, hs), NextLevel(pair, ks);
      SubsetNoCollision(pair, TreePairs(pair, up) + TreePairs(pair, vp), TreePairs(pair, hs) + TreePairs(pair, ks));
      SameLengthRootIff(pair, up, vp);
      if up == vp { SameLevelBelow(pair, hs, ks); }
    }
  }

  lemma {:induction false} SameLevelBelow<D>(pair: (D, D) -> D, hs: seq<D>, ks: seq<D>)
    requires |hs| == |ks| && NoCollision(pair, LevelPairs(hs) + LevelPairs(ks))
    requires NextLevel(pair, hs) == NextLevel(pair, ks)
    ensures hs == ks
  {
    forall i | 0 <= i < |hs| ensures hs[i] == ks[i] {
      var j := i / 2;
      PairOfLevel(hs, j);
      PairOfLevel(ks, j);
      assert NextLevel(pair, hs)[j] == Parent(pair, hs, j) && NextLevel(pair, ks)[j] == Parent(pair, ks, j);
    }
  }

  /** No leaf is the combination of a pair. */
  ghost predicate LeavesApart<D>(pair: (D, D) -> D, hs: seq<D>, ps: set<(D, D)>) {
    forall h, p :: h in hs && p in ps ==> h != pair(p.0, p.1)
  }

  /** Nothing collides in the trees over two lists, and each list has no repetition. */
  ghost predicate Clear<D>(pair: (D, D) -> D, hs: seq<D>, ks: seq<D>) {
    var ps := TreePairs(pair, hs) + TreePairs(pair, ks);
    && Distinct(hs) && Distinct(ks) && NoCollision(pair, ps) && LeavesApart(pair, hs, ps) && LeavesApart(pair, ks, ps)
  }

  /** The leftmost node some levels up. */
  function LeftAt<D>(pair: (D, D) -> D, hs: seq<D>, level: nat): D
    requires |hs| > 0
    decreases level
  {
    if level == 0 then hs[0] else LeftAt(pair, NextLevel(pair, hs), level - 1)
  }

  lemma {:induction false} RootIsLeft<D>(pair: (D, D) -> D, hs: seq<D>)
    requires |hs| > 0
    ensures Root(pair, hs) == LeftAt(pair, hs, Levels(|hs|))
    decreases |hs|
  {
    if |hs| > 1 { RootIsLeft(pair, NextLevel(pair, hs)); }
  }

  /** The leftmost node of a level combines a pair whose left part is the leftmost node below. */
  lemma {:induction false} LeftStep<D>(pair: (D, D) -> D, hs: seq<D>, level: nat) returns (p: (D, D))
    requires |hs| > 0 && 0 < level <= Levels(|hs|)
    ensures p in TreePairs(pair, hs) && LeftAt(pair, hs, level) == pair(p.0, p.1)
    ensures p.0 == LeftAt(pair, hs, level - 1)
    decreases level
  {
    if level == 1 {
      p := (hs[0], hs[1]);
      PairOfLevel(hs, 0);
      assert NextLevel(pair, hs)[0] == Parent(pair, hs, 0);
    } else {
      p := LeftStep(pair, NextLevel(pair, hs), level - 1);
    }
  }

  /** Below equal leftmost nodes lie equal leftmost nodes. */
  lemma {:induction false} LeftBelow<D>(
      pair: (D, D) -> D, hs: seq<D>, a: nat, ks: seq<D>, b: nat, ps: set<(D, D)>)
    requires NoCollision(pair, ps) && TreePairs(pair, hs) <= ps && TreePairs(pair, ks) <= ps
    requires |hs| > 0 && |ks| > 0 && 0 < a <= Levels(|hs|) && 0 < b <= Levels(|ks|)
    requires LeftAt(pair, hs, a) == LeftAt(pair, ks, b)
    ensures LeftAt(pair, hs, a - 1) == LeftAt(pair, ks, b - 1)
  {
    var p := LeftStep(pair, hs, a);
    var q := LeftStep(pair, ks, b);
    assert p == q;
  }

  lemma {:induction false} LeafIsNotAbove<D>(pair: (D, D) -> D, hs: seq<D>, ks: seq<D>, b: nat, ps: set<(D, D)>)
    requires LeavesApart(pair, hs, ps) && TreePairs(pair, ks) <= ps
    requires |hs| > 0 && |ks| > 0 && 0 < b <= Levels(|ks|)
    ensures hs[0] != LeftAt(pair, ks, b)
  {
    var q := LeftStep(pair, ks, b);
    assert hs[0] in hs;
  }

  /** Equal leftmost nodes lie equally high. */
  lemma {:induction false} SameHeight<D>(
      pair: (D, D) -> D, hs: seq<D>, a: nat, ks: seq<D>, b: nat, ps: set<(D, D)>)
    requires NoCollision(pair, ps) && TreePairs(pair, hs) <= ps && TreePairs(pair, ks) <= ps
    requires LeavesApart(pair, hs, ps) && LeavesApart(pair, ks, ps)
    requires |hs| > 0 && |ks| > 0 && a <= Levels(|hs|) && b <= Levels(|ks|)
    requires LeftAt(pair, hs, a) == LeftAt(pair, ks, b)
    ensures a == b
    decreases a
  {
    if a == 0 {
      if b > 0 { LeafIsNotAbove(pair, hs, ks, b, ps); }
    } else if b == 0 {
      LeafIsNotAbove(pair, ks, hs, a, ps);
    } else {
      LeftBelow(pair, hs, a, ks, b, ps);
      SameHeight(pair, hs, a - 1, ks, b - 1, ps);
    }
  }

  lemma {:induction false} SameHeightRoot<D>(pair: (D, D) -> D, hs: seq<D>, ks: seq<D>)
    requires Distinct(hs) && Distinct(ks) && NoCollision(pair, TreePairs(pair, hs) + TreePairs(pair, ks))
    requires |hs| > 0 && |ks| > 0 && Levels(|hs|) == Levels(|ks|) && Root(pair, hs) == Root(pair, ks)
    ensures hs == ks
    decreases |hs|
  {
    if |hs| > 1 {
      var up, vp := NextLevel(pair, hs), NextLevel(pair, ks);
      var all := TreePairs(pair, hs) + TreePairs(pair, ks);
      SubsetNoCollision(pair, TreePairs(pair, up) + TreePairs(pair, vp), all);
      SubsetNoCollision(pair, LevelPairs(hs), all);
      SubsetNoCollision(pair, LevelPairs(ks), all);
      SubsetNoCollision(pair, LevelPairs(hs) + LevelPairs(ks), all);
      LevelStaysDistinct(pair, hs);
      LevelStaysDistinct(pair, ks);
      SameHeightRoot(pair, up, vp);
      SameLengthBelow(pair, hs, ks);
      SameLevelBelow(pair, hs, ks);
    }
  }

  /** Without repetitions, the level above tells whether the last one was doubled. */
  lemma {:induction false} SameLengthBelow<D>(pair: (D, D) -> D, hs: seq<D>, ks: seq<D>)
    requires Distinct(hs) && Distinct(ks) && NoCollision(pair, LevelPairs(hs) + LevelPairs(ks))
    requires |hs| > 0 && |ks| > 0 && NextLevel(pair, hs) == NextLevel(pair, ks)
    ensures |hs| == |ks|
  {
    var j := |NextLevel(pair, hs)| - 1;
    PairOfLevel(hs, j);
    PairOfLevel(ks, j);
    assert NextLevel(pair, hs)[j] == Parent(pair, hs, j) && NextLevel(pair, ks)[j] == Parent(pair, ks, j);
  }

  /** Lists of any lengths have the same root exactly when they are equal, if nothing collides in their trees. */
  lemma {:induction false} SameRootIff<D>(pair: (D, D) -> D, hs: seq<D>, ks: seq<D>)
    requires Clear(pair, hs, ks) && |hs| > 0 && |ks| > 0
    ensures Root(pair, hs) == Root(pair, ks) <==> hs == ks
  {
    if Root(pair, hs) == Root(pair, ks) {
      RootIsLeft(pair, hs);
      RootIsLeft(pair, ks);
      SameHeight(pair, hs, Levels(|hs|), ks, Levels(|ks|), TreePairs(pair, hs) + TreePairs(pair, ks));
      SameHeightRoot(pair, hs, ks);
    }
  }

  // ---------- the loops ----------

  /** One level of either loop: the padded level, combined two by two. */
  lemma {:induction false} PaddedPair<D>(pair: (D, D) -> D, hs: seq<D>, i: nat)
    requires 2 * i < |Padded(hs)|
    ensures 2 * i + 1 < |Padded(hs)| && i < |NextLevel(pair, hs)|
    ensures pair(Padded(hs)[2 * i], Padded(hs)[2 * i + 1]) == NextLevel(pair, hs)[i]
  {
    assert NextLevel(pair, hs)[i] == Parent(pair, hs, i);
  }

  /** Repeats the odd last hash, then combines neighbours, until one hash is left. */
  method CalculateMerkleRoot<D>(pair: (D, D) -> D, hashes: seq<D>) returns (root: D)
    requires |hashes| > 0
    ensures root == Root(pair, hashes)
  {
    var hs := hashes;
    while |hs| > 1
      invariant |hs| > 0 && Root(pair, hs) == Root(pair, hashes)
    {
      var level := if |hs| % 2 != 0 then hs + [hs[|hs| - 1]] else hs;
      var temp: seq<D> := [];
      var i := 0;
      while 2 * i < |level|
        invariant 0 <= 2 * i <= |level|
        invariant temp == NextLevel(pair, hs)[..i]
      {
        PaddedPair(pair, hs, i);
        temp := temp + [pair(level[2 * i], level[2 * i + 1])];
        i := i + 1;
      }
      assert temp == NextLevel(pair, hs);
      hs := temp;
    }
    root := hs[0];
  }

  ghost function Hashed<T, D>(leaf: T -> D, items: seq<T>): (hs: seq<D>)
    ensures |hs| == |items| && forall i :: 0 <= i < |hs| ==> hs[i] == leaf(items[i])
  {
    seq(|items|, i requires 0 <= i < |items| => leaf(items[i]))
  }

  method HashAll<T, D>(leaf: T -> D, items: seq<T>) returns (hs: seq<D>)
    ensures hs == Hashed(leaf, items)
  {
    hs := [];
    for i := 0 to |items|
      invariant hs == Hashed(leaf, items)[..i]
    {
      hs := hs + [leaf(items[i])];
    }
  }

  lemma {:induction false} WrittenProofStep<D>(pair: (D, D) -> D, hs: seq<D>, index: nat, done: seq<D>)
    requires |hs| > 1
    ensures done + WrittenProof(pair, hs, index) ==
            if index < |Padded(hs)| then
              done + [Padded(hs)[Sibling(index)]] + WrittenProof(pair, NextLevel(pair, hs), index / 2 / 2)
            else done + WrittenProof(pair, NextLevel(pair, hs), index / 2)
  {
  }

  method GenerateMerkleProofForIndex<T, D>(
      pair: (D, D) -> D, leaf: T -> D, items: seq<T>, index: nat) returns (proof: seq<D>)
    ensures proof == WrittenProof(pair, Hashed(leaf, items), index)
  {
    proof := [];
    var current := HashAll(leaf, items);
    ghost var leaves := current;
    var position := index;
    while |current| > 1
      invariant proof + WrittenProof(pair, current, position) == WrittenProof(pair, leaves, index)
      decreases |current|
    {
      var proof', next, position' := ClimbOneLevel(pair, current, position, proof);
      WrittenProofStep(pair, current, position, proof);
      proof, current, position := proof', next, position';
    }
  }

  /** One pass of the proof loop: the sibling on the path, the next level and the next position. */
  method ClimbOneLevel<D>(pair: (D, D) -> D, current: seq<D>, position: nat, proof: seq<D>)
    returns (proof': seq<D>, next: seq<D>, position': nat)
    requires |current| > 1
    ensures next == NextLevel(pair, current)
    ensures position < |Padded(current)| ==>
              proof' == proof + [Padded(current)[Sibling(position)]] && position' == position / 2 / 2
    ensures position >= |Padded(current)| ==> proof' == proof && position' == position / 2
  {
    var level := if |current| % 2 == 1 then current + [current[|current| - 1]] else current;
    ghost var up := NextLevel(pair, current);
    proof', next, position' := proof, [], position;
    var i := 0;
    while 2 * i < |level|
      invariant 0 <= 2 * i <= |level|
      invariant next == up[..i]
      invariant position >= 2 * i ==> proof' == proof && position' == position
      invariant position < 2 * i ==> proof' == proof + [level[Sibling(position)]] && position' == position / 2
    {
      PaddedPair(pair, current, i);
      assert up[..i + 1] == up[..i] + [up[i]];
      if 2 * i == position' || 2 * i + 1 == position' {
        proof' := proof' + [if 2 * i == position' then level[2 * i + 1] else level[2 * i]];
        next := next + [pair(level[2 * i], level[2 * i + 1])];
        position' := |next| - 1;
      } else {
        next := next + [pair(level[2 * i], level[2 * i + 1])];
      }
      i := i + 1;
    }
    position' := position' / 2;
  }
}
