/** The chain of blocks: validation, ancestor search, fork resolution and rollback. */
module Chain {
  import opened Types

  /** The hashed part of a block. The fields fork choice never looks at are kept as one value. */
  datatype Header = Header(number: uint64, prevHash: string, difficulty: uint32, rest: string)

  /** The cumulative difficulty is carried beside the header and is not hashed. */
  datatype Block = Block(header: Header, hash: string, cumulative: uint64)

  const GENESIS_PARENT: string := "0x00000000000000000000000000000000"

  /** The block GenesisBlock makes: difficulty 1, cumulative difficulty left at 0. */
  function GenesisBlock(hash: string, rest: string): Block {
    Block(Header(0, GENESIS_PARENT, 1, rest), hash, 0)
  }

  // ---------- validation ----------

  /** What both validators require of a block and its successor, with 64-bit wrap-around. */
  predicate Follows(prev: Block, next: Block) {
    && next.header.prevHash == prev.hash
    && next.header.number == Add64(prev.header.number, 1)
    && next.cumulative == Add64(prev.cumulative, next.header.difficulty)
  }

  predicate FollowsAt(segment: seq<Block>, i: nat)
    requires 1 <= i < |segment|
  {
    Follows(segment[i - 1], segment[i])
  }

  ghost predicate ValidSegment(segment: seq<Block>) {
    forall i {:trigger FollowsAt(segment, i)} :: 1 <= i < |segment| ==> FollowsAt(segment, i)
  }

  predicate ValidStart(b: Block) {
    b.header.number == 0 ==> b.header.prevHash == GENESIS_PARENT && b.cumulative == b.header.difficulty
  }

  ghost predicate ValidChain(chain: seq<Block>) {
    |chain| > 0 && ValidStart(chain[0]) && ValidSegment(chain)
  }

  method ValidateChainSegment(segment: seq<Block>) returns (ok: bool)
    ensures ok <==> ValidSegment(segment)
  {
    var i := 1;
    while i < |segment|
      invariant 1 <= i
      invariant forall j {:trigger FollowsAt(segment, j)} :: 1 <= j < i && j < |segment| ==> FollowsAt(segment, j)
    {
      assert FollowsAt(segment, i) <==> Follows(segment[i - 1], segment[i]);
      if segment[i].header.prevHash != segment[i - 1].hash { return false; }
      if segment[i].header.number != Add64(segment[i - 1].header.number, 1) { return false; }
      if segment[i].cumulative != Add64(segment[i - 1].cumulative, segment[i].header.difficulty) { return false; }
      i := i + 1;
    }
    return true;
  }

  method ValidateCandidateChain(chain: seq<Block>) returns (ok: bool)
    ensures ok <==> ValidChain(chain)
  {
    if |chain| == 0 { return false; }
    if chain[0].header.number == 0 {
      if chain[0].header.prevHash != GENESIS_PARENT || chain[0].cumulative != chain[0].header.difficulty {
        return false;
      }
    }
    var i := 1;
    while i < |chain|
      invariant 1 <= i <= |chain|
      invariant forall j {:trigger FollowsAt(chain, j)} :: 1 <= j < i ==> FollowsAt(chain, j)
    {
      assert FollowsAt(chain, i) <==> Follows(chain[i - 1], chain[i]);
      if chain[i].header.number != Add64(chain[i - 1].header.number, 1) ||
         chain[i].header.prevHash != chain[i - 1].hash {
        return false;
      }
      if chain[i].cumulative != Add64(chain[i - 1].cumulative, chain[i].header.difficulty) { return false; }
      i := i + 1;
    }
    return true;
  }

  /** A chain is accepted exactly when it has a block, a proper block 0 if it starts there, and proper links. */
  lemma {:induction false} ValidChainIff(chain: seq<Block>)
    ensures ValidChain(chain) <==>
      && |chain| > 0
      && (chain[0].header.number == 0 ==>
            && chain[0].header.prevHash == "0x00000000000000000000000000000000"
            && chain[0].cumulative == chain[0].header.difficulty)
      && (forall i :: 1 <= i < |chain| ==>
            && chain[i].header.prevHash == chain[i - 1].hash
            && chain[i].header.number == (chain[i - 1].header.number + 1) % 18446744073709551616
            && chain[i].cumulative ==
               (chain[i - 1].cumulative + chain[i].header.difficulty) % 18446744073709551616)
  {
    forall i | 1 <= i < |chain|
      ensures FollowsAt(chain, i) <==>
        && chain[i].header.prevHash == chain[i - 1].hash
        && chain[i].header.number == (chain[i - 1].header.number + 1) % 18446744073709551616
        && chain[i].cumulative == (chain[i - 1].cumulative + chain[i].header.difficulty) % 18446744073709551616
    {
    }
  }

  lemma {:induction false} SegmentPrefix(chain: seq<Block>, n: nat)
    requires ValidSegment(chain) && n <= |chain|
    ensures ValidSegment(chain[..n])
  {
    forall i | 1 <= i < n ensures FollowsAt(chain[..n], i) { assert FollowsAt(chain, i); }
  }

  // ---------- cumulative difficulty ----------

  /** The work of a chain as a true sum. */
  function Work(chain: seq<Block>): nat {
    if chain == [] then 0 else Work(chain[..|chain| - 1]) + chain[|chain| - 1].header.difficulty
  }

  lemma {:induction false} WorkBound(chain: seq<Block>)
    ensures Work(chain) <= |chain| * (TWO_32 - 1)
  {
    if chain != [] { WorkBound(chain[..|chain| - 1]); }
  }

  /** In an accepted chain from block 0 the tip carries the sum of all difficulties, modulo 2^64. */
  lemma {:induction false} CumulativeIsWork(chain: seq<Block>)
    requires ValidChain(chain) && chain[0].header.number == 0
    ensures chain[|chain| - 1].cumulative == Work(chain) % TWO_64
  {
    var n := |chain| - 1;
    if n == 0 {
      assert chain[..0] == [];
    } else {
      var init := chain[..n];
      SegmentPrefix(chain, n);
      CumulativeIsWork(init);
      assert FollowsAt(chain, n);
      AddAfterWrap(Work(init), chain[n].header.difficulty);
    }
  }

  /** Up to 2^32 blocks nothing wraps: the cumulative difficulty is the sum itself. */
  lemma {:induction false} CumulativeIsExact(chain: seq<Block>)
    requires ValidChain(chain) && chain[0].header.number == 0 && |chain| <= TWO_32
    ensures chain[|chain| - 1].cumulative == Work(chain)
  {
    CumulativeIsWork(chain);
    WorkBound(chain);
    BelowTwo64(|chain|);
  }

  lemma {:induction false} BelowTwo64(n: nat)
    requires n <= TWO_32
    ensures n * (TWO_32 - 1) < TWO_64
  {
    assert n * (TWO_32 - 1) <= TWO_32 * (TWO_32 - 1);
  }

  // ---------- the common ancestor ----------

  /** The last position of a hash in the chain, or -1. */
  function LastIndex(chain: seq<Block>, hash: string): (j: int)
    ensures -1 <= j < |chain|
    ensures j >= 0 ==> chain[j].hash == hash
    ensures forall k :: j < k < |chain| ==> chain[k].hash != hash
  {
    var n := |chain| - 1;
    if n < 0 then -1 else if chain[n].hash == hash then n else LastIndex(chain[..n], hash)
  }

  /** The local position of the last candidate block that the local chain also has, or -1. */
  function Ancestor(local: seq<Block>, candidate: seq<Block>): (at: int)
    ensures -1 <= at < |local|
  {
    if candidate == [] then -1 else
      var n := |candidate| - 1;
      var j := LastIndex(local, candidate[n].hash);
      if j >= 0 then j else Ancestor(local, candidate[..n])
  }

  method FindCommonAncestor(local: seq<Block>, candidate: seq<Block>) returns (at: int)
    ensures at == Ancestor(local, candidate)
  {
    var i := |candidate| - 1;
    assert candidate[..i + 1] == candidate;
    while i >= 0
      invariant -1 <= i < |candidate|
      invariant Ancestor(local, candidate) == Ancestor(local, candidate[..i + 1])
    {
      assert candidate[..i + 1][..i] == candidate[..i];
      var j := |local| - 1;
      while j >= 0
        invariant -1 <= j < |local|
        invariant forall k :: j < k < |local| ==> local[k].hash != candidate[i].hash
      {
        if local[j].hash == candidate[i].hash {
          return j;
        }
        j := j - 1;
      }
      i := i - 1;
    }
    return -1;
  }

  /** What the search found: a shared block with no shared block above it in the candidate. */
  lemma {:induction false} AncestorFound(local: seq<Block>, candidate: seq<Block>) returns (from: nat)
    requires Ancestor(local, candidate) >= 0
    ensures from < |candidate| && local[Ancestor(local, candidate)].hash == candidate[from].hash
    ensures forall i, j :: from < i < |candidate| && 0 <= j < |local| ==> candidate[i].hash != local[j].hash
  {
    var n := |candidate| - 1;
    if LastIndex(local, candidate[n].hash) >= 0 {
      from := n;
    } else {
      from := AncestorFound(local, candidate[..n]);
      forall i, j | from < i < |candidate| && 0 <= j < |local| ensures candidate[i].hash != local[j].hash {
        if i < n { assert candidate[..n][i] == candidate[i]; }
      }
    }
  }

  lemma {:induction false} SharedBlockIsFound(local: seq<Block>, candidate: seq<Block>, i: nat, j: nat)
    requires i < |candidate| && j < |local| && candidate[i].hash == local[j].hash
    ensures Ancestor(local, candidate) >= 0
  {
    var n := |candidate| - 1;
    if LastIndex(local, candidate[n].hash) < 0 { SharedBlockIsFound(local, candidate[..n], i, j); }
  }

  /** Blocks of the two chains that have the same hash have the same header. */
  ghost predicate SameHashSameHeader(a: seq<Block>, b: seq<Block>) {
    forall i, j :: 0 <= i < |a| && 0 <= j < |b| && a[i].hash == b[j].hash ==> a[i].header == b[j].header
  }

  /** Linked by hashes and numbered from zero. */
  ghost predicate Numbered(chain: seq<Block>) {
    && (forall i :: 0 <= i < |chain| ==> chain[i].header.number == i)
    && (forall i {:trigger LinksAt(chain, i)} :: 1 <= i < |chain| ==> LinksAt(chain, i))
  }

  predicate LinksAt(chain: seq<Block>, i: nat)
    requires 1 <= i < |chain|
  {
    chain[i].header.prevHash == chain[i - 1].hash
  }

  /** The length of the longest common hash prefix. */
  function CommonPrefix(a: seq<Block>, b: seq<Block>): (n: nat)
    ensures n <= |a| && n <= |b|
    ensures forall i :: 0 <= i < n ==> a[i].hash == b[i].hash
    ensures n < |a| && n < |b| ==> a[n].hash != b[n].hash
  {
    if a == [] || b == [] || a[0].hash != b[0].hash then 0
    else 1 + CommonPrefix(a[1..], b[1..])
  }

  /** Equal blocks have equal histories: agreement spreads back along the previous hashes. */
  lemma {:induction false} AgreeBackTo(a: seq<Block>, b: seq<Block>, n: nat, i: nat)
    requires SameHashSameHeader(a, b) && Numbered(a) && Numbered(b)
    requires i <= n < |a| && n < |b| && a[n].hash == b[n].hash
    ensures a[i].hash == b[i].hash
    decreases n - i
  {
    if i < n {
      assert LinksAt(a, n) && LinksAt(b, n);
      AgreeBackTo(a, b, n - 1, i);
    }
  }

  /** On linked chains with the same block 0 the search finds the last index of the longest common prefix. */
  lemma {:induction false} AncestorIsCommonPrefix(local: seq<Block>, candidate: seq<Block>)
    requires SameHashSameHeader(local, candidate) && Numbered(local) && Numbered(candidate)
    requires |local| > 0 && |candidate| > 0 && local[0].hash == candidate[0].hash
    ensures Ancestor(local, candidate) == CommonPrefix(local, candidate) - 1
  {
    SharedBlockIsFound(local, candidate, 0, 0);
    var at := Ancestor(local, candidate);
    var from := AncestorFound(local, candidate);
    assert local[at].header == candidate[from].header;
    assert local[at].header.number == at && candidate[from].header.number == from;
    var n := CommonPrefix(local, candidate);
    if n <= at {
      AgreeBackTo(local, candidate, at, n);
    }
    AgreedBlockNotAbove(local, candidate, from, n);
  }

  lemma {:induction false} AgreedBlockNotAbove(local: seq<Block>, candidate: seq<Block>, from: nat, n: nat)
    requires n <= |local| && n <= |candidate| && forall i :: 0 <= i < n ==> local[i].hash == candidate[i].hash
    requires forall i, j :: from < i < |candidate| && 0 <= j < |local| ==> candidate[i].hash != local[j].hash
    ensures n <= from + 1
  {
    if n > 0 { assert local[n - 1].hash == candidate[n - 1].hash; }
  }

  // ---------- fork resolution ----------

  class Blockchain {
    var chain: seq<Block>
    var currentHash: string
    var lastValidatorAddress: string

    constructor (chain: seq<Block>)
      ensures this.chain == chain && currentHash == "" && lastValidatorAddress == ""
    {
      this.chain, currentHash, lastValidatorAddress := chain, "", "";
    }

    /** Splices the candidate's blocks in after the ancestor, or puts the old chain back. */
    method ReorganizeChain(newChain: seq<Block>, ancestor: nat) returns (ok: bool)
      requires ancestor < |chain| && ancestor < |newChain|
      modifies `chain
      ensures ok <==> ValidChain(old(chain)[..ancestor + 1] + newChain[ancestor + 1..])
      ensures chain == if ok then old(chain)[..ancestor + 1] + newChain[ancestor + 1..] else old(chain)
    {
      var oldChain := chain;
      chain := chain[..ancestor + 1] + newChain[ancestor + 1..];
      ok := ValidateCandidateChain(chain);
      if !ok {
        chain := oldChain;
      }
    }

    method ResolveFork(candidate: seq<Block>) returns (ok: bool)
      modifies `chain
      ensures ok <==> Resolves(old(chain), candidate)
      ensures chain == Resolved(old(chain), candidate)
    {
      ok := false;
      if |candidate| <= |chain| { return; }
      var ancestor := FindCommonAncestor(chain, candidate);
      if ancestor == -1 { return; }
      var segmentOk := ValidateChainSegment(candidate[ancestor..]);
      if !segmentOk { return; }
      var currentDifficulty := chain[|chain| - 1].cumulative;
      var candidateDifficulty := candidate[|candidate| - 1].cumulative;
      if candidateDifficulty <= currentDifficulty { return; }
      ok := ReorganizeChain(candidate, ancestor);
    }

    method ReplaceChain(newChain: seq<Block>)
      modifies `chain
      ensures chain == if |newChain| > |old(chain)| && ValidChain(newChain) then newChain else old(chain)
    {
      if |newChain| <= |chain| { return; }
      var ok := ValidateCandidateChain(newChain);
      if ok {
        chain := newChain;
      }
    }

    method RollbackToHeight(height: uint64) returns (ok: bool)
      modifies `chain
      ensures ok <==> height < |old(chain)|
      ensures chain == if ok then old(chain)[..height + 1] else old(chain)
    {
      ok := height < |chain|;
      if ok {
        chain := chain[..height + 1];
      }
    }

    /**
     Appends a block that links up; its cumulative difficulty is not looked at. Storing comes last: if that
     fails, so does the call, but the block stays.
     */
    method AddBlock(block: Block, ownHash: string, validatedBy: string, stored: bool) returns (ok: bool)
      modifies this
      ensures ok <==> Appendable(old(chain), block) && block.hash == ownHash && stored
      ensures Appendable(old(chain), block) && block.hash == ownHash ==>
                && chain == old(chain) + [block] && currentHash == block.hash
                && lastValidatorAddress == if validatedBy != "" then validatedBy else old(lastValidatorAddress)
      ensures !(Appendable(old(chain), block) && block.hash == ownHash) ==> unchanged(this)
    {
      ok := false;
      if block.hash != ownHash { return; }
      if block.header.number != |chain| { return; }
      if |chain| > 0 && block.header.prevHash != chain[|chain| - 1].hash { return; }
      if validatedBy != "" {
        lastValidatorAddress := validatedBy;
      }
      chain := chain + [block];
      currentHash := block.hash;
      ok := stored;
    }
  }

  predicate Appendable(chain: seq<Block>, block: Block) {
    block.header.number == |chain| && (|chain| > 0 ==> block.header.prevHash == chain[|chain| - 1].hash)
  }

  function Tip(chain: seq<Block>): Block
    requires |chain| > 0
  {
    chain[|chain| - 1]
  }

  /** The local chain up to the ancestor, then the candidate. */
  function Spliced(chain: seq<Block>, candidate: seq<Block>): seq<Block>
    requires |chain| < |candidate|
  {
    var at := Ancestor(chain, candidate);
    chain[..at + 1] + candidate[at + 1..]
  }

  ghost predicate Resolves(chain: seq<Block>, candidate: seq<Block>) {
    var at := Ancestor(chain, candidate);
    && |candidate| > |chain| && at >= 0
    && ValidSegment(candidate[at..])
    && Tip(candidate).cumulative > Tip(chain).cumulative
    && ValidChain(Spliced(chain, candidate))
  }

  ghost function Resolved(chain: seq<Block>, candidate: seq<Block>): seq<Block> {
    if Resolves(chain, candidate) then Spliced(chain, candidate) else chain
  }

  /**
   Whatever the candidate: a changed chain is valid, longer, heavier, keeps the part up to the ancestor and ends
   in the candidate's tip.
   */
  lemma {:induction false} ResolvedIsBetter(chain: seq<Block>, candidate: seq<Block>)
    ensures var after := Resolved(chain, candidate);
      after == chain || (
        && ValidChain(after) && |after| == |candidate| > |chain| > 0
        && Tip(after) == Tip(candidate) && Tip(after).cumulative > Tip(chain).cumulative
        && (exists at :: KeepsUpTo(chain, candidate, at, after)))
  {
    if Resolves(chain, candidate) {
      assert KeepsUpTo(chain, candidate, Ancestor(chain, candidate), Resolved(chain, candidate));
    }
  }

  ghost predicate KeepsUpTo(chain: seq<Block>, candidate: seq<Block>, at: int, after: seq<Block>) {
    0 <= at < |chain| < |candidate| && after == chain[..at + 1] + candidate[at + 1..]
  }

  // ---------- fork choice between valid chains ----------

  /** A chain accepted from block 0. */
  ghost predicate Genuine(chain: seq<Block>) {
    ValidChain(chain) && chain[0].header.number == 0 && |chain| <= TWO_64
  }

  lemma {:induction false} GenuineIsNumbered(chain: seq<Block>, i: nat)
    requires Genuine(chain) && i < |chain|
    ensures chain[i].header.number == i
  {
    if i > 0 {
      GenuineIsNumbered(chain, i - 1);
      assert FollowsAt(chain, i);
    }
  }

  lemma {:induction false} GenuineNumbered(chain: seq<Block>)
    requires Genuine(chain)
    ensures Numbered(chain)
  {
    forall i | 0 <= i < |chain| ensures chain[i].header.number == i { GenuineIsNumbered(chain, i); }
    forall i | 1 <= i < |chain| ensures LinksAt(chain, i) { assert FollowsAt(chain, i); }
  }

  /** Genuine chains with the same block 0, told apart by their hashes. */
  ghost predicate Comparable(a: seq<Block>, b: seq<Block>) {
    Genuine(a) && Genuine(b) && a[0].hash == b[0].hash && SameHashSameHeader(a, b)
  }

  /** Shared hashes are shared blocks: the cumulative difficulty, though unhashed, is forced. */
  lemma {:induction false} SharedPrefixIsEqual(a: seq<Block>, b: seq<Block>, i: nat)
    requires Comparable(a, b) && i < CommonPrefix(a, b)
    ensures a[i] == b[i]
  {
    assert a[i].header == b[i].header;
    if i > 0 {
      SharedPrefixIsEqual(a, b, i - 1);
      assert FollowsAt(a, i) && FollowsAt(b, i);
    }
  }

  /** Splicing two comparable chains gives the candidate itself. */
  lemma {:induction false} SplicedIsCandidate(chain: seq<Block>, candidate: seq<Block>)
    requires Comparable(chain, candidate) && |chain| < |candidate|
    ensures Ancestor(chain, candidate) >= 0 && Spliced(chain, candidate) == candidate
  {
    GenuineNumbered(chain);
    GenuineNumbered(candidate);
    AncestorIsCommonPrefix(chain, candidate);
    SharedBlockIsFound(chain, candidate, 0, 0);
    var n := CommonPrefix(chain, candidate);
    forall i | 0 <= i < n ensures chain[i] == candidate[i] { SharedPrefixIsEqual(chain, candidate, i); }
    assert chain[..n] == candidate[..n];
    SpliceIsSecond(chain, candidate, n);
  }

  lemma {:induction false} SpliceIsSecond(a: seq<Block>, b: seq<Block>, n: nat)
    requires n <= |a| && n <= |b| && a[..n] == b[..n]
    ensures a[..n] + b[n..] == b
  {
  }

  ghost predicate Dominates(a: seq<Block>, b: seq<Block>) {
    |a| > |b| > 0 && Tip(a).cumulative > Tip(b).cumulative
  }

  /** Between comparable chains, the candidate is adopted whole exactly when it is longer and heavier. */
  lemma {:induction false} ForkChoiceIff(chain: seq<Block>, candidate: seq<Block>)
    requires Comparable(chain, candidate)
    ensures Resolves(chain, candidate) <==> Dominates(candidate, chain)
    ensures Resolved(chain, candidate) == if Dominates(candidate, chain) then candidate else chain
  {
    if Dominates(candidate, chain) {
      SplicedIsCandidate(chain, candidate);
      var at := Ancestor(chain, candidate);
      forall i | 1 <= i < |candidate[at..]| ensures FollowsAt(candidate[at..], i) {
        assert FollowsAt(candidate, at + i);
      }
    }
  }

  /** Replacement and fork resolution agree on a chain exactly when it is not longer without being heavier. */
  lemma {:induction false} ReplaceAgreesWithForkIff(chain: seq<Block>, candidate: seq<Block>)
    requires Comparable(chain, candidate)
    ensures After(chain, Replace(candidate)) == After(chain, Fork(candidate)) <==>
            (|candidate| > |chain| ==> Tip(candidate).cumulative > Tip(chain).cumulative)
  {
    ForkChoiceIff(chain, candidate);
  }

  // ---------- many candidates in any order ----------

  ghost function ResolvedAll(chain: seq<Block>, candidates: seq<seq<Block>>): seq<Block> {
    if candidates == [] then chain else
      Resolved(ResolvedAll(chain, candidates[..|candidates| - 1]), candidates[|candidates| - 1])
  }

  /** The local chain and the candidates are pairwise comparable. */
  ghost predicate Peers(chain: seq<Block>, candidates: seq<seq<Block>>) {
    && (forall c :: c in candidates ==> Comparable(chain, c))
    && (forall c, d :: c in candidates && d in candidates ==> Comparable(c, d))
    && Genuine(chain)
  }

  /** The local chain, or a candidate that beats it. */
  ghost predicate Contender(chain: seq<Block>, candidates: seq<seq<Block>>, c: seq<Block>) {
    c == chain || (c in candidates && Dominates(c, chain))
  }

  /** A contender that beats all other contenders. */
  ghost predicate Best(chain: seq<Block>, candidates: seq<seq<Block>>, best: seq<Block>) {
    && Contender(chain, candidates, best)
    && forall c :: Contender(chain, candidates, c) ==> c == best || Dominates(best, c)
  }

  ghost predicate Reordered(cs: seq<seq<Block>>, candidates: seq<seq<Block>>) { multiset(cs) == multiset(candidates) }

  ghost predicate EveryOrderEndsIn(chain: seq<Block>, candidates: seq<seq<Block>>, final: seq<Block>) {
    forall cs :: Reordered(cs, candidates) ==> ResolvedAll(chain, cs) == final
  }

  /** Every chain a node can hold is its first one or a candidate that beats it. */
  lemma {:induction false} HeldIsContender(chain: seq<Block>, candidates: seq<seq<Block>>)
    requires Peers(chain, candidates)
    ensures Contender(chain, candidates, ResolvedAll(chain, candidates))
  {
    if candidates != [] {
      var n := |candidates| - 1;
      var held := ResolvedAll(chain, candidates[..n]);
      assert candidates[n] in candidates;
      HeldIsContender(chain, candidates[..n]);
      ForkChoiceIff(held, candidates[n]);
    }
  }

  lemma {:induction false} BestIsKept(
      chain: seq<Block>, candidates: seq<seq<Block>>, cs: seq<seq<Block>>, best: seq<Block>)
    requires Peers(chain, candidates) && Best(chain, candidates, best)
    requires forall c :: c in cs ==> c in candidates
    ensures best == chain || best in cs ==> ResolvedAll(chain, cs) == best
  {
    if cs != [] {
      var n := |cs| - 1;
      var init, last := cs[..n], cs[n];
      assert last in cs && cs == init + [last];
      BestIsKept(chain, candidates, init, best);
      HeldIsContender(chain, init);
      var held := ResolvedAll(chain, init);
      assert Contender(chain, candidates, held);
      ForkChoiceIff(held, last);
      if held == best && Dominates(last, held) {
        assert Contender(chain, candidates, last);
      }
    }
  }

  lemma {:induction false} FirstThenRest(chain: seq<Block>, first: seq<Block>, rest: seq<seq<Block>>)
    ensures ResolvedAll(chain, [first] + rest) == ResolvedAll(Resolved(chain, first), rest)
  {
    var all := [first] + rest;
    if rest == [] {
      assert all[..0] == [];
      assert ResolvedAll(chain, all[..0]) == chain;
    } else {
      var n := |rest| - 1;
      assert all[..|all| - 1] == [first] + rest[..n];
      FirstThenRest(chain, first, rest[..n]);
    }
  }

  /** A contender heard first is kept or beaten. */
  lemma {:induction false} FinalBeats(chain: seq<Block>, candidates: seq<seq<Block>>, final: seq<Block>, i: nat)
    requires Peers(chain, candidates) && EveryOrderEndsIn(chain, candidates, final)
    requires i < |candidates| && Dominates(candidates[i], chain)
    ensures candidates[i] == final || Dominates(final, candidates[i])
  {
    var c, rest := candidates[i], candidates[..i] + candidates[i + 1..];
    MovedFirst(candidates, i);
    FirstThenRest(chain, c, rest);
    ForkChoiceIff(chain, c);
    HeldIsContender(c, rest);
  }

  lemma {:induction false} MovedFirst(candidates: seq<seq<Block>>, i: nat)
    requires i < |candidates|
    ensures var rest := candidates[..i] + candidates[i + 1..];
      Reordered([candidates[i]] + rest, candidates) && forall d :: d in rest ==> d in candidates
  {
    assert candidates == candidates[..i] + [candidates[i]] + candidates[i + 1..];
  }

  /** All orders of arrival end in one chain exactly when it is the best contender. */
  lemma {:induction false} NodesConvergeIff(chain: seq<Block>, candidates: seq<seq<Block>>, final: seq<Block>)
    requires Peers(chain, candidates)
    ensures EveryOrderEndsIn(chain, candidates, final) <==> Best(chain, candidates, final)
  {
    if Best(chain, candidates, final) {
      forall cs | Reordered(cs, candidates) ensures ResolvedAll(chain, cs) == final {
        SameMembers(cs, candidates);
        BestIsKept(chain, candidates, cs, final);
      }
    }
    if EveryOrderEndsIn(chain, candidates, final) {
      assert Reordered(candidates, candidates);
      HeldIsContender(chain, candidates);
      forall c | Contender(chain, candidates, c) ensures c == final || Dominates(final, c) {
        if c != chain {
          var i :| 0 <= i < |candidates| && candidates[i] == c;
          FinalBeats(chain, candidates, final, i);
        }
      }
    }
  }

  lemma {:induction false} SameMembers(cs: seq<seq<Block>>, candidates: seq<seq<Block>>)
    requires Reordered(cs, candidates)
    ensures forall c :: c in cs <==> c in candidates
  {
    forall c ensures c in cs <==> c in candidates {
      assert c in cs <==> c in multiset(cs);
      assert c in candidates <==> c in multiset(candidates);
    }
  }

  // Two branches from one block 0: a longer one and a heavier one.

  const FIRST := Block(Header(0, GENESIS_PARENT, 1, ""), "g", 1)
  const LIGHT := Block(Header(1, "g", 1, ""), "a", 2)
  const LIGHTER := Block(Header(2, "a", 1, ""), "b", 3)
  const HEAVY := Block(Header(1, "g", 9, ""), "c", 10)

  function LongChain(): seq<Block> { [FIRST, LIGHT, LIGHTER] }

  function HeavyChain(): seq<Block> { [FIRST, HEAVY] }

  /**
   A candidate whose copy of the shared block claims another cumulative difficulty is refused, although the spliced
   chain would be valid, longer and heavier: the segment is tested as the candidate has it.
   */
  lemma {:induction false} TamperedSegmentIsRefused()
    ensures var candidate := [FIRST.(cumulative := 5), LIGHT];
      && Ancestor([FIRST], candidate) == 0 && ValidChain(Spliced([FIRST], candidate))
      && |candidate| > 1 && Tip(candidate).cumulative > FIRST.cumulative
      && Resolved([FIRST], candidate) == [FIRST]
  {
    var candidate := [FIRST.(cumulative := 5), LIGHT];
    assert candidate[..1][0].hash == "g" && LIGHT.hash != "g";
    assert LastIndex([FIRST], "g") == 0 && LastIndex([FIRST], LIGHT.hash) == -1;
    assert Ancestor([FIRST], candidate[..1]) == 0;
    assert Spliced([FIRST], candidate) == [FIRST, LIGHT];
    LinkedInTurn([FIRST, LIGHT]);
    assert candidate[0..] == candidate && !FollowsAt(candidate, 1);
  }

  lemma {:induction false} LinkedInTurn(chain: seq<Block>)
    requires |chain| <= 3
    requires (|chain| > 1 ==> Follows(chain[0], chain[1])) && (|chain| > 2 ==> Follows(chain[1], chain[2]))
    ensures ValidSegment(chain)
  {
    forall i | 1 <= i < |chain| ensures FollowsAt(chain, i) { assert i == 1 || i == 2; }
  }

  lemma {:induction false} BranchesAreGenuine()
    ensures Genuine([FIRST]) && Genuine(LongChain()) && Genuine(HeavyChain())
  {
    assert Follows(FIRST, LIGHT) && Follows(LIGHT, LIGHTER) && Follows(FIRST, HEAVY);
    LinkedInTurn([FIRST]);
    LinkedInTurn(LongChain());
    LinkedInTurn(HeavyChain());
  }

  /** A block is determined by its hash among these four. */
  function Named(hash: string): Block {
    if hash == "g" then FIRST else if hash == "a" then LIGHT else if hash == "b" then LIGHTER else HEAVY
  }

  lemma {:induction false} NamedChains(a: seq<Block>, b: seq<Block>)
    requires a in {[FIRST], LongChain(), HeavyChain()} && b in {[FIRST], LongChain(), HeavyChain()}
    ensures Comparable(a, b)
  {
    BranchesAreGenuine();
    assert forall i :: 0 <= i < |a| ==> a[i] == Named(a[i].hash);
    assert forall i :: 0 <= i < |b| ==> b[i] == Named(b[i].hash);
  }

  /** Two contenders neither of which beats the other: the first one heard stays. */
  lemma {:induction false} FirstHeardStays(chain: seq<Block>, a: seq<Block>, b: seq<Block>)
    requires Peers(chain, [a, b]) && a != b && Dominates(a, chain) && Dominates(b, chain)
    requires !Dominates(a, b) && !Dominates(b, a)
    ensures ResolvedAll(chain, [a, b]) == a && ResolvedAll(chain, [b, a]) == b
    ensures !exists final :: EveryOrderEndsIn(chain, [a, b], final)
  {
    assert a in [a, b] && b in [a, b];
    AdoptsOrKeeps(chain, a, b);
    AdoptsOrKeeps(chain, b, a);
    assert Reordered([a, b], [a, b]);
    assert Reordered([b, a], [a, b]) by { assert multiset([b, a]) == multiset{a, b} == multiset([a, b]); }
  }

  /** Nodes can end apart: heard in either order, the longer chain and the heavier one each keep the other out. */
  lemma {:induction false} NodesCanEndApart()
    ensures ResolvedAll([FIRST], [LongChain(), HeavyChain()]) == LongChain()
    ensures ResolvedAll([FIRST], [HeavyChain(), LongChain()]) == HeavyChain()
  {
    var long, heavy := LongChain(), HeavyChain();
    BranchesAreGenuine();
    forall c | c in [long, heavy] ensures Comparable([FIRST], c) { NamedChains([FIRST], c); }
    forall c, d | c in [long, heavy] && d in [long, heavy] ensures Comparable(c, d) { NamedChains(c, d); }
    FirstHeardStays([FIRST], long, heavy);
  }

  lemma {:induction false} AdoptsOrKeeps(chain: seq<Block>, a: seq<Block>, b: seq<Block>)
    requires Comparable(chain, a) && Comparable(a, b) && Dominates(a, chain) && !Dominates(b, a)
    ensures ResolvedAll(chain, [a, b]) == a
  {
    ForkChoiceIff(chain, a);
    ForkChoiceIff(a, b);
    TwoInTurn(chain, a, b);
  }

  lemma {:induction false} TwoInTurn(chain: seq<Block>, a: seq<Block>, b: seq<Block>)
    ensures ResolvedAll(chain, [a, b]) == Resolved(Resolved(chain, a), b)
  {
    assert [a, b][..1] == [a] && [a][..0] == [];
    assert ResolvedAll(chain, [a]) == Resolved(ResolvedAll(chain, [a][..0]), a);
  }

  // ---------- runs of chain operations ----------

  datatype ChainOp =
    | Fork(candidate: seq<Block>)
    | Replace(newChain: seq<Block>)
    | Rollback(height: uint64)
    | Append(block: Block)

  ghost function After(chain: seq<Block>, op: ChainOp): seq<Block> {
    match op
    case Fork(candidate) => Resolved(chain, candidate)
    case Replace(newChain) => if |newChain| > |chain| && ValidChain(newChain) then newChain else chain
    case Rollback(height) => if height < |chain| then chain[..height + 1] else chain
    case Append(block) => if Appendable(chain, block) then chain + [block] else chain
  }

  ghost function AfterAll(chain: seq<Block>, ops: seq<ChainOp>): seq<Block> {
    if ops == [] then chain else After(AfterAll(chain, ops[..|ops| - 1]), ops[|ops| - 1])
  }

  /** A block appended to a valid chain from block 0 keeps it valid exactly when its cumulative difficulty adds up. */
  lemma {:induction false} AppendKeepsValidIff(chain: seq<Block>, block: Block)
    requires ValidChain(chain) && Numbered(chain) && Appendable(chain, block)
    ensures ValidChain(chain + [block]) <==> block.cumulative == Add64(Tip(chain).cumulative, block.header.difficulty)
  {
    AppendedIsLinkedIff(chain, block);
    assert (chain + [block])[0] == chain[0];
  }

  /** What the appending step does not check, beside the links. */
  predicate Continues(prev: Block, next: Block) {
    && next.header.number == Add64(prev.header.number, 1)
    && next.cumulative == Add64(prev.cumulative, next.header.difficulty)
  }

  /** The step, if it appends a block, appends one that continues the chain. */
  ghost predicate SoundStep(chain: seq<Block>, op: ChainOp) {
    op.Append? && Appendable(chain, op.block) && |chain| > 0 ==> Continues(Tip(chain), op.block)
  }

  /** One step keeps a linked chain linked exactly when it appends nothing that does not continue it. */
  lemma {:induction false} StepStaysLinkedIff(chain: seq<Block>, op: ChainOp)
    requires ValidSegment(chain)
    ensures ValidSegment(After(chain, op)) <==> SoundStep(chain, op)
  {
    match op
    case Fork(candidate) =>
    case Replace(newChain) =>
    case Rollback(height) => if height < |chain| { SegmentPrefix(chain, height + 1); }
    case Append(block) => if Appendable(chain, block) { AppendedIsLinkedIff(chain, block); }
  }

  lemma {:induction false} AppendedIsLinkedIff(chain: seq<Block>, block: Block)
    requires ValidSegment(chain) && Appendable(chain, block)
    ensures ValidSegment(chain + [block]) <==> (|chain| > 0 ==> Continues(Tip(chain), block))
  {
    var longer, n := chain + [block], |chain|;
    assert longer[n] == block && (n > 0 ==> longer[n - 1] == Tip(chain));
    if n > 0 && !Continues(Tip(chain), block) {
      assert !FollowsAt(longer, n);
    } else {
      forall i | 1 <= i < |longer| ensures FollowsAt(longer, i) {
        if i < n { assert FollowsAt(chain, i); }
      }
    }
  }

  ghost predicate LinkedAt(chain: seq<Block>, ops: seq<ChainOp>, i: nat)
    requires i <= |ops|
  {
    ValidSegment(AfterAll(chain, ops[..i]))
  }

  ghost predicate SoundAt(chain: seq<Block>, ops: seq<ChainOp>, i: nat)
    requires i < |ops|
  {
    SoundStep(AfterAll(chain, ops[..i]), ops[i])
  }

  lemma {:induction false} AfterPrefix(chain: seq<Block>, ops: seq<ChainOp>, i: nat)
    requires i < |ops|
    ensures AfterAll(chain, ops[..i + 1]) == After(AfterAll(chain, ops[..i]), ops[i])
  {
    assert ops[..i + 1][..i] == ops[..i];
  }

  lemma {:induction false} LinkedUpTo(chain: seq<Block>, ops: seq<ChainOp>, n: nat)
    requires ValidSegment(chain) && n <= |ops|
    requires forall i {:trigger SoundAt(chain, ops, i)} :: 0 <= i < |ops| ==> SoundAt(chain, ops, i)
    ensures LinkedAt(chain, ops, n)
  {
    if n == 0 {
      assert ops[..0] == [];
    } else {
      LinkedUpTo(chain, ops, n - 1);
      AfterPrefix(chain, ops, n - 1);
      assert SoundAt(chain, ops, n - 1);
      StepStaysLinkedIff(AfterAll(chain, ops[..n - 1]), ops[n - 1]);
    }
  }

  /**
   From any linked chain, that of the built-in genesis included, over any run of fork resolution, replacement,
   rollback and appending: the chain stays linked all along exactly when every block appended continues it.
   */
  lemma {:induction false} RunStaysLinkedIff(chain: seq<Block>, ops: seq<ChainOp>)
    requires ValidSegment(chain)
    ensures (forall i {:trigger LinkedAt(chain, ops, i)} :: 0 <= i <= |ops| ==> LinkedAt(chain, ops, i)) <==>
            (forall i {:trigger SoundAt(chain, ops, i)} :: 0 <= i < |ops| ==> SoundAt(chain, ops, i))
  {
    if forall i {:trigger SoundAt(chain, ops, i)} :: 0 <= i < |ops| ==> SoundAt(chain, ops, i) {
      forall i | 0 <= i <= |ops| ensures LinkedAt(chain, ops, i) { LinkedUpTo(chain, ops, i); }
    }
    if forall i {:trigger LinkedAt(chain, ops, i)} :: 0 <= i <= |ops| ==> LinkedAt(chain, ops, i) {
      forall i | 0 <= i < |ops| ensures SoundAt(chain, ops, i) {
        assert LinkedAt(chain, ops, i) && LinkedAt(chain, ops, i + 1);
        AfterPrefix(chain, ops, i);
        StepStaysLinkedIff(AfterAll(chain, ops[..i]), ops[i]);
      }
    }
  }

  /** No step spoils a proper start. */
  lemma {:induction false} StartStays(chain: seq<Block>, ops: seq<ChainOp>)
    requires |chain| > 0 && ValidStart(chain[0])
    ensures var after := AfterAll(chain, ops); |after| > 0 && ValidStart(after[0])
  {
    if ops != [] { StartStays(chain, ops[..|ops| - 1]); }
  }

  ghost predicate ValidAt(chain: seq<Block>, ops: seq<ChainOp>, i: nat)
    requires i <= |ops|
  {
    ValidChain(AfterAll(chain, ops[..i]))
  }

  /** So from a valid chain, the chain is valid all along exactly when every block appended continues it. */
  lemma {:induction false} RunStaysValidIff(chain: seq<Block>, ops: seq<ChainOp>)
    requires ValidChain(chain)
    ensures (forall i {:trigger ValidAt(chain, ops, i)} :: 0 <= i <= |ops| ==> ValidAt(chain, ops, i)) <==>
            (forall i {:trigger SoundAt(chain, ops, i)} :: 0 <= i < |ops| ==> SoundAt(chain, ops, i))
  {
    RunStaysLinkedIff(chain, ops);
    forall i | 0 <= i <= |ops| ensures ValidAt(chain, ops, i) <==> LinkedAt(chain, ops, i) {
      StartStays(chain, ops[..i]);
    }
    assert (forall i {:trigger LinkedAt(chain, ops, i)} :: 0 <= i <= |ops| ==> LinkedAt(chain, ops, i)) <==>
           (forall i {:trigger ValidAt(chain, ops, i)} :: 0 <= i <= |ops| ==> ValidAt(chain, ops, i));
  }

  /** The built-in genesis on its own is linked, though not a valid chain. */
  lemma {:induction false} BuiltInGenesisIsLinked(hash: string, rest: string)
    ensures ValidSegment([GenesisBlock(hash, rest)]) && !ValidChain([GenesisBlock(hash, rest)])
    ensures GenesisBlock(hash, rest) ==
            Block(Header(0, "0x00000000000000000000000000000000", 1, rest), hash, 0)
  {
  }

  /** Rolling back and appending the dropped blocks again restores a numbered chain. */
  lemma {:induction false} RollbackIsUndone(chain: seq<Block>, height: uint64)
    requires Numbered(chain) && height < |chain|
    ensures AfterAll(chain, [Rollback(height)] + Appends(chain[height + 1..])) == chain
  {
    ReappendUpTo(chain, height, |chain|);
    assert chain[height + 1..|chain|] == chain[height + 1..];
    assert chain[..|chain|] == chain;
  }

  function Appends(blocks: seq<Block>): (ops: seq<ChainOp>)
    ensures |ops| == |blocks| && forall i :: 0 <= i < |ops| ==> ops[i] == Append(blocks[i])
  {
    seq(|blocks|, i requires 0 <= i < |blocks| => Append(blocks[i]))
  }

  function BackAndForth(chain: seq<Block>, height: uint64, n: nat): seq<ChainOp>
    requires height < n <= |chain|
  {
    [Rollback(height)] + Appends(chain[height + 1..n])
  }

  lemma {:induction false} BackAndForthStep(chain: seq<Block>, height: uint64, n: nat)
    requires height + 1 < n <= |chain|
    ensures BackAndForth(chain, height, n) == BackAndForth(chain, height, n - 1) + [Append(chain[n - 1])]
  {
    assert chain[height + 1..n] == chain[height + 1..n - 1] + [chain[n - 1]];
  }

  lemma {:induction false} AfterOneMore(chain: seq<Block>, ops: seq<ChainOp>, op: ChainOp)
    ensures AfterAll(chain, ops + [op]) == After(AfterAll(chain, ops), op)
  {
    assert (ops + [op])[..|ops|] == ops;
  }

  lemma {:induction false} ReappendUpTo(chain: seq<Block>, height: uint64, n: nat)
    requires Numbered(chain) && height < n <= |chain|
    ensures AfterAll(chain, BackAndForth(chain, height, n)) == chain[..n]
  {
    if n == height + 1 {
      assert BackAndForth(chain, height, n) == [] + [Rollback(height)];
      AfterOneMore(chain, [], Rollback(height));
    } else {
      ReappendUpTo(chain, height, n - 1);
      ReappendStep(chain, height, n);
    }
  }

  lemma {:induction false} ReappendStep(chain: seq<Block>, height: uint64, n: nat)
    requires Numbered(chain) && height + 1 < n <= |chain|
    requires AfterAll(chain, BackAndForth(chain, height, n - 1)) == chain[..n - 1]
    ensures AfterAll(chain, BackAndForth(chain, height, n)) == chain[..n]
  {
    BackAndForthStep(chain, height, n);
    AfterOneMore(chain, BackAndForth(chain, height, n - 1), Append(chain[n - 1]));
    ReappendOne(chain, n - 1);
  }

  lemma {:induction false} ReappendOne(chain: seq<Block>, n: nat)
    requires Numbered(chain) && 0 < n < |chain|
    ensures After(chain[..n], Append(chain[n])) == chain[..n + 1]
  {
    assert LinksAt(chain, n);
    assert chain[..n + 1] == chain[..n] + [chain[n]];
  }

  // ---------- the built-in genesis ----------

  /** A chain that starts with the block GenesisBlock makes is rejected, so ResolveFork never changes it. */
  lemma {:induction false} BuiltInGenesisBlocksForkChoice(
      hash: string, rest: string, tail: seq<Block>, candidate: seq<Block>)
    ensures !ValidChain([GenesisBlock(hash, rest)] + tail)
    ensures Resolved([GenesisBlock(hash, rest)] + tail, candidate) == [GenesisBlock(hash, rest)] + tail
  {
    var chain := [GenesisBlock(hash, rest)] + tail;
    assert |chain| < |candidate| && Ancestor(chain, candidate) >= 0 ==> Spliced(chain, candidate)[0] == chain[0];
  }

  /** ReplaceChain looks at length and validity only: the longer chain may carry less work. */
  lemma {:induction false} LongerCanBeLighter()
    ensures exists a, b :: ValidChain(a) && ValidChain(b) && |b| > |a|
                           && Tip(b).cumulative < Tip(a).cumulative && After(a, Replace(b)) == b
  {
    var a := [Block(Header(0, GENESIS_PARENT, 9, ""), "a", 9)];
    var b := [Block(Header(0, GENESIS_PARENT, 1, ""), "b", 1), Block(Header(1, "b", 1, ""), "c", 2)];
    assert FollowsAt(b, 1);
    assert ValidChain(a) && ValidChain(b);
    assert After(a, Replace(b)) == b;
  }
}
