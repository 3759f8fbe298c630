/**
 What one transaction and one block do to the map of outputs, as functions of the map:
 inputs are flagged as spent, outputs are written. On top of them, the laws about
 processing a block again and about processing it in another order.
 */
module Ledger {
  import opened Types
  import opened Text

  type Pool = map<string, UTXO>

  function InputKey(input: TxInput): string { OutpointKey(input.txid, input.index) }

  /** Every entry sits under the key of its own output; every pool built by the ledger is like that. */
  ghost predicate WellKeyed(m: Pool) {
    forall k :: k in m ==> m[k].index >= 0 && k == OutpointKey(m[k].txid, m[k].index)
  }

  function Lookup(m: Pool, k: string): Option<UTXO> {
    if k in m then Some(m[k]) else None
  }

  /** Flags every input that is present, in order. */
  function MarkSpent(m: Pool, inputs: seq<TxInput>): Pool {
    if inputs == [] then m else
      var before := MarkSpent(m, inputs[..|inputs| - 1]);
      var k := InputKey(inputs[|inputs| - 1]);
      if k in before then before[k := before[k].(spent := true)] else before
  }

  /** The entry written for output i. */
  function OutputEntry(tx: Transaction, i: nat, height: nat): UTXO
    requires i < |tx.outputs|
  {
    UTXO(tx.id, i, tx.outputs[i].amount, tx.outputs[i].receiver, false, height, tx.timestamp,
         tx.outputs[i].script)
  }

  /** Writes the first n outputs. */
  function AddOutputs(m: Pool, tx: Transaction, height: nat, n: nat): Pool
    requires n <= |tx.outputs|
  {
    if n == 0 then m else
      AddOutputs(m, tx, height, n - 1)[OutpointKey(tx.id, n - 1) := OutputEntry(tx, n - 1, height)]
  }

  /** The outputs of the pool after its inputs have been flagged. */
  function SpendInputs(m: Pool, tx: Transaction): Pool {
    if tx.IsSystem() then m else MarkSpent(m, tx.inputs)
  }

  function ApplyTx(m: Pool, tx: Transaction, height: nat): Pool {
    AddOutputs(SpendInputs(m, tx), tx, height, |tx.outputs|)
  }

  function ApplyBlock(m: Pool, txs: seq<Transaction>, height: nat): Pool {
    if txs == [] then m else
      ApplyTx(ApplyBlock(m, txs[..|txs| - 1], height), txs[|txs| - 1], height)
  }

  // ---------- one key at a time ----------

  /** All that a transaction or a block can do to the entry under one key. */
  datatype Effect = Keep | Spend | Set(entry: UTXO)

  function Act(e: Effect, o: Option<UTXO>): Option<UTXO> {
    match e
    case Keep => o
    case Spend => if o.Some? then Some(o.value.(spent := true)) else None
    case Set(u) => Some(u)
  }

  function Then(first: Effect, second: Effect): Effect {
    match second
    case Keep => first
    case Set(u) => second
    case Spend => if first.Set? then Set(first.entry.(spent := true)) else Spend
  }

  /** Some input refers to the key. */
  predicate Names(inputs: seq<TxInput>, k: string) {
    exists i :: 0 <= i < |inputs| && InputKey(inputs[i]) == k
  }

  lemma {:induction false} NamesStep(inputs: seq<TxInput>, k: string)
    requires inputs != []
    ensures Names(inputs, k) <==> Names(inputs[..|inputs| - 1], k) || InputKey(inputs[|inputs| - 1]) == k
  {
    var init := inputs[..|inputs| - 1];
    if i :| 0 <= i < |init| && InputKey(init[i]) == k { assert InputKey(inputs[i]) == k; }
    if i :| 0 <= i < |inputs| && InputKey(inputs[i]) == k { assert i < |init| ==> InputKey(init[i]) == k; }
  }

  predicate SpendsKey(tx: Transaction, k: string) {
    !tx.IsSystem() && Names(tx.inputs, k)
  }

  predicate CreatesKey(tx: Transaction, k: string) {
    exists i :: 0 <= i < |tx.outputs| && OutpointKey(tx.id, i) == k
  }

  function OutputEffect(tx: Transaction, height: nat, n: nat, k: string): Effect
    requires n <= |tx.outputs|
  {
    if n == 0 then Keep
    else if OutpointKey(tx.id, n - 1) == k then Set(OutputEntry(tx, n - 1, height))
    else OutputEffect(tx, height, n - 1, k)
  }

  function TxEffect(tx: Transaction, height: nat, k: string): Effect {
    Then(if SpendsKey(tx, k) then Spend else Keep, OutputEffect(tx, height, |tx.outputs|, k))
  }

  function BlockEffect(txs: seq<Transaction>, height: nat, k: string): Effect {
    if txs == [] then Keep else
      Then(BlockEffect(txs[..|txs| - 1], height, k), TxEffect(txs[|txs| - 1], height, k))
  }

  lemma {:induction false} ThenIsComposition(e: Effect, f: Effect, o: Option<UTXO>)
    ensures Act(Then(e, f), o) == Act(f, Act(e, o))
  {
  }

  lemma {:induction false} SameLookups(m: Pool, n: Pool)
    requires forall k :: Lookup(m, k) == Lookup(n, k)
    ensures m == n
  {
    forall k ensures k in m <==> k in n { assert Lookup(m, k) == Lookup(n, k); }
    forall k | k in m ensures m[k] == n[k] { assert Lookup(m, k) == Lookup(n, k); }
  }

  lemma {:induction false} MarkSpentAt(m: Pool, inputs: seq<TxInput>, k: string)
    ensures Lookup(MarkSpent(m, inputs), k) ==
            Act(if Names(inputs, k) then Spend else Keep, Lookup(m, k))
  {
    if inputs != [] {
      MarkSpentAt(m, inputs[..|inputs| - 1], k);
      NamesStep(inputs, k);
    }
  }

  lemma {:induction false} MarkSpentKeys(m: Pool, inputs: seq<TxInput>)
    ensures MarkSpent(m, inputs).Keys == m.Keys
  {
    if inputs != [] { MarkSpentKeys(m, inputs[..|inputs| - 1]); }
  }

  lemma {:induction false} AddOutputsAt(m: Pool, tx: Transaction, height: nat, n: nat, k: string)
    requires n <= |tx.outputs|
    ensures Lookup(AddOutputs(m, tx, height, n), k) == Act(OutputEffect(tx, height, n, k), Lookup(m, k))
  {
    if n > 0 { AddOutputsAt(m, tx, height, n - 1, k); }
  }

  lemma {:induction false} ApplyTxAt(m: Pool, tx: Transaction, height: nat, k: string)
    ensures Lookup(ApplyTx(m, tx, height), k) == Act(TxEffect(tx, height, k), Lookup(m, k))
  {
    MarkSpentAt(m, tx.inputs, k);
    AddOutputsAt(SpendInputs(m, tx), tx, height, |tx.outputs|, k);
    ThenIsComposition(if SpendsKey(tx, k) then Spend else Keep,
                      OutputEffect(tx, height, |tx.outputs|, k), Lookup(m, k));
  }

  /** A block acts on every key by its effect on that key. */
  lemma {:induction false} ApplyBlockAt(m: Pool, txs: seq<Transaction>, height: nat, k: string)
    ensures Lookup(ApplyBlock(m, txs, height), k) == Act(BlockEffect(txs, height, k), Lookup(m, k))
  {
    if txs != [] {
      var init, last := txs[..|txs| - 1], txs[|txs| - 1];
      ApplyBlockAt(m, init, height, k);
      ApplyTxAt(ApplyBlock(m, init, height), last, height, k);
      ThenIsComposition(BlockEffect(init, height, k), TxEffect(last, height, k), Lookup(m, k));
    }
  }

  // ---------- the entries written ----------

  /** The output written under an index is the one at that index. */
  lemma {:induction false} OutputAt(tx: Transaction, height: nat, n: nat, i: nat)
    requires n <= |tx.outputs|
    ensures OutputEffect(tx, height, n, OutpointKey(tx.id, i)) ==
            if i < n then Set(OutputEntry(tx, i, height)) else Keep
  {
    if n > 0 {
      OutputAt(tx, height, n - 1, i);
      if OutpointKey(tx.id, n - 1) == OutpointKey(tx.id, i) { OutpointKeyInjective(tx.id, n - 1, tx.id, i); }
    }
  }

  /** After a transaction every output of it is there, unspent, with its height and time. */
  lemma {:induction false} WrittenEntry(m: Pool, tx: Transaction, height: nat, i: nat)
    requires i < |tx.outputs|
    ensures Lookup(ApplyTx(m, tx, height), OutpointKey(tx.id, i)) ==
            Some(UTXO(tx.id, i, tx.outputs[i].amount, tx.outputs[i].receiver, false, height, tx.timestamp,
                      tx.outputs[i].script))
  {
    ApplyTxAt(m, tx, height, OutpointKey(tx.id, i));
    OutputAt(tx, height, |tx.outputs|, i);
  }

  /** No transaction from position n on writes the key. */
  ghost predicate NotWrittenFrom(txs: seq<Transaction>, n: nat, k: string) {
    forall j :: n <= j < |txs| ==> !CreatesKey(txs[j], k)
  }

  /** What is written and not overwritten later stays, and is spent if something later spends it. */
  lemma {:induction false} WrittenEffect(txs: seq<Transaction>, height: nat, k: string, t: nat, e: UTXO)
    requires t < |txs| && NotWrittenFrom(txs, t + 1, k) && TxEffect(txs[t], height, k) == Set(e) && !e.spent
    ensures BlockEffect(txs, height, k) == Set(e.(spent := SomeSpend(txs[t + 1..], k)))
  {
    var n := |txs| - 1;
    if t < n {
      var init, later := txs[..n], txs[t + 1..];
      assert forall j :: 0 <= j < n ==> init[j] == txs[j];
      WrittenEffect(init, height, k, t, e);
      TxEffectCases(txs[n], height, k);
      SomeSpendStep(later, k);
      assert later[..|later| - 1] == init[t + 1..] && later[|later| - 1] == txs[n];
    }
  }

  /** After a block an output that nothing overwrites is as it was written, and spent if something later spends it. */
  lemma {:induction false} WrittenByBlock(m: Pool, txs: seq<Transaction>, height: nat, t: nat, i: nat)
    requires t < |txs| && i < |txs[t].outputs| && NotWrittenFrom(txs, t + 1, OutpointKey(txs[t].id, i))
    ensures var k, o := OutpointKey(txs[t].id, i), txs[t].outputs[i];
      Lookup(ApplyBlock(m, txs, height), k) ==
      Some(UTXO(txs[t].id, i, o.amount, o.receiver, SomeSpend(txs[t + 1..], k), height, txs[t].timestamp, o.script))
  {
    var k := OutpointKey(txs[t].id, i);
    OutputAt(txs[t], height, |txs[t].outputs|, i);
    WrittenEffect(txs, height, k, t, OutputEntry(txs[t], i, height));
    ApplyBlockAt(m, txs, height, k);
  }

  // ---------- replay ----------

  /** Every effect is idempotent, so a block processed twice leaves what processing it once left. */
  lemma {:induction false} ReplayIsIdempotent(m: Pool, txs: seq<Transaction>, height: nat)
    ensures ApplyBlock(ApplyBlock(m, txs, height), txs, height) == ApplyBlock(m, txs, height)
  {
    var once := ApplyBlock(m, txs, height);
    var twice := ApplyBlock(once, txs, height);
    forall k ensures Lookup(twice, k) == Lookup(once, k) {
      ApplyBlockAt(m, txs, height, k);
      ApplyBlockAt(once, txs, height, k);
    }
    SameLookups(twice, once);
  }

  // ---------- order ----------

  ghost predicate DistinctIds(txs: seq<Transaction>) {
    forall i, j :: 0 <= i < j < |txs| ==> txs[i].id != txs[j].id
  }

  /** No transaction spends an output of another transaction of the block. */
  ghost predicate NoInternalSpend(txs: seq<Transaction>) {
    forall i, j, k {:trigger CreatesKey(txs[i], k), SpendsKey(txs[j], k)} ::
      0 <= i < |txs| && 0 <= j < |txs| && i != j && CreatesKey(txs[i], k) ==> !SpendsKey(txs[j], k)
  }

  ghost predicate Reordering(ps: seq<Transaction>, txs: seq<Transaction>) {
    multiset(ps) == multiset(txs)
  }

  /** Every order of the block's transactions leaves the same pool, whatever the pool was. */
  ghost predicate OrderIrrelevant(txs: seq<Transaction>) {
    forall ps, m, height :: Reordering(ps, txs) ==> ApplyBlock(m, ps, height) == ApplyBlock(m, txs, height)
  }

  lemma {:induction false} OutputEffectIsSet(tx: Transaction, height: nat, n: nat, k: string)
    requires n <= |tx.outputs|
    ensures OutputEffect(tx, height, n, k).Set? <==> exists i :: 0 <= i < n && OutpointKey(tx.id, i) == k
    ensures var e := OutputEffect(tx, height, n, k); e.Keep? || (e.Set? && !e.entry.spent)
  {
    if n > 0 { OutputEffectIsSet(tx, height, n - 1, k); }
  }

  lemma {:induction false} TxEffectCases(tx: Transaction, height: nat, k: string)
    ensures CreatesKey(tx, k) <==> TxEffect(tx, height, k).Set?
    ensures CreatesKey(tx, k) ==> !TxEffect(tx, height, k).entry.spent
    ensures !CreatesKey(tx, k) ==> TxEffect(tx, height, k) == if SpendsKey(tx, k) then Spend else Keep
  {
    OutputEffectIsSet(tx, height, |tx.outputs|, k);
  }

  lemma {:induction false} CreatorIsUnique(a: Transaction, b: Transaction, k: string)
    requires CreatesKey(a, k) && CreatesKey(b, k)
    ensures a.id == b.id
  {
    var i :| 0 <= i < |a.outputs| && OutpointKey(a.id, i) == k;
    var j :| 0 <= j < |b.outputs| && OutpointKey(b.id, j) == k;
    OutpointKeyInjective(a.id, i, b.id, j);
  }

  lemma {:induction false} CreatedKeyEffect(txs: seq<Transaction>, height: nat, k: string, c: nat)
    requires DistinctIds(txs) && NoInternalSpend(txs)
    requires c < |txs| && CreatesKey(txs[c], k)
    ensures BlockEffect(txs, height, k) == TxEffect(txs[c], height, k)
  {
    var last := |txs| - 1;
    TxEffectCases(txs[last], height, k);
    if c < last {
      var init := txs[..last];
      assert forall i :: 0 <= i < |init| ==> init[i] == txs[i];
      CreatedKeyEffect(init, height, k, c);
      if CreatesKey(txs[last], k) { CreatorIsUnique(txs[c], txs[last], k); }
    }
  }

  lemma {:induction false} UncreatedKeyEffect(txs: seq<Transaction>, height: nat, k: string)
    requires forall i :: 0 <= i < |txs| ==> !CreatesKey(txs[i], k)
    ensures BlockEffect(txs, height, k) == if SomeSpend(txs, k) then Spend else Keep
  {
    if txs != [] {
      var last := |txs| - 1;
      assert forall i :: 0 <= i < last ==> !CreatesKey(txs[..last][i], k);
      UncreatedKeyEffect(txs[..last], height, k);
      TxEffectCases(txs[last], height, k);
      SomeSpendStep(txs, k);
    }
  }

  /** Some transaction of the block spends the key. */
  ghost predicate SomeSpend(txs: seq<Transaction>, k: string) {
    exists i :: 0 <= i < |txs| && SpendsKey(txs[i], k)
  }

  lemma {:induction false} SomeSpendStep(txs: seq<Transaction>, k: string)
    requires txs != []
    ensures SomeSpend(txs, k) <==> SomeSpend(txs[..|txs| - 1], k) || SpendsKey(txs[|txs| - 1], k)
  {
    var init := txs[..|txs| - 1];
    if i :| 0 <= i < |init| && SpendsKey(init[i], k) { assert SpendsKey(txs[i], k); }
    if i :| 0 <= i < |txs| && SpendsKey(txs[i], k) { assert i < |init| ==> SpendsKey(init[i], k); }
  }

  /** A key some transaction of the block creates exists after the block. */
  lemma {:induction false} CreatedKeyExists(txs: seq<Transaction>, height: nat, k: string, c: nat)
    requires c < |txs| && CreatesKey(txs[c], k)
    ensures BlockEffect(txs, height, k).Set?
  {
    var last := |txs| - 1;
    TxEffectCases(txs[last], height, k);
    if c < last { CreatedKeyExists(txs[..last], height, k, c); }
  }

  // Reorderings keep the two side conditions.

  lemma {:induction false} MultiplicityOfTwo(s: seq<Transaction>, i: nat, j: nat)
    requires i < j < |s| && s[i] == s[j]
    ensures multiset(s)[s[i]] >= 2
  {
    assert s == s[..j] + s[j..];
    assert s[..j][i] in multiset(s[..j]) && s[j..][0] in multiset(s[j..]);
  }

  lemma {:induction false} MultiplicityOfOne(s: seq<Transaction>, x: Transaction)
    requires DistinctIds(s)
    ensures multiset(s)[x] <= 1
  {
    if s != [] {
      var init, last := s[..|s| - 1], s[|s| - 1];
      assert forall i :: 0 <= i < |init| ==> init[i] == s[i];
      MultiplicityOfOne(init, x);
      assert s == init + [last];
      if x == last { assert x !in init; }
    }
  }

  lemma {:induction false} ReorderedMember(ps: seq<Transaction>, txs: seq<Transaction>, i: nat) returns (a: nat)
    requires Reordering(ps, txs) && i < |ps|
    ensures a < |txs| && txs[a] == ps[i]
  {
    assert ps[i] in multiset(ps);
    assert ps[i] in txs;
    a :| 0 <= a < |txs| && txs[a] == ps[i];
  }

  lemma {:induction false} ReorderingKeepsDistinctIds(ps: seq<Transaction>, txs: seq<Transaction>)
    requires Reordering(ps, txs) && DistinctIds(txs)
    ensures DistinctIds(ps)
  {
    forall i, j | 0 <= i < j < |ps| ensures ps[i].id != ps[j].id {
      var a := ReorderedMember(ps, txs, i);
      var b := ReorderedMember(ps, txs, j);
      if a == b {
        MultiplicityOfTwo(ps, i, j);
        MultiplicityOfOne(txs, ps[i]);
        assert false;
      }
    }
  }

  lemma {:induction false} ReorderingKeepsNoInternalSpend(ps: seq<Transaction>, txs: seq<Transaction>)
    requires Reordering(ps, txs) && DistinctIds(txs) && NoInternalSpend(txs)
    ensures NoInternalSpend(ps)
  {
    ReorderingKeepsDistinctIds(ps, txs);
    forall i, j, k | 0 <= i < |ps| && 0 <= j < |ps| && i != j && CreatesKey(ps[i], k)
      ensures !SpendsKey(ps[j], k)
    {
      var a := ReorderedMember(ps, txs, i);
      var b := ReorderedMember(ps, txs, j);
    }
  }

  lemma {:induction false} SameEffectInEveryOrder(ps: seq<Transaction>, txs: seq<Transaction>, height: nat, k: string)
    requires Reordering(ps, txs) && DistinctIds(txs) && NoInternalSpend(txs)
    ensures BlockEffect(ps, height, k) == BlockEffect(txs, height, k)
  {
    ReorderingKeepsDistinctIds(ps, txs);
    ReorderingKeepsNoInternalSpend(ps, txs);
    if c :| 0 <= c < |txs| && CreatesKey(txs[c], k) {
      var d := ReorderedMember(txs, ps, c);
      CreatedKeyEffect(txs, height, k, c);
      CreatedKeyEffect(ps, height, k, d);
    } else {
      forall i | 0 <= i < |ps| ensures !CreatesKey(ps[i], k) { var _ := ReorderedMember(ps, txs, i); }
      UncreatedKeyEffect(txs, height, k);
      UncreatedKeyEffect(ps, height, k);
      if i :| 0 <= i < |txs| && SpendsKey(txs[i], k) { var _ := ReorderedMember(txs, ps, i); }
      if i :| 0 <= i < |ps| && SpendsKey(ps[i], k) { var _ := ReorderedMember(ps, txs, i); }
    }
  }

  lemma {:induction false} EveryOrderAgrees(m: Pool, ps: seq<Transaction>, txs: seq<Transaction>, height: nat)
    requires Reordering(ps, txs) && DistinctIds(txs) && NoInternalSpend(txs)
    ensures ApplyBlock(m, ps, height) == ApplyBlock(m, txs, height)
  {
    forall k ensures Lookup(ApplyBlock(m, ps, height), k) == Lookup(ApplyBlock(m, txs, height), k) {
      SameEffectInEveryOrder(ps, txs, height, k);
      ApplyBlockAt(m, ps, height, k);
      ApplyBlockAt(m, txs, height, k);
    }
    SameLookups(ApplyBlock(m, ps, height), ApplyBlock(m, txs, height));
  }

  /** The block with transaction i moved to the end. */
  function MovedLast(txs: seq<Transaction>, i: nat): (ps: seq<Transaction>)
    requires i < |txs|
    ensures multiset(ps) == multiset(txs)
  {
    assert txs == txs[..i] + [txs[i]] + txs[i + 1..];
    txs[..i] + txs[i + 1..] + [txs[i]]
  }

  lemma {:induction false} LastEffect(txs: seq<Transaction>, tx: Transaction, height: nat, k: string)
    ensures BlockEffect(txs + [tx], height, k) == Then(BlockEffect(txs, height, k), TxEffect(tx, height, k))
  {
    assert (txs + [tx])[..|txs|] == txs;
  }

  lemma {:induction false} CreatorLast(txs: seq<Transaction>, height: nat, c: nat, k: string)
    requires c < |txs| && CreatesKey(txs[c], k)
    ensures var e := BlockEffect(MovedLast(txs, c), height, k); e.Set? && !e.entry.spent
  {
    LastEffect(txs[..c] + txs[c + 1..], txs[c], height, k);
    TxEffectCases(txs[c], height, k);
  }

  lemma {:induction false} SpenderLast(txs: seq<Transaction>, height: nat, c: nat, s: nat, k: string)
    requires DistinctIds(txs) && c < |txs| && s < |txs| && c != s
    requires CreatesKey(txs[c], k) && SpendsKey(txs[s], k)
    ensures var e := BlockEffect(MovedLast(txs, s), height, k); e.Set? && e.entry.spent
  {
    var rest := txs[..s] + txs[s + 1..];
    var c' := if c < s then c else c - 1;
    assert rest[c'] == txs[c];
    CreatedKeyExists(rest, height, k, c');
    if CreatesKey(txs[s], k) { CreatorIsUnique(txs[c], txs[s], k); }
    TxEffectCases(txs[s], height, k);
    LastEffect(rest, txs[s], height, k);
  }

  /** Creator last: the entry is unspent. Spender last: it is spent. */
  lemma {:induction false} CreatorLastSpenderLast(
      m: Pool, txs: seq<Transaction>, height: nat, c: nat, s: nat, k: string)
    requires DistinctIds(txs) && c < |txs| && s < |txs| && c != s
    requires CreatesKey(txs[c], k) && SpendsKey(txs[s], k)
    ensures ApplyBlock(m, MovedLast(txs, c), height) != ApplyBlock(m, MovedLast(txs, s), height)
  {
    CreatorLast(txs, height, c, k);
    SpenderLast(txs, height, c, s, k);
    ApplyBlockAt(m, MovedLast(txs, c), height, k);
    ApplyBlockAt(m, MovedLast(txs, s), height, k);
  }

  /** With distinct ids, the order never matters exactly when no transaction spends another's output. */
  lemma {:induction false} OrderIrrelevantIff(txs: seq<Transaction>)
    requires DistinctIds(txs)
    ensures OrderIrrelevant(txs) <==> NoInternalSpend(txs)
  {
    if NoInternalSpend(txs) {
      forall ps, m, height | Reordering(ps, txs) ensures ApplyBlock(m, ps, height) == ApplyBlock(m, txs, height) {
        EveryOrderAgrees(m, ps, txs, height);
      }
    }
    if OrderIrrelevant(txs) {
      forall c, s, k | 0 <= c < |txs| && 0 <= s < |txs| && c != s && CreatesKey(txs[c], k)
        ensures !SpendsKey(txs[s], k)
      {
        if SpendsKey(txs[s], k) {
          CreatorLastSpenderLast(map[], txs, 0, c, s, k);
          assert Reordering(MovedLast(txs, c), txs) && Reordering(MovedLast(txs, s), txs);
        }
      }
    }
  }

  /**
   A mined block is processed in the order of mining and then again in whatever order the trie
   lists it. The second pass changes nothing.
   */
  lemma {:induction false} SecondPassInAnyOrder(m: Pool, txs: seq<Transaction>, listed: seq<Transaction>, height: nat)
    requires Reordering(listed, txs) && DistinctIds(txs) && NoInternalSpend(txs)
    ensures ApplyBlock(ApplyBlock(m, txs, height), listed, height) == ApplyBlock(m, txs, height)
  {
    EveryOrderAgrees(ApplyBlock(m, txs, height), listed, txs, height);
    ReplayIsIdempotent(m, txs, height);
  }
}
