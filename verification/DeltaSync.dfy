/**
 The pool as a state machine that also records what it changed, and the incremental update
 built from that record.
 */
module DeltaSync {
  import opened Types
  import opened Text
  import opened Ledger
  import opened StateRoot

  datatype PoolState = PoolState(utxos: Pool, updates: Pool, deletions: seq<string>, lastUpdate: int)

  const EMPTY_POOL := PoolState(map[], map[], [], 0)

  function Restrict(m: Pool, s: set<string>): Pool { map k | k in s && k in m :: m[k] }

  /** The keys one transaction writes: its present inputs and its outputs. */
  function Touched(m: Pool, tx: Transaction): set<string> {
    (if tx.IsSystem() then {} else SpentKeys(m, tx.inputs)) + OutputKeys(tx, |tx.outputs|)
  }

  function SpentKeys(m: Pool, inputs: seq<TxInput>): set<string> {
    set i | 0 <= i < |inputs| && InputKey(inputs[i]) in m :: InputKey(inputs[i])
  }

  function OutputKeys(tx: Transaction, n: nat): set<string>
    requires n <= |tx.outputs|
  {
    set i | 0 <= i < n :: OutpointKey(tx.id, i)
  }

  function BlockTouched(m: Pool, txs: seq<Transaction>, height: nat): set<string> {
    if txs == [] then {} else
      var init := txs[..|txs| - 1];
      BlockTouched(m, init, height) + Touched(ApplyBlock(m, init, height), txs[|txs| - 1])
  }

  // ---------- the operations ----------

  datatype PoolOp =
    | Add(tx: Transaction, height: nat, now: int)
    | Block(txs: seq<Transaction>, height: nat, now: int)
    | Remove(txid: string, index: int, now: int)

  function Step(st: PoolState, op: PoolOp): PoolState {
    match op
    case Add(tx, height, now) =>
      var m := ApplyTx(st.utxos, tx, height);
      PoolState(m, st.updates + Restrict(m, Touched(st.utxos, tx)), st.deletions, now)
    case Block(txs, height, now) =>
      var m := ApplyBlock(st.utxos, txs, height);
      PoolState(m, st.updates + Restrict(m, BlockTouched(st.utxos, txs, height)), st.deletions, now)
    case Remove(txid, index, now) =>
      var k := OutpointKey(txid, index);
      PoolState(st.utxos - {k}, st.updates, st.deletions + [k], now)
  }

  /** The state of a new pool after a history of operations. */
  function After(ops: seq<PoolOp>): PoolState {
    if ops == [] then EMPTY_POOL else Step(After(ops[..|ops| - 1]), ops[|ops| - 1])
  }

  lemma {:induction false} TouchedIff(m: Pool, tx: Transaction, height: nat, k: string)
    ensures k in Touched(m, tx) <==> CreatesKey(tx, k) || (SpendsKey(tx, k) && k in m)
    ensures k !in Touched(m, tx) ==> Lookup(ApplyTx(m, tx, height), k) == Lookup(m, k)
    ensures k in Touched(m, tx) ==> k in ApplyTx(m, tx, height)
  {
    ApplyTxAt(m, tx, height, k);
    TxEffectCases(tx, height, k);
    assert k in OutputKeys(tx, |tx.outputs|) <==> CreatesKey(tx, k);
    assert !tx.IsSystem() ==> (k in SpentKeys(m, tx.inputs) <==> SpendsKey(tx, k) && k in m);
  }

  lemma {:induction false} BlockTouchedFrame(m: Pool, txs: seq<Transaction>, height: nat, k: string)
    ensures k !in BlockTouched(m, txs, height) ==> Lookup(ApplyBlock(m, txs, height), k) == Lookup(m, k)
    ensures k in BlockTouched(m, txs, height) ==> k in ApplyBlock(m, txs, height)
  {
    if txs != [] {
      var init, last := txs[..|txs| - 1], txs[|txs| - 1];
      BlockTouchedFrame(m, init, height, k);
      TouchedIff(ApplyBlock(m, init, height), last, height, k);
    }
  }

  // ---------- what the record is worth ----------

  /** A recorded key that was never removed holds the recorded entry; any other key is as it was earlier. */
  ghost predicate Explains(earlier: Pool, st: PoolState) {
    forall k :: k !in st.deletions ==> KeyExplained(earlier, st, k)
  }

  ghost predicate KeyExplained(earlier: Pool, st: PoolState, k: string) {
    if k in st.updates then Lookup(st.utxos, k) == Some(st.updates[k])
    else Lookup(st.utxos, k) == Lookup(earlier, k)
  }

  lemma {:induction false} StepExplains(earlier: Pool, st: PoolState, op: PoolOp)
    requires Explains(earlier, st)
    ensures Explains(earlier, Step(st, op))
  {
    var next := Step(st, op);
    forall k | k !in next.deletions ensures KeyExplained(earlier, next, k) {
      assert next.deletions == if op.Remove? then st.deletions + [OutpointKey(op.txid, op.index)] else st.deletions;
      assert k !in st.deletions;
      assert KeyExplained(earlier, st, k);
      match op
      case Add(tx, height, now) => TouchedIff(st.utxos, tx, height, k);
      case Block(txs, height, now) => BlockTouchedFrame(st.utxos, txs, height, k);
      case Remove(txid, index, now) =>
    }
  }

  lemma {:induction false} OwnStateExplained(ops: seq<PoolOp>)
    ensures Explains(After(ops).utxos, After(ops))
  {
    EmptyExplained();
    SinceNew(ops);
    forall k | k !in After(ops).deletions ensures KeyExplained(After(ops).utxos, After(ops), k) {
      assert KeyExplained(map[], After(ops), k);
    }
  }

  lemma {:induction false} EmptyExplained()
    ensures Explains(map[], EMPTY_POOL)
  {
  }

  lemma {:induction false} SinceNew(ops: seq<PoolOp>)
    ensures Explains(map[], After(ops))
  {
    if ops == [] {
      EmptyExplained();
    } else {
      SinceNew(ops[..|ops| - 1]);
      StepExplains(map[], After(ops[..|ops| - 1]), ops[|ops| - 1]);
    }
  }

  /** The record explains the present from every earlier state of the same pool. */
  lemma {:induction false} EveryEarlierStateExplained(ops: seq<PoolOp>, n: nat)
    requires n <= |ops|
    ensures Explains(After(ops[..n]).utxos, After(ops))
  {
    if n == |ops| {
      assert ops[..n] == ops;
      OwnStateExplained(ops);
    } else {
      var init := ops[..|ops| - 1];
      assert init[..n] == ops[..n];
      EveryEarlierStateExplained(init, n);
      StepExplains(After(ops[..n]).utxos, After(init), ops[|ops| - 1]);
    }
  }

  // ---------- deltas ----------

  datatype DeltaUpdate = DeltaUpdate(
    lastSync: int, updates: Pool, deletions: seq<string>, stateRoot: string, timestamp: int)

  ghost function DeltaOf(h: Hasher, st: PoolState, lastSync: int, now: int): DeltaUpdate {
    DeltaUpdate(lastSync, if st.lastUpdate > lastSync then st.updates else map[], st.deletions,
                PoolRoot(h, st.utxos), now)
  }

  function Removed(ks: seq<string>): set<string> { set k | k in ks }

  function Applied(m: Pool, delta: DeltaUpdate): Pool { (m + delta.updates) - Removed(delta.deletions) }

  predicate ValidEntry(u: UTXO) { u.txid != "" && u.amount > 0.0 }

  /** The receiver's test: every entry is valid and the announced root is the root of the result. */
  ghost predicate Acceptable(h: Hasher, m: Pool, delta: DeltaUpdate) {
    && (forall k :: k in delta.updates ==> ValidEntry(delta.updates[k]))
    && PoolRoot(h, Applied(m, delta)) == delta.stateRoot
  }

  /** No removed key has been written again. */
  ghost predicate RemovedStayRemoved(st: PoolState) {
    forall k :: k in st.deletions ==> k !in st.utxos
  }

  /** The sender's clock has moved past the last sync: only then does a delta carry the record. */
  predicate Sends(st: PoolState, lastSync: int) { st.lastUpdate > lastSync }

  /** No key that was never removed has changed since. */
  ghost predicate UnremovedSame(earlier: Pool, st: PoolState) {
    forall k :: k !in st.deletions ==> Lookup(earlier, k) == Lookup(st.utxos, k)
  }

  /** No key that was never removed has changed in a way its leaf shows. */
  ghost predicate UnremovedLookSame(h: Hasher, earlier: Pool, st: PoolState) {
    forall k :: k !in st.deletions ==> LooksSame(h, earlier, st.utxos, k)
  }

  ghost predicate LooksSame(h: Hasher, m: Pool, n: Pool, k: string) {
    (k in m <==> k in n) && (k in m && k in n ==> h.Leaf(m[k]) == h.Leaf(n[k]))
  }

  /** What the delta leaves at a key: nothing if the key was ever removed, else the present or the earlier entry. */
  lemma {:induction false} AppliedAt(h: Hasher, ops: seq<PoolOp>, n: nat, lastSync: int, now: int, k: string)
    requires n <= |ops|
    ensures var earlier, st := After(ops[..n]).utxos, After(ops);
      Lookup(Applied(earlier, DeltaOf(h, st, lastSync, now)), k) ==
      if k in st.deletions then None else Lookup(if Sends(st, lastSync) then st.utxos else earlier, k)
  {
    var earlier, st := After(ops[..n]).utxos, After(ops);
    assert k in Removed(st.deletions) <==> k in st.deletions;
    EveryEarlierStateExplained(ops, n);
    if k !in st.deletions { assert KeyExplained(earlier, st, k); }
  }

  /**
   For every history, earlier state and sync time: the delta leads to the present state exactly when no removed
   key is live again and, if the clock has not moved past the last sync, no other key has changed.
   */
  lemma {:induction false} DeltaCatchesUpIff(h: Hasher, ops: seq<PoolOp>, n: nat, lastSync: int, now: int)
    requires n <= |ops|
    ensures var earlier, st := After(ops[..n]).utxos, After(ops);
      Applied(earlier, DeltaOf(h, st, lastSync, now)) == st.utxos <==>
      RemovedStayRemoved(st) && (Sends(st, lastSync) || UnremovedSame(earlier, st))
  {
    var earlier, st := After(ops[..n]).utxos, After(ops);
    var result := Applied(earlier, DeltaOf(h, st, lastSync, now));
    forall k ensures Lookup(result, k) ==
        if k in st.deletions then None else Lookup(if Sends(st, lastSync) then st.utxos else earlier, k)
    {
      AppliedAt(h, ops, n, lastSync, now, k);
    }
    if RemovedStayRemoved(st) && (Sends(st, lastSync) || UnremovedSame(earlier, st)) {
      forall k ensures Lookup(result, k) == Lookup(st.utxos, k) { }
      SameLookups(result, st.utxos);
    }
    if result == st.utxos {
      forall k | k in st.deletions ensures k !in st.utxos { assert Lookup(result, k) == None; }
    }
  }

  /** If every operation after the earlier state came after the last sync, the removed keys alone decide. */
  lemma {:induction false} LaterClockCatchesUpIff(h: Hasher, ops: seq<PoolOp>, n: nat, lastSync: int, now: int)
    requires n <= |ops| && forall i :: n <= i < |ops| ==> ops[i].now > lastSync
    ensures Applied(After(ops[..n]).utxos, DeltaOf(h, After(ops), lastSync, now)) == After(ops).utxos
            <==> RemovedStayRemoved(After(ops))
  {
    DeltaCatchesUpIff(h, ops, n, lastSync, now);
    if n == |ops| { assert ops[..n] == ops; }
  }

  /** Undeleted keys are never lost, so the result lists no key the present state lacks. */
  lemma {:induction false} AppliedIsPart(h: Hasher, ops: seq<PoolOp>, n: nat, lastSync: int, now: int)
    requires n <= |ops|
    ensures Applied(After(ops[..n]).utxos, DeltaOf(h, After(ops), lastSync, now)).Keys <= After(ops).utxos.Keys
  {
    var earlier, st := After(ops[..n]).utxos, After(ops);
    var result := Applied(earlier, DeltaOf(h, st, lastSync, now));
    EveryEarlierStateExplained(ops, n);
    forall k | k in result ensures k in st.utxos {
      AppliedAt(h, ops, n, lastSync, now, k);
      assert KeyExplained(earlier, st, k);
    }
  }

  /** A pool that has lost the removed keys and otherwise follows another. */
  ghost predicate Follows(result: Pool, st: PoolState, source: Pool) {
    forall k :: Lookup(result, k) == if k in st.deletions then None else Lookup(source, k)
  }

  lemma {:induction false} LooksSameOnlyIf(h: Hasher, st: PoolState, source: Pool, result: Pool)
    requires Follows(result, st, source) && ShowSame(h, st.utxos, result)
    ensures RemovedStayRemoved(st) && UnremovedLookSame(h, source, st)
  {
    forall k | k in st.deletions ensures k !in st.utxos {
      assert Lookup(result, k) == None;
      assert k in st.utxos.Keys <==> k in result.Keys;
    }
    forall k | k !in st.deletions ensures LooksSame(h, source, st.utxos, k) {
      assert Lookup(result, k) == Lookup(source, k);
      assert k in st.utxos.Keys <==> k in result.Keys;
    }
  }

  lemma {:induction false} LooksSameIf(h: Hasher, st: PoolState, source: Pool, result: Pool)
    requires Follows(result, st, source) && RemovedStayRemoved(st) && UnremovedLookSame(h, source, st)
    ensures ShowSame(h, st.utxos, result)
  {
    forall k ensures LooksSame(h, result, st.utxos, k) {
      assert Lookup(result, k) == if k in st.deletions then None else Lookup(source, k);
      assert k !in st.deletions ==> LooksSame(h, source, st.utxos, k);
    }
    forall k ensures k in st.utxos.Keys <==> k in result.Keys { assert LooksSame(h, result, st.utxos, k); }
    forall k | k in st.utxos ensures h.Leaf(st.utxos[k]) == h.Leaf(result[k]) {
      assert LooksSame(h, result, st.utxos, k);
    }
  }

  lemma {:induction false} AppliedLooksSameIff(h: Hasher, ops: seq<PoolOp>, n: nat, lastSync: int, now: int)
    requires n <= |ops|
    ensures var earlier, st := After(ops[..n]).utxos, After(ops);
      ShowSame(h, st.utxos, Applied(earlier, DeltaOf(h, st, lastSync, now))) <==>
      RemovedStayRemoved(st) && (Sends(st, lastSync) || UnremovedLookSame(h, earlier, st))
  {
    var earlier, st := After(ops[..n]).utxos, After(ops);
    var result := Applied(earlier, DeltaOf(h, st, lastSync, now));
    var source := if Sends(st, lastSync) then st.utxos else earlier;
    forall k ensures Lookup(result, k) == if k in st.deletions then None else Lookup(source, k) {
      AppliedAt(h, ops, n, lastSync, now, k);
    }
    if ShowSame(h, st.utxos, result) { LooksSameOnlyIf(h, st, source, result); }
    if RemovedStayRemoved(st) && (Sends(st, lastSync) || UnremovedLookSame(h, earlier, st)) {
      LooksSameIf(h, st, source, result);
    }
  }

  /**
   For every history, earlier state and sync time: the receiver accepts the delta exactly when the entries it
   carries have an id and a positive amount, no removed key is live again and, if the clock has not moved past
   the last sync, no other key has changed visibly.
   */
  lemma {:induction false} DeltaIsAcceptedIff(h: Hasher, ops: seq<PoolOp>, n: nat, lastSync: int, now: int)
    requires n <= |ops|
    requires Clear(h, After(ops).utxos, Applied(After(ops[..n]).utxos, DeltaOf(h, After(ops), lastSync, now)))
    ensures var earlier, st := After(ops[..n]).utxos, After(ops);
      Acceptable(h, earlier, DeltaOf(h, st, lastSync, now)) <==>
      && (st.lastUpdate > lastSync ==>
            forall k :: k in st.updates ==> st.updates[k].txid != "" && st.updates[k].amount > 0.0)
      && RemovedStayRemoved(st) && (st.lastUpdate > lastSync || UnremovedLookSame(h, earlier, st))
  {
    var earlier, st := After(ops[..n]).utxos, After(ops);
    AppliedIsPart(h, ops, n, lastSync, now);
    PartRootIff(h, st.utxos, Applied(earlier, DeltaOf(h, st, lastSync, now)));
    AppliedLooksSameIff(h, ops, n, lastSync, now);
  }

  // ---------- two histories that go wrong ----------

  function Mint(id: string, owner: string): Transaction {
    Transaction(id, "", owner, 1.0, 0, 0.0, [], [TxOutput(owner, 1.0, "")], TX_COINBASE, 0, 0, 0)
  }

  function SpendAll(id: string, spent: string): Transaction {
    Transaction(id, "", "", 0.0, 0, 0.0, [TxInput(spent, 0, "")], [], TX_REGULAR, 0, 0, 0)
  }

  lemma {:induction false} MintedPool(m: Pool, id: string, owner: string)
    ensures ApplyTx(m, Mint(id, owner), 0) == m[OutpointKey(id, 0) := OutputEntry(Mint(id, owner), 0, 0)]
  {
    var tx := Mint(id, owner);
    assert AddOutputs(m, tx, 0, 1) == AddOutputs(m, tx, 0, 0)[OutpointKey(id, 0) := OutputEntry(tx, 0, 0)];
  }

  lemma {:induction false} SpentPool(m: Pool, id: string, spent: string)
    requires OutpointKey(spent, 0) in m
    ensures var k := OutpointKey(spent, 0); ApplyTx(m, SpendAll(id, spent), 0) == m[k := m[k].(spent := true)]
  {
    var tx := SpendAll(id, spent);
    assert tx.inputs[..0] == [];
    assert InputKey(tx.inputs[0]) == OutpointKey(spent, 0);
    assert MarkSpent(m, tx.inputs[..0]) == m;
  }

  /** An output minted and spent within the second of the last sync. */
  function SameSecond(): seq<PoolOp> { [Add(Mint("a", "o"), 0, 5), Add(SpendAll("b", "a"), 0, 5)] }

  /** The peer that synced in between is told nothing, accepts, and keeps the spent output as unspent. */
  lemma {:induction false} SameSecondIsAcceptedAndWrong(h: Hasher, now: int)
    ensures var st := After(SameSecond());
      var delta := DeltaOf(h, st, 5, now);
      var earlier := After(SameSecond()[..1]).utxos;
      && RemovedStayRemoved(st) && Acceptable(h, earlier, delta) && Applied(earlier, delta) != st.utxos
  {
    var ops := SameSecond();
    assert ops[..1][..0] == [] && After([]) == EMPTY_POOL;
    var k, one := OutpointKey("a", 0), After(ops[..1]);
    MintedPool(map[], "a", "o");
    assert one.utxos == map[k := OutputEntry(Mint("a", "o"), 0, 0)];
    SpentPool(one.utxos, "b", "a");
    assert After(ops) == Step(one, ops[1]);
    var st := After(ops);
    assert st.deletions == [] && st.utxos[k].spent && !one.utxos[k].spent;
    assert Applied(one.utxos, DeltaOf(h, st, 5, now)) == one.utxos;
    RootIgnoresSpentFlags(h, one.utxos, st.utxos);
  }

  /** An output minted, removed and minted again. */
  function MintedAgain(): seq<PoolOp> { [Add(Mint("a", "o"), 0, 1), Remove("a", 0, 2), Add(Mint("a", "o"), 0, 3)] }

  /** The deletion is still in the record, so a peer that starts from nothing does not get the output. */
  lemma {:induction false} MintedAgainIsLost(h: Hasher, lastSync: int, now: int)
    requires lastSync < 3
    ensures var st := After(MintedAgain());
      && !RemovedStayRemoved(st)
      && Applied(After([]).utxos, DeltaOf(h, st, lastSync, now)) != st.utxos
  {
    var ops := MintedAgain();
    var k, st := OutpointKey("a", 0), After(ops);
    var two := After(ops[..2]);
    assert ops[..2][..1] == ops[..1];
    assert two == Step(After(ops[..1]), ops[1]);
    MintedPool(two.utxos, "a", "o");
    assert st == Step(two, ops[2]);
    assert k in st.deletions && k in st.utxos;
    assert ops[..0] == [];
    DeltaCatchesUpIff(h, ops, 0, lastSync, now);
  }
}
