/** UTXOPool: the flag-based ledger as the object the node updates in place. */
module UtxoPool {
  import opened Types
  import opened Text
  import opened Ledger
  import opened Balances
  import opened StateRoot
  import opened DeltaSync
  import LiveSet

  datatype Snapshot = Snapshot(height: nat, blockHash: string, utxos: Pool, merkleRoot: string, timestamp: int)

  /** What the pool is handed of a block. */
  datatype Block = Block(number: nat, hash: string, txs: seq<Transaction>)

  /** Recording one more write. */
  lemma {:induction false} RecordWrite(recorded: Pool, m: Pool, s: set<string>, k: string, u: UTXO)
    ensures recorded + Restrict(m[k := u], s + {k}) == (recorded + Restrict(m, s))[k := u]
  {
  }

  /** Recording a further batch: keys of the first batch that the second leaves alone did not move. */
  lemma {:induction false} RecordBatch(recorded: Pool, m: Pool, s: set<string>, n: Pool, t: set<string>)
    requires forall k :: k in s && k !in t ==> Lookup(n, k) == Lookup(m, k)
    requires forall k :: k in t ==> k in n
    ensures recorded + Restrict(m, s) + Restrict(n, t) == recorded + Restrict(n, s + t)
  {
    var a, b := recorded + Restrict(m, s) + Restrict(n, t), recorded + Restrict(n, s + t);
    forall k ensures Lookup(a, k) == Lookup(b, k) {
      if k in s && k !in t { assert Lookup(n, k) == Lookup(m, k); }
    }
    SameLookups(a, b);
  }

  lemma {:induction false} SpentKeysStep(m: Pool, inputs: seq<TxInput>, i: nat)
    requires i < |inputs|
    ensures SpentKeys(m, inputs[..i + 1]) ==
            SpentKeys(m, inputs[..i]) + if InputKey(inputs[i]) in m then {InputKey(inputs[i])} else {}
  {
    var s, t := inputs[..i], inputs[..i + 1];
    assert forall j :: 0 <= j < i ==> s[j] == t[j];
    assert t[i] == inputs[i];
  }

  /** The pool and its record after flagging one more input. */
  lemma {:induction false} FlagStep(m: Pool, recorded: Pool, inputs: seq<TxInput>, i: nat)
    requires i < |inputs|
    ensures var before, k := MarkSpent(m, inputs[..i]), InputKey(inputs[i]);
      var noted := recorded + Restrict(before, SpentKeys(m, inputs[..i]));
      var after := MarkSpent(m, inputs[..i + 1]);
      && after == (if k in before then before[k := before[k].(spent := true)] else before)
      && recorded + Restrict(after, SpentKeys(m, inputs[..i + 1])) ==
         (if k in before then noted[k := before[k].(spent := true)] else noted)
  {
    var before, k := MarkSpent(m, inputs[..i]), InputKey(inputs[i]);
    assert inputs[..i + 1][..i] == inputs[..i];
    MarkSpentKeys(m, inputs[..i]);
    SpentKeysStep(m, inputs, i);
    if k in before {
      RecordWrite(recorded, before, SpentKeys(m, inputs[..i]), k, before[k].(spent := true));
    }
  }

  /**
   A snapshot keeps the unspent entries but the root of all entries. After loading, the root is that of the loaded
   entries exactly when nothing had been spent, unless something collides.
   */
  lemma {:induction false} LoadedRootIff(h: Hasher, m: Pool)
    requires Clear(h, m, LiveSet.Pruned(m))
    ensures PoolRoot(h, LiveSet.Pruned(m)) == PoolRoot(h, m) <==> forall k :: k in m ==> !m[k].spent
  {
    var kept := LiveSet.Pruned(m);
    PartRootIff(h, m, kept);
    if forall k :: k in m ==> !m[k].spent {
      assert kept == m;
    } else {
      var k :| k in m && m[k].spent;
      assert k in m.Keys && k !in kept.Keys;
    }
  }

  class UTXOPool {
    const hasher: Hasher
    const hasDatabase: bool
    var utxos: Pool
    var updates: Pool
    var deletions: seq<string>
    var merkleRoot: string
    var lastUpdateTime: int
    var savedSnapshots: map<nat, Snapshot>

    ghost function State(): PoolState
      reads this
    {
      PoolState(utxos, updates, deletions, lastUpdateTime)
    }

    constructor (hasher: Hasher, hasDatabase: bool)
      ensures State() == EMPTY_POOL && merkleRoot == "" && savedSnapshots == map[]
      ensures utxos == map[] && updates == map[] && deletions == [] && lastUpdateTime == 0
      ensures this.hasher == hasher && this.hasDatabase == hasDatabase
    {
      this.hasher := hasher;
      this.hasDatabase := hasDatabase;
      utxos, updates, deletions, merkleRoot, lastUpdateTime := map[], map[], [], "", 0;
      savedSnapshots := map[];
    }

    method FlagInputs(inputs: seq<TxInput>)
      modifies `utxos, `updates
      ensures utxos == MarkSpent(old(utxos), inputs)
      ensures updates == old(updates) + Restrict(utxos, SpentKeys(old(utxos), inputs))
    {
      for i := 0 to |inputs|
        invariant utxos == MarkSpent(old(utxos), inputs[..i])
        invariant updates == old(updates) + Restrict(utxos, SpentKeys(old(utxos), inputs[..i]))
      {
        FlagStep(old(utxos), old(updates), inputs, i);
        var inputKey := InputKey(inputs[i]);
        if inputKey in utxos {
          var utxo := utxos[inputKey].(spent := true);
          utxos := utxos[inputKey := utxo];
          updates := updates[inputKey := utxo];
        }
      }
      assert inputs[..|inputs|] == inputs;
    }

    method WriteOutputs(tx: Transaction, height: nat)
      modifies `utxos, `updates
      ensures utxos == AddOutputs(old(utxos), tx, height, |tx.outputs|)
      ensures updates == old(updates) + Restrict(utxos, OutputKeys(tx, |tx.outputs|))
    {
      for i := 0 to |tx.outputs|
        invariant utxos == AddOutputs(old(utxos), tx, height, i)
        invariant updates == old(updates) + Restrict(utxos, OutputKeys(tx, i))
      {
        var output := tx.outputs[i];
        var utxoKey := OutpointKey(tx.id, i);
        var utxo := UTXO(tx.id, i, output.amount, output.receiver, false, height, tx.timestamp, output.script);
        RecordWrite(old(updates), utxos, OutputKeys(tx, i), utxoKey, utxo);
        assert OutputKeys(tx, i + 1) == OutputKeys(tx, i) + {utxoKey};
        utxos := utxos[utxoKey := utxo];
        updates := updates[utxoKey := utxo];
      }
    }

    /** The part AddUTXO and ProcessBlockTransactions share: inputs first, then outputs. */
    method ApplyTransaction(tx: Transaction, height: nat)
      modifies `utxos, `updates
      ensures utxos == ApplyTx(old(utxos), tx, height)
      ensures updates == old(updates) + Restrict(utxos, Touched(old(utxos), tx))
    {
      if !tx.IsSystem() {
        FlagInputs(tx.inputs);
      }
      ghost var flagged := utxos;
      ghost var spentKeys := if tx.IsSystem() then {} else SpentKeys(old(utxos), tx.inputs);
      assert updates == old(updates) + Restrict(flagged, spentKeys);
      WriteOutputs(tx, height);
      forall k ensures k in spentKeys && k !in OutputKeys(tx, |tx.outputs|) ==> Lookup(utxos, k) == Lookup(flagged, k)
        ensures k in OutputKeys(tx, |tx.outputs|) ==> k in utxos
      {
        AddOutputsAt(flagged, tx, height, |tx.outputs|, k);
        OutputEffectIsSet(tx, height, |tx.outputs|, k);
      }
      RecordBatch(old(updates), flagged, spentKeys, utxos, OutputKeys(tx, |tx.outputs|));
    }

    method AddUTXO(tx: Transaction, blockHeight: nat, now: int)
      modifies this
      ensures State() == Step(old(State()), PoolOp.Add(tx, blockHeight, now))
      ensures utxos == ApplyTx(old(utxos), tx, blockHeight) && deletions == old(deletions) && lastUpdateTime == now
      ensures merkleRoot == PoolRoot(hasher, utxos)
      ensures savedSnapshots == old(savedSnapshots)
    {
      ApplyTransaction(tx, blockHeight);
      merkleRoot := CalculateMerkleRoot(hasher, utxos);
      lastUpdateTime := now;
    }

    method RemoveUTXO(txID: string, outputIndex: int, now: int)
      modifies this
      ensures State() == Step(old(State()), PoolOp.Remove(txID, outputIndex, now))
      ensures utxos == old(utxos) - {OutpointKey(txID, outputIndex)} && updates == old(updates)
      ensures deletions == old(deletions) + [OutpointKey(txID, outputIndex)] && lastUpdateTime == now
      ensures merkleRoot == PoolRoot(hasher, utxos)
      ensures savedSnapshots == old(savedSnapshots)
    {
      var key := OutpointKey(txID, outputIndex);
      utxos := utxos - {key};
      deletions := deletions + [key];
      lastUpdateTime := now;
      merkleRoot := CalculateMerkleRoot(hasher, utxos);
    }

    method ApplyTransactions(txs: seq<Transaction>, height: nat)
      modifies `utxos, `updates
      ensures utxos == ApplyBlock(old(utxos), txs, height)
      ensures updates == old(updates) + Restrict(utxos, BlockTouched(old(utxos), txs, height))
    {
      for i := 0 to |txs|
        invariant utxos == ApplyBlock(old(utxos), txs[..i], height)
        invariant updates == old(updates) + Restrict(utxos, BlockTouched(old(utxos), txs[..i], height))
      {
        assert txs[..i + 1][..i] == txs[..i];
        ghost var before, touched := utxos, BlockTouched(old(utxos), txs[..i], height);
        ApplyTransaction(txs[i], height);
        forall k ensures k in touched && k !in Touched(before, txs[i]) ==> Lookup(utxos, k) == Lookup(before, k)
          ensures k in Touched(before, txs[i]) ==> k in utxos
        {
          TouchedIff(before, txs[i], height, k);
        }
        RecordBatch(old(updates), before, touched, utxos, Touched(before, txs[i]));
      }
      assert txs[..|txs|] == txs;
    }

    /** The state is saved last, and the error of saving is the result; by then the pool has changed. */
    method ProcessBlockTransactions(block: Option<Block>, now: int, stored: bool, saved: bool) returns (ok: bool)
      modifies this
      ensures ok == (block.Some? && saved)
      ensures block.None? ==>
                State() == old(State()) && merkleRoot == old(merkleRoot) && savedSnapshots == old(savedSnapshots)
      ensures block.Some? ==> State() == Step(old(State()), PoolOp.Block(block.value.txs, block.value.number, now))
      ensures block.Some? ==>
                && utxos == ApplyBlock(old(utxos), block.value.txs, block.value.number)
                && deletions == old(deletions) && lastUpdateTime == now && merkleRoot == PoolRoot(hasher, utxos)
      ensures block.Some? && hasDatabase && stored && block.value.number % 100 == 0 ==>
                savedSnapshots == old(savedSnapshots)[block.value.number :=
                  Snapshot(block.value.number, block.value.hash, LiveSet.Pruned(utxos), merkleRoot, now)]
      ensures block.Some? && (!hasDatabase || !stored || block.value.number % 100 != 0) ==>
                savedSnapshots == old(savedSnapshots)
    {
      if block.None? {
        return false;
      }
      ApplyTransactions(block.value.txs, block.value.number);
      merkleRoot := CalculateMerkleRoot(hasher, utxos);
      lastUpdateTime := now;
      if block.value.number % 100 == 0 {
        var _ := CreateSnapshot(block.value.number, block.value.hash, now, stored);
      }
      ok := saved;
    }

    /** Keeps the unspent entries only; fails without a database or when the write fails. */
    method CreateSnapshot(blockHeight: nat, blockHash: string, now: int, stored: bool) returns (ok: bool)
      modifies `savedSnapshots
      ensures ok == (hasDatabase && stored)
      ensures savedSnapshots == if ok then
                old(savedSnapshots)[blockHeight :=
                  Snapshot(blockHeight, blockHash, LiveSet.Pruned(utxos), merkleRoot, now)]
                else old(savedSnapshots)
    {
      var kept := Unspent(utxos);
      ok := hasDatabase && stored;
      if ok {
        savedSnapshots := savedSnapshots[blockHeight := Snapshot(blockHeight, blockHash, kept, merkleRoot, now)];
      }
    }

    static method Unspent(m: Pool) returns (kept: Pool)
      ensures kept == LiveSet.Pruned(m)
    {
      kept := map[];
      var todo := m.Keys;
      while todo != {}
        invariant todo <= m.Keys
        invariant forall k :: k in kept <==> k in m && k !in todo && !m[k].spent
        invariant forall k :: k in kept ==> kept[k] == m[k]
      {
        var key :| key in todo;
        if !m[key].spent {
          kept := kept[key := m[key]];
        }
        todo := todo - {key};
      }
    }

    /** Replaces the entries by the stored ones. The record of changes is left as it is. */
    method LoadSnapshotAtHeight(blockHeight: nat) returns (ok: bool)
      modifies this
      ensures ok == (hasDatabase && blockHeight in old(savedSnapshots))
      ensures savedSnapshots == old(savedSnapshots)
      ensures !ok ==> State() == old(State()) && merkleRoot == old(merkleRoot)
      ensures ok ==> var s := savedSnapshots[blockHeight];
                && State() == old(State()).(utxos := s.utxos, lastUpdate := s.timestamp)
                && merkleRoot == s.merkleRoot
    {
      ok := hasDatabase && blockHeight in savedSnapshots;
      if ok {
        var snapshot := savedSnapshots[blockHeight];
        utxos, merkleRoot, lastUpdateTime := snapshot.utxos, snapshot.merkleRoot, snapshot.timestamp;
      }
    }

    method GetBalance(address: string) returns (balance: real)
      ensures balance == Balance(utxos, address)
    {
      balance := 0.0;
      var rest := utxos;
      while rest != map[]
        invariant balance + Total(rest, Some(address)) == Balance(utxos, address)
        decreases |rest|
      {
        var key :| key in rest;
        TotalWithout(rest, key, Some(address));
        if rest[key].owner == address && !rest[key].spent {
          balance := balance + rest[key].amount;
        }
        assert (rest - {key}).Keys == rest.Keys - {key};
        rest := rest - {key};
      }
    }

    // ---------- incremental updates ----------

    method GetDeltaUpdates(lastSyncTime: int, now: int) returns (delta: DeltaUpdate)
      ensures delta == DeltaOf(hasher, State(), lastSyncTime, now)
      ensures delta.updates == if lastUpdateTime > lastSyncTime then updates else map[]
      ensures delta.deletions == deletions && delta.stateRoot == PoolRoot(hasher, utxos)
      ensures delta.lastSync == lastSyncTime && delta.timestamp == now
    {
      var changed := CopyIf(updates, lastUpdateTime > lastSyncTime);
      var root := CalculateMerkleRoot(hasher, utxos);
      delta := DeltaUpdate(lastSyncTime, changed, deletions, root, now);
    }

    static method CopyIf(m: Pool, newer: bool) returns (copy: Pool)
      ensures copy == if newer then m else map[]
    {
      copy := map[];
      var todo := m.Keys;
      while todo != {}
        invariant todo <= m.Keys
        invariant forall k :: k in copy <==> k in m && k !in todo && newer
        invariant forall k :: k in copy ==> copy[k] == m[k]
      {
        var key :| key in todo;
        if newer {
          copy := copy[key := m[key]];
        }
        todo := todo - {key};
      }
    }

    method VerifyDeltaUpdate(delta: DeltaUpdate) returns (ok: bool)
      ensures ok <==> Acceptable(hasher, utxos, delta)
      ensures ok <==>
                && (forall k :: k in delta.updates ==> delta.updates[k].txid != "" && delta.updates[k].amount > 0.0)
                && PoolRoot(hasher, (utxos + delta.updates) - (set k | k in delta.deletions)) == delta.stateRoot
    {
      var valid, temp := MergeUpdates(utxos, delta.updates);
      if !valid {
        return false;
      }
      temp := DropKeys(temp, delta.deletions);
      var calculatedRoot := CalculateMerkleRoot(hasher, temp);
      ok := calculatedRoot == delta.stateRoot;
    }

    method ApplyDeltaUpdate(delta: DeltaUpdate) returns (ok: bool)
      modifies this
      ensures ok <==> Acceptable(hasher, old(utxos), delta)
      ensures !ok ==> State() == old(State()) && merkleRoot == old(merkleRoot)
      ensures ok ==> State() == old(State()).(utxos := Applied(old(utxos), delta), lastUpdate := delta.timestamp)
      ensures ok ==> merkleRoot == delta.stateRoot
      ensures savedSnapshots == old(savedSnapshots)
    {
      ok := VerifyDeltaUpdate(delta);
      if ok {
        var _, merged := MergeUpdates(utxos, delta.updates);
        utxos := DropKeys(merged, delta.deletions);
        lastUpdateTime := delta.timestamp;
        merkleRoot := CalculateMerkleRoot(hasher, utxos);
      }
    }

    /** Copies the updates over; the flag says whether every one of them is a valid entry. */
    static method MergeUpdates(m: Pool, changes: Pool) returns (valid: bool, merged: Pool)
      ensures valid <==> forall k :: k in changes ==> ValidEntry(changes[k])
      ensures merged == m + changes
    {
      merged, valid := m, true;
      var todo := changes.Keys;
      while todo != {}
        invariant todo <= changes.Keys
        invariant forall k :: k in merged <==> k in m || (k in changes && k !in todo)
        invariant forall k :: k in merged ==> merged[k] == if k in changes && k !in todo then changes[k] else m[k]
        invariant valid <==> forall k :: k in changes && k !in todo ==> ValidEntry(changes[k])
      {
        var key :| key in todo;
        valid := valid && changes[key].txid != "" && changes[key].amount > 0.0;
        merged := merged[key := changes[key]];
        todo := todo - {key};
      }
      assert merged == m + changes;
    }

    static method DropKeys(m: Pool, keys: seq<string>) returns (kept: Pool)
      ensures kept == m - Removed(keys)
    {
      kept := m;
      for i := 0 to |keys|
        invariant kept == m - Removed(keys[..i])
      {
        kept := kept - {keys[i]};
        assert Removed(keys[..i + 1]) == Removed(keys[..i]) + {keys[i]};
      }
      assert keys[..|keys|] == keys;
    }
  }
}
