/**
 The second ledger: a plain set of live outputs, from which spending deletes. It is what the
 flag-based pool refines, and it is all that a pruned snapshot has to keep.
 */
module LiveSet {
  import opened Types
  import opened Text
  import opened Ledger
  import opened Balances

  /** The fields both ledgers agree on; the delete-based one leaves height and time at zero. */
  function Projected(u: UTXO): UTXO {
    UTXO(u.txid, u.index, u.amount, u.owner, false, 0, 0, u.script)
  }

  /** The live set a flag-based pool stands for. */
  function View(m: Pool): Pool {
    map k | k in m && !m[k].spent :: Projected(m[k])
  }

  function DeleteInputs(live: Pool, inputs: seq<TxInput>): Pool {
    if inputs == [] then live else
      DeleteInputs(live, inputs[..|inputs| - 1]) - {InputKey(inputs[|inputs| - 1])}
  }

  function InsertOutputs(live: Pool, tx: Transaction, n: nat): Pool
    requires n <= |tx.outputs|
  {
    if n == 0 then live else
      InsertOutputs(live, tx, n - 1)[OutpointKey(tx.id, n - 1) := Projected(OutputEntry(tx, n - 1, 0))]
  }

  function Remaining(live: Pool, tx: Transaction): Pool {
    if tx.IsSystem() then live else DeleteInputs(live, tx.inputs)
  }

  function Updated(live: Pool, tx: Transaction): Pool {
    InsertOutputs(Remaining(live, tx), tx, |tx.outputs|)
  }

  function UpdatedBy(live: Pool, txs: seq<Transaction>): Pool {
    if txs == [] then live else Updated(UpdatedBy(live, txs[..|txs| - 1]), txs[|txs| - 1])
  }

  method UpdateUTXOSet(tx: Transaction, utxoSet: Pool) returns (live: Pool)
    ensures live == Updated(utxoSet, tx)
  {
    live := utxoSet;
    if !tx.IsSystem() {
      for i := 0 to |tx.inputs|
        invariant live == DeleteInputs(utxoSet, tx.inputs[..i])
      {
        assert tx.inputs[..i + 1][..i] == tx.inputs[..i];
        live := live - {InputKey(tx.inputs[i])};
      }
      assert tx.inputs[..|tx.inputs|] == tx.inputs;
    }
    ghost var remaining := live;
    for i := 0 to |tx.outputs|
      invariant live == InsertOutputs(remaining, tx, i)
    {
      live := live[OutpointKey(tx.id, i) :=
        UTXO(tx.id, i, tx.outputs[i].amount, tx.outputs[i].receiver, false, 0, 0, tx.outputs[i].script)];
    }
  }

  // ---------- the same, one key at a time ----------

  function ActLive(e: Effect, o: Option<UTXO>): Option<UTXO> {
    match e
    case Keep => o
    case Spend => None
    case Set(u) => if u.spent then None else Some(Projected(u))
  }

  lemma {:induction false} DeleteInputsAt(live: Pool, inputs: seq<TxInput>, k: string)
    ensures Lookup(DeleteInputs(live, inputs), k) ==
            if Names(inputs, k) then None else Lookup(live, k)
  {
    if inputs != [] {
      DeleteInputsAt(live, inputs[..|inputs| - 1], k);
      NamesStep(inputs, k);
    }
  }

  lemma {:induction false} InsertOutputsAt(live: Pool, tx: Transaction, height: nat, n: nat, k: string)
    requires n <= |tx.outputs|
    ensures Lookup(InsertOutputs(live, tx, n), k) == ActLive(OutputEffect(tx, height, n, k), Lookup(live, k))
  {
    if n > 0 { InsertOutputsAt(live, tx, height, n - 1, k); }
  }

  lemma {:induction false} UpdatedAt(live: Pool, tx: Transaction, height: nat, k: string)
    ensures Lookup(Updated(live, tx), k) == ActLive(TxEffect(tx, height, k), Lookup(live, k))
  {
    DeleteInputsAt(live, tx.inputs, k);
    InsertOutputsAt(Remaining(live, tx), tx, height, |tx.outputs|, k);
    OutputEffectIsSet(tx, height, |tx.outputs|, k);
  }

  /** After an update every output is there, with height and time left at zero. */
  lemma {:induction false} UpdatedEntry(live: Pool, tx: Transaction, i: nat)
    requires i < |tx.outputs|
    ensures Lookup(Updated(live, tx), OutpointKey(tx.id, i)) ==
            Some(UTXO(tx.id, i, tx.outputs[i].amount, tx.outputs[i].receiver, false, 0, 0, tx.outputs[i].script))
  {
    UpdatedAt(live, tx, 0, OutpointKey(tx.id, i));
    TxEffectCases(tx, 0, OutpointKey(tx.id, i));
    OutputAt(tx, 0, |tx.outputs|, i);
  }

  /** One transaction on the flag-based pool is one UpdateUTXOSet on its view, for every pool. */
  lemma {:induction false} ApplyTxRefines(m: Pool, tx: Transaction, height: nat)
    ensures View(ApplyTx(m, tx, height)) == Updated(View(m), tx)
  {
    var flagged, live := View(ApplyTx(m, tx, height)), Updated(View(m), tx);
    forall k ensures Lookup(flagged, k) == Lookup(live, k) {
      ApplyTxAt(m, tx, height, k);
      UpdatedAt(View(m), tx, height, k);
      TxEffectCases(tx, height, k);
    }
    SameLookups(flagged, live);
  }

  lemma {:induction false} ApplyBlockRefines(m: Pool, txs: seq<Transaction>, height: nat)
    ensures View(ApplyBlock(m, txs, height)) == UpdatedBy(View(m), txs)
  {
    if txs != [] {
      ApplyBlockRefines(m, txs[..|txs| - 1], height);
      ApplyTxRefines(ApplyBlock(m, txs[..|txs| - 1], height), txs[|txs| - 1], height);
    }
  }

  // ---------- pruned snapshots ----------

  datatype BlockTxs = BlockTxs(txs: seq<Transaction>, height: nat)

  function ApplyBlocks(m: Pool, blocks: seq<BlockTxs>): Pool {
    if blocks == [] then m else
      var last := blocks[|blocks| - 1];
      ApplyBlock(ApplyBlocks(m, blocks[..|blocks| - 1]), last.txs, last.height)
  }

  /** What CreateSnapshot stores. */
  function Pruned(m: Pool): Pool { map k | k in m && !m[k].spent :: m[k] }

  lemma {:induction false} SameViewSameFuture(m: Pool, n: Pool, blocks: seq<BlockTxs>)
    requires View(m) == View(n)
    ensures View(ApplyBlocks(m, blocks)) == View(ApplyBlocks(n, blocks))
  {
    if blocks != [] {
      var init, last := blocks[..|blocks| - 1], blocks[|blocks| - 1];
      SameViewSameFuture(m, n, init);
      ApplyBlockRefines(ApplyBlocks(m, init), last.txs, last.height);
      ApplyBlockRefines(ApplyBlocks(n, init), last.txs, last.height);
    }
  }

  /** Totals see only the view. */
  lemma {:induction false} TotalOfView(m: Pool, who: Option<string>)
    ensures Total(m, who) == Total(View(m), who)
    decreases |m|
  {
    if m == map[] {
      assert View(m) == map[];
    } else {
      var k :| k in m;
      assert |m - {k}| < |m| by { assert (m - {k}).Keys == m.Keys - {k}; }
      TotalOfView(m - {k}, who);
      TotalWithout(m, k, who);
      TotalWithout(View(m), k, who);
      assert View(m - {k}) == View(m) - {k};
    }
  }

  /** A pool restored from a pruned snapshot and fed the later blocks has the balances of one never pruned. */
  lemma {:induction false} PrunedPoolKeepsBalances(m: Pool, blocks: seq<BlockTxs>, who: Option<string>)
    ensures View(ApplyBlocks(Pruned(m), blocks)) == View(ApplyBlocks(m, blocks))
    ensures Total(ApplyBlocks(Pruned(m), blocks), who) == Total(ApplyBlocks(m, blocks), who)
  {
    assert View(Pruned(m)) == View(m);
    SameViewSameFuture(Pruned(m), m, blocks);
    TotalOfView(ApplyBlocks(Pruned(m), blocks), who);
    TotalOfView(ApplyBlocks(m, blocks), who);
  }

  /** The view drops what is spent, and keeps id, index, amount, owner and script of the rest. */
  lemma {:induction false} ViewAt(m: Pool, k: string)
    ensures k in View(m) <==> k in m && !m[k].spent
    ensures k in View(m) ==>
      View(m)[k] == UTXO(m[k].txid, m[k].index, m[k].amount, m[k].owner, false, 0, 0, m[k].script)
  {
  }

  /** Pruning drops what is spent and leaves the rest as it is. */
  lemma {:induction false} PrunedAt(m: Pool, k: string)
    ensures Lookup(Pruned(m), k) == if k in m && m[k].spent then None else Lookup(m, k)
  {
  }
}
