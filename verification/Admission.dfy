/** The admission test written out, and what it counts against what a transaction spends. */
module Admission {
  import opened Types
  import opened Text
  import opened Ledger
  import opened Balances
  import opened Conservation
  import opened Mempool
  import Gas

  ghost predicate Positive(m: Pool) {
    forall k :: k in m ==> m[k].amount > 0.0
  }

  lemma {:induction false} DistinctStep(inputs: seq<TxInput>)
    requires inputs != []
    ensures var init, last := inputs[..|inputs| - 1], inputs[|inputs| - 1];
      DistinctInputs(inputs) <==> DistinctInputs(init) && !Names(init, InputKey(last))
  {
    var n := |inputs| - 1;
    var init := inputs[..n];
    assert forall i :: 0 <= i < n ==> init[i] == inputs[i];
    if DistinctInputs(init) && !Names(init, InputKey(inputs[n])) {
      forall i, j | 0 <= i < j < |inputs| ensures InputKey(inputs[i]) != InputKey(inputs[j]) {
        assert InputKey(init[i]) == InputKey(inputs[i]);
        if j < n { assert InputKey(init[j]) == InputKey(inputs[j]); }
      }
    }
  }

  /** The test counts at least what is spent, and exactly that if and only if no input is named twice. */
  lemma {:induction false} CountedIsSpentIff(m: Pool, sender: string, inputs: seq<TxInput>)
    requires Positive(m) && InputSum(m, sender, inputs).Some?
    ensures var counted, spent := InputSum(m, sender, inputs).value, SpentWorth(m, inputs, None);
      counted >= spent && (counted == spent <==> DistinctInputs(inputs))
  {
    if inputs != [] {
      var init, k := inputs[..|inputs| - 1], InputKey(inputs[|inputs| - 1]);
      CountedIsSpentIff(m, sender, init);
      DistinctStep(inputs);
      MarkSpentAt(m, init, k);
      SpentOnceOnly(m, init, k);
    }
  }

  lemma {:induction false} SpentOnceOnly(m: Pool, inputs: seq<TxInput>, k: string)
    requires k in m && !m[k].spent
    ensures WorthAt(MarkSpent(m, inputs), k, None) == if Names(inputs, k) then 0.0 else m[k].amount
  {
    MarkSpentAt(m, inputs, k);
  }

  /**
   An accepted transaction that pays out what was counted, less its fee, and overwrites nothing: it never burns more
   than its fee, and it burns exactly its fee if and only if no input is named twice. Otherwise it mints.
   */
  lemma {:induction false} RepeatedInputMintsIff(
      m: Pool, tx: Transaction, height: nat, signed: Transaction -> bool)
    requires Positive(m) && !tx.IsSystem() && Acceptable(tx, m, signed)
    requires OutputWorth(tx, |tx.outputs|, None) == InputSum(m, tx.sender, tx.inputs).value - tx.gasFee
    requires NothingLost(SpendInputs(m, tx), tx.id, |tx.outputs|)
    ensures Supply(ApplyTx(m, tx, height)) >= Supply(m) - tx.gasFee
    ensures Supply(ApplyTx(m, tx, height)) == Supply(m) - tx.gasFee <==> DistinctInputs(tx.inputs)
  {
    TransactionAccounting(m, tx, height, None);
    NobodyLoses(SpendInputs(m, tx), tx.id, |tx.outputs|, None);
    CountedIsSpentIff(m, tx.sender, tx.inputs);
  }

  /**
   The admission test looks at the amount and never at the outputs. An accepted transaction that overwrites nothing
   mints exactly when its outputs are worth more than what it spends, which is at most what was counted.
   */
  lemma {:induction false} AcceptedMintsIff(m: Pool, tx: Transaction, height: nat, signed: Transaction -> bool)
    requires Positive(m) && !tx.IsSystem() && Acceptable(tx, m, signed)
    requires NothingLost(SpendInputs(m, tx), tx.id, |tx.outputs|)
    ensures Supply(ApplyTx(m, tx, height)) > Supply(m) <==>
            OutputWorth(tx, |tx.outputs|, None) > SpentWorth(m, tx.inputs, None)
    ensures SpentWorth(m, tx.inputs, None) <= InputSum(m, tx.sender, tx.inputs).value
    ensures DistinctInputs(tx.inputs) ==>
            SpentWorth(m, tx.inputs, None) == InputSum(m, tx.sender, tx.inputs).value >= Required(tx)
  {
    TransactionAccounting(m, tx, height, None);
    NobodyLoses(SpendInputs(m, tx), tx.id, |tx.outputs|, None);
    CountedIsSpentIff(m, tx.sender, tx.inputs);
  }

  // ---------- the admission test, written out ----------

  lemma {:induction false} CountedIsValue(m: Pool, sender: string, inputs: seq<TxInput>)
    requires InputSum(m, sender, inputs).Some?
    ensures InputSum(m, sender, inputs).value == InputValue(m, inputs)
  {
    if inputs != [] { CountedIsValue(m, sender, inputs[..|inputs| - 1]); }
  }

  /** Every input names an unspent output of the sender. */
  ghost predicate OwnInputs(tx: Transaction, utxos: Pool) {
    forall i :: 0 <= i < |tx.inputs| ==>
      OwnOutput(utxos, OutpointKey(tx.inputs[i].txid, tx.inputs[i].index), tx.sender)
  }

  predicate OwnOutput(utxos: Pool, k: string, owner: string) {
    k in utxos && !utxos[k].spent && utxos[k].owner == owner
  }

  lemma {:induction false} OwnInputsIff(tx: Transaction, utxos: Pool)
    ensures InputSum(utxos, tx.sender, tx.inputs).Some? <==> OwnInputs(tx, utxos)
  {
    InputSumIff(utxos, tx.sender, tx.inputs);
    forall i | 0 <= i < |tx.inputs|
      ensures LiveOf(utxos, tx.sender, InputKey(tx.inputs[i])) <==>
              OwnOutput(utxos, OutpointKey(tx.inputs[i].txid, tx.inputs[i].index), tx.sender)
    {
    }
  }

  /**
   A regular or stake transaction is admitted exactly when its gas is in range, a stake has its shape, every input is
   an unspent output of the sender, the inputs cover the amount and, unless it is a stake, the largest fee computed
   with 64 bits, and the signature is good.
   */
  lemma {:induction false} AdmissionIff(tx: Transaction, utxos: Pool, signed: Transaction -> bool)
    requires tx.txType != 1 && tx.txType != 2
    ensures Acceptable(tx, utxos, signed) <==>
      && 21000 <= tx.gasLimit <= 2100000 && 10 <= tx.gasPrice <= 1000 && tx.gasLimit * tx.gasPrice <= 200000000
      && (tx.txType == 3 ==> |tx.inputs| > 0 && |tx.outputs| > 0 && tx.outputs[0].receiver == tx.sender)
      && (forall i :: 0 <= i < |tx.inputs| ==>
            var k := OutpointKey(tx.inputs[i].txid, tx.inputs[i].index);
            k in utxos && !utxos[k].spent && utxos[k].owner == tx.sender)
      && InputValue(utxos, tx.inputs) >= tx.amount + (if tx.txType == 3 then 0.0 else
           (tx.gasLimit * tx.maxFeePerGas % 18446744073709551616) as real / 100000000.0)
      && signed(tx)
  {
    OwnInputsIff(tx, utxos);
    if InputSum(utxos, tx.sender, tx.inputs).Some? { CountedIsValue(utxos, tx.sender, tx.inputs); }
    Gas.ValidateGasIff(tx.gasLimit, tx.gasPrice);
  }

  /** Coinbase and validator rewards are admitted without any test. */
  lemma {:induction false} SystemIsAdmitted(tx: Transaction, utxos: Pool, signed: Transaction -> bool)
    requires tx.txType == 1 || tx.txType == 2
    ensures Acceptable(tx, utxos, signed)
  {
  }
}
