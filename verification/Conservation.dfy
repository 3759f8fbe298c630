/** How much unspent value a transaction moves, creates and destroys. */
module Conservation {
  import opened Types
  import opened Text
  import opened Ledger
  import opened Balances

  /** No output of this transaction is in the pool yet. */
  ghost predicate Fresh(m: Pool, id: string) {
    forall i: nat :: OutpointKey(id, i) !in m
  }

  // ---------- the general accounting law ----------

  /** The value that flagging the inputs takes away: an input flagged before counts for nothing. */
  function SpentWorth(m: Pool, inputs: seq<TxInput>, who: Option<string>): real {
    if inputs == [] then 0.0 else
      var init := inputs[..|inputs| - 1];
      SpentWorth(m, init, who) + WorthAt(MarkSpent(m, init), InputKey(inputs[|inputs| - 1]), who)
  }

  function OutputWorth(tx: Transaction, n: nat, who: Option<string>): real
    requires n <= |tx.outputs|
  {
    if n == 0 then 0.0 else
      OutputWorth(tx, n - 1, who) + Worth(OutputEntry(tx, n - 1, 0), who)
  }

  lemma {:induction false} MarkSpentTotal(m: Pool, inputs: seq<TxInput>, who: Option<string>)
    ensures Total(MarkSpent(m, inputs), who) == Total(m, who) - SpentWorth(m, inputs, who)
  {
    if inputs != [] {
      var init := inputs[..|inputs| - 1];
      var before, k := MarkSpent(m, init), InputKey(inputs[|inputs| - 1]);
      MarkSpentTotal(m, init, who);
      if k in before { TotalAfterWrite(before, k, before[k].(spent := true), who); }
    }
  }

  /** The unspent value under the keys of the first n outputs: writing the outputs destroys it. */
  function OverwrittenUpTo(m: Pool, id: string, n: nat, who: Option<string>): real {
    if n == 0 then 0.0 else OverwrittenUpTo(m, id, n - 1, who) + WorthAt(m, OutpointKey(id, n - 1), who)
  }

  /** What a transaction destroys by overwriting, once its inputs are flagged. */
  function Overwritten(m: Pool, tx: Transaction, who: Option<string>): real {
    OverwrittenUpTo(SpendInputs(m, tx), tx.id, |tx.outputs|, who)
  }

  lemma {:induction false} AddOutputsTotal(m: Pool, tx: Transaction, height: nat, n: nat, who: Option<string>)
    requires n <= |tx.outputs|
    ensures Total(AddOutputs(m, tx, height, n), who) ==
            Total(m, who) + OutputWorth(tx, n, who) - OverwrittenUpTo(m, tx.id, n, who)
  {
    if n > 0 {
      var before, k := AddOutputs(m, tx, height, n - 1), OutpointKey(tx.id, n - 1);
      AddOutputsTotal(m, tx, height, n - 1, who);
      AddOutputsAt(m, tx, height, n - 1, k);
      OutputEffectIsSet(tx, height, n - 1, k);
      forall i | 0 <= i < n - 1 ensures OutpointKey(tx.id, i) != k {
        if OutpointKey(tx.id, i) == k { OutpointKeyInjective(tx.id, i, tx.id, n - 1); }
      }
      assert Lookup(before, k) == Lookup(m, k);
      TotalAfterWrite(before, k, OutputEntry(tx, n - 1, height), who);
    }
  }

  /**
   Every transaction on every pool: totals fall by what it really spends, rise by its outputs and fall by what
   the outputs overwrite.
   */
  lemma {:induction false} TransactionAccounting(m: Pool, tx: Transaction, height: nat, who: Option<string>)
    ensures Total(ApplyTx(m, tx, height), who) ==
            Total(m, who) - (if tx.IsSystem() then 0.0 else SpentWorth(m, tx.inputs, who))
            + OutputWorth(tx, |tx.outputs|, who) - Overwritten(m, tx, who)
  {
    MarkSpentTotal(m, tx.inputs, who);
    AddOutputsTotal(SpendInputs(m, tx), tx, height, |tx.outputs|, who);
  }

  // ---------- when nothing is overwritten ----------

  ghost predicate NonNegative(m: Pool) {
    forall k :: k in m ==> m[k].amount >= 0.0
  }

  /** No output goes where something of value is still unspent. */
  ghost predicate NothingLost(m: Pool, id: string, n: nat) {
    forall i: nat :: i < n ==> WorthAt(m, OutpointKey(id, i), None) == 0.0
  }

  lemma {:induction false} OverwrittenNothingIff(m: Pool, id: string, n: nat)
    requires NonNegative(m)
    ensures OverwrittenUpTo(m, id, n, None) >= 0.0
    ensures OverwrittenUpTo(m, id, n, None) == 0.0 <==> NothingLost(m, id, n)
  {
    if n > 0 {
      OverwrittenNothingIff(m, id, n - 1);
      assert WorthAt(m, OutpointKey(id, n - 1), None) >= 0.0;
    }
  }

  lemma {:induction false} SpendKeepsNonNegative(m: Pool, inputs: seq<TxInput>)
    requires NonNegative(m)
    ensures NonNegative(MarkSpent(m, inputs))
  {
    if inputs != [] { SpendKeepsNonNegative(m, inputs[..|inputs| - 1]); }
  }

  lemma {:induction false} NobodyLoses(m: Pool, id: string, n: nat, who: Option<string>)
    requires NothingLost(m, id, n)
    ensures OverwrittenUpTo(m, id, n, who) == 0.0
  {
    if n > 0 {
      NobodyLoses(m, id, n - 1, who);
      assert WorthAt(m, OutpointKey(id, n - 1), None) == 0.0;
    }
  }

  lemma {:induction false} FreshLosesNothing(m: Pool, tx: Transaction)
    requires Fresh(m, tx.id)
    ensures NothingLost(SpendInputs(m, tx), tx.id, |tx.outputs|)
  {
    MarkSpentKeys(m, tx.inputs);
    forall i: nat | i < |tx.outputs| ensures WorthAt(SpendInputs(m, tx), OutpointKey(tx.id, i), None) == 0.0 {
      assert OutpointKey(tx.id, i) !in m;
    }
  }

  lemma {:induction false} FreshOverwritesNothing(m: Pool, tx: Transaction, who: Option<string>)
    requires Fresh(m, tx.id)
    ensures Overwritten(m, tx, who) == 0.0
  {
    FreshLosesNothing(m, tx);
    NobodyLoses(SpendInputs(m, tx), tx.id, |tx.outputs|, who);
  }

  // ---------- payments ----------

  function Pay(tx: Transaction): TxOutput { TxOutput(tx.receiver, tx.amount, "") }

  /** The output that returns what is left over, if anything is. */
  function Change(owner: string, amount: real): seq<TxOutput> {
    if amount > 0.0 then [TxOutput(owner, amount, "")] else []
  }

  ghost predicate DistinctInputs(inputs: seq<TxInput>) {
    forall i, j :: 0 <= i < j < |inputs| ==> InputKey(inputs[i]) != InputKey(inputs[j])
  }

  /** Every input is an unspent output of the owner. */
  ghost predicate SpendableBy(m: Pool, inputs: seq<TxInput>, owner: string) {
    forall i :: 0 <= i < |inputs| ==>
      var k := InputKey(inputs[i]); k in m && !m[k].spent && m[k].owner == owner
  }

  function InputValue(m: Pool, inputs: seq<TxInput>): real {
    if inputs == [] then 0.0 else
      var k := InputKey(inputs[|inputs| - 1]);
      InputValue(m, inputs[..|inputs| - 1]) + if k in m then m[k].amount else 0.0
  }

  /** What NewTransaction followed by one successful SelectUTXOs produces. */
  ghost predicate Funded(m: Pool, tx: Transaction) {
    var change := InputValue(m, tx.inputs) - (tx.amount + tx.gasFee);
    && tx.txType == TX_REGULAR
    && DistinctInputs(tx.inputs) && SpendableBy(m, tx.inputs, tx.sender)
    && change >= 0.0
    && tx.outputs == [Pay(tx)] + Change(tx.sender, change)
  }

  lemma {:induction false} DistinctInputsSpendTheirValue(
      m: Pool, inputs: seq<TxInput>, owner: string, who: Option<string>)
    requires DistinctInputs(inputs) && SpendableBy(m, inputs, owner)
    ensures SpentWorth(m, inputs, who) == if who.None? || who.value == owner then InputValue(m, inputs) else 0.0
  {
    if inputs != [] {
      var init, k := inputs[..|inputs| - 1], InputKey(inputs[|inputs| - 1]);
      assert forall i :: 0 <= i < |init| ==> init[i] == inputs[i];
      DistinctInputsSpendTheirValue(m, init, owner, who);
      MarkSpentAt(m, init, k);
      assert Lookup(MarkSpent(m, init), k) == Lookup(m, k);
    }
  }

  lemma {:induction false} FundedOutputWorth(m: Pool, tx: Transaction, who: Option<string>)
    requires Funded(m, tx)
    ensures OutputWorth(tx, |tx.outputs|, who) ==
            (if who.None? || who.value == tx.receiver then tx.amount else 0.0)
            + (if who.None? || who.value == tx.sender then InputValue(m, tx.inputs) - (tx.amount + tx.gasFee) else 0.0)
  {
    assert tx.outputs[0] == Pay(tx);
    assert OutputWorth(tx, 1, who) == OutputWorth(tx, 0, who) + Worth(OutputEntry(tx, 0, 0), who);
    if |tx.outputs| == 2 {
      assert OutputWorth(tx, 2, who) == OutputWorth(tx, 1, who) + Worth(OutputEntry(tx, 1, 0), who);
    }
  }

  /** Each total moves by the amount, the fee and what is overwritten. */
  lemma {:induction false} PaymentMoves(m: Pool, tx: Transaction, height: nat, who: Option<string>)
    requires Funded(m, tx)
    ensures Total(ApplyTx(m, tx, height), who) == Total(m, who)
            + (if who.None? || who.value == tx.receiver then tx.amount else 0.0)
            - (if who.None? || who.value == tx.sender then tx.amount + tx.gasFee else 0.0)
            - Overwritten(m, tx, who)
  {
    TransactionAccounting(m, tx, height, who);
    DistinctInputsSpendTheirValue(m, tx.inputs, tx.sender, who);
    FundedOutputWorth(m, tx, who);
  }

  /** On every pool: a payment burns exactly its fee if and only if it overwrites nothing of value. */
  lemma {:induction false} PaymentBurnsFeeIff(m: Pool, tx: Transaction, height: nat)
    requires NonNegative(m) && Funded(m, tx)
    ensures Supply(ApplyTx(m, tx, height)) == Supply(m) - tx.gasFee <==>
            NothingLost(SpendInputs(m, tx), tx.id, |tx.outputs|)
    ensures Supply(ApplyTx(m, tx, height)) <= Supply(m) - tx.gasFee
  {
    PaymentMoves(m, tx, height, None);
    SpendKeepsNonNegative(m, tx.inputs);
    OverwrittenNothingIff(SpendInputs(m, tx), tx.id, |tx.outputs|);
  }

  /** A payment that overwrites nothing of value burns its fee and moves its amount, and touches nobody else. */
  lemma {:induction false} PaymentConserves(m: Pool, tx: Transaction, height: nat, other: string)
    requires Funded(m, tx) && NothingLost(SpendInputs(m, tx), tx.id, |tx.outputs|)
    ensures var n := ApplyTx(m, tx, height);
      && Supply(n) == Supply(m) - tx.gasFee
      && (tx.sender != tx.receiver ==>
            && Balance(n, tx.sender) == Balance(m, tx.sender) - (tx.amount + tx.gasFee)
            && Balance(n, tx.receiver) == Balance(m, tx.receiver) + tx.amount)
      && (tx.sender == tx.receiver ==> Balance(n, tx.sender) == Balance(m, tx.sender) - tx.gasFee)
      && (other != tx.sender && other != tx.receiver ==> Balance(n, other) == Balance(m, other))
  {
    LosslessPaymentMoves(m, tx, height, None);
    LosslessPaymentMoves(m, tx, height, Some(tx.sender));
    LosslessPaymentMoves(m, tx, height, Some(tx.receiver));
    LosslessPaymentMoves(m, tx, height, Some(other));
  }

  lemma {:induction false} LosslessPaymentMoves(m: Pool, tx: Transaction, height: nat, who: Option<string>)
    requires Funded(m, tx) && NothingLost(SpendInputs(m, tx), tx.id, |tx.outputs|)
    ensures Total(ApplyTx(m, tx, height), who) == Total(m, who)
            + (if who.None? || who.value == tx.receiver then tx.amount else 0.0)
            - (if who.None? || who.value == tx.sender then tx.amount + tx.gasFee else 0.0)
  {
    PaymentMoves(m, tx, height, who);
    NobodyLoses(SpendInputs(m, tx), tx.id, |tx.outputs|, who);
  }

  // ---------- two payments with the same id ----------

  /** Nothing of the receiver's is under the id but the payment at index 0. */
  lemma {:induction false} ReceiverUnderId(m: Pool, tx: Transaction, height: nat, i: nat)
    requires Fresh(m, tx.id) && Funded(m, tx) && tx.sender != tx.receiver
    ensures WorthAt(ApplyTx(m, tx, height), OutpointKey(tx.id, i), Some(tx.receiver)) ==
            if i == 0 then tx.amount else 0.0
  {
    var k := OutpointKey(tx.id, i);
    ApplyTxAt(m, tx, height, k);
    OutputAt(tx, height, |tx.outputs|, i);
    assert k !in m;
    assert tx.outputs[0] == Pay(tx) && (|tx.outputs| > 1 ==> tx.outputs[1].receiver == tx.sender);
  }

  /** Flagging outputs of the sender leaves what the receiver owns. */
  lemma {:induction false} SpendKeepsOthers(m: Pool, inputs: seq<TxInput>, sender: string, owner: string, k: string)
    requires SpendableBy(m, inputs, sender) && owner != sender
    ensures WorthAt(MarkSpent(m, inputs), k, Some(owner)) == WorthAt(m, k, Some(owner))
  {
    MarkSpentAt(m, inputs, k);
  }

  lemma {:induction false} OverwrittenOfReceiver(m: Pool, first: Transaction, second: Transaction, height: nat, n: nat)
    requires Fresh(m, first.id) && Funded(m, first) && Funded(ApplyTx(m, first, height), second)
    requires first.sender == second.sender != first.receiver && second.id == first.id
    ensures OverwrittenUpTo(SpendInputs(ApplyTx(m, first, height), second), first.id, n, Some(first.receiver)) ==
            if n == 0 then 0.0 else first.amount
  {
    if n > 0 {
      var paid := ApplyTx(m, first, height);
      OverwrittenOfReceiver(m, first, second, height, n - 1);
      SpendKeepsOthers(paid, second.inputs, second.sender, first.receiver, OutpointKey(first.id, n - 1));
      ReceiverUnderId(m, first, height, n - 1);
    }
  }

  /**
   The id of a payment is a digest of sender, receiver, amount, gas and the whole second. Two payments that share
   it leave the receiver with the second one only.
   */
  lemma {:induction false} SameIdPaysOnce(m: Pool, first: Transaction, second: Transaction, height: nat)
    requires Fresh(m, first.id) && Funded(m, first) && Funded(ApplyTx(m, first, height), second)
    requires first.sender == second.sender && first.receiver == second.receiver && first.sender != first.receiver
    requires second.id == first.id
    ensures Balance(ApplyTx(ApplyTx(m, first, height), second, height), first.receiver) ==
            Balance(m, first.receiver) + second.amount
  {
    var paid := ApplyTx(m, first, height);
    FreshLosesNothing(m, first);
    PaymentConserves(m, first, height, first.receiver);
    PaymentMoves(paid, second, height, Some(first.receiver));
    OverwrittenOfReceiver(m, first, second, height, |second.outputs|);
  }

  // ---------- payments assembled by the RPC handler ----------

  /** What the RPC handler assembles: SelectUTXOs returns the change, and the handler returns it again. */
  ghost predicate AssembledByRpc(m: Pool, tx: Transaction) {
    var change := InputValue(m, tx.inputs) - (tx.amount + tx.gasFee);
    && tx.txType == TX_REGULAR
    && DistinctInputs(tx.inputs) && SpendableBy(m, tx.inputs, tx.sender)
    && change >= 0.0
    && tx.outputs == Change(tx.sender, change) + [Pay(tx)] + Change(tx.sender, change)
  }

  /** On every pool such a payment creates its change a second time. */
  lemma {:induction false} RpcPaymentAccounting(m: Pool, tx: Transaction, height: nat)
    requires AssembledByRpc(m, tx)
    ensures var change := InputValue(m, tx.inputs) - (tx.amount + tx.gasFee);
      Supply(ApplyTx(m, tx, height)) == Supply(m) - tx.gasFee + change - Overwritten(m, tx, None)
  {
    TransactionAccounting(m, tx, height, None);
    DistinctInputsSpendTheirValue(m, tx.inputs, tx.sender, None);
    assert OutputWorth(tx, 1, None) == OutputWorth(tx, 0, None) + Worth(OutputEntry(tx, 0, 0), None);
    if |tx.outputs| == 3 {
      assert OutputWorth(tx, 2, None) == OutputWorth(tx, 1, None) + Worth(OutputEntry(tx, 1, 0), None);
      assert OutputWorth(tx, 3, None) == OutputWorth(tx, 2, None) + Worth(OutputEntry(tx, 2, 0), None);
    }
  }

  /** So it burns its fee exactly when the change is what it overwrites, which for an unused id is nothing. */
  lemma {:induction false} RpcPaymentConservesIff(m: Pool, tx: Transaction, height: nat)
    requires AssembledByRpc(m, tx)
    ensures var change := InputValue(m, tx.inputs) - (tx.amount + tx.gasFee);
      && (Supply(ApplyTx(m, tx, height)) == Supply(m) - tx.gasFee <==> change == Overwritten(m, tx, None))
      && (Fresh(m, tx.id) ==>
            (Supply(ApplyTx(m, tx, height)) == Supply(m) - tx.gasFee <==> change == 0.0))
  {
    RpcPaymentAccounting(m, tx, height);
    if Fresh(m, tx.id) { FreshOverwritesNothing(m, tx, None); }
  }

  // ---------- whole runs ----------

  datatype Entry = Entry(tx: Transaction, height: nat)

  function Run(m: Pool, entries: seq<Entry>): Pool {
    if entries == [] then m else
      var last := entries[|entries| - 1];
      ApplyTx(Run(m, entries[..|entries| - 1]), last.tx, last.height)
  }

  /** Every entry, when its turn comes, is a reward or a funded payment. */
  ghost predicate Legitimate(m: Pool, entries: seq<Entry>) {
    entries != [] ==>
      var init, tx := entries[..|entries| - 1], entries[|entries| - 1].tx;
      Legitimate(m, init) && (tx.IsSystem() || Funded(Run(m, init), tx))
  }

  function Rewards(entries: seq<Entry>): real {
    if entries == [] then 0.0 else
      var tx := entries[|entries| - 1].tx;
      Rewards(entries[..|entries| - 1]) + if tx.IsSystem() then OutputWorth(tx, |tx.outputs|, None) else 0.0
  }

  function Fees(entries: seq<Entry>): real {
    if entries == [] then 0.0 else
      var tx := entries[|entries| - 1].tx;
      Fees(entries[..|entries| - 1]) + if tx.IsSystem() then 0.0 else tx.gasFee
  }

  /** What the entries overwrite, each in its turn. */
  function Lost(m: Pool, entries: seq<Entry>): real {
    if entries == [] then 0.0 else
      var init := entries[..|entries| - 1];
      Lost(m, init) + Overwritten(Run(m, init), entries[|entries| - 1].tx, None)
  }

  /** Every id, when its turn comes, has no outputs in the pool. */
  ghost predicate AllFresh(m: Pool, entries: seq<Entry>) {
    entries != [] ==>
      var init := entries[..|entries| - 1];
      AllFresh(m, init) && Fresh(Run(m, init), entries[|entries| - 1].tx.id)
  }

  /** Over any run the supply is what the rewards minted less what the fees burned and what was overwritten. */
  lemma {:induction false} RunConserves(m: Pool, entries: seq<Entry>)
    requires Legitimate(m, entries)
    ensures Supply(Run(m, entries)) == Supply(m) + Rewards(entries) - Fees(entries) - Lost(m, entries)
    ensures AllFresh(m, entries) ==> Lost(m, entries) == 0.0
  {
    if entries != [] {
      var init, last := entries[..|entries| - 1], entries[|entries| - 1];
      RunConserves(m, init);
      if last.tx.IsSystem() {
        TransactionAccounting(Run(m, init), last.tx, last.height, None);
      } else {
        PaymentMoves(Run(m, init), last.tx, last.height, None);
      }
      if AllFresh(m, entries) { FreshOverwritesNothing(Run(m, init), last.tx, None); }
    }
  }
}
