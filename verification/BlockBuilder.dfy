/** Packing transactions into a new block. */
module BlockBuilder {
  import opened Types
  import opened Text
  import opened Ledger
  import opened LiveSet
  import opened StateRoot
  import opened Conservation
  import opened TrieSpec
  import Trie
  import Mempool
  import Merkle
  import Chain

  const BASE_GAS_LIMIT: nat := 15000000

  /** Parameters: signature checking, length of the gas data, hash of a transaction, printed form of a receipt. */
  datatype Rules = Rules(signed: Transaction -> bool, dataLength: Transaction -> nat, hashOf: Transaction -> string,
                         receiptText: Receipt -> string)

  datatype Receipt = Receipt(txHash: string, blockNumber: nat, gasUsed: nat, status: nat, cumulativeGas: nat)

  function CalculateGas(rules: Rules, tx: Transaction): nat {
    21000 + 16 * rules.dataLength(tx) + 2000
  }

  function GasSum(rules: Rules, txs: seq<Transaction>): nat {
    if txs == [] then 0 else GasSum(rules, txs[..|txs| - 1]) + CalculateGas(rules, txs[|txs| - 1])
  }

  // ---------- what a packed list guarantees ----------

  /** Each transaction was acceptable against the set its predecessors left. */
  ghost predicate AcceptedInTurn(rules: Rules, start: Pool, txs: seq<Transaction>) {
    forall i {:trigger AcceptedAt(rules, start, txs, i)} :: 0 <= i < |txs| ==> AcceptedAt(rules, start, txs, i)
  }

  predicate AcceptedAt(rules: Rules, start: Pool, txs: seq<Transaction>, i: nat)
    requires i < |txs|
  {
    Mempool.Acceptable(txs[i], UpdatedBy(start, txs[..i]), rules.signed)
  }

  /** Receipts carry the exact running totals of gas. */
  ghost predicate ReceiptsFor(rules: Rules, number: nat, txs: seq<Transaction>, receipts: seq<Receipt>) {
    && |receipts| == |txs|
    && forall i {:trigger ReceiptAt(rules, number, txs, i)} :: 0 <= i < |txs| ==>
         receipts[i] == ReceiptAt(rules, number, txs, i)
  }

  function ReceiptAt(rules: Rules, number: nat, txs: seq<Transaction>, i: nat): Receipt
    requires i < |txs|
  {
    Receipt(rules.hashOf(txs[i]), number, CalculateGas(rules, txs[i]), 1, GasSum(rules, txs[..i + 1]))
  }

  datatype Packing = Packing(included: seq<Transaction>, receipts: seq<Receipt>, gas: nat, live: Pool)

  ghost predicate WellPacked(rules: Rules, number: nat, start: Pool, p: Packing) {
    && AcceptedInTurn(rules, start, p.included)
    && ReceiptsFor(rules, number, p.included, p.receipts)
    && p.gas == GasSum(rules, p.included) <= BASE_GAS_LIMIT
    && p.live == UpdatedBy(start, p.included)
  }

  predicate Fits(rules: Rules, before: seq<Transaction>, tx: Transaction) {
    GasSum(rules, before) + CalculateGas(rules, tx) <= BASE_GAS_LIMIT
  }

  function WithOne(rules: Rules, start: Pool, before: seq<Transaction>, tx: Transaction): seq<Transaction> {
    if Mempool.Acceptable(tx, UpdatedBy(start, before), rules.signed) then before + [tx] else before
  }

  /** The included ones in the order offered: a greedy choice that stops at the first that no longer fits. */
  function Chosen(rules: Rules, start: Pool, offered: seq<Transaction>): seq<Transaction> {
    if offered == [] then [] else
      var init, tx := offered[..|offered| - 1], offered[|offered| - 1];
      var before := Chosen(rules, start, init);
      if Stopped(rules, start, init) || !Fits(rules, before, tx) then before else WithOne(rules, start, before, tx)
  }

  /** Some offered transaction did not fit any more. */
  predicate Stopped(rules: Rules, start: Pool, offered: seq<Transaction>) {
    offered != [] &&
      var init := offered[..|offered| - 1];
      Stopped(rules, start, init) || !Fits(rules, Chosen(rules, start, init), offered[|offered| - 1])
  }

  lemma {:induction false} PackOneMore(rules: Rules, number: nat, start: Pool, p: Packing, tx: Transaction)
    requires WellPacked(rules, number, start, p)
    requires p.gas + CalculateGas(rules, tx) <= BASE_GAS_LIMIT && Mempool.Acceptable(tx, p.live, rules.signed)
    ensures WellPacked(rules, number, start, Extended(rules, number, p, tx))
  {
    FoldsOneMore(rules, start, p.included, tx);
    AcceptedOneMore(rules, start, p.included, tx);
    ReceiptsOneMore(rules, number, p.included, p.receipts, tx);
  }

  lemma {:induction false} FoldsOneMore(rules: Rules, start: Pool, txs: seq<Transaction>, tx: Transaction)
    ensures GasSum(rules, txs + [tx]) == GasSum(rules, txs) + CalculateGas(rules, tx)
    ensures UpdatedBy(start, txs + [tx]) == Updated(UpdatedBy(start, txs), tx)
  {
    assert (txs + [tx])[..|txs|] == txs;
  }

  lemma {:induction false} AcceptedOneMore(rules: Rules, start: Pool, txs: seq<Transaction>, tx: Transaction)
    requires AcceptedInTurn(rules, start, txs) && Mempool.Acceptable(tx, UpdatedBy(start, txs), rules.signed)
    ensures AcceptedInTurn(rules, start, txs + [tx])
  {
    var all := txs + [tx];
    assert all[..|txs|] == txs;
    forall i | 0 <= i < |all| ensures AcceptedAt(rules, start, all, i) {
      if i < |txs| {
        assert AcceptedAt(rules, start, txs, i) && all[..i] == txs[..i];
      }
    }
  }

  lemma {:induction false} ReceiptsOneMore(
      rules: Rules, number: nat, txs: seq<Transaction>, receipts: seq<Receipt>, tx: Transaction)
    requires ReceiptsFor(rules, number, txs, receipts)
    ensures ReceiptsFor(rules, number, txs + [tx], receipts +
              [Receipt(rules.hashOf(tx), number, CalculateGas(rules, tx), 1,
                       GasSum(rules, txs) + CalculateGas(rules, tx))])
  {
    var all := txs + [tx];
    assert all[..|txs|] == txs && all[..|all|] == all;
    forall i | 0 <= i < |txs| ensures ReceiptAt(rules, number, all, i) == ReceiptAt(rules, number, txs, i) {
      assert all[..i + 1] == txs[..i + 1];
    }
  }

  // ---------- no double spending inside a block ----------

  ghost predicate FreshIds(start: Pool, txs: seq<Transaction>) {
    forall i, k :: 0 <= i < |txs| && CreatesKey(txs[i], k) ==> k !in start
  }

  lemma {:induction false} LiveOrigin(start: Pool, txs: seq<Transaction>, k: string)
    requires k in UpdatedBy(start, txs)
    ensures k in start || exists m :: 0 <= m < |txs| && CreatesKey(txs[m], k)
  {
    if txs != [] {
      var n := |txs| - 1;
      UpdatedAt(UpdatedBy(start, txs[..n]), txs[n], 0, k);
      TxEffectCases(txs[n], 0, k);
      if !CreatesKey(txs[n], k) {
        assert k in UpdatedBy(start, txs[..n]) by {
          assert Lookup(UpdatedBy(start, txs), k) ==
                 ActLive(TxEffect(txs[n], 0, k), Lookup(UpdatedBy(start, txs[..n]), k));
        }
        LiveOrigin(start, txs[..n], k);
        if m :| 0 <= m < n && CreatesKey(txs[..n][m], k) { assert CreatesKey(txs[m], k); }
      }
    }
  }

  /** A transaction only spends what is live when its turn comes. */
  lemma {:induction false} SpentWasLive(rules: Rules, start: Pool, txs: seq<Transaction>, i: nat, k: string)
    requires AcceptedInTurn(rules, start, txs) && i < |txs| && SpendsKey(txs[i], k)
    ensures k in UpdatedBy(start, txs[..i])
  {
    assert AcceptedAt(rules, start, txs, i);
    Mempool.InputSumIff(UpdatedBy(start, txs[..i]), txs[i].sender, txs[i].inputs);
  }

  /** With distinct and fresh ids nobody at or after position i creates a key that was live before it. */
  lemma {:induction false} NotCreatedAgain(start: Pool, txs: seq<Transaction>, i: nat, m: nat, k: string)
    requires DistinctIds(txs) && FreshIds(start, txs) && i <= m < |txs|
    requires k in UpdatedBy(start, txs[..i])
    ensures !CreatesKey(txs[m], k)
  {
    LiveOrigin(start, txs[..i], k);
    if CreatesKey(txs[m], k) {
      if k !in start {
        var c :| 0 <= c < i && CreatesKey(txs[..i][c], k);
        CreatorIsUnique(txs[c], txs[m], k);
      }
    }
  }

  ghost predicate LiveAt(start: Pool, txs: seq<Transaction>, n: nat, k: string)
    requires n <= |txs|
  {
    k in UpdatedBy(start, txs[..n])
  }

  lemma {:induction false} GoneStaysGone(start: Pool, txs: seq<Transaction>, i: nat, j: nat, k: string)
    requires i <= j <= |txs| && !LiveAt(start, txs, i, k)
    requires forall m :: i <= m < j ==> !CreatesKey(txs[m], k)
    ensures !LiveAt(start, txs, j, k)
    decreases j
  {
    if i < j {
      GoneStaysGone(start, txs, i, j - 1, k);
      GoneStep(start, txs, j - 1, k);
    }
  }

  lemma {:induction false} GoneStep(start: Pool, txs: seq<Transaction>, n: nat, k: string)
    requires n < |txs| && !CreatesKey(txs[n], k)
    requires !LiveAt(start, txs, n, k) || SpendsKey(txs[n], k)
    ensures !LiveAt(start, txs, n + 1, k)
  {
    GoneAfter(UpdatedBy(start, txs[..n]), txs[n], k);
    UpdatedByPrefix(start, txs, n);
  }

  lemma {:induction false} UpdatedByPrefix(start: Pool, txs: seq<Transaction>, n: nat)
    requires n < |txs|
    ensures UpdatedBy(start, txs[..n + 1]) == Updated(UpdatedBy(start, txs[..n]), txs[n])
  {
    assert txs[..n + 1][..n] == txs[..n];
  }

  lemma {:induction false} GoneAfter(live: Pool, tx: Transaction, k: string)
    requires !CreatesKey(tx, k) && (k !in live || SpendsKey(tx, k))
    ensures k !in Updated(live, tx)
  {
    UpdatedAt(live, tx, 0, k);
    TxEffectCases(tx, 0, k);
    assert Lookup(Updated(live, tx), k) == None;
  }

  /** No two transactions of a block spend the same output. */
  lemma {:induction false} NoDoubleSpend(rules: Rules, start: Pool, txs: seq<Transaction>, i: nat, j: nat, k: string)
    requires AcceptedInTurn(rules, start, txs) && DistinctIds(txs) && FreshIds(start, txs)
    requires i < j < |txs| && SpendsKey(txs[i], k)
    ensures !SpendsKey(txs[j], k)
  {
    SpentWasLive(rules, start, txs, i, k);
    forall m | i <= m < |txs| ensures !CreatesKey(txs[m], k) { NotCreatedAgain(start, txs, i, m, k); }
    GoneStep(start, txs, i, k);
    GoneStaysGone(start, txs, i + 1, j, k);
    if SpendsKey(txs[j], k) { SpentWasLive(rules, start, txs, j, k); }
  }

  /** Every output spent in a block was there at the start or made earlier in the block. */
  lemma {:induction false} SpentHasOrigin(rules: Rules, start: Pool, txs: seq<Transaction>, i: nat, k: string)
    requires AcceptedInTurn(rules, start, txs) && i < |txs| && SpendsKey(txs[i], k)
    ensures k in start || exists m :: 0 <= m < i && CreatesKey(txs[m], k)
  {
    SpentWasLive(rules, start, txs, i, k);
    LiveOrigin(start, txs[..i], k);
    if m :| 0 <= m < i && CreatesKey(txs[..i][m], k) { assert CreatesKey(txs[m], k); }
  }

  // ---------- what the choice inherits from the offers ----------

  lemma {:induction false} ChosenIsOffered(rules: Rules, start: Pool, offered: seq<Transaction>, tx: Transaction)
    requires tx in Chosen(rules, start, offered)
    ensures tx in offered
  {
    if offered != [] {
      var n := |offered| - 1;
      if tx in Chosen(rules, start, offered[..n]) { ChosenIsOffered(rules, start, offered[..n], tx); }
    }
  }

  lemma {:induction false} DistinctOneMore(txs: seq<Transaction>, tx: Transaction)
    requires DistinctIds(txs) && forall i :: 0 <= i < |txs| ==> txs[i].id != tx.id
    ensures DistinctIds(txs + [tx])
  {
  }

  lemma {:induction false} ChosenKeepsDistinct(rules: Rules, start: Pool, offered: seq<Transaction>)
    requires DistinctIds(offered)
    ensures DistinctIds(Chosen(rules, start, offered))
  {
    if offered != [] {
      var n := |offered| - 1;
      var init := offered[..n];
      assert forall i :: 0 <= i < n ==> init[i] == offered[i];
      ChosenKeepsDistinct(rules, start, init);
      var before := Chosen(rules, start, init);
      forall i | 0 <= i < |before| ensures before[i].id != offered[n].id {
        ChosenIsOffered(rules, start, init, before[i]);
      }
      DistinctOneMore(before, offered[n]);
    }
  }

  lemma {:induction false} ChosenKeepsFresh(rules: Rules, start: Pool, offered: seq<Transaction>)
    requires FreshIds(start, offered)
    ensures FreshIds(start, Chosen(rules, start, offered))
  {
    var chosen := Chosen(rules, start, offered);
    forall i, k | 0 <= i < |chosen| && CreatesKey(chosen[i], k) ensures k !in start {
      ChosenIsOffered(rules, start, offered, chosen[i]);
      var j :| 0 <= j < |offered| && offered[j] == chosen[i];
    }
  }

  /** No two transactions spend the same output. */
  ghost predicate SpendApart(txs: seq<Transaction>) {
    forall i, j, k {:trigger SpendsKey(txs[i], k), SpendsKey(txs[j], k)} ::
      0 <= i < j < |txs| && SpendsKey(txs[i], k) ==> !SpendsKey(txs[j], k)
  }

  /** Every output spent was there at the start or was made earlier in the list. */
  ghost predicate SpendsInTurn(start: Pool, txs: seq<Transaction>) {
    forall i, k :: 0 <= i < |txs| && SpendsKey(txs[i], k) ==> HasOrigin(start, txs, i, k)
  }

  ghost predicate HasOrigin(start: Pool, txs: seq<Transaction>, i: nat, k: string)
    requires i <= |txs|
  {
    k in start || exists m :: 0 <= m < i && CreatesKey(txs[m], k)
  }

  /** When its turn comes, a transaction spends unspent outputs of its sender only. */
  ghost predicate SpendsOwn(start: Pool, txs: seq<Transaction>) {
    forall i, k :: 0 <= i < |txs| && SpendsKey(txs[i], k) ==> OwnedAt(start, txs, i, k)
  }

  ghost predicate OwnedAt(start: Pool, txs: seq<Transaction>, i: nat, k: string)
    requires i < |txs|
  {
    var live := UpdatedBy(start, txs[..i]);
    k in live && !live[k].spent && live[k].owner == txs[i].sender
  }

  lemma {:induction false} PackedSpendsOwn(rules: Rules, start: Pool, txs: seq<Transaction>)
    requires AcceptedInTurn(rules, start, txs)
    ensures SpendsOwn(start, txs)
  {
    forall i, k | 0 <= i < |txs| && SpendsKey(txs[i], k) ensures OwnedAt(start, txs, i, k) {
      assert AcceptedAt(rules, start, txs, i);
      AcceptedSpendsOwn(UpdatedBy(start, txs[..i]), txs[i], rules.signed, k);
    }
  }

  lemma {:induction false} AcceptedSpendsOwn(live: Pool, tx: Transaction, signed: Transaction -> bool, k: string)
    requires Mempool.Acceptable(tx, live, signed) && SpendsKey(tx, k)
    ensures k in live && !live[k].spent && live[k].owner == tx.sender
  {
    Mempool.InputSumIff(live, tx.sender, tx.inputs);
  }

  /** If the offers have distinct and unused ids, no two transactions of the packed block spend the same output. */
  lemma {:induction false} PackedSpendApart(rules: Rules, start: Pool, offered: seq<Transaction>)
    requires AcceptedInTurn(rules, start, Chosen(rules, start, offered))
    requires DistinctIds(offered) && FreshIds(start, offered)
    ensures SpendApart(Chosen(rules, start, offered))
  {
    var txs := Chosen(rules, start, offered);
    ChosenKeepsDistinct(rules, start, offered);
    ChosenKeepsFresh(rules, start, offered);
    forall i, j, k | 0 <= i < j < |txs| && SpendsKey(txs[i], k) ensures !SpendsKey(txs[j], k) {
      NoDoubleSpend(rules, start, txs, i, j, k);
    }
  }

  /** Input a of transaction i and input b of transaction j are for the same output. */
  ghost predicate NameSame(txs: seq<Transaction>, i: nat, a: nat, j: nat, b: nat) {
    && i < |txs| && !txs[i].IsSystem() && a < |txs[i].inputs|
    && j < |txs| && !txs[j].IsSystem() && b < |txs[j].inputs|
    && InputKey(txs[i].inputs[a]) == InputKey(txs[j].inputs[b])
  }

  /** No output is named by two inputs, be they of one transaction or of two. */
  ghost predicate NamedOnce(txs: seq<Transaction>) {
    forall i, a, j, b :: NameSame(txs, i, a, j, b) ==> i == j && a == b
  }

  /** No transaction names an output twice, which the admission test does not ask. */
  ghost predicate EachNamesOnce(txs: seq<Transaction>) {
    forall i :: 0 <= i < |txs| && !txs[i].IsSystem() ==> DistinctInputs(txs[i].inputs)
  }

  /** So no output is named twice in the whole block exactly when no transaction of it names one twice. */
  lemma {:induction false} NamedOnceIff(txs: seq<Transaction>)
    requires SpendApart(txs)
    ensures NamedOnce(txs) <==> EachNamesOnce(txs)
  {
    if EachNamesOnce(txs) {
      forall i: nat, a: nat, j: nat, b: nat | NameSame(txs, i, a, j, b) ensures i == j && a == b {
        SpendsNamed(txs[i], a);
        SpendsNamed(txs[j], b);
      }
    }
    if NamedOnce(txs) {
      forall i, a, b | 0 <= i < |txs| && !txs[i].IsSystem() && 0 <= a < b < |txs[i].inputs|
        ensures InputKey(txs[i].inputs[a]) != InputKey(txs[i].inputs[b])
      {
        assert !NameSame(txs, i, a, i, b);
      }
    }
  }

  lemma {:induction false} SpendsNamed(tx: Transaction, a: nat)
    requires !tx.IsSystem() && a < |tx.inputs|
    ensures SpendsKey(tx, InputKey(tx.inputs[a]))
  {
  }

  lemma {:induction false} PackedSpendsInTurn(rules: Rules, start: Pool, txs: seq<Transaction>)
    requires AcceptedInTurn(rules, start, txs)
    ensures SpendsInTurn(start, txs)
  {
    forall i, k | 0 <= i < |txs| && SpendsKey(txs[i], k) ensures HasOrigin(start, txs, i, k) {
      SpentHasOrigin(rules, start, txs, i, k);
    }
  }

  /**
   What a packed list guarantees about spending: every output was there or made earlier, every transaction spends
   unspent outputs of its own sender and, if the offers have
   distinct and unused ids, no two transactions spend the same one, so that none is named twice in the whole
   block exactly when no single transaction names one twice.
   */
  ghost predicate SpendsSoundly(start: Pool, offered: seq<Transaction>, txs: seq<Transaction>) {
    && SpendsInTurn(start, txs) && SpendsOwn(start, txs)
    && (DistinctIds(offered) && FreshIds(start, offered) ==>
          SpendApart(txs) && (NamedOnce(txs) <==> EachNamesOnce(txs)))
  }

  lemma {:induction false} PackedSoundly(rules: Rules, start: Pool, offered: seq<Transaction>)
    requires AcceptedInTurn(rules, start, Chosen(rules, start, offered))
    ensures SpendsSoundly(start, offered, Chosen(rules, start, offered))
  {
    PackedSpendsInTurn(rules, start, Chosen(rules, start, offered));
    PackedSpendsOwn(rules, start, Chosen(rules, start, offered));
    if DistinctIds(offered) && FreshIds(start, offered) {
      PackedSpendApart(rules, start, offered);
      NamedOnceIff(Chosen(rules, start, offered));
    }
  }

  // ---------- the loop ----------

  lemma {:induction false} ChosenStep(rules: Rules, start: Pool, offered: seq<Transaction>, i: nat)
    requires i < |offered| && !Stopped(rules, start, offered[..i])
    ensures var before, tx := Chosen(rules, start, offered[..i]), offered[i];
      && (Stopped(rules, start, offered[..i + 1]) <==> !Fits(rules, before, tx))
      && Chosen(rules, start, offered[..i + 1]) ==
         if Fits(rules, before, tx) then WithOne(rules, start, before, tx) else before
  {
    assert offered[..i + 1][..i] == offered[..i];
  }

  lemma {:induction false} NothingAfterStop(rules: Rules, start: Pool, offered: seq<Transaction>, i: nat)
    requires i <= |offered| && Stopped(rules, start, offered[..i])
    ensures Chosen(rules, start, offered) == Chosen(rules, start, offered[..i])
    decreases |offered|
  {
    if i == |offered| {
      assert offered[..i] == offered;
    } else {
      var init := offered[..|offered| - 1];
      assert init[..i] == offered[..i];
      StopIsFinal(rules, start, init, i);
      NothingAfterStop(rules, start, init, i);
    }
  }

  lemma {:induction false} StopIsFinal(rules: Rules, start: Pool, offered: seq<Transaction>, i: nat)
    requires i <= |offered| && Stopped(rules, start, offered[..i])
    ensures Stopped(rules, start, offered)
    decreases |offered|
  {
    if i == |offered| {
      assert offered[..i] == offered;
    } else {
      assert offered[..|offered| - 1][..i] == offered[..i];
      StopIsFinal(rules, start, offered[..|offered| - 1], i);
    }
  }

  /** The gas of a list: 23,000 for each transaction and 16 for each byte of its data. */
  lemma {:induction false} GasOneMore(rules: Rules, txs: seq<Transaction>, tx: Transaction)
    ensures GasSum(rules, []) == 0
    ensures GasSum(rules, txs + [tx]) == GasSum(rules, txs) + 21000 + 16 * rules.dataLength(tx) + 2000
  {
    assert (txs + [tx])[..|txs|] == txs;
  }

  /** Some offer before position n would have taken the gas of those chosen before it above 15,000,000. */
  ghost predicate TooBigBefore(rules: Rules, start: Pool, offered: seq<Transaction>, n: nat)
    requires n <= |offered|
  {
    exists i :: 0 <= i < n && TooBigAt(rules, start, offered, i)
  }

  ghost predicate TooBigAt(rules: Rules, start: Pool, offered: seq<Transaction>, i: nat)
    requires i < |offered|
  {
    GasSum(rules, Chosen(rules, start, offered[..i])) + 21000 + 16 * rules.dataLength(offered[i]) + 2000 > 15000000
  }

  lemma {:induction false} StoppedIff(rules: Rules, start: Pool, offered: seq<Transaction>, n: nat)
    requires n <= |offered|
    ensures Stopped(rules, start, offered[..n]) <==> TooBigBefore(rules, start, offered, n)
  {
    if n == 0 {
      NotStoppedYet(rules, start, offered);
    } else {
      StoppedIff(rules, start, offered, n - 1);
      StopStep(rules, start, offered, n - 1);
      TooBigStep(rules, start, offered, n - 1);
    }
  }

  lemma {:induction false} NotStoppedYet(rules: Rules, start: Pool, offered: seq<Transaction>)
    ensures !Stopped(rules, start, offered[..0])
  {
    assert offered[..0] == [];
  }

  lemma {:induction false} TooBigStep(rules: Rules, start: Pool, offered: seq<Transaction>, i: nat)
    requires i < |offered|
    ensures TooBigBefore(rules, start, offered, i + 1) <==>
            TooBigBefore(rules, start, offered, i) || TooBigAt(rules, start, offered, i)
  {
  }

  lemma {:induction false} StopStep(rules: Rules, start: Pool, offered: seq<Transaction>, i: nat)
    requires i < |offered|
    ensures Stopped(rules, start, offered[..i + 1]) <==>
            Stopped(rules, start, offered[..i]) || TooBigAt(rules, start, offered, i)
  {
    assert offered[..i + 1][..i] == offered[..i];
  }

  /**
   The choice, offer by offer: nothing from the first offer on that is too big; before it exactly those acceptable
   against the set that the earlier ones leave.
   */
  lemma {:induction false} ChosenOfferByOffer(rules: Rules, start: Pool, offered: seq<Transaction>, i: nat)
    requires i < |offered|
    ensures var before := Chosen(rules, start, offered[..i]);
      var good := Mempool.Acceptable(offered[i], UpdatedBy(start, before), rules.signed);
      Chosen(rules, start, offered[..i + 1]) ==
      if !TooBigBefore(rules, start, offered, i + 1) && good then before + [offered[i]] else before
  {
    StoppedIff(rules, start, offered, i);
    StoppedIff(rules, start, offered, i + 1);
    assert offered[..i + 1][..i] == offered[..i];
  }

  /** Receipt i: hash, block, own gas, status 1 and the gas up to and including its transaction. */
  lemma {:induction false} ReceiptFields(
      rules: Rules, number: nat, txs: seq<Transaction>, receipts: seq<Receipt>, i: nat)
    requires ReceiptsFor(rules, number, txs, receipts) && i < |txs|
    ensures receipts[i] == Receipt(rules.hashOf(txs[i]), number, 21000 + 16 * rules.dataLength(txs[i]) + 2000, 1,
                                   GasSum(rules, txs[..i + 1]))
  {
    assert receipts[i] == ReceiptAt(rules, number, txs, i);
  }

  /** Where the loop stands: the first n offers have been looked at and none was too big. */
  ghost predicate PackedTo(rules: Rules, number: nat, start: Pool, offered: seq<Transaction>, n: nat, p: Packing)
    requires n <= |offered|
  {
    && !Stopped(rules, start, offered[..n]) && p.included == Chosen(rules, start, offered[..n])
    && WellPacked(rules, number, start, p)
  }

  lemma {:induction false} PackStep(
      rules: Rules, number: nat, start: Pool, offered: seq<Transaction>, i: nat, p: Packing)
    requires i < |offered| && PackedTo(rules, number, start, offered, i, p)
    ensures var tx := offered[i];
      var total := p.gas + CalculateGas(rules, tx);
      && (total > BASE_GAS_LIMIT ==> p.included == Chosen(rules, start, offered))
      && (total <= BASE_GAS_LIMIT && !Mempool.Acceptable(tx, p.live, rules.signed) ==>
            PackedTo(rules, number, start, offered, i + 1, p))
      && (total <= BASE_GAS_LIMIT && Mempool.Acceptable(tx, p.live, rules.signed) ==>
            PackedTo(rules, number, start, offered, i + 1, Extended(rules, number, p, tx)))
  {
    var tx := offered[i];
    ChosenStep(rules, start, offered, i);
    if p.gas + CalculateGas(rules, tx) > BASE_GAS_LIMIT {
      NothingAfterStop(rules, start, offered, i + 1);
    } else if Mempool.Acceptable(tx, p.live, rules.signed) {
      PackOneMore(rules, number, start, p, tx);
    }
  }

  method PackTransactions(rules: Rules, number: nat, utxoSet: Pool, offered: seq<Transaction>) returns (p: Packing)
    ensures p.included == Chosen(rules, utxoSet, offered)
    ensures WellPacked(rules, number, utxoSet, p)
  {
    p := Packing([], [], 0, utxoSet);
    var i := 0;
    while i < |offered|
      invariant 0 <= i <= |offered|
      invariant PackedTo(rules, number, utxoSet, offered, i, p)
    {
      PackStep(rules, number, utxoSet, offered, i, p);
      var tx := offered[i];
      if p.gas + CalculateGas(rules, tx) > BASE_GAS_LIMIT {
        return;
      }
      var valid := Mempool.ValidateTransaction(tx, p.live, rules.signed);
      if valid {
        p := Include(rules, number, p, tx);
      }
      i := i + 1;
    }
    assert offered[..|offered|] == offered;
  }

  /** The packing with one more transaction, its receipt, its gas and its effect on the set. */
  function Extended(rules: Rules, number: nat, p: Packing, tx: Transaction): Packing {
    var total := p.gas + CalculateGas(rules, tx);
    Packing(p.included + [tx],
            p.receipts + [Receipt(rules.hashOf(tx), number, CalculateGas(rules, tx), 1, total)],
            total, Updated(p.live, tx))
  }

  method Include(rules: Rules, number: nat, p: Packing, tx: Transaction) returns (q: Packing)
    ensures q == Extended(rules, number, p, tx)
  {
    var gasNeeded := CalculateGas(rules, tx);
    var receipt := Receipt(rules.hashOf(tx), number, gasNeeded, 1, p.gas + gasNeeded);
    var live := UpdateUTXOSet(tx, p.live);
    q := Packing(p.included + [tx], p.receipts + [receipt], p.gas + gasNeeded, live);
  }

  datatype NewHeader = NewHeader(
    number: uint64, prevHash: string, difficulty: uint32, gasLimit: nat, gasUsed: nat,
    merkleRoot: string, stateRoot: string, receiptsRoot: string, cumulative: uint64)

  function ReceiptLeaf(rules: Rules, hasher: Hasher): Receipt -> string {
    (receipt: Receipt) => hasher.sha(rules.receiptText(receipt))
  }

  ghost function ReceiptsRoot(rules: Rules, hasher: Hasher, receipts: seq<Receipt>): string {
    BlockRoot(hasher, Merkle.Hashed(ReceiptLeaf(rules, hasher), receipts))
  }

  /** A single receipt: "0x" and the hash of its printed form. */
  lemma {:induction false} OneReceiptRoot(rules: Rules, hasher: Hasher, receipt: Receipt)
    ensures ReceiptsRoot(rules, hasher, [receipt]) == "0x" + hasher.sha(rules.receiptText(receipt))
  {
    assert Merkle.Hashed(ReceiptLeaf(rules, hasher), [receipt]) == [hasher.sha(rules.receiptText(receipt))];
  }

  method CalculateReceiptsRoot(rules: Rules, hasher: Hasher, receipts: seq<Receipt>) returns (root: string)
    ensures root == ReceiptsRoot(rules, hasher, receipts)
  {
    if |receipts| == 0 {
      return ZERO_ROOT;
    }
    var hashes := Merkle.HashAll(ReceiptLeaf(rules, hasher), receipts);
    root := CalculateBlockRoot(hasher, hashes);
  }

  method BuildBody(included: seq<Transaction>, sha: Sha, sorted: bool)
    returns (body: Trie.PatriciaTrie, merkleRoot: string)
    ensures fresh(body) && body.Valid() && body.sha == sha && body.sorted == sorted
    ensures body.content == Inserted(sha, map[], included)
    ensures CanRoot(sha, sorted, body.content.Keys, merkleRoot) && body.Settled(merkleRoot)
  {
    body := new Trie.PatriciaTrie(sha, sorted);
    body.InsertBatch(included);
    merkleRoot := body.GenerateRootHash();
  }

  /** Header, body and the set left over; the block extends its predecessor as both chain validators require. */
  method NewBlock(previous: Chain.Block, offered: seq<Transaction>, utxoSet: Pool, difficulty: uint32,
                  rules: Rules, sha: Sha, sorted: bool, hasher: Hasher)
    returns (header: NewHeader, body: Trie.PatriciaTrie, p: Packing)
    ensures p.included == Chosen(rules, utxoSet, offered) && WellPacked(rules, header.number, utxoSet, p)
    ensures SpendsSoundly(utxoSet, offered, p.included)
    ensures fresh(body) && body.Valid() && body.sha == sha && body.sorted == sorted
    ensures body.content == Inserted(sha, map[], p.included)
    ensures header.gasLimit == 15000000 && header.gasUsed == p.gas && header.difficulty == difficulty
    ensures CanRoot(sha, sorted, body.content.Keys, header.merkleRoot) && body.Settled(header.merkleRoot)
    ensures header.stateRoot == if p.live == map[] then ZERO_ROOT else "0x" + PoolRoot(hasher, p.live)
    ensures header.receiptsRoot == ReceiptsRoot(rules, hasher, p.receipts)
    ensures forall hash, rest :: Chain.Follows(previous,
              Chain.Block(Chain.Header(header.number, header.prevHash, difficulty, rest), hash, header.cumulative))
  {
    var number := Add64(previous.header.number, 1);
    p := PackTransactions(rules, number, utxoSet, offered);
    PackedSoundly(rules, utxoSet, offered);
    var merkleRoot;
    body, merkleRoot := BuildBody(p.included, sha, sorted);
    header := FillHeader(previous, difficulty, rules, hasher, p, merkleRoot);
  }

  method FillHeader(previous: Chain.Block, difficulty: uint32, rules: Rules, hasher: Hasher, p: Packing,
                    merkleRoot: string)
    returns (header: NewHeader)
    ensures header.gasLimit == 15000000 && header.gasUsed == p.gas && header.difficulty == difficulty
    ensures header.number == Add64(previous.header.number, 1) && header.merkleRoot == merkleRoot
    ensures header.stateRoot == if p.live == map[] then ZERO_ROOT else "0x" + PoolRoot(hasher, p.live)
    ensures header.receiptsRoot == ReceiptsRoot(rules, hasher, p.receipts)
    ensures forall hash, rest :: Chain.Follows(previous,
              Chain.Block(Chain.Header(header.number, header.prevHash, difficulty, rest), hash, header.cumulative))
  {
    var stateRoot := CalculateStateRoot(hasher, p.live);
    var receiptsRoot := CalculateReceiptsRoot(rules, hasher, p.receipts);
    header := NewHeader(Add64(previous.header.number, 1), previous.hash, difficulty, BASE_GAS_LIMIT, p.gas,
                        merkleRoot, stateRoot, receiptsRoot, Add64(previous.cumulative, difficulty));
  }
}
