/** The mempool: admission by fee into a bounded, sorted pool. */
module Mempool {
  import opened Types
  import opened Text
  import opened Ledger
  import opened Gas

  // ---------- admission test ----------

  /** The total of the inputs, provided each is present, unspent and the sender's. */
  function InputSum(utxos: Pool, sender: string, inputs: seq<TxInput>): Option<real> {
    if inputs == [] then Some(0.0) else
      var before := InputSum(utxos, sender, inputs[..|inputs| - 1]);
      var k := InputKey(inputs[|inputs| - 1]);
      if before.Some? then Counted(utxos, sender, k, before.value) else None
  }

  /** An unspent output of the sender. */
  predicate LiveOf(utxos: Pool, sender: string, k: string) {
    k in utxos && utxos[k].owner == sender && !utxos[k].spent
  }

  function Required(tx: Transaction): real {
    if tx.txType == TX_STAKE then tx.amount
    else tx.amount + Tokens(Mul64(tx.gasLimit, tx.maxFeePerGas))
  }

  /** ValidateTransaction; whether the signature verifies is a parameter. */
  predicate Acceptable(tx: Transaction, utxos: Pool, signed: Transaction -> bool) {
    tx.IsSystem() || (
      && ValidateGas(tx.gasLimit, tx.gasPrice)
      && (tx.txType == TX_STAKE ==> |tx.inputs| > 0 && |tx.outputs| > 0 && tx.outputs[0].receiver == tx.sender)
      && Covered(tx, utxos)
      && signed(tx))
  }

  predicate Covered(tx: Transaction, utxos: Pool) {
    var sum := InputSum(utxos, tx.sender, tx.inputs);
    sum.Some? && sum.value >= Required(tx)
  }

  lemma {:induction false} SumStep(utxos: Pool, sender: string, inputs: seq<TxInput>, i: nat)
    requires i < |inputs|
    ensures var before, k := InputSum(utxos, sender, inputs[..i]), InputKey(inputs[i]);
      InputSum(utxos, sender, inputs[..i + 1]) == if before.Some? then Counted(utxos, sender, k, before.value) else None
  {
    assert inputs[..i + 1][..i] == inputs[..i];
  }

  /** The loop over the inputs, which gives up at the first that is missing, spent or not the sender's. */
  method SumInputs(utxos: Pool, sender: string, inputs: seq<TxInput>) returns (sum: Option<real>)
    ensures sum == InputSum(utxos, sender, inputs)
  {
    sum := Some(0.0);
    var i := 0;
    while i < |inputs| && sum.Some?
      invariant 0 <= i <= |inputs|
      invariant sum == InputSum(utxos, sender, inputs[..i])
    {
      SumStep(utxos, sender, inputs, i);
      sum := Counted(utxos, sender, InputKey(inputs[i]), sum.value);
      i := i + 1;
    }
    if sum.None? {
      NoSumAfter(utxos, sender, inputs, i);
    } else {
      assert inputs[..i] == inputs;
    }
  }

  /** The total with one more input, if that is present, unspent and the sender's. */
  function Counted(utxos: Pool, sender: string, k: string, total: real): Option<real> {
    if LiveOf(utxos, sender, k) then Some(total + utxos[k].amount) else None
  }

  method ValidateTransaction(tx: Transaction, utxos: Pool, signed: Transaction -> bool) returns (ok: bool)
    ensures ok <==> Acceptable(tx, utxos, signed)
  {
    if tx.IsSystem() { return true; }
    var isStake := tx.txType == TX_STAKE;
    if !ValidateGas(tx.gasLimit, tx.gasPrice) { return false; }
    if isStake {
      if |tx.inputs| == 0 { return false; }
      if |tx.outputs| == 0 { return false; }
      if tx.outputs[0].receiver != tx.sender { return false; }
    }
    var inputSum := SumInputs(utxos, tx.sender, tx.inputs);
    if inputSum.None? { return false; }
    var totalRequired := tx.amount;
    if !isStake {
      totalRequired := totalRequired + Tokens(Mul64(tx.gasLimit, tx.maxFeePerGas));
    }
    if inputSum.value < totalRequired { return false; }
    ok := signed(tx);
  }

  lemma {:induction false} NoSumAfter(utxos: Pool, sender: string, inputs: seq<TxInput>, n: nat)
    requires n <= |inputs| && InputSum(utxos, sender, inputs[..n]).None?
    ensures InputSum(utxos, sender, inputs).None?
    decreases |inputs|
  {
    if n == |inputs| {
      assert inputs[..n] == inputs;
    } else {
      var init := inputs[..|inputs| - 1];
      assert init[..n] == inputs[..n];
      NoSumAfter(utxos, sender, init, n);
    }
  }

  ghost predicate AllLive(utxos: Pool, sender: string, inputs: seq<TxInput>) {
    forall i :: 0 <= i < |inputs| ==> LiveOf(utxos, sender, InputKey(inputs[i]))
  }

  lemma {:induction false} AllLiveStep(utxos: Pool, sender: string, inputs: seq<TxInput>)
    requires inputs != []
    ensures var n := |inputs| - 1;
      AllLive(utxos, sender, inputs) <==>
      AllLive(utxos, sender, inputs[..n]) && LiveOf(utxos, sender, InputKey(inputs[n]))
  {
    var n := |inputs| - 1;
    assert forall i :: 0 <= i < n ==> inputs[..n][i] == inputs[i];
  }

  /** A sum exists exactly when every input is a live output of the sender. */
  lemma {:induction false} InputSumIff(utxos: Pool, sender: string, inputs: seq<TxInput>)
    ensures InputSum(utxos, sender, inputs).Some? <==> AllLive(utxos, sender, inputs)
  {
    if inputs != [] {
      InputSumIff(utxos, sender, inputs[..|inputs| - 1]);
      AllLiveStep(utxos, sender, inputs);
    }
  }

  // ---------- stable sorting ----------

  /** "Comes first": by fee, or by fee and then by the later timestamp. */
  predicate Higher(byTime: bool, a: Transaction, b: Transaction) {
    a.gasFee > b.gasFee || (byTime && a.gasFee == b.gasFee && a.timestamp > b.timestamp)
  }

  predicate SameRank(byTime: bool, a: Transaction, b: Transaction) {
    a.gasFee == b.gasFee && (byTime ==> a.timestamp == b.timestamp)
  }

  ghost predicate InOrder(byTime: bool, s: seq<Transaction>) {
    forall i, j :: 0 <= i < j < |s| ==> !Higher(byTime, s[j], s[i])
  }

  /** Puts a transaction after all those that do not rank below it. */
  function Place(byTime: bool, s: seq<Transaction>, tx: Transaction): (r: seq<Transaction>)
    ensures |r| == |s| + 1
  {
    if s == [] then [tx]
    else if !Higher(byTime, tx, s[|s| - 1]) then s + [tx]
    else Place(byTime, s[..|s| - 1], tx) + [s[|s| - 1]]
  }

  /** sort.SliceStable with that order. */
  function Sorted(byTime: bool, s: seq<Transaction>): (r: seq<Transaction>)
    ensures |r| == |s|
  {
    if s == [] then [] else Place(byTime, Sorted(byTime, s[..|s| - 1]), s[|s| - 1])
  }

  lemma {:induction false} PlaceAdds(byTime: bool, s: seq<Transaction>, tx: Transaction)
    ensures multiset(Place(byTime, s, tx)) == multiset(s) + multiset{tx}
  {
    if s != [] && Higher(byTime, tx, s[|s| - 1]) {
      PlaceAdds(byTime, s[..|s| - 1], tx);
      assert s == s[..|s| - 1] + [s[|s| - 1]];
    }
  }

  /** Sorting permutes. */
  lemma {:induction false} SortedPermutes(byTime: bool, s: seq<Transaction>)
    ensures multiset(Sorted(byTime, s)) == multiset(s)
  {
    if s != [] {
      SortedPermutes(byTime, s[..|s| - 1]);
      PlaceAdds(byTime, Sorted(byTime, s[..|s| - 1]), s[|s| - 1]);
      assert s == s[..|s| - 1] + [s[|s| - 1]];
    }
  }

  lemma {:induction false} PlaceMembers(byTime: bool, s: seq<Transaction>, tx: Transaction, i: nat)
    requires i <= |s|
    ensures var x := Place(byTime, s, tx)[i]; x == tx || x in s
  {
    if s != [] && Higher(byTime, tx, s[|s| - 1]) && i < |s| {
      PlaceMembers(byTime, s[..|s| - 1], tx, i);
    }
  }

  lemma {:induction false} PlaceKeepsOrder(byTime: bool, s: seq<Transaction>, tx: Transaction)
    requires InOrder(byTime, s)
    ensures InOrder(byTime, Place(byTime, s, tx))
  {
    if s != [] && Higher(byTime, tx, s[|s| - 1]) {
      var n := |s| - 1;
      var rest := Place(byTime, s[..n], tx);
      PlaceKeepsOrder(byTime, s[..n], tx);
      forall i | 0 <= i < |rest| ensures !Higher(byTime, s[n], rest[i]) {
        PlaceMembers(byTime, s[..n], tx, i);
      }
    }
  }

  /** The result is in order. */
  lemma {:induction false} SortedIsInOrder(byTime: bool, s: seq<Transaction>)
    ensures InOrder(byTime, Sorted(byTime, s))
  {
    if s != [] {
      SortedIsInOrder(byTime, s[..|s| - 1]);
      PlaceKeepsOrder(byTime, Sorted(byTime, s[..|s| - 1]), s[|s| - 1]);
    }
  }

  function Ranked(byTime: bool, s: seq<Transaction>, like: Transaction): seq<Transaction> {
    if s == [] then [] else
      var last := s[|s| - 1];
      Ranked(byTime, s[..|s| - 1], like) + Match(byTime, last, like)
  }

  function Match(byTime: bool, x: Transaction, like: Transaction): seq<Transaction> {
    if SameRank(byTime, x, like) then [x] else []
  }

  lemma {:induction false} RankedAppend(byTime: bool, s: seq<Transaction>, x: Transaction, like: Transaction)
    ensures Ranked(byTime, s + [x], like) == Ranked(byTime, s, like) + Match(byTime, x, like)
  {
    assert (s + [x])[..|s|] == s;
  }

  lemma {:induction false} PlaceBelow(byTime: bool, s: seq<Transaction>, tx: Transaction)
    requires s != [] && Higher(byTime, tx, s[|s| - 1])
    ensures Place(byTime, s, tx) == Place(byTime, s[..|s| - 1], tx) + [s[|s| - 1]]
  {
  }

  lemma {:induction false} PlaceIsStable(byTime: bool, s: seq<Transaction>, tx: Transaction, like: Transaction)
    ensures Ranked(byTime, Place(byTime, s, tx), like) == Ranked(byTime, s, like) + Match(byTime, tx, like)
  {
    if s == [] || !Higher(byTime, tx, s[|s| - 1]) {
      RankedAppend(byTime, s, tx, like);
      assert s + [tx] == Place(byTime, s, tx);
    } else {
      var init, last := s[..|s| - 1], s[|s| - 1];
      PlaceBelow(byTime, s, tx);
      PlaceIsStable(byTime, init, tx, like);
      RankedAppend(byTime, Place(byTime, init, tx), last, like);
      RankedLast(byTime, s, like);
      MatchesCommute(byTime, tx, last, like, Ranked(byTime, init, like));
    }
  }

  lemma {:induction false} RankedLast(byTime: bool, s: seq<Transaction>, like: Transaction)
    requires s != []
    ensures Ranked(byTime, s, like) == Ranked(byTime, s[..|s| - 1], like) + Match(byTime, s[|s| - 1], like)
  {
  }

  lemma {:induction false} MatchesCommute(
      byTime: bool, a: Transaction, b: Transaction, like: Transaction, s: seq<Transaction>)
    requires Higher(byTime, a, b)
    ensures s + Match(byTime, a, like) + Match(byTime, b, like) == s + Match(byTime, b, like) + Match(byTime, a, like)
  {
    assert Match(byTime, a, like) == [] || Match(byTime, b, like) == [];
  }

  /** The sort is stable: transactions of equal rank keep their order. */
  lemma {:induction false} SortedIsStable(byTime: bool, s: seq<Transaction>, like: Transaction)
    ensures Ranked(byTime, Sorted(byTime, s), like) == Ranked(byTime, s, like)
  {
    if s != [] {
      var init := s[..|s| - 1];
      SortedIsStable(byTime, init, like);
      SortedIsInOrder(byTime, init);
      PlaceIsStable(byTime, Sorted(byTime, init), s[|s| - 1], like);
    }
  }

  lemma {:induction false} OrderedStays(byTime: bool, s: seq<Transaction>)
    requires InOrder(byTime, s)
    ensures Sorted(byTime, s) == s
  {
    if s != [] {
      var n := |s| - 1;
      OrderedStays(byTime, s[..n]);
      assert s == s[..n] + [s[n]];
      if n > 0 { assert !Higher(byTime, s[n], s[n - 1]); }
    }
  }

  function SortByFee(s: seq<Transaction>): (r: seq<Transaction>)
    ensures |r| == |s|
  {
    Sorted(false, s)
  }

  function Top(s: seq<Transaction>, k: nat): seq<Transaction> { if |s| <= k then s else s[..k] }

  // ---------- the pool ----------

  const DAY_SECONDS := 86400

  class Mempool {
    var transactions: seq<Transaction>
    var timeouts: map<string, int>
    const maxSize: nat

    /** NewMempool makes room for 1000; every property below holds for any positive limit. */
    constructor (maxSize: nat)
      ensures transactions == [] && timeouts == map[] && this.maxSize == maxSize
    {
      transactions, timeouts := [], map[];
      this.maxSize := maxSize;
    }

    method AddTransaction(tx: Transaction, utxoSet: Pool, signed: Transaction -> bool) returns (ok: bool)
      requires maxSize > 0
      modifies `transactions
      ensures ok <==> Admitted(old(transactions), maxSize, tx, utxoSet, signed)
      ensures transactions == AfterOffer(old(transactions), maxSize, tx, utxoSet, signed)
    {
      ok := false;
      var duplicate := Contains(transactions, tx.id);
      if duplicate { return; }
      var valid := ValidateTransaction(tx, utxoSet, signed);
      if !valid { return; }
      ok, transactions := Admit(transactions, maxSize, tx);
    }

    /** Makes room by dropping the cheapest if the newcomer pays more, then keeps the pool sorted. */
    static method Admit(pool: seq<Transaction>, maxSize: nat, tx: Transaction) returns (ok: bool, r: seq<Transaction>)
      requires maxSize > 0
      ensures ok <==> |pool| < maxSize || tx.gasFee > SortByFee(pool)[|pool| - 1].gasFee
      ensures r == WithRoomMade(pool, maxSize, tx)
    {
      r := pool;
      if |r| >= maxSize {
        r := SortByFee(r);
        if tx.gasFee > r[|r| - 1].gasFee {
          r := r[..|r| - 1];
        } else {
          return false, r;
        }
      }
      r := r + [tx];
      r := SortByFee(r);
      ok := true;
    }

    method RemoveTransaction(txID: string)
      modifies `transactions
      ensures transactions == Without(old(transactions), txID)
    {
      var kept: seq<Transaction> := [];
      for i := 0 to |transactions|
        invariant transactions == old(transactions)
        invariant kept == Without(transactions[..i], txID)
      {
        assert transactions[..i + 1][..i] == transactions[..i];
        if transactions[i].id != txID {
          kept := kept + [transactions[i]];
        }
      }
      assert transactions[..|transactions|] == transactions;
      transactions := kept;
    }

    /** Takes over the peer's young transactions that were unknown when the sync began. */
    method SyncMempool(peer: seq<Transaction>, now: int)
      modifies this
      ensures transactions == AfterSync(old(transactions), maxSize, Ids(old(transactions)), peer, now)
      ensures timeouts == TimesAfterSync(old(timeouts), Ids(old(transactions)), peer, now)
    {
      var existing := CollectIds(transactions);
      for i := 0 to |peer|
        invariant transactions == AfterSync(old(transactions), maxSize, existing, peer[..i], now)
        invariant timeouts == TimesAfterSync(old(timeouts), existing, peer[..i], now)
      {
        assert peer[..i + 1][..i] == peer[..i];
        if peer[i].id !in existing {
          var _ := ValidateAndAdd(peer[i], now);
        }
      }
      assert peer[..|peer|] == peer;
    }

    method ValidateAndAdd(tx: Transaction, now: int) returns (ok: bool)
      modifies this
      ensures ok <==> now - tx.timestamp <= DAY_SECONDS
      ensures transactions == if ok then Evicted(old(transactions), maxSize) + [tx] else old(transactions)
      ensures timeouts == if ok then old(timeouts)[tx.id := now + DAY_SECONDS] else old(timeouts)
    {
      ok := now - tx.timestamp <= DAY_SECONDS;
      if ok {
        if |transactions| >= maxSize {
          transactions := Sorted(true, transactions);
          if |transactions| > maxSize {
            transactions := transactions[..maxSize];
          }
        }
        timeouts := timeouts[tx.id := now + DAY_SECONDS];
        transactions := transactions + [tx];
      }
    }
  }

  method Contains(pool: seq<Transaction>, id: string) returns (found: bool)
    ensures found <==> Known(pool, id)
  {
    for i := 0 to |pool|
      invariant forall j :: 0 <= j < i ==> pool[j].id != id
    {
      if pool[i].id == id { return true; }
    }
    found := false;
  }

  function Ids(s: seq<Transaction>): set<string> { set tx | tx in s :: tx.id }

  method CollectIds(s: seq<Transaction>) returns (ids: set<string>)
    ensures ids == Ids(s)
  {
    ids := {};
    for i := 0 to |s|
      invariant ids == Ids(s[..i])
    {
      assert s[..i + 1] == s[..i] + [s[i]];
      ids := ids + {s[i].id};
    }
    assert s[..|s|] == s;
  }

  function Without(s: seq<Transaction>, id: string): seq<Transaction> {
    if s == [] then [] else
      Without(s[..|s| - 1], id) + if s[|s| - 1].id != id then [s[|s| - 1]] else []
  }

  function Evicted(pool: seq<Transaction>, maxSize: nat): seq<Transaction> {
    if |pool| >= maxSize then Top(Sorted(true, pool), maxSize) else pool
  }

  function AfterSync(
      pool: seq<Transaction>, maxSize: nat, existing: set<string>, peer: seq<Transaction>, now: int): seq<Transaction> {
    if peer == [] then pool else
      var before, tx := AfterSync(pool, maxSize, existing, peer[..|peer| - 1], now), peer[|peer| - 1];
      if Taken(existing, now, tx) then Evicted(before, maxSize) + [tx] else before
  }

  /** The expiry times after a sync: a day from now for everything taken over. */
  function TimesAfterSync(times: map<string, int>, existing: set<string>, peer: seq<Transaction>, now: int):
    map<string, int>
  {
    if peer == [] then times else
      var before, tx := TimesAfterSync(times, existing, peer[..|peer| - 1], now), peer[|peer| - 1];
      if Taken(existing, now, tx) then before[tx.id := now + DAY_SECONDS] else before
  }

  ghost predicate Known(pool: seq<Transaction>, id: string) {
    exists i :: 0 <= i < |pool| && pool[i].id == id
  }

  /** Not yet known, acceptable, and either there is room or it pays more than the cheapest. */
  ghost predicate Admitted(
      pool: seq<Transaction>, maxSize: nat, tx: Transaction, utxos: Pool, signed: Transaction -> bool)
    requires maxSize > 0
  {
    && !Known(pool, tx.id) && Acceptable(tx, utxos, signed)
    && (|pool| < maxSize || tx.gasFee > SortByFee(pool)[|pool| - 1].gasFee)
  }

  /** A full pool is sorted even when the offer is then turned down. */
  ghost function AfterOffer(
      pool: seq<Transaction>, maxSize: nat, tx: Transaction, utxos: Pool, signed: Transaction -> bool): seq<Transaction>
    requires maxSize > 0
  {
    if Known(pool, tx.id) || !Acceptable(tx, utxos, signed) then pool else WithRoomMade(pool, maxSize, tx)
  }

  function WithRoomMade(pool: seq<Transaction>, maxSize: nat, tx: Transaction): seq<Transaction>
    requires maxSize > 0
  {
    if |pool| < maxSize then SortByFee(pool + [tx])
    else
      var sorted := SortByFee(pool);
      if tx.gasFee > sorted[|sorted| - 1].gasFee then SortByFee(sorted[..|sorted| - 1] + [tx]) else sorted
  }

  // ---------- any run of offers keeps exactly the best ----------

  datatype Offer = Offer(tx: Transaction, utxos: Pool)

  ghost function Run(maxSize: nat, offers: seq<Offer>, signed: Transaction -> bool): seq<Transaction>
    requires maxSize > 0
  {
    if offers == [] then [] else
      var last := offers[|offers| - 1];
      AfterOffer(Run(maxSize, offers[..|offers| - 1], signed), maxSize, last.tx, last.utxos, signed)
  }

  /** The acceptable offers, in the order of their arrival. */
  function Valid(offers: seq<Offer>, signed: Transaction -> bool): seq<Transaction> {
    if offers == [] then [] else
      var last := offers[|offers| - 1];
      Valid(offers[..|offers| - 1], signed) + if Acceptable(last.tx, last.utxos, signed) then [last.tx] else []
  }

  ghost predicate DistinctOffers(offers: seq<Offer>) {
    forall i, j :: 0 <= i < j < |offers| ==> offers[i].tx.id != offers[j].tx.id
  }

  /** The last of more than k sorted transactions has no say in the best k. */
  lemma {:induction false} LastIsIrrelevant(s: seq<Transaction>, tx: Transaction, k: nat)
    requires InOrder(false, s) && |s| > k
    ensures Top(Place(false, s[..|s| - 1], tx), k) == Top(Place(false, s, tx), k)
  {
    var n := |s| - 1;
    if !Higher(false, tx, s[n]) && n > 0 {
      assert !Higher(false, s[n], s[n - 1]);
      assert !Higher(false, tx, s[..n][n - 1]);
    }
  }

  /** Placing into the best k of a sorted list and cutting off is cutting off after placing. */
  lemma {:induction false} TopOfPlace(s: seq<Transaction>, tx: Transaction, k: nat)
    requires InOrder(false, s)
    ensures Top(Place(false, Top(s, k), tx), k) == Top(Place(false, s, tx), k)
    decreases |s|
  {
    if |s| > k {
      var init := s[..|s| - 1];
      TopOfPlace(init, tx, k);
      assert Top(init, k) == Top(s, k);
      LastIsIrrelevant(s, tx, k);
    }
  }

  lemma {:induction false} PrefixInOrder(byTime: bool, s: seq<Transaction>, k: nat)
    requires InOrder(byTime, s) && k <= |s|
    ensures InOrder(byTime, s[..k])
  {
  }

  lemma {:induction false} SortOneMore(s: seq<Transaction>, tx: Transaction)
    requires InOrder(false, s)
    ensures SortByFee(s + [tx]) == Place(false, s, tx)
  {
    assert (s + [tx])[..|s|] == s;
    OrderedStays(false, s);
  }

  /** On a sorted pool an offer is a placement followed by a cut. */
  lemma {:induction false} OfferIsPlacement(
      pool: seq<Transaction>, maxSize: nat, tx: Transaction, utxos: Pool, signed: Transaction -> bool)
    requires maxSize > 0 && InOrder(false, pool) && |pool| <= maxSize
    requires !Known(pool, tx.id) && Acceptable(tx, utxos, signed)
    ensures AfterOffer(pool, maxSize, tx, utxos, signed) == Top(Place(false, pool, tx), maxSize)
  {
    OrderedStays(false, pool);
    SortOneMore(pool, tx);
    if |pool| == maxSize {
      var n := |pool| - 1;
      PrefixInOrder(false, pool, n);
      SortOneMore(pool[..n], tx);
    }
  }

  lemma {:induction false} ValidAreOffered(offers: seq<Offer>, signed: Transaction -> bool, x: Transaction)
    requires x in Valid(offers, signed)
    ensures exists i :: 0 <= i < |offers| && offers[i].tx == x
  {
    var n := |offers| - 1;
    if x in Valid(offers[..n], signed) {
      ValidAreOffered(offers[..n], signed, x);
      var i :| 0 <= i < n && offers[..n][i].tx == x;
      assert offers[i].tx == x;
    }
  }

  lemma {:induction false} TopMembers(s: seq<Transaction>, k: nat, x: Transaction)
    requires x in Top(SortByFee(s), k)
    ensures x in s
  {
    SortedPermutes(false, s);
    assert x in SortByFee(s);
    assert x in multiset(Sorted(false, s));
  }

  /** After any offers with distinct ids the pool is the first maxSize of all valid offers, sorted by fee. */
  lemma {:induction false} PoolIsTopOfOffers(maxSize: nat, offers: seq<Offer>, signed: Transaction -> bool)
    requires maxSize > 0 && DistinctOffers(offers)
    ensures Run(maxSize, offers, signed) == Top(SortByFee(Valid(offers, signed)), maxSize)
  {
    if offers != [] {
      var n := |offers| - 1;
      var init, tx, utxos := offers[..n], offers[n].tx, offers[n].utxos;
      assert forall i :: 0 <= i < n ==> init[i] == offers[i];
      PoolIsTopOfOffers(maxSize, init, signed);
      var before, pool := Valid(init, signed), Run(maxSize, init, signed);
      NotYetKnown(maxSize, offers, signed);
      if Acceptable(tx, utxos, signed) {
        SortedIsInOrder(false, before);
        PrefixInOrder(false, SortByFee(before), |pool|);
        OfferIsPlacement(pool, maxSize, tx, utxos, signed);
        TopOfPlace(SortByFee(before), tx, maxSize);
        assert (before + [tx])[..|before|] == before;
      } else {
        assert before + [] == before;
      }
    }
  }

  lemma {:induction false} NotYetKnown(maxSize: nat, offers: seq<Offer>, signed: Transaction -> bool)
    requires maxSize > 0 && DistinctOffers(offers) && offers != []
    requires Run(maxSize, offers[..|offers| - 1], signed) ==
             Top(SortByFee(Valid(offers[..|offers| - 1], signed)), maxSize)
    ensures !Known(Run(maxSize, offers[..|offers| - 1], signed), offers[|offers| - 1].tx.id)
  {
    var n := |offers| - 1;
    var init := offers[..n];
    var pool := Run(maxSize, init, signed);
    forall i | 0 <= i < |pool| ensures pool[i].id != offers[n].tx.id {
      TopMembers(Valid(init, signed), maxSize, pool[i]);
      ValidAreOffered(init, signed, pool[i]);
      var j :| 0 <= j < n && init[j].tx == pool[i];
      assert offers[j] == init[j];
    }
  }

  /** So the pool is sorted and bounded, and nothing turned away pays more than anything kept. */
  lemma {:induction false} KeptPayMost(
      maxSize: nat, offers: seq<Offer>, signed: Transaction -> bool)
    returns (turnedAway: seq<Transaction>)
    requires maxSize > 0 && DistinctOffers(offers)
    ensures var pool := Run(maxSize, offers, signed);
      && InOrder(false, pool) && |pool| <= maxSize
      && multiset(pool) + multiset(turnedAway) == multiset(Valid(offers, signed))
      && (turnedAway != [] ==> |pool| == maxSize)
      && (forall i, j :: 0 <= i < |pool| && 0 <= j < |turnedAway| ==> pool[i].gasFee >= turnedAway[j].gasFee)
  {
    PoolIsTopOfOffers(maxSize, offers, signed);
    turnedAway := TopSplits(Valid(offers, signed), maxSize);
  }

  lemma {:induction false} TopSplits(s: seq<Transaction>, k: nat) returns (rest: seq<Transaction>)
    ensures var top := Top(SortByFee(s), k);
      && InOrder(false, top) && |top| <= k
      && multiset(top) + multiset(rest) == multiset(s)
      && (rest != [] ==> |top| == k)
      && (forall i, j :: 0 <= i < |top| && 0 <= j < |rest| ==> top[i].gasFee >= rest[j].gasFee)
  {
    var all := SortByFee(s);
    var top := Top(all, k);
    SortedIsInOrder(false, s);
    SortedPermutes(false, s);
    PrefixInOrder(false, all, |top|);
    rest := all[|top|..];
    assert all == top + rest;
    EarlierPayMore(top, rest);
  }

  lemma {:induction false} EarlierPayMore(top: seq<Transaction>, rest: seq<Transaction>)
    requires InOrder(false, top + rest)
    ensures forall i, j :: 0 <= i < |top| && 0 <= j < |rest| ==> top[i].gasFee >= rest[j].gasFee
  {
    var all := top + rest;
    forall i, j | 0 <= i < |top| && 0 <= j < |rest| ensures top[i].gasFee >= rest[j].gasFee {
      assert all[i] == top[i] && all[|top| + j] == rest[j];
      assert !Higher(false, all[|top| + j], all[i]);
    }
  }

  // ---------- runs with syncing ----------

  datatype PoolOp =
    | Add(tx: Transaction, utxos: Pool)
    | Remove(id: string)
    | Sync(peer: seq<Transaction>, now: int)

  ghost function Step(pool: seq<Transaction>, maxSize: nat, op: PoolOp, signed: Transaction -> bool): seq<Transaction>
    requires maxSize > 0
  {
    match op
    case Add(tx, utxos) => AfterOffer(pool, maxSize, tx, utxos, signed)
    case Remove(id) => Without(pool, id)
    case Sync(peer, now) => AfterSync(pool, maxSize, Ids(pool), peer, now)
  }

  ghost function Steps(maxSize: nat, ops: seq<PoolOp>, signed: Transaction -> bool): seq<Transaction>
    requires maxSize > 0
  {
    if ops == [] then [] else Step(Steps(maxSize, ops[..|ops| - 1], signed), maxSize, ops[|ops| - 1], signed)
  }

  lemma {:induction false} WithoutIsShorter(s: seq<Transaction>, id: string)
    ensures |Without(s, id)| <= |s|
  {
    if s != [] { WithoutIsShorter(s[..|s| - 1], id); }
  }

  /** Unknown when the sync began, and young enough. */
  predicate Taken(existing: set<string>, now: int, tx: Transaction) {
    tx.id !in existing && now - tx.timestamp <= DAY_SECONDS
  }

  /** How many of the peer's transactions a sync takes over. */
  function TakenCount(existing: set<string>, peer: seq<Transaction>, now: int): nat {
    if peer == [] then 0 else
      TakenCount(existing, peer[..|peer| - 1], now) + if Taken(existing, now, peer[|peer| - 1]) then 1 else 0
  }

  /** The size after a sync, exactly: every one taken adds one, up to one over the limit. */
  lemma {:induction false} SizeAfterSync(
      pool: seq<Transaction>, maxSize: nat, existing: set<string>, peer: seq<Transaction>, now: int)
    requires |pool| <= maxSize + 1
    ensures var size := |pool| + TakenCount(existing, peer, now);
      |AfterSync(pool, maxSize, existing, peer, now)| == if size <= maxSize then size else maxSize + 1
  {
    if peer != [] { SizeAfterSync(pool, maxSize, existing, peer[..|peer| - 1], now); }
  }

  /** A sync leaves the pool one over its limit exactly when it and what is taken over do not fit. */
  lemma {:induction false} SyncOverflowsIff(pool: seq<Transaction>, maxSize: nat, peer: seq<Transaction>, now: int)
    requires |pool| <= maxSize + 1
    ensures |AfterSync(pool, maxSize, Ids(pool), peer, now)| == maxSize + 1 <==>
            |pool| + TakenCount(Ids(pool), peer, now) > maxSize
  {
    SizeAfterSync(pool, maxSize, Ids(pool), peer, now);
  }

  /** Syncing can push the pool one over its limit, and never further, in any run. */
  lemma {:induction false} PoolStaysWithinOne(maxSize: nat, ops: seq<PoolOp>, signed: Transaction -> bool)
    requires maxSize > 0
    ensures |Steps(maxSize, ops, signed)| <= maxSize + 1
    ensures (forall i :: 0 <= i < |ops| ==> !ops[i].Sync?) ==> |Steps(maxSize, ops, signed)| <= maxSize
  {
    if ops != [] {
      var n := |ops| - 1;
      var pool := Steps(maxSize, ops[..n], signed);
      assert forall i :: 0 <= i < n ==> ops[..n][i] == ops[i];
      PoolStaysWithinOne(maxSize, ops[..n], signed);
      match ops[n]
      case Add(tx, utxos) =>
      case Remove(id) => WithoutIsShorter(pool, id);
      case Sync(peer, now) => SizeAfterSync(pool, maxSize, Ids(pool), peer, now);
    }
  }

  // ---------- ids stay distinct ----------

  lemma {:induction false} SortedKeepsDistinct(s: seq<Transaction>)
    requires DistinctIds(s)
    ensures DistinctIds(SortByFee(s))
  {
    SortedPermutes(false, s);
    ReorderingKeepsDistinctIds(SortByFee(s), s);
  }

  lemma {:induction false} SortedIsUnknown(s: seq<Transaction>, id: string, n: nat)
    requires !Known(s, id) && n <= |s|
    ensures !Known(SortByFee(s)[..n], id)
  {
    SortedPermutes(false, s);
    forall i | 0 <= i < n ensures SortByFee(s)[i].id != id {
      var _ := ReorderedMember(SortByFee(s), s, i);
    }
  }

  lemma {:induction false} OfferKeepsDistinct(pool: seq<Transaction>, maxSize: nat, tx: Transaction)
    requires maxSize > 0 && DistinctIds(pool) && !Known(pool, tx.id)
    ensures DistinctIds(WithRoomMade(pool, maxSize, tx))
  {
    SortedKeepsDistinct(pool);
    if |pool| < maxSize {
      SortedKeepsDistinct(pool + [tx]);
    } else {
      var sorted, n := SortByFee(pool), |pool| - 1;
      SortedIsUnknown(pool, tx.id, n);
      assert forall i :: 0 <= i < n ==> sorted[..n][i] == sorted[i];
      SortedKeepsDistinct(sorted[..n] + [tx]);
    }
  }

  lemma {:induction false} WithoutIsPart(s: seq<Transaction>, id: string, x: Transaction)
    requires x in Without(s, id)
    ensures x in s
  {
    if s != [] && x in Without(s[..|s| - 1], id) { WithoutIsPart(s[..|s| - 1], id, x); }
  }

  lemma {:induction false} WithoutKeepsDistinct(s: seq<Transaction>, id: string)
    requires DistinctIds(s)
    ensures DistinctIds(Without(s, id))
  {
    if s != [] {
      var n := |s| - 1;
      var init := s[..n];
      assert forall i :: 0 <= i < n ==> init[i] == s[i];
      WithoutKeepsDistinct(init, id);
      var rest := Without(init, id);
      forall i | 0 <= i < |rest| ensures rest[i].id != s[n].id { WithoutIsPart(init, id, rest[i]); }
    }
  }

  /** Everyone with the id goes and everyone else stays, as often as they were there. */
  lemma {:induction false} WithoutKeepsOthers(s: seq<Transaction>, id: string, x: Transaction)
    ensures multiset(Without(s, id))[x] == if x.id == id then 0 else multiset(s)[x]
  {
    if s != [] {
      var init, last := s[..|s| - 1], s[|s| - 1];
      WithoutKeepsOthers(init, id, x);
      WithoutLast(s, id);
      CountOneMore(init, last, x);
      CountOneMore(Without(init, id), last, x);
      assert s == init + [last];
    }
  }

  lemma {:induction false} WithoutLast(s: seq<Transaction>, id: string)
    requires s != []
    ensures var init, last := s[..|s| - 1], s[|s| - 1];
      Without(s, id) == if last.id != id then Without(init, id) + [last] else Without(init, id)
  {
  }

  lemma {:induction false} CountOneMore(s: seq<Transaction>, tx: Transaction, x: Transaction)
    ensures multiset(s + [tx])[x] == multiset(s)[x] + if tx == x then 1 else 0
  {
  }

  /** In their order: removal works part by part. */
  lemma {:induction false} WithoutInParts(a: seq<Transaction>, b: seq<Transaction>, id: string)
    ensures Without(a + b, id) == Without(a, id) + Without(b, id)
  {
    if b == [] {
      assert a + b == a;
    } else {
      var n := |b| - 1;
      WithoutInParts(a, b[..n], id);
      assert (a + b)[..|a + b| - 1] == a + b[..n];
    }
  }

  /** A list in which nobody has the id is left as it is. */
  lemma {:induction false} WithoutNobody(s: seq<Transaction>, id: string)
    requires !Known(s, id)
    ensures Without(s, id) == s
  {
    if s != [] {
      var n := |s| - 1;
      forall i | 0 <= i < n ensures s[..n][i].id != id { assert s[i].id != id; }
      WithoutNobody(s[..n], id);
      assert s == s[..n] + [s[n]];
    }
  }

  /** A removed id is unknown afterwards. */
  lemma {:induction false} RemovedIsUnknown(s: seq<Transaction>, id: string)
    ensures !Known(Without(s, id), id)
  {
    var r := Without(s, id);
    forall i | 0 <= i < |r| ensures r[i].id != id {
      WithoutKeepsOthers(s, id, r[i]);
      assert r[i] in multiset(r);
    }
  }

  /** What a sync takes over, in order. */
  function TakenFrom(existing: set<string>, peer: seq<Transaction>, now: int): (taken: seq<Transaction>)
    ensures |taken| == TakenCount(existing, peer, now)
  {
    if peer == [] then [] else
      TakenFrom(existing, peer[..|peer| - 1], now) +
      if Taken(existing, now, peer[|peer| - 1]) then [peer[|peer| - 1]] else []
  }

  lemma {:induction false} TakenIsNew(existing: set<string>, peer: seq<Transaction>, now: int, x: Transaction)
    requires x in TakenFrom(existing, peer, now)
    ensures x in peer && x.id !in existing
  {
    if peer != [] {
      var n := |peer| - 1;
      if x in TakenFrom(existing, peer[..n], now) { TakenIsNew(existing, peer[..n], now, x); }
    }
  }

  lemma {:induction false} TakenKeepsDistinct(existing: set<string>, peer: seq<Transaction>, now: int)
    requires DistinctIds(peer)
    ensures DistinctIds(TakenFrom(existing, peer, now))
  {
    if peer != [] {
      var n := |peer| - 1;
      var init := peer[..n];
      assert forall i :: 0 <= i < n ==> init[i] == peer[i];
      TakenKeepsDistinct(existing, init, now);
      var before := TakenFrom(existing, init, now);
      forall i | 0 <= i < |before| ensures before[i].id != peer[n].id { TakenIsNew(existing, init, now, before[i]); }
    }
  }

  /** A sync rearranges the pool and what it takes over, and drops some of it: the rest is what it drops. */
  lemma {:induction false} SyncSplits(
      pool: seq<Transaction>, maxSize: nat, existing: set<string>, peer: seq<Transaction>, now: int)
    returns (dropped: seq<Transaction>)
    requires |pool| <= maxSize + 1
    ensures multiset(AfterSync(pool, maxSize, existing, peer, now)) + multiset(dropped) ==
            multiset(pool) + multiset(TakenFrom(existing, peer, now))
  {
    if peer == [] {
      dropped := [];
    } else {
      var n := |peer| - 1;
      var before := AfterSync(pool, maxSize, existing, peer[..n], now);
      dropped := SyncSplits(pool, maxSize, existing, peer[..n], now);
      if Taken(existing, now, peer[n]) {
        var more := EvictedSplits(before, maxSize);
        SplitOneMore(pool, TakenFrom(existing, peer[..n], now), before, dropped,
                     Evicted(before, maxSize), more, peer[n]);
        dropped := dropped + more;
      }
    }
  }

  lemma {:induction false} SplitOneMore(
      pool: seq<Transaction>, taken: seq<Transaction>, before: seq<Transaction>, dropped: seq<Transaction>,
      kept: seq<Transaction>, more: seq<Transaction>, tx: Transaction)
    requires multiset(before) + multiset(dropped) == multiset(pool) + multiset(taken)
    requires multiset(kept) + multiset(more) == multiset(before)
    ensures multiset(kept + [tx]) + multiset(dropped + more) == multiset(pool) + multiset(taken + [tx])
  {
    SumsAgree(multiset(before), multiset(dropped), multiset(pool), multiset(taken), multiset(kept), multiset(more), tx);
  }

  lemma {:induction false} SumsAgree(
      before: multiset<Transaction>, dropped: multiset<Transaction>, pool: multiset<Transaction>,
      taken: multiset<Transaction>, kept: multiset<Transaction>, more: multiset<Transaction>, tx: Transaction)
    requires before + dropped == pool + taken && kept + more == before
    ensures kept + multiset{tx} + (dropped + more) == pool + (taken + multiset{tx})
  {
    forall x ensures (kept + multiset{tx} + (dropped + more))[x] == (pool + (taken + multiset{tx}))[x] {
      assert (before + dropped)[x] == (pool + taken)[x];
      assert (kept + more)[x] == before[x];
    }
  }

  lemma {:induction false} EvictedSplits(pool: seq<Transaction>, maxSize: nat) returns (dropped: seq<Transaction>)
    ensures multiset(Evicted(pool, maxSize)) + multiset(dropped) == multiset(pool)
  {
    dropped := [];
    if |pool| >= maxSize {
      SortedPermutes(true, pool);
      var sorted := Sorted(true, pool);
      if |sorted| > maxSize {
        dropped := sorted[maxSize..];
        assert sorted == sorted[..maxSize] + dropped;
      }
    }
  }

  /** What an eviction keeps pays more than what it drops or, for the same fee, is not older. */
  lemma {:induction false} EvictedKeepsBest(pool: seq<Transaction>, maxSize: nat) returns (dropped: seq<Transaction>)
    ensures multiset(Evicted(pool, maxSize)) + multiset(dropped) == multiset(pool)
    ensures |dropped| == if |pool| <= maxSize then 0 else |pool| - maxSize
    ensures if |pool| < maxSize then Evicted(pool, maxSize) == pool else InOrder(true, Evicted(pool, maxSize))
    ensures forall i, j :: 0 <= i < |Evicted(pool, maxSize)| && 0 <= j < |dropped| ==>
              OutRanks(Evicted(pool, maxSize)[i], dropped[j])
  {
    dropped := [];
    if |pool| >= maxSize {
      SortedPermutes(true, pool);
      SortedIsInOrder(true, pool);
      var sorted := Sorted(true, pool);
      dropped := sorted[|Top(sorted, maxSize)|..];
      assert sorted == Top(sorted, maxSize) + dropped;
      EarlierOutRank(Top(sorted, maxSize), dropped);
      PrefixInOrder(true, sorted, |Top(sorted, maxSize)|);
    }
  }

  predicate OutRanks(x: Transaction, y: Transaction) {
    x.gasFee > y.gasFee || (x.gasFee == y.gasFee && x.timestamp >= y.timestamp)
  }

  lemma {:induction false} EarlierOutRank(top: seq<Transaction>, rest: seq<Transaction>)
    requires InOrder(true, top + rest)
    ensures forall i, j :: 0 <= i < |top| && 0 <= j < |rest| ==> OutRanks(top[i], rest[j])
  {
    var all := top + rest;
    forall i, j | 0 <= i < |top| && 0 <= j < |rest| ensures OutRanks(top[i], rest[j]) {
      assert all[i] == top[i] && all[|top| + j] == rest[j];
      assert !Higher(true, all[|top| + j], all[i]);
    }
  }

  lemma {:induction false} PartOfDistinct(s: seq<Transaction>, rest: seq<Transaction>, all: seq<Transaction>)
    requires multiset(s) + multiset(rest) == multiset(all) && DistinctIds(all)
    ensures DistinctIds(s)
  {
    assert multiset(s + rest) == multiset(all);
    ReorderingKeepsDistinctIds(s + rest, all);
    assert forall i :: 0 <= i < |s| ==> (s + rest)[i] == s[i];
  }

  lemma {:induction false} DistinctTogether(pool: seq<Transaction>, peer: seq<Transaction>, now: int)
    ensures DistinctIds(pool + TakenFrom(Ids(pool), peer, now)) <==>
            DistinctIds(pool) && DistinctIds(TakenFrom(Ids(pool), peer, now))
  {
    var taken := TakenFrom(Ids(pool), peer, now);
    var all := pool + taken;
    assert forall i :: 0 <= i < |pool| ==> all[i] == pool[i];
    assert forall i :: 0 <= i < |taken| ==> taken[i] == all[|pool| + i];
    forall i, j | 0 <= i < |pool| && 0 <= j < |taken| ensures pool[i].id != taken[j].id {
      TakenIsNew(Ids(pool), peer, now, taken[j]);
      assert pool[i].id in Ids(pool);
    }
  }

  /** A sync keeps ids distinct if those it takes over are; if it drops nothing, only then. */
  lemma {:induction false} SyncKeepsDistinctIff(
      pool: seq<Transaction>, maxSize: nat, peer: seq<Transaction>, now: int)
    requires |pool| <= maxSize + 1
    ensures DistinctIds(pool) && DistinctIds(TakenFrom(Ids(pool), peer, now)) ==>
            DistinctIds(AfterSync(pool, maxSize, Ids(pool), peer, now))
    ensures |pool| + TakenCount(Ids(pool), peer, now) <= maxSize + 1 ==>
            (DistinctIds(AfterSync(pool, maxSize, Ids(pool), peer, now)) <==>
             DistinctIds(pool) && DistinctIds(TakenFrom(Ids(pool), peer, now)))
  {
    var after, taken := AfterSync(pool, maxSize, Ids(pool), peer, now), TakenFrom(Ids(pool), peer, now);
    var dropped := SyncSplits(pool, maxSize, Ids(pool), peer, now);
    var all := pool + taken;
    assert multiset(after) + multiset(dropped) == multiset(all);
    DistinctTogether(pool, peer, now);
    if DistinctIds(all) { PartOfDistinct(after, dropped, all); }
    SizeAfterSync(pool, maxSize, Ids(pool), peer, now);
    if |pool| + |taken| <= maxSize + 1 && DistinctIds(after) {
      assert |multiset(after)| + |multiset(dropped)| == |multiset(all)|;
      assert multiset(dropped) == multiset{};
      ReorderingKeepsDistinctIds(all, after);
    }
  }

  /** The lists that peers send are free of repetitions. */
  ghost predicate CleanPeers(ops: seq<PoolOp>) {
    forall i :: 0 <= i < |ops| && ops[i].Sync? ==> DistinctIds(ops[i].peer)
  }

  /** In any run the pool never holds an id twice, if no peer's list does. */
  lemma {:induction false} PoolKeepsDistinctIds(maxSize: nat, ops: seq<PoolOp>, signed: Transaction -> bool)
    requires maxSize > 0 && CleanPeers(ops)
    ensures DistinctIds(Steps(maxSize, ops, signed))
  {
    if ops != [] {
      var n := |ops| - 1;
      var pool := Steps(maxSize, ops[..n], signed);
      assert forall i :: 0 <= i < n ==> ops[..n][i] == ops[i];
      PoolKeepsDistinctIds(maxSize, ops[..n], signed);
      match ops[n]
      case Add(tx, utxos) =>
        if !Known(pool, tx.id) { OfferKeepsDistinct(pool, maxSize, tx); }
      case Remove(id) => WithoutKeepsDistinct(pool, id);
      case Sync(peer, now) =>
        PoolStaysWithinOne(maxSize, ops[..n], signed);
        TakenKeepsDistinct(Ids(pool), peer, now);
        SyncKeepsDistinctIff(pool, maxSize, peer, now);
    }
  }

  /** A peer that lists a transaction twice gets it in twice: known ids are collected before the loop. */
  lemma {:induction false} ListedTwiceIsInTwice(tx: Transaction, maxSize: nat, signed: Transaction -> bool)
    requires maxSize >= 2
    ensures Steps(maxSize, [Sync([tx, tx], tx.timestamp)], signed) == [tx, tx]
  {
    var peer, now := [tx, tx], tx.timestamp;
    assert [Sync(peer, now)][..0] == [] && Steps(maxSize, [], signed) == [];
    assert peer[..1] == [tx] && [tx][..0] == [];
    assert AfterSync([], maxSize, {}, [tx], now) == Evicted(AfterSync([], maxSize, {}, [tx][..0], now), maxSize) + [tx];
    assert AfterSync([], maxSize, {}, peer, now) == Evicted([tx], maxSize) + [tx];
    assert Ids([]) == {};
  }

  /** A sync takes a transaction exactly when its id was unknown and it is at most a day old. */
  lemma {:induction false} TakenIff(existing: set<string>, now: int, tx: Transaction)
    ensures TakenFrom(existing, [tx], now) == if tx.id !in existing && now - tx.timestamp <= 86400 then [tx] else []
  {
    assert [tx][..0] == [];
    assert TakenFrom(existing, [tx][..0], now) == [];
  }

  /** Expiry: a day from now for the ids taken over, as before for all others. */
  lemma {:induction false} ExpiryAt(
      times: map<string, int>, existing: set<string>, peer: seq<Transaction>, now: int, id: string)
    ensures var after := TimesAfterSync(times, existing, peer, now);
      if Known(TakenFrom(existing, peer, now), id) then id in after && after[id] == now + 86400
      else (id in after <==> id in times) && (id in times ==> after[id] == times[id])
  {
    if peer != [] {
      var n := |peer| - 1;
      ExpiryAt(times, existing, peer[..n], now, id);
      var taken := TakenFrom(existing, peer[..n], now);
      assert TakenFrom(existing, peer, now) == if Taken(existing, now, peer[n]) then taken + [peer[n]] else taken;
      KnownOneMore(taken, peer[n], id);
    }
  }

  lemma {:induction false} KnownOneMore(s: seq<Transaction>, tx: Transaction, id: string)
    ensures Known(s + [tx], id) <==> Known(s, id) || tx.id == id
  {
    var all := s + [tx];
    if i :| 0 <= i < |s| && s[i].id == id { assert all[i].id == id; }
    if tx.id == id { assert all[|s|].id == id; }
    if i :| 0 <= i < |all| && all[i].id == id { assert i < |s| ==> s[i].id == id; }
  }

  /** An admitted offer is in the pool afterwards; one that is not admitted changes at most the order. */
  lemma {:induction false} AdmittedIsIn(
      pool: seq<Transaction>, maxSize: nat, tx: Transaction, utxos: Pool, signed: Transaction -> bool)
    requires maxSize > 0
    ensures Admitted(pool, maxSize, tx, utxos, signed) ==> tx in AfterOffer(pool, maxSize, tx, utxos, signed)
    ensures !Admitted(pool, maxSize, tx, utxos, signed) ==>
              multiset(AfterOffer(pool, maxSize, tx, utxos, signed)) == multiset(pool)
  {
    SortedPermutes(false, pool);
    if Admitted(pool, maxSize, tx, utxos, signed) {
      var kept := if |pool| < maxSize then pool else SortByFee(pool)[..|pool| - 1];
      assert AfterOffer(pool, maxSize, tx, utxos, signed) == SortByFee(kept + [tx]);
      LastIsSortedIn(kept, tx);
    }
  }

  lemma {:induction false} LastIsSortedIn(s: seq<Transaction>, tx: Transaction)
    ensures tx in SortByFee(s + [tx])
  {
    SortedPermutes(false, s + [tx]);
    assert tx in multiset(s + [tx]);
    assert tx in multiset(SortByFee(s + [tx]));
  }
}
