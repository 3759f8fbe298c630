/** Choosing the inputs of a payment: largest outputs first, change back to the sender. */
module Funding {
  import opened Types
  import opened Text
  import opened Ledger
  import opened Balances
  import opened Conservation
  import opened UtxoPool
  import opened DeltaSync
  import StateRoot
  import Gas

  lemma {:induction false} MarkSpentKeepsWellKeyed(m: Pool, inputs: seq<TxInput>)
    requires WellKeyed(m)
    ensures WellKeyed(MarkSpent(m, inputs))
  {
    if inputs != [] { MarkSpentKeepsWellKeyed(m, inputs[..|inputs| - 1]); }
  }

  lemma {:induction false} AddOutputsKeepsWellKeyed(m: Pool, tx: Transaction, height: nat, n: nat)
    requires WellKeyed(m) && n <= |tx.outputs|
    ensures WellKeyed(AddOutputs(m, tx, height, n))
  {
    if n > 0 { AddOutputsKeepsWellKeyed(m, tx, height, n - 1); }
  }

  lemma {:induction false} ApplyTxKeepsWellKeyed(m: Pool, tx: Transaction, height: nat)
    requires WellKeyed(m)
    ensures WellKeyed(ApplyTx(m, tx, height))
  {
    MarkSpentKeepsWellKeyed(m, tx.inputs);
    AddOutputsKeepsWellKeyed(SpendInputs(m, tx), tx, height, |tx.outputs|);
  }

  lemma {:induction false} ApplyBlockKeepsWellKeyed(m: Pool, txs: seq<Transaction>, height: nat)
    requires WellKeyed(m)
    ensures WellKeyed(ApplyBlock(m, txs, height))
  {
    if txs != [] {
      ApplyBlockKeepsWellKeyed(m, txs[..|txs| - 1], height);
      ApplyTxKeepsWellKeyed(ApplyBlock(m, txs[..|txs| - 1], height), txs[|txs| - 1], height);
    }
  }

  /** Every state a pool can reach is well keyed. */
  lemma {:induction false} ReachableIsWellKeyed(ops: seq<PoolOp>)
    ensures WellKeyed(After(ops).utxos)
  {
    if ops != [] {
      var before := After(ops[..|ops| - 1]).utxos;
      ReachableIsWellKeyed(ops[..|ops| - 1]);
      match ops[|ops| - 1]
      case Add(tx, height, now) => ApplyTxKeepsWellKeyed(before, tx, height);
      case Block(txs, height, now) => ApplyBlockKeepsWellKeyed(before, txs, height);
      case Remove(txid, index, now) =>
    }
  }

  ghost predicate OwnsAny(m: Pool, owner: string) {
    exists k :: k in m && m[k].owner == owner
  }

  // ---------- listings of an owner's entries ----------

  /** The list shows entries of the owner, each under its own key. */
  ghost predicate Listed(m: Pool, owner: string, list: seq<UTXO>, ks: seq<string>) {
    && |list| == |ks|
    && (forall i, j :: 0 <= i < j < |ks| ==> ks[i] != ks[j])
    && (forall i :: 0 <= i < |ks| ==> ks[i] in m && m[ks[i]] == list[i] && list[i].owner == owner)
  }

  ghost predicate AllOf(m: Pool, owner: string, ks: seq<string>) {
    forall k :: k in m && m[k].owner == owner ==> k in ks
  }

  ghost predicate Descending(list: seq<UTXO>) {
    forall i, j :: 0 <= i < j < |list| ==> list[i].amount >= list[j].amount
  }

  method GetUTXOsForAddress(pool: UTXOPool, address: string) returns (list: seq<UTXO>, ghost ks: seq<string>)
    ensures Listed(pool.utxos, address, list, ks) && AllOf(pool.utxos, address, ks)
    ensures forall u :: u in list <==> u in pool.utxos.Values && u.owner == address
  {
    list, ks := [], [];
    var todo := pool.utxos.Keys;
    while todo != {}
      invariant todo <= pool.utxos.Keys
      invariant Listed(pool.utxos, address, list, ks)
      invariant forall i :: 0 <= i < |ks| ==> ks[i] !in todo
      invariant forall k :: k in pool.utxos && k !in todo && pool.utxos[k].owner == address ==> k in ks
    {
      var key :| key in todo;
      if pool.utxos[key].owner == address {
        list, ks := list + [pool.utxos[key]], ks + [key];
      }
      todo := todo - {key};
    }
    ListedValues(pool.utxos, address, list, ks);
  }

  /** A complete listing holds the owner's entries and no others. */
  lemma {:induction false} ListedValues(m: Pool, owner: string, list: seq<UTXO>, ks: seq<string>)
    requires Listed(m, owner, list, ks) && AllOf(m, owner, ks)
    ensures forall u :: u in list <==> u in m.Values && u.owner == owner
  {
    forall u | u in m.Values && u.owner == owner ensures u in list {
      var k :| k in m && m[k] == u;
      var i :| 0 <= i < |ks| && ks[i] == k;
      assert list[i] == u;
    }
    forall u | u in list ensures u in m.Values && u.owner == owner {
      var i :| 0 <= i < |list| && list[i] == u;
      assert ks[i] in m;
    }
  }

  method InsertByAmount(
      list: seq<UTXO>, u: UTXO, ghost m: Pool, ghost owner: string, ghost ks: seq<string>, ghost k: string)
    returns (r: seq<UTXO>, ghost rs: seq<string>)
    requires Listed(m, owner, list, ks) && Descending(list)
    requires k in m && m[k] == u && u.owner == owner && k !in ks
    ensures Listed(m, owner, r, rs) && Descending(r)
    ensures forall x :: x in rs <==> x in ks || x == k
  {
    var p := 0;
    while p < |list| && list[p].amount > u.amount
      invariant 0 <= p <= |list|
      invariant forall i :: 0 <= i < p ==> list[i].amount > u.amount
    {
      p := p + 1;
    }
    r, rs := list[..p] + [u] + list[p..], ks[..p] + [k] + ks[p..];
    InsertedIsListed(m, owner, list, ks, p, u, k);
    InsertedIsDescending(list, p, u);
  }

  lemma {:induction false} InsertedIsListed(
      m: Pool, owner: string, list: seq<UTXO>, ks: seq<string>, p: nat, u: UTXO, k: string)
    requires Listed(m, owner, list, ks) && p <= |list|
    requires k in m && m[k] == u && u.owner == owner && k !in ks
    ensures Listed(m, owner, list[..p] + [u] + list[p..], ks[..p] + [k] + ks[p..])
    ensures forall x :: x in ks[..p] + [k] + ks[p..] <==> x in ks || x == k
  {
    var r, rs := list[..p] + [u] + list[p..], ks[..p] + [k] + ks[p..];
    assert ks == ks[..p] + ks[p..];
    InsertedDistinct(ks, p, k);
    forall i | 0 <= i < |rs| ensures rs[i] in m && m[rs[i]] == r[i] && r[i].owner == owner {
      if i < p {
        assert rs[i] == ks[i] && r[i] == list[i];
      } else if i > p {
        assert rs[i] == ks[i - 1] && r[i] == list[i - 1];
      }
    }
  }

  lemma {:induction false} InsertedDistinct(ks: seq<string>, p: nat, k: string)
    requires p <= |ks| && k !in ks && forall i, j :: 0 <= i < j < |ks| ==> ks[i] != ks[j]
    ensures var rs := ks[..p] + [k] + ks[p..]; forall i, j :: 0 <= i < j < |rs| ==> rs[i] != rs[j]
  {
    var rs := ks[..p] + [k] + ks[p..];
    forall i, j | 0 <= i < j < |rs| ensures rs[i] != rs[j] {
      assert i != p ==> rs[i] == ks[if i < p then i else i - 1];
      assert j != p ==> rs[j] == ks[if j < p then j else j - 1];
    }
  }

  lemma {:induction false} InsertedIsDescending(list: seq<UTXO>, p: nat, u: UTXO)
    requires Descending(list) && p <= |list|
    requires forall i :: 0 <= i < p ==> list[i].amount > u.amount
    requires p < |list| ==> list[p].amount <= u.amount
    ensures Descending(list[..p] + [u] + list[p..])
  {
    var r := list[..p] + [u] + list[p..];
    forall i, j | 0 <= i < j < |r| ensures r[i].amount >= r[j].amount {
      assert p < j ==> r[j] == list[j - 1];
      assert p < i ==> r[i] == list[i - 1];
    }
  }

  /** sort.Slice with "larger amount first"; equal amounts come out in some order. */
  method SortByAmount(list: seq<UTXO>, ghost m: Pool, ghost owner: string, ghost ks: seq<string>)
    returns (r: seq<UTXO>, ghost rs: seq<string>)
    requires Listed(m, owner, list, ks)
    ensures Listed(m, owner, r, rs) && Descending(r)
    ensures forall x :: x in rs <==> x in ks
  {
    r, rs := [], [];
    for i := 0 to |list|
      invariant Listed(m, owner, r, rs) && Descending(r)
      invariant forall x :: x in rs <==> x in ks[..i]
    {
      r, rs := InsertByAmount(r, list[i], m, owner, rs, ks[i]);
      assert ks[..i + 1] == ks[..i] + [ks[i]];
    }
    assert ks[..|list|] == ks;
  }

  // ---------- sums ----------

  function Sum(list: seq<UTXO>): real {
    if list == [] then 0.0 else Sum(list[..|list| - 1]) + list[|list| - 1].amount
  }

  /** What a listing contributes to the owner's balance. */
  function ListWorth(list: seq<UTXO>, owner: string): real {
    if list == [] then 0.0 else ListWorth(list[..|list| - 1], owner) + Worth(list[|list| - 1], Some(owner))
  }

  lemma {:induction false} NoWorthNoTotal(m: Pool, who: Option<string>)
    requires forall k :: k in m ==> Worth(m[k], who) == 0.0
    ensures Total(m, who) == 0.0
    decreases |m|
  {
    if m != map[] {
      var k :| k in m;
      assert |m - {k}| < |m| by { assert (m - {k}).Keys == m.Keys - {k}; }
      TotalWithout(m, k, who);
      NoWorthNoTotal(m - {k}, who);
    }
  }

  lemma {:induction false} CompleteListingIsBalance(m: Pool, owner: string, list: seq<UTXO>, ks: seq<string>)
    requires Listed(m, owner, list, ks) && AllOf(m, owner, ks)
    ensures ListWorth(list, owner) == Balance(m, owner)
  {
    if list == [] {
      NoWorthNoTotal(m, Some(owner));
    } else {
      var n := |list| - 1;
      var k := ks[n];
      TotalWithout(m, k, Some(owner));
      ListingWithoutLast(m, owner, list, ks);
      CompleteListingIsBalance(m - {k}, owner, list[..n], ks[..n]);
    }
  }

  lemma {:induction false} ListingWithoutLast(m: Pool, owner: string, list: seq<UTXO>, ks: seq<string>)
    requires Listed(m, owner, list, ks) && AllOf(m, owner, ks) && list != []
    ensures var n := |list| - 1;
      Listed(m - {ks[n]}, owner, list[..n], ks[..n]) && AllOf(m - {ks[n]}, owner, ks[..n])
  {
    var n := |list| - 1;
    assert ks == ks[..n] + [ks[n]];
  }

  lemma {:induction false} PrefixWorth(m: Pool, owner: string, list: seq<UTXO>, ks: seq<string>, n: nat)
    requires Listed(m, owner, list, ks) && NonNegative(m) && n <= |list|
    ensures ListWorth(list[..n], owner) <= ListWorth(list, owner)
  {
    if n < |list| {
      var l := |list| - 1;
      assert ks[l] in m;
      PrefixWorth(m, owner, list[..l], ks[..l], n);
      assert list[..l][..n] == list[..n];
    } else {
      assert list[..n] == list;
    }
  }

  // ---------- the selection ----------

  /** Every unspent entry of the owner that was not chosen is worth at most each chosen one. */
  ghost predicate TopOf(m: Pool, owner: string, chosen: seq<UTXO>, ks: seq<string>) {
    forall k, i :: k in m && m[k].owner == owner && !m[k].spent && k !in ks && 0 <= i < |chosen| ==>
      m[k].amount <= chosen[i].amount
  }

  /** The largest unspent entries, taken until they cover the need and no further. */
  ghost predicate Greedy(m: Pool, owner: string, needed: real, chosen: seq<UTXO>, ks: seq<string>) {
    && Listed(m, owner, chosen, ks) && Descending(chosen)
    && (forall i :: 0 <= i < |chosen| ==> !chosen[i].spent)
    && TopOf(m, owner, chosen, ks)
    && Sum(chosen) >= needed
    && (|chosen| > 1 ==> Sum(chosen[..|chosen| - 1]) < needed)
  }

  /** Where the walk down the sorted list stands after n entries. */
  ghost predicate Walked(m: Pool, owner: string, list: seq<UTXO>, lk: seq<string>, needed: real,
                         n: nat, enough: bool, selected: seq<UTXO>, sel: seq<string>, total: real)
    requires |list| == |lk| && n <= |list|
  {
    && FromPrefix(list, lk, n, sel)
    && Listed(m, owner, selected, sel) && Descending(selected)
    && (forall j :: 0 <= j < |selected| ==> !selected[j].spent)
    && total == Sum(selected) == ListWorth(list[..n], owner)
    && (enough ==> total >= needed)
    && (!enough && |selected| > 0 ==> total < needed)
    && (enough && |selected| > 1 ==> Sum(selected[..|selected| - 1]) < needed)
  }

  lemma {:induction false} WalkStep(m: Pool, owner: string, list: seq<UTXO>, lk: seq<string>, needed: real,
                 n: nat, selected: seq<UTXO>, sel: seq<string>, total: real)
    requires Listed(m, owner, list, lk) && Descending(list) && n < |list|
    requires Walked(m, owner, list, lk, needed, n, false, selected, sel, total)
    ensures list[n].spent ==> Walked(m, owner, list, lk, needed, n + 1, false, selected, sel, total)
    ensures !list[n].spent ==>
              Walked(m, owner, list, lk, needed, n + 1, total + list[n].amount >= needed,
                     selected + [list[n]], sel + [lk[n]], total + list[n].amount)
  {
    FromPrefixStep(m, owner, list, lk, n, selected, sel);
    SumStep(list, owner, n, selected);
    if !list[n].spent {
      ListedStep(m, owner, selected, sel, list[n], lk[n]);
    }
  }

  /** Walks the sorted list, skipping spent entries, until the total is reached. */
  method TakeUntil(list: seq<UTXO>, needed: real, ghost m: Pool, ghost owner: string, ghost lk: seq<string>)
    returns (selected: seq<UTXO>, total: real, ghost sel: seq<string>, ghost taken: nat, ghost enough: bool)
    requires Listed(m, owner, list, lk) && Descending(list)
    ensures taken <= |list| && Walked(m, owner, list, lk, needed, taken, enough, selected, sel, total)
    ensures !enough ==> taken == |list|
    ensures total == Sum(selected) && forall u :: u in selected ==> u in list && !u.spent
  {
    selected, total, sel := [], 0.0, [];
    var i, stop := 0, false;
    while i < |list| && !stop
      invariant 0 <= i <= |list|
      invariant Walked(m, owner, list, lk, needed, i, stop, selected, sel, total)
    {
      WalkStep(m, owner, list, lk, needed, i, selected, sel, total);
      if !list[i].spent {
        selected, sel := selected + [list[i]], sel + [lk[i]];
        total := total + list[i].amount;
        stop := total >= needed;
      }
      i := i + 1;
    }
    taken, enough := i, stop;
    WalkedSelected(m, owner, list, lk, needed, taken, enough, selected, sel, total);
  }

  lemma {:induction false} WalkedSelected(
      m: Pool, owner: string, list: seq<UTXO>, lk: seq<string>, needed: real,
      n: nat, enough: bool, selected: seq<UTXO>, sel: seq<string>, total: real)
    requires Listed(m, owner, list, lk) && n <= |list|
    requires Walked(m, owner, list, lk, needed, n, enough, selected, sel, total)
    ensures total == Sum(selected) && forall u :: u in selected ==> u in list && !u.spent
  {
    SelectedAreListed(m, owner, list, lk, n, selected, sel);
  }

  lemma {:induction false} SelectedAreListed(
      m: Pool, owner: string, list: seq<UTXO>, lk: seq<string>, n: nat, selected: seq<UTXO>, sel: seq<string>)
    requires Listed(m, owner, list, lk) && Listed(m, owner, selected, sel)
    requires n <= |list| && FromPrefix(list, lk, n, sel)
    ensures forall u :: u in selected ==> u in list
  {
    forall u | u in selected ensures u in list {
      var i :| 0 <= i < |selected| && selected[i] == u;
      assert sel[i] in lk[..n];
      var j :| 0 <= j < n && lk[j] == sel[i];
      assert list[j] == u;
    }
  }

  /** The sender's entries, sorted and cut off; no entries at all is a failure of its own. */
  method ChooseInputs(pool: UTXOPool, sender: string, needed: real)
    returns (found: bool, selected: seq<UTXO>, total: real, ghost sel: seq<string>)
    ensures found <==> OwnsAny(pool.utxos, sender)
    ensures found && total < needed ==> Balance(pool.utxos, sender) < needed
    ensures found && total >= needed ==> total == Sum(selected) && Greedy(pool.utxos, sender, needed, selected, sel)
    ensures found && total >= needed && NonNegative(pool.utxos) ==> Balance(pool.utxos, sender) >= needed
  {
    selected, total, sel := [], 0.0, [];
    var list, lk := GetUTXOsForAddress(pool, sender);
    found := |list| != 0;
    if !found {
      return;
    }
    assert OwnsAny(pool.utxos, sender) by { assert lk[0] in pool.utxos; }
    list, lk := SortByAmount(list, pool.utxos, sender, lk);
    ghost var taken, enough;
    selected, total, sel, taken, enough := TakeUntil(list, needed, pool.utxos, sender, lk);
    CompleteListingIsBalance(pool.utxos, sender, list, lk);
    PrefixIsTop(pool.utxos, sender, list, lk, taken, selected, sel);
    if !enough {
      assert list[..taken] == list;
    } else if NonNegative(pool.utxos) {
      PrefixWorth(pool.utxos, sender, list, lk, taken);
    }
  }

  lemma {:induction false} ListedStep(m: Pool, owner: string, list: seq<UTXO>, ks: seq<string>, u: UTXO, k: string)
    requires Listed(m, owner, list, ks) && Descending(list) && k !in ks
    requires k in m && m[k] == u && u.owner == owner && forall j :: 0 <= j < |list| ==> list[j].amount >= u.amount
    ensures Listed(m, owner, list + [u], ks + [k]) && Descending(list + [u])
  {
  }

  lemma {:induction false} SumStep(list: seq<UTXO>, owner: string, i: nat, selected: seq<UTXO>)
    requires i < |list|
    ensures ListWorth(list[..i + 1], owner) == ListWorth(list[..i], owner) + Worth(list[i], Some(owner))
    ensures (selected + [list[i]])[..|selected|] == selected
    ensures Sum(selected + [list[i]]) == Sum(selected) + list[i].amount
  {
    assert list[..i + 1][..i] == list[..i];
  }

  /** The chosen keys are those of the unspent entries among the first n of the list. */
  ghost predicate FromPrefix(list: seq<UTXO>, lk: seq<string>, n: nat, sel: seq<string>)
    requires |list| == |lk| && n <= |list|
  {
    && (forall x :: x in sel ==> x in lk[..n])
    && (forall j :: 0 <= j < n && !list[j].spent ==> lk[j] in sel)
  }

  lemma {:induction false} FromPrefixStep(
      m: Pool, owner: string, list: seq<UTXO>, lk: seq<string>, n: nat, selected: seq<UTXO>, sel: seq<string>)
    requires Listed(m, owner, list, lk) && Descending(list) && n < |list| && FromPrefix(list, lk, n, sel)
    requires Listed(m, owner, selected, sel)
    ensures lk[n] !in sel
    ensures list[n].spent ==> FromPrefix(list, lk, n + 1, sel)
    ensures !list[n].spent ==> FromPrefix(list, lk, n + 1, sel + [lk[n]])
    ensures forall j :: 0 <= j < |selected| ==> selected[j].amount >= list[n].amount
  {
    assert lk[..n + 1] == lk[..n] + [lk[n]];
    forall j | 0 <= j < |selected| ensures selected[j].amount >= list[n].amount {
      assert sel[j] in lk[..n];
      var a :| 0 <= a < n && lk[a] == sel[j];
    }
  }

  lemma {:induction false} PrefixIsTop(
      m: Pool, owner: string, list: seq<UTXO>, lk: seq<string>, n: nat, selected: seq<UTXO>, sel: seq<string>)
    requires Listed(m, owner, list, lk) && Descending(list) && AllOf(m, owner, lk)
    requires n <= |list| && FromPrefix(list, lk, n, sel) && Listed(m, owner, selected, sel)
    ensures TopOf(m, owner, selected, sel)
  {
    forall k, i | k in m && m[k].owner == owner && !m[k].spent && k !in sel && 0 <= i < |selected|
      ensures m[k].amount <= selected[i].amount
    {
      var j :| 0 <= j < |lk| && lk[j] == k;
      assert sel[i] in lk[..n];
      var a :| 0 <= a < n && lk[a] == sel[i];
      assert a < j;
    }
  }

  // Greedy is optimal: nobody can pay with fewer inputs.

  ghost predicate SpendableSet(m: Pool, owner: string, keys: set<string>) {
    forall k :: k in keys ==> k in m && !m[k].spent && m[k].owner == owner
  }

  function SetOf(ks: seq<string>): set<string> { set k | k in ks }

  lemma {:induction false} SetOfIsNoLarger(ks: seq<string>)
    ensures |SetOf(ks)| <= |ks|
  {
    if ks != [] {
      var init := ks[..|ks| - 1];
      SetOfIsNoLarger(init);
      assert SetOf(ks) == SetOf(init) + {ks[|ks| - 1]};
    }
  }

  lemma {:induction false} SmallMember(
      m: Pool, owner: string, chosen: seq<UTXO>, ks: seq<string>, keys: set<string>)
    returns (a: string)
    requires Listed(m, owner, chosen, ks) && Descending(chosen) && TopOf(m, owner, chosen, ks)
    requires SpendableSet(m, owner, keys) && 0 < |keys| <= |chosen|
    ensures a in keys && m[a].amount <= chosen[|keys| - 1].amount
  {
    var j := |keys|;
    if keys <= SetOf(ks[..j - 1]) {
      SetOfIsNoLarger(ks[..j - 1]);
      SubsetSize(keys, SetOf(ks[..j - 1]));
      assert false;
    }
    a :| a in keys && a !in SetOf(ks[..j - 1]);
    if a in ks {
      var i :| 0 <= i < |ks| && ks[i] == a;
      assert i >= j - 1 by { NotBefore(ks, j - 1, a, i); }
    }
  }

  lemma {:induction false} NotBefore(ks: seq<string>, n: nat, a: string, i: nat)
    requires n <= |ks| && i < |ks| && ks[i] == a && a !in SetOf(ks[..n])
    ensures i >= n
  {
    assert forall l :: 0 <= l < n ==> ks[l] in ks[..n];
  }

  lemma {:induction false} SubsetSize(a: set<string>, b: set<string>)
    requires a <= b
    ensures |a| <= |b|
  {
    if a != {} {
      var x :| x in a;
      SubsetSize(a - {x}, b - {x});
    }
  }

  lemma {:induction false} TopSum(m: Pool, owner: string, chosen: seq<UTXO>, ks: seq<string>, keys: set<string>)
    requires Listed(m, owner, chosen, ks) && Descending(chosen) && TopOf(m, owner, chosen, ks)
    requires SpendableSet(m, owner, keys) && |keys| <= |chosen|
    ensures Supply(Restrict(m, keys)) <= Sum(chosen[..|keys|])
    decreases |keys|
  {
    if keys == {} {
      assert Restrict(m, keys) == map[];
    } else {
      var j := |keys|;
      var a := SmallMember(m, owner, chosen, ks, keys);
      TopSum(m, owner, chosen, ks, keys - {a});
      TotalWithout(Restrict(m, keys), a, None);
      assert Restrict(m, keys) - {a} == Restrict(m, keys - {a});
      assert chosen[..j][..j - 1] == chosen[..j - 1];
    }
  }

  lemma {:induction false} LongerSum(m: Pool, owner: string, chosen: seq<UTXO>, ks: seq<string>, i: nat, j: nat)
    requires Listed(m, owner, chosen, ks) && NonNegative(m) && i <= j <= |chosen|
    ensures Sum(chosen[..i]) <= Sum(chosen[..j])
  {
    if i < j {
      LongerSum(m, owner, chosen, ks, i, j - 1);
      assert chosen[..j][..j - 1] == chosen[..j - 1];
      assert ks[j - 1] in m;
    }
  }

  /** No set of the owner's unspent outputs that covers the need is smaller than the greedy choice. */
  lemma {:induction false} FewestInputs(
      m: Pool, owner: string, needed: real, chosen: seq<UTXO>, ks: seq<string>, other: set<string>)
    requires NonNegative(m) && Greedy(m, owner, needed, chosen, ks) && needed > 0.0
    requires SpendableSet(m, owner, other) && Supply(Restrict(m, other)) >= needed
    ensures |other| >= |chosen|
  {
    assert chosen[..0] == [];
    if |other| < |chosen| {
      TopSum(m, owner, chosen, ks, other);
      LongerSum(m, owner, chosen, ks, |other|, |chosen| - 1);
    }
  }

  function Refs(chosen: seq<UTXO>): (r: seq<TxInput>)
    ensures |r| == |chosen|
    ensures forall i :: 0 <= i < |r| ==> r[i] == TxInput(chosen[i].txid, chosen[i].index, "")
  {
    seq(|chosen|, i requires 0 <= i < |chosen| => TxInput(chosen[i].txid, chosen[i].index, ""))
  }

  function WithChange(tx: Transaction, change: real): Transaction {
    tx.(outputs := tx.outputs + Change(tx.sender, change))
  }

  function Completed(tx: Transaction, chosen: seq<UTXO>): Transaction {
    WithChange(tx.(inputs := tx.inputs + Refs(chosen)), Sum(chosen) - (tx.amount + tx.gasFee))
  }

  /** The transaction as NewTransaction leaves it. */
  predicate Unfunded(tx: Transaction) {
    tx.txType == TX_REGULAR && tx.inputs == [] && tx.outputs == [Pay(tx)]
  }

  /** The references built from a listing name the listed keys. */
  ghost predicate RefsMatch(chosen: seq<UTXO>, ks: seq<string>) {
    |chosen| == |ks| && forall i {:trigger ks[i]} :: 0 <= i < |ks| ==> InputKey(Refs(chosen)[i]) == ks[i]
  }

  lemma {:induction false} ListedMatches(m: Pool, owner: string, chosen: seq<UTXO>, ks: seq<string>)
    requires Listed(m, owner, chosen, ks) && WellKeyed(m)
    ensures RefsMatch(chosen, ks)
  {
    forall i | 0 <= i < |ks| ensures InputKey(Refs(chosen)[i]) == ks[i] {
      assert ks[i] in m && m[ks[i]] == chosen[i];
    }
  }

  /** The entries are those under the keys. */
  ghost predicate EntriesAt(m: Pool, chosen: seq<UTXO>, ks: seq<string>) {
    |chosen| == |ks| && forall i :: 0 <= i < |ks| ==> ks[i] in m && m[ks[i]] == chosen[i]
  }

  lemma {:induction false} ChosenValue(m: Pool, chosen: seq<UTXO>, ks: seq<string>)
    requires EntriesAt(m, chosen, ks) && RefsMatch(chosen, ks)
    ensures InputValue(m, Refs(chosen)) == Sum(chosen)
  {
    if chosen != [] {
      var n := |chosen| - 1;
      MatchingPrefix(chosen, ks);
      ChosenValue(m, chosen[..n], ks[..n]);
      InputValueStep(m, Refs(chosen), ks[n]);
    }
  }

  lemma {:induction false} MatchingPrefix(chosen: seq<UTXO>, ks: seq<string>)
    requires RefsMatch(chosen, ks) && chosen != []
    ensures var n := |chosen| - 1;
      RefsMatch(chosen[..n], ks[..n]) && Refs(chosen)[..n] == Refs(chosen[..n]) && InputKey(Refs(chosen)[n]) == ks[n]
  {
    var n := |chosen| - 1;
    assert Refs(chosen)[..n] == Refs(chosen[..n]);
    forall i {:trigger ks[..n][i]} | 0 <= i < n ensures InputKey(Refs(chosen[..n])[i]) == ks[..n][i] {
      assert Refs(chosen)[i] == Refs(chosen[..n])[i] && ks[i] == ks[..n][i];
    }
    assert ks[n] == ks[n];
  }

  lemma {:induction false} InputValueStep(m: Pool, inputs: seq<TxInput>, k: string)
    requires inputs != [] && InputKey(inputs[|inputs| - 1]) == k && k in m
    ensures InputValue(m, inputs) == InputValue(m, inputs[..|inputs| - 1]) + m[k].amount
  {
  }

  lemma {:induction false} SelectionIsFunded(m: Pool, tx: Transaction, chosen: seq<UTXO>, ks: seq<string>)
    requires Unfunded(tx) && RefsMatch(chosen, ks)
    requires Listed(m, tx.sender, chosen, ks)
    requires forall i :: 0 <= i < |chosen| ==> !chosen[i].spent
    requires Sum(chosen) >= tx.amount + tx.gasFee
    ensures Funded(m, Completed(tx, chosen))
  {
    ChosenValue(m, chosen, ks);
    ChosenInputs(m, tx.sender, chosen, ks);
    FundedBy(m, tx, Completed(tx, chosen), Refs(chosen), Sum(chosen));
  }

  lemma {:induction false} FundedBy(m: Pool, tx: Transaction, done: Transaction, inputs: seq<TxInput>, total: real)
    requires tx.txType == TX_REGULAR && tx.inputs == [] && tx.outputs == [Pay(tx)]
    requires DistinctInputs(inputs) && SpendableBy(m, inputs, tx.sender) && InputValue(m, inputs) == total
    requires total >= tx.amount + tx.gasFee
    requires done == WithChange(tx.(inputs := tx.inputs + inputs), total - (tx.amount + tx.gasFee))
    ensures Funded(m, done)
  {
    NothingBefore(tx.inputs, inputs);
    assert Pay(done) == Pay(tx);
  }

  lemma {:induction false} NothingBefore<T>(a: seq<T>, s: seq<T>)
    requires a == []
    ensures a + s == s
  {
  }

  lemma {:induction false} ChosenInputs(m: Pool, owner: string, chosen: seq<UTXO>, ks: seq<string>)
    requires Listed(m, owner, chosen, ks) && RefsMatch(chosen, ks)
    requires forall i :: 0 <= i < |chosen| ==> !chosen[i].spent
    ensures DistinctInputs(Refs(chosen)) && SpendableBy(m, Refs(chosen), owner)
  {
    var inputs := Refs(chosen);
    forall i, j | 0 <= i < j < |inputs| ensures InputKey(inputs[i]) != InputKey(inputs[j]) {
      assert ks[i] != ks[j];
    }
    forall i | 0 <= i < |inputs|
      ensures var k := InputKey(inputs[i]); k in m && !m[k].spent && m[k].owner == owner
    {
      assert ks[i] in m && m[ks[i]] == chosen[i];
    }
  }

  /** The transaction under construction, updated in place. */
  class Draft {
    var tx: Transaction

    constructor (tx: Transaction)
      ensures this.tx == tx
    {
      this.tx := tx;
    }

    method AddInput(txID: string, outputIndex: int, signature: string)
      modifies this
      ensures tx == old(tx).(inputs := old(tx).inputs + [TxInput(txID, outputIndex, signature)])
    {
      tx := tx.(inputs := tx.inputs + [TxInput(txID, outputIndex, signature)]);
    }

    method AddChangeOutput(changeAmount: real)
      modifies this
      ensures tx == WithChange(old(tx), changeAmount)
      ensures changeAmount <= 0.0 ==> tx == old(tx)
      ensures changeAmount > 0.0 ==>
                tx == old(tx).(outputs := old(tx).outputs + [TxOutput(old(tx).sender, changeAmount, "")])
    {
      if changeAmount > 0.0 {
        tx := tx.(outputs := tx.outputs + [TxOutput(tx.sender, changeAmount, "")]);
      }
    }

    method AddInputs(chosen: seq<UTXO>)
      modifies this
      ensures tx == old(tx).(inputs := old(tx).inputs + Refs(chosen))
    {
      for i := 0 to |chosen|
        invariant tx == old(tx).(inputs := old(tx).inputs + Refs(chosen)[..i])
      {
        AddInput(chosen[i].txid, chosen[i].index, "");
      }
    }

    method SelectUTXOs(pool: UTXOPool?) returns (ok: bool, ghost chosen: seq<UTXO>, ghost ks: seq<string>)
      modifies this
      ensures !ok ==> tx == old(tx)
      ensures ok ==> pool != null && tx == Completed(old(tx), chosen)
      ensures ok ==> Greedy(pool.utxos, old(tx).sender, old(tx).amount + old(tx).gasFee, chosen, ks)
      ensures !ok && pool != null ==>
                !OwnsAny(pool.utxos, tx.sender) || Balance(pool.utxos, tx.sender) < tx.amount + tx.gasFee
      ensures ok && NonNegative(pool.utxos) ==>
                OwnsAny(pool.utxos, old(tx).sender) &&
                Balance(pool.utxos, old(tx).sender) >= old(tx).amount + old(tx).gasFee
      ensures ok && Unfunded(old(tx)) && WellKeyed(pool.utxos) ==> Funded(pool.utxos, tx)
    {
      ok, chosen, ks := false, [], [];
      if pool == null {
        return;
      }
      var totalNeeded := tx.amount + tx.gasFee;
      var found, selected, totalInput, sel := ChooseInputs(pool, tx.sender, totalNeeded);
      if !found || totalInput < totalNeeded {
        return;
      }
      chosen, ks := selected, sel;
      if Unfunded(tx) && WellKeyed(pool.utxos) {
        ListedMatches(pool.utxos, tx.sender, chosen, ks);
        SelectionIsFunded(pool.utxos, tx, chosen, ks);
      }
      Complete(selected, totalInput - totalNeeded);
      ok := true;
    }

    /** The chosen entries become inputs, what is left over becomes change. */
    method Complete(chosen: seq<UTXO>, changeAmount: real)
      requires changeAmount == Sum(chosen) - (tx.amount + tx.gasFee)
      modifies this
      ensures tx == Completed(old(tx), chosen)
    {
      AddInputs(chosen);
      AddChangeOutput(changeAmount);
    }

    /** The RPC handler's way: inputs and change first, then the payment, then the change once more. */
    method AssembleFromRequest(pool: UTXOPool, makeId: Transaction -> string)
      returns (ok: bool, ghost chosen: seq<UTXO>, ghost ks: seq<string>)
      requires tx.txType == TX_REGULAR && tx.inputs == [] && tx.outputs == []
      modifies this
      ensures !ok ==> tx == old(tx)
      ensures ok ==> tx == RpcCompleted(pool.utxos, old(tx), chosen, tx.id)
      ensures ok ==> Greedy(pool.utxos, old(tx).sender, old(tx).amount + old(tx).gasFee, chosen, ks)
    {
      ok, chosen, ks := SelectUTXOs(pool);
      if !ok { return; }
      PayAndReturnChange(pool.utxos, makeId);
    }

    /** What the handler adds after the selection. */
    method PayAndReturnChange(m: Pool, makeId: Transaction -> string)
      modifies this
      ensures tx == PaidAndChanged(m, old(tx), tx.id)
    {
      tx := tx.(outputs := tx.outputs + [TxOutput(tx.receiver, tx.amount, "")]);
      var totalInput := SumInputs(m, tx.inputs);
      AddChangeOutput(totalInput - tx.amount - tx.gasFee);
      tx := tx.(id := makeId(tx));
    }
  }

  /** The request after both steps of the handler. */
  ghost function RpcCompleted(m: Pool, tx: Transaction, chosen: seq<UTXO>, id: string): Transaction {
    PaidAndChanged(m, Completed(tx, chosen), id)
  }

  /** The payment and the change that the handler adds to what SelectUTXOs left. */
  ghost function PaidAndChanged(m: Pool, funded: Transaction, id: string): Transaction {
    var paid := funded.(outputs := funded.outputs + [Pay(funded)]);
    WithChange(paid, InputValue(m, funded.inputs) - funded.amount - funded.gasFee).(id := id)
  }

  /** On a well-keyed pool that is a payment whose change is returned twice. */
  lemma {:induction false} RequestReturnsChangeTwice(
      m: Pool, tx: Transaction, chosen: seq<UTXO>, ks: seq<string>, id: string)
    requires WellKeyed(m) && tx.txType == TX_REGULAR && tx.inputs == [] && tx.outputs == []
    requires Greedy(m, tx.sender, tx.amount + tx.gasFee, chosen, ks)
    ensures AssembledByRpc(m, RpcCompleted(m, tx, chosen, id))
  {
    ListedMatches(m, tx.sender, chosen, ks);
    RpcShape(m, tx, chosen, ks, id);
  }

  lemma {:induction false} RpcShape(m: Pool, tx: Transaction, chosen: seq<UTXO>, ks: seq<string>, id: string)
    requires RefsMatch(chosen, ks) && tx.txType == TX_REGULAR && tx.inputs == [] && tx.outputs == []
    requires Greedy(m, tx.sender, tx.amount + tx.gasFee, chosen, ks)
    ensures AssembledByRpc(m, RpcCompleted(m, tx, chosen, id))
  {
    ChosenValue(m, chosen, ks);
    ChosenInputs(m, tx.sender, chosen, ks);
    AssembledBy(m, tx, RpcCompleted(m, tx, chosen, id), Refs(chosen), Sum(chosen));
  }

  lemma {:induction false} AssembledBy(m: Pool, tx: Transaction, done: Transaction, inputs: seq<TxInput>, total: real)
    requires tx.txType == TX_REGULAR && tx.inputs == [] && tx.outputs == []
    requires DistinctInputs(inputs) && SpendableBy(m, inputs, tx.sender) && InputValue(m, inputs) == total
    requires total >= tx.amount + tx.gasFee
    requires var funded := WithChange(tx.(inputs := tx.inputs + inputs), total - (tx.amount + tx.gasFee));
      done == PaidAndChanged(m, funded, done.id)
    ensures AssembledByRpc(m, done)
  {
    NothingBefore(tx.inputs, inputs);
    NothingBefore(tx.outputs, Change(tx.sender, total - (tx.amount + tx.gasFee)));
  }

  method SumInputs(m: Pool, inputs: seq<TxInput>) returns (total: real)
    ensures total == InputValue(m, inputs)
  {
    total := 0.0;
    for i := 0 to |inputs|
      invariant total == InputValue(m, inputs[..i])
    {
      assert inputs[..i + 1][..i] == inputs[..i];
      var k := InputKey(inputs[i]);
      if k in m {
        total := total + m[k].amount;
      }
    }
    assert inputs[..|inputs|] == inputs;
  }

  /**
   From the request to the ledger: create, fund and apply. A payment that goes through moves exactly its amount
   and its fee, less whatever its id makes it overwrite.
   */
  method Transfer(pool: UTXOPool, sender: string, receiver: string, amount: real, gasPrice: uint64, gasLimit: uint64,
                  makeId: Transaction -> string, height: nat, now: int, ghost who: Option<string>)
    returns (ok: bool, tx: Transaction)
    requires WellKeyed(pool.utxos)
    modifies pool
    ensures !ok ==> pool.State() == old(pool.State()) && pool.merkleRoot == old(pool.merkleRoot)
    ensures ok ==> WellKeyed(pool.utxos) && pool.merkleRoot == StateRoot.PoolRoot(pool.hasher, pool.utxos)
    ensures ok ==> tx.sender == sender && tx.receiver == receiver && tx.amount == amount && 0.0 < tx.gasFee <= 2.0
    ensures ok ==> Funded(old(pool.utxos), tx)
    ensures ok ==> Total(pool.utxos, who) == Moved(old(pool.utxos), tx, who)
    ensures ok && Fresh(old(pool.utxos), tx.id) ==> Overwritten(old(pool.utxos), tx, who) == 0.0
  {
    var created := Gas.NewTransaction(sender, receiver, amount, gasPrice, gasLimit, now, makeId);
    tx := EMPTY_TX;
    if !created.Created? {
      return false, tx;
    }
    Gas.CreatedTransaction(sender, receiver, amount, gasPrice, gasLimit, now, makeId);
    var draft := new Draft(created.tx);
    ghost var chosen, ks;
    ok, chosen, ks := draft.SelectUTXOs(pool);
    tx := draft.tx;
    if ok {
      PaymentIsMoved(pool.utxos, tx, height, who);
      ApplyTxKeepsWellKeyed(pool.utxos, tx, height);
      pool.AddUTXO(tx, height, now);
    }
  }

  /** A total after a payment: the amount has arrived, amount and fee are gone, and so is what was overwritten. */
  ghost function Moved(m: Pool, tx: Transaction, who: Option<string>): real {
    Total(m, who)
    + (if who.None? || who.value == tx.receiver then tx.amount else 0.0)
    - (if who.None? || who.value == tx.sender then tx.amount + tx.gasFee else 0.0)
    - Overwritten(m, tx, who)
  }

  lemma {:induction false} PaymentIsMoved(m: Pool, tx: Transaction, height: nat, who: Option<string>)
    requires Funded(m, tx)
    ensures Total(ApplyTx(m, tx, height), who) == Moved(m, tx, who)
    ensures Fresh(m, tx.id) ==> Overwritten(m, tx, who) == 0.0
  {
    PaymentMoves(m, tx, height, who);
    if Fresh(m, tx.id) { FreshOverwritesNothing(m, tx, who); }
  }

  const EMPTY_TX := Transaction("", "", "", 0.0, 0, 0.0, [], [], TX_REGULAR, 0, 0, 0)
}
