/** Totals of unspent value, overall and per owner. */
module Balances {
  import opened Types
  import opened Text
  import opened Ledger

  /** The value an entry contributes to one owner's balance, or to the supply when no owner is named. */
  function Worth(u: UTXO, who: Option<string>): real {
    if !u.spent && (who.None? || u.owner == who.value) then u.amount else 0.0
  }

  ghost function Total(m: Pool, who: Option<string>): real
    decreases |m|
  {
    if m == map[] then 0.0 else
      var k :| k in m;
      assert |m - {k}| < |m| by { assert (m - {k}).Keys == m.Keys - {k}; }
      Worth(m[k], who) + Total(m - {k}, who)
  }

  ghost function Supply(m: Pool): real { Total(m, None) }

  ghost function Balance(m: Pool, owner: string): real { Total(m, Some(owner)) }

  function WorthAt(m: Pool, k: string, who: Option<string>): real {
    if k in m then Worth(m[k], who) else 0.0
  }

  /** The total does not depend on the order in which entries are visited. */
  lemma {:induction false} TotalWithout(m: Pool, k: string, who: Option<string>)
    ensures Total(m, who) == WorthAt(m, k, who) + Total(m - {k}, who)
    decreases |m|
  {
    if k !in m {
      assert m - {k} == m;
    } else {
      var j :| j in m && Total(m, who) == Worth(m[j], who) + Total(m - {j}, who);
      if j != k {
        assert |m - {j}| < |m| && |m - {k}| < |m| by {
          assert (m - {j}).Keys == m.Keys - {j} && (m - {k}).Keys == m.Keys - {k};
        }
        TotalWithout(m - {j}, k, who);
        TotalWithout(m - {k}, j, who);
        assert m - {j} - {k} == m - {k} - {j};
      }
    }
  }

  lemma {:induction false} TotalAfterWrite(m: Pool, k: string, u: UTXO, who: Option<string>)
    ensures Total(m[k := u], who) == Total(m, who) - WorthAt(m, k, who) + Worth(u, who)
  {
    TotalWithout(m, k, who);
    TotalWithout(m[k := u], k, who);
    assert m[k := u] - {k} == m - {k};
  }
}
