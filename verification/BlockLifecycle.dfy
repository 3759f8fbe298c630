/** A block from the builder through the trie to the ledger: what a node that processes its listing ends with. */
module BlockLifecycle {
  import opened Types
  import opened Ledger
  import opened LiveSet
  import opened TrieSpec
  import opened StateRoot
  import opened BlockBody
  import opened BlockBuilder
  import Trie
  import Chain
  import UtxoPool

  // ---------- the listings of a body are the orders of its transactions ----------

  ghost predicate DigestsDiffer(sha: Sha, txs: seq<Transaction>) {
    forall i, j :: 0 <= i < j < |txs| ==> sha(txs[i].id) != sha(txs[j].id)
  }

  ghost function Digests(sha: Sha, txs: seq<Transaction>): (ds: seq<seq<byte>>)
    ensures |ds| == |txs| && forall i :: 0 <= i < |txs| ==> ds[i] == sha(txs[i].id)
  {
    seq(|txs|, i requires 0 <= i < |txs| => sha(txs[i].id))
  }

  ghost function BodyOf(sha: Sha, txs: seq<Transaction>): Content { Inserted(sha, map[], txs) }

  lemma {:induction false} FiledUnderOwn(sha: Sha, txs: seq<Transaction>, i: nat)
    requires DigestsDiffer(sha, txs) && i < |txs|
    ensures sha(txs[i].id) in BodyOf(sha, txs) && BodyOf(sha, txs)[sha(txs[i].id)] == txs[i]
  {
    LastInsertionWins(sha, map[], txs, i);
  }

  /** The transactions in the order of insertion are one listing. */
  lemma {:induction false} OwnListing(sha: Sha, txs: seq<Transaction>)
    requires DigestsDiffer(sha, txs)
    ensures Lists(BodyOf(sha, txs), Digests(sha, txs), txs)
  {
    var ds := Digests(sha, txs);
    forall d ensures d in BodyOf(sha, txs) <==> d in ds {
      InsertedKeys(sha, txs, d);
      if d in ds { var i :| 0 <= i < |ds| && ds[i] == d; assert sha(txs[i].id) == d; }
      if Mentions(sha, txs, d) { var i :| 0 <= i < |txs| && sha(txs[i].id) == d; assert ds[i] == d; }
    }
    forall i | 0 <= i < |ds| ensures ds[i] in BodyOf(sha, txs) && BodyOf(sha, txs)[ds[i]] == txs[i] {
      FiledUnderOwn(sha, txs, i);
    }
  }

  lemma {:induction false} ReorderingKeepsDigests(sha: Sha, ps: seq<Transaction>, txs: seq<Transaction>)
    requires DigestsDiffer(sha, txs) && Reordering(ps, txs)
    ensures DigestsDiffer(sha, ps)
  {
    assert DistinctIds(txs);
    ReorderingKeepsDistinctIds(ps, txs);
    forall i, j | 0 <= i < j < |ps| ensures sha(ps[i].id) != sha(ps[j].id) {
      var a := ReorderedMember(ps, txs, i);
      var b := ReorderedMember(ps, txs, j);
      assert a != b;
    }
  }

  lemma {:induction false} SameBody(sha: Sha, ps: seq<Transaction>, txs: seq<Transaction>)
    requires DigestsDiffer(sha, txs) && Reordering(ps, txs)
    ensures BodyOf(sha, ps) == BodyOf(sha, txs)
  {
    ReorderingKeepsDigests(sha, ps, txs);
    OwnListing(sha, ps);
    OwnListing(sha, txs);
    var a, b := BodyOf(sha, ps), BodyOf(sha, txs);
    forall d | d in a ensures d in b && b[d] == a[d] {
      var i :| 0 <= i < |ps| && Digests(sha, ps)[i] == d;
      var j := ReorderedMember(ps, txs, i);
      FiledUnderOwn(sha, txs, j);
    }
    forall d | d in b ensures d in a {
      var i :| 0 <= i < |txs| && Digests(sha, txs)[i] == d;
      var j := ReorderedMember(txs, ps, i);
      FiledUnderOwn(sha, ps, j);
    }
  }

  lemma {:induction false} WithoutOne<T>(s: seq<T>, j: nat)
    requires j < |s|
    ensures multiset(s) == multiset(s[..j] + s[j + 1..]) + multiset{s[j]}
  {
    assert s == s[..j] + [s[j]] + s[j + 1..];
  }

  function Skip(i: nat, j: nat): nat { if i < j then i else i + 1 }

  lemma {:induction false} SkippedAt<T>(s: seq<T>, j: nat, i: nat)
    requires j < |s| && i < |s| - 1
    ensures (s[..j] + s[j + 1..])[i] == s[Skip(i, j)]
  {
  }

  /** Leaving out one of a list without repetitions. */
  lemma {:induction false} SkippedMembers(ds: seq<seq<byte>>, j: nat, d: seq<byte>)
    requires j < |ds| && forall a, b :: 0 <= a < b < |ds| ==> ds[a] != ds[b]
    ensures d in ds[..j] + ds[j + 1..] <==> d in ds && d != ds[j]
  {
    var rest := ds[..j] + ds[j + 1..];
    if d in rest {
      var i :| 0 <= i < |rest| && rest[i] == d;
      SkippedAt(ds, j, i);
    }
    if d in ds && d != ds[j] {
      var i :| 0 <= i < |ds| && ds[i] == d;
      SkippedAt(ds, j, if i < j then i else i - 1);
    }
  }

  lemma {:induction false} ListingWithout(content: Content, ds: seq<seq<byte>>, txs: seq<Transaction>, j: nat)
    requires Lists(content, ds, txs) && j < |ds|
    ensures Lists(content - {ds[j]}, ds[..j] + ds[j + 1..], txs[..j] + txs[j + 1..])
  {
    var rest, left := ds[..j] + ds[j + 1..], txs[..j] + txs[j + 1..];
    forall d ensures d in content - {ds[j]} <==> d in rest { SkippedMembers(ds, j, d); }
    forall a, b | 0 <= a < b < |rest| ensures rest[a] != rest[b] {
      SkippedAt(ds, j, a);
      SkippedAt(ds, j, b);
    }
    forall i | 0 <= i < |rest| ensures rest[i] in content - {ds[j]} && (content - {ds[j]})[rest[i]] == left[i] {
      SkippedAt(ds, j, i);
      SkippedAt(txs, j, i);
      SkippedMembers(ds, j, rest[i]);
    }
  }

  /** Any two listings of the same content are reorderings of each other. */
  lemma {:induction false} ListingsPermute(
      content: Content, ds: seq<seq<byte>>, a: seq<Transaction>, es: seq<seq<byte>>, b: seq<Transaction>)
    requires Lists(content, ds, a) && Lists(content, es, b)
    ensures multiset(a) == multiset(b)
    decreases |a|
  {
    TrieSpec.ListingLength(content, ds, a);
    TrieSpec.ListingLength(content, es, b);
    if a != [] {
      var n := |a| - 1;
      assert ds[n] in es;
      var j :| 0 <= j < |es| && es[j] == ds[n];
      ListingWithout(content, ds, a, n);
      ListingWithout(content, es, b, j);
      ListingsPermute(content - {ds[n]}, ds[..n] + ds[n + 1..], a[..n] + a[n + 1..],
                      es[..j] + es[j + 1..], b[..j] + b[j + 1..]);
      WithoutOne(a, n);
      WithoutOne(b, j);
    }
  }

  /** The listings of a body are exactly the orders of the transactions put into it. */
  lemma {:induction false} ListingIffOrder(sha: Sha, txs: seq<Transaction>, listed: seq<Transaction>)
    requires DigestsDiffer(sha, txs)
    ensures (exists ds :: Lists(BodyOf(sha, txs), ds, listed)) <==> Reordering(listed, txs)
  {
    if ds :| Lists(BodyOf(sha, txs), ds, listed) {
      OwnListing(sha, txs);
      ListingsPermute(BodyOf(sha, txs), ds, listed, Digests(sha, txs), txs);
    }
    if Reordering(listed, txs) {
      ReorderingKeepsDigests(sha, listed, txs);
      SameBody(sha, listed, txs);
      OwnListing(sha, listed);
    }
  }

  // ---------- processing a listing ----------

  /** Every listing of the body leaves this pool with the live set that the order of building leaves. */
  ghost predicate EveryListingLeaves(sha: Sha, txs: seq<Transaction>, m: Pool, height: nat, live: Pool) {
    forall ds, listed :: Lists(BodyOf(sha, txs), ds, listed) ==> View(ApplyBlock(m, listed, height)) == live
  }

  lemma {:induction false} CreatorLastIsLive(
      m: Pool, txs: seq<Transaction>, height: nat, c: nat, s: nat, k: string)
    requires DistinctIds(txs) && c < |txs| && s < |txs| && c != s
    requires CreatesKey(txs[c], k) && SpendsKey(txs[s], k)
    ensures View(ApplyBlock(m, MovedLast(txs, c), height)) != View(ApplyBlock(m, MovedLast(txs, s), height))
  {
    CreatorLast(txs, height, c, k);
    SpenderLast(txs, height, c, s, k);
    ApplyBlockAt(m, MovedLast(txs, c), height, k);
    ApplyBlockAt(m, MovedLast(txs, s), height, k);
    assert k in View(ApplyBlock(m, MovedLast(txs, c), height));
    assert k !in View(ApplyBlock(m, MovedLast(txs, s), height));
  }

  /**
   For every pool: a node that processes the body in whatever order the trie lists it ends with the live set the
   builder announced, exactly when no transaction spends another's output.
   */
  lemma {:induction false} ListingsReachAnnouncedIff(sha: Sha, txs: seq<Transaction>, m: Pool, height: nat)
    requires DigestsDiffer(sha, txs)
    ensures EveryListingLeaves(sha, txs, m, height, UpdatedBy(View(m), txs)) <==> NoInternalSpend(txs)
  {
    var live := UpdatedBy(View(m), txs);
    assert DistinctIds(txs);
    ApplyBlockRefines(m, txs, height);
    if NoInternalSpend(txs) {
      forall ds, listed | Lists(BodyOf(sha, txs), ds, listed) ensures View(ApplyBlock(m, listed, height)) == live {
        ListingIffOrder(sha, txs, listed);
        EveryOrderAgrees(m, listed, txs, height);
      }
    }
    if EveryListingLeaves(sha, txs, m, height, live) {
      forall c, s, k | 0 <= c < |txs| && 0 <= s < |txs| && c != s && CreatesKey(txs[c], k)
        ensures !SpendsKey(txs[s], k)
      {
        if SpendsKey(txs[s], k) {
          MovedLastIsListed(sha, txs, m, height, live, c);
          MovedLastIsListed(sha, txs, m, height, live, s);
          CreatorLastIsLive(m, txs, height, c, s, k);
        }
      }
    }
  }

  lemma {:induction false} MovedLastIsListed(
      sha: Sha, txs: seq<Transaction>, m: Pool, height: nat, live: Pool, i: nat)
    requires DigestsDiffer(sha, txs) && i < |txs| && EveryListingLeaves(sha, txs, m, height, live)
    ensures View(ApplyBlock(m, MovedLast(txs, i), height)) == live
  {
    ListingIffOrder(sha, txs, MovedLast(txs, i));
  }

  lemma {:induction false} ChosenKeepsDigests(sha: Sha, rules: Rules, start: Pool, offered: seq<Transaction>)
    requires DigestsDiffer(sha, offered)
    ensures DigestsDiffer(sha, Chosen(rules, start, offered))
  {
    if offered != [] {
      var n := |offered| - 1;
      var init := offered[..n];
      assert forall i :: 0 <= i < n ==> init[i] == offered[i];
      ChosenKeepsDigests(sha, rules, start, init);
      var before := Chosen(rules, start, init);
      forall i | 0 <= i < |before| ensures sha(before[i].id) != sha(offered[n].id) {
        ChosenIsOffered(rules, start, init, before[i]);
      }
      DigestsOneMore(sha, before, offered[n]);
    }
  }

  lemma {:induction false} DigestsOneMore(sha: Sha, txs: seq<Transaction>, tx: Transaction)
    requires DigestsDiffer(sha, txs) && forall i :: 0 <= i < |txs| ==> sha(txs[i].id) != sha(tx.id)
    ensures DigestsDiffer(sha, txs + [tx])
  {
  }

  /** The state root a block announces for a live set. */
  ghost function AnnouncedRoot(h: Hasher, live: Pool): string {
    if live == map[] then ZERO_ROOT else "0x" + PoolRoot(h, live)
  }

  /**
   Building a block on the live set of a pool, listing its body and processing the listing: the announced state root
   is that of the live set the pool ends with, if no transaction of the block spends another's output.
   */
  method BuildAndProcess(
      pool: UtxoPool.UTXOPool, previous: Chain.Block, offered: seq<Transaction>, difficulty: uint32,
      rules: Rules, sha: Sha, sorted: bool, hash: string, now: int, stored: bool, saved: bool)
    returns (header: NewHeader, p: Packing)
    modifies pool
    ensures p.included == Chosen(rules, View(old(pool.utxos)), offered)
    ensures header.stateRoot ==
            AnnouncedRoot(pool.hasher, View(ApplyBlock(old(pool.utxos), p.included, header.number)))
    ensures DigestsDiffer(sha, offered) && NoInternalSpend(p.included) ==>
              && pool.utxos == ApplyBlock(old(pool.utxos), p.included, header.number)
              && header.stateRoot == AnnouncedRoot(pool.hasher, View(pool.utxos))
  {
    var body;
    header, body, p := NewBlock(previous, offered, View(pool.utxos), difficulty, rules, sha, sorted, pool.hasher);
    ApplyBlockRefines(pool.utxos, p.included, header.number);
    var listed, ds := body.GetAllTransactions();
    if DigestsDiffer(sha, offered) && NoInternalSpend(p.included) {
      ChosenKeepsDigests(sha, rules, View(pool.utxos), offered);
      ListedAgrees(sha, p.included, ds, listed, pool.utxos, header.number);
    }
    ProcessListed(pool, header.number, hash, listed, now, stored, saved);
  }

  lemma {:induction false} ListedAgrees(
      sha: Sha, txs: seq<Transaction>, ds: seq<seq<byte>>, listed: seq<Transaction>, m: Pool, height: nat)
    requires DigestsDiffer(sha, txs) && NoInternalSpend(txs) && Lists(BodyOf(sha, txs), ds, listed)
    ensures ApplyBlock(m, listed, height) == ApplyBlock(m, txs, height)
  {
    assert DistinctIds(txs);
    ListingIffOrder(sha, txs, listed);
    EveryOrderAgrees(m, listed, txs, height);
  }

  method ProcessListed(
      pool: UtxoPool.UTXOPool, number: nat, hash: string, listed: seq<Transaction>, now: int, stored: bool, saved: bool)
    modifies pool
    ensures pool.utxos == ApplyBlock(old(pool.utxos), listed, number)
  {
    var _ := pool.ProcessBlockTransactions(Some(UtxoPool.Block(number, hash, listed)), now, stored, saved);
  }
}
