/** The root hash of a map of outputs: entries in key order, one leaf each. */
module StateRoot {
  import opened Types
  import opened Text
  import opened Ledger
  import Merkle

  /** sha256 in hex, and the %.8f rendering of an amount: both are parameters of the model. */
  datatype Hasher = Hasher(sha: string -> string, amountText: real -> string)
  {
    function Leaf(u: UTXO): string {
      sha(u.txid + "-" + Decimal(u.index) + "-" + u.owner + "-" + amountText(u.amount))
    }

    function Pair(a: string, b: string): string { sha(a + b) }
  }

  const ZERO_ROOT: string := "0x0000000000000000000000000000000000000000000000000000000000000000"

  // ---------- keys in sorted order ----------

  ghost predicate Sorted(ks: seq<string>) {
    forall i, j :: 0 <= i < j < |ks| ==> Before(ks[i], ks[j])
  }

  function Elements(ks: seq<string>): set<string> { set k | k in ks }

  lemma {:induction false} EmptyListing(ks: seq<string>)
    ensures ks == [] <==> Elements(ks) == {}
  {
    if ks != [] { assert ks[0] in Elements(ks); }
  }

  /** Puts k in its place; equal strings do not occur among map keys. */
  function Insert(ks: seq<string>, k: string): seq<string> {
    if ks == [] || Before(k, ks[0]) then [k] + ks else [ks[0]] + Insert(ks[1..], k)
  }

  lemma {:induction false} InsertSorts(ks: seq<string>, k: string)
    requires Sorted(ks) && k !in ks
    ensures Sorted(Insert(ks, k))
    ensures Elements(Insert(ks, k)) == Elements(ks) + {k}
  {
    var r := Insert(ks, k);
    if ks == [] || Before(k, ks[0]) {
      forall j | 0 < j < |r| ensures Before(r[0], r[j]) {
        if j > 1 { BeforeTransitive(k, ks[0], ks[j - 1]); }
      }
    } else {
      var tail := ks[1..];
      assert Elements(ks) == {ks[0]} + Elements(tail);
      InsertSorts(tail, k);
      BeforeTotal(k, ks[0]);
      assert Before(ks[0], k);
      var rest := Insert(tail, k);
      assert Elements(r) == {ks[0]} + Elements(rest);
      forall j | 0 < j < |r| ensures Before(r[0], r[j]) {
        assert r[j] == rest[j - 1] && rest[j - 1] in Elements(rest);
      }
      assert forall i :: 0 < i < |r| ==> r[i] == rest[i - 1];
    }
  }

  /** A set of strings has one sorted listing. */
  lemma {:induction false} SortedListingIsUnique(a: seq<string>, b: seq<string>)
    requires Sorted(a) && Sorted(b) && Elements(a) == Elements(b)
    ensures a == b
  {
    if a == [] || b == [] {
      EmptyListing(a);
      EmptyListing(b);
    } else {
      HeadsAgree(a, b);
      TailElements(a);
      TailElements(b);
      SortedListingIsUnique(a[1..], b[1..]);
      assert a == [a[0]] + a[1..] && b == [b[0]] + b[1..];
    }
  }

  lemma {:induction false} HeadsAgree(a: seq<string>, b: seq<string>)
    requires Sorted(a) && Sorted(b) && Elements(a) == Elements(b) && a != [] && b != []
    ensures a[0] == b[0]
  {
    assert a[0] in Elements(b) && b[0] in Elements(a);
    var i :| 0 <= i < |b| && b[i] == a[0];
    var j :| 0 <= j < |a| && a[j] == b[0];
    if i > 0 && j > 0 {
      BeforeTransitive(a[0], b[0], a[0]);
      BeforeIrreflexive(a[0]);
    }
  }

  lemma {:induction false} TailElements(a: seq<string>)
    requires Sorted(a) && a != []
    ensures Elements(a[1..]) == Elements(a) - {a[0]}
  {
    forall k | k in a[1..] ensures k != a[0] {
      BeforeIrreflexive(a[0]);
    }
  }

  /** The keys in the order sort.Strings leaves them, however the map listed them. */
  ghost function SortedKeys(s: set<string>): (ks: seq<string>)
    ensures Sorted(ks) && Elements(ks) == s
  {
    if s == {} then [] else
      var k :| k in s;
      var rest := SortedKeys(s - {k});
      assert k !in rest by { assert k !in Elements(rest); }
      InsertSorts(rest, k);
      Insert(rest, k)
  }

  /** Collects the keys in the map's arbitrary order, keeping them sorted. */
  method CollectSortedKeys(m: Pool) returns (ks: seq<string>)
    ensures ks == SortedKeys(m.Keys)
    ensures |ks| == |m|
  {
    ks := [];
    var rest := m.Keys;
    while rest != {}
      invariant rest <= m.Keys
      invariant Sorted(ks) && Elements(ks) == m.Keys - rest
      invariant |ks| + |rest| == |m.Keys|
    {
      var k :| k in rest;
      assert k !in ks by { assert k !in Elements(ks); }
      InsertSorts(ks, k);
      InsertLength(ks, k);
      ks := Insert(ks, k);
      rest := rest - {k};
    }
    SortedListingIsUnique(ks, SortedKeys(m.Keys));
  }

  lemma {:induction false} InsertLength(ks: seq<string>, k: string)
    ensures |Insert(ks, k)| == |ks| + 1
  {
    if ks != [] && !Before(k, ks[0]) { InsertLength(ks[1..], k); }
  }

  // ---------- roots ----------

  ghost function Entries(m: Pool, ks: seq<string>): (us: seq<UTXO>)
    requires forall k :: k in ks ==> k in m
    ensures |us| == |ks|
    ensures forall i :: 0 <= i < |ks| ==> us[i] == m[ks[i]]
  {
    seq(|ks|, i requires 0 <= i < |ks| => m[ks[i]])
  }

  ghost function PoolLeaves(h: Hasher, m: Pool): (hs: seq<string>)
    ensures |hs| > 0 <==> m != map[]
  {
    var ks := SortedKeys(m.Keys);
    assert forall k :: k in ks ==> k in Elements(ks);
    EmptyListing(ks);
    assert m.Keys == {} <==> m == map[];
    Merkle.Hashed(h.Leaf, Entries(m, ks))
  }

  /** CalculateMerkleRoot of a pool holding m. */
  ghost function PoolRoot(h: Hasher, m: Pool): string {
    if m == map[] then "" else Merkle.Root(h.Pair, PoolLeaves(h, m))
  }

  method CollectEntries(m: Pool, keys: seq<string>) returns (entries: seq<UTXO>)
    requires forall k :: k in keys ==> k in m
    ensures entries == Entries(m, keys)
  {
    entries := [];
    for i := 0 to |keys|
      invariant entries == Entries(m, keys)[..i]
    {
      entries := entries + [m[keys[i]]];
    }
  }

  method HashLeaves(h: Hasher, m: Pool) returns (hashes: seq<string>)
    ensures hashes == PoolLeaves(h, m)
  {
    var keys := CollectSortedKeys(m);
    assert forall k :: k in keys ==> k in Elements(keys);
    var entries := CollectEntries(m, keys);
    hashes := Merkle.HashAll(h.Leaf, entries);
  }

  /** UTXOPool.CalculateMerkleRoot: it pairs an odd last hash with itself on the fly. */
  method CalculateMerkleRoot(h: Hasher, m: Pool) returns (root: string)
    ensures root == PoolRoot(h, m)
  {
    if m == map[] {
      return "";
    }
    var hashes := HashLeaves(h, m);
    ghost var leaves := hashes;
    while |hashes| > 1
      invariant |hashes| > 0 && Merkle.Root(h.Pair, hashes) == Merkle.Root(h.Pair, leaves)
    {
      hashes := CombineLevel(h, hashes);
    }
    root := hashes[0];
  }

  method CombineLevel(h: Hasher, hashes: seq<string>) returns (next: seq<string>)
    requires |hashes| > 1
    ensures next == Merkle.NextLevel(h.Pair, hashes)
  {
    next := [];
    var i := 0;
    while 2 * i < |hashes|
      invariant 0 <= 2 * i <= |hashes| + 1
      invariant next == Merkle.NextLevel(h.Pair, hashes)[..i]
    {
      var combined := if 2 * i + 1 < |hashes| then hashes[2 * i] + hashes[2 * i + 1]
                      else hashes[2 * i] + hashes[2 * i];
      assert h.sha(combined) == Merkle.Parent(h.Pair, hashes, i);
      next := next + [h.sha(combined)];
      i := i + 1;
    }
  }

  /** calculateMerkleRoot of a block: the root behind "0x", or the zero root of an empty list. */
  ghost function BlockRoot(h: Hasher, hashes: seq<string>): string {
    if hashes == [] then ZERO_ROOT else "0x" + Merkle.Root(h.Pair, hashes)
  }

  method CalculateBlockRoot(h: Hasher, hashes: seq<string>) returns (root: string)
    ensures root == BlockRoot(h, hashes)
    ensures hashes == [] ==> root == "0x0000000000000000000000000000000000000000000000000000000000000000"
  {
    if |hashes| == 0 {
      return ZERO_ROOT;
    }
    var top := Merkle.CalculateMerkleRoot(h.Pair, hashes);
    root := "0x" + top;
  }

  /** calculateStateRoot of a block: the pool's own root behind "0x". */
  method CalculateStateRoot(h: Hasher, utxoSet: Pool) returns (root: string)
    ensures root == if utxoSet == map[] then ZERO_ROOT else "0x" + PoolRoot(h, utxoSet)
  {
    if utxoSet == map[] {
      return ZERO_ROOT;
    }
    var hashes := HashLeaves(h, utxoSet);
    root := CalculateBlockRoot(h, hashes);
  }

  // ---------- what the root shows ----------

  /** Same keys, and under each key an entry that hashes to the same leaf. */
  ghost predicate ShowSame(h: Hasher, m: Pool, n: Pool) {
    m.Keys == n.Keys && forall k :: k in m ==> h.Leaf(m[k]) == h.Leaf(n[k])
  }

  lemma {:induction false} ListingLength(ks: seq<string>)
    requires Sorted(ks)
    ensures |Elements(ks)| == |ks|
  {
    if ks != [] {
      TailElements(ks);
      ListingLength(ks[1..]);
      assert ks[0] in Elements(ks);
    }
  }

  lemma {:induction false} LeavesLength(h: Hasher, m: Pool)
    ensures |PoolLeaves(h, m)| == |m|
  {
    ListingLength(SortedKeys(m.Keys));
    assert |m| == |m.Keys|;
  }

  /** The hashes are the leaves of the entries under these keys. */
  ghost predicate LeavesOf(h: Hasher, m: Pool, ks: seq<string>, hs: seq<string>) {
    |hs| == |ks| && forall i :: 0 <= i < |ks| ==> ks[i] in m && hs[i] == h.Leaf(m[ks[i]])
  }

  lemma {:induction false} PoolLeavesOf(h: Hasher, m: Pool)
    ensures LeavesOf(h, m, SortedKeys(m.Keys), PoolLeaves(h, m))
  {
    var ks := SortedKeys(m.Keys);
    assert forall k :: k in ks ==> k in Elements(ks);
  }

  lemma {:induction false} SameListedIff(h: Hasher, m: Pool, n: Pool, ks: seq<string>, hs: seq<string>, gs: seq<string>)
    requires Elements(ks) == m.Keys == n.Keys && LeavesOf(h, m, ks, hs) && LeavesOf(h, n, ks, gs)
    ensures hs == gs <==> ShowSame(h, m, n)
  {
    if hs == gs {
      forall k | k in m ensures h.Leaf(m[k]) == h.Leaf(n[k]) {
        assert k in Elements(ks);
        var i :| 0 <= i < |ks| && ks[i] == k;
        assert hs[i] == gs[i];
      }
    }
  }

  lemma {:induction false} SameLeavesIff(h: Hasher, m: Pool, n: Pool)
    requires m.Keys == n.Keys
    ensures PoolLeaves(h, m) == PoolLeaves(h, n) <==> ShowSame(h, m, n)
  {
    PoolLeavesOf(h, m);
    PoolLeavesOf(h, n);
    SameListedIff(h, m, n, SortedKeys(m.Keys), PoolLeaves(h, m), PoolLeaves(h, n));
  }

  /** No two pairs combined in the trees over the two lists collide. */
  ghost predicate PairsApart(h: Hasher, hs: seq<string>, gs: seq<string>) {
    Merkle.NoCollision(h.Pair, Merkle.TreePairs(h.Pair, hs) + Merkle.TreePairs(h.Pair, gs))
  }

  /** Over the same keys, roots agree exactly when the leaves do, unless two pairs in the trees collide. */
  lemma {:induction false} RootsAgreeIff(h: Hasher, m: Pool, n: Pool)
    requires m.Keys == n.Keys
    requires PairsApart(h, PoolLeaves(h, m), PoolLeaves(h, n))
    ensures PoolRoot(h, m) == PoolRoot(h, n) <==> ShowSame(h, m, n)
  {
    assert m == map[] <==> m.Keys == {};
    assert n == map[] <==> n.Keys == {};
    LeavesLength(h, m);
    LeavesLength(h, n);
    if m != map[] {
      assert |m| == |m.Keys| == |n.Keys| == |n|;
      Merkle.SameLengthRootIff(h.Pair, PoolLeaves(h, m), PoolLeaves(h, n));
      SameLeavesIff(h, m, n);
    }
  }

  /** No two entries of a pool look alike, nothing collides in the two trees, and no root is the empty pool's. */
  ghost predicate Clear(h: Hasher, m: Pool, n: Pool) {
    && Merkle.Clear(h.Pair, PoolLeaves(h, m), PoolLeaves(h, n))
    && (m != map[] ==> PoolRoot(h, m) != "") && (n != map[] ==> PoolRoot(h, n) != "")
  }

  /** A pool and a part of it have the same root exactly when nothing is missing and every leaf is the same. */
  lemma {:induction false} PartRootIff(h: Hasher, m: Pool, n: Pool)
    requires n.Keys <= m.Keys && Clear(h, m, n)
    ensures PoolRoot(h, m) == PoolRoot(h, n) <==> ShowSame(h, m, n)
  {
    ClearRootsIff(h, m, n);
    if n.Keys == m.Keys {
      SameLeavesIff(h, m, n);
    } else {
      ProperPartIsSmaller(n.Keys, m.Keys);
      LeavesLength(h, m);
      LeavesLength(h, n);
      assert |m| == |m.Keys| && |n| == |n.Keys|;
    }
  }

  lemma {:induction false} ClearRootsIff(h: Hasher, m: Pool, n: Pool)
    requires Clear(h, m, n)
    ensures PoolRoot(h, m) == PoolRoot(h, n) <==> PoolLeaves(h, m) == PoolLeaves(h, n)
  {
    if m != map[] && n != map[] { Merkle.SameRootIff(h.Pair, PoolLeaves(h, m), PoolLeaves(h, n)); }
  }

  lemma {:induction false} ProperPartIsSmaller(a: set<string>, b: set<string>)
    requires a < b
    ensures |a| < |b|
  {
    assert b == a + (b - a) && a !! (b - a);
    assert b - a != {};
  }

  /** The root covers id, index, owner and amount of each entry and nothing else: a spent flag does not show. */
  lemma {:induction false} RootIgnoresSpentFlags(h: Hasher, m: Pool, n: Pool)
    requires m.Keys == n.Keys
    requires forall k :: k in m ==>
      && m[k].txid == n[k].txid && m[k].index == n[k].index
      && m[k].owner == n[k].owner && m[k].amount == n[k].amount
    ensures PoolRoot(h, m) == PoolRoot(h, n)
  {
    assert m == map[] <==> m.Keys == {};
    assert n == map[] <==> n.Keys == {};
    SameLeavesIff(h, m, n);
  }

  // ---------- what a leaf covers ----------

  lemma {:induction false} OneKey(k: string)
    ensures SortedKeys({k}) == [k]
  {
    assert Elements([k]) == {k};
    SortedListingIsUnique(SortedKeys({k}), [k]);
  }

  /** The root of a single entry: the hash of id, index, owner and amount, joined by hyphens. */
  lemma {:induction false} OneEntryRoot(h: Hasher, k: string, u: UTXO)
    ensures PoolRoot(h, map[k := u]) ==
            h.sha(u.txid + "-" + Decimal(u.index) + "-" + u.owner + "-" + h.amountText(u.amount))
  {
    var m: Pool := map[k := u];
    assert m.Keys == {k};
    OneKey(k);
    PoolLeavesOf(h, m);
    assert PoolLeaves(h, m) == [h.Leaf(u)];
  }

  /** The root of two entries: the hash of the two hashes, the smaller key's first. */
  lemma {:induction false} TwoEntryRoot(h: Hasher, k: string, u: UTXO, l: string, v: UTXO)
    requires Before(k, l)
    ensures k != l
    ensures PoolRoot(h, map[k := u, l := v]) ==
            h.sha(h.sha(u.txid + "-" + Decimal(u.index) + "-" + u.owner + "-" + h.amountText(u.amount)) +
                  h.sha(v.txid + "-" + Decimal(v.index) + "-" + v.owner + "-" + h.amountText(v.amount)))
  {
    BeforeIrreflexive(k);
    var m: Pool := map[k := u, l := v];
    assert Elements([k, l]) == {k, l} == m.Keys;
    SortedListingIsUnique(SortedKeys(m.Keys), [k, l]);
    PoolLeavesOf(h, m);
    assert PoolLeaves(h, m) == [h.Leaf(u), h.Leaf(v)];
    TwoLeafRoot(h, h.Leaf(u), h.Leaf(v));
  }

  lemma {:induction false} TwoLeafRoot(h: Hasher, a: string, b: string)
    ensures Merkle.Root(h.Pair, [a, b]) == h.sha(a + b)
  {
    assert Merkle.NextLevel(h.Pair, [a, b]) == [h.sha(a + b)];
  }

  /** Under each key, the texts hashed do not collide, and amounts are told apart by what is printed of them. */
  ghost predicate TextsTold(h: Hasher, m: Pool, n: Pool) {
    forall k :: k in m && k in n ==> EntryTold(h, m[k], n[k])
  }

  ghost predicate EntryTold(h: Hasher, u: UTXO, v: UTXO) {
    var s := u.txid + "-" + Decimal(u.index) + "-" + u.owner + "-" + h.amountText(u.amount);
    var t := v.txid + "-" + Decimal(v.index) + "-" + v.owner + "-" + h.amountText(v.amount);
    && (h.sha(s) == h.sha(t) ==> s == t)
    && '-' !in h.amountText(u.amount) && '-' !in h.amountText(v.amount)
    && (h.amountText(u.amount) == h.amountText(v.amount) ==> u.amount == v.amount)
  }

  /** A text without hyphens behind the last hyphen is determined by the whole. */
  lemma {:induction false} LastPart(a: string, b: string, c: string, d: string)
    requires '-' !in b && '-' !in d && a + "-" + b == c + "-" + d
    ensures a == c && b == d
  {
    var s, t := a + "-" + b, c + "-" + d;
    assert s[|a|] == '-' && t[|c|] == '-';
    assert |a| == |c|;
    assert a == s[..|a|] && c == t[..|a|];
    assert b == s[|a| + 1..] && d == t[|a| + 1..];
  }

  lemma {:induction false} EntryLeafIff(h: Hasher, u: UTXO, v: UTXO)
    requires u.txid == v.txid && u.index == v.index && EntryTold(h, u, v)
    ensures h.Leaf(u) == h.Leaf(v) <==> u.owner == v.owner && u.amount == v.amount
  {
    var front := u.txid + "-" + Decimal(u.index) + "-";
    if h.Leaf(u) == h.Leaf(v) {
      var a, b := front + u.owner, front + v.owner;
      assert a + "-" + h.amountText(u.amount) == b + "-" + h.amountText(v.amount);
      LastPart(a, h.amountText(u.amount), b, h.amountText(v.amount));
      assert u.owner == a[|front|..] && v.owner == b[|front|..];
    }
  }

  /**
   Over well-keyed pools with the same keys, roots are equal exactly when owner and amount agree under every key,
   unless something collides or two amounts print alike.
   */
  lemma {:induction false} RootsCoverIff(h: Hasher, m: Pool, n: Pool)
    requires m.Keys == n.Keys && WellKeyed(m) && WellKeyed(n)
    requires PairsApart(h, PoolLeaves(h, m), PoolLeaves(h, n)) && TextsTold(h, m, n)
    ensures PoolRoot(h, m) == PoolRoot(h, n) <==>
            forall k :: k in m ==> m[k].owner == n[k].owner && m[k].amount == n[k].amount
  {
    RootsAgreeIff(h, m, n);
    forall k | k in m
      ensures h.Leaf(m[k]) == h.Leaf(n[k]) <==> m[k].owner == n[k].owner && m[k].amount == n[k].amount
    {
      assert k in n.Keys;
      SameOutput(m, n, k);
      assert EntryTold(h, m[k], n[k]);
      EntryLeafIff(h, m[k], n[k]);
    }
  }

  lemma {:induction false} SameOutput(m: Pool, n: Pool, k: string)
    requires WellKeyed(m) && WellKeyed(n) && k in m && k in n
    ensures m[k].txid == n[k].txid && m[k].index == n[k].index
  {
    OutpointKeyInjective(m[k].txid, m[k].index, n[k].txid, n[k].index);
  }
}
