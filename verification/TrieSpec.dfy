/** What the trie stands for: a finite map from digests to transactions, and its root hash. */
module TrieSpec {
  import opened Types

  type byte = n: nat | n < 256

  const DIGEST_BYTES := 32

  type Digest = d: seq<byte> | |d| == 32 witness seq(32, _ => 0)

  /** sha256 of a string: a parameter of the model. */
  type Sha = string -> Digest

  type Content = map<seq<byte>, Transaction>

  function HexDigit(n: nat): char
    requires n < 16
  {
    if n < 10 then '0' + n as char else 'a' + (n - 10) as char
  }

  function Hex(bytes: seq<byte>): string {
    if bytes == [] then "" else
      [HexDigit(bytes[0] / 16), HexDigit(bytes[0] % 16)] + Hex(bytes[1..])
  }

  predicate Below(path: seq<byte>, d: seq<byte>) { path <= d }

  /** Some digest lies below this path. */
  ghost predicate Has(keys: set<seq<byte>>, path: seq<byte>) {
    exists d :: d in keys && Below(path, d)
  }

  // ---------- the hashes a node can get ----------

  function Concat(hs: seq<string>): string {
    if hs == [] then "" else Concat(hs[..|hs| - 1]) + hs[|hs| - 1]
  }

  /** No byte twice; ascending if the loop sorts the children first. */
  ghost predicate Orderly(sorted: bool, order: seq<byte>) {
    forall i, j :: 0 <= i < j < |order| ==> order[i] != order[j] && (sorted ==> order[i] < order[j])
  }

  /** The order lists exactly the children of the path. */
  ghost predicate ListsChildren(keys: set<seq<byte>>, path: seq<byte>, order: seq<byte>) {
    forall b: byte :: b in order <==> Has(keys, path + [b])
  }

  /** A visit of the children of a path in some order, with a hash that each of them can get. */
  ghost predicate Visits(sha: Sha, sorted: bool, keys: set<seq<byte>>, path: seq<byte>,
                         order: seq<byte>, hs: seq<string>)
    requires |path| < DIGEST_BYTES
    decreases DIGEST_BYTES - |path|, 0
  {
    && ListsChildren(keys, path, order) && Orderly(sorted, order) && |hs| == |order|
    && forall i :: 0 <= i < |order| ==> CanHash(sha, sorted, keys, path + [order[i]], hs[i])
  }

  /**
   A hash that recomputing the subtree at a path can give: a leaf hashes to its digest in hex, an inner node
   to the hash of its children's hashes, visited in any order the loop allows, at every level.
   */
  ghost predicate CanHash(sha: Sha, sorted: bool, keys: set<seq<byte>>, path: seq<byte>, h: string)
    decreases DIGEST_BYTES - |path|, 1
  {
    if |path| >= DIGEST_BYTES then h == Hex(path)
    else exists order, hs :: Visits(sha, sorted, keys, path, order, hs) && h == Hex(sha(Concat(hs)))
  }

  /** Hashes that the listed children, perhaps not all there are, can get. */
  ghost predicate Yields(sha: Sha, sorted: bool, keys: set<seq<byte>>, path: seq<byte>,
                         order: seq<byte>, hs: seq<string>)
  {
    && Orderly(sorted, order) && |hs| == |order|
    && forall i :: 0 <= i < |order| ==> CanHash(sha, sorted, keys, path + [order[i]], hs[i])
  }

  lemma {:induction false} YieldsOneMore(sha: Sha, sorted: bool, keys: set<seq<byte>>, path: seq<byte>,
                                         order: seq<byte>, hs: seq<string>, b: byte, h: string)
    requires Yields(sha, sorted, keys, path, order, hs) && CanHash(sha, sorted, keys, path + [b], h)
    requires b !in order && (sorted ==> forall c :: c in order ==> c < b)
    ensures Yields(sha, sorted, keys, path, order + [b], hs + [h]) && Concat(hs + [h]) == Concat(hs) + h
  {
    assert (hs + [h])[..|hs|] == hs;
    forall i | 0 <= i < |order| ensures order[i] != b && (sorted ==> order[i] < b) { assert order[i] in order; }
  }

  /** The bytes of the children, split into those visited in this order and those still to come. */
  ghost predicate Visited(sorted: bool, all: set<byte>, order: seq<byte>, todo: set<byte>) {
    && (forall b :: b in all <==> b in order || b in todo)
    && (forall b :: b in order ==> b !in todo && (sorted ==> forall c :: c in todo ==> b < c))
  }

  lemma {:induction false} VisitedOneMore(sorted: bool, all: set<byte>, order: seq<byte>, todo: set<byte>, b: byte)
    requires Visited(sorted, all, order, todo) && b in todo && (sorted ==> forall c :: c in todo ==> b <= c)
    ensures Visited(sorted, all, order + [b], todo - {b})
    ensures b in all && b !in order && (sorted ==> forall c :: c in order ==> c < b)
  {
  }

  ghost predicate CanRoot(sha: Sha, sorted: bool, keys: set<seq<byte>>, h: string) {
    CanHash(sha, sorted, keys, [], h)
  }

  /** Only the digests below a path matter for its hash. */
  lemma {:induction false} HashDependsOnSubtree(
      sha: Sha, sorted: bool, a: set<seq<byte>>, b: set<seq<byte>>, path: seq<byte>, h: string)
    requires forall d :: Below(path, d) ==> (d in a <==> d in b)
    requires CanHash(sha, sorted, a, path, h)
    ensures CanHash(sha, sorted, b, path, h)
    decreases DIGEST_BYTES - |path|
  {
    if |path| < DIGEST_BYTES {
      var order, hs :| Visits(sha, sorted, a, path, order, hs) && h == Hex(sha(Concat(hs)));
      forall c: byte ensures Has(a, path + [c]) <==> Has(b, path + [c]) {
        assert forall d :: Below(path + [c], d) ==> Below(path, d);
      }
      forall i | 0 <= i < |order| ensures CanHash(sha, sorted, b, path + [order[i]], hs[i]) {
        assert forall d :: Below(path + [order[i]], d) ==> Below(path, d);
        HashDependsOnSubtree(sha, sorted, a, b, path + [order[i]], hs[i]);
      }
      assert Visits(sha, sorted, b, path, order, hs);
    }
  }

  // ---------- some hash always exists ----------

  /** The children with a byte below n, in ascending order. */
  ghost function Ascending(keys: set<seq<byte>>, path: seq<byte>, n: nat): seq<byte>
    requires n <= 256
  {
    if n == 0 then [] else
      Ascending(keys, path, n - 1) + if Has(keys, path + [n - 1]) then [n - 1] else []
  }

  lemma {:induction false} AscendingLists(keys: set<seq<byte>>, path: seq<byte>, n: nat)
    requires n <= 256
    ensures forall b: byte :: b in Ascending(keys, path, n) <==> b < n && Has(keys, path + [b])
    ensures Orderly(true, Ascending(keys, path, n))
  {
    if n > 0 {
      AscendingLists(keys, path, n - 1);
      var before := Ascending(keys, path, n - 1);
      forall i | 0 <= i < |before| ensures before[i] < n - 1 { assert before[i] in before; }
    }
  }

  lemma {:induction false} SomeHash(sha: Sha, sorted: bool, keys: set<seq<byte>>, path: seq<byte>)
    returns (h: string)
    ensures CanHash(sha, sorted, keys, path, h)
    decreases DIGEST_BYTES - |path|, 257
  {
    if |path| >= DIGEST_BYTES {
      h := Hex(path);
    } else {
      AscendingLists(keys, path, 256);
      var order := Ascending(keys, path, 256);
      var hs := SomeHashes(sha, sorted, keys, path, order);
      assert Visits(sha, sorted, keys, path, order, hs);
      h := Hex(sha(Concat(hs)));
    }
  }

  lemma {:induction false} SomeHashes(sha: Sha, sorted: bool, keys: set<seq<byte>>, path: seq<byte>, order: seq<byte>)
    returns (hs: seq<string>)
    requires |path| < DIGEST_BYTES
    ensures |hs| == |order|
    ensures forall i :: 0 <= i < |order| ==> CanHash(sha, sorted, keys, path + [order[i]], hs[i])
    decreases DIGEST_BYTES - |path|, 256
  {
    hs := [];
    for i := 0 to |order|
      invariant |hs| == i
      invariant forall j :: 0 <= j < i ==> CanHash(sha, sorted, keys, path + [order[j]], hs[j])
    {
      var h := SomeHash(sha, sorted, keys, path + [order[i]]);
      hs := hs + [h];
    }
  }

  // ---------- hashes are blocks of 64 characters ----------

  lemma {:induction false} HexLength(bytes: seq<byte>)
    ensures |Hex(bytes)| == 2 * |bytes|
  {
    if bytes != [] { HexLength(bytes[1..]); }
  }

  /** Byte i stands at 2i, its high half first, in lower case. */
  lemma {:induction false} HexAt(bytes: seq<byte>, i: nat)
    requires i < |bytes|
    ensures |Hex(bytes)| == 2 * |bytes|
    ensures Hex(bytes)[2 * i] == "0123456789abcdef"[bytes[i] / 16]
    ensures Hex(bytes)[2 * i + 1] == "0123456789abcdef"[bytes[i] % 16]
  {
    HexLength(bytes);
    HexDigits(bytes[i] / 16);
    HexDigits(bytes[i] % 16);
    if i > 0 {
      HexAt(bytes[1..], i - 1);
      assert Hex(bytes)[2..] == Hex(bytes[1..]);
      assert Hex(bytes)[2 * i] == Hex(bytes[1..])[2 * (i - 1)];
      assert Hex(bytes)[2 * i + 1] == Hex(bytes[1..])[2 * (i - 1) + 1];
    }
  }

  lemma {:induction false} HexDigits(n: nat)
    requires n < 16
    ensures HexDigit(n) == "0123456789abcdef"[n]
  {
  }

  lemma {:induction false} HexIsInjective(a: seq<byte>, b: seq<byte>)
    requires Hex(a) == Hex(b)
    ensures a == b
  {
    HexLength(a);
    HexLength(b);
    if a != [] {
      assert Hex(a)[0] == HexDigit(a[0] / 16) && Hex(b)[0] == HexDigit(b[0] / 16);
      assert Hex(a)[1] == HexDigit(a[0] % 16) && Hex(b)[1] == HexDigit(b[0] % 16);
      HexDigitIsInjective(a[0] / 16, b[0] / 16);
      HexDigitIsInjective(a[0] % 16, b[0] % 16);
      assert Hex(a)[2..] == Hex(a[1..]) && Hex(b)[2..] == Hex(b[1..]);
      HexIsInjective(a[1..], b[1..]);
      assert a == [a[0]] + a[1..] && b == [b[0]] + b[1..];
    }
  }

  lemma {:induction false} HexDigitIsInjective(a: nat, b: nat)
    requires a < 16 && b < 16 && HexDigit(a) == HexDigit(b)
    ensures a == b
  {
  }

  lemma {:induction false} HashLength(sha: Sha, sorted: bool, keys: set<seq<byte>>, path: seq<byte>, h: string)
    requires |path| <= DIGEST_BYTES && CanHash(sha, sorted, keys, path, h)
    ensures |h| == 64
  {
    if |path| == DIGEST_BYTES {
      HexLength(path);
    } else {
      var order, hs :| Visits(sha, sorted, keys, path, order, hs) && h == Hex(sha(Concat(hs)));
      HexLength(sha(Concat(hs)));
    }
  }

  /** Every entry is as long as a digest in hex. */
  ghost predicate Blocks(hs: seq<string>) { forall i :: 0 <= i < |hs| ==> |hs[i]| == 64 }

  lemma {:induction false} YieldsBlocks(sha: Sha, sorted: bool, keys: set<seq<byte>>, path: seq<byte>,
                                        order: seq<byte>, hs: seq<string>)
    requires |path| < DIGEST_BYTES && Yields(sha, sorted, keys, path, order, hs)
    ensures Blocks(hs)
  {
    forall i | 0 <= i < |hs| ensures |hs[i]| == 64 { HashLength(sha, sorted, keys, path + [order[i]], hs[i]); }
  }

  lemma {:induction false} ConcatLength(hs: seq<string>)
    requires Blocks(hs)
    ensures |Concat(hs)| == 64 * |hs|
  {
    if hs != [] { ConcatLength(hs[..|hs| - 1]); }
  }

  lemma {:induction false} ConcatIsInjective(hs: seq<string>, ks: seq<string>)
    requires Blocks(hs) && Blocks(ks) && Concat(hs) == Concat(ks)
    ensures hs == ks
  {
    ConcatLength(hs);
    ConcatLength(ks);
    if hs != [] {
      var n := |hs| - 1;
      var text := Concat(hs);
      var cut := |text| - 64;
      assert text[..cut] == Concat(hs[..n]) == Concat(ks[..n]);
      assert text[cut..] == hs[n] == ks[n];
      ConcatIsInjective(hs[..n], ks[..n]);
      assert hs == hs[..n] + [hs[n]] && ks == ks[..n] + [ks[n]];
    }
  }

  // ---------- sorted children: one root ----------

  lemma {:induction false} EmptyTogether(a: seq<byte>, b: seq<byte>)
    requires forall c: byte :: c in a <==> c in b
    ensures a == [] <==> b == []
  {
    if a != [] { assert a[0] in b; }
    if b != [] { assert b[0] in a; }
  }

  lemma {:induction false} OrderIsUnique(a: seq<byte>, b: seq<byte>)
    requires Orderly(true, a) && Orderly(true, b) && forall c: byte :: c in a <==> c in b
    ensures a == b
  {
    EmptyTogether(a, b);
    if a != [] {
      var n, m := |a| - 1, |b| - 1;
      assert a[n] in b && b[m] in a;
      assert a[n] == b[m];
      forall c: byte ensures c in a[..n] <==> c in b[..m] {
        assert c in a <==> c in a[..n] || c == a[n] by { assert a == a[..n] + [a[n]]; }
        assert c in b <==> c in b[..m] || c == b[m] by { assert b == b[..m] + [b[m]]; }
      }
      OrderIsUnique(a[..n], b[..m]);
      assert a == a[..n] + [a[n]] && b == b[..m] + [b[m]];
    }
  }

  /** With the children sorted, the hash is a function of the digests, whatever they are. */
  lemma {:induction false} SortedHashIsUnique(
      sha: Sha, keys: set<seq<byte>>, path: seq<byte>, g: string, h: string)
    requires CanHash(sha, true, keys, path, g) && CanHash(sha, true, keys, path, h)
    ensures g == h
    decreases DIGEST_BYTES - |path|
  {
    if |path| < DIGEST_BYTES {
      var a, gs :| Visits(sha, true, keys, path, a, gs) && g == Hex(sha(Concat(gs)));
      var b, hs :| Visits(sha, true, keys, path, b, hs) && h == Hex(sha(Concat(hs)));
      OrderIsUnique(a, b);
      forall i | 0 <= i < |a| ensures gs[i] == hs[i] {
        SortedHashIsUnique(sha, keys, path + [a[i]], gs[i], hs[i]);
      }
      assert gs == hs;
    }
  }

  // ---------- any order: one root exactly with at most one digest ----------

  ghost predicate FullLength(keys: set<seq<byte>>) { forall d :: d in keys ==> |d| == DIGEST_BYTES }

  /** A text that hashing the node at a path can feed to sha256. */
  ghost predicate CanText(sha: Sha, keys: set<seq<byte>>, path: seq<byte>, text: string) {
    && |path| < DIGEST_BYTES && Has(keys, path)
    && exists order, hs :: Visits(sha, false, keys, path, order, hs) && text == Concat(hs)
  }

  /** sha256 tells apart the texts that can come up in this trie. They are finitely many. */
  ghost predicate NoCollision(sha: Sha, keys: set<seq<byte>>) {
    forall p, q, t, u :: CanText(sha, keys, p, t) && CanText(sha, keys, q, u) && sha(t) == sha(u) ==> t == u
  }

  lemma {:induction false} SameHashSameTexts(
      sha: Sha, keys: set<seq<byte>>, p: seq<byte>, a: seq<byte>, gs: seq<string>,
      q: seq<byte>, b: seq<byte>, hs: seq<string>)
    requires NoCollision(sha, keys) && |p| < DIGEST_BYTES && |q| < DIGEST_BYTES && Has(keys, p) && Has(keys, q)
    requires Visits(sha, false, keys, p, a, gs) && Visits(sha, false, keys, q, b, hs)
    requires Hex(sha(Concat(gs))) == Hex(sha(Concat(hs)))
    ensures gs == hs
  {
    HexIsInjective(sha(Concat(gs)), sha(Concat(hs)));
    assert CanText(sha, keys, p, Concat(gs)) && CanText(sha, keys, q, Concat(hs));
    YieldsBlocks(sha, false, keys, p, a, gs);
    YieldsBlocks(sha, false, keys, q, b, hs);
    ConcatIsInjective(gs, hs);
  }

  lemma {:induction false} HasChild(keys: set<seq<byte>>, path: seq<byte>) returns (b: byte)
    requires FullLength(keys) && |path| < DIGEST_BYTES && Has(keys, path)
    ensures Has(keys, path + [b])
  {
    var d :| d in keys && Below(path, d);
    b := d[|path|];
    assert d[..|path| + 1] == path + [b];
    assert Below(path + [b], d);
  }

  /** Different subtrees of the same depth never share a hash. */
  lemma {:induction false} SubtreesDiffer(
      sha: Sha, keys: set<seq<byte>>, p: seq<byte>, q: seq<byte>, g: string, h: string)
    requires FullLength(keys) && NoCollision(sha, keys)
    requires p != q && |p| == |q| <= DIGEST_BYTES && Has(keys, p) && Has(keys, q)
    requires CanHash(sha, false, keys, p, g) && CanHash(sha, false, keys, q, h)
    ensures g != h
    decreases DIGEST_BYTES - |p|
  {
    if g == h {
      if |p| == DIGEST_BYTES {
        HexIsInjective(p, q);
      } else {
        var a, gs :| Visits(sha, false, keys, p, a, gs) && g == Hex(sha(Concat(gs)));
        var b, hs :| Visits(sha, false, keys, q, b, hs) && h == Hex(sha(Concat(hs)));
        SameHashSameTexts(sha, keys, p, a, gs, q, b, hs);
        var c := HasChild(keys, p);
        assert c in a;
        ExtendedDiffer(p, q, a[0], b[0]);
        SubtreesDiffer(sha, keys, p + [a[0]], q + [b[0]], gs[0], hs[0]);
      }
    }
  }

  lemma {:induction false} ExtendedDiffer(p: seq<byte>, q: seq<byte>, b: byte, c: byte)
    requires p != q && |p| == |q|
    ensures p + [b] != q + [c]
  {
    assert (p + [b])[..|p|] == p && (q + [c])[..|q|] == q;
  }

  /** A subtree with two digests can get two hashes. */
  lemma {:induction false} TwoHashes(sha: Sha, keys: set<seq<byte>>, path: seq<byte>, d: seq<byte>, e: seq<byte>)
    returns (g: string, h: string)
    requires FullLength(keys) && NoCollision(sha, keys) && |path| <= DIGEST_BYTES
    requires d in keys && e in keys && d != e && Below(path, d) && Below(path, e)
    ensures CanHash(sha, false, keys, path, g) && CanHash(sha, false, keys, path, h) && g != h
    decreases DIGEST_BYTES - |path|
  {
    var n := |path|;
    assert d == path + d[n..] && e == path + e[n..];
    AscendingLists(keys, path, 256);
    var order := Ascending(keys, path, 256);
    var hs := SomeHashes(sha, false, keys, path, order);
    assert Visits(sha, false, keys, path, order, hs);
    var i := ChildIndex(keys, path, d, order);
    var j := ChildIndex(keys, path, e, order);
    if i == j {
      assert Below(path + [order[i]], d) && Below(path + [order[i]], e);
      var g', h' := TwoHashes(sha, keys, path + [order[i]], d, e);
      OtherHashVisits(sha, keys, path, order, hs, i, g');
      OtherHashVisits(sha, keys, path, order, hs, i, h');
      assert hs[i := g'][i] != hs[i := h'][i];
      g, h := DifferentVisits(sha, keys, path, order, hs[i := g'], order, hs[i := h']);
    } else {
      ExtendedSame(path, order[i], order[j]);
      SubtreesDiffer(sha, keys, path + [order[i]], path + [order[j]], hs[i], hs[j]);
      SwapVisits(sha, keys, path, order, hs, i, j);
      assert hs[i := hs[j]][j := hs[i]][i] != hs[i];
      g, h := DifferentVisits(sha, keys, path, order, hs,
                              order[i := order[j]][j := order[i]], hs[i := hs[j]][j := hs[i]]);
    }
  }

  lemma {:induction false} ExtendedSame(p: seq<byte>, b: byte, c: byte)
    requires b != c
    ensures p + [b] != p + [c]
  {
    assert (p + [b])[|p|] == b && (p + [c])[|p|] == c;
  }

  /** Where the child towards a digest stands in the order. */
  lemma {:induction false} ChildIndex(keys: set<seq<byte>>, path: seq<byte>, d: seq<byte>, order: seq<byte>)
    returns (i: nat)
    requires d in keys && Below(path, d) && |path| < |d| && ListsChildren(keys, path, order)
    ensures i < |order| && order[i] == d[|path|] && Below(path + [order[i]], d) && Has(keys, path + [order[i]])
  {
    assert d[..|path| + 1] == path + [d[|path|]];
    assert Below(path + [d[|path|]], d);
    assert Has(keys, path + [d[|path|]]);
    i :| 0 <= i < |order| && order[i] == d[|path|];
  }

  lemma {:induction false} DifferentVisits(
      sha: Sha, keys: set<seq<byte>>, path: seq<byte>,
      a: seq<byte>, gs: seq<string>, b: seq<byte>, hs: seq<string>) returns (g: string, h: string)
    requires NoCollision(sha, keys) && |path| < DIGEST_BYTES && Has(keys, path) && gs != hs
    requires Visits(sha, false, keys, path, a, gs) && Visits(sha, false, keys, path, b, hs)
    ensures CanHash(sha, false, keys, path, g) && CanHash(sha, false, keys, path, h) && g != h
  {
    g, h := Hex(sha(Concat(gs))), Hex(sha(Concat(hs)));
    if g == h { SameHashSameTexts(sha, keys, path, a, gs, path, b, hs); }
  }

  lemma {:induction false} OtherHashVisits(
      sha: Sha, keys: set<seq<byte>>, path: seq<byte>, order: seq<byte>, hs: seq<string>, i: nat, h: string)
    requires |path| < DIGEST_BYTES && Visits(sha, false, keys, path, order, hs)
    requires i < |order| && CanHash(sha, false, keys, path + [order[i]], h)
    ensures |hs| == |order| && Visits(sha, false, keys, path, order, hs[i := h])
  {
  }

  lemma {:induction false} SwapVisits(
      sha: Sha, keys: set<seq<byte>>, path: seq<byte>, order: seq<byte>, hs: seq<string>, i: nat, j: nat)
    requires |path| < DIGEST_BYTES && Visits(sha, false, keys, path, order, hs)
    requires i < |order| && j < |order| && i != j
    ensures |hs| == |order|
    ensures Visits(sha, false, keys, path, order[i := order[j]][j := order[i]], hs[i := hs[j]][j := hs[i]])
  {
    var o := order[i := order[j]][j := order[i]];
    forall b: byte ensures b in o <==> b in order {
      if b in order {
        var k :| 0 <= k < |order| && order[k] == b;
        assert o[if k == i then j else if k == j then i else k] == b;
      }
    }
  }

  /** No two digests lie below the path. */
  ghost predicate AtMostOne(keys: set<seq<byte>>, path: seq<byte>) {
    forall d, e :: d in keys && e in keys && Below(path, d) && Below(path, e) ==> d == e
  }

  lemma {:induction false} LonelyHashIsUnique(
      sha: Sha, sorted: bool, keys: set<seq<byte>>, path: seq<byte>, g: string, h: string)
    requires AtMostOne(keys, path)
    requires CanHash(sha, sorted, keys, path, g) && CanHash(sha, sorted, keys, path, h)
    ensures g == h
    decreases DIGEST_BYTES - |path|
  {
    if |path| < DIGEST_BYTES {
      var a, gs :| Visits(sha, sorted, keys, path, a, gs) && g == Hex(sha(Concat(gs)));
      var b, hs :| Visits(sha, sorted, keys, path, b, hs) && h == Hex(sha(Concat(hs)));
      LonelyOrder(keys, path, a, b);
      forall i | 0 <= i < |a| ensures gs[i] == hs[i] {
        assert forall d :: Below(path + [a[i]], d) ==> Below(path, d);
        LonelyHashIsUnique(sha, sorted, keys, path + [a[i]], gs[i], hs[i]);
      }
      assert gs == hs;
    }
  }

  lemma {:induction false} LonelyOrder(keys: set<seq<byte>>, path: seq<byte>, a: seq<byte>, b: seq<byte>)
    requires AtMostOne(keys, path) && ListsChildren(keys, path, a) && ListsChildren(keys, path, b)
    requires Orderly(false, a) && Orderly(false, b)
    ensures a == b
  {
    LonelyIsShort(keys, path, a);
    LonelyIsShort(keys, path, b);
    assert |a| == 1 ==> a[0] in b;
    assert |b| == 1 ==> b[0] in a;
  }

  lemma {:induction false} LonelyIsShort(keys: set<seq<byte>>, path: seq<byte>, a: seq<byte>)
    requires AtMostOne(keys, path) && ListsChildren(keys, path, a) && Orderly(false, a)
    ensures |a| <= 1
  {
    if |a| > 1 {
      var d := DigestBelow(keys, path, a[0]);
      var e := DigestBelow(keys, path, a[1]);
    }
  }

  lemma {:induction false} DigestBelow(keys: set<seq<byte>>, path: seq<byte>, b: byte) returns (d: seq<byte>)
    requires Has(keys, path + [b])
    ensures d in keys && Below(path, d) && |path| < |d| && d[|path|] == b
  {
    d :| d in keys && Below(path + [b], d);
  }

  ghost predicate UniqueRoot(sha: Sha, sorted: bool, keys: set<seq<byte>>) {
    forall g, h :: CanRoot(sha, sorted, keys, g) && CanRoot(sha, sorted, keys, h) ==> g == h
  }

  /** Visited in any order, as the loop is written, a trie has one root exactly when it holds at most one digest. */
  lemma {:induction false} RootIsUniqueIff(sha: Sha, keys: set<seq<byte>>)
    requires FullLength(keys) && NoCollision(sha, keys)
    ensures UniqueRoot(sha, false, keys) <==> |keys| <= 1
  {
    if |keys| <= 1 {
      FewKeys(keys);
      forall g, h | CanRoot(sha, false, keys, g) && CanRoot(sha, false, keys, h) ensures g == h {
        LonelyHashIsUnique(sha, false, keys, [], g, h);
      }
    } else {
      var d :| d in keys;
      assert |keys - {d}| == |keys| - 1;
      var e :| e in keys - {d};
      var g, h := TwoHashes(sha, keys, [], d, e);
      assert CanRoot(sha, false, keys, g) && CanRoot(sha, false, keys, h);
    }
  }

  lemma {:induction false} FewKeys(keys: set<seq<byte>>)
    requires |keys| <= 1
    ensures AtMostOne(keys, [])
  {
    forall d, e | d in keys && e in keys ensures d == e {
      assert |keys - {d}| == |keys| - 1;
      assert e in keys - {d} || e == d;
    }
  }

  /** Sorting the children first would make the root a function of the digests. */
  lemma {:induction false} SortedRootIsUnique(sha: Sha, keys: set<seq<byte>>)
    ensures UniqueRoot(sha, true, keys)
  {
    forall g, h | CanRoot(sha, true, keys, g) && CanRoot(sha, true, keys, h) ensures g == h {
      SortedHashIsUnique(sha, keys, [], g, h);
    }
  }

  /** Two digests with different first bytes: the hashes of the two subtrees come in either order. */
  lemma {:induction false} TwoDigestsTwoRoots(sha: Sha, d: Digest, e: Digest, u: string, v: string)
    requires d[0] != e[0]
    requires CanHash(sha, false, {d, e}, [d[0]], u) && CanHash(sha, false, {d, e}, [e[0]], v)
    ensures CanRoot(sha, false, {d, e}, Hex(sha(u + v))) && CanRoot(sha, false, {d, e}, Hex(sha(v + u)))
    ensures Hex(sha(u + v)) == Hex(sha(v + u)) <==> sha(u + v) == sha(v + u)
  {
    EitherOrder(sha, d, e, u, v);
    assert {d, e} == {e, d};
    EitherOrder(sha, e, d, v, u);
    if Hex(sha(u + v)) == Hex(sha(v + u)) { HexIsInjective(sha(u + v), sha(v + u)); }
  }

  lemma {:induction false} FirstBytes(d: Digest, e: Digest)
    ensures ListsChildren({d, e}, [], [d[0], e[0]])
  {
    assert Below([d[0]], d) && Below([e[0]], e);
    forall b: byte ensures b in [d[0], e[0]] <==> Has({d, e}, [] + [b]) {
      assert [] + [b] == [b];
      if Has({d, e}, [b]) { var x :| x in {d, e} && Below([b], x); }
    }
  }

  lemma {:induction false} ConcatOfTwo(u: string, v: string)
    ensures Concat([u, v]) == u + v
  {
    assert [u, v][..1] == [u] && [u][..0] == [];
    assert Concat([u]) == u;
  }

  lemma {:induction false} EitherOrder(sha: Sha, d: Digest, e: Digest, u: string, v: string)
    requires d[0] != e[0]
    requires CanHash(sha, false, {d, e}, [d[0]], u) && CanHash(sha, false, {d, e}, [e[0]], v)
    ensures CanRoot(sha, false, {d, e}, Hex(sha(u + v)))
  {
    FirstBytes(d, e);
    assert [] + [d[0]] == [d[0]] && [] + [e[0]] == [e[0]];
    TwoVisits(sha, {d, e}, [], d[0], e[0], u, v);
    ConcatOfTwo(u, v);
  }

  lemma {:induction false} TwoVisits(
      sha: Sha, keys: set<seq<byte>>, path: seq<byte>, b: byte, c: byte, u: string, v: string)
    requires |path| < DIGEST_BYTES && b != c && ListsChildren(keys, path, [b, c])
    requires CanHash(sha, false, keys, path + [b], u) && CanHash(sha, false, keys, path + [c], v)
    ensures Visits(sha, false, keys, path, [b, c], [u, v])
  {
    var order: seq<byte>, hs := [b, c], [u, v];
    forall i | 0 <= i < 2 ensures CanHash(sha, false, keys, path + [order[i]], hs[i]) {
      assert i == 0 || i == 1;
    }
  }

  // ---------- histories of insertions ----------

  function Inserted(sha: Sha, content: Content, txs: seq<Transaction>): Content {
    if txs == [] then content else
      Inserted(sha, content, txs[..|txs| - 1])[sha(txs[|txs| - 1].id) := txs[|txs| - 1]]
  }

  /** A listing of the content in some order, each transaction once. */
  ghost predicate Lists(content: Content, ds: seq<seq<byte>>, txs: seq<Transaction>) {
    && |ds| == |txs|
    && (forall i, j :: 0 <= i < j < |ds| ==> ds[i] != ds[j])
    && (forall d :: d in content <==> d in ds)
    && (forall i :: 0 <= i < |ds| ==> ds[i] in content && content[ds[i]] == txs[i])
  }

  /** Every transaction is filed under the digest of its id. */
  ghost predicate FiledById(sha: Sha, content: Content) {
    forall d :: d in content ==> sha(content[d].id) == d
  }

  /** Searching after any insertions finds the last one inserted with that digest. */
  lemma {:induction false} LastInsertionWins(sha: Sha, content: Content, txs: seq<Transaction>, i: nat)
    requires i < |txs|
    requires forall j :: i < j < |txs| ==> sha(txs[j].id) != sha(txs[i].id)
    ensures var r := Inserted(sha, content, txs); sha(txs[i].id) in r && r[sha(txs[i].id)] == txs[i]
  {
    var n := |txs| - 1;
    if i < n {
      var init := txs[..n];
      assert forall j :: 0 <= j < n ==> init[j] == txs[j];
      LastInsertionWins(sha, content, init, i);
    }
  }

  lemma {:induction false} ListingWithoutLast(content: Content, ds: seq<seq<byte>>, txs: seq<Transaction>)
    requires Lists(content, ds, txs) && txs != []
    ensures Lists(content - {ds[|ds| - 1]}, ds[..|ds| - 1], txs[..|txs| - 1])
  {
    var n := |ds| - 1;
    assert ds == ds[..n] + [ds[n]];
  }

  lemma {:induction false} PutBack(content: Content, d: seq<byte>, tx: Transaction)
    requires d in content && content[d] == tx
    ensures (content - {d})[d := tx] == content
  {
  }

  /** Inserting a listing of the content, in any order, into an empty trie rebuilds it. */
  lemma {:induction false} ListingRebuilds(sha: Sha, content: Content, ds: seq<seq<byte>>, txs: seq<Transaction>)
    requires FiledById(sha, content) && Lists(content, ds, txs)
    ensures Inserted(sha, map[], txs) == content
  {
    if txs == [] {
      assert content == map[];
    } else {
      var n := |txs| - 1;
      var rest := content - {ds[n]};
      ListingWithoutLast(content, ds, txs);
      ListingRebuilds(sha, rest, ds[..n], txs[..n]);
      PutBack(content, ds[n], txs[n]);
    }
  }

  // ---------- listings, subtree by subtree ----------

  /** The content below a path. */
  ghost function Under(content: Content, p: seq<byte>): Content {
    map d | d in content && Below(p, d) :: content[d]
  }

  /** The content below a path that continues with one of the given bytes. */
  ghost function Through(content: Content, p: seq<byte>, bytes: set<byte>): Content {
    map d | d in content && Below(p, d) && |d| > |p| && d[|p|] in bytes :: content[d]
  }

  lemma {:induction false} ThroughOneMore(content: Content, p: seq<byte>, bytes: set<byte>, b: byte)
    requires b !in bytes
    ensures Through(content, p, bytes + {b}) == Through(content, p, bytes) + Under(content, p + [b])
    ensures Through(content, p, bytes).Keys !! Under(content, p + [b]).Keys
  {
    forall d | d in content ensures Below(p + [b], d) <==> Below(p, d) && |d| > |p| && d[|p|] == b {
      if Below(p, d) && |d| > |p| && d[|p|] == b { assert d[..|p| + 1] == p + [b]; }
    }
  }

  lemma {:induction false} DistinctTogether(m: Content, ds: seq<seq<byte>>, txs: seq<Transaction>,
                         n: Content, es: seq<seq<byte>>, us: seq<Transaction>)
    requires Lists(m, ds, txs) && Lists(n, es, us) && m.Keys !! n.Keys
    ensures var all := ds + es; forall i, j :: 0 <= i < j < |all| ==> all[i] != all[j]
  {
    var all := ds + es;
    forall i, j | 0 <= i < j < |all| ensures all[i] != all[j] {
      if i < |ds| <= j {
        assert all[i] == ds[i] && ds[i] in m.Keys;
        assert all[j] == es[j - |ds|] && es[j - |ds|] in n.Keys;
      }
    }
  }

  lemma {:induction false} ListsTogether(m: Content, ds: seq<seq<byte>>, txs: seq<Transaction>,
                      n: Content, es: seq<seq<byte>>, us: seq<Transaction>)
    requires Lists(m, ds, txs) && Lists(n, es, us) && m.Keys !! n.Keys
    ensures Lists(m + n, ds + es, txs + us)
  {
    DistinctTogether(m, ds, txs, n, es, us);
    var all, both := ds + es, txs + us;
    forall d ensures d in m + n <==> d in all {
      assert d in m <==> d in ds;
      assert d in n <==> d in es;
    }
    forall i | 0 <= i < |all| ensures all[i] in m + n && (m + n)[all[i]] == both[i] {
      if i < |ds| {
        assert ds[i] in m.Keys && ds[i] !in n.Keys;
      } else {
        assert es[i - |ds|] in n;
      }
    }
  }

  ghost predicate Partition(keys: set<byte>, done: set<byte>, todo: set<byte>) {
    keys == done + todo && done !! todo
  }

  lemma {:induction false} MoveOne(keys: set<byte>, done: set<byte>, todo: set<byte>, b: byte)
    requires Partition(keys, done, todo) && b in todo
    ensures Partition(keys, done + {b}, todo - {b}) && b in keys && b !in done
  {
  }

  /** A listing extended by the subtree of one more byte. */
  lemma {:induction false} ListsStep(content: Content, p: seq<byte>, done: set<byte>, b: byte,
                  ds: seq<seq<byte>>, txs: seq<Transaction>, es: seq<seq<byte>>, us: seq<Transaction>)
    requires b !in done
    requires Lists(Through(content, p, done), ds, txs) && Lists(Under(content, p + [b]), es, us)
    ensures Lists(Through(content, p, done + {b}), ds + es, txs + us)
  {
    ThroughOneMore(content, p, done, b);
    ListsTogether(Through(content, p, done), ds, txs, Under(content, p + [b]), es, us);
  }

  lemma {:induction false} ThroughNone(content: Content, p: seq<byte>)
    ensures Through(content, p, {}) == map[]
  {
  }

  lemma {:induction false} ListingLength(content: Content, ds: seq<seq<byte>>, txs: seq<Transaction>)
    requires Lists(content, ds, txs)
    ensures |txs| == |content|
  {
    if txs == [] {
      assert content == map[];
    } else {
      ListingWithoutLast(content, ds, txs);
      ListingLength(content - {ds[|ds| - 1]}, ds[..|ds| - 1], txs[..|txs| - 1]);
      assert (content - {ds[|ds| - 1]}).Keys == content.Keys - {ds[|ds| - 1]};
    }
  }
}
