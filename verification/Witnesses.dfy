/** Concrete inputs on which the laws that fail do fail, with hashes for which nothing collides. */
module Witnesses {
  import opened Types
  import opened Text
  import opened Ledger
  import opened Balances
  import opened Conservation
  import opened TrieSpec
  import BlockBuilder
  import Gas
  import Mempool
  import Merkle
  import StateRoot

  // ---------- a Merkle proof that leads elsewhere ----------

  lemma {:induction false} PairsOfThree<D>(pair: (D, D) -> D, a: D, b: D, c: D)
    ensures Merkle.TreePairs(pair, [a, b, c]) == {(a, b), (c, c), (pair(a, b), pair(c, c))}
    ensures Merkle.FoldPairs(pair, c, [c, pair(c, c)], 2) == {(c, c), (pair(c, c), pair(c, c))}
  {
    var hs, up, top := [a, b, c], [pair(a, b), pair(c, c)], [pair(pair(a, b), pair(c, c))];
    assert Merkle.NextLevel(pair, hs) == up && Merkle.NextLevel(pair, up) == top;
    LevelOfThree(a, b, c);
    LevelOfTwo(pair(a, b), pair(c, c));
    assert Merkle.TreePairs(pair, top) == {};
    var proof := [c, pair(c, c)];
    assert proof[1..] == [pair(c, c)] && proof[1..][1..] == [];
    assert Merkle.FoldPairs(pair, pair(c, c), proof[1..], 1) == {(pair(c, c), pair(c, c))} + {};
  }

  lemma {:induction false} LevelOfThree<D>(a: D, b: D, c: D)
    ensures Merkle.LevelPairs([a, b, c]) == {(a, b), (c, c)}
  {
    Merkle.PairOfLevel([a, b, c], 0);
    Merkle.PairOfLevel([a, b, c], 1);
  }

  lemma {:induction false} LevelOfTwo<D>(a: D, b: D)
    ensures Merkle.LevelPairs([a, b]) == {(a, b)}
  {
    Merkle.PairOfLevel([a, b], 0);
  }

  /** A combiner of the code's form, sha(a + b), on three leaves: nothing collides and the third proof fails. */
  lemma {:induction false} ThirdProofFails(amountText: real -> string)
    ensures var h := StateRoot.Hasher((text: string) => text, amountText);
      var hs := ["a", "b", "c"];
      var proof := Merkle.WrittenProof(h.Pair, hs, 2);
      && Merkle.NoCollision(h.Pair, Merkle.TreePairs(h.Pair, hs) + Merkle.FoldPairs(h.Pair, hs[2], proof, 2))
      && Merkle.Fold(h.Pair, hs[2], proof, 2) == "cccc" && Merkle.Root(h.Pair, hs) == "abcc"
  {
    var h := StateRoot.Hasher((text: string) => text, amountText);
    Merkle.ThirdOfThree(h.Pair, "a", "b", "c");
    PairsOfThree(h.Pair, "a", "b", "c");
    assert h.Pair("a", "b") == "ab" && h.Pair("c", "c") == "cc";
    assert h.Pair("ab", "cc") == "abcc" && h.Pair("cc", "cc") == "cccc";
    FourPairs(h.Pair, ("a", "b"), ("c", "c"), ("ab", "cc"), ("cc", "cc"));
  }

  lemma {:induction false} FourPairs<D>(pair: (D, D) -> D, p: (D, D), q: (D, D), r: (D, D), s: (D, D))
    requires Merkle.Distinct([pair(p.0, p.1), pair(q.0, q.1), pair(r.0, r.1), pair(s.0, s.1)])
    ensures Merkle.NoCollision(pair, {p, q, r} + {q, s})
  {
    var all := [pair(p.0, p.1), pair(q.0, q.1), pair(r.0, r.1), pair(s.0, s.1)];
    assert all[0] != all[1] && all[0] != all[2] && all[0] != all[3];
    assert all[1] != all[2] && all[1] != all[3] && all[2] != all[3];
  }

  // ---------- one trie, two roots ----------

  function Starting(b: byte): Digest { [b] + seq(31, _ => 0) }

  const ONE: Digest := Starting(1)
  const TWO: Digest := Starting(2)

  /** A hash that tells apart the four texts the trie over the two digests can produce. */
  function Toy(text: string): Digest {
    if text == Hex(ONE) then ONE else if text == Hex(TWO) then TWO
    else if text == Hex(ONE) + Hex(TWO) then Starting(3) else Starting(4)
  }

  const BOTH: set<seq<byte>> := {ONE, TWO}

  lemma {:induction false} StartsDiffer(a: byte, b: byte)
    requires a != b
    ensures Starting(a) != Starting(b) && Hex(Starting(a)) != Hex(Starting(b))
  {
    assert Starting(a)[0] == a && Starting(b)[0] == b;
    if Hex(Starting(a)) == Hex(Starting(b)) { HexIsInjective(Starting(a), Starting(b)); }
  }

  lemma {:induction false} SwappedTexts(t: string, u: string)
    requires |t| == |u| == 64 && t != u
    ensures t + u != u + t
  {
    assert (t + u)[..64] == t && (u + t)[..64] == u;
  }

  lemma {:induction false} TextsDiffer()
    ensures |Hex(ONE)| == |Hex(TWO)| == 64 && Hex(ONE) != Hex(TWO)
    ensures Hex(ONE) + Hex(TWO) != Hex(TWO) + Hex(ONE)
    ensures ONE != TWO && Starting(3) != Starting(4)
    ensures forall x :: x in BOTH ==> x != Starting(3) && x != Starting(4)
  {
    HexLength(ONE);
    HexLength(TWO);
    StartsDiffer(1, 2);
    StartsDiffer(1, 3);
    StartsDiffer(1, 4);
    StartsDiffer(2, 3);
    StartsDiffer(2, 4);
    StartsDiffer(3, 4);
    SwappedTexts(Hex(ONE), Hex(TWO));
  }

  lemma {:induction false} OnlyBelow(x: Digest, p: seq<byte>)
    requires x in BOTH && |p| > 0 && Below(p, x)
    ensures AtMostOne(BOTH, p)
  {
    forall d, e | d in BOTH && e in BOTH && Below(p, d) && Below(p, e) ensures d == e {
      assert d[0] == p[0] == e[0] && ONE[0] != TWO[0];
    }
  }

  /** Below the root every visit is to one child. */
  lemma {:induction false} LonelyVisit(x: Digest, p: seq<byte>, order: seq<byte>)
    requires x in BOTH && 0 < |p| < DIGEST_BYTES && Below(p, x)
    requires ListsChildren(BOTH, p, order) && Orderly(false, order)
    ensures order == [x[|p|]] && Below(p + [x[|p|]], x)
  {
    OnlyBelow(x, p);
    LonelyIsShort(BOTH, p, order);
    var i := ChildIndex(BOTH, p, x, order);
  }

  lemma {:induction false} ConcatOne(h: string)
    ensures Concat([h]) == h
  {
    assert [h][..0] == [];
  }

  /** Every node below the root hashes to its digest. */
  lemma {:induction false} ToyHash(x: Digest, p: seq<byte>, h: string)
    requires x in BOTH && |p| > 0 && Below(p, x) && CanHash(Toy, false, BOTH, p, h)
    ensures h == Hex(x)
    decreases DIGEST_BYTES - |p|
  {
    if |p| >= DIGEST_BYTES {
      assert p == x;
    } else {
      var order, hs :| Visits(Toy, false, BOTH, p, order, hs) && h == Hex(Toy(Concat(hs)));
      ToyText(x, p, order, hs);
    }
  }

  lemma {:induction false} ToyText(x: Digest, p: seq<byte>, order: seq<byte>, hs: seq<string>)
    requires x in BOTH && 0 < |p| < DIGEST_BYTES && Below(p, x) && Visits(Toy, false, BOTH, p, order, hs)
    ensures Concat(hs) == Hex(x) && Toy(Concat(hs)) == x
    decreases DIGEST_BYTES - |p|, 0
  {
    LonelyVisit(x, p, order);
    ToyHash(x, p + [x[|p|]], hs[0]);
    ConcatOne(hs[0]);
    assert hs == [hs[0]];
    TextsDiffer();
  }

  lemma {:induction false} ConcatTwo(a: string, b: string)
    ensures Concat([a, b]) == a + b
  {
    assert [a, b][..1] == [a];
    ConcatOne(a);
  }

  lemma {:induction false} RootHashes(order: seq<byte>, hs: seq<string>) returns (i: nat, j: nat)
    requires Visits(Toy, false, BOTH, [], order, hs)
    ensures |hs| == 2 && i < 2 && j < 2 && i != j && hs[i] == Hex(ONE) && hs[j] == Hex(TWO)
  {
    i := ChildIndex(BOTH, [], ONE, order);
    j := ChildIndex(BOTH, [], TWO, order);
    TwoLong(order, i, j);
    assert Below([] + [order[i]], ONE) && Below([] + [order[j]], TWO);
    ToyHash(ONE, [] + [order[i]], hs[i]);
    ToyHash(TWO, [] + [order[j]], hs[j]);
  }

  /** At the root the two digests come in either order. */
  lemma {:induction false} RootText(order: seq<byte>, hs: seq<string>)
    requires Visits(Toy, false, BOTH, [], order, hs)
    ensures Concat(hs) == Hex(ONE) + Hex(TWO) || Concat(hs) == Hex(TWO) + Hex(ONE)
  {
    var i, j := RootHashes(order, hs);
    assert hs == [hs[0], hs[1]];
    ConcatTwo(hs[0], hs[1]);
  }

  lemma {:induction false} TwoLong(order: seq<byte>, i: nat, j: nat)
    requires ListsChildren(BOTH, [], order) && Orderly(false, order)
    requires i < |order| && j < |order| && order[i] == 1 && order[j] == 2
    ensures |order| == 2
  {
    OneOrTwo(order, 0);
    OneOrTwo(order, 1);
    OneOrTwo(order, 2);
  }

  lemma {:induction false} OneOrTwo(order: seq<byte>, k: nat)
    requires ListsChildren(BOTH, [], order)
    ensures k < |order| ==> order[k] == 1 || order[k] == 2
  {
    if k < |order| {
      assert order[k] in order;
      var d := DigestBelow(BOTH, [], order[k]);
    }
  }

  ghost predicate KnownText(p: seq<byte>, text: string) {
    if p == [] then text == Hex(ONE) + Hex(TWO) || text == Hex(TWO) + Hex(ONE)
    else exists x: Digest :: x in BOTH && text == Hex(x) && Toy(text) == x
  }

  lemma {:induction false} TextIsKnown(p: seq<byte>, text: string)
    requires CanText(Toy, BOTH, p, text)
    ensures KnownText(p, text)
  {
    var order, hs :| Visits(Toy, false, BOTH, p, order, hs) && text == Concat(hs);
    if p == [] {
      RootText(order, hs);
    } else {
      var x :| x in BOTH && Below(p, x);
      ToyText(x, p, order, hs);
    }
  }

  lemma {:induction false} ToyHasNoCollision()
    ensures NoCollision(Toy, BOTH)
  {
    TextsDiffer();
    forall p, q, t, u | CanText(Toy, BOTH, p, t) && CanText(Toy, BOTH, q, u) && Toy(t) == Toy(u) ensures t == u {
      TextIsKnown(p, t);
      TextIsKnown(q, u);
      KnownTextsDiffer(p, t, q, u);
    }
  }

  lemma {:induction false} KnownTextsDiffer(p: seq<byte>, t: string, q: seq<byte>, u: string)
    requires KnownText(p, t) && KnownText(q, u) && Toy(t) == Toy(u)
    ensures t == u
  {
    TextsDiffer();
  }

  lemma {:induction false} ToyValues()
    ensures Toy(Hex(ONE) + Hex(TWO)) == Starting(3) && Toy(Hex(TWO) + Hex(ONE)) == Starting(4)
    ensures Hex(Starting(3)) != Hex(Starting(4))
  {
    TextsDiffer();
    StartsDiffer(3, 4);
  }

  lemma {:induction false} ToyRoots()
    ensures CanRoot(Toy, false, BOTH, Hex(Toy(Hex(ONE) + Hex(TWO))))
    ensures CanRoot(Toy, false, BOTH, Hex(Toy(Hex(TWO) + Hex(ONE))))
  {
    var u := SomeHash(Toy, false, BOTH, [ONE[0]]);
    var v := SomeHash(Toy, false, BOTH, [TWO[0]]);
    assert Below([ONE[0]], ONE) && Below([TWO[0]], TWO);
    ToyHash(ONE, [ONE[0]], u);
    ToyHash(TWO, [TWO[0]], v);
    TwoDigestsTwoRoots(Toy, ONE, TWO, u, v);
  }

  /** Two digests and a hash without collisions among the texts that come up: the same trie has two roots. */
  lemma {:induction false} OneTrieTwoRoots()
    ensures FullLength(BOTH) && NoCollision(Toy, BOTH)
    ensures CanRoot(Toy, false, BOTH, Hex(Starting(3))) && CanRoot(Toy, false, BOTH, Hex(Starting(4)))
    ensures Hex(Starting(3)) != Hex(Starting(4))
  {
    ToyHasNoCollision();
    ToyValues();
    ToyRoots();
  }

  // ---------- two equal payments in one second ----------

  function Coin(id: string): UTXO { UTXO(id, 0, 10.0, "alice", false, 0, 0, "") }

  function Coins(): Pool { map[OutpointKey("x", 0) := Coin("x"), OutpointKey("y", 0) := Coin("y")] }

  /** Alice pays Bob 4 with a fee of 1, from a coin of 10; the id does not depend on the coin. */
  function PayBob(coin: string): Transaction {
    Transaction("p", "alice", "bob", 4.0, 0, 1.0, [TxInput(coin, 0, "")],
                [TxOutput("bob", 4.0, ""), TxOutput("alice", 5.0, "")], TX_REGULAR, 0, 0, 0)
  }

  lemma {:induction false} OtherId(id: string, i: nat, coin: string)
    requires id != coin
    ensures OutpointKey(id, i) != OutpointKey(coin, 0)
  {
    if OutpointKey(id, i) == OutpointKey(coin, 0) { OutpointKeyInjective(id, i, coin, 0); }
  }

  lemma {:induction false} PayIsFunded(m: Pool, coin: string)
    requires OutpointKey(coin, 0) in m && m[OutpointKey(coin, 0)] == Coin(coin)
    ensures Funded(m, PayBob(coin))
  {
    var tx := PayBob(coin);
    assert InputKey(tx.inputs[0]) == OutpointKey(coin, 0);
    assert tx.inputs[..0] == [];
    assert InputValue(m, tx.inputs) == InputValue(m, tx.inputs[..0]) + 10.0;
    assert Change("alice", 5.0) == [TxOutput("alice", 5.0, "")];
  }

  lemma {:induction false} SecondCoinUntouched(m: Pool, first: string, second: string)
    requires first != second && second != "p"
    ensures Lookup(ApplyTx(m, PayBob(first), 0), OutpointKey(second, 0)) == Lookup(m, OutpointKey(second, 0))
  {
    var tx, k := PayBob(first), OutpointKey(second, 0);
    ApplyTxAt(m, tx, 0, k);
    TxEffectCases(tx, 0, k);
    forall i: nat | i < |tx.outputs| ensures OutpointKey(tx.id, i) != k { OtherId(tx.id, i, second); }
    OtherId(first, 0, second);
    assert InputKey(tx.inputs[0]) == OutpointKey(first, 0);
  }

  /** Bob ends with 4, not 8: the second payment overwrites the first. */
  lemma {:induction false} BobIsPaidOnce()
    ensures var once := ApplyTx(Coins(), PayBob("x"), 0);
      && Funded(Coins(), PayBob("x")) && Funded(once, PayBob("y"))
      && Balance(ApplyTx(once, PayBob("y"), 0), "bob") == Balance(Coins(), "bob") + 4.0
  {
    var m := Coins();
    OtherId("y", 0, "x");
    PayIsFunded(m, "x");
    SecondCoinUntouched(m, "x", "y");
    var once := ApplyTx(m, PayBob("x"), 0);
    assert Lookup(once, OutpointKey("y", 0)) == Some(Coin("y"));
    PayIsFunded(once, "y");
    forall i: nat ensures OutpointKey("p", i) !in m {
      OtherId("p", i, "x");
      OtherId("p", i, "y");
    }
    SameIdPaysOnce(m, PayBob("x"), PayBob("y"), 0);
  }

  // ---------- one output named twice ----------

  function OneCoin(): Pool { map[OutpointKey("x", 0) := Coin("x")] }

  /** Alice pays Bob 15 out of one coin of 10, named twice. */
  function Twice(): Transaction {
    Transaction("t", "alice", "bob", 15.0, 0, 0.0, [TxInput("x", 0, ""), TxInput("x", 0, "")],
                [TxOutput("bob", 15.0, "")], TX_REGULAR, 21000, 10, 20)
  }

  lemma {:induction false} TwiceIsCounted()
    ensures Mempool.InputSum(OneCoin(), "alice", Twice().inputs) == Some(20.0)
    ensures SpentWorth(OneCoin(), Twice().inputs, None) == 10.0
  {
    var m, ins, k := OneCoin(), Twice().inputs, OutpointKey("x", 0);
    assert InputKey(ins[0]) == k && InputKey(ins[1]) == k;
    assert ins[..1][..0] == [] && ins[..1][0] == ins[0];
    assert Mempool.InputSum(m, "alice", ins[..1][..0]) == Some(0.0);
    assert Mempool.InputSum(m, "alice", ins[..1]) == Some(10.0);
    assert MarkSpent(m, ins[..1][..0]) == m && SpentWorth(m, ins[..1][..0], None) == 0.0;
    assert SpentWorth(m, ins[..1], None) == 10.0;
    assert MarkSpent(m, ins[..1]) == m[k := m[k].(spent := true)];
  }

  lemma {:induction false} TwiceIsAccepted(signed: Transaction -> bool)
    requires signed(Twice())
    ensures Mempool.Acceptable(Twice(), OneCoin(), signed)
  {
    TwiceIsCounted();
    Gas.GasInRangeDoesNotWrap(21000, 10);
    Gas.GasInRangeDoesNotWrap(21000, 20);
  }

  /** It is admitted, packed into a block, and mints 5. */
  lemma {:induction false} TwiceIsPackedAndMints(rules: BlockBuilder.Rules, height: nat)
    requires rules.signed(Twice()) && rules.dataLength(Twice()) == 0
    ensures BlockBuilder.Chosen(rules, OneCoin(), [Twice()]) == [Twice()]
    ensures Supply(ApplyTx(OneCoin(), Twice(), height)) == Supply(OneCoin()) + 5.0
  {
    var m, tx := OneCoin(), Twice();
    TwiceIsAccepted(rules.signed);
    assert [tx][..0] == [];
    assert BlockBuilder.Chosen(rules, m, []) == [] && !BlockBuilder.Stopped(rules, m, []);
    assert BlockBuilder.Fits(rules, [], tx);
    TwiceIsCounted();
    TransactionAccounting(m, tx, height, None);
    assert OutputWorth(tx, 1, None) == OutputWorth(tx, 0, None) + Worth(OutputEntry(tx, 0, 0), None);
    TwiceOverwritesNothing();
  }

  lemma {:induction false} TwiceOverwritesNothing()
    ensures Overwritten(OneCoin(), Twice(), None) == 0.0
  {
    forall i: nat ensures OutpointKey("t", i) !in OneCoin() { OtherId("t", i, "x"); }
    FreshOverwritesNothing(OneCoin(), Twice(), None);
  }

  // ---------- outputs nobody looks at ----------

  /** Alice pays Bob 1 out of one coin of 10, and the output says 100. */
  function Generous(): Transaction {
    Transaction("g", "alice", "bob", 1.0, 0, 0.0, [TxInput("x", 0, "")],
                [TxOutput("bob", 100.0, "")], TX_REGULAR, 21000, 10, 20)
  }

  lemma {:induction false} GenerousIsCounted()
    ensures Mempool.InputSum(OneCoin(), "alice", Generous().inputs) == Some(10.0)
    ensures SpentWorth(OneCoin(), Generous().inputs, None) == 10.0
  {
    var m, ins, k := OneCoin(), Generous().inputs, OutpointKey("x", 0);
    assert InputKey(ins[0]) == k && ins[..0] == [];
    assert Mempool.InputSum(m, "alice", ins[..0]) == Some(0.0);
    assert MarkSpent(m, ins[..0]) == m && SpentWorth(m, ins[..0], None) == 0.0;
  }

  /** It is admitted, and mints 90. */
  lemma {:induction false} GenerousIsAcceptedAndMints(signed: Transaction -> bool, height: nat)
    requires signed(Generous())
    ensures Mempool.Acceptable(Generous(), OneCoin(), signed)
    ensures Supply(ApplyTx(OneCoin(), Generous(), height)) == Supply(OneCoin()) + 90.0
  {
    var m, tx := OneCoin(), Generous();
    GenerousIsCounted();
    Gas.GasInRangeDoesNotWrap(21000, 10);
    Gas.GasInRangeDoesNotWrap(21000, 20);
    TransactionAccounting(m, tx, height, None);
    assert OutputWorth(tx, 1, None) == OutputWorth(tx, 0, None) + Worth(OutputEntry(tx, 0, 0), None);
    forall i: nat ensures OutpointKey("g", i) !in m { OtherId("g", i, "x"); }
    FreshOverwritesNothing(m, tx, None);
  }
}
