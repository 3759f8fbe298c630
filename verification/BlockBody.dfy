/** Runs of trie operations, and the trip of a block's transactions through its JSON form. */
module BlockBody {
  import opened Types
  import opened TrieSpec
  import opened Trie

  datatype TrieOp = Insert(tx: Transaction) | AskRoot

  /** The content after a history of operations on a new trie. */
  ghost function ContentAfter(sha: Sha, ops: seq<TrieOp>): Content {
    if ops == [] then map[] else
      var before := ContentAfter(sha, ops[..|ops| - 1]);
      match ops[|ops| - 1]
      case Insert(tx) => before[sha(tx.id) := tx]
      case AskRoot => before
  }

  /**
   An answer a trie without caches could give: nothing for an insertion; for a request a root of the content at the
   time, the one given just before if there was no insertion in between.
   */
  ghost predicate Fits(sha: Sha, sorted: bool, content: Content, op: TrieOp,
                       before: Option<string>, answer: Option<string>)
  {
    if op.Insert? then answer == None else
      && answer.Some? && CanRoot(sha, sorted, content.Keys, answer.value)
      && (before.Some? ==> answer == before)
  }

  ghost predicate FitsAt(sha: Sha, sorted: bool, ops: seq<TrieOp>, answers: seq<Option<string>>, i: nat)
    requires i < |ops| && i < |answers|
  {
    Fits(sha, sorted, ContentAfter(sha, ops[..i]), ops[i], if i == 0 then None else answers[i - 1], answers[i])
  }

  /** One answer for every operation. */
  ghost predicate Answered(sha: Sha, sorted: bool, ops: seq<TrieOp>, answers: seq<Option<string>>) {
    && |answers| == |ops|
    && forall i {:trigger FitsAt(sha, sorted, ops, answers, i)} :: 0 <= i < |ops| ==>
         FitsAt(sha, sorted, ops, answers, i)
  }

  /** One operation on a trie whose last answer, if it still stands, is known. */
  method Perform(trie: PatriciaTrie, op: TrieOp, ghost before: Option<string>) returns (answer: Option<string>)
    requires trie.Valid() && (before.Some? ==> trie.Settled(before.value))
    modifies trie, trie.repr
    ensures trie.Valid() && fresh(trie.repr - old(trie.repr))
    ensures trie.content == if op.Insert? then old(trie.content)[trie.sha(op.tx.id) := op.tx] else old(trie.content)
    ensures Fits(trie.sha, trie.sorted, old(trie.content), op, before, answer)
    ensures answer.Some? ==> trie.Settled(answer.value)
  {
    answer := None;
    match op
    case Insert(tx) => trie.Insert(tx);
    case AskRoot =>
      var h := trie.GenerateRootHash();
      answer := Some(h);
  }

  lemma {:induction false} ContentStep(sha: Sha, ops: seq<TrieOp>, i: nat)
    requires i < |ops|
    ensures ContentAfter(sha, ops[..i + 1]) ==
            if ops[i].Insert? then ContentAfter(sha, ops[..i])[sha(ops[i].tx.id) := ops[i].tx]
            else ContentAfter(sha, ops[..i])
  {
    assert ops[..i + 1][..i] == ops[..i];
  }

  /** However insertions and root requests are interleaved, every answer is a root recomputed without caches. */
  method Execute(sha: Sha, sorted: bool, ops: seq<TrieOp>) returns (answers: seq<Option<string>>, trie: PatriciaTrie)
    ensures Answered(sha, sorted, ops, answers)
    ensures fresh(trie) && trie.Valid() && trie.sha == sha && trie.sorted == sorted
    ensures trie.content == ContentAfter(sha, ops)
  {
    trie := new PatriciaTrie(sha, sorted);
    answers := [];
    var before := None;
    for i := 0 to |ops|
      invariant fresh(trie) && fresh(trie.repr) && trie.Valid() && trie.sha == sha && trie.sorted == sorted
      invariant trie.content == ContentAfter(sha, ops[..i])
      invariant |answers| == i && before == if i == 0 then None else answers[i - 1]
      invariant before.Some? ==> trie.Settled(before.value)
      invariant forall j {:trigger FitsAt(sha, sorted, ops, answers, j)} :: 0 <= j < i ==>
                  FitsAt(sha, sorted, ops, answers, j)
    {
      ContentStep(sha, ops, i);
      before := Perform(trie, ops[i], before);
      AnswersOneMore(sha, sorted, ops, answers, before);
      answers := answers + [before];
    }
    assert ops[..|ops|] == ops;
  }

  lemma {:induction false} AnswersOneMore(
      sha: Sha, sorted: bool, ops: seq<TrieOp>, answers: seq<Option<string>>, answer: Option<string>)
    requires |answers| < |ops|
    requires forall j {:trigger FitsAt(sha, sorted, ops, answers, j)} :: 0 <= j < |answers| ==>
               FitsAt(sha, sorted, ops, answers, j)
    requires var i := |answers|;
      Fits(sha, sorted, ContentAfter(sha, ops[..i]), ops[i], if i == 0 then None else answers[i - 1], answer)
    ensures forall j {:trigger FitsAt(sha, sorted, ops, answers + [answer], j)} :: 0 <= j <= |answers| ==>
              FitsAt(sha, sorted, ops, answers + [answer], j)
  {
    forall j | 0 <= j <= |answers| ensures FitsAt(sha, sorted, ops, answers + [answer], j) {
      if j < |answers| { assert FitsAt(sha, sorted, ops, answers, j); }
    }
  }

  /** Where every root asked for is the only one its content has, the history determines the answers. */
  lemma {:induction false} AnswersAgree(
      sha: Sha, sorted: bool, ops: seq<TrieOp>, answers: seq<Option<string>>, others: seq<Option<string>>)
    requires Answered(sha, sorted, ops, answers) && Answered(sha, sorted, ops, others)
    requires forall i :: 0 <= i < |ops| && ops[i].AskRoot? ==>
      UniqueRoot(sha, sorted, ContentAfter(sha, ops[..i]).Keys)
    ensures answers == others
  {
    forall i | 0 <= i < |ops| ensures answers[i] == others[i] {
      assert FitsAt(sha, sorted, ops, answers, i) && FitsAt(sha, sorted, ops, others, i);
    }
  }

  /** Between two insertions every request gets the same answer. */
  lemma {:induction false} AnswerStands(
      sha: Sha, sorted: bool, ops: seq<TrieOp>, answers: seq<Option<string>>, i: nat, j: nat)
    requires Answered(sha, sorted, ops, answers) && i <= j < |ops|
    requires forall k :: i <= k <= j ==> ops[k].AskRoot?
    ensures answers[i] == answers[j]
    decreases j
  {
    if i < j {
      AnswerStands(sha, sorted, ops, answers, i, j - 1);
      assert FitsAt(sha, sorted, ops, answers, j) && FitsAt(sha, sorted, ops, answers, j - 1);
    }
  }

  ghost predicate Mentions(sha: Sha, txs: seq<Transaction>, d: seq<byte>) {
    exists i :: 0 <= i < |txs| && sha(txs[i].id) == d
  }

  /** The roots depend on the set of digests: neither the order nor the fields of the transactions show in them. */
  lemma {:induction false} RootIgnoresOrder(
      sha: Sha, sorted: bool, txs: seq<Transaction>, us: seq<Transaction>, h: string)
    requires forall d :: Mentions(sha, txs, d) <==> Mentions(sha, us, d)
    ensures CanRoot(sha, sorted, Inserted(sha, map[], txs).Keys, h) <==>
            CanRoot(sha, sorted, Inserted(sha, map[], us).Keys, h)
  {
    var a, b := Inserted(sha, map[], txs).Keys, Inserted(sha, map[], us).Keys;
    forall d ensures d in a <==> d in b {
      InsertedKeys(sha, txs, d);
      InsertedKeys(sha, us, d);
    }
    assert a == b;
  }

  lemma {:induction false} InsertedKeys(sha: Sha, txs: seq<Transaction>, d: seq<byte>)
    ensures d in Inserted(sha, map[], txs) <==> Mentions(sha, txs, d)
  {
    if txs != [] {
      var init := txs[..|txs| - 1];
      InsertedKeys(sha, init, d);
      assert forall i :: 0 <= i < |init| ==> init[i] == txs[i];
      assert Mentions(sha, txs, d) <==> Mentions(sha, init, d) || sha(txs[|txs| - 1].id) == d;
    }
  }

  /** UnmarshalJSON: a new trie from the list; a root that disagrees is replaced unless the list is empty. */
  method Restore(sha: Sha, sorted: bool, txList: seq<Transaction>, merkleRoot: string)
    returns (trie: PatriciaTrie, root: string)
    ensures fresh(trie) && fresh(trie.repr) && trie.Valid() && trie.sha == sha && trie.sorted == sorted
    ensures trie.content == Inserted(sha, map[], txList)
    ensures merkleRoot == "" || txList == [] ==> root == merkleRoot
    ensures merkleRoot != "" && txList != [] ==> trie.Settled(root) && CanRoot(sha, sorted, trie.content.Keys, root)
  {
    trie := new PatriciaTrie(sha, sorted);
    trie.InsertBatch(txList);
    var calculated := trie.GenerateRootHash();
    root := merkleRoot;
    if merkleRoot != "" && calculated != merkleRoot && |txList| > 0 {
      root := calculated;
    }
  }

  /** Marshalling a block's transactions and reading them back gives the same content, and a root of it. */
  method RoundTrip(trie: PatriciaTrie, merkleRoot: string) returns (back: PatriciaTrie, root: string)
    requires trie.Valid() && CanRoot(trie.sha, trie.sorted, trie.content.Keys, merkleRoot)
    ensures fresh(back) && back.Valid() && back.content == trie.content
    ensures CanRoot(trie.sha, trie.sorted, trie.content.Keys, root)
    ensures trie.sorted || |trie.content| <= 1 ==> root == merkleRoot
  {
    var txList, ds := trie.GetAllTransactions();
    HashLength(trie.sha, trie.sorted, trie.content.Keys, [], merkleRoot);
    back, root := Restore(trie.sha, trie.sorted, txList, merkleRoot);
    ListingRebuilds(trie.sha, trie.content, ds, txList);
    if trie.sorted {
      SortedRootIsUnique(trie.sha, trie.content.Keys);
    } else if |trie.content| <= 1 {
      assert |trie.content.Keys| == |trie.content|;
      FewKeys(trie.content.Keys);
      LonelyHashIsUnique(trie.sha, false, trie.content.Keys, [], root, merkleRoot);
    }
  }

  /** As the loop is written, the trip must give back the same root exactly when there is at most one transaction. */
  lemma {:induction false} RoundTripKeepsRootIff(sha: Sha, keys: set<seq<byte>>, merkleRoot: string)
    requires FullLength(keys) && NoCollision(sha, keys) && CanRoot(sha, false, keys, merkleRoot)
    ensures (forall root :: CanRoot(sha, false, keys, root) ==> root == merkleRoot) <==> |keys| <= 1
  {
    RootIsUniqueIff(sha, keys);
  }
}
