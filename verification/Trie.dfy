/** The Patricia trie: nodes with parent pointers and a hash cache that is filled lazily. */
module Trie {
  import opened Types
  import opened TrieSpec

  class Node {
    var children: map<byte, Node>
    var value: Option<Transaction>
    var hash: string
    var isLeaf: bool
    var hashCache: string
    var parent: Node?
    ghost var path: seq<byte>

    constructor (parent: Node?, ghost path: seq<byte>)
      ensures children == map[] && value == None && hash == "" && !isLeaf && hashCache == ""
      ensures this.parent == parent && this.path == path
    {
      children, value, hash, isLeaf, hashCache := map[], None, "", false, "";
      this.parent, this.path := parent, path;
    }
  }

  function Up(path: seq<byte>): seq<byte>
    requires path != []
  {
    path[..|path| - 1]
  }

  lemma {:induction false} PrefixStep(key: seq<byte>, i: nat)
    requires i < |key|
    ensures key[..i + 1] == key[..i] + [key[i]]
    ensures forall p: seq<byte> :: (Below(p, key) && |p| <= i + 1) <==> (Below(p, key) && |p| <= i) || p == key[..i + 1]
  {
  }

  type Index = map<seq<byte>, Node>

  /** A node at a path, given by its fields: linked to its parent and to exactly the children that exist. */
  ghost predicate LinkedIn(nodes: Index, p: seq<byte>, path: seq<byte>, parent: Node?, children: map<byte, Node>) {
    && |p| <= DIGEST_BYTES && path == p
    && (if p == [] then parent == null else Up(p) in nodes && parent == nodes[Up(p)])
    && (forall b: byte :: b in children <==> p + [b] in nodes)
    && (forall b: byte :: b in children ==> children[b] == nodes[p + [b]])
  }

  /** A node by its fields: leaves sit at full depth and carry the content, inner nodes carry nothing. */
  ghost predicate FilledIn(content: Content, p: seq<byte>, isLeaf: bool, value: Option<Transaction>, hash: string) {
    && (p == [] || Has(content.Keys, p))
    && isLeaf == (|p| == DIGEST_BYTES)
    && (if |p| == DIGEST_BYTES then p in content && value == Some(content[p]) && hash == Hex(p) else value == None)
  }

  /** A cache that is not empty holds a hash that recomputing can give. */
  ghost predicate CachedIn(sha: Sha, sorted: bool, keys: set<seq<byte>>, p: seq<byte>, cache: string) {
    cache == "" || CanHash(sha, sorted, keys, p, cache)
  }

  /** Attaching a child leaves every other node linked. */
  lemma {:induction false} AttachOther(nodes: Index, p: seq<byte>, b: byte, next: Node,
                    q: seq<byte>, path: seq<byte>, parent: Node?, children: map<byte, Node>)
    requires p in nodes && p + [b] !in nodes && q != p && q in nodes
    requires LinkedIn(nodes, q, path, parent, children)
    ensures LinkedIn(nodes[p + [b] := next], q, path, parent, children)
  {
    forall c: byte ensures q + [c] != p + [b] {
      assert Up(q + [c]) == q && Up(p + [b]) == p;
    }
  }

  lemma {:induction false} AttachParent(
      nodes: Index, p: seq<byte>, b: byte, next: Node, parent: Node?, children: map<byte, Node>)
    requires p in nodes && p + [b] !in nodes
    requires LinkedIn(nodes, p, p, parent, children)
    ensures LinkedIn(nodes[p + [b] := next], p, p, parent, children[b := next])
  {
    forall c: byte | c != b ensures p + [c] != p + [b] {
      assert (p + [c])[|p|] == c && (p + [b])[|p|] == b;
    }
  }

  lemma {:induction false} AttachChild(nodes: Index, p: seq<byte>, b: byte, next: Node)
    requires p in nodes && |p| < DIGEST_BYTES
    requires forall c: byte :: p + [b] + [c] !in nodes
    ensures LinkedIn(nodes[p + [b] := next], p + [b], p + [b], nodes[p], map[])
  {
    assert Up(p + [b]) == p;
  }

  class PatriciaTrie {
    const sha: Sha
    /** False for the loop as written, over a map in any order; true for the same loop over sorted keys. */
    const sorted: bool
    var root: Node
    ghost var nodes: map<seq<byte>, Node>
    ghost var content: Content
    ghost var repr: set<Node>

    ghost predicate Linked(p: seq<byte>)
      requires p in nodes
      reads this, nodes[p]
    {
      LinkedIn(nodes, p, nodes[p].path, nodes[p].parent, nodes[p].children)
    }

    ghost predicate Shape()
      reads this, repr
    {
      && [] in nodes && nodes[[]] == root
      && (forall p {:trigger nodes[p]} :: p in nodes ==> nodes[p] in repr)
      && (forall p {:trigger Linked(p)} :: p in nodes ==> Linked(p))
    }

    ghost predicate Filled(p: seq<byte>)
      requires p in nodes
      reads this, nodes[p]
    {
      FilledIn(content, p, nodes[p].isLeaf, nodes[p].value, nodes[p].hash)
    }

    ghost predicate CacheOk(p: seq<byte>)
      requires p in nodes
      reads this, nodes[p]
    {
      CachedIn(sha, sorted, content.Keys, p, nodes[p].hashCache)
    }

    ghost predicate Payload()
      reads this, repr
      requires Shape()
    {
      && (forall d :: d in content ==> |d| == DIGEST_BYTES && d in nodes)
      && FiledById(sha, content)
      && (forall p {:trigger Filled(p)} :: p in nodes ==> Filled(p))
    }

    ghost predicate Valid()
      reads this, repr
    {
      Shape() && Payload() && forall p {:trigger CacheOk(p)} :: p in nodes ==> CacheOk(p)
    }

    constructor (sha: Sha, sorted: bool)
      ensures Valid() && fresh(repr)
      ensures this.sha == sha && this.sorted == sorted && content == map[]
    {
      this.sha, this.sorted := sha, sorted;
      var top := new Node(null, []);
      root := top;
      nodes, content, repr := map[[] := top], map[], {top};
    }

    /** The child under b, created if it is missing. */
    method ChildAt(current: Node, b: byte, ghost p: seq<byte>) returns (next: Node)
      requires Shape() && p in nodes && current == nodes[p] && |p| < DIGEST_BYTES
      modifies `nodes, `repr, current`children
      ensures Shape() && root == old(root)
      ensures p + [b] in nodes && next == nodes[p + [b]]
      ensures p + [b] in old(nodes) ==> nodes == old(nodes) && repr == old(repr)
      ensures p + [b] !in old(nodes) ==>
                && nodes == old(nodes)[p + [b] := next] && repr == old(repr) + {next} && fresh(next)
                && next.hashCache == "" && !next.isLeaf && next.value == None
    {
      assert Linked(p);
      if b !in current.children {
        next := new Node(current, p + [b]);
        NoGrandchild(p, b);
        Attach(current, b, next, p);
      } else {
        next := current.children[b];
      }
    }

    method Attach(current: Node, b: byte, next: Node, ghost p: seq<byte>)
      requires Shape() && p in nodes && current == nodes[p] && |p| < DIGEST_BYTES
      requires p + [b] !in nodes && (forall c: byte :: p + [b] + [c] !in nodes)
      requires next !in repr && next.path == p + [b] && next.parent == current && next.children == map[]
      modifies `nodes, `repr, current`children
      ensures Shape() && root == old(root)
      ensures nodes == old(nodes)[p + [b] := next] && repr == old(repr) + {next}
    {
      ghost var before := nodes;
      assert Linked(p);
      AttachParent(before, p, b, next, current.parent, current.children);
      AttachChild(before, p, b, next);
      AttachOthers(p, b, next);
      current.children := current.children[b := next];
      nodes := before[p + [b] := next];
      repr := repr + {next};
      forall q | q in nodes ensures Linked(q) {
        if q != p && q != p + [b] {
          assert q in before && before[q] != current;
        }
      }
    }

    lemma {:induction false} AttachOthers(p: seq<byte>, b: byte, next: Node)
      requires Shape() && p in nodes && p + [b] !in nodes
      ensures forall q {:trigger nodes[q]} :: q in nodes && q != p ==>
        nodes[q] != nodes[p] &&
        LinkedIn(nodes[p + [b] := next], q, nodes[q].path, nodes[q].parent, nodes[q].children)
    {
      forall q | q in nodes && q != p
        ensures LinkedIn(nodes[p + [b] := next], q, nodes[q].path, nodes[q].parent, nodes[q].children)
        ensures nodes[q] != nodes[p]
      {
        assert Linked(q) && Linked(p);
        AttachOther(nodes, p, b, next, q, nodes[q].path, nodes[q].parent, nodes[q].children);
      }
    }

    lemma {:induction false} NoGrandchild(p: seq<byte>, b: byte)
      requires Shape() && p + [b] !in nodes
      ensures forall c: byte :: p + [b] + [c] !in nodes
    {
      forall c: byte ensures p + [b] + [c] !in nodes {
        assert Up(p + [b] + [c]) == p + [b];
        assert p + [b] + [c] in nodes ==> Linked(p + [b] + [c]);
      }
    }

    /** Walks down to the leaf of a key, creating the nodes that are missing. */
    method Descend(key: Digest) returns (leaf: Node)
      requires Shape()
      modifies `nodes, `repr, repr`children
      ensures Shape() && root == old(root)
      ensures forall p :: p in nodes <==> p in old(nodes) || Below(p, key)
      ensures forall p :: p in old(nodes) ==> nodes[p] == old(nodes)[p]
      ensures forall p :: p in nodes && p !in old(nodes) ==>
                nodes[p].hashCache == "" && !nodes[p].isLeaf && nodes[p].value == None
      ensures old(repr) <= repr && fresh(repr - old(repr))
      ensures key in nodes && leaf == nodes[key]
    {
      leaf := root;
      assert key[..0] == [];
      for i := 0 to |key|
        invariant Shape() && root == old(root)
        invariant key[..i] in nodes && leaf == nodes[key[..i]]
        invariant forall p :: p in nodes <==> p in old(nodes) || (Below(p, key) && |p| <= i)
        invariant forall p :: p in old(nodes) ==> nodes[p] == old(nodes)[p]
        invariant forall p :: p in nodes && p !in old(nodes) ==>
                    nodes[p].hashCache == "" && !nodes[p].isLeaf && nodes[p].value == None
        invariant old(repr) <= repr && fresh(repr - old(repr))
      {
        PrefixStep(key, i);
        leaf := ChildAt(leaf, key[i], key[..i]);
      }
      assert key[..|key|] == key;
    }

    /** Clears the cache of a node and of every node above it. */
    method MarkDirty(node: Node, ghost p: seq<byte>)
      requires Shape() && p in nodes && node == nodes[p]
      modifies repr`hashCache
      ensures Shape()
      ensures forall q :: q in nodes ==> nodes[q].hashCache == if Below(q, p) then "" else old(nodes[q].hashCache)
    {
      var n: Node? := node;
      ghost var i := |p|;
      assert p[..i] == p;
      while n != null
        invariant -1 <= i <= |p|
        invariant i >= 0 ==> p[..i] in nodes && n == nodes[p[..i]]
        invariant i < 0 ==> n == null
        invariant forall q :: q in nodes ==>
          nodes[q].hashCache == if Below(q, p) && |q| > i then "" else old(nodes[q].hashCache)
        decreases i
      {
        ShapeKept();
        DirtyStep(p, i);
        n.hashCache := "";
        n := n.parent;
        i := i - 1;
      }
      ShapeKept();
    }

    lemma {:induction false} DirtyStep(p: seq<byte>, i: nat)
      requires Shape() && i <= |p| && p[..i] in nodes
      ensures forall q :: q in nodes && q != p[..i] ==> nodes[q] != nodes[p[..i]]
      ensures forall q :: q in nodes && Below(q, p) && |q| == i ==> q == p[..i]
      ensures i > 0 ==> Up(p[..i]) == p[..i - 1] && p[..i - 1] in nodes && nodes[p[..i]].parent == nodes[p[..i - 1]]
      ensures i == 0 ==> nodes[p[..i]].parent == null
    {
      assert Linked(p[..i]);
      forall q | q in nodes && q != p[..i] ensures nodes[q] != nodes[p[..i]] { assert Linked(q); }
    }

    /** While a key is being inserted: a node is as before, or it is new and blank on the way to the key. */
    ghost predicate Pending(p: seq<byte>, key: seq<byte>)
      requires p in nodes
      reads this, nodes[p]
    {
      && CacheOk(p)
      && (Filled(p) || (Below(p, key) && !nodes[p].isLeaf && nodes[p].value == None))
    }

    method Reach(key: Digest) returns (leaf: Node)
      requires Valid()
      modifies `nodes, `repr, repr`children
      ensures Shape() && content == old(content)
      ensures forall d :: d in content ==> |d| == DIGEST_BYTES && d in nodes
      ensures forall p {:trigger Pending(p, key)} :: p in nodes ==> Pending(p, key)
      ensures old(repr) <= repr && fresh(repr - old(repr))
      ensures key in nodes && leaf == nodes[key]
    {
      leaf := Descend(key);
      forall p | p in nodes ensures Pending(p, key) {
        if p in old(nodes) { assert old(Filled(p)) && old(CacheOk(p)); }
      }
    }

    method WriteLeaf(leaf: Node, tx: Transaction, key: Digest)
      requires Shape() && key in nodes && leaf == nodes[key]
      requires forall p {:trigger Pending(p, key)} :: p in nodes ==> Pending(p, key)
      modifies leaf`value, leaf`isLeaf, leaf`hash
      ensures Shape()
      ensures leaf.value == Some(tx) && leaf.isLeaf && leaf.hash == Hex(key)
      ensures forall p {:trigger Pending(p, key)} :: p in nodes && p != key ==> Pending(p, key)
    {
      OthersDiffer(key);
      leaf.value := Some(tx);
      leaf.isLeaf := true;
      leaf.hash := Hex(key);
      ShapeKept();
      forall p | p in nodes && p != key ensures Pending(p, key) { assert old(Pending(p, key)) && nodes[p] != leaf; }
    }

    lemma {:induction false} FilledOnceFiled(key: Digest, tx: Transaction)
      requires Shape() && key in nodes
      requires nodes[key].value == Some(tx) && nodes[key].isLeaf && nodes[key].hash == Hex(key)
      requires forall p {:trigger Pending(p, key)} :: p in nodes && p != key ==> Pending(p, key)
      ensures forall p {:trigger nodes[p]} :: p in nodes ==>
                FilledIn(content[key := tx], p, nodes[p].isLeaf, nodes[p].value, nodes[p].hash)
      ensures forall p {:trigger nodes[p]} :: p in nodes ==>
                Below(p, key) || CachedIn(sha, sorted, content[key := tx].Keys, p, nodes[p].hashCache)
    {
      forall p | p in nodes
        ensures FilledIn(content[key := tx], p, nodes[p].isLeaf, nodes[p].value, nodes[p].hash)
        ensures Below(p, key) || CachedIn(sha, sorted, content[key := tx].Keys, p, nodes[p].hashCache)
      {
        if p == key {
          StoredLeaf(content, key, tx);
        } else {
          assert Pending(p, key) && Linked(p);
          StoredElsewhere(sha, sorted, content, key, tx, p,
                          nodes[p].isLeaf, nodes[p].value, nodes[p].hash, nodes[p].hashCache);
        }
      }
    }

    /** Files the transaction under its key; caches on the way up may now be stale. */
    ghost method File(key: Digest, tx: Transaction)
      requires Shape() && key in nodes
      requires nodes[key].value == Some(tx) && nodes[key].isLeaf && nodes[key].hash == Hex(key)
      requires forall p {:trigger Pending(p, key)} :: p in nodes && p != key ==> Pending(p, key)
      modifies `content
      ensures Shape() && content == old(content)[key := tx]
      ensures forall p {:trigger Filled(p)} :: p in nodes ==> Filled(p)
      ensures forall p {:trigger CacheOk(p)} :: p in nodes ==> Below(p, key) || CacheOk(p)
    {
      FilledOnceFiled(key, tx);
      content := content[key := tx];
      ShapeKept();
    }

    /** The shape lives in paths, parents and children only. */
    twostate lemma {:induction false} ShapeKept()
      requires old(Shape()) && nodes == old(nodes) && root == old(root) && repr == old(repr)
      requires forall n {:trigger n in repr} :: n in repr ==>
                 n.path == old(n.path) && n.parent == old(n.parent) && n.children == old(n.children)
      ensures Shape()
    {
      forall p | p in nodes ensures Linked(p) {
        assert old(Linked(p));
        assert nodes[p] in repr;
      }
    }

    lemma {:induction false} OthersDiffer(p: seq<byte>)
      requires Shape() && p in nodes
      ensures forall q {:trigger nodes[q]} :: q in nodes && q != p ==> nodes[q] != nodes[p]
    {
      forall q | q in nodes && q != p ensures nodes[q] != nodes[p] { assert Linked(q) && Linked(p); }
    }

    method Insert(tx: Transaction)
      requires Valid()
      modifies this, repr
      ensures Valid() && fresh(repr - old(repr))
      ensures content == old(content)[sha(tx.id) := tx]
    {
      var key := sha(tx.id);
      var current := Reach(key);
      WriteLeaf(current, tx, key);
      File(key, tx);
      label Stored:
      MarkDirty(current, key);
      forall p | p in nodes ensures Filled(p) && CacheOk(p) {
        assert old@Stored(Filled(p)) && old@Stored(Below(p, key) || CacheOk(p));
      }
      FiledStep(sha, old(content), tx);
    }

    /** The hash of a node: from the cache if it is filled, else from the children. */
    method ComputeHash(node: Node, ghost p: seq<byte>) returns (h: string)
      requires Valid() && p in nodes && node == nodes[p]
      modifies repr`hashCache
      ensures Valid()
      ensures CanHash(sha, sorted, content.Keys, p, h)
      ensures node.hashCache == h && (old(node.hashCache) != "" ==> h == old(node.hashCache))
      decreases DIGEST_BYTES - |p|, 1
    {
      assert Linked(p) && Filled(p) && CacheOk(p);
      if node.hashCache != "" {
        return node.hashCache;
      }
      if node.isLeaf {
        SetCache(node, node.hash, p);
        return node.hash;
      }
      ghost var order, hs;
      var combined;
      combined, order, hs := CombineChildren(node, p);
      h := Hex(sha(combined));
      SetCache(node, h, p);
    }

    /** The hashes of the children one after the other, in the order the map hands them out. */
    method CombineChildren(node: Node, ghost p: seq<byte>)
      returns (combined: string, ghost order: seq<byte>, ghost hs: seq<string>)
      requires Valid() && p in nodes && node == nodes[p] && |p| < DIGEST_BYTES
      modifies repr`hashCache
      ensures Valid()
      ensures Visits(sha, sorted, content.Keys, p, order, hs) && combined == Concat(hs)
      decreases DIGEST_BYTES - |p|, 0
    {
      combined, order, hs := "", [], [];
      AllChildren(p);
      var children := node.children;
      ghost var keys := content.Keys;
      var todo := children.Keys;
      while todo != {}
        invariant Valid() && content.Keys == keys
        invariant forall b :: b in children ==> p + [b] in nodes && children[b] == nodes[p + [b]]
        invariant Visited(sorted, children.Keys, order, todo)
        invariant Yields(sha, sorted, keys, p, order, hs) && combined == Concat(hs)
      {
        var b := NextChild(todo);
        VisitedOneMore(sorted, children.Keys, order, todo, b);
        var childHash := ComputeHash(children[b], p + [b]);
        YieldsOneMore(sha, sorted, keys, p, order, hs, b, childHash);
        combined := combined + childHash;
        order, hs := order + [b], hs + [childHash];
        todo := todo - {b};
      }
      forall b: byte ensures b in order <==> Has(keys, p + [b]) { ChildIffKey(p, b); }
    }

    /** Any child; the smallest if the children are sorted. */
    method NextChild(todo: set<byte>) returns (b: byte)
      requires todo != {}
      ensures b in todo && (sorted ==> forall c :: c in todo ==> b <= c)
    {
      b :| b in todo;
      if sorted {
        var rest := todo;
        while rest != {}
          invariant rest <= todo && b in todo
          invariant forall c :: c in todo && c !in rest ==> b <= c
        {
          var c :| c in rest;
          b := if c < b then c else b;
          rest := rest - {c};
        }
      }
    }

    method SetCache(node: Node, h: string, ghost p: seq<byte>)
      requires Valid() && p in nodes && node == nodes[p]
      requires CanHash(sha, sorted, content.Keys, p, h)
      modifies node`hashCache
      ensures Valid() && node.hashCache == h
    {
      OthersDiffer(p);
      node.hashCache := h;
      ShapeKept();
      forall q | q in nodes ensures Filled(q) { assert old(Filled(q)); }
      forall q | q in nodes ensures CacheOk(q) { assert q != p ==> old(CacheOk(q)); }
    }

    /** A child exists exactly when some key lies below it. */
    lemma {:induction false} ChildIffKey(p: seq<byte>, b: byte)
      requires Valid() && p in nodes
      ensures b in nodes[p].children <==> p + [b] in nodes
      ensures b in nodes[p].children ==> nodes[p].children[b] == nodes[p + [b]]
      ensures p + [b] in nodes <==> Has(content.Keys, p + [b])
    {
      assert Linked(p);
      if p + [b] in nodes {
        assert Filled(p + [b]);
      }
      if Has(content.Keys, p + [b]) {
        var d :| d in content.Keys && Below(p + [b], d);
        PrefixesExist(d, |p| + 1);
        assert d[..|p| + 1] == p + [b];
      }
    }

    lemma {:induction false} PrefixesExist(d: seq<byte>, n: nat)
      requires Shape() && d in nodes && n <= |d|
      ensures d[..n] in nodes
      decreases |d| - n
    {
      if n == |d| {
        assert d[..n] == d;
      } else {
        PrefixesExist(d, n + 1);
        assert Linked(d[..n + 1]);
        assert Up(d[..n + 1]) == d[..n];
      }
    }

    /** The root is settled: asking again gives this answer. */
    ghost predicate Settled(h: string)
      reads this, root
    {
      h != "" && if root.children == map[] then h == Hex(sha("")) else root.hashCache == h
    }

    method GenerateRootHash() returns (h: string)
      requires Valid()
      modifies repr`hashCache
      ensures Valid()
      ensures CanRoot(sha, sorted, content.Keys, h)
      ensures Settled(h) && forall g :: old(Settled(g)) ==> g == h
    {
      if root.children == map[] {
        EmptyRoot();
        HexLength(sha(""));
        return Hex(sha(""));
      }
      h := ComputeHash(root, []);
      HashLength(sha, sorted, content.Keys, [], h);
    }

    lemma {:induction false} EmptyRoot()
      requires Valid() && root.children == map[]
      ensures CanRoot(sha, sorted, content.Keys, Hex(sha("")))
    {
      forall b: byte ensures !Has(content.Keys, [] + [b]) { ChildIffKey([], b); }
      assert Visits(sha, sorted, content.Keys, [], [], []);
      assert Concat([]) == "";
    }

    /** Follows the digest down from the root. */
    method Search(txID: string) returns (found: Option<Transaction>)
      requires Valid()
      ensures found == if sha(txID) in content then Some(content[sha(txID)]) else None
    {
      var key := sha(txID);
      var current := root;
      assert key[..0] == [];
      for i := 0 to |key|
        invariant key[..i] in nodes && current == nodes[key[..i]]
      {
        PrefixStep(key, i);
        ChildIffKey(key[..i], key[i]);
        assert Below(key[..i + 1], key);
        if key[i] !in current.children {
          assert key !in content.Keys;
          return None;
        }
        current := current.children[key[i]];
      }
      assert key[..|key|] == key;
      assert Filled(key);
      found := current.value;
    }

    /** Collects the transactions below a node. */
    method Traverse(node: Node, ghost p: seq<byte>) returns (txs: seq<Transaction>, ghost ds: seq<seq<byte>>)
      requires Valid() && p in nodes && node == nodes[p]
      ensures Valid() && Lists(Under(content, p), ds, txs)
      decreases DIGEST_BYTES - |p|, 1
    {
      assert Linked(p) && Filled(p);
      if node.isLeaf && node.value.Some? {
        LeafContent(p);
        txs, ds := [node.value.value], [p];
      } else {
        AllChildren(p);
        txs, ds := TraverseChildren(node.children, p);
      }
    }

    /** The children, in the map's arbitrary order. */
    method TraverseChildren(children: map<byte, Node>, ghost p: seq<byte>)
      returns (txs: seq<Transaction>, ghost ds: seq<seq<byte>>)
      requires Valid() && |p| < DIGEST_BYTES
      requires forall b :: b in children ==> p + [b] in nodes && children[b] == nodes[p + [b]]
      ensures Valid() && Lists(Through(content, p, children.Keys), ds, txs)
      decreases DIGEST_BYTES - |p|, 0
    {
      ghost var all := content;
      txs, ds := [], [];
      var todo := children.Keys;
      ghost var done: set<byte> := {};
      ThroughNone(all, p);
      while todo != {}
        invariant Valid() && content == all
        invariant forall b :: b in children ==> p + [b] in nodes && children[b] == nodes[p + [b]]
        invariant Partition(children.Keys, done, todo)
        invariant Lists(Through(all, p, done), ds, txs)
      {
        var b :| b in todo;
        MoveOne(children.Keys, done, todo, b);
        var below, es := Traverse(children[b], p + [b]);
        ListsStep(all, p, done, b, ds, txs, es, below);
        txs, ds := txs + below, ds + es;
        todo, done := todo - {b}, done + {b};
      }
    }

    lemma {:induction false} LeafContent(p: seq<byte>)
      requires Valid() && p in nodes && |p| == DIGEST_BYTES
      ensures p in content && Under(content, p) == map[p := content[p]]
    {
      assert Filled(p);
      forall d | d in content && Below(p, d) ensures d == p { }
      assert Below(p, p);
    }

    lemma {:induction false} AllChildren(p: seq<byte>)
      requires Valid() && p in nodes && |p| < DIGEST_BYTES
      ensures Through(content, p, nodes[p].children.Keys) == Under(content, p)
      ensures forall b :: b in nodes[p].children ==> p + [b] in nodes && nodes[p].children[b] == nodes[p + [b]]
    {
      assert Linked(p);
      forall d | d in content && Below(p, d) ensures |d| > |p| && d[|p|] in nodes[p].children.Keys {
        ChildIffKey(p, d[|p|]);
        assert d[..|p| + 1] == p + [d[|p|]];
        assert d in content.Keys && Below(p + [d[|p|]], d);
      }
    }

    method GetAllTransactions() returns (txs: seq<Transaction>, ghost ds: seq<seq<byte>>)
      requires Valid()
      ensures Lists(content, ds, txs)
    {
      txs, ds := Traverse(root, []);
      assert Under(content, []) == content;
    }

    /** Counts the transactions below a node; the ghost listing is what has been counted. */
    method Count(node: Node, ghost p: seq<byte>)
      returns (count: nat, ghost txs: seq<Transaction>, ghost ds: seq<seq<byte>>)
      requires Valid() && p in nodes && node == nodes[p]
      ensures Valid() && Lists(Under(content, p), ds, txs) && count == |txs|
      decreases DIGEST_BYTES - |p|, 1
    {
      assert Linked(p) && Filled(p);
      if node.isLeaf && node.value.Some? {
        LeafContent(p);
        count, txs, ds := 1, [node.value.value], [p];
      } else {
        AllChildren(p);
        count, txs, ds := CountChildren(node.children, p);
      }
    }

    method CountChildren(children: map<byte, Node>, ghost p: seq<byte>)
      returns (count: nat, ghost txs: seq<Transaction>, ghost ds: seq<seq<byte>>)
      requires Valid() && |p| < DIGEST_BYTES
      requires forall b :: b in children ==> p + [b] in nodes && children[b] == nodes[p + [b]]
      ensures Valid() && Lists(Through(content, p, children.Keys), ds, txs) && count == |txs|
      decreases DIGEST_BYTES - |p|, 0
    {
      ghost var all := content;
      count, txs, ds := 0, [], [];
      var todo := children.Keys;
      ghost var done: set<byte> := {};
      ThroughNone(all, p);
      while todo != {}
        invariant Valid() && content == all
        invariant forall b :: b in children ==> p + [b] in nodes && children[b] == nodes[p + [b]]
        invariant Partition(children.Keys, done, todo)
        invariant Lists(Through(all, p, done), ds, txs) && count == |txs|
      {
        var b :| b in todo;
        MoveOne(children.Keys, done, todo, b);
        var below, us, es := Count(children[b], p + [b]);
        ListsStep(all, p, done, b, ds, txs, es, us);
        count, txs, ds := count + below, txs + us, ds + es;
        todo, done := todo - {b}, done + {b};
      }
    }

    method Len() returns (count: nat)
      requires Valid()
      ensures count == |content|
    {
      ghost var txs, ds;
      count, txs, ds := Count(root, []);
      assert Under(content, []) == content;
      ListingLength(content, ds, txs);
    }

    method InsertBatch(txs: seq<Transaction>)
      requires Valid()
      modifies this, repr
      ensures Valid() && fresh(repr - old(repr))
      ensures content == Inserted(sha, old(content), txs)
    {
      for i := 0 to |txs|
        invariant Valid() && fresh(repr - old(repr))
        invariant content == Inserted(sha, old(content), txs[..i])
      {
        assert txs[..i + 1][..i] == txs[..i];
        Insert(txs[i]);
      }
      assert txs[..|txs|] == txs;
    }
  }

  lemma {:induction false} FiledStep(sha: Sha, content: Content, tx: Transaction)
    requires FiledById(sha, content)
    ensures FiledById(sha, content[sha(tx.id) := tx])
  {
    var next := content[sha(tx.id) := tx];
    forall d | d in next ensures sha(next[d].id) == d {
      if d != sha(tx.id) { assert d in content && next[d] == content[d]; }
    }
  }

  lemma {:induction false} StoredLeaf(content: Content, key: Digest, tx: Transaction)
    ensures FilledIn(content[key := tx], key, true, Some(tx), Hex(key))
  {
    assert key in content[key := tx].Keys && Below(key, key);
  }

  /** Storing a transaction leaves the other nodes in order, and their caches right off its path. */
  lemma {:induction false} StoredElsewhere(
      sha: Sha, sorted: bool, content: Content, key: Digest, tx: Transaction, p: seq<byte>,
      isLeaf: bool, value: Option<Transaction>, hash: string, cache: string)
    requires p != key && |p| <= DIGEST_BYTES && CachedIn(sha, sorted, content.Keys, p, cache)
    requires FilledIn(content, p, isLeaf, value, hash) || (Below(p, key) && !isLeaf && value == None)
    ensures FilledIn(content[key := tx], p, isLeaf, value, hash)
    ensures Below(p, key) || CachedIn(sha, sorted, content[key := tx].Keys, p, cache)
  {
    KeysGrow(content.Keys, key, p);
    assert content[key := tx].Keys == content.Keys + {key};
    if !Below(p, key) && cache != "" {
      HashDependsOnSubtree(sha, sorted, content.Keys, content.Keys + {key}, p, cache);
    }
  }

  /** One more key: paths that had keys below them keep them. */
  lemma {:induction false} KeysGrow(keys: set<seq<byte>>, key: seq<byte>, p: seq<byte>)
    ensures Has(keys, p) || Below(p, key) ==> Has(keys + {key}, p)
  {
    if Has(keys, p) {
      var d :| d in keys && Below(p, d);
      assert d in keys + {key};
    }
    if Below(p, key) { assert key in keys + {key}; }
  }
}
