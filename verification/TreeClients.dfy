/** What the users of the tree rely on: re-keying a linked item, and a whole run of
    additions and removals seen as a finite map. */
module TreeClients {
  import opened Rows
  import opened Trees
  import opened BalancedBTree

  // ----- re-keying -----

  /** The tree is in order once this item is disregarded. */
  ghost predicate OrderedApartFrom<K(!new), V>(tree: BTree<K, V>, item: Node<K, V>)
    reads tree`shape, (Nodes(tree.shape) - {item})`key
  {
    NodesAreOrder(tree.shape);
    WithoutIsWithin<Node<K, V>>(tree.Order(), item);
    Ascending(tree.keyCompare, Without<Node<K, V>>(tree.Order(), item))
  }

  /** The keys of all other linked items, in order. */
  ghost function OtherKeys<K(!new), V>(tree: BTree<K, V>, item: Node<K, V>): seq<K>
    reads tree`shape, (Nodes(tree.shape) - {item})`key
  {
    NodesAreOrder(tree.shape);
    WithoutIsWithin<Node<K, V>>(tree.Order(), item);
    KeysOf(Without<Node<K, V>>(tree.Order(), item))
  }

  /** Removal goes by node and works whatever the key of the node says. */
  method TakeOut<K(!new), V>(tree: BTree<K, V>, item: Node<K, V>)
    requires tree.Valid() && item in Nodes(tree.shape) && OrderedApartFrom(tree, item)
    modifies tree`root, tree`shape
    modifies Nodes(tree.shape)`left, Nodes(tree.shape)`right, Nodes(tree.shape)`parent, Nodes(tree.shape)`btree
    ensures tree.Valid() && Ordered(tree.keyCompare, tree.shape)
    ensures tree.Order() == Without<Node<K, V>>(old(tree.Order()), item)
    ensures Nodes(tree.shape) == old(Nodes(tree.shape)) - {item}
    ensures tree.Keys() == old(OtherKeys(tree, item))
  {
    NodesAllocated(tree.shape);
    NodesAreOrder(tree.shape);
    WithoutIsWithin<Node<K, V>>(tree.Order(), item);
    ghost var others := Without<Node<K, V>>(tree.Order(), item);
    tree.Remove(item, false);
    assert Ascending(tree.keyCompare, others) && KeysOf(others) == old(OtherKeys(tree, item));
    OrderedIsAscending(tree.keyCompare, tree.shape);
  }

  method SetKey<K(!new), V>(tree: BTree<K, V>, item: Node<K, V>, key: K)
    requires tree.Valid() && Ordered(tree.keyCompare, tree.shape) && item !in Nodes(tree.shape)
    modifies item`key
    ensures tree.Valid() && Ordered(tree.keyCompare, tree.shape) && item.key == key
    ensures tree.Keys() == old(tree.Keys())
  {
    item.key := key;
  }

  /** The key of a linked item is overwritten; the others stay in order. */
  method Overwrite<K(!new), V>(tree: BTree<K, V>, item: Node<K, V>, key: K)
    requires tree.Valid() && OrderedApartFrom(tree, item)
    modifies item`key
    ensures tree.Valid() && OrderedApartFrom(tree, item) && OtherKeys(tree, item) == old(OtherKeys(tree, item))
  {
    item.key := key;
  }

  /** A linked item gets a new key: out of the tree by node, in again by key.
      Its key may have been overwritten while it was linked. */
  method Rekey<K(!new), V>(tree: BTree<K, V>, item: Node<K, V>, oldKey: K, newKey: K, rebalance: bool)
    returns (ghost at: nat, dropped: bool)
    requires tree.Valid() && item in Nodes(tree.shape) && OrderedApartFrom(tree, item)
    modifies tree`root, tree`shape, item`key
    modifies Nodes(tree.shape)`left, Nodes(tree.shape)`right, Nodes(tree.shape)`parent, Nodes(tree.shape)`btree
    ensures tree.Valid() && Ordered(tree.keyCompare, tree.shape) && item.key == newKey
    ensures rebalance ==> Balanced(tree.shape)
    ensures var others := Without<Node<K, V>>(old(tree.Order()), item);
      && |others| == |old(OtherKeys(tree, item))| && at <= |others|
      && tree.Order() == (if dropped then others else others[..at] + [item] + others[at..])
    ensures Nodes(tree.shape) == old(Nodes(tree.shape)) - if dropped then {item} else {}
    ensures var keys := old(OtherKeys(tree, item));
      && GoesAt(tree.keyCompare, keys, at, newKey)
      && (dropped ==> at > 0 && tree.keyCompare(newKey, keys[at - 1]) == 0)
  {
    ghost var others, keys, nodes := Without<Node<K, V>>(tree.Order(), item), OtherKeys(tree, item), Nodes(tree.shape);
    NodesAllocated(tree.shape);
    Overwrite(tree, item, oldKey);
    TakeOut(tree, item);
    at, dropped := PutBack(tree, item, newKey, rebalance, others, keys, nodes);
  }

  method PutBack<K(!new), V>(tree: BTree<K, V>, item: Node<K, V>, key: K, rebalance: bool,
                             ghost others: seq<Node<K, V>>, ghost keys: seq<K>, ghost nodes: set<Node<K, V>>)
    returns (ghost at: nat, dropped: bool)
    requires tree.Valid() && Ordered(tree.keyCompare, tree.shape)
    requires tree.Order() == others && tree.Keys() == keys && Nodes(tree.shape) == nodes - {item} && item in nodes
    modifies tree`root, tree`shape, item`key
    modifies Nodes(tree.shape)`left, Nodes(tree.shape)`right, Nodes(tree.shape)`parent
    modifies item`left, item`right, item`parent, item`btree
    ensures tree.Valid() && Ordered(tree.keyCompare, tree.shape) && item.key == key
    ensures rebalance ==> Balanced(tree.shape)
    ensures |others| == |keys| && at <= |others|
    ensures tree.Order() == if dropped then others else others[..at] + [item] + others[at..]
    ensures Nodes(tree.shape) == nodes - if dropped then {item} else {}
    ensures GoesAt(tree.keyCompare, keys, at, key)
    ensures dropped ==> at > 0 && tree.keyCompare(key, keys[at - 1]) == 0
  {
    NodesAllocated(tree.shape);
    SetKey(tree, item, key);
    at, dropped := tree.Add(item, rebalance);
  }

  // ----- whole runs, seen as a finite map -----

  datatype Op<K(!new), V> =
    | Insert(node: Node<K, V>, key: K)
    | Delete(node: Node<K, V>)
    | Change(node: Node<K, V>, oldKey: K, key: K)
    | Level

  ghost function Entries<K(!new), V>(tree: BTree<K, V>): map<Node<K, V>, K>
    reads tree`shape, Nodes(tree.shape)`key
  {
    map n | n in Nodes(tree.shape) :: n.key
  }

  function Apply<K(!new), V>(entries: map<Node<K, V>, K>, op: Op<K, V>): map<Node<K, V>, K> {
    match op
    case Insert(n, k) => entries[n := k]
    case Delete(n) => entries - {n}
    case Change(n, _, k) => entries[n := k]
    case Level => entries
  }

  /** No entry has a key equal to this one. */
  ghost predicate Fresh<K(!new), V>(cmp: (K, K) -> int, entries: map<Node<K, V>, K>, key: K) {
    forall n :: n in entries ==> cmp(key, entries[n]) != 0
  }

  ghost predicate Legal<K(!new), V>(cmp: (K, K) -> int, entries: map<Node<K, V>, K>, op: Op<K, V>) {
    match op
    case Insert(n, k) => n !in entries && Fresh(cmp, entries, k)
    case Delete(n) => n in entries
    case Change(n, _, k) => n in entries && Fresh(cmp, entries - {n}, k)
    case Level => true
  }

  function OpNodes<K(!new), V>(op: Op<K, V>): set<Node<K, V>> {
    if op.Level? then {} else {op.node}
  }

  lemma {:induction false} AscendingWithout<K(!new), V>(cmp: (K, K) -> int, s: seq<Node<K, V>>, x: Node<K, V>)
    requires Ascending(cmp, s)
    ensures Ascending(cmp, Without<Node<K, V>>(s, x))
  {
    if s != [] {
      var rest := Without<Node<K, V>>(s[1..], x);
      AscendingWithout(cmp, s[1..], x);
      WithoutIsWithin<Node<K, V>>(s[1..], x);
      forall j | 0 <= j < |rest| ensures cmp(s[0].key, rest[j].key) <= 0 {
        assert rest[j] in Elements(rest);
        var k :| 0 <= k < |s[1..]| && s[1..][k] == rest[j];
        assert s[k + 1] == rest[j];
      }
    }
  }

  /** With a fresh key, no linked node ties. */
  lemma FreshKeys<K(!new), V>(tree: BTree<K, V>, key: K)
    requires Fresh(tree.keyCompare, Entries(tree), key)
    ensures forall i :: 0 <= i < |tree.Keys()| ==> tree.keyCompare(key, tree.Keys()[i]) != 0
  {
    NodesAreOrder(tree.shape);
    forall i | 0 <= i < |tree.Keys()| ensures tree.keyCompare(key, tree.Keys()[i]) != 0 {
      var n := tree.Order()[i];
      assert n in Elements(tree.Order()) && tree.Keys()[i] == n.key;
      assert n in Entries(tree);
    }
  }

  method AddFresh<K(!new), V>(tree: BTree<K, V>, node: Node<K, V>, rebalance: bool)
    requires tree.Valid() && Ordered(tree.keyCompare, tree.shape)
    requires node !in Nodes(tree.shape) && Fresh(tree.keyCompare, Entries(tree), node.key)
    modifies tree`root, tree`shape, Nodes(tree.shape)`left, Nodes(tree.shape)`right, Nodes(tree.shape)`parent
    modifies node`left, node`right, node`parent, node`btree
    ensures tree.Valid() && Ordered(tree.keyCompare, tree.shape)
    ensures Entries(tree) == old(Entries(tree))[node := node.key]
  {
    NodesAllocated(tree.shape);
    FreshKeys(tree, node.key);
    ghost var at, dropped;
    ghost var before := Entries(tree);
    at, dropped := tree.Add(node, rebalance);
    EntriesGrew(tree, before, node);
  }

  lemma EntriesGrew<K(!new), V>(tree: BTree<K, V>, before: map<Node<K, V>, K>, node: Node<K, V>)
    requires Nodes(tree.shape) == before.Keys + {node} && node !in before
    requires forall n :: n in before ==> n.key == before[n]
    ensures Entries(tree) == before[node := node.key]
  {
  }

  method DoInsert<K(!new), V>(tree: BTree<K, V>, node: Node<K, V>, key: K)
    requires tree.Valid() && Ordered(tree.keyCompare, tree.shape)
    requires node !in Nodes(tree.shape) && Fresh(tree.keyCompare, Entries(tree), key)
    modifies tree`root, tree`shape, Nodes(tree.shape)`left, Nodes(tree.shape)`right, Nodes(tree.shape)`parent
    modifies node`left, node`right, node`parent, node`btree, node`key
    ensures tree.Valid() && Ordered(tree.keyCompare, tree.shape)
    ensures Entries(tree) == old(Entries(tree))[node := key]
  {
    NodesAllocated(tree.shape);
    SetKey(tree, node, key);
    assert Entries(tree) == old(Entries(tree));
    AddFresh(tree, node, false);
  }

  method DoDelete<K(!new), V>(tree: BTree<K, V>, node: Node<K, V>)
    requires tree.Valid() && Ordered(tree.keyCompare, tree.shape) && node in Nodes(tree.shape)
    modifies tree`root, tree`shape
    modifies Nodes(tree.shape)`left, Nodes(tree.shape)`right, Nodes(tree.shape)`parent, Nodes(tree.shape)`btree
    ensures tree.Valid() && Ordered(tree.keyCompare, tree.shape)
    ensures Entries(tree) == old(Entries(tree)) - {node}
  {
    NodesAllocated(tree.shape);
    OrderedIsAscending(tree.keyCompare, tree.shape);
    AscendingWithout(tree.keyCompare, tree.Order(), node);
    TakeOut(tree, node);
  }

  method DoChange<K(!new), V>(tree: BTree<K, V>, node: Node<K, V>, oldKey: K, key: K)
    requires tree.Valid() && Ordered(tree.keyCompare, tree.shape) && node in Nodes(tree.shape)
    requires Fresh(tree.keyCompare, Entries(tree) - {node}, key)
    modifies tree`root, tree`shape, node`key
    modifies Nodes(tree.shape)`left, Nodes(tree.shape)`right, Nodes(tree.shape)`parent, Nodes(tree.shape)`btree
    ensures tree.Valid() && Ordered(tree.keyCompare, tree.shape)
    ensures Entries(tree) == old(Entries(tree))[node := key]
  {
    NodesAllocated(tree.shape);
    OrderedIsAscending(tree.keyCompare, tree.shape);
    AscendingWithout(tree.keyCompare, tree.Order(), node);
    OthersFresh(tree, node, key);
    ghost var before := Entries(tree);
    ghost var at, dropped;
    at, dropped := Rekey(tree, node, oldKey, key, false);
    EntriesChanged(tree, before, node, key);
  }

  lemma EntriesChanged<K(!new), V>(tree: BTree<K, V>, before: map<Node<K, V>, K>, node: Node<K, V>, key: K)
    requires Nodes(tree.shape) == before.Keys && node in before && node.key == key
    requires forall n :: n in before && n != node ==> n.key == before[n]
    ensures Entries(tree) == before[node := key]
  {
  }

  lemma OthersFresh<K(!new), V>(tree: BTree<K, V>, node: Node<K, V>, key: K)
    requires Fresh(tree.keyCompare, Entries(tree) - {node}, key)
    ensures forall i :: 0 <= i < |OtherKeys(tree, node)| ==> tree.keyCompare(key, OtherKeys(tree, node)[i]) != 0
  {
    var others := Without<Node<K, V>>(tree.Order(), node);
    NodesAreOrder(tree.shape);
    WithoutIsWithin<Node<K, V>>(tree.Order(), node);
    forall i | 0 <= i < |OtherKeys(tree, node)| ensures tree.keyCompare(key, OtherKeys(tree, node)[i]) != 0 {
      assert others[i] in Elements(others);
      assert others[i] in Entries(tree) - {node};
    }
  }

  function RunNodes<K(!new), V>(ops: seq<Op<K, V>>): set<Node<K, V>> {
    if ops == [] then {} else OpNodes(ops[0]) + RunNodes(ops[1..])
  }

  ghost predicate LegalRun<K(!new), V>(cmp: (K, K) -> int, entries: map<Node<K, V>, K>, ops: seq<Op<K, V>>)
    decreases ops
  {
    ops == [] || (Legal(cmp, entries, ops[0]) && LegalRun(cmp, Apply(entries, ops[0]), ops[1..]))
  }

  function ApplyAll<K(!new), V>(entries: map<Node<K, V>, K>, ops: seq<Op<K, V>>): map<Node<K, V>, K>
    decreases ops
  {
    if ops == [] then entries else ApplyAll(Apply(entries, ops[0]), ops[1..])
  }

  method Step<K(!new), V>(tree: BTree<K, V>, op: Op<K, V>)
    requires tree.Valid() && Ordered(tree.keyCompare, tree.shape) && Legal(tree.keyCompare, Entries(tree), op)
    modifies tree`root, tree`shape
    modifies Nodes(tree.shape)`left, Nodes(tree.shape)`right, Nodes(tree.shape)`parent
    modifies Nodes(tree.shape)`btree, Nodes(tree.shape)`key
    modifies OpNodes(op)`left, OpNodes(op)`right, OpNodes(op)`parent, OpNodes(op)`btree, OpNodes(op)`key
    ensures tree.Valid() && Ordered(tree.keyCompare, tree.shape)
    ensures Entries(tree) == Apply(old(Entries(tree)), op)
    ensures Nodes(tree.shape) <= old(Nodes(tree.shape)) + OpNodes(op)
  {
    ghost var before := Entries(tree);
    assert Nodes(tree.shape) == before.Keys;
    match op {
      case Insert(n, k) => DoInsert(tree, n, k);
      case Delete(n) => DoDelete(tree, n);
      case Change(n, o, k) => DoChange(tree, n, o, k);
      case Level => DoLevel(tree);
    }
    EntriesWithin(tree, before, op);
  }

  lemma EntriesWithin<K(!new), V>(tree: BTree<K, V>, before: map<Node<K, V>, K>, op: Op<K, V>)
    requires Entries(tree) == Apply(before, op)
    ensures Nodes(tree.shape) <= before.Keys + OpNodes(op)
  {
    assert Nodes(tree.shape) == Entries(tree).Keys;
  }

  method DoLevel<K(!new), V>(tree: BTree<K, V>)
    requires tree.Valid() && Ordered(tree.keyCompare, tree.shape)
    modifies tree`root, tree`shape, Nodes(tree.shape)`left, Nodes(tree.shape)`right, Nodes(tree.shape)`parent
    ensures tree.Valid() && Ordered(tree.keyCompare, tree.shape)
    ensures Entries(tree) == old(Entries(tree))
  {
    NodesAllocated(tree.shape);
    tree.SortedRebalance(true);
  }

  /** Over any run of additions with fresh keys, removals by node, re-keyings and
      batched rebalancing, the tree holds exactly the entries of a finite map. */
  method Run<K(!new), V>(tree: BTree<K, V>, ops: seq<Op<K, V>>)
    requires tree.Valid() && Ordered(tree.keyCompare, tree.shape)
    requires LegalRun(tree.keyCompare, Entries(tree), ops)
    modifies tree`root, tree`shape
    modifies Nodes(tree.shape)`left, Nodes(tree.shape)`right, Nodes(tree.shape)`parent
    modifies Nodes(tree.shape)`btree, Nodes(tree.shape)`key
    modifies RunNodes(ops)`left, RunNodes(ops)`right, RunNodes(ops)`parent, RunNodes(ops)`btree, RunNodes(ops)`key
    ensures tree.Valid() && Ordered(tree.keyCompare, tree.shape)
    ensures Entries(tree) == ApplyAll(old(Entries(tree)), ops)
    decreases ops
  {
    if ops != [] {
      Step(tree, ops[0]);
      Run(tree, ops[1..]);
    }
  }

  /** After any run, a search finds the entry of the map with that key. */
  method RunAndFind<K(!new), V>(tree: BTree<K, V>, ops: seq<Op<K, V>>, key: K) returns (found: Node?<K, V>)
    requires tree.Valid() && Ordered(tree.keyCompare, tree.shape)
    requires LegalRun(tree.keyCompare, Entries(tree), ops)
    modifies tree`root, tree`shape
    modifies Nodes(tree.shape)`left, Nodes(tree.shape)`right, Nodes(tree.shape)`parent
    modifies Nodes(tree.shape)`btree, Nodes(tree.shape)`key
    modifies RunNodes(ops)`left, RunNodes(ops)`right, RunNodes(ops)`parent, RunNodes(ops)`btree, RunNodes(ops)`key
    ensures var entries := ApplyAll(old(Entries(tree)), ops);
      if found == null then Fresh(tree.keyCompare, entries, key)
      else found in entries && tree.keyCompare(key, entries[found]) == 0
  {
    Run(tree, ops);
    NodesAllocated(tree.shape);
    ghost var entries := Entries(tree);
    ghost var comparisons;
    found, comparisons := tree.Find(key);
    assert Entries(tree) == entries;
  }

  /** A search in a tree of n > 0 entries that has just been rebalanced takes at
      most floor(log2 n) + 1 comparisons, and finds what a look at every entry
      would find. */
  method RebalanceAndFind<K(!new), V>(tree: BTree<K, V>, key: K) returns (found: Node?<K, V>, ghost comparisons: nat)
    requires tree.Valid() && Ordered(tree.keyCompare, tree.shape)
    modifies tree`root, tree`shape, Nodes(tree.shape)`left, Nodes(tree.shape)`right, Nodes(tree.shape)`parent
    ensures tree.Order() == old(tree.Order()) && comparisons <= Digits(|tree.Order()|)
    ensures found != null ==> found in Nodes(tree.shape) && tree.keyCompare(key, found.key) == 0
    ensures found == null ==> forall n :: n in Nodes(tree.shape) ==> tree.keyCompare(key, n.key) != 0
  {
    ghost var at, dropped;
    at, dropped := tree.Add(null, true);
    found, comparisons := tree.Find(key);
    BalancedHeight(tree.shape);
    SizeIsLength(tree.shape);
  }
}
