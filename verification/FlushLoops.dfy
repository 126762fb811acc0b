/** Reloading: entries that were not seen again are flushed out of a tree. Every
    removal reshapes the tree under the walk, so the walk restarts at the root
    until one pass removes nothing. */
module FlushLoops {
  import opened Rows
  import opened Trees
  import opened BalancedBTree

  /** A row whose first entry outside `keep` is `x`. */
  lemma FlushFirst<T>(p: seq<T>, x: T, q: seq<T>, keep: set<T>, drop: set<T>)
    requires NoRepeats(p + [x] + q) && Pick(p, keep) == p && Pick(p, drop) == [] && x in drop && x !in keep
    ensures var s, s' := p + [x] + q, Without(p + [x] + q, x);
      && s' == p + q
      && Pick(s', keep) == Pick(s, keep) == p + Pick(q, keep)
      && Pick(s, drop) == [x] + Pick(s', drop)
  {
    WithoutOne(p, x, q);
    PickAround(p, x, q, keep);
    PickAround(p, x, q, drop);
    PickConcat(p, q, keep);
    PickConcat(p, q, drop);
  }

  /** What has been started at the front need not be started again. */
  lemma StartRest<T>(p: seq<T>, k: seq<T>, todo: set<T>)
    requires Elements(p) !! Elements(k)
    ensures Pick(p, todo) + Pick(p + k, todo - Elements(Pick(p, todo))) == Pick(p + k, todo)
  {
    var started := Elements(Pick(p, todo));
    PickWithin(p, todo);
    PickConcat(p, k, todo);
    PickConcat(p, k, todo - started);
    PickNothing(p, todo - started);
    PickIgnores(k, todo, started);
  }

  lemma OnePass<T>(s: seq<T>, keep: set<T>, drop: set<T>, todo: set<T>)
    requires NoRepeats(s) && keep !! drop && Elements(s) <= keep + drop && |Leading(s, keep)| < |s|
    ensures var x, started := s[|Leading(s, keep)|], Pick(Leading(s, keep), todo);
      && x in drop
      && Pick(Without(s, x), keep) == Pick(s, keep)
      && Pick(s, drop) == [x] + Pick(Without(s, x), drop)
      && started + Pick(Pick(s, keep), todo - Elements(started)) == Pick(Pick(s, keep), todo)
  {
    var p := Leading(s, keep);
    var x, q := s[|p|], s[|p| + 1..];
    LeadingSplits(s, keep);
    assert s == p + [x] + q;
    assert x in Elements(s);
    PickNothing(p, drop);
    FlushFirst(p, x, q, keep, drop);
    NoRepeatsApart(p, x, q);
    PickWithin(q, keep);
    ApartElements(p, q);
    StartRest(p, Pick(q, keep), todo);
  }

  lemma ApartElements<T>(a: seq<T>, b: seq<T>)
    requires forall y :: y in a ==> y !in b
    ensures Elements(a) !! Elements(b)
  {
  }

  // ----- the server tree -----

  class Server {
    var visited: bool
    var newServer: bool
    var enabled: bool
  }

  /** How the flags of the linked servers look from outside: `keep` are the nodes
      of visited servers, `drop` the others, and `todo` those to be started. */
  ghost predicate Flags<K(!new)>(nodes: set<Node<K, Server>>, servers: set<Server>, keep: set<Node<K, Server>>,
                                 drop: set<Node<K, Server>>, todo: set<Node<K, Server>>)
    reads servers
  {
    && nodes <= keep + drop && keep !! drop
    && (forall n :: n in nodes ==> n.item in servers)
    && (forall n :: n in nodes ==> (n in keep <==> n.item.visited))
    && (forall n :: n in nodes ==> (n in todo <==> n.item.newServer && n.item.enabled))
    && (forall m, n :: m in nodes && n in nodes && m.item == n.item ==> m == n)
  }

  /** A walk over `l`, `x`, `r` in order stops early ... */
  lemma WalkStops<T>(l: seq<T>, x: T, r: seq<T>, keep: set<T>)
    ensures var s, p := l + [x] + r, Leading(l, keep);
      && (|p| < |l| ==> Leading(s, keep) == p && l[|p|] == s[|p|])
      && (|p| == |l| && x !in keep ==> Leading(s, keep) == p && s[|p|] == x)
  {
    assert l + [x] + r == l + ([x] + r);
    LeadingConcat(l, [x] + r, keep);
    if x !in keep {
      assert Leading([x] + r, keep) == [];
    }
  }

  /** ... or gets past `x`. */
  lemma WalkGoesOn<T>(l: seq<T>, x: T, r: seq<T>, keep: set<T>)
    requires |Leading(l, keep)| == |l| && x in keep
    ensures Leading(l + [x] + r, keep) == l + [x] + Leading(r, keep)
  {
    var m := [x] + r;
    calc {
      Leading(l + [x] + r, keep);
      { assert l + [x] + r == l + m; }
      Leading(l + m, keep);
      { LeadingConcat(l, m, keep); }
      l + Leading(m, keep);
      { assert m[0] == x && m[1..] == r; }
      l + ([x] + Leading(r, keep));
    }
  }

  lemma IndexBeyond<T>(l: seq<T>, x: T, r: seq<T>, k: nat)
    requires k < |r|
    ensures (l + [x] + r)[|l| + 1 + k] == r[k]
  {
  }

  /** What a walk starts, piece by piece. */
  lemma WalkStarts<T>(l: seq<T>, x: T, q: seq<T>, todo: set<T>)
    requires Elements(l) + {x} !! Elements(q) && x !in l
    ensures var now := Pick(l, todo);
      var first := if x in todo - Elements(now) then [x] else [];
      Pick(l + [x] + q, todo) == now + (first + Pick(q, todo - Elements(now) - Elements(first)))
  {
    var now := Pick(l, todo);
    PickWithin(l, todo);
    assert x !in Elements(now);
    PickAround(l, x, q, todo);
    var first := if x in todo then [x] else [];
    StartsNothing(q, todo, Elements(now), Elements(first));
    Reassociate(now, first, Pick(q, todo));
  }

  lemma StartsNothing<T>(q: seq<T>, todo: set<T>, a: set<T>, b: set<T>)
    requires a + b !! Elements(q)
    ensures Pick(q, todo - a - b) == Pick(q, todo)
  {
    assert todo - a - b == todo - (a + b);
    PickIgnores(q, todo, a + b);
  }

  lemma WalkOutcome<T>(l: seq<T>, x: T, r: seq<T>, keep: set<T>, todo: set<T>)
    requires NoRepeats(l + [x] + r) && |Leading(l, keep)| == |l| && x in keep
    ensures var s, q, now := l + [x] + r, Leading(r, keep), Pick(Leading(l, keep), todo);
      var first := if x in todo - Elements(now) then [x] else [];
      && Pick(Leading(s, keep), todo) == now + (first + Pick(q, todo - Elements(now) - Elements(first)))
      && |Leading(s, keep)| == |l| + 1 + |q| && (|q| < |r| ==> s[|Leading(s, keep)|] == r[|q|])
  {
    var q := Leading(r, keep);
    LeadingConcat(l, [x] + r, keep);
    WalkGoesOn(l, x, r, keep);
    WalkApart(l, x, r, keep);
    WalkStarts(l, x, q, todo);
    if |q| < |r| {
      IndexBeyond(l, x, r, |q|);
    }
  }

  lemma WalkApart<T>(l: seq<T>, x: T, r: seq<T>, keep: set<T>)
    requires NoRepeats(l + [x] + r)
    ensures Elements(l) + {x} !! Elements(Leading(r, keep)) && x !in l
  {
    NoRepeatsApart(l, x, r);
    ApartElements(l, r);
    LeadingSplits(r, keep);
    assert Elements(Leading(r, keep)) <= Elements(r);
    assert x !in Elements(r);
  }

  /** A server that is new and enabled is started, and is new no more. */
  method ServerStart<K(!new)>(tree: BTree<K, Server>, node: Node<K, Server>, ghost servers: set<Server>,
                              ghost keep: set<Node<K, Server>>, ghost drop: set<Node<K, Server>>,
                              ghost todo: set<Node<K, Server>>)
    returns (ghost started: seq<Node<K, Server>>)
    requires tree.Valid() && node in Nodes(tree.shape) && Flags(Nodes(tree.shape), servers, keep, drop, todo)
    modifies servers`newServer
    ensures started == if node in todo then [node] else []
    ensures tree.Valid() && Flags(Nodes(tree.shape), servers, keep, drop, todo - Elements(started))
  {
    started := [];
    if node.item.newServer && node.item.enabled {
      node.item.newServer := false;
      started := [node];
    }
  }

  method FlushHere<K(!new)>(tree: BTree<K, Server>, node: Node<K, Server>, ghost servers: set<Server>,
                            ghost keep: set<Node<K, Server>>, ghost drop: set<Node<K, Server>>,
                            ghost todo: set<Node<K, Server>>)
    requires tree.Valid() && node in Nodes(tree.shape) && Flags(Nodes(tree.shape), servers, keep, drop, todo)
    modifies tree`root, tree`shape
    modifies Nodes(tree.shape)`left, Nodes(tree.shape)`right, Nodes(tree.shape)`parent, Nodes(tree.shape)`btree
    ensures tree.Valid() && Nodes(tree.shape) <= old(Nodes(tree.shape))
    ensures Flags(Nodes(tree.shape), servers, keep, drop, todo)
    ensures tree.Order() == Without<Node<K, Server>>(old(tree.Order()), node)
  {
    NodesAllocated(tree.shape);
    tree.Remove(node, false);
  }

  /** One pass over a subtree, in order: a visited server that is new and enabled
      is started; the first unvisited one is removed, which ends the pass. */
  method ServerFlushUnvisited<K(!new)>(tree: BTree<K, Server>, node: Node?<K, Server>,
                                       ghost c: Context<Node<K, Server>>, ghost t: Tree<Node<K, Server>>,
                                       ghost servers: set<Server>, ghost keep: set<Node<K, Server>>,
                                       ghost drop: set<Node<K, Server>>, ghost todo: set<Node<K, Server>>)
    returns (flushed: bool, ghost started: seq<Node<K, Server>>)
    requires tree.Valid() && tree.shape == Fill(c, t) && node == RootOf(t)
    requires Flags(Nodes(tree.shape), servers, keep, drop, todo)
    modifies tree`root, tree`shape, servers`newServer
    modifies Nodes(tree.shape)`left, Nodes(tree.shape)`right, Nodes(tree.shape)`parent, Nodes(tree.shape)`btree
    ensures tree.Valid()
    ensures started == Pick(Leading(InOrder(t), keep), todo)
    ensures flushed <==> |Leading(InOrder(t), keep)| < |InOrder(t)|
    ensures !flushed ==> tree.shape == old(tree.shape)
    ensures flushed ==>
      tree.Order() == Without<Node<K, Server>>(old(tree.Order()), InOrder(t)[|Leading(InOrder(t), keep)|])
    ensures Nodes(tree.shape) <= old(Nodes(tree.shape))
    ensures Flags(Nodes(tree.shape), servers, keep, drop, todo - Elements(started))
    decreases t, 1
  {
    if node == null {
      return false, [];
    }
    FillDistinct(c, t);
    FillLinked(c, t, null);
    DistinctIsNoRepeats(t);
    ghost var l, r := InOrder(t.left), InOrder(t.right);
    WalkStops(l, t.node, r, keep);
    flushed, started := ServerFlushUnvisited(tree, node.left, LeftOf(c, t.node, t.right), t.left, servers, keep, drop,
      todo);
    if flushed {
      return;
    }
    if !node.item.visited {
      FlushHere(tree, node, servers, keep, drop, todo - Elements(started));
      flushed := true;
      return;
    }
    ghost var here;
    flushed, here := FlushOnwards(tree, node, c, t, servers, keep, drop, todo - Elements(started));
    WalkOutcome(l, t.node, r, keep, todo);
    started := started + here;
  }

  /** The pass goes on with a visited server and what lies to its right. */
  method FlushOnwards<K(!new)>(tree: BTree<K, Server>, node: Node<K, Server>,
                               ghost c: Context<Node<K, Server>>, ghost t: Tree<Node<K, Server>>,
                               ghost servers: set<Server>, ghost keep: set<Node<K, Server>>,
                               ghost drop: set<Node<K, Server>>, ghost todo: set<Node<K, Server>>)
    returns (flushed: bool, ghost started: seq<Node<K, Server>>)
    requires tree.Valid() && tree.shape == Fill(c, t) && t.Branch? && node == t.node
    requires Flags(Nodes(tree.shape), servers, keep, drop, todo)
    modifies tree`root, tree`shape, servers`newServer
    modifies Nodes(tree.shape)`left, Nodes(tree.shape)`right, Nodes(tree.shape)`parent, Nodes(tree.shape)`btree
    ensures tree.Valid() && Nodes(tree.shape) <= old(Nodes(tree.shape))
    ensures var first, r := if node in todo then [node] else [], InOrder(t.right);
      && started == first + Pick(Leading(r, keep), todo - Elements(first))
      && (flushed <==> |Leading(r, keep)| < |r|)
      && (flushed ==> tree.Order() == Without<Node<K, Server>>(old(tree.Order()), r[|Leading(r, keep)|]))
    ensures !flushed ==> tree.shape == old(tree.shape)
    ensures Flags(Nodes(tree.shape), servers, keep, drop, todo - Elements(started))
    decreases t, 0
  {
    FillDistinct(c, t);
    FillLinked(c, t, null);
    started := ServerStart(tree, node, servers, keep, drop, todo);
    ghost var more;
    flushed, more := ServerFlushUnvisited(tree, node.right, RightOf(c, t.left, node), t.right,
                                          servers, keep, drop, todo - Elements(started));
    started := started + more;
  }

  lemma LastPass<T>(s: seq<T>, keep: set<T>, drop: set<T>, todo: set<T>)
    requires keep !! drop && |Leading(s, keep)| == |s|
    ensures Leading(s, keep) == s && Pick(s, keep) == s && Pick(s, drop) == []
    ensures Pick(s, todo - Elements(Pick(s, todo))) == []
  {
    LeadingSplits(s, keep);
    assert s == s[..|s|];
    PickNothing(s, drop);
    PickWithin(s, todo);
    PickNothing(s, todo - Elements(Pick(s, todo)));
  }

  /** One pass over the whole tree, by what it does to the order. */
  method FlushOnce<K(!new)>(tree: BTree<K, Server>, ghost servers: set<Server>, ghost keep: set<Node<K, Server>>,
                            ghost drop: set<Node<K, Server>>, ghost todo: set<Node<K, Server>>)
    returns (flushed: bool, ghost started: seq<Node<K, Server>>)
    requires tree.Valid() && Flags(Nodes(tree.shape), servers, keep, drop, todo)
    modifies tree`root, tree`shape, servers`newServer
    modifies Nodes(tree.shape)`left, Nodes(tree.shape)`right, Nodes(tree.shape)`parent, Nodes(tree.shape)`btree
    ensures tree.Valid() && Nodes(tree.shape) <= old(Nodes(tree.shape))
    ensures Flags(Nodes(tree.shape), servers, keep, drop, todo - Elements(started))
    ensures Pick(tree.Order(), keep) == Pick(old(tree.Order()), keep)
    ensures |Pick(tree.Order(), drop)| == |Pick(old(tree.Order()), drop)| - if flushed then 1 else 0
    ensures started + Pick(Pick(tree.Order(), keep), todo - Elements(started))
      == Pick(Pick(old(tree.Order()), keep), todo)
    ensures !flushed ==> Pick(tree.Order(), keep) == tree.Order()
    ensures !flushed ==>
      Pick(tree.Order(), drop) == [] && Pick(Pick(tree.Order(), keep), todo - Elements(started)) == []
  {
    ghost var s := tree.Order();
    DistinctIsNoRepeats(tree.shape);
    NodesAreOrder(tree.shape);
    flushed, started := ServerFlushUnvisited(tree, tree.root, Top, tree.shape, servers, keep, drop, todo);
    if flushed {
      OnePass(s, keep, drop, todo);
    } else {
      LastPass(s, keep, drop, todo);
    }
  }

  /** The reload loop on the servers. Restarting after every removal loses and
      repeats nothing: the visited servers stay in order, the others go, one a
      pass, and each visited server that is new and enabled is started once. */
  method MainSighup<K(!new)>(tree: BTree<K, Server>, ghost servers: set<Server>, ghost keep: set<Node<K, Server>>,
                             ghost drop: set<Node<K, Server>>, ghost todo: set<Node<K, Server>>)
    returns (ghost started: seq<Node<K, Server>>, ghost passes: nat)
    requires tree.Valid() && Flags(Nodes(tree.shape), servers, keep, drop, todo)
    modifies tree`root, tree`shape, servers`newServer
    modifies Nodes(tree.shape)`left, Nodes(tree.shape)`right, Nodes(tree.shape)`parent, Nodes(tree.shape)`btree
    ensures tree.Valid() && Balanced(tree.shape)
    ensures tree.Order() == Pick(old(tree.Order()), keep)
    ensures started == Pick(Pick(old(tree.Order()), keep), todo)
    ensures passes == |Pick(old(tree.Order()), drop)| + 1
  {
    started, passes := [], 0;
    var flushed := true;
    ghost var todoNow := todo;
    while flushed
      invariant tree.Valid() && Nodes(tree.shape) <= old(Nodes(tree.shape))
      invariant Flags(Nodes(tree.shape), servers, keep, drop, todoNow)
      invariant Pick(tree.Order(), keep) == Pick(old(tree.Order()), keep)
      invariant started + Pick(Pick(tree.Order(), keep), todoNow) == Pick(Pick(old(tree.Order()), keep), todo)
      invariant passes + |Pick(tree.Order(), drop)| == |Pick(old(tree.Order()), drop)| + if flushed then 0 else 1
      invariant !flushed ==>
        && Pick(tree.Order(), keep) == tree.Order() && Pick(tree.Order(), drop) == []
        && Pick(Pick(tree.Order(), keep), todoNow) == []
      decreases flushed, |Pick(tree.Order(), drop)|
    {
      ghost var more;
      flushed, more := FlushOnce(tree, servers, keep, drop, todoNow);
      todoNow, started, passes := todoNow - Elements(more), started + more, passes + 1;
    }
    ghost var at, dropped;
    at, dropped := tree.Add(null, true);
  }
}
