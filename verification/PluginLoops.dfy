/** Reloading the plugins: all are marked as not seen, those that the database
    names are seen again, and the rest are flushed out of the tree. */
module PluginLoops {
  import opened Rows
  import opened Trees
  import opened BalancedBTree
  import opened FlushLoops

  class Plugin {
    var visited: bool
  }

  function Plugins<K(!new)>(nodes: set<Node<K, Plugin>>): set<Plugin>
  {
    set n | n in nodes :: n.item
  }

  /** `keep` are the nodes of visited plugins, `drop` the others. */
  ghost predicate Marks<K(!new)>(nodes: set<Node<K, Plugin>>, keep: set<Node<K, Plugin>>, drop: set<Node<K, Plugin>>)
    reads set n | n in nodes :: n.item
  {
    && nodes <= keep + drop && keep !! drop
    && forall n :: n in nodes ==> (n in keep <==> n.item.visited)
  }

  ghost predicate Unseen(plugins: set<Plugin>)
    reads plugins`visited
  {
    forall p :: p in plugins ==> !p.visited
  }

  /** Marks every plugin below a node as not seen; `gone` are those marked before. */
  method PluginUnvisitTree<K(!new)>(node: Node?<K, Plugin>, ghost t: Tree<Node<K, Plugin>>,
                                    ghost parent: Node?<K, Plugin>, ghost gone: set<Plugin>)
    returns (ghost marked: set<Plugin>)
    requires node == RootOf(t) && Linked(t, parent) && Unseen(gone)
    modifies Plugins(Nodes(t))`visited
    ensures marked == gone + Plugins(Nodes(t)) && Unseen(marked)
    decreases t
  {
    marked := gone;
    if node != null {
      NodesAllocated(t);
      ghost var l, r := PluginsBelow(t);
      assert Linked(t.right, node) && node.right == RootOf(t.right);
      marked := PluginUnvisitTree(node.left, t.left, node, marked);
      assert Linked(t.right, node) && node.right == RootOf(t.right);
      marked := Unvisit(node.item, marked);
      assert Linked(t.right, node) && node.right == RootOf(t.right);
      marked := PluginUnvisitTree(node.right, t.right, node, marked);
    }
  }

  method Unvisit(plugin: Plugin, ghost gone: set<Plugin>) returns (ghost marked: set<Plugin>)
    requires Unseen(gone)
    modifies plugin`visited
    ensures marked == gone + {plugin} && Unseen(marked)
  {
    plugin.visited := false;
    marked := gone + {plugin};
  }

  lemma PluginsBelow<K(!new)>(t: Tree<Node<K, Plugin>>) returns (l: set<Plugin>, r: set<Plugin>)
    requires t.Branch?
    ensures l == Plugins(Nodes(t.left)) && r == Plugins(Nodes(t.right)) && Plugins(Nodes(t)) == l + {t.node.item} + r
  {
    l, r := Plugins(Nodes(t.left)), Plugins(Nodes(t.right));
  }

  method FlushHere<K(!new)>(tree: BTree<K, Plugin>, node: Node<K, Plugin>,
                            ghost keep: set<Node<K, Plugin>>, ghost drop: set<Node<K, Plugin>>)
    requires tree.Valid() && node in Nodes(tree.shape) && Marks(Nodes(tree.shape), keep, drop)
    modifies tree`root, tree`shape
    modifies Nodes(tree.shape)`left, Nodes(tree.shape)`right, Nodes(tree.shape)`parent, Nodes(tree.shape)`btree
    ensures tree.Valid() && Nodes(tree.shape) <= old(Nodes(tree.shape)) && Marks(Nodes(tree.shape), keep, drop)
    ensures tree.Order() == Without<Node<K, Plugin>>(old(tree.Order()), node)
  {
    NodesAllocated(tree.shape);
    tree.Remove(node, false);
  }

  /** One pass over a subtree, in order: the first plugin not seen is removed,
      which ends the pass. */
  method PluginFlushUnvisited<K(!new)>(tree: BTree<K, Plugin>, node: Node?<K, Plugin>,
                                       ghost c: Context<Node<K, Plugin>>, ghost t: Tree<Node<K, Plugin>>,
                                       ghost keep: set<Node<K, Plugin>>, ghost drop: set<Node<K, Plugin>>)
    returns (flushed: bool)
    requires tree.Valid() && tree.shape == Fill(c, t) && node == RootOf(t)
    requires Marks(Nodes(tree.shape), keep, drop)
    modifies tree`root, tree`shape
    modifies Nodes(tree.shape)`left, Nodes(tree.shape)`right, Nodes(tree.shape)`parent, Nodes(tree.shape)`btree
    ensures tree.Valid() && Nodes(tree.shape) <= old(Nodes(tree.shape)) && Marks(Nodes(tree.shape), keep, drop)
    ensures flushed <==> |Leading(InOrder(t), keep)| < |InOrder(t)|
    ensures !flushed ==> tree.shape == old(tree.shape)
    ensures flushed ==>
      tree.Order() == Without<Node<K, Plugin>>(old(tree.Order()), InOrder(t)[|Leading(InOrder(t), keep)|])
    decreases t, 1
  {
    if node == null {
      return false;
    }
    FillDistinct(c, t);
    FillLinked(c, t, null);
    ghost var l, r := InOrder(t.left), InOrder(t.right);
    WalkStops(l, t.node, r, keep);
    flushed := PluginFlushUnvisited(tree, node.left, LeftOf(c, t.node, t.right), t.left, keep, drop);
    if flushed {
      return;
    }
    if !node.item.visited {
      FlushHere(tree, node, keep, drop);
      return true;
    }
    DistinctIsNoRepeats(t);
    WalkOutcome(l, t.node, r, keep, {});
    flushed := FlushRight(tree, node, c, t, keep, drop);
  }

  method FlushRight<K(!new)>(tree: BTree<K, Plugin>, node: Node<K, Plugin>,
                             ghost c: Context<Node<K, Plugin>>, ghost t: Tree<Node<K, Plugin>>,
                             ghost keep: set<Node<K, Plugin>>, ghost drop: set<Node<K, Plugin>>)
    returns (flushed: bool)
    requires tree.Valid() && tree.shape == Fill(c, t) && t.Branch? && node == t.node
    requires Marks(Nodes(tree.shape), keep, drop)
    modifies tree`root, tree`shape
    modifies Nodes(tree.shape)`left, Nodes(tree.shape)`right, Nodes(tree.shape)`parent, Nodes(tree.shape)`btree
    ensures tree.Valid() && Nodes(tree.shape) <= old(Nodes(tree.shape)) && Marks(Nodes(tree.shape), keep, drop)
    ensures var r := InOrder(t.right);
      && (flushed <==> |Leading(r, keep)| < |r|)
      && (flushed ==> tree.Order() == Without<Node<K, Plugin>>(old(tree.Order()), r[|Leading(r, keep)|]))
    ensures !flushed ==> tree.shape == old(tree.shape)
    decreases t, 0
  {
    FillDistinct(c, t);
    FillLinked(c, t, null);
    flushed := PluginFlushUnvisited(tree, node.right, RightOf(c, t.left, node), t.right, keep, drop);
  }

  /** One pass over the whole tree, by what it does to the order. */
  method FlushOnce<K(!new)>(tree: BTree<K, Plugin>, ghost keep: set<Node<K, Plugin>>, ghost drop: set<Node<K, Plugin>>)
    returns (flushed: bool)
    requires tree.Valid() && Marks(Nodes(tree.shape), keep, drop)
    modifies tree`root, tree`shape
    modifies Nodes(tree.shape)`left, Nodes(tree.shape)`right, Nodes(tree.shape)`parent, Nodes(tree.shape)`btree
    ensures tree.Valid() && Nodes(tree.shape) <= old(Nodes(tree.shape)) && Marks(Nodes(tree.shape), keep, drop)
    ensures Pick(tree.Order(), keep) == Pick(old(tree.Order()), keep)
    ensures |Pick(tree.Order(), drop)| == |Pick(old(tree.Order()), drop)| - if flushed then 1 else 0
    ensures !flushed ==> Pick(tree.Order(), keep) == tree.Order() && Pick(tree.Order(), drop) == []
  {
    ghost var s := tree.Order();
    DistinctIsNoRepeats(tree.shape);
    NodesAreOrder(tree.shape);
    flushed := PluginFlushUnvisited(tree, tree.root, Top, tree.shape, keep, drop);
    if flushed {
      OnePass(s, keep, drop, {});
    } else {
      LastPass(s, keep, drop, {});
    }
  }

  /** The reload loop ends after one pass for each plugin not seen again and one
      more, with the others in their old order and the tree balanced. */
  method FlushAll<K(!new)>(tree: BTree<K, Plugin>, ghost keep: set<Node<K, Plugin>>, ghost drop: set<Node<K, Plugin>>)
    returns (ghost passes: nat)
    requires tree.Valid() && Marks(Nodes(tree.shape), keep, drop)
    modifies tree`root, tree`shape
    modifies Nodes(tree.shape)`left, Nodes(tree.shape)`right, Nodes(tree.shape)`parent, Nodes(tree.shape)`btree
    ensures tree.Valid() && Balanced(tree.shape) && tree.Order() == Pick(old(tree.Order()), keep)
    ensures passes == |Pick(old(tree.Order()), drop)| + 1
  {
    passes := 0;
    var flushed := true;
    while flushed
      invariant tree.Valid() && Nodes(tree.shape) <= old(Nodes(tree.shape)) && Marks(Nodes(tree.shape), keep, drop)
      invariant Pick(tree.Order(), keep) == Pick(old(tree.Order()), keep)
      invariant passes + |Pick(tree.Order(), drop)| == |Pick(old(tree.Order()), drop)| + if flushed then 0 else 1
      invariant !flushed ==> Pick(tree.Order(), keep) == tree.Order() && Pick(tree.Order(), drop) == []
      decreases flushed, |Pick(tree.Order(), drop)|
    {
      flushed := FlushOnce(tree, keep, drop);
      passes := passes + 1;
    }
    ghost var at, dropped;
    at, dropped := tree.Add(null, true);
  }
}
