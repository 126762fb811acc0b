/** The weight-balanced search tree: linked nodes with parent pointers.
    `shape` is the tree the links spell out; every operation states the new
    shape or the new in-order sequence as a function of the old one. */
module BalancedBTree {
  import opened Rows
  import opened Trees

  // ----- keys -----

  /** What a comparison function must be for keys to be in an order. Keys that
      compare equal need not be the same, as with names that differ in case. */
  ghost predicate IsOrder<K(!new)>(cmp: (K, K) -> int) {
    && (forall a, b {:trigger Below(cmp, a, b)} :: Below(cmp, a, b) <==> cmp(b, a) > 0)
    && (forall a, b, c :: !Below(cmp, b, a) && !Below(cmp, c, b) ==> !Below(cmp, c, a))
  }

  predicate Below<K>(cmp: (K, K) -> int, a: K, b: K) {
    cmp(a, b) < 0
  }

  lemma AtMostThrough<K(!new)>(cmp: (K, K) -> int, a: K, b: K, c: K)
    requires IsOrder(cmp) && cmp(a, b) <= 0 && cmp(b, c) <= 0
    ensures cmp(a, c) <= 0
    ensures cmp(a, b) < 0 || cmp(b, c) < 0 ==> cmp(a, c) < 0
  {
    assert !Below(cmp, b, a) && !Below(cmp, c, b);
    assert !Below(cmp, c, a);
    assert Below(cmp, a, b) || Below(cmp, b, c) ==> Below(cmp, a, c);
  }

  lemma Flipped<K(!new)>(cmp: (K, K) -> int, a: K, b: K)
    requires IsOrder(cmp)
    ensures cmp(a, b) < 0 <==> cmp(b, a) > 0
    ensures cmp(a, b) <= 0 <==> cmp(b, a) >= 0
    ensures cmp(a, b) == 0 <==> cmp(b, a) == 0
  {
    assert Below(cmp, a, b) <==> cmp(b, a) > 0;
    assert Below(cmp, b, a) <==> cmp(a, b) > 0;
  }

  class Node<K(!new), V> {
    var left: Node?<K, V>
    var right: Node?<K, V>
    var parent: Node?<K, V>
    const item: V
    var key: K
    var btree: BTree?<K, V>

    constructor (item: V, key: K)
      ensures left == null && right == null && parent == null && btree == null
      ensures this.item == item && this.key == key
    {
      left, right, parent, btree := null, null, null, null;
      this.item, this.key := item, key;
    }
  }

  // ----- how links spell out a shape -----

  function RootOf<K(!new), V>(t: Tree<Node<K, V>>): Node?<K, V> {
    if t.Leaf? then null else t.node
  }

  ghost predicate Linked<K(!new), V>(t: Tree<Node<K, V>>, parent: Node?<K, V>)
    reads Nodes(t)`left, Nodes(t)`right, Nodes(t)`parent
  {
    match t
    case Leaf => true
    case Branch(l, x, r) =>
      x.left == RootOf(l) && x.right == RootOf(r) && x.parent == parent && Linked(l, x) && Linked(r, x)
  }

  /** The parent of whatever stands in the hole. */
  function HoleParent<K(!new), V>(c: Context<Node<K, V>>, top: Node?<K, V>): Node?<K, V> {
    if c.Top? then top else c.node
  }

  /** The topmost node once `hole` stands in the hole. */
  function TopOf<K(!new), V>(c: Context<Node<K, V>>, hole: Node?<K, V>): Node?<K, V> {
    if c.Top? then hole else TopOf(c.up, c.node)
  }

  /** The nodes of a context whose parent lies inside the context. */
  function Lower<K(!new), V>(c: Context<Node<K, V>>): set<Node<K, V>> {
    if c.Top? then {} else ContextNodes(c) - {TopOf(c, null)}
  }

  /** The links of a context, all but the parent of its topmost node. */
  ghost predicate Spine<K(!new), V>(c: Context<Node<K, V>>, hole: Node?<K, V>)
    requires DistinctContext(c)
    reads ContextNodes(c)`left, ContextNodes(c)`right, Lower(c)`parent
  {
    TopInside(c);
    if c.Top? then
      true
    else
      var side := if c.LeftOf? then c.right else c.left;
      TopInside(c.up);
      && c.node.left == (if c.LeftOf? then hole else RootOf(side))
      && c.node.right == (if c.LeftOf? then RootOf(side) else hole)
      && Linked(side, c.node)
      && (!c.up.Top? ==> c.node.parent == c.up.node)
      && Spine(c.up, c.node)
  }

  lemma {:induction false} TopInside<K(!new), V>(c: Context<Node<K, V>>)
    ensures !c.Top? ==> TopOf(c, null) in ContextNodes(c)
  {
    if !c.Top? && !c.up.Top? {
      TopInside(c.up);
    }
  }

  /** The topmost node of a context hangs under `top`. */
  ghost predicate Hung<K(!new), V>(c: Context<Node<K, V>>, top: Node?<K, V>)
    reads ContextNodes(c)`parent
  {
    TopInside(c);
    !c.Top? ==> TopOf(c, null).parent == top
  }

  ghost predicate LinkedContext<K(!new), V>(c: Context<Node<K, V>>, top: Node?<K, V>, hole: Node?<K, V>)
    requires DistinctContext(c)
    reads ContextNodes(c)`left, ContextNodes(c)`right, ContextNodes(c)`parent
  {
    Spine(c, hole) && Hung(c, top)
  }

  lemma {:induction false} Outside<K(!new), V>(c: Context<Node<K, V>>, x: Node<K, V>)
    requires !c.Top? && x !in ContextNodes(c)
    ensures x != c.node && x !in ContextNodes(c.up) && x !in Lower(c.up)
    ensures x !in Nodes(if c.LeftOf? then c.right else c.left)
  {
  }

  lemma {:induction false} FillLinked<K(!new), V>(c: Context<Node<K, V>>, t: Tree<Node<K, V>>, top: Node?<K, V>)
    requires DistinctContext(c)
    ensures Linked(Fill(c, t), top) <==> LinkedContext(c, top, RootOf(t)) && Linked(t, HoleParent(c, top))
    ensures RootOf(Fill(c, t)) == TopOf(c, RootOf(t))
  {
    match c
    case Top =>
    case LeftOf(up, x, r) => FillLinked(up, Branch(t, x, r), top);
    case RightOf(up, l, x) => FillLinked(up, Branch(l, x, t), top);
  }

  lemma {:induction false} NodesAllocated<K(!new), V>(t: Tree<Node<K, V>>)
    ensures forall n | n in Nodes(t) :: allocated(n)
  {
    if t.Branch? {
      NodesAllocated(t.left);
      NodesAllocated(t.right);
    }
  }

  lemma PlaceAllocated<K(!new), V>(c: Context<Node<K, V>>, t: Tree<Node<K, V>>)
    ensures forall n | n in ContextNodes(c) :: allocated(n)
    ensures forall n | n in Nodes(t) :: allocated(n)
  {
    FillDistinct(c, t);
    NodesAllocated(Fill(c, t));
  }

  // ----- walks -----

  method FindGreatest<K(!new), V>(start: Node?<K, V>, ghost t: Tree<Node<K, V>>, ghost parent: Node?<K, V>)
    returns (prev: Node?<K, V>)
    requires start == RootOf(t) && Linked(t, parent)
    ensures prev == if t.Leaf? then null else Greatest(t)
  {
    prev := null;
    var root := start;
    ghost var cur, above := t, parent;
    while root != null
      invariant root == RootOf(cur) && Linked(cur, above)
      invariant t.Leaf? ==> prev == null && cur.Leaf?
      invariant t.Branch? ==> Greatest(t) == if cur.Branch? then Greatest(cur) else prev
      decreases cur
    {
      prev := root;
      root := root.right;
      cur, above := cur.right, prev;
    }
  }

  method FindLeast<K(!new), V>(start: Node?<K, V>, ghost t: Tree<Node<K, V>>, ghost parent: Node?<K, V>)
    returns (prev: Node?<K, V>)
    requires start == RootOf(t) && Linked(t, parent)
    ensures prev == if t.Leaf? then null else Least(t)
  {
    prev := null;
    var root := start;
    ghost var cur, above := t, parent;
    while root != null
      invariant root == RootOf(cur) && Linked(cur, above)
      invariant t.Leaf? ==> prev == null && cur.Leaf?
      invariant t.Branch? ==> Least(t) == if cur.Branch? then Least(cur) else prev
      decreases cur
    {
      prev := root;
      root := root.left;
      cur, above := cur.left, prev;
    }
  }

  function Weight<K(!new), V>(root: Node?<K, V>, ghost t: Tree<Node<K, V>>, ghost parent: Node?<K, V>): (res: nat)
    requires root == RootOf(t) && Linked(t, parent)
    reads Nodes(t)`left, Nodes(t)`right, Nodes(t)`parent
    ensures res == Size(t)
    decreases t
  {
    if root == null then 0
    else
      1 + (if root.left != null then Weight(root.left, t.left, root) else 0)
        + (if root.right != null then Weight(root.right, t.right, root) else 0)
  }

  /** The first of a row that meets a condition. */
  function FirstOf<K(!new), V>(s: seq<Node<K, V>>, cond: V -> bool): Node?<K, V>
  {
    if s == [] then null else if cond(s[0].item) then s[0] else FirstOf(s[1..], cond)
  }

  lemma {:induction false} FirstOfJoin<K(!new), V>(a: seq<Node<K, V>>, b: seq<Node<K, V>>, cond: V -> bool)
    ensures FirstOf(a + b, cond) == if FirstOf(a, cond) != null then FirstOf(a, cond) else FirstOf(b, cond)
  {
    if a == [] {
      assert a + b == b;
    } else {
      assert (a + b)[1..] == a[1..] + b;
      FirstOfJoin(a[1..], b, cond);
    }
  }

  lemma FirstOfBranch<K(!new), V>(t: Tree<Node<K, V>>, cond: V -> bool)
    requires t.Branch?
    ensures var l, r := FirstOf(InOrder(t.left), cond), FirstOf(InOrder(t.right), cond);
      FirstOf(InOrder(t), cond) == if l != null then l else if cond(t.node.item) then t.node else r
  {
    FirstOfJoin(InOrder(t.left) + [t.node], InOrder(t.right), cond);
    FirstOfJoin(InOrder(t.left), [t.node], cond);
    assert [t.node][1..] == [];
  }

  /** The least node that meets a condition, without looking at the keys. */
  function FindLeastCond<K(!new), V>(node: Node?<K, V>, condFunc: V -> bool, ghost t: Tree<Node<K, V>>,
                                     ghost parent: Node?<K, V>)
    : (least: Node?<K, V>)
    requires node == RootOf(t) && Linked(t, parent)
    reads Nodes(t)`left, Nodes(t)`right, Nodes(t)`parent
    ensures least == FirstOf(InOrder(t), condFunc)
    decreases t
  {
    if node == null then null
    else
      assert Elements(InOrder(t)) == Elements(InOrder(t.left)) + {node} + Elements(InOrder(t.right));
      FirstOfBranch(t, condFunc);
      var least := FindLeastCond(node.left, condFunc, t.left, node);
      if least != null then least
      else if condFunc(node.item) then node
      else FindLeastCond(node.right, condFunc, t.right, node)
  }

  // ----- taking an extreme node out of the line below `above` -----

  /** What is known about an extreme node `x` found below `above`: the only
      subtree it can have is `rest`. */
  ghost predicate InLine<K(!new), V>(above: Context<Node<K, V>>, x: Node<K, V>, rest: Tree<Node<K, V>>)
    reads ContextNodes(above)`left, ContextNodes(above)`right, Lower(above)`parent
    reads Nodes(rest)`left, Nodes(rest)`right, Nodes(rest)`parent
  {
    && DistinctContext(above) && Distinct(rest) && ContextNodes(above) !! Nodes(rest)
    && x !in ContextNodes(above) && x !in Nodes(rest)
    && Spine(above, x) && Linked(rest, x)
  }

  /** The greatest node leaves its place to its left subtree. */
  method BypassGreatest<K(!new), V>(parent: Node<K, V>, item: Node<K, V>, left: Node?<K, V>,
                                    ghost above: Context<Node<K, V>>, ghost rest: Tree<Node<K, V>>)
    requires InLine(above, item, rest) && above.RightOf? && above.node == parent && left == RootOf(rest)
    modifies parent`right, Nodes(rest)`parent
    ensures Spine(above, left) && Linked(rest, parent)
  {
    parent.right := left;
    if left != null {
      Outside(above, left);
      left.parent := parent;
    }
  }

  /** The least node leaves its place to its right subtree. */
  method BypassLeast<K(!new), V>(parent: Node<K, V>, item: Node<K, V>, right: Node?<K, V>,
                                 ghost above: Context<Node<K, V>>, ghost rest: Tree<Node<K, V>>)
    requires InLine(above, item, rest) && above.LeftOf? && above.node == parent && right == RootOf(rest)
    modifies parent`left, Nodes(rest)`parent
    ensures Spine(above, right) && Linked(rest, parent)
  {
    parent.left := right;
    if right != null {
      Outside(above, right);
      right.parent := parent;
    }
  }

  /** The line below `from.left`, which ends in `item`, comes to hang below `item`. */
  method TakeLeft<K(!new), V>(from: Node<K, V>, item: Node<K, V>,
                              ghost above: Context<Node<K, V>>, ghost rest: Tree<Node<K, V>>)
    requires InLine(above, item, rest) && item.left == RootOf(rest) && from.left == TopOf(above, item)
    modifies item`left, ContextNodes(above)`parent
    ensures InLine(above, item, rest) && Hung(above, item)
    ensures item.left == TopOf(above, RootOf(rest))
  {
    TopInside(above);
    if from.left != item {
      item.left := from.left;
      assert Spine(above, item);
      if item.left != null {
        assert item.left == TopOf(above, null) && item.left !in Lower(above);
        item.left.parent := item;
        assert Spine(above, item);
      }
    }
  }

  method LiftGreatest<K(!new), V>(root: Node<K, V>, item: Node<K, V>, ghost half: Tree<Node<K, V>>,
                                  ghost above: Context<Node<K, V>>, ghost rest: Tree<Node<K, V>>)
    requires Distinct(half) && root !in Nodes(half) && root.left == RootOf(half) && Linked(half, root)
    requires half == Fill(above, Branch(rest, item, Leaf))
    modifies root`left, root`parent, item`left, item`right, item`parent, ContextNodes(above)`parent
    ensures InLine(above, item, rest) && Hung(above, item) && item.left == TopOf(above, RootOf(rest))
    ensures item.right == root && item.parent == old(root.parent)
    ensures root.left == null && root.parent == item
  {
    FillDistinct(above, Branch(rest, item, Leaf));
    FillLinked(above, Branch(rest, item, Leaf), root);
    assert item !in Lower(above) && root !in Lower(above);
    item.parent := root.parent;
    item.right := root;
    assert InLine(above, item, rest);
    TakeLeft(root, item, above, rest);
    root.parent := item;
    root.left := null;
    assert InLine(above, item, rest);
  }

  /** The greatest node of the left half becomes the parent of the root. */
  method RaiseGreatest<K(!new), V>(root: Node<K, V>, ghost half: Tree<Node<K, V>>) returns (item: Node<K, V>)
    requires Distinct(half) && root !in Nodes(half) && root.left == RootOf(half) && Linked(half, root) && half.Branch?
    modifies root`left, root`parent, Nodes(half)`left, Nodes(half)`right, Nodes(half)`parent
    ensures item == Greatest(half)
    ensures Linked(DropGreatest(half), item) && item.left == RootOf(DropGreatest(half))
    ensures item.right == root && item.parent == old(root.parent)
    ensures root.left == null && root.parent == item
  {
    NodesAllocated(half);
    item := FindGreatest(root.left, half, root);
    ghost var above, rest := LocateGreatest(Top, half);
    FillDistinct(above, Branch(rest, item, Leaf));
    FillLinked(above, Branch(rest, item, Leaf), root);
    var left := item.left;
    var parent := item.parent;
    LiftGreatest(root, item, half, above, rest);
    TopInside(above);
    if parent != root {
      BypassGreatest(parent, item, left, above, rest);
    }
    assert LinkedContext(above, item, left) && Linked(rest, HoleParent(above, item));
    FillLinked(above, rest, item);
  }

  method TakeRight<K(!new), V>(from: Node<K, V>, item: Node<K, V>,
                               ghost above: Context<Node<K, V>>, ghost rest: Tree<Node<K, V>>)
    requires InLine(above, item, rest) && item.right == RootOf(rest) && from.right == TopOf(above, item)
    modifies item`right, ContextNodes(above)`parent
    ensures InLine(above, item, rest) && Hung(above, item)
    ensures item.right == TopOf(above, RootOf(rest))
  {
    TopInside(above);
    if from.right != item {
      item.right := from.right;
      assert Spine(above, item);
      if item.right != null {
        assert item.right == TopOf(above, null) && item.right !in Lower(above);
        item.right.parent := item;
        assert Spine(above, item);
      }
    }
  }

  method LiftLeast<K(!new), V>(root: Node<K, V>, item: Node<K, V>, ghost half: Tree<Node<K, V>>,
                               ghost above: Context<Node<K, V>>, ghost rest: Tree<Node<K, V>>)
    requires Distinct(half) && root !in Nodes(half) && root.right == RootOf(half) && Linked(half, root)
    requires half == Fill(above, Branch(Leaf, item, rest))
    modifies root`right, root`parent, item`left, item`right, item`parent, ContextNodes(above)`parent
    ensures InLine(above, item, rest) && Hung(above, item) && item.right == TopOf(above, RootOf(rest))
    ensures item.left == root && item.parent == old(root.parent)
    ensures root.right == null && root.parent == item
  {
    FillDistinct(above, Branch(Leaf, item, rest));
    FillLinked(above, Branch(Leaf, item, rest), root);
    assert item !in Lower(above) && root !in Lower(above);
    item.parent := root.parent;
    item.left := root;
    assert InLine(above, item, rest);
    TakeRight(root, item, above, rest);
    root.parent := item;
    root.right := null;
    assert InLine(above, item, rest);
  }

  /** The least node of the right half becomes the parent of the root. */
  method RaiseLeast<K(!new), V>(root: Node<K, V>, ghost half: Tree<Node<K, V>>) returns (item: Node<K, V>)
    requires Distinct(half) && root !in Nodes(half) && root.right == RootOf(half) && Linked(half, root) && half.Branch?
    modifies root`right, root`parent, Nodes(half)`left, Nodes(half)`right, Nodes(half)`parent
    ensures item == Least(half)
    ensures Linked(DropLeast(half), item) && item.right == RootOf(DropLeast(half))
    ensures item.left == root && item.parent == old(root.parent)
    ensures root.right == null && root.parent == item
  {
    NodesAllocated(half);
    item := FindLeast(root.right, half, root);
    ghost var above, rest := LocateLeast(Top, half);
    FillDistinct(above, Branch(Leaf, item, rest));
    FillLinked(above, Branch(Leaf, item, rest), root);
    var right := item.right;
    var parent := item.parent;
    LiftLeast(root, item, half, above, rest);
    TopInside(above);
    if parent != root {
      BypassLeast(parent, item, right, above, rest);
    }
    assert LinkedContext(above, item, right) && Linked(rest, HoleParent(above, item));
    FillLinked(above, rest, item);
  }

  // ----- handing the subtrees of a node over to its replacement -----

  ghost predicate Heads<K(!new), V>(x: Node<K, V>, l: Tree<Node<K, V>>, r: Tree<Node<K, V>>)
    reads {x}`left, {x}`right
    reads Nodes(l)`left, Nodes(l)`right, Nodes(l)`parent, Nodes(r)`left, Nodes(r)`right, Nodes(r)`parent
  {
    x.left == RootOf(l) && x.right == RootOf(r) && Linked(l, x) && Linked(r, x)
  }

  method AdoptLeft<K(!new), V>(heir: Node<K, V>, item: Node<K, V>, ghost l: Tree<Node<K, V>>)
    requires Distinct(l) && Linked(l, item) && item.left == RootOf(l) && heir !in Nodes(l) && heir != item
    modifies heir`left, Nodes(l)`parent
    ensures Linked(l, heir) && heir.left == RootOf(l)
  {
    heir.left := item.left;
    if heir.left != null {
      heir.left.parent := heir;
    }
  }

  method AdoptRight<K(!new), V>(heir: Node<K, V>, item: Node<K, V>, ghost r: Tree<Node<K, V>>)
    requires Distinct(r) && Linked(r, item) && item.right == RootOf(r) && heir !in Nodes(r) && heir != item
    modifies heir`right, Nodes(r)`parent
    ensures Linked(r, heir) && heir.right == RootOf(r)
  {
    heir.right := item.right;
    if heir.right != null {
      heir.right.parent := heir;
    }
  }

  method AdoptBoth<K(!new), V>(heir: Node<K, V>, item: Node<K, V>, ghost l: Tree<Node<K, V>>, ghost r: Tree<Node<K, V>>)
    requires Distinct(l) && Distinct(r) && Nodes(l) !! Nodes(r) && Heads(item, l, r)
    requires item !in Nodes(l) && item !in Nodes(r) && heir !in Nodes(l) && heir !in Nodes(r) && heir != item
    modifies heir`left, heir`right, Nodes(l)`parent, Nodes(r)`parent
    ensures Heads(heir, l, r)
  {
    NodesAllocated(l);
    NodesAllocated(r);
    AdoptRight(heir, item, r);
    AdoptLeft(heir, item, l);
  }

  method CloseRanksLeft<K(!new), V>(item: Node<K, V>, heir: Node<K, V>, ghost l: Tree<Node<K, V>>,
                                    ghost above: Context<Node<K, V>>, ghost rest: Tree<Node<K, V>>)
    requires Distinct(l) && item !in Nodes(l) && item.left == RootOf(l) && Linked(l, item)
    requires l == Fill(above, Branch(rest, heir, Leaf)) && above.RightOf? && above.node == heir.parent
    modifies above.node`right, Nodes(rest)`parent
    ensures item.left == RootOf(Fill(above, rest)) && Linked(Fill(above, rest), item)
  {
    FillDistinct(above, Branch(rest, heir, Leaf));
    FillLinked(above, Branch(rest, heir, Leaf), item);
    TopInside(above);
    BypassGreatest(heir.parent, heir, heir.left, above, rest);
    FillLinked(above, rest, item);
  }

  method CloseRanksRight<K(!new), V>(item: Node<K, V>, heir: Node<K, V>, ghost r: Tree<Node<K, V>>,
                                     ghost above: Context<Node<K, V>>, ghost rest: Tree<Node<K, V>>)
    requires Distinct(r) && item !in Nodes(r) && item.right == RootOf(r) && Linked(r, item)
    requires r == Fill(above, Branch(Leaf, heir, rest)) && above.LeftOf? && above.node == heir.parent
    modifies above.node`left, Nodes(rest)`parent
    ensures item.right == RootOf(Fill(above, rest)) && Linked(Fill(above, rest), item)
  {
    FillDistinct(above, Branch(Leaf, heir, rest));
    FillLinked(above, Branch(Leaf, heir, rest), item);
    TopInside(above);
    BypassLeast(heir.parent, heir, heir.right, above, rest);
    FillLinked(above, rest, item);
  }

  /** The links of the replacement as they are before anything moves. */
  lemma HeirLinks<K(!new), V>(t: Tree<Node<K, V>>)
    returns (above: Context<Node<K, V>>, rest: Tree<Node<K, V>>)
    requires t.Branch? && (t.left.Branch? || t.right.Branch?)
    requires Distinct(t) && Heads(t.node, t.left, t.right)
    ensures var heir := Replacement(t);
      && Linked(rest, heir)
      && heir.parent == HoleParent(above, t.node)
      && if Size(t.left) > Size(t.right) then
        && t.left == Fill(above, Branch(rest, heir, Leaf)) && LeftRemains(t) == Fill(above, rest)
        && ContextNodes(above) + Nodes(rest) <= Nodes(t.left) && heir.left == RootOf(rest)
        && (if above.Top? then t.left.node == heir
            else above.RightOf? && above.node.right == heir && above.node.left != heir)
      else
        && t.right == Fill(above, Branch(Leaf, heir, rest)) && RightRemains(t) == Fill(above, rest)
        && ContextNodes(above) + Nodes(rest) <= Nodes(t.right) && heir.right == RootOf(rest)
        && (if above.Top? then t.right.node == heir else above.LeftOf? && above.node.left == heir)
  {
    var heir := Replacement(t);
    var sub;
    if Size(t.left) > Size(t.right) {
      above, rest := LocateGreatest(Top, t.left);
      sub := Branch(rest, heir, Leaf);
    } else {
      above, rest := LocateLeast(Top, t.right);
      sub := Branch(Leaf, heir, rest);
    }
    FillDistinct(above, sub);
    FillLinked(above, sub, t.node);
  }

  function NodesBelow<K(!new), V>(t: Tree<Node<K, V>>): set<Node<K, V>>
    requires t.Branch?
  {
    Nodes(t.left) + Nodes(t.right)
  }

  /** The replacement takes over both subtrees of `item`. */
  method Succeed<K(!new), V>(item: Node<K, V>, heir: Node<K, V>, ghost t: Tree<Node<K, V>>)
    requires t.Branch? && t.node == item && (t.left.Branch? || t.right.Branch?) && heir == Replacement(t)
    requires Distinct(t) && Heads(item, t.left, t.right)
    modifies NodesBelow(t)`left, NodesBelow(t)`right, NodesBelow(t)`parent
    ensures Heads(heir, LeftRemains(t), RightRemains(t))
  {
    ghost var above, rest := HeirLinks(t);
    HeirApart(t);
    NodesAllocated(LeftRemains(t));
    NodesAllocated(RightRemains(t));
    if heir.parent != item {
      if heir.parent.left == heir {
        CloseRanksRight(item, heir, t.right, above, rest);
      } else if heir.parent.right == heir {
        CloseRanksLeft(item, heir, t.left, above, rest);
      }
      AdoptBoth(heir, item, LeftRemains(t), RightRemains(t));
    } else {
      if item.right == heir {
        AdoptLeft(heir, item, t.left);
      } else if item.left == heir {
        AdoptRight(heir, item, t.right);
      }
    }
  }

  // ----- keys in the tree -----

  /** A search tree: no key on the left is greater, none on the right is less. */
  ghost predicate Ordered<K(!new), V>(cmp: (K, K) -> int, t: Tree<Node<K, V>>)
    reads Nodes(t)`key
  {
    match t
    case Leaf => true
    case Branch(l, x, r) =>
      && (forall n :: n in Nodes(l) ==> cmp(n.key, x.key) <= 0)
      && (forall n :: n in Nodes(r) ==> cmp(x.key, n.key) <= 0)
      && Ordered(cmp, l) && Ordered(cmp, r)
  }

  ghost predicate Ascending<K(!new), V>(cmp: (K, K) -> int, s: seq<Node<K, V>>)
    reads Elements(s)`key
  {
    forall i, j :: 0 <= i < j < |s| ==> cmp(s[i].key, s[j].key) <= 0
  }

  lemma {:induction false} OrderedIsAscending<K(!new), V>(cmp: (K, K) -> int, t: Tree<Node<K, V>>)
    requires IsOrder(cmp)
    ensures Ordered(cmp, t) <==> Ascending(cmp, InOrder(t))
  {
    match t
    case Leaf =>
    case Branch(l, x, r) =>
      OrderedIsAscending(cmp, l);
      OrderedIsAscending(cmp, r);
      NodesAreOrder(l);
      NodesAreOrder(r);
      AscendingAround(cmp, InOrder(l), x, InOrder(r));
  }

  lemma AscendingAround<K(!new), V>(cmp: (K, K) -> int, a: seq<Node<K, V>>, x: Node<K, V>, b: seq<Node<K, V>>)
    requires IsOrder(cmp)
    ensures Ascending(cmp, a + [x] + b) <==>
      && Ascending(cmp, a) && Ascending(cmp, b)
      && (forall n :: n in a ==> cmp(n.key, x.key) <= 0)
      && (forall n :: n in b ==> cmp(x.key, n.key) <= 0)
  {
    var s := a + [x] + b;
    assert forall i :: 0 <= i < |a| ==> s[i] == a[i];
    assert s[|a|] == x;
    assert forall i :: 0 <= i < |b| ==> b[i] == s[|a| + 1 + i];
    forall i, j | 0 <= i < |a| && 0 <= j < |b| && cmp(a[i].key, x.key) <= 0 && cmp(x.key, b[j].key) <= 0
      ensures cmp(a[i].key, b[j].key) <= 0
    {
      AtMostThrough(cmp, a[i].key, x.key, b[j].key);
    }
  }

  /** The hole is where `key` belongs: after every key that is not greater. */
  ghost predicate Straddles<K(!new), V>(cmp: (K, K) -> int, c: Context<Node<K, V>>, key: K)
    reads ContextNodes(c)`key
  {
    match c
    case Top => true
    case LeftOf(up, x, r) =>
      cmp(key, x.key) < 0 && (forall n :: n in Nodes(r) ==> cmp(key, n.key) < 0) && Straddles(cmp, up, key)
    case RightOf(up, l, x) =>
      cmp(x.key, key) <= 0 && (forall n :: n in Nodes(l) ==> cmp(n.key, key) <= 0) && Straddles(cmp, up, key)
  }

  lemma StraddlesLeft<K(!new), V>(cmp: (K, K) -> int, c: Context<Node<K, V>>, t: Tree<Node<K, V>>, key: K)
    requires IsOrder(cmp) && t.Branch? && Ordered(cmp, t) && Straddles(cmp, c, key) && cmp(key, t.node.key) < 0
    ensures Straddles(cmp, LeftOf(c, t.node, t.right), key)
  {
    forall n | n in Nodes(t.right) ensures cmp(key, n.key) < 0 {
      AtMostThrough(cmp, key, t.node.key, n.key);
    }
  }

  lemma StraddlesRight<K(!new), V>(cmp: (K, K) -> int, c: Context<Node<K, V>>, t: Tree<Node<K, V>>, key: K)
    requires IsOrder(cmp) && t.Branch? && Ordered(cmp, t) && Straddles(cmp, c, key) && cmp(key, t.node.key) >= 0
    ensures Straddles(cmp, RightOf(c, t.left, t.node), key)
  {
    Flipped(cmp, t.node.key, key);
    forall n | n in Nodes(t.left) ensures cmp(n.key, key) <= 0 {
      AtMostThrough(cmp, n.key, t.node.key, key);
    }
  }

  lemma {:induction false} StraddlesSplits<K(!new), V>(cmp: (K, K) -> int, c: Context<Node<K, V>>, key: K)
    requires IsOrder(cmp) && Straddles(cmp, c, key)
    ensures forall n :: n in Before(c) ==> cmp(n.key, key) <= 0
    ensures forall n :: n in After(c) ==> cmp(key, n.key) < 0
  {
    match c
    case Top =>
    case LeftOf(up, x, r) =>
      NodesAreOrder(r);
      StraddlesSplits(cmp, up, key);
    case RightOf(up, l, x) =>
      NodesAreOrder(l);
      StraddlesSplits(cmp, up, key);
  }

  /** Putting `x` into a hole that its key belongs in keeps the order. */
  lemma FilledInOrder<K(!new), V>(cmp: (K, K) -> int, c: Context<Node<K, V>>, x: Node<K, V>)
    requires IsOrder(cmp) && Ordered(cmp, Fill(c, Leaf)) && Straddles(cmp, c, x.key)
    ensures Ordered(cmp, Fill(c, Branch(Leaf, x, Leaf)))
  {
    var whole := FilledAscends(cmp, c, x);
    OrderedIsAscending(cmp, whole);
  }

  lemma FilledAscends<K(!new), V>(cmp: (K, K) -> int, c: Context<Node<K, V>>, x: Node<K, V>)
    returns (whole: Tree<Node<K, V>>)
    requires IsOrder(cmp) && Ordered(cmp, Fill(c, Leaf)) && Straddles(cmp, c, x.key)
    ensures whole == Fill(c, Branch(Leaf, x, Leaf)) && Ascending(cmp, InOrder(whole))
  {
    whole := Fill(c, Branch(Leaf, x, Leaf));
    var hollow := Fill(c, Leaf);
    HoleIsGap(c, x);
    assert Ascending(cmp, InOrder(hollow)) by {
      OrderedIsAscending(cmp, hollow);
    }
    StraddlesSplits(cmp, c, x.key);
    AscendingAround(cmp, Before(c), x, After(c));
  }

  lemma HoleInOrder<K(!new), V>(cmp: (K, K) -> int, c: Context<Node<K, V>>, key: K)
    requires IsOrder(cmp) && Straddles(cmp, c, key)
    ensures GoesAt(cmp, KeysOf(InOrder(Fill(c, Leaf))), |Before(c)|, key)
  {
    StraddlesSplits(cmp, c, key);
    FillOrder(c, Leaf);
    assert InOrder(Fill(c, Leaf)) == Before(c) + After(c);
  }

  /** In the linked tree: the node before the gap has no right child. */
  lemma {:induction false} GapIsMissingChild<K(!new), V>(t: Tree<Node<K, V>>, parent: Node?<K, V>, at: nat)
    requires Linked(t, parent) && 0 < at <= |InOrder(t)|
    ensures GapOnRight(t, at) <==> InOrder(t)[at - 1].right == null
  {
    SizeIsLength(t.left);
    if at <= Size(t.left) {
      GapIsMissingChild(t.left, t.node, at);
    } else if at > Size(t.left) + 1 {
      GapIsMissingChild(t.right, t.node, at - Size(t.left) - 1);
    } else if t.right.Branch? {
      NoGapAtStart(t.right);
    }
  }

  ghost function KeysOf<K(!new), V>(s: seq<Node<K, V>>): (keys: seq<K>)
    reads Elements(s)`key
    ensures |keys| == |s| && forall i :: 0 <= i < |s| ==> keys[i] == s[i].key
  {
    if s == [] then [] else [s[0].key] + KeysOf(s[1..])
  }

  /** Position `at` is where `key` goes in a row of keys: behind every key that
      is not greater. */
  ghost predicate GoesAt<K(!new)>(cmp: (K, K) -> int, keys: seq<K>, at: nat, key: K) {
    && at <= |keys|
    && (forall i :: 0 <= i < at ==> cmp(keys[i], key) <= 0)
    && (forall i :: at <= i < |keys| ==> cmp(key, keys[i]) < 0)
  }

  function Just<K(!new), V>(x: Node?<K, V>): set<Node<K, V>> {
    if x == null then {} else {x}
  }

  class BTree<K(!new), V> {
    const keyCompare: (K, K) -> int
    var root: Node?<K, V>
    ghost var shape: Tree<Node<K, V>>

    /** The tree hangs together with `hole` standing in the hole of `c`. */
    ghost predicate Anchored(c: Context<Node<K, V>>, hole: Node?<K, V>)
      requires DistinctContext(c)
      reads this`root, ContextNodes(c)`left, ContextNodes(c)`right, ContextNodes(c)`parent
    {
      LinkedContext(c, null, hole) && root == TopOf(c, hole)
    }

    /** `t` is what the links spell out. */
    ghost predicate Spells(t: Tree<Node<K, V>>)
      reads this`root, Nodes(t)`left, Nodes(t)`right, Nodes(t)`parent
    {
      Distinct(t) && Linked(t, null) && root == RootOf(t)
    }

    /** A subtree in its place: every link of `Fill(c, t)` is as it should be. */
    ghost predicate Placed(c: Context<Node<K, V>>, t: Tree<Node<K, V>>)
      reads this`root, ContextNodes(c)`left, ContextNodes(c)`right, ContextNodes(c)`parent
      reads Nodes(t)`left, Nodes(t)`right, Nodes(t)`parent
    {
      && Distinct(t) && DistinctContext(c) && ContextNodes(c) !! Nodes(t)
      && Anchored(c, RootOf(t)) && Linked(t, HoleParent(c, null))
    }

    /** Whatever hangs where `from` hung is now `to`. */
    method Redirect(parent: Node?<K, V>, from: Node<K, V>, to: Node?<K, V>, ghost c: Context<Node<K, V>>)
      requires DistinctContext(c) && Anchored(c, from) && parent == HoleParent(c, null)
      requires from !in ContextNodes(c)
      modifies this`root, ContextNodes(c)`left, ContextNodes(c)`right
      ensures Anchored(c, to)
    {
      if parent != null {
        if parent.left == from {
          parent.left := to;
        } else {
          parent.right := to;
        }
      } else {
        root := to;
      }
    }

    method LiftPredecessor(root0: Node<K, V>, ghost c: Context<Node<K, V>>, ghost t: Tree<Node<K, V>>)
      returns (item: Node<K, V>)
      requires Placed(c, t) && t.Branch? && t.node == root0 && t.left.Branch?
      modifies root0`left, root0`parent, Nodes(t.left)`left, Nodes(t.left)`right, Nodes(t.left)`parent
      ensures item == Greatest(t.left) && item.parent == HoleParent(c, null) && Anchored(c, root0)
      ensures Linked(DropGreatest(t.left), item) && item.left == RootOf(DropGreatest(t.left))
      ensures item.right == root0 && Linked(Branch(Leaf, root0, t.right), item)
    {
      PlaceAllocated(c, t);
      GreatestInside(t.left);
      assert Linked(t.right, root0) && Anchored(c, root0);
      item := RaiseGreatest(root0, t.left);
      assert Linked(t.right, root0) && Anchored(c, root0);
    }

    /** Too much on the left: the predecessor of the root takes its place. */
    method ShiftRight(root0: Node<K, V>, ghost c: Context<Node<K, V>>, ghost t: Tree<Node<K, V>>)
      returns (item: Node<K, V>)
      requires Placed(c, t) && t.Branch? && t.node == root0 && t.left.Branch?
      modifies this`root, ContextNodes(c)`left, ContextNodes(c)`right
      modifies Nodes(t)`left, Nodes(t)`right, Nodes(t)`parent
      ensures item == Greatest(t.left) && Placed(c, Trees.ShiftRight(t))
    {
      PlaceAllocated(c, t);
      GreatestInside(t.left);
      item := LiftPredecessor(root0, c, t);
      Redirect(item.parent, root0, item, c);
      assert Linked(Trees.ShiftRight(t), HoleParent(c, null));
      ShiftKeepsNodes(t);
    }

    method LiftSuccessor(root0: Node<K, V>, ghost c: Context<Node<K, V>>, ghost t: Tree<Node<K, V>>)
      returns (item: Node<K, V>)
      requires Placed(c, t) && t.Branch? && t.node == root0 && t.right.Branch?
      modifies root0`right, root0`parent, Nodes(t.right)`left, Nodes(t.right)`right, Nodes(t.right)`parent
      ensures item == Least(t.right) && item.parent == HoleParent(c, null) && Anchored(c, root0)
      ensures Linked(DropLeast(t.right), item) && item.right == RootOf(DropLeast(t.right))
      ensures item.left == root0 && Linked(Branch(t.left, root0, Leaf), item)
    {
      PlaceAllocated(c, t);
      LeastInside(t.right);
      assert Linked(t.left, root0) && Anchored(c, root0);
      item := RaiseLeast(root0, t.right);
      assert Linked(t.left, root0) && Anchored(c, root0);
    }

    /** Too much on the right: the successor of the root takes its place. */
    method ShiftLeft(root0: Node<K, V>, ghost c: Context<Node<K, V>>, ghost t: Tree<Node<K, V>>)
      returns (item: Node<K, V>)
      requires Placed(c, t) && t.Branch? && t.node == root0 && t.right.Branch?
      modifies this`root, ContextNodes(c)`left, ContextNodes(c)`right
      modifies Nodes(t)`left, Nodes(t)`right, Nodes(t)`parent
      ensures item == Least(t.right) && Placed(c, Trees.ShiftLeft(t))
    {
      PlaceAllocated(c, t);
      LeastInside(t.right);
      item := LiftSuccessor(root0, c, t);
      Redirect(item.parent, root0, item, c);
      assert Linked(Trees.ShiftLeft(t), HoleParent(c, null));
      ShiftKeepsNodes(t);
    }

    /** Shift until the weights below the root differ by at most 1. */
    method LevelRoot(root0: Node<K, V>, ghost c: Context<Node<K, V>>, ghost t: Tree<Node<K, V>>)
      returns (root: Node<K, V>)
      requires Placed(c, t) && t.Branch? && t.node == root0
      modifies this`root, ContextNodes(c)`left, ContextNodes(c)`right
      modifies Nodes(t)`left, Nodes(t)`right, Nodes(t)`parent
      ensures Placed(c, BalanceRoot(t)) && root == BalanceRoot(t).node
    {
      root := root0;
      ghost var cur := t;
      var res := Weight(root.left, cur.left, root) - Weight(root.right, cur.right, root);
      while res < -1 || res > 1
        invariant Placed(c, cur) && cur.Branch? && cur.node == root && Nodes(cur) == Nodes(t)
        invariant BalanceRoot(cur) == BalanceRoot(t)
        invariant res == Imbalance(cur)
        decreases Abs(res)
      {
        root, cur := ShiftOnce(root, res, c, cur);
        res := Weight(root.left, cur.left, root) - Weight(root.right, cur.right, root);
      }
    }

    method ShiftOnce(root0: Node<K, V>, res: int, ghost c: Context<Node<K, V>>, ghost t: Tree<Node<K, V>>)
      returns (root: Node<K, V>, ghost shifted: Tree<Node<K, V>>)
      requires Placed(c, t) && t.Branch? && t.node == root0 && res == Imbalance(t) && (res < -1 || res > 1)
      modifies this`root, ContextNodes(c)`left, ContextNodes(c)`right
      modifies Nodes(t)`left, Nodes(t)`right, Nodes(t)`parent
      ensures Placed(c, shifted) && shifted.Branch? && shifted.node == root && Nodes(shifted) == Nodes(t)
      ensures BalanceRoot(shifted) == BalanceRoot(t) && Abs(Imbalance(shifted)) < Abs(res)
    {
      ShiftKeepsNodes(t);
      ShiftLevels(t);
      if res > 1 {
        root := this.ShiftRight(root0, c, t);
        shifted := Trees.ShiftRight(t);
      } else {
        root := this.ShiftLeft(root0, c, t);
        shifted := Trees.ShiftLeft(t);
      }
    }

    /** A subtree in its place is one way of looking at the whole tree. */
    lemma PlacedIsWhole(c: Context<Node<K, V>>, t: Tree<Node<K, V>>)
      ensures Placed(c, t) <==> Spells(Fill(c, t))
    {
      FillDistinct(c, t);
      if DistinctContext(c) {
        FillLinked(c, t, null);
      }
    }

    lemma PlacedBelow(c: Context<Node<K, V>>, t: Tree<Node<K, V>>)
      requires t.Branch?
      ensures Placed(c, t) <==> Placed(LeftOf(c, t.node, t.right), t.left)
      ensures Placed(c, t) <==> Placed(RightOf(c, t.left, t.node), t.right)
    {
      PlacedIsWhole(c, t);
      PlacedIsWhole(LeftOf(c, t.node, t.right), t.left);
      PlacedIsWhole(RightOf(c, t.left, t.node), t.right);
    }

    method Rebalance(root0: Node?<K, V>, ghost c: Context<Node<K, V>>, ghost t: Tree<Node<K, V>>)
      requires Placed(c, t) && root0 == RootOf(t)
      modifies this`root, ContextNodes(c)`left, ContextNodes(c)`right
      modifies Nodes(t)`left, Nodes(t)`right, Nodes(t)`parent
      ensures Placed(c, Rebalanced(t))
      decreases Size(t)
    {
      if root0 == null {
        return;
      }
      var root := LevelRoot(root0, c, t);
      ghost var b := BalanceRoot(t);
      BalanceRootSize(t);
      SameOrderSameNodes(t, b);
      PlacedBelow(c, b);
      Rebalance(root.left, LeftOf(c, root, b.right), b.left);
      ghost var l := Rebalanced(b.left);
      PlacedBelow(c, Branch(l, root, b.right));
      RebalancedKeepsOrder(b.left);
      SameOrderSameNodes(l, b.left);
      Rebalance(root.right, RightOf(c, l, root), b.right);
      PlacedBelow(c, Branch(l, root, Rebalanced(b.right)));
    }

    // ----- the tree as a whole -----

    ghost predicate Valid()
      reads this`root, this`shape
      reads Nodes(shape)`left, Nodes(shape)`right, Nodes(shape)`parent, Nodes(shape)`btree
    {
      && IsOrder(keyCompare) && Spells(shape)
      && forall n :: n in Nodes(shape) ==> n.btree == this
    }

    ghost function Order(): seq<Node<K, V>>
      reads this`shape
    {
      InOrder(shape)
    }

    ghost function Keys(): seq<K>
      reads this`shape, Nodes(shape)`key
    {
      NodesAreOrder(shape);
      KeysOf(InOrder(shape))
    }

    constructor (keyCompare: (K, K) -> int)
      requires IsOrder(keyCompare)
      ensures Valid() && Order() == [] && this.keyCompare == keyCompare
    {
      this.keyCompare := keyCompare;
      root := null;
      shape := Leaf;
    }

    /** Rebalances the whole tree, as adding or removing no item does. */
    method RebalanceAll()
      requires Valid()
      modifies this`root, this`shape, Nodes(shape)`left, Nodes(shape)`right, Nodes(shape)`parent
      ensures Valid() && shape == Rebalanced(old(shape)) && Nodes(shape) == old(Nodes(shape))
    {
      PlacedIsWhole(Top, shape);
      NodesAllocated(shape);
      Rebalance(root, Top, shape);
      RebalancedKeepsOrder(shape);
      SameOrderSameNodes(shape, Rebalanced(shape));
      shape := Rebalanced(shape);
      PlacedIsWhole(Top, shape);
    }

    // ----- removal -----

    method Inherit(item: Node<K, V>, heir: Node<K, V>, ghost c: Context<Node<K, V>>, ghost t: Tree<Node<K, V>>)
      requires Placed(c, t) && t.Branch? && t.node == item && (t.left.Branch? || t.right.Branch?)
      requires heir == Replacement(t)
      modifies NodesBelow(t)`left, NodesBelow(t)`right, NodesBelow(t)`parent
      ensures Anchored(c, item) && Linked(WithoutRoot(t), HoleParent(c, null)) && heir.parent == HoleParent(c, null)
    {
      PlaceAllocated(c, t);
      HeirApart(t);
      Succeed(item, heir, t);
      assert Anchored(c, item);
      ComeDown(item, heir, c, t);
    }

    method ComeDown(item: Node<K, V>, heir: Node<K, V>, ghost c: Context<Node<K, V>>, ghost t: Tree<Node<K, V>>)
      requires t.Branch? && (t.left.Branch? || t.right.Branch?) && heir == Replacement(t)
      requires item.parent == HoleParent(c, null)
      requires DistinctContext(c) && Anchored(c, item) && heir !in ContextNodes(c)
      requires Heads(heir, LeftRemains(t), RightRemains(t))
      requires heir !in Nodes(LeftRemains(t)) && heir !in Nodes(RightRemains(t))
      modifies heir`parent
      ensures Anchored(c, item) && Linked(WithoutRoot(t), HoleParent(c, null)) && heir.parent == HoleParent(c, null)
    {
      heir.parent := item.parent;
      assert Anchored(c, item);
      assert Heads(heir, LeftRemains(t), RightRemains(t));
    }

    /** `heir` takes the place of `item`, which ends up linked to nothing. */
    method Replace(item: Node<K, V>, heir: Node?<K, V>, ghost c: Context<Node<K, V>>, ghost t: Tree<Node<K, V>>)
      requires Placed(c, t) && t.Branch? && t.node == item && heir == RootOf(WithoutRoot(t))
      modifies this`root, ContextNodes(c)`left, ContextNodes(c)`right
      modifies Nodes(t)`left, Nodes(t)`right, Nodes(t)`parent
      ensures Placed(c, WithoutRoot(t))
      ensures item.left == null && item.right == null && item.parent == null
    {
      WithoutRootNodes(t);
      if heir != null {
        Inherit(item, heir, c, t);
        NodesAllocated(WithoutRoot(t));
        Redirect(heir.parent, item, heir, c);
        assert Linked(WithoutRoot(t), HoleParent(c, null));
      } else {
        Redirect(item.parent, item, null, c);
      }
      Detach(item, c, WithoutRoot(t));
    }

    /** A node nothing links to loses its own links. */
    method Detach(item: Node<K, V>, ghost c: Context<Node<K, V>>, ghost t: Tree<Node<K, V>>)
      requires Placed(c, t) && item !in ContextNodes(c) && item !in Nodes(t)
      modifies item`left, item`right, item`parent
      ensures Placed(c, t)
      ensures item.left == null && item.right == null && item.parent == null
    {
      item.left := null;
      item.right := null;
      item.parent := null;
    }

    /** The greatest node of a heavier left side, else the least of the right. */
    method PickHeir(item: Node<K, V>, ghost t: Tree<Node<K, V>>, ghost parent: Node?<K, V>) returns (heir: Node?<K, V>)
      requires t.Branch? && t.node == item && Linked(t, parent)
      ensures heir == RootOf(WithoutRoot(t))
    {
      if Weight(item.left, t.left, item) > Weight(item.right, t.right, item) {
        heir := FindGreatest(item.left, t.left, item);
      } else {
        heir := FindLeast(item.right, t.right, item);
      }
    }

    method UnlinkAt(item: Node<K, V>, ghost c: Context<Node<K, V>>, ghost t: Tree<Node<K, V>>)
      requires Placed(c, t) && t.Branch? && t.node == item
      modifies this`root, ContextNodes(c)`left, ContextNodes(c)`right
      modifies Nodes(t)`left, Nodes(t)`right, Nodes(t)`parent
      ensures Placed(c, WithoutRoot(t))
      ensures item.left == null && item.right == null && item.parent == null
    {
      PlaceAllocated(c, t);
      var heir := PickHeir(item, t, HoleParent(c, null));
      assert Placed(c, t);
      Replace(item, heir, c, t);
    }

    /** Takes a linked node out of the tree, without a look at its key. */
    method Unlink(item: Node<K, V>)
      requires Valid() && item in Nodes(shape)
      modifies this`root, this`shape, Nodes(shape)`left, Nodes(shape)`right, Nodes(shape)`parent, item`btree
      ensures Valid() && Order() == Without<Node<K, V>>(old(Order()), item)
      ensures Nodes(shape) == old(Nodes(shape)) - {item}
      ensures item.left == null && item.right == null && item.parent == null && item.btree == null
    {
      NodesAllocated(shape);
      ghost var c, t := Locate(Top, shape, item);
      CutOut(c, t);
      PlacedIsWhole(c, t);
      UnlinkAt(item, c, t);
      ghost var rest := Fill(c, WithoutRoot(t));
      PlacedIsWhole(c, WithoutRoot(t));
      item.btree := null;
      assert Spells(rest);
      Adopt(rest);
    }

    method Remove(item: Node?<K, V>, rebalance: bool)
      requires Valid()
      requires item != null && item.btree == this ==> item in Nodes(shape)
      modifies this`root, this`shape
      modifies Nodes(shape)`left, Nodes(shape)`right, Nodes(shape)`parent, Nodes(shape)`btree
      ensures Valid()
      ensures item == null ==> shape == if rebalance then Rebalanced(old(shape)) else old(shape)
      ensures item != null && old(item.btree) != this ==> shape == old(shape)
      ensures item != null && old(item.btree) == this ==>
        && Order() == Without<Node<K, V>>(old(Order()), item) && (rebalance ==> Balanced(shape))
        && Nodes(shape) == old(Nodes(shape)) - {item}
        && item.left == null && item.right == null && item.parent == null && item.btree == null
    {
      if item != null && item.btree != this {
        return;
      }
      if item == null {
        if rebalance {
          RebalanceAll();
        }
        return;
      }
      NodesAllocated(shape);
      Unlink(item);
      if rebalance {
        RebalancedKeepsOrder(shape);
        RebalanceAll();
      }
    }

    /** The right side below a node is let go. */
    method CutRight(node: Node<K, V>, ghost c: Context<Node<K, V>>, ghost t: Tree<Node<K, V>>)
      requires Placed(c, t) && t.Branch? && t.node == node
      modifies node`right
      ensures Placed(c, Branch(t.left, node, Leaf))
    {
      PlacedBelow(c, t);
      node.right := null;
      PlacedBelow(c, Branch(t.left, node, Leaf));
    }

    /** Removing an item that adding has left out for an equal key: the item still
        names this tree and its would-be parent, and whatever hangs to the right
        of that parent by then is cut off. The order stays only if nothing does. */
    method RemoveDropped(item: Node<K, V>, ghost c: Context<Node<K, V>>, ghost t: Tree<Node<K, V>>)
      requires Valid() && item !in Nodes(shape) && item.btree == this && item.left == null && item.right == null
      requires shape == Fill(c, t) && t.Branch? && item.parent == t.node
      modifies this`root, this`shape, Nodes(shape)`left, Nodes(shape)`right
      modifies item`left, item`right, item`parent, item`btree
      ensures Valid() && shape == Fill(c, Branch(t.left, t.node, Leaf))
      ensures Order() == old(Order()) <==> t.right.Leaf?
      ensures item.left == null && item.right == null && item.parent == null && item.btree == null
    {
      ghost var short, rest := Shortened(c, t);
      PlacedIsWhole(c, t);
      NodesAllocated(shape);
      LetGo(item, c, t);
      PlacedIsWhole(c, short);
      item.btree := null;
      assert Spells(rest);
      Adopt(rest);
    }

    lemma Shortened(c: Context<Node<K, V>>, t: Tree<Node<K, V>>)
      returns (short: Tree<Node<K, V>>, rest: Tree<Node<K, V>>)
      requires t.Branch?
      ensures short == Branch(t.left, t.node, Leaf) && rest == Fill(c, short)
      ensures Nodes(rest) <= Nodes(Fill(c, t)) == ContextNodes(c) + Nodes(t)
      ensures InOrder(rest) == InOrder(Fill(c, t)) <==> t.right.Leaf?
    {
      short := Branch(t.left, t.node, Leaf);
      rest := Fill(c, short);
      FillDistinct(c, t);
      FillDistinct(c, short);
      CutShort(c, t);
    }

    /** The item is not the left child of its parent, so the right link goes. */
    method LetGo(item: Node<K, V>, ghost c: Context<Node<K, V>>, ghost t: Tree<Node<K, V>>)
      requires Placed(c, t) && t.Branch? && item.parent == t.node && item !in ContextNodes(c) && item !in Nodes(t)
      modifies item.parent`right, item`left, item`right, item`parent
      ensures Placed(c, Branch(t.left, t.node, Leaf))
      ensures item.left == null && item.right == null && item.parent == null
    {
      PlaceAllocated(c, t);
      CutRight(item.parent, c, t);
      Detach(item, c, Branch(t.left, t.node, Leaf));
    }

    // ----- search -----

    /** The number of comparisons is bounded by the height of the tree. */
    method Find(key: K) returns (item: Node?<K, V>, ghost comparisons: nat)
      requires Valid() && Ordered(keyCompare, shape)
      ensures item == null ==> forall n :: n in Nodes(shape) ==> keyCompare(key, n.key) != 0
      ensures item != null ==> item in Nodes(shape) && keyCompare(key, item.key) == 0
      ensures comparisons <= Height(shape)
    {
      item := root;
      var found := false;
      comparisons := 0;
      ghost var cur, above := shape, null;
      while item != null && !found
        invariant item == RootOf(cur) && Linked(cur, above) && Ordered(keyCompare, cur) && Nodes(cur) <= Nodes(shape)
        invariant forall n :: n in Nodes(shape) && keyCompare(key, n.key) == 0 ==> n in Nodes(cur)
        invariant found ==> item != null && keyCompare(key, item.key) == 0
        invariant comparisons + (if found then 0 else Height(cur)) <= Height(shape)
        decreases cur, !found
      {
        var res := keyCompare(key, item.key);
        comparisons := comparisons + 1;
        if res == 0 {
          found := true;
        } else if res < 0 {
          forall n | n in Nodes(cur.right) ensures keyCompare(key, n.key) != 0 {
            AtMostThrough(keyCompare, key, item.key, n.key);
          }
          above := item;
          item := item.left;
          cur := cur.left;
        } else {
          Flipped(keyCompare, item.key, key);
          forall n | n in Nodes(cur.left) ensures keyCompare(key, n.key) != 0 {
            AtMostThrough(keyCompare, n.key, item.key, key);
            Flipped(keyCompare, n.key, key);
          }
          above := item;
          item := item.right;
          cur := cur.right;
        }
      }
    }

    // ----- insertion -----

    lemma HoleIsFree(c: Context<Node<K, V>>, key: K)
      requires Valid() && Fill(c, Leaf) == shape && Straddles(keyCompare, c, key)
      ensures c.Top? <==> root == null
      ensures !c.Top? ==> c.node in Nodes(shape)
      ensures !c.Top? ==> if keyCompare(key, c.node.key) < 0 then c.node.left == null else c.node.right == null
    {
      FillDistinct(c, Leaf);
      FillLinked(c, Leaf, null);
      if !c.Top? {
        Flipped(keyCompare, key, c.node.key);
      }
    }

    /** Equal keys send the walk to the right. */
    method FindParent(key: K) returns (parent: Node?<K, V>, ghost c: Context<Node<K, V>>)
      requires Valid() && Ordered(keyCompare, shape)
      ensures Fill(c, Leaf) == shape && parent == HoleParent(c, null) && Straddles(keyCompare, c, key)
      ensures Valid() && Ordered(keyCompare, shape)
      ensures parent == null <==> root == null
      ensures parent != null ==> parent in Nodes(shape)
      ensures parent != null ==> if keyCompare(key, parent.key) < 0 then parent.left == null else parent.right == null
    {
      NodesAllocated(shape);
      parent := null;
      c := Top;
      var item2 := root;
      ghost var cur := shape;
      while item2 != null
        invariant Descending(c, cur, parent, item2, key)
        decreases cur
      {
        parent := item2;
        var res := keyCompare(key, item2.key);
        if res < 0 {
          c, cur := DescendsLeft(c, cur, item2, key);
          item2 := item2.left;
        } else {
          c, cur := DescendsRight(c, cur, item2, key);
          item2 := item2.right;
        }
      }
      assert cur == Leaf;
      HoleIsFree(c, key);
    }

    /** A walk down the tree is at `item`, the root of `cur`, with `c` around it,
        and the key belongs there. */
    ghost predicate Descending(c: Context<Node<K, V>>, cur: Tree<Node<K, V>>, parent: Node?<K, V>,
                               item: Node?<K, V>, key: K)
      reads this`shape, Nodes(cur)`left, Nodes(cur)`right, Nodes(cur)`parent, Nodes(cur)`key, ContextNodes(c)`key
    {
      && Fill(c, cur) == shape && parent == HoleParent(c, null) && Straddles(keyCompare, c, key)
      && item == RootOf(cur) && Linked(cur, parent) && Ordered(keyCompare, cur)
    }

    lemma DescendsLeft(c: Context<Node<K, V>>, cur: Tree<Node<K, V>>, item: Node<K, V>, key: K)
      returns (around: Context<Node<K, V>>, below: Tree<Node<K, V>>)
      requires IsOrder(keyCompare) && Descending(c, cur, HoleParent(c, null), item, key)
      requires keyCompare(key, item.key) < 0
      ensures cur.Branch? && below == cur.left && Descending(around, below, item, item.left, key)
    {
      StraddlesLeft(keyCompare, c, cur, key);
      around, below := LeftOf(c, item, cur.right), cur.left;
    }

    lemma DescendsRight(c: Context<Node<K, V>>, cur: Tree<Node<K, V>>, item: Node<K, V>, key: K)
      returns (around: Context<Node<K, V>>, below: Tree<Node<K, V>>)
      requires IsOrder(keyCompare) && Descending(c, cur, HoleParent(c, null), item, key)
      requires keyCompare(key, item.key) >= 0
      ensures cur.Branch? && below == cur.right && Descending(around, below, item, item.right, key)
    {
      StraddlesRight(keyCompare, c, cur, key);
      around, below := RightOf(c, cur.left, item), cur.right;
    }

    /** Hangs an item where its parent has no child. */
    method HangThere(item: Node<K, V>, onRight: bool, ghost c: Context<Node<K, V>>)
      requires Placed(c, Leaf) && item !in ContextNodes(c) && (!c.Top? ==> onRight == c.RightOf?)
      requires item.parent == HoleParent(c, null) && item.left == null && item.right == null
      requires Ordered(keyCompare, Fill(c, Leaf)) && Straddles(keyCompare, c, item.key)
      modifies this`root, ContextNodes(c)`left, ContextNodes(c)`right
      ensures Placed(c, Branch(Leaf, item, Leaf))
      ensures Ordered(keyCompare, Fill(c, Leaf)) && Straddles(keyCompare, c, item.key)
    {
      if item.parent == null {
        root := item;
      } else if onRight {
        item.parent.right := item;
      } else {
        item.parent.left := item;
      }
    }

    /** Links an item to the parent found for it, unless their keys are equal. */
    method Hang(item: Node<K, V>, ghost c: Context<Node<K, V>>) returns (dropped: bool)
      requires IsOrder(keyCompare) && Ordered(keyCompare, Fill(c, Leaf)) && Straddles(keyCompare, c, item.key)
      requires Placed(c, Leaf) && item !in ContextNodes(c)
      requires item.parent == HoleParent(c, null) && item.left == null && item.right == null
      modifies this`root, ContextNodes(c)`left, ContextNodes(c)`right
      ensures dropped <==> c.RightOf? && keyCompare(item.key, c.node.key) == 0
      ensures dropped ==> Placed(c, Leaf)
      ensures !dropped ==> Placed(c, Branch(Leaf, item, Leaf))
      ensures Ordered(keyCompare, Fill(c, Leaf)) && Straddles(keyCompare, c, item.key)
    {
      dropped := false;
      if item.parent == null {
        HangThere(item, false, c);
      } else {
        Flipped(keyCompare, item.key, item.parent.key);
        var res := keyCompare(item.key, item.parent.key);
        if res != 0 {
          HangThere(item, res > 0, c);
        } else {
          dropped := true;
        }
      }
    }

    /** The same walk, seen as finding a position in the order; `tie` tells
        whether the node just before it has an equal key. */
    method FindPlace(x: Node<K, V>)
      returns (parent: Node?<K, V>, ghost c: Context<Node<K, V>>, ghost at: nat, ghost tie: bool)
      requires Valid() && Ordered(keyCompare, shape)
      ensures Fill(c, Leaf) == shape && parent == HoleParent(c, null) && Straddles(keyCompare, c, x.key)
      ensures Valid() && Ordered(keyCompare, shape)
      ensures at == |Before(c)| && GoesAt(keyCompare, old(Keys()), at, x.key)
      ensures tie <==> at > 0 && keyCompare(x.key, old(Keys())[at - 1]) == 0
      ensures c.RightOf? ==> (tie <==> keyCompare(x.key, c.node.key) == 0)
    {
      parent, c := FindHole(x.key);
      at, tie := Position(c, x);
    }

    method FindHole(key: K) returns (parent: Node?<K, V>, ghost c: Context<Node<K, V>>)
      requires Valid() && Ordered(keyCompare, shape)
      ensures Fill(c, Leaf) == shape && parent == HoleParent(c, null) && Straddles(keyCompare, c, key)
      ensures Valid() && Ordered(keyCompare, shape) && Keys() == old(Keys())
    {
      NodesAreOrder(shape);
      NodesAllocated(shape);
      parent, c := FindParent(key);
    }

    lemma Position(c: Context<Node<K, V>>, x: Node<K, V>) returns (at: nat, tie: bool)
      requires IsOrder(keyCompare) && Fill(c, Leaf) == shape && Straddles(keyCompare, c, x.key)
      ensures at == |Before(c)| && GoesAt(keyCompare, Keys(), at, x.key)
      ensures tie <==> at > 0 && keyCompare(x.key, Keys()[at - 1]) == 0
      ensures c.RightOf? ==> (tie <==> keyCompare(x.key, c.node.key) == 0)
    {
      at := |Before(c)|;
      HoleInOrder(keyCompare, c, x.key);
      tie := at > 0 && keyCompare(x.key, Keys()[at - 1]) == 0;
      HoleIsGap(c, x);
    }

    /** Readies a new item and finds the hole it belongs in. */
    method Prepare(item: Node<K, V>) returns (ghost c: Context<Node<K, V>>, ghost at: nat, ghost tie: bool)
      requires Valid() && Ordered(keyCompare, shape) && item !in Nodes(shape)
      modifies item`left, item`right, item`parent, item`btree
      ensures Valid() && Ordered(keyCompare, shape) && Fill(c, Leaf) == shape
      ensures Straddles(keyCompare, c, item.key) && item.parent == HoleParent(c, null)
      ensures at == |Before(c)| && GoesAt(keyCompare, old(Keys()), at, item.key)
      ensures tie <==> at > 0 && keyCompare(item.key, old(Keys())[at - 1]) == 0
      ensures c.RightOf? ==> (tie <==> keyCompare(item.key, c.node.key) == 0)
      ensures item.left == null && item.right == null && item.btree == this
    {
      Ready(item);
      var parent;
      parent, c, at, tie := FindPlace(item);
      SetParent(item, parent, c);
    }

    method Ready(item: Node<K, V>)
      requires Valid() && Ordered(keyCompare, shape) && item !in Nodes(shape)
      modifies item`left, item`right, item`btree
      ensures Valid() && Ordered(keyCompare, shape) && Keys() == old(Keys())
      ensures item.left == null && item.right == null && item.btree == this
    {
      NodesAllocated(shape);
      item.btree := this;
      assert Valid() && Ordered(keyCompare, shape) && Keys() == old(Keys());
      ClearChildren(item);
    }

    method ClearChildren(item: Node<K, V>)
      requires Valid() && Ordered(keyCompare, shape) && item !in Nodes(shape)
      modifies item`left, item`right
      ensures Valid() && Ordered(keyCompare, shape) && Keys() == old(Keys())
      ensures item.left == null && item.right == null
    {
      item.left := null;
      item.right := null;
    }

    method SetParent(item: Node<K, V>, parent: Node?<K, V>, ghost c: Context<Node<K, V>>)
      requires Valid() && Ordered(keyCompare, shape) && item !in Nodes(shape) && Straddles(keyCompare, c, item.key)
      modifies item`parent
      ensures Valid() && Ordered(keyCompare, shape) && Straddles(keyCompare, c, item.key) && item.parent == parent
    {
      item.parent := parent;
    }

    method HangWhole(item: Node<K, V>, ghost c: Context<Node<K, V>>) returns (dropped: bool)
      requires IsOrder(keyCompare) && Ordered(keyCompare, Fill(c, Leaf)) && Straddles(keyCompare, c, item.key)
      requires Spells(Fill(c, Leaf)) && item !in Nodes(Fill(c, Leaf))
      requires item.parent == HoleParent(c, null) && item.left == null && item.right == null
      modifies this`root, ContextNodes(c)`left, ContextNodes(c)`right
      ensures dropped <==> c.RightOf? && keyCompare(item.key, c.node.key) == 0
      ensures Spells(Fill(c, if dropped then Leaf else Branch(Leaf, item, Leaf)))
      ensures Ordered(keyCompare, Fill(c, Leaf)) && Straddles(keyCompare, c, item.key)
    {
      FillDistinct(c, Leaf);
      PlacedIsWhole(c, Leaf);
      dropped := Hang(item, c);
      PlacedIsWhole(c, if dropped then Leaf else Branch(Leaf, item, Leaf));
    }

    ghost method Adopt(t: Tree<Node<K, V>>)
      requires IsOrder(keyCompare) && Spells(t) && forall n :: n in Nodes(t) ==> n.btree == this
      modifies this`shape
      ensures Valid() && shape == t
    {
      shape := t;
    }

    /** Links the item into its hole, or drops it, and brings `shape` up to date. */
    method HangInTree(item: Node<K, V>, ghost c: Context<Node<K, V>>, ghost tie: bool) returns (dropped: bool)
      requires Valid() && Ordered(keyCompare, shape) && Fill(c, Leaf) == shape && item !in Nodes(shape)
      requires Straddles(keyCompare, c, item.key) && item.parent == HoleParent(c, null)
      requires item.left == null && item.right == null && item.btree == this
      requires c.RightOf? ==> (tie <==> keyCompare(item.key, c.node.key) == 0)
      modifies this`root, this`shape, Nodes(shape)`left, Nodes(shape)`right
      ensures Valid() && Ordered(keyCompare, shape)
      ensures dropped <==> c.RightOf? && tie
      ensures shape == if dropped then old(shape) else Fill(c, Branch(Leaf, item, Leaf))
    {
      ghost var t := Branch(Leaf, item, Leaf);
      NodesAllocated(shape);
      FillDistinct(c, Leaf);
      FillDistinct(c, t);
      dropped := HangWhole(item, c);
      FilledInOrder(keyCompare, c, item);
      Adopt(Fill(c, if dropped then Leaf else t));
    }

    /** Links a new item in after every key that is not greater. The item is
        dropped when the node just before its place has an equal key and no
        right child. */
    method Attach(item: Node<K, V>) returns (ghost at: nat, dropped: bool)
      requires Valid() && Ordered(keyCompare, shape) && item !in Nodes(shape)
      modifies this`root, this`shape, Nodes(shape)`left, Nodes(shape)`right
      modifies item`left, item`right, item`parent, item`btree
      ensures Valid() && Ordered(keyCompare, shape) && item.btree == this
      ensures GoesAt(keyCompare, old(Keys()), at, item.key)
      ensures dropped <==>
        GapOnRight(old(shape), at) && at > 0 && keyCompare(item.key, old(Keys())[at - 1]) == 0
      ensures dropped ==> shape == old(shape)
      ensures !dropped ==> Order() == old(Order())[..at] + [item] + old(Order())[at..]
      ensures Nodes(shape) == old(Nodes(shape)) + if dropped then {} else {item}
    {
      NodesAllocated(shape);
      ghost var c, tie;
      c, at, tie := Prepare(item);
      HoleIsGap(c, item);
      dropped := HangInTree(item, c, tie);
    }

    method SortedRebalance(rebalance: bool)
      requires Valid()
      modifies this`root, this`shape, Nodes(shape)`left, Nodes(shape)`right, Nodes(shape)`parent
      ensures Valid() && (old(Ordered(keyCompare, shape)) ==> Ordered(keyCompare, shape))
      ensures shape == if rebalance then Rebalanced(old(shape)) else old(shape)
      ensures Order() == old(Order()) && Nodes(shape) == old(Nodes(shape)) && (rebalance ==> Balanced(shape))
    {
      if rebalance {
        RebalancedKeepsOrder(shape);
        NodesAllocated(shape);
        OrderedIsAscending(keyCompare, shape);
        OrderedIsAscending(keyCompare, Rebalanced(shape));
        RebalanceAll();
      }
    }

    /** Adds an item; with no item, only rebalances. A new item goes in after
        every key that is not greater, unless the node just before its place has
        an equal key and no right child: then the item is left out. */
    method Add(item: Node?<K, V>, rebalance: bool) returns (ghost at: nat, dropped: bool)
      requires Valid() && (item != null ==> Ordered(keyCompare, shape) && item !in Nodes(shape))
      modifies this`root, this`shape, Nodes(shape)`left, Nodes(shape)`right, Nodes(shape)`parent
      modifies Just(item)`left, Just(item)`right, Just(item)`parent, Just(item)`btree
      ensures Valid() && (rebalance ==> Balanced(shape))
      ensures old(Ordered(keyCompare, shape)) ==> Ordered(keyCompare, shape)
      ensures item == null ==>
        && shape == (if rebalance then Rebalanced(old(shape)) else old(shape))
        && Order() == old(Order()) && Nodes(shape) == old(Nodes(shape))
      ensures item != null ==>
        && item.btree == this && GoesAt(keyCompare, old(Keys()), at, item.key)
        && (dropped <==> GapOnRight(old(shape), at) && at > 0 && keyCompare(item.key, old(Keys())[at - 1]) == 0)
        && Order() == (if dropped then old(Order()) else old(Order())[..at] + [item] + old(Order())[at..])
        && Nodes(shape) == old(Nodes(shape)) + if dropped then {} else {item}
    {
      if item == null {
        SortedRebalance(rebalance);
        return 0, false;
      }
      at, dropped := AddItem(item, rebalance);
    }

    method AddItem(item: Node<K, V>, rebalance: bool) returns (ghost at: nat, dropped: bool)
      requires Valid() && Ordered(keyCompare, shape) && item !in Nodes(shape)
      modifies this`root, this`shape, Nodes(shape)`left, Nodes(shape)`right, Nodes(shape)`parent
      modifies item`left, item`right, item`parent, item`btree
      ensures Valid() && Ordered(keyCompare, shape) && item.btree == this && (rebalance ==> Balanced(shape))
      ensures GoesAt(keyCompare, old(Keys()), at, item.key)
      ensures dropped <==> GapOnRight(old(shape), at) && at > 0 && keyCompare(item.key, old(Keys())[at - 1]) == 0
      ensures Order() == if dropped then old(Order()) else old(Order())[..at] + [item] + old(Order())[at..]
      ensures Nodes(shape) == old(Nodes(shape)) + if dropped then {} else {item}
    {
      at, dropped := Attach(item);
      SortedRebalance(rebalance);
    }

    // ----- taking the tree down -----

    /** Nodes that belong to no tree and link to nothing. */
    static ghost predicate Loose(nodes: set<Node<K, V>>)
      reads nodes`left, nodes`right, nodes`parent, nodes`btree
    {
      forall n :: n in nodes ==> n.left == null && n.right == null && n.parent == null && n.btree == null
    }

    /** Removes a whole subtree, children first. */
    method Prune(item: Node?<K, V>, ghost c: Context<Node<K, V>>, ghost t: Tree<Node<K, V>>)
      requires Placed(c, t) && item == RootOf(t)
      modifies this`root, ContextNodes(c)`left, ContextNodes(c)`right
      modifies Nodes(t)`left, Nodes(t)`right, Nodes(t)`parent, Nodes(t)`btree
      ensures Placed(c, Leaf) && Loose(Nodes(t))
      decreases t, 0
    {
      if item == null {
        return;
      }
      PlaceAllocated(c, t);
      PlacedBelow(c, t);
      if item.left != null {
        Prune(item.left, LeftOf(c, item, t.right), t.left);
      }
      PlacedBelow(c, Branch(Leaf, item, t.right));
      PruneRight(item, c, t.right, Nodes(t.left));
      PruneLeaf(item, c, Nodes(t.left) + Nodes(t.right));
    }

    method PruneLeaf(item: Node<K, V>, ghost c: Context<Node<K, V>>, ghost done: set<Node<K, V>>)
      requires Placed(c, Branch(Leaf, item, Leaf)) && Loose(done) && done !! ContextNodes(c) + {item}
      modifies this`root, ContextNodes(c)`left, ContextNodes(c)`right
      modifies item`left, item`right, item`parent, item`btree
      ensures Placed(c, Leaf) && Loose(done + {item})
    {
      UnlinkAt(item, c, Branch(Leaf, item, Leaf));
      item.btree := null;
    }

    /** The second half of pruning; `done` are the nodes already loose. */
    method PruneRight(item: Node<K, V>, ghost c: Context<Node<K, V>>, ghost r: Tree<Node<K, V>>,
                      ghost done: set<Node<K, V>>)
      requires Placed(c, Branch(Leaf, item, r)) && Loose(done) && done !! ContextNodes(c) + {item} + Nodes(r)
      modifies this`root, ContextNodes(c)`left, ContextNodes(c)`right, item`left, item`right
      modifies Nodes(r)`left, Nodes(r)`right, Nodes(r)`parent, Nodes(r)`btree
      ensures Placed(c, Branch(Leaf, item, Leaf)) && Loose(done + Nodes(r))
      decreases r, 1
    {
      PlacedBelow(c, Branch(Leaf, item, r));
      if item.right != null {
        Prune(item.right, RightOf(c, Leaf, item), r);
      }
      PlacedBelow(c, Branch(Leaf, item, Leaf));
    }

    method Destroy()
      requires Valid()
      modifies this`root, this`shape
      modifies Nodes(shape)`left, Nodes(shape)`right, Nodes(shape)`parent, Nodes(shape)`btree
      ensures root == null && Valid() && Order() == [] && Loose(old(Nodes(shape)))
    {
      PlacedIsWhole(Top, shape);
      Prune(root, Top, shape);
      PlacedIsWhole(Top, Leaf);
      shape := Leaf;
    }
  }
}
