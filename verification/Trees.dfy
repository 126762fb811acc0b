/** Binary trees as values: the shape that the linked nodes of a balanced tree
    spell out, and what the operations of the tree do to that shape. */
module Trees {
  import opened Bits
  import opened Rows

  datatype Tree<T> = Leaf | Branch(left: Tree<T>, node: T, right: Tree<T>)

  function InOrder<T>(t: Tree<T>): seq<T> {
    match t
    case Leaf => []
    case Branch(l, x, r) => InOrder(l) + [x] + InOrder(r)
  }

  function Size<T>(t: Tree<T>): nat {
    match t
    case Leaf => 0
    case Branch(l, _, r) => Size(l) + 1 + Size(r)
  }

  function Max(a: int, b: int): int {
    if a < b then b else a
  }

  function Height<T>(t: Tree<T>): nat {
    match t
    case Leaf => 0
    case Branch(l, _, r) => 1 + Max(Height(l), Height(r))
  }

  lemma {:induction false} SizeIsLength<T>(t: Tree<T>)
    ensures Size(t) == |InOrder(t)|
  {
    if t.Branch? {
      SizeIsLength(t.left);
      SizeIsLength(t.right);
    }
  }

  // ----- the extreme nodes -----

  function Greatest<T>(t: Tree<T>): T
    requires t.Branch?
  {
    if t.right.Leaf? then t.node else Greatest(t.right)
  }

  function DropGreatest<T>(t: Tree<T>): Tree<T>
    requires t.Branch?
  {
    if t.right.Leaf? then t.left else t.(right := DropGreatest(t.right))
  }

  function Least<T>(t: Tree<T>): T
    requires t.Branch?
  {
    if t.left.Leaf? then t.node else Least(t.left)
  }

  function DropLeast<T>(t: Tree<T>): Tree<T>
    requires t.Branch?
  {
    if t.left.Leaf? then t.right else t.(left := DropLeast(t.left))
  }

  lemma {:induction false} GreatestIsLast<T>(t: Tree<T>)
    requires t.Branch?
    ensures InOrder(t) == InOrder(DropGreatest(t)) + [Greatest(t)]
    ensures Size(t) == Size(DropGreatest(t)) + 1
  {
    if t.right.Branch? {
      GreatestIsLast(t.right);
    }
  }

  lemma {:induction false} LeastIsFirst<T>(t: Tree<T>)
    requires t.Branch?
    ensures InOrder(t) == [Least(t)] + InOrder(DropLeast(t))
    ensures Size(t) == Size(DropLeast(t)) + 1
  {
    if t.left.Branch? {
      LeastIsFirst(t.left);
    }
  }

  // ----- trees with a hole -----

  /** A tree with one subtree missing, read from the hole upwards. */
  datatype Context<T> =
    | Top
    | LeftOf(up: Context<T>, node: T, right: Tree<T>)
    | RightOf(up: Context<T>, left: Tree<T>, node: T)

  function Fill<T>(c: Context<T>, t: Tree<T>): Tree<T> {
    match c
    case Top => t
    case LeftOf(up, x, r) => Fill(up, Branch(t, x, r))
    case RightOf(up, l, x) => Fill(up, Branch(l, x, t))
  }

  function Before<T>(c: Context<T>): seq<T> {
    match c
    case Top => []
    case LeftOf(up, _, _) => Before(up)
    case RightOf(up, l, x) => Before(up) + InOrder(l) + [x]
  }

  function After<T>(c: Context<T>): seq<T> {
    match c
    case Top => []
    case LeftOf(up, x, r) => [x] + InOrder(r) + After(up)
    case RightOf(up, _, _) => After(up)
  }

  lemma {:induction false} FillOrder<T>(c: Context<T>, t: Tree<T>)
    ensures InOrder(Fill(c, t)) == Before(c) + InOrder(t) + After(c)
  {
    match c
    case Top =>
    case LeftOf(up, x, r) => FillOrder(up, Branch(t, x, r));
    case RightOf(up, l, x) => FillOrder(up, Branch(l, x, t));
  }

  /** Whether the gap before position `at` of the order is the missing right
      child of the node in front of it, rather than the missing left child of
      the node behind it. */
  predicate GapOnRight<T>(t: Tree<T>, at: nat) {
    t.Branch? &&
    if at <= Size(t.left) then GapOnRight(t.left, at)
    else t.right.Leaf? || GapOnRight(t.right, at - Size(t.left) - 1)
  }

  lemma {:induction false} NoGapAtStart<T>(t: Tree<T>)
    ensures !GapOnRight(t, 0)
  {
    if t.Branch? {
      NoGapAtStart(t.left);
    }
  }

  lemma {:induction false} GapOfContext<T>(c: Context<T>, t: Tree<T>, k: nat)
    requires k <= Size(t) && (t.Leaf? ==> k == 0)
    ensures GapOnRight(Fill(c, t), |Before(c)| + k) <==> if t.Leaf? then c.RightOf? else GapOnRight(t, k)
  {
    match c
    case Top =>
    case LeftOf(up, x, r) => GapOfContext(up, Branch(t, x, r), k);
    case RightOf(up, l, x) =>
      SizeIsLength(l);
      GapOfContext(up, Branch(l, x, t), Size(l) + 1 + k);
  }

  // ----- the nodes of a tree -----

  function Nodes<T(==)>(t: Tree<T>): set<T> {
    match t
    case Leaf => {}
    case Branch(l, x, r) => Nodes(l) + {x} + Nodes(r)
  }

  function ContextNodes<T(==)>(c: Context<T>): set<T> {
    match c
    case Top => {}
    case LeftOf(up, x, r) => ContextNodes(up) + {x} + Nodes(r)
    case RightOf(up, l, x) => ContextNodes(up) + Nodes(l) + {x}
  }

  /** No node occurs twice. */
  predicate Distinct<T(==)>(t: Tree<T>) {
    match t
    case Leaf => true
    case Branch(l, x, r) =>
      x !in Nodes(l) && x !in Nodes(r) && Nodes(l) !! Nodes(r) && Distinct(l) && Distinct(r)
  }

  predicate DistinctContext<T(==)>(c: Context<T>) {
    match c
    case Top => true
    case LeftOf(up, x, r) =>
      x !in Nodes(r) && x !in ContextNodes(up) && Nodes(r) !! ContextNodes(up) && Distinct(r) && DistinctContext(up)
    case RightOf(up, l, x) =>
      x !in Nodes(l) && x !in ContextNodes(up) && Nodes(l) !! ContextNodes(up) && Distinct(l) && DistinctContext(up)
  }

  lemma {:induction false} FillDistinct<T>(c: Context<T>, t: Tree<T>)
    ensures Nodes(Fill(c, t)) == ContextNodes(c) + Nodes(t)
    ensures Distinct(Fill(c, t)) <==> DistinctContext(c) && Distinct(t) && ContextNodes(c) !! Nodes(t)
  {
    match c
    case Top =>
    case LeftOf(up, x, r) => FillDistinct(up, Branch(t, x, r));
    case RightOf(up, l, x) => FillDistinct(up, Branch(l, x, t));
  }

  /** Where a hole is in the order, and what filling it makes of the order. */
  lemma HoleIsGap<T>(c: Context<T>, x: T)
    ensures var s, at, filled := InOrder(Fill(c, Leaf)), |Before(c)|, Fill(c, Branch(Leaf, x, Leaf));
      && at <= |s| && s[..at] == Before(c) && s[at..] == After(c)
      && InOrder(filled) == s[..at] + [x] + s[at..] && Nodes(filled) == Nodes(Fill(c, Leaf)) + {x}
      && (GapOnRight(Fill(c, Leaf), at) <==> c.RightOf?) && (c.RightOf? ==> at > 0 && s[at - 1] == c.node)
  {
    var a, b := Before(c), After(c);
    FillOrder(c, Leaf);
    FillOrder(c, Branch(Leaf, x, Leaf));
    FillDistinct(c, Leaf);
    FillDistinct(c, Branch(Leaf, x, Leaf));
    GapOfContext(c, Leaf, 0);
    assert a + [] + b == a + b && InOrder(Branch(Leaf, x, Leaf)) == [x];
    assert (a + b)[..|a|] == a && (a + b)[|a|..] == b;
    assert c.RightOf? ==> a[|a| - 1] == c.node;
  }

  lemma {:induction false} NodesAreOrder<T>(t: Tree<T>)
    ensures Nodes(t) == Elements(InOrder(t))
  {
    if t.Branch? {
      NodesAreOrder(t.left);
      NodesAreOrder(t.right);
    }
  }

  lemma {:induction false} DistinctIsNoRepeats<T>(t: Tree<T>)
    ensures Distinct(t) <==> NoRepeats(InOrder(t))
  {
    if t.Branch? {
      DistinctIsNoRepeats(t.left);
      DistinctIsNoRepeats(t.right);
      NodesAreOrder(t.left);
      NodesAreOrder(t.right);
      NoRepeatsApart(InOrder(t.left), t.node, InOrder(t.right));
      var a, b := InOrder(t.left), InOrder(t.right);
      if forall y :: y in a ==> y !in b {
        assert Nodes(t.left) !! Nodes(t.right);
      } else {
        var y :| y in a && y in b;
        assert y in Nodes(t.left) && y in Nodes(t.right);
      }
    }
  }

  lemma SameOrderSameNodes<T>(t: Tree<T>, u: Tree<T>)
    requires InOrder(t) == InOrder(u)
    ensures Nodes(t) == Nodes(u) && (Distinct(t) <==> Distinct(u))
  {
    NodesAreOrder(t);
    NodesAreOrder(u);
    DistinctIsNoRepeats(t);
    DistinctIsNoRepeats(u);
  }

  lemma {:induction false} GreatestInside<T>(t: Tree<T>)
    requires t.Branch?
    ensures Greatest(t) in Nodes(t) && Nodes(DropGreatest(t)) <= Nodes(t)
    ensures Distinct(t) ==> Distinct(DropGreatest(t)) && Greatest(t) !in Nodes(DropGreatest(t))
  {
    if t.right.Branch? {
      GreatestInside(t.right);
    }
  }

  lemma {:induction false} LeastInside<T>(t: Tree<T>)
    requires t.Branch?
    ensures Least(t) in Nodes(t) && Nodes(DropLeast(t)) <= Nodes(t)
    ensures Distinct(t) ==> Distinct(DropLeast(t)) && Least(t) !in Nodes(DropLeast(t))
  {
    if t.left.Branch? {
      LeastInside(t.left);
    }
  }

  /** Where the greatest node stands: at the end of a line of right children,
      with at most a left subtree of its own. */
  lemma {:induction false} LocateGreatest<T>(c: Context<T>, t: Tree<T>) returns (above: Context<T>, rest: Tree<T>)
    requires t.Branch? && !c.LeftOf?
    ensures Fill(above, Branch(rest, Greatest(t), Leaf)) == Fill(c, t)
    ensures Fill(above, rest) == Fill(c, DropGreatest(t)) && !above.LeftOf?
    decreases t
  {
    if t.right.Leaf? {
      above, rest := c, t.left;
    } else {
      above, rest := LocateGreatest(RightOf(c, t.left, t.node), t.right);
    }
  }

  lemma {:induction false} LocateLeast<T>(c: Context<T>, t: Tree<T>) returns (above: Context<T>, rest: Tree<T>)
    requires t.Branch? && !c.RightOf?
    ensures Fill(above, Branch(Leaf, Least(t), rest)) == Fill(c, t)
    ensures Fill(above, rest) == Fill(c, DropLeast(t)) && !above.RightOf?
    decreases t
  {
    if t.left.Leaf? {
      above, rest := c, t.right;
    } else {
      above, rest := LocateLeast(LeftOf(c, t.node, t.right), t.left);
    }
  }

  // ----- removing the root of a subtree -----

  /** The root of a subtree is replaced by its neighbour in order on the heavier
      side; a tie is settled in favour of the right side. */
  function Replacement<T>(t: Tree<T>): T
    requires t.Branch? && (t.left.Branch? || t.right.Branch?)
  {
    if Size(t.left) > Size(t.right) then Greatest(t.left) else Least(t.right)
  }

  function LeftRemains<T>(t: Tree<T>): Tree<T>
    requires t.Branch? && (t.left.Branch? || t.right.Branch?)
  {
    if Size(t.left) > Size(t.right) then DropGreatest(t.left) else t.left
  }

  function RightRemains<T>(t: Tree<T>): Tree<T>
    requires t.Branch? && (t.left.Branch? || t.right.Branch?)
  {
    if Size(t.left) > Size(t.right) then t.right else DropLeast(t.right)
  }

  function WithoutRoot<T>(t: Tree<T>): Tree<T>
    requires t.Branch?
  {
    if t.left.Leaf? && t.right.Leaf? then Leaf else Branch(LeftRemains(t), Replacement(t), RightRemains(t))
  }

  /** The heavier side gives the heir, and the right one if they are equal, so that
      a removal brings the weights nearer, or leaves them 1 apart. */
  lemma WithoutRootLevels<T>(t: Tree<T>)
    requires t.Branch? && (t.left.Branch? || t.right.Branch?)
    ensures Imbalance(WithoutRoot(t)) == if Imbalance(t) > 0 then Imbalance(t) - 1 else Imbalance(t) + 1
    ensures -1 <= Imbalance(t) <= 1 ==> -1 <= Imbalance(WithoutRoot(t)) <= 1
  {
    if Size(t.left) > Size(t.right) {
      GreatestIsLast(t.left);
    } else {
      LeastIsFirst(t.right);
    }
  }

  lemma WithoutRootOrder<T>(t: Tree<T>)
    requires t.Branch?
    ensures InOrder(WithoutRoot(t)) == InOrder(t.left) + InOrder(t.right)
  {
    if Size(t.left) > Size(t.right) {
      GreatestIsLast(t.left);
    } else if t.right.Branch? {
      LeastIsFirst(t.right);
      var rest, g := DropLeast(t.right), Least(t.right);
      assert InOrder(Branch(t.left, g, rest)) == InOrder(t.left) + [g] + InOrder(rest);
    }
  }

  /** Removing the root of a subtree takes exactly that node out of the order. */
  lemma FillWithoutRoot<T>(c: Context<T>, t: Tree<T>)
    requires t.Branch? && Distinct(Fill(c, t))
    ensures InOrder(Fill(c, WithoutRoot(t))) == Without(InOrder(Fill(c, t)), t.node)
  {
    var p, l, r, q := Before(c), InOrder(t.left), InOrder(t.right), After(c);
    Regroup(p, l, [t.node], r, q);
    calc {
      InOrder(Fill(c, t));
      { FillOrder(c, t); }
      (p + l) + [t.node] + (r + q);
    }
    DistinctIsNoRepeats(Fill(c, t));
    WithoutOne(p + l, t.node, r + q);
    calc {
      InOrder(Fill(c, WithoutRoot(t)));
      { FillOrder(c, WithoutRoot(t)); WithoutRootOrder(t); }
      p + (l + r) + q;
    }
  }

  lemma WithoutRootNodes<T>(t: Tree<T>)
    requires t.Branch? && Distinct(t)
    ensures Nodes(WithoutRoot(t)) == Nodes(t) - {t.node} && Distinct(WithoutRoot(t))
  {
    if Size(t.left) > Size(t.right) {
      GreatestInside(t.left);
      SplitGreatest(t.left);
    } else if t.right.Branch? {
      LeastInside(t.right);
      SplitLeast(t.right);
    }
  }

  /** Cutting the root of a subtree out of the whole tree. */
  lemma CutOut<T>(c: Context<T>, t: Tree<T>)
    requires t.Branch? && Distinct(Fill(c, t))
    ensures InOrder(Fill(c, WithoutRoot(t))) == Without(InOrder(Fill(c, t)), t.node)
    ensures Nodes(Fill(c, WithoutRoot(t))) == Nodes(Fill(c, t)) - {t.node}
    ensures DistinctContext(c) && Distinct(Fill(c, WithoutRoot(t))) && ContextNodes(c) + Nodes(t) == Nodes(Fill(c, t))
  {
    FillDistinct(c, t);
    FillDistinct(c, WithoutRoot(t));
    FillWithoutRoot(c, t);
    WithoutRootNodes(t);
  }

  /** Cutting off the right side shortens the order, unless it is empty. */
  lemma CutShort<T>(c: Context<T>, t: Tree<T>)
    requires t.Branch?
    ensures InOrder(Fill(c, Branch(t.left, t.node, Leaf))) == InOrder(Fill(c, t)) <==> t.right.Leaf?
  {
    FillOrder(c, t);
    FillOrder(c, Branch(t.left, t.node, Leaf));
    SizeIsLength(t.right);
    assert |InOrder(t)| == |InOrder(t.left)| + 1 + |InOrder(t.right)|;
  }

  lemma HeirApart<T>(t: Tree<T>)
    requires t.Branch? && Distinct(t) && (t.left.Branch? || t.right.Branch?)
    ensures Replacement(t) in Nodes(t.left) || Replacement(t) in Nodes(t.right)
    ensures Nodes(LeftRemains(t)) <= Nodes(t.left) && Nodes(RightRemains(t)) <= Nodes(t.right)
    ensures Distinct(LeftRemains(t)) && Distinct(RightRemains(t))
    ensures Replacement(t) !in Nodes(LeftRemains(t)) && Replacement(t) !in Nodes(RightRemains(t))
    ensures Replacement(t) != t.node
  {
    if Size(t.left) > Size(t.right) {
      GreatestInside(t.left);
    } else {
      LeastInside(t.right);
    }
  }

  lemma SplitGreatest<T>(t: Tree<T>)
    requires t.Branch?
    ensures Nodes(t) == Nodes(DropGreatest(t)) + {Greatest(t)}
  {
    if t.right.Branch? {
      SplitGreatest(t.right);
    }
  }

  lemma SplitLeast<T>(t: Tree<T>)
    requires t.Branch?
    ensures Nodes(t) == Nodes(DropLeast(t)) + {Least(t)}
  {
    if t.left.Branch? {
      SplitLeast(t.left);
    }
  }

  /** Where a node stands: the subtree it heads and the context around it. */
  lemma {:induction false} Locate<T>(c: Context<T>, t: Tree<T>, x: T) returns (d: Context<T>, s: Tree<T>)
    requires x in Nodes(t)
    ensures s.Branch? && s.node == x && Fill(d, s) == Fill(c, t)
    decreases t
  {
    if x == t.node {
      d, s := c, t;
    } else if x in Nodes(t.left) {
      d, s := Locate(LeftOf(c, t.node, t.right), t.left, x);
    } else {
      d, s := Locate(RightOf(c, t.left, t.node), t.right, x);
    }
  }

  // ----- rebalancing -----

  function Imbalance<T>(t: Tree<T>): int
    requires t.Branch?
  {
    Size(t.left) - Size(t.right)
  }

  /** One step of the rebalancing loop: the in-order predecessor of the root
      becomes the root, and the old root heads the right subtree. */
  function ShiftRight<T>(t: Tree<T>): Tree<T>
    requires t.Branch? && t.left.Branch?
  {
    Branch(DropGreatest(t.left), Greatest(t.left), Branch(Leaf, t.node, t.right))
  }

  function ShiftLeft<T>(t: Tree<T>): Tree<T>
    requires t.Branch? && t.right.Branch?
  {
    Branch(Branch(t.left, t.node, Leaf), Least(t.right), DropLeast(t.right))
  }

  lemma ShiftRightKeepsOrder<T>(t: Tree<T>)
    requires t.Branch? && t.left.Branch?
    ensures InOrder(ShiftRight(t)) == InOrder(t)
  {
    GreatestIsLast(t.left);
    var a, g, r := InOrder(DropGreatest(t.left)), Greatest(t.left), InOrder(t.right);
    calc {
      InOrder(ShiftRight(t));
      a + [g] + InOrder(Branch(Leaf, t.node, t.right));
      { OrderOfLine(t.right, t.node); }
      a + [g] + ([t.node] + r);
      { Reassociate(a + [g], [t.node], r); }
      a + [g] + [t.node] + r;
    }
  }

  lemma OrderOfLine<T>(t: Tree<T>, x: T)
    ensures InOrder(Branch(t, x, Leaf)) == InOrder(t) + [x]
    ensures InOrder(Branch(Leaf, x, t)) == [x] + InOrder(t)
  {
  }

  /** A shift takes one node from one side to the other. */
  lemma ShiftLevels<T>(t: Tree<T>)
    requires t.Branch?
    ensures t.left.Branch? ==> Imbalance(ShiftRight(t)) == Imbalance(t) - 2
    ensures t.right.Branch? ==> Imbalance(ShiftLeft(t)) == Imbalance(t) + 2
  {
    if t.left.Branch? {
      GreatestIsLast(t.left);
      assert Size(Branch(Leaf, t.node, t.right)) == 1 + Size(t.right);
    }
    if t.right.Branch? {
      LeastIsFirst(t.right);
      assert Size(Branch(t.left, t.node, Leaf)) == Size(t.left) + 1;
    }
  }

  lemma ShiftLeftKeepsOrder<T>(t: Tree<T>)
    requires t.Branch? && t.right.Branch?
    ensures InOrder(ShiftLeft(t)) == InOrder(t)
  {
    LeastIsFirst(t.right);
    var l, g, b := InOrder(t.left), Least(t.right), InOrder(DropLeast(t.right));
    calc {
      InOrder(ShiftLeft(t));
      InOrder(Branch(t.left, t.node, Leaf)) + [g] + b;
      { OrderOfLine(t.left, t.node); }
      l + [t.node] + [g] + b;
      { Reassociate(l + [t.node], [g], b); }
      l + [t.node] + ([g] + b);
    }
  }

  lemma ShiftKeepsNodes<T>(t: Tree<T>)
    requires t.Branch? && Distinct(t)
    ensures t.left.Branch? ==> Nodes(ShiftRight(t)) == Nodes(t) && Distinct(ShiftRight(t))
    ensures t.right.Branch? ==> Nodes(ShiftLeft(t)) == Nodes(t) && Distinct(ShiftLeft(t))
  {
    if t.left.Branch? {
      ShiftRightKeepsOrder(t);
      SameOrderSameNodes(t, ShiftRight(t));
    }
    if t.right.Branch? {
      ShiftLeftKeepsOrder(t);
      SameOrderSameNodes(t, ShiftLeft(t));
    }
  }

  function Abs(x: int): nat {
    if x < 0 then -x else x
  }

  /** The whole loop at one root. It ends because a shift takes 2 off an
      imbalance of at least 2 and so never changes its sign. */
  function BalanceRoot<T>(t: Tree<T>): (b: Tree<T>)
    requires t.Branch?
    ensures b.Branch? && -1 <= Imbalance(b) <= 1
    ensures InOrder(b) == InOrder(t)
    decreases Abs(Imbalance(t))
  {
    if Imbalance(t) > 1 then
      ShiftRightKeepsOrder(t);
      ShiftLevels(t);
      BalanceRoot(ShiftRight(t))
    else if Imbalance(t) < -1 then
      ShiftLeftKeepsOrder(t);
      ShiftLevels(t);
      BalanceRoot(ShiftLeft(t))
    else
      t
  }

  lemma BalanceRootSize<T>(t: Tree<T>)
    requires t.Branch?
    ensures Size(BalanceRoot(t)) == Size(t)
  {
    SizeIsLength(t);
    SizeIsLength(BalanceRoot(t));
  }

  /** What rebalancing makes of a tree: balance the root, then both subtrees. */
  function Rebalanced<T>(t: Tree<T>): Tree<T>
    decreases Size(t)
  {
    if t.Leaf? then
      Leaf
    else
      BalanceRootSize(t);
      var b := BalanceRoot(t);
      Branch(Rebalanced(b.left), b.node, Rebalanced(b.right))
  }

  predicate Balanced<T>(t: Tree<T>) {
    t.Branch? ==> -1 <= Imbalance(t) <= 1 && Balanced(t.left) && Balanced(t.right)
  }

  lemma {:induction false} RebalancedKeepsOrder<T>(t: Tree<T>)
    ensures InOrder(Rebalanced(t)) == InOrder(t)
    ensures Balanced(Rebalanced(t))
    decreases Size(t)
  {
    if t.Branch? {
      BalanceRootSize(t);
      var b := BalanceRoot(t);
      RebalancedKeepsOrder(b.left);
      RebalancedKeepsOrder(b.right);
      SizeIsLength(b.left);
      SizeIsLength(b.right);
      SizeIsLength(Rebalanced(b.left));
      SizeIsLength(Rebalanced(b.right));
    }
  }

  lemma {:induction false} RebalancedLeavesBalanced<T>(t: Tree<T>)
    requires Balanced(t)
    ensures Rebalanced(t) == t
  {
    if t.Branch? {
      RebalancedLeavesBalanced(t.left);
      RebalancedLeavesBalanced(t.right);
    }
  }

  // ----- height -----

  /** The number of binary digits of n: floor(log2 n) + 1 for n > 0. */
  function Digits(n: nat): nat {
    if n == 0 then 0 else 1 + Digits(n / 2)
  }

  lemma {:induction false} DigitsIsLog(n: nat)
    requires n > 0
    ensures Digits(n) > 0 && Pow2(Digits(n) - 1) <= n < Pow2(Digits(n))
  {
    if n > 1 {
      DigitsIsLog(n / 2);
    } else {
      assert Digits(1 / 2) == 0;
    }
  }

  lemma {:induction false} DigitsMonotone(a: nat, b: nat)
    requires a <= b
    ensures Digits(a) <= Digits(b)
  {
    if a > 0 {
      DigitsMonotone(a / 2, b / 2);
    }
  }

  /** No binary tree of this size is lower. */
  lemma {:induction false} HeightAtLeast<T>(t: Tree<T>)
    ensures Digits(Size(t)) <= Height(t)
  {
    if t.Branch? {
      HeightAtLeast(t.left);
      HeightAtLeast(t.right);
      var m := Max(Size(t.left), Size(t.right));
      DigitsMonotone(Size(t) / 2, m);
      DigitsMonotone(Size(t.left), m);
    }
  }

  lemma {:induction false} BalancedHeight<T>(t: Tree<T>)
    requires Balanced(t)
    ensures Height(t) == Digits(Size(t))
  {
    if t.Branch? {
      BalancedHeight(t.left);
      BalancedHeight(t.right);
      DigitsMonotone(Size(t.left), Size(t) / 2);
      DigitsMonotone(Size(t.right), Size(t) / 2);
      assert Max(Size(t.left), Size(t.right)) == Size(t) / 2;
    }
  }

  /** After rebalancing, n > 0 nodes stand floor(log2 n) + 1 high, and that is
      the least height any arrangement of the same nodes could have. */
  lemma RebalancedIsLowest<T>(t: Tree<T>, other: Tree<T>)
    requires InOrder(other) == InOrder(t)
    ensures Height(Rebalanced(t)) <= Height(other)
    ensures t.Branch? ==>
      var h := Height(Rebalanced(t));
      h > 0 && Pow2(h - 1) <= |InOrder(t)| < Pow2(h)
  {
    var r := Rebalanced(t);
    RebalancedKeepsOrder(t);
    BalancedHeight(r);
    SizeIsLength(r);
    SizeIsLength(other);
    HeightAtLeast(other);
    if t.Branch? {
      DigitsIsLog(Size(r));
    }
  }
}
