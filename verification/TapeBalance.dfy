/** Height balance of the leaf tree.

    `build_balanced` does not establish the AVL condition (five leaves give heights 3 and 1),
    so two shapes are tracked: `Balanced`, the AVL condition, and `Leaning`, which also allows
    a tall perfect left child anywhere on the right spine. */
module TapeBalance {
  import opened Wrappers
  import opened LeafOrder
  import opened TapeTree

  predicate Balanced(node: Node) {
    node.Branch? ==>
      && Balanced(node.left) && Balanced(node.right)
      && node.left.Height() <= node.right.Height() + 1
      && node.right.Height() <= node.left.Height() + 1
  }

  predicate Perfect(node: Node) {
    node.Branch? ==>
      && Perfect(node.left) && Perfect(node.right)
      && node.left.Height() == node.right.Height()
  }

  predicate Leaning(node: Node) {
    node.Branch? ==>
      && Balanced(node.left) && Leaning(node.right)
      && node.right.Height() <= node.left.Height() + 1
      && (node.left.Height() <= node.right.Height() + 1 || Perfect(node.left))
  }

  predicate OBalanced(root: Option<Node>) {
    root.Some? ==> Balanced(root.value)
  }

  predicate OLeaning(root: Option<Node>) {
    root.Some? ==> Leaning(root.value)
  }

  lemma {:induction false} PerfectBalanced(node: Node)
    requires Perfect(node)
    ensures Balanced(node)
  {
    if node.Branch? {
      PerfectBalanced(node.left);
      PerfectBalanced(node.right);
    }
  }

  lemma {:induction false} BalancedLeaning(node: Node)
    requires Balanced(node)
    ensures Leaning(node)
  {
    if node.Branch? { BalancedLeaning(node.right); }
  }

  predicate Grows(h: nat, a: nat, b: nat) {
    Max(a, b) <= h <= Max(a, b) + 1
  }

  /** A rebalance grows, and certainly does when it has nothing to rotate. */
  predicate Settles(h: nat, a: nat, b: nat) {
    Grows(h, a, b) && (a <= b + 1 && b <= a + 1 ==> h == Max(a, b) + 1)
  }

  // ------------------------------------------------------------------ rotation shapes

  /** One branch over two given children, with its height cache. */
  predicate Over(node: Node, left: Node, right: Node) {
    && node.Branch? && node.left == left && node.right == right
    && node.height == Max(left.Height(), right.Height()) + 1
  }

  /** a (b c) */
  predicate RightNested(node: Node, a: Node, b: Node, c: Node) {
    node.Branch? && Over(node, a, node.right) && Over(node.right, b, c)
  }

  /** (a b) c */
  predicate LeftNested(node: Node, a: Node, b: Node, c: Node) {
    node.Branch? && Over(node, node.left, c) && Over(node.left, a, b)
  }

  /** (a b) (c d) */
  predicate Paired(node: Node, a: Node, b: Node, c: Node, d: Node) {
    node.Branch? && Over(node, node.left, node.right) && Over(node.left, a, b) && Over(node.right, c, d)
  }

  /** What a rebalance with a too tall left child builds. */
  predicate RotatedRight(node: Node, left: Node, right: Node) {
    && left.Branch? && Over(left, left.left, left.right)
    && left.left.Height() >= 1 && left.right.Height() >= 1
    && if left.left.Height() >= left.right.Height()
       then RightNested(node, left.left, left.right, right)
       else
         && left.right.Branch? && Over(left.right, left.right.left, left.right.right)
         && Paired(node, left.left, left.right.left, left.right.right, right)
  }

  /** What a rebalance with a too tall right child builds. */
  predicate RotatedLeft(node: Node, left: Node, right: Node) {
    && right.Branch? && Over(right, right.left, right.right)
    && right.left.Height() >= 1 && right.right.Height() >= 1
    && if right.right.Height() >= right.left.Height()
       then LeftNested(node, left, right.left, right.right)
       else
         && right.left.Branch? && Over(right.left, right.left.left, right.left.right)
         && Paired(node, left, right.left.left, right.left.right, right.right)
  }

  predicate Rebalanced(node: Node, left: Node, right: Node) {
    if left.Height() > right.Height() + 1 then RotatedRight(node, left, right)
    else if right.Height() > left.Height() + 1 then RotatedLeft(node, left, right)
    else Over(node, left, right)
  }

  lemma RebalanceShape(left: Node, right: Node, next: nat)
    requires Adjacent(left, right)
    ensures Rebalanced(Rebalance(left, right, next).node, left, right)
  {
    if left.Height() > right.Height() + 1 {
      RotateRightShape(left, right, next);
    } else if right.Height() > left.Height() + 1 {
      RotateLeftShape(left, right, next);
    }
  }

  lemma RotateRightShape(left: Node, right: Node, next: nat)
    requires Adjacent(left, right) && left.Height() > right.Height() + 1
    ensures RotatedRight(RotateRight(left, right, next).node, left, right)
  {
    Heights(left);
    Heights(right);
    Heights(left.left);
    Heights(left.right);
  }

  lemma RotateLeftShape(left: Node, right: Node, next: nat)
    requires Adjacent(left, right) && right.Height() > left.Height() + 1
    ensures RotatedLeft(RotateLeft(left, right, next).node, left, right)
  {
    Heights(left);
    Heights(right);
    Heights(right.left);
    Heights(right.right);
  }

  // ------------------------------------------------------------------ AVL

  lemma RotatedRightBalanced(node: Node, left: Node, right: Node)
    requires RotatedRight(node, left, right) && Balanced(left) && Balanced(right)
    requires left.Height() == right.Height() + 2
    ensures Balanced(node) && Grows(node.Height(), left.Height(), right.Height())
  {
  }

  lemma RotatedLeftBalanced(node: Node, left: Node, right: Node)
    requires RotatedLeft(node, left, right) && Balanced(left) && Balanced(right)
    requires right.Height() == left.Height() + 2
    ensures Balanced(node) && Grows(node.Height(), left.Height(), right.Height())
  {
  }

  lemma RebalancedBalanced(node: Node, left: Node, right: Node)
    requires Rebalanced(node, left, right) && Balanced(left) && Balanced(right)
    requires left.Height() <= right.Height() + 2 && right.Height() <= left.Height() + 2
    ensures Balanced(node) && Settles(node.Height(), left.Height(), right.Height())
  {
    if left.Height() > right.Height() + 1 {
      RotatedRightBalanced(node, left, right);
    } else if right.Height() > left.Height() + 1 {
      RotatedLeftBalanced(node, left, right);
    }
  }

  /** The three ways a join can end, in terms of its recursive call. */
  lemma JoinStep(left: Node, right: Node, next: nat)
    requires Adjacent(left, right)
    ensures left.Height() >= 1 && right.Height() >= 1
    ensures left.Height() > right.Height() + 1 ==>
      && left.Branch? && Over(left, left.left, left.right)
      && left.left.Height() >= 1 && left.right.Height() >= 1
      && Adjacent(left.right, right)
      && Rebalanced(Join(left, right, next).node, left.left, Join(left.right, right, next).node)
    ensures right.Height() > left.Height() + 1 ==>
      && right.Branch? && Over(right, right.left, right.right)
      && right.left.Height() >= 1 && right.right.Height() >= 1
      && Adjacent(left, right.left)
      && Rebalanced(Join(left, right, next).node, Join(left, right.left, next).node, right.right)
    ensures left.Height() <= right.Height() + 1 && right.Height() <= left.Height() + 1 ==>
      || Over(Join(left, right, next).node, left, right)
      || (left.Leaf? && right.Leaf? && Join(left, right, next).node.Leaf?)
  {
    Heights(left);
    Heights(right);
    if left.Height() > right.Height() + 1 {
      Heights(left.left);
      Heights(left.right);
      var joined := Join(left.right, right, next);
      RebalanceShape(left.left, joined.node, joined.next);
    } else if right.Height() > left.Height() + 1 {
      Heights(right.left);
      Heights(right.right);
      AdjacentLeft(left, right);
      var joined := Join(left, right.left, next);
      AtMostBefore(joined.node.Last(), right.left.Last(), right.right.First());
      RebalanceShape(joined.node, right.right, joined.next);
    }
  }

  /** Heights around a join that recursed into the right half of its left operand. */
  lemma LeftGrowth(n: nat, l: nat, ll: nat, lr: nat, r: nat, joined: nat)
    requires l == Max(ll, lr) + 1 && l > r + 1 && ll <= lr + 1 && lr <= ll + 1
    requires Grows(joined, lr, r)
    ensures ll <= joined + 1 && joined <= ll + 2
    ensures Settles(n, ll, joined) ==> Grows(n, l, r)
  {
  }

  lemma RightGrowth(n: nat, r: nat, rl: nat, rr: nat, l: nat, joined: nat)
    requires r == Max(rl, rr) + 1 && r > l + 1 && rl <= rr + 1 && rr <= rl + 1
    requires Grows(joined, l, rl)
    ensures rr <= joined + 1 && joined <= rr + 2
    ensures Settles(n, joined, rr) ==> Grows(n, l, r)
  {
  }

  /** Concatenating balanced trees gives a balanced tree as tall as the taller one, or one more. */
  lemma {:induction false} JoinBalanced(left: Node, right: Node, next: nat)
    requires Adjacent(left, right) && Balanced(left) && Balanced(right)
    ensures Balanced(Join(left, right, next).node)
    ensures Grows(Join(left, right, next).node.Height(), left.Height(), right.Height())
    decreases left, right
  {
    JoinStep(left, right, next);
    var node := Join(left, right, next).node;
    if left.Height() > right.Height() + 1 {
      JoinBalanced(left.right, right, next);
      var joined := Join(left.right, right, next).node;
      LeftGrowth(node.Height(), left.Height(), left.left.Height(), left.right.Height(),
        right.Height(), joined.Height());
      RebalancedBalanced(node, left.left, joined);
    } else if right.Height() > left.Height() + 1 {
      JoinBalanced(left, right.left, next);
      var joined := Join(left, right.left, next).node;
      RightGrowth(node.Height(), right.Height(), right.left.Height(), right.right.Height(),
        left.Height(), joined.Height());
      RebalancedBalanced(node, joined, right.right);
    }
  }

  predicate NoTaller(root: Option<Node>, node: Node) {
    root.Some? ==> root.value.Height() <= node.Height()
  }

  /** Two balanced pieces, neither taller than the original. */
  ghost predicate BalancedPieces(cut: Cut, node: Node) {
    && OBalanced(cut.prefix) && OBalanced(cut.suffix)
    && NoTaller(cut.prefix, node) && NoTaller(cut.suffix, node)
  }

  /** Splitting a balanced tree gives two balanced trees, neither taller than the original. */
  lemma {:induction false} SplitBalanced(node: Node, rank: nat, upper: Option<Key>, next: nat)
    requires Valid(node) && FitsBelow(node, upper) && Balanced(node)
    ensures BalancedPieces(Split(node, rank, upper, next), node)
  {
    if rank == 0 || rank >= node.Len() || node.Leaf? {
      SplitBalancedAtom(node, rank, upper, next);
    } else if rank < node.left.Len() {
      var below := SplitLeft(node, rank, upper, next);
      SplitBalanced(node.left, rank, Some(node.right.First()), next);
      BalancedFromLeft(node, below, Split(node, rank, upper, next));
    } else {
      var rest := Span(node.left.Len(), rank);
      var below := SplitRight(node, rank, rest, upper, next);
      SplitBalanced(node.right, rest, upper, next);
      BalancedFromRight(node, below, Split(node, rank, upper, next));
    }
  }

  lemma SplitBalancedAtom(node: Node, rank: nat, upper: Option<Key>, next: nat)
    requires Valid(node) && FitsBelow(node, upper) && Balanced(node)
    requires rank == 0 || rank >= node.Len() || node.Leaf?
    ensures BalancedPieces(Split(node, rank, upper, next), node)
  {
  }

  lemma BalancedFromLeft(node: Node, below: Cut, cut: Cut)
    requires Valid(node) && node.Branch? && Balanced(node)
    requires below.suffix.Some? && Adjacent(below.suffix.value, node.right) && BalancedPieces(below, node.left)
    requires cut.prefix == below.prefix
    requires cut.suffix == Some(Join(below.suffix.value, node.right, below.next).node)
    ensures BalancedPieces(cut, node)
  {
    JoinBalanced(below.suffix.value, node.right, below.next);
  }

  lemma BalancedFromRight(node: Node, below: Cut, cut: Cut)
    requires Valid(node) && node.Branch? && Balanced(node)
    requires OAdjacent(Some(node.left), below.prefix) && BalancedPieces(below, node.right)
    requires cut.prefix == Concat(Some(node.left), below.prefix, below.next).root && cut.suffix == below.suffix
    ensures BalancedPieces(cut, node)
  {
    if below.prefix.Some? { JoinBalanced(node.left, below.prefix.value, below.next); }
  }

  function Fibonacci(n: nat): nat {
    if n < 2 then n else Fibonacci(n - 1) + Fibonacci(n - 2)
  }

  lemma {:induction false} FibonacciMonotone(n: nat)
    ensures Fibonacci(n) <= Fibonacci(n + 1)
  {
    if n > 0 { FibonacciMonotone(n - 1); }
  }

  /** A balanced tree of height `h` has at least Fibonacci(h) leaves. */
  lemma {:induction false} BalancedLeafCount(node: Node)
    requires Valid(node) && Balanced(node)
    ensures |Leaves(node)| >= Fibonacci(node.Height())
  {
    Heights(node);
    if node.Branch? {
      BalancedLeafCount(node.left);
      BalancedLeafCount(node.right);
      var h := node.Height();
      Heights(node.left);
      Heights(node.right);
      FibonacciMonotone(h - 2);
      if h > 2 {
        assert Fibonacci(h) == Fibonacci(h - 1) + Fibonacci(h - 2);
      }
    }
  }

  // ------------------------------------------------------------------ leaning trees

  /** Left child perfect and too tall: one rotation keeps the shape. */
  lemma RotatePerfect(node: Node, left: Node, right: Node)
    requires RotatedRight(node, left, right) && Perfect(left) && Leaning(right)
    requires left.Height() > right.Height() + 1
    ensures Leaning(node) && node.Height() == left.Height() + 1
  {
    assert left.left.Height() == left.right.Height();
    PerfectBalanced(left.left);
    PerfectBalanced(left.right);
  }

  lemma RotateLeaningLeft(node: Node, left: Node, right: Node)
    requires RotatedLeft(node, left, right) && Balanced(left) && Leaning(right)
    requires right.Height() == left.Height() + 2
    ensures Leaning(node) && Grows(node.Height(), left.Height(), right.Height())
  {
    if right.right.Height() < right.left.Height() {
      PairLeaning(node, left, right);
    }
  }

  lemma PairLeaning(node: Node, left: Node, right: Node)
    requires RotatedLeft(node, left, right) && Balanced(left) && Leaning(right)
    requires right.Height() == left.Height() + 2
    requires right.right.Height() < right.left.Height()
    ensures Leaning(node) && Grows(node.Height(), left.Height(), right.Height())
  {
    var pivot := right.left;
    assert Balanced(pivot);
    BalancedLeaning(pivot.right);
    assert right.left.Height() <= right.right.Height() + 1 || Perfect(pivot);
  }

  lemma BalancedOntoLeaning(node: Node, left: Node, right: Node)
    requires RotatedRight(node, left, right) && Balanced(left) && Leaning(right)
    requires left.Height() == right.Height() + 2
    ensures Leaning(node) && Grows(node.Height(), left.Height(), right.Height())
  {
  }

  predicate PerfectHalf(node: Node) {
    node.Branch? && Perfect(node.right)
  }

  lemma PerfectHalfOntoLeaning(node: Node, left: Node, right: Node)
    requires RotatedRight(node, left, right)
    requires Balanced(left) && PerfectHalf(left) && Leaning(right)
    requires left.Height() > right.Height() + 1
    ensures Leaning(node) && Grows(node.Height(), left.Height(), right.Height())
    ensures left.left.Height() == left.right.Height() ==> node.Height() == left.Height() + 1
  {
    PerfectBalanced(left.right);
    if left.left.Height() < left.right.Height() {
      PerfectBalanced(left.right.right);
    }
  }

  /** Rebalancing when the right side may have grown, or the left is perfect and taller. */
  lemma RebalancedLeaning(node: Node, left: Node, right: Node)
    requires Rebalanced(node, left, right) && Balanced(left) && Leaning(right)
    requires right.Height() <= left.Height() + 2
    requires left.Height() <= right.Height() + 1 || Perfect(left)
    ensures Leaning(node) && Settles(node.Height(), left.Height(), right.Height())
    ensures node.Height() > left.Height()
  {
    if left.Height() > right.Height() + 1 {
      RotatePerfect(node, left, right);
    } else if right.Height() > left.Height() + 1 {
      RotateLeaningLeft(node, left, right);
    }
  }

  lemma OntoBalancedSpine(node: Node, left: Node, right: Node)
    requires Rebalanced(node, left, right) && Balanced(left) && Leaning(right)
    requires right.Height() <= left.Height() + 1 && left.Height() <= right.Height() + 2
    ensures Leaning(node) && Settles(node.Height(), left.Height(), right.Height())
  {
    if left.Height() == right.Height() + 2 {
      BalancedOntoLeaning(node, left, right);
    }
  }

  /** Joining a balanced tree with a leaning one on its right. */
  lemma {:induction false} JoinLeaning(left: Node, right: Node, next: nat)
    requires Adjacent(left, right) && Balanced(left) && Leaning(right)
    ensures Leaning(Join(left, right, next).node)
    ensures Grows(Join(left, right, next).node.Height(), left.Height(), right.Height())
    decreases left, right
  {
    JoinStep(left, right, next);
    var node := Join(left, right, next).node;
    if left.Height() > right.Height() + 1 {
      JoinLeaning(left.right, right, next);
      JoinLeaningOver(left, right, Join(left.right, right, next).node, node);
    } else if right.Height() > left.Height() + 1 {
      JoinBalanced(left, right.left, next);
      if right.left.Height() <= right.right.Height() + 1 {
        JoinLeaningUnder(left, right, Join(left, right.left, next).node, node);
      } else {
        JoinPerfectHalf(left, right.left, next);
        JoinPerfectUnder(left, right, Join(left, right.left, next).node, node);
      }
    }
  }

  /** The join went down the right spine of a taller left tree. */
  lemma JoinLeaningOver(left: Node, right: Node, joined: Node, node: Node)
    requires left.Branch? && Over(left, left.left, left.right) && Balanced(left) && Leaning(right)
    requires left.left.Height() >= 1 && left.right.Height() >= 1 && right.Height() >= 1
    requires left.Height() > right.Height() + 1 && Rebalanced(node, left.left, joined)
    requires Leaning(joined) && Grows(joined.Height(), left.right.Height(), right.Height())
    ensures Leaning(node) && Grows(node.Height(), left.Height(), right.Height())
  {
    LeftGrowth(node.Height(), left.Height(), left.left.Height(), left.right.Height(),
      right.Height(), joined.Height());
    RebalancedLeaning(node, left.left, joined);
  }

  /** The join went into the left child of a taller right tree that is level at its root. */
  lemma JoinLeaningUnder(left: Node, right: Node, joined: Node, node: Node)
    requires right.Branch? && Over(right, right.left, right.right) && Leaning(right)
    requires right.left.Height() >= 1 && right.right.Height() >= 1 && left.Height() >= 1
    requires right.Height() > left.Height() + 1 && Rebalanced(node, joined, right.right)
    requires Balanced(joined) && Grows(joined.Height(), left.Height(), right.left.Height())
    requires right.left.Height() <= right.right.Height() + 1
    ensures Leaning(node) && Grows(node.Height(), left.Height(), right.Height())
  {
    RightGrowth(node.Height(), right.Height(), right.left.Height(), right.right.Height(),
      left.Height(), joined.Height());
    OntoBalancedSpine(node, joined, right.right);
  }

  /** The join went into the perfect left child of a right tree that leans at its root. */
  lemma JoinPerfectUnder(left: Node, right: Node, joined: Node, node: Node)
    requires right.Branch? && Over(right, right.left, right.right) && Leaning(right)
    requires right.Height() > left.Height() + 1 && Rebalanced(node, joined, right.right)
    requires Balanced(joined) && Grows(joined.Height(), left.Height(), right.left.Height())
    requires right.left.Height() > right.right.Height() + 1 && joined.Branch? && PerfectHalf(joined)
    requires joined.Height() == right.left.Height() ==> joined.left.Height() == joined.right.Height()
    ensures Leaning(node) && Grows(node.Height(), left.Height(), right.Height())
  {
    PerfectHalfOntoLeaning(node, joined, right.right);
    PerfectGrowth(node.Height(), right.Height(), right.left.Height(), right.right.Height(),
      left.Height(), joined.Height());
  }

  lemma PerfectGrowth(n: nat, r: nat, rl: nat, rr: nat, l: nat, joined: nat)
    requires r == Max(rl, rr) + 1 && r > l + 1 && rl > rr + 1
    requires Grows(joined, l, rl) && Grows(n, joined, rr) && (joined == rl ==> n == joined + 1)
    ensures Grows(n, l, r)
  {
  }

  /** Joining onto the left of a perfect tree never rotates, so its right half survives. */
  lemma JoinPerfectHalf(left: Node, right: Node, next: nat)
    requires Adjacent(left, right) && Balanced(left) && Perfect(right) && right.Branch?
    requires left.Height() <= right.Height() + 1
    ensures PerfectHalf(Join(left, right, next).node)
    ensures Join(left, right, next).node.right
         == if right.Height() > left.Height() + 1 then right.right else right
    ensures Join(left, right, next).node.Height() == right.Height()
        ==> Join(left, right, next).node.left.Height() == Join(left, right, next).node.right.Height()
  {
    JoinStep(left, right, next);
    PerfectBalanced(right);
    if right.Height() > left.Height() + 1 {
      JoinBalanced(left, right.left, next);
    }
  }

  /** A short balanced tree may be appended to a leaning one. */
  lemma {:induction false} JoinShortOntoLeaning(left: Node, right: Node, next: nat)
    requires Adjacent(left, right) && Leaning(left) && Balanced(right)
    requires right.Height() <= 2
    ensures Leaning(Join(left, right, next).node)
    ensures Grows(Join(left, right, next).node.Height(), left.Height(), right.Height())
    decreases left
  {
    if Balanced(left) {
      JoinBalanced(left, right, next);
      BalancedLeaning(Join(left, right, next).node);
    } else {
      UnbalancedIsTall(left);
      JoinStep(left, right, next);
      JoinShortOntoLeaning(left.right, right, next);
      RebalancedLeaning(Join(left, right, next).node, left.left, Join(left.right, right, next).node);
    }
  }

  lemma {:induction false} UnbalancedIsTall(node: Node)
    requires Valid(node) && Leaning(node) && !Balanced(node)
    ensures node.Branch? && node.Height() >= 4
  {
    Heights(node.right);
    if !Balanced(node.right) {
      UnbalancedIsTall(node.right);
    }
  }

  /** A balanced prefix unless nothing is cut off, and a leaning suffix. */
  ghost predicate LeaningPieces(cut: Cut, node: Node, rank: nat) {
    && (rank < node.Len() ==> OBalanced(cut.prefix)) && OLeaning(cut.suffix)
    && NoTaller(cut.prefix, node) && NoTaller(cut.suffix, node)
  }

  /** Splitting a leaning tree: the part before the cut is balanced, the rest still leans. */
  lemma {:induction false} SplitLeaning(node: Node, rank: nat, upper: Option<Key>, next: nat)
    requires Valid(node) && FitsBelow(node, upper) && Leaning(node)
    ensures LeaningPieces(Split(node, rank, upper, next), node, rank)
  {
    if rank == 0 || rank >= node.Len() || node.Leaf? {
      SplitLeaningAtom(node, rank, upper, next);
    } else if rank < node.left.Len() {
      var below := SplitLeft(node, rank, upper, next);
      SplitBalanced(node.left, rank, Some(node.right.First()), next);
      LeaningFromLeft(node, below, rank, Split(node, rank, upper, next));
    } else {
      var rest := Span(node.left.Len(), rank);
      var below := SplitRight(node, rank, rest, upper, next);
      SplitLeaning(node.right, rest, upper, next);
      LeaningFromRight(node, below, rank, rest, Split(node, rank, upper, next));
    }
  }

  lemma SplitLeaningAtom(node: Node, rank: nat, upper: Option<Key>, next: nat)
    requires Valid(node) && FitsBelow(node, upper) && Leaning(node)
    requires rank == 0 || rank >= node.Len() || node.Leaf?
    ensures LeaningPieces(Split(node, rank, upper, next), node, rank)
  {
  }

  lemma LeaningFromLeft(node: Node, below: Cut, rank: nat, cut: Cut)
    requires Valid(node) && node.Branch? && Leaning(node)
    requires below.suffix.Some? && Adjacent(below.suffix.value, node.right) && BalancedPieces(below, node.left)
    requires cut.prefix == below.prefix
    requires cut.suffix == Some(Join(below.suffix.value, node.right, below.next).node)
    ensures LeaningPieces(cut, node, rank)
  {
    JoinLeaning(below.suffix.value, node.right, below.next);
  }

  lemma LeaningFromRight(node: Node, below: Cut, rank: nat, rest: nat, cut: Cut)
    requires Valid(node) && node.Branch? && Leaning(node)
    requires node.left.Len() <= rank < node.Len() && rest == Span(node.left.Len(), rank)
    requires OAdjacent(Some(node.left), below.prefix) && LeaningPieces(below, node.right, rest)
    requires cut.prefix == Concat(Some(node.left), below.prefix, below.next).root && cut.suffix == below.suffix
    ensures LeaningPieces(cut, node, rank)
  {
    if below.prefix.Some? { JoinBalanced(node.left, below.prefix.value, below.next); }
  }
}
