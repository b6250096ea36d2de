/** Node identities: no two nodes of a tape ever have the same id, whatever is spliced. */
module TapeIdentities {
  import opened Wrappers
  import opened LeafOrder
  import opened TapeTree
  import opened TapeSplice
  import opened TapeRuns

  /** The ids of all nodes, leaves and branches, each as often as it occurs. */
  function Ids(node: Node): multiset<nat> {
    multiset{node.id} + if node.Leaf? then multiset{} else Ids(node.left) + Ids(node.right)
  }

  function OIds(tape: Tape): multiset<nat> {
    if tape.Some? then Ids(tape.value) else multiset{}
  }

  function AllIds(nodes: seq<Node>): multiset<nat> {
    if nodes == [] then multiset{} else Ids(nodes[0]) + AllIds(nodes[1..])
  }

  /** No id occurs twice, and all come from below the allocator's counter. */
  ghost predicate Unique(ids: multiset<nat>, next: nat) {
    forall i: nat :: ids[i] <= if i < next then 1 else 0
  }

  // ------------------------------------------------------------------ drawing ids

  function Allowed(pool: multiset<nat>, from: nat, to: nat, i: nat): nat {
    if i < from then pool[i] else if i < to then 1 else 0
  }

  /** Ids kept from `pool`, none more often than there, and new ones drawn once each from the counter. */
  ghost predicate Draws(ids: multiset<nat>, pool: multiset<nat>, from: nat, to: nat) {
    from <= to && forall i: nat :: ids[i] <= Allowed(pool, from, to, i)
  }

  ghost predicate Below(ids: multiset<nat>, next: nat) {
    forall i: nat :: next <= i ==> ids[i] == 0
  }

  lemma DrawsBelow(ids: multiset<nat>, pool: multiset<nat>, from: nat, to: nat)
    requires Draws(ids, pool, from, to)
    ensures Below(ids, to)
  {
    forall i: nat | to <= i ensures ids[i] == 0 {
      assert ids[i] <= Allowed(pool, from, to, i);
    }
  }

  lemma KeepsAll(pool: multiset<nat>, from: nat, to: nat)
    requires Below(pool, from) && from <= to
    ensures Draws(pool, pool, from, to)
  {
  }

  /** What is set aside stays aside. */
  lemma DrawsBeside(ids: multiset<nat>, pool: multiset<nat>, other: multiset<nat>, from: nat, to: nat)
    requires Draws(ids, pool, from, to) && Below(other, from)
    ensures Draws(ids + other, pool + other, from, to)
  {
    forall i: nat ensures (ids + other)[i] <= Allowed(pool + other, from, to, i) {
      assert ids[i] <= Allowed(pool, from, to, i);
    }
  }

  lemma DrawsBehind(other: multiset<nat>, ids: multiset<nat>, pool: multiset<nat>, from: nat, to: nat)
    requires Draws(ids, pool, from, to) && Below(other, from)
    ensures Draws(other + ids, pool + other, from, to)
  {
    DrawsBeside(ids, pool, other, from, to);
    assert other + ids == ids + other;
  }

  /** Drawing from what was drawn. */
  lemma DrawsOn(ids: multiset<nat>, middle: multiset<nat>, pool: multiset<nat>, from: nat, between: nat, to: nat)
    requires Draws(middle, pool, from, between) && Draws(ids, middle, between, to)
    ensures Draws(ids, pool, from, to)
  {
    forall i: nat ensures ids[i] <= Allowed(pool, from, to, i) {
      assert ids[i] <= Allowed(middle, between, to, i);
      assert middle[i] <= Allowed(pool, from, between, i);
    }
  }

  /** Drawing first for one part and then for the other. */
  lemma DrawsBoth(a: multiset<nat>, b: multiset<nat>, ofA: multiset<nat>, ofB: multiset<nat>,
                  from: nat, between: nat, to: nat)
    requires Draws(a, ofA, from, between) && Draws(b, ofB, between, to) && Below(ofB, from)
    ensures Draws(a + b, ofA + ofB, from, to)
  {
    forall i: nat ensures (a + b)[i] <= Allowed(ofA + ofB, from, to, i) {
      assert a[i] <= Allowed(ofA, from, between, i);
      assert b[i] <= Allowed(ofB, between, to, i);
    }
  }

  lemma DrawsUnique(ids: multiset<nat>, pool: multiset<nat>, from: nat, to: nat)
    requires Draws(ids, pool, from, to) && Unique(pool, from)
    ensures Unique(ids, to)
  {
    forall i: nat ensures ids[i] <= if i < to then 1 else 0 {
      assert ids[i] <= Allowed(pool, from, to, i);
      assert pool[i] <= if i < from then 1 else 0;
    }
  }

  /** Drawing from a larger pool. */
  lemma DrawsMore(ids: multiset<nat>, pool: multiset<nat>, larger: multiset<nat>, from: nat, to: nat)
    requires Draws(ids, pool, from, to) && pool <= larger
    ensures Draws(ids, larger, from, to)
  {
    forall i: nat ensures ids[i] <= Allowed(larger, from, to, i) {
      assert ids[i] <= Allowed(pool, from, to, i);
    }
  }

  // ------------------------------------------------------------------ branches and rotations

  /** A branch over two nodes that draw from a pool draws from it, too. */
  lemma BranchDraws(left: Node, right: Node, pool: multiset<nat>, from: nat, next: nat)
    requires Adjacent(left, right) && Draws(Ids(left) + Ids(right), pool, from, next)
    ensures Draws(Ids(MakeBranch(left, right, next).node), pool, from, next + 1)
  {
    var ids := Ids(left) + Ids(right);
    assert Ids(MakeBranch(left, right, next).node) == multiset{next} + ids;
    DrawsBelow(ids, pool, from, next);
    forall i: nat ensures (multiset{next} + ids)[i] <= Allowed(pool, from, next + 1, i) {
      assert ids[i] <= Allowed(pool, from, next, i);
    }
  }

  lemma BelowPart(part: multiset<nat>, pool: multiset<nat>, next: nat)
    requires Below(pool, next) && part <= pool
    ensures Below(part, next)
  {
    forall i: nat | next <= i ensures part[i] == 0 {
      assert pool[i] == 0;
    }
  }

  lemma PartKept(part: multiset<nat>, pool: multiset<nat>, next: nat)
    requires Below(pool, next) && part <= pool
    ensures Draws(part, part, next, next)
  {
    BelowPart(part, pool, next);
    KeepsAll(part, next, next);
  }

  /** A new branch beside the rest of the pool. */
  lemma NewBeside(made: multiset<nat>, inner: multiset<nat>, outer: multiset<nat>, pool: multiset<nat>, next: nat)
    requires Draws(made, inner, next, next + 1) && inner + outer <= pool && Below(pool, next)
    ensures Draws(made + outer, pool, next, next + 1) && Draws(outer + made, pool, next, next + 1)
  {
    BelowPart(outer, pool, next);
    DrawsBeside(made, inner, outer, next, next + 1);
    DrawsMore(made + outer, inner + outer, pool, next, next + 1);
    Commute(made, outer);
  }

  /** Two new branches beside each other. */
  lemma NewBoth(made: multiset<nat>, other: multiset<nat>, a: multiset<nat>, b: multiset<nat>,
                pool: multiset<nat>, next: nat)
    requires Draws(made, a, next, next + 1) && Draws(other, b, next + 1, next + 2)
    requires a + b <= pool && Below(pool, next)
    ensures Draws(made + other, pool, next, next + 2)
  {
    BelowPart(b, pool, next);
    DrawsBoth(made, other, a, b, next, next + 1, next + 2);
    DrawsMore(made + other, a + b, pool, next, next + 2);
  }

  /** A branch whose right child is a new branch. */
  lemma OverRight(a: Node, b: Node, c: Node, pool: multiset<nat>, next: nat)
    requires Adjacent(a, b) && Adjacent(b, c) && Below(pool, next) && (Ids(b) + Ids(c)) + Ids(a) <= pool
    ensures var x := MakeBranch(b, c, next);
      Adjacent(a, x.node) && Draws(Ids(MakeBranch(a, x.node, x.next).node), pool, next, next + 2)
  {
    var x := MakeBranch(b, c, next);
    PartKept(Ids(b) + Ids(c), pool, next);
    BranchDraws(b, c, Ids(b) + Ids(c), next, next);
    NewBeside(Ids(x.node), Ids(b) + Ids(c), Ids(a), pool, next);
    BranchDraws(a, x.node, pool, next, next + 1);
  }

  /** A branch whose left child is a new branch. */
  lemma OverLeft(a: Node, b: Node, c: Node, pool: multiset<nat>, next: nat)
    requires Adjacent(a, b) && Adjacent(b, c) && Below(pool, next) && (Ids(a) + Ids(b)) + Ids(c) <= pool
    ensures var x := MakeBranch(a, b, next);
      Adjacent(x.node, c) && Draws(Ids(MakeBranch(x.node, c, x.next).node), pool, next, next + 2)
  {
    var x := MakeBranch(a, b, next);
    PartKept(Ids(a) + Ids(b), pool, next);
    BranchDraws(a, b, Ids(a) + Ids(b), next, next);
    NewBeside(Ids(x.node), Ids(a) + Ids(b), Ids(c), pool, next);
    BranchDraws(x.node, c, pool, next, next + 1);
  }

  /** A branch over two new branches. */
  lemma OverBoth(a: Node, b: Node, c: Node, d: Node, pool: multiset<nat>, next: nat)
    requires Adjacent(a, b) && Adjacent(b, c) && Adjacent(c, d)
    requires Below(pool, next) && (Ids(a) + Ids(b)) + (Ids(c) + Ids(d)) <= pool
    ensures var l := MakeBranch(a, b, next);
      var r := MakeBranch(c, d, l.next);
      Adjacent(l.node, r.node) && Draws(Ids(MakeBranch(l.node, r.node, r.next).node), pool, next, next + 3)
  {
    var l := MakeBranch(a, b, next);
    var r := MakeBranch(c, d, l.next);
    BelowLater(pool, next);
    PartKept(Ids(a) + Ids(b), pool, next);
    PartKept(Ids(c) + Ids(d), pool, next + 1);
    BranchDraws(a, b, Ids(a) + Ids(b), next, next);
    BranchDraws(c, d, Ids(c) + Ids(d), next + 1, next + 1);
    NewBoth(Ids(l.node), Ids(r.node), Ids(a) + Ids(b), Ids(c) + Ids(d), pool, next);
    BranchDraws(l.node, r.node, pool, next, next + 2);
  }

  lemma BelowLater(pool: multiset<nat>, next: nat)
    requires Below(pool, next)
    ensures Below(pool, next + 1)
  {
  }

  lemma ChildIdsPart(node: Node)
    requires node.Branch?
    ensures Ids(node.left) + Ids(node.right) <= Ids(node)
  {
  }

  /** The parts that a rotation regroups are parts of the whole. */
  lemma PartsRight(a: multiset<nat>, b: multiset<nat>, c: multiset<nat>, ab: multiset<nat>)
    requires a + b <= ab
    ensures (b + c) + a <= ab + c
  {
    assert (b + c) + a == (a + b) + c;
  }

  lemma PartsLeft(a: multiset<nat>, b: multiset<nat>, c: multiset<nat>, bc: multiset<nat>)
    requires b + c <= bc
    ensures (a + b) + c <= a + bc
  {
    assert (a + b) + c == a + (b + c);
  }

  lemma PartsBoth(a: multiset<nat>, b: multiset<nat>, c: multiset<nat>, d: multiset<nat>, bc: multiset<nat>)
    requires b + c <= bc
    ensures (a + b) + (c + d) <= (a + bc) + d
  {
    assert (a + b) + (c + d) == (a + (b + c)) + d;
  }

  lemma PartsBothLeft(a: multiset<nat>, b: multiset<nat>, c: multiset<nat>, d: multiset<nat>, bc: multiset<nat>,
                      abc: multiset<nat>)
    requires b + c <= bc && a + bc <= abc
    ensures (a + b) + (c + d) <= abc + d
  {
    PartsBoth(a, b, c, d, bc);
  }

  lemma PartsBothRight(a: multiset<nat>, b: multiset<nat>, c: multiset<nat>, d: multiset<nat>, bc: multiset<nat>,
                       bcd: multiset<nat>)
    requires b + c <= bc && bc + d <= bcd
    ensures (a + b) + (c + d) <= a + bcd
  {
    PartsBoth(a, b, c, d, bc);
    assert (a + bc) + d == a + (bc + d);
  }

  lemma ChildrenAdjacent(node: Node)
    requires Valid(node) && node.Branch?
    ensures Adjacent(node.left, node.right)
  {
  }

  /** A rotation keeps ids of both sides or draws new ones. */
  lemma RebalanceDraws(left: Node, right: Node, next: nat)
    requires Adjacent(left, right) && Below(Ids(left) + Ids(right), next)
    ensures var r := Rebalance(left, right, next);
      Draws(Ids(r.node), Ids(left) + Ids(right), next, r.next)
  {
    if left.Height() > right.Height() + 1 {
      RotateRightDraws(left, right, next);
    } else if right.Height() > left.Height() + 1 {
      RotateLeftDraws(left, right, next);
    } else {
      KeepsAll(Ids(left) + Ids(right), next, next);
      BranchDraws(left, right, Ids(left) + Ids(right), next, next);
    }
  }

  lemma RotateRightDraws(left: Node, right: Node, next: nat)
    requires Adjacent(left, right) && left.Height() > right.Height() + 1 && Below(Ids(left) + Ids(right), next)
    ensures var r := RotateRight(left, right, next);
      Draws(Ids(r.node), Ids(left) + Ids(right), next, r.next)
  {
    Heights(left);
    Heights(right);
    Heights(left.left);
    Heights(left.right);
    if left.left.Height() >= left.right.Height() {
      SingleRight(left, right, next);
    } else {
      ChildrenAdjacent(left);
      ChildrenAdjacent(left.right);
      DoubleRight(left, right, left.right, next);
    }
  }

  lemma SingleRight(left: Node, right: Node, next: nat)
    requires Adjacent(left, right) && left.Branch? && Below(Ids(left) + Ids(right), next)
    ensures var x := MakeBranch(left.right, right, next);
      && Adjacent(left.left, x.node)
      && Draws(Ids(MakeBranch(left.left, x.node, x.next).node), Ids(left) + Ids(right), next, next + 2)
  {
    ChildrenAdjacent(left);
    ChildIdsPart(left);
    PartsRight(Ids(left.left), Ids(left.right), Ids(right), Ids(left));
    OverRight(left.left, left.right, right, Ids(left) + Ids(right), next);
  }

  lemma DoubleRight(left: Node, right: Node, pivot: Node, next: nat)
    requires left.Branch? && pivot == left.right && pivot.Branch? && Below(Ids(left) + Ids(right), next)
    requires Adjacent(left.left, pivot.left) && Adjacent(pivot.left, pivot.right) && Adjacent(pivot.right, right)
    ensures var l := MakeBranch(left.left, pivot.left, next);
      var r := MakeBranch(pivot.right, right, l.next);
      && Adjacent(l.node, r.node)
      && Draws(Ids(MakeBranch(l.node, r.node, r.next).node), Ids(left) + Ids(right), next, next + 3)
  {
    ChildIdsPart(left);
    ChildIdsPart(pivot);
    PartsBothLeft(Ids(left.left), Ids(pivot.left), Ids(pivot.right), Ids(right), Ids(pivot), Ids(left));
    OverBoth(left.left, pivot.left, pivot.right, right, Ids(left) + Ids(right), next);
  }

  lemma RotateLeftDraws(left: Node, right: Node, next: nat)
    requires Adjacent(left, right) && right.Height() > left.Height() + 1 && Below(Ids(left) + Ids(right), next)
    ensures var r := RotateLeft(left, right, next);
      Draws(Ids(r.node), Ids(left) + Ids(right), next, r.next)
  {
    Heights(left);
    Heights(right);
    Heights(right.left);
    Heights(right.right);
    if right.right.Height() >= right.left.Height() {
      SingleLeft(left, right, next);
    } else {
      RotateTwice(left, right, next);
    }
  }

  lemma RotateTwice(left: Node, right: Node, next: nat)
    requires Adjacent(left, right) && right.Branch? && right.left.Branch? && Below(Ids(left) + Ids(right), next)
    requires right.Height() > left.Height() + 1 && right.right.Height() < right.left.Height()
    ensures var r := RotateLeft(left, right, next);
      Draws(Ids(r.node), Ids(left) + Ids(right), next, r.next)
  {
    AdjacentLeft(left, right);
    AdjacentLeft(left, right.left);
    MiddleAdjacent(right);
    DoubleLeft(left, right, right.left, next);
  }

  lemma MiddleAdjacent(node: Node)
    requires Valid(node) && node.Branch? && node.left.Branch?
    ensures Adjacent(node.left.left, node.left.right) && Adjacent(node.left.right, node.right)
  {
  }

  lemma SingleLeft(left: Node, right: Node, next: nat)
    requires Adjacent(left, right) && right.Branch? && Below(Ids(left) + Ids(right), next)
    ensures var x := MakeBranch(left, right.left, next);
      && Adjacent(x.node, right.right)
      && Draws(Ids(MakeBranch(x.node, right.right, x.next).node), Ids(left) + Ids(right), next, next + 2)
  {
    ChildrenAdjacent(right);
    ChildIdsPart(right);
    PartsLeft(Ids(left), Ids(right.left), Ids(right.right), Ids(right));
    OverLeft(left, right.left, right.right, Ids(left) + Ids(right), next);
  }

  lemma DoubleLeft(left: Node, right: Node, pivot: Node, next: nat)
    requires right.Branch? && pivot == right.left && pivot.Branch? && Below(Ids(left) + Ids(right), next)
    requires Adjacent(left, pivot.left) && Adjacent(pivot.left, pivot.right) && Adjacent(pivot.right, right.right)
    ensures var l := MakeBranch(left, pivot.left, next);
      var r := MakeBranch(pivot.right, right.right, l.next);
      && Adjacent(l.node, r.node)
      && Draws(Ids(MakeBranch(l.node, r.node, r.next).node), Ids(left) + Ids(right), next, next + 3)
  {
    ChildIdsPart(right);
    ChildIdsPart(pivot);
    PartsBothRight(Ids(left), Ids(pivot.left), Ids(pivot.right), Ids(right.right), Ids(pivot), Ids(right));
    OverBoth(left, pivot.left, pivot.right, right.right, Ids(left) + Ids(right), next);
  }

  // ------------------------------------------------------------------ joining

  lemma JoinStepRight(left: Node, right: Node, next: nat, joined: Made)
    requires left.Branch? && Below(Ids(left) + Ids(right), next) && Adjacent(left.left, joined.node)
    requires Draws(Ids(joined.node), Ids(left.right) + Ids(right), next, joined.next)
    ensures var r := Rebalance(left.left, joined.node, joined.next);
      Draws(Ids(r.node), Ids(left) + Ids(right), next, r.next)
  {
    var r := Rebalance(left.left, joined.node, joined.next);
    var outer, inner, pool := Ids(left.left), Ids(left.right) + Ids(right), Ids(left) + Ids(right);
    ChildIdsPart(left);
    PartsRight(Ids(left.left), Ids(left.right), Ids(right), Ids(left));
    BelowPart(outer, pool, next);
    DrawsBehind(outer, Ids(joined.node), inner, next, joined.next);
    DrawsBelow(outer + Ids(joined.node), inner + outer, next, joined.next);
    RebalanceDraws(left.left, joined.node, joined.next);
    DrawsOn(Ids(r.node), outer + Ids(joined.node), inner + outer, next, joined.next, r.next);
    DrawsMore(Ids(r.node), inner + outer, pool, next, r.next);
  }

  lemma JoinStepLeft(left: Node, right: Node, next: nat, joined: Made)
    requires right.Branch? && Below(Ids(left) + Ids(right), next) && Adjacent(joined.node, right.right)
    requires Draws(Ids(joined.node), Ids(left) + Ids(right.left), next, joined.next)
    ensures var r := Rebalance(joined.node, right.right, joined.next);
      Draws(Ids(r.node), Ids(left) + Ids(right), next, r.next)
  {
    var r := Rebalance(joined.node, right.right, joined.next);
    var outer, inner, pool := Ids(right.right), Ids(left) + Ids(right.left), Ids(left) + Ids(right);
    ChildIdsPart(right);
    PartsLeft(Ids(left), Ids(right.left), Ids(right.right), Ids(right));
    BelowPart(outer, pool, next);
    DrawsBeside(Ids(joined.node), inner, outer, next, joined.next);
    DrawsBelow(Ids(joined.node) + outer, inner + outer, next, joined.next);
    RebalanceDraws(joined.node, right.right, joined.next);
    DrawsOn(Ids(r.node), Ids(joined.node) + outer, inner + outer, next, joined.next, r.next);
    DrawsMore(Ids(r.node), inner + outer, pool, next, r.next);
  }

  /** A join keeps ids of both trees or draws new ones. */
  lemma {:induction false} JoinDraws(left: Node, right: Node, next: nat)
    requires Adjacent(left, right) && Below(Ids(left) + Ids(right), next)
    ensures Draws(Ids(Join(left, right, next).node), Ids(left) + Ids(right), next, Join(left, right, next).next)
    decreases left, right
  {
    Heights(left);
    Heights(right);
    var pool := Ids(left) + Ids(right);
    if left.Leaf? && right.Leaf? && |left.entries| + |right.entries| <= LEAF_MAX {
      JoinLeafEnds(left, right);
      LeafDraws(left.entries + right.entries, left.order, pool, next);
    } else if left.Height() > right.Height() + 1 {
      ChildrenAdjacent(left);
      ChildIdsPart(left);
      BelowPart(Ids(left.right) + Ids(right), pool, next);
      JoinDraws(left.right, right, next);
      JoinStepRight(left, right, next, Join(left.right, right, next));
    } else if right.Height() > left.Height() + 1 {
      AdjacentLeft(left, right);
      ChildIdsPart(right);
      BelowPart(Ids(left) + Ids(right.left), pool, next);
      JoinDraws(left, right.left, next);
      var joined := Join(left, right.left, next);
      AtMostBefore(joined.node.Last(), right.left.Last(), right.right.First());
      JoinStepLeft(left, right, next, joined);
    } else {
      KeepsAll(pool, next, next);
      BranchDraws(left, right, pool, next, next);
    }
  }

  lemma LeafDraws(entries: seq<Entry>, order: Key, pool: multiset<nat>, next: nat)
    requires order.Valid() && 0 < |entries| <= LEAF_MAX
    ensures Draws(Ids(MakeLeaf(entries, order, next).node), pool, next, next + 1)
  {
    assert Ids(MakeLeaf(entries, order, next).node) == multiset{next};
  }

  lemma ConcatDraws(left: Tape, right: Tape, next: nat)
    requires OAdjacent(left, right) && Below(OIds(left) + OIds(right), next)
    ensures var r := Concat(left, right, next);
      Draws(OIds(r.root), OIds(left) + OIds(right), next, r.next)
  {
    if left.Some? && right.Some? {
      JoinDraws(left.value, right.value, next);
    } else {
      KeepsAll(OIds(left) + OIds(right), next, next);
      assert OIds(left) + OIds(right) == OIds(Concat(left, right, next).root);
    }
  }

  // ------------------------------------------------------------------ splitting

  lemma SplitLeafDraws(node: Node, rank: nat, upper: Option<Key>, next: nat)
    requires node.Leaf? && Valid(node) && FitsBelow(node, upper) && 0 < rank < node.Len()
    ensures var cut := Split(node, rank, upper, next);
      Draws(OIds(cut.prefix) + OIds(cut.suffix), Ids(node), next, cut.next)
  {
    var cut := Split(node, rank, upper, next);
    assert Ids(cut.prefix.value) == multiset{next} && Ids(cut.suffix.value) == multiset{next + 1};
    assert OIds(cut.prefix) + OIds(cut.suffix) == multiset{next, next + 1};
  }

  /** `kept` stays, `near` and `far` go into the next operation. */
  lemma PartsBelow(kept: multiset<nat>, near: multiset<nat>, far: multiset<nat>, pool: multiset<nat>,
                   whole: multiset<nat>, from: nat, between: nat)
    requires Draws(kept + near, pool, from, between) && pool + far <= whole && Below(whole, from)
    ensures Below(kept, between) && Below(near + far, between)
    ensures Draws((kept + near) + far, whole, from, between)
  {
    BelowPart(far, whole, from);
    DrawsBeside(kept + near, pool, far, from, between);
    DrawsMore((kept + near) + far, pool + far, whole, from, between);
    DrawsBelow((kept + near) + far, whole, from, between);
    BelowPart(kept, (kept + near) + far, between);
    BelowPart(near + far, (kept + near) + far, between);
  }

  lemma PartsDraw(kept: multiset<nat>, near: multiset<nat>, far: multiset<nat>, pool: multiset<nat>,
                  whole: multiset<nat>, made: multiset<nat>, from: nat, between: nat, to: nat)
    requires Draws(kept + near, pool, from, between) && pool + far <= whole && Below(whole, from)
    requires Draws(made, near + far, between, to)
    ensures Draws(kept + made, whole, from, to)
  {
    PartsBelow(kept, near, far, pool, whole, from, between);
    DrawsBehind(kept, made, near + far, between, to);
    assert (near + far) + kept == (kept + near) + far;
    DrawsOn(kept + made, (kept + near) + far, whole, from, between, to);
  }

  lemma SplitStepLeft(node: Node, below: Cut, next: nat)
    requires node.Branch? && Below(Ids(node), next) && OAdjacent(below.suffix, Some(node.right))
    requires Draws(OIds(below.prefix) + OIds(below.suffix), Ids(node.left), next, below.next)
    ensures var suffix := Concat(below.suffix, Some(node.right), below.next);
      Draws(OIds(below.prefix) + OIds(suffix.root), Ids(node), next, suffix.next)
  {
    var suffix := Concat(below.suffix, Some(node.right), below.next);
    var p, s, r := OIds(below.prefix), OIds(below.suffix), OIds(Some(node.right));
    ChildIdsPart(node);
    PartsBelow(p, s, r, Ids(node.left), Ids(node), next, below.next);
    ConcatDraws(below.suffix, Some(node.right), below.next);
    PartsDraw(p, s, r, Ids(node.left), Ids(node), OIds(suffix.root), next, below.next, suffix.next);
  }

  lemma SplitStepRight(node: Node, below: Cut, next: nat)
    requires node.Branch? && Below(Ids(node), next) && OAdjacent(Some(node.left), below.prefix)
    requires Draws(OIds(below.prefix) + OIds(below.suffix), Ids(node.right), next, below.next)
    ensures var prefix := Concat(Some(node.left), below.prefix, below.next);
      Draws(OIds(prefix.root) + OIds(below.suffix), Ids(node), next, prefix.next)
  {
    var prefix := Concat(Some(node.left), below.prefix, below.next);
    var p, s, l := OIds(below.prefix), OIds(below.suffix), OIds(Some(node.left));
    ChildIdsPart(node);
    Commute(p, s);
    Commute(Ids(node.right), l);
    PartsBelow(s, p, l, Ids(node.right), Ids(node), next, below.next);
    Commute(p, l);
    ConcatDraws(Some(node.left), below.prefix, below.next);
    PartsDraw(s, p, l, Ids(node.right), Ids(node), OIds(prefix.root), next, below.next, prefix.next);
    Commute(s, OIds(prefix.root));
  }

  lemma Commute(a: multiset<nat>, b: multiset<nat>)
    ensures a + b == b + a
  {
  }

  /** Both parts of a split together keep ids of the tree or draw new ones. */
  lemma {:induction false} SplitDraws(node: Node, rank: nat, upper: Option<Key>, next: nat)
    requires Valid(node) && FitsBelow(node, upper) && Below(Ids(node), next)
    ensures var cut := Split(node, rank, upper, next);
      Draws(OIds(cut.prefix) + OIds(cut.suffix), Ids(node), next, cut.next)
  {
    if rank == 0 || rank >= node.Len() {
      var cut := Split(node, rank, upper, next);
      assert OIds(cut.prefix) + OIds(cut.suffix) == Ids(node);
      KeepsAll(Ids(node), next, next);
    } else if node.Leaf? {
      SplitLeafDraws(node, rank, upper, next);
    } else if rank < node.left.Len() {
      ChildIdsPart(node);
      BelowPart(Ids(node.left), Ids(node), next);
      var below := SplitLeft(node, rank, upper, next);
      SplitDraws(node.left, rank, Some(node.right.First()), next);
      SplitStepLeft(node, below, next);
    } else {
      ChildIdsPart(node);
      BelowPart(Ids(node.right), Ids(node), next);
      var rest := Span(node.left.Len(), rank);
      var below := SplitRight(node, rank, rest, upper, next);
      SplitDraws(node.right, rest, upper, next);
      SplitStepRight(node, below, next);
    }
  }

  lemma SplitAtDraws(tape: Tape, rank: nat, next: nat)
    requires OValid(tape) && Below(OIds(tape), next)
    ensures var cut := SplitAt(tape, rank, next);
      Draws(OIds(cut.prefix) + OIds(cut.suffix), OIds(tape), next, cut.next)
  {
    if tape.Some? {
      SplitDraws(tape.value, if rank < tape.value.Len() then rank else tape.value.Len(), None, next);
    }
  }

  // ------------------------------------------------------------------ building

  lemma {:induction false} PairsDraw(nodes: seq<Node>, next: nat)
    requires Chain(nodes) && Below(AllIds(nodes), next)
    ensures var r := PairLevel(nodes, next);
      Draws(AllIds(r.nodes), AllIds(nodes), next, r.next)
  {
    if |nodes| <= 1 {
      KeepsAll(AllIds(nodes), next, next);
    } else {
      var pair := MakeBranch(nodes[0], nodes[1], next);
      var rest := PairLevel(nodes[2..], pair.next);
      TwoIds(nodes);
      var two, others := Ids(nodes[0]) + Ids(nodes[1]), AllIds(nodes[2..]);
      BelowPart(two, AllIds(nodes), next);
      BelowPart(others, AllIds(nodes), next);
      KeepsAll(two, next, next);
      BranchDraws(nodes[0], nodes[1], two, next, next);
      PairsDraw(nodes[2..], pair.next);
      DrawsBoth(Ids(pair.node), AllIds(rest.nodes), two, others, next, pair.next, rest.next);
      HeadIds(pair.node, rest.nodes);
    }
  }

  lemma HeadIds(first: Node, rest: seq<Node>)
    ensures AllIds([first] + rest) == Ids(first) + AllIds(rest)
  {
    assert ([first] + rest)[1..] == rest;
  }

  lemma TwoIds(nodes: seq<Node>)
    requires |nodes| > 1
    ensures AllIds(nodes) == (Ids(nodes[0]) + Ids(nodes[1])) + AllIds(nodes[2..])
  {
    assert nodes[1..][1..] == nodes[2..];
  }

  lemma {:induction false} BuildDraws(nodes: seq<Node>, next: nat)
    requires Chain(nodes) && nodes != [] && Below(AllIds(nodes), next)
    ensures var r := BuildBalanced(nodes, next);
      Draws(Ids(r.node), AllIds(nodes), next, r.next)
    decreases |nodes|
  {
    if |nodes| == 1 {
      assert AllIds(nodes) == Ids(nodes[0]) + AllIds([]);
      KeepsAll(AllIds(nodes), next, next);
    } else {
      var level := PairLevel(nodes, next);
      var r := BuildBalanced(level.nodes, level.next);
      PairsDraw(nodes, next);
      DrawsBelow(AllIds(level.nodes), AllIds(nodes), next, level.next);
      BuildDraws(level.nodes, level.next);
      DrawsOn(Ids(r.node), AllIds(level.nodes), AllIds(nodes), next, level.next, r.next);
    }
  }

  /** New leaves, numbered in order, draw one id each. */
  lemma {:induction false} NumberedDraw(nodes: seq<Node>, next: nat)
    requires AllLeaves(nodes) && forall i :: 0 <= i < |nodes| ==> nodes[i].id == next + i
    ensures Draws(AllIds(nodes), multiset{}, next, next + |nodes|)
    decreases |nodes|
  {
    if nodes != [] {
      var rest := nodes[1..];
      forall i | 0 <= i < |rest| ensures rest[i].Leaf? && rest[i].id == next + 1 + i {
        assert rest[i] == nodes[i + 1];
      }
      NumberedDraw(rest, next + 1);
      OneDraws(nodes[0], next);
      DrawsBoth(Ids(nodes[0]), AllIds(rest), multiset{}, multiset{}, next, next + 1, next + |nodes|);
    }
  }

  lemma OneDraws(leaf: Node, next: nat)
    requires leaf.Leaf? && leaf.id == next
    ensures Draws(Ids(leaf), multiset{}, next, next + 1)
  {
    assert Ids(leaf) == multiset{next};
  }

  lemma BuiltFromLeaves(nodes: seq<Node>, from: nat, next: nat)
    requires Chain(nodes) && nodes != [] && AllLeaves(nodes) && next == from + |nodes|
    requires forall i :: 0 <= i < |nodes| ==> nodes[i].id == from + i
    ensures var r := BuildBalanced(nodes, next);
      Draws(Ids(r.node), multiset{}, from, r.next)
  {
    var r := BuildBalanced(nodes, next);
    NumberedDraw(nodes, from);
    DrawsBelow(AllIds(nodes), multiset{}, from, next);
    BuildDraws(nodes, next);
    DrawsOn(Ids(r.node), AllIds(nodes), multiset{}, from, next, r.next);
  }

  /** A tape built from entries has only new ids. */
  lemma FromEntriesDraws(entries: seq<Entry>, next: nat)
    ensures Draws(OIds(FromEntries(entries, next).root), multiset{}, next, FromEntries(entries, next).next)
  {
    if entries != [] {
      var chunks := Chunks(entries);
      var leaves := InitialLeaves(chunks, 0, |chunks|, next);
      InitialLeavesChain(chunks, next);
      BuiltFromLeaves(leaves.nodes, next, leaves.next);
    }
  }

  lemma RekeyDraws(tape: Tape, lower: Option<Key>, upper: Option<Key>, next: nat)
    requires OValid(tape) && Ordered(lower, upper) && Below(OIds(tape), next)
    ensures var r := RekeyBetween(tape, lower, upper, next);
      Draws(OIds(r.root), OIds(tape), next, r.next)
  {
    var r := RekeyBetween(tape, lower, upper, next);
    if Fits(tape, lower, upper) {
      KeepsAll(OIds(tape), next, next);
    } else {
      ValidFacts(tape.value);
      var chunks := Chunks(Entries(tape.value));
      var leaves := RekeyedLeaves(chunks, lower, upper, next);
      RekeyedLeavesHold(chunks, lower, upper, next);
      BuiltFromLeaves(leaves.nodes, next, leaves.next);
      DrawsMore(OIds(r.root), multiset{}, OIds(tape), next, r.next);
    }
  }

  // ------------------------------------------------------------------ splices and runs

  lemma ConcatTapesDraws(left: Tape, right: Tape, next: nat)
    requires OValid(left) && OValid(right) && Below(OIds(left) + OIds(right), next)
    ensures var r := ConcatTapes(left, right, next);
      Draws(OIds(r.root), OIds(left) + OIds(right), next, r.next)
  {
    LastValid(left);
    var fitted := RekeyBetween(right, OLast(left), None, next);
    var r := Concat(left, fitted.root, fitted.next);
    var l, whole := OIds(left), OIds(left) + OIds(right);
    BelowPart(l, whole, next);
    BelowPart(OIds(right), whole, next);
    RekeyDraws(right, OLast(left), None, next);
    DrawsBehind(l, OIds(fitted.root), OIds(right), next, fitted.next);
    Commute(OIds(right), l);
    DrawsBelow(l + OIds(fitted.root), whole, next, fitted.next);
    ConcatDraws(left, fitted.root, fitted.next);
    DrawsOn(OIds(r.root), l + OIds(fitted.root), whole, next, fitted.next, r.next);
  }

  lemma CutsDraw(tape: Tape, start: nat, end: nat, next: nat)
    requires OValid(tape) && start <= end && Below(OIds(tape), next)
    ensures var cuts := SpliceCuts(tape, start, end, next);
      Draws(OIds(cuts.prefix) + OIds(cuts.suffix), OIds(tape), next, cuts.next)
  {
    var first := SplitAt(tape, start, next);
    var second := SplitAt(first.suffix, Span(start, end), first.next);
    var p, s := OIds(first.prefix), OIds(first.suffix);
    SplitAtDraws(tape, start, next);
    DrawsBelow(p + s, OIds(tape), next, first.next);
    BelowPart(s, p + s, first.next);
    BelowPart(p, p + s, first.next);
    SplitAtDraws(first.suffix, Span(start, end), first.next);
    SuffixDraws(OIds(second.prefix), OIds(second.suffix), s, first.next, second.next);
    DrawsBehind(p, OIds(second.suffix), s, first.next, second.next);
    Commute(s, p);
    DrawsOn(p + OIds(second.suffix), p + s, OIds(tape), next, first.next, second.next);
  }

  /** Dropping one of two parts. */
  lemma SuffixDraws(dropped: multiset<nat>, kept: multiset<nat>, pool: multiset<nat>, from: nat, to: nat)
    requires Draws(dropped + kept, pool, from, to)
    ensures Draws(kept, pool, from, to)
  {
    forall i: nat ensures kept[i] <= Allowed(pool, from, to, i) {
      assert (dropped + kept)[i] <= Allowed(pool, from, to, i);
    }
  }

  lemma FittedDraws(cuts: Cuts, replacement: Tape, pool: multiset<nat>, next: nat)
    requires OAdjacent(cuts.prefix, cuts.suffix) && OValid(replacement)
    requires Draws((OIds(cuts.prefix) + OIds(cuts.suffix)) + multiset{}, pool, next, cuts.next)
    requires Below(pool + OIds(replacement), next)
    ensures var fitted := Fitted(cuts, replacement);
      Draws((OIds(cuts.prefix) + OIds(fitted.root)) + OIds(cuts.suffix), pool + OIds(replacement), next, fitted.next)
  {
    var fitted := Fitted(cuts, replacement);
    var p, s, new0 := OIds(cuts.prefix), OIds(cuts.suffix), OIds(replacement);
    EndsOrdered(cuts.prefix, cuts.suffix);
    PartsBelow(p + s, multiset{}, new0, pool, pool + new0, next, cuts.next);
    NothingWith(new0);
    RekeyDraws(replacement, OLast(cuts.prefix), OFirst(cuts.suffix), cuts.next);
    PartsDraw(p + s, multiset{}, new0, pool, pool + new0, OIds(fitted.root), next, cuts.next, fitted.next);
    Between(p, s, OIds(fitted.root));
  }

  lemma Between(a: multiset<nat>, b: multiset<nat>, middle: multiset<nat>)
    ensures (a + b) + middle == (a + middle) + b
  {
  }

  /** A splice keeps ids of the tape and of the replacement or draws new ones. */
  lemma SpliceDraws(tape: Tape, start: nat, end: nat, replacement: Tape, next: nat)
    requires OValid(tape) && OValid(replacement) && start <= end
    requires Below(OIds(tape) + OIds(replacement), next)
    ensures var r := SpliceAt(tape, start, end, replacement, next);
      Draws(OIds(r.root), OIds(tape) + OIds(replacement), next, r.next)
  {
    var cuts := SpliceCuts(tape, start, end, next);
    var fitted := Fitted(cuts, replacement);
    var head := ConcatTapes(cuts.prefix, fitted.root, fitted.next);
    var pool := OIds(tape) + OIds(replacement);
    var near, far := OIds(cuts.prefix) + OIds(fitted.root), OIds(cuts.suffix);
    BelowPart(OIds(tape), pool, next);
    CutsDraw(tape, start, end, next);
    WithNothing(OIds(cuts.prefix) + OIds(cuts.suffix));
    FittedDraws(cuts, replacement, OIds(tape), next);
    TwoBelow(near, far, pool, next, fitted.next);
    ConcatTapesDraws(cuts.prefix, fitted.root, fitted.next);
    JoinedBeside(OIds(head.root), near, far, pool, next, fitted.next, head.next);
    ConcatTapesDraws(head.root, cuts.suffix, head.next);
    var r := ConcatTapes(head.root, cuts.suffix, head.next);
    DrawsOn(OIds(r.root), OIds(head.root) + far, pool, next, head.next, r.next);
  }

  lemma NothingWith(ids: multiset<nat>)
    ensures multiset{} + ids == ids
  {
  }

  lemma WithNothing(ids: multiset<nat>)
    ensures ids + multiset{} == ids
  {
  }

  lemma TwoBelow(near: multiset<nat>, far: multiset<nat>, pool: multiset<nat>, from: nat, to: nat)
    requires Draws(near + far, pool, from, to)
    ensures Below(near, to) && Below(far, to)
  {
    DrawsBelow(near + far, pool, from, to);
    BelowPart(near, near + far, to);
    BelowPart(far, near + far, to);
  }

  /** The first concatenation beside the suffix. */
  lemma JoinedBeside(made: multiset<nat>, near: multiset<nat>, far: multiset<nat>, pool: multiset<nat>,
                     from: nat, between: nat, to: nat)
    requires Draws(near + far, pool, from, between) && Draws(made, near, between, to)
    ensures Draws(made + far, pool, from, to) && Below(made + far, to)
  {
    TwoBelow(near, far, pool, from, between);
    DrawsBeside(made, near, far, between, to);
    DrawsOn(made + far, near + far, pool, from, between, to);
    DrawsBelow(made + far, pool, from, to);
  }

  lemma StepUnique(s: State, e: Edit)
    requires OValid(s.tape) && Unique(OIds(s.tape), s.next)
    ensures Unique(OIds(Step(s, e).tape), Step(s, e).next)
  {
    var from, to := ClampStart(OLen(s.tape), e.start), ClampEnd(OLen(s.tape), e.start, e.end);
    var replacement := FromEntries(e.entries, s.next);
    var r := SpliceAt(s.tape, from, to, replacement.root, replacement.next);
    var old0, new0 := OIds(s.tape), OIds(replacement.root);
    FromEntriesDraws(e.entries, s.next);
    UniqueBelow(old0, s.next);
    DrawsBehind(old0, new0, multiset{}, s.next, replacement.next);
    NothingWith(old0);
    DrawsBelow(old0 + new0, old0, s.next, replacement.next);
    SpliceDraws(s.tape, from, to, replacement.root, replacement.next);
    DrawsOn(OIds(r.root), old0 + new0, old0, s.next, replacement.next, r.next);
    DrawsUnique(OIds(r.root), old0, s.next, r.next);
  }

  lemma UniqueBelow(ids: multiset<nat>, next: nat)
    requires Unique(ids, next)
    ensures Below(ids, next)
  {
    forall i: nat | next <= i ensures ids[i] == 0 {
      assert ids[i] <= if i < next then 1 else 0;
    }
  }

  /** Over every run of edits from any initial tape, whatever is inserted, no two nodes of the tape
      have the same id, and the allocator's counter is above all of them. */
  lemma {:induction false} RunKeepsUnique(entries: seq<Entry>, next: nat, edits: seq<Edit>)
    ensures var s := Run(Initially(entries, next), edits);
      Unique(OIds(s.tape), s.next)
    decreases |edits|
  {
    if edits == [] {
      var built := FromEntries(entries, next);
      FromEntriesDraws(entries, next);
      DrawsUnique(OIds(built.root), multiset{}, next, built.next);
    } else {
      var front := edits[..|edits| - 1];
      RunKeepsUnique(entries, next, front);
      StepUnique(Run(Initially(entries, next), front), edits[|edits| - 1]);
    }
  }
}
