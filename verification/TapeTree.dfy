/** The persistent leaf tree: nodes with cached metrics, concatenation, rebalancing, split. */
module TapeTree {
  import opened Wrappers
  import opened LeafOrder

  const LEAF_MAX: nat := 64

  /** The additive metric of a subtree. */
  datatype Metric = Metric(lexical: nat, semantic: nat, bytes: nat)

  const ZERO := Metric(0, 0, 0)

  function Add(a: Metric, b: Metric): Metric {
    Metric(a.lexical + b.lexical, a.semantic + b.semantic, a.bytes + b.bytes)
  }

  /** One entry: its stable occurrence id, its metric, and its immutable value. */
  datatype Entry = Entry(id: nat, metric: Metric, value: int)

  function Sum(entries: seq<Entry>): Metric {
    if entries == [] then ZERO else Add(entries[0].metric, Sum(entries[1..]))
  }

  lemma {:induction false} SumConcat(a: seq<Entry>, b: seq<Entry>)
    ensures Sum(a + b) == Add(Sum(a), Sum(b))
  {
    if a == [] {
      assert a + b == b;
    } else {
      assert (a + b)[0] == a[0] && (a + b)[1..] == a[1..] + b;
      SumConcat(a[1..], b);
    }
  }

  /** Immutable tape nodes with the aggregates cached in them. */
  datatype Node =
    | Leaf(id: nat, order: Key, entries: seq<Entry>, metric: Metric)
    | Branch(id: nat, left: Node, right: Node, len: nat, height: nat, metric: Metric,
             firstOrder: Key, lastOrder: Key)
  {
    function Len(): nat {
      if Leaf? then |entries| else len
    }

    function Height(): nat {
      if Leaf? then 1 else height
    }

    function First(): Key {
      if Leaf? then order else firstOrder
    }

    function Last(): Key {
      if Leaf? then order else lastOrder
    }
  }

  /** The sequence a node stands for. */
  function Entries(node: Node): seq<Entry> {
    match node
    case Leaf(_, _, entries, _) => entries
    case Branch(_, left, right, _, _, _, _, _) => Entries(left) + Entries(right)
  }

  function Leaves(node: Node): (leaves: seq<Node>)
    ensures |leaves| > 0
  {
    match node
    case Leaf(_, _, _, _) => [node]
    case Branch(_, left, right, _, _, _, _, _) => Leaves(left) + Leaves(right)
  }

  /** Caches agree with the content, leaves are bounded, labels increase from left to right. */
  predicate Valid(node: Node) {
    match node
    case Leaf(_, order, entries, metric) =>
      order.Valid() && 0 < |entries| <= LEAF_MAX && metric == Sum(entries)
    case Branch(_, left, right, len, height, metric, firstOrder, lastOrder) =>
      && Valid(left) && Valid(right)
      && len == left.Len() + right.Len()
      && height == Max(left.Height(), right.Height()) + 1
      && metric == Add(left.metric, right.metric)
      && firstOrder == left.First() && lastOrder == right.Last()
      && Before(left.Last(), right.First())
  }

  function Max(a: nat, b: nat): nat {
    if a < b then b else a
  }

  lemma ValidFacts(node: Node)
    requires Valid(node)
    ensures node.Len() == |Entries(node)| > 0
    ensures node.metric == Sum(Entries(node))
    ensures node.Height() >= 1 && (node.Height() == 1 <==> node.Leaf?)
    ensures node.First().Valid() && node.Last().Valid()
    ensures AtMost(node.First(), node.Last())
    ensures node.First() == FirstLeaf(node).order && node.Last() == LastLeaf(node).order
  {
    if node.Branch? {
      ValidFacts(node.left);
      ValidFacts(node.right);
      SumConcat(Entries(node.left), Entries(node.right));
      AtMostBefore(node.left.First(), node.left.Last(), node.right.First());
      BeforeAtMost(node.left.First(), node.right.First(), node.right.Last());
    }
  }

  lemma AtMostBefore(a: Key, b: Key, c: Key)
    requires AtMost(a, b) && Before(b, c)
    ensures Before(a, c)
  {
    if a != b { BeforeTransitive(a, b, c); }
  }

  lemma BeforeAtMost(a: Key, b: Key, c: Key)
    requires Before(a, b) && AtMost(b, c)
    ensures Before(a, c)
  {
    if b != c { BeforeTransitive(a, b, c); }
  }

  // ------------------------------------------------------------------ construction

  /** A node together with the allocator's next free id. */
  datatype Made = Made(node: Node, next: nat)

  function MakeLeaf(entries: seq<Entry>, order: Key, next: nat): (r: Made)
    requires order.Valid() && 0 < |entries| <= LEAF_MAX
    ensures Valid(r.node) && r.node.Leaf? && r.next == next + 1
  {
    Made(Leaf(next, order, entries, Sum(entries)), next + 1)
  }

  /** Two trees that may become siblings. */
  predicate Adjacent(left: Node, right: Node) {
    Valid(left) && Valid(right) && Before(left.Last(), right.First())
  }

  function MakeBranch(left: Node, right: Node, next: nat): (r: Made)
    requires Adjacent(left, right)
    ensures Valid(r.node) && r.next == next + 1
  {
    Made(Branch(next, left, right, left.Len() + right.Len(),
                Max(left.Height(), right.Height()) + 1, Add(left.metric, right.metric),
                left.First(), right.Last()),
         next + 1)
  }

  /** `rebalance`, left side too tall: one single or double rotation. */
  function RotateRight(left: Node, right: Node, next: nat): (r: Made)
    requires Adjacent(left, right) && left.Height() > right.Height() + 1
    ensures Valid(r.node) && next < r.next
    ensures r.node.First() == left.First() && r.node.Last() == right.Last()
  {
    Heights(left);
    Heights(right);
    Heights(left.left);
    Heights(left.right);
    if left.left.Height() >= left.right.Height() then
      var branch := MakeBranch(left.right, right, next);
      MakeBranch(left.left, branch.node, branch.next)
    else
      var pivot := left.right;
      var l := MakeBranch(left.left, pivot.left, next);
      var r := MakeBranch(pivot.right, right, l.next);
      MakeBranch(l.node, r.node, r.next)
  }

  /** `rebalance`, right side too tall. */
  function RotateLeft(left: Node, right: Node, next: nat): (r: Made)
    requires Adjacent(left, right) && right.Height() > left.Height() + 1
    ensures Valid(r.node) && next < r.next
    ensures r.node.First() == left.First() && r.node.Last() == right.Last()
  {
    Heights(left);
    Heights(right);
    Heights(right.left);
    Heights(right.right);
    if right.right.Height() >= right.left.Height() then
      var branch := MakeBranch(left, right.left, next);
      MakeBranch(branch.node, right.right, branch.next)
    else
      var pivot := right.left;
      var l := MakeBranch(left, pivot.left, next);
      var r := MakeBranch(pivot.right, right.right, l.next);
      MakeBranch(l.node, r.node, r.next)
  }

  lemma Heights(node: Node)
    requires Valid(node)
    ensures node.Height() >= 1 && (node.Height() == 1 <==> node.Leaf?)
  {
  }

  /** `rebalance` */
  function Rebalance(left: Node, right: Node, next: nat): (r: Made)
    requires Adjacent(left, right)
    ensures Valid(r.node) && next < r.next
    ensures r.node.First() == left.First() && r.node.Last() == right.Last()
  {
    if left.Height() > right.Height() + 1 then RotateRight(left, right, next)
    else if right.Height() > left.Height() + 1 then RotateLeft(left, right, next)
    else MakeBranch(left, right, next)
  }

  /** Rotations only regroup: same leaves in the same order. */
  lemma RebalanceLeaves(left: Node, right: Node, next: nat)
    requires Adjacent(left, right)
    ensures Leaves(Rebalance(left, right, next).node) == Leaves(left) + Leaves(right)
  {
    if left.Height() > right.Height() + 1 {
      RotateRightLeaves(left, right, next);
    } else if right.Height() > left.Height() + 1 {
      RotateLeftLeaves(left, right, next);
    }
  }

  /** The leaves of a node whose children are known to fall into four runs. */
  lemma RegroupedLeaves(node: Node, a: seq<Node>, b: seq<Node>, c: seq<Node>, d: seq<Node>)
    requires node.Branch?
    requires Leaves(node.left) == a + b && Leaves(node.right) == c + d
    ensures Leaves(node) == (a + (b + c)) + d
    ensures Leaves(node) == a + ((b + c) + d)
  {
    assert Leaves(node) == (a + b) + (c + d);
    RegroupMiddle(a, b, c, d);
  }

  lemma RegroupMiddle<T>(a: seq<T>, b: seq<T>, c: seq<T>, d: seq<T>)
    ensures (a + b) + (c + d) == (a + (b + c)) + d
    ensures (a + b) + (c + d) == a + ((b + c) + d)
  {
  }

  lemma BranchLeaves(node: Node, a: seq<Node>, b: seq<Node>)
    requires node.Branch? && Leaves(node.left) == a && Leaves(node.right) == b
    ensures Leaves(node) == a + b
  {
  }

  lemma SingleRotation(node: Node, tall: Node, other: seq<Node>, a: seq<Node>, b: seq<Node>)
    requires node.Branch? && tall.Branch?
    requires Leaves(tall.left) == a && Leaves(tall.right) == b
    ensures Leaves(node.left) == a && Leaves(node.right) == b + other
        ==> Leaves(node) == Leaves(tall) + other
    ensures Leaves(node.left) == other + a && Leaves(node.right) == b
        ==> Leaves(node) == other + Leaves(tall)
  {
    BranchLeaves(tall, a, b);
    Associate(a, b, other);
    Associate(other, a, b);
  }

  lemma DoubleRotation(node: Node, tall: Node, a: seq<Node>, b: seq<Node>, c: seq<Node>, d: seq<Node>)
    requires node.Branch? && tall.Branch?
    requires Leaves(node.left) == a + b && Leaves(node.right) == c + d
    ensures Leaves(tall.left) == a && Leaves(tall.right) == b + c ==> Leaves(node) == Leaves(tall) + d
    ensures Leaves(tall.left) == b + c && Leaves(tall.right) == d ==> Leaves(node) == a + Leaves(tall)
  {
    RegroupedLeaves(node, a, b, c, d);
  }

  lemma RotateRightLeaves(left: Node, right: Node, next: nat)
    requires Adjacent(left, right) && left.Height() > right.Height() + 1
    ensures Leaves(RotateRight(left, right, next).node) == Leaves(left) + Leaves(right)
  {
    Heights(left);
    Heights(right);
    Heights(left.left);
    Heights(left.right);
    var node := RotateRight(left, right, next).node;
    if left.left.Height() >= left.right.Height() {
      SingleRotation(node, left, Leaves(right), Leaves(left.left), Leaves(left.right));
    } else {
      DoubleRotation(node, left, Leaves(left.left), Leaves(left.right.left),
        Leaves(left.right.right), Leaves(right));
    }
  }

  lemma RotateLeftLeaves(left: Node, right: Node, next: nat)
    requires Adjacent(left, right) && right.Height() > left.Height() + 1
    ensures Leaves(RotateLeft(left, right, next).node) == Leaves(left) + Leaves(right)
  {
    Heights(left);
    Heights(right);
    Heights(right.left);
    Heights(right.right);
    var node := RotateLeft(left, right, next).node;
    if right.right.Height() >= right.left.Height() {
      SingleRotation(node, right, Leaves(left), Leaves(right.left), Leaves(right.right));
    } else {
      DoubleRotation(node, right, Leaves(left), Leaves(right.left.left),
        Leaves(right.left.right), Leaves(right.right));
    }
  }

  /** `concat_nodes` on two present roots. */
  function Join(left: Node, right: Node, next: nat): (r: Made)
    requires Adjacent(left, right)
    ensures Valid(r.node) && next < r.next
    ensures r.node.First() == left.First() && AtMost(r.node.Last(), right.Last())
    decreases left, right
  {
    Heights(left);
    Heights(right);
    if left.Leaf? && right.Leaf? && |left.entries| + |right.entries| <= LEAF_MAX then
      JoinLeafEnds(left, right);
      MakeLeaf(left.entries + right.entries, left.order, next)
    else if left.Height() > right.Height() + 1 then
      var joined := Join(left.right, right, next);
      Rebalance(left.left, joined.node, joined.next)
    else if right.Height() > left.Height() + 1 then
      AdjacentLeft(left, right);
      var joined := Join(left, right.left, next);
      AtMostBefore(joined.node.Last(), right.left.Last(), right.right.First());
      Rebalance(joined.node, right.right, joined.next)
    else
      MakeBranch(left, right, next)
  }

  lemma JoinLeafEnds(left: Node, right: Node)
    requires Adjacent(left, right) && left.Leaf? && right.Leaf?
    ensures AtMost(left.order, right.Last())
  {
  }

  lemma AdjacentLeft(left: Node, right: Node)
    requires Adjacent(left, right) && right.Branch?
    ensures Adjacent(left, right.left)
  {
  }

  /** Whether `Join` reaches two leaves that fit into one. */
  predicate Merges(left: Node, right: Node)
    requires Adjacent(left, right)
    decreases left, right
  {
    Heights(left);
    Heights(right);
    if left.Leaf? && right.Leaf? && |left.entries| + |right.entries| <= LEAF_MAX then true
    else if left.Height() > right.Height() + 1 then Merges(left.right, right)
    else if right.Height() > left.Height() + 1 then
      AdjacentLeft(left, right);
      Merges(left, right.left)
    else false
  }

  predicate AllLeaves(leaves: seq<Node>) {
    forall i :: 0 <= i < |leaves| ==> leaves[i].Leaf?
  }

  lemma {:induction false} LeavesAreLeaves(node: Node)
    ensures AllLeaves(Leaves(node))
  {
    if node.Branch? {
      LeavesAreLeaves(node.left);
      LeavesAreLeaves(node.right);
    }
  }

  function LastLeaf(node: Node): (leaf: Node)
    ensures leaf.Leaf?
  {
    LeavesAreLeaves(node);
    Leaves(node)[|Leaves(node)| - 1]
  }

  function FirstLeaf(node: Node): (leaf: Node)
    ensures leaf.Leaf?
  {
    LeavesAreLeaves(node);
    Leaves(node)[0]
  }

  /** The leaf lists before and after a join: unchanged, or the two facing leaves fused. */
  function JoinedLeaves(a: seq<Node>, b: seq<Node>, merges: bool, id: nat): seq<Node>
    requires |a| > 0 && |b| > 0 && AllLeaves(a) && AllLeaves(b)
  {
    if merges then a[..|a| - 1] + [Fused(a[|a| - 1], b[0], id)] + b[1..] else a + b
  }

  function Fused(x: Node, y: Node, id: nat): (leaf: Node)
    requires x.Leaf? && y.Leaf?
    ensures leaf.Leaf?
  {
    Leaf(id, x.order, x.entries + y.entries, Sum(x.entries + y.entries))
  }

  /** A join touches at most the two facing leaves, and the fused leaf is allocated first. */
  lemma {:induction false} JoinLeaves(left: Node, right: Node, next: nat)
    requires Adjacent(left, right)
    ensures AllLeaves(Leaves(left)) && AllLeaves(Leaves(right))
    ensures Leaves(Join(left, right, next).node)
         == JoinedLeaves(Leaves(left), Leaves(right), Merges(left, right), next)
    ensures Merges(left, right)
        ==> |LastLeaf(left).entries| + |FirstLeaf(right).entries| <= LEAF_MAX
    decreases left, right
  {
    Heights(left);
    Heights(right);
    LeavesAreLeaves(left);
    LeavesAreLeaves(right);
    if left.Leaf? && right.Leaf? && |left.entries| + |right.entries| <= LEAF_MAX {
      assert Leaves(left)[..0] == [] && Leaves(right)[1..] == [];
    } else if left.Height() > right.Height() + 1 {
      JoinLeaves(left.right, right, next);
      var joined := Join(left.right, right, next);
      RebalanceLeaves(left.left, joined.node, joined.next);
      LeavesAreLeaves(left.left);
      JoinedLeavesPrepend(Leaves(left.left), Leaves(left.right), Leaves(right), Merges(left, right), next);
    } else if right.Height() > left.Height() + 1 {
      AdjacentLeft(left, right);
      JoinLeaves(left, right.left, next);
      var joined := Join(left, right.left, next);
      AtMostBefore(joined.node.Last(), right.left.Last(), right.right.First());
      RebalanceLeaves(joined.node, right.right, joined.next);
      LeavesAreLeaves(right.right);
      JoinedLeavesAppend(Leaves(left), Leaves(right.left), Leaves(right.right), Merges(left, right), next);
    }
  }

  lemma JoinedLeavesPrepend(a0: seq<Node>, a1: seq<Node>, b: seq<Node>, merges: bool, id: nat)
    requires |a1| > 0 && |b| > 0 && AllLeaves(a0) && AllLeaves(a1) && AllLeaves(b)
    ensures JoinedLeaves(a0 + a1, b, merges, id) == a0 + JoinedLeaves(a1, b, merges, id)
  {
    var a := a0 + a1;
    assert a[..|a| - 1] == a0 + a1[..|a1| - 1] && a[|a| - 1] == a1[|a1| - 1];
    if merges {
      Regroup(a0, a1[..|a1| - 1], [Fused(a1[|a1| - 1], b[0], id)], b[1..]);
    } else {
      Regroup(a0, a1, b, []);
    }
  }

  lemma JoinedLeavesAppend(a: seq<Node>, b0: seq<Node>, b1: seq<Node>, merges: bool, id: nat)
    requires |a| > 0 && |b0| > 0 && AllLeaves(a) && AllLeaves(b0) && AllLeaves(b1)
    ensures JoinedLeaves(a, b0 + b1, merges, id) == JoinedLeaves(a, b0, merges, id) + b1
  {
    var b := b0 + b1;
    assert b[0] == b0[0] && b[1..] == b0[1..] + b1;
    if merges {
      Associate(a[..|a| - 1] + [Fused(a[|a| - 1], b0[0], id)], b0[1..], b1);
    } else {
      Associate(a, b0, b1);
    }
  }

  function Flatten(leaves: seq<Node>): seq<Entry>
    requires AllLeaves(leaves)
  {
    if leaves == [] then [] else leaves[0].entries + Flatten(leaves[1..])
  }

  lemma {:induction false} FlattenConcat(a: seq<Node>, b: seq<Node>)
    requires AllLeaves(a) && AllLeaves(b)
    ensures Flatten(a + b) == Flatten(a) + Flatten(b)
  {
    if a == [] {
      assert a + b == b;
    } else {
      assert (a + b)[0] == a[0] && (a + b)[1..] == a[1..] + b;
      FlattenConcat(a[1..], b);
    }
  }

  lemma FlattenOne(leaf: Node)
    requires leaf.Leaf?
    ensures Flatten([leaf]) == leaf.entries
  {
  }

  lemma FuseFlatten<T>(front: seq<T>, x: seq<T>, y: seq<T>, back: seq<T>)
    ensures front + (x + y) + back == (front + x + []) + ([] + y + back)
  {
  }

  lemma FlattenSplice(front: seq<Node>, leaf: Node, back: seq<Node>, whole: seq<Node>)
    requires AllLeaves(front) && leaf.Leaf? && AllLeaves(back)
    requires whole == front + [leaf] + back
    ensures AllLeaves(whole)
    ensures Flatten(whole) == Flatten(front) + leaf.entries + Flatten(back)
  {
    FlattenConcat(front + [leaf], back);
    FlattenConcat(front, [leaf]);
    FlattenOne(leaf);
  }

  lemma EntriesOfLeaves(node: Node)
    ensures AllLeaves(Leaves(node)) && Entries(node) == Flatten(Leaves(node))
  {
    if node.Branch? {
      EntriesOfLeaves(node.left);
      EntriesOfLeaves(node.right);
      FlattenConcat(Leaves(node.left), Leaves(node.right));
    } else {
      assert Leaves(node)[1..] == [];
    }
  }

  lemma JoinedLeavesFlatten(a: seq<Node>, b: seq<Node>, merges: bool, id: nat)
    requires |a| > 0 && |b| > 0 && AllLeaves(a) && AllLeaves(b)
    ensures AllLeaves(JoinedLeaves(a, b, merges, id))
    ensures Flatten(JoinedLeaves(a, b, merges, id)) == Flatten(a) + Flatten(b)
  {
    if merges {
      assert a == a[..|a| - 1] + [a[|a| - 1]] && b == [b[0]] + b[1..];
      FusedFlatten(a, b, a[..|a| - 1], a[|a| - 1], b[0], b[1..], JoinedLeaves(a, b, merges, id), id);
    } else {
      FlattenConcat(a, b);
    }
  }

  lemma FusedFlatten(a: seq<Node>, b: seq<Node>, front: seq<Node>, x: Node, y: Node, back: seq<Node>,
                     joined: seq<Node>, id: nat)
    requires AllLeaves(front) && AllLeaves(back) && x.Leaf? && y.Leaf?
    requires a == front + [x] && b == [y] + back && joined == front + [Fused(x, y, id)] + back
    ensures AllLeaves(joined) && Flatten(joined) == Flatten(a) + Flatten(b)
  {
    FlattenSplice(front, x, [], a);
    FlattenSplice([], y, back, b);
    FlattenSplice(front, Fused(x, y, id), back, joined);
    FuseFlatten(Flatten(front), x.entries, y.entries, Flatten(back));
  }

  /** `concat_nodes` keeps the sequence. */
  lemma JoinEntries(left: Node, right: Node, next: nat)
    requires Adjacent(left, right)
    ensures Entries(Join(left, right, next).node) == Entries(left) + Entries(right)
  {
    JoinLeaves(left, right, next);
    EntriesOfLeaves(Join(left, right, next).node);
    EntriesOfLeaves(left);
    EntriesOfLeaves(right);
    JoinedLeavesFlatten(Leaves(left), Leaves(right), Merges(left, right), next);
  }

  // ------------------------------------------------------------------ optional roots

  function OEntries(root: Option<Node>): seq<Entry> {
    if root.Some? then Entries(root.value) else []
  }

  function OLeaves(root: Option<Node>): seq<Node> {
    if root.Some? then Leaves(root.value) else []
  }

  predicate OValid(root: Option<Node>) {
    root.Some? ==> Valid(root.value)
  }

  function OLen(root: Option<Node>): nat {
    if root.Some? then root.value.Len() else 0
  }

  function OFirst(root: Option<Node>): Option<Key> {
    if root.Some? then Some(root.value.First()) else None
  }

  function OLast(root: Option<Node>): Option<Key> {
    if root.Some? then Some(root.value.Last()) else None
  }

  predicate OAdjacent(left: Option<Node>, right: Option<Node>) {
    && OValid(left) && OValid(right)
    && (left.Some? && right.Some? ==> Before(left.value.Last(), right.value.First()))
  }

  datatype OMade = OMade(root: Option<Node>, next: nat)

  /** `concat_nodes` */
  function Concat(left: Option<Node>, right: Option<Node>, next: nat): (r: OMade)
    requires OAdjacent(left, right)
    ensures OValid(r.root) && r.next >= next
    ensures left.Some? ==> OFirst(r.root) == OFirst(left)
    ensures left.None? ==> r.root == right
    ensures right.None? ==> r.root == left
    ensures right.Some? ==> r.root.Some? && AtMost(r.root.value.Last(), right.value.Last())
  {
    if left.None? then OMade(right, next)
    else if right.None? then OMade(left, next)
    else
      var joined := Join(left.value, right.value, next);
      OMade(Some(joined.node), joined.next)
  }

  // ------------------------------------------------------------------ split

  datatype Cut = Cut(prefix: Option<Node>, suffix: Option<Node>, next: nat)

  predicate FitsBelow(node: Node, upper: Option<Key>) {
    upper.Some? ==> upper.value.Valid() && Before(node.Last(), upper.value)
  }

  /** How many entries a range covers. */
  function Span(start: nat, end: nat): nat
    requires start <= end
  {
    end - start
  }

  /** `split_node` */
  function Split(node: Node, rank: nat, upper: Option<Key>, next: nat): (cut: Cut)
    requires Valid(node) && FitsBelow(node, upper)
    ensures OAdjacent(cut.prefix, cut.suffix) && cut.next >= next
    ensures cut.prefix.Some? ==> cut.prefix.value.First() == node.First()
    ensures cut.suffix.Some? && upper.Some? ==> Before(cut.suffix.value.Last(), upper.value)
    ensures rank == 0 ==> cut.suffix == Some(node)
    ensures 0 < rank < node.Len() ==> cut.prefix.Some? && cut.suffix.Some?
  {
    if rank == 0 then Cut(None, Some(node), next)
    else if rank >= node.Len() then Cut(Some(node), None, next)
    else
      match node
      case Leaf(_, order, entries, _) =>
        var left := MakeLeaf(entries[..rank], order, next);
        var right := MakeLeaf(entries[rank..], Between(Some(order), upper), left.next);
        Cut(Some(left.node), Some(right.node), right.next)
      case Branch(_, left, right, _, _, _, _, _) =>
        if rank < left.Len() then
          LabelsValid(right);
          var below := Split(left, rank, Some(right.First()), next);
          var suffix := Concat(below.suffix, Some(right), below.next);
          SuffixBelow(suffix.root, right, upper);
          Cut(below.prefix, suffix.root, suffix.next)
        else
          var below := Split(right, Span(left.Len(), rank), upper, next);
          var prefix := Concat(Some(left), below.prefix, below.next);
          PrefixBefore(left, right, below, prefix.root);
          Cut(prefix.root, below.suffix, prefix.next)
  }

  lemma LabelsValid(node: Node)
    requires Valid(node)
    ensures node.First().Valid() && node.Last().Valid()
  {
    if node.Branch? {
      LabelsValid(node.left);
      LabelsValid(node.right);
    }
  }

  lemma ConcatEntries(left: Option<Node>, right: Option<Node>, next: nat)
    requires OAdjacent(left, right)
    ensures OEntries(Concat(left, right, next).root) == OEntries(left) + OEntries(right)
  {
    if left.Some? && right.Some? { JoinEntries(left.value, right.value, next); }
  }

  /** `split_node` cuts the sequence exactly at `rank`. */
  lemma {:induction false} SplitEntries(node: Node, rank: nat, upper: Option<Key>, next: nat)
    requires Valid(node) && FitsBelow(node, upper) && rank <= |Entries(node)|
    ensures CutsAt(node, Split(node, rank, upper, next), rank)
  {
    ValidFacts(node);
    if rank == 0 || rank >= node.Len() || node.Leaf? {
      SplitEntriesAtom(node, rank, upper, next);
    } else if rank < node.left.Len() {
      ValidFacts(node.left);
      var below := SplitLeft(node, rank, upper, next);
      SplitEntries(node.left, rank, Some(node.right.First()), next);
      EntriesFromLeft(node, below, rank, Split(node, rank, upper, next));
    } else {
      ValidFacts(node.left);
      var rest := Span(node.left.Len(), rank);
      var below := SplitRight(node, rank, rest, upper, next);
      SplitEntries(node.right, rest, upper, next);
      EntriesFromRight(node, below, rank, rest, Split(node, rank, upper, next));
    }
  }

  predicate CutsAt(node: Node, cut: Cut, rank: nat) {
    && rank <= |Entries(node)|
    && OEntries(cut.prefix) == Entries(node)[..rank]
    && OEntries(cut.suffix) == Entries(node)[rank..]
  }

  lemma SplitEntriesAtom(node: Node, rank: nat, upper: Option<Key>, next: nat)
    requires Valid(node) && FitsBelow(node, upper) && rank <= |Entries(node)| == node.Len()
    requires rank == 0 || rank >= node.Len() || node.Leaf?
    ensures CutsAt(node, Split(node, rank, upper, next), rank)
  {
  }

  lemma EntriesFromLeft(node: Node, below: Cut, rank: nat, cut: Cut)
    requires node.Branch? && below.suffix.Some? && Adjacent(below.suffix.value, node.right)
    requires cut.prefix == below.prefix
    requires cut.suffix == Some(Join(below.suffix.value, node.right, below.next).node)
    requires CutsAt(node.left, below, rank)
    ensures CutsAt(node, cut, rank)
  {
    JoinEntries(below.suffix.value, node.right, below.next);
    SliceLeft(Entries(node.left), Entries(node.right), rank);
  }

  lemma EntriesFromRight(node: Node, below: Cut, rank: nat, rest: nat, cut: Cut)
    requires node.Branch? && OAdjacent(Some(node.left), below.prefix)
    requires cut.prefix == Concat(Some(node.left), below.prefix, below.next).root && cut.suffix == below.suffix
    requires CutsAt(node.right, below, rest) && rank == |Entries(node.left)| + rest
    ensures CutsAt(node, cut, rank)
  {
    ConcatEntries(Some(node.left), below.prefix, below.next);
    SliceRight(Entries(node.left), Entries(node.right), rest);
  }

  lemma SliceLeft(a: seq<Entry>, b: seq<Entry>, rank: nat)
    requires rank <= |a|
    ensures (a + b)[..rank] == a[..rank] && (a + b)[rank..] == a[rank..] + b
  {
  }

  lemma SliceRight(a: seq<Entry>, b: seq<Entry>, rest: nat)
    requires rest <= |b|
    ensures (a + b)[..|a| + rest] == a + b[..rest] && (a + b)[|a| + rest..] == b[rest..]
  {
  }

  /** One step of a cut that goes into the left child. */
  lemma SplitLeft(node: Node, rank: nat, upper: Option<Key>, next: nat) returns (below: Cut)
    requires Valid(node) && FitsBelow(node, upper) && node.Branch? && 0 < rank < node.left.Len()
    ensures FitsBelow(node.left, Some(node.right.First()))
    ensures below == Split(node.left, rank, Some(node.right.First()), next) && below.next >= next
    ensures below.prefix.Some? && below.suffix.Some? && Adjacent(below.suffix.value, node.right)
    ensures var joined := Join(below.suffix.value, node.right, below.next);
      Split(node, rank, upper, next) == Cut(below.prefix, Some(joined.node), joined.next)
  {
    LabelsValid(node.right);
    below := Split(node.left, rank, Some(node.right.First()), next);
  }

  /** One step of a cut that goes `rest` entries into the right child. */
  lemma SplitRight(node: Node, rank: nat, rest: nat, upper: Option<Key>, next: nat) returns (below: Cut)
    requires Valid(node) && FitsBelow(node, upper) && node.Branch?
    requires rank > 0 && node.left.Len() <= rank < node.Len() && rest == Span(node.left.Len(), rank)
    ensures FitsBelow(node.right, upper)
    ensures below == Split(node.right, rest, upper, next) && below.next >= next && below.suffix.Some?
    ensures OAdjacent(Some(node.left), below.prefix) && (below.prefix.None? ==> rest == 0)
    ensures var prefix := Concat(Some(node.left), below.prefix, below.next);
      Split(node, rank, upper, next) == Cut(prefix.root, below.suffix, prefix.next)
  {
    below := Split(node.right, rest, upper, next);
    PrefixAfterLeft(node, rest, upper, next, below);
    SplitRightStep(node, rank, rest, upper, next, below);
  }

  lemma PrefixAfterLeft(node: Node, rest: nat, upper: Option<Key>, next: nat, below: Cut)
    requires Valid(node) && FitsBelow(node, upper) && node.Branch? && rest < node.right.Len()
    requires below == Split(node.right, rest, upper, next)
    ensures OAdjacent(Some(node.left), below.prefix)
  {
  }

  lemma SplitRightStep(node: Node, rank: nat, rest: nat, upper: Option<Key>, next: nat, below: Cut)
    requires Valid(node) && FitsBelow(node, upper) && node.Branch?
    requires rank > 0 && node.left.Len() <= rank < node.Len() && rest == Span(node.left.Len(), rank)
    requires below == Split(node.right, rest, upper, next) && OAdjacent(Some(node.left), below.prefix)
    ensures var prefix := Concat(Some(node.left), below.prefix, below.next);
      Split(node, rank, upper, next) == Cut(prefix.root, below.suffix, prefix.next)
  {
  }

  lemma SuffixBelow(root: Option<Node>, right: Node, upper: Option<Key>)
    requires root.Some? && AtMost(root.value.Last(), right.Last())
    requires FitsBelow(right, upper)
    ensures upper.Some? ==> Before(root.value.Last(), upper.value)
  {
    if upper.Some? { AtMostBefore(root.value.Last(), right.Last(), upper.value); }
  }

  lemma PrefixBefore(left: Node, right: Node, below: Cut, prefix: Option<Node>)
    requires Adjacent(left, right)
    requires OAdjacent(below.prefix, below.suffix)
    requires below.prefix.None? ==> prefix == Some(left)
    requires below.prefix.Some?
      ==> prefix.Some? && AtMost(prefix.value.Last(), below.prefix.value.Last())
    requires below.prefix.None? && below.suffix.Some? ==> below.suffix.value.First() == right.First()
    ensures below.suffix.Some? ==> Before(prefix.value.Last(), below.suffix.value.First())
  {
    if below.suffix.Some? && below.prefix.Some? {
      AtMostBefore(prefix.value.Last(), below.prefix.value.Last(), below.suffix.value.First());
    }
  }
}
