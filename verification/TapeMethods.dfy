/** The tape operations as methods that allocate node ids from
    one shared counter and loop over levels, chunks and index entries.  Each returns exactly
    what its specification function says. */
module TapeMethods {
  import opened Wrappers
  import opened LeafOrder
  import opened TapeTree
  import opened TapeSplice
  import opened TapeIndex
  import opened TapeOccurrences

  /** `TapeIdAllocator` */
  class TapeIdAllocator {
    var next: nat
    var created: nat

    constructor ()
      ensures next == 1 && created == 0
    {
      next, created := 1, 0;
    }

    method Allocate() returns (id: nat)
      modifies this
      ensures id == old(next) && next == old(next) + 1 && created == old(created) + 1
    {
      id := next;
      next, created := next + 1, created + 1;
    }

    /** Allocations are counted: both counters moved to `to` in step. */
    twostate predicate MovedTo(to: nat)
      reads this
    {
      next == to && created - old(created) == to - old(next)
    }
  }

  method NewLeaf(entries: seq<Entry>, order: Key, allocator: TapeIdAllocator) returns (node: Node)
    requires order.Valid() && 0 < |entries| <= LEAF_MAX
    modifies allocator
    ensures node == MakeLeaf(entries, order, old(allocator.next)).node
    ensures allocator.MovedTo(MakeLeaf(entries, order, old(allocator.next)).next)
  {
    var metric, i := ZERO, 0;
    while i < |entries|
      invariant i <= |entries| && metric == Sum(entries[..i]) && allocator.MovedTo(old(allocator.next))
    {
      assert entries[..i + 1] == entries[..i] + [entries[i]];
      SumConcat(entries[..i], [entries[i]]);
      assert Sum([entries[i]]) == Add(entries[i].metric, Sum([]));
      metric := Add(metric, entries[i].metric);
      i := i + 1;
    }
    assert entries[..i] == entries;
    var id := allocator.Allocate();
    node := Leaf(id, order, entries, metric);
  }

  method NewBranch(left: Node, right: Node, allocator: TapeIdAllocator) returns (node: Node)
    requires Adjacent(left, right)
    modifies allocator
    ensures node == MakeBranch(left, right, old(allocator.next)).node
    ensures allocator.MovedTo(MakeBranch(left, right, old(allocator.next)).next)
  {
    var id := allocator.Allocate();
    node := Branch(id, left, right, left.Len() + right.Len(), Max(left.Height(), right.Height()) + 1,
      Add(left.metric, right.metric), left.First(), right.Last());
  }

  lemma PairTwo(nodes: seq<Node>, i: nat, next: nat)
    requires Chain(nodes) && i + 1 < |nodes|
    ensures Chain(nodes[i..]) && Chain(nodes[i + 2..]) && Adjacent(nodes[i], nodes[i + 1])
    ensures var pair := MakeBranch(nodes[i], nodes[i + 1], next);
      var rest := PairLevel(nodes[i + 2..], pair.next);
      PairLevel(nodes[i..], next) == Level([pair.node] + rest.nodes, rest.next)
  {
    var rest := nodes[i..];
    assert rest[0] == nodes[i] && rest[1] == nodes[i + 1] && rest[2..] == nodes[i + 2..];
  }

  lemma PairOdd(nodes: seq<Node>, i: nat, next: nat)
    requires Chain(nodes) && i + 1 == |nodes|
    ensures Chain(nodes[i..]) && PairLevel(nodes[i..], next) == Level([nodes[i]], next)
  {
    assert nodes[i..] == [nodes[i]];
  }

  /** What is left to do after `done` nodes of a level are made. */
  ghost predicate LevelRest(whole: Level, done: seq<Node>, rest: Level) {
    whole.nodes == done + rest.nodes && whole.next == rest.next
  }

  lemma LevelStep(whole: Level, done: seq<Node>, rest: Level, node: Node, tail: Level)
    requires LevelRest(whole, done, rest)
    requires rest.nodes == [node] + tail.nodes && rest.next == tail.next
    ensures LevelRest(whole, done + [node], tail)
  {
  }

  /** `done` nodes of the level are made and the rest still has to be paired. */
  ghost predicate Pairing(whole: Level, done: seq<Node>, nodes: seq<Node>, i: nat, next: nat) {
    i <= |nodes| && Chain(nodes) && Chain(nodes[i..]) && LevelRest(whole, done, PairLevel(nodes[i..], next))
  }

  lemma PairTwoStep(whole: Level, done: seq<Node>, nodes: seq<Node>, i: nat, next: nat)
    requires Pairing(whole, done, nodes, i, next) && i + 1 < |nodes|
    ensures Adjacent(nodes[i], nodes[i + 1])
    ensures var pair := MakeBranch(nodes[i], nodes[i + 1], next);
      Pairing(whole, done + [pair.node], nodes, i + 2, pair.next)
  {
    PairTwo(nodes, i, next);
    var pair := MakeBranch(nodes[i], nodes[i + 1], next);
    LevelStep(whole, done, PairLevel(nodes[i..], next), pair.node, PairLevel(nodes[i + 2..], pair.next));
  }

  lemma PairOddStep(whole: Level, done: seq<Node>, nodes: seq<Node>, i: nat, next: nat)
    requires Pairing(whole, done, nodes, i, next) && i + 1 == |nodes|
    ensures Pairing(whole, done + [nodes[i]], nodes, i + 1, next)
  {
    PairOdd(nodes, i, next);
    assert nodes[i + 1..] == [];
    LevelStep(whole, done, PairLevel(nodes[i..], next), nodes[i], Level([], next));
  }

  /** One level of pairing, consuming the list two nodes at a time. */
  method PairUp(nodes: seq<Node>, allocator: TapeIdAllocator) returns (paired: seq<Node>)
    requires Chain(nodes)
    modifies allocator
    ensures paired == PairLevel(nodes, old(allocator.next)).nodes
    ensures allocator.MovedTo(PairLevel(nodes, old(allocator.next)).next)
  {
    assert nodes[0..] == nodes;
    paired := PairFrom(nodes, allocator, PairLevel(nodes, allocator.next));
  }

  method PairFrom(nodes: seq<Node>, allocator: TapeIdAllocator, ghost level: Level) returns (paired: seq<Node>)
    requires Pairing(level, [], nodes, 0, allocator.next)
    modifies allocator
    ensures paired == level.nodes && allocator.MovedTo(level.next)
  {
    paired := [];
    var i: nat := 0;
    while i < |nodes|
      invariant Pairing(level, paired, nodes, i, allocator.next)
      invariant allocator.MovedTo(allocator.next)
    {
      if i + 1 < |nodes| {
        PairTwoStep(level, paired, nodes, i, allocator.next);
        var pair := NewBranch(nodes[i], nodes[i + 1], allocator);
        paired := paired + [pair];
        i := i + 2;
      } else {
        PairOddStep(level, paired, nodes, i, allocator.next);
        paired := paired + [nodes[i]];
        i := i + 1;
      }
    }
  }

  /** `build_balanced` */
  method Build(leaves: seq<Node>, allocator: TapeIdAllocator) returns (node: Node)
    requires Chain(leaves) && leaves != []
    modifies allocator
    ensures node == BuildBalanced(leaves, old(allocator.next)).node
    ensures allocator.MovedTo(BuildBalanced(leaves, old(allocator.next)).next)
  {
    var nodes := leaves;
    while |nodes| > 1
      invariant Chain(nodes) && nodes != []
      invariant BuildBalanced(nodes, allocator.next) == BuildBalanced(leaves, old(allocator.next))
      invariant allocator.MovedTo(allocator.next)
      decreases |nodes|
    {
      nodes := PairUp(nodes, allocator);
    }
    node := nodes[0];
  }

  /** `from_entries` */
  method NewTape(entries: seq<Entry>, allocator: TapeIdAllocator) returns (tape: Tape)
    modifies allocator
    ensures tape == FromEntries(entries, old(allocator.next)).root
    ensures allocator.MovedTo(FromEntries(entries, old(allocator.next)).next)
  {
    if entries == [] { return None; }
    var chunks := Chunks(entries);
    InitialLeavesChain(chunks, allocator.next);
    var leaves := InitialRow(chunks, allocator);
    var root := Build(leaves, allocator);
    tape := Some(root);
  }

  predicate ChunksFit(chunks: seq<seq<Entry>>) {
    forall i :: 0 <= i < |chunks| ==> 0 < |chunks[i]| <= LEAF_MAX
  }

  /** `done` leaves are made and the rest still has to be labelled. */
  ghost predicate Labelling(whole: Level, done: seq<Node>, chunks: seq<seq<Entry>>, i: nat, next: nat) {
    && i <= |chunks| && ChunksFit(chunks)
    && LevelRest(whole, done, InitialLeaves(chunks[i..], i, |chunks|, next))
  }

  lemma LabelStart(chunks: seq<seq<Entry>>, next: nat)
    requires ChunksFit(chunks)
    ensures Labelling(InitialLeaves(chunks, 0, |chunks|, next), [], chunks, 0, next)
  {
    assert chunks[0..] == chunks;
  }

  lemma InitialStep(whole: Level, done: seq<Node>, chunks: seq<seq<Entry>>, i: nat, next: nat)
    requires i < |chunks| && Labelling(whole, done, chunks, i, next)
    ensures var leaf := MakeLeaf(chunks[i], Initial(i, |chunks|), next);
      Labelling(whole, done + [leaf.node], chunks, i + 1, leaf.next)
  {
    assert chunks[i..][0] == chunks[i] && chunks[i..][1..] == chunks[i + 1..];
    var leaf := MakeLeaf(chunks[i], Initial(i, |chunks|), next);
    LevelStep(whole, done, InitialLeaves(chunks[i..], i, |chunks|, next), leaf.node,
      InitialLeaves(chunks[i + 1..], i + 1, |chunks|, leaf.next));
  }

  /** The labelling loop of `from_entries`. */
  method InitialRow(chunks: seq<seq<Entry>>, allocator: TapeIdAllocator) returns (leaves: seq<Node>)
    requires ChunksFit(chunks)
    modifies allocator
    ensures leaves == InitialLeaves(chunks, 0, |chunks|, old(allocator.next)).nodes
    ensures allocator.MovedTo(InitialLeaves(chunks, 0, |chunks|, old(allocator.next)).next)
  {
    ghost var level := InitialLeaves(chunks, 0, |chunks|, allocator.next);
    LabelStart(chunks, allocator.next);
    leaves := LabelFrom(chunks, allocator, level);
  }

  method LabelFrom(chunks: seq<seq<Entry>>, allocator: TapeIdAllocator, ghost level: Level)
    returns (leaves: seq<Node>)
    requires Labelling(level, [], chunks, 0, allocator.next)
    modifies allocator
    ensures leaves == level.nodes && allocator.MovedTo(level.next)
  {
    var ordinal: nat := 0;
    leaves := [];
    while ordinal < |chunks|
      invariant Labelling(level, leaves, chunks, ordinal, allocator.next)
      invariant allocator.MovedTo(allocator.next)
    {
      InitialStep(level, leaves, chunks, ordinal, allocator.next);
      var leaf := NewLeaf(chunks[ordinal], Initial(ordinal, |chunks|), allocator);
      leaves := leaves + [leaf];
      ordinal := ordinal + 1;
    }
  }

  /** `rekey_between` */
  method Rekey(tape: Tape, lower: Option<Key>, upper: Option<Key>, allocator: TapeIdAllocator)
    returns (fitted: Tape)
    requires OValid(tape) && Ordered(lower, upper)
    modifies allocator
    ensures fitted == RekeyBetween(tape, lower, upper, old(allocator.next)).root
    ensures allocator.MovedTo(RekeyBetween(tape, lower, upper, old(allocator.next)).next)
  {
    if Fits(tape, lower, upper) { return tape; }
    ValidFacts(tape.value);
    var chunks := Chunks(Entries(tape.value));
    var leaves := RekeyedRow(chunks, lower, upper, allocator);
    var root := Build(leaves, allocator);
    fitted := Some(root);
  }

  lemma RekeyStep(whole: Level, done: seq<Node>, chunks: seq<seq<Entry>>, i: nat,
                  previous: Option<Key>, upper: Option<Key>, next: nat)
    requires ChunksFit(chunks) && i < |chunks| && Ordered(previous, upper)
    requires LevelRest(whole, done, RekeyedLeaves(chunks[i..], previous, upper, next))
    ensures var order := Between(previous, upper);
      && Ordered(Some(order), upper)
      && var leaf := MakeLeaf(chunks[i], order, next);
      LevelRest(whole, done + [leaf.node], RekeyedLeaves(chunks[i + 1..], Some(order), upper, leaf.next))
  {
    assert chunks[i..][0] == chunks[i] && chunks[i..][1..] == chunks[i + 1..];
    var order := Between(previous, upper);
    var leaf := MakeLeaf(chunks[i], order, next);
    LevelStep(whole, done, RekeyedLeaves(chunks[i..], previous, upper, next), leaf.node,
      RekeyedLeaves(chunks[i + 1..], Some(order), upper, leaf.next));
  }

  /** `done` leaves are made and the rest still has to be relabelled from `previous` on. */
  ghost predicate Relabelling(whole: Level, done: seq<Node>, chunks: seq<seq<Entry>>, i: nat,
                              previous: Option<Key>, upper: Option<Key>, next: nat) {
    && i <= |chunks| && ChunksFit(chunks) && Ordered(previous, upper)
    && LevelRest(whole, done, RekeyedLeaves(chunks[i..], previous, upper, next))
  }

  lemma RelabelStart(chunks: seq<seq<Entry>>, lower: Option<Key>, upper: Option<Key>, next: nat)
    requires ChunksFit(chunks) && Ordered(lower, upper)
    ensures Relabelling(RekeyedLeaves(chunks, lower, upper, next), [], chunks, 0, lower, upper, next)
  {
    assert chunks[0..] == chunks;
  }

  /** The labelling loop of `rekey_between`. */
  method RekeyedRow(chunks: seq<seq<Entry>>, lower: Option<Key>, upper: Option<Key>,
                    allocator: TapeIdAllocator) returns (leaves: seq<Node>)
    requires Ordered(lower, upper) && ChunksFit(chunks)
    modifies allocator
    ensures leaves == RekeyedLeaves(chunks, lower, upper, old(allocator.next)).nodes
    ensures allocator.MovedTo(RekeyedLeaves(chunks, lower, upper, old(allocator.next)).next)
  {
    ghost var level := RekeyedLeaves(chunks, lower, upper, allocator.next);
    RelabelStart(chunks, lower, upper, allocator.next);
    leaves := RekeyFrom(chunks, lower, upper, allocator, level);
  }

  method RekeyFrom(chunks: seq<seq<Entry>>, lower: Option<Key>, upper: Option<Key>,
                   allocator: TapeIdAllocator, ghost level: Level) returns (leaves: seq<Node>)
    requires Relabelling(level, [], chunks, 0, lower, upper, allocator.next)
    modifies allocator
    ensures leaves == level.nodes && allocator.MovedTo(level.next)
  {
    var previous, i: nat := lower, 0;
    leaves := [];
    while i < |chunks|
      invariant Relabelling(level, leaves, chunks, i, previous, upper, allocator.next)
      invariant allocator.MovedTo(allocator.next)
    {
      RekeyStep(level, leaves, chunks, i, previous, upper, allocator.next);
      var order := Between(previous, upper);
      previous := Some(order);
      var leaf := NewLeaf(chunks[i], order, allocator);
      leaves := leaves + [leaf];
      i := i + 1;
    }
  }

  /** `rebalance` */
  method Rotate(left: Node, right: Node, allocator: TapeIdAllocator) returns (node: Node)
    requires Adjacent(left, right)
    modifies allocator
    ensures node == Rebalance(left, right, old(allocator.next)).node
    ensures allocator.MovedTo(Rebalance(left, right, old(allocator.next)).next)
  {
    Heights(left);
    Heights(right);
    if left.Height() > right.Height() + 1 {
      Heights(left.left);
      Heights(left.right);
      if left.left.Height() >= left.right.Height() {
        var branch := NewBranch(left.right, right, allocator);
        node := NewBranch(left.left, branch, allocator);
      } else {
        var pivot := left.right;
        var l := NewBranch(left.left, pivot.left, allocator);
        var r := NewBranch(pivot.right, right, allocator);
        node := NewBranch(l, r, allocator);
      }
    } else if right.Height() > left.Height() + 1 {
      Heights(right.left);
      Heights(right.right);
      if right.right.Height() >= right.left.Height() {
        var branch := NewBranch(left, right.left, allocator);
        node := NewBranch(branch, right.right, allocator);
      } else {
        var pivot := right.left;
        var l := NewBranch(left, pivot.left, allocator);
        var r := NewBranch(pivot.right, right.right, allocator);
        node := NewBranch(l, r, allocator);
      }
    } else {
      node := NewBranch(left, right, allocator);
    }
  }

  /** `concat_nodes` on two present roots. */
  method ConcatNodes(left: Node, right: Node, allocator: TapeIdAllocator) returns (node: Node)
    requires Adjacent(left, right)
    modifies allocator
    ensures node == Join(left, right, old(allocator.next)).node
    ensures allocator.MovedTo(Join(left, right, old(allocator.next)).next)
    decreases left, right
  {
    Heights(left);
    Heights(right);
    if left.Leaf? && right.Leaf? && |left.entries| + |right.entries| <= LEAF_MAX {
      node := NewLeaf(left.entries + right.entries, left.order, allocator);
    } else if left.Height() > right.Height() + 1 {
      var joined := ConcatNodes(left.right, right, allocator);
      node := Rotate(left.left, joined, allocator);
    } else if right.Height() > left.Height() + 1 {
      AdjacentLeft(left, right);
      var joined := ConcatNodes(left, right.left, allocator);
      AtMostBefore(joined.Last(), right.left.Last(), right.right.First());
      node := Rotate(joined, right.right, allocator);
    } else {
      node := NewBranch(left, right, allocator);
    }
  }

  method ConcatRoots(left: Tape, right: Tape, allocator: TapeIdAllocator) returns (tape: Tape)
    requires OAdjacent(left, right)
    modifies allocator
    ensures tape == Concat(left, right, old(allocator.next)).root
    ensures allocator.MovedTo(Concat(left, right, old(allocator.next)).next)
  {
    if left.None? { return right; }
    if right.None? { return left; }
    var node := ConcatNodes(left.value, right.value, allocator);
    tape := Some(node);
  }

  /** `split_node` */
  method SplitNode(node: Node, rank: nat, upper: Option<Key>, allocator: TapeIdAllocator)
    returns (prefix: Tape, suffix: Tape)
    requires Valid(node) && FitsBelow(node, upper)
    modifies allocator
    ensures var cut := Split(node, rank, upper, old(allocator.next));
      prefix == cut.prefix && suffix == cut.suffix && allocator.MovedTo(cut.next)
    decreases node
  {
    if rank == 0 { return None, Some(node); }
    if rank >= node.Len() { return Some(node), None; }
    if node.Leaf? {
      var left := NewLeaf(node.entries[..rank], node.order, allocator);
      var right := NewLeaf(node.entries[rank..], Between(Some(node.order), upper), allocator);
      return Some(left), Some(right);
    }
    if rank < node.left.Len() {
      LabelsValid(node.right);
      var middle: Tape;
      prefix, middle := SplitNode(node.left, rank, Some(node.right.First()), allocator);
      suffix := ConcatRoots(middle, Some(node.right), allocator);
    } else {
      var middle: Tape;
      middle, suffix := SplitNode(node.right, Span(node.left.Len(), rank), upper, allocator);
      prefix := ConcatRoots(Some(node.left), middle, allocator);
    }
  }

  /** `split_at` */
  method CutAt(tape: Tape, rank: nat, allocator: TapeIdAllocator) returns (prefix: Tape, suffix: Tape)
    requires OValid(tape)
    modifies allocator
    ensures var cut := SplitAt(tape, rank, old(allocator.next));
      prefix == cut.prefix && suffix == cut.suffix && allocator.MovedTo(cut.next)
  {
    if tape.None? { return None, None; }
    var clamped := if rank < tape.value.Len() then rank else tape.value.Len();
    prefix, suffix := SplitNode(tape.value, clamped, None, allocator);
  }

  /** `concat` */
  method Append(left: Tape, right: Tape, allocator: TapeIdAllocator) returns (tape: Tape)
    requires OValid(left) && OValid(right)
    modifies allocator
    ensures tape == ConcatTapes(left, right, old(allocator.next)).root
    ensures allocator.MovedTo(ConcatTapes(left, right, old(allocator.next)).next)
  {
    LastValid(left);
    var fitted := Rekey(right, OLast(left), None, allocator);
    tape := ConcatRoots(left, fitted, allocator);
  }

  /** `splice` */
  method SpliceRange(tape: Tape, from: nat, to: nat, replacement: Tape, allocator: TapeIdAllocator)
    returns (spliced: Tape)
    requires OValid(tape) && OValid(replacement)
    modifies allocator
    ensures spliced == Splice(tape, from, to, replacement, old(allocator.next)).root
    ensures allocator.MovedTo(Splice(tape, from, to, replacement, old(allocator.next)).next)
  {
    var start, end := ClampStart(OLen(tape), from), ClampEnd(OLen(tape), from, to);
    ghost var cuts := SpliceCuts(tape, start, end, allocator.next);
    var span := Span(start, end);
    ghost var first, second := TwoCuts(tape, start, end, span, allocator.next);
    var prefix, suffix := CutTwice(tape, start, span, allocator, first, second);
    spliced := JoinThrough(prefix, replacement, suffix, allocator, cuts);
  }

  /** The two cuts of `splice`. */
  method CutTwice(tape: Tape, start: nat, span: nat, allocator: TapeIdAllocator, ghost first: Cut, ghost second: Cut)
    returns (prefix: Tape, suffix: Tape)
    requires OValid(tape) && OValid(first.suffix)
    requires first == SplitAt(tape, start, allocator.next)
    requires second == SplitAt(first.suffix, span, first.next)
    modifies allocator
    ensures prefix == first.prefix && suffix == second.suffix && allocator.MovedTo(second.next)
  {
    var remainder, removed: Tape;
    prefix, remainder := CutAt(tape, start, allocator);
    removed, suffix := CutAt(remainder, span, allocator);
  }

  /** The relabelling and the two concatenations of `splice`. */
  method JoinThrough(prefix: Tape, replacement: Tape, suffix: Tape, allocator: TapeIdAllocator, ghost cuts: Cuts)
    returns (spliced: Tape)
    requires OAdjacent(prefix, suffix) && OValid(replacement)
    requires cuts.prefix == prefix && cuts.suffix == suffix && cuts.next == allocator.next
    modifies allocator
    ensures var fitted := Fitted(cuts, replacement);
      var head := ConcatTapes(prefix, fitted.root, fitted.next);
      var joined := ConcatTapes(head.root, suffix, head.next);
      spliced == joined.root && allocator.MovedTo(joined.next)
  {
    EndsOrdered(prefix, suffix);
    var fitted := Rekey(replacement, OLast(prefix), OFirst(suffix), allocator);
    var head := Append(prefix, fitted, allocator);
    spliced := Append(head, suffix, allocator);
  }

  // ------------------------------------------------------------------ the index

  /** `collect_locations`: appends the locations of the ranks in the window. */
  method CollectLocations(node: Node, base: nat, lo: nat, hi: nat, out: seq<(nat, Location)>)
    returns (all: seq<(nat, Location)>)
    requires Valid(node) && lo <= hi
    ensures all == out + Collect(node, base, lo, hi)
    decreases node
  {
    ValidFacts(node);
    if lo >= base + node.Len() || hi <= base { return out; }
    if node.Leaf? {
      all := CollectLeaf(node, base, lo, hi, out);
    } else {
      all := CollectLocations(node.left, base, lo, hi, out);
      all := CollectLocations(node.right, base + node.left.Len(), lo, hi, all);
      CollectBranch(node, base, lo, hi, out);
    }
  }

  lemma CollectBranch(node: Node, base: nat, lo: nat, hi: nat, out: seq<(nat, Location)>)
    requires Valid(node) && node.Branch? && lo <= hi && lo < base + node.Len() && base < hi
    ensures out + Collect(node, base, lo, hi)
         == out + Collect(node.left, base, lo, hi) + Collect(node.right, base + node.left.Len(), lo, hi)
  {
  }

  method CollectLeaf(node: Node, base: nat, lo: nat, hi: nat, out: seq<(nat, Location)>)
    returns (all: seq<(nat, Location)>)
    requires Valid(node) && node.Leaf? && lo <= hi && lo < base + node.Len() && base < hi
    ensures all == out + Collect(node, base, lo, hi)
  {
    var start: nat := if lo < base then 0 else lo - base;
    var end: nat := if hi - base < |node.entries| then hi - base else |node.entries|;
    ghost var want := Collect(node, base, lo, hi);
    all := out;
    for slot := start to end
      invariant all == out + want[..slot - start]
    {
      assert want[slot - start] == (node.entries[slot].id, Location(node.id, slot, node.order));
      all := all + [(node.entries[slot].id, Location(node.id, slot, node.order))];
    }
    assert want[..end - start] == want;
  }

  method Locations(tape: Tape, lo: nat, hi: nat) returns (pairs: seq<(nat, Location)>)
    requires OValid(tape) && lo <= hi
    ensures pairs == LocationsInRange(tape, lo, hi)
  {
    pairs := [];
    if tape.Some? { pairs := CollectLocations(tape.value, 0, lo, hi, []); }
  }

  method Remove(index: Index, pairs: seq<(nat, Location)>) returns (left: Index)
    ensures left == RemoveAll(index, pairs)
  {
    left := index;
    assert pairs[0..] == pairs;
    for i := 0 to |pairs|
      invariant RemoveAll(left, pairs[i..]) == RemoveAll(index, pairs)
    {
      assert pairs[i..][0] == pairs[i] && pairs[i..][1..] == pairs[i + 1..];
      left := left - {pairs[i].0};
    }
  }

  method Insert(index: Index, pairs: seq<(nat, Location)>) returns (filled: Index)
    ensures filled == InsertAll(index, pairs)
  {
    filled := index;
    assert pairs[0..] == pairs;
    for i := 0 to |pairs|
      invariant InsertAll(filled, pairs[i..]) == InsertAll(index, pairs)
    {
      assert pairs[i..][0] == pairs[i] && pairs[i..][1..] == pairs[i + 1..];
      filled := filled[pairs[i].0 := pairs[i].1];
    }
  }

  lemma ClampedSplice(tape: Tape, start: nat, end: nat, replacement: Tape, next: nat)
    requires OValid(tape) && OValid(replacement) && start <= end <= OLen(tape)
    ensures Splice(tape, start, end, replacement, next) == SpliceAt(tape, start, end, replacement, next)
    ensures OLen(Splice(tape, start, end, replacement, next).root)
         == OLen(tape) - (end - start) + OLen(replacement)
  {
    SpliceLen(tape, start, end, replacement, next);
    assert ClampStart(OLen(tape), start) == start && ClampEnd(OLen(tape), start, end) == end;
  }

  /** The index update of `splice_with_index`. */
  method Reindex(index: Index, before: seq<(nat, Location)>, spliced: Tape, lo: nat, hi: nat)
    returns (patched: Index)
    requires OValid(spliced) && lo <= hi
    ensures patched == InsertAll(RemoveAll(index, before), LocationsInRange(spliced, lo, hi))
  {
    var now := Locations(spliced, lo, hi);
    patched := Remove(index, before);
    patched := Insert(patched, now);
  }

  /** `splice_with_index` between clamped bounds. */
  method PatchClamped(tape: Tape, index: Index, start: nat, end: nat, replacement: Tape,
                      allocator: TapeIdAllocator) returns (r: Patched)
    requires OValid(tape) && OValid(replacement) && start <= end <= OLen(tape)
    modifies allocator
    ensures r == PatchAt(tape, index, start, end, replacement, old(allocator.next))
    ensures allocator.MovedTo(r.next)
  {
    var before := Locations(tape, WindowStart(start), WindowEnd(end, OLen(tape)));
    ghost var want := SpliceAt(tape, start, end, replacement, allocator.next);
    ClampedSplice(tape, start, end, replacement, allocator.next);
    var spliced := SpliceRange(tape, start, end, replacement, allocator);
    assert spliced == want.root && allocator.next == want.next;
    var patched := Reindex(index, before, spliced, WindowStart(start),
      WindowEnd(start + OLen(replacement), OLen(spliced)));
    r := Patched(spliced, patched, allocator.next);
  }

  /** `splice_with_index` */
  method SpliceAndPatch(tape: Tape, index: Index, from: nat, to: nat, replacement: Tape,
                        allocator: TapeIdAllocator) returns (r: Patched)
    requires OValid(tape) && OValid(replacement)
    modifies allocator
    ensures r == SpliceWithIndex(tape, index, from, to, replacement, old(allocator.next))
    ensures allocator.MovedTo(r.next)
  {
    var start, end := ClampStart(OLen(tape), from), ClampEnd(OLen(tape), from, to);
    r := PatchClamped(tape, index, start, end, replacement, allocator);
  }
}
