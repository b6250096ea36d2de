/** A run of public edits after which an empty splice makes the patched index inexact.

    257 entries inserted at once make five leaves, whose balanced build is not AVL; the next
    insertion rotates it into a right-heavy node with two small facing leaves. */
module TapeFarExample {
  import opened Wrappers
  import opened LeafOrder
  import opened TapeTree
  import opened TapeBalance
  import opened TapeSplice
  import opened TapeIndex
  import opened TapeLocality
  import opened TapeOccurrences
  import opened TapePatch
  import opened TapeRuns

  function Fresh(first: nat, n: nat): (s: seq<Entry>)
    ensures |s| == n
    ensures forall i :: 0 <= i < n ==> s[i].id == first + i
  {
    seq(n, i requires 0 <= i < n => Entry(first + i, Metric(1, 0, 1), 0))
  }

  const STEP1 := Edit(0, 123, [])
  const STEP2 := Edit(0, 0, Fresh(1000, 257))
  const STEP3 := Edit(0, 0, Fresh(2000, 192))
  const STEP4 := Edit(550, 550, [])

  // ------------------------------------------------------------------ built shapes

  /** A tree that `build_balanced` made over the chunks of `entries`. */
  ghost predicate BuiltFrom(node: Node, entries: seq<Entry>) {
    exists nodes, next: nat :: BuiltOver(node, nodes, next) && Carry(nodes, Chunks(entries))
  }

  ghost predicate BuiltOver(node: Node, nodes: seq<Node>, next: nat) {
    Chain(nodes) && nodes != [] && node == BuildBalanced(nodes, next).node
  }

  ghost predicate Carry(nodes: seq<Node>, chunks: seq<seq<Entry>>) {
    |nodes| == |chunks| && forall i :: 0 <= i < |nodes| ==> nodes[i].Leaf? && nodes[i].entries == chunks[i]
  }

  lemma FromEntriesBuilt(entries: seq<Entry>, next: nat)
    requires entries != []
    ensures BuiltFrom(FromEntries(entries, next).root.value, entries)
  {
    var chunks := Chunks(entries);
    var leaves := InitialLeaves(chunks, 0, |chunks|, next);
    InitialLeavesChain(chunks, next);
    assert BuiltOver(FromEntries(entries, next).root.value, leaves.nodes, leaves.next);
    assert Carry(leaves.nodes, chunks);
  }

  lemma FittedBuilt(entries: seq<Entry>, next: nat, cuts: Cuts)
    requires entries != [] && OAdjacent(cuts.prefix, cuts.suffix)
    ensures Fitted(cuts, FromEntries(entries, next).root).root.Some?
    ensures BuiltFrom(Fitted(cuts, FromEntries(entries, next).root).root.value, entries)
  {
    FromEntriesBuilt(entries, next);
    FromEntriesDenotes(entries, next);
    var tape := FromEntries(entries, next).root;
    EndsOrdered(cuts.prefix, cuts.suffix);
    var lower, upper := OLast(cuts.prefix), OFirst(cuts.suffix);
    if !Fits(tape, lower, upper) {
      var chunks := Chunks(Entries(tape.value));
      var leaves := RekeyedLeaves(chunks, lower, upper, cuts.next);
      RekeyedLeavesHold(chunks, lower, upper, cuts.next);
      assert BuiltOver(Fitted(cuts, tape).root.value, leaves.nodes, leaves.next);
      assert Carry(leaves.nodes, chunks);
    }
  }

  lemma {:induction false} ChunkSizes(entries: seq<Entry>, i: nat)
    requires i < |Chunks(entries)|
    ensures |Chunks(entries)[i]|
         == if |entries| - LEAF_MAX * i < LEAF_MAX then |entries| - LEAF_MAX * i else LEAF_MAX
  {
    if |entries| > LEAF_MAX && i > 0 { ChunkSizes(entries[LEAF_MAX..], i - 1); }
  }

  lemma PairMany(nodes: seq<Node>, next: nat)
    requires Chain(nodes) && |nodes| >= 2
    ensures var pair := MakeBranch(nodes[0], nodes[1], next);
      PairLevel(nodes, next).nodes == [pair.node] + PairLevel(nodes[2..], pair.next).nodes
  {
  }

  lemma BuildOne(nodes: seq<Node>, next: nat)
    requires Chain(nodes) && |nodes| >= 2
    ensures var level := PairLevel(nodes, next);
      BuildBalanced(nodes, next) == BuildBalanced(level.nodes, level.next)
  {
  }

  /** Three leaves: (n0 n1) n2. */
  lemma BuildThree(nodes: seq<Node>, next: nat)
    requires Chain(nodes) && |nodes| == 3 && forall i :: 0 <= i < 3 ==> nodes[i].Leaf?
    ensures var r := BuildBalanced(nodes, next).node;
      r.Branch? && r.left.Branch? && r.height == 3
  {
    var level := PairLevel(nodes, next);
    PairSmall(nodes, next);
    BuildOne(nodes, next);
    PairSmall(level.nodes, level.next);
    BuildOne(level.nodes, level.next);
  }

  /** Four leaves: (n0 n1) (n2 n3). */
  lemma BuildFour(nodes: seq<Node>, next: nat)
    requires Chain(nodes) && |nodes| == 4 && forall i :: 0 <= i < 4 ==> nodes[i].Leaf?
    ensures var r := BuildBalanced(nodes, next).node;
      && r.Branch? && r.left.Branch? && r.right.Branch?
      && r.left.left == nodes[0] && r.left.right == nodes[1]
      && r.right.left == nodes[2] && r.right.right == nodes[3]
  {
    var level := PairLevel(nodes, next);
    PairSmall(nodes, next);
    BuildOne(nodes, next);
    PairSmall(level.nodes, level.next);
    BuildOne(level.nodes, level.next);
  }

  /** Five leaves: ((n0 n1) (n2 n3)) n4, with heights three and one. */
  lemma BuildFive(nodes: seq<Node>, next: nat)
    requires Chain(nodes) && |nodes| == 5 && forall i :: 0 <= i < 5 ==> nodes[i].Leaf?
    ensures var r := BuildBalanced(nodes, next).node;
      r.Branch? && r.left.Height() == 3 && r.right == nodes[4] && !Balanced(r)
  {
    var pair := MakeBranch(nodes[0], nodes[1], next);
    var level := PairLevel(nodes, next);
    PairMany(nodes, next);
    PairSmall(nodes[2..], pair.next);
    var rest := PairLevel(nodes[2..], pair.next);
    assert level.nodes[0] == pair.node && level.nodes[1] == rest.nodes[0] && level.nodes[2] == nodes[4];
    BuildOne(nodes, next);
    var top := PairLevel(level.nodes, level.next);
    PairSmall(level.nodes, level.next);
    BuildOne(level.nodes, level.next);
    PairSmall(top.nodes, top.next);
    BuildOne(top.nodes, top.next);
  }

  lemma BuiltFive(node: Node, entries: seq<Entry>)
    requires Valid(node) && BuiltFrom(node, entries) && |entries| == 257
    ensures node.Branch? && node.left.Height() == 3 && node.right.Leaf? && |node.right.entries| == 1
  {
    var nodes, next: nat :| BuiltOver(node, nodes, next) && Carry(nodes, Chunks(entries));
    ChunkCount(entries);
    ChunkSizes(entries, 4);
    BuildFive(nodes, next);
  }

  lemma BuiltThree(node: Node, entries: seq<Entry>)
    requires BuiltFrom(node, entries) && |entries| == 192
    ensures node.Branch? && node.Height() == 3
  {
    var nodes, next: nat :| BuiltOver(node, nodes, next) && Carry(nodes, Chunks(entries));
    ChunkCount(entries);
    BuildThree(nodes, next);
  }

  lemma BuiltFour(node: Node, entries: seq<Entry>)
    requires Valid(node) && BuiltFrom(node, entries) && |entries| == 256
    ensures node.Branch? && node.left.Branch? && node.right.Branch?
    ensures node.left.left.Leaf? && node.left.right.Leaf? && node.right.left.Leaf? && node.right.right.Leaf?
    ensures |node.left.left.entries| == |node.left.right.entries| == 64
    ensures |node.right.left.entries| == |node.right.right.entries| == 64
  {
    var nodes, next: nat :| BuiltOver(node, nodes, next) && Carry(nodes, Chunks(entries));
    ChunkCount(entries);
    ChunkSizes(entries, 0);
    ChunkSizes(entries, 1);
    ChunkSizes(entries, 2);
    ChunkSizes(entries, 3);
    BuildFour(nodes, next);
  }

  // ------------------------------------------------------------------ the four steps

  /** A small leaf before a pair of full ones. */
  predicate Tail(node: Node) {
    && node.Branch? && node.left.Leaf? && |node.left.entries| == 5
    && node.right.Branch?
    && node.right.left.Leaf? && |node.right.left.entries| == 64
    && node.right.right.Leaf? && |node.right.right.entries| == 64
  }

  predicate Middle(node: Node) {
    && node.Branch? && Tail(node.right)
    && node.left.Branch? && node.left.left.Height() == 3
    && node.left.right.Leaf? && |node.left.right.entries| == 1
  }

  /** The right-heavy node: a one-entry leaf next to a tree of height three. */
  predicate RightHeavy(node: Node) {
    && node.Branch? && node.right.Branch?
    && node.right.left.Leaf? && |node.right.left.entries| == 1 && Tail(node.right.right)
  }

  lemma DropFront(node: Node, next: nat)
    requires Valid(node) && BuiltFrom(node, Fresh(0, 256))
    ensures node.Len() == 256
    ensures Split(node, 123, None, next).suffix.Some? && Tail(Split(node, 123, None, next).suffix.value)
  {
    BuiltFour(node, Fresh(0, 256));
    var left, right := node.left, node.right;
    LeftCut(node, 123, None, next, 0);
    var bound := Some(right.First());
    var below := SplitRight(left, 123, 59, bound, next);
    assert below.suffix.value.Leaf? && |below.suffix.value.entries| == 5;
    Heights(right);
  }

  lemma AfterStep1(s: State)
    requires s == Initially(Fresh(0, 256), 1)
    ensures var t := Step(s, STEP1).tape;
      t.Some? && Tail(t.value) && OLen(s.tape) == 256
  {
    var node := s.tape.value;
    FromEntriesBuilt(Fresh(0, 256), 1);
    var next := s.next;
    DropFront(node, next);
    SpliceNeverRelabels(s.tape, 0, 123, None, next);
    assert SpliceAt(s.tape, 0, 123, None, next).root == Split(node, 123, None, next).suffix;
  }

  /** Inserting at the front of a tape just concatenates. */
  lemma InsertFront(s: State, entries: seq<Entry>)
    requires OValid(s.tape) && s.tape.Some? && entries != []
    ensures var replacement := FromEntries(entries, s.next);
      var cuts := Cuts(None, s.tape, s.tape, replacement.next, replacement.next);
      var fitted := Fitted(cuts, replacement.root);
      && OAdjacent(fitted.root, s.tape) && fitted.root.Some?
      && BuiltFrom(fitted.root.value, entries)
      && Step(s, Edit(0, 0, entries)).tape == Concat(fitted.root, s.tape, fitted.next).root
  {
    var replacement := FromEntries(entries, s.next);
    var cuts := SpliceCuts(s.tape, 0, 0, replacement.next);
    assert cuts == Cuts(None, s.tape, s.tape, replacement.next, replacement.next);
    FittedBuilt(entries, s.next, cuts);
    SpliceNeverRelabels(s.tape, 0, 0, replacement.root, replacement.next);
  }

  lemma TailHeights(node: Node)
    requires Valid(node) && Tail(node)
    ensures Valid(node.right) && Valid(node.right.right)
    ensures node.right.Len() == 128 && node.Len() == 133
    ensures node.right.Height() == 2 && node.Height() == 3
  {
  }

  lemma MiddleHeights(node: Node)
    requires Valid(node) && Middle(node)
    ensures node.right.Height() == 3 && node.left.Height() == 4 && node.Height() == 5
  {
    TailHeights(node.right);
    Heights(node.left.left);
  }

  lemma PrependFive(front: Node, tail: Node, next: nat)
    requires Adjacent(front, tail) && Tail(tail)
    requires front.Branch? && front.left.Height() == 3 && front.right.Leaf? && |front.right.entries| == 1
    ensures Middle(Join(front, tail, next).node)
  {
    TailHeights(tail);
    assert front.Height() == 4;
    JoinStep(front, tail, next);
  }

  lemma AfterStep2(s: State)
    requires OValid(s.tape) && s.tape.Some? && Tail(s.tape.value)
    ensures var t := Step(s, STEP2).tape;
      t.Some? && Middle(t.value)
  {
    var entries := STEP2.entries;
    InsertFront(s, entries);
    var replacement := FromEntries(entries, s.next);
    var fitted := Fitted(Cuts(None, s.tape, s.tape, replacement.next, replacement.next), replacement.root);
    FrontStep2(fitted, s.tape, entries);
  }

  lemma FrontStep2(fitted: OMade, tape: Tape, entries: seq<Entry>)
    requires OAdjacent(fitted.root, tape) && fitted.root.Some? && tape.Some? && Tail(tape.value)
    requires BuiltFrom(fitted.root.value, entries) && |entries| == 257
    ensures var t := Concat(fitted.root, tape, fitted.next).root;
      t.Some? && Middle(t.value)
  {
    BuiltFive(fitted.root.value, entries);
    PrependFive(fitted.root.value, tape.value, fitted.next);
  }

  lemma AfterStep3(s: State)
    requires OValid(s.tape) && s.tape.Some? && Middle(s.tape.value)
    ensures var t := Step(s, STEP3).tape;
      t.Some? && RightHeavy(t.value) && t.value.left.Len() == OLen(Step(s, STEP3).tape) - 134
  {
    var entries := STEP3.entries;
    InsertFront(s, entries);
    var replacement := FromEntries(entries, s.next);
    var fitted := Fitted(Cuts(None, s.tape, s.tape, replacement.next, replacement.next), replacement.root);
    FrontStep3(fitted, s.tape, entries);
    RightHeavyLen(Step(s, STEP3).tape.value);
  }

  lemma FrontStep3(fitted: OMade, tape: Tape, entries: seq<Entry>)
    requires OAdjacent(fitted.root, tape) && fitted.root.Some? && tape.Some? && Middle(tape.value)
    requires BuiltFrom(fitted.root.value, entries) && |entries| == 192
    ensures var t := Concat(fitted.root, tape, fitted.next).root;
      t.Some? && RightHeavy(t.value)
  {
    BuiltThree(fitted.root.value, entries);
    PrependRotates(fitted.root.value, tape.value, fitted.next);
  }

  lemma RightHeavyLen(node: Node)
    requires Valid(node) && RightHeavy(node)
    ensures Valid(node.right) && Valid(node.right.right)
    ensures node.Len() == node.left.Len() + 134 && node.right.Len() == 134
  {
    TailHeights(node.right.right);
  }

  lemma PrependRotates(front: Node, node: Node, next: nat)
    requires Adjacent(front, node) && front.Branch? && front.Height() == 3 && Middle(node)
    ensures RightHeavy(Join(front, node, next).node)
  {
    MiddleHeights(node);
    JoinStep(front, node, next);
    JoinStep(front, node.left, next);
    RotatesRight(front, node, Join(front, node.left, next).node, Join(front, node, next).node);
  }

  lemma RotatesRight(front: Node, node: Node, joined: Node, result: Node)
    requires front.Height() == 3 && Middle(node)
    requires node.left.Height() == 4 && node.right.Height() == 3
    requires Over(joined, front, node.left) && Rebalanced(result, joined, node.right)
    ensures RightHeavy(result)
  {
    assert joined.Height() == 5;
    assert RotatedRight(result, joined, node.right);
  }

  /** Cutting the last leaf fuses the two small leaves, 97 entries and more before the cut. */
  lemma RightHeavyIsFar(node: Node, next: nat)
    requires Valid(node) && RightHeavy(node)
    ensures FarPrefix(node, node.left.Len() + 102, None, next, LEAF_MAX)
  {
    RightHeavyLen(node);
    var right := node.right;
    var tail := right.right;
    TailCut(tail, next);
    var three := SplitRight(right, 102, 101, None, next);
    FusedFar(right.left, three.prefix.value);
    RightCutFarPrefix(right, 102, 101, None, next, LEAF_MAX, three);
    var whole := SplitRight(node, node.left.Len() + 102, 102, None, next);
    RightCutFarPrefix(node, node.left.Len() + 102, 102, None, next, LEAF_MAX, whole);
  }

  lemma PairCut(pair: Node, next: nat)
    requires Valid(pair) && pair.Branch?
    requires pair.left.Leaf? && |pair.left.entries| == 64 && pair.right.Leaf? && |pair.right.entries| == 64
    ensures var two := Split(pair, 96, None, next);
      two.prefix.Some? && two.prefix.value.Height() == 2 && two.prefix.value.Len() == 96
  {
    var leaf := SplitRight(pair, 96, 32, None, next);
    JoinStep(pair.left, leaf.prefix.value, leaf.next);
  }

  lemma TailCut(tail: Node, next: nat)
    requires Valid(tail) && Tail(tail)
    ensures var three := Split(tail, 101, None, next);
      three.prefix.Some? && three.prefix.value.Branch? && three.prefix.value.left == tail.left
      && three.prefix.value.Height() == 3 && three.prefix.value.Len() == 101
  {
    TailHeights(tail);
    PairCut(tail.right, next);
    var two := SplitRight(tail, 101, 96, None, next);
    JoinStep(tail.left, two.prefix.value, two.next);
  }

  lemma FusedFar(small: Node, piece: Node)
    requires Adjacent(small, piece) && small.Leaf? && |small.entries| == 1
    requires piece.Branch? && piece.left.Leaf? && |piece.left.entries| == 5 && piece.Height() == 3
    requires piece.Len() == 101
    ensures FusesBefore(small, piece, LEAF_MAX)
  {
    LeafEnds(piece);
    AdjacentLeft(small, piece);
  }

  // ------------------------------------------------------------------ the run

  const M1 := Fresh(0, 256)[123..]
  const M2 := STEP2.entries + M1
  const M3 := STEP3.entries + M2

  lemma FreshDistinct(first: nat, n: nat)
    ensures Distinct(Fresh(first, n))
  {
  }

  lemma Distinct2(a: seq<Entry>, b: seq<Entry>)
    requires Distinct(a) && Distinct(b)
    requires forall i, j :: 0 <= i < |a| && 0 <= j < |b| ==> a[i].id != b[j].id
    ensures Distinct(a + b)
  {
  }

  lemma ModelsDistinct()
    ensures Distinct(M1) && Distinct(M2) && Distinct(M3)
    ensures |M1| == 133 && |M2| == 390 && |M3| == 582
  {
    FreshDistinct(0, 256);
    FreshDistinct(1000, 257);
    FreshDistinct(2000, 192);
    Distinct2(STEP2.entries, M1);
    Distinct2(STEP3.entries, M2);
  }

  /** Cutting at rank zero is never far. */
  lemma FrontNotFar(tape: Tape, next: nat)
    requires OValid(tape)
    ensures !FarSplice(tape, 0, 0, next)
  {
  }

  lemma FirstStepGood(s: State)
    requires Good(s) && OLeaning(s.tape) && OEntries(s.tape) == Fresh(0, 256)
    ensures Good(Step(s, STEP1)) && OEntries(Step(s, STEP1).tape) == M1
  {
    ModelsDistinct();
    assert Model(Fresh(0, 256), STEP1) == M1;
    ShortStepGood(s, STEP1);
  }

  lemma FrontStepGood(s: State, m: seq<Entry>, entries: seq<Entry>)
    requires Good(s) && OEntries(s.tape) == m && Distinct(entries + m)
    ensures Good(Step(s, Edit(0, 0, entries)))
    ensures OEntries(Step(s, Edit(0, 0, entries)).tape) == entries + m
  {
    var e := Edit(0, 0, entries);
    assert Model(m, e) == entries + m;
    StepGoodIff(s, e);
    FrontNotFar(s.tape, FromEntries(entries, s.next).next);
  }

  lemma ReachM1() returns (s0: State, s1: State)
    ensures s0 == Initially(Fresh(0, 256), 1) && OValid(s0.tape) && s1 == Step(s0, STEP1)
    ensures Good(s1) && OEntries(s1.tape) == M1 && s1.tape.Some? && Tail(s1.tape.value)
  {
    s0 := Initially(Fresh(0, 256), 1);
    FreshDistinct(0, 256);
    InitiallyGood(Fresh(0, 256), 1);
    AfterStep1(s0);
    FirstStepGood(s0);
    s1 := Step(s0, STEP1);
  }

  lemma ReachM3(s1: State) returns (s2: State, s3: State)
    requires Good(s1) && OEntries(s1.tape) == M1 && s1.tape.Some? && Tail(s1.tape.value)
    ensures s2 == Step(s1, STEP2) && OValid(s2.tape) && s3 == Step(s2, STEP3)
    ensures Good(s3) && OEntries(s3.tape) == M3 && s3.tape.Some? && RightHeavy(s3.tape.value)
  {
    ModelsDistinct();
    FrontStepGood(s1, M1, STEP2.entries);
    AfterStep2(s1);
    s2 := Step(s1, STEP2);
    FrontStepGood(s2, M2, STEP3.entries);
    AfterStep3(s2);
    s3 := Step(s2, STEP3);
  }

  /** On a good right-heavy tape an empty splice makes the index stale. */
  lemma EmptySpliceBreaks(s: State)
    requires Good(s) && OEntries(s.tape) == M3 && s.tape.Some? && RightHeavy(s.tape.value)
    ensures OValid(Step(s, STEP4).tape) && OEntries(Step(s, STEP4).tape) == M3
    ensures !Good(Step(s, STEP4))
  {
    var node := s.tape.value;
    ModelsDistinct();
    LenIsEntries(s.tape);
    RightHeavyLen(node);
    var next := FromEntries([], s.next).next;
    RightHeavyIsFar(node, next);
    StepGoodIff(s, STEP4);
    assert Model(M3, STEP4) == M3;
    assert FarSplice(s.tape, 550, 550, next);
  }

  lemma StaleIndex(s: State)
    requires Good(s) && OEntries(s.tape) == M3
    requires OValid(Step(s, STEP4).tape) && OEntries(Step(s, STEP4).tape) == M3
    requires !Good(Step(s, STEP4))
    ensures Step(s, STEP4).index != OccurrenceIndex(Step(s, STEP4).tape)
  {
    var replacement := FromEntries([], s.next);
    LenIsEntries(s.tape);
    ModelsDistinct();
    FromEntriesDenotes([], s.next);
    FromEntriesIds([], s.next);
    IdsGrow(s.tape, s.next, replacement.next);
    SpliceIds(s.tape, 550, 550, replacement.root, replacement.next);
    RebuiltExact(Step(s, STEP4).tape);
  }

  /** The index law fails: after three public edits that keep the index exact, a splice that
      changes no entry leaves the patched index different from the rebuilt one, though all ids
      are distinct. */
  lemma EmptySpliceGoesStale() returns (s0: State, s1: State, s2: State, s3: State, s4: State)
    ensures s0 == Initially(Fresh(0, 256), 1) && OValid(s0.tape) && s1 == Step(s0, STEP1)
    ensures OValid(s1.tape) && s2 == Step(s1, STEP2) && OValid(s2.tape) && s3 == Step(s2, STEP3)
    ensures OValid(s3.tape) && s4 == Step(s3, STEP4)
    ensures s3.index == OccurrenceIndex(s3.tape) && Distinct(OEntries(s3.tape))
    ensures OEntries(s4.tape) == OEntries(s3.tape) && s4.index != OccurrenceIndex(s4.tape)
  {
    s0, s1 := ReachM1();
    s2, s3 := ReachM3(s1);
    ModelsDistinct();
    GoodLooksUp(s3);
    EmptySpliceBreaks(s3);
    StaleIndex(s3);
    s4 := Step(s3, STEP4);
  }
}
