/** Leaning tapes are never cut far, and short edits keep tapes leaning: runs of edits. */
module TapeRuns {
  import opened Wrappers
  import opened LeafOrder
  import opened TapeTree
  import opened TapeBalance
  import opened TapeSplice
  import opened TapeIndex
  import opened TapeLocality
  import opened TapeOccurrences
  import opened TapePatch

  // ------------------------------------------------------------------ where merges can happen

  /** A join onto a leaning tree of at least that height merges only a single leaf. */
  lemma {:induction false} MergesLeftLeaf(left: Node, right: Node)
    requires Adjacent(left, right) && Balanced(left) && Leaning(right)
    requires left.Height() <= right.Height() + 1 && Merges(left, right)
    ensures left.Leaf?
    decreases right
  {
    Heights(left);
    Heights(right);
    if right.Height() > left.Height() + 1 {
      AdjacentLeft(left, right);
      BalancedLeaning(right.left);
      MergesLeftLeaf(left, right.left);
    }
  }

  lemma {:induction false} MergesRightLeaf(left: Node, right: Node)
    requires Adjacent(left, right) && Balanced(left) && Balanced(right)
    requires right.Height() <= left.Height() + 1 && Merges(left, right)
    ensures right.Leaf?
    decreases left
  {
    Heights(left);
    Heights(right);
    if left.Height() > right.Height() + 1 {
      MergesRightLeaf(left.right, right);
    }
  }

  /** The right spine never drops from height three or more straight to a leaf. */
  predicate Chunky(node: Node) {
    node.Height() >= 3 ==> node.Branch? && node.right.Height() >= 2 && Chunky(node.right)
  }

  lemma {:induction false} ChunkyNeverMerges(left: Node, right: Node)
    requires Adjacent(left, right) && Balanced(left) && Chunky(left)
    requires left.Height() > right.Height() + 1
    ensures !Merges(left, right)
    decreases left
  {
    Heights(left);
    Heights(right);
    Heights(left.right);
    if left.right.Height() > right.Height() + 1 {
      ChunkyNeverMerges(left.right, right);
    }
  }

  lemma {:induction false} PerfectChunky(node: Node)
    requires Valid(node) && Perfect(node)
    ensures Chunky(node)
  {
    Heights(node);
    if node.Branch? { PerfectChunky(node.right); }
  }

  /** The part of a perfect tree after a cut keeps its intact right halves. */
  lemma {:induction false} PerfectSuffixChunky(node: Node, rank: nat, upper: Option<Key>, next: nat)
    requires Valid(node) && FitsBelow(node, upper) && Perfect(node)
    requires rank < node.Len()
    ensures Split(node, rank, upper, next).suffix.Some?
    ensures Chunky(Split(node, rank, upper, next).suffix.value)
  {
    if rank == 0 {
      PerfectChunky(node);
    } else if node.Branch? {
      if rank < node.left.Len() {
        PerfectCutLeft(node, rank, upper, next);
      } else {
        var rest := Span(node.left.Len(), rank);
        var below := SplitRight(node, rank, rest, upper, next);
        PerfectSuffixChunky(node.right, rest, upper, next);
      }
    }
  }

  lemma PerfectCutLeft(node: Node, rank: nat, upper: Option<Key>, next: nat)
    requires Valid(node) && FitsBelow(node, upper) && Perfect(node)
    requires node.Branch? && 0 < rank < node.left.Len()
    ensures Split(node, rank, upper, next).suffix.Some?
    ensures Chunky(Split(node, rank, upper, next).suffix.value)
  {
    var below := SplitLeft(node, rank, upper, next);
    PerfectBalanced(node.left);
    SplitBalanced(node.left, rank, Some(node.right.First()), next);
    JoinOntoPerfectChunky(below.suffix.value, node.right, below.next);
  }

  lemma JoinOntoPerfectChunky(left: Node, right: Node, next: nat)
    requires Adjacent(left, right) && Balanced(left) && Perfect(right)
    requires left.Height() <= right.Height()
    ensures Chunky(Join(left, right, next).node)
  {
    JoinStep(left, right, next);
    Heights(right);
    PerfectChunky(right);
    if right.Branch? {
      JoinPerfectHalf(left, right, next);
      PerfectBalanced(right);
      JoinBalanced(left, right, next);
      Heights(right.right);
      PerfectChunky(right.right);
    }
  }

  // ------------------------------------------------------------------ leaning tapes are never far

  lemma SmallFusion(left: Node, right: Node, reach: nat)
    requires Adjacent(left, right) && reach >= LEAF_MAX
    ensures left.Leaf? ==> !FusesAfter(left, right, reach)
    ensures right.Leaf? ==> !FusesBefore(left, right, reach)
  {
    JoinLeaves(left, right, 0);
  }

  lemma PieceNotFar(node: Node, piece: Node, reach: nat)
    requires node.Branch? && Leaning(node) && Adjacent(piece, node.right) && Balanced(piece)
    requires piece.Height() <= node.left.Height() && reach >= LEAF_MAX
    requires Perfect(node.left) ==> Chunky(piece)
    ensures !FusesAfter(piece, node.right, reach)
  {
    SmallFusion(piece, node.right, reach);
    if Merges(piece, node.right) {
      if piece.Height() <= node.right.Height() + 1 {
        MergesLeftLeaf(piece, node.right);
      } else {
        ChunkyNeverMerges(piece, node.right);
      }
    }
  }

  lemma {:induction false} LeaningNeverFar(node: Node, rank: nat, upper: Option<Key>, next: nat, reach: nat)
    requires Valid(node) && FitsBelow(node, upper) && Leaning(node) && reach >= LEAF_MAX
    ensures !FarPrefix(node, rank, upper, next, reach)
    ensures !FarSuffix(node, rank, upper, next, reach)
  {
    if 0 < rank < node.Len() && node.Branch? {
      if rank < node.left.Len() {
        LeftCut(node, rank, upper, next, reach);
        var bound := Some(node.right.First());
        BalancedLeaning(node.left);
        LeaningNeverFar(node.left, rank, bound, next, reach);
        SplitBalanced(node.left, rank, bound, next);
        if Perfect(node.left) { PerfectSuffixChunky(node.left, rank, bound, next); }
        PieceNotFar(node, Split(node.left, rank, bound, next).suffix.value, reach);
      } else {
        var rest := Span(node.left.Len(), rank);
        var below := SplitRight(node, rank, rest, upper, next);
        LeaningNeverFar(node.right, rest, upper, next, reach);
        RightCutFarPrefix(node, rank, rest, upper, next, reach, below);
        RightCutFarSuffix(node, rank, rest, upper, next, reach);
        SplitLeaning(node.right, rest, upper, next);
        if below.prefix.Some? && Merges(node.left, below.prefix.value) {
          MergesRightLeaf(node.left, below.prefix.value);
          SmallFusion(node.left, below.prefix.value, reach);
        }
      }
    }
  }

  /** On a leaning tape, in particular on a balanced one, no splice is far. */
  lemma LeaningSpliceNotFar(tape: Tape, start: nat, end: nat, next: nat)
    requires OValid(tape) && OLeaning(tape) && start <= end <= OLen(tape)
    ensures !FarSplice(tape, start, end, next)
  {
    var span := Span(start, end);
    LeaningCutNotFar(tape, start, next, LEAF_MAX);
    LeaningCutNotFar(tape, start, next, Reach(span));
    SplitAtLeaning(tape, start, next);
    var first := SplitAt(tape, start, next);
    LeaningCutNotFar(first.suffix, span, first.next, LEAF_MAX);
    FarSpliceIs(tape, start, end, span, next, first);
  }

  lemma LeaningCutNotFar(tape: Tape, rank: nat, next: nat, reach: nat)
    requires OValid(tape) && OLeaning(tape) && reach >= LEAF_MAX
    ensures !OFarPrefix(tape, rank, next, reach) && !OFarSuffix(tape, rank, next, reach)
  {
    if tape.Some? { LeaningNeverFar(tape.value, rank, None, next, reach); }
  }

  // ------------------------------------------------------------------ shape of a spliced tape

  lemma SplitAtLeaning(tape: Tape, rank: nat, next: nat)
    requires OValid(tape) && OLeaning(tape) && rank <= OLen(tape)
    ensures OLeaning(SplitAt(tape, rank, next).suffix)
    ensures rank < OLen(tape) ==> OBalanced(SplitAt(tape, rank, next).prefix)
    ensures rank == OLen(tape) ==> SplitAt(tape, rank, next).prefix == tape || tape.None?
    ensures rank == OLen(tape) ==> SplitAt(tape, rank, next).suffix.None?
  {
    if tape.Some? {
      ValidFacts(tape.value);
      SplitLeaning(tape.value, rank, None, next);
    }
  }

  lemma ConcatLeaning(left: Tape, right: Tape, next: nat)
    requires OAdjacent(left, right) && OBalanced(left)
    ensures OLeaning(right) ==> OLeaning(Concat(left, right, next).root)
    ensures OBalanced(right) ==> OBalanced(Concat(left, right, next).root)
  {
    if left.Some? && right.Some? {
      if Leaning(right.value) { JoinLeaning(left.value, right.value, next); }
      if Balanced(right.value) { JoinBalanced(left.value, right.value, next); }
    } else if left.Some? {
      BalancedLeaning(left.value);
    }
  }

  lemma SplitAtBalanced(tape: Tape, rank: nat, next: nat)
    requires OValid(tape) && OBalanced(tape)
    ensures OBalanced(SplitAt(tape, rank, next).prefix) && OBalanced(SplitAt(tape, rank, next).suffix)
  {
    if tape.Some? {
      SplitBalanced(tape.value, if rank < tape.value.Len() then rank else tape.value.Len(), None, next);
    }
  }

  /** Splicing balanced material into a balanced tape keeps it balanced. */
  lemma SpliceBalanced(tape: Tape, start: nat, end: nat, replacement: Tape, next: nat)
    requires OValid(tape) && OValid(replacement) && start <= end <= OLen(tape)
    requires OBalanced(tape) && OBalanced(Fitted(SpliceCuts(tape, start, end, next), replacement).root)
    ensures OBalanced(SpliceAt(tape, start, end, replacement, next).root)
  {
    var cuts := SpliceCuts(tape, start, end, next);
    var fitted := Fitted(cuts, replacement);
    SpliceNeverRelabels(tape, start, end, replacement, next);
    var span := Span(start, end);
    var first, second := PatchCuts(tape, start, end, span, next);
    SplitAtBalanced(tape, start, next);
    SplitAtBalanced(first.suffix, span, first.next);
    var head := Concat(cuts.prefix, fitted.root, fitted.next);
    ConcatLeaning(cuts.prefix, fitted.root, fitted.next);
    ConcatLeaning(head.root, cuts.suffix, head.next);
  }

  lemma ConcatThreeLeaning(prefix: Tape, fitted: Tape, suffix: Tape, next: nat, head: OMade)
    requires OAdjacent(prefix, fitted) && head == Concat(prefix, fitted, next) && OAdjacent(head.root, suffix)
    requires OBalanced(fitted) && OLeaning(suffix)
    requires OBalanced(prefix) || (OLeaning(prefix) && OShort(fitted) && suffix.None?)
    ensures OLeaning(Concat(head.root, suffix, head.next).root)
  {
    if OBalanced(prefix) {
      ConcatLeaning(prefix, fitted, next);
      ConcatLeaning(head.root, suffix, head.next);
    } else {
      AppendLeaning(prefix, fitted, next);
    }
  }

  lemma CutsLeaning(tape: Tape, start: nat, end: nat, next: nat)
    requires OValid(tape) && start <= end <= OLen(tape) && OLeaning(tape)
    ensures var cuts := SpliceCuts(tape, start, end, next);
      && OLeaning(cuts.suffix)
      && (OBalanced(cuts.prefix) || (OLeaning(cuts.prefix) && cuts.suffix.None?))
  {
    var span := Span(start, end);
    var first, second := PatchCuts(tape, start, end, span, next);
    SplitAtLeaning(tape, start, next);
    SplitAtLeaning(first.suffix, span, first.next);
  }

  /** Splicing a short balanced replacement into a leaning tape keeps it leaning. */
  lemma SpliceLeaning(tape: Tape, start: nat, end: nat, replacement: Tape, next: nat)
    requires OValid(tape) && OValid(replacement) && start <= end <= OLen(tape)
    requires OLeaning(tape)
    requires var fitted := Fitted(SpliceCuts(tape, start, end, next), replacement).root;
      OBalanced(fitted) && OShort(fitted)
    ensures OLeaning(SpliceAt(tape, start, end, replacement, next).root)
  {
    var cuts := SpliceCuts(tape, start, end, next);
    var fitted := Fitted(cuts, replacement);
    SpliceNeverRelabels(tape, start, end, replacement, next);
    CutsLeaning(tape, start, end, next);
    ConcatThreeLeaning(cuts.prefix, fitted.root, cuts.suffix, fitted.next,
      Concat(cuts.prefix, fitted.root, fitted.next));
  }

  lemma AppendLeaning(left: Tape, right: Tape, next: nat)
    requires OAdjacent(left, right) && OLeaning(left) && OBalanced(right) && OShort(right)
    ensures OLeaning(Concat(left, right, next).root)
  {
    if left.Some? && right.Some? {
      JoinShortOntoLeaning(left.value, right.value, next);
    } else if right.Some? {
      BalancedLeaning(right.value);
    }
  }

  // ------------------------------------------------------------------ leaf ids stay fresh

  ghost predicate OIdsBelow(tape: Tape, next: nat) {
    AllLeaves(OLeaves(tape)) && IdsBelow(OLeaves(tape), next)
  }

  lemma ConcatIds(left: Tape, right: Tape, next: nat)
    requires OAdjacent(left, right) && OIdsBelow(left, next) && OIdsBelow(right, next)
    ensures OIdsBelow(Concat(left, right, next).root, Concat(left, right, next).next)
  {
    if left.Some? && right.Some? {
      JoinIds(left.value, right.value, next);
    }
  }

  lemma JoinIds(left: Node, right: Node, next: nat)
    requires Adjacent(left, right) && OIdsBelow(Some(left), next) && OIdsBelow(Some(right), next)
    ensures OIdsBelow(Some(Join(left, right, next).node), Join(left, right, next).next)
  {
    JoinLeaves(left, right, next);
    LeavesAreLeaves(Join(left, right, next).node);
  }

  lemma ChildIds(node: Node, next: nat)
    requires node.Branch? && OIdsBelow(Some(node), next)
    ensures OIdsBelow(Some(node.left), next) && OIdsBelow(Some(node.right), next)
  {
    var a, b := Leaves(node.left), Leaves(node.right);
    LeavesAreLeaves(node.left);
    LeavesAreLeaves(node.right);
    ChildLeaves(node);
    forall i | 0 <= i < |a| ensures a[i].id < next { assert a[i] == Leaves(node)[i]; }
    forall i | 0 <= i < |b| ensures b[i].id < next { assert b[i] == Leaves(node)[|a| + i]; }
  }

  lemma IdsGrow(tape: Tape, next: nat, more: nat)
    requires OIdsBelow(tape, next) && next <= more
    ensures OIdsBelow(tape, more)
  {
  }

  lemma {:induction false} SplitIds(node: Node, rank: nat, upper: Option<Key>, next: nat)
    requires Valid(node) && FitsBelow(node, upper) && OIdsBelow(Some(node), next)
    ensures OIdsBelow(Split(node, rank, upper, next).prefix, Split(node, rank, upper, next).next)
    ensures OIdsBelow(Split(node, rank, upper, next).suffix, Split(node, rank, upper, next).next)
  {
    if 0 < rank < node.Len() && node.Branch? {
      ChildIds(node, next);
      if rank < node.left.Len() {
        var below := SplitLeft(node, rank, upper, next);
        SplitIds(node.left, rank, Some(node.right.First()), next);
        SplitIdsLeft(node, below, next);
      } else {
        var rest := Span(node.left.Len(), rank);
        var below := SplitRight(node, rank, rest, upper, next);
        SplitIds(node.right, rest, upper, next);
        SplitIdsRight(node, below, next);
      }
    }
  }

  lemma SplitIdsLeft(node: Node, below: Cut, next: nat)
    requires node.Branch? && below.suffix.Some? && Adjacent(below.suffix.value, node.right) && below.next >= next
    requires OIdsBelow(below.prefix, below.next) && OIdsBelow(below.suffix, below.next)
    requires OIdsBelow(Some(node.right), next)
    ensures var joined := Join(below.suffix.value, node.right, below.next);
      OIdsBelow(below.prefix, joined.next) && OIdsBelow(Some(joined.node), joined.next)
  {
    IdsGrow(Some(node.right), next, below.next);
    ConcatIds(below.suffix, Some(node.right), below.next);
    IdsGrow(below.prefix, below.next, Concat(below.suffix, Some(node.right), below.next).next);
  }

  lemma SplitIdsRight(node: Node, below: Cut, next: nat)
    requires node.Branch? && OAdjacent(Some(node.left), below.prefix) && below.next >= next
    requires OIdsBelow(below.prefix, below.next) && OIdsBelow(below.suffix, below.next)
    requires OIdsBelow(Some(node.left), next)
    ensures var prefix := Concat(Some(node.left), below.prefix, below.next);
      OIdsBelow(prefix.root, prefix.next) && OIdsBelow(below.suffix, prefix.next)
  {
    IdsGrow(Some(node.left), next, below.next);
    ConcatIds(Some(node.left), below.prefix, below.next);
    IdsGrow(below.suffix, below.next, Concat(Some(node.left), below.prefix, below.next).next);
  }

  lemma SplitAtIds(tape: Tape, rank: nat, next: nat)
    requires OValid(tape) && OIdsBelow(tape, next)
    ensures var cut := SplitAt(tape, rank, next);
      OIdsBelow(cut.prefix, cut.next) && OIdsBelow(cut.suffix, cut.next)
  {
    if tape.Some? {
      SplitIds(tape.value, if rank < tape.value.Len() then rank else tape.value.Len(), None, next);
    }
  }

  lemma BuiltIds(nodes: seq<Node>, next: nat)
    requires Chain(nodes) && nodes != [] && AllLeaves(nodes) && IdsBelow(nodes, next)
    ensures OIdsBelow(Some(BuildBalanced(nodes, next).node), BuildBalanced(nodes, next).next)
  {
    BuildBalancedLeaves(nodes, next);
    LeafRunDenotes(nodes, seq(|nodes|, i requires 0 <= i < |nodes| => nodes[i].entries));
  }

  lemma FromEntriesIds(entries: seq<Entry>, next: nat)
    ensures OIdsBelow(FromEntries(entries, next).root, FromEntries(entries, next).next)
  {
    if entries != [] {
      var chunks := Chunks(entries);
      var leaves := InitialLeaves(chunks, 0, |chunks|, next);
      InitialLeavesChain(chunks, next);
      BuiltIds(leaves.nodes, leaves.next);
    }
  }

  lemma RekeyIds(tape: Tape, lower: Option<Key>, upper: Option<Key>, next: nat)
    requires OValid(tape) && Ordered(lower, upper) && OIdsBelow(tape, next)
    ensures var r := RekeyBetween(tape, lower, upper, next);
      OIdsBelow(r.root, r.next)
  {
    if !Fits(tape, lower, upper) {
      ValidFacts(tape.value);
      var chunks := Chunks(Entries(tape.value));
      var leaves := RekeyedLeaves(chunks, lower, upper, next);
      RekeyedLeavesHold(chunks, lower, upper, next);
      BuiltIds(leaves.nodes, leaves.next);
    }
  }

  lemma ConcatThreeIds(prefix: Tape, fitted: Tape, suffix: Tape, next: nat, head: OMade)
    requires OAdjacent(prefix, fitted) && head == Concat(prefix, fitted, next) && OAdjacent(head.root, suffix)
    requires OIdsBelow(prefix, next) && OIdsBelow(fitted, next) && OIdsBelow(suffix, next)
    ensures var r := Concat(head.root, suffix, head.next); OIdsBelow(r.root, r.next)
  {
    ConcatIds(prefix, fitted, next);
    IdsGrow(suffix, next, head.next);
    ConcatIds(head.root, suffix, head.next);
  }

  lemma CutsIds(tape: Tape, start: nat, end: nat, next: nat)
    requires OValid(tape) && start <= end && OIdsBelow(tape, next)
    ensures var cuts := SpliceCuts(tape, start, end, next);
      OIdsBelow(cuts.prefix, cuts.next) && OIdsBelow(cuts.suffix, cuts.next)
  {
    var first := SplitAt(tape, start, next);
    SplitAtIds(tape, start, next);
    var second := SplitAt(first.suffix, Span(start, end), first.next);
    SplitAtIds(first.suffix, Span(start, end), first.next);
    IdsGrow(first.prefix, first.next, second.next);
  }

  lemma SpliceIds(tape: Tape, start: nat, end: nat, replacement: Tape, next: nat)
    requires OValid(tape) && OValid(replacement) && start <= end <= OLen(tape)
    requires OIdsBelow(tape, next) && OIdsBelow(replacement, next)
    ensures var r := SpliceAt(tape, start, end, replacement, next);
      OIdsBelow(r.root, r.next)
  {
    var cuts := SpliceCuts(tape, start, end, next);
    CutsIds(tape, start, end, next);
    IdsGrow(replacement, next, cuts.next);
    EndsOrdered(cuts.prefix, cuts.suffix);
    RekeyIds(replacement, OLast(cuts.prefix), OFirst(cuts.suffix), cuts.next);
    SpliceNeverRelabels(tape, start, end, replacement, next);
    var fitted := Fitted(cuts, replacement);
    IdsGrow(cuts.prefix, cuts.next, fitted.next);
    IdsGrow(cuts.suffix, cuts.next, fitted.next);
    ConcatThreeIds(cuts.prefix, fitted.root, cuts.suffix, fitted.next,
      Concat(cuts.prefix, fitted.root, fitted.next));
  }

  // ------------------------------------------------------------------ runs

  /** One editing step: ranks `start..end` replaced by a tape built from `entries`. */
  datatype Edit = Edit(start: nat, end: nat, entries: seq<Entry>)

  datatype State = State(tape: Tape, index: Index, next: nat)

  function Initially(entries: seq<Entry>, next: nat): State {
    var built := FromEntries(entries, next);
    State(built.root, OccurrenceIndex(built.root), built.next)
  }

  function Step(s: State, e: Edit): State
    requires OValid(s.tape)
  {
    var replacement := FromEntries(e.entries, s.next);
    var r := SpliceWithIndex(s.tape, s.index, e.start, e.end, replacement.root, replacement.next);
    State(r.tape, r.index, r.next)
  }

  function Model(entries: seq<Entry>, e: Edit): seq<Entry> {
    entries[..ClampStart(|entries|, e.start)] + e.entries + entries[ClampEnd(|entries|, e.start, e.end)..]
  }

  function Run(s: State, edits: seq<Edit>): (r: State)
    requires OValid(s.tape)
    ensures OValid(r.tape)
  {
    if edits == [] then s
    else
      var before := Run(s, edits[..|edits| - 1]);
      Step(before, edits[|edits| - 1])
  }

  function ModelRun(entries: seq<Entry>, edits: seq<Edit>): seq<Entry> {
    if edits == [] then entries
    else Model(ModelRun(entries, edits[..|edits| - 1]), edits[|edits| - 1])
  }

  /** A well-formed state whose index is exact. */
  ghost predicate Good(s: State) {
    && OValid(s.tape) && OIdsBelow(s.tape, s.next) && Exact(s.index, OLeaves(s.tape))
  }

  lemma InitiallyGood(entries: seq<Entry>, next: nat)
    requires Distinct(entries)
    ensures Good(Initially(entries, next)) && OLeaning(Initially(entries, next).tape)
    ensures OEntries(Initially(entries, next).tape) == entries
  {
    FromEntriesDenotes(entries, next);
    FromEntriesIds(entries, next);
    RebuiltExact(FromEntries(entries, next).root);
  }

  /** One step on any good state: the sequence is the model's, and the state stays good iff the
      ids stay distinct and the splice is not far. */
  lemma StepGoodIff(s: State, e: Edit)
    requires Good(s)
    ensures var from, to := ClampStart(OLen(s.tape), e.start), ClampEnd(OLen(s.tape), e.start, e.end);
      var replacement := FromEntries(e.entries, s.next);
      && OValid(Step(s, e).tape) && OEntries(Step(s, e).tape) == Model(OEntries(s.tape), e)
      && (Good(Step(s, e)) <==>
            Distinct(Model(OEntries(s.tape), e)) && !FarSplice(s.tape, from, to, replacement.next))
  {
    var replacement := FromEntries(e.entries, s.next);
    FromEntriesDenotes(e.entries, s.next);
    FromEntriesIds(e.entries, s.next);
    IdsGrow(s.tape, s.next, replacement.next);
    SpliceWithIndexExactIff(s.tape, s.index, e.start, e.end, replacement.root, replacement.next);
    LenIsEntries(s.tape);
    SpliceDenotes(s.tape, e.start, e.end, replacement.root, replacement.next);
    SpliceIds(s.tape, ClampStart(OLen(s.tape), e.start), ClampEnd(OLen(s.tape), e.start, e.end),
      replacement.root, replacement.next);
  }

  lemma StepLeaning(s: State, e: Edit)
    requires OValid(s.tape) && OLeaning(s.tape) && |e.entries| <= 2 * LEAF_MAX
    ensures OLeaning(Step(s, e).tape)
  {
    var from, to := ClampStart(OLen(s.tape), e.start), ClampEnd(OLen(s.tape), e.start, e.end);
    var replacement := FromEntries(e.entries, s.next);
    FromEntriesDenotes(e.entries, s.next);
    var cuts := SpliceCuts(s.tape, from, to, replacement.next);
    EndsOrdered(cuts.prefix, cuts.suffix);
    RekeyDenotes(replacement.root, OLast(cuts.prefix), OFirst(cuts.suffix), cuts.next);
    SpliceLeaning(s.tape, from, to, replacement.root, replacement.next);
  }

  lemma ShortStepGood(s: State, e: Edit)
    requires Good(s) && OLeaning(s.tape) && |e.entries| <= 2 * LEAF_MAX
    requires Distinct(Model(OEntries(s.tape), e))
    ensures Good(Step(s, e)) && OLeaning(Step(s, e).tape)
    ensures OEntries(Step(s, e).tape) == Model(OEntries(s.tape), e)
  {
    StepGoodIff(s, e);
    StepLeaning(s, e);
    LeaningSpliceNotFar(s.tape, ClampStart(OLen(s.tape), e.start), ClampEnd(OLen(s.tape), e.start, e.end),
      FromEntries(e.entries, s.next).next);
  }

  lemma {:induction false} ShortRunGood(entries: seq<Entry>, next: nat, edits: seq<Edit>)
    requires forall i :: 0 <= i < |edits| ==> |edits[i].entries| <= 2 * LEAF_MAX
    requires forall n :: 0 <= n <= |edits| ==> Distinct(ModelRun(entries, edits[..n]))
    ensures Good(Run(Initially(entries, next), edits)) && OLeaning(Run(Initially(entries, next), edits).tape)
    ensures OEntries(Run(Initially(entries, next), edits).tape) == ModelRun(entries, edits)
  {
    assert edits[..|edits|] == edits;
    if edits == [] {
      InitiallyGood(entries, next);
    } else {
      var front := edits[..|edits| - 1];
      forall n | 0 <= n <= |front| ensures Distinct(ModelRun(entries, front[..n])) {
        assert front[..n] == edits[..n];
      }
      ShortRunGood(entries, next, front);
      ShortStepGood(Run(Initially(entries, next), front), edits[|edits| - 1]);
    }
  }

  /** What a good state means to its users. */
  lemma GoodLooksUp(s: State)
    requires Good(s) && Distinct(OEntries(s.tape))
    ensures s.index == OccurrenceIndex(s.tape)
    ensures forall id :: AnswersId(s.tape, s.index, OEntries(s.tape), id)
  {
    RebuiltExact(s.tape);
    ExactUnique(s.index, OccurrenceIndex(s.tape), OLeaves(s.tape));
    forall id ensures AnswersId(s.tape, s.index, OEntries(s.tape), id) {
      RankOfIdExact(s.tape, s.index, id);
    }
  }

  /** Over any run of edits that each insert at most 128 entries, from any initial tape: the
      tape denotes the model sequence, the patched index is the one rebuilt from scratch, and
      `rank_of_id` answers exactly the true positions. */
  lemma RunStaysExact(entries: seq<Entry>, next: nat, edits: seq<Edit>)
    requires forall i :: 0 <= i < |edits| ==> |edits[i].entries| <= 2 * LEAF_MAX
    requires forall n :: 0 <= n <= |edits| ==> Distinct(ModelRun(entries, edits[..n]))
    ensures var s := Run(Initially(entries, next), edits);
      && OValid(s.tape) && OEntries(s.tape) == ModelRun(entries, edits)
      && s.index == OccurrenceIndex(s.tape)
      && forall id :: AnswersId(s.tape, s.index, ModelRun(entries, edits), id)
  {
    ShortRunGood(entries, next, edits);
    assert edits[..|edits|] == edits;
    GoodLooksUp(Run(Initially(entries, next), edits));
  }

  // ------------------------------------------------------------------ runs on balanced tapes

  lemma StepBalanced(s: State, e: Edit)
    requires OValid(s.tape) && OBalanced(s.tape) && |e.entries| <= 4 * LEAF_MAX
    ensures OBalanced(Step(s, e).tape)
  {
    var from, to := ClampStart(OLen(s.tape), e.start), ClampEnd(OLen(s.tape), e.start, e.end);
    var replacement := FromEntries(e.entries, s.next);
    FromEntriesDenotes(e.entries, s.next);
    var cuts := SpliceCuts(s.tape, from, to, replacement.next);
    EndsOrdered(cuts.prefix, cuts.suffix);
    RekeyDenotes(replacement.root, OLast(cuts.prefix), OFirst(cuts.suffix), cuts.next);
    SpliceBalanced(s.tape, from, to, replacement.root, replacement.next);
  }

  lemma BalancedStepGood(s: State, e: Edit)
    requires Good(s) && OBalanced(s.tape) && |e.entries| <= 4 * LEAF_MAX
    requires Distinct(Model(OEntries(s.tape), e))
    ensures Good(Step(s, e)) && OBalanced(Step(s, e).tape)
    ensures OEntries(Step(s, e).tape) == Model(OEntries(s.tape), e)
  {
    StepGoodIff(s, e);
    StepBalanced(s, e);
    OBalancedLeaning(s.tape);
    LeaningSpliceNotFar(s.tape, ClampStart(OLen(s.tape), e.start), ClampEnd(OLen(s.tape), e.start, e.end),
      FromEntries(e.entries, s.next).next);
  }

  lemma OBalancedLeaning(tape: Tape)
    requires OBalanced(tape)
    ensures OLeaning(tape)
  {
    if tape.Some? { BalancedLeaning(tape.value); }
  }

  lemma {:induction false} BalancedRunGood(s: State, edits: seq<Edit>)
    requires Good(s) && OBalanced(s.tape)
    requires forall i :: 0 <= i < |edits| ==> |edits[i].entries| <= 4 * LEAF_MAX
    requires forall n :: 0 <= n <= |edits| ==> Distinct(ModelRun(OEntries(s.tape), edits[..n]))
    ensures Good(Run(s, edits)) && OBalanced(Run(s, edits).tape)
    ensures OEntries(Run(s, edits).tape) == ModelRun(OEntries(s.tape), edits)
    decreases |edits|
  {
    assert edits[..|edits|] == edits;
    if edits != [] {
      var front := edits[..|edits| - 1];
      forall n | 0 <= n <= |front| ensures Distinct(ModelRun(OEntries(s.tape), front[..n])) {
        assert front[..n] == edits[..n];
      }
      BalancedRunGood(s, front);
      BalancedStepGood(Run(s, front), edits[|edits| - 1]);
    }
  }

  /** From any balanced tape with an exact index, runs of edits that each insert at most 256 entries
      keep the tape balanced and the index the one rebuilt from scratch. */
  lemma BalancedRunStaysExact(s: State, edits: seq<Edit>)
    requires Good(s) && OBalanced(s.tape)
    requires forall i :: 0 <= i < |edits| ==> |edits[i].entries| <= 4 * LEAF_MAX
    requires forall n :: 0 <= n <= |edits| ==> Distinct(ModelRun(OEntries(s.tape), edits[..n]))
    ensures var r := Run(s, edits);
      && OBalanced(r.tape) && OEntries(r.tape) == ModelRun(OEntries(s.tape), edits)
      && r.index == OccurrenceIndex(r.tape)
      && forall id :: AnswersId(r.tape, r.index, ModelRun(OEntries(s.tape), edits), id)
  {
    BalancedRunGood(s, edits);
    assert edits[..|edits|] == edits;
    GoodLooksUp(Run(s, edits));
  }
}
