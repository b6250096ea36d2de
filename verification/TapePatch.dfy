/** When `splice_with_index` keeps the index exact. */
module TapePatch {
  import opened Wrappers
  import opened LeafOrder
  import opened TapeTree
  import opened TapeSplice
  import opened TapeIndex
  import opened TapeLocality
  import opened TapeOccurrences

  // ------------------------------------------------------------------ one concat

  /** A concatenation moves nothing except inside the two facing leaves. */
  lemma ConcatEnds(left: Tape, right: Tape, next: nat)
    requires OAdjacent(left, right)
    ensures var c := OLeaves(Concat(left, right, next).root);
      var a, b := OLeaves(left), OLeaves(right);
      && AllLeaves(a) && AllLeaves(b) && AllLeaves(c)
      && |Flatten(c)| == |Flatten(a)| + |Flatten(b)|
      && FrontKept(c, a, |Flatten(a)| - LEAF_MAX)
      && BackKept(c, b, |Flatten(b)| - LEAF_MAX)
  {
    OLeafEnds(left);
    OLeafEnds(right);
    if left.Some? && right.Some? {
      LeafEnds(left.value);
      LeafEnds(right.value);
      JoinLeaves(left.value, right.value, next);
      JoinedEnds(Leaves(left.value), Leaves(right.value), Merges(left.value, right.value), next);
    }
  }

  lemma JoinedEnds(a: seq<Node>, b: seq<Node>, merges: bool, id: nat)
    requires |a| > 0 && |b| > 0 && AllLeaves(a) && AllLeaves(b) && Bounded(a) && Bounded(b)
    ensures var c := JoinedLeaves(a, b, merges, id);
      && AllLeaves(c) && |Flatten(c)| == |Flatten(a)| + |Flatten(b)|
      && FrontKept(c, a, |Flatten(a)| - LEAF_MAX)
      && BackKept(c, b, |Flatten(b)| - LEAF_MAX)
  {
    var c := JoinedLeaves(a, b, merges, id);
    JoinedLeavesFlatten(a, b, merges, id);
    forall r: nat | r < |Flatten(a)| - LEAF_MAX ensures LocAt(c, r) == LocAt(a, r) {
      JoinedLoc(a, b, merges, id, r);
    }
    forall q: nat | q < |Flatten(b)| - LEAF_MAX ensures LocBack(c, q) == LocBack(b, q) {
      JoinedLoc(a, b, merges, id, |Flatten(c)| - 1 - q);
    }
  }

  // ------------------------------------------------------------------ one splice

  predicate OFarPrefix(tape: Tape, rank: nat, next: nat, reach: nat)
    requires OValid(tape)
  {
    tape.Some? && FarPrefix(tape.value, rank, None, next, reach)
  }

  predicate OFarSuffix(tape: Tape, rank: nat, next: nat, reach: nat)
    requires OValid(tape)
  {
    tape.Some? && FarSuffix(tape.value, rank, None, next, reach)
  }

  /** How far right of the first cut the second cut and its window reach. */
  function Reach(span: nat): nat {
    LEAF_MAX + span
  }

  /** One of the two cuts of this splice fuses leaves beyond the re-indexed windows. */
  predicate FarSplice(tape: Tape, start: nat, end: nat, next: nat)
    requires OValid(tape) && start <= end
  {
    var first := SplitAt(tape, start, next);
    || OFarPrefix(tape, start, next, LEAF_MAX)
    || OFarSuffix(tape, start, next, Reach(Span(start, end)))
    || OFarSuffix(first.suffix, Span(start, end), first.next, LEAF_MAX)
  }

  /** Both cuts and the final concatenations, as facts about leaf lists. */
  lemma UnmovedFromParts(whole: seq<Node>, prefix: seq<Node>, remainder: seq<Node>, suffix: seq<Node>,
                         now: seq<Node>, start: nat, end: nat, far0: bool, far1: bool, far2: bool,
                         next: nat, middle: nat)
    requires AllLeaves(whole) && AllLeaves(prefix) && AllLeaves(remainder) && AllLeaves(suffix) && AllLeaves(now)
    requires start <= end && next <= middle && IdsBelow(whole, next)
    requires PrefixVerdict(whole, prefix, start, far0, next, LEAF_MAX)
    requires SuffixVerdict(whole, remainder, start, far1, next, Reach(Span(start, end)))
    requires SuffixVerdict(remainder, suffix, Span(start, end), far2, middle, LEAF_MAX)
    requires |Flatten(prefix)| <= |Flatten(now)| && FrontKept(now, prefix, |Flatten(prefix)| - LEAF_MAX)
    requires |Flatten(suffix)| <= |Flatten(now)| && BackKept(now, suffix, |Flatten(suffix)| - LEAF_MAX)
    ensures Unmoved(whole, now, start, end) <==> !far0 && !far1 && !far2
  {
    PrefixSide(whole, prefix, now, start, far0, next);
    SuffixSide(whole, remainder, suffix, now, start, end, far1, far2, next, middle);
  }

  lemma PrefixSide(whole: seq<Node>, prefix: seq<Node>, now: seq<Node>, start: nat, far: bool, next: nat)
    requires AllLeaves(whole) && AllLeaves(prefix) && AllLeaves(now) && IdsBelow(whole, next)
    requires PrefixVerdict(whole, prefix, start, far, next, LEAF_MAX)
    requires start <= |Flatten(now)| && FrontKept(now, prefix, start - LEAF_MAX)
    ensures FrontKept(now, whole, start - LEAF_MAX) <==> !far
  {
    if far {
      var r: nat :| r < start - LEAF_MAX && LocAt(prefix, r).leaf >= next;
      LocBelow(whole, r, next);
      assert LocAt(now, r) == LocAt(prefix, r);
    } else {
      forall r: nat | r < start - LEAF_MAX ensures LocAt(now, r) == LocAt(whole, r) {
        assert LocAt(now, r) == LocAt(prefix, r);
      }
    }
  }

  lemma SuffixSide(whole: seq<Node>, remainder: seq<Node>, suffix: seq<Node>, now: seq<Node>,
                   start: nat, end: nat, far1: bool, far2: bool, next: nat, middle: nat)
    requires AllLeaves(whole) && AllLeaves(remainder) && AllLeaves(suffix) && AllLeaves(now)
    requires start <= end && next <= middle && IdsBelow(whole, next)
    requires SuffixVerdict(whole, remainder, start, far1, next, Reach(Span(start, end)))
    requires SuffixVerdict(remainder, suffix, Span(start, end), far2, middle, LEAF_MAX)
    requires |Flatten(suffix)| <= |Flatten(now)| && BackKept(now, suffix, |Flatten(suffix)| - LEAF_MAX)
    ensures |Flatten(suffix)| == |Flatten(whole)| - end
    ensures BackKept(now, whole, |Flatten(whole)| - end - LEAF_MAX) <==> !far1 && !far2
  {
    var n := |Flatten(whole)| - end - LEAF_MAX;
    if far2 {
      var q: nat :| q < n && LocBack(suffix, q).leaf >= middle;
      SuffixMoved(whole, suffix, now, q, n, next);
    } else if far1 {
      var q: nat :| q < n && LocBack(remainder, q).leaf >= next;
      assert LocBack(suffix, q) == LocBack(remainder, q);
      SuffixMoved(whole, suffix, now, q, n, next);
    } else {
      forall q: nat | q < n ensures LocBack(now, q) == LocBack(whole, q) {
        assert LocBack(now, q) == LocBack(suffix, q);
        assert LocBack(suffix, q) == LocBack(remainder, q);
      }
    }
  }

  lemma SuffixMoved(whole: seq<Node>, suffix: seq<Node>, now: seq<Node>, q: nat, n: nat, next: nat)
    requires AllLeaves(whole) && AllLeaves(suffix) && AllLeaves(now) && IdsBelow(whole, next)
    requires q < n <= |Flatten(suffix)| && n <= |Flatten(now)| && n <= |Flatten(whole)|
    requires BackKept(now, suffix, n) && LocBack(suffix, q).leaf >= next
    ensures !BackKept(now, whole, n)
  {
    LocBelow(whole, |Flatten(whole)| - 1 - q, next);
    assert LocBack(now, q) == LocBack(suffix, q);
  }

  /** All locations but those in the outermost leaf at each seam survive in `now`. */
  ghost predicate KeepsEnds(prefix: Tape, suffix: Tape, now: seq<Node>)
    requires OValid(prefix) && OValid(suffix)
  {
    && AllLeaves(now) && AllLeaves(OLeaves(prefix)) && AllLeaves(OLeaves(suffix))
    && |Flatten(OLeaves(prefix))| <= |Flatten(now)|
    && |Flatten(OLeaves(suffix))| <= |Flatten(now)|
    && FrontKept(now, OLeaves(prefix), |Flatten(OLeaves(prefix))| - LEAF_MAX)
    && BackKept(now, OLeaves(suffix), |Flatten(OLeaves(suffix))| - LEAF_MAX)
  }

  lemma SplicedEnds(tape: Tape, start: nat, end: nat, replacement: Tape, next: nat)
    requires OValid(tape) && OValid(replacement) && start <= end <= OLen(tape)
    ensures var cuts := SpliceCuts(tape, start, end, next);
      KeepsEnds(cuts.prefix, cuts.suffix, OLeaves(SpliceAt(tape, start, end, replacement, next).root))
  {
    var cuts := SpliceCuts(tape, start, end, next);
    var fitted := Fitted(cuts, replacement);
    SpliceNeverRelabels(tape, start, end, replacement, next);
    var head := Concat(cuts.prefix, fitted.root, fitted.next);
    ConcatEnds(cuts.prefix, fitted.root, fitted.next);
    ConcatEnds(head.root, cuts.suffix, head.next);
    FrontTransitive(OLeaves(Concat(head.root, cuts.suffix, head.next).root), OLeaves(head.root),
      OLeaves(cuts.prefix));
  }

  lemma FrontTransitive(now: seq<Node>, head: seq<Node>, prefix: seq<Node>)
    requires AllLeaves(now) && AllLeaves(head) && AllLeaves(prefix)
    requires |Flatten(prefix)| <= |Flatten(head)| <= |Flatten(now)|
    requires FrontKept(now, head, |Flatten(head)| - LEAF_MAX)
    requires FrontKept(head, prefix, |Flatten(prefix)| - LEAF_MAX)
    ensures FrontKept(now, prefix, |Flatten(prefix)| - LEAF_MAX)
  {
    forall r: nat | r < |Flatten(prefix)| - LEAF_MAX ensures LocAt(now, r) == LocAt(prefix, r) {
      assert LocAt(now, r) == LocAt(head, r);
    }
  }

  lemma TapePrefixVerdict(tape: Tape, rank: nat, next: nat, reach: nat)
    requires OValid(tape) && rank <= OLen(tape) && reach >= LEAF_MAX
    ensures AllLeaves(OLeaves(tape)) && AllLeaves(OLeaves(SplitAt(tape, rank, next).prefix))
    ensures PrefixVerdict(OLeaves(tape), OLeaves(SplitAt(tape, rank, next).prefix), rank,
                          OFarPrefix(tape, rank, next, reach), next, reach)
  {
    LenIsEntries(tape);
    if tape.Some? { SplitPrefixVerdict(tape.value, rank, None, next, reach); }
  }

  lemma TapeSuffixVerdict(tape: Tape, rank: nat, next: nat, reach: nat)
    requires OValid(tape) && rank <= OLen(tape) && reach >= LEAF_MAX
    ensures AllLeaves(OLeaves(tape)) && AllLeaves(OLeaves(SplitAt(tape, rank, next).suffix))
    ensures SuffixVerdict(OLeaves(tape), OLeaves(SplitAt(tape, rank, next).suffix), rank,
                          OFarSuffix(tape, rank, next, reach), next, reach)
  {
    LenIsEntries(tape);
    if tape.Some? { SplitSuffixVerdict(tape.value, rank, None, next, reach); }
  }

  lemma PatchCuts(tape: Tape, start: nat, end: nat, span: nat, next: nat) returns (first: Cut, second: Cut)
    requires OValid(tape) && start <= end <= OLen(tape) && span == Span(start, end)
    ensures first == SplitAt(tape, start, next) && OValid(first.suffix) && first.next >= next
    ensures span <= OLen(first.suffix) && second == SplitAt(first.suffix, span, first.next)
    ensures SpliceCuts(tape, start, end, next).prefix == first.prefix
    ensures SpliceCuts(tape, start, end, next).suffix == second.suffix
  {
    first, second := TwoCuts(tape, start, end, span, next);
    LenIsEntries(tape);
    SplitAtEntries(tape, start, next);
    LenIsEntries(first.suffix);
  }

  lemma CutVerdicts(tape: Tape, start: nat, span: nat, wide: nat, next: nat, first: Cut, second: Cut)
    requires OValid(tape) && start <= OLen(tape) && wide == Reach(span)
    requires first == SplitAt(tape, start, next) && OValid(first.suffix) && span <= OLen(first.suffix)
    requires second == SplitAt(first.suffix, span, first.next)
    ensures AllLeaves(OLeaves(tape)) && AllLeaves(OLeaves(first.prefix))
    ensures AllLeaves(OLeaves(first.suffix)) && AllLeaves(OLeaves(second.suffix))
    ensures PrefixVerdict(OLeaves(tape), OLeaves(first.prefix), start,
                          OFarPrefix(tape, start, next, LEAF_MAX), next, LEAF_MAX)
    ensures SuffixVerdict(OLeaves(tape), OLeaves(first.suffix), start,
                          OFarSuffix(tape, start, next, wide), next, wide)
    ensures SuffixVerdict(OLeaves(first.suffix), OLeaves(second.suffix), span,
                          OFarSuffix(first.suffix, span, first.next, LEAF_MAX), first.next, LEAF_MAX)
  {
    TapePrefixVerdict(tape, start, next, LEAF_MAX);
    TapeSuffixVerdict(tape, start, next, wide);
    TapeSuffixVerdict(first.suffix, span, first.next, LEAF_MAX);
  }

  lemma UnmovedCore(tape: Tape, start: nat, end: nat, span: nat, next: nat, first: Cut, second: Cut, now: seq<Node>)
    requires OValid(tape) && start <= end <= OLen(tape) && span == Span(start, end)
    requires first == SplitAt(tape, start, next) && OValid(first.suffix) && span <= OLen(first.suffix)
    requires first.next >= next && second == SplitAt(first.suffix, span, first.next)
    requires AllLeaves(OLeaves(tape)) && IdsBelow(OLeaves(tape), next) && AllLeaves(now)
    requires |Flatten(OLeaves(tape))| == OLen(tape) && OLen(tape) - span <= |Flatten(now)|
    requires KeepsEnds(first.prefix, second.suffix, now)
    ensures Unmoved(OLeaves(tape), now, start, end) <==>
      && !OFarPrefix(tape, start, next, LEAF_MAX)
      && !OFarSuffix(tape, start, next, Reach(span))
      && !OFarSuffix(first.suffix, span, first.next, LEAF_MAX)
  {
    var wide := Reach(span);
    CutVerdicts(tape, start, span, wide, next, first, second);
    UnmovedFromParts(OLeaves(tape), OLeaves(first.prefix), OLeaves(first.suffix), OLeaves(second.suffix),
      now, start, end,
      OFarPrefix(tape, start, next, LEAF_MAX), OFarSuffix(tape, start, next, wide),
      OFarSuffix(first.suffix, span, first.next, LEAF_MAX), next, first.next);
  }

  /** No retained location outside the windows moves iff the splice is not far. */
  lemma UnmovedIff(tape: Tape, start: nat, end: nat, replacement: Tape, next: nat)
    requires OValid(tape) && OValid(replacement) && start <= end <= OLen(tape)
    requires AllLeaves(OLeaves(tape)) && IdsBelow(OLeaves(tape), next)
    ensures var now := OLeaves(SpliceAt(tape, start, end, replacement, next).root);
      && AllLeaves(now) && |Flatten(OLeaves(tape))| == OLen(tape)
      && |Flatten(now)| == OLen(tape) - (end - start) + OLen(replacement)
      && (Unmoved(OLeaves(tape), now, start, end) <==> !FarSplice(tape, start, end, next))
  {
    SpliceLen(tape, start, end, replacement, next);
    LeafLength(SpliceAt(tape, start, end, replacement, next).root);
    LeafLength(tape);
    SplicedEnds(tape, start, end, replacement, next);
    var span := Span(start, end);
    var first, second := PatchCuts(tape, start, end, span, next);
    UnmovedCore(tape, start, end, span, next, first, second,
      OLeaves(SpliceAt(tape, start, end, replacement, next).root));
    FarSpliceIs(tape, start, end, span, next, first);
  }

  lemma FarSpliceIs(tape: Tape, start: nat, end: nat, span: nat, next: nat, first: Cut)
    requires OValid(tape) && start <= end && span == Span(start, end)
    requires first == SplitAt(tape, start, next) && OValid(first.suffix)
    ensures FarSplice(tape, start, end, next) <==>
      || OFarPrefix(tape, start, next, LEAF_MAX)
      || OFarSuffix(tape, start, next, Reach(span))
      || OFarSuffix(first.suffix, span, first.next, LEAF_MAX)
  {
  }

  lemma LeafLength(tape: Tape)
    requires OValid(tape)
    ensures AllLeaves(OLeaves(tape)) && |Flatten(OLeaves(tape))| == OLen(tape)
    ensures Flatten(OLeaves(tape)) == OEntries(tape)
  {
    OLeafEnds(tape);
    LenIsEntries(tape);
  }

  lemma TapeIncreasing(tape: Tape)
    requires OValid(tape)
    ensures AllLeaves(OLeaves(tape)) && Increasing(OLeaves(tape))
  {
    if tape.Some? { LeavesIncreasing(tape.value); }
  }

  /** The index law, with its exact condition.  Starting from an exact index, the patched index
      is exact iff the resulting ids are distinct and neither cut fuses leaves far away. */
  lemma SpliceWithIndexExactIff(tape: Tape, index: Index, start: nat, end: nat, replacement: Tape, next: nat)
    requires OValid(tape) && OValid(replacement)
    requires AllLeaves(OLeaves(tape)) && IdsBelow(OLeaves(tape), next) && Exact(index, OLeaves(tape))
    ensures var r := SpliceWithIndex(tape, index, start, end, replacement, next);
      var from, to := ClampStart(OLen(tape), start), ClampEnd(OLen(tape), start, end);
      && OValid(r.tape) && AllLeaves(OLeaves(r.tape))
      && (Exact(r.index, OLeaves(r.tape))
          <==> Distinct(OEntries(r.tape)) && !FarSplice(tape, from, to, next))
  {
    var from, to := ClampStart(OLen(tape), start), ClampEnd(OLen(tape), start, end);
    var r := SpliceWithIndex(tape, index, start, end, replacement, next);
    LeafLength(r.tape);
    TapeIncreasing(r.tape);
    if Exact(r.index, OLeaves(r.tape)) {
      ExactDistinct(r.index, OLeaves(r.tape));
    }
    if Distinct(OEntries(r.tape)) {
      DistinctPatch(tape, index, from, to, replacement, next);
    }
  }

  lemma DistinctPatch(tape: Tape, index: Index, start: nat, end: nat, replacement: Tape, next: nat)
    requires OValid(tape) && OValid(replacement) && start <= end <= OLen(tape)
    requires AllLeaves(OLeaves(tape)) && IdsBelow(OLeaves(tape), next) && Exact(index, OLeaves(tape))
    requires Distinct(OEntries(PatchAt(tape, index, start, end, replacement, next).tape))
    ensures var r := PatchAt(tape, index, start, end, replacement, next);
      && AllLeaves(OLeaves(r.tape))
      && (Exact(r.index, OLeaves(r.tape)) <==> !FarSplice(tape, start, end, next))
  {
    var r := PatchAt(tape, index, start, end, replacement, next);
    UnmovedIff(tape, start, end, replacement, next);
    SpliceReplaces(tape, start, end, replacement, next);
    TapeIncreasing(tape);
    ExactDistinct(index, OLeaves(tape));
    RangeLists(tape, WindowStart(start), WindowEnd(end, OLen(tape)));
    SpliceLen(tape, start, end, replacement, next);
    RangeLists(r.tape, WindowStart(start), WindowEnd(start + OLen(replacement), OLen(r.tape)));
    PatchExactIff(OLeaves(tape), OLeaves(r.tape), start, end, OEntries(replacement), index,
      LocationsInRange(tape, WindowStart(start), WindowEnd(end, OLen(tape))),
      LocationsInRange(r.tape, WindowStart(start), WindowEnd(start + OLen(replacement), OLen(r.tape))));
  }

  lemma SpliceReplaces(tape: Tape, start: nat, end: nat, replacement: Tape, next: nat)
    requires OValid(tape) && OValid(replacement) && start <= end <= OLen(tape)
    ensures var now := SpliceAt(tape, start, end, replacement, next).root;
      && AllLeaves(OLeaves(tape)) && AllLeaves(OLeaves(now))
      && Replaced(OLeaves(tape), OLeaves(now), start, end, OEntries(replacement))
      && |OEntries(replacement)| == OLen(replacement)
      && Flatten(OLeaves(now)) == OEntries(now)
  {
    LeafLength(tape);
    LeafLength(SpliceAt(tape, start, end, replacement, next).root);
    LenIsEntries(replacement);
    LenIsEntries(tape);
    SpliceAtDenotes(tape, start, end, replacement, next);
  }

  lemma RangeLists(tape: Tape, lo: nat, hi: nat)
    requires OValid(tape) && lo <= hi <= OLen(tape)
    ensures AllLeaves(OLeaves(tape)) && |Flatten(OLeaves(tape))| == OLen(tape)
    ensures Lists(LocationsInRange(tape, lo, hi), OLeaves(tape), lo, hi)
  {
    if tape.Some? { CollectLists(tape.value, 0, lo, hi); }
  }

  /** In the good case the patched index is the one rebuilt from scratch. */
  lemma PatchedIsRebuilt(tape: Tape, index: Index, start: nat, end: nat, replacement: Tape, next: nat)
    requires OValid(tape) && OValid(replacement)
    requires AllLeaves(OLeaves(tape)) && IdsBelow(OLeaves(tape), next) && Exact(index, OLeaves(tape))
    requires !FarSplice(tape, ClampStart(OLen(tape), start), ClampEnd(OLen(tape), start, end), next)
    requires Distinct(OEntries(SpliceWithIndex(tape, index, start, end, replacement, next).tape))
    ensures var r := SpliceWithIndex(tape, index, start, end, replacement, next);
      OValid(r.tape) && r.index == OccurrenceIndex(r.tape)
  {
    var r := SpliceWithIndex(tape, index, start, end, replacement, next);
    SpliceWithIndexExactIff(tape, index, start, end, replacement, next);
    RebuiltExact(r.tape);
    ExactUnique(r.index, OccurrenceIndex(r.tape), OLeaves(r.tape));
  }

  // ------------------------------------------------------------------ rank_of_id

  /** `rank_of_order` */
  function RankOfOrder(node: Node, order: Key, base: nat): Option<nat>
    requires Valid(node)
  {
    match node
    case Leaf(_, own, _, _) => if own == order then Some(base) else None
    case Branch(_, left, right, _, _, _, _, _) =>
      if AtMost(order, left.Last()) then RankOfOrder(left, order, base)
      else RankOfOrder(right, order, base + left.Len())
  }

  /** `leaf_at_order` */
  function LeafAtOrder(node: Node, order: Key): (leaf: Option<Node>)
    requires Valid(node)
    ensures leaf.Some? ==> leaf.value.Leaf?
  {
    match node
    case Leaf(_, own, _, _) => if own == order then Some(node) else None
    case Branch(_, left, right, _, _, _, _, _) =>
      if AtMost(order, left.Last()) then LeafAtOrder(left, order) else LeafAtOrder(right, order)
  }

  /** `rank_of_id` */
  function RankOfId(tape: Tape, index: Index, id: nat): Option<nat>
    requires OValid(tape)
  {
    if id !in index || tape.None? then None
    else
      var location := index[id];
      var rank := RankOfOrder(tape.value, location.order, 0);
      var leaf := LeafAtOrder(tape.value, location.order);
      if rank.None? || leaf.None? then None
      else if leaf.value.id == location.leaf && location.slot < |leaf.value.entries|
      then Some(rank.value + location.slot) else None
  }

  /** Descending by label finds the leaf that holds a rank. */
  lemma {:induction false} FindOrderAt(node: Node, base: nat, r: nat)
    requires Valid(node) && AllLeaves(Leaves(node)) && r < |Flatten(Leaves(node))|
    ensures var location := LocAt(Leaves(node), r);
      var rank, leaf := RankOfOrder(node, location.order, base), LeafAtOrder(node, location.order);
      && AtMost(node.First(), location.order) && AtMost(location.order, node.Last())
      && rank.Some? && leaf.Some?
      && leaf.value.id == location.leaf && location.slot < |leaf.value.entries|
      && rank.value + location.slot == base + r
  {
    if node.Leaf? {
      FlattenOne(node);
    } else {
      var left, right := node.left, node.right;
      ChildLeaves(node);
      LeafEnds(node);
      LeafEnds(left);
      LeafEnds(right);
      LocConcat(Leaves(left), Leaves(right), r);
      if r < left.Len() {
        FindOrderAt(left, base, r);
        LeftOfRight(left, right, LocAt(Leaves(left), r).order);
      } else {
        FindOrderAt(right, base + left.Len(), r - left.Len());
        RightOfLeft(left, right, LocAt(Leaves(right), r - left.Len()).order);
      }
    }
  }

  lemma LeftOfRight(left: Node, right: Node, order: Key)
    requires Adjacent(left, right) && AtMost(order, left.Last())
    ensures AtMost(order, right.Last())
  {
    ValidFacts(right);
    AtMostBefore(order, left.Last(), right.First());
    BeforeAtMost(order, right.First(), right.Last());
  }

  lemma RightOfLeft(left: Node, right: Node, order: Key)
    requires Adjacent(left, right) && AtMost(right.First(), order)
    ensures AtMost(left.First(), order) && !AtMost(order, left.Last())
  {
    ValidFacts(left);
    BeforeAtMost(left.Last(), right.First(), order);
    AtMostBefore(left.First(), left.Last(), order);
    BeforeIrreflexive(order);
    BeforeAsymmetric(left.Last(), order);
  }

  /** With an exact index, `rank_of_id` is the inverse of reading the tape. */
  lemma RankOfIdExact(tape: Tape, index: Index, id: nat)
    requires OValid(tape) && AllLeaves(OLeaves(tape)) && Exact(index, OLeaves(tape))
    ensures AnswersId(tape, index, OEntries(tape), id)
  {
    OLeafEnds(tape);
    if tape.Some? { LeavesIncreasing(tape.value); }
    ExactDistinct(index, OLeaves(tape));
    if id in index {
      var r := PlaceOf(index, OLeaves(tape), id);
      RankOfIdFound(tape, index, id, r);
    }
  }

  lemma RankOfIdFound(tape: Tape, index: Index, id: nat, r: nat)
    requires tape.Some? && Valid(tape.value) && AllLeaves(Leaves(tape.value)) && id in index
    requires r < |Flatten(Leaves(tape.value))| && index[id] == LocAt(Leaves(tape.value), r)
    ensures RankOfId(tape, index, id) == Some(r)
  {
    FindOrderAt(tape.value, 0, r);
  }

  /** `rank_of_id` answers exactly the position of `id` among `entries`. */
  ghost predicate AnswersId(tape: Tape, index: Index, entries: seq<Entry>, id: nat)
    requires OValid(tape)
  {
    forall r: nat :: RankOfId(tape, index, id) == Some(r) <==> r < |entries| && entries[r].id == id
  }

  lemma PlaceOf(index: Index, leaves: seq<Node>, id: nat) returns (r: nat)
    requires AllLeaves(leaves) && Exact(index, leaves) && id in index
    ensures r < |Flatten(leaves)| && Flatten(leaves)[r].id == id && index[id] == LocAt(leaves, r)
  {
    assert Holds(Flatten(leaves), id);
    r :| r < |Flatten(leaves)| && Flatten(leaves)[r].id == id;
  }
}
