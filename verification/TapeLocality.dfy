/** How far from the cut a split can re-make leaves.

    Re-attaching an untouched sibling may fuse two small leaves that both lie far from the
    cut.  `FarPrefix` and `FarSuffix` say exactly when that happens. */
module TapeLocality {
  import opened Wrappers
  import opened LeafOrder
  import opened TapeTree
  import opened TapeSplice
  import opened TapeIndex

  /** Some join on the cut path fuses a leaf reaching more than `reach` entries before the cut. */
  predicate FarPrefix(node: Node, rank: nat, upper: Option<Key>, next: nat, reach: nat)
    requires Valid(node) && FitsBelow(node, upper)
  {
    if rank == 0 || rank >= node.Len() || node.Leaf? then false
    else if rank < node.left.Len() then
      LabelsValid(node.right);
      FarPrefix(node.left, rank, Some(node.right.First()), next, reach)
    else
      var below := Split(node.right, Span(node.left.Len(), rank), upper, next);
      || FarPrefix(node.right, Span(node.left.Len(), rank), upper, next, reach)
      || (below.prefix.Some? && FusesBefore(node.left, below.prefix.value, reach))
  }

  /** The fused leaf starts more than `reach` entries before the end of `piece`. */
  predicate FusesBefore(sibling: Node, piece: Node, reach: nat)
    requires Adjacent(sibling, piece)
  {
    Merges(sibling, piece) && |LastLeaf(sibling).entries| + |Entries(piece)| > reach
  }

  /** Some join on the cut path fuses a leaf reaching more than `reach` entries after the cut. */
  predicate FarSuffix(node: Node, rank: nat, upper: Option<Key>, next: nat, reach: nat)
    requires Valid(node) && FitsBelow(node, upper)
  {
    if rank == 0 || rank >= node.Len() || node.Leaf? then false
    else if rank < node.left.Len() then
      LabelsValid(node.right);
      var below := Split(node.left, rank, Some(node.right.First()), next);
      || FarSuffix(node.left, rank, Some(node.right.First()), next, reach)
      || FusesAfter(below.suffix.value, node.right, reach)
    else FarSuffix(node.right, Span(node.left.Len(), rank), upper, next, reach)
  }

  predicate FusesAfter(piece: Node, sibling: Node, reach: nat)
    requires Adjacent(piece, sibling)
  {
    Merges(piece, sibling) && |Entries(piece)| + |FirstLeaf(sibling).entries| > reach
  }

  // ------------------------------------------------------------------ leaf lists

  /** A fused leaf made at this join starts more than `reach` entries before its right end. */
  predicate FrontFar(a: seq<Node>, m: seq<Node>, merges: bool, reach: nat)
    requires |a| > 0 && AllLeaves(a) && AllLeaves(m)
  {
    merges && |a[|a| - 1].entries| + |Flatten(m)| > reach
  }

  lemma FrontJoinKept(a: seq<Node>, b: seq<Node>, m: seq<Node>, merges: bool, id: nat, reach: nat)
    requires |a| > 0 && |m| > 0 && AllLeaves(a) && AllLeaves(b) && AllLeaves(m)
    requires |Flatten(m)| <= |Flatten(b)| && !FrontFar(a, m, merges, reach)
    requires FrontKept(m, b, |Flatten(m)| - reach)
    ensures var c, n := JoinedLeaves(a, m, merges, id), |Flatten(a)| + |Flatten(m)| - reach;
      && AllLeaves(c) && AllLeaves(a + b) && n <= |Flatten(c)| && n <= |Flatten(a + b)|
      && FrontKept(c, a + b, n)
  {
    var c, n := JoinedLeaves(a, m, merges, id), |Flatten(a)| + |Flatten(m)| - reach;
    JoinedLeavesFlatten(a, m, merges, id);
    FlattenConcat(a, b);
    forall r: nat | r < n ensures LocAt(c, r) == LocAt(a + b, r) {
      JoinedLoc(a, m, merges, id, r);
      LocConcat(a, b, r);
    }
  }

  lemma FrontJoinFresh(a: seq<Node>, m: seq<Node>, merges: bool, id: nat, reach: nat, next: nat)
    requires |a| > 0 && |m| > 0 && AllLeaves(a) && AllLeaves(m)
    requires next <= id && 0 < |a[|a| - 1].entries|
    requires FrontFar(a, m, merges, reach) || FrontFresh(m, |Flatten(m)| - reach, next)
    ensures var c, n := JoinedLeaves(a, m, merges, id), |Flatten(a)| + |Flatten(m)| - reach;
      AllLeaves(c) && n <= |Flatten(c)| && FrontFresh(c, n, next)
  {
    var c, n := JoinedLeaves(a, m, merges, id), |Flatten(a)| + |Flatten(m)| - reach;
    JoinedLeavesFlatten(a, m, merges, id);
    if FrontFar(a, m, merges, reach) {
      LastLength(a);
      var r := |Flatten(a)| - |a[|a| - 1].entries|;
      JoinedLoc(a, m, merges, id, r);
      assert r < n && LocAt(c, r).leaf >= next;
    } else {
      var r: nat :| r < |Flatten(m)| - reach && LocAt(m, r).leaf >= next;
      JoinedLoc(a, m, merges, id, |Flatten(a)| + r);
      assert |Flatten(a)| + r < n && LocAt(c, |Flatten(a)| + r).leaf >= next;
    }
  }

  lemma LastLength(a: seq<Node>)
    requires |a| > 0 && AllLeaves(a)
    ensures |a[|a| - 1].entries| <= |Flatten(a)|
  {
    FlattenSplice(a[..|a| - 1], a[|a| - 1], [], a);
  }

  /** A fused leaf made at this join ends more than `reach` entries after its left end. */
  predicate BackFar(m: seq<Node>, b: seq<Node>, merges: bool, reach: nat)
    requires |b| > 0 && AllLeaves(b) && AllLeaves(m)
  {
    merges && |Flatten(m)| + |b[0].entries| > reach
  }

  lemma BackJoinKept(a: seq<Node>, b: seq<Node>, m: seq<Node>, merges: bool, id: nat, reach: nat)
    requires |b| > 0 && |m| > 0 && AllLeaves(a) && AllLeaves(b) && AllLeaves(m)
    requires |Flatten(m)| <= |Flatten(a)| && !BackFar(m, b, merges, reach)
    requires BackKept(m, a, |Flatten(m)| - reach)
    ensures var c, n := JoinedLeaves(m, b, merges, id), |Flatten(m)| + |Flatten(b)| - reach;
      && AllLeaves(c) && AllLeaves(a + b) && n <= |Flatten(c)| && n <= |Flatten(a + b)|
      && BackKept(c, a + b, n)
  {
    var c, n := JoinedLeaves(m, b, merges, id), |Flatten(m)| + |Flatten(b)| - reach;
    JoinedLeavesFlatten(m, b, merges, id);
    FlattenConcat(a, b);
    forall q: nat | q < n ensures LocBack(c, q) == LocBack(a + b, q) {
      JoinedLoc(m, b, merges, id, |Flatten(c)| - 1 - q);
      LocConcat(a, b, |Flatten(a + b)| - 1 - q);
      if q >= |Flatten(b)| {
        assert LocBack(m, q - |Flatten(b)|) == LocBack(a, q - |Flatten(b)|);
      }
    }
  }

  lemma BackJoinFresh(b: seq<Node>, m: seq<Node>, merges: bool, id: nat, reach: nat, next: nat)
    requires |b| > 0 && |m| > 0 && AllLeaves(b) && AllLeaves(m)
    requires next <= id && 0 < |b[0].entries|
    requires BackFar(m, b, merges, reach) || BackFresh(m, |Flatten(m)| - reach, next)
    ensures var c, n := JoinedLeaves(m, b, merges, id), |Flatten(m)| + |Flatten(b)| - reach;
      AllLeaves(c) && n <= |Flatten(c)| && BackFresh(c, n, next)
  {
    var c, n := JoinedLeaves(m, b, merges, id), |Flatten(m)| + |Flatten(b)| - reach;
    JoinedLeavesFlatten(m, b, merges, id);
    if BackFar(m, b, merges, reach) {
      var r := |Flatten(m)| + |b[0].entries| - 1;
      var q := |Flatten(c)| - 1 - r;
      JoinedLoc(m, b, merges, id, r);
      assert q < n && LocBack(c, q).leaf >= next;
    } else {
      var q: nat :| q < |Flatten(m)| - reach && LocBack(m, q).leaf >= next;
      var q' := q + |Flatten(b)|;
      JoinedLoc(m, b, merges, id, |Flatten(c)| - 1 - q');
      assert q' < n && LocBack(c, q').leaf >= next;
    }
  }

  // ------------------------------------------------------------------ prefix side

  /** What `far` must decide about one cut: a re-made location in front, or none. */
  ghost predicate PrefixVerdict(whole: seq<Node>, prefix: seq<Node>, rank: nat, far: bool, next: nat, reach: nat)
    requires AllLeaves(whole) && AllLeaves(prefix)
  {
    && |Flatten(prefix)| == rank <= |Flatten(whole)|
    && (far ==> FrontFresh(prefix, rank - reach, next))
    && (!far ==> FrontKept(prefix, whole, rank - reach))
  }

  lemma PrefixVerdictLeft(a: seq<Node>, b: seq<Node>, prefix: seq<Node>, rank: nat, far: bool, next: nat, reach: nat)
    requires AllLeaves(a) && AllLeaves(b) && AllLeaves(prefix)
    requires PrefixVerdict(a, prefix, rank, far, next, reach)
    ensures AllLeaves(a + b) && PrefixVerdict(a + b, prefix, rank, far, next, reach)
  {
    FlattenConcat(a, b);
    if !far {
      forall r: nat | r < rank - reach ensures LocAt(prefix, r) == LocAt(a + b, r) {
        LocConcat(a, b, r);
      }
    }
  }

  lemma PrefixVerdictRight(a: seq<Node>, b: seq<Node>, m: seq<Node>, merges: bool, id: nat, rank: nat, far: bool,
                           next: nat, reach: nat)
    requires AllLeaves(a) && AllLeaves(b) && AllLeaves(m) && |a| > 0 && |m| > 0
    requires 0 < |a[|a| - 1].entries| && next <= id
    requires PrefixVerdict(b, m, rank, far, next, reach)
    ensures AllLeaves(JoinedLeaves(a, m, merges, id)) && AllLeaves(a + b)
    ensures PrefixVerdict(a + b, JoinedLeaves(a, m, merges, id), |Flatten(a)| + rank,
                          far || FrontFar(a, m, merges, reach), next, reach)
  {
    FlattenLengths(a, b);
    JoinedLeavesFlatten(a, m, merges, id);
    if far || FrontFar(a, m, merges, reach) {
      FrontJoinFresh(a, m, merges, id, reach, next);
    } else {
      FrontJoinKept(a, b, m, merges, id, reach);
    }
  }

  lemma FlattenLengths(a: seq<Node>, b: seq<Node>)
    requires AllLeaves(a) && AllLeaves(b)
    ensures AllLeaves(a + b) && |Flatten(a + b)| == |Flatten(a)| + |Flatten(b)|
  {
    FlattenConcat(a, b);
  }

  lemma LeafEnds(node: Node)
    requires Valid(node)
    ensures AllLeaves(Leaves(node)) && Bounded(Leaves(node))
    ensures |Flatten(Leaves(node))| == |Entries(node)| == node.Len()
    ensures Flatten(Leaves(node)) == Entries(node)
    ensures LastLeaf(node) == Leaves(node)[|Leaves(node)| - 1] && FirstLeaf(node) == Leaves(node)[0]
  {
    LeavesBounded(node);
    EntriesOfLeaves(node);
  }

  lemma OLeafEnds(root: Option<Node>)
    requires OValid(root)
    ensures AllLeaves(OLeaves(root)) && Flatten(OLeaves(root)) == OEntries(root)
  {
    if root.Some? { LeafEnds(root.value); }
  }

  /** One step of a cut that goes into the left child. */
  lemma LeftCut(node: Node, rank: nat, upper: Option<Key>, next: nat, reach: nat)
    requires Valid(node) && FitsBelow(node, upper) && node.Branch? && 0 < rank < node.left.Len()
    ensures FitsBelow(node.left, Some(node.right.First()))
    ensures var below := Split(node.left, rank, Some(node.right.First()), next);
      && below.suffix.Some? && Adjacent(below.suffix.value, node.right) && below.next >= next
      && Split(node, rank, upper, next).prefix == below.prefix
      && Split(node, rank, upper, next).suffix == Some(Join(below.suffix.value, node.right, below.next).node)
    ensures FarPrefix(node, rank, upper, next, reach)
         == FarPrefix(node.left, rank, Some(node.right.First()), next, reach)
    ensures FarSuffix(node, rank, upper, next, reach)
         == (FarSuffix(node.left, rank, Some(node.right.First()), next, reach)
             || FusesAfter(Split(node.left, rank, Some(node.right.First()), next).suffix.value, node.right, reach))
  {
    LabelsValid(node.right);
  }

  /** What a cut that goes into the right child adds to the far tests. */
  lemma RightCutFarPrefix(node: Node, rank: nat, rest: nat, upper: Option<Key>, next: nat, reach: nat, below: Cut)
    requires Valid(node) && FitsBelow(node, upper) && node.Branch?
    requires rank > 0 && node.left.Len() <= rank < node.Len() && rest == Span(node.left.Len(), rank)
    requires below == Split(node.right, rest, upper, next) && OAdjacent(Some(node.left), below.prefix)
    ensures FarPrefix(node, rank, upper, next, reach)
         == (FarPrefix(node.right, rest, upper, next, reach)
             || (below.prefix.Some? && FusesBefore(node.left, below.prefix.value, reach)))
  {
  }

  lemma RightCutFarSuffix(node: Node, rank: nat, rest: nat, upper: Option<Key>, next: nat, reach: nat)
    requires Valid(node) && FitsBelow(node, upper) && node.Branch?
    requires rank > 0 && node.left.Len() <= rank < node.Len() && rest == Span(node.left.Len(), rank)
    ensures FarSuffix(node, rank, upper, next, reach) == FarSuffix(node.right, rest, upper, next, reach)
  {
  }

  lemma ChildLeaves(node: Node)
    requires node.Branch?
    ensures Leaves(node) == Leaves(node.left) + Leaves(node.right)
  {
  }

  /** The leaves of a join, together with what its far test looks at. */
  lemma JoinView(left: Node, right: Node, next: nat, reach: nat)
    requires Adjacent(left, right)
    ensures AllLeaves(Leaves(left)) && AllLeaves(Leaves(right))
    ensures Leaves(Join(left, right, next).node)
         == JoinedLeaves(Leaves(left), Leaves(right), Merges(left, right), next)
    ensures FusesBefore(left, right, reach) == FrontFar(Leaves(left), Leaves(right), Merges(left, right), reach)
    ensures FusesAfter(left, right, reach) == BackFar(Leaves(left), Leaves(right), Merges(left, right), reach)
    ensures 0 < |Leaves(left)[|Leaves(left)| - 1].entries| && 0 < |Leaves(right)[0].entries|
  {
    LeafEnds(left);
    LeafEnds(right);
    JoinLeaves(left, right, next);
  }

  /** What is lost before the cut of `node`, as a fact about the leaf lists. */
  ghost predicate PrefixOf(node: Node, cut: Cut, rank: nat, far: bool, next: nat, reach: nat) {
    && AllLeaves(Leaves(node)) && AllLeaves(OLeaves(cut.prefix))
    && PrefixVerdict(Leaves(node), OLeaves(cut.prefix), rank, far, next, reach)
  }

  /** `FarPrefix` is exact: it holds iff a location more than `reach` before the cut is re-made. */
  lemma {:induction false} SplitPrefixVerdict(node: Node, rank: nat, upper: Option<Key>, next: nat, reach: nat)
    requires Valid(node) && FitsBelow(node, upper) && reach >= LEAF_MAX && rank <= |Entries(node)|
    ensures PrefixOf(node, Split(node, rank, upper, next), rank, FarPrefix(node, rank, upper, next, reach), next, reach)
  {
    LeafEnds(node);
    if rank == 0 || rank >= node.Len() || node.Leaf? {
      PrefixVerdictAtom(node, rank, upper, next, reach);
    } else if rank < node.left.Len() {
      LeafEnds(node.left);
      LeftCut(node, rank, upper, next, reach);
      var bound := Some(node.right.First());
      SplitPrefixVerdict(node.left, rank, bound, next, reach);
      PrefixVerdictUp(node, Split(node.left, rank, bound, next), Split(node, rank, upper, next), rank,
        FarPrefix(node.left, rank, bound, next, reach), next, reach);
    } else {
      LeafEnds(node.left);
      LeafEnds(node.right);
      var rest := Span(node.left.Len(), rank);
      var below := SplitRight(node, rank, rest, upper, next);
      SplitPrefixVerdict(node.right, rest, upper, next, reach);
      PrefixVerdictStep(node, rank, rest, upper, next, reach, below);
    }
  }

  lemma PrefixVerdictAtom(node: Node, rank: nat, upper: Option<Key>, next: nat, reach: nat)
    requires Valid(node) && FitsBelow(node, upper) && reach >= LEAF_MAX && rank <= |Entries(node)|
    requires rank == 0 || rank >= node.Len() || node.Leaf?
    ensures PrefixOf(node, Split(node, rank, upper, next), rank, FarPrefix(node, rank, upper, next, reach), next, reach)
  {
    LeafEnds(node);
    if 0 < rank < node.Len() { FlattenOne(Split(node, rank, upper, next).prefix.value); }
  }

  lemma PrefixVerdictUp(node: Node, below: Cut, cut: Cut, rank: nat, far: bool, next: nat, reach: nat)
    requires Valid(node) && node.Branch? && PrefixOf(node.left, below, rank, far, next, reach)
    requires cut.prefix == below.prefix
    ensures PrefixOf(node, cut, rank, far, next, reach)
  {
    LeafEnds(node);
    LeafEnds(node.right);
    ChildLeaves(node);
    PrefixVerdictLeft(Leaves(node.left), Leaves(node.right), OLeaves(below.prefix), rank, far, next, reach);
  }

  lemma PrefixVerdictStep(node: Node, rank: nat, rest: nat, upper: Option<Key>, next: nat, reach: nat, below: Cut)
    requires Valid(node) && FitsBelow(node, upper) && node.Branch?
    requires rank > 0 && node.left.Len() <= rank < node.Len() && rest == Span(node.left.Len(), rank)
    requires below == Split(node.right, rest, upper, next) && below.next >= next
    requires OAdjacent(Some(node.left), below.prefix) && (below.prefix.None? ==> rest == 0)
    requires Split(node, rank, upper, next).prefix == Concat(Some(node.left), below.prefix, below.next).root
    requires PrefixOf(node.right, below, rest, FarPrefix(node.right, rest, upper, next, reach), next, reach)
    ensures PrefixOf(node, Split(node, rank, upper, next), rank, FarPrefix(node, rank, upper, next, reach), next, reach)
  {
    var left, right := node.left, node.right;
    LeafEnds(left);
    ChildLeaves(node);
    RightCutFarPrefix(node, rank, rest, upper, next, reach, below);
    var far := FarPrefix(right, rest, upper, next, reach);
    if below.prefix.None? {
      assert !far;
      PrefixVerdictLeft(Leaves(left), Leaves(right), Leaves(left), rank, false, next, reach);
    } else {
      var piece := below.prefix.value;
      JoinView(left, piece, below.next, reach);
      PrefixVerdictRight(Leaves(left), Leaves(right), Leaves(piece), Merges(left, piece), below.next,
        rest, far, next, reach);
    }
  }

  // ------------------------------------------------------------------ suffix side

  ghost predicate SuffixVerdict(whole: seq<Node>, suffix: seq<Node>, rank: nat, far: bool, next: nat, reach: nat)
    requires AllLeaves(whole) && AllLeaves(suffix)
  {
    && |Flatten(suffix)| + rank == |Flatten(whole)|
    && (far ==> BackFresh(suffix, |Flatten(suffix)| - reach, next))
    && (!far ==> BackKept(suffix, whole, |Flatten(suffix)| - reach))
  }

  lemma SuffixVerdictRight(a: seq<Node>, b: seq<Node>, suffix: seq<Node>, rank: nat, far: bool, next: nat, reach: nat)
    requires AllLeaves(a) && AllLeaves(b) && AllLeaves(suffix)
    requires SuffixVerdict(b, suffix, rank, far, next, reach)
    ensures AllLeaves(a + b) && SuffixVerdict(a + b, suffix, |Flatten(a)| + rank, far, next, reach)
  {
    FlattenLengths(a, b);
    if !far {
      forall q: nat | q < |Flatten(suffix)| - reach ensures LocBack(suffix, q) == LocBack(a + b, q) {
        LocBackRight(a, b, q);
      }
    }
  }

  lemma LocBackRight(a: seq<Node>, b: seq<Node>, q: nat)
    requires AllLeaves(a) && AllLeaves(b) && q < |Flatten(b)|
    ensures AllLeaves(a + b) && |Flatten(a + b)| == |Flatten(a)| + |Flatten(b)|
    ensures LocBack(a + b, q) == LocBack(b, q)
  {
    FlattenLengths(a, b);
    LocConcat(a, b, |Flatten(a + b)| - 1 - q);
  }

  lemma SuffixVerdictLeft(a: seq<Node>, b: seq<Node>, m: seq<Node>, merges: bool, id: nat, rank: nat, far: bool,
                          next: nat, reach: nat)
    requires AllLeaves(a) && AllLeaves(b) && AllLeaves(m) && |b| > 0 && |m| > 0
    requires 0 < |b[0].entries| && next <= id
    requires SuffixVerdict(a, m, rank, far, next, reach)
    ensures var c := JoinedLeaves(m, b, merges, id);
      && AllLeaves(c) && AllLeaves(a + b)
      && SuffixVerdict(a + b, c, rank, far || BackFar(m, b, merges, reach), next, reach)
  {
    FlattenConcat(a, b);
    JoinedLeavesFlatten(m, b, merges, id);
    if far || BackFar(m, b, merges, reach) {
      BackJoinFresh(b, m, merges, id, reach, next);
    } else {
      BackJoinKept(a, b, m, merges, id, reach);
    }
  }

  /** What is lost after the cut of `node`, as a fact about the leaf lists. */
  ghost predicate SuffixOf(node: Node, cut: Cut, rank: nat, far: bool, next: nat, reach: nat) {
    && AllLeaves(Leaves(node)) && AllLeaves(OLeaves(cut.suffix))
    && SuffixVerdict(Leaves(node), OLeaves(cut.suffix), rank, far, next, reach)
  }

  /** `FarSuffix` is exact: it holds iff a location more than `reach` after the cut is re-made. */
  lemma {:induction false} SplitSuffixVerdict(node: Node, rank: nat, upper: Option<Key>, next: nat, reach: nat)
    requires Valid(node) && FitsBelow(node, upper) && reach >= LEAF_MAX && rank <= |Entries(node)|
    ensures SuffixOf(node, Split(node, rank, upper, next), rank, FarSuffix(node, rank, upper, next, reach), next, reach)
  {
    LeafEnds(node);
    if rank == 0 || rank >= node.Len() || node.Leaf? {
      SuffixVerdictAtom(node, rank, upper, next, reach);
    } else if rank < node.left.Len() {
      LeafEnds(node.left);
      var below := SplitLeft(node, rank, upper, next);
      SplitSuffixVerdict(node.left, rank, Some(node.right.First()), next, reach);
      SuffixVerdictStep(node, rank, upper, next, reach, below);
    } else {
      LeafEnds(node.right);
      var rest := Span(node.left.Len(), rank);
      var below := SplitRight(node, rank, rest, upper, next);
      RightCutFarSuffix(node, rank, rest, upper, next, reach);
      SplitSuffixVerdict(node.right, rest, upper, next, reach);
      SuffixVerdictUp(node, below, Split(node, rank, upper, next), rank, rest,
        FarSuffix(node.right, rest, upper, next, reach), next, reach);
    }
  }

  lemma SuffixVerdictAtom(node: Node, rank: nat, upper: Option<Key>, next: nat, reach: nat)
    requires Valid(node) && FitsBelow(node, upper) && reach >= LEAF_MAX && rank <= |Entries(node)|
    requires rank == 0 || rank >= node.Len() || node.Leaf?
    ensures SuffixOf(node, Split(node, rank, upper, next), rank, FarSuffix(node, rank, upper, next, reach), next, reach)
  {
    LeafEnds(node);
    if 0 < rank < node.Len() { FlattenOne(Split(node, rank, upper, next).suffix.value); }
  }

  lemma SuffixVerdictUp(node: Node, below: Cut, cut: Cut, rank: nat, rest: nat, far: bool, next: nat, reach: nat)
    requires Valid(node) && node.Branch?
    requires node.left.Len() <= rank && rest == Span(node.left.Len(), rank)
    requires SuffixOf(node.right, below, rest, far, next, reach) && cut.suffix == below.suffix
    ensures SuffixOf(node, cut, rank, far, next, reach)
  {
    LeafEnds(node.left);
    ChildLeaves(node);
    SuffixVerdictRight(Leaves(node.left), Leaves(node.right), OLeaves(below.suffix), rest, far, next, reach);
  }

  lemma SuffixVerdictStep(node: Node, rank: nat, upper: Option<Key>, next: nat, reach: nat, below: Cut)
    requires Valid(node) && FitsBelow(node, upper) && node.Branch? && 0 < rank < node.left.Len()
    requires FitsBelow(node.left, Some(node.right.First()))
    requires below == Split(node.left, rank, Some(node.right.First()), next)
    requires SuffixOf(node.left, below, rank,
                      FarSuffix(node.left, rank, Some(node.right.First()), next, reach), next, reach)
    ensures SuffixOf(node, Split(node, rank, upper, next), rank, FarSuffix(node, rank, upper, next, reach), next, reach)
  {
    var left, right := node.left, node.right;
    ChildLeaves(node);
    LeftCut(node, rank, upper, next, reach);
    var piece := below.suffix.value;
    JoinView(piece, right, below.next, reach);
    SuffixVerdictLeft(Leaves(left), Leaves(right), Leaves(piece), Merges(piece, right), below.next,
      rank, FarSuffix(left, rank, Some(right.First()), next, reach), next, reach);
  }
}
