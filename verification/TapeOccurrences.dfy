/** The occurrence index: building it, patching it around a splice, and when the patch is exact. */
module TapeOccurrences {
  import opened Wrappers
  import opened LeafOrder
  import opened TapeTree
  import opened TapeSplice
  import opened TapeIndex
  import opened TapeLocality

  // ------------------------------------------------------------------ collecting locations

  /** `collect_locations` over ranks `lo..hi`, for a subtree whose first entry has rank `base`. */
  function Collect(node: Node, base: nat, lo: nat, hi: nat): seq<(nat, Location)>
    requires Valid(node) && lo <= hi
  {
    if lo >= base + node.Len() || hi <= base then []
    else
      match node
      case Leaf(id, order, entries, _) =>
        var from := if lo < base then 0 else lo - base;
        var to := if hi - base < |entries| then hi - base else |entries|;
        seq(to - from, i requires 0 <= i < to - from =>
          (entries[from + i].id, Location(id, from + i, order)))
      case Branch(_, left, right, _, _, _, _, _) =>
        Collect(left, base, lo, hi) + Collect(right, base + left.Len(), lo, hi)
  }

  /** `locations_in_range` */
  function LocationsInRange(tape: Tape, lo: nat, hi: nat): seq<(nat, Location)>
    requires OValid(tape) && lo <= hi
  {
    if tape.None? then [] else Collect(tape.value, 0, lo, hi)
  }

  /** The pairs of ranks `lo..hi`, in order. */
  ghost predicate Lists(pairs: seq<(nat, Location)>, leaves: seq<Node>, lo: nat, hi: nat)
    requires AllLeaves(leaves) && lo <= hi <= |Flatten(leaves)|
  {
    && |pairs| == hi - lo
    && forall i :: 0 <= i < hi - lo ==> pairs[i] == PairAt(leaves, lo + i)
  }

  /** The id at a rank and where it is. */
  function PairAt(leaves: seq<Node>, rank: nat): (nat, Location)
    requires AllLeaves(leaves) && rank < |Flatten(leaves)|
  {
    (Flatten(leaves)[rank].id, LocAt(leaves, rank))
  }

  function ClampRank(rank: nat, base: nat, len: nat): (r: nat)
    ensures r <= len
  {
    if rank < base then 0 else if rank - base < len then rank - base else len
  }

  lemma ListsConcat(l: seq<(nat, Location)>, r: seq<(nat, Location)>, a: seq<Node>, b: seq<Node>, lo: nat, hi: nat)
    requires AllLeaves(a) && AllLeaves(b) && lo <= hi <= |Flatten(a)| + |Flatten(b)|
    requires Lists(l, a, ClampRank(lo, 0, |Flatten(a)|), ClampRank(hi, 0, |Flatten(a)|))
    requires Lists(r, b, ClampRank(lo, |Flatten(a)|, |Flatten(b)|), ClampRank(hi, |Flatten(a)|, |Flatten(b)|))
    ensures AllLeaves(a + b) && |Flatten(a + b)| == |Flatten(a)| + |Flatten(b)|
    ensures Lists(l + r, a + b, lo, hi)
  {
    FlattenConcat(a, b);
    forall i | 0 <= i < hi - lo ensures (l + r)[i] == PairAt(a + b, lo + i) {
      PairConcat(a, b, lo + i);
    }
  }

  lemma PairConcat(a: seq<Node>, b: seq<Node>, rank: nat)
    requires AllLeaves(a) && AllLeaves(b) && rank < |Flatten(a)| + |Flatten(b)|
    ensures AllLeaves(a + b) && |Flatten(a + b)| == |Flatten(a)| + |Flatten(b)|
    ensures PairAt(a + b, rank) == if rank < |Flatten(a)| then PairAt(a, rank) else PairAt(b, rank - |Flatten(a)|)
  {
    FlattenConcat(a, b);
    LocConcat(a, b, rank);
  }

  lemma CollectLeaf(leaf: Node, base: nat, lo: nat, hi: nat)
    requires Valid(leaf) && leaf.Leaf? && lo <= hi
    ensures Flatten([leaf]) == leaf.entries
    ensures Lists(Collect(leaf, base, lo, hi), [leaf],
                  ClampRank(lo, base, |leaf.entries|), ClampRank(hi, base, |leaf.entries|))
  {
    FlattenOne(leaf);
  }

  /** Ranks relative to a branch, seen again from each of its children. */
  lemma ClampTwice(rank: nat, base: nat, a: nat, b: nat)
    ensures ClampRank(ClampRank(rank, base, a + b), 0, a) == ClampRank(rank, base, a)
    ensures ClampRank(ClampRank(rank, base, a + b), a, b) == ClampRank(rank, base + a, b)
  {
  }

  /** Collection lists exactly the requested ranks, each with its true location. */
  lemma {:induction false} CollectLists(node: Node, base: nat, lo: nat, hi: nat)
    requires Valid(node) && lo <= hi
    ensures AllLeaves(Leaves(node)) && |Flatten(Leaves(node))| == node.Len()
    ensures Lists(Collect(node, base, lo, hi), Leaves(node),
                  ClampRank(lo, base, node.Len()), ClampRank(hi, base, node.Len()))
  {
    LeafEnds(node);
    if node.Leaf? {
      CollectLeaf(node, base, lo, hi);
    } else {
      var left, right := node.left, node.right;
      CollectLists(left, base, lo, hi);
      CollectLists(right, base + left.Len(), lo, hi);
      CollectStep(node, base, lo, hi);
    }
  }

  lemma CollectStep(node: Node, base: nat, lo: nat, hi: nat)
    requires Valid(node) && lo <= hi && node.Branch?
    requires AllLeaves(Leaves(node.left)) && |Flatten(Leaves(node.left))| == node.left.Len()
    requires AllLeaves(Leaves(node.right)) && |Flatten(Leaves(node.right))| == node.right.Len()
    requires Lists(Collect(node.left, base, lo, hi), Leaves(node.left),
                   ClampRank(lo, base, node.left.Len()), ClampRank(hi, base, node.left.Len()))
    requires Lists(Collect(node.right, base + node.left.Len(), lo, hi), Leaves(node.right),
                   ClampRank(lo, base + node.left.Len(), node.right.Len()),
                   ClampRank(hi, base + node.left.Len(), node.right.Len()))
    ensures AllLeaves(Leaves(node)) && |Flatten(Leaves(node))| == node.Len()
    ensures Lists(Collect(node, base, lo, hi), Leaves(node),
                  ClampRank(lo, base, node.Len()), ClampRank(hi, base, node.Len()))
  {
    var left, right := node.left, node.right;
    ChildLeaves(node);
    ClampTwice(lo, base, left.Len(), right.Len());
    ClampTwice(hi, base, left.Len(), right.Len());
    ListsConcat(Collect(left, base, lo, hi), Collect(right, base + left.Len(), lo, hi),
      Leaves(left), Leaves(right), ClampRank(lo, base, node.Len()), ClampRank(hi, base, node.Len()));
    CollectOutside(node, base, lo, hi);
  }

  /** Skipping a branch outside the range loses nothing. */
  lemma CollectOutside(node: Node, base: nat, lo: nat, hi: nat)
    requires Valid(node) && lo <= hi && node.Branch?
    ensures Collect(node, base, lo, hi)
         == Collect(node.left, base, lo, hi) + Collect(node.right, base + node.left.Len(), lo, hi)
  {
    if lo >= base + node.Len() || hi <= base {
      assert Collect(node.left, base, lo, hi) == [];
    }
  }

  // ------------------------------------------------------------------ the index

  predicate Distinct(entries: seq<Entry>) {
    forall i, j :: 0 <= i < j < |entries| ==> entries[i].id != entries[j].id
  }

  /** Every occurrence is indexed at its true location, and nothing else is. */
  ghost predicate Exact(index: Index, leaves: seq<Node>)
    requires AllLeaves(leaves)
  {
    && (forall r: nat :: r < |Flatten(leaves)| ==>
          Flatten(leaves)[r].id in index && index[Flatten(leaves)[r].id] == LocAt(leaves, r))
    && (forall id :: id in index ==> Holds(Flatten(leaves), id))
  }

  ghost predicate Holds(entries: seq<Entry>, id: nat) {
    exists r: nat :: r < |entries| && entries[r].id == id
  }

  function InsertAll(index: Index, pairs: seq<(nat, Location)>): Index
    decreases |pairs|
  {
    if pairs == [] then index else InsertAll(index[pairs[0].0 := pairs[0].1], pairs[1..])
  }

  function RemoveAll(index: Index, pairs: seq<(nat, Location)>): Index
    decreases |pairs|
  {
    if pairs == [] then index else RemoveAll(index - {pairs[0].0}, pairs[1..])
  }

  /** `occurrence_index` */
  function OccurrenceIndex(tape: Tape): Index
    requires OValid(tape)
  {
    InsertAll(map[], LocationsInRange(tape, 0, OLen(tape)))
  }

  ghost predicate Mentions(pairs: seq<(nat, Location)>, id: nat) {
    exists i :: 0 <= i < |pairs| && pairs[i].0 == id
  }

  ghost predicate DistinctPairs(pairs: seq<(nat, Location)>) {
    forall i, j :: 0 <= i < j < |pairs| ==> pairs[i].0 != pairs[j].0
  }

  lemma MentionsTail(pairs: seq<(nat, Location)>, id: nat)
    requires pairs != []
    ensures Mentions(pairs, id) <==> pairs[0].0 == id || Mentions(pairs[1..], id)
  {
    if Mentions(pairs[1..], id) {
      var i :| 0 <= i < |pairs[1..]| && pairs[1..][i].0 == id;
      assert pairs[i + 1].0 == id;
    }
    if Mentions(pairs, id) && pairs[0].0 != id {
      var i :| 0 <= i < |pairs| && pairs[i].0 == id;
      assert pairs[1..][i - 1].0 == id;
    }
  }

  lemma {:induction false} InsertAllGet(index: Index, pairs: seq<(nat, Location)>, id: nat)
    requires DistinctPairs(pairs)
    ensures !Mentions(pairs, id) ==>
      && (id in InsertAll(index, pairs) <==> id in index)
      && (id in index ==> InsertAll(index, pairs)[id] == index[id])
    ensures forall i :: 0 <= i < |pairs| && pairs[i].0 == id ==>
      id in InsertAll(index, pairs) && InsertAll(index, pairs)[id] == pairs[i].1
    decreases |pairs|
  {
    if pairs != [] {
      InsertAllGet(index[pairs[0].0 := pairs[0].1], pairs[1..], id);
      MentionsTail(pairs, id);
      forall i | 0 <= i < |pairs| && pairs[i].0 == id
        ensures id in InsertAll(index, pairs) && InsertAll(index, pairs)[id] == pairs[i].1
      {
        if i == 0 {
          assert !Mentions(pairs[1..], id);
        } else {
          assert pairs[1..][i - 1].0 == id;
        }
      }
    }
  }

  lemma {:induction false} RemoveAllGet(index: Index, pairs: seq<(nat, Location)>, id: nat)
    ensures id in RemoveAll(index, pairs) <==> id in index && !Mentions(pairs, id)
    ensures id in RemoveAll(index, pairs) ==> RemoveAll(index, pairs)[id] == index[id]
    decreases |pairs|
  {
    if pairs != [] {
      RemoveAllGet(index - {pairs[0].0}, pairs[1..], id);
      MentionsTail(pairs, id);
    }
  }

  lemma {:induction false} LocDistinct(leaves: seq<Node>, r: nat, s: nat)
    requires AllLeaves(leaves) && Increasing(leaves) && r < s < |Flatten(leaves)|
    ensures LocAt(leaves, r) != LocAt(leaves, s)
  {
    var n := |leaves[0].entries|;
    if r < n {
      if s >= n {
        LocOrderAfter(leaves[1..], s - n, leaves[0].order);
      }
    } else {
      LocDistinct(leaves[1..], r - n, s - n);
    }
  }

  /** Leaf labels strictly increase along the tape. */
  ghost predicate Increasing(leaves: seq<Node>)
    requires AllLeaves(leaves)
  {
    forall i, j :: 0 <= i < j < |leaves| ==> Before(leaves[i].order, leaves[j].order)
  }

  lemma {:induction false} LocOrderAfter(leaves: seq<Node>, r: nat, order: Key)
    requires AllLeaves(leaves) && r < |Flatten(leaves)|
    requires forall i :: 0 <= i < |leaves| ==> Before(order, leaves[i].order)
    ensures LocAt(leaves, r).order != order
  {
    BeforeIrreflexive(order);
    if r >= |leaves[0].entries| {
      LocOrderAfter(leaves[1..], r - |leaves[0].entries|, order);
    }
  }

  lemma {:induction false} LeavesIncreasing(node: Node)
    requires Valid(node)
    ensures AllLeaves(Leaves(node)) && Increasing(Leaves(node))
    ensures forall i :: 0 <= i < |Leaves(node)| ==>
      AtMost(node.First(), Leaves(node)[i].order) && AtMost(Leaves(node)[i].order, node.Last())
  {
    LeavesAreLeaves(node);
    if node.Branch? {
      var a, b := Leaves(node.left), Leaves(node.right);
      LeavesIncreasing(node.left);
      LeavesIncreasing(node.right);
      ChildLeaves(node);
      ValidFacts(node.left);
      ValidFacts(node.right);
      forall i, j | 0 <= i < |a| && 0 <= j < |b| ensures Before(a[i].order, b[j].order) {
        AtMostBefore(a[i].order, node.left.Last(), node.right.First());
        BeforeAtMost(a[i].order, node.right.First(), b[j].order);
      }
      assert b[0].order == node.right.First() && a[0].order == node.left.First();
    }
  }

  /** An exact index forces distinct ids, because locations are distinct. */
  lemma ExactDistinct(index: Index, leaves: seq<Node>)
    requires AllLeaves(leaves) && Increasing(leaves) && Exact(index, leaves)
    ensures Distinct(Flatten(leaves))
  {
    var e := Flatten(leaves);
    forall i, j | 0 <= i < j < |e| ensures e[i].id != e[j].id {
      LocDistinct(leaves, i, j);
    }
  }

  /** There is only one exact index. */
  lemma ExactUnique(a: Index, b: Index, leaves: seq<Node>)
    requires AllLeaves(leaves) && Exact(a, leaves) && Exact(b, leaves)
    ensures a == b
  {
    forall id | id in a ensures id in b && a[id] == b[id] {
      assert Holds(Flatten(leaves), id);
    }
    forall id | id in b ensures id in a {
      assert Holds(Flatten(leaves), id);
    }
  }

  /** Rebuilding from scratch is exact whenever ids are distinct. */
  lemma RebuiltExact(tape: Tape)
    requires OValid(tape) && Distinct(OEntries(tape))
    ensures AllLeaves(OLeaves(tape)) && Exact(OccurrenceIndex(tape), OLeaves(tape))
  {
    OLeafEnds(tape);
    if tape.Some? {
      var node := tape.value;
      LeafEnds(node);
      CollectLists(node, 0, 0, node.Len());
      var pairs := Collect(node, 0, 0, node.Len());
      var leaves := Leaves(node);
      assert Lists(pairs, leaves, 0, |Flatten(leaves)|);
      forall r: nat | r < |Flatten(leaves)|
        ensures Flatten(leaves)[r].id in InsertAll(map[], pairs)
        ensures InsertAll(map[], pairs)[Flatten(leaves)[r].id] == LocAt(leaves, r)
      {
        assert pairs[r].0 == Flatten(leaves)[r].id;
        InsertAllGet(map[], pairs, Flatten(leaves)[r].id);
      }
      forall id | id in InsertAll(map[], pairs) ensures Holds(Flatten(leaves), id) {
        InsertAllGet(map[], pairs, id);
        var i :| 0 <= i < |pairs| && pairs[i].0 == id;
        assert Flatten(leaves)[i].id == id;
      }
    }
  }

  // ------------------------------------------------------------------ patching

  function WindowStart(start: nat): nat {
    if start < LEAF_MAX then 0 else start - LEAF_MAX
  }

  function WindowEnd(end: nat, len: nat): nat {
    if end + LEAF_MAX < len then end + LEAF_MAX else len
  }

  /** `splice_with_index`: the spliced tape and the index patched within the two windows. */
  datatype Patched = Patched(tape: Tape, index: Index, next: nat)

  function SpliceWithIndex(tape: Tape, index: Index, start: nat, end: nat, replacement: Tape, next: nat): Patched
    requires OValid(tape) && OValid(replacement)
  {
    PatchAt(tape, index, ClampStart(OLen(tape), start), ClampEnd(OLen(tape), start, end), replacement, next)
  }

  function PatchAt(tape: Tape, index: Index, start: nat, end: nat, replacement: Tape, next: nat): (r: Patched)
    requires OValid(tape) && OValid(replacement) && start <= end <= OLen(tape)
    ensures r.tape == SpliceAt(tape, start, end, replacement, next).root && OValid(r.tape)
  {
    var before := LocationsInRange(tape, WindowStart(start), WindowEnd(end, OLen(tape)));
    var spliced := SpliceAt(tape, start, end, replacement, next);
    SpliceLen(tape, start, end, replacement, next);
    var after := LocationsInRange(spliced.root, WindowStart(start),
                                  WindowEnd(start + OLen(replacement), OLen(spliced.root)));
    Patched(spliced.root, InsertAll(RemoveAll(index, before), after), spliced.next)
  }

  lemma SpliceLen(tape: Tape, start: nat, end: nat, replacement: Tape, next: nat)
    requires OValid(tape) && OValid(replacement) && start <= end <= OLen(tape)
    ensures OLen(SpliceAt(tape, start, end, replacement, next).root)
         == OLen(tape) - (end - start) + OLen(replacement)
  {
    LenIsEntries(tape);
    SpliceAtDenotes(tape, start, end, replacement, next);
    LenIsEntries(replacement);
    LenIsEntries(SpliceAt(tape, start, end, replacement, next).root);
  }

  /** Two leaf lists whose sequences differ by one replaced range. */
  ghost predicate Replaced(before: seq<Node>, now: seq<Node>, start: nat, end: nat, inserted: seq<Entry>)
    requires AllLeaves(before) && AllLeaves(now)
  {
    && start <= end <= |Flatten(before)|
    && Flatten(now) == Flatten(before)[..start] + inserted + Flatten(before)[end..]
  }

  /** What a patched index says about an occurrence outside both windows: its old location. */
  lemma OutsideWindows(before: seq<Node>, now: seq<Node>, start: nat, end: nat, inserted: seq<Entry>,
                       index: Index, removed: seq<(nat, Location)>, added: seq<(nat, Location)>,
                       r: nat, r0: int)
    requires AllLeaves(before) && AllLeaves(now) && Replaced(before, now, start, end, inserted)
    requires Exact(index, before) && Distinct(Flatten(before)) && Distinct(Flatten(now))
    requires r0 == if r < WindowStart(start) then r else r - |inserted| + (end - start)
    requires var newEnd := WindowEnd(start + |inserted|, |Flatten(now)|);
      && Lists(removed, before, WindowStart(start), WindowEnd(end, |Flatten(before)|))
      && Lists(added, now, WindowStart(start), newEnd)
      && r < |Flatten(now)| && (r < WindowStart(start) || r >= newEnd)
    ensures var id := Flatten(now)[r].id;
      && 0 <= r0 < |Flatten(before)|
      && id in InsertAll(RemoveAll(index, removed), added)
      && InsertAll(RemoveAll(index, removed), added)[id] == LocAt(before, r0)
  {
    var id := Flatten(now)[r].id;
    assert Flatten(before)[r0].id == id;
    PairsDistinct(added, now, WindowStart(start), WindowEnd(start + |inserted|, |Flatten(now)|));
    NotListed(added, now, WindowStart(start), WindowEnd(start + |inserted|, |Flatten(now)|), r);
    NotListed(removed, before, WindowStart(start), WindowEnd(end, |Flatten(before)|), r0);
    RemoveAllGet(index, removed, id);
    InsertAllGet(RemoveAll(index, removed), added, id);
  }

  lemma PairsDistinct(pairs: seq<(nat, Location)>, leaves: seq<Node>, lo: nat, hi: nat)
    requires AllLeaves(leaves) && lo <= hi <= |Flatten(leaves)| && Lists(pairs, leaves, lo, hi)
    requires Distinct(Flatten(leaves))
    ensures DistinctPairs(pairs)
  {
    forall i, j | 0 <= i < j < |pairs| ensures pairs[i].0 != pairs[j].0 {
      assert Flatten(leaves)[lo + i].id != Flatten(leaves)[lo + j].id;
    }
  }

  lemma NotListed(pairs: seq<(nat, Location)>, leaves: seq<Node>, lo: nat, hi: nat, r: nat)
    requires AllLeaves(leaves) && lo <= hi <= |Flatten(leaves)| && Lists(pairs, leaves, lo, hi)
    requires Distinct(Flatten(leaves)) && r < |Flatten(leaves)| && (r < lo || r >= hi)
    ensures !Mentions(pairs, Flatten(leaves)[r].id)
  {
    forall i | 0 <= i < |pairs| ensures pairs[i].0 != Flatten(leaves)[r].id {
      assert pairs[i].0 == Flatten(leaves)[lo + i].id;
    }
  }

  lemma ListedMentioned(pairs: seq<(nat, Location)>, leaves: seq<Node>, lo: nat, hi: nat, r: nat)
    requires AllLeaves(leaves) && lo <= hi <= |Flatten(leaves)| && Lists(pairs, leaves, lo, hi)
    requires r < |Flatten(leaves)|
    ensures lo <= r < hi ==> Mentions(pairs, Flatten(leaves)[r].id)
  {
    if lo <= r < hi { assert pairs[r - lo].0 == Flatten(leaves)[r].id; }
  }

  lemma InsideWindow(before: seq<Node>, now: seq<Node>, start: nat, inserted: nat,
                     index: Index, added: seq<(nat, Location)>, r: nat)
    requires AllLeaves(before) && AllLeaves(now) && Distinct(Flatten(now))
    requires start + inserted <= |Flatten(now)|
    requires Lists(added, now, WindowStart(start), WindowEnd(start + inserted, |Flatten(now)|))
    requires WindowStart(start) <= r < WindowEnd(start + inserted, |Flatten(now)|)
    ensures Flatten(now)[r].id in InsertAll(index, added)
    ensures InsertAll(index, added)[Flatten(now)[r].id] == LocAt(now, r)
  {
    PairsDistinct(added, now, WindowStart(start), WindowEnd(start + inserted, |Flatten(now)|));
    InsertAllGet(index, added, Flatten(now)[r].id);
    assert added[r - WindowStart(start)].0 == Flatten(now)[r].id;
  }

  /** Nothing stale is left behind under an id that is no longer on the tape. */
  lemma PatchedKeys(before: seq<Node>, now: seq<Node>, start: nat, end: nat, inserted: seq<Entry>,
                    index: Index, removed: seq<(nat, Location)>, added: seq<(nat, Location)>, id: nat)
    requires AllLeaves(before) && AllLeaves(now) && Replaced(before, now, start, end, inserted)
    requires Exact(index, before) && Distinct(Flatten(now))
    requires Lists(removed, before, WindowStart(start), WindowEnd(end, |Flatten(before)|))
    requires Lists(added, now, WindowStart(start), WindowEnd(start + |inserted|, |Flatten(now)|))
    requires id in InsertAll(RemoveAll(index, removed), added)
    ensures Holds(Flatten(now), id)
  {
    var e, e' := Flatten(before), Flatten(now);
    PairsDistinct(added, now, WindowStart(start), WindowEnd(start + |inserted|, |e'|));
    InsertAllGet(RemoveAll(index, removed), added, id);
    if Mentions(added, id) {
      var i :| 0 <= i < |added| && added[i].0 == id;
      assert e'[WindowStart(start) + i].id == id;
    } else {
      RemoveAllGet(index, removed, id);
      assert Holds(e, id);
      var r: nat :| r < |e| && e[r].id == id;
      ListedMentioned(removed, before, WindowStart(start), WindowEnd(end, |e|), r);
      if r < WindowStart(start) {
        assert e'[r].id == id;
      } else {
        assert e'[r + |inserted| - (end - start)].id == id;
      }
    }
  }

  ghost predicate Unmoved(before: seq<Node>, now: seq<Node>, start: nat, end: nat)
    requires AllLeaves(before) && AllLeaves(now) && start <= end <= |Flatten(before)|
    requires start - LEAF_MAX <= |Flatten(now)| && |Flatten(before)| - end - LEAF_MAX <= |Flatten(now)|
  {
    && FrontKept(now, before, start - LEAF_MAX)
    && BackKept(now, before, |Flatten(before)| - end - LEAF_MAX)
  }

  lemma PatchedUnmoved(before: seq<Node>, now: seq<Node>, start: nat, end: nat, inserted: seq<Entry>,
                       index: Index, removed: seq<(nat, Location)>, added: seq<(nat, Location)>)
    requires AllLeaves(before) && AllLeaves(now) && Replaced(before, now, start, end, inserted)
    requires Exact(index, before) && Distinct(Flatten(before)) && Distinct(Flatten(now))
    requires Lists(removed, before, WindowStart(start), WindowEnd(end, |Flatten(before)|))
    requires Lists(added, now, WindowStart(start), WindowEnd(start + |inserted|, |Flatten(now)|))
    requires Exact(InsertAll(RemoveAll(index, removed), added), now)
    ensures Unmoved(before, now, start, end)
  {
    PatchedFront(before, now, start, end, inserted, index, removed, added);
    PatchedBack(before, now, start, end, inserted, index, removed, added);
  }

  lemma PatchedFront(before: seq<Node>, now: seq<Node>, start: nat, end: nat, inserted: seq<Entry>,
                     index: Index, removed: seq<(nat, Location)>, added: seq<(nat, Location)>)
    requires AllLeaves(before) && AllLeaves(now) && Replaced(before, now, start, end, inserted)
    requires Exact(index, before) && Distinct(Flatten(before)) && Distinct(Flatten(now))
    requires Lists(removed, before, WindowStart(start), WindowEnd(end, |Flatten(before)|))
    requires Lists(added, now, WindowStart(start), WindowEnd(start + |inserted|, |Flatten(now)|))
    requires Exact(InsertAll(RemoveAll(index, removed), added), now)
    ensures FrontKept(now, before, start - LEAF_MAX)
  {
    forall r: nat | r < start - LEAF_MAX ensures LocAt(now, r) == LocAt(before, r) {
      OutsideWindows(before, now, start, end, inserted, index, removed, added, r, r);
    }
  }

  lemma PatchedBack(before: seq<Node>, now: seq<Node>, start: nat, end: nat, inserted: seq<Entry>,
                    index: Index, removed: seq<(nat, Location)>, added: seq<(nat, Location)>)
    requires AllLeaves(before) && AllLeaves(now) && Replaced(before, now, start, end, inserted)
    requires Exact(index, before) && Distinct(Flatten(before)) && Distinct(Flatten(now))
    requires Lists(removed, before, WindowStart(start), WindowEnd(end, |Flatten(before)|))
    requires Lists(added, now, WindowStart(start), WindowEnd(start + |inserted|, |Flatten(now)|))
    requires Exact(InsertAll(RemoveAll(index, removed), added), now)
    ensures BackKept(now, before, |Flatten(before)| - end - LEAF_MAX)
  {
    forall q: nat | q < |Flatten(before)| - end - LEAF_MAX ensures LocBack(now, q) == LocBack(before, q) {
      var r, r0 := |Flatten(now)| - 1 - q, |Flatten(before)| - 1 - q;
      PatchedBackAt(before, now, start, end, inserted, index, removed, added, q, r, r0);
      FromBack(now, q, r);
      FromBack(before, q, r0);
    }
  }

  lemma FromBack(leaves: seq<Node>, q: nat, r: nat)
    requires AllLeaves(leaves) && q < |Flatten(leaves)| && r == |Flatten(leaves)| - 1 - q
    ensures LocBack(leaves, q) == LocAt(leaves, r)
  {
  }

  lemma PatchedBackAt(before: seq<Node>, now: seq<Node>, start: nat, end: nat, inserted: seq<Entry>, index: Index,
                      removed: seq<(nat, Location)>, added: seq<(nat, Location)>, q: nat, r: nat, r0: nat)
    requires AllLeaves(before) && AllLeaves(now) && Replaced(before, now, start, end, inserted)
    requires Exact(index, before) && Distinct(Flatten(before)) && Distinct(Flatten(now))
    requires Lists(removed, before, WindowStart(start), WindowEnd(end, |Flatten(before)|))
    requires Lists(added, now, WindowStart(start), WindowEnd(start + |inserted|, |Flatten(now)|))
    requires Exact(InsertAll(RemoveAll(index, removed), added), now)
    requires q < |Flatten(before)| - end - LEAF_MAX
    requires r == |Flatten(now)| - 1 - q && r0 == |Flatten(before)| - 1 - q
    ensures LocAt(now, r) == LocAt(before, r0)
  {
    OutsideWindows(before, now, start, end, inserted, index, removed, added, r, r0);
  }

  lemma UnmovedPatched(before: seq<Node>, now: seq<Node>, start: nat, end: nat, inserted: seq<Entry>,
                       index: Index, removed: seq<(nat, Location)>, added: seq<(nat, Location)>)
    requires AllLeaves(before) && AllLeaves(now) && Replaced(before, now, start, end, inserted)
    requires Exact(index, before) && Distinct(Flatten(before)) && Distinct(Flatten(now))
    requires Lists(removed, before, WindowStart(start), WindowEnd(end, |Flatten(before)|))
    requires Lists(added, now, WindowStart(start), WindowEnd(start + |inserted|, |Flatten(now)|))
    requires Unmoved(before, now, start, end)
    ensures Exact(InsertAll(RemoveAll(index, removed), added), now)
  {
    var patched := InsertAll(RemoveAll(index, removed), added);
    var e' := Flatten(now);
    forall r: nat | r < |e'| ensures e'[r].id in patched && patched[e'[r].id] == LocAt(now, r) {
      if WindowStart(start) <= r < WindowEnd(start + |inserted|, |e'|) {
        InsideWindow(before, now, start, |inserted|, RemoveAll(index, removed), added, r);
      } else {
        var r0: int := if r < WindowStart(start) then r else r - |inserted| + (end - start);
        OutsideWindows(before, now, start, end, inserted, index, removed, added, r, r0);
        if r >= WindowStart(start) {
          assert LocBack(now, |e'| - 1 - r) == LocBack(before, |e'| - 1 - r);
        }
      }
    }
    forall id | id in patched ensures Holds(e', id) {
      PatchedKeys(before, now, start, end, inserted, index, removed, added, id);
    }
  }

  /** The patch is exact iff no retained location outside the windows has moved. */
  lemma PatchExactIff(before: seq<Node>, now: seq<Node>, start: nat, end: nat, inserted: seq<Entry>,
                      index: Index, removed: seq<(nat, Location)>, added: seq<(nat, Location)>)
    requires AllLeaves(before) && AllLeaves(now) && Replaced(before, now, start, end, inserted)
    requires Exact(index, before) && Distinct(Flatten(before)) && Distinct(Flatten(now))
    requires Lists(removed, before, WindowStart(start), WindowEnd(end, |Flatten(before)|))
    requires Lists(added, now, WindowStart(start), WindowEnd(start + |inserted|, |Flatten(now)|))
    ensures Exact(InsertAll(RemoveAll(index, removed), added), now) <==> Unmoved(before, now, start, end)
  {
    if Exact(InsertAll(RemoveAll(index, removed), added), now) {
      PatchedUnmoved(before, now, start, end, inserted, index, removed, added);
    }
    if Unmoved(before, now, start, end) {
      UnmovedPatched(before, now, start, end, inserted, index, removed, added);
    }
  }
}
