/** Where each rank lives, the occurrence index, and which locations joins and splits keep. */
module TapeIndex {
  import opened Wrappers
  import opened LeafOrder
  import opened TapeTree
  import opened TapeSplice

  /** `OccurrenceLocation`: leaf id, slot in the leaf, label of the leaf. */
  datatype Location = Location(leaf: nat, slot: nat, order: Key)

  type Index = map<nat, Location>

  /** The location of the entry with this rank. */
  function LocAt(leaves: seq<Node>, rank: nat): Location
    requires AllLeaves(leaves) && rank < |Flatten(leaves)|
  {
    if rank < |leaves[0].entries| then Location(leaves[0].id, rank, leaves[0].order)
    else LocAt(leaves[1..], rank - |leaves[0].entries|)
  }

  lemma {:induction false} LocConcat(a: seq<Node>, b: seq<Node>, rank: nat)
    requires AllLeaves(a) && AllLeaves(b) && rank < |Flatten(a)| + |Flatten(b)|
    ensures |Flatten(a + b)| == |Flatten(a)| + |Flatten(b)|
    ensures LocAt(a + b, rank)
         == if rank < |Flatten(a)| then LocAt(a, rank) else LocAt(b, rank - |Flatten(a)|)
  {
    FlattenConcat(a, b);
    if a == [] {
      assert a + b == b;
    } else {
      assert (a + b)[0] == a[0] && (a + b)[1..] == a[1..] + b;
      if rank >= |a[0].entries| {
        LocConcat(a[1..], b, rank - |a[0].entries|);
      }
    }
  }

  /** The location of the entry `q` places before the end. */
  function LocBack(leaves: seq<Node>, q: nat): Location
    requires AllLeaves(leaves) && q < |Flatten(leaves)|
  {
    LocAt(leaves, |Flatten(leaves)| - 1 - q)
  }

  /** The first `n` locations agree. */
  ghost predicate FrontKept(a: seq<Node>, b: seq<Node>, n: int)
    requires AllLeaves(a) && AllLeaves(b)
    requires n <= |Flatten(a)| && n <= |Flatten(b)|
  {
    forall r: nat :: r < n ==> LocAt(a, r) == LocAt(b, r)
  }

  /** The last `n` locations agree. */
  ghost predicate BackKept(a: seq<Node>, b: seq<Node>, n: int)
    requires AllLeaves(a) && AllLeaves(b)
    requires n <= |Flatten(a)| && n <= |Flatten(b)|
  {
    forall q: nat :: q < n ==> LocBack(a, q) == LocBack(b, q)
  }

  ghost predicate FrontFresh(a: seq<Node>, n: int, next: nat)
    requires AllLeaves(a) && n <= |Flatten(a)|
  {
    exists r: nat :: r < n && LocAt(a, r).leaf >= next
  }

  ghost predicate BackFresh(a: seq<Node>, n: int, next: nat)
    requires AllLeaves(a) && n <= |Flatten(a)|
  {
    exists q: nat :: q < n && LocBack(a, q).leaf >= next
  }

  predicate IdsBelow(leaves: seq<Node>, next: nat)
    requires AllLeaves(leaves)
  {
    forall i :: 0 <= i < |leaves| ==> leaves[i].id < next
  }

  lemma {:induction false} LocBelow(leaves: seq<Node>, rank: nat, next: nat)
    requires AllLeaves(leaves) && IdsBelow(leaves, next) && rank < |Flatten(leaves)|
    ensures LocAt(leaves, rank).leaf < next
  {
    if rank >= |leaves[0].entries| {
      LocBelow(leaves[1..], rank - |leaves[0].entries|, next);
    }
  }

  // ------------------------------------------------------------------ joins

  /** Bounded, non-empty leaves. */
  predicate Bounded(leaves: seq<Node>)
    requires AllLeaves(leaves)
  {
    forall i :: 0 <= i < |leaves| ==> 0 < |leaves[i].entries| <= LEAF_MAX
  }

  lemma LeavesBounded(node: Node)
    requires Valid(node)
    ensures AllLeaves(Leaves(node)) && Bounded(Leaves(node))
    ensures |Flatten(Leaves(node))| == |Entries(node)| == node.Len()
  {
    LeavesAreLeaves(node);
    EntriesOfLeaves(node);
    ValidFacts(node);
    if node.Branch? {
      LeavesBounded(node.left);
      LeavesBounded(node.right);
    }
  }

  /** Locations after a join: everything keeps its place except the fused leaf. */
  lemma JoinedLoc(a: seq<Node>, b: seq<Node>, merges: bool, id: nat, rank: nat)
    requires |a| > 0 && |b| > 0 && AllLeaves(a) && AllLeaves(b)
    requires rank < |Flatten(a)| + |Flatten(b)|
    ensures var c := JoinedLeaves(a, b, merges, id);
      var x, y := |a[|a| - 1].entries|, |b[0].entries|;
      && AllLeaves(c) && |Flatten(c)| == |Flatten(a)| + |Flatten(b)|
      && x <= |Flatten(a)| && y <= |Flatten(b)|
      && LocAt(c, rank) == (
           if merges && |Flatten(a)| - x <= rank < |Flatten(a)| + y
           then Location(id, rank - (|Flatten(a)| - x), a[|a| - 1].order)
           else if rank < |Flatten(a)| then LocAt(a, rank)
           else LocAt(b, rank - |Flatten(a)|))
  {
    JoinedLeavesFlatten(a, b, merges, id);
    var front, back := a[..|a| - 1], b[1..];
    var last, first := a[|a| - 1], b[0];
    assert a == front + [last] && b == [first] + back;
    FlattenConcat(front, [last]);
    FlattenConcat([first], back);
    FlattenOne(last);
    FlattenOne(first);
    if merges {
      FusedLoc(front, last, first, back, id, rank);
    } else {
      LocConcat(a, b, rank);
    }
  }

  lemma FusedLoc(front: seq<Node>, last: Node, first: Node, back: seq<Node>, id: nat, rank: nat)
    requires AllLeaves(front) && AllLeaves(back) && last.Leaf? && first.Leaf?
    requires rank < |Flatten(front)| + |last.entries| + |first.entries| + |Flatten(back)|
    ensures var f, x, y := |Flatten(front)|, |last.entries|, |first.entries|;
      var c := front + [Fused(last, first, id)] + back;
      && |Flatten(front + [last])| == f + x && |Flatten([first] + back)| == y + |Flatten(back)|
      && AllLeaves(c) && |Flatten(c)| == f + x + y + |Flatten(back)|
      && LocAt(c, rank) == (
           if f <= rank < f + x + y then Location(id, rank - f, last.order)
           else if rank < f + x then LocAt(front + [last], rank)
           else LocAt([first] + back, rank - f - x))
  {
    var fused := Fused(last, first, id);
    FlattenOne(last);
    FlattenOne(first);
    FlattenOne(fused);
    FlattenConcat(front, [last]);
    FlattenConcat([first], back);
    FlattenConcat(front, [fused]);
    FlattenConcat(front + [fused], back);
    var f, x, y := |Flatten(front)|, |last.entries|, |first.entries|;
    LocConcat(front + [fused], back, rank);
    if rank < f + x + y {
      LocConcat(front, [fused], rank);
    }
    if rank < f {
      LocConcat(front, [last], rank);
    } else if rank >= f + x + y {
      LocConcat([first], back, rank - f - x);
    }
  }
}
