/** Ordered trees kept as order and link facts behind a pending-over-committed overlay. */
module FactTrees {
  import opened Wrappers

  type NodeId = int
  type Domain = int

  datatype TreeKey =
    | Payload(node: NodeId)
    | Parent(node: NodeId)
    | ChildOrder(node: NodeId)
    | ChildLink(node: NodeId, child: NodeId)
    | RootOrder(key: Domain)
    | RootLink(key: Domain, root: NodeId)

  datatype TreeFact =
    | PayloadFact(data: int)
    | ParentFact(parent: Option<NodeId>)
    | Order(order: seq<NodeId>)
    | Link(target: NodeId)
    | Roots(order: seq<NodeId>)
    | RootAt(target: NodeId)

  type Facts = map<TreeKey, TreeFact>
  type Overlay = map<TreeKey, Option<TreeFact>>

  /** `Pending::read` */
  function Lookup(committed: Facts, pending: Overlay, k: TreeKey): Option<TreeFact> {
    if k in pending then pending[k]
    else if k in committed then Some(committed[k])
    else None
  }

  function OrderOf(fact: Option<TreeFact>): seq<NodeId> {
    if fact.Some? && fact.value.Order? then fact.value.order else []
  }

  function RootsOf(fact: Option<TreeFact>): seq<NodeId> {
    if fact.Some? && fact.value.Roots? then fact.value.order else []
  }

  function LinkFact(order: seq<NodeId>, child: NodeId): Option<TreeFact> {
    if child in order then Some(Link(child)) else None
  }

  function RootFact(order: seq<NodeId>, root: NodeId): Option<TreeFact> {
    if root in order then Some(RootAt(root)) else None
  }

  /** The order fact of `node` is `order` and the link facts are exactly its members. */
  ghost predicate ChildrenAre(committed: Facts, pending: Overlay, node: NodeId, order: seq<NodeId>) {
    && OrderOf(Lookup(committed, pending, ChildOrder(node))) == order
    && forall c :: Lookup(committed, pending, ChildLink(node, c)) == LinkFact(order, c)
  }

  ghost predicate RootsAre(committed: Facts, pending: Overlay, key: Domain, order: seq<NodeId>) {
    && RootsOf(Lookup(committed, pending, RootOrder(key))) == order
    && forall r :: Lookup(committed, pending, RootLink(key, r)) == RootFact(order, r)
  }

  predicate OfNode(k: TreeKey, node: NodeId) {
    (k.ChildOrder? || k.ChildLink?) && k.node == node
  }

  predicate OfRoots(k: TreeKey, key: Domain) {
    (k.RootOrder? || k.RootLink?) && k.key == key
  }

  /** Only the order and link facts of `node` may differ. */
  ghost predicate OnlyNode(committed: Facts, before: Overlay, now: Overlay, node: NodeId) {
    forall k :: !OfNode(k, node) ==> Lookup(committed, now, k) == Lookup(committed, before, k)
  }

  ghost predicate OnlyRoots(committed: Facts, before: Overlay, now: Overlay, key: Domain) {
    forall k :: !OfRoots(k, key) ==> Lookup(committed, now, k) == Lookup(committed, before, k)
  }

  ghost predicate Distinct(order: seq<NodeId>) {
    forall i, j :: 0 <= i < j < |order| ==> order[i] != order[j]
  }

  // ------------------------------------------------------------------ one splice of an order

  /** `position`: the first index of `node`. */
  function Position(order: seq<NodeId>, node: NodeId): (r: Option<nat>)
    ensures r.Some? ==> r.value < |order| && order[r.value] == node && node !in order[..r.value]
    ensures r.None? ==> node !in order
  {
    if order == [] then None
    else if order[0] == node then Some(0)
    else
      var rest := Position(order[1..], node);
      assert order == [order[0]] + order[1..];
      if rest.None? then None
      else
        assert order[..rest.value + 1] == [order[0]] + order[1..][..rest.value];
        Some(rest.value + 1)
  }

  /** `Rejected` is the reported error.  `Aborted`: building the message of the mismatch error
      slices `old[start..end]`, which stops the program when the anchors are out of order. */
  datatype Outcome = Done(order: seq<NodeId>, start: nat, end: nat) | Rejected | Aborted

  /** What `splice_children` decides about the current order. */
  function Spliced(old0: seq<NodeId>, before: Option<NodeId>, removed: seq<NodeId>, inserted: seq<NodeId>,
                   after: Option<NodeId>): (r: Outcome)
    ensures r.Done? ==> r.start <= r.end <= |old0| && old0[r.start..r.end] == removed
    ensures r.Done? ==> r.order == old0[..r.start] + inserted + old0[r.end..]
  {
    var first := if before.Some? then Position(old0, before.value) else None;
    var last := if after.Some? then Position(old0, after.value) else None;
    if before.Some? && first.None? then Rejected
    else if after.Some? && last.None? then Rejected
    else
      var start := if before.Some? then first.value + 1 else 0;
      var end := if after.Some? then last.value else |old0|;
      if end < start then Aborted
      else if old0[start..end] != removed then Rejected
      else if exists c :: c in inserted && (c in old0[..start] || c in old0[end..]) then Rejected
      else Done(old0[..start] + inserted + old0[end..], start, end)
  }

  /** `front` ends in the first occurrence of `node`, and is empty without one. */
  predicate EndsAt(front: seq<NodeId>, node: Option<NodeId>) {
    if node.None? then front == []
    else front != [] && front[|front| - 1] == node.value && node.value !in front[..|front| - 1]
  }

  /** `back` begins with the first occurrence of `node` behind `ahead`, and is empty without one. */
  predicate BeginsAt(ahead: seq<NodeId>, back: seq<NodeId>, node: Option<NodeId>) {
    if node.None? then back == []
    else back != [] && back[0] == node.value && node.value !in ahead
  }

  /** The order reads `front`, the removed run, `back`; the anchors bound the run, and nothing
      inserted stays on either side. */
  predicate Fits(old0: seq<NodeId>, before: Option<NodeId>, removed: seq<NodeId>, inserted: seq<NodeId>,
                 after: Option<NodeId>, front: seq<NodeId>, back: seq<NodeId>) {
    && old0 == front + removed + back
    && EndsAt(front, before) && BeginsAt(front + removed, back, after)
    && forall c :: c in inserted ==> c !in front && c !in back
  }

  /** Where the order reads so, the splice puts `inserted` between the two sides. */
  lemma FittingDone(old0: seq<NodeId>, before: Option<NodeId>, removed: seq<NodeId>, inserted: seq<NodeId>,
                    after: Option<NodeId>, front: seq<NodeId>, back: seq<NodeId>)
    requires Fits(old0, before, removed, inserted, after, front, back)
    ensures Spliced(old0, before, removed, inserted, after)
         == Done(front + inserted + back, |front|, |front| + |removed|)
  {
    var start, end := |front|, |front| + |removed|;
    assert old0[..start] == front && old0[start..end] == removed && old0[end..] == back;
    if before.Some? {
      assert old0[..start - 1] == front[..start - 1];
      PositionOnly(old0, start - 1);
    }
    if after.Some? {
      assert old0[..end] == front + removed;
      PositionOnly(old0, end);
    }
  }

  lemma DoneFits(old0: seq<NodeId>, before: Option<NodeId>, removed: seq<NodeId>, inserted: seq<NodeId>,
                 after: Option<NodeId>)
    requires Spliced(old0, before, removed, inserted, after).Done?
    ensures var r := Spliced(old0, before, removed, inserted, after);
      Fits(old0, before, removed, inserted, after, old0[..r.start], old0[r.end..])
  {
    var r := Spliced(old0, before, removed, inserted, after);
    assert old0[..r.start] + removed == old0[..r.end];
    if before.Some? { assert old0[..r.start][..r.start - 1] == old0[..r.start - 1]; }
  }

  /** A splice is accepted exactly when the order can be read as a side up to the first occurrence
      of `before`, the removed run, and a side from the first occurrence of `after`, and nothing
      inserted stays on either side. */
  lemma SplicedIff(old0: seq<NodeId>, before: Option<NodeId>, removed: seq<NodeId>, inserted: seq<NodeId>,
                   after: Option<NodeId>)
    ensures Spliced(old0, before, removed, inserted, after).Done?
      <==> exists front, back :: Fits(old0, before, removed, inserted, after, front, back)
  {
    if Spliced(old0, before, removed, inserted, after).Done? { DoneFits(old0, before, removed, inserted, after); }
    forall front, back | Fits(old0, before, removed, inserted, after, front, back)
      ensures Spliced(old0, before, removed, inserted, after).Done?
    {
      FittingDone(old0, before, removed, inserted, after, front, back);
    }
  }

  /** The splice stops the program exactly when both anchors are present and the first occurrence
      of `after` is at or before that of `before`, whatever is removed or inserted. */
  lemma AbortedIff(old0: seq<NodeId>, before: Option<NodeId>, removed: seq<NodeId>, inserted: seq<NodeId>,
                   after: Option<NodeId>)
    ensures Spliced(old0, before, removed, inserted, after).Aborted? <==>
      && before.Some? && after.Some?
      && var first, last := Position(old0, before.value), Position(old0, after.value);
         first.Some? && last.Some? && last.value <= first.value
  {
  }

  /** An empty splice between two swapped anchors: the input that stops the program. */
  lemma SwappedAnchorsAbort()
    ensures Spliced([1, 2], Some(2), [], [], Some(1)).Aborted?
    ensures Spliced([1, 2], Some(1), [], [], Some(2)) == Done([1, 2], 1, 1)
  {
    TwoPositions(1, 2);
    AbortedIff([1, 2], Some(2), [], [], Some(1));
    FittingDone([1, 2], Some(1), [], [], Some(2), [1], [2]);
  }

  lemma TwoPositions(a: NodeId, b: NodeId)
    requires a != b
    ensures Position([a, b], a) == Some(0) && Position([a, b], b) == Some(1)
  {
    PositionOnly([a, b], 0);
    PositionOnly([a, b], 1);
  }

  /** A successful splice with duplicate-free insertions keeps the order duplicate-free. */
  lemma SplicedDistinct(old0: seq<NodeId>, before: Option<NodeId>, removed: seq<NodeId>, inserted: seq<NodeId>,
                        after: Option<NodeId>)
    requires Distinct(old0) && Distinct(inserted) && Spliced(old0, before, removed, inserted, after).Done?
    ensures Distinct(Spliced(old0, before, removed, inserted, after).order)
  {
    var r := Spliced(old0, before, removed, inserted, after);
    var a, b := old0[..r.start], old0[r.end..];
    assert forall c :: c in inserted ==> c !in a && c !in b;
    assert forall i :: 0 <= i < |b| ==> b[i] == old0[r.end + i];
    DistinctThree(a, inserted, b);
  }

  lemma DistinctThree(a: seq<NodeId>, m: seq<NodeId>, b: seq<NodeId>)
    requires Distinct(a) && Distinct(m) && Distinct(b)
    requires forall c :: c in m ==> c !in a && c !in b
    requires forall i, j :: 0 <= i < |a| && 0 <= j < |b| ==> a[i] != b[j]
    ensures Distinct(a + m + b)
  {
    var all := a + m + b;
    forall i, j | 0 <= i < j < |all| ensures all[i] != all[j] {
      assert i < |a| ==> all[i] in a;
      assert |a| <= i < |a| + |m| ==> all[i] == m[i - |a|] && all[i] in m;
      assert |a| <= j < |a| + |m| ==> all[j] == m[j - |a|] && all[j] in m;
      assert j >= |a| + |m| ==> all[j] == b[j - |a| - |m|] && all[j] in b;
      assert i >= |a| + |m| ==> all[i] == b[i - |a| - |m|];
    }
  }

  /** The first index of a node that did not occur before. */
  lemma {:induction false} PositionOnly(order: seq<NodeId>, i: nat)
    requires i < |order| && order[i] !in order[..i]
    ensures Position(order, order[i]) == Some(i)
  {
    if i > 0 {
      assert order[..i] == [order[0]] + order[1..][..i - 1];
      PositionOnly(order[1..], i - 1);
    }
  }

  lemma DistinctBefore(order: seq<NodeId>, i: nat)
    requires Distinct(order) && i < |order|
    ensures order[i] !in order[..i]
  {
  }

  /** A splice between known neighbours. */
  lemma SplicedParts(front: seq<NodeId>, middle: seq<NodeId>, back: seq<NodeId>, before: Option<NodeId>,
                     inserted: seq<NodeId>, after: Option<NodeId>)
    requires Distinct(front + middle + back)
    requires if before.Some? then front != [] && front[|front| - 1] == before.value else front == []
    requires if after.Some? then back != [] && back[0] == after.value else back == []
    requires forall c :: c in inserted ==> c !in front && c !in back
    ensures Spliced(front + middle + back, before, middle, inserted, after)
         == Done(front + inserted + back, |front|, |front| + |middle|)
  {
    var all := front + middle + back;
    var start, end := |front|, |front| + |middle|;
    if before.Some? {
      DistinctBefore(all, start - 1);
      PositionOnly(all, start - 1);
    }
    if after.Some? {
      DistinctBefore(all, end);
      PositionOnly(all, end);
    }
    assert all[..start] == front && all[start..end] == middle && all[end..] == back;
  }

  lemma RemovedDistinct(old0: seq<NodeId>, before: Option<NodeId>, removed: seq<NodeId>, inserted: seq<NodeId>,
                        after: Option<NodeId>)
    requires Distinct(old0) && Spliced(old0, before, removed, inserted, after).Done?
    ensures Distinct(removed)
  {
    var r := Spliced(old0, before, removed, inserted, after);
    SliceDistinct(old0, r.start, r.end);
  }

  lemma SliceDistinct(order: seq<NodeId>, start: nat, end: nat)
    requires Distinct(order) && start <= end <= |order|
    ensures Distinct(order[start..end])
  {
    var slice := order[start..end];
    assert forall i :: 0 <= i < |slice| ==> slice[i] == order[start + i];
  }

  /** A successful splice names its neighbours. */
  lemma SplicedNeighbours(old0: seq<NodeId>, before: Option<NodeId>, removed: seq<NodeId>, inserted: seq<NodeId>,
                          after: Option<NodeId>)
    requires Spliced(old0, before, removed, inserted, after).Done?
    ensures var r := Spliced(old0, before, removed, inserted, after);
      && (if before.Some? then r.start > 0 && old0[r.start - 1] == before.value else r.start == 0)
      && (if after.Some? then r.end < |old0| && old0[r.end] == after.value else r.end == |old0|)
      && (forall c :: c in inserted ==> c !in old0[..r.start] && c !in old0[r.end..])
      && old0 == old0[..r.start] + removed + old0[r.end..]
  {
  }

  lemma MiddleApart(front: seq<NodeId>, middle: seq<NodeId>, back: seq<NodeId>)
    requires Distinct(front + middle + back)
    ensures forall c :: c in middle ==> c !in front && c !in back
  {
    var all := front + middle + back;
    forall c | c in middle ensures c !in front && c !in back {
      var k :| 0 <= k < |middle| && middle[k] == c;
      assert all[|front| + k] == c;
      assert forall i :: 0 <= i < |front| ==> all[i] == front[i];
      assert forall i :: 0 <= i < |back| ==> all[|front| + |middle| + i] == back[i];
    }
  }

  /** Swapping removed and inserted undoes a splice. */
  lemma SpliceUndo(old0: seq<NodeId>, before: Option<NodeId>, removed: seq<NodeId>, inserted: seq<NodeId>,
                   after: Option<NodeId>)
    requires Distinct(old0) && Distinct(inserted)
    requires Spliced(old0, before, removed, inserted, after).Done?
    ensures var now := Spliced(old0, before, removed, inserted, after).order;
      var back := Spliced(now, before, inserted, removed, after);
      back.Done? && back.order == old0
  {
    var r := Spliced(old0, before, removed, inserted, after);
    SplicedDistinct(old0, before, removed, inserted, after);
    SplicedNeighbours(old0, before, removed, inserted, after);
    MiddleApart(old0[..r.start], removed, old0[r.end..]);
    SplicedParts(old0[..r.start], inserted, old0[r.end..], before, removed, after);
  }

  // ------------------------------------------------------------------ the handles

  /** A fact that a retraction hides. */
  function Unless(gone: bool, fact: Option<TreeFact>): Option<TreeFact> {
    if gone then None else fact
  }

  /** A fact that a write replaces. */
  function OrElse(written: bool, value: TreeFact, fact: Option<TreeFact>): Option<TreeFact> {
    if written then Some(value) else fact
  }

  ghost predicate SameWrite(before: Overlay, now: Overlay, k: TreeKey) {
    (k in now <==> k in before) && (k in now ==> now[k] == before[k])
  }

  /** Nothing was written but links of `node` to members of `links`. */
  ghost predicate WroteLinks(before: Overlay, now: Overlay, node: NodeId, links: seq<NodeId>) {
    forall k: TreeKey :: !(k.ChildLink? && k.node == node && k.child in links) ==> SameWrite(before, now, k)
  }

  /** The overlay of one invocation, read and written through `TreeEmit` handles. */
  class TreeFacts {
    const committed: Facts
    var pending: Overlay

    constructor (committed: Facts)
      ensures this.committed == committed && pending == map[]
    {
      this.committed := committed;
      pending := map[];
    }

    method Write(k: TreeKey, value: Option<TreeFact>)
      modifies this
      ensures pending == old(pending)[k := value]
    {
      pending := pending[k := value];
    }

    /** Retracts the links of the listed children that are not retained. */
    method RetractLinks(node: NodeId, links: seq<NodeId>, retained: set<NodeId>)
      modifies this
      ensures WroteLinks(old(pending), pending, node, links)
      ensures OnlyNode(committed, old(pending), pending, node)
      ensures Lookup(committed, pending, ChildOrder(node)) == Lookup(committed, old(pending), ChildOrder(node))
      ensures forall c ::
        Lookup(committed, pending, ChildLink(node, c))
        == Unless(c in links && c !in retained, Lookup(committed, old(pending), ChildLink(node, c)))
    {
      for i := 0 to |links|
        invariant WroteLinks(old(pending), pending, node, links)
        invariant OnlyNode(committed, old(pending), pending, node)
        invariant Lookup(committed, pending, ChildOrder(node)) == Lookup(committed, old(pending), ChildOrder(node))
        invariant forall c ::
          Lookup(committed, pending, ChildLink(node, c))
          == Unless(c in links[..i] && c !in retained, Lookup(committed, old(pending), ChildLink(node, c)))
      {
        assert links[..i + 1] == links[..i] + [links[i]];
        if links[i] !in retained { Write(ChildLink(node, links[i]), None); }
        assert links[i] in links;
      }
      assert links[..|links|] == links;
    }

    /** Writes one link fact per child. */
    method WriteLinks(node: NodeId, children: seq<NodeId>)
      modifies this
      ensures WroteLinks(old(pending), pending, node, children)
      ensures OnlyNode(committed, old(pending), pending, node)
      ensures Lookup(committed, pending, ChildOrder(node)) == Lookup(committed, old(pending), ChildOrder(node))
      ensures forall c ::
        Lookup(committed, pending, ChildLink(node, c))
        == OrElse(c in children, Link(c), Lookup(committed, old(pending), ChildLink(node, c)))
    {
      for i := 0 to |children|
        invariant WroteLinks(old(pending), pending, node, children)
        invariant OnlyNode(committed, old(pending), pending, node)
        invariant Lookup(committed, pending, ChildOrder(node)) == Lookup(committed, old(pending), ChildOrder(node))
        invariant forall c ::
          Lookup(committed, pending, ChildLink(node, c))
          == OrElse(c in children[..i], Link(c), Lookup(committed, old(pending), ChildLink(node, c)))
      {
        assert children[..i + 1] == children[..i] + [children[i]];
        Write(ChildLink(node, children[i]), Some(Link(children[i])));
      }
      assert children[..|children|] == children;
    }

    /** `set_children`, diffing against the order `base`. */
    method SetChildrenFrom(node: NodeId, base: seq<NodeId>, children: seq<NodeId>)
      modifies this
      ensures OnlyNode(committed, old(pending), pending, node)
      ensures old(ChildrenAre(committed, pending, node, base)) ==> ChildrenAre(committed, pending, node, children)
    {
      if base != children {
        RetractLinks(node, base, set c | c in children);
      }
      Write(ChildOrder(node), Some(Order(children)));
      WriteLinks(node, children);
    }

    /** `TreeEmit::set_children` */
    method SetChildren(node: NodeId, children: seq<NodeId>)
      modifies this
      ensures OnlyNode(committed, old(pending), pending, node)
      ensures var was := OrderOf(Lookup(committed, old(pending), ChildOrder(node)));
        old(ChildrenAre(committed, pending, node, was)) ==> ChildrenAre(committed, pending, node, children)
    {
      SetChildrenFrom(node, OrderOf(Lookup(committed, pending, ChildOrder(node))), children);
    }

    /** `splice_children` on the order `base`. */
    method SpliceFrom(node: NodeId, base: seq<NodeId>, before: Option<NodeId>, removed: seq<NodeId>,
                      inserted: seq<NodeId>, after: Option<NodeId>) returns (outcome: Outcome)
      modifies this
      ensures outcome.Done? ==>
        WroteLinks(old(pending)[ChildOrder(node) := Some(Order(outcome.order))], pending, node, removed + inserted)
      ensures outcome == Spliced(base, before, removed, inserted, after)
      ensures OnlyNode(committed, old(pending), pending, node)
      ensures !outcome.Done? ==> pending == old(pending)
      ensures outcome.Done? ==> Lookup(committed, pending, ChildOrder(node)) == Some(Order(outcome.order))
      ensures outcome.Done? ==> forall c ::
        Lookup(committed, pending, ChildLink(node, c))
        == OrElse(c in inserted, Link(c), Unless(c in removed, Lookup(committed, old(pending), ChildLink(node, c))))
      ensures outcome.Done? && Distinct(base) && old(ChildrenAre(committed, pending, node, base))
        ==> ChildrenAre(committed, pending, node, outcome.order)
    {
      outcome := Spliced(base, before, removed, inserted, after);
      if !outcome.Done? { return; }
      RetractLinks(node, removed, {});
      Write(ChildOrder(node), Some(Order(outcome.order)));
      WriteLinks(node, inserted);
      if Distinct(base) && old(ChildrenAre(committed, pending, node, base)) {
        SplicedNeighbours(base, before, removed, inserted, after);
        MiddleApart(base[..outcome.start], removed, base[outcome.end..]);
        MembersSplit(base, outcome.start, outcome.end, removed, inserted);
      }
    }

    /** `TreeEmit::splice_children`: when it succeeds on a duplicate-free order with matching
        links and duplicate-free insertions, both facts are kept, and nothing else changes. */
    method SpliceChildren(node: NodeId, before: Option<NodeId>, removed: seq<NodeId>, inserted: seq<NodeId>,
                          after: Option<NodeId>) returns (outcome: Outcome)
      modifies this
      ensures var was := OrderOf(Lookup(committed, old(pending), ChildOrder(node)));
        && outcome == Spliced(was, before, removed, inserted, after)
        && (outcome.Done? && Distinct(was) && Distinct(inserted) && old(ChildrenAre(committed, pending, node, was)) ==>
              ChildrenAre(committed, pending, node, outcome.order) && Distinct(outcome.order))
      ensures OnlyNode(committed, old(pending), pending, node)
      ensures !outcome.Done? ==> pending == old(pending)
      ensures outcome.Done? ==>
        WroteLinks(old(pending)[ChildOrder(node) := Some(Order(outcome.order))], pending, node, removed + inserted)
    {
      var was := OrderOf(Lookup(committed, pending, ChildOrder(node)));
      outcome := SpliceFrom(node, was, before, removed, inserted, after);
      if outcome.Done? && Distinct(was) && Distinct(inserted) {
        SplicedDistinct(was, before, removed, inserted, after);
      }
    }

    /** A splice followed by the one with removed and inserted swapped leaves every order and link
        fact as it was. */
    method SpliceAndBack(node: NodeId, before: Option<NodeId>, removed: seq<NodeId>, inserted: seq<NodeId>,
                         after: Option<NodeId>) returns (there: Outcome, back: Outcome)
      requires var was := OrderOf(Lookup(committed, pending, ChildOrder(node)));
        Distinct(was) && Distinct(inserted) && ChildrenAre(committed, pending, node, was)
      modifies this
      ensures there
        == Spliced(OrderOf(Lookup(committed, old(pending), ChildOrder(node))), before, removed, inserted, after)
      ensures there.Done? ==> back.Done?
      ensures OrderOf(Lookup(committed, pending, ChildOrder(node)))
           == OrderOf(Lookup(committed, old(pending), ChildOrder(node)))
      ensures forall k :: k != ChildOrder(node) ==> Lookup(committed, pending, k) == Lookup(committed, old(pending), k)
    {
      ghost var was := OrderOf(Lookup(committed, pending, ChildOrder(node)));
      there := SpliceChildren(node, before, removed, inserted, after);
      if !there.Done? { return there, there; }
      SpliceUndo(was, before, removed, inserted, after);
      RemovedDistinct(was, before, removed, inserted, after);
      back := SpliceChildren(node, before, inserted, removed, after);
      SameFacts(committed, old(pending), pending, old(pending), node, was);
    }

    /** `replace_roots` */
    method ReplaceRoots(key: Domain, roots: seq<NodeId>)
      modifies this
      ensures OnlyRoots(committed, old(pending), pending, key)
      ensures var was := RootsOf(Lookup(committed, old(pending), RootOrder(key)));
        old(RootsAre(committed, pending, key, was)) ==> RootsAre(committed, pending, key, roots)
    {
      var was := RootsOf(Lookup(committed, pending, RootOrder(key)));
      if was != roots { RetractRoots(key, was, set r | r in roots); }
      Write(RootOrder(key), Some(Roots(roots)));
      for i := 0 to |roots|
        invariant OnlyRoots(committed, old(pending), pending, key)
        invariant Lookup(committed, pending, RootOrder(key)) == Some(Roots(roots))
        invariant old(RootsAre(committed, pending, key, was)) ==>
          forall r :: Lookup(committed, pending, RootLink(key, r))
            == OrElse(r in roots[..i] || (r in was && r in roots), RootAt(r), None)
      {
        assert roots[..i + 1] == roots[..i] + [roots[i]];
        Write(RootLink(key, roots[i]), Some(RootAt(roots[i])));
      }
      assert roots[..|roots|] == roots;
    }

    method RetractRoots(key: Domain, links: seq<NodeId>, retained: set<NodeId>)
      modifies this
      ensures OnlyRoots(committed, old(pending), pending, key)
      ensures forall r ::
        Lookup(committed, pending, RootLink(key, r))
        == Unless(r in links && r !in retained, Lookup(committed, old(pending), RootLink(key, r)))
    {
      for i := 0 to |links|
        invariant OnlyRoots(committed, old(pending), pending, key)
        invariant forall r ::
          Lookup(committed, pending, RootLink(key, r))
          == Unless(r in links[..i] && r !in retained, Lookup(committed, old(pending), RootLink(key, r)))
      {
        assert links[..i + 1] == links[..i] + [links[i]];
        if links[i] !in retained { Write(RootLink(key, links[i]), None); }
      }
      assert links[..|links|] == links;
    }
  }

  lemma MembersSplit(old0: seq<NodeId>, start: nat, end: nat, removed: seq<NodeId>, inserted: seq<NodeId>)
    requires start <= end <= |old0| && old0 == old0[..start] + removed + old0[end..]
    requires forall c :: c in removed ==> c !in old0[..start] && c !in old0[end..]
    ensures forall c ::
      c in old0[..start] + inserted + old0[end..] <==> c in inserted || (c in old0 && c !in removed)
  {
    var a, b := old0[..start], old0[end..];
    forall c ensures c in a + inserted + b <==> c in inserted || (c in old0 && c !in removed) {
      assert c in old0 <==> c in a || c in removed || c in b;
    }
  }

  /** The two ways to reach one child list leave the same facts behind. */
  lemma SameFacts(committed: Facts, before: Overlay, x: Overlay, y: Overlay, node: NodeId, order: seq<NodeId>)
    requires OnlyNode(committed, before, x, node) && OnlyNode(committed, before, y, node)
    requires ChildrenAre(committed, x, node, order) && ChildrenAre(committed, y, node, order)
    ensures forall k :: k != ChildOrder(node) ==> Lookup(committed, x, k) == Lookup(committed, y, k)
    ensures OrderOf(Lookup(committed, x, ChildOrder(node))) == OrderOf(Lookup(committed, y, ChildOrder(node)))
  {
    forall k | k != ChildOrder(node) ensures Lookup(committed, x, k) == Lookup(committed, y, k) {
      if k.ChildLink? && k.node == node {
        assert Lookup(committed, x, ChildLink(node, k.child)) == LinkFact(order, k.child);
        assert Lookup(committed, y, ChildLink(node, k.child)) == LinkFact(order, k.child);
      }
    }
  }
}
