/** Sparse publication of ordered trees: patch handles append operations, and an invocation commits
    only when no key occurs twice among them. */
module FactPatches {
  import opened Wrappers
  import opened FactTrees

  datatype Op = Op(key: TreeKey, value: Option<TreeFact>)

  datatype Call =
    | SetChildren(node: NodeId, children: seq<NodeId>)
    | SpliceChildren(node: NodeId, before: Option<NodeId>, removed: seq<NodeId>, inserted: seq<NodeId>,
                     after: Option<NodeId>)

  /** `StopsProgram` is the out-of-order slice in the mismatch message. */
  datatype PatchError = TopologyViolation | StopsProgram | DuplicatePatchKey

  // ------------------------------------------------------------------ the operations of one call

  /** Patch handles diff against the committed order, whatever was patched before. */
  function CommittedOrder(committed: Facts, node: NodeId): seq<NodeId> {
    OrderOf(Lookup(committed, map[], ChildOrder(node)))
  }

  function Outcomes(committed: Facts, call: Call): Outcome
    requires call.SpliceChildren?
  {
    Spliced(CommittedOrder(committed, call.node), call.before, call.removed, call.inserted, call.after)
  }

  predicate Accepted(committed: Facts, call: Call) {
    call.SpliceChildren? ==> Outcomes(committed, call).Done?
  }

  /** A splice that stops the program, or that is reported. */
  predicate Complains(committed: Facts, call: Call, error: PatchError) {
    && call.SpliceChildren? && !Accepted(committed, call)
    && error == if Outcomes(committed, call).Aborted? then StopsProgram else TopologyViolation
  }

  /** The order a call publishes. */
  function NewOrder(committed: Facts, call: Call): seq<NodeId>
    requires Accepted(committed, call)
  {
    if call.SetChildren? then call.children else Outcomes(committed, call).order
  }

  function Retractions(node: NodeId, links: seq<NodeId>): (ops: seq<Op>)
    ensures |ops| == |links|
    ensures forall i :: 0 <= i < |links| ==> ops[i] == Op(ChildLink(node, links[i]), None)
  {
    seq(|links|, i requires 0 <= i < |links| => Op(ChildLink(node, links[i]), None))
  }

  function Additions(node: NodeId, links: seq<NodeId>): (ops: seq<Op>)
    ensures |ops| == |links|
    ensures forall i :: 0 <= i < |links| ==> ops[i] == Op(ChildLink(node, links[i]), Some(Link(links[i])))
  {
    seq(|links|, i requires 0 <= i < |links| => Op(ChildLink(node, links[i]), Some(Link(links[i]))))
  }

  /** The links of `base` that `children` drops. */
  function Omitted(base: seq<NodeId>, children: seq<NodeId>): (r: seq<NodeId>)
    ensures forall c :: c in r <==> c in base && c !in children
  {
    if base == [] then []
    else
      var front, last := base[..|base| - 1], base[|base| - 1];
      assert base == front + [last];
      Omitted(front, children) + if last in children then [] else [last]
  }

  /** The links a call retracts, and the ones it publishes. */
  function Gone(committed: Facts, call: Call): seq<NodeId> {
    if call.SpliceChildren? then call.removed
    else
      var base := CommittedOrder(committed, call.node);
      if base == call.children then [] else Omitted(base, call.children)
  }

  function Published(call: Call): seq<NodeId> {
    if call.SpliceChildren? then call.inserted else call.children
  }

  function OpsOf(committed: Facts, call: Call): seq<Op>
    requires Accepted(committed, call)
  {
    Retractions(call.node, Gone(committed, call))
    + [Op(ChildOrder(call.node), Some(Order(NewOrder(committed, call))))]
    + Additions(call.node, Published(call))
  }

  /** The order in which a call appends its operations. */
  lemma OpsJoined(committed: Facts, call: Call, ops: seq<Op>)
    requires Accepted(committed, call)
    ensures ops + Retractions(call.node, Gone(committed, call))
          + [Op(ChildOrder(call.node), Some(Order(NewOrder(committed, call))))]
          + Additions(call.node, Published(call))
         == ops + OpsOf(committed, call)
  {
  }

  predicate AllAccepted(committed: Facts, calls: seq<Call>) {
    forall i :: 0 <= i < |calls| ==> Accepted(committed, calls[i])
  }

  function AllOps(committed: Facts, calls: seq<Call>): seq<Op>
    requires AllAccepted(committed, calls)
  {
    if calls == [] then []
    else AllOps(committed, calls[..|calls| - 1]) + OpsOf(committed, calls[|calls| - 1])
  }

  // ------------------------------------------------------------------ the handle

  /** `TreePatch` within one invocation. */
  class TreePatch {
    const committed: Facts
    var ops: seq<Op>

    constructor (committed: Facts)
      ensures this.committed == committed && ops == []
    {
      this.committed := committed;
      ops := [];
    }

    method Upsert(k: TreeKey, value: TreeFact)
      modifies this
      ensures ops == old(ops) + [Op(k, Some(value))]
    {
      ops := ops + [Op(k, Some(value))];
    }

    method Remove(k: TreeKey)
      modifies this
      ensures ops == old(ops) + [Op(k, None)]
    {
      ops := ops + [Op(k, None)];
    }

    method RemoveLinks(node: NodeId, links: seq<NodeId>)
      modifies this
      ensures ops == old(ops) + Retractions(node, links)
    {
      for i := 0 to |links|
        invariant ops == old(ops) + Retractions(node, links[..i])
      {
        assert Retractions(node, links[..i + 1])
          == Retractions(node, links[..i]) + [Op(ChildLink(node, links[i]), None)];
        Remove(ChildLink(node, links[i]));
      }
      assert links[..|links|] == links;
    }

    method AddLinks(node: NodeId, links: seq<NodeId>)
      modifies this
      ensures ops == old(ops) + Additions(node, links)
    {
      for i := 0 to |links|
        invariant ops == old(ops) + Additions(node, links[..i])
      {
        assert Additions(node, links[..i + 1])
            == Additions(node, links[..i]) + [Op(ChildLink(node, links[i]), Some(Link(links[i])))];
        Upsert(ChildLink(node, links[i]), Link(links[i]));
      }
      assert links[..|links|] == links;
    }

    /** `set_children` */
    method SetChildren(node: NodeId, children: seq<NodeId>)
      modifies this
      ensures ops == old(ops) + OpsOf(committed, Call.SetChildren(node, children))
    {
      var base := CommittedOrder(committed, node);
      if base != children { RemoveLinks(node, Omitted(base, children)); }
      Upsert(ChildOrder(node), Order(children));
      AddLinks(node, children);
      OpsJoined(committed, Call.SetChildren(node, children), old(ops));
    }

    /** `splice_children`: appends nothing when it fails. */
    method SpliceChildren(node: NodeId, before: Option<NodeId>, removed: seq<NodeId>, inserted: seq<NodeId>,
                          after: Option<NodeId>) returns (outcome: Outcome)
      modifies this
      ensures var call := Call.SpliceChildren(node, before, removed, inserted, after);
        && outcome == Outcomes(committed, call)
        && ops == if outcome.Done? then old(ops) + OpsOf(committed, call) else old(ops)
    {
      outcome := Spliced(CommittedOrder(committed, node), before, removed, inserted, after);
      if !outcome.Done? { return; }
      RemoveLinks(node, removed);
      Upsert(ChildOrder(node), Order(outcome.order));
      AddLinks(node, inserted);
      OpsJoined(committed, Call.SpliceChildren(node, before, removed, inserted, after), old(ops));
    }

    /** One call, whichever it is. */
    method Take(call: Call) returns (error: Option<PatchError>)
      modifies this
      ensures error.None? <==> Accepted(committed, call)
      ensures error.Some? ==> Complains(committed, call, error.value)
      ensures error.None? ==> ops == old(ops) + OpsOf(committed, call)
    {
      match call {
        case SetChildren(node, children) =>
          SetChildren(node, children);
          error := None;
        case SpliceChildren(node, before, removed, inserted, after) =>
          var outcome := SpliceChildren(node, before, removed, inserted, after);
          error := match outcome {
            case Done(_, _, _) => None
            case Rejected => Some(TopologyViolation)
            case Aborted => Some(StopsProgram)
          };
      }
    }

    /** `patch_ops_to_indexed`: the first repeated key rejects everything. */
    method Freeze() returns (r: Result<Overlay, PatchError>)
      ensures r.Ok? <==> KeysDistinct(ops)
      ensures r.Ok? ==> Indexes(r.value, ops)
      ensures r.Err? ==> r.error == DuplicatePatchKey
    {
      var writes: Overlay := map[];
      for i := 0 to |ops|
        invariant KeysDistinct(ops[..i]) && Indexes(writes, ops[..i])
      {
        assert ops[..i + 1] == ops[..i] + [ops[i]];
        if ops[i].key in writes {
          assert Keyed(ops[..i], ops[i].key);
          return Err(DuplicatePatchKey);
        }
        IndexNext(writes, ops[..i], ops[i]);
        writes := writes[ops[i].key := ops[i].value];
      }
      assert ops[..|ops|] == ops;
      r := Ok(writes);
    }
  }

  ghost predicate KeysDistinct(ops: seq<Op>) {
    forall i, j :: 0 <= i < j < |ops| ==> ops[i].key != ops[j].key
  }

  ghost predicate Keyed(ops: seq<Op>, k: TreeKey) {
    exists i :: 0 <= i < |ops| && ops[i].key == k
  }

  /** The indexed writes are exactly the operations. */
  ghost predicate Indexes(writes: Overlay, ops: seq<Op>) {
    && (forall i :: 0 <= i < |ops| ==> ops[i].key in writes && writes[ops[i].key] == ops[i].value)
    && (forall k :: k in writes ==> Keyed(ops, k))
  }

  lemma IndexNext(writes: Overlay, ops: seq<Op>, op: Op)
    requires KeysDistinct(ops) && Indexes(writes, ops) && op.key !in writes
    ensures KeysDistinct(ops + [op]) && Indexes(writes[op.key := op.value], ops + [op])
  {
    var all, now := ops + [op], writes[op.key := op.value];
    assert forall i :: 0 <= i < |ops| ==> all[i] == ops[i];
    forall k | k in now ensures Keyed(all, k) {
      if k == op.key {
        assert all[|ops|].key == k;
      } else {
        assert Keyed(ops, k);
        var i :| 0 <= i < |ops| && ops[i].key == k;
        assert all[i].key == k;
      }
    }
  }

  // ------------------------------------------------------------------ when a run of calls commits

  /** No key repeats within one call: each list is duplicate-free, and no child is both retracted
      and published. */
  ghost predicate Clean(committed: Facts, call: Call) {
    && Distinct(Gone(committed, call)) && Distinct(Published(call))
    && Apart(Gone(committed, call), Published(call))
  }

  ghost predicate NodesDistinct(calls: seq<Call>) {
    forall i, j :: 0 <= i < j < |calls| ==> calls[i].node != calls[j].node
  }

  lemma KeysConcat(a: seq<Op>, b: seq<Op>)
    ensures KeysDistinct(a + b) <==> KeysDistinct(a) && KeysDistinct(b) && forall k :: Keyed(a, k) ==> !Keyed(b, k)
  {
    var all := a + b;
    assert forall i :: 0 <= i < |a| ==> all[i] == a[i];
    assert forall i :: 0 <= i < |b| ==> all[|a| + i] == b[i];
    if KeysDistinct(all) {
      forall k | Keyed(a, k) ensures !Keyed(b, k) {
        var i :| 0 <= i < |a| && a[i].key == k;
        assert all[i].key == k;
      }
      forall i, j | 0 <= i < j < |b| ensures b[i].key != b[j].key {
        assert all[|a| + i].key != all[|a| + j].key;
      }
    }
    if KeysDistinct(a) && KeysDistinct(b) && forall k :: Keyed(a, k) ==> !Keyed(b, k) {
      forall i, j | 0 <= i < j < |all| ensures all[i].key != all[j].key {
        if i < |a| && j >= |a| {
          assert Keyed(a, all[i].key);
          assert b[j - |a|] == all[j];
        } else if i >= |a| {
          assert all[i] == b[i - |a|] && all[j] == b[j - |a|];
        }
      }
    }
  }

  lemma KeyedConcat(a: seq<Op>, b: seq<Op>, k: TreeKey)
    ensures Keyed(a + b, k) <==> Keyed(a, k) || Keyed(b, k)
  {
    var all := a + b;
    assert forall i :: 0 <= i < |a| ==> all[i] == a[i];
    assert forall i :: 0 <= i < |b| ==> all[|a| + i] == b[i];
    if Keyed(b, k) {
      var i :| 0 <= i < |b| && b[i].key == k;
      assert all[|a| + i].key == k;
    }
    if Keyed(all, k) {
      var i :| 0 <= i < |all| && all[i].key == k;
      if i >= |a| { assert b[i - |a|].key == k; }
    }
  }

  lemma LinkKeys(node: NodeId, links: seq<NodeId>, ops: seq<Op>)
    requires |ops| == |links| && forall i :: 0 <= i < |links| ==> ops[i].key == ChildLink(node, links[i])
    ensures KeysDistinct(ops) <==> Distinct(links)
    ensures OnlyLinks(ops, node, links)
  {
    forall k ensures Keyed(ops, k) <==> k.ChildLink? && k.node == node && k.child in links {
      if k.ChildLink? && k.node == node && k.child in links {
        var i :| 0 <= i < |links| && links[i] == k.child;
        assert ops[i].key == k;
      }
    }
    if KeysDistinct(ops) {
      forall i, j | 0 <= i < j < |links| ensures links[i] != links[j] {
        assert ops[i].key != ops[j].key;
      }
    }
  }

  /** The keys of one call. */
  predicate Writes(committed: Facts, call: Call, k: TreeKey) {
    || k == ChildOrder(call.node)
    || (k.ChildLink? && k.node == call.node && (k.child in Gone(committed, call) || k.child in Published(call)))
  }

  predicate SomeWrites(committed: Facts, calls: seq<Call>, k: TreeKey) {
    exists i :: 0 <= i < |calls| && Writes(committed, calls[i], k)
  }

  /** The keys of `ops` are the links of `node` to `links`. */
  ghost predicate OnlyLinks(ops: seq<Op>, node: NodeId, links: seq<NodeId>) {
    forall k :: Keyed(ops, k) <==> k.ChildLink? && k.node == node && k.child in links
  }

  ghost predicate OnlyOrder(ops: seq<Op>, node: NodeId) {
    forall k :: Keyed(ops, k) <==> k == ChildOrder(node)
  }

  predicate Apart(a: seq<NodeId>, b: seq<NodeId>) {
    forall c :: c in a ==> c !in b
  }

  /** The operations of one call, and when their keys are distinct. */
  lemma CallKeys(committed: Facts, call: Call)
    requires Accepted(committed, call)
    ensures KeysDistinct(OpsOf(committed, call)) <==> Clean(committed, call)
    ensures forall k :: Keyed(OpsOf(committed, call), k) <==> Writes(committed, call, k)
  {
    var gone, added := Gone(committed, call), Published(call);
    var a, b := Retractions(call.node, gone), Additions(call.node, added);
    var m := Op(ChildOrder(call.node), Some(Order(NewOrder(committed, call))));
    LinkKeys(call.node, gone, a);
    LinkKeys(call.node, added, b);
    OrderKey(call.node, m);
    PartsDistinct(call.node, gone, added, a, [m], b);
    forall k ensures Keyed(a + [m] + b, k) <==> Writes(committed, call, k) {
      KeyedConcat(a + [m], b, k);
      KeyedConcat(a, [m], k);
    }
  }

  lemma OrderKey(node: NodeId, op: Op)
    requires op.key == ChildOrder(node)
    ensures OnlyOrder([op], node)
  {
    assert [op][0].key == ChildOrder(node);
  }

  lemma PartsDistinct(node: NodeId, gone: seq<NodeId>, added: seq<NodeId>, a: seq<Op>, m: seq<Op>, b: seq<Op>)
    requires OnlyLinks(a, node, gone) && OnlyLinks(b, node, added) && OnlyOrder(m, node) && |m| == 1
    ensures KeysDistinct(a + m + b) <==> KeysDistinct(a) && KeysDistinct(b) && Apart(gone, added)
  {
    KeysConcat(a + m, b);
    KeysConcat(a, m);
    forall k ensures Keyed(a + m, k) <==> Keyed(a, k) || Keyed(m, k) { KeyedConcat(a, m, k); }
    if forall k :: Keyed(a + m, k) ==> !Keyed(b, k) {
      forall c | c in gone ensures c !in added {
        assert Keyed(a + m, ChildLink(node, c));
      }
    }
  }

  lemma AllOpsSnoc(committed: Facts, front: seq<Call>, last: Call)
    requires AllAccepted(committed, front) && Accepted(committed, last)
    ensures AllAccepted(committed, front + [last])
    ensures AllOps(committed, front + [last]) == AllOps(committed, front) + OpsOf(committed, last)
  {
    assert (front + [last])[..|front|] == front;
  }

  lemma SomeWritesSnoc(committed: Facts, front: seq<Call>, last: Call, k: TreeKey)
    ensures SomeWrites(committed, front + [last], k) <==> SomeWrites(committed, front, k) || Writes(committed, last, k)
  {
    var all := front + [last];
    assert all[|front|] == last;
    if SomeWrites(committed, front, k) {
      var i :| 0 <= i < |front| && Writes(committed, front[i], k);
      assert all[i] == front[i];
    }
    if SomeWrites(committed, all, k) {
      var i :| 0 <= i < |all| && Writes(committed, all[i], k);
      assert i < |front| ==> all[i] == front[i];
    }
  }

  /** Which keys a run of calls writes. */
  lemma {:induction false} RunKeys(committed: Facts, calls: seq<Call>, k: TreeKey)
    requires AllAccepted(committed, calls)
    ensures Keyed(AllOps(committed, calls), k) <==> SomeWrites(committed, calls, k)
    decreases |calls|
  {
    if calls != [] {
      var n := |calls| - 1;
      var front, last := calls[..n], calls[n];
      assert calls == front + [last];
      RunKeys(committed, front, k);
      AllOpsSnoc(committed, front, last);
      KeyedConcat(AllOps(committed, front), OpsOf(committed, last), k);
      CallKeys(committed, last);
      SomeWritesSnoc(committed, front, last, k);
    }
  }

  ghost predicate AllClean(committed: Facts, calls: seq<Call>) {
    forall i :: 0 <= i < |calls| ==> Clean(committed, calls[i])
  }

  /** The exact commit condition: the calls name different nodes, and each is clean. */
  lemma {:induction false} RunCommitsIff(committed: Facts, calls: seq<Call>)
    requires AllAccepted(committed, calls)
    ensures KeysDistinct(AllOps(committed, calls)) <==> NodesDistinct(calls) && AllClean(committed, calls)
    decreases |calls|
  {
    if calls != [] {
      var n := |calls| - 1;
      var front, last := calls[..n], calls[n];
      assert calls == front + [last];
      RunCommitsIff(committed, front);
      AllOpsSnoc(committed, front, last);
      KeysConcat(AllOps(committed, front), OpsOf(committed, last));
      CallKeys(committed, last);
      SharedIff(committed, front, last);
      CallsSnoc(committed, front, last);
    }
  }

  ghost predicate NotNamed(front: seq<Call>, node: NodeId) {
    forall i :: 0 <= i < |front| ==> front[i].node != node
  }

  lemma CallsSnoc(committed: Facts, front: seq<Call>, last: Call)
    ensures NodesDistinct(front + [last]) <==> NodesDistinct(front) && NotNamed(front, last.node)
    ensures AllClean(committed, front + [last]) <==> AllClean(committed, front) && Clean(committed, last)
  {
    var all := front + [last];
    assert forall i :: 0 <= i < |front| ==> all[i] == front[i];
    assert all[|front|] == last;
  }

  /** Two calls share a key exactly when they name the same node. */
  lemma SharedIff(committed: Facts, front: seq<Call>, last: Call)
    requires AllAccepted(committed, front) && Accepted(committed, last)
    ensures (forall k :: Keyed(AllOps(committed, front), k) ==> !Keyed(OpsOf(committed, last), k))
       <==> NotNamed(front, last.node)
  {
    CallKeys(committed, last);
    forall k ensures Keyed(AllOps(committed, front), k) <==> SomeWrites(committed, front, k) {
      RunKeys(committed, front, k);
    }
    if !NotNamed(front, last.node) {
      var i :| 0 <= i < |front| && front[i].node == last.node;
      assert Writes(committed, front[i], ChildOrder(last.node));
      assert Writes(committed, last, ChildOrder(last.node));
      assert Keyed(AllOps(committed, front), ChildOrder(last.node));
    }
  }

  /** Over a duplicate-free committed order, a call is clean exactly when what it publishes is
      duplicate-free and, for a splice, avoids what it removes. */
  lemma CleanIff(committed: Facts, call: Call)
    requires Accepted(committed, call) && Distinct(CommittedOrder(committed, call.node))
    ensures Clean(committed, call) <==>
      && Distinct(Published(call))
      && (call.SpliceChildren? ==> Apart(call.removed, call.inserted))
  {
    var base := CommittedOrder(committed, call.node);
    if call.SpliceChildren? {
      RemovedDistinct(base, call.before, call.removed, call.inserted, call.after);
    } else {
      OmittedDistinct(base, call.children);
    }
  }

  lemma {:induction false} OmittedDistinct(base: seq<NodeId>, children: seq<NodeId>)
    requires Distinct(base)
    ensures Distinct(Omitted(base, children))
  {
    if base != [] {
      var n := |base| - 1;
      OmittedDistinct(base[..n], children);
      DistinctBefore(base, n);
      assert base[n] !in Omitted(base[..n], children);
    }
  }

  /** Two splices of one node that follow on one another.  A patch handle judges the second one by
      the committed order, where its anchor is missing; the order left by the first would take it. */
  lemma PatchReadsCommitted(node: NodeId)
    ensures var first := SpliceChildren(node, None, [], [1], None);
      var second := SpliceChildren(node, Some(1), [], [2], None);
      && Accepted(map[], first) && !Accepted(map[], second)
      && Spliced(NewOrder(map[], first), second.before, second.removed, second.inserted, second.after)
        == Done([1, 2], 1, 1)
  {
    PositionOnly([1], 0);
  }

  /** Splicing one node twice never commits, even when each splice is accepted. */
  lemma RepeatedNodeFails(committed: Facts, calls: seq<Call>, i: nat, j: nat)
    requires AllAccepted(committed, calls) && i < j < |calls| && calls[i].node == calls[j].node
    ensures !KeysDistinct(AllOps(committed, calls))
  {
    RunCommitsIff(committed, calls);
  }

  // ------------------------------------------------------------------ what a committed run leaves

  /** After a committed run every touched node holds its new order with matching links. */
  lemma RunLeaves(committed: Facts, calls: seq<Call>, writes: Overlay, i: nat)
    requires AllAccepted(committed, calls) && Indexes(writes, AllOps(committed, calls))
    requires NodesDistinct(calls) && i < |calls| && Clean(committed, calls[i])
    requires var was := CommittedOrder(committed, calls[i].node);
      Distinct(was) && ChildrenAre(committed, map[], calls[i].node, was)
    ensures ChildrenAre(committed, writes, calls[i].node, NewOrder(committed, calls[i]))
    ensures Distinct(NewOrder(committed, calls[i]))
  {
    var call := calls[i];
    OrderAfter(committed, calls, writes, i);
    NewMembers(committed, call);
    forall c ensures Lookup(committed, writes, ChildLink(call.node, c)) == LinkFact(NewOrder(committed, call), c) {
      LinkAfter(committed, calls, writes, i, c);
    }
  }

  lemma OrderAfter(committed: Facts, calls: seq<Call>, writes: Overlay, i: nat)
    requires AllAccepted(committed, calls) && Indexes(writes, AllOps(committed, calls)) && i < |calls|
    ensures OrderOf(Lookup(committed, writes, ChildOrder(calls[i].node))) == NewOrder(committed, calls[i])
  {
    CallIndexed(committed, calls, writes, i);
    OpsMembers(committed, calls[i], 0);
  }

  /** The operations of each call are among the indexed writes. */
  lemma CallIndexed(committed: Facts, calls: seq<Call>, writes: Overlay, i: nat)
    requires AllAccepted(committed, calls) && Indexes(writes, AllOps(committed, calls)) && i < |calls|
    ensures forall op :: op in OpsOf(committed, calls[i]) ==> op.key in writes && writes[op.key] == op.value
  {
    forall op | op in OpsOf(committed, calls[i]) ensures op in AllOps(committed, calls) {
      CallOps(committed, calls, i, calls[i], op);
    }
  }

  lemma {:induction false} CallOps(committed: Facts, calls: seq<Call>, i: nat, call: Call, op: Op)
    requires AllAccepted(committed, calls) && i < |calls| && calls[i] == call
    requires Accepted(committed, call) && op in OpsOf(committed, call)
    ensures op in AllOps(committed, calls)
    decreases |calls|
  {
    var n := |calls| - 1;
    var front, last := calls[..n], calls[n];
    assert calls == front + [last];
    AllOpsSnoc(committed, front, last);
    if i < n { CallOps(committed, front, i, call, op); }
    InConcat(AllOps(committed, front), OpsOf(committed, last), op);
  }

  lemma InConcat(a: seq<Op>, b: seq<Op>, op: Op)
    requires op in a || op in b
    ensures op in a + b
  {
  }

  lemma OpsMembers(committed: Facts, call: Call, c: NodeId)
    requires Accepted(committed, call)
    ensures c in Published(call) ==> Op(ChildLink(call.node, c), Some(Link(c))) in OpsOf(committed, call)
    ensures c in Gone(committed, call) ==> Op(ChildLink(call.node, c), None) in OpsOf(committed, call)
    ensures Op(ChildOrder(call.node), Some(Order(NewOrder(committed, call)))) in OpsOf(committed, call)
  {
    var gone, added := Gone(committed, call), Published(call);
    var a, b := Retractions(call.node, gone), Additions(call.node, added);
    var m := Op(ChildOrder(call.node), Some(Order(NewOrder(committed, call))));
    if c in added {
      var j :| 0 <= j < |added| && added[j] == c;
      assert b[j] in b;
    }
    if c in gone {
      var j :| 0 <= j < |gone| && gone[j] == c;
      assert a[j] in a;
    }
    assert (a + [m] + b)[|a|] == m;
  }

  /** A key that only another node's calls could write is not written. */
  lemma LinkAfter(committed: Facts, calls: seq<Call>, writes: Overlay, i: nat, c: NodeId)
    requires AllAccepted(committed, calls) && Indexes(writes, AllOps(committed, calls))
    requires NodesDistinct(calls) && i < |calls| && Clean(committed, calls[i])
    requires ChildrenAre(committed, map[], calls[i].node, CommittedOrder(committed, calls[i].node))
    requires forall d :: d in NewOrder(committed, calls[i]) <==>
      d in Published(calls[i]) || (d in CommittedOrder(committed, calls[i].node) && d !in Gone(committed, calls[i]))
    ensures Lookup(committed, writes, ChildLink(calls[i].node, c)) == LinkFact(NewOrder(committed, calls[i]), c)
  {
    var call := calls[i];
    CallIndexed(committed, calls, writes, i);
    OpsMembers(committed, call, c);
    if c !in Published(call) && c !in Gone(committed, call) {
      NotWritten(committed, calls, writes, i, ChildLink(call.node, c));
      assert Lookup(committed, map[], ChildLink(call.node, c)) == LinkFact(CommittedOrder(committed, call.node), c);
    }
  }

  lemma NotWritten(committed: Facts, calls: seq<Call>, writes: Overlay, i: nat, k: TreeKey)
    requires AllAccepted(committed, calls) && Indexes(writes, AllOps(committed, calls))
    requires NodesDistinct(calls) && i < |calls| && k.ChildLink? && k.node == calls[i].node
    requires k.child !in Gone(committed, calls[i]) && k.child !in Published(calls[i])
    ensures k !in writes
  {
    if k in writes {
      RunKeys(committed, calls, k);
      var j :| 0 <= j < |calls| && Writes(committed, calls[j], k);
      SameNode(calls, i, j);
    }
  }

  lemma SameNode(calls: seq<Call>, i: nat, j: nat)
    requires NodesDistinct(calls) && i < |calls| && j < |calls| && calls[i].node == calls[j].node
    ensures i == j
  {
  }

  /** The members of the new order, and that it is duplicate-free. */
  lemma NewMembers(committed: Facts, call: Call)
    requires Accepted(committed, call) && Clean(committed, call) && Distinct(CommittedOrder(committed, call.node))
    ensures forall d :: d in NewOrder(committed, call) <==>
      d in Published(call) || (d in CommittedOrder(committed, call.node) && d !in Gone(committed, call))
    ensures Distinct(NewOrder(committed, call))
  {
    var base := CommittedOrder(committed, call.node);
    if call.SpliceChildren? {
      var r := Outcomes(committed, call);
      SplicedNeighbours(base, call.before, call.removed, call.inserted, call.after);
      MiddleApart(base[..r.start], call.removed, base[r.end..]);
      MembersSplit(base, r.start, r.end, call.removed, call.inserted);
      SplicedDistinct(base, call.before, call.removed, call.inserted, call.after);
    }
  }

  ghost predicate Touched(calls: seq<Call>, k: TreeKey) {
    exists i :: 0 <= i < |calls| && OfNode(k, calls[i].node)
  }

  /** Facts that belong to no touched node are what they were. */
  lemma OthersStay(committed: Facts, calls: seq<Call>, writes: Overlay, k: TreeKey)
    requires AllAccepted(committed, calls) && Indexes(writes, AllOps(committed, calls))
    requires !Touched(calls, k)
    ensures Lookup(committed, writes, k) == Lookup(committed, map[], k)
  {
    if k in writes {
      RunKeys(committed, calls, k);
    }
  }

  // ------------------------------------------------------------------ one invocation

  /** The committed facts under each touched node agree. */
  ghost predicate Sound(committed: Facts, calls: seq<Call>) {
    forall i :: 0 <= i < |calls| ==>
      var was := CommittedOrder(committed, calls[i].node);
      Distinct(was) && ChildrenAre(committed, map[], calls[i].node, was)
  }

  /** The node of a call has the published order, without repetition and with matching links. */
  ghost predicate Holds(committed: Facts, writes: Overlay, call: Call)
    requires Accepted(committed, call)
  {
    ChildrenAre(committed, writes, call.node, NewOrder(committed, call)) && Distinct(NewOrder(committed, call))
  }

  /** The first call that is not accepted, and what it complains about. */
  ghost predicate FailsAt(committed: Facts, calls: seq<Call>, k: int, error: PatchError) {
    0 <= k < |calls| && AllAccepted(committed, calls[..k]) && Complains(committed, calls[k], error)
  }

  /** An invocation that makes these patch calls and then freezes. */
  method Invoke(committed: Facts, calls: seq<Call>) returns (r: Result<Overlay, PatchError>)
    ensures r.Ok? <==> AllAccepted(committed, calls) && NodesDistinct(calls) && AllClean(committed, calls)
    ensures r.Err? && !AllAccepted(committed, calls) ==> exists k :: FailsAt(committed, calls, k, r.error)
    ensures r.Err? && AllAccepted(committed, calls) ==> r.error == DuplicatePatchKey
    ensures r.Ok? && Sound(committed, calls) ==>
      forall i :: 0 <= i < |calls| ==> Holds(committed, r.value, calls[i])
    ensures r.Ok? ==>
      forall k :: !Touched(calls, k) ==> Lookup(committed, r.value, k) == Lookup(committed, map[], k)
  {
    var patch := new TreePatch(committed);
    for n := 0 to |calls|
      invariant patch.committed == committed
      invariant AllAccepted(committed, calls[..n]) && patch.ops == AllOps(committed, calls[..n])
    {
      var error := patch.Take(calls[n]);
      if error.Some? {
        assert FailsAt(committed, calls, n, error.value);
        return Err(error.value);
      }
      AllOpsSnoc(committed, calls[..n], calls[n]);
      assert calls[..n + 1] == calls[..n] + [calls[n]];
    }
    assert calls[..|calls|] == calls;
    RunCommitsIff(committed, calls);
    r := patch.Freeze();
    if r.Ok? { Committed(committed, calls, r.value); }
  }

  lemma Committed(committed: Facts, calls: seq<Call>, writes: Overlay)
    requires AllAccepted(committed, calls) && Indexes(writes, AllOps(committed, calls))
    requires NodesDistinct(calls) && AllClean(committed, calls)
    ensures Sound(committed, calls) ==> forall i :: 0 <= i < |calls| ==> Holds(committed, writes, calls[i])
    ensures forall k :: !Touched(calls, k) ==> Lookup(committed, writes, k) == Lookup(committed, map[], k)
  {
    if Sound(committed, calls) {
      forall i | 0 <= i < |calls| ensures Holds(committed, writes, calls[i]) {
        RunLeaves(committed, calls, writes, i);
      }
    }
    forall k | !Touched(calls, k) ensures Lookup(committed, writes, k) == Lookup(committed, map[], k) {
      OthersStay(committed, calls, writes, k);
    }
  }
}
