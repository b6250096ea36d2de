/** Lookups by rank and by source byte, prefix metrics, and content comparison. */
module TapeLookup {
  import opened Wrappers
  import opened LeafOrder
  import opened TapeTree
  import opened TapeSplice

  // ------------------------------------------------------------------ metrics of a prefix

  function Min(a: nat, b: nat): nat {
    if a < b then a else b
  }

  /** `metric_before` on a present root. */
  function MetricBeforeNode(node: Node, rank: nat): Metric {
    match node
    case Leaf(_, _, entries, _) => Sum(entries[..Min(rank, |entries|)])
    case Branch(_, left, right, _, _, _, _, _) =>
      if rank <= left.Len() then MetricBeforeNode(left, rank)
      else Add(left.metric, MetricBeforeNode(right, rank - left.Len()))
  }

  function MetricBefore(tape: Tape, rank: nat): Metric {
    if tape.None? then ZERO else MetricBeforeNode(tape.value, Min(rank, tape.value.Len()))
  }

  lemma {:induction false} MetricBeforeNodeIs(node: Node, rank: nat)
    requires Valid(node) && rank <= node.Len()
    ensures node.Len() == |Entries(node)|
    ensures MetricBeforeNode(node, rank) == Sum(Entries(node)[..rank])
  {
    ValidFacts(node);
    if node.Branch? {
      var left, right := Entries(node.left), Entries(node.right);
      ValidFacts(node.left);
      if rank <= node.left.Len() {
        SliceLeft(left, right, rank);
        MetricBeforeNodeIs(node.left, rank);
      } else {
        var rest: nat := rank - node.left.Len();
        ValidFacts(node.right);
        SliceRight(left, right, rest);
        MetricBeforeNodeIs(node.right, rest);
        SumConcat(left, right[..rest]);
      }
    }
  }

  /** The cached descent aggregates exactly the entries before the clamped rank. */
  lemma MetricBeforeIs(tape: Tape, rank: nat)
    requires OValid(tape)
    ensures MetricBefore(tape, rank) == Sum(OEntries(tape)[..Min(rank, |OEntries(tape)|)])
  {
    if tape.Some? {
      ValidFacts(tape.value);
      MetricBeforeNodeIs(tape.value, Min(rank, tape.value.Len()));
    }
  }

  /** The three totals of a run of entries, each over its own field. */
  function Lexicals(entries: seq<Entry>): nat {
    if entries == [] then 0 else Lexicals(entries[..|entries| - 1]) + entries[|entries| - 1].metric.lexical
  }

  function Semantics(entries: seq<Entry>): nat {
    if entries == [] then 0 else Semantics(entries[..|entries| - 1]) + entries[|entries| - 1].metric.semantic
  }

  function ByteTotal(entries: seq<Entry>): nat {
    if entries == [] then 0 else ByteTotal(entries[..|entries| - 1]) + entries[|entries| - 1].metric.bytes
  }

  lemma {:induction false} SumFields(entries: seq<Entry>)
    ensures Sum(entries) == Metric(Lexicals(entries), Semantics(entries), ByteTotal(entries))
    decreases |entries|
  {
    if entries != [] {
      var front, last := entries[..|entries| - 1], entries[|entries| - 1];
      SumFields(front);
      SumConcat(front, [last]);
      assert [last][1..] == [];
      assert entries == front + [last];
    }
  }

  /** The descent adds up each field of the entries before the clamped rank. */
  lemma MetricBeforeFields(tape: Tape, rank: nat)
    requires OValid(tape)
    ensures var before := OEntries(tape)[..Min(rank, |OEntries(tape)|)];
      && MetricBefore(tape, rank).lexical == Lexicals(before)
      && MetricBefore(tape, rank).semantic == Semantics(before)
      && MetricBefore(tape, rank).bytes == ByteTotal(before)
  {
    MetricBeforeIs(tape, rank);
    SumFields(OEntries(tape)[..Min(rank, |OEntries(tape)|)]);
  }

  // ------------------------------------------------------------------ descending

  /** `node` holds the entries of `whole` from `rank` on. */
  predicate Holds(whole: seq<Entry>, rank: nat, node: Node) {
    rank + |Entries(node)| <= |whole| && whole[rank..rank + |Entries(node)|] == Entries(node)
  }

  lemma HoldsChildren(whole: seq<Entry>, rank: nat, node: Node)
    requires Holds(whole, rank, node) && node.Branch?
    ensures Holds(whole, rank, node.left)
    ensures Holds(whole, rank + |Entries(node.left)|, node.right)
  {
    var a, b := Entries(node.left), Entries(node.right);
    var n := |a|;
    assert whole[rank..rank + n] == (a + b)[..n] == a;
    assert whole[rank + n..rank + n + |b|] == (a + b)[n..] == b;
  }

  /** Entry `rank` of `whole` is entry `rest` of `node`. */
  predicate Within(whole: seq<Entry>, node: Node, rank: nat, rest: nat) {
    && Valid(node) && rest < |Entries(node)| && rank < |whole|
    && Entries(node)[rest] == whole[rank]
  }

  lemma WithinChild(whole: seq<Entry>, node: Node, rank: nat, rest: nat)
    requires Within(whole, node, rank, rest) && node.Branch?
    ensures rest < node.left.Len() ==> Within(whole, node.left, rank, rest)
    ensures rest >= node.left.Len() ==> Within(whole, node.right, rank, rest - node.left.Len())
  {
    ValidFacts(node.left);
  }

  /** `get` */
  method Get(tape: Tape, rank: nat) returns (entry: Option<Entry>)
    requires OValid(tape)
    ensures entry == if rank < |OEntries(tape)| then Some(OEntries(tape)[rank]) else None
  {
    LenIsEntries(tape);
    if rank >= OLen(tape) { return None; }
    var node := tape.value;
    var rest: nat := rank;
    while node.Branch?
      invariant Within(OEntries(tape), node, rank, rest)
      decreases node
    {
      WithinChild(OEntries(tape), node, rank, rest);
      if rest < node.left.Len() {
        node := node.left;
      } else {
        rest := rest - node.left.Len();
        node := node.right;
      }
    }
    return Some(node.entries[rest]);
  }

  // ------------------------------------------------------------------ bytes

  /** Source bytes taken by the first `n` entries. */
  function BytesBefore(entries: seq<Entry>, n: nat): nat
    requires n <= |entries|
  {
    Sum(entries[..n]).bytes
  }

  lemma BytesStep(entries: seq<Entry>, n: nat)
    requires n < |entries|
    ensures BytesBefore(entries, n + 1) == BytesBefore(entries, n) + entries[n].metric.bytes
  {
    assert entries[..n + 1] == entries[..n] + [entries[n]];
    SumConcat(entries[..n], [entries[n]]);
    assert Sum([entries[n]]) == Add(entries[n].metric, Sum([]));
  }

  lemma {:induction false} BytesGrow(entries: seq<Entry>, i: nat, j: nat)
    requires i <= j <= |entries|
    ensures BytesBefore(entries, i) <= BytesBefore(entries, j)
    decreases j
  {
    if i < j {
      BytesGrow(entries, i, j - 1);
      BytesStep(entries, j - 1);
    }
  }

  /** The source byte at which entry `i` ends. */
  function EndOf(entries: seq<Entry>, i: nat): nat
    requires i < |entries|
  {
    BytesBefore(entries, i + 1)
  }

  /** `r` is the first entry that ends after `byte`, or the length when none does. */
  predicate FirstEndingAfter(entries: seq<Entry>, byte: nat, r: nat) {
    && r <= |entries|
    && (forall i :: 0 <= i < r ==> EndOf(entries, i) <= byte)
    && (r < |entries| ==> byte < EndOf(entries, r))
  }

  /** That entry is unique, and every later entry ends after `byte` too. */
  lemma FirstEndingAfterUnique(entries: seq<Entry>, byte: nat, r: nat, k: nat)
    requires FirstEndingAfter(entries, byte, r) && k < |entries|
    ensures byte < EndOf(entries, k) <==> r <= k
  {
    if r <= k { BytesGrow(entries, r + 1, k + 1); }
  }

  lemma ReachedIsFirst(entries: seq<Entry>, byte: nat, r: nat)
    requires r <= |entries| && BytesBefore(entries, r) <= byte
    requires r < |entries| ==> byte < BytesBefore(entries, r + 1)
    ensures FirstEndingAfter(entries, byte, r)
  {
    forall i | 0 <= i < r ensures EndOf(entries, i) <= byte {
      BytesGrow(entries, i + 1, r);
    }
  }

  lemma HeldBytes(whole: seq<Entry>, rank: nat, node: Node, n: nat)
    requires Holds(whole, rank, node) && n <= |Entries(node)|
    ensures BytesBefore(whole, rank + n) == BytesBefore(whole, rank) + Sum(Entries(node)[..n]).bytes
  {
    assert whole[..rank + n] == whole[..rank] + Entries(node)[..n] by {
      assert whole[..rank + n] == whole[..rank] + whole[rank..rank + n];
      assert whole[rank..rank + n] == whole[rank..rank + |Entries(node)|][..n];
    }
    SumConcat(whole[..rank], Entries(node)[..n]);
  }

  lemma HeldAll(whole: seq<Entry>, rank: nat, node: Node)
    requires Holds(whole, rank, node) && Valid(node)
    ensures BytesBefore(whole, rank + |Entries(node)|) == BytesBefore(whole, rank) + node.metric.bytes
  {
    ValidFacts(node);
    HeldBytes(whole, rank, node, |Entries(node)|);
    assert Entries(node)[..|Entries(node)|] == Entries(node);
  }

  /** The descent stands at `node`, and the wanted entry is in it or there is none. */
  predicate Narrowed(whole: seq<Entry>, byte: nat, node: Node, rank: nat, remaining: nat) {
    && Valid(node) && Holds(whole, rank, node)
    && BytesBefore(whole, rank) + remaining == byte
    && (remaining < node.metric.bytes || rank + |Entries(node)| == |whole|)
  }

  lemma NarrowedChild(whole: seq<Entry>, byte: nat, node: Node, rank: nat, remaining: nat)
    requires Narrowed(whole, byte, node, rank, remaining) && node.Branch?
    ensures remaining < node.left.metric.bytes ==> Narrowed(whole, byte, node.left, rank, remaining)
    ensures remaining >= node.left.metric.bytes ==>
      Narrowed(whole, byte, node.right, rank + node.left.Len(), remaining - node.left.metric.bytes)
  {
    ValidFacts(node.left);
    HoldsChildren(whole, rank, node);
    HeldAll(whole, rank, node.left);
  }

  lemma NarrowedRoot(node: Node, byte: nat)
    requires Valid(node)
    ensures Narrowed(Entries(node), byte, node, 0, byte)
  {
    assert Entries(node)[..0] == [] && Entries(node)[0..0 + |Entries(node)|] == Entries(node);
  }

  /** `lexical_rank_at_byte_detailed`: the rank and the number of nodes visited. */
  method LexicalRankAtByte(tape: Tape, byte: nat) returns (rank: nat, depth: nat)
    requires OValid(tape)
    ensures FirstEndingAfter(OEntries(tape), byte, rank)
    ensures depth <= if tape.Some? then tape.value.Height() else 0
  {
    rank, depth := 0, 0;
    var remaining: nat := byte;
    if tape.None? { return; }
    var node := tape.value;
    NarrowedRoot(node, byte);
    ghost var whole := Entries(node);
    while node.Branch?
      invariant Narrowed(whole, byte, node, rank, remaining)
      invariant depth + node.Height() <= tape.value.Height()
      decreases node
    {
      depth := depth + 1;
      NarrowedChild(whole, byte, node, rank, remaining);
      if remaining < node.left.metric.bytes {
        node := node.left;
      } else {
        remaining := remaining - node.left.metric.bytes;
        rank := rank + node.left.Len();
        node := node.right;
      }
    }
    depth := depth + 1;
    rank := ScanLeaf(whole, byte, node, rank, remaining);
  }

  /** The scan of the reached leaf, entry by entry. */
  method ScanLeaf(ghost whole: seq<Entry>, ghost byte: nat, leaf: Node, base: nat, bytes: nat)
    returns (rank: nat)
    requires leaf.Leaf? && Narrowed(whole, byte, leaf, base, bytes)
    ensures FirstEndingAfter(whole, byte, rank)
  {
    rank := base;
    var remaining: nat := bytes;
    HeldAll(whole, base, leaf);
    while rank < base + |leaf.entries|
      invariant base <= rank <= base + |leaf.entries|
      invariant BytesBefore(whole, rank) + remaining == byte
    {
      var width := leaf.entries[rank - base].metric.bytes;
      assert whole[base..base + |leaf.entries|][rank - base] == whole[rank];
      BytesStep(whole, rank);
      if remaining < width {
        ReachedIsFirst(whole, byte, rank);
        return;
      }
      remaining := remaining - width;
      rank := rank + 1;
    }
    ReachedIsFirst(whole, byte, rank);
  }

  // ------------------------------------------------------------------ content comparison

  /** `exact_eq` below two present roots. */
  predicate NodesEqual(a: Node, b: Node) {
    if a.Len() != b.Len() || a.metric != b.metric then false
    else if a.Leaf? && b.Leaf? then a.entries == b.entries
    else if a.Branch? && b.Branch? then NodesEqual(a.left, b.left) && NodesEqual(a.right, b.right)
    else Entries(a) == Entries(b)
  }

  predicate ExactEq(a: Tape, b: Tape) {
    (a.None? && b.None?) || (a.Some? && b.Some? && NodesEqual(a.value, b.value))
  }

  /** Wherever both trees branch, they branch at the same rank. */
  predicate SplitAlike(a: Node, b: Node) {
    a.Branch? && b.Branch? ==>
      |Entries(a.left)| == |Entries(b.left)| && SplitAlike(a.left, b.left) && SplitAlike(a.right, b.right)
  }

  lemma {:induction false} NodesEqualIff(a: Node, b: Node)
    requires Valid(a) && Valid(b)
    ensures NodesEqual(a, b) <==> Entries(a) == Entries(b) && SplitAlike(a, b)
  {
    ValidFacts(a);
    ValidFacts(b);
    if a.Branch? && b.Branch? {
      NodesEqualIff(a.left, b.left);
      NodesEqualIff(a.right, b.right);
      ValidFacts(a.left);
      ValidFacts(b.left);
      if Entries(a) == Entries(b) && |Entries(a.left)| == |Entries(b.left)| {
        assert Entries(a)[..|Entries(a.left)|] == Entries(a.left);
        assert Entries(b)[..|Entries(b.left)|] == Entries(b.left);
        assert Entries(a)[|Entries(a.left)|..] == Entries(a.right);
        assert Entries(b)[|Entries(b.left)|..] == Entries(b.right);
      }
    }
  }

  /** Equal tapes hold equal sequences; equal sequences compare equal exactly when the two
      trees also branch alike. */
  lemma ExactEqIff(a: Tape, b: Tape)
    requires OValid(a) && OValid(b)
    ensures ExactEq(a, b) <==>
      OEntries(a) == OEntries(b) && (a.Some? && b.Some? ==> SplitAlike(a.value, b.value))
  {
    if a.Some? { ValidFacts(a.value); }
    if b.Some? { ValidFacts(b.value); }
    if a.Some? && b.Some? { NodesEqualIff(a.value, b.value); }
  }
}
