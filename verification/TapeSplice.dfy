/** Building, splitting, concatenating and splicing whole tapes.

    A tape is an optional root.  Every operation takes and returns the allocator's next id. */
module TapeSplice {
  import opened Wrappers
  import opened LeafOrder
  import opened TapeTree
  import opened TapeBalance

  type Tape = Option<Node>

  // ------------------------------------------------------------------ build_balanced

  /** Consecutive valid trees in label order. */
  ghost predicate Chain(nodes: seq<Node>) {
    && (forall i :: 0 <= i < |nodes| ==> Valid(nodes[i]))
    && (forall i, j :: 0 <= i < j < |nodes| && j == i + 1 ==> Before(nodes[i].Last(), nodes[j].First()))
  }

  datatype Level = Level(nodes: seq<Node>, next: nat)

  /** One round of pairing; an odd last node is carried over. */
  function PairLevel(nodes: seq<Node>, next: nat): (r: Level)
    requires Chain(nodes)
    ensures Chain(r.nodes) && |r.nodes| == (|nodes| + 1) / 2 && r.next >= next
    ensures nodes != [] ==> r.nodes[0].First() == nodes[0].First()
  {
    if |nodes| <= 1 then Level(nodes, next)
    else
      var pair := MakeBranch(nodes[0], nodes[1], next);
      var rest := PairLevel(nodes[2..], pair.next);
      Level([pair.node] + rest.nodes, rest.next)
  }

  function BuildBalanced(nodes: seq<Node>, next: nat): (r: Made)
    requires Chain(nodes) && nodes != []
    ensures Valid(r.node) && r.next >= next
    decreases |nodes|
  {
    if |nodes| == 1 then Made(nodes[0], next)
    else
      var level := PairLevel(nodes, next);
      BuildBalanced(level.nodes, level.next)
  }

  function LeavesOf(nodes: seq<Node>): seq<Node> {
    if nodes == [] then [] else Leaves(nodes[0]) + LeavesOf(nodes[1..])
  }

  lemma {:induction false} PairLevelLeaves(nodes: seq<Node>, next: nat)
    requires Chain(nodes)
    ensures LeavesOf(PairLevel(nodes, next).nodes) == LeavesOf(nodes)
  {
    if |nodes| > 1 {
      var pair := MakeBranch(nodes[0], nodes[1], next);
      var rest := PairLevel(nodes[2..], pair.next);
      PairLevelLeaves(nodes[2..], pair.next);
      assert ([pair.node] + rest.nodes)[1..] == rest.nodes;
      assert nodes[1..][1..] == nodes[2..];
      Associate(Leaves(nodes[0]), Leaves(nodes[1]), LeavesOf(nodes[2..]));
    }
  }

  lemma {:induction false} BuildBalancedLeaves(nodes: seq<Node>, next: nat)
    requires Chain(nodes) && nodes != []
    ensures Leaves(BuildBalanced(nodes, next).node) == LeavesOf(nodes)
    decreases |nodes|
  {
    if |nodes| == 1 {
      assert LeavesOf(nodes[1..]) == [];
    } else {
      PairLevelLeaves(nodes, next);
      var level := PairLevel(nodes, next);
      BuildBalancedLeaves(level.nodes, level.next);
    }
  }

  /** After every round: perfect trees of one height, then a last leaning one no taller. */
  predicate Row(nodes: seq<Node>, h: nat) {
    && (forall i :: 0 <= i < |nodes| - 1 ==> Perfect(nodes[i]) && nodes[i].Height() == h)
    && (nodes != [] ==> Leaning(nodes[|nodes| - 1]) && nodes[|nodes| - 1].Height() <= h)
  }

  lemma {:induction false} PairLevelRow(nodes: seq<Node>, next: nat, h: nat)
    requires Chain(nodes) && Row(nodes, h)
    ensures Row(PairLevel(nodes, next).nodes, h + 1)
  {
    if |nodes| > 1 {
      var pair := MakeBranch(nodes[0], nodes[1], next);
      RowTail(nodes, h);
      PairLevelRow(nodes[2..], pair.next, h);
      PairedRow(pair.node, nodes, h);
      RowCons(pair.node, PairLevel(nodes[2..], pair.next).nodes, h + 1);
    }
  }

  lemma RowTail(nodes: seq<Node>, h: nat)
    requires |nodes| > 1 && Row(nodes, h)
    ensures Row(nodes[2..], h)
  {
    if |nodes| > 2 { assert nodes[2..][|nodes| - 3] == nodes[|nodes| - 1]; }
  }

  lemma PairedRow(pair: Node, nodes: seq<Node>, h: nat)
    requires |nodes| > 1 && Row(nodes, h) && Over(pair, nodes[0], nodes[1])
    ensures pair.Height() == h + 1
    ensures |nodes| > 2 ==> Perfect(pair)
    ensures |nodes| == 2 ==> Leaning(pair)
  {
    assert Perfect(nodes[0]) && nodes[0].Height() == h;
    PerfectBalanced(nodes[0]);
    if |nodes| > 2 { assert Perfect(nodes[1]) && nodes[1].Height() == h; }
  }

  lemma RowCons(first: Node, rest: seq<Node>, h: nat)
    requires first.Height() == h && Row(rest, h)
    requires if rest == [] then Leaning(first) else Perfect(first)
    ensures Row([first] + rest, h)
  {
    var all := [first] + rest;
    if rest != [] { assert all[|all| - 1] == rest[|rest| - 1]; }
    forall i | 0 <= i < |all| - 1 ensures Perfect(all[i]) && all[i].Height() == h {
      if i > 0 { assert all[i] == rest[i - 1]; }
    }
  }

  /** `build_balanced` of any number of leaves leans. */
  lemma {:induction false} BuildBalancedLeaning(nodes: seq<Node>, next: nat, h: nat)
    requires Chain(nodes) && nodes != [] && Row(nodes, h)
    ensures Leaning(BuildBalanced(nodes, next).node)
    decreases |nodes|
  {
    if |nodes| > 1 {
      PairLevelRow(nodes, next, h);
      var level := PairLevel(nodes, next);
      BuildBalancedLeaning(level.nodes, level.next, h + 1);
    }
  }

  /** Up to four leaves it is balanced, and up to two leaves at most two levels high. */
  lemma BuildBalancedSmall(nodes: seq<Node>, next: nat)
    requires Chain(nodes) && 0 < |nodes| <= 4
    requires forall i :: 0 <= i < |nodes| ==> nodes[i].Leaf?
    ensures Balanced(BuildBalanced(nodes, next).node)
    ensures |nodes| <= 2 ==> BuildBalanced(nodes, next).node.Height() <= 2
  {
    if |nodes| > 1 {
      var level := PairLevel(nodes, next);
      PairSmall(nodes, next);
      if |nodes| > 2 {
        var top := PairLevel(level.nodes, level.next);
        PairSmall(level.nodes, level.next);
        assert BuildBalanced(nodes, next) == BuildBalanced(level.nodes, level.next);
        assert BuildBalanced(level.nodes, level.next) == BuildBalanced(top.nodes, top.next);
      } else {
        assert BuildBalanced(nodes, next).node == level.nodes[0];
      }
    }
  }

  lemma PairSmall(nodes: seq<Node>, next: nat)
    requires Chain(nodes) && 2 <= |nodes| <= 4
    ensures var level := PairLevel(nodes, next);
      var pair := MakeBranch(nodes[0], nodes[1], next);
      && |level.nodes| == (|nodes| + 1) / 2 && level.nodes[0] == pair.node
      && (|nodes| == 3 ==> level.nodes[1] == nodes[2])
      && (|nodes| == 4 ==> level.nodes[1] == MakeBranch(nodes[2], nodes[3], pair.next).node)
  {
    var pair := MakeBranch(nodes[0], nodes[1], next);
    var rest := nodes[2..];
    var level := PairLevel(rest, pair.next);
    assert PairLevel(nodes, next).nodes == [pair.node] + level.nodes;
    if |nodes| == 3 {
      assert level.nodes == rest;
    } else if |nodes| == 4 {
      assert level.nodes[0] == MakeBranch(rest[0], rest[1], pair.next).node;
    }
  }

  // ------------------------------------------------------------------ leaves from entries

  /** `chunks(LEAF_MAX)` */
  function Chunks(entries: seq<Entry>): (chunks: seq<seq<Entry>>)
    ensures forall i :: 0 <= i < |chunks| ==> 0 < |chunks[i]| <= LEAF_MAX
    ensures entries != [] ==> chunks != []
  {
    if entries == [] then []
    else if |entries| <= LEAF_MAX then [entries]
    else [entries[..LEAF_MAX]] + Chunks(entries[LEAF_MAX..])
  }

  lemma {:induction false} ChunkCount(entries: seq<Entry>)
    ensures |Chunks(entries)| == (|entries| + LEAF_MAX - 1) / LEAF_MAX
  {
    if |entries| > LEAF_MAX {
      ChunkCount(entries[LEAF_MAX..]);
    }
  }

  /** The initial leaves: equally spaced labels. */
  function InitialLeaves(chunks: seq<seq<Entry>>, ordinal: nat, total: nat, next: nat): (r: Level)
    requires ordinal + |chunks| == total
    requires forall i :: 0 <= i < |chunks| ==> 0 < |chunks[i]| <= LEAF_MAX
    ensures |r.nodes| == |chunks| && r.next == next + |chunks|
  {
    if chunks == [] then Level([], next)
    else
      var leaf := MakeLeaf(chunks[0], Initial(ordinal, total), next);
      var rest := InitialLeaves(chunks[1..], ordinal + 1, total, leaf.next);
      Level([leaf.node] + rest.nodes, rest.next)
  }

  predicate LeafOf(node: Node, chunk: seq<Entry>, order: Key, id: nat) {
    node.Leaf? && Valid(node) && node.entries == chunk && node.order == order && node.id == id
  }

  lemma {:induction false} InitialLeafAt(chunks: seq<seq<Entry>>, ordinal: nat, total: nat, next: nat, i: nat)
    requires ordinal + |chunks| == total && i < |chunks|
    requires forall i :: 0 <= i < |chunks| ==> 0 < |chunks[i]| <= LEAF_MAX
    ensures LeafOf(InitialLeaves(chunks, ordinal, total, next).nodes[i], chunks[i], Initial(ordinal + i, total),
      next + i)
  {
    if i > 0 {
      InitialLeafAt(chunks[1..], ordinal + 1, total, next + 1, i - 1);
    }
  }

  lemma InitialLeavesAre(chunks: seq<seq<Entry>>, next: nat)
    requires forall i :: 0 <= i < |chunks| ==> 0 < |chunks[i]| <= LEAF_MAX
    ensures forall i :: 0 <= i < |chunks| ==>
      LeafOf(InitialLeaves(chunks, 0, |chunks|, next).nodes[i], chunks[i], Initial(i, |chunks|), next + i)
  {
    forall i | 0 <= i < |chunks|
      ensures LeafOf(InitialLeaves(chunks, 0, |chunks|, next).nodes[i], chunks[i], Initial(i, |chunks|), next + i)
    {
      InitialLeafAt(chunks, 0, |chunks|, next, i);
    }
  }

  lemma InitialLeavesChain(chunks: seq<seq<Entry>>, next: nat)
    requires forall i :: 0 <= i < |chunks| ==> 0 < |chunks[i]| <= LEAF_MAX
    ensures Chain(InitialLeaves(chunks, 0, |chunks|, next).nodes)
    ensures forall i :: 0 <= i < |chunks| ==>
      LeafOf(InitialLeaves(chunks, 0, |chunks|, next).nodes[i], chunks[i], Initial(i, |chunks|), next + i)
  {
    InitialLeavesAre(chunks, next);
    var nodes := InitialLeaves(chunks, 0, |chunks|, next).nodes;
    forall i, j | 0 <= i && j == i + 1 && j < |nodes| ensures Before(nodes[i].Last(), nodes[j].First()) {
      InitialOrdered(i, j, |chunks|);
    }
  }

  /** `from_entries` */
  function FromEntries(entries: seq<Entry>, next: nat): (r: OMade)
    ensures OValid(r.root) && r.next >= next
    ensures entries == [] <==> r.root == None
  {
    if entries == [] then OMade(None, next)
    else
      var chunks := Chunks(entries);
      var leaves := InitialLeaves(chunks, 0, |chunks|, next);
      InitialLeavesChain(chunks, next);
      var built := BuildBalanced(leaves.nodes, leaves.next);
      OMade(Some(built.node), built.next)
  }

  /** The relabelled leaves: each label between the previous one and `upper`. */
  function RekeyedLeaves(chunks: seq<seq<Entry>>, previous: Option<Key>, upper: Option<Key>, next: nat): (r: Level)
    requires Ordered(previous, upper)
    requires forall i :: 0 <= i < |chunks| ==> 0 < |chunks[i]| <= LEAF_MAX
    ensures |r.nodes| == |chunks| && r.next == next + |chunks| && Chain(r.nodes)
    ensures AllLeaves(r.nodes)
    ensures chunks != [] && previous.Some? ==> Before(previous.value, r.nodes[0].order)
    ensures chunks != [] && upper.Some? ==> Before(r.nodes[|chunks| - 1].order, upper.value)
  {
    if chunks == [] then Level([], next)
    else
      var order := Between(previous, upper);
      var leaf := MakeLeaf(chunks[0], order, next);
      var rest := RekeyedLeaves(chunks[1..], Some(order), upper, leaf.next);
      ChainCons(leaf.node, rest.nodes);
      Level([leaf.node] + rest.nodes, rest.next)
  }

  lemma ChainCons(leaf: Node, rest: seq<Node>)
    requires leaf.Leaf? && Valid(leaf) && Chain(rest) && AllLeaves(rest)
    requires rest != [] ==> Before(leaf.order, rest[0].order)
    ensures Chain([leaf] + rest) && AllLeaves([leaf] + rest)
  {
    var all := [leaf] + rest;
    forall i, j | 0 <= i && j == i + 1 && j < |all| ensures Before(all[i].Last(), all[j].First()) {
      if i > 0 { assert all[i] == rest[i - 1] && all[j] == rest[j - 1]; }
    }
  }

  lemma {:induction false} RekeyedLeavesHold(chunks: seq<seq<Entry>>, previous: Option<Key>, upper: Option<Key>,
                                             next: nat)
    requires Ordered(previous, upper)
    requires forall i :: 0 <= i < |chunks| ==> 0 < |chunks[i]| <= LEAF_MAX
    ensures var nodes := RekeyedLeaves(chunks, previous, upper, next).nodes;
      forall i :: 0 <= i < |chunks| ==>
        nodes[i].Leaf? && nodes[i].entries == chunks[i] && nodes[i].id == next + i
  {
    forall i | 0 <= i < |chunks|
      ensures var node := RekeyedLeaves(chunks, previous, upper, next).nodes[i];
        node.Leaf? && node.entries == chunks[i] && node.id == next + i
    {
      RekeyedLeafAt(chunks, previous, upper, next, i);
    }
  }

  lemma {:induction false} RekeyedLeafAt(chunks: seq<seq<Entry>>, previous: Option<Key>, upper: Option<Key>,
                                         next: nat, i: nat)
    requires Ordered(previous, upper) && i < |chunks|
    requires forall i :: 0 <= i < |chunks| ==> 0 < |chunks[i]| <= LEAF_MAX
    ensures var node := RekeyedLeaves(chunks, previous, upper, next).nodes[i];
      node.Leaf? && node.entries == chunks[i] && node.id == next + i
  {
    if i > 0 {
      RekeyedLeafAt(chunks[1..], Some(Between(previous, upper)), upper, next + 1, i - 1);
    }
  }

  predicate Fits(tape: Tape, lower: Option<Key>, upper: Option<Key>) {
    tape.Some? ==>
      && (lower.Some? ==> Before(lower.value, tape.value.First()))
      && (upper.Some? ==> Before(tape.value.Last(), upper.value))
  }

  /** `rekey_between`: keeps a tape that already fits, otherwise rebuilds it from its entries. */
  function RekeyBetween(tape: Tape, lower: Option<Key>, upper: Option<Key>, next: nat): (r: OMade)
    requires OValid(tape) && Ordered(lower, upper)
    ensures OValid(r.root) && Fits(r.root, lower, upper) && r.next >= next
    ensures r.root.None? <==> tape.None?
  {
    if Fits(tape, lower, upper) then OMade(tape, next)
    else
      ValidFacts(tape.value);
      var leaves := RekeyedLeaves(Chunks(Entries(tape.value)), lower, upper, next);
      var built := BuildBalanced(leaves.nodes, leaves.next);
      BuiltEnds(leaves.nodes, leaves.next);
      OMade(Some(built.node), built.next)
  }

  lemma {:induction false} BuiltEnds(nodes: seq<Node>, next: nat)
    requires Chain(nodes) && nodes != []
    ensures BuildBalanced(nodes, next).node.First() == nodes[0].First()
    ensures BuildBalanced(nodes, next).node.Last() == nodes[|nodes| - 1].Last()
    decreases |nodes|
  {
    if |nodes| > 1 {
      PairLast(nodes, next);
      var level := PairLevel(nodes, next);
      BuiltEnds(level.nodes, level.next);
    }
  }

  lemma {:induction false} PairLast(nodes: seq<Node>, next: nat)
    requires Chain(nodes) && nodes != []
    ensures var level := PairLevel(nodes, next).nodes;
      level[|level| - 1].Last() == nodes[|nodes| - 1].Last()
  {
    if |nodes| > 2 {
      PairLast(nodes[2..], MakeBranch(nodes[0], nodes[1], next).next);
    }
  }

  // ------------------------------------------------------------------ the denoted sequence

  function Join2(chunks: seq<seq<Entry>>): seq<Entry> {
    if chunks == [] then [] else chunks[0] + Join2(chunks[1..])
  }

  lemma {:induction false} ChunksDenote(entries: seq<Entry>)
    ensures Join2(Chunks(entries)) == entries
  {
    if |entries| > LEAF_MAX {
      ChunksDenote(entries[LEAF_MAX..]);
      assert ([entries[..LEAF_MAX]] + Chunks(entries[LEAF_MAX..]))[1..] == Chunks(entries[LEAF_MAX..]);
    } else if entries != [] {
      assert Join2([entries][1..]) == [];
    }
  }

  lemma {:induction false} LeafRunDenotes(nodes: seq<Node>, chunks: seq<seq<Entry>>)
    requires |nodes| == |chunks|
    requires forall i :: 0 <= i < |chunks| ==> nodes[i].Leaf? && nodes[i].entries == chunks[i]
    ensures LeavesOf(nodes) == nodes && AllLeaves(nodes) && Flatten(nodes) == Join2(chunks)
  {
    if nodes != [] {
      LeafRunDenotes(nodes[1..], chunks[1..]);
      assert nodes == [nodes[0]] + nodes[1..];
    }
  }

  lemma BuiltDenotes(nodes: seq<Node>, entries: seq<Entry>, next: nat)
    requires Chain(nodes) && nodes != [] && |nodes| == |Chunks(entries)|
    requires forall i :: 0 <= i < |nodes| ==> nodes[i].Leaf? && nodes[i].entries == Chunks(entries)[i]
    ensures Leaves(BuildBalanced(nodes, next).node) == nodes
    ensures Entries(BuildBalanced(nodes, next).node) == entries
  {
    BuildBalancedLeaves(nodes, next);
    LeafRunDenotes(nodes, Chunks(entries));
    EntriesOfLeaves(BuildBalanced(nodes, next).node);
    ChunksDenote(entries);
  }

  lemma LeafRow(nodes: seq<Node>)
    requires forall i :: 0 <= i < |nodes| ==> nodes[i].Leaf?
    ensures Row(nodes, 1)
  {
  }

  /** `from_entries` holds exactly its input; it always leans, and small tapes are balanced. */
  lemma FromEntriesDenotes(entries: seq<Entry>, next: nat)
    ensures OEntries(FromEntries(entries, next).root) == entries
    ensures OLeaning(FromEntries(entries, next).root)
    ensures |entries| <= 4 * LEAF_MAX ==> OBalanced(FromEntries(entries, next).root)
    ensures 0 < |entries| <= 2 * LEAF_MAX ==> FromEntries(entries, next).root.value.Height() <= 2
  {
    if entries != [] {
      var chunks := Chunks(entries);
      var leaves := InitialLeaves(chunks, 0, |chunks|, next);
      InitialLeavesChain(chunks, next);
      BuiltDenotes(leaves.nodes, entries, leaves.next);
      LeafRow(leaves.nodes);
      BuildBalancedLeaning(leaves.nodes, leaves.next, 1);
      ChunkCount(entries);
      if |entries| <= 4 * LEAF_MAX {
        BuildBalancedSmall(leaves.nodes, leaves.next);
      }
    }
  }

  /** Relabelling keeps the sequence, and keeps small tapes balanced and short. */
  lemma RekeyDenotes(tape: Tape, lower: Option<Key>, upper: Option<Key>, next: nat)
    requires OValid(tape) && Ordered(lower, upper)
    ensures OEntries(RekeyBetween(tape, lower, upper, next).root) == OEntries(tape)
    ensures OBalanced(tape) && |OEntries(tape)| <= 4 * LEAF_MAX
        ==> OBalanced(RekeyBetween(tape, lower, upper, next).root)
    ensures OShort(tape) && |OEntries(tape)| <= 2 * LEAF_MAX
        ==> OShort(RekeyBetween(tape, lower, upper, next).root)
  {
    if !Fits(tape, lower, upper) {
      ValidFacts(tape.value);
      var entries := Entries(tape.value);
      var leaves := RekeyedLeaves(Chunks(entries), lower, upper, next);
      RekeyedLeavesHold(Chunks(entries), lower, upper, next);
      BuiltDenotes(leaves.nodes, entries, leaves.next);
      ChunkCount(entries);
      if |entries| <= 4 * LEAF_MAX {
        BuildBalancedSmall(leaves.nodes, leaves.next);
      }
    }
  }

  predicate OShort(tape: Tape) {
    tape.Some? ==> tape.value.Height() <= 2
  }

  // ------------------------------------------------------------------ tape operations

  /** `split_at` */
  function SplitAt(tape: Tape, rank: nat, next: nat): (cut: Cut)
    requires OValid(tape)
    ensures OAdjacent(cut.prefix, cut.suffix) && cut.next >= next
  {
    if tape.None? then Cut(None, None, next)
    else
      var clamped := if rank < tape.value.Len() then rank else tape.value.Len();
      Split(tape.value, clamped, None, next)
  }

  /** `concat` */
  function ConcatTapes(left: Tape, right: Tape, next: nat): (r: OMade)
    requires OValid(left) && OValid(right)
    ensures OValid(r.root) && r.next >= next
  {
    LastValid(left);
    var fitted := RekeyBetween(right, OLast(left), None, next);
    Concat(left, fitted.root, fitted.next)
  }

  lemma LastValid(tape: Tape)
    requires OValid(tape)
    ensures Ordered(OLast(tape), None) && Ordered(None, OFirst(tape))
  {
    if tape.Some? { LabelsValid(tape.value); }
  }

  /** The clamped bounds every range operation starts with. */
  function ClampStart(len: nat, start: nat): nat {
    if start < len then start else len
  }

  function ClampEnd(len: nat, start: nat, end: nat): (e: nat)
    ensures ClampStart(len, start) <= e <= len
  {
    var e := if end < len then end else len;
    if e < ClampStart(len, start) then ClampStart(len, start) else e
  }

  /** The two cuts of one splice. */
  datatype Cuts = Cuts(prefix: Tape, remainder: Tape, suffix: Tape, middle: nat, next: nat)

  function SpliceCuts(tape: Tape, start: nat, end: nat, next: nat): (c: Cuts)
    requires OValid(tape) && start <= end
    ensures OAdjacent(c.prefix, c.suffix) && OValid(c.remainder)
    ensures c.middle >= next && c.next >= c.middle
  {
    var first := SplitAt(tape, start, next);
    var second := SplitAt(first.suffix, Span(start, end), first.next);
    SuffixStaysAfter(first, Span(start, end));
    Cuts(first.prefix, first.suffix, second.suffix, first.next, second.next)
  }

  lemma EndsOrdered(prefix: Tape, suffix: Tape)
    requires OAdjacent(prefix, suffix)
    ensures Ordered(OLast(prefix), OFirst(suffix))
  {
    LastValid(prefix);
    LastValid(suffix);
  }

  /** The replacement as it will sit between the two retained parts. */
  function Fitted(cuts: Cuts, replacement: Tape): (r: OMade)
    requires OAdjacent(cuts.prefix, cuts.suffix) && OValid(replacement)
    ensures OValid(r.root) && Fits(r.root, OLast(cuts.prefix), OFirst(cuts.suffix))
    ensures r.next >= cuts.next
  {
    EndsOrdered(cuts.prefix, cuts.suffix);
    RekeyBetween(replacement, OLast(cuts.prefix), OFirst(cuts.suffix), cuts.next)
  }

  /** `splice` between bounds that are already clamped. */
  function SpliceAt(tape: Tape, start: nat, end: nat, replacement: Tape, next: nat): (r: OMade)
    requires OValid(tape) && OValid(replacement) && start <= end
    ensures OValid(r.root) && r.next >= next
  {
    var cuts := SpliceCuts(tape, start, end, next);
    var fitted := Fitted(cuts, replacement);
    var head := ConcatTapes(cuts.prefix, fitted.root, fitted.next);
    ConcatTapes(head.root, cuts.suffix, head.next)
  }

  /** `splice` */
  function Splice(tape: Tape, start: nat, end: nat, replacement: Tape, next: nat): (r: OMade)
    requires OValid(tape) && OValid(replacement)
    ensures OValid(r.root) && r.next >= next
  {
    SpliceAt(tape, ClampStart(OLen(tape), start), ClampEnd(OLen(tape), start, end), replacement, next)
  }

  /** The suffix of the second split still lies after the prefix of the first. */
  lemma SuffixStaysAfter(first: Cut, rank: nat)
    requires OAdjacent(first.prefix, first.suffix)
    ensures OAdjacent(first.prefix, SplitAt(first.suffix, rank, first.next).suffix)
  {
    if first.prefix.Some? && first.suffix.Some? {
      var node := first.suffix.value;
      ValidFacts(node);
      var clamped := if rank < node.Len() then rank else node.Len();
      var second := Split(node, clamped, None, first.next);
      if second.suffix.Some? && second.prefix.Some? {
        ValidFacts(second.prefix.value);
        AtMostBefore(node.First(), second.prefix.value.Last(), second.suffix.value.First());
        BeforeTransitive(first.prefix.value.Last(), node.First(), second.suffix.value.First());
      }
    }
  }

  lemma SplitAtEntries(tape: Tape, rank: nat, next: nat)
    requires OValid(tape) && rank <= |OEntries(tape)|
    ensures OEntries(SplitAt(tape, rank, next).prefix) == OEntries(tape)[..rank]
    ensures OEntries(SplitAt(tape, rank, next).suffix) == OEntries(tape)[rank..]
  {
    if tape.Some? {
      ValidFacts(tape.value);
      SplitEntries(tape.value, rank, None, next);
    }
  }

  lemma LenIsEntries(tape: Tape)
    requires OValid(tape)
    ensures OLen(tape) == |OEntries(tape)|
  {
    if tape.Some? { ValidFacts(tape.value); }
  }

  lemma HeadBeforeSuffix(prefix: Tape, fitted: Tape, suffix: Tape, head: Tape)
    requires OAdjacent(prefix, suffix) && OValid(fitted) && OValid(head)
    requires Fits(fitted, OLast(prefix), OFirst(suffix))
    requires fitted.None? ==> head == prefix
    requires fitted.Some? ==> head.Some? && AtMost(head.value.Last(), fitted.value.Last())
    ensures OAdjacent(head, suffix)
  {
    if fitted.Some? && suffix.Some? {
      AtMostBefore(head.value.Last(), fitted.value.Last(), suffix.value.First());
    }
  }

  lemma ConcatFitting(left: Tape, right: Tape, next: nat)
    requires OAdjacent(left, right)
    ensures ConcatTapes(left, right, next) == Concat(left, right, next)
  {
    LastValid(left);
    assert Fits(right, OLast(left), None);
  }

  /** Both final concatenations take the fits branch: nothing retained is ever relabelled. */
  lemma SpliceNeverRelabels(tape: Tape, start: nat, end: nat, replacement: Tape, next: nat)
    requires OValid(tape) && OValid(replacement)
    requires start <= end
    ensures var cuts := SpliceCuts(tape, start, end, next);
      var fitted := Fitted(cuts, replacement);
      && OAdjacent(cuts.prefix, fitted.root)
      && var head := Concat(cuts.prefix, fitted.root, fitted.next);
         && OAdjacent(head.root, cuts.suffix)
         && SpliceAt(tape, start, end, replacement, next) == Concat(head.root, cuts.suffix, head.next)
  {
    var cuts := SpliceCuts(tape, start, end, next);
    var fitted := Fitted(cuts, replacement);
    assert OAdjacent(cuts.prefix, fitted.root);
    ConcatFitting(cuts.prefix, fitted.root, fitted.next);
    var head := Concat(cuts.prefix, fitted.root, fitted.next);
    HeadBeforeSuffix(cuts.prefix, fitted.root, cuts.suffix, head.root);
    ConcatFitting(head.root, cuts.suffix, head.next);
  }

  lemma CutsDenote(tape: Tape, start: nat, end: nat, next: nat)
    requires OValid(tape) && start <= end <= |OEntries(tape)|
    ensures var cuts := SpliceCuts(tape, start, end, next);
      && OEntries(cuts.prefix) == OEntries(tape)[..start]
      && OEntries(cuts.remainder) == OEntries(tape)[start..]
      && OEntries(cuts.suffix) == OEntries(tape)[end..]
  {
    var span := Span(start, end);
    var first, second := TwoCuts(tape, start, end, span, next);
    SplitAtEntries(tape, start, next);
    SplitAtEntries(first.suffix, span, first.next);
    DropTwice(OEntries(tape), start, end, span);
  }

  lemma DropTwice(s: seq<Entry>, start: nat, end: nat, span: nat)
    requires start <= end <= |s| && span == Span(start, end)
    ensures |s[start..]| == |s| - start && s[start..][span..] == s[end..]
  {
  }

  /** The two splits behind the cuts. */
  lemma TwoCuts(tape: Tape, start: nat, end: nat, span: nat, next: nat) returns (first: Cut, second: Cut)
    requires OValid(tape) && start <= end && span == Span(start, end)
    ensures first == SplitAt(tape, start, next) && OAdjacent(first.prefix, first.suffix) && first.next >= next
    ensures second == SplitAt(first.suffix, span, first.next) && second.next >= first.next
    ensures SpliceCuts(tape, start, end, next)
         == Cuts(first.prefix, first.suffix, second.suffix, first.next, second.next)
  {
    first := SplitAt(tape, start, next);
    second := SplitAt(first.suffix, span, first.next);
    SuffixStaysAfter(first, span);
  }

  lemma FittedDenotes(cuts: Cuts, replacement: Tape)
    requires OAdjacent(cuts.prefix, cuts.suffix) && OValid(replacement)
    ensures OEntries(Fitted(cuts, replacement).root) == OEntries(replacement)
  {
    EndsOrdered(cuts.prefix, cuts.suffix);
    RekeyDenotes(replacement, OLast(cuts.prefix), OFirst(cuts.suffix), cuts.next);
  }

  lemma SpliceAtDenotes(tape: Tape, start: nat, end: nat, replacement: Tape, next: nat)
    requires OValid(tape) && OValid(replacement) && start <= end <= |OEntries(tape)|
    ensures OEntries(SpliceAt(tape, start, end, replacement, next).root)
         == OEntries(tape)[..start] + OEntries(replacement) + OEntries(tape)[end..]
  {
    SpliceNeverRelabels(tape, start, end, replacement, next);
    var cuts := SpliceCuts(tape, start, end, next);
    var fitted := Fitted(cuts, replacement);
    CutsDenote(tape, start, end, next);
    FittedDenotes(cuts, replacement);
    var head := Concat(cuts.prefix, fitted.root, fitted.next);
    ConcatEntries(cuts.prefix, fitted.root, fitted.next);
    ConcatEntries(head.root, cuts.suffix, head.next);
  }

  /** `splice` denotes prefix, replacement, suffix, for any bounds. */
  lemma SpliceDenotes(tape: Tape, start: nat, end: nat, replacement: Tape, next: nat)
    requires OValid(tape) && OValid(replacement)
    ensures var s := OEntries(tape);
      var from, to := ClampStart(|s|, start), ClampEnd(|s|, start, end);
      OEntries(Splice(tape, start, end, replacement, next).root)
        == s[..from] + OEntries(replacement) + s[to..]
  {
    LenIsEntries(tape);
    SpliceAtDenotes(tape, ClampStart(OLen(tape), start), ClampEnd(OLen(tape), start, end), replacement, next);
  }
}
