/** Iterators over the tape and the mutable cursor. */
module TapeCursors {
  import opened Wrappers
  import opened LeafOrder
  import opened TapeTree
  import opened TapeSplice

  // ------------------------------------------------------------------ iterators

  datatype IterFrame = Whole(node: Node) | Part(entries: seq<Entry>, index: nat)

  ghost predicate FrameValid(frame: IterFrame) {
    match frame
    case Whole(node) => Valid(node)
    case Part(entries, index) => index < |entries|
  }

  ghost predicate FramesValid(stack: seq<IterFrame>) {
    forall i :: 0 <= i < |stack| ==> FrameValid(stack[i])
  }

  function FrameEntries(frame: IterFrame): seq<Entry> {
    match frame
    case Whole(node) => Entries(node)
    case Part(entries, index) => if index <= |entries| then entries[index..] else []
  }

  /** What a stack of frames still has to yield, top frame first. */
  function Remaining(stack: seq<IterFrame>): seq<Entry> {
    if stack == [] then []
    else FrameEntries(stack[|stack| - 1]) + Remaining(stack[..|stack| - 1])
  }

  function NodeWeight(node: Node): nat {
    if node.Leaf? then 1 else 1 + NodeWeight(node.left) + NodeWeight(node.right)
  }

  function FrameWeight(frame: IterFrame): nat {
    if frame.Whole? then NodeWeight(frame.node) else 0
  }

  function Weight(stack: seq<IterFrame>): nat {
    if stack == [] then 0
    else FrameWeight(stack[|stack| - 1]) + Weight(stack[..|stack| - 1])
  }

  lemma Push(stack: seq<IterFrame>, frame: IterFrame)
    ensures Remaining(stack + [frame]) == FrameEntries(frame) + Remaining(stack)
    ensures Weight(stack + [frame]) == FrameWeight(frame) + Weight(stack)
  {
    assert (stack + [frame])[..|stack|] == stack;
  }

  lemma PushBranch(stack: seq<IterFrame>, node: Node)
    requires node.Branch?
    ensures Remaining(stack + [Whole(node.right), Whole(node.left)])
         == Remaining(stack + [Whole(node)])
    ensures Weight(stack + [Whole(node.right), Whole(node.left)]) < Weight(stack + [Whole(node)])
  {
    Push(stack, Whole(node));
    Push(stack, Whole(node.right));
    Push(stack + [Whole(node.right)], Whole(node.left));
    assert stack + [Whole(node.right)] + [Whole(node.left)] == stack + [Whole(node.right), Whole(node.left)];
    Associate(Entries(node.left), Entries(node.right), Remaining(stack));
  }

  lemma PushLeaf(stack: seq<IterFrame>, node: Node)
    requires node.Leaf?
    ensures Remaining(stack + [Part(node.entries, 0)]) == Remaining(stack + [Whole(node)])
    ensures Weight(stack + [Part(node.entries, 0)]) < Weight(stack + [Whole(node)])
  {
    Push(stack, Whole(node));
    Push(stack, Part(node.entries, 0));
    assert node.entries[0..] == node.entries;
  }

  lemma SliceHead<T>(s: seq<T>, i: nat, j: nat)
    requires i < j <= |s|
    ensures s[i..j] == [s[i]] + s[i + 1..j]
  {
  }

  /** The stack after the top part yielded its first entry. */
  function AfterYield(stack: seq<IterFrame>, entries: seq<Entry>, index: nat): seq<IterFrame> {
    if index + 1 < |entries| then stack + [Part(entries, index + 1)] else stack
  }

  lemma Reassociate<T>(a: seq<T>, b: seq<T>, c: seq<T>, ab: seq<T>, bc: seq<T>)
    requires ab == a + b && bc == b + c
    ensures ab + c == a + bc
  {
  }

  lemma PartOnTop(stack: seq<IterFrame>, entries: seq<Entry>, index: nat)
    requires index <= |entries|
    ensures Remaining(stack + [Part(entries, index)]) == entries[index..] + Remaining(stack)
  {
    Push(stack, Part(entries, index));
  }

  lemma HeadOnTop<T>(entries: seq<T>, index: nat, below: seq<T>)
    requires index < |entries|
    ensures entries[index..] + below == [entries[index]] + (entries[index + 1..] + below)
    ensures index + 1 == |entries| ==> entries[index..] + below == [entries[index]] + below
  {
    assert entries[index..] == [entries[index]] + entries[index + 1..];
  }

  lemma PushRest(stack: seq<IterFrame>, entries: seq<Entry>, index: nat)
    requires index < |entries|
    ensures Remaining(stack + [Part(entries, index)])
         == [entries[index]] + Remaining(AfterYield(stack, entries, index))
  {
    var next: nat := index + 1;
    PartOnTop(stack, entries, index);
    HeadOnTop(entries, index, Remaining(stack));
    if next < |entries| { PartOnTop(stack, entries, next); }
  }

  lemma PushValid(stack: seq<IterFrame>, frame: IterFrame)
    requires FramesValid(stack) && FrameValid(frame)
    ensures FramesValid(stack + [frame])
  {
  }

  /** One unfolding of a whole node on top of the stack. */
  function Unfold(stack: seq<IterFrame>, node: Node): seq<IterFrame> {
    if node.Leaf? then stack + [Part(node.entries, 0)]
    else stack + [Whole(node.right), Whole(node.left)]
  }

  lemma UnfoldKeeps(stack: seq<IterFrame>, node: Node)
    requires FramesValid(stack) && Valid(node)
    ensures FramesValid(Unfold(stack, node))
    ensures Remaining(Unfold(stack, node)) == Remaining(stack + [Whole(node)])
    ensures Weight(Unfold(stack, node)) < Weight(stack + [Whole(node)])
  {
    if node.Leaf? {
      PushLeaf(stack, node);
      PushValid(stack, Part(node.entries, 0));
    } else {
      PushBranch(stack, node);
      PushValid(stack, Whole(node.right));
      PushValid(stack + [Whole(node.right)], Whole(node.left));
      assert stack + [Whole(node.right)] + [Whole(node.left)] == stack + [Whole(node.right), Whole(node.left)];
    }
  }

  lemma YieldKeeps(stack: seq<IterFrame>, entries: seq<Entry>, index: nat)
    requires FramesValid(stack) && index < |entries|
    ensures FramesValid(AfterYield(stack, entries, index))
    ensures var all := Remaining(stack + [Part(entries, index)]);
      all != [] && all[0] == entries[index] && all[1..] == Remaining(AfterYield(stack, entries, index))
  {
    PushRest(stack, entries, index);
    if index + 1 < |entries| { PushValid(stack, Part(entries, index + 1)); }
  }

  lemma Top(stack: seq<IterFrame>)
    requires FramesValid(stack) && stack != []
    ensures var frame, rest := stack[|stack| - 1], stack[..|stack| - 1];
      stack == rest + [frame] && FrameValid(frame) && FramesValid(rest)
  {
  }

  /** `TapeIter` */
  class TapeIter {
    var stack: seq<IterFrame>

    constructor (tape: Tape)
      requires OValid(tape)
      ensures FramesValid(stack) && Remaining(stack) == OEntries(tape)
    {
      stack := if tape.Some? then [Whole(tape.value)] else [];
      new;
      if tape.Some? {
        Push([], Whole(tape.value));
        assert [] + [Whole(tape.value)] == [Whole(tape.value)];
      }
    }

    /** Yields the remaining entries in order, then nothing for ever. */
    method Next() returns (entry: Option<Entry>)
      requires FramesValid(stack)
      modifies this
      ensures FramesValid(stack)
      ensures old(Remaining(stack)) == [] ==> entry == None && Remaining(stack) == []
      ensures old(Remaining(stack)) != []
        ==> entry == Some(old(Remaining(stack))[0]) && Remaining(stack) == old(Remaining(stack))[1..]
    {
      while stack != []
        invariant FramesValid(stack) && Remaining(stack) == old(Remaining(stack))
        decreases Weight(stack)
      {
        Top(stack);
        var frame, rest := stack[|stack| - 1], stack[..|stack| - 1];
        if frame.Part? {
          YieldKeeps(rest, frame.entries, frame.index);
          stack := if frame.index + 1 < |frame.entries| then rest + [Part(frame.entries, frame.index + 1)] else rest;
          return Some(frame.entries[frame.index]);
        }
        UnfoldKeeps(rest, frame.node);
        stack := if frame.node.Leaf? then rest + [Part(frame.node.entries, 0)]
                 else rest + [Whole(frame.node.right), Whole(frame.node.left)];
      }
      return None;
    }
  }

  datatype RangeFrame = Window(entries: seq<Entry>, index: nat, end: nat)

  ghost predicate WindowsValid(stack: seq<RangeFrame>) {
    forall i :: 0 <= i < |stack| ==> stack[i].index < stack[i].end <= |stack[i].entries|
  }

  ghost function RangeRemaining(stack: seq<RangeFrame>): seq<Entry>
    requires WindowsValid(stack)
  {
    if stack == [] then []
    else
      var top := stack[|stack| - 1];
      top.entries[top.index..top.end] + RangeRemaining(stack[..|stack| - 1])
  }

  lemma PushWindow(stack: seq<RangeFrame>, frame: RangeFrame)
    requires WindowsValid(stack) && frame.index < frame.end <= |frame.entries|
    ensures WindowsValid(stack + [frame])
    ensures RangeRemaining(stack + [frame]) == frame.entries[frame.index..frame.end] + RangeRemaining(stack)
  {
    assert (stack + [frame])[..|stack|] == stack;
  }

  /** The entries of `node`, laid out from rank `base`, that lie in `start..end`. */
  function Clip(entries: seq<Entry>, base: nat, start: nat, end: nat): seq<Entry> {
    if start >= base + |entries| || end <= base || start >= end then []
    else entries[(if start < base then 0 else start - base)..
                 (if end - base < |entries| then end - base else |entries|)]
  }

  lemma ClipConcat(a: seq<Entry>, b: seq<Entry>, base: nat, middle: nat, start: nat, end: nat)
    requires middle == base + |a|
    ensures Clip(a + b, base, start, end) == Clip(a, base, start, end) + Clip(b, middle, start, end)
  {
  }

  lemma ClipBranch(node: Node, base: nat, middle: nat, start: nat, end: nat, after: seq<Entry>)
    requires Valid(node) && node.Branch? && middle == base + node.left.Len()
    ensures Clip(Entries(node), base, start, end) + after
         == Clip(Entries(node.left), base, start, end) + (Clip(Entries(node.right), middle, start, end) + after)
  {
    ValidFacts(node.left);
    ClipSplit(Entries(node.left), Entries(node.right), base, middle, start, end, after);
  }

  lemma ClipSplit(a: seq<Entry>, b: seq<Entry>, base: nat, middle: nat, start: nat, end: nat, after: seq<Entry>)
    requires middle == base + |a|
    ensures Clip(a + b, base, start, end) + after == Clip(a, base, start, end) + (Clip(b, middle, start, end) + after)
  {
    ClipConcat(a, b, base, middle, start, end);
    Associate(Clip(a, base, start, end), Clip(b, middle, start, end), after);
  }

  /** `TapeRangeIter` */
  class TapeRangeIter {
    var stack: seq<RangeFrame>

    /** `iter_range`: both bounds are clamped first. */
    constructor (tape: Tape, from: nat, to: nat)
      requires OValid(tape)
      ensures WindowsValid(stack)
      ensures var n := |OEntries(tape)|;
        RangeRemaining(stack) == OEntries(tape)[ClampStart(n, from)..ClampEnd(n, from, to)]
    {
      stack := [];
      new;
      var start, end := ClampStart(OLen(tape), from), ClampEnd(OLen(tape), from, to);
      LenIsEntries(tape);
      if start < end {
        PushIntersection(tape.value, 0, start, end);
      }
    }

    method PushIntersection(node: Node, base: nat, start: nat, end: nat)
      requires Valid(node) && WindowsValid(stack) && start < end
      modifies this
      ensures WindowsValid(stack)
      ensures RangeRemaining(stack) == Clip(Entries(node), base, start, end) + old(RangeRemaining(stack))
      decreases node
    {
      ValidFacts(node);
      if start >= base + node.Len() || end <= base { return; }
      if node.Leaf? {
        PushLeafWindow(node.entries, base, start, end);
      } else {
        var middle := base + node.left.Len();
        ClipBranch(node, base, middle, start, end, RangeRemaining(stack));
        PushIntersection(node.right, middle, start, end);
        PushIntersection(node.left, base, start, end);
      }
    }

    method PushLeafWindow(entries: seq<Entry>, base: nat, start: nat, end: nat)
      requires WindowsValid(stack) && start < end && start < base + |entries| && base < end
      modifies this
      ensures WindowsValid(stack)
      ensures RangeRemaining(stack) == Clip(entries, base, start, end) + old(RangeRemaining(stack))
    {
      var localStart := if start < base then 0 else start - base;
      var localEnd := if end - base < |entries| then end - base else |entries|;
      if localStart < localEnd {
        PushWindow(stack, Window(entries, localStart, localEnd));
        stack := stack + [Window(entries, localStart, localEnd)];
      }
    }

    method Next() returns (entry: Option<Entry>)
      requires WindowsValid(stack)
      modifies this
      ensures WindowsValid(stack)
      ensures old(RangeRemaining(stack)) == [] ==> entry == None && RangeRemaining(stack) == []
      ensures old(RangeRemaining(stack)) != [] ==>
        && entry == Some(old(RangeRemaining(stack))[0])
        && RangeRemaining(stack) == old(RangeRemaining(stack))[1..]
    {
      if stack == [] { return None; }
      var frame, rest := stack[|stack| - 1], stack[..|stack| - 1];
      var entries, index, end := frame.entries, frame.index, frame.end;
      assert stack == rest + [frame];
      SliceHead(entries, index, end);
      if index + 1 < end {
        PushWindow(rest, Window(entries, index + 1, end));
        stack := rest + [Window(entries, index + 1, end)];
      } else {
        stack := rest;
      }
      return Some(entries[index]);
    }
  }

  // ------------------------------------------------------------------ cursor paths

  datatype CursorFrame = CursorFrame(node: Node, wentRight: bool)
  {
    predicate Open() {
      node.Branch?
    }

    function Child(): Node
      requires Open()
    {
      if wentRight then node.right else node.left
    }

    /** Entries of this branch left of the chosen child. */
    function Skipped(): nat
      requires Open()
    {
      if wentRight then node.left.Len() else 0
    }
  }

  /** The frames lead from `root` down to `node`; the deepest frame is last. */
  predicate Leads(root: Node, path: seq<CursorFrame>, node: Node) {
    if path == [] then node == root
    else
      var frame := path[|path| - 1];
      frame.Open() && frame.Child() == node && Leads(root, path[..|path| - 1], frame.node)
  }

  /** The rank of the first entry below a path. */
  function Base(path: seq<CursorFrame>): nat {
    if path == [] then 0
    else
      var frame := path[|path| - 1];
      Base(path[..|path| - 1]) + if frame.Open() then frame.Skipped() else 0
  }

  lemma Extend(root: Node, path: seq<CursorFrame>, node: Node, wentRight: bool)
    requires Leads(root, path, node) && node.Branch?
    ensures var frame := CursorFrame(node, wentRight);
      && Leads(root, path + [frame], frame.Child())
      && Base(path + [frame]) == Base(path) + frame.Skipped()
  {
    assert (path + [CursorFrame(node, wentRight)])[..|path|] == path;
  }

  /** Below a path lies exactly a window of the root's sequence. */
  lemma {:induction false} LeadsHolds(root: Node, path: seq<CursorFrame>, node: Node)
    requires Valid(root) && Leads(root, path, node)
    ensures Valid(node) && Base(path) + |Entries(node)| <= |Entries(root)|
    ensures Entries(root)[Base(path)..Base(path) + |Entries(node)|] == Entries(node)
  {
    if path == [] {
      assert Entries(root)[0..0 + |Entries(root)|] == Entries(root);
    } else {
      var frame, front := path[|path| - 1], path[..|path| - 1];
      LeadsHolds(root, front, frame.node);
      ChildWindow(root, Base(front), frame);
    }
  }

  lemma ChildWindow(root: Node, base: nat, frame: CursorFrame)
    requires frame.Open() && Valid(frame.node) && base + |Entries(frame.node)| <= |Entries(root)|
    requires Entries(root)[base..base + |Entries(frame.node)|] == Entries(frame.node)
    ensures var b, child := base + frame.Skipped(), frame.Child();
      b + |Entries(child)| <= |Entries(root)| && Entries(root)[b..b + |Entries(child)|] == Entries(child)
  {
    ValidFacts(frame.node.left);
    WindowParts(Entries(root), base, Entries(frame.node.left), Entries(frame.node.right));
  }

  lemma WindowParts(whole: seq<Entry>, base: nat, x: seq<Entry>, y: seq<Entry>)
    requires base + |x + y| <= |whole| && whole[base..base + |x + y|] == x + y
    ensures whole[base..base + |x|] == x && whole[base + |x|..base + |x| + |y|] == y
  {
    assert whole[base..base + |x|] == (x + y)[..|x|];
    assert whole[base + |x|..base + |x| + |y|] == (x + y)[|x|..];
  }

  /** The path to the leaf holding `rank`, from the top. */
  function PathTo(node: Node, rank: nat): seq<CursorFrame> {
    if node.Leaf? then []
    else if rank < node.left.Len() then [CursorFrame(node, false)] + PathTo(node.left, rank)
    else [CursorFrame(node, true)] + PathTo(node.right, Span(node.left.Len(), rank))
  }

  function LeafTo(node: Node, rank: nat): (leaf: Node)
    ensures leaf.Leaf?
  {
    if node.Leaf? then node
    else if rank < node.left.Len() then LeafTo(node.left, rank)
    else LeafTo(node.right, Span(node.left.Len(), rank))
  }

  lemma PathStep(frame: CursorFrame, rank: nat, deep: nat)
    requires frame.Open() && Valid(frame.node) && rank < frame.Child().Len() && deep == frame.Skipped() + rank
    ensures PathTo(frame.node, deep) == [frame] + PathTo(frame.Child(), rank)
    ensures LeafTo(frame.node, deep) == LeafTo(frame.Child(), rank)
  {
    assert frame.wentRight ==> Span(frame.node.left.Len(), deep) == rank;
  }

  lemma ChildEntries(frame: CursorFrame, rank: nat)
    requires frame.Open() && Valid(frame.node) && rank < |Entries(frame.Child())|
    ensures rank < frame.Child().Len() && frame.Skipped() + rank < |Entries(frame.node)|
  {
    ValidFacts(frame.node.left);
    ValidFacts(frame.node.right);
  }

  /** The descent below a frame, seen from the top. */
  lemma PathJoin(front: seq<CursorFrame>, frame: CursorFrame, path: seq<CursorFrame>, rank: nat, deep: nat)
    requires frame.Open() && Valid(frame.node) && rank < frame.Child().Len()
    requires path == front + [frame] && deep == frame.Skipped() + rank
    ensures front + PathTo(frame.node, deep) == path + PathTo(frame.Child(), rank)
    ensures LeafTo(frame.node, deep) == LeafTo(frame.Child(), rank)
  {
    PathStep(frame, rank, deep);
    Reassociate(front, [frame], PathTo(frame.Child(), rank), path, PathTo(frame.node, deep));
  }

  lemma BaseStep(front: seq<CursorFrame>, frame: CursorFrame, path: seq<CursorFrame>, rank: nat, deep: nat)
    requires frame.Open() && path == front + [frame] && deep == frame.Skipped() + rank
    ensures Base(path) + rank == Base(front) + deep
  {
    assert path[..|path| - 1] == front;
  }

  /** Every path to the leaf of a rank is the one a fresh descent takes. */
  lemma {:induction false} PathUnique(root: Node, path: seq<CursorFrame>, node: Node, rank: nat, at: nat)
    requires Valid(root) && Leads(root, path, node) && rank < |Entries(node)| && at == Base(path) + rank
    ensures PathTo(root, at) == path + PathTo(node, rank)
    ensures LeafTo(root, at) == LeafTo(node, rank)
    decreases |path|
  {
    if path == [] {
      assert path + PathTo(node, rank) == PathTo(node, rank);
    } else {
      var front, frame, deep := UpOne(root, path, node, rank, at);
      PathUnique(root, front, frame.node, deep, at);
      PathJoin(front, frame, path, rank, deep);
    }
  }

  /** The same place, seen from the last frame of a path. */
  lemma UpOne(root: Node, path: seq<CursorFrame>, node: Node, rank: nat, at: nat)
    returns (front: seq<CursorFrame>, frame: CursorFrame, deep: nat)
    requires Valid(root) && Leads(root, path, node) && rank < |Entries(node)| && at == Base(path) + rank
    requires path != []
    ensures path == front + [frame] && frame.Open() && frame.Child() == node
    ensures Leads(root, front, frame.node) && Valid(frame.node)
    ensures rank < frame.Child().Len() && deep == frame.Skipped() + rank
    ensures deep < |Entries(frame.node)| && at == Base(front) + deep
  {
    front, frame := path[..|path| - 1], path[|path| - 1];
    LeadsHolds(root, front, frame.node);
    ChildEntries(frame, rank);
    deep := frame.Skipped() + rank;
    BaseStep(front, frame, path, rank, deep);
  }

  // ------------------------------------------------------------------ the cursor

  /** The cursor stands on slot `slot` of the leaf its path leads to. */
  predicate Placed(root: Node, path: seq<CursorFrame>, leaf: Node, slot: nat, rank: nat) {
    && Valid(root) && Leads(root, path, leaf)
    && leaf.Leaf? && slot < |leaf.entries| && rank == Base(path) + slot
  }

  /** A failed move has consumed the path: only the leaf is left. */
  predicate Stranded(root: Node, path: seq<CursorFrame>, leaf: Node, slot: nat, rank: nat) {
    && Valid(root) && path == [] && leaf.Leaf? && slot < |leaf.entries| && slot <= rank
    && rank - slot + |leaf.entries| <= |Entries(root)|
    && Entries(root)[rank - slot..rank - slot + |leaf.entries|] == leaf.entries
  }

  /** A placed cursor is determined by its rank, and shows the entry at that rank. */
  lemma PlacedByRank(root: Node, path: seq<CursorFrame>, leaf: Node, slot: nat, rank: nat)
    requires Placed(root, path, leaf, slot, rank)
    ensures rank < |Entries(root)| && leaf.entries[slot] == Entries(root)[rank]
    ensures path == PathTo(root, rank) && leaf == LeafTo(root, rank) && slot == rank - Base(PathTo(root, rank))
    ensures Stranded(root, [], leaf, slot, rank)
  {
    LeadsHolds(root, path, leaf);
    PathUnique(root, path, leaf, slot, rank);
    assert path + PathTo(leaf, slot) == path;
    WindowAt(Entries(root), Base(path), leaf.entries, slot, rank);
  }

  lemma WindowAt(whole: seq<Entry>, base: nat, window: seq<Entry>, slot: nat, rank: nat)
    requires base + |window| <= |whole| && whole[base..base + |window|] == window
    requires slot < |window| && rank == base + slot
    ensures rank < |whole| && whole[rank] == window[slot]
  {
    assert whole[base..base + |window|][slot] == whole[rank];
  }

  lemma PopFrame(root: Node, path: seq<CursorFrame>, node: Node)
    requires Valid(root) && path != [] && Leads(root, path, node)
    ensures var frame, front := path[|path| - 1], path[..|path| - 1];
      && path == front + [frame] && frame.Open() && Valid(frame.node) && Leads(root, front, frame.node)
      && Base(path) == Base(front) + frame.Skipped()
      && |Entries(frame.node)| == |Entries(frame.node.left)| + |Entries(frame.node.right)|
      && frame.node.left.Len() == |Entries(frame.node.left)|
  {
    var frame, front := path[|path| - 1], path[..|path| - 1];
    LeadsHolds(root, front, frame.node);
    ValidFacts(frame.node.left);
  }

  /** Everything below the path comes before rank `bound` and reaches it. */
  predicate EndsAt(root: Node, path: seq<CursorFrame>, node: Node, bound: nat) {
    Valid(root) && Leads(root, path, node) && Base(path) + |Entries(node)| == bound
  }

  lemma PopForward(root: Node, path: seq<CursorFrame>, node: Node, bound: nat)
    requires path != [] && EndsAt(root, path, node, bound)
    ensures var frame, front := path[|path| - 1], path[..|path| - 1];
      && frame.Open() && Valid(frame.node)
      && (frame.wentRight ==> EndsAt(root, front, frame.node, bound))
      && (!frame.wentRight ==>
            && Leads(root, front + [CursorFrame(frame.node, true)], frame.node.right)
            && Base(front + [CursorFrame(frame.node, true)]) == bound)
  {
    PopFrame(root, path, node);
    Extend(root, path[..|path| - 1], path[|path| - 1].node, true);
  }

  /** Everything below the path starts at rank `bound`. */
  predicate StartsAt(root: Node, path: seq<CursorFrame>, node: Node, bound: nat) {
    Valid(root) && Leads(root, path, node) && Base(path) == bound
  }

  lemma PopBackward(root: Node, path: seq<CursorFrame>, node: Node, bound: nat)
    requires path != [] && StartsAt(root, path, node, bound)
    ensures var frame, front := path[|path| - 1], path[..|path| - 1];
      && frame.Open() && Valid(frame.node)
      && (!frame.wentRight ==> StartsAt(root, front, frame.node, bound))
      && (frame.wentRight ==>
            && Leads(root, front + [CursorFrame(frame.node, false)], frame.node.left)
            && Base(front + [CursorFrame(frame.node, false)]) + |Entries(frame.node.left)| == bound
            && 0 < |Entries(frame.node.left)|)
  {
    PopFrame(root, path, node);
    ValidFacts(path[|path| - 1].node.left);
    Extend(root, path[..|path| - 1], path[|path| - 1].node, false);
  }

  lemma StepInside(root: Node, path: seq<CursorFrame>, leaf: Node, slot: nat, rank: nat, to: nat)
    requires slot <= rank && leaf.Leaf? && to < |leaf.entries|
    ensures Placed(root, path, leaf, slot, rank) ==>
      Placed(root, path, leaf, to, rank - slot + to) && rank - slot + to < |Entries(root)|
    ensures Stranded(root, path, leaf, slot, rank) ==> Stranded(root, path, leaf, to, rank - slot + to)
  {
    if Placed(root, path, leaf, slot, rank) { PlacedByRank(root, path, leaf, to, rank - slot + to); }
  }

  /** `TapeCursor` */
  class TapeCursor {
    const root: Node
    var path: seq<CursorFrame>
    var leaf: Node
    var slot: nat
    var rank: nat

    /** Either placed, or stranded in its leaf by a failed move. */
    predicate Valid()
      reads this
    {
      Placed(root, path, leaf, slot, rank) || Stranded(root, path, leaf, slot, rank)
    }

    constructor (root: Node, rank: nat)
      requires TapeTree.Valid(root) && rank < root.Len()
      ensures this.root == root && this.rank == rank && Placed(root, path, leaf, slot, rank)
    {
      this.root := root;
      this.path := [];
      this.leaf := root;
      this.slot := 0;
      this.rank := rank;
      new;
      ValidFacts(root);
      DescendToRank(root, rank);
    }

    method Current() returns (entry: Entry)
      requires Valid()
      ensures rank < |Entries(root)| && entry == Entries(root)[rank]
    {
      if Placed(root, path, leaf, slot, rank) { PlacedByRank(root, path, leaf, slot, rank); }
      assert Entries(root)[rank - slot..rank - slot + |leaf.entries|][slot] == Entries(root)[rank];
      return leaf.entries[slot];
    }

    /** Fails exactly at the end; a stranded cursor also fails at the end of its leaf. */
    method Advance() returns (moved: bool)
      requires Valid()
      modifies this
      ensures Valid() && rank == old(rank) + if moved then 1 else 0
      ensures old(Placed(root, path, leaf, slot, rank)) ==>
        && (moved <==> old(rank) + 1 < |Entries(root)|)
        && (moved ==> Placed(root, path, leaf, slot, rank))
      ensures !moved ==> path == [] && leaf == old(leaf) && slot == old(slot)
    {
      if slot + 1 < |leaf.entries| {
        StepInside(root, path, leaf, slot, rank, slot + 1);
        slot := slot + 1;
        rank := rank + 1;
        return true;
      }
      moved := AdvanceLeaf();
    }

    /** The part of `advance` that leaves the current leaf. */
    method AdvanceLeaf() returns (moved: bool)
      requires Valid() && slot + 1 == |leaf.entries|
      modifies this
      ensures Valid() && rank == old(rank) + if moved then 1 else 0
      ensures old(Placed(root, path, leaf, slot, rank)) ==>
        && (moved <==> old(rank) + 1 < |Entries(root)|)
        && (moved ==> Placed(root, path, leaf, slot, rank))
      ensures !moved ==> path == [] && leaf == old(leaf) && slot == old(slot)
    {
      ghost var placed := Placed(root, path, leaf, slot, rank);
      ghost var node := leaf;
      if placed { PlacedByRank(root, path, leaf, slot, rank); }
      while path != []
        invariant placed ==> EndsAt(root, path, node, rank + 1)
        invariant !placed ==> path == []
        invariant Stranded(root, [], leaf, slot, rank)
        invariant leaf == old(leaf) && slot == old(slot) && rank == old(rank)
        decreases |path|
      {
        PopForward(root, path, node, rank + 1);
        var frame := path[|path| - 1];
        path := path[..|path| - 1];
        if !frame.wentRight {
          TurnRight(frame.node);
          return true;
        }
        node := frame.node;
      }
      return false;
    }

    method TurnRight(node: Node)
      requires TapeTree.Valid(root) && TapeTree.Valid(node) && node.Branch?
      requires Leads(root, path + [CursorFrame(node, true)], node.right)
      requires Base(path + [CursorFrame(node, true)]) == rank + 1
      modifies this
      ensures Placed(root, path, leaf, slot, rank) && rank == old(rank) + 1 < |Entries(root)|
    {
      path := path + [CursorFrame(node, true)];
      DescendLeft(node.right);
      rank := rank + 1;
      PlacedByRank(root, path, leaf, slot, rank);
    }

    method TurnLeft(node: Node)
      requires TapeTree.Valid(root) && TapeTree.Valid(node) && node.Branch? && 0 < |Entries(node.left)|
      requires Leads(root, path + [CursorFrame(node, false)], node.left)
      requires Base(path + [CursorFrame(node, false)]) + |Entries(node.left)| == rank
      modifies this
      ensures Placed(root, path, leaf, slot, rank) && rank + 1 == old(rank)
    {
      path := path + [CursorFrame(node, false)];
      DescendRight(node.left);
      rank := rank - 1;
    }

    /** Fails exactly at the start; a stranded cursor also fails at the start of its leaf. */
    method Retreat() returns (moved: bool)
      requires Valid()
      modifies this
      ensures Valid() && rank == old(rank) - if moved then 1 else 0
      ensures old(Placed(root, path, leaf, slot, rank)) ==>
        && (moved <==> old(rank) > 0)
        && (moved ==> Placed(root, path, leaf, slot, rank))
      ensures !moved ==> path == [] && leaf == old(leaf) && slot == old(slot)
    {
      if slot > 0 {
        StepInside(root, path, leaf, slot, rank, slot - 1);
        slot := slot - 1;
        rank := rank - 1;
        return true;
      }
      moved := RetreatLeaf();
    }

    /** The part of `retreat` that leaves the current leaf. */
    method RetreatLeaf() returns (moved: bool)
      requires Valid() && slot == 0
      modifies this
      ensures Valid() && rank == old(rank) - if moved then 1 else 0
      ensures old(Placed(root, path, leaf, slot, rank)) ==>
        && (moved <==> old(rank) > 0)
        && (moved ==> Placed(root, path, leaf, slot, rank))
      ensures !moved ==> path == [] && leaf == old(leaf) && slot == old(slot)
    {
      ghost var placed := Placed(root, path, leaf, slot, rank);
      ghost var node := leaf;
      if placed { PlacedByRank(root, path, leaf, slot, rank); }
      while path != []
        invariant placed ==> StartsAt(root, path, node, rank)
        invariant !placed ==> path == []
        invariant Stranded(root, [], leaf, slot, rank)
        invariant leaf == old(leaf) && slot == old(slot) && rank == old(rank)
        decreases |path|
      {
        PopBackward(root, path, node, rank);
        var frame := path[|path| - 1];
        path := path[..|path| - 1];
        if frame.wentRight {
          TurnLeft(frame.node);
          return true;
        }
        node := frame.node;
      }
      return false;
    }

    method DescendToRank(top: Node, at: nat)
      requires TapeTree.Valid(top) && Leads(root, path, top) && at < |Entries(top)|
      modifies this`path, this`leaf, this`slot
      ensures leaf.Leaf? && Leads(root, path, leaf) && slot < |leaf.entries|
      ensures Base(path) + slot == old(Base(path)) + at
    {
      var node, rest: nat := top, at;
      while node.Branch?
        invariant TapeTree.Valid(node) && Leads(root, path, node) && rest < |Entries(node)|
        invariant Base(path) + rest == old(Base(path)) + at
        decreases node
      {
        ValidFacts(node.left);
        Extend(root, path, node, node.left.Len() <= rest);
        if rest < node.left.Len() {
          path := path + [CursorFrame(node, false)];
          node := node.left;
        } else {
          rest := rest - node.left.Len();
          path := path + [CursorFrame(node, true)];
          node := node.right;
        }
      }
      leaf, slot := node, rest;
    }

    method DescendLeft(top: Node)
      requires TapeTree.Valid(top) && Leads(root, path, top)
      modifies this`path, this`leaf, this`slot
      ensures leaf.Leaf? && Leads(root, path, leaf) && slot == 0 < |leaf.entries|
      ensures Base(path) == old(Base(path))
    {
      var node := top;
      while node.Branch?
        invariant TapeTree.Valid(node) && Leads(root, path, node) && Base(path) == old(Base(path))
        decreases node
      {
        Extend(root, path, node, false);
        path := path + [CursorFrame(node, false)];
        node := node.left;
      }
      leaf, slot := node, 0;
    }

    method DescendRight(top: Node)
      requires TapeTree.Valid(top) && Leads(root, path, top)
      modifies this`path, this`leaf, this`slot
      ensures leaf.Leaf? && Leads(root, path, leaf) && slot + 1 == |leaf.entries|
      ensures Base(path) + |leaf.entries| == old(Base(path)) + |Entries(top)|
    {
      var node := top;
      while node.Branch?
        invariant TapeTree.Valid(node) && Leads(root, path, node)
        invariant Base(path) + |Entries(node)| == old(Base(path)) + |Entries(top)|
        decreases node
      {
        ValidFacts(node.left);
        Extend(root, path, node, true);
        path := path + [CursorFrame(node, true)];
        node := node.right;
      }
      leaf, slot := node, |node.entries| - 1;
    }
  }

  /** A placed cursor is nothing but its rank: equal ranks mean equal path, leaf and slot. */
  lemma SameRankSameCursor(root: Node, path: seq<CursorFrame>, leaf: Node, slot: nat,
                           path': seq<CursorFrame>, leaf': Node, slot': nat, rank: nat)
    requires Placed(root, path, leaf, slot, rank) && Placed(root, path', leaf', slot', rank)
    ensures path == path' && leaf == leaf' && slot == slot'
  {
    PlacedByRank(root, path, leaf, slot, rank);
    PlacedByRank(root, path', leaf', slot', rank);
  }

  datatype Move = Forward | Backward

  function RankAfter(rank: int, moves: seq<Move>): int {
    if moves == [] then rank
    else RankAfter(rank, moves[..|moves| - 1]) + if moves[|moves| - 1].Forward? then 1 else -1
  }

  /** Every rank on the way is the rank of an entry. */
  ghost predicate StaysInside(count: nat, rank: int, moves: seq<Move>) {
    forall n :: 0 <= n <= |moves| ==> 0 <= RankAfter(rank, moves[..n]) < count
  }

  /** A run of moves from a placed cursor, up to the first one that fails.  It succeeds exactly when
      it stays inside; the cursor is then placed at the rank the moves add up to, and if that is
      where it started, it is the cursor it was. */
  method Walk(cursor: TapeCursor, moves: seq<Move>) returns (moved: bool)
    requires Placed(cursor.root, cursor.path, cursor.leaf, cursor.slot, cursor.rank)
    modifies cursor
    ensures moved <==> StaysInside(|Entries(cursor.root)|, old(cursor.rank), moves)
    ensures moved ==>
      && cursor.rank == RankAfter(old(cursor.rank), moves)
      && Placed(cursor.root, cursor.path, cursor.leaf, cursor.slot, cursor.rank)
    ensures moved && cursor.rank == old(cursor.rank) ==>
      cursor.path == old(cursor.path) && cursor.leaf == old(cursor.leaf) && cursor.slot == old(cursor.slot)
  {
    ghost var start, path, leaf, slot := cursor.rank, cursor.path, cursor.leaf, cursor.slot;
    PlacedByRank(cursor.root, path, leaf, slot, start);
    for n := 0 to |moves|
      invariant Placed(cursor.root, cursor.path, cursor.leaf, cursor.slot, cursor.rank)
      invariant cursor.rank == RankAfter(start, moves[..n])
      invariant StaysInside(|Entries(cursor.root)|, start, moves[..n])
    {
      InsideNext(|Entries(cursor.root)|, start, moves, n);
      var ok := StepOnce(cursor, moves[n]);
      if !ok {
        assert RankAfter(start, moves[..n + 1]) < 0 || RankAfter(start, moves[..n + 1]) >= |Entries(cursor.root)|;
        return false;
      }
    }
    assert moves[..|moves|] == moves;
    if cursor.rank == start {
      SameRankSameCursor(cursor.root, path, leaf, slot, cursor.path, cursor.leaf, cursor.slot, start);
    }
    return true;
  }

  method StepOnce(cursor: TapeCursor, move: Move) returns (moved: bool)
    requires Placed(cursor.root, cursor.path, cursor.leaf, cursor.slot, cursor.rank)
    modifies cursor
    ensures var to := old(cursor.rank) + if move.Forward? then 1 else -1;
      && (moved <==> 0 <= to < |Entries(cursor.root)|)
      && (moved ==> cursor.rank == to && Placed(cursor.root, cursor.path, cursor.leaf, cursor.slot, cursor.rank))
  {
    PlacedByRank(cursor.root, cursor.path, cursor.leaf, cursor.slot, cursor.rank);
    if move.Forward? { moved := cursor.Advance(); } else { moved := cursor.Retreat(); }
  }

  lemma InsideNext(count: nat, rank: int, moves: seq<Move>, n: nat)
    requires n < |moves| && StaysInside(count, rank, moves[..n])
    ensures RankAfter(rank, moves[..n + 1]) == RankAfter(rank, moves[..n]) + if moves[n].Forward? then 1 else -1
    ensures StaysInside(count, rank, moves[..n + 1]) <==> 0 <= RankAfter(rank, moves[..n + 1]) < count
  {
    var now := moves[..n + 1];
    assert now[..n] == moves[..n] && now[..n + 1] == now;
    if 0 <= RankAfter(rank, now) < count {
      forall m | 0 <= m <= n + 1 ensures 0 <= RankAfter(rank, now[..m]) < count {
        if m <= n { assert now[..m] == moves[..n][..m]; }
      }
    }
  }

  /** `cursor_at` */
  method CursorAt(tape: Tape, rank: nat) returns (cursor: TapeCursor?)
    requires OValid(tape)
    ensures cursor != null <==> rank < |OEntries(tape)|
    ensures cursor != null ==> fresh(cursor) && Some(cursor.root) == tape && cursor.rank == rank
    ensures cursor != null ==> Placed(cursor.root, cursor.path, cursor.leaf, cursor.slot, rank)
  {
    LenIsEntries(tape);
    if tape.None? || rank >= tape.value.Len() { return null; }
    cursor := new TapeCursor(tape.value, rank);
  }
}
