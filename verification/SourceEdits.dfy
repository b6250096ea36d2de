/** Normalizing a batch of edits into splices, and applying splices to a text. */
module SourceEdits {
  import opened Wrappers
  import opened SourceText
  import opened SourceOrder

  datatype EditError =
    | Unopened
    | OutOfBounds(edit: Edit)
    | Overlap(first: Repl, second: Repl)

  /** One replacement in old and new coordinates. */
  datatype Splice = Splice(oldStart: nat, oldEnd: nat, newStart: nat, newEnd: nat)

  datatype Batch = Batch(splices: seq<Splice>, inserted: seq<Text>, validated: nat,
                         removedBytes: nat, insertedBytes: nat)

  // ------------------------------------------------------------------ dropping and fusing

  predicate SameText(base: Text, r: Repl) {
    r.start <= r.end <= |base| && r.text == base[r.start..r.end]
  }

  /** The replacements that change something. */
  function Effective(base: Text, repls: seq<Repl>): seq<Repl> {
    if repls == [] then []
    else (if SameText(base, repls[0]) then [] else [repls[0]]) + Effective(base, repls[1..])
  }

  lemma {:induction false} EffectiveSnoc(base: Text, repls: seq<Repl>, r: Repl)
    ensures Effective(base, repls + [r])
         == Effective(base, repls) + if SameText(base, r) then [] else [r]
  {
    var all := repls + [r];
    if repls == [] {
      assert all[1..] == [];
    } else {
      EffectiveSnoc(base, repls[1..], r);
      assert all[1..] == repls[1..] + [r];
    }
  }

  lemma {:induction false} EffectiveKeeps(base: Text, repls: seq<Repl>, from: nat)
    requires Ordered(repls, from, |base|)
    ensures Ordered(Effective(base, repls), from, |base|)
    ensures Replaced(base, Effective(base, repls), from) == Replaced(base, repls, from)
    decreases |repls|
  {
    if repls != [] {
      OrderedBounds(repls, from, |base|);
      if SameText(base, repls[0]) {
        DropEqual(base, repls, from);
        EffectiveKeeps(base, repls[1..], from);
        assert Effective(base, repls) == Effective(base, repls[1..]);
      } else {
        EffectiveKeeps(base, repls[1..], repls[0].end);
        var kept := Effective(base, repls);
        assert kept[0] == repls[0] && kept[1..] == Effective(base, repls[1..]);
      }
    }
  }

  function Fusion(a: Repl, b: Repl): Repl {
    Repl(a.start, b.end, a.text + b.text)
  }

  /** Neighbours that touch are one replacement. */
  function Coalesced(repls: seq<Repl>): seq<Repl>
    decreases |repls|
  {
    if |repls| <= 1 then repls
    else if repls[0].end == repls[1].start then Coalesced([Fusion(repls[0], repls[1])] + repls[2..])
    else [repls[0]] + Coalesced(repls[1..])
  }

  ghost predicate Apart(repls: seq<Repl>) {
    forall i, j :: 0 <= i < j < |repls| ==> repls[i].end < repls[j].start
  }

  lemma {:induction false} CoalescedKeeps(base: Text, repls: seq<Repl>, from: nat)
    requires Ordered(repls, from, |base|)
    ensures Ordered(Coalesced(repls), from, |base|) && Apart(Coalesced(repls))
    ensures Replaced(base, Coalesced(repls), from) == Replaced(base, repls, from)
    ensures repls != [] ==> Coalesced(repls) != [] && Coalesced(repls)[0].start == repls[0].start
    decreases |repls|
  {
    if |repls| > 1 {
      var a, b, rest := repls[0], repls[1], repls[2..];
      assert repls == [a, b] + rest;
      if a.end == b.start {
        FuseTouching(base, a, b, rest, from);
        CoalescedKeeps(base, [Fusion(a, b)] + rest, from);
      } else {
        CoalescedKeeps(base, repls[1..], a.end);
        var tail := Coalesced(repls[1..]);
        assert Coalesced(repls)[1..] == tail;
        OrderedBounds(repls, from, |base|);
        ApartCons(a, tail, |base|);
      }
    }
  }

  lemma ApartCons(a: Repl, tail: seq<Repl>, len: nat)
    requires tail != [] && a.end < tail[0].start && Apart(tail) && Ordered(tail, a.end, len)
    ensures Apart([a] + tail)
  {
    OrderedBounds(tail, a.end, len);
    var all := [a] + tail;
    forall i, j | 0 <= i < j < |all| ensures all[i].end < all[j].start {
      if i == 0 && j > 1 { assert tail[0].end < tail[j - 1].start; }
    }
  }

  // ------------------------------------------------------------------ splices for replacements

  /** A splice and its text for a replacement that earlier ones shift by `shift`. */
  predicate Renders(s: Splice, text: Text, r: Repl, shift: int) {
    && text == r.text && s.oldStart == r.start && s.oldEnd == r.end
    && s.newStart == r.start + shift && s.newEnd == s.newStart + |r.text|
  }

  predicate RendersAt(splices: seq<Splice>, inserted: seq<Text>, repls: seq<Repl>, i: nat) {
    && i < |splices| && i < |inserted| && i < |repls|
    && Renders(splices[i], inserted[i], repls[i], Shift(repls, i))
  }

  /** The splices and texts of a list of replacements, new ranges shifted. */
  ghost predicate Describes(splices: seq<Splice>, inserted: seq<Text>, repls: seq<Repl>) {
    && |splices| == |inserted| == |repls|
    && forall i :: 0 <= i < |repls| ==> RendersAt(splices, inserted, repls, i)
  }

  lemma {:induction false} ShiftPrefix(repls: seq<Repl>, n: nat, i: nat)
    requires i <= n <= |repls|
    ensures Shift(repls[..n], i) == Shift(repls, i)
  {
    if i > 0 { ShiftPrefix(repls, n, i - 1); }
  }

  lemma ShiftSnoc(repls: seq<Repl>, r: Repl)
    ensures Shift(repls + [r], |repls|) == Shift(repls, |repls|)
    ensures Shift(repls + [r], |repls| + 1) == Shift(repls, |repls|) + Length(r)
  {
    ShiftPrefix(repls + [r], |repls|, |repls|);
    assert (repls + [r])[..|repls|] == repls;
  }

  lemma {:induction false} DescribesSnoc(splices: seq<Splice>, inserted: seq<Text>, repls: seq<Repl>, s: Splice,
                                         r: Repl)
    requires Describes(splices, inserted, repls) && Renders(s, r.text, r, Shift(repls, |repls|))
    ensures Describes(splices + [s], inserted + [r.text], repls + [r])
    ensures Shift(repls + [r], |repls| + 1) == Shift(repls, |repls|) + Length(r)
  {
    ShiftSnoc(repls, r);
    forall i | 0 <= i <= |repls| ensures RendersAt(splices + [s], inserted + [r.text], repls + [r], i) {
      if i < |repls| {
        assert RendersAt(splices, inserted, repls, i);
        ShiftPrefix(repls + [r], |repls|, i);
        assert (repls + [r])[..|repls|] == repls;
      }
    }
  }

  lemma {:induction false} DescribesFront(splices: seq<Splice>, inserted: seq<Text>, repls: seq<Repl>)
    requires Describes(splices, inserted, repls) && repls != []
    ensures var n := |repls| - 1;
      && Describes(splices[..n], inserted[..n], repls[..n])
      && Shift(repls[..n], n) == Shift(repls, n)
      && Renders(splices[n], inserted[n], repls[n], Shift(repls, n))
  {
    var n := |repls| - 1;
    assert RendersAt(splices, inserted, repls, n);
    ShiftPrefix(repls, n, n);
    forall i | 0 <= i < n ensures RendersAt(splices[..n], inserted[..n], repls[..n], i) {
      assert RendersAt(splices, inserted, repls, i);
      ShiftPrefix(repls, n, i);
    }
  }

  // ------------------------------------------------------------------ normalize_edits

  predicate AllEditsInBounds(edits: seq<Edit>, len: nat) {
    forall i :: 0 <= i < |edits| ==> edits[i].InBounds(len)
  }

  /** A later-ordered edit starts strictly inside an earlier delete, or is a second delete at
      the start of a non-empty one. */
  ghost predicate Overlapping(edits: seq<Edit>) {
    exists i, j :: 0 <= i < |edits| && 0 <= j < |edits| && Collide(edits, i, j)
  }

  predicate Collide(edits: seq<Edit>, i: int, j: int)
    requires 0 <= i < |edits| && 0 <= j < |edits|
  {
    edits[i].Delete? &&
    (edits[i].start < edits[j].Pos() < edits[i].end
     || (edits[i].start == edits[j].Pos() < edits[i].end && edits[j].Delete? && i < j))
  }

  function Ordering(edits: seq<Edit>): seq<Op> {
    Sort(Numbered(edits, 0))
  }

  /** Pure reading of the normalization: grouped, effective, coalesced. */
  function Normal(base: Text, edits: seq<Edit>): seq<Repl> {
    Coalesced(Effective(base, Groups(Ordering(edits))))
  }

  lemma OrderingHolds(edits: seq<Edit>, len: nat)
    requires AllEditsInBounds(edits, len)
    ensures Sorted(Ordering(edits)) && AllInBounds(Ordering(edits), len)
    ensures Conflict(Ordering(edits)) <==> Overlapping(edits)
  {
    var ops := Numbered(edits, 0);
    var sorted := Ordering(edits);
    SortHolds(ops);
    forall i | 0 <= i < |sorted| ensures sorted[i].edit.InBounds(len) {
      assert sorted[i] in multiset(sorted);
      assert sorted[i] in ops;
    }
    ConflictIffOverlapping(edits);
  }

  lemma {:induction false} ConflictIffOverlapping(edits: seq<Edit>)
    requires multiset(Ordering(edits)) == multiset(Numbered(edits, 0))
    ensures Conflict(Ordering(edits)) <==> Overlapping(edits)
  {
    var ops := Numbered(edits, 0);
    var sorted := Ordering(edits);
    if Conflict(sorted) {
      var i, j :| 0 <= i < |sorted| && 0 <= j < |sorted| && Clashes(sorted[i], sorted[j]);
      var x := SamePlace(sorted, ops, i);
      var y := SamePlace(sorted, ops, j);
      assert Collide(edits, x, y);
    }
    if Overlapping(edits) {
      var x, y :| 0 <= x < |edits| && 0 <= y < |edits| && Collide(edits, x, y);
      var i := SamePlace(ops, sorted, x);
      var j := SamePlace(ops, sorted, y);
      assert Clashes(sorted[i], sorted[j]);
    }
  }

  lemma SamePlace(a: seq<Op>, b: seq<Op>, i: nat) returns (j: nat)
    requires multiset(a) == multiset(b) && i < |a|
    ensures j < |b| && b[j] == a[i]
  {
    assert a[i] in multiset(a);
    assert a[i] in b;
    j :| j < |b| && b[j] == a[i];
  }

  /** Normalization keeps the naive reading of every accepted batch. */
  lemma {:induction false} NormalIsNaive(base: Text, edits: seq<Edit>)
    requires AllEditsInBounds(edits, |base|) && !Overlapping(edits)
    ensures Ordered(Groups(Ordering(edits)), 0, |base|)
    ensures Ordered(Normal(base, edits), 0, |base|) && Apart(Normal(base, edits))
    ensures Replaced(base, Normal(base, edits), 0) == Naive(base, edits)
  {
    var ops := Ordering(edits);
    OrderingHolds(edits, |base|);
    OverlapIffConflict(ops, |base|);
    GroupsOrdered(ops, 0, |base|);
    GroupsNaive(base, ops, 0);
    EffectiveKeeps(base, Groups(ops), 0);
    CoalescedKeeps(base, Effective(base, Groups(ops)), 0);
    forall p: nat
      ensures InsertsAt(EditsOf(ops), p) == InsertsAt(edits, p)
      ensures DeletedAt(EditsOf(ops), p) == DeletedAt(edits, p)
    {
      SortReads(Numbered(edits, 0), p);
      assert EditsOf(Numbered(edits, 0)) == edits;
    }
    NaiveSame(base, EditsOf(ops), edits, 0);
  }

  /** The merge loop. */
  method MergeOps(ops: seq<Op>) returns (repls: seq<Repl>)
    ensures repls == Groups(ops)
  {
    repls := [];
    var index := 0;
    assert ops[0..] == ops;
    while index < |ops|
      invariant 0 <= index <= |ops|
      invariant repls + Groups(ops[index..]) == Groups(ops)
    {
      var here := ops[index..];
      var group := TakeGroup(here);
      assert here[group.count..] == ops[index + group.count..];
      repls := repls + [group.repl];
      index := index + group.count;
    }
  }

  /** One round of the merge loop: the run starting at the first operation. */
  method TakeGroup(ops: seq<Op>) returns (g: Group)
    requires ops != []
    ensures g == FirstGroup(ops)
  {
    var at := ops[0].edit.Pos();
    var value, end, taken, index := "", at, false, 0;
    if ops[0].edit.Delete? {
      end, taken, index := ops[0].edit.end, true, 1;
    } else {
      assert "" + ops[0].edit.value == ops[0].edit.value;
    }
    assert ops[0..] == ops;
    while index < |ops|
        && ((ops[index].edit.Insert? && ops[index].edit.at == at)
            || (ops[index].edit.Delete? && !taken && ops[index].edit.start == at))
      invariant 0 <= index <= |ops|
      invariant Run(ops[index..], at, Group(Repl(at, end, value), index), taken) == FirstGroup(ops)
    {
      assert ops[index..][1..] == ops[index + 1..];
      if ops[index].edit.Insert? {
        value := value + ops[index].edit.value;
      } else {
        end, taken := ops[index].edit.end, true;
      }
      index := index + 1;
    }
    g := Group(Repl(at, end, value), index);
  }

  /** The neighbours `i` and `j` overlap, and none before them do. */
  ghost predicate ClashAt(repls: seq<Repl>, i: int, j: int) {
    && 0 <= i && j == i + 1 && j < |repls| && repls[i].end > repls[j].start
    && forall k, l :: 0 <= k && l == k + 1 && l < j ==> Touching(repls[k], repls[l])
  }

  /** These are the first overlapping neighbours. */
  ghost predicate FirstClash(repls: seq<Repl>, first: Repl, second: Repl) {
    exists i, j :: ClashAt(repls, i, j) && first == repls[i] && second == repls[j]
  }

  /** The overlap check over neighbours. */
  method FindOverlap(repls: seq<Repl>) returns (overlap: Option<(Repl, Repl)>)
    ensures overlap.None? <==> NoOverlap(repls)
    ensures overlap.Some? ==> FirstClash(repls, overlap.value.0, overlap.value.1)
  {
    if |repls| < 2 { return None; }
    for n := 1 to |repls|
      invariant forall i, j :: 0 <= i && j == i + 1 && j < n ==> Touching(repls[i], repls[j])
    {
      if repls[n - 1].end > repls[n].start {
        assert !Touching(repls[n - 1], repls[n]);
        assert ClashAt(repls, n - 1, n);
        return Some((repls[n - 1], repls[n]));
      }
    }
    return None;
  }

  /** Totals of a list of replacements. */
  function Removed(repls: seq<Repl>): nat {
    if repls == [] then 0
    else
      var r := repls[|repls| - 1];
      Removed(repls[..|repls| - 1]) + if r.start <= r.end then r.end - r.start else 0
  }

  function Added(repls: seq<Repl>): nat {
    if repls == [] then 0 else Added(repls[..|repls| - 1]) + |repls[|repls| - 1].text|
  }

  /** Bytes in minus bytes out is the total shift. */
  lemma {:induction false} Conservation(repls: seq<Repl>)
    requires forall i :: 0 <= i < |repls| ==> repls[i].start <= repls[i].end
    ensures Added(repls) - Removed(repls) == Shift(repls, |repls|)
  {
    if repls != [] {
      Conservation(repls[..|repls| - 1]);
      ShiftPrefix(repls, |repls| - 1, |repls| - 1);
    }
  }

  /** The running shift never takes a start below zero. */
  lemma ShiftNeverUnderflows(base: Text, repls: seq<Repl>, i: nat)
    requires Ordered(repls, 0, |base|) && i < |repls|
    ensures var kept := Effective(base, repls[..i]);
      repls[i].start + Shift(kept, |kept|) >= 0
  {
    var end := if i == 0 then 0 else repls[i - 1].end;
    OrderedPrefix(repls, i, 0, |base|);
    OrderedBounds(repls, 0, |base|);
    var kept := Effective(base, repls[..i]);
    EffectiveKeeps(base[..end], repls[..i], 0);
    EffectiveWithin(base, repls[..i], end);
    ReplacedLength(base[..end], kept);
  }

  lemma {:induction false} OrderedPrefix(repls: seq<Repl>, i: nat, from: nat, len: nat)
    requires Ordered(repls, from, len) && i <= |repls|
    ensures Ordered(repls[..i], from, if i == 0 then from else repls[i - 1].end)
  {
    if i > 0 {
      OrderedPrefix(repls[1..], i - 1, repls[0].end, len);
      assert repls[..i][1..] == repls[1..][..i - 1];
    }
  }

  lemma {:induction false} EffectiveWithin(base: Text, repls: seq<Repl>, end: nat)
    requires end <= |base| && forall i :: 0 <= i < |repls| ==> repls[i].start <= repls[i].end <= end
    ensures Effective(base[..end], repls) == Effective(base, repls)
  {
    if repls != [] {
      EffectiveWithin(base, repls[1..], end);
      assert base[..end][repls[0].start..repls[0].end] == base[repls[0].start..repls[0].end];
    }
  }

  lemma TotalsSnoc(repls: seq<Repl>, r: Repl)
    requires r.start <= r.end
    ensures Removed(repls + [r]) == Removed(repls) + (r.end - r.start)
    ensures Added(repls + [r]) == Added(repls) + |r.text|
  {
    assert (repls + [r])[..|repls|] == repls;
  }

  /** The state of the shift loop after the replacements `kept`. */
  ghost predicate Placing(batch: Batch, shift: int, kept: seq<Repl>) {
    && Describes(batch.splices, batch.inserted, kept) && shift == Shift(kept, |kept|)
    && batch.removedBytes == Removed(kept) && batch.insertedBytes == Added(kept)
  }

  function WithSplice(batch: Batch, r: Repl, newStart: nat): Batch
    requires r.start <= r.end
  {
    Batch(batch.splices + [Splice(r.start, r.end, newStart, newStart + |r.text|)], batch.inserted + [r.text],
      batch.validated, batch.removedBytes + (r.end - r.start), batch.insertedBytes + |r.text|)
  }

  lemma {:induction false} PlaceStep(batch: Batch, shift: int, kept: seq<Repl>, r: Repl)
    requires Placing(batch, shift, kept) && r.start <= r.end && r.start + shift >= 0
    ensures Placing(WithSplice(batch, r, r.start + shift), shift + Length(r), kept + [r])
  {
    var newStart: nat := r.start + shift;
    DescribesSnoc(batch.splices, batch.inserted, kept,
      Splice(r.start, r.end, newStart, newStart + |r.text|), r);
    TotalsSnoc(kept, r);
  }

  lemma NextEffective(base: Text, repls: seq<Repl>, i: nat)
    requires i < |repls|
    ensures Effective(base, repls[..i + 1])
         == if SameText(base, repls[i]) then Effective(base, repls[..i]) else Effective(base, repls[..i]) + [repls[i]]
  {
    assert repls[..i + 1] == repls[..i] + [repls[i]];
    EffectiveSnoc(base, repls[..i], repls[i]);
  }

  /** The shift loop: drops equal replacements and places the others. */
  method Place(base: Text, repls: seq<Repl>, validated: nat) returns (batch: Batch)
    requires Ordered(repls, 0, |base|)
    ensures Placing(batch, Shift(Effective(base, repls), |Effective(base, repls)|), Effective(base, repls))
    ensures batch.validated == validated
  {
    var shift := 0;
    batch := Batch([], [], validated, 0, 0);
    OrderedBounds(repls, 0, |base|);
    ghost var kept: seq<Repl> := Effective(base, repls[..0]);
    for i := 0 to |repls|
      invariant kept == Effective(base, repls[..i])
      invariant Placing(batch, shift, kept) && batch.validated == validated
    {
      ShiftNeverUnderflows(base, repls, i);
      NextEffective(base, repls, i);
      var r := repls[i];
      if !SameText(base, r) {
        PlaceStep(batch, shift, kept, r);
        batch := WithSplice(batch, r, r.start + shift);
        shift := shift + (|r.text| - (r.end - r.start));
        kept := kept + [r];
      }
    }
    assert repls[..|repls|] == repls;
  }

  // ------------------------------------------------------------------ merging neighbours

  /** What coalescing has produced and still has to do, when `merged` is already done up to
      its last element. */
  ghost function CoalesceOn(merged: seq<Repl>, rest: seq<Repl>): seq<Repl> {
    if merged == [] then Coalesced(rest)
    else merged[..|merged| - 1] + Coalesced([merged[|merged| - 1]] + rest)
  }

  lemma {:induction false} CoalesceStep(merged: seq<Repl>, r: Repl, rest: seq<Repl>)
    ensures merged == [] ==> CoalesceOn(merged, [r] + rest) == CoalesceOn([r], rest)
    ensures merged != [] && merged[|merged| - 1].end == r.start ==>
      CoalesceOn(merged, [r] + rest)
        == CoalesceOn(merged[..|merged| - 1] + [Fusion(merged[|merged| - 1], r)], rest)
    ensures merged != [] && merged[|merged| - 1].end != r.start ==>
      CoalesceOn(merged, [r] + rest) == CoalesceOn(merged + [r], rest)
  {
    if merged != [] {
      var front, last := merged[..|merged| - 1], merged[|merged| - 1];
      var list := [last] + ([r] + rest);
      assert list[0] == last && list[1] == r && list[2..] == rest && list[1..] == [r] + rest;
      if last.end == r.start {
        var fused := front + [Fusion(last, r)];
        assert fused[..|fused| - 1] == front;
      } else {
        assert (merged + [r])[..|merged|] == merged;
        Associate(front, [last], Coalesced([r] + rest));
        assert front + [last] == merged;
      }
    }
  }

  /** The last merged splice grows over a touching neighbour. */
  lemma {:induction false} DescribesFused(splices: seq<Splice>, inserted: seq<Text>, merged: seq<Repl>, s: Splice,
                                          r: Repl)
    requires Describes(splices, inserted, merged) && merged != []
    requires merged[|merged| - 1].end == r.start && Renders(s, r.text, r, Shift(merged, |merged|))
    ensures var n := |merged| - 1;
      var fused := merged[..n] + [Fusion(merged[n], r)];
      && Describes(splices[..n] + [splices[n].(oldEnd := s.oldEnd, newEnd := s.newEnd)],
                   inserted[..n] + [inserted[n] + r.text], fused)
      && Shift(fused, n + 1) == Shift(merged, n + 1) + Length(r)
  {
    var n := |merged| - 1;
    DescribesFront(splices, inserted, merged);
    assert Shift(merged, n + 1) == Shift(merged, n) + Length(merged[n]);
    DescribesSnoc(splices[..n], inserted[..n], merged[..n],
      splices[n].(oldEnd := s.oldEnd, newEnd := s.newEnd), Fusion(merged[n], r));
  }

  lemma PlacedNext(splices: seq<Splice>, inserted: seq<Text>, repls: seq<Repl>, i: nat)
    requires Describes(splices, inserted, repls) && i < |repls|
    ensures Renders(splices[i], inserted[i], repls[i], Shift(repls, i))
    ensures Shift(repls, i + 1) == Shift(repls, i) + Length(repls[i])
    ensures splices[i].newEnd == repls[i].end + Shift(repls, i + 1)
  {
    assert RendersAt(splices, inserted, repls, i);
  }

  /** The state of the merge loop before replacement `i`. */
  ghost predicate Merging(merged: seq<Splice>, texts: seq<Text>, done: seq<Repl>, repls: seq<Repl>, i: nat) {
    && i <= |repls| && Describes(merged, texts, done)
    && CoalesceOn(done, repls[i..]) == Coalesced(repls)
    && Shift(done, |done|) == Shift(repls, i)
  }

  lemma {:induction false} MergeFuses(merged: seq<Splice>, texts: seq<Text>, done: seq<Repl>, repls: seq<Repl>,
                                      i: nat, s: Splice)
    requires Merging(merged, texts, done, repls, i) && i < |repls| && done != []
    requires done[|done| - 1].end == repls[i].start
    requires Renders(s, repls[i].text, repls[i], Shift(repls, i))
    ensures var n := |done| - 1;
      Merging(merged[..n] + [merged[n].(oldEnd := s.oldEnd, newEnd := s.newEnd)],
        texts[..n] + [texts[n] + repls[i].text], done[..n] + [Fusion(done[n], repls[i])], repls, i + 1)
  {
    assert repls[i..] == [repls[i]] + repls[i + 1..];
    CoalesceStep(done, repls[i], repls[i + 1..]);
    DescribesFused(merged, texts, done, s, repls[i]);
  }

  lemma {:induction false} MergeAppends(merged: seq<Splice>, texts: seq<Text>, done: seq<Repl>, repls: seq<Repl>,
                                        i: nat, s: Splice)
    requires Merging(merged, texts, done, repls, i) && i < |repls|
    requires done == [] || done[|done| - 1].end != repls[i].start
    requires Renders(s, repls[i].text, repls[i], Shift(repls, i))
    ensures Merging(merged + [s], texts + [repls[i].text], done + [repls[i]], repls, i + 1)
  {
    assert repls[i..] == [repls[i]] + repls[i + 1..];
    CoalesceStep(done, repls[i], repls[i + 1..]);
    DescribesSnoc(merged, texts, done, s, repls[i]);
  }

  /** Old ranges touch exactly when new ranges do. */
  lemma TouchBoth(merged: seq<Splice>, texts: seq<Text>, done: seq<Repl>, repls: seq<Repl>, i: nat, s: Splice)
    requires Merging(merged, texts, done, repls, i) && i < |repls| && done != []
    requires Renders(s, repls[i].text, repls[i], Shift(repls, i))
    ensures var last := merged[|merged| - 1];
      && (last.oldEnd == s.oldStart <==> done[|done| - 1].end == repls[i].start)
      && (last.oldEnd == s.oldStart <==> last.newEnd == s.newStart)
  {
    PlacedNext(merged, texts, done, |done| - 1);
  }

  /** One splice either extends the last one or is appended. */
  method MergeOne(before: seq<Splice>, beforeTexts: seq<Text>, s: Splice, text: Text,
                  ghost was: seq<Repl>, ghost repls: seq<Repl>, ghost i: nat)
    returns (merged: seq<Splice>, texts: seq<Text>, ghost done: seq<Repl>)
    requires Merging(before, beforeTexts, was, repls, i) && i < |repls| && text == repls[i].text
    requires Renders(s, repls[i].text, repls[i], Shift(repls, i))
    ensures Merging(merged, texts, done, repls, i + 1)
  {
    if before != [] { TouchBoth(before, beforeTexts, was, repls, i, s); }
    if before != [] && before[|before| - 1].oldEnd == s.oldStart && before[|before| - 1].newEnd == s.newStart {
      var n := |before| - 1;
      MergeFuses(before, beforeTexts, was, repls, i, s);
      merged := before[..n] + [before[n].(oldEnd := s.oldEnd, newEnd := s.newEnd)];
      texts := beforeTexts[..n] + [beforeTexts[n] + text];
      done := was[..n] + [Fusion(was[n], repls[i])];
    } else {
      MergeAppends(before, beforeTexts, was, repls, i, s);
      merged, texts := before + [s], beforeTexts + [text];
      done := was + [repls[i]];
    }
  }

  /** The merge of contiguous splices: both coordinate ranges touch or neither does. */
  method MergeAdjacent(splices: seq<Splice>, inserted: seq<Text>, ghost repls: seq<Repl>)
    returns (merged: seq<Splice>, texts: seq<Text>)
    requires Describes(splices, inserted, repls)
    ensures Describes(merged, texts, Coalesced(repls))
  {
    merged, texts := [], [];
    ghost var done: seq<Repl> := [];
    assert repls[0..] == repls;
    for i := 0 to |splices|
      invariant Merging(merged, texts, done, repls, i)
    {
      var s, text := splices[i], inserted[i];
      PlacedNext(splices, inserted, repls, i);
      merged, texts, done := MergeOne(merged, texts, s, text, done, repls, i);
    }
    MergeDone(merged, texts, done, repls);
  }

  lemma MergeDone(merged: seq<Splice>, texts: seq<Text>, done: seq<Repl>, repls: seq<Repl>)
    requires Merging(merged, texts, done, repls, |repls|)
    ensures Describes(merged, texts, Coalesced(repls))
  {
    CoalesceDone(done);
    assert repls[|repls|..] == [];
  }

  lemma {:induction false} CoalesceDone(merged: seq<Repl>)
    ensures CoalesceOn(merged, []) == merged
  {
    if merged != [] { assert [merged[|merged| - 1]] + [] == [merged[|merged| - 1]]; }
  }

  // ------------------------------------------------------------------ the whole normalization

  function EmptyBatch(): Batch {
    Batch([], [], 0, 0, 0)
  }

  /** The edit out of bounds, behind only edits in bounds. */
  predicate FirstOutside(edits: seq<Edit>, len: nat, k: int) {
    0 <= k < |edits| && !edits[k].InBounds(len) && AllEditsInBounds(edits[..k], len)
  }

  /** What an error says about the edits of one document: it is not open, the first edit out of
      bounds, or the first two grouped replacements that overlap. */
  ghost predicate Blames(error: EditError, base: Option<Text>, edits: seq<Edit>) {
    match error
    case Unopened => base.None? && edits != []
    case OutOfBounds(edit) => base.Some? && exists k :: FirstOutside(edits, |base.value|, k) && edits[k] == edit
    case Overlap(first, second) =>
      && base.Some? && AllEditsInBounds(edits, |base.value|)
      && FirstClash(Groups(Ordering(edits)), first, second)
  }

  /** The validation loop. */
  method Validate(edits: seq<Edit>, len: nat) returns (bad: Option<Edit>, ops: seq<Op>)
    ensures bad.None? <==> AllEditsInBounds(edits, len)
    ensures bad.None? ==> ops == Numbered(edits, 0)
    ensures bad.Some? ==> exists k :: FirstOutside(edits, len, k) && edits[k] == bad.value
  {
    ops := [];
    for ordinal := 0 to |edits|
      invariant |ops| == ordinal && forall k :: 0 <= k < ordinal ==> ops[k] == Op(k, edits[k])
      invariant forall k :: 0 <= k < ordinal ==> edits[k].InBounds(len)
    {
      if !edits[ordinal].InBounds(len) {
        assert FirstOutside(edits, len, ordinal);
        return Some(edits[ordinal]), [];
      }
      ops := ops + [Op(ordinal, edits[ordinal])];
    }
    bad := None;
  }

  /** The byte counts are those of the replacements that change something. */
  predicate Counted(batch: Batch, effective: seq<Repl>) {
    batch.removedBytes == Removed(effective) && batch.insertedBytes == Added(effective)
  }

  /** `normalize_edits`: accepts exactly the batches in bounds and without overlaps, and then
      returns splices that read like the batch, are apart, and are correctly placed. */
  method NormalizeEdits(base: Option<Text>, edits: seq<Edit>) returns (r: Result<Batch, EditError>)
    ensures edits == [] ==> r == Ok(EmptyBatch())
    ensures edits != [] && base.None? ==> r == Err(Unopened)
    ensures edits != [] && base.Some? ==>
      (r.Ok? <==> AllEditsInBounds(edits, |base.value|) && !Overlapping(edits))
    ensures r.Err? ==> Blames(r.error, base, edits)
    ensures edits != [] && base.Some? && r.Ok? ==>
      && Describes(r.value.splices, r.value.inserted, Normal(base.value, edits))
      && Ordered(Normal(base.value, edits), 0, |base.value|) && Apart(Normal(base.value, edits))
      && Replaced(base.value, Normal(base.value, edits), 0) == Naive(base.value, edits)
      && |base.value| + r.value.insertedBytes - r.value.removedBytes == |Naive(base.value, edits)|
      && Counted(r.value, Effective(base.value, Groups(Ordering(edits)))) && r.value.validated == |edits|
  {
    if edits == [] { return Ok(EmptyBatch()); }
    if base.None? { return Err(Unopened); }
    var bad, numbered := Validate(edits, |base.value|);
    if bad.Some? { return Err(OutOfBounds(bad.value)); }
    r := NormalizeOps(base.value, edits, numbered);
  }

  method NormalizeOps(base: Text, edits: seq<Edit>, numbered: seq<Op>) returns (r: Result<Batch, EditError>)
    requires AllEditsInBounds(edits, |base|) && numbered == Numbered(edits, 0)
    ensures r.Ok? <==> !Overlapping(edits)
    ensures r.Err? ==> Blames(r.error, Some(base), edits)
    ensures r.Ok? ==>
      && Describes(r.value.splices, r.value.inserted, Normal(base, edits))
      && Ordered(Normal(base, edits), 0, |base|) && Apart(Normal(base, edits))
      && Replaced(base, Normal(base, edits), 0) == Naive(base, edits)
      && |base| + r.value.insertedBytes - r.value.removedBytes == |Naive(base, edits)|
      && Counted(r.value, Effective(base, Groups(Ordering(edits)))) && r.value.validated == |edits|
  {
    var ops := Sort(numbered);
    var repls := MergeOps(ops);
    OrderingHolds(edits, |base|);
    OverlapIffConflict(ops, |base|);
    var overlap := FindOverlap(repls);
    if overlap.Some? { return Err(Overlap(overlap.value.0, overlap.value.1)); }
    NormalIsNaive(base, edits);
    var placed := Place(base, repls, |edits|);
    ghost var effective := Effective(base, repls);
    EffectiveKeeps(base, repls, 0);
    OrderedBounds(effective, 0, |base|);
    Conservation(effective);
    ReplacedLength(base, effective);
    CoalescedKeeps(base, effective, 0);
    var merged, texts := MergeAdjacent(placed.splices, placed.inserted, effective);
    r := Ok(Batch(merged, texts, placed.validated, placed.removedBytes, placed.insertedBytes));
  }

  // ------------------------------------------------------------------ apply_splices

  /** Removing one old range and inserting its text, everything after it already replaced. */
  lemma ApplyOne(base: Text, repls: seq<Repl>, i: nat, rope: Text)
    requires Ordered(repls, 0, |base|) && i < |repls|
    requires Ordered(repls[i + 1..], 0, |base|) && rope == Replaced(base, repls[i + 1..], 0)
    ensures Ordered(repls[i..], 0, |base|)
    ensures repls[i].start <= repls[i].end <= |rope|
    ensures rope[..repls[i].start] + repls[i].text + rope[repls[i].end..] == Replaced(base, repls[i..], 0)
  {
    OrderedSuffix(repls, i, 0, |base|);
    assert repls[i..][0] == repls[i] && repls[i..][1..] == repls[i + 1..];
    ApplyHead(base, repls[i..], rope);
  }

  lemma ApplyHead(base: Text, repls: seq<Repl>, rope: Text)
    requires repls != [] && Ordered(repls, 0, |base|)
    requires Ordered(repls[1..], 0, |base|) && rope == Replaced(base, repls[1..], 0)
    ensures repls[0].start <= repls[0].end <= |rope|
    ensures rope[..repls[0].start] + repls[0].text + rope[repls[0].end..] == Replaced(base, repls, 0)
  {
    var r := repls[0];
    OrderedBounds(repls[1..], r.end, |base|);
    ReplacedLater(base, repls[1..], 0, r.end);
    PutBack(base, r, rope, Replaced(base, repls[1..], r.end));
  }

  lemma PutBack(base: Text, r: Repl, rope: Text, after: Text)
    requires r.start <= r.end <= |base| && rope == base[0..r.end] + after
    ensures rope[..r.start] + r.text + rope[r.end..] == base[0..r.start] + r.text + after
  {
    assert rope[..r.start] == base[0..r.start] && rope[r.end..] == after;
  }

  lemma {:induction false} OrderedSuffix(repls: seq<Repl>, i: nat, from: nat, len: nat)
    requires Ordered(repls, from, len) && i <= |repls|
    ensures Ordered(repls[i..], if i == 0 then from else repls[i - 1].end, len)
    ensures Ordered(repls[i..], from, len)
  {
    if i > 0 {
      OrderedSuffix(repls[1..], i - 1, repls[0].end, len);
      assert repls[i..] == repls[1..][i - 1..];
      OrderedBounds(repls, from, len);
      if repls[i..] != [] { assert repls[i..][0] == repls[i]; }
    }
  }

  /** The new range holds exactly the inserted text. */
  predicate Stands(s: Splice, text: Text, rope: Text) {
    s.newStart <= s.newEnd <= |rope| && rope[s.newStart..s.newEnd] == text
  }

  /** `apply_splices`: back to front, so earlier offsets stay valid. */
  method ApplySplices(base: Text, splices: seq<Splice>, inserted: seq<Text>, ghost repls: seq<Repl>)
    returns (rope: Text)
    requires Ordered(repls, 0, |base|) && Describes(splices, inserted, repls)
    ensures rope == Replaced(base, repls, 0)
    ensures forall i :: 0 <= i < |splices| ==> Stands(splices[i], inserted[i], rope)
  {
    rope := base;
    var i := |splices|;
    assert repls[i..] == [] && base[0..] == base;
    OrderedBounds(repls, 0, |base|);
    while i > 0
      invariant 0 <= i <= |splices|
      invariant Ordered(repls[i..], 0, |base|) && rope == Replaced(base, repls[i..], 0)
    {
      i := i - 1;
      ApplyOne(base, repls, i, rope);
      PlacedNext(splices, inserted, repls, i);
      var start, end := splices[i].oldStart, splices[i].oldEnd;
      var removed := rope[..start] + rope[end..];
      rope := if inserted[i] != "" then removed[..start] + inserted[i] + removed[start..] else removed;
    }
    assert repls[0..] == repls;
    AllStand(base, splices, inserted, repls);
  }

  lemma AllStand(base: Text, splices: seq<Splice>, inserted: seq<Text>, repls: seq<Repl>)
    requires Ordered(repls, 0, |base|) && Describes(splices, inserted, repls)
    ensures forall i :: 0 <= i < |splices| ==> Stands(splices[i], inserted[i], Replaced(base, repls, 0))
  {
    forall i | 0 <= i < |splices| ensures Stands(splices[i], inserted[i], Replaced(base, repls, 0)) {
      PlacedNext(splices, inserted, repls, i);
      TextStands(base, repls, i);
    }
  }

  /** What the workspace does with an accepted batch: the new text is the naive reading, and
      every new range holds exactly its inserted text. */
  method Edited(base: Text, edits: seq<Edit>) returns (r: Result<(Text, Batch), EditError>)
    ensures r.Ok? <==> edits == [] || (AllEditsInBounds(edits, |base|) && !Overlapping(edits))
    ensures r.Ok? ==> r.value.0 == Naive(base, edits)
    ensures r.Ok? ==> |r.value.1.splices| == |r.value.1.inserted|
    ensures r.Ok? ==> forall i :: 0 <= i < |r.value.1.splices| ==>
      Stands(r.value.1.splices[i], r.value.1.inserted[i], r.value.0)
  {
    var normal := NormalizeEdits(Some(base), edits);
    if normal.Err? { return Err(normal.error); }
    ghost var repls := if edits == [] then [] else Normal(base, edits);
    if edits == [] { NaiveNothing(base, 0); }
    assert base[0..] == base;
    var text := ApplySplices(base, normal.value.splices, normal.value.inserted, repls);
    r := Ok((text, normal.value));
  }

  // ------------------------------------------------------------------ which batches do nothing

  /** A batch leaves no splice exactly when every grouped replacement restates the old text. */
  lemma NoSpliceIff(base: Text, edits: seq<Edit>)
    ensures Normal(base, edits) == []
       <==> forall r :: r in Groups(Ordering(edits)) ==> SameText(base, r)
  {
    EffectiveNoneIff(base, Groups(Ordering(edits)));
    CoalescedNoneIff(Effective(base, Groups(Ordering(edits))));
  }

  lemma {:induction false} EffectiveNoneIff(base: Text, repls: seq<Repl>)
    ensures Effective(base, repls) == [] <==> forall r :: r in repls ==> SameText(base, r)
  {
    if repls != [] {
      EffectiveNoneIff(base, repls[1..]);
      assert repls == [repls[0]] + repls[1..];
    }
  }

  lemma {:induction false} CoalescedNoneIff(repls: seq<Repl>)
    ensures Coalesced(repls) == [] <==> repls == []
    decreases |repls|
  {
    if |repls| > 1 && repls[0].end == repls[1].start {
      CoalescedNoneIff([Fusion(repls[0], repls[1])] + repls[2..]);
    }
  }

  /** A surviving splice need not change the text: merging two effective neighbours can restate
      what was there. */
  lemma MergedSpliceMayBeIdentity()
    ensures var edits := [Delete(0, 1), Insert(1, "a")];
      Normal("aa", edits) == [Repl(0, 1, "a")] && SameText("aa", Repl(0, 1, "a")) && Naive("aa", edits) == "aa"
  {
    var edits := [Delete(0, 1), Insert(1, "a")];
    var repls := [Repl(0, 1, ""), Repl(1, 1, "a")];
    PairGroups(edits, repls);
    PairNormal(repls);
    NoOverlapPair(edits);
    NormalIsNaive("aa", edits);
    PairReplaced([Repl(0, 1, "a")]);
  }

  lemma PairReplaced(repls: seq<Repl>)
    requires repls == [Repl(0, 1, "a")]
    ensures Ordered(repls, 0, 2) && Replaced("aa", repls, 0) == "aa" && SameText("aa", repls[0])
  {
    assert repls[1..] == [];
    assert "aa"[0..0] == "" && "aa"[1..] == "a";
  }

  lemma {:induction false} PairGroups(edits: seq<Edit>, repls: seq<Repl>)
    requires edits == [Delete(0, 1), Insert(1, "a")] && repls == [Repl(0, 1, ""), Repl(1, 1, "a")]
    ensures Groups(Ordering(edits)) == repls
  {
    var first, second := Op(0, edits[0]), Op(1, edits[1]);
    assert edits[1..] == [edits[1]];
    assert Numbered(edits, 0) == [first, second];
    assert Sort([second]) == [second] by { assert [second][1..] == []; }
    assert Ordering(edits) == [first, second] by { assert [first, second][1..] == [second]; }
    assert FirstGroup([first, second]) == Group(Repl(0, 1, ""), 1);
    assert FirstGroup([second]) == Group(Repl(1, 1, "a"), 1);
    assert Groups([second]) == [Repl(1, 1, "a")];
  }

  lemma {:induction false} PairNormal(repls: seq<Repl>)
    requires repls == [Repl(0, 1, ""), Repl(1, 1, "a")]
    ensures Coalesced(Effective("aa", repls)) == [Repl(0, 1, "a")]
  {
    assert repls[1..] == [Repl(1, 1, "a")] && repls[1..][1..] == [];
    assert Effective("aa", repls[1..]) == [Repl(1, 1, "a")];
    assert Effective("aa", repls) == repls;
    assert "" + "a" == "a";
    assert [Fusion(repls[0], repls[1])] + repls[2..] == [Repl(0, 1, "a")];
  }

  lemma NoOverlapPair(edits: seq<Edit>)
    requires edits == [Delete(0, 1), Insert(1, "a")]
    ensures AllEditsInBounds(edits, 2) && !Overlapping(edits)
  {
  }
}
