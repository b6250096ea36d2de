/** Ordering a batch of edits and grouping it into replacements. */
module SourceOrder {
  import opened Wrappers
  import opened SourceText

  // ------------------------------------------------------------------ ordering the operations

  datatype Op = Op(ordinal: nat, edit: Edit)

  /** By position; at one position inserts before deletes; then caller order. */
  predicate Less(a: Op, b: Op) {
    if a.edit.Pos() != b.edit.Pos() then a.edit.Pos() < b.edit.Pos()
    else if a.edit.Insert? != b.edit.Insert? then a.edit.Insert?
    else a.ordinal < b.ordinal
  }

  function InsertOp(op: Op, ops: seq<Op>): seq<Op> {
    if ops == [] then [op]
    else if Less(op, ops[0]) then [op] + ops
    else [ops[0]] + InsertOp(op, ops[1..])
  }

  function Sort(ops: seq<Op>): seq<Op> {
    if ops == [] then [] else InsertOp(ops[0], Sort(ops[1..]))
  }

  function Numbered(edits: seq<Edit>, from: nat): (ops: seq<Op>)
    ensures |ops| == |edits|
    ensures forall i :: 0 <= i < |ops| ==> ops[i] == Op(from + i, edits[i])
  {
    if edits == [] then [] else [Op(from, edits[0])] + Numbered(edits[1..], from + 1)
  }

  function EditsOf(ops: seq<Op>): (edits: seq<Edit>)
    ensures |edits| == |ops| && forall i :: 0 <= i < |ops| ==> edits[i] == ops[i].edit
  {
    if ops == [] then [] else [ops[0].edit] + EditsOf(ops[1..])
  }

  ghost predicate Sorted(ops: seq<Op>) {
    forall i, j :: 0 <= i < j < |ops| ==> Less(ops[i], ops[j])
  }

  ghost predicate After(ops: seq<Op>, ordinal: nat) {
    forall i :: 0 <= i < |ops| ==> ops[i].ordinal > ordinal
  }

  lemma {:induction false} InsertOpMembers(op: Op, ops: seq<Op>)
    ensures multiset(InsertOp(op, ops)) == multiset{op} + multiset(ops)
  {
    if ops != [] {
      assert ops == [ops[0]] + ops[1..];
      if !Less(op, ops[0]) { InsertOpMembers(op, ops[1..]); }
    }
  }

  lemma {:induction false} InsertOpSorted(op: Op, ops: seq<Op>)
    requires Sorted(ops) && After(ops, op.ordinal)
    ensures Sorted(InsertOp(op, ops))
  {
    if ops != [] && !Less(op, ops[0]) {
      InsertOpSorted(op, ops[1..]);
      InsertOpMembers(op, ops[1..]);
      forall x | x in InsertOp(op, ops[1..]) ensures Less(ops[0], x) {
        assert x in multiset(InsertOp(op, ops[1..]));
      }
    }
  }

  /** The earliest operation goes in front of every insert at its own position. */
  lemma {:induction false} InsertOpReads(op: Op, ops: seq<Op>, p: nat)
    requires After(ops, op.ordinal)
    ensures InsertsAt(EditsOf(InsertOp(op, ops)), p) == Inserted(op.edit, p) + InsertsAt(EditsOf(ops), p)
    ensures DeletedAt(EditsOf(InsertOp(op, ops)), p) <==> Covers(op.edit, p) || DeletedAt(EditsOf(ops), p)
  {
    var all := InsertOp(op, ops);
    assert EditsOf(all)[1..] == EditsOf(all[1..]);
    if ops != [] {
      assert EditsOf(ops)[1..] == EditsOf(ops[1..]);
      if !Less(op, ops[0]) {
        InsertOpReads(op, ops[1..], p);
        assert all[1..] == InsertOp(op, ops[1..]);
      } else {
        assert all[1..] == ops;
      }
    } else {
      assert all[1..] == [];
    }
  }

  lemma {:induction false} SortHolds(ops: seq<Op>)
    requires forall i, j :: 0 <= i < j < |ops| ==> ops[i].ordinal < ops[j].ordinal
    ensures Sorted(Sort(ops)) && multiset(Sort(ops)) == multiset(ops)
    ensures ops != [] ==> After(Sort(ops[1..]), ops[0].ordinal)
  {
    if ops != [] {
      var rest := ops[1..];
      SortHolds(rest);
      assert ops == [ops[0]] + rest;
      forall x | x in Sort(rest) ensures x.ordinal > ops[0].ordinal {
        assert x in multiset(Sort(rest));
        assert x in rest;
      }
      InsertOpSorted(ops[0], Sort(rest));
      InsertOpMembers(ops[0], Sort(rest));
    }
  }

  /** Sorting does not change what the batch means. */
  lemma {:induction false} SortReads(ops: seq<Op>, p: nat)
    requires forall i, j :: 0 <= i < j < |ops| ==> ops[i].ordinal < ops[j].ordinal
    ensures InsertsAt(EditsOf(Sort(ops)), p) == InsertsAt(EditsOf(ops), p)
    ensures DeletedAt(EditsOf(Sort(ops)), p) == DeletedAt(EditsOf(ops), p)
  {
    if ops != [] {
      SortHolds(ops);
      SortReads(ops[1..], p);
      InsertOpReads(ops[0], Sort(ops[1..]), p);
      assert EditsOf(ops)[1..] == EditsOf(ops[1..]);
    }
  }

  // ------------------------------------------------------------------ grouping into replacements

  /** One replacement and how many operations it takes. */
  datatype Group = Group(repl: Repl, count: nat)

  /** The run loop: inserts at `at`, and at most one delete starting there. */
  function Run(ops: seq<Op>, at: nat, g: Group, taken: bool): (r: Group)
    ensures g.count <= r.count <= g.count + |ops|
    ensures r.repl.start == g.repl.start
  {
    if ops == [] then g
    else if ops[0].edit.Insert? && ops[0].edit.at == at then
      Run(ops[1..], at, Group(g.repl.(text := g.repl.text + ops[0].edit.value), g.count + 1), taken)
    else if ops[0].edit.Delete? && !taken && ops[0].edit.start == at then
      Run(ops[1..], at, Group(g.repl.(end := ops[0].edit.end), g.count + 1), true)
    else g
  }

  function FirstGroup(ops: seq<Op>): (r: Group)
    requires ops != []
    ensures 0 < r.count <= |ops| && r.repl.start == ops[0].edit.Pos()
  {
    match ops[0].edit
    case Insert(at, value) => Run(ops[1..], at, Group(Repl(at, at, value), 1), false)
    case Delete(start, end) => Run(ops[1..], start, Group(Repl(start, end, ""), 1), true)
  }

  function Groups(ops: seq<Op>): seq<Repl> {
    if ops == [] then []
    else
      var g := FirstGroup(ops);
      [g.repl] + Groups(ops[g.count..])
  }

  /** The group reads like its operations, and what is left starts no earlier. */
  ghost predicate GroupReads(repl: Repl, ops: seq<Op>, rest: seq<Op>) {
    forall p: nat ::
      && InsertsAt(EditsOf(ops), p) == (if p == repl.start then repl.text else "") + InsertsAt(EditsOf(rest), p)
      && (DeletedAt(EditsOf(ops), p) <==> repl.start <= p < repl.end || DeletedAt(EditsOf(rest), p))
  }

  lemma ConsReads(op: Op, ops: seq<Op>, p: nat)
    ensures InsertsAt(EditsOf([op] + ops), p) == Inserted(op.edit, p) + InsertsAt(EditsOf(ops), p)
    ensures DeletedAt(EditsOf([op] + ops), p) <==> Covers(op.edit, p) || DeletedAt(EditsOf(ops), p)
  {
    var all := [op] + ops;
    assert all[1..] == ops;
    assert EditsOf(all)[1..] == EditsOf(ops);
  }

  /** Before any remaining operations, `done` reads like the one replacement. */
  ghost predicate ReadsAs(repl: Repl, done: seq<Op>) {
    forall tail: seq<Op> :: GroupReads(repl, done + tail, tail)
  }

  lemma ReadsBefore(repl: Repl, done: seq<Op>, tail: seq<Op>)
    requires ReadsAs(repl, done)
    ensures GroupReads(repl, done + tail, tail)
  {
  }

  lemma RunStepReads(g: Repl, next: Repl, op: Op, done: seq<Op>)
    requires ReadsAs(g, done) && op.edit.Pos() == g.start
    requires op.edit.Insert? ==> next == g.(text := g.text + op.edit.value)
    requires op.edit.Delete? ==> next == g.(end := op.edit.end) && g.end == g.start
    ensures ReadsAs(next, done + [op])
  {
    forall tail: seq<Op> ensures GroupReads(next, done + [op] + tail, tail) {
      ReadsBefore(g, done, [op] + tail);
      RunStep(g, next, op, done, tail);
    }
  }

  /** `done` operations read like `g` so far, given what the remaining ones read like. */
  lemma {:induction false} RunReads(ops: seq<Op>, at: nat, g: Group, taken: bool, done: seq<Op>)
    requires g.repl.start == at && |done| == g.count
    requires !taken ==> g.repl.end == at
    requires ReadsAs(g.repl, done)
    ensures var r := Run(ops, at, g, taken);
      GroupReads(r.repl, done + ops, (done + ops)[r.count..])
  {
    assert (done + ops)[g.count..] == ops;
    ReadsBefore(g.repl, done, ops);
    if ops != [] && ((ops[0].edit.Insert? && ops[0].edit.at == at)
                     || (ops[0].edit.Delete? && !taken && ops[0].edit.start == at)) {
      var op, more := ops[0], done + [ops[0]];
      var next := if op.edit.Insert? then Group(g.repl.(text := g.repl.text + op.edit.value), g.count + 1)
                  else Group(g.repl.(end := op.edit.end), g.count + 1);
      RunStepReads(g.repl, next.repl, op, done);
      RunReads(ops[1..], at, next, taken || op.edit.Delete?, more);
      assert more + ops[1..] == done + ops;
    }
  }

  lemma RunStep(g: Repl, next: Repl, op: Op, done: seq<Op>, tail: seq<Op>)
    requires GroupReads(g, done + ([op] + tail), [op] + tail)
    requires op.edit.Pos() == g.start
    requires op.edit.Insert? ==> next == g.(text := g.text + op.edit.value)
    requires op.edit.Delete? ==> next == g.(end := op.edit.end) && g.end == g.start
    ensures GroupReads(next, done + [op] + tail, tail)
  {
    Associate(done, [op], tail);
    forall p: nat
      ensures InsertsAt(EditsOf(done + [op] + tail), p)
           == (if p == next.start then next.text else "") + InsertsAt(EditsOf(tail), p)
      ensures DeletedAt(EditsOf(done + [op] + tail), p)
         <==> next.start <= p < next.end || DeletedAt(EditsOf(tail), p)
    {
      ConsReads(op, tail, p);
      Associate(if p == g.start then g.text else "", Inserted(op.edit, p), InsertsAt(EditsOf(tail), p));
    }
  }

  lemma FirstGroupReads(ops: seq<Op>)
    requires ops != []
    ensures var g := FirstGroup(ops); GroupReads(g.repl, ops, ops[g.count..])
  {
    var op := ops[0];
    var g := if op.edit.Insert? then Group(Repl(op.edit.at, op.edit.at, op.edit.value), 1)
             else Group(Repl(op.edit.start, op.edit.end, ""), 1);
    forall tail: seq<Op> ensures GroupReads(g.repl, [op] + tail, tail) {
      forall p: nat { ConsReads(op, tail, p); }
    }
    RunReads(ops[1..], op.edit.Pos(), g, op.edit.Delete?, [op]);
    assert [op] + ops[1..] == ops;
  }

  // ------------------------------------------------------------------ bounds and overlaps

  ghost predicate AllInBounds(ops: seq<Op>, len: nat) {
    forall i :: 0 <= i < |ops| ==> ops[i].edit.InBounds(len)
  }

  /** The operations of one group: one position, at most one delete, and its end is the group's. */
  ghost predicate GroupShape(ops: seq<Op>, g: Group) {
    && g.count <= |ops|
    && (forall i :: 0 <= i < g.count ==> ops[i].edit.Pos() == g.repl.start)
    && (forall i :: 0 <= i < g.count && ops[i].edit.Delete? ==> ops[i].edit.end == g.repl.end)
    && (forall i, j :: 0 <= i < j < g.count && ops[i].edit.Delete? ==> ops[j].edit.Insert?)
    && (g.repl.end == g.repl.start || exists i :: 0 <= i < g.count && ops[i].edit.Delete?)
  }

  lemma {:induction false} RunShape(all: seq<Op>, ops: seq<Op>, g: Group, taken: bool)
    requires g.count <= |all| && ops == all[g.count..] && GroupShape(all, g)
    requires !taken ==> g.repl.end == g.repl.start && forall i :: 0 <= i < g.count ==> all[i].edit.Insert?
    ensures GroupShape(all, Run(ops, g.repl.start, g, taken))
    decreases |ops|
  {
    if ops != [] {
      assert all[g.count] == ops[0] && all[g.count + 1..] == ops[1..];
      if ops[0].edit.Insert? && ops[0].edit.at == g.repl.start {
        RunShape(all, ops[1..], Group(g.repl.(text := g.repl.text + ops[0].edit.value), g.count + 1), taken);
      } else if ops[0].edit.Delete? && !taken && ops[0].edit.start == g.repl.start {
        RunShape(all, ops[1..], Group(g.repl.(end := ops[0].edit.end), g.count + 1), true);
      }
    }
  }

  lemma FirstGroupShape(ops: seq<Op>, len: nat)
    requires ops != [] && AllInBounds(ops, len)
    ensures GroupShape(ops, FirstGroup(ops))
    ensures FirstGroup(ops).repl.start <= FirstGroup(ops).repl.end <= len
  {
    var op := ops[0];
    var g := if op.edit.Insert? then Group(Repl(op.edit.at, op.edit.at, op.edit.value), 1)
             else Group(Repl(op.edit.start, op.edit.end, ""), 1);
    RunShape(ops, ops[1..], g, op.edit.Delete?);
    assert op.edit.InBounds(len);
    var r := FirstGroup(ops);
    if r.repl.end != r.repl.start {
      var i :| 0 <= i < r.count && ops[i].edit.Delete?;
      assert ops[i].edit.InBounds(len);
    }
  }

  /** A delete reaching past the start of an operation ordered after it. */
  predicate Clashes(a: Op, b: Op) {
    a.edit.Delete? && a.edit.end > b.edit.Pos() && Less(a, b)
  }

  ghost predicate Conflict(ops: seq<Op>) {
    exists i, j :: 0 <= i < |ops| && 0 <= j < |ops| && Clashes(ops[i], ops[j])
  }

  ghost predicate Touching(a: Repl, b: Repl) {
    a.end <= b.start
  }

  /** The overlap check over neighbouring replacements. */
  ghost predicate NoOverlap(repls: seq<Repl>) {
    forall i, j :: 0 <= i && j == i + 1 && j < |repls| ==> Touching(repls[i], repls[j])
  }

  lemma NoOverlapCons(first: Repl, rest: seq<Repl>)
    ensures NoOverlap([first] + rest) <==> NoOverlap(rest) && (rest != [] ==> first.end <= rest[0].start)
  {
    var all := [first] + rest;
    if NoOverlap(all) {
      forall i, j | 0 <= i && j == i + 1 && j < |rest| ensures Touching(rest[i], rest[j]) {
        assert Touching(all[i + 1], all[j + 1]);
      }
      if rest != [] { assert Touching(all[0], all[1]); }
    }
  }

  lemma GroupsCons(ops: seq<Op>)
    requires ops != []
    ensures var g := FirstGroup(ops);
      && Groups(ops) == [g.repl] + Groups(ops[g.count..])
      && (ops[g.count..] != [] ==>
            Groups(ops[g.count..]) != [] && Groups(ops[g.count..])[0].start == ops[g.count].edit.Pos())
  {
  }

  lemma LessAsymmetric(a: Op, b: Op)
    ensures !(Less(a, b) && Less(b, a))
  {
  }

  lemma ConflictInside(ops: seq<Op>, g: Group)
    requires Sorted(ops) && GroupShape(ops, g) && Conflict(ops) && 0 < g.count
    ensures Conflict(ops[g.count..]) || (g.count < |ops| && g.repl.end > ops[g.count].edit.Pos())
  {
    var i, j :| 0 <= i < |ops| && 0 <= j < |ops| && Clashes(ops[i], ops[j]);
    LessAsymmetric(ops[i], ops[j]);
    assert i < j;
    var rest := ops[g.count..];
    if i >= g.count {
      assert Clashes(rest[i - g.count], rest[j - g.count]);
    } else {
      assert ops[i].edit.end == g.repl.end;
      assert j >= g.count;
      assert g.count == j || Less(ops[g.count], ops[j]);
    }
  }

  lemma ConflictOutside(ops: seq<Op>, g: Group)
    requires Sorted(ops) && GroupShape(ops, g) && 0 < g.count < |ops|
    requires g.repl.end > ops[g.count].edit.Pos() || Conflict(ops[g.count..])
    ensures Conflict(ops)
  {
    var rest := ops[g.count..];
    if Conflict(rest) {
      var i, j :| 0 <= i < |rest| && 0 <= j < |rest| && Clashes(rest[i], rest[j]);
      assert Clashes(ops[g.count + i], ops[g.count + j]);
    } else {
      assert Less(ops[0], ops[g.count]);
      var i :| 0 <= i < g.count && ops[i].edit.Delete?;
      assert Less(ops[i], ops[g.count]);
      assert Clashes(ops[i], ops[g.count]);
    }
  }

  /** The neighbour check finds exactly the batches with two clashing operations. */
  lemma {:induction false} OverlapIffConflict(ops: seq<Op>, len: nat)
    requires Sorted(ops) && AllInBounds(ops, len)
    ensures NoOverlap(Groups(ops)) <==> !Conflict(ops)
    decreases |ops|
  {
    if ops != [] {
      var g := FirstGroup(ops);
      var rest := ops[g.count..];
      FirstGroupShape(ops, len);
      GroupsCons(ops);
      OverlapIffConflict(rest, len);
      NoOverlapCons(g.repl, Groups(rest));
      if Conflict(ops) { ConflictInside(ops, g); }
      if rest != [] && (g.repl.end > rest[0].edit.Pos() || Conflict(rest)) { ConflictOutside(ops, g); }
    }
  }

  /** Without overlaps the replacements are in order and inside the text. */
  lemma {:induction false} GroupsOrdered(ops: seq<Op>, from: nat, len: nat)
    requires AllInBounds(ops, len) && NoOverlap(Groups(ops)) && from <= len
    requires ops != [] ==> from <= ops[0].edit.Pos()
    ensures Ordered(Groups(ops), from, len)
    decreases |ops|
  {
    if ops != [] {
      var g := FirstGroup(ops);
      var rest := ops[g.count..];
      FirstGroupShape(ops, len);
      GroupsCons(ops);
      NoOverlapCons(g.repl, Groups(rest));
      GroupsOrdered(rest, g.repl.end, len);
    }
  }

  // ------------------------------------------------------------------ the naive reading

  lemma {:induction false} NothingBefore(ops: seq<Op>, lo: nat, p: nat)
    requires p < lo && forall i :: 0 <= i < |ops| ==> ops[i].edit.Pos() >= lo
    ensures InsertsAt(EditsOf(ops), p) == "" && !DeletedAt(EditsOf(ops), p)
  {
    if ops != [] {
      assert [ops[0]] + ops[1..] == ops;
      ConsReads(ops[0], ops[1..], p);
      NothingBefore(ops[1..], lo, p);
    }
  }

  lemma NothingBeforeAll(ops: seq<Op>, lo: nat)
    requires Sorted(ops) && (ops != [] ==> lo <= ops[0].edit.Pos())
    ensures forall p: nat :: p < lo ==> InsertsAt(EditsOf(ops), p) == "" && !DeletedAt(EditsOf(ops), p)
  {
    forall i | 0 <= i < |ops| ensures ops[i].edit.Pos() >= lo {
      assert i == 0 || Less(ops[0], ops[i]);
    }
    forall p: nat | p < lo ensures InsertsAt(EditsOf(ops), p) == "" && !DeletedAt(EditsOf(ops), p) {
      NothingBefore(ops, lo, p);
    }
  }

  lemma FourParts(a: Text, b: Text, c: Text, d: Text, x: Text, y: Text)
    requires x == a + b && y == b + c + d
    ensures x + c + d == a + y
  {
  }

  /** Inserts only: the later operations may still touch this position. */
  lemma PointReads(base: Text, at: nat, text: Text, whole: seq<Edit>, later: seq<Edit>)
    requires at <= |base| && SameFrom(whole, later, at + 1)
    requires InsertsAt(whole, at) == text + InsertsAt(later, at)
    requires DeletedAt(whole, at) == DeletedAt(later, at)
    ensures NaiveFrom(base, whole, at) == text + NaiveFrom(base, later, at)
  {
    NaiveSame(base, whole, later, at + 1);
    FourParts(text, InsertsAt(later, at), Kept(base, later, at), NaiveFrom(base, later, at + 1),
      InsertsAt(whole, at), NaiveFrom(base, later, at));
  }

  /** A deleted stretch: nothing else happens strictly inside it. */
  lemma RangeReads(base: Text, at: nat, end: nat, text: Text, whole: seq<Edit>, later: seq<Edit>)
    requires at < end <= |base| && InsertsAt(whole, at) == text && DeletedAt(whole, at)
    requires Erased(whole, at + 1, end) && SameFrom(whole, later, end)
    ensures NaiveFrom(base, whole, at) == text + NaiveFrom(base, later, end)
  {
    NaiveErased(base, whole, at + 1, end);
    NaiveSame(base, whole, later, end);
    assert text + "" == text;
  }

  /** One replacement accounts for the stretch it covers. */
  lemma StretchReads(base: Text, repl: Repl, ops: seq<Op>, rest: seq<Op>, from: nat)
    requires GroupReads(repl, ops, rest) && from <= repl.start <= repl.end <= |base|
    requires forall p: nat :: p < repl.end ==> InsertsAt(EditsOf(rest), p) == "" && !DeletedAt(EditsOf(rest), p)
    ensures NaiveFrom(base, EditsOf(ops), from)
         == base[from..repl.start] + repl.text + NaiveFrom(base, EditsOf(rest), repl.end)
  {
    var whole, later := EditsOf(ops), EditsOf(rest);
    NaiveUntouched(base, whole, from, repl.start);
    if repl.end == repl.start {
      PointReads(base, repl.start, repl.text, whole, later);
    } else {
      RangeReads(base, repl.start, repl.end, repl.text, whole, later);
    }
    Associate(base[from..repl.start], repl.text, NaiveFrom(base, later, repl.end));
  }

  lemma {:induction false} NaiveNothing(base: Text, p: nat)
    requires p <= |base|
    ensures NaiveFrom(base, [], p) == base[p..]
    decreases |base| - p
  {
    if p < |base| { NaiveNothing(base, p + 1); }
  }

  /** The grouped replacements produce the naive reading of the ordered operations. */
  lemma {:induction false} GroupsNaive(base: Text, ops: seq<Op>, from: nat)
    requires Sorted(ops) && AllInBounds(ops, |base|) && Ordered(Groups(ops), from, |base|)
    ensures Replaced(base, Groups(ops), from) == NaiveFrom(base, EditsOf(ops), from)
    decreases |ops|
  {
    if ops == [] {
      NaiveNothing(base, from);
    } else {
      var g := FirstGroup(ops);
      var rest := ops[g.count..];
      GroupsCons(ops);
      FirstGroupShape(ops, |base|);
      assert Groups(ops)[1..] == Groups(rest);
      GroupsNaive(base, rest, g.repl.end);
      GroupReadsFirst(base, ops, from);
    }
  }

  lemma GroupReadsFirst(base: Text, ops: seq<Op>, from: nat)
    requires ops != [] && Sorted(ops) && AllInBounds(ops, |base|) && Ordered(Groups(ops), from, |base|)
    ensures var g, rest := FirstGroup(ops), ops[FirstGroup(ops).count..];
      && from <= g.repl.start <= g.repl.end <= |base|
      && NaiveFrom(base, EditsOf(ops), from)
      == base[from..g.repl.start] + g.repl.text + NaiveFrom(base, EditsOf(rest), g.repl.end)
  {
    var g := FirstGroup(ops);
    var rest := ops[g.count..];
    GroupsCons(ops);
    FirstGroupShape(ops, |base|);
    OrderedBounds(Groups(ops), from, |base|);
    FirstGroupReads(ops);
    NothingBeforeAll(rest, g.repl.end);
    StretchReads(base, g.repl, ops, rest, from);
  }
}
