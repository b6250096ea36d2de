/** Lowering keeps the meaning of a rule expression: its parses and the derivations of the
    productions it registers correspond one to one, word for word. */
module GrammarMeaning {
  import opened Wrappers
  import opened GrammarLowering
  import opened GrammarTrees
  import opened GrammarRepeats

  // ------------------------------------------------------------------ from a parse to its derivations

  ghost function Derive(e: Expr, at: nat, t: Parse): seq<Tree>
    requires Binary(e) && Fits(e, t)
    decreases e, 0
  {
    match e
    case Empty => []
    case Atom(id) => [Token(id)]
    case Seq(items) => DeriveAll(items, at, t.items)
    case Alt(items) =>
      var left := Lower(items[0], at);
      var right := Lower(items[1], left.next);
      if t.index == 0 then [Node(AltRules(left, right)[0], Derive(items[0], at, t.item))]
      else [Node(AltRules(left, right)[1], Derive(items[1], left.next, t.item))]
    case Optional(inner) =>
      var rules := OptionalRules(Lower(inner, at));
      if t.Absent? then [Node(rules[0], [])] else [Node(rules[1], Derive(inner, at, t.item))]
    case Named(_, inner) => Derive(inner, at, t.item)
    case Repeat(inner, separator, min, max) =>
      var item := Lower(inner, at);
      [Spread(item, LowerSeparator(separator, Skip(item.next)), min, max, DeriveEach(inner, at, t.items),
         DeriveGaps(separator, Skip(item.next), t.separators, |t.items|))]
  }

  ghost function DeriveAll(es: seq<Expr>, at: nat, ts: seq<Parse>): seq<Tree>
    requires AllBinary(es) && FitsAll(es, ts)
    decreases es, 0
  {
    if es == [] then []
    else
      var n := |es| - 1;
      DeriveAll(es[..n], at, ts[..n]) + Derive(es[n], LowerAll(es[..n], at).next, ts[n])
  }

  ghost function DeriveEach(e: Expr, at: nat, ts: seq<Parse>): (r: seq<seq<Tree>>)
    requires Binary(e) && FitsEach(e, ts)
    ensures |r| == |ts| && forall i :: 0 <= i < |ts| ==> r[i] == Derive(e, at, ts[i])
    decreases e, 1
  {
    seq(|ts|, i requires 0 <= i < |ts| => Derive(e, at, ts[i]))
  }

  ghost function DeriveGaps(separator: Option<Expr>, at: nat, ts: seq<Parse>, count: nat): (r: seq<seq<Tree>>)
    requires separator.Some? ==> Binary(separator.value)
    requires Separated(separator) ==> |ts| == Gaps(count) && FitsEach(separator.value, ts)
    ensures |r| == Gaps(count)
    decreases separator, 2
  {
    if Separated(separator) then DeriveEach(separator.value, at, ts) else Blank(count)
  }

  // ------------------------------------------------------------------ reading derivations back

  function Read(e: Expr, at: nat, ds: seq<Tree>): Parse
    requires Binary(e)
    decreases e, 0
  {
    match e
    case Empty => Unit
    case Atom(_) => if |ds| == 1 && ds[0].Token? then Leaf(ds[0].id) else Unit
    case Seq(items) => Items(ReadAll(items, at, ds))
    case Alt(items) =>
      var left := Lower(items[0], at);
      var right := Lower(items[1], left.next);
      if |ds| != 1 || ds[0].Token? then Unit
      else if ds[0].rule == AltRules(left, right)[0] then Choice(0, Read(items[0], at, ds[0].children))
      else Choice(1, Read(items[1], left.next, ds[0].children))
    case Optional(inner) =>
      var rules := OptionalRules(Lower(inner, at));
      if |ds| != 1 || ds[0].Token? || ds[0].rule == rules[0] then Absent
      else Present(Read(inner, at, ds[0].children))
    case Named(_, inner) => Labelled(Read(inner, at, ds))
    case Repeat(inner, separator, min, max) =>
      var item := Lower(inner, at);
      var sep := LowerSeparator(separator, Skip(item.next));
      if |ds| != 1 then Unit
      else
        Repeated(ReadEach(inner, at, GatherChunks(item, sep, min, max, ds[0])),
          if Separated(separator)
          then ReadEach(separator.value, Skip(item.next), GatherGaps(item, sep, min, max, ds[0]))
          else [])
  }

  function ReadAll(es: seq<Expr>, at: nat, ds: seq<Tree>): seq<Parse>
    requires AllBinary(es)
    decreases es, 0
  {
    if es == [] then []
    else
      var n := |es| - 1;
      var cut := LastAt(ds, Width(es[n]));
      ReadAll(es[..n], at, ds[..cut]) + [Read(es[n], LowerAll(es[..n], at).next, ds[cut..])]
  }

  function ReadEach(e: Expr, at: nat, chunks: seq<seq<Tree>>): (r: seq<Parse>)
    requires Binary(e)
    ensures |r| == |chunks| && forall i :: 0 <= i < |chunks| ==> r[i] == Read(e, at, chunks[i])
    decreases e, 1
  {
    seq(|chunks|, i requires 0 <= i < |chunks| => Read(e, at, chunks[i]))
  }

  // ------------------------------------------------------------------ every parse has its derivation

  /** The derivations of a parse are valid, spell its word, and read back as it. */
  ghost predicate Faithful(rules: seq<Production>, e: Expr, at: nat, t: Parse)
    requires Binary(e) && Fits(e, t)
  {
    && Stands(rules, Derive(e, at, t), Lower(e, at).symbols)
    && Words(Derive(e, at, t)) == Spell(t)
    && Read(e, at, Derive(e, at, t)) == t
  }

  lemma {:induction false} DeriveHolds(rules: seq<Production>, e: Expr, at: nat, t: Parse)
    requires Binary(e) && Fits(e, t) && Has(rules, Lower(e, at).rules)
    ensures Faithful(rules, e, at, t)
    decreases e, 4
  {
    match e
    case Empty =>
    case Atom(id) => AtomFaithful(rules, id, at);
    case Seq(items) => DeriveAllHolds(rules, items, at, t.items);
    case Alt(items) => DeriveAltHolds(rules, items, at, t);
    case Optional(inner) => DeriveOptionalHolds(rules, inner, at, t);
    case Named(_, inner) => DeriveHolds(rules, inner, at, t.item);
    case Repeat(inner, separator, min, max) => DeriveRepeatHolds(rules, inner, separator, min, max, at, t, e);
  }

  lemma AtomFaithful(rules: seq<Production>, id: int, at: nat)
    ensures Faithful(rules, Atom(id), at, Leaf(id))
  {
    var ds := [Token(id)];
    WordsOne(Token(id));
    assert Roots(ds) == [Defined(id)] && AllValid(rules, ds);
    assert Derive(Atom(id), at, Leaf(id)) == ds;
  }

  lemma {:induction false} DeriveOptionalHolds(rules: seq<Production>, inner: Expr, at: nat, t: Parse)
    requires Binary(inner) && Fits(Optional(inner), t) && Has(rules, OptionalOf(Lower(inner, at)).rules)
    ensures Faithful(rules, Optional(inner), at, t)
    decreases inner, 5
  {
    var x := Lower(inner, at);
    var mine := OptionalRules(x);
    assert mine[0] in OptionalOf(x).rules && mine[1] in OptionalOf(x).rules;
    if t.Absent? {
      NodeStands(rules, mine[0], []);
      WordsOne(Node(mine[0], []));
    } else {
      DeriveHolds(rules, inner, at, t.item);
      var below := Derive(inner, at, t.item);
      NodeStands(rules, mine[1], below);
      WordsOne(Node(mine[1], below));
    }
  }

  lemma {:induction false} DeriveAltHolds(rules: seq<Production>, items: seq<Expr>, at: nat, t: Parse)
    requires Binary(Alt(items)) && Fits(Alt(items), t) && Has(rules, Lower(Alt(items), at).rules)
    ensures Faithful(rules, Alt(items), at, t)
    decreases items, 2
  {
    var left := Lower(items[0], at);
    var right := Lower(items[1], left.next);
    var mine := AltRules(left, right);
    assert mine[0] in AltOf(left, right).rules && mine[1] in AltOf(left, right).rules;
    if t.index == 0 {
      DeriveHolds(rules, items[0], at, t.item);
      NodeStands(rules, mine[0], Derive(items[0], at, t.item));
      WordsOne(Node(mine[0], Derive(items[0], at, t.item)));
    } else {
      DeriveHolds(rules, items[1], left.next, t.item);
      NodeStands(rules, mine[1], Derive(items[1], left.next, t.item));
      WordsOne(Node(mine[1], Derive(items[1], left.next, t.item)));
    }
  }

  ghost predicate FaithfulAll(rules: seq<Production>, es: seq<Expr>, at: nat, ts: seq<Parse>)
    requires AllBinary(es) && FitsAll(es, ts)
  {
    && Stands(rules, DeriveAll(es, at, ts), LowerAll(es, at).symbols)
    && Words(DeriveAll(es, at, ts)) == SpellAll(ts)
    && ReadAll(es, at, DeriveAll(es, at, ts)) == ts
  }

  lemma {:induction false} DeriveAllHolds(rules: seq<Production>, es: seq<Expr>, at: nat, ts: seq<Parse>)
    requires AllBinary(es) && FitsAll(es, ts) && Has(rules, LowerAll(es, at).rules)
    ensures FaithfulAll(rules, es, at, ts)
    decreases es, 0
  {
    if es != [] {
      var n := |es| - 1;
      var front := LowerAll(es[..n], at);
      HasBoth(rules, front.rules, Lower(es[n], front.next).rules);
      DeriveAllHolds(rules, es[..n], at, ts[..n]);
      DeriveHolds(rules, es[n], front.next, ts[n]);
      FaithfulSnoc(rules, es, at, ts, n, front);
    }
  }

  lemma FaithfulSnoc(rules: seq<Production>, es: seq<Expr>, at: nat, ts: seq<Parse>, n: nat, front: Lowered)
    requires AllBinary(es) && FitsAll(es, ts) && n + 1 == |es| && front == LowerAll(es[..n], at)
    requires |ts| == |es| && ts == ts[..n] + [ts[n]]
    requires FaithfulAll(rules, es[..n], at, ts[..n]) && Faithful(rules, es[n], front.next, ts[n])
    ensures FaithfulAll(rules, es, at, ts)
  {
    var last := Lower(es[n], front.next);
    var a, b := DeriveAll(es[..n], at, ts[..n]), Derive(es[n], front.next, ts[n]);
    StandsConcat(rules, a, b, front.symbols, last.symbols);
    WordsConcat(a, b);
    ReadAllSnoc(es, at, a, b, n, front.next);
  }

  lemma ReadAllSnoc(es: seq<Expr>, at: nat, a: seq<Tree>, b: seq<Tree>, n: nat, middle: nat)
    requires AllBinary(es) && n + 1 == |es| && middle == LowerAll(es[..n], at).next && |b| == Width(es[n])
    ensures ReadAll(es, at, a + b) == ReadAll(es[..n], at, a) + [Read(es[n], middle, b)]
  {
    var cut := LastAt(a + b, Width(es[n]));
    assert (a + b)[..cut] == a && (a + b)[cut..] == b;
  }

  lemma {:induction false} DeriveEachHolds(rules: seq<Production>, e: Expr, at: nat, ts: seq<Parse>)
    requires Binary(e) && FitsEach(e, ts) && Has(rules, Lower(e, at).rules)
    ensures forall i :: 0 <= i < |ts| ==> Stands(rules, DeriveEach(e, at, ts)[i], Lower(e, at).symbols)
    ensures WordsEach(DeriveEach(e, at, ts)) == SpellEach(ts)
    ensures ReadEach(e, at, DeriveEach(e, at, ts)) == ts
    decreases e, 5
  {
    forall i | 0 <= i < |ts| ensures Faithful(rules, e, at, ts[i]) {
      DeriveHolds(rules, e, at, ts[i]);
    }
  }

  lemma {:induction false} DeriveGapsHold(rules: seq<Production>, separator: Option<Expr>, at: nat,
                                          ts: seq<Parse>, count: nat)
    requires separator.Some? ==> Binary(separator.value)
    requires Separated(separator) ==> |ts| == Gaps(count) && FitsEach(separator.value, ts)
    requires Has(rules, LowerSeparator(separator, at).rules)
    ensures forall i :: 0 <= i < Gaps(count) ==>
      Stands(rules, DeriveGaps(separator, at, ts, count)[i], LowerSeparator(separator, at).symbols)
    ensures WordsEach(DeriveGaps(separator, at, ts, count)) == Gapped(Separated(separator), SpellEach(ts), count)
    ensures Separated(separator) ==> ReadEach(separator.value, at, DeriveGaps(separator, at, ts, count)) == ts
    decreases separator, 2
  {
    if Separated(separator) { DeriveEachHolds(rules, separator.value, at, ts); }
  }

  lemma {:induction false} DeriveRepeatHolds(rules: seq<Production>, inner: Expr, separator: Option<Expr>, min: nat,
                                             max: Option<nat>, at: nat, t: Parse, e: Expr)
    requires e == Repeat(inner, separator, min, max) && Binary(e) && Fits(e, t) && Has(rules, Lower(e, at).rules)
    ensures Faithful(rules, e, at, t)
    decreases e, 0
  {
    var item := Lower(inner, at);
    var sep := LowerSeparator(separator, Skip(item.next));
    HasParts(rules, item.rules, sep.rules, RepeatRules(item, sep, min, max));
    DeriveEachHolds(rules, inner, at, t.items);
    DeriveGapsHold(rules, separator, Skip(item.next), t.separators, |t.items|);
    var chunks := DeriveEach(inner, at, t.items);
    var gaps := DeriveGaps(separator, Skip(item.next), t.separators, |t.items|);
    SpreadStands(rules, item, sep, min, max, chunks, gaps);
    SpreadWord(item, sep, min, max, chunks, gaps);
    WordsInterleave(chunks, gaps);
    SpellRepeated(t.items, t.separators, Separated(separator));
    WordsOne(Spread(item, sep, min, max, chunks, gaps));
  }

  lemma HasBoth(rules: seq<Production>, a: seq<Production>, b: seq<Production>)
    requires Has(rules, a + b)
    ensures Has(rules, a) && Has(rules, b)
  {
    HasParts(rules, a, b, []);
  }

  lemma HasParts(rules: seq<Production>, a: seq<Production>, b: seq<Production>, c: seq<Production>)
    requires Has(rules, a + b + c)
    ensures Has(rules, a) && Has(rules, b) && Has(rules, c)
  {
    forall p | p in a || p in b || p in c ensures p in rules {
      assert p in a + b + c;
    }
  }

  lemma SpellRepeated(items: seq<Parse>, separators: seq<Parse>, separated: bool)
    requires if separated then |separators| == Gaps(|items|) else separators == []
    ensures Spell(Repeated(items, separators))
         == Interleave(SpellEach(items), Gapped(separated, SpellEach(separators), |items|))
  {
    if !separated && Gaps(|items|) == 0 {
      assert SpellEach(separators) == Blank(|items|);
    }
  }

  // ------------------------------------------------------------------ whose rules are whose

  ghost predicate LhsIn(mine: seq<Production>, lo: nat, hi: nat) {
    forall p :: p in mine ==> lo <= p.lhs < hi
  }

  /** Lowering defines only the internal nonterminals it draws from the counter. */
  lemma {:induction false} LowerRange(e: Expr, at: nat)
    requires Binary(e)
    ensures LhsIn(Lower(e, at).rules, at, Lower(e, at).next)
    decreases e, 0
  {
    match e
    case Seq(items) => LowerAllRange(items, at);
    case Alt(items) =>
      LowerRange(items[0], at);
      LowerRange(items[1], Lower(items[0], at).next);
    case Optional(inner) => LowerRange(inner, at);
    case Named(_, inner) => LowerRange(inner, at);
    case Repeat(inner, separator, min, max) =>
      var item := Lower(inner, at);
      LowerRange(inner, at);
      if separator.Some? { LowerRange(separator.value, Skip(item.next)); }
      RepeatRange(item, LowerSeparator(separator, Skip(item.next)), min, max);
    case _ =>
  }

  lemma {:induction false} LowerAllRange(es: seq<Expr>, at: nat)
    requires AllBinary(es)
    ensures LhsIn(LowerAll(es, at).rules, at, LowerAll(es, at).next)
    decreases es, 0
  {
    if es != [] {
      var n := |es| - 1;
      LowerAllRange(es[..n], at);
      LowerRange(es[n], LowerAll(es[..n], at).next);
    }
  }

  lemma {:induction false} CountsRange(item: Lowered, sep: Lowered, min: nat, end: nat)
    ensures forall p :: p in CountRules(item, sep, min, end) ==> p.lhs == item.next
    decreases end
  {
    if end > FirstCount(min) { CountsRange(item, sep, min, end - 1); }
  }

  lemma RepeatRange(item: Lowered, sep: Lowered, min: nat, max: Option<nat>)
    requires sep.next > item.next
    ensures forall p :: p in RepeatRules(item, sep, min, max) ==>
      p.lhs == item.next || (p.lhs == TailName(sep) && Unbounded(min, max) && sep.symbols != [])
    ensures LhsIn(RepeatRules(item, sep, min, max), item.next, RepeatOf(item, sep, min, max).next)
  {
    CountsRange(item, sep, min, Skip(Upper(min, max)));
  }

  /** Owning a range is owning every part of it. */
  lemma OwnsPart(rules: seq<Production>, lo: nat, hi: nat, mine: seq<Production>,
                 from: nat, to: nat, part: seq<Production>)
    requires Owns(rules, lo, hi, mine) && lo <= from && to <= hi
    requires forall p :: p in mine && from <= p.lhs < to ==> p in part
    ensures Owns(rules, from, to, part)
  {
  }

  // ------------------------------------------------------------------ every derivation is that of a parse

  /** The reading of a derivation fits the expression and has exactly this derivation. */
  ghost predicate Recovered(e: Expr, at: nat, ds: seq<Tree>)
    requires Binary(e)
  {
    Fits(e, Read(e, at, ds)) && Derive(e, at, Read(e, at, ds)) == ds
  }

  lemma {:induction false} ReadHolds(rules: seq<Production>, e: Expr, at: nat, ds: seq<Tree>)
    requires Binary(e) && Stands(rules, ds, Lower(e, at).symbols)
    requires Owns(rules, at, Lower(e, at).next, Lower(e, at).rules)
    ensures Recovered(e, at, ds)
    decreases e, 4
  {
    match e
    case Empty =>
    case Atom(id) => AtomRecovered(rules, id, at, ds);
    case Seq(items) => ReadAllHolds(rules, items, at, ds);
    case Alt(items) => ReadAltHolds(rules, items, at, ds);
    case Optional(inner) => ReadOptionalHolds(rules, inner, at, ds);
    case Named(_, inner) => ReadHolds(rules, inner, at, ds);
    case Repeat(inner, separator, min, max) => ReadRepeatHolds(rules, inner, separator, min, max, at, ds, e);
  }

  lemma AtomRecovered(rules: seq<Production>, id: int, at: nat, ds: seq<Tree>)
    requires Stands(rules, ds, [Defined(id)])
    ensures Recovered(Atom(id), at, ds)
  {
    assert ds[0].Root() == Roots(ds)[0];
    assert ds == [Token(id)];
  }

  lemma {:induction false} ReadOptionalHolds(rules: seq<Production>, inner: Expr, at: nat, ds: seq<Tree>)
    requires Binary(inner) && Stands(rules, ds, OptionalOf(Lower(inner, at)).symbols)
    requires Owns(rules, at, OptionalOf(Lower(inner, at)).next, OptionalOf(Lower(inner, at)).rules)
    ensures Recovered(Optional(inner), at, ds)
    decreases inner, 5
  {
    var x := Lower(inner, at);
    LowerRange(inner, at);
    StandsOne(rules, ds, x.next);
    var mine := OptionalRules(x);
    assert ds[0].rule in mine;
    if ds[0].rule == mine[0] {
      assert |Roots(ds[0].children)| == 0;
    } else {
      OwnsPart(rules, at, OptionalOf(x).next, OptionalOf(x).rules, at, x.next, x.rules);
      ReadHolds(rules, inner, at, ds[0].children);
    }
  }

  lemma {:induction false} ReadAltHolds(rules: seq<Production>, items: seq<Expr>, at: nat, ds: seq<Tree>)
    requires Binary(Alt(items)) && Stands(rules, ds, Lower(Alt(items), at).symbols)
    requires Owns(rules, at, Lower(Alt(items), at).next, Lower(Alt(items), at).rules)
    ensures Recovered(Alt(items), at, ds)
    decreases items, 5
  {
    var left := Lower(items[0], at);
    var right := Lower(items[1], left.next);
    AltOwnership(rules, items[0], items[1], at, left, right);
    StandsOne(rules, ds, right.next);
    var mine := AltRules(left, right);
    assert ds[0].rule in mine;
    if ds[0].rule == mine[0] {
      ReadHolds(rules, items[0], at, ds[0].children);
    } else {
      ReadHolds(rules, items[1], left.next, ds[0].children);
    }
  }

  lemma AltOwnership(rules: seq<Production>, first: Expr, second: Expr, at: nat, left: Lowered, right: Lowered)
    requires Binary(first) && Binary(second) && left == Lower(first, at) && right == Lower(second, left.next)
    requires Owns(rules, at, AltOf(left, right).next, AltOf(left, right).rules)
    ensures forall p :: p in rules && p.lhs == right.next ==> p in AltRules(left, right)
    ensures Owns(rules, at, left.next, left.rules) && Owns(rules, left.next, right.next, right.rules)
  {
    var both := AltOf(left, right);
    LowerRange(first, at);
    LowerRange(second, left.next);
    OwnsPart(rules, at, both.next, both.rules, at, left.next, left.rules);
    OwnsPart(rules, at, both.next, both.rules, left.next, right.next, right.rules);
  }

  ghost predicate RecoveredAll(es: seq<Expr>, at: nat, ds: seq<Tree>)
    requires AllBinary(es)
  {
    FitsAll(es, ReadAll(es, at, ds)) && DeriveAll(es, at, ReadAll(es, at, ds)) == ds
  }

  lemma {:induction false} ReadAllHolds(rules: seq<Production>, es: seq<Expr>, at: nat, ds: seq<Tree>)
    requires AllBinary(es) && Stands(rules, ds, LowerAll(es, at).symbols)
    requires Owns(rules, at, LowerAll(es, at).next, LowerAll(es, at).rules)
    ensures RecoveredAll(es, at, ds)
    decreases es, 0
  {
    if es != [] {
      var n := |es| - 1;
      var front := LowerAll(es[..n], at);
      var last := Lower(es[n], front.next);
      LowerAllRange(es[..n], at);
      LowerRange(es[n], front.next);
      StandsSplit(rules, ds, front.symbols, last.symbols);
      var a, b := ds[..|front.symbols|], ds[|front.symbols|..];
      OwnsPart(rules, at, last.next, front.rules + last.rules, at, front.next, front.rules);
      OwnsPart(rules, at, last.next, front.rules + last.rules, front.next, last.next, last.rules);
      ReadAllHolds(rules, es[..n], at, a);
      ReadHolds(rules, es[n], front.next, b);
      assert ds == a + b;
      RecoveredSnoc(es, at, a, b, n, front.next);
    }
  }

  lemma RecoveredSnoc(es: seq<Expr>, at: nat, a: seq<Tree>, b: seq<Tree>, n: nat, middle: nat)
    requires AllBinary(es) && n + 1 == |es| && middle == LowerAll(es[..n], at).next && |b| == Width(es[n])
    requires RecoveredAll(es[..n], at, a) && Recovered(es[n], middle, b)
    ensures RecoveredAll(es, at, a + b)
  {
    ReadAllSnoc(es, at, a, b, n, middle);
    var front, last := ReadAll(es[..n], at, a), Read(es[n], middle, b);
    var ts := front + [last];
    assert ts[..n] == front && ts[n] == last;
  }

  lemma {:induction false} ReadEachHolds(rules: seq<Production>, e: Expr, at: nat, chunks: seq<seq<Tree>>)
    requires Binary(e) && Owns(rules, at, Lower(e, at).next, Lower(e, at).rules)
    requires forall i :: 0 <= i < |chunks| ==> Stands(rules, chunks[i], Lower(e, at).symbols)
    ensures FitsEach(e, ReadEach(e, at, chunks)) && DeriveEach(e, at, ReadEach(e, at, chunks)) == chunks
    decreases e, 5
  {
    forall i | 0 <= i < |chunks| ensures Recovered(e, at, chunks[i]) {
      ReadHolds(rules, e, at, chunks[i]);
    }
  }

  lemma {:induction false} ReadRepeatHolds(rules: seq<Production>, inner: Expr, separator: Option<Expr>, min: nat,
                                           max: Option<nat>, at: nat, ds: seq<Tree>, e: Expr)
    requires e == Repeat(inner, separator, min, max) && Binary(e) && Stands(rules, ds, Lower(e, at).symbols)
    requires Owns(rules, at, Lower(e, at).next, Lower(e, at).rules)
    ensures Recovered(e, at, ds)
    decreases e, 0
  {
    var item := Lower(inner, at);
    var sep := LowerSeparator(separator, Skip(item.next));
    RepeatOwnership(rules, inner, separator, min, max, at, item, sep);
    StandsOne(rules, ds, item.next);
    GatherReads(rules, item, sep, min, max, ds[0]);
    var chunks, gaps := GatherChunks(item, sep, min, max, ds[0]), GatherGaps(item, sep, min, max, ds[0]);
    ReadEachHolds(rules, inner, at, chunks);
    if Separated(separator) {
      ReadEachHolds(rules, separator.value, Skip(item.next), gaps);
    } else {
      BlankGaps(rules, gaps, |chunks|);
    }
    RepeatRecovered(inner, separator, min, max, at, ds, e, item, sep, chunks, gaps);
  }

  lemma BlankGaps(rules: seq<Production>, gaps: seq<seq<Tree>>, count: nat)
    requires |gaps| == Gaps(count) && forall i :: 0 <= i < |gaps| ==> Stands(rules, gaps[i], [])
    ensures gaps == Blank(count)
  {
    forall i | 0 <= i < |gaps| ensures gaps[i] == [] {
      assert |Roots(gaps[i])| == 0;
    }
  }

  lemma RepeatRecovered(inner: Expr, separator: Option<Expr>, min: nat, max: Option<nat>, at: nat, ds: seq<Tree>,
                        e: Expr, item: Lowered, sep: Lowered, chunks: seq<seq<Tree>>, gaps: seq<seq<Tree>>)
    requires e == Repeat(inner, separator, min, max) && Binary(e) && |ds| == 1
    requires item == Lower(inner, at) && sep == LowerSeparator(separator, Skip(item.next))
    requires chunks == GatherChunks(item, sep, min, max, ds[0]) && gaps == GatherGaps(item, sep, min, max, ds[0])
    requires Admits(sep.symbols != [], min, max, |chunks|) && Spread(item, sep, min, max, chunks, gaps) == ds[0]
    requires FitsEach(inner, ReadEach(inner, at, chunks))
      && DeriveEach(inner, at, ReadEach(inner, at, chunks)) == chunks
    requires Separated(separator) ==>
      && FitsEach(separator.value, ReadEach(separator.value, Skip(item.next), gaps))
      && DeriveEach(separator.value, Skip(item.next), ReadEach(separator.value, Skip(item.next), gaps)) == gaps
    requires !Separated(separator) ==> gaps == Blank(|chunks|)
    ensures Recovered(e, at, ds)
  {
    var t := Read(e, at, ds);
    assert t.items == ReadEach(inner, at, chunks);
    assert ds == [ds[0]];
  }

  lemma RepeatOwnership(rules: seq<Production>, inner: Expr, separator: Option<Expr>, min: nat, max: Option<nat>,
                        at: nat, item: Lowered, sep: Lowered)
    requires Binary(inner) && (separator.Some? ==> Binary(separator.value))
    requires item == Lower(inner, at) && sep == LowerSeparator(separator, Skip(item.next))
    requires var all := RepeatOf(item, sep, min, max); Owns(rules, at, all.next, all.rules)
    ensures OwnsRepeat(rules, item, sep, min, max)
    ensures Owns(rules, at, item.next, item.rules) && Owns(rules, Skip(item.next), sep.next, sep.rules)
  {
    var all := RepeatOf(item, sep, min, max);
    LowerRange(inner, at);
    if separator.Some? { LowerRange(separator.value, Skip(item.next)); }
    RepeatRange(item, sep, min, max);
    OwnsPart(rules, at, all.next, all.rules, at, item.next, item.rules);
    OwnsPart(rules, at, all.next, all.rules, Skip(item.next), sep.next, sep.rules);
  }

  // ------------------------------------------------------------------ the theorem

  /** Derivations of the lowered expression from its own productions. */
  ghost predicate Derives(e: Expr, at: nat, ds: seq<Tree>)
    requires Binary(e)
  {
    Stands(Lower(e, at).rules, ds, Lower(e, at).symbols)
  }

  /** Parses and derivations correspond one to one, and spell the same words. */
  lemma LoweringOneToOne(e: Expr, at: nat)
    requires Binary(e)
    ensures forall t :: Fits(e, t) ==>
      && Derives(e, at, Derive(e, at, t)) && Read(e, at, Derive(e, at, t)) == t
      && Words(Derive(e, at, t)) == Spell(t)
    ensures forall ds :: Derives(e, at, ds) ==>
      && Fits(e, Read(e, at, ds)) && Derive(e, at, Read(e, at, ds)) == ds
  {
    var rules := Lower(e, at).rules;
    forall t | Fits(e, t) ensures Faithful(rules, e, at, t) {
      DeriveHolds(rules, e, at, t);
    }
    forall ds | Derives(e, at, ds) ensures Recovered(e, at, ds) {
      ReadHolds(rules, e, at, ds);
    }
  }

  /** A word is derivable exactly when the expression has a parse that spells it. */
  lemma LoweringKeepsLanguage(e: Expr, at: nat, w: seq<int>)
    requires Binary(e)
    ensures (exists ds :: Derives(e, at, ds) && Words(ds) == w) <==> (exists t :: Fits(e, t) && Spell(t) == w)
  {
    if exists ds :: Derives(e, at, ds) && Words(ds) == w {
      var ds :| Derives(e, at, ds) && Words(ds) == w;
      var t := ParseOf(e, at, ds);
    }
    if exists t :: Fits(e, t) && Spell(t) == w {
      var t :| Fits(e, t) && Spell(t) == w;
      var ds := DerivationOf(e, at, t);
    }
  }

  lemma ParseOf(e: Expr, at: nat, ds: seq<Tree>) returns (t: Parse)
    requires Binary(e) && Derives(e, at, ds)
    ensures t == Read(e, at, ds) && Fits(e, t) && Spell(t) == Words(ds)
  {
    t := Read(e, at, ds);
    ReadHolds(Lower(e, at).rules, e, at, ds);
    DeriveHolds(Lower(e, at).rules, e, at, t);
  }

  lemma DerivationOf(e: Expr, at: nat, t: Parse) returns (ds: seq<Tree>)
    requires Binary(e) && Fits(e, t)
    ensures Derives(e, at, ds) && Words(ds) == Spell(t)
  {
    ds := Derive(e, at, t);
    DeriveHolds(Lower(e, at).rules, e, at, t);
  }
}
