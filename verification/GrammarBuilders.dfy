/** The counter behind lowering: every production has a builder of its own, and no builder number is a
    nonterminal number. */
module GrammarBuilders {
  import opened Wrappers
  import opened GrammarLowering

  /** All numbers come from `lo` to `hi`. */
  predicate InRange(rules: seq<Production>, lo: nat, hi: nat) {
    forall i :: 0 <= i < |rules| ==> lo <= rules[i].lhs < hi && lo <= rules[i].builder < hi
  }

  predicate OwnBuilders(rules: seq<Production>) {
    && (forall i, j :: 0 <= i < j < |rules| ==> rules[i].builder != rules[j].builder)
    && forall i, j :: 0 <= i < |rules| && 0 <= j < |rules| ==> rules[i].builder != rules[j].lhs
  }

  predicate Unmixed(rules: seq<Production>, lo: nat, hi: nat) {
    InRange(rules, lo, hi) && OwnBuilders(rules)
  }

  lemma Joined(a: seq<Production>, b: seq<Production>, lo: nat, middle: nat, hi: nat)
    requires Unmixed(a, lo, middle) && Unmixed(b, middle, hi) && lo <= middle <= hi
    ensures Unmixed(a + b, lo, hi)
  {
  }

  lemma Wider(rules: seq<Production>, lo: nat, hi: nat, from: nat, to: nat)
    requires Unmixed(rules, lo, hi) && from <= lo && hi <= to
    ensures Unmixed(rules, from, to)
  {
  }

  /** The productions of a repeat: nonterminals `name` and `tail`, builders elsewhere. */
  predicate Mine(rules: seq<Production>, name: nat, sep: Lowered, hi: nat) {
    && (forall i :: 0 <= i < |rules| ==>
          && (rules[i].lhs == name || rules[i].lhs == TailName(sep) < hi)
          && sep.next <= rules[i].builder < hi)
    && OwnBuilders(rules)
  }

  lemma {:induction false} CountsMine(item: Lowered, sep: Lowered, min: nat, end: nat)
    requires item.next < sep.next
    ensures Counting(CountRules(item, sep, min, end), item.next, CountStart(sep, min))
    ensures FirstCount(min) <= end ==> |CountRules(item, sep, min, end)| == end - FirstCount(min)
    ensures end < FirstCount(min) ==> CountRules(item, sep, min, end) == []
    decreases end
  {
    if end > FirstCount(min) { CountsMine(item, sep, min, end - 1); }
  }

  function CountStart(sep: Lowered, min: nat): nat {
    sep.next + if min == 0 then 1 else 0
  }

  /** Productions of one nonterminal with builders in order. */
  predicate Counting(rules: seq<Production>, name: nat, from: nat) {
    forall i :: 0 <= i < |rules| ==> rules[i].lhs == name && rules[i].builder == from + i
  }

  lemma CountingOwn(rules: seq<Production>, name: nat, from: nat)
    requires Counting(rules, name, from) && name < from
    ensures OwnBuilders(rules)
  {
  }

  lemma BoundedMine(item: Lowered, sep: Lowered, min: nat, end: nat)
    requires item.next < sep.next
    ensures Mine(BoundedRules(item, sep, min, end), item.next, sep, BoundedNext(sep, min, end))
  {
    CountsMine(item, sep, min, end);
    var counts := CountRules(item, sep, min, end);
    if min == 0 {
      assert Counting([StarEmpty(item, sep)] + counts, item.next, sep.next);
      CountingOwn([StarEmpty(item, sep)] + counts, item.next, sep.next);
    } else {
      assert [] + counts == counts;
      CountingOwn(counts, item.next, sep.next);
    }
  }

  lemma RepeatMine(item: Lowered, sep: Lowered, min: nat, max: Option<nat>)
    requires item.next < sep.next
    ensures Mine(RepeatRules(item, sep, min, max), item.next, sep, RepeatOf(item, sep, min, max).next)
  {
    if !Unbounded(min, max) { BoundedMine(item, sep, min, Skip(Upper(min, max))); }
  }

  /** Item, separator and repeat draw from three stretches of the counter. */
  lemma RepeatJoined(at: nat, item: Lowered, sep: Lowered, mine: seq<Production>, hi: nat)
    requires Unmixed(item.rules, at, item.next) && Unmixed(sep.rules, Skip(item.next), sep.next)
    requires at <= item.next < sep.next <= hi && Mine(mine, item.next, sep, hi)
    ensures Unmixed(item.rules + sep.rules + mine, at, hi)
  {
    var below := item.rules + sep.rules;
    assert Unmixed(below, at, sep.next) && forall i :: 0 <= i < |below| ==> below[i].builder != item.next by {
      Wider(sep.rules, Skip(item.next), sep.next, item.next, sep.next);
      Joined(item.rules, sep.rules, at, item.next, sep.next);
    }
    MineJoined(at, item, sep, below, mine, hi);
  }

  lemma MineJoined(at: nat, item: Lowered, sep: Lowered, below: seq<Production>, mine: seq<Production>, hi: nat)
    requires Unmixed(below, at, sep.next) && forall i :: 0 <= i < |below| ==> below[i].builder != item.next
    requires at <= item.next < sep.next <= hi && Mine(mine, item.next, sep, hi)
    ensures Unmixed(below + mine, at, hi)
  {
    var all, n := below + mine, |below|;
    assert forall i :: 0 <= i < n ==> all[i] == below[i];
    assert forall i :: n <= i < |all| ==> all[i] == mine[i - n];
  }

  lemma AltUnmixed(at: nat, left: Lowered, right: Lowered)
    requires at <= left.next <= right.next
    requires Unmixed(left.rules, at, left.next) && Unmixed(right.rules, left.next, right.next)
    ensures Unmixed(AltOf(left, right).rules, at, AltOf(left, right).next)
  {
    Joined(left.rules, right.rules, at, left.next, right.next);
    Joined(left.rules + right.rules, AltRules(left, right), at, right.next, AltOf(left, right).next);
  }

  lemma OptionalUnmixed(at: nat, x: Lowered)
    requires at <= x.next && Unmixed(x.rules, at, x.next)
    ensures Unmixed(OptionalOf(x).rules, at, OptionalOf(x).next)
  {
    Joined(x.rules, OptionalRules(x), at, x.next, OptionalOf(x).next);
  }

  lemma RepeatUnmixed(at: nat, item: Lowered, sep: Lowered, min: nat, max: Option<nat>)
    requires at <= item.next < sep.next
    requires Unmixed(item.rules, at, item.next) && Unmixed(sep.rules, Skip(item.next), sep.next)
    ensures Unmixed(RepeatOf(item, sep, min, max).rules, at, RepeatOf(item, sep, min, max).next)
  {
    RepeatMine(item, sep, min, max);
    RepeatJoined(at, item, sep, RepeatRules(item, sep, min, max), RepeatOf(item, sep, min, max).next);
  }

  lemma LastUnmixed(at: nat, front: Lowered, last: Lowered)
    requires at <= front.next <= last.next
    requires Unmixed(front.rules, at, front.next) && Unmixed(last.rules, front.next, last.next)
    ensures Unmixed(front.rules + last.rules, at, last.next)
  {
    Joined(front.rules, last.rules, at, front.next, last.next);
  }

  /** Lowering gives every production its own builder, and mixes up no builder with a nonterminal. */
  lemma {:induction false} LowerUnmixed(e: Expr, at: nat)
    requires Binary(e)
    ensures Unmixed(Lower(e, at).rules, at, Lower(e, at).next)
    decreases e, 0
  {
    match e
    case Seq(items) => LowerAllUnmixed(items, at);
    case Alt(items) =>
      var left := Lower(items[0], at);
      LowerUnmixed(items[0], at);
      LowerUnmixed(items[1], left.next);
      AltUnmixed(at, left, Lower(items[1], left.next));
    case Optional(inner) =>
      LowerUnmixed(inner, at);
      OptionalUnmixed(at, Lower(inner, at));
    case Named(_, inner) => LowerUnmixed(inner, at);
    case Repeat(inner, separator, min, max) =>
      var item := Lower(inner, at);
      var from := Skip(item.next);
      LowerUnmixed(inner, at);
      LowerSeparatorUnmixed(separator, from);
      RepeatUnmixed(at, item, LowerSeparator(separator, from), min, max);
    case _ =>
  }

  lemma {:induction false} LowerSeparatorUnmixed(separator: Option<Expr>, at: nat)
    requires separator.Some? ==> Binary(separator.value)
    ensures Unmixed(LowerSeparator(separator, at).rules, at, LowerSeparator(separator, at).next)
    decreases separator, 1
  {
    if separator.Some? { LowerUnmixed(separator.value, at); }
  }

  lemma {:induction false} LowerAllUnmixed(items: seq<Expr>, at: nat)
    requires AllBinary(items)
    ensures Unmixed(LowerAll(items, at).rules, at, LowerAll(items, at).next)
    decreases items, 0
  {
    if items != [] {
      var n := |items| - 1;
      var front := LowerAll(items[..n], at);
      LowerAllUnmixed(items[..n], at);
      LowerUnmixed(items[n], front.next);
      LastUnmixed(at, front, Lower(items[n], front.next));
    }
  }
}
