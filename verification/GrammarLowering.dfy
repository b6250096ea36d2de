/** Lowering a rule expression to productions: optional parts, alternatives and repeats become
    internal nonterminals.  The derivations of the productions correspond one to one with the
    parses of the expression, and both spell the same word. */
module GrammarLowering {
  import opened Wrappers

  /** Rule expressions.  `Atom` stands for any symbol the rest of the grammar defines. */
  datatype Expr =
    | Empty
    | Atom(id: int)
    | Seq(items: seq<Expr>)
    | Alt(items: seq<Expr>)
    | Optional(inner: Expr)
    | Named(name: int, inner: Expr)
    | Repeat(inner: Expr, separator: Option<Expr>, min: nat, max: Option<nat>)

  datatype Symbol = Defined(id: int) | Internal(index: nat)

  /** `builder` is the number in the name of the function that builds the value. */
  datatype Production = Production(lhs: nat, rhs: seq<Symbol>, builder: nat)

  /** What lowering returns, registers, and where it leaves `synthetic_index`. */
  datatype Lowered = Lowered(symbols: seq<Symbol>, rules: seq<Production>, next: nat)

  datatype LowerError = NotTwoBranches

  // ------------------------------------------------------------------ the lowering

  /** Every alternation has exactly two branches. */
  predicate Binary(e: Expr) {
    match e
    case Seq(items) => forall i :: 0 <= i < |items| ==> Binary(items[i])
    case Alt(items) => |items| == 2 && Binary(items[0]) && Binary(items[1])
    case Optional(inner) => Binary(inner)
    case Named(_, inner) => Binary(inner)
    case Repeat(inner, separator, _, _) => Binary(inner) && (separator.Some? ==> Binary(separator.value))
    case _ => true
  }

  predicate AllBinary(items: seq<Expr>) {
    forall i :: 0 <= i < |items| ==> Binary(items[i])
  }

  /** How many symbols an expression lowers to. */
  function Width(e: Expr): nat
    decreases e, 0
  {
    match e
    case Empty => 0
    case Seq(items) => Widths(items)
    case Named(_, inner) => Width(inner)
    case _ => 1
  }

  function Widths(items: seq<Expr>): nat
    decreases items, 0
  {
    if items == [] then 0 else Widths(items[..|items| - 1]) + Width(items[|items| - 1])
  }

  function Skip(n: nat): nat {
    n + 1
  }

  function Lower(e: Expr, at: nat): (r: Lowered)
    requires Binary(e)
    ensures r.next >= at && |r.symbols| == Width(e)
    decreases e, 0
  {
    match e
    case Empty => Lowered([], [], at)
    case Atom(id) => Lowered([Defined(id)], [], at)
    case Seq(items) => LowerAll(items, at)
    case Alt(items) =>
      var left := Lower(items[0], at);
      AltOf(left, Lower(items[1], left.next))
    case Optional(inner) => OptionalOf(Lower(inner, at))
    case Named(_, inner) => Lower(inner, at)
    case Repeat(inner, separator, min, max) =>
      var item := Lower(inner, at);
      RepeatOf(item, LowerSeparator(separator, Skip(item.next)), min, max)
  }

  function LowerSeparator(separator: Option<Expr>, at: nat): (r: Lowered)
    requires separator.Some? ==> Binary(separator.value)
    ensures r.next >= at && |r.symbols| == if separator.None? then 0 else Width(separator.value)
    decreases separator, 1
  {
    if separator.None? then Lowered([], [], at) else Lower(separator.value, at)
  }

  function LowerAll(items: seq<Expr>, at: nat): (r: Lowered)
    requires AllBinary(items)
    ensures r.next >= at && |r.symbols| == Widths(items)
    decreases items, 0
  {
    if items == [] then Lowered([], [], at)
    else
      var front := LowerAll(items[..|items| - 1], at);
      var last := Lower(items[|items| - 1], front.next);
      Lowered(front.symbols + last.symbols, front.rules + last.rules, last.next)
  }

  function OptionalRules(x: Lowered): seq<Production> {
    [Production(x.next, [], x.next + 1), Production(x.next, x.symbols, x.next + 2)]
  }

  function OptionalOf(x: Lowered): Lowered {
    Lowered([Internal(x.next)], x.rules + OptionalRules(x), x.next + 3)
  }

  function AltRules(left: Lowered, right: Lowered): seq<Production> {
    [Production(right.next, left.symbols, right.next + 1), Production(right.next, right.symbols, right.next + 2)]
  }

  function AltOf(left: Lowered, right: Lowered): Lowered {
    Lowered([Internal(right.next)], left.rules + right.rules + AltRules(left, right), right.next + 3)
  }

  /** No bounds, or a lower bound of zero and no upper one: the recursive forms. */
  predicate Unbounded(min: nat, max: Option<nat>) {
    min == 0 && max.None?
  }

  function StarItem(item: Lowered, sep: Lowered): Production {
    Production(item.next, [Internal(item.next)] + item.symbols, sep.next + 1)
  }

  function StarEmpty(item: Lowered, sep: Lowered): Production {
    Production(item.next, [], sep.next)
  }

  /** The nonterminal of the further items of a separated list. */
  function TailName(sep: Lowered): nat {
    sep.next + 1
  }

  function ListItem(item: Lowered, sep: Lowered): Production {
    Production(item.next, item.symbols + [Internal(TailName(sep))], sep.next + 2)
  }

  function TailMore(item: Lowered, sep: Lowered): Production {
    Production(TailName(sep), [Internal(TailName(sep))] + sep.symbols + item.symbols, sep.next + 3)
  }

  function TailEmpty(sep: Lowered): Production {
    Production(TailName(sep), [], sep.next)
  }

  /** The item symbols `count` times, with the separator symbols between them. */
  function Copies<T>(item: seq<T>, sep: seq<T>, count: nat): seq<T> {
    if count == 0 then [] else if count == 1 then item else Copies(item, sep, count - 1) + sep + item
  }

  function Upper(min: nat, max: Option<nat>): nat {
    if max.Some? then max.value else min + 3
  }

  function FirstCount(min: nat): nat {
    if min == 0 then 1 else min
  }

  /** The production for one exact count; builders are numbered in order after the empty one. */
  function CountRule(item: Lowered, sep: Lowered, min: nat, count: nat): Production
    requires count >= FirstCount(min)
  {
    Production(item.next, Copies(item.symbols, sep.symbols, count),
      sep.next + (if min == 0 then 1 else 0) + (count - FirstCount(min)))
  }

  /** The productions for the counts from `FirstCount(min)` up to but not including `end`. */
  function CountRules(item: Lowered, sep: Lowered, min: nat, end: nat): seq<Production> {
    if end <= FirstCount(min) then [] else CountRules(item, sep, min, end - 1) + [CountRule(item, sep, min, end - 1)]
  }

  function BoundedRules(item: Lowered, sep: Lowered, min: nat, end: nat): seq<Production> {
    (if min == 0 then [StarEmpty(item, sep)] else []) + CountRules(item, sep, min, end)
  }

  function BoundedNext(sep: Lowered, min: nat, end: nat): nat {
    sep.next + (if min == 0 then 1 else 0) + (if end > FirstCount(min) then end - FirstCount(min) else 0)
  }

  function RepeatRules(item: Lowered, sep: Lowered, min: nat, max: Option<nat>): seq<Production> {
    if !Unbounded(min, max) then BoundedRules(item, sep, min, Skip(Upper(min, max)))
    else if sep.symbols != [] then [ListItem(item, sep), TailMore(item, sep), TailEmpty(sep)]
    else [StarItem(item, sep), StarEmpty(item, sep)]
  }

  function RepeatOf(item: Lowered, sep: Lowered, min: nat, max: Option<nat>): Lowered {
    Lowered([Internal(item.next)], item.rules + sep.rules + RepeatRules(item, sep, min, max),
      if !Unbounded(min, max) then BoundedNext(sep, min, Skip(Upper(min, max)))
      else if sep.symbols != [] then sep.next + 4 else sep.next + 2)
  }

  // ------------------------------------------------------------------ lower_expr

  /** `LowerCtx`, with the registrations it pushes. */
  class LowerCtx {
    var syntheticIndex: nat
    var registrations: seq<Production>

    constructor ()
      ensures syntheticIndex == 0 && registrations == []
    {
      syntheticIndex, registrations := 0, [];
    }

    /** `synthetic_name` and `synthetic_builder`: both draw from one counter. */
    method Fresh() returns (index: nat)
      modifies this`syntheticIndex
      ensures index == old(syntheticIndex) && syntheticIndex == old(syntheticIndex) + 1
    {
      index := syntheticIndex;
      syntheticIndex := syntheticIndex + 1;
    }

    method Register(rule: Production)
      modifies this`registrations
      ensures registrations == old(registrations) + [rule]
    {
      registrations := registrations + [rule];
    }

    /** `lower_expr` fails exactly on alternations without two branches, and otherwise pushes the
        productions of `Lower`. */
    method LowerExpr(e: Expr) returns (r: Result<seq<Symbol>, LowerError>)
      modifies this
      ensures r.Ok? <==> Binary(e)
      ensures r.Ok? ==> Pushed(r.value, Lower(e, old(syntheticIndex)))
      decreases e, 1
    {
      match e
      case Empty => r := Ok([]);
      case Atom(id) => r := Ok([Defined(id)]);
      case Seq(items) => r := LowerSeq(items);
      case Named(_, inner) => r := LowerExpr(inner);
      case Optional(inner) =>
        r := LowerExpr(inner);
        if r.Ok? {
          var symbols := PushOptional(r.value, Lower(inner, old(syntheticIndex)));
          r := Ok(symbols);
        }
      case Alt(items) => r := LowerAlt(items);
      case Repeat(inner, separator, min, max) => r := LowerRepeat(inner, separator, min, max, e);
    }

    /** The symbols are those of `lowered`, whose productions have been pushed. */
    twostate predicate Pushed(symbols: seq<Symbol>, lowered: Lowered)
      reads this
    {
      && symbols == lowered.symbols && syntheticIndex == lowered.next
      && registrations == old(registrations) + lowered.rules
    }

    method LowerSeq(items: seq<Expr>) returns (r: Result<seq<Symbol>, LowerError>)
      modifies this
      ensures r.Ok? <==> AllBinary(items)
      ensures r.Ok? ==> Pushed(r.value, LowerAll(items, old(syntheticIndex)))
      decreases items, 0
    {
      var symbols: seq<Symbol> := [];
      for i := 0 to |items|
        invariant AllBinary(items[..i]) && Pushed(symbols, LowerAll(items[..i], old(syntheticIndex)))
      {
        ghost var front := LowerAll(items[..i], old(syntheticIndex));
        var item := LowerExpr(items[i]);
        if item.Err? { return item; }
        assert items[..i + 1][..i] == items[..i];
        symbols := symbols + item.value;
      }
      assert items[..|items|] == items;
      r := Ok(symbols);
    }

    method LowerAlt(items: seq<Expr>) returns (r: Result<seq<Symbol>, LowerError>)
      modifies this
      ensures r.Ok? <==> Binary(Alt(items))
      ensures r.Ok? ==> Pushed(r.value, Lower(Alt(items), old(syntheticIndex)))
      decreases items, 0
    {
      ghost var before := registrations;
      if |items| != 2 { return Err(NotTwoBranches); }
      var left := LowerExpr(items[0]);
      if left.Err? { return left; }
      ghost var first := Lower(items[0], old(syntheticIndex));
      var right := LowerExpr(items[1]);
      if right.Err? { return right; }
      ghost var second := Lower(items[1], first.next);
      assert registrations == before + first.rules + second.rules;
      var symbols := PushAlt(left.value, right.value, first, second);
      Regroup(before, first.rules, second.rules, AltRules(first, second));
      r := Ok(symbols);
    }

    method LowerRepeat(inner: Expr, separator: Option<Expr>, min: nat, max: Option<nat>, ghost e: Expr)
      returns (r: Result<seq<Symbol>, LowerError>)
      requires e == Repeat(inner, separator, min, max)
      modifies this
      ensures r.Ok? <==> Binary(e)
      ensures r.Ok? ==> Pushed(r.value, Lower(e, old(syntheticIndex)))
      decreases e, 0
    {
      ghost var before := registrations;
      r := LowerExpr(inner);
      if r.Err? { return; }
      var symbols := r.value;
      ghost var item := Lower(inner, old(syntheticIndex));
      var name := Fresh();
      var between: seq<Symbol> := [];
      if separator.Some? {
        r := LowerExpr(separator.value);
        if r.Err? { return; }
        between := r.value;
      }
      ghost var sep := LowerSeparator(separator, Skip(item.next));
      assert registrations == before + item.rules + sep.rules;
      symbols := PushRepeat(name, symbols, between, min, max, item, sep);
      Regroup(before, item.rules, sep.rules, RepeatRules(item, sep, min, max));
      r := Ok(symbols);
    }

    method PushOptional(symbols: seq<Symbol>, ghost x: Lowered) returns (out: seq<Symbol>)
      requires symbols == x.symbols && syntheticIndex == x.next
      modifies this
      ensures out == OptionalOf(x).symbols && syntheticIndex == OptionalOf(x).next
      ensures registrations == old(registrations) + OptionalRules(x)
    {
      var name := Fresh();
      var none := Fresh();
      var some := Fresh();
      Register(Production(name, [], none));
      Register(Production(name, symbols, some));
      out := [Internal(name)];
    }

    method PushAlt(left: seq<Symbol>, right: seq<Symbol>, ghost x: Lowered, ghost y: Lowered)
      returns (out: seq<Symbol>)
      requires left == x.symbols && right == y.symbols && syntheticIndex == y.next
      modifies this
      ensures out == AltOf(x, y).symbols && syntheticIndex == AltOf(x, y).next
      ensures registrations == old(registrations) + AltRules(x, y)
    {
      var name := Fresh();
      var first := Fresh();
      var second := Fresh();
      Register(Production(name, left, first));
      Register(Production(name, right, second));
      out := [Internal(name)];
    }

    method PushRepeat(name: nat, item: seq<Symbol>, sep: seq<Symbol>, min: nat, max: Option<nat>,
                      ghost x: Lowered, ghost y: Lowered) returns (out: seq<Symbol>)
      requires item == x.symbols && sep == y.symbols && name == x.next && syntheticIndex == y.next
      modifies this
      ensures out == [Internal(x.next)] && syntheticIndex == RepeatOf(x, y, min, max).next
      ensures registrations == old(registrations) + RepeatRules(x, y, min, max)
    {
      if max.None? && min == 0 {
        var empty := Fresh();
        if sep != [] {
          var tail := Fresh();
          var first := Fresh();
          var more := Fresh();
          Register(Production(name, item + [Internal(tail)], first));
          Register(Production(tail, [Internal(tail)] + sep + item, more));
          Register(Production(tail, [], empty));
        } else {
          var push := Fresh();
          Register(Production(name, [Internal(name)] + item, push));
          Register(Production(name, [], empty));
        }
      } else {
        PushCounts(name, item, sep, min, max, x, y);
      }
      out := [Internal(name)];
    }

    /** The bounded form: one production for each count. */
    method PushCounts(name: nat, item: seq<Symbol>, sep: seq<Symbol>, min: nat, max: Option<nat>,
                      ghost x: Lowered, ghost y: Lowered)
      requires item == x.symbols && sep == y.symbols && name == x.next && syntheticIndex == y.next
      modifies this
      ensures syntheticIndex == BoundedNext(y, min, Skip(Upper(min, max)))
      ensures registrations == old(registrations) + BoundedRules(x, y, min, Skip(Upper(min, max)))
    {
      if min == 0 {
        var empty := Fresh();
        Register(Production(name, [], empty));
      }
      var upper := if max.Some? then max.value else min + 3;
      var count := if min == 0 then 1 else min;
      while count <= upper
        invariant FirstCount(min) <= count && (count <= upper + 1 || count == FirstCount(min))
        invariant syntheticIndex == BoundedNext(y, min, count)
        invariant registrations == old(registrations) + BoundedRules(x, y, min, count)
      {
        var builder := Fresh();
        Register(Production(name, Copies(item, sep, count), builder));
        count := Skip(count);
      }
      assert count != Skip(upper) ==> CountRules(x, y, min, Skip(upper)) == [] == CountRules(x, y, min, count);
    }
  }
}
