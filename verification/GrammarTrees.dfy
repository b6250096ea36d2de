/** Parses of a rule expression, derivations of the lowered productions, and the shapes of the
    derivations of repeats. */
module GrammarTrees {
  import opened Wrappers
  import opened GrammarLowering

  // ------------------------------------------------------------------ parses of an expression

  /** A reading of the expression: which branch, which items, which separators. */
  datatype Parse =
    | Unit
    | Leaf(id: int)
    | Items(items: seq<Parse>)
    | Choice(index: nat, item: Parse)
    | Absent
    | Present(item: Parse)
    | Labelled(item: Parse)
    | Repeated(items: seq<Parse>, separators: seq<Parse>)

  /** A separator that lowers to no symbol leaves no trace. */
  predicate Separated(separator: Option<Expr>) {
    separator.Some? && Width(separator.value) > 0
  }

  /** How many items a repeat accepts: an unbounded one with a separator at least one, an open-ended
      one with a lower bound at most three more than the bound. */
  predicate Admits(separated: bool, min: nat, max: Option<nat>, count: nat) {
    if Unbounded(min, max) then separated ==> count > 0
    else if count == 0 then min == 0
    else FirstCount(min) <= count <= Upper(min, max)
  }

  function Gaps(count: nat): nat {
    if count == 0 then 0 else count - 1
  }

  ghost predicate Fits(e: Expr, t: Parse)
    decreases e, 0
  {
    match e
    case Empty => t == Unit
    case Atom(id) => t == Leaf(id)
    case Seq(items) => t.Items? && FitsAll(items, t.items)
    case Alt(items) => t.Choice? && t.index < |items| && Fits(items[t.index], t.item)
    case Optional(inner) => t == Absent || (t.Present? && Fits(inner, t.item))
    case Named(_, inner) => t.Labelled? && Fits(inner, t.item)
    case Repeat(inner, separator, min, max) =>
      && t.Repeated? && Admits(Separated(separator), min, max, |t.items|) && FitsEach(inner, t.items)
      && if Separated(separator)
         then |t.separators| == Gaps(|t.items|) && FitsEach(separator.value, t.separators)
         else t.separators == []
  }

  ghost predicate FitsAll(es: seq<Expr>, ts: seq<Parse>)
    decreases es, 0
  {
    && |es| == |ts|
    && (es != [] ==> FitsAll(es[..|es| - 1], ts[..|ts| - 1]) && Fits(es[|es| - 1], ts[|ts| - 1]))
  }

  ghost predicate FitsEach(e: Expr, ts: seq<Parse>)
    decreases e, 1
  {
    forall i :: 0 <= i < |ts| ==> Fits(e, ts[i])
  }

  // ------------------------------------------------------------------ chunks with gaps between them

  /** Each chunk after its gap. */
  function Weave<T>(gaps: seq<seq<T>>, chunks: seq<seq<T>>): seq<T>
    requires |gaps| == |chunks|
  {
    if chunks == [] then []
    else Weave(gaps[..|gaps| - 1], chunks[..|chunks| - 1]) + gaps[|gaps| - 1] + chunks[|chunks| - 1]
  }

  /** The chunks with one gap between neighbours. */
  function Interleave<T>(chunks: seq<seq<T>>, gaps: seq<seq<T>>): seq<T>
    requires |gaps| == Gaps(|chunks|)
  {
    if chunks == [] then [] else chunks[0] + Weave(gaps, chunks[1..])
  }

  lemma InterleaveSnoc<T>(chunks: seq<seq<T>>, gaps: seq<seq<T>>, gap: seq<T>, chunk: seq<T>)
    requires chunks != [] && |gaps| == Gaps(|chunks|)
    ensures Interleave(chunks + [chunk], gaps + [gap]) == Interleave(chunks, gaps) + gap + chunk
  {
    assert (chunks + [chunk])[1..] == chunks[1..] + [chunk];
    var rest := chunks[1..] + [chunk];
    assert rest[..|rest| - 1] == chunks[1..] && (gaps + [gap])[..|gaps|] == gaps;
    Regroup(chunks[0], Weave(gaps, chunks[1..]), gap, chunk);
  }

  function Blank<T>(count: nat): (gaps: seq<seq<T>>)
    ensures |gaps| == Gaps(count) && forall i :: 0 <= i < |gaps| ==> gaps[i] == []
  {
    seq(Gaps(count), i => [])
  }

  /** The gaps of a repeat: its separators, or nothing at all. */
  function Gapped<T>(separated: bool, gaps: seq<seq<T>>, count: nat): (r: seq<seq<T>>)
    requires separated ==> |gaps| == Gaps(count)
    ensures |r| == Gaps(count)
  {
    if separated then gaps else Blank(count)
  }

  // ------------------------------------------------------------------ the word of a parse

  function Spell(t: Parse): seq<int>
    decreases t, 0
  {
    match t
    case Leaf(id) => [id]
    case Items(items) => SpellAll(items)
    case Choice(_, item) => Spell(item)
    case Present(item) => Spell(item)
    case Labelled(item) => Spell(item)
    case Repeated(items, separators) =>
      var separated := |separators| == Gaps(|items|);
      Interleave(SpellEach(items), Gapped(separated, SpellEach(separators), |items|))
    case _ => []
  }

  function SpellAll(ts: seq<Parse>): seq<int>
    decreases ts, 0
  {
    if ts == [] then [] else SpellAll(ts[..|ts| - 1]) + Spell(ts[|ts| - 1])
  }

  function SpellEach(ts: seq<Parse>): (r: seq<seq<int>>)
    ensures |r| == |ts|
    ensures forall i :: 0 <= i < |ts| ==> r[i] == Spell(ts[i])
    decreases ts, 1
  {
    seq(|ts|, i requires 0 <= i < |ts| => Spell(ts[i]))
  }

  // ------------------------------------------------------------------ derivation trees

  datatype Tree = Token(id: int) | Node(rule: Production, children: seq<Tree>)
  {
    function Root(): Symbol {
      if Token? then Defined(id) else Internal(rule.lhs)
    }
  }

  function Roots(ds: seq<Tree>): (r: seq<Symbol>)
    ensures |r| == |ds| && forall i :: 0 <= i < |ds| ==> r[i] == ds[i].Root()
  {
    seq(|ds|, i requires 0 <= i < |ds| => ds[i].Root())
  }

  lemma RootsConcat(a: seq<Tree>, b: seq<Tree>)
    ensures Roots(a + b) == Roots(a) + Roots(b)
  {
  }

  ghost predicate Valid(rules: seq<Production>, d: Tree)
    decreases d, 0
  {
    d.Node? ==> d.rule in rules && Roots(d.children) == d.rule.rhs && AllValid(rules, d.children)
  }

  ghost predicate AllValid(rules: seq<Production>, ds: seq<Tree>)
    decreases ds, 0
  {
    forall i :: 0 <= i < |ds| ==> Valid(rules, ds[i])
  }

  /** A list of derivations of these symbols. */
  ghost predicate Stands(rules: seq<Production>, ds: seq<Tree>, symbols: seq<Symbol>) {
    AllValid(rules, ds) && Roots(ds) == symbols
  }

  lemma StandsConcat(rules: seq<Production>, a: seq<Tree>, b: seq<Tree>, x: seq<Symbol>, y: seq<Symbol>)
    requires Stands(rules, a, x) && Stands(rules, b, y)
    ensures Stands(rules, a + b, x + y)
  {
    RootsConcat(a, b);
  }

  lemma StandsSplit(rules: seq<Production>, ds: seq<Tree>, x: seq<Symbol>, y: seq<Symbol>)
    requires Stands(rules, ds, x + y)
    ensures |ds| == |x| + |y| && Stands(rules, ds[..|x|], x) && Stands(rules, ds[|x|..], y)
  {
    RootsConcat(ds[..|x|], ds[|x|..]);
    assert ds == ds[..|x|] + ds[|x|..];
    var r := Roots(ds);
    assert r[..|x|] == x && r[|x|..] == y;
  }

  lemma StandsOne(rules: seq<Production>, ds: seq<Tree>, index: nat)
    requires Stands(rules, ds, [Internal(index)])
    ensures |ds| == 1 && Valid(rules, ds[0]) && ds[0].Node? && ds[0].rule.lhs == index && ds == [ds[0]]
  {
    assert ds[0].Root() == Roots(ds)[0];
  }

  lemma NodeStands(rules: seq<Production>, rule: Production, children: seq<Tree>)
    requires rule in rules && Stands(rules, children, rule.rhs)
    ensures Stands(rules, [Node(rule, children)], [Internal(rule.lhs)])
  {
  }

  /** The tokens below a derivation. */
  function Word(d: Tree): seq<int>
    decreases d, 0
  {
    match d
    case Token(id) => [id]
    case Node(_, children) => Words(children)
  }

  function Words(ds: seq<Tree>): seq<int>
    decreases ds, 0
  {
    if ds == [] then [] else Words(ds[..|ds| - 1]) + Word(ds[|ds| - 1])
  }

  lemma {:induction false} WordsConcat(a: seq<Tree>, b: seq<Tree>)
    ensures Words(a + b) == Words(a) + Words(b)
    decreases |b|
  {
    if b == [] {
      assert a + b == a;
    } else {
      var front, last := b[..|b| - 1], b[|b| - 1];
      assert (a + b)[..|a + b| - 1] == a + front && (a + b)[|a + b| - 1] == last;
      WordsConcat(a, front);
    }
  }

  lemma WordsOne(d: Tree)
    ensures Words([d]) == Word(d)
  {
    assert [d][..0] == [];
  }

  function WordsEach(chunks: seq<seq<Tree>>): (r: seq<seq<int>>)
    ensures |r| == |chunks| && forall i :: 0 <= i < |chunks| ==> r[i] == Words(chunks[i])
  {
    seq(|chunks|, i requires 0 <= i < |chunks| => Words(chunks[i]))
  }

  // ------------------------------------------------------------------ the derivation of a repeat

  /** The pieces of one repeat: item derivations and what stands between them. */
  ghost predicate Proper(rules: seq<Production>, item: Lowered, sep: Lowered,
                         chunks: seq<seq<Tree>>, gaps: seq<seq<Tree>>) {
    && |gaps| == Gaps(|chunks|)
    && (forall i :: 0 <= i < |chunks| ==> Stands(rules, chunks[i], item.symbols))
    && (forall i :: 0 <= i < |gaps| ==> Stands(rules, gaps[i], sep.symbols))
  }

  /** Left recursion without separators. */
  function StarTree(more: Production, empty: Production, chunks: seq<seq<Tree>>): Tree {
    if chunks == [] then Node(empty, [])
    else Node(more, [StarTree(more, empty, chunks[..|chunks| - 1])] + chunks[|chunks| - 1])
  }

  function StarChunks(d: Tree): seq<seq<Tree>> {
    if d.Token? || d.children == [] then [] else StarChunks(d.children[0]) + [d.children[1..]]
  }

  /** The left-recursive tail of a separated list. */
  function TailTree(more: Production, empty: Production, gaps: seq<seq<Tree>>, chunks: seq<seq<Tree>>): Tree
    requires |gaps| == |chunks|
  {
    if chunks == [] then Node(empty, [])
    else
      Node(more, [TailTree(more, empty, gaps[..|gaps| - 1], chunks[..|chunks| - 1])]
                 + gaps[|gaps| - 1] + chunks[|chunks| - 1])
  }

  function TailChunks(d: Tree, gap: nat): seq<seq<Tree>> {
    if d.Token? || |d.children| < 1 + gap then [] else TailChunks(d.children[0], gap) + [d.children[1 + gap..]]
  }

  function TailGaps(d: Tree, gap: nat): (r: seq<seq<Tree>>)
    ensures |r| == |TailChunks(d, gap)|
  {
    if d.Token? || |d.children| < 1 + gap then [] else TailGaps(d.children[0], gap) + [d.children[1..1 + gap]]
  }

  /** The derivation of a repeat from its pieces. */
  function Spread(item: Lowered, sep: Lowered, min: nat, max: Option<nat>,
                  chunks: seq<seq<Tree>>, gaps: seq<seq<Tree>>): Tree
    requires |gaps| == Gaps(|chunks|) && Admits(sep.symbols != [], min, max, |chunks|)
  {
    if !Unbounded(min, max) then
      if chunks == [] then Node(StarEmpty(item, sep), [])
      else Node(CountRule(item, sep, min, |chunks|), Interleave(chunks, gaps))
    else if sep.symbols != [] then
      Node(ListItem(item, sep), chunks[0] + [TailTree(TailMore(item, sep), TailEmpty(sep), gaps, chunks[1..])])
    else StarTree(StarItem(item, sep), StarEmpty(item, sep), chunks)
  }

  /** The last chunk of a counted repeat starts here. */
  function LastAt(ds: seq<Tree>, width: nat): nat {
    if |ds| < width then 0 else |ds| - width
  }

  function CutChunks(ds: seq<Tree>, width: nat, gap: nat, count: nat): (r: seq<seq<Tree>>)
    ensures |r| == count
    decreases count
  {
    if count == 0 then []
    else if count == 1 then [ds]
    else
      CutChunks(ds[..LastAt(ds, width + gap)], width, gap, count - 1) + [ds[LastAt(ds, width)..]]
  }

  function CutGaps(ds: seq<Tree>, width: nat, gap: nat, count: nat): (r: seq<seq<Tree>>)
    ensures |r| == Gaps(count)
    decreases count
  {
    if count <= 1 then []
    else
      CutGaps(ds[..LastAt(ds, width + gap)], width, gap, count - 1)
      + [ds[LastAt(ds, width + gap)..LastAt(ds, width)]]
  }

  /** The count a production of the bounded form was made for. */
  function CountOf(sep: Lowered, min: nat, rule: Production): nat {
    var first := sep.next + if min == 0 then 1 else 0;
    if rule.builder < first then 0 else rule.builder - first + FirstCount(min)
  }

  /** The item derivations in a derivation of a repeat, in text order. */
  function GatherChunks(item: Lowered, sep: Lowered, min: nat, max: Option<nat>, d: Tree): seq<seq<Tree>> {
    var width, gap := |item.symbols|, |sep.symbols|;
    if d.Token? then []
    else if !Unbounded(min, max) then CutChunks(d.children, width, gap, CountOf(sep, min, d.rule))
    else if sep.symbols == [] then StarChunks(d)
    else if |d.children| <= width then []
    else [d.children[..width]] + TailChunks(d.children[width], gap)
  }

  function GatherGaps(item: Lowered, sep: Lowered, min: nat, max: Option<nat>, d: Tree): (r: seq<seq<Tree>>)
    ensures |r| == Gaps(|GatherChunks(item, sep, min, max, d)|)
  {
    var width, gap := |item.symbols|, |sep.symbols|;
    if d.Token? then []
    else if !Unbounded(min, max) then CutGaps(d.children, width, gap, CountOf(sep, min, d.rule))
    else if sep.symbols == [] then Blank(|StarChunks(d)|)
    else if |d.children| <= width then []
    else TailGaps(d.children[width], gap)
  }
}
