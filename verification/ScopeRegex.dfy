/** The label-regex notation: its parser and its expansion into path expressions. */
module ScopeRegex {
  import opened Wrappers
  import opened PathExprs

  /** `Regex` */
  datatype Regex =
    | REpsilon
    | RLabel(name: Label)
    | ROr(left: Regex, right: Regex)
    | RThen(left: Regex, right: Regex)
    | RStar(inner: Regex)

  function Plus(r: Regex): Regex {
    RThen(r, RStar(r))
  }

  function Optional(r: Regex): Regex {
    ROr(REpsilon, r)
  }

  /** `expand`: the path expression the generated code builds. */
  function Expand(r: Regex): PathExpr {
    match r
    case REpsilon => Epsilon
    case RLabel(name) => One(name)
    case ROr(a, b) => MkOr(Expand(a), Expand(b))
    case RThen(a, b) => MkThen(Expand(a), Expand(b))
    case RStar(a) => MkStar(Expand(a))
  }

  // ------------------------------------------------------------------ surface notation

  datatype Op = Once | Many | OneOrMore | Maybe

  /** Alternatives, each a concatenation of repeated atoms; lists grow at the end. */
  datatype Surface = Single(items: Items) | Either(front: Surface, items: Items)

  datatype Items = Nothing | Append(front: Items, item: Item)

  datatype Item = Item(atom: Atom, op: Op)

  datatype Atom = Name(name: Label) | Group(content: Surface)

  // What the notation means, on its own terms.

  ghost predicate Means(s: Surface, w: Word)
    decreases s, |w|
  {
    match s
    case Single(items) => MeansAll(items, w)
    case Either(front, items) => Means(front, w) || MeansAll(items, w)
  }

  ghost predicate MeansAll(items: Items, w: Word)
    decreases items, |w|
  {
    match items
    case Nothing => w == []
    case Append(front, item) => exists i :: 0 <= i <= |w| && MeansAll(front, w[..i]) && MeansItem(item, w[i..])
  }

  ghost predicate MeansItem(item: Item, w: Word)
    decreases item, |w|
  {
    match item.op
    case Once => MeansAtom(item.atom, w)
    case Maybe => w == [] || MeansAtom(item.atom, w)
    case Many => w == [] || MeansRepeated(item.atom, w)
    case OneOrMore => MeansRepeated(item.atom, w)
  }

  /** One or more times. */
  ghost predicate MeansRepeated(atom: Atom, w: Word)
    decreases atom, |w| + 1
  {
    MeansAtom(atom, w) || exists i :: 0 < i <= |w| && MeansAtom(atom, w[..i]) && MeansRepeated(atom, w[i..])
  }

  ghost predicate MeansAtom(atom: Atom, w: Word)
    decreases atom, |w|
  {
    match atom
    case Name(name) => w == [name]
    case Group(content) => Means(content, w)
  }

  // ------------------------------------------------------------------ desugaring

  function Desugar(s: Surface): Regex {
    match s
    case Single(items) => DesugarItems(items)
    case Either(front, items) => ROr(Desugar(front), DesugarItems(items))
  }

  function DesugarItems(items: Items): Regex {
    match items
    case Nothing => REpsilon
    case Append(Nothing, item) => DesugarItem(item)
    case Append(front, item) => RThen(DesugarItems(front), DesugarItem(item))
  }

  function DesugarItem(item: Item): Regex {
    var atom := DesugarAtom(item.atom);
    match item.op
    case Once => atom
    case Many => RStar(atom)
    case OneOrMore => Plus(atom)
    case Maybe => Optional(atom)
  }

  function DesugarAtom(atom: Atom): Regex {
    match atom
    case Name(name) => RLabel(name)
    case Group(content) => Desugar(content)
  }

  /** Desugaring and expanding keep the meaning. */
  lemma {:induction false} ExpandMeans(s: Surface, w: Word)
    ensures Matches(Expand(Desugar(s)), w) <==> Means(s, w)
    decreases s, 0
  {
    match s
    case Single(items) => ExpandItems(items, w);
    case Either(front, items) =>
      ExpandMeans(front, w);
      ExpandItems(items, w);
      OrLanguage(Expand(Desugar(front)), Expand(DesugarItems(items)), w);
  }

  lemma {:induction false} ExpandItems(items: Items, w: Word)
    ensures Matches(Expand(DesugarItems(items)), w) <==> MeansAll(items, w)
    decreases items, 0
  {
    if items.Append? {
      var front, item := items.front, items.item;
      var a, b := Expand(DesugarItems(front)), Expand(DesugarItem(item));
      forall i | 0 <= i <= |w|
        ensures Matches(a, w[..i]) <==> MeansAll(front, w[..i])
        ensures Matches(b, w[i..]) <==> MeansItem(item, w[i..])
      {
        ExpandItems(front, w[..i]);
        ExpandItem(item, w[i..]);
      }
      ThenLanguage(a, b, w);
      if front.Nothing? {
        assert w[0..] == w;
        ExpandItem(item, w);
      }
    }
  }

  lemma {:induction false} ExpandItem(item: Item, w: Word)
    ensures Matches(Expand(DesugarItem(item)), w) <==> MeansItem(item, w)
    decreases item, 0
  {
    var e := Expand(DesugarAtom(item.atom));
    match item.op
    case Once => ExpandAtom(item.atom, w);
    case Maybe =>
      ExpandAtom(item.atom, w);
      OrLanguage(Epsilon, e, w);
    case Many =>
      StarLanguage(e, w);
      StarMeans(item.atom, w);
    case OneOrMore =>
      PlusMeans(item.atom, w);
  }

  lemma {:induction false} ExpandAtom(atom: Atom, w: Word)
    ensures Matches(Expand(DesugarAtom(atom)), w) <==> MeansAtom(atom, w)
    decreases atom, 0
  {
    if atom.Group? { ExpandMeans(atom.content, w); }
  }

  /** Zero or more times: nothing, or one or more times. */
  lemma {:induction false} StarMeans(atom: Atom, w: Word)
    ensures Matches(Star(Expand(DesugarAtom(atom))), w) <==> w == [] || MeansRepeated(atom, w)
    decreases atom, |w| + 1
  {
    var e := Expand(DesugarAtom(atom));
    forall i | 0 <= i <= |w| ensures Matches(e, w[..i]) <==> MeansAtom(atom, w[..i]) {
      ExpandAtom(atom, w[..i]);
    }
    forall i | 0 < i <= |w|
      ensures Matches(Star(e), w[i..]) <==> w[i..] == [] || MeansRepeated(atom, w[i..])
    {
      StarMeans(atom, w[i..]);
    }
    assert w[..|w|] == w && w[|w|..] == [];
  }

  lemma {:induction false} PlusMeans(atom: Atom, w: Word)
    ensures Matches(Expand(Plus(DesugarAtom(atom))), w) <==> MeansRepeated(atom, w)
    decreases atom, |w| + 2
  {
    var e := Expand(DesugarAtom(atom));
    ThenLanguage(e, MkStar(e), w);
    forall i | 0 <= i <= |w|
      ensures Matches(e, w[..i]) <==> MeansAtom(atom, w[..i])
      ensures Matches(MkStar(e), w[i..]) <==> w[i..] == [] || MeansRepeated(atom, w[i..])
    {
      ExpandAtom(atom, w[..i]);
      StarLanguage(e, w[i..]);
      StarMeans(atom, w[i..]);
    }
    assert w[..|w|] == w && w[|w|..] == [] && w[0..] == w;
  }

  // ------------------------------------------------------------------ token trees

  /** Token trees: a parenthesized group is one tree. */
  datatype Token = Bar | StarSign | PlusSign | QuestionSign | Label(name: int) | Parens(content: seq<Token>)
  {
    predicate IsOp() {
      StarSign? || PlusSign? || QuestionSign?
    }

    predicate IsAtom() {
      Label? || Parens?
    }
  }

  function TokensOf(s: Surface): seq<Token> {
    match s
    case Single(items) => ItemTokens(items)
    case Either(front, items) => TokensOf(front) + [Bar] + ItemTokens(items)
  }

  function ItemTokens(items: Items): seq<Token> {
    match items
    case Nothing => []
    case Append(front, item) => ItemTokens(front) + OneItem(item)
  }

  function OneItem(item: Item): seq<Token> {
    [AtomToken(item.atom)] +
    match item.op
    case Once => []
    case Many => [StarSign]
    case OneOrMore => [PlusSign]
    case Maybe => [QuestionSign]
  }

  function AtomToken(atom: Atom): Token {
    match atom
    case Name(name) => Label(name)
    case Group(content) => Parens(TokensOf(content))
  }

  /** An operator directly follows an atom, and groups are well-formed inside. */
  predicate WellFormed(tokens: seq<Token>)
    decreases tokens, 1
  {
    forall i :: 0 <= i < |tokens| ==> Fine(tokens, i)
  }

  predicate Fine(tokens: seq<Token>, i: int)
    requires 0 <= i < |tokens|
    decreases tokens, 0
  {
    && (tokens[i].IsOp() ==> i > 0 && tokens[i - 1].IsAtom())
    && (tokens[i].Parens? ==> WellFormed(tokens[i].content))
  }

  // ------------------------------------------------------------------ the parser

  /** `parse_atom` */
  method ParseAtom(tokens: seq<Token>, at: nat) returns (r: Option<Regex>, ghost atom: Atom)
    requires at < |tokens|
    ensures r.Some? <==> tokens[at].IsAtom() && Fine(tokens, at)
    ensures r.Some? ==> AtomToken(atom) == tokens[at] && r.value == DesugarAtom(atom)
    decreases tokens, 0, 0
  {
    match tokens[at]
    case Label(name) => return Some(RLabel(name)), Name(name);
    case Parens(content) =>
      ghost var s: Surface;
      r, s := ParseAlternation(content);
      atom := Group(s);
    case _ => return None, Name(0);
  }

  /** `parse_repetition`: an atom and at most one operator. */
  method ParseRepetition(tokens: seq<Token>, at: nat) returns (r: Option<Regex>, next: nat, ghost item: Item)
    requires at < |tokens| && tokens[at] != Bar
    requires tokens[at].IsOp() ==> !Fine(tokens, at)
    ensures r.Some? ==> at < next <= |tokens| && tokens[at..next] == OneItem(item) && r.value == DesugarItem(item)
    ensures r.Some? ==> forall i :: at <= i < next ==> Fine(tokens, i)
    ensures r.Some? && next < |tokens| ==> !tokens[next].IsOp()
    ensures r.None? ==> exists i :: at <= i < |tokens| && !Fine(tokens, i)
    decreases tokens, 1, 0
  {
    ghost var atom: Atom;
    var expression: Option<Regex>;
    expression, atom := ParseAtom(tokens, at);
    next := at + 1;
    if expression.None? { return None, next, Item(Name(0), Once); }
    var repeated := false;
    item := Item(atom, Once);
    while next < |tokens| && tokens[next].IsOp()
      invariant at < next <= |tokens| && next <= at + 2
      invariant repeated <==> next == at + 2
      invariant expression.Some? && expression.value == DesugarItem(item) && item.atom == atom
      invariant tokens[at..next] == OneItem(item)
      invariant forall i :: at <= i < next ==> Fine(tokens, i)
      decreases |tokens| - next
    {
      if repeated {
        assert !Fine(tokens, next);
        return None, next, item;
      }
      match tokens[next] {
        case StarSign =>
          expression := Some(RStar(expression.value));
          item := Item(atom, Many);
        case PlusSign =>
          expression := Some(Plus(expression.value));
          item := Item(atom, OneOrMore);
        case QuestionSign =>
          expression := Some(Optional(expression.value));
          item := Item(atom, Maybe);
      }
      repeated := true;
      next := next + 1;
    }
    r := expression;
  }

  /** `parse_concatenation` */
  method ParseConcatenation(tokens: seq<Token>, from: nat) returns (r: Option<Regex>, next: nat, ghost items: Items)
    requires from <= |tokens| && (from == 0 || tokens[from - 1] == Bar)
    ensures r.Some? ==>
      && from <= next <= |tokens| && (next == |tokens| || tokens[next] == Bar)
      && tokens[from..next] == ItemTokens(items) && r.value == DesugarItems(items)
      && forall i :: from <= i < next ==> Fine(tokens, i)
    ensures r.None? ==> exists i :: from <= i < |tokens| && !Fine(tokens, i)
    decreases tokens, 2, 0
  {
    var expression, hasAtom := REpsilon, false;
    next, items := from, Nothing;
    while next < |tokens| && tokens[next] != Bar
      invariant from <= next <= |tokens|
      invariant tokens[from..next] == ItemTokens(items) && expression == DesugarItems(items)
      invariant hasAtom <==> items.Append?
      invariant forall i :: from <= i < next ==> Fine(tokens, i)
      invariant next < |tokens| && tokens[next].IsOp() ==> !Fine(tokens, next)
      decreases |tokens| - next
    {
      var atom: Option<Regex>;
      var after: nat;
      ghost var item: Item;
      atom, after, item := ParseRepetition(tokens, next);
      if atom.None? { return None, next, items; }
      assert tokens[from..after] == tokens[from..next] + tokens[next..after];
      expression := if hasAtom then RThen(expression, atom.value) else atom.value;
      hasAtom, next, items := true, after, Append(items, item);
    }
    r := Some(expression);
  }

  /** `parse_alternation` on all tokens of a group or of the input: succeeds exactly on
      well-formed tokens. */
  method ParseAlternation(tokens: seq<Token>) returns (r: Option<Regex>, ghost s: Surface)
    ensures r.Some? <==> WellFormed(tokens)
    ensures r.Some? ==> TokensOf(s) == tokens && r.value == Desugar(s)
    decreases tokens, 3, 0
  {
    var expression: Option<Regex>;
    var next: nat;
    ghost var items: Items;
    expression, next, items := ParseConcatenation(tokens, 0);
    s := Single(items);
    if expression.None? { return None, s; }
    while next < |tokens| && tokens[next] == Bar
      invariant next <= |tokens| && (next == |tokens| || tokens[next] == Bar)
      invariant tokens[..next] == TokensOf(s)
      invariant expression.Some? && expression.value == Desugar(s)
      invariant forall i :: 0 <= i < next ==> Fine(tokens, i)
      decreases |tokens| - next
    {
      var more: Option<Regex>;
      var after: nat;
      more, after, items := ParseConcatenation(tokens, next + 1);
      if more.None? { return None, s; }
      assert tokens[..after] == tokens[..next] + [Bar] + tokens[next + 1..after];
      expression := Some(ROr(expression.value, more.value));
      next, s := after, Either(s, items);
    }
    assert tokens[..next] == tokens;
    r := expression;
  }

  /** The whole notation: what parses means what was written. */
  method ParseRegex(tokens: seq<Token>) returns (r: Option<PathExpr>, ghost s: Surface)
    ensures r.Some? <==> WellFormed(tokens)
    ensures r.Some? ==> TokensOf(s) == tokens && forall w :: Matches(r.value, w) <==> Means(s, w)
  {
    var regex: Option<Regex>;
    regex, s := ParseAlternation(tokens);
    if regex.None? { return None, s; }
    forall w ensures Matches(Expand(regex.value), w) <==> Means(s, w) {
      ExpandMeans(s, w);
    }
    r := Some(Expand(regex.value));
  }

  // ------------------------------------------------------------------ one reading only

  lemma {:induction false} NoBars(items: Items)
    ensures Bar !in ItemTokens(items)
  {
    if items.Append? {
      NoBars(items.front);
      assert Bar !in OneItem(items.item);
    }
  }

  lemma {:induction false} BarsTell(s: Surface)
    ensures s.Either? <==> Bar in TokensOf(s)
  {
    NoBars(s.items);
    if s.Either? { assert TokensOf(s)[|TokensOf(s.front)|] == Bar; }
  }

  lemma SplitAtLast(a: seq<Token>, b: seq<Token>, c: seq<Token>, d: seq<Token>)
    requires a + [Bar] + b == c + [Bar] + d && Bar !in b && Bar !in d
    ensures a == c && b == d
  {
    var x, y := a + [Bar] + b, c + [Bar] + d;
    assert x[|a|] == Bar && y[|c|] == Bar;
    assert forall k :: |a| < k < |x| ==> x[k] == b[k - |a| - 1];
    assert forall k :: |c| < k < |y| ==> y[k] == d[k - |c| - 1];
    assert |a| == |c|;
    assert x[..|a|] == a && y[..|c|] == c && x[|a| + 1..] == b && y[|c| + 1..] == d;
  }

  /** The notation is unambiguous: tokens have one reading. */
  lemma {:induction false} TokensInjective(s: Surface, t: Surface)
    requires TokensOf(s) == TokensOf(t)
    ensures s == t
    decreases s, 0
  {
    BarsTell(s);
    BarsTell(t);
    if s.Either? {
      NoBars(s.items);
      NoBars(t.items);
      SplitAtLast(TokensOf(s.front), ItemTokens(s.items), TokensOf(t.front), ItemTokens(t.items));
      TokensInjective(s.front, t.front);
    }
    ItemsInjective(s.items, t.items);
  }

  lemma {:induction false} ItemsInjective(x: Items, y: Items)
    requires ItemTokens(x) == ItemTokens(y)
    ensures x == y
    decreases x, 0
  {
    if x.Append? && y.Append? {
      var a, b := ItemTokens(x), ItemTokens(y);
      assert a[|a| - 1] == OneItem(x.item)[|OneItem(x.item)| - 1];
      assert b[|b| - 1] == OneItem(y.item)[|OneItem(y.item)| - 1];
      assert x.item.op == y.item.op;
      assert |OneItem(x.item)| == |OneItem(y.item)|;
      var n := |ItemTokens(x.front)|;
      assert a[..n] == ItemTokens(x.front) && b[..n] == ItemTokens(y.front);
      assert a[n] == AtomToken(x.item.atom) && b[n] == AtomToken(y.item.atom);
      ItemsInjective(x.front, y.front);
      if x.item.atom.Group? { TokensInjective(x.item.atom.content, y.item.atom.content); }
    }
  }

  /** Every surface form is well-formed as tokens. */
  lemma {:induction false} TokensWellFormed(s: Surface)
    ensures WellFormed(TokensOf(s))
    decreases s, 1
  {
    ItemsWellFormed(s.items);
    if s.Either? {
      TokensWellFormed(s.front);
      var a, b := TokensOf(s.front), ItemTokens(s.items);
      forall i | 0 <= i < |TokensOf(s)| ensures Fine(TokensOf(s), i) {
        if i < |a| {
          assert Fine(a, i);
        } else if i > |a| {
          assert Fine(b, i - |a| - 1);
        }
      }
    }
  }

  lemma {:induction false} ItemsWellFormed(items: Items)
    ensures forall i :: 0 <= i < |ItemTokens(items)| ==> Fine(ItemTokens(items), i)
    decreases items, 1
  {
    if items.Append? {
      ItemsWellFormed(items.front);
      if items.item.atom.Group? { TokensWellFormed(items.item.atom.content); }
      var a, all := ItemTokens(items.front), ItemTokens(items);
      forall i | 0 <= i < |all| ensures Fine(all, i) {
        if i < |a| {
          assert Fine(a, i);
        } else if i == |a| {
          assert all[i] == AtomToken(items.item.atom);
        } else {
          assert all[i - 1] == AtomToken(items.item.atom);
        }
      }
    }
  }

  // ------------------------------------------------------------------ what the three operators mean

  function OneOf(name: int, op: Op): Surface {
    Single(Append(Nothing, Item(Name(name), op)))
  }

  lemma OneOfTokens(name: int)
    ensures TokensOf(OneOf(name, Many)) == [Token.Label(name), StarSign]
    ensures TokensOf(OneOf(name, OneOrMore)) == [Token.Label(name), PlusSign]
    ensures TokensOf(OneOf(name, Maybe)) == [Token.Label(name), QuestionSign]
  {
    var atom := Token.Label(name);
    forall op ensures TokensOf(OneOf(name, op)) == OneItem(Item(Name(name), op)) {
      assert ItemTokens(Append(Nothing, Item(Name(name), op))) == [] + OneItem(Item(Name(name), op));
    }
    assert [atom] + [StarSign] == [atom, StarSign] && [atom] + [PlusSign] == [atom, PlusSign];
    assert [atom] + [QuestionSign] == [atom, QuestionSign];
    assert OneItem(Item(Name(name), Many)) == [atom] + [StarSign];
    assert OneItem(Item(Name(name), OneOrMore)) == [atom] + [PlusSign];
    assert OneItem(Item(Name(name), Maybe)) == [atom] + [QuestionSign];
  }

  lemma OneOfMeans(s: Surface, name: int, op: Op, w: Word)
    requires TokensOf(s) == TokensOf(OneOf(name, op))
    ensures Means(s, w) <==> MeansItem(Item(Name(name), op), w)
  {
    TokensInjective(s, OneOf(name, op));
    var items := Append(Nothing, Item(Name(name), op));
    assert w[0..] == w && w[..0] == [];
    assert MeansAll(items, w)
      <==> exists i :: 0 <= i <= |w| && MeansAll(Nothing, w[..i]) && MeansItem(items.item, w[i..]);
  }

  lemma {:induction false} RepeatedLabel(name: int, w: Word)
    ensures MeansRepeated(Name(name), w) <==> w != [] && forall i :: 0 <= i < |w| ==> w[i] == name
    decreases |w|
  {
    forall i | 0 < i <= |w|
      ensures MeansRepeated(Name(name), w[i..]) <==> w[i..] != [] && forall k :: 0 <= k < |w[i..]| ==> w[i..][k] == name
    {
      RepeatedLabel(name, w[i..]);
    }
    if |w| > 1 && forall i :: 0 <= i < |w| ==> w[i] == name {
      assert w[..1] == [name] && MeansRepeated(Name(name), w[1..]);
    }
    if exists i :: 0 < i <= |w| && MeansAtom(Name(name), w[..i]) && MeansRepeated(Name(name), w[i..]) {
      var i :| 0 < i <= |w| && MeansAtom(Name(name), w[..i]) && MeansRepeated(Name(name), w[i..]);
      assert w == w[..i] + w[i..];
    }
  }

  /** `a*`: any number of the label. */
  lemma StarTokens(s: Surface, name: int, w: Word)
    requires TokensOf(s) == [Label(name), StarSign]
    ensures Means(s, w) <==> forall i :: 0 <= i < |w| ==> w[i] == name
  {
    OneOfTokens(name);
    OneOfMeans(s, name, Many, w);
    RepeatedLabel(name, w);
  }

  /** `a+`: at least one of the label. */
  lemma PlusTokens(s: Surface, name: int, w: Word)
    requires TokensOf(s) == [Label(name), PlusSign]
    ensures Means(s, w) <==> w != [] && forall i :: 0 <= i < |w| ==> w[i] == name
  {
    OneOfTokens(name);
    OneOfMeans(s, name, OneOrMore, w);
    RepeatedLabel(name, w);
  }

  /** `a?`: the label or nothing. */
  lemma QuestionTokens(s: Surface, name: int, w: Word)
    requires TokensOf(s) == [Label(name), QuestionSign]
    ensures Means(s, w) <==> w == [] || w == [name]
  {
    OneOfTokens(name);
    OneOfMeans(s, name, Maybe, w);
  }
}
