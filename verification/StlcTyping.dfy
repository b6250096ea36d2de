/** The typing relation of the simply typed lambda calculus, and what a context can and cannot change. */
module StlcTyping {
  import opened Wrappers
  import opened StlcSyntax
  import opened StlcTypes

  // ------------------------------------------------------------------ the typing relation

  /** What a written type means. */
  function Denotes(t: TypeExpr): Option<SimpleType>
    decreases t
  {
    match t
    case Arrow(_, l, r) =>
      if Denotes(l).Some? && Denotes(r).Some? then Some(SimpleType.Arrow(Denotes(l).value, Denotes(r).value)) else None
    case Simple(_, atom) => DenotesAtom(atom)
    case ErrorType(_) => None
  }

  function DenotesAtom(a: TypeAtom): Option<SimpleType>
    decreases a
  {
    match a
    case NatAtom(_) => Some(SNat)
    case BoolAtom(_) => Some(SBool)
    case UnitAtom(_) => Some(SUnit)
    case Parens(_, inner) => Denotes(inner)
  }

  /** A typing context, innermost last. */
  type Context = seq<(Name, SimpleType)>

  function Assigned(g: Context, name: string): Option<SimpleType> {
    if g == [] then None
    else if g[|g| - 1].0 == Some(name) then Some(g[|g| - 1].1)
    else Assigned(g[..|g| - 1], name)
  }

  /** Derivability in the simply typed lambda calculus, rule by rule. */
  ghost predicate HasType(g: Context, e: Expr, s: SimpleType)
    decreases e
  {
    match e
    case True(_) => s == SBool
    case False(_) => s == SBool
    case Number(_) => s == SNat
    case UnitValue(_) => s == SUnit
    case Variable(_, text) => text.Some? && Assigned(g, text.value) == Some(s)
    case Group(_, v) => HasType(g, v, s)
    case Succ(_, v) => s == SNat && HasType(g, v, SNat)
    case Add(_, l, r) => s == SNat && HasType(g, l, SNat) && HasType(g, r, SNat)
    case If(_, b, x, y) => HasType(g, b, SBool) && HasType(g, x, s) && HasType(g, y, s)
    case Case(_, n, z, binder, m) => HasType(g, n, SNat) && HasType(g, z, s) && HasType(g + [(binder, SNat)], m, s)
    case Lambda(_, p, b) =>
      && s.Arrow? && p.annotation.Some? && Denotes(p.annotation.value) == Some(s.from)
      && HasType(g + [(p.name, s.from)], b, s.to)
    case Apply(_, f, a) => exists from :: HasType(g, f, SimpleType.Arrow(from, s)) && HasType(g, a, from)
    case Let(_, name, v, b) => exists bound :: HasType(g, v, bound) && HasType(g + [(name, bound)], b, s)
    case ErrorExpr(_) => false
  }

  // ------------------------------------------------------------------ free names

  /** `x` occurs in `e` outside the binders of that name. */
  predicate Free(e: Expr, x: string) {
    match e
    case Variable(_, text) => text == Some(x)
    case Group(_, v) => Free(v, x)
    case Succ(_, v) => Free(v, x)
    case Add(_, l, r) => Free(l, x) || Free(r, x)
    case If(_, b, y, z) => Free(b, x) || Free(y, x) || Free(z, x)
    case Case(_, n, z, binder, m) => Free(n, x) || Free(z, x) || (binder != Some(x) && Free(m, x))
    case Lambda(_, p, b) => p.name != Some(x) && Free(b, x)
    case Apply(_, f, a) => Free(f, x) || Free(a, x)
    case Let(_, name, v, b) => Free(v, x) || (name != Some(x) && Free(b, x))
    case _ => false
  }

  predicate LetFree(e: Expr) {
    match e
    case If(_, b, x, y) => LetFree(b) && LetFree(x) && LetFree(y)
    case Case(_, s, z, _, n) => LetFree(s) && LetFree(z) && LetFree(n)
    case Let(_, _, _, _) => false
    case Lambda(_, _, b) => LetFree(b)
    case Add(_, l, r) => LetFree(l) && LetFree(r)
    case Apply(_, f, a) => LetFree(f) && LetFree(a)
    case Succ(_, v) => LetFree(v)
    case Group(_, v) => LetFree(v)
    case _ => true
  }

  /** The contexts agree on the free names of `e`. */
  ghost predicate SameOn(g: Context, h: Context, e: Expr) {
    forall x: string :: Free(e, x) ==> Assigned(g, x) == Assigned(h, x)
  }

  lemma AssignedWith(g: Context, name: Name, s: SimpleType, x: string)
    ensures Assigned(g + [(name, s)], x) == if name == Some(x) then Some(s) else Assigned(g, x)
  {
    assert (g + [(name, s)])[..|g|] == g;
  }

  lemma SameUnder(g: Context, h: Context, name: Name, s: SimpleType, body: Expr)
    requires forall x: string :: Free(body, x) && name != Some(x) ==> Assigned(g, x) == Assigned(h, x)
    ensures SameOn(g + [(name, s)], h + [(name, s)], body)
  {
    forall x: string | Free(body, x) ensures Assigned(g + [(name, s)], x) == Assigned(h + [(name, s)], x) {
      AssignedWith(g, name, s, x);
      AssignedWith(h, name, s, x);
    }
  }

  /** A derivation uses the context only at the free names. */
  lemma {:induction false} OnlyFreeMatters(g: Context, h: Context, e: Expr, s: SimpleType)
    requires SameOn(g, h, e) && HasType(g, e, s)
    ensures HasType(h, e, s)
    decreases e
  {
    match e
    case Group(_, v) => OnlyFreeMatters(g, h, v, s);
    case Succ(_, v) => OnlyFreeMatters(g, h, v, SNat);
    case Add(_, l, r) =>
      OnlyFreeMatters(g, h, l, SNat);
      OnlyFreeMatters(g, h, r, SNat);
    case If(_, b, x, y) =>
      OnlyFreeMatters(g, h, b, SBool);
      OnlyFreeMatters(g, h, x, s);
      OnlyFreeMatters(g, h, y, s);
    case Case(_, n, z, binder, m) =>
      OnlyFreeMatters(g, h, n, SNat);
      OnlyFreeMatters(g, h, z, s);
      SameUnder(g, h, binder, SNat, m);
      OnlyFreeMatters(g + [(binder, SNat)], h + [(binder, SNat)], m, s);
    case Lambda(_, p, b) =>
      SameUnder(g, h, p.name, s.from, b);
      OnlyFreeMatters(g + [(p.name, s.from)], h + [(p.name, s.from)], b, s.to);
    case Apply(_, f, a) =>
      var from :| HasType(g, f, SimpleType.Arrow(from, s)) && HasType(g, a, from);
      OnlyFreeMatters(g, h, f, SimpleType.Arrow(from, s));
      OnlyFreeMatters(g, h, a, from);
    case Let(_, name, v, b) =>
      var bound :| HasType(g, v, bound) && HasType(g + [(name, bound)], b, s);
      OnlyFreeMatters(g, h, v, bound);
      SameUnder(g, h, name, bound, b);
      OnlyFreeMatters(g + [(name, bound)], h + [(name, bound)], b, s);
    case _ =>
  }

  /** A name that does not occur may have any type. */
  lemma Unused(g: Context, name: Name, a: SimpleType, b: SimpleType, e: Expr, s: SimpleType)
    requires name.Some? ==> !Free(e, name.value)
    requires HasType(g + [(name, a)], e, s)
    ensures HasType(g + [(name, b)], e, s)
  {
    forall x: string | Free(e, x) ensures Assigned(g + [(name, a)], x) == Assigned(g + [(name, b)], x) {
      AssignedWith(g, name, a, x);
      AssignedWith(g, name, b, x);
    }
    OnlyFreeMatters(g + [(name, a)], g + [(name, b)], e, s);
  }

  /** A term has at most one type. */
  lemma {:induction false} TypesUnique(g: Context, e: Expr, s: SimpleType, t: SimpleType)
    requires HasType(g, e, s) && HasType(g, e, t)
    ensures s == t
    decreases e
  {
    match e
    case Group(_, v) => TypesUnique(g, v, s, t);
    case If(_, _, x, _) => TypesUnique(g, x, s, t);
    case Case(_, _, z, _, _) => TypesUnique(g, z, s, t);
    case Lambda(_, p, b) => TypesUnique(g + [(p.name, s.from)], b, s.to, t.to);
    case Apply(_, f, a) =>
      var x :| HasType(g, f, SimpleType.Arrow(x, s)) && HasType(g, a, x);
      var y :| HasType(g, f, SimpleType.Arrow(y, t)) && HasType(g, a, y);
      TypesUnique(g, f, SimpleType.Arrow(x, s), SimpleType.Arrow(y, t));
    case Let(_, name, v, b) =>
      var x :| HasType(g, v, x) && HasType(g + [(name, x)], b, s);
      var y :| HasType(g, v, y) && HasType(g + [(name, y)], b, t);
      TypesUnique(g, v, x, y);
      TypesUnique(g + [(name, x)], b, s, t);
    case _ =>
  }

  // ------------------------------------------------------------------ one name at two types

  /** The first `j` arguments of both types agree. */
  predicate SameArguments(a: SimpleType, b: SimpleType, j: nat) {
    j == 0 || (a.Arrow? && b.Arrow? && a.from == b.from && SameArguments(a.to, b.to, j - 1))
  }

  /** The type after `j` arguments. */
  function After(a: SimpleType, j: nat): SimpleType {
    if j == 0 || !a.Arrow? then a else After(a.to, j - 1)
  }

  function Over(arguments: seq<SimpleType>, to: SimpleType): SimpleType {
    if arguments == [] then to else SimpleType.Arrow(arguments[0], Over(arguments[1..], to))
  }

  function Size(a: SimpleType): nat {
    match a
    case Arrow(from, to) => 1 + Size(from) + Size(to)
    case _ => 1
  }

  /** How the types of one let-free term differ when a free name has type `a` or `b`: the same new
      arguments in front of what is left of `a` and `b` after equal arguments. */
  ghost predicate Follows(a: SimpleType, b: SimpleType, s: SimpleType, t: SimpleType) {
    a == b || exists arguments, j: nat :: FollowsBy(a, b, s, t, arguments, j)
  }

  predicate FollowsBy(a: SimpleType, b: SimpleType, s: SimpleType, t: SimpleType, arguments: seq<SimpleType>, j: nat) {
    SameArguments(a, b, j) && s == Over(arguments, After(a, j)) && t == Over(arguments, After(b, j))
  }

  lemma {:induction false} OverInjective(arguments: seq<SimpleType>, x: SimpleType, y: SimpleType)
    requires Over(arguments, x) == Over(arguments, y)
    ensures x == y
    decreases |arguments|
  {
    if arguments != [] { OverInjective(arguments[1..], x, y); }
  }

  lemma {:induction false} AfterInjective(a: SimpleType, b: SimpleType, j: nat)
    requires SameArguments(a, b, j) && After(a, j) == After(b, j)
    ensures a == b
    decreases j
  {
    if j > 0 { AfterInjective(a.to, b.to, j - 1); }
  }

  /** Equal types can only come from equal types. */
  lemma FollowsEqual(a: SimpleType, b: SimpleType, s: SimpleType)
    requires Follows(a, b, s, s)
    ensures a == b
  {
    if a != b {
      var arguments, j: nat :| FollowsBy(a, b, s, s, arguments, j);
      OverInjective(arguments, After(a, j), After(b, j));
      AfterInjective(a, b, j);
    }
  }

  lemma FollowsSelf(a: SimpleType, b: SimpleType)
    ensures Follows(a, b, a, b)
  {
    assert FollowsBy(a, b, a, b, [], 0);
  }

  lemma FollowsArrow(a: SimpleType, b: SimpleType, from: SimpleType, s: SimpleType, t: SimpleType)
    requires Follows(a, b, s, t)
    ensures Follows(a, b, SimpleType.Arrow(from, s), SimpleType.Arrow(from, t))
  {
    if a != b {
      var arguments, j: nat :| FollowsBy(a, b, s, t, arguments, j);
      var more := [from] + arguments;
      assert more[1..] == arguments;
      assert FollowsBy(a, b, SimpleType.Arrow(from, s), SimpleType.Arrow(from, t), more, j);
    }
  }

  lemma {:induction false} AfterStep(a: SimpleType, b: SimpleType, j: nat, from: SimpleType)
    requires SameArguments(a, b, j) && After(a, j).Arrow? && After(b, j).Arrow?
    requires After(a, j).from == from && After(b, j).from == from
    ensures SameArguments(a, b, j + 1)
    ensures After(a, j + 1) == After(a, j).to && After(b, j + 1) == After(b, j).to
    decreases j
  {
    if j > 0 { AfterStep(a.to, b.to, j - 1, from); }
  }

  lemma {:induction false} EarlierArgument(a: SimpleType, b: SimpleType, j: nat, k: nat)
    requires SameArguments(a, b, k) && j < k
    ensures After(a, j).Arrow? && After(b, j).Arrow? && After(a, j).from == After(b, j).from
    decreases j
  {
    if j > 0 { EarlierArgument(a.to, b.to, j - 1, k - 1); }
  }

  lemma {:induction false} AfterSmaller(a: SimpleType, j: nat, k: nat)
    requires k <= j
    ensures Size(After(a, j)) <= Size(After(a, k))
    decreases k
  {
    if k == 0 {
      AfterShrinks(a, j);
    } else if a.Arrow? {
      AfterSmaller(a.to, j - 1, k - 1);
    }
  }

  lemma {:induction false} AfterShrinks(a: SimpleType, j: nat)
    ensures Size(After(a, j)) <= Size(a)
    decreases j
  {
    if j > 0 && a.Arrow? { AfterShrinks(a.to, j - 1); }
  }

  lemma {:induction false} OverLarger(arguments: seq<SimpleType>, to: SimpleType)
    ensures Size(to) <= Size(Over(arguments, to))
    decreases |arguments|
  {
    if arguments != [] { OverLarger(arguments[1..], to); }
  }

  /** An argument that itself follows cannot be one of two different ones: it would contain itself. */
  lemma ArgumentSame(a: SimpleType, b: SimpleType, j: nat, x: SimpleType, y: SimpleType)
    requires a != b && SameArguments(a, b, j) && After(a, j).Arrow? && After(b, j).Arrow?
    requires x == After(a, j).from && y == After(b, j).from && Follows(a, b, x, y)
    ensures x == y
  {
    var arguments, k: nat :| FollowsBy(a, b, x, y, arguments, k);
    if j < k {
      EarlierArgument(a, b, j, k);
    } else {
      OverLarger(arguments, After(a, k));
      AfterSmaller(a, j, k);
      assert false;
    }
  }

  lemma FollowsApply(a: SimpleType, b: SimpleType, x: SimpleType, y: SimpleType, s: SimpleType, t: SimpleType)
    requires Follows(a, b, SimpleType.Arrow(x, s), SimpleType.Arrow(y, t))
    requires x == y || Follows(a, b, x, y)
    ensures Follows(a, b, s, t)
  {
    if a != b {
      var arguments, j: nat :| FollowsBy(a, b, SimpleType.Arrow(x, s), SimpleType.Arrow(y, t), arguments, j);
      if arguments == [] {
        if x != y { ArgumentSame(a, b, j, x, y); }
        AfterStep(a, b, j, x);
        assert FollowsBy(a, b, s, t, [], j + 1);
      } else {
        assert FollowsBy(a, b, s, t, arguments[1..], j);
      }
    }
  }

  /** The contexts differ at most in the type of `x`. */
  ghost predicate Differ(g: Context, h: Context, x: string, a: SimpleType, b: SimpleType) {
    && Assigned(g, x) == Some(a) && Assigned(h, x) == Some(b)
    && forall y: string :: y != x ==> Assigned(g, y) == Assigned(h, y)
  }

  lemma DifferUnder(g: Context, h: Context, x: string, a: SimpleType, b: SimpleType, name: Name, s: SimpleType)
    requires Differ(g, h, x, a, b) && name != Some(x)
    ensures Differ(g + [(name, s)], h + [(name, s)], x, a, b)
  {
    forall y: string
      ensures Assigned(g + [(name, s)], y) == if name == Some(y) then Some(s) else Assigned(g, y)
      ensures Assigned(h + [(name, s)], y) == if name == Some(y) then Some(s) else Assigned(h, y)
    {
      AssignedWith(g, name, s, y);
      AssignedWith(h, name, s, y);
    }
  }

  /** Where the name does not occur, the types are equal. */
  lemma AbsentSame(g: Context, h: Context, x: string, a: SimpleType, b: SimpleType, e: Expr, s: SimpleType,
                   t: SimpleType)
    requires Differ(g, h, x, a, b) && !Free(e, x) && HasType(g, e, s) && HasType(h, e, t)
    ensures s == t
  {
    OnlyFreeMatters(g, h, e, s);
    TypesUnique(h, e, s, t);
  }

  /** The two types of a let-free term that uses the name. */
  lemma {:induction false} TwoTypes(g: Context, h: Context, x: string, a: SimpleType, b: SimpleType,
                                    e: Expr, s: SimpleType, t: SimpleType)
    requires Differ(g, h, x, a, b) && LetFree(e) && Free(e, x) && HasType(g, e, s) && HasType(h, e, t)
    ensures Follows(a, b, s, t)
    decreases e, 1
  {
    match e
    case Variable(_, _) => FollowsSelf(a, b);
    case Group(_, v) => TwoTypes(g, h, x, a, b, v, s, t);
    case Succ(_, v) => TwoSame(g, h, x, a, b, v, SNat);
    case Add(_, l, r) => if Free(l, x) { TwoSame(g, h, x, a, b, l, SNat); } else { TwoSame(g, h, x, a, b, r, SNat); }
    case If(_, n, y, z) =>
      if Free(n, x) { TwoSame(g, h, x, a, b, n, SBool); }
      else if Free(y, x) { TwoTypes(g, h, x, a, b, y, s, t); }
      else { TwoTypes(g, h, x, a, b, z, s, t); }
    case Case(_, n, z, binder, m) =>
      if Free(n, x) {
        TwoSame(g, h, x, a, b, n, SNat);
      } else if Free(z, x) {
        TwoTypes(g, h, x, a, b, z, s, t);
      } else {
        DifferUnder(g, h, x, a, b, binder, SNat);
        TwoTypes(g + [(binder, SNat)], h + [(binder, SNat)], x, a, b, m, s, t);
      }
    case Lambda(_, p, body) =>
      DifferUnder(g, h, x, a, b, p.name, s.from);
      TwoTypes(g + [(p.name, s.from)], h + [(p.name, s.from)], x, a, b, body, s.to, t.to);
      FollowsArrow(a, b, s.from, s.to, t.to);
    case Apply(_, f, v) => TwoApply(g, h, x, a, b, e, s, t);
    case _ =>
  }

  /** A part that must have one fixed type decides. */
  lemma {:induction false} TwoSame(g: Context, h: Context, x: string, a: SimpleType, b: SimpleType,
                                   e: Expr, s: SimpleType)
    requires Differ(g, h, x, a, b) && LetFree(e) && Free(e, x) && HasType(g, e, s) && HasType(h, e, s)
    ensures a == b
    decreases e, 2
  {
    TwoTypes(g, h, x, a, b, e, s, s);
    FollowsEqual(a, b, s);
  }

  lemma {:induction false} TwoApply(g: Context, h: Context, x: string, a: SimpleType, b: SimpleType,
                                    e: Expr, s: SimpleType, t: SimpleType)
    requires e.Apply? && Differ(g, h, x, a, b) && LetFree(e) && Free(e, x) && HasType(g, e, s) && HasType(h, e, t)
    ensures Follows(a, b, s, t)
    decreases e, 0
  {
    var f, v := e.function0, e.argument;
    var y :| HasType(g, f, SimpleType.Arrow(y, s)) && HasType(g, v, y);
    var z :| HasType(h, f, SimpleType.Arrow(z, t)) && HasType(h, v, z);
    if Free(f, x) {
      TwoTypes(g, h, x, a, b, f, SimpleType.Arrow(y, s), SimpleType.Arrow(z, t));
      if Free(v, x) {
        TwoTypes(g, h, x, a, b, v, y, z);
      } else {
        AbsentSame(g, h, x, a, b, v, y, z);
      }
      FollowsApply(a, b, y, z, s, t);
    } else {
      AbsentSame(g, h, x, a, b, f, SimpleType.Arrow(y, s), SimpleType.Arrow(z, t));
      TwoSame(g, h, x, a, b, v, y);
    }
  }

  /** A let-free term fixes the type of every name it uses: with the same type for the whole, the
      name has the same type. */
  lemma NameFixed(g: Context, name: Name, a: SimpleType, b: SimpleType, e: Expr, s: SimpleType)
    requires LetFree(e) && name.Some? && Free(e, name.value)
    requires HasType(g + [(name, a)], e, s) && HasType(g + [(name, b)], e, s)
    ensures a == b
  {
    forall y: string
      ensures Assigned(g + [(name, a)], y) == if name == Some(y) then Some(a) else Assigned(g, y)
      ensures Assigned(g + [(name, b)], y) == if name == Some(y) then Some(b) else Assigned(g, y)
    {
      AssignedWith(g, name, a, y);
      AssignedWith(g, name, b, y);
    }
    TwoSame(g + [(name, a)], g + [(name, b)], name.value, a, b, e, s);
  }
}
