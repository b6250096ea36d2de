/** The checker read as a typing judgement on simple types: in every fixpoint the type found at a node,
    and the types asked of its children, are those of the typing rules. */
module StlcJudgements {
  import opened Wrappers
  import opened StlcSyntax
  import opened StlcNames
  import opened StlcTypes
  import opened StlcCheck

  /** This type is present, whatever shape its functions are stored in. */
  predicate Has(value: Option<TypeValue>, s: SimpleType) {
    value.Some? && Curry(value.value) == s
  }

  predicate Found(c: Checked, id: Id, s: SimpleType) {
    Has(TypeOf(c, id), s)
  }

  predicate Asked(c: Checked, parent: Id, id: Id, s: SimpleType) {
    Has(Wanted(c, parent, id), s)
  }

  /** The type the rule of a node gives, from the types found below it. */
  ghost predicate Synthesizes(c: Checked, env: Env, e: Expr, s: SimpleType) {
    match e
    case True(_) => s == SBool
    case False(_) => s == SBool
    case Number(_) => s == SNat
    case UnitValue(_) => s == SUnit
    case Group(_, v) => Found(c, v.id, s)
    case Succ(_, _) => s == SNat
    case Add(_, _, _) => s == SNat
    case If(_, _, x, y) => Found(c, x.id, s) && Found(c, y.id, s)
    case Case(_, _, z, _, n) => Found(c, z.id, s) && Found(c, n.id, s)
    case Lambda(_, p, b) => s.Arrow? && Found(c, p.id, s.from) && Found(c, b.id, s.to)
    case Apply(_, f, _) => exists from :: Found(c, f.id, SimpleType.Arrow(from, s))
    case Let(_, _, _, b) => Found(c, b.id, s)
    case Variable(_, text) =>
      && text.Some? && Nearest(env, text.value).Resolved?
      && Has(Defined(c, Nearest(env, text.value).declaration), s)
    case ErrorExpr(_) => false
  }

  /** Functions stored flat have one parameter type and one result type as simple types. */
  lemma ArrowFound(value: TypeValue, s: SimpleType)
    requires Flat(value)
    ensures (exists from :: Curry(value) == SimpleType.Arrow(from, s)) <==> Has(ApplyOne(value), s)
  {
    ApplyPeels(value);
  }

  lemma BranchesFound(c: Checked, x: Id, y: Id, asks: seq<(Id, Option<TypeValue>)>, s: SimpleType)
    requires AllFlat(c)
    ensures Has(Branches(TypeOf(c, x), TypeOf(c, y), asks).value, s) <==> Found(c, x, s) && Found(c, y, s)
  {
    if TypeOf(c, x).Some? && TypeOf(c, y).Some? {
      KnownFlat(c, x);
      KnownFlat(c, y);
      if Curry(TypeOf(c, x).value) == Curry(TypeOf(c, y).value) {
        CurryInjective(TypeOf(c, x).value, TypeOf(c, y).value);
      }
    }
  }

  lemma LambdaFound(c: Checked, e: Expr, want: Option<TypeValue>, s: SimpleType)
    requires e.Lambda? && AllFlat(c)
    ensures Has(Synth(c, e, want).value, s)
      <==> s.Arrow? && Found(c, e.parameter.id, s.from) && Found(c, e.body.id, s.to)
  {
    if TypeOf(c, e.parameter.id).Some? && TypeOf(c, e.body.id).Some? {
      FunctionCurries([TypeOf(c, e.parameter.id).value], TypeOf(c, e.body.id).value);
    }
  }

  lemma ApplyFound(c: Checked, e: Expr, want: Option<TypeValue>, s: SimpleType)
    requires e.Apply? && AllFlat(c)
    ensures Has(Synth(c, e, want).value, s) <==> exists from :: Found(c, e.function0.id, SimpleType.Arrow(from, s))
  {
    if TypeOf(c, e.function0.id).Some? {
      KnownFlat(c, e.function0.id);
      ArrowFound(TypeOf(c, e.function0.id).value, s);
    }
  }

  lemma ValueIff(c: Checked, env: Env, e: Expr, want: Option<TypeValue>, s: SimpleType)
    requires AllFlat(c) && !e.Variable?
    ensures Has(Synth(c, e, want).value, s) <==> Synthesizes(c, env, e, s)
  {
    match e
    case If(_, b, x, y) => BranchesFound(c, x.id, y.id, Synth(c, e, want).asks, s);
    case Case(_, v, z, _, n) => BranchesFound(c, z.id, n.id, Synth(c, e, want).asks, s);
    case Lambda(_, _, _) => LambdaFound(c, e, want, s);
    case Apply(_, _, _) => ApplyFound(c, e, want, s);
    case _ =>
  }

  lemma VariableFound(c: Checked, t: Tables, env: Env, parent: Id, e: Expr, s: SimpleType)
    requires e.Variable? && AllFlat(c) && ExprChecked(c, t, parent, e) && ResolvesLexically(t, e, env)
    ensures Has(Synth(c, e, Wanted(c, parent, e.id)).value, s) <==> Synthesizes(c, env, e, s)
  {
  }

  lemma ValuePublished(c: Checked, parent: Id, id: Id, r: Effects)
    requires Publishes(c, parent, id, r)
    ensures TypeOf(c, id) == r.value
  {
    assert Finish(r, Wanted(c, parent, id)).value == r.value;
  }

  /** In every fixpoint the type found at a node is the one its typing rule gives. */
  lemma FoundIff(c: Checked, t: Tables, env: Env, parent: Id, e: Expr, s: SimpleType)
    requires AllFlat(c) && ExprChecked(c, t, parent, e) && ResolvesLexically(t, e, env)
    ensures Found(c, e.id, s) <==> Synthesizes(c, env, e, s)
  {
    ValuePublished(c, parent, e.id, Synth(c, e, Wanted(c, parent, e.id)));
    if e.Variable? {
      VariableFound(c, t, env, parent, e, s);
    } else {
      ValueIff(c, env, e, Wanted(c, parent, e.id), s);
    }
  }

  /** What is asked of the children: the type the rule needs, the type asked of the node where the
      rule passes it on, and otherwise nothing. */
  ghost predicate Asks(c: Checked, parent: Id, e: Expr, s: SimpleType) {
    match e
    case Group(id, v) => Asked(c, id, v.id, s) <==> Asked(c, parent, id, s)
    case Succ(id, v) => Asked(c, id, v.id, s) <==> s == SNat
    case Add(id, l, r) => (Asked(c, id, l.id, s) <==> s == SNat) && (Asked(c, id, r.id, s) <==> s == SNat)
    case If(id, b, x, y) =>
      && (Asked(c, id, b.id, s) <==> s == SBool)
      && (Asked(c, id, x.id, s) <==> Asked(c, parent, id, s))
      && (Asked(c, id, y.id, s) <==> Asked(c, parent, id, s))
    case Case(id, v, z, _, n) =>
      && (Asked(c, id, v.id, s) <==> s == SNat)
      && (Asked(c, id, z.id, s) <==> Asked(c, parent, id, s))
      && (Asked(c, id, n.id, s) <==> Asked(c, parent, id, s))
    case Lambda(id, p, b) =>
      && (Asked(c, id, p.id, s) <==> exists to :: Asked(c, parent, id, SimpleType.Arrow(s, to)))
      && (Asked(c, id, b.id, s) <==> exists from :: Asked(c, parent, id, SimpleType.Arrow(from, s)))
    case Apply(id, f, a) =>
      && !Asked(c, id, f.id, s)
      && (Asked(c, id, a.id, s) <==> exists to :: Found(c, f.id, SimpleType.Arrow(s, to)))
    case Let(id, _, v, b) => !Asked(c, id, v.id, s) && (Asked(c, id, b.id, s) <==> Asked(c, parent, id, s))
    case _ => true
  }

  /** The parts of a type asked of a function are those of its arrow. */
  lemma PartsAsked(want: Option<TypeValue>, s: SimpleType)
    requires want.Some? ==> Flat(want.value)
    ensures Has(FirstParameter(want), s) <==> exists to :: Has(want, SimpleType.Arrow(s, to))
    ensures Has(BodyWanted(want), s) <==> exists from :: Has(want, SimpleType.Arrow(from, s))
  {
    if want.Some? {
      ApplyPeels(want.value);
      if want.value.Function? {
        var rest := ApplyOne(want.value);
        assert BodyWanted(want) == rest;
        assert Has(want, SimpleType.Arrow(Curry(want.value.parameters[0]), Curry(rest.value)));
      }
    }
  }

  lemma WantedFlat(c: Checked, parent: Id, id: Id)
    requires AllFlat(c) && Wanted(c, parent, id).Some?
    ensures Flat(Wanted(c, parent, id).value)
  {
  }

  /** A child whose ask is in the effects of a published node. */
  lemma AskPublished(c: Checked, parent: Id, id: Id, r: Effects, k: nat, child: Id, want: Option<TypeValue>)
    requires Publishes(c, parent, id, r) && k < |r.asks| && r.asks[k] == (child, want)
    ensures Wanted(c, id, child) == want
  {
    assert Finish(r, Wanted(c, parent, id)).asks == r.asks;
  }

  lemma LambdaAsks(c: Checked, parent: Id, e: Expr, s: SimpleType)
    requires AllFlat(c) && e.Lambda? && Publishes(c, parent, e.id, Synth(c, e, Wanted(c, parent, e.id)))
    ensures Asks(c, parent, e, s)
  {
    var want := Wanted(c, parent, e.id);
    var r := Synth(c, e, want);
    AskPublished(c, parent, e.id, r, 0, e.parameter.id, FirstParameter(want));
    AskPublished(c, parent, e.id, r, 1, e.body.id, BodyWanted(want));
    if want.Some? { WantedFlat(c, parent, e.id); }
    PartsAsked(want, s);
  }

  lemma ApplyAsks(c: Checked, parent: Id, e: Expr, s: SimpleType)
    requires AllFlat(c) && e.Apply? && Publishes(c, parent, e.id, Synth(c, e, Wanted(c, parent, e.id)))
    ensures Asks(c, parent, e, s)
  {
    var r := Synth(c, e, Wanted(c, parent, e.id));
    var found := TypeOf(c, e.function0.id);
    AskPublished(c, parent, e.id, r, 0, e.function0.id, None);
    AskPublished(c, parent, e.id, r, 1, e.argument.id, FirstParameter(found));
    if found.Some? { KnownFlat(c, e.function0.id); }
    PartsAsked(found, s);
  }

  lemma BranchesAsk(c: Checked, parent: Id, id: Id, r: Effects, test: Id, needed: TypeValue, x: Id, y: Id)
    requires Publishes(c, parent, id, r)
    requires r.asks == [(test, Some(needed)), (x, Wanted(c, parent, id)), (y, Wanted(c, parent, id))]
    ensures Wanted(c, id, test) == Some(needed)
    ensures Wanted(c, id, x) == Wanted(c, id, y) == Wanted(c, parent, id)
  {
    AskPublished(c, parent, id, r, 0, test, Some(needed));
    AskPublished(c, parent, id, r, 1, x, Wanted(c, parent, id));
    AskPublished(c, parent, id, r, 2, y, Wanted(c, parent, id));
  }

  lemma BranchingAsks(c: Checked, parent: Id, e: Expr, s: SimpleType)
    requires AllFlat(c) && (e.If? || e.Case?)
    requires Publishes(c, parent, e.id, Synth(c, e, Wanted(c, parent, e.id)))
    ensures Asks(c, parent, e, s)
  {
    var r := Synth(c, e, Wanted(c, parent, e.id));
    if e.If? {
      BranchesAsk(c, parent, e.id, r, e.condition.id, Bool, e.whenTrue.id, e.whenFalse.id);
    } else {
      BranchesAsk(c, parent, e.id, r, e.scrutinee.id, Nat, e.zero.id, e.successor.id);
    }
  }

  lemma SimpleAsks(c: Checked, parent: Id, e: Expr, s: SimpleType)
    requires AllFlat(c) && !e.If? && !e.Case? && !e.Lambda? && !e.Apply?
    requires Publishes(c, parent, e.id, Synth(c, e, Wanted(c, parent, e.id)))
    ensures Asks(c, parent, e, s)
  {
    var want := Wanted(c, parent, e.id);
    var r := Synth(c, e, want);
    match e
    case Group(id, v) => AskPublished(c, parent, id, r, 0, v.id, want);
    case Succ(id, v) => AskPublished(c, parent, id, r, 0, v.id, Some(Nat));
    case Add(id, x, y) =>
      AskPublished(c, parent, id, r, 0, x.id, Some(Nat));
      AskPublished(c, parent, id, r, 1, y.id, Some(Nat));
    case Let(id, _, v, b) =>
      AskPublished(c, parent, id, r, 0, v.id, None);
      AskPublished(c, parent, id, r, 1, b.id, want);
    case _ =>
  }

  /** In every fixpoint the children are asked for what the typing rules need of them. */
  lemma AskedIff(c: Checked, t: Tables, parent: Id, e: Expr, s: SimpleType)
    requires AllFlat(c) && ExprChecked(c, t, parent, e)
    ensures Asks(c, parent, e, s)
  {
    match e
    case Lambda(_, _, _) => LambdaAsks(c, parent, e, s);
    case Apply(_, _, _) => ApplyAsks(c, parent, e, s);
    case If(_, _, _, _) => BranchingAsks(c, parent, e, s);
    case Case(_, _, _, _, _) => BranchingAsks(c, parent, e, s);
    case _ => SimpleAsks(c, parent, e, s);
  }
}
