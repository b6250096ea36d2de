/** Which well-typed terms the checker accepts: completeness, and the use of `case` binders. */
module StlcComplete {
  import opened Wrappers
  import opened StlcSyntax
  import opened StlcNames
  import opened StlcTypes
  import opened StlcTyping
  import opened StlcCheck

  // ------------------------------------------------------------------ used binders

  /** No `case` uses its binder. */
  predicate CasesUnused(e: Expr) {
    match e
    case If(_, b, x, y) => CasesUnused(b) && CasesUnused(x) && CasesUnused(y)
    case Case(_, s, z, binder, n) => UnusedIn(binder, n) && CasesUnused(s) && CasesUnused(z) && CasesUnused(n)
    case Let(_, _, v, b) => CasesUnused(v) && CasesUnused(b)
    case Lambda(_, _, b) => CasesUnused(b)
    case Add(_, l, r) => CasesUnused(l) && CasesUnused(r)
    case Apply(_, f, a) => CasesUnused(f) && CasesUnused(a)
    case Succ(_, v) => CasesUnused(v)
    case Group(_, v) => CasesUnused(v)
    case _ => true
  }

  /** The binder a name stands for has a published type. */
  predicate BinderKnown(c: Checked, env: Env, x: string) {
    Nearest(env, x).Resolved? && Defined(c, Nearest(env, x).declaration).Some?
  }

  ghost predicate CleanHere(c: Checked, t: Tables, env: Env, parent: Id, e: Expr) {
    AllFlat(c) && ExprChecked(c, t, parent, e) && Clean(c, e) && ResolvesLexically(t, e, env)
  }

  lemma NearestUnder(env: Env, name: Name, binder: Id, x: string)
    ensures Nearest(With(env, name, binder), x) == if name == Some(x) then Resolved(binder) else Nearest(env, x)
  {
    assert With(env, name, binder)[..|env|] == env;
  }

  /** Every name that a clean term uses has a binder of known type. */
  lemma {:induction false} FreeKnown(c: Checked, t: Tables, env: Env, parent: Id, e: Expr, x: string)
    requires CleanHere(c, t, env, parent, e) && Free(e, x)
    ensures BinderKnown(c, env, x)
    decreases e
  {
    match e
    case Variable(id, _) => SilentNode(c, parent, id, Synth(c, e, Wanted(c, parent, id)));
    case If(id, b, y, z) =>
      if Free(b, x) { FreeKnown(c, t, env, id, b, x); }
      else if Free(y, x) { FreeKnown(c, t, env, id, y, x); }
      else { FreeKnown(c, t, env, id, z, x); }
    case Case(id, s, z, binder, n) =>
      if Free(s, x) { FreeKnown(c, t, env, id, s, x); }
      else if Free(z, x) { FreeKnown(c, t, env, id, z, x); }
      else {
        FreeKnown(c, t, With(env, binder, id), id, n, x);
        NearestUnder(env, binder, id, x);
      }
    case Let(id, name, v, b) =>
      if Free(v, x) { FreeKnown(c, t, env, id, v, x); }
      else {
        FreeKnown(c, t, With(env, name, id), id, b, x);
        NearestUnder(env, name, id, x);
      }
    case Lambda(id, p, b) =>
      FreeKnown(c, t, With(env, p.name, p.id), id, b, x);
      NearestUnder(env, p.name, p.id, x);
    case Add(id, l, r) =>
      if Free(l, x) { FreeKnown(c, t, env, id, l, x); } else { FreeKnown(c, t, env, id, r, x); }
    case Apply(id, f, a) =>
      if Free(f, x) { FreeKnown(c, t, env, id, f, x); } else { FreeKnown(c, t, env, id, a, x); }
    case Succ(id, v) => FreeKnown(c, t, env, id, v, x);
    case Group(id, v) => FreeKnown(c, t, env, id, v, x);
    case _ =>
  }

  /** A clean term uses no `case` binder: only `let` publishes a type for its binder. */
  lemma {:induction false} CaseBindersUnused(c: Checked, t: Tables, env: Env, parent: Id, e: Expr)
    requires CleanHere(c, t, env, parent, e)
    ensures CasesUnused(e)
    decreases e
  {
    match e
    case If(id, b, y, z) =>
      CaseBindersUnused(c, t, env, id, b);
      CaseBindersUnused(c, t, env, id, y);
      CaseBindersUnused(c, t, env, id, z);
    case Case(id, s, z, binder, n) =>
      CaseBindersUnused(c, t, env, id, s);
      CaseBindersUnused(c, t, env, id, z);
      CaseBindersUnused(c, t, With(env, binder, id), id, n);
      if binder.Some? && Free(n, binder.value) {
        FreeKnown(c, t, With(env, binder, id), id, n, binder.value);
        NearestUnder(env, binder, id, binder.value);
      }
    case Let(id, name, v, b) =>
      CaseBindersUnused(c, t, env, id, v);
      CaseBindersUnused(c, t, With(env, name, id), id, b);
    case Lambda(id, p, b) => CaseBindersUnused(c, t, With(env, p.name, p.id), id, b);
    case Add(id, l, r) =>
      CaseBindersUnused(c, t, env, id, l);
      CaseBindersUnused(c, t, env, id, r);
    case Apply(id, f, a) =>
      CaseBindersUnused(c, t, env, id, f);
      CaseBindersUnused(c, t, env, id, a);
    case Succ(id, v) => CaseBindersUnused(c, t, env, id, v);
    case Group(id, v) => CaseBindersUnused(c, t, env, id, v);
    case _ =>
  }

  // ------------------------------------------------------------------ completeness of types

  /** Nothing, or exactly this type, is asked for. */
  predicate Met(want: Option<TypeValue>, s: SimpleType) {
    want == None || want == Some(Flatten(s))
  }

  /** Nothing is asked of a type in parentheses; no component does. */
  predicate Unasked(c: Checked, t: TypeExpr)
    decreases t
  {
    match t
    case Arrow(_, l, r) => Unasked(c, l) && Unasked(c, r)
    case Simple(_, atom) => UnaskedAtom(c, atom)
    case ErrorType(_) => true
  }

  predicate UnaskedAtom(c: Checked, a: TypeAtom)
    decreases a
  {
    a.Parens? ==> Wanted(c, a.id, a.inner.id) == None && Unasked(c, a.inner)
  }

  predicate ParamUnasked(c: Checked, p: Param) {
    p.annotation.Some? ==> Unasked(c, p.annotation.value)
  }

  /** The node is known with this type, and silent. */
  ghost predicate Settled(c: Checked, id: Id, s: SimpleType) {
    Silent(c, id) && TypeOf(c, id) == Some(Flatten(s))
  }

  /** A node that finds the type asked for, without errors, is settled. */
  lemma NodeSettles(c: Checked, parent: Id, id: Id, r: Effects, s: SimpleType)
    requires Publishes(c, parent, id, r) && Met(Wanted(c, parent, id), s)
    requires r.value == Some(Flatten(s)) && r.errors == []
    ensures Settled(c, id, s)
  {
  }

  lemma AsksPublished(c: Checked, parent: Id, id: Id, r: Effects)
    requires Publishes(c, parent, id, r)
    ensures forall k :: 0 <= k < |r.asks| ==> Wanted(c, id, r.asks[k].0) == r.asks[k].1
  {
    assert Finish(r, Wanted(c, parent, id)).asks == r.asks;
  }

  lemma {:induction false} AtomSettles(c: Checked, parent: Id, a: TypeAtom, s: SimpleType)
    requires AtomChecked(c, parent, a) && DenotesAtom(a) == Some(s)
    requires Met(Wanted(c, parent, a.id), s) && UnaskedAtom(c, a)
    ensures CleanAtom(c, a) && Settled(c, a.id, s)
    decreases a
  {
    if a.Parens? { TypeSettles(c, a.id, a.inner, s); }
    NodeSettles(c, parent, a.id, SynthAtom(c, a), s);
  }

  lemma {:induction false} TypeSettles(c: Checked, parent: Id, t: TypeExpr, s: SimpleType)
    requires TypeChecked(c, parent, t) && Denotes(t) == Some(s) && Met(Wanted(c, parent, t.id), s) && Unasked(c, t)
    ensures CleanType(c, t) && Settled(c, t.id, s)
    decreases t
  {
    var r := SynthType(c, t);
    AsksPublished(c, parent, t.id, r);
    match t
    case Arrow(id, l, m) =>
      assert r.asks[0] == (l.id, None) && r.asks[1] == (m.id, None);
      TypeSettles(c, id, l, s.from);
      TypeSettles(c, id, m, s.to);
      NodeSettles(c, parent, id, r, s);
    case Simple(id, atom) =>
      assert r.asks[0] == (atom.id, None);
      AtomSettles(c, id, atom, s);
      NodeSettles(c, parent, id, r, s);
  }

  lemma ParamSettles(c: Checked, parent: Id, p: Param, s: SimpleType)
    requires ParamChecked(c, parent, p) && p.annotation.Some? && Denotes(p.annotation.value) == Some(s)
    requires Met(Wanted(c, parent, p.id), s) && ParamUnasked(c, p)
    ensures CleanParam(c, p) && Settled(c, p.id, s) && Defined(c, p.id) == Some(Flatten(s))
  {
    var r := SynthParam(c, p);
    AsksPublished(c, parent, p.id, r);
    assert r.asks[0] == (p.annotation.value.id, None);
    TypeSettles(c, p.id, p.annotation.value, s);
    NodeSettles(c, parent, p.id, r, s);
  }

  // ------------------------------------------------------------------ completeness of terms

  predicate TypesUnasked(c: Checked, e: Expr) {
    match e
    case If(_, b, x, y) => TypesUnasked(c, b) && TypesUnasked(c, x) && TypesUnasked(c, y)
    case Case(_, s, z, _, n) => TypesUnasked(c, s) && TypesUnasked(c, z) && TypesUnasked(c, n)
    case Let(_, _, v, b) => TypesUnasked(c, v) && TypesUnasked(c, b)
    case Lambda(_, p, b) => ParamUnasked(c, p) && TypesUnasked(c, b)
    case Add(_, l, r) => TypesUnasked(c, l) && TypesUnasked(c, r)
    case Apply(_, f, a) => TypesUnasked(c, f) && TypesUnasked(c, a)
    case Succ(_, v) => TypesUnasked(c, v)
    case Group(_, v) => TypesUnasked(c, v)
    case _ => true
  }

  /** The name has a binder, whose published type is the one the context assigns. */
  ghost predicate SuppliedAt(c: Checked, env: Env, g: Context, x: string) {
    && BinderKnown(c, env, x) && Assigned(g, x).Some?
    && Defined(c, Nearest(env, x).declaration) == Some(Flatten(Assigned(g, x).value))
  }

  ghost predicate Supplied(c: Checked, env: Env, g: Context, e: Expr) {
    forall x: string :: Free(e, x) ==> SuppliedAt(c, env, g, x)
  }

  lemma SuppliedUnder(c: Checked, env: Env, g: Context, name: Name, binder: Id, s: SimpleType, body: Expr)
    requires forall x: string :: Free(body, x) && name != Some(x) ==> SuppliedAt(c, env, g, x)
    requires UnusedIn(name, body) || Defined(c, binder) == Some(Flatten(s))
    ensures Supplied(c, With(env, name, binder), g + [(name, s)], body)
  {
    forall x: string | Free(body, x) ensures SuppliedAt(c, With(env, name, binder), g + [(name, s)], x) {
      NearestUnder(env, name, binder, x);
      AssignedWith(g, name, s, x);
    }
  }

  /** A fixpoint around a well-typed term, of which nothing but its type is asked. */
  ghost predicate Ready(c: Checked, t: Tables, env: Env, g: Context, parent: Id, e: Expr, s: SimpleType) {
    && AllFlat(c) && ExprChecked(c, t, parent, e) && ResolvesLexically(t, e, env)
    && Supplied(c, env, g, e) && TypesUnasked(c, e) && LetsUnused(e)
    && HasType(g, e, s) && Met(Wanted(c, parent, e.id), s)
  }

  ghost predicate Done(c: Checked, e: Expr, s: SimpleType) {
    Clean(c, e) && TypeOf(c, e.id) == Some(Flatten(s))
  }

  /** Every fixpoint on a well-typed term that uses no `case` or `let` binder is clean, at the type
      of the term. */
  lemma {:induction false} Complete(c: Checked, t: Tables, env: Env, g: Context, parent: Id, e: Expr, s: SimpleType)
    requires Ready(c, t, env, g, parent, e, s) && CasesUnused(e)
    ensures Done(c, e, s)
    decreases e, 1
  {
    match e
    case Variable(_, _) => CompleteVariable(c, t, env, g, parent, e, s);
    case Group(_, _) => CompleteUnary(c, t, env, g, parent, e, s);
    case Succ(_, _) => CompleteUnary(c, t, env, g, parent, e, s);
    case Add(_, _, _) => CompleteAdd(c, t, env, g, parent, e, s);
    case If(_, _, _, _) => CompleteIf(c, t, env, g, parent, e, s);
    case Case(_, _, _, _, _) => CompleteCase(c, t, env, g, parent, e, s);
    case Lambda(_, _, _) => CompleteLambda(c, t, env, g, parent, e, s);
    case Apply(_, _, _) => CompleteApply(c, t, env, g, parent, e, s);
    case Let(_, _, _, _) => CompleteLet(c, t, env, g, parent, e, s);
    case ErrorExpr(_) =>
    case _ => CompleteConstant(c, t, env, g, parent, e, s);
  }

  lemma CompleteConstant(c: Checked, t: Tables, env: Env, g: Context, parent: Id, e: Expr, s: SimpleType)
    requires (e.True? || e.False? || e.Number? || e.UnitValue?) && Ready(c, t, env, g, parent, e, s)
    ensures Done(c, e, s)
  {
    NodeSettles(c, parent, e.id, Synth(c, e, Wanted(c, parent, e.id)), s);
  }

  lemma CompleteVariable(c: Checked, t: Tables, env: Env, g: Context, parent: Id, e: Expr, s: SimpleType)
    requires e.Variable? && Ready(c, t, env, g, parent, e, s)
    ensures Done(c, e, s)
  {
    assert Free(e, e.text.value);
    assert SuppliedAt(c, env, g, e.text.value);
    NodeSettles(c, parent, e.id, Synth(c, e, Wanted(c, parent, e.id)), s);
  }

  lemma {:induction false} CompleteUnary(c: Checked, t: Tables, env: Env, g: Context, parent: Id, e: Expr,
                                         s: SimpleType)
    requires (e.Group? || e.Succ?) && Ready(c, t, env, g, parent, e, s) && CasesUnused(e)
    ensures Done(c, e, s)
    decreases e, 0
  {
    var r := Synth(c, e, Wanted(c, parent, e.id));
    AsksPublished(c, parent, e.id, r);
    if e.Succ? {
      assert r.asks[0] == (e.value.id, Some(Nat));
      Complete(c, t, env, g, e.id, e.value, SNat);
    } else {
      assert r.asks[0] == (e.inner.id, Wanted(c, parent, e.id));
      Complete(c, t, env, g, e.id, e.inner, s);
    }
    NodeSettles(c, parent, e.id, r, s);
  }

  lemma {:induction false} CompleteAdd(c: Checked, t: Tables, env: Env, g: Context, parent: Id, e: Expr, s: SimpleType)
    requires e.Add? && Ready(c, t, env, g, parent, e, s) && CasesUnused(e)
    ensures Done(c, e, s)
    decreases e, 0
  {
    var r := Synth(c, e, Wanted(c, parent, e.id));
    AsksPublished(c, parent, e.id, r);
    assert r.asks[0] == (e.left.id, Some(Nat)) && r.asks[1] == (e.right.id, Some(Nat));
    Complete(c, t, env, g, e.id, e.left, SNat);
    Complete(c, t, env, g, e.id, e.right, SNat);
    NodeSettles(c, parent, e.id, r, s);
  }

  lemma {:induction false} CompleteIf(c: Checked, t: Tables, env: Env, g: Context, parent: Id, e: Expr, s: SimpleType)
    requires e.If? && Ready(c, t, env, g, parent, e, s) && CasesUnused(e)
    ensures Done(c, e, s)
    decreases e, 0
  {
    IfParts(c, t, env, g, parent, e, s);
    Complete(c, t, env, g, e.id, e.condition, SBool);
    Complete(c, t, env, g, e.id, e.whenTrue, s);
    Complete(c, t, env, g, e.id, e.whenFalse, s);
    NodeSettles(c, parent, e.id, Synth(c, e, Wanted(c, parent, e.id)), s);
  }

  lemma IfParts(c: Checked, t: Tables, env: Env, g: Context, parent: Id, e: Expr, s: SimpleType)
    requires e.If? && Ready(c, t, env, g, parent, e, s)
    ensures Ready(c, t, env, g, e.id, e.condition, SBool)
    ensures Ready(c, t, env, g, e.id, e.whenTrue, s) && Ready(c, t, env, g, e.id, e.whenFalse, s)
  {
    var want := Wanted(c, parent, e.id);
    var r := Synth(c, e, want);
    AsksPublished(c, parent, e.id, r);
    assert r.asks[0] == (e.condition.id, Some(Bool));
    assert r.asks[1] == (e.whenTrue.id, want) && r.asks[2] == (e.whenFalse.id, want);
  }

  lemma {:induction false} CompleteCase(c: Checked, t: Tables, env: Env, g: Context, parent: Id, e: Expr, s: SimpleType)
    requires e.Case? && Ready(c, t, env, g, parent, e, s) && CasesUnused(e)
    ensures Done(c, e, s)
    decreases e, 0
  {
    CaseParts(c, t, env, g, parent, e, s);
    Complete(c, t, env, g, e.id, e.scrutinee, SNat);
    Complete(c, t, env, g, e.id, e.zero, s);
    Complete(c, t, With(env, e.binder, e.id), g + [(e.binder, SNat)], e.id, e.successor, s);
    NodeSettles(c, parent, e.id, Synth(c, e, Wanted(c, parent, e.id)), s);
  }

  lemma CaseParts(c: Checked, t: Tables, env: Env, g: Context, parent: Id, e: Expr, s: SimpleType)
    requires e.Case? && Ready(c, t, env, g, parent, e, s) && UnusedIn(e.binder, e.successor)
    ensures Ready(c, t, env, g, e.id, e.scrutinee, SNat) && Ready(c, t, env, g, e.id, e.zero, s)
    ensures Ready(c, t, With(env, e.binder, e.id), g + [(e.binder, SNat)], e.id, e.successor, s)
  {
    var want := Wanted(c, parent, e.id);
    var r := Synth(c, e, want);
    AsksPublished(c, parent, e.id, r);
    assert r.asks[0] == (e.scrutinee.id, Some(Nat));
    assert r.asks[1] == (e.zero.id, want) && r.asks[2] == (e.successor.id, want);
    SuppliedUnder(c, env, g, e.binder, e.id, SNat, e.successor);
  }

  lemma {:induction false} CompleteLet(c: Checked, t: Tables, env: Env, g: Context, parent: Id, e: Expr, s: SimpleType)
    requires e.Let? && Ready(c, t, env, g, parent, e, s) && CasesUnused(e)
    ensures Done(c, e, s)
    decreases e, 0
  {
    var want := Wanted(c, parent, e.id);
    var r := Synth(c, e, want);
    AsksPublished(c, parent, e.id, r);
    assert r.asks[0] == (e.value.id, None) && r.asks[1] == (e.body.id, want);
    var bound :| HasType(g, e.value, bound) && HasType(g + [(e.name, bound)], e.body, s);
    Complete(c, t, env, g, e.id, e.value, bound);
    SuppliedUnder(c, env, g, e.name, e.id, bound, e.body);
    Complete(c, t, With(env, e.name, e.id), g + [(e.name, bound)], e.id, e.body, s);
    NodeSettles(c, parent, e.id, r, s);
  }

  /** What is asked of the parts of a function that is asked for an arrow. */
  lemma ArrowParts(want: Option<TypeValue>, s: SimpleType)
    requires s.Arrow? && Met(want, s)
    ensures Met(FirstParameter(want), s.from) && Met(BodyWanted(want), s.to)
  {
    FlattenCurry(s.to);
    var a, b := Flatten(s.from), Flatten(s.to);
    if b.Function? {
      assert ([a] + b.parameters)[1..] == b.parameters;
    }
  }

  lemma {:induction false} CompleteLambda(c: Checked, t: Tables, env: Env, g: Context, parent: Id, e: Expr,
                                          s: SimpleType)
    requires e.Lambda? && Ready(c, t, env, g, parent, e, s) && CasesUnused(e)
    ensures Done(c, e, s)
    decreases e, 0
  {
    var p, b, want := e.parameter, e.body, Wanted(c, parent, e.id);
    var r := Synth(c, e, want);
    AsksPublished(c, parent, e.id, r);
    assert r.asks[0] == (p.id, FirstParameter(want)) && r.asks[1] == (b.id, BodyWanted(want));
    ArrowParts(want, s);
    ParamSettles(c, e.id, p, s.from);
    SuppliedUnder(c, env, g, p.name, p.id, s.from, b);
    Complete(c, t, With(env, p.name, p.id), g + [(p.name, s.from)], e.id, b, s.to);
    NodeSettles(c, parent, e.id, r, s);
  }

  lemma {:induction false} CompleteApply(c: Checked, t: Tables, env: Env, g: Context, parent: Id, e: Expr,
                                         s: SimpleType)
    requires e.Apply? && Ready(c, t, env, g, parent, e, s) && CasesUnused(e)
    ensures Done(c, e, s)
    decreases e, 0
  {
    var f, a := e.function0, e.argument;
    var from := ApplyParts(c, t, env, g, parent, e, s);
    var arrow := SimpleType.Arrow(from, s);
    Complete(c, t, env, g, e.id, f, arrow);
    ArrowParts(Some(Flatten(arrow)), arrow);
    Complete(c, t, env, g, e.id, a, from);
    FlattenCurry(s);
    ApplyUndoesFunction(Flatten(from), Flatten(s));
    NodeSettles(c, parent, e.id, Synth(c, e, Wanted(c, parent, e.id)), s);
  }

  /** The argument is asked for what the function takes. */
  lemma ApplyParts(c: Checked, t: Tables, env: Env, g: Context, parent: Id, e: Expr, s: SimpleType)
    returns (from: SimpleType)
    requires e.Apply? && Ready(c, t, env, g, parent, e, s)
    ensures Ready(c, t, env, g, e.id, e.function0, SimpleType.Arrow(from, s))
    ensures HasType(g, e.argument, from) && Wanted(c, e.id, e.argument.id) == FirstParameter(TypeOf(c, e.function0.id))
  {
    var f, a := e.function0, e.argument;
    var r := Synth(c, e, Wanted(c, parent, e.id));
    AsksPublished(c, parent, e.id, r);
    assert r.asks[0] == (f.id, None) && r.asks[1] == (a.id, FirstParameter(TypeOf(c, f.id)));
    from :| HasType(g, f, SimpleType.Arrow(from, s)) && HasType(g, a, from);
  }

  /** The exact condition for a well-typed term that uses no `let` binder: a fixpoint on it is clean
      iff it uses no `case` binder. */
  lemma WellTypedCleanIff(c: Checked, t: Tables, env: Env, g: Context, parent: Id, e: Expr, s: SimpleType)
    requires Ready(c, t, env, g, parent, e, s)
    ensures Clean(c, e) <==> CasesUnused(e)
    ensures CasesUnused(e) ==> TypeOf(c, e.id) == Some(Flatten(s))
  {
    if Clean(c, e) { CaseBindersUnused(c, t, env, parent, e); }
    if CasesUnused(e) { Complete(c, t, env, g, parent, e, s); }
  }

  // ------------------------------------------------------------------ a term that is never accepted

  /** `case 0 of 0 => 0 | succ n => n` */
  function GoodCase(): Expr {
    Case(10, Number(11), Number(12), Some("n"), Variable(13, Some("n")))
  }

  /** No fixpoint on this term is clean, although the term has type Nat. */
  lemma CaseRejected(c: Checked, t: Tables, env: Env, parent: Id)
    requires AllFlat(c) && ExprChecked(c, t, parent, GoodCase()) && ResolvesLexically(t, GoodCase(), env)
    ensures HasType([], GoodCase(), SNat) && !Clean(c, GoodCase())
  {
    var e := GoodCase();
    var g: Context := [];
    AssignedWith(g, e.binder, SNat, "n");
    assert HasType(g + [(e.binder, SNat)], e.successor, SNat);
    assert !CasesUnused(e) by { assert Free(e.successor, "n"); }
    if Clean(c, e) { CaseBindersUnused(c, t, env, parent, e); }
  }

  /** A fixpoint on it exists. */
  lemma CaseFixpoint() returns (c: Checked, t: Tables)
    ensures ExprFixed(t, GoodCase()) && Get(t.incoming, 10) == Some(1)
    ensures AllFlat(c) && ExprChecked(c, t, 1, GoodCase()) && ResolvesLexically(t, GoodCase(), [])
  {
    var e := GoodCase();
    t := Tables(map[10 := 1, 11 := 1, 12 := 1, 13 := 10], map[10 := 10], map[10 := 1], map[10 := "n"]);
    c := Checked(map[10 := None, 11 := Some(Nat), 12 := Some(Nat), 13 := None], map[(10, 11) := Nat], map[],
      map[10 := [], 11 := [], 12 := [], 13 := []], map[13 := Resolved(10)]);
    assert Resolve(t, 10, "n") == Resolved(10);
    NearestUnder([], e.binder, 10, "n");
    assert AllFlat(c);
    assert Publishes(c, 10, 11, Synth(c, e.scrutinee, Some(Nat)));
    assert Publishes(c, 10, 12, Synth(c, e.zero, None));
    assert Publishes(c, 10, 13, Synth(c, e.successor, None));
    assert Publishes(c, 1, 10, Synth(c, e, None));
  }
}
