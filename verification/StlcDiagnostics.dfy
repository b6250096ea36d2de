/** What the checker reports: exactly which node carries which diagnostic, and what their absence means. */
module StlcDiagnostics {
  import opened Wrappers
  import opened StlcSyntax
  import opened StlcNames
  import opened StlcTypes
  import opened StlcTyping
  import opened StlcCheck
  import opened StlcComplete

  predicate Carries(c: Checked, id: Id, error: TypeError) {
    id in c.diagnostics && error in c.diagnostics[id]
  }

  // ------------------------------------------------------------------ one node

  /** Some enclosing binder has this name. */
  ghost predicate Bound(env: Env, x: string) {
    exists i :: 0 <= i < |env| && env[i].name == Some(x)
  }

  lemma {:induction false} NearestBound(env: Env, x: string)
    ensures Nearest(env, x).Resolved? <==> Bound(env, x)
    ensures !Bound(env, x) ==> Nearest(env, x) == Unbound(x)
  {
    if env != [] {
      var n := |env| - 1;
      NearestBound(env[..n], x);
      if Bound(env[..n], x) {
        var i :| 0 <= i < n && env[..n][i].name == Some(x);
        assert env[i].name == Some(x);
      }
      if Bound(env, x) && env[n].name != Some(x) {
        var i :| 0 <= i < |env| && env[i].name == Some(x);
        assert env[..n][i].name == Some(x);
      }
    }
  }

  /** A known type other than the one asked for. */
  predicate Clashes(c: Checked, parent: Id, id: Id, wanted: TypeValue, found: TypeValue) {
    Wanted(c, parent, id) == Some(wanted) && TypeOf(c, id) == Some(found) && wanted != found
  }

  predicate BranchesClash(c: Checked, x: Id, y: Id, a: TypeValue, b: TypeValue) {
    TypeOf(c, x) == Some(a) && TypeOf(c, y) == Some(b) && a != b
  }

  /** The diagnostics an expression deserves. */
  ghost predicate Deserves(c: Checked, env: Env, parent: Id, e: Expr, error: TypeError) {
    match error
    case Mismatch(wanted, found) => Clashes(c, parent, e.id, wanted, found)
    case NonFunctionApplication(found) =>
      e.Apply? && TypeOf(c, e.function0.id) == Some(found) && !found.Function?
    case BranchMismatch(a, b) =>
      || (e.If? && BranchesClash(c, e.whenTrue.id, e.whenFalse.id, a, b))
      || (e.Case? && BranchesClash(c, e.zero.id, e.successor.id, a, b))
    case UnboundVariable(name) => e.Variable? && e.text == Some(name) && !Bound(env, name)
    case MissingParameterAnnotation => false
  }

  /** A published node carries what its component found, and a clash with what was asked. */
  lemma NodeCarries(c: Checked, parent: Id, id: Id, r: Effects, error: TypeError)
    requires Publishes(c, parent, id, r)
    ensures Carries(c, id, error) <==>
      error in r.errors || (error.Mismatch? && Clashes(c, parent, id, error.wanted, error.found))
  {
    var want := Wanted(c, parent, id);
    var f := Finish(r, want);
    assert f.value == r.value == TypeOf(c, id);
    if want.Some? && r.value.Some? && want != r.value {
      assert f.errors == r.errors + [Mismatch(want.value, r.value.value)];
      assert f.errors[|r.errors|] == Mismatch(want.value, r.value.value);
    }
  }

  lemma VariableReported(c: Checked, t: Tables, env: Env, parent: Id, e: Expr, error: TypeError)
    requires e.Variable? && e.text.Some?
    requires AllFlat(c) && ExprChecked(c, t, parent, e) && ResolvesLexically(t, e, env)
    ensures error in Synth(c, e, Wanted(c, parent, e.id)).errors <==>
      !error.Mismatch? && Deserves(c, env, parent, e, error)
  {
    NearestBound(env, e.text.value);
  }

  lemma OtherReported(c: Checked, env: Env, parent: Id, e: Expr, want: Option<TypeValue>, error: TypeError)
    requires !e.Variable? && AllFlat(c)
    ensures error in Synth(c, e, want).errors <==> !error.Mismatch? && Deserves(c, env, parent, e, error)
  {
  }

  /** In every fixpoint an expression carries exactly the diagnostics it deserves. */
  lemma ReportsExactly(c: Checked, t: Tables, env: Env, parent: Id, e: Expr, error: TypeError)
    requires AllFlat(c) && ExprChecked(c, t, parent, e) && ResolvesLexically(t, e, env)
    requires e.Variable? ==> e.text.Some?
    ensures Carries(c, e.id, error) <==> Deserves(c, env, parent, e, error)
  {
    NodeCarries(c, parent, e.id, Synth(c, e, Wanted(c, parent, e.id)), error);
    if e.Variable? {
      VariableReported(c, t, env, parent, e, error);
    } else {
      OtherReported(c, env, parent, e, Wanted(c, parent, e.id), error);
    }
  }

  /** A parameter carries a missing annotation iff it has none, and otherwise only clashes. */
  lemma ParamReports(c: Checked, parent: Id, p: Param, error: TypeError)
    requires ParamChecked(c, parent, p)
    ensures Carries(c, p.id, error) <==>
      || (error.MissingParameterAnnotation? && p.annotation.None?)
      || (error.Mismatch? && Clashes(c, parent, p.id, error.wanted, error.found))
  {
    NodeCarries(c, parent, p.id, SynthParam(c, p), error);
  }

  /** A variable whose token is missing and that has a scope is reported under the empty name. */
  lemma NamelessReports(c: Checked, t: Tables, parent: Id, e: Expr)
    requires AllFlat(c) && ExprChecked(c, t, parent, e) && e.Variable? && e.text.None?
    ensures Carries(c, e.id, UnboundVariable("")) <==> e.id in t.incoming
  {
    NodeCarries(c, parent, e.id, Synth(c, e, Wanted(c, parent, e.id)), UnboundVariable(""));
  }

  /** The function type built over the body is not the annotated type. */
  predicate AnnotationClashes(c: Checked, d: Declaration, wanted: TypeValue, found: TypeValue)
    requires d.Value?
  {
    && AnnotationOf(c, d) == Some(wanted) && wanted != found
    && Abstracted(c, d.parameters, TypeOf(c, d.body.id)) == Some(found)
  }

  /** A declaration carries a mismatch with its annotation, or with what was asked of it, and nothing
      else. */
  lemma DeclarationReports(c: Checked, t: Tables, doc: Id, d: Declaration, error: TypeError)
    requires AllFlat(c) && d.Value? && DeclarationChecked(c, t, doc, d)
    ensures Carries(c, d.id, error) <==>
      error.Mismatch? && (AnnotationClashes(c, d, error.wanted, error.found)
                          || Clashes(c, doc, d.id, error.wanted, error.found))
  {
    NodeCarries(c, doc, d.id, SynthDeclaration(c, d), error);
  }

  // ------------------------------------------------------------------ terms without diagnostics

  ghost predicate Mute(c: Checked, id: Id) {
    forall error :: !Carries(c, id, error)
  }

  ghost predicate QuietType(c: Checked, t: TypeExpr)
    decreases t
  {
    && Mute(c, t.id)
    && match t
       case Arrow(_, l, r) => QuietType(c, l) && QuietType(c, r)
       case Simple(_, atom) => QuietAtom(c, atom)
       case ErrorType(_) => true
  }

  ghost predicate QuietAtom(c: Checked, a: TypeAtom)
    decreases a
  {
    Mute(c, a.id) && (a.Parens? ==> QuietType(c, a.inner))
  }

  ghost predicate QuietParam(c: Checked, p: Param) {
    Mute(c, p.id) && (p.annotation.Some? ==> QuietType(c, p.annotation.value))
  }

  /** No node of the term carries a diagnostic. */
  ghost predicate Quiet(c: Checked, e: Expr)
    decreases e
  {
    && Mute(c, e.id)
    && match e
       case If(_, b, x, y) => Quiet(c, b) && Quiet(c, x) && Quiet(c, y)
       case Case(_, s, z, _, n) => Quiet(c, s) && Quiet(c, z) && Quiet(c, n)
       case Let(_, _, v, b) => Quiet(c, v) && Quiet(c, b)
       case Lambda(_, p, b) => QuietParam(c, p) && Quiet(c, b)
       case Add(_, l, r) => Quiet(c, l) && Quiet(c, r)
       case Apply(_, f, a) => Quiet(c, f) && Quiet(c, a)
       case Succ(_, v) => Quiet(c, v)
       case Group(_, v) => Quiet(c, v)
       case _ => true
  }

  predicate WholeType(t: TypeExpr)
    decreases t
  {
    match t
    case Arrow(_, l, r) => WholeType(l) && WholeType(r)
    case Simple(_, atom) => atom.Parens? ==> WholeType(atom.inner)
    case ErrorType(_) => false
  }

  predicate WholeParam(p: Param) {
    p.annotation.Some? ==> WholeType(p.annotation.value)
  }

  /** No error node, and no variable without a name. */
  predicate Whole(e: Expr) {
    match e
    case If(_, b, x, y) => Whole(b) && Whole(x) && Whole(y)
    case Case(_, s, z, _, n) => Whole(s) && Whole(z) && Whole(n)
    case Let(_, _, v, b) => Whole(v) && Whole(b)
    case Lambda(_, p, b) => WholeParam(p) && Whole(b)
    case Add(_, l, r) => Whole(l) && Whole(r)
    case Apply(_, f, a) => Whole(f) && Whole(a)
    case Succ(_, v) => Whole(v)
    case Group(_, v) => Whole(v)
    case Variable(_, text) => text.Some?
    case ErrorExpr(_) => false
    case _ => true
  }

  lemma MuteSilent(c: Checked, parent: Id, id: Id, r: Effects)
    requires Publishes(c, parent, id, r) && Mute(c, id)
    ensures Get(c.diagnostics, id) == Some([]) && r.errors == [] && r.value == TypeOf(c, id)
  {
    var f := Finish(r, Wanted(c, parent, id));
    if f.errors != [] { assert Carries(c, id, f.errors[0]); }
  }

  lemma {:induction false} WholeTypeKnown(c: Checked, parent: Id, t: TypeExpr)
    requires TypeChecked(c, parent, t) && WholeType(t)
    ensures TypeOf(c, t.id).Some?
    decreases t
  {
    match t
    case Arrow(id, l, r) =>
      WholeTypeKnown(c, id, l);
      WholeTypeKnown(c, id, r);
    case Simple(id, atom) => if atom.Parens? { WholeTypeKnown(c, atom.id, atom.inner); }
  }

  lemma {:induction false} QuietTypeClean(c: Checked, parent: Id, t: TypeExpr)
    requires TypeChecked(c, parent, t) && WholeType(t) && QuietType(c, t)
    ensures CleanType(c, t)
    decreases t
  {
    WholeTypeKnown(c, parent, t);
    MuteSilent(c, parent, t.id, SynthType(c, t));
    match t
    case Arrow(id, l, r) =>
      QuietTypeClean(c, id, l);
      QuietTypeClean(c, id, r);
    case Simple(id, atom) =>
      MuteSilent(c, id, atom.id, SynthAtom(c, atom));
      if atom.Parens? {
        QuietTypeClean(c, atom.id, atom.inner);
        WholeTypeKnown(c, atom.id, atom.inner);
      }
  }

  lemma QuietParamClean(c: Checked, parent: Id, p: Param)
    requires ParamChecked(c, parent, p) && WholeParam(p) && QuietParam(c, p)
    ensures CleanParam(c, p) && Defined(c, p.id).Some?
  {
    var r := SynthParam(c, p);
    MuteSilent(c, parent, p.id, r);
    if p.annotation.Some? {
      WholeTypeKnown(c, p.id, p.annotation.value);
      QuietTypeClean(c, p.id, p.annotation.value);
    }
  }

  /** Every bound name that the term uses has a binder of known type. */
  ghost predicate BindersKnown(c: Checked, env: Env, e: Expr) {
    forall x: string :: Free(e, x) && Nearest(env, x).Resolved? ==> BinderKnown(c, env, x)
  }

  lemma BindersUnder(c: Checked, env: Env, name: Name, binder: Id, body: Expr)
    requires forall x: string :: Free(body, x) && name != Some(x) && Nearest(env, x).Resolved? ==>
      BinderKnown(c, env, x)
    requires UnusedIn(name, body) || Defined(c, binder).Some?
    ensures BindersKnown(c, With(env, name, binder), body)
  {
    forall x: string | Free(body, x) && Nearest(With(env, name, binder), x).Resolved?
      ensures BinderKnown(c, With(env, name, binder), x)
    {
      NearestUnder(env, name, binder, x);
    }
  }

  /** Every `let` that uses its binder has published a type for it. */
  ghost predicate LetsKnown(c: Checked, e: Expr) {
    match e
    case If(_, b, x, y) => LetsKnown(c, b) && LetsKnown(c, x) && LetsKnown(c, y)
    case Case(_, s, z, _, n) => LetsKnown(c, s) && LetsKnown(c, z) && LetsKnown(c, n)
    case Let(id, name, v, b) => (UnusedIn(name, b) || Defined(c, id).Some?) && LetsKnown(c, v) && LetsKnown(c, b)
    case Lambda(_, _, b) => LetsKnown(c, b)
    case Add(_, l, r) => LetsKnown(c, l) && LetsKnown(c, r)
    case Apply(_, f, a) => LetsKnown(c, f) && LetsKnown(c, a)
    case Succ(_, v) => LetsKnown(c, v)
    case Group(_, v) => LetsKnown(c, v)
    case _ => true
  }

  /** Every binder a term uses has a published type: those around it, and its own. */
  ghost predicate NamesKnown(c: Checked, env: Env, e: Expr) {
    BindersKnown(c, env, e) && CasesUnused(e) && LetsKnown(c, e)
  }

  /** A fixpoint around a term without error nodes. */
  ghost predicate Around(c: Checked, t: Tables, env: Env, parent: Id, e: Expr) {
    AllFlat(c) && ExprChecked(c, t, parent, e) && ResolvesLexically(t, e, env) && Whole(e)
  }

  /** A fixpoint around a term that uses only names with published types. */
  ghost predicate Plain(c: Checked, t: Tables, env: Env, parent: Id, e: Expr) {
    Around(c, t, env, parent, e) && NamesKnown(c, env, e)
  }

  /** In such a fixpoint, a term without diagnostics is known everywhere. */
  lemma {:induction false} QuietClean(c: Checked, t: Tables, env: Env, parent: Id, e: Expr)
    requires Plain(c, t, env, parent, e) && Quiet(c, e)
    ensures Clean(c, e)
    decreases e, 1
  {
    MuteSilent(c, parent, e.id, Synth(c, e, Wanted(c, parent, e.id)));
    match e
    case Variable(_, _) => QuietVariable(c, t, env, parent, e);
    case If(_, _, _, _) => QuietIf(c, t, env, parent, e);
    case Case(_, _, _, _, _) => QuietCase(c, t, env, parent, e);
    case Let(_, _, _, _) => QuietLet(c, t, env, parent, e);
    case Lambda(_, _, _) => QuietLambda(c, t, env, parent, e);
    case Add(id, l, r) =>
      QuietClean(c, t, env, id, l);
      QuietClean(c, t, env, id, r);
    case Apply(id, f, a) =>
      QuietClean(c, t, env, id, f);
      QuietClean(c, t, env, id, a);
      QuietApply(c, t, parent, e);
    case Succ(id, v) => QuietClean(c, t, env, id, v);
    case Group(id, v) => QuietClean(c, t, env, id, v);
    case _ =>
  }

  lemma {:induction false} QuietIf(c: Checked, t: Tables, env: Env, parent: Id, e: Expr)
    requires e.If? && Plain(c, t, env, parent, e) && Quiet(c, e)
    ensures Clean(c, e)
    decreases e, 0
  {
    QuietClean(c, t, env, e.id, e.condition);
    QuietClean(c, t, env, e.id, e.whenTrue);
    QuietClean(c, t, env, e.id, e.whenFalse);
    QuietBranches(c, t, env, parent, e, e.whenTrue.id, e.whenFalse.id);
  }

  lemma {:induction false} QuietCase(c: Checked, t: Tables, env: Env, parent: Id, e: Expr)
    requires e.Case? && Plain(c, t, env, parent, e) && Quiet(c, e)
    ensures Clean(c, e)
    decreases e, 0
  {
    QuietClean(c, t, env, e.id, e.scrutinee);
    QuietClean(c, t, env, e.id, e.zero);
    BindersUnder(c, env, e.binder, e.id, e.successor);
    QuietClean(c, t, With(env, e.binder, e.id), e.id, e.successor);
    QuietBranches(c, t, env, parent, e, e.zero.id, e.successor.id);
  }

  lemma {:induction false} QuietLet(c: Checked, t: Tables, env: Env, parent: Id, e: Expr)
    requires e.Let? && Plain(c, t, env, parent, e) && Quiet(c, e)
    ensures Clean(c, e)
    decreases e, 0
  {
    MuteSilent(c, parent, e.id, Synth(c, e, Wanted(c, parent, e.id)));
    QuietClean(c, t, env, e.id, e.value);
    BindersUnder(c, env, e.name, e.id, e.body);
    QuietClean(c, t, With(env, e.name, e.id), e.id, e.body);
  }

  lemma {:induction false} QuietLambda(c: Checked, t: Tables, env: Env, parent: Id, e: Expr)
    requires e.Lambda? && Plain(c, t, env, parent, e) && Quiet(c, e)
    ensures Clean(c, e)
    decreases e, 0
  {
    var p := e.parameter;
    MuteSilent(c, parent, e.id, Synth(c, e, Wanted(c, parent, e.id)));
    QuietParamClean(c, e.id, p);
    BindersUnder(c, env, p.name, p.id, e.body);
    QuietClean(c, t, With(env, p.name, p.id), e.id, e.body);
  }

  lemma QuietVariable(c: Checked, t: Tables, env: Env, parent: Id, e: Expr)
    requires e.Variable? && Plain(c, t, env, parent, e) && Mute(c, e.id)
    ensures Clean(c, e)
  {
    var x := e.text.value;
    MuteSilent(c, parent, e.id, Synth(c, e, Wanted(c, parent, e.id)));
    NearestBound(env, x);
    assert Free(e, x);
  }

  lemma QuietBranches(c: Checked, t: Tables, env: Env, parent: Id, e: Expr, x: Id, y: Id)
    requires (e.If? && x == e.whenTrue.id && y == e.whenFalse.id) || (e.Case? && x == e.zero.id && y == e.successor.id)
    requires AllFlat(c) && ExprChecked(c, t, parent, e) && Mute(c, e.id)
    requires TypeOf(c, x).Some? && TypeOf(c, y).Some?
    ensures Silent(c, e.id)
  {
    var r := Synth(c, e, Wanted(c, parent, e.id));
    MuteSilent(c, parent, e.id, r);
  }

  lemma QuietApply(c: Checked, t: Tables, parent: Id, e: Expr)
    requires e.Apply? && AllFlat(c) && ExprChecked(c, t, parent, e) && Mute(c, e.id)
    requires TypeOf(c, e.function0.id).Some?
    ensures Silent(c, e.id)
  {
    var r := Synth(c, e, Wanted(c, parent, e.id));
    MuteSilent(c, parent, e.id, r);
  }

  // ------------------------------------------------------------------ clean terms are quiet

  lemma SilentMute(c: Checked, id: Id)
    requires Silent(c, id)
    ensures Mute(c, id)
  {
  }

  lemma {:induction false} CleanTypeQuiet(c: Checked, t: TypeExpr)
    requires CleanType(c, t)
    ensures QuietType(c, t)
    decreases t
  {
    match t
    case Arrow(_, l, r) =>
      CleanTypeQuiet(c, l);
      CleanTypeQuiet(c, r);
    case Simple(_, atom) => if atom.Parens? { CleanTypeQuiet(c, atom.inner); }
    case ErrorType(_) =>
  }

  lemma {:induction false} CleanQuiet(c: Checked, e: Expr)
    requires Clean(c, e)
    ensures Quiet(c, e)
  {
    SilentMute(c, e.id);
    match e
    case If(_, b, x, y) =>
      CleanQuiet(c, b);
      CleanQuiet(c, x);
      CleanQuiet(c, y);
    case Case(_, s, z, _, n) =>
      CleanQuiet(c, s);
      CleanQuiet(c, z);
      CleanQuiet(c, n);
    case Let(_, _, v, b) =>
      CleanQuiet(c, v);
      CleanQuiet(c, b);
    case Lambda(_, p, b) =>
      if p.annotation.Some? { CleanTypeQuiet(c, p.annotation.value); }
      CleanQuiet(c, b);
    case Add(_, l, r) =>
      CleanQuiet(c, l);
      CleanQuiet(c, r);
    case Apply(_, f, a) =>
      CleanQuiet(c, f);
      CleanQuiet(c, a);
    case Succ(_, v) => CleanQuiet(c, v);
    case Group(_, v) => CleanQuiet(c, v);
    case _ =>
  }

  lemma {:induction false} CleanLetsKnown(c: Checked, t: Tables, parent: Id, e: Expr)
    requires AllFlat(c) && ExprChecked(c, t, parent, e) && Clean(c, e)
    ensures LetsKnown(c, e)
    decreases e
  {
    match e
    case If(id, b, x, y) =>
      CleanLetsKnown(c, t, id, b);
      CleanLetsKnown(c, t, id, x);
      CleanLetsKnown(c, t, id, y);
    case Case(id, s, z, _, n) =>
      CleanLetsKnown(c, t, id, s);
      CleanLetsKnown(c, t, id, z);
      CleanLetsKnown(c, t, id, n);
    case Let(id, _, v, b) =>
      CleanLetsKnown(c, t, id, v);
      CleanLetsKnown(c, t, id, b);
    case Lambda(id, _, b) => CleanLetsKnown(c, t, id, b);
    case Add(id, l, r) =>
      CleanLetsKnown(c, t, id, l);
      CleanLetsKnown(c, t, id, r);
    case Apply(id, f, a) =>
      CleanLetsKnown(c, t, id, f);
      CleanLetsKnown(c, t, id, a);
    case Succ(id, v) => CleanLetsKnown(c, t, id, v);
    case Group(id, v) => CleanLetsKnown(c, t, id, v);
    case _ =>
  }

  lemma CleanNamesKnown(c: Checked, t: Tables, env: Env, parent: Id, e: Expr)
    requires CleanHere(c, t, env, parent, e)
    ensures NamesKnown(c, env, e)
  {
    forall x: string | Free(e, x) && Nearest(env, x).Resolved? ensures BinderKnown(c, env, x) {
      FreeKnown(c, t, env, parent, e, x);
    }
    CaseBindersUnused(c, t, env, parent, e);
    CleanLetsKnown(c, t, parent, e);
  }

  /** In a fixpoint around a term without error nodes, the term is clean iff no node of it carries a
      diagnostic and every binder it uses has a published type. */
  lemma CleanIffQuiet(c: Checked, t: Tables, env: Env, parent: Id, e: Expr)
    requires Around(c, t, env, parent, e)
    ensures Clean(c, e) <==> Quiet(c, e) && NamesKnown(c, env, e)
  {
    if Clean(c, e) {
      CleanQuiet(c, e);
      CleanNamesKnown(c, t, env, parent, e);
    }
    if Quiet(c, e) && NamesKnown(c, env, e) { QuietClean(c, t, env, parent, e); }
  }

  // ------------------------------------------------------------------ diagnosed iff ill-typed

  /** A well-typed term uses only names of its context. */
  lemma {:induction false} TypedAssigned(g: Context, e: Expr, s: SimpleType, x: string)
    requires HasType(g, e, s) && Free(e, x)
    ensures Assigned(g, x).Some?
    decreases e
  {
    match e
    case Variable(_, _) =>
    case Group(_, v) => TypedAssigned(g, v, s, x);
    case Succ(_, v) => TypedAssigned(g, v, SNat, x);
    case Add(_, l, r) => if Free(l, x) { TypedAssigned(g, l, SNat, x); } else { TypedAssigned(g, r, SNat, x); }
    case If(_, b, y, z) =>
      if Free(b, x) { TypedAssigned(g, b, SBool, x); }
      else if Free(y, x) { TypedAssigned(g, y, s, x); }
      else { TypedAssigned(g, z, s, x); }
    case Case(_, n, z, binder, m) =>
      if Free(n, x) { TypedAssigned(g, n, SNat, x); }
      else if Free(z, x) { TypedAssigned(g, z, s, x); }
      else {
        TypedAssigned(g + [(binder, SNat)], m, s, x);
        AssignedWith(g, binder, SNat, x);
      }
    case Lambda(_, p, b) =>
      TypedAssigned(g + [(p.name, s.from)], b, s.to, x);
      AssignedWith(g, p.name, s.from, x);
    case Apply(_, f, a) =>
      var from :| HasType(g, f, SimpleType.Arrow(from, s)) && HasType(g, a, from);
      if Free(f, x) { TypedAssigned(g, f, SimpleType.Arrow(from, s), x); } else { TypedAssigned(g, a, from, x); }
    case Let(_, name, v, b) =>
      var bound :| HasType(g, v, bound) && HasType(g + [(name, bound)], b, s);
      if Free(v, x) { TypedAssigned(g, v, bound, x); }
      else {
        TypedAssigned(g + [(name, bound)], b, s, x);
        AssignedWith(g, name, bound, x);
      }
    case _ =>
  }

  lemma {:induction false} AssignedBound(c: Checked, env: Env, g: Context, x: string)
    requires Agrees(c, env, g)
    ensures Assigned(g, x).Some? <==> Nearest(env, x).Resolved?
  {
    if env != [] {
      var n := |env| - 1;
      assert AgreesAt(c, env[n], g[n]);
      forall i | 0 <= i < n ensures AgreesAt(c, env[..n][i], g[..n][i]) {
        assert AgreesAt(c, env[i], g[i]);
      }
      AssignedBound(c, env[..n], g[..n], x);
    }
  }

  lemma KnownSupplied(c: Checked, env: Env, g: Context, e: Expr, s: SimpleType)
    requires AllFlat(c) && Agrees(c, env, g) && BindersKnown(c, env, e) && HasType(g, e, s)
    ensures Supplied(c, env, g, e)
  {
    forall x: string | Free(e, x) ensures SuppliedAt(c, env, g, x) {
      TypedAssigned(g, e, s, x);
      AssignedBound(c, env, g, x);
      NearestAssigned(c, env, g, x);
      var binder := Nearest(env, x).declaration;
      assert binder in c.definitions && Flat(c.definitions[binder].value);
      CurryFlatten(Defined(c, binder).value);
    }
  }

  /** Some type of the term meets what is asked of it. */
  ghost predicate TypedAsAsked(c: Checked, g: Context, parent: Id, e: Expr) {
    exists s :: HasType(g, e, s) && Met(Wanted(c, parent, e.id), s)
  }

  /** A term that uses no `case` or `let` binder, around which every bound name has a published type,
      carries a diagnostic somewhere iff it has no type that meets what is asked of it. */
  lemma DiagnosedIffIllTyped(c: Checked, t: Tables, env: Env, g: Context, parent: Id, e: Expr)
    requires Plain(c, t, env, parent, e) && LetsUnused(e) && Agrees(c, env, g) && TypesUnasked(c, e)
    ensures Quiet(c, e) <==> TypedAsAsked(c, g, parent, e)
  {
    if Quiet(c, e) {
      QuietClean(c, t, env, parent, e);
      QuietTyped(c, t, env, g, parent, e);
    }
    if TypedAsAsked(c, g, parent, e) {
      var s :| HasType(g, e, s) && Met(Wanted(c, parent, e.id), s);
      KnownSupplied(c, env, g, e, s);
      Complete(c, t, env, g, parent, e, s);
      CleanQuiet(c, e);
    }
  }

  lemma QuietTyped(c: Checked, t: Tables, env: Env, g: Context, parent: Id, e: Expr)
    requires Plain(c, t, env, parent, e) && LetsUnused(e) && Agrees(c, env, g) && Clean(c, e)
    ensures TypedAsAsked(c, g, parent, e)
  {
    UnusedLetsSound(c, t, env, g, parent, e);
    SilentNode(c, parent, e.id, Synth(c, e, Wanted(c, parent, e.id)));
    KnownFlat(c, e.id);
    CurryFlatten(TypeOf(c, e.id).value);
    assert Met(Wanted(c, parent, e.id), Curry(TypeOf(c, e.id).value));
  }

  // ------------------------------------------------------------------ silence without a type

  /** `let x = 1 in x` */
  function SelfLet(): Expr {
    Let(10, Some("x"), Number(11), Variable(12, Some("x")))
  }

  lemma SelfLetTyped()
    ensures HasType([], SelfLet(), SNat)
  {
    var e := SelfLet();
    var g: Context := [];
    AssignedWith(g, e.name, SNat, "x");
    assert HasType(g, e.value, SNat) && HasType(g + [(e.name, SNat)], e.body, SNat);
  }

  function SelfTables(): Tables {
    Tables(map[10 := 1, 11 := 1, 12 := 10], map[10 := 10], map[10 := 1], map[10 := "x"])
  }

  function SelfChecked(): Checked {
    Checked(map[10 := None, 11 := Some(Nat), 12 := None], map[], map[10 := None],
      map[10 := [], 11 := [], 12 := []], map[12 := Resolved(10)])
  }

  /** The tables are a fixpoint of the naming equations of this term, */
  lemma SelfLetNamed()
    ensures ExprFixed(SelfTables(), SelfLet()) && ResolvesLexically(SelfTables(), SelfLet(), [])
  {
    assert Resolve(SelfTables(), 10, "x") == Resolved(10);
    NearestUnder([], SelfLet().name, 10, "x");
  }

  /** and of the checking equations. */
  lemma SelfLetChecked()
    ensures AllFlat(SelfChecked()) && ExprChecked(SelfChecked(), SelfTables(), 1, SelfLet())
  {
    var c, e := SelfChecked(), SelfLet();
    assert AllFlat(c);
    assert Resolve(SelfTables(), 10, "x") == Resolved(10);
    assert Publishes(c, 10, 11, Synth(c, e.value, None));
    assert Publishes(c, 10, 12, Synth(c, e.body, None));
    assert Publishes(c, 1, 10, Synth(c, e, None));
  }

  /** The binders matter: the term has type Nat, yet in this fixpoint it carries no diagnostic and has
      no type. */
  lemma LetStaysUnknown()
    ensures HasType([], SelfLet(), SNat) && Whole(SelfLet())
    ensures Quiet(SelfChecked(), SelfLet()) && TypeOf(SelfChecked(), SelfLet().id) == None
  {
    SelfLetTyped();
  }
}
