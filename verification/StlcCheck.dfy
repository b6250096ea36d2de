/** Type synthesis by local equations, one per syntax node, and its soundness. */
module StlcCheck {
  import opened Wrappers
  import opened StlcSyntax
  import opened StlcNames
  import opened StlcTypes
  import opened StlcTyping

  datatype TypeError =
    | Mismatch(wanted: TypeValue, found: TypeValue)
    | NonFunctionApplication(found: TypeValue)
    | BranchMismatch(thenType: TypeValue, elseType: TypeValue)
    | UnboundVariable(name: string)
    | MissingParameterAnnotation

  /** What the checking components have published.  A synthesized or definition entry of `None` is
      `Unknown`. */
  datatype Checked = Checked(synthesized: map<Id, Option<TypeValue>>, wanted: map<(Id, Id), TypeValue>,
                             definitions: map<Scope, Option<TypeValue>>, diagnostics: map<Id, seq<TypeError>>,
                             references: map<Id, Resolution>)

  /** `child_type` */
  function TypeOf(c: Checked, id: Id): Option<TypeValue> {
    if id in c.synthesized then c.synthesized[id] else None
  }

  /** `expected`: what the parent asked for. */
  function Wanted(c: Checked, parent: Id, id: Id): Option<TypeValue> {
    if (parent, id) in c.wanted then Some(c.wanted[(parent, id)]) else None
  }

  function Defined(c: Checked, scope: Scope): Option<TypeValue> {
    if scope in c.definitions then c.definitions[scope] else None
  }

  /** What one component publishes: its type, what it asks of its children, and its errors. */
  datatype Effects = Effects(value: Option<TypeValue>, asks: seq<(Id, Option<TypeValue>)>, errors: seq<TypeError>)

  // ------------------------------------------------------------------ synthesis of one node

  function Branches(a: Option<TypeValue>, b: Option<TypeValue>, asks: seq<(Id, Option<TypeValue>)>): Effects {
    if a.Some? && b.Some? then
      if a == b then Effects(a, asks, []) else Effects(None, asks, [BranchMismatch(a.value, b.value)])
    else Effects(None, asks, [])
  }

  function FirstParameter(t: Option<TypeValue>): Option<TypeValue> {
    if t.Some? && t.value.Function? && t.value.parameters != [] then Some(t.value.parameters[0]) else None
  }

  function BodyWanted(t: Option<TypeValue>): Option<TypeValue> {
    if t.Some? && t.value.Function? then
      if |t.value.parameters| <= 1 then Some(t.value.result)
      else Some(MakeFunction(t.value.parameters[1..], t.value.result))
    else None
  }

  /** `synth_expr` before `finish`. */
  function Synth(c: Checked, e: Expr, want: Option<TypeValue>): Effects
    requires AllFlat(c)
  {
    match e
    case True(_) => Effects(Some(Bool), [], [])
    case False(_) => Effects(Some(Bool), [], [])
    case Number(_) => Effects(Some(Nat), [], [])
    case UnitValue(_) => Effects(Some(Unit), [], [])
    case Group(_, v) => Effects(TypeOf(c, v.id), [(v.id, want)], [])
    case Succ(_, v) => Effects(Some(Nat), [(v.id, Some(Nat))], [])
    case Add(_, l, r) => Effects(Some(Nat), [(l.id, Some(Nat)), (r.id, Some(Nat))], [])
    case If(_, b, t, f) =>
      Branches(TypeOf(c, t.id), TypeOf(c, f.id), [(b.id, Some(Bool)), (t.id, want), (f.id, want)])
    case Case(_, s, z, _, n) =>
      Branches(TypeOf(c, z.id), TypeOf(c, n.id), [(s.id, Some(Nat)), (z.id, want), (n.id, want)])
    case Lambda(_, p, b) =>
      Effects(
        if TypeOf(c, p.id).Some? && TypeOf(c, b.id).Some?
        then Some(MakeFunction([TypeOf(c, p.id).value], TypeOf(c, b.id).value))
        else None,
        [(p.id, FirstParameter(want)), (b.id, BodyWanted(want))], [])
    case Apply(_, f, a) =>
      var ft := TypeOf(c, f.id);
      var asks := [(f.id, None), (a.id, FirstParameter(ft))];
      if ft.None? then Effects(None, asks, [])
      else if !ft.value.Function? then Effects(None, asks, [NonFunctionApplication(ft.value)])
      else
        KnownFlat(c, f.id);
        Effects(ApplyOne(ft.value), asks, [])
    case Let(_, _, v, b) => Effects(TypeOf(c, b.id), [(v.id, None), (b.id, want)], [])
    case Variable(id, _) =>
      if id !in c.references then Effects(None, [], [])
      else if c.references[id].Resolved? then Effects(Defined(c, c.references[id].declaration), [], [])
      else Effects(None, [], [UnboundVariable(c.references[id].name)])
    case ErrorExpr(_) => Effects(None, [], [])
  }

  /** `finish`: a known type other than the wanted one is an error. */
  function Finish(r: Effects, want: Option<TypeValue>): Effects {
    if want.Some? && r.value.Some? && want != r.value
    then r.(errors := r.errors + [Mismatch(want.value, r.value.value)])
    else r
  }

  /** `synth_expr` with `finish`. */
  method SynthExpr(c: Checked, e: Expr, parent: Id) returns (r: Effects)
    requires AllFlat(c)
    ensures r == Finish(Synth(c, e, Wanted(c, parent, e.id)), Wanted(c, parent, e.id))
  {
    var want := Wanted(c, parent, e.id);
    r := SynthNode(c, e, want);
    if want.Some? && r.value.Some? && want.value != r.value.value {
      r := r.(errors := r.errors + [Mismatch(want.value, r.value.value)]);
    }
  }

  /** The match of `synth_expr`, pushing asks and errors one by one. */
  method SynthNode(c: Checked, e: Expr, want: Option<TypeValue>) returns (r: Effects)
    requires AllFlat(c)
    ensures r == Synth(c, e, want)
  {
    var value: Option<TypeValue>, asks: seq<(Id, Option<TypeValue>)>, errors: seq<TypeError> := None, [], [];
    match e {
      case True(_) => value := Some(Bool);
      case False(_) => value := Some(Bool);
      case Number(_) => value := Some(Nat);
      case UnitValue(_) => value := Some(Unit);
      case Group(_, v) =>
        asks := asks + [(v.id, want)];
        value := TypeOf(c, v.id);
      case Succ(_, v) =>
        asks := asks + [(v.id, Some(Nat))];
        value := Some(Nat);
      case Add(_, l, r) =>
        asks := asks + [(l.id, Some(Nat))];
        asks := asks + [(r.id, Some(Nat))];
        value := Some(Nat);
      case If(_, b, t, f) =>
        asks := asks + [(b.id, Some(Bool))];
        asks := asks + [(t.id, want)];
        asks := asks + [(f.id, want)];
        value, errors := SynthBranches(TypeOf(c, t.id), TypeOf(c, f.id));
      case Case(_, s, z, _, n) =>
        asks := asks + [(s.id, Some(Nat))];
        asks := asks + [(z.id, want)];
        asks := asks + [(n.id, want)];
        value, errors := SynthBranches(TypeOf(c, z.id), TypeOf(c, n.id));
      case Lambda(_, p, b) =>
        asks := asks + [(p.id, FirstParameter(want))];
        asks := asks + [(b.id, BodyWanted(want))];
        if TypeOf(c, p.id).Some? && TypeOf(c, b.id).Some? {
          var built := BuildFunction([TypeOf(c, p.id).value], TypeOf(c, b.id).value);
          value := Some(built);
        }
      case Apply(_, f, a) =>
        asks := asks + [(f.id, None)];
        var ft := TypeOf(c, f.id);
        asks := asks + [(a.id, FirstParameter(ft))];
        if ft.Some? {
          if FunctionParts(ft.value).None? {
            errors := errors + [NonFunctionApplication(ft.value)];
          } else {
            KnownFlat(c, f.id);
            value := ApplyOne(ft.value);
          }
        }
      case Let(_, _, v, b) =>
        asks := asks + [(v.id, None)];
        asks := asks + [(b.id, want)];
        value := TypeOf(c, b.id);
      case Variable(id, _) =>
        if id in c.references {
          match c.references[id] {
            case Resolved(declaration) => value := Defined(c, declaration);
            case Unbound(name) => errors := errors + [UnboundVariable(name)];
          }
        }
      case ErrorExpr(_) =>
    }
    r := Effects(value, asks, errors);
  }

  method SynthBranches(a: Option<TypeValue>, b: Option<TypeValue>)
    returns (value: Option<TypeValue>, errors: seq<TypeError>)
    ensures Effects(value, [], errors) == Branches(a, b, [])
  {
    value, errors := None, [];
    if a.Some? && b.Some? {
      if a.value == b.value {
        value := a;
      } else {
        errors := [BranchMismatch(a.value, b.value)];
      }
    }
  }

  /** Every published type is flat: only `function` and `apply_one` build function types. */
  ghost predicate AllFlat(c: Checked) {
    && (forall id :: id in c.synthesized && c.synthesized[id].Some? ==> Flat(c.synthesized[id].value))
    && (forall s :: s in c.definitions && c.definitions[s].Some? ==> Flat(c.definitions[s].value))
    && (forall k :: k in c.wanted ==> Flat(c.wanted[k]))
  }

  lemma KnownFlat(c: Checked, id: Id)
    requires AllFlat(c) && TypeOf(c, id).Some?
    ensures Flat(TypeOf(c, id).value)
  {
  }

  /** Flatness is an invariant: from flat tables every component publishes flat types. */
  lemma SynthFlat(c: Checked, e: Expr, want: Option<TypeValue>)
    requires AllFlat(c) && (want.Some? ==> Flat(want.value))
    ensures EffectsFlat(Finish(Synth(c, e, want), want))
  {
    SynthNodeFlat(c, e, want);
  }

  ghost predicate EffectsFlat(r: Effects) {
    && (r.value.Some? ==> Flat(r.value.value))
    && forall k :: 0 <= k < |r.asks| && r.asks[k].1.Some? ==> Flat(r.asks[k].1.value)
  }

  lemma SynthNodeFlat(c: Checked, e: Expr, want: Option<TypeValue>)
    requires AllFlat(c) && (want.Some? ==> Flat(want.value))
    ensures EffectsFlat(Synth(c, e, want))
  {
    if want.Some? && want.value.Function? {
      FunctionFlat(want.value.parameters[1..], want.value.result);
    }
    match e
    case Lambda(_, p, b) =>
      if TypeOf(c, p.id).Some? && TypeOf(c, b.id).Some? {
        FunctionFlat([TypeOf(c, p.id).value], TypeOf(c, b.id).value);
      }
    case Apply(_, f, _) =>
      if TypeOf(c, f.id).Some? { ApplyPeels(TypeOf(c, f.id).value); }
    case _ =>
  }

  // ------------------------------------------------------------------ the equations

  ghost predicate Publishes(c: Checked, parent: Id, id: Id, r: Effects) {
    var f := Finish(r, Wanted(c, parent, id));
    && Get(c.synthesized, id) == Some(f.value)
    && Get(c.diagnostics, id) == Some(f.errors)
    && forall k :: 0 <= k < |f.asks| ==> Wanted(c, id, f.asks[k].0) == f.asks[k].1
  }

  /** `synth_type_atom` */
  function SynthAtom(c: Checked, a: TypeAtom): Effects {
    match a
    case NatAtom(_) => Effects(Some(Nat), [], [])
    case BoolAtom(_) => Effects(Some(Bool), [], [])
    case UnitAtom(_) => Effects(Some(Unit), [], [])
    case Parens(_, inner) => Effects(TypeOf(c, inner.id), [], [])
  }

  /** `synth_type` */
  function SynthType(c: Checked, t: TypeExpr): Effects {
    match t
    case Arrow(_, l, r) =>
      Effects(
        if TypeOf(c, l.id).Some? && TypeOf(c, r.id).Some?
        then Some(MakeFunction([TypeOf(c, l.id).value], TypeOf(c, r.id).value))
        else None,
        [(l.id, None), (r.id, None)], [])
    case Simple(_, atom) => Effects(TypeOf(c, atom.id), [(atom.id, None)], [])
    case ErrorType(_) => Effects(None, [], [])
  }

  /** `synth_param` */
  function SynthParam(c: Checked, p: Param): Effects {
    if p.annotation.Some? then Effects(TypeOf(c, p.annotation.value.id), [(p.annotation.value.id, None)], [])
    else Effects(None, [], [MissingParameterAnnotation])
  }

  ghost predicate AtomChecked(c: Checked, parent: Id, a: TypeAtom)
    decreases a
  {
    Publishes(c, parent, a.id, SynthAtom(c, a)) && (a.Parens? ==> TypeChecked(c, a.id, a.inner))
  }

  ghost predicate TypeChecked(c: Checked, parent: Id, t: TypeExpr)
    decreases t
  {
    && Publishes(c, parent, t.id, SynthType(c, t))
    && match t
       case Arrow(id, l, r) => TypeChecked(c, id, l) && TypeChecked(c, id, r)
       case Simple(id, atom) => AtomChecked(c, id, atom)
       case ErrorType(_) => true
  }

  /** `synth_param` and `publish_param` */
  ghost predicate ParamChecked(c: Checked, parent: Id, p: Param) {
    && Publishes(c, parent, p.id, SynthParam(c, p))
    && (p.annotation.Some? ==> TypeChecked(c, p.id, p.annotation.value))
    && Get(c.definitions, p.id) == Some(TypeOf(c, p.id))
  }

  /** `synth_expr` and `publish_expr` at every node, with references resolved by `t`. */
  ghost predicate ExprChecked(c: Checked, t: Tables, parent: Id, e: Expr)
    requires AllFlat(c)
    decreases e
  {
    && Publishes(c, parent, e.id, Synth(c, e, Wanted(c, parent, e.id)))
    && match e
       case Variable(id, text) =>
         Get(c.references, id) ==
           if id !in t.incoming then None
           else Some(if text.None? then Unbound("") else Resolve(t, t.incoming[id], text.value))
       case If(id, b, x, y) => ExprChecked(c, t, id, b) && ExprChecked(c, t, id, x) && ExprChecked(c, t, id, y)
       case Case(id, s, z, _, n) =>
         && Get(c.definitions, id) == None
         && ExprChecked(c, t, id, s) && ExprChecked(c, t, id, z) && ExprChecked(c, t, id, n)
       case Let(id, _, v, b) =>
         && Get(c.definitions, id) == Some(TypeOf(c, id))
         && ExprChecked(c, t, id, v) && ExprChecked(c, t, id, b)
       case Lambda(id, p, b) => ParamChecked(c, id, p) && ExprChecked(c, t, id, b)
       case Add(id, l, r) => ExprChecked(c, t, id, l) && ExprChecked(c, t, id, r)
       case Apply(id, f, a) => ExprChecked(c, t, id, f) && ExprChecked(c, t, id, a)
       case Succ(id, v) => ExprChecked(c, t, id, v)
       case Group(id, v) => ExprChecked(c, t, id, v)
       case _ => true
  }

  // ------------------------------------------------------------------ soundness

  ghost predicate Silent(c: Checked, id: Id) {
    TypeOf(c, id).Some? && Get(c.diagnostics, id) == Some([])
  }

  ghost predicate CleanAtom(c: Checked, a: TypeAtom)
    decreases a
  {
    Silent(c, a.id) && (a.Parens? ==> CleanType(c, a.inner))
  }

  ghost predicate CleanType(c: Checked, t: TypeExpr)
    decreases t
  {
    && Silent(c, t.id)
    && match t
       case Arrow(_, l, r) => CleanType(c, l) && CleanType(c, r)
       case Simple(_, atom) => CleanAtom(c, atom)
       case ErrorType(_) => true
  }

  ghost predicate CleanParam(c: Checked, p: Param) {
    Silent(c, p.id) && (p.annotation.Some? ==> CleanType(c, p.annotation.value))
  }

  /** Every node is `Known` and no node carries a diagnostic. */
  ghost predicate Clean(c: Checked, e: Expr)
    decreases e
  {
    && Silent(c, e.id)
    && match e
       case If(_, b, x, y) => Clean(c, b) && Clean(c, x) && Clean(c, y)
       case Case(_, s, z, _, n) => Clean(c, s) && Clean(c, z) && Clean(c, n)
       case Let(_, _, v, b) => Clean(c, v) && Clean(c, b)
       case Lambda(_, p, b) => CleanParam(c, p) && Clean(c, b)
       case Add(_, l, r) => Clean(c, l) && Clean(c, r)
       case Apply(_, f, a) => Clean(c, f) && Clean(c, a)
       case Succ(_, v) => Clean(c, v)
       case Group(_, v) => Clean(c, v)
       case _ => true
  }

  /** The binder of a `let` does not occur free in its body. */
  predicate UnusedIn(name: Name, body: Expr) {
    name.Some? ==> !Free(body, name.value)
  }

  /** No `let` uses its binder. */
  predicate LetsUnused(e: Expr) {
    match e
    case If(_, b, x, y) => LetsUnused(b) && LetsUnused(x) && LetsUnused(y)
    case Case(_, s, z, _, n) => LetsUnused(s) && LetsUnused(z) && LetsUnused(n)
    case Let(_, name, v, b) => UnusedIn(name, b) && LetsUnused(v) && LetsUnused(b)
    case Lambda(_, _, b) => LetsUnused(b)
    case Add(_, l, r) => LetsUnused(l) && LetsUnused(r)
    case Apply(_, f, a) => LetsUnused(f) && LetsUnused(a)
    case Succ(_, v) => LetsUnused(v)
    case Group(_, v) => LetsUnused(v)
    case _ => true
  }

  /** At every `let` that uses its binder, the published type of the whole node, which the binder
      gets, is the type of the bound value. */
  ghost predicate LetsSafe(c: Checked, e: Expr) {
    match e
    case If(_, b, x, y) => LetsSafe(c, b) && LetsSafe(c, x) && LetsSafe(c, y)
    case Case(_, s, z, _, n) => LetsSafe(c, s) && LetsSafe(c, z) && LetsSafe(c, n)
    case Let(id, name, v, b) =>
      (UnusedIn(name, b) || TypeOf(c, id) == TypeOf(c, v.id)) && LetsSafe(c, v) && LetsSafe(c, b)
    case Lambda(_, _, b) => LetsSafe(c, b)
    case Add(_, l, r) => LetsSafe(c, l) && LetsSafe(c, r)
    case Apply(_, f, a) => LetsSafe(c, f) && LetsSafe(c, a)
    case Succ(_, v) => LetsSafe(c, v)
    case Group(_, v) => LetsSafe(c, v)
    case _ => true
  }

  lemma {:induction false} UnusedSafe(c: Checked, e: Expr)
    requires LetsUnused(e)
    ensures LetsSafe(c, e)
  {
    match e
    case If(_, b, x, y) =>
      UnusedSafe(c, b);
      UnusedSafe(c, x);
      UnusedSafe(c, y);
    case Case(_, s, z, _, n) =>
      UnusedSafe(c, s);
      UnusedSafe(c, z);
      UnusedSafe(c, n);
    case Let(_, _, v, b) =>
      UnusedSafe(c, v);
      UnusedSafe(c, b);
    case Lambda(_, _, b) => UnusedSafe(c, b);
    case Add(_, l, r) =>
      UnusedSafe(c, l);
      UnusedSafe(c, r);
    case Apply(_, f, a) =>
      UnusedSafe(c, f);
      UnusedSafe(c, a);
    case Succ(_, v) => UnusedSafe(c, v);
    case Group(_, v) => UnusedSafe(c, v);
    case _ =>
  }

  /** A silent node publishes its type, agrees with what was asked of it, and has no own error. */
  lemma SilentNode(c: Checked, parent: Id, id: Id, r: Effects)
    requires Publishes(c, parent, id, r) && Silent(c, id)
    ensures r.value == TypeOf(c, id) && r.errors == []
    ensures Wanted(c, parent, id).Some? ==> Wanted(c, parent, id) == TypeOf(c, id)
    ensures forall k :: 0 <= k < |r.asks| ==> Wanted(c, id, r.asks[k].0) == r.asks[k].1
  {
    var want := Wanted(c, parent, id);
    var f := Finish(r, want);
    assert f.errors == [];
    assert f.value == r.value && f.asks == r.asks;
  }

  lemma {:induction false} AtomSound(c: Checked, parent: Id, a: TypeAtom)
    requires AtomChecked(c, parent, a) && CleanAtom(c, a)
    ensures DenotesAtom(a) == Some(Curry(TypeOf(c, a.id).value))
    decreases a
  {
    match a
    case NatAtom(id) => SilentNode(c, parent, id, Effects(Some(Nat), [], []));
    case BoolAtom(id) => SilentNode(c, parent, id, Effects(Some(Bool), [], []));
    case UnitAtom(id) => SilentNode(c, parent, id, Effects(Some(Unit), [], []));
    case Parens(id, inner) =>
      SilentNode(c, parent, id, Effects(TypeOf(c, inner.id), [], []));
      TypeSound(c, id, inner);
  }

  /** A clean written type denotes the type that was synthesized for it. */
  lemma {:induction false} TypeSound(c: Checked, parent: Id, t: TypeExpr)
    requires TypeChecked(c, parent, t) && CleanType(c, t)
    ensures Denotes(t) == Some(Curry(TypeOf(c, t.id).value))
    decreases t
  {
    match t
    case Arrow(id, l, r) =>
      TypeSound(c, id, l);
      TypeSound(c, id, r);
      var built := MakeFunction([TypeOf(c, l.id).value], TypeOf(c, r.id).value);
      SilentNode(c, parent, id, Effects(Some(built), [(l.id, None), (r.id, None)], []));
      OneArrow(TypeOf(c, l.id).value, TypeOf(c, r.id).value);
    case Simple(id, atom) =>
      SilentNode(c, parent, id, Effects(TypeOf(c, atom.id), [(atom.id, None)], []));
      AtomSound(c, id, atom);
    case ErrorType(id) => SilentNode(c, parent, id, Effects(None, [], []));
  }

  lemma ParamSound(c: Checked, parent: Id, p: Param)
    requires ParamChecked(c, parent, p) && CleanParam(c, p)
    ensures p.annotation.Some? && Denotes(p.annotation.value) == Some(Curry(TypeOf(c, p.id).value))
    ensures Defined(c, p.id) == TypeOf(c, p.id)
  {
    if p.annotation.Some? {
      var a := p.annotation.value;
      SilentNode(c, parent, p.id, Effects(TypeOf(c, a.id), [(a.id, None)], []));
      TypeSound(c, p.id, a);
    } else {
      SilentNode(c, parent, p.id, Effects(None, [], [MissingParameterAnnotation]));
    }
  }

  /** The context assigns every binder with a known definition that definition. */
  ghost predicate Agrees(c: Checked, env: Env, g: Context) {
    && |env| == |g|
    && forall i :: 0 <= i < |g| ==> AgreesAt(c, env[i], g[i])
  }

  ghost predicate AgreesAt(c: Checked, b: Binding, entry: (Name, SimpleType)) {
    entry.0 == b.name && (Defined(c, b.binder).Some? ==> entry.1 == Curry(Defined(c, b.binder).value))
  }

  lemma AgreesWith(c: Checked, env: Env, g: Context, name: Name, binder: Id, s: SimpleType)
    requires Agrees(c, env, g) && AgreesAt(c, Binding(name, binder), (name, s))
    ensures Agrees(c, With(env, name, binder), g + [(name, s)])
  {
  }

  /** The nearest binder of a name carries the type the context assigns to the name. */
  lemma {:induction false} NearestAssigned(c: Checked, env: Env, g: Context, name: string)
    requires Agrees(c, env, g) && Nearest(env, name).Resolved?
    requires Defined(c, Nearest(env, name).declaration).Some?
    ensures Assigned(g, name) == Some(Curry(Defined(c, Nearest(env, name).declaration).value))
  {
    var n := |env| - 1;
    assert AgreesAt(c, env[n], g[n]);
    if env[n].name != Some(name) {
      forall i | 0 <= i < n ensures AgreesAt(c, env[..n][i], g[..n][i]) {
        assert AgreesAt(c, env[i], g[i]);
      }
      NearestAssigned(c, env[..n], g[..n], name);
    }
  }

  /** What soundness needs to know about one expression in its surroundings. */
  ghost predicate Ready(c: Checked, t: Tables, env: Env, g: Context, parent: Id, e: Expr) {
    && AllFlat(c) && ExprChecked(c, t, parent, e) && Clean(c, e) && LetsSafe(c, e)
    && ResolvesLexically(t, e, env) && Agrees(c, env, g)
  }

  /** In a fixpoint where every node is known and silent, and every `let` that uses its binder has
      the type of its value, the synthesized type is derivable. */
  lemma {:induction false} Sound(c: Checked, t: Tables, env: Env, g: Context, parent: Id, e: Expr)
    requires Ready(c, t, env, g, parent, e)
    ensures HasType(g, e, Curry(TypeOf(c, e.id).value))
    ensures Wanted(c, parent, e.id).Some? ==> Wanted(c, parent, e.id) == TypeOf(c, e.id)
    decreases e, 1
  {
    SilentNode(c, parent, e.id, Synth(c, e, Wanted(c, parent, e.id)));
    match e
    case Variable(_, _) => SoundVariable(c, t, env, g, parent, e);
    case Group(_, _) => SoundUnary(c, t, env, g, parent, e);
    case Succ(_, _) => SoundUnary(c, t, env, g, parent, e);
    case Add(_, _, _) => SoundAdd(c, t, env, g, parent, e);
    case If(_, _, _, _) => SoundIf(c, t, env, g, parent, e);
    case Case(_, _, _, _, _) => SoundCase(c, t, env, g, parent, e);
    case Lambda(_, _, _) => SoundLambda(c, t, env, g, parent, e);
    case Apply(_, _, _) => SoundApply(c, t, env, g, parent, e);
    case Let(_, _, _, _) => SoundLet(c, t, env, g, parent, e);
    case _ =>
  }

  lemma {:induction false} SoundUnary(c: Checked, t: Tables, env: Env, g: Context, parent: Id, e: Expr)
    requires (e.Group? || e.Succ?) && Ready(c, t, env, g, parent, e)
    ensures HasType(g, e, Curry(TypeOf(c, e.id).value))
    decreases e, 0
  {
    var r := Synth(c, e, Wanted(c, parent, e.id));
    SilentNode(c, parent, e.id, r);
    if e.Succ? {
      assert r.asks[0] == (e.value.id, Some(Nat));
      Sound(c, t, env, g, e.id, e.value);
    } else {
      Sound(c, t, env, g, e.id, e.inner);
    }
  }

  lemma {:induction false} SoundAdd(c: Checked, t: Tables, env: Env, g: Context, parent: Id, e: Expr)
    requires e.Add? && Ready(c, t, env, g, parent, e)
    ensures HasType(g, e, Curry(TypeOf(c, e.id).value))
    decreases e, 0
  {
    var r := Synth(c, e, Wanted(c, parent, e.id));
    SilentNode(c, parent, e.id, r);
    assert r.asks[0] == (e.left.id, Some(Nat)) && r.asks[1] == (e.right.id, Some(Nat));
    Sound(c, t, env, g, e.id, e.left);
    Sound(c, t, env, g, e.id, e.right);
  }

  lemma {:induction false} SoundIf(c: Checked, t: Tables, env: Env, g: Context, parent: Id, e: Expr)
    requires e.If? && Ready(c, t, env, g, parent, e)
    ensures HasType(g, e, Curry(TypeOf(c, e.id).value))
    decreases e, 0
  {
    var r := Synth(c, e, Wanted(c, parent, e.id));
    SilentNode(c, parent, e.id, r);
    assert r.asks[0] == (e.condition.id, Some(Bool));
    Sound(c, t, env, g, e.id, e.condition);
    Sound(c, t, env, g, e.id, e.whenTrue);
    Sound(c, t, env, g, e.id, e.whenFalse);
  }

  lemma {:induction false} SoundCase(c: Checked, t: Tables, env: Env, g: Context, parent: Id, e: Expr)
    requires e.Case? && Ready(c, t, env, g, parent, e)
    ensures HasType(g, e, Curry(TypeOf(c, e.id).value))
    decreases e, 0
  {
    var r := Synth(c, e, Wanted(c, parent, e.id));
    SilentNode(c, parent, e.id, r);
    assert r.asks[0] == (e.scrutinee.id, Some(Nat));
    Sound(c, t, env, g, e.id, e.scrutinee);
    Sound(c, t, env, g, e.id, e.zero);
    AgreesWith(c, env, g, e.binder, e.id, SNat);
    Sound(c, t, With(env, e.binder, e.id), g + [(e.binder, SNat)], e.id, e.successor);
  }

  lemma {:induction false} SoundLet(c: Checked, t: Tables, env: Env, g: Context, parent: Id, e: Expr)
    requires e.Let? && Ready(c, t, env, g, parent, e)
    ensures HasType(g, e, Curry(TypeOf(c, e.id).value))
    decreases e, 0
  {
    SilentNode(c, parent, e.id, Synth(c, e, Wanted(c, parent, e.id)));
    Sound(c, t, env, g, e.id, e.value);
    assert Silent(c, e.value.id);
    var bound := Curry(TypeOf(c, e.value.id).value);
    var given := if UnusedIn(e.name, e.body) then Curry(TypeOf(c, e.id).value) else bound;
    AgreesWith(c, env, g, e.name, e.id, given);
    Sound(c, t, With(env, e.name, e.id), g + [(e.name, given)], e.id, e.body);
    if UnusedIn(e.name, e.body) { Unused(g, e.name, given, bound, e.body, Curry(TypeOf(c, e.id).value)); }
  }

  lemma {:induction false} SoundVariable(c: Checked, t: Tables, env: Env, g: Context, parent: Id, e: Expr)
    requires e.Variable? && Ready(c, t, env, g, parent, e)
    ensures HasType(g, e, Curry(TypeOf(c, e.id).value))
    decreases e, 0
  {
    var r := Synth(c, e, Wanted(c, parent, e.id));
    SilentNode(c, parent, e.id, r);
    assert e.id in c.references && c.references[e.id].Resolved?;
    if e.text.Some? { NearestAssigned(c, env, g, e.text.value); }
  }

  lemma {:induction false} SoundLambda(c: Checked, t: Tables, env: Env, g: Context, parent: Id, e: Expr)
    requires e.Lambda? && Ready(c, t, env, g, parent, e)
    ensures HasType(g, e, Curry(TypeOf(c, e.id).value))
    decreases e, 0
  {
    var p, b := e.parameter, e.body;
    SilentNode(c, parent, e.id, Synth(c, e, Wanted(c, parent, e.id)));
    ParamSound(c, e.id, p);
    var from := TypeOf(c, p.id).value;
    AgreesWith(c, env, g, p.name, p.id, Curry(from));
    Sound(c, t, With(env, p.name, p.id), g + [(p.name, Curry(from))], e.id, b);
    OneArrow(from, TypeOf(c, b.id).value);
  }

  lemma {:induction false} SoundApply(c: Checked, t: Tables, env: Env, g: Context, parent: Id, e: Expr)
    requires e.Apply? && Ready(c, t, env, g, parent, e)
    ensures HasType(g, e, Curry(TypeOf(c, e.id).value))
    decreases e, 0
  {
    var f, a := e.function0, e.argument;
    var r := Synth(c, e, Wanted(c, parent, e.id));
    SilentNode(c, parent, e.id, r);
    Sound(c, t, env, g, e.id, f);
    Sound(c, t, env, g, e.id, a);
    var ft := TypeOf(c, f.id).value;
    KnownFlat(c, f.id);
    ApplyPeels(ft);
    assert r.asks[1] == (a.id, FirstParameter(Some(ft)));
    assert HasType(g, f, SimpleType.Arrow(Curry(ft.parameters[0]), Curry(TypeOf(c, e.id).value)));
  }

  /** Soundness for terms whose `let` binders are unused, in particular for let-free terms. */
  lemma UnusedLetsSound(c: Checked, t: Tables, env: Env, g: Context, parent: Id, e: Expr)
    requires AllFlat(c) && ExprChecked(c, t, parent, e) && Clean(c, e) && LetsUnused(e)
    requires ResolvesLexically(t, e, env) && Agrees(c, env, g)
    ensures HasType(g, e, Curry(TypeOf(c, e.id).value))
  {
    UnusedSafe(c, e);
    Sound(c, t, env, g, parent, e);
  }

  // ------------------------------------------------------------------ declarations

  /** The loop over the reversed parameters. */
  function Abstracted(c: Checked, parameters: seq<Param>, body: Option<TypeValue>): Option<TypeValue> {
    if parameters == [] then body
    else
      var rest := Abstracted(c, parameters[1..], body);
      var first := TypeOf(c, parameters[0].id);
      if first.Some? && rest.Some? then Some(MakeFunction([first.value], rest.value)) else None
  }

  method AbstractParameters(c: Checked, parameters: seq<Param>, body: Option<TypeValue>)
    returns (value: Option<TypeValue>)
    ensures value == Abstracted(c, parameters, body)
  {
    value := body;
    var i := |parameters|;
    assert parameters[i..] == [];
    while i > 0
      invariant 0 <= i <= |parameters| && value == Abstracted(c, parameters[i..], body)
    {
      i := i - 1;
      assert parameters[i..][0] == parameters[i] && parameters[i..][1..] == parameters[i + 1..];
      var first := TypeOf(c, parameters[i].id);
      if first.Some? && value.Some? {
        var built := BuildFunction([first.value], value.value);
        value := Some(built);
      } else {
        value := None;
      }
    }
    assert parameters[0..] == parameters;
  }

  function AnnotationOf(c: Checked, d: Declaration): Option<TypeValue>
    requires d.Value?
  {
    if d.annotation.Some? then TypeOf(c, d.annotation.value.id) else None
  }

  /** Nothing is asked of the annotation and the parameters, the annotated type of the body. */
  function DeclarationAsks(c: Checked, d: Declaration): (asks: seq<(Id, Option<TypeValue>)>)
    requires d.Value?
    ensures asks != [] && asks[|asks| - 1] == (d.body.id, AnnotationOf(c, d))
  {
    (if d.annotation.Some? then [(d.annotation.value.id, None)] else [])
    + seq(|d.parameters|, i requires 0 <= i < |d.parameters| => (d.parameters[i].id, None))
    + [(d.body.id, AnnotationOf(c, d))]
  }

  /** `synth_declaration`: the body is checked against the annotation, and so is the whole. */
  function SynthDeclaration(c: Checked, d: Declaration): Effects
    requires d.Value?
  {
    var found := Abstracted(c, d.parameters, TypeOf(c, d.body.id));
    var annotation := AnnotationOf(c, d);
    if annotation.Some? && found.Some? && annotation != found
    then Effects(None, DeclarationAsks(c, d), [Mismatch(annotation.value, found.value)])
    else Effects(found, DeclarationAsks(c, d), [])
  }

  /** `synth_declaration` and `publish_declaration` */
  ghost predicate DeclarationChecked(c: Checked, t: Tables, doc: Id, d: Declaration)
    requires AllFlat(c)
  {
    d.Value? ==>
      && Publishes(c, doc, d.id, SynthDeclaration(c, d))
      && Get(c.definitions, d.id) == Some(TypeOf(c, d.id))
      && (d.annotation.Some? ==> TypeChecked(c, d.id, d.annotation.value))
      && (forall i :: 0 <= i < |d.parameters| ==> ParamChecked(c, d.id, d.parameters[i]))
      && ExprChecked(c, t, d.id, d.body)
  }

  ghost predicate CleanDeclaration(c: Checked, d: Declaration) {
    d.Value? ==>
      && Silent(c, d.id) && (d.annotation.Some? ==> CleanType(c, d.annotation.value))
      && (forall i :: 0 <= i < |d.parameters| ==> CleanParam(c, d.parameters[i]))
      && Clean(c, d.body)
  }

  /** The context in which every binder has its published definition. */
  ghost function Assumptions(c: Checked, env: Env): (g: Context)
    ensures |g| == |env|
    ensures forall i :: 0 <= i < |g| ==> g[i] == Assumption(c, env[i])
  {
    if env == [] then [] else Assumptions(c, env[..|env| - 1]) + [Assumption(c, env[|env| - 1])]
  }

  ghost function Assumption(c: Checked, b: Binding): (Name, SimpleType) {
    (b.name, if Defined(c, b.binder).Some? then Curry(Defined(c, b.binder).value) else SUnit)
  }

  lemma AssumptionsAgree(c: Checked, env: Env)
    ensures Agrees(c, env, Assumptions(c, env))
  {
  }

  /** The written parameter types, as arrows to `to`. */
  function Written(parameters: seq<Param>, to: SimpleType): Option<SimpleType> {
    if parameters == [] then Some(to)
    else
      var rest := Written(parameters[1..], to);
      if parameters[0].annotation.Some? && Denotes(parameters[0].annotation.value).Some? && rest.Some?
      then Some(SimpleType.Arrow(Denotes(parameters[0].annotation.value).value, rest.value))
      else None
  }

  lemma {:induction false} AbstractedWritten(c: Checked, parent: Id, parameters: seq<Param>, body: TypeValue)
    requires forall i :: 0 <= i < |parameters| ==>
      ParamChecked(c, parent, parameters[i]) && CleanParam(c, parameters[i])
    ensures Abstracted(c, parameters, Some(body)).Some?
    ensures Written(parameters, Curry(body)) == Some(Curry(Abstracted(c, parameters, Some(body)).value))
  {
    if parameters != [] {
      ParamSound(c, parent, parameters[0]);
      AbstractedWritten(c, parent, parameters[1..], body);
      OneArrow(TypeOf(c, parameters[0].id).value, Abstracted(c, parameters[1..], Some(body)).value);
    }
  }

  /** A clean declaration publishes the arrows from its written parameter types to a type its body
      derives, under the published types of the binders around it. */
  lemma {:induction false} DeclarationSound(c: Checked, t: Tables, env: Env, doc: Id, d: Declaration)
    requires AllFlat(c) && d.Value? && DeclarationChecked(c, t, doc, d) && CleanDeclaration(c, d)
    requires LetsSafe(c, d.body)
    requires ResolvesLexically(t, d.body, ParamEnv(With(env, d.name, d.id), d.parameters))
    ensures var body := Curry(TypeOf(c, d.body.id).value);
      && HasType(Assumptions(c, ParamEnv(With(env, d.name, d.id), d.parameters)), d.body, body)
      && Written(d.parameters, body) == Some(Curry(TypeOf(c, d.id).value))
  {
    var inner := ParamEnv(With(env, d.name, d.id), d.parameters);
    SilentNode(c, doc, d.id, SynthDeclaration(c, d));
    AssumptionsAgree(c, inner);
    Sound(c, t, inner, Assumptions(c, inner), d.id, d.body);
    assert TypeOf(c, d.body.id).Some?;
    AbstractedWritten(c, d.id, d.parameters, TypeOf(c, d.body.id).value);
  }

  /** Every declaration of a document, each under the declarations before it. */
  ghost predicate DeclarationsSound(c: Checked, declarations: seq<Declaration>, env: Env) {
    declarations != [] ==>
      var d := declarations[0];
      if d.Value? then
        && TypeOf(c, d.id).Some? && TypeOf(c, d.body.id).Some?
        && var body := Curry(TypeOf(c, d.body.id).value);
        && HasType(Assumptions(c, ParamEnv(With(env, d.name, d.id), d.parameters)), d.body, body)
        && Written(d.parameters, body) == Some(Curry(TypeOf(c, d.id).value))
        && DeclarationsSound(c, declarations[1..], With(env, d.name, d.id))
      else DeclarationsSound(c, declarations[1..], env)
  }

  lemma {:induction false} AllDeclarationsSound(c: Checked, t: Tables, env: Env, doc: Id,
                                                declarations: seq<Declaration>)
    requires AllFlat(c) && DeclarationsResolve(t, declarations, env)
    requires forall i :: 0 <= i < |declarations| ==>
      DeclarationChecked(c, t, doc, declarations[i]) && CleanDeclaration(c, declarations[i])
    requires forall i :: 0 <= i < |declarations| && declarations[i].Value? ==> LetsUnused(declarations[i].body)
    ensures DeclarationsSound(c, declarations, env)
    decreases |declarations|
  {
    if declarations != [] {
      var d := declarations[0];
      if d.Value? {
        UnusedSafe(c, d.body);
        DeclarationSound(c, t, env, doc, d);
        AllDeclarationsSound(c, t, With(env, d.name, d.id), doc, declarations[1..]);
      } else {
        AllDeclarationsSound(c, t, env, doc, declarations[1..]);
      }
    }
  }

  /** Soundness of a document: in any fixpoint of its naming and checking equations in which every
      node is known and silent, and no `let` uses its binder, every declaration is well-typed. */
  lemma DocumentSound(c: Checked, t: Tables, doc: Document)
    requires Fixpoint(t, doc) && DocumentProper(doc.declarations, {doc.id}) && AllFlat(c)
    requires forall i :: 0 <= i < |doc.declarations| ==>
      DeclarationChecked(c, t, doc.id, doc.declarations[i]) && CleanDeclaration(c, doc.declarations[i])
    requires forall i :: 0 <= i < |doc.declarations| && doc.declarations[i].Value? ==>
      LetsUnused(doc.declarations[i].body)
    ensures DeclarationsSound(c, doc.declarations, [])
  {
    FixpointResolvesLexically(t, doc);
    AllDeclarationsSound(c, t, [], doc.id, doc.declarations);
  }

  // ------------------------------------------------------------------ annotated parameters

  lemma {:induction false} AbstractedGrows(c: Checked, parameters: seq<Param>, body: TypeValue)
    requires parameters != [] && Abstracted(c, parameters, Some(body)).Some?
    ensures var r := Abstracted(c, parameters, Some(body)).value;
      r.Function? && |r.parameters| > if body.Function? then |body.parameters| else 0
  {
    if parameters[1..] != [] { AbstractedGrows(c, parameters[1..], body); }
  }

  /** A declaration with both parameters and a known annotation is never clean: its body is asked
      for the annotated type, and so is the function type built over the body. */
  lemma {:induction false} AnnotatedParametersNeverClean(c: Checked, t: Tables, doc: Id, d: Declaration)
    requires AllFlat(c) && d.Value? && DeclarationChecked(c, t, doc, d)
    requires d.parameters != [] && AnnotationOf(c, d).Some?
    ensures !CleanDeclaration(c, d)
  {
    if CleanDeclaration(c, d) {
      var r := SynthDeclaration(c, d);
      SilentNode(c, doc, d.id, r);
      SilentNode(c, d.id, d.body.id, Synth(c, d.body, Wanted(c, d.id, d.body.id)));
      assert r.asks[|r.asks| - 1] == (d.body.id, AnnotationOf(c, d));
      AbstractedGrows(c, d.parameters, TypeOf(c, d.body.id).value);
    }
  }

  /** Everything below a declaration is known and silent. */
  ghost predicate PartsClean(c: Checked, d: Declaration)
    requires d.Value?
  {
    && (d.annotation.Some? ==> CleanType(c, d.annotation.value))
    && (forall i :: 0 <= i < |d.parameters| ==> CleanParam(c, d.parameters[i]))
    && Clean(c, d.body)
  }

  /** The exact condition: over clean parts, a declaration is clean iff it has no parameters or no
      annotation. */
  lemma DeclarationCleanIff(c: Checked, t: Tables, doc: Id, d: Declaration)
    requires AllFlat(c) && d.Value? && DeclarationChecked(c, t, doc, d) && PartsClean(c, d)
    requires Wanted(c, doc, d.id) == None
    ensures CleanDeclaration(c, d) <==> d.parameters == [] || d.annotation.None?
  {
    if d.parameters != [] && d.annotation.Some? {
      AnnotatedParametersNeverClean(c, t, doc, d);
    } else {
      var r := SynthDeclaration(c, d);
      assert r.asks[|r.asks| - 1] == (d.body.id, AnnotationOf(c, d));
      SilentNode(c, d.id, d.body.id, Synth(c, d.body, Wanted(c, d.id, d.body.id)));
      AbstractedWritten(c, d.id, d.parameters, TypeOf(c, d.body.id).value);
    }
  }
}
