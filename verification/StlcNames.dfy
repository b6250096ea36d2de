/** Lexical name resolution by local equations, one per syntax node. */
module StlcNames {
  import opened Wrappers
  import opened StlcSyntax

  /** A scope is named by the node that allocates it. */
  type Scope = Id

  /** What the naming components have published.  `names` is the declaration bucket of a scope and
      `lexical` its edge to the enclosing scope. */
  datatype Tables = Tables(incoming: map<Id, Scope>, continuation: map<Id, Scope>,
                           lexical: map<Scope, Scope>, names: map<Scope, string>)

  function Get<T>(m: map<Id, T>, k: Id): Option<T> {
    if k in m then Some(m[k]) else None
  }

  // ------------------------------------------------------------------ the equations

  /** A binder allocates its scope below `incoming` and declares its name there, if it has one. */
  ghost predicate Binds(t: Tables, binder: Id, name: Name, incoming: Option<Scope>) {
    if incoming.Some? then
      && Get(t.continuation, binder) == Some(binder)
      && Get(t.lexical, binder) == incoming
      && Get(t.names, binder) == name
    else
      Get(t.continuation, binder) == None && Get(t.lexical, binder) == None && Get(t.names, binder) == None
  }

  function OrElse(first: Option<Scope>, second: Option<Scope>): Option<Scope> {
    if first.Some? then first else second
  }

  /** `name_param` */
  ghost predicate ParamFixed(t: Tables, p: Param) {
    Binds(t, p.id, p.name, Get(t.incoming, p.id))
  }

  /** `name_expr` at every node: each child's incoming scope is what its parent emits. */
  ghost predicate ExprFixed(t: Tables, e: Expr) {
    var incoming := Get(t.incoming, e.id);
    match e
    case If(_, c, a, b) =>
      && Get(t.incoming, c.id) == incoming && Get(t.incoming, a.id) == incoming && Get(t.incoming, b.id) == incoming
      && ExprFixed(t, c) && ExprFixed(t, a) && ExprFixed(t, b)
    case Case(id, s, z, binder, n) =>
      && Get(t.incoming, s.id) == incoming && Get(t.incoming, z.id) == incoming
      && Binds(t, id, binder, incoming)
      && Get(t.incoming, n.id) == (if incoming.Some? then Some(id) else None)
      && ExprFixed(t, s) && ExprFixed(t, z) && ExprFixed(t, n)
    case Let(id, name, v, b) =>
      && Get(t.incoming, v.id) == incoming
      && Binds(t, id, name, incoming)
      && Get(t.incoming, b.id) == (if incoming.Some? then Some(id) else None)
      && ExprFixed(t, v) && ExprFixed(t, b)
    case Lambda(_, p, b) =>
      && Get(t.incoming, p.id) == incoming && ParamFixed(t, p)
      && Get(t.incoming, b.id) == (if incoming.Some? then OrElse(Get(t.continuation, p.id), incoming) else None)
      && ExprFixed(t, b)
    case Add(_, l, r) =>
      && Get(t.incoming, l.id) == incoming && Get(t.incoming, r.id) == incoming
      && ExprFixed(t, l) && ExprFixed(t, r)
    case Apply(_, f, a) =>
      && Get(t.incoming, f.id) == incoming && Get(t.incoming, a.id) == incoming
      && ExprFixed(t, f) && ExprFixed(t, a)
    case Succ(_, v) => Get(t.incoming, v.id) == incoming && ExprFixed(t, v)
    case Group(_, v) => Get(t.incoming, v.id) == incoming && ExprFixed(t, v)
    case _ => true
  }

  /** The parameter loop of `name_declaration`: threads `parameter_scope`. */
  ghost predicate ParamsFixed(t: Tables, parameters: seq<Param>, scope: Scope, body: Id) {
    if parameters == [] then Get(t.incoming, body) == Some(scope)
    else
      var p := parameters[0];
      && Get(t.incoming, p.id) == Some(scope) && ParamFixed(t, p)
      && ParamsFixed(t, parameters[1..], OrElse(Get(t.continuation, p.id), Some(scope)).value, body)
  }

  /** `name_declaration` */
  ghost predicate DeclarationFixed(t: Tables, d: Declaration) {
    var incoming := Get(t.incoming, d.id);
    match d
    case Value(id, name, parameters, _, body) =>
      && Binds(t, id, name, incoming)
      && (incoming.Some? ==> ParamsFixed(t, parameters, id, body.id) && ExprFixed(t, body))
    case _ => Get(t.continuation, d.id) == None
  }

  /** The declaration loop of `name_document`: threads `current`. */
  ghost predicate DeclarationsFixed(t: Tables, declarations: seq<Declaration>, current: Scope) {
    declarations != [] ==>
      var d := declarations[0];
      && Get(t.incoming, d.id) == Some(current) && DeclarationFixed(t, d)
      && DeclarationsFixed(t, declarations[1..], OrElse(Get(t.continuation, d.id), Some(current)).value)
  }

  /** The tables are a fixpoint of the naming equations of the document. */
  ghost predicate Fixpoint(t: Tables, doc: Document) {
    && Get(t.lexical, doc.id) == None && Get(t.names, doc.id) == None
    && DeclarationsFixed(t, doc.declarations, doc.id)
  }

  // ------------------------------------------------------------------ the components

  /** `NameEffects`: incoming scopes given to children, and the scopes allocated here with their
      enclosing scope and name. */
  datatype NameEffects = NameEffects(incoming: seq<(Id, Scope)>, binders: seq<(Scope, Name, Scope)>)

  function NoEffects(): NameEffects {
    NameEffects([], [])
  }

  /** The incoming scopes for the declarations from one on. */
  function DeclarationScopes(t: Tables, declarations: seq<Declaration>, current: Scope): (r: seq<(Id, Scope)>)
    ensures |r| == |declarations| && forall i :: 0 <= i < |r| ==> r[i].0 == declarations[i].id
    decreases |declarations|
  {
    if declarations == [] then []
    else
      var d := declarations[0];
      var next := OrElse(Get(t.continuation, d.id), Some(current)).value;
      [(d.id, current)] + DeclarationScopes(t, declarations[1..], next)
  }

  function DocumentEffects(t: Tables, doc: Document): NameEffects {
    NameEffects([(doc.id, doc.id)] + DeclarationScopes(t, doc.declarations, doc.id), [])
  }

  /** The incoming scopes for the parameters from one on, and for the body. */
  function ParamScopes(t: Tables, parameters: seq<Param>, scope: Scope, body: Id): (r: seq<(Id, Scope)>)
    ensures |r| == |parameters| + 1 && r[|parameters|].0 == body
    ensures forall i :: 0 <= i < |parameters| ==> r[i].0 == parameters[i].id
    decreases |parameters|
  {
    if parameters == [] then [(body, scope)]
    else
      var p := parameters[0];
      [(p.id, scope)] + ParamScopes(t, parameters[1..], OrElse(Get(t.continuation, p.id), Some(scope)).value, body)
  }

  function DeclarationEffects(t: Tables, d: Declaration): NameEffects {
    if d.id !in t.incoming || !d.Value? then NoEffects()
    else NameEffects(ParamScopes(t, d.parameters, d.id, d.body.id), [(d.id, d.name, t.incoming[d.id])])
  }

  function ParamEffects(t: Tables, p: Param): NameEffects {
    if p.id in t.incoming then NameEffects([], [(p.id, p.name, t.incoming[p.id])]) else NoEffects()
  }

  function ExprEffects(t: Tables, e: Expr): NameEffects {
    if e.id !in t.incoming then NoEffects()
    else
      var scope := t.incoming[e.id];
      match e
      case If(_, c, a, b) => NameEffects([(c.id, scope), (a.id, scope), (b.id, scope)], [])
      case Case(id, s, z, binder, n) => NameEffects([(s.id, scope), (z.id, scope), (n.id, id)], [(id, binder, scope)])
      case Let(id, name, v, b) => NameEffects([(v.id, scope), (b.id, id)], [(id, name, scope)])
      case Lambda(_, p, b) =>
        NameEffects([(p.id, scope), (b.id, OrElse(Get(t.continuation, p.id), Some(scope)).value)], [])
      case Add(_, l, r) => NameEffects([(l.id, scope), (r.id, scope)], [])
      case Apply(_, f, a) => NameEffects([(f.id, scope), (a.id, scope)], [])
      case Succ(_, v) => NameEffects([(v.id, scope)], [])
      case Group(_, v) => NameEffects([(v.id, scope)], [])
      case _ => NoEffects()
  }

  /** The tables contain what a component emitted. */
  ghost predicate Contains(t: Tables, effects: NameEffects) {
    && Given(t, effects.incoming)
    && (forall i :: 0 <= i < |effects.binders| ==>
          Binds(t, effects.binders[i].0, effects.binders[i].1, Some(effects.binders[i].2)))
  }

  ghost predicate Given(t: Tables, incoming: seq<(Id, Scope)>) {
    forall i :: 0 <= i < |incoming| ==> Get(t.incoming, incoming[i].0) == Some(incoming[i].1)
  }

  lemma {:induction false} DeclarationsGiven(t: Tables, declarations: seq<Declaration>, current: Scope)
    requires DeclarationsFixed(t, declarations, current)
    ensures Given(t, DeclarationScopes(t, declarations, current))
    decreases |declarations|
  {
    if declarations != [] {
      var d := declarations[0];
      DeclarationsGiven(t, declarations[1..], OrElse(Get(t.continuation, d.id), Some(current)).value);
    }
  }

  lemma {:induction false} ParamsGiven(t: Tables, parameters: seq<Param>, scope: Scope, body: Id)
    requires ParamsFixed(t, parameters, scope, body)
    ensures Given(t, ParamScopes(t, parameters, scope, body))
    decreases |parameters|
  {
    if parameters != [] {
      var p := parameters[0];
      ParamsGiven(t, parameters[1..], OrElse(Get(t.continuation, p.id), Some(scope)).value, body);
    }
  }

  /** `name_document`: each declaration enters the scope the ones before it leave behind. */
  method NameDocument(t: Tables, doc: Document) returns (effects: NameEffects)
    ensures effects == DocumentEffects(t, doc)
    ensures Fixpoint(t, doc) && Get(t.incoming, doc.id) == Some(doc.id) ==> Contains(t, effects)
  {
    var incoming, current := [(doc.id, doc.id)], doc.id;
    assert doc.declarations[0..] == doc.declarations;
    for i := 0 to |doc.declarations|
      invariant incoming + DeclarationScopes(t, doc.declarations[i..], current) == DocumentEffects(t, doc).incoming
    {
      var d := doc.declarations[i];
      assert doc.declarations[i..][0] == d && doc.declarations[i..][1..] == doc.declarations[i + 1..];
      incoming := incoming + [(d.id, current)];
      current := OrElse(Get(t.continuation, d.id), Some(current)).value;
    }
    assert doc.declarations[|doc.declarations|..] == [];
    effects := NameEffects(incoming, []);
    if Fixpoint(t, doc) { DeclarationsGiven(t, doc.declarations, doc.id); }
  }

  /** `name_declaration`: parameters and body nest inside the declaration's own scope. */
  method NameDeclaration(t: Tables, d: Declaration) returns (effects: NameEffects)
    ensures effects == DeclarationEffects(t, d)
    ensures DeclarationFixed(t, d) ==> Contains(t, effects)
  {
    if d.id !in t.incoming || !d.Value? { return NoEffects(); }
    var incoming: seq<(Id, Scope)>, scope := [], d.id;
    assert d.parameters[0..] == d.parameters;
    for i := 0 to |d.parameters|
      invariant incoming + ParamScopes(t, d.parameters[i..], scope, d.body.id)
             == ParamScopes(t, d.parameters, d.id, d.body.id)
    {
      var p := d.parameters[i];
      ParamStep(t, d.parameters, i, incoming, scope, d.body.id);
      incoming := incoming + [(p.id, scope)];
      scope := OrElse(Get(t.continuation, p.id), Some(scope)).value;
    }
    assert d.parameters[|d.parameters|..] == [];
    effects := NameEffects(incoming + [(d.body.id, scope)], [(d.id, d.name, t.incoming[d.id])]);
    if DeclarationFixed(t, d) { DeclarationContained(t, d); }
  }

  lemma ParamStep(t: Tables, parameters: seq<Param>, i: nat, incoming: seq<(Id, Scope)>, scope: Scope, body: Id)
    requires i < |parameters|
    ensures var p := parameters[i];
      incoming + ParamScopes(t, parameters[i..], scope, body)
        == incoming + [(p.id, scope)]
           + ParamScopes(t, parameters[i + 1..], OrElse(Get(t.continuation, p.id), Some(scope)).value, body)
  {
    var p := parameters[i];
    assert parameters[i..][0] == p && parameters[i..][1..] == parameters[i + 1..];
  }

  lemma DeclarationContained(t: Tables, d: Declaration)
    requires DeclarationFixed(t, d)
    ensures Contains(t, DeclarationEffects(t, d))
  {
    if d.id in t.incoming && d.Value? { ParamsGiven(t, d.parameters, d.id, d.body.id); }
  }

  /** `name_param` */
  method NameParam(t: Tables, p: Param) returns (effects: NameEffects)
    ensures effects == ParamEffects(t, p)
    ensures ParamFixed(t, p) ==> Contains(t, effects)
  {
    if p.id !in t.incoming { return NoEffects(); }
    effects := NameEffects([], [(p.id, p.name, t.incoming[p.id])]);
  }

  /** `name_expr`: pushes one incoming scope per child, and the scope of a binding expression. */
  method NameExpr(t: Tables, e: Expr) returns (effects: NameEffects)
    ensures effects == ExprEffects(t, e)
    ensures ExprFixed(t, e) ==> Contains(t, effects)
    ensures e.id in t.incoming ==> Children(effects) == ChildIds(e)
    ensures |effects.binders| == if e.id in t.incoming && (e.Case? || e.Let?) then 1 else 0
  {
    if e.id !in t.incoming { return NoEffects(); }
    var scope := t.incoming[e.id];
    var incoming: seq<(Id, Scope)>, binders: seq<(Scope, Name, Scope)> := [], [];
    match e {
      case If(_, c, a, b) => incoming := [(c.id, scope), (a.id, scope), (b.id, scope)];
      case Case(id, s, z, binder, n) =>
        incoming := [(s.id, scope), (z.id, scope)];
        binders := [(id, binder, scope)];
        incoming := incoming + [(n.id, id)];
      case Let(id, name, v, b) =>
        incoming := [(v.id, scope)];
        binders := [(id, name, scope)];
        incoming := incoming + [(b.id, id)];
      case Lambda(_, p, b) =>
        incoming := [(p.id, scope)];
        var inner := OrElse(Get(t.continuation, p.id), Some(scope)).value;
        incoming := incoming + [(b.id, inner)];
      case Add(_, l, r) => incoming := [(l.id, scope), (r.id, scope)];
      case Apply(_, f, a) => incoming := [(f.id, scope), (a.id, scope)];
      case Succ(_, v) => incoming := [(v.id, scope)];
      case Group(_, v) => incoming := [(v.id, scope)];
      case _ =>
    }
    effects := NameEffects(incoming, binders);
  }

  function Children(effects: NameEffects): seq<Id> {
    seq(|effects.incoming|, i requires 0 <= i < |effects.incoming| => effects.incoming[i].0)
  }

  /** The nodes directly below an expression that are given a scope. */
  function ChildIds(e: Expr): seq<Id> {
    match e
    case If(_, c, a, b) => [c.id, a.id, b.id]
    case Case(_, s, z, _, n) => [s.id, z.id, n.id]
    case Let(_, _, v, b) => [v.id, b.id]
    case Lambda(_, p, b) => [p.id, b.id]
    case Add(_, l, r) => [l.id, r.id]
    case Apply(_, f, a) => [f.id, a.id]
    case Succ(_, v) => [v.id]
    case Group(_, v) => [v.id]
    case _ => []
  }

  // ------------------------------------------------------------------ resolve_variable

  datatype Resolution = Resolved(declaration: Scope) | Unbound(name: string)

  /** Every scope a walk from `start` can meet. */
  function Universe(t: Tables, start: Scope): set<Scope> {
    t.lexical.Keys + t.lexical.Values + {start}
  }

  function ResolveFrom(t: Tables, universe: set<Scope>, current: Scope, name: string, seen: set<Scope>): Resolution
    requires current in universe && t.lexical.Values <= universe
    decreases |universe - seen|
  {
    if current in seen then Unbound(name)
    else if Get(t.names, current) == Some(name) then Resolved(current)
    else if current !in t.lexical then Unbound(name)
    else
      Advances(universe, seen, current);
      ResolveFrom(t, universe, t.lexical[current], name, seen + {current})
  }

  lemma Advances(universe: set<Scope>, seen: set<Scope>, current: Scope)
    requires current in universe && current !in seen
    ensures |universe - (seen + {current})| < |universe - seen|
  {
    assert universe - seen == (universe - (seen + {current})) + {current};
  }

  function Resolve(t: Tables, start: Scope, name: string): Resolution {
    ResolveFrom(t, Universe(t, start), start, name, {})
  }

  /** `resolve_variable`: terminates for any published tables, cyclic or not. */
  method ResolveVariable(t: Tables, e: Expr) returns (r: Option<Resolution>)
    ensures !e.Variable? || e.id !in t.incoming ==> r == None
    ensures e.Variable? && e.id in t.incoming ==>
      r == Some(if e.text.None? then Unbound("") else Resolve(t, t.incoming[e.id], e.text.value))
  {
    if !e.Variable? || e.id !in t.incoming { return None; }
    if e.text.None? { return Some(Unbound("")); }
    var name, current, seen: set<Scope> := e.text.value, t.incoming[e.id], {};
    ghost var universe := Universe(t, current);
    while current !in seen
      invariant current in universe && t.lexical.Values <= universe
      invariant ResolveFrom(t, universe, current, name, seen) == Resolve(t, t.incoming[e.id], name)
      decreases |universe - seen|
    {
      if current in t.names && t.names[current] == name { return Some(Resolved(current)); }
      if current !in t.lexical { break; }
      Advances(universe, seen, current);
      seen, current := seen + {current}, t.lexical[current];
    }
    r := Some(Unbound(name));
  }

  // ------------------------------------------------------------------ environment passing

  datatype Binding = Binding(name: Name, binder: Id)

  /** Binders in scope, innermost last. */
  type Env = seq<Binding>

  /** Ordinary lexical scoping: the nearest binder of the name. */
  function Nearest(env: Env, name: string): Resolution {
    if env == [] then Unbound(name)
    else if env[|env| - 1].name == Some(name) then Resolved(env[|env| - 1].binder)
    else Nearest(env[..|env| - 1], name)
  }

  function With(env: Env, name: Name, binder: Id): Env {
    env + [Binding(name, binder)]
  }

  /** In every position of `e`, read under `env`, variables resolve to the nearest binder. */
  ghost predicate ResolvesLexically(t: Tables, e: Expr, env: Env) {
    match e
    case Variable(id, text) =>
      text.Some? ==> id in t.incoming && Resolve(t, t.incoming[id], text.value) == Nearest(env, text.value)
    case If(_, c, a, b) => ResolvesLexically(t, c, env) && ResolvesLexically(t, a, env) && ResolvesLexically(t, b, env)
    case Case(id, s, z, binder, n) =>
      ResolvesLexically(t, s, env) && ResolvesLexically(t, z, env) && ResolvesLexically(t, n, With(env, binder, id))
    case Let(id, name, v, b) => ResolvesLexically(t, v, env) && ResolvesLexically(t, b, With(env, name, id))
    case Lambda(_, p, b) => ResolvesLexically(t, b, With(env, p.name, p.id))
    case Add(_, l, r) => ResolvesLexically(t, l, env) && ResolvesLexically(t, r, env)
    case Apply(_, f, a) => ResolvesLexically(t, f, env) && ResolvesLexically(t, a, env)
    case Succ(_, v) => ResolvesLexically(t, v, env)
    case Group(_, v) => ResolvesLexically(t, v, env)
    case _ => true
  }

  function ParamEnv(env: Env, parameters: seq<Param>): Env
    decreases |parameters|
  {
    if parameters == [] then env else ParamEnv(With(env, parameters[0].name, parameters[0].id), parameters[1..])
  }

  /** A declaration is in scope in its own body and in every later declaration. */
  ghost predicate DeclarationsResolve(t: Tables, declarations: seq<Declaration>, env: Env) {
    declarations != [] ==>
      match declarations[0]
      case Value(id, name, parameters, _, body) =>
        && ResolvesLexically(t, body, ParamEnv(With(env, name, id), parameters))
        && DeclarationsResolve(t, declarations[1..], With(env, name, id))
      case _ => DeclarationsResolve(t, declarations[1..], env)
  }

  // ------------------------------------------------------------------ the chain of scopes

  /** The scope standing for an environment: its innermost binder, or the document. */
  function Top(root: Scope, env: Env): Scope {
    if env == [] then root else env[|env| - 1].binder
  }

  /** The published scope graph spells out the environment, one binder after the other. */
  ghost predicate Chain(t: Tables, root: Scope, env: Env) {
    if env == [] then Get(t.lexical, root) == None && Get(t.names, root) == None
    else
      var b, front := env[|env| - 1], env[..|env| - 1];
      && Get(t.lexical, b.binder) == Some(Top(root, front)) && Get(t.names, b.binder) == b.name
      && Chain(t, root, front)
  }

  /** The scopes of an environment, the root included. */
  function ScopesOf(root: Scope, env: Env): set<Scope> {
    if env == [] then {root} else {env[|env| - 1].binder} + ScopesOf(root, env[..|env| - 1])
  }

  ghost predicate Fresh(root: Scope, env: Env) {
    env != [] ==> env[|env| - 1].binder !in ScopesOf(root, env[..|env| - 1]) && Fresh(root, env[..|env| - 1])
  }

  lemma {:induction false} TopInScopes(root: Scope, env: Env)
    ensures Top(root, env) in ScopesOf(root, env)
  {
  }

  /** Walking the published edges finds the nearest binder of the environment. */
  lemma {:induction false} WalkIsNearest(t: Tables, universe: set<Scope>, root: Scope, env: Env, name: string,
                                         seen: set<Scope>)
    requires Chain(t, root, env) && Fresh(root, env) && seen !! ScopesOf(root, env)
    requires Top(root, env) in universe && t.lexical.Values <= universe
    ensures ResolveFrom(t, universe, Top(root, env), name, seen) == Nearest(env, name)
  {
    if env != [] {
      var b, front := env[|env| - 1], env[..|env| - 1];
      assert t.lexical[b.binder] in t.lexical.Values;
      if Get(t.names, b.binder) != Some(name) {
        Advances(universe, seen, b.binder);
        WalkIsNearest(t, universe, root, front, name, seen + {b.binder});
      }
    }
  }

  lemma ExtendChain(t: Tables, root: Scope, env: Env, name: Name, binder: Id)
    requires Chain(t, root, env) && Fresh(root, env) && binder !in ScopesOf(root, env)
    requires Get(t.lexical, binder) == Some(Top(root, env)) && Get(t.names, binder) == name
    ensures Chain(t, root, With(env, name, binder)) && Fresh(root, With(env, name, binder))
    ensures Top(root, With(env, name, binder)) == binder
    ensures ScopesOf(root, With(env, name, binder)) == ScopesOf(root, env) + {binder}
  {
    assert With(env, name, binder)[..|env|] == env;
  }

  // ------------------------------------------------------------------ the main result

  /** An expression placed at the top of a chain. */
  ghost predicate Placed(t: Tables, root: Scope, env: Env, e: Expr) {
    && ExprFixed(t, e) && Get(t.incoming, e.id) == Some(Top(root, env))
    && Chain(t, root, env) && Fresh(root, env)
    && Proper(e) && Binders(e) !! ScopesOf(root, env)
  }

  lemma {:induction false} PlacedResolves(t: Tables, root: Scope, env: Env, e: Expr)
    requires Placed(t, root, env, e)
    ensures ResolvesLexically(t, e, env)
    decreases e, 1
  {
    match e
    case Variable(id, text) =>
      if text.Some? {
        TopInScopes(root, env);
        WalkIsNearest(t, Universe(t, t.incoming[id]), root, env, text.value, {});
      }
    case If(_, c, a, b) =>
      PlacedResolves(t, root, env, c);
      PlacedResolves(t, root, env, a);
      PlacedResolves(t, root, env, b);
    case Case(id, s, z, binder, n) =>
      PlacedResolves(t, root, env, s);
      PlacedResolves(t, root, env, z);
      PlacedUnder(t, root, env, n, binder, id);
    case Let(id, name, v, b) =>
      PlacedResolves(t, root, env, v);
      PlacedUnder(t, root, env, b, name, id);
    case Lambda(_, p, b) => PlacedUnder(t, root, env, b, p.name, p.id);
    case Add(_, l, r) =>
      PlacedResolves(t, root, env, l);
      PlacedResolves(t, root, env, r);
    case Apply(_, f, a) =>
      PlacedResolves(t, root, env, f);
      PlacedResolves(t, root, env, a);
    case Succ(_, v) => PlacedResolves(t, root, env, v);
    case Group(_, v) => PlacedResolves(t, root, env, v);
    case _ =>
  }

  lemma {:induction false} PlacedUnder(t: Tables, root: Scope, env: Env, e: Expr, name: Name, binder: Id)
    requires ExprFixed(t, e) && Get(t.incoming, e.id) == Some(binder) && Proper(e)
    requires Chain(t, root, env) && Fresh(root, env)
    requires binder !in ScopesOf(root, env) && binder !in Binders(e) && Binders(e) !! ScopesOf(root, env)
    requires Get(t.lexical, binder) == Some(Top(root, env)) && Get(t.names, binder) == name
    ensures ResolvesLexically(t, e, With(env, name, binder))
    decreases e, 2
  {
    ExtendChain(t, root, env, name, binder);
    PlacedResolves(t, root, With(env, name, binder), e);
  }

  /** The identities a declaration binds, in order. */
  function DeclarationBinders(d: Declaration): set<Id> {
    if d.Value? then {d.id} + ParamIds(d.parameters) + Binders(d.body) else {}
  }

  function ParamIds(parameters: seq<Param>): set<Id> {
    if parameters == [] then {} else {parameters[0].id} + ParamIds(parameters[1..])
  }

  ghost predicate ParamsProper(parameters: seq<Param>, body: Expr) {
    if parameters == [] then Proper(body)
    else
      && parameters[0].id !in ParamIds(parameters[1..]) + Binders(body)
      && ParamsProper(parameters[1..], body)
  }

  /** Identities along every path of the document are distinct. */
  ghost predicate DocumentProper(declarations: seq<Declaration>, above: set<Id>) {
    declarations != [] ==>
      var d := declarations[0];
      && DeclarationBinders(d) !! above
      && (d.Value? ==> d.id !in ParamIds(d.parameters) + Binders(d.body) && ParamsProper(d.parameters, d.body))
      && DocumentProper(declarations[1..], if d.Value? then above + {d.id} else above)
  }

  lemma {:induction false} ParamsResolve(t: Tables, root: Scope, env: Env, parameters: seq<Param>, body: Expr)
    requires ParamsFixed(t, parameters, Top(root, env), body.id) && ExprFixed(t, body)
    requires Chain(t, root, env) && Fresh(root, env) && ParamsProper(parameters, body)
    requires (ParamIds(parameters) + Binders(body)) !! ScopesOf(root, env)
    ensures ResolvesLexically(t, body, ParamEnv(env, parameters))
    decreases |parameters|
  {
    if parameters == [] {
      PlacedResolves(t, root, env, body);
    } else {
      var p := parameters[0];
      ExtendChain(t, root, env, p.name, p.id);
      ParamsResolve(t, root, With(env, p.name, p.id), parameters[1..], body);
    }
  }

  lemma {:induction false} DeclarationsResolved(t: Tables, root: Scope, env: Env, declarations: seq<Declaration>)
    requires DeclarationsFixed(t, declarations, Top(root, env)) && DocumentProper(declarations, ScopesOf(root, env))
    requires Chain(t, root, env) && Fresh(root, env)
    ensures DeclarationsResolve(t, declarations, env)
    decreases |declarations|
  {
    if declarations != [] {
      var d := declarations[0];
      if d.Value? {
        ExtendChain(t, root, env, d.name, d.id);
        ParamsResolve(t, root, With(env, d.name, d.id), d.parameters, d.body);
        DeclarationsResolved(t, root, With(env, d.name, d.id), declarations[1..]);
      } else {
        DeclarationsResolved(t, root, env, declarations[1..]);
      }
    }
  }

  /** In any fixpoint of the naming equations of a document whose nodes have distinct identities
      along paths, every variable resolves to its nearest enclosing binder, or is unbound. */
  lemma FixpointResolvesLexically(t: Tables, doc: Document)
    requires Fixpoint(t, doc) && DocumentProper(doc.declarations, {doc.id})
    ensures DeclarationsResolve(t, doc.declarations, [])
  {
    DeclarationsResolved(t, doc.id, [], doc.declarations);
  }
}
