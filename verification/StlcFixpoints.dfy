/** The naming fixpoint is exactly the tables that hold what the components emit. */
module StlcFixpoints {
  import opened Wrappers
  import opened StlcSyntax
  import opened StlcNames

  /** The scope emitted for the child at this place, if any. */
  function ScopeFor(effects: NameEffects, i: nat): Option<Scope> {
    if i < |effects.incoming| then Some(effects.incoming[i].1) else None
  }

  /** The children have exactly the scopes emitted for them. */
  ghost predicate HoldsScopes(t: Tables, children: seq<Id>, effects: NameEffects) {
    forall i :: 0 <= i < |children| ==> Get(t.incoming, children[i]) == ScopeFor(effects, i)
  }

  /** A binder has exactly the scope, edge and name emitted for it. */
  ghost predicate HoldsBinder(t: Tables, binder: Id, effects: NameEffects) {
    if effects.binders == [] then Binds(t, binder, None, None)
    else
      var (scope, name, outer) := effects.binders[0];
      scope == binder && Binds(t, binder, name, Some(outer))
  }

  ghost predicate ParamEmitted(t: Tables, p: Param) {
    HoldsBinder(t, p.id, ParamEffects(t, p))
  }

  /** At every node below `e` the tables hold exactly what its component emits. */
  ghost predicate ExprEmitted(t: Tables, e: Expr) {
    && HoldsScopes(t, ChildIds(e), ExprEffects(t, e))
    && (e.Case? || e.Let? ==> HoldsBinder(t, e.id, ExprEffects(t, e)))
    && (e.Lambda? ==> ParamEmitted(t, e.parameter))
    && forall x :: x in Below(e) ==> ExprEmitted(t, x)
  }

  /** The expressions directly below `e`. */
  function Below(e: Expr): (r: seq<Expr>)
    ensures forall x :: x in r ==> x < e
  {
    if e.If? then [e.condition, e.whenTrue, e.whenFalse]
    else if e.Case? then [e.scrutinee, e.zero, e.successor]
    else if e.Let? then [e.value, e.body]
    else if e.Lambda? then [e.body]
    else if e.Add? then [e.left, e.right]
    else if e.Apply? then [e.function0, e.argument]
    else if e.Succ? then [e.value]
    else if e.Group? then [e.inner]
    else []
  }

  function ParamIdList(parameters: seq<Param>): (ids: seq<Id>)
    ensures |ids| == |parameters| && forall i :: 0 <= i < |ids| ==> ids[i] == parameters[i].id
  {
    seq(|parameters|, i requires 0 <= i < |parameters| => parameters[i].id)
  }

  ghost predicate DeclarationEmitted(t: Tables, d: Declaration) {
    if d.Value? then
      && HoldsBinder(t, d.id, DeclarationEffects(t, d))
      && (d.id in t.incoming ==>
            && HoldsScopes(t, ParamIdList(d.parameters) + [d.body.id], DeclarationEffects(t, d))
            && (forall i :: 0 <= i < |d.parameters| ==> ParamEmitted(t, d.parameters[i]))
            && ExprEmitted(t, d.body))
    else Get(t.continuation, d.id) == None
  }

  function DeclarationIds(declarations: seq<Declaration>): (ids: seq<Id>)
    ensures |ids| == |declarations| && forall i :: 0 <= i < |ids| ==> ids[i] == declarations[i].id
  {
    seq(|declarations|, i requires 0 <= i < |declarations| => declarations[i].id)
  }

  /** The document's own scope has no edge and no name; every other node holds what is emitted. */
  ghost predicate DocumentEmitted(t: Tables, doc: Document) {
    && HoldsScopes(t, [doc.id] + DeclarationIds(doc.declarations), DocumentEffects(t, doc))
    && Get(t.lexical, doc.id) == None && Get(t.names, doc.id) == None
    && forall i :: 0 <= i < |doc.declarations| ==> DeclarationEmitted(t, doc.declarations[i])
  }

  // ------------------------------------------------------------------ the equations say the same

  lemma ParamFixedIff(t: Tables, p: Param)
    ensures ParamFixed(t, p) <==> ParamEmitted(t, p)
  {
  }

  /** What the equation of one node asks of the scopes of its children. */
  ghost predicate ScopesFixed(t: Tables, e: Expr) {
    match e
    case If(_, c, a, b) =>
      && Get(t.incoming, c.id) == Get(t.incoming, e.id) && Get(t.incoming, a.id) == Get(t.incoming, e.id)
      && Get(t.incoming, b.id) == Get(t.incoming, e.id)
    case Case(id, s, z, _, n) =>
      && Get(t.incoming, s.id) == Get(t.incoming, e.id) && Get(t.incoming, z.id) == Get(t.incoming, e.id)
      && Get(t.incoming, n.id) == (if e.id in t.incoming then Some(id) else None)
    case Let(id, _, v, b) =>
      && Get(t.incoming, v.id) == Get(t.incoming, e.id)
      && Get(t.incoming, b.id) == (if e.id in t.incoming then Some(id) else None)
    case Lambda(_, p, b) =>
      && Get(t.incoming, p.id) == Get(t.incoming, e.id)
      && Get(t.incoming, b.id)
         == (if e.id in t.incoming then OrElse(Get(t.continuation, p.id), Get(t.incoming, e.id)) else None)
    case Add(_, l, r) =>
      Get(t.incoming, l.id) == Get(t.incoming, e.id) && Get(t.incoming, r.id) == Get(t.incoming, e.id)
    case Apply(_, f, a) =>
      Get(t.incoming, f.id) == Get(t.incoming, e.id) && Get(t.incoming, a.id) == Get(t.incoming, e.id)
    case Succ(_, v) => Get(t.incoming, v.id) == Get(t.incoming, e.id)
    case Group(_, v) => Get(t.incoming, v.id) == Get(t.incoming, e.id)
    case _ => true
  }

  lemma NodeHolds(t: Tables, e: Expr)
    ensures HoldsScopes(t, ChildIds(e), ExprEffects(t, e)) <==> ScopesFixed(t, e)
  {
    var ids, effects := ChildIds(e), ExprEffects(t, e);
    if |ids| > 0 && HoldsScopes(t, ids, effects) {
      assert Get(t.incoming, ids[0]) == ScopeFor(effects, 0);
      assert |ids| > 1 ==> Get(t.incoming, ids[1]) == ScopeFor(effects, 1);
      assert |ids| > 2 ==> Get(t.incoming, ids[2]) == ScopeFor(effects, 2);
    }
  }

  ghost predicate BelowFixed(t: Tables, e: Expr) {
    forall x :: x in Below(e) ==> ExprFixed(t, x)
  }

  /** The equation of a node and the equations below it. */
  lemma NodeFixedIff(t: Tables, e: Expr)
    ensures ExprFixed(t, e) <==>
      && HoldsScopes(t, ChildIds(e), ExprEffects(t, e))
      && (e.Case? || e.Let? ==> HoldsBinder(t, e.id, ExprEffects(t, e)))
      && (e.Lambda? ==> ParamEmitted(t, e.parameter))
      && BelowFixed(t, e)
  {
    NodeHolds(t, e);
    BelowParts(t, e);
    if e.Lambda? { ParamFixedIff(t, e.parameter); }
  }

  ghost predicate PartsFixed(t: Tables, e: Expr) {
    match e
    case If(_, c, a, b) => ExprFixed(t, c) && ExprFixed(t, a) && ExprFixed(t, b)
    case Case(_, s, z, _, n) => ExprFixed(t, s) && ExprFixed(t, z) && ExprFixed(t, n)
    case Let(_, _, v, b) => ExprFixed(t, v) && ExprFixed(t, b)
    case Lambda(_, _, b) => ExprFixed(t, b)
    case Add(_, l, r) => ExprFixed(t, l) && ExprFixed(t, r)
    case Apply(_, f, a) => ExprFixed(t, f) && ExprFixed(t, a)
    case Succ(_, v) => ExprFixed(t, v)
    case Group(_, v) => ExprFixed(t, v)
    case _ => true
  }

  lemma BelowParts(t: Tables, e: Expr)
    ensures BelowFixed(t, e) <==> PartsFixed(t, e)
  {
    var xs := Below(e);
    assert |xs| > 0 ==> xs[0] in xs;
    assert |xs| > 1 ==> xs[1] in xs;
    assert |xs| > 2 ==> xs[2] in xs;
  }

  lemma {:induction false} ExprFixedIff(t: Tables, e: Expr)
    ensures ExprFixed(t, e) <==> ExprEmitted(t, e)
    decreases e
  {
    NodeFixedIff(t, e);
    forall x | x in Below(e) ensures ExprFixed(t, x) <==> ExprEmitted(t, x) {
      ExprFixedIff(t, x);
    }
  }

  /** Every child has the scope listed for it. */
  ghost predicate HoldsList(t: Tables, scopes: seq<(Id, Scope)>) {
    forall i :: 0 <= i < |scopes| ==> Get(t.incoming, scopes[i].0) == Some(scopes[i].1)
  }

  lemma ListCons(t: Tables, first: (Id, Scope), rest: seq<(Id, Scope)>)
    ensures HoldsList(t, [first] + rest) <==> Get(t.incoming, first.0) == Some(first.1) && HoldsList(t, rest)
  {
    var all := [first] + rest;
    assert forall i :: 0 <= i < |rest| ==> all[i + 1] == rest[i];
    assert forall i :: 0 < i < |all| ==> all[i] == rest[i - 1];
    assert all[0] == first;
  }

  lemma ListHolds(t: Tables, ids: seq<Id>, effects: NameEffects)
    requires |ids| == |effects.incoming| && forall i :: 0 <= i < |ids| ==> effects.incoming[i].0 == ids[i]
    ensures HoldsScopes(t, ids, effects) <==> HoldsList(t, effects.incoming)
  {
    if HoldsScopes(t, ids, effects) {
      forall i | 0 <= i < |ids| ensures Get(t.incoming, effects.incoming[i].0) == Some(effects.incoming[i].1) {
        assert Get(t.incoming, ids[i]) == ScopeFor(effects, i);
      }
    }
    if HoldsList(t, effects.incoming) {
      forall i | 0 <= i < |ids| ensures Get(t.incoming, ids[i]) == ScopeFor(effects, i) {
        assert Get(t.incoming, effects.incoming[i].0) == Some(effects.incoming[i].1);
      }
    }
  }

  ghost predicate AllParamsEmitted(t: Tables, parameters: seq<Param>) {
    forall i :: 0 <= i < |parameters| ==> ParamEmitted(t, parameters[i])
  }

  lemma {:induction false} ParamsFixedIff(t: Tables, parameters: seq<Param>, scope: Scope, body: Id)
    ensures ParamsFixed(t, parameters, scope, body) <==>
      HoldsList(t, ParamScopes(t, parameters, scope, body)) && AllParamsEmitted(t, parameters)
    decreases |parameters|
  {
    if parameters == [] {
      assert ParamScopes(t, parameters, scope, body) == [(body, scope)] + [];
      ListCons(t, (body, scope), []);
    } else {
      var p, rest := parameters[0], parameters[1..];
      var next := OrElse(Get(t.continuation, p.id), Some(scope)).value;
      ParamsFixedIff(t, rest, next, body);
      ParamFixedIff(t, p);
      ListCons(t, (p.id, scope), ParamScopes(t, rest, next, body));
      AllCons(t, p, rest);
      assert parameters == [p] + rest;
    }
  }

  lemma AllCons(t: Tables, p: Param, rest: seq<Param>)
    ensures AllParamsEmitted(t, [p] + rest) <==> ParamEmitted(t, p) && AllParamsEmitted(t, rest)
  {
    var all := [p] + rest;
    assert forall i :: 0 <= i < |rest| ==> all[i + 1] == rest[i];
    assert forall i :: 0 < i < |all| ==> all[i] == rest[i - 1];
    assert all[0] == p;
  }

  lemma DeclarationFixedIff(t: Tables, d: Declaration)
    ensures DeclarationFixed(t, d) <==> DeclarationEmitted(t, d)
  {
    if d.Value? && d.id in t.incoming {
      ParamsFixedIff(t, d.parameters, d.id, d.body.id);
      ExprFixedIff(t, d.body);
      ListHolds(t, ParamIdList(d.parameters) + [d.body.id], DeclarationEffects(t, d));
    }
  }

  ghost predicate AllEmitted(t: Tables, declarations: seq<Declaration>) {
    forall i :: 0 <= i < |declarations| ==> DeclarationEmitted(t, declarations[i])
  }

  lemma {:induction false} DeclarationsFixedIff(t: Tables, declarations: seq<Declaration>, current: Scope)
    ensures DeclarationsFixed(t, declarations, current) <==>
      HoldsList(t, DeclarationScopes(t, declarations, current)) && AllEmitted(t, declarations)
    decreases |declarations|
  {
    if declarations != [] {
      var d, rest := declarations[0], declarations[1..];
      var next := OrElse(Get(t.continuation, d.id), Some(current)).value;
      DeclarationsFixedIff(t, rest, next);
      DeclarationFixedIff(t, d);
      ListCons(t, (d.id, current), DeclarationScopes(t, rest, next));
      EmittedCons(t, d, rest);
      assert declarations == [d] + rest;
    }
  }

  lemma EmittedCons(t: Tables, d: Declaration, rest: seq<Declaration>)
    ensures AllEmitted(t, [d] + rest) <==> DeclarationEmitted(t, d) && AllEmitted(t, rest)
  {
    var all := [d] + rest;
    assert forall i :: 0 <= i < |rest| ==> all[i + 1] == rest[i];
    assert forall i :: 0 < i < |all| ==> all[i] == rest[i - 1];
    assert all[0] == d;
  }

  /** The tables of a document are a fixpoint iff they hold exactly what the naming components emit
      at every node. */
  lemma FixpointIff(t: Tables, doc: Document)
    ensures DocumentEmitted(t, doc) <==> Fixpoint(t, doc) && Get(t.incoming, doc.id) == Some(doc.id)
  {
    var effects := DocumentEffects(t, doc);
    DeclarationsFixedIff(t, doc.declarations, doc.id);
    ListHolds(t, [doc.id] + DeclarationIds(doc.declarations), effects);
    ListCons(t, (doc.id, doc.id), DeclarationScopes(t, doc.declarations, doc.id));
  }
}
