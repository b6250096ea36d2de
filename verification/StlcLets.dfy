/** What the checker gets wrong about `let`: the binder carries the type of the whole `let` node. */
module StlcLets {
  import opened Wrappers
  import opened StlcSyntax
  import opened StlcNames
  import opened StlcTypes
  import opened StlcTyping
  import opened StlcCheck

  /** The exact condition for one `let` around a let-free body: a clean fixpoint is right iff the
      binder is unused or the value has the type of the whole. */
  lemma OneLetIff(c: Checked, t: Tables, env: Env, g: Context, parent: Id, e: Expr)
    requires e.Let? && LetsUnused(e.value) && LetFree(e.body)
    requires AllFlat(c) && ExprChecked(c, t, parent, e) && Clean(c, e)
    requires ResolvesLexically(t, e, env) && Agrees(c, env, g)
    ensures HasType(g, e, Curry(TypeOf(c, e.id).value)) <==>
      UnusedIn(e.name, e.body) || TypeOf(c, e.id) == TypeOf(c, e.value.id)
  {
    LetFreeUnused(e.body);
    UnusedSafe(c, e.value);
    UnusedSafe(c, e.body);
    var whole := Curry(TypeOf(c, e.id).value);
    if UnusedIn(e.name, e.body) || TypeOf(c, e.id) == TypeOf(c, e.value.id) {
      Sound(c, t, env, g, parent, e);
    } else if HasType(g, e, whole) {
      var bound :| HasType(g, e.value, bound) && HasType(g + [(e.name, bound)], e.body, whole);
      Sound(c, t, env, g, e.id, e.value);
      TypesUnique(g, e.value, bound, Curry(TypeOf(c, e.value.id).value));
      SilentNode(c, parent, e.id, Synth(c, e, Wanted(c, parent, e.id)));
      AgreesWith(c, env, g, e.name, e.id, whole);
      Sound(c, t, With(env, e.name, e.id), g + [(e.name, whole)], e.id, e.body);
      NameFixed(g, e.name, whole, bound, e.body, whole);
      SameKnown(c, e.id, e.value.id);
    }
  }

  lemma SameKnown(c: Checked, a: Id, b: Id)
    requires AllFlat(c) && TypeOf(c, a).Some? && TypeOf(c, b).Some?
    requires Curry(TypeOf(c, a).value) == Curry(TypeOf(c, b).value)
    ensures TypeOf(c, a) == TypeOf(c, b)
  {
    KnownFlat(c, a);
    KnownFlat(c, b);
    CurryInjective(TypeOf(c, a).value, TypeOf(c, b).value);
  }

  lemma {:induction false} LetFreeUnused(e: Expr)
    requires LetFree(e)
    ensures LetsUnused(e)
  {
    match e
    case If(_, b, x, y) =>
      LetFreeUnused(b);
      LetFreeUnused(x);
      LetFreeUnused(y);
    case Case(_, s, z, _, n) =>
      LetFreeUnused(s);
      LetFreeUnused(z);
      LetFreeUnused(n);
    case Lambda(_, _, b) => LetFreeUnused(b);
    case Add(_, l, r) =>
      LetFreeUnused(l);
      LetFreeUnused(r);
    case Apply(_, f, a) =>
      LetFreeUnused(f);
      LetFreeUnused(a);
    case Succ(_, v) => LetFreeUnused(v);
    case Group(_, v) => LetFreeUnused(v);
    case _ =>
  }

  // ------------------------------------------------------------------ one let anywhere

  /** At most one `let` uses its binder, its body has no other one, and it lies in no value of a
      `let`. */
  predicate OneLet(e: Expr) {
    match e
    case If(_, b, x, y) =>
      || (OneLet(b) && LetsUnused(x) && LetsUnused(y))
      || (LetsUnused(b) && OneLet(x) && LetsUnused(y))
      || (LetsUnused(b) && LetsUnused(x) && OneLet(y))
    case Case(_, s, z, _, n) =>
      || (OneLet(s) && LetsUnused(z) && LetsUnused(n))
      || (LetsUnused(s) && OneLet(z) && LetsUnused(n))
      || (LetsUnused(s) && LetsUnused(z) && OneLet(n))
    case Let(_, name, v, b) => LetsUnused(v) && (LetFree(b) || (UnusedIn(name, b) && OneLet(b)))
    case Lambda(_, _, b) => OneLet(b)
    case Add(_, l, r) => (OneLet(l) && LetsUnused(r)) || (LetsUnused(l) && OneLet(r))
    case Apply(_, f, a) => (OneLet(f) && LetsUnused(a)) || (LetsUnused(f) && OneLet(a))
    case Succ(_, v) => OneLet(v)
    case Group(_, v) => OneLet(v)
    case _ => true
  }

  ghost predicate CleanAt(c: Checked, t: Tables, env: Env, g: Context, parent: Id, e: Expr) {
    && AllFlat(c) && ExprChecked(c, t, parent, e) && Clean(c, e)
    && ResolvesLexically(t, e, env) && Agrees(c, env, g)
  }

  ghost predicate HasOwnType(c: Checked, g: Context, e: Expr) {
    TypeOf(c, e.id).Some? && HasType(g, e, Curry(TypeOf(c, e.id).value))
  }

  /** A clean node agrees with what is asked of it. */
  lemma Asked(c: Checked, t: Tables, parent: Id, e: Expr)
    requires AllFlat(c) && ExprChecked(c, t, parent, e) && Clean(c, e)
    ensures TypeOf(c, e.id).Some?
    ensures Wanted(c, parent, e.id).Some? ==> Wanted(c, parent, e.id) == TypeOf(c, e.id)
    ensures var r := Synth(c, e, Wanted(c, parent, e.id));
      && r.value == TypeOf(c, e.id)
      && forall k :: 0 <= k < |r.asks| ==> Wanted(c, e.id, r.asks[k].0) == r.asks[k].1
  {
    SilentNode(c, parent, e.id, Synth(c, e, Wanted(c, parent, e.id)));
  }

  /** A part is right: either it uses no `let`, or the derivation around it says so. */
  lemma {:induction false} PartRight(c: Checked, t: Tables, env: Env, g: Context, parent: Id, e: Expr)
    requires CleanAt(c, t, env, g, parent, e) && (LetsUnused(e) || (OneLet(e) && HasOwnType(c, g, e)))
    ensures LetsSafe(c, e)
    decreases e, 2
  {
    if LetsUnused(e) { UnusedSafe(c, e); } else { TypedRight(c, t, env, g, parent, e); }
  }

  /** If the published type is derivable, the `let` is right. */
  lemma {:induction false} TypedRight(c: Checked, t: Tables, env: Env, g: Context, parent: Id, e: Expr)
    requires CleanAt(c, t, env, g, parent, e) && OneLet(e) && HasOwnType(c, g, e)
    ensures LetsSafe(c, e)
    decreases e, 1
  {
    Asked(c, t, parent, e);
    match e
    case If(_, _, _, _) => IfRight(c, t, env, g, parent, e);
    case Case(_, _, _, _, _) => CaseRight(c, t, env, g, parent, e);
    case Let(_, _, _, _) => LetRight(c, t, env, g, parent, e);
    case Lambda(_, _, _) => LambdaRight(c, t, env, g, parent, e);
    case Add(_, _, _) => AddRight(c, t, env, g, parent, e);
    case Apply(_, _, _) => ApplyRight(c, t, env, g, parent, e);
    case Succ(id, v) =>
      var r := Synth(c, e, Wanted(c, parent, id));
      assert r.asks[0] == (v.id, Some(Nat));
      Asked(c, t, id, v);
      PartRight(c, t, env, g, id, v);
    case Group(id, v) =>
      Asked(c, t, id, v);
      PartRight(c, t, env, g, id, v);
    case _ =>
  }

  lemma {:induction false} AddRight(c: Checked, t: Tables, env: Env, g: Context, parent: Id, e: Expr)
    requires e.Add? && CleanAt(c, t, env, g, parent, e) && OneLet(e) && HasOwnType(c, g, e)
    ensures LetsSafe(c, e)
    decreases e, 0
  {
    var r := Synth(c, e, Wanted(c, parent, e.id));
    Asked(c, t, parent, e);
    assert r.asks[0] == (e.left.id, Some(Nat)) && r.asks[1] == (e.right.id, Some(Nat));
    Asked(c, t, e.id, e.left);
    Asked(c, t, e.id, e.right);
    PartRight(c, t, env, g, e.id, e.left);
    PartRight(c, t, env, g, e.id, e.right);
  }

  lemma {:induction false} IfRight(c: Checked, t: Tables, env: Env, g: Context, parent: Id, e: Expr)
    requires e.If? && CleanAt(c, t, env, g, parent, e) && OneLet(e) && HasOwnType(c, g, e)
    ensures LetsSafe(c, e)
    decreases e, 0
  {
    var r := Synth(c, e, Wanted(c, parent, e.id));
    Asked(c, t, parent, e);
    assert r.asks[0] == (e.condition.id, Some(Bool));
    Asked(c, t, e.id, e.condition);
    PartRight(c, t, env, g, e.id, e.condition);
    PartRight(c, t, env, g, e.id, e.whenTrue);
    PartRight(c, t, env, g, e.id, e.whenFalse);
  }

  lemma {:induction false} CaseRight(c: Checked, t: Tables, env: Env, g: Context, parent: Id, e: Expr)
    requires e.Case? && CleanAt(c, t, env, g, parent, e) && OneLet(e) && HasOwnType(c, g, e)
    ensures LetsSafe(c, e)
    decreases e, 0
  {
    var r := Synth(c, e, Wanted(c, parent, e.id));
    Asked(c, t, parent, e);
    assert r.asks[0] == (e.scrutinee.id, Some(Nat));
    Asked(c, t, e.id, e.scrutinee);
    PartRight(c, t, env, g, e.id, e.scrutinee);
    PartRight(c, t, env, g, e.id, e.zero);
    AgreesWith(c, env, g, e.binder, e.id, SNat);
    PartRight(c, t, With(env, e.binder, e.id), g + [(e.binder, SNat)], e.id, e.successor);
  }

  lemma {:induction false} LambdaRight(c: Checked, t: Tables, env: Env, g: Context, parent: Id, e: Expr)
    requires e.Lambda? && CleanAt(c, t, env, g, parent, e) && OneLet(e) && HasOwnType(c, g, e)
    ensures LetsSafe(c, e)
    decreases e, 0
  {
    var p, b := e.parameter, e.body;
    Asked(c, t, parent, e);
    ParamSound(c, e.id, p);
    var from := TypeOf(c, p.id).value;
    OneArrow(from, TypeOf(c, b.id).value);
    AgreesWith(c, env, g, p.name, p.id, Curry(from));
    PartRight(c, t, With(env, p.name, p.id), g + [(p.name, Curry(from))], e.id, b);
  }

  lemma {:induction false} LetRight(c: Checked, t: Tables, env: Env, g: Context, parent: Id, e: Expr)
    requires e.Let? && CleanAt(c, t, env, g, parent, e) && OneLet(e) && HasOwnType(c, g, e)
    ensures LetsSafe(c, e)
    decreases e, 0
  {
    UnusedSafe(c, e.value);
    if LetFree(e.body) {
      LetFreeUnused(e.body);
      UnusedSafe(c, e.body);
      OneLetIff(c, t, env, g, parent, e);
    } else {
      var whole := Curry(TypeOf(c, e.id).value);
      var bound :| HasType(g, e.value, bound) && HasType(g + [(e.name, bound)], e.body, whole);
      Asked(c, t, parent, e);
      Unused(g, e.name, bound, whole, e.body, whole);
      AgreesWith(c, env, g, e.name, e.id, whole);
      PartRight(c, t, With(env, e.name, e.id), g + [(e.name, whole)], e.id, e.body);
    }
  }

  lemma {:induction false} ApplyRight(c: Checked, t: Tables, env: Env, g: Context, parent: Id, e: Expr)
    requires e.Apply? && CleanAt(c, t, env, g, parent, e) && OneLet(e) && HasOwnType(c, g, e)
    ensures LetsSafe(c, e)
    decreases e, 0
  {
    var f, a := e.function0, e.argument;
    ApplyTypes(c, t, env, g, parent, e);
    PartRight(c, t, env, g, e.id, f);
    PartRight(c, t, env, g, e.id, a);
  }

  /** The derivation of an application gives both parts their published types. */
  lemma ApplyTypes(c: Checked, t: Tables, env: Env, g: Context, parent: Id, e: Expr)
    requires e.Apply? && CleanAt(c, t, env, g, parent, e) && OneLet(e) && HasOwnType(c, g, e)
    ensures HasOwnType(c, g, e.function0) && HasOwnType(c, g, e.argument)
  {
    var f, a := e.function0, e.argument;
    var whole := Curry(TypeOf(c, e.id).value);
    var from :| HasType(g, f, SimpleType.Arrow(from, whole)) && HasType(g, a, from);
    Asked(c, t, parent, e);
    Asked(c, t, e.id, f);
    Asked(c, t, e.id, a);
    var ft := TypeOf(c, f.id).value;
    KnownFlat(c, f.id);
    ApplyPeels(ft);
    assert Synth(c, e, Wanted(c, parent, e.id)).asks[1] == (a.id, FirstParameter(Some(ft)));
    assert Curry(ft) == SimpleType.Arrow(Curry(TypeOf(c, a.id).value), whole);
    if LetsUnused(f) {
      UnusedSafe(c, f);
      Sound(c, t, env, g, e.id, f);
      TypesUnique(g, f, Curry(ft), SimpleType.Arrow(from, whole));
    } else {
      UnusedSafe(c, a);
      Sound(c, t, env, g, e.id, a);
      TypesUnique(g, a, Curry(TypeOf(c, a.id).value), from);
    }
  }

  /** The exact condition for a term in which at most one `let` uses its binder, wherever it is: a
      clean fixpoint is right iff that `let` has the type of its value. */
  lemma OneLetAnywhereIff(c: Checked, t: Tables, env: Env, g: Context, parent: Id, e: Expr)
    requires OneLet(e) && CleanAt(c, t, env, g, parent, e)
    ensures HasType(g, e, Curry(TypeOf(c, e.id).value)) <==> LetsSafe(c, e)
  {
    if LetsSafe(c, e) { Sound(c, t, env, g, parent, e); }
    if HasType(g, e, Curry(TypeOf(c, e.id).value)) { TypedRight(c, t, env, g, parent, e); }
  }

  // ------------------------------------------------------------------ a term that is wrongly accepted

  /** `let x = true in succ x` */
  function BadLet(): Expr {
    Let(10, Some("x"), True(11), Succ(12, Variable(13, Some("x"))))
  }

  /** Every fixpoint of the checker on this term is clean, at type Nat, although the term has no
      type at all. */
  lemma LetUnsound(c: Checked, t: Tables)
    requires ExprFixed(t, BadLet()) && Get(t.incoming, 10) == Some(1)
    requires AllFlat(c) && ExprChecked(c, t, 1, BadLet()) && Wanted(c, 1, 10) == None
    ensures Clean(c, BadLet()) && TypeOf(c, 10) == Some(Nat)
    ensures forall s :: !HasType([], BadLet(), s)
  {
    var e := BadLet();
    var body := e.body;
    var whole, inside := Synth(c, e, None), Synth(c, body, None);
    assert whole.asks[0] == (11, None) && whole.asks[1] == (12, None);
    assert inside.asks[0] == (13, Some(Nat));
    assert Publishes(c, 10, 12, inside) && TypeOf(c, 12) == Some(Nat);
    assert Resolve(t, 10, "x") == Resolved(10);
    assert Defined(c, 10) == Some(Nat);
    assert Synth(c, body.value, Some(Nat)) == Effects(Some(Nat), [], []);
    forall s ensures !HasType([], e, s) { BadLetUntyped(s); }
  }

  lemma BadLetUntyped(s: SimpleType)
    ensures !HasType([], BadLet(), s)
  {
    var e := BadLet();
    var g: Context := [];
    forall bound | HasType(g, e.value, bound) ensures !HasType(g + [(e.name, bound)], e.body, s) {
      AssignedWith(g, e.name, bound, "x");
    }
  }

  /** Such a fixpoint exists. */
  lemma LetFixpoint() returns (c: Checked, t: Tables)
    ensures ExprFixed(t, BadLet()) && Get(t.incoming, 10) == Some(1)
    ensures AllFlat(c) && ExprChecked(c, t, 1, BadLet()) && Wanted(c, 1, 10) == None
  {
    var e := BadLet();
    t := Tables(map[10 := 1, 11 := 1, 12 := 10, 13 := 10], map[10 := 10], map[10 := 1], map[10 := "x"]);
    c := Checked(map[10 := Some(Nat), 11 := Some(Bool), 12 := Some(Nat), 13 := Some(Nat)], map[(12, 13) := Nat],
      map[10 := Some(Nat)], map[10 := [], 11 := [], 12 := [], 13 := []], map[13 := Resolved(10)]);
    assert Resolve(t, 10, "x") == Resolved(10);
    assert AllFlat(c);
    assert Publishes(c, 10, 11, Synth(c, e.value, None));
    assert Publishes(c, 12, 13, Synth(c, e.body.value, Some(Nat)));
    assert Publishes(c, 10, 12, Synth(c, e.body, None));
    assert Publishes(c, 1, 10, Synth(c, e, None));
  }
}
