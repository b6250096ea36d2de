/** Flattened function types of the STLC checker and their curried reading. */
module StlcTypes {
  import opened Wrappers

  /** `StlcTypeValue`: functions carry all their parameters at once. */
  datatype TypeValue = Nat | Bool | Unit | Function(parameters: seq<TypeValue>, result: TypeValue)

  /** Types of the simply typed lambda calculus. */
  datatype SimpleType = SNat | SBool | SUnit | Arrow(from: SimpleType, to: SimpleType)

  /** Function types the checker builds: at least one parameter, and a result that is no function. */
  predicate Flat(t: TypeValue) {
    t.Function? ==>
      && t.parameters != [] && !t.result.Function?
      && forall i :: 0 <= i < |t.parameters| ==> Flat(t.parameters[i])
  }

  // ------------------------------------------------------------------ the operations

  /** `StlcTypeValue::function`: absorbs the parameters of a function result. */
  function MakeFunction(parameters: seq<TypeValue>, result: TypeValue): TypeValue {
    var all := if result.Function? then parameters + result.parameters else parameters;
    var last := if result.Function? then result.result else result;
    if all == [] then last else Function(all, last)
  }

  /** The type built curries to the arrows from the parameters to the result, and stays flat. */
  method BuildFunction(parameters: seq<TypeValue>, result: TypeValue) returns (r: TypeValue)
    ensures Curry(r) == Arrows(parameters, Curry(result))
    ensures Flat(result) && (forall i :: 0 <= i < |parameters| ==> Flat(parameters[i])) ==> Flat(r)
    ensures r == MakeFunction(parameters, result)
  {
    FunctionCurries(parameters, result);
    var all, last := parameters, result;
    if result.Function? {
      all := all + result.parameters;
      last := result.result;
    }
    r := if all == [] then last else Function(all, last);
  }

  /** `apply_one` */
  function ApplyOne(t: TypeValue): Option<TypeValue>
    requires t.Function? ==> t.parameters != []
  {
    if !t.Function? then None
    else if |t.parameters| == 1 then Some(t.result)
    else Some(Function(t.parameters[1..], t.result))
  }

  /** `function_parts` */
  function FunctionParts(t: TypeValue): Option<(seq<TypeValue>, TypeValue)> {
    if t.Function? then Some((t.parameters, t.result)) else None
  }

  // ------------------------------------------------------------------ currying

  function Curry(t: TypeValue): SimpleType
    decreases t, 0
  {
    match t
    case Nat => SNat
    case Bool => SBool
    case Unit => SUnit
    case Function(parameters, result) => Arrows(parameters, Curry(result))
  }

  function Arrows(parameters: seq<TypeValue>, to: SimpleType): SimpleType
    decreases parameters, 0
  {
    if parameters == [] then to else Arrow(Curry(parameters[0]), Arrows(parameters[1..], to))
  }

  function Flatten(s: SimpleType): TypeValue {
    match s
    case SNat => Nat
    case SBool => Bool
    case SUnit => Unit
    case Arrow(from, to) => MakeFunction([Flatten(from)], Flatten(to))
  }

  lemma {:induction false} ArrowsConcat(a: seq<TypeValue>, b: seq<TypeValue>, to: SimpleType)
    ensures Arrows(a + b, to) == Arrows(a, Arrows(b, to))
    decreases |a|
  {
    if a == [] {
      assert a + b == b;
    } else {
      assert (a + b)[0] == a[0] && (a + b)[1..] == a[1..] + b;
      ArrowsConcat(a[1..], b, to);
    }
  }

  /** Building a function type curries to the arrows from its parameters to its result. */
  lemma FunctionCurries(parameters: seq<TypeValue>, result: TypeValue)
    ensures Curry(MakeFunction(parameters, result)) == Arrows(parameters, Curry(result))
  {
    if result.Function? { ArrowsConcat(parameters, result.parameters, Curry(result.result)); }
  }

  lemma OneArrow(a: TypeValue, b: TypeValue)
    ensures Curry(MakeFunction([a], b)) == Arrow(Curry(a), Curry(b))
  {
    FunctionCurries([a], b);
    assert [a][1..] == [];
  }

  lemma {:induction false} FunctionFlat(parameters: seq<TypeValue>, result: TypeValue)
    requires Flat(result) && forall i :: 0 <= i < |parameters| ==> Flat(parameters[i])
    ensures Flat(MakeFunction(parameters, result))
  {
  }

  /** Flattening and currying are inverse: flat types are exactly the simple types. */
  lemma {:induction false} FlattenCurry(s: SimpleType)
    ensures Flat(Flatten(s)) && Curry(Flatten(s)) == s
  {
    if s.Arrow? {
      FlattenCurry(s.from);
      FlattenCurry(s.to);
      OneArrow(Flatten(s.from), Flatten(s.to));
      FunctionFlat([Flatten(s.from)], Flatten(s.to));
    }
  }

  lemma {:induction false} CurryFlatten(t: TypeValue)
    requires Flat(t)
    ensures Flatten(Curry(t)) == t
    decreases t, 0
  {
    if t.Function? {
      CurryFlatten(t.result);
      FlattenArrows(t.parameters, t.result);
    }
  }

  lemma {:induction false} FlattenArrows(parameters: seq<TypeValue>, result: TypeValue)
    requires !result.Function? && Flatten(Curry(result)) == result
    requires forall i :: 0 <= i < |parameters| ==> Flat(parameters[i])
    ensures Flatten(Arrows(parameters, Curry(result)))
         == if parameters == [] then result else Function(parameters, result)
    decreases parameters, 0
  {
    if parameters != [] {
      CurryFlatten(parameters[0]);
      FlattenArrows(parameters[1..], result);
      assert [parameters[0]] + parameters[1..] == parameters;
      if parameters[1..] == [] { assert [parameters[0]] == parameters; }
    }
  }

  /** Equality of flat types is equality of the simple types they stand for. */
  lemma CurryInjective(a: TypeValue, b: TypeValue)
    requires Flat(a) && Flat(b) && Curry(a) == Curry(b)
    ensures a == b
  {
    CurryFlatten(a);
    CurryFlatten(b);
  }

  /** `apply_one` undoes `function([a], b)`. */
  lemma ApplyUndoesFunction(a: TypeValue, b: TypeValue)
    requires Flat(b)
    ensures ApplyOne(MakeFunction([a], b)) == Some(b)
  {
    if b.Function? {
      assert ([a] + b.parameters)[1..] == b.parameters;
    }
  }

  /** On flat types `apply_one` peels exactly the outermost arrow. */
  lemma {:induction false} ApplyPeels(t: TypeValue)
    requires Flat(t)
    ensures ApplyOne(t).Some? <==> Curry(t).Arrow?
    ensures t.Function? ==>
      && Curry(t) == Arrow(Curry(t.parameters[0]), Curry(ApplyOne(t).value)) && Flat(ApplyOne(t).value)
  {
    if t.Function? {
      var rest := t.parameters[1..];
      assert Curry(t) == Arrow(Curry(t.parameters[0]), Arrows(rest, Curry(t.result)));
      assert forall i :: 0 <= i < |rest| ==> rest[i] == t.parameters[i + 1];
      if |t.parameters| == 1 { assert rest == []; }
    }
  }
}
