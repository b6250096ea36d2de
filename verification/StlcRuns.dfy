/** The checking components as steps on the published tables: flatness over whole runs, and
    fixpoints as the tables that no step changes. */
module StlcRuns {
  import opened Wrappers
  import opened StlcSyntax
  import opened StlcNames
  import opened StlcTypes
  import opened StlcCheck

  datatype Component =
    | OfExpr(e: Expr)
    | OfType(t: TypeExpr)
    | OfAtom(a: TypeAtom)
    | OfParam(p: Param)
    | OfDeclaration(d: Declaration)
  {
    function Id(): Id {
      match this
      case OfExpr(e) => e.id
      case OfType(t) => t.id
      case OfAtom(a) => a.id
      case OfParam(p) => p.id
      case OfDeclaration(d) => d.id
    }
  }

  /** What a component publishes before `finish`. */
  function Found(c: Checked, k: Component, want: Option<TypeValue>): Effects
    requires AllFlat(c)
  {
    match k
    case OfExpr(e) => Synth(c, e, want)
    case OfType(t) => SynthType(c, t)
    case OfAtom(a) => SynthAtom(c, a)
    case OfParam(p) => SynthParam(c, p)
    case OfDeclaration(d) => if d.Value? then SynthDeclaration(c, d) else Effects(None, [], [])
  }

  // ------------------------------------------------------------------ flat effects

  /** From flat tables every component publishes and asks for flat types only. */
  lemma ComponentFlat(c: Checked, k: Component, want: Option<TypeValue>)
    requires AllFlat(c) && (want.Some? ==> Flat(want.value))
    ensures EffectsFlat(Found(c, k, want)) && EffectsFlat(Finish(Found(c, k, want), want))
  {
    match k
    case OfExpr(e) => SynthNodeFlat(c, e, want);
    case OfType(t) => TypeFlat(c, t);
    case OfAtom(_) =>
    case OfParam(_) =>
    case OfDeclaration(d) => if d.Value? { DeclarationFlat(c, d); }
  }

  lemma TypeFlat(c: Checked, t: TypeExpr)
    requires AllFlat(c)
    ensures EffectsFlat(SynthType(c, t))
  {
    if t.Arrow? && TypeOf(c, t.left.id).Some? && TypeOf(c, t.right.id).Some? {
      FunctionFlat([TypeOf(c, t.left.id).value], TypeOf(c, t.right.id).value);
    }
  }

  lemma {:induction false} AbstractedFlat(c: Checked, parameters: seq<Param>, body: Option<TypeValue>)
    requires AllFlat(c) && (body.Some? ==> Flat(body.value))
    ensures Abstracted(c, parameters, body).Some? ==> Flat(Abstracted(c, parameters, body).value)
    decreases |parameters|
  {
    if parameters != [] {
      AbstractedFlat(c, parameters[1..], body);
      var first, rest := TypeOf(c, parameters[0].id), Abstracted(c, parameters[1..], body);
      if first.Some? && rest.Some? { FunctionFlat([first.value], rest.value); }
    }
  }

  lemma DeclarationFlat(c: Checked, d: Declaration)
    requires AllFlat(c) && d.Value?
    ensures EffectsFlat(SynthDeclaration(c, d))
  {
    AbstractedFlat(c, d.parameters, TypeOf(c, d.body.id));
  }

  // ------------------------------------------------------------------ steps

  type Asks = seq<(Id, Option<TypeValue>)>

  /** The expectations of `parent` after it asked: a missing type removes the entry. */
  function Asked(wanted: map<(Id, Id), TypeValue>, parent: Id, asks: Asks): map<(Id, Id), TypeValue> {
    if asks == [] then wanted
    else
      var before, last := Asked(wanted, parent, asks[..|asks| - 1]), asks[|asks| - 1];
      if last.1.Some? then before[(parent, last.0) := last.1.value] else before - {(parent, last.0)}
  }

  function Written(c: Checked, id: Id, r: Effects): Checked {
    c.(synthesized := c.synthesized[id := r.value], wanted := Asked(c.wanted, id, r.asks),
       diagnostics := c.diagnostics[id := r.errors])
  }

  /** `Publish` runs a synthesis component, `Define` the definition component of a binder, `Refer`
      name resolution; `Forget` is the retraction of a node. */
  datatype Step =
    | Publish(parent: Id, component: Component)
    | Define(binder: Id)
    | Refer(variable: Id, resolution: Resolution)
    | Forget(node: Id)

  function Stepped(c: Checked, s: Step): Checked
    requires AllFlat(c)
  {
    match s
    case Publish(parent, k) =>
      var want := Wanted(c, parent, k.Id());
      Written(c, k.Id(), Finish(Found(c, k, want), want))
    case Define(id) => c.(definitions := c.definitions[id := TypeOf(c, id)])
    case Refer(id, r) => c.(references := c.references[id := r])
    case Forget(id) =>
      c.(synthesized := c.synthesized - {id}, diagnostics := c.diagnostics - {id},
         definitions := c.definitions - {id}, references := c.references - {id})
  }

  ghost predicate WantedFlat(wanted: map<(Id, Id), TypeValue>) {
    forall k :: k in wanted ==> Flat(wanted[k])
  }

  ghost predicate AsksFlat(asks: Asks) {
    forall i :: 0 <= i < |asks| && asks[i].1.Some? ==> Flat(asks[i].1.value)
  }

  lemma {:induction false} AskedFlat(wanted: map<(Id, Id), TypeValue>, parent: Id, asks: Asks)
    requires WantedFlat(wanted) && AsksFlat(asks)
    ensures WantedFlat(Asked(wanted, parent, asks))
    decreases |asks|
  {
    if asks != [] {
      var front, last := asks[..|asks| - 1], asks[|asks| - 1];
      assert last.1.Some? ==> Flat(last.1.value);
      assert AsksFlat(front) by {
        forall i | 0 <= i < |front| ensures front[i] == asks[i] { }
      }
      AskedFlat(wanted, parent, front);
    }
  }

  lemma WrittenFlat(c: Checked, id: Id, r: Effects)
    requires AllFlat(c) && EffectsFlat(r)
    ensures AllFlat(Written(c, id, r))
  {
    AskedFlat(c.wanted, id, r.asks);
    assert WantedFlat(Written(c, id, r).wanted);
  }

  lemma StepFlat(c: Checked, s: Step)
    requires AllFlat(c)
    ensures AllFlat(Stepped(c, s))
  {
    if s.Publish? {
      var want := Wanted(c, s.parent, s.component.Id());
      ComponentFlat(c, s.component, want);
      WrittenFlat(c, s.component.Id(), Finish(Found(c, s.component, want), want));
    }
  }

  function Empty(): Checked {
    Checked(map[], map[], map[], map[], map[])
  }

  /** The tables after a run, or `None` once a component has met a type that is not flat. */
  ghost function Ran(steps: seq<Step>): Option<Checked>
    decreases |steps|
  {
    if steps == [] then Some(Empty())
    else
      var before := Ran(steps[..|steps| - 1]);
      if before.Some? && AllFlat(before.value) then Some(Stepped(before.value, steps[|steps| - 1])) else None
  }

  /** Flatness holds over every run from empty tables, whatever is published, in any order. */
  lemma {:induction false} RunStaysFlat(steps: seq<Step>)
    ensures Ran(steps).Some? && AllFlat(Ran(steps).value)
    decreases |steps|
  {
    if steps != [] {
      RunStaysFlat(steps[..|steps| - 1]);
      StepFlat(Ran(steps[..|steps| - 1]).value, steps[|steps| - 1]);
    }
  }

  // ------------------------------------------------------------------ fixpoints of the steps

  predicate DistinctAsks(asks: Asks) {
    forall i, j :: 0 <= i < j < |asks| ==> asks[i].0 != asks[j].0
  }

  ghost predicate AskedAs(wanted: map<(Id, Id), TypeValue>, parent: Id, asks: Asks) {
    forall i :: 0 <= i < |asks| ==>
      (if (parent, asks[i].0) in wanted then Some(wanted[(parent, asks[i].0)]) else None) == asks[i].1
  }

  lemma {:induction false} AskedSame(wanted: map<(Id, Id), TypeValue>, parent: Id, asks: Asks)
    requires AskedAs(wanted, parent, asks)
    ensures Asked(wanted, parent, asks) == wanted
    decreases |asks|
  {
    if asks != [] {
      var n := |asks| - 1;
      assert AskedAs(wanted, parent, asks[..n]) by {
        forall i | 0 <= i < n ensures asks[..n][i] == asks[i] { }
      }
      AskedSame(wanted, parent, asks[..n]);
      assert asks[n].1 == if (parent, asks[n].0) in wanted then Some(wanted[(parent, asks[n].0)]) else None;
    }
  }

  lemma {:induction false} AskedAll(wanted: map<(Id, Id), TypeValue>, parent: Id, asks: Asks)
    requires DistinctAsks(asks)
    ensures AskedAs(Asked(wanted, parent, asks), parent, asks)
    decreases |asks|
  {
    if asks != [] {
      var n := |asks| - 1;
      AskedAll(wanted, parent, asks[..n]);
      var before, now := Asked(wanted, parent, asks[..n]), Asked(wanted, parent, asks);
      forall i | 0 <= i < |asks|
        ensures (if (parent, asks[i].0) in now then Some(now[(parent, asks[i].0)]) else None) == asks[i].1
      {
        if i < n { assert asks[..n][i] == asks[i]; }
      }
    }
  }

  /** Running the component of a node whose equation holds changes nothing; and where that changes
      nothing, the equation holds, given that the children have different identities. */
  lemma StillIff(c: Checked, parent: Id, k: Component)
    requires AllFlat(c)
    ensures Publishes(c, parent, k.Id(), Found(c, k, Wanted(c, parent, k.Id())))
        ==> Stepped(c, Publish(parent, k)) == c
    ensures Stepped(c, Publish(parent, k)) == c && DistinctAsks(Found(c, k, Wanted(c, parent, k.Id())).asks)
        ==> Publishes(c, parent, k.Id(), Found(c, k, Wanted(c, parent, k.Id())))
  {
    var id, want := k.Id(), Wanted(c, parent, k.Id());
    var f := Finish(Found(c, k, want), want);
    if Publishes(c, parent, id, Found(c, k, want)) {
      assert AskedAs(c.wanted, id, f.asks) by {
        forall i | 0 <= i < |f.asks|
          ensures (if (id, f.asks[i].0) in c.wanted then Some(c.wanted[(id, f.asks[i].0)]) else None) == f.asks[i].1
        {
          assert Wanted(c, id, f.asks[i].0) == f.asks[i].1;
        }
      }
      AskedSame(c.wanted, id, f.asks);
      assert c.synthesized[id := f.value] == c.synthesized;
      assert c.diagnostics[id := f.errors] == c.diagnostics;
    }
    if Stepped(c, Publish(parent, k)) == c && DistinctAsks(f.asks) {
      AskedAll(c.wanted, id, f.asks);
      assert c.synthesized == c.synthesized[id := f.value] && c.diagnostics == c.diagnostics[id := f.errors];
    }
  }
}
