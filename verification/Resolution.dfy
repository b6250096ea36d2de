/** Resolving a regular path over a scope graph. */
module Resolution {
  import opened Wrappers
  import opened PathExprs

  type Scope = nat

  datatype Node = ScopeNode(data: int) | DeclarationNode(data: int) | ReferenceNode(data: int)

  /** The committed graph: node payloads and labelled edge buckets. */
  datatype Graph = Graph(nodes: map<Scope, Node>, edges: map<(Scope, Label), seq<Scope>>)
  {
    function Outgoing(scope: Scope, name: Label): seq<Scope> {
      if (scope, name) in edges then edges[(scope, name)] else []
    }
  }

  datatype Answer = Answer(scopes: seq<Scope>, labels: Word, data: int)

  type State = (Scope, PathExpr)

  // ------------------------------------------------------------------ walks

  predicate EdgeAt(g: Graph, scopes: seq<Scope>, labels: Word, i: nat)
    requires i < |labels| && |scopes| == |labels| + 1
  {
    scopes[i + 1] in g.Outgoing(scopes[i], labels[i])
  }

  /** A labelled walk through the graph. */
  ghost predicate Walks(g: Graph, start: Scope, scopes: seq<Scope>, labels: Word) {
    && |scopes| == |labels| + 1 && scopes[0] == start
    && forall i :: 0 <= i < |labels| ==> EdgeAt(g, scopes, labels, i)
  }

  /** The search state after `i` steps. */
  function StateAt(e: PathExpr, scopes: seq<Scope>, labels: Word, i: nat): State
    requires i <= |labels| && |scopes| == |labels| + 1
  {
    (scopes[i], Residual(e, labels[..i]))
  }

  ghost predicate SimpleWalk(e: PathExpr, scopes: seq<Scope>, labels: Word)
    requires |scopes| == |labels| + 1
  {
    forall i, j :: 0 <= i < j <= |labels| ==> StateAt(e, scopes, labels, i) != StateAt(e, scopes, labels, j)
  }

  ghost predicate Accepted(g: Graph, accepts: Node -> bool, scope: Scope, data: int) {
    scope in g.nodes && accepts(g.nodes[scope]) && g.nodes[scope] == ScopeNode(data)
  }

  /** What `resolve` is meant to find: matching walks that never repeat a search state and end at
      an accepted scope node. */
  ghost predicate IsAnswer(g: Graph, start: Scope, e: PathExpr, accepts: Node -> bool, a: Answer) {
    && Walks(g, start, a.scopes, a.labels) && SimpleWalk(e, a.scopes, a.labels)
    && Matches(e, a.labels) && Accepted(g, accepts, a.scopes[|a.labels|], a.data)
  }

  // ------------------------------------------------------------------ the search

  datatype Search = Search(scope: Scope, expression: PathExpr, scopes: seq<Scope>, labels: Word, states: set<State>)

  function Extended(s: Search, name: Label, target: Scope, residual: PathExpr): Search {
    Search(target, residual, s.scopes + [target], s.labels + [name], s.states + {(target, residual)})
  }

  /** The inner loop: targets of one label. */
  function Targets(s: Search, name: Label, residual: PathExpr, targets: seq<Scope>): seq<Search> {
    if targets == [] then []
    else
      Targets(s, name, residual, targets[..|targets| - 1])
      + if (targets[|targets| - 1], residual) in s.states then []
        else [Extended(s, name, targets[|targets| - 1], residual)]
  }

  /** The outer loop: the listed labels. */
  function Children(g: Graph, s: Search, names: seq<Label>): seq<Search> {
    if names == [] then []
    else
      var name := names[|names| - 1];
      var residual := Derivative(s.expression, name);
      Children(g, s, names[..|names| - 1])
      + if residual == Empty then [] else Targets(s, name, residual, g.Outgoing(s.scope, name))
  }

  ghost predicate SearchOk(g: Graph, start: Scope, e: PathExpr, s: Search) {
    && Walks(g, start, s.scopes, s.labels) && SimpleWalk(e, s.scopes, s.labels)
    && s.scope == s.scopes[|s.labels|] && s.expression == Residual(e, s.labels)
    && (forall i :: 0 <= i <= |s.labels| ==> StateAt(e, s.scopes, s.labels, i) in s.states)
    && (forall x :: x in s.states ==> exists i :: 0 <= i <= |s.labels| && x == StateAt(e, s.scopes, s.labels, i))
  }

  /** One step of the search from `s` leads to `c`. */
  ghost predicate StepTo(g: Graph, s: Search, c: Search) {
    exists name, target ::
      && target in g.Outgoing(s.scope, name) && Derivative(s.expression, name) != Empty
      && (target, Derivative(s.expression, name)) !in s.states
      && c == Extended(s, name, target, Derivative(s.expression, name))
  }

  lemma {:induction false} TargetsAre(s: Search, name: Label, residual: PathExpr, targets: seq<Scope>)
    ensures forall c :: c in Targets(s, name, residual, targets) <==>
      exists t :: t in targets && (t, residual) !in s.states && c == Extended(s, name, t, residual)
  {
    if targets != [] {
      var front, last := targets[..|targets| - 1], targets[|targets| - 1];
      TargetsAre(s, name, residual, front);
      assert targets == front + [last];
      forall c
        ensures c in Targets(s, name, residual, targets) <==>
          exists t :: t in targets && (t, residual) !in s.states && c == Extended(s, name, t, residual)
      {
        if exists t :: t in targets && (t, residual) !in s.states && c == Extended(s, name, t, residual) {
          var t :| t in targets && (t, residual) !in s.states && c == Extended(s, name, t, residual);
          assert t in front || t == last;
        }
      }
    }
  }

  lemma {:induction false} ChildrenStep(g: Graph, s: Search, names: seq<Label>)
    ensures forall c :: c in Children(g, s, names) ==> StepTo(g, s, c)
  {
    if names != [] {
      ChildrenStep(g, s, names[..|names| - 1]);
      var name := names[|names| - 1];
      TargetsAre(s, name, Derivative(s.expression, name), g.Outgoing(s.scope, name));
    }
  }

  lemma {:induction false} StepIsChild(g: Graph, s: Search, names: seq<Label>, name: Label, target: Scope)
    requires name in names && target in g.Outgoing(s.scope, name) && Derivative(s.expression, name) != Empty
    requires (target, Derivative(s.expression, name)) !in s.states
    ensures Extended(s, name, target, Derivative(s.expression, name)) in Children(g, s, names)
  {
    var front, last := names[..|names| - 1], names[|names| - 1];
    if name == last {
      TargetsAre(s, name, Derivative(s.expression, name), g.Outgoing(s.scope, name));
    } else {
      assert names == front + [last];
      StepIsChild(g, s, front, name, target);
    }
  }

  lemma WalkOn(g: Graph, start: Scope, scopes: seq<Scope>, labels: Word, name: Label, target: Scope)
    requires Walks(g, start, scopes, labels) && target in g.Outgoing(scopes[|labels|], name)
    ensures Walks(g, start, scopes + [target], labels + [name])
  {
    forall i | 0 <= i <= |labels| ensures EdgeAt(g, scopes + [target], labels + [name], i) {
      if i < |labels| { assert EdgeAt(g, scopes, labels, i); }
    }
  }

  /** One more step keeps the earlier states and adds one. */
  lemma {:induction false} StatesOn(e: PathExpr, scopes: seq<Scope>, labels: Word, name: Label, target: Scope, i: nat)
    requires |scopes| == |labels| + 1 && i <= |labels| + 1
    ensures StateAt(e, scopes + [target], labels + [name], i)
         == if i <= |labels| then StateAt(e, scopes, labels, i)
            else (target, Derivative(Residual(e, labels), name))
  {
    if i <= |labels| {
      assert (labels + [name])[..i] == labels[..i];
    } else {
      assert (labels + [name])[..i] == labels + [name];
    }
  }

  lemma {:induction false} ExtendedOk(g: Graph, start: Scope, e: PathExpr, s: Search, name: Label, target: Scope)
    requires SearchOk(g, start, e, s) && target in g.Outgoing(s.scope, name)
    requires (target, Derivative(s.expression, name)) !in s.states
    ensures SearchOk(g, start, e, Extended(s, name, target, Derivative(s.expression, name)))
  {
    var n := |s.labels|;
    var c := Extended(s, name, target, Derivative(s.expression, name));
    WalkOn(g, start, s.scopes, s.labels, name, target);
    forall i | 0 <= i <= n + 1
      ensures StateAt(e, c.scopes, c.labels, i)
           == if i <= n then StateAt(e, s.scopes, s.labels, i) else (target, c.expression)
    {
      StatesOn(e, s.scopes, s.labels, name, target, i);
    }
    assert c.labels[..n + 1] == c.labels;
    assert StateAt(e, c.scopes, c.labels, n + 1) == (target, c.expression);
    forall x | x in c.states
      ensures exists i :: 0 <= i <= n + 1 && x == StateAt(e, c.scopes, c.labels, i)
    {
      if x in s.states {
        var i :| 0 <= i <= n && x == StateAt(e, s.scopes, s.labels, i);
        assert x == StateAt(e, c.scopes, c.labels, i);
      }
    }
  }

  // ------------------------------------------------------------------ what is still to be found

  /** The walk of `a` continues the walk of `s`. */
  predicate Continues(a: Answer, s: Search) {
    && |s.labels| <= |a.labels| && |a.scopes| == |a.labels| + 1 && |s.scopes| == |s.labels| + 1
    && a.labels[..|s.labels|] == s.labels && a.scopes[..|s.scopes|] == s.scopes
  }

  ghost predicate Pending(a: Answer, pending: seq<Search>) {
    exists k :: 0 <= k < |pending| && Continues(a, pending[k])
  }

  /** A simple walk whose residual is alive. */
  ghost predicate IsLive(g: Graph, start: Scope, e: PathExpr, a: Answer) {
    && Walks(g, start, a.scopes, a.labels) && SimpleWalk(e, a.scopes, a.labels)
    && Residual(e, a.labels) != Empty
  }

  lemma AnswerIsLive(g: Graph, start: Scope, e: PathExpr, accepts: Node -> bool, a: Answer)
    requires IsAnswer(g, start, e, accepts, a)
    ensures IsLive(g, start, e, a)
  {
    AcceptsIff(e, a.labels);
  }

  lemma {:induction false} EmptyStays(w: Word)
    ensures Residual(Empty, w) == Empty
  {
    if w != [] { EmptyStays(w[..|w| - 1]); }
  }

  /** The next step of a live walk is alive. */
  lemma {:induction false} NextAlive(e: PathExpr, labels: Word, n: nat)
    requires n < |labels| && Residual(e, labels) != Empty
    ensures Derivative(Residual(e, labels[..n]), labels[n]) == Residual(e, labels[..n + 1])
    ensures Residual(e, labels[..n + 1]) != Empty
  {
    assert labels[..n + 1][..n] == labels[..n];
    ResidualConcat(e, labels[..n + 1], labels[n + 1..]);
    assert labels[..n + 1] + labels[n + 1..] == labels;
    EmptyStays(labels[n + 1..]);
  }

  /** The next state of a simple walk is new. */
  lemma {:induction false} NextNew(g: Graph, start: Scope, e: PathExpr, a: Answer, s: Search)
    requires Walks(g, start, a.scopes, a.labels) && SimpleWalk(e, a.scopes, a.labels)
    requires SearchOk(g, start, e, s) && Continues(a, s) && |s.labels| < |a.labels|
    ensures StateAt(e, a.scopes, a.labels, |s.labels| + 1) !in s.states
  {
    var n := |s.labels|;
    var next := StateAt(e, a.scopes, a.labels, n + 1);
    forall i | 0 <= i <= n ensures StateAt(e, s.scopes, s.labels, i) != next {
      assert a.labels[..i] == s.labels[..i] && a.scopes[i] == s.scopes[i];
      assert StateAt(e, a.scopes, a.labels, i) == StateAt(e, s.scopes, s.labels, i);
    }
  }

  lemma ContinuesNext(a: Answer, s: Search, residual: PathExpr)
    requires Continues(a, s) && |s.labels| < |a.labels|
    ensures Continues(a, Extended(s, a.labels[|s.labels|], a.scopes[|s.labels| + 1], residual))
  {
    var n := |s.labels|;
    assert a.labels[..n + 1] == s.labels + [a.labels[n]];
    assert a.scopes[..n + 2] == s.scopes + [a.scopes[n + 1]];
  }

  /** A longer live walk continues one of the children. */
  lemma {:induction false} NextChild(g: Graph, start: Scope, e: PathExpr, a: Answer, s: Search)
    requires IsLive(g, start, e, a) && SearchOk(g, start, e, s) && Continues(a, s)
    requires |s.labels| < |a.labels|
    ensures Pending(a, Children(g, s, Labels(s.expression)))
  {
    var n := |s.labels|;
    var name, target := a.labels[n], a.scopes[n + 1];
    var residual := Derivative(s.expression, name);
    NextStep(g, start, e, a, s, name, target, residual);
    LabelsComplete(s.expression, name);
    StepIsChild(g, s, Labels(s.expression), name, target);
    ContinuesNext(a, s, residual);
    ListedPending(a, Children(g, s, Labels(s.expression)), Extended(s, name, target, residual));
  }

  /** The next step of a longer live walk is an edge into a new, live state. */
  lemma NextStep(g: Graph, start: Scope, e: PathExpr, a: Answer, s: Search,
                 name: Label, target: Scope, residual: PathExpr)
    requires IsLive(g, start, e, a) && SearchOk(g, start, e, s) && Continues(a, s)
    requires |s.labels| < |a.labels| && name == a.labels[|s.labels|] && target == a.scopes[|s.labels| + 1]
    requires residual == Derivative(s.expression, name)
    ensures target in g.Outgoing(s.scope, name) && residual != Empty && (target, residual) !in s.states
  {
    var n := |s.labels|;
    assert EdgeAt(g, a.scopes, a.labels, n);
    assert a.scopes[n] == s.scopes[n];
    NextAlive(e, a.labels, n);
    NextNew(g, start, e, a, s);
  }

  lemma ListedPending(a: Answer, pending: seq<Search>, s: Search)
    requires s in pending && Continues(a, s)
    ensures Pending(a, pending)
  {
    var k :| 0 <= k < |pending| && pending[k] == s;
    assert Continues(a, pending[k]);
  }

  // ------------------------------------------------------------------ termination

  /** Every step from a state of `universe` stays in it. */
  ghost predicate Closed(g: Graph, universe: set<State>) {
    forall x, name, target :: x in universe && target in g.Outgoing(x.0, name) && Derivative(x.1, name) != Empty
      ==> (target, Derivative(x.1, name)) in universe
  }

  ghost predicate Inside(universe: set<State>, s: Search) {
    s.states <= universe && (s.scope, s.expression) in universe
  }

  lemma ChildInside(g: Graph, universe: set<State>, s: Search, c: Search)
    requires Closed(g, universe) && Inside(universe, s) && StepTo(g, s, c)
    ensures Inside(universe, c) && |universe - c.states| < |universe - s.states|
  {
    var name, target :| target in g.Outgoing(s.scope, name) && Derivative(s.expression, name) != Empty
      && (target, Derivative(s.expression, name)) !in s.states
      && c == Extended(s, name, target, Derivative(s.expression, name));
    var x := (target, Derivative(s.expression, name));
    assert (s.scope, s.expression) in universe;
    assert universe - s.states == (universe - c.states) + {x};
  }

  /** Searches still to be made below `s`, itself included. */
  ghost function TreeSize(g: Graph, universe: set<State>, s: Search): nat
    requires Closed(g, universe) && Inside(universe, s)
    decreases |universe - s.states|, 1, 0
  {
    ChildrenStep(g, s, Labels(s.expression));
    1 + ForestSize(g, universe, s, Children(g, s, Labels(s.expression)))
  }

  ghost function ForestSize(g: Graph, universe: set<State>, parent: Search, forest: seq<Search>): nat
    requires Closed(g, universe) && Inside(universe, parent)
    requires forall c :: c in forest ==> StepTo(g, parent, c)
    decreases |universe - parent.states|, 0, |forest|
  {
    if forest == [] then 0
    else
      ChildInside(g, universe, parent, forest[|forest| - 1]);
      ForestSize(g, universe, parent, forest[..|forest| - 1]) + TreeSize(g, universe, forest[|forest| - 1])
  }

  ghost predicate AllInside(universe: set<State>, pending: seq<Search>) {
    forall k :: 0 <= k < |pending| ==> Inside(universe, pending[k])
  }

  ghost function WorkLeft(g: Graph, universe: set<State>, pending: seq<Search>): nat
    requires Closed(g, universe) && AllInside(universe, pending)
  {
    if pending == [] then 0
    else WorkLeft(g, universe, pending[..|pending| - 1]) + TreeSize(g, universe, pending[|pending| - 1])
  }

  lemma {:induction false} WorkAppend(g: Graph, universe: set<State>, rest: seq<Search>, parent: Search,
                                      forest: seq<Search>)
    requires Closed(g, universe) && AllInside(universe, rest) && Inside(universe, parent)
    requires forall c :: c in forest ==> StepTo(g, parent, c)
    ensures AddsUp(g, universe, rest, parent, forest, rest + forest)
    decreases |forest|
  {
    if forest == [] {
      assert rest + forest == rest;
    } else {
      var front, last := forest[..|forest| - 1], forest[|forest| - 1];
      WorkAppend(g, universe, rest, parent, front);
      assert rest + forest == rest + front + [last];
      AddsUpSnoc(g, universe, rest, parent, front, last, forest, rest + front, rest + forest);
    }
  }

  /** The work of a work list extended by the children of `parent`. */
  ghost predicate AddsUp(g: Graph, universe: set<State>, rest: seq<Search>, parent: Search, forest: seq<Search>,
                         all: seq<Search>)
    requires Closed(g, universe) && AllInside(universe, rest) && Inside(universe, parent)
    requires forall c :: c in forest ==> StepTo(g, parent, c)
  {
    && AllInside(universe, all)
    && WorkLeft(g, universe, all) == WorkLeft(g, universe, rest) + ForestSize(g, universe, parent, forest)
  }

  lemma AddsUpSnoc(g: Graph, universe: set<State>, rest: seq<Search>, parent: Search, front: seq<Search>, last: Search,
                   forest: seq<Search>, before: seq<Search>, all: seq<Search>)
    requires Closed(g, universe) && AllInside(universe, rest) && Inside(universe, parent)
    requires forall c :: c in forest ==> StepTo(g, parent, c)
    requires forest == front + [last] && all == before + [last]
    requires AddsUp(g, universe, rest, parent, front, before)
    ensures AddsUp(g, universe, rest, parent, forest, all)
  {
    assert last in forest && forest[..|forest| - 1] == front;
    ChildInside(g, universe, parent, last);
    WorkSnoc(g, universe, before, last);
  }

  lemma WorkSnoc(g: Graph, universe: set<State>, pending: seq<Search>, s: Search)
    requires Closed(g, universe) && AllInside(universe, pending) && Inside(universe, s)
    ensures AllInside(universe, pending + [s])
    ensures WorkLeft(g, universe, pending + [s]) == WorkLeft(g, universe, pending) + TreeSize(g, universe, s)
  {
    assert (pending + [s])[..|pending|] == pending;
  }

  // ------------------------------------------------------------------ resolve

  ghost predicate AllOk(g: Graph, start: Scope, e: PathExpr, pending: seq<Search>) {
    forall k :: 0 <= k < |pending| ==> SearchOk(g, start, e, pending[k])
  }

  ghost predicate Covers(g: Graph, start: Scope, e: PathExpr, accepts: Node -> bool, pending: seq<Search>,
                         answers: set<Answer>) {
    forall a :: IsAnswer(g, start, e, accepts, a) ==> a in answers || Pending(a, pending)
  }

  method PushTargets(search: Search, name: Label, residual: PathExpr, targets: seq<Scope>, rest: seq<Search>)
    returns (pending: seq<Search>)
    ensures pending == rest + Targets(search, name, residual, targets)
  {
    pending := rest;
    for j := 0 to |targets|
      invariant pending == rest + Targets(search, name, residual, targets[..j])
    {
      assert targets[..j + 1][..j] == targets[..j];
      if (targets[j], residual) !in search.states {
        pending := pending + [Extended(search, name, targets[j], residual)];
      }
    }
    assert targets[..|targets|] == targets;
  }

  /** Pushes the continuations of one search. */
  method PushChildren(g: Graph, search: Search, rest: seq<Search>) returns (pending: seq<Search>)
    ensures pending == rest + Children(g, search, Labels(search.expression))
  {
    var names := Labels(search.expression);
    pending := rest;
    for i := 0 to |names|
      invariant pending == rest + Children(g, search, names[..i])
    {
      var residual := Derivative(search.expression, names[i]);
      ghost var here := names[..i + 1];
      assert here[..i] == names[..i] && here[i] == names[i];
      if residual != Empty {
        pending := PushTargets(search, names[i], residual, g.Outgoing(search.scope, names[i]), pending);
      }
    }
    assert names[..|names|] == names;
  }

  /** If the search ends at an accepted scope node, its answer is recorded. */
  ghost predicate Recorded(g: Graph, accepts: Node -> bool, s: Search, answers: set<Answer>) {
    forall data :: Accepted(g, accepts, s.scope, data) ==> Answer(s.scopes, s.labels, data) in answers
  }

  lemma {:induction false} NextOk(g: Graph, start: Scope, e: PathExpr, rest: seq<Search>, s: Search)
    requires AllOk(g, start, e, rest + [s])
    ensures AllOk(g, start, e, rest + Children(g, s, Labels(s.expression)))
  {
    var children := Children(g, s, Labels(s.expression));
    var next := rest + children;
    assert (rest + [s])[|rest|] == s;
    ChildrenStep(g, s, Labels(s.expression));
    forall k | 0 <= k < |next| ensures SearchOk(g, start, e, next[k]) {
      if k < |rest| {
        assert (rest + [s])[k] == next[k];
      } else {
        assert next[k] in children && StepTo(g, s, next[k]);
        var name, target :| target in g.Outgoing(s.scope, name) && Derivative(s.expression, name) != Empty
          && (target, Derivative(s.expression, name)) !in s.states
          && next[k] == Extended(s, name, target, Derivative(s.expression, name));
        ExtendedOk(g, start, e, s, name, target);
      }
    }
  }

  lemma {:induction false} SearchSteps(g: Graph, start: Scope, e: PathExpr, accepts: Node -> bool, rest: seq<Search>,
                                       s: Search, before: set<Answer>, answers: set<Answer>)
    requires AllOk(g, start, e, rest + [s]) && Covers(g, start, e, accepts, rest + [s], before)
    requires before <= answers
    requires Nullable(s.expression) ==> Recorded(g, accepts, s, answers)
    ensures var next := rest + Children(g, s, Labels(s.expression));
      AllOk(g, start, e, next) && Covers(g, start, e, accepts, next, answers)
  {
    var next := rest + Children(g, s, Labels(s.expression));
    NextOk(g, start, e, rest, s);
    assert (rest + [s])[|rest|] == s;
    forall a | IsAnswer(g, start, e, accepts, a) ensures a in answers || Pending(a, next) {
      if a !in before { StillCovered(g, start, e, accepts, rest, s, a, answers); }
    }
  }

  lemma PendingEither(a: Answer, rest: seq<Search>, s: Search)
    requires Pending(a, rest + [s])
    ensures Pending(a, rest) || Continues(a, s)
  {
    var k :| 0 <= k < |rest + [s]| && Continues(a, (rest + [s])[k]);
    if k < |rest| { assert Continues(a, rest[k]); }
  }

  lemma PendingConcat(a: Answer, x: seq<Search>, y: seq<Search>)
    requires Pending(a, x) || Pending(a, y)
    ensures Pending(a, x + y)
  {
    if Pending(a, x) {
      var k :| 0 <= k < |x| && Continues(a, x[k]);
      assert Continues(a, (x + y)[k]);
    } else {
      var k :| 0 <= k < |y| && Continues(a, y[k]);
      assert Continues(a, (x + y)[|x| + k]);
    }
  }

  lemma StillCovered(g: Graph, start: Scope, e: PathExpr, accepts: Node -> bool, rest: seq<Search>, s: Search,
                     a: Answer, answers: set<Answer>)
    requires IsAnswer(g, start, e, accepts, a) && SearchOk(g, start, e, s) && Pending(a, rest + [s])
    requires Nullable(s.expression) ==> Recorded(g, accepts, s, answers)
    ensures a in answers || Pending(a, rest + Children(g, s, Labels(s.expression)))
  {
    var children := Children(g, s, Labels(s.expression));
    PendingEither(a, rest, s);
    if Pending(a, rest) {
      PendingConcat(a, rest, children);
    } else if |s.labels| < |a.labels| {
      AnswerIsLive(g, start, e, accepts, a);
      NextChild(g, start, e, a, s);
      PendingConcat(a, rest, children);
    } else {
      assert a.labels == s.labels && a.scopes == s.scopes;
      AcceptsIff(e, a.labels);
      assert a == Answer(s.scopes, s.labels, a.data);
    }
  }

  /** `resolve`, whenever it ends: it answers exactly the matching simple walks to accepted scope
      nodes. */
  method Resolve(g: Graph, start: Scope, e: PathExpr, accepts: Node -> bool) returns (answers: set<Answer>)
    requires Ends(g, start, e)
    ensures forall a :: a in answers <==> IsAnswer(g, start, e, accepts, a)
  {
    ghost var universe := UniverseOf(g, start, e);
    var first := First(start, e);
    var pending := [first];
    answers := {};
    FirstSearch(g, start, e, accepts, first);
    while pending != []
      invariant AllOk(g, start, e, pending) && AllInside(universe, pending)
      invariant forall a :: a in answers ==> IsAnswer(g, start, e, accepts, a)
      invariant Covers(g, start, e, accepts, pending, answers)
      decreases WorkLeft(g, universe, pending)
    {
      var search, rest := pending[|pending| - 1], pending[..|pending| - 1];
      assert pending == rest + [search];
      ghost var before := answers;
      if Nullable(search.expression) && search.scope in g.nodes && accepts(g.nodes[search.scope])
         && g.nodes[search.scope].ScopeNode? {
        var answer := Answer(search.scopes, search.labels, g.nodes[search.scope].data);
        AcceptsIff(e, search.labels);
        answers := answers + {answer};
      }
      SearchSteps(g, start, e, accepts, rest, search, before, answers);
      RoundShrinks(g, universe, pending);
      pending := PushChildren(g, search, rest);
    }
  }

  lemma UniverseOf(g: Graph, start: Scope, e: PathExpr) returns (universe: set<State>)
    requires Ends(g, start, e)
    ensures FinitelyMany(g, start, e, universe)
  {
    EndsIff(g, start, e);
    universe :| FinitelyMany(g, start, e, universe);
  }

  lemma RoundShrinks(g: Graph, universe: set<State>, pending: seq<Search>)
    requires Closed(g, universe) && AllInside(universe, pending) && pending != []
    ensures AllInside(universe, Round(g, pending))
    ensures WorkLeft(g, universe, pending) == 1 + WorkLeft(g, universe, Round(g, pending))
  {
    var s := pending[|pending| - 1];
    ChildrenStep(g, s, Labels(s.expression));
    WorkAppend(g, universe, pending[..|pending| - 1], s, Children(g, s, Labels(s.expression)));
  }

  lemma FirstSearch(g: Graph, start: Scope, e: PathExpr, accepts: Node -> bool, first: Search)
    requires first == First(start, e)
    ensures AllOk(g, start, e, [first]) && Covers(g, start, e, accepts, [first], {})
  {
    assert StateAt(e, first.scopes, first.labels, 0) == (start, e);
    forall a | IsAnswer(g, start, e, accepts, a) ensures Pending(a, [first]) {
      assert a.scopes[..1] == [start];
      assert Continues(a, [first][0]);
    }
  }

  // ------------------------------------------------------------------ every target has a witness

  /** Leaving out the steps between two visits of one state. */
  lemma {:induction false} CutOut(g: Graph, start: Scope, e: PathExpr, scopes: seq<Scope>, labels: Word, i: nat, j: nat)
    requires Walks(g, start, scopes, labels) && i < j <= |labels|
    requires StateAt(e, scopes, labels, i) == StateAt(e, scopes, labels, j)
    ensures var s, l := scopes[..i] + scopes[j..], labels[..i] + labels[j..];
      && Walks(g, start, s, l) && |l| < |labels| && s[|l|] == scopes[|labels|]
      && Residual(e, l) == Residual(e, labels)
  {
    var s, l := scopes[..i] + scopes[j..], labels[..i] + labels[j..];
    forall k | 0 <= k < |l| ensures EdgeAt(g, s, l, k) {
      if k < i {
        assert EdgeAt(g, scopes, labels, k);
      } else {
        assert EdgeAt(g, scopes, labels, k - i + j);
      }
    }
    ResidualConcat(e, labels[..i], labels[j..]);
    ResidualConcat(e, labels[..j], labels[j..]);
    assert labels[..j] + labels[j..] == labels;
  }

  /** Every matching walk can be cut down to one that repeats no state. */
  lemma {:induction false} Shorten(g: Graph, start: Scope, e: PathExpr, scopes: seq<Scope>, labels: Word)
    returns (s: seq<Scope>, l: Word)
    requires Walks(g, start, scopes, labels)
    ensures Walks(g, start, s, l) && SimpleWalk(e, s, l)
    ensures s[|l|] == scopes[|labels|] && Residual(e, l) == Residual(e, labels)
    decreases |labels|
  {
    if SimpleWalk(e, scopes, labels) {
      s, l := scopes, labels;
    } else {
      var i, j :| 0 <= i < j <= |labels| && StateAt(e, scopes, labels, i) == StateAt(e, scopes, labels, j);
      CutOut(g, start, e, scopes, labels, i, j);
      s, l := Shorten(g, start, e, scopes[..i] + scopes[j..], labels[..i] + labels[j..]);
    }
  }

  /** Every accepted target that some matching walk reaches has a witness among the answers. */
  lemma TargetHasWitness(g: Graph, start: Scope, e: PathExpr, accepts: Node -> bool, scopes: seq<Scope>, labels: Word,
                         data: int) returns (a: Answer)
    requires Walks(g, start, scopes, labels) && Matches(e, labels)
    requires Accepted(g, accepts, scopes[|labels|], data)
    ensures IsAnswer(g, start, e, accepts, a)
    ensures a.scopes[|a.labels|] == scopes[|labels|] && a.data == data
  {
    var s, l := Shorten(g, start, e, scopes, labels);
    AcceptsIff(e, labels);
    AcceptsIff(e, l);
    a := Answer(s, l, data);
  }

  // ------------------------------------------------------------------ when the search ends

  function First(start: Scope, e: PathExpr): Search {
    Search(start, e, [start], [], {(start, e)})
  }

  /** One round of the loop: the last search gives way to its continuations. */
  function Round(g: Graph, pending: seq<Search>): seq<Search> {
    if pending == [] then []
    else
      var s := pending[|pending| - 1];
      pending[..|pending| - 1] + Children(g, s, Labels(s.expression))
  }

  /** The work list after `k` rounds. */
  function Rounds(g: Graph, pending: seq<Search>, k: nat): seq<Search>
    decreases k
  {
    if k == 0 then pending else Rounds(g, Round(g, pending), k - 1)
  }

  /** The loop of `resolve` runs out of work. */
  ghost predicate Ends(g: Graph, start: Scope, e: PathExpr) {
    exists k: nat :: Rounds(g, [First(start, e)], k) == []
  }

  /** No live simple walk has more than `n` steps. */
  ghost predicate LiveWithin(g: Graph, start: Scope, e: PathExpr, n: nat) {
    forall a :: IsLive(g, start, e, a) ==> |a.labels| <= n
  }

  ghost predicate FinitelyMany(g: Graph, start: Scope, e: PathExpr, universe: set<State>) {
    Closed(g, universe) && (start, e) in universe
  }

  /** A finite closed set bounds the rounds. */
  lemma {:induction false} UniverseEnds(g: Graph, universe: set<State>, pending: seq<Search>)
    requires Closed(g, universe) && AllInside(universe, pending)
    ensures Rounds(g, pending, WorkLeft(g, universe, pending)) == []
    decreases WorkLeft(g, universe, pending)
  {
    if pending != [] {
      RoundShrinks(g, universe, pending);
      UniverseEnds(g, universe, Round(g, pending));
    }
  }

  lemma ChildLonger(g: Graph, s: Search, c: Search)
    requires c in Children(g, s, Labels(s.expression))
    ensures |c.labels| == |s.labels| + 1
  {
    ChildrenStep(g, s, Labels(s.expression));
  }

  /** The work list holds `part`, which a live walk continues. */
  ghost predicate OnTheWay(g: Graph, start: Scope, e: PathExpr, pending: seq<Search>, a: Answer, part: Search) {
    AllOk(g, start, e, pending) && IsLive(g, start, e, a) && part in pending && Continues(a, part)
  }

  /** A work list that has part of a live walk still needs a round for every step of it. */
  lemma {:induction false} WalkNeedsRounds(g: Graph, start: Scope, e: PathExpr, pending: seq<Search>, a: Answer,
                                           part: Search, k: nat)
    requires OnTheWay(g, start, e, pending, a, part) && Rounds(g, pending, k) == []
    ensures k > |a.labels| - |part.labels|
    decreases k
  {
    if |part.labels| < |a.labels| {
      var next, c, less := Later(g, start, e, pending, a, part, k);
      WalkNeedsRounds(g, start, e, next, a, c, less);
    }
  }

  lemma Later(g: Graph, start: Scope, e: PathExpr, pending: seq<Search>, a: Answer, part: Search, k: nat)
    returns (next: seq<Search>, c: Search, less: nat)
    requires OnTheWay(g, start, e, pending, a, part) && |part.labels| < |a.labels| && Rounds(g, pending, k) == []
    ensures OnTheWay(g, start, e, next, a, c) && Rounds(g, next, less) == []
    ensures k == less + 1 && |c.labels| <= |part.labels| + 1
  {
    var rest, s;
    rest, s, less := RoundsLeft(g, pending, part, k);
    next := rest + Children(g, s, Labels(s.expression));
    RoundsStep(g, pending, rest, s, k, less);
    c := Heir(g, start, e, rest, s, a, part);
  }

  lemma RoundsLeft(g: Graph, pending: seq<Search>, part: Search, k: nat)
    returns (rest: seq<Search>, s: Search, less: nat)
    requires part in pending && Rounds(g, pending, k) == []
    ensures pending == rest + [s] && k == less + 1
  {
    rest, s, less := pending[..|pending| - 1], pending[|pending| - 1], k - 1;
  }

  /** After a round the work list still holds part of the walk, at most one step longer. */
  lemma Heir(g: Graph, start: Scope, e: PathExpr, rest: seq<Search>, s: Search, a: Answer, part: Search)
    returns (c: Search)
    requires OnTheWay(g, start, e, rest + [s], a, part) && |part.labels| < |a.labels|
    ensures OnTheWay(g, start, e, rest + Children(g, s, Labels(s.expression)), a, c)
    ensures |c.labels| <= |part.labels| + 1
  {
    NextOk(g, start, e, rest, s);
    if part in rest {
      c := part;
    } else {
      assert part == s;
      c := NextPart(g, start, e, rest, a, s);
    }
  }

  lemma RoundsStep(g: Graph, pending: seq<Search>, rest: seq<Search>, s: Search, k: nat, less: nat)
    requires pending == rest + [s] && k == less + 1
    ensures Rounds(g, pending, k) == Rounds(g, rest + Children(g, s, Labels(s.expression)), less)
  {
    assert pending[..|rest|] == rest;
  }

  lemma NextPart(g: Graph, start: Scope, e: PathExpr, rest: seq<Search>, a: Answer, s: Search) returns (c: Search)
    requires AllOk(g, start, e, rest + [s]) && IsLive(g, start, e, a)
    requires Continues(a, s) && |s.labels| < |a.labels|
    ensures c in rest + Children(g, s, Labels(s.expression)) && Continues(a, c) && |c.labels| == |s.labels| + 1
  {
    var children := Children(g, s, Labels(s.expression));
    assert (rest + [s])[|rest|] == s;
    NextChild(g, start, e, a, s);
    var i :| 0 <= i < |children| && Continues(a, children[i]);
    c := children[i];
    ChildLonger(g, s, c);
  }

  lemma EndsBounds(g: Graph, start: Scope, e: PathExpr, k: nat)
    requires Rounds(g, [First(start, e)], k) == []
    ensures LiveWithin(g, start, e, k)
  {
    var first := First(start, e);
    FirstSearch(g, start, e, _ => true, first);
    forall a | IsLive(g, start, e, a) ensures |a.labels| <= k {
      assert a.scopes[..1] == [start];
      assert Continues(a, [first][0]);
      WalkNeedsRounds(g, start, e, [first], a, first, k);
    }
  }

  /** One live step from a set of states. */
  function Nexts(g: Graph, states: set<State>): set<State> {
    set x, name, target | x in states && name in Labels(x.1) && target in g.Outgoing(x.0, name)
      && Derivative(x.1, name) != Empty :: (target, Derivative(x.1, name))
  }

  /** The states that live walks of at most `n` steps reach. */
  function Within(g: Graph, start: Scope, e: PathExpr, n: nat): set<State> {
    if n == 0 then {(start, e)} else Within(g, start, e, n - 1) + Nexts(g, Within(g, start, e, n - 1))
  }

  lemma {:induction false} WithinGrows(g: Graph, start: Scope, e: PathExpr, m: nat, n: nat)
    requires m <= n
    ensures Within(g, start, e, m) <= Within(g, start, e, n)
    decreases n
  {
    if m < n { WithinGrows(g, start, e, m, n - 1); }
  }

  lemma {:induction false} WithinWalk(g: Graph, start: Scope, e: PathExpr, n: nat, x: State)
    returns (scopes: seq<Scope>, labels: Word)
    requires x in Within(g, start, e, n)
    ensures Reaches(g, start, e, scopes, labels, x)
    decreases n
  {
    if n == 0 {
      scopes, labels := [start], [];
    } else {
      var y, step := WithinStep(g, start, e, n - 1, x);
      scopes, labels := WithinWalk(g, start, e, n - 1, y);
      if step.Some? {
        ReachesNext(g, start, e, scopes, labels, y, step.value.0, step.value.1, x);
        scopes, labels := scopes + [step.value.1], labels + [step.value.0];
      }
    }
  }

  /** One round earlier: the state itself, or the one a live step leads from. */
  lemma WithinStep(g: Graph, start: Scope, e: PathExpr, n: nat, x: State)
    returns (y: State, step: Option<(Label, Scope)>)
    requires x in Within(g, start, e, n + 1)
    ensures y in Within(g, start, e, n)
    ensures step.None? ==> x == y
    ensures step.Some? ==> IsStep(g, y, step.value.0, step.value.1, x)
  {
    y, step := x, None;
    if x !in Within(g, start, e, n) {
      var name, target;
      y, name, target :| y in Within(g, start, e, n) && name in Labels(y.1) && target in g.Outgoing(y.0, name)
        && Derivative(y.1, name) != Empty && x == (target, Derivative(y.1, name));
      step := Some((name, target));
    }
  }

  /** A walk that ends in search state `x`. */
  ghost predicate Reaches(g: Graph, start: Scope, e: PathExpr, scopes: seq<Scope>, labels: Word, x: State) {
    Walks(g, start, scopes, labels) && x == (scopes[|labels|], Residual(e, labels))
  }

  predicate IsStep(g: Graph, x: State, name: Label, target: Scope, y: State) {
    target in g.Outgoing(x.0, name) && y == (target, Derivative(x.1, name))
  }

  lemma ReachesNext(g: Graph, start: Scope, e: PathExpr, scopes: seq<Scope>, labels: Word, x: State,
                    name: Label, target: Scope, y: State)
    requires Reaches(g, start, e, scopes, labels, x) && IsStep(g, x, name, target, y)
    ensures Reaches(g, start, e, scopes + [target], labels + [name], y)
  {
    WalkOn(g, start, scopes, labels, name, target);
    StatesOn(e, scopes, labels, name, target, |labels| + 1);
    var all := labels + [name];
    assert all[..|all|] == all;
  }

  lemma {:induction false} WalkWithin(g: Graph, start: Scope, e: PathExpr, scopes: seq<Scope>, labels: Word)
    requires Walks(g, start, scopes, labels) && (labels == [] || Residual(e, labels) != Empty)
    ensures (scopes[|labels|], Residual(e, labels)) in Within(g, start, e, |labels|)
    decreases |labels|
  {
    if labels != [] {
      var n := |labels| - 1;
      assert labels[..|labels|] == labels;
      NextAlive(e, labels, n);
      FrontAlive(e, labels, n);
      var s, l := scopes[..n + 1], labels[..n];
      assert EdgeAt(g, scopes, labels, n);
      forall i | 0 <= i < n ensures EdgeAt(g, s, l, i) {
        assert EdgeAt(g, scopes, labels, i);
      }
      WalkWithin(g, start, e, s, l);
      LabelsComplete(Residual(e, labels[..n]), labels[n]);
    }
  }

  lemma FrontAlive(e: PathExpr, labels: Word, n: nat)
    requires n < |labels| && Residual(e, labels) != Empty
    ensures Residual(e, labels[..n]) != Empty
  {
    ResidualConcat(e, labels[..n], labels[n..]);
    assert labels[..n] + labels[n..] == labels;
    EmptyStays(labels[n..]);
  }

  /** When no live simple walk is longer than `n`, the states within `n` steps are closed. */
  lemma WithinClosed(g: Graph, start: Scope, e: PathExpr, n: nat)
    requires LiveWithin(g, start, e, n)
    ensures FinitelyMany(g, start, e, Within(g, start, e, n))
  {
    var universe := Within(g, start, e, n);
    WithinGrows(g, start, e, 0, n);
    forall x, name, target | x in universe && target in g.Outgoing(x.0, name) && Derivative(x.1, name) != Empty
      ensures (target, Derivative(x.1, name)) in universe
    {
      var scopes, labels := WithinWalk(g, start, e, n, x);
      WalkOn(g, start, scopes, labels, name, target);
      StatesOn(e, scopes, labels, name, target, |labels| + 1);
      assert (labels + [name])[..|labels| + 1] == labels + [name];
      var s, l := Shorten(g, start, e, scopes + [target], labels + [name]);
      assert IsLive(g, start, e, Answer(s, l, 0));
      WalkWithin(g, start, e, s, l);
      WithinGrows(g, start, e, |l|, n);
    }
  }

  /** The exact condition: `resolve` ends iff the live simple walks are bounded in length, iff some
      finite set of search states is closed under live steps. */
  lemma EndsIff(g: Graph, start: Scope, e: PathExpr)
    ensures Ends(g, start, e) <==> exists n: nat :: LiveWithin(g, start, e, n)
    ensures Ends(g, start, e) <==> exists universe: set<State> :: FinitelyMany(g, start, e, universe)
  {
    if Ends(g, start, e) {
      var k: nat :| Rounds(g, [First(start, e)], k) == [];
      EndsBounds(g, start, e, k);
    }
    if exists n: nat :: LiveWithin(g, start, e, n) {
      var n: nat :| LiveWithin(g, start, e, n);
      WithinClosed(g, start, e, n);
    }
    if exists universe: set<State> :: FinitelyMany(g, start, e, universe) {
      var universe: set<State> :| FinitelyMany(g, start, e, universe);
      UniverseEnds(g, universe, [First(start, e)]);
    }
  }

  // ------------------------------------------------------------------ conditions that suffice

  function Scopes(g: Graph, start: Scope): set<Scope> {
    {start} + set k, t | k in g.edges && t in g.edges[k] :: t
  }

  /** Finitely many residuals are enough: the graph has finitely many scopes. */
  lemma FiniteResidualsEnd(g: Graph, start: Scope, e: PathExpr, residuals: set<PathExpr>)
    requires e in residuals
    requires forall r, name :: r in residuals && Derivative(r, name) != Empty ==> Derivative(r, name) in residuals
    ensures Ends(g, start, e)
  {
    var universe := set x, r | x in Scopes(g, start) && r in residuals :: (x, r);
    assert FinitelyMany(g, start, e, universe);
    EndsIff(g, start, e);
  }

  /** `rank` falls along every live step from a state that live walks reach. */
  ghost predicate Descends(g: Graph, start: Scope, e: PathExpr, rank: Scope -> nat) {
    forall scopes, labels, name, target ::
      && Walks(g, start, scopes, labels) && target in g.Outgoing(scopes[|labels|], name)
      && Derivative(Residual(e, labels), name) != Empty
      ==> rank(target) < rank(scopes[|labels|])
  }

  /** If what live walks reach is acyclic, `resolve` ends for every expression. */
  lemma AcyclicEnds(g: Graph, start: Scope, e: PathExpr, rank: Scope -> nat)
    requires Descends(g, start, e, rank)
    ensures Ends(g, start, e)
  {
    forall a | IsLive(g, start, e, a) ensures |a.labels| <= rank(start) {
      RankFalls(g, start, e, rank, a.scopes, a.labels);
    }
    assert LiveWithin(g, start, e, rank(start));
    EndsIff(g, start, e);
  }

  lemma {:induction false} RankFalls(g: Graph, start: Scope, e: PathExpr, rank: Scope -> nat,
                                     scopes: seq<Scope>, labels: Word)
    requires Descends(g, start, e, rank) && Walks(g, start, scopes, labels) && Residual(e, labels) != Empty
    ensures rank(scopes[|labels|]) + |labels| <= rank(start)
    decreases |labels|
  {
    if labels != [] {
      var n := |labels| - 1;
      assert labels[..|labels|] == labels;
      NextAlive(e, labels, n);
      FrontAlive(e, labels, n);
      var s, l := scopes[..n + 1], labels[..n];
      assert EdgeAt(g, scopes, labels, n);
      forall i | 0 <= i < n ensures EdgeAt(g, s, l, i) {
        assert EdgeAt(g, scopes, labels, i);
      }
      RankFalls(g, start, e, rank, s, l);
      assert scopes[|labels|] in g.Outgoing(s[|l|], labels[n]);
    }
  }

  // ------------------------------------------------------------------ an endless search

  /** `a* a*` keeps growing new residuals along a loop labelled `a`. */
  function Grown(n: nat): PathExpr {
    if n == 0 then Then(Star(One(0)), Star(One(0))) else Or(Grown(n - 1), Star(One(0)))
  }

  lemma {:induction false} GrownStep(n: nat)
    ensures Derivative(Grown(n), 0) == Grown(n + 1)
  {
    if n > 0 { GrownStep(n - 1); }
  }

  function Depth(e: PathExpr): nat {
    match e
    case Or(a, b) => 1 + Depth(a) + Depth(b)
    case _ => 0
  }

  lemma {:induction false} GrownDepth(n: nat)
    ensures Depth(Grown(n)) == n
  {
    if n > 0 { GrownDepth(n - 1); }
  }

  const LOOP := Graph(map[], map[(0, 0) := [0]])

  lemma {:induction false} GrownResidual(zeros: Word)
    requires forall i :: 0 <= i < |zeros| ==> zeros[i] == 0
    ensures Residual(Grown(0), zeros) == Grown(|zeros|)
  {
    if zeros != [] {
      GrownResidual(zeros[..|zeros| - 1]);
      GrownStep(|zeros| - 1);
    }
  }

  /** The search for `a* a*` on the loop has simple walks of every length to follow. */
  lemma EndlessSearch(n: nat) returns (scopes: seq<Scope>, labels: Word)
    ensures |labels| == n && Walks(LOOP, 0, scopes, labels) && SimpleWalk(Grown(0), scopes, labels)
    ensures Residual(Grown(0), labels) != Empty
  {
    scopes, labels := seq(n + 1, i => 0), seq(n, i => 0);
    forall i | 0 <= i <= n ensures StateAt(Grown(0), scopes, labels, i) == (0, Grown(i)) {
      GrownResidual(labels[..i]);
    }
    forall i, j | 0 <= i < j <= n
      ensures StateAt(Grown(0), scopes, labels, i) != StateAt(Grown(0), scopes, labels, j)
    {
      GrownDepth(i);
      GrownDepth(j);
    }
    GrownResidual(labels);
  }

  /** `resolve` does not end on every input: `or` collapses only equal operands, so on a one-scope
      loop `a* a*` has ever new residuals. */
  lemma NeverEnds()
    ensures !Ends(LOOP, 0, Grown(0))
  {
    EndsIff(LOOP, 0, Grown(0));
    forall n: nat ensures !LiveWithin(LOOP, 0, Grown(0), n) {
      var scopes, labels := EndlessSearch(n + 1);
      assert IsLive(LOOP, 0, Grown(0), Answer(scopes, labels, 0));
    }
  }
}
