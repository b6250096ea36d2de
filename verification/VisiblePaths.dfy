/** Splitting resolved paths into visible and shadowed ones. */
module VisiblePaths {
  import opened Wrappers
  import opened PathExprs
  import opened Resolution
  import opened PathOrders

  type Shadow = (Answer, seq<Answer>)

  predicate Dominates(preferred: seq<Pair>, other: Answer, path: Answer) {
    Beats(preferred, other.labels, path.labels)
  }

  predicate Dominated(paths: seq<Answer>, preferred: seq<Pair>, path: Answer) {
    exists other :: other in paths && other != path && Dominates(preferred, other, path)
  }

  function Paths(shadowed: seq<Shadow>): seq<Answer> {
    if shadowed == [] then [] else Paths(shadowed[..|shadowed| - 1]) + [shadowed[|shadowed| - 1].0]
  }

  /** The visible dominators of one path. */
  method VisibleBy(visible: seq<Answer>, preferred: seq<Pair>, path: Answer) returns (above: seq<Answer>)
    ensures forall v :: v in above <==> v in visible && Dominates(preferred, v, path)
  {
    above := [];
    for i := 0 to |visible|
      invariant forall v :: v in above <==> v in visible[..i] && Dominates(preferred, v, path)
    {
      assert visible[..i + 1] == visible[..i] + [visible[i]];
      if Dominates(preferred, visible[i], path) { above := above + [visible[i]]; }
    }
    assert visible[..|visible|] == visible;
  }

  /** The first loop: paths that some other path dominates are set aside. */
  method Separate(paths: seq<Answer>, preferred: seq<Pair>) returns (visible: seq<Answer>, dominated: seq<Answer>)
    ensures multiset(visible) + multiset(dominated) == multiset(paths)
    ensures forall v :: v in visible ==> !Dominated(paths, preferred, v)
    ensures forall d :: d in dominated ==> Dominated(paths, preferred, d)
  {
    visible, dominated := [], [];
    for i := 0 to |paths|
      invariant multiset(visible) + multiset(dominated) == multiset(paths[..i])
      invariant forall v :: v in visible ==> !Dominated(paths, preferred, v)
      invariant forall d :: d in dominated ==> Dominated(paths, preferred, d)
    {
      assert paths[..i + 1] == paths[..i] + [paths[i]];
      if Dominated(paths, preferred, paths[i]) {
        dominated := dominated + [paths[i]];
      } else {
        visible := visible + [paths[i]];
      }
    }
    assert paths[..|paths|] == paths;
  }

  ghost predicate ListsDominators(visible: seq<Answer>, preferred: seq<Pair>, s: Shadow) {
    forall v :: v in s.1 <==> v in visible && Dominates(preferred, v, s.0)
  }

  /** The second loop: each set-aside path with its visible dominators. */
  method Attach(visible: seq<Answer>, dominated: seq<Answer>, preferred: seq<Pair>) returns (shadowed: seq<Shadow>)
    ensures Paths(shadowed) == dominated
    ensures forall s :: s in shadowed ==> s.0 in dominated && ListsDominators(visible, preferred, s)
  {
    shadowed := [];
    for i := 0 to |dominated|
      invariant Paths(shadowed) == dominated[..i]
      invariant forall s :: s in shadowed ==> s.0 in dominated && ListsDominators(visible, preferred, s)
    {
      var above := VisibleBy(visible, preferred, dominated[i]);
      ghost var before := shadowed;
      shadowed := shadowed + [(dominated[i], above)];
      assert shadowed[..|shadowed| - 1] == before;
    }
    assert dominated[..|dominated|] == dominated;
  }

  /** Some other path of the list goes ahead of `path` under the given preferences. */
  ghost predicate Overtaken(paths: seq<Answer>, given: set<Pair>, path: Answer) {
    exists other :: other in paths && Ahead(given, other.labels, path.labels)
  }

  lemma OvertakenIff(paths: seq<Answer>, preferred: seq<Pair>, given: set<Pair>, path: Answer)
    requires Represents(preferred, given)
    ensures Dominated(paths, preferred, path) <==> Overtaken(paths, given, path)
  {
    forall other: Answer ensures Dominates(preferred, other, path) <==> Ahead(given, other.labels, path.labels) {
      CompareJudges(preferred, given, other.labels, path.labels);
    }
    BeatsIrreflexive(preferred, path.labels);
  }

  /** A path is overtaken by every proper prefix of it, and by every path that continues a common
      prefix with a preferred label. */
  lemma OvertakenBy(paths: seq<Answer>, given: set<Pair>, other: Answer, path: Answer, common: Word)
    requires other in paths && common <= other.labels && common <= path.labels
    requires var k := |common|;
      || (other.labels == common && path.labels != common)
      || (k < |other.labels| && k < |path.labels| && other.labels[k] != path.labels[k]
          && (other.labels[k], path.labels[k]) in given)
    ensures Overtaken(paths, given, path)
  {
    var k := |common|;
    assert other.labels[..k] == common == path.labels[..k];
    if k < |other.labels| { ReachesStep(given, other.labels[k], path.labels[k]); }
    assert AheadAt(given, other.labels, path.labels, k);
  }

  lemma {:induction false} InPaths(shadowed: seq<Shadow>, path: Answer)
    ensures path in Paths(shadowed) <==> exists i :: 0 <= i < |shadowed| && shadowed[i].0 == path
  {
    if shadowed != [] {
      var n := |shadowed| - 1;
      InPaths(shadowed[..n], path);
      if path in Paths(shadowed[..n]) {
        var i :| 0 <= i < n && shadowed[..n][i].0 == path;
        assert shadowed[i].0 == path;
      }
      if exists i :: 0 <= i < |shadowed| && shadowed[i].0 == path {
        var i :| 0 <= i < |shadowed| && shadowed[i].0 == path;
        assert i < n ==> shadowed[..n][i].0 == path;
      }
    }
  }

  /** `partition_visible` on the paths of a set, listed in some order. */
  method PartitionVisible(paths: seq<Answer>, preferred: seq<Pair>, ghost given: set<Pair>)
    returns (visible: seq<Answer>, shadowed: seq<Shadow>)
    ensures Represents(preferred, given) ==> forall p :: p in paths ==>
      && (p in Paths(shadowed) <==> Overtaken(paths, given, p))
      && (p in visible <==> !Overtaken(paths, given, p))
    ensures multiset(visible) + multiset(Paths(shadowed)) == multiset(paths)
    ensures forall v :: v in visible ==> !Dominated(paths, preferred, v)
    ensures forall s :: s in shadowed ==> Dominated(paths, preferred, s.0)
    ensures forall s :: s in shadowed ==> ListsDominators(visible, preferred, s)
    ensures OneWay(preferred) && ClosedOff(preferred) ==> forall s :: s in shadowed ==> s.1 != []
  {
    var dominated: seq<Answer>;
    visible, dominated := Separate(paths, preferred);
    shadowed := Attach(visible, dominated, preferred);
    if OneWay(preferred) && ClosedOff(preferred) {
      forall s | s in shadowed ensures s.1 != [] {
        var v := VisibleDominator(paths, visible, dominated, preferred, s.0);
        assert ListsDominators(visible, preferred, s);
        assert v in s.1;
      }
    }
    if Represents(preferred, given) { Partitioned(paths, preferred, given, visible, shadowed); }
  }

  lemma Partitioned(paths: seq<Answer>, preferred: seq<Pair>, given: set<Pair>, visible: seq<Answer>,
                    shadowed: seq<Shadow>)
    requires Represents(preferred, given) && multiset(visible) + multiset(Paths(shadowed)) == multiset(paths)
    requires forall v :: v in visible ==> !Dominated(paths, preferred, v)
    requires forall s :: s in shadowed ==> Dominated(paths, preferred, s.0)
    ensures forall p :: p in paths ==>
      && (p in Paths(shadowed) <==> Overtaken(paths, given, p))
      && (p in visible <==> !Overtaken(paths, given, p))
  {
    forall p | p in paths
      ensures p in Paths(shadowed) <==> Overtaken(paths, given, p)
      ensures p in visible <==> !Overtaken(paths, given, p)
    {
      OvertakenIff(paths, preferred, given, p);
      InPaths(shadowed, p);
      assert p in multiset(paths);
      assert p in visible || p in Paths(shadowed);
      if p in Paths(shadowed) {
        var i :| 0 <= i < |shadowed| && shadowed[i].0 == p;
        assert shadowed[i] in shadowed;
      }
    }
  }

  /** Everything in the list that dominates `path`. */
  ghost function Above(paths: seq<Answer>, preferred: seq<Pair>, path: Answer): set<Answer> {
    set other | other in paths && Dominates(preferred, other, path)
  }

  /** Climbing from a dominated path ends at a visible one that dominates it. */
  lemma {:induction false} VisibleDominator(paths: seq<Answer>, visible: seq<Answer>, dominated: seq<Answer>,
                                            preferred: seq<Pair>, path: Answer) returns (top: Answer)
    requires OneWay(preferred) && ClosedOff(preferred)
    requires multiset(visible) + multiset(dominated) == multiset(paths)
    requires forall d :: d in dominated ==> Dominated(paths, preferred, d)
    requires Dominated(paths, preferred, path)
    ensures top in visible && Dominates(preferred, top, path)
    decreases |Above(paths, preferred, path)|
  {
    var other :| other in paths && other != path && Dominates(preferred, other, path);
    assert other in multiset(paths);
    if other in visible {
      top := other;
    } else {
      assert other in dominated;
      AboveShrinks(paths, preferred, other, path);
      top := VisibleDominator(paths, visible, dominated, preferred, other);
      BeatsTransitive(preferred, top.labels, other.labels, path.labels);
    }
  }

  lemma AboveShrinks(paths: seq<Answer>, preferred: seq<Pair>, other: Answer, path: Answer)
    requires OneWay(preferred) && ClosedOff(preferred)
    requires other in paths && Dominates(preferred, other, path)
    ensures |Above(paths, preferred, other)| < |Above(paths, preferred, path)|
  {
    var a, b := Above(paths, preferred, other), Above(paths, preferred, path);
    forall x | x in a ensures x in b {
      BeatsTransitive(preferred, x.labels, other.labels, path.labels);
    }
    BeatsIrreflexive(preferred, other.labels);
    assert other in b && other !in a;
    Smaller(a, b - {other});
  }

  /** The non-empty dominator lists need an acyclic order: as soon as two labels are preferred to
      each other, two one-step paths shadow each other and nothing is visible. */
  lemma CyclicShadowsAll(preferred: seq<Pair>, given: set<Pair>, scopes: seq<Scope>, data: int)
    returns (paths: seq<Answer>)
    requires Represents(preferred, given) && !Acyclic(given)
    ensures |paths| == 2 && paths[0] != paths[1]
    ensures Dominated(paths, preferred, paths[0]) && Dominated(paths, preferred, paths[1])
  {
    OneWayIffAcyclic(preferred, given);
    var x, y :| (x, y) in preferred && (y, x) in preferred;
    assert x != y;
    paths := [Answer(scopes, [x], data), Answer(scopes, [y], data)];
    assert Dominates(preferred, paths[0], paths[1]) && Dominates(preferred, paths[1], paths[0]);
  }
}
