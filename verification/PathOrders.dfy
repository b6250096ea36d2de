/** Label preferences, the order they induce on paths, and visible paths. */
module PathOrders {
  import opened Wrappers
  import opened PathExprs

  type Pair = (Label, Label)

  // ------------------------------------------------------------------ reachability

  ghost predicate Chained(given: set<Pair>, path: seq<Label>) {
    forall i, j :: 0 <= i && j == i + 1 && j < |path| ==> (path[i], path[j]) in given
  }

  /** A non-empty chain of given pairs leads from `a` to `b`. */
  ghost predicate Reaches(given: set<Pair>, a: Label, b: Label) {
    exists path :: ChainFrom(given, path, a, b)
  }

  ghost predicate ChainFrom(given: set<Pair>, path: seq<Label>, a: Label, b: Label) {
    |path| >= 2 && path[0] == a && path[|path| - 1] == b && Chained(given, path)
  }

  lemma ReachesStep(given: set<Pair>, a: Label, b: Label)
    requires (a, b) in given
    ensures Reaches(given, a, b)
  {
    assert ChainFrom(given, [a, b], a, b);
  }

  lemma ReachesJoin(given: set<Pair>, a: Label, b: Label, c: Label)
    requires Reaches(given, a, b) && Reaches(given, b, c)
    ensures Reaches(given, a, c)
  {
    var p :| ChainFrom(given, p, a, b);
    var q :| ChainFrom(given, q, b, c);
    var path := p + q[1..];
    forall i, j | 0 <= i && j == i + 1 && j < |path| ensures (path[i], path[j]) in given {
      if j < |p| {
        assert (p[i], p[j]) in given;
      } else {
        assert path[i] == q[i - |p| + 1] && path[j] == q[j - |p| + 1];
      }
    }
    assert ChainFrom(given, path, a, c);
  }

  lemma ReachesMore(given: set<Pair>, more: set<Pair>, a: Label, b: Label)
    requires given <= more && Reaches(given, a, b)
    ensures Reaches(more, a, b)
  {
    var path :| ChainFrom(given, path, a, b);
    assert ChainFrom(more, path, a, b);
  }

  // ------------------------------------------------------------------ prefer

  /** The relation is closed under composition, the diagonal left out. */
  ghost predicate ClosedOff(relations: seq<Pair>) {
    forall x, y :: x in relations && y in relations && x.1 == y.0 && x.0 != y.1 ==> (x.0, y.1) in relations
  }

  /** Every pair is off the diagonal and reachable. */
  ghost predicate Sound(relations: seq<Pair>, given: set<Pair>) {
    forall x :: x in relations ==> x.0 != x.1 && Reaches(given, x.0, x.1)
  }

  ghost predicate NoRepeated(relations: seq<Pair>) {
    forall i, j :: 0 <= i < j < |relations| ==> relations[i] != relations[j]
  }

  /** The stored relation is reachability over the given pairs minus the diagonal. */
  ghost predicate Represents(relations: seq<Pair>, given: set<Pair>) {
    && NoRepeated(relations)
    && forall a, b :: (a, b) in relations <==> a != b && Reaches(given, a, b)
  }

  /** A closed relation holding the given pairs holds every chain. */
  lemma {:induction false} ClosedHoldsChains(relations: seq<Pair>, given: set<Pair>, path: seq<Label>, a: Label,
                                             b: Label)
    requires ClosedOff(relations) && ChainFrom(given, path, a, b) && a != b
    requires forall x :: x in given && x.0 != x.1 ==> x in relations
    ensures (a, b) in relations
    decreases |path|
  {
    var c := path[1];
    assert (path[0], path[1]) in given;
    if c != b {
      var rest := path[1..];
      forall i, j | 0 <= i && j == i + 1 && j < |rest| ensures (rest[i], rest[j]) in given {
        assert (path[i + 1], path[j + 1]) in given;
      }
      ClosedHoldsChains(relations, given, rest, c, b);
      assert c == a || (a, c) in relations;
    }
  }

  function Side(relations: seq<Pair>): set<Label> {
    (set x | x in relations :: x.0) + (set x | x in relations :: x.1)
  }

  /** Everything between the labels of a relation. */
  function Square(relations: seq<Pair>): set<Pair> {
    set a, b | a in Side(relations) && b in Side(relations) :: (a, b)
  }

  ghost predicate Holds(relations: seq<Pair>, given: set<Pair>) {
    forall x :: x in given && x.0 != x.1 ==> x in relations
  }

  ghost predicate Within(relations: seq<Pair>, square: set<Pair>) {
    forall x :: x in relations ==> x in square
  }

  lemma SquareHolds(relations: seq<Pair>)
    ensures Within(relations, Square(relations))
    ensures Composable(relations, Square(relations))
  {
    forall x | x in relations ensures x in Square(relations) {
      var (a, b) := x;
      assert a in Side(relations) && b in Side(relations);
    }
  }

  ghost predicate Composable(relations: seq<Pair>, square: set<Pair>) {
    forall x, y :: x in relations && y in relations ==> (x.0, y.1) in square
  }

  /** The relation the closure loop starts from. */
  function WithPair(preferred: seq<Pair>, better: Label, worse: Label): seq<Pair> {
    if better != worse && (better, worse) !in preferred then preferred + [(better, worse)] else preferred
  }

  lemma StartClosing(preferred: seq<Pair>, better: Label, worse: Label, given: set<Pair>)
    requires Represents(preferred, given)
    ensures var relations, all := WithPair(preferred, better, worse), given + {(better, worse)};
      NoRepeated(relations) && Sound(relations, all) && Holds(relations, all)
  {
    var relations, all := WithPair(preferred, better, worse), given + {(better, worse)};
    ReachesStep(all, better, worse);
    forall x | x in preferred ensures x.0 != x.1 && Reaches(all, x.0, x.1) {
      assert (x.0, x.1) in preferred;
      ReachesMore(given, all, x.0, x.1);
    }
    forall x | x in all && x.0 != x.1 ensures x in relations {
      if x in given {
        ReachesStep(given, x.0, x.1);
        assert (x.0, x.1) in preferred;
      }
    }
  }

  lemma ClosedRepresents(relations: seq<Pair>, all: set<Pair>)
    requires NoRepeated(relations) && Sound(relations, all) && Holds(relations, all) && ClosedOff(relations)
    ensures Represents(relations, all)
  {
    forall a, b ensures (a, b) in relations <==> a != b && Reaches(all, a, b) {
      if a != b && Reaches(all, a, b) {
        var path :| ChainFrom(all, path, a, b);
        ClosedHoldsChains(relations, all, path, a, b);
      }
      if (a, b) in relations {
        var x := (a, b);
        assert x.0 != x.1 && Reaches(all, x.0, x.1);
      }
    }
  }

  /** `PathOrder::prefer` */
  method Prefer(preferred: seq<Pair>, better: Label, worse: Label, ghost given: set<Pair>)
    returns (relations: seq<Pair>)
    requires Represents(preferred, given)
    ensures Represents(relations, given + {(better, worse)})
  {
    relations := preferred;
    ghost var all := given + {(better, worse)};
    StartClosing(preferred, better, worse, given);
    if better != worse && (better, worse) !in relations {
      relations := relations + [(better, worse)];
    }
    relations := CloseAll(relations, all);
    ClosedRepresents(relations, all);
  }

  /** The closure loop of `prefer`. */
  method CloseAll(first: seq<Pair>, ghost all: set<Pair>) returns (relations: seq<Pair>)
    requires NoRepeated(first) && Sound(first, all) && Holds(first, all)
    ensures NoRepeated(relations) && Sound(relations, all) && Holds(relations, all) && ClosedOff(relations)
  {
    relations := first;
    ghost var square := Square(relations);
    SquareHolds(relations);
    var changed := true;
    while changed
      invariant NoRepeated(relations) && Sound(relations, all) && Holds(relations, all)
      invariant Within(relations, square) && Composable(relations, square)
      invariant !changed ==> ClosedOff(relations)
      decreases |square - Members(relations)|, changed
    {
      ghost var before := relations;
      relations, changed := CloseOnce(relations, all, square);
      Shrinks(square, before, relations, changed);
      ComposableStays(first, square, relations);
    }
  }

  lemma ComposableStays(first: seq<Pair>, square: set<Pair>, relations: seq<Pair>)
    requires square == Square(first) && Within(relations, square)
    ensures Composable(relations, square)
  {
    forall x, y | x in relations && y in relations ensures (x.0, y.1) in square {
      assert x in square && y in square;
    }
  }

  function Members(relations: seq<Pair>): set<Pair> {
    set x | x in relations
  }

  lemma Shrinks(square: set<Pair>, before: seq<Pair>, now: seq<Pair>, changed: bool)
    requires forall x :: x in before ==> x in now
    requires changed ==> exists x :: x in now && x !in before && x in square
    ensures |square - Members(now)| <= |square - Members(before)|
    ensures changed ==> |square - Members(now)| < |square - Members(before)|
  {
    var a, b := square - Members(now), square - Members(before);
    assert a <= b;
    Smaller(a, b);
    if changed {
      var x :| x in now && x !in before && x in square;
      assert x in b && x !in a;
      Smaller(a, b - {x});
    }
  }

  lemma {:induction false} Smaller<T>(a: set<T>, b: set<T>)
    requires a <= b
    ensures |a| <= |b|
  {
    if a != {} {
      var x :| x in a;
      Smaller(a - {x}, b - {x});
    }
  }

  /** One round over a snapshot. */
  method CloseOnce(snapshot: seq<Pair>, ghost given: set<Pair>, ghost square: set<Pair>)
    returns (relations: seq<Pair>, changed: bool)
    requires NoRepeated(snapshot) && Sound(snapshot, given)
    requires Composable(snapshot, square) && Within(snapshot, square)
    ensures NoRepeated(relations) && Sound(relations, given)
    ensures forall x :: x in snapshot ==> x in relations
    ensures Within(relations, square)
    ensures changed ==> exists x :: x in relations && x !in snapshot && x in square
    ensures !changed ==> relations == snapshot && ClosedOff(relations)
  {
    relations, changed := snapshot, false;
    for i := 0 to |snapshot|
      invariant NoRepeated(relations) && Sound(relations, given)
      invariant forall x :: x in snapshot ==> x in relations
      invariant Within(relations, square)
      invariant changed ==> exists x :: x in relations && x !in snapshot && x in square
      invariant !changed ==> relations == snapshot
      invariant forall k :: 0 <= k < i ==> Composed(snapshot, snapshot[k], relations)
    {
      relations, changed := CloseLeft(snapshot, i, relations, changed, given, square);
    }
    if !changed {
      forall x, y | x in relations && y in relations && x.1 == y.0 && x.0 != y.1
        ensures (x.0, y.1) in relations
      {
        var k :| 0 <= k < |snapshot| && snapshot[k] == x;
        assert Composed(snapshot, snapshot[k], relations);
      }
    }
  }

  /** Every composition of `x` with a pair of the snapshot is there. */
  ghost predicate Composed(snapshot: seq<Pair>, x: Pair, relations: seq<Pair>) {
    forall y :: y in snapshot && x.1 == y.0 && x.0 != y.1 ==> (x.0, y.1) in relations
  }

  /** The inner loop of a round. */
  method CloseLeft(snapshot: seq<Pair>, i: nat, before: seq<Pair>, already: bool, ghost given: set<Pair>,
                   ghost square: set<Pair>) returns (relations: seq<Pair>, changed: bool)
    requires i < |snapshot| && NoRepeated(before) && Sound(before, given) && Sound(snapshot, given)
    requires forall x :: x in snapshot ==> x in before
    requires Within(before, square) && Composable(snapshot, square)
    requires already ==> exists x :: x in before && x !in snapshot && x in square
    requires !already ==> before == snapshot
    ensures NoRepeated(relations) && Sound(relations, given)
    ensures forall x :: x in before ==> x in relations
    ensures Within(relations, square)
    ensures changed ==> exists x :: x in relations && x !in snapshot && x in square
    ensures !changed ==> relations == snapshot
    ensures Composed(snapshot, snapshot[i], relations)
  {
    relations, changed := before, already;
    var left := snapshot[i];
    for j := 0 to |snapshot|
      invariant NoRepeated(relations) && Sound(relations, given)
      invariant forall x :: x in before ==> x in relations
      invariant Within(relations, square)
      invariant changed ==> exists x :: x in relations && x !in snapshot && x in square
      invariant !changed ==> relations == snapshot
      invariant Composed(snapshot[..j], left, relations)
    {
      var right := snapshot[j];
      assert snapshot[..j + 1] == snapshot[..j] + [right];
      if left.1 == right.0 && left.0 != right.1 && (left.0, right.1) !in relations {
        ReachesJoin(given, left.0, left.1, right.1);
        var pair := (left.0, right.1);
        relations := relations + [pair];
        assert pair in relations && pair !in snapshot && pair in square;
        changed := true;
      }
    }
    assert snapshot[..|snapshot|] == snapshot;
  }

  // ------------------------------------------------------------------ comparing paths

  datatype Ordering = Less | Equal | Greater

  /** `PathOrder::compare`, on the label words of two paths. */
  function Compare(preferred: seq<Pair>, left: Word, right: Word): Option<Ordering> {
    if left != [] && right != [] then
      if left[0] == right[0] then Compare(preferred, left[1..], right[1..])
      else if (left[0], right[0]) in preferred then Some(Greater)
      else if (right[0], left[0]) in preferred then Some(Less)
      else None
    else if |left| < |right| then Some(Greater)
    else if |left| == |right| then Some(Equal)
    else Some(Less)
  }

  /** The loop of `compare` answers which path goes ahead under the given preferences. */
  method ComparePaths(preferred: seq<Pair>, left: Word, right: Word, ghost given: set<Pair>)
    returns (r: Option<Ordering>)
    ensures r == Compare(preferred, left, right)
    ensures Represents(preferred, given) ==> Judges(given, left, right, r)
  {
    if Represents(preferred, given) { CompareJudges(preferred, given, left, right); }
    var i := 0;
    assert left[0..] == left && right[0..] == right;
    while i < |left| && i < |right|
      invariant 0 <= i <= |left| && i <= |right|
      invariant Compare(preferred, left[i..], right[i..]) == Compare(preferred, left, right)
    {
      assert left[i..][1..] == left[i + 1..] && right[i..][1..] == right[i + 1..];
      if left[i] != right[i] {
        if (left[i], right[i]) in preferred { return Some(Greater); }
        if (right[i], left[i]) in preferred { return Some(Less); }
        return None;
      }
      i := i + 1;
    }
    return Some(if |left| < |right| then Greater else if |left| == |right| then Equal else Less);
  }

  /** After `k` common labels, `left` continues with a label preferred to that of `right`, or ends
      while `right` goes on. */
  ghost predicate AheadAt(given: set<Pair>, left: Word, right: Word, k: nat) {
    && k <= |left| && k <= |right| && left[..k] == right[..k]
    && if k < |left| && k < |right| then left[k] != right[k] && Reaches(given, left[k], right[k])
       else |left| < |right|
  }

  /** `left` goes ahead of `right` under the given preferences. */
  ghost predicate Ahead(given: set<Pair>, left: Word, right: Word) {
    exists k: nat :: AheadAt(given, left, right, k)
  }

  lemma AheadCons(given: set<Pair>, left: Word, right: Word)
    requires left != [] && right != []
    ensures Ahead(given, left, right) <==>
      if left[0] == right[0] then Ahead(given, left[1..], right[1..]) else Reaches(given, left[0], right[0])
  {
    if Ahead(given, left, right) {
      var k: nat :| AheadAt(given, left, right, k);
      if k > 0 {
        var n: nat := k - 1;
        assert left[..k][0] == right[..k][0];
        assert left[1..][..n] == left[..k][1..] && right[1..][..n] == right[..k][1..];
        assert AheadAt(given, left[1..], right[1..], n);
      }
    }
    if left[0] == right[0] && Ahead(given, left[1..], right[1..]) {
      var n: nat :| AheadAt(given, left[1..], right[1..], n);
      var k: nat := n + 1;
      assert left[..k] == [left[0]] + left[1..][..n] && right[..k] == [right[0]] + right[1..][..n];
      assert AheadAt(given, left, right, k);
    }
    if left[0] != right[0] && Reaches(given, left[0], right[0]) {
      assert AheadAt(given, left, right, 0);
    }
  }

  lemma AheadEnds(given: set<Pair>, left: Word, right: Word)
    requires left == [] || right == []
    ensures Ahead(given, left, right) <==> |left| < |right|
  {
    if |left| < |right| { assert AheadAt(given, left, right, 0); }
  }

  /** What a comparison answers, in terms of the given preferences. */
  ghost predicate Judges(given: set<Pair>, left: Word, right: Word, r: Option<Ordering>) {
    && (r == Some(Greater) <==> Ahead(given, left, right))
    && (r == Some(Less) <==> Ahead(given, right, left) && !Ahead(given, left, right))
    && (r == Some(Equal) <==> left == right)
  }

  /** The comparison answers exactly which path goes ahead. */
  lemma {:induction false} CompareJudges(preferred: seq<Pair>, given: set<Pair>, left: Word, right: Word)
    requires Represents(preferred, given)
    ensures Judges(given, left, right, Compare(preferred, left, right))
  {
    if left == [] || right == [] {
      AheadEnds(given, left, right);
      AheadEnds(given, right, left);
    } else {
      AheadCons(given, left, right);
      AheadCons(given, right, left);
      if left[0] == right[0] {
        CompareJudges(preferred, given, left[1..], right[1..]);
        assert left == [left[0]] + left[1..] && right == [right[0]] + right[1..];
      } else {
        assert (left[0], right[0]) in preferred <==> Reaches(given, left[0], right[0]);
        assert (right[0], left[0]) in preferred <==> Reaches(given, right[0], left[0]);
      }
    }
  }

  /** Over acyclic preferences at most one of two paths goes ahead, so the answers mirror. */
  lemma AheadOneWay(preferred: seq<Pair>, given: set<Pair>, left: Word, right: Word)
    requires Represents(preferred, given) && Acyclic(given) && Ahead(given, left, right)
    ensures !Ahead(given, right, left)
  {
    OneWayIffAcyclic(preferred, given);
    CompareJudges(preferred, given, left, right);
    CompareJudges(preferred, given, right, left);
    BeatsAsymmetric(preferred, left, right);
  }

  predicate Beats(preferred: seq<Pair>, left: Word, right: Word) {
    Compare(preferred, left, right) == Some(Greater)
  }

  /** No two different labels are preferred to each other. */
  ghost predicate OneWay(preferred: seq<Pair>) {
    forall a, b :: (a, b) in preferred ==> (b, a) !in preferred
  }

  /** No label is reachable from another and back. */
  ghost predicate Acyclic(given: set<Pair>) {
    forall a, b :: a != b && Reaches(given, a, b) ==> !Reaches(given, b, a)
  }

  lemma OneWayIffAcyclic(preferred: seq<Pair>, given: set<Pair>)
    requires Represents(preferred, given)
    ensures OneWay(preferred) <==> Acyclic(given)
  {
    if OneWay(preferred) {
      forall a, b | a != b && Reaches(given, a, b) ensures !Reaches(given, b, a) {
        assert (a, b) in preferred && (b, a) !in preferred;
      }
    }
    if Acyclic(given) {
      forall a, b | (a, b) in preferred ensures (b, a) !in preferred { }
    }
  }

  lemma {:induction false} BeatsIrreflexive(preferred: seq<Pair>, w: Word)
    ensures !Beats(preferred, w, w)
  {
    if w != [] { BeatsIrreflexive(preferred, w[1..]); }
  }

  lemma {:induction false} BeatsAsymmetric(preferred: seq<Pair>, a: Word, b: Word)
    requires OneWay(preferred) && Beats(preferred, a, b)
    ensures Compare(preferred, b, a) == Some(Less)
  {
    if a != [] && b != [] && a[0] == b[0] { BeatsAsymmetric(preferred, a[1..], b[1..]); }
  }

  lemma {:induction false} BeatsTransitive(preferred: seq<Pair>, a: Word, b: Word, c: Word)
    requires OneWay(preferred) && ClosedOff(preferred)
    requires Beats(preferred, a, b) && Beats(preferred, b, c)
    ensures Beats(preferred, a, c)
  {
    if a != [] && b != [] && c != [] {
      if a[0] == b[0] == c[0] {
        BeatsTransitive(preferred, a[1..], b[1..], c[1..]);
      } else if a[0] != b[0] && b[0] != c[0] {
        var x, y := (a[0], b[0]), (b[0], c[0]);
        assert x in preferred && y in preferred;
        assert (b[0], a[0]) !in preferred;
      }
    }
  }

  lemma RepresentedClosed(preferred: seq<Pair>, given: set<Pair>)
    requires Represents(preferred, given)
    ensures ClosedOff(preferred)
  {
    forall x, y | x in preferred && y in preferred && x.1 == y.0 && x.0 != y.1
      ensures (x.0, y.1) in preferred
    {
      assert (x.0, x.1) in preferred && (y.0, y.1) in preferred;
      ReachesJoin(given, x.0, x.1, y.1);
    }
  }

  /** "Greater" is a strict partial order on paths exactly when the given preferences are
      acyclic. */
  lemma StrictIffAcyclic(preferred: seq<Pair>, given: set<Pair>)
    requires Represents(preferred, given)
    ensures Acyclic(given) <==>
      forall a, b :: Beats(preferred, a, b) ==> !Beats(preferred, b, a)
    ensures Acyclic(given) ==>
      forall a, b, c :: Beats(preferred, a, b) && Beats(preferred, b, c) ==> Beats(preferred, a, c)
  {
    OneWayIffAcyclic(preferred, given);
    RepresentedClosed(preferred, given);
    if OneWay(preferred) {
      forall a, b | Beats(preferred, a, b) ensures !Beats(preferred, b, a) {
        BeatsAsymmetric(preferred, a, b);
      }
      forall a, b, c | Beats(preferred, a, b) && Beats(preferred, b, c) ensures Beats(preferred, a, c) {
        BeatsTransitive(preferred, a, b, c);
      }
    } else {
      var x, y :| (x, y) in preferred && (y, x) in preferred;
      assert Reaches(given, x, y) && x != y;
      assert Beats(preferred, [x], [y]) && Beats(preferred, [y], [x]);
    }
  }
}
