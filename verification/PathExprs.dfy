/** Regular path expressions over edge labels, their smart constructors and derivatives. */
module PathExprs {
  type Label = int

  type Word = seq<Label>

  datatype PathExpr =
    | Empty
    | Epsilon
    | One(name: Label)
    | Or(left: PathExpr, right: PathExpr)
    | Then(left: PathExpr, right: PathExpr)
    | Star(inner: PathExpr)

  // ------------------------------------------------------------------ the language

  ghost predicate Matches(e: PathExpr, w: Word)
    decreases e, |w|
  {
    match e
    case Empty => false
    case Epsilon => w == []
    case One(l) => w == [l]
    case Or(a, b) => Matches(a, w) || Matches(b, w)
    case Then(a, b) => exists i :: 0 <= i <= |w| && Matches(a, w[..i]) && Matches(b, w[i..])
    case Star(a) => w == [] || exists i :: 0 < i <= |w| && Matches(a, w[..i]) && Matches(e, w[i..])
  }

  lemma MatchThen(a: PathExpr, b: PathExpr, u: Word, v: Word)
    requires Matches(a, u) && Matches(b, v)
    ensures Matches(Then(a, b), u + v)
  {
    assert (u + v)[..|u|] == u && (u + v)[|u|..] == v;
  }

  lemma SplitThen(a: PathExpr, b: PathExpr, w: Word) returns (i: nat)
    requires Matches(Then(a, b), w)
    ensures i <= |w| && Matches(a, w[..i]) && Matches(b, w[i..])
  {
    i :| 0 <= i <= |w| && Matches(a, w[..i]) && Matches(b, w[i..]);
  }

  lemma MatchStar(a: PathExpr, u: Word, v: Word)
    requires Matches(a, u) && Matches(Star(a), v)
    ensures Matches(Star(a), u + v)
  {
    if u == [] {
      assert u + v == v;
    } else {
      assert (u + v)[..|u|] == u && (u + v)[|u|..] == v;
    }
  }

  lemma SplitStar(a: PathExpr, w: Word) returns (i: nat)
    requires Matches(Star(a), w) && w != []
    ensures 0 < i <= |w| && Matches(a, w[..i]) && Matches(Star(a), w[i..])
  {
    i :| 0 < i <= |w| && Matches(a, w[..i]) && Matches(Star(a), w[i..]);
  }

  lemma {:induction false} StarConcat(a: PathExpr, u: Word, v: Word)
    requires Matches(Star(a), u) && Matches(Star(a), v)
    ensures Matches(Star(a), u + v)
    decreases |u|
  {
    if u == [] {
      assert u + v == v;
    } else {
      var i := SplitStar(a, u);
      StarConcat(a, u[i..], v);
      MatchStar(a, u[..i], u[i..] + v);
      Rejoin(u, i, v);
    }
  }

  lemma Rejoin(u: Word, i: nat, v: Word)
    requires i <= |u|
    ensures u[..i] + (u[i..] + v) == u + v
  {
  }

  // ------------------------------------------------------------------ smart constructors

  /** `or` */
  function MkOr(a: PathExpr, b: PathExpr): PathExpr {
    if a.Empty? then b
    else if b.Empty? then a
    else if a == b then a
    else Or(a, b)
  }

  /** `then` */
  function MkThen(a: PathExpr, b: PathExpr): PathExpr {
    if a.Empty? || b.Empty? then Empty
    else if a.Epsilon? then b
    else if b.Epsilon? then a
    else Then(a, b)
  }

  /** `star` */
  function MkStar(a: PathExpr): PathExpr {
    if a.Empty? || a.Epsilon? then Epsilon
    else if a.Star? then a
    else Star(a)
  }

  lemma OrLanguage(a: PathExpr, b: PathExpr, w: Word)
    ensures Matches(MkOr(a, b), w) <==> Matches(a, w) || Matches(b, w)
  {
  }

  lemma ThenLanguage(a: PathExpr, b: PathExpr, w: Word)
    ensures Matches(MkThen(a, b), w) <==> Matches(Then(a, b), w)
  {
    if Matches(Then(a, b), w) {
      var i := SplitThen(a, b, w);
      if a.Epsilon? { assert w[i..] == w; }
      if b.Epsilon? { assert w[..i] == w; }
    }
    if Matches(MkThen(a, b), w) {
      if a.Epsilon? {
        MatchThen(a, b, [], w);
        assert [] + w == w;
      } else if b.Epsilon? {
        MatchThen(a, b, w, []);
        assert w + [] == w;
      }
    }
  }

  lemma StarLanguage(a: PathExpr, w: Word)
    ensures Matches(MkStar(a), w) <==> Matches(Star(a), w)
  {
    if a.Star? {
      if Matches(Star(a), w) { StarTwice(a.inner, w); }
      if Matches(a, w) && w != [] {
        assert w[..|w|] == w && w[|w|..] == [];
        assert Matches(Star(a), []);
      }
    } else if w != [] && Matches(Star(a), w) {
      var i := SplitStar(a, w);
    }
  }

  lemma {:induction false} StarTwice(a: PathExpr, w: Word)
    requires Matches(Star(Star(a)), w)
    ensures Matches(Star(a), w)
    decreases |w|
  {
    if w != [] {
      var i := SplitStar(Star(a), w);
      StarTwice(a, w[i..]);
      StarConcat(a, w[..i], w[i..]);
      assert w[..i] + w[i..] == w;
    }
  }

  // ------------------------------------------------------------------ nullable and derivative

  predicate Nullable(e: PathExpr) {
    match e
    case Empty => false
    case One(_) => false
    case Epsilon => true
    case Star(_) => true
    case Or(a, b) => Nullable(a) || Nullable(b)
    case Then(a, b) => Nullable(a) && Nullable(b)
  }

  lemma {:induction false} NullableIff(e: PathExpr)
    ensures Nullable(e) <==> Matches(e, [])
  {
    match e
    case Or(a, b) =>
      NullableIff(a);
      NullableIff(b);
    case Then(a, b) =>
      NullableIff(a);
      NullableIff(b);
      if Matches(e, []) {
        var w: Word := [];
        var i := SplitThen(a, b, w);
        assert w[..i] == [] && w[i..] == [];
      }
      if Nullable(e) {
        var w: Word := [];
        MatchThen(a, b, w, w);
        assert w + w == w;
      }
    case _ =>
  }

  function Derivative(e: PathExpr, l: Label): PathExpr {
    match e
    case Empty => Empty
    case Epsilon => Empty
    case One(name) => if name == l then Epsilon else Empty
    case Or(a, b) => MkOr(Derivative(a, l), Derivative(b, l))
    case Then(a, b) =>
      var first := MkThen(Derivative(a, l), b);
      if Nullable(a) then MkOr(first, Derivative(b, l)) else first
    case Star(a) => MkThen(Derivative(a, l), e)
  }

  /** `w` is in the derivative exactly when the label followed by `w` is in the original. */
  lemma {:induction false} DerivativeIff(e: PathExpr, l: Label, w: Word)
    ensures Matches(Derivative(e, l), w) <==> Matches(e, [l] + w)
    decreases e, |w|
  {
    match e
    case Or(a, b) =>
      DerivativeIff(a, l, w);
      DerivativeIff(b, l, w);
      OrLanguage(Derivative(a, l), Derivative(b, l), w);
    case Then(a, b) =>
      DerivativeThen(a, b, l, w);
    case Star(a) =>
      DerivativeStar(a, l, w);
    case Epsilon =>
      assert ([l] + w)[0] == l;
    case One(name) =>
      assert ([l] + w)[0] == l;
      if [l] + w == [name] { assert |w| == 0; }
    case Empty =>
  }

  lemma {:induction false} DerivativeThen(a: PathExpr, b: PathExpr, l: Label, w: Word)
    ensures Matches(Derivative(Then(a, b), l), w) <==> Matches(Then(a, b), [l] + w)
    decreases Then(a, b), |w|, 0
  {
    var da := Derivative(a, l);
    ThenLanguage(da, b, w);
    OrLanguage(MkThen(da, b), Derivative(b, l), w);
    NullableIff(a);
    DerivativeIff(b, l, w);
    if Matches(Then(da, b), w) {
      var i := SplitThen(da, b, w);
      DerivativeIff(a, l, w[..i]);
      ThenLabelled(a, b, l, w, i);
    }
    if Nullable(a) && Matches(b, [l] + w) {
      MatchThen(a, b, [], [l] + w);
      assert [] + ([l] + w) == [l] + w;
    }
    if Matches(Then(a, b), [l] + w) {
      var j := SplitThen(a, b, [l] + w);
      if j > 0 { DerivativeIff(a, l, w[..j - 1]); }
      ThenPieces(da, a, b, l, w, j);
    }
  }

  lemma ThenLabelled(a: PathExpr, b: PathExpr, l: Label, w: Word, i: nat)
    requires i <= |w| && Matches(a, [l] + w[..i]) && Matches(b, w[i..])
    ensures Matches(Then(a, b), [l] + w)
  {
    MatchThen(a, b, [l] + w[..i], w[i..]);
    assert [l] + w[..i] + w[i..] == [l] + w;
  }

  /** The label falls into the second part, or the first part starts with it. */
  lemma ThenPieces(da: PathExpr, a: PathExpr, b: PathExpr, l: Label, w: Word, j: nat)
    requires j <= |w| + 1 && Matches(a, ([l] + w)[..j]) && Matches(b, ([l] + w)[j..])
    requires j > 0 ==> (Matches(da, w[..j - 1]) <==> Matches(a, [l] + w[..j - 1]))
    ensures (Matches(a, []) && Matches(b, [l] + w)) || Matches(Then(da, b), w)
  {
    CutLabelled(l, w, j);
    if j > 0 {
      MatchThen(da, b, w[..j - 1], w[j - 1..]);
      assert w[..j - 1] + w[j - 1..] == w;
    }
  }

  /** Cutting a labelled word: before the label, or inside the rest. */
  lemma CutLabelled(l: Label, w: Word, j: nat)
    requires j <= |w| + 1
    ensures j == 0 ==> ([l] + w)[..j] == [] && ([l] + w)[j..] == [l] + w
    ensures j > 0 ==> ([l] + w)[..j] == [l] + w[..j - 1] && ([l] + w)[j..] == w[j - 1..]
  {
  }

  lemma {:induction false} DerivativeStar(a: PathExpr, l: Label, w: Word)
    ensures Matches(Derivative(Star(a), l), w) <==> Matches(Star(a), [l] + w)
    decreases Star(a), |w|, 0
  {
    var da := Derivative(a, l);
    ThenLanguage(da, Star(a), w);
    if Matches(Then(da, Star(a)), w) {
      var i := SplitThen(da, Star(a), w);
      DerivativeIff(a, l, w[..i]);
      MatchStar(a, [l] + w[..i], w[i..]);
      assert [l] + w[..i] + w[i..] == [l] + w;
    }
    if Matches(Star(a), [l] + w) {
      var j := SplitStar(a, [l] + w);
      assert ([l] + w)[..j] == [l] + w[..j - 1] && ([l] + w)[j..] == w[j - 1..];
      DerivativeIff(a, l, w[..j - 1]);
    }
  }

  /** The residual after a whole word. */
  function Residual(e: PathExpr, w: Word): PathExpr {
    if w == [] then e else Derivative(Residual(e, w[..|w| - 1]), w[|w| - 1])
  }

  lemma {:induction false} ResidualIff(e: PathExpr, w: Word, v: Word)
    ensures Matches(Residual(e, w), v) <==> Matches(e, w + v)
  {
    if w == [] {
      assert w + v == v;
    } else {
      var front, last := w[..|w| - 1], w[|w| - 1];
      DerivativeIff(Residual(e, front), last, v);
      ResidualIff(e, front, [last] + v);
      assert front + ([last] + v) == w + v;
    }
  }

  lemma {:induction false} ResidualConcat(e: PathExpr, u: Word, v: Word)
    ensures Residual(e, u + v) == Residual(Residual(e, u), v)
  {
    if v == [] {
      assert u + v == u;
    } else {
      var front, last := v[..|v| - 1], v[|v| - 1];
      ResidualConcat(e, u, front);
      assert (u + v)[..|u + v| - 1] == u + front && (u + v)[|u + v| - 1] == last;
    }
  }

  /** A word is accepted exactly when its residual is nullable. */
  lemma AcceptsIff(e: PathExpr, w: Word)
    ensures Nullable(Residual(e, w)) <==> Matches(e, w)
  {
    NullableIff(Residual(e, w));
    ResidualIff(e, w, []);
    assert w + [] == w;
  }

  // ------------------------------------------------------------------ dead residuals

  /** No `Empty` below the root: what the smart constructors build. */
  predicate Live(e: PathExpr) {
    match e
    case Empty => false
    case Epsilon => true
    case One(_) => true
    case Or(a, b) => Live(a) && Live(b)
    case Then(a, b) => Live(a) && Live(b)
    case Star(a) => Live(a)
  }

  predicate Smart(e: PathExpr) {
    e.Empty? || Live(e)
  }

  lemma SmartConstructors(a: PathExpr, b: PathExpr)
    requires Smart(a) && Smart(b)
    ensures Smart(MkOr(a, b)) && Smart(MkThen(a, b)) && Smart(MkStar(a))
  {
  }

  lemma {:induction false} SmartDerivative(e: PathExpr, l: Label)
    requires Smart(e)
    ensures Smart(Derivative(e, l))
  {
    match e
    case Or(a, b) =>
      SmartDerivative(a, l);
      SmartDerivative(b, l);
    case Then(a, b) =>
      SmartDerivative(a, l);
      SmartDerivative(b, l);
      SmartConstructors(Derivative(a, l), b);
      SmartConstructors(MkThen(Derivative(a, l), b), Derivative(b, l));
    case Star(a) =>
      SmartDerivative(a, l);
      SmartConstructors(Derivative(a, l), e);
    case _ =>
  }

  lemma {:induction false} SmartResidual(e: PathExpr, w: Word)
    requires Smart(e)
    ensures Smart(Residual(e, w))
  {
    if w != [] {
      SmartResidual(e, w[..|w| - 1]);
      SmartDerivative(Residual(e, w[..|w| - 1]), w[|w| - 1]);
    }
  }

  lemma {:induction false} LiveMatches(e: PathExpr) returns (w: Word)
    requires Live(e)
    ensures Matches(e, w)
  {
    match e
    case Epsilon => w := [];
    case One(l) => w := [l];
    case Or(a, b) => w := LiveMatches(a);
    case Then(a, b) =>
      var u := LiveMatches(a);
      var v := LiveMatches(b);
      MatchThen(a, b, u, v);
      w := u + v;
    case Star(a) => w := [];
  }

  /** For expressions built by the smart constructors and their residuals, being `Empty` is the
      same as matching nothing. */
  lemma EmptyIffDead(e: PathExpr, w: Word)
    requires Smart(e)
    ensures Residual(e, w) == Empty <==> forall v: Word :: !Matches(e, w + v)
  {
    SmartResidual(e, w);
    var r := Residual(e, w);
    if r != Empty {
      var v := LiveMatches(r);
      ResidualIff(e, w, v);
    } else {
      forall v: Word ensures !Matches(e, w + v) { ResidualIff(e, w, v); }
    }
  }

  // ------------------------------------------------------------------ labels

  /** `labels`: the distinct names in first-appearance order, appended to `out`. */
  function Walk(e: PathExpr, out: seq<Label>): seq<Label> {
    match e
    case Empty => out
    case Epsilon => out
    case One(l) => if l in out then out else out + [l]
    case Or(a, b) => Walk(b, Walk(a, out))
    case Then(a, b) => Walk(b, Walk(a, out))
    case Star(a) => Walk(a, out)
  }

  function Labels(e: PathExpr): seq<Label> {
    Walk(e, [])
  }

  predicate Named(e: PathExpr, l: Label) {
    match e
    case Empty => false
    case Epsilon => false
    case One(name) => name == l
    case Or(a, b) => Named(a, l) || Named(b, l)
    case Then(a, b) => Named(a, l) || Named(b, l)
    case Star(a) => Named(a, l)
  }

  ghost predicate NoRepeats(s: seq<Label>) {
    forall i, j :: 0 <= i < j < |s| ==> s[i] != s[j]
  }

  lemma {:induction false} WalkHolds(e: PathExpr, out: seq<Label>)
    requires NoRepeats(out)
    ensures NoRepeats(Walk(e, out))
    ensures forall l :: l in Walk(e, out) <==> l in out || Named(e, l)
  {
    match e
    case Or(a, b) =>
      WalkHolds(a, out);
      WalkHolds(b, Walk(a, out));
    case Then(a, b) =>
      WalkHolds(a, out);
      WalkHolds(b, Walk(a, out));
    case Star(a) => WalkHolds(a, out);
    case _ =>
  }

  /** Labels that are not listed lead nowhere, so walking the listed ones loses nothing. */
  lemma {:induction false} UnnamedIsDead(e: PathExpr, l: Label)
    requires !Named(e, l)
    ensures Derivative(e, l) == Empty
  {
    match e
    case Or(a, b) =>
      UnnamedIsDead(a, l);
      UnnamedIsDead(b, l);
    case Then(a, b) =>
      UnnamedIsDead(a, l);
      UnnamedIsDead(b, l);
    case Star(a) => UnnamedIsDead(a, l);
    case _ =>
  }

  lemma LabelsComplete(e: PathExpr, l: Label)
    ensures NoRepeats(Labels(e))
    ensures Derivative(e, l) != Empty ==> l in Labels(e)
  {
    WalkHolds(e, []);
    if !Named(e, l) { UnnamedIsDead(e, l); }
  }
}
