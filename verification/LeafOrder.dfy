/** Fractional ordering labels of tape leaves.

    A label is a finite binary fraction 0.b0 b1 b2 ...; omitted bits are zero.  The order is
    the numeric one, written as the lexicographic comparison of zero-padded bit strings. */
module LeafOrder {
  import opened Wrappers

  datatype Ordering = Less | Equal | Greater

  /** Bits of one label, most significant first; `true` stands for 1. */
  datatype Key = Key(bits: seq<bool>) {
    /** The bit at position `i`, zero beyond the stored precision. */
    predicate Bit(i: nat) {
      i < |bits| && bits[i]
    }

    /** Labels stored in a tape: canonical (no trailing zero) and non-zero. */
    predicate Valid() {
      |bits| > 0 && bits[|bits| - 1]
    }
  }

  /** The label order, stated on padded bits. */
  predicate Before(a: Key, b: Key) {
    exists i :: 0 <= i < |b.bits| && BeforeAt(a, b, i)
  }

  predicate BeforeAt(a: Key, b: Key, i: nat) {
    !a.Bit(i) && b.Bit(i) && SameBits(a, b, i)
  }

  predicate SameBits(a: Key, b: Key, n: nat) {
    forall j :: 0 <= j < n ==> a.Bit(j) == b.Bit(j)
  }

  predicate AtMost(a: Key, b: Key) {
    a == b || Before(a, b)
  }

  lemma BeforeIntro(a: Key, b: Key, i: nat)
    requires BeforeAt(a, b, i)
    ensures Before(a, b)
  {
    assert i < |b.bits|;
  }

  lemma BeforeIrreflexive(a: Key)
    ensures !Before(a, a)
  {
  }

  lemma BeforeTransitive(a: Key, b: Key, c: Key)
    requires Before(a, b) && Before(b, c)
    ensures Before(a, c)
  {
    var i :| 0 <= i < |b.bits| && BeforeAt(a, b, i);
    var j :| 0 <= j < |c.bits| && BeforeAt(b, c, j);
    var k := if i < j then i else j;
    assert SameBits(a, c, k);
    BeforeIntro(a, c, k);
  }

  lemma BeforeAsymmetric(a: Key, b: Key)
    requires Before(a, b)
    ensures !Before(b, a)
  {
    if Before(b, a) {
      BeforeTransitive(a, b, a);
      BeforeIrreflexive(a);
    }
  }

  /** On canonical labels agreeing on every padded bit means being the same label. */
  lemma SameBitsEqual(a: Key, b: Key, n: nat)
    requires a.Valid() && b.Valid()
    requires |a.bits| <= n && |b.bits| <= n && SameBits(a, b, n)
    ensures a == b
  {
    assert a.Bit(|a.bits| - 1) && b.Bit(|a.bits| - 1);
    assert a.Bit(|b.bits| - 1) && b.Bit(|b.bits| - 1);
    assert |a.bits| == |b.bits|;
    forall j | 0 <= j < |a.bits| ensures a.bits[j] == b.bits[j] {
      assert a.Bit(j) == b.Bit(j);
    }
  }

  /** `Ord::cmp`: scans both labels to the larger width.  On canonical labels the three
      outcomes are exactly before, same label, after, so the derived equality agrees. */
  method Compare(a: Key, b: Key) returns (order: Ordering)
    requires a.Valid() && b.Valid()
    ensures order == Less <==> Before(a, b)
    ensures order == Greater <==> Before(b, a)
    ensures order == Equal <==> a == b
  {
    var width := if |a.bits| < |b.bits| then |b.bits| else |a.bits|;
    var index := 0;
    while index < width
      invariant index <= width
      invariant SameBits(a, b, index)
    {
      var left := index < |a.bits| && a.bits[index];
      var right := index < |b.bits| && b.bits[index];
      if left != right {
        if right {
          assert BeforeAt(a, b, index);
          BeforeAsymmetric(a, b);
          BeforeIrreflexive(a);
          return Less;
        }
        assert BeforeAt(b, a, index);
        BeforeAsymmetric(b, a);
        BeforeIrreflexive(a);
        return Greater;
      }
      index := index + 1;
    }
    SameBitsEqual(a, b, width);
    BeforeIrreflexive(a);
    return Equal;
  }

  lemma BeforeTotal(a: Key, b: Key)
    requires a.Valid() && b.Valid()
    ensures Before(a, b) || a == b || Before(b, a)
  {
    var width := if |a.bits| < |b.bits| then |b.bits| else |a.bits|;
    if SameBits(a, b, width) {
      SameBitsEqual(a, b, width);
    } else {
      var i := FirstDifference(a, b, width);
      if a.Bit(i) {
        BeforeIntro(b, a, i);
      } else {
        BeforeIntro(a, b, i);
      }
    }
  }

  lemma FirstDifference(a: Key, b: Key, n: nat) returns (i: nat)
    requires !SameBits(a, b, n)
    ensures i < n && a.Bit(i) != b.Bit(i) && SameBits(a, b, i)
  {
    i := 0;
    while a.Bit(i) == b.Bit(i)
      invariant i <= n && SameBits(a, b, i)
      decreases n - i
    {
      i := i + 1;
    }
  }

  // ------------------------------------------------------------------ construction

  /** Drops trailing zero bits. */
  function Canonical(bits: seq<bool>): (key: Key)
    ensures |key.bits| <= |bits|
    ensures forall i: nat :: key.Bit(i) == Key(bits).Bit(i)
    ensures key.bits == [] || key.Valid()
  {
    if |bits| > 0 && !bits[|bits| - 1] then Canonical(bits[..|bits| - 1]) else Key(bits)
  }

  function Zeros(n: nat): (s: seq<bool>)
    ensures |s| == n && forall i :: 0 <= i < n ==> !s[i]
  {
    seq(n, i => false)
  }

  const HALF := Key([true])

  /** The label padded with zeros to `precision - 1` bits and followed by a one. */
  function WithIncrementAt(key: Key, precision: nat): (r: Key)
    requires precision > |key.bits|
    ensures r.Valid() && |r.bits| == precision
    ensures BeforeAt(key, r, precision - 1)
  {
    var bits := key.bits + Zeros(precision - 1 - |key.bits|) + [true];
    Canonical(bits)
  }

  /** A label below `right`, obtained by halving it. */
  function Halved(right: Key): (r: Key)
    requires right.Valid()
    ensures r.Valid() && Before(r, right)
  {
    var r := Canonical([false] + right.bits);
    HalvedBefore(right, r);
    r
  }

  lemma HalvedBefore(right: Key, r: Key)
    requires right.Valid() && r == Canonical([false] + right.bits)
    ensures r.Valid() && Before(r, right)
  {
    var shifted := Key([false] + right.bits);
    assert shifted.Bit(|right.bits|);
    assert r.Bit(|right.bits|);
    var i := 0;
    while !right.bits[i]
      invariant 0 <= i < |right.bits|
      invariant forall j :: 0 <= j < i ==> !right.bits[j]
      decreases |right.bits| - i
    {
      i := i + 1;
    }
    forall j | 0 <= j <= i ensures !shifted.Bit(j) {
    }
    assert BeforeAt(r, right, i);
  }

  function Above(left: Key): (r: Key)
    requires left.Valid()
    ensures r.Valid() && Before(left, r)
  {
    var r := WithIncrementAt(left, |left.bits| + 1);
    BeforeIntro(left, r, |left.bits|);
    r
  }

  /** A label beyond the precision of `right` cannot overshoot it. */
  lemma IncrementFits(left: Key, right: Key, precision: nat)
    requires Before(left, right)
    requires precision > |left.bits| && precision > |right.bits|
    ensures Before(WithIncrementAt(left, precision), right)
  {
    var i :| 0 <= i < |right.bits| && BeforeAt(left, right, i);
    assert BeforeAt(WithIncrementAt(left, precision), right, i);
  }

  /** The search of `between`: the first precision whose increment stays below `right`. */
  function Refine(left: Key, right: Key, precision: nat): (r: Key)
    requires Before(left, right) && precision > |left.bits|
    ensures r.Valid() && Before(left, r) && Before(r, right)
    decreases |right.bits| + 1 - precision
  {
    var candidate := WithIncrementAt(left, precision);
    BeforeIntro(left, candidate, precision - 1);
    if Before(candidate, right) then candidate
    else
      assert precision <= |right.bits| by {
        if precision > |right.bits| { IncrementFits(left, right, precision); }
      }
      Refine(left, right, precision + 1)
  }

  predicate Ordered(left: Option<Key>, right: Option<Key>) {
    && (left.Some? ==> left.value.Valid())
    && (right.Some? ==> right.value.Valid())
    && (left.Some? && right.Some? ==> Before(left.value, right.value))
  }

  /** A fresh label strictly inside the gap; unbounded precision means there always is one. */
  function Between(left: Option<Key>, right: Option<Key>): (r: Key)
    requires Ordered(left, right)
    ensures r.Valid()
    ensures left.Some? ==> Before(left.value, r)
    ensures right.Some? ==> Before(r, right.value)
  {
    match (left, right)
    case (None, None) => HALF
    case (None, Some(r)) => Halved(r)
    case (Some(l), None) => Above(l)
    case (Some(l), Some(r)) => Refine(l, r, |l.bits| + 1)
  }

  /** The loop of `between`: it terminates, and stops at the shortest increment that fits. */
  method SearchBetween(left: Key, right: Key) returns (r: Key)
    requires left.Valid() && right.Valid() && Before(left, right)
    ensures r == Between(Some(left), Some(right))
    ensures Before(left, r) && Before(r, right)
    ensures |left.bits| < |r.bits|
    ensures forall p :: |left.bits| < p < |r.bits| ==> !Before(WithIncrementAt(left, p), right)
  {
    var precision := |left.bits| + 1;
    while true
      invariant |left.bits| < precision
      invariant Between(Some(left), Some(right)) == Refine(left, right, precision)
      invariant forall p :: |left.bits| < p < precision ==> !Before(WithIncrementAt(left, p), right)
      decreases |right.bits| + 1 - precision
    {
      var candidate := WithIncrementAt(left, precision);
      if Before(candidate, right) {
        BeforeIntro(left, candidate, precision - 1);
        return candidate;
      }
      assert precision <= |right.bits| by {
        if precision > |right.bits| { IncrementFits(left, right, precision); }
      }
      precision := precision + 1;
    }
  }

  // ------------------------------------------------------------------ initial labels

  function Pow2(n: nat): (p: nat)
    ensures p >= 1
  {
    if n == 0 then 1 else 2 * Pow2(n - 1)
  }

  /** The `width` low bits of `n`, most significant first. */
  function BitsOf(n: nat, width: nat): (s: seq<bool>)
    ensures |s| == width
  {
    if width == 0 then [] else BitsOf(n / 2, width - 1) + [n % 2 == 1]
  }

  lemma {:induction false} BitsOfOrdered(m: nat, n: nat, width: nat)
    requires m < n < Pow2(width)
    ensures exists i :: 0 <= i < width && BeforeAt(Key(BitsOf(m, width)), Key(BitsOf(n, width)), i)
  {
    var a, b := BitsOf(m, width), BitsOf(n, width);
    var a', b' := BitsOf(m / 2, width - 1), BitsOf(n / 2, width - 1);
    assert a == a' + [m % 2 == 1] && b == b' + [n % 2 == 1];
    if m / 2 < n / 2 {
      BitsOfOrdered(m / 2, n / 2, width - 1);
      var i :| 0 <= i < width - 1 && BeforeAt(Key(a'), Key(b'), i);
      forall j | 0 <= j <= i ensures Key(a).Bit(j) == Key(a').Bit(j) && Key(b).Bit(j) == Key(b').Bit(j) {
      }
      assert BeforeAt(Key(a), Key(b), i);
    } else {
      assert m / 2 == n / 2;
      assert BeforeAt(Key(a), Key(b), width - 1);
    }
  }

  /** The first width whose capacity exceeds `total`. */
  function WidthFor(total: nat, width: nat): (w: nat)
    requires width == 0 || Pow2(width - 1) <= total
    ensures total < Pow2(w) && (w == 0 || Pow2(w - 1) <= total)
    decreases total + 1 - Pow2(width)
  {
    if Pow2(width) <= total then WidthFor(total, width + 1) else width
  }

  /** The label of the leaf with this ordinal among `total` initial leaves. */
  function Initial(ordinal: nat, total: nat): (key: Key)
    requires ordinal < total
    ensures key.Valid()
  {
    var width := WidthFor(total, 0);
    var key := Canonical(BitsOf(ordinal + 1, width));
    InitialNonZero(ordinal + 1, width);
    key
  }

  lemma InitialNonZero(n: nat, width: nat)
    requires 0 < n < Pow2(width)
    ensures Canonical(BitsOf(n, width)).bits != []
  {
    BitsOfOrdered(0, n, width);
    var i :| 0 <= i < width && BeforeAt(Key(BitsOf(0, width)), Key(BitsOf(n, width)), i);
    assert Canonical(BitsOf(n, width)).Bit(i);
  }

  /** Initial labels increase with the ordinal. */
  lemma InitialOrdered(m: nat, n: nat, total: nat)
    requires m < n < total
    ensures Before(Initial(m, total), Initial(n, total))
  {
    var width := WidthFor(total, 0);
    BitsOfOrdered(m + 1, n + 1, width);
    var i :| 0 <= i < width
      && BeforeAt(Key(BitsOf(m + 1, width)), Key(BitsOf(n + 1, width)), i);
    assert BeforeAt(Initial(m, total), Initial(n, total), i);
  }

  /** The two loops of `initial`: the width search and the bit-by-bit fill. */
  method BuildInitial(ordinal: nat, total: nat) returns (key: Key)
    requires ordinal < total
    ensures key == Initial(ordinal, total)
  {
    var width, capacity := 0, 1;
    while capacity <= total
      invariant capacity == Pow2(width)
      invariant width == 0 || Pow2(width - 1) <= total
      invariant WidthFor(total, 0) == WidthFor(total, width)
      decreases total + 1 - capacity
    {
      width, capacity := width + 1, capacity * 2;
    }
    var numerator := ordinal + 1;
    var bits := [];
    var shift := width;
    while shift > 0
      invariant 0 <= shift <= width
      invariant bits == BitsOf(ShiftRight(numerator, shift), width - shift)
    {
      shift := shift - 1;
      bits := bits + [ShiftRight(numerator, shift) % 2 == 1];
    }
    key := Canonical(bits);
  }

  /** `n >> shift` */
  function ShiftRight(n: nat, shift: nat): nat {
    if shift == 0 then n else ShiftRight(n, shift - 1) / 2
  }
}
