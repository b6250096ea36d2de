/** What a batch of edits means, and what a list of replacements means.

    Text is a sequence of one-byte units. */
module SourceText {
  import opened Wrappers

  type Text = string

  datatype Edit = Insert(at: nat, value: Text) | Delete(start: nat, end: nat)
  {
    function Pos(): nat {
      if Insert? then at else start
    }

    predicate InBounds(len: nat) {
      if Insert? then at <= len else start <= end <= len
    }
  }

  // ------------------------------------------------------------------ the naive reading

  function Inserted(edit: Edit, p: nat): Text {
    if edit.Insert? && edit.at == p then edit.value else ""
  }

  predicate Covers(edit: Edit, p: nat) {
    edit.Delete? && edit.start <= p < edit.end
  }

  /** Everything inserted at `p`, in caller order. */
  function InsertsAt(edits: seq<Edit>, p: nat): Text {
    if edits == [] then "" else Inserted(edits[0], p) + InsertsAt(edits[1..], p)
  }

  predicate DeletedAt(edits: seq<Edit>, p: nat) {
    edits != [] && (Covers(edits[0], p) || DeletedAt(edits[1..], p))
  }

  function Kept(base: Text, edits: seq<Edit>, p: nat): Text {
    if p < |base| && !DeletedAt(edits, p) then [base[p]] else ""
  }

  /** From position `p` on: at each position the inserts in caller order, then the base unit
      unless some edit deletes it. */
  function NaiveFrom(base: Text, edits: seq<Edit>, p: nat): Text
    decreases |base| + 1 - p
  {
    if p > |base| then ""
    else InsertsAt(edits, p) + Kept(base, edits, p) + NaiveFrom(base, edits, p + 1)
  }

  function Naive(base: Text, edits: seq<Edit>): Text {
    NaiveFrom(base, edits, 0)
  }

  /** The same inserts and deletes from `p` on. */
  ghost predicate SameFrom(a: seq<Edit>, b: seq<Edit>, p: nat) {
    forall i: nat :: i >= p ==> InsertsAt(a, i) == InsertsAt(b, i) && DeletedAt(a, i) == DeletedAt(b, i)
  }

  lemma {:induction false} NaiveSame(base: Text, a: seq<Edit>, b: seq<Edit>, p: nat)
    requires SameFrom(a, b, p)
    ensures NaiveFrom(base, a, p) == NaiveFrom(base, b, p)
    decreases |base| + 1 - p
  {
    if p <= |base| { NaiveSame(base, a, b, p + 1); }
  }

  ghost predicate Untouched(edits: seq<Edit>, lo: nat, hi: nat) {
    forall i: nat :: lo <= i < hi ==> InsertsAt(edits, i) == "" && !DeletedAt(edits, i)
  }

  ghost predicate Erased(edits: seq<Edit>, lo: nat, hi: nat) {
    forall i: nat :: lo <= i < hi ==> InsertsAt(edits, i) == "" && DeletedAt(edits, i)
  }

  lemma {:induction false} NaiveUntouched(base: Text, edits: seq<Edit>, lo: nat, hi: nat)
    requires lo <= hi <= |base| && Untouched(edits, lo, hi)
    ensures NaiveFrom(base, edits, lo) == base[lo..hi] + NaiveFrom(base, edits, hi)
    decreases hi - lo
  {
    if lo < hi {
      NaiveUntouched(base, edits, lo + 1, hi);
      assert InsertsAt(edits, lo) == "" && !DeletedAt(edits, lo);
      PrependUnit(base, lo, hi, NaiveFrom(base, edits, hi));
    }
  }

  lemma PrependUnit(base: Text, lo: nat, hi: nat, rest: Text)
    requires lo < hi <= |base|
    ensures "" + [base[lo]] + (base[lo + 1..hi] + rest) == base[lo..hi] + rest
  {
    assert base[lo..hi] == [base[lo]] + base[lo + 1..hi];
  }

  lemma {:induction false} NaiveErased(base: Text, edits: seq<Edit>, lo: nat, hi: nat)
    requires lo <= hi <= |base| && Erased(edits, lo, hi)
    ensures NaiveFrom(base, edits, lo) == NaiveFrom(base, edits, hi)
    decreases hi - lo
  {
    if lo < hi { NaiveErased(base, edits, lo + 1, hi); }
  }

  // ------------------------------------------------------------------ replacements

  /** Old range `start..end` becomes `text`. */
  datatype Repl = Repl(start: nat, end: nat, text: Text)

  /** In order, not overlapping, inside `from..len`. */
  predicate Ordered(repls: seq<Repl>, from: nat, len: nat) {
    if repls == [] then from <= len
    else from <= repls[0].start <= repls[0].end && Ordered(repls[1..], repls[0].end, len)
  }

  lemma {:induction false} OrderedBounds(repls: seq<Repl>, from: nat, len: nat)
    requires Ordered(repls, from, len)
    ensures from <= len
    ensures forall i :: 0 <= i < |repls| ==> from <= repls[i].start <= repls[i].end <= len
    ensures forall i, j :: 0 <= i < j < |repls| ==> repls[i].end <= repls[j].start
  {
    if repls != [] {
      OrderedBounds(repls[1..], repls[0].end, len);
      forall i | 0 < i < |repls| ensures repls[i] == repls[1..][i - 1] { }
    }
  }

  /** The text after replacing, from old position `from` on. */
  function Replaced(base: Text, repls: seq<Repl>, from: nat): Text
    requires Ordered(repls, from, |base|)
  {
    if repls == [] then base[from..]
    else
      OrderedBounds(repls, from, |base|);
      base[from..repls[0].start] + repls[0].text + Replaced(base, repls[1..], repls[0].end)
  }

  /** Starting later only drops base units. */
  lemma ReplacedLater(base: Text, repls: seq<Repl>, from: nat, to: nat)
    requires Ordered(repls, to, |base|) && from <= to
    ensures Ordered(repls, from, |base|) && to <= |base|
    ensures Replaced(base, repls, from) == base[from..to] + Replaced(base, repls, to)
  {
    OrderedBounds(repls, to, |base|);
    if repls == [] {
      assert base[from..] == base[from..to] + base[to..];
    } else {
      var s := repls[0].start;
      assert base[from..s] == base[from..to] + base[to..s];
      Regroup(base[from..to], base[to..s], repls[0].text, Replaced(base, repls[1..], repls[0].end));
    }
  }

  /** A replacement by the very text it replaces changes nothing. */
  lemma DropEqual(base: Text, repls: seq<Repl>, from: nat)
    requires Ordered(repls, from, |base|) && repls != []
    requires repls[0].end <= |base| && repls[0].text == base[repls[0].start..repls[0].end]
    ensures Ordered(repls[1..], from, |base|)
    ensures Replaced(base, repls, from) == Replaced(base, repls[1..], from)
  {
    var r := repls[0];
    ReplacedLater(base, repls[1..], from, r.end);
    assert base[from..r.end] == base[from..r.start] + base[r.start..r.end];
  }

  /** Two touching replacements act as one. */
  lemma FuseTouching(base: Text, a: Repl, b: Repl, rest: seq<Repl>, from: nat)
    requires a.end == b.start && Ordered([a, b] + rest, from, |base|)
    ensures Ordered([Repl(a.start, b.end, a.text + b.text)] + rest, from, |base|)
    ensures Replaced(base, [Repl(a.start, b.end, a.text + b.text)] + rest, from)
         == Replaced(base, [a, b] + rest, from)
  {
    var two, one := [a, b] + rest, [Repl(a.start, b.end, a.text + b.text)] + rest;
    assert two[1..] == [b] + rest && two[1..][1..] == rest && one[1..] == rest;
    OrderedBounds(two, from, |base|);
    assert base[a.end..b.start] == "";
    var tail := Replaced(base, rest, b.end);
    assert Replaced(base, two[1..], a.end) == "" + b.text + tail;
    Fuse(base[from..a.start], a.text, b.text, tail);
  }

  lemma Fuse<T>(x: seq<T>, a: seq<T>, b: seq<T>, t: seq<T>)
    ensures x + (a + b) + t == x + a + ([] + b + t)
  {
  }

  // ------------------------------------------------------------------ places in the new text

  function Length(r: Repl): int {
    |r.text| - (r.end - r.start)
  }

  /** By how much the replacements before index `n` shift what follows. */
  function Shift(repls: seq<Repl>, n: nat): int
    requires n <= |repls|
  {
    if n == 0 then 0 else Shift(repls, n - 1) + Length(repls[n - 1])
  }

  /** Text in front of the replacements from index `n` on. */
  lemma {:induction false} ReplacedFront(base: Text, repls: seq<Repl>, n: nat)
    requires Ordered(repls, 0, |base|) && n <= |repls|
    ensures var to := if n == 0 then 0 else repls[n - 1].end;
      && Ordered(repls[n..], to, |base|) && to + Shift(repls, n) >= 0
      && |Replaced(base, repls, 0)| >= to + Shift(repls, n)
      && Replaced(base, repls, 0)[to + Shift(repls, n)..] == Replaced(base, repls[n..], to)
  {
    if n == 0 {
      assert repls[0..] == repls;
    } else {
      ReplacedFront(base, repls, n - 1);
      var before := if n == 1 then 0 else repls[n - 2].end;
      var r := repls[n - 1];
      var rest := repls[n - 1..];
      assert rest[0] == r && rest[1..] == repls[n..];
      OrderedBounds(rest, before, |base|);
      DropFront(Replaced(base, repls, 0), before + Shift(repls, n - 1), base[before..r.start], r.text,
        Replaced(base, repls[n..], r.end));
    }
  }

  lemma DropFront<T>(whole: seq<T>, at: nat, a: seq<T>, b: seq<T>, c: seq<T>)
    requires at <= |whole| && whole[at..] == a + b + c
    ensures at + |a| + |b| <= |whole| && whole[at + |a| + |b|..] == c
    ensures whole[at + |a|..at + |a| + |b|] == b
  {
    assert whole[at..][|a|..|a| + |b|] == b;
    assert whole[at..][|a| + |b|..] == c;
  }

  /** Each replacement's text stands, shifted, in the new text. */
  lemma TextStands(base: Text, repls: seq<Repl>, i: nat)
    requires Ordered(repls, 0, |base|) && i < |repls|
    ensures var at := repls[i].start + Shift(repls, i);
      && 0 <= at && at + |repls[i].text| <= |Replaced(base, repls, 0)|
      && Replaced(base, repls, 0)[at..at + |repls[i].text|] == repls[i].text
  {
    ReplacedFront(base, repls, i);
    var before := if i == 0 then 0 else repls[i - 1].end;
    var r := repls[i];
    assert repls[i..][0] == r;
    OrderedBounds(repls[i..], before, |base|);
    DropFront(Replaced(base, repls, 0), before + Shift(repls, i), base[before..r.start], r.text,
      Replaced(base, repls[i..][1..], r.end));
  }

  /** The length changes by the total shift. */
  lemma ReplacedLength(base: Text, repls: seq<Repl>)
    requires Ordered(repls, 0, |base|)
    ensures |Replaced(base, repls, 0)| == |base| + Shift(repls, |repls|)
  {
    ReplacedFront(base, repls, |repls|);
  }
}
