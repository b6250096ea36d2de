/** Which accepted batches leave splices that change nothing, alone or together. */
module SourceRuns {
  import opened Wrappers
  import opened SourceText
  import opened SourceOrder
  import opened SourceEdits

  // ------------------------------------------------------------------ runs of touching replacements

  /** The maximal runs of neighbours that touch. */
  function Runs(repls: seq<Repl>): (runs: seq<seq<Repl>>)
    ensures repls != [] ==> runs != [] && runs[0] != [] && runs[0][0] == repls[0]
    ensures forall i :: 0 <= i < |runs| ==> runs[i] != []
  {
    if repls == [] then []
    else
      var rest := Runs(repls[1..]);
      if rest != [] && repls[0].end == repls[1].start
      then [[repls[0]] + rest[0]] + rest[1..]
      else [[repls[0]]] + rest
  }

  function Texts(run: seq<Repl>): Text {
    if run == [] then "" else run[0].text + Texts(run[1..])
  }

  /** What a run replaces, and by what. */
  function Joined(run: seq<Repl>): Repl
    requires run != []
  {
    Repl(run[0].start, run[|run| - 1].end, Texts(run))
  }

  ghost predicate InTouch(run: seq<Repl>) {
    forall i, j :: 0 <= i && j == i + 1 && j < |run| ==> run[i].end == run[j].start
  }

  ghost predicate Separate(a: seq<Repl>, b: seq<Repl>) {
    a != [] && b != [] && a[|a| - 1].end != b[0].start
  }

  function Flattened(runs: seq<seq<Repl>>): seq<Repl> {
    if runs == [] then [] else runs[0] + Flattened(runs[1..])
  }

  /** Runs cut the list into pieces that touch inside, and not where it is cut. */
  lemma {:induction false} RunsAreMaximal(repls: seq<Repl>)
    ensures Flattened(Runs(repls)) == repls
    ensures forall i :: 0 <= i < |Runs(repls)| ==> InTouch(Runs(repls)[i])
    ensures forall i, j :: 0 <= i && j == i + 1 && j < |Runs(repls)| ==> Separate(Runs(repls)[i], Runs(repls)[j])
  {
    if repls != [] {
      RunsAreMaximal(repls[1..]);
      var rest := Runs(repls[1..]);
      assert repls == [repls[0]] + repls[1..];
      if rest != [] && repls[0].end == repls[1].start {
        GrownRun(repls[0], rest);
      }
    }
  }

  lemma GrownRun(r: Repl, rest: seq<seq<Repl>>)
    requires rest != [] && rest[0] != [] && r.end == rest[0][0].start
    requires forall i :: 0 <= i < |rest| ==> InTouch(rest[i])
    requires forall i, j :: 0 <= i && j == i + 1 && j < |rest| ==> Separate(rest[i], rest[j])
    ensures var runs := [[r] + rest[0]] + rest[1..];
      && Flattened(runs) == [r] + Flattened(rest)
      && (forall i :: 0 <= i < |runs| ==> InTouch(runs[i]))
      && (forall i, j :: 0 <= i && j == i + 1 && j < |runs| ==> Separate(runs[i], runs[j]))
  {
    var first := [r] + rest[0];
    assert first + Flattened(rest[1..]) == [r] + (rest[0] + Flattened(rest[1..]));
    assert InTouch(first);
  }

  function JoinedEach(runs: seq<seq<Repl>>): (r: seq<Repl>)
    requires forall i :: 0 <= i < |runs| ==> runs[i] != []
    ensures |r| == |runs| && forall i :: 0 <= i < |r| ==> r[i] == Joined(runs[i])
  {
    seq(|runs|, i requires 0 <= i < |runs| => Joined(runs[i]))
  }

  /** Fusing from the left is fusing the first replacement onto what the others fuse to. */
  lemma {:induction false} CoalescedFuses(a: Repl, repls: seq<Repl>)
    requires repls != [] && a.end == repls[0].start
    ensures Coalesced(repls) != []
    ensures Coalesced([a] + repls) == [Fusion(a, Coalesced(repls)[0])] + Coalesced(repls)[1..]
    decreases |repls|
  {
    var b, rest := repls[0], repls[1..];
    var ab := Fusion(a, b);
    assert ([a] + repls)[2..] == rest;
    assert Coalesced([a] + repls) == Coalesced([ab] + rest);
    assert repls == [b] + rest;
    if rest != [] {
      if b.end == rest[0].start {
        CoalescedFuses(ab, rest);
        CoalescedFuses(b, rest);
        Associate(a.text, b.text, Coalesced(rest)[0].text);
      } else {
        assert ([ab] + rest)[1..] == rest;
      }
    }
  }

  /** Coalescing turns each run into one replacement. */
  lemma {:induction false} CoalescedJoins(repls: seq<Repl>)
    ensures Coalesced(repls) == JoinedEach(Runs(repls))
    decreases |repls|
  {
    if repls != [] {
      var a, rest := repls[0], repls[1..];
      assert repls == [a] + rest;
      CoalescedJoins(rest);
      if rest == [] {
        JoinedCons(a, []);
      } else if a.end == rest[0].start {
        CoalescedFuses(a, rest);
        JoinedGrow(a, Runs(rest));
      } else {
        JoinedCons(a, Runs(rest));
      }
    }
  }

  lemma JoinedGrow(a: Repl, runs: seq<seq<Repl>>)
    requires runs != [] && forall i :: 0 <= i < |runs| ==> runs[i] != []
    ensures JoinedEach([[a] + runs[0]] + runs[1..])
         == [Fusion(a, JoinedEach(runs)[0])] + JoinedEach(runs)[1..]
  {
    var run := runs[0];
    assert ([a] + run)[1..] == run;
    assert Joined([a] + run) == Fusion(a, Joined(run));
  }

  lemma JoinedCons(a: Repl, runs: seq<seq<Repl>>)
    requires forall i :: 0 <= i < |runs| ==> runs[i] != []
    ensures JoinedEach([[a]] + runs) == [a] + JoinedEach(runs)
  {
    assert Texts([a]) == a.text;
  }

  // ------------------------------------------------------------------ splices that change nothing

  /** A run puts back exactly the text it covers. */
  predicate Restores(base: Text, run: seq<Repl>)
    requires run != []
  {
    run[0].start <= run[|run| - 1].end <= |base| && Texts(run) == base[run[0].start..run[|run| - 1].end]
  }

  /** The grouped replacements that change something, in runs. */
  function EffectiveRuns(base: Text, edits: seq<Edit>): seq<seq<Repl>> {
    Runs(Effective(base, Groups(Ordering(edits))))
  }

  /** Every splice that is left changes the text iff no run of at least two effective replacements
      restores what it covers. */
  lemma SplicesChangeIff(base: Text, edits: seq<Edit>)
    ensures (forall r :: r in Normal(base, edits) ==> !SameText(base, r))
       <==> forall run :: run in EffectiveRuns(base, edits) && |run| >= 2 ==> !Restores(base, run)
  {
    var kept := Effective(base, Groups(Ordering(edits)));
    var runs := Runs(kept);
    CoalescedJoins(kept);
    forall i | 0 <= i < |runs| && |runs[i]| < 2 ensures !Restores(base, runs[i]) {
      SingleChanges(base, Groups(Ordering(edits)), i);
    }
    forall i | 0 <= i < |runs| ensures SameText(base, Normal(base, edits)[i]) <==> Restores(base, runs[i]) { }
    if forall r :: r in Normal(base, edits) ==> !SameText(base, r) {
      forall run | run in runs && |run| >= 2 ensures !Restores(base, run) {
        var i :| 0 <= i < |runs| && runs[i] == run;
        assert Normal(base, edits)[i] in Normal(base, edits);
      }
    }
  }

  lemma {:induction false} EffectiveChange(base: Text, repls: seq<Repl>)
    ensures forall r :: r in Effective(base, repls) ==> !SameText(base, r)
  {
    if repls != [] { EffectiveChange(base, repls[1..]); }
  }

  lemma {:induction false} RunMembers(repls: seq<Repl>)
    ensures forall run, r :: run in Runs(repls) && r in run ==> r in repls
  {
    if repls != [] {
      RunMembers(repls[1..]);
      var rest := Runs(repls[1..]);
      forall run, r | run in Runs(repls) && r in run ensures r in repls {
        if rest != [] && run == [repls[0]] + rest[0] && r != repls[0] { assert rest[0] in rest; }
      }
    }
  }

  lemma SingleChanges(base: Text, repls: seq<Repl>, i: nat)
    requires i < |Runs(Effective(base, repls))| && |Runs(Effective(base, repls))[i]| < 2
    ensures !Restores(base, Runs(Effective(base, repls))[i])
  {
    var kept := Effective(base, repls);
    var run := Runs(kept)[i];
    EffectiveChange(base, repls);
    RunMembers(kept);
    assert run in Runs(kept) && run[0] in run;
    assert Texts(run) == run[0].text;
  }

  // ------------------------------------------------------------------ batches that change nothing

  /** `text` stands in `base` at `at`. */
  predicate StandsAt(base: Text, at: int, text: Text) {
    0 <= at && at + |text| <= |base| && base[at..at + |text|] == text
  }

  /** Replacements that cancel out: every stretch between them and every replacing text stands in
      the old text already where the new text has it, and the shifts add up to nothing. */
  predicate CancelOut(base: Text, repls: seq<Repl>, from: nat, shift: int) {
    if repls == [] then shift == 0
    else
      var r := repls[0];
      InPlace(base, r, from, shift) && CancelOut(base, repls[1..], r.end, shift + Length(r))
  }

  predicate InPlace(base: Text, r: Repl, from: nat, shift: int) {
    && from <= r.start <= |base|
    && StandsAt(base, from + shift, base[from..r.start])
    && StandsAt(base, r.start + shift, r.text)
  }

  lemma {:induction false} CancelOutIff(base: Text, repls: seq<Repl>, from: nat, shift: int, at: nat)
    requires Ordered(repls, from, |base|) && at == from + shift <= |base|
    ensures Replaced(base, repls, from) == base[at..] <==> CancelOut(base, repls, from, shift)
    decreases |repls|
  {
    if repls == [] {
      assert |base[from..]| == |base[at..]| <==> shift == 0;
    } else {
      var r, rest := repls[0], repls[1..];
      var tail := ReplacedHead(base, repls, from);
      var later, next := HeadStands(base, r, from, shift, at, tail);
      if next <= |base| { CancelOutIff(base, rest, r.end, later, next); }
    }
  }

  lemma ReplacedHead(base: Text, repls: seq<Repl>, from: nat) returns (tail: Text)
    requires Ordered(repls, from, |base|) && repls != []
    ensures var r := repls[0];
      && from <= r.start <= r.end <= |base| && Ordered(repls[1..], r.end, |base|)
      && tail == Replaced(base, repls[1..], r.end)
      && Replaced(base, repls, from) == base[from..r.start] + r.text + tail
  {
    OrderedBounds(repls, from, |base|);
    tail := Replaced(base, repls[1..], repls[0].end);
  }

  lemma HeadStands(base: Text, r: Repl, from: nat, shift: int, at: nat, tail: Text)
    returns (later: int, next: nat)
    requires from <= r.start <= r.end <= |base| && at == from + shift <= |base|
    ensures later == shift + Length(r) && next == r.end + later
    ensures base[from..r.start] + r.text + tail == base[at..]
       <==> InPlace(base, r, from, shift) && next <= |base| && tail == base[next..]
  {
    var kept := base[from..r.start];
    var middle: nat := at + |kept|;
    later, next := shift + Length(r), middle + |r.text|;
    PartsStand(base, at, middle, next, kept, r.text, tail);
  }

  lemma PartsStand(base: Text, at: nat, middle: nat, next: nat, a: Text, b: Text, c: Text)
    requires at <= |base| && middle == at + |a| && next == middle + |b|
    ensures a + b + c == base[at..] <==> StandsAt(base, at, a) && StandsAt(base, middle, b) && c == base[next..]
  {
    ThreeParts(base[at..], a, b, c);
    if next <= |base| { Within(base, at, |a|, |b|); }
  }

  lemma ThreeParts(whole: Text, a: Text, b: Text, c: Text)
    ensures a + b + c == whole <==>
      && |a| + |b| <= |whole| && whole[..|a|] == a && whole[|a|..|a| + |b|] == b && whole[|a| + |b|..] == c
  {
    if |a| + |b| <= |whole| {
      assert whole == whole[..|a|] + whole[|a|..|a| + |b|] + whole[|a| + |b|..];
    }
    var all := a + b + c;
    assert all[..|a|] == a && all[|a|..|a| + |b|] == b && all[|a| + |b|..] == c;
  }

  lemma Within(base: Text, at: nat, m: nat, n: nat)
    requires at + m + n <= |base|
    ensures base[at..][..m] == base[at..at + m] && base[at..][m..m + n] == base[at + m..at + m + n]
    ensures base[at..][m + n..] == base[at + m + n..]
  {
  }

  /** An accepted batch leaves the text as it was iff its grouped replacements cancel out. */
  lemma UnchangedIff(base: Text, edits: seq<Edit>)
    requires AllEditsInBounds(edits, |base|) && !Overlapping(edits)
    ensures Naive(base, edits) == base <==> CancelOut(base, Groups(Ordering(edits)), 0, 0)
  {
    NormalIsNaive(base, edits);
    var repls := Groups(Ordering(edits));
    EffectiveKeeps(base, repls, 0);
    CoalescedKeeps(base, Effective(base, repls), 0);
    CancelOutIff(base, repls, 0, 0, 0);
    assert base[0..] == base;
  }

  /** An accepted batch leaves a splice although the text stays the same iff its grouped
      replacements cancel out and some of them changes its own range. */
  lemma IdleSpliceIff(base: Text, edits: seq<Edit>)
    requires AllEditsInBounds(edits, |base|) && !Overlapping(edits)
    ensures Normal(base, edits) != [] && Naive(base, edits) == base
       <==> && CancelOut(base, Groups(Ordering(edits)), 0, 0)
            && exists r :: r in Groups(Ordering(edits)) && !SameText(base, r)
  {
    NoSpliceIff(base, edits);
    UnchangedIff(base, edits);
  }

  /** Two splices that change the text one by one, but not together. */
  lemma ApartSplicesMayCancel()
    ensures var edits := [Delete(0, 1), Insert(2, "a")];
      && AllEditsInBounds(edits, 2) && !Overlapping(edits) && Naive("aa", edits) == "aa"
      && Normal("aa", edits) == [Repl(0, 1, ""), Repl(2, 2, "a")]
      && forall r :: r in Normal("aa", edits) ==> !SameText("aa", r)
  {
    var edits := [Delete(0, 1), Insert(2, "a")];
    var repls := [Repl(0, 1, ""), Repl(2, 2, "a")];
    ApartGroups(edits, repls);
    ApartKept(repls);
    ApartCancel(repls);
    ApartAccepted(edits);
    UnchangedIff("aa", edits);
  }

  lemma ApartAccepted(edits: seq<Edit>)
    requires edits == [Delete(0, 1), Insert(2, "a")]
    ensures AllEditsInBounds(edits, 2) && !Overlapping(edits)
  {
  }

  lemma {:induction false} ApartGroups(edits: seq<Edit>, repls: seq<Repl>)
    requires edits == [Delete(0, 1), Insert(2, "a")] && repls == [Repl(0, 1, ""), Repl(2, 2, "a")]
    ensures Groups(Ordering(edits)) == repls
  {
    var first, second := Op(0, edits[0]), Op(1, edits[1]);
    assert edits[1..] == [edits[1]];
    assert Numbered(edits, 0) == [first, second];
    assert Sort([second]) == [second] by { assert [second][1..] == []; }
    assert Ordering(edits) == [first, second] by { assert [first, second][1..] == [second]; }
    assert FirstGroup([first, second]) == Group(repls[0], 1);
    assert FirstGroup([second]) == Group(repls[1], 1);
    assert Groups([second]) == [repls[1]];
  }

  lemma {:induction false} ApartKept(repls: seq<Repl>)
    requires repls == [Repl(0, 1, ""), Repl(2, 2, "a")]
    ensures Effective("aa", repls) == repls && Coalesced(repls) == repls
    ensures forall r :: r in repls ==> !SameText("aa", r)
  {
    assert repls[1..] == [Repl(2, 2, "a")] && repls[1..][1..] == [];
    assert Effective("aa", repls[1..]) == repls[1..];
  }

  lemma {:induction false} ApartCancel(repls: seq<Repl>)
    requires repls == [Repl(0, 1, ""), Repl(2, 2, "a")]
    ensures CancelOut("aa", repls, 0, 0)
  {
    assert repls[1..] == [Repl(2, 2, "a")] && repls[1..][1..] == [];
    assert CancelOut("aa", repls[1..][1..], 2, 0);
    assert CancelOut("aa", repls[1..], 1, -1);
  }
}
