/** How many items a lowered repeat derives, and when it derives nothing. */
module GrammarCounts {
  import opened Wrappers
  import opened GrammarLowering
  import opened GrammarTrees
  import opened GrammarRepeats
  import opened GrammarMeaning

  ghost predicate HasParse(e: Expr) {
    exists t :: Fits(e, t)
  }

  /** Some parse spells the empty word. */
  ghost predicate Nullable(e: Expr) {
    exists t :: Fits(e, t) && Spell(t) == []
  }

  // ------------------------------------------------------------------ how many items

  /** `ds` derives the repeat with exactly `count` items. */
  ghost predicate DerivesItems(e: Expr, at: nat, ds: seq<Tree>, count: nat)
    requires Binary(e)
  {
    Derives(e, at, ds) && var t := Read(e, at, ds); t.Repeated? && |t.items| == count
  }

  /** A parse with `count` copies of an item, and of a separator between them. */
  function Repetition(item: Parse, separator: Option<Parse>, count: nat): (t: Parse)
    ensures t.Repeated? && |t.items| == count && forall i :: 0 <= i < count ==> t.items[i] == item
    ensures separator.None? ==> t.separators == []
    ensures separator.Some? ==> |t.separators| == Gaps(count)
    ensures separator.Some? ==> forall i :: 0 <= i < |t.separators| ==> t.separators[i] == separator.value
  {
    Repeated(seq(count, i => item), if separator.None? then [] else seq(Gaps(count), i => separator.value))
  }

  /** The exact counts, for every item, separator and bounds. */
  lemma RepeatCountsIff(inner: Expr, separator: Option<Expr>, min: nat, max: Option<nat>, at: nat, count: nat)
    requires Binary(Repeat(inner, separator, min, max))
    ensures (exists ds :: DerivesItems(Repeat(inner, separator, min, max), at, ds, count))
       <==> && Admits(Separated(separator), min, max, count)
            && (count > 0 ==> HasParse(inner))
            && (count > 1 && Separated(separator) ==> HasParse(separator.value))
  {
    var e := Repeat(inner, separator, min, max);
    if exists ds :: DerivesItems(e, at, ds, count) {
      var ds :| DerivesItems(e, at, ds, count);
      var t := ParseOf(e, at, ds);
      if count > 0 { assert Fits(inner, t.items[0]); }
      if count > 1 && Separated(separator) { assert Fits(separator.value, t.separators[0]); }
    }
    if && Admits(Separated(separator), min, max, count)
       && (count > 0 ==> HasParse(inner)) && (count > 1 && Separated(separator) ==> HasParse(separator.value)) {
      var item := if count > 0 then ParseFor(inner) else Unit;
      var gap := if count > 1 && Separated(separator) then ParseFor(separator.value) else Unit;
      var t := Repetition(item, if Separated(separator) then Some(gap) else None, count);
      RepetitionFits(inner, separator, min, max, item, gap, count);
      LoweringOneToOne(e, at);
      assert DerivesItems(e, at, Derive(e, at, t), count);
    }
  }

  ghost function ParseFor(e: Expr): (t: Parse)
    requires HasParse(e)
    ensures Fits(e, t)
  {
    var t :| Fits(e, t); t
  }

  lemma RepetitionFits(inner: Expr, separator: Option<Expr>, min: nat, max: Option<nat>, item: Parse, gap: Parse,
                       count: nat)
    requires Admits(Separated(separator), min, max, count) && (count > 0 ==> Fits(inner, item))
    requires count > 1 && Separated(separator) ==> Fits(separator.value, gap)
    ensures Fits(Repeat(inner, separator, min, max),
                 Repetition(item, if Separated(separator) then Some(gap) else None, count))
  {
    var t := Repetition(item, if Separated(separator) then Some(gap) else None, count);
    assert FitsEach(inner, t.items);
    if Separated(separator) { assert FitsEach(separator.value, t.separators); }
  }

  /** Without an upper bound: from zero every count, but not zero itself with a separator; otherwise
      exactly the counts up to three above the lower bound. */
  lemma OpenEndedStops(inner: Expr, separator: Option<Expr>, min: nat, at: nat, count: nat)
    requires Binary(Repeat(inner, separator, min, None)) && HasParse(inner)
    requires Separated(separator) ==> HasParse(separator.value)
    ensures (exists ds :: DerivesItems(Repeat(inner, separator, min, None), at, ds, count))
       <==> if min == 0 then Separated(separator) ==> count > 0 else min <= count <= min + 3
  {
    RepeatCountsIff(inner, separator, min, None, at, count);
  }

  /** With an upper bound: exactly the counts between the bounds. */
  lemma BoundedCounts(inner: Expr, separator: Option<Expr>, min: nat, max: nat, at: nat, count: nat)
    requires Binary(Repeat(inner, separator, min, Some(max))) && HasParse(inner)
    requires Separated(separator) ==> HasParse(separator.value)
    ensures (exists ds :: DerivesItems(Repeat(inner, separator, min, Some(max)), at, ds, count))
       <==> (count == 0 && min == 0) || (1 <= count && min <= count <= max)
  {
    RepeatCountsIff(inner, separator, min, Some(max), at, count);
  }

  // ------------------------------------------------------------------ the empty word

  lemma {:induction false} WeaveEmpty<T>(gaps: seq<seq<T>>, chunks: seq<seq<T>>)
    requires |gaps| == |chunks|
    ensures Weave(gaps, chunks) == [] <==> forall i :: 0 <= i < |chunks| ==> gaps[i] == [] && chunks[i] == []
    decreases |chunks|
  {
    if chunks != [] {
      var n := |chunks| - 1;
      WeaveEmpty(gaps[..n], chunks[..n]);
      assert Weave(gaps, chunks) == Weave(gaps[..n], chunks[..n]) + gaps[n] + chunks[n];
      assert forall i :: 0 <= i < n ==> gaps[..n][i] == gaps[i] && chunks[..n][i] == chunks[i];
    }
  }

  lemma InterleaveEmpty<T>(chunks: seq<seq<T>>, gaps: seq<seq<T>>)
    requires |gaps| == Gaps(|chunks|)
    ensures Interleave(chunks, gaps) == []
       <==> (forall i :: 0 <= i < |chunks| ==> chunks[i] == []) && forall i :: 0 <= i < |gaps| ==> gaps[i] == []
  {
    if chunks != [] {
      var rest := chunks[1..];
      WeaveEmpty(gaps, rest);
      assert forall i :: 0 <= i < |rest| ==> rest[i] == chunks[i + 1];
      assert forall i :: 0 < i < |chunks| ==> chunks[i] == rest[i - 1];
    }
  }

  /** A repeated parse spells nothing iff none of its parts does. */
  lemma RepeatedEmpty(items: seq<Parse>, separators: seq<Parse>, separated: bool)
    requires if separated then |separators| == Gaps(|items|) else separators == []
    ensures Spell(Repeated(items, separators)) == []
       <==> && (forall i :: 0 <= i < |items| ==> Spell(items[i]) == [])
            && forall i :: 0 <= i < |separators| ==> Spell(separators[i]) == []
  {
    SpellRepeated(items, separators, separated);
    InterleaveEmpty(SpellEach(items), Gapped(separated, SpellEach(separators), |items|));
    assert forall i :: 0 <= i < |items| ==> SpellEach(items)[i] == Spell(items[i]);
    assert forall i :: 0 <= i < |separators| ==> SpellEach(separators)[i] == Spell(separators[i]);
  }

  /** `count` items can stand there and spell nothing. */
  ghost predicate EmptyWith(inner: Expr, separator: Option<Expr>, min: nat, max: Option<nat>, count: nat) {
    && Admits(Separated(separator), min, max, count)
    && (count > 0 ==> Nullable(inner))
    && (count > 1 && Separated(separator) ==> Nullable(separator.value))
  }

  ghost predicate DerivesEmpty(e: Expr, at: nat)
    requires Binary(e)
  {
    exists ds :: Derives(e, at, ds) && Words(ds) == []
  }

  /** The exact condition, for every item, separator and bounds. */
  lemma EmptyRepeatIff(inner: Expr, separator: Option<Expr>, min: nat, max: Option<nat>, at: nat)
    requires Binary(Repeat(inner, separator, min, max))
    ensures DerivesEmpty(Repeat(inner, separator, min, max), at)
       <==> exists count: nat :: EmptyWith(inner, separator, min, max, count)
  {
    var e := Repeat(inner, separator, min, max);
    LoweringKeepsLanguage(e, at, []);
    if exists t :: Fits(e, t) && Spell(t) == [] {
      var t :| Fits(e, t) && Spell(t) == [];
      EmptyParts(inner, separator, min, max, t);
    }
    if exists count: nat :: EmptyWith(inner, separator, min, max, count) {
      var count: nat :| EmptyWith(inner, separator, min, max, count);
      var t := EmptyRepetition(inner, separator, min, max, count);
    }
  }

  lemma EmptyParts(inner: Expr, separator: Option<Expr>, min: nat, max: Option<nat>, t: Parse)
    requires Fits(Repeat(inner, separator, min, max), t) && Spell(t) == []
    ensures EmptyWith(inner, separator, min, max, |t.items|)
  {
    RepeatedEmpty(t.items, t.separators, Separated(separator));
    if |t.items| > 0 { assert Fits(inner, t.items[0]); }
    if |t.items| > 1 && Separated(separator) { assert Fits(separator.value, t.separators[0]); }
  }

  lemma EmptyRepetition(inner: Expr, separator: Option<Expr>, min: nat, max: Option<nat>, count: nat) returns (t: Parse)
    requires EmptyWith(inner, separator, min, max, count)
    ensures Fits(Repeat(inner, separator, min, max), t) && Spell(t) == []
  {
    var item, gap := Unit, Unit;
    if count > 0 { item :| Fits(inner, item) && Spell(item) == []; }
    if count > 1 && Separated(separator) { gap :| Fits(separator.value, gap) && Spell(gap) == []; }
    t := Repetition(item, if Separated(separator) then Some(gap) else None, count);
    RepetitionFits(inner, separator, min, max, item, gap, count);
    RepeatedEmpty(t.items, t.separators, Separated(separator));
  }

  /** Without bounds: there is no separator with symbols, or the item can be empty. */
  lemma SeparatedNeedsOne(inner: Expr, separator: Option<Expr>, at: nat)
    requires Binary(Repeat(inner, separator, 0, None))
    ensures DerivesEmpty(Repeat(inner, separator, 0, None), at) <==> !Separated(separator) || Nullable(inner)
  {
    EmptyRepeatIff(inner, separator, 0, None, at);
    if !Separated(separator) {
      assert EmptyWith(inner, separator, 0, None, 0);
    } else if Nullable(inner) {
      assert EmptyWith(inner, separator, 0, None, 1);
    }
  }

  /** From zero with an upper bound: always. */
  lemma BoundedFromZero(inner: Expr, separator: Option<Expr>, max: nat, at: nat)
    requires Binary(Repeat(inner, separator, 0, Some(max)))
    ensures DerivesEmpty(Repeat(inner, separator, 0, Some(max)), at)
  {
    EmptyRepeatIff(inner, separator, 0, Some(max), at);
    assert EmptyWith(inner, separator, 0, Some(max), 0);
  }

  // ------------------------------------------------------------------ repeats of one symbol

  function RepeatOfSymbols(id: int, separator: Option<int>, min: nat): (e: Expr)
    ensures Binary(e)
  {
    Repeat(Atom(id), if separator.None? then None else Some(Atom(separator.value)), min, None)
  }

  /** Between symbols the separator makes the empty list underivable. */
  lemma EmptyListMissing(id: int, comma: int, at: nat)
    ensures !DerivesEmpty(RepeatOfSymbols(id, Some(comma), 0), at)
    ensures DerivesEmpty(RepeatOfSymbols(id, None, 0), at)
  {
    SeparatedNeedsOne(Atom(id), Some(Atom(comma)), at);
    SeparatedNeedsOne(Atom(id), None, at);
  }

  lemma {:induction false} SingleLengths(chunks: seq<seq<int>>)
    requires forall i :: 0 <= i < |chunks| ==> |chunks[i]| == 1
    ensures |Interleave(chunks, Blank(|chunks|))| == |chunks|
    decreases |chunks|
  {
    if chunks != [] {
      var n := |chunks| - 1;
      var none: seq<int> := [];
      SingleLengths(chunks[..n]);
      assert chunks == chunks[..n] + [chunks[n]];
      if n > 0 {
        assert Blank<int>(|chunks|) == Blank<int>(n) + [none];
        InterleaveSnoc(chunks[..n], Blank(n), none, chunks[n]);
      } else {
        InterleaveOne(chunks);
      }
    }
  }

  lemma SymbolWords(id: int, min: nat, at: nat, ds: seq<Tree>)
    requires Derives(RepeatOfSymbols(id, None, min), at, ds)
    ensures DerivesItems(RepeatOfSymbols(id, None, min), at, ds, |Words(ds)|)
  {
    var t := ParseOf(RepeatOfSymbols(id, None, min), at, ds);
    assert FitsEach(Atom(id), t.items);
    SpellRepeated(t.items, t.separators, false);
    forall i | 0 <= i < |t.items| ensures SpellEach(t.items)[i] == [id] {
      assert Fits(Atom(id), t.items[i]);
    }
    SingleLengths(SpellEach(t.items));
  }

  /** The lengths of the words that an open-ended repeat of one symbol derives. */
  lemma OpenEndedSymbols(id: int, min: nat, at: nat, length: nat)
    ensures (exists ds :: Derives(RepeatOfSymbols(id, None, min), at, ds) && |Words(ds)| == length)
       <==> min == 0 || min <= length <= min + 3
  {
    var e := RepeatOfSymbols(id, None, min);
    assert Fits(Atom(id), Leaf(id));
    OpenEndedStops(Atom(id), None, min, at, length);
    forall ds | Derives(e, at, ds) ensures DerivesItems(e, at, ds, |Words(ds)|) { SymbolWords(id, min, at, ds); }
  }
}
