/** Derivations of a repeat are exactly its item derivations, with separator derivations between. */
module GrammarRepeats {
  import opened Wrappers
  import opened GrammarLowering
  import opened GrammarTrees

  // ------------------------------------------------------------------ interleaving

  lemma InterleaveOne<T>(chunks: seq<seq<T>>)
    requires |chunks| == 1
    ensures Interleave(chunks, []) == chunks[0]
  {
    assert chunks[1..] == [];
  }

  lemma {:induction false} WordsInterleave(chunks: seq<seq<Tree>>, gaps: seq<seq<Tree>>)
    requires |gaps| == Gaps(|chunks|)
    ensures Words(Interleave(chunks, gaps)) == Interleave(WordsEach(chunks), WordsEach(gaps))
    decreases |chunks|
  {
    if |chunks| == 1 {
      InterleaveOne(chunks);
      InterleaveOne(WordsEach(chunks));
    } else if |chunks| > 1 {
      var n := |chunks| - 1;
      var front, last, before, gap := chunks[..n], chunks[n], gaps[..n - 1], gaps[n - 1];
      assert chunks == front + [last] && gaps == before + [gap];
      assert WordsEach(chunks) == WordsEach(front) + [Words(last)]
        && WordsEach(gaps) == WordsEach(before) + [Words(gap)];
      WordsInterleave(front, before);
      InterleaveSnoc(front, before, gap, last);
      InterleaveSnoc(WordsEach(front), WordsEach(before), Words(gap), Words(last));
      WordsConcat(Interleave(front, before) + gap, last);
      WordsConcat(Interleave(front, before), gap);
    }
  }

  lemma {:induction false} WeaveWords(gaps: seq<seq<Tree>>, chunks: seq<seq<Tree>>, more: Production, empty: Production)
    requires |gaps| == |chunks|
    ensures Word(TailTree(more, empty, gaps, chunks)) == Words(Weave(gaps, chunks))
    decreases |chunks|
  {
    if chunks != [] {
      var n := |chunks| - 1;
      var tail := TailTree(more, empty, gaps[..n], chunks[..n]);
      WeaveWords(gaps[..n], chunks[..n], more, empty);
      ThreeWords([tail], gaps[n], chunks[n]);
      ThreeWords(Weave(gaps[..n], chunks[..n]), gaps[n], chunks[n]);
      WordsOne(tail);
    }
  }

  lemma ThreeWords(a: seq<Tree>, b: seq<Tree>, c: seq<Tree>)
    ensures Words(a + b + c) == Words(a) + Words(b) + Words(c)
  {
    WordsConcat(a + b, c);
    WordsConcat(a, b);
  }

  /** Appending to chunks without gaps. */
  lemma BlankSnoc(front: seq<seq<Tree>>, last: seq<Tree>)
    ensures Interleave(front + [last], Blank(|front| + 1)) == Interleave(front, Blank(|front|)) + last
  {
    if front != [] {
      var none: seq<Tree> := [];
      assert Blank<Tree>(|front| + 1) == Blank<Tree>(|front|) + [none];
      InterleaveSnoc(front, Blank(|front|), none, last);
    } else {
      assert [last][1..] == [];
    }
  }

  lemma {:induction false} StarWords(more: Production, empty: Production, chunks: seq<seq<Tree>>)
    ensures Word(StarTree(more, empty, chunks)) == Words(Interleave(chunks, Blank(|chunks|)))
    decreases |chunks|
  {
    if chunks != [] {
      var n := |chunks| - 1;
      var tree := StarTree(more, empty, chunks[..n]);
      StarWords(more, empty, chunks[..n]);
      WordsConcat([tree], chunks[n]);
      WordsOne(tree);
      assert chunks == chunks[..n] + [chunks[n]];
      BlankSnoc(chunks[..n], chunks[n]);
      WordsConcat(Interleave(chunks[..n], Blank(n)), chunks[n]);
    }
  }

  /** A repeat spells its pieces in order. */
  lemma SpreadWord(item: Lowered, sep: Lowered, min: nat, max: Option<nat>, chunks: seq<seq<Tree>>,
                   gaps: seq<seq<Tree>>)
    requires |gaps| == Gaps(|chunks|) && Admits(sep.symbols != [], min, max, |chunks|)
    requires Unbounded(min, max) && sep.symbols == [] ==> gaps == Blank(|chunks|)
    ensures Word(Spread(item, sep, min, max, chunks, gaps)) == Words(Interleave(chunks, gaps))
  {
    if Unbounded(min, max) {
      if sep.symbols != [] {
        var tail := TailTree(TailMore(item, sep), TailEmpty(sep), gaps, chunks[1..]);
        WeaveWords(gaps, chunks[1..], TailMore(item, sep), TailEmpty(sep));
        WordsConcat(chunks[0], [tail]);
        WordsOne(tail);
        WordsConcat(chunks[0], Weave(gaps, chunks[1..]));
      } else {
        StarWords(StarItem(item, sep), StarEmpty(item, sep), chunks);
      }
    }
  }

  // ------------------------------------------------------------------ pieces make a derivation

  lemma {:induction false} CopiesStand(rules: seq<Production>, item: Lowered, sep: Lowered,
                                       chunks: seq<seq<Tree>>, gaps: seq<seq<Tree>>)
    requires Proper(rules, item, sep, chunks, gaps)
    ensures Stands(rules, Interleave(chunks, gaps), Copies(item.symbols, sep.symbols, |chunks|))
    decreases |chunks|
  {
    if |chunks| > 1 {
      var n := |chunks| - 1;
      var front, before := chunks[..n], gaps[..n - 1];
      assert chunks == front + [chunks[n]] && gaps == before + [gaps[n - 1]];
      CopiesStand(rules, item, sep, front, before);
      InterleaveSnoc(front, before, gaps[n - 1], chunks[n]);
      StandsConcat(rules, Interleave(front, before), gaps[n - 1], Copies(item.symbols, sep.symbols, n), sep.symbols);
      StandsConcat(rules, Interleave(front, before) + gaps[n - 1], chunks[n],
        Copies(item.symbols, sep.symbols, n) + sep.symbols, item.symbols);
    } else if |chunks| == 1 {
      assert Interleave(chunks, gaps) == chunks[0];
    }
  }

  lemma {:induction false} StarStands(rules: seq<Production>, item: Lowered, sep: Lowered, chunks: seq<seq<Tree>>)
    requires StarItem(item, sep) in rules && StarEmpty(item, sep) in rules
    requires forall i :: 0 <= i < |chunks| ==> Stands(rules, chunks[i], item.symbols)
    ensures Stands(rules, [StarTree(StarItem(item, sep), StarEmpty(item, sep), chunks)], [Internal(item.next)])
    ensures StarChunks(StarTree(StarItem(item, sep), StarEmpty(item, sep), chunks)) == chunks
    decreases |chunks|
  {
    var more, empty := StarItem(item, sep), StarEmpty(item, sep);
    if chunks == [] {
      NodeStands(rules, empty, []);
    } else {
      var n := |chunks| - 1;
      StarStands(rules, item, sep, chunks[..n]);
      var tree := StarTree(more, empty, chunks[..n]);
      StandsConcat(rules, [tree], chunks[n], [Internal(item.next)], item.symbols);
      NodeStands(rules, more, [tree] + chunks[n]);
      assert ([tree] + chunks[n])[1..] == chunks[n];
    }
  }

  predicate Cuts(d: Tree, width: nat, chunks: seq<seq<Tree>>, gaps: seq<seq<Tree>>) {
    TailChunks(d, width) == chunks && TailGaps(d, width) == gaps
  }

  lemma {:induction false} TailStands(rules: seq<Production>, item: Lowered, sep: Lowered,
                                      gaps: seq<seq<Tree>>, chunks: seq<seq<Tree>>)
    requires TailMore(item, sep) in rules && TailEmpty(sep) in rules && |gaps| == |chunks|
    requires forall i :: 0 <= i < |chunks| ==> Stands(rules, chunks[i], item.symbols)
    requires forall i :: 0 <= i < |gaps| ==> Stands(rules, gaps[i], sep.symbols)
    ensures Stands(rules, [TailTree(TailMore(item, sep), TailEmpty(sep), gaps, chunks)], [Internal(TailName(sep))])
    ensures Cuts(TailTree(TailMore(item, sep), TailEmpty(sep), gaps, chunks), |sep.symbols|, chunks, gaps)
    decreases |chunks|
  {
    var more, empty := TailMore(item, sep), TailEmpty(sep);
    if chunks == [] {
      NodeStands(rules, empty, []);
    } else {
      var n := |chunks| - 1;
      TailStands(rules, item, sep, gaps[..n], chunks[..n]);
      var tree := TailTree(more, empty, gaps[..n], chunks[..n]);
      TailStep(rules, item, sep, tree, gaps[n], chunks[n]);
    }
  }

  lemma TailStep(rules: seq<Production>, item: Lowered, sep: Lowered, tree: Tree, gap: seq<Tree>, chunk: seq<Tree>)
    requires TailMore(item, sep) in rules && Stands(rules, [tree], [Internal(TailName(sep))])
    requires Stands(rules, gap, sep.symbols) && Stands(rules, chunk, item.symbols)
    ensures Stands(rules, [Node(TailMore(item, sep), [tree] + gap + chunk)], [Internal(TailName(sep))])
    ensures Cuts(Node(TailMore(item, sep), [tree] + gap + chunk), |sep.symbols|,
                 TailChunks(tree, |sep.symbols|) + [chunk], TailGaps(tree, |sep.symbols|) + [gap])
  {
    StandsConcat(rules, [tree], gap, [Internal(TailName(sep))], sep.symbols);
    StandsConcat(rules, [tree] + gap, chunk, [Internal(TailName(sep))] + sep.symbols, item.symbols);
    var children := [tree] + gap + chunk;
    NodeStands(rules, TailMore(item, sep), children);
    assert children[1 + |gap|..] == chunk && children[1..1 + |gap|] == gap;
  }

  lemma {:induction false} CutInterleave(rules: seq<Production>, item: Lowered, sep: Lowered,
                                         chunks: seq<seq<Tree>>, gaps: seq<seq<Tree>>)
    requires Proper(rules, item, sep, chunks, gaps)
    ensures CutChunks(Interleave(chunks, gaps), |item.symbols|, |sep.symbols|, |chunks|) == chunks
    ensures CutGaps(Interleave(chunks, gaps), |item.symbols|, |sep.symbols|, |chunks|) == gaps
    decreases |chunks|
  {
    if |chunks| > 1 {
      var n := |chunks| - 1;
      var front, before, gap, last := chunks[..n], gaps[..n - 1], gaps[n - 1], chunks[n];
      assert chunks == front + [last] && gaps == before + [gap];
      CutInterleave(rules, item, sep, front, before);
      InterleaveSnoc(front, before, gap, last);
      CutSnoc(Interleave(front, before), gap, last, |item.symbols|, |sep.symbols|, |chunks|);
    } else if |chunks| == 1 {
      assert Interleave(chunks, gaps) == chunks[0];
    }
  }

  lemma CutSnoc(ds: seq<Tree>, gap: seq<Tree>, last: seq<Tree>, width: nat, between: nat, count: nat)
    requires count > 1 && |last| == width && |gap| == between
    ensures var all := ds + gap + last;
      && CutChunks(all, width, between, count) == CutChunks(ds, width, between, count - 1) + [last]
      && CutGaps(all, width, between, count) == CutGaps(ds, width, between, count - 1) + [gap]
  {
    var all := ds + gap + last;
    assert all[..LastAt(all, width + between)] == ds && all[LastAt(all, width)..] == last;
    assert all[LastAt(all, width + between)..LastAt(all, width)] == gap;
  }

  /** The rules of the repeat are among `rules`. */
  ghost predicate Has(rules: seq<Production>, mine: seq<Production>) {
    forall p :: p in mine ==> p in rules
  }

  lemma {:induction false} CountRuleIn(item: Lowered, sep: Lowered, min: nat, end: nat, count: nat)
    requires FirstCount(min) <= count < end
    ensures CountRule(item, sep, min, count) in CountRules(item, sep, min, end)
    decreases end
  {
    if count < end - 1 { CountRuleIn(item, sep, min, end - 1, count); }
  }

  /** Proper pieces make a derivation of the repeat, from which they can be read back. */
  lemma SpreadStands(rules: seq<Production>, item: Lowered, sep: Lowered, min: nat, max: Option<nat>,
                     chunks: seq<seq<Tree>>, gaps: seq<seq<Tree>>)
    requires Proper(rules, item, sep, chunks, gaps) && Admits(sep.symbols != [], min, max, |chunks|)
    requires Has(rules, RepeatRules(item, sep, min, max))
    ensures Stands(rules, [Spread(item, sep, min, max, chunks, gaps)], [Internal(item.next)])
    ensures GatherChunks(item, sep, min, max, Spread(item, sep, min, max, chunks, gaps)) == chunks
    ensures !Unbounded(min, max) || sep.symbols != []
      ==> GatherGaps(item, sep, min, max, Spread(item, sep, min, max, chunks, gaps)) == gaps
  {
    if !Unbounded(min, max) {
      SpreadCounted(rules, item, sep, min, max, chunks, gaps);
    } else if sep.symbols == [] {
      StarStands(rules, item, sep, chunks);
    } else {
      SpreadList(rules, item, sep, min, max, chunks, gaps);
    }
  }

  lemma SpreadCounted(rules: seq<Production>, item: Lowered, sep: Lowered, min: nat, max: Option<nat>,
                      chunks: seq<seq<Tree>>, gaps: seq<seq<Tree>>)
    requires Proper(rules, item, sep, chunks, gaps) && Admits(sep.symbols != [], min, max, |chunks|)
    requires !Unbounded(min, max) && Has(rules, BoundedRules(item, sep, min, Skip(Upper(min, max))))
    ensures Stands(rules, [Spread(item, sep, min, max, chunks, gaps)], [Internal(item.next)])
    ensures GatherChunks(item, sep, min, max, Spread(item, sep, min, max, chunks, gaps)) == chunks
    ensures GatherGaps(item, sep, min, max, Spread(item, sep, min, max, chunks, gaps)) == gaps
  {
    if chunks == [] {
      assert StarEmpty(item, sep) in BoundedRules(item, sep, min, Skip(Upper(min, max)));
      NodeStands(rules, StarEmpty(item, sep), []);
    } else {
      var rule := CountRule(item, sep, min, |chunks|);
      CountRuleIn(item, sep, min, Skip(Upper(min, max)), |chunks|);
      assert rule in BoundedRules(item, sep, min, Skip(Upper(min, max)));
      CopiesStand(rules, item, sep, chunks, gaps);
      NodeStands(rules, rule, Interleave(chunks, gaps));
      CutInterleave(rules, item, sep, chunks, gaps);
      assert CountOf(sep, min, rule) == |chunks|;
    }
  }

  lemma SpreadList(rules: seq<Production>, item: Lowered, sep: Lowered, min: nat, max: Option<nat>,
                   chunks: seq<seq<Tree>>, gaps: seq<seq<Tree>>)
    requires Proper(rules, item, sep, chunks, gaps) && chunks != []
    requires Unbounded(min, max) && sep.symbols != []
    requires Has(rules, [ListItem(item, sep), TailMore(item, sep), TailEmpty(sep)])
    ensures Stands(rules, [Spread(item, sep, min, max, chunks, gaps)], [Internal(item.next)])
    ensures GatherChunks(item, sep, min, max, Spread(item, sep, min, max, chunks, gaps)) == chunks
    ensures GatherGaps(item, sep, min, max, Spread(item, sep, min, max, chunks, gaps)) == gaps
  {
    var mine := [ListItem(item, sep), TailMore(item, sep), TailEmpty(sep)];
    assert mine[0] in rules && mine[1] in rules && mine[2] in rules;
    TailStands(rules, item, sep, gaps, chunks[1..]);
    var tail := TailTree(TailMore(item, sep), TailEmpty(sep), gaps, chunks[1..]);
    StandsConcat(rules, chunks[0], [tail], item.symbols, [Internal(TailName(sep))]);
    NodeStands(rules, ListItem(item, sep), chunks[0] + [tail]);
    assert (chunks[0] + [tail])[..|item.symbols|] == chunks[0] && (chunks[0] + [tail])[|item.symbols|] == tail;
    assert [chunks[0]] + chunks[1..] == chunks;
  }

  // ------------------------------------------------------------------ a derivation is made of pieces

  /** Only the rules of the repeat define its nonterminals. */
  ghost predicate Owns(rules: seq<Production>, lo: nat, hi: nat, mine: seq<Production>) {
    forall p :: p in rules && lo <= p.lhs < hi ==> p in mine
  }

  ghost predicate OwnsRepeat(rules: seq<Production>, item: Lowered, sep: Lowered, min: nat, max: Option<nat>) {
    forall p :: p in rules
      && (p.lhs == item.next || (p.lhs == TailName(sep) && Unbounded(min, max) && sep.symbols != []))
      ==> p in RepeatRules(item, sep, min, max)
  }

  lemma {:induction false} StarReads(rules: seq<Production>, item: Lowered, sep: Lowered, d: Tree)
    requires Valid(rules, d) && d.Root() == Internal(item.next)
    requires forall p :: p in rules && p.lhs == item.next ==> p == StarItem(item, sep) || p == StarEmpty(item, sep)
    ensures d == StarTree(StarItem(item, sep), StarEmpty(item, sep), StarChunks(d))
    ensures forall i :: 0 <= i < |StarChunks(d)| ==> Stands(rules, StarChunks(d)[i], item.symbols)
    decreases d
  {
    if d.children == [] {
      assert |Roots(d.children)| == 0;
    } else {
      assert d.rule == StarItem(item, sep);
      var first := d.children[0];
      StandsSplit(rules, d.children, [Internal(item.next)], item.symbols);
      StandsOne(rules, d.children[..1], item.next);
      StarReads(rules, item, sep, first);
      assert d.children == [first] + d.children[1..];
    }
  }

  /** `d` is made of the chunks and gaps it is cut into. */
  ghost predicate TailMade(rules: seq<Production>, item: Lowered, sep: Lowered, d: Tree) {
    var chunks, gaps := TailChunks(d, |sep.symbols|), TailGaps(d, |sep.symbols|);
    && d == TailTree(TailMore(item, sep), TailEmpty(sep), gaps, chunks)
    && (forall i :: 0 <= i < |chunks| ==> Stands(rules, chunks[i], item.symbols))
    && (forall i :: 0 <= i < |gaps| ==> Stands(rules, gaps[i], sep.symbols))
  }

  lemma {:induction false} TailReads(rules: seq<Production>, item: Lowered, sep: Lowered, d: Tree)
    requires Valid(rules, d) && d.Root() == Internal(TailName(sep))
    requires forall p :: p in rules && p.lhs == TailName(sep) ==> p == TailMore(item, sep) || p == TailEmpty(sep)
    ensures TailMade(rules, item, sep, d)
    decreases d
  {
    if d.rule == TailEmpty(sep) {
      assert |Roots(d.children)| == 0;
      TailMadeEmpty(rules, item, sep);
    } else {
      var first, gap, chunk := TailParts(rules, item, sep, d);
      TailReads(rules, item, sep, first);
      TailMadeStep(rules, item, sep, first, gap, chunk);
    }
  }

  lemma TailParts(rules: seq<Production>, item: Lowered, sep: Lowered, d: Tree)
    returns (first: Tree, gap: seq<Tree>, chunk: seq<Tree>)
    requires Valid(rules, d) && d.Node? && d.rule == TailMore(item, sep)
    ensures d == Node(TailMore(item, sep), [first] + gap + chunk) && first < d
    ensures Valid(rules, first) && first.Root() == Internal(TailName(sep))
    ensures Stands(rules, gap, sep.symbols) && Stands(rules, chunk, item.symbols)
  {
    var head;
    head, gap, chunk := SplitThree(rules, d.children, [Internal(TailName(sep))], sep.symbols, item.symbols);
    StandsOne(rules, head, TailName(sep));
    first := head[0];
    assert first == d.children[0];
  }

  lemma TailMadeEmpty(rules: seq<Production>, item: Lowered, sep: Lowered)
    ensures TailMade(rules, item, sep, Node(TailEmpty(sep), []))
  {
  }

  lemma TailMadeStep(rules: seq<Production>, item: Lowered, sep: Lowered, first: Tree, gap: seq<Tree>, chunk: seq<Tree>)
    requires TailMade(rules, item, sep, first)
    requires Stands(rules, gap, sep.symbols) && Stands(rules, chunk, item.symbols)
    ensures TailMade(rules, item, sep, Node(TailMore(item, sep), [first] + gap + chunk))
  {
    var w := |sep.symbols|;
    var chunks, gaps := TailChunks(first, w), TailGaps(first, w);
    var children := [first] + gap + chunk;
    assert children[1 + w..] == chunk && children[1..1 + w] == gap;
    var more, less := chunks + [chunk], gaps + [gap];
    assert more[..|more| - 1] == chunks && less[..|less| - 1] == gaps;
  }

  lemma {:induction false} CutReads(rules: seq<Production>, item: Lowered, sep: Lowered, ds: seq<Tree>, count: nat)
    requires count > 0 && Stands(rules, ds, Copies(item.symbols, sep.symbols, count))
    ensures var chunks, gaps := CutChunks(ds, |item.symbols|, |sep.symbols|, count),
                                CutGaps(ds, |item.symbols|, |sep.symbols|, count);
      Proper(rules, item, sep, chunks, gaps) && Interleave(chunks, gaps) == ds
    decreases count
  {
    var width, gap := |item.symbols|, |sep.symbols|;
    if count == 1 {
      InterleaveOne([ds]);
    } else {
      var copies := Copies(item.symbols, sep.symbols, count - 1);
      var front, middle, last := SplitThree(rules, ds, copies, sep.symbols, item.symbols);
      CutReads(rules, item, sep, front, count - 1);
      CutSnoc(front, middle, last, width, gap, count);
      InterleaveSnoc(CutChunks(front, width, gap, count - 1), CutGaps(front, width, gap, count - 1), middle, last);
    }
  }

  lemma SplitThree(rules: seq<Production>, ds: seq<Tree>, x: seq<Symbol>, y: seq<Symbol>, z: seq<Symbol>)
    returns (a: seq<Tree>, b: seq<Tree>, c: seq<Tree>)
    requires Stands(rules, ds, x + y + z)
    ensures ds == a + b + c && |b| == |y| && |c| == |z|
    ensures Stands(rules, a, x) && Stands(rules, b, y) && Stands(rules, c, z)
  {
    StandsSplit(rules, ds, x + y, z);
    var front := ds[..|x + y|];
    StandsSplit(rules, front, x, y);
    a, b, c := front[..|x|], front[|x|..], ds[|x + y|..];
  }

  lemma {:induction false} CountRuleOf(item: Lowered, sep: Lowered, min: nat, end: nat, p: Production)
    returns (count: nat)
    requires p in CountRules(item, sep, min, end)
    ensures FirstCount(min) <= count < end && p == CountRule(item, sep, min, count)
    decreases end
  {
    if p == CountRule(item, sep, min, end - 1) {
      count := end - 1;
    } else {
      count := CountRuleOf(item, sep, min, end - 1, p);
    }
  }

  /** Every derivation of the repeat is made of proper pieces, in an admitted number. */
  lemma GatherReads(rules: seq<Production>, item: Lowered, sep: Lowered, min: nat, max: Option<nat>, d: Tree)
    requires Valid(rules, d) && d.Root() == Internal(item.next) && OwnsRepeat(rules, item, sep, min, max)
    requires item.next <= sep.next
    ensures var chunks, gaps := GatherChunks(item, sep, min, max, d), GatherGaps(item, sep, min, max, d);
      && Admits(sep.symbols != [], min, max, |chunks|)
      && Spread(item, sep, min, max, chunks, gaps) == d && Proper(rules, item, sep, chunks, gaps)
  {
    if !Unbounded(min, max) {
      CountedReads(rules, item, sep, min, max, d);
    } else if sep.symbols == [] {
      StarReads(rules, item, sep, d);
    } else {
      ListReads(rules, item, sep, min, max, d);
    }
  }

  lemma CountedReads(rules: seq<Production>, item: Lowered, sep: Lowered, min: nat, max: Option<nat>, d: Tree)
    requires Valid(rules, d) && d.Root() == Internal(item.next) && OwnsRepeat(rules, item, sep, min, max)
    requires !Unbounded(min, max)
    ensures var chunks, gaps := GatherChunks(item, sep, min, max, d), GatherGaps(item, sep, min, max, d);
      && Admits(sep.symbols != [], min, max, |chunks|)
      && Spread(item, sep, min, max, chunks, gaps) == d && Proper(rules, item, sep, chunks, gaps)
  {
    assert d.rule in BoundedRules(item, sep, min, Skip(Upper(min, max)));
    if min == 0 && d.rule == StarEmpty(item, sep) {
      assert |Roots(d.children)| == 0;
    } else {
      var count := CountRuleOf(item, sep, min, Skip(Upper(min, max)), d.rule);
      assert CountOf(sep, min, d.rule) == count;
      CutReads(rules, item, sep, d.children, count);
    }
  }

  lemma ListReads(rules: seq<Production>, item: Lowered, sep: Lowered, min: nat, max: Option<nat>, d: Tree)
    requires Valid(rules, d) && d.Root() == Internal(item.next) && OwnsRepeat(rules, item, sep, min, max)
    requires Unbounded(min, max) && sep.symbols != [] && item.next <= sep.next
    ensures var chunks, gaps := GatherChunks(item, sep, min, max, d), GatherGaps(item, sep, min, max, d);
      && Admits(sep.symbols != [], min, max, |chunks|)
      && Spread(item, sep, min, max, chunks, gaps) == d && Proper(rules, item, sep, chunks, gaps)
  {
    var w := |item.symbols|;
    assert d.rule == ListItem(item, sep);
    StandsSplit(rules, d.children, item.symbols, [Internal(TailName(sep))]);
    StandsOne(rules, d.children[w..], TailName(sep));
    TailReads(rules, item, sep, d.children[w]);
    assert d.children == d.children[..w] + [d.children[w]];
    var tails := TailChunks(d.children[w], |sep.symbols|);
    assert ([d.children[..w]] + tails)[1..] == tails;
  }
}
