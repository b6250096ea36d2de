/** Binding-power tiers of a self-recursive nonterminal: collecting the levels, and the grammar of
    one nonterminal per level linked by promotions. */
module Tiers {
  import opened Wrappers

  type Level = nat

  /** Rule expressions.  `Itself` names the enclosing nonterminal without a level, `Tiered` with one;
      `TieredOther` puts a level on some other nonterminal. */
  datatype Expr =
    | Empty
    | Token(token: int)
    | ErrorAtom
    | NonTerminal(name: int)
    | Itself
    | Tiered(level: Level)
    | TieredOther(name: int, level: Level)
    | Seq(items: seq<Expr>)
    | Alt(items: seq<Expr>)
    | Optional(inner: Expr)
    | Named(name: int, inner: Expr)
    | Repeat(inner: Expr, separator: Option<Expr>)

  /** `Own(n)` is the explicit `Self:n <- ...` form; `Foreign` names another nonterminal there. */
  datatype Output = Inferred | Own(level: Level) | Foreign(level: Level)

  datatype Rule = Rule(expr: Expr, output: Output)

  datatype TierError = ForeignOutput | BareSelf | ForeignTier | MustLead

  // ------------------------------------------------------------------ reading one expression

  predicate ContainsTiered(e: Expr) {
    match e
    case Tiered(_) => true
    case TieredOther(_, _) => true
    case Seq(items) => exists i :: 0 <= i < |items| && ContainsTiered(items[i])
    case Alt(items) => exists i :: 0 <= i < |items| && ContainsTiered(items[i])
    case Optional(inner) => ContainsTiered(inner)
    case Named(_, inner) => ContainsTiered(inner)
    case Repeat(inner, separator) => ContainsTiered(inner) || (separator.Some? && ContainsTiered(separator.value))
    case _ => false
  }

  /** `leading_tier`: the level of the first direct symbol. */
  function LeadingTier(e: Expr): Option<Level> {
    match e
    case Tiered(level) => Some(level)
    case TieredOther(_, level) => Some(level)
    case Named(_, inner) => LeadingTier(inner)
    case Seq(items) => if items == [] then None else LeadingTier(items[0])
    case _ => None
  }

  /** `collect_and_validate_tiers`: adds the levels of `e`, or reports the first bad reference. */
  function Collect(e: Expr, levels: set<Level>): Result<set<Level>, TierError>
    decreases e, 0
  {
    match e
    case Itself => Err(BareSelf)
    case TieredOther(_, _) => Err(ForeignTier)
    case Tiered(level) => Ok(levels + {level})
    case Seq(items) => CollectAll(items, levels)
    case Alt(items) => CollectAll(items, levels)
    case Optional(inner) => Collect(inner, levels)
    case Named(_, inner) => Collect(inner, levels)
    case Repeat(inner, separator) =>
      var first := Collect(inner, levels);
      if first.Err? || separator.None? then first else Collect(separator.value, first.value)
    case _ => Ok(levels)
  }

  function CollectAll(items: seq<Expr>, levels: set<Level>): Result<set<Level>, TierError>
    decreases items, 0
  {
    if items == [] then Ok(levels)
    else
      var front := CollectAll(items[..|items| - 1], levels);
      if front.Err? then front else Collect(items[|items| - 1], front.value)
  }

  /** Every reference to the enclosing nonterminal carries a level, and no other one does. */
  predicate Qualified(e: Expr) {
    match e
    case Itself => false
    case TieredOther(_, _) => false
    case Seq(items) => forall i :: 0 <= i < |items| ==> Qualified(items[i])
    case Alt(items) => forall i :: 0 <= i < |items| ==> Qualified(items[i])
    case Optional(inner) => Qualified(inner)
    case Named(_, inner) => Qualified(inner)
    case Repeat(inner, separator) => Qualified(inner) && (separator.Some? ==> Qualified(separator.value))
    case _ => true
  }

  /** The levels that occur in `e`. */
  predicate Mentions(e: Expr, level: Level) {
    match e
    case Tiered(l) => l == level
    case Seq(items) => exists i :: 0 <= i < |items| && Mentions(items[i], level)
    case Alt(items) => exists i :: 0 <= i < |items| && Mentions(items[i], level)
    case Optional(inner) => Mentions(inner, level)
    case Named(_, inner) => Mentions(inner, level)
    case Repeat(inner, separator) => Mentions(inner, level) || (separator.Some? && Mentions(separator.value, level))
    case _ => false
  }

  ghost predicate MentionedIn(items: seq<Expr>, level: Level) {
    exists i :: 0 <= i < |items| && Mentions(items[i], level)
  }

  lemma MentionedSnoc(items: seq<Expr>, level: Level)
    requires items != []
    ensures MentionedIn(items, level)
      <==> MentionedIn(items[..|items| - 1], level) || Mentions(items[|items| - 1], level)
  {
    var front := items[..|items| - 1];
    if MentionedIn(front, level) {
      var i :| 0 <= i < |front| && Mentions(front[i], level);
      assert Mentions(items[i], level);
    }
    if MentionedIn(items, level) {
      var i :| 0 <= i < |items| && Mentions(items[i], level);
      assert i == |items| - 1 || Mentions(front[i], level);
    }
  }

  /** Collecting succeeds exactly on qualified expressions, and adds exactly their levels. */
  lemma {:induction false} CollectIs(e: Expr, levels: set<Level>)
    ensures Collect(e, levels).Ok? <==> Qualified(e)
    ensures Collect(e, levels).Ok? ==>
      forall l: Level :: l in Collect(e, levels).value <==> l in levels || Mentions(e, l)
    decreases e, 0
  {
    match e
    case Seq(items) => CollectAllIs(items, levels);
    case Alt(items) => CollectAllIs(items, levels);
    case Optional(inner) => CollectIs(inner, levels);
    case Named(_, inner) => CollectIs(inner, levels);
    case Repeat(inner, separator) =>
      CollectIs(inner, levels);
      if Collect(inner, levels).Ok? && separator.Some? {
        CollectIs(separator.value, Collect(inner, levels).value);
      }
    case _ =>
  }

  lemma {:induction false} CollectAllIs(items: seq<Expr>, levels: set<Level>)
    ensures CollectAll(items, levels).Ok? <==> AllQualified(items)
    ensures CollectAll(items, levels).Ok? ==>
      forall l: Level :: l in CollectAll(items, levels).value <==> l in levels || MentionedIn(items, l)
    decreases items, 0
  {
    if items != [] {
      var front, last := items[..|items| - 1], items[|items| - 1];
      CollectAllIs(front, levels);
      QualifiedSnoc(items);
      if CollectAll(front, levels).Ok? {
        CollectIs(last, CollectAll(front, levels).value);
        forall l: Level
          ensures MentionedIn(items, l) <==> MentionedIn(front, l) || Mentions(last, l)
        {
          MentionedSnoc(items, l);
        }
      }
    }
  }

  predicate AllQualified(items: seq<Expr>) {
    forall i :: 0 <= i < |items| ==> Qualified(items[i])
  }

  lemma QualifiedSnoc(items: seq<Expr>)
    requires items != []
    ensures AllQualified(items) <==> AllQualified(items[..|items| - 1]) && Qualified(items[|items| - 1])
  {
    assert items == items[..|items| - 1] + [items[|items| - 1]];
  }

  lemma {:induction false} LeadingIsMentioned(e: Expr)
    requires Qualified(e) && LeadingTier(e).Some?
    ensures Mentions(e, LeadingTier(e).value)
  {
    match e
    case Named(_, inner) => LeadingIsMentioned(inner);
    case Seq(items) => LeadingIsMentioned(items[0]);
    case _ =>
  }

  lemma {:induction false} TieredMentions(e: Expr) returns (level: Level)
    requires Qualified(e) && ContainsTiered(e)
    ensures Mentions(e, level)
  {
    match e
    case Tiered(l) => level := l;
    case Seq(items) =>
      var i :| 0 <= i < |items| && ContainsTiered(items[i]);
      level := TieredMentions(items[i]);
    case Alt(items) =>
      var i :| 0 <= i < |items| && ContainsTiered(items[i]);
      level := TieredMentions(items[i]);
    case Optional(inner) => level := TieredMentions(inner);
    case Named(_, inner) => level := TieredMentions(inner);
    case Repeat(inner, separator) =>
      if ContainsTiered(inner) {
        level := TieredMentions(inner);
      } else {
        level := TieredMentions(separator.value);
      }
  }

  // ------------------------------------------------------------------ references in reading order

  /** The references to the enclosing nonterminal, and to levels, from left to right. */
  function References(e: Expr): seq<Expr>
    decreases e, 0
  {
    match e
    case Itself => [e]
    case Tiered(_) => [e]
    case TieredOther(_, _) => [e]
    case Seq(items) => ReferencesOf(items)
    case Alt(items) => ReferencesOf(items)
    case Optional(inner) => References(inner)
    case Named(_, inner) => References(inner)
    case Repeat(inner, separator) => References(inner) + if separator.Some? then References(separator.value) else []
    case _ => []
  }

  function ReferencesOf(items: seq<Expr>): seq<Expr>
    decreases items, 0
  {
    if items == [] then [] else ReferencesOf(items[..|items| - 1]) + References(items[|items| - 1])
  }

  /** The first reference that is not a level of the enclosing nonterminal. */
  predicate FirstBad(references: seq<Expr>, k: int) {
    0 <= k < |references| && !references[k].Tiered? && forall j :: 0 <= j < k ==> references[j].Tiered?
  }

  /** What collecting says about the references: all are levels, or the first bad one. */
  ghost predicate Answers(r: Result<set<Level>, TierError>, references: seq<Expr>, levels: set<Level>) {
    match r
    case Ok(all) =>
      && (forall k :: 0 <= k < |references| ==> references[k].Tiered?)
      && forall l: Level :: l in all <==> l in levels || Tiered(l) in references
    case Err(error) =>
      exists k :: FirstBad(references, k) && error == if references[k].Itself? then BareSelf else ForeignTier
  }

  lemma AnswersJoin(first: Result<set<Level>, TierError>, a: seq<Expr>, levels: set<Level>,
                    second: Result<set<Level>, TierError>, b: seq<Expr>)
    requires Answers(first, a, levels) && (first.Ok? ==> Answers(second, b, first.value))
    ensures Answers(if first.Err? then first else second, a + b, levels)
  {
    var all := a + b;
    if first.Err? {
      var k :| FirstBad(a, k) && first.error == if a[k].Itself? then BareSelf else ForeignTier;
      assert FirstBad(all, k) && all[k] == a[k];
    } else if second.Err? {
      var k :| FirstBad(b, k) && second.error == if b[k].Itself? then BareSelf else ForeignTier;
      assert forall j :: |a| <= j < |all| ==> all[j] == b[j - |a|];
      assert FirstBad(all, |a| + k);
    }
  }

  /** Collecting reads the references from left to right, up to the first bad one. */
  lemma {:induction false} CollectReads(e: Expr, levels: set<Level>)
    ensures Answers(Collect(e, levels), References(e), levels)
    decreases e, 0
  {
    match e
    case Itself => assert FirstBad([e], 0);
    case TieredOther(_, _) => assert FirstBad([e], 0);
    case Seq(items) => CollectAllReads(items, levels);
    case Alt(items) => CollectAllReads(items, levels);
    case Optional(inner) => CollectReads(inner, levels);
    case Named(_, inner) => CollectReads(inner, levels);
    case Repeat(inner, separator) =>
      var first := Collect(inner, levels);
      CollectReads(inner, levels);
      if separator.None? {
        assert References(inner) + [] == References(inner);
      } else if first.Ok? {
        CollectReads(separator.value, first.value);
        AnswersJoin(first, References(inner), levels, Collect(separator.value, first.value),
          References(separator.value));
      } else {
        AnswersJoin(first, References(inner), levels, first, References(separator.value));
      }
    case _ =>
  }

  lemma {:induction false} CollectAllReads(items: seq<Expr>, levels: set<Level>)
    ensures Answers(CollectAll(items, levels), ReferencesOf(items), levels)
    decreases items, 0
  {
    if items != [] {
      var front, last := items[..|items| - 1], items[|items| - 1];
      var first := CollectAll(front, levels);
      CollectAllReads(front, levels);
      if first.Ok? {
        CollectReads(last, first.value);
        AnswersJoin(first, ReferencesOf(front), levels, Collect(last, first.value), References(last));
      } else {
        AnswersJoin(first, ReferencesOf(front), levels, first, References(last));
      }
    }
  }

  // ------------------------------------------------------------------ the plan

  /** `TierPlan`: the levels in increasing order and the level each rule produces. */
  datatype Plan = Plan(levels: seq<Level>, outputs: seq<Level>)

  ghost predicate Increasing(levels: seq<Level>) {
    forall i, j :: 0 <= i < j < |levels| ==> levels[i] < levels[j]
  }

  predicate IsTiered(rules: seq<Rule>) {
    exists i :: 0 <= i < |rules| && (!rules[i].output.Inferred? || ContainsTiered(rules[i].expr))
  }

  /** A rule that passes validation. */
  predicate RuleValid(rule: Rule) {
    && !rule.output.Foreign? && Qualified(rule.expr)
    && (rule.output.Inferred? && ContainsTiered(rule.expr) ==> LeadingTier(rule.expr).Some?)
  }

  /** The level a valid rule produces, `tightest` when nothing says otherwise. */
  function OutputOf(rule: Rule, tightest: Level): Level {
    if rule.output.Own? then rule.output.level
    else if ContainsTiered(rule.expr) && LeadingTier(rule.expr).Some? then LeadingTier(rule.expr).value
    else tightest
  }

  /** One rule's output level is the one it asks for, and all its level lookups are defined. */
  ghost predicate RulePlanned(rule: Rule, output: Level, levels: seq<Level>)
    requires levels != []
  {
    && Qualified(rule.expr) && output == OutputOf(rule, levels[|levels| - 1]) && output in levels
    && forall l: Level :: Mentions(rule.expr, l) ==> l in levels
  }

  ghost predicate Annotated(rules: seq<Rule>, level: Level) {
    exists i :: 0 <= i < |rules| && Annotates(rules[i], level)
  }

  /** The levels are exactly the annotated ones, in order, and every rule is planned. */
  ghost predicate PlanFor(rules: seq<Rule>, plan: Plan) {
    && Increasing(plan.levels) && plan.levels != [] && |plan.outputs| == |rules|
    && (forall i :: 0 <= i < |rules| ==> RulePlanned(rules[i], plan.outputs[i], plan.levels))
    && (forall l: Level :: l in plan.levels <==> Annotated(rules, l))
  }

  predicate Annotates(rule: Rule, level: Level) {
    Mentions(rule.expr, level) || (rule.output.Own? && rule.output.level == level)
  }

  /** A sorted list of a set. */
  function InsertLevel(levels: seq<Level>, level: Level): seq<Level> {
    if levels == [] || level < levels[0] then [level] + levels
    else if level == levels[0] then levels
    else [levels[0]] + InsertLevel(levels[1..], level)
  }

  lemma {:induction false} InsertLevelHolds(levels: seq<Level>, level: Level)
    requires Increasing(levels)
    ensures Increasing(InsertLevel(levels, level))
    ensures forall l :: l in InsertLevel(levels, level) <==> l in levels || l == level
  {
    if levels != [] && level > levels[0] {
      assert levels == [levels[0]] + levels[1..];
      InsertLevelHolds(levels[1..], level);
      IncreasingCons(levels[0], InsertLevel(levels[1..], level));
    }
  }

  lemma IncreasingCons(first: Level, levels: seq<Level>)
    requires Increasing(levels) && forall l :: l in levels ==> first < l
    ensures Increasing([first] + levels)
  {
    forall i | 0 <= i < |levels| ensures first < levels[i] {
      assert levels[i] in levels;
    }
  }

  /** The ordered content of the level set. */
  method SortLevels(levels: set<Level>) returns (sorted: seq<Level>)
    ensures Increasing(sorted) && forall l: Level :: l in sorted <==> l in levels
  {
    sorted := [];
    var todo := levels;
    while todo != {}
      invariant todo <= levels && Increasing(sorted)
      invariant forall l: Level :: l in sorted <==> l in levels && l !in todo
      decreases todo
    {
      var l :| l in todo;
      InsertLevelHolds(sorted, l);
      sorted, todo := InsertLevel(sorted, l), todo - {l};
    }
  }

  /** What is wrong with a rule: another nonterminal in front of the arrow, a bad reference, or no
      level at the beginning of a rule without an arrow that has levels. */
  ghost predicate Faults(rule: Rule, error: TierError) {
    match error
    case ForeignOutput => rule.output.Foreign?
    case MustLead =>
      rule.output.Inferred? && Qualified(rule.expr) && ContainsTiered(rule.expr) && LeadingTier(rule.expr).None?
    case _ => !rule.output.Foreign? && Answers(Err(error), References(rule.expr), {})
  }

  /** The first rule that is not valid, and what is wrong with it. */
  ghost predicate FaultAt(rules: seq<Rule>, i: int, error: TierError) {
    0 <= i < |rules| && (forall k :: 0 <= k < i ==> RuleValid(rules[k])) && Faults(rules[i], error)
  }

  /** The validation loop over the rules. */
  method CollectRules(rules: seq<Rule>) returns (r: Result<set<Level>, TierError>)
    ensures r.Ok? <==> forall i :: 0 <= i < |rules| ==> RuleValid(rules[i])
    ensures r.Ok? ==> forall l: Level :: l in r.value <==> Annotated(rules, l)
    ensures r.Err? ==> exists i :: FaultAt(rules, i, r.error)
  {
    var levels: set<Level> := {};
    for i := 0 to |rules|
      invariant forall k :: 0 <= k < i ==> RuleValid(rules[k])
      invariant forall l: Level :: l in levels <==> exists k :: 0 <= k < i && Annotates(rules[k], l)
    {
      var rule := rules[i];
      if rule.output.Foreign? {
        assert FaultAt(rules, i, ForeignOutput);
        return Err(ForeignOutput);
      }
      if rule.output.Own? { levels := levels + {rule.output.level}; }
      var collected := Collect(rule.expr, levels);
      CollectIs(rule.expr, levels);
      CollectReads(rule.expr, levels);
      if collected.Err? {
        assert FaultAt(rules, i, collected.error);
        return Err(collected.error);
      }
      if rule.output.Inferred? && ContainsTiered(rule.expr) && LeadingTier(rule.expr).None? {
        assert FaultAt(rules, i, MustLead);
        return Err(MustLead);
      }
      levels := collected.value;
    }
    r := Ok(levels);
  }

  // ------------------------------------------------------------------ which level a rule produces

  /** The symbols of an expression in order, seen through names and sequences. */
  function Symbols(e: Expr): seq<Expr>
    decreases e, 0
  {
    match e
    case Named(_, inner) => Symbols(inner)
    case Seq(items) => SymbolsOf(items)
    case _ => [e]
  }

  function SymbolsOf(items: seq<Expr>): seq<Expr>
    decreases items, 0
  {
    if items == [] then [] else Symbols(items[0]) + SymbolsOf(items[1..])
  }

  predicate BeginsAt(e: Expr, level: Level) {
    Symbols(e) != [] && Symbols(e)[0] == Tiered(level)
  }

  /** What a rule's level must be: the one written in front of the arrow; without an arrow the level
      of the first symbol; and the tightest level for a rule without any annotation. */
  ghost predicate Produces(rule: Rule, output: Level, levels: seq<Level>) {
    && (rule.output.Own? ==> output == rule.output.level)
    && (rule.output.Inferred? && (exists l: Level :: Mentions(rule.expr, l)) ==> BeginsAt(rule.expr, output))
    && (rule.output.Inferred? && (forall l: Level :: !Mentions(rule.expr, l)) ==>
          output in levels && forall l :: l in levels ==> l <= output)
  }

  lemma {:induction false} LeadingBegins(e: Expr)
    requires Qualified(e) && LeadingTier(e).Some?
    ensures BeginsAt(e, LeadingTier(e).value)
  {
    match e
    case Named(_, inner) => LeadingBegins(inner);
    case Seq(items) =>
      LeadingBegins(items[0]);
      assert Symbols(e) == Symbols(items[0]) + SymbolsOf(items[1..]);
    case _ =>
  }

  lemma {:induction false} MentionsContain(e: Expr, level: Level)
    requires Mentions(e, level)
    ensures ContainsTiered(e)
  {
    match e
    case Seq(items) =>
      var i :| 0 <= i < |items| && Mentions(items[i], level);
      MentionsContain(items[i], level);
    case Alt(items) =>
      var i :| 0 <= i < |items| && Mentions(items[i], level);
      MentionsContain(items[i], level);
    case Optional(inner) => MentionsContain(inner, level);
    case Named(_, inner) => MentionsContain(inner, level);
    case Repeat(inner, separator) =>
      if Mentions(inner, level) { MentionsContain(inner, level); } else { MentionsContain(separator.value, level); }
    case _ =>
  }

  /** Every planned rule produces the level it must. */
  lemma PlannedProduces(rules: seq<Rule>, plan: Plan, i: nat)
    requires PlanFor(rules, plan) && i < |rules| && RuleValid(rules[i])
    ensures Produces(rules[i], plan.outputs[i], plan.levels)
  {
    var rule := rules[i];
    var tightest := plan.levels[|plan.levels| - 1];
    assert RulePlanned(rule, plan.outputs[i], plan.levels);
    if rule.output.Inferred? {
      if ContainsTiered(rule.expr) {
        LeadingBegins(rule.expr);
        var l := TieredMentions(rule.expr);
      } else if exists l: Level :: Mentions(rule.expr, l) {
        var l: Level :| Mentions(rule.expr, l);
        MentionsContain(rule.expr, l);
      } else {
        LastIsTightest(plan.levels);
      }
    }
  }

  lemma LastIsTightest(levels: seq<Level>)
    requires Increasing(levels) && levels != []
    ensures forall l :: l in levels ==> l <= levels[|levels| - 1]
  {
  }

  /** The two rules annotate the same levels and produce the same one. */
  ghost predicate Alike(a: Rule, b: Rule) {
    && (RuleValid(a) <==> RuleValid(b))
    && (forall l: Level :: Annotates(a, l) <==> Annotates(b, l))
    && forall output: Level, levels: seq<Level> :: levels != [] ==>
         (RulePlanned(a, output, levels) <==> RulePlanned(b, output, levels))
  }

  lemma CompactAlike(compact: Rule, long: Rule, n: Level, rest: seq<Expr>)
    requires compact == Rule(Seq([Tiered(n)] + rest), Inferred) && long == Rule(compact.expr, Own(n))
    ensures Alike(compact, long)
  {
    var items := [Tiered(n)] + rest;
    assert items[0] == Tiered(n);
    assert ContainsTiered(items[0]) && Mentions(items[0], n);
    assert LeadingTier(compact.expr) == LeadingTier(items[0]) == Some(n);
  }

  ghost predicate AllAlike(a: seq<Rule>, b: seq<Rule>) {
    |a| == |b| && forall k :: 0 <= k < |a| ==> Alike(a[k], b[k])
  }

  lemma AlikeAnnotated(a: seq<Rule>, b: seq<Rule>, level: Level)
    requires AllAlike(a, b)
    ensures Annotated(a, level) <==> Annotated(b, level)
  {
    forall k | 0 <= k < |a| ensures Annotates(a[k], level) <==> Annotates(b[k], level) {
      assert Alike(a[k], b[k]);
    }
  }

  lemma AlikePlanned(a: Rule, b: Rule, output: Level, levels: seq<Level>)
    requires Alike(a, b) && levels != []
    ensures RulePlanned(a, output, levels) <==> RulePlanned(b, output, levels)
  {
  }

  lemma AlikePlans(a: seq<Rule>, b: seq<Rule>, plan: Plan)
    requires AllAlike(a, b)
    ensures PlanFor(a, plan) <==> PlanFor(b, plan)
  {
    forall l: Level ensures Annotated(a, l) <==> Annotated(b, l) {
      AlikeAnnotated(a, b, l);
    }
    if plan.levels != [] && |plan.outputs| == |a| {
      forall k | 0 <= k < |a|
        ensures RulePlanned(a[k], plan.outputs[k], plan.levels) <==> RulePlanned(b[k], plan.outputs[k], plan.levels)
      {
        AlikePlanned(a[k], b[k], plan.outputs[k], plan.levels);
      }
    }
  }

  /** `Self:n, ...` is short for `Self:n <- Self:n, ...`: both are valid alike, and have the same
      plans. */
  lemma CompactIsExplicit(rules: seq<Rule>, plan: Plan, i: nat, n: Level, rest: seq<Expr>)
    requires i < |rules| && rules[i] == Rule(Seq([Tiered(n)] + rest), Inferred)
    ensures var long := Rule(Seq([Tiered(n)] + rest), Own(n));
      && (RuleValid(rules[i]) <==> RuleValid(long))
      && (PlanFor(rules, plan) <==> PlanFor(rules[i := long], plan))
  {
    var long := Rule(rules[i].expr, Own(n));
    var others := rules[i := long];
    CompactAlike(rules[i], long, n, rest);
    AlikePlans(rules, others, plan);
  }

  /** `TierPlan::build`: no plan without annotations; otherwise a plan exactly when every rule is
      valid, and then every level lookup it needs is defined. */
  method BuildPlan(rules: seq<Rule>) returns (r: Result<Option<Plan>, TierError>)
    ensures !IsTiered(rules) ==> r == Ok(None)
    ensures IsTiered(rules) ==>
      && (r.Ok? <==> forall i :: 0 <= i < |rules| ==> RuleValid(rules[i]))
      && (r.Err? ==> exists i :: FaultAt(rules, i, r.error))
      && (r.Ok? ==> r.value.Some? && PlanFor(rules, r.value.value))
      && (r.Ok? ==> forall i :: 0 <= i < |rules| ==> Produces(rules[i], r.value.value.outputs[i], r.value.value.levels))
  {
    if !IsTiered(rules) { return Ok(None); }
    var collected := CollectRules(rules);
    if collected.Err? { return Err(collected.error); }
    SomeLevel(rules, collected.value);
    var plan := PlanLevels(rules, collected.value);
    forall i | 0 <= i < |rules| ensures Produces(rules[i], plan.outputs[i], plan.levels) {
      PlannedProduces(rules, plan, i);
    }
    r := Ok(Some(plan));
  }

  /** Sorts the levels and gives every rule its output level. */
  method PlanLevels(rules: seq<Rule>, levels: set<Level>) returns (plan: Plan)
    requires levels != {} && forall l: Level :: l in levels <==> Annotated(rules, l)
    requires forall i :: 0 <= i < |rules| ==> RuleValid(rules[i])
    ensures PlanFor(rules, plan)
  {
    var sorted := SortLevels(levels);
    assert sorted != [] by {
      var l :| l in levels;
      assert l in sorted;
    }
    var outputs: seq<Level> := [];
    for i := 0 to |rules|
      invariant |outputs| == i
      invariant forall k :: 0 <= k < i ==> RulePlanned(rules[k], outputs[k], sorted)
    {
      var output := OutputOf(rules[i], sorted[|sorted| - 1]);
      OutputPlanned(rules, i, levels, sorted);
      outputs := outputs + [output];
    }
    plan := Plan(sorted, outputs);
  }

  lemma OutputPlanned(rules: seq<Rule>, i: nat, levels: set<Level>, sorted: seq<Level>)
    requires i < |rules| && RuleValid(rules[i]) && sorted != []
    requires forall l: Level :: l in levels <==> Annotated(rules, l)
    requires forall l: Level :: l in sorted <==> l in levels
    ensures RulePlanned(rules[i], OutputOf(rules[i], sorted[|sorted| - 1]), sorted)
  {
    var tightest := sorted[|sorted| - 1];
    OutputAnnotated(rules[i], tightest);
    assert tightest in sorted;
    forall l: Level | Annotates(rules[i], l) ensures l in sorted {
      assert Annotated(rules, l);
    }
    forall l: Level | Mentions(rules[i].expr, l) ensures l in sorted {
      assert Annotates(rules[i], l);
    }
  }

  /** One generated unit production: from the root symbol, or from one level to another. */
  datatype Promotion = FromRoot(to: Level) | FromTier(tier: Level, to: Level)

  /** `lowering`: the root goes to the loosest level, each level to the next tighter one. */
  method Lowering(plan: Plan) returns (promotions: seq<Promotion>)
    requires plan.levels != []
    ensures promotions == Promotions(plan.levels)
  {
    promotions := [FromRoot(plan.levels[0])];
    assert plan.levels[..1] == [plan.levels[0]];
    for i := 1 to |plan.levels|
      invariant promotions == Promotions(plan.levels[..i])
    {
      assert plan.levels[..i + 1][..i] == plan.levels[..i];
      promotions := promotions + [FromTier(plan.levels[i - 1], plan.levels[i])];
    }
    assert plan.levels[..|plan.levels|] == plan.levels;
  }

  function Promotions(levels: seq<Level>): seq<Promotion>
    requires levels != []
  {
    var n := |levels| - 1;
    if n == 0 then [FromRoot(levels[0])]
    else Promotions(levels[..n]) + [FromTier(levels[n - 1], levels[n])]
  }

  /** A level can be promoted exactly to the next one in order, and the root to the loosest. */
  lemma {:induction false} PromotionsStep(levels: seq<Level>, at: nat, to: Level)
    requires Increasing(levels) && at < |levels|
    ensures FromTier(levels[at], to) in Promotions(levels) <==> at + 1 < |levels| && levels[at + 1] == to
    ensures FromRoot(to) in Promotions(levels) <==> to == levels[0]
  {
    var n := |levels| - 1;
    if n > 0 {
      if at < n {
        PromotionsStep(levels[..n], at, to);
      } else {
        PromotionsStep(levels[..n], n - 1, to);
        NoPromotionFrom(levels[..n], levels[n], to);
      }
    }
  }

  lemma {:induction false} NoPromotionFrom(levels: seq<Level>, above: Level, to: Level)
    requires Increasing(levels) && levels != [] && levels[|levels| - 1] < above
    ensures FromTier(above, to) !in Promotions(levels)
  {
    var n := |levels| - 1;
    if n > 0 { NoPromotionFrom(levels[..n], above, to); }
  }

  lemma {:induction false} SomeLevel(rules: seq<Rule>, levels: set<Level>)
    requires IsTiered(rules) && forall i :: 0 <= i < |rules| ==> RuleValid(rules[i])
    requires forall l: Level :: l in levels <==> Annotated(rules, l)
    ensures levels != {}
  {
    var i :| 0 <= i < |rules| && (!rules[i].output.Inferred? || ContainsTiered(rules[i].expr));
    assert RuleValid(rules[i]);
    var l;
    if rules[i].output.Own? {
      l := rules[i].output.level;
    } else {
      l := TieredMentions(rules[i].expr);
    }
    assert Annotates(rules[i], l);
    assert Annotated(rules, l);
    assert l in levels;
  }

  lemma {:induction false} OutputAnnotated(rule: Rule, tightest: Level)
    requires RuleValid(rule)
    ensures OutputOf(rule, tightest) == tightest || Annotates(rule, OutputOf(rule, tightest))
  {
    if LeadingTier(rule.expr).Some? { LeadingIsMentioned(rule.expr); }
  }

  // ------------------------------------------------------------------ derivations and syntax trees

  /** Parse trees.  `Apply` uses a rule; `Promote` is one step to the next tighter level; a `Child`
      stands where the rule names the nonterminal at a level. */
  datatype Tree =
    | Nothing
    | TokenLeaf(token: int)
    | ErrorLeaf
    | OtherLeaf(name: int, content: int)
    | Child(tree: Tree)
    | Items(items: seq<Tree>)
    | Choice(index: nat, item: Tree)
    | Absent
    | Present(item: Tree)
    | Label(item: Tree)
    | Repeated(items: seq<Tree>, separators: seq<Tree>)
    | Apply(rule: nat, body: Tree)
    | Promote(tree: Tree)

  datatype Grammar = Grammar(rules: seq<Rule>, plan: Plan)

  ghost predicate Lawful(g: Grammar) {
    && Increasing(g.plan.levels) && |g.plan.outputs| == |g.rules|
    && forall i :: 0 <= i < |g.rules| ==> g.plan.outputs[i] in g.plan.levels
  }

  lemma PlannedLawful(rules: seq<Rule>, plan: Plan)
    requires PlanFor(rules, plan)
    ensures Lawful(Grammar(rules, plan))
  {
    forall i | 0 <= i < |rules| ensures plan.outputs[i] in plan.levels {
      assert RulePlanned(rules[i], plan.outputs[i], plan.levels);
    }
  }

  /** Where a level stands among the levels. */
  function IndexOf(levels: seq<Level>, level: Level): (i: nat)
    requires level in levels
    ensures i < |levels| && levels[i] == level
  {
    if levels[0] == level then 0
    else
      assert levels == [levels[0]] + levels[1..];
      1 + IndexOf(levels[1..], level)
  }

  /** A derivation from the symbol of level number `at`: promotions step to the next level, and a
      rule applies only at its own level. */
  ghost predicate Derives(g: Grammar, at: nat, t: Tree)
    requires Lawful(g)
    decreases t, 1, 0
  {
    match t
    case Promote(next) => at + 1 < |g.plan.levels| && Derives(g, at + 1, next)
    case Apply(rule, body) =>
      && at < |g.plan.levels| && rule < |g.rules| && g.plan.outputs[rule] == g.plan.levels[at]
      && Body(g, true, g.rules[rule].expr, body)
    case _ => false
  }

  /** A syntax tree of level number `at` or tighter: no promotions, the root rule's level is at
      least that, and children satisfy their own declared levels. */
  ghost predicate Syntax(g: Grammar, at: nat, t: Tree)
    requires Lawful(g)
    decreases t, 1, 0
  {
    match t
    case Apply(rule, body) =>
      && at < |g.plan.levels| && rule < |g.rules| && g.plan.outputs[rule] >= g.plan.levels[at]
      && Body(g, false, g.rules[rule].expr, body)
    case _ => false
  }

  /** The body of one rule, with derivations or with syntax trees at the tiered places. */
  ghost predicate Body(g: Grammar, deriving: bool, e: Expr, t: Tree)
    requires Lawful(g)
    decreases t, 0, 0
  {
    match e
    case Empty => t == Nothing
    case Token(token) => t == TokenLeaf(token)
    case ErrorAtom => t == ErrorLeaf
    case NonTerminal(name) => t.OtherLeaf? && t.name == name
    case Tiered(level) =>
      && t.Child? && level in g.plan.levels
      && if deriving then Derives(g, IndexOf(g.plan.levels, level), t.tree)
         else Syntax(g, IndexOf(g.plan.levels, level), t.tree)
    case Seq(items) => t.Items? && Bodies(g, deriving, items, t.items)
    case Alt(items) => t.Choice? && t.index < |items| && Body(g, deriving, items[t.index], t.item)
    case Optional(inner) => t == Absent || (t.Present? && Body(g, deriving, inner, t.item))
    case Named(_, inner) => t.Label? && Body(g, deriving, inner, t.item)
    case Repeat(inner, separator) =>
      && t.Repeated? && Each(g, deriving, inner, t.items)
      && |t.separators| == (if separator.None? || t.items == [] then 0 else |t.items| - 1)
      && (separator.Some? ==> Each(g, deriving, separator.value, t.separators))
    case _ => false
  }

  ghost predicate Bodies(g: Grammar, deriving: bool, es: seq<Expr>, ts: seq<Tree>)
    requires Lawful(g)
    decreases ts, 0, |ts|
  {
    && |es| == |ts|
    && (ts != [] ==> Body(g, deriving, es[0], ts[0]) && Bodies(g, deriving, es[1..], ts[1..]))
  }

  ghost predicate Each(g: Grammar, deriving: bool, e: Expr, ts: seq<Tree>)
    requires Lawful(g)
    decreases ts, 0, |ts|
  {
    ts != [] ==> Body(g, deriving, e, ts[0]) && Each(g, deriving, e, ts[1..])
  }

  /** The parts of a body in order, seen through labels and sequences. */
  function Parts(t: Tree): seq<Tree>
    decreases t, 0
  {
    match t
    case Label(item) => Parts(item)
    case Items(items) => PartsOf(items)
    case _ => [t]
  }

  function PartsOf(ts: seq<Tree>): seq<Tree>
    decreases ts, 0
  {
    if ts == [] then [] else Parts(ts[0]) + PartsOf(ts[1..])
  }

  /** The first part of a body, when the expression begins with a level, is a child there. */
  ghost predicate FirstChildAt(g: Grammar, deriving: bool, t: Tree, level: Level)
    requires Lawful(g)
  {
    Parts(t) != [] && Body(g, deriving, Tiered(level), Parts(t)[0])
  }

  lemma {:induction false} BodyBegins(g: Grammar, deriving: bool, e: Expr, t: Tree, level: Level)
    requires Lawful(g) && Body(g, deriving, e, t) && BeginsAt(e, level)
    ensures FirstChildAt(g, deriving, t, level)
    decreases e, 0
  {
    match e
    case Named(_, inner) => BodyBegins(g, deriving, inner, t.item, level);
    case Seq(items) => BodiesBegin(g, deriving, items, t.items, level);
    case _ =>
  }

  lemma {:induction false} BodiesBegin(g: Grammar, deriving: bool, es: seq<Expr>, ts: seq<Tree>, level: Level)
    requires Lawful(g) && Bodies(g, deriving, es, ts)
    requires SymbolsOf(es) != [] && SymbolsOf(es)[0] == Tiered(level)
    ensures PartsOf(ts) != [] && Body(g, deriving, Tiered(level), PartsOf(ts)[0])
    decreases es, 0
  {
    if Symbols(es[0]) != [] {
      BodyBegins(g, deriving, es[0], ts[0], level);
    } else {
      NoParts(g, deriving, es[0], ts[0]);
      BodiesBegin(g, deriving, es[1..], ts[1..], level);
    }
  }

  lemma {:induction false} NoParts(g: Grammar, deriving: bool, e: Expr, t: Tree)
    requires Lawful(g) && Body(g, deriving, e, t) && Symbols(e) == []
    ensures Parts(t) == []
    decreases e, 0
  {
    match e
    case Named(_, inner) => NoParts(g, deriving, inner, t.item);
    case Seq(items) => NoPartsOf(g, deriving, items, t.items);
    case _ =>
  }

  lemma {:induction false} NoPartsOf(g: Grammar, deriving: bool, es: seq<Expr>, ts: seq<Tree>)
    requires Lawful(g) && Bodies(g, deriving, es, ts) && SymbolsOf(es) == []
    ensures PartsOf(ts) == []
    decreases es, 0
  {
    if es != [] {
      NoParts(g, deriving, es[0], ts[0]);
      NoPartsOf(g, deriving, es[1..], ts[1..]);
    }
  }

  /** Every body of an inferred tiered rule begins with a child at exactly the rule's own level. */
  lemma InferredBegins(g: Grammar, i: nat, deriving: bool, t: Tree, level: Level)
    requires PlanFor(g.rules, g.plan) && i < |g.rules| && RuleValid(g.rules[i]) && g.rules[i].output.Inferred?
    requires Mentions(g.rules[i].expr, level)
    requires Lawful(g) && Body(g, deriving, g.rules[i].expr, t)
    ensures FirstChildAt(g, deriving, t, g.plan.outputs[i])
  {
    PlannedProduces(g.rules, g.plan, i);
    BodyBegins(g, deriving, g.rules[i].expr, t, g.plan.outputs[i]);
  }

  // ------------------------------------------------------------------ the correspondence

  /** Forgets the promotions: what the passthrough builders do. */
  function Strip(t: Tree): Tree
    decreases t, 0
  {
    match t
    case Promote(next) => Strip(next)
    case Apply(rule, body) => Apply(rule, Strip(body))
    case Child(tree) => Child(Strip(tree))
    case Items(items) => Items(StripAll(items))
    case Choice(index, item) => Choice(index, Strip(item))
    case Present(item) => Present(Strip(item))
    case Label(item) => Label(Strip(item))
    case Repeated(items, separators) => Repeated(StripAll(items), StripAll(separators))
    case _ => t
  }

  function StripAll(ts: seq<Tree>): (r: seq<Tree>)
    ensures |r| == |ts|
    decreases ts, 0
  {
    if ts == [] then [] else [Strip(ts[0])] + StripAll(ts[1..])
  }

  /** The promotion chain from level number `at` to level number `to`. */
  function Promoted(at: nat, to: nat, t: Tree): Tree
    decreases if at < to then to - at else 0
  {
    if at < to then Promote(Promoted(at + 1, to, t)) else t
  }

  /** Puts the promotions back. */
  ghost function Lift(g: Grammar, at: nat, t: Tree): Tree
    requires Lawful(g)
    decreases t, 1, 0
  {
    if t.Apply? && t.rule < |g.rules| then
      Promoted(at, IndexOf(g.plan.levels, g.plan.outputs[t.rule]),
        Apply(t.rule, LiftBody(g, g.rules[t.rule].expr, t.body)))
    else t
  }

  ghost function LiftBody(g: Grammar, e: Expr, t: Tree): Tree
    requires Lawful(g)
    decreases t, 0, 0
  {
    match e
    case Tiered(level) =>
      if t.Child? && level in g.plan.levels then Child(Lift(g, IndexOf(g.plan.levels, level), t.tree)) else t
    case Seq(items) => if t.Items? && |t.items| == |items| then Items(LiftBodies(g, items, t.items)) else t
    case Alt(items) =>
      if t.Choice? && t.index < |items| then Choice(t.index, LiftBody(g, items[t.index], t.item)) else t
    case Optional(inner) => if t.Present? then Present(LiftBody(g, inner, t.item)) else t
    case Named(_, inner) => if t.Label? then Label(LiftBody(g, inner, t.item)) else t
    case Repeat(inner, separator) =>
      if t.Repeated? then
        Repeated(LiftEach(g, inner, t.items),
          if separator.None? then t.separators else LiftEach(g, separator.value, t.separators))
      else t
    case _ => t
  }

  ghost function LiftBodies(g: Grammar, es: seq<Expr>, ts: seq<Tree>): (r: seq<Tree>)
    requires Lawful(g) && |es| == |ts|
    ensures |r| == |ts|
    decreases ts, 0, |ts|
  {
    if ts == [] then [] else [LiftBody(g, es[0], ts[0])] + LiftBodies(g, es[1..], ts[1..])
  }

  ghost function LiftEach(g: Grammar, e: Expr, ts: seq<Tree>): (r: seq<Tree>)
    requires Lawful(g)
    ensures |r| == |ts|
    decreases ts, 0, |ts|
  {
    if ts == [] then [] else [LiftBody(g, e, ts[0])] + LiftEach(g, e, ts[1..])
  }

  lemma {:induction false} PromotedStrip(at: nat, to: nat, t: Tree)
    ensures Strip(Promoted(at, to, t)) == Strip(t)
    decreases if at < to then to - at else 0
  {
    if at < to { PromotedStrip(at + 1, to, t); }
  }

  lemma {:induction false} PromotedDerives(g: Grammar, at: nat, to: nat, t: Tree)
    requires Lawful(g) && at <= to < |g.plan.levels| && Derives(g, to, t)
    ensures Derives(g, at, Promoted(at, to, t))
    decreases if at < to then to - at else 0
  {
    if at < to { PromotedDerives(g, at + 1, to, t); }
  }

  lemma IndexInOrder(levels: seq<Level>, at: nat, level: Level)
    requires Increasing(levels) && at < |levels| && level in levels
    ensures level >= levels[at] <==> at <= IndexOf(levels, level)
  {
    var i := IndexOf(levels, level);
    if i < at { assert levels[i] < levels[at]; }
    if at < i { assert levels[at] < levels[i]; }
  }

  /** From a syntax tree to its derivation and back. */
  lemma {:induction false} LiftDerives(g: Grammar, at: nat, t: Tree)
    requires Lawful(g) && Syntax(g, at, t)
    ensures Derives(g, at, Lift(g, at, t)) && Strip(Lift(g, at, t)) == t
    decreases t, 1, 0
  {
    var to := IndexOf(g.plan.levels, g.plan.outputs[t.rule]);
    var e := g.rules[t.rule].expr;
    IndexInOrder(g.plan.levels, at, g.plan.outputs[t.rule]);
    LiftBodyHolds(g, e, t.body);
    var applied := Apply(t.rule, LiftBody(g, e, t.body));
    PromotedDerives(g, at, to, applied);
    PromotedStrip(at, to, applied);
  }

  lemma {:induction false} LiftBodyHolds(g: Grammar, e: Expr, t: Tree)
    requires Lawful(g) && Body(g, false, e, t)
    ensures Body(g, true, e, LiftBody(g, e, t)) && Strip(LiftBody(g, e, t)) == t
    decreases t, 0, 0
  {
    match e
    case Tiered(level) => LiftDerives(g, IndexOf(g.plan.levels, level), t.tree);
    case Seq(items) => LiftBodiesHold(g, items, t.items);
    case Alt(items) => LiftBodyHolds(g, items[t.index], t.item);
    case Optional(inner) => if t.Present? { LiftBodyHolds(g, inner, t.item); }
    case Named(_, inner) => LiftBodyHolds(g, inner, t.item);
    case Repeat(inner, separator) =>
      LiftEachHolds(g, inner, t.items);
      if separator.Some? { LiftEachHolds(g, separator.value, t.separators); }
    case _ =>
  }

  lemma {:induction false} LiftBodiesHold(g: Grammar, es: seq<Expr>, ts: seq<Tree>)
    requires Lawful(g) && Bodies(g, false, es, ts)
    ensures Bodies(g, true, es, LiftBodies(g, es, ts)) && StripAll(LiftBodies(g, es, ts)) == ts
    decreases ts, 0, |ts|
  {
    if ts != [] {
      LiftBodyHolds(g, es[0], ts[0]);
      LiftBodiesHold(g, es[1..], ts[1..]);
      assert LiftBodies(g, es, ts)[1..] == LiftBodies(g, es[1..], ts[1..]);
    }
  }

  lemma {:induction false} LiftEachHolds(g: Grammar, e: Expr, ts: seq<Tree>)
    requires Lawful(g) && Each(g, false, e, ts)
    ensures Each(g, true, e, LiftEach(g, e, ts)) && StripAll(LiftEach(g, e, ts)) == ts
    decreases ts, 0, |ts|
  {
    if ts != [] {
      LiftBodyHolds(g, e, ts[0]);
      LiftEachHolds(g, e, ts[1..]);
      assert LiftEach(g, e, ts)[1..] == LiftEach(g, e, ts[1..]);
    }
  }

  /** From a derivation to its syntax tree and back. */
  lemma {:induction false} StripDerives(g: Grammar, at: nat, t: Tree)
    requires Lawful(g) && Derives(g, at, t)
    ensures Syntax(g, at, Strip(t)) && Lift(g, at, Strip(t)) == t
    decreases t, 1, 0
  {
    if t.Promote? {
      StripDerives(g, at + 1, t.tree);
      var s := Strip(t);
      IndexInOrder(g.plan.levels, at + 1, g.plan.outputs[s.rule]);
      assert g.plan.levels[at] < g.plan.levels[at + 1];
    } else {
      StripBodyHolds(g, g.rules[t.rule].expr, t.body);
      IndexInOrder(g.plan.levels, at, g.plan.outputs[t.rule]);
      OwnIndex(g.plan.levels, at);
    }
  }

  lemma OwnIndex(levels: seq<Level>, at: nat)
    requires Increasing(levels) && at < |levels|
    ensures IndexOf(levels, levels[at]) == at
  {
    var i := IndexOf(levels, levels[at]);
    assert levels[i] == levels[at];
    assert !(i < at) && !(at < i);
  }

  lemma {:induction false} StripBodyHolds(g: Grammar, e: Expr, t: Tree)
    requires Lawful(g) && Body(g, true, e, t)
    ensures Body(g, false, e, Strip(t)) && LiftBody(g, e, Strip(t)) == t
    decreases t, 0, 0
  {
    match e
    case Tiered(level) => StripDerives(g, IndexOf(g.plan.levels, level), t.tree);
    case Seq(items) => StripBodiesHold(g, items, t.items);
    case Alt(items) => StripBodyHolds(g, items[t.index], t.item);
    case Optional(inner) => if t.Present? { StripBodyHolds(g, inner, t.item); }
    case Named(_, inner) => StripBodyHolds(g, inner, t.item);
    case Repeat(inner, separator) =>
      StripEachHolds(g, inner, t.items);
      if separator.Some? { StripEachHolds(g, separator.value, t.separators); }
    case _ =>
  }

  lemma {:induction false} StripBodiesHold(g: Grammar, es: seq<Expr>, ts: seq<Tree>)
    requires Lawful(g) && Bodies(g, true, es, ts)
    ensures Bodies(g, false, es, StripAll(ts)) && LiftBodies(g, es, StripAll(ts)) == ts
    decreases ts, 0, |ts|
  {
    if ts != [] {
      StripBodyHolds(g, es[0], ts[0]);
      StripBodiesHold(g, es[1..], ts[1..]);
      assert StripAll(ts)[1..] == StripAll(ts[1..]);
    }
  }

  lemma {:induction false} StripEachHolds(g: Grammar, e: Expr, ts: seq<Tree>)
    requires Lawful(g) && Each(g, true, e, ts)
    ensures Each(g, false, e, StripAll(ts)) && LiftEach(g, e, StripAll(ts)) == ts
    decreases ts, 0, |ts|
  {
    if ts != [] {
      StripBodyHolds(g, e, ts[0]);
      StripEachHolds(g, e, ts[1..]);
      EachCons(g, e, Strip(ts[0]), StripAll(ts[1..]));
      assert ts == [ts[0]] + ts[1..];
    }
  }

  lemma EachCons(g: Grammar, e: Expr, first: Tree, rest: seq<Tree>)
    requires Lawful(g) && Body(g, false, e, first) && Each(g, false, e, rest)
    ensures Each(g, false, e, [first] + rest)
    ensures LiftEach(g, e, [first] + rest) == [LiftBody(g, e, first)] + LiftEach(g, e, rest)
  {
    assert ([first] + rest)[1..] == rest;
  }

  /** Derivations from a tier and syntax trees of that level or tighter correspond one to one;
      promotion chains add no ambiguity. */
  lemma TiersOneToOne(g: Grammar, at: nat)
    requires Lawful(g) && at < |g.plan.levels|
    ensures forall d :: Derives(g, at, d) ==> Syntax(g, at, Strip(d)) && Lift(g, at, Strip(d)) == d
    ensures forall s :: Syntax(g, at, s) ==> Derives(g, at, Lift(g, at, s)) && Strip(Lift(g, at, s)) == s
    ensures forall c, d :: Derives(g, at, c) && Derives(g, at, d) && Strip(c) == Strip(d) ==> c == d
  {
    forall d | Derives(g, at, d) ensures Syntax(g, at, Strip(d)) && Lift(g, at, Strip(d)) == d {
      StripDerives(g, at, d);
    }
    forall s | Syntax(g, at, s) ensures Derives(g, at, Lift(g, at, s)) && Strip(Lift(g, at, s)) == s {
      LiftDerives(g, at, s);
    }
  }
}
