/**
 The rule-conflict verifier: selector overlap, shadowing, and the report. The
 report is related to what the rules do to every possible request context.
 */
module PolicyRules {
  import opened Seqs
  import opened Glob

  datatype Rule = Rule(
    ruleId: string,
    tenantId: string,
    effect: string,
    priority: int,
    actionPatterns: seq<string>,
    jurisdictions: seq<string>,
    requiresAuthorization: Option<bool>,
    requiresRegionAllowed: Option<bool>,
    minRiskScore: Option<real>,
    maxRiskScore: Option<real>,
    enabled: bool)

  /** A request that the rules decide about. */
  datatype Context = Context(
    action: string, jurisdiction: string, hasAuthorization: bool, regionAllowed: bool, riskScore: real)

  // ---------- what a rule means ----------

  predicate Universal(jurisdictions: seq<string>) {
    "global" in jurisdictions || "*" in jurisdictions
  }

  predicate Permits(constraint: Option<bool>, value: bool) {
    constraint.None? || constraint.value == value
  }

  function MinRisk(rule: Rule): real {
    if rule.minRiskScore.None? then 0.0 else rule.minRiskScore.value
  }

  function MaxRisk(rule: Rule): real {
    if rule.maxRiskScore.None? then 1.0 else rule.maxRiskScore.value
  }

  predicate SelectsAction(rule: Rule, action: string) {
    exists p | p in rule.actionPatterns :: Matches(p, action)
  }

  predicate Selects(rule: Rule, ctx: Context) {
    && SelectsAction(rule, ctx.action)
    && (Universal(rule.jurisdictions) || ctx.jurisdiction in rule.jurisdictions)
    && Permits(rule.requiresAuthorization, ctx.hasAuthorization)
    && Permits(rule.requiresRegionAllowed, ctx.regionAllowed)
    && MinRisk(rule) <= ctx.riskScore <= MaxRisk(rule)
  }

  function Selecting(ctx: Context): Rule -> bool {
    (rule: Rule) => Selects(rule, ctx)
  }

  /** The first rule of the list that selects the context. */
  function FirstMatch(rules: seq<Rule>, ctx: Context): Option<Rule> {
    First(Selecting(ctx), rules)
  }

  function Effect(rule: Option<Rule>): Option<string> {
    if rule.None? then None else Some(rule.value.effect)
  }

  /** First match decides; no match leaves the request undecided. */
  function Decision(rules: seq<Rule>, ctx: Context): Option<string> {
    Effect(FirstMatch(rules, ctx))
  }

  /** What `upsert_rule` lets into the service. */
  ghost predicate WellFormed(rule: Rule) {
    && rule.ruleId != "" && rule.tenantId != ""
    && rule.effect in {"allow", "deny"}
    && rule.actionPatterns != [] && "" !in rule.actionPatterns
    && rule.jurisdictions != [] && "" !in rule.jurisdictions
    && 0.0 <= MinRisk(rule) <= MaxRisk(rule) <= 1.0
  }

  /** The fragment the theorems speak about: `fnmatchcase` gives `?` and `[` a meaning of their own. */
  predicate StarOnlyPatterns(rule: Rule) {
    forall p | p in rule.actionPatterns :: StarOnly(p)
  }

  // ---------- the verifier's tests ----------

  const PROBE := "sample"

  predicate PatternsOverlap(left: string, right: string) {
    if left == "" || right == "" then false
    else if left == "*" || right == "*" then true
    else if left == right then true
    else if Matches(right, Fill(left, PROBE)) then true
    else if Matches(left, Fill(right, PROBE)) then true
    else
      var leftPrefix, rightPrefix := LiteralPrefix(left), LiteralPrefix(right);
      leftPrefix != "" && rightPrefix != "" && (rightPrefix <= leftPrefix || leftPrefix <= rightPrefix)
  }

  predicate PatternContains(outer: string, inner: string) {
    if outer == "*" then true
    else if outer == inner then true
    else if '*' !in outer then false
    else Matches(outer, Fill(inner, PROBE))
  }

  predicate PatternSetContains(container: seq<string>, contained: seq<string>) {
    forall p | p in contained :: exists outer | outer in container :: PatternContains(outer, p)
  }

  predicate JurisdictionsOverlap(left: seq<string>, right: seq<string>) {
    var leftSet, rightSet := NonEmptySet(left), NonEmptySet(right);
    if leftSet == {} || rightSet == {} then false
    else if "global" in leftSet || "*" in leftSet then true
    else if "global" in rightSet || "*" in rightSet then true
    else leftSet * rightSet != {}
  }

  predicate JurisdictionSetContains(container: seq<string>, contained: seq<string>) {
    var containerSet, containedSet := NonEmptySet(container), NonEmptySet(contained);
    if containedSet == {} then true
    else if containerSet == {} then false
    else if "global" in containerSet || "*" in containerSet then true
    else containedSet <= containerSet
  }

  function NonEmptySet(items: seq<string>): set<string> {
    set item | item in items && item != ""
  }

  predicate BoolConstraintOverlap(left: Option<bool>, right: Option<bool>) {
    left.None? || right.None? || left.value == right.value
  }

  predicate BoolConstraintContains(container: Option<bool>, contained: Option<bool>) {
    container.None? || (contained.Some? && container.value == contained.value)
  }

  function Max(a: real, b: real): real { if a >= b then a else b }

  function Min(a: real, b: real): real { if a <= b then a else b }

  /** The part of `_selectors_overlap` after the action patterns. */
  predicate OtherSelectorsOverlap(left: Rule, right: Rule) {
    && JurisdictionsOverlap(left.jurisdictions, right.jurisdictions)
    && BoolConstraintOverlap(left.requiresAuthorization, right.requiresAuthorization)
    && BoolConstraintOverlap(left.requiresRegionAllowed, right.requiresRegionAllowed)
    && Max(MinRisk(left), MinRisk(right)) <= Min(MaxRisk(left), MaxRisk(right))
  }

  predicate SelectorsOverlap(left: Rule, right: Rule) {
    && (exists p, q | p in left.actionPatterns && q in right.actionPatterns :: PatternsOverlap(p, q))
    && OtherSelectorsOverlap(left, right)
  }

  predicate IsShadowing(higher: Rule, lower: Rule) {
    && higher.priority >= lower.priority
    && PatternSetContains(higher.actionPatterns, lower.actionPatterns)
    && JurisdictionSetContains(higher.jurisdictions, lower.jurisdictions)
    && BoolConstraintContains(higher.requiresAuthorization, lower.requiresAuthorization)
    && BoolConstraintContains(higher.requiresRegionAllowed, lower.requiresRegionAllowed)
    && MinRisk(higher) <= MinRisk(lower) && MaxRisk(higher) >= MaxRisk(lower)
  }

  // ---------- the overlap shortcut against the languages ----------

  /** Exactly `*`, or starting with a literal character. */
  predicate Anchored(pattern: string) {
    pattern == "*" || (pattern != "" && pattern[0] != '*')
  }

  /**
   What the overlap shortcut answers: two non-empty patterns overlap when one matches
   the other with "sample" for every star, or when both start with literals that can be
   the start of one word. The short ways out change nothing.
   */
  lemma OverlapExplained(left: string, right: string)
    ensures PatternsOverlap(left, right) <==>
            && left != "" && right != ""
            && (|| Matches(right, Fill(left, "sample"))
                || Matches(left, Fill(right, "sample"))
                || (LiteralPrefix(left) != "" && LiteralPrefix(right) != ""
                    && Comparable(LiteralPrefix(left), LiteralPrefix(right))))
  {
    StarMatchesAll();
    FillMatches(left, "sample");
    assert Matches("*", Fill(left, "sample")) && Matches("*", Fill(right, "sample"));
  }

  lemma OverlapSymmetric(left: string, right: string)
    ensures PatternsOverlap(left, right) == PatternsOverlap(right, left)
  {
    OverlapExplained(left, right);
    OverlapExplained(right, left);
  }

  /** With a star-free pattern on one side no real overlap is missed. */
  lemma OverlapNeverMissedForLiterals(left: string, right: string)
    requires left != "" && right != "" && ('*' !in left || '*' !in right)
    ensures Intersects(left, right) ==> PatternsOverlap(left, right)
  {
    OverlapExplained(left, right);
    if word :| Matches(left, word) && Matches(right, word) {
      if '*' !in left {
        LiteralMatchesOnlyItself(left, word);
        FillLiteral(left, "sample");
      } else {
        LiteralMatchesOnlyItself(right, word);
        FillLiteral(right, "sample");
      }
    }
  }

  /** On anchored patterns every earlier answer agrees with the prefix comparison. */
  lemma OverlapComparesPrefixes(left: string, right: string)
    requires Anchored(left) && Anchored(right) && left != "*" && right != "*"
    ensures PatternsOverlap(left, right) <==> Comparable(LiteralPrefix(left), LiteralPrefix(right))
  {
    FillMatches(left, PROBE);
    FillMatches(right, PROBE);
    if Matches(right, Fill(left, PROBE)) {
      SharedWordComparablePrefixes(left, right, Fill(left, PROBE));
    }
    if Matches(left, Fill(right, PROBE)) {
      SharedWordComparablePrefixes(left, right, Fill(right, PROBE));
    }
  }

  /** A real overlap is missed only past the probes and behind a leading star. */
  lemma OverlapMissedOnlyBehindLeadingStar(left: string, right: string)
    requires left != "" && right != ""
    requires Intersects(left, right) && !PatternsOverlap(left, right)
    ensures !Anchored(left) || !Anchored(right)
  {
    if Anchored(left) && Anchored(right) {
      var word :| Matches(left, word) && Matches(right, word);
      SharedWordComparablePrefixes(left, right, word);
      OverlapComparesPrefixes(left, right);
    }
  }

  /** The answer is exact on patterns that start with a literal and end with a star. */
  lemma OverlapExactOnOpenEnded(left: string, right: string)
    requires Anchored(left) && Anchored(right) && EndsOpen(left) && EndsOpen(right)
    ensures PatternsOverlap(left, right) <==> Intersects(left, right)
  {
    MeetDecidesIntersection(left, right);
    if PatternsOverlap(left, right) {
      if left == "*" {
        LeadingStarMeetsOpen(left, right);
      } else if right == "*" {
        StarMeetsAnything(left);
      } else {
        OverlapComparesPrefixes(left, right);
        ComparableOpenMeet(left, right);
      }
    } else if Intersects(left, right) {
      OverlapMissedOnlyBehindLeadingStar(left, right);
    }
  }

  /** A family of missed overlaps: "contains x" against "contains y". */
  lemma OverlapMissed(x: char, y: char)
    requires x != y && x != '*' && y != '*' && x !in PROBE && y !in PROBE
    ensures Intersects(['*', x, '*'], ['*', y, '*'])
    ensures !PatternsOverlap(['*', x, '*'], ['*', y, '*'])
  {
    var left, right := ['*', x, '*'], ['*', y, '*'];
    MeetDecidesIntersection(left, right);
    LeadingStarMeetsOpen(left, right);
    FillContains(x);
    FillContains(y);
    if Matches(right, Fill(left, PROBE)) {
      WordHasLiterals(right, Fill(left, PROBE), y);
    }
    if Matches(left, Fill(right, PROBE)) {
      WordHasLiterals(left, Fill(right, PROBE), x);
    }
  }

  lemma FillContains(x: char)
    requires x != '*'
    ensures Fill(['*', x, '*'], PROBE) == PROBE + [x] + PROBE
  {
    assert ['*', x, '*'][1..] == [x, '*'] && [x, '*'][1..] == ['*'] && ['*'][1..] == [];
    assert Fill(['*'], PROBE) == PROBE + [];
    assert Fill([x, '*'], PROBE) == [x] + Fill(['*'], PROBE);
  }

  /** A family of false alarms: two star-free patterns, one a proper prefix of the other. */
  lemma OverlapFalseAlarm(shorter: string, longer: string)
    requires shorter != "" && shorter < longer && '*' !in longer
    ensures PatternsOverlap(shorter, longer) && !Intersects(shorter, longer)
  {
    assert forall c | c in shorter :: c in longer;
    LiteralPrefixOfLiteral(shorter);
    LiteralPrefixOfLiteral(longer);
    OverlapComparesPrefixes(shorter, longer);
    forall word ensures !(Matches(shorter, word) && Matches(longer, word)) {
      LiteralMatchesOnlyItself(shorter, word);
      LiteralMatchesOnlyItself(longer, word);
    }
  }

  lemma LiteralPrefixOfLiteral(pattern: string)
    requires '*' !in pattern
    ensures LiteralPrefix(pattern) == pattern
  {
  }

  // ---------- the containment probe against the languages ----------

  /**
   What the containment shortcut answers: a star-free pattern contains only itself, any
   other one contains what it matches with "sample" for every star.
   */
  lemma ContainmentExplained(outer: string, inner: string)
    ensures PatternContains(outer, inner) <==>
            if '*' in outer then Matches(outer, Fill(inner, "sample")) else outer == inner
  {
    StarMatchesAll();
    FillMatches(inner, "sample");
    assert Matches("*", Fill(inner, "sample"));
  }

  /** The probe never misses a true inclusion. */
  lemma ContainmentNeverMissed(outer: string, inner: string)
    requires Includes(outer, inner)
    ensures PatternContains(outer, inner)
  {
    FillMatches(inner, PROBE);
    FillMatches(inner, []);
    if '*' !in outer {
      LiteralMatchesOnlyItself(outer, Fill(inner, PROBE));
      LiteralMatchesOnlyItself(outer, Fill(inner, []));
      FillUnchangedOnlyWithoutStar(inner);
    }
  }

  lemma {:induction false} FillUnchangedOnlyWithoutStar(pattern: string)
    ensures |Fill(pattern, PROBE)| >= |Fill(pattern, [])|
    ensures |Fill(pattern, PROBE)| == |Fill(pattern, [])| ==> Fill(pattern, []) == pattern
  {
    if pattern != [] {
      FillUnchangedOnlyWithoutStar(pattern[1..]);
      assert pattern == [pattern[0]] + pattern[1..];
    }
  }

  /**
   When the verdict "contained" is right: exactly when the outer pattern also
   matches the inner pattern read as a word. `letter` is any letter outside `outer`.
   */
  lemma ContainmentRightIffRawMatch(outer: string, inner: string, letter: char)
    requires letter != '*' && letter !in outer
    requires PatternContains(outer, inner)
    ensures Includes(outer, inner) <==> Matches(outer, inner)
  {
    InclusionDecided(outer, inner, letter);
  }

  /** With no letter of "sample" among the outer literals the probe decides inclusion. */
  lemma ContainmentExactWhenFresh(outer: string, inner: string)
    requires Fresh(outer, PROBE)
    ensures PatternContains(outer, inner) <==> Includes(outer, inner)
  {
    if PatternContains(outer, inner) {
      if outer == "*" {
        StarMatchesAll();
      } else if outer != inner {
        Unfill(outer, PROBE, inner);
        forall word | Matches(inner, word) ensures Matches(outer, word) {
          MatchTransitive(outer, inner, word);
        }
      }
    }
    if Includes(outer, inner) {
      ContainmentNeverMissed(outer, inner);
    }
  }

  lemma StarMatchesAll()
    ensures forall word :: Matches("*", word)
  {
    forall word ensures Matches("*", word) {
      StarAbsorbs("*", word, []);
      assert word + [] == word;
    }
  }

  /** Without freshness the probe can be fooled: "sa*" is said to contain "*x". */
  lemma ContainmentCounterexample()
    ensures PatternContains("sa*", "*x") && !Includes("sa*", "*x")
  {
    assert Fill("*x", PROBE) == PROBE + "x" by {
      assert "*x"[1..] == "x" && "x"[1..] == [] && Fill("x", PROBE) == "x" + [];
    }
    assert (PROBE + "x")[1..][1..] == "mplex";
    assert "sa*"[1..][1..] == "*";
    StarMatchesAll();
    assert Matches("sa*", PROBE + "x");
    InclusionDecided("sa*", "*x", 'q');
  }
}
