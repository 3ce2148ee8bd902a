/**
 The verifier service: pairwise conflict detection over a tenant's rules in
 precedence order, and what its report guarantees about every request context.
 */
module PolicyVerification {
  import opened Seqs
  import opened Dicts
  import opened Glob
  import opened PolicyRules

  datatype ConflictType = PriorityConflict | PrecedenceConflict | ShadowedRule

  datatype Severity = NoSeverity | Low | Medium | High

  datatype Conflict = Conflict(conflictType: ConflictType, severity: Severity, ruleIds: seq<string>)

  function DetectConflict(left: Rule, right: Rule): Option<Conflict> {
    if !SelectorsOverlap(left, right) then None
    else if left.effect != right.effect then
      if left.priority == right.priority then
        Some(Conflict(PriorityConflict, High, [left.ruleId, right.ruleId]))
      else
        Some(Conflict(PrecedenceConflict, Medium, [left.ruleId, right.ruleId]))
    else
      var (higher, lower) := if left.priority >= right.priority then (left, right) else (right, left);
      if IsShadowing(higher, lower) then
        Some(Conflict(ShadowedRule, Low, [higher.ruleId, lower.ruleId]))
      else None
  }

  /** The conflicts of all pairs, in the order of the nested loops. */
  function PairConflicts(rules: seq<Rule>): seq<Conflict> {
    PairResults(DetectConflict, rules, |rules|)
  }

  /** No priority or precedence conflict. */
  predicate NoOpposition(conflicts: seq<Conflict>) {
    forall c | c in conflicts :: c.conflictType == ShadowedRule
  }

  lemma NoOppositionMeaning(rules: seq<Rule>)
    ensures NoOpposition(PairConflicts(rules)) <==>
            forall k, l | 0 <= k < l < |rules| && SelectorsOverlap(rules[k], rules[l]) ::
              rules[k].effect == rules[l].effect
  {
    var conflicts := PairConflicts(rules);
    if NoOpposition(conflicts) {
      forall k, l | 0 <= k < l < |rules| && SelectorsOverlap(rules[k], rules[l])
        ensures rules[k].effect == rules[l].effect
      {
        var conflict := DetectConflict(rules[k], rules[l]);
        if conflict.Some? {
          PairResultsMember(DetectConflict, rules, |rules|, conflict.value);
        }
      }
    } else {
      var c :| c in conflicts && c.conflictType != ShadowedRule;
      PairResultsMember(DetectConflict, rules, |rules|, c);
    }
  }

  /** What makes the report list a conflict between a rule and a later one. */
  predicate Causes(first: Rule, second: Rule, c: Conflict) {
    SelectorsOverlap(first, second) &&
    if first.effect != second.effect then
      && c.ruleIds == [first.ruleId, second.ruleId]
      && (c.conflictType == PriorityConflict <==> first.priority == second.priority)
      && (c.conflictType == PrecedenceConflict <==> first.priority != second.priority)
      && c.severity == (if first.priority == second.priority then High else Medium)
    else
      && c.conflictType == ShadowedRule && c.severity == Low
      && (|| (IsShadowing(first, second) && c.ruleIds == [first.ruleId, second.ruleId])
          || (first.priority < second.priority && IsShadowing(second, first)
              && c.ruleIds == [second.ruleId, first.ruleId]))
  }

  /** The conflicts are exactly those that some pair of rules causes. */
  lemma ConflictsExact(rules: seq<Rule>, c: Conflict)
    ensures c in PairConflicts(rules) <==> exists k, l | 0 <= k < l < |rules| :: Causes(rules[k], rules[l], c)
  {
    hide SelectorsOverlap;
    PairResultsMember(DetectConflict, rules, |rules|, c);
    forall k, l | 0 <= k < l < |rules|
      ensures DetectConflict(rules[k], rules[l]) == Some(c) <==> Causes(rules[k], rules[l], c)
    {
      DetectedIsCaused(rules[k], rules[l], c);
    }
  }

  lemma DetectedIsCaused(left: Rule, right: Rule, c: Conflict)
    ensures DetectConflict(left, right) == Some(c) <==> Causes(left, right, c)
  {
    hide SelectorsOverlap, PatternSetContains, JurisdictionSetContains, BoolConstraintContains;
    assert left.priority < right.priority ==> !IsShadowing(left, right);
  }

  /** Overlap does not depend on the order of the two rules. */
  lemma SelectorsOverlapSymmetric(left: Rule, right: Rule)
    ensures SelectorsOverlap(left, right) == SelectorsOverlap(right, left)
  {
    forall p, q ensures PatternsOverlap(p, q) == PatternsOverlap(q, p) {
      OverlapSymmetric(p, q);
    }
    hide PatternsOverlap;
    assert NonEmptySet(left.jurisdictions) * NonEmptySet(right.jurisdictions)
           == NonEmptySet(right.jurisdictions) * NonEmptySet(left.jurisdictions);
  }

  // ---------- when two rules can both select a request ----------

  /** The decision procedure that the pattern shortcut approximates. */
  predicate TrulyOverlap(left: Rule, right: Rule) {
    && OtherSelectorsOverlap(left, right)
    && exists p, q | p in left.actionPatterns && q in right.actionPatterns :: Meet(p, q)
  }

  lemma TrulyOverlapSound(left: Rule, right: Rule) returns (ctx: Context)
    requires WellFormed(left) && WellFormed(right)
    requires TrulyOverlap(left, right)
    ensures Selects(left, ctx) && Selects(right, ctx)
  {
    var p, q :| p in left.actionPatterns && q in right.actionPatterns && Meet(p, q);
    var action := MeetSound(p, q);
    SharedJurisdiction(left.jurisdictions, right.jurisdictions);
    var jurisdiction :|
      && (Universal(left.jurisdictions) || jurisdiction in left.jurisdictions)
      && (Universal(right.jurisdictions) || jurisdiction in right.jurisdictions);
    ctx := Context(action, jurisdiction,
      SharedBool(left.requiresAuthorization, right.requiresAuthorization),
      SharedBool(left.requiresRegionAllowed, right.requiresRegionAllowed),
      Max(MinRisk(left), MinRisk(right)));
  }

  lemma SharedJurisdiction(left: seq<string>, right: seq<string>)
    requires left != [] && "" !in left && right != [] && "" !in right
    ensures JurisdictionsOverlap(left, right) <==>
            exists j :: (Universal(left) || j in left) && (Universal(right) || j in right)
  {
    assert left[0] in NonEmptySet(left) && right[0] in NonEmptySet(right);
    if JurisdictionsOverlap(left, right) {
      if Universal(left) {
        assert right[0] in right;
      } else if Universal(right) {
        assert left[0] in left;
      } else {
        var j :| j in NonEmptySet(left) * NonEmptySet(right);
      }
    } else {
      forall j ensures !((Universal(left) || j in left) && (Universal(right) || j in right)) {
        assert j !in NonEmptySet(left) * NonEmptySet(right);
      }
    }
  }

  function SharedBool(left: Option<bool>, right: Option<bool>): bool {
    if left.Some? then left.value else if right.Some? then right.value else true
  }

  /** `TrulyOverlap` decides whether some request is selected by both rules. */
  lemma TrulyOverlapDecides(left: Rule, right: Rule)
    requires WellFormed(left) && WellFormed(right)
    ensures TrulyOverlap(left, right) <==> exists ctx :: Selects(left, ctx) && Selects(right, ctx)
  {
    if TrulyOverlap(left, right) {
      var ctx := TrulyOverlapSound(left, right);
    }
    if ctx: Context :| Selects(left, ctx) && Selects(right, ctx) {
      SharedJurisdiction(left.jurisdictions, right.jurisdictions);
      var p :| p in left.actionPatterns && Matches(p, ctx.action);
      var q :| q in right.actionPatterns && Matches(q, ctx.action);
      MeetComplete(p, q, ctx.action);
    }
  }

  /** The other selectors overlap exactly when they admit one jurisdiction, pair of flags and risk score together. */
  lemma OtherSelectorsDecided(left: Rule, right: Rule)
    requires WellFormed(left) && WellFormed(right)
    ensures OtherSelectorsOverlap(left, right) <==> exists ctx :: Admits(left, ctx) && Admits(right, ctx)
  {
    SharedJurisdiction(left.jurisdictions, right.jurisdictions);
    if OtherSelectorsOverlap(left, right) {
      var jurisdiction :|
        && (Universal(left.jurisdictions) || jurisdiction in left.jurisdictions)
        && (Universal(right.jurisdictions) || jurisdiction in right.jurisdictions);
      var ctx := Context("", jurisdiction,
        SharedBool(left.requiresAuthorization, right.requiresAuthorization),
        SharedBool(left.requiresRegionAllowed, right.requiresRegionAllowed),
        Max(MinRisk(left), MinRisk(right)));
      assert Admits(left, ctx) && Admits(right, ctx);
    }
  }

  /** A request that a rule selects but for its action. */
  predicate Admits(rule: Rule, ctx: Context) {
    && ("global" in rule.jurisdictions || "*" in rule.jurisdictions || ctx.jurisdiction in rule.jurisdictions)
    && (rule.requiresAuthorization.None? || rule.requiresAuthorization == Some(ctx.hasAuthorization))
    && (rule.requiresRegionAllowed.None? || rule.requiresRegionAllowed == Some(ctx.regionAllowed))
    && (rule.minRiskScore.None? || rule.minRiskScore.value <= ctx.riskScore)
    && (rule.maxRiskScore.None? || ctx.riskScore <= rule.maxRiskScore.value)
    && 0.0 <= ctx.riskScore <= 1.0
  }

  // ---------- what a clean report guarantees ----------

  /** Whatever rules select a request, they agree on the effect. */
  ghost predicate OrderIrrelevant(rules: seq<Rule>) {
    forall ctx :: AgreeOn(rules, ctx)
  }

  ghost predicate AgreeOn(rules: seq<Rule>, ctx: Context) {
    forall a, b | a in rules && b in rules && Selects(a, ctx) && Selects(b, ctx) :: a.effect == b.effect
  }

  /** The guard of the failing branch: an overlap only visible behind a leading star. */
  predicate HiddenOpposition(left: Rule, right: Rule) {
    && left.effect != right.effect
    && OtherSelectorsOverlap(left, right)
    && exists p, q | p in left.actionPatterns && q in right.actionPatterns ::
         (!Anchored(p) || !Anchored(q)) && Meet(p, q)
  }

  ghost predicate NoHiddenOpposition(rules: seq<Rule>) {
    forall k, l | 0 <= k < l < |rules| :: !HiddenOpposition(rules[k], rules[l])
  }

  /**
   The exact guarantee of a clean report: the order of the rules is irrelevant if
   and only if no two opposing rules overlap through a pattern with a leading star.
   */
  lemma CleanReportExact(rules: seq<Rule>)
    requires forall rule | rule in rules :: WellFormed(rule) && StarOnlyPatterns(rule)
    requires NoOpposition(PairConflicts(rules))
    ensures OrderIrrelevant(rules) <==> NoHiddenOpposition(rules)
  {
    if NoHiddenOpposition(rules) {
      forall ctx ensures AgreeOn(rules, ctx) {
        CleanRulesAgree(rules, ctx);
      }
    } else {
      var k, l :| 0 <= k < l < |rules| && HiddenOpposition(rules[k], rules[l]);
      HiddenOppositionMatters(rules, k, l);
    }
  }

  lemma HiddenOppositionMatters(rules: seq<Rule>, k: nat, l: nat)
    requires k < l < |rules| && WellFormed(rules[k]) && WellFormed(rules[l])
    requires HiddenOpposition(rules[k], rules[l])
    ensures !OrderIrrelevant(rules)
  {
    var ctx := TrulyOverlapSound(rules[k], rules[l]);
    assert !AgreeOn(rules, ctx);
  }

  lemma CleanRulesAgree(rules: seq<Rule>, ctx: Context)
    requires forall rule | rule in rules :: WellFormed(rule) && StarOnlyPatterns(rule)
    requires NoOpposition(PairConflicts(rules)) && NoHiddenOpposition(rules)
    ensures AgreeOn(rules, ctx)
  {
    NoOppositionMeaning(rules);
    forall i, j | 0 <= i < j < |rules| && Selects(rules[i], ctx) && Selects(rules[j], ctx)
      ensures rules[i].effect == rules[j].effect
    {
      if rules[i].effect != rules[j].effect {
        UnreportedOppositionHidden(rules[i], rules[j], ctx);
      }
    }
  }

  lemma UnreportedOppositionHidden(left: Rule, right: Rule, ctx: Context)
    requires WellFormed(left) && WellFormed(right) && left.effect != right.effect
    requires !SelectorsOverlap(left, right)
    requires Selects(left, ctx) && Selects(right, ctx)
    ensures HiddenOpposition(left, right)
  {
    TrulyOverlapDecides(left, right);
    var p, q :| p in left.actionPatterns && q in right.actionPatterns && Meet(p, q);
    MeetDecidesIntersection(p, q);
    OverlapMissedOnlyBehindLeadingStar(p, q);
  }

  predicate AnchoredPatterns(rule: Rule) {
    forall p | p in rule.actionPatterns :: Anchored(p)
  }

  /** A clean report over anchored patterns makes the order of the rules irrelevant. */
  lemma CleanReportOrderIrrelevant(rules: seq<Rule>)
    requires forall rule | rule in rules :: WellFormed(rule) && StarOnlyPatterns(rule)
    requires forall rule | rule in rules :: AnchoredPatterns(rule)
    requires NoOpposition(PairConflicts(rules))
    ensures OrderIrrelevant(rules)
  {
    CleanReportExact(rules);
  }

  predicate OpenEndedPatterns(rule: Rule) {
    forall p | p in rule.actionPatterns :: Anchored(p) && EndsOpen(p)
  }

  /** Where every pattern starts with a literal (or is `*`) and ends with a star, an unclean report is real too. */
  lemma CleanReportDecides(rules: seq<Rule>)
    requires forall rule | rule in rules :: WellFormed(rule) && StarOnlyPatterns(rule) && OpenEndedPatterns(rule)
    ensures NoOpposition(PairConflicts(rules)) <==> OrderIrrelevant(rules)
  {
    hide WellFormed, StarOnlyPatterns, Selects, PairConflicts;
    if NoOpposition(PairConflicts(rules)) {
      CleanReportOrderIrrelevant(rules);
    }
    if OrderIrrelevant(rules) {
      NoOppositionMeaning(rules);
      forall k, l | 0 <= k < l < |rules| && SelectorsOverlap(rules[k], rules[l])
        ensures rules[k].effect == rules[l].effect
      {
        var ctx := OverlapWitness(rules[k], rules[l]);
        assert AgreeOn(rules, ctx);
      }
    }
  }

  /** On open-ended patterns a reported overlap is the overlap of a request. */
  lemma OverlapWitness(left: Rule, right: Rule) returns (ctx: Context)
    requires WellFormed(left) && WellFormed(right) && OpenEndedPatterns(left) && OpenEndedPatterns(right)
    requires SelectorsOverlap(left, right)
    ensures Selects(left, ctx) && Selects(right, ctx)
  {
    var p, q :| p in left.actionPatterns && q in right.actionPatterns && PatternsOverlap(p, q);
    OverlapExactOnOpenEnded(p, q);
    MeetDecidesIntersection(p, q);
    ctx := TrulyOverlapSound(left, right);
  }

  /** The rules without their order and their priorities. */
  function Contents(rules: seq<Rule>): set<Rule> {
    set rule | rule in rules :: rule.(priority := 0)
  }

  lemma CopySelects(rule: Rule, rules: seq<Rule>, others: seq<Rule>, ctx: Context) returns (copy: Rule)
    requires rule in rules && Contents(rules) == Contents(others)
    ensures copy in others && copy.effect == rule.effect
    ensures Selecting(ctx)(copy) == Selecting(ctx)(rule)
  {
    assert rule.(priority := 0) in Contents(others);
    copy :| copy in others && rule.(priority := 0) == copy.(priority := 0);
    assert copy == rule.(priority := copy.priority);
  }

  /** Where the order is irrelevant, no reordering or re-prioritising changes a decision. */
  lemma ReprioritisingKeepsDecisions(rules: seq<Rule>, others: seq<Rule>, ctx: Context)
    requires AgreeOn(rules, ctx) && Contents(rules) == Contents(others)
    ensures Decision(others, ctx) == Decision(rules, ctx)
  {
    var first, other := FirstMatch(rules, ctx), FirstMatch(others, ctx);
    if first.Some? {
      var copy := CopySelects(first.value, rules, others, ctx);
      assert other.Some?;
      var origin := CopySelects(other.value, others, rules, ctx);
      assert Selects(origin, ctx) && Selects(first.value, ctx);
    } else if other.Some? {
      var origin := CopySelects(other.value, others, rules, ctx);
      assert false;
    }
  }

  // ---------- shadowed rules are dead ----------

  /** The letter occurs in no pattern of the rule. */
  predicate Outside(letter: char, rule: Rule) {
    letter != '*' && forall p | p in rule.actionPatterns :: letter !in p
  }

  /** Every pattern of the lower rule, read as a word, is matched by a pattern of the higher one. */
  predicate CoversRaw(higher: Rule, lower: Rule) {
    forall p | p in lower.actionPatterns :: exists outer | outer in higher.actionPatterns :: Matches(outer, p)
  }

  ghost predicate Covers(higher: Rule, lower: Rule) {
    forall ctx | Selects(lower, ctx) :: Selects(higher, ctx)
  }

  lemma ShadowingCovers(higher: Rule, lower: Rule, ctx: Context)
    requires WellFormed(higher) && WellFormed(lower)
    requires CoversRaw(higher, lower) && IsShadowing(higher, lower)
    requires Selects(lower, ctx)
    ensures Selects(higher, ctx)
  {
    var p :| p in lower.actionPatterns && Matches(p, ctx.action);
    var outer :| outer in higher.actionPatterns && Matches(outer, p);
    MatchTransitive(outer, p, ctx.action);
    assert lower.jurisdictions[0] in NonEmptySet(lower.jurisdictions);
    assert ctx.jurisdiction in lower.jurisdictions ==> ctx.jurisdiction in NonEmptySet(lower.jurisdictions);
    assert Universal(higher.jurisdictions) || NonEmptySet(lower.jurisdictions) <= NonEmptySet(higher.jurisdictions);
    if Universal(lower.jurisdictions) {
      assert "global" in NonEmptySet(lower.jurisdictions) || "*" in NonEmptySet(lower.jurisdictions);
    }
  }

  /** A request that a well-formed rule selects through this pattern, with a word of our choice for its stars. */
  function ProbeOf(rule: Rule, pattern: string, letter: char): Context
    requires WellFormed(rule)
  {
    Context(Fill(pattern, [letter]), rule.jurisdictions[0],
            SharedBool(rule.requiresAuthorization, None), SharedBool(rule.requiresRegionAllowed, None), MinRisk(rule))
  }

  lemma ProbeSelected(rule: Rule, pattern: string, letter: char)
    requires WellFormed(rule) && pattern in rule.actionPatterns
    ensures Selects(rule, ProbeOf(rule, pattern, letter))
  {
    FillMatches(pattern, [letter]);
    assert rule.jurisdictions[0] in rule.jurisdictions;
  }

  /**
   When a shadowing verdict is right: every request of the lower rule is one of the
   higher rule if and only if the higher patterns match the lower ones read as words.
   */
  lemma ShadowingCoversExact(higher: Rule, lower: Rule, letter: char)
    requires WellFormed(higher) && WellFormed(lower) && Outside(letter, higher)
    requires IsShadowing(higher, lower)
    ensures Covers(higher, lower) <==> CoversRaw(higher, lower)
  {
    hide WellFormed, IsShadowing;
    if CoversRaw(higher, lower) {
      forall ctx | Selects(lower, ctx) ensures Selects(higher, ctx) {
        ShadowingCovers(higher, lower, ctx);
      }
    }
    if Covers(higher, lower) {
      forall p | p in lower.actionPatterns ensures exists outer | outer in higher.actionPatterns :: Matches(outer, p) {
        ProbeSelected(lower, p, letter);
        var outer :| outer in higher.actionPatterns && Matches(outer, Fill(p, [letter]));
        Unfill(outer, [letter], p);
      }
    }
  }

  /** No shadowing is missed: a rule of no lower priority that covers another is found to shadow it. */
  lemma ShadowingNeverMissed(higher: Rule, lower: Rule, letter: char)
    requires WellFormed(higher) && WellFormed(lower) && Outside(letter, higher)
    requires higher.priority >= lower.priority && Covers(higher, lower)
    ensures IsShadowing(higher, lower)
  {
    forall p | p in lower.actionPatterns ensures exists outer | outer in higher.actionPatterns :: PatternContains(outer, p) {
      ProbeSelected(lower, p, letter);
      var outer :| outer in higher.actionPatterns && Matches(outer, Fill(p, [letter]));
      Unfill(outer, [letter], p);
      forall word | Matches(p, word) ensures Matches(outer, word) {
        MatchTransitive(outer, p, word);
      }
      ContainmentNeverMissed(outer, p);
    }
    OtherSelectorsCovered(higher, lower, letter);
  }

  lemma OtherSelectorsCovered(higher: Rule, lower: Rule, letter: char)
    requires WellFormed(higher) && WellFormed(lower) && Covers(higher, lower)
    ensures JurisdictionSetContains(higher.jurisdictions, lower.jurisdictions)
    ensures BoolConstraintContains(higher.requiresAuthorization, lower.requiresAuthorization)
    ensures BoolConstraintContains(higher.requiresRegionAllowed, lower.requiresRegionAllowed)
    ensures MinRisk(higher) <= MinRisk(lower) && MaxRisk(higher) >= MaxRisk(lower)
  {
    var probe := ProbeOf(lower, lower.actionPatterns[0], letter);
    ProbeSelected(lower, lower.actionPatterns[0], letter);
    var elsewhere := NewName(higher.jurisdictions);
    hide Matches, WellFormed, NonEmptySet;
    assert Selects(lower, probe.(riskScore := MaxRisk(lower)));
    if lower.requiresAuthorization.None? {
      assert Selects(lower, probe.(hasAuthorization := false));
    }
    if lower.requiresRegionAllowed.None? {
      assert Selects(lower, probe.(regionAllowed := false));
    }
    forall j | Universal(lower.jurisdictions) || j in lower.jurisdictions
      ensures Universal(higher.jurisdictions) || j in higher.jurisdictions
    {
      assert Selects(lower, probe.(jurisdiction := j));
    }
    JurisdictionsCovered(higher.jurisdictions, lower.jurisdictions, elsewhere);
  }

  lemma JurisdictionsCovered(container: seq<string>, contained: seq<string>, elsewhere: string)
    requires container != [] && "" !in container && "" !in contained && elsewhere !in container
    requires forall j | Universal(contained) || j in contained :: Universal(container) || j in container
    ensures JurisdictionSetContains(container, contained)
  {
    assert container[0] in NonEmptySet(container);
    if Universal(contained) {
      assert Universal(container) || elsewhere in container;
    }
  }

  /** A name longer than all of these. */
  lemma {:induction false} NewName(names: seq<string>) returns (name: string)
    ensures name !in names && forall n | n in names :: |n| < |name|
  {
    if names == [] {
      name := "";
    } else {
      var front, last := names[..|names| - 1], names[|names| - 1];
      assert names == front + [last];
      var other := NewName(front);
      name := other + last + "x";
    }
  }

  predicate FreshPatterns(rule: Rule) {
    forall p | p in rule.actionPatterns :: Fresh(p, PROBE)
  }

  /** With no letter of "sample" among the higher rule's literals every shadowing verdict is right. */
  lemma FreshShadowingCovers(higher: Rule, lower: Rule)
    requires FreshPatterns(higher) && IsShadowing(higher, lower)
    ensures CoversRaw(higher, lower)
  {
    forall p | p in lower.actionPatterns ensures exists outer | outer in higher.actionPatterns :: Matches(outer, p) {
      var outer :| outer in higher.actionPatterns && PatternContains(outer, p);
      StarMatchesAll();
      MatchesItself(p);
      if outer != "*" && outer != p {
        Unfill(outer, PROBE, p);
      }
    }
  }

  predicate InPrecedenceOrder(rules: seq<Rule>) {
    forall i, j | 0 <= i < j < |rules| :: rules[i].priority >= rules[j].priority
  }

  predicate DistinctIds(rules: seq<Rule>) {
    forall i, j | 0 <= i < j < |rules| :: rules[i].ruleId != rules[j].ruleId
  }

  /** The report names the rule as the lower one of a shadowing pair. */
  predicate ReportedShadowed(conflicts: seq<Conflict>, ruleId: string) {
    exists c | c in conflicts :: c.conflictType == ShadowedRule && |c.ruleIds| == 2 && c.ruleIds[1] == ruleId
  }

  function Kept(conflicts: seq<Conflict>): Rule -> bool {
    (rule: Rule) => !ReportedShadowed(conflicts, rule.ruleId)
  }

  /** Every shadowing that the report names is a raw match of the patterns. */
  predicate RightlyShadowed(rules: seq<Rule>) {
    forall k, l | 0 <= k < l < |rules| && SelectorsOverlap(rules[k], rules[l])
                  && rules[k].effect == rules[l].effect && IsShadowing(rules[k], rules[l]) ::
      CoversRaw(rules[k], rules[l])
  }

  /** In particular where all patterns are free of the letters of "sample". */
  lemma FreshRightlyShadowed(rules: seq<Rule>)
    requires forall rule | rule in rules :: FreshPatterns(rule)
    ensures RightlyShadowed(rules)
  {
    forall k, l | 0 <= k < l < |rules| && IsShadowing(rules[k], rules[l]) ensures CoversRaw(rules[k], rules[l]) {
      FreshShadowingCovers(rules[k], rules[l]);
    }
  }

  /** A rule reported as shadowed is never the first match. */
  lemma ShadowedNeverFirst(rules: seq<Rule>, ctx: Context)
    requires InPrecedenceOrder(rules) && DistinctIds(rules) && RightlyShadowed(rules)
    requires forall rule | rule in rules :: WellFormed(rule) && StarOnlyPatterns(rule)
    requires FirstMatch(rules, ctx).Some?
    ensures !ReportedShadowed(PairConflicts(rules), FirstMatch(rules, ctx).value.ruleId)
  {
    var f := FirstIsFirst(Selecting(ctx), rules);
    hide WellFormed, StarOnlyPatterns, DetectConflict, Selects, CoversRaw, SelectorsOverlap, IsShadowing;
    forall c | c in PairConflicts(rules) && c.conflictType == ShadowedRule && |c.ruleIds| == 2
      ensures c.ruleIds[1] != rules[f].ruleId
    {
      var k, l := ConflictPair(rules, c);
      ShadowedPair(rules[k], rules[l], c);
      if Selects(rules[l], ctx) {
        ShadowingCovers(rules[k], rules[l], ctx);
      }
    }
  }

  lemma ConflictPair(rules: seq<Rule>, c: Conflict) returns (k: nat, l: nat)
    requires c in PairConflicts(rules)
    ensures k < l < |rules| && DetectConflict(rules[k], rules[l]) == Some(c)
  {
    hide DetectConflict;
    PairResultsMember(DetectConflict, rules, |rules|, c);
    k, l :| 0 <= k < l < |rules| && DetectConflict(rules[k], rules[l]) == Some(c);
  }

  lemma ShadowedPair(left: Rule, right: Rule, c: Conflict)
    requires left.priority >= right.priority
    requires DetectConflict(left, right) == Some(c) && c.conflictType == ShadowedRule
    ensures c.ruleIds == [left.ruleId, right.ruleId]
    ensures SelectorsOverlap(left, right) && left.effect == right.effect && IsShadowing(left, right)
  {
  }

  /** Deleting every rule reported as shadowed leaves all first-match decisions unchanged. */
  lemma ShadowedRulesAreDead(rules: seq<Rule>, ctx: Context)
    requires InPrecedenceOrder(rules) && DistinctIds(rules) && RightlyShadowed(rules)
    requires forall rule | rule in rules :: WellFormed(rule) && StarOnlyPatterns(rule)
    ensures FirstMatch(Filter(Kept(PairConflicts(rules)), rules), ctx) == FirstMatch(rules, ctx)
  {
    if FirstMatch(rules, ctx).Some? {
      ShadowedNeverFirst(rules, ctx);
    }
    FirstAfterFilter(Selecting(ctx), Kept(PairConflicts(rules)), rules);
  }

  /** Deleting the reported rules changes nothing for this request. */
  predicate DeadFor(rules: seq<Rule>, ctx: Context) {
    FirstMatch(Filter(Kept(PairConflicts(rules)), rules), ctx) == FirstMatch(rules, ctx)
  }

  /** Deletion matters for a request exactly when its first match is a reported rule. */
  lemma DeadForExact(rules: seq<Rule>, ctx: Context)
    ensures DeadFor(rules, ctx) <==>
            FirstMatch(rules, ctx).None? || Kept(PairConflicts(rules))(FirstMatch(rules, ctx).value)
  {
    hide PairConflicts, Kept;
    var kept := Kept(PairConflicts(rules));
    if FirstMatch(rules, ctx).None? || kept(FirstMatch(rules, ctx).value) {
      FirstAfterFilter(Selecting(ctx), kept, rules);
    }
  }

  /** A request whose action is a reported rule's pattern with a fresh letter for every star. */
  predicate IsProbe(rules: seq<Rule>, letter: char, ctx: Context) {
    exists rule, p | rule in rules && p in rule.actionPatterns ::
      ReportedShadowed(PairConflicts(rules), rule.ruleId) && ctx.action == Fill(p, [letter])
  }

  /**
   The exact condition for any rule list: the reported rules can be deleted if and only
   if they can be for the finitely many actions that put a fresh letter for every star
   of a reported pattern.
   */
  lemma ShadowedRulesDeadExact(rules: seq<Rule>, letter: char)
    requires forall rule | rule in rules :: Outside(letter, rule) && StarOnlyPatterns(rule)
    ensures (forall ctx :: DeadFor(rules, ctx)) <==> (forall ctx | IsProbe(rules, letter, ctx) :: DeadFor(rules, ctx))
  {
    hide DeadFor, IsProbe, FirstMatch;
    if ctx: Context :| !DeadFor(rules, ctx) {
      var probe := ProbeFor(rules, letter, ctx);
    }
  }

  /** A request that a reported rule decides can be replaced by a probe that it decides. */
  lemma ProbeFor(rules: seq<Rule>, letter: char, ctx: Context) returns (probe: Context)
    requires forall rule | rule in rules :: Outside(letter, rule)
    requires !DeadFor(rules, ctx)
    ensures IsProbe(rules, letter, probe) && !DeadFor(rules, probe)
  {
    hide PairConflicts, DeadFor;
    DeadForExact(rules, ctx);
    var f := FirstIsFirst(Selecting(ctx), rules);
    var p :| p in rules[f].actionPatterns && Matches(p, ctx.action);
    probe := ctx.(action := Fill(p, [letter]));
    FillMatches(p, [letter]);
    forall i | 0 <= i < f ensures !Selects(rules[i], probe) {
      if Selects(rules[i], probe) {
        ProbeSelectsMore(rules[i], letter, p, ctx);
      }
    }
    FirstAt(Selecting(probe), rules, f);
    DeadForExact(rules, probe);
  }

  /** Whatever rule selects the probe selects the request it stands for. */
  lemma ProbeSelectsMore(rule: Rule, letter: char, p: string, ctx: Context)
    requires Outside(letter, rule) && Matches(p, ctx.action)
    requires Selects(rule, ctx.(action := Fill(p, [letter])))
    ensures Selects(rule, ctx)
  {
    var outer :| outer in rule.actionPatterns && Matches(outer, Fill(p, [letter]));
    Unfill(outer, [letter], p);
    MatchTransitive(outer, p, ctx.action);
  }

  function PlainRule(ruleId: string, priority: int, pattern: string): Rule {
    Rule(ruleId, "tenant", "allow", priority, [pattern], ["global"], None, None, None, None, true)
  }

  /** Two well-formed rules in precedence order for which the report is wrong. */
  function MisjudgedRules(): seq<Rule> {
    [PlainRule("a", 2, "sa*"), PlainRule("b", 1, "*x")]
  }

  lemma MisjudgedRulesValid()
    ensures InPrecedenceOrder(MisjudgedRules()) && DistinctIds(MisjudgedRules())
    ensures forall rule | rule in MisjudgedRules() :: WellFormed(rule) && StarOnlyPatterns(rule)
  {
  }

  /** The second one is reported as shadowed, and deleting it changes what happens to the action "x". */
  lemma ShadowedRuleAlive(ctx: Context)
    requires ctx.action == "x" && 0.0 <= ctx.riskScore <= 1.0
    ensures InPrecedenceOrder(MisjudgedRules()) && DistinctIds(MisjudgedRules())
    ensures forall rule | rule in MisjudgedRules() :: WellFormed(rule) && StarOnlyPatterns(rule)
    ensures ReportedShadowed(PairConflicts(MisjudgedRules()), "b")
    ensures FirstMatch(MisjudgedRules(), ctx) == Some(MisjudgedRules()[1])
    ensures FirstMatch(Filter(Kept(PairConflicts(MisjudgedRules())), MisjudgedRules()), ctx) == None
  {
    hide PairConflicts, Selects, ReportedShadowed, InPrecedenceOrder, DistinctIds, WellFormed, StarOnlyPatterns, First, Filter;
    var rules := MisjudgedRules();
    MisjudgedRulesValid();
    PlainReported();
    PlainSelects(ctx);
    FirstAt(Selecting(ctx), rules, 1);
    LastDeleted(Selecting(ctx), Kept(PairConflicts(rules)), rules);
  }

  /** Nothing matches in two elements of which the first does not match and the second is dropped. */
  lemma LastDeleted(p: Rule -> bool, keep: Rule -> bool, rules: seq<Rule>)
    requires |rules| == 2 && !p(rules[0]) && !keep(rules[1])
    ensures First(p, Filter(keep, rules)) == None
  {
    hide First, Filter;
    assert forall r | r in Filter(keep, rules) :: r in rules && r != rules[1] && !p(r);
  }

  lemma PlainReported()
    ensures ReportedShadowed(PairConflicts(MisjudgedRules()), "b")
  {
    hide DetectConflict, PairResults;
    var rules := MisjudgedRules();
    PlainShadowing();
    var conflict := Conflict(ShadowedRule, Low, ["a", "b"]);
    PairResultsMember(DetectConflict, rules, 2, conflict);
    assert DetectConflict(rules[0], rules[1]) == Some(conflict);
    assert conflict in PairConflicts(rules) && conflict.ruleIds[1] == "b";
  }

  lemma PlainSelects(ctx: Context)
    requires ctx.action == "x" && 0.0 <= ctx.riskScore <= 1.0
    ensures !Selects(PlainRule("a", 2, "sa*"), ctx) && Selects(PlainRule("b", 1, "*x"), ctx)
  {
    assert Matches("*x", "x") by {
      assert "*x"[1..] == "x";
      LiteralMatchesOnlyItself("x", "x");
    }
    assert "*x" in PlainRule("b", 1, "*x").actionPatterns;
    assert "global" in PlainRule("b", 1, "*x").jurisdictions;
  }

  lemma PlainShadowing()
    ensures DetectConflict(PlainRule("a", 2, "sa*"), PlainRule("b", 1, "*x"))
            == Some(Conflict(ShadowedRule, Low, ["a", "b"]))
  {
    ContainmentCounterexample();
    var a, b := PlainRule("a", 2, "sa*"), PlainRule("b", 1, "*x");
    assert "sa*" in a.actionPatterns && "*x" in b.actionPatterns;
    assert "global" in NonEmptySet(a.jurisdictions) && "global" in NonEmptySet(b.jurisdictions);
    assert PatternsOverlap("sa*", "*x");
  }

  // ---------- the rule store ----------

  predicate ByPrecedence(a: Rule, b: Rule) {
    a.priority > b.priority || (a.priority == b.priority && StringLe(a.ruleId, b.ruleId))
  }

  lemma PrecedenceTotalPreorder()
    ensures TotalPreorder(ByPrecedence)
  {
    StringLeTotalPreorder();
  }

  function RuleId(rule: Rule): string {
    rule.ruleId
  }

  /** The invariant of the rule dictionary. */
  ghost predicate ValidRules(rules: Dict<string, Rule>) {
    && Valid(rules) && Keyed(rules, RuleId)
    && forall id | id in rules.entries :: WellFormed(rules.entries[id])
  }

  lemma ValidRulesAfterPut(rules: Dict<string, Rule>, rule: Rule)
    requires ValidRules(rules) && WellFormed(rule)
    ensures ValidRules(Put(rules, rule.ruleId, rule))
  {
  }

  function Listed(tenantId: Option<string>, includeDisabled: bool): Rule -> bool {
    (rule: Rule) =>
      && (tenantId == None || tenantId == Some("") || rule.tenantId == tenantId.value)
      && (includeDisabled || rule.enabled)
  }

  function ListRules(rules: Dict<string, Rule>, tenantId: Option<string>, includeDisabled: bool): seq<Rule>
    requires Valid(rules)
  {
    Filter(Listed(tenantId, includeDisabled), SortedValues(rules, StringLe))
  }

  /** The rules that `verify` compares, in the order in which they take precedence. */
  function Candidates(rules: Dict<string, Rule>, tenantId: string, includeDisabled: bool): seq<Rule>
    requires Valid(rules)
  {
    Sort(ByPrecedence, Filter(Listed(None, includeDisabled), ListRules(rules, Some(tenantId), true)))
  }

  /** The rule is stored for the tenant and takes part in the report. */
  predicate Participates(rules: Dict<string, Rule>, tenantId: string, includeDisabled: bool, rule: Rule) {
    && rule.ruleId in rules.entries && rules.entries[rule.ruleId] == rule
    && rule.tenantId == tenantId && (includeDisabled || rule.enabled)
  }

  /** The comparison misses no rule of the tenant and includes no other. */
  lemma CandidatesComplete(rules: Dict<string, Rule>, tenantId: string, includeDisabled: bool, rule: Rule)
    requires ValidRules(rules) && tenantId != ""
    ensures rule in Candidates(rules, tenantId, includeDisabled) <==>
            Participates(rules, tenantId, includeDisabled, rule)
  {
    SortedValuesMember(rules, StringLe, RuleId, rule);
  }

  lemma CandidatesDistinct(rules: Dict<string, Rule>, tenantId: string, includeDisabled: bool)
    requires ValidRules(rules)
    ensures Distinct(Candidates(rules, tenantId, includeDisabled))
  {
    SortedValuesDistinct(rules, StringLe, RuleId);
    FilterDistinct(Listed(Some(tenantId), true), SortedValues(rules, StringLe));
    var ofTenant := ListRules(rules, Some(tenantId), true);
    FilterDistinct(Listed(None, includeDisabled), ofTenant);
    SortDistinct(ByPrecedence, Filter(Listed(None, includeDisabled), ofTenant));
  }

  lemma CandidatesOrdered(rules: Dict<string, Rule>, tenantId: string, includeDisabled: bool)
    requires ValidRules(rules) && tenantId != ""
    ensures var candidates := Candidates(rules, tenantId, includeDisabled);
      && (forall i, j | 0 <= i < j < |candidates| && candidates[i].priority == candidates[j].priority ::
            StringLe(candidates[i].ruleId, candidates[j].ruleId))
      && InPrecedenceOrder(candidates) && DistinctIds(candidates)
      && (forall rule | rule in candidates :: WellFormed(rule))
  {
    var candidates := Candidates(rules, tenantId, includeDisabled);
    PrecedenceTotalPreorder();
    SortSorts(ByPrecedence, Filter(Listed(None, includeDisabled), ListRules(rules, Some(tenantId), true)));
    CandidatesDistinct(rules, tenantId, includeDisabled);
    hide Candidates, WellFormed;
    forall rule | rule in candidates
      ensures WellFormed(rule) && rule.ruleId in rules.entries && rules.entries[rule.ruleId] == rule
    {
      CandidatesComplete(rules, tenantId, includeDisabled, rule);
    }
  }

  // ---------- validation of a rule ----------

  /** Sorted distinct non-empty items. */
  function Normalized(items: seq<string>): (r: seq<string>)
    ensures forall item :: item in r <==> item in items && item != ""
    ensures Distinct(r) && SortedBy(StringLe, r)
  {
    NormalizedOrder(items);
    Sort(StringLe, Unique(Filter(Other(""), items)))
  }

  lemma NormalizedOrder(items: seq<string>)
    ensures var r := Sort(StringLe, Unique(Filter(Other(""), items))); Distinct(r) && SortedBy(StringLe, r)
  {
    StringLeTotalPreorder();
    SortSorts(StringLe, Unique(Filter(Other(""), items)));
    SortDistinct(StringLe, Unique(Filter(Other(""), items)));
  }

  function OrDefault(items: seq<string>, default: string): seq<string> {
    if items == [] then [default] else items
  }

  /** The rule that the arguments of `upsert_rule` describe. */
  function NormalizedRule(arguments: Rule): (r: Rule)
    ensures r == arguments.(actionPatterns := r.actionPatterns, jurisdictions := r.jurisdictions)
    ensures forall p :: p in r.actionPatterns <==>
              if arguments.actionPatterns == [] then p == "*" else p in arguments.actionPatterns && p != ""
    ensures forall j :: j in r.jurisdictions <==>
              if arguments.jurisdictions == [] then j == "global" else j in arguments.jurisdictions && j != ""
  {
    arguments.(
      actionPatterns := Normalized(OrDefault(arguments.actionPatterns, "*")),
      jurisdictions := Normalized(OrDefault(arguments.jurisdictions, "global")))
  }

  predicate ValidRisk(score: Option<real>) {
    score.None? || 0.0 <= score.value <= 1.0
  }

  /** The checks of `upsert_rule`, in order: exactly the well-formed rules pass. */
  function RuleError(rule: Rule): (r: Option<string>)
    requires "" !in rule.actionPatterns && "" !in rule.jurisdictions
    ensures r.None? <==> WellFormed(rule)
  {
    if rule.ruleId == "" then Some("rule_id must not be empty")
    else if rule.tenantId == "" then Some("tenant_id must not be empty")
    else if rule.effect !in {"allow", "deny"} then Some("effect must be one of allow|deny")
    else if rule.actionPatterns == [] then Some("action_patterns must include at least one pattern")
    else if rule.jurisdictions == [] then Some("jurisdictions must include at least one value")
    else if !ValidRisk(rule.minRiskScore) then Some("min_risk_score must be between 0.0 and 1.0")
    else if !ValidRisk(rule.maxRiskScore) then Some("max_risk_score must be between 0.0 and 1.0")
    else if rule.minRiskScore.Some? && rule.maxRiskScore.Some?
            && rule.minRiskScore.value > rule.maxRiskScore.value then
      Some("min_risk_score must be less than or equal to max_risk_score")
    else None
  }

  // ---------- the service ----------

  datatype Report = Report(
    reportId: string, tenantId: string, includeDisabled: bool, totalRules: nat, activeRules: nat,
    checkedPairs: nat, severity: Severity, conflicts: seq<Conflict>, generatedAt: real)

  function ReportId(report: Report): string {
    report.reportId
  }

  predicate NewerReport(a: Report, b: Report) {
    a.generatedAt >= b.generatedAt
  }

  const REPORT_LIMIT := 2000

  /**
   A real opposition is reported: whenever two participating rules of opposite effect
   select one request, and the patterns concerned are anchored or one of them is free
   of stars, the report lists them and its severity shows it.
   */
  lemma OppositionReported(
      rules: Dict<string, Rule>, tenantId: string, includeDisabled: bool, reportId: string, now: real,
      a: Rule, b: Rule, p: string, q: string, ctx: Context) returns (c: Conflict)
    requires ValidRules(rules) && tenantId != ""
    requires Participates(rules, tenantId, includeDisabled, a) && Participates(rules, tenantId, includeDisabled, b)
    requires a.effect != b.effect && Selects(a, ctx) && Selects(b, ctx)
    requires p in a.actionPatterns && Matches(p, ctx.action) && q in b.actionPatterns && Matches(q, ctx.action)
    requires '*' !in p || '*' !in q || (Anchored(p) && Anchored(q))
    ensures var report := ReportFor(rules, tenantId, includeDisabled, reportId, now);
      && c in report.conflicts && c.ruleIds in {[a.ruleId, b.ruleId], [b.ruleId, a.ruleId]}
      && (if a.priority == b.priority
          then c.conflictType == PriorityConflict && report.severity == High
          else c.conflictType == PrecedenceConflict && report.severity in {High, Medium})
  {
    hide SelectorsOverlap, Candidates, ListRules, PairConflicts, WorstSeverity, Matches, Anchored;
    OppositionOverlaps(a, b, p, q, ctx);
    CandidatesComplete(rules, tenantId, includeDisabled, a);
    CandidatesComplete(rules, tenantId, includeDisabled, b);
    c := OverlapReported(Candidates(rules, tenantId, includeDisabled), a, b);
  }

  /** Two overlapping rules of opposite effect in a list cause a conflict that the severity shows. */
  lemma OverlapReported(candidates: seq<Rule>, a: Rule, b: Rule) returns (c: Conflict)
    requires a in candidates && b in candidates && a.effect != b.effect && SelectorsOverlap(a, b)
    ensures c in PairConflicts(candidates) && c.ruleIds in {[a.ruleId, b.ruleId], [b.ruleId, a.ruleId]}
    ensures if a.priority == b.priority
            then c.conflictType == PriorityConflict && WorstSeverity(PairConflicts(candidates)) == High
            else c.conflictType == PrecedenceConflict && WorstSeverity(PairConflicts(candidates)) in {High, Medium}
  {
    hide SelectorsOverlap, PairConflicts, WorstSeverity;
    SelectorsOverlapSymmetric(a, b);
    var i :| 0 <= i < |candidates| && candidates[i] == a;
    var j :| 0 <= j < |candidates| && candidates[j] == b;
    var first, second := if i < j then a else b, if i < j then b else a;
    c := Conflict(if a.priority == b.priority then PriorityConflict else PrecedenceConflict,
                  if a.priority == b.priority then High else Medium, [first.ruleId, second.ruleId]);
    assert Causes(first, second, c);
    ConflictsExact(candidates, c);
    SeverityExact(PairConflicts(candidates));
  }

  lemma OppositionOverlaps(a: Rule, b: Rule, p: string, q: string, ctx: Context)
    requires WellFormed(a) && WellFormed(b) && Selects(a, ctx) && Selects(b, ctx)
    requires p in a.actionPatterns && Matches(p, ctx.action) && q in b.actionPatterns && Matches(q, ctx.action)
    requires '*' !in p || '*' !in q || (Anchored(p) && Anchored(q))
    ensures SelectorsOverlap(a, b)
  {
    TrulyOverlapDecides(a, b);
    if Anchored(p) && Anchored(q) {
      if !PatternsOverlap(p, q) {
        OverlapMissedOnlyBehindLeadingStar(p, q);
      }
    } else {
      OverlapNeverMissedForLiterals(p, q);
    }
  }

  /** The severity names the worst conflict. */
  lemma SeverityExact(conflicts: seq<Conflict>)
    ensures WorstSeverity(conflicts) == NoSeverity <==> conflicts == []
    ensures WorstSeverity(conflicts) == High <==> exists c | c in conflicts :: c.severity == High
    ensures WorstSeverity(conflicts) in {High, Medium} <==> exists c | c in conflicts :: c.severity in {High, Medium}
  {
    assert (exists c | c in conflicts :: c.severity in {High, Medium}) <==>
           (exists c | c in conflicts :: c.severity == High) || (exists c | c in conflicts :: c.severity == Medium);
  }

  /** The worst severity among the conflicts. */
  function WorstSeverity(conflicts: seq<Conflict>): Severity {
    if conflicts == [] then NoSeverity
    else if exists c | c in conflicts :: c.severity == High then High
    else if exists c | c in conflicts :: c.severity == Medium then Medium
    else Low
  }

  /** What `verify` reports about a rule dictionary. */
  function ReportFor(
      rules: Dict<string, Rule>, tenantId: string, includeDisabled: bool, reportId: string, now: real): Report
    requires Valid(rules)
  {
    var ofTenant := ListRules(rules, Some(tenantId), true);
    var candidates := Candidates(rules, tenantId, includeDisabled);
    var conflicts := PairConflicts(candidates);
    Report(reportId, tenantId, includeDisabled, |ofTenant|, |Filter(Listed(None, false), ofTenant)|,
           PairCount(|candidates|), WorstSeverity(conflicts), conflicts, now)
  }

  /** The ids of the tenant's rules, all or the enabled ones. */
  function TenantIds(rules: Dict<string, Rule>, tenantId: string, includeDisabled: bool): set<string> {
    set id | id in rules.entries && rules.entries[id].tenantId == tenantId && (includeDisabled || rules.entries[id].enabled)
  }

  /** The figures of the report: the tenant's rules, the enabled ones among them, and all pairs of the compared ones. */
  lemma ReportCounts(rules: Dict<string, Rule>, tenantId: string, includeDisabled: bool, reportId: string, now: real)
    requires ValidRules(rules) && tenantId != ""
    ensures var report, n := ReportFor(rules, tenantId, includeDisabled, reportId, now),
                             |TenantIds(rules, tenantId, includeDisabled)|;
      && report.totalRules == |TenantIds(rules, tenantId, true)|
      && report.activeRules == |TenantIds(rules, tenantId, false)|
      && 2 * report.checkedPairs == n * (n - 1)
      && report.reportId == reportId && report.tenantId == tenantId && report.includeDisabled == includeDisabled
      && report.generatedAt == now
  {
    hide SortedValues, Sort, Filter, PairCount, PairConflicts, WorstSeverity, ListRules, Listed, TenantIds;
    ListedCount(rules, tenantId, true);
    ListedCount(rules, tenantId, false);
    PairCountClosed(|Candidates(rules, tenantId, includeDisabled)|);
  }

  /** How many rules are listed: as many as there are ids of such rules. */
  lemma ListedCount(rules: Dict<string, Rule>, tenantId: string, includeDisabled: bool)
    requires ValidRules(rules) && tenantId != ""
    ensures |Filter(Listed(None, includeDisabled), ListRules(rules, Some(tenantId), true))|
            == |TenantIds(rules, tenantId, includeDisabled)|
    ensures includeDisabled ==> Filter(Listed(None, includeDisabled), ListRules(rules, Some(tenantId), true))
                                == ListRules(rules, Some(tenantId), true)
  {
    var ofTenant := ListRules(rules, Some(tenantId), true);
    var listed := Filter(Listed(None, includeDisabled), ofTenant);
    SortedValuesDistinct(rules, StringLe, RuleId);
    FilterDistinct(Listed(Some(tenantId), true), SortedValues(rules, StringLe));
    FilterDistinct(Listed(None, includeDisabled), ofTenant);
    if includeDisabled {
      FilterAll(Listed(None, includeDisabled), ofTenant);
    }
    forall rule ensures rule in listed <==> Participates(rules, tenantId, includeDisabled, rule) {
      SortedValuesMember(rules, StringLe, RuleId, rule);
    }
    IdsOfListed(rules, tenantId, includeDisabled, listed);
  }

  lemma IdsOfListed(rules: Dict<string, Rule>, tenantId: string, includeDisabled: bool, listed: seq<Rule>)
    requires ValidRules(rules) && Distinct(listed)
    requires forall rule :: rule in listed <==> Participates(rules, tenantId, includeDisabled, rule)
    ensures |listed| == |TenantIds(rules, tenantId, includeDisabled)|
  {
    var ids := seq(|listed|, i requires 0 <= i < |listed| => listed[i].ruleId);
    forall i, j | 0 <= i < j < |listed| ensures ids[i] != ids[j] {
      assert listed[i] in listed && listed[j] in listed;
    }
    DistinctCount(ids);
    var all := TenantIds(rules, tenantId, includeDisabled);
    forall id | id in all ensures id in ids {
      assert rules.entries[id] in listed;
      var i :| 0 <= i < |listed| && listed[i] == rules.entries[id];
      assert ids[i] == id;
    }
    forall id | id in ids ensures id in all {
      var i :| 0 <= i < |ids| && ids[i] == id;
      assert listed[i] in listed;
    }
    assert (set id | id in ids) == all;
  }

  /** The severity shown to the caller separates clean reports from the others. */
  lemma SeverityShowsOpposition(rules: seq<Rule>)
    ensures NoOpposition(PairConflicts(rules)) <==> WorstSeverity(PairConflicts(rules)) in {NoSeverity, Low}
  {
    forall c | c in PairConflicts(rules)
      ensures c.severity == match c.conflictType
                            case PriorityConflict => High
                            case PrecedenceConflict => Medium
                            case ShadowedRule => Low
    {
      PairResultsMember(DetectConflict, rules, |rules|, c);
    }
  }

  /**
   The whole guarantee of a report with severity none or low, for every state of the
   service: with anchored patterns, all participating rules that select a request
   agree on its effect.
   */
  lemma ReportGuarantee(
      rules: Dict<string, Rule>, tenantId: string, includeDisabled: bool, reportId: string, now: real,
      a: Rule, b: Rule, ctx: Context)
    requires ValidRules(rules) && tenantId != ""
    requires forall rule | Participates(rules, tenantId, includeDisabled, rule) ::
               StarOnlyPatterns(rule) && AnchoredPatterns(rule)
    requires ReportFor(rules, tenantId, includeDisabled, reportId, now).severity in {NoSeverity, Low}
    requires Participates(rules, tenantId, includeDisabled, a) && Selects(a, ctx)
    requires Participates(rules, tenantId, includeDisabled, b) && Selects(b, ctx)
    ensures a.effect == b.effect
  {
    var candidates := Candidates(rules, tenantId, includeDisabled);
    SeverityShowsOpposition(candidates);
    CandidatesOrdered(rules, tenantId, includeDisabled);
    forall rule ensures rule in candidates <==> Participates(rules, tenantId, includeDisabled, rule) {
      CandidatesComplete(rules, tenantId, includeDisabled, rule);
    }
    CleanReportOrderIrrelevant(candidates);
    assert AgreeOn(candidates, ctx);
  }

  ghost predicate ValidReports(reports: Dict<string, Report>) {
    Valid(reports) && Keyed(reports, ReportId) && |reports.order| <= REPORT_LIMIT
  }

  function Stored(reports: Dict<string, Report>, report: Report): Dict<string, Report>
    requires Valid(reports)
  {
    KeepNewest(Put(reports, report.reportId, report), NewerReport, ReportId, REPORT_LIMIT)
  }

  /** Storing keeps the newest reports, at most `REPORT_LIMIT` of them. */
  lemma StoredKeepsNewest(reports: Dict<string, Report>, report: Report)
    requires ValidReports(reports)
    ensures ValidReports(Stored(reports, report))
    ensures var all := Put(reports, report.reportId, report);
      |Stored(reports, report).order| == if |all.order| <= 2000 then |all.order| else 2000
    ensures forall kept, dropped |
              && kept in Stored(reports, report).entries
              && dropped in Put(reports, report.reportId, report).entries
              && dropped !in Stored(reports, report).entries ::
              Put(reports, report.reportId, report).entries[kept].generatedAt
              >= Put(reports, report.reportId, report).entries[dropped].generatedAt
  {
    var all := Put(reports, report.reportId, report);
    KeepNewestSize(all, NewerReport, ReportId, REPORT_LIMIT);
    forall kept, dropped |
      kept in Stored(reports, report).entries && dropped in all.entries && dropped !in Stored(reports, report).entries
      ensures all.entries[kept].generatedAt >= all.entries[dropped].generatedAt
    {
      KeepNewestKeepsNewest(all, NewerReport, ReportId, REPORT_LIMIT, kept, dropped);
    }
  }

  class PolicyVerificationService {
    var rules: Dict<string, Rule>
    var reports: Dict<string, Report>

    ghost predicate Invariant()
      reads this
    {
      ValidRules(rules) && ValidReports(reports)
    }

    constructor ()
      ensures Invariant() && rules == Empty() && reports == Empty()
    {
      rules, reports := Empty(), Empty();
    }

    method UpsertRule(arguments: Rule) returns (r: Result<Rule>)
      requires Invariant()
      modifies this`rules
      ensures Invariant()
      ensures r.Ok? <==> WellFormed(NormalizedRule(arguments))
      ensures r.Ok? ==> r.value == NormalizedRule(arguments)
      ensures rules == if r.Ok? then Put(old(rules), r.value.ruleId, r.value) else old(rules)
    {
      hide ValidRules, ValidReports, WellFormed, NormalizedRule;
      var rule := NormalizedRule(arguments);
      var error := RuleError(rule);
      if error.Some? {
        return Raised(error.value);
      }
      ValidRulesAfterPut(rules, rule);
      rules := Put(rules, rule.ruleId, rule);
      r := Ok(rule);
    }

    /** `reportId` is the fresh id, `now` the clock. */
    method Verify(tenantId: string, includeDisabled: bool, reportId: string, now: real) returns (r: Result<Report>)
      requires Invariant()
      modifies this`reports
      ensures Invariant()
      ensures r == if tenantId == "" then Raised("tenant_id must not be empty")
                   else Ok(ReportFor(rules, tenantId, includeDisabled, reportId, now))
      ensures reports == if r.Ok? then Stored(old(reports), r.value) else old(reports)
    {
      hide Sort, Filter, PairResults, PairCount, WorstSeverity, DetectConflict, KeepNewest, Put, WellFormed;
      if tenantId == "" {
        return Raised("tenant_id must not be empty");
      }
      var allRules := ListRules(rules, Some(tenantId), true);
      var candidates := Sort(ByPrecedence, Filter(Listed(None, includeDisabled), allRules));
      var conflicts, checkedPairs := CheckPairs(DetectConflict, candidates);
      var activeRules := Filter(Listed(None, false), allRules);
      var report := Report(reportId, tenantId, includeDisabled, |allRules|, |activeRules|,
                           checkedPairs, WorstSeverity(conflicts), conflicts, now);
      StoredKeepsNewest(reports, report);
      reports := KeepNewest(Put(reports, reportId, report), NewerReport, ReportId, REPORT_LIMIT);
      r := Ok(report);
    }
  }
}
