/** The policy engine: ordered rules, jurisdiction overrides, and two modes of one evaluator. */
module PolicyEngine {
  import opened Seqs

  datatype Context = Context(
    actorId: string, siteId: string, regionAllowed: bool, hasAuthorization: bool, riskScore: real,
    action: string, jurisdiction: string)

  datatype Outcome = Outcome(decision: Option<bool>, reason: string)

  datatype Rule = Rule(ruleId: string, priority: int, description: string, evaluator: Context -> Result<Outcome>)

  datatype Explanation = Explanation(ruleId: string, priority: int, verdict: string, reason: string)

  datatype Override = Override(action: string, reason: string)

  datatype Decision = Decision(
    allowed: bool, reason: string, appliedRuleId: Option<string>, simulated: bool, wouldAllow: Option<bool>,
    explanations: seq<Explanation>)

  type Overrides = map<string, map<string, Override>>

  // ---------- one rule on one request ----------

  function OverrideFor(overrides: Overrides, ctx: Context, rule: Rule): Option<Override> {
    if ctx.jurisdiction in overrides && rule.ruleId in overrides[ctx.jurisdiction]
    then Some(overrides[ctx.jurisdiction][rule.ruleId])
    else None
  }

  /** What the rule says: an override replaces the evaluator, and "skip" says nothing. The evaluator may raise. */
  function Verdict(overrides: Overrides, ctx: Context, rule: Rule): Result<Option<bool>> {
    match OverrideFor(overrides, ctx, rule)
    case Some(o) => Ok(if o.action == "skip" then None else Some(o.action == "allow"))
    case None =>
      match rule.evaluator(ctx)
      case Ok(outcome) => Ok(outcome.decision)
      case Raised(error) => Raised(error)
  }

  /** How the rule is listed; one that raises never is, since its exception leaves the evaluation. */
  function Explain(overrides: Overrides, ctx: Context, rule: Rule): Explanation {
    match OverrideFor(overrides, ctx, rule)
    case Some(o) => Explanation(rule.ruleId, rule.priority, "override_" + o.action, o.reason)
    case None =>
      match rule.evaluator(ctx)
      case Raised(error) => Explanation(rule.ruleId, rule.priority, "", error)
      case Ok(outcome) =>
        var verdict := if outcome.decision.None? then "pass" else if outcome.decision.value then "allow" else "deny";
        Explanation(rule.ruleId, rule.priority, verdict, outcome.reason)
  }

  /** The position of the first rule that decides or raises, or the number of rules. */
  function FirstDecisive(overrides: Overrides, ctx: Context, rules: seq<Rule>): (k: nat)
    ensures k <= |rules|
    ensures k < |rules| ==> Verdict(overrides, ctx, rules[k]) != Ok(None)
    ensures forall i | 0 <= i < k :: Verdict(overrides, ctx, rules[i]) == Ok(None)
  {
    if rules == [] || Verdict(overrides, ctx, rules[0]) != Ok(None) then 0
    else 1 + FirstDecisive(overrides, ctx, rules[1..])
  }

  /** The position of the first rule that raises, or the number of rules. */
  function FirstRaising(overrides: Overrides, ctx: Context, rules: seq<Rule>): (k: nat)
    ensures k <= |rules|
    ensures k < |rules| ==> Verdict(overrides, ctx, rules[k]).Raised?
    ensures forall i | 0 <= i < k :: Verdict(overrides, ctx, rules[i]).Ok?
  {
    if rules == [] || Verdict(overrides, ctx, rules[0]).Raised? then 0
    else 1 + FirstRaising(overrides, ctx, rules[1..])
  }

  function Explanations(overrides: Overrides, ctx: Context, rules: seq<Rule>): (r: seq<Explanation>)
    ensures |r| == |rules|
    ensures forall i | 0 <= i < |r| :: r[i] == Explain(overrides, ctx, rules[i])
  {
    seq(|rules|, i requires 0 <= i < |rules| => Explain(overrides, ctx, rules[i]))
  }

  ghost predicate NoDenial(overrides: Overrides, ctx: Context, rules: seq<Rule>) {
    forall rule | rule in rules :: Verdict(overrides, ctx, rule) != Ok(Some(false))
  }

  // ---------- the two modes ----------

  /** What enforcement answers: the first decisive rule decides, otherwise the request is allowed. */
  ghost predicate Enforced(overrides: Overrides, ctx: Context, rules: seq<Rule>, r: Result<Decision>) {
    var k := FirstDecisive(overrides, ctx, rules);
    if k == |rules| then
      r == Ok(Decision(true, "allowed", None, false, None, Explanations(overrides, ctx, rules)))
    else
      match Verdict(overrides, ctx, rules[k])
      case Raised(error) => r == Raised(error)
      case Ok(verdict) =>
        && r.Ok? && !r.value.simulated && r.value.wouldAllow == None
        && Some(r.value.allowed) == verdict
        && r.value.appliedRuleId == Some(rules[k].ruleId)
        && r.value.explanations == Explanations(overrides, ctx, rules[..k + 1])
        && r.value.reason == r.value.explanations[k].reason
  }

  /** What simulation answers: nothing is enforced, every rule is asked and explained. */
  ghost predicate Simulated(overrides: Overrides, ctx: Context, rules: seq<Rule>, r: Result<Decision>) {
    var j, k := FirstRaising(overrides, ctx, rules), FirstDecisive(overrides, ctx, rules);
    if j < |rules| then r == Raised(Verdict(overrides, ctx, rules[j]).error)
    else
      r == Ok(Decision(true, "simulation mode: no enforcement",
                       if k == |rules| then None else Some(rules[k].ruleId),
                       true, Some(NoDenial(overrides, ctx, rules)), Explanations(overrides, ctx, rules)))
  }

  /**
   Whatever makes enforcement raise makes simulation raise too, with the same error.
   Simulation raises where enforcement answers exactly when some evaluator raises
   behind the rule that decides.
   */
  lemma SimulationRaisesMore(
      overrides: Overrides, ctx: Context, rules: seq<Rule>, enforced: Result<Decision>, simulated: Result<Decision>)
    requires Enforced(overrides, ctx, rules, enforced) && Simulated(overrides, ctx, rules, simulated)
    ensures enforced.Raised? ==> simulated == enforced
    ensures enforced.Ok? && simulated.Raised? <==>
            FirstDecisive(overrides, ctx, rules) < FirstRaising(overrides, ctx, rules) < |rules|
  {
    var k, j := FirstDecisive(overrides, ctx, rules), FirstRaising(overrides, ctx, rules);
    assert k < |rules| && Verdict(overrides, ctx, rules[k]).Raised? ==> k == j;
  }

  /** The enforced explanations are the simulated ones up to the rule both modes report as applied. */
  lemma ModesAgreeOnAppliedRule(overrides: Overrides, ctx: Context, rules: seq<Rule>, enforced: Decision, simulated: Decision)
    requires Enforced(overrides, ctx, rules, Ok(enforced)) && Simulated(overrides, ctx, rules, Ok(simulated))
    ensures enforced.appliedRuleId == simulated.appliedRuleId
    ensures enforced.explanations <= simulated.explanations
    ensures enforced.appliedRuleId.None? ==> enforced.explanations == simulated.explanations
  {
  }

  /** A decisive rule denies the request although the first decisive rule allows it. */
  ghost predicate DenialAfterAllow(overrides: Overrides, ctx: Context, rules: seq<Rule>) {
    exists i, j | 0 <= i < j < |rules| ::
      && FirstDecisive(overrides, ctx, rules) == i
      && Verdict(overrides, ctx, rules[i]) == Ok(Some(true)) && Verdict(overrides, ctx, rules[j]) == Ok(Some(false))
  }

  /**
   `would_allow` never promises what enforcement refuses, and it is more cautious
   exactly when a denial follows the rule that allows.
   */
  lemma SimulationPredictsEnforcement(overrides: Overrides, ctx: Context, rules: seq<Rule>, enforced: Decision, simulated: Decision)
    requires Enforced(overrides, ctx, rules, Ok(enforced)) && Simulated(overrides, ctx, rules, Ok(simulated))
    ensures simulated.wouldAllow == Some(true) ==> enforced.allowed
    ensures simulated.wouldAllow != Some(enforced.allowed) <==> DenialAfterAllow(overrides, ctx, rules)
  {
    var k := FirstDecisive(overrides, ctx, rules);
    if k < |rules| {
      assert rules[k] in rules;
    }
    if !NoDenial(overrides, ctx, rules) {
      var j :| 0 <= j < |rules| && Verdict(overrides, ctx, rules[j]) == Ok(Some(false));
      assert k <= j;
    }
  }

  /** Without allowing rules or overrides the prediction is the enforced answer. */
  lemma ModesEqualWithoutAllows(overrides: Overrides, ctx: Context, rules: seq<Rule>, enforced: Decision, simulated: Decision)
    requires Enforced(overrides, ctx, rules, Ok(enforced)) && Simulated(overrides, ctx, rules, Ok(simulated))
    requires forall rule | rule in rules :: Verdict(overrides, ctx, rule) != Ok(Some(true))
    ensures simulated.wouldAllow == Some(enforced.allowed)
  {
    SimulationPredictsEnforcement(overrides, ctx, rules, enforced, simulated);
    assert forall i | 0 <= i < |rules| :: rules[i] in rules;
  }

  // ---------- the rule list ----------

  predicate DescendingPriority(a: Rule, b: Rule) {
    a.priority >= b.priority
  }

  function OtherRule(ruleId: string): Rule -> bool {
    (rule: Rule) => rule.ruleId != ruleId
  }

  function AtPriority(priority: int): Rule -> bool {
    (rule: Rule) => rule.priority == priority
  }

  ghost predicate UniqueIds(rules: seq<Rule>) {
    forall i, j | 0 <= i < j < |rules| :: rules[i].ruleId != rules[j].ruleId
  }

  function Registered(rules: seq<Rule>, rule: Rule): seq<Rule> {
    Sort(DescendingPriority, Filter(OtherRule(rule.ruleId), rules) + [rule])
  }

  /** Registration keeps the list sorted and replaces only the rule of the same id. */
  lemma RegisteredKeepsOrder(rules: seq<Rule>, rule: Rule)
    ensures SortedBy(DescendingPriority, Registered(rules, rule))
    ensures forall r :: r in Registered(rules, rule) <==> r == rule || (r in rules && r.ruleId != rule.ruleId)
  {
    SortSorts(DescendingPriority, Filter(OtherRule(rule.ruleId), rules) + [rule]);
  }

  lemma RegisteredDescends(rules: seq<Rule>, rule: Rule, i: nat, j: nat)
    requires i < j < |Registered(rules, rule)|
    ensures Registered(rules, rule)[i].priority >= Registered(rules, rule)[j].priority
  {
    RegisteredKeepsOrder(rules, rule);
    hide Registered;
    assert DescendingPriority(Registered(rules, rule)[i], Registered(rules, rule)[j]);
  }

  lemma RegisteredKeepsIdsUnique(rules: seq<Rule>, rule: Rule)
    requires UniqueIds(rules)
    ensures UniqueIds(Registered(rules, rule))
  {
    var kept, result := Filter(OtherRule(rule.ruleId), rules), Registered(rules, rule);
    FilterDistinct(OtherRule(rule.ruleId), rules);
    assert rule !in kept;
    assert Distinct(kept + [rule]);
    SortDistinct(DescendingPriority, kept + [rule]);
    forall i, j | 0 <= i < j < |result| ensures result[i].ruleId != result[j].ruleId {
      assert result[i] in result && result[j] in result;
      if result[i].ruleId == result[j].ruleId {
        SameIdSameRule(rules, rule, result[i], result[j]);
      }
    }
  }

  lemma SameIdSameRule(rules: seq<Rule>, rule: Rule, a: Rule, b: Rule)
    requires UniqueIds(rules) && a in Registered(rules, rule) && b in Registered(rules, rule)
    requires a.ruleId == b.ruleId
    ensures a == b
  {
    RegisteredKeepsOrder(rules, rule);
  }

  /** Among rules of equal priority the old ones keep their order and the new one comes last. */
  lemma RegisteredIsStable(rules: seq<Rule>, rule: Rule, priority: int)
    ensures Filter(AtPriority(priority), Registered(rules, rule))
            == Filter(AtPriority(priority), Filter(OtherRule(rule.ruleId), rules))
               + (if rule.priority == priority then [rule] else [])
  {
    var kept := Filter(OtherRule(rule.ruleId), rules);
    SortStable(DescendingPriority, AtPriority(priority), kept + [rule]);
    FilterSnoc(AtPriority(priority), kept, rule);
  }

  // ---------- the default rules ----------

  function AuthorizationRule(ctx: Context): Result<Outcome> {
    Ok(if !ctx.hasAuthorization then Outcome(Some(false), "missing authorization")
       else Outcome(None, "authorization present"))
  }

  function RegionRule(ctx: Context): Result<Outcome> {
    Ok(if !ctx.regionAllowed then Outcome(Some(false), "region policy denied") else Outcome(None, "region allowed"))
  }

  function RiskRule(riskThreshold: real): Context -> Result<Outcome> {
    (ctx: Context) =>
      Ok(if ctx.riskScore > riskThreshold then Outcome(Some(false), "risk threshold exceeded")
         else Outcome(None, "risk below threshold"))
  }

  function ActionRule(ctx: Context): Result<Outcome> {
    Ok(if ctx.action == "" then Outcome(Some(false), "empty action") else Outcome(None, "action present"))
  }

  /** The rules of a new engine, in the order in which they are asked. */
  function DefaultRules(riskThreshold: real): seq<Rule> {
    [ Rule("authorization_required", 100, "Request must include valid authorization", AuthorizationRule),
      Rule("region_allowed", 90, "Region must be permitted by policy", RegionRule),
      Rule("risk_threshold", 80, "Risk score must stay below threshold", RiskRule(riskThreshold)),
      Rule("action_not_empty", 70, "Action payload must be non-empty", ActionRule) ]
  }

  /** A new engine never raises and allows exactly the requests that pass all four checks, in both modes. */
  lemma DefaultDecision(riskThreshold: real, ctx: Context, enforced: Result<Decision>, simulated: Result<Decision>)
    requires Enforced(map[], ctx, DefaultRules(riskThreshold), enforced)
    requires Simulated(map[], ctx, DefaultRules(riskThreshold), simulated)
    ensures enforced.Ok? && simulated.Ok?
    ensures enforced.value.allowed <==>
            ctx.hasAuthorization && ctx.regionAllowed && ctx.riskScore <= riskThreshold && ctx.action != ""
    ensures simulated.value.wouldAllow == Some(enforced.value.allowed)
  {
    DefaultVerdicts(riskThreshold, ctx);
    hide DefaultRules, Verdict;
    var rules := DefaultRules(riskThreshold);
    RaisingMember(map[], ctx, rules);
    SimulationRaisesMore(map[], ctx, rules, enforced, simulated);
    ModesEqualWithoutAllows(map[], ctx, rules, enforced.value, simulated.value);
  }

  lemma RaisingMember(overrides: Overrides, ctx: Context, rules: seq<Rule>)
    ensures FirstRaising(overrides, ctx, rules) < |rules| <==> exists rule | rule in rules :: Verdict(overrides, ctx, rule).Raised?
  {
    hide Verdict;
    var j := FirstRaising(overrides, ctx, rules);
    if j < |rules| {
      assert rules[j] in rules;
    }
  }

  lemma DefaultVerdicts(riskThreshold: real, ctx: Context)
    ensures forall rule | rule in DefaultRules(riskThreshold) ::
              Verdict(map[], ctx, rule).Ok? && Verdict(map[], ctx, rule) != Ok(Some(true))
    ensures NoDenial(map[], ctx, DefaultRules(riskThreshold)) <==>
            ctx.hasAuthorization && ctx.regionAllowed && ctx.riskScore <= riskThreshold && ctx.action != ""
  {
    var rules := DefaultRules(riskThreshold);
    assert rules[0] in rules && rules[1] in rules && rules[2] in rules && rules[3] in rules;
  }

  // ---------- the engine ----------

  class PolicyEngine {
    const riskThreshold: real
    var rules: seq<Rule>
    var overrides: Overrides

    ghost predicate Invariant()
      reads this
    {
      && UniqueIds(rules) && SortedBy(DescendingPriority, rules)
      && forall j, id | j in overrides && id in overrides[j] :: overrides[j][id].action in {"allow", "deny", "skip"}
    }

    constructor (riskThreshold: real)
      requires 0.0 <= riskThreshold <= 1.0
      ensures Invariant() && rules == DefaultRules(riskThreshold) && overrides == map[]
      ensures |rules| == 4
              && rules[0].ruleId == "authorization_required" && rules[0].priority == 100
              && rules[1].ruleId == "region_allowed" && rules[1].priority == 90
              && rules[2].ruleId == "risk_threshold" && rules[2].priority == 80
              && rules[3].ruleId == "action_not_empty" && rules[3].priority == 70
    {
      this.riskThreshold := riskThreshold;
      rules, overrides := [], map[];
      new;
      var defaults := DefaultRules(riskThreshold);
      DefaultsInOrder(riskThreshold);
      DefaultsListed(riskThreshold);
      hide DefaultRules, Registered;
      for i := 0 to |defaults|
        invariant rules == defaults[..i] && overrides == map[]
        invariant UniqueIds(rules) && SortedBy(DescendingPriority, rules)
      {
        RegisterInOrder(defaults, i);
        var _ := RegisterRule(defaults[i].ruleId, defaults[i].priority, defaults[i].description, defaults[i].evaluator);
      }
      TakeEnds(defaults);
    }

    method RegisterRule(ruleId: string, priority: int, description: string, evaluator: Context -> Result<Outcome>)
      returns (r: Result<()>)
      modifies this`rules
      ensures r.Ok? <==> ruleId != ""
      ensures rules == if r.Ok? then Registered(old(rules), Rule(ruleId, priority, description, evaluator)) else old(rules)
      ensures old(Invariant()) ==> Invariant()
    {
      if ruleId == "" {
        return Raised("rule_id must not be empty");
      }
      var rule := Rule(ruleId, priority, description, evaluator);
      if UniqueIds(rules) {
        RegisteredKeepsIdsUnique(rules, rule);
      }
      RegisteredKeepsOrder(rules, rule);
      rules := Filter(OtherRule(ruleId), rules);
      rules := rules + [rule];
      rules := Sort(DescendingPriority, rules);
      r := Ok(());
    }

    method SetJurisdictionOverride(jurisdiction: string, ruleId: string, action: string, reason: string)
      returns (r: Result<()>)
      requires Invariant()
      modifies this`overrides
      ensures Invariant()
      ensures r.Ok? <==> action in {"allow", "deny", "skip"} && jurisdiction != ""
      ensures r.Raised? ==> overrides == old(overrides)
      // Only this rule in this jurisdiction is overridden anew.
      ensures r.Ok? ==> forall ctx, rule ::
                OverrideFor(overrides, ctx, rule) ==
                if ctx.jurisdiction == jurisdiction && rule.ruleId == ruleId then Some(Override(action, reason))
                else OverrideFor(old(overrides), ctx, rule)
    {
      if action !in {"allow", "deny", "skip"} {
        return Raised("override action must be allow, deny, or skip");
      }
      if jurisdiction == "" {
        return Raised("jurisdiction must not be empty");
      }
      var bucket := if jurisdiction in overrides then overrides[jurisdiction] else map[];
      overrides := overrides[jurisdiction := bucket[ruleId := Override(action, reason)]];
      r := Ok(());
    }

    /** One loop for both modes: enforcement stops at the first decisive rule. */
    method Evaluate(ctx: Context, simulate: bool) returns (r: Result<Decision>)
      ensures if simulate then Simulated(overrides, ctx, rules, r) else Enforced(overrides, ctx, rules, r)
    {
      hide Verdict, Explain, Explanations, NoDenial, OverrideFor, FirstDecisive, FirstRaising, Simulated, Enforced;
      NothingAsked(overrides, ctx, rules);
      var explanations: seq<Explanation> := [];
      var simulatedWouldAllow := true;
      var winningRuleId: Option<string> := None;
      ghost var k, j := FirstDecisive(overrides, ctx, rules), FirstRaising(overrides, ctx, rules);
      for i := 0 to |rules|
        invariant explanations == Explanations(overrides, ctx, rules[..i])
        invariant simulatedWouldAllow <==> NoDenial(overrides, ctx, rules[..i])
        invariant winningRuleId == if k < i then Some(rules[k].ruleId) else None
        invariant i <= j && (!simulate ==> i <= k)
      {
        var rule := rules[i];
        ExtendPrefix(overrides, ctx, rules, i);
        RuleAlone(overrides, ctx, rule);
        var decision: bool;
        var reason: string;
        if ctx.jurisdiction in overrides && rule.ruleId in overrides[ctx.jurisdiction] {
          var override := overrides[ctx.jurisdiction][rule.ruleId];
          explanations := explanations
            + [Explanation(rule.ruleId, rule.priority, "override_" + override.action, override.reason)];
          if override.action == "skip" {
            continue;
          }
          decision, reason := override.action == "allow", override.reason;
        } else {
          var answer := rule.evaluator(ctx);
          if answer.Raised? {
            RaisedAt(overrides, ctx, rules, i);
            return Raised(answer.error);
          }
          var outcome := answer.value;
          if outcome.decision.None? {
            explanations := explanations + [Explanation(rule.ruleId, rule.priority, "pass", outcome.reason)];
            continue;
          }
          var verdict := if outcome.decision.value then "allow" else "deny";
          explanations := explanations + [Explanation(rule.ruleId, rule.priority, verdict, outcome.reason)];
          decision, reason := outcome.decision.value, outcome.reason;
        }
        if winningRuleId.None? {
          winningRuleId := Some(rule.ruleId);
        }
        if !decision {
          simulatedWouldAllow := false;
        }
        if !simulate {
          DecidedAt(overrides, ctx, rules, i);
          return Ok(Decision(decision, reason, Some(rule.ruleId), false, None, explanations));
        }
      }
      TakeEnds(rules);
      AllAsked(overrides, ctx, rules);
      if simulate {
        return Ok(Decision(true, "simulation mode: no enforcement", winningRuleId, true, Some(simulatedWouldAllow),
                           explanations));
      }
      r := Ok(Decision(true, "allowed", winningRuleId, false, None, explanations));
    }
  }

  /** The answers of both modes, by how the loop ends. */
  lemma RaisedAt(overrides: Overrides, ctx: Context, rules: seq<Rule>, i: nat)
    requires i < |rules| && i <= FirstRaising(overrides, ctx, rules) && Verdict(overrides, ctx, rules[i]).Raised?
    ensures Simulated(overrides, ctx, rules, Raised(Verdict(overrides, ctx, rules[i]).error))
    ensures i <= FirstDecisive(overrides, ctx, rules) ==>
              Enforced(overrides, ctx, rules, Raised(Verdict(overrides, ctx, rules[i]).error))
  {
  }

  lemma DecidedAt(overrides: Overrides, ctx: Context, rules: seq<Rule>, i: nat)
    requires i < |rules| && i <= FirstDecisive(overrides, ctx, rules)
    requires Verdict(overrides, ctx, rules[i]).Ok? && Verdict(overrides, ctx, rules[i]).value.Some?
    ensures Enforced(overrides, ctx, rules,
                     Ok(Decision(Verdict(overrides, ctx, rules[i]).value.value, Explain(overrides, ctx, rules[i]).reason,
                                 Some(rules[i].ruleId), false, None, Explanations(overrides, ctx, rules[..i + 1]))))
  {
    hide Verdict, Explain;
  }

  lemma AllAsked(overrides: Overrides, ctx: Context, rules: seq<Rule>)
    ensures FirstDecisive(overrides, ctx, rules) == |rules| ==>
              Enforced(overrides, ctx, rules, Ok(Decision(true, "allowed", None, false, None, Explanations(overrides, ctx, rules))))
    ensures FirstRaising(overrides, ctx, rules) == |rules| ==>
              var k := FirstDecisive(overrides, ctx, rules);
              Simulated(overrides, ctx, rules,
                        Ok(Decision(true, "simulation mode: no enforcement", if k < |rules| then Some(rules[k].ruleId) else None,
                                    true, Some(NoDenial(overrides, ctx, rules)), Explanations(overrides, ctx, rules))))
  {
    hide Verdict, Explain;
  }

  lemma NothingAsked(overrides: Overrides, ctx: Context, rules: seq<Rule>)
    ensures Explanations(overrides, ctx, rules[..0]) == [] && NoDenial(overrides, ctx, rules[..0])
  {
  }

  /** One rule on one request: what an override or the evaluator makes of it. */
  lemma RuleAlone(overrides: Overrides, ctx: Context, rule: Rule)
    ensures
      if ctx.jurisdiction in overrides && rule.ruleId in overrides[ctx.jurisdiction] then
        var override := overrides[ctx.jurisdiction][rule.ruleId];
        && Explain(overrides, ctx, rule)
           == Explanation(rule.ruleId, rule.priority, "override_" + override.action, override.reason)
        && Verdict(overrides, ctx, rule) == Ok(if override.action == "skip" then None else Some(override.action == "allow"))
      else match rule.evaluator(ctx)
        case Raised(error) => Verdict(overrides, ctx, rule) == Raised(error)
        case Ok(Outcome(decision, reason)) =>
          && Verdict(overrides, ctx, rule) == Ok(decision)
          && Explain(overrides, ctx, rule)
             == Explanation(rule.ruleId, rule.priority,
                            if decision.None? then "pass" else if decision.value then "allow" else "deny", reason)
  {
  }

  lemma ExtendPrefix(overrides: Overrides, ctx: Context, rules: seq<Rule>, i: nat)
    requires i < |rules|
    ensures Explanations(overrides, ctx, rules[..i + 1])
            == Explanations(overrides, ctx, rules[..i]) + [Explain(overrides, ctx, rules[i])]
    ensures NoDenial(overrides, ctx, rules[..i + 1]) <==>
            NoDenial(overrides, ctx, rules[..i]) && Verdict(overrides, ctx, rules[i]) != Ok(Some(false))
  {
    hide Verdict, Explain;
    TakeSnoc(rules, i);
  }

  /** Rules with distinct ids in descending priority are appended one by one. */
  lemma RegisterInOrder(rules: seq<Rule>, i: nat)
    requires UniqueIds(rules) && SortedBy(DescendingPriority, rules) && i < |rules|
    ensures Registered(rules[..i], rules[i]) == rules[..i + 1]
  {
    TakeSnoc(rules, i);
    FilterAll(OtherRule(rules[i].ruleId), rules[..i]);
    SortOfSorted(DescendingPriority, rules[..i + 1]);
  }

  lemma DefaultsListed(riskThreshold: real)
    ensures var rules := DefaultRules(riskThreshold);
      && |rules| == 4
      && rules[0].ruleId == "authorization_required" && rules[0].priority == 100
      && rules[1].ruleId == "region_allowed" && rules[1].priority == 90
      && rules[2].ruleId == "risk_threshold" && rules[2].priority == 80
      && rules[3].ruleId == "action_not_empty" && rules[3].priority == 70
  {
  }

  lemma DefaultsInOrder(riskThreshold: real)
    ensures UniqueIds(DefaultRules(riskThreshold)) && SortedBy(DescendingPriority, DefaultRules(riskThreshold))
    ensures forall i | 0 <= i < |DefaultRules(riskThreshold)| :: DefaultRules(riskThreshold)[i].ruleId != ""
  {
    var ids := ["authorization_required", "region_allowed", "risk_threshold", "action_not_empty"];
    assert |ids[0]| == 22 && |ids[1]| == 14 && |ids[2]| == 14 && |ids[3]| == 16;
    assert ids[1][1] == 'e' && ids[2][1] == 'i';
  }
}
