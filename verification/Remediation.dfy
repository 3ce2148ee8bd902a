/** Autonomous remediation: signatures, triggers under a cooldown, and the execution history. */
module Remediation {
  import opened Seqs
  import opened Dicts

  datatype Action = Action(actionType: string, parameters: map<string, string>)

  datatype Signature = Signature(
    signatureId: string, tenantId: string, incidentClass: string, failureCode: string, threshold: real,
    cooldownSeconds: int, enabled: bool, actionPlan: seq<Action>, lastTriggeredAt: Option<real>)

  datatype Reason =
    | BelowThreshold | SignatureDisabled | CooldownActive | DryRun
    | ActionsExecuted | NoActionsConfigured | ActionsPartiallyFailed

  datatype ActionResult = ActionResult(actionType: string, success: bool, status: string, details: string)

  datatype Execution = Execution(
    executionId: string, signatureId: string, tenantId: string, incidentClass: string, failureCode: string,
    observedValue: real, threshold: real, matched: bool, executed: bool, reason: Reason,
    initiatedBy: string, signalLabel: string, actionResults: seq<ActionResult>, context: map<string, string>,
    createdAt: real)

  const EXECUTION_LIMIT := 2000

  function ExecutionId(e: Execution): string {
    e.executionId
  }

  predicate NewerExecution(a: Execution, b: Execution) {
    a.createdAt >= b.createdAt
  }

  /** What an executor makes of one action: any value, a payload with optional verdict, or an exception. */
  datatype ActionOutcome =
    | Plain(result: string)
    | Payload(success: Option<bool>, status: Option<string>, details: string)
    | RaisedError(message: string)

  /** What the executor is told besides the action. */
  datatype ActionContext = ActionContext(
    signatureId: string, tenantId: string, incidentClass: string, context: map<string, string>)

  type Executor = (Action, ActionContext) -> ActionOutcome

  function Told(signature: Signature, context: map<string, string>): ActionContext {
    ActionContext(signature.signatureId, signature.tenantId, signature.incidentClass, context)
  }

  /** Without an executor, or when it raises or says so, the action fails; otherwise it succeeds. */
  function ResultOf(executor: Option<Executor>, action: Action, told: ActionContext): (r: ActionResult)
    ensures r.actionType == action.actionType
    ensures r.success <==> executor.Some? && !executor.value(action, told).RaisedError?
                           && (executor.value(action, told).Payload? ==> executor.value(action, told).success != Some(false))
    // a payload may name a status of its own
    ensures executor.Some? && executor.value(action, told).Payload? && executor.value(action, told).status.Some?
            ==> r.status == executor.value(action, told).status.value
    ensures !(executor.Some? && executor.value(action, told).Payload? && executor.value(action, told).status.Some?)
            ==> r.status == if r.success then "succeeded" else "failed"
  {
    if executor.None? then ActionResult(action.actionType, false, "failed", "no action executor configured")
    else
      match executor.value(action, told)
      case RaisedError(message) => ActionResult(action.actionType, false, "failed", message)
      case Plain(result) => ActionResult(action.actionType, true, "succeeded", result)
      case Payload(verdict, status, details) =>
        var success := verdict.None? || verdict.value;
        ActionResult(action.actionType, success,
                     if status.Some? then status.value else if success then "succeeded" else "failed", details)
  }

  function ActionResults(executor: Option<Executor>, plan: seq<Action>, told: ActionContext): seq<ActionResult> {
    seq(|plan|, i requires 0 <= i < |plan| => ResultOf(executor, plan[i], told))
  }

  predicate CooldownRunning(signature: Signature, now: real) {
    signature.cooldownSeconds > 0 && signature.lastTriggeredAt.Some?
    && now - signature.lastTriggeredAt.value < signature.cooldownSeconds as real
  }

  /** When a trigger matches. */
  predicate Fires(signature: Signature, observedValue: real, now: real) {
    && signature.enabled && observedValue >= signature.threshold
    && (signature.cooldownSeconds <= 0 || signature.lastTriggeredAt.None?
        || now >= signature.lastTriggeredAt.value + signature.cooldownSeconds as real)
  }

  // ---------- spacing over whole runs ----------

  /** A matched trigger and the cooldown that was in force then. */
  datatype Match = Match(time: real, cooldown: int)

  /** Each match comes after the previous one, by at least the cooldown in force. */
  ghost predicate Spaced(matches: seq<Match>) {
    forall i | 0 < i < |matches| ::
      matches[i].time >= matches[i - 1].time && matches[i].time - matches[i - 1].time >= matches[i].cooldown as real
  }

  /** Any two matches of a signature are at least the later cooldown apart. */
  lemma {:induction false} MatchesApart(matches: seq<Match>, i: nat, j: nat)
    requires Spaced(matches) && i < j < |matches|
    ensures matches[j].time - matches[i].time >= matches[j].cooldown as real
    ensures matches[j].time >= matches[i].time
  {
    if i < j - 1 {
      MatchesApart(matches, i, j - 1);
    }
  }

  predicate LastIs(matches: seq<Match>, lastTriggeredAt: Option<real>) {
    if matches == [] then lastTriggeredAt.None?
    else lastTriggeredAt == Some(matches[|matches| - 1].time)
  }

  function MatchesOf(matches: map<string, seq<Match>>, id: string): seq<Match> {
    if id in matches then matches[id] else []
  }

  /** The recorded matches of a signature are spaced, end at its last trigger, and lie in the past. */
  ghost predicate Recorded(signature: Signature, matches: seq<Match>, clock: real) {
    && signature.cooldownSeconds >= 0
    && Spaced(matches) && LastIs(matches, signature.lastTriggeredAt)
    && (matches != [] ==> matches[|matches| - 1].time <= clock)
  }

  ghost predicate Consistent(signatures: map<string, Signature>, matches: map<string, seq<Match>>, clock: real) {
    && matches.Keys <= signatures.Keys
    && forall id | id in signatures ::
         signatures[id].signatureId == id && Recorded(signatures[id], MatchesOf(matches, id), clock)
  }

  lemma FiringIsSpaced(signature: Signature, matches: seq<Match>, clock: real, observedValue: real, now: real)
    requires Recorded(signature, matches, clock) && now >= clock && Fires(signature, observedValue, now)
    ensures Recorded(signature.(lastTriggeredAt := Some(now)), matches + [Match(now, signature.cooldownSeconds)], now)
  {
  }

  lemma FiringKeepsSpacing(
      signatures: map<string, Signature>, matches: map<string, seq<Match>>, clock: real, id: string,
      observedValue: real, now: real)
    requires Consistent(signatures, matches, clock) && id in signatures && now >= clock
    requires Fires(signatures[id], observedValue, now)
    ensures Consistent(signatures[id := signatures[id].(lastTriggeredAt := Some(now))],
                       matches[id := MatchesOf(matches, id) + [Match(now, signatures[id].cooldownSeconds)]], now)
  {
    FiringIsSpaced(signatures[id], MatchesOf(matches, id), clock, observedValue, now);
    TimePasses(signatures, matches, clock, now);
    hide Recorded, Fires;
  }

  lemma TimePasses(signatures: map<string, Signature>, matches: map<string, seq<Match>>, clock: real, now: real)
    requires Consistent(signatures, matches, clock) && now >= clock
    ensures Consistent(signatures, matches, now)
  {
  }

  lemma UpsertKeepsSpacing(
      signatures: map<string, Signature>, matches: map<string, seq<Match>>, clock: real, signature: Signature)
    requires Consistent(signatures, matches, clock) && signature.cooldownSeconds >= 0
    requires signature.lastTriggeredAt == (if signature.signatureId in signatures
                                           then signatures[signature.signatureId].lastTriggeredAt else None)
    ensures Consistent(signatures[signature.signatureId := signature], matches, clock)
  {
    hide Spaced;
    NoMatches();
  }

  lemma NoMatches()
    ensures Spaced([])
  {
  }

  ghost predicate ValidExecutions(executions: Dict<string, Execution>) {
    Valid(executions) && Keyed(executions, ExecutionId) && |executions.order| <= EXECUTION_LIMIT
  }

  function Stored(executions: Dict<string, Execution>, e: Execution): Dict<string, Execution>
    requires Valid(executions)
  {
    KeepNewest(Put(executions, e.executionId, e), NewerExecution, ExecutionId, EXECUTION_LIMIT)
  }

  /** The history keeps its bound, and keeps nothing older than what it drops. */
  lemma StoredKeepsNewest(executions: Dict<string, Execution>, e: Execution)
    requires ValidExecutions(executions)
    ensures ValidExecutions(Stored(executions, e))
    ensures var all := Put(executions, e.executionId, e);
      |Stored(executions, e).order| == if |all.order| <= 2000 then |all.order| else 2000
    ensures forall kept, dropped |
              && kept in Stored(executions, e).entries
              && dropped in Put(executions, e.executionId, e).entries && dropped !in Stored(executions, e).entries ::
              Put(executions, e.executionId, e).entries[kept].createdAt
              >= Put(executions, e.executionId, e).entries[dropped].createdAt
  {
    var all := Put(executions, e.executionId, e);
    KeepNewestSize(all, NewerExecution, ExecutionId, EXECUTION_LIMIT);
    hide KeepNewest, Values;
    forall kept, dropped |
      kept in Stored(executions, e).entries && dropped in all.entries && dropped !in Stored(executions, e).entries
      ensures all.entries[kept].createdAt >= all.entries[dropped].createdAt
    {
      KeepNewestKeepsNewest(all, NewerExecution, ExecutionId, EXECUTION_LIMIT, kept, dropped);
    }
  }

  class AutonomousRemediationService {
    var signatures: map<string, Signature>
    var executions: Dict<string, Execution>
    ghost var matches: map<string, seq<Match>>
    ghost var clock: real

    ghost predicate Invariant()
      reads this
    {
      && Consistent(signatures, matches, clock)
      && ValidExecutions(executions)
    }

    constructor (clock: real)
      ensures Invariant() && signatures == map[] && matches == map[] && this.clock == clock
    {
      signatures, executions, matches, this.clock := map[], Empty(), map[], clock;
    }

    /** A re-upsert keeps the time of the last trigger, so it does not shorten the cooldown. */
    method UpsertSignature(arguments: Signature) returns (r: Result<Signature>)
      requires Invariant()
      modifies this`signatures
      ensures Invariant()
      ensures r.Ok? <==>
              && arguments.signatureId != "" && arguments.tenantId != "" && arguments.incidentClass != ""
              && arguments.threshold >= 0.0 && arguments.cooldownSeconds >= 0
              && arguments.actionPlan != [] && forall a | a in arguments.actionPlan :: a.actionType != ""
      ensures r.Raised? ==> signatures == old(signatures)
      ensures r.Ok? ==>
                && signatures == old(signatures)[arguments.signatureId := r.value]
                && r.value == arguments.(lastTriggeredAt :=
                     if arguments.signatureId in old(signatures)
                     then old(signatures)[arguments.signatureId].lastTriggeredAt else None)
    {
      hide Consistent, Spaced, LastIs;
      if arguments.signatureId == "" {
        return Raised("signature_id must not be empty");
      }
      if arguments.tenantId == "" {
        return Raised("tenant_id must not be empty");
      }
      if arguments.incidentClass == "" {
        return Raised("incident_class must not be empty");
      }
      if arguments.threshold < 0.0 {
        return Raised("threshold must be non-negative");
      }
      if arguments.cooldownSeconds < 0 {
        return Raised("cooldown_seconds must be non-negative");
      }
      if arguments.actionPlan == [] {
        return Raised("action_plan must include at least one action");
      }
      if exists a | a in arguments.actionPlan :: a.actionType == "" {
        return Raised("action_type must not be empty");
      }
      var id := arguments.signatureId;
      var last := if id in signatures then signatures[id].lastTriggeredAt else None;
      var signature := arguments.(lastTriggeredAt := last);
      UpsertKeepsSpacing(signatures, matches, clock, signature);
      signatures := signatures[id := signature];
      r := Ok(signature);
    }

    method ExecuteActionPlan(executor: Option<Executor>, plan: seq<Action>, told: ActionContext)
      returns (results: seq<ActionResult>)
      ensures results == ActionResults(executor, plan, told)
    {
      results := [];
      for i := 0 to |plan|
        invariant results == ActionResults(executor, plan[..i], told)
      {
        results := results + [ResultOf(executor, plan[i], told)];
      }
      assert plan[..|plan|] == plan;
    }

    method Trigger(
        signatureId: string, tenantId: string, observedValue: real, signalLabel: string, execute: bool,
        initiatedBy: string, context: map<string, string>, executor: Option<Executor>, executionId: string, now: real)
      returns (r: Result<Execution>)
      requires Invariant() && now >= clock
      modifies this
      ensures Invariant() && clock == now
      ensures r.Ok? <==>
              && signatureId != "" && tenantId != ""
              && signatureId in old(signatures) && old(signatures)[signatureId].tenantId == tenantId
              && observedValue >= 0.0 && signalLabel != ""
      ensures r.Raised? ==> signatures == old(signatures) && matches == old(matches) && executions == old(executions)
      // A match restarts the cooldown, also in a dry run; anything else leaves it alone.
      ensures r.Ok? ==>
                var signature := old(signatures)[signatureId];
                && r.value == Execution(
                     executionId, signatureId, tenantId, signature.incidentClass, signature.failureCode,
                     observedValue, signature.threshold, Fires(signature, observedValue, now),
                     Fires(signature, observedValue, now) && execute,
                     ReasonFor(signature, observedValue, execute, r.value.actionResults, now),
                     if initiatedBy == "" then "autonomous-remediation" else initiatedBy, signalLabel,
                     r.value.actionResults, context, now)
                && r.value.actionResults == (if r.value.executed
                                             then ActionResults(executor, signature.actionPlan,
                                                                ActionContext(signature.signatureId, tenantId, signature.incidentClass, context))
                                             else [])
                && signatures == (if r.value.matched
                                  then old(signatures)[signatureId := signature.(lastTriggeredAt := Some(now))]
                                  else old(signatures))
                && matches == (if r.value.matched
                               then old(matches)[signatureId := MatchesOf(old(matches), signatureId)
                                                                + [Match(now, signature.cooldownSeconds)]]
                               else old(matches))
                && executions == Stored(old(executions), r.value)
    {
      hide Consistent, Spaced, LastIs, Stored, Valid, Keyed, MatchesOf, ActionResults;
      TimePasses(signatures, matches, clock, now);
      ghost var before := clock;
      clock := now;
      if signatureId == "" {
        return Raised("signature_id must not be empty");
      }
      if tenantId == "" {
        return Raised("tenant_id must not be empty");
      }
      if signatureId !in signatures {
        return Raised("signature not found");
      }
      var signature := signatures[signatureId];
      if signature.tenantId != tenantId {
        return Raised("signature does not belong to tenant");
      }
      if observedValue < 0.0 {
        return Raised("observed_value must be non-negative");
      }
      if signalLabel == "" {
        return Raised("signal_label must not be empty");
      }
      var reason, matched, executed, actionResults := BelowThreshold, false, false, [];
      if !signature.enabled {
        reason := SignatureDisabled;
      } else if observedValue < signature.threshold {
        reason := BelowThreshold;
      } else if CooldownRunning(signature, now) {
        reason := CooldownActive;
      } else {
        matched := true;
        FiringKeepsSpacing(signatures, matches, now, signatureId, observedValue, now);
        matches := matches[signatureId := MatchesOf(matches, signatureId) + [Match(now, signature.cooldownSeconds)]];
        signatures := signatures[signatureId := signature.(lastTriggeredAt := Some(now))];
        if !execute {
          reason := DryRun;
        } else {
          reason, executed := ActionsExecuted, true;
          actionResults := ExecuteActionPlan(executor, signature.actionPlan, Told(signature, context));
          if actionResults == [] {
            reason := NoActionsConfigured;
          } else if exists result | result in actionResults :: !result.success {
            reason := ActionsPartiallyFailed;
          }
        }
      }
      var initiator := if initiatedBy == "" then "autonomous-remediation" else initiatedBy;
      var execution := Execution(executionId, signatureId, tenantId, signature.incidentClass, signature.failureCode,
                                 observedValue, signature.threshold, matched, executed, reason,
                                 initiator, signalLabel, actionResults, context, now);
      StoredKeepsNewest(executions, execution);
      executions := Stored(executions, execution);
      r := Ok(execution);
    }
  }

  function ReasonFor(signature: Signature, observedValue: real, execute: bool, actionResults: seq<ActionResult>, now: real): Reason {
    if !signature.enabled then SignatureDisabled
    else if observedValue < signature.threshold then BelowThreshold
    else if !Fires(signature, observedValue, now) then CooldownActive
    else if !execute then DryRun
    else if actionResults == [] then NoActionsConfigured
    else if exists r | r in actionResults :: !r.success then ActionsPartiallyFailed
    else ActionsExecuted
  }
}
