# Project Mimic: verified model of the in-memory services

Project Mimic runs a set of small stateful services behind its HTTP API. This Dafny project
models the services whose behaviour is hard to see from one function body, and proves what
they guarantee over all inputs, all runs and all reachable states. `dafny verify
dfyconfig.toml` checks everything.

Services that update fields in place are classes whose methods are proved against functions
on values; the properties are lemmas about those functions, or invariants of the classes.

| module | service |
|---|---|
| `Glob`, `PolicyRules`, `PolicyVerification` | the policy rule-conflict verifier: star-only glob languages, the shortcuts that compare prefixes and substitute "sample" for a star, and what a clean report says about every request |
| `WeightedPick`, `MultiRegion` | weighted active-active routing over the ticket space of 16^12 values |
| `ArtifactIndexing`, `Retention`, `Artifacts` | the artifact index, legal holds, writers with fallback, and the two-pass retention sweep |
| `EventStream` | the bounded event log and a consumer that follows it with a cursor |
| `DeployOverlays` | the recursive overlay merge |
| `PolicyEngine` | the ordered rule evaluator and its simulation mode |
| `ProxyPool`, `Identity` | the proxy allocator: weights, round-robin, sticky sessions, quarantine, persisted pool |
| `PrivacyAnalytics`, `Observability`, `DriftDetection` | summaries of event streams: grouped and noised reports, percentiles, drift |
| `TenantLimits`, `Remediation`, `Autoscaling` | rate counters and cooldowns over whole runs |
| `Seqs`, `Dicts` | list filters, Python's stable sort, nested pair loops, ordered dictionaries |

What the code does not do, with the exact condition under which it does:

- A clean conflict report does not imply that rule order is irrelevant: overlaps of patterns
  such as `*x*` and `*y*` are missed (`OverlapMissed`). It does exactly when no opposing rules
  overlap through a pattern with a leading star (`CleanReportExact`). Where all patterns start
  with a literal and end with a star, it decides the question (`CleanReportDecides`).
  In the other direction two opposing rules that select one request are always reported when
  their patterns are anchored or one is free of stars (`OppositionReported`).
- The containment probe accepts `sa*` as containing `*x` (`ContainmentCounterexample`). A
  positive verdict is right exactly when the outer pattern also matches the inner one read as
  a word (`ContainmentRightIffRawMatch`); with no letter of "sample" among the outer literals
  it always is (`ContainmentExactWhenFresh`).
- So a rule reported as shadowed need not be dead (`ShadowedRuleAlive`). A shadowing verdict is
  right exactly when the patterns match raw (`ShadowingCoversExact`), and the reported rules of
  a list can be deleted exactly when that is so for finitely many probe actions
  (`ShadowedRulesDeadExact`).
- The session index of the artifacts breaks when an id is added twice, and only then
  (`AgreesAfterAdd`); likewise when an update changes the session (`AgreesAfterUpdate`).
- A record under legal hold may survive a younger unheld one (`HeldSurvivorMayBeOlder`,
  `HeldSurvivorOutlivesOverflow`). A sweep leaves the newest records of a session exactly when
  no held record of it is older than one that will be removed (`NewestLeftExact`).
- A cursor reader loses events exactly when a poll answers although an unread event was
  evicted (`DeliveryExact`); polling to the end delivers the whole log exactly when that never
  happened and nothing unread was evicted (`PollingCatchesUp`).
- Merging overlays is not associative in general; `AssociativeExact` says when it is.
- `would_allow` is stricter than enforcement exactly when a denial follows the rule that
  allows (`SimulationPredictsEnforcement`), and simulation may raise where enforcement answers
  (`SimulationRaisesMore`).
- Picking a proxy divides by zero exactly when every candidate has a negative weight
  (`PoolEmptyExact`), which non-negative scores and region weights rule out (`AlwaysPicks`).
- With a non-positive quarantine window, the third failure in a row raises after the live
  pool was changed, and the store is left as it was (`RecordProxyHealth`).
- A rejected first call leaves its threshold in a drift series, which then alerts on every
  sample until another threshold is supplied (`LeftoverThresholdAlwaysAlerts`).
- Holds restart the autoscaling cooldown, so a policy asked more often than its cooldown
  never scales again (`FrequentAskingStarves`).

## Model

| member | source | states |
|---|---|---|
| `Glob.MatchesMeansFilling` | src/project_mimic/policy_verification.py:403-406 | the meaning of a pattern in `fnmatchcase`: its words are exactly what replacing each star by some run of characters can give |
| `Glob.StarTakesAnyRun` | src/project_mimic/policy_verification.py:403-406 | the meaning of a star in `fnmatchcase`: a leading star matches exactly when what follows it matches some rest of the word |
| `Glob.FillMatches` | src/project_mimic/policy_verification.py:401-402 | a probe, the pattern with every star replaced by one filler, is always a word of the pattern |
| `Glob.SharedWordComparablePrefixes` | src/project_mimic/policy_verification.py:408-411 | two globs that share a word have comparable literal prefixes, so the prefix test cannot miss a shared word once both prefixes are non-empty |
| `Glob.MatchTransitive` | src/project_mimic/policy_verification.py:414-432 | a pattern that matches another pattern read as a word matches every word of that pattern |
| `Glob.Unfill` | src/project_mimic/policy_verification.py:431-432 | substitution: when no literal of the outer pattern occurs in the probe word, matching the filled inner pattern implies matching the inner pattern itself |
| `Glob.InclusionDecided` | src/project_mimic/policy_verification.py:420-432 | reference decision procedure: inclusion of the two languages holds exactly when the outer pattern matches the inner pattern read as a word |
| `Glob.MeetDecidesIntersection` | src/project_mimic/policy_verification.py:390-412 | reference decision procedure: `Meet` holds exactly when two patterns have a word in common |
| `Glob.ComparableOpenMeet` | src/project_mimic/policy_verification.py:408-411 | patterns that end in a star and have comparable literal prefixes do share a word |
| `PolicyRules.OverlapExplained` | src/project_mimic/policy_verification.py:390-412 | two non-empty patterns overlap exactly when one matches the other with "sample" for every star, or when both start with literals that can start one word; the short ways out change nothing |
| `PolicyRules.OverlapSymmetric` | src/project_mimic/policy_verification.py:390-412 | the answer does not depend on the order of the patterns |
| `PolicyRules.OverlapNeverMissedForLiterals` | src/project_mimic/policy_verification.py:401-406 | with a star-free pattern on one side no real overlap is missed |
| `PolicyRules.OverlapComparesPrefixes` | src/project_mimic/policy_verification.py:390-412 | for patterns starting with a literal, all shortcuts of `_patterns_overlap` together amount to comparing the literal prefixes |
| `PolicyRules.OverlapMissedOnlyBehindLeadingStar` | src/project_mimic/policy_verification.py:390-412 | if the shortcut denies an overlap that exists, one of the patterns is other than `*` and starts with a star |
| `PolicyRules.OverlapExactOnOpenEnded` | src/project_mimic/policy_verification.py:390-412 | on patterns that start with a literal (or are `*`) and end with a star the shortcut is exact: overlap if and only if the languages intersect |
| `PolicyRules.OverlapMissed` | src/project_mimic/policy_verification.py:408-412 | a family of missed overlaps: `*x*` against `*y*` for any two letters outside "sample" |
| `PolicyRules.OverlapFalseAlarm` | src/project_mimic/policy_verification.py:408-411 | a family of false alarms: two star-free patterns, one a proper prefix of the other, never share a word and are reported as overlapping |
| `PolicyRules.ContainmentExplained` | src/project_mimic/policy_verification.py:420-432 | a star-free pattern contains only itself, any other one exactly what it matches with "sample" for every star |
| `PolicyRules.ContainmentNeverMissed` | src/project_mimic/policy_verification.py:420-432 | `_pattern_contains` never misses a true inclusion of languages |
| `PolicyRules.ContainmentRightIffRawMatch` | src/project_mimic/policy_verification.py:428-432 | when the verdict is "contained", it is right exactly if the outer pattern matches the inner pattern read as a word |
| `PolicyRules.ContainmentExactWhenFresh` | src/project_mimic/policy_verification.py:420-432 | when no literal of the outer pattern is a letter of "sample", the verdict holds if and only if every word of the inner pattern is a word of the outer one |
| `PolicyRules.ContainmentCounterexample` | src/project_mimic/policy_verification.py:431-432 | without freshness the probe is fooled: `sa*` is said to contain `*x` and does not |
| `Seqs.CheckPairs` | src/project_mimic/policy_verification.py:179-188 | the nested loops check each of the n(n-1)/2 pairs once, count exactly so many, and keep the results in loop order |
| `Seqs.PairResultsMember` | src/project_mimic/policy_verification.py:181-188 | a conflict is in the list exactly when some pair `i < j` produced it: no pair is skipped and nothing is invented |
| `Seqs.StringLeMeaning` | src/project_mimic/policy_verification.py:157-157 | the order in which ids are sorted: a prefix comes first, otherwise the first difference decides |
| `Dicts.KeepNewestKeeps` | src/project_mimic/policy_verification.py:514-519 | trimming drops entries and changes neither the others nor their order |
| `PolicyVerification.NoOppositionMeaning` | src/project_mimic/policy_verification.py:253-296 | no priority or precedence conflict is reported exactly when all rules the overlap test finds overlapping have the same effect |
| `PolicyVerification.ConflictsExact` | src/project_mimic/policy_verification.py:253-321 | the listed conflicts are exactly those that some pair of rules causes: opposing overlapping rules of equal priority (high) or of different priority (medium), and shadowed ones (low), with the ids in order |
| `PolicyVerification.TrulyOverlapDecides` | src/project_mimic/policy_verification.py:323-351 | reference for `_selectors_overlap`: the jurisdiction, boolean and closed-risk-interval tests together with language intersection hold exactly when some request is selected by both rules |
| `PolicyVerification.OtherSelectorsDecided` | src/project_mimic/policy_verification.py:329-351 | the tests on jurisdictions, flags and risk scores hold exactly when both rules admit some jurisdiction, pair of flags and score together |
| `PolicyVerification.CleanReportExact` | src/project_mimic/policy_verification.py:166-198 | a clean report makes rule order irrelevant for every request if and only if no two opposing rules overlap through a pattern with a leading star |
| `PolicyVerification.CleanReportOrderIrrelevant` | src/project_mimic/policy_verification.py:166-198 | with patterns that are `*` or start with a literal, a clean report means: all rules selecting any request agree on its effect |
| `PolicyVerification.CleanReportDecides` | src/project_mimic/policy_verification.py:166-198 | where the patterns also end in a star, a report is clean if and only if the order of the rules is irrelevant, so an unclean report is never a false alarm |
| `PolicyVerification.ReprioritisingKeepsDecisions` | src/project_mimic/policy_verification.py:177 | where the rules agree on a request, any list with the same rules in another order and with other priorities decides it the same way |
| `PolicyVerification.SeverityShowsOpposition` | src/project_mimic/policy_verification.py:190-198 | the severity is "none" or "low" exactly when the report has no priority and no precedence conflict |
| `PolicyVerification.ReportGuarantee` | src/project_mimic/policy_verification.py:166-216 | for every state of the service: if the participating rules have anchored patterns, a report of severity none or low guarantees that any two of them that select a request have the same effect |
| `PolicyVerification.OppositionReported` | src/project_mimic/policy_verification.py:166-216 | the other direction: two participating rules of opposite effect that select one request, by anchored patterns or with a star-free one, are always listed, with severity high at equal priority and high or medium otherwise |
| `PolicyVerification.SeverityExact` | src/project_mimic/policy_verification.py:190-198 | the severity is none without conflicts, high with a high one, and at least medium with a medium one |
| `PolicyVerification.ReportCounts` | src/project_mimic/policy_verification.py:171-212 | the totals are the numbers of the tenant's stored and enabled rules, and the checked pairs those of the compared ones |
| `PolicyVerification.ShadowingCovers` | src/project_mimic/policy_verification.py:353-388 | where a shadowing verdict is a raw match of the patterns, every request selected by the shadowed rule is selected by the shadowing one |
| `PolicyVerification.ShadowingCoversExact` | src/project_mimic/policy_verification.py:353-388 | a shadowing verdict is right for every request if and only if the higher patterns match the lower ones read as words |
| `PolicyVerification.ShadowingNeverMissed` | src/project_mimic/policy_verification.py:353-388 | a rule of no lower priority that covers every request of another is always found to shadow it |
| `PolicyVerification.FreshShadowingCovers` | src/project_mimic/policy_verification.py:353-388 | with no letter of "sample" among the higher rule's literals every shadowing verdict is such a raw match |
| `PolicyVerification.FreshRightlyShadowed` | src/project_mimic/policy_verification.py:298-319 | so for rule lists whose literals avoid the letters of "sample" every reported shadowing is right |
| `PolicyVerification.ShadowedNeverFirst` | src/project_mimic/policy_verification.py:298-319 | in precedence order, with raw-match shadowings, a rule reported as shadowed is never the first match of any request |
| `PolicyVerification.ShadowedRulesAreDead` | src/project_mimic/policy_verification.py:298-319 | under the same condition deleting every rule reported as shadowed from the ordered list leaves the first match of every request unchanged |
| `PolicyVerification.ShadowedRulesDeadExact` | src/project_mimic/policy_verification.py:298-319 | for any rule list: the reported rules can be deleted without changing a first match if and only if they can be for the finitely many actions that put a fresh letter for each star of a reported pattern |
| `PolicyVerification.ShadowedRuleAlive` | src/project_mimic/policy_verification.py:298-319 | without the condition it fails: of the rules `sa*` and `*x` the second is reported as shadowed, and deleting it leaves the action `x` undecided |
| `PolicyVerification.CandidatesOrdered` | src/project_mimic/policy_verification.py:171-177 | the compared rules are sorted by descending priority and then by id, have distinct ids, and are well-formed |
| `PolicyVerification.CandidatesComplete` | src/project_mimic/policy_verification.py:154-176 | the compared rules are exactly the stored rules of the tenant that are enabled, or all of them if asked for |
| `PolicyVerification.RuleError` | src/project_mimic/policy_verification.py:87-110 | the checks of `upsert_rule` raise nothing exactly for well-formed rules: non-empty ids, allow or deny, patterns, jurisdictions, and a risk interval inside [0, 1] with min at most max |
| `PolicyVerification.NormalizedRule` | src/project_mimic/policy_verification.py:99-101 | patterns and jurisdictions are the given non-empty ones, sorted and without repetition, or the default; the rest of the rule is as given |
| `PolicyVerification.StoredKeepsNewest` | src/project_mimic/policy_verification.py:505-519 | storing a report keeps at most 2000, and none of those kept is older than one that is dropped |
| `PolicyVerification.PolicyVerificationService.UpsertRule` | src/project_mimic/policy_verification.py:71-137 | stores the normalised rule exactly when it is well-formed and changes nothing otherwise; the rule store stays valid |
| `PolicyVerification.PolicyVerificationService.Verify` | src/project_mimic/policy_verification.py:166-216 | returns and stores the report of the current rules; the rules are untouched |
| `WeightedPick.PickIndex` | src/project_mimic/multi_region_control_plane.py:237-244 | the loop stops at the first candidate whose cumulative threshold reaches the ticket; the return after the loop is never reached |
| `WeightedPick.LastThresholdIsOne` | src/project_mimic/multi_region_control_plane.py:237-242 | in exact arithmetic the last threshold is exactly one, whatever the weights |
| `WeightedPick.StopsOnce` | src/project_mimic/multi_region_control_plane.py:237-242 | a ticket stops at one candidate only |
| `WeightedPick.ApportionmentWithinOne` | src/project_mimic/multi_region_control_plane.py:228-244 | over all n tickets the number sent to a candidate differs from n times its share of the total weight by at most one |
| `WeightedPick.EveryTicketCounted` | src/project_mimic/multi_region_control_plane.py:228-244 | the numbers sent to the candidates add up to n |
| `MultiRegion.RoutingIsFair` | src/project_mimic/multi_region_control_plane.py:228-244 | for every reachable set of regions: of all 16^12 tickets the number that select an eligible region is within one of its traffic weight times 16^12 over the sum of the eligible traffic weights |
| `MultiRegion.ChoiceIsUnique` | src/project_mimic/multi_region_control_plane.py:228-244 | a route key selects one region only |
| `MultiRegion.EveryTicketRouted` | src/project_mimic/multi_region_control_plane.py:228-244 | every ticket selects a candidate |
| `MultiRegion.OrderedById` | src/project_mimic/multi_region_control_plane.py:229 | the candidates are asked in the order of their ids |
| `MultiRegion.StopsExplained` | src/project_mimic/multi_region_control_plane.py:230-242 | the loop stops at the first candidate by id at which the traffic weights so far reach the ticket's share of all of them |
| `MultiRegion.EligibleMember` | src/project_mimic/multi_region_control_plane.py:210-226 | the eligible regions are exactly the stored healthy ones enabled for the operation |
| `MultiRegion.SelectPrimaryRegion` | src/project_mimic/multi_region_control_plane.py:246-259 | the primary region is the healthy writable region of least priority, ties broken by id; none if there is none |
| `MultiRegion.PrimaryIffWritesServed` | src/project_mimic/multi_region_control_plane.py:246-259 | there is a primary region exactly when a write can be routed, and it can serve it |
| `MultiRegion.MultiRegionControlPlane.UpsertRegion` | src/project_mimic/multi_region_control_plane.py:65-114 | accepts exactly non-empty ids and endpoints with positive weight and non-negative priority; a re-upsert replaces everything but the health |
| `MultiRegion.MultiRegionControlPlane.UpdateHealth` | src/project_mimic/multi_region_control_plane.py:126-141 | changes only the health of a known region |
| `MultiRegion.MultiRegionControlPlane.WeightedPick` | src/project_mimic/multi_region_control_plane.py:228-244 | the candidate, by id order, at which the key's ticket stops; the first one when no weight is positive |
| `MultiRegion.MultiRegionControlPlane.Route` | src/project_mimic/multi_region_control_plane.py:143-183 | a route succeeds exactly when some region can serve it; a preferred region that can serve is taken, otherwise the weights decide; whatever is selected is healthy and enabled |
| `ArtifactIndexing.NoDuplicateNoDangling` | src/project_mimic/artifacts.py:64-91 | in an agreeing index every bucket is non-empty, without duplicates, and holds exactly the ids of its session |
| `ArtifactIndexing.AgreesAfterAdd` | src/project_mimic/artifacts.py:68-70 | adding keeps the session index equal to the filter over all records if and only if the id is fresh |
| `ArtifactIndexing.AgreesAfterUpdate` | src/project_mimic/artifacts.py:88-91 | updating keeps it if and only if the session stays the same |
| `ArtifactIndexing.AgreesAfterRemove` | src/project_mimic/artifacts.py:78-86 | removing keeps it |
| `ArtifactIndexing.ArtifactIndex.Add` | src/project_mimic/artifacts.py:68-70 | the new record table, and agreement exactly for a fresh id |
| `ArtifactIndexing.ArtifactIndex.Remove` | src/project_mimic/artifacts.py:78-86 | removes the record, drops an emptied bucket, keeps the agreement; an unknown id changes nothing |
| `ArtifactIndexing.ArtifactIndex.Update` | src/project_mimic/artifacts.py:88-91 | raises for an unknown id, otherwise replaces the record in place |
| `ArtifactIndexing.ArtifactIndex.Lookup` | src/project_mimic/artifacts.py:93-116 | a lookup through the buckets returns what filtering all records returns, in the same order, for every combination of filters |
| `Retention.HeldSurviveExpiredDoNot` | src/project_mimic/artifacts.py:325-335 | a held record always survives a sweep and an unheld record past the maximum age never does |
| `Retention.SessionKeepsUpToLimit` | src/project_mimic/artifacts.py:337-355 | a session keeps exactly as many unheld records as it has young ones, up to the limit |
| `Retention.SurvivorsAreNewest` | src/project_mimic/artifacts.py:337-355 | no unheld survivor is older than a removed record of its session |
| `Retention.SurvivorsExact` | src/project_mimic/artifacts.py:321-357 | a record survives if and only if it is neither expired nor overflowing among the young, decided before the sweep; only unheld records go |
| `Retention.NewestLeftExact` | src/project_mimic/artifacts.py:321-357 | no survivor of a session is older than a removed record of it if and only if no held record of the session is older than one that will be removed |
| `Retention.HeldSurvivorMayBeOlder` | src/project_mimic/artifacts.py:325-335 | for every policy: a held record outlives a younger unheld one that is past the maximum age |
| `Retention.HeldSurvivorOutlivesOverflow` | src/project_mimic/artifacts.py:344-355 | for every limit: a held record outlives a younger unheld one that enough newer ones push out |
| `Retention.OverflowByRank` | src/project_mimic/artifacts.py:343-355 | the counter of the inner loop removes an item exactly when its rank among the unheld exceeds the limit |
| `Retention.SurvivalExact` | src/project_mimic/artifacts.py:321-373 | without sorting: a record survives exactly if it is on hold, or it is young enough and fewer than the limit competing records of its session are newer, or as new and listed before it |
| `Retention.SweepIdempotent` | src/project_mimic/artifacts.py:321-357 | sweeping again at the same time removes nothing |
| `Artifacts.SessionStep` | src/project_mimic/artifacts.py:337-355 | sweeping one session does not change what overflows in another, so the order in which the set of sessions is visited does not matter |
| `Artifacts.ArtifactManager.Write` | src/project_mimic/artifacts.py:224-256 | writes through the primary, or the fallback when it fails; raises exactly when both are unavailable, with the error of the one that was tried last, and then changes nothing; the bytes can be read back |
| `Artifacts.ArtifactManager.RegisterUploadedArtifact` | src/project_mimic/artifacts.py:258-276 | registers exactly when the checksum matches and a writer works; otherwise nothing changes |
| `Artifacts.ArtifactManager.ValidateIntegrity` | src/project_mimic/artifacts.py:278-283 | in every reachable state the integrity check of an indexed artifact succeeds |
| `Artifacts.ArtifactManager.ReadContent` | src/project_mimic/artifacts.py:288-291 | an indexed artifact can always be read, and its bytes have the recorded checksum and size |
| `Artifacts.ArtifactManager.SetLegalHold` | src/project_mimic/artifacts.py:293-305 | changes only the hold metadata of one record; afterwards the record is held under any policy that looks at either key |
| `Artifacts.ArtifactManager.ClearLegalHold` | src/project_mimic/artifacts.py:307-315 | the inverse: only the hold metadata changes, and the record is no longer held under the standard keys |
| `Artifacts.ArtifactManager.DeleteRecord` | src/project_mimic/artifacts.py:359-364 | removes the record from index, writer map and the store of its writer together |
| `Artifacts.ArtifactManager.SweepExpired` | src/project_mimic/artifacts.py:325-335 | the first pass leaves the unexpired records in order and counts what it removes |
| `Artifacts.ArtifactManager.SweepOverflow` | src/project_mimic/artifacts.py:337-355 | the second pass, visiting the sessions in an arbitrary order, leaves the records that fit the limit |
| `Artifacts.ArtifactManager.Cleanup` | src/project_mimic/artifacts.py:321-357 | what is left is `Survivors` of the old records, the result is the number removed, and index, writer map and stores still agree |
| `EventStream.EventStreamBroker.Publish` | src/project_mimic/event_stream.py:20-33 | numbers the event one past the log and appends it; the window stays the newest `max_events` of the whole log |
| `EventStream.EventStreamBroker.ListEvents` | src/project_mimic/event_stream.py:35-59 | returns the first unread matching events of the window, oldest first, at most the limit |
| `EventStream.EventStreamBroker.LatestSequence` | src/project_mimic/event_stream.py:74-76 | the length of everything ever published |
| `EventStream.AnswerIsSlice` | src/project_mimic/event_stream.py:35-59 | a non-empty answer is all relevant events of one stretch of the unbounded log, from the cursor or the window's start up to the new cursor |
| `EventStream.PollStep` | src/project_mimic/event_stream.py:35-59 | a poll advances the cursor by one delivered slice after a gap, and the gap holds relevant events exactly when an unread one was evicted |
| `EventStream.DeliveryExact` | src/project_mimic/event_stream.py:14-59 | for every interleaving of publishes and polls: every relevant event up to the cursor is delivered once and in order if and only if no poll skipped an evicted unread event |
| `EventStream.DeliveredMeans` | src/project_mimic/event_stream.py:47-56 | what a complete reader has received is what is in the log up to its cursor with its tenant and type |
| `EventStream.CaughtUpExact` | src/project_mimic/event_stream.py:35-59 | when a poll finds nothing, the reader has exactly the relevant events of the whole log if and only if nothing was skipped and nothing unread is evicted |
| `EventStream.PollingCatchesUp` | src/project_mimic/event_stream.py:35-59 | after any run, as many polls as there are sequence numbers ahead leave nothing to find; the reader then has exactly the relevant events of the whole log if and only if nothing was skipped and nothing unread had been evicted |
| `DeployOverlays.DeepMerge` | src/project_mimic/deploy_overlays.py:11-19 | the updating loop computes the recursive merge, in whatever order the keys are visited, and terminates |
| `DeployOverlays.EmptyIsIdentity` | src/project_mimic/deploy_overlays.py:11-19 | the empty mapping is a two-sided identity |
| `DeployOverlays.Idempotent` | src/project_mimic/deploy_overlays.py:11-19 | merging a mapping into itself changes nothing |
| `DeployOverlays.CoveredExact` | src/project_mimic/deploy_overlays.py:11-19 | a merge leaves no trace of the base if and only if the overlay overwrites all of its paths |
| `DeployOverlays.AssociativeExact` | src/project_mimic/deploy_overlays.py:11-19 | three overlays associate if and only if no key path holds mappings in the first and third but something else in the second, unless the third overwrites all of the first there |
| `DeployOverlays.UnblockedAssociates` | src/project_mimic/deploy_overlays.py:11-19 | in particular they associate when no path is blocked by a non-mapping in the middle |
| `DeployOverlays.NotAssociative` | src/project_mimic/deploy_overlays.py:15-18 | a scalar in the middle overlay breaks associativity |
| `PolicyEngine.ModesAgreeOnAppliedRule` | src/project_mimic/policy.py:103-194 | enforcement and simulation report the same applied rule, and the enforced explanations are a prefix of the simulated ones |
| `PolicyEngine.RuleAlone` | src/project_mimic/policy.py:110-161 | one rule on one request: an override replaces the evaluator, allows, denies or skips, and both are explained by verdict and reason |
| `PolicyEngine.SimulationRaisesMore` | src/project_mimic/policy.py:103-194 | if an evaluator makes enforcement raise, simulation raises the same error; simulation raises where enforcement answers exactly when an evaluator behind the deciding rule raises |
| `PolicyEngine.SimulationPredictsEnforcement` | src/project_mimic/policy.py:103-194 | `would_allow` implies that enforcement allows, and the two differ exactly when a denial follows the rule that allows |
| `PolicyEngine.ModesEqualWithoutAllows` | src/project_mimic/policy.py:103-194 | without allowing rules and overrides `would_allow` of the simulation equals `allowed` of the enforcement |
| `PolicyEngine.RegisteredKeepsOrder` | src/project_mimic/policy.py:82-91 | registration keeps the list sorted by descending priority and replaces only the rule of the same id |
| `PolicyEngine.RegisteredDescends` | src/project_mimic/policy.py:91 | earlier rules never have a lower priority |
| `PolicyEngine.RegisteredKeepsIdsUnique` | src/project_mimic/policy.py:82-91 | registration keeps the ids unique |
| `PolicyEngine.RegisteredIsStable` | src/project_mimic/policy.py:82-91 | among equal priorities the old rules keep their order and the new one comes last |
| `PolicyEngine.DefaultDecision` | src/project_mimic/policy.py:196-241 | a new engine never raises and allows, in both modes, exactly the authorised requests from an allowed region with low risk and a non-empty action |
| `PolicyEngine.PolicyEngine.constructor` | src/project_mimic/policy.py:63-69 | starts with the four default rules in order |
| `PolicyEngine.PolicyEngine.RegisterRule` | src/project_mimic/policy.py:71-91 | the new rule list, keeping unique ids and order; an empty id raises and changes nothing |
| `PolicyEngine.PolicyEngine.SetJurisdictionOverride` | src/project_mimic/policy.py:93-101 | overrides exactly one rule in one jurisdiction, for the three known actions only |
| `PolicyEngine.PolicyEngine.Evaluate` | src/project_mimic/policy.py:103-194 | the one loop meets the description of either mode: first decisive rule, or the verdicts of all; an evaluator's exception ends it |
| `ProxyPool.ScoreMovesTowardsTarget` | src/project_mimic/identity.py:233-238 | scores in [0, 1] stay there; a failure never raises a score above 0.2 and a success never lowers one up to 0.7 |
| `ProxyPool.ScoreExact` | src/project_mimic/identity.py:233-238 | a score keeps three quarters of itself and takes a quarter of the target: 0.2 after a failure, else 1 less up to 0.3 for latencies from 350 to 650 |
| `ProxyPool.ConsecutiveExact` | src/project_mimic/identity.py:340-347 | at least k failures in a row are counted exactly when the last k events are failures |
| `ProxyPool.CappedFailures` | src/project_mimic/identity.py:228-231 | the run of failures seen in the kept end of a history is that of the whole history, up to the limit |
| `ProxyPool.CappedHistoryDecides` | src/project_mimic/identity.py:327-347 | the 50 kept events give the failure rate and the three-failures decision of the whole history |
| `ProxyPool.WeightNonNegative` | src/project_mimic/identity.py:327-338 | with non-negative scores and region weights no proxy weight is negative |
| `ProxyPool.WeightIsStanding` | src/project_mimic/identity.py:327-338 | the weight is score times region weight (with 0.1 for the preferred region) times one minus three quarters of the share of failures among the last ten events; the floor of 0.1 is never reached |
| `ProxyPool.FailuresCost` | src/project_mimic/identity.py:327-338 | at equal score and region, more failures among as many recent events never raise the weight, and lower it for positive factors |
| `ProxyPool.BestIsHeaviest` | src/project_mimic/identity.py:315-321 | the first of the sorted candidates has the greatest weight |
| `ProxyPool.PoolEmptyExact` | src/project_mimic/identity.py:321-323 | the pool is empty, and the choice divides by zero, exactly when every candidate has a negative weight |
| `ProxyPool.CandidatesExact` | src/project_mimic/identity.py:305-311 | candidates are exactly the proxies that are not excluded, and not quarantined unless all of these are |
| `ProxyPool.PoolExact` | src/project_mimic/identity.py:315-322 | the pool holds exactly the candidates of at least 0.85 of every candidate's standing, best first |
| `ProxyPool.PoolMemberIsGood` | src/project_mimic/identity.py:305-323 | a pool member is not excluded, is quarantined only if every non-excluded proxy is, and weighs at least 0.85 of every candidate |
| `ProxyPool.PicksAreRotation` | src/project_mimic/identity.py:323-324 | successive picks from an unchanged pool walk it cyclically from where the index points |
| `ProxyPool.RoundRobin` | src/project_mimic/identity.py:323-324 | as many successive picks as the pool has members choose each member exactly once |
| `Identity.BundleCoherent` | src/project_mimic/identity.py:278-294 | timezone, locale and language of a bundle belong to the region of its proxy, and to no other known one |
| `Identity.EndsAfterEvent` | src/project_mimic/identity.py:228-231 | after an event the kept histories are still the ends of the full ones, and decide about the quarantine like them |
| `Identity.KeptHistoriesGiveFullWeights` | src/project_mimic/identity.py:327-338 | weights computed from the kept histories are those of the full histories |
| `Identity.TurnIsGood` | src/project_mimic/identity.py:296-325 | with the full histories counted: whose turn it is may be picked and has at least 0.85 of the standing of everyone who may be; there is a turn exactly when someone of non-negative standing may be picked |
| `Identity.RebuiltPool` | src/project_mimic/identity.py:132-145 | a pool is rebuilt from the list of its proxies, in the same order |
| `Identity.AlwaysPicks` | src/project_mimic/identity.py:296-338 | in every reachable state with scores in [0, 1] and non-negative region weights a proxy can be picked if and only if one is not excluded: the division by an empty pool does not happen |
| `Identity.Restart` | src/project_mimic/identity.py:138-148 | an allocator built over the store of another has the same pool, histories and quarantines, and so the same candidates and weights |
| `Identity.IdentityAllocator.constructor` | src/project_mimic/identity.py:113-148 | starts from the stored pool if there is one, whatever the length of its histories, otherwise from the given proxies, and leaves the store in step |
| `Identity.IdentityAllocator.PersistPool` | src/project_mimic/identity.py:349-359 | the store holds the live pool |
| `Identity.IdentityAllocator.UnquarantineExpired` | src/project_mimic/identity.py:266-273 | only unexpired quarantines remain, and the store stays in step |
| `Identity.IdentityAllocator.QuarantineProxy` | src/project_mimic/identity.py:250-257 | quarantines a known proxy for a positive time; anything else raises and changes nothing |
| `Identity.IdentityAllocator.PickBestProxy` | src/project_mimic/identity.py:296-325 | succeeds exactly when some candidate has a non-negative weight; picks the pool member whose turn it is, which is a good pick |
| `Identity.IdentityAllocator.Allocate` | src/project_mimic/identity.py:150-168 | a session with an unexpired, unquarantined sticky proxy keeps it; otherwise a good pick becomes sticky; with sound weights it never fails, and errors change no session |
| `Identity.IdentityAllocator.Rotate` | src/project_mimic/identity.py:170-207 | succeeds exactly when the quarantine, if asked for, is possible and another proxy can be picked; leaves the current proxy, sticks to the new one, is audited once with reason and risk score |
| `Identity.IdentityAllocator.RecordProxyHealth` | src/project_mimic/identity.py:209-245 | moves the score, records the event, and quarantines exactly when the full history ends in three failures; the store is in step after every success, and left alone after an error |
| `PrivacyAnalytics.TalliedStep` | src/project_mimic/privacy_analytics.py:244-258 | counting one more event keeps the tallies those of exactly the groups that occur |
| `PrivacyAnalytics.ConservedStep` | src/project_mimic/privacy_analytics.py:226-258 | counting one more event keeps the conservation of number and value |
| `PrivacyAnalytics.TallyAllIsExact` | src/project_mimic/privacy_analytics.py:223-258 | before the cut: exactly the occurring groups, each with its count and sum, in order of first appearance; counts and sums add up to those of the matching events |
| `PrivacyAnalytics.TallyEvents` | src/project_mimic/privacy_analytics.py:223-258 | the grouping loop computes these tallies and the number of matching events |
| `PrivacyAnalytics.CutKeepsLargest` | src/project_mimic/privacy_analytics.py:260-262 | the cut loses only the dropped groups and keeps none smaller than a dropped one |
| `PrivacyAnalytics.NoiseBounded` | src/project_mimic/privacy_analytics.py:294 | the noisy sum is non-negative and within 1/epsilon of the true sum |
| `PrivacyAnalytics.AverageBounded` | src/project_mimic/privacy_analytics.py:301-302 | the noisy average is non-negative and as close to the true average as the noisy sum is to the true sum, divided by the count |
| `PrivacyAnalytics.PublishGroups` | src/project_mimic/privacy_analytics.py:273-305 | the suppression loop shows exactly the groups of sufficient size; shown and suppressed add up |
| `PrivacyAnalytics.PublishedGroup` | src/project_mimic/privacy_analytics.py:273-305 | a shown group is large enough, redacted, and has honest noisy sum and averages |
| `PrivacyAnalytics.ReportAccounts` | src/project_mimic/privacy_analytics.py:307-322 | the report's total is the sum of the group counts; visible plus suppressed is the number of groups up to the limit |
| `PrivacyAnalytics.ReportIsHonest` | src/project_mimic/privacy_analytics.py:191-327 | every shown group is a group of the events that answer the query, with its true count, sum and average, at least the minimum size, with "[redacted]" under exactly the keys to hide and its own values under the others, and with the drawn noise: sum within 1/epsilon, average within 1/(epsilon·count) |
| `PrivacyAnalytics.ReportIsComplete` | src/project_mimic/privacy_analytics.py:260-305 | a large enough group of the events is shown, unless the report has as many groups as allowed and none of these is smaller |
| `PrivacyAnalytics.IngestedKeepsLatest` | src/project_mimic/privacy_analytics.py:367-376 | at most 20000 events are kept; a new one is appended while there is room, afterwards the latest observations are kept, newest first |
| `PrivacyAnalytics.StoredKeepsLatest` | src/project_mimic/privacy_analytics.py:378-389 | at most 2000 reports are kept, none older than a dropped one |
| `PrivacyAnalytics.PrivacyAnalyticsService.UpsertPolicy` | src/project_mimic/privacy_analytics.py:76-131 | accepts exactly positive epsilon, group size and group limit; an empty noise seed becomes the tenant |
| `PrivacyAnalytics.PrivacyAnalyticsService.IngestEvent` | src/project_mimic/privacy_analytics.py:150-189 | accepts exactly non-negative values with tenant and metric, and stores them |
| `PrivacyAnalytics.PrivacyAnalyticsService.GenerateReport` | src/project_mimic/privacy_analytics.py:191-327 | reports on the stored events under the tenant's policy, or the default one, and stores the report |
| `Observability.NearestRank` | src/project_mimic/observability.py:144-151 | for the integer r with r - 1 < p·n/100 <= r the result is a sample that at least r samples do not exceed and fewer than r samples are below |
| `Observability.NearestRankUnique` | src/project_mimic/observability.py:144-151 | only one value has this rank |
| `Observability.PercentileMonotone` | src/project_mimic/observability.py:144-151 | percentiles are monotone in p |
| `Observability.LatencyDescribes` | src/project_mimic/observability.py:153-161 | p95 and p99 of the newest 5000 durations have the ranks 0.95 n and 0.99 n rounded up |
| `Observability.InMemoryMetrics.Record` | src/project_mimic/observability.py:112-119 | counters, totals, status counts and samples stay summaries of everything recorded: number, sum, occurrences, and the last 5000 |
| `Observability.InMemoryMetrics.LatencyPercentiles` | src/project_mimic/observability.py:153-161 | for every recorded path p95, p99 and number of its newest 5000 durations, by rank |
| `DriftDetection.WindowsStep` | src/project_mimic/drift_detection.py:68-77 | the baseline fills first, then the recent window slides |
| `DriftDetection.AcceptedStep` | src/project_mimic/drift_detection.py:59-82 | the online update computes the batch definition of one more call: baseline average, recent window, score, threshold, alert |
| `DriftDetection.RejectedStep` | src/project_mimic/drift_detection.py:45-62 | a rejected call changes nothing of an existing series, but creates a missing one with its own threshold |
| `DriftDetection.ThresholdInForceExact` | src/project_mimic/drift_detection.py:45-62 | the threshold in force is the one asked for if and only if the first call was accepted or a later one supplied a threshold |
| `DriftDetection.LeftoverThresholdAlwaysAlerts` | src/project_mimic/drift_detection.py:79-82 | otherwise every sample after the baseline raises the alert, however close |
| `DriftDetection.ScoreExact` | src/project_mimic/drift_detection.py:76-80 | the score is the distance of the recent mean from the baseline in units of the baseline's size, of 1e-6 at least |
| `DriftDetection.AlertExact` | src/project_mimic/drift_detection.py:68-82 | an alert is raised exactly when the baseline is full and the means differ by at least the threshold times that unit |
| `DriftDetection.DriftMonitor.Ingest` | src/project_mimic/drift_detection.py:30-85 | every series is the batch definition of all calls ever made on it, the rejected ones included |
| `TenantLimits.MinuteLimitHolds` | src/project_mimic/api.py:6141-6156 | no tenant is admitted more often in a minute than the limit |
| `TenantLimits.DailyQuotaHolds` | src/project_mimic/api.py:6158-6172 | no tenant is admitted more often in a day than its quota, and the quota is used up only by admitted requests |
| `TenantLimits.AdmittedExactly` | src/project_mimic/api.py:6141-6172 | a request is admitted exactly when the tenant's requests of that minute and its admissions of that day are below the limits that are on |
| `TenantLimits.MinutesStep` | src/project_mimic/api.py:6142-6148 | deleting stale keys and counting keeps the minute counters equal to the counts over the whole log |
| `TenantLimits.DaysStep` | src/project_mimic/api.py:6159-6165 | likewise for the day counters |
| `TenantLimits.UnchargedStep` | src/project_mimic/api.py:6149-6158 | a request rejected by the minute limit is charged to no day |
| `TenantLimits.TenantLimiter.EnforceTenantLimits` | src/project_mimic/api.py:6138-6174 | under a clock that does not run backwards the response is the one the full request log demands, with its code, message and retry time |
| `Remediation.MatchesApart` | src/project_mimic/autonomous_remediation.py:176-189 | any two matched triggers of a signature are at least the later cooldown apart |
| `Remediation.FiringKeepsSpacing` | src/project_mimic/autonomous_remediation.py:182-189 | a trigger that fires keeps the spacing of all matches, dry runs included |
| `Remediation.UpsertKeepsSpacing` | src/project_mimic/autonomous_remediation.py:113-131 | a re-upsert keeps it too |
| `Remediation.StoredKeepsNewest` | src/project_mimic/autonomous_remediation.py:220-221 | at most 2000 executions are kept, none older than a dropped one |
| `Remediation.AutonomousRemediationService.UpsertSignature` | src/project_mimic/autonomous_remediation.py:80-133 | accepts exactly the valid signatures and keeps the time of the last trigger |
| `Remediation.ResultOf` | src/project_mimic/autonomous_remediation.py:296-349 | an action fails exactly without an executor, when it raises, or when its payload says so; status and details follow |
| `Remediation.AutonomousRemediationService.ExecuteActionPlan` | src/project_mimic/autonomous_remediation.py:265-294 | one result per action, in order |
| `Remediation.AutonomousRemediationService.Trigger` | src/project_mimic/autonomous_remediation.py:149-223 | matches exactly when enabled, over the threshold and not cooling down; a match restarts the cooldown; the whole execution record is determined |
| `Autoscaling.KeptSignalsSuffice` | src/project_mimic/predictive_autoscaling.py:302-325 | the 1000 kept signals give the means and trends of the full history for every look-back of up to 1000 |
| `Autoscaling.StatusExact` | src/project_mimic/predictive_autoscaling.py:302-325 | means are sums over the look-back window divided by its size, trends the difference of its last and first sample |
| `Autoscaling.PressureReaches` | src/project_mimic/predictive_autoscaling.py:221-222 | a pressure reaches a level exactly when the mean reaches that level times the target |
| `Autoscaling.ScalingApart` | src/project_mimic/predictive_autoscaling.py:243-262 | a recommendation to scale comes at least its cooldown after every earlier recommendation, holds included |
| `Autoscaling.FrequentAskingStarves` | src/project_mimic/predictive_autoscaling.py:243-262 | hence a policy that is asked more often than its cooldown never scales again |
| `Autoscaling.AdviceKeepsSpacing` | src/project_mimic/predictive_autoscaling.py:243-262 | a recommendation keeps the spacing |
| `Autoscaling.PolicyError` | src/project_mimic/predictive_autoscaling.py:98-117 | the checks of `upsert_policy`, in order, raise nothing exactly for valid policies |
| `Autoscaling.ConfidenceBounded` | src/project_mimic/predictive_autoscaling.py:252-258 | the confidence is between 0.45 and 1, and at most 0.65 for a hold |
| `Autoscaling.PredictiveAutoscalingService.UpsertPolicy` | src/project_mimic/predictive_autoscaling.py:77-153 | accepts exactly the valid policies, raises the first failing check otherwise, and keeps what was last recommended |
| `Autoscaling.PredictiveAutoscalingService.IngestSignal` | src/project_mimic/predictive_autoscaling.py:165-189 | records a signal; the kept ones are the last 1000 |
| `Autoscaling.PredictiveAutoscalingService.Decide` | src/project_mimic/predictive_autoscaling.py:217-258 | the desired replicas are within the bounds and one step of the bounded current value; scaling happens exactly when the signals ask for it, there is room, and no cooldown runs; the reason, pressures, trends and confidence tell why |
| `Autoscaling.PredictiveAutoscalingService.Recommend` | src/project_mimic/predictive_autoscaling.py:204-283 | a sound and described recommendation, recorded with its time whatever its direction |

## Left out

Abstractions that hold for the whole model:

- Floating point: numbers are exact reals, so rounding errors and `round(…, 6)` are not modelled.
- `strip` and `lower` normalisation, and conversions such as `int(...)` and `str(...)`: arguments are taken as already normalised and well-typed. Blank strings are the empty string.
- SHA-256 and `uuid4`: a digest is an arbitrary function, an id is a parameter that is fresh where the contract says so.
- Clocks: each operation gets one time value. `allocate`, `rotate` and the quarantine methods read the clock several times; the model uses one reading.
- Threads, locks, condition waits and the cleanup scheduler: operations are atomic steps. `wait_for_new_events` is not modelled.
- JSON files and in-memory stores, except the proxy pool store: state is not saved and reloaded.
- Time stamps such as `created_at` and `updated_at`, metadata, summaries and hints that no decision reads are not carried.
- Exceptions carry a message only; most contracts state when an operation raises and what it then leaves unchanged, not the words of the message.
- Constructor checks (`max_events`, windows, thresholds, empty proxy list) are preconditions of the constructors.
- Routes, pydantic models, HTML, middleware, webhooks, audit sinks and all other services of the repository: plumbing or single-branch checks.

Members that say less than the code, or cover part of it:

- Glob.Matches: `?` and bracket patterns of `fnmatchcase` are not modelled; theorems about whole rule sets name this fragment as `StarOnlyPatterns`.
- PolicyVerification.CleanReportOrderIrrelevant: the repository does not evaluate these rules itself; that a request is decided by the first match in precedence order is the reading that the report's own texts suggest.
- PolicyVerification.ShadowingCoversExact: needs a letter outside the higher rule's patterns, as do the other statements about fresh letters; patterns that use every character are not covered.
- PolicyVerification.ShadowedRulesDeadExact: only the action of a request is reduced to finitely many cases; jurisdiction, flags and risk score stay arbitrary.
- MultiRegion.SelectPrimaryRegion: the rest of the topology snapshot is lists and counts of the same filters.
- ArtifactIndexing.ArtifactIndex.Lookup: a missing metadata key and a filter value of `None` are not distinguished, since metadata values are strings.
- Artifacts.ArtifactManager.Write: a writer is a store of bytes per artifact id, which both the dictionary and the directory writer are; paths, half-finished writes and files changed by others are not modelled, and a writer's failure is a parameter.
- Retention.SurvivorsAreNewest: speaks of unheld survivors only; for all survivors `Retention.NewestLeftExact` has the exact condition.
- EventStream.EventStreamBroker.Publish: a deque with a maximum length is a sequence cut to its newest elements.
- DeployOverlays.DeepMerge: mappings are compared without their key order, as Python compares them, and all values that are not mappings are texts. Loading YAML is left out.
- PolicyEngine.PolicyEngine.Evaluate: rule evaluators are functions, so an evaluator that answers differently the second time is not covered.
- Identity.IdentityAllocator.Rotate: `calculate_risk_score` and the fixed browser fields of a bundle are left out.
- Identity.Restart: sticky sessions and the round-robin index are not persisted, so the first pick after a restart may differ.
- PrivacyAnalytics.PrivacyAnalyticsService.GenerateReport: a group is a mapping instead of its JSON text.
- Observability.InMemoryMetrics.Record: feature results and the rendering of metrics are left out.
- DriftDetection.DriftMonitor.Ingest: `recent_mean` in the status is computed from the modelled window and not carried.
- TenantLimits.TenantLimiter.EnforceTenantLimits: request ids and headers of the response are left out.
- Remediation.AutonomousRemediationService.Trigger: the executor is a function of the action and its context, and details are texts.
