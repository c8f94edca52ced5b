# Verification of the FPL engine's core protocols and algorithms

The engine publishes reports about a fantasy football squad. Around that it runs protocols and
algorithms whose correctness is not visible in any single function: several verifiers update one
pointer document with compare-and-swap, two clocks and a recovery job start the same report slots, a
transfer search prunes its candidates before it tries them, a settlement pass substitutes players
greedily, a validator re-checks numbers that were rounded when they were printed. This project models
these parts in Dafny and proves what they keep, over all inputs, runs and interleavings.

`dafny verify dfyconfig.toml` checks everything. Each file models one part:

| file | part |
|---|---|
| `VerifiedPointer.dfy` | the verified pointer: merge, the retry loop, every interleaving of callers |
| `ParetoPool.dfy`, `TransferSearch.dfy`, `PairPruning.dfy`, `PackageFrontier.dfy` | candidate pruning, step-by-step legality and cash of transfers, what pruning does to pairs, the package frontier |
| `Autosub.dfy` | automatic substitutions and the score of a final gameweek |
| `SlotCalendar.dfy`, `Recovery.dfy`, `Announcement.dfy`, `Dispatch.dfy`, `RecoveryPipeline.dfy` | report slots over two time zones, audit, recovery plan, announcements, at-most-once dispatch, and all of it end to end |
| `FixtureLifecycle.dfy` | fixture states, gameweek modes and what successive runs report |
| `Availability.dfy` | the availability tree, its rounding and its validator |
| `DependencyLocks.dfy` | the walk over hash-locked requirement files |
| `BridgeIndex.dfy`, `IdentityReaders.dfy`, `IdentityCandidates.dfy`, `IdentityBuild.dfy` | bridge indexes, the identity candidates built from them, and the whole build |
| `Observations.dfy` | intake, deduplication and accounting of observations |
| `Common.dfy` | options, counting, sorting, filtering, undominated members of an order |

## Conventions

- Instants are integers (seconds in the slot calendar, any fixed unit elsewhere), prices are integer
  tenths, points and probabilities are real numbers. Europe/London is a day-indexed offset of 0 or 60
  minutes, Asia/Jakarta a fixed 420.
- Loops that update variables are methods with invariants; each is proved against a function or a
  property, and the theorems are lemmas about those.
- Missing or unparsable fields are `None`, raised errors are `Err`.
- The sha that guards a put is modelled as the text it hashes, so two different texts never share one.

## Results where the code differs from what one would expect

- The tolerant dominance test is exact when metric values are equal or differ by more than 1e-9, and
  pruning then loses nothing (`PruningCovers`). In general pruning keeps, in every pool drawn from given
  rows, each row or a kept dominator of it if and only if the test is transitive on the rows
  (`SafeIffTransitive`). A chain of three rows whose last one is lost shows that it can fail
  (`ChainIsLost`). The weaker promise that no group vanishes holds exactly when the rows can be listed
  with none dominated by a later one (`NoneVanishesIffListable`); three rows in a circle do vanish
  (`CircleVanishes`).
- Pruning loses no single transfer, but it can lose a pair. A legal pair keeps a legal counterpart
  exactly when its incoming players have two different kept counterparts (`PairSurvivesIff`), which is
  always so across clubs or positions (`PairsAcrossGroupsSurvive`); a pair from one club and position
  that is lost is given (`PairIsLost`).
- Three retries protect three concurrent verifiers and no more (`RetryBudgetIsExact`).
- When a bonus is final the lifecycle says that the gameweek is over exactly when every `started` flag
  is a boolean (`BonusFinalMeansOver`); a finished fixture without that flag leaves the lifecycle at
  PRE_DEADLINE (`BonusWithoutLifecycle`).
- Candidates and unresolved ids of the identity build partition the gaps exactly when no candidate's
  native id has leading zeros (`UnresolvedIff`). On given gaps this holds for every successful build,
  whatever the bridges, if and only if no gap has leading zeros (`GapsAreSafeIff`); the gap 07 is an
  example where it fails (`PaddedGapExample`).
- A tick in a slot's window resolves to it except in the five minutes shared by DEEP 04:30 and PRICE
  05:30 WIB in British summer time (`TickResolvesIff`), such as 05:27 (`TickIsShadowed`).
- Validation returns a state unchanged exactly when it is what the builder publishes for conditionals of
  at most eight decimals (`FixedPointIff`). The state validated from a claim is settled at once exactly
  when rounding the claim's conditionals first prints the same outcomes (`ClaimSettlesIff`), as it does
  for at most eight decimals (`GridClaimSettles`); an accepted claim that drifts is given
  (`FinerClaimsDrift`). The second validation always settles (`ValidationSettles`).
- `select` does not check that a candidate's id fits its mode and slot. The comment announces the run
  that is started exactly when it does (`RunIsAnnouncedIff`), and what the plan writes always does
  (`OutputIsGenuine`).
- A pair of transfers needs one of the two to be legal on its own; two legal singles with a legal final
  squad and enough cash are therefore always executable, in some order (`PairIff`, `PairOfSingles`).

## Model

| member | source | states |
|---|---|---|
| PointerMerge.MergeMovesOn | ops/verified_pointer.py:230-253 | An ADVANCED merge keeps every other mode and moves its own mode to a strictly later slot |
| PointerMerge.MergeReachesEntry | ops/verified_pointer.py:230-253 | After any merge the mode's slot is at least the submitted one, and without ADVANCED the text is unchanged |
| PointerMerge.AnswerIff | ops/verified_pointer.py:230-253 | A merge answers with the one action that is true of the text: NOOP for the same slot, occurrence and body, REFUSED_IMMUTABLE for the same slot with another, REFUSED_OLDER for a later slot, ADVANCED otherwise |
| PointerMerge.PublishedTwiceIsNoop | ops/verified_pointer.py:238-243 | Submitting an entry again after it was published leaves the text as it is and answers NOOP |
| PointerMerge.ChangedBodyIsRefused | ops/verified_pointer.py:238-243 | Submitting another occurrence or body for a published slot leaves the text as it is and answers REFUSED_IMMUTABLE |
| PointerProtocol.NoTextRecurs | ops/verified_pointer.py:256-277 | Over every interleaving no pointer text ever comes back, so an unchanged sha means that nobody wrote in between |
| PointerProtocol.EveryWriteIsSound | ops/verified_pointer.py:256-277 | Over every interleaving each put is the merge applied to the text it replaces: other modes stay, the slot grows, `sequence` grows by one, `supersedes` names the replaced entry; a call writes once exactly when it reports ADVANCED, and never otherwise |
| PointerProtocol.EveryAnswerIsTrue | ops/verified_pointer.py:256-277 | Over every interleaving each answer is true of a text that the call read, and the put of an ADVANCED call directly follows that text |
| PointerProtocol.ForeignSchemaIsKept | ops/verified_pointer.py:259-262 | Over every interleaving a document of another schema is never overwritten, and every call that ends says so |
| PointerProtocol.SequenceCountsWrites | ops/verified_pointer.py:245-251 | `sequence` of a mode is its initial value plus the number of writes for that mode |
| PointerProtocol.FailuresAreForeignWrites | ops/verified_pointer.py:268-276 | Each failed attempt is matched by its own write of another caller, so a call among n fails at most n - 1 times |
| PointerProtocol.NeverExhausted | ops/verified_pointer.py:256-277 | With at most three callers no call ends in CAS_RETRIES_EXHAUSTED |
| PointerProtocol.RetryBudgetIsExact | ops/verified_pointer.py:44 | No schedule exhausts anybody if and only if there are at most three callers |
| PointerProtocol.SixTurnsSuffice | ops/verified_pointer.py:258-277 | Six steps of its own end a call, whatever the others do |
| PointerProtocol.FinalSlotIsNewest | ops/verified_pointer.py:256-277 | When all calls have answered and none was exhausted, each mode holds the maximum of the initial and all submitted slots, whatever the schedule |
| PointerAdvance.Advance | ops/verified_pointer.py:256-277 | The retry loop on a mutable store leaves the text and returns the outcome that the interfering writes determine |
| PointerAdvance.AdvanceIsAtomic | ops/verified_pointer.py:256-277 | A call acts at one point between the others' calls as one single merge, changes nothing unless it reports ADVANCED, and gives an answer that is true of the text at that point |
| PointerAdvance.UndisturbedAttemptEnds | ops/verified_pointer.py:258-277 | One attempt without a foreign write between its get and its put ends the call |
| PointerAdvance.LandIsTwoSteps | ops/verified_pointer.py:256-277 | The interference assumed by the loop is what two uninterrupted steps of the state machine do |
| Autosub.LegalIffBalanced | src/engines/gameweek_lifecycle_intelligence.py:8-12 | For eleven players of a 2/5/5/3 squad the eight formations are exactly one goalkeeper and at least 3/2/1 outfield players |
| Autosub.Substitute | src/engines/gameweek_lifecycle_intelligence.py:146-177 | The goalkeeper swap and the in-place pass over the starters compute the specified settlement |
| Autosub.PicksDecide | src/engines/gameweek_lifecycle_intelligence.py:137-138 | Picks up to 11 start; the others form the bench, ordered by pick and among equal picks by row |
| Autosub.GoalkeeperFirst | src/engines/gameweek_lifecycle_intelligence.py:146-153 | In a final gameweek an absent first goalkeeper gives way to the first goalkeeper of the bench exactly when that one played; before it is final nothing changes |
| Autosub.FirstOnTheBench | src/engines/gameweek_lifecycle_intelligence.py:155-177 | Each absent starter, in turn, gives way to the first reserve of the bench order who is unused, played and keeps the eleven legal, and to nobody when there is none |
| Autosub.CarryForwardScore | src/engines/gameweek_lifecycle_intelligence.py:128-189 | Both UNAVAILABLE answers arise exactly from a wrong shape or missing data; otherwise the result is the specified score |
| Autosub.SettlementIsSound | src/engines/gameweek_lifecycle_intelligence.py:146-177 | Eleven distinct squad members in a legal formation, equal to starters minus outs plus ins; nobody who played goes off; every substitute comes on once and played |
| Autosub.NothingLeftToSwap | src/engines/gameweek_lifecycle_intelligence.py:156-177 | At the end no absent starter can legally be replaced by an unused reserve who played |
| Autosub.PassIsMaximum | src/engines/gameweek_lifecycle_intelligence.py:156-177 | The single greedy pass makes as many substitutions as any legal settlement could |
| Autosub.SettledIsAlternative | src/engines/gameweek_lifecycle_intelligence.py:156-177 | The settled eleven is itself one of those legal settlements, so the bound is attained |
| Autosub.PointsConserved | src/engines/gameweek_lifecycle_intelligence.py:146-180 | For any submitted rows the settled total is the starters' total plus what came on minus what went off |
| Autosub.ArmbandIs | src/engines/gameweek_lifecycle_intelligence.py:181-189 | The effective captain is the first row flagged captain if he played; otherwise the first row flagged vice exactly when the gameweek is final and he played; otherwise nobody |
| Autosub.TwoPicks | src/engines/gameweek_lifecycle_intelligence.py:128-189 | A captain with 10 points and a vice with 2 who both played score 22; with the captain absent the vice wears the armband only in a final gameweek |
| Autosub.FinalScoreExplained | src/engines/gameweek_lifecycle_intelligence.py:179-189 | The final score is starters, plus substitutions, plus once more the points of the row flagged captain if he played, else of the row flagged vice if he played and is in the eleven; one who started and played always counts |
| ParetoPool.CandidateDominates | src/engines/decision_intelligence.py:54-75 | The loop with its early exit decides the four-horizon dominance with tolerance 1e-9 |
| ParetoPool.DominatesIff | src/engines/decision_intelligence.py:54-75 | In one club and position: no dearer, on no horizon behind by more than 1e-9 in points or spread, and cheaper or ahead on one by more than that |
| ParetoPool.ExactWhenApart | src/engines/decision_intelligence.py:54-75 | On metrics that are equal or further apart than the tolerance the test is exact dominance |
| ParetoPool.SeparatedIsOrder | src/engines/decision_intelligence.py:54-75 | On such rows dominance is a strict partial order |
| ParetoPool.PruningCovers | src/engines/decision_intelligence.py:78-110 | Every pruned candidate is dominated by a kept one of its club and position that is no dearer |
| ParetoPool.SafeIffTransitive | src/engines/decision_intelligence.py:54-110 | For any rows: pruning any pool drawn from them keeps each row or a kept dominator of it, if and only if dominance is transitive on the rows |
| ParetoPool.ChainIsLost | src/engines/decision_intelligence.py:54-110 | Three rows within the tolerance form a chain of which the last is pruned although the only kept row does not dominate it |
| ParetoPool.NoneVanishesIffListable | src/engines/decision_intelligence.py:78-110 | No group drawn from the rows is pruned away altogether if and only if the rows can be listed with none dominated by a later one |
| ParetoPool.CircleVanishes | src/engines/decision_intelligence.py:54-110 | Three rows within the tolerance dominate each other in a circle and are all pruned |
| ParetoPool.ClubSurvivors | src/engines/decision_intelligence.py:84-99 | Pruning club by club keeps exactly the club's undominated rows of the whole pool |
| ParetoPool.ParetoPosition | src/engines/decision_intelligence.py:78-110 | The search list of a position holds exactly the undominated rows, each as often as in the pool, in search order, with exact counts of groups and pruned rows |
| ParetoPool.TeamPositionParetoPool | src/engines/decision_intelligence.py:78-110 | The same for all four positions |
| TransferSearch.CheckSquad | src/models/package_optimizer_v2.py:56-74 | The counting loops decide: fifteen distinct players, 2/5/5/3 by position, at most three a club |
| TransferSearch.LegalMeans | src/models/package_optimizer_v2.py:56-74 | The same rule over pairs of rows and counts: fifteen rows, no two of one player, at most three of any club, 2/5/5/3 |
| TransferSearch.SquadsAre | src/engines/decision_intelligence.py:148 | After a transfer, or a pair, the squad holds every row of the players who stay, as often as before, and the rows that come in |
| TransferSearch.StepLegalTransferSequence | src/engines/decision_intelligence.py:113-170 | The search over execution orders returns the first order that stays legal and solvent, with its ledger, or a refusal |
| TransferSearch.LedgerChains | src/engines/decision_intelligence.py:113-170 | For any number of transfers a successful check reports one chain of non-negative balances from the bank to `resulting_itb` |
| TransferSearch.LedgerNames | src/engines/decision_intelligence.py:113-170 | A successful check of one or two transfers names the first order that works and, in that order, each transfer's players |
| TransferSearch.RefusalMeans | src/engines/decision_intelligence.py:113-170 | Unequal lists, more than two transfers and the absence of a working order are each refused with their own reason and count of orders |
| TransferSearch.SingleIff | src/engines/decision_intelligence.py:374-379 | A single transfer passes exactly when the player is owned, the squad stays legal and the cash suffices |
| TransferSearch.PairIff | src/engines/decision_intelligence.py:445-456 | A pair passes exactly when the final squad is legal, ITB + sells - buys >= 0 and one transfer is legal on its own; the cash left is that sum in either order |
| TransferSearch.PairOfSingles | src/engines/decision_intelligence.py:416-456 | For two legal singles only the final squad and the total cash decide |
| TransferSearch.CrossedPairsAgree | src/engines/decision_intelligence.py:424-427 | The pair key may ignore who replaces whom: same final squad, cash and answer |
| TransferSearch.PruningLosesNoSingle | src/engines/decision_intelligence.py:374-386 | Every legal affordable single with a pruned incoming player has a kept, dominating, legal counterpart leaving at least as much cash |
| TransferSearch.SingleStubs | src/engines/decision_intelligence.py:374-386 | The block that prunes and tries all singles returns only legal stubs and, on a clean pool, a counterpart for every legal single |
| PairPruning.ReplaceBoth | src/engines/decision_intelligence.py:445-456 | Replacing both incoming players of a legal pair by two different, unowned, no dearer ones of their clubs and positions keeps it legal and leaves at least as much cash |
| PairPruning.PairSurvivesIff | src/engines/decision_intelligence.py:54-110 | A legal pair keeps a legal counterpart after pruning if and only if its incoming players have two different kept counterparts |
| PairPruning.PairsAcrossGroupsSurvive | src/engines/decision_intelligence.py:54-110 | Every legal pair of different clubs or positions keeps a legal counterpart of kept dominators with at least as much cash |
| PairPruning.PairIsLost | src/engines/decision_intelligence.py:54-110 | A legal squad and a legal pair from one club and position that has no legal counterpart after pruning |
| PackageFrontier.PublishFrontier | src/engines/decision_intelligence.py:173-229 | The published packages are the most robust part of the frontier, whose size is reported |
| PackageFrontier.FrontierIsExact | src/engines/decision_intelligence.py:173-229 | The frontier is exactly the set of undominated packages and covers every package left out |
| PackageFrontier.MeasuredIs | src/engines/decision_intelligence.py:173-229 | Net gain is measured against HOLD on each horizon, and a missing spread counts as 1e9 |
| PackageFrontier.FrontierByPackages | src/engines/decision_intelligence.py:173-229 | A package is on the frontier exactly when no package is as good on four horizons, changes and spread and better on one; the baseline plays no part |
| PackageFrontier.HoldStays | src/engines/decision_intelligence.py:361-370 | HOLD, the only package without changes, is always on the frontier, with zero net gain |
| PackageFrontier.PublishedIsRanked | src/engines/decision_intelligence.py:173-229 | The ranked list is a permutation of the frontier by descending robustness, ties in order, with a most robust package first |
| SlotCalendar.DueReportOccurrences | ops/render_external_clock.py:26-62 | For every instant and lookback of 1 to 72 hours: every DEEP and PRICE slot of the interval, once, in time order; any other lookback is refused |
| SlotCalendar.SlotsAreAt | ops/render_external_clock.py:22-55 | DEEP slots are at 04:30, 12:30 and 21:30 of the Jakarta day, PRICE slots at 23:30 of the London day |
| SlotCalendar.DueMeans | ops/render_external_clock.py:36-61 | Due are the instants of the lookback at 04:30, 12:30 or 21:30 Jakarta time, or at 23:30 London time |
| SlotCalendar.DeepDaysSuffice | ops/render_external_clock.py:34-44 | The days scanned reach every DEEP slot of the last 72 hours |
| SlotCalendar.PriceDaysSuffice | ops/render_external_clock.py:45-55 | And every PRICE slot, across a London clock change |
| SlotCalendar.MixedGap | ops/render_external_clock.py:26-62 | A PRICE slot is within 65 minutes of a DEEP slot only when it follows 04:30 WIB by exactly an hour, in British summer time |
| SlotCalendar.SameModeGap | ops/render_external_clock.py:26-62 | Slots of one mode are at least 420 minutes apart |
| SlotCalendar.NoSharedKey | ops/render_external_clock.py:34-60 | No instant is both a DEEP and a PRICE slot |
| SlotCalendar.ResolveTick | ops/render_external_clock.py:65-128 | The resolver returns the one slot in the window that is strictly nearer than any other, or none when no window is open |
| SlotCalendar.WindowsOverlap | ops/render_external_clock.py:22-23 | Two windows overlap only for five minutes between DEEP 04:30 and PRICE 05:30, where PRICE is nearer |
| SlotCalendar.TickResolvesIff | ops/render_external_clock.py:65-128 | A tick resolves to a slot exactly when it is in its window and outside that overlap |
| SlotCalendar.TickIsShadowed | ops/render_external_clock.py:65-128 | In British summer time a tick at 05:27 WIB is in the DEEP 04:30 window and resolves to PRICE 05:30 |
| SlotCalendar.DiagnosisMeans | ops/clock_cadence.py:50-56 | NO_TICK means that no observed tick resolved to the slot; a tick in the window means that one did unless all were in the overlap |
| SlotCalendar.DiagnosisNeedsEvidence | ops/clock_cadence.py:50-56 | Tick evidence is reported as unavailable exactly when there is none; NO_TICK takes evidence without a tick from five minutes before the slot to an hour after |
| Recovery.ClassifyDue | ops/occurrence_reconciliation.py:60-117 | One row for each due slot, with the state its evidence gives it |
| Recovery.StateMissingIff | ops/occurrence_reconciliation.py:81-105 | A slot is MISSING exactly when nothing was seen of it and 70 minutes have passed |
| Recovery.StateMeans | ops/occurrence_reconciliation.py:60-117 | Verified, active, failed and unknown each exactly by their evidence, in that order of precedence |
| Recovery.Plan | ops/recovery_plan.py:54-101 | Every row is ruled on newest first by the ladder of conditions, and the candidates are the eligible rows, one for each mode |
| Recovery.RulingMeans | ops/recovery_plan.py:54-92 | For any row, each decision exactly by the conditions of the ladder up to it |
| Recovery.OnePerMode | ops/recovery_plan.py:76-91 | In any plan a mode has at most one eligible row, and a row is not newest only after one |
| Recovery.NoEvidenceNoRecovery | ops/audit_due_occurrences.py:336-344 | When the tick listing failed, every MISSING row is a clock defect and there are no candidates |
| Recovery.LadderCollapses | ops/recovery_plan.py:54-92 | For rows audited at the same instant SUPERSEDED, NOT_NEWEST, WITHIN_WINDOW and a missing diagnosis cannot occur, and ELIGIBLE is exactly a missing slot with tick evidence but no tick in its window, at most 180 minutes old, of a mode none of whose due slots has failed |
| Recovery.EligibleIsSafe | ops/recovery_plan.py:54-92 | With whatever tick evidence, or none: an eligible row has tick evidence, is 70 to 180 minutes overdue, the newest due slot of its mode, the only eligible one of its mode, never seen, resolved by no observed tick and not selected by the clock now |
| Announcement.EvidenceAnnounces | ops/recovery_dispatch.py:64-70 | The evidence comment is recognised as announcing its own occurrence |
| Announcement.EvidenceAnnouncesOnly | ops/verified_pointer.py:140-143 | And as announcing no other occurrence |
| Announcement.TitlesAgree | ops/external_clock_gate.py:26-28 | Both gates look for the same run title |
| Announcement.TitleNamesOccurrence | ops/recovery_dispatch.py:40-41 | A run title determines mode and slot |
| Announcement.IdNamesOccurrence | ops/occurrence_reconciliation.py:43-44 | An occurrence id determines mode and slot |
| Dispatch.SelectIsNewest | ops/recovery_dispatch.py:44-56 | Nothing is selected exactly when the plan is not advisory or has no genuine candidate; otherwise a genuine candidate with the greatest slot is |
| Dispatch.SelectedIsChecked | ops/recovery_dispatch.py:44-56 | The selected candidate has the decision, tag, key and natural flag asked for, in a plan that is advisory |
| Dispatch.AlphabeticalIff | ops/recovery_dispatch.py:56 | The order used is alphabetical |
| Dispatch.Repository.Execute | ops/recovery_dispatch.py:83-115 | Announce, look again, dispatch, in that order, with the specified effect of each failure, whatever was listed first |
| Dispatch.EffectsIff | ops/recovery_dispatch.py:83-115 | Whatever was listed first: a comment is added exactly when the candidate was not listed and the comment goes through; a run is added exactly when the comment was posted, the second look shows no run of its title, and the dispatch goes through |
| Dispatch.ActionMeans | ops/recovery_dispatch.py:83-115 | Each reported action exactly by the outcome of both looks, the comment and the dispatch |
| Dispatch.GateOpensIff | ops/external_clock_gate.py:31-52 | The gate opens exactly when enabled, for a report mode and slot, with a run list that shows no run of that title in any state |
| Dispatch.GateMeans | ops/external_clock_gate.py:31-52 | Each answer of the gate exactly by origin, switch, report, run list, and the active, successful or other runs of the title |
| Dispatch.StepAddsFreshTitle | ops/recovery_dispatch.py:83-115 | Every event leaves the run titles alone or adds one that was not there |
| Dispatch.EventMeans | ops/recovery_dispatch.py:132-147 | What each event does to the run log, exactly: when a recovery or an external trigger starts a run, and that progress touches one run only |
| Dispatch.StartClosesGate | ops/external_clock_gate.py:31-52 | Once an event has started a run for a report, the gate finds that run active |
| Dispatch.AtMostOnce | ops/recovery_dispatch.py:59-115 | Over any sequence of recoveries with an arbitrary first run listing, external clock triggers and run progress each occurrence is dispatched at most once |
| Dispatch.RecoveryIsAnnounced | ops/recovery_dispatch.py:83-115 | A recovery that starts a run, whatever it listed first, has just posted one comment, which announces the id of the selected candidate and changes nothing for other ids; the run is titled by the candidate's mode and slot, and no earlier run was |
| Dispatch.RunIsAnnouncedIff | ops/recovery_dispatch.py:44-70 | The comment announces the occurrence of the run exactly when the candidate's id is the one of its mode and slot |
| Dispatch.CommentMatchesRun | ops/recovery_dispatch.py:40-70 | For such a candidate the comment announces an occurrence exactly when the run carries its title |
| RecoveryPipeline.OutputIsGenuine | ops/recovery_plan.py:81-101 | Every eligible row the plan writes passes the checks of `select` and carries the id of its mode and slot |
| RecoveryPipeline.DispatchedIsSafe | ops/recovery_dispatch.py:83-115 | From audit to run: a recovery that executes the plan of an audit made at the same instant, with whatever tick evidence and first run listing, and starts a run had tick evidence and starts it for the newest eligible occurrence, which is safe to recover, was never attempted, and is exactly the one announced |
| RecoveryPipeline.OverdueIsRecovered | ops/recovery_dispatch.py:83-115 | And conversely: whenever an occurrence is 70 to 180 minutes overdue, unseen and without a tick, its mode has not failed, nothing listed was attempted, and comment and dispatch go through, a run is started, for a safe occurrence that is no older |
| FixtureLifecycle.ClassifyLifecycle | src/engines/live_state_service.py:95-206 | The row loop computes mode, transition, the four id lists and the newly completed ids |
| FixtureLifecycle.GameweekRows | src/engines/live_state_service.py:128-132 | The rows of a gameweek are those that name it; a missing or zero event counts as minus one |
| FixtureLifecycle.StateMeans | src/engines/live_state_service.py:37-58 | Each state and substate exactly by the flags |
| FixtureLifecycle.ListsMean | src/engines/live_state_service.py:131-162 | Each of the four lists holds the ids of the fixtures in its states, in feed order, an unusable id becoming minus its place |
| FixtureLifecycle.TransitionMeans | src/engines/live_state_service.py:164-197 | The mode exactly by the states, what is new against the previous run, and the transition exactly by mode and novelty |
| FixtureLifecycle.ListsPartition | src/engines/live_state_service.py:143-162 | The four lists account for every fixture of the gameweek once |
| FixtureLifecycle.BonusFinalMeansOver | src/engines/live_state_service.py:220-300 | A final bonus coincides with POST_ALL_MATCH if and only if every `started` flag is a boolean |
| FixtureLifecycle.BonusWithoutLifecycle | src/engines/live_state_service.py:43-46 | A finished fixture whose `started` flag is no boolean: the bonus is FINAL and the mode PRE_DEADLINE |
| FixtureLifecycle.ProvisionalIsNoAuthority | src/engines/live_state_service.py:248-300 | The bonus is FINAL exactly when all fixtures are finished on finalized dates and the event is finished and data-checked, whatever the provisional flags |
| FixtureLifecycle.BonusMeans | src/engines/live_state_service.py:220-300 | Each bonus and match state exactly by the flags, the finalized dates and the event |
| FixtureLifecycle.FinalizedIff | src/engines/live_state_service.py:252-256 | A date is finalized when a status row of the gameweek says that its bonus was added |
| FixtureLifecycle.NewAt | src/engines/live_state_service.py:181-187 | A fixture is new at a run exactly when it is finished there and was not at the run before |
| FixtureLifecycle.ReportedExactlyOnce | src/engines/live_state_service.py:401-412 | Over any sequence of runs a finished fixture is in `completed_since_previous` at exactly one run, the first at which it is finished |
| FixtureLifecycle.NeverReported | src/engines/live_state_service.py:401-412 | A fixture that never finishes is never reported |
| FixtureLifecycle.ModeOnlyAdvances | src/engines/live_state_service.py:164-175 | The mode only moves PRE_DEADLINE, MATCH, POST_ALL_MATCH |
| FixtureLifecycle.FinalTransitionIff | src/engines/live_state_service.py:188-197 | POST_MATCH_THEN_POST_ALL_MATCH is emitted exactly when the gameweek is over and was not at the run before |
| FixtureLifecycle.ClosesExactlyOnce | src/engines/live_state_service.py:188-197 | If the gameweek is over by the last run that transition is emitted at exactly one run |
| Availability.TreeIsDistribution | src/engines/canonical_decision_methodology.py:187-200 | Before rounding START + CAMEO + DNP is exactly 1 and late_cameo <= cameo <= bench <= available - start |
| Availability.TreeFollowsLaws | src/engines/canonical_decision_methodology.py:187-200 | Each outcome is the one before it times its own named conditional |
| Availability.BuildsIff | src/engines/canonical_decision_methodology.py:157-222 | The builder succeeds exactly on five probabilities; its normalisation error cannot occur |
| Availability.BuildPrints | src/engines/canonical_decision_methodology.py:157-222 | Each conditional and each outcome of those products is printed under its own name, rounded |
| Availability.BuildNames | src/engines/canonical_decision_methodology.py:157-186 | Otherwise the first conditional that is no probability is named |
| Availability.PublishedIsSane | src/engines/canonical_decision_methodology.py:212-219 | The printed outcomes are probabilities, still nest, and miss a sum of one by at most 1.5e-8 |
| Availability.RoundComplement | src/engines/canonical_decision_methodology.py:204-211 | Rounding half-even to eight decimals commutes with taking the complement |
| Availability.TreeMoves | src/engines/canonical_decision_methodology.py:187-196 | Conditionals that move by at most e move no outcome by more than 6e |
| Availability.ValidateProbabilityState | src/engines/canonical_decision_methodology.py:225-249 | The comparison loop accepts or reports the first fault, as specified |
| Availability.FaultIsFirst | src/engines/canonical_decision_methodology.py:225-249 | The fault named is the first outcome in order that is unreadable or off by more than 1e-6, with its reason |
| Availability.ValidatorAcceptsBuilder | src/engines/canonical_decision_methodology.py:225-249 | Every printed state is accepted, its conditionals come back unchanged and its outcomes within 4e-8 |
| Availability.ValidationSettles | src/engines/canonical_decision_methodology.py:225-249 | The state validation returns is returned unchanged by the next validation |
| Availability.FixedPointIff | src/engines/canonical_decision_methodology.py:225-249 | Validation returns a state unchanged if and only if the builder publishes it for conditionals of at most eight decimals |
| Availability.ClaimSettlesIff | src/engines/canonical_decision_methodology.py:225-249 | The state validated from an accepted claim is returned unchanged by the next validation if and only if its conditionals print the same outcomes after rounding |
| Availability.GridClaimSettles | src/engines/canonical_decision_methodology.py:225-249 | In particular when its conditionals have at most eight decimals |
| Availability.FinerClaimsDrift | src/engines/canonical_decision_methodology.py:225-249 | An accepted claim with more decimals whose validated state changes at the next validation |
| Availability.AcceptedIff | src/engines/canonical_decision_methodology.py:225-249 | Acceptance means five probabilities and six outcomes, each within 1e-6 of its own printed product of those five |
| Availability.AcceptedSumsToOne | src/engines/canonical_decision_methodology.py:225-249 | An accepted state's START + CAMEO + DNP is within 3.015e-6 of one |
| DependencyLocks.Walker.ValidateLock | tools/validate_dependency_locks.py:27-74 | The recursion over the shared `seen` set terminates on every finite include graph and computes the specified walk |
| DependencyLocks.LockIsValidIff | tools/validate_dependency_locks.py:27-74 | A lockfile is valid exactly when every file reachable from it exists, requires hashes and holds only comments, options, present includes and exact pins with hashes and nothing else; the files seen are then exactly the reachable ones. Otherwise the fault names a reachable file and its first bad line and why |
| DependencyLocks.RequirementsAreReachable | tools/validate_dependency_locks.py:27-74 | The requirements returned are exactly the pins of the reachable files, each once |
| DependencyLocks.CheckAgreement | tools/validate_dependency_locks.py:82-93 | The agreement loop succeeds exactly on non-empty rows that agree by name, counts the names, and names the first clash |
| DependencyLocks.ValidateLockSet | tools/validate_dependency_locks.py:77-103 | The set check returns the first walk's fault, an empty-set fault, the first conflict or the number of names |
| DependencyLocks.LockSetIff | tools/validate_dependency_locks.py:77-93 | In terms of the include graph: accepted exactly when all reachable files are well formed, one pins something and pins of one name agree on version and hashes |
| IdentityReaders.OfficialCodeToElement | scripts/v6_build_identity_wave_b_candidates.py:80-109 | Returns the code-to-element relation, or refuses with the exact set of ambiguous codes, else of ambiguous elements |
| IdentityReaders.OfficialAcceptedIff | scripts/v6_build_identity_wave_b_candidates.py:100-108 | Accepted exactly when codes and elements correspond one to one and there are some |
| IdentityReaders.ElementsAre | scripts/v6_build_identity_wave_b_candidates.py:80-109 | The relation pairs code and id of one row, both positive |
| IdentityReaders.ObservedUnmapped | scripts/v6_build_identity_wave_b_candidates.py:112-139 | Returns the unjoined native ids, or refuses a missing id or the exact set of repeated ones |
| IdentityReaders.GapsAre | scripts/v6_build_identity_wave_b_candidates.py:130-139 | The gaps are the native ids of rows that are not joined |
| IdentityReaders.OfficialToTransfermarkt | scripts/v6_build_identity_wave_b_candidates.py:142-175 | Succeeds exactly when anchors are one to one; every conflict reported is a real one |
| IdentityReaders.AnchorsAre | scripts/v6_build_identity_wave_b_candidates.py:157-164 | The anchors pair an Official code and the Transfermarkt id of one player row |
| IdentityReaders.ReadBridgeIndexes | scripts/v6_build_identity_wave_b_candidates.py:178-235 | Returns the three bridge relations, or refuses with exactly the ambiguous ids of every bridge direction checked |
| IdentityReaders.BridgesAcceptedIff | scripts/v6_build_identity_wave_b_candidates.py:178-235 | Accepted exactly when Opta is one to one and the other two bridges are functions |
| IdentityReaders.BridgesAre | scripts/v6_build_identity_wave_b_candidates.py:199-232 | Each bridge pairs the two ids of one row of its provider, keyed by Reep id for Understat |
| IdentityCandidates.BuildCandidates | scripts/v6_build_identity_wave_b_candidates.py:281-366 | The two loops with their seen-sets produce the specified candidates, counters and unresolved ids |
| IdentityCandidates.BuildFailsIff | scripts/v6_build_identity_wave_b_candidates.py:286-297 | The build fails exactly when two codes lead over the direct bridge to one gap, and names such a gap; a duplicated element cannot arise |
| IdentityCandidates.CandidatesAreSound | scripts/v6_build_identity_wave_b_candidates.py:281-361 | Candidates match native ids and elements one to one, each along a real bridge path, and no path is left that could still be proposed |
| IdentityCandidates.WhoIsProposed | scripts/v6_build_identity_wave_b_candidates.py:286-362 | A code that reaches a gap directly is always proposed; one that does over the fallback exactly when it does not directly and the native id goes to no direct candidate and no smaller fallback code |
| IdentityCandidates.CountsMean | scripts/v6_build_identity_wave_b_candidates.py:286-362 | The direct count and the count of missing anchors are the numbers of codes that reach a gap directly, and of anchored codes that do not and whose key no bridge knows |
| IdentityCandidates.DecimalStandsFor | scripts/v6_build_identity_wave_b_candidates.py:288 | The text of a code is digits without leading zeros that stand for it |
| IdentityCandidates.DecimalIsOnly | scripts/v6_build_identity_wave_b_candidates.py:288 | And no other such text does |
| IdentityCandidates.RecordedIsNumber | scripts/v6_build_identity_wave_b_candidates.py:250 | A native id of digits is recorded as the number it stands for, any other as it is |
| IdentityCandidates.UnresolvedIff | scripts/v6_build_identity_wave_b_candidates.py:364-366 | The unresolved ids reported by a build are the gaps without a candidate if and only if no candidate's native id has leading zeros |
| IdentityCandidates.GapsAreSafeIff | scripts/v6_build_identity_wave_b_candidates.py:364-366 | Every successful build on given gaps reports exactly the gaps without a candidate, whatever the bridges, if and only if no gap has leading zeros |
| IdentityCandidates.PaddedGapIsListedTwice | scripts/v6_build_identity_wave_b_candidates.py:364-366 | A gap with leading zeros that the direct bridge reaches is both a candidate and reported as unresolved |
| IdentityCandidates.PaddedGapExample | scripts/v6_build_identity_wave_b_candidates.py:364-366 | The gap 07 of a build with one player |
| IdentityCandidates.ReportAccounts | scripts/v6_build_identity_wave_b_candidates.py:363-382 | The report lists each candidate once by ascending element, and candidates plus remaining gaps count up to all gaps |
| IdentityBuild.BuildUnderstatCandidates | scripts/v6_build_identity_wave_b_candidates.py:269-366 | Inputs are refused exactly when a relation is not as functional as required, with the fault of the first such input; otherwise candidates, counts and unresolved ids follow from the relations |
| IdentityBuild.CleanEitherWay | scripts/v6_build_identity_wave_b_candidates.py:80-235 | Whether the inputs are accepted does not depend on the order of their rows |
| IdentityBuild.OrderIndependent | scripts/v6_build_identity_wave_b_candidates.py:80-235 | Nor do the indexes read from them, hence the candidates |
| Observations.CollectCandidates | src/engines/competitive_load.py:171-264 | The validation loop keeps for each key the earliest row of best verification rank and counts every other row exactly |
| Observations.VerdictMeans | src/engines/competitive_load.py:171-256 | A row is rejected for the first of sixteen checks it fails, stale when it passes six and is too old, valid when it passes all and is recent; it is then published field by field |
| Observations.RankIsPosition | src/engines/competitive_load.py:119-123 | The rank of an allowed level is its first position; any other level ranks behind |
| Observations.ValidatedOptionalObservations | src/engines/competitive_load.py:126-289 | Input rows are accepted, rejected, stale or deduplicated, in sum; the output lists exactly the kept rows under their element in time order, those of one time in the order in which their keys were first seen; levels are counted over the kept rows; a missing payload or a wrong contract is accounted for too |
| Observations.OutputIsKept | src/engines/competitive_load.py:266-273 | An item is listed under an element exactly when it comes from a kept row of that element |

## Left out

- Input and output: HTTP and GitHub calls, the GitHub store, workflow files, command-line entry points, JSON, CSV and ISO parsing. Their results are parameters.
- Dispatch.AtMostOnce: speaks of recoveries and external clock triggers; the gate lets triggers of other origins through without looking at the run list, so at most once is not promised for them.
- Concurrent dispatch: the window between the second look at the run list and the dispatch is not closed by the code; at most once is proved for triggers that run one after another against a complete run log.
- The write errors of a store other than a conflict of shas, and conflicts reported although the sha was unchanged.
- The fields of a pointer entry that merging only copies are one opaque map; a stored `sequence` that is missing reads as 0; unknown extra fields of the stored document are dropped by a write and not modelled.
- IEEE floating point: arithmetic is over real numbers, with rounding to eight decimals modelled exactly and half-even. Not-a-number inputs are taken as unreadable, although the observation checks let a not-a-number pass their range tests.
- Rounding of points to two decimals, the fields of the carry-forward result other than the score, and squad rows with element ids that are not positive.
- Scoring, Monte Carlo simulation and regret of packages, the selection of an exact-budget subset of singles, and the ordering and limit of evaluated pairs: they choose among legal packages.
- The diagnostics of the pruned pool other than its counts, reason texts, and the summary of the clock cadence.
- The columns of CSV files, the source id of a dataset, lower-casing and normalisation of names, and parsing of requirement lines: lines and rows start parsed. Native ids are taken to be ASCII digits when they are numeric.
- The unresolved native ids are a set; their sorting as text is not modelled. The number of Official codes with an Opta anchor is a plain count and left out.
- The previous run's completed ids are integers; strings of digits are read as such. One scoring gameweek is followed over the runs.
- Health checks, configuration, presentation, caches and one-off evidence scripts: settled branch by branch, without an inductive argument.
- FixtureLifecycle.ReportedExactlyOnce: for usable rows, with distinct numeric ids and boolean flags that only go from false to true; a feed that takes a result back is outside the promise.
