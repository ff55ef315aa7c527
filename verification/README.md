# Cash application: a verified model

The system reconciles bank credits with open invoices. Statement rows are ingested into a
deduplicated ledger; an analysis run loads unconsumed rows, extracts invoice numbers from their
text by pattern and by AI, classifies each row with a cascade of rules, splits its amount over
the matched invoices and persists a line item. People and background sweeps then move line
items through a lifecycle that ends in two Oracle postings: a receipt, and references that
apply it to invoices.

This project models that behaviour in Dafny and proves what it promises. Money is in whole
cents, rates and percentages are exact reals, and rounding to two decimals is any function whose
error is at most half a unit (`Rounding.Rounding`; monotonicity and the identity on whole units
follow). Text is ASCII. Objects the program updates in place are classes whose methods are
proved against functions on values; everything else is functions, state machines and lemmas.

`dafny verify dfyconfig.toml` checks the whole project.

## Modules

| file | what it holds |
|---|---|
| Core, Rounding, Text, Decimal, Batching | options and sums, rounding, string operations, digits, slicing and order-free collection |
| AgingMap | the open-invoice indexes and their lookups, against linear scans |
| Allocation, Evaluator, RuleAnswers | the proportional split, the rule cascade, and the exact condition of every rule |
| ManualMapping | the second, hand-mapping classifier and its distance from the first |
| PlainRows | the simplest rows, from which boundary cases are shown to occur |
| LineItem, RowOperations | the line item object, and what each operation does to its fields |
| Conservation, Lifecycle, LifeConservation | money end to end, every run of operations on a line item, and money over those runs |
| ApprovalRace | the same operations in overlapping sessions |
| RowHash, Ledger | the deduplication key and the ledger under its unique constraint |
| AdvisoryLock, AnalysisRuns, RunProgress | the file-set lock, concurrent runs as interleaved steps, and what a run gets done |
| JsonCache | the mtime cache under thread interleavings |
| AmountParser, InvoiceScan | reading amounts and finding broken invoice numbers |
| Extraction, AiFallback, ChunkProcessor, RowFates | the two extraction layers, the merge, the chunked dispatch, and what becomes of one row |

## Where the code and its documentation differ

The model follows the code; each of these is a lemma.

- The recheck of rows waiting for a remittance says a remittance without invoice numbers leaves
  the row as it was. It never does: once a remittance is found the evaluator cannot answer R7, so
  that exit is dead, and such a row becomes R8 unless a conflict takes it first
  (`Lifecycle.RecheckNeverAnswersR7`, `Lifecycle.EmptyRemittanceMovesTheRow`).
- Rule R2 is always taken by R1 first, and the cross-unit tag on postable rows is never set
  (`Evaluator.RuleReachability`).
- The manual classifier is documented to mirror the engine exactly. It rounds before comparing, and
  it tolerates 12 percent whatever the engine's setting is. For every setting the two agree exactly
  under the condition of `ManualMapping.ClassifiersAgreeExactly`; at the default setting they differ
  exactly when a nonzero shortfall is within 0.005 points of zero or at most 0.005 above 12
  (`ManualMapping.DefaultToleranceAgrees`). Both causes occur
  (`ManualMapping.ManualAcceptsWhatTheEngineRefuses`, `ManualMapping.ManualIgnoresTheSetting`).
- The recheck is documented to run the same evaluation as an analysis run; it too uses 12 percent
  whatever the setting is (`Lifecycle.RecheckIgnoresTheSetting`).
- A row whose evaluation divides by zero stops every recheck sweep it is part of, for all other rows
  as well (`Lifecycle.SweepRaisesExactly`, `Lifecycle.OneRowBlocksEverySweep`).
- A ledger row is meant to be analysed once. A run that fails between creating a line item and marking
  the ledger row leaves the row to the next run, and then it has two line items; there is no other way
  (`AnalysisRuns.SharedRowsWereStranded`, `AnalysisRuns.FailedRunLeavesTwoLineItems`).
- The reference amount is the stated amount "or" the outstanding one: a share of zero is posted as
  the full outstanding, and this is the only way the two postings can disagree on an automatically
  split row (`Conservation.ReferencesAgainstReceipt`, `Conservation.PostedReferencesEqualReceipt`).
  It does happen (`Conservation.ZeroShareOverstatesReferences`), but with nothing stated only to the
  last of three or more invoices (`Conservation.OnlySmallLastShareIsZero`).
- The version of a row is documented to protect against concurrent changes; it counts approvals and
  rejections only, so a manual mapping, a recheck or a retry in between goes unnoticed
  (`Lifecycle.StaleDecisionDetectedExactly`), and an approval can post to invoices its author never
  saw (`Lifecycle.ApproverNeverSawInvoiceTwo`).
- Two approvals at the same time are documented to end in a conflict instead of a double posting. The
  version is compared when the row is read and not at the commit, so approvals that overlap all pass
  and post (`ApprovalRace.ApprovalsPassExactly`, `ApprovalRace.OverlappingApprovalsPostTwice`), and so
  does an approval that overlaps a rejection (`ApprovalRace.OverlappingRejectionKeepsThePosting`).
- Invalidating the JSON cache is documented as not required for correctness. Without it the cache is
  correct exactly as long as no repeated mtime is stale (`JsonCache.LinearizableExactly`); with it an
  undisturbed call is always correct (`JsonCache.InvalidationForcesARead`).
- Disjoint file sets are documented never to contend for the lock, and different transactions never
  to share a hash; both fail for names and references with a bar in them
  (`AdvisoryLock.BarInNameContends`, `RowHash.BarInReferenceCollides`).
- A whole amount grouped by commas is read with its last comma as a decimal point
  (`AmountParser.WholeUnitsParse`), parentheses behind a currency symbol carry no sign
  (`AmountParser.PrefixedParenthesesParse`), and neither does a DR glued to the digits
  (`AmountParser.GluedMarkIsIgnored`).
- A rate of zero counts as a missing rate (`Evaluator.PostableMeaning` through `Evaluator.Blocked`).
- A split over outstandings that sum to zero divides by zero, against the promise that every
  returned invoice has a stated amount (`Evaluator.RaisesExactly`, `PlainRows.CancellingRowRaises`).

## Model

| member | source | states |
|---|---|---|
| AgingMap.LookupFails | app/aging/aging_map.py:105-132 | a lookup fails exactly when no row of any unit has the key or the key without trailing letters |
| AgingMap.LookupMeaning | app/aging/aging_map.py:105-132 | a hit has the exact key, or the stripped key only if no row of any unit has the exact one; a row of the wanted unit wins whenever its key has one |
| AgingMap.SelectMember | app/aging/aging_map.py:67-101 | the rows filed under a key are exactly the rows with that key, in each of the three indexes |
| AgingMap.SelectInOrder | app/aging/aging_map.py:67-101 | they are filed in the order of the rows |
| AgingMap.FileKeepsIndex | app/aging/aging_map.py:67-101 | filing one row keeps a dictionary a partition of the rows by key in insertion order |
| AgingMap.SortDescOrders | app/aging/aging_map.py:196-211 | the sort by outstanding is a descending permutation |
| AgingMap.SortDescStable | app/aging/aging_map.py:196-211 | rows of equal outstanding keep their original order |
| AgingMap.TopForOuIsTop | app/aging/aging_map.py:196-211 | the offered list has min(limit, all) rows of the unit, descending, and nothing left out is larger |
| AgingMap.CustomersMeaning | app/aging/aging_map.py:213-220 | exactly the unit's non-empty names, each once, complete unless cut by the limit |
| AgingMap.CustomersInOrder | app/aging/aging_map.py:213-220 | the names come in the order in which the unit's rows first show them |
| AgingMap.AgingMap.Build | app/aging/aging_map.py:67-101 | the map built from database rows, nulls defaulted and names stripped, represents the row list: all three indexes agree with scans of it |
| AgingMap.AgingMap.FillIndexes | app/aging/aging_map.py:67-101 | one pass fills all three dictionaries for every row list, duplicates included |
| AgingMap.AgingMap.LookupInvoice | app/aging/aging_map.py:105-132 | the indexed lookup equals the linear-scan definition |
| AgingMap.AgingMap.InvoicesForOu | app/aging/aging_map.py:196-211 | equals the prefix of the stable descending sort of the unit's rows |
| AgingMap.AgingMap.CustomersForOu | app/aging/aging_map.py:213-220 | equals the prefix of the unit's distinct names in order of first appearance |
| AgingMap.AgingMap.InvoicesForCustomer | app/aging/aging_map.py:222-229 | all rows of the name, case-insensitively, in insertion order |
| AgingMap.LookupIsFirst | app/aging/aging_map.py:125-132 | among several rows of a number the first of the wanted unit in row order answers; without one in the unit, or without a unit, the first of all |
| AgingMap.RecordIsFound | app/aging/aging_map.py:67-132 | from database record to answer: the first record of a number in a unit is found under any spelling of the number, nulls defaulted, number and name stripped |
| Allocation.MatchedMeaning | app/rule_engine/evaluator.py:162-184 | every matched invoice is a candidate that resolves, with its aging row's fields and the paid and withheld amounts of the last remittance line of its number |
| Allocation.MatchAllComplete | app/rule_engine/evaluator.py:168-184 | when every number resolves nothing is dropped or reordered |
| Allocation.MatchAllEmpty | app/rule_engine/evaluator.py:168-184 | nothing is matched exactly when no number resolves |
| Allocation.SplitSumsExactly | app/rule_engine/evaluator.py:189-235 | unless the remittance stated every amount of a multi-invoice payment, the stated amounts sum to what was received, to the cent |
| Allocation.SplitKeepsInvoices | app/rule_engine/evaluator.py:111-139 | after the split no stated amount is missing, given amounts are untouched, and nothing else on any invoice changes |
| Allocation.SplitNearExact | app/rule_engine/evaluator.py:205-233 | of k unstated invoices all but the last get their exact proportional part of the remainder to within half a cent, the last to within (k-1)/2 cents |
| Allocation.ExactPaymentSettlesInvoices | app/rule_engine/evaluator.py:205-216 | an exact payment with nothing stated gives every invoice exactly its outstanding |
| Allocation.ShortPaymentAtInvoices | app/rule_engine/evaluator.py:205-216 | a short payment gives no invoice but the last more than it owes, and the last at most (n-1)/2 cents more |
| Allocation.ResolveInvoices | app/rule_engine/evaluator.py:168-184 | the resolution loop equals the specification function |
| Allocation.Distribute | app/rule_engine/evaluator.py:205-233 | the distribution loop writes the specified shares at the given positions, or divides by zero exactly when two or more invoices have a zero total |
| Allocation.SplitAmounts | app/rule_engine/evaluator.py:186-235 | the case distinction on stated amounts computes one specification of the split |
| Evaluator.BandMeaning | app/rule_engine/evaluator.py:342-407 | each percentage band is a plain comparison of received money with the target and its tolerated part, for all targets including zero and negative ones |
| Evaluator.AmountRulePostable | app/rule_engine/evaluator.py:329-407 | with invoices matched, a row is postable exactly when no unit mismatch or missing rate stands in the way and the money is acceptable |
| Evaluator.GateMeansBlockedOrEmpty | app/rule_engine/evaluator.py:251-321 | any rule that fires before amounts are looked at means a blocking condition or an empty match, and is never postable |
| Evaluator.PostableMeaning | app/rule_engine/evaluator.py:238-415 | a row is postable if and only if nothing blocks it, something matches, the split is defined, and the money is exact, against a zero target, or short within tolerance |
| Evaluator.EvaluateWellFormed | app/rule_engine/evaluator.py:238-415 | postable results carry invoices, every carried invoice has a stated amount, and categories fit rules |
| Evaluator.RuleReachability | app/rule_engine/evaluator.py:251-321 | R2 never fires, R7 needs the absence of a remittance, of invoices and of a unit mismatch, the cross-unit tag is never set |
| Evaluator.RaisesExactly | app/rule_engine/evaluator.py:205-233 | evaluation raises if and only if no early rule takes the row and two or more unstated invoices have outstandings that sum to zero, whatever was received |
| RuleAnswers.ReceivedMeaning | app/rule_engine/evaluator.py:147-159 | within half a cent of credit times rate exactly for a cross-currency row with a nonzero rate, and the credit itself otherwise |
| RuleAnswers.ResultMoney | app/rule_engine/evaluator.py:323-345 | a result with invoices carries what they owe, the credit in invoice currency in that sense, and the missing percentage of the one in the other |
| RuleAnswers.SplitMoney | app/rule_engine/evaluator.py:186-235 | unless the remittance stated all amounts, the split amounts add up to the credit in invoice currency |
| RuleAnswers.GateExactly | app/rule_engine/evaluator.py:251-317 | an early rule answers exactly for a disputed row or one without a number that has no remittance or the wrong unit, and each under its own exact condition |
| RuleAnswers.RulesExactly | app/rule_engine/evaluator.py:238-415 | for every input that evaluation answers, every one of the fourteen reachable rule ids if and only if its condition on the input holds, with its reason code |
| PlainRows.CancellingRowRaises | app/rule_engine/evaluator.py:209-211 | an invoice and a credit memo of the same amount make it raise, for every credit and unit |
| PlainRows.PlainRowMatches | app/rule_engine/evaluator.py:161-184 | a row with nothing known against it passes every early rule and matches all its distinct numbers in order |
| Evaluator.ConfirmedRowsMatchInOrder | app/rule_engine/evaluator.py:161-184 | with all extracted numbers confirmed and no remittance R4 cannot fire, and a non-empty match is the confirmed list in order |
| Evaluator.ResolveMatchedInvoices | app/rule_engine/evaluator.py:111-235 | the whole resolution method computes its specification |
| ManualMapping.ClassifiersAgree | app/hitl/manual_mapping.py:113-150 | for any rounding and any tolerance the engine is configured with, the two classifiers agree when the shortfall is clear of the borders and disagree inside the gaps |
| ManualMapping.ClassifiersAgreeExactly | app/hitl/manual_mapping.py:113-150 | with half-even rounding, for every configured tolerance: they agree if and only if the shortfall is below -0.005, zero, or above 0.005 and on the same side of that tolerance as of 12.005 |
| ManualMapping.DefaultToleranceAgrees | app/hitl/manual_mapping.py:120-145 | at the default tolerance: if and only if the shortfall is zero or half a hundredth away from it, and not above 12 by at most half a hundredth |
| ManualMapping.ManualIgnoresTheSetting | app/db/settings.py:121-122 | with the setting at 10, 100.00 short by 11.00 is acceptable by hand and refused by the engine, under every rounding |
| ManualMapping.ManualAcceptsWhatTheEngineRefuses | app/hitl/manual_mapping.py:120-145 | a concrete selection accepted by hand and refused by the engine |
| ManualMapping.SelectInvoicesMeaning | app/hitl/manual_mapping.py:153-182 | a selection resolves exactly when each number does, and is then the list of their aging rows in order |
| LineItem.LineItem.UpdateFx | app/rule_engine/orchestrator.py:471-493 | back-fills the currencies and changes nothing else |
| LineItem.LineItem.ApplyRuleResult | app/rule_engine/state_machine.py:17-61 | writes rule, invoices and state, and leaves decision, posting fields and version alone |
| LineItem.LineItem.PostReceipt | app/oracle/receipt_creation.py:34-78 | sends the credited amount in invoice currency and records the outcome only |
| LineItem.LineItem.MapInvoiceAndUpdate | app/hitl/service.py:128-192 | posts references only with a receipt, creating a missing one first; success means every reference was accepted |
| LineItem.LineItem.ApproveRow | app/hitl/service.py:195-259 | version check, gate, posting, state and version, as one transition on the row's value |
| LineItem.LineItem.RejectRow | app/hitl/service.py:289-323 | version check, then decision, state and version only |
| LineItem.LineItem.RetryOraclePost | app/hitl/service.py:345-380 | reposts a failed mapping only, without touching decision or version |
| LineItem.LineItem.ConfirmManualMapping | app/hitl/manual_mapping.py:185-236 | rewrites rule and invoices only for a selection that qualifies |
| LineItem.LineItem.RecheckOne | app/rule_engine/remittance_recheck.py:60-149 | touches a row only if it still waits and one unambiguous remittance is found, and then re-evaluates it |
| RowOperations.MappingMeaning | app/hitl/service.py:128-192 | the outcome is success if and only if the receipt stands and no posted reference is refused; what is posted is the breakup, or each invoice's number with its stated amount or, missing or zero, what it owes |
| RowOperations.ApproveMeaning | app/hitl/service.py:195-259 | an approval acts exactly on an unposted, unrejected R9a or R9b row of the expected version, and then changes decision, outcome, state and version in that sense |
| RowOperations.RetryMeaning | app/hitl/service.py:345-380 | a retry acts exactly on a failed outcome, with the row's own invoices, and leaves decision and version alone |
| RowOperations.ReceiptMeaning | app/oracle/receipt_creation.py:34-78 | creating the receipt records its outcome and nothing else |
| RowOperations.RejectMeaning | app/hitl/service.py:289-323 | a rejection acts exactly on the expected version and changes decision, state and version only, whatever was posted before |
| RowOperations.CategoryMeaning | app/bff/metrics.py:63-116 | each display group with its exact condition |
| RowOperations.TransitionMeaning | app/rule_engine/state_machine.py:26-61 | a classified row takes the rule and the invoices, and is unidentified exactly under R8 |
| RowOperations.MatchQualityDecidesNothing | app/rule_engine/evaluator.py:259-262 | invoice match percentage and customer text match never change the evaluation |
| RowOperations.RecheckIsEvaluation | app/rule_engine/remittance_recheck.py:60-149 | a recheck acts exactly on an undecided, unmapped R7 row with one unambiguous remittance, and classifies it as a run would have at 12 and 35 percent |
| RowOperations.PreviewMeaning | app/hitl/manual_mapping.py:113-182 | a selection is refused exactly if empty, unresolved or of two customers; otherwise the rule compares the rows' total with the receipt, in rounded hundredths of a percent |
| RowOperations.ConfirmMeaning | app/hitl/manual_mapping.py:185-236 | a selection that is exact or short within 12 percent, and no other, becomes the row's invoices, each to be settled in full |
| Conservation.ReferencesSum | app/oracle/fusion_client.py:472-508 | posted reference amounts sum to the stated amounts plus the outstanding of zero shares |
| Conservation.MatchedComesFromSplit | app/rule_engine/evaluator.py:323-407 | a classified row that carries invoices carries the split's result |
| Conservation.ReferencesAgainstReceipt | app/oracle/fusion_client.py:340-354 | end to end through evaluator, transition and both payload builders: references sum to the receipt amount plus the outstanding of zero shares |
| Conservation.NoZeroShareNoSurplus | app/oracle/fusion_client.py:501-508 | on positive outstandings that surplus is zero exactly when no share is zero |
| Conservation.PostedReferencesEqualReceipt | app/oracle/fusion_client.py:472-508 | without zero shares step 2 sums exactly to step 1; on positive outstandings if and only if |
| Conservation.OnlySmallLastShareIsZero | app/rule_engine/evaluator.py:205-216 | on a postable row with nothing stated, positive outstandings and a tolerance below one half, only the last of three or more invoices can get a zero share, and only if the part of it that must come in is at most (n-1)/2 cents |
| Conservation.PlainRowsConserve | app/oracle/fusion_client.py:472-508 | from the input side: such a row posts references that sum exactly to its receipt, always for one or two invoices, and for more unless the last owes next to nothing |
| Conservation.ZeroShareOverstatesReferences | app/oracle/fusion_client.py:501-508 | the failing case occurs: 6, 6 and 1 cents owed, 12 paid, an acceptable short payment with a receipt of 12 and references of 13, under every rounding |
| Conservation.RetryRepostsTheSameReferences | app/hitl/service.py:345-380 | a retry posts the references the approval would have posted without a breakup |
| Conservation.ReconcileAndApprove | app/rule_engine/orchestrator.py:658-699 | on one object, persisted, classified, receipted and approved: approval passes exactly for postable results, and what is posted accounts for the receipt |
| LifeConservation.EvaluatedIsAccounted | app/rule_engine/evaluator.py:323-414 | whatever the engine classifies carries amounts that sum to the receipt, unless the remittance stated every amount |
| LifeConservation.LifeStaysAccounted | app/rule_engine/remittance_recheck.py:115-127 | that stays so over every life, rechecks included, for rows not mapped by hand |
| LifeConservation.LivesConserve | app/hitl/service.py:128-192 | over every life of a row that holds an evaluation's credit, currency, rule and invoices, whatever else is stored on it, while it is not mapped by hand, any posting without a hand-entered breakup, retries included, sums to the receipt plus the outstanding of zero shares |
| Lifecycle.EngineRowsAreFresh | app/rule_engine/orchestrator.py:658-723 | every row a run commits, whatever it stores about the customer, satisfies the starting condition of the lifecycle results: classified, unknown and set to R8, or flushed before its evaluation raised |
| Lifecycle.GateMeaning | app/bff/metrics.py:63-116 | the approval gate is open exactly for postable rows without a mapping outcome and not rejected |
| Lifecycle.StepSafe | app/hitl/service.py:195-323 | every operation keeps: at most one passed gate, an outcome exactly after it, and then a postable rule and invoices |
| Lifecycle.LifeSafe | app/hitl/service.py:195-323 | the same after every run of receipts, rechecks, mappings, approvals, rejections and retries |
| Lifecycle.PostingNeedsApproval | app/hitl/service.py:230-252 | references are posted only through an open gate or as the retry of a failed mapping |
| Lifecycle.PostsOnlyAfterGate | app/hitl/service.py:230-252 | a life in which anything was posted passed the gate exactly once |
| Lifecycle.StepKeepsOutcome | app/hitl/service.py:128-192 | an outcome never disappears and success is never undone or followed by a posting |
| Lifecycle.SuccessIsFinal | app/bff/metrics.py:93-116 | after success no sequence of operations posts again or leaves the processed category |
| Lifecycle.VersionCountsDecisions | app/hitl/service.py:212-257 | the version counts approvals and rejections that took effect, and nothing else |
| Lifecycle.StaleDecisionDetectedExactly | app/hitl/service.py:212-229 | a decision with the version its author saw is refused exactly when such a decision was committed in between |
| Lifecycle.StaleApprovalPostsTheNewMapping | app/hitl/service.py:212-252 | an approval with the version seen before a manual mapping passes the gate and posts references to the new selection, for every row ready for approval |
| Lifecycle.ApproverNeverSawInvoiceTwo | app/hitl/manual_mapping.py:185-230 | a whole life of that kind: matched to invoice 1, mapped to invoice 2, approved with the version of invoice 1, posted to invoice 2 |
| Lifecycle.StepLeavesR7 | app/rule_engine/remittance_recheck.py:115-127 | a recheck changes only waiting rows, out of R7, and no operation moves a row into R7 |
| Lifecycle.RecheckedAtMostOnce | app/rule_engine/remittance_recheck.py:152-186 | over any life recheck changes a row at most once |
| Lifecycle.EmptyRemittanceMovesTheRow | app/rule_engine/remittance_recheck.py:115-123 | a remittance without invoices always changes the row, to R8 exactly when no conflict or unit mismatch takes it |
| Lifecycle.RecheckNeverAnswersR7 | app/rule_engine/remittance_recheck.py:115-123 | the exit for an unchanged classification is never taken |
| Lifecycle.TableStepDrains | app/rule_engine/remittance_recheck.py:152-186 | every sweep and operation pays for its reported changes with rows leaving R7 |
| Lifecycle.SweepsAreBounded | app/rule_engine/remittance_recheck.py:152-186 | over any run all sweeps together report at most as many changes as rows ever waited |
| Lifecycle.SweepRowMeaning | app/rule_engine/remittance_recheck.py:60-149 | a row is left alone exactly unless it waits and has one unambiguous remittance, and raises exactly if besides no early rule takes it and its unstated invoices cancel out |
| Lifecycle.SweepMovesAnswerableRows | app/rule_engine/remittance_recheck.py:152-186 | a sweep that does not raise moves every such row out of R7 and changes no other row |
| Lifecycle.SweepRaisesExactly | app/rule_engine/remittance_recheck.py:152-186 | a sweep raises if and only if one of its rows does, and then changes no row |
| Lifecycle.OneRowBlocksEverySweep | app/rule_engine/remittance_recheck.py:152-186 | as long as such a row keeps its remittance no number of sweeps changes any row |
| Lifecycle.TableStepAt | app/rule_engine/remittance_recheck.py:152-186 | what persisting, an operation or a sweep does to each single row of the table |
| Lifecycle.RowsLiveApart | app/rule_engine/remittance_recheck.py:152-186 | over any run of persists, operations and sweeps every row ends as the life of just the events that befell it, so every lifecycle result holds in the table |
| Lifecycle.RecheckIgnoresTheSetting | app/rule_engine/remittance_recheck.py:115-115 | with the setting at 10, a run calls a row an unexplained shortage and a recheck of it makes it ready for approval |
| ApprovalRace.SerialSchedulesAreLives | app/hitl/service.py:195-257 | a schedule of sessions in which each commits before its row has changed is a life: same row, gates and postings, so every lifecycle result holds of it |
| ApprovalRace.ApprovalsPassOnlyEarly | app/hitl/service.py:212-257 | over every schedule of every operation an approval passes the gate only if its session loaded the row before the first passed approval was committed |
| ApprovalRace.ApprovalsPassExactly | app/hitl/service.py:206-257 | over every schedule of approvals of a ready row: if and only if it did, and its author saw the version the row had at the start |
| ApprovalRace.OverlappingApprovalsPostTwice | app/hitl/service.py:206-257 | for every ready row: two overlapping approvals with its current version both pass, post every reference twice, move the version by one, and may overwrite success by failure |
| ApprovalRace.OverlappingRejectionKeepsThePosting | app/hitl/service.py:206-309 | for every ready row: a rejection that overlaps an approval leaves the row rejected with its references posted, and it counts as processed |
| JsonCache.HitIsFresh | app/common/json_cache.py:51-56 | an entry found under the mtime this call saw holds data no older than the call, if no repeated mtime is stale |
| JsonCache.ReadIsSound | app/common/json_cache.py:58-63 | contents read late may be stored under the earlier mtime |
| JsonCache.NextKeepsInv | app/common/json_cache.py:42-76 | every step of every thread and invalidation keeps the invariant, and so does a rewrite that makes no repeated mtime stale |
| JsonCache.ReturnsAreLinearizable | app/common/json_cache.py:42-63 | under every interleaving from an empty cache a returned value was the file's contents between call and return, and an error met unparsable contents, if no repeated mtime is stale |
| JsonCache.StaleHit | app/common/json_cache.py:49-63 | for every history with a stale repeated mtime a schedule from an empty cache installs exactly that history and returns contents overwritten before the call |
| JsonCache.LinearizableExactly | app/common/json_cache.py:42-63 | for every history of the file: all schedules that install it linearize if and only if no repeated mtime is stale |
| JsonCache.RepeatedMtimeReturnsStaleData | app/common/json_cache.py:66-76 | the smallest such history, one rewrite within the resolution of the mtime, reached from an empty cache |
| JsonCache.InvalidationForcesARead | app/common/json_cache.py:42-76 | after an invalidation a call no other thread interferes with returns, or raises on, contents the file had during the call, for every history of the file, stale repeats included |
| JsonCache.Cache.LookUpEntry | app/common/json_cache.py:52-56 | a hit needs the exact mtime |
| JsonCache.Cache.StoreEntry | app/common/json_cache.py:60-63 | replaces one path's entry and no other |
| JsonCache.Cache.InvalidateEntries | app/common/json_cache.py:66-76 | drops one path or all of them and nothing else |
| Text.AsciiMeaning | app/ingestion/row_hash.py:35-37 | upper case, digits, word characters and white space are those of ASCII |
| RowHash.CollapseJoinsWords | app/ingestion/row_hash.py:37-37 | collapsing white space in a trimmed text joins its words with single blanks |
| RowHash.WordsOfJoin | app/ingestion/row_hash.py:37-37 | splitting joined words gives them back |
| RowHash.NarrativesNormaliseAlike | app/ingestion/row_hash.py:37-37 | two narratives normalise alike exactly when their upper-cased words agree |
| RowHash.AmountPartInjective | app/ingestion/row_hash.py:34-34 | printed amounts determine the cents |
| RowHash.JoinFront | app/ingestion/row_hash.py:39-46 | parts free of bars at the front are determined by the joined text, and so is the text after them |
| RowHash.KeysAgreeExactly | app/ingestion/row_hash.py:19-47 | rows of an account share a key if and only if date, amount and the text of currency, reference and narrative agree, whatever bars that text contains |
| RowHash.KeysAgreeWithPlainCurrency | app/ingestion/row_hash.py:34-47 | with currencies free of bars only the border of reference and narrative is lost |
| RowHash.KeysAgreeFieldByField | app/ingestion/row_hash.py:34-47 | with references free of bars too, if and only if date, amount, upper-cased currency and reference, and the first 200 characters of the upper-cased words of the narrative agree |
| RowHash.NarrativePartTold | app/ingestion/row_hash.py:37-37 | the narrative's part of the key is its upper-cased words joined by single blanks, cut at 200 characters |
| RowHash.KeyTellsAccount | app/ingestion/row_hash.py:39-46 | keys of different accounts differ, whatever the transactions; an account id of zero counts as none |
| RowHash.CaseAndSpacingDoNotMatter | app/ingestion/row_hash.py:37-37 | rows differing in case or white-space runs of the narrative share a key |
| RowHash.BarInReferenceCollides | app/ingestion/row_hash.py:39-46 | with a bar in a field two different transactions share a key |
| Ledger.InsertKeys | app/ingestion/ingest_service.py:351-359 | an insert adds exactly the identities of its rows |
| Ledger.InsertMeaning | app/db/models.py:613-615 | it keeps the constraint and every existing row with its consumption mark, and adds only given rows |
| Ledger.KnownRowsAddNothing | app/ingestion/ingest_service.py:351-359 | rows whose identities are all present are all skipped |
| Ledger.IngestAllMeaning | app/ingestion/ingest_service.py:331-366 | after any files the identities are the old ones plus the union of the files' |
| Ledger.OneRowPerKey | app/db/models.py:613-615 | a ledger that keeps the constraint has exactly one row per identity, plus its rows without an account |
| Ledger.IngestionIsOrderFree | app/ingestion/ingest_service.py:331-366 | from any ledger that keeps the constraint, rows without an account included, order and repetition of files change neither identities nor row count |
| Ledger.NewTransactionIsAdded | app/ingestion/ingest_service.py:331-366 | a transaction of a resolved account that is field by field the same as none the ledger holds for it gets a new, unconsumed row |
| Ledger.OneRowForSameTransactions | app/ingestion/row_hash.py:19-47 | any two ingested transactions of one account share a ledger row if and only if they are the same field by field, whatever was ingested around them |
| Ledger.ReingestAddsNothing | app/ingestion/ingest_service.py:351-366 | ingesting a file again, after anything else, adds nothing |
| Ledger.NullAccountsAlwaysInsert | app/db/models.py:603-615 | rows without an account are never recognised as duplicates |
| Ledger.StatementTable.IngestAndParse | app/ingestion/ingest_service.py:331-378 | payload, insert and counts: new plus duplicate equals total |
| Ledger.StatementTable.BuildPayload | app/ingestion/ingest_service.py:331-349 | the loop builds one keyed row per parsed row |
| Ledger.StatementTable.InsertRows | app/ingestion/ingest_service.py:351-359 | the conflict-skipping insert, and how many rows it added |
| AdvisoryLock.SortMeaning | app/rule_engine/orchestrator.py:121-121 | sorting gives an ordered permutation |
| AdvisoryLock.OrderedUnique | app/rule_engine/orchestrator.py:121-121 | an ordered arrangement of given names is unique |
| AdvisoryLock.PermutationsContend | app/rule_engine/orchestrator.py:114-124 | permuted file lists share a key under every hash |
| AdvisoryLock.JoinOfPieces | app/rule_engine/orchestrator.py:121-121 | a text is its bar-separated pieces joined again |
| AdvisoryLock.PiecesOfJoin | app/rule_engine/orchestrator.py:121-121 | the pieces of joined names are the pieces of the names |
| AdvisoryLock.ContendExactly | app/rule_engine/orchestrator.py:114-124 | with a collision-free hash any two lists contend if and only if the pieces of their sorted names are the same |
| AdvisoryLock.PlainNamesContendExactly | app/rule_engine/orchestrator.py:114-124 | so non-empty lists of names without bars contend exactly when they are permutations |
| AdvisoryLock.BarInNameContends | app/rule_engine/orchestrator.py:114-124 | two disjoint lists that contend under every hash |
| AnalysisRuns.LoadBelowMeaning | app/rule_engine/orchestrator.py:590-618 | one file's query adds exactly its selected rows, none twice |
| AnalysisRuns.LoadFilesMeaning | app/rule_engine/orchestrator.py:572-618 | exactly the unconsumed rows of the accounts of the selected files, or of a file itself if it has no account, are loaded, each once |
| AnalysisRuns.LoadCreditRows | app/rule_engine/orchestrator.py:572-618 | the loops with their set of seen ids load exactly that list |
| AnalysisRuns.MutualExclusion | app/rule_engine/orchestrator.py:127-164 | at most one run of a key holds the lock |
| AnalysisRuns.NextKeepsInv | app/rule_engine/orchestrator.py:542-723 | every step of every run, ingestion and run creation keep the invariant |
| AnalysisRuns.ScheduleInv | app/rule_engine/orchestrator.py:542-723 | and so does every interleaving from an initial state |
| AnalysisRuns.PermutedRunsExclude | app/rule_engine/orchestrator.py:127-164 | of runs over permuted lists at most one is inside the analysis, and two that finished share no line item row |
| AnalysisRuns.SharedRowsWereStranded | app/rule_engine/orchestrator.py:658-723 | if two ended runs over permuted lists both have a line item for a ledger row, one of them raised right between creating its line item and marking the row |
| AnalysisRuns.FailedRunLeavesTwoLineItems | app/rule_engine/orchestrator.py:688-774 | that happens: one row, one file, a run that raises there and a second one that finishes, under every hash |
| AnalysisRuns.RefusedRunsTouchNothing | app/rule_engine/orchestrator.py:147-158 | a refused run has read nothing, committed nothing and marked no row |
| AnalysisRuns.ConsumedRowsHaveLineItems | app/rule_engine/orchestrator.py:496-510 | at every commit, error paths included, a row marked by a run has a line item of that run, a run loads no row twice, and every row with a line item is marked but for the one at which a failed run raised |
| AnalysisRuns.DroppedRowsStayUnconsumed | app/rule_engine/orchestrator.py:769-774 | whatever happens later, a run marks and commits only rows its extraction kept |
| RunProgress.RunLoadsWhatStaysOpen | app/rule_engine/orchestrator.py:572-618 | whatever happens while it loads, a run ends up holding only rows its files ask for, and every one of them that was there when it took the lock and is still unconsumed |
| RunProgress.IngestionAddsOpenRows | app/ingestion/ingest_service.py:331-366 | ingestion while runs are under way adds the new identities as open rows and touches no row, run or lock |
| RunProgress.FinishedRunsCommitEverything | app/rule_engine/orchestrator.py:646-774 | a run that finishes, in any interleaving, has committed a line item for exactly the rows its extraction kept, and each of them is consumed |
| AmountParser.ParseAmount | app/bank_statement/parser.py:138-193 | the stepwise parser computes the parsing function |
| AmountParser.ParseInvertsPrint | app/bank_statement/parser.py:138-193 | parsing inverts printing for every number of cents, both notations, four sign styles, CR and DR suffixes among them, and every plain prefix |
| AmountParser.FinishMagnitude | app/bank_statement/parser.py:169-193 | whatever kept characters spell a signed printed magnitude parse to its value |
| AmountParser.NormaliseMagnitude | app/bank_statement/parser.py:178-187 | the last separator is rightly taken as the decimal one on two printed decimals |
| AmountParser.MarkedTextParses | app/bank_statement/parser.py:162-171 | CR or DR in any case behind a blank, full stop or not, is cut off without losing a kept character, and negates exactly if it is DR |
| AmountParser.MarkedAmountParses | app/bank_statement/parser.py:138-193 | so a printed amount with CR keeps its sign and one with DR comes back negative |
| AmountParser.GluedMarkIsIgnored | app/bank_statement/parser.py:162-167 | a marker right behind the digits is not one, and the amount comes back positive |
| AmountParser.SignRunParses | app/bank_statement/parser.py:173-175 | any run of plus and minus signs may stand in front, and the first decides |
| AmountParser.InnerSignIsNoAmount | app/bank_statement/parser.py:169-193 | a sign between digits makes the text no amount |
| AmountParser.CellMeaning | app/bank_statement/parser.py:147-154 | missing cells and texts that spell a missing value have no amount, numeric cells are taken as they are |
| AmountParser.PrefixedParenthesesParse | app/bank_statement/parser.py:157-171 | behind any plain prefix a parenthesised amount keeps its sign if and only if the prefix is blank or, trimmed, opens with a parenthesis itself; otherwise it comes back positive |
| AmountParser.WholeUnitsParse | app/bank_statement/parser.py:178-193 | a comma-grouped whole number parses back below a thousand, shrinks a thousandfold below a million, and is rejected from there on |
| InvoiceScan.BrokenNumberIsFound | app/extraction/layer_2a_regex.py:49-53 | a unit's invoice number broken by any blanks and line breaks, in a clear context, is always found |
| InvoiceScan.RowNumberIsFound | app/extraction/layer_2a_regex.py:131-143 | the same in the joined, cleaned and upper-cased text of a row |
| InvoiceScan.NeighbourHidesNumber | app/extraction/layer_2a_regex.py:101-111 | with digits and a blank in front a broken number is missed, for every unit |
| InvoiceScan.ScanExactly | app/extraction/layer_2a_regex.py:91-113 | a string comes out of the scan if and only if it is a ten to sixteen digit number of the unit that stands free of word characters in the text or in the text with its digits rejoined |
| InvoiceScan.CleanMeaning | app/extraction/layer_2a_regex.py:49-53 | cleaning keeps every character that is no white space, in order, and leaves no line break, no two blanks in a row and no white space at the ends |
| InvoiceScan.RejoinedExactly | app/extraction/layer_2a_regex.py:106-106 | rejoining drops exactly the blanks between two digits of the text |
| InvoiceScan.WithoutInvMeaning | app/extraction/layer_2a_regex.py:56-58 | any spelling of INV in front is dropped, with one dash after it, and nothing else is |
| InvoiceScan.RowTextMeaning | app/extraction/layer_2a_regex.py:136-137 | the scanned text joins the row's non-empty texts with single blanks |
| InvoiceScan.WordsAreBounded | app/extraction/layer_2a_regex.py:97-111 | every candidate match is a run of word characters with none beside it |
| InvoiceScan.WordFound | app/extraction/layer_2a_regex.py:97-100 | a word-character run with none beside it is one of the matches' candidates |
| InvoiceScan.ScanWords | app/extraction/layer_2a_regex.py:97-111 | the match loop collects exactly the invoice-like words |
| InvoiceScan.OrderByLength | app/extraction/layer_2a_regex.py:113-113 | the same numbers, none twice, longest first |
| InvoiceScan.ExtractOuPrefixed | app/extraction/layer_2a_regex.py:91-113 | both passes: exactly the scan's numbers, none twice, longest first |
| InvoiceScan.AddNumbers | app/extraction/layer_2a_regex.py:146-150 | appends exactly the new non-empty numbers, in their order, and keeps those already there in place |
| InvoiceScan.ScanRow | app/extraction/layer_2a_regex.py:131-163 | the candidates hold every number of the unit\'s scan, none empty and none twice: the REF NO number first, then the unit\'s own, longest first, then the rest in the order of the generic passes |
| Extraction.ConfirmMeaning | app/extraction/layer_2a_regex.py:182-190 | confirmed numbers all resolve, none are left exactly when none resolves, and all are kept when all resolve |
| Extraction.ConfirmExactly | app/extraction/layer_2b_ai.py:465-474 | a number is confirmed exactly when it was proposed and resolves for the unit |
| Extraction.Split2AMeaning | app/extraction/layer_2a_regex.py:166-249 | found and not-found rows together are the chunk's rows, each once |
| Extraction.Split2AConfirmed | app/extraction/layer_2a_regex.py:182-240 | every found row has resolving numbers only and at least one; no other row has any |
| Extraction.BrokenNumberConfirmsRow | app/extraction/layer_2a_regex.py:131-240 | scan and filter composed: a unit's number broken in a clear context that resolves puts its row among the found ones with that number confirmed |
| Extraction.RunLayer2A | app/extraction/layer_2a_regex.py:166-249 | the loops compute that split |
| AiFallback.ClassifyMeaning | app/extraction/layer_2b_ai.py:454-544 | whatever is answered the payment is the row's own, is identified exactly when a number resolves or a customer is confirmed, and confirms exactly the resolving numbers |
| AiFallback.LastItemMeaning | app/extraction/layer_2b_ai.py:583-590 | the answer for a row is the last element claiming it |
| AiFallback.ReplyOrderIrrelevant | app/extraction/layer_2b_ai.py:582-590 | the order of an answer is irrelevant as long as no row is claimed twice |
| AiFallback.IndexReplies | app/extraction/layer_2b_ai.py:583-590 | the dictionary by row_index holds exactly those answers; it raises exactly if some row_index overflows |
| AiFallback.JobPaymentsMeaning | app/extraction/layer_2b_ai.py:547-601 | a job that does not raise yields one payment per row, in order, each with its own row and sound numbers; it raises exactly on an overflowing row_index or on unusable fields for one of its rows |
| AiFallback.ProcessBatch | app/extraction/layer_2b_ai.py:547-601 | the batch method, with its per-row fallback, computes that |
| AiFallback.JobsMeaning | app/extraction/layer_2b_ai.py:647-670 | every eligible row is in exactly one job; jobs are never empty, too long or of mixed units |
| AiFallback.GroupByUnit | app/extraction/layer_2b_ai.py:647-651 | the dictionary groups rows by unit in order |
| AiFallback.BuildJobs | app/extraction/layer_2b_ai.py:660-670 | the loop slices every group into jobs |
| AiFallback.SkipIdle | app/extraction/layer_2b_ai.py:633-645 | rows without a usable narrative become unknown at once, the others are eligible, both in order |
| AiFallback.DeliveredMeaning | app/extraction/layer_2b_ai.py:674-688 | delivered payments and rows of raised jobs account for every row |
| AiFallback.Layer2BConserves | app/extraction/layer_2b_ai.py:606-693 | whatever is answered each row ends in exactly one payment or in a raised job, and in a payment if all answers are well typed |
| AiFallback.CollectJobs | app/extraction/layer_2b_ai.py:674-688 | for every completion order the collected payments are those of all jobs, sorted into the two lists |
| AiFallback.RunLayer2B | app/extraction/layer_2b_ai.py:606-693 | the whole layer returns those payments |
| ChunkProcessor.ChunkConserves | app/extraction/chunk_processor.py:53-66 | each row of a chunk ends in one payment or a raised job, with confirmed numbers that resolve |
| ChunkProcessor.ProcessChunk | app/extraction/merger.py:35-66 | the merged result: all payments, 2A first, counts that match the lists |
| ChunkProcessor.DispatchChunks | app/extraction/chunk_processor.py:69-130 | for every completion order one result per chunk, in chunk order, made from that chunk alone, empty for a failed one |
| ChunkProcessor.ResultConserves | app/extraction/chunk_processor.py:133-145 | one result's lists and counts account for its chunk's rows |
| ChunkProcessor.ResultsConserve | app/extraction/chunk_processor.py:96-130 | over all chunks, rows returned plus rows dropped are the rows that went in |
| ChunkProcessor.DispatchConserves | app/extraction/chunk_processor.py:69-130 | with well-typed answers and no failure the rows in are the rows out |
| ChunkProcessor.IdentifiedPaymentsMatch | app/rule_engine/evaluator.py:268-276 | a payment identified by any means, evaluated without a remittance, never meets R4, and its non-empty match is the confirmed list in order |
| ChunkProcessor.DroppedRowsAreLeftForOthers | app/rule_engine/orchestrator.py:646-774 | chunked extraction and the run machine composed: the ledger ids of rows dropped by failed chunks are never marked by that run, in any later schedule |
| ChunkProcessor.ExtractionFeedsRun | app/rule_engine/orchestrator.py:646-723 | what extraction returns is always a legal input of the run: loaded rows, each at most once |
| RowFates.ConfirmPicks | app/extraction/layer_2a_regex.py:182-190 | the confirmed numbers are the resolving candidates, in the order of the candidates |
| RowFates.JobAnswers | app/extraction/layer_2b_ai.py:547-601 | payment i of a job that does not raise is made of the last batch element that claims row i, or of the row's own single answer, and is unknown without one |
| RowFates.JobRaisesExactly | app/extraction/layer_2b_ai.py:583-601 | a job raises exactly on an overflowing row_index or on unusable fields in the answer of one of its rows |
| RowFates.JobsKeepUnitsApart | app/extraction/layer_2b_ai.py:647-670 | rows share a job only if their units are the same but for white space, no unit counting as UNKNOWN_OU |
| RowFates.FoundFate | app/extraction/merger.py:21-66 | in the result of its chunk a row with a resolving candidate has an identified payment with its resolving candidates in order and the customer its scan found |
| RowFates.IdleFate | app/extraction/layer_2b_ai.py:633-645 | a row with neither a resolving candidate nor a narrative is unknown there, not attempted |
| RowFates.AnsweredFate | app/extraction/layer_2b_ai.py:606-693 | any other row has a place in a job, and there the payment its own answer makes unless that job raises |
| RowFates.BrokenNumberReachesPayment | app/extraction/layer_2a_regex.py:131-240 | from text to payment: a unit's number broken in a clear context that resolves is among the confirmed numbers of the row's identified payment |
| Batching.BatchesMeaning | app/extraction/chunk_processor.py:96-97 | slicing loses, repeats and moves nothing, and no slice is empty or too long |
| Batching.Slice | app/extraction/layer_2b_ai.py:667-667 | the slicing loop computes that |
| Batching.TotalAll | app/extraction/layer_2b_ai.py:681-688 | once all results are in, their order of arrival no longer shows |

## Left out

- Floating point: amounts are exact cents and rates exact reals, so drift of binary floats below half a cent is not modelled.
- Hash values: the row hash is its normalised text, and the lock hash is a parameter, collision-free only where a lemma says so.
- AnalysisRuns.NextKeepsInv: row-level locking and reads of uncommitted data are not modelled; a step sees committed rows only, and runs over overlapping but unequal file sets are not claimed to exclude each other.
- AnalysisRuns.ConsumedRowsHaveLineItems: says nothing about the bare-receipt loop that follows the chunks.
- LineItem.LineItem.ApproveRow: one call on an object nobody else changes; sessions that overlap are modelled in ApprovalRace, on values; exceptions after a posting are not modelled.
- ApprovalRace.ApprovalsPassExactly: a session reads its row once and writes the columns it changed when it commits; an isolation level above the database's default, which would refuse the second commit, is not modelled.
- LineItem.LineItem.RetryOraclePost: a retry reposts all references, accepted ones included; once-only posting of a single reference is not a property of the code.
- Conservation.PostedReferencesEqualReceipt: does not cover rows mapped by hand, breakups entered by hand, or remittances that state every amount, where the code does not conserve.
- AgingMap.AgingMap.Build: database rows are given; reading the aging workbook is not part of this model, nor are invoice type and invoice amount.
- LineItem.LineItem.UpdateFx: models the Leg 1 flag and rate only; invoice currency, Leg 2 and the sources of the rates do not enter any modelled decision.
- LineItem.LineItem.ApplyRuleResult: leaves out reason code, status text, target, shortfall and the history record, which nothing modelled reads back.
- LineItem.LineItem.PostReceipt: of the payload only the Amount is modelled.
- AnalysisRuns.LoadCreditRows: covers ledger rows of ingested files; the legacy direct parse of files that are not ready is left out, since its rows have no ledger row to consume.
- Allocation.SplitAmounts: the source writes stated amounts on shared objects; the model updates positions of a list, so aliasing of one invoice object is not captured.
- JsonCache.ReturnsAreLinearizable: a missing file and deletion between stat and read are not modelled.
- AmountParser.ParseAmount: digits and case are ASCII only.
- InvoiceScan.ScanRow: the REF NO and generic passes are parameters, since their numbers never remove one of the unit's own; their general patterns are not modelled.
- Extraction.RunLayer2A: the text scan and the fuzzy customer search are parameters; what the scan guarantees is composed with this layer in Extraction.BrokenNumberConfirmsRow.
- AiFallback.RunLayer2B: the AI is an arbitrary answer per job; prompts, grounding texts, token limits, confidence scores and raw responses are not modelled.
- ChunkProcessor.DispatchChunks: which chunks raise is a parameter; chunk identifiers are not modelled.
- Fuzzy matching scores, remittance search, duplicate detection and unit resolution: their results are inputs of the rule cascade.
- Reason codes beyond those of the rules, notes, status history and audit entries.
- Statement detection, column mapping, date parsing and file formats.
- HTTP routes, database sessions, authentication, dashboards, summaries, usage reports, storage clients and the file watcher.
