# Conversion tracking: verified model

This project models the part of the repository that turns WhatsApp messages and external MySQL rows into Meta
conversion events, and proves what keeps those events from being lost, doubled or misvalued. It is written for
Dafny 4.11; `dafny verify dfyconfig.toml` checks everything.

## What is modelled

**Provider conversions.** A message or an automation is evaluated into a decision (`DecisionEngine`; `EngineOutcomes`
says which), the decision is frozen in an append-only version chain (`DecisionChain`), orchestrated into an execution or
a human review, and materialized by workers into event logs. `Protocol` is this as a transition system of 23 atomic
steps: freezing, orchestrating, each read and write of a worker (load, count the attempt, take the advisory lock,
re-read, duplicate query, commit, enqueue, abort, crash, the two updates of the failure handler), deliveries, operator
edits, and each read and write of an approval. The advisory lock is an arbitrary function from scope key and event to a
lock id, so collisions only over-serialize. `ProtocolBasics` holds the invariants of every run, `ProtocolSteps` what
each step leaves alone, `ProtocolCommit` the two commits, `ProtocolTheorems` and `ProtocolSeparation` the deduplication
theorems, `ProtocolRuns` and `ProtocolCounterexample` the runs that show their conditions to be needed,
`ProtocolApprovals` approvals, `ProtocolProgress` when an approval succeeds. `ProductionStore` writes the same steps as
the services do, row by row, proves each method equal to its step and says what it does to the rows.

How far deduplication goes depends on what a re-evaluation may change, because the transaction re-reads only the status
of the execution. The theorems come in three layers; the second and third ask something of the decisions being frozen,
and for any decisions that do otherwise a run breaks them.

1. *Every run*: chains, links, locks and approvals stay consistent (`StepKeepsBasic`); a log is never dropped and no
   column of it but the delivery status is ever overwritten. Null columns can be filled: the content of a log changes if
   and only if a commit finds it and supplies a value or currency it lacks (`LogsAreFinal`). A log carries every value
   that the version it names supplies, and is exactly as that version has it if and only if it was never filled
   (`LoggedValueExactly`). It can be: for any two materializable decisions of one occurrence that the lock tells apart,
   the second supplying what the first lacks, some run leaves a log that names the first version and carries the value
   of the second (`SecondCommitFillsLog`; `RedeliveryValuesALog` is a page view of one lead valued by the redelivery to
   another).
2. *Runs whose re-evaluations keep the scope key* (versions without a policy, such as those of untracked leads, are
   free): no log is ever filled, so the logged value is that of the version it names (`LoggedValueIsConserved`),
   terminal executions are final (`TerminalIsFinal`), logs and materialized executions correspond
   (`LogsMatchMaterialized`), every duplicate has something it duplicates (`DuplicatesAreWitnessed`). For any two
   materializable decisions of one occurrence with different scopes, which the lock tells apart, some run breaks all
   of the last three (`ScopeIsNeeded`).
3. *Runs that keep their slots*, that is scope key and, but for qualified leads, the time of the occurrence, and that
   link no open execution with a scope to a decision without one: two materialized executions of one scope are at least
   24 hours apart, whichever engine froze them, and a lead is qualified once (`MaterializedAreSeparated`). For any
   materializable decision and any re-evaluation out of its slot that is orchestrated into its execution, some run with
   one more occurrence breaks this (`SlotIsNeeded`). `RedeliveryDoublesAPurchase` is an instance: a message of lead 1 is
   delivered again with the phone of lead 2 and that delivery is re-evaluated while a worker is about to commit; lead 1
   ends up with two purchases at one instant.

Over all runs, whatever is frozen, a rule about pairs of logs holds in the end if and only if every commit that wrote a
log found it clear (`RunApartExactly`).

The engine rollout sets a further limit: the frozen legacy engine deduplicates `LeadSubmitted` in a 24h window, the
canonical engine once per lead. A canonical submission is the only one of its lead if and only if no legacy one is
committed after it (`LifetimeIsAloneExactly`), in particular when all are canonical (`LifetimeIsAlone`); any pair a day
apart does occur together in some run (`LifetimeNeedsOneEngine`).

**Messages.** `CatalogLines` groups attribute lines into items, `CatalogParser` reads quantities, resolves variants and
values a message, `CatalogRendering` and `CatalogOrders` prove the round trips, `Money` parses amounts. `StableJson` is
the canonical text that fingerprints are computed from, `DecisionJson` writes decisions as the values it prints, by way
of `JsonObjects`, and `ReviewCorrection` is the human correction of an order.

**External data.** `ExternalPaging` is the keyset pagination and when it ends, `ExternalSync` the paged event sync with
a persisted cursor, crashes and restarts; `LeadRefresh` the mark-and-sweep of a full refresh; `Cutover` the handover of
one event type after the other; `ExternalIdentity` the percent-encoded deduplication keys; `Recordings` the merging of
repeated recordings; `CatalogAliases` alias-only catalog edits.

Some further results differ from what the code's names suggest. An item with a missing attribute is reported as
"awaiting data"; the reason "incomplete item" is unreachable (`ItemMatchedExactly`). An external row all of whose calls
are refused, the write of each rejection failing silently, is passed by the cursor without a record; the records are
complete if and only if there is no such row (`SyncWithRestarts`, and `LoseRow` for the input). The cursor keeps
milliseconds: a full page moves it forward if and only if the cursor it leaves is not before the page's first row
(`CursorPassesExactly`). The loop over pages ends if and only if it reaches the last page within as many pages as the
view has rows (`EndsExactly`); then it reads every row from the lowest position it reaches on. It always ends when every
full page moves the cursor forward (`AdvancesEnds`), for which `LaterPagesAdvance` gives a condition. It need not: one
page can be read over and over (`StuckExactly`), or two in turn (`PagesAlternate`). A lead refresh fails when a lead it
would delete is named by a frozen decision, after detaching that lead's logs and event records, and a retry fails again
(`ReconcileLeadSnapshot`). Connector settings loaded before an activation can make an event ready that predates the
cutover; that never happens if and only if no such event is ingested with settings that do not show the cutover
(`NothingReadyPredatesCutover`); the send gate refuses it in any case. A live recording overtaken by the creation of an
imported log is dropped, and the log stays imported (`CreatedOnce`).

## Model

| member | source | states |
|---|---|---|
| DecisionChain.ReachableChainIsValid | apps/api/src/conversion-rules/provider-conversion-decision.repository.ts:109-194 | after any requests a chain has versions 1..n, distinct evaluation keys, the initial entry first, each entry superseding its predecessor, and no stored version has changed |
| DecisionChain.ImplicitReevaluationUnreachable | apps/api/src/conversion-rules/provider-conversion-decision.repository.ts:330-357 | the refusal of a second initial record can never be reached |
| DecisionChain.ReplayReturnsOriginal | apps/api/src/conversion-rules/provider-conversion-decision.repository.ts:138-176 | replaying an accepted request after any later history returns the original record and changes nothing |
| DecisionChain.ConflictingReplayIsRefused | apps/api/src/conversion-rules/provider-conversion-decision.repository.ts:138-176 | the same evaluation key with another decision is refused at any later time, without effect |
| DecisionChain.LatestIsTheUnsuperseded | apps/api/src/conversion-rules/provider-conversion-decision.repository.ts:227-243 | the highest version is the one entry no other entry supersedes |
| DecisionChain.TransactionKeepsTable | apps/api/src/conversion-rules/provider-conversion-decision.repository.ts:128-194 | one transaction keeps all chains valid and touches only the chain of its own rule and occurrence |
| DecisionChain.DecisionRepository.PersistRequest | apps/api/src/conversion-rules/provider-conversion-decision.repository.ts:109-194 | the repository method has exactly the effect and the answer of that transaction |
| DecisionChain.DecisionRepository.FindLatest | apps/api/src/conversion-rules/provider-conversion-decision.repository.ts:227-243 | returns the unsuperseded entry, and nothing exactly when there is no chain |
| Decisions.ScopeKeyInjective | apps/api/src/conversion-rules/provider-conversion-decision.engine.ts:402-406 | in one workspace a scope key names one event and one lead |
| Decisions.PoliciesDifferOnLeadSubmitted | apps/api/src/conversion-rules/provider-conversion-legacy-decision.engine.ts:179-218 | legacy and canonical deduplication policies are equal for every event but LeadSubmitted |
| Decisions.SameScopeSameEvent | apps/api/src/conversion-rules/provider-conversion-decision.engine.ts:393-421 | decisions of one scope key are of one event and one lead, and of one policy unless the event is LeadSubmitted |
| ProtocolBasics.StepKeepsBasic | apps/api/src/inbound-webhook-production/provider-conversion-production.service.ts:135-247 | every step keeps chains valid, links and timestamps right, locks exclusive, review values equal to their lines, and each review version claimed at most once with an eligible version written for it |
| ProtocolBasics.TransactionAnswers | apps/api/src/conversion-rules/provider-conversion-decision.repository.ts:138-194 | an accepted request is answered with the stored version carrying its key and decision |
| ProtocolSafety.SameScopeSameLock | apps/api/src/inbound-webhook-production/provider-conversion-production.service.ts:549-563 | jobs of one scope contend for one lock, whatever the lock function |
| ProtocolSafety.OthersUseOtherScopes | apps/api/src/inbound-webhook-production/provider-conversion-production.service.ts:549-563 | two transactions that are inside at once work in different scopes, and on different executions when the versions of each chain share their scope |
| ProtocolSteps.StepIsCalm | apps/api/src/inbound-webhook-production/provider-conversion-production.service.ts:203-246 | every step but a commit leaves terminal executions and the content of logs alone; only freezing and approvals write decisions, only orchestration links executions |
| ProtocolSteps.StepKeepsStable | apps/api/src/conversion-rules/provider-conversion-review-approval.service.ts:299-343 | approvals never change scope or time of an occurrence; a chain stays stable when its re-evaluations agree with it |
| ProtocolCommit.StepKeepsRecorded | apps/api/src/inbound-webhook-production/provider-conversion-production.service.ts:678-747 | every step of every run leaves each log with an eligible version of its own chain, with that version's event, time and whatever value and currency it has, and with any other value or currency supplied by another eligible version |
| ProtocolCommit.StepKeepsLogExactly | apps/api/src/conversion-events/conversion-events.service.ts:501-526 | no step drops a log or overwrites a column of it but the delivery status, and its content changes if and only if a commit supplies a value or currency it lacks |
| ProtocolCommit.MergesAsRecorded | apps/api/src/conversion-events/conversion-events.service.ts:501-526 | what a commit merges into an existing log is the merge of a repeated recording |
| ProtocolCommit.StepKeepsSafe | apps/api/src/inbound-webhook-production/provider-conversion-production.service.ts:503-770 | every step keeps witnesses, the answers workers hold, and the match of logs and executions, if a re-evaluation keeps the scope |
| ProtocolTheorems.LoggedValueIsConserved | apps/api/src/inbound-webhook-production/provider-conversion-production.service.ts:514-531 | along every run whose re-evaluations keep the scope the value on the log of a frozen execution is that of the eligible version it names, for catalogs the sum of quantity times unit price, and absent for events without value |
| ProtocolTheorems.LogsAreFinal | apps/api/src/inbound-webhook-production/provider-conversion-production.service.ts:678-747 | along every run a log is never dropped and no column but the delivery status is overwritten; its content stays the same if and only if no commit fills a null column |
| ProtocolTheorems.LoggedValueExactly | apps/api/src/inbound-webhook-production/provider-conversion-production.service.ts:514-531 | along every run a log carries every value and currency that the version it names supplies, for catalogs the sum of quantity times unit price, and is as that version has it if and only if no commit ever filled it |
| ProtocolTheorems.RequiredValueIsLogged | apps/api/src/inbound-webhook-production/provider-conversion-production.service.ts:514-531 | along every run a purchase or checkout of a frozen execution is logged with a positive value and a currency |
| ProtocolTheorems.CommitKeepsTerminalExactly | apps/api/src/inbound-webhook-production/provider-conversion-production.service.ts:565-595 | whatever happened before, a commit leaves the terminal execution it finds alone, lead and log included, if and only if its query answer and lead agree with what is stored and it fills no null column of the log |
| ProtocolTheorems.DuplicateCommitWitnessesExactly | apps/api/src/inbound-webhook-production/provider-conversion-production.service.ts:642-676 | whatever happened before, marking an execution a duplicate leaves another duplicate something it duplicates if and only if that has another witness |
| ProtocolTheorems.RunKeepsSafe | apps/api/src/inbound-webhook-production/provider-conversion-production.service.ts:503-770 | runs of any length and interleaving whose re-evaluations keep the scope keep the safety invariants, with no condition on commits |
| ProtocolTheorems.DuplicatesAreWitnessed | apps/api/src/inbound-webhook-production/provider-conversion-production.service.ts:642-676 | along such runs each frozen duplicate still has a materialized execution in the scope and window of an eligible version of it |
| ProtocolTheorems.LogsMatchMaterialized | apps/api/src/inbound-webhook-production/provider-conversion-production.service.ts:678-747 | along such runs an execution is materialized exactly when the log with its key exists, and says so exactly then |
| ProtocolTheorems.TerminalIsFinal | apps/api/src/conversion-rules/provider-conversion-orchestrator.service.ts:118-214 | once materialized or duplicate, an execution keeps status, link, lead and log for ever along such runs |
| ProtocolSeparation.ClashSymmetric | apps/api/src/inbound-webhook-production/provider-conversion-production.service.ts:597-640 | which two events should not both exist does not depend on which comes first, whatever their engines |
| ProtocolSeparation.RunApartExactly | apps/api/src/inbound-webhook-production/provider-conversion-production.service.ts:597-647 | along every run a rule about pairs of logs holds in the end if and only if every commit that wrote a log found it clear |
| ProtocolSeparation.MaterializedAreSeparated | apps/api/src/inbound-webhook-production/provider-conversion-production.service.ts:549-676 | along runs that keep their slots two materialized executions of one scope are at least a window apart, whichever engine froze them, and a lead is qualified once |
| ProtocolSeparation.OlderAreSeparated | apps/api/src/inbound-webhook-production/provider-conversion-production.service.ts:597-640 | along runs that keep their scopes no event is in the window of an older one of the same phone and event, and none exists beside one when it was to be the only one |
| ProtocolSeparation.LifetimeIsAloneExactly | apps/api/src/conversion-rules/provider-conversion-legacy-decision.engine.ts:179-218 | along runs that keep their slots a lifetime event is the only one of its scope if and only if no commit under a window policy came after one under a lifetime policy |
| ProtocolSeparation.LifetimeIsAlone | apps/api/src/conversion-rules/provider-conversion-decision.engine.ts:393-421 | which holds when no submitted lead is frozen under the window policy |
| ProtocolCounterexample.SlotIsNeeded | apps/api/src/conversion-rules/provider-conversion-observation.service.ts:361-440 | for any materializable decision and any orchestrated re-evaluation out of its slot, a run of the two and a twin of the first ends with two logs of one scope within a window |
| ProtocolCounterexample.RedeliveryDoublesAPurchase | apps/api/src/conversion-rules/provider-conversion-paid-lead-resolver.service.ts:10-32 | one message delivered with two phones gives its first lead two purchases at one instant, all decisions having the phone hash of their own lead |
| ProtocolCounterexample.ScopeIsNeeded | apps/api/src/inbound-webhook-production/provider-conversion-production.service.ts:565-595 | for any two materializable decisions of one occurrence in scopes the lock tells apart, a run turns a materialized execution with a log into a duplicate and leaves a duplicate without a witness |
| ProtocolCounterexample.SecondCommitFillsLog | apps/api/src/conversion-events/conversion-events.service.ts:501-526 | for any two materializable decisions of one occurrence that the lock tells apart, a run leaves a log that names the first and carries what the second supplied beyond it; it is as the first has it if and only if the second supplies nothing more |
| ProtocolCounterexample.RedeliveryValuesALog | apps/api/src/conversion-rules/provider-conversion-paid-lead-resolver.service.ts:10-32 | a page view without value, delivered again with another phone once the rule has a value, leaves the log of the first lead with the value of the second |
| ProtocolCounterexample.LifetimeNeedsOneEngine | apps/api/src/conversion-rules/provider-conversion-legacy-decision.engine.ts:179-218 | any canonical and legacy submission of one lead, a window apart, are both materialized by some run |
| ProtocolApprovals.ApprovalsAppendOnce | apps/api/src/conversion-rules/provider-conversion-review-approval.service.ts:137-240 | however approvals interleave, a review version gets at most one decision version and is claimed at most once, backed by an eligible version |
| ProtocolApprovals.ApprovalKeysDiffer | apps/api/src/conversion-rules/provider-conversion-review-approval.service.ts:137-144 | approvals of two versions of a review never share an evaluation key |
| ProtocolApprovals.GrantedExists | apps/api/src/conversion-rules/provider-conversion-review-approval.service.ts:100-122 | what is granted to a caller is the existing execution of the review it asked about last |
| ProtocolApprovals.VersionBacksOneClaim | apps/api/src/conversion-rules/provider-conversion-review-approval.service.ts:137-153 | one decision version is never written for two versions of a review |
| ProtocolProgress.FirstApprovalIsGrantedExactly | apps/api/src/conversion-rules/provider-conversion-review-approval.service.ts:86-241 | asked alone, the first approval of a review version is granted if and only if it was before, or the review is open, complete and ready, the latest version can be corrected and the execution is not final; then execution and review are on a new version worth what the review says |
| ProtocolProgress.RepeatedApprovalIsGrantedExactly | apps/api/src/conversion-rules/provider-conversion-review-approval.service.ts:125-241 | asked again alone, it appends nothing and is granted if and only if it was before, or the review is ready, the version written for it eligible and the execution not final |
| ProtocolProgress.DeliveryLeaves | apps/api/src/conversion-events/conversion-events.service.ts:709-859 | only a ready log is sent and becomes sent or failed; its execution is then sent, retryable after a network error, blocked without a configuration and else failed for good |
| ProductionStore.Store.PersistExecution | apps/api/src/conversion-rules/provider-conversion-orchestrator.service.ts:118-214 | the upsert has the effect of its protocol step: it writes exactly unless the row is terminal or has this version and status already, and links the row to the version |
| ProductionStore.Store.PersistReview | apps/api/src/conversion-rules/provider-conversion-orchestrator.service.ts:216-342 | the review upsert leaves decided reviews alone and starts any other anew with the lines and value of the decision |
| ProductionStore.Store.Orchestrate | apps/api/src/conversion-rules/provider-conversion-orchestrator.service.ts:53-116 | an eligible decision is linked to the execution, one for review to the review, and nothing else changes |
| ProductionStore.Store.FindDuplicate | apps/api/src/inbound-webhook-production/provider-conversion-production.service.ts:597-640 | returns a row that answers the duplicate query, and none only if there is none |
| ProductionStore.ConflictsExactly | apps/api/src/inbound-webhook-production/provider-conversion-production.service.ts:597-640 | a row conflicts if and only if it is another materialized execution of the same scope, or of the same phone and event when nothing frozen is linked to it, within the window or at any time for a lifetime event |
| ProductionStore.Store.MaterializeFrozen | apps/api/src/inbound-webhook-production/provider-conversion-production.service.ts:555-769 | run without interruption, the transaction is the re-read, query and commit steps of the protocol, and an existing log is merged as a repeated recording |
| ProductionStore.FrozenFailure | apps/api/src/inbound-webhook-production/provider-conversion-production.service.ts:1141-1175 | there is no frozen-decision failure exactly when the job may be materialized, and every such failure is permanent |
| ProductionStore.Store.ProcessExecution | apps/api/src/inbound-webhook-production/provider-conversion-production.service.ts:135-247 | run without interruption, an execution that is eligible, or failed with a retryable delivery, and linked to a stored version ends duplicate if another conflicts, else materialized with its log, or failed as access, decision or route say; any other is left alone; a failed enqueue fails the job but not the execution |
| ProductionStore.RetriedExactly | apps/api/src/inbound-webhook-production/provider-conversion-production.service.ts:161-168 | after a failure an execution is taken up again if and only if the failure was of billing or unexpected |
| ProductionStore.FailureLeaves | apps/api/src/inbound-webhook-production/provider-conversion-production.service.ts:1241-1273 | the handler leaves an eligible or failed execution retryable, blocked or failed for good, by the kind of failure, and any other as it is |
| ProductionStore.Store.HandleFailure | apps/api/src/inbound-webhook-production/provider-conversion-production.service.ts:203-235 | the failure handler is its two protocol steps, and writes no log |
| ProductionStore.Store.UpdateItems | apps/api/src/inbound-webhook-production/purchase-reviews.service.ts:128-228 | an edit is accepted exactly for an open review, or one whose event was sent with a value, and for variants on offer with a safe positive total; the review then holds the lines asked for at the prices of their variants and is worth their sum |
| ProductionStore.Store.Reject | apps/api/src/inbound-webhook-production/purchase-reviews.service.ts:230-288 | exactly an open review without an event is rejected, its open execution is blocked, and a terminal one is left alone |
| ReviewCorrection.EditIsResolvedExactly | apps/api/src/inbound-webhook-production/purchase-reviews.service.ts:377-430 | an edit is refused exactly when the catalog is not active, a line asks for a variant that is not on offer, or the total is not positive and safe; otherwise each line has the price and attributes of the variant asked for, and the total is quantity times price |
| ReviewCorrection.LinesAreCorrectedExactly | apps/api/src/conversion-rules/provider-conversion-review-approval.service.ts:345-398 | reviewed lines are accepted if and only if each has the current price of an active variant, that price times its quantity, and all attributes; the items then say what the lines say |
| ReviewCorrection.CorrectionExactly | apps/api/src/conversion-rules/provider-conversion-review-approval.service.ts:299-343 | a correction succeeds if and only if occurrence and rule are for purchases of a known lead and, for a catalog rule, every line still holds; it is worth what the review says |
| ReviewCorrection.LinesAreTheItems | apps/api/src/conversion-rules/provider-conversion-orchestrator.service.ts:216-342 | a review starts with variant, quantity, prices, names and values of the items of its decision |
| ReviewCorrection.CorrectionIsIssued | apps/api/src/conversion-rules/provider-conversion-review-approval.service.ts:299-343 | a corrected decision keeps occurrence and deduplication key and is worth the sum of its items |
| StableJson.StableJsonIsCanonical | apps/api/src/conversion-rules/provider-conversion-decision.repository.ts:365-382 | two JSON values print alike if and only if they are equal up to object key order |
| StableJson.FingerprintsDecideEquality | apps/api/src/conversion-rules/provider-conversion-decision.repository.ts:359-363 | with an injective digest equal fingerprints mean equal values |
| StableJson.PrefixFree | apps/api/src/conversion-rules/provider-conversion-decision.repository.ts:365-382 | no printed value is the beginning of another in any context a value can stand in |
| StableJson.BodyUnique | apps/api/src/conversion-rules/provider-conversion-decision.repository.ts:365-382 | JSON string escaping can be read back in only one way |
| JsonObjects.SameIsEqual | apps/api/src/conversion-rules/provider-conversion-decision.repository.ts:373-382 | objects written with their keys in one order at every depth are equal up to key order only if they are equal |
| DecisionJson.DecisionIsFaithful | apps/api/src/conversion-rules/provider-conversion-decision.repository.ts:359-382 | two decisions are written as equal JSON values only if they are equal |
| DecisionJson.FingerprintsDecideDecisions | apps/api/src/conversion-rules/provider-conversion-decision.repository.ts:359-363 | with an injective digest the fingerprints of two decisions are equal if and only if the decisions are |
| CatalogLines.AttributeLookup | apps/api/src/conversion-rules/structured-catalog-message.parser.ts:65-72 | the lookup map sends a normalized label or key to the last attribute that has it |
| CatalogLines.ParseRawItems | apps/api/src/conversion-rules/structured-catalog-message.parser.ts:74-118 | the one-pass grouping yields the specified items and the set of attribute lines |
| CatalogLines.ItemsPartitionTheLines | apps/api/src/conversion-rules/structured-catalog-message.parser.ts:90-115 | on any message the items are the unique cut of the attribute lines into runs without a repeated attribute, opened only by the first attribute or a repetition |
| CatalogRendering.RecognizeWritten | apps/api/src/conversion-rules/structured-catalog-message.parser.ts:91-98 | a written attribute line is recognized with its attribute and value |
| CatalogRendering.GroupingRoundTrip | apps/api/src/conversion-rules/structured-catalog-message.parser.ts:74-118 | items written line by line parse back to exactly those items, whatever other lines stand in between |
| CatalogOrders.QuantityTextParses | apps/api/src/conversion-rules/structured-catalog-message.parser.ts:120-134 | a quantity from 1 to 100 written in front of a value is read back with the value |
| CatalogOrders.SplitIsRead | apps/api/src/conversion-rules/structured-catalog-message.parser.ts:120-134 | a value that starts with one to three digits, a times sign and a text has that number as quantity, which is valid from 1 to 100 |
| CatalogOrders.UnsplitIsOne | apps/api/src/conversion-rules/structured-catalog-message.parser.ts:120-134 | a value that splits in no such way is taken whole, once |
| CatalogOrders.SingleMatchIsOnly | apps/api/src/conversion-rules/structured-catalog-message.parser.ts:160-178 | the variant filter leaves one variant exactly when one and only one active variant accepts the values |
| CatalogOrders.AcceptsExactly | apps/api/src/conversion-rules/structured-catalog-message.parser.ts:136-178 | a variant accepts an item if and only if it is active and each value, or the number of metres in it, normalizes to its own value or to an alias |
| CatalogOrders.ItemMatchedExactly | apps/api/src/conversion-rules/structured-catalog-message.parser.ts:267-341 | an item is matched exactly when its quantity is valid, it is complete and one variant accepts it; otherwise it has no price, and "incomplete item" never occurs |
| CatalogOrders.MatchedItemIsPriced | apps/api/src/conversion-rules/structured-catalog-message.parser.ts:330-340 | a matched item carries the price and id of the only accepting variant and a quantity from 1 to 100 |
| CatalogOrders.MatchedItemIsNamed | apps/api/src/conversion-rules/structured-catalog-message.parser.ts:224-238 | a matched item is named as its variant is, or after the product and the labelled values |
| CatalogOrders.ParsedValuesExactly | apps/api/src/conversion-rules/structured-catalog-message.parser.ts:278-281 | an item shows exactly the attributes that have a value, trimmed, under their labels |
| CatalogOrders.MatchIsValuedByItems | apps/api/src/conversion-rules/structured-catalog-message.parser.ts:343-427 | any recognized message is worth quantity times unit price over its items, anything else has no value |
| CatalogOrders.IgnoredExactly | apps/api/src/conversion-rules/structured-catalog-message.parser.ts:373-386 | a message is passed over as an empty template if and only if no item has a value |
| CatalogOrders.MatchIsNamed | apps/api/src/conversion-rules/structured-catalog-message.parser.ts:403-426 | one item lends a recognized message its variant and name, several are named by the product and their summed quantities |
| CatalogOrders.FirstProblemIsReported | apps/api/src/conversion-rules/structured-catalog-message.parser.ts:388-412 | a message with values is held for the reason of its first item that is not matched |
| CatalogOrders.WaitsExactly | apps/api/src/conversion-rules/structured-catalog-message.parser.ts:388-412 | a message waits for the customer if and only if some item has a value, some is not matched, and those that are not only lack data |
| CatalogOrders.MessageObservesExactly | apps/api/src/conversion-rules/structured-catalog-message.parser.ts:367-372 | a message is observed to pay an amount if and only if that is the only one in its lines outside the items |
| CatalogOrders.OrderRoundTrip | apps/api/src/conversion-rules/structured-catalog-message.parser.ts:343-427 | an order written line by line is recognized as exactly that order with its total |
| Money.TokenParses | apps/api/src/conversion-rules/structured-catalog-message.parser.ts:180-197 | every token of the money grammar parses to its amount, or to nothing exactly when that is zero or above 2^53 - 1, under any double-precision rounding |
| Money.RenderParses | apps/api/src/conversion-rules/structured-catalog-message.parser.ts:18-19 | Brazilian and US renderings of 1 to 2^53 - 1 cents, grouped or not, with or without sign, parse back |
| Money.ObservedExactly | apps/api/src/conversion-rules/structured-catalog-message.parser.ts:199-213 | a payment value is observed exactly when the lines outside the items carry one distinct amount |
| Money.ObservedPaymentValue | apps/api/src/conversion-rules/structured-catalog-message.parser.ts:199-213 | the loop over lines and tokens computes that value |
| DecisionEngine.EnginesAgreeExactly | apps/api/src/conversion-rules/provider-conversion-decision.engine.ts:28-308 | where the legacy engine decides, the comparison finds no mismatch if and only if a stated condition on rule and trigger holds |
| DecisionEngine.NoMismatchMeansEqual | apps/api/src/conversion-rules/provider-conversion-shadow-comparison.service.ts:129-190 | there is no mismatch code if and only if the semantic projections are equal |
| DecisionJson.TextsDecideMismatch | apps/api/src/conversion-rules/provider-conversion-shadow-comparison.service.ts:155-190 | comparing leads and conversions as canonical texts gives the mismatch code of the values, and none if and only if the projections are equal |
| DecisionEngine.CanonicalIsIssued | apps/api/src/conversion-rules/provider-conversion-decision.engine.ts:28-81 | canonical decisions have the lead, policy and value the protocol relies on |
| DecisionEngine.LegacyIsIssued | apps/api/src/conversion-rules/provider-conversion-legacy-decision.engine.ts:24-129 | so do legacy decisions |
| EngineOutcomes.MatchesTheFirst | apps/api/src/conversion-rules/structured-catalog-message.parser.ts:36-52 | the phrase found is the first one that is not blank and that the message contains, both normalized, and none is found only if none occurs |
| EngineOutcomes.DecidesExactly | apps/api/src/conversion-rules/provider-conversion-decision.engine.ts:83-162 | the engine decides if and only if the rule is active and for the event, and a phrase occurs in a message of an allowed author, a label matches, or an active catalog is called; lead and duplicates do not matter |
| EngineOutcomes.MessageAmountWins | apps/api/src/conversion-rules/provider-conversion-decision.engine.ts:280-318 | for a triggered phrase rule that reads amounts, the one amount of the message is the value, over the default, in the currency of the rule or in BRL |
| EngineOutcomes.DefaultIsFallback | apps/api/src/conversion-rules/provider-conversion-decision.engine.ts:280-308 | without an amount taken from the message the decision is worth the default value of the rule |
| EngineOutcomes.MissingValueIsHeld | apps/api/src/conversion-rules/provider-conversion-decision.engine.ts:184-222 | without value or currency a purchase or checkout is held for review, any other event is eligible without value |
| EngineOutcomes.ValuelessEventIsEligible | apps/api/src/conversion-rules/provider-conversion-decision.engine.ts:184-195 | an event that carries no value is eligible without one |
| EngineOutcomes.CatalogRuleDecides | apps/api/src/conversion-rules/provider-conversion-decision.engine.ts:105-162 | a catalog rule ignores an empty template, holds what it does not match and values what it matches |
| EngineOutcomes.DuplicateIsMarked | apps/api/src/conversion-rules/provider-conversion-decision.engine.ts:66-81 | a duplicate match turns an eligible decision into a duplicate of what it names and changes nothing else |
| EngineOutcomes.UnknownLeadIsIgnored | apps/api/src/conversion-rules/provider-conversion-decision.engine.ts:34-53 | without a known paid lead a decision is ignored for the reason of the resolution, unless it is an empty template |
| EngineOutcomes.DecisionIsAboutInput | apps/api/src/conversion-rules/provider-conversion-decision.engine.ts:352-421 | every decision carries the occurrence, rule and lead given, and the lifetime or 24h scope of event, workspace and lead |
| EngineOutcomes.LegacyDecidesExactly | apps/api/src/conversion-rules/provider-conversion-legacy-decision.engine.ts:24-129 | outside catalogs the legacy engine decides exactly for a known lead what is triggered and has a default value and currency, qualified leads of automations without; it never takes a value from the message |
| EngineOutcomes.LegacyCatalogDecidesExactly | apps/api/src/conversion-rules/provider-conversion-legacy-decision.engine.ts:48-73 | for a known lead the legacy engine decides what a catalog makes of any triggered message that is not ignored, with its value and items |
| EngineOutcomes.ComparesExactly | apps/api/src/conversion-rules/provider-conversion-shadow-comparison.service.ts:129-190 | two decisions compare without a mismatch if and only if code, reason, event, source, channel and conversion are equal, and the lead with ad and click, or why there is none |
| ExternalPaging.PassedSplits | apps/api/src/external-data/external-mysql.adapter.ts:219-223 | in an ordered view the rows behind a cursor are a suffix, and the query selects exactly it |
| ExternalPaging.ReadAgainExactly | apps/api/src/external-data/external-sync.service.ts:608-643 | a row is read again after the cursor moved to it if and only if its timestamp is finer than milliseconds |
| ExternalPaging.CursorPassesExactly | apps/api/src/external-data/external-sync.service.ts:608-643 | the cursor left by a page never passes more than the page, and passes its first row if and only if that is not after it |
| ExternalPaging.EndsExactly | apps/api/src/external-data/external-sync.service.ts:303-343 | the loop over pages ends, after any number of pages, if and only if it reaches the last page within as many pages as the view has rows |
| ExternalPaging.StuckExactly | apps/api/src/external-data/external-sync.service.ts:303-343 | a full page is read again at once if and only if the cursor it leaves stands right before its first row: the period-one case of a loop that does not end |
| ExternalPaging.PagesAlternate | apps/api/src/external-data/external-sync.service.ts:303-343 | five rows on which two pages are read in turn for ever |
| ExternalPaging.AdvancesEnds | apps/api/src/external-data/external-sync.service.ts:303-343 | a loop whose full pages all move the cursor forward ends and reads nothing before its start |
| ExternalPaging.LaterPagesAdvance | apps/api/src/external-data/external-sync.service.ts:303-343 | full pages that end on a row a cursor can hold, or reach into another millisecond, all move the cursor forward |
| ExternalPaging.LimitsAgree | apps/api/src/external-data/external-sync.service.ts:811-817 | loop and query use one positive limit: what is configured, at most 1000, or 200 |
| ExternalSync.EventSync.IngestRow | apps/api/src/external-data/external-event-ingestion.service.ts:73-176 | one row changes at most its own record: a new one is imported, a duplicate when the service says so, or rejected; a known one is a duplicate and keeps the larger count; a filtered one changes nothing |
| ExternalSync.RecordedExactly | apps/api/src/external-data/external-event-ingestion.service.ts:73-176 | after a call a row has a record exactly when it had one, or is not filtered and its call was accepted or its rejection written |
| ExternalSync.EventSync.SyncEvents | apps/api/src/external-data/external-sync.service.ts:291-345 | whenever the loop over pages ends, a run ends with every wanted row from the lowest position it reached called for, its counts are those of the rows read and of the calls made, and a crash loses nothing it had covered |
| ExternalSync.EventSync.SyncWithRestarts | apps/api/src/external-data/external-sync.service.ts:291-345 | whenever the loop over pages ends, after any crashes and restarts exactly the wanted rows from the lowest position it reaches were called for, and the records are those of an uninterrupted run if and only if no wanted row had all its calls refused unrecorded |
| ExternalSync.LoseRow | apps/api/src/external-data/external-event-ingestion.service.ts:160-175 | one such refusal loses its row: the cursor has passed it and there is no record |
| LeadRefresh.LeadTables.ReconcileLeadSnapshot | apps/api/src/external-data/external-sync.service.ts:464-558 | the sweep succeeds if and only if no frozen decision names a lead it would delete; then it removes exactly the stale records and the external leads no surviving record refers to, otherwise it stops at such a lead with only that lead and those before it detached, and stops there again |
| LeadRefresh.DeletableExactly | apps/api/src/external-data/external-sync.service.ts:464-558 | a lead can be deleted if and only if it is external, a stale record of the connector names it and no other live record does |
| LeadRefresh.SweptExactly | apps/api/src/external-data/external-sync.service.ts:464-558 | exactly the live records of the connector from before the snapshot are removed |
| LeadRefresh.LeadTables.IngestLead | apps/api/src/external-data/external-sync.service.ts:347-462 | the record of the row, and no other, is imported and names the lead found or created, which then exists, or is rejected and keeps the lead it named |
| LeadRefresh.LeadTables.RefreshLeads | apps/api/src/external-data/external-sync.service.ts:217-289 | whenever the loop over pages ends, after a successful refresh the records of the connector are exactly those of the unfiltered rows just read; a failed one still has a record for each; each says what the last call for its row came to, no lead it names is deleted, and the counts are those of the rows read and filtered |
| LeadRefresh.SweepKeepsMarked | apps/api/src/external-data/external-sync.service.ts:464-558 | sweeping what was not received since the snapshot keeps exactly the rows read |
| LeadRefresh.SweepKeepsRecorded | apps/api/src/external-data/external-sync.service.ts:464-558 | neither the records of the rows just read nor the leads they name are swept |
| Cutover.ModesAgree | apps/api/src/external-data/external-data.service.ts:380-526 | along every run at most one cutover per type is active, both mode flags equal the active-count tests, and nothing delivered predates its cutover |
| Cutover.NothingReadyPredatesCutover | apps/api/src/external-data/external-data.service.ts:393-418 | in every state of a run no ready log predates its cutover, if and only if no event that predates the active cutover is ingested with a context that does not show it |
| Cutover.IngestKeepsReadyExactly | apps/api/src/external-data/external-event-ingestion.service.ts:210-217 | ingesting a new or promotable ready event keeps that if and only if, when the event predates the active cutover, it predates the cutover in the loaded context |
| Cutover.EnqueueTestIsSendGate | apps/api/src/external-data/external-event-ingestion.service.ts:707-728 | in every reachable state the enqueue test on fresh settings and the send gate agree |
| Cutover.StaleContextMisjudges | apps/api/src/external-data/external-event-ingestion.service.ts:210-217 | with settings loaded before an activation an earlier event is recorded as ready, and the send gate refuses it |
| Cutover.ConnectorService.ActivateCapiCutover | apps/api/src/external-data/external-data.service.ts:380-430 | refused exactly for an active type; otherwise exactly the ready logs of the type from before are shadow-observed, the cutover is added and sending is on |
| Cutover.ConnectorService.RollbackCapiCutover | apps/api/src/external-data/external-data.service.ts:471-526 | accepted exactly for an active type; then none of the type is active, its ready logs are shadow-observed and other cutovers stay |
| Cutover.ConnectorService.IngestNew | apps/api/src/external-data/external-event-ingestion.service.ts:178-235 | a new log, or an imported one that goes live, gets the status of the event, its click id and the cutover known; any other log stays; exactly ready live events are enqueued |
| Cutover.ConnectorService.SendReadyEvent | apps/api/src/conversion-events/conversion-events.service.ts:862-890 | a ready log goes out exactly through a cutover not after the event, and is sent or failed as the delivery is; otherwise it becomes shadow-observed |
| ExternalIdentity.DedupeKeyIsInjective | apps/api/src/external-data/external-event-policy.ts:47-87 | two keys are equal if and only if trimmed connector and provider and the type are, and so are the event ids if either has one, else the transactions of purchases if either has one, else the leads and for purchases the local dates |
| ExternalIdentity.KeyExistsExactly | apps/api/src/external-data/external-event-policy.ts:47-87 | a key exists if and only if connector, provider and lead are named and there is an event id, a transaction of a purchase, or a Kinbox purchase or qualified lead |
| ExternalIdentity.EncodingIsInjective | apps/api/src/external-data/external-event-policy.ts:238-240 | percent-encoding of the UTF-8 bytes is injective |
| ExternalIdentity.EncodingHasNoColon | apps/api/src/external-data/external-event-policy.ts:238-240 | an encoded part never contains the separator |
| ExternalIdentity.DecodeInverts | apps/api/src/external-data/external-event-policy.ts:238-240 | decoding reads back each encoded character whatever follows |
| Recordings.FirstValueIsKept | apps/api/src/conversion-events/conversion-events.service.ts:507-531 | a merged column keeps the first value supplied by a recording that joins, and exactly the supplied columns are filled |
| Recordings.PaidAndAttribution | apps/api/src/conversion-events/conversion-events.service.ts:496-526 | paid is never lost, and the log is attributed exactly when its ad id is set |
| Recordings.StatusFollowsFirstLive | apps/api/src/conversion-events/conversion-events.service.ts:492-541 | the log counts as imported as long as every recording was, and takes its event and status from the first other one |
| Recordings.CreatedOnce | apps/api/src/conversion-events/conversion-events.service.ts:466-547 | of the recordings that join, exactly the first not marked imported reports "created", an imported one only as the very first; an overtaken one never does |
| Recordings.ConversionEvents.RecordExternalConversion | apps/api/src/conversion-events/conversion-events.service.ts:397-548 | the method has exactly that effect on the log of its key and on no other |
| CatalogAliases.CatalogAliasUpdates | apps/api/src/conversion-rules/provider-conversion-rules.service.ts:1339-1389 | the loop computes the specified updates, or refuses |
| CatalogAliases.AliasUpdatesReachTheRequest | apps/api/src/conversion-rules/provider-conversion-rules.service.ts:1339-1389 | applying the updates makes the stored catalog equal the requested one up to order and keeps ids, keys, prices and values |
| CatalogAliases.AliasUpdatesExactly | apps/api/src/conversion-rules/provider-conversion-rules.service.ts:1339-1389 | updates exist if and only if editing nothing but aliases can meet the request |
| CatalogAliases.RuleCatalog.UpdateCatalog | apps/api/src/conversion-rules/provider-conversion-rules.service.ts:751-793 | an edit is accepted exactly when the rule has no executions or only aliases change, stores exactly the request, and never changes a price once the rule has executions |

## Left out

- ProtocolSeparation.MaterializedAreSeparated: counts every frozen version with a policy, also one that is never orchestrated; the converse `SlotIsNeeded` is about re-evaluations that are.
- ProtocolCounterexample.ScopeIsNeeded: is about scopes with different lock ids; when two scopes collide on one lock their transactions exclude each other.
- One workspace: identifiers of other workspaces, and the workspace columns of foreign keys, are not modelled.
- SHA-256 is an injective function; hashed request keys are the values themselves, and `DecisionChain` compares decisions where the code compares their fingerprints.
- DecisionJson.DecisionJson: has the fields that `Decisions` models; connection and delivery ids, labels, rule and catalog versions and ids, campaign and ad set are not among them, and the time of an occurrence is a number instead of its ISO text.
- A review is identified by its rule and occurrence, which are unique for it, instead of by its database id.
- The read and the upsert of `persistExecution` are one atomic step, although the orchestrator does not run them in one transaction.
- ProductionStore.Store.Reject: the rejection and the edit of items read the review and then write it without comparing its version; each is one atomic step here, so a decision that slips in between is not modelled.
- ProtocolCommit.StepKeepsLogExactly: of the nullable columns of a log value and currency are modelled; lead, contact, campaign, ad, Meta destination and value source columns are filled in the same way.
- The older `materialize` and `materializeAutomation` paths lock on the phone hash; their rows appear only as rows that exist initially.
- Database integers are unbounded here; the 32-bit columns of the schema are not.
- Numbers in the canonical JSON are integers, and strings hold no lone surrogates; `localeCompare` is any total order of the keys.
- Unicode normalization, case folding, the money tokenizer, time zones and date parsing are parameters or plain values.
- StableJson.Print: sorts the printed entries of an object rather than its raw entries, which is the same since the order looks at keys only.
- CatalogParser.ParseQuantity: is stated for trimmed values, the only ones the parser passes to it.
- ExternalSync.EventSync.SyncEvents: is about views on which the loop over pages ends, which `EndsExactly` decides; on any other it runs for ever. A row whose timestamp cannot be parsed, which stops the sync, is not part of this model.
- LeadRefresh.LeadTables.RefreshLeads: assumes that the live records of its connector were received strictly before the snapshot, since equal milliseconds are kept by the sweep; milestones projected from lead rows are not part of this model.
- Recordings.ConversionEvents.RecordExternalConversion: lookup and update of an existing log are one step; two updates that overlap are not modelled.
- CatalogAliases.RuleCatalog.UpdateCatalog: leaves out the refusal for a variant that vanished during the update.
- Operator updates of the connector flags, and the reconciliation of promotions whose lead is missing, lie outside the cutover invariants.
- A delivery after the send gate is one step with it; a rollback between the two is not modelled.
- Liveness of delivery: safety only.
- Controllers, queues, encryption, mail, authentication and the Meta HTTP calls are left out or are nondeterministic outcomes.
