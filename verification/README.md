# Office Connect core: verified model

A Dafny model of the parts of Office Connect whose guarantees span several functions, a
whole state machine or every run of one, with proofs of those guarantees:

- **Authorization freshness.** Grants and revokes commit to the database, stamp the live
  sessions and drop a dead cache key, while requests read a session's version, look the
  cache up, load and store (`GrantWindows`, `AuthzFreshness`, `Rbac`). The session store
  keeps a Redis hash per session and an index per user (`SessionPolicy`, `SessionStore`,
  `SessionRuns`, `SessionLifetimes`, `SessionLaws`), driven by Redis commands
  (`RedisKeyspace`, `SessionService`).
- **The audit chain.** Tamper evidence of the hash chain (`AuditChain`), and concurrent
  writers that commit and roll back under one advisory lock (`AuditWriters`).
- **Graphs and trees.** The directory feed from validation to upsert and prune (`OrgFeed`,
  `DirectoryIngest`, `StaffFeed`, `DirectoryStaff`, `DirectoryLaws`), workflow graph
  validation and publishing (`WorkflowGraph`), and org-scoped authorization with delegation (`OrgScopes`).
- **The checklist.** The rule language (`RuleGrammar`, `RuleLaws`), the planner (`Checklist`),
  the fixed point it reaches (`Reconciliation`), the completeness gate (`ChecklistGate`), and
  the fate of each row (`ChecklistLaws`).
- **Workflow runs.** Starting, acting and sweeping over one set of rows (`WorkflowEngine`,
  `WorkflowRuns`, `WorkflowService`, `WorkflowMachine`), what is answered to a request and what
  an accepted one leaves (`ActionLaws`, `ActionEffects`), the progress of concurrent sweeps
  (`SweepProgress`), the people an approval gate takes, on its first entry and on later ones
  (`Approvals`, `GateEntries`), and the actions a user is offered (`AvailableActions`).
  `WorkflowExamples` holds small workflows on which expectations fail.
- **Dates.** Working-day arithmetic (`Workdays`) and the calendar agenda (`Agenda`,
  `AgendaLaws`).

`Collections`, `Ordering` and `Json` hold shared vocabulary. Code of the source that updates
fields is a class or a method with loops, proved against functions on values; the laws are
lemmas about those functions. The modules named `Laws` and `Effects` say what those functions
decide without them, over rows, fields, windows and rules alone. Instants are integers in microseconds and days are ordinals.

`dafny verify dfyconfig.toml` checks everything.

## Where the code and its documentation part

- `add_working_days` documents `working_days_between(x, add_working_days(x, n)) == n` for
  every `n`. That fails for negative `n` from a day that is not a working day:
  `Workdays.RoundTripFailsFromSaturday` is an instance and `Workdays.RoundTrip` gives the
  exact condition, with the value the code returns otherwise.
- `available_actions` documents that an action it lists is one `execute_action` accepts. That
  fails when transitions that share a state and an action name different permissions, since
  listing tries each of them and executing only the first: `WorkflowExamples.OfferedAndRefused`
  is an instance and `AvailableActions.OfferedIsAccepted` gives the exact condition. The
  converse fails for an approval whose permission stands on the transition alone, which hides
  the action but does not guard it: `WorkflowExamples.AcceptedAndNotOffered` and
  `AvailableActions.AcceptedIsOffered`.
- `_detect_org_cycles` documents that it reports the units whose parent chain loops. It also
  reports a chain of more than 65 different codes: `OrgFeed.LongLineIsReported` is an instance,
  `OrgFeed.ReportedLoopsOrIsLong` says exactly what is reported, and by
  `OrgFeed.SizeDecidesReports` the documented contract holds of every feed of up to n units if
  and only if n is at most 65.
- The design intends a gate to be fanned in afresh after a resubmit, and it is
  (`GateEntries.ResubmitStartsAfresh`). A gate entered again in another way, such as by a return
  and a submit, counts the approvals of the earlier visit:
  `WorkflowExamples.OneFreshApprovalPasses` passes a quorum of two on one fresh approval.
  `GateEntries.EntryTakesFreshPeople` gives the number of fresh people each entry takes, and
  `GateEntries.QuorumIsFresh` when that is the quorum.
- A checklist row whose rule cannot be read and that has no item is planned to be created and,
  at the next refresh, put away: `Reconciliation.UnreadableRowFlickers` is an instance, and
  `Reconciliation.PlanReachesFixedPoint` shows that these are the only rows the fixed point
  misses.
- An item that is generated and then waived loses the mark of its generated document, since
  both are read from one status: `Reconciliation.WaivedDocumentLosesItsMark` is an instance, and
  `Reconciliation.WorkIsNeverPutAway` says exactly when.
- `resolve_authority` treats a unit id of 0 as no unit when it looks for delegations:
  `OrgScopes.DelegationIntoUnitZeroIsLost` is an instance, and `OrgScopes.AuthorityIsHeldOrLent`
  has the condition.

## Model

| member | source | states |
|---|---|---|
| Workdays.NextWorkingDay | office_connect/core/workdays.py:36-41 | the result is the first working day on or after the day, and the loop ends for every finite holiday set |
| Workdays.PreviousWorkingDay | office_connect/core/workdays.py:44-49 | the result is the last working day on or before the day |
| Workdays.AddWorkingDays | office_connect/core/workdays.py:52-70 | the result is the n-th working day strictly after the start (or strictly before it), stated by counting a set of days |
| Workdays.WorkingDaysBetween | office_connect/core/workdays.py:73-90 | the result is the signed size of the set of working days in the half-open interval |
| Workdays.OffsetUnique | office_connect/core/workdays.py:52-70 | only one day is n working days away |
| Workdays.RoundTrip | office_connect/core/workdays.py:55-60 | counting back the days added gives n if and only if n is not negative or the start is a working day; otherwise it gives n + 1 |
| Workdays.RoundTripFailsFromSaturday | office_connect/core/workdays.py:55-60 | one working day back from a Saturday counts as zero days |
| Workdays.OffsetsCompose | office_connect/core/workdays.py:52-70 | additions in one direction compose |
| Workdays.OutAndBack | office_connect/core/workdays.py:52-70 | n days out and n days back returns to the start if and only if the start is a working day |
| Workdays.CountsTelescope | office_connect/core/workdays.py:73-90 | signed counts add up over any three days in any order |
| Workdays.HolidaysDelay | office_connect/core/workdays.py:52-70 | more holidays never bring a forward deadline closer nor a backward one later |
| Workdays.WeekIsSpelledOut | office_connect/core/workdays.py:22-33 | day 1 is the first of five working days in a week of seven, and the week repeats |
| Workdays.WeeksHoldFiveEach | office_connect/core/workdays.py:73-90 | any number of whole weeks, wherever they begin, holds five working days each, less the holidays on days that would be worked |
| AuditChain.VerifyChain | office_connect/core/audit.py:122-143 | accepts exactly the chains whose every row is linked, and otherwise names the first row that does not extend the valid prefix |
| AuditChain.WriteAuditRows | office_connect/core/audit.py:233-305 | row k of the flush records the k-th entry whole, under the next id, linked to the row before it; these are the rows the chain asks for |
| AuditChain.RecordedIsChained | office_connect/core/audit.py:258-305 | only the rows that record the entries in this way are the rows of the flush |
| AuditChain.ChainedRecords | office_connect/core/audit.py:290-303 | a flush records the entries it is given: each whole, in order and once |
| AuditChain.ChainedExtends | office_connect/core/audit.py:233-305 | every prefix of what a flush writes extends a valid chain to a valid chain |
| AuditChain.HeadDeterminesLog | office_connect/core/audit.py:92-143 | two logs that both verify and end in the same hash agree row for row, or they themselves exhibit two entries with one text, two texts with one digest, or a text whose digest is the genesis value; of the digest only its length is assumed |
| AuditChain.TamperingIsReported | office_connect/core/audit.py:122-143 | any edit, reordering, insertion or removal behind a retained head fails verification, unless the two logs exhibit such a break |
| AuditChain.TruncationVerifies | office_connect/core/audit.py:122-143 | cutting rows off the end is what the chain alone cannot show |
| AuditWriters.StepKeepsInv | office_connect/core/audit.py:233-305 | every lock, head read, partial insert, commit and rollback keeps the chain invariant |
| AuditWriters.CommittedLogVerifies | office_connect/core/audit.py:318-395 | in every interleaving of transactions the committed rows in id order verify, also after rollbacks of partly written batches |
| AuditWriters.CommittedLogGrows | office_connect/core/audit.py:233-305 | the committed log only grows at its end |
| AuditWriters.CommittedLogRecords | office_connect/core/audit.py:233-305 | in every interleaving the committed log records what the committed transactions flushed and nothing else: each entry once, in order, transaction by transaction, with no part of a batch that failed |
| OrgScopes.WalksAreDual | office_connect/core/org_units.py:58-123 | a unit is below the roots exactly when a root is on its path upward, on every parent graph with cycles, dangling and deleted units |
| OrgScopes.AuthorizedIsListed | office_connect/core/org_units.py:126-213 | a target passes the check exactly when the permission is global or the target is in the subtree of the user's scopes |
| OrgScopes.AuthorizedIsGiven | office_connect/core/org_units.py:126-213 | a user passes on a target exactly when a grant of that user and permission is not deleted, has started by now if it has a start, has not ended by now if it has an end, and is global or at a unit the target climbs to in at most 64 live parent steps |
| OrgScopes.HoldersAreTheAuthorized | office_connect/core/org_units.py:151-213 | a user is listed as a holder exactly when live, active and authorized, with exactly the covering scopes |
| OrgScopes.FirstDelegationLends | office_connect/core/workflow/delegation.py:61-80 | the search succeeds exactly when some delegation in window and in scope lends a holder's authority, and names such a delegator |
| OrgScopes.AuthorityIsHeldOrLent | office_connect/core/workflow/delegation.py:36-80 | authority is exactly held or lent once, and acting on behalf of someone is recorded exactly when it is lent |
| OrgScopes.AuthorityIsSpelledOut | office_connect/core/workflow/delegation.py:36-80 | the same with every window, scope and grant written out: authority needs no permission, a grant of one's own, or a delegation in force from somebody with such a grant, who is then recorded |
| OrgScopes.DelegationIntoUnitZeroIsLost | office_connect/core/workflow/delegation.py:61-72 | a delegation within one unit reaches its delegate if and only if the unit's id is not 0 |
| WorkflowGraph.CollectInitials | office_connect/core/workflow/definitions.py:172-176 | finds exactly the initial states |
| WorkflowGraph.BuildAdjacency | office_connect/core/workflow/definitions.py:180-186 | fails exactly on an unknown endpoint, and otherwise lists exactly the targets of each state |
| WorkflowGraph.FindNoExit | office_connect/core/workflow/definitions.py:188-192 | finds a non-terminal state without an exit if there is one |
| WorkflowGraph.MarkReachable | office_connect/core/workflow/definitions.py:194-202 | the worklist ends although nodes are pushed repeatedly, and marks exactly the reachable states |
| WorkflowGraph.ValidateGraph | office_connect/core/workflow/definitions.py:163-206 | accepts exactly the well-formed graphs; the unreachable states it names are exactly those |
| WorkflowGraph.PublishedStaysValidated | office_connect/core/workflow/definitions.py:69-137 | over any run of authoring calls a published version keeps its graph, and that graph is well-formed |
| WorkflowGraph.Authoring.CreateVersion | office_connect/core/workflow/definitions.py:45-66 | adds an empty draft |
| WorkflowGraph.Authoring.AddState | office_connect/core/workflow/definitions.py:69-105 | adds to a draft, and is refused on a published version |
| WorkflowGraph.Authoring.AddTransition | office_connect/core/workflow/definitions.py:108-136 | adds to a draft, and is refused on a published version |
| WorkflowGraph.Authoring.PublishVersion | office_connect/core/workflow/definitions.py:209-220 | publishes exactly the well-formed drafts, changes nothing else, and is idempotent |
| RuleGrammar.ResolveField | office_connect/core/checklist/grammar.py:96-135 | the loop computes the path walk, projecting over lists, with missing distinct from null |
| RuleGrammar.SplitJoins | office_connect/core/checklist/grammar.py:96-135 | splitting a path is undone by joining it, and leaves no dot in a segment |
| RuleGrammar.DottedPathsCompose | office_connect/core/checklist/grammar.py:96-135 | a dotted path is resolved part by part: what the second part finds in what the first finds, and missing as soon as a part is |
| RuleGrammar.ProjectHolds | office_connect/core/checklist/grammar.py:96-135 | a list projects to exactly the values its mappings hold at the segment |
| RuleGrammar.MissingIsNotNull | office_connect/core/checklist/grammar.py:58-76 | a segment is missing exactly when no mapping there holds it, so a null that is held is found |
| RuleGrammar.EvaluationIsMeaning | office_connect/core/checklist/grammar.py:226-295 | the outcome is the plain boolean meaning of the rule it reads, and unparseable exactly when there is none, so never by the facts |
| RuleGrammar.WrittenRuleReads | office_connect/core/checklist/grammar.py:226-295 | every rule within the depth limit is read back from its written form |
| RuleGrammar.ReadRuleWrites | office_connect/core/checklist/grammar.py:226-295 | only that form reads as that rule |
| RuleGrammar.ValidIsStrict | office_connect/core/checklist/grammar.py:319-362 | the validator accepts exactly the readable rules without empty rules, empty junctions or unnamed fields |
| RuleGrammar.AcceptedRulesEvaluate | office_connect/core/checklist/grammar.py:308-362 | a rule accepted at authoring never turns unparseable and means what it says |
| RuleLaws.PyEqIsPlainEquality | office_connect/core/checklist/grammar.py:159-170 | values compare equal exactly when they are the same once truth values are written as 1 and 0, at any depth |
| RuleLaws.EqDecides | office_connect/core/checklist/grammar.py:138-170 | eq compares numbers and money strings by amount, a truth value equals itself alone, and the rest is compared as it is; a missing field equals nothing |
| RuleLaws.ContainsDecides | office_connect/core/checklist/grammar.py:173-182 | contains holds exactly of a text inside a text and of a value among a list's |
| RuleLaws.GtDecides | office_connect/core/checklist/grammar.py:185-189 | gt holds exactly between two amounts of which the field's is the greater; truth values, nulls, lists and missing fields are no amounts |
| RuleLaws.AlwaysDecides | office_connect/core/checklist/grammar.py:226-251 | always requires exactly on true, can be read exactly of a truth value, and an empty rule requires nothing |
| RuleLaws.IfDecides | office_connect/core/checklist/grammar.py:254-267 | a condition requires exactly when its comparator holds of the field it names |
| RuleLaws.AnyDecides | office_connect/core/checklist/grammar.py:270-290 | any requires exactly what some branch requires, and cannot be read as soon as one branch cannot |
| RuleLaws.AllDecides | office_connect/core/checklist/grammar.py:270-295 | all requires exactly what every branch requires, and cannot be read as soon as one branch cannot |
| Checklist.IndexItems | office_connect/core/checklist/engine.py:230-301 | items are indexed by catalog id, the last one standing |
| Checklist.PlanSpec | office_connect/core/checklist/engine.py:252-296 | the branches plan one row as `PlanItem` does, whose meaning is `ChecklistLaws.FateOfRow` |
| Checklist.PlanSpecs | office_connect/core/checklist/engine.py:230-301 | the planning loop computes the plan function over the rows it is given |
| Checklist.PlanChecklist | office_connect/core/checklist/engine.py:230-301 | the plan is the plan function over the catalog in sort and code order |
| Checklist.PlanHolds | office_connect/core/checklist/engine.py:230-301 | the plan holds exactly the rows that each catalog entry calls for on its own |
| Checklist.PlanIdsUnique | office_connect/core/checklist/engine.py:230-301 | no catalog id is planned twice |
| Checklist.SatisfiedIsEvidenced | office_connect/core/checklist/engine.py:183-213 | a derived status counts as done exactly when the evidence state is not missing |
| Reconciliation.RefreshChecklist | office_connect/modules/reimbursement/services/checklist.py:207-257 | the loop applies the plan row by row |
| Reconciliation.RefreshSettles | office_connect/modules/reimbursement/services/checklist.py:207-257 | a refresh settles each catalog row as if it were alone |
| Reconciliation.RowSettles | office_connect/core/checklist/engine.py:252-296 | planning a settled row keeps it as described, except an unreadable row that had no item |
| Reconciliation.PlanReachesFixedPoint | office_connect/core/checklist/engine.py:183-296 | planning after a refresh with the same facts plans the same rows, kept as described; it yields only Keep if and only if no unreadable row lacks an item |
| Reconciliation.UnreadableRowFlickers | office_connect/core/checklist/engine.py:262-280 | a one-row catalog with an unreadable rule and no item is planned Create and then MakeDormant, whatever the facts and checks |
| Reconciliation.WorkIsNeverPutAway | office_connect/core/checklist/engine.py:117-120 | along any history of facts a live item with evidence, a waiver or a generated document stays live and keeps them, except that an item that is also waived loses the mark of its document at the first refresh |
| Reconciliation.WaivedDocumentLosesItsMark | office_connect/modules/reimbursement/services/checklist.py:125-145 | an item with a generated document that is waived keeps the waiver and not the mark of the document |
| ChecklistLaws.FateOfRow | office_connect/core/checklist/engine.py:252-296 | from the rule's meaning and the item's state alone: when a row is created, restored, kept, put away or left alone, each exactly |
| ChecklistLaws.PlanDescribes | office_connect/core/checklist/engine.py:268-296 | what a plan says of its row: required and readable by the rule's meaning, the item's id, the checks run on the item's facts, evidence and status |
| ChecklistLaws.StatusIsSpelledOut | office_connect/core/checklist/engine.py:183-213 | each row has exactly one evidence state and one status: a waiver outranks a document, which outranks the checks, and a flag outranks a pass |
| ChecklistLaws.RefreshDoesEachRow | office_connect/modules/reimbursement/services/checklist.py:207-257 | after a refresh every catalog row has become what its rule and its item ask for, field by field, and no other item has changed |
| ChecklistLaws.RequiredRowIsLive | office_connect/core/checklist/engine.py:268-279 | after a refresh every row that its rule requires has a live item, with the id it had before |
| ChecklistLaws.PlanIsOrdered | office_connect/core/checklist/engine.py:252-252 | a plan comes by sort number and then by code |
| ChecklistLaws.LastItemStands | office_connect/core/checklist/engine.py:249-249 | of the items listed for a catalog id the last one stands |
| ChecklistLaws.ChecksSeeItem | office_connect/core/checklist/engine.py:216-227 | a check finds the item's tally, its waiver and its document under item |
| ChecklistLaws.ChecksSeeTheRest | office_connect/core/checklist/engine.py:216-227 | without an item the tally is that of nothing, and every other fact is as it was |
| ChecklistGate.DoneAndBlockingMakeTotal | office_connect/core/checklist/engine.py:304-344 | done plus blocking is the total, and done counts the required rows with evidence |
| ChecklistGate.BlockingIsListed | office_connect/core/checklist/engine.py:137-143 | the blocking list names exactly the blocking rows |
| ChecklistLaws.BlockingNames | office_connect/core/checklist/engine.py:315-331 | the blocking list holds exactly the required rows a person must supply that have no evidence, each with its ids, code, title, group and evidence |
| ChecklistLaws.FlagsAreRaised | office_connect/core/checklist/engine.py:332-334 | the flags are exactly those the checks of the planned rows raised |
| ChecklistLaws.UnreadableAreNamed | office_connect/core/checklist/engine.py:340-342 | the rows whose rule cannot be read are named |
| ChecklistLaws.TotalCounts | office_connect/core/checklist/engine.py:315-319 | the total counts one for each required row that a person must supply |
| ChecklistGate.CompleteMeansSupplied | office_connect/core/checklist/engine.py:304-344 | a packet is complete exactly when every catalog row that its rule requires and a person must supply is attached, waived or generated |
| ChecklistGate.GateIgnoresChecks | office_connect/core/checklist/engine.py:304-344 | totals, blocking list and completeness are the same under any checks, check results and stored statuses |
| ChecklistGate.MoreEvidenceNeverBlocks | office_connect/core/checklist/engine.py:304-344 | adding evidence, a waiver or a document never adds a blocking row |
| OrgFeed.Loops | office_connect/core/directory/ingest.py:318-328 | the walk from one code reports it exactly when its in-feed parent chain does not leave the feed within 65 nodes |
| OrgFeed.DetectOrgCycles | office_connect/core/directory/ingest.py:315-329 | reports exactly those codes |
| OrgFeed.LoopsAreReported | office_connect/core/directory/ingest.py:315-329 | every real loop is reported |
| OrgFeed.ReportedLoopsOrIsLong | office_connect/core/directory/ingest.py:315-329 | a code is reported if and only if its chain meets a node again or has more than 65 different codes |
| OrgFeed.LongChainNeedsALargeFeed | office_connect/core/directory/ingest.py:315-329 | a chain of different codes is no longer than the feed |
| OrgFeed.LongLineIsReported | office_connect/core/directory/ingest.py:315-329 | a line of n codes has no loop, and its last code is reported if and only if n is more than 65 |
| OrgFeed.SmallFeedReportsLoops | office_connect/core/directory/ingest.py:315-316 | in a feed of at most 65 codes the reported codes are exactly those whose chain loops |
| OrgFeed.SizeDecidesReports | office_connect/core/directory/ingest.py:315-316 | the documented contract holds of every feed of up to n codes if and only if n is at most 65 |
| OrgFeed.PlaceReady | office_connect/core/directory/ingest.py:339-349 | each round finds a ready code and places exactly the next rank of the hierarchy |
| OrgFeed.TopologicalOrder | office_connect/core/directory/ingest.py:332-350 | when nothing was reported the rounds end, and each code comes once, after its in-feed parent, by rank and then alphabetically |
| DirectoryIngest.CollectOrgSpecs | office_connect/core/directory/ingest.py:84-106 | the loop collects the first row of each code and the complaints row by row |
| DirectoryIngest.OrgErrorsHold | office_connect/core/directory/ingest.py:84-106 | the complaints are exactly the rows without a code, the codes that come twice, and the codes whose first row has no known kind or no name |
| DirectoryIngest.NoOrgErrors | office_connect/core/directory/ingest.py:84-106 | there is none exactly when every row is good and no code repeats, and then the specs are the rows by code |
| DirectoryIngest.FindOrphans | office_connect/core/directory/ingest.py:123-128 | finds exactly the codes whose parent is neither in the feed nor in the table |
| DirectoryIngest.CheckParents | office_connect/core/directory/ingest.py:121-129 | reports exactly the unresolved parents and the chains that do not leave the feed; none exactly when the feed can be applied |
| DirectoryIngest.Directory.UpsertOrgUnit | office_connect/core/directory/ingest.py:207-235 | creates, updates or restores one row, keeping the id of a row there is |
| DirectoryIngest.Directory.PlaceOrgUnit | office_connect/core/directory/ingest.py:203-235 | the parent's row is there and the unit's row points at it |
| DirectoryIngest.Directory.ApplyOrgUnits | office_connect/core/directory/ingest.py:200-235 | no parent lookup misses; every feed code is live with the feed's fields and its parent's id, and every other row is untouched |
| DirectoryIngest.SecondRunIsIdle | office_connect/core/directory/ingest.py:200-235 | applying the same org units again leaves the table as it is |
| StaffFeed.CheckStaff | office_connect/core/directory/ingest.py:131-170 | the loop takes the first row of each number and makes the complaints row by row, from the sets of numbers and emails it has seen |
| StaffFeed.StaffErrorsHold | office_connect/core/directory/ingest.py:131-170 | the complaints are exactly the rows without a number, the numbers that come twice, and the numbers whose first row lacks names or repeats the lower-cased email of an earlier first row |
| StaffFeed.NoStaffErrors | office_connect/core/directory/ingest.py:131-170 | there is none exactly when every row is complete and no number or email repeats, and then every row is taken |
| StaffFeed.CheckUnits | office_connect/core/directory/ingest.py:175-195 | the complaints are exactly the rows that name a division or section which is unknown after the ingest, or of another kind; none exactly when every unit fits |
| DirectoryStaff.SoftDeleteAbsent | office_connect/core/directory/ingest.py:287-291 | soft-deletes exactly the live staff absent from the feed |
| DirectoryStaff.Ingestion.PlaceStaff | office_connect/core/directory/ingest.py:251-278 | one row lands with the ids of its division and section, created, updated or restored |
| DirectoryStaff.Ingestion.ApplyStaff | office_connect/core/directory/ingest.py:237-279 | every feed row lands, other rows are untouched, ids are kept, and the outcome of each is reported |
| DirectoryStaff.Ingestion.Prune | office_connect/core/directory/ingest.py:281-302 | exactly the live staff absent from the feed go |
| DirectoryStaff.Ingestion.IngestDirectory | office_connect/core/directory/ingest.py:69-304 | refused, with both tables unchanged, exactly when the feed does not pass, and then told exactly the complaints its rows give reason for, the unresolved parents and the chains that do not leave the feed; otherwise it lands whole, with the pruned staff and their linked users; pruning against an empty feed is refused after the rest has landed |
| DirectoryStaff.SecondIngestIsIdle | office_connect/core/directory/ingest.py:200-304 | the feed passes again, and landing it again creates, restores, prunes and changes nothing |
| DirectoryLaws.PassesIsSpelledOut | office_connect/core/directory/ingest.py:84-198 | a feed passes exactly when every org row has its own code, a name, a known kind and a known parent, every staff row its own number and email, both names and units of the right kind, and every parent chain leaves the feed |
| DirectoryLaws.OrgRowLands | office_connect/core/directory/ingest.py:200-235 | each org row is in the table, live, with its fields, its parent's id and the id it had |
| DirectoryLaws.OtherUnitsStay | office_connect/core/directory/ingest.py:200-235 | units the feed has no row for are as they were, and no others appear |
| DirectoryLaws.StaffRowLands | office_connect/core/directory/ingest.py:153-279 | each staff row is in the table, live, with its details, the ids of its division and section, which are ones, and the id it had; a missing full name is made of the given name and the surname |
| DirectoryLaws.AbsentStaffStayOrGo | office_connect/core/directory/ingest.py:281-304 | staff the feed has no row for are as they were or, when pruning, soft-deleted; exactly those who were live are reported |
| SessionStore.OldestUnique | office_connect/core/auth/session_store.py:355-377 | there is only one set of the k oldest members |
| Ordering.StrLeIsLexicographic | office_connect/core/auth/session_store.py:355-378 | strings are ordered by the first place where they differ, by code point, and a string comes before those it begins |
| SessionStore.PrefixIsOldest | office_connect/core/auth/session_store.py:355-377 | the first k members in index order are the k oldest |
| SessionRuns.StepKeeps | office_connect/core/auth/session_store.py:152-316 | every operation at any later time keeps the store invariant |
| SessionRuns.RunKeepsInv | office_connect/core/auth/session_store.py:152-377 | the invariant holds after every run |
| SessionRuns.ReadableAreIndexed | office_connect/core/auth/session_store.py:152-195 | in every reachable store a readable session is in its owner's live index, scored by its creation, and no index exceeds the cap |
| SessionRuns.RevokeAllRevokes | office_connect/core/auth/session_store.py:275-291 | revoke-all leaves no readable session but the exempted one and touches nobody else's |
| SessionRuns.StampReachesAll | office_connect/core/auth/session_store.py:293-316 | a stamp sets the version of every readable session of the user and nothing else |
| SessionRuns.LateStampGoesBack | office_connect/core/auth/session_store.py:293-316 | stamps in the wrong order take a session back to the older version |
| SessionRuns.MakingRoomEvictsOldest | office_connect/core/auth/session_store.py:355-377 | making room removes exactly the oldest surplus of the live sessions |
| SessionRuns.LoginEvictsOldestSurplus | office_connect/core/auth/session_store.py:152-195 | a login ends with its own session and the newest others |
| SessionRuns.RecordsMatchHistory | office_connect/core/auth/session_store.py:217-262 | a record's creation and last-seen instants are those of the login and last touch it goes back to, through any rotations |
| SessionRuns.SessionsDieOnTime | office_connect/core/auth/policy.py:44-58 | no run keeps a session, or one rotated from it, readable past the absolute limit of its login or the idle limit of its last activity |
| SessionLaws.TierIsSpelledOut | office_connect/core/auth/policy.py:17-30 | a session is privileged exactly with one of the roles system_admin, approver and auditor |
| SessionLaws.ExpiryIsSpelledOut | office_connect/core/auth/policy.py:32-58 | a record expires at the absolute limit since its creation or its tier's idle limit since it was last seen |
| SessionLaws.TtlIsTight | office_connect/core/auth/session_store.py:142-149 | a hash is set to live whole seconds, one at least, to the idle limit and no further than the absolute one, less than a second short |
| SessionLaws.DestroyedIsGone | office_connect/core/auth/session_store.py:264-273 | in every store that keeps the invariant, a logged-out session is neither readable nor in any live index, now or later, with the owner given or not; every other hash and index entry is as it was |
| SessionLaws.DestroyedAnyway | office_connect/core/auth/session_store.py:264-273 | in every store and with any owner, the hash is gone, the index given does not hold the session, and the rest is as it was |
| SessionLaws.EndedStaysEnded | office_connect/core/auth/session_store.py:233-273 | in every run a session that was logged out or rotated away never exists again, unless its token is drawn again |
| SessionLaws.RevokedAreGone | office_connect/core/auth/session_store.py:275-291 | the sessions revoked are gone, now and later, and every other session is as it was |
| SessionLaws.ReadingRemovesExpired | office_connect/core/auth/session_store.py:197-215 | reading removes exactly a session that policy has expired, and leaves the store alone otherwise |
| SessionLaws.TouchingSlides | office_connect/core/auth/session_store.py:217-231 | touching a readable session moves its last-seen instant and its expiry and nothing else |
| SessionLaws.RotationMoves | office_connect/core/auth/session_store.py:233-262 | rotating a readable session leaves the old id nowhere and gives the new one its record, field by field, and its place in the index; every other session is as it was |
| SessionLaws.PruningDropsStale | office_connect/core/auth/session_store.py:342-353 | pruning drops exactly the members whose hash is gone, of one index |
| SessionLaws.LoginIsRefusedWhenFull | office_connect/core/auth/session_store.py:355-367 | a login is refused exactly under reject with as many live sessions as the cap, and then changes no hash |
| SessionLaws.LoginMakes | office_connect/core/auth/session_store.py:152-195 | a new session has every field as given or as of now, and is readable and indexed when the limits are positive |
| SessionLaws.EvictedAreOlder | office_connect/core/auth/session_store.py:355-378 | of two readable sessions of the user, the one a login evicts was created earlier, or at the same instant with the smaller token |
| SessionLifetimes.HashedLasts | office_connect/core/auth/session_store.py:142-149 | the TTL drops a fraction of a second from what policy allows, and nothing more |
| SessionLifetimes.RunLasts | office_connect/core/auth/session_store.py:152-316 | that stays so for every hash through every run, rotations and stamps included |
| SessionLifetimes.OnlyPolicyExpires | office_connect/core/auth/session_store.py:142-215 | after every run a session nobody removed is readable until a second before policy expires it, and never from then on |
| RedisKeyspace.HashIsWritten | office_connect/core/auth/session_store.py:190-191 | HSET and EXPIRE leave the hash with its lifetime, whatever was there |
| RedisKeyspace.MembersAreRemoved | office_connect/core/auth/session_store.py:352-353 | ZREM takes members out of a live index, and the key with the last one |
| RedisKeyspace.MemberIsAdded | office_connect/core/auth/session_store.py:192-193 | ZADD and EXPIRE index a session for its absolute lifetime, whether or not there was an index |
| RedisKeyspace.MemberIsReplaced | office_connect/core/auth/session_store.py:258-259 | ZADD and ZREM without EXPIRE replace a member of an index that is alive and keep its expiry |
| RedisKeyspace.VanishedIndexComesBackForGood | office_connect/core/auth/session_store.py:258-259 | on an index that has vanished they would leave a key that never expires |
| SessionService.DeleteEach | office_connect/core/auth/session_store.py:275-291 | DEL and ZREM one by one remove the set |
| SessionService.ZRange | office_connect/core/auth/session_store.py:355-377 | lists the index by score and then token |
| SessionService.EvictFirst | office_connect/core/auth/session_store.py:355-377 | removes the k oldest |
| SessionService.EvictSurplus | office_connect/core/auth/session_store.py:368-377 | keeps at most one session fewer than the cap, the newest |
| SessionService.FindStale | office_connect/core/auth/session_store.py:342-353 | finds exactly the members whose hash is gone |
| SessionService.StampEach | office_connect/core/auth/session_store.py:293-316 | the script, run for each listed session, sets the version of exactly those that exist |
| SessionService.Sessions.PruneUserIndex | office_connect/core/auth/session_store.py:342-353 | drops exactly the stale index entries |
| SessionService.Sessions.EnforceCap | office_connect/core/auth/session_store.py:355-377 | makes room as specified, and refuses exactly when full under the reject policy |
| SessionService.Sessions.CreateSession | office_connect/core/auth/session_store.py:152-195 | HSET, EXPIRE, ZADD, EXPIRE after making room give the specified store, or the pruned one after a refused login, and keep the run invariant |
| SessionService.Sessions.GetSessionRecord | office_connect/core/auth/session_store.py:197-215 | returns exactly the readable sessions, destroys an expired one, and keeps the run invariant |
| SessionService.Sessions.TouchSession | office_connect/core/auth/session_store.py:217-231 | HSET and EXPIRE move last-seen and the expiry of a readable session only |
| SessionService.Sessions.RegenerateId | office_connect/core/auth/session_store.py:233-262 | HSET, EXPIRE, ZADD, ZREM, DEL move a readable session to the new id, scored by its creation; by the invariant its index is alive, so no key is left without an expiry |
| SessionService.Sessions.DestroySession | office_connect/core/auth/session_store.py:264-273 | the store afterwards is the one without the session, which `SessionLaws.DestroyedIsGone` spells out, and stays valid |
| SessionService.Sessions.DestroyAllForUser | office_connect/core/auth/session_store.py:275-291 | removes all indexed sessions but the exempted one, and counts them |
| SessionService.Sessions.SetPermissionsVersion | office_connect/core/auth/session_store.py:293-316 | prunes, stamps what is left, and counts it |
| GrantWindows.LoadPermissionEntry | office_connect/core/auth/dependencies.py:112-137 | returns the codes whose window contains now, and the soonest future window edge |
| GrantWindows.ConstantUntilEdge | office_connect/core/auth/dependencies.py:112-137 | the effective set does not change before the next edge |
| GrantWindows.EntryEndsBeforeEdge | office_connect/core/auth/permission_cache.py:51-56 | an entry is gone by the edge if and only if the edge is at least a second away when it is stored |
| GrantWindows.EntryLifeIsTight | office_connect/core/auth/permission_cache.py:51-56 | an entry lives whole seconds, one at least, as long as the backstop and no longer than to the edge, less than a second short |
| GrantWindows.LiveEntryIsTimely | office_connect/core/auth/permission_cache.py:58-80 | a live entry answers what a fresh load would, or a window edge has passed since the load that was less than a second off at the store, and less than a second has passed since the store |
| GrantWindows.LatenessIsBounded | office_connect/core/auth/permission_cache.py:51-80 | an answer that is not exact comes less than a second after its store, and less than a second plus the time from load to store after an edge |
| GrantWindows.EntryExactUnlessEdgeIsNear | office_connect/core/auth/permission_cache.py:51-80 | with load and store at one instant, an entry is exact for its whole life unless an edge was under a second away, and then less than a second late |
| AuthzFreshness.StepKeepsInv | office_connect/core/rbac.py:105-124 | every step of every grant, stamp, login and request keeps the freshness invariant |
| AuthzFreshness.RunKeepsInv | office_connect/core/auth/permission_cache.py:58-86 | the invariant holds in every state of every interleaving |
| AuthzFreshness.CachedAtLeastAsNew | office_connect/core/auth/permission_cache.py:58-86 | an entry under version v holds the codes in force, at the instant it was loaded, under a committed version at least v |
| AuthzFreshness.StampedChangeTakesEffect | office_connect/core/auth/dependencies.py:140-163 | once version n is stamped, every later request is decided on grants w at least as new as n: its codes are those in force under w when it is decided, or an edge has passed since they were loaded, by less than a second plus the time from load to store |
| AuthzFreshness.StoredAnswersTheNext | office_connect/core/auth/permission_cache.py:58-80 | what one request stores answers the next of that user and version while the entry lives, without a load |
| Rbac.EffectiveIsHeld | office_connect/core/auth/dependencies.py:94-137 | what the loader returns is exactly what the user's live grants in window give |
| Rbac.GrantTakesEffect | office_connect/core/rbac.py:88-103 | after a grant the user holds exactly what the other rows give and, in its window, the role's codes |
| Rbac.RevokeTakesEffect | office_connect/core/rbac.py:140-152 | after a revoke the user holds exactly what the other rows give |
| Rbac.OthersKeepRows | office_connect/core/rbac.py:71-103 | a grant changes nobody else's rows |
| Rbac.ChangeKeepsInv | office_connect/core/rbac.py:105-124 | commit, stamp and drop in this order are protocol steps and keep the invariant |
| Rbac.FindGrant | office_connect/core/rbac.py:71-86 | finds the row of the user, role and unit, live or not |
| Rbac.AccessControl.constructor | office_connect/core/rbac.py:38-41 | a grant table with every user at version 0 is a sound start |
| Rbac.AccessControl.Login | office_connect/core/auth/session_store.py:152-195 | a new session carries its owner's version, as a step of the protocol |
| Rbac.AccessControl.Logout | office_connect/core/auth/session_store.py:264-273 | removes the session, as a step of the protocol |
| Rbac.AccessControl.Propagate | office_connect/core/rbac.py:105-124 | bumps the version by one, stamps the user's sessions with it and reclaims the key before it |
| Rbac.AccessControl.GrantRole | office_connect/core/rbac.py:44-125 | not found exactly for an unknown user or role; otherwise the triple's one row is live with the window given, other rows are untouched, and the change went through commit, stamp and drop |
| Rbac.AccessControl.RevokeRole | office_connect/core/rbac.py:128-173 | succeeds exactly on a live grant of the user, leaves a tombstone, and goes through commit, stamp and drop |
| Rbac.AccessControl.EffectivePermissionCodes | office_connect/core/auth/dependencies.py:140-163 | between whole calls, a hit or a miss answers with the codes in force now for the grants as they now are, or with those in force less than a second ago when an edge has passed since |
| Agenda.ResolveWindow | office_connect/core/calendar/service.py:85-103 | refused exactly when it ends before it starts; it starts when asked or today, ends when asked or after 30 days, and is pulled in to 92 days, and then marked |
| Agenda.RegistrationOrderIrrelevant | office_connect/core/calendar/sources.py:161-181 | registering the same sources in another order makes the same registry |
| Agenda.SourceRegistry.RegisterSource | office_connect/core/calendar/sources.py:161-181 | replaces by key, and refuses a blank key or scope rule |
| AgendaLaws.RegistrationIsSpelledOut | office_connect/core/calendar/sources.py:161-181 | a source is registered in the place of one with its key exactly when its key is not empty and its scope rule has a character that is not blank |
| Agenda.RegisteredSources | office_connect/core/calendar/sources.py:184-192 | lists every registered source in key order |
| Agenda.MergeSources | office_connect/core/calendar/service.py:151-180 | merges the events of exactly the usable sources, with one report each and the sum of their totals |
| Agenda.ReportsCountEvents | office_connect/core/calendar/service.py:171-180 | the reports account for every merged event |
| Agenda.GroupByDay | office_connect/core/calendar/service.py:188-190 | groups each day's events in merge order |
| Agenda.ListDays | office_connect/core/calendar/service.py:188-206 | strictly increasing, non-empty days, each with exactly its own events, today and non-working labels |
| Agenda.Collect | office_connect/core/calendar/service.py:133-215 | the days group the sorted merge of the usable sources in key order |
| Agenda.GroupingConserves | office_connect/core/calendar/service.py:188-206 | grouping loses, adds and repeats nothing |
| Agenda.AgendaIsFaithful | office_connect/core/calendar/service.py:126-206 | the agenda conserves the multiset of events, each on its own day and in key order |
| Agenda.GroupsUnique | office_connect/core/calendar/service.py:188-206 | the grouping determines the days |
| Agenda.AgendaIgnoresEventOrder | office_connect/core/calendar/service.py:126-182 | with refs unique per source the days do not depend on the order of the merged events |
| Agenda.MergePermutes | office_connect/core/calendar/service.py:151-171 | permuting what each source returns permutes the merge |
| Agenda.AgendaIsDeterministic | office_connect/core/calendar/service.py:126-206 | with refs unique per source the days are the same for any registration order and any order of each source's events |
| AgendaLaws.MergedHolds | office_connect/core/calendar/service.py:106-182 | the merge holds exactly the events of the sources whose flag is not off |
| AgendaLaws.ReportsHold | office_connect/core/calendar/service.py:106-182 | the reports are exactly those of the sources whose flag is not off, with their counts and totals |
| AgendaLaws.OffIsAsIfNeverBuilt | office_connect/core/calendar/service.py:106-123 | an agenda cannot tell a source whose flag is off from one that was never registered: the same days and reports |
| AgendaLaws.DayIsOrdered | office_connect/core/calendar/service.py:126-130 | a day lists its events by source and, within a source, by ref |
| AgendaLaws.NonworkingIsSpelledOut | office_connect/core/calendar/service.py:192-206 | a day is non-working when it is the sixth or seventh of its week or has a label |
| WorkflowEngine.FoldEvents | office_connect/core/workflow/replay.py:20-27 | the loop computes the state of the last moving event |
| WorkflowEngine.FoldIsLastMove | office_connect/core/workflow/replay.py:20-27 | the fold is where the last started or transition event of the instance that names a state leads, and nothing exactly when there is none |
| WorkflowEngine.SelectedRoutes | office_connect/core/workflow/transitions.py:51-68 | selects a transition that routes, and none exactly when no transition does |
| WorkflowEngine.ExecutedForm | office_connect/core/workflow/transitions.py:184-300 | an accepted action edits its own gate's steps and then moves by the selected transition, or on an approval may stay, opens the gate it enters and records; `ActionEffects` spells each of these out |
| WorkflowEngine.ExecutedEffect | office_connect/core/workflow/transitions.py:274-300 | it bumps the row version by one and appends one event naming where the instance now stands |
| WorkflowEngine.RetryReplays | office_connect/core/workflow/transitions.py:154-165 | a retry with the same key returns the recorded event and changes nothing |
| WorkflowEngine.SecondRacerIsStale | office_connect/core/workflow/transitions.py:167-169 | of two actions with one expected version the second is refused |
| ActionLaws.AnswersInOrder | office_connect/core/workflow/transitions.py:143-182 | when each refusal before anyone's authority is looked at is given, exactly: not found, replayed, stale, closed, no transition, no comment |
| ActionLaws.RepeatIsAnswered | office_connect/core/workflow/transitions.py:154-165 | a repeated key is answered with the first event recorded under it |
| ActionLaws.OriginatorActs | office_connect/core/workflow/transitions.py:78-97 | an admitted submit, resubmit or cancel is accepted exactly from the originator and from those who hold or are lent the permission of the first transition, in order, that leads on, where it names one |
| ActionLaws.GateIsResolved | office_connect/core/workflow/transitions.py:237-257 | an admitted return or reject is accepted exactly from those who hold or are lent the state's permission or, without one, the transition's |
| ActionLaws.ApprovalIsDecided | office_connect/core/workflow/transitions.py:189-236 | an admitted approval is refused, in this order, for a slot filled before or none open, for want of authority and for segregation, and accepted otherwise |
| ActionEffects.ExecutedWasAdmitted | office_connect/core/workflow/transitions.py:143-182 | an accepted action was new, up to date, about an open instance, and had a route and a comment where one is asked for |
| ActionEffects.ActionLeads | office_connect/core/workflow/transitions.py:232-278 | an accepted action leaves the instance where the first transition, in order, with its state, that action and an amount within its bounds leads, unless an approval leaves the gate waiting; one version on, one revision on after a resubmit, and otherwise as it was |
| ActionEffects.ActionRecords | office_connect/core/workflow/transitions.py:100-124 | one event is added: of this instance, actor, key, slot and state, on behalf of nobody exactly when the actor holds what is asked for, and else of somebody who lends it |
| ActionEffects.ActionEditsSlots | office_connect/core/workflow/transitions.py:197-257 | what becomes of each slot: the approved one is filled, open ones are skipped when the gate passes, a return or a reject closes the open ones, nothing else changes |
| ActionEffects.GateOpens | office_connect/core/workflow/steps.py:21-54 | entering a gate opens as many slots as the state asks for and one at least, each open, nobody's, pinned, and due when the hours are over |
| ActionEffects.ActionOpensGate | office_connect/core/workflow/transitions.py:280-285 | the rows that an accepted action adds are exactly the slots of the gate it enters |
| ActionEffects.StartPlaces | office_connect/core/workflow/service.py:39-93 | a started instance stands in the initial state at version and revision 1, with its event and its gate's slots, and nothing else changes |
| WorkflowRuns.SweepDueSteps | office_connect/core/workflow/sla.py:62-73 | the loop raises each level and appends one event per step |
| WorkflowRuns.EscalatingRaisesLevels | office_connect/core/workflow/sla.py:62-73 | a sweep raises exactly the selected levels by one with one event each, and no instance, status or folded state changes |
| ActionEffects.DueIsSpelledOut | office_connect/core/workflow/sla.py:45-61 | a step is due exactly when it is open, was never escalated, and has a deadline that has come |
| ActionEffects.FreshSlotIsDueFrom | office_connect/core/workflow/steps.py:21-54 | while it is open and not escalated, a slot opened at t with h hours is due exactly from t plus h hours on, and never without hours |
| ActionEffects.SweepRecords | office_connect/core/workflow/sla.py:62-79 | a sweep appends one event per selected step, in order, of its instance, one level up and moving nothing |
| WorkflowRuns.ApprovalIsProper | office_connect/core/workflow/transitions.py:197-223 | an accepted approval fills an open slot, by someone who filled none and, where enforced, is not the originator |
| WorkflowRuns.ExecuteKeeps | office_connect/core/workflow/transitions.py:127-300 | every accepted action keeps read-model and log consistent, duties segregated and escalations counted |
| WorkflowRuns.StartKeeps | office_connect/core/workflow/service.py:66-93 | starting an instance establishes and keeps the same |
| WorkflowRuns.SweepKeeps | office_connect/core/workflow/sla.py:41-79 | a sweep keeps the same |
| WorkflowService.WorkflowTables.constructor | office_connect/core/workflow/service.py:66-93 | empty tables on a published graph are sound |
| WorkflowService.WorkflowTables.ActivateStateSteps | office_connect/core/workflow/steps.py:21-54 | opens at least one and otherwise step-count active slots of a gate, pinned to permission and unit, and none for another state |
| WorkflowService.WorkflowTables.StartInstance | office_connect/core/workflow/service.py:66-93 | places the instance, opens its gate and records it, so that its log folds to its state |
| WorkflowService.WorkflowTables.Sweep | office_connect/core/workflow/sla.py:41-79 | escalates exactly the selected steps |
| WorkflowMachine.StepKeeps | office_connect/core/workflow/sla.py:41-79 | starts, actions and concurrent sweeps that begin, commit or abort keep the whole invariant |
| WorkflowMachine.RunKeepsInv | office_connect/core/workflow/sla.py:41-79 | it holds in every state of every run |
| WorkflowMachine.EveryRunIsSound | office_connect/core/workflow/replay.py:20-48 | in every run the log folds to the stored state, escalation events equal the level and never exceed one, and duties are segregated |
| WorkflowMachine.SweepIsNonInterrupting | office_connect/core/workflow/sla.py:41-79 | committing a sweep moves no instance and changes no step's status |
| WorkflowMachine.SweepsEscalateEverything | office_connect/core/workflow/sla.py:45-61 | as many sweeps of limit at least one as there are due steps leave none due |
| SweepProgress.StepTakesFromDue | office_connect/core/workflow/sla.py:41-79 | a sweep that begins or aborts leaves the due steps as they are, one that commits takes exactly its selection from them, and what is locked stays due |
| SweepProgress.SweepsTakeWhatTheyCommit | office_connect/core/workflow/sla.py:41-79 | in every interleaving of sweeps that begin, commit or abort, the due steps lose exactly what was committed, and the sizes of the committed selections add up to the loss, so no step is escalated twice |
| SweepProgress.EnoughCommitsEscalateEverything | office_connect/core/workflow/sla.py:41-79 | however they interleave and however many abort, once as many sweeps have committed something as there were due steps, none is due |
| SweepProgress.FindingNothingMeansDone | office_connect/core/workflow/sla.py:45-61 | a sweep of limit at least one finds nothing exactly when every due step is held by a running sweep; with none running, exactly when nothing is due |
| SweepProgress.ReachableSweepsAccount | office_connect/core/workflow/sla.py:41-79 | the same account holds from every state a run reaches with no sweep running |
| Approvals.GateApproversDiffer | office_connect/core/workflow/transitions.py:198-203 | in every sound database the filled slots of a gate belong to as many different people |
| Approvals.JoinCountsSlots | office_connect/core/workflow/steps.py:78-91 | fan-in is met exactly when the filled slots reach what the join asks for |
| Approvals.GatePassesOnEnoughPeople | office_connect/core/workflow/transitions.py:197-236 | an approval adds one different person; where enforced none is the originator; and the instance moves exactly when the people reach what any, quorum or all asks for |
| GateEntries.RunIsScoped | office_connect/core/workflow/steps.py:21-54 | in every run each step carries its state's join and quorum and no later revision than its instance |
| GateEntries.ResubmitStartsAfresh | office_connect/core/workflow/transitions.py:270-286 | after a resubmit no slot of the gate is filled and each was opened just now, whatever earlier visits left |
| GateEntries.FilledStaysFilled | office_connect/core/workflow/transitions.py:225-257 | in every run a filled slot stays filled by the same person |
| GateEntries.EntryTakesFreshPeople | office_connect/core/workflow/steps.py:57-91 | counting from any earlier moment at which the instance stood in the same state and revision, an approval passes the instance exactly when the people since then reach what the gate asks for less the people it held already, and at least one |
| GateEntries.QuorumIsFresh | office_connect/core/workflow/steps.py:89-90 | in every run, an entry of a quorum gate never takes more people than the quorum, and takes exactly as many if and only if nobody had approved in that state and revision when it was entered, or the quorum is one |
| GateEntries.AllSlotsAreTaken | office_connect/core/workflow/steps.py:78-91 | in every run, a gate that asks for all takes one fresh person for each slot not filled when it was entered, and passes exactly when every slot is filled |
| GateEntries.AnyTakesOne | office_connect/core/workflow/steps.py:87-88 | in every run, a gate that asks for anyone passes on each approval, whoever approved before |
| WorkflowExamples.OneFreshApprovalPasses | office_connect/core/workflow/transitions.py:189-257 | on a well-formed graph: start, submit, approve, return, submit, and one more approval passes a quorum of two |
| AvailableActions.AvailableActions | office_connect/core/workflow/transitions.py:303-387 | lists, once each, exactly the actions that some routed transition offers the actor; nothing in a terminal state |
| ActionLaws.OfferIsSpelledOut | office_connect/core/workflow/transitions.py:332-387 | when one transition offers its action to someone, over the slots, the originator and the grants and delegations |
| AvailableActions.AcceptsIsPasses | office_connect/core/workflow/transitions.py:197-273 | in every database that keeps the invariant, accepting comes down to what the first routed transition asks of the actor; `ActionLaws` spells out what that is |
| AvailableActions.OfferedIsAccepted | office_connect/core/workflow/transitions.py:310-317 | an offered action is accepted for all actors, grants and delegations if and only if the routed transitions ask for what executing asks for |
| AvailableActions.AcceptedIsOffered | office_connect/core/workflow/transitions.py:338-386 | every accepted action is offered if and only if some routed transition asks for no more than executing does, which only an approval can miss |
| WorkflowExamples.OfferedAndRefused | office_connect/core/workflow/transitions.py:310-317 | on a well-formed graph with two returns under different permissions, a started instance offers an actor the return and refuses it |
| WorkflowExamples.AcceptedAndNotOffered | office_connect/core/workflow/transitions.py:204-213 | on a well-formed graph whose approving transition alone names a permission, an approval is accepted and not offered |

## Left out

- HTTP routers, middleware, e-mail, storage drivers, PDF rendering, job queues, backups and migrations: plumbing without a hard property.
- SHA-256, canonical JSON text, lower-casing and reading decimals are parameters; of the digest only its length is assumed.
- The individual auto-checks: the checklist engine is parameterized by an arbitrary check function, and no theorem depends on it.
- Python's date range and NaN decimals: days are unbounded integers and amounts are reals.
- Concurrent grants to one user that both read the old version, stamps out of commit order, and logins that race a stamp: a grant is one atomic step per user and stamps follow commit order. `SessionRuns.LateStampGoesBack` shows why the order matters.
- Edits of roles and of role permissions: the source does not version them, so cached sets may lag behind them by the backstop.
- AuthzFreshness.StampedChangeTakesEffect: uses one version per session and leaves session expiry to `SessionRuns`; `SessionRuns.StampReachesAll` is what makes a stamp reach every readable session.
- Session tokens are taken to be fresh, as random ones of 256 bits are, and the application and Redis to share one clock; each call on the session store is one step.
- Rbac.AccessControl.EffectivePermissionCodes: the call loads and stores at one instant; `AuthzFreshness.StampedChangeTakesEffect` covers loads and stores at different ones.
- Listing a user's sessions and resolving a session handle: reads that add nothing hard.
- `execute_action` is modelled on values, as one transaction under the instance's row lock, and which open slot of a gate is filled first is left open; update in place of the step rows is not captured.
- The comment text, the timestamps of step rows and the subject of an instance: no rule reads them.
- Starting an instance takes the published version and its initial state as given; the feature-flag gate is left out.
- Soft deletion of workflow states and transitions: authoring has no call for it.
- The wording and the order of the complaints about a refused feed.
- The roll-back by the caller's transaction after pruning against an empty feed is refused, which happens once the tables are written.
- The org table has one row per code and the staff table one per employee number.
- `packet_status` is modelled with its default set of blocking evidence kinds.
- The blank characters of a scope rule are the space, the tab and the two line ends; Python's other white space is not modelled.
- The order in which permission holders are listed.
- Acyclicity of the whole org table: the source checks the feed's own parent graph only, and both walks stop at one depth.
- Retention, tokens, snapshots, outbox states and reimbursement arithmetic: easy members.
