# Cristalina kernel: models and proofs

Cristalina keeps governed memory in a store of JSON records. Its rules live in engines that decide which records become
canon, and in step-by-step procedures that change the store under locks, with journals, while processes may die. This
project models both in Dafny and proves what they are for. `dafny verify dfyconfig.toml` checks all of it.

How the modules relate, and how they follow the program:

- **Schemas.** `JsonValues` and `SchemaRuntime` are the JSON Schema interpreter, as a specification function and as the
  recursive program with its loops. `JsonMeaning` says what fields, types and printed forms of values are, `SchemaMeaning`
  gives schemas a declarative meaning with them and proves the interpreter decides it, and `SchemaIssues` says which issues
  it reports; `SchemaScope` proves that its path-based lookup of definitions is lexical; `SchemaTermination` proves when it ends
  and `SchemaCycles` when it cannot; `SchemaDecision` puts the results together. The interpreter is the code's, not the
  standard's: `items` applies to every element, where section 10.3.1.2 of JSON Schema 2020-12 Core skips the positions of
  `prefixItems`, and object keywords apply to arrays as well.
- **Canon.** `GovernanceRecords`, `GovernanceEngine` and `CanonEngine` are the records, the five gates and the engine;
  `CanonLifecycle` is the canon as a state machine over evaluate-and-apply steps, with its invariant.
- **Owner decisions.** `OwnerDecisions` plans what a decision writes and reports, `OwnerDecisionStore` is the procedure on
  a store. `OwnerOutcomes` says, record by record and field by field, what a decision leaves and answers. `OwnerRuns` follows verdicts over runs, `OwnerEffects` says what a ratification does to the canon, `OwnerCanon`
  follows the canon over runs, `OwnerCrossing` two ratifications under way at once, and `OwnerWitnesses` holds runs in which
  verdicts or canon are damaged, with the names of `SafeNames`. `OwnerDecisionJournal` models the write-ahead journal down to single
  file operations, with crashes during writing and during recovery and other processes writing in between; `OwnerRetry`
  combines them: a decision is made exactly once, and two actions on one proposal can still cross.
- **Locks and the audit log.** `AuditLog` is the log as text and as entries, `MkdirLock` the lock directory as an
  interleaving of processes with a clock, guarding the append.
- **Session continuity.** `SessionCheckpoints` creates checkpoint generations, `SessionPacks` compiles packs for them;
  both may stop after any write.
- **Maturation.** `MaturationRules` folds matured candidates into slots and compares the two rules that make a candidate
  eligible for canon; `MaturationRuns` follows candidates through proposal, decision and promotion over whole runs, and
  `MaturationPromotion` says what a promotion overlooks.
- **Smaller cores.** `WorkerPool` (the concurrent map), `ProjectionSelection` (the latest projection), `ProjectionReads`
  and `Recognition` (what a projection may read, and its manifest against the separately written validator), `PluginYaml`,
  `PluginEditor` and `PluginText` (the editor of the plugin block, on the block, the lines and the text), `PluginPatterns`
  (what its patterns match), `PluginLines` (which lines it changes) and `PluginOthers` (what it does to other plugins).

Where the source updates state step by step the model is a class or a method with loops, proved against a specification
function; the results are lemmas about that function and invariants over runs. Randomness, the clock, the order in which
directories are listed and library calls on text enter as parameters, as choices left open, or as uninterpreted functions.

Some expected properties do not hold of the code. For each there is a lemma with the input or the run, and one with the
exact condition under which the property holds:

- a closed record can have an inverted validity interval (`CanonLifecycle.FutureClaimInvertsInterval`; exactly when:
  `CanonLifecycle.RunOrdersExactly`);
- an owner decision can leave two active records of one slot, break the links between records and rewrite a closed record
  (`OwnerWitnesses.TwoRevisionsBreakCanon`, `MovingBreaksUniqueness`, `BlankSlotBreaksUniqueness` and
  `RetiringReplacedBreaksCanon`; exactly when: `OwnerCanon.UniqueExactly`, `OwnerCanon.CanonStaysValidExactly` and
  `OwnerCanon.ExtendsExactly`);
- two ratifications under way at once can leave two active records of one slot that each found free
  (`OwnerWitnesses.CrossedCreatesBreakUniqueness`; exactly when: `OwnerCrossing.CrossedUniqueExactly`);
- proposals whose ids reduce to one id part share files, and a verdict or a canonical record is overwritten
  (`OwnerWitnesses.SharedPartLosesVerdict`; exactly when: for verdicts `OwnerRuns.VerdictSurvivesExactly`, for records
  `OwnerCanon.RecordSurvivesExactly` and `OwnerCanon.WritesOverExactly`; over runs `OwnerRuns.VerdictStaysExactly` and
  `OwnerCanon.RecordStaysExactly`);
- a rejection made while a ratification is pending recovery leaves two verdicts
  (`OwnerWitnesses.PendingRatificationMeetsRejection`; exactly when: `OwnerRetry.StalePlanDoublesVerdict`);
- a journal with a record that the validator refuses is never recovered (`OwnerDecisionJournal.RefusedJournalStays`;
  exactly when: `OwnerDecisionJournal.RecoveryCompletesExactly`);
- the owner decision lock reads the clock after `stat`, and mutual exclusion fails within the stale bound
  (`MkdirLock.LateClockBreaksExclusion`), and a dead holder breaks it past the bound (`MkdirLock.DeadHolderBreaksExclusion`;
  exactly when, while a process is inside: `MkdirLock.ExclusionExactly`);
- a checkpoint creation that stops between its writes leaves the context without an active checkpoint, and the repeated
  call forgets the chain (`SessionCheckpoints.RetryAfterStopForgets`; exactly when:
  `SessionCheckpoints.HealthyExactlyWhenWhole`); a session pack that stops before its manifest record can never be compiled
  again (`SessionPacks.HalfWrittenForGood`; exactly when a compilation throws, with default ids:
  `SessionPacks.DefaultPacksNeverClash`);
- the batch rule of maturation ignores the epistemic state, so a disputed claim waiting for the owner is promoted
  (`MaturationPromotion.PendingReviewIsPromoted`; exactly when: `MaturationPromotion.PromotionIgnoresDoubt`), and a promoted
  slot reuses its record id, so a retired record, or one of another slot, is overwritten
  (`MaturationPromotion.PromotionRevivesRetired` and `DotAndUnderscoreLoseRecord`; exactly when:
  `MaturationPromotion.PromotionWritesOverExactly`);
- the projection comparator has cycles across contexts and across epochs (`ProjectionSelection.ContextsMakeACycle`,
  `ProjectionSelection.EpochsMakeACycle`; exactly when, in one context: `ProjectionSelection.TransitiveExactly`);
- an edit that rewrites the key enables plugins that the old form did not, such as list items below an inline list or an
  entry in two pairs of quotes (exactly which: `PluginOthers.AddEnablesExactly`);
- removing a plugin from an inline list can leave it listed (`PluginEditor.RemovalMissesEntries`; exactly when:
  `PluginEditor.InlineRemoval`).

## Model

| member | source | states |
|---|---|---|
| SchemaRuntime.ValidateNode | packages/core/src/schema-runtime.ts:129-330 | the recursive program with its two early returns computes the specification function issue by issue, at every stack depth |
| SchemaRuntime.ValidateAgainstSchema | packages/core/src/schema-runtime.ts:332-339 | an unknown schema id is one issue at the root; a known one is validated from an empty path |
| SchemaRuntime.FindRepeat | packages/core/src/schema-runtime.ts:215-227 | the loop with its set of printed items stops exactly when some item prints like an earlier one |
| SchemaMeaning.AcceptanceIsMeaning | packages/core/src/schema-runtime.ts:129-330 | the values without issues solve the defining equation: every schema means the conjunction of its keywords, with exactly one branch for oneOf, if/then/else, not, contains and additionalProperties |
| SchemaMeaning.ValidateDecidesMeaning | packages/core/src/schema-runtime.ts:129-330 | every solution of that equation accepts exactly the values for which the interpreter returns no issue, so the meaning is unique wherever the interpreter returns |
| SchemaMeaning.OneTrue | packages/core/src/schema-runtime.ts:155-160 | counting matching branches and comparing with one is the quantifier "some branch holds and no other does" |
| SchemaIssues.IssuesExactly | packages/core/src/schema-runtime.ts:129-330 | an issue is in the result exactly when a keyword is broken at its path: a reference that means nothing, which hides the rest; or what the referenced schema reports; or a rule of the value, of an item or of a property, each stated by quantifiers over the value, apart from the interpreter |
| SchemaIssues.TypeDecides | packages/core/src/schema-runtime.ts:93-112 | the type keyword alone reports nothing exactly when the value has the shape of a named type, for each of the seven names and for lists of them; an integer is a number equal to some integer |
| JsonMeaning.EntriesMeaning | packages/core/src/schema-runtime.ts:252-281 | looking a key up among the entries of a record or an array finds exactly the last defined property or the defined item of that key, and there is one entry for each defined place |
| JsonMeaning.PrintMeaning | packages/core/src/schema-runtime.ts:215-227 | two values print alike exactly when they have the same shape and equal parts, with fields compared by key |
| SchemaScope.ValidateScopes | packages/core/src/schema-runtime.ts:114-145 | with definitions only at document roots and local refs defined there, the path-based lookup gives, at every depth and through references between documents and back, the same issues as lookup in the document that contains the reference |
| SchemaScope.DynamicScopeIsLexical | packages/core/src/schema-runtime.ts:332-339 | the same for the entry point, which starts with an empty path |
| SchemaScope.UndefinedKeyIsCaptured | packages/core/src/schema-runtime.ts:114-127 | the condition is needed: when a document uses a key it does not define, the definition of whichever document refers to it decides in its place, for every key, definition, value and depth, where lexical lookup reports an unresolved reference |
| SchemaTermination.ValidationTerminates | packages/core/src/schema-runtime.ts:139-169 | when no chain of references on one value returns to its start, validation of every value returns on every large enough stack |
| SchemaTermination.ValidationTerminatesWithin | packages/core/src/schema-runtime.ts:230-327 | for a value of height h and n schemas that references can reach, nested w deep, validation returns on every stack of h(n+1)(w+1) + n(w+1) + w calls |
| SchemaCycles.UnconditionalCycleOverflows | packages/core/src/schema-runtime.ts:139-160 | the other side: a registered document from which a chain of unconditional calls, through references, allOf, oneOf, not or the first branch of anyOf, leads into a cycle exhausts every stack on every value |
| SchemaCycles.CycleIsExcluded | packages/core/src/schema-runtime.ts:139-169 | so every such cycle is one of those that the condition of termination excludes |
| SchemaCycles.SelfReferenceOverflows | packages/core/src/schema-runtime.ts:139-160 | the shortest of them: a document that refers to itself |
| SchemaDecision.ValidationDecidesEveryValue | packages/core/src/schema-runtime.ts:332-339 | the three results together: on well-scoped registries without a reference cycle validation ends on every value and reports no issue exactly when the value meets the lexically scoped meaning |
| GovernanceEngine.DecisionMeaning | packages/core/src/governance/engine.ts:87-256 | approved exactly when, in the fields of the case, the proposal claims a canonical kind with evidence, no active world conflict is passed, its reference is as its operation needs, it opens a free slot, changes or retires an active record, and no owner is required; deferred exactly when only the owner is missing; rejected otherwise |
| CanonLifecycle.AcceptedProposalApplies | packages/core/src/canon/engine.ts:255-305 | a proposal that passed the gates is applied without an exception exactly when it retires a record or carries a non-empty statement and slot |
| CanonLifecycle.ActsExactly | packages/core/src/governance/engine.ts:87-256 | a step writes exactly when the proposal is promotable by those fields, does not require the owner, and retires a record or carries a claim |
| CanonEngine.AppliesExactly | packages/core/src/canon/engine.ts:15-57 | the engine throws exactly when layer, state, decision, proposal reference, target or claim do not fit |
| CanonEngine.ApplicationWrites | packages/core/src/canon/engine.ts:59-253 | what is written, field by field: the claim with its interval and its two sources; for a revision the link and the earlier record closed at the moment the new one starts, or now; for a retirement the record closed now, nothing else of it changed |
| CanonLifecycle.StepChange | packages/core/src/workflow-engine/pipeline.ts:1301-1335 | one evaluate-and-apply step changes nothing, adds one unlinked record that makes the claim of the payload, replaces one ratified record of the same kind and slot, or retires one ratified record |
| CanonLifecycle.RunKeepsValid | packages/core/src/governance/engine.ts:159-232 | over every serial run with fresh ids: at most one ratified record per kind and slot, ids unique, supersedes and superseded-by inverse, chains acyclic with the active record last, adjacent intervals meet, nothing deleted or rewritten |
| CanonLifecycle.RunOrdersExactly | packages/core/src/canon/engine.ts:82-104 | after every serial run each closed record has valid_from <= valid_to exactly when it had before and every step that closes a record closes one that has started by then, or gives it a successor that starts no earlier |
| CanonLifecycle.ClockedRunIsOrdered | packages/core/src/canon/engine.ts:57-104 | with a clock that does not run backwards and no claim dated in the future every closing step is such a step, so intervals stay ordered over every run |
| CanonLifecycle.FutureClaimInvertsInterval | packages/core/src/canon/engine.ts:57-75 | the condition is needed: a claim dated in the future is accepted, and retiring its record before it starts leaves an inverted interval |
| OwnerDecisions.ReportedRefsAreWritten | packages/core/src/owner-decisions.ts:679-942 | the created and updated refs of every action are exactly the ids written, as often; refused and repeated decisions write nothing |
| OwnerOutcomes.DecisionLeaves | packages/core/src/owner-decisions.ts:679-942 | after a written decision the store holds the packet with the time of the decision, applied for a ratification and answered otherwise; the disposition that names action, proposal, packet, that status and its ratification, canon, page or claim; the ratification with its verdict, the rejected proposal, the page and the claim of a move; and no other record outside canon has changed |
| OwnerOutcomes.WrittenExactly | packages/core/src/owner-decisions.ts:679-942 | another decision than a ratification is written exactly when the proposal is open and undecided, the action is new, the run is not dry, and a subsumption names a record that some canon file has |
| OwnerOutcomes.RatifiedExactly | packages/core/src/owner-decisions.ts:727-783 | a ratification is written exactly when the proposal is open and undecided, no record shares the slot of a create, the target of another operation is there, and the engine applies, all in the fields of the records |
| OwnerOutcomes.ReportExactly | packages/core/src/owner-decisions.ts:679-942 | the answer: the status, the created and the updated refs of each action, and the linked records of a refusal or a subsumption, dry run or not |
| OwnerOutcomes.OnlyOpenProposals | packages/core/src/owner-decisions.ts:339-351 | a proposal that is missing, not for the owner or not proposed makes every decision throw and write nothing |
| OwnerOutcomes.PacketsOverRuns | packages/core/src/owner-decisions.ts:541-543 | after every serial run each packet is as the last written decision that took it left it, applied or answered at that moment, and untouched when none did |
| OwnerDecisionStore.DecisionStore.ApplyOwnerDecision | packages/core/src/owner-decisions.ts:679-942 | the procedure, with the newest matching packet, returns the report of its plan and leaves the store of its plan |
| OwnerDecisionStore.DecisionStore.PendingCurationPacket | packages/core/src/owner-decisions.ts:169-173 | the chosen packet mentions the proposal and none that does is newer |
| OwnerRuns.RatificationIdIsInjective | packages/core/src/owner-decisions.ts:408-410 | a ratification id determines the action and the id part of the proposal |
| OwnerRuns.VerdictsAreUnique | packages/core/src/owner-decisions.ts:545-555 | after every serial run each proposal has at most one approving or rejecting ratification, whatever id parts the proposals share |
| OwnerRuns.VerdictSurvivesExactly | packages/core/src/owner-decisions.ts:408-410 | a decision keeps the verdict on a proposal exactly when it is not a written ratification, deferral or rejection of another proposal whose ratification file is the one that holds that verdict |
| OwnerRuns.VerdictStaysExactly | packages/core/src/owner-decisions.ts:679-942 | along every run a verdict stays exactly when no decision of the run writes over its file |
| OwnerRuns.VerdictsLast | packages/core/src/owner-decisions.ts:321-323 | with distinct id parts none does: after every run no verdict is lost |
| OwnerRuns.VerdictIsTerminal | packages/core/src/owner-decisions.ts:545-555 | once a proposal has a verdict, and as long as none is written over it, no later decision on it changes any record, however many decisions lie between |
| OwnerWitnesses.SharedPartLosesVerdict | packages/core/src/owner-decisions.ts:208-210 | a run of two ratifications, of prop_A and prop_a, loses the verdict on the first and overwrites its canonical record with a claim about another slot |
| OwnerEffects.RatifiesExactly | packages/core/src/owner-decisions.ts:727-783 | a ratification of an open proposal is written exactly when the guards of the decision and of the engine hold: target canon, no canon of the slot or a target of the kind, statement and slot given |
| OwnerEffects.CanonAfterDecision | packages/core/src/owner-decisions.ts:727-935 | only a written ratification changes the canon, and it changes it by the records of the canon engine |
| OwnerCanon.UniqueExactly | packages/core/src/owner-decisions.ts:175-181 | it leaves one active record per kind and slot exactly when no active record, outside the files it writes, has the kind and slot of the proposal; the same-slot check guarantees that for a create with a slot that is not blank |
| OwnerCanon.DecisionKeepsValid | packages/core/src/owner-decisions.ts:742-760 | from every store, new id in use or not: a decision keeps the whole canon invariant exactly when it is no written ratification, or one for which, besides, no record of another kind has the new id, the target was not replaced by another record and has, for a revision, the slot of the payload, and a record that is written over has no link the new one does not have |
| OwnerCanon.CanonStaysValidExactly | packages/core/src/owner-decisions.ts:727-783 | along every run of decisions the canon stays valid exactly when every written ratification meets that condition |
| OwnerCanon.ExtendsExactly | packages/core/src/owner-decisions.ts:742-760 | from every store: a written ratification rewrites no closed record, and no claim or origin of a record, exactly when its target is active or already is, field by field, as it would be left, and a record whose file the new one takes is an active one created at the same moment with the same claim, start and predecessor |
| OwnerCanon.RecordSurvivesExactly | packages/core/src/owner-decisions.ts:321-323 | a decision keeps a canonical record from earlier, in its file and with its origin, exactly when it is not a written ratification whose new record takes that file |
| OwnerCanon.WritesOverExactly | packages/core/src/owner-decisions.ts:751-760 | so with a clock that moves a ratification writes over some record exactly when it creates or revises, its new id is in use for the kind, and that is not the id of the record it revises |
| OwnerCanon.RecordStaysExactly | packages/core/src/owner-decisions.ts:727-783 | over every run a record from earlier survives exactly when no ratification of the run takes its file |
| OwnerCanon.OwnedRunIsFresh | packages/core/src/owner-decisions.ts:321-323 | new ids are unused throughout a run when id parts are distinct and no record uses the id reserved for an undecided proposal at its start |
| OwnerCanon.OwnedRunLosesNoRecord | packages/core/src/owner-decisions.ts:321-323 | then no canonical record is written over, by any clock |
| OwnerCanon.ActiveRunKeepsCanon | packages/core/src/owner-decisions.ts:727-783 | when every ratification brings an unused id and closes an active record of its slot or opens a free slot, the canon stays valid and nothing in it is lost or rewritten over the whole run |
| OwnerCrossing.CrossedUniqueExactly | packages/core/src/owner-decisions.ts:231-245 | two ratifications planned from one store and both written, as their locks allow: one active record is left per kind and slot exactly when the record of the last has no rival outside the files of both, nor the record of the first if it is not written over, and the two, when both are left, are not of one kind and slot |
| OwnerCrossing.CrossedCreatesExactly | packages/core/src/owner-decisions.ts:679-760 | so two creates of slots that are not blank leave two active records of one slot exactly when kind and slot are the same and the new ids differ |
| OwnerCrossing.CrossingIsStored | packages/core/src/owner-decisions.ts:672-677 | and the crossing is a run of the journal: a write planned before the records of the other came finishes over them |
| OwnerWitnesses.CrossedCreatesBreakUniqueness | packages/core/src/owner-decisions.ts:231-245 | two proposals to create a record of the slot home, each ratified while the slot is free, leave two active records of it |
| OwnerWitnesses.TwoRevisionsBreakCanon | packages/core/src/owner-decisions.ts:751-760 | ratifying two proposals that revise one record leaves two active records of its slot, links that are not inverse, and a rewritten closed record |
| OwnerWitnesses.MovingBreaksUniqueness | packages/core/src/owner-decisions.ts:751-760 | a revision may move a record to a slot that has an active record |
| OwnerWitnesses.BlankSlotBreaksUniqueness | packages/core/src/owner-decisions.ts:146-148 | two creates of a slot of blanks leave two active records of it |
| OwnerWitnesses.RetiringReplacedBreaksCanon | packages/core/src/owner-decisions.ts:742-760 | retiring a record that was replaced cuts its link while the successor still points back |
| OwnerDecisionJournal.CrashAtomicity | packages/core/src/owner-decisions.ts:282-319 | whatever crashes the write and the recoveries, the first completed recovery leaves the journal gone and the store as other processes alone would have it, even if they wrote over the journaled records while the process was down, with all journaled records when the journal had been renamed into place and none otherwise |
| OwnerDecisionJournal.RecoveryNeverRefuses | packages/core/src/store/atomic-write.ts:27-56 | in every reachable state the recovery accepts the journal it finds and each written record file is whole |
| OwnerDecisionJournal.RecoveryCompletesExactly | packages/core/src/store/io.ts:346-352 | after a crash some continuation completes a recovery exactly when the journal was not in place or the validator accepts every record in it |
| OwnerDecisionJournal.RefusedJournalStays | packages/core/src/store/io.ts:346-352 | a committed decision with a record the validator refuses is never complete: its journal stays for good |
| OwnerDecisionJournal.PrefixIsRun | packages/core/src/owner-decisions.ts:304-319 | what a procedure leaves when it stops after any number of file operations is a state of such a run |
| OwnerDecisionJournal.Disk.AtomicWriteText | packages/core/src/store/atomic-write.ts:27-56 | the file operations done are those of the plan, cut where the process stops |
| OwnerDecisionJournal.Disk.WriteOwnerDecisionCoreRecords | packages/core/src/owner-decisions.ts:304-319 | journal, records in order, each validated first, removal, cut where the process dies or a record is refused |
| OwnerDecisionJournal.Disk.RecoverOwnerDecisionJournal | packages/core/src/owner-decisions.ts:282-302 | a missing or empty journal is nothing to do, a malformed one throws and changes nothing, a good one is replayed and removed |
| OwnerRetry.AppliedDecisionSettles | packages/core/src/owner-decisions.ts:743-942 | an applied decision leaves a verdict exactly when it ratifies or rejects, approving exactly when it ratifies; the proposal stays open exactly when it was not rejected; the action is on record |
| OwnerRetry.DecidedExactlyOnce | packages/core/src/owner-decisions.ts:672-677 | a decision called again after crashes is made exactly once: it changes nothing when the first call committed, and starts from the unchanged store when it did not |
| OwnerRetry.StalePlanDoublesVerdict | packages/core/src/owner-decisions.ts:231-245 | lock and journal are those of one action: a decision planned before another action on its proposal and written after it leaves more than one verdict exactly when both are verdicts |
| OwnerRetry.PendingJournalIsReplayed | packages/core/src/owner-decisions.ts:672-677 | such a run exists for any two decisions, whatever files they share: the first dies with its journal in place, the second is written, and the recovery of the first writes its records over them |
| OwnerWitnesses.PendingRatificationMeetsRejection | packages/core/src/owner-decisions.ts:247-302 | so a ratification that died with its journal in place and a rejection made meanwhile, with the same packet or not, leave after the recovery the records of both, the ratification over the rejection, with two verdicts on one proposal |
| AuditLog.HasJsonLineEntry | packages/core/src/audit/log.ts:43-57 | the scan with its early return is decided by the first line with the id or the first line that cannot be parsed |
| AuditLog.ScanFindsEntries | packages/core/src/audit/log.ts:43-57 | on a log written by appends the scan finds an id exactly when an entry has it |
| AuditLog.RenderIsInjective | packages/core/src/audit/log.ts:150-162 | the text of a log determines its entries and their order |
| AuditLog.LogFile.AppendJsonLine | packages/core/src/audit/log.ts:150-162 | a keyed entry is appended once, any other always; an unreadable log is left alone |
| MkdirLock.MutualExclusion | packages/core/src/audit/log.ts:98-148 | in every interleaving of any number of processes in which no lock directory outlived the bound, at most one is inside, because the clock is read before stat; read after it, the same holds when no process holds on to an age that has passed the bound |
| MkdirLock.LogOnlyGrows | packages/core/src/audit/log.ts:150-162 | every later log extends every earlier one |
| MkdirLock.LogIsExact | packages/core/src/audit/log.ts:150-162 | no append is lost or doubled: the log is the first log and one entry of each writer in order, no entry id occurs twice, and a finished process wrote its entry or found its id |
| MkdirLock.ExclusionExactly | packages/core/src/owner-decisions.ts:238-280 | the conditions are exact: in a run that was in time so far, while a process is inside and no time passes, every continuation keeps exclusion exactly when no other process is under way, or the lock directory is within the bound and nobody holds on to an age that has passed it |
| MkdirLock.LateClockBreaksExclusion | packages/core/src/owner-decisions.ts:238-280 | with the clock read after stat, as the owner decision lock does, two of any three or more processes are inside in a run in which no lock directory outlives the bound |
| MkdirLock.DeadHolderBreaksExclusion | packages/core/src/audit/log.ts:109-137 | the bound is needed in either order: two processes that break the lock of a dead one can both enter |
| SessionCheckpoints.RunKeepsSound | packages/core/src/session-continuity-store.ts:241-316 | in every reachable state, creations stopped anywhere, each context has at most one active checkpoint and generations strictly increase along the supersedes links |
| SessionCheckpoints.HealthyExactlyWhenWhole | packages/core/src/session-continuity-store.ts:297-314 | a creation keeps "every context has an active checkpoint, it is the highest, and links are inverse" exactly when it does not stop between its two writes |
| SessionCheckpoints.WholeRunKeepsHealthy | packages/core/src/session-continuity-store.ts:241-316 | so in runs without such a stop the active checkpoint is maximal |
| SessionCheckpoints.RunExtends | packages/core/src/session-continuity-store.ts:297-314 | apart from status and successor link a checkpoint never changes |
| SessionCheckpoints.RetryWritesNothing | packages/core/src/session-continuity-store.ts:247-265 | after a finished creation the same call writes nothing, and another contract under the id throws |
| SessionCheckpoints.CreationExactly | packages/core/src/session-continuity-store.ts:267-314 | which records a creation changes: the previous one becomes superseded by the new id and keeps its other facts; the new one, there exactly when the creation is whole, has what was given, a link, and the given generation or, when that is not above the previous one's, the next |
| SessionCheckpoints.CreatesExactly | packages/core/src/session-continuity-store.ts:267-314 | over a valid previous checkpoint everything is written exactly when the refs are safe, the policy version is given, the upstream refs are there and distinct, and, without a previous checkpoint, the generation is at least one |
| SessionCheckpoints.RetryAfterStopForgets | packages/core/src/session-continuity-store.ts:267-275 | after a stop between the writes the same call writes a checkpoint without a link and with the given generation, highest exactly when no older one is above it |
| SessionCheckpoints.CheckpointStore.CreateWorkingMemoryCheckpoint | packages/core/src/session-continuity-store.ts:241-316 | the procedure does a creation of the model; it returns normally only when the creation is whole |
| SessionCheckpoints.CheckpointStore.PreviousActive | packages/core/src/session-continuity-store.ts:87-92 | the previous checkpoint competes for the context and none that does comes before it |
| SessionPacks.FullFilterSelects | packages/core/src/session-continuity-store.ts:205-239 | a filter naming a whole context selects its active checkpoint exactly when only one epoch of it has one |
| SessionPacks.SelectsExactly | packages/core/src/session-continuity-store.ts:217-239 | the call selects a checkpoint exactly when it is active and has the given id or, without an id, is the only active one that agrees with every given ref |
| SessionPacks.StableKeyIsInjective | packages/core/src/session-continuity-store.ts:193-203 | distinct valid checkpoints or adapters have distinct stable keys |
| SessionPacks.PacksAreBackedAndLasting | packages/core/src/session-continuity-store.ts:369-400 | in every reachable state, stops included, no manifest record lacks its artifact record and no artifact record lacks its whole text; stored records never change |
| SessionPacks.PackExactly | packages/core/src/session-continuity-store.ts:332-411 | what a new pack writes, and nothing else: the text in the directory of the session, the artifact and the manifest with the context, generation, policy and sources of the checkpoint, under given ids or under digests of adapter, checkpoint, context and generation |
| SessionPacks.StoredExactly | packages/core/src/session-continuity-store.ts:107-134 | a stored pack is returned exactly when both records are what would be written now but for ids and times |
| SessionPacks.RecompileReturnsStored | packages/core/src/session-continuity-store.ts:107-134 | whatever happens after a finished compilation, the same call returns the pack stored then, unless it asks for another audience, which throws |
| SessionPacks.HalfWrittenForGood | packages/core/src/session-continuity-store.ts:372-379 | after a stop between the artifact record and the manifest record the same call throws for good, whatever creations and compilations follow |
| SessionPacks.TextAloneIsRewritten | packages/core/src/session-continuity-store.ts:381-400 | after an earlier stop the next call writes the pack again |
| SessionPacks.DefaultPacksNeverClash | packages/core/src/session-continuity-store.ts:332-411 | with default ids, after any run of creations and compilations, a compilation throws exactly for another audience or that half-written pack, never because of another checkpoint |
| SessionPacks.PackStore.CompileSessionPack | packages/core/src/session-continuity-store.ts:332-411 | the procedure does a compilation of the model, stopped anywhere |
| MaturationRules.MergeUniqueStrings | packages/core/src/memory-maturation.ts:333-341 | each non-empty value once, in the order of first occurrence |
| MaturationRules.LoadSlotSummaries | packages/core/src/memory-maturation.ts:492-524 | the map built in one pass holds for every slot the fold of its own history |
| MaturationRules.FoldOrderDoesNotMatter | packages/core/src/memory-maturation.ts:377-408 | counts, distinct days, first and last dates, roles and refs of a slot do not depend on the order of folding |
| MaturationRules.CorroboratedExactly | packages/core/src/memory-maturation.ts:410-481 | the corroboration policy in terms of the history: with n distinct refs on d days and k earlier candidates, when a candidate may become canon (five refs, or three with two days or an earlier candidate, low risk, no owner, no doubt), when it goes to a review (the owner's, or five refs or three days without high risk), and which dispositions it then has |
| MaturationRules.ActionExactly | packages/core/src/memory-maturation.ts:1095-1118 | the suggested action of a slot in terms of its history, its last candidate and the same thresholds |
| MaturationRules.RulesCompared | packages/core/src/memory-maturation.ts:1095-1118 | folded last, a candidate makes its slot ready exactly when there is no active canon, no owner in the history, and the compile-time rule accepts it with its epistemic state set aside |
| MaturationRules.EligibleIsReady | packages/core/src/memory-maturation.ts:410-481 | so a candidate eligible at compile time is ready, already canon, or for owner review, as the canon and the history say |
| MaturationRuns.CandidateEndsInOneWay | packages/core/src/memory-maturation.ts:1580-1672 | a candidate that proposes canon ends in exactly one of canon record, pending packet or rejection with a diagnostic, each with its exact condition, and the record says what the candidate says |
| MaturationRuns.SubmittedCandidateFate | packages/core/src/memory-maturation.ts:807-879 | from submission on: with kind and slot free a candidate that asks for canon becomes canon exactly when it is not the owner's and is either corroborated or confident without high risk, and waits for the owner otherwise; an owner's claim always asks and never becomes canon here |
| MaturationRuns.QueuedExactly | packages/core/src/memory-maturation.ts:767-805 | a candidate is queued for a review exactly when it may not become canon by corroboration and asked for it, needs it, or proposes canon as the owner's, without high confidence or with high risk |
| MaturationRuns.MaturesExactly | packages/core/src/memory-maturation.ts:807-868 | a batch with an incomplete candidate changes nothing; otherwise each candidate is remembered, in order, with the claim it made |
| MaturationRuns.ReadyExactly | packages/core/src/memory-maturation.ts:1095-1118 | a slot is ready for promotion exactly when it has a history without the owner, no active ratified record, and a last candidate of low risk and enough support |
| MaturationRuns.OperationalExactly | packages/core/src/memory-maturation.ts:1137-1148 | a slot is an operational self-observation exactly when only agents spoke in it and one of the phrases stands in its name or last statement |
| MaturationRuns.OwnerClaimsNeverReachCanon | packages/core/src/memory-maturation.ts:767-805 | however maturations, promotions and foreign changes are mixed, every canon record this pipeline writes states a claim submitted by a candidate that is not the owner's and not of high risk |
| MaturationPromotion.PromotionIgnoresDoubt | packages/core/src/memory-maturation.ts:1137-1193 | a ready slot that is no operational self-observation becomes canon exactly when its kind and slot are free, whatever its epistemic state |
| MaturationPromotion.PendingReviewIsPromoted | packages/core/src/memory-maturation.ts:1234-1330 | from every state: a disputed claim of a new slot that the maturation sent to the owner is written to canon by the promotion that follows, without an answer |
| MaturationPromotion.PromotionWritesOverExactly | packages/core/src/memory-maturation.ts:1368-1385 | promoting a ready slot writes over an existing record exactly when the canon has a record in the file of the slot and its kind and slot are free all the same: a retired record, or an active one of another slot |
| MaturationPromotion.PromotionRevivesRetired | packages/core/src/memory-maturation.ts:1368-1385 | a run of maturation, promotion, retirement and promotion rewrites the closed record as active |
| MaturationPromotion.SharedNameLosesRecord | packages/core/src/memory-maturation.ts:1150-1174 | two slots with one safe name and one kind: promoting both leaves only the record of the second |
| MaturationPromotion.DotAndUnderscoreLoseRecord | packages/core/src/memory-maturation.ts:271-275 | home.city and home_city are such slots: from an empty store the second promotion overwrites the record of the first |
| WorkerPool.MapWithConcurrency | packages/core/src/memory-surface-audit.ts:389-405 | for every schedule the pool ends, starts each index once and in order, stays within the limit, and yields the mapped values; without workers it yields empty slots |
| ProjectionSelection.TransitiveExactly | packages/core/src/adapter-sdk/runtime-projection.ts:118-147 | within one context the comparator is transitive on a list exactly when the list holds no two manifests of one moment and epoch whose generations order them against their ids with one of another epoch between |
| ProjectionSelection.ComparatorIsStrictTotal | packages/core/src/adapter-sdk/runtime-projection.ts:118-147 | it is then a strict total order |
| ProjectionSelection.BeforeExactly | packages/core/src/adapter-sdk/runtime-projection.ts:99-147 | the comparator field by field: within one context checkpoint-consistent first; then the later; then, in one epoch, the higher generation; then the larger id |
| ProjectionSelection.HeadIsBest | packages/core/src/adapter-sdk/runtime-projection.ts:353-361 | the head of any sorted list is the unique best manifest, checkpoint-consistent if any is |
| ProjectionSelection.OneEpochHasABest | packages/core/src/adapter-sdk/runtime-projection.ts:353-361 | so when the manifests of one moment and strategy are of one epoch the comparator is transitive and the head of any sorted list is the best |
| ProjectionSelection.ContextsMakeACycle | packages/core/src/adapter-sdk/runtime-projection.ts:99-147 | across contexts the comparator goes in circles |
| ProjectionSelection.EpochsMakeACycle | packages/core/src/adapter-sdk/runtime-projection.ts:118-147 | three manifests of one moment and two epochs on which it goes in circles |
| ProjectionSelection.CycleHasNoBest | packages/core/src/adapter-sdk/runtime-projection.ts:118-147 | and then no manifest is best |
| ProjectionSelection.GuardMeansOneContext | packages/core/src/adapter-sdk/runtime-projection.ts:241-272 | the ambiguity guard passes exactly when all survivors of the filter share one context |
| ProjectionSelection.SurvivesExactly | packages/core/src/adapter-sdk/runtime-projection.ts:149-225 | a manifest passes exactly when it is a runtime bootstrap of the adapter that agrees with every field the filter gives and is whole when consistency is required |
| ProjectionSelection.LatestExists | packages/core/src/adapter-sdk/runtime-projection.ts:432-483 | a manifest is returned exactly when survivors exist and share one context; none is returned without an error exactly when the stated conditions hold |
| ProjectionSelection.LatestIsTheBest | packages/core/src/adapter-sdk/runtime-projection.ts:432-483 | what is returned is such a manifest and comes before every other one in that order |
| ProjectionReads.ReadMeaning | packages/core/src/adapter-sdk/projection.ts:77-254 | a record is read exactly when it is not private; or is bound and each of its instance, session and thread refs, its own before those of its provenance, which bind only outside canon, before its id, is the projection's; or is the owner's, unbound, and shares one of its four identities |
| ProjectionReads.ReasonMeaning | packages/core/src/adapter-sdk/projection.ts:137-254 | the reason of a suppressed record: the first ref that does not fit, the missing context, or the missing or foreign identity |
| ProjectionReads.BoundRecordsStayInContext | packages/core/src/adapter-sdk/projection.ts:137-191 | a private record that is bound to a ref in one of the three dimensions is read by two projections only if both have that ref |
| ProjectionReads.FilterKeepsOrder | packages/core/src/adapter-sdk/projection.ts:256-281 | the filter goes record by record and keeps their order on both sides |
| ProjectionReads.FilterProjectionRecords | packages/core/src/adapter-sdk/projection.ts:256-281 | the loop splits the records in order, each to the side of its read decision |
| Recognition.ValidateProjectionManifest | packages/core/src/validation.ts:1086-1341 | the hand-written validator, with its loops over suppressed records and retrieval traces, reports no issue exactly when the manifest meets the rules stated as one predicate |
| Recognition.UniqueSuppressedRecords | packages/core/src/projection-engine/hermes-recognition.ts:137-146 | the loop with its set of seen ids keeps the first record of each id |
| Recognition.CompiledManifestIsValid | packages/core/src/projection-engine/hermes-recognition.ts:383-631 | the compiled manifest meets those rules exactly when every context ref is null or non-empty and the two artifact ids differ, whatever was read or suppressed |
| Recognition.RecordsAreAccountedFor | packages/core/src/projection-engine/hermes-recognition.ts:496-509 | the id of a record read for an entry and the refs it depends on are upstream of the manifest, the id of a read diagnostic is among its diagnostics, and the id of every record that was not read is in its suppressed list; of a runtime instance that was read nothing is said |
| Recognition.UpstreamExactly | packages/core/src/projection-engine/hermes-recognition.ts:544-550 | the upstream refs are exactly the ids and sources of the records read for an entry, the linked refs and the runtime context, or the store manifest when there are none; so a suppressed id is there only as one of these |
| Recognition.OtherRefsExactly | packages/core/src/projection-engine/hermes-recognition.ts:530-621 | the diagnostic refs are exactly the ids of the diagnostics read, the suppressed refs those of the records that were not, each with its reason, the context refs the projection's; and the constant fields |
| PluginYaml.BodyIsSettled | packages/cli/src/installers.ts:443-506 | in a block with at most one enabled key an addition enables the plugin, takes it from the disabled list, and leaves nothing for a second one |
| PluginPatterns.HeaderExactly | packages/cli/src/installers.ts:450-451 | a key stands alone on its line when only blanks and a comment follow it |
| PluginPatterns.TopExactly | packages/cli/src/installers.ts:363-370 | a top-level key starts with no blank and no comment sign and has a colon after its first character |
| PluginPatterns.SubExactly | packages/cli/src/installers.ts:372-379 | a key of the block follows two blanks, is no list item and has a colon after its first character |
| PluginPatterns.ListsExactly | packages/cli/src/installers.ts:357-360 | a line lists a plugin exactly when it is put together from blanks, a dash, the name with at most one quote on each side, and an end |
| PluginPatterns.ValueExactly | packages/cli/src/installers.ts:405-410 | the value of an entry is what is left when blanks and then at most one quote are taken from each side |
| PluginPatterns.InlineExactly | packages/cli/src/installers.ts:477-479 | an inline list is the text up to the last bracket that only blanks and a comment follow |
| PluginPatterns.MapExactly | packages/cli/src/installers.ts:435-441 | the same for the inline map of the header |
| PluginEditor.AddHermesPlugin | packages/cli/src/installers.ts:443-506 | the splicing by absolute indices computes the edit of the block at its place in the document |
| PluginEditor.RemoveHermesPlugin | packages/cli/src/installers.ts:508-537 | the same for the removal |
| PluginEditor.RemovePluginFromList | packages/cli/src/installers.ts:390-403 | the loop whose bounds move while it splices drops exactly the listed lines up to the next key |
| PluginEditor.AddIsSettled | packages/cli/src/installers.ts:443-506 | after an addition the block is found, the plugin is enabled and not disabled in it, and a second addition changes no line and reports no change |
| PluginText.TextIsSettled | packages/cli/src/installers.ts:443-506 | the same on texts, with their line ends and trailing newline |
| PluginEditor.AddKeepsTheRest | packages/cli/src/installers.ts:443-506 | every line before and after the block is kept in order, whether the block is written out or in one of the two inline forms; without a block the old lines are a prefix |
| PluginEditor.RemoveKeepsTheRest | packages/cli/src/installers.ts:508-537 | the same for the removal, which changes nothing when it finds no enabled key |
| PluginLines.AddExactly | packages/cli/src/installers.ts:443-506 | line by line, for the block, inline, null and map forms: the first disabled list loses the lines that name the plugin, the key is given an item or is rewritten with every value of its entries, once, in their order, and the plugin; every other line stays in its place; a change is reported exactly when a line of the block changes |
| PluginLines.RemoveExactly | packages/cli/src/installers.ts:508-537 | the same for the removal: the list loses the lines or the values of the plugin and nothing else; without a list nothing changes |
| PluginOthers.AddKeepsOthers | packages/cli/src/installers.ts:443-506 | whatever the names are, an addition keeps every enabled plugin enabled, and beside them enables only what the new item names and what the old form hid |
| PluginOthers.AddEnablesExactly | packages/cli/src/installers.ts:443-506 | for a bare name exactly the plugin, the enabled plugins and the hidden ones are enabled afterwards |
| PluginOthers.RemoveKeepsOthers | packages/cli/src/installers.ts:508-537 | a removal keeps every other bare name enabled, and with one header enables no other but those that an inline form hid |
| PluginOthers.TextAddKeepsOthers | packages/cli/src/installers.ts:443-506 | the first on texts, for all names |
| PluginOthers.TextAddEnablesExactly | packages/cli/src/installers.ts:443-506 | the second on texts |
| PluginOthers.TextRemoveKeepsOthers | packages/cli/src/installers.ts:508-537 | the third on texts |
| PluginOthers.TextAddExactly | packages/cli/src/installers.ts:443-506 | the changed lines of an addition, on texts |
| PluginOthers.TextRemoveExactly | packages/cli/src/installers.ts:508-537 | and of a removal |
| PluginText.TextKeepsTheRest | packages/cli/src/installers.ts:443-506 | the first on texts, read back as lines |
| PluginText.RemovalTextKeepsTheRest | packages/cli/src/installers.ts:508-537 | the second on texts: the source itself when there is nothing to edit |
| PluginEditor.RemoveUndoesAdd | packages/cli/src/installers.ts:508-537 | a removal after an addition reports a change and leaves the plugin unlisted |
| PluginEditor.RemovalLeavesNone | packages/cli/src/installers.ts:390-403 | in a block-style list a removal leaves no occurrence and says whether there was one |
| PluginEditor.InlineRemoval | packages/cli/src/installers.ts:405-410 | from an inline list the plugin is gone exactly when no line below lists it and no entry of the source line has a value that is not the bare name and still names it past blanks, one quote and a comment |
| PluginEditor.RemovalMissesEntries | packages/cli/src/installers.ts:521-526 | a doubly quoted entry and one followed by a comment are such entries |

## Left out

Schemas

- Issue messages are rule names; regular expressions and `Date.parse` are uninterpreted predicates; NaN, infinities, array
  holes and prototype keys are not values of the model.
- String lengths count Dafny characters, which are Unicode scalar values, where JavaScript counts UTF-16 units; they differ
  for characters outside the basic plane.
- SchemaIssues.IssuesExactly: the order of the issues and how often one occurs are not stated.
- The registry is a map of parsed documents; reading the schema files is not modelled.

Canon and owner decisions

- GovernanceEngine.DecisionMeaning: which gate failed and with which code is not stated.
- OwnerOutcomes.DecisionLeaves: titles and paths of pages, the authority of claims and the time a rejected proposal was updated
  are not fields of the model.
- Visibility, provenance and identity fields of records, the failure diagnostics' text, and the projection refresh after an
  owner decision (packages/core/src/owner-decisions.ts:421-435) are not modelled; created and updated refs are those before it.
- Timestamps are integers, so timestamps that cannot be parsed and their textual comparison are not covered.
- CanonLifecycle.RunKeepsValid: assumes fresh canonical ids and steps one at a time, as the callers choose ids and order.
- OwnerDecisionStore.DecisionStore.PendingCurationPacket: leaves open which of several packets of one creation time is taken,
  because that is the order in which a directory is listed.
- OwnerDecisionJournal.CrashAtomicity: assumes that nobody else writes the decision's own records while its process is at
  work; while it is down they may. A reader can see part of the records before the recovery. Lost writes behind a completed `fsync` are not modelled.
- OwnerRuns.VerdictsAreUnique: is about serial decisions; decisions on different proposals or with different actions hold
  different locks. Of those that are under way at once, two actions on one proposal (`OwnerRetry.StalePlanDoublesVerdict`) and
  two ratifications (`OwnerCrossing.CrossedUniqueExactly`) are covered, with the records of one written after those of the other;
  files written alternately are not.
- OwnerCrossing.CrossedUniqueExactly: says nothing about the links that two crossed ratifications leave.
- OwnerCanon.RecordSurvivesExactly: tells records by the moment of their creation, so it is about records from earlier moments.
- OwnerDecisionJournal.RecoveryCompletesExactly: what the validator accepts is a parameter.
- OwnerWitnesses.SharedPartLosesVerdict: the id functions are those of the code on ASCII ids, the only ones a record may have.

Locks

- MkdirLock.MutualExclusion: the timeout may fire at any wait, which covers every timeout of the code; waiting times and
  progress are not modelled. The owner file inside the session lock and the holder file of the maturation lock are left out.
- MkdirLock.ExclusionExactly: is about continuations in which no time passes, from states in which a process is inside.
- AuditLog.ScanFindsEntries: JSON text is any one-line codec that reads back; a log edited by hand, without its last line end,
  is only covered as text that the append leaves alone or extends.

Session continuity

- The order of full ties among previous checkpoints, resume receipts, the receipt keys, and visibility and provenance fields.
- SessionPacks.DefaultPacksNeverClash: takes the digest as injective, so collisions of its 24 kept characters are excluded.
- The rules of `validateWorkingMemoryCheckpoint` on constant fields, which every created checkpoint meets.

Maturation

- Evidence selection, candidate diagnostics beyond the fields that proposals need, wiki and world records, evaluation episodes,
  the recovery journal of a maturation (a plain `writeFile`, so it can be torn), and the sorting and limit of the candidate
  report: a promotion may be given any list of slots.
- MaturationRuns.OwnerClaimsNeverReachCanon: summaries are those of the state a batch starts from, as the code compiles a batch
  before it takes the lock; a history changed in between is a foreign change.

Smaller cores

- WorkerPool.MapWithConcurrency: a mapper that rejects, which makes the whole call reject, is not modelled.
- ProjectionSelection.LatestIsTheBest: filters with an explicit null are not modelled, and the sort is any arrangement in which
  no later manifest comes before an earlier one.
- Recognition.ValidateProjectionManifest: without the schema check that precedes it, and the type checks that typed fields make
  unnecessary, such as those of the suppression reasons of a trace.
- Recognition.RecordsAreAccountedFor: nothing is said of a runtime instance that was read.
- Recognition.CompiledManifestIsValid: entries, hydration cards and rendering are left out; upstream refs are treated as a set.
- PluginText.TextIsSettled: white space is blank and tab, and a carriage return occurs only before a line feed.
- PluginOthers.AddEnablesExactly: about blocks with at most one enabled key, as YAML demands; of a block with more, only the
  lines outside it are covered. PluginOthers.RemoveKeepsOthers is also about names without blanks, quotes and comment signs, as
  one line can list a bare name and a quoted one; the lines that go in any case are those of `PluginLines.RemoveExactly`.
- The provider editor of the same file (packages/cli/src/installers.ts:539-572), the bounded directory scan
  (packages/core/src/memory-surface-audit.ts:364-387) and the ranking of recognition entries would only add easy members.

The command line, the generated plugin sources, the adapters and the git and package-manager calls are not part of this model.
