# Verified model of Accounted's migration scripts, ledger tools and chat stream

This project models the parts of Accounted whose comments promise a strong invariant, and proves those promises, or states exactly when they hold. Each part is a pair of things: a program in the source's own form (classes and loops where the source changes state, functions where it computes) proved against a specification, and laws about that specification over all inputs, runs and interleavings.

- `DocumentPaths`, `DocumentWorld`, `Backfill`, `BackfillRuns`: the document storage backfill. A `Run` holds the `document_attachments` table and the bucket, both changed in place. Every call to either store may be answered, may fail or throw before or after taking effect, and rows may vanish or fresh scoped rows appear between any two calls. The ghost history lists every world the run went through, so a crash is any element of it.
- `UndoLedger`, `UndoLaws`, `UndoRuns`, `YearEndUndo`: the administrative undo of a year-end closing. Six steps on a ledger, guarded by the database's triggers; any call may be rejected or lose its answer, and any number of attempts follow one another.
- `SkillQuoting`, `SkillSeed`: dollar quotes and string constants with PostgreSQL's lexers (sections 4.1.2.1 and 4.1.2.4 of its documentation), the versions of the seed generator, and the guarded upsert.
- `ChatStream`, `ChatLaws`, `ChatRenders`, `ChatBubbles`: the line splitter over the chunks of a response, whose events are handled one by one. A handler writes the refs at once and queues its update of the messages until React renders, which may be after any event. The laws are about the fold of the events in order, about when a turn shows it, and about what its bubble shows beside the text, which never depends on the rendering.
- `WorkerPool`: the bounded pools, as interleaved worker steps chosen arbitrarily.
- `Ordering`, `Grouping`, `RingSelection`, `RingLaws`, `WedgeLayout`: the account ring of the ledger graph and its angles, over reals.
- `Money`, `ParityDiff`: rounding on exact decimals (section 21.3.2.28 of ECMA-262), and the comparison of two trial balances.
- `Wrappers`: an option type.

Where a promise turned out to hold only under a condition, the code is modelled as it is and the condition is proved as an equivalence over all inputs; most have a concrete failing input beside it. The main such results:

- The key mapping's inverse is called exact in a comment; deriving and scoping again returns the key exactly when the derived key is not itself scoped for the company (`DocumentPaths.DeriveThenScope`).
- Removing a migrated source, or sweeping a leftover one, can take the last good bytes of a row that was scoped earlier with a broken copy. Removing one unreferenced object leaves every row a good copy exactly when no row depends on it (`DocumentWorld.RemovalKeepsCopiesExactlyWhen`). A complete deleting run, with or without `--company`, loses exactly the broken scoped rows whose legacy key every row at it leaves, or to which no row points while every selected scoped row on it passes, unless a selected row of the same company leaves the key too and its fresh copy repairs the row's own (`DocumentWorld.IsLost`, `BackfillRuns.DeletingRun`). So `--company` can delete what a run over all companies would have kept (`BackfillRuns.FilterLosesALastCopy`).
- A body that ends in its quote tag without the last dollar sign is cut short when PostgreSQL reads it back (`SkillQuoting.DollarQuoteRoundTrip`).
- An atom that is removed and added back starts again at version 1 and may never reach the registry; titles and descriptions never count as drift (`SkillSeed.ReaddedAtomIsIgnored`, `SkillSeed.DetailsNeverDrift`, `SkillSeed.ConvergesExactlyWhen`).
- A resumed year-end undo also reverses a second posted appropriation or opening balance that an uninterrupted one leaves (`UndoLaws.ResumesExactlyWhen`); it still verifies, with one storno for each reversed entry (`YearEndUndo.Ledger.UndoDespiteCrashes`).
- An undo whose lookups are not all answered can pass its own check with the new year's entries still posted. For every combination of answers it is proved when the check passes and when the same entries are reversed as with all of them (`UndoLaws.VerifiesExactlyWhen`, `UndoLaws.ReversesTheSameExactlyWhen`).
- The snapshot with which the server restarts a dead attempt is its own text, without the paragraph breaks that the client inserted. The dead attempt leaves no trace exactly when no break had been inserted in the turn, every chip was completed, and a break was due or cannot matter (`ChatLaws.RestartOfATurn`, `ChatLaws.RestartTakesOutABreak`).
- Text cut into deltas reads the same as in one delta, except when an empty first delta uses up a break that leading white space would have avoided (`ChatLaws.DeltasGlueExactlyWhen`).
- The update of a text reads and clears the paragraph break when React runs it, while a tool call's handler writes it at once. A turn shows the fold of its events throughout exactly when no text waits at an event that makes a break due; and it does so however React renders exactly when no text is followed by such an event (`ChatRenders.CalmExactlyWhen`, `ChatRenders.EveryRenderingAgreesExactlyWhen`). Two texts in one chunk with a tool call can read differently from the same lines in three (`ChatRenders.OneChunkBreaksTheText`).
- The ring is documented as deterministic in its input; which payees are shown, and where, depends on the input order exactly when two payees of a shown size tie (`RingLaws.PayeesAreCanonicalExactlyWhen`).
- The parity comparison is complete exactly when accounts are not repeated, among lists whose account numbers hold no comma (`ParityDiff.CompleteExactlyWhen`).

Assumptions on the backfill: one running instance; other writers only delete rows or insert rows at keys that hold nothing. Gate soundness, exact losses and convergence also assume a quiet table, and that user ids in legacy keys are never company ids (`DocumentWorld.Segregated`). Convergence starts from intact documents with stored hashes; its attempts may have any limits, filters and failing calls and may stop anywhere, and only the last run has to be complete. SHA-256 is an injective function. `reverseEntry` is one atomic operation with the effect its comments state.

Assumption on the year-end undo, which the script does not check: the closing entry that a period links to is one of that period's own year-end entries (`UndoLedger.OwnClosing`, part of `UndoLedger.Ready`).

## Model

| member | source | states |
|---|---|---|
| DocumentPaths.ScopeThenDerive | scripts/backfill-document-storage-paths.ts:233-257 | A key that scoping moves is scoped afterwards, and deriving its legacy key gives the original back. |
| DocumentPaths.DeriveThenScope | scripts/backfill-document-storage-paths.ts:247-257 | The derived key scopes back to the scoped key exactly when it is not scoped for that company already. |
| DocumentPaths.DeriveThenScopeFails | scripts/backfill-document-storage-paths.ts:247-257 | A concrete scoped key that deriving and scoping does not return. |
| DocumentPaths.ScopeIsUnique | scripts/backfill-document-storage-paths.ts:233-235 | A path is scoped to at most one company without a slash in its id. |
| DocumentPaths.ScopedPathsAreInjective | scripts/backfill-document-storage-paths.ts:241-245 | Two rows share a target key only when they share both the source key and the company. |
| DocumentWorld.NothingIsLostLater | scripts/backfill-document-storage-paths.ts:414-565 | In a history that keeps documents step by step, a document intact at any point serves the same bytes at every later one, as long as its row exists. |
| DocumentWorld.RelyKeepsDocuments | scripts/backfill-document-storage-paths.ts:353-368 | Row deletions and insertions of fresh scoped rows by others lose no document. |
| DocumentWorld.RepointKeepsDocuments | scripts/backfill-document-storage-paths.ts:507-527 | Repointing to a verified copy keeps every document. |
| DocumentWorld.RemovalKeepsDocuments | scripts/backfill-document-storage-paths.ts:370-401 | Removing an object that no live row references keeps every document. |
| DocumentWorld.RemovalKeepsCopiesExactlyWhen | scripts/backfill-document-storage-paths.ts:577-588 | Removing an unreferenced legacy object leaves every row some key with good bytes exactly when every row that the object could serve is served intact from its own key. |
| DocumentWorld.LostMeansStraggler | scripts/backfill-document-storage-paths.ts:557-562 | A row is lost only if it is broken and shares its legacy key with a selected row still to leave the key, or is not selected itself and shares it with a selected scoped row. |
| DocumentWorld.UnfilteredStragglers | scripts/backfill-document-storage-paths.ts:589-610 | Without a filter only a row still to leave the key can make a run lose another. |
| DocumentWorld.FinishedLeavesNothing | scripts/backfill-document-storage-paths.ts:867-871 | Once every selected row is scoped and its derived key is free, no row and no legacy object is left to count. |
| DocumentWorld.SameGoalSameAbandoned | scripts/backfill-document-storage-paths.ts:577-588 | Which legacy keys end up abandoned depends only on the goal, so it does not change during a run. |
| DocumentWorld.RestIsUnique | scripts/backfill-document-storage-paths.ts:450-467 | Two worlds at rest that were heading for one goal have the same rows and the same objects. |
| DocumentWorld.RestMeansScoped | scripts/backfill-document-storage-paths.ts:495-528 | At rest, a row of the layout is still unscoped exactly when other bytes sit at its target. |
| DocumentWorld.UploadKeepsGoal | scripts/backfill-document-storage-paths.ts:450-467 | Uploading a copy to a free target leaves the goal of the run as it was. |
| DocumentWorld.RepointKeepsGoal | scripts/backfill-document-storage-paths.ts:507-528 | Repointing a row leaves the goal as it was. |
| DocumentWorld.RemovalKeepsGoal | scripts/backfill-document-storage-paths.ts:557-562 | Removing an unreferenced legacy object leaves the goal of a deleting run as it was. |
| DocumentWorld.RollbackKeepsGoal | scripts/backfill-document-storage-paths.ts:530-553 | Rolling back an unused copy undoes its upload and leaves the goal as it was. |
| Grouping.GroupBy | scripts/backfill-document-storage-paths.ts:738-752 | Every keyed item is in the one group of its key, in input order, no group is empty, and the sizes add up to the items. |
| Backfill.Run.FetchAllDocuments | scripts/backfill-document-storage-paths.ts:308-340 | Paging ends; every returned row was read from the table, and on a quiet table the pages together are the whole listing. |
| Backfill.Run.Classify | scripts/backfill-document-storage-paths.ts:714-736 | The three lists hold, in order, exactly the rows that are scoped, to be moved, or outside the layout. |
| Backfill.ThoseMembers | scripts/backfill-document-storage-paths.ts:718-736 | Each row with a path is in the list of its placement and in no other, and with the pathless rows the lists add up to all rows. |
| Backfill.Run.Upload | scripts/backfill-document-storage-paths.ts:450-472 | An upload never overwrites an object, leaves the bytes it reports at its key, and keeps the history's invariant in each of its fates. |
| Backfill.Run.UpdatePath | scripts/backfill-document-storage-paths.ts:507-524 | Repoints at most the one row, to its verified target, and reports no matched row exactly when it vanished. |
| Backfill.Run.Remove | scripts/backfill-document-storage-paths.ts:395-400 | Removes only the object of a key no row references. |
| Backfill.Run.RemoveLegacySourceIfUnreferenced | scripts/backfill-document-storage-paths.ts:377-401 | Reports a removal only when the object is gone, and never touches another object. |
| Backfill.Run.CopyToCompanies | scripts/backfill-document-storage-paths.ts:440-491 | Leaves one verified target per company it could copy for, with the hash of the bytes that are really there, and one failure for each row of a company it could not. |
| Backfill.Run.RepointRows | scripts/backfill-document-storage-paths.ts:493-528 | Changes only the group's rows and no object; when it counts every row, each that still exists is repointed to an intact copy; on a quiet table with reliable calls exactly the rows whose copy has the expected hash are repointed, as many are counted as changed, and counting all of them means that none failed. |
| Backfill.Run.RollBackUnusedCopies | scripts/backfill-document-storage-paths.ts:530-553 | Changes no row and removes no object but targets of the group's own copies, on a quiet table only ones that were not there at the start; when no call fails every fresh copy that no row was repointed to is gone unless a row points at it; where every document is intact and every call succeeds nothing is rolled back. |
| Backfill.Run.MigrateGroup | scripts/backfill-document-storage-paths.ts:414-565 | Every row is migrated or reported as failed exactly once; a group with no failed row is rehomed row by row; the source is reported removed only when it is; every step keeps every document; on a quiet table with reliable calls exactly the rows that pass the hash check move and are counted, the source goes exactly when deleting, with no failed row, and unreferenced, is reported removed exactly then, and every new object is one that a row points at. |
| Backfill.Run.SweepLegacyObjects | scripts/backfill-document-storage-paths.ts:589-699 | On a quiet table, when as many objects were removed as were found, no swept key names an object any more, and an object went only after every scoped row on its key was verified; a sweep with reliable calls that has not spent its limit removes exactly the unreferenced objects to which some scoped row maps and whose rows all pass; removals stay within the limit, and without the flag nothing changes. When no call fails, what was found less what was removed is the number of swept keys that still name an object, and none left means no failure. |
| Backfill.Run.SelectBatch | scripts/backfill-document-storage-paths.ts:770-779 | The batch is a prefix of whole groups, never splits one, and stops only once the limit is reached. |
| Backfill.Run.GateIsSound | scripts/backfill-document-storage-paths.ts:845-871 | Given what the counters of the migration and the sweep stand for, all rows migrated, no source kept and no leftover unremoved mean that every selected row is scoped and its derived key is free. |
| Backfill.Run.RowsLeft | scripts/backfill-document-storage-paths.ts:845-845 | On a quiet table the candidates less the rows that changed are the selected rows that still have to be moved. |
| Backfill.Run.ObjectsLeft | scripts/backfill-document-storage-paths.ts:846-847 | The keys of groups moved as a whole whose object is still there, and the swept keys that still name one, are the derived legacy keys of selected scoped rows that still name an object, a key that the run set out to handle counting only once every row has left it. |
| Backfill.Run.ReportIsExact | scripts/backfill-document-storage-paths.ts:845-871 | On a quiet table with reliable calls the report counts the rows changed, the objects removed, the rows left and the legacy objects left in the world that the run leaves, and the gate opens exactly when the migration is finished. |
| Backfill.Run.LossIsExact | scripts/backfill-document-storage-paths.ts:797-843 | Given vacated groups and what the sweep took, a row that had good bytes still has some exactly when it was not lost from the start. |
| Backfill.Run.KeyGoesExactlyWhen | scripts/backfill-document-storage-paths.ts:797-843 | A complete deleting run removes the legacy object of a scoped row exactly when its group vacates the key or the sweep of the selected rows passes, both judged on the world at the start. |
| Backfill.Run.RestIsReached | scripts/backfill-document-storage-paths.ts:797-843 | Given groups in their final place and a sweep that left only referenced keys, nothing is left to migrate and no abandoned object is left. |
| Backfill.Run.Execute | scripts/backfill-document-storage-paths.ts:705-871 | A whole run in any mode: dry runs change nothing; on a quiet table an open gate means that the migration of the selected rows is finished, and when no call fails the gate opens exactly then and each counter is what the end world holds; a complete deleting run with any filter loses exactly the lost rows, and a complete run over intact documents ends at rest. |
| BackfillRuns.AnyRun | scripts/backfill-document-storage-paths.ts:705-871 | With any flags, failures and other writers no step loses a document; on a quiet table every row keeps a good copy unless the run deletes while its filter exposes a broken straggler, an open gate means the migration of the selected rows is finished, and over intact documents every world of the run heads for one goal. When no call fails, dry or not, the gate opens exactly when the migration is finished, the counters are the rows changed, the objects removed, the selected rows left and the legacy objects left, and every new object is one that a row points at. |
| BackfillRuns.DeletingRun | scripts/backfill-document-storage-paths.ts:353-359 | A complete deleting run, for one company or for all, destroys the last good bytes of exactly the lost rows, so of none where its filter exposes no broken straggler. |
| BackfillRuns.StragglerLosesItsLastCopy | scripts/backfill-document-storage-paths.ts:557-562 | A run over two rows that share a legacy object, one scoped with a missing copy, leaves that one no good bytes. |
| BackfillRuns.FilterLosesALastCopy | scripts/backfill-document-storage-paths.ts:612-685 | A run for one company sweeps the only good bytes of another company's row, which a run for all companies keeps. |
| BackfillRuns.CrashConvergence | scripts/backfill-document-storage-paths.ts:111-116 | Any number of attempts with any limits, filters and failing calls, each crashing anywhere, followed by a complete one, leave the rows and objects of one uninterrupted run. |
| BackfillRuns.RunAgainToContinue | scripts/backfill-document-storage-paths.ts:111-116 | Running again after runs with any limits, filters and failing calls ends, once a run is complete, where that run alone would have ended. |
| BackfillRuns.RerunChangesNothing | scripts/backfill-document-storage-paths.ts:111-116 | A run after a complete run changes nothing. |
| BackfillRuns.TwoStepWorkflow | scripts/backfill-document-storage-paths.ts:95-105 | An apply run followed by a deleting run ends like one direct deleting run. |
| UndoLedger.StageShape | scripts/undo-year-end-closing.ts:300-356 | After k steps exactly the planned entries are reversed, each followed by one mirrored storno, no other entry is edited or removed, and each period has just the changes of those steps. |
| UndoLedger.LastAppropriation | scripts/undo-year-end-closing.ts:234-251 | The scan is left with the last posted appropriation of the next period, or with none if there is none. |
| UndoLedger.LastOpening | scripts/undo-year-end-closing.ts:236-243 | The scan is left with the last posted opening balance that matches the link, or with none. |
| UndoLaws.NextPeriodIsNext | scripts/undo-year-end-closing.ts:192-214 | The next period is the only one whose link names this one, if just one does, and otherwise the only one that starts the day after this one ends; said of the periods themselves, for every combination of answered lookups. |
| UndoLaws.PlanReadMeans | scripts/undo-year-end-closing.ts:181-251 | What an attempt plans, said of the books themselves: the next period, its last posted appropriation, the posted opening balance that the link names or else the last, whether to reopen and whether to reverse the closing entry. |
| UndoLaws.ReversesWhatIsDue | scripts/undo-year-end-closing.ts:192-251 | An uninterrupted attempt whose lookups are all answered reverses exactly the posted closing entry, the last appropriation and the matching opening balance of the next period. |
| UndoLaws.ResumedPlan | scripts/undo-year-end-closing.ts:30-34 | An attempt that starts after k steps of another is let in and reads the same plan less what is done. |
| UndoLaws.ResumesWhenOneOfEach | scripts/undo-year-end-closing.ts:30-34 | A resumed attempt goes through the very books of the first one. |
| UndoLaws.ResumesExactlyWhen | scripts/undo-year-end-closing.ts:30-34 | Resuming retraces the uninterrupted undo from every point exactly when no second posted appropriation or opening balance stands beside the one found. |
| UndoLaws.RefusedOnceDetached | scripts/undo-year-end-closing.ts:146 | After the detach every further attempt is refused. |
| UndoLaws.LetThroughExactlyWhen | scripts/undo-year-end-closing.ts:21-25 | Every reversal meets an open, unlocked period and a posted entry, and the detach a reversed one, exactly when the closing entry is posted or is reversed by a posted storno. |
| UndoLaws.GuardsExactlyWhen | scripts/undo-year-end-closing.ts:21-25 | An entry may be reversed exactly when it is posted, no storno, and in an open and unlocked period; a closing entry may be detached exactly when it is reversed and a posted storno names it. |
| UndoLaws.VerifiesExactlyWhen | scripts/undo-year-end-closing.ts:421-427 | Whatever lookups were answered, the final check passes exactly when no next period was found, or the opening link of the one found was sound, or was already gone if its entries could not be read. |
| UndoLaws.ReversesTheSameExactlyWhen | scripts/undo-year-end-closing.ts:197-251 | An attempt plans the reversals it would with every lookup answered exactly when it reads the same next period's entries, or neither period holds anything to reverse. |
| UndoLaws.UnansweredLookupsPassTheCheck | scripts/undo-year-end-closing.ts:197-215 | With the lookups of the next period unanswered the check passes, the new year's entries stay posted, and re-runs are refused. |
| UndoLaws.OneStornoEach | scripts/undo-year-end-closing.ts:300-346 | Each entry reversed, in however many attempts, ends with exactly one posted storno if it had none before. |
| UndoLaws.BalanceAfterReversal | lib/reconciliation/gl-balance.ts:20 | Reversing a posted entry takes exactly its amounts out of the balances over posted and reversed entries. |
| UndoLaws.BalancesWithoutTheReversed | scripts/undo-year-end-closing.ts:300-346 | After any reversals, in however many attempts, every balance of every period is what it would be had the reversed entries never been booked. |
| UndoRuns.ExtendsCompose | scripts/undo-year-end-closing.ts:30-34 | What one attempt reversed and what a later one reversed add up: every entry once, each with its own storno, all others untouched. |
| UndoRuns.OneMoreAttempt | scripts/undo-year-end-closing.ts:30-34 | An attempt on books that stopped attempts left, on any books that can be undone, leaves books to resume if it is stopped and a complete undo if it is not. |
| UndoRuns.UndoneMeans | scripts/undo-year-end-closing.ts:300-346 | A complete undo, after however many attempts, has one storno for each reversed entry and balances as if those had never been booked. |
| UndoRuns.UndoneReversesWhatIsDue | scripts/undo-year-end-closing.ts:192-251 | A complete undo, after however many attempts, has reversed everything that was due when it began, with the next period found by link before date, and nothing of another kind; the period is open without its closing entry and the next one has no opening balance. |
| UndoRuns.AnyAttemptReverses | scripts/undo-year-end-closing.ts:197-251 | Whatever its lookups answered and wherever it stopped, an attempt reverses only posted entries that no earlier one did. |
| YearEndUndo.Ledger.ReverseEntry | scripts/undo-year-end-closing.ts:301-312 | Rejected exactly when the entry is not a posted non-storno in an open period; otherwise applied, or lost with or without effect. |
| YearEndUndo.Ledger.DetachClosing | scripts/undo-year-end-closing.ts:350-356 | Rejected exactly when the closing entry is not reversed by a posted storno. |
| YearEndUndo.Ledger.ScanNext | scripts/undo-year-end-closing.ts:234-251 | The loop over the next period's entries finds the last appropriation and the last matching opening balance. |
| YearEndUndo.Ledger.Prepare | scripts/undo-year-end-closing.ts:136-282 | Refuses exactly on the listed preconditions; otherwise yields the plan, whose next period is the only one chained to this one or else the only one that starts the day after, and changes nothing. |
| YearEndUndo.LetInExactlyWhen | scripts/undo-year-end-closing.ts:136-231 | An attempt is let in exactly when the period has a posted or reversed closing entry, nothing was submitted or sent for signature, no lock date covers its end, someone can be named, and the next period, if there is one, is open, unlocked and not closed itself. |
| YearEndUndo.Ledger.Execute | scripts/undo-year-end-closing.ts:299-356 | Wherever it stops, the books are at a stage of the plan; a rejection means the next step really was forbidden. |
| YearEndUndo.Ledger.WriteAudit | scripts/undo-year-end-closing.ts:380-397 | Tries at most three times and stops at the first success, exactly when it reports one; a row is written for each try that took effect. |
| YearEndUndo.Ledger.Attempt | scripts/undo-year-end-closing.ts:133-440 | One run, stopped anywhere: its outcome, the exact books it leaves, when its own check passes, and its audit rows, which name the user given, else the owner, else a member. |
| YearEndUndo.Ledger.UndoDespiteCrashes | scripts/undo-year-end-closing.ts:30-34 | On any books with a sound opening link and a closing entry that is posted or has its storno, over any number of attempts: no call is ever rejected, no answered check fails, an attempt that is not stopped leaves a complete undo that verifies and reversed all that was due, the next period being the one chained to this one or else the one that starts the day after, with one storno for each reversed entry and balances as if it had not been booked, and one attempt at most writes audit rows. With one entry of each kind the books stay on the stages of the one uninterrupted undo. |
| YearEndUndo.Ledger.AnyAttempts | scripts/undo-year-end-closing.ts:197-346 | Over any attempts whose lookups may each answer differently, every reversed entry has one storno, no other entry changed, and balances are as if the reversed ones had not been booked. |
| SkillQuoting.TagsFormAPrefixCode | scripts/generate-skill-bodies.ts:67-73 | Two different candidate tags never start at one place of a string. |
| SkillQuoting.AtMostLengthManyOccur | scripts/generate-skill-bodies.ts:67-73 | At most as many of the first tags occur in a string as it has characters. |
| SkillQuoting.FreeTag | scripts/generate-skill-bodies.ts:67-73 | The tag used does not occur in the string, and all earlier ones do. |
| SkillQuoting.DollarQuote | scripts/generate-skill-bodies.ts:67-75 | The loop ends on every string and wraps it in its first free tag. |
| SkillQuoting.DollarRoundTrip | scripts/generate-skill-bodies.ts:67-75 | Reading the quote back gives the string and the rest exactly when the string does not end in its tag without the last dollar sign. |
| SkillQuoting.DollarQuoteRoundTrip | scripts/generate-skill-bodies.ts:66-75 | The same for the tag the generator picks. |
| SkillQuoting.DollarQuoteCutsABody | scripts/generate-skill-bodies.ts:66-75 | The body x$gb is read back as x. |
| SkillQuoting.SqlStrRoundTrip | scripts/generate-skill-bodies.ts:77-80 | Every string survives its string constant. |
| SkillSeed.HashesOnDisk | scripts/generate-skill-bodies.ts:192 | Maps each id on disk to the hash of its body. |
| SkillSeed.Drift | scripts/generate-skill-bodies.ts:194-203 | Lists exactly the new ids and the ids whose hash moved. |
| SkillSeed.CurrentExactlyWhen | scripts/generate-skill-bodies.ts:192-203 | There is no drift exactly when the manifest lists the ids on disk and no others, each with the hash of the last atom that has it. |
| SkillSeed.EmittedRows | scripts/generate-skill-bodies.ts:102-118 | Every row of a seed has the details, the body and the version of the last atom with its id, and the manifest entry beside it the same version and the hash of that body. |
| SkillSeed.NewVersions | scripts/generate-skill-bodies.ts:223-232 | The rows to emit and the manifest to commit: one for each id on disk and no other, with the details and the body of the last atom that has it, and version 1 if it is new, its old version if its hash is the same, and one more otherwise. |
| SkillSeed.Generate | scripts/generate-skill-bodies.ts:160-245 | A run emits exactly when an atom was added, changed or removed, and then the row of the last atom of each id; a check run only reports the drift and commits nothing. |
| SkillSeed.VersionsIdentifyBodies | scripts/generate-skill-bodies.ts:223-232 | While an atom stays, its version never goes down and the same version means the same body. |
| SkillSeed.LatestVersionWasEmitted | scripts/generate-skill-bodies.ts:218-239 | The version the manifest records was emitted by some run, with the body of its hash. |
| SkillSeed.GuardKeepsTheMaximum | scripts/generate-skill-bodies.ts:141-154 | Over any sequence of applications the registry keeps a row of the highest version seen, and never goes back. |
| SkillSeed.EveryOrderConverges | scripts/generate-skill-bodies.ts:128-154 | For an atom never removed and added back, applying the emitted seeds in any order, with repeats, leaves its latest body and version, on any registry not ahead of them, with the details that some run of that version found beside the body. |
| SkillSeed.ConvergesExactlyWhen | scripts/generate-skill-bodies.ts:128-154 | Every order ends in a row with a property exactly when every emitted row of the highest version has it. |
| SkillSeed.ReaddedAtomIsIgnored | scripts/generate-skill-bodies.ts:223-232 | A history in which a re-added atom's new body never reaches the registry, even in order. |
| SkillSeed.DetailsNeverDrift | scripts/generate-skill-bodies.ts:192-203 | Changes to anything but ids and bodies emit nothing. |
| SkillSeed.SeedsCommuteExactlyWhen | scripts/generate-skill-bodies.ts:130-132 | Two seeds leave the same row in either order unless they carry one version with different contents that the registry is not ahead of. |
| SkillSeed.BranchesAgreeExactlyWhen | scripts/generate-skill-bodies.ts:130-132 | Two branches from one manifest end in one body in either order exactly when their bodies agree or just one of them changed it. |
| ChatStream.LinesAreUnique | components/agent/AgentChat.tsx:478-482 | There is one way to cut a text into newline-ended lines and a rest without a newline. |
| ChatStream.LinesCutTheText | components/agent/AgentChat.tsx:478-482 | The cut used by the reader is that one. |
| ChatStream.LinesGrow | components/agent/AgentChat.tsx:477-482 | A further chunk completes the open line and adds its own lines. |
| ChatStream.TrimIsExact | components/agent/AgentChat.tsx:480 | Trimming a line takes the white space off both its ends and nothing else. |
| ChatStream.Turn.HandleEvent | components/agent/AgentChat.tsx:625-790 | An event's handler changes the refs and notices at once and queues its update of the messages; what the updates come to is said by `ChatBubbles.EveryRenderingShowsTheWork`. |
| ChatStream.Turn.Render | components/agent/AgentChat.tsx:680-694 | React runs the queued updates in order, each finding the break as the one before left it. |
| ChatStream.Turn.Dispatch | components/agent/AgentChat.tsx:494-506 | A parsed line notes a terminal event, queues the bubble for a visible one, and is handled; React may render after it. |
| ChatStream.Turn.DrainLines | components/agent/AgentChat.tsx:478-507 | Handles the events of exactly the complete lines of the buffer, in order, and keeps the open line. |
| ChatStream.Turn.ReadStream | components/agent/AgentChat.tsx:465-528 | Handles exactly the newline-ended, non-blank, parseable lines of the concatenated chunks, and reports a cut-off turn exactly when no terminal event came and the user did not abort. |
| ChatRenders.ChunkingInvariance | components/agent/AgentChat.tsx:465-508 | Two ways of cutting one response into chunks handle the same events, whenever React renders; two calm turns end in the same state, the fold of those events, and so do any two when no text is followed by a tool call or a restart. |
| ChatRenders.HandledIsStepExactlyWhen | components/agent/AgentChat.tsx:670-712 | What is shown once the queue has run moves on by one step of the fold exactly when no queued text finds a break that this event makes due. |
| ChatRenders.CalmExactlyWhen | components/agent/AgentChat.tsx:670-712 | A turn shows the fold of its events at every point exactly when no text waits at an event that makes a break due. |
| ChatRenders.EveryRenderingAgreesExactlyWhen | components/agent/AgentChat.tsx:670-712 | What is shown is the fold however React renders exactly when no text is followed by a tool call or a restart with text. |
| ChatRenders.OneChunkBreaksTheText | components/agent/AgentChat.tsx:680-698 | Two texts and a tool call in one chunk, of which the second text uses up the break meant for the text after the tool. |
| ChatBubbles.ResultCompletes | components/agent/AgentChat.tsx:718-725 | A tool result keeps the number, ids and names of the chips and completes exactly those with its id. |
| ChatBubbles.TurnShowsTheWork | components/agent/AgentChat.tsx:637-776 | After a whole turn the bubble's chips are, in order, the tool uses whose place no memory took and that had a result before every later restart, each completed exactly when a result of its id came after its use; its reasoning is what came since the last restart, and its staged operations and memories are all that came. |
| ChatBubbles.EveryRenderingShowsTheWork | components/agent/AgentChat.tsx:637-776 | The same whenever React renders: earlier messages stay, the bubble is there exactly when a visible event came, and chips, reasoning, staged operations and memories are those of the list of events. |
| ChatBubbles.TurnIsNoted | components/agent/AgentChat.tsx:625-790 | A turn has seen a terminal event exactly when one came; the error, the conversation id and the notice of a retry are those of the last event that sets them. |
| ChatBubbles.EveryTurnEndsNoted | components/agent/AgentChat.tsx:509-519 | The same whenever React renders; a reader that failed shows its error, and a stream that closed without a terminal event shows that the connection was lost, each unless the user stopped the turn. |
| ChatLaws.TurnFrame | components/agent/AgentChat.tsx:454-463 | A turn leaves every earlier message alone and adds one assistant bubble, exactly when a visible event came. |
| ChatLaws.DeltaRefinement | components/agent/AgentChat.tsx:670-695 | Text cut into deltas, the first non-empty, has the effect of one delta, so a paragraph break is inserted at most once. |
| ChatLaws.DeltasGlueExactlyWhen | components/agent/AgentChat.tsx:670-695 | Deltas have the effect of their text in one delta exactly when the first is not empty, no break can be inserted, or the text does not start with white space. |
| ChatLaws.EmptyDeltaBreaksTheText | components/agent/AgentChat.tsx:670-695 | An empty first delta that uses up the break and changes the text. |
| ChatLaws.RestartSimulation | components/agent/AgentChat.tsx:647-669 | After a restart from any snapshot the dead attempt has never happened, for every continuation, exactly when every chip was completed, the snapshot is the text then shown, and a break was due or cannot matter. |
| ChatLaws.ShownAgainstRaw | components/agent/AgentChat.tsx:670-695 | The text shown is the server's own, two characters longer for every break inserted, and the same when there was none. |
| ChatLaws.RestartOfATurn | lib/agent/chat/run-turn.ts:365-441 | With the snapshot the server sends, its raw text of the turn, the dead attempt has never happened exactly when no delta of the turn was opened by a break, every chip was completed, and a break was due or cannot matter. |
| ChatLaws.RestartTakesOutABreak | lib/agent/chat/run-turn.ts:365-441 | A turn of two tool rounds whose restart takes out the break between its paragraphs. |
| ChatLaws.RestartAtTurnStart | components/agent/AgentChat.tsx:647-669 | An attempt that dies before anything was shown leaves no more than the empty bubble. |
| ChatLaws.MountingFirstChangesNothing | components/agent/AgentChat.tsx:454-463 | Mounting the bubble lazily or at the first visible event gives the same messages. |
| WorkerPool.MapWithConcurrency | lib/concurrency.ts:14-33 | Under every interleaving the pool starts as many workers as the limit and the items allow, ends, claims every index once and in order, has at most one call in flight for each worker, resolves exactly when every call does, and returns each result at its own index. |
| WorkerPool.CheckAllPeriods | scripts/parity-trial-balance-rpc.ts:381-389 | Every period is checked exactly once and the cursor ends at the number of periods, unless a check throws. |
| WorkerPool.ClaimStep | lib/concurrency.ts:26-28 | A claim gives the next index to one worker and keeps all other claims. |
| Ordering.NonIncreasingIsUnique | components/agent-knowledge/ledger-graph-magnitude.ts:152 | Numbers have one non-increasing arrangement. |
| Ordering.SortedIsInOrder | components/agent-knowledge/ledger-graph-magnitude.ts:157 | The stable sort leaves nothing before something it should follow. |
| Ordering.SortedIsStable | components/agent-knowledge/ledger-graph-magnitude.ts:157 | Elements of which neither has to come first keep their order. |
| Ordering.BeforeExactlyWhen | components/agent-knowledge/ledger-graph-magnitude.ts:157 | One account number comes before another exactly when they agree up to a place where the first has ended or has the smaller character. |
| RingSelection.SelectAccountRing | components/agent-knowledge/ledger-graph-magnitude.ts:124-175 | The ring is measured in one unit, kronor exactly when every account has some; the shown accounts are as many as fit, ascending, none outranked by a dropped one; each weight sums the positive amounts, or else the positive numbers of bookings, of all of its account's entities, and each wedge shows the largest of them; truncation, total and maximum are as documented. |
| RingSelection.SelectionIsMeasured | components/agent-knowledge/ledger-graph-magnitude.ts:100-175 | The unit, the accounts shown, their weights, the payees shown, the truncation and the maximum, all said of the entities' accounts, amounts and numbers of bookings. |
| RingLaws.TopIsUnique | components/agent-knowledge/ledger-graph-magnitude.ts:156-167 | There is one way to show the top accounts. |
| RingLaws.PermutationInvariance | components/agent-knowledge/ledger-graph-magnitude.ts:118-123 | Unit, accounts, weights, node sizes, truncation, total and maximum do not depend on the order of the entities. |
| RingLaws.AmountsIgnoreBookings | components/agent-knowledge/ledger-graph-magnitude.ts:139-148 | A ring measured in kronor has the same accounts, weights and total however often its entities were booked. |
| RingLaws.ATieShowsTwoWays | components/agent-knowledge/ledger-graph-magnitude.ts:121-122 | A tie among the shown payees of an account shows differently for two arrangements of the same entities. |
| RingLaws.PayeesAreCanonicalExactlyWhen | components/agent-knowledge/ledger-graph-magnitude.ts:121-122 | Which payees are shown, in which order, is independent of the input order exactly when no two different payees of a shown size tie. |
| WedgeLayout.CenterOutIsAPermutation | components/agent-knowledge/LedgerGraph.tsx:143-149 | Every slot is given to one rank, and lower ranks never sit further in than higher ones. |
| WedgeLayout.LeftBeforeRight | components/agent-knowledge/LedgerGraph.tsx:143-149 | Of two slots equally far out the left one goes to the higher rank. |
| WedgeLayout.PlacePayees | components/agent-knowledge/LedgerGraph.tsx:197-226 | The loop places each payee at its angle. |
| WedgeLayout.BuildModel | components/agent-knowledge/LedgerGraph.tsx:151-228 | The running angle yields, for each of at most nine shown accounts, its wedge and the at most six payees in it. |
| WedgeLayout.WedgesAreApart | components/agent-knowledge/LedgerGraph.tsx:180-227 | Each wedge ends at least a gap before any later one starts, and exactly a gap before the next. |
| WedgeLayout.WedgesFillTheTurn | components/agent-knowledge/LedgerGraph.tsx:180-227 | Wedges and gaps fill exactly one turn, so the last is a gap from the first, exactly when a shown account has weight; the seam between them is at the top. |
| WedgeLayout.WidthsAreProportional | components/agent-knowledge/LedgerGraph.tsx:183 | Wedges are as wide as their accounts weigh, all in one proportion. |
| WedgeLayout.ArcLiesInItsWedge | components/agent-knowledge/LedgerGraph.tsx:184-193 | An account's node is in the middle of its wedge, and its arc covers the wedge but for a twenty-fifth on either side. |
| WedgeLayout.EveryPayeeIsPlaced | components/agent-knowledge/LedgerGraph.tsx:200-226 | The payees laid out are exactly the items of the shown groups, each in its own wedge. |
| WedgeLayout.PayeesStayInside | components/agent-knowledge/LedgerGraph.tsx:198-203 | Every payee angle lies inside its own account's wedge, 0.16 of its width or more from either side. |
| WedgeLayout.PayeesAreSpreadEvenly | components/agent-knowledge/LedgerGraph.tsx:198-203 | Several payees share the inner 0.68 of their wedge in equal steps, slot by slot from the left. |
| WedgeLayout.PayeesAreApart | components/agent-knowledge/LedgerGraph.tsx:198-203 | No two payees share an angle, provided a wedge that holds both has weight. |
| WedgeLayout.LargestIsCentredExactlyWhen | components/agent-knowledge/LedgerGraph.tsx:143-149 | The largest payee sits at the centre of its wedge exactly when the wedge shows an odd number of payees. |
| Money.ShiftIsExact | lib/money.ts:35-38 | Editing the exponent multiplies the value by exactly that power of ten and can be undone. |
| Money.RoundsToExactlyWhen | lib/money.ts:70-73 | An amount rounds to k öre exactly on the half-open öre around k. |
| Money.WithinHalfAnOre | lib/money.ts:70-73 | Rounding is off by at most half an öre. |
| Money.RoundOreIsIdempotent | lib/money.ts:70-73 | Rounding a rounded amount changes nothing. |
| Money.RoundOreIsMonotone | lib/money.ts:70-73 | Rounding keeps the order of amounts. |
| Money.SignFlipExactlyWhen | lib/money.ts:59-64 | An amount and its negation round to opposite values, except at exact halves, where an öre remains. |
| Money.TruncatesToExactlyWhen | lib/money.ts:91-94 | The exact half-open range of amounts that truncate to k kronor, for positive, zero and negative k. |
| Money.DriftKeepsTheKrona | lib/money.ts:85-90 | Drift in [k-0.005, k+0.005) neither loses nor gains a krona. |
| Money.SumOreAgainstRoundedAddends | lib/money.ts:148-156 | Rounding once differs from rounding each of n addends by at most n + 1 half öre. |
| Money.EqualOreExactlyWhen | lib/money.ts:132-138 | Amounts are equal exactly up to half an öre of difference, the half included; they then round at most one öre apart, and amounts a whole öre apart are never equal. |
| Money.EqualOreOnRounded | lib/money.ts:132-138 | On rounded amounts the tolerance is equality. |
| ParityDiff.DiffAccount | scripts/parity-trial-balance-rpc.ts:177-196 | Reports exactly the differences of one account; a difference of amounts names the column in which the rows differ. |
| ParityDiff.DiffRows | scripts/parity-trial-balance-rpc.ts:172-202 | Reports exactly the differences there are, the order only when all else agrees, and nothing exactly when the kept rows and the joined orders agree. |
| ParityDiff.JoinIsInjective | scripts/parity-trial-balance-rpc.ts:197-200 | Joining comma-free parts loses nothing. |
| ParityDiff.SoundAndComplete | scripts/parity-trial-balance-rpc.ts:172-202 | For unique, comma-free accounts nothing is reported exactly when the lists are equal in order, labels and all six amounts. |
| ParityDiff.RepeatedAccountHidesADifference | scripts/parity-trial-balance-rpc.ts:174 | For every list with a repeated account there is another list that goes undetected. |
| ParityDiff.CompleteExactlyWhen | scripts/parity-trial-balance-rpc.ts:172-202 | Among comma-free lists, a list is told apart from every other exactly when no account is repeated in it. |

## Left out

- Backfill: confirmation prompt, console output and flag parsing; `objectExists` answers for the whole folder, though the storage listing returns at most one page of entries.
- Backfill: two instances at once, edits of `storage_path` to legacy keys and removals of objects by others, which the script does not claim to handle.
- BackfillRuns.CrashConvergence: assumes every document starts intact with a stored hash and no other writers, and does not bound how many attempts are needed when calls keep failing.
- BackfillRuns.DeletingRun: is about unlimited runs in which no call fails; for deleting runs with a limit or failing calls `BackfillRuns.AnyRun` gives the condition under which nothing is lost.
- Year-end undo: the inside of `reverseEntry` (voucher numbers, transaction links, chain depth, its own partial failures) and of `write_audit_log`; stornos take the next number in voucher order.
- Year-end undo: the lookups of submissions, signature requests, settings and members appear as what they answered; an unanswered one reads as nothing found, as in the script.
- Year-end undo: an attempt that dies between the detach and the audit row leaves no row, and no later attempt is let in to write it; the model shows this as zero rows written.
- Skill seeds: discovery of atoms, the dangling link check, `sqlTextArray`, migration file names and timestamps (easy members), and a lost or unreadable manifest file, which starts a new history.
- SkillSeed.Generate: two atoms with one id are kept as the last of them; the emitted statement would list the id twice, which PostgreSQL rejects.
- SkillSeed.EveryOrderConverges: is about one linear history of runs; `SkillSeed.BranchesAgreeExactlyWhen` covers two branches.
- Chat: character decoding and JSON parsing (an arbitrary partial parse function), `attachStagedOperations`, `announceableAnswer`, stop and regenerate. React runs each queued update once and in order; a second run of an update, as in its strict mode, is not modelled. Notices change when they are set.
- ChatLaws.RestartOfATurn: like the other laws of `ChatLaws` it is about the fold; `ChatRenders.CalmExactlyWhen` says which turns show it.
- WorkerPool.MapWithConcurrency: stops the model at the first rejection; calls already in flight go on in the source without being awaited.
- Parity script: loading periods, dimensions, retries and the trial balances themselves.
- Ring: negative values of `maxAccounts` and `maxPerAccount`, which no caller passes; account numbers compare as text, without locale rules.
- Layout: radii, positions, colours, labels and animation; a turn is any real above 6, of which two pi is one.
- Money: NaN, infinities, negative zero, and the rounding of binary doubles in additions.
- Pages, loading components, analytics, registry text and type declarations: plumbing without invariants of their own.
