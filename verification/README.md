# Causet, modelled

Causet rewrites, exchanges and proves Git history without losing track of which
change is which. This project models the parts of it where that is hard to keep,
and proves what they promise. Git itself is abstract: commits are immutable values,
trees are ids, a three-way merge is a deterministic function that either gives a
tree or conflicted paths, and a ref transaction happens whole or not at all.

**The rewrite engine.** `RebaseTopology` turns a range of history into a program;
`RebaseInteractive` and `RebaseMessages` add the declared actions and the messages
they commit. `RebaseFold` says what a program means: a fold of its steps over the
mapping from commits to their replacements. `RebaseOperations` is the journaled
machine with its pauses, and `Forecasts` the two simulators; all three are proved
against the fold, so what holds of it holds of each, and a forecast and the run it
approves agree step by step. `RebaseMeaning` says what a step does in terms of the
merges, candidates and answers alone, and `InteractiveMeaning` what a declaration
turns into. `RebasePublication` is the end: what is checked before
anything is published, in what order it is, and what abort undoes; `PublicationMeaning`
what is on disk afterwards, record by record.
`RebaseAftermath` ties that end to the runs of the fold and to the machine's states:
what a killed process leaves, and when an abort is refused.

**Publishing notes.** `NotesProtocol` is every interleaving of writers over one
notes ref, under a lock that does not always exclude. `NoteTrees`, `NoteRecords`
and `GitCarriers` are what a publication is made of: the fanned-out tree, the
container and its merge, the commits that keep objects alive. `NotesMeaning` says what
the operations do to the notes themselves, and `NotesProgress` that a writer can always
finish.

**Exchange.** `MetadataTransfer`, `Exchange`, `Quarantine`, `Dispositions` and
`DispositionRegistry` cover importing, parking and deciding, one operation and then
whole runs of them; `ExchangeMeaning` tells an import record by record.

**Coverage and proof.** `MergePlan`, `Landings` and `Reconciliation` cover what a
plan concludes and the receipts that close it; `ProofBinding`, `ReceiptInclusion`,
`CommitPaths`, `ProofBundle` and `ProofRoundTrip` the verifier, what its verdict
means, and the producer it accepts. `IdentityAudit` is the union-find behind collision reports and
`GitSession` the stream parser behind every object read.

Where the code does not do what its comments promise, the code is modelled as it is,
a lemma gives an input on which the promise fails, and another says exactly when it
holds:

- A survivor whose own pick conflicts is recorded without what was declared into it
  (`src/rebase-operations.js:562` and `:1710`), and the receipt still claims that work
  (`ClaimOfAbsorbedWorkHoldsIff`, `ReceiptCanClaimLostWork`).
- A refused `--continue --fork` is not without effect: the step stays a fork, whatever
  decision follows (`SettledPickIsForkIffAsked`, `RefusedForkStays`).
- An abort releases the anchors its journal names; a process killed between naming a
  commit and writing the journal leaves one (`KilledBetweenLeaksIff`).
- The clean check of abort is meant for the user's edits, and refuses some dirt the
  operation made (`UntouchedAbortIsRefusedIff`, `KilledWhileFoldingIsRefusedIff`,
  `AbortAfterAbsorbingTheInverse`).
- A run that omits every commit hangs its receipt on the new base; killed then and
  aborted, it can leave the old tip covered by it (`KilledThenAbortedCoversTheSameIff`,
  `AllOmittedRunCoversItsOwnSource`).
- The notes lock can let two writers in (`LockAdmitsTwoWriters`,
  `OrderlyIffExclusive`); the checked update of both refs is what loses nothing.
- A notes tree with an upper-case name gains a second note instead of a replaced one
  (`ReplacesOneNote`, `UpperCaseKeepsBoth`).
- An import preview is computed before the lock is taken, so an id can be published
  twice or a rejected digest parked again (`ImportKeepsIdsUniqueIff`,
  `StaleImportDuplicates`, `RejectedIsParkedIff`, `StalePreviewParksAgain`).
- The proof lattice has no rule for an amended identity
  (`LatticeReproducesPlannerIff`, `AmendedIdentityHasNoRule`), and the inventory check
  does not show that nothing was left out (`InventoryIsCompleteIff`,
  `InventoryMayOmit`).
- The producer looks for a note by the first entry that begins its name, so in a mixed
  tree one can hide and its receipt is left out (`NotePath`, `MixedTreeHidesANote`,
  `BuildPackage`, `HiddenNoteBreaksTheRoundTrip`).
- The disposition registry is rewritten whole under no lock, so a decision can be lost
  (`NoDecisionIsLostIff`, `LostDecisionParksAgain`).

`dafny verify dfyconfig.toml` checks the whole project.

## Model

| member | source | states |
|---|---|---|
| `RebaseTopology.UnsupportedShape` | src/rebase-topology.js:57-87 | a merge is refused exactly when it has more than two parents or a parent that is neither in range nor under the new base, and the refusal names which |
| `RebaseTopology.AnalyzeRebaseTopology` | src/rebase-topology.js:98-138 | the range is supported exactly when every merge of it can be recreated; then there is one step per commit, in order, whose parents are the commit's own, in order: a listed one as rewritten in this range, any other as replaced by the new base; every refusal is justified by a real merge |
| `RebaseTopology.RangeIsRooted` | src/rebase-topology.js:98-124 | any topological listing of `base..head` ends at `head`, lists parents first, and leaves no other commit without a child in the range |
| `RebaseTopology.TailIsChain` | src/rebase-topology.js:115-123 | a stretch of a range without merges is one line of commits, each the only parent of the next |
| `RebaseFold.ResolveStepParents` | src/rebase-topology.js:170-182 | resolution fails exactly when some in-range parent has not been rewritten yet; otherwise each parent's image is returned, in order |
| `RebaseFold.RangeImage` | src/rebase-operations.js:1070-1091 | over every supported range, any set of omitted picks and any answers, commit by commit of the range: a commit that was not omitted has, in order, what its own parents became, and the new base for any other parent; an omitted one is what its first parent became; no step ever names a parent before it was rewritten |
| `RebaseFold.HeadIsImageOfTip` | src/rebase-operations.js:1077-1091 | when a program is exhausted HEAD is the image of the range's tip, however the steps jumped between lines and however many final steps moved nothing |
| `RebaseFold.KeptImage` | src/rebase-operations.js:316-319 | once a commit has been rewritten its image never changes for the rest of the run |
| `RebaseFold.ExecutedAreRecorded` | src/rebase-operations.js:367-373 | after any prefix, applications plus recreated merges count exactly the steps of the prefix that were not omitted |
| `RebaseFold.ReportFacts` | src/rebase-operations.js:208-253 | what a step reports is its own commit, the tree of the parent it was positioned on, the tree it made and whether its own merge was clean |
| `RebaseFold.AbsorbAllConcat` | src/rebase-operations.js:615-681 | folding absorbed changes in two stretches split at any cursor is folding them in one, so a paused absorption resumes without applying a change twice |
| `RebaseFold.AbsorbedOnceIffSurvivorClean` | src/rebase-operations.js:1162-1187 | over a whole run, a change declared into a survivor is folded in exactly once if the survivor's own pick was clean, and not at all if that pick conflicted |
| `RebaseMeaning.PickRecords` | src/rebase-operations.js:340-373 | a pick that ran put one commit on its parent's image and recorded it with the tree before and after; it is recorded as clean exactly when the three-way merge of the change against its own parent is |
| `RebaseMeaning.CleanPickRunsIff` | src/rebase-operations.js:1162-1187 | a clean pick runs exactly when it changes its parent's tree, what it absorbs folds in and leaves a change, and an edit it asks for is answered |
| `RebaseMeaning.CleanPick` | src/rebase-operations.js:1162-1187 | a clean pick has the tree of its merge with every absorbed change folded in, one after another, unless a person edited it; an edit is recorded as an amendment of that tree exactly when it moved it, and nothing else is |
| `RebaseMeaning.ConflictingPickRunsIff` | src/rebase-operations.js:484-565 | a conflicting pick runs exactly when its conflict has paths and is settled to another tree: by the person's answer, by approved choices each of which is a candidate of its own path, or, rehearsed, by the only candidate of every path |
| `RebaseMeaning.ConflictingPick` | src/rebase-operations.js:1622-1710 | a settled conflict is recorded with the tree it was settled to, without absorption or amendment, and as a fork only by a person's answer |
| `RebaseMeaning.JoinRunsIff` | src/rebase-operations.js:1125-1160 | a join runs exactly when there is something to join and its merge is clean or settled, and then joins its two parents, in order, to that tree |
| `RebaseMeaning.AbsorbsOne` | src/rebase-operations.js:628-672 | an absorbed change is folded in by a clean merge or by the only candidate of every path; a path with none or with several is asked of a person, and a conflict without a path stops |
| `RebaseMeaning.AmbiguityIsNotRehearsed` | src/forecasts.js:794-800 | a path without a candidate, or with more than one, leaves a rehearsed pick and a rehearsed join stuck |
| `RebaseOperations.RebaseOperation.constructor` | src/rebase-operations.js:1222-1295 | an operation starts between steps, on the new base, with nothing rewritten and nothing recorded |
| `RebaseOperations.RebaseOperation.RecordSuccessfulApplication` | src/rebase-operations.js:340-375 | the commit at HEAD is journaled as the image of the step's change; the journal is again exactly the fold of the steps behind the cursor, one step further |
| `RebaseOperations.RebaseOperation.RecordRecreatedMerge` | src/rebase-operations.js:386-414 | a join is journaled as a join and never as an application, and the journal is the fold one step further |
| `RebaseOperations.RebaseOperation.MeldOutstanding` | src/rebase-operations.js:615-681 | the staged tree is what folding the absorbed changes up to the returned cursor makes; the loop stops early only at a change with a path that has no candidate or several, which waits for a person, or at one that Git cannot apply |
| `RebaseOperations.RebaseOperation.AbsorbOutstanding` | src/rebase-operations.js:615-695 | either everything outstanding is folded into the commit at HEAD and the step stands at its own action, or the operation waits at the change that stopped it; an absorption that cancels the survivor's change is stuck |
| `RebaseOperations.RebaseOperation.FinishSurvivingStep` | src/rebase-operations.js:1579-1594 | a reword or an edit pauses only after everything was absorbed; any other survivor is recorded, and a step that differs from an approved forecast is not |
| `RebaseOperations.RebaseOperation.ApplyForecastResolutions` | src/rebase-operations.js:484-565 | a step's own conflict is settled by the approved choices only when they name one candidate for every path; otherwise nothing changes |
| `RebaseOperations.RebaseOperation.CommitSettledJoin` | src/rebase-operations.js:549-560 | a join settled by its forecast is recorded exactly when its tree and outcome are the forecast's |
| `RebaseOperations.RebaseOperation.CommitSettledPick` | src/rebase-operations.js:539-563 | a pick settled by its forecast is recorded without its absorption, exactly when its tree and outcome are the forecast's |
| `RebaseOperations.RebaseOperation.HandleConflict` | src/rebase-operations.js:1176-1213 | a conflict is left to a person only without a forecast; under a faithful forecast it is always settled |
| `RebaseOperations.RebaseOperation.RunJoin` | src/rebase-operations.js:1125-1161 | a join of two parents that became one line is stuck and never dropped; a clean one is recorded on both images, in order |
| `RebaseOperations.RebaseOperation.CommitCleanJoin` | src/rebase-operations.js:1155-1160 | a clean join is recorded exactly when the forecast, if any, predicted its tree |
| `RebaseOperations.RebaseOperation.RunPick` | src/rebase-operations.js:1130-1174 | a clean pick is absorbed into and finished, a conflicting one is handled; either way the state the method leaves is one of those the machine promises |
| `RebaseOperations.RebaseOperation.OmitStep` | src/rebase-operations.js:1077-1084 | an omitted commit runs nothing, records nothing and takes its parent's image |
| `RebaseOperations.RebaseOperation.BeginStep` | src/rebase-operations.js:1085-1117 | the step in flight is positioned on the image of its own first parent, wherever the last step left HEAD |
| `RebaseOperations.RebaseOperation.RunStep` | src/rebase-operations.js:1071-1213 | one step moves the journal one step along the fold, or leaves a pause or a stop that the fold has too |
| `RebaseOperations.RebaseOperation.RunRebaseQueue` | src/rebase-operations.js:1059-1220 | the queue runs until it is exhausted or stops; a rooted program never meets a parent it has not rewritten |
| `RebaseOperations.RebaseOperation.CompleteAbsorption` | src/rebase-operations.js:1546-1569 | the answered change is folded in once and the rest after it; the step ends recorded, paused for its own action, or stuck where the fold is |
| `RebaseOperations.RebaseOperation.CompleteReword` | src/rebase-operations.js:1460-1497 | a reword changes no tree: the step is recorded with the tree it paused on, and a tree that moved is committed and blocks the operation |
| `RebaseOperations.RebaseOperation.CompleteEdit` | src/rebase-operations.js:1505-1536 | an edit is recorded with the edited tree, and as an amendment exactly when the tree moved |
| `RebaseOperations.RebaseOperation.CompleteResolution` | src/rebase-operations.js:1622-1710 | the answered conflict is recorded with the answered tree, as a fork when any decision on it asked for one, and a conflicted survivor without its absorption or its action; a refused decision leaves only the fork it asked for |
| `RebaseOperations.RebaseOperation.CompleteStep` | src/rebase-operations.js:1596-1711 | whatever the operation waits for, a decision it can use finishes the step; any other is refused, exactly then, and changes nothing but that the conflict of a pick keeps a fork it asked for |
| `RebaseOperations.RebaseOperation.ContinueRebase` | src/rebase-operations.js:1596-1711 | a decision is refused exactly when it lacks the message asked for, brings one not asked for, would fork a join or would leave the commit empty, or nothing is waited for; what follows it may be any other, but a fork asked for at the conflict of a pick stays; a usable one is finished and the queue runs on |
| `RebaseOperations.RebaseOperation.ExhaustedIsTheFold` | src/rebase-operations.js:1070-1215 | an operation that reaches the end of its queue, split by any pauses and any refused decisions, has the applications, joins, absorptions, amendments and HEAD of the uninterrupted fold under the same decisions, and forks exactly where some decision asked for one |
| `RebaseOperations.RebaseOperation.AskForFork` | src/rebase-operations.js:1426-1443 | a fork asked for is written into the step in flight before Git says whether the decision can be used, and stays there |
| `RebaseOperations.RebaseOperation.SettledPickIsForkIffAsked` | src/rebase-operations.js:1694-1710 | over every run: a pick that conflicted is recorded as a fork if and only if some decision given on it, used or refused, asked for one, and as a contextual rebase otherwise; a clean one is never a fork |
| `RebaseOperations.RebaseOperation.JournalIsConsistent` | src/rebase-operations.js:340-414 | `rewritten` names exactly the commits behind the cursor, and the executed count is applications plus recreated merges, the steps behind the cursor that were not omitted |
| `RebaseOperations.RebaseOperation.OnlyStuckWhenFoldIs` | src/rebase-operations.js:1070-1213 | with answers for every step and a faithful approval, if any, an operation is running, waiting or exhausted, never stopped for a mismatch |
| `RebaseOperations.RebaseOperation.FaithfulStep` | src/rebase-operations.js:208-253 | under a faithful approval the next forecast step is the step in flight: same commit, same before-tree, and neither check fires |
| `RebaseOperations.RebaseOperation.ApprovalIsHonoured` | src/rebase-operations.js:208-253 | whatever forecast an operation runs under, faithful or not, every step it executed was the next one listed there: same commit, same before-tree, and the same outcome and result unless the step paused for a message or an edit |
| `RebaseOperations.RebaseOperation.GuardedRunIsTheForecast` | src/rebase-operations.js:208-253 | without such pauses, the steps an operation executed under any forecast are exactly the first steps that forecast lists |
| `Forecasts.AbsorbChanges` | src/forecasts.js:235-280 | a rehearsal folds absorbed changes exactly as the fold does with nobody answering, and gives up exactly where it does |
| `Forecasts.SimulatePick` | src/forecasts.js:633-724 | a rehearsed pick has the outcome and tree of the fold's step, and as choices the one candidate of every conflicted path; it has none when the fold is stuck there |
| `Forecasts.SimulateJoin` | src/forecasts.js:628-673 | a rehearsed join has the outcome and tree of the fold's step, and as choices the one candidate of every conflicted path; it has none when the fold is stuck there |
| `Forecasts.SimulateStep` | src/forecasts.js:588-880 | one simulated step advances a rehearsal by exactly one step of the fold |
| `Forecasts.SimulatePlan` | src/forecasts.js:567-898 | for a program that states its parents, the forecast completes exactly when no step is a declared edit and the fold under its policy does; then it tells the whole fold: a report per executed step, the one candidate of every conflicted path as its choices, and the predicted tree |
| `Forecasts.SimulateQueue` | src/forecasts.js:523-529 | for a linear plan the bare replay queue is simulated, and the forecast still tells the fold of the full program with its omitted commits and parent mapping |
| `Forecasts.CheckInputs` | src/forecasts.js:355-421 | the merge-tree engine refuses before merging exactly when a queued commit is a merge, is a root, or is not the last and touches a `.gitattributes` |
| `Forecasts.SimulateWithMergeTree` | src/forecasts.js:337-514 | whenever the merge-tree engine returns a result instead of a fallback, it is the worktree simulator's: every step clean, same trees, with the attributes fixed from the original target equal to those of each accumulated tree |
| `Forecasts.LinearHead` | src/forecasts.js:579-625 | on a linear range HEAD is already the image of the next step's parent, so a queue that never repositions is positioned right |
| `Forecasts.ApprovedFoldAgrees` | src/rebase-operations.js:208-253 | the run an approval governs folds, step by step, to what was rehearsed, whoever answers its pauses |
| `Forecasts.ApprovedRunMatchesForecast` | src/rebase-operations.js:208-253 | an operation started under a complete forecast of its own program is never marked a mismatch and, when exhausted, has the predicted tree at HEAD |
| `Forecasts.AbsorptionNeedsNobody` | src/rebase-operations.js:639-678 | an absorption that was rehearsed meets no conflict in the run that a recorded resolution does not settle |
| `RebaseInteractive.ResolveInteractiveProgram` | src/rebase-interactive.js:134-241 | a set of declarations is accepted exactly when every commit named is a replayed non-merge of the range, no commit has two actions, every target strictly precedes its subject, and no target is itself absorbed; the accepted actions come out in range order |
| `RebaseInteractive.ResolvedIsAccepted` | src/rebase-interactive.js:176-219 | whatever is accepted obeys every rule of the contract as the later stages read it |
| `RebaseInteractive.EachAbsorbedOnce` | src/forecasts.js:916-969 | for every accepted program each absorbed commit sits in the list of its target, in no other survivor's list, and has no pick of its own; the target is earlier in the plan's change order |
| `RebaseInteractive.ExactlySurvivorsArePicked` | src/forecasts.js:938-968 | a step is a join exactly for a merge, a pick exactly for a survivor, and an omit otherwise; each survivor's list is in strictly ascending range order |
| `RebaseInteractive.DeclaredAbsorptionHappensIff` | src/rebase-operations.js:1162-1187 | over a whole run of an accepted program, every change declared into a survivor is folded in exactly once when that survivor's own pick is clean and not at all when it conflicts |
| `RebaseInteractive.AcceptedProgramIsAProgram` | src/forecasts.js:916-969 | the program of an accepted plan is one the rewrite theorems speak of |
| `InteractiveMeaning.AcceptedIff` | src/rebase-interactive.js:134-219 | in the caller's own terms: declarations are accepted if and only if every commit they name is replayed and no merge, no commit has two, each target comes before its subject in the plan, and no target is itself melded into another commit |
| `InteractiveMeaning.ItemsMean` | src/forecasts.js:916-969 | from declarations to items: a join is recreated; a replayed change nobody melds away is picked, to be reworded or edited exactly when that was declared, and takes in exactly what was melded into it, in plan order; every other commit is left to its parent's image |
| `RebaseMessages.RewordedMessage` | src/rebase-interactive.js:253-286 | a rewording is refused exactly when it declares another identity or has no prose; otherwise it passes the single-identity check with the original id |
| `RebaseMessages.AbsorbedMessage` | src/rebase-interactive.js:299-313 | every absorbed message, whatever the messages it is made of contain, carries exactly one identity and it is the survivor's |
| `RebaseMessages.TrailerIsTheIdentity` | src/rebase-interactive.js:322-340 | prose without trailer lines followed by the trailer declares exactly that one id |
| `RebaseMessages.StrippedHasNoTrailer` | src/rebase-interactive.js:300-305 | stripping leaves no line, even a wrapped or shortened one, that begins with the label |
| `RebaseMessages.ProseIsKept` | src/rebase-interactive.js:300-305 | prose without trailer lines is kept as it is, but for blanks at its end |
| `RebaseMessages.TrailerLineIsDropped` | src/rebase-interactive.js:303 | a trailer line between two texts is dropped, and no other line of either is |
| `RebaseMessages.SurvivingProseFirst` | src/rebase-interactive.js:306-313 | the survivor's own prose comes first, and stands alone when everything absorbed was only fixed up |
| `RebaseMessages.PartsGrow` | src/rebase-interactive.js:307-311 | one more absorbed message adds its prose at the end, after a blank line, when it was squashed, and nothing when it was fixed up |
| `RebaseMessages.SquashedProseStays` | src/rebase-interactive.js:306-313 | the prose of every squashed message is in the composed one, after all that was composed before it |
| `RebasePublication.Session.FinalizeRebase` | src/rebase-operations.js:810-1045 | nothing reaches the notes, no resolution is published and no anchor moves unless the result tree and the overlay are the predicted ones; then everything goes out in the declared order |
| `RebasePublication.Session.Publish` | src/rebase-operations.js:1006-1045 | publication is exactly: per application its resolutions and its record, provenance, join resolutions, amendments, absorptions, the receipt, the anchors, the journal |
| `RebasePublication.ReceiptComesLast` | src/rebase-operations.js:1034-1045 | a process killed at any point has published the receipt only if everything the receipt names was published before it |
| `PublicationMeaning.PublishedMeans` | src/rebase-operations.js:1006-1045 | what is on disk after publication: one record per application, carried provenance, amendment and absorption, each with its id on its own commit, in that order, then the receipt; the resolutions of applications, then of joins; the anchors released and no journal |
| `PublicationMeaning.ReceiptNames` | src/rebase-operations.js:893-985 | the receipt hangs on the result and names the source's head and exactly the changes nobody forked and that did not wait in vain for an acceptance, each by its commit and its identity, in the plan's order |
| `PublicationMeaning.RecordsNameWhatIsPublished` | src/rebase-operations.js:1006-1011 | a process killed at any point has published the record of an application only if the resolutions captured for it are published |
| `RebasePublication.Session.RecordRewritten` | src/rebase-operations.js:316-373 | a rewritten commit is named by a ref before the journal names it, so whatever the journal on disk says was made is kept by a ref |
| `RebasePublication.Session.AbortRebase` | src/rebase-operations.js:1721-1769 | abort refuses a dirty worktree, whoever made it so, exactly when no pick or join is pending, no absorption waits and the overlay is not back, and then changes nothing; otherwise it restores the tip, releases what the journal names and forgets the operation |
| `RebasePublication.AbortRestores` | src/rebase-operations.js:1742-1761 | every abort that returns leaves HEAD at the original tip, no journal and no published fact changed; no anchor is left if and only if the journal on disk names every anchor |
| `RebasePublication.KilledBetweenLeaksIff` | src/rebase-operations.js:316-324 | a process killed between naming a commit and writing the journal leaves exactly that anchor behind after an abort, and one killed anywhere else leaves none; until then every commit the journal names is anchored |
| `RebaseAftermath.UntouchedAbortIsRefusedIff` | src/rebase-operations.js:1726-1744 | abort of an operation whose worktree nobody touched is refused if and only if what the survivor absorbed cancels it, or folding was blocked after at least one change was staged that HEAD does not hold |
| `RebaseAftermath.KilledWhileFoldingIsRefusedIff` | src/rebase-operations.js:615-693 | abort after a kill inside absorption is refused if and only if a change was left half merged or what is staged is not the tree of HEAD; a kill before anything was folded is not refused |
| `RebaseAftermath.AbortAfterAbsorbingTheInverse` | src/rebase-operations.js:684-693 | an input: a survivor that absorbs its own inverse stops with the inverse staged, and abort refuses that dirt |
| `RebaseAftermath.RunHangs` | src/rebase-operations.js:340-414 | over every run: what is applied is a commit the run made, every amendment and absorption belongs to an application, and HEAD is such a commit unless no step ran |
| `RebaseAftermath.OperationMeans` | src/rebase-operations.js:885-985 | what is published of a run: each application under its own commit, as a fork only when it was one; exactly the provenance of every applied change, carried to the commit that replaced it; each amendment and absorption on the commit its change was applied as; and the tip |
| `RebaseAftermath.FactsHangOnNewCommits` | src/rebase-operations.js:1006-1037 | every record, carried provenance, amendment and absorption a run publishes hangs on a commit that the run made |
| `RebaseAftermath.KilledThenAbortedCoversTheSameIff` | src/rebase-operations.js:1006-1045 | a run killed anywhere while publishing and then aborted leaves receipts, coverage, amended identities and quarantined facts of the original tip as they were if and only if its receipt was not out yet or its result is not under that tip; the result is under it exactly when no step ran and the new base is |
| `RebaseAftermath.AllOmittedRunCoversItsOwnSource` | src/rebase-operations.js:1039-1042 | an input on which coverage changes: every commit is omitted, the receipt hangs on the new base, and the abort leaves it there |
| `RebaseAftermath.OmittedIsPlanned` | src/rebase-plan.js:155-166 | that input is one the planner makes: both commits carry one identity, so the evidence of the new base covers the second by stable id, and the program of that plan omits it |
| `RebaseAftermath.ForkIsUnclaimedIff` | src/rebase-operations.js:878-893 | the receipt of a finished run leaves out an applied change if and only if some decision on it asked for a fork, refused or not, or it waited for an acceptance nobody gave |
| `RebaseAftermath.RefusedForkStays` | src/rebase-operations.js:1426-1443 | an input: a fork is asked for with nothing resolved and refused, a plain decision follows, and the change is recorded as a fork |
| `RebaseAftermath.ClaimOfAbsorbedWorkHoldsIff` | src/rebase-operations.js:893-985 | the receipt claims every change declared into a survivor; that work is in the result if and only if the survivor's own pick was clean |
| `RebaseAftermath.ReceiptCanClaimLostWork` | src/rebase-operations.js:893-985 | an input on which it is not: the survivor conflicts, a person settles it, its absorption never runs, and the receipt claims the change |
| `NotesProtocol.NothingIsLost` | src/notes.js:308-367 | in every interleaving of appends, replacements, imports and backfills, with crashes and takeovers of the lock anywhere, the notes are the fold of the successful operations in publication order, and none of those would have been refused there |
| `NotesProtocol.StepKeepsInvariant` | src/notes.js:310-363 | every step of every process keeps it: what a writer read between pinning the tip and the checked update was read from that tip, or the update cannot succeed |
| `NotesProtocol.BuildsTheOperation` | src/notes.js:314-356 | what a writer builds on a tip nobody moved is exactly what its operation means, including an import whose containers, tree and base are read separately and unpinned |
| `NotesProtocol.HistoryGrows` | src/notes.js:356-363 | the notes ref only grows: the commit it named is always below the one it names |
| `NotesProtocol.AppendedRecordStays` | src/notes.js:273-275 | a record appended under a fresh key is in its container after every later operation but one that replaces it or claims its key |
| `NotesMeaning.AppendMeans` | src/notes.js:273-367 | an append puts its record after the records its container held, after the text of a plain note kept as a record without an id, or first; no other container changes, and only a container this build does not read refuses it |
| `NotesMeaning.ReplaceMeans` | src/notes.js:284-295 | a replacement changes the first record with its id, in place and nowhere else, and is refused exactly when there is none |
| `NotesMeaning.RunsKeepForeignWork` | src/notes.js:66-85 | over every run of any writers: the text of every plain note is still on its commit, as it was or as a record without an id, and every note this build does not read is untouched |
| `NotesMeaning.PlainTextStays` | src/notes.js:72-76 | over every log of operations that were not refused, a plain text note keeps its text |
| `NotesProtocol.RetentionStaysClosed` | src/notes.js:348-363 | retention closure over every run: if the commit every published record is attached to and every object it references were reachable from the retention ref, they still are |
| `NotesProtocol.BackfillCloses` | src/retention.js:20-57 | a backfill makes the commit and every referenced object of each record it did not quarantine reachable from the retention ref, whatever the ref covered before, and moves no note |
| `NotesProtocol.LockAdmitsTwoWriters` | src/notes.js:192-248 | two waiters that judged one dead claim stale can both end inside the lock |
| `NotesProtocol.OrderlyRunsExclude` | src/notes.js:210-267 | while no step takes the lock from a writer who is inside, at most one writer is inside |
| `NotesProtocol.OrderlyIffExclusive` | src/notes.js:192-267 | a run keeps writers apart at every point, one more claim included, if and only if no step of it takes the lock from a writer who is inside; the first such step lets its author in beside that writer |
| `NotesProgress.WriterCompletes` | src/notes.js:142-153 | from every state, whatever the writer and all others were in the middle of and whoever has the lock, a writer's own steps publish exactly when its operation is not refused by the notes of the tip; then the notes are what the operation makes of them, over the old tip and an import's own history, its objects are retained, and the lock is free |
| `NotesProgress.RefusedWriterLeaves` | src/notes.js:250-267 | a writer that is refused leaves both refs and everyone else as they were, and the lock free |
| `GitCarriers.CommitWithParents` | src/git-carriers.js:75-87 | one commit over any number of parents: each is an ancestor of it, every new commit names at most 64 parents, and it reaches its tree and what its parents reach and nothing else; the layering terminates |
| `GitCarriers.NextLayer` | src/git-carriers.js:81-85 | one pass groups a layer of more than 64 commits under strictly fewer new ones |
| `GitCarriers.RecordDependencies` | src/git-carriers.js:100-128 | dependencies are refused exactly when one object is wanted as two kinds or, when validating, one is missing or of another kind; otherwise they are the commit of every entry and every object its record references, each with its kind, and nothing else |
| `GitCarriers.BuildRetentionCommit` | src/git-carriers.js:130-142 | the next retention tip stands over the one before it and reaches exactly the dependencies and what that one reached |
| `GitCarriers.AncestorReach` | src/git-carriers.js:75-87 | what is reachable from an ancestor is reachable from its descendants, so retention is monotone along the chain |
| `NoteTrees.ReplaceNote` | src/git-carriers.js:54-73 | for any flat, fanned-out or mixed tree: refused exactly when something that is no blob is in the note's place; otherwise, counted any way at all, the tree holds what it held except the one blob in that place, and a tidy tree stays tidy |
| `NoteTrees.ReplacesOneNote` | src/git-carriers.js:54-73 | no other attachment and no other entry changes, the new blob is the attachment's, and exactly one note is left there if and only if every note it had was the one in the place being written |
| `NoteTrees.ReplacingIsAMapUpdate` | src/git-carriers.js:54-73 | in a tree with lower-case hex names, each used once, replacing a note changes the attachment-to-blob map at exactly one key |
| `NoteTrees.UpperCaseKeepsBoth` | src/git-carriers.js:56-62 | for every hex name of any width with a digit in upper case: it is listed but not written over, and its attachment ends with two notes |
| `NoteTrees.SessionNoteEntries` | src/git.js:1452-1513 | the listing is delegated exactly when the fan-out is over a budget or an attachment has two notes; otherwise it is exactly the notes of the tree, each with its blob |
| `NoteTrees.DigitsAre` | src/git.js:1494 | the names a listing follows are spelled in the sixteen hex digits, in either case, and folding them changes the capitals alone |
| `NoteTrees.ScanBatch` | src/git.js:1476-1509 | reading a batch lists or queues everything its trees hold and stops only at a second note for one attachment or over the budget |
| `NoteRecords.JoinStops` | src/metadata-transfer.js:177-185 | a merge into a container is stopped exactly by an incoming record whose key is already taken by other content |
| `NoteRecords.JoinFacts` | src/metadata-transfer.js:173-186 | a merge keeps what was there in place, adds only incoming records, holds all of them, and keeps keys unique |
| `NoteRecords.SortedFacts` | src/metadata-transfer.js:61-67 | ordering a container keeps exactly its records |
| `NoteRecords.OrderMeans` | src/metadata-transfer.js:61-66 | records are written by date, earliest first, on one date those without an id before the others and those by id, and then by content |
| `NoteRecords.OrderIsCanonical` | src/metadata-transfer.js:61-67 | a container is written the same whatever order its records came in, when date, id and content tell records apart |
| `NoteRecords.EnvelopeOrderDoesNotMatter` | src/metadata-transfer.js:54-69 | an import makes the same notes of the same records in any order, and refuses them in every order or in none |
| `NoteRecords.KeyedFacts` | src/metadata-transfer.js:173-176 | collecting by key leaves each key once and invents no record; a container that held a key twice keeps one of them |
| `MetadataTransfer.PartitionIncoming` | src/metadata-transfer.js:566-578 | parked and applied entries are those whose planned action says so, in envelope order, looked up by identity and digest |
| `MetadataTransfer.GroupRecords` | src/metadata-transfer.js:54-69 | one group per attachment, each holding that attachment's records in order |
| `MetadataTransfer.CombineNoteEntries` | src/metadata-transfer.js:169-189 | the merge is stopped exactly when some container cannot take its group; otherwise each touched container is the ordered join of what it held and its group |
| `MetadataTransfer.ParkingNeverRefuses` | src/metadata-transfer.js:402-483 | with parking, no record and no ref keeps an envelope out: parked are exactly the records in dispute and those that name a ref in dispute |
| `MetadataTransfer.OneDisputeRefuses` | src/metadata-transfer.js:402-483 | without it nothing is parked, and the envelope is refused exactly when some record or ref is in dispute or an object is missing |
| `ExchangeMeaning.PlanMeans` | src/metadata-transfer.js:402-408 | what is planned for an incoming record, by what the repository holds: added when its id is free, passed over when it is here, disposed when a person rejected exactly it, parked or in conflict when its id says something else, and parked whatever it says when it names a disputed ref |
| `ExchangeMeaning.ImportLands` | src/metadata-transfer.js:596-693 | an import under a current preview, record by record: one with a free id is in the notes afterwards, one in dispute is parked under its own place and not added, one rejected before is neither; nothing else is added or parked, no identified record is removed and no decision forgotten |
| `ExchangeMeaning.FreshImportIsRefusedIff` | src/metadata-transfer.js:596-649 | a current import is refused exactly when, without parking, some id or ref is in dispute, or when a record to be added hangs on a note this build cannot add to |
| `Exchange.ImportKeepsIdsUniqueIff` | src/metadata-transfer.js:627-649 | record ids stay unique after an import if and only if none of the applied records has its id attached to another commit when it is published |
| `Exchange.CurrentPreviewIsSettled` | src/metadata-transfer.js:402-483 | an applicable preview taken from the notes it is applied to always meets that condition |
| `Exchange.StaleImportDuplicates` | src/metadata-transfer.js:409-478 | a preview that went stale does not: the id is published a second time |
| `Exchange.RunsKeepIdsAndContent` | src/metadata-transfer.js:596-693 | over every run of publishing, inspecting, importing and deciding that meets that condition, ids stay unique and the content under an id changes only by a replace-local decision |
| `Exchange.ImportKeeps` | src/metadata-transfer.js:633-649 | an import removes no identified record and changes none |
| `Exchange.ImportAdds` | src/metadata-transfer.js:633-649 | an import adds every applied record and nothing else |
| `Exchange.ReimportChangesNothing` | src/metadata-transfer.js:633-648 | importing the same records again leaves the notes exactly as they are, order included, so the second publication verifies the ref instead of moving it |
| `Exchange.ImportMovesNoRef` | src/metadata-transfer.js:651-664 | an import moves no ref that was there, and leaves every other ref of the envelope where the envelope has it, the refused ones excepted |
| `Exchange.SkippedIffNothingToDo` | src/metadata-transfer.js:602-611 | an applicable import is skipped exactly when every record it would write is held, every ref is here, nothing would be parked and there is no first notes commit to adopt |
| `Exchange.AdoptingIsMerging` | src/metadata-transfer.js:627-628 | adopting an exported notes commit into an absent ref gives the notes a merge would |
| `Exchange.ImportMerges` | src/metadata-transfer.js:619-649 | a published import changed nothing or merged exactly the records its preview applies, by either of the two paths |
| `Dispositions.LocalMetadata.ImportApplied` | src/metadata-transfer.js:596-681 | the import lands whole or changes nothing: refused previews, parked refs that appeared meanwhile and resolution refs that moved are all refused |
| `Dispositions.LocalMetadata.DisposeConflict` | src/dispositions.js:26-121 | one parked copy and one local copy are decided, the dispute cleared before the decision is filed; anything else is refused and changes nothing |
| `Dispositions.LocalMetadata.ReplaceNoteRecord` | src/notes.js:284-295 | the record is replaced in place and the dispute cleared together, or neither |
| `Quarantine.DuplicatedRecordIds` | src/metadata.js:939-946 | an id is reported exactly when two different positions carry it |
| `Quarantine.ReadCausalRecordCatalog` | src/metadata.js:958-981 | the catalog is every record of the notes tree, and an id is in conflict exactly when the tree uses it in two places or a parked copy disputes it |
| `Quarantine.AcceptedCausalRecords` | src/metadata.js:990-1005 | accepted are exactly the usable records whose id is not in conflict |
| `Quarantine.AcceptedIdsAreUncontested` | src/metadata.js:939-1005 | whatever happened to the tree, no two accepted records share an id, and a parked id is in no accepted set |
| `Quarantine.ParkingTakesOutOfService` | src/metadata-transfer.js:650-656 | an import parks exactly what its preview says, and every parked id leaves service on both sides |
| `Quarantine.DecisionReturnsToService` | src/dispositions.js:85-99 | a decision returns exactly one copy to service: the local one, or the parked one in its place |
| `Quarantine.DecisionMeans` | src/dispositions.js:26-121 | a decision needs one parked and one local copy, on one commit if the parked one is to replace it; then only that dispute is gone, only that record changed, in place, and the digest filed as rejected is that of the other copy |
| `Quarantine.RejectedDigests` | src/quarantine.js:266-274 | the digests rejected for an id are those of all its decisions together |
| `Quarantine.RejectedIsParkedIff` | src/metadata-transfer.js:402-656 | in any sequence of imports and decisions, an import applied after a person rejected a digest parks it if and only if it parks conflicts and, when its preview was taken, the resolution ref the record names was refused, or other content held the id and nobody had rejected the digest yet |
| `Quarantine.RejectedIsNotParkedAgain` | src/metadata-transfer.js:402-483 | after any run, a preview taken once a digest was rejected plans to park it only when the resolution ref its record names is refused |
| `DispositionRegistry.NoDecisionIsLostIff` | src/quarantine.js:276-282 | in every interleaving of processes that file decisions, the registry holds all of them in order if and only if none is filed between the read and the write of another |
| `DispositionRegistry.LostDecisionParksAgain` | src/quarantine.js:276-282 | an input on which one is lost: two people decide at once, and the digest the first rejected is planned to be parked again |
| `Quarantine.StalePreviewParksAgain` | src/metadata-transfer.js:574-656 | a run that does: two imports inspect one envelope, the first parks its record, a person rejects it, and the second import parks it again |
| `MergePlan.ReceiptCoverage` | src/merge-plan.js:53-79 | covered commits and identities are exactly those that uncontested receipts attached to the target's history absorb; amended and quarantined ids likewise |
| `MergePlan.ClassifyFromEvidence` | src/proof-bundle.js:138-149 | the verifier's verdict is the first rule of the lattice whose evidence holds |
| `MergePlan.LatticeReproducesPlannerIff` | src/merge-plan.js:170-204 | the lattice gives the planner's status and proof for a change if and only if the change is not proved by an amended identity alone |
| `MergePlan.AmendedIdentityHasNoRule` | src/merge-plan.js:194-196 | an input on which they differ: an amended identity on the target waits for review in the plan and is covered for the lattice |
| `MergePlan.ChooseEffectiveBase` | src/merge-plan.js:129-141 | the effective base descends from the physical one, is that base or an eligible receipt's source head, and no eligible receipt strictly descends from it |
| `Landings.ReceiptCovers` | src/merge-plan.js:176-183 | every commit named by a receipt in force is covered, whatever is amended |
| `Landings.Target.Land` | src/landings.js:45-99 | a landing that conflicts changes nothing; any other attaches to the new commit a receipt that names the source's head, the commits it absorbs and the identity of each; then every plan of the source against the new head finds all of it covered, everything the target had is still under it, and the source's own head is under it when compact and only if it was before when squashed |
| `Landings.LandingClosesCoverage` | src/landings.js:17-99 | after a compact or squash landing, every commit of the source is covered in any later plan of it, by whatever base is chosen |
| `Landings.ExactlyTheGrowthIsNew` | src/merge-plan.js:170-204 | when the source then grows by commits the repository did not have, whose identity and patch no commit of the target has and no receipt names, exactly those are new |
| `Landings.EffectiveBaseOfGrowth` | src/merge-plan.js:129-141 | with that receipt the only eligible one, choosing the effective base of the grown source gives the head that was landed |
| `Landings.OldReachStays` | src/landings.js:69-70 | committing changes nothing about what older commits reach |
| `Reconciliation.Reconcile` | src/operations.js:836-848 | starting is refused exactly when a candidate waits for a decision nobody made |
| `Reconciliation.QueueIs` | src/operations.js:788 | what is replayed is exactly the changes the plan calls new, in the plan's order |
| `Reconciliation.AbsorbedInOrder` | src/operations.js:394-403 | the receipt absorbs exactly the changes that were not forked and did not wait in vain for an acceptance, in the plan's order |
| `Reconciliation.Operation.RunReconciliationQueue` | src/operations.js:703-758 | every change replayed without a person is what Git made of picking it on the one before; the receipt exists only when every new change was replayed in order and the tree is the predicted one |
| `Reconciliation.Operation.FinalizeReconciliation` | src/operations.js:317-442 | the receipt absorbs every change that was not forked and was decided, and its forks are exactly the changes some decision asked to fork; a mismatched tree publishes none |
| `Reconciliation.Operation.ContinueReconciliation` | src/operations.js:938-1006 | the change a person settled is recorded once, as a fork exactly when this or an earlier decision on it asked for one, and the queue goes on; a decision that stages nothing is refused and leaves only the fork it asked for |
| `Reconciliation.ReconciliationClosesCoverage` | src/operations.js:394-442 | planning the same source again, by whatever base, against any target that has the result covers every change that was not forked, so the new replay queue holds forked changes only and is empty when nothing was forked |
| `Reconciliation.ReceiptNames` | src/operations.js:394-442 | the receipt hangs on the result and names the source's head and every absorbed change by its commit and its identity |
| `Reconciliation.ReconcileToTheEnd` | src/operations.js:317-442 | an operation run to its receipt through any number of pauses and decisions leaves every change of the source that nobody asked to fork covered in any later plan of it |
| `ProofBinding.CheckObjects` | src/proof-binding.js:309-322 | an object is kept exactly when its bytes hash to the id it is carried under |
| `ProofBinding.Walk` | src/proof-binding.js:365-383 | the walk visits exactly what carried parent links lead to from the source head without passing the base |
| `ProofBinding.VerifyInventory` | src/proof-binding.js:354-423 | no problem is reported exactly when the list is the change list, everything walked is carried, the base is reached, everything listed is walked and every identity and subject is the commit's own |
| `ProofBinding.PathHolds` | src/proof-binding.js:461-507 | a path holds exactly when it runs from the target head by real carried links to a commit that bears the claim out; it raises a problem otherwise, unless an ancestry claim's path runs elsewhere |
| `ProofBinding.VerifyCoverage` | src/proof-binding.js:432-454 | a covered change is proven exactly when some carried path for it holds, and no problem is raised exactly when each has a path and none tried before one that holds raises any |
| `ProofBinding.QuietIsProvenIff` | src/proof-binding.js:432-507 | a covered change that raises no problem is proven, but for an ancestry claim whose paths all run to other commits |
| `ProofBinding.ProvenCoverageIsReal` | src/proof-binding.js:432-495 | with collision-free ids and whatever a producer put in the bundle: a change proven by ancestry is an ancestor of the target head, and one proven by stable id has an ancestor of it that carries that id |
| `ProofBinding.InventoryIsReal` | src/proof-binding.js:354-414 | every commit of an inventory that holds is an ancestor of the source head whose own bytes give the stated identity and subject |
| `ProofBinding.InventoryIsCompleteIff` | src/proof-binding.js:354-394 | given an inventory that holds, everything walked above the base is listed if and only if the list has as many members as commits were visited, less the base |
| `ProofBinding.InventoryMayOmit` | src/proof-binding.js:391-394 | a history, a carried map and a bundle whose inventory holds and leaves a walked commit out, contrary to the comment above the check |
| `ProofBinding.ChainIsReal` | src/proof-binding.js:471-481 | a chain of carried links from a known commit is a chain of the real history |
| `CommitPaths.ShortestChain` | src/proof-binding.js:131-143 | breadth-first search finds a shortest chain exactly when there is one |
| `CommitPaths.CommitPath` | src/proof-binding.js:124-144 | searching only the commits between two ends, each with its parents between them, finds a shortest chain of the whole history, exactly when the one reaches the other |
| `CommitPaths.StaysBetween` | src/proof-binding.js:126-128 | every chain to the far end, cut where it first arrives, lies within the rows listed for it |
| `ProofBundle.BuildBindings` | src/proof-binding.js:181-240 | for a linear range, empty or not: carried objects hash right and the inventory holds; a covered change raises no problem exactly when the first receipt that claims it, if receipts do, hangs on an included attachment, and then it is proven |
| `ProofBundle.OwnPathsAreTried` | src/proof-binding.js:212-240 | a change's own paths come before those of the bases, so its own first path decides, even when a base is itself a covered change |
| `ProofBundle.CoveredIsSupported` | src/proof-binding.js:212-226 | every change the planner covers has an end to run a path to, and every such end is on the target |
| `ProofBundle.PathEnds` | src/proof-binding.js:212-226 | the ends chosen support the claim, and there is one whenever one exists |
| `ProofBundle.InventoryOfRange` | src/proof-binding.js:188-200 | the carried objects of a linear range make the verifier's inventory check hold |
| `ReceiptInclusion.VerifyReceipt` | src/proof-binding.js:514-593 | an inclusion is accepted exactly when carried trees lead from the notes tip to a note that holds a valid record with that id saying what the evidence says |
| `ReceiptInclusion.HoldsMeans` | src/proof-binding.js:525-593 | in the bytes themselves: the tip is a commit whose tree the path starts from, every tree of the path lists the next object and the last one the blob, and the note there has the record as the first with its id |
| `ReceiptInclusion.SameSetIff` | src/proof-binding.js:595-599 | comparing sorted lists tells exactly whether evidence and record absorb the same, as often and in any order |
| `ReceiptInclusion.IncludedReceiptIsReal` | src/proof-binding.js:525-570 | a record whose inclusion verifies is one the real repository's notes tip holds by that path |
| `ReceiptInclusion.NotePath` | src/proof-binding.js:151-171 | it finds exactly the note of the attachment that no earlier entry of a tree hides, by a path the verifier follows; along trees in which no name begins another it finds any note there is |
| `ReceiptInclusion.MixedTreeHidesANote` | src/proof-binding.js:164-166 | a tree in which a note is there and is not found, because a subtree whose name begins its name comes first |
| `ProofRoundTrip.VerifyBindings` | src/proof-binding.js:306-346 | no problem is reported exactly when the objects hash right, the inventory holds, coverage is quiet, every receipt's inclusion is accepted and the anchors agree |
| `ProofRoundTrip.VerifyProofBundle` | src/proof-bundle.js:603-711 | the whole verdict: a bundle is accepted exactly when its bindings raise no problem, its own evidence gives every change the verdict it states and no commit is listed twice |
| `ProofRoundTrip.BuildInclusions` | src/proof-binding.js:242-260 | a receipt is included exactly when its note is found, by the path found; something else in a note's place ends it |
| `ProofRoundTrip.BuildPackage` | src/proof-binding.js:181-274 | whatever else the repository holds: a receipt is left out precisely when its note is not found, and what is built raises no problem if and only if every note found says what the evidence says and the first receipt that claims a change has its note found |
| `ProofRoundTrip.VisibleNotesRoundTrip` | src/proof-binding.js:151-273 | that is so when every receipt was read from a note that no earlier entry hides |
| `ProofRoundTrip.HiddenNoteBreaksTheRoundTrip` | src/proof-binding.js:164-166 | an input on which it is not: the note holds what the evidence says and is hidden, so the receipt is left out and its claim fails |
| `ProofRoundTrip.ProduceAndVerify` | src/proof-binding.js:181-346 | the round trip for a linear range: the verifier accepts what was produced if and only if the notes are found and no change rests on an amended identity alone; without problems it proves exactly the changes the planner covered |
| `IdentityAudit.Components.Find` | src/identity-audit.js:50-61 | terminates at the representative; path compression changes no commit's representative |
| `IdentityAudit.Components.Union` | src/identity-audit.js:64-68 | afterwards two commits have one representative exactly when the edges, with the new one, link them |
| `IdentityAudit.ClassesAfter` | src/identity-audit.js:64-68 | joining the classes of an edge's ends keeps representatives and links in agreement |
| `IdentityAudit.Spread` | src/identity-audit.js:167-175 | the bearers of an id fall in more than one group exactly when two of them are not linked |
| `IdentityAudit.CommitsByChangeId` | src/identity-audit.js:156-165 | a commit is listed under an id exactly when it carries that id |
| `IdentityAudit.AuditCollisions` | src/identity-audit.js:122-188 | a collision is reported for an id exactly when two of its bearers have no chain of identity-preserving applications between them |
| `IdentityAudit.EdgesAre` | src/identity-audit.js:32-45 | two commits are joined by an edge exactly when some recorded application names both and one identity for both |
| `GitSession.SessionWorker.ParseResponse` | src/git-session-worker.js:88-189 | everything the buffer already answers is answered, in request order, and nothing else is consumed |
| `GitSession.SessionWorker.OnData` | src/git-session-worker.js:191-199 | a chunk has the effect of parsing the buffer with the chunk appended |
| `GitSession.FrontStays` | src/git-session-worker.js:134-171 | an answer that has arrived whole is not changed by what follows it |
| `GitSession.ChunksDoNotMatter` | src/git-session-worker.js:191-199 | for any requests and any way of cutting a stream, the answers, the remaining requests and the buffer are those of the whole stream at once |
| `GitSession.ReadGitObjects` | src/git.js:839-889 | the one-shot reader gives all the answers or fails on anything malformed or truncated |
| `GitSession.WorkerAgreesWithOneShot` | src/git-session-worker.js:88-199 | the worker answers every content request in order, with the same results, exactly when the one-shot reader does |
| `GitSession.ReadsWhatWasWritten` | src/git.js:853-887 | objects of any bytes, newlines and header-like lines included, are read back exactly |
| `GitSession.WorkerReadsWhatWasWritten` | src/git-session-worker.js:88-189 | for any mixture of requests for descriptions and for bytes, of objects that are there or missing, the worker gives every request what it is owed, in order, and keeps nothing in its buffer |
| `GitSession.MalformedIsRejected` | src/git-session-worker.js:121-169 | a line that is neither a header nor a missing one rejects its request and is passed over; so do bytes that do not end where the header says, from where they should |
| `GitSession.HeaderIs` | src/git-session-worker.js:102-121 | a line says missing exactly when it ends so, and describes an object only as a hex id, a type without blanks and a decimal size |
| `GitSession.HeaderReadsBack` | src/git-session-worker.js:102-121 | the header written for an object or for a missing one reads back as it, sizes of any length included |

## Left out

- Git, processes, threads, files and clocks: a merge is a function, a ref transaction is one step, staleness of a lock is nondeterministic, and fresh ids are parameters.
- Hashes and serialized bytes: object ids and record digests are taken as collision-free, and a digest is the attachment and the record it covers.
- Semantic spec merges: a conflicted path has recorded candidates and no semantic outcome, so `semantic-spec-merge` steps do not occur.
- Messages, authors and minted ids of rewritten commits: a commit is known by what it replaced, its tree and its parents; `RebaseMessages` treats the messages on their own.
- A process killed inside a step of a rebase: the source does not resume one either, it can only be aborted, which `RebasePublication` and `RebaseAftermath` cover; the machine's own states are those between writes of the journal.
- Target overlays beyond the two checks that precede publication, and the overlay an abort puts back.
- Branch and worktree guards of continue and abort, and the refusal of a merge or pick that Git no longer has pending.
- The range form of a rebase plan (`--from`), plan fingerprints, and which stored forecast is accepted for a plan.
- RebaseInteractive.ResolveInteractiveProgram: the built-in sort is taken as ordering by the place in the change list; which of several refusals is reported first is not modelled.
- RebaseMessages.AbsorbedMessage: blanks are the ASCII ones, the no-break space, the byte order mark and the two line separators; an id is assumed to be one trimmed line, which every minted and every `git:` id is.
- Forecasts.SimulateWithMergeTree: a session failure of any kind is one answer that never comes; the reasons told to the caller are not told apart.
- RebaseOperations.RebaseOperation.constructor: the journal is the object's fields, so an unreadable or foreign journal file does not occur.
- The size bounds on a notes container: a container over a bound reads as one this build does not read, and is refused like it.
- NotesProtocol.RetentionStaysClosed: an import's envelope must list every record its staged notes hold, which an export does; quarantined extras in a foreign envelope are not covered.
- NotesProtocol.NothingIsLost: writers outside Causet are not steps of the model; the checked update refuses their races, but one that moved the ref backwards and on again would not be noticed.
- The reentrancy of the notes lock within one process, and a claim file that is still being written.
- GitCarriers.CommitWithParents: parents are not sorted by id, which changes which group a parent falls in and nothing stated.
- GitCarriers.BuildRetentionCommit: a commit kept as a parent counts as one object; the history below it is reachable too.
- NoteTrees.ReplaceNote: the order in which entries are written back, and malformed tree bytes, are not modelled.
- NoteTrees.SessionNoteEntries: the listing's order, and the case that the object session is unavailable, are not modelled.
- Exchange.RunsKeepIdsAndContent: each publication is one step; that concurrent ones behave so is what `NotesProtocol` proves.
- Dispositions.LocalMetadata.DisposeConflict: a process killed between clearing a dispute and filing the decision is a step of the runs in `Exchange`, not of this method.
- Lineage comparison, envelope manifests and payload hashes, capability negotiation and name localization: lookups and filters.
- MergePlan.ReceiptCoverage: structural validity and presence of referenced objects are not modelled; every fact is usable.
- Provenance, workspaces, specs, schemas, the command line, formatting and benchmarks.
- ProofBundle.BuildBindings: the size bound is not modelled; ranges with merges are not covered, because the verifier walks past the base on their other side.
- ProofRoundTrip.BuildPackage: the evidence has one record for each id, as accepted records do; a missing notes tip, or something other than a commit in its place, is not modelled.
- ProofRoundTrip.VerifyProofBundle: the bundle's hash, its counts and the comparison with a repository, bases included, are not part of the verdict.
- Quarantine.RejectedIsParkedIff: decisions are filed one at a time; `DispositionRegistry` has the interleavings of their reads and writes.
- ProofBinding.VerifyInventory: problems are counted, not worded; conclusion tiers are left out.
- RebaseAftermath.UntouchedAbortIsRefusedIff: a process killed inside Git's own `reset --hard`, or after the overlay is back and before the journal says so, leaves dirt that is refused like any other; neither is a state of the machine.
- IdentityAudit.AuditCollisions: the other findings of the audit are filters over records and are left out, as is the order of the report.
- GitSession.SessionWorker.OnData: requests are all written before their answers arrive; failures of the child process and the shared response buffer are not modelled.
