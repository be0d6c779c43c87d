# Verified model of the pipeline engine

A Dafny model of the durable protocols and of the text and record
transformations of a label-driven pipeline engine, with proofs of what they
promise. `dafny verify dfyconfig.toml` checks all of it.

- **Candidate integrity** (`RepoPath`, `CandidateManifest`, `Classification`,
  `IntegrityRecords`, `IntegrityStore`, `IntegrityHistory`): a write-ahead
  protocol around a mutation that moves the head of a branch. Manifests are
  given a meaning by path-to-blob trees. The store is a class; each write may
  land, fail or crash, and ghost fields keep every durable state and every call
  of the mutation, so that crash safety is a statement about all pairs of states
  of a history.
- **Candidate setup lock** (`SetupLock`, `SetupUnlink`, `SetupOutcome`,
  `SetupSteps`): any number of callers, their crashes
  and their installers, as a step relation over the lock file and the ready record.
- **Configuration** (`ScriptExpansion`, `ScriptMeaning`, `TextLines`,
  `ConfigMerge`, `ConfigSync`, `ConfigReplace`, `ConfigStable`, `WaterFill`): the expander of
  trusted package scripts, with a shell syntax and semantics to state that it
  preserves meaning; the append-only block merge and the block rewrite; the budget
  of the conventions excerpt.
- **Design records** (`DesignRecord`, `DesignBound`, `DesignValidate`,
  `DesignProblems`, `JsonScan`): validation, bounding to the limits, and the scanner that finds JSON
  objects in model output.
- **Managed ignore block** (`ManagedBlock`): the text lens on `.gitignore`.
- **Detached wrapper** (`ProcessTree`, `WrapperShutdown`): the process-group
  search, and the shutdown as a machine whose runs are all interleavings of its handlers.
- **Dependency grammar** (`DependencyGrammar`, `DependencyRoundTrip`,
  `DependencySection`, `DependencyHeading`): the parser, and printers of phrases and
  sections for it.

## Where the code and its documentation disagree

The model follows the code. Each case has an input that shows it and the condition
under which the promise holds.

- A copy entry marks its source as deleted (candidate-integrity.ts:381-387): the
  overlay gives the candidate tree if and only if no copied file lives on unlisted
  (`OverlayTheorem`, `CopyLosesItsSource`).
- Normalizing a path is not idempotent (`NormalizeTwiceIff`, `NormalizeNotIdempotent`).
- Both ends of a rename are compared with the scope only through the first entry that mentions a
  differing path, so a chain of renames can pass with one end outside the scope
  (`RenameCheckIff`, `ChainedRenameEscapes`).
- Mutation ids that start with `budget-` are skipped by the gate's record scan
  (`HiddenRecordDoesNotBlock`, `HiddenIff`).
- A call whose disposition cannot be stored ends unverified without spending the
  retry budget. The bound of 1 + N holds for the computed class; for the reported
  one it holds if no disposition write of a harmless call fails (`PerformAll`,
  `EndedBadlyIsSpentPlusFree`, `EscalationsAreFree`).
- A reclaim reads the lock, probes what it read, unlinks and creates, and reclaims can
  interleave so that two installers run (`TwoStepReclaimBreaksExclusion`). A second
  installer can come up after an unlink if and only if somebody held the lock
  (`UnlinkBreaksIff`); without such an unlink none does (`AtMostOneInstaller`).
- A leading draft can hide the complete record after it from the inline scan: exactly
  when one of its objects that the scan looks at is cut inside a string
  (`DraftHidesNothingIff`, `CutStringHidesAnObject`).
- The configuration merge keeps lines byte for byte except trailing whitespace of
  the last block (`SyncKeepsBlocksIff`, `SyncCanTrimABlock`).
- Not every section that fits is included whole (`AllIncludedIff`,
  `FittingSectionCanBeClipped`); sections of at most one share each are
  (`CompactSectionsAreWhole`).
- A truncated text can exceed its bound when the bound is shorter than the marker
  (`TruncateFitsIff`, `TruncateCanOverflow`).
- The wrapper's own group is signalled last only if it is numbered like the root or
  is the only one (`OwnGroupLastIff`, `OwnGroupSignalledFirst`).
- The issue lock can be released beside a live inner process, after SIGKILL and both
  waits, and in no other case (`ReleasedBesideLiveInner`, `UnconfirmedRelease`).

## Model

| member | source | states |
|---|---|---|
| `RepoPath.NormalizeRepoPath` | core/scripts/candidate-integrity.ts:303-308 | the loop-based normalization computes the specification function `Normalize` |
| `RepoPath.NormalizeShape` | core/scripts/candidate-integrity.ts:300-308 | a normalized path has no backslash, no leading slash and no trailing whitespace |
| `RepoPath.NormalizeTwiceIff` | core/scripts/candidate-integrity.ts:300-308 | normalizing twice gives the same path if and only if, in the trimmed input with forward slashes, no run of `./` and then slashes is followed by whitespace and none that ends in a slash is followed by `./` |
| `RepoPath.NormalizeNotIdempotent` | core/scripts/candidate-integrity.ts:303-308 | the input `/./a`, on which normalization is not idempotent |
| `RepoPath.FreezeMonotone` | core/scripts/candidate-integrity.ts:314-341 | declaring more paths and directories never makes the frozen scope narrower |
| `RepoPath.ScopeMeaning` | core/scripts/candidate-integrity.ts:314-341 | a path is in the frozen scope if and only if it is a declared path, normalized, or lies below a declared directory, normalized, given with or without its last slash |
| `RepoPath.FrozenDeclares` | core/scripts/candidate-integrity.ts:314-341 | freezing a clean scope a second time, as a stored record does, declares the same paths |
| `CandidateManifest.BuildManifestFromDeps` | core/scripts/candidate-integrity.ts:619-711 | one entry per listed item in order, with normalized paths, the content before unless it was added, the content after unless it was deleted, and the incomplete flag exactly if one it should have is missing; one incomplete entry when the listing throws |
| `CandidateManifest.CandidateSideMap` | core/scripts/candidate-integrity.ts:365-393 | the loop computes the candidate-side map, or null as soon as one entry has no usable blob |
| `CandidateManifest.SideMapMeaning` | core/scripts/candidate-integrity.ts:365-393 | for distinct destinations the map is null if and only if an entry that is not a deletion is incomplete or has no content; otherwise its keys are the listed paths and the sources of renames and copies, with each listed path's content or deletion and unlisted sources deleted |
| `CandidateManifest.SideMapOrderIndependent` | core/scripts/candidate-integrity.ts:365-393 | with distinct destinations any reordering of the entries gives the same map |
| `CandidateManifest.FaithfulSideMap` | core/scripts/candidate-integrity.ts:365-404 | keys and values of the map built from a truthful listing, read off the candidate tree |
| `CandidateManifest.OverlayTheorem` | core/scripts/candidate-integrity.ts:365-393 | for every truthful listing, overlaying the map on the base tree gives the candidate tree if and only if no copied file lives on unlisted |
| `CandidateManifest.OverlayWithoutCopies` | core/scripts/candidate-integrity.ts:381-387 | for listings of additions, modifications, deletions and renames the overlay always gives the candidate tree |
| `CandidateManifest.CopyLosesItsSource` | core/scripts/candidate-integrity.ts:381-387 | a copy whose overlay deletes the file it was copied from |
| `CandidateManifest.SideMapIsTreeDiff` | core/scripts/candidate-integrity.ts:365-404 | when every listed path really changes, the map is exactly the difference of the two trees, computed without a listing |
| `CandidateManifest.OverlayDeterminesDiff` | core/scripts/candidate-integrity.ts:365-404 | a map of changed paths that overlays one tree to another is their difference |
| `Classification.ClassifyTransition` | core/scripts/candidate-integrity.ts:433-538 | the class is unverified if and only if a manifest is missing or has a gap; otherwise equivalent if and only if no path differs, an expansion for restack and rebase, expected if and only if every compared path is declared, and an expansion otherwise; the reason names exactly the differing paths of an expansion found by comparing |
| `Classification.ClassifyIsRight` | core/scripts/candidate-integrity.ts:433-538 | the same of the specified classification, for all manifests, scopes and methods |
| `Classification.AcceptedIff` | core/scripts/candidate-integrity.ts:484-538 | a comparable change by a method with a scope is accepted if and only if every path the classifier compares is one of the declared paths or below a declared directory |
| `Classification.GapIff` | core/scripts/candidate-integrity.ts:410-420 | what makes a manifest incomparable, said of its entries |
| `Classification.FailedListingIsUnverified` | core/scripts/candidate-integrity.ts:630-650 | a listing that threw makes every classification unverified |
| `Classification.SpellingDoesNotMatter` | core/scripts/candidate-integrity.ts:365-393 | manifests whose paths are spelled differently but normalize alike have the same map and the same class |
| `Classification.EquivalentMeansSamePatch` | core/scripts/candidate-integrity.ts:475-482 | `semantically_equivalent` means both candidates are their own base overlaid with one same map; for tight listings, exactly when the tree differences agree |
| `Classification.ExpectedIff` | core/scripts/candidate-integrity.ts:484-538 | `expected_scoped_change` holds if and only if the maps are comparable and differ, the method is neither restack nor rebase, the scope is not empty and every path it compares with the scope is in it |
| `Classification.ScopeSound` | core/scripts/candidate-integrity.ts:433-538 | an accepted change has every differing path declared, as it is or normalized once more, or both ends of the rename that mentions it first, in terms of the declared paths and directories; it never arises for restack, rebase or an empty scope; only the empty path can pass, with a rename that has no old path |
| `Classification.ScopeMonotone` | core/scripts/candidate-integrity.ts:314-341 | a wider declared scope never turns an accepted change into an expansion |
| `Classification.ExpansionNamesAPath` | core/scripts/candidate-integrity.ts:484-538 | an expansion always names a differing path, so a mutation that changed nothing is never one |
| `Classification.RenameCheckIff` | core/scripts/candidate-integrity.ts:433-538 | every accepted change has both ends of every changed rename in scope if and only if nothing can be accepted or the first entry that mentions each differing path covers those ends |
| `Classification.ChainedRenameEscapes` | core/scripts/candidate-integrity.ts:433-538 | a chain of two renames whose first source is outside the scope and is accepted |
| `IntegrityRecords.LoadAuthoritativeInvalidationRecords` | core/scripts/candidate-integrity.ts:954-1020 | index rows followed by the record rows whose key is new |
| `IntegrityRecords.ReviewBlockedByIntegrityInvalidation` | core/scripts/candidate-integrity.ts:1049-1084 | the backward scan finds a blocking row exactly when one exists, and returns one |
| `IntegrityRecords.ReadinessBlockedByIntegrityInvalidation` | core/scripts/candidate-integrity.ts:1095-1112 | the same for the readiness gate |
| `IntegrityRecords.DurableRecordBlocks` | core/scripts/candidate-integrity.ts:954-1020 | in a good store every terminal record that is not equivalent blocks both gates for its head, whether or not its index row was written |
| `IntegrityRecords.OldReviewBlocked` | core/scripts/candidate-integrity.ts:1074-1083 | a review of the head before such a mutation is blocked on every other head |
| `IntegrityRecords.FreshReviewUnblocks` | core/scripts/candidate-integrity.ts:1049-1112 | a review of the current head is never blocked, nor is readiness after it, whatever the store holds |
| `IntegrityRecords.BlockedOnlyByCause` | core/scripts/candidate-integrity.ts:1049-1084 | in a good store a blocked review has a row or terminal record, not equivalent, that came to this head or left the reviewed one |
| `IntegrityRecords.MergeEligibleIff` | core/scripts/candidate-integrity.ts:554-613 | a terminal record is eligible for a merge if and only if it is semantically equivalent |
| `IntegrityRecords.SameCommitIff` | core/scripts/candidate-integrity.ts:1054-1061 | commits are compared letter by letter without regard to case |
| `IntegrityRecords.MovedCandidateBlocksReadiness` | core/scripts/candidate-integrity.ts:554-613 | an equivalent change that moved the head still blocks readiness |
| `IntegrityRecords.AppendingNeverUnblocks` | core/scripts/candidate-integrity.ts:1004-1020 | between good states with the same records, appending index rows never unblocks a review |
| `IntegrityRecords.BlockingIgnoresOrder` | core/scripts/candidate-integrity.ts:1049-1084 | the gates depend on the set of rows only |
| `IntegrityRecords.QuietRowShadows` | core/scripts/candidate-integrity.ts:1004-1020 | a quiet row with the key of an unverified record would hide it; no good state holds such a pair |
| `IntegrityRecords.HiddenRecordDoesNotBlock` | core/scripts/candidate-integrity.ts:954-998 | a record whose file name the scan skips blocks nothing |
| `IntegrityRecords.BudgetIdIsHidden` | core/scripts/candidate-integrity.ts:954-998 | every id that starts with `budget-` is such a name |
| `IntegrityRecords.HiddenIff` | core/scripts/candidate-integrity.ts:959-964 | the scan skips a mutation if and only if its id is `active` or starts with `budget-`, whatever characters the id has |
| `IntegrityRecords.SanitizedIff` | core/scripts/candidate-integrity.ts:796-799 | an id is its own file name if and only if it has only letters, digits, dots, underscores and dashes |
| `IntegrityRecords.RunBecomesUnderscore` | core/scripts/candidate-integrity.ts:796-799 | every maximal run of other characters becomes one underscore |
| `IntegrityStore.Store.PersistMutationRecord` | core/scripts/candidate-integrity.ts:864-884 | record first, then the active pointer; either write may fail or crash, and every state in between stays good |
| `IntegrityStore.Store.AppendInvalidationRecord` | core/scripts/candidate-integrity.ts:916-927 | one row is appended, or nothing changes |
| `IntegrityStore.Store.RecordBudgetFailure` | core/scripts/candidate-integrity.ts:1159-1178 | the failure count of one subject grows by one; a failed write reaches the caller |
| `IntegrityStore.Store.PersistClassifiedDisposition` | core/scripts/candidate-integrity.ts:1027-1037 | classified record, then one row with both heads and the flags of the class, unless the candidate is equivalent and its head stayed; it fails exactly when one of these writes does, and a crash between them leaves a good state |
| `IntegrityStore.Store.RunCandidateMovingMutation` | core/scripts/candidate-integrity.ts:1251-1578 | `mutate` is called if and only if both captures and both durable records succeeded and budget is left, once, under a durable claim with the manifest and head captured before. Of a completed call: the class its manifests, declared scope and method call for; the stored record with that class, the pre-manifest and both heads; the index row; the failure count; exhaustion; and escalation exactly when a disposition write fails, with an unverified record and row if the retry lands. Without faults it completes |
| `IntegrityStore.RunClassMeaning` | core/scripts/candidate-integrity.ts:1256-1440 | the class of a call on a clean declared scope, said of the options and what the callbacks answer: unverified if the head cannot be read, otherwise as the classifier is specified on the declared paths and directories |
| `IntegrityStore.RecordClassMeaning` | core/scripts/candidate-integrity.ts:1618-1808 | the same of a recovered record, on its own durable pre-manifest, stored scope and method |
| `IntegrityStore.Store.HydrateAndCompleteIncompleteMutation` | core/scripts/candidate-integrity.ts:1618-1808 | recovery never calls `mutate` and writes nothing for a terminal record; an incomplete one settles with the class its own pre-manifest, scope and method call for against the branch as it is now, with its disposition and index row, or unverified if that cannot be stored |
| `IntegrityStore.WriteKeepsGood` | core/scripts/candidate-integrity.ts:864-884 | a permitted record write keeps the store good and loses nothing durable |
| `IntegrityStore.HistoryGrows` | core/scripts/candidate-integrity.ts:1251-1808 | one more durable state extends a history if it keeps what the last one held |
| `IntegrityHistory.PreManifestNeverChanges` | core/scripts/candidate-integrity.ts:1287-1380 | over any runs, failed writes, crashes and recoveries, a durable pre-manifest and its head never change |
| `IntegrityHistory.MutationsKeepTheirClaim` | core/scripts/candidate-integrity.ts:1346-1380 | every mutation ever started ran under a durable claim whose pre-manifest is still there |
| `IntegrityHistory.CrashSafeBlocking` | core/scripts/candidate-integrity.ts:954-1112 | in every later state of every history, a terminal record that is not equivalent blocks both gates for its head unless the review is bound to it |
| `IntegrityHistory.Perform` | core/scripts/candidate-integrity.ts:1314-1345 | one call or recovery, completed or not: its end, the failure count and the mutations called |
| `IntegrityHistory.PerformAll` | core/scripts/candidate-integrity.ts:1129-1182 | over any sequence of runs and recoveries with the same N on one subject, at most 1 + N completed calls both call `mutate` and are classified as expansion or unverified; at most 1 + N end so if no disposition write of a harmless one fails; and no call, completed or not, calls `mutate` once the budget is spent |
| `IntegrityHistory.EndedBadlyIsSpentPlusFree` | core/scripts/candidate-integrity.ts:1483-1533 | a call that moved the head ends badly if and only if its computed class is bad or a write of its disposition fails, so calls that end badly are those that spent the budget plus the harmless ones with a failed write |
| `IntegrityHistory.NoFreeEscalationsIff` | core/scripts/candidate-integrity.ts:1483-1533 | there are no calls of the second kind if and only if every disposition write of a harmless call holds |
| `IntegrityHistory.EscalationsAreFree` | core/scripts/candidate-integrity.ts:1483-1533 | for every k, a history of k calls that all mutate and end unverified by escalation without touching the budget |
| `ScriptExpansion.ExpandTrustedNamedScript` | core/scripts/config.ts:2694-2729 | the method computes the specified expansion of a named script with its pre and post scripts |
| `ScriptExpansion.ExpandTrustedPackageScriptBody` | core/scripts/config.ts:2738-2759 | the cursor loop computes the specified expansion of a body |
| `ScriptExpansion.ExpandTokensConcat` | core/scripts/config.ts:2738-2759 | the expansion of a concatenation is the concatenation of the expansions |
| `ScriptExpansion.DoomedFails` | core/scripts/config.ts:2694-2759 | a call path to a missing script, a cycle or a leftover package-manager token makes the expansion null |
| `ScriptExpansion.FailureIsDoomed` | core/scripts/config.ts:2694-2759 | every null expansion has such a path |
| `ScriptExpansion.ExpansionFailsIff` | core/scripts/config.ts:2694-2759 | the expansion is null if and only if such a path starts at the name; a leftover word is `npm`, `pnpm` or `yarn` at the start or end of the text or next to a character that cannot be part of a word |
| `ScriptExpansion.PmWordForm` | core/scripts/config.ts:2680-2686 | the residual test holds of a text if and only if it has the form of such a word between a prefix and a suffix |
| `ScriptExpansion.ExpansionNamesNoManager` | core/scripts/config.ts:2738-2759 | no command of an expansion names a package manager and no runner is left in it |
| `ScriptExpansion.ReachedScriptsAreClean` | core/scripts/config.ts:2694-2759 | no command of any script that a successful expansion reaches names one |
| `ScriptMeaning.ParseAfterPrint` | core/scripts/config.ts:2694-2759 | the shell reads back every script that is printed |
| `ScriptMeaning.NamedRefines` | core/scripts/config.ts:2694-2729 | expanding the text of a script prints the expansion of its syntax tree |
| `ScriptMeaning.NamedMeaning` | core/scripts/config.ts:2694-2729 | the expanded tree runs as pre, main and post run against the base scripts |
| `ScriptMeaning.ExpansionPreservesMeaning` | core/scripts/config.ts:2694-2759 | for every candidate scripts map and every meaning of literal commands, the expanded text parses and has the same trace, state and exit status as the npm-style run against the base scripts |
| `SetupLock.StepKeepsLockInv` | core/scripts/candidate-engine-readiness.ts:477-604 | every step of every caller keeps the lock invariant, with a reclaim in one step or in the code's read, probe, unlink and create, if an unlink happens while nobody holds the lock |
| `SetupLock.RunKeepsLockInv` | core/scripts/candidate-engine-readiness.ts:477-604 | so does every run of such steps |
| `SetupLock.AtMostOneInstaller` | core/scripts/candidate-engine-readiness.ts:332-604 | over every interleaving of callers, crashes and installers, with a reclaim in one step or in the code's read, probe, unlink and create, at most one installer group is alive as long as each unlink happens while nobody holds the lock |
| `SetupLock.AtMostOneInstallerAtomic` | core/scripts/candidate-engine-readiness.ts:332-604 | with a reclaim as one step this holds of every run |
| `SetupLock.UnlinkKeepsIff` | core/scripts/candidate-engine-readiness.ts:582-586 | an unlink keeps the invariant if and only if no installer is alive and no running caller holds the lock |
| `SetupLock.ReclaimableIsUnheld` | core/scripts/candidate-engine-readiness.ts:565-583 | a lock that is gone, or whose owner and published group are gone, is held by nobody |
| `SetupUnlink.HeldUnlinkBreaks` | core/scripts/candidate-engine-readiness.ts:582-586 | from every state in which somebody holds the lock, an unlink has a continuation without another unlink that ends with two live installers |
| `SetupUnlink.UnlinkBreaksIff` | core/scripts/candidate-engine-readiness.ts:582-586 | after an unlink two installers can be alive without another unlink if and only if somebody held the lock |
| `SetupLock.AbandonedForEver` | core/scripts/candidate-engine-readiness.ts:536-604 | a lock left without a published group by a dead owner is changed only by an unlink that a caller decided by an earlier read, and with a reclaim as one step no reclaim occurs |
| `SetupLock.AbandonedIsNotReclaimed` | core/scripts/candidate-engine-readiness.ts:536-604 | in every run with a reclaim as one step such a lock is never reclaimed and never changes |
| `SetupLock.TwoStepReclaimBreaksExclusion` | core/scripts/candidate-engine-readiness.ts:548-584 | a run with separate unlink and create in which two reclaimers run two installers at once |
| `SetupLock.RunKeepsEventInv` | core/scripts/candidate-engine-readiness.ts:332-398 | every event of every run is justified by earlier ones, with a reclaim in one step or in the code's four, however reclaims interleave |
| `SetupLock.ReadyRecordProvenance` | core/scripts/candidate-engine-readiness.ts:235-279 | over every run, with the code's reclaim by an earlier read or with one step: a ready record exists only after an installer exited 0 and a later clean check of its caller; success is returned only after such a record was written for the same digest and a clean check |
| `SetupOutcome.ToldOkIff` | core/scripts/candidate-engine-readiness.ts:332-398 | over every run a finished caller was told ok if and only if it wrote the ready record itself, or found the checkout clean without having installed |
| `SetupOutcome.CleanInstallIsReported` | core/scripts/candidate-engine-readiness.ts:377-398 | a run from an empty state directory in which the caller installs, writes the record, unlocks and is told ok |
| `SetupOutcome.ReadyIsReported` | core/scripts/candidate-engine-readiness.ts:518-560 | from every state a caller that looks for a record and has one is told ok two steps later |
| `SetupSteps.SpawnAfterCleanCheck` | core/scripts/candidate-engine-readiness.ts:458-604 | over every run an installer is started only by a caller that took the lock and after that found the checkout clean |
| `SetupSteps.EndingStepIsLast` | core/scripts/candidate-engine-readiness.ts:332-398 | a caller whose write threw or was torn, or that let go of the lock, does nothing more in any run |
| `SetupSteps.EndedIff` | core/scripts/candidate-engine-readiness.ts:332-604 | over every run a caller has ended if and only if it let go of the lock, a write of it threw or was torn, it checked the checkout for a record, its wait ended without one, or it found a lock that it can neither wait for nor reclaim |
| `SetupSteps.TornLockStays` | core/scripts/candidate-engine-readiness.ts:332-604 | a lock whose write was cut short stays in every run without an unlink decided before; nobody takes it over |
| `SetupSteps.OwnerIsAwaited` | core/scripts/candidate-engine-readiness.ts:548-561 | while a live owner keeps the lock and no record is ready, a caller that neither fails nor gives up neither takes the lock nor ends |
| `SetupSteps.OnlyOwnersAreAwaited` | core/scripts/candidate-engine-readiness.ts:536-604 | in a run in which no live owner holds the lock, nobody starts to wait |
| `SetupSteps.StillWaitingIff` | core/scripts/candidate-engine-readiness.ts:400-456 | over every run a waiter still waits if and only if none of its polls saw its record ready, the lock gone or its time up |
| `SetupLock.WaitForOwner` | core/scripts/candidate-engine-readiness.ts:400-456 | the waiter stops after a bounded number of polls; it times out exactly when every poll saw a working owner until the deadline, and each other result says exactly what the last poll saw, with the record read again when the lock is gone |
| `ConfigMerge.KeyIgnoresPadding` | core/scripts/config.ts:4699-4707 | trailing whitespace does not change the key of a line |
| `ConfigMerge.TopLevelKeyIff` | core/scripts/config.ts:4699-4707 | a line declares a key if and only if, after one `#` and one space at most, it starts with that identifier and a colon |
| `ConfigMerge.CommentedDeclaresSame` | core/scripts/config.ts:4699-4707 | `# key:`, `#key:` and `key:` declare the same key |
| `ConfigMerge.SplitTopLevelBlocks` | core/scripts/config.ts:4721-4746 | the loop builds the keys in order of first appearance and the last text of each |
| `ConfigMerge.BlocksConcat` | core/scripts/config.ts:4721-4746 | the blocks of two texts, the second starting with a key, are the blocks of both |
| `ConfigMerge.BlocksShape` | core/scripts/config.ts:4721-4746 | every block starts with its key line, holds no other key line and only lines of the text |
| `ConfigMerge.BlankLinesInvisible` | core/scripts/config.ts:4721-4746 | blank lines at the end do not change the blocks |
| `ConfigMerge.BlockTextSplit` | core/scripts/config.ts:4721-4746 | a block's text splits into that one block |
| `ConfigSync.SplitTrimEnd` | core/scripts/config.ts:4933-4940 | cutting trailing whitespace of a file trims its last block and nothing else |
| `ConfigSync.SyncBlocks` | core/scripts/config.ts:4933-4940 | the candidate's blocks are the current ones, the last one trimmed, then the missing ones of the render |
| `ConfigSync.CandidateMap` | core/scripts/config.ts:4933-4940 | keys and block map of the candidate: the current ones plus exactly the missing keys with their rendered texts |
| `ConfigSync.SyncAppends` | core/scripts/config.ts:4933-4940 | the candidate starts with the current text without trailing whitespace and adds exactly the keys of the render that the file lacks, in the order of the render, with the render's texts |
| `ConfigSync.SyncIdempotent` | core/scripts/config.ts:4933-4940 | merging a second time changes nothing |
| `ConfigSync.SyncKeepsBlocksIff` | core/scripts/config.ts:4922-4940 | every current block keeps its text if and only if nothing is missing, there is no block, or the last text of the file's last key has no trailing whitespace |
| `ConfigSync.SyncCanTrimABlock` | core/scripts/config.ts:4922-4940 | a one-line file that loses a trailing space |
| `ConfigReplace.FindBlock` | core/scripts/config.ts:4891-4907 | the loop finds the first block of the key and where the next key starts |
| `ConfigReplace.ReplaceOrAppendTopLevelBlock` | core/scripts/config.ts:4891-4920 | the method writes the lines before the block, the new block, and everything from the next key on |
| `ConfigReplace.ReplaceChangesOneBlock` | core/scripts/config.ts:4887-4920 | rewriting a present key replaces the text of its first block and leaves every other block as it was |
| `ConfigReplace.ReplaceAppends` | core/scripts/config.ts:4905-4908 | rewriting an absent key appends its block after the current ones, the last one trimmed |
| `ConfigReplace.ReplaceUpdatesMap` | core/scripts/config.ts:4891-4920 | for a key that occurs once the block map changes at that key only |
| `ConfigStable.ReplaceIdempotent` | core/scripts/config.ts:4887-4920 | rewriting a key with the same block a second time leaves every byte of the file as it is, whether the key was there or not |
| `WaterFill.DecideFits` | core/scripts/config.ts:3081-3097 | a chosen piece costs no more than it is allowed, and 72 characters are enough for one |
| `WaterFill.ClippedMeaning` | core/scripts/config.ts:3081-3097 | a section that does not fit is omitted if and only if it has less than 72 characters; otherwise it is cut where its room ends, less the whitespace before the cut |
| `WaterFill.SharesKept` | core/scripts/config.ts:3077-3097 | one step leaves the minimum shares it reserved for the later sections |
| `WaterFill.FillSections` | core/scripts/config.ts:3069-3102 | the appended text of all sections is within the cap, at least min(n, cap / 120) sections are represented, and the rest is disclosed |
| `WaterFill.AllIncludedIff` | core/scripts/config.ts:3056-3097 | all sections are whole if and only if each fits together with the shares reserved at its turn |
| `WaterFill.CompactSectionsAreWhole` | core/scripts/config.ts:3056-3097 | sections of at most one share each that fit together are all whole |
| `WaterFill.FittingSectionCanBeClipped` | core/scripts/config.ts:3056-3097 | six sections that fit together, the first of which is clipped |
| `DesignRecord.TruncateFitsIff` | core/scripts/design-gate.ts:373-380 | the truncated text is within the bound if and only if the text was already or the bound has room for the marker |
| `DesignRecord.TruncateCanOverflow` | core/scripts/design-gate.ts:373-380 | a text that is longer than its bound after truncation |
| `DesignRecord.TruncateTwice` | core/scripts/design-gate.ts:376-380 | truncating again is truncating once at the smaller bound |
| `DesignRecord.ReclipAccounts` | core/scripts/design-gate.ts:392-414 | entries kept and entries reported dropped are all the entries |
| `DesignRecord.ReclipTwice` | core/scripts/design-gate.ts:392-414 | reclipping again only lowers the cap |
| `DesignBound.DropTrailing` | core/scripts/design-gate.ts:458-464 | the loop keeps the most decisions that fit, or one |
| `DesignBound.ShrinkFields` | core/scripts/design-gate.ts:471-480 | the halving loop terminates, at the first cap that fits or at the marker's length |
| `DesignBound.BoundDesignDecisionRecord` | core/scripts/design-gate.ts:422-500 | the method computes the specified outcome and counters |
| `DesignBound.BoundConserves` | core/scripts/design-gate.ts:457-500 | decisions kept plus both drop counters is the original count, and array entries of the surviving decisions plus the dropped ones are the original entries |
| `DesignBound.BoundClipsOnce` | core/scripts/design-gate.ts:422-500 | the result is within the byte ceiling, and is the first decisions of the record clipped once at a cap that was tried, with whole arrays or arrays of one entry |
| `DesignBound.BoundFields` | core/scripts/design-gate.ts:392-500 | field by field: every text of a surviving decision is the same field of the same decision of the record or, exactly if it is longer than a cap that was tried, a prefix of it and the marker; arrays keep their entries at their indices, all or the first; ids and the version stay |
| `DesignBound.OverAllZero` | core/scripts/design-gate.ts:422-456 | no field is counted as truncated if and only if none is longer than the cap |
| `DesignBound.SilentMeansUnchanged` | core/scripts/design-gate.ts:422-500 | counters that are all zero mean that the record came back unchanged |
| `DesignBound.BoundedRecordIsValid` | core/scripts/design-gate.ts:422-500 | for every valid record and positive limits the result is valid and its ids are the first ones of the record |
| `DesignBound.LimitsErrorIff` | core/scripts/design-gate.ts:482-488 | the limits error is raised if and only if nothing that is tried fits, and then gives the size of the smallest record tried |
| `DesignValidate.ValidateDesignDecisionRecord` | core/scripts/design-gate.ts:193-264 | the method reports the specified problems, in order |
| `DesignProblems.ReportedIff` | core/scripts/design-gate.ts:193-264 | a problem is reported if and only if it is there, at the decision, alternative and field it names, said of the JSON value |
| `DesignProblems.DuplicatesReported` | core/scripts/design-gate.ts:248-262 | an id is reported as repeated if and only if two decisions have it |
| `DesignValidate.RepeatedMeaning` | core/scripts/design-gate.ts:248-262 | the ids reported as duplicates are exactly those that occur twice |
| `DesignValidate.ValidatedIff` | core/scripts/design-gate.ts:189-264 | a candidate has no problems if and only if it reads as a complete valid record |
| `DesignValidate.WrittenRecordValidates` | core/scripts/design-gate.ts:189-264 | a written record passes if and only if the record is valid |
| `JsonScan.FindBalancedJsonObjectEnd` | core/scripts/design-gate.ts:270-298 | the scanner returns the index that closes the object, or -1 if none does |
| `JsonScan.ScannerFindsPrintedObject` | core/scripts/design-gate.ts:270-298 | for every JSON object, with any nesting and escapes, and any prefix and suffix, the scan ends at the last character of the printed object (sections 4 and 7 of RFC 8259) |
| `JsonScan.ExtractSchemaVersionJsonObjects` | core/scripts/design-gate.ts:310-328 | the slices are ordered, disjoint, balanced and hold the schema key |
| `JsonScan.WantsIff` | core/scripts/design-gate.ts:310-328 | an object is taken if and only if the quoted name of the schema key stands in it |
| `JsonScan.ExtractionRecoversObjects` | core/scripts/design-gate.ts:310-328 | from prose around printed objects, in which braces only stand for complete objects without the key, exactly the objects with the schema key are extracted, in order |
| `JsonScan.BrokenDraftDoesNotHide` | core/scripts/design-gate.ts:300-328 | after drafts of any content, complete inner objects included, of which no object the extraction looks at is cut inside a string, exactly what the drafts give alone and the complete objects after them are extracted |
| `JsonScan.CutStringCloses` | core/scripts/design-gate.ts:270-298 | an object cut inside a string is closed by braces in a string value of the object after it |
| `JsonScan.CutStringHides` | core/scripts/design-gate.ts:300-328 | drafts of which such an object is cut inside a string hide a complete object |
| `JsonScan.DraftHidesNothingIff` | core/scripts/design-gate.ts:300-328 | any draft hides nothing, whatever complete objects follow in calm prose, if and only if no object of it that the extraction looks at is cut inside a string |
| `JsonScan.CutStringHidesAnObject` | core/scripts/design-gate.ts:300-328 | the shortest draft that hides an object: a brace and a quote |
| `ManagedBlock.EngineMarkersAreGood` | core/scripts/artifact-ignore.ts:175-176 | the engine's two sentinels have the shape the results need |
| `ManagedBlock.RenderArtifactIgnoreBlock` | core/scripts/artifact-ignore.ts:181-189 | the loop renders the block of the contract |
| `ManagedBlock.CountMeaning` | core/scripts/artifact-ignore.ts:198-200 | the count of a sentinel is 0 exactly when it occurs nowhere, and 1 exactly when it occurs at one place |
| `ManagedBlock.SpanMeaning` | core/scripts/artifact-ignore.ts:207-223 | no block, a block or malformed, exactly by where the sentinels occur |
| `ManagedBlock.NoOverlap` | core/scripts/artifact-ignore.ts:198-223 | occurrences of sentinels never overlap |
| `ManagedBlock.SpliceSpan` | core/scripts/artifact-ignore.ts:313-351 | after a splice the sentinels occur at the spliced block only: none straddles a splice point |
| `ManagedBlock.GitignoreFile.EnsureArtifactIgnoreBlock` | core/scripts/artifact-ignore.ts:313-351 | the file changes by one write or not at all, as specified |
| `ManagedBlock.ManagedBlockLens` | core/scripts/artifact-ignore.ts:313-351 | refusal exactly on malformed sentinels and without a write; otherwise everything outside the span is preserved and a second call finds nothing to do |
| `ManagedBlock.EveryArtifactIgnored` | core/scripts/artifact-ignore.ts:171-189 | after a call that does not refuse, every entry's path is a line of the file, with a slash exactly for directories, and a file is created if and only if there was none |
| `ManagedBlock.SeparatedByBlankLine` | core/scripts/artifact-ignore.ts:325-333 | a block that is appended follows the old content unchanged and one blank line |
| `ManagedBlock.StraySentinelRefused` | core/scripts/artifact-ignore.ts:181-223 | with a sentinel in an entry of the contract the call refuses the block it wrote |
| `ManagedBlock.SecondCallSilentIff` | core/scripts/artifact-ignore.ts:313-351 | a second call finds nothing to do after every write if and only if no entry holds a sentinel |
| `ManagedBlock.Descriptor.WriteAllSync` | core/scripts/artifact-ignore.ts:254-269 | all bytes are written in order, or a proper prefix and an error; with progress every time, all of them |
| `ProcessTree.DescendantProcessGroups` | core/scripts/detach.ts:59-82 | on every table, even with cyclic parent links, the search ends with groups of the tree only, once each, one for each process below the root, the root's own group first |
| `ProcessTree.BelowIsLeast` | core/scripts/detach.ts:71-80 | the processes below the root are the least set with the root and the children of its members |
| `ProcessTree.ExactGroups` | core/scripts/detach.ts:59-82 | with distinct pids the groups are exactly those of the root and of every process below it |
| `ProcessTree.KillProcessTree` | core/scripts/detach.ts:112-125 | each group is signalled once, the group numbered like the root last; without any group, the root's number |
| `ProcessTree.KillDescendantGroupsOnly` | core/scripts/detach.ts:133-144 | every group of the tree but the root's own is signalled, once |
| `ProcessTree.OwnGroupLastIff` | core/scripts/detach.ts:120-122 | the root's own group is signalled last if and only if it is numbered like the root or, with distinct pids, every process below the root is in it |
| `ProcessTree.OwnGroupSignalledFirst` | core/scripts/detach.ts:120-122 | a root that does not lead its group signals its own group first |
| `WrapperShutdown.Wrapper.DoWriteSentinel` | core/scripts/detach.ts:625-638 | the sentinel is written unless it was before |
| `WrapperShutdown.Wrapper.BeginAbnormalShutdown` | core/scripts/detach.ts:651-669 | the first call starts the shutdown and writes the sentinel; later calls change nothing |
| `WrapperShutdown.Wrapper.ContinueAfterWait` | core/scripts/detach.ts:227-256 | soft wait, SIGKILL, hard wait, settling, exit |
| `WrapperShutdown.Wrapper.AfterInner` | core/scripts/detach.ts:749-760 | the main flow exits with the inner code unless a shutdown owns the exit |
| `WrapperShutdown.Wrapper.Handle` | core/scripts/detach.ts:700-760 | every handler does what the step function says; after every one the sentinel was written at most once, as the first cause demands, and the lock is held unless the end of the inner process is known |
| `WrapperShutdown.SentinelWrittenOnce` | core/scripts/detach.ts:625-669 | in every interleaving the sentinel is written at most once, with the code of the first cause in the trace: 143, -1 and timed out, 1, or that of the inner process |
| `WrapperShutdown.ShutdownStartsOnce` | core/scripts/detach.ts:651-653 | in every interleaving a shutdown starts at most once |
| `WrapperShutdown.LockReleasedAfterInner` | core/scripts/detach.ts:644-669 | the lock is released only on exit, and only if nothing was spawned, the inner process was seen to be gone or not to have started, or the termination settled |
| `WrapperShutdown.ReleasedBesideLiveInner` | core/scripts/detach.ts:216-256 | the lock is released beside a live inner process only by a shutdown that sent SIGKILL and waited in vain |
| `WrapperShutdown.ConfirmedMeansGone` | core/scripts/detach.ts:171-256 | a termination that is reported as confirmed has seen the inner process gone |
| `WrapperShutdown.NoKillAfterExit` | core/scripts/detach.ts:171-256 | an inner process whose end was seen before the shutdown began is never sent SIGKILL, in any run, and its end is confirmed |
| `WrapperShutdown.UnconfirmedRelease` | core/scripts/detach.ts:216-256 | a run in which the inner process survives both waits and the lock is released |
| `WrapperShutdown.ShutdownEnds` | core/scripts/detach.ts:227-256 | until it has exited a shutdown can always go on, and it needs at most six steps of its own |
| `WrapperShutdown.ExitAlways` | core/scripts/detach.ts:668-705 | a run that exits by a handler has written its sentinel and exits with its code, a timeout with 1 |
| `DependencyGrammar.ConsumeReferenceList` | core/scripts/declared-dependency-grammar.ts:30-61 | the loop reads the specified list |
| `DependencyGrammar.ParseDeclaredDependencyIds` | core/scripts/declared-dependency-grammar.ts:84-122 | the two search loops compute the specified parse |
| `DependencyRoundTrip.ParseMeaning` | core/scripts/declared-dependency-grammar.ts:66-122 | on every text the result has no duplicates, only canonical ids and never the own id, and every admissible id of a phrase list or section is in it |
| `DependencyRoundTrip.SeparatorIff` | core/scripts/declared-dependency-grammar.ts:45-52 | the list goes on exactly where a comma, `and`, both, or whitespace stands before a reference |
| `DependencyRoundTrip.ListRead` | core/scripts/declared-dependency-grammar.ts:30-61 | a printed list is read back before any text that does not go on with it |
| `DependencyRoundTrip.NextPhraseNotAbsorbed` | core/scripts/declared-dependency-grammar.ts:24-29 | `and` followed by a new phrase ends the list |
| `DependencyRoundTrip.DeclarationRead` | core/scripts/declared-dependency-grammar.ts:98-105 | a declaration contributes its list and leaves what follows to be read on its own |
| `DependencyRoundTrip.RoundTrip` | core/scripts/declared-dependency-grammar.ts:84-122 | every list of distinct canonical ids other than the own one, printed after any phrase head with any mix of separators, is parsed back |
| `DependencySection.PhraseIff` | core/scripts/declared-dependency-grammar.ts:17-17 | the phrases that head a list are exactly the four, in any case |
| `DependencySection.SectionRead` | core/scripts/declared-dependency-grammar.ts:107-119 | a section contributes its references up to the next heading and leaves the rest to be read on its own |
| `DependencySection.SectionRoundTrip` | core/scripts/declared-dependency-grammar.ts:84-122 | every list of distinct canonical ids other than the own one, printed as the items of a dependency section, is parsed back |
| `DependencyHeading.HeadingIff` | core/scripts/declared-dependency-grammar.ts:20-20 | a dependency section starts at a place if and only if a line starts there with one to six hashes, whitespace and the title in either number and any case, not followed by a letter, digit or underscore |
| `DependencyHeading.SectionEndIff` | core/scripts/declared-dependency-grammar.ts:110-112 | a section ends before a line break if and only if a heading with a text follows it |

## Left out

- Files, git, GitHub, signals, timers and process spawning: they are parameters (what a callback answers, whether a write lands, fails or crashes, what a poll observes) or events of a step relation.
- Candidate integrity, reason strings, timestamps, events and the order and length limit of reported path lists: they decide nothing.
- Candidate integrity, the git parsing behind the default manifest capture: a listing is an input, and the tree results are for truthful listings.
- Candidate integrity, corrupted or unreadable files: a stored record, row or count is read as it was written, and the record, pointer, index and budget files never share a name.
- IntegrityStore.Store.RunCandidateMovingMutation: the class is said of the options for clean declared scopes, since a record stores the frozen scope and freezes it again, and `.` frozen twice covers nothing; calls do not overlap and mutation ids are fresh and not empty; the unawaited record write of an aborted call is one immediate write that may fail.
- IntegrityHistory.PerformAll: calls on one store do not overlap, as the budget file is not locked; the bounds of 1 + N count completed calls.
- SetupLock.AtMostOneInstaller: liveness answers are truthful, process ids are not reused, an installer settles only when its group is gone, and each unlink happens while nobody holds the lock; `SetupUnlink` says what happens otherwise.
- SetupLock.WaitForOwner: the clock advances by at least the poll interval with each sleep, and the waiter's polls are a parameter, so that it writes nothing is by construction.
- Candidate setup, path trust checks, directory creation and the check before each later spawn.
- ScriptMeaning.ExpansionPreservesMeaning: runners carry no extra arguments, literal commands are opaque and may read and change any state, and each base script is text that prints a shell script of this syntax; environment variables and the working directory that npm sets are not modelled.
- ScriptExpansion, the regular expressions that find runners and package-manager words: a body is a sequence of tokens.
- Configuration, the schema, template rendering, YAML parsing and the search for Lessons and Gotchas headings: sections are given texts, and the wording of the note about omitted sections is a parameter.
- ConfigReplace.ReplaceUpdatesMap: for a key that occurs once; when it occurs more often only the first block is rewritten.
- DesignBound.BoundDesignDecisionRecord: the byte size of a record is an arbitrary function, so nothing is assumed about JSON text or UTF-8.
- DesignValidate, JSON values: member names outside the contract are not told apart further, and error texts are values that name the place and the field.
- Design records, fenced blocks, redaction and challenges.
- Text is a sequence of characters; UTF-16 code units of characters outside the basic plane are not modelled.
- ManagedBlock.ManagedBlockLens: the entries of the artifact contract are a parameter in whose lines no sentinel occurs; the path and link checks before the file is opened are not modelled.
- ProcessTree, parsing of the `ps` output: the table is an input.
- WrapperShutdown, signals: a signal that the operating system refuses makes the inner process emit its error inside the call, before the next wait listens, and no other error comes from a process that is alive; the helpers that signal do not throw, as the ones the wrapper uses catch everything.
- WrapperShutdown, argument parsing, the lock handshake files and failures of the sentinel write or of the lock's release.
- DependencyGrammar, regular expressions: each one is written out as a matcher for the language it accepts.
