# Batty, verified kernels

Batty supervises coding agents. This project models the parts of it whose promises span loops, states or whole
runs, and proves those promises for every input.

| part | files |
|---|---|
| Branch resets that must not lose work: the commit graph, refs, worktrees, and the operations that rewrite branches | `Commits`, `Repository`, `WorktreeReset`, `ResetSafety`, `ResetEffects`, `TrunkSelection` |
| Numbered runs of a phase, one branch and one directory each | `PhaseRuns`, `Slugs`, `Decimal` |
| The log watcher: bytes to text, text to lines, lines to events, a bounded window and a resumable checkpoint | `Utf8`, `Encoding`, `AnsiStrip`, `EventWatcher`, `WatcherEvents` |
| The project registry, the active-project selections and the message router | `Registry`, `Normalization`, `Routing`, `Router`, `RoutingOutcome`, `Sorting` |
| The scripted shim that stands in for an agent | `FakeShim`, `ShimTrace` |
| The `.env` updater and loader | `EnvFile`, `EnvLines` |
| Recognizing status phrases that the terminal cut off | `PhraseMatch`, `Screens` |
| Release gates, the readiness report and the list of merged tasks | `Release`, `Readiness`, `MergedTasks` |
| Strings and options as the Rust standard library has them | `Text`, `Common` |

Code that works step by step in the source is a class or a method with its loop; each is proved to compute a function
of the old state, and the theorems are about those functions. Git, the file system, clocks and the verification
command are parameters: the outcome of an auto-save, a refused checkout, the answers of one repository state.

What the proofs found, beyond what the code's own comments say:

- A reset loses commits exactly when the branch is ahead of its start, only that branch holds its tip, and the archive
  is not made: all 101 names are taken, the count exceeds 32 bits, another ref is in the way of the name, or `git branch`
  fails on its own, as it does when the slug of a long branch name exceeds the length of a file name. One existing branch
  called `preserved` blocks every archive name. The callers ignore all these errors.
- On a detached HEAD, a base reset archives the auto-saved commit in place of the tip of the base branch.
- `finalize` can lose commits only when the base of the run is its own branch. A resume makes such a run when the project
  root has the run's branch checked out; a new run never has its own branch as base.
- A local branch named `origin/main` captures the short name that the trunk selection hands to Git: the start commit can
  miss commits of local trunk, and a trunk that is strictly ahead can be reported as ahead by 0.
- A watcher restarted at its checkpoint never loses a line. It repeats lines exactly when it reads on, the unfinished line
  takes more bytes in memory than in the file, and that line is not all that the file holds.
- Wherever a poll cuts the log, inside a character too, every line feed finishes one line and no text is lost.
- A tag with the name of a run's branch hides that branch from the numbering, so the loop that skips names in use does
  turn; and it makes a resumed run start at the commit of the tag.
- A clean completion is used up by a message whose commit fails, and a NUL in a variable to be set stops the loading of
  the whole `.env` file.
- An error that the shim plays while it is not idle announces idleness that the shim does not take on; apart from scripts,
  nothing else makes its events and its state differ.
- A single cut-off word that scores first hides a better match further right, and nothing else does.
- A readiness check whose event log or executable cannot be read ends with an error and announces nothing.
- The printer of `.env` values escapes and the parser does not unescape, so the round trip has an exact, smaller domain;
  a line that ends in two carriage returns makes a repeated update differ from a single one.
- The tests on reason texts in `auto_route_allowed` never change the answer; a channel or global selection hides a
  thread selection of the same project.
- A readiness report and a release look at `HEAD` and `main` respectively; the tag is put on `HEAD` while the record
  names `main`.

## Model

| member | source | states |
|---|---|---|
| Commits.RevListEmptyIffAncestor | src/worktree.rs:792-821 | `rev-list a..b` counts zero exactly when `merge-base --is-ancestor b a` holds, so the two tests of the code agree |
| Commits.AncestryIsAntisymmetric | src/worktree.rs:836-876 | commits that are ancestors of each other are equal: "equal, ahead, behind, diverged" are exhaustive and exclusive |
| Repository.FirstFreeArchiveIsFirst | src/worktree.rs:1379-1396 | the name found is the first free one of the 101, and none is found exactly when all are taken |
| TrunkSelection.ChosenTip | src/worktree.rs:844-876 | with both trunks, local trunk is chosen exactly when it has commits that the remote one lacks; "ahead" and "divergent" are reported exactly then and there |
| TrunkSelection.TrunkStartKeepsLocal | src/worktree.rs:823-876 | exact condition under which the start commit contains all of local trunk |
| TrunkSelection.TrunkStartKeepsBothSides | src/worktree.rs:823-876 | unless the trunks diverged, the start commit has exactly the commits of both, exactly when local trunk wins or `origin/<trunk>` means the remote trunk |
| TrunkSelection.SingleTrunkStart | src/worktree.rs:829-842 | with one trunk only that one is chosen, and an absent remote trunk is reported |
| TrunkSelection.AheadCount | src/worktree.rs:853-876 | what the ahead count measures, exactly when it is positive, and exactly when it is the size of the set difference of the two trunks |
| TrunkSelection.OriginAheadCount | src/worktree.rs:868-876 | the same for the count of diverged remote commits |
| TrunkSelection.CountsOfFreeName | src/worktree.rs:823-876 | without a local branch `origin/<trunk>` every count is the size of the set difference, and positive |
| TrunkSelection.TrunkStartFailsExactly | src/worktree.rs:823-876 | the selection fails exactly when a count it must report exceeds 32 bits |
| TrunkSelection.StrictlyAheadByZero | src/worktree.rs:853-859 | every repository with a strictly ahead local trunk and a branch `origin/<trunk>` at its tip is reported as ahead by 0 |
| TrunkSelection.LocalBranchNamedLikeOriginMisleads | src/worktree.rs:844-866 | a repository in which the chosen start lacks a commit of both trunks |
| WorktreeReset.GitStore.PrepareWorktreeForReset | src/worktree.rs:1122-1188 | auto-save, skip or forced clean of a dirty worktree, as one state change, with the errors of status, hard reset and clean |
| WorktreeReset.GitStore.ArchiveBranchIfCommitsAhead | src/worktree.rs:1352-1420 | the naming loop records the tip under the first free name, or leaves the refs alone, also when `git branch` fails |
| WorktreeReset.GitStore.ArchivePreservedBaseBranchHead | src/worktree.rs:1231-1248 | HEAD is recorded under the first archive name, with no second try; a failing `git branch` is an error |
| WorktreeReset.GitStore.EnsureWorktreeBranchForDispatch | src/worktree.rs:940-1019 | the whole new repository state and result of a dispatch reset, the errors of its steps included |
| WorktreeReset.GitStore.CheckoutBaseBranch | src/worktree.rs:1283-1331 | base branch and HEAD move to the effective trunk, or nothing changes |
| WorktreeReset.GitStore.ResetWorktreeToBase | src/worktree.rs:1073-1120 | the whole new repository state and result of a base reset, the errors of its steps included |
| WorktreeReset.GitStore.ResetWorktreeToBaseIfClean | src/worktree.rs:1198-1229 | the same for the clean-only reset, which leaves a dirty worktree alone but takes an unreadable status for clean |
| WorktreeReset.GitStore.EnsureBaselineBranch | src/worktree.rs:882-931 | a missing baseline branch is created at the trunk start, an existing one never touched |
| WorktreeReset.GitStore.FinalizeRun | src/worktree.rs:122-145 | which outcomes remove worktree and branch, and what stays |
| WorktreeReset.GitStore.RemoveWorktreeAndBranch | src/worktree.rs:614-648 | removal of a run; a refused removal changes nothing, and a branch that another worktree has is kept |
| ResetSafety.MovingARefConservesIff | src/worktree.rs:1283-1323 | rewriting a ref loses nothing exactly when another ref or the new tip contains the old tip |
| ResetSafety.DeletingARefConservesIff | src/worktree.rs:634-648 | deleting a ref loses nothing exactly when another ref contains its tip |
| ResetSafety.ArchivedExactly | src/worktree.rs:1352-1420 | an archive is made exactly when the branch is ahead and neither a name nor `git branch` stands in the way |
| ResetSafety.ArchiveThenResetConservesIff | src/worktree.rs:1346-1420 | archive followed by rewrite keeps every commit exactly when the branch is not unprotected |
| ResetSafety.DispatchConservesIff | src/worktree.rs:940-1019 | exact condition under which a dispatch reset loses no commit |
| ResetSafety.ResetToBaseConservesIff | src/worktree.rs:1073-1120 | exact condition under which a base reset loses no commit |
| ResetSafety.ResetIfCleanConservesIff | src/worktree.rs:1198-1229 | exact condition under which a clean-only reset loses no commit |
| ResetSafety.EnsureBaselineConserves | src/worktree.rs:882-931 | the baseline repair never loses a commit |
| ResetSafety.FinalizeConservesIff | src/worktree.rs:122-145 | finishing a completed run loses commits exactly when the merge check compared its branch with itself |
| ResetSafety.NewRunLosesNothing | src/worktree.rs:122-202 | a run that was newly made can be finished at any time without loss |
| ResetSafety.ResumedRunConservesIff | src/worktree.rs:122-145 | exact condition under which finishing a resumed run loses no commit |
| ResetSafety.SelfMergedRunIsLost | src/worktree.rs:122-145 | a repository in which finishing a run based on its own branch drops its work |
| ResetSafety.ResetLandsOnTrunk | src/worktree.rs:1073-1120 | after a performed base reset HEAD is on the base branch and base equals trunk |
| ResetSafety.RunConserves | src/worktree.rs:940-1229 | over any run of resets, repairs, finalizes and commits, whatever a ref reaches at the start is reached at the end |
| ResetSafety.RunKeepsEveryCommit | src/worktree.rs:1122-1188 | every commit made at any step of such a run, auto-saves included, is reachable at its end |
| ResetSafety.BranchNamedPreservedDefeatsTheArchive | src/worktree.rs:1259-1269 | with a branch `preserved`, a successful clean reset drops what only the base branch holds |
| ResetSafety.IgnoredArchiveFailureLosesWork | src/worktree.rs:1259-1269 | whenever `git branch` fails on the archive, a successful clean reset drops what only the base branch holds |
| ResetSafety.DetachedHeadResetConservesIff | src/worktree.rs:1082-1097 | on a detached HEAD the old base tip survives exactly when another ref, the auto-save or the trunk contains it; where the archive fails the reset is given up |
| ResetEffects.PrepareEffects | src/worktree.rs:1122-1188 | what a preparation moves: only this worktree and its branch, only by an auto-save commit on top of HEAD; an error or a skip changes nothing |
| ResetEffects.PrepareProceedsIff | src/worktree.rs:1122-1188 | which of the four outcomes there is: by whether the worktree is dirty, the save worked, and the mode |
| ResetEffects.CheckoutEffects | src/worktree.rs:1283-1323 | a checkout succeeds exactly when it is not refused, the start resolves and the ref can be written; then HEAD is on the branch, the branch is at the start, and nothing else moved |
| ResetEffects.DispatchLands | src/worktree.rs:940-1019 | after a changing dispatch reset HEAD is on the expected branch, which is at the commit that the start ref means after the preparation; otherwise no HEAD leaves its branch; other worktrees stay in any case |
| ResetEffects.DispatchForm | src/worktree.rs:990-1019 | a dispatch reset that proceeds is preparation, archive of the expected branch and checkout, in that order and on each other's results |
| ResetEffects.DispatchChangesIff | src/worktree.rs:940-1019 | exactly when a dispatch reset changes the branch, and which answer it gives in every other case |
| ResetEffects.DispatchRefs | src/worktree.rs:940-1019 | a dispatch reset touches no ref but the branch of HEAD, the expected branch and its archive |
| ResetEffects.ResetToBaseLands | src/worktree.rs:1073-1120 | after a performed base reset HEAD is on the base branch; a skipped one leaves what the preparation made; other worktrees stay in any case |
| ResetEffects.ResetToBaseForm | src/worktree.rs:1082-1120 | a base reset that proceeds archives what is in the way and then checks the base branch out, on each other's results; a failing archive ends it |
| ResetEffects.ResetToBaseRefs | src/worktree.rs:1073-1120 | a base reset touches no ref but the branch of HEAD, the base branch and the archive |
| ResetEffects.ResetIfCleanLands | src/worktree.rs:1198-1229 | exactly when a clean-only reset happens, is skipped or is refused; then HEAD is on the base branch, which is at trunk, and no other ref but the archive is new |
| ResetEffects.BaselineRepaired | src/worktree.rs:882-931 | a reported repair put the missing branch at the selected commit, which the report names; otherwise nothing changed |
| ResetEffects.BaselineFailsIff | src/worktree.rs:882-931 | the repair fails exactly when no start is selected, it does not resolve, or the branch cannot be created |
| ResetEffects.CleanedIsGone | src/worktree.rs:122-145 | `Cleaned` means that the worktree and the branch of the run are gone, and nothing else; every kept run is unchanged |
| ResetEffects.FinalizeDecides | src/worktree.rs:122-145 | which outcome keeps a run and for which reason; a completed run is only cleaned when it has a new commit that its base contains |
| ResetEffects.EffectiveTrunkIs | src/team/git_cmd.rs:122-153 | a trunk other than `main` stands for itself, `main` for the remote's default branch or else the first usual trunk that exists |
| ResetEffects.ArchiveNamesDiffer | src/worktree.rs:1379-1396 | the 101 names that are tried are all different |
| ResetEffects.ArchiveNameIsFlat | src/worktree.rs:1346-1420 | an archive name is one path component under `preserved/`, spelled like the branch with dashes for slashes |
| PhaseRuns.SanitizePhaseForBranch | src/worktree.rs:496-516 | the loop computes the slug: lower case, single dashes inside, `phase` when nothing is left |
| PhaseRuns.SanitizedIsSlug | src/worktree.rs:496-516 | every result is a slug and exactly the slugs are unchanged, so sanitizing twice is sanitizing once |
| PhaseRuns.RunNameRoundTrip | src/worktree.rs:488-494 | parsing a formatted run number gives it back for every `u32`, and fails beyond |
| Slugs.SanitizedWord | src/worktree.rs:496-516 | letters and digits become themselves in lower case |
| Slugs.SanitizedAtSeparator | src/worktree.rs:496-516 | any other character separates: both sides become slugs on their own, with one dash between them exactly when both have something to keep |
| Slugs.SanitizedNothing | src/worktree.rs:511-515 | a name without letter or digit becomes `phase` |
| Slugs.ParsedRunIff | src/worktree.rs:488-494 | a number is read exactly where it is printed behind the prefix, filled with zeros to three digits or more, and fits into a `u32` |
| PhaseRuns.PhaseStore.NextRunNumber | src/worktree.rs:452-486 | one more than the largest number of a listed branch or a directory entry, or overflow at the `u32` limit |
| PhaseRuns.NumberAfterMaxIsFresh | src/worktree.rs:149-202 | the first name tried is free, so the skipping loop does not turn, exactly when no branch has it behind a tag of the same name |
| PhaseRuns.PhaseStore.FirstFreeRun | src/worktree.rs:164-173 | the skipping loop finds the least free number from its start, or that none is left |
| PhaseRuns.PhaseStore.FreshRunNumber | src/worktree.rs:164-173 | the number taken is the first free one above the maximum, and there is an error exactly when there is none |
| PhaseRuns.PhaseStore.PreparePhaseWorktree | src/worktree.rs:149-202 | exactly which errors there are and when, each with nothing changed; otherwise a run with the first free number above the maximum, at what Git takes the current branch's name for |
| PhaseRuns.PhaseStore.LatestPhaseWorktree | src/worktree.rs:356-409 | the run found has the largest number among the listed directories with a branch |
| PhaseRuns.NewRunIsLatest | src/worktree.rs:356-409 | after a new run, every listing of the directory has it as the latest |
| PhaseRuns.NewRunIsResumed | src/worktree.rs:149-221 | after a new run there is a run to resume, and it is that one: same base, branch and path, and the same start commit exactly when no tag stands in for base or branch |
| PhaseRuns.PhaseStore.PrepareThenResolve | src/worktree.rs:149-221 | a successful new run followed by a resolve that forces nothing gives that run, resumed; the start commit is the same under the exact condition on tags |
| PhaseRuns.NewRunHasAnotherBase | src/worktree.rs:149-202 | a new run never has its own branch as base |
| PhaseRuns.ResumedOnItsOwnBranch | src/worktree.rs:356-409 | a resumed run has its own branch as base exactly when the project root has that branch checked out |
| PhaseRuns.PhaseStore.ResolvePhaseWorktree | src/worktree.rs:211-221 | resumes the latest run and changes nothing when there is one and none is forced; otherwise exactly what preparing a run gives, errors included |
| Utf8.DecodeOfConcat | src/events.rs:338-348 | lossy decoding of two chunks is that of the whole when the cut is not inside an encoding |
| Utf8.SplitIffComplete | src/events.rs:338-348 | only such cuts are right for every continuation |
| Utf8.DecodedLength | src/events.rs:371-378 | the decoded text is never shorter in bytes than what was read, and equally long when well formed |
| Utf8.DecodeKeepsLineFeeds | src/events.rs:345-351 | decoding any bytes, malformed or cut off, makes and swallows no line feed |
| Encoding.DecodeOfEncode | src/events.rs:338-348 | decoding the UTF-8 encoding of any text gives the text back |
| Encoding.BytesRoundTripIff | src/events.rs:338-348 | bytes come back from decoding and encoding exactly when they are well formed |
| Encoding.ScanExact | src/events.rs:338-348 | the decoder reads a whole character, a cut-off one, or one replacement for the longest stretch that could begin a character, as the Unicode standard's substitution of maximal subparts has it |
| AnsiStrip.MatchLengthExact | src/prompt/mod.rs:234-241 | the scanner removes exactly the prefix that the expression matches, and there is only one |
| AnsiStrip.StripRecoversText | src/prompt/mod.rs:234-241 | stripping any sequence of text and escape sequences leaves exactly the text |
| AnsiStrip.StripIsNotIdempotent | src/prompt/mod.rs:234-241 | removing a sequence can put another one together |
| EventWatcher.EventBuffer.Push | src/events.rs:188-194 | the oldest event is evicted when the buffer is full |
| EventWatcher.EventBuffer.Clear | src/events.rs:214-217 | no event is left, the capacity stays |
| EventWatcher.EventBuffer.Snapshot | src/events.rs:197-200 | the events of the window, oldest first, which stay where they are |
| EventWatcher.WindowIsLast | src/events.rs:188-194 | after any pushes the window is the last max(1, capacity) events |
| EventWatcher.PipeWatcher.Poll | src/events.rs:311-369 | one poll reads the new bytes and pushes the events of the lines it finishes |
| EventWatcher.PipeWatcher.Checkpoint | src/events.rs:371-378 | the checkpoint is the position less the bytes of the unfinished line |
| EventWatcher.PollsAgreeWithWholeFile | src/events.rs:311-369 | however a growing file is cut into polls, lines, leftover and the window after the last poll are those of one reading of the whole |
| WatcherEvents.EventOfRenderedLine | src/events.rs:354-363 | of any line of text and escape sequences exactly the trimmed text reaches the classifier, and a line that shows nothing has no event |
| WatcherEvents.PollSeesPlainText | src/events.rs:311-369 | one poll over coloured lines gives the events of their visible texts in order, and keeps the unfinished rest |
| WatcherEvents.ShrunkFileRestartsAtItsEnd | src/events.rs:322-335 | a file that became shorter gives no line, and reading goes on at its end with the same buffer |
| EventWatcher.WindowOfRun | src/events.rs:311-369 | pushing poll by poll leaves the window that pushing all events at once leaves |
| EventWatcher.EveryCutKeepsLines | src/events.rs:338-366 | wherever polls cut a growing file, lines and leftover are together the text that was read, and there are as many lines as line feeds in the file |
| EventWatcher.CheckpointIsLineStartIff | src/events.rs:371-378 | exact condition under which the checkpoint is just after the last line feed |
| EventWatcher.CheckpointNotAfterLineStart | src/events.rs:371-378 | the checkpoint is never after the start of the unfinished line, and at it exactly when that line is as long in memory as in the file or is all of it |
| EventWatcher.ResumedLines | src/events.rs:297-378 | a watcher resumed at the checkpoint reads exactly the missing lines, after the lines between checkpoint and line start; when there are such lines |
| EventWatcher.ResumeAtCheckpoint | src/events.rs:297-378 | old lines followed by new ones are those of the watcher that was never stopped: exact condition |
| EventWatcher.LossyTailRepeatsALine | src/events.rs:338-378 | a concrete file on which a resumed watcher repeats a line |
| Registry.ValidateRegistry | src/project_registry.rs:788-825 | the walk with five sets accepts exactly the registries of well-formed projects that share no identifying field |
| Registry.CheckProjectExact | src/project_registry.rs:1114-1199 | the chain of field checks accepts exactly the well-formed projects |
| Registry.NormalizedLabelsFacts | src/project_registry.rs:1187-1199 | labels come out strictly sorted, with exactly the trimmed lower-case inputs, or some input is no label |
| Registry.NormalizedFieldsShape | src/project_registry.rs:898-979 | what each field of the normalized project is made of |
| Normalization.BindingsAcceptedIff | src/project_registry.rs:924-956 | bindings are refused exactly on a blank part or on two that are equal after trimming, and otherwise all are kept, trimmed |
| Normalization.NormalizedIff | src/project_registry.rs:898-979 | exactly which registrations are accepted, stated on the fields of the request |
| Normalization.StoredFields | src/project_registry.rs:898-979 | what is stored of id, name, team, session, paths, owner, flags and both time stamps |
| Normalization.StoredBindings | src/project_registry.rs:924-970 | the stored bindings are sorted, pairwise distinct, and exactly the trimmed bindings of the request |
| Normalization.StoredLabels | src/project_registry.rs:1187-1199 | the stored aliases and tags are strictly sorted, and exactly the non-blank ones of the request, trimmed and in lower case |
| Normalization.RegisteredIff | src/project_registry.rs:532-546 | a registration goes through exactly when the registry is valid, the request is acceptable and the project shares nothing with a registered one |
| Registry.NormalizedIsValid | src/project_registry.rs:898-979 | the validation at the end of the normalization never rejects |
| Registry.UniqueErrorExact | src/project_registry.rs:848-896 | no conflict is reported exactly when the new project shares nothing with any registered one |
| Registry.RegistryFile.RegisterProject | src/project_registry.rs:532-546 | the new registry, or the error and an unchanged registry |
| Registry.RegistryFile.SaveRegistry | src/project_registry.rs:760-772 | an invalid registry is never written |
| Registry.RegistryFile.UnregisterProject | src/project_registry.rs:548-561 | the new registry and the removed project, or an unchanged registry |
| Registry.RegisterKeepsValid | src/project_registry.rs:532-546 | a registration that passes leaves a valid sorted registry with one more project: the check on save never rejects |
| Registry.UnregisterKeepsValid | src/project_registry.rs:548-561 | removal takes out that project only and keeps validity and order |
| Registry.UnregisterUndoesRegister | src/project_registry.rs:532-561 | unregistering a just registered project gives back the sorted old registry |
| Registry.ReachableRegistriesValid | src/project_registry.rs:532-561 | every registry reachable by the two operations is valid and sorted |
| Routing.ScopesOrdered | src/project_registry.rs:1219-1237 | the sort rank tells different scopes apart |
| Routing.SameScopeIsEquality | src/project_registry.rs:1239-1270 | the hand-written comparison is equality of scopes |
| Routing.RoutingStateFile.SetActiveProject | src/project_registry.rs:571-600 | the new selections, or an error and unchanged selections |
| Routing.SetActiveUpdatesMap | src/project_registry.rs:571-600 | the selection of one scope changes and no other; the list stays strictly sorted and valid |
| Routing.SetActiveExact | src/project_registry.rs:571-600 | a request is accepted exactly with valid files and a registered project; the new list is the old one without the scope, and the new selection with its time |
| Routing.SelectionsAreLastSet | src/project_registry.rs:571-600 | from any valid list, after any requests the list is the map from each scope to the project last set for it or else selected before, and the check on save never rejects |
| Router.NormalizedTokens | src/project_registry.rs:1391-1405 | the character loop computes the tokens |
| Router.TokensAreMaximalRuns | src/project_registry.rs:1391-1405 | the tokens are exactly the maximal runs of token characters of the lower-case text |
| Router.ScoreWithReasons | src/project_registry.rs:1272-1334 | the accumulating tests give the best score and all reasons in order |
| Router.BestContribution | src/project_registry.rs:1272-1334 | a score of 98 or more comes from the id, an alias or a thread binding and from nothing else |
| Router.ReasonCleanWithoutEvidence | src/project_registry.rs:1437-1450 | without such evidence no tag, selection or name can make the reason contain the searched texts |
| Router.ReasonTestsAreRedundant | src/project_registry.rs:1437-1450 | automatic routing is decided by the score alone; a control action needs the evidence |
| Router.ScoreAll | src/project_registry.rs:656-659 | the loop keeps the candidates with a score, in registry order |
| Router.ResolveProjectForMessage | src/project_registry.rs:602-689 | the decision in all branches: none, one or more active projects, ambiguity, confirmation |
| Router.RankingFacts | src/project_registry.rs:656-665 | the ranking lists every project with a score, best first |
| Router.SelectedIffClearWinner | src/project_registry.rs:602-689 | with two or more active projects a project is selected exactly when it is active and beats every other by more than the gap |
| Router.ConfirmationAvoidedIff | src/project_registry.rs:677-688 | no confirmation exactly when there is a clear winner that may be routed to automatically |
| RoutingOutcome.LabelIsOneToken | src/project_registry.rs:1391-1405 | a label in upper or lower case is one token, so every id, alias and tag can be mentioned |
| RoutingOutcome.FindingsIff | src/project_registry.rs:1272-1363 | each test of the scoring, on the message, the bindings and the request alone |
| RoutingOutcome.SelectionIff | src/project_registry.rs:1365-1389 | 96, 80 and 65 points are exactly those of a first selection for this thread, this channel and everywhere |
| RoutingOutcome.ScoreTable | src/project_registry.rs:1272-1334 | which score is reached exactly by which evidence, from 100 down to nothing |
| RoutingOutcome.ResolveFailsIff | src/project_registry.rs:602-613 | a broken registry is the only error; broken selections count as none |
| RoutingOutcome.NoActiveProject | src/project_registry.rs:615-623 | without active project nothing is selected and confirmation is required |
| RoutingOutcome.OnlyActiveProject | src/project_registry.rs:625-653 | the only active project is selected; confirmation is required, with medium confidence, exactly when a control word is a maximal run of the lower-cased message |
| RoutingOutcome.SeveralActiveProjects | src/project_registry.rs:655-689 | with two or more active projects the ranking, the gap, the control words and the thresholds decide every field of the answer |
| Router.ReorderedIsValid | src/project_registry.rs:788-825 | validity does not depend on the order of the registry |
| Router.DecisionIgnoresOrder | src/project_registry.rs:602-689 | the whole decision, candidate list included, is the same for every order of a valid registry |
| Router.DecisionIgnoresUnknownSelections | src/project_registry.rs:602-689 | selections of unregistered projects have no influence |
| Router.FirstSelectionFacts | src/project_registry.rs:1365-1389 | the selection looked at is the first one of the project, not the best |
| Router.ThreadSelectionHiddenIff | src/project_registry.rs:1219-1237 | in a saved list the thread selection counts exactly when the project has no channel or global selection |
| FakeShim.FakeShim.ProcessInbound | src/shim/fake.rs:164-212 | one call drains the channel: state, queue, history, unread commands and sent events |
| FakeShim.FakeShim.Queue | src/shim/fake.rs:139-141 | the behaviour joins the end of the queue, nothing else changes |
| FakeShim.FakeShim.SetDefault | src/shim/fake.rs:144-146 | the behaviour used when the queue is empty, nothing else changes |
| FakeShim.FakeShim.NextMessageId | src/shim/fake.rs:352-355 | the counter grows by one and names the id |
| FakeShim.FakeShim.Respond | src/shim/fake.rs:185-223 | one command is noted, then answered in band or by the next behaviour |
| FakeShim.FakeShim.ApplyBehavior | src/shim/fake.rs:244-350 | new state and events of each behaviour; ends on every nesting of `Once` |
| FakeShim.FakeShim.HandleInfrastructureCommand | src/shim/fake.rs:225-242 | which commands are answered in band, with which state |
| FakeShim.BatchingDoesNotMatter | src/shim/fake.rs:164-212 | events, state, queue and history are the same however the commands are spread over calls |
| FakeShim.RunCountsMessages | src/shim/fake.rs:244-355 | across all behaviours but scripts, delivered ids are the consecutive counter values and each has exactly one completion |
| FakeShim.DeliveredIdsNeverRepeat | src/shim/fake.rs:352-355 | no message id is delivered twice |
| FakeShim.InfrastructureIsTransparent | src/shim/fake.rs:187-242 | dropping all infrastructure commands leaves answers, queue and counter as they are |
| FakeShim.CleanCompletionFollowsNarration | src/shim/fake.rs:307-324 | after a narration-first answer the next message gets the clean completion, whatever is queued or asked in between, exactly when it has no files or their commit succeeds; otherwise it is used up |
| FakeShim.DeathIsNotFinal | src/shim/fake.rs:225-242 | a killed shim answers the next message and is idle again, exactly when no commit fails |
| ShimTrace.HistoryIsWhatWasReceived | src/shim/fake.rs:164-212 | the history grows by exactly the commands received, in order, a failing one included; the others stay unread |
| ShimTrace.AlwaysToldIff | src/shim/fake.rs:164-350 | without scripts, the events tell the state of the shim after every command exactly when no error is played while it is not idle |
| ShimTrace.RunIsCoherent | src/shim/fake.rs:164-350 | in such a run every change of state starts where the last one ended, and `GetState` answers the state told so far |
| ShimTrace.QueueIsServedInOrder | src/shim/fake.rs:214-223 | the n-th message gets the n-th queued answer, and every message after the queue the default one |
| ShimTrace.SentWithoutAnswer | src/shim/fake.rs:326-350 | what scripts, errors, exhaustion and silence send, and that they use up no message id |
| EnvFile.DotEnv.UpsertEnvVar | src/env_file.rs:9-44 | the loop with its flag replaces the first assignment of the key or appends one |
| EnvFile.DotEnv.LoadEnvFile | src/env_file.rs:46-67 | variables already set keep their value, the others get that of their first assignment; it fails exactly when a NUL is to be set |
| EnvFile.KeyIndexIsFirst | src/env_file.rs:20-28 | the line that is replaced is the first one that assigns the key |
| EnvFile.KeyOfAssignment | src/env_file.rs:69-103 | updater and loader agree on which line assigns which key |
| EnvLines.PlainAssignment | src/env_file.rs:80-103 | `key=text`, with or without `export`, assigns the text without one pair of quotes around it |
| EnvLines.CommentAssignsNothing | src/env_file.rs:69-103 | blank lines and comments assign nothing, for the updater and for the loader |
| EnvLines.UpsertInPlace | src/env_file.rs:9-44 | the text before and behind the first assignment of the key stays as it is |
| EnvLines.UpsertAppends | src/env_file.rs:9-44 | without assignment of the key the whole text stays and the new line follows, after a blank line unless there is one |
| EnvLines.RenderedValueIff | src/env_file.rs:105-111 | a value is quoted exactly for whitespace or `#`; undoing the escapes gives it back, and only quotes and backslashes are escaped |
| EnvFile.UpsertThenLoad | src/env_file.rs:9-67 | after an update every other key reads as before, and the key reads the value exactly when the value is safe |
| EnvFile.UpsertThenLoadEnvironment | src/env_file.rs:9-67 | after an update the key is loaded with the value exactly when no NUL is to be set, here or for another key |
| EnvFile.RenderedValueReadsBackIff | src/env_file.rs:80-111 | exact domain on which printing and reading a value is the identity |
| EnvFile.NewFileRoundTripIff | src/env_file.rs:9-111 | exact domain of keys and values for writing a new file and reading it |
| EnvFile.NewFileLoadsIff | src/env_file.rs:9-111 | exact domain of keys and values for writing a new file and loading it into an environment |
| EnvFile.SecondUpsertIff | src/env_file.rs:9-44 | exact condition under which two updates write the same bytes as the second alone |
| PhraseMatch.TokenPrefixScore | src/shim/classifier.rs:692-732 | the loop with its early exits computes how far the line follows the phrase, and its score |
| PhraseMatch.PhraseMatchConfidence | src/shim/classifier.rs:638-664 | containment first, then the score of the first position that has one |
| PhraseMatch.WordsOfJoin | src/shim/classifier.rs:649-742 | splitting a normalized text again gives the words it was made of |
| Screens.WordsAtWhitespace | src/shim/classifier.rs:734-742 | whitespace separates words and is nothing else; with the words of a word this determines the splitting |
| Screens.EllipsisIsThreeDots | src/shim/classifier.rs:734-742 | a line with an ellipsis is read like one with three dots |
| Screens.CaseDoesNotMatter | src/shim/classifier.rs:734-742 | lines that agree in lower case are read alike |
| PhraseMatch.FullConfidenceIffContained | src/shim/classifier.rs:638-664 | full confidence exactly on containment of the normalized texts: the full score of the scorer is unreachable there |
| PhraseMatch.ScoreClasses | src/shim/classifier.rs:692-732 | the low score means exactly one cut-off word with a quarter of the characters; every other score is at least 84 |
| Screens.FollowExact | src/shim/classifier.rs:692-712 | how far any line goes along with a phrase, with how many characters, and whether the last word is cut off |
| Screens.ScoreExact | src/shim/classifier.rs:714-732 | the four scores and exactly when each of them is given |
| Screens.BestConfidenceExact | src/shim/classifier.rs:631-636 | the confidence over several phrases is the best that any has, and none when none has any |
| PhraseMatch.FirstScoreIff | src/shim/classifier.rs:655-663 | the scan finds a recognizable ending, and with a good score exactly when no weak match is the first position that scores |
| PhraseMatch.CutOffPhraseFound | src/shim/classifier.rs:638-732 | a line that ends in two or more words and 45 percent of a phrase is never missed; it scores at least 84 exactly when the phrase is on it whole or no weak match comes first |
| PhraseMatch.EarlierMatchHidesBetter | src/shim/classifier.rs:656-661 | a line on which a weak first match hides a strong one |
| PhraseMatch.CodexVerdictIff | src/shim/classifier.rs:473-523 | any sign of work beats every prompt; idle needs a prompt and no sign of work on any recent line |
| Screens.RecentIsLastTwelve | src/shim/classifier.rs:473-481 | the lines looked at are the last twelve that are not blank, or all of them, the last one first |
| Screens.PromptIff | src/shim/classifier.rs:506-521 | a line shows the prompt exactly when the prompt is its first character that is not whitespace |
| PhraseMatch.IdleVerdictIff | src/shim/classifier.rs:102-129 | the final verdict is idle exactly on a prompt without any sign of work, however weak |
| PhraseMatch.WorkingVerdictIff | src/shim/classifier.rs:102-109 | the most recent sign of work decides alone; a weak one makes the verdict unknown |
| PhraseMatch.CutOffIndicatorIsWorking | src/shim/classifier.rs:473-523 | while a recent line ends in a recognizable part of a working phrase the screen is never idle |
| Release.TaggedRepository.Run | src/release.rs:426-607 | success exactly when nothing fails, then one new tag at HEAD; a failure leaves the tags alone and returns the record of the first reason; in both records each field is filled exactly after its step, and holds what the run was told |
| Release.TaggedRepository.CheckMain | src/release.rs:431-489 | the first six gates and the fields they fill |
| Release.TaggedRepository.CheckRelease | src/release.rs:491-554 | the next six gates and the fields they fill |
| Release.TaggedRepository.Publish | src/release.rs:556-607 | summaries, notes and tag, in that order, and their failures |
| Release.TaggedRepository.CreateTag | src/release.rs:586-603 | one annotated tag at HEAD, or an error and unchanged tags |
| Release.FirstFailureIff | src/release.rs:426-607 | the pipeline stops exactly when some condition fails on its own, and then at the earliest one |
| Release.FailureRecordShowsProgress | src/release.rs:1615-1643 | the filled fields of a failure record are those of the steps before the one that failed, each with the answer it reports |
| Release.SuccessRecordIsComplete | src/release.rs:1582-1613 | a success record has every field, each with the answer it reports |
| Release.RecordNamesTaggedCommitIff | src/release.rs:481-607 | the record names the commit that was tagged exactly when `main` and `HEAD` resolve alike |
| Release.SecondRunStopsAtTag | src/release.rs:491-511 | repeating a successful release in the same state fails on the existing tag |
| Release.TaggedRepository.Readiness | src/release.rs:275-423 | the report: every answer that was given and every blocker, in order, or the error that ends it; ready is a report without blockers |
| Release.TaggedRepository.InspectWorktree | src/release.rs:295-341 | fields and blockers of metadata, branch, worktree and commit; no blocker ends the report |
| Release.TaggedRepository.InspectChecks | src/release.rs:343-364 | failing or unavailable GitHub checks for the reported commit |
| Release.TaggedRepository.InspectTags | src/release.rs:366-389 | proposed tag, previous tag and commit count |
| Release.TaggedRepository.InspectVerification | src/release.rs:391-415 | a failed verification, or one that passed without evidence |
| Release.ReadyIff | src/release.rs:275-423 | ready exactly when the gates of the release pass at `HEAD` and the extra checks pass, those that can end the report with an error included |
| Readiness.IgnoredIff | src/release.rs:322-325 | an entry is ignored exactly when it is an untracked path in the directory of the tool |
| Readiness.DirtyEntriesCount | src/release.rs:319-331 | the dirty entries are all other entries, each as often as it is listed |
| Readiness.DirtyWorktreeIff | src/release.rs:319-334 | the number of changes is reported exactly when the gate of the release fails |
| Readiness.BlocksIff | src/release.rs:295-415 | the report blocks for a gate of the release exactly when that gate fails on its own, whatever else fails; the commit is that of `HEAD` |
| Readiness.GateDetail | src/release.rs:295-415 | which failed answer each blocker quotes |
| Readiness.EvidenceBlockersIff | src/release.rs:391-415 | blockers for a verification that did not start or left no evidence |
| Readiness.FeedbackBlockersIff | src/release.rs:343-364 | blockers for failing checks, with their number and commit, or unavailable ones |
| Readiness.StaleDaemonIff | src/release.rs:417-419 | the blocker for a stale executable |
| Readiness.ReportStatesAnswers | src/release.rs:275-423 | each field of the report is filled exactly when its question was answered, and with that answer |
| Readiness.RecordAgreesWithReport | src/release.rs:275-607 | a successful release records what the report of the same state said, the commit exactly when `main` and `HEAD` resolve alike |
| Release.ReadyReleasePassesGates | src/release.rs:275-607 | after a ready report the release stops at no gate, except where `main` does not resolve |
| Release.UnannouncedReleaseIff | src/release.rs:275-607 | a release past its gates was not announced as ready exactly when `HEAD` does not resolve or an extra check failed |
| MergedTasks.CollectRecentlyMerged | src/release.rs:847-875 | the backward loop with its limit returns the last tasks of the forward history, and a limit of 0 lets one through |
| MergedTasks.ListsEachOnceByLastMerge | src/release.rs:847-875 | the history lists every merged task once, ordered by its last merge |

## Left out

- ResetSafety.RunConserves: requires a HEAD on a branch and an archive that can be made where one is needed; the lemmas named `…ConservesIff` state exactly what happens otherwise.
- Tags and other refs in the resolution of short names by the resets: names resolve among branches, then remote-tracking branches. The phase runs do model tags, but no remote that makes a branch name ambiguous.
- The reasons for which Git itself fails: a failing status, hard reset, clean, archive, checkout or worktree removal is a parameter, and so is the outcome of the auto-save, which `src/team/task_loop.rs` makes; a failing lookup of a ref or a merge base is not modelled.
- The forced deletions: `force_new` worktrees, and dry runs in the safety theorems (they are in the model of `FinalizeRun`).
- Sub-repositories of a container directory, integration worktrees, agent worktrees and the copy of the phase board.
- PhaseRuns.PhaseStore.NextRunNumber: a run number beyond `u32` is an error of the model, where the source overflows: with overflow checks it panics, without them it starts again at 0.
- PhaseRuns.PhaseStore.PreparePhaseWorktree: the same, and a failing `git worktree add` leaves nothing behind.
- Utf8.SplitIffComplete: positions and lengths are unbounded integers, not `u64`.
- EventWatcher.PollsAgreeWithWholeFile: requires that no poll ends inside an encoding; `SplitIffComplete` shows that nothing less will do, and `EveryCutKeepsLines` says what holds for every cut.
- EventWatcher.ResumeAtCheckpoint: for a watcher that was started in the middle of a line and has read no line feed yet, the condition is proved to be enough, not to be needed.
- EnvFile.UpsertThenLoad: requires a safe key and a value without line feed, since others write several lines or none that assigns the key; `NewFileRoundTripIff` covers all keys and values.
- Router.DecisionIgnoresUnknownSelections: requires selections that pass the check on load; a file that fails it is read as if it were empty.
- Classification of a line by the regular expressions of `EventPatterns`: an unspecified total function.
- The lock around the event buffer, read errors in the middle of a poll, and files that shrink between polls in the whole-file theorem (`Poll` itself models them).
- JSON and TOML decoding, schema versions and the migration of old registries; paths are absolute or not and a list of parts.
- Registry.ValidateRegistry: says whether the registry is accepted, not which of several errors is reported.
- Lower case is that of ASCII, as in the source's `to_ascii_lowercase`; where the source uses Unicode lower case, the model agrees on ASCII texts.
- Confidences are whole percentages; the comparison of covered characters is exact, where the source rounds to 32-bit floats.
- The Claude, Kiro and generic screen classifiers and the narration detector, which add cases but no new kind of claim.
- FakeShim.RunCountsMessages: leaves out scripts, which may send any event, forged ids included.
- ShimTrace.AlwaysToldIff: leaves out scripts for the same reason; no state follows the events they send.
- ShimTrace.QueueIsServedInOrder: is about queues of plain answers; the other behaviours have their own rows.
- Socket errors of the shim and the files that a commit behaviour writes; whether its commit succeeds is a parameter.
- Release.TaggedRepository.Run: the details text of a success record, time stamps and rendered reports are not modelled; the tag is the only change.
- Project status, lifecycle actions, terminal user interface, process control and log formats.
