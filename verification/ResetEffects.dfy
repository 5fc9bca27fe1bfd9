/** Where a reset leaves HEAD, and what it leaves alone. */
module ResetEffects {
  import opened Common
  import opened Commits
  import opened Repository
  import opened WorktreeReset
  import Decimal

  // ---- frames --------------------------------------------------------------------

  /** Every other worktree is as it was. */
  predicate OthersAlone(before: Repo, after: Repo, wt: string) {
    && after.worktrees.Keys == before.worktrees.Keys
    && (forall other :: other in before.worktrees && other != wt ==> after.worktrees[other] == before.worktrees[other])
    && after.originHead == before.originHead
  }

  /** The refs outside `touched` are as they were. */
  ghost predicate RefsAlone(before: Refs, after: Refs, touched: set<string>) {
    forall ref :: ref !in touched ==>
      (ref in before <==> ref in after) && (ref in before ==> after[ref] == before[ref])
  }

  /** The ref that a commit in the worktree moves, if HEAD is on a branch. */
  function HeadRefs(repo: Repo, wt: string): set<string>
    requires wt in repo.worktrees
  {
    match repo.worktrees[wt].head
    case OnBranch(b) => {LocalRef(b)}
    case Detached(_) => {}
  }

  /** The refs that an archive of the branch may create. */
  function ArchiveRefs(refs: Refs, branch: string, step: ArchiveStep): set<string> {
    {LocalRef(ArchiveName(branch, step.stamp, 0))}
    + match FirstFreeArchive(refs, branch, step.stamp)
      case None => {}
      case Some(k) => {LocalRef(ArchiveName(branch, step.stamp, k))}
  }

  // ---- the preparation -----------------------------------------------------------

  /**
   The preparation moves at most the branch that HEAD is on, and that only to a commit
   on top of it; HEAD stays on its branch, and a worktree that is cleaned is clean.
   */
  lemma PrepareEffects(repo: Repo, wt: string, mode: PreserveFailureMode, save: Preparation)
    requires wt in repo.worktrees
    ensures var (prepared, r) := Prepare(repo, wt, mode, save);
            var saves := repo.worktrees[wt].dirty && save.Saved?;
            && OthersAlone(repo, prepared, wt)
            && RefsAlone(repo.refs, prepared.refs, HeadRefs(repo, wt))
            && (!saves ==> prepared.refs == repo.refs && prepared.worktrees[wt].head == repo.worktrees[wt].head)
            && (saves ==> r == Ok(PreservedBeforeReset) && !prepared.worktrees[wt].dirty
                          && HeadCommit(prepared, wt) == Some(NextCommit(repo, wt, save.content)))
            && (repo.worktrees[wt].head.OnBranch? ==> prepared.worktrees[wt].head == repo.worktrees[wt].head)
            && (r == Ok(PreserveFailedForceReset) ==> !prepared.worktrees[wt].dirty)
            && (r.Err? || r == Ok(PreserveFailedResetSkipped) ==> prepared == repo)
  {
  }

  /** Exactly when the preparation lets the reset go on, and why it does not. */
  lemma PrepareProceedsIff(repo: Repo, wt: string, mode: PreserveFailureMode, save: Preparation)
    requires wt in repo.worktrees
    ensures var r := Prepare(repo, wt, mode, save).1;
            var failed := repo.worktrees[wt].dirty && save.SaveFailed?;
            && (r.Err? <==> save.StatusFails? || (failed && mode == ForceReset && !save.force.Forced?))
            && (r == Ok(PreserveFailedResetSkipped) <==> failed && mode == SkipReset)
            && (r == Ok(PreserveFailedForceReset) <==> failed && mode == ForceReset && save.force.Forced?)
            && (r == Ok(PreservedBeforeReset) <==> repo.worktrees[wt].dirty && save.Saved?)
  {
  }

  // ---- the checkout -----------------------------------------------------------------

  lemma RefsAloneTransitive(a: Refs, b: Refs, c: Refs, s: set<string>, t: set<string>, all: set<string>)
    requires RefsAlone(a, b, s) && RefsAlone(b, c, t) && s + t <= all
    ensures RefsAlone(a, c, all)
  {
  }

  lemma OthersAloneTransitive(a: Repo, b: Repo, c: Repo, wt: string)
    requires OthersAlone(a, b, wt) && OthersAlone(b, c, wt)
    ensures OthersAlone(a, c, wt)
  {
  }

  /** A checkout moves the branch to what the start meant and HEAD to the branch, and nothing else. */
  lemma CheckoutEffects(repo: Repo, wt: string, branch: string, start: string, refused: bool)
    requires wt in repo.worktrees
    ensures var done := CheckoutReset(repo, wt, branch, start, refused);
            && (done.Some? <==> !refused && Resolve(repo.refs, start).Some? && CanWrite(repo.refs, LocalRef(branch)))
            && (done.Some? ==>
                  && OthersAlone(repo, done.value, wt)
                  && RefsAlone(repo.refs, done.value.refs, {LocalRef(branch)})
                  && done.value.worktrees[wt] == Worktree(OnBranch(branch), repo.worktrees[wt].dirty)
                  && LocalRef(branch) in done.value.refs
                  && Some(done.value.refs[LocalRef(branch)]) == Resolve(repo.refs, start))
  {
  }

  // ---- dispatch ------------------------------------------------------------------

  lemma ArchiveEffects(refs: Refs, branch: string, baseRef: string, step: ArchiveStep)
    ensures RefsAlone(refs, ArchiveIfAhead(refs, branch, baseRef, step).0, ArchiveRefs(refs, branch, step))
    ensures LocalRef(branch) in refs ==> LocalRef(branch) in ArchiveIfAhead(refs, branch, baseRef, step).0
  {
  }

  /**
   A dispatch reset that reports a change has HEAD on the expected branch, and that
   branch at what the reported start ref meant once the archive was made; no other
   worktree is touched.  One that reports none moves no head and touches no ref but
   the branch that HEAD was on.
   */
  lemma DispatchLands(repo: Repo, wt: string, expected: string, trunk: string, save: Preparation, step: ArchiveStep,
                      refused: bool)
    requires wt in repo.worktrees
    ensures var (after, r) := Dispatch(repo, wt, expected, trunk, save, step, refused);
            && OthersAlone(repo, after, wt)
            && (r.Ok? && r.value.changed ==>
                  && PreferredTrunkStart(repo.refs, trunk).Ok?
                  && r.value.startRef == PreferredTrunkStart(repo.refs, trunk).value.refName
                  && r.value.fallback == PreferredTrunkStart(repo.refs, trunk).value.fallback
                  && after.worktrees[wt].head == OnBranch(expected)
                  && LocalRef(expected) in after.refs
                  && var prepared := Prepare(repo, wt, SkipReset, save).0;
                     var archived := ArchiveIfAhead(prepared.refs, expected, r.value.startRef, step).0;
                     && Resolve(archived, r.value.startRef) == Some(after.refs[LocalRef(expected)])
                     && after.worktrees[wt].dirty == prepared.worktrees[wt].dirty)
            && (r.Err? || !r.value.changed ==>
                  repo.worktrees[wt].head.OnBranch? ==> after.worktrees[wt].head == repo.worktrees[wt].head)
  {
    var selection := PreferredTrunkStart(repo.refs, trunk);
    if repo.worktrees[wt].head.OnBranch? && repo.worktrees[wt].head.branch != expected && selection.Ok? {
      PrepareEffects(repo, wt, SkipReset, save);
      var (prepared, reason) := Prepare(repo, wt, SkipReset, save);
      if Proceeds(reason) {
        var start := selection.value.refName;
        var archived := prepared.(refs := ArchiveIfAhead(prepared.refs, expected, start, step).0);
        CheckoutEffects(archived, wt, expected, start, refused);
        DispatchForm(repo, wt, expected, trunk, save, step, refused);
      }
    }
  }

  /** A dispatch that prepares the worktree: archive, then checkout. */
  lemma DispatchForm(repo: Repo, wt: string, expected: string, trunk: string, save: Preparation, step: ArchiveStep,
                     refused: bool)
    requires wt in repo.worktrees && repo.worktrees[wt].head.OnBranch? && repo.worktrees[wt].head.branch != expected
    requires PreferredTrunkStart(repo.refs, trunk).Ok? && Proceeds(Prepare(repo, wt, SkipReset, save).1)
    ensures var start := PreferredTrunkStart(repo.refs, trunk).value;
            var (prepared, reason) := Prepare(repo, wt, SkipReset, save);
            var archived := prepared.(refs := ArchiveIfAhead(prepared.refs, expected, start.refName, step).0);
            && wt in archived.worktrees
            && Dispatch(repo, wt, expected, trunk, save, step, refused)
               == match CheckoutReset(archived, wt, expected, start.refName, refused)
                  case None => (archived, Err(CheckoutRefused(expected)))
                  case Some(done) =>
                    (done, Ok(DispatchReset(true, start.refName, start.fallback, Some(reason.value))))
  {
  }

  /** Exactly when a dispatch reset reports a change, and which reason it gives. */
  lemma DispatchChangesIff(repo: Repo, wt: string, expected: string, trunk: string, save: Preparation,
                           step: ArchiveStep, refused: bool)
    requires wt in repo.worktrees && repo.worktrees[wt].head.OnBranch?
    requires PreferredTrunkStart(repo.refs, trunk).Ok?
    ensures var (after, r) := Dispatch(repo, wt, expected, trunk, save, step, refused);
            var (prepared, reason) := Prepare(repo, wt, SkipReset, save);
            var start := PreferredTrunkStart(repo.refs, trunk).value.refName;
            var archived := ArchiveIfAhead(prepared.refs, expected, start, step).0;
            if repo.worktrees[wt].head.branch == expected then
              after == repo && r == Ok(DispatchReset(false, expected, None, None))
            else
              && (r.Ok? && r.value.changed
                  <==> && Proceeds(reason) && !refused
                       && Resolve(archived, start).Some? && CanWrite(archived, LocalRef(expected)))
              && (r.Ok? ==> reason.Ok? && r.value.reason == Some(reason.value))
              && (reason.Err? ==> r == Err(reason.error))
              && (r.Err? && Proceeds(reason) ==> r == Err(CheckoutRefused(expected)) && after.refs == archived)
              && (!Proceeds(reason) ==> after == prepared)
  {
  }

  // ---- resets to the base branch ----------------------------------------------------

  /** A base reset reports the reason of its preparation, lands on the base branch, and touches no other worktree. */
  lemma ResetToBaseLands(repo: Repo, wt: string, base: string, trunk: string, mode: PreserveFailureMode,
                         save: Preparation, step: ArchiveStep, refused: bool)
    requires wt in repo.worktrees
    ensures var (after, r) := ResetToBase(repo, wt, base, trunk, mode, save, step, refused);
            var (prepared, reason) := Prepare(repo, wt, mode, save);
            && OthersAlone(repo, after, wt)
            && (r.Ok? ==> reason == r)
            && (reason.Err? ==> r == reason)
            && (!Proceeds(reason) ==> after == prepared)
            && (Proceeds(r) ==>
                  && after.worktrees[wt].head == OnBranch(base)
                  && after.worktrees[wt].dirty == prepared.worktrees[wt].dirty)
            && (refused && Proceeds(reason) ==> r.Err?)
  {
    PrepareEffects(repo, wt, mode, save);
    var (prepared, reason) := Prepare(repo, wt, mode, save);
    if Proceeds(reason) {
      ResetToBaseForm(repo, wt, base, trunk, mode, save, step, refused);
      var archived := BaseArchive(repo, prepared, wt, base, trunk, save, step);
      if archived.Ok? {
        var kept := prepared.(refs := archived.value);
        CheckoutEffects(kept, wt, base, EffectiveTrunk(kept, trunk), refused);
      }
    }
  }

  /** The archive step of a base reset: HEAD when it was just saved on the base branch, else the base branch. */
  function BaseArchive(repo: Repo, prepared: Repo, wt: string, base: string, trunk: string, save: Preparation,
                       step: ArchiveStep): Result<Refs, GitError>
    requires wt in repo.worktrees && wt in prepared.worktrees
  {
    if repo.worktrees[wt].dirty && save.Saved? && CurrentBranchOr(repo, wt, base) == base then
      ArchiveHead(prepared, wt, base, step)
    else Ok(ArchiveIfAhead(prepared.refs, base, EffectiveTrunk(prepared, trunk), step).0)
  }

  lemma ResetToBaseForm(repo: Repo, wt: string, base: string, trunk: string, mode: PreserveFailureMode,
                        save: Preparation, step: ArchiveStep, refused: bool)
    requires wt in repo.worktrees && Proceeds(Prepare(repo, wt, mode, save).1)
    ensures var (prepared, reason) := Prepare(repo, wt, mode, save);
            && wt in prepared.worktrees
            && ResetToBase(repo, wt, base, trunk, mode, save, step, refused)
               == match BaseArchive(repo, prepared, wt, base, trunk, save, step)
                  case Err(e) => (prepared, Err(e))
                  case Ok(refs) => CheckoutBase(prepared.(refs := refs), wt, base, trunk, refused, reason.value)
  {
  }

  /**
   A clean-only reset leaves a dirty worktree alone; otherwise, unless the checkout is
   declined, HEAD is on the base branch and that at what the trunk meant.
   */
  lemma ResetIfCleanLands(repo: Repo, wt: string, base: string, trunk: string, statusFails: bool, step: ArchiveStep,
                          refused: bool)
    requires wt in repo.worktrees
    ensures var (after, r) := ResetToBaseIfClean(repo, wt, base, trunk, statusFails, step, refused);
            var archived := ArchiveIfAhead(repo.refs, base, EffectiveTrunk(repo, trunk), step).0;
            var start := Resolve(archived, EffectiveTrunk(repo.(refs := archived), trunk));
            && OthersAlone(repo, after, wt)
            && (r == Ok(PreserveFailedResetSkipped) <==> repo.worktrees[wt].dirty && !statusFails)
            && (r == Ok(PreserveFailedResetSkipped) ==> after == repo)
            && (r == Ok(CleanReset)
                <==> && (!repo.worktrees[wt].dirty || statusFails)
                     && !refused && start.Some? && CanWrite(archived, LocalRef(base)))
            && (r == Ok(CleanReset) ==>
                  && after.worktrees[wt] == Worktree(OnBranch(base), repo.worktrees[wt].dirty)
                  && after.refs == archived[LocalRef(base) := start.value])
            && (r.Err? ==> r == Err(CheckoutRefused(base)) && after == repo.(refs := archived))
  {
  }

  // ---- the refs that stay ---------------------------------------------------------------

  /** What the reset of `branch` may touch: the branch of HEAD, the archive of `branch`, and `branch` itself. */
  function TouchedRefs(repo: Repo, prepared: Repo, wt: string, branch: string, step: ArchiveStep): set<string>
    requires wt in repo.worktrees
  {
    HeadRefs(repo, wt) + ArchiveRefs(prepared.refs, branch, step) + {LocalRef(branch)}
  }

  /** A dispatch reset touches no other ref. */
  lemma DispatchRefs(repo: Repo, wt: string, expected: string, trunk: string, save: Preparation, step: ArchiveStep,
                     refused: bool)
    requires wt in repo.worktrees
    ensures var prepared := Prepare(repo, wt, SkipReset, save).0;
            RefsAlone(repo.refs, Dispatch(repo, wt, expected, trunk, save, step, refused).0.refs,
                      TouchedRefs(repo, prepared, wt, expected, step))
  {
    var (prepared, reason) := Prepare(repo, wt, SkipReset, save);
    PrepareEffects(repo, wt, SkipReset, save);
    var selection := PreferredTrunkStart(repo.refs, trunk);
    if repo.worktrees[wt].head.OnBranch? && repo.worktrees[wt].head.branch != expected && selection.Ok?
       && Proceeds(reason) {
      var start := selection.value.refName;
      DispatchForm(repo, wt, expected, trunk, save, step, refused);
      ArchiveThenCheckoutRefs(repo, prepared, wt, expected, start, step, refused);
    }
  }

  lemma ArchiveThenCheckoutRefs(repo: Repo, prepared: Repo, wt: string, branch: string, start: string,
                                step: ArchiveStep, refused: bool)
    requires wt in repo.worktrees && wt in prepared.worktrees
    requires RefsAlone(repo.refs, prepared.refs, HeadRefs(repo, wt))
    ensures var archived := prepared.(refs := ArchiveIfAhead(prepared.refs, branch, start, step).0);
            var done := CheckoutReset(archived, wt, branch, start, refused);
            && RefsAlone(repo.refs, archived.refs, TouchedRefs(repo, prepared, wt, branch, step))
            && (done.Some? ==> RefsAlone(repo.refs, done.value.refs, TouchedRefs(repo, prepared, wt, branch, step)))
  {
    var archived := prepared.(refs := ArchiveIfAhead(prepared.refs, branch, start, step).0);
    var head, archives := HeadRefs(repo, wt), ArchiveRefs(prepared.refs, branch, step);
    ArchiveEffects(prepared.refs, branch, start, step);
    RefsAloneTransitive(repo.refs, prepared.refs, archived.refs, head, archives, head + archives);
    CheckoutEffects(archived, wt, branch, start, refused);
    var done := CheckoutReset(archived, wt, branch, start, refused);
    if done.Some? {
      RefsAloneTransitive(repo.refs, archived.refs, done.value.refs, head + archives, {LocalRef(branch)},
                          TouchedRefs(repo, prepared, wt, branch, step));
    }
  }

  /** A base reset touches no other ref. */
  lemma ResetToBaseRefs(repo: Repo, wt: string, base: string, trunk: string, mode: PreserveFailureMode,
                        save: Preparation, step: ArchiveStep, refused: bool)
    requires wt in repo.worktrees
    ensures var prepared := Prepare(repo, wt, mode, save).0;
            RefsAlone(repo.refs, ResetToBase(repo, wt, base, trunk, mode, save, step, refused).0.refs,
                      TouchedRefs(repo, prepared, wt, base, step))
  {
    var (prepared, reason) := Prepare(repo, wt, mode, save);
    PrepareEffects(repo, wt, mode, save);
    if Proceeds(reason) {
      ResetToBaseForm(repo, wt, base, trunk, mode, save, step, refused);
      var archived := BaseArchive(repo, prepared, wt, base, trunk, save, step);
      if archived.Ok? {
        BaseArchiveEffects(repo, prepared, wt, base, trunk, save, step);
        BaseCheckoutRefs(repo, prepared, wt, base, trunk, step, archived.value, refused, reason.value);
      }
    }
  }

  lemma BaseArchiveEffects(repo: Repo, prepared: Repo, wt: string, base: string, trunk: string, save: Preparation,
                           step: ArchiveStep)
    requires wt in repo.worktrees && wt in prepared.worktrees
    requires BaseArchive(repo, prepared, wt, base, trunk, save, step).Ok?
    ensures RefsAlone(prepared.refs, BaseArchive(repo, prepared, wt, base, trunk, save, step).value,
                      ArchiveRefs(prepared.refs, base, step))
  {
    ArchiveEffects(prepared.refs, base, EffectiveTrunk(prepared, trunk), step);
  }

  lemma BaseCheckoutRefs(repo: Repo, prepared: Repo, wt: string, base: string, trunk: string, step: ArchiveStep,
                         archived: Refs, refused: bool, reason: ResetReason)
    requires wt in repo.worktrees && wt in prepared.worktrees
    requires RefsAlone(repo.refs, prepared.refs, HeadRefs(repo, wt))
    requires RefsAlone(prepared.refs, archived, ArchiveRefs(prepared.refs, base, step))
    ensures RefsAlone(repo.refs, CheckoutBase(prepared.(refs := archived), wt, base, trunk, refused, reason).0.refs,
                      TouchedRefs(repo, prepared, wt, base, step))
  {
    var kept := prepared.(refs := archived);
    var head, archives := HeadRefs(repo, wt), ArchiveRefs(prepared.refs, base, step);
    RefsAloneTransitive(repo.refs, prepared.refs, archived, head, archives, head + archives);
    CheckoutEffects(kept, wt, base, EffectiveTrunk(kept, trunk), refused);
    var done := CheckoutReset(kept, wt, base, EffectiveTrunk(kept, trunk), refused);
    if done.Some? {
      RefsAloneTransitive(repo.refs, archived, done.value.refs, head + archives, {LocalRef(base)},
                          TouchedRefs(repo, prepared, wt, base, step));
    }
  }

  // ---- the baseline branch -------------------------------------------------------------

  /** A reported repair has put the branch, which did not exist, at the reported commit; nothing else moves. */
  lemma BaselineRepaired(repo: Repo, base: string, trunk: string)
    ensures var (after, r) := EnsureBaseline(repo, base, trunk);
            && after.worktrees == repo.worktrees && after.originHead == repo.originHead
            && (LocalRef(base) in repo.refs <==> r == Ok(None))
            && (r.Err? || r == Ok(None) ==> after == repo)
            && (r.Ok? && r.value.Some? ==>
                  && LocalRef(base) !in repo.refs
                  && PreferredTrunkStart(repo.refs, trunk).Ok?
                  && var start := PreferredTrunkStart(repo.refs, trunk).value;
                     && Resolve(repo.refs, start.refName).Some?
                     && var c := Resolve(repo.refs, start.refName).value;
                        && r.value.value == BaselineRepair(base, start.refName, c, start.fallback)
                        && after.refs == repo.refs[LocalRef(base) := c])
  {
  }

  /** Why there is no repair of a missing branch. */
  lemma BaselineFailsIff(repo: Repo, base: string, trunk: string)
    requires LocalRef(base) !in repo.refs
    ensures EnsureBaseline(repo, base, trunk).1.Err? <==>
            || PreferredTrunkStart(repo.refs, trunk).Err?
            || Resolve(repo.refs, PreferredTrunkStart(repo.refs, trunk).value.refName).None?
            || !CanCreate(repo.refs, LocalRef(base))
  {
  }

  // ---- finished runs ---------------------------------------------------------------------

  /** A run that is reported as cleaned has neither a worktree nor a branch any more; nothing else goes. */
  lemma CleanedIsGone(repo: Repo, run: PhaseWorktree, outcome: RunOutcome, removeFails: bool)
    ensures var (after, r) := Finalize(repo, run, outcome, removeFails);
            && (r == Ok(Cleaned) ==>
                  && run.path !in after.worktrees && LocalRef(run.branch) !in after.refs
                  && after.worktrees == repo.worktrees - {run.path}
                  && after.refs == repo.refs - {LocalRef(run.branch)})
            && (r.Ok? && r.value != Cleaned ==> after == repo)
            && (r.Err? ==> after.refs == repo.refs)
            && after.originHead == repo.originHead
  {
  }

  /** What becomes of a run, by its outcome. */
  lemma FinalizeDecides(repo: Repo, run: PhaseWorktree, outcome: RunOutcome, removeFails: bool)
    ensures var r := Finalize(repo, run, outcome, removeFails).1;
            var tip, base := Resolve(repo.refs, run.branch), Resolve(repo.refs, run.base);
            && (r == Ok(KeptForFailure) <==> outcome == Failed)
            && (r == Ok(KeptForReview)
                <==> && outcome == Completed && tip.Some?
                     && (tip.value == run.startCommit || (base.Some? && !IsAncestor(tip.value, base.value))))
            && (r == Err(RemoveFailed(run.path)) ==> run.path in repo.worktrees && removeFails)
            && (outcome == Completed && r == Ok(Cleaned) ==>
                  tip.Some? && tip.value != run.startCommit && base.Some? && IsAncestor(tip.value, base.value))
            && (outcome == DryRun ==> r.Err? || r == Ok(Cleaned))
  {
  }

  // ---- names -------------------------------------------------------------------------------

  const USUAL_TRUNKS := ["mainline", "main", "master", "trunk"]

  /** A configured trunk is taken as it is; `main` stands for the remote's default or the first usual name there is. */
  lemma EffectiveTrunkIs(repo: Repo, trunk: string)
    ensures trunk != "main" ==> EffectiveTrunk(repo, trunk) == trunk
    ensures trunk == "main" && repo.originHead.Some? ==> EffectiveTrunk(repo, trunk) == repo.originHead.value
    ensures trunk == "main" && repo.originHead.None? ==>
              || (exists k :: && 0 <= k < 4 && EffectiveTrunk(repo, trunk) == USUAL_TRUNKS[k]
                              && LocalRef(USUAL_TRUNKS[k]) in repo.refs
                              && forall j :: 0 <= j < k ==> LocalRef(USUAL_TRUNKS[j]) !in repo.refs)
              || (EffectiveTrunk(repo, trunk) == "main"
                  && forall j :: 0 <= j < 4 ==> LocalRef(USUAL_TRUNKS[j]) !in repo.refs)
  {
    assert USUAL_TRUNKS[0] == "mainline" && USUAL_TRUNKS[1] == "main";
    assert USUAL_TRUNKS[2] == "master" && USUAL_TRUNKS[3] == "trunk";
  }

  /** The archive names of one branch and time stamp are all different, so the loop tries 101 names. */
  lemma ArchiveNamesDiffer(branch: string, stamp: nat, j: nat, k: nat)
    ensures ArchiveName(branch, stamp, j) == ArchiveName(branch, stamp, k) <==> j == k
  {
    var first := "preserved/" + Slug(branch) + "-" + Decimal.Print(stamp);
    if j > 0 {
      assert ArchiveName(branch, stamp, j) == first + "-" + Decimal.Print(j);
      assert ArchiveName(branch, stamp, j)[|first| + 1..] == Decimal.Print(j);
    }
    if k > 0 {
      assert ArchiveName(branch, stamp, k) == first + "-" + Decimal.Print(k);
      assert ArchiveName(branch, stamp, k)[|first| + 1..] == Decimal.Print(k);
    }
    if j > 0 && k > 0 && ArchiveName(branch, stamp, j) == ArchiveName(branch, stamp, k) {
      Decimal.PrintInjective(j, k);
    }
  }

  /** An archive name is `preserved/`, then one path component that starts with the branch, dashes for slashes. */
  lemma ArchiveNameIsFlat(branch: string, stamp: nat, k: nat)
    ensures var name := ArchiveName(branch, stamp, k);
            && "preserved/" <= name && '/' !in name[10..]
            && |name| >= 10 + |branch|
            && forall i :: 0 <= i < |branch| ==> name[10 + i] == if branch[i] == '/' then '-' else branch[i]
  {
    var slug, time := Slug(branch), Decimal.Print(stamp);
    var number := if k == 0 then "" else "-" + Decimal.Print(k);
    DigitsHaveNoSlash(time);
    DigitsHaveNoSlash(Decimal.Print(k));
    assert '/' !in slug && '/' !in number;
    NoSlashInConcat(slug, "-" + time, number);
    assert ArchiveName(branch, stamp, k) == "preserved/" + (slug + ("-" + time) + number);
  }

  lemma DigitsHaveNoSlash(s: string)
    requires Decimal.AllDigits(s)
    ensures '/' !in s
  {
  }

  lemma NoSlashInConcat(a: string, b: string, c: string)
    requires '/' !in a && '/' !in b && '/' !in c
    ensures '/' !in a + b + c
  {
  }
}
