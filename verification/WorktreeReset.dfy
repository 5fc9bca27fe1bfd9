/**
 The branch-rewriting operations of the worktree code: the reset of a worktree
 for dispatch, to its base branch, and to its base branch when clean, the repair
 of a missing baseline branch, and the cleanup of a finished phase run.

 Each operation is given twice: as a function from one repository state to the
 next, about which ResetSafety proves its theorems, and as a method of the class
 `GitStore`, which changes the refs step by step and is proved to compute it.
 */
module WorktreeReset {
  import opened Common
  import opened Commits
  import opened Repository

  datatype PreserveFailureMode = SkipReset | ForceReset

  datatype ResetReason =
    | PreservedBeforeReset
    | CleanReset
    | PreserveFailedResetSkipped
    | PreserveFailedForceReset
  {
    predicate ResetPerformed() {
      this != PreserveFailedResetSkipped
    }
  }

  /** `git reset --hard` and `git clean` of a worktree whose auto-save failed. */
  datatype ForcedClean = Forced | HardResetFails | CleanFails

  /** How the preparation of a worktree goes: whether `git status` answers, and what the auto-save comes to. */
  datatype Preparation = StatusFails | Saved(content: string) | NothingStaged | SaveFailed(force: ForcedClean)

  /** The time stamp of the archive names, and whether `git branch` fails on the archive for a reason of its own. */
  datatype ArchiveStep = ArchiveStep(stamp: nat, fails: bool)

  datatype GitError =
    | DetachedHead
    | StatusFailed
    | HardResetFailed
    | CleanFailed
    | RemoveFailed(path: string)
    | CountFailed
    | UnknownRevision(name: string)
    | ArchiveNamesTaken
    | ArchiveRefused(name: string)
    | CheckoutRefused(branch: string)
    | RefRefused(ref: string)
    | BranchInUse(branch: string)

  // ---- choice of the trunk ref -------------------------------------------------

  /** Why the start ref is not simply the remote trunk. */
  datatype Fallback =
    | OriginUnreachable
    | LocalAhead(ahead: nat)
    | Divergent(ahead: nat, originAhead: nat)

  datatype TrunkStart = TrunkStart(refName: string, fallback: Option<Fallback>)

  function PreferredTrunkStart(refs: Refs, trunk: string): Result<TrunkStart, GitError> {
    var local, remote := LocalRef(trunk), RemoteRef("origin/" + trunk);
    if remote !in refs then Ok(TrunkStart(trunk, Some(OriginUnreachable)))
    else if local !in refs || refs[local] == refs[remote] then Ok(TrunkStart("origin/" + trunk, None))
    else if IsAncestor(refs[remote], refs[local]) then
      match RevListCount(refs, "origin/" + trunk, trunk)
      case Some(ahead) => Ok(TrunkStart(trunk, Some(LocalAhead(ahead))))
      case None => Err(CountFailed)
    else if IsAncestor(refs[local], refs[remote]) then Ok(TrunkStart("origin/" + trunk, None))
    else
      match (RevListCount(refs, "origin/" + trunk, trunk), RevListCount(refs, trunk, "origin/" + trunk))
      case (Some(ahead), Some(originAhead)) => Ok(TrunkStart(trunk, Some(Divergent(ahead, originAhead))))
      case _ => Err(CountFailed)
  }

  // ---- operations on values ----------------------------------------------------

  function Prepare(repo: Repo, wt: string, mode: PreserveFailureMode, save: Preparation)
    : (Repo, Result<ResetReason, GitError>)
    requires wt in repo.worktrees
  {
    if save.StatusFails? then (repo, Err(StatusFailed))
    else if !repo.worktrees[wt].dirty then (repo, Ok(CleanReset))
    else match save
      case Saved(content) => (CommitAll(repo, wt, content), Ok(PreservedBeforeReset))
      case NothingStaged => (repo, Ok(CleanReset))
      case SaveFailed(force) =>
        if mode == SkipReset then (repo, Ok(PreserveFailedResetSkipped))
        else
          match force
          case HardResetFails => (repo, Err(HardResetFailed))
          case CleanFails => (repo, Err(CleanFailed))
          case Forced =>
            (repo.(worktrees := repo.worktrees[wt := repo.worktrees[wt].(dirty := false)]),
             Ok(PreserveFailedForceReset))
  }

  /** The preparation went through and did not ask to leave the worktree alone. */
  predicate Proceeds(r: Result<ResetReason, GitError>) {
    r.Ok? && r.value.ResetPerformed()
  }

  function ArchiveIfAhead(refs: Refs, branch: string, baseRef: string, step: ArchiveStep)
    : (Refs, Result<Option<string>, GitError>)
  {
    if LocalRef(branch) !in refs then (refs, Ok(None))
    else match RevListCount(refs, baseRef, branch)
      case None => (refs, Ok(None))
      case Some(ahead) =>
        if ahead == 0 then (refs, Ok(None))
        else match FirstFreeArchive(refs, branch, step.stamp)
          case None => (refs, Err(ArchiveNamesTaken))
          case Some(k) =>
            var name := ArchiveName(branch, step.stamp, k);
            if !step.fails && CanCreate(refs, LocalRef(name)) then
              (refs[LocalRef(name) := refs[LocalRef(branch)]], Ok(Some(name)))
            else (refs, Err(ArchiveRefused(name)))
  }

  function ArchiveHead(repo: Repo, wt: string, base: string, step: ArchiveStep): Result<Refs, GitError>
    requires wt in repo.worktrees
  {
    var name := ArchiveName(base, step.stamp, 0);
    match HeadCommit(repo, wt)
    case Some(tip) =>
      if !step.fails && CanCreate(repo.refs, LocalRef(name)) then Ok(repo.refs[LocalRef(name) := tip])
      else Err(ArchiveRefused(name))
    case None => Err(ArchiveRefused(name))
  }

  datatype DispatchReset =
    DispatchReset(changed: bool, startRef: string, fallback: Option<Fallback>, reason: Option<ResetReason>)

  function Dispatch(repo: Repo, wt: string, expected: string, trunk: string, save: Preparation, step: ArchiveStep,
                    refused: bool): (Repo, Result<DispatchReset, GitError>)
  {
    if wt !in repo.worktrees || repo.worktrees[wt].head.Detached? then (repo, Err(DetachedHead))
    else if repo.worktrees[wt].head.branch == expected then
      (repo, Ok(DispatchReset(false, expected, None, None)))
    else match PreferredTrunkStart(repo.refs, trunk)
      case Err(e) => (repo, Err(e))
      case Ok(start) =>
        var (prepared, r) := Prepare(repo, wt, SkipReset, save);
        match r
        case Err(e) => (prepared, Err(e))
        case Ok(reason) =>
        if !reason.ResetPerformed() then
          (prepared, Ok(DispatchReset(false, start.refName, start.fallback, Some(reason))))
        else
          var archived := prepared.(refs := ArchiveIfAhead(prepared.refs, expected, start.refName, step).0);
          match CheckoutReset(archived, wt, expected, start.refName, refused)
          case None => (archived, Err(CheckoutRefused(expected)))
          case Some(done) => (done, Ok(DispatchReset(true, start.refName, start.fallback, Some(reason))))
  }

  function CurrentBranchOr(repo: Repo, wt: string, base: string): string
    requires wt in repo.worktrees
  {
    match repo.worktrees[wt].head
    case OnBranch(b) => b
    case Detached(_) => base
  }

  function CheckoutBase(repo: Repo, wt: string, base: string, trunk: string, refused: bool, reason: ResetReason)
    : (Repo, Result<ResetReason, GitError>)
    requires wt in repo.worktrees
  {
    match CheckoutReset(repo, wt, base, EffectiveTrunk(repo, trunk), refused)
    case None => (repo, Err(CheckoutRefused(base)))
    case Some(done) => (done, Ok(reason))
  }

  function ResetToBase(repo: Repo, wt: string, base: string, trunk: string, mode: PreserveFailureMode,
                       save: Preparation, step: ArchiveStep, refused: bool): (Repo, Result<ResetReason, GitError>)
  {
    if wt !in repo.worktrees then (repo, Ok(CleanReset))
    else
      var (prepared, r) := Prepare(repo, wt, mode, save);
      match r
      case Err(e) => (prepared, Err(e))
      case Ok(reason) =>
      if !reason.ResetPerformed() then (prepared, Ok(reason))
      else if reason == PreservedBeforeReset && CurrentBranchOr(repo, wt, base) == base then
        match ArchiveHead(prepared, wt, base, step)
        case Err(e) => (prepared, Err(e))
        case Ok(refs) => CheckoutBase(prepared.(refs := refs), wt, base, trunk, refused, reason)
      else
        var refs := ArchiveIfAhead(prepared.refs, base, EffectiveTrunk(prepared, trunk), step).0;
        CheckoutBase(prepared.(refs := refs), wt, base, trunk, refused, reason)
  }

  /** `statusFails`: the list of changes cannot be read, and counts as empty. */
  function ResetToBaseIfClean(repo: Repo, wt: string, base: string, trunk: string, statusFails: bool,
                              step: ArchiveStep, refused: bool): (Repo, Result<ResetReason, GitError>)
  {
    if wt !in repo.worktrees then (repo, Ok(CleanReset))
    else if repo.worktrees[wt].dirty && !statusFails then (repo, Ok(PreserveFailedResetSkipped))
    else
      var refs := ArchiveIfAhead(repo.refs, base, EffectiveTrunk(repo, trunk), step).0;
      CheckoutBase(repo.(refs := refs), wt, base, trunk, refused, CleanReset)
  }

  datatype BaselineRepair =
    BaselineRepair(branch: string, startRef: string, startCommit: Commit, fallback: Option<Fallback>)

  function EnsureBaseline(repo: Repo, base: string, trunk: string): (Repo, Result<Option<BaselineRepair>, GitError>) {
    if LocalRef(base) in repo.refs then (repo, Ok(None))
    else match PreferredTrunkStart(repo.refs, trunk)
      case Err(e) => (repo, Err(e))
      case Ok(start) =>
        match Resolve(repo.refs, start.refName)
        case None => (repo, Err(UnknownRevision(start.refName)))
        case Some(c) =>
          if CanCreate(repo.refs, LocalRef(base)) then
            (repo.(refs := repo.refs[LocalRef(base) := c]),
             Ok(Some(BaselineRepair(base, start.refName, c, start.fallback))))
          else (repo, Err(RefRefused(LocalRef(base))))
  }

  datatype RunOutcome = Completed | Failed | DryRun

  datatype CleanupDecision = Cleaned | KeptForReview | KeptForFailure

  datatype PhaseWorktree = PhaseWorktree(base: string, startCommit: Commit, branch: string, path: string)

  /** Some worktree still has the branch checked out, so `git branch -D` declines. */
  predicate CheckedOut(repo: Repo, branch: string) {
    exists wt :: wt in repo.worktrees && repo.worktrees[wt].head == OnBranch(branch)
  }

  /** `removeFails`: `git worktree remove` declines, where there is a worktree to remove. */
  function RemoveRun(repo: Repo, run: PhaseWorktree, removeFails: bool): (Repo, Result<CleanupDecision, GitError>) {
    var removed := repo.(worktrees := repo.worktrees - {run.path});
    if run.path in repo.worktrees && removeFails then (repo, Err(RemoveFailed(run.path)))
    else if LocalRef(run.branch) !in removed.refs then (removed, Ok(Cleaned))
    else if CheckedOut(removed, run.branch) then (removed, Err(BranchInUse(run.branch)))
    else (removed.(refs := removed.refs - {LocalRef(run.branch)}), Ok(Cleaned))
  }

  function Finalize(repo: Repo, run: PhaseWorktree, outcome: RunOutcome, removeFails: bool)
    : (Repo, Result<CleanupDecision, GitError>)
  {
    match outcome
    case Failed => (repo, Ok(KeptForFailure))
    case DryRun => RemoveRun(repo, run, removeFails)
    case Completed =>
      match Resolve(repo.refs, run.branch)
      case None => (repo, Err(UnknownRevision(run.branch)))
      case Some(tip) =>
        if tip == run.startCommit then (repo, Ok(KeptForReview))
        else match Resolve(repo.refs, run.base)
          case None => (repo, Err(UnknownRevision(run.base)))
          case Some(baseTip) =>
            if IsAncestor(tip, baseTip) then RemoveRun(repo, run, removeFails) else (repo, Ok(KeptForReview))
  }

  // ---- the same operations, step by step ---------------------------------------

  class GitStore {
    var refs: Refs
    var originHead: Option<string>
    var worktrees: map<string, Worktree>

    constructor (repo: Repo)
      ensures State() == repo
    {
      refs, originHead, worktrees := repo.refs, repo.originHead, repo.worktrees;
    }

    ghost function State(): Repo
      reads this
    {
      Repo(refs, originHead, worktrees)
    }

    method PrepareWorktreeForReset(wt: string, mode: PreserveFailureMode, save: Preparation)
      returns (r: Result<ResetReason, GitError>)
      requires wt in worktrees
      modifies this`refs, this`worktrees
      ensures (State(), r) == Prepare(old(State()), wt, mode, save)
    {
      if save.StatusFails? {
        return Err(StatusFailed);
      }
      if !worktrees[wt].dirty {
        return Ok(CleanReset);
      }
      match save {
        case Saved(content) =>
          var after := CommitAll(Repo(refs, originHead, worktrees), wt, content);
          refs, worktrees := after.refs, after.worktrees;
          return Ok(PreservedBeforeReset);
        case NothingStaged =>
          return Ok(CleanReset);
        case SaveFailed(force) =>
          if mode == SkipReset {
            return Ok(PreserveFailedResetSkipped);
          }
          if force.HardResetFails? {
            return Err(HardResetFailed);
          }
          if force.CleanFails? {
            return Err(CleanFailed);
          }
          worktrees := worktrees[wt := worktrees[wt].(dirty := false)];
          return Ok(PreserveFailedForceReset);
      }
    }

    /** The archive-before-reset step (#659), with its loop over candidate names. */
    method ArchiveBranchIfCommitsAhead(branch: string, baseRef: string, step: ArchiveStep)
      returns (r: Result<Option<string>, GitError>)
      modifies this`refs
      ensures (refs, r) == ArchiveIfAhead(old(refs), branch, baseRef, step)
    {
      if LocalRef(branch) !in refs {
        return Ok(None);
      }
      var count := RevListCount(refs, baseRef, branch);
      if count.None? || count.value == 0 {
        return Ok(None);
      }
      var suffix := 0;
      var archive := ArchiveName(branch, step.stamp, 0);
      while LocalRef(archive) in refs
        invariant suffix <= MAX_ARCHIVE_SUFFIX
        invariant archive == ArchiveName(branch, step.stamp, suffix)
        invariant FirstFreeArchive(refs, branch, step.stamp) == FirstFreeArchiveFrom(refs, branch, step.stamp, suffix)
        decreases MAX_ARCHIVE_SUFFIX - suffix
      {
        suffix := suffix + 1;
        archive := ArchiveName(branch, step.stamp, suffix);
        if suffix > MAX_ARCHIVE_SUFFIX {
          return Err(ArchiveNamesTaken);
        }
      }
      if step.fails || !CanCreate(refs, LocalRef(archive)) {
        return Err(ArchiveRefused(archive));
      }
      refs := refs[LocalRef(archive) := refs[LocalRef(branch)]];
      return Ok(Some(archive));
    }

    method ArchivePreservedBaseBranchHead(wt: string, base: string, step: ArchiveStep)
      returns (r: Result<string, GitError>)
      requires wt in worktrees
      modifies this`refs
      ensures match ArchiveHead(old(State()), wt, base, step)
              case Ok(after) => refs == after && r == Ok(ArchiveName(base, step.stamp, 0))
              case Err(e) => refs == old(refs) && r == Err(e)
    {
      var name := ArchiveName(base, step.stamp, 0);
      var tip := HeadCommit(Repo(refs, originHead, worktrees), wt);
      if tip.None? || step.fails || !CanCreate(refs, LocalRef(name)) {
        return Err(ArchiveRefused(name));
      }
      refs := refs[LocalRef(name) := tip.value];
      return Ok(name);
    }

    method CheckoutB(wt: string, branch: string, start: string, refused: bool) returns (ok: bool)
      requires wt in worktrees
      modifies this`refs, this`worktrees
      ensures match CheckoutReset(old(State()), wt, branch, start, refused)
              case Some(after) => ok && State() == after
              case None => !ok && State() == old(State())
    {
      var tip := Resolve(refs, start);
      if tip.None? || refused || !CanWrite(refs, LocalRef(branch)) {
        return false;
      }
      refs := refs[LocalRef(branch) := tip.value];
      worktrees := worktrees[wt := worktrees[wt].(head := OnBranch(branch))];
      return true;
    }

    method EnsureWorktreeBranchForDispatch(wt: string, expected: string, trunk: string, save: Preparation,
                                           step: ArchiveStep, refused: bool)
      returns (r: Result<DispatchReset, GitError>)
      modifies this`refs, this`worktrees
      ensures (State(), r) == Dispatch(old(State()), wt, expected, trunk, save, step, refused)
    {
      if wt !in worktrees || worktrees[wt].head.Detached? {
        return Err(DetachedHead);
      }
      if worktrees[wt].head.branch == expected {
        return Ok(DispatchReset(false, expected, None, None));
      }
      var selection := PreferredTrunkStart(refs, trunk);
      if selection.Err? {
        return Err(selection.error);
      }
      var start := selection.value;
      var prepared := PrepareWorktreeForReset(wt, SkipReset, save);
      if prepared.Err? {
        return Err(prepared.error);
      }
      var reason := prepared.value;
      if !reason.ResetPerformed() {
        return Ok(DispatchReset(false, start.refName, start.fallback, Some(reason)));
      }
      var _ := ArchiveBranchIfCommitsAhead(expected, start.refName, step);
      var ok := CheckoutB(wt, expected, start.refName, refused);
      if !ok {
        return Err(CheckoutRefused(expected));
      }
      return Ok(DispatchReset(true, start.refName, start.fallback, Some(reason)));
    }

    method CheckoutBaseBranch(wt: string, base: string, trunk: string, refused: bool, reason: ResetReason)
      returns (r: Result<ResetReason, GitError>)
      requires wt in worktrees
      modifies this`refs, this`worktrees
      ensures (State(), r) == CheckoutBase(old(State()), wt, base, trunk, refused, reason)
    {
      var ok := CheckoutB(wt, base, EffectiveTrunk(Repo(refs, originHead, worktrees), trunk), refused);
      if !ok {
        return Err(CheckoutRefused(base));
      }
      return Ok(reason);
    }

    method ResetWorktreeToBase(wt: string, base: string, trunk: string, mode: PreserveFailureMode, save: Preparation,
                               step: ArchiveStep, refused: bool)
      returns (r: Result<ResetReason, GitError>)
      modifies this`refs, this`worktrees
      ensures (State(), r) == ResetToBase(old(State()), wt, base, trunk, mode, save, step, refused)
    {
      if wt !in worktrees {
        return Ok(CleanReset);
      }
      var current := CurrentBranchOr(Repo(refs, originHead, worktrees), wt, base);
      var prepared := PrepareWorktreeForReset(wt, mode, save);
      if prepared.Err? {
        return Err(prepared.error);
      }
      var reason := prepared.value;
      if !reason.ResetPerformed() {
        return Ok(reason);
      }
      if reason == PreservedBeforeReset && current == base {
        var archived := ArchivePreservedBaseBranchHead(wt, base, step);
        if archived.Err? {
          return Err(archived.error);
        }
      } else {
        var start := EffectiveTrunk(Repo(refs, originHead, worktrees), trunk);
        var _ := ArchiveBranchIfCommitsAhead(base, start, step);
      }
      r := CheckoutBaseBranch(wt, base, trunk, refused, reason);
    }

    method ResetWorktreeToBaseIfClean(wt: string, base: string, trunk: string, statusFails: bool, step: ArchiveStep,
                                      refused: bool)
      returns (r: Result<ResetReason, GitError>)
      modifies this`refs, this`worktrees
      ensures (State(), r) == ResetToBaseIfClean(old(State()), wt, base, trunk, statusFails, step, refused)
    {
      if wt !in worktrees {
        return Ok(CleanReset);
      }
      if worktrees[wt].dirty && !statusFails {
        return Ok(PreserveFailedResetSkipped);
      }
      var start := EffectiveTrunk(Repo(refs, originHead, worktrees), trunk);
      var _ := ArchiveBranchIfCommitsAhead(base, start, step);
      r := CheckoutBaseBranch(wt, base, trunk, refused, CleanReset);
    }

    method EnsureBaselineBranch(base: string, trunk: string) returns (r: Result<Option<BaselineRepair>, GitError>)
      modifies this`refs
      ensures (State(), r) == EnsureBaseline(old(State()), base, trunk)
    {
      if LocalRef(base) in refs {
        return Ok(None);
      }
      var selection := PreferredTrunkStart(refs, trunk);
      if selection.Err? {
        return Err(selection.error);
      }
      var start := selection.value;
      var tip := Resolve(refs, start.refName);
      if tip.None? {
        return Err(UnknownRevision(start.refName));
      }
      if !CanCreate(refs, LocalRef(base)) {
        return Err(RefRefused(LocalRef(base)));
      }
      refs := refs[LocalRef(base) := tip.value];
      return Ok(Some(BaselineRepair(base, start.refName, tip.value, start.fallback)));
    }

    /** `remove_worktree` and `delete_branch`. */
    method RemoveWorktreeAndBranch(run: PhaseWorktree, removeFails: bool) returns (r: Result<CleanupDecision, GitError>)
      modifies this`refs, this`worktrees
      ensures (State(), r) == RemoveRun(old(State()), run, removeFails)
    {
      if run.path in worktrees && removeFails {
        return Err(RemoveFailed(run.path));
      }
      worktrees := worktrees - {run.path};
      if LocalRef(run.branch) !in refs {
        return Ok(Cleaned);
      }
      if CheckedOut(Repo(refs, originHead, worktrees), run.branch) {
        return Err(BranchInUse(run.branch));
      }
      refs := refs - {LocalRef(run.branch)};
      return Ok(Cleaned);
    }

    method FinalizeRun(run: PhaseWorktree, outcome: RunOutcome, removeFails: bool)
      returns (r: Result<CleanupDecision, GitError>)
      modifies this`refs, this`worktrees
      ensures (State(), r) == Finalize(old(State()), run, outcome, removeFails)
    {
      match outcome {
        case Failed =>
          return Ok(KeptForFailure);
        case DryRun =>
          r := RemoveWorktreeAndBranch(run, removeFails);
        case Completed =>
          var tip := Resolve(refs, run.branch);
          if tip.None? {
            return Err(UnknownRevision(run.branch));
          }
          if tip.value == run.startCommit {
            return Ok(KeptForReview);
          }
          var baseTip := Resolve(refs, run.base);
          if baseTip.None? {
            return Err(UnknownRevision(run.base));
          }
          if !IsAncestor(tip.value, baseTip.value) {
            return Ok(KeptForReview);
          }
          r := RemoveWorktreeAndBranch(run, removeFails);
      }
    }
  }
}
