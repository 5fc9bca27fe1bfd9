/**
 No reset loses work (#659): over any run of worktree operations, a commit that
 some ref reaches stays reachable, and so does every auto-save commit.  Where the
 code can lose commits, the exact condition is stated.
 */
module ResetSafety {
  import opened Common
  import opened Commits
  import opened Repository
  import opened WorktreeReset
  import PhaseRuns

  /** Everything that could be reached still can be. */
  predicate Conserves(before: Refs, after: Refs) {
    Reachable(before) <= Reachable(after)
  }

  // ---- rewriting a single ref --------------------------------------------------

  lemma ReachableTipKeepsHistory(refs: Refs, tip: Commit)
    requires tip in Reachable(refs)
    ensures History(tip) <= Reachable(refs)
  {
    var r :| r in refs && tip in History(refs[r]);
    AncestorHistoryIncluded(tip, refs[r]);
  }

  lemma AddingARefConserves(refs: Refs, ref: string, c: Commit)
    requires ref !in refs
    ensures Conserves(refs, refs[ref := c])
  {
    forall x | x in Reachable(refs)
      ensures x in Reachable(refs[ref := c])
    {
      var r :| r in refs && x in History(refs[r]);
      assert refs[ref := c][r] == refs[r];
    }
  }

  /** Pointing a ref elsewhere loses nothing exactly when its old tip is kept by another ref or by the new tip. */
  lemma MovingARefConservesIff(refs: Refs, ref: string, c: Commit)
    requires ref in refs
    ensures Conserves(refs, refs[ref := c]) <==> refs[ref] in Reachable(refs - {ref}) + History(c)
  {
    var tip, after := refs[ref], refs[ref := c];
    if tip in Reachable(refs - {ref}) + History(c) {
      if tip in History(c) {
        assert after[ref] == c;
        assert tip in Reachable(after);
      }
      DroppedTipKept(refs, ref, after);
    }
    if Conserves(refs, after) {
      assert tip in History(refs[ref]);
      assert tip in Reachable(refs);
      var r :| r in after && tip in History(after[r]);
      assert r != ref ==> r in refs - {ref} && (refs - {ref})[r] == after[r];
    }
  }

  lemma DroppedTipKept(refs: Refs, ref: string, after: Refs)
    requires ref in refs
    requires forall r :: r in refs && r != ref ==> r in after && after[r] == refs[r]
    requires refs[ref] in Reachable(refs - {ref}) || refs[ref] in Reachable(after)
    ensures Conserves(refs, after)
  {
    var tip := refs[ref];
    if tip in Reachable(refs - {ref}) {
      var r :| r in refs - {ref} && tip in History((refs - {ref})[r]);
      assert r in after && tip in History(after[r]);
    }
    ReachableTipKeepsHistory(after, tip);
    forall x | x in Reachable(refs)
      ensures x in Reachable(after)
    {
      var r :| r in refs && x in History(refs[r]);
      if r != ref {
        assert x in History(after[r]);
      }
    }
  }

  lemma DeletingARefConservesIff(refs: Refs, ref: string)
    requires ref in refs
    ensures Conserves(refs, refs - {ref}) <==> refs[ref] in Reachable(refs - {ref})
  {
    if refs[ref] in Reachable(refs - {ref}) {
      DroppedTipKept(refs, ref, refs - {ref});
    } else {
      assert refs[ref] in History(refs[ref]);
    }
  }

  // ---- the archive -------------------------------------------------------------

  /** The archive either records the tip under the first free name or leaves the refs alone. */
  lemma ArchiveOutcome(refs: Refs, branch: string, baseRef: string, step: ArchiveStep)
    ensures var (after, r) := ArchiveIfAhead(refs, branch, baseRef, step);
            match r
            case Ok(Some(name)) =>
              && LocalRef(branch) in refs && LocalRef(name) !in refs
              && after == refs[LocalRef(name) := refs[LocalRef(branch)]]
              && FirstFreeArchive(refs, branch, step.stamp).Some?
              && name == ArchiveName(branch, step.stamp, FirstFreeArchive(refs, branch, step.stamp).value)
            case _ => after == refs
  {
    FirstFreeArchiveIsFirst(refs, branch, step.stamp);
  }

  lemma ArchiveConserves(refs: Refs, branch: string, baseRef: string, step: ArchiveStep)
    ensures Conserves(refs, ArchiveIfAhead(refs, branch, baseRef, step).0)
  {
    ArchiveOutcome(refs, branch, baseRef, step);
    var (after, r) := ArchiveIfAhead(refs, branch, baseRef, step);
    if r.Ok? && r.value.Some? {
      AddingARefConserves(refs, LocalRef(r.value.value), refs[LocalRef(branch)]);
    }
  }

  /** The tip of `branch` is not contained in `start`, so rewriting the branch to `start` needs an archive. */
  predicate AheadOf(refs: Refs, branch: string, start: string) {
    && LocalRef(branch) in refs
    && Resolve(refs, start).Some?
    && !IsAncestor(refs[LocalRef(branch)], Resolve(refs, start).value)
  }

  /**
   The archive cannot be made: `git branch` fails for a reason of its own, the number
   of commits ahead overflows, the 101 names are taken, or the first name that is
   free is in the way of another ref.
   */
  predicate ArchiveBlocked(refs: Refs, branch: string, start: string, step: ArchiveStep) {
    || step.fails
    || RevListCount(refs, start, branch) == None
    || match FirstFreeArchive(refs, branch, step.stamp)
       case None => true
       case Some(k) => !CanCreate(refs, LocalRef(ArchiveName(branch, step.stamp, k)))
  }

  lemma ArchivedExactly(refs: Refs, branch: string, start: string, step: ArchiveStep)
    requires LocalRef(branch) in refs && Resolve(refs, start).Some?
    ensures var r := ArchiveIfAhead(refs, branch, start, step).1;
            (r.Ok? && r.value.Some?) <==> AheadOf(refs, branch, start) && !ArchiveBlocked(refs, branch, start, step)
  {
    RevListEmptyIffAncestor(Resolve(refs, start).value, refs[LocalRef(branch)]);
  }

  /** The commits that only `branch` holds are ahead of `start` and cannot be archived. */
  predicate Unprotected(refs: Refs, branch: string, start: string, step: ArchiveStep) {
    && AheadOf(refs, branch, start)
    && ArchiveBlocked(refs, branch, start, step)
    && refs[LocalRef(branch)] !in Reachable(refs - {LocalRef(branch)})
  }

  lemma ArchiveKeepsStart(refs: Refs, branch: string, start: string, step: ArchiveStep)
    requires Resolve(refs, start).Some?
    ensures Resolve(ArchiveIfAhead(refs, branch, start, step).0, start).Some?
  {
    ArchiveOutcome(refs, branch, start, step);
  }

  /** Once its tip is recorded under another name, a ref may be rewritten freely. */
  lemma ArchivedMoveConserves(refs: Refs, ref: string, archive: string, c: Commit)
    requires ref in refs && archive !in refs
    ensures Conserves(refs, refs[archive := refs[ref]][ref := c])
  {
    var archived := refs[archive := refs[ref]];
    var kept := archived - {ref};
    assert kept[archive] == refs[ref];
    assert refs[ref] in History(kept[archive]);
    assert refs[ref] in Reachable(kept);
    MovingARefConservesIff(archived, ref, c);
    AddingARefConserves(refs, archive, refs[ref]);
  }

  /** The archive followed by the rewrite of the branch loses commits exactly when they are unprotected. */
  lemma ArchiveThenResetConservesIff(refs: Refs, branch: string, start: string, step: ArchiveStep)
    requires Resolve(refs, start).Some?
    requires Resolve(ArchiveIfAhead(refs, branch, start, step).0, start).Some?
    ensures var archived := ArchiveIfAhead(refs, branch, start, step).0;
            Conserves(refs, archived[LocalRef(branch) := Resolve(archived, start).value])
            <==> !Unprotected(refs, branch, start, step)
  {
    var (archived, r) := ArchiveIfAhead(refs, branch, start, step);
    var ref, c := LocalRef(branch), Resolve(archived, start).value;
    ArchiveOutcome(refs, branch, start, step);
    if ref !in refs {
      AddingARefConserves(refs, ref, c);
    } else {
      ArchivedExactly(refs, branch, start, step);
      if r.Ok? && r.value.Some? {
        ArchivedMoveConserves(refs, ref, LocalRef(r.value.value), c);
      } else {
        MovingARefConservesIff(refs, ref, c);
      }
    }
  }

  // ---- the default branch is not disturbed by an archive -----------------------

  lemma ArchiveKeepsEffectiveTrunk(repo: Repo, branch: string, baseRef: string, step: ArchiveStep, trunk: string)
    ensures var refs := ArchiveIfAhead(repo.refs, branch, baseRef, step).0;
            EffectiveTrunk(repo.(refs := refs), trunk) == EffectiveTrunk(repo, trunk)
  {
    ArchiveOutcome(repo.refs, branch, baseRef, step);
    var r := ArchiveIfAhead(repo.refs, branch, baseRef, step).1;
    if r.Ok? && r.value.Some? {
      PreservedRefKeepsEffectiveTrunk(repo, r.value.value, repo.refs[LocalRef(branch)], trunk);
    }
  }

  lemma PreservedRefKeepsEffectiveTrunk(repo: Repo, name: string, tip: Commit, trunk: string)
    requires |name| > 0 && name[0] == 'p'
    ensures EffectiveTrunk(repo.(refs := repo.refs[LocalRef(name) := tip]), trunk) == EffectiveTrunk(repo, trunk)
  {
    assert LocalRef(name)[11] == 'p';
    assert LocalRef("mainline")[11] == 'm' && LocalRef("main")[11] == 'm' && LocalRef("master")[11] == 'm';
    assert LocalRef("trunk")[11] == 't';
  }

  // ---- one operation -----------------------------------------------------------

  lemma ConservesTransitive(a: Refs, b: Refs, c: Refs)
    requires Conserves(a, b) && Conserves(b, c)
    ensures Conserves(a, c)
  {
  }

  /** A commit of everything, on a branch, keeps the old tip and adds the new commit. */
  lemma CommitConserves(repo: Repo, wt: string, content: string)
    requires wt in repo.worktrees
    ensures Conserves(repo.refs, CommitAll(repo, wt, content).refs)
    ensures repo.worktrees[wt].head.OnBranch? ==>
              NextCommit(repo, wt, content) in Reachable(CommitAll(repo, wt, content).refs)
  {
    if repo.worktrees[wt].head.OnBranch? {
      var ref := LocalRef(repo.worktrees[wt].head.branch);
      var c := NextCommit(repo, wt, content);
      var after := repo.refs[ref := c];
      assert after[ref] == c && c in History(c);
      if ref in repo.refs {
        assert repo.refs[ref] in c.parents && repo.refs[ref] in History(repo.refs[ref]);
        MovingARefConservesIff(repo.refs, ref, c);
      } else {
        AddingARefConserves(repo.refs, ref, c);
      }
    }
  }

  lemma PrepareConserves(repo: Repo, wt: string, mode: PreserveFailureMode, save: Preparation)
    requires wt in repo.worktrees
    ensures Conserves(repo.refs, Prepare(repo, wt, mode, save).0.refs)
  {
    if save.Saved? {
      CommitConserves(repo, wt, save.content);
    }
  }

  /** What the reset leaves behind after its archive and checkout steps. */
  function ArchiveAndCheckout(repo: Repo, wt: string, branch: string, start: string, step: ArchiveStep,
                              refused: bool): Repo
    requires wt in repo.worktrees
  {
    var archived := repo.(refs := ArchiveIfAhead(repo.refs, branch, start, step).0);
    match CheckoutReset(archived, wt, branch, start, refused)
    case None => archived
    case Some(done) => done
  }

  lemma ArchiveAndCheckoutConservesIff(repo: Repo, wt: string, branch: string, start: string, step: ArchiveStep,
                                       refused: bool)
    requires wt in repo.worktrees
    ensures Conserves(repo.refs, ArchiveAndCheckout(repo, wt, branch, start, step, refused).refs)
            <==> refused || !Unprotected(repo.refs, branch, start, step)
  {
    var archived := ArchiveIfAhead(repo.refs, branch, start, step).0;
    ArchiveConserves(repo.refs, branch, start, step);
    if Resolve(repo.refs, start).Some? {
      ArchiveKeepsStart(repo.refs, branch, start, step);
      ArchiveThenResetConservesIff(repo.refs, branch, start, step);
      ArchiveOutcome(repo.refs, branch, start, step);
    } else if LocalRef(branch) in repo.refs || RevListCount(repo.refs, start, branch).None? {
      assert archived == repo.refs;
    }
  }

  /** A dispatch reset loses commits exactly when it rewrites an unprotected branch. */
  lemma DispatchConservesIff(repo: Repo, wt: string, expected: string, trunk: string, save: Preparation,
                             step: ArchiveStep, refused: bool)
    requires wt in repo.worktrees && repo.worktrees[wt].head.OnBranch?
    requires repo.worktrees[wt].head.branch != expected
    requires PreferredTrunkStart(repo.refs, trunk).Ok?
    ensures var start := PreferredTrunkStart(repo.refs, trunk).value.refName;
            var (prepared, r) := Prepare(repo, wt, SkipReset, save);
            Conserves(prepared.refs, Dispatch(repo, wt, expected, trunk, save, step, refused).0.refs)
            <==> !Proceeds(r) || refused || !Unprotected(prepared.refs, expected, start, step)
  {
    var start := PreferredTrunkStart(repo.refs, trunk).value.refName;
    var (prepared, r) := Prepare(repo, wt, SkipReset, save);
    if Proceeds(r) {
      ArchiveAndCheckoutConservesIff(prepared, wt, expected, start, step, refused);
    }
  }

  /** The branch that HEAD is on was just auto-saved and is the one to be reset, so HEAD is archived instead. */
  predicate ArchivesHead(repo: Repo, wt: string, base: string, save: Preparation)
    requires wt in repo.worktrees
  {
    repo.worktrees[wt].dirty && save.Saved? && CurrentBranchOr(repo, wt, base) == base
  }

  /** With HEAD on a branch, a base reset loses commits exactly when it rewrites an unprotected base branch. */
  lemma ResetToBaseConservesIff(repo: Repo, wt: string, base: string, trunk: string, mode: PreserveFailureMode,
                                save: Preparation, step: ArchiveStep, refused: bool)
    requires wt in repo.worktrees
    requires repo.worktrees[wt].head.OnBranch? || !ArchivesHead(repo, wt, base, save)
    ensures var (prepared, r) := Prepare(repo, wt, mode, save);
            Conserves(prepared.refs, ResetToBase(repo, wt, base, trunk, mode, save, step, refused).0.refs)
            <==> || !Proceeds(r) || refused || ArchivesHead(repo, wt, base, save)
                 || !Unprotected(prepared.refs, base, EffectiveTrunk(prepared, trunk), step)
  {
    var (prepared, r) := Prepare(repo, wt, mode, save);
    if Proceeds(r) {
      if ArchivesHead(repo, wt, base, save) {
        var archived := ArchiveHead(prepared, wt, base, step);
        if archived.Ok? {
          SavedHeadResetConserves(prepared, wt, base, trunk, step, refused);
        }
      } else {
        var start := EffectiveTrunk(prepared, trunk);
        ArchiveKeepsEffectiveTrunk(prepared, base, start, step, trunk);
        ArchiveAndCheckoutConservesIff(prepared, wt, base, start, step, refused);
      }
    }
  }

  lemma SavedHeadResetConserves(prepared: Repo, wt: string, base: string, trunk: string, step: ArchiveStep,
                                refused: bool)
    requires wt in prepared.worktrees && prepared.worktrees[wt].head == OnBranch(base)
    requires ArchiveHead(prepared, wt, base, step).Ok?
    ensures var refs := ArchiveHead(prepared, wt, base, step).value;
            Conserves(prepared.refs, CheckoutBase(prepared.(refs := refs), wt, base, trunk, refused, CleanReset).0.refs)
  {
    var archived := prepared.(refs := ArchiveHead(prepared, wt, base, step).value);
    var archive := LocalRef(ArchiveName(base, step.stamp, 0));
    AddingARefConserves(prepared.refs, archive, prepared.refs[LocalRef(base)]);
    var c := Resolve(archived.refs, EffectiveTrunk(archived, trunk));
    if c.Some? {
      ArchivedMoveConserves(prepared.refs, LocalRef(base), archive, c.value);
    }
  }

  lemma ResetIfCleanConservesIff(repo: Repo, wt: string, base: string, trunk: string, statusFails: bool,
                                 step: ArchiveStep, refused: bool)
    requires wt in repo.worktrees
    ensures Conserves(repo.refs, ResetToBaseIfClean(repo, wt, base, trunk, statusFails, step, refused).0.refs)
            <==> || (repo.worktrees[wt].dirty && !statusFails) || refused
                 || !Unprotected(repo.refs, base, EffectiveTrunk(repo, trunk), step)
  {
    if statusFails || !repo.worktrees[wt].dirty {
      var start := EffectiveTrunk(repo, trunk);
      ArchiveKeepsEffectiveTrunk(repo, base, start, step, trunk);
      ArchiveAndCheckoutConservesIff(repo, wt, base, start, step, refused);
    }
  }

  lemma EnsureBaselineConserves(repo: Repo, base: string, trunk: string)
    ensures Conserves(repo.refs, EnsureBaseline(repo, base, trunk).0.refs)
  {
    var (after, r) := EnsureBaseline(repo, base, trunk);
    if r.Ok? && r.value.Some? {
      AddingARefConserves(repo.refs, LocalRef(base), r.value.value.startCommit);
    }
  }

  lemma RefNamespacesDisjoint(a: string, b: string)
    ensures LocalRef(a) != RemoteRef(b)
    ensures LocalRef(a) == LocalRef(b) ==> a == b
  {
    assert LocalRef(a)[5] == 'h' && RemoteRef(b)[5] == 'r';
    assert LocalRef(a)[11..] == a && LocalRef(b)[11..] == b;
  }

  /**
   Cleaning up a completed run deletes its branch only after the merge check, so
   it loses commits exactly when that check compared the branch with itself.
   */
  lemma FinalizeConservesIff(repo: Repo, run: PhaseWorktree, removeFails: bool)
    ensures Conserves(repo.refs, Finalize(repo, run, Completed, removeFails).0.refs)
            <==> !(&& run.base == run.branch
                   && LocalRef(run.branch) in repo.refs
                   && repo.refs[LocalRef(run.branch)] != run.startCommit
                   && !(run.path in repo.worktrees && removeFails)
                   && !CheckedOut(repo.(worktrees := repo.worktrees - {run.path}), run.branch)
                   && repo.refs[LocalRef(run.branch)] !in Reachable(repo.refs - {LocalRef(run.branch)}))
  {
    var ref := LocalRef(run.branch);
    if ref in repo.refs {
      DeletingARefConservesIff(repo.refs, ref);
      RefNamespacesDisjoint(run.branch, run.base);
      RefNamespacesDisjoint(run.base, run.branch);
      var base := Resolve(repo.refs, run.base);
      if run.base != run.branch && base.Some? && IsAncestor(repo.refs[ref], base.value) {
        var kept := repo.refs - {ref};
        var other := if LocalRef(run.base) in repo.refs then LocalRef(run.base) else RemoteRef(run.base);
        assert other in kept && repo.refs[ref] in History(kept[other]);
      }
    }
  }

  /** After a successful base reset HEAD is on the base branch, and base and trunk are the same commit. */
  lemma ResetLandsOnTrunk(repo: Repo, wt: string, base: string, trunk: string, mode: PreserveFailureMode,
                          save: Preparation, step: ArchiveStep, refused: bool)
    requires wt in repo.worktrees
    ensures var (after, r) := ResetToBase(repo, wt, base, trunk, mode, save, step, refused);
            r.Ok? && r.value.ResetPerformed() ==>
              && wt in after.worktrees && after.worktrees[wt].head == OnBranch(base)
              && LocalRef(base) in after.refs
              && Resolve(after.refs, EffectiveTrunk(after, trunk)) == Some(after.refs[LocalRef(base)])
  {
    var (prepared, r) := Prepare(repo, wt, mode, save);
    if Proceeds(r) {
      if ArchivesHead(repo, wt, base, save) {
        var archived := ArchiveHead(prepared, wt, base, step);
        if archived.Ok? {
          CheckoutLandsOnTrunk(prepared.(refs := archived.value), wt, base, trunk, refused, r.value);
        }
      } else {
        var refs := ArchiveIfAhead(prepared.refs, base, EffectiveTrunk(prepared, trunk), step).0;
        CheckoutLandsOnTrunk(prepared.(refs := refs), wt, base, trunk, refused, r.value);
      }
    }
  }

  lemma CheckoutLandsOnTrunk(repo: Repo, wt: string, base: string, trunk: string, refused: bool, reason: ResetReason)
    requires wt in repo.worktrees
    ensures var (after, r) := CheckoutBase(repo, wt, base, trunk, refused, reason);
            r.Ok? ==>
              && wt in after.worktrees && after.worktrees[wt].head == OnBranch(base)
              && LocalRef(base) in after.refs
              && Resolve(after.refs, EffectiveTrunk(after, trunk)) == Some(after.refs[LocalRef(base)])
  {
    var start := EffectiveTrunk(repo, trunk);
    var (after, r) := CheckoutBase(repo, wt, base, trunk, refused, reason);
    if r.Ok? {
      var c := Resolve(repo.refs, start).value;
      var started := EffectiveTrunk(after, trunk);
      assert started == start || started == base by {
        NewBranchTrunk(repo, base, c, trunk);
      }
      RefNamespacesDisjoint(base, start);
      RefNamespacesDisjoint(start, base);
    }
  }

  /** A branch that is created can only take over as default branch itself. */
  lemma NewBranchTrunk(repo: Repo, base: string, c: Commit, trunk: string)
    ensures var after := repo.(refs := repo.refs[LocalRef(base) := c]);
            EffectiveTrunk(after, trunk) == EffectiveTrunk(repo, trunk) || EffectiveTrunk(after, trunk) == base
  {
    RefNamespacesDisjoint(base, "mainline");
    RefNamespacesDisjoint(base, "main");
    RefNamespacesDisjoint(base, "master");
    RefNamespacesDisjoint(base, "trunk");
  }

  // ---- whole runs --------------------------------------------------------------

  datatype Op =
    | DispatchReset(wt: string, expected: string, trunk: string, save: Preparation, step: ArchiveStep, refused: bool)
    | BaseReset(wt: string, base: string, trunk: string, mode: PreserveFailureMode, save: Preparation,
                step: ArchiveStep, refused: bool)
    | CleanOnlyReset(wt: string, base: string, trunk: string, statusFails: bool, step: ArchiveStep, refused: bool)
    | RepairBaseline(base: string, trunk: string)
    | FinalizeRun(run: PhaseWorktree, outcome: RunOutcome, removeFails: bool)
    | Work(wt: string, content: string)

  function Step(repo: Repo, op: Op): Repo {
    match op
    case DispatchReset(wt, expected, trunk, save, step, refused) =>
      Dispatch(repo, wt, expected, trunk, save, step, refused).0
    case BaseReset(wt, base, trunk, mode, save, step, refused) =>
      ResetToBase(repo, wt, base, trunk, mode, save, step, refused).0
    case CleanOnlyReset(wt, base, trunk, statusFails, step, refused) =>
      ResetToBaseIfClean(repo, wt, base, trunk, statusFails, step, refused).0
    case RepairBaseline(base, trunk) => EnsureBaseline(repo, base, trunk).0
    case FinalizeRun(run, outcome, removeFails) => Finalize(repo, run, outcome, removeFails).0
    case Work(wt, content) => if wt in repo.worktrees then CommitAll(repo, wt, content) else repo
  }

  function Run(repo: Repo, ops: seq<Op>): Repo
    decreases |ops|
  {
    if ops == [] then repo else Run(Step(repo, ops[0]), ops[1..])
  }

  /** The branch that the step rewrites, and where it starts from, as the archive step sees them. */
  predicate CanArchive(repo: Repo, branch: string, start: string, step: ArchiveStep) {
    AheadOf(repo.refs, branch, start) ==> !ArchiveBlocked(repo.refs, branch, start, step)
  }

  /** HEAD is on a branch, the archive can be made if one is needed, and the step is no deliberate deletion. */
  predicate Guarded(repo: Repo, op: Op) {
    match op
    case DispatchReset(wt, expected, trunk, save, step, _) =>
      && wt in repo.worktrees && repo.worktrees[wt].head.OnBranch?
      && var selection := PreferredTrunkStart(repo.refs, trunk);
         selection.Ok? ==> CanArchive(Prepare(repo, wt, SkipReset, save).0, expected, selection.value.refName, step)
    case BaseReset(wt, base, trunk, mode, save, step, _) =>
      && wt in repo.worktrees && repo.worktrees[wt].head.OnBranch?
      && var prepared := Prepare(repo, wt, mode, save).0;
         ArchivesHead(repo, wt, base, save) || CanArchive(prepared, base, EffectiveTrunk(prepared, trunk), step)
    case CleanOnlyReset(wt, base, trunk, _, step, _) =>
      wt in repo.worktrees && CanArchive(repo, base, EffectiveTrunk(repo, trunk), step)
    case RepairBaseline(_, _) => true
    case FinalizeRun(run, outcome, _) => outcome != DryRun && run.base != run.branch
    case Work(wt, _) => wt in repo.worktrees && repo.worktrees[wt].head.OnBranch?
  }

  predicate AllGuarded(repo: Repo, ops: seq<Op>)
    decreases |ops|
  {
    ops == [] || (Guarded(repo, ops[0]) && AllGuarded(Step(repo, ops[0]), ops[1..]))
  }

  /** The commit that the step puts on the current branch: an auto-save before a reset, or an engineer's own. */
  function CommitOf(repo: Repo, op: Op): set<Commit> {
    match op
    case DispatchReset(wt, expected, trunk, save, _, _) =>
      if wt in repo.worktrees && repo.worktrees[wt].head.OnBranch? && repo.worktrees[wt].head.branch != expected
         && PreferredTrunkStart(repo.refs, trunk).Ok? then AutoSave(repo, wt, save)
      else {}
    case BaseReset(wt, _, _, _, save, _, _) =>
      if wt in repo.worktrees then AutoSave(repo, wt, save) else {}
    case Work(wt, content) => if wt in repo.worktrees then {NextCommit(repo, wt, content)} else {}
    case _ => {}
  }

  function AutoSave(repo: Repo, wt: string, save: Preparation): set<Commit>
    requires wt in repo.worktrees
  {
    if repo.worktrees[wt].dirty && save.Saved? then {NextCommit(repo, wt, save.content)} else {}
  }

  lemma AutoSaveReachable(repo: Repo, wt: string, mode: PreserveFailureMode, save: Preparation)
    requires wt in repo.worktrees && repo.worktrees[wt].head.OnBranch?
    ensures AutoSave(repo, wt, save) <= Reachable(Prepare(repo, wt, mode, save).0.refs)
    ensures Conserves(repo.refs, Prepare(repo, wt, mode, save).0.refs)
  {
    PrepareConserves(repo, wt, mode, save);
    if save.Saved? {
      CommitConserves(repo, wt, save.content);
    }
  }

  lemma StepConserves(repo: Repo, op: Op)
    requires Guarded(repo, op)
    ensures Conserves(repo.refs, Step(repo, op).refs)
    ensures CommitOf(repo, op) <= Reachable(Step(repo, op).refs)
  {
    match op
    case DispatchReset(wt, expected, trunk, save, step, refused) =>
      if repo.worktrees[wt].head.branch != expected && PreferredTrunkStart(repo.refs, trunk).Ok? {
        AutoSaveReachable(repo, wt, SkipReset, save);
        DispatchConservesIff(repo, wt, expected, trunk, save, step, refused);
        ConservesTransitive(repo.refs, Prepare(repo, wt, SkipReset, save).0.refs, Step(repo, op).refs);
      }
    case BaseReset(wt, base, trunk, mode, save, step, refused) =>
      AutoSaveReachable(repo, wt, mode, save);
      ResetToBaseConservesIff(repo, wt, base, trunk, mode, save, step, refused);
      ConservesTransitive(repo.refs, Prepare(repo, wt, mode, save).0.refs, Step(repo, op).refs);
    case CleanOnlyReset(wt, base, trunk, statusFails, step, refused) =>
      ResetIfCleanConservesIff(repo, wt, base, trunk, statusFails, step, refused);
    case RepairBaseline(base, trunk) =>
      EnsureBaselineConserves(repo, base, trunk);
    case FinalizeRun(run, outcome, removeFails) =>
      if outcome == Completed {
        FinalizeConservesIff(repo, run, removeFails);
      }
    case Work(wt, content) =>
      CommitConserves(repo, wt, content);
  }

  /** Over any guarded run, whatever any ref reaches at the start is still reached at the end. */
  lemma {:induction false} RunConserves(repo: Repo, ops: seq<Op>)
    requires AllGuarded(repo, ops)
    ensures Conserves(repo.refs, Run(repo, ops).refs)
    decreases |ops|
  {
    if ops != [] {
      StepConserves(repo, ops[0]);
      RunConserves(Step(repo, ops[0]), ops[1..]);
    }
  }

  /** Every commit made during the run, auto-saves included, survives to its end. */
  lemma {:induction false} RunKeepsEveryCommit(repo: Repo, ops: seq<Op>, i: nat)
    requires AllGuarded(repo, ops) && i < |ops|
    ensures CommitOf(Run(repo, ops[..i]), ops[i]) <= Reachable(Run(repo, ops).refs)
    decreases |ops|
  {
    var next := Step(repo, ops[0]);
    if i == 0 {
      assert ops[..0] == [];
      StepConserves(repo, ops[0]);
      RunConserves(next, ops[1..]);
    } else {
      assert ops[..i][0] == ops[0] && ops[..i][1..] == ops[1..][..i - 1];
      RunKeepsEveryCommit(next, ops[1..], i - 1);
    }
  }

  // ---- where the guards matter -------------------------------------------------

  /**
   While a branch called `preserved` exists, Git can create no archive name.  The
   archive error is ignored, so a reset drops whatever only the base branch holds.
   */
  lemma BranchNamedPreservedDefeatsTheArchive(repo: Repo, wt: string, base: string, trunk: string, step: ArchiveStep)
    requires wt in repo.worktrees && !repo.worktrees[wt].dirty
    requires LocalRef("preserved") in repo.refs
    requires AheadOf(repo.refs, base, EffectiveTrunk(repo, trunk))
    requires repo.refs[LocalRef(base)] !in Reachable(repo.refs - {LocalRef(base)})
    ensures var (after, r) := ResetToBaseIfClean(repo, wt, base, trunk, false, step, false);
            r == Ok(CleanReset) && !Conserves(repo.refs, after.refs)
  {
    var start := EffectiveTrunk(repo, trunk);
    var first := FirstFreeArchive(repo.refs, base, step.stamp);
    if first.Some? {
      PreservedIsAboveArchives(base, step.stamp, first.value);
    }
    ArchivedExactly(repo.refs, base, start, step);
    ArchiveOutcome(repo.refs, base, start, step);
    ResetIfCleanConservesIff(repo, wt, base, trunk, false, step, false);
  }

  /**
   Whenever `git branch` fails on the archive - a slug longer than a file name may be,
   a lock, a hook - the error is ignored too, with the same loss.
   */
  lemma IgnoredArchiveFailureLosesWork(repo: Repo, wt: string, base: string, trunk: string, step: ArchiveStep)
    requires wt in repo.worktrees && !repo.worktrees[wt].dirty && step.fails
    requires AheadOf(repo.refs, base, EffectiveTrunk(repo, trunk))
    requires repo.refs[LocalRef(base)] !in Reachable(repo.refs - {LocalRef(base)})
    ensures var (after, r) := ResetToBaseIfClean(repo, wt, base, trunk, false, step, false);
            r == Ok(CleanReset) && !Conserves(repo.refs, after.refs)
  {
    ArchivedExactly(repo.refs, base, EffectiveTrunk(repo, trunk), step);
    ArchiveOutcome(repo.refs, base, EffectiveTrunk(repo, trunk), step);
    ResetIfCleanConservesIff(repo, wt, base, trunk, false, step, false);
  }

  /** A run that was just made can be finished at any time without losing a commit. */
  lemma NewRunLosesNothing(branches: map<string, Commit>, tags: map<string, Commit>, entries: seq<PhaseRuns.Entry>,
                           base: string, phase: string, n: nat, run: PhaseWorktree, repo: Repo, removeFails: bool)
    requires PhaseRuns.IsNextRun(branches, tags, entries, base, phase, n, run)
    ensures Conserves(repo.refs, Finalize(repo, run, Completed, removeFails).0.refs)
  {
    PhaseRuns.NewRunHasAnotherBase(branches, tags, entries, base, phase, n, run);
    FinalizeConservesIff(repo, run, removeFails);
  }

  /**
   A resumed run loses commits, when it is finished later, exactly when the project
   root was on the branch of the latest run at the resume, and at the end that branch
   has moved, is checked out nowhere else, and alone holds its tip.
   */
  lemma ResumedRunConservesIff(branches: map<string, Commit>, tags: map<string, Commit>, entries: seq<PhaseRuns.Entry>,
                               base: string, phase: string, run: PhaseWorktree, repo: Repo, removeFails: bool)
    requires PhaseRuns.IsResumed(branches, tags, entries, base, phase, run)
    ensures Conserves(repo.refs, Finalize(repo, run, Completed, removeFails).0.refs)
            <==> !(&& PhaseRuns.LatestIs(branches, entries, phase, base)
                   && LocalRef(run.branch) in repo.refs
                   && repo.refs[LocalRef(run.branch)] != run.startCommit
                   && !(run.path in repo.worktrees && removeFails)
                   && !CheckedOut(repo.(worktrees := repo.worktrees - {run.path}), run.branch)
                   && repo.refs[LocalRef(run.branch)] !in Reachable(repo.refs - {LocalRef(run.branch)}))
  {
    PhaseRuns.ResumedOnItsOwnBranch(branches, tags, entries, base, phase, run);
    FinalizeConservesIff(repo, run, removeFails);
  }

  /**
   A run that was resumed while the project root had its branch checked out compares
   the branch with itself: once the root has moved on, finishing it drops its work.
   */
  lemma SelfMergedRunIsLost()
    ensures var first := Commit("first", []);
            var second := Commit("second", [first]);
            var repo := Repo(map["refs/heads/main" := first, "refs/heads/p-run-001" := second], None,
                             map["." := Worktree(OnBranch("main"), false)]);
            var run := PhaseWorktree("p-run-001", first, "p-run-001", ".batty/worktrees/p-run-001");
            var (after, r) := Finalize(repo, run, Completed, false);
            r == Ok(Cleaned) && second in Reachable(repo.refs) && second !in Reachable(after.refs)
  {
    var first := Commit("first", []);
    var second := Commit("second", [first]);
    var refs := map["refs/heads/main" := first, "refs/heads/p-run-001" := second];
    assert LocalRef("p-run-001") == "refs/heads/p-run-001" && |"refs/heads/main"| != |"refs/heads/p-run-001"|;
    assert refs["refs/heads/p-run-001"] == second && second in History(second);
    assert History(first) == {first} && first != second;
    assert refs - {"refs/heads/p-run-001"} == map["refs/heads/main" := first];
    assert "main" != "p-run-001" by { assert |"main"| != |"p-run-001"|; }
  }

  lemma PreservedIsAboveArchives(branch: string, stamp: nat, k: nat)
    ensures LocalRef("preserved") + "/" <= LocalRef(ArchiveName(branch, stamp, k))
  {
  }

  /** HEAD can be recorded under the first archive name, the only one that is tried for it. */
  predicate HeadArchivable(repo: Repo, base: string, step: ArchiveStep) {
    !step.fails && CanCreate(repo.refs, LocalRef(ArchiveName(base, step.stamp, 0)))
  }

  /**
   On a detached HEAD the reset takes the base branch to be checked out: the
   auto-save commit is archived in place of the tip of the base branch, which
   survives exactly when another ref, the auto-save or the trunk contains it.  Where
   the archive fails the reset is given up, and all refs stay.
   */
  lemma DetachedHeadResetConservesIff(repo: Repo, wt: string, base: string, trunk: string, mode: PreserveFailureMode,
                                      content: string, step: ArchiveStep)
    requires wt in repo.worktrees && repo.worktrees[wt].head.Detached? && repo.worktrees[wt].dirty
    requires LocalRef(base) in repo.refs && Resolve(repo.refs, EffectiveTrunk(repo, trunk)).Some?
    requires EffectiveTrunk(repo, trunk) != ArchiveName(base, step.stamp, 0)
    ensures var saved := NextCommit(repo, wt, content);
            var tip, start := repo.refs[LocalRef(base)], Resolve(repo.refs, EffectiveTrunk(repo, trunk)).value;
            var (after, r) := ResetToBase(repo, wt, base, trunk, mode, Saved(content), step, false);
            if HeadArchivable(repo, base, step) then
              && r == Ok(PreservedBeforeReset)
              && (Conserves(repo.refs, after.refs)
                  <==> tip in Reachable(repo.refs - {LocalRef(base)}) + History(saved) + History(start))
            else
              r.Err? && after.refs == repo.refs
  {
    if HeadArchivable(repo, base, step) {
      var saved := NextCommit(repo, wt, content);
      var start := Resolve(repo.refs, EffectiveTrunk(repo, trunk)).value;
      DetachedHeadResetRefs(repo, wt, base, trunk, mode, content, step);
      AddThenMoveConservesIff(repo.refs, LocalRef(ArchiveName(base, step.stamp, 0)), saved, LocalRef(base), start);
    } else {
      DetachedSaveIsNotArchived(repo, wt, base, mode, content, step);
    }
  }

  lemma DetachedSaveIsNotArchived(repo: Repo, wt: string, base: string, mode: PreserveFailureMode, content: string,
                                  step: ArchiveStep)
    requires wt in repo.worktrees && repo.worktrees[wt].head.Detached? && repo.worktrees[wt].dirty
    requires !HeadArchivable(repo, base, step)
    ensures var prepared := CommitAll(repo, wt, content);
            && Prepare(repo, wt, mode, Saved(content)) == (prepared, Ok(PreservedBeforeReset))
            && prepared.refs == repo.refs && wt in prepared.worktrees
            && ArchiveHead(prepared, wt, base, step).Err?
            && CurrentBranchOr(repo, wt, base) == base
  {
  }

  lemma DetachedHeadResetRefs(repo: Repo, wt: string, base: string, trunk: string, mode: PreserveFailureMode,
                              content: string, step: ArchiveStep)
    requires wt in repo.worktrees && repo.worktrees[wt].head.Detached? && repo.worktrees[wt].dirty
    requires LocalRef(base) in repo.refs && Resolve(repo.refs, EffectiveTrunk(repo, trunk)).Some?
    requires HeadArchivable(repo, base, step)
    requires EffectiveTrunk(repo, trunk) != ArchiveName(base, step.stamp, 0)
    ensures var (after, r) := ResetToBase(repo, wt, base, trunk, mode, Saved(content), step, false);
            && r == Ok(PreservedBeforeReset)
            && after.refs == repo.refs[LocalRef(ArchiveName(base, step.stamp, 0)) := NextCommit(repo, wt, content)]
                                      [LocalRef(base) := Resolve(repo.refs, EffectiveTrunk(repo, trunk)).value]
  {
    var name := ArchiveName(base, step.stamp, 0);
    var prepared := CommitAll(repo, wt, content);
    DetachedResetChecksOut(repo, wt, base, trunk, mode, content, step);
    SameRefsSameTrunk(repo, prepared, trunk);
    ArchivedCheckoutMoves(prepared, wt, base, trunk, name, NextCommit(repo, wt, content));
  }

  lemma SameRefsSameTrunk(a: Repo, b: Repo, trunk: string)
    requires a.refs == b.refs && a.originHead == b.originHead
    ensures EffectiveTrunk(a, trunk) == EffectiveTrunk(b, trunk)
  {
  }

  lemma ArchivedCheckoutMoves(repo: Repo, wt: string, base: string, trunk: string, name: string, saved: Commit)
    requires wt in repo.worktrees && LocalRef(base) in repo.refs
    requires Resolve(repo.refs, EffectiveTrunk(repo, trunk)).Some? && EffectiveTrunk(repo, trunk) != name
    requires |name| > 0 && name[0] == 'p'
    ensures var archived := repo.(refs := repo.refs[LocalRef(name) := saved]);
            var (after, r) := CheckoutBase(archived, wt, base, trunk, false, PreservedBeforeReset);
            && r == Ok(PreservedBeforeReset)
            && after.refs == archived.refs[LocalRef(base) := Resolve(repo.refs, EffectiveTrunk(repo, trunk)).value]
  {
    PreservedRefKeepsEffectiveTrunk(repo, name, saved, trunk);
    AddedRefKeepsResolution(repo.refs, name, saved, EffectiveTrunk(repo, trunk));
    CheckoutBaseMoves(repo.(refs := repo.refs[LocalRef(name) := saved]), wt, base, trunk);
  }

  lemma DetachedResetChecksOut(repo: Repo, wt: string, base: string, trunk: string, mode: PreserveFailureMode,
                               content: string, step: ArchiveStep)
    requires wt in repo.worktrees && repo.worktrees[wt].head.Detached? && repo.worktrees[wt].dirty
    requires HeadArchivable(repo, base, step)
    ensures var archived := CommitAll(repo, wt, content).(
              refs := repo.refs[LocalRef(ArchiveName(base, step.stamp, 0)) := NextCommit(repo, wt, content)]);
            && wt in archived.worktrees
            && ResetToBase(repo, wt, base, trunk, mode, Saved(content), step, false)
               == CheckoutBase(archived, wt, base, trunk, false, PreservedBeforeReset)
  {
    DetachedSaveIsArchived(repo, wt, base, mode, content, step);
  }

  lemma DetachedSaveIsArchived(repo: Repo, wt: string, base: string, mode: PreserveFailureMode, content: string,
                               step: ArchiveStep)
    requires wt in repo.worktrees && repo.worktrees[wt].head.Detached? && repo.worktrees[wt].dirty
    requires HeadArchivable(repo, base, step)
    ensures var prepared := CommitAll(repo, wt, content);
            && Prepare(repo, wt, mode, Saved(content)) == (prepared, Ok(PreservedBeforeReset))
            && prepared.refs == repo.refs && wt in prepared.worktrees
            && ArchiveHead(prepared, wt, base, step)
               == Ok(repo.refs[LocalRef(ArchiveName(base, step.stamp, 0)) := NextCommit(repo, wt, content)])
            && CurrentBranchOr(repo, wt, base) == base
  {
    assert HeadCommit(CommitAll(repo, wt, content), wt) == Some(NextCommit(repo, wt, content));
  }

  lemma CheckoutBaseMoves(repo: Repo, wt: string, base: string, trunk: string)
    requires wt in repo.worktrees && LocalRef(base) in repo.refs
    requires Resolve(repo.refs, EffectiveTrunk(repo, trunk)).Some?
    ensures var (after, r) := CheckoutBase(repo, wt, base, trunk, false, PreservedBeforeReset);
            && r == Ok(PreservedBeforeReset)
            && after.refs == repo.refs[LocalRef(base) := Resolve(repo.refs, EffectiveTrunk(repo, trunk)).value]
  {
  }

  lemma AddedRefKeepsResolution(refs: Refs, name: string, c: Commit, start: string)
    requires name != start
    ensures Resolve(refs[LocalRef(name) := c], start) == Resolve(refs, start)
  {
    RefNamespacesDisjoint(start, name);
    RefNamespacesDisjoint(name, start);
  }

  lemma AddThenMoveConservesIff(refs: Refs, added: string, a: Commit, ref: string, c: Commit)
    requires ref in refs && added !in refs
    ensures Conserves(refs, refs[added := a][ref := c])
            <==> refs[ref] in Reachable(refs - {ref}) + History(a) + History(c)
  {
    var after := refs[added := a][ref := c];
    AddThenMoveReaches(refs, added, a, ref, c);
    TipDecides(refs, ref, after);
  }

  /** Where only one ref moves, its old tip decides. */
  lemma TipDecides(refs: Refs, ref: string, after: Refs)
    requires ref in refs && forall r :: r in refs && r != ref ==> r in after && after[r] == refs[r]
    ensures Conserves(refs, after) <==> refs[ref] in Reachable(after)
  {
    if refs[ref] in Reachable(after) {
      DroppedTipKept(refs, ref, after);
    } else {
      assert refs[ref] in History(refs[ref]);
    }
  }

  lemma AddThenMoveReaches(refs: Refs, added: string, a: Commit, ref: string, c: Commit)
    requires ref in refs && added !in refs
    ensures Reachable(refs[added := a][ref := c]) == Reachable(refs - {ref}) + History(a) + History(c)
  {
    var others := refs - {ref};
    assert refs[added := a][ref := c] == others[added := a][ref := c];
    AddedRefReaches(others, added, a);
    AddedRefReaches(others[added := a], ref, c);
  }

  lemma AddedRefReaches(refs: Refs, added: string, a: Commit)
    requires added !in refs
    ensures Reachable(refs[added := a]) == Reachable(refs) + History(a)
  {
    var after := refs[added := a];
    forall x | x in Reachable(after)
      ensures x in Reachable(refs) + History(a)
    {
      var r :| r in after && x in History(after[r]);
      assert r != added ==> r in refs && refs[r] == after[r];
    }
    forall x | x in History(a)
      ensures x in Reachable(after)
    {
      assert after[added] == a;
    }
    AddingARefConserves(refs, added, a);
  }
}
