/**
 The part of a Git repository that the worktree code reads and writes, with the
 Git commands it issues as operations on that state.
 */
module Repository {
  import opened Common
  import opened Commits
  import Decimal

  /** Full ref name ("refs/heads/main") to the commit it points at. */
  type Refs = map<string, Commit>

  datatype Head = OnBranch(branch: string) | Detached(commit: Commit)

  /** `dirty` says that `git status` lists changes of the user. */
  datatype Worktree = Worktree(head: Head, dirty: bool)

  /**
   One repository with all the worktrees attached to it.  `originHead` is the
   branch that the symbolic ref `refs/remotes/origin/HEAD` names, if it is set.
   */
  datatype Repo = Repo(refs: Refs, originHead: Option<string>, worktrees: map<string, Worktree>)

  const U32_LIMIT: nat := 0x1_0000_0000

  function LocalRef(branch: string): string {
    "refs/heads/" + branch
  }

  function RemoteRef(branch: string): string {
    "refs/remotes/" + branch
  }

  /** How Git reads a short name: a branch wins over a remote-tracking branch. */
  function Resolve(refs: Refs, name: string): Option<Commit> {
    if LocalRef(name) in refs then Some(refs[LocalRef(name)])
    else if RemoteRef(name) in refs then Some(refs[RemoteRef(name)])
    else None
  }

  /** Every commit that some ref keeps alive. */
  function Reachable(refs: Refs): set<Commit> {
    set r, x | r in refs && x in History(refs[r]) :: x
  }

  /** `git rev-list --count excluded..included`, read into a `u32`. */
  function RevListCount(refs: Refs, excluded: string, included: string): Option<nat> {
    match (Resolve(refs, excluded), Resolve(refs, included))
    case (Some(a), Some(b)) => if |RevList(a, b)| < U32_LIMIT then Some(|RevList(a, b)|) else None
    case _ => None
  }

  /**
   Git stores a ref as a file, so a new ref may neither exist already nor sit
   above or below an existing ref in the directory tree.
   */
  predicate CanCreate(refs: Refs, ref: string) {
    && ref !in refs
    && forall e :: e in refs ==> !(e + "/" <= ref) && !(ref + "/" <= e)
  }

  /** `git checkout -B branch` can write the ref of `branch`. */
  predicate CanWrite(refs: Refs, ref: string) {
    ref in refs || CanCreate(refs, ref)
  }

  function HeadCommit(repo: Repo, wt: string): Option<Commit>
    requires wt in repo.worktrees
  {
    match repo.worktrees[wt].head
    case OnBranch(b) => if LocalRef(b) in repo.refs then Some(repo.refs[LocalRef(b)]) else None
    case Detached(c) => Some(c)
  }

  /** The commit that `git commit` creates on top of HEAD. */
  function NextCommit(repo: Repo, wt: string, content: string): Commit
    requires wt in repo.worktrees
  {
    match HeadCommit(repo, wt)
    case None => Commit(content, [])
    case Some(tip) => Commit(content, [tip])
  }

  /** `git commit` of everything: the branch (or a detached HEAD) moves to the new commit. */
  function CommitAll(repo: Repo, wt: string, content: string): Repo
    requires wt in repo.worktrees
  {
    var c := NextCommit(repo, wt, content);
    match repo.worktrees[wt].head
    case OnBranch(b) =>
      repo.(refs := repo.refs[LocalRef(b) := c], worktrees := repo.worktrees[wt := Worktree(OnBranch(b), false)])
    case Detached(_) =>
      repo.(worktrees := repo.worktrees[wt := Worktree(Detached(c), false)])
  }

  /**
   `git checkout -B branch start`.  `refused` stands for Git declining for a
   reason outside this model, such as local changes in the way or a branch that
   another worktree has checked out.
   */
  function CheckoutReset(repo: Repo, wt: string, branch: string, start: string, refused: bool): Option<Repo>
    requires wt in repo.worktrees
  {
    match Resolve(repo.refs, start)
    case None => None
    case Some(c) =>
      if refused || !CanWrite(repo.refs, LocalRef(branch)) then None
      else Some(repo.(
                refs := repo.refs[LocalRef(branch) := c],
                worktrees := repo.worktrees[wt := repo.worktrees[wt].(head := OnBranch(branch))]))
  }

  /** `default_branch_name` of git_cmd.rs: origin's HEAD, then the usual names. */
  function DefaultBranchName(repo: Repo): Option<string> {
    if repo.originHead.Some? then repo.originHead
    else if LocalRef("mainline") in repo.refs then Some("mainline")
    else if LocalRef("main") in repo.refs then Some("main")
    else if LocalRef("master") in repo.refs then Some("master")
    else if LocalRef("trunk") in repo.refs then Some("trunk")
    else None
  }

  function EffectiveTrunk(repo: Repo, trunk: string): string {
    if trunk == "main" then
      match DefaultBranchName(repo)
      case Some(name) => name
      case None => "main"
    else trunk
  }

  /** `branch.replace('/', "-")`. */
  function Slug(branch: string): string {
    seq(|branch|, i requires 0 <= i < |branch| => if branch[i] == '/' then '-' else branch[i])
  }

  /** The `attempt`-th archive name that is tried for one time stamp. */
  function ArchiveName(branch: string, stamp: nat, attempt: nat): string {
    var first := "preserved/" + Slug(branch) + "-" + Decimal.Print(stamp);
    if attempt == 0 then first else first + "-" + Decimal.Print(attempt)
  }

  const MAX_ARCHIVE_SUFFIX: nat := 100

  /** All 101 archive names of this branch and time stamp are taken. */
  predicate ArchiveNamesExhausted(refs: Refs, branch: string, stamp: nat) {
    forall k :: 0 <= k <= MAX_ARCHIVE_SUFFIX ==> LocalRef(ArchiveName(branch, stamp, k)) in refs
  }

  /** `k` is the first archive name that is free. */
  predicate IsFirstFreeArchive(refs: Refs, branch: string, stamp: nat, k: nat) {
    && k <= MAX_ARCHIVE_SUFFIX
    && LocalRef(ArchiveName(branch, stamp, k)) !in refs
    && forall j :: 0 <= j < k ==> LocalRef(ArchiveName(branch, stamp, j)) in refs
  }

  function FirstFreeArchiveFrom(refs: Refs, branch: string, stamp: nat, k: nat): Option<nat>
    requires k <= MAX_ARCHIVE_SUFFIX + 1
    decreases MAX_ARCHIVE_SUFFIX + 1 - k
  {
    if k > MAX_ARCHIVE_SUFFIX then None
    else if LocalRef(ArchiveName(branch, stamp, k)) !in refs then Some(k)
    else FirstFreeArchiveFrom(refs, branch, stamp, k + 1)
  }

  /** The first of the 101 archive names that no branch has yet. */
  function FirstFreeArchive(refs: Refs, branch: string, stamp: nat): Option<nat> {
    FirstFreeArchiveFrom(refs, branch, stamp, 0)
  }

  lemma FirstFreeArchiveIsFirst(refs: Refs, branch: string, stamp: nat)
    ensures match FirstFreeArchive(refs, branch, stamp)
            case None => ArchiveNamesExhausted(refs, branch, stamp)
            case Some(k) => IsFirstFreeArchive(refs, branch, stamp, k)
  {
    FirstFreeArchiveFromIsFirst(refs, branch, stamp, 0);
  }

  lemma {:induction false} FirstFreeArchiveFromIsFirst(refs: Refs, branch: string, stamp: nat, k: nat)
    requires k <= MAX_ARCHIVE_SUFFIX + 1
    requires forall j :: 0 <= j < k ==> LocalRef(ArchiveName(branch, stamp, j)) in refs
    ensures match FirstFreeArchiveFrom(refs, branch, stamp, k)
            case None => ArchiveNamesExhausted(refs, branch, stamp)
            case Some(n) => IsFirstFreeArchive(refs, branch, stamp, n)
    decreases MAX_ARCHIVE_SUFFIX + 1 - k
  {
    if k <= MAX_ARCHIVE_SUFFIX && LocalRef(ArchiveName(branch, stamp, k)) in refs {
      FirstFreeArchiveFromIsFirst(refs, branch, stamp, k + 1);
    }
  }
}
