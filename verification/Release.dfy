/** Cutting a release: the gates before the tag, and the readiness report that predicts them. */
module Release {
  import opened Common
  import opened Text
  import MergedTasks

  // ---- what the pipelines ask ---------------------------------------------------------

  datatype Metadata = Metadata(packageName: string, version: string, tag: string)

  datatype Verification = Verification(command: string, passed: bool, summary: string, details: Option<string>)

  datatype Feedback = Feedback(failing: seq<string>, currentCommit: Option<string>)

  type Answer<+T> = Result<T, string>

  /**
   * The answers of one repository state: `head` and `main` are `rev-parse` of `HEAD` and `main`,
   * `status` is the text of `git status --porcelain`, `mergedTask` reads one line of the event log; the other
   * functions answer for the tag or commit they are given.
   */
  datatype Snapshot = Snapshot(
    metadata: Answer<Metadata>,
    branch: Answer<string>,
    status: Answer<string>,
    head: Answer<string>,
    main: Answer<string>,
    tagLookupError: Option<string>,
    latestTag: Answer<Option<string>>,
    commitCount: Option<string> -> Answer<nat>,
    verification: Answer<Verification>,
    commitSummaries: Option<string> -> Answer<seq<string>>,
    notesPath: Answer<string>,
    tagCreationError: Option<string>,
    feedback: Option<string> -> Answer<Feedback>,
    daemonBlocker: Answer<Option<string>>,
    eventLog: Answer<Option<string>>,
    mergedTask: string -> Option<string>
  )

  const IGNORED_ENTRY := "?? .batty/"

  /** Some entry of the status text is not an untracked file of the tool itself. */
  predicate IsDirty(status: string) {
    exists line :: line in Lines(status) && !(IGNORED_ENTRY <= line)
  }

  function DirtyEntries(lines: seq<string>): seq<string> {
    if lines == [] then [] else (if IGNORED_ENTRY <= lines[0] then [] else [lines[0]]) + DirtyEntries(lines[1..])
  }

  lemma {:induction false} DirtyEntriesIff(lines: seq<string>)
    ensures DirtyEntries(lines) != [] <==> exists line :: line in lines && !(IGNORED_ENTRY <= line)
  {
    if lines != [] {
      DirtyEntriesIff(lines[1..]);
      assert lines[0] in lines && forall line :: line in lines[1..] ==> line in lines;
      assert forall line :: line in lines ==> line == lines[0] || line in lines[1..];
    }
  }

  /** `git rev-parse -q --verify refs/tags/<tag>`. */
  function TagLookup(s: Snapshot, tags: map<string, string>, tag: string): Answer<bool> {
    if s.tagLookupError.Some? then Err(s.tagLookupError.value) else Ok(tag in tags)
  }

  // ---- why a release fails --------------------------------------------------------------

  /** The reasons, in the order in which the pipeline meets them. */
  datatype Reason =
    | MissingReleaseMetadata
    | GitBranchLookupFailed
    | NotOnMain
    | GitStatusFailed
    | DirtyMain
    | GitRefLookupFailed
    | TagLookupFailed
    | TagExists
    | PreviousTagLookupFailed
    | CommitCountFailed
    | VerificationStartFailed
    | VerificationFailed
    | CommitSummaryFailed
    | NotesWriteFailed
    | TagCreationFailed
  {
    function Step(): nat {
      match this
      case MissingReleaseMetadata => 0
      case GitBranchLookupFailed => 1
      case NotOnMain => 2
      case GitStatusFailed => 3
      case DirtyMain => 4
      case GitRefLookupFailed => 5
      case TagLookupFailed => 6
      case TagExists => 7
      case PreviousTagLookupFailed => 8
      case CommitCountFailed => 9
      case VerificationStartFailed => 10
      case VerificationFailed => 11
      case CommitSummaryFailed => 12
      case NotesWriteFailed => 13
      case TagCreationFailed => 14
    }

    /** The readiness gates come before the steps that produce the release. */
    predicate IsGate() {
      Step() <= 11
    }

    function Code(): string {
      match this
      case MissingReleaseMetadata => "missing_release_metadata"
      case GitBranchLookupFailed => "git_branch_lookup_failed"
      case NotOnMain => "not_on_main"
      case GitStatusFailed => "git_status_failed"
      case DirtyMain => "dirty_main"
      case GitRefLookupFailed => "git_ref_lookup_failed"
      case TagLookupFailed => "tag_lookup_failed"
      case TagExists => "tag_exists"
      case PreviousTagLookupFailed => "previous_tag_lookup_failed"
      case CommitCountFailed => "commit_count_failed"
      case VerificationStartFailed => "verification_start_failed"
      case VerificationFailed => "verification_failed"
      case CommitSummaryFailed => "commit_summary_failed"
      case NotesWriteFailed => "notes_write_failed"
      case TagCreationFailed => "tag_creation_failed"
    }
  }

  /** Each reason on its own, whatever the other gates say. */
  predicate Fails(r: Reason, s: Snapshot, tags: map<string, string>) {
    match r
    case MissingReleaseMetadata => s.metadata.Err?
    case GitBranchLookupFailed => s.branch.Err?
    case NotOnMain => s.branch.Ok? && s.branch.value != "main"
    case GitStatusFailed => s.status.Err?
    case DirtyMain => s.status.Ok? && IsDirty(s.status.value)
    case GitRefLookupFailed => s.main.Err?
    case TagLookupFailed => s.metadata.Ok? && TagLookup(s, tags, s.metadata.value.tag).Err?
    case TagExists => s.metadata.Ok? && TagLookup(s, tags, s.metadata.value.tag) == Ok(true)
    case PreviousTagLookupFailed => s.latestTag.Err?
    case CommitCountFailed => s.latestTag.Ok? && s.commitCount(s.latestTag.value).Err?
    case VerificationStartFailed => s.verification.Err?
    case VerificationFailed => s.verification.Ok? && !s.verification.value.passed
    case CommitSummaryFailed => s.latestTag.Ok? && s.commitSummaries(s.latestTag.value).Err?
    case NotesWriteFailed => s.notesPath.Err?
    case TagCreationFailed => s.tagCreationError.Some? || s.head.Err?
  }

  /** The first reason, in pipeline order, that fails. */
  ghost predicate IsFirstFailure(r: Reason, s: Snapshot, tags: map<string, string>) {
    Fails(r, s, tags) && forall q: Reason :: q.Step() < r.Step() ==> !Fails(q, s, tags)
  }

  ghost predicate PassesGates(s: Snapshot, tags: map<string, string>) {
    forall q: Reason :: q.IsGate() ==> !Fails(q, s, tags)
  }

  const REASONS: seq<Reason> := [
    MissingReleaseMetadata, GitBranchLookupFailed, NotOnMain, GitStatusFailed, DirtyMain, GitRefLookupFailed,
    TagLookupFailed, TagExists, PreviousTagLookupFailed, CommitCountFailed, VerificationStartFailed,
    VerificationFailed, CommitSummaryFailed, NotesWriteFailed, TagCreationFailed]

  function FirstFrom(k: nat, s: Snapshot, tags: map<string, string>): Option<Reason>
    requires k <= 15
    decreases 15 - k
  {
    if k == 15 then None
    else if Fails(REASONS[k], s, tags) then Some(REASONS[k])
    else FirstFrom(k + 1, s, tags)
  }

  function FirstFailure(s: Snapshot, tags: map<string, string>): Option<Reason> {
    FirstFrom(0, s, tags)
  }

  lemma ReasonAtStep(r: Reason)
    ensures r.Step() < 15 && REASONS[r.Step()] == r
  {
  }

  lemma {:induction false} FirstFromFacts(k: nat, s: Snapshot, tags: map<string, string>)
    requires k <= 15
    ensures var first := FirstFrom(k, s, tags);
            forall q: Reason :: k <= q.Step() < (if first.Some? then first.value.Step() else 15) ==> !Fails(q, s, tags)
    ensures var first := FirstFrom(k, s, tags); first.Some? ==> first.value.Step() >= k && Fails(first.value, s, tags)
    decreases 15 - k
  {
    if k < 15 {
      assert REASONS[k].Step() == k;
      FirstFromFacts(k + 1, s, tags);
      forall q: Reason | q.Step() == k ensures q == REASONS[k] {
        ReasonAtStep(q);
      }
    }
  }

  /** The chain of gates reports a failure exactly when some condition fails, and then the earliest one. */
  lemma FirstFailureIff(s: Snapshot, tags: map<string, string>)
    ensures FirstFailure(s, tags).Some? ==> IsFirstFailure(FirstFailure(s, tags).value, s, tags)
    ensures FirstFailure(s, tags).None? <==> forall q: Reason :: !Fails(q, s, tags)
  {
    FirstFromFacts(0, s, tags);
    forall q: Reason ensures q.Step() < 15 {
      ReasonAtStep(q);
    }
  }

  lemma FirstFailureIsUnique(r: Reason, q: Reason, s: Snapshot, tags: map<string, string>)
    requires IsFirstFailure(r, s, tags) && IsFirstFailure(q, s, tags)
    ensures r == q
  {
    ReasonAtStep(r);
    ReasonAtStep(q);
  }

  // ---- records ----------------------------------------------------------------------------

  datatype Draft = Draft(
    packageName: Option<string>,
    version: Option<string>,
    tag: Option<string>,
    gitRef: Option<string>,
    branch: Option<string>,
    previousTag: Option<string>,
    commitsSincePrevious: Option<nat>,
    verificationCommand: Option<string>,
    verificationSummary: Option<string>,
    notesPath: Option<string>)

  const EMPTY_DRAFT := Draft(None, None, None, None, None, None, None, None, None, None)

  datatype Record = Record(fields: Draft, success: bool, reason: string, details: Option<string>)

  function Failure(draft: Draft, reason: Reason, details: Option<string>): Record {
    Record(draft, false, reason.Code(), details)
  }

  function Known<T>(a: Answer<T>, known: bool): Option<T> {
    if known && a.Ok? then Some(a.value) else None
  }

  /** The answers that a run learned before it met `step`. */
  function LearnedBefore(s: Snapshot, step: nat): Draft {
    Draft(
      if step > 0 && s.metadata.Ok? then Some(s.metadata.value.packageName) else None,
      if step > 0 && s.metadata.Ok? then Some(s.metadata.value.version) else None,
      if step > 0 && s.metadata.Ok? then Some(s.metadata.value.tag) else None,
      Known(s.main, step > 5),
      Known(s.branch, step > 1),
      if step > 8 && s.latestTag.Ok? then s.latestTag.value else None,
      if step > 9 && s.latestTag.Ok? then Known(s.commitCount(s.latestTag.value), true) else None,
      if step > 10 && s.verification.Ok? then Some(s.verification.value.command) else None,
      if step > 10 && s.verification.Ok? then Some(s.verification.value.summary) else None,
      Known(s.notesPath, step > 13))
  }

  /** The error text of the answer that failed, or the pipeline's own explanation. */
  function Details(r: Reason, s: Snapshot, tags: map<string, string>): Option<string>
    requires Fails(r, s, tags)
  {
    match r
    case MissingReleaseMetadata => Some(s.metadata.error)
    case GitBranchLookupFailed => Some(s.branch.error)
    case NotOnMain => Some("current branch is `" + s.branch.value + "`")
    case GitStatusFailed => Some(s.status.error)
    case DirtyMain => Some("commit, stash, or remove local changes before releasing")
    case GitRefLookupFailed => Some(s.main.error)
    case TagLookupFailed => s.tagLookupError
    case TagExists => Some("tag `" + s.metadata.value.tag + "` already points at an existing release")
    case PreviousTagLookupFailed => Some(s.latestTag.error)
    case CommitCountFailed => Some(s.commitCount(s.latestTag.value).error)
    case VerificationStartFailed => Some(s.verification.error)
    case VerificationFailed =>
      if s.verification.value.details.Some? then s.verification.value.details else Some(s.verification.value.summary)
    case CommitSummaryFailed => Some(s.commitSummaries(s.latestTag.value).error)
    case NotesWriteFailed => Some(s.notesPath.error)
    case TagCreationFailed => if s.tagCreationError.Some? then s.tagCreationError else Some(s.head.error)
  }

  /** What a failed run leaves behind: everything learned before the step that failed, and nothing else. */
  function FailureRecord(r: Reason, s: Snapshot, tags: map<string, string>): Record
    requires Fails(r, s, tags)
  {
    Record(LearnedBefore(s, r.Step()), false, r.Code(), Details(r, s, tags))
  }

  function SuccessRecord(s: Snapshot): Record
    requires s.metadata.Ok?
  {
    Record(LearnedBefore(s, 15), true,
           "created annotated tag `" + s.metadata.value.tag + "` from clean green main", None)
  }

  /** The record that `run_release_with_verifier` returns when the first failing gate ends it. */
  ghost predicate EndsWith(failure: Record, s: Snapshot, tags: map<string, string>) {
    && FirstFailure(s, tags).Some?
    && var r := FirstFailure(s, tags).value; Fails(r, s, tags) && failure == FailureRecord(r, s, tags)
  }

  lemma FirstIsHere(k: nat, s: Snapshot, tags: map<string, string>)
    requires k < 15 && FirstFailure(s, tags) == FirstFrom(k, s, tags)
    requires Fails(REASONS[k], s, tags)
    ensures FirstFailure(s, tags) == Some(REASONS[k])
  {
  }

  lemma StepOfReason(k: nat)
    requires k < 15
    ensures REASONS[k].Step() == k
  {
  }

  lemma FailsHere(k: nat, draft: Draft, details: Option<string>, s: Snapshot, tags: map<string, string>)
    requires k < 15 && FirstFailure(s, tags) == FirstFrom(k, s, tags)
    requires Fails(REASONS[k], s, tags) && details == Details(REASONS[k], s, tags)
    requires draft == LearnedBefore(s, k)
    ensures EndsWith(Failure(draft, REASONS[k], details), s, tags)
  {
    FirstIsHere(k, s, tags);
    StepOfReason(k);
  }

  /** Which fields a run that came to `step` has filled. */
  ghost predicate ShowsProgress(fields: Draft, step: nat) {
    && (fields.packageName.Some? <==> step > 0)
    && (fields.version.Some? <==> step > 0)
    && (fields.tag.Some? <==> step > 0)
    && (fields.branch.Some? <==> step > 1)
    && (fields.gitRef.Some? <==> step > 5)
    && (fields.commitsSincePrevious.Some? <==> step > 9)
    && (fields.verificationCommand.Some? <==> step > 10)
    && (fields.verificationSummary.Some? <==> step > 10)
    && (fields.notesPath.Some? <==> step > 13)
  }

  /** Each filled field is what the run was told. */
  ghost predicate Truthful(fields: Draft, s: Snapshot) {
    && (fields.packageName.Some? ==> s.metadata.Ok? && s.metadata.value.packageName == fields.packageName.value)
    && (fields.version.Some? ==> s.metadata.Ok? && s.metadata.value.version == fields.version.value)
    && (fields.tag.Some? ==> s.metadata.Ok? && s.metadata.value.tag == fields.tag.value)
    && (fields.gitRef.Some? ==> s.main == Ok(fields.gitRef.value))
    && (fields.branch.Some? ==> s.branch == Ok(fields.branch.value))
    && (fields.commitsSincePrevious.Some? ==>
          s.latestTag.Ok? && s.commitCount(s.latestTag.value) == Ok(fields.commitsSincePrevious.value))
    && (fields.verificationCommand.Some? ==>
          s.verification.Ok? && s.verification.value.command == fields.verificationCommand.value)
    && (fields.verificationSummary.Some? ==>
          s.verification.Ok? && s.verification.value.summary == fields.verificationSummary.value)
    && (fields.notesPath.Some? ==> s.notesPath == Ok(fields.notesPath.value))
  }

  /** The fields of a run that came to `step`: which are filled, and with what. */
  ghost predicate Reports(fields: Draft, s: Snapshot, step: nat) {
    && ShowsProgress(fields, step) && Truthful(fields, s)
    && (step > 8 ==> s.latestTag == Ok(fields.previousTag))
    && (step <= 8 ==> fields.previousTag.None?)
  }

  lemma LearnedReports(s: Snapshot, step: nat)
    requires step > 0 ==> s.metadata.Ok?
    requires step > 1 ==> s.branch.Ok?
    requires step > 5 ==> s.main.Ok?
    requires step > 8 ==> s.latestTag.Ok?
    requires step > 9 ==> s.commitCount(s.latestTag.value).Ok?
    requires step > 10 ==> s.verification.Ok?
    requires step > 13 ==> s.notesPath.Ok?
    ensures Reports(LearnedBefore(s, step), s, step)
  {
  }

  lemma PassedEarlier(q: Reason, r: Reason, s: Snapshot, tags: map<string, string>)
    requires IsFirstFailure(r, s, tags)
    ensures q.Step() < r.Step() ==> !Fails(q, s, tags)
  {
  }

  /** A failure record is filled by exactly the steps before the one that failed, with what they were told. */
  lemma FailureRecordShowsProgress(r: Reason, s: Snapshot, tags: map<string, string>)
    requires IsFirstFailure(r, s, tags)
    ensures Reports(FailureRecord(r, s, tags).fields, s, r.Step())
  {
    PassedEarlier(MissingReleaseMetadata, r, s, tags);
    PassedEarlier(GitBranchLookupFailed, r, s, tags);
    PassedEarlier(GitRefLookupFailed, r, s, tags);
    PassedEarlier(PreviousTagLookupFailed, r, s, tags);
    PassedEarlier(CommitCountFailed, r, s, tags);
    PassedEarlier(VerificationStartFailed, r, s, tags);
    PassedEarlier(NotesWriteFailed, r, s, tags);
    LearnedReports(s, r.Step());
  }

  /** A success record is filled completely. */
  lemma SuccessRecordIsComplete(s: Snapshot, tags: map<string, string>)
    requires FirstFailure(s, tags).None?
    ensures s.metadata.Ok? && Reports(SuccessRecord(s).fields, s, 15)
  {
    FirstFailureIff(s, tags);
    assert !Fails(MissingReleaseMetadata, s, tags) && !Fails(GitBranchLookupFailed, s, tags);
    assert !Fails(GitRefLookupFailed, s, tags) && !Fails(PreviousTagLookupFailed, s, tags);
    assert !Fails(CommitCountFailed, s, tags) && !Fails(VerificationStartFailed, s, tags);
    assert !Fails(NotesWriteFailed, s, tags);
    LearnedReports(s, 15);
  }

  // ---- the readiness report ----------------------------------------------------------------

  /** `Gate` carries a reason of the release pipeline; the other blockers are known to the report only. */
  datatype Blocker =
    | Gate(reason: Reason, detail: string)
    | DirtyWorktree(entries: nat)
    | FailingChecks(checks: nat, commit: Option<string>)
    | FeedbackUnavailable(error: string)
    | VerificationUnavailable(error: string)
    | MissingVerificationEvidence
    | StaleDaemon(detail: string)

  datatype Report = Report(
    packageName: Option<string>,
    version: Option<string>,
    proposedTag: Option<string>,
    currentCommit: Option<string>,
    branch: Option<string>,
    previousTag: Option<string>,
    commitsSincePrevious: Option<nat>,
    recentlyMerged: seq<string>,
    verificationCommand: Option<string>,
    verificationSummary: Option<string>,
    feedback: Feedback,
    blockers: seq<Blocker>)

  const NO_FEEDBACK := Feedback([], None)

  function IdentityBlockers(s: Snapshot): seq<Blocker> {
    (if s.metadata.Err? then [Gate(MissingReleaseMetadata, s.metadata.error)] else [])
    + (if s.branch.Err? then [Gate(GitBranchLookupFailed, s.branch.error)]
       else if s.branch.value != "main" then [Gate(NotOnMain, s.branch.value)] else [])
  }

  function StateBlockers(s: Snapshot): seq<Blocker> {
    (if s.status.Err? then [Gate(GitStatusFailed, s.status.error)]
     else if DirtyEntries(Lines(s.status.value)) != [] then [DirtyWorktree(|DirtyEntries(Lines(s.status.value))|)]
     else [])
    + (if s.head.Err? then [Gate(GitRefLookupFailed, s.head.error)] else [])
  }

  function WorktreeBlockers(s: Snapshot): seq<Blocker> {
    IdentityBlockers(s) + StateBlockers(s)
  }

  function CheckBlockers(s: Snapshot): seq<Blocker> {
    match s.feedback(Known(s.head, true))
    case Err(error) => [FeedbackUnavailable(error)]
    case Ok(f) => if f.failing != [] then [FailingChecks(|f.failing|, f.currentCommit)] else []
  }

  function TagBlockers(s: Snapshot, tags: map<string, string>): seq<Blocker> {
    (if s.metadata.Err? then []
     else match TagLookup(s, tags, s.metadata.value.tag)
       case Err(error) => [Gate(TagLookupFailed, error)]
       case Ok(found) => if found then [Gate(TagExists, s.metadata.value.tag)] else [])
    + (if s.latestTag.Err? then [Gate(PreviousTagLookupFailed, s.latestTag.error)]
       else match s.commitCount(s.latestTag.value)
         case Err(error) => [Gate(CommitCountFailed, error)]
         case Ok(_) => [])
  }

  function VerificationBlockers(s: Snapshot): seq<Blocker> {
    match s.verification
    case Err(error) => [VerificationUnavailable(error)]
    case Ok(v) =>
      if !v.passed then [Gate(VerificationFailed, Trim(if v.details.Some? then v.details.value else Trim(v.summary)))]
      else if Trim(v.summary) == "" then [MissingVerificationEvidence]
      else []
  }

  function DaemonBlockers(s: Snapshot): seq<Blocker> {
    if s.daemonBlocker.Ok? && s.daemonBlocker.value.Some? then [StaleDaemon(s.daemonBlocker.value.value)] else []
  }

  function Blockers(s: Snapshot, tags: map<string, string>): seq<Blocker> {
    WorktreeBlockers(s) + CheckBlockers(s) + TagBlockers(s, tags) + VerificationBlockers(s) + DaemonBlockers(s)
  }

  /** There is a report, and it has no blocker: an unreadable event log or executable ends it with an error. */
  predicate Ready(s: Snapshot, tags: map<string, string>) {
    s.eventLog.Ok? && s.daemonBlocker.Ok? && Blockers(s, tags) == []
  }

  const RECENT_TASKS: nat := 10

  function RecentlyMerged(s: Snapshot): seq<string> {
    if s.eventLog.Ok? && s.eventLog.value.Some? then
      MergedTasks.LastN(MergedTasks.ByLastMerge(MergedTasks.MergedIds(Lines(s.eventLog.value.value), s.mergedTask)),
                        RECENT_TASKS)
    else []
  }

  function FeedbackOf(s: Snapshot): Feedback {
    if s.feedback(Known(s.head, true)).Ok? then s.feedback(Known(s.head, true)).value else NO_FEEDBACK
  }

  /** Every answer that was given, whatever the other answers are. */
  function ReportOf(s: Snapshot, tags: map<string, string>): Report {
    Report(
      if s.metadata.Ok? then Some(s.metadata.value.packageName) else None,
      if s.metadata.Ok? then Some(s.metadata.value.version) else None,
      if s.metadata.Ok? then Some(s.metadata.value.tag) else None,
      Known(s.head, true),
      Known(s.branch, true),
      if s.latestTag.Ok? then s.latestTag.value else None,
      if s.latestTag.Ok? then Known(s.commitCount(s.latestTag.value), true) else None,
      RecentlyMerged(s),
      if s.verification.Ok? then Some(s.verification.value.command) else None,
      if s.verification.Ok? then Some(Trim(s.verification.value.summary)) else None,
      FeedbackOf(s),
      Blockers(s, tags))
  }

  /** The record of a run that came to the tag. */
  function TagOutcome(draft: Draft, tag: string, error: Option<string>): Result<Record, Record> {
    if error.Some? then Err(Failure(draft, TagCreationFailed, error))
    else Ok(Record(draft, true, "created annotated tag `" + tag + "` from clean green main", None))
  }

  lemma TagFails(s: Snapshot, tags: map<string, string>, draft: Draft, tag: string, error: Option<string>)
    requires FirstFailure(s, tags) == FirstFrom(14, s, tags) && draft == LearnedBefore(s, 14)
    requires Fails(TagCreationFailed, s, tags) && error == Details(TagCreationFailed, s, tags)
    ensures FirstFailure(s, tags).Some?
    ensures TagOutcome(draft, tag, error).Err? && EndsWith(TagOutcome(draft, tag, error).error, s, tags)
  {
    FailsHere(14, draft, error, s, tags);
  }

  lemma TagSucceeds(s: Snapshot, tags: map<string, string>, draft: Draft)
    requires FirstFailure(s, tags) == FirstFrom(14, s, tags) && draft == LearnedBefore(s, 14)
    requires s.metadata.Ok? && !Fails(TagCreationFailed, s, tags)
    ensures FirstFailure(s, tags).None?
    ensures TagOutcome(draft, s.metadata.value.tag, None) == Ok(SuccessRecord(s))
  {
    assert LearnedBefore(s, 14) == LearnedBefore(s, 15);
  }

  // ---- the release -----------------------------------------------------------------------

  class TaggedRepository {
    /** Tag name to the commit it marks. */
    var tags: map<string, string>

    /** Worktree, branch and refs: no blocker ends the report. */
    method InspectWorktree(s: Snapshot, report0: Report) returns (report: Report)
      ensures report == report0.(
                packageName := if s.metadata.Ok? then Some(s.metadata.value.packageName) else report0.packageName,
                version := if s.metadata.Ok? then Some(s.metadata.value.version) else report0.version,
                proposedTag := if s.metadata.Ok? then Some(s.metadata.value.tag) else report0.proposedTag,
                currentCommit := if s.head.Ok? then Some(s.head.value) else report0.currentCommit,
                branch := if s.branch.Ok? then Some(s.branch.value) else report0.branch,
                blockers := report0.blockers + WorktreeBlockers(s))
    {
      report := InspectIdentity(s, report0);
      report := InspectState(s, report);
      ConcatAssociative(report0.blockers, IdentityBlockers(s), StateBlockers(s));
    }

    /** Metadata and branch. */
    method InspectIdentity(s: Snapshot, report0: Report) returns (report: Report)
      ensures report == report0.(
                packageName := if s.metadata.Ok? then Some(s.metadata.value.packageName) else report0.packageName,
                version := if s.metadata.Ok? then Some(s.metadata.value.version) else report0.version,
                proposedTag := if s.metadata.Ok? then Some(s.metadata.value.tag) else report0.proposedTag,
                branch := if s.branch.Ok? then Some(s.branch.value) else report0.branch,
                blockers := report0.blockers + IdentityBlockers(s))
    {
      report := report0;
      var found: seq<Blocker> := [];
      match s.metadata {
        case Ok(metadata) =>
          report := report.(packageName := Some(metadata.packageName), version := Some(metadata.version),
                            proposedTag := Some(metadata.tag));
        case Err(error) =>
          found := found + [Gate(MissingReleaseMetadata, error)];
      }
      match s.branch {
        case Ok(branch) =>
          if branch != "main" {
            found := found + [Gate(NotOnMain, branch)];
          }
          report := report.(branch := Some(branch));
        case Err(error) =>
          found := found + [Gate(GitBranchLookupFailed, error)];
      }
      report := report.(blockers := report.blockers + found);
    }

    /** Status and commit. */
    method InspectState(s: Snapshot, report0: Report) returns (report: Report)
      ensures report == report0.(
                currentCommit := if s.head.Ok? then Some(s.head.value) else report0.currentCommit,
                blockers := report0.blockers + StateBlockers(s))
    {
      report := report0;
      var found: seq<Blocker> := [];
      match s.status {
        case Ok(status) =>
          var entries := DirtyEntries(Lines(status));
          if entries != [] {
            found := found + [DirtyWorktree(|entries|)];
          }
        case Err(error) =>
          found := found + [Gate(GitStatusFailed, error)];
      }
      match s.head {
        case Ok(commit) => report := report.(currentCommit := Some(commit));
        case Err(error) => found := found + [Gate(GitRefLookupFailed, error)];
      }
      report := report.(blockers := report.blockers + found);
    }

    /** The proposed tag, where there is one, and the previous tag. */
    method InspectTags(s: Snapshot, report0: Report) returns (report: Report)
      requires report0.proposedTag == if s.metadata.Ok? then Some(s.metadata.value.tag) else None
      requires report0.previousTag == None && report0.commitsSincePrevious == None
      ensures report == report0.(
                previousTag := if s.latestTag.Ok? then s.latestTag.value else None,
                commitsSincePrevious :=
                  if s.latestTag.Ok? then Known(s.commitCount(s.latestTag.value), true) else None,
                blockers := report0.blockers + TagBlockers(s, tags))
    {
      report := report0;
      var found: seq<Blocker> := [];
      if report.proposedTag.Some? {
        match TagLookup(s, tags, report.proposedTag.value) {
          case Ok(taken) =>
            if taken {
              found := found + [Gate(TagExists, report.proposedTag.value)];
            }
          case Err(error) =>
            found := found + [Gate(TagLookupFailed, error)];
        }
      }
      match s.latestTag {
        case Ok(previousTag) =>
          report := report.(previousTag := previousTag);
          match s.commitCount(previousTag) {
            case Ok(count) => report := report.(commitsSincePrevious := Some(count));
            case Err(error) => found := found + [Gate(CommitCountFailed, error)];
          }
        case Err(error) =>
          found := found + [Gate(PreviousTagLookupFailed, error)];
      }
      report := report.(blockers := report.blockers + found);
    }

    /** The state of the checks for the reported commit. */
    method InspectChecks(s: Snapshot, report0: Report) returns (report: Report)
      requires report0.currentCommit == Known(s.head, true) && report0.feedback == NO_FEEDBACK
      ensures report == report0.(feedback := FeedbackOf(s), blockers := report0.blockers + CheckBlockers(s))
    {
      report := report0;
      match s.feedback(report.currentCommit) {
        case Ok(feedback) =>
          if feedback.failing != [] {
            var blocker := FailingChecks(|feedback.failing|, feedback.currentCommit);
            report := report.(blockers := report.blockers + [blocker]);
          }
          report := report.(feedback := feedback);
        case Err(error) =>
          report := report.(blockers := report.blockers + [FeedbackUnavailable(error)]);
      }
    }

    /** The outcome of the verification command, with the summary as evidence. */
    method InspectVerification(s: Snapshot, report0: Report) returns (report: Report)
      requires report0.verificationCommand == None && report0.verificationSummary == None
      ensures report == report0.(
                verificationCommand := if s.verification.Ok? then Some(s.verification.value.command) else None,
                verificationSummary := if s.verification.Ok? then Some(Trim(s.verification.value.summary)) else None,
                blockers := report0.blockers + VerificationBlockers(s))
    {
      report := report0;
      match s.verification {
        case Ok(v) =>
          var summary := Trim(v.summary);
          report := report.(verificationCommand := Some(v.command), verificationSummary := Some(summary));
          if !v.passed {
            var detail := Trim(if v.details.Some? then v.details.value else summary);
            report := report.(blockers := report.blockers + [Gate(VerificationFailed, detail)]);
          } else if summary == "" {
            report := report.(blockers := report.blockers + [MissingVerificationEvidence]);
          }
        case Err(error) =>
          report := report.(blockers := report.blockers + [VerificationUnavailable(error)]);
      }
    }

    /** All inspections in turn. */
    method Inspect(s: Snapshot, merged: seq<string>) returns (report: Report)
      ensures report == ReportOf(s, tags).(
                recentlyMerged := merged,
                blockers := WorktreeBlockers(s) + CheckBlockers(s) + TagBlockers(s, tags) + VerificationBlockers(s))
    {
      report := Report(None, None, None, None, None, None, None, merged, None, None, NO_FEEDBACK, []);
      report := InspectWorktree(s, report);
      assert report.blockers == WorktreeBlockers(s);
      report := InspectChecks(s, report);
      report := InspectTags(s, report);
      report := InspectVerification(s, report);
    }

    /** `generate_release_readiness_with_verifier`: asks everything and lists every blocker. */
    method Readiness(s: Snapshot) returns (result: Result<Report, string>)
      ensures result.Ok? <==> s.eventLog.Ok? && s.daemonBlocker.Ok?
      ensures result.Ok? ==> result.value == ReportOf(s, tags)
      ensures result.Ok? && result.value.blockers == [] <==> Ready(s, tags)
      ensures result.Err? ==> result.error == if s.eventLog.Err? then s.eventLog.error else s.daemonBlocker.error
    {
      if s.eventLog.Err? {
        return Err(s.eventLog.error);
      }
      var merged: seq<string> := [];
      if s.eventLog.value.Some? {
        merged := MergedTasks.CollectRecentlyMerged(s.eventLog.value.value, s.mergedTask, RECENT_TASKS);
      }
      var report := Inspect(s, merged);
      if s.daemonBlocker.Err? {
        return Err(s.daemonBlocker.error);
      }
      ghost var found := report.blockers;
      if s.daemonBlocker.value.Some? {
        report := report.(blockers := report.blockers + [StaleDaemon(s.daemonBlocker.value.value)]);
      }
      assert report.blockers == found + DaemonBlockers(s);
      return Ok(report);
    }

    /** `git tag -a`: marks `HEAD`. */
    method CreateTag(s: Snapshot, tag: string) returns (error: Option<string>)
      modifies this
      ensures error.Some? <==> Fails(TagCreationFailed, s, old(tags))
      ensures error.Some? ==> tags == old(tags) && error == Details(TagCreationFailed, s, old(tags))
      ensures error.None? ==> tags == old(tags)[tag := s.head.value]
    {
      if s.tagCreationError.Some? {
        return s.tagCreationError;
      }
      if s.head.Err? {
        return Some(s.head.error);
      }
      tags := tags[tag := s.head.value];
      return None;
    }

    /** Metadata, branch, clean worktree and the ref of `main`. */
    method CheckMain(s: Snapshot) returns (draft: Draft, failure: Option<Record>)
      ensures failure.None? ==> FirstFailure(s, tags) == FirstFrom(6, s, tags)
      ensures failure.None? ==> draft == LearnedBefore(s, 6) && s.metadata.Ok?
      ensures failure.Some? ==> EndsWith(failure.value, s, tags)
    {
      draft := EMPTY_DRAFT;
      if s.metadata.Err? {
        FailsHere(0, draft, Some(s.metadata.error), s, tags);
        return draft, Some(Failure(draft, MissingReleaseMetadata, Some(s.metadata.error)));
      }
      assert FirstFailure(s, tags) == FirstFrom(1, s, tags);
      var metadata := s.metadata.value;
      draft := draft.(packageName := Some(metadata.packageName), version := Some(metadata.version),
                      tag := Some(metadata.tag));
      if s.branch.Err? {
        FailsHere(1, draft, Some(s.branch.error), s, tags);
        return draft, Some(Failure(draft, GitBranchLookupFailed, Some(s.branch.error)));
      }
      assert FirstFailure(s, tags) == FirstFrom(2, s, tags);
      draft := draft.(branch := Some(s.branch.value));
      if s.branch.value != "main" {
        FailsHere(2, draft, Some("current branch is `" + s.branch.value + "`"), s, tags);
        return draft, Some(Failure(draft, NotOnMain, Some("current branch is `" + s.branch.value + "`")));
      }
      assert FirstFailure(s, tags) == FirstFrom(3, s, tags);
      if s.status.Err? {
        FailsHere(3, draft, Some(s.status.error), s, tags);
        return draft, Some(Failure(draft, GitStatusFailed, Some(s.status.error)));
      }
      assert FirstFailure(s, tags) == FirstFrom(4, s, tags);
      if IsDirty(s.status.value) {
        FailsHere(4, draft, Some("commit, stash, or remove local changes before releasing"), s, tags);
        return draft,
               Some(Failure(draft, DirtyMain, Some("commit, stash, or remove local changes before releasing")));
      }
      assert FirstFailure(s, tags) == FirstFrom(5, s, tags);
      if s.main.Err? {
        FailsHere(5, draft, Some(s.main.error), s, tags);
        return draft, Some(Failure(draft, GitRefLookupFailed, Some(s.main.error)));
      }
      draft := draft.(gitRef := Some(s.main.value));
      return draft, None;
    }

    /** Target tag, previous tag and commit count. */
    method CheckHistory(s: Snapshot, draft0: Draft, tag: string) returns (draft: Draft, failure: Option<Record>)
      requires s.metadata.Ok? && tag == s.metadata.value.tag && draft0 == LearnedBefore(s, 6)
      requires FirstFailure(s, tags) == FirstFrom(6, s, tags)
      ensures failure.None? ==> FirstFailure(s, tags) == FirstFrom(10, s, tags)
      ensures failure.None? ==> draft == LearnedBefore(s, 10) && s.latestTag.Ok? && tag !in tags
      ensures failure.Some? ==> EndsWith(failure.value, s, tags)
    {
      draft := draft0;
      var lookup := TagLookup(s, tags, tag);
      if lookup.Err? {
        FailsHere(6, draft, Some(lookup.error), s, tags);
        return draft, Some(Failure(draft, TagLookupFailed, Some(lookup.error)));
      }
      assert FirstFailure(s, tags) == FirstFrom(7, s, tags);
      if lookup.value {
        FailsHere(7, draft, Some("tag `" + tag + "` already points at an existing release"), s, tags);
        return draft,
               Some(Failure(draft, TagExists, Some("tag `" + tag + "` already points at an existing release")));
      }
      assert FirstFailure(s, tags) == FirstFrom(8, s, tags);
      if s.latestTag.Err? {
        FailsHere(8, draft, Some(s.latestTag.error), s, tags);
        return draft, Some(Failure(draft, PreviousTagLookupFailed, Some(s.latestTag.error)));
      }
      assert FirstFailure(s, tags) == FirstFrom(9, s, tags);
      var previousTag := s.latestTag.value;
      draft := draft.(previousTag := previousTag);
      var count := s.commitCount(previousTag);
      if count.Err? {
        FailsHere(9, draft, Some(count.error), s, tags);
        return draft, Some(Failure(draft, CommitCountFailed, Some(count.error)));
      }
      draft := draft.(commitsSincePrevious := Some(count.value));
      return draft, None;
    }

    /** The verification command has run and is green. */
    method CheckVerification(s: Snapshot, draft0: Draft) returns (draft: Draft, failure: Option<Record>)
      requires draft0 == LearnedBefore(s, 10) && FirstFailure(s, tags) == FirstFrom(10, s, tags)
      ensures failure.None? ==> FirstFailure(s, tags) == FirstFrom(12, s, tags) && draft == LearnedBefore(s, 12)
      ensures failure.Some? ==> EndsWith(failure.value, s, tags)
    {
      draft := draft0;
      if s.verification.Err? {
        FailsHere(10, draft, Some(s.verification.error), s, tags);
        return draft, Some(Failure(draft, VerificationStartFailed, Some(s.verification.error)));
      }
      assert FirstFailure(s, tags) == FirstFrom(11, s, tags);
      var verification := s.verification.value;
      draft := draft.(verificationCommand := Some(verification.command),
                      verificationSummary := Some(verification.summary));
      if !verification.passed {
        var details := if verification.details.Some? then verification.details else Some(verification.summary);
        FailsHere(11, draft, details, s, tags);
        return draft, Some(Failure(draft, VerificationFailed, details));
      }
      return draft, None;
    }

    /** Target tag, previous tag, commit count and verification. */
    method CheckRelease(s: Snapshot, draft0: Draft, tag: string) returns (draft: Draft, failure: Option<Record>)
      requires s.metadata.Ok? && tag == s.metadata.value.tag && draft0 == LearnedBefore(s, 6)
      requires FirstFailure(s, tags) == FirstFrom(6, s, tags)
      ensures failure.None? ==> FirstFailure(s, tags) == FirstFrom(12, s, tags)
      ensures failure.None? ==> draft == LearnedBefore(s, 12) && s.latestTag.Ok? && tag !in tags
      ensures failure.Some? ==> EndsWith(failure.value, s, tags)
    {
      draft, failure := CheckHistory(s, draft0, tag);
      if failure.None? {
        draft, failure := CheckVerification(s, draft);
      }
    }

    /** Commit summaries and notes. */
    method WriteNotes(s: Snapshot, draft0: Draft) returns (draft: Draft, failure: Option<Record>)
      requires s.latestTag.Ok? && draft0 == LearnedBefore(s, 12)
      requires FirstFailure(s, tags) == FirstFrom(12, s, tags)
      ensures failure.None? ==> FirstFailure(s, tags) == FirstFrom(14, s, tags) && draft == LearnedBefore(s, 14)
      ensures failure.Some? ==> EndsWith(failure.value, s, tags)
    {
      draft := draft0;
      var summaries := s.commitSummaries(s.latestTag.value);
      if summaries.Err? {
        FailsHere(12, draft, Some(summaries.error), s, tags);
        return draft, Some(Failure(draft, CommitSummaryFailed, Some(summaries.error)));
      }
      assert FirstFailure(s, tags) == FirstFrom(13, s, tags);
      if s.notesPath.Err? {
        FailsHere(13, draft, Some(s.notesPath.error), s, tags);
        return draft, Some(Failure(draft, NotesWriteFailed, Some(s.notesPath.error)));
      }
      draft := draft.(notesPath := Some(s.notesPath.value));
      return draft, None;
    }

    /** Notes and tag, once every gate has passed. */
    method Publish(s: Snapshot, draft0: Draft) returns (result: Result<Record, Record>)
      requires s.metadata.Ok? && s.latestTag.Ok? && draft0 == LearnedBefore(s, 12)
      requires FirstFailure(s, tags) == FirstFrom(12, s, tags)
      modifies this
      ensures result.Ok? <==> FirstFailure(s, old(tags)).None?
      ensures result.Err? ==> tags == old(tags) && EndsWith(result.error, s, tags)
      ensures result.Ok? ==>
        && s.head.Ok? && tags == old(tags)[s.metadata.value.tag := s.head.value]
        && result.value == SuccessRecord(s)
    {
      var draft, failure := WriteNotes(s, draft0);
      if failure.Some? {
        return Err(failure.value);
      }
      ghost var before := tags;
      var tag := s.metadata.value.tag;
      var error := CreateTag(s, tag);
      if error.Some? {
        TagFails(s, before, draft, tag, error);
      } else {
        TagSucceeds(s, before, draft);
      }
      return TagOutcome(draft, tag, error);
    }

    /** `run_release_with_verifier`: every gate that fails ends the run with what the draft holds so far. */
    method Run(s: Snapshot) returns (result: Result<Record, Record>)
      modifies this
      ensures result.Ok? <==> FirstFailure(s, old(tags)).None?
      ensures result.Err? ==> tags == old(tags) && EndsWith(result.error, s, tags)
      ensures result.Err? ==>
        var r := FirstFailure(s, old(tags)).value;
        !result.error.success && result.error.reason == r.Code() && Reports(result.error.fields, s, r.Step())
      ensures result.Ok? ==>
        && s.metadata.Ok? && s.head.Ok? && s.metadata.value.tag !in old(tags)
        && tags == old(tags)[s.metadata.value.tag := s.head.value]
        && result.value == SuccessRecord(s) && result.value.success && Reports(result.value.fields, s, 15)
    {
      FirstFailureIff(s, tags);
      if FirstFailure(s, tags).Some? {
        FailureRecordShowsProgress(FirstFailure(s, tags).value, s, tags);
      } else {
        SuccessRecordIsComplete(s, tags);
      }
      var draft, failure := CheckMain(s);
      if failure.Some? {
        return Err(failure.value);
      }
      draft, failure := CheckRelease(s, draft, s.metadata.value.tag);
      if failure.Some? {
        return Err(failure.value);
      }
      result := Publish(s, draft);
    }
  }

  /** The record names the commit that was tagged exactly when `main` and `HEAD` are the same commit. */
  lemma RecordNamesTaggedCommitIff(s: Snapshot, tags: map<string, string>)
    requires FirstFailure(s, tags).None?
    ensures s.metadata.Ok? && s.head.Ok? && s.main.Ok?
    ensures var after := tags[s.metadata.value.tag := s.head.value];
            SuccessRecord(s).fields.gitRef == Some(after[s.metadata.value.tag]) <==> s.main == s.head
  {
    FirstFailureIff(s, tags);
    assert !Fails(MissingReleaseMetadata, s, tags) && !Fails(GitRefLookupFailed, s, tags);
    assert !Fails(TagCreationFailed, s, tags);
  }

  /** Nothing is released twice: in the same state, a second run stops at the tag that the first one made. */
  lemma SecondRunStopsAtTag(s: Snapshot, tags: map<string, string>)
    requires FirstFailure(s, tags).None?
    ensures s.metadata.Ok? && s.head.Ok?
    ensures FirstFailure(s, tags[s.metadata.value.tag := s.head.value]) == Some(TagExists)
  {
    FirstFailureIff(s, tags);
    assert !Fails(MissingReleaseMetadata, s, tags) && !Fails(TagCreationFailed, s, tags);
    var after := tags[s.metadata.value.tag := s.head.value];
    assert !Fails(TagLookupFailed, s, tags);
    assert Fails(TagExists, s, after);
    forall q: Reason | q.Step() < TagExists.Step() ensures !Fails(q, s, after) {
      assert !Fails(q, s, tags);
    }
    FirstFailureIff(s, after);
    FirstFailureIsUnique(TagExists, FirstFailure(s, after).value, s, after);
  }

  // ---- what readiness means ---------------------------------------------------------------

  /** What the report asks for beyond the gates of the release. */
  predicate ExtraChecksPass(s: Snapshot) {
    && s.eventLog.Ok?
    && s.feedback(Known(s.head, true)).Ok? && s.feedback(Known(s.head, true)).value.failing == []
    && (s.verification.Ok? ==> Trim(s.verification.value.summary) != "")
    && s.daemonBlocker == Ok(None)
  }

  /** The gates as the report sees them: it resolves `HEAD` where the release resolves `main`. */
  ghost predicate PassesGatesAtHead(s: Snapshot, tags: map<string, string>) {
    s.head.Ok? && forall q: Reason :: q.IsGate() && q != GitRefLookupFailed ==> !Fails(q, s, tags)
  }

  lemma WorktreeReadyIff(s: Snapshot, tags: map<string, string>)
    ensures WorktreeBlockers(s) == [] <==>
            && s.head.Ok?
            && !Fails(MissingReleaseMetadata, s, tags) && !Fails(GitBranchLookupFailed, s, tags)
            && !Fails(NotOnMain, s, tags) && !Fails(GitStatusFailed, s, tags) && !Fails(DirtyMain, s, tags)
  {
    if s.status.Ok? {
      DirtyEntriesIff(Lines(s.status.value));
    }
  }

  lemma TagsReadyIff(s: Snapshot, tags: map<string, string>)
    ensures TagBlockers(s, tags) == [] <==>
            && !Fails(TagLookupFailed, s, tags) && !Fails(TagExists, s, tags)
            && !Fails(PreviousTagLookupFailed, s, tags) && !Fails(CommitCountFailed, s, tags)
  {
  }

  lemma RemainingReadyIff(s: Snapshot, tags: map<string, string>)
    ensures && s.eventLog.Ok? && s.daemonBlocker.Ok?
            && CheckBlockers(s) == [] && VerificationBlockers(s) == [] && DaemonBlockers(s) == [] <==>
            !Fails(VerificationStartFailed, s, tags) && !Fails(VerificationFailed, s, tags) && ExtraChecksPass(s)
  {
  }

  lemma BlockersEmptyIff(s: Snapshot, tags: map<string, string>)
    ensures Blockers(s, tags) == [] <==>
            && WorktreeBlockers(s) == [] && CheckBlockers(s) == [] && TagBlockers(s, tags) == []
            && VerificationBlockers(s) == [] && DaemonBlockers(s) == []
  {
  }

  lemma GatesOneByOne(s: Snapshot, tags: map<string, string>)
    ensures PassesGatesAtHead(s, tags) <==>
            && s.head.Ok?
            && !Fails(MissingReleaseMetadata, s, tags) && !Fails(GitBranchLookupFailed, s, tags)
            && !Fails(NotOnMain, s, tags) && !Fails(GitStatusFailed, s, tags) && !Fails(DirtyMain, s, tags)
            && !Fails(TagLookupFailed, s, tags) && !Fails(TagExists, s, tags)
            && !Fails(PreviousTagLookupFailed, s, tags) && !Fails(CommitCountFailed, s, tags)
            && !Fails(VerificationStartFailed, s, tags) && !Fails(VerificationFailed, s, tags)
  {
  }

  /** Two pipelines, one verdict: ready means that the gates pass at `HEAD` and the extra checks pass. */
  lemma ReadyIff(s: Snapshot, tags: map<string, string>)
    ensures Ready(s, tags) <==> PassesGatesAtHead(s, tags) && ExtraChecksPass(s)
  {
    BlockersEmptyIff(s, tags);
    WorktreeReadyIff(s, tags);
    TagsReadyIff(s, tags);
    RemainingReadyIff(s, tags);
    GatesOneByOne(s, tags);
  }

  /** A ready report predicts the release: where `main` resolves, no gate stops it. */
  lemma ReadyReleasePassesGates(s: Snapshot, tags: map<string, string>)
    requires Ready(s, tags)
    ensures s.main.Ok? <==> PassesGates(s, tags)
    ensures var first := FirstFailure(s, tags);
            first.None? || first.value == GitRefLookupFailed || !first.value.IsGate()
  {
    ReadyIff(s, tags);
    FirstFailureIff(s, tags);
    assert s.main.Ok? <==> !Fails(GitRefLookupFailed, s, tags);
  }

  /** A release that gets past its gates was not announced as ready exactly when `HEAD` or an extra check failed. */
  lemma UnannouncedReleaseIff(s: Snapshot, tags: map<string, string>)
    requires FirstFailure(s, tags).None? || !FirstFailure(s, tags).value.IsGate()
    ensures !Ready(s, tags) <==> s.head.Err? || !ExtraChecksPass(s)
  {
    ReadyIff(s, tags);
    FirstFailureIff(s, tags);
    if FirstFailure(s, tags).Some? {
      var first := FirstFailure(s, tags).value;
      forall q: Reason | q.IsGate() ensures !Fails(q, s, tags) {
        PassedEarlier(q, first, s, tags);
      }
    }
  }
}
